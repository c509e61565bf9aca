/**
  The boards the tests of the three source files build with `from_string`,
  written out square by square, each with the lemma that parsing its text
  gives it. `Board5xx_xx2_xxx` is the board of the text "5__\n__2\n___":
  its rows, '_' written 'x', joined by '_'.
*/
module TestBoards {
  import opened Wrappers
  import opened Boards
  import opened BoardText

  const Board5xx_xx2_xxx: Board := Board([[Filled(Five), Empty, Empty], [Empty, Empty, Empty], [Empty, Filled(Two), Empty]])

  lemma Grid5xx_xx2_xxx()
    ensures IsGridLine("5__") && IsGridLine("__2") && IsGridLine("___")
    ensures GridOf(["5__", "__2", "___"]) == Board5xx_xx2_xxx
  {
    BoardExtensionality(GridOf(["5__", "__2", "___"]), Board5xx_xx2_xxx);
  }

  lemma Parse5xx_xx2_xxx()
    ensures ScanLines(TextLines("5__\n__2\n___"), 0) == Clean
    ensures ParseBoard("5__\n__2\n___") == Ok(Board5xx_xx2_xxx)
  {
    Grid5xx_xx2_xxx();
    ParseGrid("5__", "__2", "___");
    assert "5__" + "\n" + "__2" + "\n" + "___" == "5__\n__2\n___";
  }

  const Board5xx_5x2_1xx: Board := Board([[Filled(Five), Filled(Five), Filled(One)], [Empty, Empty, Empty], [Empty, Filled(Two), Empty]])

  lemma Grid5xx_5x2_1xx()
    ensures IsGridLine("5__") && IsGridLine("5_2") && IsGridLine("1__")
    ensures GridOf(["5__", "5_2", "1__"]) == Board5xx_5x2_1xx
  {
    BoardExtensionality(GridOf(["5__", "5_2", "1__"]), Board5xx_5x2_1xx);
  }

  lemma Parse5xx_5x2_1xx()
    ensures ScanLines(TextLines("5__\n5_2\n1__"), 0) == Clean
    ensures ParseBoard("5__\n5_2\n1__") == Ok(Board5xx_5x2_1xx)
  {
    Grid5xx_5x2_1xx();
    ParseGrid("5__", "5_2", "1__");
    assert "5__" + "\n" + "5_2" + "\n" + "1__" == "5__\n5_2\n1__";
  }

  const Board4x2_5x2_1x2: Board := Board([[Filled(Four), Filled(Five), Filled(One)], [Empty, Empty, Empty], [Filled(Two), Filled(Two), Filled(Two)]])

  lemma Grid4x2_5x2_1x2()
    ensures IsGridLine("4_2") && IsGridLine("5_2") && IsGridLine("1_2")
    ensures GridOf(["4_2", "5_2", "1_2"]) == Board4x2_5x2_1x2
  {
    BoardExtensionality(GridOf(["4_2", "5_2", "1_2"]), Board4x2_5x2_1x2);
  }

  lemma Parse4x2_5x2_1x2()
    ensures ScanLines(TextLines("4_2\n5_2\n1_2"), 0) == Clean
    ensures ParseBoard("4_2\n5_2\n1_2") == Ok(Board4x2_5x2_1x2)
  {
    Grid4x2_5x2_1x2();
    ParseGrid("4_2", "5_2", "1_2");
    assert "4_2" + "\n" + "5_2" + "\n" + "1_2" == "4_2\n5_2\n1_2";
  }

  const Board412_542_162: Board := Board([[Filled(Four), Filled(Five), Filled(One)], [Filled(One), Filled(Four), Filled(Six)], [Filled(Two), Filled(Two), Filled(Two)]])

  lemma Grid412_542_162()
    ensures IsGridLine("412") && IsGridLine("542") && IsGridLine("162")
    ensures GridOf(["412", "542", "162"]) == Board412_542_162
  {
    BoardExtensionality(GridOf(["412", "542", "162"]), Board412_542_162);
  }

  lemma Parse412_542_162()
    ensures ScanLines(TextLines("412\n542\n162"), 0) == Clean
    ensures ParseBoard("412\n542\n162") == Ok(Board412_542_162)
  {
    Grid412_542_162();
    ParseGrid("412", "542", "162");
    assert "412" + "\n" + "542" + "\n" + "162" == "412\n542\n162";
  }

  const Board2xx_xxx_xxx: Board := Board([[Filled(Two), Empty, Empty], [Empty, Empty, Empty], [Empty, Empty, Empty]])

  lemma Grid2xx_xxx_xxx()
    ensures IsGridLine("2__") && IsGridLine("___") && IsGridLine("___")
    ensures GridOf(["2__", "___", "___"]) == Board2xx_xxx_xxx
  {
    BoardExtensionality(GridOf(["2__", "___", "___"]), Board2xx_xxx_xxx);
  }

  lemma Parse2xx_xxx_xxx()
    ensures ScanLines(TextLines("2__\n___\n___"), 0) == Clean
    ensures ParseBoard("2__\n___\n___") == Ok(Board2xx_xxx_xxx)
  {
    Grid2xx_xxx_xxx();
    ParseGrid("2__", "___", "___");
    assert "2__" + "\n" + "___" + "\n" + "___" == "2__\n___\n___";
  }

  const Board255_122_352: Board := Board([[Filled(Two), Filled(One), Filled(Three)], [Filled(Five), Filled(Two), Filled(Five)], [Filled(Five), Filled(Two), Filled(Two)]])

  lemma Grid255_122_352()
    ensures IsGridLine("255") && IsGridLine("122") && IsGridLine("352")
    ensures GridOf(["255", "122", "352"]) == Board255_122_352
  {
    BoardExtensionality(GridOf(["255", "122", "352"]), Board255_122_352);
  }

  lemma Parse255_122_352()
    ensures ScanLines(TextLines("255\n122\n352"), 0) == Clean
    ensures ParseBoard("255\n122\n352") == Ok(Board255_122_352)
  {
    Grid255_122_352();
    ParseGrid("255", "122", "352");
    assert "255" + "\n" + "122" + "\n" + "352" == "255\n122\n352";
  }

  const Board15x_333_12x: Board := Board([[Filled(One), Filled(Three), Filled(One)], [Filled(Five), Filled(Three), Filled(Two)], [Empty, Filled(Three), Empty]])

  lemma Grid15x_333_12x()
    ensures IsGridLine("15_") && IsGridLine("333") && IsGridLine("12_")
    ensures GridOf(["15_", "333", "12_"]) == Board15x_333_12x
  {
    BoardExtensionality(GridOf(["15_", "333", "12_"]), Board15x_333_12x);
  }

  lemma Parse15x_333_12x()
    ensures ScanLines(TextLines("15_\n333\n12_"), 0) == Clean
    ensures ParseBoard("15_\n333\n12_") == Ok(Board15x_333_12x)
  {
    Grid15x_333_12x();
    ParseGrid("15_", "333", "12_");
    assert "15_" + "\n" + "333" + "\n" + "12_" == "15_\n333\n12_";
  }

  const Board111_111_111: Board := Board([[Filled(One), Filled(One), Filled(One)], [Filled(One), Filled(One), Filled(One)], [Filled(One), Filled(One), Filled(One)]])

  lemma Grid111_111_111()
    ensures IsGridLine("111") && IsGridLine("111") && IsGridLine("111")
    ensures GridOf(["111", "111", "111"]) == Board111_111_111
  {
    BoardExtensionality(GridOf(["111", "111", "111"]), Board111_111_111);
  }

  lemma Parse111_111_111()
    ensures ScanLines(TextLines("111\n111\n111"), 0) == Clean
    ensures ParseBoard("111\n111\n111") == Ok(Board111_111_111)
  {
    Grid111_111_111();
    ParseGrid("111", "111", "111");
    assert "111" + "\n" + "111" + "\n" + "111" == "111\n111\n111";
  }

  const Board24x_25x_2xx: Board := Board([[Filled(Two), Filled(Two), Filled(Two)], [Filled(Four), Filled(Five), Empty], [Empty, Empty, Empty]])

  lemma Grid24x_25x_2xx()
    ensures IsGridLine("24_") && IsGridLine("25_") && IsGridLine("2__")
    ensures GridOf(["24_", "25_", "2__"]) == Board24x_25x_2xx
  {
    BoardExtensionality(GridOf(["24_", "25_", "2__"]), Board24x_25x_2xx);
  }

  lemma Parse24x_25x_2xx()
    ensures ScanLines(TextLines("24_\n25_\n2__"), 0) == Clean
    ensures ParseBoard("24_\n25_\n2__") == Ok(Board24x_25x_2xx)
  {
    Grid24x_25x_2xx();
    ParseGrid("24_", "25_", "2__");
    assert "24_" + "\n" + "25_" + "\n" + "2__" == "24_\n25_\n2__";
  }

  const Board2x5_122_352: Board := Board([[Filled(Two), Filled(One), Filled(Three)], [Empty, Filled(Two), Filled(Five)], [Filled(Five), Filled(Two), Filled(Two)]])

  lemma Grid2x5_122_352()
    ensures IsGridLine("2_5") && IsGridLine("122") && IsGridLine("352")
    ensures GridOf(["2_5", "122", "352"]) == Board2x5_122_352
  {
    BoardExtensionality(GridOf(["2_5", "122", "352"]), Board2x5_122_352);
  }

  lemma Parse2x5_122_352()
    ensures ScanLines(TextLines("2_5\n122\n352"), 0) == Clean
    ensures ParseBoard("2_5\n122\n352") == Ok(Board2x5_122_352)
  {
    Grid2x5_122_352();
    ParseGrid("2_5", "122", "352");
    assert "2_5" + "\n" + "122" + "\n" + "352" == "2_5\n122\n352";
  }

  const Board255_1x2_352: Board := Board([[Filled(Two), Filled(One), Filled(Three)], [Filled(Five), Empty, Filled(Five)], [Filled(Five), Filled(Two), Filled(Two)]])

  lemma Grid255_1x2_352()
    ensures IsGridLine("255") && IsGridLine("1_2") && IsGridLine("352")
    ensures GridOf(["255", "1_2", "352"]) == Board255_1x2_352
  {
    BoardExtensionality(GridOf(["255", "1_2", "352"]), Board255_1x2_352);
  }

  lemma Parse255_1x2_352()
    ensures ScanLines(TextLines("255\n1_2\n352"), 0) == Clean
    ensures ParseBoard("255\n1_2\n352") == Ok(Board255_1x2_352)
  {
    Grid255_1x2_352();
    ParseGrid("255", "1_2", "352");
    assert "255" + "\n" + "1_2" + "\n" + "352" == "255\n1_2\n352";
  }

  const Board235_1x2_3x2: Board := Board([[Filled(Two), Filled(One), Filled(Three)], [Filled(Three), Empty, Empty], [Filled(Five), Filled(Two), Filled(Two)]])

  lemma Grid235_1x2_3x2()
    ensures IsGridLine("235") && IsGridLine("1_2") && IsGridLine("3_2")
    ensures GridOf(["235", "1_2", "3_2"]) == Board235_1x2_3x2
  {
    BoardExtensionality(GridOf(["235", "1_2", "3_2"]), Board235_1x2_3x2);
  }

  lemma Parse235_1x2_3x2()
    ensures ScanLines(TextLines("235\n1_2\n3_2"), 0) == Clean
    ensures ParseBoard("235\n1_2\n3_2") == Ok(Board235_1x2_3x2)
  {
    Grid235_1x2_3x2();
    ParseGrid("235", "1_2", "3_2");
    assert "235" + "\n" + "1_2" + "\n" + "3_2" == "235\n1_2\n3_2";
  }

  const Board255_1x2_652: Board := Board([[Filled(Two), Filled(One), Filled(Six)], [Filled(Five), Empty, Filled(Five)], [Filled(Five), Filled(Two), Filled(Two)]])

  lemma Grid255_1x2_652()
    ensures IsGridLine("255") && IsGridLine("1_2") && IsGridLine("652")
    ensures GridOf(["255", "1_2", "652"]) == Board255_1x2_652
  {
    BoardExtensionality(GridOf(["255", "1_2", "652"]), Board255_1x2_652);
  }

  lemma Parse255_1x2_652()
    ensures ScanLines(TextLines("255\n1_2\n652"), 0) == Clean
    ensures ParseBoard("255\n1_2\n652") == Ok(Board255_1x2_652)
  {
    Grid255_1x2_652();
    ParseGrid("255", "1_2", "652");
    assert "255" + "\n" + "1_2" + "\n" + "652" == "255\n1_2\n652";
  }

  const Board651_142_62x: Board := Board([[Filled(Six), Filled(One), Filled(Six)], [Filled(Five), Filled(Four), Filled(Two)], [Filled(One), Filled(Two), Empty]])

  lemma Grid651_142_62x()
    ensures IsGridLine("651") && IsGridLine("142") && IsGridLine("62_")
    ensures GridOf(["651", "142", "62_"]) == Board651_142_62x
  {
    BoardExtensionality(GridOf(["651", "142", "62_"]), Board651_142_62x);
  }

  lemma Parse651_142_62x()
    ensures ScanLines(TextLines("651\n142\n62_"), 0) == Clean
    ensures ParseBoard("651\n142\n62_") == Ok(Board651_142_62x)
  {
    Grid651_142_62x();
    ParseGrid("651", "142", "62_");
    assert "651" + "\n" + "142" + "\n" + "62_" == "651\n142\n62_";
  }

  const Board256_1x2_62x: Board := Board([[Filled(Two), Filled(One), Filled(Six)], [Filled(Five), Empty, Filled(Two)], [Filled(Six), Filled(Two), Empty]])

  lemma Grid256_1x2_62x()
    ensures IsGridLine("256") && IsGridLine("1_2") && IsGridLine("62_")
    ensures GridOf(["256", "1_2", "62_"]) == Board256_1x2_62x
  {
    BoardExtensionality(GridOf(["256", "1_2", "62_"]), Board256_1x2_62x);
  }

  lemma Parse256_1x2_62x()
    ensures ScanLines(TextLines("256\n1_2\n62_"), 0) == Clean
    ensures ParseBoard("256\n1_2\n62_") == Ok(Board256_1x2_62x)
  {
    Grid256_1x2_62x();
    ParseGrid("256", "1_2", "62_");
    assert "256" + "\n" + "1_2" + "\n" + "62_" == "256\n1_2\n62_";
  }

  const Board111_111_11x: Board := Board([[Filled(One), Filled(One), Filled(One)], [Filled(One), Filled(One), Filled(One)], [Filled(One), Filled(One), Empty]])

  lemma Grid111_111_11x()
    ensures IsGridLine("111") && IsGridLine("111") && IsGridLine("11_")
    ensures GridOf(["111", "111", "11_"]) == Board111_111_11x
  {
    BoardExtensionality(GridOf(["111", "111", "11_"]), Board111_111_11x);
  }

  lemma Parse111_111_11x()
    ensures ScanLines(TextLines("111\n111\n11_"), 0) == Clean
    ensures ParseBoard("111\n111\n11_") == Ok(Board111_111_11x)
  {
    Grid111_111_11x();
    ParseGrid("111", "111", "11_");
    assert "111" + "\n" + "111" + "\n" + "11_" == "111\n111\n11_";
  }

  const Board222_222_22x: Board := Board([[Filled(Two), Filled(Two), Filled(Two)], [Filled(Two), Filled(Two), Filled(Two)], [Filled(Two), Filled(Two), Empty]])

  lemma Grid222_222_22x()
    ensures IsGridLine("222") && IsGridLine("222") && IsGridLine("22_")
    ensures GridOf(["222", "222", "22_"]) == Board222_222_22x
  {
    BoardExtensionality(GridOf(["222", "222", "22_"]), Board222_222_22x);
  }

  lemma Parse222_222_22x()
    ensures ScanLines(TextLines("222\n222\n22_"), 0) == Clean
    ensures ParseBoard("222\n222\n22_") == Ok(Board222_222_22x)
  {
    Grid222_222_22x();
    ParseGrid("222", "222", "22_");
    assert "222" + "\n" + "222" + "\n" + "22_" == "222\n222\n22_";
  }

  const Boardxx1_xxx_xxx: Board := Board([[Empty, Empty, Empty], [Empty, Empty, Empty], [Filled(One), Empty, Empty]])

  lemma Gridxx1_xxx_xxx()
    ensures IsGridLine("__1") && IsGridLine("___") && IsGridLine("___")
    ensures GridOf(["__1", "___", "___"]) == Boardxx1_xxx_xxx
  {
    BoardExtensionality(GridOf(["__1", "___", "___"]), Boardxx1_xxx_xxx);
  }

  lemma Parsexx1_xxx_xxx()
    ensures ScanLines(TextLines("__1\n___\n___"), 0) == Clean
    ensures ParseBoard("__1\n___\n___") == Ok(Boardxx1_xxx_xxx)
  {
    Gridxx1_xxx_xxx();
    ParseGrid("__1", "___", "___");
    assert "__1" + "\n" + "___" + "\n" + "___" == "__1\n___\n___";
  }
}
