/**
  The board tests of src/board/board.rs, on the boards `from_string` parses
  from the tests' texts: first what holds of each board, then the test,
  which parses the text and asks it.
*/
module BoardExamples {
  import opened Wrappers
  import opened Boards
  import opened BoardText
  import opened TestBoards

  /** The empty board scores 0 and is not full. */
  lemma EmptyBoardExample()
    ensures Score(EmptyBoard()) == 0
    ensures !IsFull(EmptyBoard())
  {
    assert EmptyBoard().columns[0][0] == Empty;
  }

  /** No two dice are equal: 5 + 2; the board is not full. */
  lemma Board5xx_xx2_xxxFacts()
    ensures Score(Board5xx_xx2_xxx) == 7 && !IsFull(Board5xx_xx2_xxx)
  {
    assert Board5xx_xx2_xxx.columns[1][0] == Empty;
  }

  /** A pair of fives in the first column: (5 + 5 + 1) * 2 + 2; the board is not full. */
  lemma Board5xx_5x2_1xxFacts()
    ensures Score(Board5xx_5x2_1xx) == 24 && !IsFull(Board5xx_5x2_1xx)
  {
    assert Board5xx_5x2_1xx.columns[1][0] == Empty;
  }

  /** Three twos in the last column: 4 + 5 + 1 + (2 + 2 + 2) * 3. */
  lemma Board4x2_5x2_1x2Facts()
    ensures Score(Board4x2_5x2_1x2) == 28
  {
  }

  /** Columns 4-5-1 and 1-4-6 score their sums, the three twos score 6 * 3; the board is full. */
  lemma Board412_542_162Facts()
    ensures Score(Board412_542_162) == 39 && IsFull(Board412_542_162)
  {
  }

  /** The sums of `test_board_sums` (src/board/board.rs:408-423). */
  lemma SumExamples()
    ensures ScanLines(TextLines("5__\n__2\n___"), 0) == Clean
    ensures ScanLines(TextLines("5__\n5_2\n1__"), 0) == Clean
    ensures ScanLines(TextLines("4_2\n5_2\n1_2"), 0) == Clean
    ensures ScanLines(TextLines("412\n542\n162"), 0) == Clean
    ensures ParseBoard("5__\n__2\n___") == Ok(Board5xx_xx2_xxx) && Score(Board5xx_xx2_xxx) == 7
    ensures ParseBoard("5__\n5_2\n1__") == Ok(Board5xx_5x2_1xx) && Score(Board5xx_5x2_1xx) == 24
    ensures ParseBoard("4_2\n5_2\n1_2") == Ok(Board4x2_5x2_1x2) && Score(Board4x2_5x2_1x2) == 28
    ensures ParseBoard("412\n542\n162") == Ok(Board412_542_162) && Score(Board412_542_162) == 39
  {
    Board5xx_xx2_xxxFacts();
    Board5xx_5x2_1xxFacts();
    Board4x2_5x2_1x2Facts();
    Board412_542_162Facts();
    Parse5xx_xx2_xxx();
    Parse5xx_5x2_1xx();
    Parse4x2_5x2_1x2();
    Parse412_542_162();
  }

  /** The answers of `test_board_is_full` (src/board/board.rs:426-439). */
  lemma IsFullExamples()
    ensures ScanLines(TextLines("5__\n__2\n___"), 0) == Clean
    ensures ScanLines(TextLines("5__\n5_2\n1__"), 0) == Clean
    ensures ScanLines(TextLines("412\n542\n162"), 0) == Clean
    ensures ParseBoard("5__\n__2\n___") == Ok(Board5xx_xx2_xxx) && !IsFull(Board5xx_xx2_xxx)
    ensures ParseBoard("5__\n5_2\n1__") == Ok(Board5xx_5x2_1xx) && !IsFull(Board5xx_5x2_1xx)
    ensures ParseBoard("412\n542\n162") == Ok(Board412_542_162) && IsFull(Board412_542_162)
  {
    Board5xx_xx2_xxxFacts();
    Board5xx_5x2_1xxFacts();
    Board412_542_162Facts();
    Parse5xx_xx2_xxx();
    Parse5xx_5x2_1xx();
    Parse412_542_162();
  }
}
