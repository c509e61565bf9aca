/**
  The endgame both solver tests of src/solver/solver.rs search: player 1 has
  only the bottom-right square left and player 2, to place a six, chooses
  between two squares. Player 2's six on (1, 1) leaves 30 on the board, on
  (2, 2) 44; player 1's last die then scores 45, 47, 43, 44, 45 or 46 and
  ends the game. Searched to the end, or five levels deep with the difference
  heuristic, the square (2, 2) is best for player 2.
*/
module EndgameExamples {
  import opened Wrappers
  import opened Boards
  import opened Trees
  import opened Solvers
  import opened TestBoards
  import opened SolverExamples

  /** The root of the search: player 2 to place a six. */
  const Endgame: Position := Position(Board651_142_62x, Board256_1x2_62x, NodeType.Move(Player2, Six))

  /** Player 2's board after the six on (1, 1): 30. */
  const Board256_162_62x: Board := Board([[Filled(Two), Filled(One), Filled(Six)], [Filled(Five), Filled(Six), Filled(Two)], [Filled(Six), Filled(Two), Empty]])

  /** Player 2's board after the six on (2, 2): 44. */
  const Board256_1x2_626: Board := Board([[Filled(Two), Filled(One), Filled(Six)], [Filled(Five), Empty, Filled(Two)], [Filled(Six), Filled(Two), Filled(Six)]])

  /** Player 1's board completed with die `d`. */
  function Finish(d: Die): Board
  {
    Board([[Filled(Six), Filled(One), Filled(Six)], [Filled(Five), Filled(Four), Filled(Two)], [Filled(One), Filled(Two), Filled(d)]])
  }

  /** Player 1 to roll against player 2's board `b`. */
  function RollAfter(b: Board): Position
  {
    Position(Board651_142_62x, b, Roll(Player1))
  }

  /** Player 1 to place die `d` against player 2's board `b`. */
  function MoveAfter(b: Board, d: Die): Position
  {
    Position(Board651_142_62x, b, NodeType.Move(Player1, d))
  }

  /** The finished game after player 1 places `d`. */
  function LeafAfter(b: Board, d: Die): Position
  {
    Position(Finish(d), b, Roll(Player2))
  }

  /** The six finished games after player 1's roll, in the order of the dice. */
  function FinishedGames(b: Board): (ps: seq<Position>)
    ensures |ps| == 6
  {
    [LeafAfter(b, One), LeafAfter(b, Two), LeafAfter(b, Three), LeafAfter(b, Four), LeafAfter(b, Five), LeafAfter(b, Six)]
  }

  /** The values of leaves, in their order. */
  function LeafValues(leaves: seq<Position>, mode: SolverMode): (vs: seq<real>)
    requires mode.BruteForce? ==> forall i | 0 <= i < |leaves| :: IsGameOver(leaves[i])
    ensures |vs| == |leaves|
  {
    seq(|leaves|, i requires 0 <= i < |leaves| => LeafValue(leaves[i], mode))
  }

  // ----------------------------------------------------------- the tree

  /** Player 2 may place the six in column 1 or column 2. */
  lemma EndgameMoves()
    ensures GetLegalMovesUpToRowSymmetry(Endgame) == Ok([Boards.Move(1, 1), Boards.Move(2, 2)])
    ensures !IsGameOver(Endgame) && Horizon(Endgame) == 6
  {
    var b := Board256_1x2_62x;
    assert FirstEmptyRow(b.columns[0]) == None;
    assert FirstEmptyRow(b.columns[1]) == Some(1);
    assert FirstEmptyRow(b.columns[2]) == Some(2);
    assert ColumnRepresentative(b, 0) == [];
    assert ColumnRepresentative(b, 1) == [Boards.Move(1, 1)];
    assert ColumnRepresentative(b, 2) == [Boards.Move(2, 2)];
    assert EmptySquaresUpToRowSymmetry(b) == [Boards.Move(1, 1), Boards.Move(2, 2)];
  }

  lemma EndgameChildren()
    ensures Expand(Endgame) == [RollAfter(Board256_162_62x), RollAfter(Board256_1x2_626)]
  {
    var b := Board256_1x2_62x;
    assert FirstEmptyRow(b.columns[0]) == None;
    assert FirstEmptyRow(b.columns[1]) == Some(1);
    assert FirstEmptyRow(b.columns[2]) == Some(2);
    BoardExtensionality(PlaceDie(b, Six, 1, 1), Board256_162_62x);
    BoardExtensionality(PlaceDie(b, Six, 2, 2), Board256_1x2_626);
    assert ColumnChild(Endgame, 0) == [];
  }

  /** Player 1's only square left is (2, 2), and filling it ends the game. */
  lemma FinishChild(b: Board, d: Die)
    requires !IsFull(b)
    ensures !IsGameOver(MoveAfter(b, d)) && IsGameOver(LeafAfter(b, d))
    ensures Expand(MoveAfter(b, d)) == [LeafAfter(b, d)]
  {
    var a := Board651_142_62x;
    assert a.columns[2][2] == Empty;
    assert FirstEmptyRow(a.columns[0]) == None;
    assert FirstEmptyRow(a.columns[1]) == None;
    assert FirstEmptyRow(a.columns[2]) == Some(2);
    BoardExtensionality(PlaceDie(a, d, 2, 2), Finish(d));
  }

  /** A Move node with a single finished game below it is worth that game. */
  lemma MoveLevelValue(t: PosTree, leaf: Position, mode: SolverMode)
    requires t.pos.nodeType.Move? && t.subtrees == [PosTree(leaf, [])] && IsGameOver(leaf)
    ensures Evaluable(t, mode) && TreeValue(t, mode) == LeafValue(leaf, mode)
  {
    assert TreeValues(t, 1, mode) == [LeafValue(leaf, mode)];
  }

  /** A grown node's subtree `i` is its child `i` grown one level less. */
  lemma GrownSubtreeAt(pos: Position, depth: nat, i: nat)
    requires depth > 0 && !IsGameOver(pos) && i < |Expand(pos)|
    ensures Grow(pos, depth).subtrees[i] == Grow(Expand(pos)[i], depth - 1)
  {
    GrowAllAt(Expand(pos), depth - 1, i);
  }

  /** A Roll node whose six subtrees have values `vs` is worth their mean. */
  lemma RollLevelValue(t: PosTree, mode: SolverMode, vs: seq<real>)
    requires t.pos.nodeType.Roll? && |t.subtrees| == 6 && |vs| == 6
    requires forall i | 0 <= i < 6 :: Evaluable(t.subtrees[i], mode) && TreeValue(t.subtrees[i], mode) == vs[i]
    ensures Evaluable(t, mode) && TreeValue(t, mode) == Mean(vs)
  {
    assert Evaluable(t, mode);
    forall i | 0 <= i < 6
      ensures TreeValues(t, 6, mode)[i] == vs[i]
    {
      TreeValuesAt(t, 6, mode, i);
    }
    assert TreeValues(t, 6, mode) == vs;
  }

  /** A Roll node over six moves, each to one finished game, is worth the mean of the games. */
  lemma FinishesRollValue(t: PosTree, mode: SolverMode, leaves: seq<Position>)
    requires t.pos.nodeType.Roll? && |t.subtrees| == 6 && |leaves| == 6
    requires forall i | 0 <= i < 6 :: IsGameOver(leaves[i])
    requires forall i | 0 <= i < 6 ::
      t.subtrees[i].pos.nodeType.Move? && t.subtrees[i].subtrees == [PosTree(leaves[i], [])]
    ensures Evaluable(t, mode) && TreeValue(t, mode) == Mean(LeafValues(leaves, mode))
  {
    var vs := LeafValues(leaves, mode);
    forall i | 0 <= i < 6
      ensures Evaluable(t.subtrees[i], mode) && TreeValue(t.subtrees[i], mode) == vs[i]
    {
      MoveLevelValue(t.subtrees[i], leaves[i], mode);
    }
    RollLevelValue(t, mode, vs);
  }

  /** A move whose one child is a finished game grows into two levels, however deep. */
  lemma FinishingMoveShape(m: Position, leaf: Position, k: nat)
    requires !IsGameOver(m) && Expand(m) == [leaf] && IsGameOver(leaf) && k >= 1
    ensures Grow(m, k) == PosTree(m, [PosTree(leaf, [])])
  {
    assert Grow(leaf, k - 1) == PosTree(leaf, []);
    assert GrowAll([leaf], k - 1) == [Grow(leaf, k - 1)];
  }

  /** A child that is such a move grows, as a subtree, into the move above the finished game. */
  lemma FinishingMoveSubtree(p: Position, k: nat, i: nat, leaf: Position)
    requires k >= 2 && !IsGameOver(p) && i < |Expand(p)|
    requires !IsGameOver(Expand(p)[i]) && Expand(Expand(p)[i]) == [leaf] && IsGameOver(leaf)
    ensures Grow(p, k).subtrees[i] == PosTree(Expand(p)[i], [PosTree(leaf, [])])
  {
    GrownSubtreeAt(p, k, i);
    FinishingMoveShape(Expand(p)[i], leaf, k - 1);
  }

  /** Below player 1's roll, die `d` leads through player 1's move to one finished game. */
  lemma RollSubtreeShape(b: Board, k: nat, d: Die)
    requires !IsFull(b) && k >= 2
    ensures |Grow(RollAfter(b), k).subtrees| == 6 && IsGameOver(LeafAfter(b, d))
    ensures Grow(RollAfter(b), k).subtrees[ToValue(d) - 1] == PosTree(MoveAfter(b, d), [PosTree(LeafAfter(b, d), [])])
  {
    var p := RollAfter(b);
    ExpandChildren(p);
    var i := ToValue(d) - 1;
    assert AllDice()[i] == d;
    assert Expand(p)[i] == MoveAfter(b, d);
    FinishChild(b, d);
    FinishingMoveSubtree(p, k, i, LeafAfter(b, d));
  }

  /** Every die of player 1's roll leads through player 1's move to one finished game. */
  lemma RollTreeShape(b: Board, k: nat)
    requires !IsFull(b) && k >= 2
    ensures |Grow(RollAfter(b), k).subtrees| == 6
    ensures forall i | 0 <= i < 6 :: IsGameOver(FinishedGames(b)[i])
    ensures forall i | 0 <= i < 6 ::
      Grow(RollAfter(b), k).subtrees[i] == PosTree(MoveAfter(b, AllDice()[i]), [PosTree(FinishedGames(b)[i], [])])
  {
    forall i | 0 <= i < 6
      ensures IsGameOver(FinishedGames(b)[i])
      ensures Grow(RollAfter(b), k).subtrees[i] == PosTree(MoveAfter(b, AllDice()[i]), [PosTree(FinishedGames(b)[i], [])])
    {
      RollSubtreeShape(b, k, AllDice()[i]);
      assert FinishedGames(b)[i] == LeafAfter(b, AllDice()[i]);
    }
  }

  /** Player 1's roll is worth the mean of the six finished games. */
  lemma RollValue(b: Board, k: nat, mode: SolverMode)
    requires !IsFull(b) && k >= 2
    ensures forall i | 0 <= i < 6 :: IsGameOver(FinishedGames(b)[i])
    ensures Evaluable(Grow(RollAfter(b), k), mode)
    ensures TreeValue(Grow(RollAfter(b), k), mode) == Mean(LeafValues(FinishedGames(b), mode))
  {
    RollTreeShape(b, k);
    FinishesRollValue(Grow(RollAfter(b), k), mode, FinishedGames(b));
  }

  /** The heuristic of the search tests, five levels deep. */
  const FiveLevels: SolverMode := Heuristic(5, DifferenceObjective)

  /** Player 1's completed boards score 45, 47, 43, 44, 45 and 46; player 2's boards 30 and 44. */
  lemma BoardScores()
    ensures Score(Finish(One)) == 45 && Score(Finish(Two)) == 47 && Score(Finish(Three)) == 43
    ensures Score(Finish(Four)) == 44 && Score(Finish(Five)) == 45 && Score(Finish(Six)) == 46
    ensures Score(Board256_162_62x) == 30 && NEmptySquares(Board256_162_62x) == 1
    ensures Score(Board256_1x2_626) == 44 && NEmptySquares(Board256_1x2_626) == 1
  {
  }

  /** Player 1's last die fills player 1's board and ends the game. */
  lemma LeafFinished(b: Board, d: Die)
    ensures IsFull(Finish(d)) && IsGameOver(LeafAfter(b, d))
  {
    assert NEmptySquares(Finish(d)) == 0;
  }

  /** All six games after player 1's roll are finished. */
  lemma FinishedGamesOver(b: Board)
    ensures forall i | 0 <= i < 6 :: IsGameOver(FinishedGames(b)[i])
  {
    forall d: Die
      ensures IsGameOver(LeafAfter(b, d))
    {
      LeafFinished(b, d);
    }
  }

  /** By brute force a finished game is worth the sign of player 1's lead. */
  lemma LeafOutcome(b: Board, d: Die)
    ensures IsGameOver(LeafAfter(b, d))
    ensures var diff := Score(Finish(d)) - Score(b);
      LeafValue(LeafAfter(b, d), BruteForce) == if diff > 0 then 1.0 else if diff < 0 then -1.0 else 0.0
  {
    LeafFinished(b, d);
  }

  /**
    Heuristically a finished game is worth player 1's lead: player 2's one
    empty square and player 2's turn cancel out.
  */
  lemma LeafDifference(b: Board, d: Die)
    requires NEmptySquares(b) == 1
    ensures LeafValue(LeafAfter(b, d), FiveLevels) == (Score(Finish(d)) - Score(b)) as real
  {
    LeafFinished(b, d);
    HeuristicClosedForm(ScoreDifference(LeafAfter(b, d)), 0, 1, Player2, 3.5);
  }

  /** The mean of six values. */
  lemma MeanOfSix(a: real, b: real, c: real, d: real, e: real, f: real)
    ensures Mean([a, b, c, d, e, f]) == (a + b + c + d + e + f) / 6.0
  {
    assert [a, b, c, d, e, f][..5] == [a, b, c, d, e];
    assert [a, b, c, d, e][..4] == [a, b, c, d];
    assert [a, b, c, d][..3] == [a, b, c];
    assert [a, b, c][..2] == [a, b];
    assert [a, b][..1] == [a];
    assert [a][..0] == [];
    assert Solvers.Sum([a]) == a;
    assert Solvers.Sum([a, b]) == a + b;
    assert Solvers.Sum([a, b, c]) == a + b + c;
    assert Solvers.Sum([a, b, c, d]) == a + b + c + d;
    assert Solvers.Sum([a, b, c, d, e]) == a + b + c + d + e;
  }

  /** Six finished games with the values `vs` have the leaf values `vs`. */
  lemma LeafValuesOfSix(ps: seq<Position>, mode: SolverMode, vs: seq<real>)
    requires |ps| == 6 && |vs| == 6
    requires forall i | 0 <= i < 6 :: IsGameOver(ps[i])
    requires forall i | 0 <= i < 6 :: LeafValue(ps[i], mode) == vs[i]
    ensures LeafValues(ps, mode) == vs
  {
    var ls := LeafValues(ps, mode);
    assert forall i | 0 <= i < 6 :: ls[i] == vs[i];
  }

  /** After the six on (1, 1) player 1 wins whatever the die. */
  lemma LeftSixOutcomes()
    ensures forall i | 0 <= i < 6 :: IsGameOver(FinishedGames(Board256_162_62x)[i])
    ensures LeafValues(FinishedGames(Board256_162_62x), BruteForce) == [1.0, 1.0, 1.0, 1.0, 1.0, 1.0]
  {
    var b := Board256_162_62x;
    BoardScores();
    FinishedGamesOver(b);
    LeafOutcome(b, One);
    LeafOutcome(b, Two);
    LeafOutcome(b, Three);
    LeafOutcome(b, Four);
    LeafOutcome(b, Five);
    LeafOutcome(b, Six);
    LeafValuesOfSix(FinishedGames(b), BruteForce, [1.0, 1.0, 1.0, 1.0, 1.0, 1.0]);
  }

  /** After the six on (1, 1) player 1 leads by 15, 17, 13, 14, 15 or 16. */
  lemma LeftSixDifferences()
    ensures LeafValues(FinishedGames(Board256_162_62x), FiveLevels) == [15.0, 17.0, 13.0, 14.0, 15.0, 16.0]
  {
    var b := Board256_162_62x;
    BoardScores();
    LeafDifference(b, One);
    LeafDifference(b, Two);
    LeafDifference(b, Three);
    LeafDifference(b, Four);
    LeafDifference(b, Five);
    LeafDifference(b, Six);
    LeafValuesOfSix(FinishedGames(b), FiveLevels, [15.0, 17.0, 13.0, 14.0, 15.0, 16.0]);
  }

  /** After the six on (2, 2) player 1 wins on four dice, loses on a three and draws on a four. */
  lemma RightSixOutcomes()
    ensures forall i | 0 <= i < 6 :: IsGameOver(FinishedGames(Board256_1x2_626)[i])
    ensures LeafValues(FinishedGames(Board256_1x2_626), BruteForce) == [1.0, 1.0, -1.0, 0.0, 1.0, 1.0]
  {
    var b := Board256_1x2_626;
    BoardScores();
    FinishedGamesOver(b);
    LeafOutcome(b, One);
    LeafOutcome(b, Two);
    LeafOutcome(b, Three);
    LeafOutcome(b, Four);
    LeafOutcome(b, Five);
    LeafOutcome(b, Six);
    LeafValuesOfSix(FinishedGames(b), BruteForce, [1.0, 1.0, -1.0, 0.0, 1.0, 1.0]);
  }

  /** After the six on (2, 2) player 1 leads by 1, 3, -1, 0, 1 or 2. */
  lemma RightSixDifferences()
    ensures LeafValues(FinishedGames(Board256_1x2_626), FiveLevels) == [1.0, 3.0, -1.0, 0.0, 1.0, 2.0]
  {
    var b := Board256_1x2_626;
    BoardScores();
    LeafDifference(b, One);
    LeafDifference(b, Two);
    LeafDifference(b, Three);
    LeafDifference(b, Four);
    LeafDifference(b, Five);
    LeafDifference(b, Six);
    LeafValuesOfSix(FinishedGames(b), FiveLevels, [1.0, 3.0, -1.0, 0.0, 1.0, 2.0]);
  }

  /** The endgame is not over, and brute force searches it six levels deep. */
  lemma EndgameOpen()
    ensures !IsGameOver(Endgame) && Horizon(Endgame) == 6
    ensures !IsFull(Board256_162_62x) && !IsFull(Board256_1x2_626)
  {
    EndgameMoves();
    assert Board256_162_62x.columns[2][2] == Empty;
    assert Board256_1x2_626.columns[1][1] == Empty;
  }

  /** Player 2's six on (1, 1) is worth player 1's roll after it. */
  lemma EndgameLeftTree(mode: SolverMode)
    requires SearchDepth(Endgame, mode) >= 3
    ensures |ChildValues(Endgame, mode)| == 2
    ensures Evaluable(Grow(RollAfter(Board256_162_62x), SearchDepth(Endgame, mode) - 1), mode)
    ensures ChildValues(Endgame, mode)[0] == TreeValue(Grow(RollAfter(Board256_162_62x), SearchDepth(Endgame, mode) - 1), mode)
  {
    EndgameOpen();
    EndgameChildren();
    ChildValuesAt(Endgame, mode, 0);
  }

  /** Player 2's six on (2, 2) is worth player 1's roll after it. */
  lemma EndgameRightTree(mode: SolverMode)
    requires SearchDepth(Endgame, mode) >= 3
    ensures |ChildValues(Endgame, mode)| == 2
    ensures Evaluable(Grow(RollAfter(Board256_1x2_626), SearchDepth(Endgame, mode) - 1), mode)
    ensures ChildValues(Endgame, mode)[1] == TreeValue(Grow(RollAfter(Board256_1x2_626), SearchDepth(Endgame, mode) - 1), mode)
  {
    EndgameOpen();
    EndgameChildren();
    ChildValuesAt(Endgame, mode, 1);
  }

  /** Player 2's six on (1, 1) is worth the mean of the six finished games after it. */
  lemma EndgameLeftValue(mode: SolverMode)
    requires mode == BruteForce || mode == FiveLevels
    ensures forall i | 0 <= i < 6 :: IsGameOver(FinishedGames(Board256_162_62x)[i])
    ensures |ChildValues(Endgame, mode)| == 2
    ensures ChildValues(Endgame, mode)[0] == Mean(LeafValues(FinishedGames(Board256_162_62x), mode))
  {
    EndgameOpen();
    if mode == BruteForce {
      EndgameLeftTree(BruteForce);
      RollValue(Board256_162_62x, 5, BruteForce);
    } else {
      EndgameLeftTree(FiveLevels);
      RollValue(Board256_162_62x, 4, FiveLevels);
    }
  }

  /** Player 2's six on (2, 2) is worth the mean of the six finished games after it. */
  lemma EndgameRightValue(mode: SolverMode)
    requires mode == BruteForce || mode == FiveLevels
    ensures forall i | 0 <= i < 6 :: IsGameOver(FinishedGames(Board256_1x2_626)[i])
    ensures |ChildValues(Endgame, mode)| == 2
    ensures ChildValues(Endgame, mode)[1] == Mean(LeafValues(FinishedGames(Board256_1x2_626), mode))
  {
    EndgameOpen();
    if mode == BruteForce {
      EndgameRightTree(BruteForce);
      RollValue(Board256_1x2_626, 5, BruteForce);
    } else {
      EndgameRightTree(FiveLevels);
      RollValue(Board256_1x2_626, 4, FiveLevels);
    }
  }

  /** Searched to the end, the six on (1, 1) is a sure win for player 1. */
  lemma BruteForceLeftValue()
    ensures |ChildValues(Endgame, BruteForce)| == 2 && ChildValues(Endgame, BruteForce)[0] == 1.0
  {
    EndgameLeftValue(BruteForce);
    LeftSixOutcomes();
    MeanOfSix(1.0, 1.0, 1.0, 1.0, 1.0, 1.0);
  }

  /** Searched to the end, the six on (2, 2) is worth 0.5: four wins, a loss and a draw for player 1. */
  lemma BruteForceRightValue()
    ensures |ChildValues(Endgame, BruteForce)| == 2 && ChildValues(Endgame, BruteForce)[1] == 0.5
  {
    EndgameRightValue(BruteForce);
    RightSixOutcomes();
    MeanOfSix(1.0, 1.0, -1.0, 0.0, 1.0, 1.0);
  }

  /** Searched to the end, the six on (1, 1) is a sure win for player 1, the six on (2, 2) worth 0.5. */
  lemma BruteForceEndgameValues()
    ensures ChildValues(Endgame, BruteForce) == [1.0, 0.5]
  {
    BruteForceLeftValue();
    BruteForceRightValue();
  }

  /** Five levels deep, player 1 leads by 15 on average after the six on (1, 1) and by 1 after (2, 2). */
  lemma HeuristicEndgameValues()
    ensures ChildValues(Endgame, FiveLevels) == [15.0, 1.0]
  {
    EndgameLeftValue(FiveLevels);
    EndgameRightValue(FiveLevels);
    LeftSixDifferences();
    RightSixDifferences();
    MeanOfSix(15.0, 17.0, 13.0, 14.0, 15.0, 16.0);
    MeanOfSix(1.0, 3.0, -1.0, 0.0, 1.0, 2.0);
  }

  /** Of two values, the second is strictly smaller and its move the only best for player 2. */
  lemma SecondSmaller(m1: Boards.Move, m2: Boards.Move, v1: real, v2: real)
    requires v2 < v1
    ensures Min([v1, v2]) == v2
    ensures BestMoves([m1, m2], [v1, v2], v2) == [m2]
  {
    assert [v1, v2][..1] == [v1] && [v1][..0] == [];
    assert [m1, m2][..1] == [m1] && [m1][..0] == [];
  }

  /** Player 2 to move, two reduced moves, the second strictly smaller: it is the one best move. */
  lemma SecondSmallerSearch(pos: Position, mode: SolverMode, m1: Boards.Move, m2: Boards.Move, v1: real, v2: real)
    requires pos.nodeType.Move? && pos.nodeType.player == Player2
    requires GetLegalMovesUpToRowSymmetry(pos) == Ok([m1, m2])
    requires SearchDepth(pos, mode) > 0 && !IsGameOver(pos)
    requires ChildValues(pos, mode) == [v1, v2] && v2 < v1
    ensures Search(pos, mode) == Ok(([m2], v2))
  {
    SecondSmaller(m1, m2, v1, v2);
  }

  /**
    The second case of `test_solver_solves_endgame_situations`
    (src/solver/solver.rs:120-137): searched to the end of the game, the six
    on (1, 1) loses surely for player 2 and the six on (2, 2) is worth 0.5,
    so (2, 2) is the one best move.
  */
  lemma BruteForceEndgameExample()
    ensures Search(Endgame, BruteForce) == Ok(([Boards.Move(2, 2)], 0.5))
  {
    EndgameMoves();
    BruteForceEndgameValues();
    SecondSmallerSearch(Endgame, BruteForce, Boards.Move(1, 1), Boards.Move(2, 2), 1.0, 0.5);
  }

  /**
    The heuristic search of the same endgame five levels deep
    (src/solver/solver.rs:158-174): the leaves are the finished games, worth
    their score difference, 15 on average after (1, 1) and 1 after (2, 2).
  */
  lemma HeuristicEndgameExample()
    ensures Search(Endgame, FiveLevels) == Ok(([Boards.Move(2, 2)], 1.0))
  {
    EndgameMoves();
    HeuristicEndgameValues();
    SecondSmallerSearch(Endgame, FiveLevels, Boards.Move(1, 1), Boards.Move(2, 2), 15.0, 1.0);
  }
}
