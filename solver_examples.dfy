/**
  The solver tests of src/solver/solver.rs: the difference heuristic on a few
  positions and the moves after them, and the search on an endgame, by brute
  force and heuristically. The boards are those of `TestBoards`.
*/
module SolverExamples {
  import opened Wrappers
  import opened Errors
  import opened Boards
  import opened Trees
  import opened Solvers
  import opened TestBoards
  import TreeExamples

  // ------------------------------------------------ difference heuristic

  /** Player 1's ones with the last square filled. */
  const AllOnes: Board := Board([[Filled(One), Filled(One), Filled(One)], [Filled(One), Filled(One), Filled(One)], [Filled(One), Filled(One), Filled(One)]])

  /** Player 2's twos with the last square filled. */
  const AllTwos: Board := Board([[Filled(Two), Filled(Two), Filled(Two)], [Filled(Two), Filled(Two), Filled(Two)], [Filled(Two), Filled(Two), Filled(Two)]])

  /** An empty board with die `d` placed at the top of column `c`. */
  function Top(d: Die, c: nat): Board
    requires c < 3
  {
    PlaceDie(EmptyBoard(), d, 0, c)
  }

  lemma OnesAndTwosFacts()
    ensures Score(Board111_111_11x) == 22 && NEmptySquares(Board111_111_11x) == 1
    ensures Score(Board222_222_22x) == 44 && NEmptySquares(Board222_222_22x) == 1
    ensures Score(AllOnes) == 27 && NEmptySquares(AllOnes) == 0
    ensures Score(AllTwos) == 54 && NEmptySquares(AllTwos) == 0
  {
  }

  lemma TopFacts(d: Die, c: nat)
    requires c < 3
    ensures Score(Top(d, c)) == ToValue(d) && NEmptySquares(Top(d, c)) == 8
    ensures Score(Boardxx1_xxx_xxx) == 1 && NEmptySquares(Boardxx1_xxx_xxx) == 8
    ensures Score(EmptyBoard()) == 0 && NEmptySquares(EmptyBoard()) == 9
  {
  }

  /**
    The first two cases of `test_difference_heuristic` (src/solver/solver.rs:176-202):
    22 against 44, one square empty on each side. With player 1 to move, the
    extra move is worth one fill to player 1; filling the last square ends
    the game at 27 against 44, and the empty-square term vanishes.
  */
  lemma PlayerOneToMoveExample()
    ensures var root := Position(Board111_111_11x, Board222_222_22x, NodeType.Move(Player1, One));
      var child := Position(AllOnes, Board222_222_22x, Roll(Player2));
      && DifferenceHeuristic(root, 0.0) == -22.0
      && DifferenceHeuristic(root, 3.5) == -22.0 + 3.5
      && ChildAfterMove(root, Boards.Move(2, 2)) == Ok(child)
      && IsGameOver(child)
      && DifferenceHeuristic(child, 0.0) == 27.0 - 44.0
      && DifferenceHeuristic(child, 3.5) == 27.0 - 44.0
  {
    OnesAndTwosFacts();
    var b := Board111_111_11x;
    BoardExtensionality(PlaceDie(b, One, 2, 2), AllOnes);
  }

  /** The same boards with player 2 to move: the fill now counts against player 1 (src/solver/solver.rs:193-202). */
  lemma PlayerTwoToMoveExample()
    ensures var root := Position(Board111_111_11x, Board222_222_22x, NodeType.Move(Player2, Two));
      var child := Position(Board111_111_11x, AllTwos, Roll(Player1));
      && DifferenceHeuristic(root, 0.0) == 22.0 - 44.0
      && DifferenceHeuristic(root, 3.5) == 22.0 - 44.0 - 3.5
      && ChildAfterMove(root, Boards.Move(2, 2)) == Ok(child)
      && IsGameOver(child)
      && DifferenceHeuristic(child, 0.0) == 22.0 - 54.0
      && DifferenceHeuristic(child, 3.5) == 22.0 - 54.0
  {
    OnesAndTwosFacts();
    var b := Board222_222_22x;
    BoardExtensionality(PlaceDie(b, Two, 2, 2), AllTwos);
  }

  /**
    Empty boards (src/solver/solver.rs:204-224): only the extra move counts;
    after player 1 places a die in a corner, the die is the whole value,
    since player 1 now has fewer empty squares but player 2 is to move.
  */
  lemma EmptyBoardsExample(d: Die)
    ensures var root := Position(EmptyBoard(), EmptyBoard(), NodeType.Move(Player1, d));
      var child := Position(Top(d, 0), EmptyBoard(), Roll(Player2));
      && DifferenceHeuristic(root, 0.0) == 0.0
      && DifferenceHeuristic(root, 3.5) == 3.5
      && ChildAfterMove(root, Boards.Move(0, 0)) == Ok(child)
      && DifferenceHeuristic(child, 0.0) == ToValue(d) as real
      && DifferenceHeuristic(child, 3.5) == ToValue(d) as real
  {
    TopFacts(d, 0);
  }

  /** The two die values the test places in the corner. */
  lemma EmptyBoardsSixAndOne()
    ensures DifferenceHeuristic(Position(Top(Six, 0), EmptyBoard(), Roll(Player2)), 3.5) == 6.0
    ensures DifferenceHeuristic(Position(Top(One, 0), EmptyBoard(), Roll(Player2)), 3.5) == 1.0
  {
    EmptyBoardsExample(Six);
    EmptyBoardsExample(One);
  }

  /**
    A lone one for player 1, player 2 to place a six (src/solver/solver.rs:226-234):
    player 1 is ahead by a square but player 2 moves, so the term vanishes;
    after player 2's six the squares are level and player 1 rolls next.
  */
  lemma LoneOneExample()
    ensures var root := Position(Boardxx1_xxx_xxx, EmptyBoard(), NodeType.Move(Player2, Six));
      var child := Position(Boardxx1_xxx_xxx, Top(Six, 0), Roll(Player1));
      && DifferenceHeuristic(root, 0.0) == 1.0
      && DifferenceHeuristic(root, 3.5) == 1.0
      && ChildAfterMove(root, Boards.Move(0, 0)) == Ok(child)
      && DifferenceHeuristic(child, 0.0) == -5.0
      && DifferenceHeuristic(child, 3.5) == -1.5
  {
    TopFacts(Six, 0);
  }

  // ------------------------------------------------------------- search

  /** The objective of the heuristic tests: the difference heuristic with a fill of 3.5. */
  const DifferenceObjective: Position -> real := (pos: Position) => DifferenceHeuristic(pos, 3.5)

  /** The root of a Roll node cannot choose a move (src/solver/solver.rs:113-118). */
  lemma RollRootExample()
    ensures Search(Position(Board255_1x2_352, Board255_1x2_652, Roll(Player1)), BruteForce) == Err(LegalMovesOfRollNode)
  {
    SearchErrors(Position(Board255_1x2_352, Board255_1x2_652, Roll(Player1)), BruteForce);
  }

  /** Empty boards, player 1 to place a six. */
  const OpeningSix: Position := Position(EmptyBoard(), EmptyBoard(), NodeType.Move(Player1, Six))

  /** The opening six goes to the top of each column in turn. */
  lemma OpeningSixChildren()
    ensures Expand(OpeningSix) == [Position(Top(Six, 0), EmptyBoard(), Roll(Player2)),
      Position(Top(Six, 1), EmptyBoard(), Roll(Player2)), Position(Top(Six, 2), EmptyBoard(), Roll(Player2))]
  {
    var b := EmptyBoard();
    assert FirstEmptyRow(b.columns[0]) == Some(0);
    assert FirstEmptyRow(b.columns[1]) == Some(0);
    assert FirstEmptyRow(b.columns[2]) == Some(0);
    assert ColumnChild(OpeningSix, 0) == [Position(Top(Six, 0), b, Roll(Player2))];
    assert ColumnChild(OpeningSix, 1) == [Position(Top(Six, 1), b, Roll(Player2))];
    assert ColumnChild(OpeningSix, 2) == [Position(Top(Six, 2), b, Roll(Player2))];
  }

  /** A six at the top of a column is worth 6, player 2 to roll. */
  lemma TopSixValue(c: nat)
    requires c < 3
    ensures TreeValue(Grow(Position(Top(Six, c), EmptyBoard(), Roll(Player2)), 0), Heuristic(1, DifferenceObjective)) == 6.0
  {
    TopFacts(Six, c);
  }

  /** Each child of the opening six is worth the six, searched one level deep. */
  lemma OpeningSixValues()
    ensures ChildValues(OpeningSix, Heuristic(1, DifferenceObjective)) == [6.0, 6.0, 6.0]
  {
    var mode := Heuristic(1, DifferenceObjective);
    OpeningSixChildren();
    ChildValuesAt(OpeningSix, mode, 0);
    ChildValuesAt(OpeningSix, mode, 1);
    ChildValuesAt(OpeningSix, mode, 2);
    TopSixValue(0);
    TopSixValue(1);
    TopSixValue(2);
  }

  /** Three equal values: every move is best. */
  lemma AllThreeBest(moves: seq<Boards.Move>, v: real)
    requires |moves| == 3
    ensures Max([v, v, v]) == v
    ensures BestMoves(moves, [v, v, v], v) == moves
  {
    assert [v, v, v][..2] == [v, v] && [v, v][..1] == [v];
    AllTiedBest(moves, [v, v, v], v);
  }

  /** A single move is best. */
  lemma OnlyMoveBest(m: Boards.Move, v: real)
    ensures Max([v]) == v && Min([v]) == v
    ensures BestMoves([m], [v], v) == [m]
  {
    assert [m][..0] == [] && [v][..0] == [];
  }

  /**
    One level of heuristic search on empty boards (src/solver/solver.rs:141-156):
    a six at the top of any column is worth 6 to player 1, so all three
    reduced moves are best.
  */
  lemma OneLevelExample()
    ensures Search(OpeningSix, Heuristic(1, DifferenceObjective))
      == Ok(([Boards.Move(0, 0), Boards.Move(0, 1), Boards.Move(0, 2)], 6.0))
  {
    TreeExamples.EmptyBoardReducedSquares();
    OpeningSixValues();
    AllThreeBest([Boards.Move(0, 0), Boards.Move(0, 1), Boards.Move(0, 2)], 6.0);
  }

  /** Player 1 to place a six in the one empty square left: 24 against 23. */
  const LastSquare: Position := Position(Board255_1x2_352, Board15x_333_12x, NodeType.Move(Player1, Six))

  /** Player 1's board once the six is placed. */
  const Board255_162_352: Board := Board([[Filled(Two), Filled(One), Filled(Three)], [Filled(Five), Filled(Six), Filled(Five)], [Filled(Five), Filled(Two), Filled(Two)]])

  /** Player 1's only reduced move is the empty square. */
  lemma LastSquareMoves()
    ensures GetLegalMovesUpToRowSymmetry(LastSquare) == Ok([Boards.Move(1, 1)])
    ensures !IsGameOver(LastSquare)
  {
    var b := Board255_1x2_352;
    assert FirstEmptyRow(b.columns[0]) == None;
    assert FirstEmptyRow(b.columns[1]) == Some(1);
    assert FirstEmptyRow(b.columns[2]) == None;
    assert ColumnRepresentative(b, 0) == [];
    assert ColumnRepresentative(b, 1) == [Boards.Move(1, 1)];
    assert ColumnRepresentative(b, 2) == [];
    assert EmptySquaresUpToRowSymmetry(b) == [Boards.Move(1, 1)];
  }

  /** The six completes player 1's board and wins, 56 against 23. */
  lemma LastSquareChild()
    ensures Expand(LastSquare) == [Position(Board255_162_352, Board15x_333_12x, Roll(Player2))]
    ensures Score(Board255_162_352) == 56 && Score(Board15x_333_12x) == 23
    ensures IsFull(Board255_162_352)
  {
    var b := Board255_1x2_352;
    assert FirstEmptyRow(b.columns[0]) == None;
    assert FirstEmptyRow(b.columns[1]) == Some(1);
    assert FirstEmptyRow(b.columns[2]) == None;
    BoardExtensionality(PlaceDie(b, Six, 1, 1), Board255_162_352);
    assert ColumnChild(LastSquare, 0) == [] && ColumnChild(LastSquare, 2) == [];
  }

  /** The one child of the last square, a finished game player 1 won, is worth 1. */
  lemma LastSquareValues()
    ensures ChildValues(LastSquare, BruteForce) == [1.0]
  {
    LastSquareChild();
    ChildValuesAt(LastSquare, BruteForce, 0);
  }

  /**
    The first case of `test_solver_solves_endgame_situations`
    (src/solver/solver.rs:106-112): brute force finds the winning square.
  */
  lemma LastSquareExample()
    ensures Search(LastSquare, BruteForce) == Ok(([Boards.Move(1, 1)], 1.0))
  {
    LastSquareMoves();
    LastSquareValues();
    OnlyMoveBest(Boards.Move(1, 1), 1.0);
  }
}
