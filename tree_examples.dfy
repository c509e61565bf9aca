/**
  The node tests of src/tree/tree.rs. The boards are those of `TestBoards`,
  which also proves that `from_string` parses the tests' texts into them.
*/
module TreeExamples {
  import opened Wrappers
  import opened Boards
  import opened Trees
  import opened TestBoards

  /** Player 1 has a lone two; player 2 is to place a five. */
  const LoneTwo: Position := Position(Board2xx_xxx_xxx, EmptyBoard(), NodeType.Move(Player2, Five))

  /** Both boards nearly done: 48 against 23, player 2 to place a five; player 1's board is full. */
  const Finished: Position := Position(Board255_122_352, Board15x_333_12x, NodeType.Move(Player2, Five))

  /** The getters of `test_tree_instantiates` (src/tree/tree.rs:211-230). */
  lemma InstantiatesExample()
    ensures var start := Position(EmptyBoard(), EmptyBoard(), Roll(Player1));
      && GetPlayerBoard(start, Player1) == EmptyBoard() && GetPlayerBoard(start, Player2) == EmptyBoard()
      && GetDie(start) == None && GetActivePlayer(start) == Player1
    ensures Score(GetPlayerBoard(LoneTwo, Player1)) == 2 && GetPlayerBoard(LoneTwo, Player2) == EmptyBoard()
    ensures GetDie(LoneTwo) == Some(Five) && GetActivePlayer(LoneTwo) == Player2
  {
  }

  /** `test_is_game_over` (src/tree/tree.rs:232-245). */
  lemma GameOverExample()
    ensures !IsGameOver(LoneTwo)
    ensures IsGameOver(Finished)
  {
    assert Board2xx_xxx_xxx.columns[1][0] == Empty;
  }

  /** `test_evaluates_outcome` (src/tree/tree.rs:247-268). */
  lemma OutcomeExample()
    ensures GetOutcome(LoneTwo) == InProgress
    ensures Score(Board255_122_352) == 6 + 24 + 18 && Score(Board15x_333_12x) == 10 + 10 + 3
    ensures GetOutcome(Finished) == Victory(Player1)
  {
    GameOverExample();
  }

  /** The drawn game of `test_evaluates_outcome` (src/tree/tree.rs:262-267). */
  lemma DrawExample()
    ensures var even := Position(Board111_111_111, Board24x_25x_2xx, NodeType.Move(Player2, Five));
      Score(Board111_111_111) == 27 && Score(Board24x_25x_2xx) == 27 && GetOutcome(even) == Draw
  {
    assert IsFull(Board111_111_111);
  }

  /** The squares from row-major position `k` on, in row-major order. */
  function AllSquaresFrom(k: nat): (ms: seq<Boards.Move>)
    requires k <= 9
    decreases 9 - k
    ensures |ms| == 9 - k
  {
    if k == 9 then [] else [Boards.Move(k / 3, k % 3)] + AllSquaresFrom(k + 1)
  }

  /** On the empty board every square is empty. */
  lemma {:induction false} EmptyBoardSquaresFrom(k: nat)
    requires k <= 9
    decreases 9 - k
    ensures EmptySquaresFrom(EmptyBoard(), k) == AllSquaresFrom(k)
  {
    if k < 9 {
      EmptyBoardSquaresFrom(k + 1);
    }
  }

  /** The nine squares in row-major order. */
  lemma AllSquares()
    ensures AllSquaresFrom(0) == [Boards.Move(0, 0), Boards.Move(0, 1), Boards.Move(0, 2),
                                  Boards.Move(1, 0), Boards.Move(1, 1), Boards.Move(1, 2),
                                  Boards.Move(2, 0), Boards.Move(2, 1), Boards.Move(2, 2)]
  {
  }

  /** Every square of the empty board, in row-major order. */
  lemma EmptyBoardSquares()
    ensures EmptySquares(EmptyBoard()) == [Boards.Move(0, 0), Boards.Move(0, 1), Boards.Move(0, 2),
                                          Boards.Move(1, 0), Boards.Move(1, 1), Boards.Move(1, 2),
                                          Boards.Move(2, 0), Boards.Move(2, 1), Boards.Move(2, 2)]
  {
    EmptyBoardSquaresFrom(0);
    AllSquares();
  }

  /** The empty squares of "2_5\n122\n352" from row-major position 5 on: none. */
  lemma OneGapFrom5()
    ensures EmptySquaresFrom(Board2x5_122_352, 5) == []
  {
    var b := Board2x5_122_352;
    assert EmptySquaresFrom(b, 9) == [];
    assert !IsEmptySquare(b, Boards.Move(2, 2));
    assert EmptySquaresFrom(b, 8) == [];
    assert !IsEmptySquare(b, Boards.Move(2, 1));
    assert EmptySquaresFrom(b, 7) == [];
    assert !IsEmptySquare(b, Boards.Move(2, 0));
    assert EmptySquaresFrom(b, 6) == [];
    assert !IsEmptySquare(b, Boards.Move(1, 2));
    assert EmptySquaresFrom(b, 5) == [];
  }

  /** From position 2 on: still none. */
  lemma OneGapFrom2()
    ensures EmptySquaresFrom(Board2x5_122_352, 2) == []
  {
    var b := Board2x5_122_352;
    OneGapFrom5();
    assert !IsEmptySquare(b, Boards.Move(1, 1));
    assert EmptySquaresFrom(b, 4) == [];
    assert !IsEmptySquare(b, Boards.Move(1, 0));
    assert EmptySquaresFrom(b, 3) == [];
    assert !IsEmptySquare(b, Boards.Move(0, 2));
    assert EmptySquaresFrom(b, 2) == [];
  }

  /** From the start: only the square at row 0, column 1. */
  lemma OneGapFrom0()
    ensures EmptySquaresFrom(Board2x5_122_352, 0) == [Boards.Move(0, 1)]
  {
    var b := Board2x5_122_352;
    OneGapFrom2();
    assert IsEmptySquare(b, Boards.Move(0, 1));
    assert EmptySquaresFrom(b, 1) == [Boards.Move(0, 1)];
    assert !IsEmptySquare(b, Boards.Move(0, 0));
    assert EmptySquaresFrom(b, 0) == [Boards.Move(0, 1)];
  }

  /** `test_node_gets_legal_moves`, player 2 to move on the empty board (src/tree/tree.rs:292-309). */
  lemma LegalMovesExample()
    ensures GetLegalMoves(LoneTwo) == Ok([Boards.Move(0, 0), Boards.Move(0, 1), Boards.Move(0, 2),
                                          Boards.Move(1, 0), Boards.Move(1, 1), Boards.Move(1, 2),
                                          Boards.Move(2, 0), Boards.Move(2, 1), Boards.Move(2, 2)])
  {
    EmptyBoardSquares();
    assert GetPlayerBoard(LoneTwo, Player2) == EmptyBoard();
  }

  /** `test_node_gets_legal_moves`, one gap left, and a Roll node (src/tree/tree.rs:311-324). */
  lemma LegalMovesOneGapExample()
    ensures GetLegalMoves(Position(Board2x5_122_352, Board15x_333_12x, NodeType.Move(Player1, Five)))
      == Ok([Boards.Move(0, 1)])
    ensures GetLegalMoves(Position(Board255_1x2_352, Board15x_333_12x, Roll(Player1))).Err?
  {
    OneGapFrom0();
  }

  /** On the empty board each column is represented by its top square. */
  lemma EmptyBoardReducedSquares()
    ensures EmptySquaresUpToRowSymmetry(EmptyBoard()) == [Boards.Move(0, 0), Boards.Move(0, 1), Boards.Move(0, 2)]
  {
    var b := EmptyBoard();
    assert FirstEmptyRow(b.columns[0]) == Some(0);
    assert FirstEmptyRow(b.columns[1]) == Some(0);
    assert FirstEmptyRow(b.columns[2]) == Some(0);
    assert ColumnRepresentative(b, 0) == [Boards.Move(0, 0)];
    assert ColumnRepresentative(b, 1) == [Boards.Move(0, 1)];
    assert ColumnRepresentative(b, 2) == [Boards.Move(0, 2)];
  }

  /** `test_node_gets_legal_moves_up_to_row_symmetry`, the empty board (src/tree/tree.rs:327-339). */
  lemma ReducedMovesExample()
    ensures GetLegalMovesUpToRowSymmetry(LoneTwo) == Ok([Boards.Move(0, 0), Boards.Move(0, 1), Boards.Move(0, 2)])
  {
    EmptyBoardReducedSquares();
    assert GetPlayerBoard(LoneTwo, Player2) == EmptyBoard();
  }

  /**
    `test_node_gets_legal_moves_up_to_row_symmetry`: only the middle column
    has room, from row 1 down, so (1, 1) stands for it; a Roll node has no
    moves (src/tree/tree.rs:341-356).
  */
  lemma ReducedMovesOneColumnExample()
    ensures GetLegalMovesUpToRowSymmetry(Position(Board235_1x2_3x2, Board15x_333_12x, NodeType.Move(Player1, Five)))
      == Ok([Boards.Move(1, 1)])
    ensures GetLegalMovesUpToRowSymmetry(Position(Board255_1x2_352, Board15x_333_12x, Roll(Player1))).Err?
  {
    var b := Board235_1x2_3x2;
    assert b.columns[1][0] != Empty && b.columns[1][1] == Empty;
    assert FirstEmptyRow(b.columns[0]) == None;
    assert FirstEmptyRow(b.columns[1]) == Some(1);
    assert FirstEmptyRow(b.columns[2]) == None;
    assert ColumnRepresentative(b, 0) == [];
    assert ColumnRepresentative(b, 1) == [Boards.Move(1, 1)];
    assert ColumnRepresentative(b, 2) == [];
    assert EmptySquaresUpToRowSymmetry(b) == [Boards.Move(1, 1)];
  }

  /**
    `test_node_makes_move_and_add_rolls` (src/tree/tree.rs:270-290): the node
    has no children, placing on (0, 0) gives it one, and rolling at that
    child gives six, each holding a die.
  */
  method MoveAndRollsExample() returns (before: nat, afterMove: nat, afterRolls: nat, diceDealt: bool)
    ensures before == 0 && afterMove == 1 && afterRolls == 6 && diceDealt
  {
    var root := new Node(LoneTwo.player1Board, LoneTwo.player2Board, LoneTwo.nodeType);
    before := root.NChildren();
    assert GetPlayerBoard(LoneTwo, Player2) == EmptyBoard();
    var moved := root.AddMove(Boards.Move(0, 0));
    afterMove := root.NChildren();
    var child := root.children[0];
    assert child.Shape == PosTree(ChildAfterMove(LoneTwo, Boards.Move(0, 0)).value, []);
    var rolled := child.AddRolls();
    ghost var rolls := Rolls(child.Pos()).value;
    afterRolls := child.NChildren();
    forall i | 0 <= i < |child.children|
      ensures GetDie(child.children[i].Pos()).Some?
    {
      LeavesAt(rolls, i);
    }
    diceDealt := forall i | 0 <= i < |child.children| :: GetDie(child.children[i].Pos()).Some?;
  }

  /** Three children on the empty board, one per column. */
  lemma ExpandLoneTwo()
    ensures |Expand(LoneTwo)| == 3
  {
    ReducedMovesExample();
    ExpandChildren(LoneTwo);
  }

  /** One child when a single column has room. */
  lemma ExpandOneColumn()
    ensures |Expand(Position(Board235_1x2_3x2, Board15x_333_12x, NodeType.Move(Player1, Five)))| == 1
  {
    ReducedMovesOneColumnExample();
    ExpandChildren(Position(Board235_1x2_3x2, Board15x_333_12x, NodeType.Move(Player1, Five)));
  }

  /** A new node for `pos` has, after `generate_children_up_to_symmetry`, one child per expanded position. */
  method GeneratedChildren(pos: Position) returns (n: nat)
    ensures n == |Expand(pos)|
  {
    var node := new Node(pos.player1Board, pos.player2Board, pos.nodeType);
    node.GenerateChildrenUpToSymmetry();
    n := node.NChildren();
  }

  /**
    `test_node_generates_children_up_to_row_symmetry` (src/tree/tree.rs:359-381):
    three children on the empty board, one when a single column has room, six
    at a Roll node.
  */
  method GenerateChildrenExample() returns (counts: seq<nat>)
    ensures counts == [3, 1, 6]
  {
    var a := GeneratedChildren(LoneTwo);
    ExpandLoneTwo();
    var b := GeneratedChildren(Position(Board235_1x2_3x2, Board15x_333_12x, NodeType.Move(Player1, Five)));
    ExpandOneColumn();
    var c := GeneratedChildren(Position(Board255_1x2_352, Board15x_333_12x, Roll(Player1)));
    ExpandCount(Position(Board255_1x2_352, Board15x_333_12x, Roll(Player1)));
    counts := [a, b, c];
  }
}
