/**
  The game tree of src/tree/tree.rs. A node holds both players' boards and its
  type: a Roll node waits for the active player's die, a Move node waits for
  the active player to place the die already rolled.

  The pure part of a node (boards and type) is the datatype `Position`; the
  getters, the outcome and the children a node would get are functions on it.
  `Node` is the class whose `children` the source grows in place.
*/
module Trees {
  import opened Wrappers
  import opened Errors
  import opened Boards

  datatype NodeType = Roll(player: Player) | Move(player: Player, die: Die)

  datatype Position = Position(player1Board: Board, player2Board: Board, nodeType: NodeType)

  // ------------------------------------------------------------- getters

  /** `get_player_board`. */
  function GetPlayerBoard(pos: Position, p: Player): Board
  {
    match p
    case Player1 => pos.player1Board
    case Player2 => pos.player2Board
  }

  /**
    `from_player_and_boards`: the active player's board goes to that player's
    slot and the other board to the opponent's slot.
  */
  function PositionFor(active: Player, activeBoard: Board, opponentBoard: Board, nodeType: NodeType): (pos: Position)
    ensures GetPlayerBoard(pos, active) == activeBoard
    ensures GetPlayerBoard(pos, Opponent(active)) == opponentBoard
    ensures pos.nodeType == nodeType
  {
    match active
    case Player1 => Position(activeBoard, opponentBoard, nodeType)
    case Player2 => Position(opponentBoard, activeBoard, nodeType)
  }

  /** Two positions with the same boards for some player and their opponent, and the same type, are equal. */
  lemma SamePosition(a: Position, b: Position, p: Player)
    requires GetPlayerBoard(a, p) == GetPlayerBoard(b, p)
    requires GetPlayerBoard(a, Opponent(p)) == GetPlayerBoard(b, Opponent(p))
    requires a.nodeType == b.nodeType
    ensures a == b
  {
  }

  /** `get_die`: no die at a Roll node, the rolled die at a Move node. */
  function GetDie(pos: Position): (d: Option<Die>)
    ensures d.None? <==> pos.nodeType.Roll?
    ensures d.Some? ==> d.value == pos.nodeType.die
  {
    match pos.nodeType
    case Roll(_) => None
    case Move(_, die) => Some(die)
  }

  /** `get_active_player`: the player of either kind of node. */
  function GetActivePlayer(pos: Position): (p: Player)
    ensures p == pos.nodeType.player
  {
    match pos.nodeType
    case Roll(player) => player
    case Move(player, _) => player
  }

  /** `is_game_over`: either board is full, that is has no empty square left. */
  function IsGameOver(pos: Position): (over: bool)
    ensures over <==> NEmptySquares(pos.player1Board) == 0 || NEmptySquares(pos.player2Board) == 0
  {
    IsFull(pos.player1Board) || IsFull(pos.player2Board)
  }

  /**
    `get_outcome`: in progress until the game is over, then a victory for the
    strictly higher score, a draw on equal scores; never `Ambiguous`.
  */
  function GetOutcome(pos: Position): (o: Outcome)
    ensures o != Ambiguous
    ensures o == InProgress <==> !IsGameOver(pos)
    ensures o == Victory(Player1) <==> IsGameOver(pos) && Score(pos.player1Board) > Score(pos.player2Board)
    ensures o == Victory(Player2) <==> IsGameOver(pos) && Score(pos.player2Board) > Score(pos.player1Board)
    ensures o == Draw <==> IsGameOver(pos) && Score(pos.player1Board) == Score(pos.player2Board)
  {
    if IsGameOver(pos) then
      var player1Score := Score(pos.player1Board);
      var player2Score := Score(pos.player2Board);
      if player1Score > player2Score then Victory(Player1)
      else if player2Score > player1Score then Victory(Player2)
      else Draw
    else InProgress
  }

  /** `get_legal_moves`: at a Move node, every empty square of the mover's board, in row-major order. */
  function GetLegalMoves(pos: Position): (r: Result<seq<Boards.Move>, Error>)
    ensures pos.nodeType.Roll? <==> r == Err(LegalMovesOfRollNode)
    ensures r.Ok? ==> forall m :: m in r.value <==> IsEmptySquare(GetPlayerBoard(pos, pos.nodeType.player), m)
    ensures r.Ok? ==> forall i, j | 0 <= i < j < |r.value| :: RowMajorIndex(r.value[i]) < RowMajorIndex(r.value[j])
  {
    match pos.nodeType
    case Roll(_) => Err(LegalMovesOfRollNode)
    case Move(player, _) => Ok(EmptySquares(GetPlayerBoard(pos, player)))
  }

  /**
    `get_legal_moves_up_to_row_symmetry`: at a Move node, one move per non-full
    column of the mover's board, into the lowest empty row, columns in order.
  */
  function GetLegalMovesUpToRowSymmetry(pos: Position): (r: Result<seq<Boards.Move>, Error>)
    ensures pos.nodeType.Roll? <==> r == Err(LegalMovesOfRollNode)
    ensures r.Ok? ==> var b := GetPlayerBoard(pos, pos.nodeType.player);
      && (forall m | m in r.value :: IsEmptySquare(b, m) && forall i | 0 <= i < m.row :: b.columns[m.col][i] != Empty)
      && (forall c | 0 <= c < 3 :: (exists m :: m in r.value && m.col == c) <==> (exists row | 0 <= row < 3 :: b.columns[c][row] == Empty))
      && (forall i, j | 0 <= i < j < |r.value| :: r.value[i].col < r.value[j].col)
  {
    match pos.nodeType
    case Roll(_) => Err(LegalMovesOfRollNode)
    case Move(player, _) => Ok(EmptySquaresUpToRowSymmetry(GetPlayerBoard(pos, player)))
  }

  /** Every reduced move is also a legal move. */
  lemma ReducedMovesAreLegal(pos: Position)
    requires pos.nodeType.Move?
    ensures forall m | m in GetLegalMovesUpToRowSymmetry(pos).value :: m in GetLegalMoves(pos).value
  {
    RepresentativesAreEmptySquares(GetPlayerBoard(pos, pos.nodeType.player));
  }

  // ------------------------------------------------------------ placing

  /**
    Placing die `d` on square `m` of a board. The board method the source calls
    here is a stub; this is the placement the game needs: the square must be on
    the board and empty, and receives the die; every other square is unchanged.
  */
  function WithMoveMade(b: Board, d: Die, m: Boards.Move): (r: Result<Board, Error>)
    ensures r.Ok? <==> IsEmptySquare(b, m)
    ensures r.Ok? ==> forall c, row | 0 <= c < 3 && 0 <= row < 3 ::
      r.value.columns[c][row] == if c == m.col && row == m.row then Filled(d) else b.columns[c][row]
    ensures r.Err? ==> r.error == IllegalPlacement(m.row, m.col)
  {
    if IsEmptySquare(b, m) then
      Ok(PlaceDie(b, d, m.row, m.col))
    else
      Err(IllegalPlacement(m.row, m.col))
  }

  /** Die `d` written into square (`row`, `col`). */
  function PlaceDie(b: Board, d: Die, row: nat, col: nat): Board
    requires row < 3 && col < 3
  {
    Board(b.columns[col := b.columns[col][row := Filled(d)]])
  }

  lemma ColumnEmptiesAfterPlacement(col: Column, row: nat, d: Die)
    requires row < 3 && col[row] == Empty
    ensures ColumnEmpties(col[row := Filled(d)]) + 1 == ColumnEmpties(col)
  {
  }

  /** A placement fills exactly one empty square. */
  lemma PlacementFillsOneSquare(b: Board, d: Die, m: Boards.Move)
    requires IsEmptySquare(b, m)
    ensures NEmptySquares(WithMoveMade(b, d, m).value) + 1 == NEmptySquares(b)
  {
    var placed := PlaceDie(b, d, m.row, m.col);
    assert WithMoveMade(b, d, m).value == placed;
    ColumnEmptiesAfterPlacement(b.columns[m.col], m.row, d);
    assert placed.columns[m.col] == b.columns[m.col][m.row := Filled(d)];
    assert ColumnEmpties(placed.columns[0]) + ColumnEmpties(placed.columns[1]) + ColumnEmpties(placed.columns[2]) + 1
      == ColumnEmpties(b.columns[0]) + ColumnEmpties(b.columns[1]) + ColumnEmpties(b.columns[2]);
  }

  /**
    The number of tree levels below `pos` until the game is over, at most:
    every Roll level is followed by a Move level that fills one square.
  */
  function Horizon(pos: Position): (h: nat)
    ensures h == 0 <==> IsGameOver(pos)
  {
    if IsGameOver(pos) then 0
    else 2 * (NEmptySquares(pos.player1Board) + NEmptySquares(pos.player2Board)) + (if pos.nodeType.Roll? then 1 else 0)
  }

  // ----------------------------------------------------------- children

  /**
    The child `add_move` appends: at a Move node of player p with die d, p's
    board with d placed, the opponent's board unchanged, and the opponent to
    roll. Errors at a Roll node and for an illegal placement.
  */
  function ChildAfterMove(pos: Position, m: Boards.Move): (r: Result<Position, Error>)
    ensures pos.nodeType.Roll? ==> r == Err(MoveOnRollNode)
    ensures pos.nodeType.Move? ==> (r.Ok? <==> IsEmptySquare(GetPlayerBoard(pos, pos.nodeType.player), m))
    ensures pos.nodeType.Move? && r.Err? ==> r.error == IllegalPlacement(m.row, m.col)
    ensures r.Ok? ==>
      var p := pos.nodeType.player;
      && r.value.nodeType == Roll(Opponent(p))
      && GetPlayerBoard(r.value, p) == WithMoveMade(GetPlayerBoard(pos, p), pos.nodeType.die, m).value
      && GetPlayerBoard(r.value, Opponent(p)) == GetPlayerBoard(pos, Opponent(p))
  {
    match pos.nodeType
    case Roll(_) => Err(MoveOnRollNode)
    case Move(player, die) =>
      var opponent := Opponent(player);
      match WithMoveMade(GetPlayerBoard(pos, player), die, m)
      case Ok(newBoard) => Ok(PositionFor(player, newBoard, GetPlayerBoard(pos, opponent), Roll(opponent)))
      case Err(err) => Err(err)
  }

  /** A move brings an unfinished game strictly closer to its end. */
  lemma MoveProgress(pos: Position, m: Boards.Move)
    requires ChildAfterMove(pos, m).Ok? && !IsGameOver(pos)
    ensures Horizon(ChildAfterMove(pos, m).value) < Horizon(pos)
  {
    var p := pos.nodeType.player;
    PlacementFillsOneSquare(GetPlayerBoard(pos, p), pos.nodeType.die, m);
  }

  /**
    The children `add_rolls` appends: at a Roll node of player p, one Move node
    of p per die, in the order of `AllDice`, both boards unchanged. Errors at a
    Move node.
  */
  function Rolls(pos: Position): (r: Result<seq<Position>, Error>)
    ensures pos.nodeType.Move? <==> r == Err(RollsOnMoveNode)
    ensures r.Ok? ==> |r.value| == 6 && forall i | 0 <= i < 6 ::
      && r.value[i].player1Board == pos.player1Board
      && r.value[i].player2Board == pos.player2Board
      && r.value[i].nodeType == NodeType.Move(pos.nodeType.player, AllDice()[i])
  {
    match pos.nodeType
    case Roll(player) => Ok(RollChildren(pos, player))
    case Move(_, _) => Err(RollsOnMoveNode)
  }

  /** A roll takes an unfinished game exactly one level closer to its end. */
  lemma RollProgress(pos: Position, i: nat)
    requires Rolls(pos).Ok? && !IsGameOver(pos) && i < 6
    ensures Horizon(Rolls(pos).value[i]) + 1 == Horizon(pos)
  {
    var child := Rolls(pos).value[i];
    assert child.player1Board == pos.player1Board && child.player2Board == pos.player2Board;
    assert !IsGameOver(child);
  }

  /** Both boards kept, `player` holding each die in turn. */
  function RollChildren(pos: Position, player: Player): seq<Position>
  {
    var b1, b2 := pos.player1Board, pos.player2Board;
    [ Position(b1, b2, NodeType.Move(player, One)), Position(b1, b2, NodeType.Move(player, Two)),
      Position(b1, b2, NodeType.Move(player, Three)), Position(b1, b2, NodeType.Move(player, Four)),
      Position(b1, b2, NodeType.Move(player, Five)), Position(b1, b2, NodeType.Move(player, Six)) ]
  }

  /**
    The child after the mover places the die in the lowest empty square of
    column `c`, none when the column is full.
  */
  function ColumnChild(pos: Position, c: nat): seq<Position>
    requires pos.nodeType.Move? && c < 3
  {
    var p := pos.nodeType.player;
    var b := GetPlayerBoard(pos, p);
    match FirstEmptyRow(b.columns[c])
    case None => []
    case Some(row) => [PositionFor(p, PlaceDie(b, pos.nodeType.die, row, c), GetPlayerBoard(pos, Opponent(p)), Roll(Opponent(p)))]
  }

  /**
    The children `generate_children_up_to_symmetry` appends: the six rolls at a
    Roll node, one child per reduced move at a Move node.
  */
  function Expand(pos: Position): seq<Position>
  {
    match pos.nodeType
    case Roll(player) => RollChildren(pos, player)
    case Move(_, _) => ColumnChild(pos, 0) + ColumnChild(pos, 1) + ColumnChild(pos, 2)
  }

  /** `children` are, one for one, the children after `moves`. */
  ghost predicate ChildrenAfter(pos: Position, moves: seq<Boards.Move>, children: seq<Position>)
  {
    |children| == |moves| && forall i | 0 <= i < |moves| :: ChildAfterMove(pos, moves[i]) == Ok(children[i])
  }

  lemma ChildrenAfterConcat(pos: Position, moves1: seq<Boards.Move>, children1: seq<Position>, moves2: seq<Boards.Move>, children2: seq<Position>)
    requires ChildrenAfter(pos, moves1, children1) && ChildrenAfter(pos, moves2, children2)
    ensures ChildrenAfter(pos, moves1 + moves2, children1 + children2)
  {
    var moves, children := moves1 + moves2, children1 + children2;
    forall i | 0 <= i < |moves|
      ensures ChildAfterMove(pos, moves[i]) == Ok(children[i])
    {
      if i >= |moves1| {
        assert moves[i] == moves2[i - |moves1|] && children[i] == children2[i - |moves1|];
      }
    }
  }

  /** Column `c`'s child is the child after column `c`'s reduced move. */
  lemma ColumnChildAfterMove(pos: Position, c: nat)
    requires pos.nodeType.Move? && c < 3
    ensures ChildrenAfter(pos, ColumnRepresentative(GetPlayerBoard(pos, pos.nodeType.player), c), ColumnChild(pos, c))
  {
  }

  /** The expanded children are exactly those `add_rolls` or `add_move` would append. */
  lemma ExpandChildren(pos: Position)
    ensures pos.nodeType.Roll? ==> Rolls(pos) == Ok(Expand(pos))
    ensures pos.nodeType.Move? ==> ChildrenAfter(pos, GetLegalMovesUpToRowSymmetry(pos).value, Expand(pos))
  {
    if pos.nodeType.Move? {
      var b := GetPlayerBoard(pos, pos.nodeType.player);
      ColumnChildAfterMove(pos, 0);
      ColumnChildAfterMove(pos, 1);
      ColumnChildAfterMove(pos, 2);
      ChildrenAfterConcat(pos, ColumnRepresentative(b, 0), ColumnChild(pos, 0), ColumnRepresentative(b, 1), ColumnChild(pos, 1));
      ChildrenAfterConcat(pos, ColumnRepresentative(b, 0) + ColumnRepresentative(b, 1), ColumnChild(pos, 0) + ColumnChild(pos, 1),
        ColumnRepresentative(b, 2), ColumnChild(pos, 2));
    }
  }

  /** The children of a Move node are Roll nodes of the opponent, with one square less empty on the mover's board. */
  lemma ExpandMoveNode(pos: Position, i: nat)
    requires pos.nodeType.Move? && i < |Expand(pos)|
    ensures var p := pos.nodeType.player;
      && Expand(pos)[i].nodeType == Roll(Opponent(p))
      && NEmptySquares(GetPlayerBoard(Expand(pos)[i], p)) + 1 == NEmptySquares(GetPlayerBoard(pos, p))
      && GetPlayerBoard(Expand(pos)[i], Opponent(p)) == GetPlayerBoard(pos, Opponent(p))
  {
    ExpandChildren(pos);
    var p := pos.nodeType.player;
    var m := GetLegalMovesUpToRowSymmetry(pos).value[i];
    PlacementFillsOneSquare(GetPlayerBoard(pos, p), pos.nodeType.die, m);
  }

  /** A Roll node gets six children, a Move node one per non-full column of the mover's board. */
  lemma ExpandCount(pos: Position)
    ensures pos.nodeType.Roll? ==> |Expand(pos)| == 6
    ensures pos.nodeType.Move? ==> (|Expand(pos)| == 0 <==> IsFull(GetPlayerBoard(pos, pos.nodeType.player)))
  {
    ExpandChildren(pos);
  }

  /** Before the game is over every node has children, each one level closer to the end. */
  lemma ExpandProgress(pos: Position)
    requires !IsGameOver(pos)
    ensures |Expand(pos)| > 0
    ensures forall i | 0 <= i < |Expand(pos)| :: Horizon(Expand(pos)[i]) < Horizon(pos)
  {
    ExpandChildren(pos);
    if pos.nodeType.Roll? {
      forall i | 0 <= i < 6
        ensures Horizon(Expand(pos)[i]) < Horizon(pos)
      {
        RollProgress(pos, i);
      }
    } else {
      assert !IsFull(GetPlayerBoard(pos, pos.nodeType.player));
      var moves := GetLegalMovesUpToRowSymmetry(pos).value;
      forall i | 0 <= i < |Expand(pos)|
        ensures Horizon(Expand(pos)[i]) < Horizon(pos)
      {
        assert ChildAfterMove(pos, moves[i]) == Ok(Expand(pos)[i]);
        MoveProgress(pos, moves[i]);
      }
    }
  }

  // ---------------------------------------------------------------- node

  /** A tree of positions: the value a `Node` and its descendants stand for. */
  datatype PosTree = PosTree(pos: Position, subtrees: seq<PosTree>)

  /**
    The tree `depth` levels of `generate_children_up_to_symmetry` grow below
    `pos`; nothing grows below a finished game.
  */
  function Grow(pos: Position, depth: nat): PosTree
    decreases depth, 0
  {
    if depth == 0 || IsGameOver(pos) then PosTree(pos, [])
    else PosTree(pos, GrowAll(Expand(pos), depth - 1))
  }

  /** `Grow` for each position of `ps`, in order. */
  function GrowAll(ps: seq<Position>, depth: nat): (ts: seq<PosTree>)
    decreases depth, 1, |ps|
    ensures |ts| == |ps|
  {
    if |ps| == 0 then [] else GrowAll(ps[..|ps| - 1], depth) + [Grow(ps[|ps| - 1], depth)]
  }

  lemma GrowAllSnoc(ps: seq<Position>, k: nat, depth: nat)
    requires k < |ps|
    ensures GrowAll(ps[..k + 1], depth) == GrowAll(ps[..k], depth) + [Grow(ps[k], depth)]
  {
    assert ps[..k + 1][..k] == ps[..k];
  }

  lemma {:induction false} GrowAllAt(ps: seq<Position>, depth: nat, i: nat)
    requires i < |ps|
    ensures GrowAll(ps, depth)[i] == Grow(ps[i], depth)
  {
    if i < |ps| - 1 {
      GrowAllAt(ps[..|ps| - 1], depth, i);
    }
  }

  /** Childless trees, one per position, in order. */
  function Leaves(ps: seq<Position>): (ts: seq<PosTree>)
    ensures |ts| == |ps|
  {
    if |ps| == 0 then [] else Leaves(ps[..|ps| - 1]) + [PosTree(ps[|ps| - 1], [])]
  }

  lemma LeavesSnoc(ps: seq<Position>, k: nat)
    requires k < |ps|
    ensures Leaves(ps[..k + 1]) == Leaves(ps[..k]) + [PosTree(ps[k], [])]
  {
    assert ps[..k + 1][..k] == ps[..k];
  }

  lemma {:induction false} LeavesAt(ps: seq<Position>, i: nat)
    requires i < |ps|
    ensures Leaves(ps)[i] == PosTree(ps[i], [])
  {
    if i < |ps| - 1 {
      LeavesAt(ps[..|ps| - 1], i);
    }
  }

  /** `Node`: the boards and type are fixed at construction; `children` grows in place. */
  class Node {
    const player1Board: Board
    const player2Board: Board
    const nodeType: NodeType
    var children: seq<Node>
    ghost var Shape: PosTree
    ghost var Repr: set<object>

    /**
      The node owns its children's footprints, no node is its own descendant,
      and `Shape` is the tree of positions below this node.
    */
    ghost predicate Valid()
      reads this, Repr
      decreases Repr
    {
      && this in Repr
      && Shape.pos == Pos()
      && |Shape.subtrees| == |children|
      && forall i | 0 <= i < |children| ::
        && children[i] in Repr
        && children[i].Repr <= Repr
        && this !in children[i].Repr
        && children[i].Valid()
        && children[i].Shape == Shape.subtrees[i]
    }

    function Pos(): Position
    {
      Position(player1Board, player2Board, nodeType)
    }

    /** `Node::new`: a node without children. */
    constructor (player1Board: Board, player2Board: Board, nodeType: NodeType)
      ensures Valid() && Repr == {this}
      ensures Shape == PosTree(Position(player1Board, player2Board, nodeType), [])
      ensures children == []
    {
      this.player1Board := player1Board;
      this.player2Board := player2Board;
      this.nodeType := nodeType;
      children := [];
      Shape := PosTree(Position(player1Board, player2Board, nodeType), []);
      Repr := {this};
    }

    /** `Node::empty`: empty boards, player 1 to roll. */
    constructor Empty()
      ensures Valid() && Repr == {this}
      ensures Shape == PosTree(Position(EmptyBoard(), EmptyBoard(), Roll(Player1)), [])
      ensures children == []
    {
      player1Board := EmptyBoard();
      player2Board := EmptyBoard();
      nodeType := Roll(Player1);
      children := [];
      Shape := PosTree(Position(EmptyBoard(), EmptyBoard(), Roll(Player1)), []);
      Repr := {this};
    }

    /** `from_player_and_boards`. */
    static method FromPlayerAndBoards(active: Player, activeBoard: Board, opponentBoard: Board, nodeType: NodeType)
      returns (n: Node)
      ensures n.Valid() && fresh(n) && n.Repr == {n}
      ensures n.Shape == PosTree(PositionFor(active, activeBoard, opponentBoard, nodeType), [])
      ensures n.children == []
    {
      match active
      case Player1 => n := new Node(activeBoard, opponentBoard, nodeType);
      case Player2 => n := new Node(opponentBoard, activeBoard, nodeType);
    }

    /** Appends a subtree that shares nothing with this one and takes its footprint into `Repr`. */
    method AppendChild(child: Node)
      requires Valid() && child.Valid() && Repr !! child.Repr
      modifies this
      ensures Valid()
      ensures Repr == old(Repr) + child.Repr
      ensures children == old(children) + [child]
      ensures Shape == PosTree(old(Shape).pos, old(Shape).subtrees + [child.Shape])
    {
      children := children + [child];
      Shape := PosTree(Shape.pos, Shape.subtrees + [child.Shape]);
      Repr := Repr + child.Repr;
      assert children[|children| - 1] == child;
    }

    /**
      `add_move`: at a Move node, appends the child after the move; errors (and
      appends nothing) at a Roll node or for an illegal placement.
    */
    method AddMove(m: Boards.Move) returns (r: Result<(), Error>)
      requires Valid()
      modifies this
      ensures Valid() && fresh(Repr - old(Repr))
      ensures r.Ok? <==> ChildAfterMove(Pos(), m).Ok?
      ensures r.Ok? ==> Shape == PosTree(Pos(), old(Shape).subtrees + [PosTree(ChildAfterMove(Pos(), m).value, [])])
      ensures r.Err? ==> Shape == old(Shape) && children == old(children) && r.error == ChildAfterMove(Pos(), m).error
    {
      match nodeType {
        case Roll(_) =>
          return Err(MoveOnRollNode);
        case Move(player, die) =>
          var opponent := Opponent(player);
          match WithMoveMade(GetPlayerBoard(Pos(), player), die, m) {
            case Ok(newBoard) =>
              var newNode := FromPlayerAndBoards(player, newBoard, GetPlayerBoard(Pos(), opponent), Roll(opponent));
              AppendChild(newNode);
              return Ok(());
            case Err(err) =>
              return Err(err);
          }
      }
    }

    /**
      `add_rolls`: at a Roll node, appends one Move node per die; errors (and
      appends nothing) at a Move node.
    */
    method AddRolls() returns (r: Result<(), Error>)
      requires Valid()
      modifies this
      ensures Valid() && fresh(Repr - old(Repr))
      ensures r.Ok? <==> Rolls(Pos()).Ok?
      ensures r.Ok? ==> Shape == PosTree(Pos(), old(Shape).subtrees + Leaves(Rolls(Pos()).value))
      ensures r.Err? ==> Shape == old(Shape) && children == old(children) && r.error == RollsOnMoveNode
    {
      match nodeType {
        case Roll(player) =>
          var opponent := Opponent(player);
          var dice := AllDice();
          ghost var rolls := Rolls(Pos()).value;
          for k := 0 to 6
            invariant Valid() && fresh(Repr - old(Repr))
            invariant Shape == PosTree(Pos(), old(Shape).subtrees + Leaves(rolls[..k]))
          {
            var newNode := FromPlayerAndBoards(player, GetPlayerBoard(Pos(), player), GetPlayerBoard(Pos(), opponent), NodeType.Move(player, dice[k]));
            SamePosition(newNode.Shape.pos, rolls[k], player);
            AppendChild(newNode);
            LeavesSnoc(rolls, k);
          }
          assert rolls[..6] == rolls;
          return Ok(());
        case Move(_, _) =>
          return Err(RollsOnMoveNode);
      }
    }

    /**
      `generate_children_up_to_symmetry`: `add_rolls` at a Roll node, `add_move`
      for each reduced move at a Move node. Neither can fail here.
    */
    method GenerateChildrenUpToSymmetry()
      requires Valid()
      modifies this
      ensures Valid() && fresh(Repr - old(Repr))
      ensures Shape == PosTree(Pos(), old(Shape).subtrees + Leaves(Expand(Pos())))
    {
      match nodeType {
        case Roll(_) =>
          var r := AddRolls();
          assert r.Ok?;
        case Move(_, _) =>
          ExpandChildren(Pos());
          AddMoves(GetLegalMovesUpToRowSymmetry(Pos()).value, Expand(Pos()));
      }
    }

    /** `add_move` for each of `moves` in turn, all of them legal here, with `expanded` the children they give. */
    method AddMoves(moves: seq<Boards.Move>, ghost expanded: seq<Position>)
      requires Valid() && ChildrenAfter(Pos(), moves, expanded)
      modifies this
      ensures Valid() && fresh(Repr - old(Repr))
      ensures Shape == PosTree(Pos(), old(Shape).subtrees + Leaves(expanded))
    {
      for k := 0 to |moves|
        invariant Valid() && fresh(Repr - old(Repr))
        invariant Shape == PosTree(Pos(), old(Shape).subtrees + Leaves(expanded[..k]))
      {
        assert ChildAfterMove(Pos(), moves[k]) == Ok(expanded[k]);
        var r := AddMove(moves[k]);
        LeavesSnoc(expanded, k);
      }
      assert expanded[..|moves|] == expanded;
    }

    /** `build_n_moves_up_to_symmetry`: grows a childless node in place into its subtree of `depth` levels. */
    method BuildNMovesUpToSymmetry(depth: nat)
      requires Valid() && children == []
      modifies this
      decreases depth, 0
      ensures Valid() && fresh(Repr - old(Repr))
      ensures Shape == Grow(Pos(), depth)
    {
      if depth > 0 && !IsGameOver(Pos()) {
        var expanded := Expand(Pos());
        var subtrees, subtreeRepr, shapes := BuildSubtrees(expanded, depth - 1);
        AdoptChildren(subtrees, subtreeRepr, shapes);
      } else {
        assert Shape.subtrees == [];
        assert Shape == PosTree(Pos(), []);
      }
    }

    /** Makes freshly built subtrees the children of this childless node. */
    method AdoptChildren(subtrees: seq<Node>, ghost subtreeRepr: set<object>, ghost shapes: seq<PosTree>)
      requires Valid() && children == [] && Repr !! subtreeRepr
      requires |subtrees| == |shapes|
      requires forall i | 0 <= i < |subtrees| ::
        && subtrees[i].Repr <= subtreeRepr
        && subtrees[i].Valid()
        && subtrees[i].Shape == shapes[i]
      modifies this
      ensures Valid() && Repr == old(Repr) + subtreeRepr
      ensures children == subtrees && Shape == PosTree(Pos(), shapes)
    {
      children := subtrees;
      Shape := PosTree(Pos(), shapes);
      Repr := Repr + subtreeRepr;
      assert forall i | 0 <= i < |subtrees| :: subtrees[i] in subtrees[i].Repr;
    }

    /** New subtrees of `depth` levels, one for each of `positions`, in order. */
    static method BuildSubtrees(positions: seq<Position>, depth: nat)
      returns (subtrees: seq<Node>, ghost subtreeRepr: set<object>, ghost shapes: seq<PosTree>)
      decreases depth, 2
      ensures fresh(subtreeRepr)
      ensures |subtrees| == |shapes| == |positions|
      ensures forall i | 0 <= i < |positions| ::
        && subtrees[i].Repr <= subtreeRepr
        && subtrees[i].Valid()
        && subtrees[i].Shape == shapes[i]
      ensures shapes == GrowAll(positions, depth)
    {
      subtrees, subtreeRepr, shapes := [], {}, [];
      for k := 0 to |positions|
        invariant fresh(subtreeRepr)
        invariant |subtrees| == |shapes| == k
        invariant forall i | 0 <= i < k ::
          && subtrees[i].Repr <= subtreeRepr
          && subtrees[i].Valid()
          && subtrees[i].Shape == shapes[i]
        invariant shapes == GrowAll(positions[..k], depth)
      {
        var child := BuildSubtree(positions[k], depth);
        GrowAllSnoc(positions, k, depth);
        subtrees := subtrees + [child];
        subtreeRepr := subtreeRepr + child.Repr;
        shapes := shapes + [child.Shape];
      }
      assert positions[..|positions|] == positions;
    }

    /** A new node for `pos` with its subtree of `depth` levels. */
    static method BuildSubtree(pos: Position, depth: nat) returns (n: Node)
      decreases depth, 1
      ensures n.Valid() && fresh(n.Repr)
      ensures n.Shape == Grow(pos, depth)
    {
      n := new Node(pos.player1Board, pos.player2Board, pos.nodeType);
      n.BuildNMovesUpToSymmetry(depth);
    }

    /** `build_entire_tree_up_to_symmetry`: builds until every leaf is a finished game. */
    method BuildEntireTreeUpToSymmetry()
      requires Valid() && children == []
      modifies this
      ensures Valid() && fresh(Repr - old(Repr))
      ensures Shape == Grow(Pos(), Horizon(Pos()))
    {
      BuildNMovesUpToSymmetry(Horizon(Pos()));
    }

    /** `n_children`. */
    function NChildren(): (n: nat)
      requires Valid()
      reads this, Repr
      ensures n == |Shape.subtrees|
    {
      |children|
    }

    /**
      `get_max_depth`: 1 at a leaf, otherwise 1 + the largest depth among the
      children.
    */
    function GetMaxDepth(): (d: nat)
      requires Valid()
      reads this, Repr
      decreases Repr, 1
      ensures d >= 1
      ensures |children| == 0 ==> d == 1

    {
      if |children| == 0 then 1
      else
        1 + ChildDepth(DeepestChild(|children|))
    }

    /** The index of a deepest child among the first `k` children. */
    function DeepestChild(k: nat): (w: nat)
      requires Valid() && 0 < k <= |children|
      reads this, Repr
      decreases Repr, 0, k + 1
      ensures w < k
    {
      if k == 1 then 0
      else
        var w := DeepestChild(k - 1);
        if ChildDepth(w) >= ChildDepth(k - 1) then w else k - 1
    }

    lemma {:induction false} DeepestChildIsDeepest(k: nat)
      requires Valid() && 0 < k <= |children|
      decreases Repr, 0, k + 2
      ensures forall i | 0 <= i < k :: ChildDepth(i) <= ChildDepth(DeepestChild(k))
    {
      if k > 1 {
        DeepestChildIsDeepest(k - 1);
      }
    }

    /** A node is deeper than each child, and exactly one level deeper than some child. */
    lemma MaxDepthOverChildren()
      requires Valid()
      ensures forall i | 0 <= i < |children| :: GetMaxDepth() > ChildDepth(i)
      ensures |children| > 0 ==> exists i | 0 <= i < |children| :: GetMaxDepth() == 1 + ChildDepth(i)
    {
      if |children| > 0 {
        DeepestChildIsDeepest(|children|);
        assert GetMaxDepth() == 1 + ChildDepth(DeepestChild(|children|));
      }
    }

    /** The depth of child `i`. */
    function ChildDepth(i: nat): nat
      requires Valid() && i < |children|
      reads this, Repr
      decreases Repr, 0, 0
    {
      children[i].GetMaxDepth()
    }
  }
}
