/**
  The solver of src/solver/solver.rs: the difference heuristic, the value of a
  finished game, and the expectiminimax search over the tree a `Node` grows.
  Evaluations, `f32` in the source, are `real` here.
*/
module Solvers {
  import opened Wrappers
  import opened Errors
  import opened Boards
  import opened Trees

  // ---------------------------------------------------------- heuristic

  /** `get_score_difference`, which the heuristic calls: player 1's score minus player 2's. */
  function ScoreDifference(pos: Position): int
  {
    Score(pos.player1Board) - Score(pos.player2Board)
  }

  /** +1 for player 1, -1 for player 2: the sign of an evaluation in a player's favour. */
  function Sign(p: Player): (s: real)
    ensures s == 1.0 || s == -1.0
    ensures s == 1.0 <==> p == Player1
  {
    match p
    case Player1 => 1.0
    case Player2 => -1.0
  }

  /**
    The player `difference_heuristic` expects to fill their board first, from
    the two counts of empty squares: the one with strictly fewer, the active
    player on a tie.
  */
  function FinishingFirst(empties1: real, empties2: real, active: Player): (p: Player)
    ensures empties1 < empties2 ==> p == Player1
    ensures empties1 > empties2 ==> p == Player2
    ensures empties1 == empties2 ==> p == active
  {
    if empties1 > empties2 then Player2
    else if empties1 < empties2 then Player1
    else active
  }

  /**
    The empty-square term of `difference_heuristic`: the squares the player
    finishing first leaves the other, plus one if the active player is the
    one finishing first and minus one otherwise, signed in that player's
    favour.
  */
  function EmptySquareTerm(empties1: real, empties2: real, active: Player): real
  {
    var finishingFirst := FinishingFirst(empties1, empties2, active);
    var bonus := if active == finishingFirst then 1.0 else -1.0;
    match finishingFirst
    case Player1 => empties2 - empties1 + bonus
    case Player2 => -(empties1 - empties2 + bonus)
  }

  /**
    Who finishes first never matters: the term is always player 2's empty
    squares minus player 1's, plus one in favour of the active player.
  */
  lemma EmptySquareTermClosedForm(empties1: real, empties2: real, active: Player)
    ensures EmptySquareTerm(empties1, empties2, active) == empties2 - empties1 + Sign(active)
  {
    if FinishingFirst(empties1, empties2, active) != active {
      assert empties1 != empties2;
    }
  }

  /**
    The arithmetic of `Solver::difference_heuristic` on its inputs: the score
    difference plus `emptySquareFill` times the empty-square term.
  */
  function HeuristicValue(difference: int, empties1: nat, empties2: nat, active: Player, emptySquareFill: real): real
  {
    difference as real + EmptySquareTerm(empties1 as real, empties2 as real, active) * emptySquareFill
  }

  /**
    The heuristic in closed form: every empty square player 2 has beyond
    player 1's, and the extra move of the active player, is worth
    `emptySquareFill` to player 1.
  */
  lemma HeuristicClosedForm(difference: int, empties1: nat, empties2: nat, active: Player, emptySquareFill: real)
    ensures HeuristicValue(difference, empties1, empties2, active, emptySquareFill)
      == difference as real + ((empties2 - empties1) as real + Sign(active)) * emptySquareFill
  {
    EmptySquareTermClosedForm(empties1 as real, empties2 as real, active);
  }

  /** Exchanging the players negates the heuristic. */
  lemma HeuristicAntisymmetric(difference: int, empties1: nat, empties2: nat, active: Player, emptySquareFill: real)
    ensures HeuristicValue(-difference, empties2, empties1, Opponent(active), emptySquareFill)
      == -HeuristicValue(difference, empties1, empties2, active, emptySquareFill)
  {
    EmptySquareTermClosedForm(empties1 as real, empties2 as real, active);
    EmptySquareTermClosedForm(empties2 as real, empties1 as real, Opponent(active));
    var term := EmptySquareTerm(empties1 as real, empties2 as real, active);
    assert EmptySquareTerm(empties2 as real, empties1 as real, Opponent(active)) == -term;
    assert -term * emptySquareFill == -(term * emptySquareFill);
  }

  /** `Solver::difference_heuristic` of a position. */
  function DifferenceHeuristic(pos: Position, emptySquareFill: real): real
  {
    HeuristicValue(ScoreDifference(pos), NEmptySquares(pos.player1Board), NEmptySquares(pos.player2Board),
              GetActivePlayer(pos), emptySquareFill)
  }

  /** The same game seen from the other side: boards exchanged, the other player to act. */
  function Swapped(pos: Position): (s: Position)
    ensures GetActivePlayer(s) == Opponent(GetActivePlayer(pos))
  {
    var nodeType := match pos.nodeType
      case Roll(p) => Roll(Opponent(p))
      case Move(p, d) => NodeType.Move(Opponent(p), d);
    Position(pos.player2Board, pos.player1Board, nodeType)
  }

  /** Seen from the other side, a position's heuristic is negated. */
  lemma DifferenceHeuristicAntisymmetric(pos: Position, emptySquareFill: real)
    ensures DifferenceHeuristic(Swapped(pos), emptySquareFill) == -DifferenceHeuristic(pos, emptySquareFill)
  {
    HeuristicAntisymmetric(ScoreDifference(pos), NEmptySquares(pos.player1Board), NEmptySquares(pos.player2Board),
                           GetActivePlayer(pos), emptySquareFill);
    assert ScoreDifference(Swapped(pos)) == -ScoreDifference(pos);
  }

  // --------------------------------------------------------- evaluation

  /**
    `Evaluation::from_outcome`: a win for player 1 is 1, a win for player 2
    is -1, a draw 0; a game in progress has no evaluation. The source does
    not match `Ambiguous`, so callers must not pass it.
  */
  function FromOutcome(o: Outcome): (r: Result<real, Error>)
    requires o != Ambiguous
    ensures r.Err? <==> o == InProgress
    ensures r.Err? ==> r.error == OutcomeInProgress
    ensures r.Ok? ==> -1.0 <= r.value <= 1.0
    ensures r.Ok? ==> (r.value == 1.0 <==> o == Victory(Player1))
    ensures r.Ok? ==> (r.value == -1.0 <==> o == Victory(Player2))
    ensures r.Ok? ==> (r.value == 0.0 <==> o == Draw)
  {
    match o
    case Victory(Player1) => Ok(1.0)
    case Victory(Player2) => Ok(-1.0)
    case Draw => Ok(0.0)
    case InProgress => Err(OutcomeInProgress)
  }

  /** A finished game's evaluation has the sign of the score difference. */
  lemma OutcomeEvaluationSign(pos: Position)
    requires IsGameOver(pos)
    ensures FromOutcome(GetOutcome(pos)).Ok?
    ensures FromOutcome(GetOutcome(pos)).value == Sign(Player1) <==> ScoreDifference(pos) > 0
    ensures FromOutcome(GetOutcome(pos)).value == Sign(Player2) <==> ScoreDifference(pos) < 0
    ensures FromOutcome(GetOutcome(pos)).value == 0.0 <==> ScoreDifference(pos) == 0
  {
  }

  // ------------------------------------------------------- aggregations

  function Sum(vs: seq<real>): real
  {
    if |vs| == 0 then 0.0 else Sum(vs[..|vs| - 1]) + vs[|vs| - 1]
  }

  /** The mean of the values, as the six rolls of a die are equally likely. */
  function Mean(vs: seq<real>): real
    requires |vs| > 0
  {
    Sum(vs) / (|vs| as real)
  }

  /** The largest value. */
  function Max(vs: seq<real>): (m: real)
    requires |vs| > 0
    ensures forall i | 0 <= i < |vs| :: vs[i] <= m
    ensures exists i | 0 <= i < |vs| :: vs[i] == m
  {
    if |vs| == 1 then vs[0]
    else
      var m := Max(vs[..|vs| - 1]);
      assert forall i | 0 <= i < |vs| - 1 :: vs[..|vs| - 1][i] == vs[i];
      if vs[|vs| - 1] > m then vs[|vs| - 1] else m
  }

  /** The smallest value. */
  function Min(vs: seq<real>): (m: real)
    requires |vs| > 0
    ensures forall i | 0 <= i < |vs| :: m <= vs[i]
    ensures exists i | 0 <= i < |vs| :: vs[i] == m
  {
    if |vs| == 1 then vs[0]
    else
      var m := Min(vs[..|vs| - 1]);
      assert forall i | 0 <= i < |vs| - 1 :: vs[..|vs| - 1][i] == vs[i];
      if vs[|vs| - 1] < m then vs[|vs| - 1] else m
  }

  lemma {:induction false} SumBounds(vs: seq<real>, lo: real, hi: real)
    requires forall i | 0 <= i < |vs| :: lo <= vs[i] <= hi
    ensures (|vs| as real) * lo <= Sum(vs) <= (|vs| as real) * hi
  {
    if |vs| > 0 {
      SumBounds(vs[..|vs| - 1], lo, hi);
    }
  }

  /** The mean lies between any bounds on the values. */
  lemma MeanBounds(vs: seq<real>, lo: real, hi: real)
    requires |vs| > 0
    requires forall i | 0 <= i < |vs| :: lo <= vs[i] <= hi
    ensures lo <= Mean(vs) <= hi
  {
    SumBounds(vs, lo, hi);
    var n := |vs| as real;
    assert n * lo <= Sum(vs) <= n * hi;
    assert Mean(vs) * n == Sum(vs);
  }

  /**
    How a node combines its children's values: the mean over the rolls at a
    Roll node, the best for the player to move at a Move node (player 1
    maximises, player 2 minimises).
  */
  function Combine(nodeType: NodeType, vs: seq<real>): real
    requires |vs| > 0
  {
    match nodeType
    case Roll(_) => Mean(vs)
    case Move(Player1, _) => Max(vs)
    case Move(Player2, _) => Min(vs)
  }

  /** The combined value lies between any bounds on the children's values. */
  lemma CombineBounds(nodeType: NodeType, vs: seq<real>, lo: real, hi: real)
    requires |vs| > 0
    requires forall i | 0 <= i < |vs| :: lo <= vs[i] <= hi
    ensures lo <= Combine(nodeType, vs) <= hi
  {
    if nodeType.Roll? {
      MeanBounds(vs, lo, hi);
    }
  }

  // ------------------------------------------------------------- search

  /**
    `SolverMode`: brute force evaluates finished games, searching until every
    leaf is one; a heuristic search stops after `depth` levels and applies
    the objective function to the positions there.
  */
  datatype SolverMode = BruteForce | Heuristic(depth: nat, objective: Position -> real)

  /** The levels the solver grows: the whole game for brute force. */
  function SearchDepth(pos: Position, mode: SolverMode): nat
  {
    match mode
    case BruteForce => Horizon(pos)
    case Heuristic(depth, _) => depth
  }

  /** Every leaf of the tree is a finished game. */
  ghost predicate LeavesOver(t: PosTree)
  {
    if |t.subtrees| == 0 then IsGameOver(t.pos)
    else forall i | 0 <= i < |t.subtrees| :: LeavesOver(t.subtrees[i])
  }

  /** The tree can be evaluated in `mode`: brute force only knows finished games. */
  ghost predicate Evaluable(t: PosTree, mode: SolverMode)
  {
    mode.BruteForce? ==> LeavesOver(t)
  }

  /** The value of a leaf: its outcome for brute force, the objective function otherwise. */
  function LeafValue(pos: Position, mode: SolverMode): real
    requires mode.BruteForce? ==> IsGameOver(pos)
  {
    match mode
    case BruteForce => FromOutcome(GetOutcome(pos)).value
    case Heuristic(_, objective) => objective(pos)
  }

  /** The expectiminimax value of a tree of positions. */
  function TreeValue(t: PosTree, mode: SolverMode): real
    requires Evaluable(t, mode)
    decreases t, |t.subtrees| + 1
  {
    if |t.subtrees| == 0 then LeafValue(t.pos, mode)
    else Combine(t.pos.nodeType, TreeValues(t, |t.subtrees|, mode))
  }

  /** The values of the first `k` subtrees. */
  function TreeValues(t: PosTree, k: nat, mode: SolverMode): (vs: seq<real>)
    requires k <= |t.subtrees| && Evaluable(t, mode)
    decreases t, k
    ensures |vs| == k
  {
    if k == 0 then []
    else TreeValues(t, k - 1, mode) + [TreeValue(t.subtrees[k - 1], mode)]
  }

  lemma {:induction false} TreeValuesAt(t: PosTree, k: nat, mode: SolverMode, i: nat)
    requires k <= |t.subtrees| && Evaluable(t, mode) && i < k
    ensures TreeValues(t, k, mode)[i] == TreeValue(t.subtrees[i], mode)
  {
    if i < k - 1 {
      TreeValuesAt(t, k - 1, mode, i);
    }
  }

  /** Grown as deep as the game can last, every leaf is a finished game. */
  lemma {:induction false} GrowLeavesOver(pos: Position, depth: nat)
    requires depth >= Horizon(pos)
    ensures LeavesOver(Grow(pos, depth))
    decreases depth, 0
  {
    if depth > 0 && !IsGameOver(pos) {
      ExpandProgress(pos);
      var ps := Expand(pos);
      var t := Grow(pos, depth);
      assert t.subtrees == GrowAll(ps, depth - 1);
      forall i | 0 <= i < |ps|
        ensures LeavesOver(t.subtrees[i])
      {
        GrowAllAt(ps, depth - 1, i);
        GrowLeavesOver(ps[i], depth - 1);
      }
    }
  }

  /** A brute-force value is an evaluation of outcomes: between -1 and 1. */
  lemma {:induction false} BruteForceBounds(t: PosTree)
    requires LeavesOver(t)
    ensures -1.0 <= TreeValue(t, BruteForce) <= 1.0
    decreases t
  {
    if |t.subtrees| > 0 {
      var vs := TreeValues(t, |t.subtrees|, BruteForce);
      forall i | 0 <= i < |vs|
        ensures -1.0 <= vs[i] <= 1.0
      {
        TreeValuesAt(t, |t.subtrees|, BruteForce, i);
        BruteForceBounds(t.subtrees[i]);
      }
      CombineBounds(t.pos.nodeType, vs, -1.0, 1.0);
    }
  }

  /** The tree the solver grows for `mode` can be evaluated in that mode. */
  lemma SearchEvaluable(pos: Position, mode: SolverMode)
    ensures Evaluable(Grow(pos, SearchDepth(pos, mode)), mode)
  {
    if mode.BruteForce? {
      GrowLeavesOver(pos, Horizon(pos));
    }
  }

  /**
    The values of a searched position's children, each searched one level
    less deep, in the order `Expand` lists them.
  */
  function ChildValues(pos: Position, mode: SolverMode): (vs: seq<real>)
    requires SearchDepth(pos, mode) > 0 && !IsGameOver(pos)
    ensures |vs| == |Expand(pos)|
  {
    SearchEvaluable(pos, mode);
    var t := Grow(pos, SearchDepth(pos, mode));
    TreeValues(t, |t.subtrees|, mode)
  }

  /** Child `i`'s value is the value of its own tree, one level shallower. */
  lemma ChildValuesAt(pos: Position, mode: SolverMode, i: nat)
    requires SearchDepth(pos, mode) > 0 && !IsGameOver(pos) && i < |Expand(pos)|
    ensures Evaluable(Grow(Expand(pos)[i], SearchDepth(pos, mode) - 1), mode)
    ensures ChildValues(pos, mode)[i] == TreeValue(Grow(Expand(pos)[i], SearchDepth(pos, mode) - 1), mode)
  {
    SearchEvaluable(pos, mode);
    var depth := SearchDepth(pos, mode);
    var ps := Expand(pos);
    var t := Grow(pos, depth);
    assert t.subtrees == GrowAll(ps, depth - 1);
    GrowAllAt(ps, depth - 1, i);
    assert t.subtrees[i] == Grow(ps[i], depth - 1);
    if mode.BruteForce? {
      assert LeavesOver(t.subtrees[i]);
    }
    TreeValuesAt(t, |t.subtrees|, mode, i);
  }

  /** The moves whose value is `best`, in their order. */
  function BestMoves(moves: seq<Boards.Move>, values: seq<real>, best: real): (ms: seq<Boards.Move>)
    requires |moves| == |values|
    ensures |ms| <= |moves|
    ensures forall i | 0 <= i < |moves| && values[i] == best :: moves[i] in ms
    ensures forall m | m in ms :: exists i | 0 <= i < |moves| :: moves[i] == m && values[i] == best
  {
    if |moves| == 0 then []
    else
      var n := |moves| - 1;
      var ms := BestMoves(moves[..n], values[..n], best);
      assert forall i | 0 <= i < n :: moves[..n][i] == moves[i] && values[..n][i] == values[i];
      if values[n] == best then ms + [moves[n]] else ms
  }

  /**
    The positions whose value is `best`, in increasing order: each holds
    `best`, and every position holding `best` is among them.
  */
  function BestIndices(values: seq<real>, best: real): (idx: seq<nat>)
    ensures forall k | 0 <= k < |idx| :: idx[k] < |values| && values[idx[k]] == best
    ensures forall k, l | 0 <= k < l < |idx| :: idx[k] < idx[l]
    ensures forall i | 0 <= i < |values| && values[i] == best :: i in idx
  {
    if |values| == 0 then []
    else
      var n := |values| - 1;
      var idx := BestIndices(values[..n], best);
      assert forall i | 0 <= i < n :: values[..n][i] == values[i];
      if values[n] == best then idx + [n] else idx
  }

  /**
    The best moves are the moves at the best positions, one for each and in
    the order of the positions.
  */
  lemma {:induction false} BestMovesInOrder(moves: seq<Boards.Move>, values: seq<real>, best: real)
    requires |moves| == |values|
    ensures var idx := BestIndices(values, best);
      && |BestMoves(moves, values, best)| == |idx|
      && forall k | 0 <= k < |idx| :: BestMoves(moves, values, best)[k] == moves[idx[k]]
  {
    if |moves| > 0 {
      var n := |moves| - 1;
      var ms, idx := BestMoves(moves[..n], values[..n], best), BestIndices(values[..n], best);
      BestMovesInOrder(moves[..n], values[..n], best);
      var ms', idx' := BestMoves(moves, values, best), BestIndices(values, best);
      if values[n] == best {
        assert ms' == ms + [moves[n]] && idx' == idx + [n];
      } else {
        assert ms' == ms && idx' == idx;
      }
      forall k | 0 <= k < |idx'|
        ensures ms'[k] == moves[idx'[k]]
      {
        if k < |idx| {
          assert ms'[k] == ms[k] == moves[..n][idx[k]];
        }
      }
    }
  }

  /** When every move ties at `best`, every move is best, in its order. */
  lemma {:induction false} AllTiedBest(moves: seq<Boards.Move>, values: seq<real>, best: real)
    requires |moves| == |values|
    requires forall i | 0 <= i < |values| :: values[i] == best
    ensures BestMoves(moves, values, best) == moves
  {
    if |moves| > 0 {
      var n := |moves| - 1;
      AllTiedBest(moves[..n], values[..n], best);
      assert moves[..n] + [moves[n]] == moves;
    }
  }

  /**
    `get_next_moves_and_evaluation` as its tests fix it, on the position the
    solver's root holds: grow `SearchDepth` levels, value the children, and
    return every move whose child attains the node's value, with that value.
    A Roll node has no moves to choose; neither has a node whose search does
    not go below it.
  */
  function Search(pos: Position, mode: SolverMode): (r: Result<(seq<Boards.Move>, real), Error>)
  {
    match GetLegalMovesUpToRowSymmetry(pos)
    case Err(e) => Err(e)
    case Ok(moves) =>
      if SearchDepth(pos, mode) == 0 || IsGameOver(pos) then Err(NoMoveToChoose)
      else
        ExpandChildren(pos);
        ExpandProgress(pos);
        var values := ChildValues(pos, mode);
        var best := Combine(pos.nodeType, values);
        Ok((BestMoves(moves, values, best), best))
  }

  /** When the search fails, and with which error. */
  lemma SearchErrors(pos: Position, mode: SolverMode)
    ensures pos.nodeType.Roll? ==> Search(pos, mode) == Err(LegalMovesOfRollNode)
    ensures pos.nodeType.Move? ==>
      (Search(pos, mode).Err? <==> SearchDepth(pos, mode) == 0 || IsGameOver(pos))
    ensures pos.nodeType.Move? && Search(pos, mode).Err? ==> Search(pos, mode).error == NoMoveToChoose
  {
  }

  /**
    The moves returned are exactly the reduced moves whose child attains the
    returned value, there is at least one, and the value is the largest child
    value when player 1 moves and the smallest when player 2 does.
  */
  lemma SearchChoosesBest(pos: Position, mode: SolverMode)
    requires Search(pos, mode).Ok?
    ensures pos.nodeType.Move? && SearchDepth(pos, mode) > 0 && !IsGameOver(pos)
    ensures var moves, vs := GetLegalMovesUpToRowSymmetry(pos).value, ChildValues(pos, mode);
      var (best, v) := Search(pos, mode).value;
      && |best| > 0
      && |moves| == |vs|
      && (forall m | m in best :: m in moves)
      && (forall i | 0 <= i < |moves| :: moves[i] in best <==> vs[i] == v)
      && (pos.nodeType.player == Player1 ==> forall i | 0 <= i < |vs| :: vs[i] <= v)
      && (pos.nodeType.player == Player2 ==> forall i | 0 <= i < |vs| :: v <= vs[i])
    ensures var moves, vs := GetLegalMovesUpToRowSymmetry(pos).value, ChildValues(pos, mode);
      var (best, v) := Search(pos, mode).value;
      var idx := BestIndices(vs, v);
      && |best| == |idx|
      && forall k | 0 <= k < |idx| :: best[k] == moves[idx[k]]
  {
    ExpandChildren(pos);
    var moves, vs := GetLegalMovesUpToRowSymmetry(pos).value, ChildValues(pos, mode);
    assert Search(pos, mode).value == (BestMoves(moves, vs, Combine(pos.nodeType, vs)), Combine(pos.nodeType, vs));
    assert forall i, j | 0 <= i < j < |moves| :: moves[i] != moves[j];
    BestOfValues(pos.nodeType, moves, vs);
    BestMovesInOrder(moves, vs, Combine(pos.nodeType, vs));
  }

  /**
    At a Move node, the moves whose value is the combined value are exactly
    the moves attaining the best value for the player to move, and there is
    at least one.
  */
  lemma BestOfValues(nodeType: NodeType, moves: seq<Boards.Move>, vs: seq<real>)
    requires nodeType.Move? && |moves| == |vs| > 0
    requires forall i, j | 0 <= i < j < |moves| :: moves[i] != moves[j]
    ensures var v := Combine(nodeType, vs);
      var best := BestMoves(moves, vs, v);
      && |best| > 0
      && (forall m | m in best :: m in moves)
      && (forall i | 0 <= i < |moves| :: moves[i] in best <==> vs[i] == v)
      && (nodeType.player == Player1 ==> forall i | 0 <= i < |vs| :: vs[i] <= v)
      && (nodeType.player == Player2 ==> forall i | 0 <= i < |vs| :: v <= vs[i])
  {
    var v := Combine(nodeType, vs);
    var best := BestMoves(moves, vs, v);
    if nodeType.player == Player1 {
      var i :| 0 <= i < |vs| && vs[i] == Max(vs);
      assert moves[i] in best;
    } else {
      var i :| 0 <= i < |vs| && vs[i] == Min(vs);
      assert moves[i] in best;
    }
    forall i | 0 <= i < |moves| && moves[i] in best
      ensures vs[i] == v
    {
      var j :| 0 <= j < |moves| && moves[j] == moves[i] && vs[j] == v;
      assert j == i;
    }
  }

  /** The returned evaluation is the expectiminimax value of the grown tree. */
  lemma SearchValue(pos: Position, mode: SolverMode)
    requires Search(pos, mode).Ok?
    ensures Evaluable(Grow(pos, SearchDepth(pos, mode)), mode)
    ensures Search(pos, mode).value.1 == TreeValue(Grow(pos, SearchDepth(pos, mode)), mode)
  {
    SearchEvaluable(pos, mode);
  }

  /** A brute-force evaluation lies between a sure loss and a sure win for player 1. */
  lemma BruteForceSearchBounds(pos: Position)
    requires Search(pos, BruteForce).Ok?
    ensures -1.0 <= Search(pos, BruteForce).value.1 <= 1.0
  {
    SearchValue(pos, BruteForce);
    BruteForceBounds(Grow(pos, Horizon(pos)));
  }

  // ------------------------------------------------- search on the nodes

  /** The expectiminimax value of the tree of nodes below `n`, read from the heap. */
  function NodeValue(n: Node, mode: SolverMode): real
    requires n.Valid() && Evaluable(n.Shape, mode)
    reads n, n.Repr
    decreases n.Repr, 1
  {
    if |n.children| == 0 then LeafValue(n.Pos(), mode)
    else Combine(n.nodeType, NodeChildValues(n, |n.children|, mode))
  }

  /** The values of the first `k` children of `n`. */
  function NodeChildValues(n: Node, k: nat, mode: SolverMode): (vs: seq<real>)
    requires n.Valid() && Evaluable(n.Shape, mode) && k <= |n.children|
    reads n, n.Repr
    decreases n.Repr, 0, k
    ensures |vs| == k
  {
    if k == 0 then []
    else
      var child := n.children[k - 1];
      assert child.Shape == n.Shape.subtrees[k - 1];
      NodeChildValues(n, k - 1, mode) + [NodeValue(child, mode)]
  }

  /** Reading the values off the nodes gives the value of their tree of positions. */
  lemma {:induction false} NodeValueIsTreeValue(n: Node, mode: SolverMode)
    requires n.Valid() && Evaluable(n.Shape, mode)
    decreases n.Repr, 1
    ensures NodeValue(n, mode) == TreeValue(n.Shape, mode)
  {
    if |n.children| > 0 {
      NodeChildValuesAreTreeValues(n, |n.children|, mode);
    }
  }

  lemma {:induction false} NodeChildValuesAreTreeValues(n: Node, k: nat, mode: SolverMode)
    requires n.Valid() && Evaluable(n.Shape, mode) && k <= |n.children|
    decreases n.Repr, 0, k
    ensures NodeChildValues(n, k, mode) == TreeValues(n.Shape, k, mode)
  {
    if k > 0 {
      var child := n.children[k - 1];
      assert child.Shape == n.Shape.subtrees[k - 1];
      NodeChildValuesAreTreeValues(n, k - 1, mode);
      NodeValueIsTreeValue(child, mode);
    }
  }

  /** A node grown for `mode`, with children, holds its position's child values. */
  lemma GrownNodeValues(n: Node, mode: SolverMode)
    requires n.Valid() && n.Shape == Grow(n.Pos(), SearchDepth(n.Pos(), mode))
    ensures |n.children| > 0 <==> SearchDepth(n.Pos(), mode) > 0 && !IsGameOver(n.Pos())
    ensures Evaluable(n.Shape, mode)
    ensures |n.children| > 0 ==> NodeChildValues(n, |n.children|, mode) == ChildValues(n.Pos(), mode)
  {
    var pos := n.Pos();
    SearchEvaluable(pos, mode);
    if SearchDepth(pos, mode) > 0 && !IsGameOver(pos) {
      ExpandProgress(pos);
      assert |n.Shape.subtrees| == |Expand(pos)|;
      NodeChildValuesAreTreeValues(n, |n.children|, mode);
    }
  }

  /** Collects, in order, the moves whose value is `best`. */
  method CollectBestMoves(moves: seq<Boards.Move>, values: seq<real>, best: real) returns (bestMoves: seq<Boards.Move>)
    requires |moves| == |values|
    ensures bestMoves == BestMoves(moves, values, best)
  {
    bestMoves := [];
    for i := 0 to |moves|
      invariant bestMoves == BestMoves(moves[..i], values[..i], best)
    {
      assert moves[..i + 1][..i] == moves[..i] && values[..i + 1][..i] == values[..i];
      if values[i] == best {
        bestMoves := bestMoves + [moves[i]];
      }
    }
    assert moves[..|moves|] == moves && values[..|values|] == values;
  }

  /**
    `Node::get_next_moves_and_evaluation` on a node grown for `mode`: values
    the children, combines them, and collects the reduced moves whose child
    attains the node's value.
  */
  method NextMovesAndEvaluation(n: Node, mode: SolverMode) returns (r: Result<(seq<Boards.Move>, real), Error>)
    requires n.Valid() && n.Shape == Grow(n.Pos(), SearchDepth(n.Pos(), mode))
    ensures r == Search(n.Pos(), mode)
  {
    var legal := GetLegalMovesUpToRowSymmetry(n.Pos());
    if legal.Err? {
      return Err(legal.error);
    }
    GrownNodeValues(n, mode);
    if |n.children| == 0 {
      return Err(NoMoveToChoose);
    }
    ExpandChildren(n.Pos());
    var values := NodeChildValues(n, |n.children|, mode);
    var best := Combine(n.nodeType, values);
    var bestMoves := CollectBestMoves(legal.value, values, best);
    r := Ok((bestMoves, best));
  }

  /** `Solver`: owns the root node it grows and searches. */
  class Solver {
    var root: Node

    /** `Solver::from_root`. */
    constructor FromRoot(root: Node)
      ensures this.root == root
    {
      this.root := root;
    }

    /**
      `get_best_moves_and_evaluation`: grows the childless root in place, the
      whole game for brute force or `depth` levels for a heuristic, then
      searches it.
    */
    method GetBestMovesAndEvaluation(mode: SolverMode) returns (r: Result<(seq<Boards.Move>, real), Error>)
      requires root.Valid() && root.children == []
      modifies root
      ensures root.Valid() && fresh(root.Repr - old(root.Repr))
      ensures root.Shape == Grow(root.Pos(), SearchDepth(root.Pos(), mode))
      ensures r == Search(root.Pos(), mode)
    {
      match mode {
        case BruteForce =>
          root.BuildEntireTreeUpToSymmetry();
        case Heuristic(depth, _) =>
          root.BuildNMovesUpToSymmetry(depth);
      }
      r := NextMovesAndEvaluation(root, mode);
    }

    /** `get_evaluation`: the evaluation alone. */
    method GetEvaluation(mode: SolverMode) returns (r: Result<real, Error>)
      requires root.Valid() && root.children == []
      modifies root
      ensures root.Valid() && fresh(root.Repr - old(root.Repr))
      ensures r.Ok? <==> Search(root.Pos(), mode).Ok?
      ensures r.Ok? ==> r.value == Search(root.Pos(), mode).value.1
      ensures r.Err? ==> r.error == Search(root.Pos(), mode).error
    {
      var result := GetBestMovesAndEvaluation(mode);
      match result
      case Ok((_, evaluation)) => r := Ok(evaluation);
      case Err(e) => r := Err(e);
    }
  }
}
