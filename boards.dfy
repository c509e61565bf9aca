/**
  One player's Knucklebones board (src/board/board.rs): dice, squares, moves,
  the 3x3 grid stored column by column, its score, fullness and empty squares.
  The text grid parser and printer are in board_text.dfy.
*/
module Boards {
  import opened Wrappers
  import opened Errors

  datatype Player = Player1 | Player2

  /** `Player::opponent`, which tree.rs calls: the other player. */
  function Opponent(p: Player): (q: Player)
    ensures q != p
  {
    if p == Player1 then Player2 else Player1
  }

  datatype Outcome = Victory(winner: Player) | Draw | InProgress | Ambiguous

  // ---------------------------------------------------------------- dice

  datatype Die = One | Two | Three | Four | Five | Six

  /** The unsigned byte `Die::new` takes. */
  type Byte = x: int | 0 <= x < 0x100

  function ToValue(d: Die): (v: nat)
    ensures 1 <= v <= 6
  {
    match d
    case One => 1
    case Two => 2
    case Three => 3
    case Four => 4
    case Five => 5
    case Six => 6
  }

  /** `Die::new`: accepts exactly the values 1 to 6. */
  function NewDie(value: Byte): (r: Result<Die, Error>)
    ensures r.Ok? <==> 1 <= value <= 6
    ensures r.Ok? ==> ToValue(r.value) == value
    ensures r.Err? ==> r.error == InvalidDieValue(value)
  {
    match value
    case 1 => Ok(One)
    case 2 => Ok(Two)
    case 3 => Ok(Three)
    case 4 => Ok(Four)
    case 5 => Ok(Five)
    case 6 => Ok(Six)
    case _ => Err(InvalidDieValue(value))
  }

  /** `Die::new(to_value(d))` gives back `d`: the two are inverse. */
  lemma NewDieOfValue(d: Die)
    ensures NewDie(ToValue(d)) == Ok(d)
  {
  }

  /** `Die::from_char`: accepts exactly the digits '1' to '6'. */
  function DieFromChar(c: char): (r: Result<Die, Error>)
    ensures r.Ok? <==> '1' <= c <= '6'
    ensures r.Ok? ==> ToValue(r.value) == c as int - '0' as int
    ensures r.Err? ==> r.error == InvalidDieCharacter(c)
  {
    match c
    case '1' => Ok(One)
    case '2' => Ok(Two)
    case '3' => Ok(Three)
    case '4' => Ok(Four)
    case '5' => Ok(Five)
    case '6' => Ok(Six)
    case _ => Err(InvalidDieCharacter(c))
  }

  /** `Die + Die`: the sum of the two values, which fits the source's u16. */
  function AddDice(a: Die, b: Die): (s: nat)
    ensures 2 <= s <= 12
    ensures s - ToValue(b) == ToValue(a)
  {
    ToValue(a) + ToValue(b)
  }

  /** The test of src/board/board.rs:392-396. */
  lemma AddDiceExample()
    ensures AddDice(Four, Five) == 9
  {
  }

  /** The six dice in the order `Die::all` yields them (by value). */
  function AllDice(): (ds: seq<Die>)
    ensures |ds| == 6
    ensures forall i | 0 <= i < 6 :: ToValue(ds[i]) == i + 1
  {
    [One, Two, Three, Four, Five, Six]
  }

  /** Every die is among the six. */
  lemma AllDiceComplete(d: Die)
    ensures d in AllDice()
  {
    match d
    case One => assert AllDice()[0] == d;
    case Two => assert AllDice()[1] == d;
    case Three => assert AllDice()[2] == d;
    case Four => assert AllDice()[3] == d;
    case Five => assert AllDice()[4] == d;
    case Six => assert AllDice()[5] == d;
  }

  // ------------------------------------------------------------- squares

  datatype Square = Empty | Filled(die: Die)

  predicate IsSquareChar(c: char)
  {
    c == '_' || '1' <= c <= '6'
  }

  /** `Square::to_string`: '_' for an empty square, the digit of a die. */
  function SquareChar(sq: Square): (c: char)
    ensures IsSquareChar(c)
    ensures c == '_' <==> sq == Empty
  {
    match sq
    case Empty => '_'
    case Filled(d) => ('0' as int + ToValue(d)) as char
  }

  /** `Square::from_char`: '_' is empty, a digit '1'..'6' is a die, anything else fails. */
  function SquareFromChar(c: char): (r: Result<Square, Error>)
    ensures r.Ok? <==> IsSquareChar(c)
    ensures r.Ok? ==> SquareChar(r.value) == c
    ensures r.Err? ==> r.error == InvalidDieCharacter(c)
  {
    if c == '_' then Ok(Empty)
    else match DieFromChar(c)
      case Ok(d) => Ok(Filled(d))
      case Err(e) => Err(e)
  }

  /** Printing a square and parsing the character back gives the square. */
  lemma SquareCharRoundTrip(sq: Square)
    ensures SquareFromChar(SquareChar(sq)) == Ok(sq)
  {
  }

  /** The value a square adds to its column's sum. */
  function SquareValue(sq: Square): nat
  {
    match sq
    case Empty => 0
    case Filled(d) => ToValue(d)
  }

  // --------------------------------------------------------------- moves

  /** A square of the grid, by row and column. */
  datatype Move = Move(row: nat, col: nat)

  /** Rust's `char::is_whitespace`: the Unicode White_Space property. */
  predicate IsWhitespace(c: char)
  {
    var u := c as int;
    (0x09 <= u <= 0x0D) || u == 0x20 || u == 0x85 || u == 0xA0 || u == 0x1680
    || (0x2000 <= u <= 0x200A) || u == 0x2028 || u == 0x2029 || u == 0x202F
    || u == 0x205F || u == 0x3000
  }

  /** The number of bytes of the UTF-8 encoding of `s` (Rust's `str::len`). */
  function Utf8Length(s: string): (n: nat)
    ensures n >= |s|
    ensures (forall i | 0 <= i < |s| :: s[i] as int < 0x80) ==> n == |s|
  {
    if |s| == 0 then 0
    else
      var u := s[0] as int;
      var width := if u < 0x80 then 1 else if u < 0x800 then 2 else if u < 0x10000 then 3 else 4;
      width + Utf8Length(s[1..])
  }

  /** `s` with every whitespace character removed. */
  function RemoveWhitespace(s: string): (t: string)
    ensures forall i | 0 <= i < |t| :: !IsWhitespace(t[i]) && t[i] in s
    ensures (forall i | 0 <= i < |s| :: !IsWhitespace(s[i])) ==> t == s
  {
    if |s| == 0 then []
    else (if IsWhitespace(s[0]) then [] else [s[0]]) + RemoveWhitespace(s[1..])
  }

  predicate IsCoordinateChar(c: char)
  {
    '0' <= c <= '2'
  }

  /**
    `Move::from_string`: after whitespace is removed exactly two characters
    must remain, each '0', '1' or '2', read as row then column.
  */
  function MoveFromString(s: string): (r: Result<Move, Error>)
    ensures var t := RemoveWhitespace(s);
      r.Ok? <==> |t| == 2 && IsCoordinateChar(t[0]) && IsCoordinateChar(t[1])
    ensures var t := RemoveWhitespace(s);
      r.Ok? ==> |t| == 2 && r.value == Move(t[0] as int - '0' as int, t[1] as int - '0' as int)
    ensures r.Ok? ==> r.value.row < 3 && r.value.col < 3
    ensures r.Err? ==> r.error == InvalidMoveString(s)
  {
    var t := RemoveWhitespace(s);
    if Utf8Length(t) != 2 then Err(InvalidMoveString(s))
    else if |t| < 1 || !IsCoordinateChar(t[0]) then Err(InvalidMoveString(s))
    else if |t| < 2 || !IsCoordinateChar(t[1]) then Err(InvalidMoveString(s))
    else Ok(Move(t[0] as int - '0' as int, t[1] as int - '0' as int))
  }

  /** The test of src/board/board.rs:441-445. */
  lemma MoveFromStringExample()
    ensures MoveFromString("1 2") == Ok(Move(1, 2))
  {
    RemoveWhitespaceExample();
    var t := "12";
    assert Utf8Length(t) == 2;
    assert IsCoordinateChar(t[0]) && IsCoordinateChar(t[1]);
  }

  lemma RemoveWhitespaceExample()
    ensures RemoveWhitespace("1 2") == "12"
  {
    assert "1 2"[1..] == " 2" && " 2"[1..] == "2";
    assert RemoveWhitespace("2") == "2";
    assert RemoveWhitespace(" 2") == "2";
  }

  // --------------------------------------------------------------- board

  type Column = c: seq<Square> | |c| == 3 witness [Empty, Empty, Empty]

  type Columns = cs: seq<Column> | |cs| == 3
    witness [[Empty, Empty, Empty], [Empty, Empty, Empty], [Empty, Empty, Empty]]

  /** A board: `columns[col][row]`. */
  datatype Board = Board(columns: Columns)

  /** Two boards with the same nine squares are the same board. */
  lemma BoardExtensionality(a: Board, b: Board)
    requires forall c, r | 0 <= c < 3 && 0 <= r < 3 :: a.columns[c][r] == b.columns[c][r]
    ensures a == b
  {
    forall c | 0 <= c < 3
      ensures a.columns[c] == b.columns[c]
    {
      assert forall r | 0 <= r < 3 :: a.columns[c][r] == b.columns[c][r];
    }
  }

  /** `Board::empty`. */
  function EmptyBoard(): (b: Board)
    ensures forall c, r | 0 <= c < 3 && 0 <= r < 3 :: b.columns[c][r] == Empty
  {
    Board([[Empty, Empty, Empty], [Empty, Empty, Empty], [Empty, Empty, Empty]])
  }

  /** The nine squares in column-major order, as `get_elements` pushes them. */
  function Elements(b: Board): (e: seq<Square>)
    ensures |e| == 9
    ensures forall c, r | 0 <= c < 3 && 0 <= r < 3 :: e[3 * c + r] == b.columns[c][r]
  {
    var first: seq<Square> := b.columns[0];
    first + b.columns[1] + b.columns[2]
  }

  /** `Board::get_elements`: pushes every square of every column. */
  method GetElements(b: Board) returns (elements: seq<Square>)
    ensures elements == Elements(b)
  {
    elements := [];
    for c := 0 to 3
      invariant elements == Elements(b)[..3 * c]
    {
      for r := 0 to 3
        invariant elements == Elements(b)[..3 * c + r]
      {
        elements := elements + [b.columns[c][r]];
      }
    }
  }

  /** The number of empty squares in a column. */
  function ColumnEmpties(col: Column): (n: nat)
    ensures n <= 3
    ensures n == 0 <==> forall r | 0 <= r < 3 :: col[r] != Empty
  {
    (if col[0] == Empty then 1 else 0) + (if col[1] == Empty then 1 else 0)
    + (if col[2] == Empty then 1 else 0)
  }

  /** `get_n_empty_squares`, which solver.rs calls: how many squares are empty. */
  function NEmptySquares(b: Board): (n: nat)
    ensures n <= 9
    ensures n == 0 <==> forall c, r | 0 <= c < 3 && 0 <= r < 3 :: b.columns[c][r] != Empty
  {
    assert forall c | 0 <= c < 3 :: ColumnEmpties(b.columns[c]) == 0 ==> forall r | 0 <= r < 3 :: b.columns[c][r] != Empty;
    ColumnEmpties(b.columns[0]) + ColumnEmpties(b.columns[1]) + ColumnEmpties(b.columns[2])
  }

  /** `Board::is_full`: no square is empty. */
  function IsFull(b: Board): (full: bool)
    ensures full <==> NEmptySquares(b) == 0
  {
    forall c, r | 0 <= c < 3 && 0 <= r < 3 :: b.columns[c][r] != Empty
  }

  /** `is_full` holds exactly when every element `get_elements` yields is a die. */
  lemma IsFullByElements(b: Board)
    ensures IsFull(b) <==> forall i | 0 <= i < |Elements(b)| :: Elements(b)[i] != Empty
  {
    var e := Elements(b);
    assert forall i | 0 <= i < 9 :: e[i] == b.columns[i / 3][i % 3];
  }

  // ------------------------------------------------------------- scoring

  /**
    `get_column_multiplicity`: 3 when the three squares hold the same die,
    2 when some two non-empty squares are equal, 1 otherwise.
  */
  function ColumnMultiplicity(col: Column): (m: nat)
    ensures 1 <= m <= 3
  {
    if col[0] != Empty && col[0] == col[1] && col[1] == col[2] then 3
    else if (col[0] != Empty && col[0] == col[1])
         || (col[1] != Empty && col[1] == col[2])
         || (col[0] != Empty && col[0] == col[2]) then 2
    else 1
  }

  /** How many squares of the column hold die `d`. */
  function Count(col: Column, d: Die): nat
  {
    multiset(col)[Filled(d)]
  }

  lemma CountSquares(col: Column, d: Die)
    ensures Count(col, d) == (if col[0] == Filled(d) then 1 else 0)
      + (if col[1] == Filled(d) then 1 else 0) + (if col[2] == Filled(d) then 1 else 0)
  {
    assert col == [col[0]] + [col[1]] + [col[2]];
  }

  /**
    The multiplicity is the largest number of copies of one die in the column
    (at least 1): 3 exactly when some die fills the column, 2 or more exactly
    when some die appears twice. Empty squares never count as a match.
  */
  lemma MultiplicityCountsRepeats(col: Column)
    ensures ColumnMultiplicity(col) == 3 <==> exists d: Die :: Count(col, d) == 3
    ensures ColumnMultiplicity(col) >= 2 <==> exists d: Die :: Count(col, d) >= 2
  {
    forall d: Die {
      CountSquares(col, d);
    }
    if col[0] != Empty && col[0] == col[1] {
      assert Count(col, col[0].die) >= 2;
    } else if col[1] != Empty && col[1] == col[2] {
      assert Count(col, col[1].die) >= 2;
    } else if col[0] != Empty && col[0] == col[2] {
      assert Count(col, col[0].die) >= 2;
    }
  }

  /** The multiplicity of a column does not depend on the order of its squares. */
  lemma MultiplicityPermutationInvariant(a: Column, b: Column)
    requires multiset(a) == multiset(b)
    ensures ColumnMultiplicity(a) == ColumnMultiplicity(b)
  {
    MultiplicityCountsRepeats(a);
    MultiplicityCountsRepeats(b);
    assert forall d: Die :: Count(a, d) == Count(b, d);
  }

  function ColumnSum(col: Column): nat
  {
    SquareValue(col[0]) + SquareValue(col[1]) + SquareValue(col[2])
  }

  /** A column's score: the sum of its dice times its multiplicity. */
  function ColumnScore(col: Column): nat
  {
    ColumnSum(col) * ColumnMultiplicity(col)
  }

  /** The score `Board::sum` computes: the three column scores added up. */
  function Score(b: Board): nat
  {
    ColumnScore(b.columns[0]) + ColumnScore(b.columns[1]) + ColumnScore(b.columns[2])
  }

  /** The score of the first `k` columns. */
  function ScoreOfColumns(b: Board, k: nat): nat
    requires k <= 3
  {
    if k == 0 then 0 else ScoreOfColumns(b, k - 1) + ColumnScore(b.columns[k - 1])
  }

  /** `Board::sum`: adds, column by column, the die values times the multiplicity. */
  method Sum(b: Board) returns (sum: nat)
    ensures sum == Score(b)
  {
    sum := 0;
    var columnIndex := 0;
    while columnIndex < 3
      invariant columnIndex <= 3
      invariant sum == ScoreOfColumns(b, columnIndex)
    {
      var column := b.columns[columnIndex];
      var columnSum := 0;
      for r := 0 to 3
        invariant columnSum == ColumnSum(column[..r] + [Empty, Empty, Empty][r..])
      {
        match column[r]
        case Empty =>
        case Filled(die) => columnSum := columnSum + ToValue(die);
      }
      assert column[..3] + [Empty, Empty, Empty][3..] == column;
      columnSum := columnSum * ColumnMultiplicity(column);
      sum := sum + columnSum;
      columnIndex := columnIndex + 1;
    }
    assert ScoreOfColumns(b, 1) == ColumnScore(b.columns[0]);
    assert ScoreOfColumns(b, 3) == Score(b);
  }

  /** The score fits the source's `u16` with room to spare: at most 3 * 18 * 3. */
  lemma ScoreBounds(b: Board)
    ensures Score(b) <= 162
    ensures IsFull(b) ==> Score(b) >= 9
  {
    forall c | 0 <= c < 3
      ensures ColumnScore(b.columns[c]) <= 54
    {
      var col := b.columns[c];
      assert ColumnSum(col) <= 18;
    }
  }

  /** The column sum, like the multiplicity, does not depend on the order of the squares. */
  lemma ColumnSumByCounts(col: Column)
    ensures ColumnSum(col) == Count(col, One) + 2 * Count(col, Two) + 3 * Count(col, Three)
      + 4 * Count(col, Four) + 5 * Count(col, Five) + 6 * Count(col, Six)
  {
    CountSquares(col, One);
    CountSquares(col, Two);
    CountSquares(col, Three);
    CountSquares(col, Four);
    CountSquares(col, Five);
    CountSquares(col, Six);
    SquareValueByDice(col[0]);
    SquareValueByDice(col[1]);
    SquareValueByDice(col[2]);
  }

  lemma SquareValueByDice(sq: Square)
    ensures SquareValue(sq) == (if sq == Filled(One) then 1 else 0)
      + 2 * (if sq == Filled(Two) then 1 else 0) + 3 * (if sq == Filled(Three) then 1 else 0)
      + 4 * (if sq == Filled(Four) then 1 else 0) + 5 * (if sq == Filled(Five) then 1 else 0)
      + 6 * (if sq == Filled(Six) then 1 else 0)
  {
  }

  /**
    A board whose columns hold the same dice, in any row order, has the same
    score: only the multiset of each column matters.
  */
  lemma ScoreRowOrderInvariant(a: Board, b: Board)
    requires forall c | 0 <= c < 3 :: multiset(a.columns[c]) == multiset(b.columns[c])
    ensures Score(a) == Score(b)
  {
    ColumnScorePermutationInvariant(a.columns[0], b.columns[0]);
    ColumnScorePermutationInvariant(a.columns[1], b.columns[1]);
    ColumnScorePermutationInvariant(a.columns[2], b.columns[2]);
  }

  /** A column's score depends only on the dice it holds, not on their rows. */
  lemma ColumnScorePermutationInvariant(a: Column, b: Column)
    requires multiset(a) == multiset(b)
    ensures ColumnScore(a) == ColumnScore(b)
  {
    MultiplicityPermutationInvariant(a, b);
    ColumnSumByCounts(a);
    ColumnSumByCounts(b);
    assert Count(a, One) == Count(b, One) && Count(a, Two) == Count(b, Two) && Count(a, Three) == Count(b, Three);
    assert Count(a, Four) == Count(b, Four) && Count(a, Five) == Count(b, Five) && Count(a, Six) == Count(b, Six);
  }

  // ------------------------------------------------------- empty squares

  /** The position of a square in row-major order. */
  function RowMajorIndex(m: Move): nat
  {
    3 * m.row + m.col
  }

  predicate IsEmptySquare(b: Board, m: Move)
  {
    m.row < 3 && m.col < 3 && b.columns[m.col][m.row] == Empty
  }

  /** The empty squares at row-major positions `k` to 8, in that order. */
  function EmptySquaresFrom(b: Board, k: nat): (ms: seq<Move>)
    requires k <= 9
    ensures forall m :: m in ms <==> IsEmptySquare(b, m) && RowMajorIndex(m) >= k
    ensures forall i, j | 0 <= i < j < |ms| :: RowMajorIndex(ms[i]) < RowMajorIndex(ms[j])
    ensures forall i | 0 <= i < |ms| :: RowMajorIndex(ms[i]) >= k
    decreases 9 - k
  {
    if k == 9 then []
    else
      var here := Move(k / 3, k % 3);
      (if IsEmptySquare(b, here) then [here] else []) + EmptySquaresFrom(b, k + 1)
  }

  /** `get_empty_squares`, which tree.rs calls: every empty square, in row-major order. */
  function EmptySquares(b: Board): (ms: seq<Move>)
    ensures forall m :: m in ms <==> IsEmptySquare(b, m)
    ensures forall i, j | 0 <= i < j < |ms| :: RowMajorIndex(ms[i]) < RowMajorIndex(ms[j])
  {
    EmptySquaresFrom(b, 0)
  }

  /** The lowest (smallest-index) empty row of a column, if the column is not full. */
  function FirstEmptyRow(col: Column): (r: Option<nat>)
    ensures r.Some? <==> exists i | 0 <= i < 3 :: col[i] == Empty
    ensures r.Some? ==> r.value < 3 && col[r.value] == Empty
    ensures r.Some? ==> forall i | 0 <= i < r.value :: col[i] != Empty
  {
    if col[0] == Empty then Some(0)
    else if col[1] == Empty then Some(1)
    else if col[2] == Empty then Some(2)
    else None
  }

  /** The one representative square kept for column `c`. */
  function ColumnRepresentative(b: Board, c: nat): seq<Move>
    requires c < 3
  {
    match FirstEmptyRow(b.columns[c])
    case None => []
    case Some(r) => [Move(r, c)]
  }

  /**
    `get_empty_squares_up_to_row_symmetry`, which tree.rs calls: one square per
    non-full column, the lowest empty row of that column, columns in order.
  */
  function EmptySquaresUpToRowSymmetry(b: Board): (ms: seq<Move>)
    ensures forall m | m in ms ::
      IsEmptySquare(b, m) && forall i | 0 <= i < m.row :: b.columns[m.col][i] != Empty
    ensures forall c | 0 <= c < 3 ::
      (exists m :: m in ms && m.col == c) <==> (exists r | 0 <= r < 3 :: b.columns[c][r] == Empty)
    ensures forall i, j | 0 <= i < j < |ms| :: ms[i].col < ms[j].col
    ensures |ms| == 0 <==> IsFull(b)
  {
    ColumnRepresentative(b, 0) + ColumnRepresentative(b, 1) + ColumnRepresentative(b, 2)
  }

  /** Every representative square is one of the empty squares. */
  lemma RepresentativesAreEmptySquares(b: Board)
    ensures forall m | m in EmptySquaresUpToRowSymmetry(b) :: m in EmptySquares(b)
  {
  }
}
