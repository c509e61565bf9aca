/**
  The text form of a board (src/board/board.rs, `Board::to_string` and
  `Board::from_string`): three lines of three characters, line r holding row r,
  character c of a line holding column c; '_' is an empty square.
*/
module BoardText {
  import opened Wrappers
  import opened Errors
  import opened Boards

  // ------------------------------------------------------ lines of text

  predicate NoNewline(line: string)
  {
    forall i | 0 <= i < |line| :: line[i] != '\n'
  }

  /** `s` without its spaces and tabs, as `from_string` first filters it. */
  function StripBlanks(s: string): (t: string)
    ensures forall i | 0 <= i < |t| :: t[i] != ' ' && t[i] != '\t' && t[i] in s
    ensures (forall i | 0 <= i < |s| :: s[i] != ' ' && s[i] != '\t') ==> t == s
  {
    if |s| == 0 then []
    else (if s[0] == ' ' || s[0] == '\t' then [] else [s[0]]) + StripBlanks(s[1..])
  }

  /** `str::split("\n")`: the pieces between newlines, at least one (possibly empty). */
  function SplitLines(t: string): (lines: seq<string>)
    ensures |lines| >= 1
    ensures forall k | 0 <= k < |lines| :: NoNewline(lines[k])
  {
    if |t| == 0 then [""]
    else
      var rest := SplitLines(t[1..]);
      if t[0] == '\n' then [""] + rest
      else [[t[0]] + rest[0]] + rest[1..]
  }

  /** `join("\n")`. */
  function JoinLines(lines: seq<string>): string
  {
    if |lines| == 0 then ""
    else if |lines| == 1 then lines[0]
    else lines[0] + "\n" + JoinLines(lines[1..])
  }

  lemma JoinThree(a: string, b: string, c: string)
    ensures JoinLines([a, b, c]) == a + "\n" + b + "\n" + c
  {
    assert [a, b, c][1..] == [b, c];
    assert [b, c][1..] == [c];
    assert JoinLines([c]) == c;
    assert JoinLines([b, c]) == b + "\n" + c;
    assert JoinLines([a, b, c]) == a + "\n" + (b + "\n" + c);
  }

  /** Joining the pieces of a split gives back the text. */
  lemma {:induction false} JoinSplit(t: string)
    ensures JoinLines(SplitLines(t)) == t
  {
    if |t| > 0 {
      var rest := SplitLines(t[1..]);
      JoinSplit(t[1..]);
      if t[0] == '\n' {
        assert t == "\n" + t[1..];
        assert ([""] + rest)[1..] == rest;
      } else {
        var lines := [[t[0]] + rest[0]] + rest[1..];
        assert lines[1..] == rest[1..];
        if |rest| == 1 {
          assert JoinLines(rest) == rest[0];
        } else {
          assert JoinLines(rest) == rest[0] + "\n" + JoinLines(rest[1..]);
        }
        assert t == [t[0]] + t[1..];
      }
    }
  }

  /** A line without newline splits into itself, and before a newline it ends its piece. */
  lemma {:induction false} SplitOneLine(line: string, u: string)
    requires NoNewline(line)
    ensures SplitLines(line) == [line]
    ensures SplitLines(line + "\n" + u) == [line] + SplitLines(u)
  {
    if |line| == 0 {
      assert line + "\n" + u == "\n" + u;
      assert ("\n" + u)[1..] == u;
    } else {
      SplitOneLine(line[1..], u);
      assert (line + "\n" + u)[1..] == line[1..] + "\n" + u;
      assert [line[0]] + line[1..] == line;
    }
  }

  /** Splitting a join of newline-free lines gives back the lines. */
  lemma {:induction false} SplitJoin(lines: seq<string>)
    requires |lines| >= 1
    requires forall k | 0 <= k < |lines| :: NoNewline(lines[k])
    ensures SplitLines(JoinLines(lines)) == lines
  {
    if |lines| == 1 {
      SplitOneLine(lines[0], "");
    } else {
      SplitJoin(lines[1..]);
      SplitOneLine(lines[0], JoinLines(lines[1..]));
      assert [lines[0]] + lines[1..] == lines;
    }
  }

  // ------------------------------------------------------------ parsing

  /**
    How `from_string`'s nested loops end: every character stored, a character
    rejected by `Square::from_char`, or a character stored outside the 3x3
    grid (an index out of bounds, a panic in the source).
  */
  datatype Scan = Clean | BadChar(c: char) | OutOfBounds

  /** Every character of `line` (text row `r`) is a square character inside the grid. */
  predicate LineFits(line: string, r: nat)
  {
    forall i | 0 <= i < |line| :: IsSquareChar(line[i]) && r < 3 && i < 3
  }

  /**
    Scans `line[c..]` of text row `r` as `from_string` does: each character is
    parsed first, then stored at `columns[c][r]`.
  */
  function ScanLine(line: string, r: nat, c: nat): (scan: Scan)
    ensures scan == Clean <==> forall i | c <= i < |line| :: IsSquareChar(line[i]) && r < 3 && i < 3
    ensures scan.BadChar? ==> !IsSquareChar(scan.c) && scan.c in line
    decreases |line| - c
  {
    if c >= |line| then Clean
    else if !IsSquareChar(line[c]) then BadChar(line[c])
    else if r >= 3 || c >= 3 then OutOfBounds
    else ScanLine(line, r, c + 1)
  }

  /** Scans the text rows `r..` in order. */
  function ScanLines(lines: seq<string>, r: nat): (scan: Scan)
    ensures scan == Clean <==> forall k | r <= k < |lines| :: LineFits(lines[k], k)
    ensures scan.BadChar? ==> !IsSquareChar(scan.c) && exists k | r <= k < |lines| :: scan.c in lines[k]
    decreases |lines| - r
  {
    if r >= |lines| then Clean
    else match ScanLine(lines[r], r, 0)
      case Clean => ScanLines(lines, r + 1)
      case other => other
  }

  /** The text rows `from_string` walks through. */
  function TextLines(s: string): seq<string>
  {
    SplitLines(StripBlanks(s))
  }

  /** What `from_string` stores at text row `r`, character `c`: the parsed square, or Empty if none is given. */
  function CellSquare(lines: seq<string>, r: nat, c: nat): Square
  {
    if r < |lines| && c < |lines[r]| && IsSquareChar(lines[r][c])
    then SquareFromChar(lines[r][c]).value
    else Empty
  }

  function GridOf(lines: seq<string>): (b: Board)
    ensures forall c, r | 0 <= c < 3 && 0 <= r < 3 :: b.columns[c][r] == CellSquare(lines, r, c)
  {
    Board([[CellSquare(lines, 0, 0), CellSquare(lines, 1, 0), CellSquare(lines, 2, 0)],
           [CellSquare(lines, 0, 1), CellSquare(lines, 1, 1), CellSquare(lines, 2, 1)],
           [CellSquare(lines, 0, 2), CellSquare(lines, 1, 2), CellSquare(lines, 2, 2)]])
  }

  /** Character `j` of `t` is rejected: neither a line break nor a square character. */
  predicate BadAt(t: string, j: nat)
    requires j < |t|
  {
    t[j] != '\n' && !IsSquareChar(t[j])
  }

  /** `x` is the first rejected character of `t`, in text order. */
  predicate FirstBadChar(t: string, x: char)
  {
    exists j | 0 <= j < |t| :: t[j] == x && BadAt(t, j) && forall i | 0 <= i < j :: !BadAt(t, i)
  }

  /**
    The same scan read straight through the text: a line break moves to the
    next row, any other character is checked and then stored at column `c`.
  */
  function ScanText(t: string, r: nat, c: nat): Scan
    decreases |t|
  {
    if |t| == 0 then Clean
    else if t[0] == '\n' then ScanText(t[1..], r + 1, 0)
    else if !IsSquareChar(t[0]) then BadChar(t[0])
    else if r >= 3 || c >= 3 then OutOfBounds
    else ScanText(t[1..], r, c + 1)
  }

  /** A scan of the text that rejects a character rejects the first one. */
  lemma {:induction false} ScanTextFirstBad(t: string, r: nat, c: nat)
    requires ScanText(t, r, c).BadChar?
    ensures FirstBadChar(t, ScanText(t, r, c).c)
  {
    var x := ScanText(t, r, c).c;
    if t[0] == '\n' || IsSquareChar(t[0]) {
      var u := t[1..];
      if t[0] == '\n' {
        ScanTextFirstBad(u, r + 1, 0);
      } else {
        ScanTextFirstBad(u, r, c + 1);
      }
      var j :| 0 <= j < |u| && u[j] == x && BadAt(u, j) && forall i | 0 <= i < j :: !BadAt(u, i);
      assert t[j + 1] == x && BadAt(t, j + 1);
      forall i | 0 <= i < j + 1
        ensures !BadAt(t, i)
      {
        if i > 0 {
          assert t[i] == u[i - 1];
          assert !BadAt(u, i - 1);
        }
      }
    } else {
      assert t[0] == x && BadAt(t, 0);
    }
  }

  /** The cells `cells`, stored from column `c` of row `r` on. */
  function ScanCells(cells: string, r: nat, c: nat): Scan
    decreases |cells|
  {
    if |cells| == 0 then Clean
    else if !IsSquareChar(cells[0]) then BadChar(cells[0])
    else if r >= 3 || c >= 3 then OutOfBounds
    else ScanCells(cells[1..], r, c + 1)
  }

  /** The rows `rows`, the first of them being row `r`. */
  function ScanRows(rows: seq<string>, r: nat): Scan
    decreases |rows|
  {
    if |rows| == 0 then Clean
    else match ScanCells(rows[0], r, 0)
      case Clean => ScanRows(rows[1..], r + 1)
      case other => other
  }

  /** The rows `rows`, the first of them read from column `c` of row `r`. */
  function ScanTail(rows: seq<string>, r: nat, c: nat): Scan
    requires |rows| > 0
  {
    match ScanCells(rows[0], r, c)
      case Clean => ScanRows(rows[1..], r + 1)
      case other => other
  }

  lemma {:induction false} ScanLineCells(line: string, r: nat, c: nat)
    requires c <= |line|
    ensures ScanLine(line, r, c) == ScanCells(line[c..], r, c)
    decreases |line| - c
  {
    if c < |line| {
      ScanLineCells(line, r, c + 1);
      assert line[c..][1..] == line[c + 1..];
    }
  }

  lemma {:induction false} ScanLinesRows(lines: seq<string>, r: nat)
    requires r <= |lines|
    ensures ScanLines(lines, r) == ScanRows(lines[r..], r)
    decreases |lines| - r
  {
    if r < |lines| {
      ScanLinesRows(lines, r + 1);
      ScanLineCells(lines[r], r, 0);
      assert lines[r][0..] == lines[r];
      assert lines[r..][1..] == lines[r + 1..];
    }
  }

  lemma {:induction false} ScanTextSplit(t: string, r: nat, c: nat)
    ensures ScanText(t, r, c) == ScanTail(SplitLines(t), r, c)
    decreases |t|
  {
    if |t| > 0 {
      var rest := SplitLines(t[1..]);
      if t[0] == '\n' {
        ScanTextSplit(t[1..], r + 1, 0);
        assert ([""] + rest)[1..] == rest;
      } else {
        ScanTextSplit(t[1..], r, c + 1);
        assert ([t[0]] + rest[0])[1..] == rest[0];
        assert ([[t[0]] + rest[0]] + rest[1..])[1..] == rest[1..];
      }
    }
  }

  /** `from_string`'s loops over the split lines scan the text in text order. */
  lemma ScanLinesText(t: string)
    ensures ScanLines(SplitLines(t), 0) == ScanText(t, 0, 0)
  {
    ScanLinesRows(SplitLines(t), 0);
    assert SplitLines(t)[0..] == SplitLines(t);
    ScanTextSplit(t, 0, 0);
  }

  /**
    The board `from_string` returns: an error naming the first rejected
    character, or the board whose square (row r, column c) is the text's
    character c of line r, Empty where the text gives none.
  */
  function ParseBoard(s: string): (r: Result<Board, Error>)
    requires ScanLines(TextLines(s), 0) != OutOfBounds
    ensures var lines := TextLines(s);
      r.Ok? ==> forall c, row | 0 <= c < 3 && 0 <= row < 3 ::
        if row < |lines| && c < |lines[row]|
        then SquareChar(r.value.columns[c][row]) == lines[row][c]
        else r.value.columns[c][row] == Empty
    ensures r.Err? ==> r.error.InvalidDieCharacter? && FirstBadChar(StripBlanks(s), r.error.c)
  {
    var lines := TextLines(s);
    var scan := ScanLines(lines, 0);
    ScanLinesText(StripBlanks(s));
    if scan.BadChar? then
      ScanTextFirstBad(StripBlanks(s), 0, 0);
      Err(InvalidDieCharacter(scan.c))
    else Ok(GridOf(lines))
  }

  /** A character of a split piece is a character of the text. */
  lemma {:induction false} SplitCharIn(t: string, k: nat, c: char)
    requires k < |SplitLines(t)| && c in SplitLines(t)[k]
    ensures c in t
  {
    var rest := SplitLines(t[1..]);
    if t[0] == '\n' {
      assert SplitLines(t)[k] == rest[k - 1];
      SplitCharIn(t[1..], k - 1, c);
    } else if k == 0 {
      if c != t[0] {
        SplitCharIn(t[1..], 0, c);
      }
    } else {
      assert SplitLines(t)[k] == rest[k];
      SplitCharIn(t[1..], k, c);
    }
  }

  /** A character of the text other than a newline lies in some split piece. */
  lemma {:induction false} CharInSplit(t: string, j: nat)
    requires j < |t| && t[j] != '\n'
    ensures exists k | 0 <= k < |SplitLines(t)| :: t[j] in SplitLines(t)[k]
  {
    var rest := SplitLines(t[1..]);
    if j == 0 {
      assert t[0] in SplitLines(t)[0];
    } else {
      assert t[j] == t[1..][j - 1];
      CharInSplit(t[1..], j - 1);
      var k :| 0 <= k < |rest| && t[j] in rest[k];
      if t[0] == '\n' {
        assert SplitLines(t)[k + 1] == rest[k];
      } else if k == 0 {
        assert t[j] in SplitLines(t)[0];
      } else {
        assert SplitLines(t)[k] == rest[k];
      }
    }
  }

  /** A text holds a character, other than a newline, that is no square character. */
  predicate HasBadChar(t: string)
  {
    exists j | 0 <= j < |t| :: t[j] != '\n' && !IsSquareChar(t[j])
  }

  lemma ParseErrorHasBadChar(s: string)
    requires ScanLines(TextLines(s), 0) != OutOfBounds
    requires ParseBoard(s).Err?
    ensures HasBadChar(StripBlanks(s))
  {
    var t := StripBlanks(s);
    var lines := TextLines(s);
    var c := ScanLines(lines, 0).c;
    var k :| 0 <= k < |lines| && c in lines[k];
    SplitCharIn(t, k, c);
    var i :| 0 <= i < |lines[k]| && lines[k][i] == c;
    assert NoNewline(lines[k]);
    var j :| 0 <= j < |t| && t[j] == c;
    assert t[j] != '\n' && !IsSquareChar(t[j]);
  }

  lemma BadCharIsParseError(s: string)
    requires ScanLines(TextLines(s), 0) != OutOfBounds
    requires HasBadChar(StripBlanks(s))
    ensures ParseBoard(s).Err?
  {
    var t := StripBlanks(s);
    var lines := TextLines(s);
    var j :| 0 <= j < |t| && t[j] != '\n' && !IsSquareChar(t[j]);
    CharInSplit(t, j);
    var k :| 0 <= k < |lines| && t[j] in lines[k];
    assert !LineFits(lines[k], k);
  }

  /**
    `from_string` fails exactly when the text, spaces and tabs removed, holds
    a character other than a newline, '_' and '1'..'6'.
  */
  lemma ParseBoardFailsOnBadCharacter(s: string)
    requires ScanLines(TextLines(s), 0) != OutOfBounds
    ensures ParseBoard(s).Err? <==> HasBadChar(StripBlanks(s))
  {
    if ParseBoard(s).Err? {
      ParseErrorHasBadChar(s);
    }
    if HasBadChar(StripBlanks(s)) {
      BadCharIsParseError(s);
    }
  }

  /** `Board::from_string`: walks the text rows and their characters, storing each square. */
  method FromString(s: string) returns (r: Result<Board, Error>)
    requires ScanLines(TextLines(s), 0) != OutOfBounds
    ensures r == ParseBoard(s)
  {
    var board := EmptyBoard();
    var rowN := 0;
    var stripped := StripBlanks(s);
    var rows := SplitLines(stripped);
    while rowN < |rows|
      invariant rowN <= |rows|
      invariant ScanLines(rows, rowN) == ScanLines(rows, 0)
      invariant forall c, r | 0 <= c < 3 && 0 <= r < 3 ::
        board.columns[c][r] == if r < rowN then CellSquare(rows, r, c) else Empty
    {
      r := StoreRow(board, rows, rowN);
      if r.Err? {
        return;
      }
      board := r.value;
      rowN := rowN + 1;
    }
    BoardExtensionality(board, GridOf(rows));
    return Ok(board);
  }

  /**
    The inner loop of `from_string`: parses the characters of text row `rowN`
    and stores each at `columns[c][rowN]`, stopping at the first rejected one.
  */
  method StoreRow(board: Board, rows: seq<string>, rowN: nat) returns (r: Result<Board, Error>)
    requires rowN < |rows| && ScanLine(rows[rowN], rowN, 0) != OutOfBounds
    requires forall c, row | 0 <= c < 3 && 0 <= row < 3 ::
      board.columns[c][row] == if row < rowN then CellSquare(rows, row, c) else Empty
    ensures r.Err? <==> ScanLine(rows[rowN], rowN, 0).BadChar?
    ensures r.Err? ==> r.error == InvalidDieCharacter(ScanLine(rows[rowN], rowN, 0).c)
    ensures r.Ok? ==> forall c, row | 0 <= c < 3 && 0 <= row < 3 ::
      r.value.columns[c][row] == if row <= rowN then CellSquare(rows, row, c) else Empty
  {
    var row := rows[rowN];
    var current := board;
    var colN := 0;
    while colN < |row|
      invariant colN <= |row|
      invariant ScanLine(row, rowN, colN) == ScanLine(row, rowN, 0)
      invariant forall i | 0 <= i < colN :: IsSquareChar(row[i]) && rowN < 3 && i < 3
      invariant forall c, r | 0 <= c < 3 && 0 <= r < 3 ::
        current.columns[c][r] == if r < rowN || (r == rowN && c < colN) then CellSquare(rows, r, c) else Empty
    {
      match SquareFromChar(row[colN]) {
        case Ok(square) =>
          current := Board(current.columns[colN := current.columns[colN][rowN := square]]);
        case Err(e) =>
          return Err(e);
      }
      colN := colN + 1;
    }
    return Ok(current);
  }

  // ----------------------------------------------------------- printing

  /** Text row `r`: the squares of row `r` across the three columns. */
  function RowText(b: Board, r: nat): (line: string)
    requires r < 3
    ensures |line| == 3 && NoNewline(line)
    ensures forall c | 0 <= c < 3 :: line[c] == SquareChar(b.columns[c][r])
  {
    [SquareChar(b.columns[0][r]), SquareChar(b.columns[1][r]), SquareChar(b.columns[2][r])]
  }

  /** The text `to_string` produces: the three rows joined by newlines. */
  function Render(b: Board): string
  {
    JoinLines([RowText(b, 0), RowText(b, 1), RowText(b, 2)])
  }

  /** `Board::to_string`: appends each column's squares to the rows, then joins the rows. */
  method ToString(b: Board) returns (s: string)
    ensures s == Render(b)
  {
    var rowStrings: seq<string> := ["", "", ""];
    for c := 0 to 3
      invariant |rowStrings| == 3
      invariant forall r | 0 <= r < 3 :: rowStrings[r] == RowText(b, r)[..c]
    {
      var rowN := 0;
      for k := 0 to 3
        invariant rowN == k % 3
        invariant |rowStrings| == 3
        invariant forall r | 0 <= r < 3 :: rowStrings[r] == RowText(b, r)[..if r < k then c + 1 else c]
      {
        rowStrings := rowStrings[rowN := rowStrings[rowN] + [SquareChar(b.columns[c][k])]];
        if rowN == 2 {
          rowN := 0;
        } else {
          rowN := rowN + 1;
        }
      }
    }
    assert forall r | 0 <= r < 3 :: RowText(b, r)[..3] == RowText(b, r);
    assert rowStrings == [RowText(b, 0), RowText(b, 1), RowText(b, 2)];
    s := JoinLines(rowStrings);
  }

  // --------------------------------------------------------- round trips

  /** A line of three square characters. */
  predicate IsGridLine(line: string)
  {
    |line| == 3 && forall i | 0 <= i < 3 :: IsSquareChar(line[i])
  }

  /** Three grid lines joined by newlines are the text rows `from_string` sees, and all fit the grid. */
  lemma ThreeLines(a: string, b: string, c: string)
    requires IsGridLine(a) && IsGridLine(b) && IsGridLine(c)
    ensures TextLines(a + "\n" + b + "\n" + c) == [a, b, c]
    ensures ScanLines(TextLines(a + "\n" + b + "\n" + c), 0) == Clean
  {
    var t := a + "\n" + b + "\n" + c;
    assert forall i | 0 <= i < |t| :: t[i] != ' ' && t[i] != '\t' by {
      forall i | 0 <= i < |t|
        ensures t[i] != ' ' && t[i] != '\t'
      {
        if i < 3 { assert t[i] == a[i]; }
        else if 4 <= i < 7 { assert t[i] == b[i - 4]; }
        else if 8 <= i { assert t[i] == c[i - 8]; }
      }
    }
    JoinThree(a, b, c);
    SplitJoin([a, b, c]);
    assert LineFits(a, 0) && LineFits(b, 1) && LineFits(c, 2);
  }

  /** `from_string` of three grid lines is the board holding those lines' squares. */
  lemma ParseGrid(a: string, b: string, c: string)
    requires IsGridLine(a) && IsGridLine(b) && IsGridLine(c)
    ensures ScanLines(TextLines(a + "\n" + b + "\n" + c), 0) == Clean
    ensures ParseBoard(a + "\n" + b + "\n" + c) == Ok(GridOf([a, b, c]))
  {
    ThreeLines(a, b, c);
  }

  /** Printing a board and parsing the text gives the board back. */
  lemma ParseRender(b: Board)
    ensures ScanLines(TextLines(Render(b)), 0) == Clean
    ensures ParseBoard(Render(b)) == Ok(b)
  {
    var rows := [RowText(b, 0), RowText(b, 1), RowText(b, 2)];
    JoinThree(rows[0], rows[1], rows[2]);
    ThreeLines(rows[0], rows[1], rows[2]);
    forall c, r | 0 <= c < 3 && 0 <= r < 3
      ensures GridOf(rows).columns[c][r] == b.columns[c][r]
    {
      SquareCharRoundTrip(b.columns[c][r]);
    }
    BoardExtensionality(GridOf(rows), b);
  }

  /** A canonical grid text: three lines of three square characters. */
  predicate IsGridText(s: string)
  {
    |s| == 11 && s[3] == '\n' && s[7] == '\n'
    && forall i | 0 <= i < 11 && i != 3 && i != 7 :: IsSquareChar(s[i])
  }

  /** Parsing a canonical grid text and printing the board gives the text back. */
  lemma RenderParse(s: string)
    requires IsGridText(s)
    ensures ScanLines(TextLines(s), 0) == Clean
    ensures ParseBoard(s).Ok? && Render(ParseBoard(s).value) == s
  {
    var rows := [s[0..3], s[4..7], s[8..11]];
    assert s == rows[0] + "\n" + rows[1] + "\n" + rows[2];
    assert IsGridLine(rows[1]) by { assert forall i | 0 <= i < 3 :: rows[1][i] == s[i + 4]; }
    assert IsGridLine(rows[2]) by { assert forall i | 0 <= i < 3 :: rows[2][i] == s[i + 8]; }
    ThreeLines(rows[0], rows[1], rows[2]);
    var b := GridOf(rows);
    forall r | 0 <= r < 3
      ensures RowText(b, r) == rows[r]
    {
      assert forall c | 0 <= c < 3 :: RowText(b, r)[c] == rows[r][c];
    }
    JoinThree(rows[0], rows[1], rows[2]);
  }

  /** The empty board prints as three lines of '_' (src/board/board.rs:398-401). */
  lemma RenderEmptyExample()
    ensures Render(EmptyBoard()) == "___\n___\n___"
  {
    assert RowText(EmptyBoard(), 0) == "___";
    assert RowText(EmptyBoard(), 1) == "___";
    assert RowText(EmptyBoard(), 2) == "___";
    JoinThree("___", "___", "___");
  }

  /** A board text parses and prints back unchanged (src/board/board.rs:403-405). */
  lemma ParseExample()
    ensures ScanLines(TextLines("5__\n__2\n___"), 0) == Clean
    ensures ParseBoard("5__\n__2\n___").Ok?
    ensures Render(ParseBoard("5__\n__2\n___").value) == "5__\n__2\n___"
  {
    var s := "5__\n__2\n___";
    assert s[3] == '\n' && s[7] == '\n';
    assert forall i | 0 <= i < 11 && i != 3 && i != 7 :: IsSquareChar(s[i]);
    RenderParse(s);
  }
}
