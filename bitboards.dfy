/**
  The tic-tac-toe `Bitboard` of src/board/board.rs: a set of cells held as the
  bits of a `u16`. Cell (row, col) of the 3x3 grid is bit (2 - row) * 3 + (2 - col),
  so row 0 column 0 is bit 8 and row 2 column 2 is bit 0.

  The operations are plain bit operations; what each means for the individual
  bits is stated by the lemma that follows it.
*/
module Bitboards {
  import opened Wrappers
  import opened Errors
  import opened Boards

  datatype Bitboard = Bitboard(bits: bv16)

  /** A bit position of the `u16`. */
  type BitIndex = k: bv16 | k < 16

  /** Bit `k` of the board is on. */
  predicate Has(b: Bitboard, k: BitIndex)
  {
    (b.bits >> k) & 1 == 1
  }

  /** The bit that stands for cell (row, col): (2 - row) * 3 + (2 - col). */
  function CellBit(row: nat, col: nat): (k: BitIndex)
    requires row < 3 && col < 3
    ensures k < 9
  {
    if row == 0 then (if col == 0 then 8 else if col == 1 then 7 else 6)
    else if row == 1 then (if col == 0 then 5 else if col == 1 then 4 else 3)
    else (if col == 0 then 2 else if col == 1 then 1 else 0)
  }

  lemma CellBitFormula(row: nat, col: nat)
    requires row < 3 && col < 3
    ensures CellBit(row, col) as int == (2 - row) * 3 + (2 - col)
  {
  }

  /** Distinct cells have distinct bits. */
  lemma CellBitInjective(r1: nat, c1: nat, r2: nat, c2: nat)
    requires r1 < 3 && c1 < 3 && r2 < 3 && c2 < 3
    ensures CellBit(r1, c1) == CellBit(r2, c2) <==> r1 == r2 && c1 == c2
  {
  }

  /** A board with some bit on has a bit index that is on. */
  lemma SomeBitOn(b: Bitboard)
    requires b.bits != 0
    ensures exists j: BitIndex :: Has(b, j)
  {
    if b.bits & 0x1 != 0 {
      assert Has(b, 0);
    } else if b.bits & 0x2 != 0 {
      assert Has(b, 1);
    } else if b.bits & 0x4 != 0 {
      assert Has(b, 2);
    } else if b.bits & 0x8 != 0 {
      assert Has(b, 3);
    } else if b.bits & 0x10 != 0 {
      assert Has(b, 4);
    } else if b.bits & 0x20 != 0 {
      assert Has(b, 5);
    } else if b.bits & 0x40 != 0 {
      assert Has(b, 6);
    } else if b.bits & 0x80 != 0 {
      assert Has(b, 7);
    } else if b.bits & 0x100 != 0 {
      assert Has(b, 8);
    } else if b.bits & 0x200 != 0 {
      assert Has(b, 9);
    } else if b.bits & 0x400 != 0 {
      assert Has(b, 10);
    } else if b.bits & 0x800 != 0 {
      assert Has(b, 11);
    } else if b.bits & 0x1000 != 0 {
      assert Has(b, 12);
    } else if b.bits & 0x2000 != 0 {
      assert Has(b, 13);
    } else if b.bits & 0x4000 != 0 {
      assert Has(b, 14);
    } else {
      assert Has(b, 15);
    }
  }

  lemma XorBit(a: Bitboard, b: Bitboard, k: BitIndex)
    ensures Has(Bitboard(a.bits ^ b.bits), k) <==> Has(a, k) != Has(b, k)
  {
  }

  /** Two boards with the same bits on are the same board. */
  lemma BitsExtensionality(a: Bitboard, b: Bitboard)
    requires forall k: BitIndex :: Has(a, k) <==> Has(b, k)
    ensures a == b
  {
    var x := Bitboard(a.bits ^ b.bits);
    if x.bits != 0 {
      SomeBitOn(x);
      var j: BitIndex :| Has(x, j);
      XorBit(a, b, j);
    }
  }

  // ------------------------------------------------------- constructors

  function Empty(): Bitboard
  {
    Bitboard(0)
  }

  lemma EmptyBit(k: BitIndex)
    ensures !Has(Empty(), k)
  {
  }

  /** `empty` has no bit on. */
  lemma EmptyHasNoBits()
    ensures forall k: BitIndex :: !Has(Empty(), k)
  {
    forall k: BitIndex
      ensures !Has(Empty(), k)
    {
      EmptyBit(k);
    }
  }

  function IsEmpty(b: Bitboard): bool
  {
    b.bits == 0
  }

  /** `is_empty` holds exactly when no bit is on. */
  lemma IsEmptyIffNoBits(b: Bitboard)
    ensures IsEmpty(b) <==> forall k: BitIndex :: !Has(b, k)
  {
    if IsEmpty(b) {
      assert b == Empty();
      EmptyHasNoBits();
    } else {
      SomeBitOn(b);
    }
  }

  function Full(): Bitboard
  {
    Bitboard(0x1FF)
  }

  lemma FullBit(k: BitIndex)
    ensures Has(Full(), k) <==> k < 9
  {
  }

  /** `full` has the nine grid cells on and nothing outside the grid. */
  lemma FullBits()
    ensures forall k: BitIndex :: Has(Full(), k) <==> k < 9
    ensures forall row, col | 0 <= row < 3 && 0 <= col < 3 :: Has(Full(), CellBit(row, col))
  {
    forall k: BitIndex
      ensures Has(Full(), k) <==> k < 9
    {
      FullBit(k);
    }
  }

  // ------------------------------------------------------ set operations

  function Union(a: Bitboard, b: Bitboard): Bitboard
  {
    Bitboard(a.bits | b.bits)
  }

  lemma UnionBit(a: Bitboard, b: Bitboard, k: BitIndex)
    ensures Has(Union(a, b), k) <==> Has(a, k) || Has(b, k)
  {
  }

  /** `union`: a bit is on in the union exactly when it is on in either board. */
  lemma UnionBits(a: Bitboard, b: Bitboard)
    ensures forall k: BitIndex :: Has(Union(a, b), k) <==> Has(a, k) || Has(b, k)
  {
    forall k: BitIndex
      ensures Has(Union(a, b), k) <==> Has(a, k) || Has(b, k)
    {
      UnionBit(a, b, k);
    }
  }

  function Intersection(a: Bitboard, b: Bitboard): Bitboard
  {
    Bitboard(a.bits & b.bits)
  }

  lemma IntersectionBit(a: Bitboard, b: Bitboard, k: BitIndex)
    ensures Has(Intersection(a, b), k) <==> Has(a, k) && Has(b, k)
  {
  }

  /** `intersection`: a bit is on exactly when it is on in both boards. */
  lemma IntersectionBits(a: Bitboard, b: Bitboard)
    ensures forall k: BitIndex :: Has(Intersection(a, b), k) <==> Has(a, k) && Has(b, k)
  {
    forall k: BitIndex
      ensures Has(Intersection(a, b), k) <==> Has(a, k) && Has(b, k)
    {
      IntersectionBit(a, b, k);
    }
  }

  function Difference(a: Bitboard, b: Bitboard): Bitboard
  {
    Bitboard(a.bits & !b.bits)
  }

  lemma DifferenceBit(a: Bitboard, b: Bitboard, k: BitIndex)
    ensures Has(Difference(a, b), k) <==> Has(a, k) && !Has(b, k)
  {
  }

  /** `difference`: a bit is on exactly when it is on in `a` and off in `b`. */
  lemma DifferenceBits(a: Bitboard, b: Bitboard)
    ensures forall k: BitIndex :: Has(Difference(a, b), k) <==> Has(a, k) && !Has(b, k)
  {
    forall k: BitIndex
      ensures Has(Difference(a, b), k) <==> Has(a, k) && !Has(b, k)
    {
      DifferenceBit(a, b, k);
    }
  }

  /** `contains`: the intersection equals `other` (the derived equality compares the `u16`). */
  function Contains(b: Bitboard, other: Bitboard): bool
  {
    Intersection(b, other).bits == other.bits
  }

  /** `contains`: every bit of `other` is a bit of `b`. */
  lemma ContainsIffSubset(b: Bitboard, other: Bitboard)
    ensures Contains(b, other) <==> forall k: BitIndex :: Has(other, k) ==> Has(b, k)
  {
    IntersectionBits(b, other);
    if forall k: BitIndex :: Has(other, k) ==> Has(b, k) {
      BitsExtensionality(Intersection(b, other), other);
    }
  }

  // ------------------------------------------------------------- cells

  /** `set`: turns on the bit of cell (row, col). */
  function Set(b: Bitboard, row: nat, col: nat): Bitboard
    requires row < 3 && col < 3
  {
    WithBit(b, CellBit(row, col))
  }

  /** The board with bit `m` turned on. */
  function WithBit(b: Bitboard, m: BitIndex): Bitboard
  {
    Bitboard(b.bits | (1 << m))
  }

  lemma SetBit(b: Bitboard, m: BitIndex, k: BitIndex)
    ensures Has(WithBit(b, m), k) <==> Has(b, k) || k == m
  {
  }

  /** `set` turns on the bit of its cell and leaves every other bit as it was. */
  lemma SetBits(b: Bitboard, row: nat, col: nat)
    requires row < 3 && col < 3
    ensures forall k: BitIndex :: Has(Set(b, row, col), k) <==> Has(b, k) || k == CellBit(row, col)
  {
    var m := CellBit(row, col);
    forall k: BitIndex
      ensures Has(WithBit(b, m), k) <==> Has(b, k) || k == m
    {
      SetBit(b, m, k);
    }
  }

  /** `is_set`: the bit of cell (row, col) is on. */
  predicate IsSet(b: Bitboard, row: nat, col: nat)
    requires row < 3 && col < 3
  {
    Has(b, CellBit(row, col))
  }

  /** After `set(row, col)`, `is_set` holds for that cell and is unchanged for every other cell. */
  lemma SetThenIsSet(b: Bitboard, row: nat, col: nat, r: nat, c: nat)
    requires row < 3 && col < 3 && r < 3 && c < 3
    ensures IsSet(Set(b, row, col), r, c) <==> IsSet(b, r, c) || (r == row && c == col)
  {
    var m := CellBit(row, col);
    var k := CellBit(r, c);
    CellBitInjective(row, col, r, c);
    SetBit(b, m, k);
  }

  // ------------------------------------------------------------ counting

  /** 1 when bit `k` is on, 0 otherwise. */
  function Bit(b: Bitboard, k: BitIndex): nat
  {
    if Has(b, k) then 1 else 0
  }

  /** The number of bits on among bits base..base+3. */
  function Nibble(b: Bitboard, base: BitIndex): nat
    requires base <= 12
  {
    Bit(b, base) + Bit(b, base + 1) + Bit(b, base + 2) + Bit(b, base + 3)
  }

  /** `n_set`: the number of bits on (`count_ones`), four bits at a time. */
  function NSet(b: Bitboard): (n: nat)
    ensures n <= 16
  {
    Nibble(b, 0) + Nibble(b, 4) + Nibble(b, 8) + Nibble(b, 12)
  }

  /** No bit is on exactly when the count is zero. */
  lemma NSetZeroIffEmpty(b: Bitboard)
    ensures NSet(b) == 0 <==> IsEmpty(b)
  {
    IsEmptyIffNoBits(b);
    if NSet(b) == 0 {
      forall k: BitIndex
        ensures !Has(b, k)
      {
        assert k < 4 || 4 <= k < 8 || 8 <= k < 12 || 12 <= k;
      }
    }
  }

  lemma BitAfterSet(b: Bitboard, m: BitIndex, k: BitIndex)
    ensures Bit(WithBit(b, m), k) == Bit(b, k) + (if k == m && !Has(b, m) then 1 else 0)
  {
  }

  lemma NibbleAfterSet(b: Bitboard, base: BitIndex, m: BitIndex)
    requires base <= 12
    ensures Nibble(WithBit(b, m), base)
      == Nibble(b, base) + (if (m == base || m == base + 1 || m == base + 2 || m == base + 3) && !Has(b, m) then 1 else 0)
  {
    BitAfterSet(b, m, base);
    BitAfterSet(b, m, base + 1);
    BitAfterSet(b, m, base + 2);
    BitAfterSet(b, m, base + 3);
  }

  lemma CountAfterWithBit(b: Bitboard, m: BitIndex)
    ensures NSet(WithBit(b, m)) == NSet(b) + (if Has(b, m) then 0 else 1)
  {
    assert m < 4 || 4 <= m < 8 || 8 <= m < 12 || 12 <= m;
    NibbleAfterSet(b, 0, m);
    NibbleAfterSet(b, 4, m);
    NibbleAfterSet(b, 8, m);
    NibbleAfterSet(b, 12, m);
  }

  /** Setting a cell that is off adds one to the count; setting a cell that is on changes nothing. */
  lemma NSetAfterSet(b: Bitboard, row: nat, col: nat)
    requires row < 3 && col < 3
    ensures NSet(Set(b, row, col)) == NSet(b) + (if IsSet(b, row, col) then 0 else 1)
  {
    CountAfterWithBit(b, CellBit(row, col));
  }

  /** The full board has the nine grid cells on. */
  lemma NSetFull()
    ensures NSet(Full()) == 9
  {
  }

  // ------------------------------------------------------------ victory

  /** The eight lines of the grid: three rows, three columns, two diagonals. */
  function Lines(): (lines: seq<seq<Move>>)
    ensures |lines| == 8
    ensures forall i | 0 <= i < 8 :: |lines[i]| == 3
    ensures forall i, j | 0 <= i < 8 && 0 <= j < |lines[i]| :: lines[i][j].row < 3 && lines[i][j].col < 3
  {
    [[Move(0, 0), Move(0, 1), Move(0, 2)],
     [Move(1, 0), Move(1, 1), Move(1, 2)],
     [Move(2, 0), Move(2, 1), Move(2, 2)],
     [Move(0, 0), Move(1, 0), Move(2, 0)],
     [Move(0, 1), Move(1, 1), Move(2, 1)],
     [Move(0, 2), Move(1, 2), Move(2, 2)],
     [Move(0, 0), Move(1, 1), Move(2, 2)],
     [Move(0, 2), Move(1, 1), Move(2, 0)]]
  }

  /** Every cell of line `i` is set. */
  predicate LineComplete(b: Bitboard, i: nat)
    requires i < 8
  {
    var l := Lines()[i];
    IsSet(b, l[0].row, l[0].col) && IsSet(b, l[1].row, l[1].col) && IsSet(b, l[2].row, l[2].col)
  }

  /** `is_victory`: one of the eight line masks is contained in the board. */
  function IsVictory(b: Bitboard): (v: bool)
    ensures v <==> exists i | 0 <= i < 8 :: LineComplete(b, i)
  {
    VictoryMasks(b);
    Contains(b, Bitboard(0x1C0)) || Contains(b, Bitboard(0x038)) || Contains(b, Bitboard(0x007))
    || Contains(b, Bitboard(0x124)) || Contains(b, Bitboard(0x092)) || Contains(b, Bitboard(0x049))
    || Contains(b, Bitboard(0x111)) || Contains(b, Bitboard(0x054))
  }

  /** `contains` with a literal mask is the bitwise test `b & m == m`. */
  lemma ContainsMask(b: Bitboard, m: bv16)
    ensures Contains(b, Bitboard(m)) <==> b.bits & m == m
  {
    assert Intersection(b, Bitboard(m)).bits == b.bits & m;
  }

  /** The bits each literal mask tests. */
  lemma MaskBitsRows(x: bv16)
    ensures x & 0x1C0 == 0x1C0 <==> (x >> 8) & 1 == 1 && (x >> 7) & 1 == 1 && (x >> 6) & 1 == 1
    ensures x & 0x038 == 0x038 <==> (x >> 5) & 1 == 1 && (x >> 4) & 1 == 1 && (x >> 3) & 1 == 1
    ensures x & 0x007 == 0x007 <==> (x >> 2) & 1 == 1 && (x >> 1) & 1 == 1 && (x >> 0) & 1 == 1
  {
  }

  lemma MaskBitsColumns(x: bv16)
    ensures x & 0x124 == 0x124 <==> (x >> 8) & 1 == 1 && (x >> 5) & 1 == 1 && (x >> 2) & 1 == 1
    ensures x & 0x092 == 0x092 <==> (x >> 7) & 1 == 1 && (x >> 4) & 1 == 1 && (x >> 1) & 1 == 1
    ensures x & 0x049 == 0x049 <==> (x >> 6) & 1 == 1 && (x >> 3) & 1 == 1 && (x >> 0) & 1 == 1
  {
  }

  lemma MaskBitsDiagonals(x: bv16)
    ensures x & 0x111 == 0x111 <==> (x >> 8) & 1 == 1 && (x >> 4) & 1 == 1 && (x >> 0) & 1 == 1
    ensures x & 0x054 == 0x054 <==> (x >> 6) & 1 == 1 && (x >> 4) & 1 == 1 && (x >> 2) & 1 == 1
  {
  }

  /** The bit of each cell. */
  lemma CellBitValues()
    ensures CellBit(0, 0) == 8
    ensures CellBit(0, 1) == 7
    ensures CellBit(0, 2) == 6
    ensures CellBit(1, 0) == 5
    ensures CellBit(1, 1) == 4
    ensures CellBit(1, 2) == 3
    ensures CellBit(2, 0) == 2
    ensures CellBit(2, 1) == 1
    ensures CellBit(2, 2) == 0
  {
  }

  /** Each line's three cells. */
  lemma LineCells(b: Bitboard)
    ensures LineComplete(b, 0) <==> IsSet(b, 0, 0) && IsSet(b, 0, 1) && IsSet(b, 0, 2)
    ensures LineComplete(b, 1) <==> IsSet(b, 1, 0) && IsSet(b, 1, 1) && IsSet(b, 1, 2)
    ensures LineComplete(b, 2) <==> IsSet(b, 2, 0) && IsSet(b, 2, 1) && IsSet(b, 2, 2)
    ensures LineComplete(b, 3) <==> IsSet(b, 0, 0) && IsSet(b, 1, 0) && IsSet(b, 2, 0)
    ensures LineComplete(b, 4) <==> IsSet(b, 0, 1) && IsSet(b, 1, 1) && IsSet(b, 2, 1)
    ensures LineComplete(b, 5) <==> IsSet(b, 0, 2) && IsSet(b, 1, 2) && IsSet(b, 2, 2)
    ensures LineComplete(b, 6) <==> IsSet(b, 0, 0) && IsSet(b, 1, 1) && IsSet(b, 2, 2)
    ensures LineComplete(b, 7) <==> IsSet(b, 0, 2) && IsSet(b, 1, 1) && IsSet(b, 2, 0)
  {
  }

  /** The source's eight literal masks are the masks of the lines, in the order of `Lines`. */
  lemma VictoryMasks(b: Bitboard)
    ensures Contains(b, Bitboard(0x1C0)) <==> LineComplete(b, 0)
    ensures Contains(b, Bitboard(0x038)) <==> LineComplete(b, 1)
    ensures Contains(b, Bitboard(0x007)) <==> LineComplete(b, 2)
    ensures Contains(b, Bitboard(0x124)) <==> LineComplete(b, 3)
    ensures Contains(b, Bitboard(0x092)) <==> LineComplete(b, 4)
    ensures Contains(b, Bitboard(0x049)) <==> LineComplete(b, 5)
    ensures Contains(b, Bitboard(0x111)) <==> LineComplete(b, 6)
    ensures Contains(b, Bitboard(0x054)) <==> LineComplete(b, 7)
  {
    CellBitValues();
    LineCells(b);
    MaskBitsRows(b.bits);
    MaskBitsColumns(b.bits);
    MaskBitsDiagonals(b.bits);
    ContainsMask(b, 0x1C0);
    ContainsMask(b, 0x038);
    ContainsMask(b, 0x007);
    ContainsMask(b, 0x124);
    ContainsMask(b, 0x092);
    ContainsMask(b, 0x049);
    ContainsMask(b, 0x111);
    ContainsMask(b, 0x054);
  }

  // --------------------------------------------------------- from binary

  predicate IsBinaryChar(c: char)
  {
    c == '0' || c == '1'
  }

  /**
    `from_binary`: a text of 9 bytes, each '0' or '1'; character 3 * row + col
    sets cell (row, col) when it is '1'. Errors: the wrong byte length, or the
    first character other than '0' and '1'.
  */
  method FromBinary(binary: string) returns (r: Result<Bitboard, Error>)
    ensures Utf8Length(binary) != 9 ==> r == Err(BinaryLength(Utf8Length(binary)))
    ensures r.Ok? <==> Utf8Length(binary) == 9 && forall m | 0 <= m < |binary| :: IsBinaryChar(binary[m])
    ensures r.Ok? ==> |binary| == 9
    ensures r.Ok? ==> forall row, col | 0 <= row < 3 && 0 <= col < 3 ::
      IsSet(r.value, row, col) <==> binary[3 * row + col] == '1'
    ensures r.Ok? ==> forall k: BitIndex | k >= 9 :: !Has(r.value, k)
    ensures r.Err? && Utf8Length(binary) == 9 ==>
      exists m | 0 <= m < |binary| :: !IsBinaryChar(binary[m]) && r.error == InvalidBinaryCharacter(binary[m])
        && forall l | 0 <= l < m :: IsBinaryChar(binary[l])
  {
    if Utf8Length(binary) != 9 {
      return Err(BinaryLength(Utf8Length(binary)));
    }
    var bitboard := Empty();
    EmptyHasNoBits();
    var i := 0;
    var j := 0;
    var index := 0;
    while index < |binary|
      invariant index <= |binary| <= 9
      invariant index == 3 * i + j && j < 3
      invariant forall l | 0 <= l < index :: IsBinaryChar(binary[l])
      invariant forall row, col | 0 <= row < 3 && 0 <= col < 3 ::
        IsSet(bitboard, row, col) <==> 3 * row + col < index && binary[3 * row + col] == '1'
      invariant forall k: BitIndex | k >= 9 :: !Has(bitboard, k)
    {
      var c := binary[index];
      if c == '0' {
      } else if c == '1' {
        forall row, col | 0 <= row < 3 && 0 <= col < 3 {
          SetThenIsSet(bitboard, i, j, row, col);
        }
        SetBits(bitboard, i, j);
        bitboard := Set(bitboard, i, j);
      } else {
        return Err(InvalidBinaryCharacter(c));
      }
      if j == 2 {
        j := 0;
        i := i + 1;
      } else {
        j := j + 1;
      }
      index := index + 1;
    }
    return Ok(bitboard);
  }
}
