/**
 * Rows of the well and of a placement are 16-bit masks (a C `short`).
 * Bit x stands for column x; column 0 is the right-hand wall of the well.
 */
module Bits {
  type Row = bv16

  /** Row r shifted right by one column, r >> 1. */
  function Half(r: Row): Row
  {
    r >> 1
  }

  /** Row r shifted right by k columns, one column at a time. */
  function Shr(r: Row, k: nat): Row
  {
    if k == 0 then r else Half(Shr(r, k - 1))
  }

  /** Column x (0 <= x < 16) is filled in row r: (r >> x) & 1 is 1. */
  predicate Bit(r: Row, x: int)
  {
    0 <= x < 16 && Shr(r, x) & 1 == 1
  }

  lemma BitOr(a: Row, b: Row, x: int)
    ensures Bit(a | b, x) <==> Bit(a, x) || Bit(b, x)
  {
    if 0 <= x < 16 {
      ShrOr(a, b, x);
    }
  }

  lemma {:induction false} ShrOr(a: Row, b: Row, k: nat)
    ensures Shr(a | b, k) == Shr(a, k) | Shr(b, k)
  {
    if k > 0 {
      ShrOr(a, b, k - 1);
      HalfOr(Shr(a, k - 1), Shr(b, k - 1));
    }
  }

  lemma HalfOr(a: Row, b: Row)
    ensures Half(a | b) == Half(a) | Half(b)
  {
  }

  lemma BitAnd(a: Row, b: Row, x: int)
    ensures Bit(a & b, x) <==> Bit(a, x) && Bit(b, x)
  {
    if 0 <= x < 16 {
      ShrAnd(a, b, x);
    }
  }

  lemma {:induction false} ShrAnd(a: Row, b: Row, k: nat)
    ensures Shr(a & b, k) == Shr(a, k) & Shr(b, k)
  {
    if k > 0 {
      ShrAnd(a, b, k - 1);
      HalfAnd(Shr(a, k - 1), Shr(b, k - 1));
    }
  }

  lemma HalfAnd(a: Row, b: Row)
    ensures Half(a & b) == Half(a) & Half(b)
  {
  }

  lemma BitXor(a: Row, b: Row, x: int)
    ensures Bit(a ^ b, x) <==> (Bit(a, x) != Bit(b, x))
  {
    if 0 <= x < 16 {
      ShrXor(a, b, x);
      XorLow(Shr(a, x), Shr(b, x));
    }
  }

  lemma {:induction false} ShrXor(a: Row, b: Row, k: nat)
    ensures Shr(a ^ b, k) == Shr(a, k) ^ Shr(b, k)
  {
    if k > 0 {
      ShrXor(a, b, k - 1);
      HalfXor(Shr(a, k - 1), Shr(b, k - 1));
    }
  }

  lemma HalfXor(a: Row, b: Row)
    ensures Half(a ^ b) == Half(a) ^ Half(b)
  {
  }

  lemma XorLow(a: Row, b: Row)
    ensures (a ^ b) & 1 == 1 <==> (a & 1 == 1) != (b & 1 == 1)
  {
  }

  /** Two rows with the same filled columns are the same row. */
  lemma RowsEqual(a: Row, b: Row)
    requires forall x :: 0 <= x < 16 ==> (Bit(a, x) <==> Bit(b, x))
    ensures a == b
  {
    var d := a ^ b;
    forall j | 0 <= j < 16
      ensures !Bit(d, j)
    {
      BitXor(a, b, j);
    }
    AllBitsClear(d);
    XorZero(a, b);
  }

  lemma XorZero(a: Row, b: Row)
    requires a ^ b == 0
    ensures a == b
  {
  }

  /**
   * Column number x as a shift amount, x as a 16-bit value. Written as a table rather than
   * `x as bv16` so that the solver reasons about literals instead of an int-to-bitvector
   * conversion; ColNext, ColInjective and ColOrder say what it means.
   */
  function Col(x: int): (c: bv16)
    requires 0 <= x < 16
    ensures c < 16
  {
    if x < 8 then
      if x < 4 then
        if x < 2 then (if x == 0 then 0 else 1) else (if x == 2 then 2 else 3)
      else
        if x < 6 then (if x == 4 then 4 else 5) else (if x == 6 then 6 else 7)
    else
      if x < 12 then
        if x < 10 then (if x == 8 then 8 else 9) else (if x == 10 then 10 else 11)
      else
        if x < 14 then (if x == 12 then 12 else 13) else (if x == 14 then 14 else 15)
  }

  lemma ColNext(x: int)
    requires 0 <= x < 15
    ensures Col(x + 1) == Col(x) + 1
  {
  }

  lemma ColInjective(x: int, y: int)
    requires 0 <= x < 16 && 0 <= y < 16
    ensures Col(x) == Col(y) <==> x == y
  {
  }

  lemma ColOrder(x: int, y: int)
    requires 0 <= x < 16 && 0 <= y < 16
    ensures Col(x) < Col(y) <==> x < y
  {
  }

  /** Shifting one column at a time k times is the C shift by k. */
  lemma {:induction false} ShrIsShift(r: Row, k: nat)
    requires k < 16
    ensures Shr(r, k) == r >> Col(k)
  {
    if k > 0 {
      ShrIsShift(r, k - 1);
      ColNext(k - 1);
      HalfShift(r, Col(k - 1));
    }
  }

  lemma HalfShift(r: Row, c: bv16)
    requires c < 15
    ensures Half(r >> c) == r >> (c + 1)
  {
    ShiftStep(r, c);
  }

  lemma ShiftStep(r: Row, c: bv16)
    requires c < 15
    ensures (r >> c) >> 1 == r >> (c + 1)
  {
  }

  /** Bit is the C test (r >> x) & 1. */
  lemma BitShift(r: Row, x: int)
    requires 0 <= x < 16
    ensures Bit(r, x) <==> (r >> Col(x)) & 1 == 1
  {
    ShrIsShift(r, x);
  }

  /** The row with only column j filled, 1 << j. */
  function Single(j: int): (r: Row)
    requires 0 <= j < 16
    ensures forall x :: Bit(r, x) <==> x == j
  {
    var r := (1 as bv16) << Col(j);
    forall x
      ensures Bit(r, x) <==> x == j
    {
      BitSingle(j, x);
    }
    r
  }

  lemma BitSingle(j: int, x: int)
    requires 0 <= j < 16
    ensures Bit((1 as bv16) << Col(j), x) <==> x == j
  {
    if 0 <= x < 16 {
      BitShift((1 as bv16) << Col(j), x);
      ColInjective(j, x);
      SingleAt(Col(j), Col(x));
    }
  }

  lemma SingleAt(j: bv16, x: bv16)
    requires j < 16 && x < 16
    ensures (((1 as bv16) << j) >> x) & 1 == 1 <==> x == j
  {
  }

  /** The lowest column of r shifted right by k is column k of r (none once k reaches 16). */
  lemma ShrLow(r: Row, k: nat, b: Row)
    requires k <= 16 && b == Shr(r, k)
    ensures b & 1 == 1 <==> k < 16 && Bit(r, k)
  {
    if k == 16 {
      ShrIsShift(r, 15);
      assert Col(15) == 15;
      HalfShift(r, 14);
      assert Half(r >> 15) == 0;
    }
  }

  /** A non-empty row has a filled column, and the empty row has none. */
  lemma NonZeroHasBit(r: Row) returns (x: int)
    requires r != 0
    ensures Bit(r, x)
  {
    x := 0;
    while x < 15 && !Bit(r, x)
      invariant 0 <= x <= 15
      invariant forall j :: 0 <= j < x ==> !Bit(r, j)
    {
      x := x + 1;
    }
    if !Bit(r, x) {
      assert forall j :: 0 <= j < 16 ==> !Bit(r, j);
      AllBitsClear(r);
    }
  }

  lemma AllBitsClear(r: Row)
    requires forall j :: 0 <= j < 16 ==> !Bit(r, j)
    ensures r == 0
  {
    BitShift(r, 0); BitShift(r, 1); BitShift(r, 2); BitShift(r, 3);
    BitShift(r, 4); BitShift(r, 5); BitShift(r, 6); BitShift(r, 7);
    BitShift(r, 8); BitShift(r, 9); BitShift(r, 10); BitShift(r, 11);
    BitShift(r, 12); BitShift(r, 13); BitShift(r, 14); BitShift(r, 15);
    ClearColumns(r);
  }

  lemma ClearColumns(r: Row)
    requires r & 1 == 0 && (r >> 1) & 1 == 0 && (r >> 2) & 1 == 0 && (r >> 3) & 1 == 0
    requires (r >> 4) & 1 == 0 && (r >> 5) & 1 == 0 && (r >> 6) & 1 == 0 && (r >> 7) & 1 == 0
    requires (r >> 8) & 1 == 0 && (r >> 9) & 1 == 0 && (r >> 10) & 1 == 0 && (r >> 11) & 1 == 0
    requires (r >> 12) & 1 == 0 && (r >> 13) & 1 == 0 && (r >> 14) & 1 == 0 && (r >> 15) & 1 == 0
    ensures r == 0
  {
  }

  lemma ZeroHasNoBit(x: int)
    ensures !Bit(0, x)
  {
    if 0 <= x < 16 {
      BitShift(0, x);
    }
  }
}
