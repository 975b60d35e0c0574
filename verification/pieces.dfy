/**
 * The piece catalogue: the seven tetrominoes of the Original (Nintendo) Rotation System,
 * right-handed, with a raised horizontal I and no wall or floor kicks. Each orientation
 * is a 4x4 box given as four row masks, top row first; bit 0 is the box's right-hand column.
 */
module Pieces {
  import opened Bits
  import opened Core

  const OMasks: seq<seq<Row>> := [[0, 6, 6, 0]]
  const IMasks: seq<seq<Row>> := [[0, 15, 0, 0], [2, 2, 2, 2]]
  const JMasks: seq<seq<Row>> := [[8, 14, 0, 0], [6, 4, 4, 0], [0, 14, 2, 0], [4, 4, 12, 0]]
  const LMasks: seq<seq<Row>> := [[1, 7, 0, 0], [2, 2, 3, 0], [0, 7, 4, 0], [6, 2, 2, 0]]
  const SMasks: seq<seq<Row>> := [[0, 3, 6, 0], [2, 3, 1, 0]]
  const TMasks: seq<seq<Row>> := [[2, 7, 0, 0], [2, 3, 2, 0], [0, 7, 2, 0], [2, 6, 2, 0]]
  const ZMasks: seq<seq<Row>> := [[0, 6, 3, 0], [1, 3, 2, 0]]

  /** Per-piece attributes that never change; numStates lives with the builder. */
  datatype Piece = Piece(letter: char, spawnXPos: int, spawnYPos: int, masks: seq<seq<Row>>)

  /**
   * The pieces in search order (worst first, O first because it has fewest placements).
   * The spawn column depends on whether the well's width is odd.
   */
  function Catalog(c: Config): (ps: seq<Piece>)
    ensures |ps| == NumPieces
    ensures forall p :: 0 <= p < NumPieces ==> ps[p].masks == Shapes(p)
  {
    var odd := c.width % 2 == 1;
    [ Piece('o', if odd then 1 else 0, c.spareLines - 3, OMasks),
      Piece('i', if odd then 1 else 0, c.spareLines - 3, IMasks),
      Piece('j', 0, c.spareLines - 2, JMasks),
      Piece('l', 1, c.spareLines - 2, LMasks),
      Piece('s', 1, c.spareLines - 3, SMasks),
      Piece('t', 1, c.spareLines - 2, TMasks),
      Piece('z', 1, c.spareLines - 3, ZMasks) ]
  }

  /** The orientation masks of piece p. */
  function Shapes(p: nat): (ms: seq<seq<Row>>)
    requires p < NumPieces
    ensures 1 <= |ms| <= 4
    ensures forall o :: 0 <= o < |ms| ==> |ms[o]| == BoxSize
  {
    [OMasks, IMasks, JMasks, LMasks, SMasks, TMasks, ZMasks][p]
  }

  function NumOrientations(p: nat): (n: nat)
    requires p < NumPieces
    ensures 1 <= n <= 4
  {
    |Shapes(p)|
  }

  /**
   * What the constructor measures of one orientation: the empty columns to the right of the
   * piece and the empty rows above it inside its box, and the piece's width and height.
   */
  datatype Box = Box(xOffset: int, yOffset: int, xDim: int, yDim: int)

  /** The measurements of each orientation of piece p, in the order of Shapes(p). */
  function Boxes(p: nat): (bs: seq<Box>)
    requires p < NumPieces
    ensures |bs| == NumOrientations(p)
  {
    [ [Box(1, 1, 2, 2)],
      [Box(0, 1, 4, 1), Box(1, 0, 1, 4)],
      [Box(1, 0, 3, 2), Box(1, 0, 2, 3), Box(1, 1, 3, 2), Box(2, 0, 2, 3)],
      [Box(0, 0, 3, 2), Box(0, 0, 2, 3), Box(0, 1, 3, 2), Box(1, 0, 2, 3)],
      [Box(0, 1, 3, 2), Box(0, 0, 2, 3)],
      [Box(0, 0, 3, 2), Box(0, 0, 2, 3), Box(0, 1, 3, 2), Box(1, 0, 2, 3)],
      [Box(0, 1, 3, 2), Box(0, 0, 2, 3)] ][p]
  }

  /** The table entry of orientation o of piece p is what the measuring functions give. */
  predicate Measured(p: nat, o: nat)
    requires p < NumPieces && o < NumOrientations(p)
  {
    var m := Shapes(p)[o];
    Boxes(p)[o] == Box(XOffset(m), YOffset(m), XDim(m), YDim(m))
  }

  /** Index of the first non-zero row at or after i, or |m| if there is none. */
  function FirstNonZero(m: seq<Row>, i: nat): (r: nat)
    requires i <= |m|
    ensures i <= r <= |m|
    ensures forall j :: i <= j < r ==> m[j] == 0
    ensures r < |m| ==> m[r] != 0
    decreases |m| - i
  {
    if i < |m| && m[i] == 0 then FirstNonZero(m, i + 1) else i
  }

  /** Number of consecutive non-zero rows starting at row i. */
  function NonZeroRun(m: seq<Row>, i: nat): (n: nat)
    requires i <= |m|
    ensures i + n <= |m|
    ensures forall j :: i <= j < i + n ==> m[j] != 0
    ensures i + n < |m| ==> m[i + n] == 0
    decreases |m| - i
  {
    if i < |m| && m[i] != 0 then 1 + NonZeroRun(m, i + 1) else 0
  }

  /** The OR of rows lo .. hi-1: every column the piece uses in those rows. */
  function OrRows(m: seq<Row>, lo: nat, hi: nat): (r: Row)
    requires lo <= hi <= |m|
    ensures forall x :: Bit(r, x) <==> exists j :: lo <= j < hi && Bit(m[j], x)
    decreases hi
  {
    if lo == hi then
      ZeroHasNoBitAll();
      0
    else
      var rest := OrRows(m, lo, hi - 1);
      var r := rest | m[hi - 1];
      OrRowsStep(m, lo, hi, rest, r);
      r
  }

  lemma OrRowsStep(m: seq<Row>, lo: nat, hi: nat, rest: Row, r: Row)
    requires lo < hi <= |m| && r == rest | m[hi - 1]
    requires forall x :: Bit(rest, x) <==> exists j :: lo <= j < hi - 1 && Bit(m[j], x)
    ensures forall x :: Bit(r, x) <==> exists j :: lo <= j < hi && Bit(m[j], x)
  {
    forall x
      ensures Bit(r, x) <==> exists j :: lo <= j < hi && Bit(m[j], x)
    {
      OrRowsBit(m, lo, hi, rest, r, x);
    }
  }

  lemma OrRowsBit(m: seq<Row>, lo: nat, hi: nat, rest: Row, r: Row, x: int)
    requires lo < hi <= |m| && r == rest | m[hi - 1]
    requires Bit(rest, x) <==> exists j :: lo <= j < hi - 1 && Bit(m[j], x)
    ensures Bit(r, x) <==> exists j :: lo <= j < hi && Bit(m[j], x)
  {
    BitOr(rest, m[hi - 1], x);
    if Bit(m[hi - 1], x) {
      assert lo <= hi - 1 < hi && Bit(m[hi - 1], x);
    } else if Bit(rest, x) {
      var j :| lo <= j < hi - 1 && Bit(m[j], x);
      assert lo <= j < hi && Bit(m[j], x);
    }
  }

  lemma ZeroHasNoBitAll()
    ensures forall x :: !Bit(0, x)
  {
    forall x
      ensures !Bit(0, x)
    {
      ZeroHasNoBit(x);
    }
  }

  /** First filled column at or after column k (16 if none). */
  function LowZeros(v: Row, k: int): (r: int)
    requires 0 <= k <= 16
    ensures k <= r <= 16
    ensures forall j :: k <= j < r ==> !Bit(v, j)
    ensures r < 16 ==> Bit(v, r)
    decreases 16 - k
  {
    if k < 16 && !Bit(v, k) then LowZeros(v, k + 1) else k
  }

  /** Number of consecutive filled columns starting at column k. */
  function OnesRun(v: Row, k: int): (n: int)
    requires 0 <= k <= 16
    ensures 0 <= n && k + n <= 16
    ensures forall j :: k <= j < k + n ==> Bit(v, j)
    ensures k + n < 16 ==> !Bit(v, k + n)
    decreases 16 - k
  {
    if k < 16 && Bit(v, k) then 1 + OnesRun(v, k + 1) else 0
  }

  /** Rows i .. |m|-1 are all empty. */
  predicate ZerosFrom(m: seq<Row>, i: nat)
    decreases |m| - i
  {
    i >= |m| || (m[i] == 0 && ZerosFrom(m, i + 1))
  }

  lemma {:induction false} ZerosFromAll(m: seq<Row>, i: nat, j: nat)
    requires ZerosFrom(m, i) && i <= j < |m|
    ensures m[j] == 0
    decreases j - i
  {
    if i < j {
      ZerosFromAll(m, i + 1, j);
    }
  }

  /** Rows above the piece inside its box: the constructor's yOffset. */
  function YOffset(m: seq<Row>): nat
  {
    FirstNonZero(m, 0)
  }

  /** Height of the piece: the constructor's yDim. */
  function YDim(m: seq<Row>): nat
  {
    NonZeroRun(m, YOffset(m))
  }

  /** Every column the piece uses: the constructor's allMask. */
  function AllMask(m: seq<Row>): Row
  {
    OrRows(m, YOffset(m), YOffset(m) + YDim(m))
  }

  /** Columns to the right of the piece inside its box: the constructor's xOffset. */
  function XOffset(m: seq<Row>): int
  {
    LowZeros(AllMask(m), 0)
  }

  /** Width of the piece: the constructor's xDim. */
  function XDim(m: seq<Row>): int
  {
    OnesRun(AllMask(m), XOffset(m))
  }

  /**
   * An orientation that fits its box, has no empty row between two filled ones, and has a
   * filled cell in its top row at a column inside [xOffset, xOffset + xDim): the shape facts
   * the placement graph relies on.
   */
  predicate Solid(m: seq<Row>)
  {
    YOffset(m) < |m| && YDim(m) >= 1 && XOffset(m) + XDim(m) <= BoxSize &&
    ZerosFrom(m, YOffset(m) + YDim(m)) &&
    var b := LowZeros(m[YOffset(m)], 0);
    XOffset(m) <= b < XOffset(m) + XDim(m)
  }

  /** Every orientation in the catalogue is solid. */
  lemma CatalogSolid(p: nat, o: nat)
    requires p < NumPieces && o < NumOrientations(p)
    ensures Solid(Shapes(p)[o]) && Measured(p, o)
  {
    if p == 0 {
      OSolid(o);
    } else if p == 1 {
      ISolid(o);
    } else if p == 2 {
      JSolid(o);
    } else if p == 3 {
      LSolid(o);
    } else if p == 4 {
      SSolid(o);
    } else if p == 5 {
      TSolid(o);
    } else {
      ZSolid(o);
    }
  }

  /** The measurement table agrees with the measuring functions. */
  lemma BoxesMeasured(p: nat, o: nat)
    requires p < NumPieces && o < NumOrientations(p)
    ensures Measured(p, o)
  {
    CatalogSolid(p, o);
  }

  /**
   * Piece p's spawn box, shifted by the centring margin, lies inside the well's columns, and
   * its top row is two rows above the visible field.
   */
  predicate SpawnFit(c: Config, p: nat)
    requires p < NumPieces
  {
    var pc := Catalog(c)[p];
    var b := Boxes(p)[0];
    0 <= pc.spawnXPos + b.xOffset &&
    pc.spawnXPos + b.xOffset + b.xDim + 2 * Margin(c) <= c.width &&
    pc.spawnYPos + b.yOffset == c.spareLines - 2 &&
    1 <= b.yDim <= 2
  }

  /** Every piece fits at its spawn position. */
  lemma SpawnFits(c: Config, p: nat)
    requires ValidConfig(c) && p < NumPieces
    ensures SpawnFit(c, p)
  {
    if p == 0 {
      OSpawnFit(c, p);
    } else if p == 1 {
      ISpawnFit(c, p);
    } else if p == 2 {
      JSpawnFit(c, p);
    } else if p == 3 {
      LSpawnFit(c, p);
    } else if p == 4 {
      SSpawnFit(c, p);
    } else if p == 5 {
      TSpawnFit(c, p);
    } else {
      ZSpawnFit(c, p);
    }
  }

  lemma OSpawnFit(c: Config, p: nat)
    requires ValidConfig(c) && p == 0
    ensures SpawnFit(c, p)
  {
    var pc := Catalog(c)[p];
    assert pc.spawnYPos == c.spareLines - 3;
    if c.width % 2 == 1 {
      assert pc.spawnXPos == 1 && 2 * Margin(c) == c.width - 5;
    } else {
      assert pc.spawnXPos == 0 && 2 * Margin(c) == c.width - 4;
    }
  }

  lemma ISpawnFit(c: Config, p: nat)
    requires ValidConfig(c) && p == 1
    ensures SpawnFit(c, p)
  {
    var pc := Catalog(c)[p];
    assert pc.spawnYPos == c.spareLines - 3;
    if c.width % 2 == 1 {
      assert pc.spawnXPos == 1 && 2 * Margin(c) == c.width - 5;
    } else {
      assert pc.spawnXPos == 0 && 2 * Margin(c) == c.width - 4;
    }
  }

  lemma JSpawnFit(c: Config, p: nat)
    requires ValidConfig(c) && p == 2
    ensures SpawnFit(c, p)
  {
    var pc := Catalog(c)[p];
    assert pc.spawnXPos == 0 && pc.spawnYPos == c.spareLines - 2;
  }

  lemma LSpawnFit(c: Config, p: nat)
    requires ValidConfig(c) && p == 3
    ensures SpawnFit(c, p)
  {
    var pc := Catalog(c)[p];
    assert pc.spawnXPos == 1 && pc.spawnYPos == c.spareLines - 2;
  }

  lemma SSpawnFit(c: Config, p: nat)
    requires ValidConfig(c) && p == 4
    ensures SpawnFit(c, p)
  {
    var pc := Catalog(c)[p];
    assert pc.spawnXPos == 1 && pc.spawnYPos == c.spareLines - 3;
  }

  lemma TSpawnFit(c: Config, p: nat)
    requires ValidConfig(c) && p == 5
    ensures SpawnFit(c, p)
  {
    var pc := Catalog(c)[p];
    assert pc.spawnXPos == 1 && pc.spawnYPos == c.spareLines - 2;
  }

  lemma ZSpawnFit(c: Config, p: nat)
    requires ValidConfig(c) && p == 6
    ensures SpawnFit(c, p)
  {
    var pc := Catalog(c)[p];
    assert pc.spawnXPos == 1 && pc.spawnYPos == c.spareLines - 3;
  }

  lemma OSolid(o: nat)
    requires o < |OMasks|
    ensures Solid(Shapes(0)[o]) && Measured(0, o)
  {
    OSolid0(o);
  }

  lemma ISolid(o: nat)
    requires o < |IMasks|
    ensures Solid(Shapes(1)[o]) && Measured(1, o)
  {
    if o == 0 { ISolid0(o); }
    else { ISolid1(o); }
  }

  lemma JSolid(o: nat)
    requires o < |JMasks|
    ensures Solid(Shapes(2)[o]) && Measured(2, o)
  {
    if o == 0 { JSolid0(o); }
    else if o == 1 { JSolid1(o); }
    else if o == 2 { JSolid2(o); }
    else { JSolid3(o); }
  }

  lemma LSolid(o: nat)
    requires o < |LMasks|
    ensures Solid(Shapes(3)[o]) && Measured(3, o)
  {
    if o == 0 { LSolid0(o); }
    else if o == 1 { LSolid1(o); }
    else if o == 2 { LSolid2(o); }
    else { LSolid3(o); }
  }

  lemma SSolid(o: nat)
    requires o < |SMasks|
    ensures Solid(Shapes(4)[o]) && Measured(4, o)
  {
    if o == 0 { SSolid0(o); }
    else { SSolid1(o); }
  }

  lemma TSolid(o: nat)
    requires o < |TMasks|
    ensures Solid(Shapes(5)[o]) && Measured(5, o)
  {
    if o == 0 { TSolid0(o); }
    else if o == 1 { TSolid1(o); }
    else if o == 2 { TSolid2(o); }
    else { TSolid3(o); }
  }

  lemma ZSolid(o: nat)
    requires o < |ZMasks|
    ensures Solid(Shapes(6)[o]) && Measured(6, o)
  {
    if o == 0 { ZSolid0(o); }
    else { ZSolid1(o); }
  }

  lemma OSolid0(o: nat)
    requires o == 0
    ensures Solid(Shapes(0)[o]) && Measured(0, o)
  {
    assert Shapes(0)[o] == OMasks[0];
    assert YOffset(OMasks[0]) == 1 && YDim(OMasks[0]) == 2 && AllMask(OMasks[0]) == 6;
    assert XOffset(OMasks[0]) == 1 && XDim(OMasks[0]) == 2 && LowZeros(OMasks[0][1], 0) == 1;
  }

  lemma ISolid0(o: nat)
    requires o == 0
    ensures Solid(Shapes(1)[o]) && Measured(1, o)
  {
    assert Shapes(1)[o] == IMasks[0];
    assert YOffset(IMasks[0]) == 1 && YDim(IMasks[0]) == 1 && AllMask(IMasks[0]) == 15;
    assert XOffset(IMasks[0]) == 0 && XDim(IMasks[0]) == 4 && LowZeros(IMasks[0][1], 0) == 0;
  }

  lemma ISolid1(o: nat)
    requires o == 1
    ensures Solid(Shapes(1)[o]) && Measured(1, o)
  {
    assert Shapes(1)[o] == IMasks[1];
    assert YOffset(IMasks[1]) == 0 && YDim(IMasks[1]) == 4 && AllMask(IMasks[1]) == 2;
    assert XOffset(IMasks[1]) == 1 && XDim(IMasks[1]) == 1 && LowZeros(IMasks[1][0], 0) == 1;
  }

  lemma JSolid0(o: nat)
    requires o == 0
    ensures Solid(Shapes(2)[o]) && Measured(2, o)
  {
    assert Shapes(2)[o] == JMasks[0];
    assert YOffset(JMasks[0]) == 0 && YDim(JMasks[0]) == 2 && AllMask(JMasks[0]) == 14;
    assert XOffset(JMasks[0]) == 1 && XDim(JMasks[0]) == 3 && LowZeros(JMasks[0][0], 0) == 3;
  }

  lemma JSolid1(o: nat)
    requires o == 1
    ensures Solid(Shapes(2)[o]) && Measured(2, o)
  {
    assert Shapes(2)[o] == JMasks[1];
    assert YOffset(JMasks[1]) == 0 && YDim(JMasks[1]) == 3 && AllMask(JMasks[1]) == 6;
    assert XOffset(JMasks[1]) == 1 && XDim(JMasks[1]) == 2 && LowZeros(JMasks[1][0], 0) == 1;
  }

  lemma JSolid2(o: nat)
    requires o == 2
    ensures Solid(Shapes(2)[o]) && Measured(2, o)
  {
    assert Shapes(2)[o] == JMasks[2];
    assert YOffset(JMasks[2]) == 1 && YDim(JMasks[2]) == 2 && AllMask(JMasks[2]) == 14;
    assert XOffset(JMasks[2]) == 1 && XDim(JMasks[2]) == 3 && LowZeros(JMasks[2][1], 0) == 1;
  }

  lemma JSolid3(o: nat)
    requires o == 3
    ensures Solid(Shapes(2)[o]) && Measured(2, o)
  {
    assert Shapes(2)[o] == JMasks[3];
    assert YOffset(JMasks[3]) == 0 && YDim(JMasks[3]) == 3 && AllMask(JMasks[3]) == 12;
    assert XOffset(JMasks[3]) == 2 && XDim(JMasks[3]) == 2 && LowZeros(JMasks[3][0], 0) == 2;
  }

  lemma LSolid0(o: nat)
    requires o == 0
    ensures Solid(Shapes(3)[o]) && Measured(3, o)
  {
    assert Shapes(3)[o] == LMasks[0];
    assert YOffset(LMasks[0]) == 0 && YDim(LMasks[0]) == 2 && AllMask(LMasks[0]) == 7;
    assert XOffset(LMasks[0]) == 0 && XDim(LMasks[0]) == 3 && LowZeros(LMasks[0][0], 0) == 0;
  }

  lemma LSolid1(o: nat)
    requires o == 1
    ensures Solid(Shapes(3)[o]) && Measured(3, o)
  {
    assert Shapes(3)[o] == LMasks[1];
    assert YOffset(LMasks[1]) == 0 && YDim(LMasks[1]) == 3 && AllMask(LMasks[1]) == 3;
    assert XOffset(LMasks[1]) == 0 && XDim(LMasks[1]) == 2 && LowZeros(LMasks[1][0], 0) == 1;
  }

  lemma LSolid2(o: nat)
    requires o == 2
    ensures Solid(Shapes(3)[o]) && Measured(3, o)
  {
    assert Shapes(3)[o] == LMasks[2];
    assert YOffset(LMasks[2]) == 1 && YDim(LMasks[2]) == 2 && AllMask(LMasks[2]) == 7;
    assert XOffset(LMasks[2]) == 0 && XDim(LMasks[2]) == 3 && LowZeros(LMasks[2][1], 0) == 0;
  }

  lemma LSolid3(o: nat)
    requires o == 3
    ensures Solid(Shapes(3)[o]) && Measured(3, o)
  {
    assert Shapes(3)[o] == LMasks[3];
    assert YOffset(LMasks[3]) == 0 && YDim(LMasks[3]) == 3 && AllMask(LMasks[3]) == 6;
    assert XOffset(LMasks[3]) == 1 && XDim(LMasks[3]) == 2 && LowZeros(LMasks[3][0], 0) == 1;
  }

  lemma SSolid0(o: nat)
    requires o == 0
    ensures Solid(Shapes(4)[o]) && Measured(4, o)
  {
    assert Shapes(4)[o] == SMasks[0];
    assert YOffset(SMasks[0]) == 1 && YDim(SMasks[0]) == 2 && AllMask(SMasks[0]) == 7;
    assert XOffset(SMasks[0]) == 0 && XDim(SMasks[0]) == 3 && LowZeros(SMasks[0][1], 0) == 0;
  }

  lemma SSolid1(o: nat)
    requires o == 1
    ensures Solid(Shapes(4)[o]) && Measured(4, o)
  {
    assert Shapes(4)[o] == SMasks[1];
    assert YOffset(SMasks[1]) == 0 && YDim(SMasks[1]) == 3 && AllMask(SMasks[1]) == 3;
    assert XOffset(SMasks[1]) == 0 && XDim(SMasks[1]) == 2 && LowZeros(SMasks[1][0], 0) == 1;
  }

  lemma TSolid0(o: nat)
    requires o == 0
    ensures Solid(Shapes(5)[o]) && Measured(5, o)
  {
    assert Shapes(5)[o] == TMasks[0];
    assert YOffset(TMasks[0]) == 0 && YDim(TMasks[0]) == 2 && AllMask(TMasks[0]) == 7;
    assert XOffset(TMasks[0]) == 0 && XDim(TMasks[0]) == 3 && LowZeros(TMasks[0][0], 0) == 1;
  }

  lemma TSolid1(o: nat)
    requires o == 1
    ensures Solid(Shapes(5)[o]) && Measured(5, o)
  {
    assert Shapes(5)[o] == TMasks[1];
    assert YOffset(TMasks[1]) == 0 && YDim(TMasks[1]) == 3 && AllMask(TMasks[1]) == 3;
    assert XOffset(TMasks[1]) == 0 && XDim(TMasks[1]) == 2 && LowZeros(TMasks[1][0], 0) == 1;
  }

  lemma TSolid2(o: nat)
    requires o == 2
    ensures Solid(Shapes(5)[o]) && Measured(5, o)
  {
    assert Shapes(5)[o] == TMasks[2];
    assert YOffset(TMasks[2]) == 1 && YDim(TMasks[2]) == 2 && AllMask(TMasks[2]) == 7;
    assert XOffset(TMasks[2]) == 0 && XDim(TMasks[2]) == 3 && LowZeros(TMasks[2][1], 0) == 0;
  }

  lemma TSolid3(o: nat)
    requires o == 3
    ensures Solid(Shapes(5)[o]) && Measured(5, o)
  {
    assert Shapes(5)[o] == TMasks[3];
    assert YOffset(TMasks[3]) == 0 && YDim(TMasks[3]) == 3 && AllMask(TMasks[3]) == 6;
    assert XOffset(TMasks[3]) == 1 && XDim(TMasks[3]) == 2 && LowZeros(TMasks[3][0], 0) == 1;
  }

  lemma ZSolid0(o: nat)
    requires o == 0
    ensures Solid(Shapes(6)[o]) && Measured(6, o)
  {
    assert Shapes(6)[o] == ZMasks[0];
    assert YOffset(ZMasks[0]) == 1 && YDim(ZMasks[0]) == 2 && AllMask(ZMasks[0]) == 7;
    assert XOffset(ZMasks[0]) == 0 && XDim(ZMasks[0]) == 3 && LowZeros(ZMasks[0][1], 0) == 1;
  }

  lemma ZSolid1(o: nat)
    requires o == 1
    ensures Solid(Shapes(6)[o]) && Measured(6, o)
  {
    assert Shapes(6)[o] == ZMasks[1];
    assert YOffset(ZMasks[1]) == 0 && YDim(ZMasks[1]) == 3 && AllMask(ZMasks[1]) == 3;
    assert XOffset(ZMasks[1]) == 0 && XDim(ZMasks[1]) == 2 && LowZeros(ZMasks[1][0], 0) == 0;
  }
}
