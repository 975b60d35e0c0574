/**
 * One placement of a piece in the well: the record the builder's constructor derives from a
 * piece id, an orientation id and the box position (xPos, yPos), and the four key transitions
 * rotate, left, right and down. Columns count from the right: bit x of a row is column x, so
 * moving right decrements xPos. Rows count from the top.
 */
module Placement {
  import opened Bits
  import opened Core
  import opened Pieces
  import opened Options

  /**
   * A placement. nextPtrs holds the index of the node each key leads to, in the same piece's
   * list, or None before the builder fills it in; i is the node's index in that list.
   */
  datatype State = State(
    pieceId: int, orientationId: int, xPos: int, yPos: int,
    xOffset: int, yOffset: int, xDim: int, yDim: int,
    yTop: int, yBottom: int, grid: seq<Row>,
    nextPtrs: seq<Option<nat>>,
    outOfBounds: bool, overlapsSpawn: bool, i: int)

  /**
   * What the constructor reads from the builder's lists besides its four arguments: the grids
   * of the spawn placements, whether the piece's own list is still empty, and the piece's
   * current node count.
   */
  datatype Env = Env(spawns: seq<seq<Row>>, listEmpty: bool, numStates: int)

  const NoPtrs: seq<Option<nat>> := [None, None, None, None]

  predicate ValidShape(p: int, o: int)
  {
    0 <= p < NumPieces && 0 <= o < NumOrientations(p)
  }

  /** Cell (x, y) of the well is covered by mask m with its box at (xPos, yPos). */
  predicate Cell(m: seq<Row>, xPos: int, yPos: int, y: int, x: int)
    requires |m| == BoxSize
  {
    yPos <= y < yPos + BoxSize && xPos <= x < xPos + BoxSize && Bit(m[y - yPos], x - xPos)
  }

  /** Row y of the grid, restricted to columns 0 .. n-1, built one column at a time. */
  function RowBits(m: seq<Row>, xPos: int, yPos: int, y: int, n: nat): Row
    requires |m| == BoxSize && n <= 16
  {
    if n == 0 then 0
    else RowBits(m, xPos, yPos, y, n - 1) | (if Cell(m, xPos, yPos, y, n - 1) then Single(n - 1) else 0)
  }

  /** Column x of that row is filled exactly when x < n and (x, y) is a cell of the piece. */
  lemma {:induction false} RowBitsCells(m: seq<Row>, xPos: int, yPos: int, y: int, n: nat)
    requires |m| == BoxSize && n <= 16
    ensures forall x :: Bit(RowBits(m, xPos, yPos, y, n), x) <==> 0 <= x < n && Cell(m, xPos, yPos, y, x)
  {
    if n == 0 {
      ZeroHasNoBitAll();
    } else {
      RowBitsCells(m, xPos, yPos, y, n - 1);
      RowBitsStep(m, xPos, yPos, y, n);
    }
  }

  lemma RowBitsStep(m: seq<Row>, xPos: int, yPos: int, y: int, n: nat)
    requires |m| == BoxSize && 0 < n <= 16
    requires forall x :: Bit(RowBits(m, xPos, yPos, y, n - 1), x) <==> 0 <= x < n - 1 && Cell(m, xPos, yPos, y, x)
    ensures forall x :: Bit(RowBits(m, xPos, yPos, y, n), x) <==> 0 <= x < n && Cell(m, xPos, yPos, y, x)
  {
    var rest := RowBits(m, xPos, yPos, y, n - 1);
    var bit := if Cell(m, xPos, yPos, y, n - 1) then Single(n - 1) else 0;
    var r := RowBits(m, xPos, yPos, y, n);
    assert r == rest | bit;
    forall x
      ensures Bit(r, x) <==> 0 <= x < n && Cell(m, xPos, yPos, y, x)
    {
      RowBitsColumn(m, xPos, yPos, y, n, rest, bit, r, x);
    }
  }

  lemma RowBitsColumn(m: seq<Row>, xPos: int, yPos: int, y: int, n: nat, rest: Row, bit: Row, r: Row,
    x: int)
    requires |m| == BoxSize && 0 < n <= 16
    requires bit == if Cell(m, xPos, yPos, y, n - 1) then Single(n - 1) else 0
    requires r == rest | bit
    requires Bit(rest, x) <==> 0 <= x < n - 1 && Cell(m, xPos, yPos, y, x)
    ensures Bit(r, x) <==> 0 <= x < n && Cell(m, xPos, yPos, y, x)
  {
    BitOr(rest, bit, x);
    if !Cell(m, xPos, yPos, y, n - 1) {
      ZeroHasNoBit(x);
    }
  }

  /** The placement's cells as one row mask per well row. */
  function Grid(c: Config, m: seq<Row>, xPos: int, yPos: int): (g: seq<Row>)
    requires ValidConfig(c) && |m| == BoxSize
    ensures |g| == c.fullHeight
  {
    seq(c.fullHeight, y => RowBits(m, xPos, yPos, y, c.width))
  }

  /**
   * Bit x of grid row y is set exactly when (x, y) is a cell of the piece and x is one of the
   * well's columns; in particular every row outside the box is 0.
   */
  lemma GridCell(c: Config, m: seq<Row>, xPos: int, yPos: int, y: int, x: int)
    requires ValidConfig(c) && |m| == BoxSize && 0 <= y < c.fullHeight
    ensures Bit(Grid(c, m, xPos, yPos)[y], x) <==> 0 <= x < c.width && Cell(m, xPos, yPos, y, x)
  {
    RowBitsCells(m, xPos, yPos, y, c.width);
  }

  /** One of rows 0 .. n-1 of a shares a cell with the same row of b. */
  predicate RowsMeet(a: seq<Row>, b: seq<Row>, n: int)
  {
    exists y :: 0 <= y < n && y < |a| && y < |b| && a[y] & b[y] != 0
  }

  /** Some row of grid shares a cell with the same row of one of the spawn grids. */
  predicate Overlaps(grid: seq<Row>, spawns: seq<seq<Row>>)
  {
    exists q :: 0 <= q < |spawns| && RowsMeet(grid, spawns[q], |grid|)
  }

  /** The placement the constructor builds from its four arguments in environment env. */
  function StateOf(c: Config, env: Env, p: int, o: int, x: int, y: int): State
    requires ValidConfig(c) && ValidShape(p, o)
  {
    var b := Boxes(p)[o];
    var yTop := y + b.yOffset;
    var yBottom := yTop + b.yDim;
    var grid := Grid(c, Shapes(p)[o], x, y);
    State(p, o, x, y, b.xOffset, b.yOffset, b.xDim, b.yDim, yTop, yBottom, grid,
      NoPtrs, yBottom <= c.spareLines, env.listEmpty || Overlaps(grid, env.spawns),
      env.numStates)
  }

  /**
   * The offsets, dimensions, span and outOfBounds flag agree with the piece's mask at its key
   * position, as the constructor computes them.
   */
  predicate Derived(c: Config, s: State)
  {
    ValidConfig(c) && ValidShape(s.pieceId, s.orientationId) &&
    var b := Boxes(s.pieceId)[s.orientationId];
    s.xOffset == b.xOffset && s.yOffset == b.yOffset && s.xDim == b.xDim && s.yDim == b.yDim &&
    s.yTop == s.yPos + s.yOffset && s.yBottom == s.yTop + s.yDim &&
    s.outOfBounds == (s.yBottom <= c.spareLines)
  }

  /** The piece's extent lies inside [0, WIDTH) x [0, FULLHEIGHT). */
  predicate InBounds(c: Config, s: State)
  {
    0 <= s.xPos + s.xOffset && s.xPos + s.xOffset + s.xDim <= c.width &&
    0 <= s.yPos + s.yOffset && s.yPos + s.yOffset + s.yDim <= c.fullHeight
  }

  /** Move one column right, unless the piece already touches the right wall. */
  function Right(c: Config, env: Env, s: State): State
    requires ValidConfig(c) && ValidShape(s.pieceId, s.orientationId)
  {
    if s.xPos + s.xOffset <= 0 then s
    else StateOf(c, env, s.pieceId, s.orientationId, s.xPos - 1, s.yPos)
  }

  /** Move one column left, unless the piece already touches the left wall. */
  function Left(c: Config, env: Env, s: State): State
    requires ValidConfig(c) && ValidShape(s.pieceId, s.orientationId)
  {
    if s.xPos + s.xOffset + s.xDim >= c.width then s
    else StateOf(c, env, s.pieceId, s.orientationId, s.xPos + 1, s.yPos)
  }

  /** Move one row down, unless the piece already rests on the floor. */
  function Down(c: Config, env: Env, s: State): State
    requires ValidConfig(c) && ValidShape(s.pieceId, s.orientationId)
  {
    if s.yPos + s.yOffset + s.yDim >= c.fullHeight then s
    else StateOf(c, env, s.pieceId, s.orientationId, s.xPos, s.yPos + 1)
  }

  /** The orientation one right-handed turn on, wrapping back to the first. */
  function NextOrientation(p: int, o: int): (r: int)
    requires ValidShape(p, o)
    ensures ValidShape(p, r)
    ensures r == if o + 1 < NumOrientations(p) then o + 1 else 0
  {
    (o + 1) % NumOrientations(p)
  }

  /** Rotate in place to the next orientation, unless the rotated piece leaves the well. */
  function Rotate(c: Config, env: Env, s: State): State
    requires ValidConfig(c) && ValidShape(s.pieceId, s.orientationId)
  {
    var newP := StateOf(c, env, s.pieceId, NextOrientation(s.pieceId, s.orientationId),
      s.xPos, s.yPos);
    if newP.xPos + newP.xOffset < 0
      || newP.xPos + newP.xOffset + newP.xDim > c.width
      || newP.yPos + newP.yOffset < 0
      || newP.yPos + newP.yOffset + newP.yDim > c.fullHeight
    then s
    else newP
  }

  /** The controls table, in the order rotate, left, right, down. */
  function Control(c: Config, env: Env, k: nat, s: State): State
    requires ValidConfig(c) && ValidShape(s.pieceId, s.orientationId) && k < NumControls
  {
    if k == 0 then Rotate(c, env, s)
    else if k == 1 then Left(c, env, s)
    else if k == 2 then Right(c, env, s)
    else Down(c, env, s)
  }

  /** Two placements are the same node when their four key fields agree. */
  predicate SameState(a: State, b: State)
  {
    a.pieceId == b.pieceId && a.orientationId == b.orientationId &&
    a.xPos == b.xPos && a.yPos == b.yPos
  }

  /**
   * The grid is empty outside the rows [yTop, yBottom) the piece spans, so the solver's loops
   * over those rows see every cell of the placement.
   */
  lemma GridOutsideSpan(c: Config, p: int, o: int, x: int, y: int, row: int)
    requires ValidConfig(c) && ValidShape(p, o)
    requires 0 <= row < c.fullHeight
    requires var b := Boxes(p)[o]; !(y + b.yOffset <= row < y + b.yOffset + b.yDim)
    ensures Grid(c, Shapes(p)[o], x, y)[row] == 0
  {
    if y <= row < y + BoxSize {
      MaskRowOutsideSpan(p, o, row - y);
    }
    GridZeroRow(c, Shapes(p)[o], x, y, row);
  }

  /** Mask rows outside [yOffset, yOffset + yDim) are empty. */
  lemma MaskRowOutsideSpan(p: int, o: int, j: int)
    requires ValidShape(p, o) && 0 <= j < BoxSize
    requires var b := Boxes(p)[o]; !(b.yOffset <= j < b.yOffset + b.yDim)
    ensures Shapes(p)[o][j] == 0
  {
    var m := Shapes(p)[o];
    CatalogSolid(p, o);
    if YOffset(m) + YDim(m) <= j {
      ZerosFromAll(m, YOffset(m) + YDim(m), j);
    }
  }

  /** A grid row is 0 when the row lies outside the box or its mask row is empty. */
  lemma GridZeroRow(c: Config, m: seq<Row>, x: int, y: int, row: int)
    requires ValidConfig(c) && |m| == BoxSize && 0 <= row < c.fullHeight
    requires y <= row < y + BoxSize ==> m[row - y] == 0
    ensures Grid(c, m, x, y)[row] == 0
  {
    var g := Grid(c, m, x, y);
    forall col | 0 <= col < 16
      ensures !Bit(g[row], col)
    {
      GridCell(c, m, x, y, row, col);
      if y <= row < y + BoxSize {
        ZeroHasNoBit(col - x);
      }
    }
    AllBitsClear(g[row]);
  }

  /**
   * A placement inside the well spans at least one row and covers at least one cell, in its
   * top row.
   */
  lemma TopRowFilled(c: Config, p: int, o: int, x: int, y: int)
    requires ValidConfig(c) && ValidShape(p, o)
    requires var b := Boxes(p)[o];
      0 <= x + b.xOffset && x + b.xOffset + b.xDim <= c.width &&
      0 <= y + b.yOffset && y + b.yOffset + b.yDim <= c.fullHeight
    ensures var b := Boxes(p)[o];
      0 <= y + b.yOffset < y + b.yOffset + b.yDim <= c.fullHeight &&
      Grid(c, Shapes(p)[o], x, y)[y + b.yOffset] != 0
  {
    var col := TopCell(p, o);
    GridTopRow(c, Shapes(p)[o], x, y, Boxes(p)[o].yOffset, col);
  }

  lemma GridTopRow(c: Config, m: seq<Row>, x: int, y: int, yo: int, b: int)
    requires ValidConfig(c) && |m| == BoxSize
    requires 0 <= yo < BoxSize && 0 <= b < BoxSize && Bit(m[yo], b)
    requires 0 <= x + b < c.width && 0 <= y + yo < c.fullHeight
    ensures Grid(c, m, x, y)[y + yo] != 0
  {
    assert Cell(m, x, y, y + yo, x + b);
    GridRowFilled(c, m, x, y, y + yo, x + b);
  }

  /** The top row of a piece has a filled cell b inside the piece's column span. */
  lemma TopCell(p: int, o: int) returns (col: int)
    requires ValidShape(p, o)
    ensures var b := Boxes(p)[o];
      0 <= b.yOffset < BoxSize && 1 <= b.yDim && 0 <= b.xOffset <= col &&
      col < b.xOffset + b.xDim <= BoxSize && Bit(Shapes(p)[o][b.yOffset], col)
  {
    var m := Shapes(p)[o];
    CatalogSolid(p, o);
    col := LowZeros(m[YOffset(m)], 0);
  }

  /** A grid row holding a cell of the piece inside the well is not 0. */
  lemma GridRowFilled(c: Config, m: seq<Row>, x: int, y: int, row: int, col: int)
    requires ValidConfig(c) && |m| == BoxSize && 0 <= row < c.fullHeight && 0 <= col < c.width
    requires Cell(m, x, y, row, col)
    ensures Grid(c, m, x, y)[row] != 0
  {
    GridCell(c, m, x, y, row, col);
    ZeroHasNoBit(col);
  }

  /** Every piece's spawn placement lies inside the well, wholly within the spare rows. */
  lemma SpawnInBounds(c: Config, env: Env, p: int)
    requires ValidConfig(c) && 0 <= p < NumPieces
    ensures var pc := Catalog(c)[p];
      var s := StateOf(c, env, p, 0, pc.spawnXPos + Margin(c), pc.spawnYPos);
      Derived(c, s) && InBounds(c, s) && s.yTop == c.spareLines - 2 && s.outOfBounds
  {
    SpawnFits(c, p);
  }

  /** A freshly built placement has the key it was built from and consistent geometry. */
  lemma StateOfDerived(c: Config, env: Env, p: int, o: int, x: int, y: int)
    requires ValidConfig(c) && ValidShape(p, o)
    ensures var s := StateOf(c, env, p, o, x, y);
      Derived(c, s) && s.pieceId == p && s.orientationId == o && s.xPos == x && s.yPos == y
  {
  }

  /** Each key keeps the piece and keeps the placement inside the well. */
  lemma ControlKeepsInBounds(c: Config, env: Env, k: nat, s: State)
    requires Derived(c, s) && InBounds(c, s) && k < NumControls
    ensures var r := Control(c, env, k, s);
      Derived(c, r) && InBounds(c, r) && r.pieceId == s.pieceId
  {
    if k == 0 {
      RotateKeepsInBounds(c, env, s);
    } else if k == 1 {
      LeftKeepsInBounds(c, env, s);
    } else if k == 2 {
      RightKeepsInBounds(c, env, s);
    } else {
      DownKeepsInBounds(c, env, s);
    }
  }

  lemma RotateKeepsInBounds(c: Config, env: Env, s: State)
    requires Derived(c, s) && InBounds(c, s)
    ensures var r := Rotate(c, env, s);
      Derived(c, r) && InBounds(c, r) && r.pieceId == s.pieceId
  {
    var o := NextOrientation(s.pieceId, s.orientationId);
    StateOfDerived(c, env, s.pieceId, o, s.xPos, s.yPos);
    if !InBounds(c, StateOf(c, env, s.pieceId, o, s.xPos, s.yPos)) {
      assert Rotate(c, env, s) == s;
    }
  }

  lemma LeftKeepsInBounds(c: Config, env: Env, s: State)
    requires Derived(c, s) && InBounds(c, s)
    ensures var r := Left(c, env, s);
      Derived(c, r) && InBounds(c, r) && r.pieceId == s.pieceId
  {
    if s.xPos + s.xOffset + s.xDim >= c.width {
      assert Left(c, env, s) == s;
    } else {
      StateOfDerived(c, env, s.pieceId, s.orientationId, s.xPos + 1, s.yPos);
    }
  }

  lemma RightKeepsInBounds(c: Config, env: Env, s: State)
    requires Derived(c, s) && InBounds(c, s)
    ensures var r := Right(c, env, s);
      Derived(c, r) && InBounds(c, r) && r.pieceId == s.pieceId
  {
    if s.xPos + s.xOffset <= 0 {
      assert Right(c, env, s) == s;
    } else {
      StateOfDerived(c, env, s.pieceId, s.orientationId, s.xPos - 1, s.yPos);
    }
  }

  lemma DownKeepsInBounds(c: Config, env: Env, s: State)
    requires Derived(c, s) && InBounds(c, s)
    ensures var r := Down(c, env, s);
      Derived(c, r) && InBounds(c, r) && r.pieceId == s.pieceId
  {
    if s.yPos + s.yOffset + s.yDim >= c.fullHeight {
      assert Down(c, env, s) == s;
    } else {
      StateOfDerived(c, env, s.pieceId, s.orientationId, s.xPos, s.yPos + 1);
    }
  }

  /** Each key gives either its input itself or a placement freshly built in env. */
  lemma ControlBuildsOrStays(c: Config, env: Env, k: nat, s: State)
    requires ValidConfig(c) && ValidShape(s.pieceId, s.orientationId) && k < NumControls
    ensures var r := Control(c, env, k, s);
      r == s || (ValidShape(r.pieceId, r.orientationId) &&
        r == StateOf(c, env, r.pieceId, r.orientationId, r.xPos, r.yPos))
  {
  }

  /** Which node a key leads to does not depend on the builder's lists. */
  lemma ControlIgnoresEnv(c: Config, e1: Env, e2: Env, k: nat, s: State)
    requires ValidConfig(c) && ValidShape(s.pieceId, s.orientationId) && k < NumControls
    ensures SameState(Control(c, e1, k, s), Control(c, e2, k, s))
  {
    if k == 0 {
      var o := NextOrientation(s.pieceId, s.orientationId);
      StateOfDerived(c, e1, s.pieceId, o, s.xPos, s.yPos);
      StateOfDerived(c, e2, s.pieceId, o, s.xPos, s.yPos);
    }
  }

  /** Which node a key leads to does not depend on the links already filled in. */
  lemma ControlIgnoresLinks(c: Config, env: Env, k: nat, s: State, ptrs: seq<Option<nat>>)
    requires ValidConfig(c) && ValidShape(s.pieceId, s.orientationId) && k < NumControls
    ensures SameState(Control(c, env, k, s), Control(c, env, k, s.(nextPtrs := ptrs)))
  {
    var t := s.(nextPtrs := ptrs);
    if k == 0 {
      RotateIgnoresLinks(c, env, s, t);
    } else if k == 1 {
      LeftIgnoresLinks(c, env, s, t);
    } else if k == 2 {
      RightIgnoresLinks(c, env, s, t);
    } else {
      DownIgnoresLinks(c, env, s, t);
    }
  }

  lemma RotateIgnoresLinks(c: Config, env: Env, s: State, t: State)
    requires ValidConfig(c) && ValidShape(s.pieceId, s.orientationId) && t == s.(nextPtrs := t.nextPtrs)
    ensures SameState(Rotate(c, env, s), Rotate(c, env, t))
  {
  }

  lemma LeftIgnoresLinks(c: Config, env: Env, s: State, t: State)
    requires ValidConfig(c) && ValidShape(s.pieceId, s.orientationId) && t == s.(nextPtrs := t.nextPtrs)
    ensures SameState(Left(c, env, s), Left(c, env, t))
  {
  }

  lemma RightIgnoresLinks(c: Config, env: Env, s: State, t: State)
    requires ValidConfig(c) && ValidShape(s.pieceId, s.orientationId) && t == s.(nextPtrs := t.nextPtrs)
    ensures SameState(Right(c, env, s), Right(c, env, t))
  {
  }

  lemma DownIgnoresLinks(c: Config, env: Env, s: State, t: State)
    requires ValidConfig(c) && ValidShape(s.pieceId, s.orientationId) && t == s.(nextPtrs := t.nextPtrs)
    ensures SameState(Down(c, env, s), Down(c, env, t))
  {
  }

  /** right keeps piece, orientation and row, and moves one column right unless at the wall. */
  lemma RightMoves(c: Config, env: Env, s: State)
    requires ValidConfig(c) && ValidShape(s.pieceId, s.orientationId)
    ensures var r := Right(c, env, s);
      (r == s <==> s.xPos + s.xOffset <= 0) &&
      (r != s ==>
         r.pieceId == s.pieceId && r.orientationId == s.orientationId &&
         r.xPos == s.xPos - 1 && r.yPos == s.yPos)
  {
  }

  /** left keeps piece, orientation and row, and moves one column left unless at the wall. */
  lemma LeftMoves(c: Config, env: Env, s: State)
    requires ValidConfig(c) && ValidShape(s.pieceId, s.orientationId)
    ensures var r := Left(c, env, s);
      (r == s <==> s.xPos + s.xOffset + s.xDim >= c.width) &&
      (r != s ==>
         r.pieceId == s.pieceId && r.orientationId == s.orientationId &&
         r.xPos == s.xPos + 1 && r.yPos == s.yPos)
  {
  }

  /** down keeps piece, orientation and column, and moves one row down unless on the floor. */
  lemma DownMoves(c: Config, env: Env, s: State)
    requires ValidConfig(c) && ValidShape(s.pieceId, s.orientationId)
    ensures var r := Down(c, env, s);
      (r == s <==> s.yPos + s.yOffset + s.yDim >= c.fullHeight) &&
      (r != s ==>
         r.pieceId == s.pieceId && r.orientationId == s.orientationId &&
         r.xPos == s.xPos && r.yPos == s.yPos + 1)
  {
  }

  /**
   * rotate keeps piece and box position and turns to the next orientation when the turned
   * piece's box, as the Boxes table measures it, fits in the well; otherwise it returns its
   * input.
   */
  lemma RotateTurns(c: Config, env: Env, s: State)
    requires ValidConfig(c) && ValidShape(s.pieceId, s.orientationId)
    ensures var r := Rotate(c, env, s);
      var o := NextOrientation(s.pieceId, s.orientationId);
      var b := Boxes(s.pieceId)[o];
      var fits := 0 <= s.xPos + b.xOffset && s.xPos + b.xOffset + b.xDim <= c.width &&
                  0 <= s.yPos + b.yOffset && s.yPos + b.yOffset + b.yDim <= c.fullHeight;
      (fits ==> r.pieceId == s.pieceId && r.orientationId == o && r.xPos == s.xPos && r.yPos == s.yPos &&
                Derived(c, r) && InBounds(c, r)) &&
      (!fits ==> r == s)
  {
    StateOfDerived(c, env, s.pieceId, NextOrientation(s.pieceId, s.orientationId), s.xPos, s.yPos);
  }

  /**
   * sameState on two placements the constructor built in one environment is equality: the
   * four key fields determine the whole record, so the builder may look nodes up by key.
   */
  lemma SameStateBuilt(c: Config, env: Env, p: int, o: int, x: int, y: int,
                       p2: int, o2: int, x2: int, y2: int)
    requires ValidConfig(c) && ValidShape(p, o) && ValidShape(p2, o2)
    ensures SameState(StateOf(c, env, p, o, x, y), StateOf(c, env, p2, o2, x2, y2)) <==>
      StateOf(c, env, p, o, x, y) == StateOf(c, env, p2, o2, x2, y2)
  {
    StateOfDerived(c, env, p, o, x, y);
    StateOfDerived(c, env, p2, o2, x2, y2);
  }

  /** left undoes a right move. */
  lemma LeftUndoesRight(c: Config, env: Env, s: State)
    requires Derived(c, s) && InBounds(c, s) && s.xPos + s.xOffset > 0
    ensures SameState(Left(c, env, Right(c, env, s)), s)
  {
  }

  /** right undoes a left move. */
  lemma RightUndoesLeft(c: Config, env: Env, s: State)
    requires Derived(c, s) && InBounds(c, s) && s.xPos + s.xOffset + s.xDim < c.width
    ensures SameState(Right(c, env, Left(c, env, s)), s)
  {
  }
}
