/**
 * The placement-graph builder: the constructor's loops, each piece's list of nodes with its
 * lookup and append operations, and the worklist that fills in every node's successor links.
 * A piece's linked list is a sequence here and an address of one of its nodes is an index.
 */
module StateGen {
  import opened Bits
  import opened Core
  import opened Pieces
  import opened Placement
  import opened Options

  /**
   * The constructor's first two loops: skip the empty rows at the top of the box, then OR
   * together the run of non-empty rows below them.
   */
  method MaskRows(masks: seq<Row>) returns (yOffset: nat, yDim: nat, allMask: Row)
    requires |masks| == BoxSize
    ensures yOffset == YOffset(masks) && yDim == YDim(masks) && allMask == AllMask(masks)
  {
    var maskId := 0;
    while maskId < BoxSize && masks[maskId] == 0
      invariant 0 <= maskId <= YOffset(masks)
    {
      maskId := maskId + 1;
    }
    yOffset := maskId;
    allMask := 0;
    while maskId < BoxSize && masks[maskId] != 0
      invariant yOffset <= maskId <= yOffset + YDim(masks)
      invariant allMask == OrRows(masks, yOffset, maskId)
    {
      RowsStep(masks, maskId);
      allMask := allMask | masks[maskId];
      maskId := maskId + 1;
    }
    RowsEnd(masks, maskId);
    yDim := maskId - yOffset;
  }

  lemma RowsStep(m: seq<Row>, k: nat)
    requires |m| == BoxSize && YOffset(m) <= k <= YOffset(m) + YDim(m) && k < BoxSize && m[k] != 0
    ensures k + 1 <= YOffset(m) + YDim(m)
    ensures OrRows(m, YOffset(m), k + 1) == OrRows(m, YOffset(m), k) | m[k]
  {
  }

  lemma RowsEnd(m: seq<Row>, k: nat)
    requires |m| == BoxSize && YOffset(m) <= k <= YOffset(m) + YDim(m)
    requires !(k < BoxSize && m[k] != 0)
    ensures k == YOffset(m) + YDim(m)
  {
  }

  /**
   * The mask row the constructor's second loop reads when it stops, masks[yOffset + yDim]: its
   * test reads the row before it checks maskId < BOXSIZE.
   */
  function LastRowRead(m: seq<Row>): (i: nat)
    requires |m| == BoxSize
    ensures YOffset(m) <= i <= BoxSize
    ensures forall j :: YOffset(m) <= j < i ==> m[j] != 0
    ensures i < BoxSize ==> m[i] == 0
  {
    YOffset(m) + YDim(m)
  }

  /** For the upright I that row is masks[4], one past the four rows of the orientation. */
  lemma UprightIReadsPastBox()
    ensures LastRowRead(Shapes(1)[1]) == BoxSize
  {
    assert Shapes(1)[1] == [2, 2, 2, 2];
  }

  /**
   * The constructor's next two loops: shift allMask right past its empty columns, counting
   * them, then past its filled ones.
   */
  method MaskColumns(allMask: Row) returns (xOffset: int, xDim: int)
    requires allMask != 0
    ensures xOffset == LowZeros(allMask, 0) && xDim == OnesRun(allMask, xOffset)
    ensures 0 <= xOffset < 16 && Bit(allMask, xOffset) && 1 <= xDim
  {
    var bits;
    xOffset, bits := SkipEmptyColumns(allMask);
    xDim := CountFilledColumns(allMask, xOffset, bits);
  }

  /** The constructor's four measuring loops over orientation o of piece p, as one box. */
  method MeasureBox(p: int, o: int) returns (b: Box)
    requires ValidShape(p, o)
    ensures b == Boxes(p)[o]
  {
    var masks := Shapes(p)[o];
    var yOffset, yDim, allMask := MaskRows(masks);
    AllMaskNonZero(p, o);
    var xOffset, xDim := MaskColumns(allMask);
    BoxesMeasured(p, o);
    b := Box(xOffset, yOffset, xDim, yDim);
  }

  /** Shift right until the lowest column is filled; xOffset counts the shifts. */
  method SkipEmptyColumns(allMask: Row) returns (xOffset: int, bits: Row)
    requires allMask != 0
    ensures xOffset == LowZeros(allMask, 0) && 0 <= xOffset < 16 && Bit(allMask, xOffset)
    ensures bits == Shr(allMask, xOffset)
  {
    bits := allMask;
    xOffset := 0;
    LowZerosBelow(allMask);
    while bits & 1 == 0
      invariant 0 <= xOffset <= LowZeros(allMask, 0) < 16
      invariant bits == Shr(allMask, xOffset)
      decreases 16 - xOffset
    {
      SkipStep(allMask, xOffset, bits);
      bits := bits >> 1;
      xOffset := xOffset + 1;
    }
    ShrLow(allMask, xOffset, bits);
  }

  /** A non-empty row has its lowest filled column below 16. */
  lemma LowZerosBelow(r: Row)
    requires r != 0
    ensures LowZeros(r, 0) < 16
  {
    var x := NonZeroHasBit(r);
  }

  lemma SkipStep(allMask: Row, k: int, bits: Row)
    requires 0 <= k <= LowZeros(allMask, 0) < 16 && bits == Shr(allMask, k) && bits & 1 == 0
    ensures k + 1 <= LowZeros(allMask, 0) && bits >> 1 == Shr(allMask, k + 1)
  {
    ShrLow(allMask, k, bits);
    ShrNext(allMask, k, bits);
  }

  lemma ShrNext(r: Row, k: nat, b: Row)
    requires b == Shr(r, k)
    ensures b >> 1 == Shr(r, k + 1)
  {
  }

  /** Shift right while the lowest column is filled; xDim counts the shifts. */
  method CountFilledColumns(allMask: Row, xOffset: int, bits0: Row) returns (xDim: int)
    requires 0 <= xOffset < 16 && bits0 == Shr(allMask, xOffset)
    ensures xDim == OnesRun(allMask, xOffset)
  {
    var bits := bits0;
    xDim := 0;
    while bits & 1 == 1
      invariant 0 <= xDim <= OnesRun(allMask, xOffset)
      invariant bits == Shr(allMask, xOffset + xDim)
      decreases 16 - xDim
    {
      CountStep(allMask, xOffset, xDim, bits);
      bits := bits >> 1;
      xDim := xDim + 1;
    }
    ShrLow(allMask, xOffset + xDim, bits);
  }

  lemma CountStep(allMask: Row, xOffset: int, n: int, bits: Row)
    requires 0 <= xOffset < 16 && 0 <= n <= OnesRun(allMask, xOffset)
    requires bits == Shr(allMask, xOffset + n) && bits & 1 == 1
    ensures n + 1 <= OnesRun(allMask, xOffset) && bits >> 1 == Shr(allMask, xOffset + n + 1)
  {
    ShrLow(allMask, xOffset + n, bits);
    ShrNext(allMask, xOffset + n, bits);
  }

  /**
   * The constructor's nested loop: row y of the grid gets bit x for every well column x that
   * the mask covers with its box at (xPos, yPos).
   */
  method FillGrid(c: Config, masks: seq<Row>, xPos: int, yPos: int) returns (grid: seq<Row>)
    requires ValidConfig(c) && |masks| == BoxSize
    ensures grid == Grid(c, masks, xPos, yPos)
  {
    var g := new Row[c.fullHeight];
    for y := 0 to c.fullHeight
      invariant forall r :: 0 <= r < y ==> g[r] == RowBits(masks, xPos, yPos, r, c.width)
    {
      g[y] := FillRow(c, masks, xPos, yPos, y);
    }
    grid := g[..];
  }

  /** The inner loop of the grid fill, over the columns of row y. */
  method FillRow(c: Config, masks: seq<Row>, xPos: int, yPos: int, y: int) returns (row: Row)
    requires ValidConfig(c) && |masks| == BoxSize
    ensures row == RowBits(masks, xPos, yPos, y, c.width)
  {
    row := 0;
    for x := 0 to c.width
      invariant row == RowBits(masks, xPos, yPos, y, x)
    {
      ghost var before := row;
      if yPos <= y && y < yPos + BoxSize && xPos <= x && x < xPos + BoxSize
        && Bit(masks[y - yPos], x - xPos)
      {
        row := row | Single(x);
      }
      RowBitsNext(masks, xPos, yPos, y, x, before, row);
    }
  }

  lemma RowBitsNext(masks: seq<Row>, xPos: int, yPos: int, y: int, x: nat, before: Row, after: Row)
    requires |masks| == BoxSize && x < 16 && before == RowBits(masks, xPos, yPos, y, x)
    requires after == if Cell(masks, xPos, yPos, y, x) then before | Single(x) else before
    ensures after == RowBits(masks, xPos, yPos, y, x + 1)
  {
    if !Cell(masks, xPos, yPos, y, x) {
      assert before | 0 == before;
    }
  }

  /** The grid of each piece's spawn placement, the head of its list ([] while it is empty). */
  function Heads(lists: seq<seq<State>>): seq<seq<Row>>
  {
    seq(|lists|, q requires 0 <= q < |lists| => if lists[q] == [] then [] else lists[q][0].grid)
  }

  /** Piece p's spawn key: first orientation, spawn column shifted by the margin, spawn row. */
  predicate IsSpawn(c: Config, p: int, s: State)
    requires 0 <= p < NumPieces
  {
    var pc := Catalog(c)[p];
    s.orientationId == 0 && s.xPos == pc.spawnXPos + Margin(c) && s.yPos == pc.spawnYPos
  }

  /**
   * Node j of piece p's list, in a list of n nodes: a placement of piece p inside the well with
   * the geometry and grid of its key, the spawn-overlap flag the constructor gives it, its own
   * position as i, and links that stay inside the list.
   */
  predicate ValidNode(c: Config, p: int, j: int, n: int, spawns: seq<seq<Row>>, s: State)
  {
    s.pieceId == p && Derived(c, s) && InBounds(c, s) &&
    s.grid == Grid(c, Shapes(p)[s.orientationId], s.xPos, s.yPos) &&
    s.overlapsSpawn == (j == 0 || Overlaps(s.grid, spawns)) &&
    s.i == j && LinksIn(s.nextPtrs, n)
  }

  /** Four links, each unset or naming one of the first n nodes. */
  predicate LinksIn(ptrs: seq<Option<nat>>, n: int)
  {
    |ptrs| == NumControls && forall k :: 0 <= k < NumControls && ptrs[k].Some? ==> ptrs[k].value < n
  }

  lemma NoLinks(n: int)
    ensures LinksIn(NoPtrs, n)
  {
    assert forall k :: 0 <= k < NumControls ==> NoPtrs[k] == None;
  }

  /** A piece's list: valid nodes, no two of them the same placement. */
  predicate ValidList(c: Config, p: int, list: seq<State>, spawns: seq<seq<Row>>)
  {
    (forall j :: 0 <= j < |list| ==> ValidNode(c, p, j, |list|, spawns, list[j])) &&
    (forall j1, j2 :: 0 <= j1 < j2 < |list| ==> !SameState(list[j1], list[j2]))
  }

  /**
   * The builder's lists: one per piece, each counted by numStates, each headed by its spawn
   * placement, all checked against the spawn grids.
   */
  predicate ValidLists(c: Config, lists: seq<seq<State>>, nums: seq<int>)
  {
    ValidConfig(c) && |lists| == NumPieces && |nums| == NumPieces &&
    (forall q :: 0 <= q < NumPieces ==> nums[q] == |lists[q]|) &&
    (forall q :: 0 <= q < NumPieces && lists[q] != [] ==> IsSpawn(c, q, lists[q][0])) &&
    (forall q :: 0 <= q < NumPieces ==> ValidList(c, q, lists[q], Heads(lists)))
  }

  /** Any environment: which node a key leads to does not depend on it (ControlIgnoresEnv). */
  const AnyEnv := Env([], false, 0)

  /** Link k of node j is set, stays in the list and leads to the placement key k gives. */
  predicate EdgeDone(c: Config, list: seq<State>, j: int, k: int)
  {
    ValidConfig(c) && 0 <= j < |list| && 0 <= k < NumControls &&
    ValidShape(list[j].pieceId, list[j].orientationId) && |list[j].nextPtrs| == NumControls &&
    list[j].nextPtrs[k].Some? && list[j].nextPtrs[k].value < |list| &&
    SameState(list[list[j].nextPtrs[k].value], Control(c, AnyEnv, k, list[j]))
  }

  /** All four links of node j are done. */
  predicate NodeDone(c: Config, list: seq<State>, j: int)
  {
    forall k :: 0 <= k < NumControls ==> EdgeDone(c, list, j, k)
  }

  /**
   * b is list a after the worklist visited node idx: node idx changed only in its links, every
   * other node is unchanged, and new nodes may follow.
   */
  predicate Grows(a: seq<State>, b: seq<State>, idx: int)
  {
    0 <= idx < |a| <= |b| &&
    (forall j :: 0 <= j < |a| && j != idx ==> b[j] == a[j]) &&
    b[idx] == a[idx].(nextPtrs := b[idx].nextPtrs)
  }

  /** The key of a node within its piece's list. */
  function Key(s: State): (int, int, int)
  {
    (s.orientationId, s.xPos, s.yPos)
  }

  /** Every key a placement inside the well can have. */
  ghost function KeyBox(c: Config): set<(int, int, int)>
  {
    set o: int, x: int, y: int | 0 <= o < 4 && -4 <= x <= c.width && -4 <= y <= c.fullHeight
      :: (o, x, y)
  }

  ghost function KeySet(list: seq<State>): set<(int, int, int)>
  {
    set j | 0 <= j < |list| :: Key(list[j])
  }

  // ---------------------------------------------------------------------------------------
  // Lemmas about the lists

  /** A list of distinct placements has no more nodes than there are keys in the well. */
  lemma ListBound(c: Config, p: int, list: seq<State>, spawns: seq<seq<Row>>)
    requires ValidList(c, p, list, spawns)
    ensures |list| <= |KeyBox(c)|
  {
    forall j1, j2 | 0 <= j1 < j2 < |list|
      ensures Key(list[j1]) != Key(list[j2])
    {
    }
    KeySetSize(list);
    forall j | 0 <= j < |list|
      ensures Key(list[j]) in KeyBox(c)
    {
      KeyInBox(c, p, j, |list|, spawns, list[j]);
    }
    var ks := KeySet(list);
    var box := KeyBox(c);
    assert ks <= box;
    assert box == ks + (box - ks);
    assert ks * (box - ks) == {};
  }

  lemma KeyInBox(c: Config, p: int, j: int, n: int, spawns: seq<seq<Row>>, s: State)
    requires ValidNode(c, p, j, n, spawns, s)
    ensures Key(s) in KeyBox(c)
  {
    ShapeExtent(p, s.orientationId);
    InKeyBox(c, s.orientationId, s.xPos, s.yPos);
  }

  /** The piece's extent within its 4x4 box. */
  lemma ShapeExtent(p: int, o: int)
    requires ValidShape(p, o)
    ensures var b := Boxes(p)[o];
      0 <= b.xOffset && 0 <= b.xDim && b.xOffset + b.xDim <= BoxSize &&
      0 <= b.yOffset < BoxSize && 0 <= b.yDim
  {
  }

  lemma InKeyBox(c: Config, o: int, x: int, y: int)
    requires 0 <= o < 4 && -4 <= x <= c.width && -4 <= y <= c.fullHeight
    ensures (o, x, y) in KeyBox(c)
  {
  }

  lemma {:induction false} KeySetSize(list: seq<State>)
    requires forall j1, j2 :: 0 <= j1 < j2 < |list| ==> Key(list[j1]) != Key(list[j2])
    ensures |KeySet(list)| == |list|
  {
    if list != [] {
      var n := |list| - 1;
      var front := list[..n];
      KeySetSize(front);
      assert KeySet(list) == KeySet(front) + {Key(list[n])};
      assert Key(list[n]) !in KeySet(front);
    }
  }

  /** Only the spawn grids are read, so lists whose heads keep their grids keep Heads. */
  lemma HeadsSame(lists: seq<seq<State>>, p: int, list: seq<State>)
    requires 0 <= p < |lists| && lists[p] != [] && list != [] && list[0].grid == lists[p][0].grid
    ensures Heads(lists[p := list]) == Heads(lists)
  {
  }

  /** Replacing a non-empty list by another with the same head keeps the lists valid. */
  lemma ReplaceList(c: Config, lists: seq<seq<State>>, nums: seq<int>, p: int, list: seq<State>,
    nums1: seq<int>)
    requires ValidLists(c, lists, nums) && 0 <= p < NumPieces && lists[p] != [] && list != []
    requires list[0].grid == lists[p][0].grid && Key(list[0]) == Key(lists[p][0])
    requires ValidList(c, p, list, Heads(lists))
    requires |nums1| == NumPieces && nums1[p] == |list|
    requires forall q :: 0 <= q < NumPieces && q != p ==> nums1[q] == nums[q]
    ensures ValidLists(c, lists[p := list], nums1)
  {
    HeadsSame(lists, p, list);
  }

  /** Appending a valid node that is not yet in the list keeps the list valid. */
  lemma AppendValid(c: Config, p: int, list: seq<State>, spawns: seq<seq<Row>>, s: State)
    requires ValidList(c, p, list, spawns) && ValidNode(c, p, |list|, |list| + 1, spawns, s)
    requires forall j :: 0 <= j < |list| ==> !SameState(s, list[j])
    ensures ValidList(c, p, list + [s], spawns)
  {
    var l := list + [s];
    forall j | 0 <= j < |l|
      ensures ValidNode(c, p, j, |l|, spawns, l[j])
    {
      if j < |list| {
        assert l[j] == list[j];
      }
    }
  }

  /** Setting a link of a node to a node of the list keeps the list valid. */
  lemma SetLinkValid(c: Config, p: int, list: seq<State>, spawns: seq<seq<Row>>,
    idx: int, k: int, t: nat)
    requires ValidList(c, p, list, spawns) && 0 <= idx < |list| && 0 <= k < NumControls
    requires t < |list|
    ensures ValidList(c, p, SetLink(list, idx, k, t), spawns)
  {
    var l := SetLink(list, idx, k, t);
    assert ValidNode(c, p, idx, |list|, spawns, list[idx]);
    forall j | 0 <= j < |l|
      ensures ValidNode(c, p, j, |l|, spawns, l[j])
    {
      if j != idx {
        assert l[j] == list[j];
      }
    }
    forall j1, j2 | 0 <= j1 < j2 < |l|
      ensures !SameState(l[j1], l[j2])
    {
      assert SameState(l[j1], l[j2]) == SameState(list[j1], list[j2]);
    }
  }

  /** Node idx with its link k set to t. */
  function SetLink(list: seq<State>, idx: int, k: int, t: nat): (r: seq<State>)
    requires 0 <= idx < |list| && 0 <= k < |list[idx].nextPtrs|
    ensures |r| == |list| && Grows(list, r, idx)
  {
    var node := list[idx];
    list[idx := node.(nextPtrs := node.nextPtrs[k := Some(t)])]
  }

  /** A placement the constructor builds for a non-empty list is valid as its next node. */
  lemma FreshNodeValid(c: Config, spawns: seq<seq<Row>>, n: int, p: int, o: int, x: int, y: int)
    requires ValidConfig(c) && ValidShape(p, o) && n > 0
    requires InBounds(c, StateOf(c, Env(spawns, false, n), p, o, x, y))
    ensures ValidNode(c, p, n, n + 1, spawns, StateOf(c, Env(spawns, false, n), p, o, x, y))
  {
    StateOfDerived(c, Env(spawns, false, n), p, o, x, y);
    FreshFields(c, spawns, n, p, o, x, y);
    NoLinks(n + 1);
  }

  lemma FreshFields(c: Config, spawns: seq<seq<Row>>, n: int, p: int, o: int, x: int, y: int)
    requires ValidConfig(c) && ValidShape(p, o) && n > 0
    ensures var s := StateOf(c, Env(spawns, false, n), p, o, x, y);
      s.grid == Grid(c, Shapes(p)[s.orientationId], s.xPos, s.yPos) &&
      s.overlapsSpawn == Overlaps(s.grid, spawns) && s.i == n && s.nextPtrs == NoPtrs
  {
  }

  /** The spawn placement, built into an empty list, is valid as node 0 whatever the spawns. */
  lemma SpawnNodeValid(c: Config, spawns: seq<seq<Row>>, p: int, s: State)
    requires ValidConfig(c) && 0 <= p < NumPieces
    requires s.pieceId == p && s.orientationId == 0
    requires s.xPos == Catalog(c)[p].spawnXPos + Margin(c) && s.yPos == Catalog(c)[p].spawnYPos
    requires Derived(c, s) && s.grid == Grid(c, Shapes(p)[0], s.xPos, s.yPos)
    requires s.overlapsSpawn && s.i == 0 && s.nextPtrs == NoPtrs
    ensures ValidNode(c, p, 0, 1, spawns, s) && IsSpawn(c, p, s)
  {
    SpawnFits(c, p);
    NoLinks(1);
  }

  /** What the constructor gives a placement of piece p built into its empty list. */
  lemma SpawnBuilds(c: Config, env: Env, p: int, x: int, y: int, s: State)
    requires ValidConfig(c) && 0 <= p < NumPieces && env.listEmpty && env.numStates == 0
    requires s == StateOf(c, env, p, 0, x, y)
    ensures s.pieceId == p && s.orientationId == 0 && s.xPos == x && s.yPos == y
    ensures Derived(c, s) && s.grid == Grid(c, Shapes(p)[0], x, y)
    ensures s.overlapsSpawn && s.i == 0 && s.nextPtrs == NoPtrs
  {
    StateOfDerived(c, env, p, 0, x, y);
  }

  /** A list of at most one node does not depend on the spawn grids. */
  lemma ShortListValid(c: Config, p: int, list: seq<State>, sp1: seq<seq<Row>>, sp2: seq<seq<Row>>)
    requires |list| <= 1 && ValidList(c, p, list, sp1)
    ensures ValidList(c, p, list, sp2)
  {
    if list != [] {
      assert ValidNode(c, p, 0, 1, sp1, list[0]);
    }
  }

  /** Storing piece p's spawn placement while the earlier pieces hold one node and the rest none. */
  lemma StartList(c: Config, lists: seq<seq<State>>, nums: seq<int>, p: int, s: State,
                  lists1: seq<seq<State>>, nums1: seq<int>)
    requires ValidLists(c, lists, nums) && 0 <= p < NumPieces
    requires forall q :: 0 <= q < p ==> |lists[q]| == 1
    requires forall q :: p <= q < NumPieces ==> lists[q] == []
    requires ValidNode(c, p, 0, 1, [], s) && IsSpawn(c, p, s)
    requires lists1 == lists[p := lists[p] + [s]] && nums1 == nums[p := nums[p] + 1]
    ensures ValidLists(c, lists1, nums1)
    ensures forall q :: 0 <= q < p + 1 ==> |lists1[q]| == 1
    ensures forall q :: p + 1 <= q < NumPieces ==> lists1[q] == []
  {
    assert lists1[p] == [s];
    forall q | 0 <= q < NumPieces
      ensures ValidList(c, q, lists1[q], Heads(lists1))
    {
      if q == p {
        ShortListValid(c, p, [s], [], Heads(lists1));
      } else {
        ShortListValid(c, q, lists[q], Heads(lists), Heads(lists1));
      }
    }
  }

  /** A finished link survives appending a node. */
  lemma EdgeKeptAppend(c: Config, list: seq<State>, s: State, j: int, k: int)
    requires EdgeDone(c, list, j, k)
    ensures EdgeDone(c, list + [s], j, k)
  {
    var l := list + [s];
    assert l[j] == list[j];
    assert l[list[j].nextPtrs[k].value] == list[list[j].nextPtrs[k].value];
  }

  /** A finished link survives the visit that produced b from a. */
  lemma EdgeKeptGrows(c: Config, a: seq<State>, b: seq<State>, idx: int, j: int, k: int)
    requires Grows(a, b, idx) && EdgeDone(c, a, j, k) && |b[idx].nextPtrs| == NumControls
    requires j != idx || b[idx].nextPtrs[k] == a[idx].nextPtrs[k]
    ensures EdgeDone(c, b, j, k)
  {
    var t := a[j].nextPtrs[k].value;
    assert SameState(b[t], a[t]);
    if j == idx {
      ControlIgnoresLinks(c, AnyEnv, k, a[idx], b[idx].nextPtrs);
    } else {
      assert b[j] == a[j];
    }
  }

  /** Setting link k of node idx keeps its links before k done. */
  lemma EdgesKept(c: Config, a: seq<State>, b: seq<State>, idx: int, k: int)
    requires Grows(a, b, idx) && |b[idx].nextPtrs| == NumControls && 0 <= k < NumControls
    requires |a[idx].nextPtrs| == NumControls
    requires forall k' :: 0 <= k' < NumControls && k' != k ==> b[idx].nextPtrs[k'] == a[idx].nextPtrs[k']
    requires forall k' :: 0 <= k' < k ==> EdgeDone(c, a, idx, k')
    requires EdgeDone(c, b, idx, k)
    ensures forall k' :: 0 <= k' < k + 1 ==> EdgeDone(c, b, idx, k')
  {
    forall k' | 0 <= k' < k
      ensures EdgeDone(c, b, idx, k')
    {
      EdgeKeptGrows(c, a, b, idx, idx, k');
    }
  }

  /** The visit of node idx keeps every node that was done before it done. */
  lemma DoneKept(c: Config, a: seq<State>, b: seq<State>, idx: int, j: int)
    requires Grows(a, b, idx) && j != idx && NodeDone(c, a, j)
    requires |b[idx].nextPtrs| == NumControls
    ensures NodeDone(c, b, j)
  {
    forall k | 0 <= k < NumControls
      ensures EdgeDone(c, b, j, k)
    {
      EdgeKeptGrows(c, a, b, idx, j, k);
    }
  }

  /** After the visit of node idx, the nodes up to and including idx are done. */
  lemma VisitDone(c: Config, a: seq<State>, b: seq<State>, idx: int)
    requires Grows(a, b, idx) && |b[idx].nextPtrs| == NumControls && NodeDone(c, b, idx)
    requires forall j :: 0 <= j < idx ==> NodeDone(c, a, j)
    ensures forall j :: 0 <= j < idx + 1 ==> NodeDone(c, b, j)
  {
    forall j | 0 <= j < idx
      ensures NodeDone(c, b, j)
    {
      DoneKept(c, a, b, idx, j);
    }
  }

  /** Setting link k of node idx to a node with the key k leads to finishes that link. */
  lemma EdgeSet(c: Config, env: Env, list: seq<State>, idx: int, k: int, t: nat)
    requires ValidConfig(c) && 0 <= idx < |list| && 0 <= k < NumControls && t < |list|
    requires ValidShape(list[idx].pieceId, list[idx].orientationId)
    requires |list[idx].nextPtrs| == NumControls
    requires SameState(list[t], Control(c, env, k, list[idx]))
    ensures EdgeDone(c, SetLink(list, idx, k, t), idx, k)
  {
    var l := SetLink(list, idx, k, t);
    ControlIgnoresEnv(c, env, AnyEnv, k, list[idx]);
    ControlIgnoresLinks(c, AnyEnv, k, list[idx], l[idx].nextPtrs);
    assert SameState(l[t], list[t]);
  }

  /** Visits compose: the worklist may append and relink node idx several times. */
  lemma GrowsTrans(a: seq<State>, b: seq<State>, d: seq<State>, idx: int)
    requires Grows(a, b, idx) && Grows(b, d, idx)
    ensures Grows(a, d, idx)
  {
  }

  lemma GrowsAppend(a: seq<State>, b: seq<State>, s: State, idx: int)
    requires Grows(a, b, idx)
    ensures Grows(a, b + [s], idx)
  {
    var d := b + [s];
    assert forall j :: 0 <= j < |b| ==> d[j] == b[j];
  }

  /** Row-for-row overlap with one of the first n spawn grids. */
  predicate MeetsBefore(grid: seq<Row>, spawns: seq<seq<Row>>, n: int)
  {
    exists q :: 0 <= q < n && q < |spawns| && RowsMeet(grid, spawns[q], |grid|)
  }

  lemma MeetsNext(grid: seq<Row>, spawns: seq<seq<Row>>, n: int)
    requires 0 <= n < |spawns|
    ensures MeetsBefore(grid, spawns, n + 1) ==
      (MeetsBefore(grid, spawns, n) || RowsMeet(grid, spawns[n], |grid|))
    ensures n + 1 == |spawns| ==> (MeetsBefore(grid, spawns, n + 1) <==> Overlaps(grid, spawns))
  {
  }

  /** The constructor's innermost spawn loop: does any row of a share a cell with b's? */
  method RowsOverlap(a: seq<Row>, b: seq<Row>) returns (meet: bool)
    requires |a| == |b|
    ensures meet == RowsMeet(a, b, |a|)
  {
    meet := false;
    for y := 0 to |a|
      invariant meet == RowsMeet(a, b, y)
    {
      RowsMeetNext(a, b, y);
      if a[y] & b[y] != 0 {
        meet := true;
      }
    }
  }

  lemma RowsMeetNext(a: seq<Row>, b: seq<Row>, y: int)
    requires 0 <= y < |a| && y < |b|
    ensures RowsMeet(a, b, y + 1) == (RowsMeet(a, b, y) || a[y] & b[y] != 0)
  {
  }

  /** The constructor's loops need a non-empty allMask: every orientation has a cell. */
  lemma AllMaskNonZero(p: int, o: int)
    requires ValidShape(p, o)
    ensures AllMask(Shapes(p)[o]) != 0
  {
    var m := Shapes(p)[o];
    CatalogSolid(p, o);
    assert Bit(AllMask(m), XOffset(m));
    ZeroHasNoBit(XOffset(m));
  }

  /**
   * The builder's state: one list of nodes per piece (a linked list in memory, a sequence here,
   * an address of a node an index) and each piece's node count.
   */
  class Builder {
    const cfg: Config
    var states: seq<seq<State>>
    var numStates: seq<int>

    predicate Valid()
      reads this
    {
      ValidLists(cfg, states, numStates)
    }

    /** Every piece's list holds at least its spawn placement. */
    predicate Spawned()
      reads this
    {
      |states| == NumPieces && forall q :: 0 <= q < NumPieces ==> states[q] != []
    }

    /** The finished graph: every link of every node is set as its key says. */
    predicate Complete()
      reads this
    {
      Valid() && Spawned() &&
      forall q, j :: 0 <= q < NumPieces && 0 <= j < |states[q]| ==> NodeDone(cfg, states[q], j)
    }

    /** The shape of the builder's fields that the constructor relies on. */
    predicate Shaped()
      reads this
    {
      ValidConfig(cfg) && |states| == NumPieces && |numStates| == NumPieces &&
      forall q :: 0 <= q < NumPieces && states[q] != [] ==> |states[q][0].grid| == cfg.fullHeight
    }

    lemma ValidShaped()
      requires Valid()
      ensures Shaped()
    {
      forall q | 0 <= q < NumPieces && states[q] != []
        ensures |states[q][0].grid| == cfg.fullHeight
      {
        assert ValidNode(cfg, q, 0, |states[q]|, Heads(states), states[q][0]);
      }
    }

    /** What the constructor reads when it builds a placement of piece p. */
    function EnvFor(p: int): Env
      reads this
      requires |states| == NumPieces && |numStates| == NumPieces && 0 <= p < NumPieces
    {
      Env(Heads(states), states[p] == [], numStates[p])
    }

    /** All lists start empty with no nodes counted. */
    constructor (c: Config)
      requires ValidConfig(c)
      ensures cfg == c && Valid()
      ensures forall q :: 0 <= q < NumPieces ==> states[q] == [] && numStates[q] == 0
    {
      cfg := c;
      states := [[], [], [], [], [], [], []];
      numStates := [0, 0, 0, 0, 0, 0, 0];
    }

    /**
     * The State constructor: offsets, dimensions, span and grid of the piece at its key, the
     * outOfBounds and overlapsSpawn flags, and the next free index as i.
     */
    method NewState(p: int, o: int, x: int, y: int) returns (s: State)
      requires Shaped() && ValidShape(p, o)
      requires states[p] != [] ==> Spawned()
      ensures s == StateOf(cfg, EnvFor(p), p, o, x, y)
    {
      var b := MeasureBox(p, o);
      var yTop := y + b.yOffset;
      var yBottom := yTop + b.yDim;
      var grid := FillGrid(cfg, Catalog(cfg)[p].masks[o], x, y);
      var overlapsSpawn := SpawnOverlap(p, grid);
      s := State(p, o, x, y, b.xOffset, b.yOffset, b.xDim, b.yDim, yTop, yBottom, grid, NoPtrs,
        yBottom <= cfg.spareLines, overlapsSpawn, numStates[p]);
    }

    /**
     * The spawn check: a piece's first placement overlaps its spawn; any later one overlaps
     * exactly when it shares a cell with some piece's spawn grid.
     */
    method SpawnOverlap(p: int, grid: seq<Row>) returns (b: bool)
      requires Shaped() && 0 <= p < NumPieces && |grid| == cfg.fullHeight
      requires states[p] != [] ==> Spawned()
      ensures b == (states[p] == [] || Overlaps(grid, Heads(states)))
    {
      if states[p] == [] {
        return true;
      }
      b := false;
      for q := 0 to NumPieces
        invariant b == MeetsBefore(grid, Heads(states), q)
      {
        var meet := RowsOverlap(grid, states[q][0].grid);
        if meet {
          b := true;
        }
        MeetsNext(grid, Heads(states), q);
      }
    }

    /** The first node of the state's piece that is the same placement, if there is one. */
    method LocateState(s: State) returns (r: Option<nat>)
      requires |states| == NumPieces && 0 <= s.pieceId < NumPieces
      ensures r.None? ==>
        forall j :: 0 <= j < |states[s.pieceId]| ==> !SameState(s, states[s.pieceId][j])
      ensures r.Some? ==> r.value < |states[s.pieceId]| && SameState(s, states[s.pieceId][r.value])
      ensures r.Some? ==> forall j :: 0 <= j < r.value ==> !SameState(s, states[s.pieceId][j])
    {
      var list := states[s.pieceId];
      var j := 0;
      while j < |list|
        invariant 0 <= j <= |list|
        invariant forall j' :: 0 <= j' < j ==> !SameState(s, list[j'])
      {
        if SameState(s, list[j]) {
          return Some(j);
        }
        j := j + 1;
      }
      return None;
    }

    /** Append the state at the tail of its piece's list and count it; return its index. */
    method StoreState(s: State) returns (j: nat)
      requires |states| == NumPieces && |numStates| == NumPieces && 0 <= s.pieceId < NumPieces
      modifies this
      ensures states == old(states)[s.pieceId := old(states[s.pieceId]) + [s]]
      ensures numStates == old(numStates)[s.pieceId := old(numStates[s.pieceId]) + 1]
      ensures j == |old(states[s.pieceId])|
    {
      j := |states[s.pieceId]|;
      states := states[s.pieceId := states[s.pieceId] + [s]];
      numStates := numStates[s.pieceId := numStates[s.pieceId] + 1];
    }

    /**
     * The index of the node for the state: the first same placement already stored, with
     * nothing changed, or else a new node appended at the tail and counted.
     */
    method GetStatePtr(s: State) returns (j: nat)
      requires |states| == NumPieces && |numStates| == NumPieces && 0 <= s.pieceId < NumPieces
      modifies this
      ensures j <= |old(states[s.pieceId])|
      ensures j < |old(states[s.pieceId])| ==>
        states == old(states) && numStates == old(numStates) &&
        SameState(s, states[s.pieceId][j]) &&
        forall j' :: 0 <= j' < j ==> !SameState(s, states[s.pieceId][j'])
      ensures j == |old(states[s.pieceId])| ==>
        (forall j' :: 0 <= j' < j ==> !SameState(s, old(states[s.pieceId])[j'])) &&
        states == old(states)[s.pieceId := old(states[s.pieceId]) + [s]] &&
        |numStates| == NumPieces && numStates[s.pieceId] == old(numStates[s.pieceId]) + 1 &&
        forall q :: 0 <= q < NumPieces && q != s.pieceId ==> numStates[q] == old(numStates[q])
    {
      var found := LocateState(s);
      if found.Some? {
        j := found.value;
      } else {
        j := StoreState(s);
      }
    }

    /** controls[k]: rotate, left, right or down applied to node s, built in this builder. */
    method ApplyControl(k: int, s: State) returns (r: State)
      requires Shaped() && Spawned() && 0 <= k < NumControls
      requires ValidShape(s.pieceId, s.orientationId)
      ensures r == Control(cfg, EnvFor(s.pieceId), k, s)
    {
      if k == 0 {
        r := RotateState(s);
      } else if k == 1 {
        r := LeftState(s);
      } else if k == 2 {
        r := RightState(s);
      } else {
        r := DownState(s);
      }
    }

    /** rotate, building the turned placement with the constructor. */
    method RotateState(s: State) returns (r: State)
      requires Shaped() && Spawned() && ValidShape(s.pieceId, s.orientationId)
      ensures r == Rotate(cfg, EnvFor(s.pieceId), s)
    {
      var newP := NewState(s.pieceId, NextOrientation(s.pieceId, s.orientationId), s.xPos, s.yPos);
      RotateBuilds(cfg, EnvFor(s.pieceId), s, newP);
      if newP.xPos + newP.xOffset < 0
        || newP.xPos + newP.xOffset + newP.xDim > cfg.width
        || newP.yPos + newP.yOffset < 0
        || newP.yPos + newP.yOffset + newP.yDim > cfg.fullHeight
      {
        r := s;
      } else {
        r := newP;
      }
    }

    /** left, building the moved placement with the constructor. */
    method LeftState(s: State) returns (r: State)
      requires Shaped() && Spawned() && ValidShape(s.pieceId, s.orientationId)
      ensures r == Left(cfg, EnvFor(s.pieceId), s)
    {
      if s.xPos + s.xOffset + s.xDim >= cfg.width {
        r := s;
      } else {
        r := NewState(s.pieceId, s.orientationId, s.xPos + 1, s.yPos);
        LeftBuilds(cfg, EnvFor(s.pieceId), s);
      }
    }

    /** right, building the moved placement with the constructor. */
    method RightState(s: State) returns (r: State)
      requires Shaped() && Spawned() && ValidShape(s.pieceId, s.orientationId)
      ensures r == Right(cfg, EnvFor(s.pieceId), s)
    {
      if s.xPos + s.xOffset <= 0 {
        r := s;
      } else {
        r := NewState(s.pieceId, s.orientationId, s.xPos - 1, s.yPos);
        RightBuilds(cfg, EnvFor(s.pieceId), s);
      }
    }

    /** down, building the moved placement with the constructor. */
    method DownState(s: State) returns (r: State)
      requires Shaped() && Spawned() && ValidShape(s.pieceId, s.orientationId)
      ensures r == Down(cfg, EnvFor(s.pieceId), s)
    {
      if s.yPos + s.yOffset + s.yDim >= cfg.fullHeight {
        r := s;
      } else {
        r := NewState(s.pieceId, s.orientationId, s.xPos, s.yPos + 1);
        DownBuilds(cfg, EnvFor(s.pieceId), s);
      }
    }

    /** Piece p's spawn placement, built while its list is still empty. */
    method SpawnState(p: int) returns (s: State)
      requires Shaped() && 0 <= p < NumPieces && states[p] == [] && numStates[p] == 0
      ensures ValidNode(cfg, p, 0, 1, [], s) && IsSpawn(cfg, p, s) && s.overlapsSpawn
    {
      var pc := Catalog(cfg)[p];
      s := NewState(p, 0, pc.spawnXPos + Margin(cfg), pc.spawnYPos);
      SpawnBuilds(cfg, EnvFor(p), p, pc.spawnXPos + Margin(cfg), pc.spawnYPos, s);
      SpawnNodeValid(cfg, [], p, s);
    }

    /** The first phase of main: start each piece's list with its spawn placement. */
    method StartLists()
      requires Valid() && forall q :: 0 <= q < NumPieces ==> states[q] == []
      modifies this
      ensures Valid() && Spawned()
      ensures forall q :: 0 <= q < NumPieces ==> |states[q]| == 1
    {
      for p := 0 to NumPieces
        invariant Valid()
        invariant forall q :: 0 <= q < p ==> |states[q]| == 1
        invariant forall q :: p <= q < NumPieces ==> states[q] == []
      {
        ValidShaped();
        var start := SpawnState(p);
        ghost var lists0, nums0 := states, numStates;
        var _ := StoreState(start);
        StartList(cfg, lists0, nums0, p, start, states, numStates);
      }
    }

    /** The second phase of main: walk every list, growing as it goes, filling in links. */
    method Generate()
      requires Valid() && Spawned()
      modifies this
      ensures Complete()
    {
      for p := 0 to NumPieces
        invariant Valid() && Spawned()
        invariant forall q, j :: 0 <= q < p && 0 <= j < |states[q]| ==> NodeDone(cfg, states[q], j)
      {
        Expand(p);
      }
    }

    /** Visit the nodes of piece p's list in order, including those the visits append. */
    method Expand(p: int)
      requires Valid() && Spawned() && 0 <= p < NumPieces
      modifies this
      ensures Valid() && Spawned()
      ensures forall q :: 0 <= q < NumPieces && q != p ==> states[q] == old(states[q])
      ensures forall j :: 0 <= j < |states[p]| ==> NodeDone(cfg, states[p], j)
    {
      var idx := 0;
      ListBound(cfg, p, states[p], Heads(states));
      while idx < |states[p]|
        invariant Valid() && Spawned()
        invariant 0 <= idx <= |states[p]| <= |KeyBox(cfg)|
        invariant forall q :: 0 <= q < NumPieces && q != p ==> states[q] == old(states[q])
        invariant forall j :: 0 <= j < idx ==> NodeDone(cfg, states[p], j)
        decreases |KeyBox(cfg)| - |states[p]|, |states[p]| - idx
      {
        ghost var before := states[p];
        Link(p, idx);
        VisitDone(cfg, before, states[p], idx);
        ListBound(cfg, p, states[p], Heads(states));
        idx := idx + 1;
      }
    }

    /** Fill in the four links of node idx of piece p's list. */
    method Link(p: int, idx: int)
      requires Valid() && Spawned() && 0 <= p < NumPieces && 0 <= idx < |states[p]|
      modifies this
      ensures Valid() && Spawned()
      ensures forall q :: 0 <= q < NumPieces && q != p ==> states[q] == old(states[q])
      ensures Grows(old(states[p]), states[p], idx) && |states[p][idx].nextPtrs| == NumControls
      ensures NodeDone(cfg, states[p], idx)
    {
      assert ValidNode(cfg, p, idx, |states[p]|, Heads(states), states[p][idx]);
      for k := 0 to NumControls
        invariant Valid() && Spawned()
        invariant forall q :: 0 <= q < NumPieces && q != p ==> states[q] == old(states[q])
        invariant Grows(old(states[p]), states[p], idx) && |states[p][idx].nextPtrs| == NumControls
        invariant forall k' :: 0 <= k' < k ==> EdgeDone(cfg, states[p], idx, k')
      {
        ghost var before := states[p];
        LinkKey(p, idx, k);
        GrowsTrans(old(states[p]), before, states[p], idx);
        EdgesKept(cfg, before, states[p], idx, k);
      }
    }

    /** Link k of node idx: find or store the node the key leads to and record its index. */
    method LinkKey(p: int, idx: int, k: int)
      requires Valid() && Spawned() && 0 <= p < NumPieces && 0 <= idx < |states[p]|
      requires 0 <= k < NumControls
      modifies this
      ensures Valid() && Spawned()
      ensures forall q :: 0 <= q < NumPieces && q != p ==> states[q] == old(states[q])
      ensures Grows(old(states[p]), states[p], idx) && |states[p][idx].nextPtrs| == NumControls
      ensures forall k' :: 0 <= k' < NumControls && k' != k ==>
        states[p][idx].nextPtrs[k'] == old(states[p][idx].nextPtrs[k'])
      ensures EdgeDone(cfg, states[p], idx, k)
    {
      var t := Target(p, idx, k);
      LinkValid(cfg, old(states[p]), states, numStates, p, idx, k, t);
      states := states[p := SetLink(states[p], idx, k, t)];
    }

    /** The index of the node key k leads to from node idx, stored first if it is new. */
    method Target(p: int, idx: int, k: int) returns (t: nat)
      requires Valid() && Spawned() && 0 <= p < NumPieces && 0 <= idx < |states[p]|
      requires 0 <= k < NumControls
      modifies this
      ensures Valid() && Spawned()
      ensures forall q :: 0 <= q < NumPieces && q != p ==> states[q] == old(states[q])
      ensures Grows(old(states[p]), states[p], idx) && states[p][idx] == old(states[p][idx])
      ensures t < |states[p]| && SameState(states[p][t], Control(cfg, AnyEnv, k, states[p][idx]))
    {
      ValidShaped();
      var node := states[p][idx];
      NodeMoves(cfg, states, numStates, p, idx, k);
      ghost var lists0 := states;
      ghost var nums0 := numStates;
      ghost var env := EnvFor(p);
      var next := ApplyControl(k, node);
      assert next == Control(cfg, env, k, node) && next.pieceId == p;
      t := GetStatePtr(next);
      StoredNext(cfg, lists0, nums0, env, p, idx, k, next, t, states, numStates);
    }
  }

  // The constructor call each key method makes builds the placement its function gives.

  lemma RotateBuilds(c: Config, env: Env, s: State, newP: State)
    requires ValidConfig(c) && ValidShape(s.pieceId, s.orientationId)
    requires newP == StateOf(c, env, s.pieceId, NextOrientation(s.pieceId, s.orientationId),
      s.xPos, s.yPos)
    ensures Rotate(c, env, s) ==
      if newP.xPos + newP.xOffset < 0
        || newP.xPos + newP.xOffset + newP.xDim > c.width
        || newP.yPos + newP.yOffset < 0
        || newP.yPos + newP.yOffset + newP.yDim > c.fullHeight
      then s else newP
  {
  }

  lemma LeftBuilds(c: Config, env: Env, s: State)
    requires ValidConfig(c) && ValidShape(s.pieceId, s.orientationId)
    requires s.xPos + s.xOffset + s.xDim < c.width
    ensures Left(c, env, s) == StateOf(c, env, s.pieceId, s.orientationId, s.xPos + 1, s.yPos)
  {
  }

  lemma RightBuilds(c: Config, env: Env, s: State)
    requires ValidConfig(c) && ValidShape(s.pieceId, s.orientationId)
    requires s.xPos + s.xOffset > 0
    ensures Right(c, env, s) == StateOf(c, env, s.pieceId, s.orientationId, s.xPos - 1, s.yPos)
  {
  }

  lemma DownBuilds(c: Config, env: Env, s: State)
    requires ValidConfig(c) && ValidShape(s.pieceId, s.orientationId)
    requires s.yPos + s.yOffset + s.yDim < c.fullHeight
    ensures Down(c, env, s) == StateOf(c, env, s.pieceId, s.orientationId, s.xPos, s.yPos + 1)
  {
  }

  /** A node's key moves it within its piece. */
  lemma NodeMoves(c: Config, lists: seq<seq<State>>, nums: seq<int>, p: int, idx: int, k: int)
    requires ValidLists(c, lists, nums) && 0 <= p < NumPieces && 0 <= idx < |lists[p]|
    requires 0 <= k < NumControls
    ensures var s := lists[p][idx];
      s.pieceId == p && ValidShape(s.pieceId, s.orientationId) &&
      Control(c, Env(Heads(lists), lists[p] == [], nums[p]), k, s).pieceId == p
  {
    var s := lists[p][idx];
    assert ValidNode(c, p, idx, |lists[p]|, Heads(lists), s);
    ControlKeepsInBounds(c, Env(Heads(lists), lists[p] == [], nums[p]), k, s);
  }

  /**
   * After getStatePtr, whether it found the placement key k gives from node idx or stored it,
   * the lists are valid, node idx is untouched and t names a node with that placement.
   */
  lemma StoredNext(c: Config, lists0: seq<seq<State>>, nums0: seq<int>, env: Env, p: int,
    idx: int, k: int, next: State, t: int, lists1: seq<seq<State>>, nums1: seq<int>)
    requires ValidLists(c, lists0, nums0) && 0 <= p < NumPieces && 0 <= idx < |lists0[p]|
    requires 0 <= k < NumControls && env == Env(Heads(lists0), lists0[p] == [], nums0[p])
    requires next == Control(c, env, k, lists0[p][idx])
    requires 0 <= t <= |lists0[p]|
    requires t < |lists0[p]| ==>
      lists1 == lists0 && nums1 == nums0 && SameState(next, lists1[p][t])
    requires t == |lists0[p]| ==>
      (forall j :: 0 <= j < t ==> !SameState(next, lists0[p][j])) &&
      lists1 == lists0[p := lists0[p] + [next]] && |nums1| == NumPieces &&
      nums1[p] == nums0[p] + 1 && forall q :: 0 <= q < NumPieces && q != p ==> nums1[q] == nums0[q]
    ensures ValidLists(c, lists1, nums1)
    ensures forall q :: 0 <= q < NumPieces && q != p ==> lists1[q] == lists0[q]
    ensures Grows(lists0[p], lists1[p], idx) && lists1[p][idx] == lists0[p][idx]
    ensures t < |lists1[p]| && SameState(lists1[p][t], Control(c, AnyEnv, k, lists1[p][idx]))
  {
    var node := lists0[p][idx];
    assert ValidNode(c, p, idx, |lists0[p]|, Heads(lists0), node);
    ControlIgnoresEnv(c, env, AnyEnv, k, node);
    if t == |lists0[p]| {
      AppendNext(c, lists0, nums0, p, idx, k, next);
      GrowsAppend(lists0[p], lists0[p], next, idx);
      assert lists1[p] == lists0[p] + [next];
      CountBumped(nums0, nums1, p);
    }
  }

  lemma CountBumped(nums0: seq<int>, nums1: seq<int>, p: int)
    requires 0 <= p < |nums0| == |nums1|
    requires nums1[p] == nums0[p] + 1 && forall q :: 0 <= q < |nums0| && q != p ==> nums1[q] == nums0[q]
    ensures nums1 == nums0[p := nums0[p] + 1]
  {
  }

  /** Recording link k of node idx as t, the node key k leads to, keeps the lists valid. */
  lemma LinkValid(c: Config, list0: seq<State>, lists: seq<seq<State>>, nums: seq<int>, p: int,
    idx: int, k: int, t: nat)
    requires ValidLists(c, lists, nums) && 0 <= p < NumPieces && 0 <= idx < |lists[p]|
    requires Grows(list0, lists[p], idx) && lists[p][idx] == list0[idx]
    requires 0 <= k < NumControls && t < |lists[p]|
    requires SameState(lists[p][t], Control(c, AnyEnv, k, lists[p][idx]))
    ensures |lists[p][idx].nextPtrs| == NumControls
    ensures ValidLists(c, lists[p := SetLink(lists[p], idx, k, t)], nums)
    ensures Grows(list0, SetLink(lists[p], idx, k, t), idx)
    ensures |SetLink(lists[p], idx, k, t)[idx].nextPtrs| == NumControls
    ensures forall k' :: 0 <= k' < NumControls && k' != k ==>
      SetLink(lists[p], idx, k, t)[idx].nextPtrs[k'] == list0[idx].nextPtrs[k']
    ensures EdgeDone(c, SetLink(lists[p], idx, k, t), idx, k)
  {
    assert ValidNode(c, p, idx, |lists[p]|, Heads(lists), lists[p][idx]);
    var l := SetLink(lists[p], idx, k, t);
    SetLinkValid(c, p, lists[p], Heads(lists), idx, k, t);
    ReplaceList(c, lists, nums, p, l, nums);
    EdgeSet(c, AnyEnv, lists[p], idx, k, t);
    GrowsTrans(list0, lists[p], l, idx);
  }

  /**
   * Storing the placement a key gives, when it is not in the list yet, keeps the lists valid:
   * it lies inside the well, belongs to the same piece and is built from its own key.
   */
  lemma AppendNext(c: Config, lists: seq<seq<State>>, nums: seq<int>, p: int, idx: int, k: int,
    next: State)
    requires ValidLists(c, lists, nums) && 0 <= p < NumPieces && 0 <= idx < |lists[p]|
    requires 0 <= k < NumControls
    requires next == Control(c, Env(Heads(lists), false, nums[p]), k, lists[p][idx])
    requires forall j :: 0 <= j < |lists[p]| ==> !SameState(next, lists[p][j])
    ensures ValidLists(c, lists[p := lists[p] + [next]], nums[p := nums[p] + 1])
  {
    var node := lists[p][idx];
    var env := Env(Heads(lists), false, nums[p]);
    assert ValidNode(c, p, idx, |lists[p]|, Heads(lists), node);
    ControlKeepsInBounds(c, env, k, node);
    ControlBuildsOrStays(c, env, k, node);
    assert !SameState(next, node);
    FreshNodeValid(c, Heads(lists), |lists[p]|, p, next.orientationId, next.xPos, next.yPos);
    AppendValid(c, p, lists[p], Heads(lists), next);
    ReplaceList(c, lists, nums, p, lists[p] + [next], nums[p := nums[p] + 1]);
  }
}
