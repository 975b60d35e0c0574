/**
 * The game the solver in tetris.c searches, as values: the generated state table, the well,
 * the depth-first search for landing sites that populateLandings performs, and the winner of
 * a well when the AI picks each next piece and the player places it.
 */
module Game {
  import opened Bits
  import opened Core

  /** Who wins a well: AI (0 in the source) or PLAYER (1). */
  datatype Winner = AI | Player

  /**
   * One entry of the generated table, for one piece: the rows [yTop, yBottom) the placement
   * spans, its grid, the index of the entry each key leads to, and its two flags.
   */
  datatype Node = Node(yTop: int, yBottom: int, grid: seq<Row>, next: seq<int>,
                       outOfBounds: bool, overlapsSpawn: bool)

  /**
   * An entry of a list of n entries: its span lies in the well, its grid is empty outside the
   * span and covers a cell in the top row of the span, and its four links stay in the list.
   */
  predicate ValidEntry(c: Config, n: int, s: Node)
  {
    0 <= s.yTop < s.yBottom <= c.fullHeight && |s.grid| == c.fullHeight &&
    (forall y :: 0 <= y < c.fullHeight && !(s.yTop <= y < s.yBottom) ==> s.grid[y] == 0) &&
    s.grid[s.yTop] != 0 &&
    |s.next| == NumControls && (forall k :: 0 <= k < NumControls ==> 0 <= s.next[k] < n)
  }

  /** Every entry of one piece's list is valid. */
  predicate WellFormed(c: Config, nodes: seq<Node>)
  {
    forall j :: 0 <= j < |nodes| ==> ValidEntry(c, |nodes|, nodes[j])
  }

  /** No row of a shares a cell with the same row of b. */
  predicate Disjoint(a: seq<Row>, b: seq<Row>)
  {
    forall y :: 0 <= y < |a| && y < |b| ==> a[y] & b[y] == 0
  }

  /**
   * The table the solver reads: one non-empty list per piece, entry 0 being the spawn
   * placement, and a placement whose overlapsSpawn flag is clear shares no cell with any
   * spawn placement.
   */
  predicate ValidTable(c: Config, t: seq<seq<Node>>)
  {
    ValidConfig(c) && |t| == NumPieces &&
    (forall p :: 0 <= p < NumPieces ==> |t[p]| > 0 && WellFormed(c, t[p])) &&
    (forall p, j, q :: 0 <= p < NumPieces && 0 <= j < |t[p]| && 0 <= q < NumPieces ==>
       t[p][j].overlapsSpawn || Disjoint(t[p][j].grid, t[q][0].grid))
  }

  /** The well shares no cell with any spawn placement. */
  predicate WellClear(t: seq<seq<Node>>, well: seq<Row>)
  {
    forall q :: 0 <= q < |t| && |t[q]| > 0 ==> Disjoint(well, t[q][0].grid)
  }

  /** A well the search can start from. */
  predicate Playable(c: Config, t: seq<seq<Node>>, well: seq<Row>)
  {
    ValidTable(c, t) && |well| == c.fullHeight && WellClear(t, well)
  }

  /** Row y lies in the placement's span and shares a cell with the well. */
  predicate MeetsAt(well: seq<Row>, s: Node, y: int)
  {
    s.yTop <= y < s.yBottom && 0 <= y < |well| && y < |s.grid| && well[y] & s.grid[y] != 0
  }

  /** Some row the placement spans shares a cell with the well. */
  predicate Collides(well: seq<Row>, s: Node)
  {
    exists y :: s.yTop <= y < s.yBottom && MeetsAt(well, s, y)
  }

  /** The C test well[y] & grid[y] != 0, on the row values read out, finds a meeting row. */
  lemma MeetsRow(well: seq<Row>, s: Node, y: int, a: Row, g: Row)
    requires s.yTop <= y < s.yBottom && 0 <= y < |well| && y < |s.grid|
    requires a == well[y] && g == s.grid[y] && a & g != 0
    ensures MeetsAt(well, s, y)
  {
  }

  /** Row y lies in the placement's span and is full once it lands, (well[y] | grid[y]) == LINETRIGGER. */
  predicate FillsAt(c: Config, well: seq<Row>, s: Node, y: int)
    requires ValidConfig(c)
  {
    s.yTop <= y < s.yBottom && 0 <= y < |well| && y < |s.grid| && well[y] | s.grid[y] == LineTrigger(c)
  }

  /** Landing the placement fills some row it spans. */
  predicate LineAt(c: Config, well: seq<Row>, s: Node)
    requires ValidConfig(c)
  {
    exists y :: s.yTop <= y < s.yBottom && FillsAt(c, well, s, y)
  }

  /** Two rows meet, a & g != 0, exactly when they fill a common column. */
  lemma RowsShareCell(a: Row, g: Row)
    ensures a & g != 0 <==> exists x :: Bit(a, x) && Bit(g, x)
  {
    var r := a & g;
    if r != 0 {
      var x := NonZeroHasBit(r);
      BitAnd(a, g, x);
    }
    if exists x :: Bit(a, x) && Bit(g, x) {
      var x :| Bit(a, x) && Bit(g, x);
      BitAnd(a, g, x);
      ZeroHasNoBit(x);
    }
  }

  /** A collision is a cell that the well and the placement both fill, in a row the placement spans. */
  lemma CollidesCells(well: seq<Row>, s: Node)
    ensures Collides(well, s) <==>
      exists y, x :: s.yTop <= y < s.yBottom && 0 <= y < |well| && y < |s.grid| &&
        Bit(well[y], x) && Bit(s.grid[y], x)
  {
    if Collides(well, s) {
      var y :| s.yTop <= y < s.yBottom && MeetsAt(well, s, y);
      RowsShareCell(well[y], s.grid[y]);
      var x :| Bit(well[y], x) && Bit(s.grid[y], x);
    }
    if exists y, x :: s.yTop <= y < s.yBottom && 0 <= y < |well| && y < |s.grid| &&
        Bit(well[y], x) && Bit(s.grid[y], x) {
      var y, x :| s.yTop <= y < s.yBottom && 0 <= y < |well| && y < |s.grid| &&
        Bit(well[y], x) && Bit(s.grid[y], x);
      RowsShareCell(well[y], s.grid[y]);
      assert MeetsAt(well, s, y);
    }
  }

  /** Once g lands on a, the row holds every column of the well and nothing else. */
  predicate FullAfter(c: Config, a: Row, g: Row)
  {
    forall x :: 0 <= x < 16 ==> (Bit(a, x) || Bit(g, x) <==> x < c.width)
  }

  /** (a | g) == LINETRIGGER exactly when the row is full once g lands on a. */
  lemma FullRow(c: Config, a: Row, g: Row)
    requires ValidConfig(c)
    ensures a | g == LineTrigger(c) <==> FullAfter(c, a, g)
  {
    var r := a | g;
    var full := LineTrigger(c);
    forall x | 0 <= x < 16
      ensures Bit(r, x) <==> Bit(a, x) || Bit(g, x)
    {
      BitOr(a, g, x);
    }
    if FullAfter(c, a, g) {
      RowsEqual(r, full);
    }
  }

  /** Row y is completed exactly when, after landing, it fills columns 0 .. WIDTH-1 and no other. */
  lemma FillsAtCells(c: Config, well: seq<Row>, s: Node, y: int)
    requires ValidConfig(c) && s.yTop <= y < s.yBottom && 0 <= y < |well| && y < |s.grid|
    ensures FillsAt(c, well, s, y) <==> FullAfter(c, well[y], s.grid[y])
  {
    FullRow(c, well[y], s.grid[y]);
  }

  /** Landing the placement completes a line exactly when some row it spans becomes full. */
  lemma LineAtCells(c: Config, well: seq<Row>, s: Node)
    requires ValidConfig(c)
    ensures LineAt(c, well, s) <==>
      exists y :: s.yTop <= y < s.yBottom && 0 <= y < |well| && y < |s.grid| &&
        FullAfter(c, well[y], s.grid[y])
  {
    forall y | s.yTop <= y < s.yBottom && 0 <= y < |well| && y < |s.grid|
      ensures FillsAt(c, well, s, y) <==> FullAfter(c, well[y], s.grid[y])
    {
      FillsAtCells(c, well, s, y);
    }
  }

  /** The well with the placement's grid ORed in, row by row. */
  function Add(well: seq<Row>, g: seq<Row>): (r: seq<Row>)
    requires |g| == |well|
    ensures |r| == |well|
  {
    seq(|well|, y requires 0 <= y < |well| => well[y] | g[y])
  }

  /** The well with the placement's grid cleared again, row by row (&= ~grid). */
  function Remove(well: seq<Row>, g: seq<Row>): (r: seq<Row>)
    requires |g| == |well|
    ensures |r| == |well|
  {
    seq(|well|, y requires 0 <= y < |well| => well[y] & !g[y])
  }

  /** Removing a grid that was added to a well it did not meet gives back the well. */
  lemma RemoveAdd(well: seq<Row>, g: seq<Row>)
    requires |g| == |well| && Disjoint(well, g)
    ensures Remove(Add(well, g), g) == well
  {
    assert forall y :: 0 <= y < |well| ==> Remove(Add(well, g), g)[y] == well[y];
  }

  /** The well with rows [lo, hi) of g ORed in and the other rows left alone. */
  function AddRows(well: seq<Row>, g: seq<Row>, lo: int, hi: int): (r: seq<Row>)
    requires |g| == |well|
    ensures |r| == |well|
  {
    seq(|well|, y requires 0 <= y < |well| => if lo <= y < hi then well[y] | g[y] else well[y])
  }

  /** The well with rows [lo, hi) of g cleared and the other rows left alone. */
  function RemoveRows(well: seq<Row>, g: seq<Row>, lo: int, hi: int): (r: seq<Row>)
    requires |g| == |well|
    ensures |r| == |well|
  {
    seq(|well|, y requires 0 <= y < |well| => if lo <= y < hi then well[y] & !g[y] else well[y])
  }

  /** One more row of the span: row hi takes its new value. */
  lemma AddRowsStep(well: seq<Row>, g: seq<Row>, lo: int, hi: int)
    requires |g| == |well| && 0 <= lo <= hi < |well|
    ensures AddRows(well, g, lo, hi + 1) == AddRows(well, g, lo, hi)[hi := well[hi] | g[hi]]
  {
    var a, b := AddRows(well, g, lo, hi + 1), AddRows(well, g, lo, hi)[hi := well[hi] | g[hi]];
    forall y | 0 <= y < |well|
      ensures a[y] == b[y]
    {
    }
  }

  /** One more row of the span: row hi takes its new value. */
  lemma RemoveRowsStep(well: seq<Row>, g: seq<Row>, lo: int, hi: int)
    requires |g| == |well| && 0 <= lo <= hi < |well|
    ensures RemoveRows(well, g, lo, hi + 1) == RemoveRows(well, g, lo, hi)[hi := well[hi] & !g[hi]]
  {
    var a, b := RemoveRows(well, g, lo, hi + 1), RemoveRows(well, g, lo, hi)[hi := well[hi] & !g[hi]];
    forall y | 0 <= y < |well|
      ensures a[y] == b[y]
    {
    }
  }

  /** The loop step of adding a grid: the rows done so far, with row hi ORed in. */
  lemma AddRowsNext(well: seq<Row>, g: seq<Row>, lo: int, hi: int, before: seq<Row>, v: Row)
    requires |g| == |well| && 0 <= lo <= hi < |well|
    requires before == AddRows(well, g, lo, hi) && v == before[hi] | g[hi]
    ensures before[hi := v] == AddRows(well, g, lo, hi + 1)
  {
    AddRowsStep(well, g, lo, hi);
  }

  /** The loop step of removing a grid: the rows done so far, with row hi cleared. */
  lemma RemoveRowsNext(well: seq<Row>, g: seq<Row>, lo: int, hi: int, before: seq<Row>, v: Row)
    requires |g| == |well| && 0 <= lo <= hi < |well|
    requires before == RemoveRows(well, g, lo, hi) && v == before[hi] & !g[hi]
    ensures before[hi := v] == RemoveRows(well, g, lo, hi + 1)
  {
    RemoveRowsStep(well, g, lo, hi);
  }

  /** Over the whole span of a grid that is empty outside it, ORing the span ORs the grid. */
  lemma AddRowsSpan(well: seq<Row>, g: seq<Row>, lo: int, hi: int)
    requires |g| == |well| && forall y :: 0 <= y < |well| && !(lo <= y < hi) ==> g[y] == 0
    ensures AddRows(well, g, lo, hi) == Add(well, g)
  {
    var a, b := AddRows(well, g, lo, hi), Add(well, g);
    forall y | 0 <= y < |well|
      ensures a[y] == b[y]
    {
      if !(lo <= y < hi) {
        ZeroRow(well[y], g[y]);
      }
    }
  }

  /** Over the whole span of a grid that is empty outside it, clearing the span clears the grid. */
  lemma RemoveRowsSpan(well: seq<Row>, g: seq<Row>, lo: int, hi: int)
    requires |g| == |well| && forall y :: 0 <= y < |well| && !(lo <= y < hi) ==> g[y] == 0
    ensures RemoveRows(well, g, lo, hi) == Remove(well, g)
  {
    var a, b := RemoveRows(well, g, lo, hi), Remove(well, g);
    forall y | 0 <= y < |well|
      ensures a[y] == b[y]
    {
      if !(lo <= y < hi) {
        ZeroRow(well[y], g[y]);
      }
    }
  }

  lemma ZeroRow(w: Row, g: Row)
    requires g == 0
    ensures w | g == w && w & !g == w
  {
  }

  /** The empty well of height h, as main sets it up. */
  function Empty(h: nat): (well: seq<Row>)
    ensures |well| == h && forall y :: 0 <= y < h ==> well[y] == 0
  {
    seq(h, y => 0)
  }

  /** The empty well is clear of every spawn placement. */
  lemma EmptyPlayable(c: Config, t: seq<seq<Node>>)
    requires ValidTable(c, t)
    ensures Playable(c, t, Empty(c.fullHeight))
  {
    forall q, y | 0 <= q < |t| && |t[q]| > 0 && 0 <= y < c.fullHeight && y < |t[q][0].grid|
      ensures Empty(c.fullHeight)[y] & t[q][0].grid[y] == 0
    {
      ZeroAnd(Empty(c.fullHeight)[y], t[q][0].grid[y]);
    }
  }

  lemma ZeroAnd(a: Row, b: Row)
    requires a == 0
    ensures a & b == 0
  {
  }

  /** A placement that does not collide shares no cell with the well in any row. */
  lemma NoCollisionDisjoint(c: Config, n: int, well: seq<Row>, s: Node)
    requires ValidEntry(c, n, s) && |well| == c.fullHeight && !Collides(well, s)
    ensures Disjoint(well, s.grid)
  {
    forall y | 0 <= y < |well|
      ensures well[y] & s.grid[y] == 0
    {
      RowApart(well[y], s.grid[y], s.yTop <= y < s.yBottom, MeetsAt(well, s, y));
    }
  }

  /** A row the placement does not meet: inside the span they share no cell, outside it the grid row is empty. */
  lemma RowApart(w: Row, g: Row, inSpan: bool, meets: bool)
    requires meets == (inSpan && w & g != 0) && !meets
    requires !inSpan ==> g == 0
    ensures w & g == 0
  {
  }

  /** Cell i of the well, column i % 16 of row i / 16, is filled. */
  predicate Filled(well: seq<Row>, i: int)
    requires 0 <= i < 16 * |well|
  {
    Bit(well[i / 16], i % 16)
  }

  /** Empty cells among cells 0 .. i-1 of the well. */
  function VacantCells(well: seq<Row>, i: nat): nat
    requires i <= 16 * |well|
  {
    if i == 0 then 0 else VacantCells(well, i - 1) + (if Filled(well, i - 1) then 0 else 1)
  }

  /** Empty cells of the well, counting all sixteen columns of each row. */
  function Vacancies(well: seq<Row>): nat
  {
    VacantCells(well, 16 * |well|)
  }

  /** Every cell of the empty well is vacant. */
  lemma VacanciesEmpty(h: nat)
    ensures Vacancies(Empty(h)) == 16 * h
  {
    VacantEmpty(h, 16 * h);
  }

  lemma {:induction false} VacantEmpty(h: nat, i: nat)
    requires i <= 16 * h
    ensures VacantCells(Empty(h), i) == i
  {
    if i > 0 {
      VacantEmpty(h, i - 1);
      ZeroHasNoBit((i - 1) % 16);
    }
  }

  /**
   * Filling cells never adds vacancies, and filling a cell that was empty removes at least
   * one.
   */
  lemma {:induction false} VacantFall(a: seq<Row>, b: seq<Row>, i: nat)
    requires |a| == |b| && i <= 16 * |a|
    requires forall k :: 0 <= k < i && Filled(a, k) ==> Filled(b, k)
    ensures VacantCells(b, i) <= VacantCells(a, i)
    ensures (exists k :: 0 <= k < i && Filled(b, k) && !Filled(a, k)) ==> VacantCells(b, i) < VacantCells(a, i)
  {
    if i > 0 {
      VacantFall(a, b, i - 1);
    }
  }

  /** Landing a placement that does not collide fills at least one empty cell of the well. */
  lemma LandingFills(c: Config, n: int, well: seq<Row>, s: Node)
    requires ValidEntry(c, n, s) && |well| == c.fullHeight && !Collides(well, s)
    ensures Vacancies(Add(well, s.grid)) < Vacancies(well)
  {
    NoCollisionDisjoint(c, n, well, s);
    var w := Add(well, s.grid);
    forall k | 0 <= k < 16 * |well| && Filled(well, k)
      ensures Filled(w, k)
    {
      BitOr(well[k / 16], s.grid[k / 16], k % 16);
    }
    var x := NonZeroHasBit(s.grid[s.yTop]);
    var k := 16 * s.yTop + x;
    assert k / 16 == s.yTop && k % 16 == x;
    BitOr(well[s.yTop], s.grid[s.yTop], x);
    BitAnd(well[s.yTop], s.grid[s.yTop], x);
    ZeroHasNoBit(x);
    assert Filled(w, k) && !Filled(well, k);
    VacantFall(well, w, 16 * |well|);
  }

  /** Landing a placement whose overlapsSpawn flag is clear keeps the well clear of the spawns. */
  lemma LandingKeepsClear(c: Config, t: seq<seq<Node>>, well: seq<Row>, p: int, j: int)
    requires Playable(c, t, well) && 0 <= p < NumPieces && 0 <= j < |t[p]|
    requires !t[p][j].overlapsSpawn
    ensures Playable(c, t, Add(well, t[p][j].grid))
  {
    var g := t[p][j].grid;
    assert ValidEntry(c, |t[p]|, t[p][j]);
    forall q | 0 <= q < |t| && |t[q]| > 0
      ensures Disjoint(Add(well, g), t[q][0].grid)
    {
      assert Disjoint(g, t[q][0].grid);
      assert Disjoint(well, t[q][0].grid);
      assert forall y :: 0 <= y < |well| && y < |t[q][0].grid| ==> Add(well, g)[y] & t[q][0].grid[y] == 0;
    }
  }

  /** A clear well never meets a spawn placement, so the search may start at entry 0. */
  lemma SpawnFree(c: Config, t: seq<seq<Node>>, well: seq<Row>, p: int)
    requires Playable(c, t, well) && 0 <= p < NumPieces
    ensures !Collides(well, t[p][0])
  {
    assert Disjoint(well, t[p][0].grid);
  }

  // ---------------------------------------------------------------------------------------
  // The search of populateLandings

  /** The reachable flags only gain marks. */
  predicate Extends(a: seq<bool>, b: seq<bool>)
  {
    |a| == |b| && forall i :: 0 <= i < |a| && a[i] ==> b[i]
  }

  /** Flags among the first n that are still clear. */
  function Unmarked(seen: seq<bool>, n: nat): nat
    requires n <= |seen|
  {
    if n == 0 then 0 else Unmarked(seen, n - 1) + (if seen[n - 1] then 0 else 1)
  }

  function Unseen(seen: seq<bool>): nat
  {
    Unmarked(seen, |seen|)
  }

  /** Marking a clear flag leaves one fewer clear. */
  lemma {:induction false} UnmarkedMark(seen: seq<bool>, i: int, n: nat)
    requires 0 <= i < |seen| && !seen[i] && n <= |seen|
    ensures Unmarked(seen[i := true], n) == Unmarked(seen, n) - (if i < n then 1 else 0)
  {
    if n > 0 {
      UnmarkedMark(seen, i, n - 1);
    }
  }

  /** Gaining marks never adds clear flags. */
  lemma {:induction false} UnmarkedExtends(a: seq<bool>, b: seq<bool>, n: nat)
    requires Extends(a, b) && n <= |a|
    ensures Unmarked(b, n) <= Unmarked(a, n)
  {
    if n > 0 {
      UnmarkedExtends(a, b, n - 1);
    }
  }

  /** All flags clear: every entry unmarked. */
  lemma {:induction false} UnmarkedNone(seen: seq<bool>, n: nat)
    requires n <= |seen| && forall i :: 0 <= i < |seen| ==> !seen[i]
    ensures Unmarked(seen, n) == n
  {
    if n > 0 {
      UnmarkedNone(seen, n - 1);
    }
  }

  /** What the search has produced: whether a line was made, the flags, the landings. */
  datatype Search = Search(line: bool, seen: seq<bool>, found: seq<int>)

  /**
   * The search may run on this piece's list from these flags and landings: room remains in
   * the landings for every entry not yet marked, plus extra.
   */
  predicate Ready(c: Config, nodes: seq<Node>, well: seq<Row>, seen: seq<bool>, found: seq<int>,
                  extra: int)
  {
    ValidConfig(c) && WellFormed(c, nodes) && |well| == c.fullHeight && |seen| == |nodes| &&
    |found| + Unseen(seen) + extra <= |nodes|
  }

  /** The down key from entry id leads to id itself or to a placement that collides. */
  predicate Stops(c: Config, nodes: seq<Node>, well: seq<Row>, id: int)
    requires WellFormed(c, nodes) && 0 <= id < |nodes|
  {
    var d := nodes[id].next[DownKeyId];
    d == id || Collides(well, nodes[d])
  }

  /** Before key k has been tried, entry id may still record itself as a landing. */
  function Slot(k: int): int
  {
    if k <= DownKeyId then 1 else 0
  }

  /**
   * populateLandings(id): mark id, then try the keys in order. The result records whether a
   * line was made (the search stops there), the flags and the landings.
   */
  function Explore(c: Config, nodes: seq<Node>, well: seq<Row>, id: int, seen: seq<bool>,
                   found: seq<int>): (r: Search)
    requires Ready(c, nodes, well, seen, found, 0) && 0 <= id < |nodes| && !seen[id]
    ensures Extends(seen, r.seen) && r.seen[id] && found <= r.found
    ensures |r.found| + Unseen(r.seen) <= |found| + Unseen(seen)
    decreases Unseen(seen), 0, 0
  {
    UnmarkedMark(seen, id, |seen|);
    ExploreKeys(c, nodes, well, id, 0, seen[id := true], found)
  }

  /** The loop of populateLandings over the keys k .. NUMCONTROLS-1 of entry id. */
  function ExploreKeys(c: Config, nodes: seq<Node>, well: seq<Row>, id: int, k: int,
                       seen: seq<bool>, found: seq<int>): (r: Search)
    requires Ready(c, nodes, well, seen, found, Slot(k)) && 0 <= id < |nodes| && seen[id]
    requires 0 <= k <= NumControls
    ensures Extends(seen, r.seen) && found <= r.found
    ensures |r.found| + Unseen(r.seen) <= |found| + Unseen(seen) + Slot(k)
    decreases Unseen(seen), 1, NumControls - k
  {
    if k == NumControls then Search(false, seen, found)
    else
      var s := nodes[id];
      var n := s.next[k];
      if k == DownKeyId && Stops(c, nodes, well, id) then
        if s.outOfBounds then ExploreKeys(c, nodes, well, id, k + 1, seen, found)
        else if LineAt(c, well, s) then Search(true, seen, found)
        else if s.overlapsSpawn then ExploreKeys(c, nodes, well, id, k + 1, seen, found)
        else ExploreKeys(c, nodes, well, id, k + 1, seen, found + [id])
      else if Passed(c, nodes, well, seen, n) then
        ExploreKeys(c, nodes, well, id, k + 1, seen, found)
      else
        var r := Explore(c, nodes, well, n, seen, found);
        if r.line then r else ExploreKeys(c, nodes, well, id, k + 1, r.seen, r.found)
  }

  /** Key k is passed over: the loop goes on with the same flags and landings. */
  lemma KeySkipped(c: Config, nodes: seq<Node>, well: seq<Row>, id: int, k: int, seen: seq<bool>,
                   found: seq<int>)
    requires Ready(c, nodes, well, seen, found, Slot(k)) && 0 <= id < |nodes| && seen[id]
    requires 0 <= k < NumControls
    requires if k == DownKeyId && Stops(c, nodes, well, id)
             then nodes[id].outOfBounds || (!LineAt(c, well, nodes[id]) && nodes[id].overlapsSpawn)
             else Passed(c, nodes, well, seen, nodes[id].next[k])
    ensures Ready(c, nodes, well, seen, found, Slot(k + 1))
    ensures ExploreKeys(c, nodes, well, id, k, seen, found) == ExploreKeys(c, nodes, well, id, k + 1, seen, found)
  {
  }

  /** The down key stops at entry id and a line is made: the search ends there. */
  lemma KeyLine(c: Config, nodes: seq<Node>, well: seq<Row>, id: int, seen: seq<bool>, found: seq<int>)
    requires Ready(c, nodes, well, seen, found, 1) && 0 <= id < |nodes| && seen[id]
    requires Stops(c, nodes, well, id) && !nodes[id].outOfBounds && LineAt(c, well, nodes[id])
    ensures ExploreKeys(c, nodes, well, id, DownKeyId, seen, found) == Search(true, seen, found)
  {
  }

  /** The down key stops at entry id and it is a landing: id is recorded and the loop goes on. */
  lemma KeyRecorded(c: Config, nodes: seq<Node>, well: seq<Row>, id: int, seen: seq<bool>, found: seq<int>)
    requires Ready(c, nodes, well, seen, found, 1) && 0 <= id < |nodes| && seen[id]
    requires Stops(c, nodes, well, id) && !nodes[id].outOfBounds && !LineAt(c, well, nodes[id])
    requires !nodes[id].overlapsSpawn
    ensures Ready(c, nodes, well, seen, found + [id], 0) && |found| < |nodes|
    ensures ExploreKeys(c, nodes, well, id, DownKeyId, seen, found) ==
      ExploreKeys(c, nodes, well, id, DownKeyId + 1, seen, found + [id])
  {
  }

  /** Key k leads to a fresh entry n: the search explores n and, unless that makes a line, goes on. */
  lemma KeyExplored(c: Config, nodes: seq<Node>, well: seq<Row>, id: int, k: int, seen: seq<bool>,
                    found: seq<int>, r: Search)
    requires Ready(c, nodes, well, seen, found, Slot(k)) && 0 <= id < |nodes| && seen[id]
    requires 0 <= k < NumControls && !(k == DownKeyId && Stops(c, nodes, well, id))
    requires !Passed(c, nodes, well, seen, nodes[id].next[k])
    requires r == Explore(c, nodes, well, nodes[id].next[k], seen, found)
    ensures Extends(seen, r.seen)
    ensures !r.line ==> Ready(c, nodes, well, r.seen, r.found, Slot(k + 1))
    ensures ExploreKeys(c, nodes, well, id, k, seen, found) ==
      if r.line then r else ExploreKeys(c, nodes, well, id, k + 1, r.seen, r.found)
  {
  }

  /**
   * A landing the search records: the piece stops here, lies partly in the visible field,
   * completes no line, leaves the spawn area free and does not collide with the well.
   */
  predicate Landing(c: Config, nodes: seq<Node>, well: seq<Row>, j: int)
    requires ValidConfig(c) && WellFormed(c, nodes)
  {
    0 <= j < |nodes| && Stops(c, nodes, well, j) && !nodes[j].outOfBounds &&
    !LineAt(c, well, nodes[j]) && !nodes[j].overlapsSpawn && !Collides(well, nodes[j])
  }

  /** A marked entry where the piece stops inside the visible field and completes a line. */
  predicate LineLanding(c: Config, nodes: seq<Node>, well: seq<Row>, seen: seq<bool>, j: int)
    requires ValidConfig(c) && WellFormed(c, nodes) && |seen| == |nodes|
  {
    0 <= j < |nodes| && seen[j] && Stops(c, nodes, well, j) && !nodes[j].outOfBounds &&
    !Collides(well, nodes[j]) && LineAt(c, well, nodes[j])
  }

  /** The entries of found from index lo on are landings. */
  predicate LandingsFrom(c: Config, nodes: seq<Node>, well: seq<Row>, found: seq<int>, lo: int)
    requires ValidConfig(c) && WellFormed(c, nodes)
  {
    forall i :: 0 <= lo <= i < |found| ==> Landing(c, nodes, well, found[i])
  }

  lemma LandingsFromPrev(c: Config, nodes: seq<Node>, well: seq<Row>, found: seq<int>, lo: int)
    requires ValidConfig(c) && WellFormed(c, nodes) && 0 <= lo < |found|
    requires Landing(c, nodes, well, found[lo]) && LandingsFrom(c, nodes, well, found, lo + 1)
    ensures LandingsFrom(c, nodes, well, found, lo)
  {
  }

  /** Started on a placement that does not collide, the search records only landings. */
  lemma {:induction false} ExploreLandings(c: Config, nodes: seq<Node>, well: seq<Row>, id: int,
                                           seen: seq<bool>, found: seq<int>)
    requires Ready(c, nodes, well, seen, found, 0) && 0 <= id < |nodes| && !seen[id]
    requires !Collides(well, nodes[id])
    ensures LandingsFrom(c, nodes, well, Explore(c, nodes, well, id, seen, found).found, |found|)
    decreases Unseen(seen), 0, 0
  {
    UnmarkedMark(seen, id, |seen|);
    ExploreKeysLandings(c, nodes, well, id, 0, seen[id := true], found);
  }

  lemma {:induction false} ExploreKeysLandings(c: Config, nodes: seq<Node>, well: seq<Row>, id: int,
                                               k: int, seen: seq<bool>, found: seq<int>)
    requires Ready(c, nodes, well, seen, found, Slot(k)) && 0 <= id < |nodes| && seen[id]
    requires 0 <= k <= NumControls && !Collides(well, nodes[id])
    ensures LandingsFrom(c, nodes, well, ExploreKeys(c, nodes, well, id, k, seen, found).found, |found|)
    decreases Unseen(seen), 1, NumControls - k
  {
    if k < NumControls {
      var s := nodes[id];
      var n := s.next[k];
      if k == DownKeyId && Stops(c, nodes, well, id) {
        if s.outOfBounds || LineAt(c, well, s) || s.overlapsSpawn {
          if !s.outOfBounds && !LineAt(c, well, s) {
            ExploreKeysLandings(c, nodes, well, id, k + 1, seen, found);
          } else if s.outOfBounds {
            ExploreKeysLandings(c, nodes, well, id, k + 1, seen, found);
          }
        } else {
          var found1 := found + [id];
          ExploreKeysLandings(c, nodes, well, id, k + 1, seen, found1);
          var r := ExploreKeys(c, nodes, well, id, k + 1, seen, found1);
          assert r.found[|found|] == found1[|found|];
          LandingsFromPrev(c, nodes, well, r.found, |found|);
        }
      } else if Passed(c, nodes, well, seen, n) {
        ExploreKeysLandings(c, nodes, well, id, k + 1, seen, found);
      } else {
        ExploreLandings(c, nodes, well, n, seen, found);
        var r := Explore(c, nodes, well, n, seen, found);
        if !r.line {
          ExploreKeysLandings(c, nodes, well, id, k + 1, r.seen, r.found);
        }
      }
    }
  }

  /** The search reports a line only when a marked landing completes one. */
  lemma {:induction false} ExploreLine(c: Config, nodes: seq<Node>, well: seq<Row>, id: int,
                                       seen: seq<bool>, found: seq<int>)
    requires Ready(c, nodes, well, seen, found, 0) && 0 <= id < |nodes| && !seen[id]
    requires !Collides(well, nodes[id])
    ensures var r := Explore(c, nodes, well, id, seen, found);
      r.line ==> exists j :: LineLanding(c, nodes, well, r.seen, j)
    decreases Unseen(seen), 0, 0
  {
    UnmarkedMark(seen, id, |seen|);
    ExploreKeysLine(c, nodes, well, id, 0, seen[id := true], found);
  }

  lemma {:induction false} ExploreKeysLine(c: Config, nodes: seq<Node>, well: seq<Row>, id: int,
                                           k: int, seen: seq<bool>, found: seq<int>)
    requires Ready(c, nodes, well, seen, found, Slot(k)) && 0 <= id < |nodes| && seen[id]
    requires 0 <= k <= NumControls && !Collides(well, nodes[id])
    ensures var r := ExploreKeys(c, nodes, well, id, k, seen, found);
      r.line ==> exists j :: LineLanding(c, nodes, well, r.seen, j)
    decreases Unseen(seen), 1, NumControls - k
  {
    if k < NumControls {
      var s := nodes[id];
      var n := s.next[k];
      if k == DownKeyId && Stops(c, nodes, well, id) {
        if s.outOfBounds {
          ExploreKeysLine(c, nodes, well, id, k + 1, seen, found);
        } else if LineAt(c, well, s) {
          assert LineLanding(c, nodes, well, seen, id);
        } else if s.overlapsSpawn {
          ExploreKeysLine(c, nodes, well, id, k + 1, seen, found);
        } else {
          ExploreKeysLine(c, nodes, well, id, k + 1, seen, found + [id]);
        }
      } else if Passed(c, nodes, well, seen, n) {
        ExploreKeysLine(c, nodes, well, id, k + 1, seen, found);
      } else {
        ExploreLine(c, nodes, well, n, seen, found);
        var r := Explore(c, nodes, well, n, seen, found);
        if !r.line {
          ExploreKeysLine(c, nodes, well, id, k + 1, r.seen, r.found);
        }
      }
    }
  }

  /** The entry a key leads to is marked already or collides. */
  predicate Passed(c: Config, nodes: seq<Node>, well: seq<Row>, seen: seq<bool>, n: int)
    requires 0 <= n < |nodes| && |seen| == |nodes|
  {
    seen[n] || Collides(well, nodes[n])
  }

  /**
   * Keys 0 .. k-1 of entry j are done: each move leads to a marked entry or a collision, and
   * once the down key is done a stop inside the visible field completes no line and, when it
   * leaves the spawn area free, is recorded as a landing.
   */
  predicate Settled(c: Config, nodes: seq<Node>, well: seq<Row>, seen: seq<bool>, found: seq<int>,
                    j: int, k: int)
    requires ValidConfig(c) && WellFormed(c, nodes) && |seen| == |nodes| && 0 <= j < |nodes|
  {
    (forall k' :: 0 <= k' < k && k' < NumControls && !(k' == DownKeyId && Stops(c, nodes, well, j)) ==>
       Passed(c, nodes, well, seen, nodes[j].next[k'])) &&
    (DownKeyId < k && Stops(c, nodes, well, j) && !nodes[j].outOfBounds ==>
       !LineAt(c, well, nodes[j]) && (!nodes[j].overlapsSpawn ==> j in found))
  }

  /** Every marked entry outside the stack of entries still being explored is settled. */
  predicate AllSettled(c: Config, nodes: seq<Node>, well: seq<Row>, seen: seq<bool>,
                       found: seq<int>, stack: set<int>)
    requires ValidConfig(c) && WellFormed(c, nodes) && |seen| == |nodes|
  {
    forall j {:trigger Settled(c, nodes, well, seen, found, j, NumControls)} ::
      0 <= j < |nodes| && seen[j] && j !in stack ==> Settled(c, nodes, well, seen, found, j, NumControls)
  }

  /** More marks and more landings keep a settled entry settled. */
  lemma SettledGrows(c: Config, nodes: seq<Node>, well: seq<Row>, seen: seq<bool>, found: seq<int>,
                     seen2: seq<bool>, found2: seq<int>, j: int, k: int)
    requires ValidConfig(c) && WellFormed(c, nodes) && |seen| == |nodes| && 0 <= j < |nodes|
    requires Extends(seen, seen2) && found <= found2
    requires Settled(c, nodes, well, seen, found, j, k)
    ensures Settled(c, nodes, well, seen2, found2, j, k)
  {
    if j in found {
      var i :| 0 <= i < |found| && found[i] == j;
      assert found2[i] == j;
    }
  }

  lemma AllSettledGrows(c: Config, nodes: seq<Node>, well: seq<Row>, seen: seq<bool>,
                        found: seq<int>, found2: seq<int>, stack: set<int>)
    requires ValidConfig(c) && WellFormed(c, nodes) && |seen| == |nodes| && found <= found2
    requires AllSettled(c, nodes, well, seen, found, stack)
    ensures AllSettled(c, nodes, well, seen, found2, stack)
  {
    forall j | 0 <= j < |nodes| && seen[j] && j !in stack
      ensures Settled(c, nodes, well, seen, found2, j, NumControls)
    {
      SettledGrows(c, nodes, well, seen, found, seen, found2, j, NumControls);
    }
  }

  /** The entries on the stack are all marked. */
  predicate OnStack(seen: seq<bool>, stack: set<int>)
  {
    forall j :: j in stack ==> 0 <= j < |seen| && seen[j]
  }

  /**
   * A search that ends without a line leaves every entry it marked settled, given that the
   * entries marked before it, apart from those still on the stack, were settled.
   */
  lemma {:induction false} ExploreSettles(c: Config, nodes: seq<Node>, well: seq<Row>, id: int,
                                          seen: seq<bool>, found: seq<int>, stack: set<int>)
    requires Ready(c, nodes, well, seen, found, 0) && 0 <= id < |nodes| && !seen[id]
    requires OnStack(seen, stack) && AllSettled(c, nodes, well, seen, found, stack)
    ensures var r := Explore(c, nodes, well, id, seen, found);
      !r.line ==> AllSettled(c, nodes, well, r.seen, r.found, stack)
    decreases Unseen(seen), 0, 0
  {
    UnmarkedMark(seen, id, |seen|);
    var seen1 := seen[id := true];
    forall j | 0 <= j < |nodes| && seen1[j] && j !in stack + {id}
      ensures Settled(c, nodes, well, seen1, found, j, NumControls)
    {
      SettledGrows(c, nodes, well, seen, found, seen1, found, j, NumControls);
    }
    ExploreKeysSettles(c, nodes, well, id, 0, seen1, found, stack);
  }

  lemma {:induction false} ExploreKeysSettles(c: Config, nodes: seq<Node>, well: seq<Row>, id: int,
                                              k: int, seen: seq<bool>, found: seq<int>,
                                              stack: set<int>)
    requires Ready(c, nodes, well, seen, found, Slot(k)) && 0 <= id < |nodes| && seen[id]
    requires 0 <= k <= NumControls && id !in stack && OnStack(seen, stack)
    requires AllSettled(c, nodes, well, seen, found, stack + {id})
    requires Settled(c, nodes, well, seen, found, id, k)
    ensures var r := ExploreKeys(c, nodes, well, id, k, seen, found);
      !r.line ==> AllSettled(c, nodes, well, r.seen, r.found, stack)
    decreases Unseen(seen), 1, NumControls - k
  {
    if k == NumControls {
      SettledFinish(c, nodes, well, seen, found, id, stack);
      return;
    }
    var s := nodes[id];
    var n := s.next[k];
    if k == DownKeyId && Stops(c, nodes, well, id) {
      if s.outOfBounds || (!LineAt(c, well, s) && s.overlapsSpawn) {
        SettledStep(c, nodes, well, seen, found, id, k);
        ExploreKeysSettles(c, nodes, well, id, k + 1, seen, found, stack);
      } else if !LineAt(c, well, s) {
        var found1 := found + [id];
        AllSettledGrows(c, nodes, well, seen, found, found1, stack + {id});
        SettledGrows(c, nodes, well, seen, found, seen, found1, id, k);
        assert found1[|found|] == id;
        SettledStep(c, nodes, well, seen, found1, id, k);
        ExploreKeysSettles(c, nodes, well, id, k + 1, seen, found1, stack);
      }
    } else if Passed(c, nodes, well, seen, n) {
      SettledStep(c, nodes, well, seen, found, id, k);
      ExploreKeysSettles(c, nodes, well, id, k + 1, seen, found, stack);
    } else {
      ExploreSettles(c, nodes, well, n, seen, found, stack + {id});
      var r := Explore(c, nodes, well, n, seen, found);
      if !r.line {
        SettledGrows(c, nodes, well, seen, found, r.seen, r.found, id, k);
        SettledStep(c, nodes, well, r.seen, r.found, id, k);
        ExploreKeysSettles(c, nodes, well, id, k + 1, r.seen, r.found, stack);
      }
    }
  }

  /** Key k of entry id is done once its move is passed or, for a down key that stops, once the stop is handled. */
  lemma SettledStep(c: Config, nodes: seq<Node>, well: seq<Row>, seen: seq<bool>, found: seq<int>,
                    id: int, k: int)
    requires ValidConfig(c) && WellFormed(c, nodes) && |seen| == |nodes| && 0 <= id < |nodes|
    requires 0 <= k < NumControls && Settled(c, nodes, well, seen, found, id, k)
    requires k == DownKeyId && Stops(c, nodes, well, id) && !nodes[id].outOfBounds ==>
      !LineAt(c, well, nodes[id]) && (!nodes[id].overlapsSpawn ==> id in found)
    requires !(k == DownKeyId && Stops(c, nodes, well, id)) ==> Passed(c, nodes, well, seen, nodes[id].next[k])
    ensures Settled(c, nodes, well, seen, found, id, k + 1)
  {
  }

  /** Once all its keys are done, entry id leaves the stack settled. */
  lemma SettledFinish(c: Config, nodes: seq<Node>, well: seq<Row>, seen: seq<bool>, found: seq<int>,
                      id: int, stack: set<int>)
    requires ValidConfig(c) && WellFormed(c, nodes) && |seen| == |nodes| && 0 <= id < |nodes|
    requires AllSettled(c, nodes, well, seen, found, stack + {id})
    requires Settled(c, nodes, well, seen, found, id, NumControls)
    ensures AllSettled(c, nodes, well, seen, found, stack)
  {
  }

  /** All flags clear, as pieceWinner leaves them before the search. */
  function Cleared(n: nat): (seen: seq<bool>)
    ensures |seen| == n && forall i :: 0 <= i < n ==> !seen[i]
  {
    seq(n, i => false)
  }

  /** The search pieceWinner starts: from the spawn entry, no marks, no landings. */
  function SpawnSearch(c: Config, t: seq<seq<Node>>, well: seq<Row>, p: int): Search
    requires Playable(c, t, well) && 0 <= p < NumPieces
  {
    UnmarkedNone(Cleared(|t[p]|), |t[p]|);
    Explore(c, t[p], well, 0, Cleared(|t[p]|), [])
  }

  /**
   * The search from the spawn entry records only landings and reports a line only when a
   * marked landing completes one.
   */
  lemma SpawnSearchSound(c: Config, t: seq<seq<Node>>, well: seq<Row>, p: int)
    requires Playable(c, t, well) && 0 <= p < NumPieces
    ensures var r := SpawnSearch(c, t, well, p);
      |r.seen| == |t[p]| &&
      (forall j :: 0 <= j < |r.seen| && r.seen[j] ==> Reaches(c, t[p], well, 0, j)) &&
      (forall i :: 0 <= i < |r.found| ==>
         Landing(c, t[p], well, r.found[i]) && Reaches(c, t[p], well, 0, r.found[i])) &&
      (r.line ==> exists j :: LineLanding(c, t[p], well, r.seen, j) && Reaches(c, t[p], well, 0, j))
  {
    var nodes, seen := t[p], Cleared(|t[p]|);
    UnmarkedNone(seen, |nodes|);
    SpawnFree(c, t, well, p);
    ExploreLandings(c, nodes, well, 0, seen, []);
    ExploreLine(c, nodes, well, 0, seen, []);
    ReachesSelf(c, nodes, well, 0);
    ExploreReaches(c, nodes, well, 0, seen, 0, seen, []);
    ExploreFoundMarked(c, nodes, well, 0, seen, []);
  }

  // ---------------------------------------------------------------------------------------
  // Walks: the moves a player can make with the current piece

  /**
   * Key k takes entry a to entry b: the key leads there, b does not collide, and it is not
   * the down key from an entry where the piece stops.
   */
  predicate Move(c: Config, nodes: seq<Node>, well: seq<Row>, a: int, k: int, b: int)
    requires WellFormed(c, nodes) && 0 <= a < |nodes|
  {
    0 <= k < NumControls && nodes[a].next[k] == b && !(k == DownKeyId && Stops(c, nodes, well, a)) &&
    !Collides(well, nodes[b])
  }

  /** A sequence of entries, each reached from the one before by one key. */
  predicate Walk(c: Config, nodes: seq<Node>, well: seq<Row>, path: seq<int>, keys: seq<int>)
    requires WellFormed(c, nodes)
  {
    |path| == |keys| + 1 && (forall i :: 0 <= i < |path| ==> 0 <= path[i] < |nodes|) &&
    forall i :: 0 <= i < |keys| ==> Move(c, nodes, well, path[i], keys[i], path[i + 1])
  }

  /** Marks closed under moves contain every entry a walk from a marked entry visits. */
  lemma {:induction false} WalkMarked(c: Config, nodes: seq<Node>, well: seq<Row>, seen: seq<bool>,
                                      found: seq<int>, path: seq<int>, keys: seq<int>, i: nat)
    requires ValidConfig(c) && WellFormed(c, nodes) && |seen| == |nodes|
    requires AllSettled(c, nodes, well, seen, found, {})
    requires Walk(c, nodes, well, path, keys) && seen[path[0]] && i < |path|
    ensures seen[path[i]]
  {
    if i > 0 {
      WalkMarked(c, nodes, well, seen, found, path, keys, i - 1);
      var a, k := path[i - 1], keys[i - 1];
      assert Move(c, nodes, well, a, k, path[i]);
      assert Settled(c, nodes, well, seen, found, a, NumControls);
      assert Passed(c, nodes, well, seen, nodes[a].next[k]);
    }
  }

  /** Entry j is the end of a walk from entry a. */
  ghost predicate Reaches(c: Config, nodes: seq<Node>, well: seq<Row>, a: int, j: int)
    requires WellFormed(c, nodes)
  {
    exists path, keys :: Walk(c, nodes, well, path, keys) && path[0] == a && path[|path| - 1] == j
  }

  lemma ReachesSelf(c: Config, nodes: seq<Node>, well: seq<Row>, a: int)
    requires WellFormed(c, nodes) && 0 <= a < |nodes|
    ensures Reaches(c, nodes, well, a, a)
  {
    assert Walk(c, nodes, well, [a], []);
  }

  /** A walk to j followed by one move from j is a walk. */
  lemma ReachesMove(c: Config, nodes: seq<Node>, well: seq<Row>, a: int, j: int, k: int, n: int)
    requires WellFormed(c, nodes) && 0 <= j < |nodes|
    requires Reaches(c, nodes, well, a, j) && Move(c, nodes, well, j, k, n)
    ensures Reaches(c, nodes, well, a, n)
  {
    var path, keys :| Walk(c, nodes, well, path, keys) && path[0] == a && path[|path| - 1] == j;
    assert ValidEntry(c, |nodes|, nodes[j]);
    var path2, keys2 := path + [n], keys + [k];
    assert forall i :: 0 <= i < |path| ==> path2[i] == path[i];
    assert forall i :: 0 <= i < |keys| ==> keys2[i] == keys[i];
    assert path2[|keys|] == j && keys2[|keys|] == k && path2[|keys| + 1] == n;
    assert Walk(c, nodes, well, path2, keys2);
  }

  /** The fresh entry a key leads to, which the search explores, is one move further on the walk. */
  lemma FreshReached(c: Config, nodes: seq<Node>, well: seq<Row>, root: int, id: int, k: int,
                     seen: seq<bool>)
    requires WellFormed(c, nodes) && 0 <= id < |nodes| && |seen| == |nodes| && 0 <= k < NumControls
    requires Reaches(c, nodes, well, root, id) && !(k == DownKeyId && Stops(c, nodes, well, id))
    requires !Passed(c, nodes, well, seen, nodes[id].next[k])
    ensures Reaches(c, nodes, well, root, nodes[id].next[k])
  {
    assert Move(c, nodes, well, id, k, nodes[id].next[k]);
    ReachesMove(c, nodes, well, root, id, k, nodes[id].next[k]);
  }

  /** Every entry marked in seen but not in base is the end of a walk from root. */
  ghost predicate Covered(c: Config, nodes: seq<Node>, well: seq<Row>, root: int, base: seq<bool>,
                    seen: seq<bool>)
    requires WellFormed(c, nodes)
  {
    forall j :: 0 <= j < |seen| && j < |base| && seen[j] && !base[j] ==> Reaches(c, nodes, well, root, j)
  }

  /** Every recorded landing is marked. */
  predicate FoundMarked(seen: seq<bool>, found: seq<int>)
  {
    forall i :: 0 <= i < |found| ==> 0 <= found[i] < |seen| && seen[found[i]]
  }

  lemma FoundMarkedExtends(seen: seq<bool>, seen2: seq<bool>, found: seq<int>)
    requires Extends(seen, seen2) && FoundMarked(seen, found)
    ensures FoundMarked(seen2, found)
  {
  }

  /** Started at an entry a walk from root reaches, the search marks only entries walks from root reach. */
  lemma {:induction false} ExploreReaches(c: Config, nodes: seq<Node>, well: seq<Row>, root: int,
                                          base: seq<bool>, id: int, seen: seq<bool>, found: seq<int>)
    requires Ready(c, nodes, well, seen, found, 0) && 0 <= id < |nodes| && !seen[id]
    requires |base| == |nodes| && Reaches(c, nodes, well, root, id)
    requires Covered(c, nodes, well, root, base, seen)
    ensures Covered(c, nodes, well, root, base, Explore(c, nodes, well, id, seen, found).seen)
    decreases Unseen(seen), 0, 0
  {
    UnmarkedMark(seen, id, |seen|);
    ExploreKeysReaches(c, nodes, well, root, base, id, 0, seen[id := true], found);
  }

  lemma {:induction false} ExploreKeysReaches(c: Config, nodes: seq<Node>, well: seq<Row>, root: int,
                                              base: seq<bool>, id: int, k: int, seen: seq<bool>,
                                              found: seq<int>)
    requires Ready(c, nodes, well, seen, found, Slot(k)) && 0 <= id < |nodes| && seen[id]
    requires 0 <= k <= NumControls && |base| == |nodes| && Reaches(c, nodes, well, root, id)
    requires Covered(c, nodes, well, root, base, seen)
    ensures Covered(c, nodes, well, root, base, ExploreKeys(c, nodes, well, id, k, seen, found).seen)
    decreases Unseen(seen), 1, NumControls - k
  {
    if k < NumControls {
      var s := nodes[id];
      var n := s.next[k];
      if k == DownKeyId && Stops(c, nodes, well, id) {
        if s.outOfBounds || (!LineAt(c, well, s) && s.overlapsSpawn) {
          ExploreKeysReaches(c, nodes, well, root, base, id, k + 1, seen, found);
        } else if !LineAt(c, well, s) {
          ExploreKeysReaches(c, nodes, well, root, base, id, k + 1, seen, found + [id]);
        }
      } else if Passed(c, nodes, well, seen, n) {
        ExploreKeysReaches(c, nodes, well, root, base, id, k + 1, seen, found);
      } else {
        FreshReached(c, nodes, well, root, id, k, seen);
        ExploreReaches(c, nodes, well, root, base, n, seen, found);
        var r := Explore(c, nodes, well, n, seen, found);
        if !r.line {
          KeyExplored(c, nodes, well, id, k, seen, found, r);
          ExploreKeysReaches(c, nodes, well, root, base, id, k + 1, r.seen, r.found);
        }
      }
    }
  }

  /** The search records only entries it has marked. */
  lemma {:induction false} ExploreFoundMarked(c: Config, nodes: seq<Node>, well: seq<Row>, id: int,
                                              seen: seq<bool>, found: seq<int>)
    requires Ready(c, nodes, well, seen, found, 0) && 0 <= id < |nodes| && !seen[id]
    requires FoundMarked(seen, found)
    ensures var r := Explore(c, nodes, well, id, seen, found); FoundMarked(r.seen, r.found)
    decreases Unseen(seen), 0, 0
  {
    UnmarkedMark(seen, id, |seen|);
    var seen1 := seen[id := true];
    FoundMarkedExtends(seen, seen1, found);
    ExploreKeysFoundMarked(c, nodes, well, id, 0, seen1, found);
  }

  lemma {:induction false} ExploreKeysFoundMarked(c: Config, nodes: seq<Node>, well: seq<Row>, id: int,
                                                  k: int, seen: seq<bool>, found: seq<int>)
    requires Ready(c, nodes, well, seen, found, Slot(k)) && 0 <= id < |nodes| && seen[id]
    requires 0 <= k <= NumControls && FoundMarked(seen, found)
    ensures var r := ExploreKeys(c, nodes, well, id, k, seen, found); FoundMarked(r.seen, r.found)
    decreases Unseen(seen), 1, NumControls - k
  {
    if k < NumControls {
      var s := nodes[id];
      var n := s.next[k];
      if k == DownKeyId && Stops(c, nodes, well, id) {
        if s.outOfBounds || (!LineAt(c, well, s) && s.overlapsSpawn) {
          ExploreKeysFoundMarked(c, nodes, well, id, k + 1, seen, found);
        } else if !LineAt(c, well, s) {
          ExploreKeysFoundMarked(c, nodes, well, id, k + 1, seen, found + [id]);
        }
      } else if Passed(c, nodes, well, seen, n) {
        ExploreKeysFoundMarked(c, nodes, well, id, k + 1, seen, found);
      } else {
        ExploreFoundMarked(c, nodes, well, n, seen, found);
        var r := Explore(c, nodes, well, n, seen, found);
        if !r.line {
          KeyExplored(c, nodes, well, id, k, seen, found, r);
          ExploreKeysFoundMarked(c, nodes, well, id, k + 1, r.seen, r.found);
        }
      }
    }
  }

  /**
   * When the search from the spawn entry makes no line, it has marked every entry a walk from
   * the spawn reaches; no stop inside the visible field on such a walk completes a line; and
   * each such stop that leaves the spawn area free is among the recorded landings.
   */
  lemma SpawnSearchComplete(c: Config, t: seq<seq<Node>>, well: seq<Row>, p: int,
                            path: seq<int>, keys: seq<int>)
    requires Playable(c, t, well) && 0 <= p < NumPieces
    requires Walk(c, t[p], well, path, keys) && path[0] == 0
    ensures var r := SpawnSearch(c, t, well, p);
      var j := path[|path| - 1];
      !r.line ==>
        r.seen[j] &&
        (Stops(c, t[p], well, j) && !t[p][j].outOfBounds ==>
           !LineAt(c, well, t[p][j]) && (!t[p][j].overlapsSpawn ==> j in r.found))
  {
    var nodes := t[p];
    var seen := Cleared(|nodes|);
    UnmarkedNone(seen, |nodes|);
    ExploreSettles(c, nodes, well, 0, seen, [], {});
    var r := Explore(c, nodes, well, 0, seen, []);
    if !r.line {
      WalkMarked(c, nodes, well, r.seen, r.found, path, keys, |path| - 1);
      assert Settled(c, nodes, well, r.seen, r.found, path[|path| - 1], NumControls);
    }
  }

  /** A stop inside the visible field where landing the piece completes a line. */
  predicate LineStop(c: Config, nodes: seq<Node>, well: seq<Row>, j: int)
    requires ValidConfig(c) && WellFormed(c, nodes)
  {
    0 <= j < |nodes| && Stops(c, nodes, well, j) && !nodes[j].outOfBounds && LineAt(c, well, nodes[j])
  }

  /**
   * The search from the spawn, judged against the walks the player can make with the piece:
   * it reports a line exactly when some walk from the spawn ends at a stop that completes a
   * line, and when it reports none, it records exactly the landings walks from the spawn end at.
   */
  lemma SpawnSearchExact(c: Config, t: seq<seq<Node>>, well: seq<Row>, p: int)
    requires Playable(c, t, well) && 0 <= p < NumPieces
    ensures var r := SpawnSearch(c, t, well, p);
      r.line <==> exists j :: LineStop(c, t[p], well, j) && Reaches(c, t[p], well, 0, j)
    ensures var r := SpawnSearch(c, t, well, p);
      !r.line ==> forall j :: j in r.found <==> Landing(c, t[p], well, j) && Reaches(c, t[p], well, 0, j)
  {
    var nodes := t[p];
    var r := SpawnSearch(c, t, well, p);
    SpawnSearchSound(c, t, well, p);
    if r.line {
      var j :| LineLanding(c, nodes, well, r.seen, j) && Reaches(c, nodes, well, 0, j);
      assert LineStop(c, nodes, well, j);
    } else {
      forall j | LineStop(c, nodes, well, j) && Reaches(c, nodes, well, 0, j)
        ensures false
      {
        var path, keys :| Walk(c, nodes, well, path, keys) && path[0] == 0 && path[|path| - 1] == j;
        SpawnSearchComplete(c, t, well, p, path, keys);
      }
      forall j | Landing(c, nodes, well, j) && Reaches(c, nodes, well, 0, j)
        ensures j in r.found
      {
        var path, keys :| Walk(c, nodes, well, path, keys) && path[0] == 0 && path[|path| - 1] == j;
        SpawnSearchComplete(c, t, well, p, path, keys);
      }
      forall j | j in r.found
        ensures Landing(c, nodes, well, j) && Reaches(c, nodes, well, 0, j)
      {
        var i :| 0 <= i < |r.found| && r.found[i] == j;
      }
    }
  }

  // ---------------------------------------------------------------------------------------
  // The game: wellWinner and pieceWinner

  /**
   * The winner of a well: the player wins when every piece the AI may send next lets the
   * player win, and the AI wins otherwise.
   */
  function WellValue(c: Config, t: seq<seq<Node>>, well: seq<Row>): Winner
    requires Playable(c, t, well)
    decreases Vacancies(well), 3
  {
    if forall p :: 0 <= p < NumPieces ==> PieceValue(c, t, well, p) == Player then Player else AI
  }

  /**
   * The winner when the AI sends piece p: the player wins when the search from the spawn
   * reaches a landing that completes a line, or when some recorded landing leaves a well the
   * player wins.
   */
  function PieceValue(c: Config, t: seq<seq<Node>>, well: seq<Row>, p: int): Winner
    requires Playable(c, t, well) && 0 <= p < NumPieces
    decreases Vacancies(well), 2
  {
    SpawnSearchSound(c, t, well, p);
    var r := SpawnSearch(c, t, well, p);
    if r.line || Player in Outcomes(c, t, well, p, r.found) then Player else AI
  }

  /** The winner of the well left by each recorded landing, in the order they were recorded. */
  function Outcomes(c: Config, t: seq<seq<Node>>, well: seq<Row>, p: int, found: seq<int>): (r: seq<Winner>)
    requires Playable(c, t, well) && 0 <= p < NumPieces
    requires forall i :: 0 <= i < |found| ==> Landing(c, t[p], well, found[i])
    ensures |r| == |found|
    decreases Vacancies(well), 1
  {
    seq(|found|, i requires 0 <= i < |found| => LandingValue(c, t, well, p, found[i]))
  }

  /** The winner of the well left once piece p has landed at entry j. */
  function LandingValue(c: Config, t: seq<seq<Node>>, well: seq<Row>, p: int, j: int): Winner
    requires Playable(c, t, well) && 0 <= p < NumPieces && Landing(c, t[p], well, j)
    decreases Vacancies(well), 0
  {
    LandingFills(c, |t[p]|, well, t[p][j]);
    LandingKeepsClear(c, t, well, p, j);
    WellValue(c, t, Add(well, t[p][j].grid))
  }

  /**
   * pieceWinner judged against the game itself: the player wins with piece p exactly when
   * some walk from the spawn ends at a stop that completes a line, or at a landing after which
   * the player wins the well.
   */
  lemma PieceValueWalks(c: Config, t: seq<seq<Node>>, well: seq<Row>, p: int)
    requires Playable(c, t, well) && 0 <= p < NumPieces
    ensures PieceValue(c, t, well, p) == Player <==>
      (exists j :: LineStop(c, t[p], well, j) && Reaches(c, t[p], well, 0, j)) ||
      (exists j :: Landing(c, t[p], well, j) && Reaches(c, t[p], well, 0, j) &&
         LandingValue(c, t, well, p, j) == Player)
  {
    SpawnSearchSound(c, t, well, p);
    SpawnSearchExact(c, t, well, p);
    var r := SpawnSearch(c, t, well, p);
    assert PieceValue(c, t, well, p) == Player <==> r.line || Player in Outcomes(c, t, well, p, r.found);
    if !r.line {
      OutcomesPlayer(c, t, well, p, r.found);
      FoundWinners(c, t, well, p, r.found);
    }
  }

  /** Some recorded landing leaves a well the player wins exactly when Player is among the outcomes. */
  lemma OutcomesPlayer(c: Config, t: seq<seq<Node>>, well: seq<Row>, p: int, found: seq<int>)
    requires Playable(c, t, well) && 0 <= p < NumPieces
    requires forall i :: 0 <= i < |found| ==> Landing(c, t[p], well, found[i])
    ensures Player in Outcomes(c, t, well, p, found) <==>
      exists i :: 0 <= i < |found| && LandingValue(c, t, well, p, found[i]) == Player
  {
    var outs := Outcomes(c, t, well, p, found);
    if Player in outs {
      var i :| 0 <= i < |outs| && outs[i] == Player;
      assert LandingValue(c, t, well, p, found[i]) == Player;
    }
    if exists i :: 0 <= i < |found| && LandingValue(c, t, well, p, found[i]) == Player {
      var i :| 0 <= i < |found| && LandingValue(c, t, well, p, found[i]) == Player;
      assert outs[i] == Player;
    }
  }

  /** When the landings found are exactly the reachable ones, a winning one is a reachable winning landing. */
  lemma FoundWinners(c: Config, t: seq<seq<Node>>, well: seq<Row>, p: int, found: seq<int>)
    requires Playable(c, t, well) && 0 <= p < NumPieces
    requires forall i :: 0 <= i < |found| ==> Landing(c, t[p], well, found[i])
    requires forall j :: j in found <==> Landing(c, t[p], well, j) && Reaches(c, t[p], well, 0, j)
    ensures (exists i :: 0 <= i < |found| && LandingValue(c, t, well, p, found[i]) == Player) <==>
      exists j :: Landing(c, t[p], well, j) && Reaches(c, t[p], well, 0, j) &&
        LandingValue(c, t, well, p, j) == Player
  {
    if exists i :: 0 <= i < |found| && LandingValue(c, t, well, p, found[i]) == Player {
      var i :| 0 <= i < |found| && LandingValue(c, t, well, p, found[i]) == Player;
      assert found[i] in found;
    }
    if exists j :: Landing(c, t[p], well, j) && Reaches(c, t[p], well, 0, j) &&
         LandingValue(c, t, well, p, j) == Player {
      var j :| Landing(c, t[p], well, j) && Reaches(c, t[p], well, 0, j) &&
        LandingValue(c, t, well, p, j) == Player;
      assert j in found;
      var i :| 0 <= i < |found| && found[i] == j;
    }
  }
}
