/**
 * The table the builder writes out and the solver reads. Each node of each piece's list
 * becomes one entry, in list order, holding its span, its grid, its two flags and, for each
 * key, the index i of the node the key leads to.
 */
module Table {
  import opened Core
  import opened Options
  import opened Pieces
  import opened Placement
  import opened StateGen
  import opened Game

  /** The index written for each link: the i field of the node it names (-1 while it is unset). */
  function Targets(list: seq<State>, ptrs: seq<Option<nat>>): (r: seq<int>)
    ensures |r| == |ptrs|
    ensures forall k :: 0 <= k < |ptrs| && ptrs[k].Some? && ptrs[k].value < |list| ==>
      r[k] == list[ptrs[k].value].i
  {
    seq(|ptrs|, k requires 0 <= k < |ptrs| =>
      if ptrs[k].Some? && ptrs[k].value < |list| then list[ptrs[k].value].i else -1)
  }

  /** The entry written for node s of a piece's list. */
  function EntryOf(list: seq<State>, s: State): Node
  {
    Node(s.yTop, s.yBottom, s.grid, Targets(list, s.nextPtrs), s.outOfBounds, s.overlapsSpawn)
  }

  /** The whole table: one array of entries per piece, node by node in list order. */
  function TableOf(lists: seq<seq<State>>): (t: seq<seq<Node>>)
    ensures |t| == |lists|
    ensures forall p :: 0 <= p < |lists| ==> |t[p]| == |lists[p]|
  {
    seq(|lists|, p requires 0 <= p < |lists| =>
      seq(|lists[p]|, j requires 0 <= j < |lists[p]| => EntryOf(lists[p], lists[p][j])))
  }

  /**
   * The table written from a finished graph is one the solver can search: every entry lies in
   * the well, with its grid empty outside its span and filled in its top row, its links name
   * entries of the same array, and an entry whose overlapsSpawn flag is clear shares no cell
   * with any piece's spawn entry.
   */
  lemma TableValid(c: Config, lists: seq<seq<State>>, nums: seq<int>)
    requires ValidLists(c, lists, nums)
    requires forall q :: 0 <= q < NumPieces ==> lists[q] != []
    requires forall q, j :: 0 <= q < NumPieces && 0 <= j < |lists[q]| ==> NodeDone(c, lists[q], j)
    ensures ValidTable(c, TableOf(lists))
  {
    var t := TableOf(lists);
    forall p | 0 <= p < NumPieces
      ensures WellFormed(c, t[p])
    {
      forall j | 0 <= j < |t[p]|
        ensures ValidEntry(c, |t[p]|, t[p][j])
      {
        EntryValid(c, lists, nums, p, j);
      }
    }
    forall p, j, q | 0 <= p < NumPieces && 0 <= j < |t[p]| && 0 <= q < NumPieces
      ensures t[p][j].overlapsSpawn || Disjoint(t[p][j].grid, t[q][0].grid)
    {
      EntryApart(c, lists, nums, p, j, q);
    }
  }

  /** Entry j of piece p is a valid entry of its array. */
  lemma EntryValid(c: Config, lists: seq<seq<State>>, nums: seq<int>, p: int, j: int)
    requires ValidLists(c, lists, nums) && 0 <= p < NumPieces && 0 <= j < |lists[p]|
    requires forall j' :: 0 <= j' < |lists[p]| ==> NodeDone(c, lists[p], j')
    ensures ValidEntry(c, |lists[p]|, EntryOf(lists[p], lists[p][j]))
  {
    EntrySpan(c, lists, nums, p, j);
    EntryLinks(c, lists, nums, p, j);
  }

  /** The entry's span lies in the well, its grid is empty outside it and filled in its top row. */
  lemma EntrySpan(c: Config, lists: seq<seq<State>>, nums: seq<int>, p: int, j: int)
    requires ValidLists(c, lists, nums) && 0 <= p < NumPieces && 0 <= j < |lists[p]|
    ensures var s := lists[p][j];
      0 <= s.yTop < s.yBottom <= c.fullHeight && |s.grid| == c.fullHeight &&
      (forall y :: 0 <= y < c.fullHeight && !(s.yTop <= y < s.yBottom) ==> s.grid[y] == 0) &&
      s.grid[s.yTop] != 0
  {
    var s := lists[p][j];
    assert ValidNode(c, p, j, |lists[p]|, Heads(lists), s);
    var o, x, y := s.orientationId, s.xPos, s.yPos;
    TopRowFilled(c, p, o, x, y);
    forall row | 0 <= row < c.fullHeight && !(s.yTop <= row < s.yBottom)
      ensures s.grid[row] == 0
    {
      GridOutsideSpan(c, p, o, x, y, row);
    }
  }

  /** Each of the entry's four links is the index of an entry of the same array. */
  lemma EntryLinks(c: Config, lists: seq<seq<State>>, nums: seq<int>, p: int, j: int)
    requires ValidLists(c, lists, nums) && 0 <= p < NumPieces && 0 <= j < |lists[p]|
    requires NodeDone(c, lists[p], j)
    ensures var e := EntryOf(lists[p], lists[p][j]);
      |e.next| == NumControls && forall k :: 0 <= k < NumControls ==> 0 <= e.next[k] < |lists[p]|
  {
    var list := lists[p];
    var s := list[j];
    var e := EntryOf(list, s);
    forall k | 0 <= k < NumControls
      ensures 0 <= e.next[k] < |list|
    {
      assert EdgeDone(c, list, j, k);
      var target := s.nextPtrs[k].value;
      assert ValidNode(c, p, target, |list|, Heads(lists), list[target]);
    }
  }

  /** An entry whose overlapsSpawn flag is clear shares no cell with piece q's spawn entry. */
  lemma EntryApart(c: Config, lists: seq<seq<State>>, nums: seq<int>, p: int, j: int, q: int)
    requires ValidLists(c, lists, nums) && 0 <= p < NumPieces && 0 <= j < |lists[p]|
    requires 0 <= q < NumPieces && lists[q] != []
    ensures lists[p][j].overlapsSpawn || Disjoint(lists[p][j].grid, lists[q][0].grid)
  {
    var s := lists[p][j];
    assert ValidNode(c, p, j, |lists[p]|, Heads(lists), s);
    if !s.overlapsSpawn {
      assert Heads(lists)[q] == lists[q][0].grid;
      assert !RowsMeet(s.grid, Heads(lists)[q], |s.grid|);
    }
  }

  /**
   * In the written table an entry's down link names the entry itself exactly when the piece
   * rests on the floor of the well, so the solver's stop test reads: on the floor, or the
   * placement one row lower collides.
   */
  lemma DownLinkSelf(c: Config, lists: seq<seq<State>>, nums: seq<int>, p: int, j: int)
    requires ValidLists(c, lists, nums) && 0 <= p < NumPieces && 0 <= j < |lists[p]|
    requires NodeDone(c, lists[p], j)
    ensures |TableOf(lists)[p][j].next| == NumControls
    ensures TableOf(lists)[p][j].next[DownKeyId] == j <==> lists[p][j].yBottom == c.fullHeight
  {
    var list := lists[p];
    var s := list[j];
    assert EdgeDone(c, list, j, DownKeyId);
    var target := s.nextPtrs[DownKeyId].value;
    assert ValidNode(c, p, target, |list|, Heads(lists), list[target]);
    assert ValidNode(c, p, j, |list|, Heads(lists), s);
    assert TableOf(lists)[p][j].next[DownKeyId] == target;
    DownMoves(c, AnyEnv, s);
    assert SameState(list[target], Down(c, AnyEnv, s));
  }

  /**
   * t is the table written from a finished placement graph: lists that start at each piece's
   * spawn placement, hold no placement twice, and have every link of every node set to the node
   * its key leads to.
   */
  ghost predicate Built(c: Config, t: seq<seq<Node>>)
  {
    exists lists, nums ::
      (ValidLists(c, lists, nums) &&
       (forall q :: 0 <= q < NumPieces ==> lists[q] != []) &&
       (forall q, j :: 0 <= q < NumPieces && 0 <= j < |lists[q]| ==> NodeDone(c, lists[q], j)) &&
       t == TableOf(lists))
  }

  /**
   * stategen's main without its output: start every piece's list with its spawn placement,
   * link the whole graph, and lay it out as the table the solver reads, which is then one
   * the solver can search.
   */
  method GenerateTable(c: Config) returns (t: seq<seq<Node>>)
    requires ValidConfig(c)
    ensures Built(c, t) && ValidTable(c, t)
  {
    var b := new Builder(c);
    b.StartLists();
    b.Generate();
    t := TableOf(b.states);
    TableValid(c, b.states, b.numStates);
  }
}
