/**
 * The solver of tetris.c with its global state: the well, the depth, the per-depth stacks of
 * piece ids, landing counts, landing ids and landings, and the reachable flags of the table.
 * Each routine is proved to compute the game value defined in the Game module.
 */
module Solver {
  import opened Bits
  import opened Core
  import opened Game

  class Solver {
    /** The configuration and the generated table (states.c). */
    const cfg: Config
    const table: seq<seq<Node>>
    /** short well[FULLHEIGHT] */
    const well: array<Row>
    /** short depth */
    var depth: int
    /** The stacks indexed by depth: pieceIds, numLandings, landingIds and landings. */
    const pieceIds: array<int>
    const numLandings: array<int>
    const landingIds: array<int>
    const landings: array2<int>
    /** The reachable field of each entry of each piece's list in the table. */
    var reachable: seq<seq<bool>>

    /** The arrays have the sizes the table needs and the stacks have one length. */
    predicate Valid()
    {
      ValidTable(cfg, table) && well.Length == cfg.fullHeight &&
      numLandings.Length == pieceIds.Length && landingIds.Length == pieceIds.Length &&
      landings.Length0 == pieceIds.Length &&
      (forall p :: 0 <= p < NumPieces ==> |table[p]| <= landings.Length1) &&
      pieceIds != numLandings && pieceIds != landingIds && numLandings != landingIds &&
      well as object != pieceIds && well as object != numLandings && well as object != landingIds
    }

    /** There is one reachable flag per entry of the table. */
    predicate Flagged()
      reads this`reachable
    {
      Valid() && |reachable| == NumPieces && forall p :: 0 <= p < NumPieces ==> |reachable[p]| == |table[p]|
    }

    /** The current depth has a stack slot and names a piece. */
    predicate AtDepth()
      reads this, pieceIds
    {
      Valid() && 0 <= depth < pieceIds.Length && 0 <= pieceIds[depth] < NumPieces && Flagged()
    }

    /** The landing count of the current depth fits its row of landings. */
    predicate Counted()
      reads this, pieceIds, numLandings
    {
      AtDepth() && 0 <= numLandings[depth] <= landings.Length1
    }

    /** The landings recorded at the current depth. */
    function Found(): (found: seq<int>)
      reads this`depth, pieceIds, numLandings, landings
      requires Valid() && 0 <= depth < pieceIds.Length && 0 <= numLandings[depth] <= landings.Length1
      ensures |found| == numLandings[depth]
    {
      var d, n := depth, numLandings[depth];
      seq(n, i requires 0 <= i < n reads landings => landings[d, i])
    }

    /** Allocates the well and the stacks; depth starts at 0. */
    constructor(c: Config, t: seq<seq<Node>>, maxDepth: nat, maxStates: nat)
      requires ValidTable(c, t) && forall p :: 0 <= p < NumPieces ==> |t[p]| <= maxStates
      ensures Valid() && depth == 0 && cfg == c && table == t && pieceIds.Length == maxDepth
      ensures Flagged() && forall p, i :: 0 <= p < NumPieces && 0 <= i < |t[p]| ==> !reachable[p][i]
      ensures fresh(well) && fresh(pieceIds) && fresh(numLandings) && fresh(landingIds)
      ensures fresh(landings)
    {
      cfg := c;
      table := t;
      well := new Row[c.fullHeight];
      depth := 0;
      pieceIds := new int[maxDepth];
      numLandings := new int[maxDepth];
      landingIds := new int[maxDepth];
      landings := new int[maxDepth, maxStates];
      reachable := seq(NumPieces, p requires 0 <= p < NumPieces => seq(|t[p]|, i => false));
    }

    /** collision(stateId), given the entry s the id names: s meets the well in a row it spans. */
    method Collision(s: Node) returns (b: bool)
      requires 0 <= s.yTop <= s.yBottom <= well.Length && s.yBottom <= |s.grid|
      ensures b == Collides(well[..], s)
    {
      var y := s.yTop;
      while y < s.yBottom
        invariant s.yTop <= y <= s.yBottom
        invariant forall y' :: s.yTop <= y' < y ==> !MeetsAt(well[..], s, y')
      {
        var a, g := well[y], s.grid[y];
        if a & g != 0 {
          MeetsRow(well[..], s, y, a, g);
          return true;
        }
        y := y + 1;
      }
      return false;
    }

    /** The line test of populateLandings: once s lands, a row it spans equals LINETRIGGER. */
    method LineMade(s: Node) returns (b: bool)
      requires ValidConfig(cfg)
      requires 0 <= s.yTop <= s.yBottom <= well.Length && s.yBottom <= |s.grid|
      ensures b == LineAt(cfg, well[..], s)
    {
      var full := LineTrigger(cfg);
      var y := s.yTop;
      while y < s.yBottom
        invariant s.yTop <= y <= s.yBottom
        invariant forall y' :: s.yTop <= y' < y ==> !FillsAt(cfg, well[..], s, y')
      {
        if well[y] | s.grid[y] == full {
          assert FillsAt(cfg, well[..], s, y);
          return true;
        }
        assert !FillsAt(cfg, well[..], s, y);
        y := y + 1;
      }
      return false;
    }

    /**
     * populateLandings(stateId): marks entry id and tries its keys in order, recording landings
     * at the current depth; it does what Explore describes, from the flags and landings it
     * finds, and leaves the other depths' landings alone.
     */
    method PopulateLandings(id: int) returns (line: bool)
      requires Counted() && 0 <= id < |table[pieceIds[depth]]| && !reachable[pieceIds[depth]][id]
      requires Ready(cfg, table[pieceIds[depth]], well[..], reachable[pieceIds[depth]], Found(), 0)
      modifies this`reachable, landings, numLandings
      ensures Counted()
      ensures Explore(cfg, table[pieceIds[depth]], well[..], id, old(reachable[pieceIds[depth]]), old(Found())) ==
        Search(line, reachable[pieceIds[depth]], Found())
      ensures forall d :: 0 <= d < numLandings.Length && d != depth ==> numLandings[d] == old(numLandings[d])
      ensures forall d, i :: 0 <= d < landings.Length0 && d != depth && 0 <= i < landings.Length1 ==>
        landings[d, i] == old(landings[d, i])
      ensures forall q :: 0 <= q < NumPieces && q != pieceIds[depth] ==> reachable[q] == old(reachable[q])
      decreases Unseen(reachable[pieceIds[depth]]), 0
    {
      var p := pieceIds[depth];
      ghost var s0 := reachable[p];
      reachable := reachable[p := reachable[p][id := true]];
      UnmarkedMark(s0, id, |s0|);
      for k := 0 to NumControls
        invariant Counted() && Extends(s0[id := true], reachable[p])
        invariant Ready(cfg, table[p], well[..], reachable[p], Found(), Slot(k))
        invariant ExploreKeys(cfg, table[p], well[..], id, k, reachable[p], Found()) ==
          Explore(cfg, table[p], well[..], id, s0, old(Found()))
        invariant forall q :: 0 <= q < NumPieces && q != p ==> reachable[q] == old(reachable[q])
        invariant forall d :: 0 <= d < numLandings.Length && d != depth ==> numLandings[d] == old(numLandings[d])
        invariant forall d, i :: 0 <= d < landings.Length0 && d != depth && 0 <= i < landings.Length1 ==>
          landings[d, i] == old(landings[d, i])
      {
        UnmarkedExtends(s0[id := true], reachable[p], |s0|);
        line := TryKey(id, k);
        if line {
          return;
        }
      }
      line := false;
    }

    /**
     * One pass of the key loop of populateLandings, for key k of the marked entry id: either a
     * line is made and the search stops, or the loop goes on from the flags and landings left.
     */
    method TryKey(id: int, k: int) returns (line: bool)
      requires Counted() && 0 <= id < |table[pieceIds[depth]]| && reachable[pieceIds[depth]][id]
      requires 0 <= k < NumControls
      requires Ready(cfg, table[pieceIds[depth]], well[..], reachable[pieceIds[depth]], Found(), Slot(k))
      modifies this`reachable, landings, numLandings
      ensures Counted() && Extends(old(reachable[pieceIds[depth]]), reachable[pieceIds[depth]])
      ensures !line ==> Ready(cfg, table[pieceIds[depth]], well[..], reachable[pieceIds[depth]], Found(), Slot(k + 1))
      ensures ExploreKeys(cfg, table[pieceIds[depth]], well[..], id, k, old(reachable[pieceIds[depth]]), old(Found())) ==
        if line then Search(true, reachable[pieceIds[depth]], Found())
        else ExploreKeys(cfg, table[pieceIds[depth]], well[..], id, k + 1, reachable[pieceIds[depth]], Found())
      ensures forall d :: 0 <= d < numLandings.Length && d != depth ==> numLandings[d] == old(numLandings[d])
      ensures forall d, i :: 0 <= d < landings.Length0 && d != depth && 0 <= i < landings.Length1 ==>
        landings[d, i] == old(landings[d, i])
      ensures forall q :: 0 <= q < NumPieces && q != pieceIds[depth] ==> reachable[q] == old(reachable[q])
      decreases Unseen(reachable[pieceIds[depth]]), 2
    {
      var p := pieceIds[depth];
      var nodes := table[p];
      var n := nodes[id].next[k];
      var stops := false;
      if k == DownKeyId {
        if n == id {
          stops := true;
        } else {
          stops := Collision(nodes[n]);
        }
      }
      if stops {
        line := Land(id);
      } else {
        line := Descend(id, k, n);
      }
    }

    /**
     * The down key of the loop in populateLandings when the piece cannot move down from entry
     * id: the landing is skipped when it lies wholly above the visible field, ends the search
     * when it makes a line, is skipped when it overlaps the spawn box, and is recorded otherwise.
     */
    method Land(id: int) returns (line: bool)
      requires Counted() && 0 <= id < |table[pieceIds[depth]]| && reachable[pieceIds[depth]][id]
      requires Stops(cfg, table[pieceIds[depth]], well[..], id)
      requires Ready(cfg, table[pieceIds[depth]], well[..], reachable[pieceIds[depth]], Found(), 1)
      modifies landings, numLandings
      ensures Counted()
      ensures !line ==> Ready(cfg, table[pieceIds[depth]], well[..], reachable[pieceIds[depth]], Found(), 0)
      ensures ExploreKeys(cfg, table[pieceIds[depth]], well[..], id, DownKeyId, reachable[pieceIds[depth]], old(Found())) ==
        if line then Search(true, reachable[pieceIds[depth]], Found())
        else ExploreKeys(cfg, table[pieceIds[depth]], well[..], id, DownKeyId + 1, reachable[pieceIds[depth]], Found())
      ensures forall d :: 0 <= d < numLandings.Length && d != depth ==> numLandings[d] == old(numLandings[d])
      ensures forall d, i :: 0 <= d < landings.Length0 && d != depth && 0 <= i < landings.Length1 ==>
        landings[d, i] == old(landings[d, i])
    {
      var nodes := table[pieceIds[depth]];
      ghost var w, seen, found := well[..], reachable[pieceIds[depth]], Found();
      if nodes[id].outOfBounds {
        KeySkipped(cfg, nodes, w, id, DownKeyId, seen, found);
        return false;
      }
      line := LineMade(nodes[id]);
      if line {
        KeyLine(cfg, nodes, w, id, seen, found);
        return;
      }
      if nodes[id].overlapsSpawn {
        KeySkipped(cfg, nodes, w, id, DownKeyId, seen, found);
        return;
      }
      KeyRecorded(cfg, nodes, w, id, seen, found);
      RecordLanding(id);
    }

    /**
     * The other keys of the loop in populateLandings: key k of the marked entry id leads to n,
     * which is explored unless it is already reachable or collides with the well.
     */
    method Descend(id: int, k: int, n: int) returns (line: bool)
      requires Counted() && 0 <= id < |table[pieceIds[depth]]| && reachable[pieceIds[depth]][id]
      requires 0 <= k < NumControls && n == table[pieceIds[depth]][id].next[k]
      requires !(k == DownKeyId && Stops(cfg, table[pieceIds[depth]], well[..], id))
      requires Ready(cfg, table[pieceIds[depth]], well[..], reachable[pieceIds[depth]], Found(), Slot(k))
      modifies this`reachable, landings, numLandings
      ensures Counted() && Extends(old(reachable[pieceIds[depth]]), reachable[pieceIds[depth]])
      ensures !line ==> Ready(cfg, table[pieceIds[depth]], well[..], reachable[pieceIds[depth]], Found(), Slot(k + 1))
      ensures ExploreKeys(cfg, table[pieceIds[depth]], well[..], id, k, old(reachable[pieceIds[depth]]), old(Found())) ==
        if line then Search(true, reachable[pieceIds[depth]], Found())
        else ExploreKeys(cfg, table[pieceIds[depth]], well[..], id, k + 1, reachable[pieceIds[depth]], Found())
      ensures forall d :: 0 <= d < numLandings.Length && d != depth ==> numLandings[d] == old(numLandings[d])
      ensures forall d, i :: 0 <= d < landings.Length0 && d != depth && 0 <= i < landings.Length1 ==>
        landings[d, i] == old(landings[d, i])
      ensures forall q :: 0 <= q < NumPieces && q != pieceIds[depth] ==> reachable[q] == old(reachable[q])
      decreases Unseen(reachable[pieceIds[depth]]), 1
    {
      var p := pieceIds[depth];
      var nodes := table[p];
      ghost var w, seen, found := well[..], reachable[p], Found();
      if reachable[p][n] {
        KeySkipped(cfg, nodes, w, id, k, seen, found);
        return false;
      }
      var hit := Collision(nodes[n]);
      if hit {
        KeySkipped(cfg, nodes, w, id, k, seen, found);
        return false;
      }
      line := PopulateLandings(n);
      KeyExplored(cfg, nodes, w, id, k, seen, found, Search(line, reachable[p], Found()));
    }

    /** saveLanding(getNumLandings(), stateId) and incrementNumLandings(). */
    method RecordLanding(id: int)
      requires Counted() && numLandings[depth] < landings.Length1
      modifies landings, numLandings
      ensures Counted() && Found() == old(Found()) + [id]
      ensures forall d :: 0 <= d < numLandings.Length && d != depth ==> numLandings[d] == old(numLandings[d])
      ensures forall d, i :: 0 <= d < landings.Length0 && d != depth && 0 <= i < landings.Length1 ==>
        landings[d, i] == old(landings[d, i])
    {
      landings[depth, numLandings[depth]] := id;
      numLandings[depth] := numLandings[depth] + 1;
      assert forall i :: 0 <= i < |Found()| ==> Found()[i] == (old(Found()) + [id])[i];
    }
    /** The loop of pieceWinner that adds the landing to the well: well[y] |= grid[y] over its span. */
    method AddPiece(s: Node)
      requires 0 <= s.yTop <= s.yBottom <= well.Length && |s.grid| == well.Length
      requires forall y :: 0 <= y < well.Length && !(s.yTop <= y < s.yBottom) ==> s.grid[y] == 0
      modifies well
      ensures well[..] == Add(old(well[..]), s.grid)
    {
      ghost var w0 := well[..];
      var y := s.yTop;
      while y < s.yBottom
        invariant s.yTop <= y <= s.yBottom
        invariant well[..] == AddRows(w0, s.grid, s.yTop, y)
      {
        ghost var before := well[..];
        var v := well[y] | s.grid[y];
        well[y] := v;
        assert well[..] == before[y := v];
        AddRowsNext(w0, s.grid, s.yTop, y, before, v);
        y := y + 1;
      }
      AddRowsSpan(w0, s.grid, s.yTop, s.yBottom);
    }

    /** The loop of pieceWinner that undoes the landing: well[y] &= ~grid[y] over its span. */
    method RemovePiece(s: Node)
      requires 0 <= s.yTop <= s.yBottom <= well.Length && |s.grid| == well.Length
      requires forall y :: 0 <= y < well.Length && !(s.yTop <= y < s.yBottom) ==> s.grid[y] == 0
      modifies well
      ensures well[..] == Remove(old(well[..]), s.grid)
    {
      ghost var w0 := well[..];
      var y := s.yTop;
      while y < s.yBottom
        invariant s.yTop <= y <= s.yBottom
        invariant well[..] == RemoveRows(w0, s.grid, s.yTop, y)
      {
        ghost var before := well[..];
        var v := well[y] & !s.grid[y];
        well[y] := v;
        assert well[..] == before[y := v];
        RemoveRowsNext(w0, s.grid, s.yTop, y, before, v);
        y := y + 1;
      }
      RemoveRowsSpan(w0, s.grid, s.yTop, s.yBottom);
    }

    /**
     * wellWinner(): tries each piece in turn at the current depth and reports AI as soon as one
     * lets the AI win, PLAYER otherwise; this is WellValue of the well. The well, the depth and
     * the stacks below the current depth are as they were.
     */
    method WellWinner() returns (w: Winner)
      requires Valid() && Flagged() && 0 <= depth && Playable(cfg, table, well[..])
      requires depth + Vacancies(well[..]) < pieceIds.Length
      modifies this`reachable, this`depth, well, pieceIds, numLandings, landingIds, landings
      ensures w == WellValue(cfg, table, old(well[..]))
      ensures Flagged() && depth == old(depth) && well[..] == old(well[..])
      ensures forall d :: 0 <= d < depth ==>
        pieceIds[d] == old(pieceIds[d]) && numLandings[d] == old(numLandings[d]) && landingIds[d] == old(landingIds[d])
      ensures forall d, i :: 0 <= d < depth && 0 <= i < landings.Length1 ==> landings[d, i] == old(landings[d, i])
      decreases Vacancies(well[..]), 3
    {
      ghost var w0 := well[..];
      pieceIds[depth] := 0;
      while pieceIds[depth] < NumPieces
        invariant Flagged() && depth == old(depth) && well[..] == w0
        invariant 0 <= pieceIds[depth] <= NumPieces
        invariant forall q :: 0 <= q < pieceIds[depth] ==> PieceValue(cfg, table, w0, q) == Player
        invariant forall d :: 0 <= d < depth ==>
          pieceIds[d] == old(pieceIds[d]) && numLandings[d] == old(numLandings[d]) && landingIds[d] == old(landingIds[d])
        invariant forall d, i :: 0 <= d < depth && 0 <= i < landings.Length1 ==> landings[d, i] == old(landings[d, i])
        decreases NumPieces - pieceIds[depth]
      {
        var who := PieceWinner();
        if who == AI {
          return AI;
        }
        pieceIds[depth] := pieceIds[depth] + 1;
      }
      return Player;
    }

    /**
     * pieceWinner(): clears the flags of the current piece, searches its landings from the spawn
     * and reports PLAYER when the search makes a line or some landing leaves a well the player
     * wins; this is PieceValue of the well and the piece.
     */
    method PieceWinner() returns (w: Winner)
      requires AtDepth() && Playable(cfg, table, well[..])
      requires depth + Vacancies(well[..]) < pieceIds.Length
      modifies this`reachable, this`depth, well, pieceIds, numLandings, landingIds, landings
      ensures w == PieceValue(cfg, table, old(well[..]), old(pieceIds[depth]))
      ensures Flagged() && depth == old(depth) && well[..] == old(well[..])
      ensures forall d :: 0 <= d <= depth ==> pieceIds[d] == old(pieceIds[d])
      ensures forall d :: 0 <= d < depth ==> numLandings[d] == old(numLandings[d]) && landingIds[d] == old(landingIds[d])
      ensures forall d, i :: 0 <= d < depth && 0 <= i < landings.Length1 ==> landings[d, i] == old(landings[d, i])
      decreases Vacancies(well[..]), 2
    {
      ghost var w0, p := well[..], pieceIds[depth];
      var line := SearchSpawn();
      if line {
        return Player;
      }
      SpawnSearchSound(cfg, table, w0, p);
      w := TryLandings();
    }

    /**
     * The first half of pieceWinner: every flag of the current piece cleared, no landings at the
     * current depth, then populateLandings(0); its outcome is the search SpawnSearch describes.
     */
    method SearchSpawn() returns (line: bool)
      requires AtDepth() && Playable(cfg, table, well[..])
      modifies this`reachable, numLandings, landings
      ensures Counted() && Found() == SpawnSearch(cfg, table, well[..], pieceIds[depth]).found
      ensures line == SpawnSearch(cfg, table, well[..], pieceIds[depth]).line
      ensures forall q :: 0 <= q < NumPieces && q != pieceIds[depth] ==> reachable[q] == old(reachable[q])
      ensures forall d :: 0 <= d < numLandings.Length && d != depth ==> numLandings[d] == old(numLandings[d])
      ensures forall d, i :: 0 <= d < landings.Length0 && d != depth && 0 <= i < landings.Length1 ==>
        landings[d, i] == old(landings[d, i])
    {
      var p := pieceIds[depth];
      var i := 0;
      while i < |table[p]|
        modifies this`reachable
        invariant 0 <= i <= |table[p]| && AtDepth() && pieceIds[depth] == p
        invariant forall j :: 0 <= j < i ==> !reachable[p][j]
        invariant forall q :: 0 <= q < NumPieces && q != p ==> reachable[q] == old(reachable[q])
      {
        reachable := reachable[p := reachable[p][i := false]];
        i := i + 1;
      }
      ghost var seen0 := reachable[p];
      assert seen0 == Cleared(|table[p]|);
      numLandings[depth] := 0;
      ghost var found0 := Found();
      assert found0 == [];
      UnmarkedNone(seen0, |table[p]|);
      line := PopulateLandings(0);
      assert Explore(cfg, table[p], well[..], 0, seen0, found0) == Search(line, reachable[p], Found());
    }

    /**
     * The landing loop of pieceWinner: PLAYER as soon as one recorded landing leaves a well the
     * player wins, AI when none does.
     */
    method TryLandings() returns (w: Winner)
      requires Counted() && Playable(cfg, table, well[..])
      requires depth + Vacancies(well[..]) < pieceIds.Length
      requires forall i :: 0 <= i < |Found()| ==> Landing(cfg, table[pieceIds[depth]], well[..], Found()[i])
      modifies this`reachable, this`depth, well, pieceIds, numLandings, landingIds, landings
      ensures w == Player <==> Player in Outcomes(cfg, table, old(well[..]), old(pieceIds[depth]), old(Found()))
      ensures Flagged() && depth == old(depth) && well[..] == old(well[..])
      ensures forall d :: 0 <= d <= depth ==> pieceIds[d] == old(pieceIds[d])
      ensures forall d :: 0 <= d < depth ==> numLandings[d] == old(numLandings[d]) && landingIds[d] == old(landingIds[d])
      ensures forall d, i :: 0 <= d < depth && 0 <= i < landings.Length1 ==> landings[d, i] == old(landings[d, i])
      decreases Vacancies(well[..]), 1
    {
      var d := depth;
      var p := pieceIds[d];
      ghost var w0, found := well[..], Found();
      ghost var outs := Outcomes(cfg, table, w0, p, found);
      landingIds[d] := 0;
      while landingIds[d] < numLandings[d]
        invariant depth == d && Flagged() && well[..] == w0
        invariant pieceIds[d] == p && numLandings[d] == |found|
        invariant forall i :: 0 <= i < |found| ==> landings[d, i] == found[i]
        invariant 0 <= landingIds[d] <= |found|
        invariant forall i :: 0 <= i < landingIds[d] ==> outs[i] != Player
        invariant forall e :: 0 <= e < d ==> pieceIds[e] == old(pieceIds[e])
        invariant forall e :: 0 <= e < d ==> numLandings[e] == old(numLandings[e]) && landingIds[e] == old(landingIds[e])
        invariant forall e, i :: 0 <= e < d && 0 <= i < landings.Length1 ==> landings[e, i] == old(landings[e, i])
        decreases |found| - landingIds[d]
      {
        var j := landings[d, landingIds[d]];
        var who := Visit(j);
        assert who == outs[landingIds[d]];
        if who == Player {
          return Player;
        }
        landingIds[d] := landingIds[d] + 1;
      }
      return AI;
    }

    /**
     * One pass of the landing loop of pieceWinner: landing j of the current piece is added to the
     * well, the well one level deeper is solved, and the landing is taken out again.
     */
    method Visit(j: int) returns (who: Winner)
      requires AtDepth() && Playable(cfg, table, well[..])
      requires depth + Vacancies(well[..]) < pieceIds.Length
      requires Landing(cfg, table[pieceIds[depth]], well[..], j)
      modifies this`reachable, this`depth, well, pieceIds, numLandings, landingIds, landings
      ensures who == LandingValue(cfg, table, old(well[..]), old(pieceIds[depth]), j)
      ensures Flagged() && depth == old(depth) && well[..] == old(well[..])
      ensures forall d :: 0 <= d <= depth ==>
        pieceIds[d] == old(pieceIds[d]) && numLandings[d] == old(numLandings[d]) && landingIds[d] == old(landingIds[d])
      ensures forall d, i :: 0 <= d <= depth && 0 <= i < landings.Length1 ==> landings[d, i] == old(landings[d, i])
      decreases Vacancies(well[..]), 0
    {
      var p := pieceIds[depth];
      ghost var w0 := well[..];
      var s := table[p][j];
      assert ValidEntry(cfg, |table[p]|, s);
      LandingFills(cfg, |table[p]|, w0, s);
      LandingKeepsClear(cfg, table, w0, p, j);
      NoCollisionDisjoint(cfg, |table[p]|, w0, s);
      AddPiece(s);
      depth := depth + 1;
      who := WellWinner();
      depth := depth - 1;
      RemovePiece(s);
      RemoveAdd(w0, s.grid);
    }

    /**
     * main: empties the well and solves it from depth 0; the answer is WellValue of the empty
     * well.
     */
    method Solve() returns (w: Winner)
      requires Valid() && Flagged() && depth == 0 && 16 * cfg.fullHeight < pieceIds.Length
      modifies this`reachable, this`depth, well, pieceIds, numLandings, landingIds, landings
      ensures w == WellValue(cfg, table, Empty(cfg.fullHeight))
    {
      for y := 0 to well.Length
        modifies well
        invariant forall y' :: 0 <= y' < y ==> well[y'] == 0
      {
        well[y] := 0;
      }
      assert well[..] == Empty(cfg.fullHeight);
      VacanciesEmpty(cfg.fullHeight);
      EmptyPlayable(cfg, table);
      w := WellWinner();
    }
  }
}
