# Tetris: can the player force a line?

This project models, in Dafny, the two programs at the heart of qntm's adversarial Tetris
solver. Both work on a well of `WIDTH` columns and `FULLHEIGHT` rows, with `SPARELINES` rows
above the visible field. Each row is a 16-bit mask, and bit 0 is the right-hand column.

- **The placement-graph builder** (`stategen.c`).
  - For each of the seven pieces it builds every placement: a piece, an orientation and a box
    position (xPos, yPos) inside the well.
  - A placement's derived data are its bounding-box offsets and dimensions, its span
    `[yTop, yBottom)`, one grid mask per row, and two flags: `outOfBounds` and `overlapsSpawn`.
  - It links each placement to the placement each key leads to: rotate, left, right or down.
    A key whose move would leave the well links the placement to itself.
  - Placements are deduplicated by their four key fields, and each piece's list grows at its
    tail while the main loop walks it.
  - The builder then writes the graph out as a table.
- **The solver** (`tetris.c`).
  - It reads that table and decides who wins the empty well.
  - The AI picks each next piece. The player wins if they can always complete a line.
  - `populateLandings` is a depth-first search over the piece's placements. It marks nodes
    `reachable`, records landing sites in the current depth's stack slot, and stops at the
    first landing that completes a line.
  - `pieceWinner` and `wellWinner` are the mutually recursive exists/forall search.
  - The search works on one global well. Each landing is ORed into it, the well one level
    deeper is solved, and the landing is cleared again with `&= ~grid`.

The model keeps each file's own form:

| Part of the source | How it is modelled |
|---|---|
| Piece masks, the transitions and `sameState` (pure code) | Datatypes and functions: `Pieces`, `Placement` |
| The constructor's loops, `locateState`, `storeState`, `getStatePtr` and the worklist of `main` | Methods of a `Builder` class in `StateGen`, whose fields are the per-piece lists (a sequence for each linked list, an index for each node address) and the node counts |
| The table writer | `Table`, which also proves that the table a finished graph produces meets every assumption the solver makes |
| The solver | A `Solver` class in `Solver`, with the well as an `array`, `depth` as a field, and the per-depth stacks as arrays (`landings` is an `array2`) |
| What the solver computes | Specified by functions in `Game`: the search `Explore` and the game value `WellValue` / `PieceValue` / `LandingValue` |

`WellWinner`, `PieceWinner`, `TryLandings` and `Visit` are each proved to return exactly
that value and to leave the well, `depth` and the lower stack slots as they found them.
`PopulateLandings` is proved to do what `Explore` describes. `Game.PieceValueWalks` then ties
the value back to the game itself: the moves a player can make with the piece. Finally,
`Tetris.Decide` runs the builder and the solver one after the other.

Some details of `tetris.c` that the model keeps as they are:

- The solver keeps no cache of solved wells. Every well is searched afresh.
- A placement collides when some row it spans shares a cell with the well.
- A placement is outOfBounds when it lies wholly above the visible field, that is when
  yBottom <= SPARELINES.
- A landing is taken out of the well again with `well[y] &= ~grid[y]`.
- The program reports only the winner, not a strategy.

## Model

| member | source | states |
|---|---|---|
| Core.Margin | stategen.c:16 | MARGIN is (WIDTH - BOXSIZE) / 2 rounded down: twice it is at most WIDTH - 4 and within 1 of it |
| Core.LineTrigger | stategen.c:569 | LINETRIGGER = (1 << WIDTH) - 1 has exactly columns 0 .. WIDTH-1 filled |
| Bits.BitShift | stategen.c:213 | the column test used throughout, `(r >> x) & 1`, is the Bit predicate the model reasons with |
| Bits.Single | stategen.c:215 | `1 << x` has exactly column x filled |
| Bits.BitOr | tetris.c:301 | a column is filled in `a \| b` iff it is filled in a or in b |
| Bits.BitAnd | tetris.c:161 | a column is filled in `a & b` iff it is filled in both |
| Bits.NonZeroHasBit | tetris.c:161 | a non-zero row has a filled column |
| Bits.AllBitsClear | tetris.c:161 | a row with no filled column is 0 |
| Pieces.Catalog | stategen.c:74-83 | the seven pieces in search order o, i, j, l, s, t, z, with their spawn columns (odd or even width), spawn rows and orientation masks |
| Pieces.Shapes | stategen.c:22-54 | each piece has one to four orientations, each of BOXSIZE rows |
| Pieces.FirstNonZero | stategen.c:164-168 | the first non-empty mask row: every row before it is empty, and it is non-empty unless it is past the box |
| Pieces.NonZeroRun | stategen.c:171-175 | the run of non-empty rows: every row in it is non-empty and the row after it is empty |
| Pieces.OrRows | stategen.c:171-174 | allMask, the OR of the run, has a column filled iff some row of the run has it filled |
| Pieces.LowZeros | stategen.c:178-182 | xOffset: columns below it are empty and the column itself is filled |
| Pieces.OnesRun | stategen.c:185-189 | xDim: the columns of the run are filled and the one after it is empty |
| Pieces.CatalogSolid | stategen.c:22-54 | every orientation has a filled top row, no gap between filled rows, fits its box, and its box measurements match the table the model uses |
| Pieces.SpawnFits | stategen.c:74-83 | every piece's spawn box, shifted by MARGIN, lies within the well's columns, with its top row two rows above the visible field |
| Placement.GridCell | stategen.c:205-218 | grid row y has column x filled iff x < WIDTH and (x, y) is a cell of the mask placed at (xPos, yPos); every other row is 0 |
| Placement.RowBitsCells | stategen.c:207-217 | one grid row built column by column holds exactly the piece's cells among the first n columns |
| Placement.GridOutsideSpan | stategen.c:198-218 | grid rows outside [yTop, yBottom) are 0 |
| Placement.TopRowFilled | stategen.c:198-218 | a placement inside the well spans at least one row and its top grid row is non-empty |
| Placement.SpawnInBounds | stategen.c:481-488 | each spawn placement lies inside the well, its top row is SPARELINES - 2, and it is outOfBounds |
| Placement.StateOfDerived | stategen.c:150-199 | `StateOf`, the record the constructor builds: it keeps its four key fields, and yTop = yPos + yOffset and yBottom = yTop + yDim |
| Placement.NextOrientation | stategen.c:304 | `(o + 1) % numOrientations` is the next orientation, wrapping to 0 |
| Placement.RightMoves | stategen.c:268-276 | `Right`: right returns its input iff xPos + xOffset <= 0; otherwise it keeps piece, orientation and row and decrements xPos |
| Placement.LeftMoves | stategen.c:279-287 | `Left`: left returns its input iff xPos + xOffset + xDim >= WIDTH; otherwise it increments xPos |
| Placement.DownMoves | stategen.c:290-298 | `Down`: down returns its input iff yPos + yOffset + yDim >= FULLHEIGHT; otherwise it increments yPos |
| Placement.RotateTurns | stategen.c:301-319 | `Rotate`: when the next orientation's box (from the Boxes table) fits in [0, WIDTH) x [0, FULLHEIGHT) at the same xPos and yPos, rotate keeps the piece and the position, turns to that orientation and stays a consistent placement inside the well; otherwise it returns its input |
| Placement.ControlKeepsInBounds | stategen.c:268-329 | `Control`, the controls table: every key keeps the piece and keeps a placement inside the well inside it |
| Placement.ControlIgnoresEnv | stategen.c:324-348 | which node a key leads to, by sameState, does not depend on the builder's lists |
| Placement.SameStateBuilt | stategen.c:334-348 | `SameState` on two placements built in one environment holds exactly when they are the same record, so looking nodes up by their four key fields is sound |
| Placement.LeftUndoesRight | stategen.c:268-287 | left after a successful right gives back the same node |
| Placement.RightUndoesLeft | stategen.c:268-287 | right after a successful left gives back the same node |
| StateGen.MaskRows | stategen.c:163-175 | the first two loops of the constructor compute yOffset, yDim and allMask as the measuring functions define them |
| StateGen.SkipEmptyColumns | stategen.c:177-182 | the third loop counts the empty columns to the right of allMask |
| StateGen.CountFilledColumns | stategen.c:184-189 | the fourth loop counts the filled columns after them |
| StateGen.MaskColumns | stategen.c:177-189 | the two column loops give xOffset and xDim, with column xOffset of allMask filled and xDim >= 1 |
| StateGen.MeasureBox | stategen.c:163-189 | the four measuring loops give the orientation's box |
| StateGen.FillRow | stategen.c:206-217 | the inner grid loop builds row y of the grid |
| StateGen.FillGrid | stategen.c:203-218 | the grid loops build the placement's grid |
| StateGen.RowsOverlap | stategen.c:247-251 | the row loop reports whether some row of the grid shares a cell with a spawn grid |
| StateGen.LastRowRead | stategen.c:171 | the row the second loop reads when it stops, masks[yOffset + yDim], lies after the run of non-empty rows and at most at BOXSIZE, and is itself an empty row whenever it lies inside the box, so the loop stops exactly there |
| StateGen.UprightIReadsPastBox | stategen.c:165-171 | for the upright I that row is masks[4], one past its box |
| StateGen.Builder.constructor | stategen.c:146 | all lists start empty and all node counts at 0 |
| StateGen.Builder.NewState | stategen.c:150-265 | the constructor builds exactly the placement StateOf describes, with the builder's spawn grids and the piece's node count |
| StateGen.Builder.SpawnOverlap | stategen.c:223-253 | overlapsSpawn is set for the first placement of a piece, and otherwise iff its grid shares a cell with some piece's spawn grid |
| StateGen.Builder.LocateState | stategen.c:352-361 | returns the index of the first node that is the same placement, or none when no node is |
| StateGen.Builder.StoreState | stategen.c:364-393 | appends the node at the tail of its piece's list, increments that piece's count by one and returns the node's index |
| StateGen.Builder.GetStatePtr | stategen.c:398-404 | returns the first equal node with nothing changed, or else appends exactly one node at the tail and counts it |
| StateGen.Builder.ApplyControl | stategen.c:324-329 | `controls[k]` applied to a node is Control of key k |
| StateGen.Builder.RotateState | stategen.c:301-319 | rotate, built with the constructor, is the Rotate function |
| StateGen.Builder.LeftState | stategen.c:279-287 | left is the Left function |
| StateGen.Builder.RightState | stategen.c:268-276 | right is the Right function |
| StateGen.Builder.DownState | stategen.c:290-298 | down is the Down function |
| StateGen.Builder.SpawnState | stategen.c:481-487 | the spawn placement is a valid first node at the spawn key, with overlapsSpawn set |
| StateGen.Builder.StartLists | stategen.c:477-490 | afterwards every piece's list holds exactly its spawn node and the lists are valid |
| StateGen.Builder.Generate | stategen.c:492-515 | the finished graph: lists valid, without duplicates, and every link of every node set to the node its key leads to, inside the same list |
| StateGen.Builder.Expand | stategen.c:493-514 | walking a growing list to its end leaves every node of it linked and the other lists untouched |
| StateGen.Builder.Link | stategen.c:497-510 | the four links of one node are set, and the list only grows |
| StateGen.Builder.LinkKey | stategen.c:500-509 | link k is set to the node key k leads to, and the node's other links are kept |
| StateGen.Builder.Target | stategen.c:500-506 | the index of the node key k leads to, stored first if it is new |
| StateGen.ListBound | stategen.c:492-515 | a list without duplicates has no more nodes than there are keys in the well, so the worklist ends |
| StateGen.EdgeKeptGrows | stategen.c:492-515 | a link already set stays correct as the list grows and other links are set |
| StateGen.AppendValid | stategen.c:386-390 | appending a node that is not yet in the list keeps it free of duplicates and each node's i its index |
| Table.Targets | stategen.c:599-605 | each link is written as the index i of the node it names |
| Table.TableOf | stategen.c:583-622 | one array of entries per piece, one entry per node in list order |
| Table.EntryValid | stategen.c:583-622 | every written entry lies in the well, has its grid inside its span, and its links index its own array |
| Table.EntryApart | stategen.c:223-253 | an entry whose overlapsSpawn flag is clear shares no cell with any spawn entry |
| Table.TableValid | stategen.c:472-622 | a finished graph gives a table the solver can search |
| Table.GenerateTable | stategen.c:472-622 | building and writing the graph yields `Built`: the table is TableOf some finished graph, whose lists start at the spawn placements, hold no placement twice and have every link set to its key's target; that table is one the solver can search |
| Game.CollidesCells | tetris.c:158-166 | `Collides`: a placement collides exactly when the well and the placement both fill some cell of a row the placement spans |
| Game.FullRow | tetris.c:215 | `(well[y] \| grid[y]) == LINETRIGGER` holds exactly when, once the piece lands, the row fills every column 0 .. WIDTH-1 and no other |
| Game.LineAtCells | tetris.c:213-219 | `LineAt`: landing completes a line exactly when some row the placement spans becomes full |
| Table.DownLinkSelf | tetris.c:184-193 | the first half of `Stops`: in a table the builder writes, an entry's down link names the entry itself exactly when the piece rests on the floor |
| Game.RemoveAdd | tetris.c:300-311 | ORing a landing that does not meet the well into it and clearing it with `&= ~grid` gives back the well |
| Game.AddRowsSpan | tetris.c:300-302 | ORing in only the spanned rows is ORing in the whole grid |
| Game.RemoveRowsSpan | tetris.c:309-311 | clearing only the spanned rows is clearing the whole grid |
| Game.NoCollisionDisjoint | tetris.c:158-166 | a placement that does not collide shares no cell with the well in any row |
| Game.LandingFills | tetris.c:296-306 | a recorded landing fills at least one empty cell, so the number of empty cells falls and the recursion ends |
| Game.VacantFall | tetris.c:300-302 | filling cells never adds empty cells, and filling a cell that was empty removes one |
| Game.VacanciesEmpty | tetris.c:376-380 | the empty well has 16 * FULLHEIGHT empty cells |
| Game.EmptyPlayable | tetris.c:376-386 | the empty well shares no cell with any spawn placement |
| Game.LandingKeepsClear | tetris.c:225-233 | landing a placement whose overlapsSpawn flag is clear keeps the well clear of every spawn placement |
| Game.SpawnFree | tetris.c:282 | in such a well the spawn placement never collides, so the search may start there without a collision check |
| Game.Explore | tetris.c:172-261 | the search only adds marks, marks its start, only appends landings, and records no more landings than it marks nodes |
| Game.ExploreKeys | tetris.c:181-256 | the key loop only adds marks and only appends landings |
| Game.KeyRecorded | tetris.c:229-233 | any other stop is appended to the landings |
| Game.KeyExplored | tetris.c:251-254 | a fresh target is explored, and a line found there ends the search |
| Game.ExploreLandings | tetris.c:187-233 | every recorded landing is a stop, not outOfBounds, completes no line, does not overlap the spawns and does not collide |
| Game.ExploreLine | tetris.c:213-219 | the search reports a line only when a marked, non-colliding stop inside the visible field completes one |
| Game.ExploreSettles | tetris.c:172-261 | a search that ends without a line has done every key of every node it marked |
| Game.SpawnSearchSound | tetris.c:272-289 | the search from the spawn (`SpawnSearch`) marks only entries that a walk of legal moves from the spawn reaches. Everything it records is such a reachable landing, and it reports a line only at a reachable landing that completes one |
| Game.ExploreReaches | tetris.c:172-261 | started at an entry a walk reaches, the search marks only entries walks reach: each recursive call follows one legal move |
| Game.ExploreFoundMarked | tetris.c:176-233 | the search records only entries it has marked |
| Game.SpawnSearchComplete | tetris.c:272-289 | without a line, the search from the spawn marks every node a walk of legal moves reaches, and records every stop on such a walk that is inside the field and clear of the spawns |
| Game.SpawnSearchExact | tetris.c:272-289 | both directions: the search reports a line exactly when some walk from the spawn ends at a stop inside the field that completes a line. Without a line, an entry is among the recorded landings exactly when it is a landing some walk from the spawn reaches |
| Game.PieceValueWalks | tetris.c:270-335 | `PieceValue`: the player wins with piece p exactly when some walk from the spawn ends at a stop that completes a line, or at a landing after which the player wins the well |
| Game.OutcomesPlayer | tetris.c:291-325 | `Outcomes`: PLAYER is among the outcomes exactly when some recorded landing's `LandingValue` is PLAYER |
| Game.WalkMarked | tetris.c:240-252 | marks closed under moves contain every node a walk from a marked node visits |
| Solver.Solver.constructor | tetris.c:23-49 | the well has FULLHEIGHT rows, the stacks share one capacity, depth starts at 0, and there is one reachable flag per table entry, all clear |
| Solver.Solver.Collision | tetris.c:158-166 | TRUE iff some row the placement spans shares a cell with the well |
| Solver.Solver.LineMade | tetris.c:213-219 | TRUE iff some spanned row ORed with the grid equals LINETRIGGER |
| Solver.Solver.PopulateLandings | tetris.c:172-261 | the outcome, the marks and the landings at the current depth are what Explore describes. Other depths' landings and other pieces' flags are untouched |
| Solver.Solver.TryKey | tetris.c:181-256 | one pass of the key loop does what ExploreKeys describes for that key. Other pieces' flags are untouched |
| Solver.Solver.Land | tetris.c:187-234 | the down key at a stop: skip when outOfBounds, TRUE on a line, skip when it overlaps the spawns, record otherwise |
| Solver.Solver.Descend | tetris.c:238-255 | any other key: skip a reachable or colliding target, else explore it and stop on a line. Other pieces' flags are untouched |
| Solver.Solver.RecordLanding | tetris.c:230-233 | the landing is appended to the current depth's landings, whose count rises by exactly one |
| Solver.Solver.AddPiece | tetris.c:300-302 | the well afterwards is the old well with the landing's grid ORed in |
| Solver.Solver.RemovePiece | tetris.c:309-311 | the well afterwards is the old well with the landing's grid cleared |
| Solver.Solver.SearchSpawn | tetris.c:272-289 | clears the piece's flags and the landing count, then searches from the spawn; outcome and landings are SpawnSearch's. Other pieces' flags are untouched |
| Solver.Solver.Visit | tetris.c:296-311 | adds the landing, solves one level deeper and removes it; the answer is LandingValue, and the well and depth are restored |
| Solver.Solver.TryLandings | tetris.c:291-325 | PLAYER iff some recorded landing leaves a well the player wins; AI when there are none |
| Solver.Solver.PieceWinner | tetris.c:270-335 | PLAYER iff the search makes a line or some landing leaves a winning well (PieceValue); the well, depth and lower stack slots are restored |
| Solver.Solver.WellWinner | tetris.c:338-370 | AI iff some piece, tried in order, lets the AI win (WellValue); the well, depth and lower stack slots are restored |
| Solver.Solver.Solve | tetris.c:374-386 | zeroes the well and returns WellValue of the empty well |
| Tetris.Decide | tetris.c:374-386 | the table is `Built` from the finished placement graph, and it is one the solver can search. A solver built on it, with its flags clear, returns WellValue of the empty well under that table |

## Left out

- Output and tooling, all I/O that does not affect the graph or the result, are left out:
  - the table writer's text output in stategen.c (`fopen`/`fprintf` and file selection). The
    table's content is modelled by `Table.TableOf`.
  - `print`/`show` in both files, `printState`, `dumpProgress`, the timing code and the
    `#if SHOW` blocks.
- Neither program's fatal exits are modelled:
  - the `malloc` failure exit in `storeState` is not modelled: lists are unbounded sequences.
  - the "spawn states not populated" exit is a precondition instead: every transition method
    requires `Spawned()`, and `StartLists` establishes it.
- `core.c` and `states.c` are not part of this model.
  - WIDTH, SPARELINES and FULLHEIGHT are the fields of a `Config`, with
    4 <= WIDTH <= 15 so that a row fits a `short` below its sign bit.
  - The solver's table is a parameter, and `Table.TableValid` discharges its assumptions.
- MARGIN is computed with integer division instead of `floor` on a double. The two agree
  because WIDTH >= 4.
- Solver.Solver.Solve requires stack capacity above 16 * FULLHEIGHT, not MAXDEPTH =
  FULLHEIGHT * (WIDTH - 1) / 4. Termination and stack bounds are argued from the number of
  empty cells (16 per row), which each landing lowers by at least one. The sharper argument
  that each landing fills four cells of a row that never becomes full is not modelled.
- Solver.Solver.WellWinner, Solver.Solver.PieceWinner, Solver.Solver.TryLandings and
  Solver.Solver.Visit require `depth + Vacancies(well) < capacity` for the same reason.
- Solver.Solver.Collision and Solver.Solver.LineMade take the table entry rather than its
  index.
- Several C loop bodies are extracted into their own methods. Each has the contract of the
  loop pass it stands for:
  - `TryKey`, `Land` and `Descend` (the key loop of `populateLandings`);
  - `SearchSpawn`, `TryLandings` and `Visit` (parts of `pieceWinner`);
  - `Expand`, `Link`, `LinkKey` and `Target` (the worklist of stategen's `main`).
- The reachable flags are a field of the solver of type `seq<seq<bool>>`, not a field of each
  table entry. Only the solver writes them, so no aliasing is lost.
- The constructor's `reachable = 0` and the list's `successor` link have no field of their
  own. List order stands for the successor chain.
- Tetris.Decide hands the table from builder to solver as a value. It does not write or compile
  the generated states.c file.

## Findings

| source | as written | input that shows it | evidently intended | confidence | as-written member | corrected member |
|---|---|---|---|---|---|---|
| stategen.c:165-171 | the loop tests `masks[maskId] ... && maskId < BOXSIZE` read the mask row before checking the bound | the upright I, masks {2, 2, 2, 2}: its run of non-empty rows reaches row 3, so the second loop reads masks[4], one past its box (the result is unaffected because the bound test then fails) | test `maskId < BOXSIZE` first | high (not executed) | StateGen.UprightIReadsPastBox | StateGen.MaskRows |
