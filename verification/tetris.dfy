/**
 * The two programs run one after the other: stategen builds the placement graph and writes it
 * out as the table, and tetris reads that table and solves the empty well.
 */
module Tetris {
  import opened Core
  import opened Game
  import opened Table
  import S = Solver

  /**
   * The table is the one written from the finished placement graph and one the solver can
   * search, the empty well is a well it may start from, and the answer is the winner of the
   * empty well under that table.
   */
  method Decide(c: Config) returns (t: seq<seq<Node>>, w: Winner)
    requires ValidConfig(c)
    ensures Built(c, t)
    ensures ValidTable(c, t) && Playable(c, t, Empty(c.fullHeight))
    ensures w == WellValue(c, t, Empty(c.fullHeight))
  {
    t := GenerateTable(c);
    var most: nat := 0;
    for p := 0 to NumPieces
      invariant forall q :: 0 <= q < p ==> |t[q]| <= most
    {
      if |t[p]| > most {
        most := |t[p]|;
      }
    }
    var solver := new S.Solver(c, t, 16 * c.fullHeight + 1, most);
    w := solver.Solve();
    EmptyPlayable(c, t);
  }
}
