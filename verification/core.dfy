/**
 * Well dimensions and the constants shared by the placement-graph builder and the solver.
 * WIDTH, SPARELINES and FULLHEIGHT are defined in core.c, which is not part of this model;
 * here they are the fields of a configuration value.
 */
module Core {
  import opened Bits

  /** Columns of the well, rows above the visible field, and all rows. */
  datatype Config = Config(width: int, spareLines: int, fullHeight: int)

  /**
   * A configuration the builder can work with: every piece's bounding box fits at its spawn
   * position, and a full row still fits a 16-bit `short` without reaching its sign bit.
   */
  predicate ValidConfig(c: Config)
  {
    4 <= c.width <= 15 && 2 <= c.spareLines <= c.fullHeight
  }

  const NumPieces: nat := 7
  const NumControls: nat := 4
  /** Every piece mask is a BOXSIZE-by-BOXSIZE box. */
  const BoxSize: nat := 4
  /** Position of `down` in the controls table {rotate, left, right, down}. */
  const DownKeyId: nat := 3

  /** Centring correction, (WIDTH - BOXSIZE) / 2 rounded down. */
  function Margin(c: Config): (m: int)
    ensures 2 * m <= c.width - BoxSize < 2 * m + 2
  {
    (c.width - BoxSize) / 2
  }

  /** The row value of a completed line, (1 << WIDTH) - 1. */
  function LineTrigger(c: Config): (r: Row)
    requires 0 <= c.width <= 15
    ensures forall x :: Bit(r, x) <==> 0 <= x < c.width
  {
    var w := Col(c.width);
    var full := ((1 as bv16) << w) - 1;
    forall x | 0 <= x < 16
      ensures Bit(full, x) <==> x < c.width
    {
      BitShift(full, x);
      LowMaskBit(w, Col(x));
      ColOrder(x, c.width);
    }
    full
  }

  lemma LowMaskBit(w: bv16, x: bv16)
    requires w <= 15 && x < 16
    ensures ((((1 as bv16) << w) - 1) >> x) & 1 == 1 <==> x < w
  {
  }
}
