/** The offset computation of `aligned_text` in target.cpp. The text's
    extents (width and height) are inputs; Cairo measures them. Coordinates
    follow Cairo: y grows downward and the text is painted with its
    baseline at the current point, its ink extending `height` above it. */
module Align {

  const HCenter: bv32 := 1
  const HLeft: bv32 := 2
  const HRight: bv32 := 4
  const VCenter: bv32 := 8
  const VTop: bv32 := 16
  const VBottom: bv32 := 32

  predicate Has(align: bv32, flag: bv32)
  {
    align & flag != 0
  }

  datatype Offset = Offset(dx: real, dy: real)

  /** dx and dy as `aligned_text` works them out: a centre flag takes
      precedence over right or top; left, bottom or no flag means 0. */
  function TextOffset(align: bv32, width: real, height: real): Offset
  {
    var dx := if Has(align, HCenter) then -width / 2.0
              else if Has(align, HRight) then -width
              else 0.0;
    var dy := if Has(align, VCenter) then height / 2.0
              else if Has(align, VTop) then height
              else 0.0;
    Offset(dx, dy)
  }

  /** The box the text's ink occupies when `aligned_text` paints it. */
  datatype Box = Box(left: real, right: real, top: real, bottom: real)

  /** Where text of the given extents lands when aligned at (x, y). The
      anchor is the midpoint, the right edge or the left edge of the box
      horizontally, and its midpoint, top or bottom vertically. */
  function PaintedBox(x: real, y: real, align: bv32, width: real, height: real): (b: Box)
    ensures b.right - b.left == width && b.bottom - b.top == height
    ensures Has(align, HCenter) ==> b.left + b.right == 2.0 * x
    ensures !Has(align, HCenter) && Has(align, HRight) ==> b.right == x
    ensures !Has(align, HCenter) && !Has(align, HRight) ==> b.left == x
    ensures Has(align, VCenter) ==> b.top + b.bottom == 2.0 * y
    ensures !Has(align, VCenter) && Has(align, VTop) ==> b.top == y
    ensures !Has(align, VCenter) && !Has(align, VTop) ==> b.bottom == y
  {
    var off := TextOffset(align, width, height);
    Box(x + off.dx, x + off.dx + width, y + off.dy - height, y + off.dy)
  }

  /** The horizontal offset depends only on the horizontal flags and the
      vertical one only on the vertical flags; the left and bottom flags
      change nothing. */
  lemma FlagsIndependent(align: bv32, width: real, height: real)
    ensures TextOffset(align, width, height).dx == TextOffset(align & 7, width, height).dx
    ensures TextOffset(align, width, height).dy == TextOffset(align & 56, width, height).dy
    ensures TextOffset(align | HLeft | VBottom, width, height) == TextOffset(align, width, height)
  {
  }

  /** The ring numbers are centred on both axes. */
  lemma CentredLabel(width: real, height: real)
    ensures TextOffset(HCenter | VCenter, width, height) == Offset(-width / 2.0, height / 2.0)
  {
  }
}
