/**
 * Box geometry of a detected region (ModelLoader.js).
 *
 * The detector reports each region by two corners, `topLeft` and `bottomRight`,
 * each a pair of numbers indexed `[0]` and `[1]`. The screen derives two boxes from
 * them: the crop box handed to the tensor slice before classification, and the
 * rectangle drawn over the picture.
 */
module Geometry {

  /** A pair of numbers as the detector reports it; `.0` is index `[0]`, `.1` is index `[1]`. */
  type Corner = (real, real)

  datatype Region = Region(topLeft: Corner, bottomRight: Corner)

  /**
   * `parseInt` applied to an ordinary number: the digits before the decimal point,
   * that is, truncation toward zero.
   */
  function Trunc(x: real): (n: int)
    ensures 0.0 <= x ==> 0 <= n && n as real <= x < n as real + 1.0
    ensures x < 0.0 ==> n <= 0 && n as real - 1.0 < x <= n as real
  {
    if 0.0 <= x then x.Floor else -((-x).Floor)
  }

  /** Begin and size of a slice of a `[rows, columns, channels]` tensor. */
  datatype CropBox = CropBox(begin: (int, int, int), size: (int, int, int))

  /**
   * The crop box: begins at `[topLeft[1], topLeft[0], 0]` and extends
   * `[bottomRight[1] - topLeft[1], bottomRight[0] - topLeft[0], 3]`, each coordinate
   * and each extent passed through `parseInt`.
   */
  function Crop(r: Region): (box: CropBox)
    ensures box.begin.2 == 0 && box.size.2 == 3
  {
    var width := Trunc(r.bottomRight.1 - r.topLeft.1);
    var height := Trunc(r.bottomRight.0 - r.topLeft.0);
    CropBox((Trunc(r.topLeft.1), Trunc(r.topLeft.0), 0), (width, height, 3))
  }

  /** The SVG rectangle drawn over the picture for a region. */
  datatype Rect = Rect(x: real, y: real, width: real, height: real)

  function Overlay(r: Region): (rect: Rect)
    ensures rect.x + rect.width == r.bottomRight.0 && rect.y + rect.height == r.bottomRight.1
  {
    Rect(r.topLeft.0, r.topLeft.1, r.bottomRight.0 - r.topLeft.0, r.bottomRight.1 - r.topLeft.1)
  }

  /** The drawn rectangle spans exactly from the top-left corner to the bottom-right corner. */
  lemma OverlaySpansCorners(r: Region)
    ensures var rect := Overlay(r);
      rect.x == r.topLeft.0 && rect.y == r.topLeft.1 &&
      rect.x + rect.width == r.bottomRight.0 && rect.y + rect.height == r.bottomRight.1
  {
  }

  /**
   * The crop box always takes all three channels from channel 0, and along the two
   * image axes it is the drawn rectangle with rows first: the slice's first axis is
   * the rectangle's `y`, its second axis the rectangle's `x`.
   */
  lemma CropIsOverlayRowsFirst(r: Region)
    ensures var box, rect := Crop(r), Overlay(r);
      box.begin == (Trunc(rect.y), Trunc(rect.x), 0) &&
      box.size == (Trunc(rect.height), Trunc(rect.width), 3)
  {
  }

  /** With whole-number corners the crop box is the exact corner arithmetic. */
  lemma CropOfWholeCorners(top: int, left: int, bottom: int, right: int)
    ensures Crop(Region((left as real, top as real), (right as real, bottom as real)))
      == CropBox((top, left, 0), (bottom - top, right - left, 3))
  {
    assert bottom as real - top as real == (bottom - top) as real;
    assert right as real - left as real == (right - left) as real;
    TruncWhole(top);
    TruncWhole(left);
    TruncWhole(bottom - top);
    TruncWhole(right - left);
  }

  /** `parseInt` leaves a whole number unchanged. */
  lemma TruncWhole(k: int)
    ensures Trunc(k as real) == k
  {
  }

  /**
   * Truncating the corner and the extent separately loses at most one pixel: for a
   * region in the non-negative quadrant, the crop ends on the truncated far corner or
   * one before it, along each axis.
   */
  lemma CropEndLagsByAtMostOne(r: Region)
    requires 0.0 <= r.topLeft.0 <= r.bottomRight.0 && 0.0 <= r.topLeft.1 <= r.bottomRight.1
    ensures var box := Crop(r);
      Trunc(r.bottomRight.1) - 1 <= box.begin.0 + box.size.0 <= Trunc(r.bottomRight.1) &&
      Trunc(r.bottomRight.0) - 1 <= box.begin.1 + box.size.1 <= Trunc(r.bottomRight.0)
  {
    AxisEnd(r.topLeft.1, r.bottomRight.1);
    AxisEnd(r.topLeft.0, r.bottomRight.0);
  }

  lemma AxisEnd(a: real, b: real)
    requires 0.0 <= a <= b
    ensures Trunc(b) - 1 <= Trunc(a) + Trunc(b - a) <= Trunc(b)
  {
    var fa, fd, fb := Trunc(a), Trunc(b - a), Trunc(b);
    assert (fa + fd) as real <= b < (fa + fd) as real + 2.0;
  }
}
