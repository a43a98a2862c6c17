/**
 * Axis-aligned rectangles on the integer pixel grid and the overlap test
 * the game delegates to its graphics library (`Rect.colliderect`).
 */
module Geometry {

  /** A rectangle with its top-left corner at (left, top). */
  datatype Rect = Rect(left: int, top: int, width: int, height: int)

  /**
   * The library's overlap test: the two rectangles overlap strictly on both
   * axes, so rectangles that only share an edge do not collide.
   */
  predicate Collide(a: Rect, b: Rect) {
    && a.left < b.left + b.width && b.left < a.left + a.width
    && a.top < b.top + b.height && b.top < a.top + a.height
  }

  /** Pixel (px, py) lies inside r (left and top edges inclusive, right and bottom exclusive). */
  predicate Covers(r: Rect, px: int, py: int) {
    r.left <= px < r.left + r.width && r.top <= py < r.top + r.height
  }

  /** For rectangles of positive size, colliding means sharing at least one pixel. */
  lemma CollideIffSharedPixel(a: Rect, b: Rect)
    requires a.width > 0 && a.height > 0 && b.width > 0 && b.height > 0
    ensures Collide(a, b) <==> exists px, py :: Covers(a, px, py) && Covers(b, px, py)
  {
    if Collide(a, b) {
      var px := if a.left < b.left then b.left else a.left;
      var py := if a.top < b.top then b.top else a.top;
      assert Covers(a, px, py) && Covers(b, px, py);
    }
  }
}
