/** Window rectangles in output-local pixel coordinates: the position given to
    `wlr_scene_node_set_position` and the size given to
    `wlr_xdg_toplevel_set_size`. */
module Geometry {

  datatype Rect = Rect(x: int, y: int, width: int, height: int)

  /** Pixel (px, py) lies inside `r` (left and top edges inclusive, right and
      bottom edges exclusive). */
  predicate Contains(r: Rect, px: int, py: int)
  {
    r.x <= px < r.x + r.width && r.y <= py < r.y + r.height
  }

  /** `r` has a non-negative size and lies inside the W x H output whose
      top-left corner is the origin. */
  predicate Within(r: Rect, W: int, H: int)
  {
    && 0 <= r.x && 0 <= r.width && r.x + r.width <= W
    && 0 <= r.y && 0 <= r.height && r.y + r.height <= H
  }

  /** No pixel lies inside both rectangles. */
  ghost predicate Disjoint(a: Rect, b: Rect)
  {
    forall px, py :: !(Contains(a, px, py) && Contains(b, px, py))
  }
}
