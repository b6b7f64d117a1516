/** Axis-aligned rectangle arithmetic shared by the passes.  The repository's
    utils/geometry.ts is not part of this model: `IntersectionBox` is the
    assumed meaning of its `getIntersectionBox`. */
module Geometry {
  import opened LayoutTypes

  datatype Rect = Rect(x: real, y: real, width: real, height: real)

  function RectOf(e: Element): Rect { Rect(e.x, e.y, e.width, e.height) }

  function Max(a: real, b: real): real { if a >= b then a else b }
  function Min(a: real, b: real): real { if a <= b then a else b }
  function Abs(a: real): real { if a >= 0.0 then a else -a }

  /** The open-interior overlap test the passes write out inline:
      positive-area overlap, touching edges do not count. */
  predicate Overlaps(a: Rect, b: Rect) {
    a.x < b.x + b.width && a.x + a.width > b.x &&
    a.y < b.y + b.height && a.y + a.height > b.y
  }

  /** `inner` lies inside `outer` (closed). */
  predicate Within(inner: Rect, outer: Rect) {
    outer.x <= inner.x && inner.x + inner.width <= outer.x + outer.width &&
    outer.y <= inner.y && inner.y + inner.height <= outer.y + outer.height
  }

  /** getIntersectionBox (assumed): the common rectangle of `a` and `b` when
      it has positive width and height, otherwise none. */
  function IntersectionBox(a: Rect, b: Rect): (r: Option<Rect>)
    ensures r.Some? ==> r.value.width > 0.0 && r.value.height > 0.0
    ensures r.Some? ==> Within(r.value, a) && Within(r.value, b)
    ensures a.width > 0.0 && a.height > 0.0 && b.width > 0.0 && b.height > 0.0 ==>
              (r.Some? <==> Overlaps(a, b))
  {
    var l := Max(a.x, b.x);
    var rt := Min(a.x + a.width, b.x + b.width);
    var t := Max(a.y, b.y);
    var bt := Min(a.y + a.height, b.y + b.height);
    if rt > l && bt > t then Some(Rect(l, t, rt - l, bt - t)) else None
  }
}
