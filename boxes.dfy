/**
 * Geometry of the tracker: integer pixel boxes `(x, y, w, h)`, their real
 * centres, and Intersection-over-Union (tracker.py `_center_of`, `_iou`).
 */
module Boxes {
  import opened Wrappers

  /** An axis-aligned pixel rectangle with top-left corner (x, y). */
  datatype Box = Box(x: int, y: int, w: int, h: int)

  /** A point in pixel coordinates (Python floats, modelled as reals). */
  datatype Point = Point(x: real, y: real)

  /**
   * `math.hypot(dx, dy)`: the model only relies on it being non-negative, so
   * it is a caller-supplied function of this type rather than a square root.
   */
  type Metric = f: (real, real) -> real | forall dx, dy :: f(dx, dy) >= 0.0
    witness (dx: real, dy: real) => 0.0

  /** Distance from `q` to `p`, computed as `hypot(p.x - q.x, p.y - q.y)`. */
  function Distance(hypot: Metric, p: Point, q: Point): (d: real)
    ensures d >= 0.0
  {
    hypot(p.x - q.x, p.y - q.y)
  }

  /** `_center_of`: the centre `(x + w/2, y + h/2)` in true division. */
  function CenterOf(b: Box): (c: Point)
    ensures c.x - b.x as real == (b.x + b.w) as real - c.x
    ensures c.y - b.y as real == (b.y + b.h) as real - c.y
    ensures b.w >= 0 && b.h >= 0 ==>
      b.x as real <= c.x <= (b.x + b.w) as real && b.y as real <= c.y <= (b.y + b.h) as real
  {
    Point(b.x as real + b.w as real / 2.0, b.y as real + b.h as real / 2.0)
  }

  /** Width of the clipped intersection of two boxes (0 when they do not overlap horizontally). */
  function InterWidth(a: Box, b: Box): int
  {
    Max(0, Min(a.x + a.w, b.x + b.w) - Max(a.x, b.x))
  }

  function InterHeight(a: Box, b: Box): int
  {
    Max(0, Min(a.y + a.h, b.y + b.h) - Max(a.y, b.y))
  }

  /** Area of the clipped intersection. */
  function InterArea(a: Box, b: Box): int
  {
    InterWidth(a, b) * InterHeight(a, b)
  }

  /** Area of a box, with negative sides read as 0. */
  function Area(b: Box): int
  {
    Max(0, b.w) * Max(0, b.h)
  }

  /** Area of the union: both areas minus the shared part. */
  function UnionArea(a: Box, b: Box): int
  {
    Area(a) + Area(b) - InterArea(a, b)
  }

  /** `_iou`: intersection over union, 0 for boxes that do not overlap. */
  function Iou(a: Box, b: Box): (r: real)
    ensures 0.0 <= r <= 1.0
    ensures r > 0.0 <==> InterArea(a, b) > 0
  {
    var inter := InterArea(a, b);
    if inter <= 0 then 0.0
    else
      var denom := Area(a) + Area(b) - inter;
      InterWithinUnion(a, b);
      if denom <= 0 then 0.0
      else
        RatioInUnitInterval(inter, denom);
        inter as real / denom as real
  }

  lemma {:induction false} RatioInUnitInterval(n: int, d: int)
    requires 0 < n <= d
    ensures 0.0 < n as real / d as real <= 1.0
  {
    var q := n as real / d as real;
    assert q * d as real == n as real;
    assert (1.0 - q) * d as real == d as real - n as real >= 0.0;
  }

  lemma {:induction false} MulMono(a: int, b: int, c: int, d: int)
    requires 0 <= a <= b && 0 <= c <= d
    ensures a * c <= b * d
  {
    assert a * c <= b * c;
    assert b * c <= b * d;
  }

  /** An overlap is part of both boxes, so it is no larger than the union. */
  lemma {:induction false} InterWithinUnion(a: Box, b: Box)
    requires InterArea(a, b) > 0
    ensures InterArea(a, b) <= Area(a) && InterArea(a, b) <= Area(b)
    ensures 0 < InterArea(a, b) <= UnionArea(a, b)
  {
    var iw, ih := InterWidth(a, b), InterHeight(a, b);
    assert iw > 0 && ih > 0;
    MulMono(iw, Max(0, a.w), ih, Max(0, a.h));
    MulMono(iw, Max(0, b.w), ih, Max(0, b.h));
  }

  /** A positive overlap gives exactly the ratio of the overlap to the union, in (0, 1]. */
  lemma {:induction false} IouOfOverlap(a: Box, b: Box)
    requires InterArea(a, b) > 0
    ensures UnionArea(a, b) > 0
    ensures Iou(a, b) == InterArea(a, b) as real / UnionArea(a, b) as real
    ensures 0.0 < Iou(a, b) <= 1.0
  {
    InterWithinUnion(a, b);
  }

  /** Boxes whose clipped overlap is empty have IoU 0. */
  lemma {:induction false} IouOfDisjoint(a: Box, b: Box)
    requires InterArea(a, b) <= 0
    ensures Iou(a, b) == 0.0
  {
  }

  /** IoU does not depend on the order of its arguments. */
  lemma {:induction false} IouSymmetric(a: Box, b: Box)
    ensures Iou(a, b) == Iou(b, a)
  {
    assert InterWidth(a, b) == InterWidth(b, a);
    assert InterHeight(a, b) == InterHeight(b, a);
  }

  /** A box with positive area overlaps itself completely. */
  lemma {:induction false} IouSelf(a: Box)
    requires a.w > 0 && a.h > 0
    ensures Iou(a, a) == 1.0
  {
    assert InterWidth(a, a) == a.w;
    assert InterHeight(a, a) == a.h;
    assert InterArea(a, a) == Area(a) > 0;
    IouOfOverlap(a, a);
  }
}
