/**
 * Geometry the bookkeeping relies on: three-component vectors, the square
 * interaction area of half-width INTERACTION_BOUNDS_HALF (app.js:17) and
 * clampToBounds (app.js:601-608), which keeps spawn points (margin 0.04) and
 * dragged pieces (margin 0.12) inside it.
 */
module Arena {
  const BoundsHalf: real := 2.9
  /** Default margin of clampToBounds, used when pieces are spawned. */
  const SpawnMargin: real := 0.04
  /** Margin used while a piece is dragged (app.js:893). */
  const DragMargin: real := 0.12
  /** DRAG_LIFT_HEIGHT (app.js:18). */
  const DragLiftHeight: real := 0.12
  /** Lowest plane a grabbed piece is dragged on (app.js:948). */
  const MinDragHeight: real := 0.06

  datatype Vec3 = Vec3(x: real, y: real, z: real)

  const Zero: Vec3 := Vec3(0.0, 0.0, 0.0)

  /** `Vec3.lengthSquared()`. */
  function LengthSquared(v: Vec3): real
  {
    v.x * v.x + v.y * v.y + v.z * v.z
  }

  /** `Math.max` on two numbers. */
  function RealMax(a: real, b: real): (r: real)
    ensures r >= a && r >= b && (r == a || r == b)
  {
    if a < b then b else a
  }

  /** A point of the table plane: the x and z coordinates. */
  datatype PlanePoint = PlanePoint(x: real, z: real)

  /** Both coordinates lie in [-BoundsHalf + margin, BoundsHalf - margin]. */
  predicate InBounds(p: PlanePoint, margin: real)
  {
    -BoundsHalf + margin <= p.x <= BoundsHalf - margin &&
    -BoundsHalf + margin <= p.z <= BoundsHalf - margin
  }

  /** `THREE.MathUtils.clamp(v, lo, hi)`, which is `Math.max(lo, Math.min(hi, v))`. */
  function Clamp(v: real, lo: real, hi: real): (r: real)
    ensures lo <= hi ==> lo <= r <= hi
    ensures lo <= v <= hi ==> r == v
    ensures hi < lo ==> r == lo
  {
    var m := if v < hi then v else hi;
    if m < lo then lo else m
  }

  /** Within [lo, hi] no point is closer to v than its clamp. */
  lemma ClampNearest(v: real, lo: real, hi: real, y: real)
    requires lo <= y <= hi
    ensures var r := Clamp(v, lo, hi);
      (if r <= v then v - r else r - v) <= (if y <= v then v - y else y - v)
  {
  }

  /** clampToBounds: clamps both coordinates into the interaction area shrunk by `margin`. */
  function ClampToBounds(x: real, z: real, margin: real): (r: PlanePoint)
    ensures margin <= BoundsHalf ==> InBounds(r, margin)
    ensures InBounds(PlanePoint(x, z), margin) ==> r == PlanePoint(x, z)
  {
    PlanePoint(Clamp(x, -BoundsHalf + margin, BoundsHalf - margin),
               Clamp(z, -BoundsHalf + margin, BoundsHalf - margin))
  }

  /** Clamping a clamped point changes nothing. */
  lemma ClampToBoundsIdempotent(x: real, z: real, margin: real)
    requires margin <= BoundsHalf
    ensures var r := ClampToBounds(x, z, margin);
      ClampToBounds(r.x, r.z, margin) == r
  {
  }
}
