/**
 Positions, distances and steps on the terrain.

 The terrain is any ground height, slope rule and line of sight. Distances need a
 square root, which is a parameter (`root`) known only to be one (`IsRoot`).
 */
module Geometry {
  import opened Options

  type EntityId = nat

  const EPSILON: real := 1.0 / 8388608.0

  datatype Vec3 = Vec3(x: real, y: real, z: real)

  datatype World = World(
    ground: (real, real) -> real,
    slopeOk: (Vec3, Vec3) -> bool,
    canSee: (Vec3, Vec3) -> bool,
    root: real -> real)

  /** `root` is the square root on every non-negative number. */
  ghost predicate IsRoot(root: real -> real) {
    forall x: real :: x >= 0.0 ==> root(x) >= 0.0 && root(x) * root(x) == x
  }

  function Square(x: real): real {
    x * x
  }

  /** The straight distance between two positions, and the distance on the ground plane. */
  function Dist(w: World, a: Vec3, b: Vec3): real {
    w.root(Square(a.x - b.x) + Square(a.y - b.y) + Square(a.z - b.z))
  }

  function Flat(w: World, a: Vec3, b: Vec3): real {
    w.root(Square(b.x - a.x) + Square(b.z - a.z))
  }

  function GroundVec(w: World, p: Vec3): Vec3 {
    Vec3(p.x, w.ground(p.x, p.z), p.z)
  }

  /** `step_toward`: at most `step` along the ground plane, onto the target when it is that near. */
  function StepToward(w: World, from: Vec3, target: Vec3, step: real): Vec3 {
    var dx, dz := target.x - from.x, target.z - from.z;
    var dist := Flat(w, from, target);
    if dist <= step || dist <= EPSILON then Vec3(target.x, from.y, target.z)
    else Vec3(from.x + dx / dist * step, from.y, from.z + dz / dist * step)
  }

  // ----------------------------------------------------------- the square root

  lemma SquareNonNegative(x: real)
    ensures Square(x) >= 0.0
  {
  }

  lemma ScaleMono(c: real, x: real, y: real)
    requires c >= 0.0 && x <= y
    ensures c * x <= c * y
  {
  }

  lemma SquareStrict(a: real, b: real)
    requires 0.0 <= a < b
    ensures Square(a) < Square(b)
  {
    var d := b - a;
    ScaleMono(a, 0.0, d);
    ScaleStrict(d, 0.0, b);
    assert Square(b) == Square(a) + a * d + d * b;
  }

  lemma ScaleStrict(c: real, x: real, y: real)
    requires c > 0.0 && x < y
    ensures c * x < c * y
  {
  }

  /** Non-negative numbers with equal squares are equal. */
  lemma SquareInjective(a: real, b: real)
    requires a >= 0.0 && b >= 0.0 && Square(a) == Square(b)
    ensures a == b
  {
    if a < b { SquareStrict(a, b); }
    if b < a { SquareStrict(b, a); }
  }

  lemma RootOfSquare(w: World, a: real)
    requires IsRoot(w.root) && a >= 0.0
    ensures w.root(Square(a)) == a
  {
    SquareNonNegative(a);
    SquareInjective(w.root(Square(a)), a);
  }

  lemma DistToSelf(w: World, p: Vec3)
    requires IsRoot(w.root)
    ensures Dist(w, p, p) == 0.0
  {
    RootOfSquare(w, 0.0);
  }

  /** A step that does not arrive shortens the ground distance by exactly its length. */
  lemma StepShortens(w: World, from: Vec3, target: Vec3, step: real)
    requires IsRoot(w.root) && 0.0 <= step
    requires EPSILON < Flat(w, from, target) && step < Flat(w, from, target)
    ensures Flat(w, StepToward(w, from, target, step), target) == Flat(w, from, target) - step
  {
    var dx, dz, dist := target.x - from.x, target.z - from.z, Flat(w, from, target);
    var to := StepToward(w, from, target, step);
    var left := dist - step;
    SquareNonNegative(dx);
    SquareNonNegative(dz);
    assert Square(dist) == Square(dx) + Square(dz);
    RemainingLeg(dx, dist, step);
    RemainingLeg(dz, dist, step);
    var lx, lz := target.x - to.x, target.z - to.z;
    LegsScale(dx, dz, dist, left, lx, lz);
    RootOfSquare(w, left);
  }

  lemma RemainingLeg(d: real, dist: real, step: real)
    requires dist > 0.0
    ensures (d - d / dist * step) * dist == d * (dist - step)
  {
    assert d / dist * dist == d;
    assert d / dist * step * dist == d / dist * dist * step;
  }

  /** Two legs of length `dist` scaled to `left`. */
  lemma LegsScale(dx: real, dz: real, dist: real, left: real, lx: real, lz: real)
    requires dist > 0.0 && lx * dist == dx * left && lz * dist == dz * left
    requires Square(dist) == Square(dx) + Square(dz)
    ensures Square(lx) + Square(lz) == Square(left)
  {
    PositiveSquare(dist);
    SquareBothSides(lx, dist, dx, left);
    SquareBothSides(lz, dist, dz, left);
    CancelFactor(Square(lx) + Square(lz), Square(left), Square(dist), Square(dx), Square(dz), Square(lx), Square(lz));
  }

  lemma PositiveSquare(a: real)
    requires a > 0.0
    ensures Square(a) > 0.0
  {
    SquareStrict(0.0, a);
  }

  lemma SquareBothSides(a: real, b: real, c: real, d: real)
    requires a * b == c * d
    ensures Square(a) * Square(b) == Square(c) * Square(d)
  {
    assert Square(a) * Square(b) == (a * b) * (a * b);
    assert Square(c) * Square(d) == (c * d) * (c * d);
  }

  lemma CancelFactor(sum: real, target: real, dd: real, sx: real, sz: real, lx: real, lz: real)
    requires dd > 0.0 && dd == sx + sz && sum == lx + lz
    requires lx * dd == sx * target && lz * dd == sz * target
    ensures sum == target
  {
    assert sum * dd == target * dd;
    assert (sum - target) * dd == 0.0;
  }
}
