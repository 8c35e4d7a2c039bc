/**
 Falls: a player's vertical motion, one tick at a time, and what a landing costs.

 `Step` is the rule for one tick and `Body` the in-place form proved against it.
 The claim at the centre is that the cost of a fall depends on the height left
 and the height landed on, never on how the ticks fell.
 */
module Fall {
  import opened Reals
  import opened Options

  const GRAVITY: real := 20.0
  const FLOOR_TAN: real := 1.4281480067421144
  const FLOOR_SNAP_LENGTH: real := 0.5
  const SAFE_DROP: real := 2.0
  const LETHAL_DROP: real := 42.0

  datatype Vertical = Vertical(airborne: bool, vy: real, fromY: real)

  const STANDING: Vertical := Vertical(false, 0.0, 0.0)

  /** What one tick is told: the ground under the new position, and how far the body moved. */
  datatype Tick = Tick(groundY: real, floor: bool, step: real, dt: real)

  /** A body between ticks. */
  datatype Moment = Moment(v: Vertical, y: real)

  /** Whether ground of this gradient is a floor; both sides of the comparison are squared. */
  predicate IsFloor(gx: real, gz: real) {
    gx * gx + gz * gz <= FLOOR_TAN * FLOOR_TAN
  }

  function MaxDrop(step: real): real {
    step * FLOOR_TAN + FLOOR_SNAP_LENGTH
  }

  /** The one integrator: speed and height after `dt` of falling. */
  function Fallen(vy: real, y: real, dt: real): (real, real) {
    var vy' := vy - GRAVITY * dt;
    (vy', y + vy' * dt)
  }

  function NextHeight(v: Vertical, y: real, dt: real): real {
    Fallen(v.vy, y, dt).1
  }

  /** A grounded body that keeps its feet: ground in reach, and a floor or a step up. */
  predicate KeepsFeet(m: Moment, t: Tick) {
    && !m.v.airborne
    && t.groundY >= m.y - MaxDrop(t.step)
    && (t.floor || t.groundY > m.y)
  }

  /** The body in the air, a body that has just lost its feet falling from where it stood. */
  function InAir(m: Moment): Vertical {
    if m.v.airborne then m.v else Vertical(true, 0.0, m.y)
  }

  predicate Lands(m: Moment, t: Tick) {
    && !KeepsFeet(m, t)
    && NextHeight(InAir(m), m.y, t.dt) <= t.groundY
    && t.floor
  }

  function Step(m: Moment, t: Tick): Moment {
    if KeepsFeet(m, t) then Moment(m.v, t.groundY)
    else if Lands(m, t) then Moment(STANDING, t.groundY)
    else
      var v := InAir(m);
      var (vy, next) := Fallen(v.vy, m.y, t.dt);
      if next <= t.groundY then Moment(v.(vy := 0.0), t.groundY)
      else Moment(v.(vy := vy), next)
  }

  /** The drop a body landing on `groundY` is charged for. */
  function Drop(v: Vertical, groundY: real): real {
    Max(v.fromY - groundY, 0.0)
  }

  function Charge(m: Moment, t: Tick): Option<real> {
    if Lands(m, t) then Some(Drop(InAir(m), t.groundY)) else None
  }

  function Run(m: Moment, ticks: seq<Tick>): Moment
    decreases |ticks|
  {
    if ticks == [] then m else Run(Step(m, ticks[0]), ticks[1..])
  }

  /** A run with no landing in it. */
  predicate StaysUp(m: Moment, ticks: seq<Tick>)
    decreases |ticks|
  {
    ticks == [] || (!Lands(m, ticks[0]) && StaysUp(Step(m, ticks[0]), ticks[1..]))
  }

  // ------------------------------------------------- the cost of a fall

  /** In the air, the height left is remembered unchanged until the landing. */
  lemma {:induction false} HeightLeftIsKept(m: Moment, ticks: seq<Tick>)
    requires m.v.airborne && StaysUp(m, ticks)
    ensures Run(m, ticks).v.airborne && Run(m, ticks).v.fromY == m.v.fromY
    decreases |ticks|
  {
    if ticks != [] {
      HeightLeftIsKept(Step(m, ticks[0]), ticks[1..]);
    }
  }

  /** A body on the ground at the first of these ticks loses its feet there and is up after the last. */
  predicate IsAloft(m: Moment, ticks: seq<Tick>) {
    ticks != [] && !m.v.airborne && !KeepsFeet(m, ticks[0]) && StaysUp(m, ticks)
  }

  /** A whole fall: it loses its feet at the first tick and lands at `last`, the same tick perhaps. */
  predicate IsFall(m: Moment, ticks: seq<Tick>, last: Tick) {
    && (if ticks == [] then !m.v.airborne && !KeepsFeet(m, last) else IsAloft(m, ticks))
    && Lands(Run(m, ticks), last)
  }

  lemma AloftKeepsHeightLeft(m: Moment, ticks: seq<Tick>)
    requires IsAloft(m, ticks)
    ensures Run(m, ticks).v.airborne && Run(m, ticks).v.fromY == m.y
  {
    HeightLeftIsKept(Step(m, ticks[0]), ticks[1..]);
  }

  /**
   A fall is charged the height left minus the height landed on (nothing if it
   landed higher), whatever ticks it was made of.
   */
  lemma FallCostsItsHeight(m: Moment, ticks: seq<Tick>, last: Tick)
    requires IsFall(m, ticks, last)
    ensures Charge(Run(m, ticks), last) == Some(Max(m.y - last.groundY, 0.0))
  {
    if ticks != [] {
      AloftKeepsHeightLeft(m, ticks);
    }
  }

  /** The same drop costs the same by a landing, whatever its ticks, or settled early by a port. */
  lemma EveryFallCostsTheSame(a: Moment, fall: seq<Tick>, last: Tick, b: Moment, aloft: seq<Tick>)
    requires IsFall(a, fall, last) && IsAloft(b, aloft) && a.y == b.y
    ensures Charge(Run(a, fall), last) == SettleCharge(Run(b, aloft).v, last.groundY)
  {
    FallCostsItsHeight(a, fall, last);
    AloftKeepsHeightLeft(b, aloft);
  }

  function SettleCharge(v: Vertical, groundY: real): Option<real> {
    if v.airborne then Some(Drop(v, groundY)) else None
  }

  // ---------------------------------------------- no descent goes unpaid

  /** Where the body last stood: its own height, or the height it left while in the air. */
  function Footing(m: Moment): real {
    if m.v.airborne then m.v.fromY else m.y
  }

  function Charged(m: Moment, ticks: seq<Tick>): real
    decreases |ticks|
  {
    if ticks == [] then 0.0
    else
      (match Charge(m, ticks[0]) case Some(d) => d case None => 0.0)
      + Charged(Step(m, ticks[0]), ticks[1..])
  }

  /** How far down the ground was followed on foot, onto floors within one tick's reach only. */
  function WalkedDown(m: Moment, ticks: seq<Tick>): real
    decreases |ticks|
  {
    if ticks == [] then 0.0
    else
      (if KeepsFeet(m, ticks[0]) && ticks[0].floor then Max(m.y - ticks[0].groundY, 0.0) else 0.0)
      + WalkedDown(Step(m, ticks[0]), ticks[1..])
  }

  /**
   Every metre down is walked or paid for: over any run, the footing drops by no
   more than the landings charged plus what was followed on foot.
   */
  lemma {:induction false} NoDescentIsFree(m: Moment, ticks: seq<Tick>)
    ensures Footing(m) - Footing(Run(m, ticks)) <= Charged(m, ticks) + WalkedDown(m, ticks)
    decreases |ticks|
  {
    if ticks != [] {
      var t, m' := ticks[0], Step(m, ticks[0]);
      NoDescentIsFree(m', ticks[1..]);
      if KeepsFeet(m, t) {
        assert Footing(m) - Footing(m') <= if t.floor then Max(m.y - t.groundY, 0.0) else 0.0;
      } else if Lands(m, t) {
        assert Footing(m) - Footing(m') <= Drop(InAir(m), t.groundY);
      } else {
        assert Footing(m') == Footing(m);
      }
    }
  }

  /** Without a landing a body ends a tick on lower ground only down a floor within its reach. */
  lemma QuietDescentIsAWalk(m: Moment, t: Tick)
    requires !Step(m, t).v.airborne && Charge(m, t).None? && Step(m, t).y < m.y
    ensures !m.v.airborne && t.floor && m.y - Step(m, t).y <= MaxDrop(t.step)
  {
  }

  /**
   A grounded body walks up any ground and down a floor within reach of its slope and snap;
   off anything else it falls this very tick, at rest from its own height: onto a floor it
   lands, against other ground it rests with the fall still open.
   */
  lemma GroundedTick(m: Moment, t: Tick)
    requires !m.v.airborne
    ensures
      var walks := t.groundY >= m.y - (t.step * FLOOR_TAN + 0.5) && (t.floor || t.groundY > m.y);
      var next := m.y - GRAVITY * t.dt * t.dt;
      if walks then Step(m, t) == Moment(m.v, t.groundY) && Charge(m, t) == None
      else if next > t.groundY then
        Step(m, t) == Moment(Vertical(true, -(GRAVITY * t.dt), m.y), next) && Charge(m, t) == None
      else if t.floor then Step(m, t) == Moment(STANDING, t.groundY) && Charge(m, t) == Some(Max(m.y - t.groundY, 0.0))
      else Step(m, t) == Moment(Vertical(true, 0.0, m.y), t.groundY) && Charge(m, t) == None
  {
  }

  /**
   A body in the air falls, lands on a floor it reaches, and rests against any other ground
   with its fall still open.
   */
  lemma AirborneTick(m: Moment, t: Tick)
    requires m.v.airborne
    ensures
      var vy := m.v.vy - GRAVITY * t.dt;
      var next := m.y + vy * t.dt;
      if next > t.groundY then Step(m, t) == Moment(Vertical(true, vy, m.v.fromY), next) && Charge(m, t) == None
      else if t.floor then
        Step(m, t) == Moment(STANDING, t.groundY) && Charge(m, t) == Some(Max(m.v.fromY - t.groundY, 0.0))
      else Step(m, t) == Moment(Vertical(true, 0.0, m.v.fromY), t.groundY) && Charge(m, t) == None
  {
  }

  // ------------------------------------------------------ a slope is not an edge

  lemma ProductPositive(a: real, b: real)
    requires a > 0.0 && b > 0.0
    ensures a * b > 0.0
  {
  }

  lemma SquareOrder(a: real, b: real)
    requires b >= 0.0 && a * a <= b * b
    ensures -b <= a <= b
  {
    if a > b {
      ProductPositive(a - b, a + b);
    }
    if a < -b {
      ProductPositive(-a - b, -a + b);
    }
  }

  /** A product of a gradient and a step is no longer than the product of their lengths. */
  lemma CauchySchwarz(gx: real, gz: real, dx: real, dz: real)
    ensures (gx * dx + gz * dz) * (gx * dx + gz * dz) <= (gx * gx + gz * gz) * (dx * dx + dz * dz)
  {
    var cross := gx * dz - gz * dx;
    assert cross * cross >= 0.0;
    assert (gx * gx + gz * gz) * (dx * dx + dz * dz) == (gx * dx + gz * dz) * (gx * dx + gz * dz) + cross * cross;
  }

  lemma ProductMono(a: real, b: real, c: real)
    requires a <= b && c >= 0.0
    ensures a * c <= b * c
  {
  }

  /**
   A body on plane ground that counts as a floor never leaves it, however fast it walks
   and in whatever direction: the most a tick may drop covers any floor's slope.
   */
  lemma SlopeKeepsFeet(m: Moment, t: Tick, gx: real, gz: real, dx: real, dz: real)
    requires !m.v.airborne && IsFloor(gx, gz) && t.floor && t.groundY == m.y + (gx * dx + gz * dz)
    requires t.step >= 0.0 && t.step * t.step == dx * dx + dz * dz
    ensures KeepsFeet(m, t) && Step(m, t) == Moment(m.v, t.groundY) && Charge(m, t).None?
  {
    CauchySchwarz(gx, gz, dx, dz);
    assert dx * dx >= 0.0 && dz * dz >= 0.0;
    ProductMono(gx * gx + gz * gz, FLOOR_TAN * FLOOR_TAN, dx * dx + dz * dz);
    var reach := t.step * FLOOR_TAN;
    assert reach * reach == FLOOR_TAN * FLOOR_TAN * (t.step * t.step);
    SquareOrder(gx * dx + gz * dz, reach);
  }

  // ------------------------------------------- free fall over a flat floor

  /** `n` ticks onto the same ground, one after another. */
  function Same(t: Tick, n: nat): (r: seq<Tick>)
    ensures |r| == n
    ensures forall i :: 0 <= i < n ==> r[i] == t
  {
    seq(n, _ => t)
  }

  function FallenAfter(dt: real, n: nat): real {
    GRAVITY * dt * dt * ((n * (n + 1)) as real) / 2.0
  }

  /** The state of a body `n` ticks into a free fall from `fromY`. */
  predicate Falling(m: Moment, fromY: real, dt: real, n: nat) {
    m == Moment(Vertical(true, -(GRAVITY * dt * (n as real)), fromY), fromY - FallenAfter(dt, n))
  }

  /** One more tick of free fall, landing exactly when the closed form reaches the ground. */
  lemma FallingStep(m: Moment, fromY: real, t: Tick, n: nat)
    requires Falling(m, fromY, t.dt, n) && t.floor
    ensures Lands(m, t) <==> fromY - FallenAfter(t.dt, n + 1) <= t.groundY
    ensures !Lands(m, t) ==> Falling(Step(m, t), fromY, t.dt, n + 1)
  {
    var g := GRAVITY * t.dt;
    var k := n as real;
    assert (n * (n + 1)) as real == k * (k + 1.0);
    assert ((n + 1) * (n + 2)) as real == (k + 1.0) * (k + 2.0);
    var vy := -(g * k) - g;
    assert vy == -(g * (k + 1.0));
    assert FallenAfter(t.dt, n + 1) == FallenAfter(t.dt, n) + g * (k + 1.0) * t.dt by {
      assert (k + 1.0) * (k + 2.0) == k * (k + 1.0) + 2.0 * (k + 1.0);
      var c := g * t.dt;
      assert c * ((k + 1.0) * (k + 2.0)) == c * (k * (k + 1.0)) + c * (2.0 * (k + 1.0));
    }
  }

  /**
   Free fall over a flat floor: after `n` ticks without a landing the body is
   `g dt^2 n(n+1)/2` below where it began.
   */
  lemma {:induction false} FreeFallHeight(m: Moment, fromY: real, t: Tick, k: nat, n: nat)
    requires Falling(m, fromY, t.dt, k) && t.floor && StaysUp(m, Same(t, n))
    ensures Falling(Run(m, Same(t, n)), fromY, t.dt, k + n)
    decreases n
  {
    if n > 0 {
      FallingStep(m, fromY, t, k);
      assert Same(t, n)[1..] == Same(t, n - 1);
      FreeFallHeight(Step(m, t), fromY, t, k + 1, n - 1);
    }
  }

  /** The fall so far only grows with the ticks. */
  lemma FallenGrows(dt: real, k: nat, n: nat)
    requires k <= n
    ensures FallenAfter(dt, k) <= FallenAfter(dt, n)
  {
    assert k * (k + 1) <= n * (n + 1);
    var c := GRAVITY * dt * dt;
    assert dt * dt >= 0.0;
    var a, b := (k * (k + 1)) as real, (n * (n + 1)) as real;
    assert c * (b - a) >= 0.0;
  }

  lemma {:induction false} FreeFallStaysUp(m: Moment, fromY: real, t: Tick, k: nat, n: nat)
    requires Falling(m, fromY, t.dt, k) && t.floor
    requires FallenAfter(t.dt, k + n) < fromY - t.groundY
    ensures StaysUp(m, Same(t, n))
    decreases n
  {
    if n > 0 {
      FallingStep(m, fromY, t, k);
      FallenGrows(t.dt, k + 1, k + n);
      assert Same(t, n)[1..] == Same(t, n - 1);
      FreeFallStaysUp(Step(m, t), fromY, t, k + 1, n - 1);
    }
  }

  /**
   When the landing comes. Stepping off an edge over a flat floor, a body is
   still up after `n` ticks if and only if the closed form has not reached the
   ground: the fall ends at the first tick whose height is at or below it.
   */
  lemma LandsWhenTheHeightIsReached(m: Moment, t: Tick, n: nat)
    requires !m.v.airborne && !KeepsFeet(m, t) && t.floor && n > 0
    ensures StaysUp(m, Same(t, n)) <==> FallenAfter(t.dt, n) < m.y - t.groundY
  {
    var up := Moment(Vertical(true, 0.0, m.y), m.y);
    assert Falling(up, m.y, t.dt, 0);
    assert Step(up, t) == Step(m, t) && (Lands(up, t) <==> Lands(m, t));
    assert StaysUp(up, Same(t, n)) <==> StaysUp(m, Same(t, n));
    if StaysUp(up, Same(t, n)) {
      StaysUpPrefix(up, t, n - 1, 1);
      FreeFallHeight(up, m.y, t, 0, n - 1);
      FallingStep(Run(up, Same(t, n - 1)), m.y, t, n - 1);
    }
    if FallenAfter(t.dt, n) < m.y - t.groundY {
      FreeFallStaysUp(up, m.y, t, 0, n);
    }
  }

  /** A fall ends: by the tick whose number times `g dt^2` is the height it has to fall. */
  lemma LandsInBoundedTime(m: Moment, t: Tick, n: nat)
    requires !m.v.airborne && !KeepsFeet(m, t) && t.floor && n > 0
    requires GRAVITY * t.dt * t.dt * (n as real) >= m.y - t.groundY
    ensures !StaysUp(m, Same(t, n))
  {
    FallsAtLeast(t.dt, n);
    LandsWhenTheHeightIsReached(m, t, n);
  }

  lemma FallsAtLeast(dt: real, n: nat)
    requires n > 0
    ensures FallenAfter(dt, n) >= GRAVITY * dt * dt * (n as real)
  {
    var c, sum := GRAVITY * dt * dt, (n * (n + 1)) as real;
    assert n * (n + 1) >= 2 * n;
    assert dt * dt >= 0.0;
    assert c * (sum - 2.0 * (n as real)) >= 0.0;
  }

  lemma {:induction false} StaysUpPrefix(m: Moment, t: Tick, n: nat, more: nat)
    requires StaysUp(m, Same(t, n + more))
    ensures StaysUp(m, Same(t, n))
    ensures StaysUp(Run(m, Same(t, n)), Same(t, more))
    decreases n
  {
    if n > 0 {
      assert Same(t, n + more)[1..] == Same(t, n - 1 + more);
      assert Same(t, n)[1..] == Same(t, n - 1);
      StaysUpPrefix(Step(m, t), t, n - 1, more);
    }
  }

  // --------------------------------------------------------------- damage

  /** Rust's `round` on a non-negative number: half rounds up. */
  function Round(x: real): int {
    (x + 0.5).Floor
  }

  function Share(drop: real): (s: real)
    ensures 0.0 <= s <= 1.0
  {
    var s := (drop - SAFE_DROP) / (LETHAL_DROP - SAFE_DROP);
    if s < 0.0 then 0.0 else if s > 1.0 then 1.0 else s
  }

  function Damage(drop: real, maxHp: real): real {
    CostOf(Share(drop), maxHp)
  }

  function CostOf(share: real, maxHp: real): real {
    if share <= 0.0 then 0.0 else Points(share * maxHp)
  }

  function Points(x: real): real {
    Max(Round(x) as real, 1.0)
  }

  lemma RoundNear(x: real)
    ensures Round(x) as real <= x + 0.5 < Round(x) as real + 1.0
  {
  }

  lemma IntsCompare(a: int, b: int)
    requires a as real < b as real + 1.0
    ensures a <= b && a as real <= b as real
  {
  }

  lemma PointsWithin(x: real, n: nat)
    requires 0.0 <= x <= n as real && n > 0
    ensures 1.0 <= Points(x) <= n as real && Points(n as real) == n as real
  {
    RoundNear(x);
    RoundNear(n as real);
    IntsCompare(Round(x), n);
    IntsCompare(n, Round(n as real));
    IntsCompare(Round(n as real), n);
  }

  /** A safe drop is free and any other hurts by a point at least; a lethal one takes all of a whole-number pool. */
  lemma DamageThresholds(drop: real, hp: nat)
    requires hp > 0
    ensures Damage(drop, hp as real) == 0.0 <==> drop <= SAFE_DROP
    ensures drop > SAFE_DROP ==> 1.0 <= Damage(drop, hp as real) <= hp as real
    ensures drop >= LETHAL_DROP ==> Damage(drop, hp as real) == hp as real
  {
    ShareThresholds(drop);
    CostWithin(Share(drop), hp);
  }

  lemma CostWithin(s: real, hp: nat)
    requires 0.0 <= s <= 1.0 && hp > 0
    ensures s > 0.0 ==> 1.0 <= CostOf(s, hp as real) <= hp as real
    ensures s == 1.0 ==> CostOf(s, hp as real) == hp as real
  {
    PointsWithin(hp as real, hp);
    CostMonotone(s, 1.0, hp as real);
  }

  lemma ShareThresholds(drop: real)
    ensures Share(drop) == 0.0 <==> drop <= SAFE_DROP
    ensures drop >= LETHAL_DROP ==> Share(drop) == 1.0
  {
  }

  /** A higher fall never costs less. */
  lemma DamageMonotone(a: real, b: real, maxHp: real)
    requires a <= b && maxHp >= 0.0
    ensures Damage(a, maxHp) <= Damage(b, maxHp)
  {
    CostMonotone(Share(a), Share(b), maxHp);
  }

  lemma CostMonotone(s: real, t: real, maxHp: real)
    requires s <= t && maxHp >= 0.0
    ensures CostOf(s, maxHp) <= CostOf(t, maxHp)
  {
    ScaleMono(s, t, maxHp);
    PointsMono(s * maxHp, t * maxHp);
  }

  lemma ScaleMono(s: real, t: real, h: real)
    requires s <= t && h >= 0.0
    ensures s * h <= t * h
  {
    assert (t - s) * h >= 0.0;
  }

  lemma PointsMono(x: real, y: real)
    requires x <= y
    ensures 1.0 <= Points(x) <= Points(y)
  {
    RoundNear(x);
    RoundNear(y);
    IntsCompare(Round(x), Round(y));
  }

  // ----------------------------------------------------------- the body itself

  class Body {
    var airborne: bool
    var vy: real
    var fromY: real

    function View(): Vertical
      reads this
    {
      Vertical(airborne, vy, fromY)
    }

    method Stand()
      modifies this
      ensures View() == STANDING
    {
      airborne, vy, fromY := false, 0.0, 0.0;
    }

    method TouchDown(groundY: real) returns (drop: real)
      modifies this
      ensures View() == STANDING && drop == Drop(old(View()), groundY)
    {
      drop := Max(fromY - groundY, 0.0);
      Stand();
    }

    /** `vertical_step`: one tick; the new height and, when it touched down, the drop charged. */
    method VerticalStep(y: real, t: Tick) returns (height: real, landing: Option<real>)
      modifies this
      ensures Moment(View(), height) == Step(Moment(old(View()), y), t)
      ensures landing == Charge(Moment(old(View()), y), t)
    {
      if !airborne {
        var withinReach := t.groundY >= y - MaxDrop(t.step);
        if withinReach && (t.floor || t.groundY > y) {
          return t.groundY, None;
        }
        airborne, vy, fromY := true, 0.0, y;
      }
      var (speed, next) := Fallen(vy, y, t.dt);
      vy := speed;
      if next <= t.groundY {
        if !t.floor {
          vy := 0.0;
          return t.groundY, None;
        }
        var drop := TouchDown(t.groundY);
        return t.groundY, Some(drop);
      }
      return next, None;
    }

    /** `settle`: land a body in the air where it is, before a port moves it. */
    method Settle(groundY: real) returns (landing: Option<real>)
      modifies this
      ensures landing == SettleCharge(old(View()), groundY)
      ensures View() == if old(airborne) then STANDING else old(View())
    {
      if !airborne {
        return None;
      }
      var drop := TouchDown(groundY);
      return Some(drop);
    }
  }
}
