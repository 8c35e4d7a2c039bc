/**
 A walk toward a goal that stands still: each tick one step the slope rule may
 refuse, watched by the stuck clock. Mobs chase, return home and pets follow this
 way. Whatever the terrain, the walk ends: it arrives, or the clock runs out.
 */
module Walk {
  import opened Reals
  import opened Arithmetic
  import opened Options
  import opened Geometry

  const MOB_STUCK_SECS: real := 8.0
  const STUCK_PROGRESS_M: real := 1.0

  datatype StuckClock = StuckClock(since: real, goal: Option<EntityId>, startDist: real, lastRefused: real)

  /** A walker between ticks. */
  datatype Walker = Walker(pos: Vec3, stuck: Option<StuckClock>)

  /** `step_on`: onto the ground under `to`, unless the slope rule refuses the step. */
  function StepOn(w: World, pos: Vec3, to: Vec3): Vec3 {
    if w.slopeOk(pos, to) then GroundVec(w, to) else pos
  }

  /** A clock survives while it is for this goal and the walker has come no nearer than it allows. */
  predicate Survives(c: StuckClock, goal: Option<EntityId>, dist: real) {
    c.goal == goal && dist > c.startDist - STUCK_PROGRESS_M
  }

  /** `stuck_too_long`'s clock after a step toward `goal`, now `dist` away, was tried. */
  function ClockAfter(stuck: Option<StuckClock>, moved: bool, goal: Option<EntityId>, dist: real,
      now: real): Option<StuckClock> {
    var kept := if stuck.Some? && Survives(stuck.value, goal, dist) then stuck else None;
    if moved then kept
    else if kept.Some? then Some(kept.value.(lastRefused := now))
    else Some(StuckClock(now, goal, dist, now))
  }

  predicate RanOut(stuck: Option<StuckClock>, now: real) {
    stuck.Some? && Elapsed(now, stuck.value.since) >= MOB_STUCK_SECS
  }

  /** One tick of walking: the step, then the clock. */
  function Approach(w: World, k: Walker, goal: Option<EntityId>, dest: Vec3, step: real, now: real): Walker {
    var to := StepToward(w, k.pos, dest, step);
    var moved := w.slopeOk(k.pos, to);
    var pos := StepOn(w, k.pos, to);
    Walker(pos, ClockAfter(k.stuck, moved, goal, Dist(w, pos, dest), now))
  }

  // ------------------------------------------------------------- it must end

  /** Steps of at least `s` that can still shorten a ground distance. */
  function Moves(h: real, s: real): int
    requires s > 0.0
  {
    (h / s).Floor + 1
  }

  /** Refused ticks, `gap` apart at least, that a clock started fresh can bear. */
  function Refusals(gap: real): int
    requires gap > 0.0
  {
    (MOB_STUCK_SECS / gap).Floor + 1
  }

  /** Refused ticks left at time `t`: what a surviving clock has left, or a whole fresh one. */
  function RefusalsLeft(w: World, k: Walker, goal: Option<EntityId>, dest: Vec3, gap: real, t: real): int
    requires gap > 0.0
  {
    if k.stuck.Some? && Survives(k.stuck.value, goal, Dist(w, k.pos, dest)) then
      var left := ((MOB_STUCK_SECS - (t - k.stuck.value.since)) / gap).Floor + 1;
      if left > 0 then left else 0
    else Refusals(gap)
  }

  /** The walk's budget of ticks: every step that shortens it, each with its fill of refusals. */
  function Budget(w: World, k: Walker, goal: Option<EntityId>, dest: Vec3, s: real, gap: real, t: real): int
    requires s > 0.0 && gap > 0.0
  {
    Moves(Flat(w, k.pos, dest), s) * (Refusals(gap) + 1) + RefusalsLeft(w, k, goal, dest, gap, t)
  }

  predicate ClockStarted(k: Walker, t: real) {
    k.stuck.Some? ==> k.stuck.value.since <= t
  }

  lemma FloorDrops(a: real, b: real, unit: real)
    requires unit > 0.0 && a <= b - unit
    ensures (a / unit).Floor <= (b / unit).Floor - 1
  {
    assert a / unit <= b / unit - 1.0 by {
      assert b / unit - a / unit == (b - a) / unit;
      QuotientAtLeastOne(b - a, unit);
    }
  }

  lemma QuotientAtLeastOne(d: real, unit: real)
    requires unit > 0.0 && d >= unit
    ensures d / unit >= 1.0
  {
  }

  lemma QuotientMono(a: real, b: real, unit: real)
    requires unit > 0.0 && a <= b
    ensures a / unit <= b / unit
  {
  }

  lemma RefusalsLeftWithin(w: World, k: Walker, goal: Option<EntityId>, dest: Vec3, gap: real, t: real)
    requires gap > 0.0 && ClockStarted(k, t)
    ensures 0 <= RefusalsLeft(w, k, goal, dest, gap, t) <= Refusals(gap)
  {
    QuotientMono(0.0, MOB_STUCK_SECS, gap);
    if k.stuck.Some? {
      QuotientMono(MOB_STUCK_SECS - (t - k.stuck.value.since), MOB_STUCK_SECS, gap);
    }
  }

  /** A refused tick uses up one of the refusals the clock can bear. */
  lemma RefusalCounts(w: World, k: Walker, goal: Option<EntityId>, dest: Vec3, step: real, gap: real, t: real, t': real)
    requires gap > 0.0 && t' >= t + gap && ClockStarted(k, t)
    requires !w.slopeOk(k.pos, StepToward(w, k.pos, dest, step))
    ensures
      var k' := Approach(w, k, goal, dest, step, t);
      && k'.pos == k.pos && ClockStarted(k', t')
      && (RanOut(k'.stuck, t)
          || RefusalsLeft(w, k', goal, dest, gap, t') < RefusalsLeft(w, k, goal, dest, gap, t))
  {
    var k' := Approach(w, k, goal, dest, step, t);
    var since := k'.stuck.value.since;
    FloorDrops(MOB_STUCK_SECS - (t' - since), MOB_STUCK_SECS - (t - since), gap);
    if !RanOut(k'.stuck, t) {
      QuotientMono(0.0, MOB_STUCK_SECS - (t - since), gap);
    }
  }

  /** A step taken arrives, or shortens the ground distance by its length. */
  lemma StepCounts(w: World, pos: Vec3, dest: Vec3, step: real, s: real)
    requires IsRoot(w.root) && GroundVec(w, dest) == dest && step >= s > 0.0
    requires w.slopeOk(pos, StepToward(w, pos, dest, step))
    ensures
      var pos' := StepOn(w, pos, StepToward(w, pos, dest, step));
      pos' == dest || Moves(Flat(w, pos', dest), s) <= Moves(Flat(w, pos, dest), s) - 1
  {
    var to := StepToward(w, pos, dest, step);
    var h := Flat(w, pos, dest);
    if step < h && EPSILON < h {
      StepShortens(w, pos, dest, step);
      assert Flat(w, GroundVec(w, to), dest) == Flat(w, to, dest);
      FloorDrops(h - step, h, s);
    }
  }

  lemma FlatNonNegative(w: World, a: Vec3, b: Vec3)
    requires IsRoot(w.root)
    ensures Flat(w, a, b) >= 0.0
  {
    SquareNonNegative(b.x - a.x);
    SquareNonNegative(b.z - a.z);
  }

  lemma MovesPositive(w: World, k: Walker, dest: Vec3, s: real)
    requires IsRoot(w.root) && s > 0.0
    ensures Moves(Flat(w, k.pos, dest), s) >= 1
  {
    FlatNonNegative(w, k.pos, dest);
    QuotientMono(0.0, Flat(w, k.pos, dest), s);
  }

  /** Every tick of a walk arrives, runs the clock out, or spends some of the budget. */
  lemma ApproachSpends(w: World, k: Walker, goal: Option<EntityId>, dest: Vec3, step: real, s: real, gap: real,
      t: real, t': real)
    requires IsRoot(w.root) && GroundVec(w, dest) == dest
    requires step >= s > 0.0 && gap > 0.0 && t' >= t + gap && ClockStarted(k, t)
    ensures
      var k' := Approach(w, k, goal, dest, step, t);
      && ClockStarted(k', t')
      && (k'.pos == dest || RanOut(k'.stuck, t)
          || Budget(w, k', goal, dest, s, gap, t') < Budget(w, k, goal, dest, s, gap, t))
  {
    var k' := Approach(w, k, goal, dest, step, t);
    if w.slopeOk(k.pos, StepToward(w, k.pos, dest, step)) {
      StepCounts(w, k.pos, dest, step, s);
      RefusalsLeftWithin(w, k, goal, dest, gap, t);
      RefusalsLeftWithin(w, k', goal, dest, gap, t');
      if k'.pos != dest {
        var m, m', r := Moves(Flat(w, k.pos, dest), s), Moves(Flat(w, k'.pos, dest), s), Refusals(gap);
        StepOutweighsRefusals(m, m', r + 1);
      }
    } else {
      RefusalCounts(w, k, goal, dest, step, gap, t, t');
    }
  }

  lemma StepOutweighsRefusals(m: int, m': int, r: int)
    requires m' <= m - 1 && r >= 0
    ensures m' * r <= m * r - r
  {
    MulMono(m', m - 1, r);
    DiffTimes(m, 1, r);
  }

  lemma BudgetPositive(w: World, k: Walker, goal: Option<EntityId>, dest: Vec3, s: real, gap: real, t: real)
    requires IsRoot(w.root) && s > 0.0 && gap > 0.0 && ClockStarted(k, t)
    ensures Budget(w, k, goal, dest, s, gap, t) >= 1
  {
    MovesPositive(w, k, dest, s);
    RefusalsLeftWithin(w, k, goal, dest, gap, t);
    QuotientMono(0.0, MOB_STUCK_SECS, gap);
    StepOutweighsRefusals(Moves(Flat(w, k.pos, dest), s), 0, Refusals(gap) + 1);
  }

  /** Time passing never adds to a walk's budget. */
  lemma WaitingSpends(w: World, k: Walker, goal: Option<EntityId>, dest: Vec3, s: real, gap: real, t: real, now: real)
    requires s > 0.0 && gap > 0.0 && now >= t
    ensures Budget(w, k, goal, dest, s, gap, now) <= Budget(w, k, goal, dest, s, gap, t)
  {
    if k.stuck.Some? {
      QuotientMono(MOB_STUCK_SECS - (now - k.stuck.value.since), MOB_STUCK_SECS - (t - k.stuck.value.since), gap);
    }
  }

  // ------------------------------------------------------------- whole walks

  /** One tick's length of step and its time. */
  datatype Beat = Beat(step: real, now: real)

  predicate Steady(beats: seq<Beat>, s: real, gap: real) {
    && (forall b :: b in beats ==> b.step >= s)
    && (forall i, j :: 0 <= i < j < |beats| ==> beats[j].now >= beats[i].now + gap)
  }

  /** The walk arrives, or is given up, at one of these ticks. */
  predicate Ends(w: World, k: Walker, goal: Option<EntityId>, dest: Vec3, beats: seq<Beat>)
    decreases |beats|
  {
    beats != [] &&
    (var k' := Approach(w, k, goal, dest, beats[0].step, beats[0].now);
     k'.pos == dest || RanOut(k'.stuck, beats[0].now) || Ends(w, k', goal, dest, beats[1..]))
  }

  /** Over any terrain, a walk toward a point on the ground ends within its budget of ticks. */
  lemma {:induction false} WalkEnds(w: World, k: Walker, goal: Option<EntityId>, dest: Vec3, beats: seq<Beat>,
      s: real, gap: real)
    requires IsRoot(w.root) && GroundVec(w, dest) == dest && s > 0.0 && gap > 0.0
    requires Steady(beats, s, gap) && beats != [] && ClockStarted(k, beats[0].now)
    requires |beats| >= Budget(w, k, goal, dest, s, gap, beats[0].now)
    ensures Ends(w, k, goal, dest, beats)
    decreases |beats|
  {
    var b := beats[0];
    assert b in beats;
    var t' := if |beats| > 1 then beats[1].now else b.now + gap;
    var k' := Approach(w, k, goal, dest, b.step, b.now);
    ApproachSpends(w, k, goal, dest, b.step, s, gap, b.now, t');
    if k'.pos != dest && !RanOut(k'.stuck, b.now) {
      BudgetPositive(w, k', goal, dest, s, gap, t');
      assert forall x :: x in beats[1..] ==> x in beats;
      WalkEnds(w, k', goal, dest, beats[1..], s, gap);
    }
  }

  /** A clock for another goal is forgotten: a step taken leaves none, a step refused starts a new one. */
  lemma NewGoalNewClock(w: World, k: Walker, goal: Option<EntityId>, dest: Vec3, step: real, now: real)
    requires k.stuck.Some? && k.stuck.value.goal != goal
    ensures
      var after := Approach(w, k, goal, dest, step, now);
      if w.slopeOk(k.pos, StepToward(w, k.pos, dest, step)) then after.stuck == None
      else after.stuck == Some(StuckClock(now, goal, Dist(w, k.pos, dest), now)) && after.pos == k.pos
  {
  }

  // ---------------------------------------------------------- what the clock means

  /** The walker after its first `n` ticks. */
  function Walked(w: World, k: Walker, goal: Option<EntityId>, dest: Vec3, beats: seq<Beat>, n: nat): Walker
    requires n <= |beats|
  {
    if n == 0 then k
    else Approach(w, Walked(w, k, goal, dest, beats, n - 1), goal, dest, beats[n - 1].step, beats[n - 1].now)
  }

  /** Whether the slope refuses its tick `i`. */
  predicate Refused(w: World, k: Walker, goal: Option<EntityId>, dest: Vec3, beats: seq<Beat>, i: nat)
    requires i < |beats|
  {
    var pos := Walked(w, k, goal, dest, beats, i).pos;
    !w.slopeOk(pos, StepToward(w, pos, dest, beats[i].step))
  }

  function DistLeft(w: World, k: Walker, goal: Option<EntityId>, dest: Vec3, beats: seq<Beat>, n: nat): real
    requires n <= |beats|
  {
    Dist(w, Walked(w, k, goal, dest, beats, n).pos, dest)
  }

  /** Refused at tick `i`, and in all the ticks since never a metre nearer than that left it. */
  predicate StuckSince(w: World, k: Walker, goal: Option<EntityId>, dest: Vec3, beats: seq<Beat>, n: nat, i: nat)
    requires i < n <= |beats|
  {
    && Refused(w, k, goal, dest, beats, i)
    && (forall j :: i < j <= n ==>
          DistLeft(w, k, goal, dest, beats, j) > DistLeft(w, k, goal, dest, beats, i + 1) - STUCK_PROGRESS_M)
  }

  /** The last tick refused. */
  predicate LastRefused(w: World, k: Walker, goal: Option<EntityId>, dest: Vec3, beats: seq<Beat>, n: nat, l: nat)
    requires l < n <= |beats|
  {
    && Refused(w, k, goal, dest, beats, l)
    && (forall j :: l < j < n ==> !Refused(w, k, goal, dest, beats, j))
  }

  /**
   A clock that runs was started by tick `i`, refused, has seen no metre of progress since, and
   knows the last refusal.
   */
  predicate Tells(w: World, k: Walker, goal: Option<EntityId>, dest: Vec3, beats: seq<Beat>, n: nat, i: nat, l: nat)
    requires n <= |beats|
  {
    Walked(w, k, goal, dest, beats, n).stuck.Some? ==>
      var clock := Walked(w, k, goal, dest, beats, n).stuck.value;
      && i < n && StuckSince(w, k, goal, dest, beats, n, i) && clock.since == beats[i].now
      && clock.goal == goal && clock.startDist == DistLeft(w, k, goal, dest, beats, i + 1)
      && l < n && LastRefused(w, k, goal, dest, beats, n, l) && clock.lastRefused == beats[l].now
  }

  /** Whether the clock that stood before tick `n` is kept through it. */
  predicate Kept(w: World, k: Walker, goal: Option<EntityId>, dest: Vec3, beats: seq<Beat>, n: nat)
    requires n < |beats|
  {
    var clock := Walked(w, k, goal, dest, beats, n).stuck;
    clock.Some? && Survives(clock.value, goal, DistLeft(w, k, goal, dest, beats, n + 1))
  }

  lemma ClockKept(w: World, k: Walker, goal: Option<EntityId>, dest: Vec3, beats: seq<Beat>, n: nat, i: nat, l: nat)
    requires n < |beats| && Tells(w, k, goal, dest, beats, n, i, l) && Kept(w, k, goal, dest, beats, n)
    ensures Tells(w, k, goal, dest, beats, n + 1, i, if Refused(w, k, goal, dest, beats, n) then n else l)
  {
    var clock := Walked(w, k, goal, dest, beats, n).stuck.value;
    StillStuck(w, k, goal, dest, beats, n, i);
    assert Walked(w, k, goal, dest, beats, n + 1).stuck ==
      Some(if Refused(w, k, goal, dest, beats, n) then clock.(lastRefused := beats[n].now) else clock);
  }

  lemma StillStuck(w: World, k: Walker, goal: Option<EntityId>, dest: Vec3, beats: seq<Beat>, n: nat, i: nat)
    requires i < n < |beats| && StuckSince(w, k, goal, dest, beats, n, i)
    requires DistLeft(w, k, goal, dest, beats, n + 1) > DistLeft(w, k, goal, dest, beats, i + 1) - STUCK_PROGRESS_M
    ensures StuckSince(w, k, goal, dest, beats, n + 1, i)
  {
  }

  lemma ClockStarts(w: World, k: Walker, goal: Option<EntityId>, dest: Vec3, beats: seq<Beat>, n: nat)
    requires n < |beats| && !Kept(w, k, goal, dest, beats, n)
    ensures Tells(w, k, goal, dest, beats, n + 1, n, n)
  {
    assert Walked(w, k, goal, dest, beats, n + 1).stuck ==
      if !Refused(w, k, goal, dest, beats, n) then None
      else Some(StuckClock(beats[n].now, goal, DistLeft(w, k, goal, dest, beats, n + 1), beats[n].now));
  }

  lemma {:induction false} ClockTells(w: World, k: Walker, goal: Option<EntityId>, dest: Vec3, beats: seq<Beat>, n: nat)
    returns (i: nat, l: nat)
    requires k.stuck == None && n <= |beats|
    ensures Tells(w, k, goal, dest, beats, n, i, l)
  {
    i, l := 0, 0;
    if n > 0 {
      i, l := ClockTells(w, k, goal, dest, beats, n - 1);
      if Kept(w, k, goal, dest, beats, n - 1) {
        ClockKept(w, k, goal, dest, beats, n - 1, i, l);
        l := if Refused(w, k, goal, dest, beats, n - 1) then n - 1 else l;
      } else {
        ClockStarts(w, k, goal, dest, beats, n - 1);
        i, l := n - 1, n - 1;
      }
    }
  }

  /** A walk is given up only once a tick eight seconds back was refused, and not a metre gained since. */
  lemma GivenUpOnlyWhenStuck(w: World, k: Walker, goal: Option<EntityId>, dest: Vec3, beats: seq<Beat>, n: nat)
    requires k.stuck == None && 0 < n <= |beats|
    requires forall i, j :: 0 <= i <= j < |beats| ==> beats[i].now <= beats[j].now
    requires RanOut(Walked(w, k, goal, dest, beats, n).stuck, beats[n - 1].now)
    ensures exists i ::
      0 <= i < n && beats[n - 1].now - beats[i].now >= 8.0 && StuckSince(w, k, goal, dest, beats, n, i)
  {
    var i, _ := ClockTells(w, k, goal, dest, beats, n);
    assert beats[i].now <= beats[n - 1].now;
  }
}
