/**
 Damage over time on a mob or pet: whole ticks counted out from the duration, one
 effect per spell name.
 */
module Dots {
  import opened Arithmetic
  import opened Reals
  import opened Geometry
  import Sequences

  const DOT_TICK_SECS: real := 3.0
  const U32_MAX: nat := 0xFFFF_FFFF

  datatype Dot = Dot(
    name: string, caster: EntityId, dps: real, dmgType: nat, remaining: real, tickAcc: real, ticksLeft: nat)

  datatype DotTick = DotTick(name: string, caster: EntityId, amount: int, dmgType: nat)

  /** Whole ticks in a duration, cast to 32 bits. */
  function TicksIn(duration: real): (n: nat)
    ensures n <= U32_MAX
  {
    var n := (duration / DOT_TICK_SECS).Floor;
    if n < 0 then 0 else if n > U32_MAX then U32_MAX else n
  }

  /** The damage of one tick, rounded half up and never negative. */
  function TickAmount(dps: real): nat {
    var x := dps * DOT_TICK_SECS;
    if x < 0.0 then 0 else (x + 0.5).Floor
  }

  /** A cast as it lands: its ticks counted out, its clock at zero. */
  function Landed(d: Dot): Dot {
    d.(ticksLeft := TicksIn(d.remaining), tickAcc := 0.0)
  }

  predicate Due(d: Dot, dt: real) {
    d.tickAcc + dt >= DOT_TICK_SECS && d.ticksLeft > 0
  }

  function Advanced(d: Dot, dt: real): Dot {
    var on := d.(remaining := d.remaining - dt, tickAcc := d.tickAcc + dt);
    if Due(d, dt) then on.(tickAcc := on.tickAcc - DOT_TICK_SECS, ticksLeft := d.ticksLeft - 1) else on
  }

  function TickOf(d: Dot): DotTick {
    DotTick(d.name, d.caster, TickAmount(d.dps), d.dmgType)
  }

  /** A tick is three seconds of the rate to the nearest point, never negative. */
  lemma TickAmountIsNearest(dps: real)
    ensures dps >= 0.0 ==> TickAmount(dps) as real - 0.5 <= 3.0 * dps < TickAmount(dps) as real + 0.5
    ensures dps < 0.0 ==> TickAmount(dps) == 0
  {
  }

  /** A duration holds as many ticks as whole threes of seconds, to the most a counter can hold. */
  lemma TicksInAreWhole(duration: real)
    ensures duration < 3.0 ==> TicksIn(duration) == 0
    ensures 0.0 <= duration < 3.0 * U32_MAX as real ==>
      3.0 * TicksIn(duration) as real <= duration < 3.0 * TicksIn(duration) as real + 3.0
  {
  }

  // ------------------------------------------------------------- one dot alone

  function AfterAll(d: Dot, dts: seq<real>): Dot
    decreases |dts|
  {
    if dts == [] then d else AfterAll(Advanced(d, dts[0]), dts[1..])
  }

  /** Ticks dealt over a run of sweeps. */
  function Dealt(d: Dot, dts: seq<real>): nat
    decreases |dts|
  {
    if dts == [] then 0 else (if Due(d, dts[0]) then 1 else 0) + Dealt(Advanced(d, dts[0]), dts[1..])
  }

  function WholeTicks(time: real): int {
    (time / DOT_TICK_SECS).Floor
  }

  predicate NoLongerThanATick(dts: seq<real>) {
    forall dt :: dt in dts ==> 0.0 < dt <= DOT_TICK_SECS
  }

  lemma {:induction false} TicksLeftCountDown(d: Dot, dts: seq<real>)
    ensures Dealt(d, dts) + AfterAll(d, dts).ticksLeft == d.ticksLeft
    decreases |dts|
  {
    if dts != [] {
      TicksLeftCountDown(Advanced(d, dts[0]), dts[1..]);
    }
  }

  /**
   From an accumulator short of a tick, sweeps no longer than a tick deal one tick
   for every whole tick length of time, until none are left.
   */
  lemma {:induction false} DealtOverTime(d: Dot, dts: seq<real>)
    requires 0.0 <= d.tickAcc < DOT_TICK_SECS && NoLongerThanATick(dts)
    ensures Dealt(d, dts) == MinInt(WholeTicks(d.tickAcc + Total(dts)), d.ticksLeft)
    decreases |dts|
  {
    if dts != [] {
      assert dts[0] in dts && forall dt :: dt in dts[1..] ==> dt in dts;
      TotalNonNegative(dts[1..]);
      var d' := Advanced(d, dts[0]);
      if d.ticksLeft == 0 {
        NoneLeftNoneDealt(d', dts[1..]);
      } else {
        DealtOverTime(d', dts[1..]);
      }
    }
  }

  lemma {:induction false} NoneLeftNoneDealt(d: Dot, dts: seq<real>)
    requires d.ticksLeft == 0
    ensures Dealt(d, dts) == 0
    decreases |dts|
  {
    if dts != [] {
      NoneLeftNoneDealt(Advanced(d, dts[0]), dts[1..]);
    }
  }

  /** However long the sweeps, no more is dealt than time has earned. */
  lemma {:induction false} DealtIsEarned(d: Dot, dts: seq<real>)
    requires d.tickAcc >= 0.0 && forall dt :: dt in dts ==> dt >= 0.0
    ensures Dealt(d, dts) <= MinInt(WholeTicks(d.tickAcc + Total(dts)), d.ticksLeft)
    decreases |dts|
  {
    if dts == [] {
      assert WholeTicks(d.tickAcc) >= 0;
    } else {
      assert dts[0] in dts && forall dt :: dt in dts[1..] ==> dt in dts;
      DealtIsEarned(Advanced(d, dts[0]), dts[1..]);
    }
  }

  /** While ticks are left, time is either dealt or in the accumulator. */
  lemma {:induction false} TimeAccounted(d: Dot, dts: seq<real>)
    requires d.tickAcc >= 0.0 && forall dt :: dt in dts ==> dt >= 0.0
    ensures AfterAll(d, dts).ticksLeft > 0 ==>
      && AfterAll(d, dts).tickAcc >= 0.0
      && AfterAll(d, dts).tickAcc + DOT_TICK_SECS * (Dealt(d, dts) as real) == d.tickAcc + Total(dts)
    decreases |dts|
  {
    if dts != [] {
      assert dts[0] in dts && forall dt :: dt in dts[1..] ==> dt in dts;
      TicksLeftCountDown(Advanced(d, dts[0]), dts[1..]);
      TimeAccounted(Advanced(d, dts[0]), dts[1..]);
    }
  }

  /**
   Over any sweeps, every tick earned is dealt exactly when all are dealt or less than one is
   left in the accumulator.
   */
  lemma KeepsUpIff(d: Dot, dts: seq<real>)
    requires d.tickAcc >= 0.0 && forall dt :: dt in dts ==> dt >= 0.0
    ensures Dealt(d, dts) == MinInt(WholeTicks(d.tickAcc + Total(dts)), d.ticksLeft)
      <==> AfterAll(d, dts).ticksLeft == 0 || AfterAll(d, dts).tickAcc < DOT_TICK_SECS
  {
    TimeAccounted(d, dts);
    DealtIsEarned(d, dts);
    TicksLeftCountDown(d, dts);
    var left, dealt := AfterAll(d, dts).tickAcc, Dealt(d, dts);
    if AfterAll(d, dts).ticksLeft > 0 {
      assert (d.tickAcc + Total(dts)) / DOT_TICK_SECS == left / DOT_TICK_SECS + dealt as real;
      assert WholeTicks(d.tickAcc + Total(dts)) == WholeTicks(left) + dealt;
    }
  }

  /** A fresh dot keeps up with one sweep exactly when the sweep is short of two ticks or the dot has no second one. */
  lemma OneSweepKeepsUpIff(d: Dot, dt: real)
    requires dt >= 0.0
    ensures Dealt(Landed(d), [dt]) == MinInt(WholeTicks(dt), Landed(d).ticksLeft)
      <==> dt < 2.0 * DOT_TICK_SECS || Landed(d).ticksLeft <= 1
  {
    assert [dt][1..] == [] && Dealt(Advanced(Landed(d), dt), []) == 0;
  }

  // ------------------------------------------------------------- the whole list

  /** The dots left after a sweep, and the ticks it dealt. */
  function Live(dots: seq<Dot>): (r: seq<Dot>)
    ensures forall d :: d in r <==> d in dots && d.ticksLeft > 0
  {
    if dots == [] then []
    else if dots[0].ticksLeft > 0 then [dots[0]] + Live(dots[1..])
    else Live(dots[1..])
  }

  function AdvancedAll(dots: seq<Dot>, dt: real): (r: seq<Dot>)
    ensures |r| == |dots|
    ensures forall i :: 0 <= i < |dots| ==> r[i] == Advanced(dots[i], dt)
  {
    if dots == [] then [] else [Advanced(dots[0], dt)] + AdvancedAll(dots[1..], dt)
  }

  function Swept(dots: seq<Dot>, dt: real): seq<Dot> {
    Live(AdvancedAll(dots, dt))
  }

  /** What one dot's turn in a sweep reports: nothing for a tick of no damage. */
  function Report(d: Dot, dt: real): seq<DotTick> {
    if Due(d, dt) && TickAmount(d.dps) > 0 then [TickOf(d)] else []
  }

  function TicksOf(dots: seq<Dot>, dt: real): seq<DotTick> {
    if dots == [] then [] else Report(dots[0], dt) + TicksOf(dots[1..], dt)
  }

  function Without(dots: seq<Dot>, name: string): (r: seq<Dot>)
    ensures forall d :: d in r <==> d in dots && d.name != name
  {
    if dots == [] then []
    else if dots[0].name == name then Without(dots[1..], name)
    else [dots[0]] + Without(dots[1..], name)
  }

  /** A cast lands beside the others, in place of an earlier one of its name. */
  function Applied(dots: seq<Dot>, d: Dot): seq<Dot> {
    Without(dots, d.name) + [Landed(d)]
  }

  predicate UniqueNames(dots: seq<Dot>) {
    forall i, j :: 0 <= i < j < |dots| ==> dots[i].name != dots[j].name
  }

  lemma {:induction false} WithoutOfConcat(s: seq<Dot>, x: Dot, name: string)
    ensures Without(s + [x], name) == Without(s, name) + (if x.name == name then [] else [x])
    decreases |s|
  {
    if s == [] {
      assert s + [x] == [x];
    } else {
      assert (s + [x])[0] == s[0] && (s + [x])[1..] == s[1..] + [x];
      WithoutOfConcat(s[1..], x, name);
    }
  }

  lemma {:induction false} LiveOfConcat(s: seq<Dot>, x: Dot)
    ensures Live(s + [x]) == Live(s) + (if x.ticksLeft > 0 then [x] else [])
    decreases |s|
  {
    if s == [] {
      assert s + [x] == [x];
    } else {
      assert (s + [x])[0] == s[0] && (s + [x])[1..] == s[1..] + [x];
      LiveOfConcat(s[1..], x);
    }
  }

  lemma {:induction false} WithoutUnique(dots: seq<Dot>, name: string)
    requires UniqueNames(dots)
    ensures UniqueNames(Without(dots, name))
  {
    if dots != [] {
      WithoutUnique(dots[1..], name);
      assert forall d :: d in dots[1..] ==> d.name != dots[0].name;
    }
  }

  lemma {:induction false} LiveUnique(dots: seq<Dot>)
    requires UniqueNames(dots)
    ensures UniqueNames(Live(dots))
  {
    if dots != [] {
      LiveUnique(dots[1..]);
      assert forall d :: d in dots[1..] ==> d.name != dots[0].name;
    }
  }

  /** A re-cast never leaves two of one name, and no sweep makes one. */
  lemma NamesStayUnique(dots: seq<Dot>, d: Dot, dt: real)
    requires UniqueNames(dots)
    ensures UniqueNames(Applied(dots, d)) && UniqueNames(Swept(dots, dt))
  {
    WithoutUnique(dots, d.name);
    LiveUnique(AdvancedAll(dots, dt));
  }

  // ------------------------------------------------- a cast among other casts

  datatype Event = Sweep(dt: real) | Cast(dot: Dot)

  function After(dots: seq<Dot>, e: Event): seq<Dot> {
    match e
    case Sweep(dt) => Swept(dots, dt)
    case Cast(d) => Applied(dots, d)
  }

  function Run(dots: seq<Dot>, es: seq<Event>): seq<Dot>
    decreases |es|
  {
    if es == [] then dots else Run(After(dots, es[0]), es[1..])
  }

  function Sweeps(es: seq<Event>): seq<real> {
    if es == [] then [] else (if es[0].Sweep? then [es[0].dt] else []) + Sweeps(es[1..])
  }

  predicate NeverCast(es: seq<Event>, name: string) {
    forall e :: e in es && e.Cast? ==> e.dot.name != name
  }

  function Under(ticks: seq<DotTick>, name: string): seq<DotTick> {
    if ticks == [] then [] else (if ticks[0].name == name then [ticks[0]] else []) + Under(ticks[1..], name)
  }

  /** The ticks a run reports under one name, in order. */
  function Reported(dots: seq<Dot>, es: seq<Event>, name: string): seq<DotTick>
    decreases |es|
  {
    if es == [] then []
    else
      (if es[0].Sweep? then Under(TicksOf(dots, es[0].dt), name) else [])
      + Reported(After(dots, es[0]), es[1..], name)
  }

  function Copies(tick: DotTick, n: nat): (r: seq<DotTick>)
    ensures |r| == n
  {
    if n == 0 then [] else [tick] + Copies(tick, n - 1)
  }

  function Damage(ticks: seq<DotTick>): int {
    if ticks == [] then 0 else ticks[0].amount + Damage(ticks[1..])
  }

  lemma {:induction false} UnderConcat(a: seq<DotTick>, b: seq<DotTick>, name: string)
    ensures Under(a + b, name) == Under(a, name) + Under(b, name)
  {
    if a == [] {
      assert a + b == b;
    } else {
      UnderConcat(a[1..], b, name);
      UnderHead(a, b, name);
      Sequences.Associates(if a[0].name == name then [a[0]] else [], Under(a[1..], name), Under(b, name));
    }
  }

  lemma UnderHead(a: seq<DotTick>, b: seq<DotTick>, name: string)
    requires a != []
    ensures Under(a + b, name) == (if a[0].name == name then [a[0]] else []) + Under(a[1..] + b, name)
  {
    assert (a + b)[0] == a[0] && (a + b)[1..] == a[1..] + b;
  }

  lemma ReportUnder(d: Dot, dt: real, name: string)
    ensures Under(Report(d, dt), name) == if d.name == name then Report(d, dt) else []
  {
    assert |Report(d, dt)| == 1 ==> Report(d, dt)[1..] == [];
  }

  lemma {:induction false} AbsentDealsNothing(dots: seq<Dot>, dt: real, name: string)
    requires forall d :: d in dots ==> d.name != name
    ensures Under(TicksOf(dots, dt), name) == []
  {
    if dots != [] {
      assert dots[0] in dots && forall d :: d in dots[1..] ==> d in dots;
      AbsentDealsNothing(dots[1..], dt, name);
      UnderConcat(Report(dots[0], dt), TicksOf(dots[1..], dt), name);
      ReportUnder(dots[0], dt, name);
    }
  }

  lemma AbsentStaysAway(dots: seq<Dot>, dt: real, name: string)
    requires forall d :: d in dots ==> d.name != name
    ensures forall d :: d in Swept(dots, dt) ==> d.name != name
  {
    forall d | d in Swept(dots, dt)
      ensures d.name != name
    {
      var i :| 0 <= i < |dots| && Advanced(dots[i], dt) == d;
    }
  }

  lemma {:induction false} AbsentStaysSilent(dots: seq<Dot>, es: seq<Event>, name: string)
    requires NeverCast(es, name) && forall d :: d in dots ==> d.name != name
    ensures Reported(dots, es, name) == [] && forall d :: d in Run(dots, es) ==> d.name != name
    decreases |es|
  {
    if es != [] {
      assert es[0] in es && forall e :: e in es[1..] ==> e in es;
      if es[0].Sweep? {
        AbsentDealsNothing(dots, es[0].dt, name);
        AbsentStaysAway(dots, es[0].dt, name);
      }
      AbsentStaysSilent(After(dots, es[0]), es[1..], name);
    }
  }

  /** In a sweep of the list what is reported under each name is its own dot's. */
  lemma {:induction false} SweepTicksOwnDot(dots: seq<Dot>, dt: real, i: nat)
    requires UniqueNames(dots) && i < |dots|
    ensures Under(TicksOf(dots, dt), dots[i].name) == Report(dots[i], dt)
  {
    UnderConcat(Report(dots[0], dt), TicksOf(dots[1..], dt), dots[i].name);
    ReportUnder(dots[0], dt, dots[i].name);
    if i == 0 {
      assert forall d :: d in dots[1..] ==> d.name != dots[0].name;
      AbsentDealsNothing(dots[1..], dt, dots[0].name);
    } else {
      SweepTicksOwnDot(dots[1..], dt, i - 1);
    }
  }

  /** One sweep leaves a dot of the list as it would be alone, or none of its name. */
  lemma SweepKeepsOwnDot(dots: seq<Dot>, dt: real, i: nat)
    requires UniqueNames(dots) && i < |dots|
    ensures UniqueNames(Swept(dots, dt))
    ensures
      var d := Advanced(dots[i], dt);
      if d.ticksLeft > 0 then d in Swept(dots, dt) else forall x :: x in Swept(dots, dt) ==> x.name != d.name
  {
    var next := AdvancedAll(dots, dt);
    assert next[i] in next;
    LiveUnique(next);
    if next[i].ticksLeft == 0 {
      forall x | x in Swept(dots, dt)
        ensures x.name != next[i].name
      {
        var j :| 0 <= j < |next| && next[j] == x;
        assert j != i;
      }
    }
  }

  /** What one sweep does for one dot of the list: its own report, and the rest of its life or the end of it. */
  lemma SweepOfOne(dots: seq<Dot>, d: Dot, dt: real)
    requires UniqueNames(dots) && d in dots
    ensures Under(TicksOf(dots, dt), d.name) == Report(d, dt) && UniqueNames(Swept(dots, dt))
    ensures if Advanced(d, dt).ticksLeft > 0 then Advanced(d, dt) in Swept(dots, dt)
            else forall x :: x in Swept(dots, dt) ==> x.name != d.name
  {
    var i :| 0 <= i < |dots| && dots[i] == d;
    SweepTicksOwnDot(dots, dt, i);
    SweepKeepsOwnDot(dots, dt, i);
  }

  lemma CastBeside(dots: seq<Dot>, c: Dot, d: Dot)
    requires UniqueNames(dots) && d in dots && c.name != d.name
    ensures UniqueNames(Applied(dots, c)) && d in Applied(dots, c)
  {
    WithoutUnique(dots, c.name);
    assert d in Without(dots, c.name);
  }

  /** How often a dot alone reports its tick over a run of sweeps: never, when the tick does no damage. */
  function Reports(d: Dot, dts: seq<real>): nat {
    if TickAmount(d.dps) > 0 then Dealt(d, dts) else 0
  }

  lemma ReportsFirst(d: Dot, dt: real, rest: seq<real>)
    ensures Copies(TickOf(d), Reports(d, [dt] + rest)) ==
      Report(d, dt) + Copies(TickOf(d), Reports(Advanced(d, dt), rest))
  {
    assert ([dt] + rest)[1..] == rest;
  }

  /** What a dot of the list reports is what it would alone, whatever is cast beside it. */
  lemma {:induction false} DotReportsAlone(dots: seq<Dot>, d: Dot, es: seq<Event>)
    requires UniqueNames(dots) && d in dots && NeverCast(es, d.name)
    ensures Reported(dots, es, d.name) == Copies(TickOf(d), Reports(d, Sweeps(es)))
    decreases |es|
  {
    if es != [] {
      var e, rest := es[0], es[1..];
      assert e in es && forall x :: x in rest ==> x in es;
      if e.Cast? {
        CastBeside(dots, e.dot, d);
        assert Sweeps(es) == Sweeps(rest);
        DotReportsAlone(After(dots, e), d, rest);
      } else {
        var next := Advanced(d, e.dt);
        SweepOfOne(dots, d, e.dt);
        ReportsFirst(d, e.dt, Sweeps(rest));
        if next.ticksLeft > 0 {
          DotReportsAlone(Swept(dots, e.dt), next, rest);
        } else {
          AbsentStaysSilent(Swept(dots, e.dt), rest, d.name);
          NoneLeftNoneDealt(next, Sweeps(rest));
        }
      }
    }
  }

  predicate Holds(dots: seq<Dot>, name: string) {
    exists x :: x in dots && x.name == name
  }

  /** And it is there exactly as long as it would have ticks left. */
  lemma {:induction false} DotStaysAlone(dots: seq<Dot>, d: Dot, es: seq<Event>)
    requires UniqueNames(dots) && d in dots && NeverCast(es, d.name) && d.ticksLeft > 0
    ensures Holds(Run(dots, es), d.name) <==> AfterAll(d, Sweeps(es)).ticksLeft > 0
    decreases |es|
  {
    if es != [] {
      var e, rest := es[0], es[1..];
      assert e in es && forall x :: x in rest ==> x in es;
      if e.Cast? {
        CastBeside(dots, e.dot, d);
        assert Sweeps(es) == Sweeps(rest);
        DotStaysAlone(After(dots, e), d, rest);
      } else {
        var next := Advanced(d, e.dt);
        SweepOfOne(dots, d, e.dt);
        assert Sweeps(es)[1..] == Sweeps(rest);
        if next.ticksLeft > 0 {
          DotStaysAlone(Swept(dots, e.dt), next, rest);
        } else {
          AbsentStaysSilent(Swept(dots, e.dt), rest, d.name);
          TicksLeftCountDown(next, Sweeps(rest));
        }
      }
    }
  }

  lemma {:induction false} CopiesDealAlike(tick: DotTick, n: nat)
    ensures Damage(Copies(tick, n)) == n * tick.amount
  {
    if n > 0 {
      CopiesDealAlike(tick, n - 1);
    }
  }

  lemma LandedIsThere(dots: seq<Dot>, d: Dot)
    requires UniqueNames(dots)
    ensures UniqueNames(Applied(dots, d)) && Landed(d) in Applied(dots, d)
  {
    WithoutUnique(dots, d.name);
    assert Applied(dots, d)[|Without(dots, d.name)|] == Landed(d);
  }

  /** The whole ticks a cast deals in some time: no more than its duration holds. */
  function TicksBy(d: Dot, time: real): int {
    MinInt(WholeTicks(time), TicksIn(d.remaining))
  }

  /**
   A dot cast once, beside whatever other casts: after sweeps of total time `T`, none
   longer than a tick, it has dealt the smaller of the whole ticks in `T` and the whole
   ticks in its duration, every one of them its own tick of its own amount.
   */
  lemma CastDealsItsTicks(dots: seq<Dot>, d: Dot, es: seq<Event>)
    requires UniqueNames(dots) && NeverCast(es, d.name) && NoLongerThanATick(Sweeps(es))
    ensures TicksBy(d, Total(Sweeps(es))) >= 0
    ensures Damage(Reported(Applied(dots, d), es, d.name)) == TicksBy(d, Total(Sweeps(es))) * TickAmount(d.dps)
    ensures TickAmount(d.dps) > 0 ==>
      Reported(Applied(dots, d), es, d.name) == Copies(TickOf(d), TicksBy(d, Total(Sweeps(es))))
  {
    LandedIsThere(dots, d);
    LandedTicks(d, Sweeps(es));
    DotReportsAlone(Applied(dots, d), Landed(d), es);
    DamageOfReports(TickOf(d), Dealt(Landed(d), Sweeps(es)), TickAmount(d.dps));
  }

  /** And it is gone exactly when the ticks of its duration are all dealt. */
  lemma CastEndsWithItsTicks(dots: seq<Dot>, d: Dot, es: seq<Event>)
    requires UniqueNames(dots) && NeverCast(es, d.name) && NoLongerThanATick(Sweeps(es)) && TicksIn(d.remaining) > 0
    ensures Holds(Run(Applied(dots, d), es), d.name) <==> TicksBy(d, Total(Sweeps(es))) < TicksIn(d.remaining)
  {
    LandedIsThere(dots, d);
    LandedTicks(d, Sweeps(es));
    DotStaysAlone(Applied(dots, d), Landed(d), es);
  }

  lemma LandedTicks(d: Dot, dts: seq<real>)
    requires NoLongerThanATick(dts)
    ensures Dealt(Landed(d), dts) == TicksBy(d, Total(dts))
    ensures AfterAll(Landed(d), dts).ticksLeft == TicksIn(d.remaining) - TicksBy(d, Total(dts))
  {
    DealtOverTime(Landed(d), dts);
    TicksLeftCountDown(Landed(d), dts);
  }

  lemma DamageOfReports(tick: DotTick, n: nat, amount: nat)
    requires tick.amount == amount
    ensures Damage(Copies(tick, if amount > 0 then n else 0)) == n * amount
  {
    CopiesDealAlike(tick, n);
  }
}
