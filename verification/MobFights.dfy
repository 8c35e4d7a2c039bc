/**
 Whom a mob fights: pulls that hold and pulls that cannot, attackers answered from
 range, and blows no faster than its attack interval.
 */
module MobFights {
  import opened Options
  import opened Reals
  import opened Geometry
  import opened Walk
  import opened Mob
  import opened MobRuns
  import Dots

  // -------------------------------------------------------- pulls that hold

  predicate DistinctIds(targets: Targets) {
    forall i, j :: 0 <= i < j < |targets| ==> targets[i].0 != targets[j].0
  }

  lemma {:induction false} PosOfIndex(targets: Targets, i: nat)
    requires DistinctIds(targets) && i < |targets|
    ensures TargetPos(targets, targets[i].0) == Some(targets[i].1)
  {
    if i > 0 {
      PosOfIndex(targets[1..], i - 1);
    }
  }

  /** A mob at rest has nobody to hate, so it moves off only for one it notices. */
  lemma PulledBySight(m: Mob, m1: Mob, w: World, x: Senses)
    requires AtRest(m) && IdleStep(m, m1, w, x.targets, x.hidden, x.now) && m1.state.Chase? && DistinctIds(x.targets)
    ensures m1.target.Some? && TargetPos(x.targets, m1.target.value).Some?
    ensures Dist(w, m.pos, TargetPos(x.targets, m1.target.value).value) <= m.template.aggro
    ensures m1 == Transition(m.(target := m1.target), Chase, x.now)
  {
    assert forall id :: !IsHater(m, w, x.targets, id);
    var i: nat :| IsNearest(m, w, x.targets, x.hidden, i)
      && m1 == Transition(m.(target := Some(x.targets[i].0)), Chase, x.now);
    PosOfIndex(x.targets, i);
  }

  lemma FreshClockHasNotRunOut(w: World, pos: Vec3, goal: Option<EntityId>, dest: Vec3, step: real, now: real)
    ensures !RanOut(Approach(w, Walker(pos, None), goal, dest, step, now).stuck, now)
  {
  }

  /** The first tick of a chase with nobody on the threat table: home exactly when the target is past the leash. */
  lemma FirstChaseTick(m1: Mob, m2: Mob, w: World, x: Senses)
    requires m1.state.Chase? && m1.threat == map[] && m1.stuck == None
    requires ChaseStep(m1, m2, w, x.targets, x.dt, x.now)
    requires m1.target.Some? && TargetPos(x.targets, m1.target.value).Some?
    ensures m2.state.Leash? <==> Dist(w, m1.pos, TargetPos(x.targets, m1.target.value).value) > LeashRange(m1.template)
  {
    var rival: Option<EntityId>, hater: Option<EntityId> :| ChaseBy(m1, m2, w, x.targets, x.dt, x.now, rival, hater);
    assert rival == None && Switched(m1, rival) == m1;
    var at := TargetPos(x.targets, m1.target.value).value;
    var step := SnaredStrideOf(m1.template, m1.enrage, m1.cc, x.dt);
    FreshClockHasNotRunOut(w, m1.pos, m1.target, at, step, x.now);
  }

  /**
   A mob at rest that notices someone, and a next tick that finds them where they
   stood: it turns straight back for home exactly when they stand past its leash.
   */
  lemma PullHoldsIff(m: Mob, m1: Mob, m2: Mob, h1: Option<Hit>, h2: Option<Hit>, w: World, x1: Senses, x2: Senses)
    requires AtRest(m) && !Frozen(m.cc) && DistinctIds(x1.targets) && x2.targets == x1.targets
    requires AiStep(m, m1, h1, w, x1) && m1.state.Chase? && AiStep(m1, m2, h2, w, x2)
    ensures m1.target.Some? && TargetPos(x1.targets, m1.target.value).Some?
    ensures m2.state.Leash? <==> Dist(w, m.pos, TargetPos(x1.targets, m1.target.value).value) > LeashRange(m.template)
  {
    TickCcOnlyRemoves(m.cc, x1.dt);
    var c := m.(cc := TickCc(m.cc, x1.dt));
    PulledBySight(c, m1, w, x1);
    TickCcOnlyRemoves(m1.cc, x2.dt);
    FirstChaseTick(m1.(cc := TickCc(m1.cc, x2.dt)), m2, w, x2);
  }

  predicate Noticeable(t: Template, d: real) {
    0.0 <= d <= t.aggro
  }

  /** The leash reaches as far as the mob notices: the templates whose pulls always hold. */
  predicate LeashCoversAggro(t: Template) {
    t.aggro < 0.0 || t.leash.None? || t.leash.value >= t.aggro || 0.0 < t.aggro <= MIN_LEASH_RANGE
  }

  /** Nobody a mob notices stands past its leash, exactly when its leash covers its aggro radius. */
  lemma NoticedWithinLeashIff(t: Template)
    ensures (forall d :: Noticeable(t, d) ==> d <= LeashRange(t)) <==> LeashCoversAggro(t)
  {
    if t.aggro >= 0.0 {
      assert Noticeable(t, t.aggro);
    }
  }

  lemma FortyMetres(w: World)
    requires IsRoot(w.root)
    ensures Dist(w, Vec3(0.0, 0.0, 0.0), Vec3(40.0, 0.0, 0.0)) == 40.0
  {
    assert Square(0.0 - 40.0) == Square(40.0) && Square(0.0) == 0.0;
    RootOfSquare(w, 40.0);
  }

  /**
   A camp that gives its mob a leash short of its aggro radius: someone at 40 m pulls a
   mob at rest, and the tick after sends it home.
   */
  lemma ShortLeashFlaps(m: Mob, m1: Mob, m2: Mob, h1: Option<Hit>, h2: Option<Hit>, w: World, x1: Senses, x2: Senses)
    requires AtRest(m) && m.cc == [] && IsRoot(w.root) && m.pos == Vec3(0.0, 0.0, 0.0)
    requires m.template.aggro == 50.0 && m.template.leash == Some(36.0)
    requires x1.targets == [(1, Vec3(40.0, 0.0, 0.0))] && x1.hidden == {} && x2.targets == x1.targets
    requires w.canSee(m.pos, Vec3(40.0, 0.0, 0.0))
    requires AiStep(m, m1, h1, w, x1) && AiStep(m1, m2, h2, w, x2)
    ensures !LeashCoversAggro(m.template) && m1.state.Chase? && m1.target == Some(1) && m2.state.Leash?
  {
    FortyMetres(w);
    assert TickCc(m.cc, x1.dt) == [] && m.(cc := []) == m;
    assert Notices(m, w, x1.hidden, x1.targets[0]);
    PullHoldsIff(m, m1, m2, h1, h2, w, x1, x2);
  }

  // ------------------------------------------------- whom it moves for

  /** Within its aggro radius, in plain sight, and not hidden from it. */
  predicate InView(m: Mob, w: World, x: Senses, i: nat)
    requires i < |x.targets|
  {
    && x.targets[i].0 !in x.hidden
    && Dist(w, m.pos, x.targets[i].1) <= m.template.aggro && w.canSee(m.pos, x.targets[i].1)
  }

  /** Of those in view, none is nearer, and none earlier in the list as near. */
  predicate NearestInView(m: Mob, w: World, x: Senses, i: nat)
    requires i < |x.targets|
  {
    InView(m, w, x, i) && forall j :: 0 <= j < |x.targets| && InView(m, w, x, j) ==>
      && Dist(w, m.pos, x.targets[i].1) <= Dist(w, m.pos, x.targets[j].1)
      && (j < i ==> Dist(w, m.pos, x.targets[i].1) < Dist(w, m.pos, x.targets[j].1))
  }

  /**
   A free idle mob stays exactly as it is when nobody is in view and no hater stands within its
   leash, and otherwise gives chase: to the nearest in view, the first of equals, if anyone is,
   and else to the hater it hates most.
   */
  lemma IdleMovesIff(m: Mob, m': Mob, hit: Option<Hit>, w: World, x: Senses)
    requires m.state.Idle? && AiStep(m, m', hit, w, x) && !Frozen(TickCc(m.cc, x.dt))
    ensures hit == None
    ensures
      var c, seen := m.(cc := TickCc(m.cc, x.dt)), exists i :: 0 <= i < |x.targets| && InView(m, w, x, i);
      && (!seen && (forall id :: !IsHater(m, w, x.targets, id)) ==> m' == c)
      && (seen || (exists id :: IsHater(m, w, x.targets, id)) ==>
            m'.state.Chase? && m'.target.Some? && m'.pos == m.pos && m'.threat == m.threat)
      && (seen ==> exists i :: 0 <= i < |x.targets| && NearestInView(m, w, x, i) && m'.target == Some(x.targets[i].0))
      && (!seen && m'.state.Chase? ==>
            IsHater(m, w, x.targets, m'.target.value)
            && forall id :: IsHater(m, w, x.targets, id) ==> m.threat[id] <= m.threat[m'.target.value])
  {
    var c := m.(cc := TickCc(m.cc, x.dt));
    assert forall j :: 0 <= j < |x.targets| ==> (Notices(c, w, x.hidden, x.targets[j]) <==> InView(m, w, x, j));
    assert forall id :: IsHater(c, w, x.targets, id) == IsHater(m, w, x.targets, id);
    if i: nat :| IsNearest(c, w, x.targets, x.hidden, i)
                 && m' == Transition(c.(target := Some(x.targets[i].0)), Chase, x.now) {
      assert NearestInView(m, w, x, i);
    }
  }

  // ------------------------------------------------- attackers answered

  lemma HaterIsAnswered(c: Mob, m2: Mob, w: World, x: Senses, id: EntityId)
    requires c.state.Idle? && IdleStep(c, m2, w, x.targets, x.hidden, x.now) && IsHater(c, w, x.targets, id)
    ensures m2.state.Chase? && m2.target.Some? && m2.threat == c.threat
    ensures NoticesNobody(c, w, x.targets, x.hidden) ==> ThreatOf(c, m2.target.value) >= ThreatOf(c, id) > 0.0
  {
  }

  /**
   Whether the event is `who` doing the mob harm, or trying to: a swing, a spell, a pet's
   swing or a tick of their dots.
   */
  predicate Strikes(m: Mob, e: Event, who: EntityId) {
    match e
    case Swing(attacker, amount, missed, _) => attacker == who && (missed || amount > 0)
    case Spell(caster, dmg, _) => caster == who && dmg > 0
    case PetSwing(pet, _, amount, _) => pet == who && amount > 0
    case Sweep(dt, _) => exists tick :: tick in DotTicks(m, dt) && tick.caster == who
    case _ => false
  }

  lemma {:induction false} BurnedHates(m: Mob, ticks: seq<Dots.DotTick>, who: EntityId)
    requires ThreatOf(m, who) >= 0.0 && (forall t :: t in ticks ==> t.amount > 0)
    requires Burned(m, ticks).vitals.hp > 0.0
    ensures ThreatOf(Burned(m, ticks), who) >= ThreatOf(m, who)
    ensures (exists t :: t in ticks && t.caster == who) ==> ThreatOf(Burned(m, ticks), who) > 0.0
    decreases |ticks|
  {
    if ticks != [] {
      var hurt := Wounded(m, ticks[0].caster, ticks[0].amount as real, ticks[0].amount as real);
      assert ticks[0] in ticks && forall t :: t in ticks[1..] ==> t in ticks;
      BurnedHates(hurt, ticks[1..], who);
    }
  }

  lemma SweepIsHated(m: Mob, dt: real, at: real, who: EntityId)
    requires Settled(m) && m.state.Idle? && ThreatOf(m, who) >= 0.0 && !Smouldered(m, dt, at).state.Dead?
    requires exists tick :: tick in DotTicks(m, dt) && tick.caster == who
    ensures ThreatOf(Smouldered(m, dt, at), who) > 0.0
  {
    TicksDealSome(m.dots, dt);
    BurnedHates(TickDots(m, dt), DotTicks(m, dt), who);
  }

  /** Whoever strikes an idle mob that lives is hated for it. */
  lemma StrikeIsHated(m: Mob, e: Event, m1: Mob, w: World, who: EntityId)
    requires Settled(m) && m.state.Idle? && ThreatOf(m, who) >= 0.0
    requires Next(m, e, m1, w) && Strikes(m, e, who) && !m1.state.Dead?
    ensures m1.state.Idle? && m1.pos == m.pos && m1.template == m.template && ThreatOf(m1, who) > 0.0
  {
    if e.Sweep? {
      SweepIsHated(m, e.dt, e.at, who);
      BurnedWalksOn(TickDots(m, e.dt), DotTicks(m, e.dt));
    }
  }

  /**
   An idle mob that aggros at all answers whoever strikes it from within spell reach,
   seen or not, by hand, spell, pet or dot: its next free tick it is chasing, and if it
   noticed nobody it chases the one it hates most, with no less hate than for the striker.
   */
  lemma AttackIsAnswered(m: Mob, e: Event, m1: Mob, m2: Mob, hit: Option<Hit>, w: World, x: Senses, who: EntityId)
    requires Settled(m) && m.state.Idle? && m.template.aggro > 0.0 && ThreatOf(m, who) >= 0.0
    requires Next(m, e, m1, w) && Strikes(m, e, who) && !m1.state.Dead?
    requires AiStep(m1, m2, hit, w, x) && !Frozen(TickCc(m1.cc, x.dt))
    requires TargetPos(x.targets, who).Some? && Dist(w, m.pos, TargetPos(x.targets, who).value) <= MIN_LEASH_RANGE
    ensures m2.state.Chase? && m2.target.Some?
    ensures NoticesNobody(m1, w, x.targets, x.hidden) ==>
      ThreatOf(m2, m2.target.value) >= ThreatOf(m1, who) > 0.0
  {
    StrikeIsHated(m, e, m1, w, who);
    HaterIsAnswered(m1.(cc := TickCc(m1.cc, x.dt)), m2, w, x, who);
  }

  // ----------------------------------------------------------- its own blows

  function Interval(t: Template): real {
    if t.attackInterval.Some? then t.attackInterval.value else 2.5
  }

  /** A blow is struck only from a fight, at a present target in reach, for one point at least. */
  lemma BlowsLandInReach(m: Mob, m': Mob, hit: Option<Hit>, w: World, x: Senses)
    requires AiStep(m, m', hit, w, x)
    ensures hit.Some? ==>
      && m.state.Attack? && m'.state.Attack? && m'.target == Some(hit.value.target) && hit.value.amount >= 1
      && TargetPos(x.targets, hit.value.target).Some?
      && Dist(w, m.pos, TargetPos(x.targets, hit.value.target).value) <= MeleeRange(m.template) * ATTACK_RANGE_SLACK
      && m'.lastAttackAt == Some(x.now)
    ensures hit.None? ==> m'.lastAttackAt == m.lastAttackAt
  {
    var c := m.(cc := TickCc(m.cc, x.dt));
    if !Frozen(c.cc) {
      match m.state
      case Attack => AttackBlows(c, m', hit, w, x);
      case Chase => ChaseStrikesNobody(c, m', w, x);
      case _ =>
    }
  }

  lemma AttackBlows(m: Mob, m': Mob, hit: Option<Hit>, w: World, x: Senses)
    requires m.state.Attack? && AttackStep(m, m', hit, w, x.targets, x.now)
    ensures hit.Some? ==>
      && m'.state.Attack? && m'.target == Some(hit.value.target) && hit.value.amount >= 1
      && TargetPos(x.targets, hit.value.target).Some?
      && Dist(w, m.pos, TargetPos(x.targets, hit.value.target).value) <= MeleeRange(m.template) * ATTACK_RANGE_SLACK
      && m'.lastAttackAt == Some(x.now) && (m.lastAttackAt.Some? ==> Elapsed(x.now, m.lastAttackAt.value) >= Pause(m))
    ensures hit.None? ==> m'.lastAttackAt == m.lastAttackAt
  {
    var rival: Option<EntityId>, hater: Option<EntityId> :| AttackBy(m, m', hit, w, x.targets, x.now, rival, hater);
    var s := Switched(m, rival);
    AttackCaseBlows(s, AttackCaseOf(s, w, x.targets, x.now), m', hit, w, x, hater, SwingDamage(s));
  }

  lemma AttackCaseBlows(s: Mob, c: AttackCase, m': Mob, hit: Option<Hit>, w: World, x: Senses,
      hater: Option<EntityId>, amount: int)
    requires s.state.Attack? && amount >= 1 && c == AttackCaseOf(s, w, x.targets, x.now)
    requires AttackDoes(s, c, m', hit, w, x.targets, x.now, hater, amount)
    ensures hit.Some? ==>
      && m'.state.Attack? && m'.target == Some(hit.value.target) && hit.value.amount >= 1
      && TargetPos(x.targets, hit.value.target).Some?
      && Dist(w, s.pos, TargetPos(x.targets, hit.value.target).value) <= MeleeRange(s.template) * ATTACK_RANGE_SLACK
      && m'.lastAttackAt == Some(x.now) && SwingDue(s, x.now)
    ensures hit.None? ==> m'.lastAttackAt == s.lastAttackAt
  {
  }

  lemma ChaseStrikesNobody(m: Mob, m': Mob, w: World, x: Senses)
    requires m.state.Chase? && ChaseStep(m, m', w, x.targets, x.dt, x.now)
    ensures m'.lastAttackAt == m.lastAttackAt
  {
    var rival: Option<EntityId>, hater: Option<EntityId> :| ChaseBy(m, m', w, x.targets, x.dt, x.now, rival, hater);
    var s := Switched(m, rival);
    ChaseCaseStrikesNobody(s, ChaseCaseOf(s, w, x.targets, x.dt, x.now), m', w, x, hater);
  }

  lemma ChaseCaseStrikesNobody(s: Mob, c: ChaseCase, m': Mob, w: World, x: Senses, hater: Option<EntityId>)
    requires ChaseDoes(s, c, m', w, x.targets, x.now, hater)
    ensures m'.lastAttackAt == s.lastAttackAt
  {
  }

  function Blows(run: seq<Link>): nat {
    if run == [] then 0 else (if run[0].e.Ai? && run[0].e.hit.Some? then 1 else 0) + Blows(run[1..])
  }

  predicate InOrder(run: seq<Link>, t: real) {
    run == [] || if run[0].e.Ai? then run[0].e.x.now >= t && InOrder(run[1..], run[0].e.x.now) else InOrder(run[1..], t)
  }

  /** The time of a run's last AI tick, or `t` if it has none. */
  function LastTick(run: seq<Link>, t: real): real {
    if run == [] then t else LastTick(run[1..], if run[0].e.Ai? then run[0].e.x.now else t)
  }

  lemma PauseCoversInterval(m: Mob)
    requires m.buffs == [] && Interval(m.template) >= 0.0
    ensures Pause(m) >= Interval(m.template)
  {
    ScaleMono(Interval(m.template), 1.0, 1.0 + SlowPct(m.cc) as real / 100.0);
  }

  /** A tick strikes only once the interval since the last blow is over, and otherwise leaves that blow the last. */
  lemma TickKeepsPace(m: Mob, m': Mob, hit: Option<Hit>, w: World, x: Senses)
    requires AiStep(m, m', hit, w, x) && m.buffs == [] && Interval(m.template) >= 0.0
    requires m.lastAttackAt.Some? && m.lastAttackAt.value <= x.now
    ensures m'.lastAttackAt == if hit.Some? then Some(x.now) else m.lastAttackAt
    ensures hit.Some? ==> x.now - m.lastAttackAt.value >= Interval(m.template)
  {
    var c := m.(cc := TickCc(m.cc, x.dt));
    BlowsLandInReach(m, m', hit, w, x);
    if hit.Some? {
      AttackBlows(c, m', hit, w, x);
      PauseCoversInterval(c);
    }
  }

  lemma OthersStrikeNobody(m: Mob, e: Event, m': Mob, w: World)
    requires Next(m, e, m', w) && !e.Ai?
    ensures m'.lastAttackAt == m.lastAttackAt
  {
    match e
    case Sweep(dt, at) =>
      if !m.state.Dead? {
        BurnedWalksOn(TickDots(m, dt), DotTicks(m, dt));
      }
    case _ =>
  }

  /** The time `n` blows take at an interval apiece. */
  function TimeFor(n: nat, interval: real): real {
    n as real * interval
  }

  lemma OneMore(n: nat, interval: real)
    ensures TimeFor(1 + n, interval) == interval + TimeFor(n, interval) && TimeFor(0, interval) == 0.0
  {
  }

  predicate Unhasted(m: Mob, since: real, interval: real) {
    m.buffs == [] && Interval(m.template) == interval && m.lastAttackAt == Some(since)
  }

  lemma EventKeepsPace(m: Mob, e: Event, m': Mob, w: World, since: real, t: real, interval: real) returns (next: real)
    requires Settled(m) && Unhasted(m, since, interval) && interval >= 0.0 && since <= t && Next(m, e, m', w)
    requires e.Ai? ==> e.x.now >= t
    ensures Settled(m') && Unhasted(m', next, interval)
    ensures if e.Ai? && e.hit.Some? then next == e.x.now && next - since >= interval else next == since
  {
    EventKeeps(m, e, m', w);
    if e.Ai? {
      TickKeepsPace(m, m', e.hit, w, e.x);
      next := if e.hit.Some? then e.x.now else since;
    } else {
      OthersStrikeNobody(m, e, m', w);
      next := since;
    }
  }

  /** Over any run, an unhasted mob's blows after its last one take at least an interval each. */
  lemma {:induction false} BlowsKeepPace(m: Mob, run: seq<Link>, w: World, since: real, t: real, interval: real)
    requires Settled(m) && Unhasted(m, since, interval) && interval >= 0.0 && since <= t
    requires Run(m, run, w) && InOrder(run, t)
    ensures TimeFor(Blows(run), interval) <= LastTick(run, t) - since
    decreases |run|
  {
    OneMore(if run == [] then 0 else Blows(run[1..]), interval);
    if run != [] {
      var next := EventKeepsPace(m, run[0].e, run[0].after, w, since, t, interval);
      BlowsKeepPace(run[0].after, run[1..], w, next, if run[0].e.Ai? then run[0].e.x.now else t, interval);
    }
  }
}
