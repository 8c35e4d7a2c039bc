/**
 A mob's whole life: AI ticks interleaved in any order with everything else the
 world does to it. What no run can break, and the walk home that always ends.
 */
module MobRuns {
  import opened Options
  import opened Reals
  import opened Geometry
  import opened Walk
  import opened Mob
  import Dots

  const EVADE_GRACE_SECS: real := 1.0
  const EVADE_REFUSAL_RECENT_SECS: real := 0.5

  // ------------------------------------------------- what the world does to it

  /** `is_evading` for a mob of the world: walking home, or held below a face just now. */
  predicate Evading(m: Mob, now: real) {
    m.state.Leash? ||
    (m.state.Chase? && m.stuck.Some?
     && Elapsed(now, m.stuck.value.since) >= EVADE_GRACE_SECS
     && Elapsed(now, m.stuck.value.lastRefused) <= EVADE_REFUSAL_RECENT_SECS)
  }

  function Less(hp: real, amount: real): real {
    if hp - amount >= 0.0 then hp - amount else 0.0
  }

  function Gained(hate: map<EntityId, real>, id: EntityId, amount: real): map<EntityId, real> {
    hate[id := (if id in hate then hate[id] else 0.0) + amount]
  }

  /** Damage with its hate; nothing here asks whether the mob evades. */
  function Wounded(m: Mob, attacker: EntityId, amount: real, hate: real): Mob {
    m.(vitals := m.vitals.(hp := Less(m.vitals.hp, amount)),
       aggro := Gained(m.aggro, attacker, hate), threat := Gained(m.threat, attacker, hate))
  }

  function FallenIfSpent(m: Mob, now: real): Mob {
    if m.vitals.hp <= 0.0 then Transition(m, Dead, now) else m
  }

  /** A player's swing: a miss deals nothing but a point of hate. */
  function Struck(m: Mob, attacker: EntityId, amount: nat, missed: bool, now: real): Mob {
    if m.state.Dead? || Evading(m, now) then m
    else if missed then Wounded(m, attacker, 0.0, 1.0)
    else FallenIfSpent(Wounded(m, attacker, amount as real, amount as real), now)
  }

  /** A spell's direct damage, refused beforehand on a mob that evades; it breaks mez. */
  function Scorched(m: Mob, caster: EntityId, dmg: nat, now: real): Mob {
    if m.state.Dead? || Evading(m, now) then m
    else
      var hurt := Wounded(m, caster, dmg as real, dmg as real);
      if hurt.vitals.hp <= 0.0 then Transition(hurt, Dead, now)
      else if dmg > 0 then hurt.(cc := CcWithout(hurt.cc, Mez)) else hurt
  }

  function Credited(hate: map<EntityId, real>, who: Option<EntityId>, amount: real): map<EntityId, real> {
    if who.Some? then Gained(hate, who.value, amount) else hate
  }

  /** A pet's swing: the damage is its owner's, the threat its own, and it breaks mez. */
  function PetStruck(m: Mob, pet: EntityId, owner: Option<EntityId>, amount: nat, now: real): Mob {
    if m.state.Dead? || Evading(m, now) then m
    else
      var hurt := m.(vitals := m.vitals.(hp := Less(m.vitals.hp, amount as real)),
                     aggro := Credited(m.aggro, owner, amount as real),
                     threat := Gained(m.threat, pet, amount as real));
      var fallen := FallenIfSpent(hurt, now);
      if amount > 0 then fallen.(cc := CcWithout(fallen.cc, Mez)) else fallen
  }

  /** A damage shield's reflection of the mob's own blow; nobody asks whether it evades. */
  function Reflected(m: Mob, defender: Option<EntityId>, dmg: nat, now: real): Mob {
    if m.state.Dead? then m
    else
      FallenIfSpent(m.(vitals := m.vitals.(hp := Less(m.vitals.hp, dmg as real)),
                       aggro := Credited(m.aggro, defender, dmg as real),
                       threat := Credited(m.threat, defender, dmg as real)), now)
  }

  /** The ticks of a sweep, one by one until one kills. */
  function Burned(m: Mob, ticks: seq<Dots.DotTick>): Mob
    decreases |ticks|
  {
    if ticks == [] then m
    else
      var hurt := Wounded(m, ticks[0].caster, ticks[0].amount as real, ticks[0].amount as real);
      if hurt.vitals.hp <= 0.0 then hurt else Burned(hurt, ticks[1..])
  }

  /** The sweep's part before the AI: dots tick, and deal nothing to a mob that evades. */
  function Smouldered(m: Mob, dt: real, now: real): Mob {
    if m.state.Dead? then m
    else
      var ticked := TickDots(m, dt);
      FallenIfSpent(if Evading(m, now) then ticked else Burned(ticked, DotTicks(m, dt)), now)
  }

  /** Hate wiped for a player who died or left; `clear_dots_from` included. */
  function Wiped(m: Mob, player: EntityId): Mob {
    m.(aggro := m.aggro - {player}, threat := m.threat - {player},
       dots := DotsWithout(m.dots, player), target := if m.target == Some(player) then None else m.target)
  }

  function DotsWithout(dots: seq<Dots.Dot>, caster: EntityId): (r: seq<Dots.Dot>)
    ensures forall d :: d in r <==> d in dots && d.caster != caster
  {
    if dots == [] then []
    else (if dots[0].caster == caster then [] else [dots[0]]) + DotsWithout(dots[1..], caster)
  }

  /** `turn_on`: a charm that breaks sends the mob for the one who charmed it. */
  function TurnedOn(m: Mob, owner: EntityId, now: real): Mob {
    Transition(m.(threat := m.threat[owner := Max(m.vitals.maxHp, 1.0)], target := Some(owner)), Chase, now)
  }

  function SentHome(m: Mob, w: World, now: real): Mob {
    if IsHome(m, w) then m else Transition(m, Leash, now)
  }

  datatype Event =
    | Ai(x: Senses, hit: Option<Hit>)
    | Swing(attacker: EntityId, amount: nat, missed: bool, at: real)
    | Spell(caster: EntityId, dmg: nat, at: real)
    | PetSwing(pet: EntityId, owner: Option<EntityId>, amount: nat, at: real)
    | Reflection(defender: Option<EntityId>, dmg: nat, at: real)
    | Sweep(dt: real, at: real)
    | Cast(dot: Dots.Dot)
    | Control(cc: Cc)
    | Wipe(player: EntityId)
    | Enrages(how: Enrage)
    | Killed(at: real)
    | BreaksCharm(owner: Option<EntityId>, at: real)

  /**
   One event. A shield reflects only the blow of a mob that is in a fight, or that
   died of something else first; a charm breaks only into the fresh idle mob it releases.
   */
  ghost predicate Next(m: Mob, e: Event, m': Mob, w: World) {
    match e
    case Ai(x, hit) => AiStep(m, m', hit, w, x)
    case Swing(attacker, amount, missed, at) => m' == Struck(m, attacker, amount, missed, at)
    case Spell(caster, dmg, at) => m' == Scorched(m, caster, dmg, at)
    case PetSwing(pet, owner, amount, at) => m' == PetStruck(m, pet, owner, amount, at)
    case Reflection(defender, dmg, at) => (m.state.Attack? || m.state.Dead?) && m' == Reflected(m, defender, dmg, at)
    case Sweep(dt, at) => m' == Smouldered(m, dt, at)
    case Cast(dot) => m' == ApplyDot(m, dot)
    case Control(cc) => m' == m.(cc := ApplyCc(m.cc, cc))
    case Wipe(player) => m' == Wiped(m, player)
    case Enrages(how) => m' == m.(enrage := Some(how))
    case Killed(at) => m' == Transition(m, Dead, at)
    case BreaksCharm(owner, at) =>
      && m.state.Idle?
      && m' == (if owner.Some? then TurnedOn(m, owner.value, at) else SentHome(m, w, at))
  }

  datatype Link = Link(e: Event, after: Mob)

  ghost predicate Run(m: Mob, run: seq<Link>, w: World)
    decreases |run|
  {
    run != [] ==> Next(m, run[0].e, run[0].after, w) && Run(run[0].after, run[1..], w)
  }

  function Last(m: Mob, run: seq<Link>): Mob {
    if run == [] then m else run[|run| - 1].after
  }

  // ------------------------------------------------------ what every run keeps

  predicate Bounded(m: Mob) {
    0.0 <= m.vitals.hp <= m.vitals.maxHp && 0.0 < m.vitals.maxHp
  }

  /** No target while idle or walking home, no dot on the walk home, and no living mob at zero hit points. */
  predicate Settled(m: Mob) {
    && (m.state.Idle? || m.state.Leash? ==> m.target == None)
    && (m.state.Leash? ==> m.dots == [])
    && Bounded(m)
    && (m.vitals.hp == 0.0 ==> m.state.Dead?)
  }

  /** What no event but arriving home changes: hit points rise only there, and then to the full. */
  predicate HealedOnlyHome(m: Mob, m': Mob, w: World) {
    m'.vitals.hp > m.vitals.hp ==>
      m.state.Leash? && IsHome(m, w) && AtRest(m')
  }

  /** As good as new: idle, at full hit points, with nobody on its lists and nothing on it. */
  predicate AtRest(m: Mob) {
    m.state.Idle? && m.vitals.hp == m.vitals.maxHp && m.target == None && m.threat == map[] && m.aggro == map[]
      && m.dots == []
  }

  /** The mob's making, its cap and its buffs stay what they are. */
  predicate SameMob(m: Mob, m': Mob) {
    m'.template == m.template && m'.home == m.home && m'.vitals.maxHp == m.vitals.maxHp && m'.buffs == m.buffs
  }

  lemma IdleKeeps(m: Mob, m': Mob, w: World, targets: Targets, hidden: set<EntityId>, now: real)
    requires Settled(m) && m.state.Idle? && IdleStep(m, m', w, targets, hidden, now)
    ensures Settled(m') && SameMob(m, m') && m'.vitals == m.vitals
  {
  }

  lemma ChaseKeeps(m: Mob, m': Mob, w: World, x: Senses)
    requires Settled(m) && m.state.Chase? && ChaseStep(m, m', w, x.targets, x.dt, x.now)
    ensures Settled(m') && SameMob(m, m') && m'.vitals == m.vitals
  {
    var rival: Option<EntityId>, hater: Option<EntityId> :| ChaseBy(m, m', w, x.targets, x.dt, x.now, rival, hater);
    var s := Switched(m, rival);
    ChaseCaseKeeps(s, ChaseCaseOf(s, w, x.targets, x.dt, x.now), m', w, x, hater);
  }

  lemma ChaseCaseKeeps(s: Mob, c: ChaseCase, m': Mob, w: World, x: Senses, hater: Option<EntityId>)
    requires Settled(s) && s.state.Chase? && ChaseDoes(s, c, m', w, x.targets, x.now, hater)
    ensures Settled(m') && SameMob(s, m') && m'.vitals == s.vitals
  {
  }

  lemma AttackKeeps(m: Mob, m': Mob, hit: Option<Hit>, w: World, x: Senses)
    requires Settled(m) && m.state.Attack? && AttackStep(m, m', hit, w, x.targets, x.now)
    ensures Settled(m') && SameMob(m, m') && m'.vitals == m.vitals
  {
    var rival: Option<EntityId>, hater: Option<EntityId> :| AttackBy(m, m', hit, w, x.targets, x.now, rival, hater);
    var s := Switched(m, rival);
    AttackCaseKeeps(s, AttackCaseOf(s, w, x.targets, x.now), m', hit, w, x, hater, SwingDamage(s));
  }

  lemma AttackCaseKeeps(s: Mob, c: AttackCase, m': Mob, hit: Option<Hit>, w: World, x: Senses,
      hater: Option<EntityId>, amount: int)
    requires Settled(s) && s.state.Attack? && AttackDoes(s, c, m', hit, w, x.targets, x.now, hater, amount)
    ensures Settled(m') && SameMob(s, m') && m'.vitals == s.vitals
  {
  }

  lemma AiKeeps(m: Mob, m': Mob, hit: Option<Hit>, w: World, x: Senses)
    requires Settled(m) && AiStep(m, m', hit, w, x)
    ensures Settled(m') && SameMob(m, m') && HealedOnlyHome(m, m', w) && m'.vitals.hp >= m.vitals.hp
  {
    var c := m.(cc := TickCc(m.cc, x.dt));
    if !Frozen(c.cc) {
      match m.state
      case Idle => IdleKeeps(c, m', w, x.targets, x.hidden, x.now);
      case Chase => ChaseKeeps(c, m', w, x);
      case Attack => AttackKeeps(c, m', hit, w, x);
      case _ =>
    }
  }

  lemma {:induction false} BurnedKeeps(m: Mob, ticks: seq<Dots.DotTick>)
    requires Bounded(m) && forall t :: t in ticks ==> t.amount >= 0
    ensures Bounded(Burned(m, ticks)) && SameMob(m, Burned(m, ticks))
    ensures Burned(m, ticks).target == m.target && Burned(m, ticks).dots == m.dots
    ensures Burned(m, ticks).vitals.hp <= m.vitals.hp && Burned(m, ticks).state == m.state
    decreases |ticks|
  {
    if ticks != [] {
      assert ticks[0] in ticks && forall t :: t in ticks[1..] ==> t in ticks;
      BurnedKeeps(Wounded(m, ticks[0].caster, ticks[0].amount as real, ticks[0].amount as real), ticks[1..]);
    }
  }

  /** What no harm done to a mob moves. */
  predicate SameWalk(m: Mob, m': Mob) {
    m'.template == m.template && m'.pos == m.pos && m'.stuck == m.stuck
  }

  lemma {:induction false} BurnedWalksOn(m: Mob, ticks: seq<Dots.DotTick>)
    ensures SameWalk(m, Burned(m, ticks)) && Burned(m, ticks).cc == m.cc && Burned(m, ticks).state == m.state
    ensures Burned(m, ticks).lastAttackAt == m.lastAttackAt
    decreases |ticks|
  {
    if ticks != [] {
      BurnedWalksOn(Wounded(m, ticks[0].caster, ticks[0].amount as real, ticks[0].amount as real), ticks[1..]);
    }
  }

  lemma SmoulderedKeeps(m: Mob, dt: real, now: real)
    requires Settled(m)
    ensures Settled(Smouldered(m, dt, now)) && SameMob(m, Smouldered(m, dt, now))
    ensures Smouldered(m, dt, now).vitals.hp <= m.vitals.hp
  {
    if !m.state.Dead? {
      TicksDealSome(m.dots, dt);
      BurnedKeeps(TickDots(m, dt), DotTicks(m, dt));
    }
  }

  lemma {:induction false} TicksDealSome(dots: seq<Dots.Dot>, dt: real)
    ensures forall t :: t in Dots.TicksOf(dots, dt) ==> t.amount > 0
  {
    if dots != [] {
      TicksDealSome(dots[1..], dt);
    }
  }

  predicate Hurts(e: Event) {
    e.Swing? || e.Spell? || e.PetSwing? || e.Reflection?
  }

  lemma HurtKeeps(m: Mob, e: Event, m': Mob, w: World)
    requires Settled(m) && Hurts(e) && Next(m, e, m', w)
    ensures Settled(m') && SameMob(m, m') && m'.vitals.hp <= m.vitals.hp
  {
    if e.PetSwing? {
      PetSwingKeeps(m, e.pet, e.owner, e.amount, e.at);
    }
  }

  lemma PetSwingKeeps(m: Mob, pet: EntityId, owner: Option<EntityId>, amount: nat, at: real)
    requires Settled(m)
    ensures Settled(PetStruck(m, pet, owner, amount, at)) && SameMob(m, PetStruck(m, pet, owner, amount, at))
    ensures PetStruck(m, pet, owner, amount, at).vitals.hp <= m.vitals.hp
  {
  }

  /** Every event keeps a mob settled, and only arriving home heals it. */
  lemma EventKeeps(m: Mob, e: Event, m': Mob, w: World)
    requires Settled(m) && Next(m, e, m', w)
    ensures Settled(m') && SameMob(m, m') && HealedOnlyHome(m, m', w)
  {
    match e
    case Ai(x, hit) => AiKeeps(m, m', hit, w, x);
    case Sweep(dt, at) => SmoulderedKeeps(m, dt, at);
    case _ =>
      if Hurts(e) {
        HurtKeeps(m, e, m', w);
      } else {
        HarmlessKeeps(m, e, m', w);
      }
  }

  lemma HarmlessKeeps(m: Mob, e: Event, m': Mob, w: World)
    requires Settled(m) && Next(m, e, m', w) && !e.Ai? && !e.Sweep? && !Hurts(e)
    ensures Settled(m') && SameMob(m, m') && m'.vitals == m.vitals
  {
  }

  /** No step of the run heals it but its arrivals home. */
  predicate HealsOnlyHome(m: Mob, run: seq<Link>, w: World)
    decreases |run|
  {
    run == [] || (HealedOnlyHome(m, run[0].after, w) && HealsOnlyHome(run[0].after, run[1..], w))
  }

  lemma {:induction false} RunKeeps(m: Mob, run: seq<Link>, w: World)
    requires Settled(m) && Run(m, run, w)
    ensures Settled(Last(m, run)) && SameMob(m, Last(m, run)) && HealsOnlyHome(m, run, w)
    decreases |run|
  {
    if run != [] {
      EventKeeps(m, run[0].e, run[0].after, w);
      RunKeeps(run[0].after, run[1..], w);
    }
  }

  // ------------------------------------------------------------ the walk home

  /** On the walk home nothing touches it: it walks on unhurt, or it has arrived, or it was killed outright. */
  lemma OnTheWayHome(m: Mob, e: Event, m': Mob, w: World)
    requires Settled(m) && m.state.Leash? && Next(m, e, m', w)
    ensures (m'.state.Leash? && m'.vitals == m.vitals) || (IsHome(m, w) && AtRest(m')) || (e.Killed? && m'.state.Dead?)
  {
  }

  /** Unhurt on the walk home until it is as good as new. */
  predicate SafeHome(m: Mob, run: seq<Link>)
    decreases |run|
  {
    run == [] || AtRest(run[0].after)
    || (run[0].after.state.Leash? && run[0].after.vitals == m.vitals && SafeHome(run[0].after, run[1..]))
  }

  /** Whatever is thrown at a mob walking home, short of killing it outright, it loses nothing. */
  lemma {:induction false} NothingHurtsItOnTheWay(m: Mob, run: seq<Link>, w: World)
    requires Settled(m) && m.state.Leash? && Run(m, run, w)
    requires forall l :: l in run ==> !l.e.Killed?
    ensures SafeHome(m, run)
    decreases |run|
  {
    if run != [] {
      assert run[0] in run && forall l :: l in run[1..] ==> l in run;
      OnTheWayHome(m, run[0].e, run[0].after, w);
      EventKeeps(m, run[0].e, run[0].after, w);
      if run[0].after.state.Leash? {
        NothingHurtsItOnTheWay(run[0].after, run[1..], w);
      }
    }
  }

  /** Nothing that freezes it, and nothing that ends it outright. */
  predicate Unhindered(e: Event) {
    !e.Killed? && (e.Control? ==> !e.cc.kind.Mez? && !e.cc.kind.Stun?)
  }

  function Home(m: Mob): Walker {
    Walker(m.pos, m.stuck)
  }

  /** AI ticks that bring a mob walking home to rest: its walk's budget, and one more to arrive. */
  function Need(w: World, m: Mob, s: real, gap: real, t: real): int
    requires s > 0.0 && gap > 0.0
  {
    if IsHome(m, w) then 1 else 1 + Budget(w, Home(m), None, m.home, s, gap, t)
  }

  function AiTicks(run: seq<Link>): nat {
    if run == [] then 0 else (if run[0].e.Ai? then 1 else 0) + AiTicks(run[1..])
  }

  /** AI ticks from time `t` on, `gap` apart at least, each with a stride of `s` at least. */
  predicate Paced(m: Mob, run: seq<Link>, s: real, gap: real, t: real)
    decreases |run|
  {
    run == [] ||
    if run[0].e.Ai? then
      var x := run[0].e.x;
      x.now >= t && Stride(m, x.dt) >= s && Paced(run[0].after, run[1..], s, gap, x.now + gap)
    else Paced(run[0].after, run[1..], s, gap, t)
  }

  predicate ComesToRest(run: seq<Link>) {
    exists i :: 0 <= i < |run| && AtRest(run[i].after)
  }

  lemma BetweenTicks(m: Mob, e: Event, m': Mob, w: World)
    requires Settled(m) && m.state.Leash? && !Frozen(m.cc) && Next(m, e, m', w) && !e.Ai? && Unhindered(e)
    ensures m'.state.Leash? && !Frozen(m'.cc) && Home(m') == Home(m) && m'.home == m.home
  {
  }

  lemma StandingHome(w: World, m: Mob)
    requires IsRoot(w.root) && m.pos == m.home
    ensures IsHome(m, w)
  {
    DistToSelf(w, m.home);
  }

  /** On its way: walking home, free to move, with its clock in the past. */
  ghost predicate OnItsWay(m: Mob, w: World, t: real) {
    && IsRoot(w.root) && GroundVec(w, m.home) == m.home
    && Settled(m) && m.state.Leash? && !Frozen(m.cc) && ClockStarted(Home(m), t)
  }

  /** Every tick of the walk home arrives, runs the clock out, or spends some of the budget. */
  lemma HomewardWalk(m: Mob, w: World, dt: real, s: real, gap: real, t: real, now: real)
    requires OnItsWay(m, w, t) && Stride(m, dt) >= s > 0.0 && gap > 0.0 && now >= t
    ensures
      var k := WalkHome(m, w, dt, now);
      && ClockStarted(k, now + gap) && Budget(w, Home(m), None, m.home, s, gap, t) >= 1
      && (k.pos == m.home || RanOut(k.stuck, now)
          || Budget(w, k, None, m.home, s, gap, now + gap) < Budget(w, Home(m), None, m.home, s, gap, t))
  {
    var k, step := WalkHome(m, w, dt, now), Stride(m, dt);
    assert k == Approach(w, Home(m), None, m.home, step, now);
    ApproachSpends(w, Home(m), None, m.home, step, s, gap, now, now + gap);
    WaitingSpends(w, Home(m), None, m.home, s, gap, t, now);
    BudgetPositive(w, Home(m), None, m.home, s, gap, t);
  }

  /** A tick not yet home, told by the walk it tried and the budget that walk had. */
  lemma HomewardStep(m: Mob, m': Mob, w: World, k: Walker, s: real, gap: real, now: real, had: int)
    requires IsRoot(w.root) && GroundVec(w, m.home) == m.home && s > 0.0 && gap > 0.0 && had >= 1
    requires ClockStarted(k, now + gap)
    requires k.pos == m.home || RanOut(k.stuck, now) || Budget(w, k, None, m.home, s, gap, now + gap) < had
    requires m' == if RanOut(k.stuck, now) then m.(pos := GroundVec(w, m.home), stuck := None)
      else m.(pos := k.pos, stuck := k.stuck)
    ensures ClockStarted(Home(m'), now + gap) && Need(w, m', s, gap, now + gap) < 1 + had
  {
    if m'.pos == m.home {
      StandingHome(w, m');
    } else {
      assert Home(m') == k;
    }
  }

  lemma HomewardTick(m: Mob, m': Mob, w: World, dt: real, s: real, gap: real, t: real, now: real)
    requires OnItsWay(m, w, t) && s > 0.0 && gap > 0.0 && m' == LeashStep(m, w, dt, now)
    requires now >= t && Stride(m, dt) >= s && !IsHome(m, w)
    ensures ClockStarted(Home(m'), now + gap) && Need(w, m', s, gap, now + gap) < Need(w, m, s, gap, t)
  {
    HomewardWalk(m, w, dt, s, gap, t, now);
    HomewardStep(m, m', w, WalkHome(m, w, dt, now), s, gap, now, Budget(w, Home(m), None, m.home, s, gap, t));
  }

  /** Every AI tick on the walk home brings it to rest, or needs one fewer. */
  lemma HomewardAi(m: Mob, m': Mob, hit: Option<Hit>, w: World, x: Senses, s: real, gap: real, t: real)
    requires OnItsWay(m, w, t) && s > 0.0 && gap > 0.0 && AiStep(m, m', hit, w, x)
    requires x.now >= t && Stride(m, x.dt) >= s
    ensures AtRest(m') || (OnItsWay(m', w, x.now + gap) && Need(w, m', s, gap, x.now + gap) < Need(w, m, s, gap, t))
  {
    TickCcOnlyRemoves(m.cc, x.dt);
    var c := m.(cc := TickCc(m.cc, x.dt));
    if !IsHome(c, w) {
      HomewardTick(c, m', w, x.dt, s, gap, t, x.now);
      assert Need(w, c, s, gap, t) == Need(w, m, s, gap, t);
    }
  }

  lemma HomewardEvent(m: Mob, e: Event, m': Mob, w: World, s: real, gap: real, t: real)
    requires OnItsWay(m, w, t) && s > 0.0 && gap > 0.0 && Next(m, e, m', w) && !e.Ai? && Unhindered(e)
    ensures OnItsWay(m', w, t) && Need(w, m', s, gap, t) == Need(w, m, s, gap, t)
  {
    BetweenTicks(m, e, m', w);
    EventKeeps(m, e, m', w);
  }

  /**
   A mob walking home gets there. Over any terrain, with home on the ground, whatever
   else happens to it on the way short of mez, stun and death: within its budget of
   AI ticks it is idle, at full hit points, with nobody on its lists and no dot on it.
   */
  lemma {:induction false} LeashGetsHome(m: Mob, run: seq<Link>, w: World, s: real, gap: real, t: real)
    requires OnItsWay(m, w, t) && s > 0.0 && gap > 0.0
    requires Run(m, run, w) && Paced(m, run, s, gap, t)
    requires forall l :: l in run ==> Unhindered(l.e)
    requires AiTicks(run) >= Need(w, m, s, gap, t)
    ensures ComesToRest(run)
    decreases |run|
  {
    NeedPositive(m, w, s, gap, t);
    var m', e := run[0].after, run[0].e;
    assert run[0] in run && forall l :: l in run[1..] ==> l in run;
    if e.Ai? {
      HomewardAi(m, m', e.hit, w, e.x, s, gap, t);
      if !AtRest(m') {
        LeashGetsHome(m', run[1..], w, s, gap, e.x.now + gap);
        RestLater(run);
      }
    } else {
      HomewardEvent(m, e, m', w, s, gap, t);
      LeashGetsHome(m', run[1..], w, s, gap, t);
      RestLater(run);
    }
  }

  lemma NeedPositive(m: Mob, w: World, s: real, gap: real, t: real)
    requires IsRoot(w.root) && s > 0.0 && gap > 0.0 && ClockStarted(Home(m), t)
    ensures Need(w, m, s, gap, t) >= 1
  {
    BudgetPositive(w, Home(m), None, m.home, s, gap, t);
  }

  lemma RestLater(run: seq<Link>)
    requires run != [] && ComesToRest(run[1..])
    ensures ComesToRest(run)
  {
    var i :| 0 <= i < |run| - 1 && AtRest(run[1..][i].after);
    assert AtRest(run[i + 1].after);
  }
}
