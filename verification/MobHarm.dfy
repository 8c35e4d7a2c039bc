/**
 What harm costs a mob: the hit points, the hate and the life each blow, spell, shield
 and dot takes of it, and the accounts of a whole fight. What a wipe and a broken charm leave.
 */
module MobHarm {
  import opened Options
  import opened Reals
  import opened Geometry
  import opened Walk
  import opened Mob
  import opened MobRuns
  import Dots

  /** Out of reach of harm: walking home, or a second stuck on a chase and refused a step within the last half. */
  predicate Untouchable(m: Mob, now: real) {
    m.state.Leash? ||
    (m.state.Chase? && m.stuck.Some?
     && Elapsed(now, m.stuck.value.since) >= 1.0 && Elapsed(now, m.stuck.value.lastRefused) <= 0.5)
  }


  /** A hit that is taken: by a mob alive, and not out of its reach; a shield reaches any. */
  predicate Taken(m: Mob, e: Event)
    requires Hurts(e)
  {
    !m.state.Dead? && (e.Reflection? || !Untouchable(m, e.at))
  }

  function DamageOf(e: Event): nat
    requires Hurts(e)
  {
    match e
    case Swing(_, amount, missed, _) => if missed then 0 else amount
    case Spell(_, dmg, _) => dmg
    case PetSwing(_, _, amount, _) => amount
    case Reflection(_, dmg, _) => dmg
  }

  /** The hate a hit earns `id`: its damage, or a point for a miss, to the one that dealt it. */
  function HateFor(e: Event, id: EntityId): real
    requires Hurts(e)
  {
    match e
    case Swing(attacker, amount, missed, _) => if id != attacker then 0.0 else if missed then 1.0 else amount as real
    case Spell(caster, dmg, _) => if id == caster then dmg as real else 0.0
    case PetSwing(pet, _, amount, _) => if id == pet then amount as real else 0.0
    case Reflection(defender, dmg, _) => if Some(id) == defender then dmg as real else 0.0
  }

  /** The credit toward a kill it earns `id`: the same, save that a pet's goes to its owner. */
  function CreditFor(e: Event, id: EntityId): real
    requires Hurts(e)
  {
    if e.PetSwing? then (if Some(id) == e.owner then e.amount as real else 0.0) else HateFor(e, id)
  }

  function CreditOf(m: Mob, id: EntityId): real {
    if id in m.aggro then m.aggro[id] else 0.0
  }

  lemma GainedBy(hate: map<EntityId, real>, who: EntityId, amount: real, id: EntityId)
    ensures
      var before, after := if id in hate then hate[id] else 0.0, Gained(hate, who, amount);
      (if id in after then after[id] else 0.0) == before + if id == who then amount else 0.0
  {
  }

  /**
   What a hit does: nothing if it is not taken; taken, it costs its damage and no more, kills
   exactly when it spends the last hit point, moves nothing else of a mob it leaves alive, and
   is hated and credited for what it dealt.
   */
  predicate Costs(m: Mob, e: Event, m': Mob, id: EntityId)
    requires Hurts(e)
  {
    if !Taken(m, e) then m' == m
    else
      && m'.vitals.hp == Max(m.vitals.hp - DamageOf(e) as real, 0.0)
      && (m'.state.Dead? <==> m.vitals.hp <= DamageOf(e) as real)
      && (!m'.state.Dead? ==> m'.state == m.state && m'.dots == m.dots && m'.target == m.target)
      && ThreatOf(m', id) == ThreatOf(m, id) + HateFor(e, id)
      && CreditOf(m', id) == CreditOf(m, id) + CreditFor(e, id)
  }

  lemma HitCosts(m: Mob, e: Event, m': Mob, w: World, id: EntityId)
    requires Settled(m) && Hurts(e) && Next(m, e, m', w)
    ensures Costs(m, e, m', id)
  {
    match e {
      case Swing(_, _, _, _) => SwingCosts(m, e, m', w, id);
      case Spell(_, _, _) => SpellCosts(m, e, m', w, id);
      case PetSwing(_, _, _, _) => PetSwingCosts(m, e, m', w, id);
      case Reflection(_, _, _) => ReflectionCosts(m, e, m', w, id);
    }
  }

  lemma SwingCosts(m: Mob, e: Event, m': Mob, w: World, id: EntityId)
    requires Settled(m) && e.Swing? && Next(m, e, m', w)
    ensures Costs(m, e, m', id)
  {
  }

  lemma SpellCosts(m: Mob, e: Event, m': Mob, w: World, id: EntityId)
    requires Settled(m) && e.Spell? && Next(m, e, m', w)
    ensures Costs(m, e, m', id)
  {
  }

  lemma PetSwingCosts(m: Mob, e: Event, m': Mob, w: World, id: EntityId)
    requires Settled(m) && e.PetSwing? && Next(m, e, m', w)
    ensures Costs(m, e, m', id)
  {
  }

  lemma ReflectionCosts(m: Mob, e: Event, m': Mob, w: World, id: EntityId)
    requires Settled(m) && e.Reflection? && Next(m, e, m', w)
    ensures Costs(m, e, m', id)
  {
  }

  // ---------------------------------------------------------------------- dots

  /** The damage and the hate of some ticks, `id`'s share of it. */
  function HateOfTicks(ticks: seq<Dots.DotTick>, id: EntityId): real {
    if ticks == [] then 0.0
    else (if ticks[0].caster == id then ticks[0].amount as real else 0.0) + HateOfTicks(ticks[1..], id)
  }

  /** Ticks a mob survives cost the sum of them, and are hated and credited one by one. */
  lemma {:induction false} BurnCosts(m: Mob, ticks: seq<Dots.DotTick>, id: EntityId)
    requires m.vitals.hp > 0.0 && forall t :: t in ticks ==> t.amount > 0
    ensures Burned(m, ticks).vitals.hp > 0.0 <==> m.vitals.hp > Dots.Damage(ticks) as real
    ensures Burned(m, ticks).vitals.hp > 0.0 ==>
      && Burned(m, ticks).vitals.hp == m.vitals.hp - Dots.Damage(ticks) as real
      && ThreatOf(Burned(m, ticks), id) == ThreatOf(m, id) + HateOfTicks(ticks, id)
      && CreditOf(Burned(m, ticks), id) == CreditOf(m, id) + HateOfTicks(ticks, id)
    decreases |ticks|
  {
    if ticks != [] {
      assert ticks[0] in ticks && forall t :: t in ticks[1..] ==> t in ticks;
      var amount := ticks[0].amount as real;
      var hurt := Wounded(m, ticks[0].caster, amount, amount);
      DamagePositive(ticks[1..]);
      GainedBy(m.threat, ticks[0].caster, amount, id);
      GainedBy(m.aggro, ticks[0].caster, amount, id);
      if hurt.vitals.hp > 0.0 {
        BurnCosts(hurt, ticks[1..], id);
      }
    }
  }

  lemma {:induction false} DamagePositive(ticks: seq<Dots.DotTick>)
    requires forall t :: t in ticks ==> t.amount > 0
    ensures Dots.Damage(ticks) >= 0
  {
    if ticks != [] {
      assert ticks[0] in ticks && forall t :: t in ticks[1..] ==> t in ticks;
      DamagePositive(ticks[1..]);
    }
  }

  /** The damage a sweep's dots have for a mob within reach of them. */
  function SweepDamage(m: Mob, dt: real): int {
    Dots.Damage(Dots.TicksOf(m.dots, dt))
  }

  /**
   A sweep deals a living mob all its dots owe, unless it is out of reach, and kills it exactly
   when that is all it has.
   */
  lemma SweepCosts(m: Mob, dt: real, at: real)
    requires Settled(m) && !m.state.Dead?
    ensures
      var m', cost := Smouldered(m, dt, at), if Untouchable(m, at) then 0 else SweepDamage(m, dt);
      && (m'.state.Dead? <==> m.vitals.hp <= cost as real)
      && (!m'.state.Dead? ==>
            && m'.vitals.hp == m.vitals.hp - cost as real
            && m'.dots == Dots.Swept(m.dots, dt) && m'.state == m.state && m'.target == m.target)
  {
    TicksDealSome(m.dots, dt);
    DamagePositive(Dots.TicksOf(m.dots, dt));
    BurnCosts(TickDots(m, dt), DotTicks(m, dt), 0);
    BurnedKeeps(TickDots(m, dt), DotTicks(m, dt));
    BurnedWalksOn(TickDots(m, dt), DotTicks(m, dt));
    if m.dots == [] {
      assert Dots.Swept(m.dots, dt) == [] && Dots.TicksOf(m.dots, dt) == [];
    }
  }

  // ---------------------------------------------------------------- a whole fight

  /** What one event costs a mob that it leaves alive. */
  function CostOf(m: Mob, e: Event): real {
    if Hurts(e) then (if Taken(m, e) then DamageOf(e) as real else 0.0)
    else if e.Sweep? && !Untouchable(m, e.at) then SweepDamage(m, e.dt) as real
    else 0.0
  }

  function CostsOver(m: Mob, run: seq<Link>): real
    decreases |run|
  {
    if run == [] then 0.0 else CostOf(m, run[0].e) + CostsOver(run[0].after, run[1..])
  }

  /** Alive, and not on its way home. */
  predicate Fights(m: Mob) {
    !m.state.Dead? && !m.state.Leash?
  }

  lemma EventCosts(m: Mob, e: Event, m': Mob, w: World)
    requires Settled(m) && Fights(m) && Next(m, e, m', w) && Fights(m')
    ensures m'.vitals.hp == m.vitals.hp - CostOf(m, e)
  {
    if e.Ai? {
      AiCostsNothing(m, m', e.hit, w, e.x);
    } else if e.Sweep? {
      SweepCosts(m, e.dt, e.at);
    } else if Hurts(e) {
      HitCosts(m, e, m', w, 0);
    } else {
      HarmlessKeeps(m, e, m', w);
    }
  }

  lemma AiCostsNothing(m: Mob, m': Mob, hit: Option<Hit>, w: World, x: Senses)
    requires Settled(m) && Fights(m) && AiStep(m, m', hit, w, x)
    ensures m'.vitals.hp == m.vitals.hp
  {
    AiKeeps(m, m', hit, w, x);
  }

  /** Over any run a mob lives through without turning for home, it loses exactly what was dealt it. */
  lemma {:induction false} HitPointsAccount(m: Mob, run: seq<Link>, w: World)
    requires Settled(m) && Fights(m) && Run(m, run, w) && forall l :: l in run ==> Fights(l.after)
    ensures Last(m, run).vitals.hp == m.vitals.hp - CostsOver(m, run)
    decreases |run|
  {
    if run != [] {
      assert run[0] in run && forall l :: l in run[1..] ==> l in run;
      EventCosts(m, run[0].e, run[0].after, w);
      EventKeeps(m, run[0].e, run[0].after, w);
      HitPointsAccount(run[0].after, run[1..], w);
    }
  }

  // ---------------------------------------------------------------- its list of dots

  /** The casts and sweeps of a run. */
  function DotEvents(run: seq<Link>): seq<Dots.Event> {
    if run == [] then []
    else
      (match run[0].e
       case Sweep(dt, _) => [Dots.Sweep(dt)]
       case Cast(dot) => [Dots.Cast(dot)]
       case _ => [])
      + DotEvents(run[1..])
  }

  lemma EventDots(m: Mob, e: Event, m': Mob, w: World)
    requires Settled(m) && Fights(m) && Next(m, e, m', w) && Fights(m') && !e.Wipe?
    ensures m'.dots ==
      match e case Sweep(dt, _) => Dots.Swept(m.dots, dt) case Cast(dot) => Dots.Applied(m.dots, dot) case _ => m.dots
  {
    if e.Ai? {
      AiKeepsDots(m, m', e.hit, w, e.x);
    } else if e.Sweep? {
      SweepCosts(m, e.dt, e.at);
    } else if Hurts(e) {
      HitCosts(m, e, m', w, 0);
    }
  }

  lemma AiKeepsDots(m: Mob, m': Mob, hit: Option<Hit>, w: World, x: Senses)
    requires Fights(m) && AiStep(m, m', hit, w, x) && Fights(m')
    ensures m'.dots == m.dots
  {
    var c := m.(cc := TickCc(m.cc, x.dt));
    if !Frozen(c.cc) {
      match m.state
      case Chase =>
        var rival: Option<EntityId>, hater: Option<EntityId> :| ChaseBy(c, m', w, x.targets, x.dt, x.now, rival, hater);
        ChaseKeepsDots(Switched(c, rival), ChaseCaseOf(Switched(c, rival), w, x.targets, x.dt, x.now), m', w, x, hater);
      case Attack =>
        var rival: Option<EntityId>, hater: Option<EntityId> :| AttackBy(c, m', hit, w, x.targets, x.now, rival, hater);
        var s := Switched(c, rival);
        FightKeepsDots(s, AttackCaseOf(s, w, x.targets, x.now), m', hit, w, x, hater, SwingDamage(s));
      case _ =>
    }
  }

  lemma FightKeepsDots(s: Mob, c: AttackCase, m': Mob, hit: Option<Hit>, w: World, x: Senses,
      hater: Option<EntityId>, amount: int)
    requires AttackDoes(s, c, m', hit, w, x.targets, x.now, hater, amount) && Fights(m') && s.state.Attack?
    ensures m'.dots == s.dots
  {
  }

  lemma ChaseKeepsDots(s: Mob, c: ChaseCase, m': Mob, w: World, x: Senses, hater: Option<EntityId>)
    requires ChaseDoes(s, c, m', w, x.targets, x.now, hater) && Fights(m') && s.state.Chase?
    ensures m'.dots == s.dots
  {
  }

  /**
   Over any run in which it neither dies nor turns for home nor forgets anyone, a mob's dots are
   the list its casts and sweeps make, whatever else happens: all that is proved of that holds of it.
   */
  lemma {:induction false} DotsAreTheList(m: Mob, run: seq<Link>, w: World)
    requires Settled(m) && Fights(m) && Run(m, run, w)
    requires forall l :: l in run ==> Fights(l.after) && !l.e.Wipe?
    ensures Last(m, run).dots == Dots.Run(m.dots, DotEvents(run))
    decreases |run|
  {
    if run != [] {
      var e, after, rest := run[0].e, run[0].after, run[1..];
      assert run[0] in run && forall l :: l in rest ==> l in run;
      EventDots(m, e, after, w);
      EventKeeps(m, e, after, w);
      DotsAreTheList(after, rest, w);
      if e.Sweep? || e.Cast? {
        assert DotEvents(run)[1..] == DotEvents(rest);
      } else {
        assert DotEvents(run) == DotEvents(rest);
      }
    }
  }

  /** Whatever kills a mob sheds its dots with it. */
  lemma DyingShedsDots(m: Mob, e: Event, m': Mob, w: World)
    requires Settled(m) && !m.state.Dead? && Next(m, e, m', w) && m'.state.Dead?
    ensures m'.dots == []
  {
    match e {
      case Ai(x, hit) => NoTickKills(m, m', hit, w, x);
      case Sweep(dt, at) => BurnedWalksOn(TickDots(m, dt), DotTicks(m, dt));
      case _ =>
        if Hurts(e) {
          KillingHitShedsDots(m, e, m', w);
        }
    }
  }

  lemma KillingHitShedsDots(m: Mob, e: Event, m': Mob, w: World)
    requires Hurts(e) && !m.state.Dead? && Next(m, e, m', w) && m'.state.Dead?
    ensures m'.dots == []
  {
  }

  lemma NoTickKills(m: Mob, m': Mob, hit: Option<Hit>, w: World, x: Senses)
    requires !m.state.Dead? && AiStep(m, m', hit, w, x)
    ensures !m'.state.Dead?
  {
    var c := m.(cc := TickCc(m.cc, x.dt));
    if !Frozen(c.cc) {
      match m.state
      case Chase =>
        var rival: Option<EntityId>, hater: Option<EntityId> :| ChaseBy(c, m', w, x.targets, x.dt, x.now, rival, hater);
        ChaseKillsNobody(Switched(c, rival), ChaseCaseOf(Switched(c, rival), w, x.targets, x.dt, x.now), m', w, x,
          hater);
      case Attack =>
        var rival: Option<EntityId>, hater: Option<EntityId> :| AttackBy(c, m', hit, w, x.targets, x.now, rival, hater);
        var s := Switched(c, rival);
        FightKillsNobody(s, AttackCaseOf(s, w, x.targets, x.now), m', hit, w, x, hater, SwingDamage(s));
      case _ =>
    }
  }

  lemma ChaseKillsNobody(s: Mob, c: ChaseCase, m': Mob, w: World, x: Senses, hater: Option<EntityId>)
    requires ChaseDoes(s, c, m', w, x.targets, x.now, hater) && s.state.Chase?
    ensures !m'.state.Dead?
  {
  }

  lemma FightKillsNobody(s: Mob, c: AttackCase, m': Mob, hit: Option<Hit>, w: World, x: Senses,
      hater: Option<EntityId>, amount: int)
    requires AttackDoes(s, c, m', hit, w, x.targets, x.now, hater, amount) && s.state.Attack?
    ensures !m'.state.Dead?
  {
  }

  // ---------------------------------------------- what takes hold, and what is forgotten

  /** An enrage takes hold whole and moves nothing else. */
  lemma EnrageTakesHold(m: Mob, how: Enrage, m': Mob, w: World)
    requires Next(m, Enrages(how), m', w)
    ensures m'.enrage == Some(how) && m'.(enrage := m.enrage) == m
  {
  }

  /** Control takes hold, in place of its kind and of nothing else; a slow weaker than the one held does not. */
  lemma ControlTakesHold(m: Mob, c: Cc, m': Mob, w: World)
    requires Next(m, Control(c), m', w)
    ensures m'.(cc := m.cc) == m
    ensures
      var weaker := c.kind.AttackSlow? && exists d :: d in m.cc && d.kind.AttackSlow? && d.kind.pct > c.kind.pct;
      && (weaker ==> m'.cc == m.cc)
      && (!weaker ==> c in m'.cc && forall d :: d != c ==> (d in m'.cc <==> d in m.cc && !SameKind(d.kind, c.kind)))
  {
    StrongestInForce(m.cc);
    if SlowPct(m.cc) == 0 || !c.kind.AttackSlow? {
    } else {
      var d :| d in m.cc && d.kind == AttackSlow(SlowPct(m.cc));
      assert d.kind.AttackSlow? && d.kind.pct == SlowPct(m.cc);
    }
  }

  /** A wipe forgets one player whole - hate, credit, dots, and as a target - and nobody else. */
  lemma WipeForgetsOne(m: Mob, player: EntityId, m': Mob, w: World, id: EntityId)
    requires Next(m, Wipe(player), m', w)
    ensures ThreatOf(m', id) == (if id == player then 0.0 else ThreatOf(m, id))
    ensures CreditOf(m', id) == (if id == player then 0.0 else CreditOf(m, id))
    ensures forall d :: d in m'.dots <==> d in m.dots && d.caster != player
    ensures m'.target == (if m.target == Some(player) then None else m.target)
    ensures m'.vitals == m.vitals && m'.state == m.state && m'.pos == m.pos && m'.cc == m.cc
  {
  }

  /** A broken charm sends the mob for its charmer, hated as much as it has hit points; with no charmer, home. */
  lemma CharmBreaks(m: Mob, owner: Option<EntityId>, at: real, m': Mob, w: World)
    requires Next(m, BreaksCharm(owner, at), m', w)
    ensures owner.Some? ==>
      m'.state.Chase? && m'.target == owner && ThreatOf(m', owner.value) == Max(m.vitals.maxHp, 1.0)
    ensures owner.None? ==> m'.threat == m.threat && if IsHome(m, w) then m' == m else m'.state.Leash?
  {
  }
}
