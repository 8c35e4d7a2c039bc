/**
 When a mob strikes: every time its swing timer is up with a target at hand, and so, over
 a whole fight, no slower than its pause between blows and the ticks it waits for.
 */
module MobBlows {
  import opened Options
  import opened Reals
  import opened Geometry
  import opened Mob
  import opened MobRuns
  import opened MobFights

  /** No blow yet, or the interval since the last over, stretched by the slow in force and shortened by haste. */
  predicate Rested(m: Mob, now: real) {
    m.lastAttackAt.None? ||
    (var haste := 1.0 + HasteTotal(m.buffs);
     haste != 0.0 &&
     Elapsed(now, m.lastAttackAt.value) >= Interval(m.template) * (1.0 + SlowPct(m.cc) as real / 100.0) / haste)
  }

  /** Present, and within reach of a fight. */
  predicate AtHand(m: Mob, w: World, targets: Targets, id: EntityId) {
    TargetPos(targets, id).Some?
    && Dist(w, m.pos, TargetPos(targets, id).value) <= MeleeRange(m.template) * ATTACK_RANGE_SLACK
  }

  /** Its target and everyone present it might turn to are at hand. */
  predicate Surrounded(m: Mob, w: World, targets: Targets) {
    && m.target.Some? && AtHand(m, w, targets, m.target.value)
    && (forall id :: id in m.threat && TargetPos(targets, id).Some? ==> AtHand(m, w, targets, id))
  }

  // ------------------------------------------------------------------ one tick

  lemma CaseStrikesIff(s: Mob, c: AttackCase, m': Mob, hit: Option<Hit>, w: World, x: Senses,
      hater: Option<EntityId>, amount: int)
    requires s.state.Attack? && c == AttackCaseOf(s, w, x.targets, x.now)
    requires AttackDoes(s, c, m', hit, w, x.targets, x.now, hater, amount)
    ensures m'.state.Attack? <==> s.target.Some? && AtHand(s, w, x.targets, s.target.value)
    ensures hit.Some? <==> m'.state.Attack? && Rested(s, x.now)
    ensures hit.Some? ==> Some(hit.value.target) == m'.target && hit.value.amount == amount
    ensures m'.state.Attack? ==> m'.target == s.target && m'.threat == s.threat && m'.pos == s.pos
    ensures m'.template == s.template
  {
  }

  lemma FightStrikesIff(m: Mob, m': Mob, hit: Option<Hit>, w: World, x: Senses)
    requires m.state.Attack? && AttackStep(m, m', hit, w, x.targets, x.now)
    ensures hit.Some? <==> m'.state.Attack? && Rested(m, x.now)
    ensures hit.Some? ==> Some(hit.value.target) == m'.target && hit.value.amount == SwingDamage(m)
    ensures m'.state.Attack? ==> m'.target.Some? && AtHand(m', w, x.targets, m'.target.value)
    ensures Surrounded(m, w, x.targets) ==> m'.state.Attack? && Surrounded(m', w, x.targets)
    ensures m.target.Some? && m.threat.Keys <= {m.target.value} ==>
      (m'.state.Attack? <==> AtHand(m, w, x.targets, m.target.value))
  {
    var rival: Option<EntityId>, hater: Option<EntityId> :| AttackBy(m, m', hit, w, x.targets, x.now, rival, hater);
    SwitchStaysAtHand(m, rival, w, x.targets);
    SwitchedStrikesIff(m, Switched(m, rival), m', hit, w, x, hater);
  }

  lemma SwitchedStrikesIff(m: Mob, s: Mob, m': Mob, hit: Option<Hit>, w: World, x: Senses, hater: Option<EntityId>)
    requires m.state.Attack? && s == m.(target := s.target)
    requires AttackDoes(s, AttackCaseOf(s, w, x.targets, x.now), m', hit, w, x.targets, x.now, hater, SwingDamage(s))
    ensures hit.Some? <==> m'.state.Attack? && Rested(m, x.now)
    ensures hit.Some? ==> Some(hit.value.target) == m'.target && hit.value.amount == SwingDamage(m)
    ensures m'.state.Attack? <==> s.target.Some? && AtHand(m, w, x.targets, s.target.value)
    ensures m'.state.Attack? ==> m'.target.Some? && AtHand(m', w, x.targets, m'.target.value)
    ensures Surrounded(s, w, x.targets) ==> Surrounded(m', w, x.targets)
  {
    CaseStrikesIff(s, AttackCaseOf(s, w, x.targets, x.now), m', hit, w, x, hater, SwingDamage(s));
  }

  /** A threat switch leaves a target at hand when all are, and does nothing with nobody to turn to. */
  lemma SwitchStaysAtHand(m: Mob, rival: Option<EntityId>, w: World, targets: Targets)
    requires m.target.Some? ==> TopRival(m, targets, rival)
    ensures Surrounded(m, w, targets) ==> Surrounded(Switched(m, rival), w, targets)
    ensures m.target.Some? && m.threat.Keys <= {m.target.value} ==> Switched(m, rival) == m
  {
  }

  /**
   A free mob in a fight strikes if and only if the fight goes on and it is rested, and then
   its target, for its whole swing. The fight goes on whenever all it may turn to are at hand;
   with nobody else to turn to, exactly when its target is; and always at a target at hand.
   */
  lemma StrikesIffRested(m: Mob, m': Mob, hit: Option<Hit>, w: World, x: Senses)
    requires m.state.Attack? && AiStep(m, m', hit, w, x) && !Frozen(TickCc(m.cc, x.dt))
    ensures hit.Some? <==> m'.state.Attack? && Rested(m.(cc := TickCc(m.cc, x.dt)), x.now)
    ensures hit.Some? ==> Some(hit.value.target) == m'.target && hit.value.amount == SwingDamage(m)
    ensures m'.state.Attack? ==> m'.target.Some? && AtHand(m', w, x.targets, m'.target.value)
    ensures Surrounded(m, w, x.targets) ==> m'.state.Attack? && Surrounded(m', w, x.targets)
    ensures m.target.Some? && m.threat.Keys <= {m.target.value} ==>
      (m'.state.Attack? <==> AtHand(m, w, x.targets, m.target.value))
  {
    FightStrikesIff(m.(cc := TickCc(m.cc, x.dt)), m', hit, w, x);
  }

  // ------------------------------------------------------------------ a whole fight

  /** The pause between its blows is no longer than `pause`. */
  predicate PauseWithin(m: Mob, pause: real) {
    var haste := 1.0 + HasteTotal(m.buffs);
    haste > 0.0 && Interval(m.template) * (1.0 + SlowPct(m.cc) as real / 100.0) <= pause * haste
  }

  /**
   A run it spends surrounded and free: AI ticks no further apart than `gap`, and between them
   nothing ends the fight.
   */
  predicate Pressed(m: Mob, run: seq<Link>, w: World, pause: real, gap: real, t: real)
    decreases |run|
  {
    run == [] ||
    (var e, after := run[0].e, run[0].after;
     if e.Ai? then
       && !Frozen(TickCc(m.cc, e.x.dt)) && Surrounded(m, w, e.x.targets) && t <= e.x.now <= t + gap
       && PauseWithin(m.(cc := TickCc(m.cc, e.x.dt)), pause)
       && Pressed(after, run[1..], w, pause, gap, e.x.now)
     else after.state.Attack? && Pressed(after, run[1..], w, pause, gap, t))
  }

  lemma QuotientWithin(a: real, h: real, p: real)
    requires h > 0.0 && a <= p * h
    ensures a / h <= p
  {
    if a / h > p {
      ScaleStrict(h, p, a / h);
    }
  }

  /** One that does not strike struck less than a pause ago. */
  lemma UnrestedStruckLately(m: Mob, now: real, since: real, pause: real)
    requires m.lastAttackAt == Some(since) && since <= now && PauseWithin(m, pause) && !Rested(m, now)
    ensures now - since < pause
  {
    var haste := 1.0 + HasteTotal(m.buffs);
    QuotientWithin(Interval(m.template) * (1.0 + SlowPct(m.cc) as real / 100.0), haste, pause);
  }

  /** A tick of a pressed fight: it goes on, and leaves the last blow less than a pause ago. */
  lemma PressedTick(m: Mob, m': Mob, hit: Option<Hit>, w: World, x: Senses, since: real, pause: real)
    requires m.state.Attack? && m.lastAttackAt == Some(since) && since <= x.now && pause > 0.0
    requires AiStep(m, m', hit, w, x) && !Frozen(TickCc(m.cc, x.dt)) && Surrounded(m, w, x.targets)
    requires PauseWithin(m.(cc := TickCc(m.cc, x.dt)), pause)
    ensures m'.state.Attack?
    ensures if hit.Some? then m'.lastAttackAt == Some(x.now)
            else m'.lastAttackAt == Some(since) && x.now - since < pause
  {
    StrikesIffRested(m, m', hit, w, x);
    BlowsLandInReach(m, m', hit, w, x);
    if hit.None? {
      UnrestedStruckLately(m.(cc := TickCc(m.cc, x.dt)), x.now, since, pause);
    }
  }

  /**
   Over any run it spends surrounded and free, a mob's blows after its last one number at
   least one for every pause and tick of the time, less the one it may be waiting for.
   */
  lemma {:induction false} BlowsKeepUp(m: Mob, run: seq<Link>, w: World, since: real, t: real, pause: real, gap: real)
    requires m.state.Attack? && m.lastAttackAt == Some(since) && since <= t && t - since < pause && gap >= 0.0
    requires Run(m, run, w) && Pressed(m, run, w, pause, gap, t)
    ensures LastTick(run, t) - since < TimeFor(Blows(run) + 1, pause + gap)
    decreases |run|
  {
    OneMore(if run == [] then 0 else Blows(run[1..]) + 1, pause + gap);
    if run == [] {
      OneMore(0, pause + gap);
    } else {
      var e, after := run[0].e, run[0].after;
      if e.Ai? {
        PressedTick(m, after, e.hit, w, e.x, since, pause);
        BlowsKeepUp(after, run[1..], w, if e.hit.Some? then e.x.now else since, e.x.now, pause, gap);
      } else {
        OthersStrikeNobody(m, e, after, w);
        BlowsKeepUp(after, run[1..], w, since, t, pause, gap);
      }
    }
  }
}
