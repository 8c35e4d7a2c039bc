/**
 How far one free tick carries a mob or a pet: its speed times the tick, an enrage and a
 speed buff multiplying it, a snare taking its share on a chase, a root all of it, and
 nothing of it on the walk home.
 */
module MobStrides {
  import opened Options
  import opened Geometry
  import opened Walk
  import opened Mob
  import opened PetAi

  /** What an enrage makes of speed. */
  function Fury(enrage: Option<Enrage>): real {
    if enrage.Some? then enrage.value.speedMult else 1.0
  }

  /** The share of its speed a snare of so many percent leaves. */
  function Loose(pct: nat): real {
    1.0 - pct as real / 100.0
  }

  /** A step of that length toward `at` is short of it and no slope refuses it. */
  predicate Clear(w: World, pos: Vec3, at: Vec3, step: real) {
    && 0.0 <= step < Flat(w, pos, at) && EPSILON < Flat(w, pos, at)
    && w.slopeOk(pos, StepToward(w, pos, at, step))
  }

  lemma ApproachGains(w: World, k: Walker, goal: Option<EntityId>, at: Vec3, step: real, now: real)
    requires IsRoot(w.root) && Clear(w, k.pos, at, step)
    ensures Flat(w, Approach(w, k, goal, at, step, now).pos, at) == Flat(w, k.pos, at) - step
    ensures k.stuck == None ==> Approach(w, k, goal, at, step, now).stuck == None
  {
    StepShortens(w, k.pos, at, step);
  }

  /** A chase's stride, as its enrage and its snare leave it. */
  lemma ChaseStrideIs(c: Mob, dt: real)
    ensures SnaredStrideOf(c.template, c.enrage, c.cc, dt) ==
      c.template.speed * Fury(c.enrage) * Loose(SnarePct(c.cc)) * dt
    ensures Stride(c, dt) == c.template.speed * Fury(c.enrage) * dt
  {
  }

  /** Where a tick of a chase with nobody to turn to leaves it: a stride on, or rooted where it was. */
  lemma ChasePosition(m: Mob, m': Mob, w: World, x: Senses, at: Vec3, step: real)
    requires m.state.Chase? && ChaseStep(m, m', w, x.targets, x.dt, x.now)
    requires m.target.Some? && m.threat.Keys <= {m.target.value} && TargetPos(x.targets, m.target.value) == Some(at)
    requires MeleeRange(m.template) < Dist(w, m.pos, at) <= LeashRange(m.template)
    requires step == SnaredStrideOf(m.template, m.enrage, m.cc, x.dt)
    ensures m'.pos ==
      if Rooted(m.cc) then m.pos else Approach(w, Walker(m.pos, m.stuck), m.target, at, step, x.now).pos
  {
    var rival: Option<EntityId>, hater: Option<EntityId> :| ChaseBy(m, m', w, x.targets, x.dt, x.now, rival, hater);
    assert Switched(m, rival) == m;
    CasePosition(m, ChaseCaseOf(m, w, x.targets, x.dt, x.now), m', w, x, hater, at, step);
  }

  lemma CasePosition(m: Mob, c: ChaseCase, m': Mob, w: World, x: Senses, hater: Option<EntityId>, at: Vec3, step: real)
    requires m.target.Some? && ChaseDoes(m, c, m', w, x.targets, x.now, hater)
    requires
      var k := Approach(w, Walker(m.pos, m.stuck), m.target, at, step, x.now);
      c == if Rooted(m.cc) then Held else if RanOut(k.stuck, x.now) then GivesUp(k) else Walking(k)
    ensures m'.pos ==
      if Rooted(m.cc) then m.pos else Approach(w, Walker(m.pos, m.stuck), m.target, at, step, x.now).pos
  {
  }

  /** A chase with nobody to turn to gains exactly its snared stride; rooted, nothing. */
  lemma ChaseStride(m: Mob, m': Mob, hit: Option<Hit>, w: World, x: Senses, at: Vec3, step: real)
    requires IsRoot(w.root) && m.state.Chase? && AiStep(m, m', hit, w, x) && !Frozen(TickCc(m.cc, x.dt))
    requires m.target.Some? && m.threat.Keys <= {m.target.value} && TargetPos(x.targets, m.target.value) == Some(at)
    requires MeleeRange(m.template) < Dist(w, m.pos, at) <= LeashRange(m.template)
    requires step == SnaredStrideOf(m.template, m.enrage, TickCc(m.cc, x.dt), x.dt)
    ensures Rooted(TickCc(m.cc, x.dt)) ==> m'.pos == m.pos
    ensures !Rooted(TickCc(m.cc, x.dt)) && Clear(w, m.pos, at, step) ==>
      Flat(w, m'.pos, at) == Flat(w, m.pos, at) - step
  {
    var c := m.(cc := TickCc(m.cc, x.dt));
    ChaseGains(c, m', w, x, at, step);
  }

  lemma ChaseGains(m: Mob, m': Mob, w: World, x: Senses, at: Vec3, step: real)
    requires IsRoot(w.root) && m.state.Chase? && ChaseStep(m, m', w, x.targets, x.dt, x.now)
    requires m.target.Some? && m.threat.Keys <= {m.target.value} && TargetPos(x.targets, m.target.value) == Some(at)
    requires MeleeRange(m.template) < Dist(w, m.pos, at) <= LeashRange(m.template)
    requires step == SnaredStrideOf(m.template, m.enrage, m.cc, x.dt)
    ensures Rooted(m.cc) ==> m'.pos == m.pos
    ensures !Rooted(m.cc) && Clear(w, m.pos, at, step) ==> Flat(w, m'.pos, at) == Flat(w, m.pos, at) - step
  {
    ChasePosition(m, m', w, x, at, step);
    if Clear(w, m.pos, at, step) {
      ApproachGains(w, Walker(m.pos, m.stuck), m.target, at, step, x.now);
    }
  }

  lemma HomePosition(m: Mob, w: World, dt: real, now: real, step: real)
    requires !IsHome(m, w) && m.stuck == None && step == Stride(m, dt)
    ensures
      var k := Approach(w, Walker(m.pos, None), None, m.home, step, now);
      k.stuck == None ==> LeashStep(m, w, dt, now).pos == k.pos
  {
  }

  /** The walk home gains its whole stride, snared and rooted as it may be. */
  lemma HomeStride(m: Mob, m': Mob, hit: Option<Hit>, w: World, x: Senses, step: real)
    requires IsRoot(w.root) && m.state.Leash? && AiStep(m, m', hit, w, x) && !Frozen(TickCc(m.cc, x.dt))
    requires !IsHome(m, w) && m.stuck == None
    requires step == Stride(m, x.dt) && Clear(w, m.pos, m.home, step)
    ensures Flat(w, m'.pos, m.home) == Flat(w, m.pos, m.home) - step
  {
    var c := m.(cc := TickCc(m.cc, x.dt));
    HomePosition(c, w, x.dt, x.now, step);
    ApproachGains(w, Walker(m.pos, None), None, m.home, step, x.now);
  }

  /** A pet's stride, as its fastest speed buff, its enrage and its snare leave it. */
  lemma PetStrideIs(m: Mob, dt: real)
    ensures PetStride(m, dt) == m.template.speed * Fury(m.enrage) * SpeedMult(m.buffs) * Loose(SnarePct(m.cc)) * dt
  {
  }

  lemma PetPosition(m: Mob, w: World, foe: Foe, dt: real, now: real, step: real)
    requires m.target == Some(foe.id) && Dist(w, m.pos, foe.pos) > MeleeRange(m.template) && step == PetStride(m, dt)
    ensures Engage(m, w, foe, dt, now).pet.pos ==
      if Rooted(m.cc) then m.pos else Approach(w, Walker(m.pos, m.stuck), Some(foe.id), foe.pos, step, now).pos
  {
  }

  /** A pet closing on a foe out of melee gains its stride; rooted, nothing. */
  lemma PetClosesIn(m: Mob, stance: Stance, owner: EntityId, w: World, foes: seq<Foe>, x: Senses, foe: Foe, step: real)
    requires IsRoot(w.root) && !stance.Sit? && !Frozen(TickCc(m.cc, x.dt))
    requires TargetFoe(m, foes) == Some(foe) && foe.alive && Dist(w, m.pos, foe.pos) > MeleeRange(m.template)
    requires step == PetStride(m.(cc := TickCc(m.cc, x.dt)), x.dt)
    ensures
      var after := PetTurn(m, stance, owner, w, foes, x).pet;
      && (Rooted(TickCc(m.cc, x.dt)) ==> after.pos == m.pos)
      && (!Rooted(TickCc(m.cc, x.dt)) && Clear(w, m.pos, foe.pos, step) ==>
            Flat(w, after.pos, foe.pos) == Flat(w, m.pos, foe.pos) - step)
  {
    var c := m.(cc := TickCc(m.cc, x.dt));
    TurnIsEngage(m, stance, owner, w, foes, x, foe);
    EngageGains(c, w, foe, x.dt, x.now, step);
  }

  lemma TurnIsEngage(m: Mob, stance: Stance, owner: EntityId, w: World, foes: seq<Foe>, x: Senses, foe: Foe)
    requires !stance.Sit? && !Frozen(TickCc(m.cc, x.dt)) && TargetFoe(m, foes) == Some(foe) && foe.alive
    ensures m.target == Some(foe.id)
    ensures PetTurn(m, stance, owner, w, foes, x) == Engage(m.(cc := TickCc(m.cc, x.dt)), w, foe, x.dt, x.now)
  {
    FoundIsNamed(foes, m.target.value);
  }

  lemma EngageGains(m: Mob, w: World, foe: Foe, dt: real, now: real, step: real)
    requires IsRoot(w.root) && m.target == Some(foe.id) && Dist(w, m.pos, foe.pos) > MeleeRange(m.template)
    requires step == PetStride(m, dt)
    ensures Rooted(m.cc) ==> Engage(m, w, foe, dt, now).pet.pos == m.pos
    ensures !Rooted(m.cc) && Clear(w, m.pos, foe.pos, step) ==>
      Flat(w, Engage(m, w, foe, dt, now).pet.pos, foe.pos) == Flat(w, m.pos, foe.pos) - step
  {
    PetPosition(m, w, foe, dt, now, step);
    if Clear(w, m.pos, foe.pos, step) {
      ApproachGains(w, Walker(m.pos, m.stuck), Some(foe.id), foe.pos, step, now);
    }
  }

  lemma HeelPosition(m: Mob, stance: Stance, owner: EntityId, w: World, targets: Targets, dt: real, now: real,
      at: Vec3, step: real)
    requires TargetPos(targets, owner) == Some(at) && m.stuck == None && step == PetStride(m, dt)
    ensures
      var k, after := Approach(w, Walker(m.pos, None), Some(owner), at, step, now),
                      Heel(m, stance, owner, w, targets, dt, now);
      && (stance.Guard? || Rooted(m.cc) || Dist(w, m.pos, at) <= PET_FOLLOW_DISTANCE ==> after.pos == m.pos)
      && (!stance.Guard? && !Rooted(m.cc) && Dist(w, m.pos, at) > PET_FOLLOW_DISTANCE && k.stuck == None ==>
            after.pos == k.pos)
  {
  }

  /** A pet with nothing to fight closes on its owner as fast; on guard, rooted or near enough already, it stays. */
  lemma PetFollows(m: Mob, stance: Stance, owner: EntityId, w: World, foes: seq<Foe>, x: Senses, at: Vec3, step: real)
    requires IsRoot(w.root) && !stance.Sit? && !Frozen(TickCc(m.cc, x.dt))
    requires m.target == None && m.stuck == None && TargetPos(x.targets, owner) == Some(at)
    requires step == PetStride(m.(cc := TickCc(m.cc, x.dt)), x.dt)
    ensures
      var after := PetTurn(m, stance, owner, w, foes, x).pet;
      var stays := stance.Guard? || Rooted(TickCc(m.cc, x.dt)) || Dist(w, m.pos, at) <= PET_FOLLOW_DISTANCE;
      && (stays ==> after.pos == m.pos)
      && (!stays && Clear(w, m.pos, at, step) ==> Flat(w, after.pos, at) == Flat(w, m.pos, at) - step)
  {
    var c := m.(cc := TickCc(m.cc, x.dt));
    assert PetTurn(m, stance, owner, w, foes, x).pet == Heel(c, stance, owner, w, x.targets, x.dt, x.now);
    HeelPosition(c, stance, owner, w, x.targets, x.dt, x.now, at, step);
    if Clear(w, m.pos, at, step) {
      ApproachGains(w, Walker(m.pos, None), Some(owner), at, step, x.now);
    }
  }

  // ------------------------------------------------------- when a walk is given up

  /** A chase with nobody to turn to goes on until its stuck clock runs out, and then turns for home. */
  lemma ChaseGivenUpIff(m: Mob, m': Mob, w: World, x: Senses, at: Vec3)
    requires m.state.Chase? && ChaseStep(m, m', w, x.targets, x.dt, x.now)
    requires m.target.Some? && m.threat.Keys <= {m.target.value} && TargetPos(x.targets, m.target.value) == Some(at)
    requires MeleeRange(m.template) < Dist(w, m.pos, at) <= LeashRange(m.template) && !Rooted(m.cc)
    ensures
      var k := Approach(w, Walker(m.pos, m.stuck), m.target, at, SnaredStrideOf(m.template, m.enrage, m.cc, x.dt),
        x.now);
      if RanOut(k.stuck, x.now) then m'.state.Leash? && m'.target == None && m'.stuck == None
      else m'.state.Chase? && m'.target == m.target && m'.stuck == k.stuck
  {
    var rival: Option<EntityId>, hater: Option<EntityId> :| ChaseBy(m, m', w, x.targets, x.dt, x.now, rival, hater);
    assert Switched(m, rival) == m;
    PursuitEnds(m, ChaseCaseOf(m, w, x.targets, x.dt, x.now), m', w, x, hater);
  }

  lemma PursuitEnds(m: Mob, c: ChaseCase, m': Mob, w: World, x: Senses, hater: Option<EntityId>)
    requires m.state.Chase? && m.target.Some? && m.threat.Keys <= {m.target.value}
    requires (c.GivesUp? || c.Walking?) && ChaseDoes(m, c, m', w, x.targets, x.now, hater)
    ensures c.GivesUp? ==> m'.state.Leash? && m'.target == None && m'.stuck == None
    ensures c.Walking? ==> m'.state.Chase? && m'.target == m.target && m'.stuck == c.k.stuck
  {
  }

  /** A walk home warps there exactly when its stuck clock runs out, and else walks on. */
  lemma HomeWarpsIff(m: Mob, w: World, dt: real, now: real)
    requires !IsHome(m, w)
    ensures
      var k := Approach(w, Walker(m.pos, m.stuck), None, m.home, Stride(m, dt), now);
      LeashStep(m, w, dt, now) ==
        if RanOut(k.stuck, now) then m.(pos := GroundVec(w, m.home), stuck := None)
        else m.(pos := k.pos, stuck := k.stuck)
  {
  }

  /** A pet far from its owner warps to them exactly when its stuck clock runs out, and else walks on. */
  lemma PetWarpsIff(m: Mob, owner: EntityId, w: World, targets: Targets, dt: real, now: real, at: Vec3)
    requires TargetPos(targets, owner) == Some(at) && Dist(w, m.pos, at) > PET_FOLLOW_DISTANCE && !Rooted(m.cc)
    ensures
      var k := Approach(w, Walker(m.pos, m.stuck), Some(owner), at, PetStride(m, dt), now);
      Heel(m, Follow, owner, w, targets, dt, now) ==
        if RanOut(k.stuck, now) then m.(pos := GroundVec(w, at), stuck := None)
        else m.(pos := k.pos, stuck := k.stuck)
  {
  }
}
