/**
 A pet's own turn: it fights the target it was given, or follows its owner, and
 warps to one it cannot reach.
 */
module PetAi {
  import opened Options
  import opened Reals
  import opened Geometry
  import opened Walk
  import opened Mob
  import PetBuffs

  const PET_FOLLOW_DISTANCE: real := 3.0

  datatype Stance = Follow | Guard | Sit

  /** What a pet sees of a possible target: where it is, and whether it is alive. */
  datatype Foe = Foe(id: EntityId, pos: Vec3, alive: bool)

  datatype Turn = Turn(pet: Mob, hit: Option<Hit>)

  function FoeOf(foes: seq<Foe>, id: EntityId): Option<Foe> {
    if foes == [] then None else if foes[0].id == id then Some(foes[0]) else FoeOf(foes[1..], id)
  }

  /** The foe of its target, as this turn's snapshot has it. */
  function TargetFoe(m: Mob, foes: seq<Foe>): Option<Foe> {
    if m.target.None? then None else FoeOf(foes, m.target.value)
  }

  /** The strongest speed buff in force, never below one. */
  function SpeedMult(buffs: seq<PetBuffs.Buff>): real {
    if buffs == [] then 1.0
    else
      var rest := SpeedMult(buffs[1..]);
      if buffs[0].effect.Speed? && buffs[0].effect.mult > rest then buffs[0].effect.mult else rest
  }

  /** The speed buff in force is the fastest held, or none. */
  lemma {:induction false} FastestInForce(buffs: seq<PetBuffs.Buff>)
    ensures SpeedMult(buffs) >= 1.0
    ensures forall b :: b in buffs && b.effect.Speed? ==> b.effect.mult <= SpeedMult(buffs)
    ensures SpeedMult(buffs) == 1.0 || exists b :: b in buffs && b.effect == PetBuffs.Speed(SpeedMult(buffs))
  {
    if buffs != [] {
      FastestInForce(buffs[1..]);
      assert buffs[0] in buffs && forall b :: b in buffs[1..] ==> b in buffs;
    }
  }

  function PetStrideOf(t: Template, enrage: Option<Enrage>, buffs: seq<PetBuffs.Buff>, cc: seq<Cc>, dt: real): real {
    EnragedSpeedOf(t, enrage) * SpeedMult(buffs) * (1.0 - SnarePct(cc) as real / 100.0) * dt
  }

  function PetStride(m: Mob, dt: real): real {
    PetStrideOf(m.template, m.enrage, m.buffs, m.cc, dt)
  }

  /** Fighting a live target: swing in reach, close in otherwise, drop one it cannot reach. */
  function Engage(m: Mob, w: World, foe: Foe, dt: real, now: real): Turn {
    if Dist(w, m.pos, foe.pos) <= MeleeRange(m.template) then
      var held := m.(stuck := None);
      if SwingDue(m, now) then Turn(held.(lastAttackAt := Some(now)), Some(Hit(foe.id, SwingDamage(m))))
        else Turn(held, None)
    else if Rooted(m.cc) then Turn(m, None)
    else
      var k := Approach(w, Walker(m.pos, m.stuck), Some(foe.id), foe.pos, PetStride(m, dt), now);
      Turn(if RanOut(k.stuck, now) then m.(pos := k.pos, stuck := None, target := None)
           else m.(pos := k.pos, stuck := k.stuck), None)
  }

  /** With nothing to fight: hold the ground on guard, or follow the owner, warping to one out of reach. */
  function Heel(m: Mob, stance: Stance, owner: EntityId, w: World, targets: Targets, dt: real, now: real): Mob {
    if stance.Guard? then m.(stuck := None)
    else if TargetPos(targets, owner).None? then m
    else
      var at := TargetPos(targets, owner).value;
      if Dist(w, m.pos, at) > PET_FOLLOW_DISTANCE && !Rooted(m.cc) then
        var k := Approach(w, Walker(m.pos, m.stuck), Some(owner), at, PetStride(m, dt), now);
        if RanOut(k.stuck, now) then m.(pos := GroundVec(w, at), stuck := None)
        else m.(pos := k.pos, stuck := k.stuck)
      else m.(stuck := None)
  }

  /** `tick_pet_ai`. A target found dead is dropped; one not found at all is kept. */
  function PetStep(m: Mob, stance: Stance, owner: EntityId, w: World, foes: seq<Foe>, x: Senses): Turn {
    if stance.Sit? then Turn(m.(target := None), None)
    else
      var foe := TargetFoe(m, foes);
      if foe.Some? && foe.value.alive then Engage(m, w, foe.value, x.dt, x.now)
      else Turn(Heel(if foe.Some? then m.(target := None) else m, stance, owner, w, x.targets, x.dt, x.now), None)
  }

  /** A pet's whole AI tick: crowd control first, then, unless frozen, its turn. */
  function PetTurn(m: Mob, stance: Stance, owner: EntityId, w: World, foes: seq<Foe>, x: Senses): Turn {
    var c := m.(cc := TickCc(m.cc, x.dt));
    if Frozen(c.cc) then Turn(c, None) else PetStep(c, stance, owner, w, foes, x)
  }

  lemma {:induction false} FoundIsNamed(foes: seq<Foe>, id: EntityId)
    ensures FoeOf(foes, id).Some? ==> FoeOf(foes, id).value.id == id && FoeOf(foes, id).value in foes
  {
    if foes != [] {
      FoundIsNamed(foes[1..], id);
    }
  }

  /**
   A pet answers to its owner: on its own turn it never picks a target, never leaves
   its state, forgets no hate and heals nothing; what it strikes is the target it
   had, alive and in reach, and never while it sits.
   */
  lemma PetAnswersToItsOwner(m: Mob, stance: Stance, owner: EntityId, w: World, foes: seq<Foe>, x: Senses)
    ensures
      var turn := PetTurn(m, stance, owner, w, foes, x);
      && (turn.pet.target == m.target || turn.pet.target == None)
      && turn.pet.state == m.state && turn.pet.vitals == m.vitals
      && turn.pet.threat == m.threat && turn.pet.aggro == m.aggro && turn.pet.dots == m.dots
      && (turn.hit.Some? ==>
            && !stance.Sit? && m.target == Some(turn.hit.value.target) && turn.pet.pos == m.pos
            && (exists f :: f in foes && f.id == turn.hit.value.target && f.alive
                            && Dist(w, m.pos, f.pos) <= MeleeRange(m.template)))
  {
    if m.target.Some? {
      FoundIsNamed(foes, m.target.value);
    }
    var c := m.(cc := TickCc(m.cc, x.dt));
    if !Frozen(c.cc) && !stance.Sit? {
      var foe := TargetFoe(m, foes);
      if foe.Some? && foe.value.alive {
        EngageKeeps(c, w, foe.value, x.dt, x.now);
      }
    }
  }

  lemma EngageKeeps(m: Mob, w: World, foe: Foe, dt: real, now: real)
    requires m.target == Some(foe.id)
    ensures
      var turn := Engage(m, w, foe, dt, now);
      && (turn.pet.target == m.target || turn.pet.target == None)
      && turn.pet.state == m.state && turn.pet.vitals == m.vitals
      && turn.pet.threat == m.threat && turn.pet.aggro == m.aggro && turn.pet.dots == m.dots
      && (turn.hit.Some? ==>
            && turn.hit.value.target == foe.id && turn.pet.pos == m.pos
            && Dist(w, m.pos, foe.pos) <= MeleeRange(m.template))
  {
  }

  // ------------------------------------------------------- when it lets a target go

  /** A target is let go when it is found dead, or found alive and given up as out of reach. */
  predicate LetsGo(m: Mob, w: World, foes: seq<Foe>, x: Senses) {
    var foe := TargetFoe(m, foes);
    foe.Some? &&
    (!foe.value.alive ||
     (Dist(w, m.pos, foe.value.pos) > MeleeRange(m.template) && !Rooted(m.cc)
      && RanOut(Approach(w, Walker(m.pos, m.stuck), m.target, foe.value.pos, PetStride(m, x.dt), x.now).stuck, x.now)))
  }

  /** A free pet that is not sitting ends its turn without its target exactly when it lets it go. */
  lemma TargetDroppedIff(m: Mob, stance: Stance, owner: EntityId, w: World, foes: seq<Foe>, x: Senses)
    requires m.target.Some? && !stance.Sit? && !Frozen(TickCc(m.cc, x.dt))
    ensures PetTurn(m, stance, owner, w, foes, x).pet.target == None
      <==> LetsGo(m.(cc := TickCc(m.cc, x.dt)), w, foes, x)
  {
    FoundIsNamed(foes, m.target.value);
    var c := m.(cc := TickCc(m.cc, x.dt));
    assert TargetFoe(c, foes) == FoeOf(foes, m.target.value);
  }

  /** A target that is nowhere in the snapshot is kept, turn after turn, by any pet that does not sit. */
  lemma MissingTargetIsKept(m: Mob, stance: Stance, owner: EntityId, w: World, foes: seq<Foe>, x: Senses)
    requires !stance.Sit? && TargetFoe(m, foes) == None
    ensures PetTurn(m, stance, owner, w, foes, x).pet.target == m.target
    ensures m.target == Some(7) && foes == [] ==> PetTurn(m, Guard, owner, w, [], x).pet.target == Some(7)
  {
  }

  /** A pet told to sit, once free, drops its target, strikes nobody and stays where it is. */
  lemma SittingPetRests(m: Mob, owner: EntityId, w: World, foes: seq<Foe>, x: Senses)
    ensures
      var turn := PetTurn(m, Sit, owner, w, foes, x);
      turn.hit == None && turn.pet.pos == m.pos && (!Frozen(TickCc(m.cc, x.dt)) ==> turn.pet.target == None)
  {
  }

  /** A pet that stays where it is, on guard or near enough to its owner, has no walk to be stuck on. */
  lemma StayingStopsTheClock(m: Mob, stance: Stance, owner: EntityId, w: World, targets: Targets, dt: real, now: real)
    ensures
      var after, at := Heel(m, stance, owner, w, targets, dt, now), TargetPos(targets, owner);
      stance.Guard? || (at.Some? && (Rooted(m.cc) || Dist(w, m.pos, at.value) <= PET_FOLLOW_DISTANCE)) ==>
        after == m.(stuck := None)
  {
  }

  // -------------------------------------------------------------- it follows

  /** Near its owner, now or after one of these turns. */
  predicate ComesToHeel(m: Mob, owner: EntityId, at: Vec3, w: World, foes: seq<Foe>, xs: seq<Senses>)
    decreases |xs|
  {
    Dist(w, m.pos, at) <= PET_FOLLOW_DISTANCE
    || (xs != [] && ComesToHeel(PetTurn(m, Follow, owner, w, foes, xs[0]).pet, owner, at, w, foes, xs[1..]))
  }

  /** Turns from time `t` on, `gap` apart at least, the owner standing at `at` through all of them. */
  predicate Waits(owner: EntityId, at: Vec3, xs: seq<Senses>, gap: real, t: real) {
    xs == [] || (xs[0].now >= t && TargetPos(xs[0].targets, owner) == Some(at)
      && Waits(owner, at, xs[1..], gap, xs[0].now + gap))
  }

  /** A pace of `s` at least, turn after turn. */
  predicate Strides(m: Mob, owner: EntityId, w: World, foes: seq<Foe>, xs: seq<Senses>, s: real)
    decreases |xs|
  {
    xs == [] ||
    (PetStride(m.(cc := TickCc(m.cc, xs[0].dt)), xs[0].dt) >= s
     && Strides(PetTurn(m, Follow, owner, w, foes, xs[0]).pet, owner, w, foes, xs[1..], s))
  }

  predicate Free(m: Mob) {
    m.target == None && !Frozen(m.cc) && !Rooted(m.cc)
  }

  lemma {:induction false} TickCcRootsNobody(cc: seq<Cc>, dt: real)
    ensures Rooted(TickCc(cc, dt)) ==> Rooted(cc)
  {
    TickCcOnlyRemoves(cc, dt);
  }

  lemma HeelTurn(m: Mob, owner: EntityId, at: Vec3, w: World, foes: seq<Foe>, x: Senses, s: real, gap: real, t: real)
    requires IsRoot(w.root) && GroundVec(w, at) == at && s > 0.0 && gap > 0.0
    requires Free(m) && ClockStarted(Walker(m.pos, m.stuck), t) && x.now >= t && TargetPos(x.targets, owner) == Some(at)
    requires Dist(w, m.pos, at) > PET_FOLLOW_DISTANCE && PetStride(m.(cc := TickCc(m.cc, x.dt)), x.dt) >= s
    ensures
      var m' := PetTurn(m, Follow, owner, w, foes, x).pet;
      && Free(m') && ClockStarted(Walker(m'.pos, m'.stuck), x.now + gap)
      && (m'.pos == at
          || Budget(w, Walker(m'.pos, m'.stuck), Some(owner), at, s, gap, x.now + gap)
             < Budget(w, Walker(m.pos, m.stuck), Some(owner), at, s, gap, t))
  {
    TickCcOnlyRemoves(m.cc, x.dt);
    TickCcRootsNobody(m.cc, x.dt);
    var c := m.(cc := TickCc(m.cc, x.dt));
    var step := PetStride(c, x.dt);
    ApproachSpends(w, Walker(m.pos, m.stuck), Some(owner), at, step, s, gap, x.now, x.now + gap);
    WaitingSpends(w, Walker(m.pos, m.stuck), Some(owner), at, s, gap, t, x.now);
  }

  /**
   A free pet with nothing to fight comes to an owner who stands still on the ground:
   over any terrain, within the budget of its walk, it is at heel.
   */
  lemma {:induction false} PetComesToHeel(m: Mob, owner: EntityId, at: Vec3, w: World, foes: seq<Foe>,
      xs: seq<Senses>, s: real, gap: real, t: real)
    requires IsRoot(w.root) && GroundVec(w, at) == at && s > 0.0 && gap > 0.0
    requires Free(m) && ClockStarted(Walker(m.pos, m.stuck), t)
    requires Waits(owner, at, xs, gap, t) && Strides(m, owner, w, foes, xs, s)
    requires |xs| >= Budget(w, Walker(m.pos, m.stuck), Some(owner), at, s, gap, t)
    ensures ComesToHeel(m, owner, at, w, foes, xs)
    decreases |xs|
  {
    if Dist(w, m.pos, at) > PET_FOLLOW_DISTANCE {
      BudgetPositive(w, Walker(m.pos, m.stuck), Some(owner), at, s, gap, t);
      HeelTurn(m, owner, at, w, foes, xs[0], s, gap, t);
      var m' := PetTurn(m, Follow, owner, w, foes, xs[0]).pet;
      if m'.pos == at {
        DistToSelf(w, at);
      } else {
        PetComesToHeel(m', owner, at, w, foes, xs[1..], s, gap, xs[0].now + gap);
      }
    }
  }
}
