/**
 When a pet strikes: every turn its swing timer is up with its target alive and in
 reach, and so over a whole fight as often as its pause and its turns allow.
 */
module PetBlows {
  import opened Options
  import opened Reals
  import opened Geometry
  import opened Mob
  import opened PetAi
  import opened MobFights
  import opened MobBlows

  /** The target a pet has is in the snapshot, alive and in melee. */
  predicate FoeAtHand(m: Mob, w: World, foes: seq<Foe>) {
    var foe := TargetFoe(m, foes);
    foe.Some? && foe.value.alive && Dist(w, m.pos, foe.value.pos) <= MeleeRange(m.template)
  }

  /** A pet strikes exactly when it is free, not sitting, rested, and its target is alive and in reach. */
  lemma PetStrikesIff(m: Mob, stance: Stance, owner: EntityId, w: World, foes: seq<Foe>, x: Senses)
    ensures
      var c, turn := m.(cc := TickCc(m.cc, x.dt)), PetTurn(m, stance, owner, w, foes, x);
      && (turn.hit.Some? <==> !Frozen(c.cc) && !stance.Sit? && FoeAtHand(m, w, foes) && Rested(c, x.now))
      && (turn.hit.Some? ==> turn.hit.value.target == m.target.value && turn.hit.value.amount == SwingDamage(c))
      && turn.pet.lastAttackAt == (if turn.hit.Some? then Some(x.now) else m.lastAttackAt)
      && (!Frozen(c.cc) && !stance.Sit? && FoeAtHand(m, w, foes) ==>
            turn.pet.target == m.target && turn.pet.pos == m.pos)
  {
    if m.target.Some? {
      FoundIsNamed(foes, m.target.value);
      var foe := TargetFoe(m, foes);
      if foe.Some? && foe.value.alive {
        EngageStrikesIff(m.(cc := TickCc(m.cc, x.dt)), w, foe.value, x.dt, x.now);
      }
    }
  }

  lemma EngageStrikesIff(c: Mob, w: World, foe: Foe, dt: real, now: real)
    requires c.target == Some(foe.id)
    ensures
      var turn, atHand := Engage(c, w, foe, dt, now), Dist(w, c.pos, foe.pos) <= MeleeRange(c.template);
      && (turn.hit.Some? <==> atHand && Rested(c, now))
      && (turn.hit.Some? ==> turn.hit.value.target == foe.id && turn.hit.value.amount == SwingDamage(c))
      && turn.pet.lastAttackAt == (if turn.hit.Some? then Some(now) else c.lastAttackAt)
      && (atHand ==> turn.pet.target == c.target && turn.pet.pos == c.pos)
  {
  }

  /** One turn's senses: what a mob is told, and the foes a pet is told of. */
  datatype Moment = Moment(foes: seq<Foe>, x: Senses)

  function BlowsOver(m: Mob, stance: Stance, owner: EntityId, w: World, turns: seq<Moment>): nat
    decreases |turns|
  {
    if turns == [] then 0
    else
      var turn := PetTurn(m, stance, owner, w, turns[0].foes, turns[0].x);
      (if turn.hit.Some? then 1 else 0) + BlowsOver(turn.pet, stance, owner, w, turns[1..])
  }

  /** Turns no further apart than `gap`, the pet free and its target at hand in each. */
  predicate PetPressed(m: Mob, stance: Stance, owner: EntityId, w: World, turns: seq<Moment>, pause: real, gap: real,
      t: real)
    decreases |turns|
  {
    turns == [] ||
    (var foes, x := turns[0].foes, turns[0].x;
     && !Frozen(TickCc(m.cc, x.dt)) && FoeAtHand(m, w, foes) && t <= x.now <= t + gap
     && PauseWithin(m.(cc := TickCc(m.cc, x.dt)), pause)
     && PetPressed(PetTurn(m, stance, owner, w, foes, x).pet, stance, owner, w, turns[1..], pause, gap, x.now))
  }

  function LastTurn(turns: seq<Moment>, t: real): real {
    if turns == [] then t else LastTurn(turns[1..], turns[0].x.now)
  }

  /** Over any turns with its target at hand, a pet not sitting strikes once for every pause and turn of the time. */
  lemma {:induction false} PetBlowsKeepUp(m: Mob, stance: Stance, owner: EntityId, w: World, turns: seq<Moment>,
      since: real, t: real, pause: real, gap: real)
    requires !stance.Sit? && m.lastAttackAt == Some(since) && since <= t && t - since < pause && gap >= 0.0
    requires PetPressed(m, stance, owner, w, turns, pause, gap, t)
    ensures LastTurn(turns, t) - since < TimeFor(BlowsOver(m, stance, owner, w, turns) + 1, pause + gap)
    decreases |turns|
  {
    if turns == [] {
      OneMore(0, pause + gap);
    } else {
      var foes, x := turns[0].foes, turns[0].x;
      var turn := PetTurn(m, stance, owner, w, foes, x);
      PetStrikesIff(m, stance, owner, w, foes, x);
      if turn.hit.None? {
        UnrestedStruckLately(m.(cc := TickCc(m.cc, x.dt)), x.now, since, pause);
      }
      var next := if turn.hit.Some? then x.now else since;
      PetBlowsKeepUp(turn.pet, stance, owner, w, turns[1..], next, x.now, pause, gap);
      OneMore(BlowsOver(turn.pet, stance, owner, w, turns[1..]) + 1, pause + gap);
    }
  }
}
