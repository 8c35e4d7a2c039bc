/**
 A pet's cap and hit points under any buffs, raising or lowering: when the cap is its
 base plus the deltas that hold, and when hit points stay within it, over whole runs.
 */
module PetCaps {
  import opened Reals
  import opened PetBuffs

  // -------------------------------------------------- the states a run passes through

  /** The states of a pet as a tick's expired buffs are taken off one by one, `kept` looked at and `buffs` yet to be. */
  function Shedding(v: Vitals, kept: seq<Buff>, buffs: seq<Buff>): seq<Pet>
    decreases |buffs|
  {
    if buffs == [] then []
    else if buffs[0].remaining > 0.0 then Shedding(v, kept + [buffs[0]], buffs[1..])
    else [Pet(Lost(v, buffs[0]), kept + buffs[1..])] + Shedding(Lost(v, buffs[0]), kept, buffs[1..])
  }

  /** The vitals a cast finds, a namesake taken off first. */
  function Found(p: Pet, b: Buff): Vitals {
    var i := IndexOf(p.buffs, b.name);
    if i == |p.buffs| then p.vitals else Lost(p.vitals, p.buffs[i])
  }

  /** Every state an event takes a pet through: a namesake's removal, and each removal of a tick, included. */
  function Within(p: Pet, e: Event): seq<Pet> {
    match e
    case Cast(b) =>
      var i := IndexOf(p.buffs, b.name);
      (if i == |p.buffs| then [] else [Pet(Found(p, b), Dropped(p.buffs, i))]) + [Applied(p, b)]
    case Tick(dt) => Shedding(p.vitals, [], TickedAll(p.buffs, dt)) + [TickBuffs(p, dt)]
  }

  function Through(p: Pet, es: seq<Event>): seq<Pet>
    decreases |es|
  {
    if es == [] then [] else Within(p, es[0]) + Through(Step(p, es[0]), es[1..])
  }

  // ------------------------------------------------------------------------- the cap

  /** The cap is its base and the deltas of the buffs that hold. */
  predicate CapTrue(p: Pet, base: real) {
    p.vitals.maxHp == base + HpSum(p.buffs)
  }

  /** The base and the deltas that hold leave room above the floor. */
  predicate Roomy(p: Pet, base: real) {
    base + HpSum(p.buffs) >= 1.0
  }

  /** From one state to the next the cap moves as the deltas that hold do, down to the floor of one. */
  predicate Follows(p: Pet, q: Pet) {
    var d := HpSum(q.buffs) - HpSum(p.buffs);
    (d == 0.0 && q.vitals.maxHp == p.vitals.maxHp) || q.vitals.maxHp == Max(p.vitals.maxHp + d, 1.0)
  }

  predicate Chain(p: Pet, qs: seq<Pet>)
    decreases |qs|
  {
    qs == [] || (Follows(p, qs[0]) && Chain(qs[0], qs[1..]))
  }

  function End(p: Pet, qs: seq<Pet>): Pet {
    if qs == [] then p else qs[|qs| - 1]
  }

  lemma {:induction false} ChainConcat(p: Pet, a: seq<Pet>, b: seq<Pet>)
    requires Chain(p, a) && Chain(End(p, a), b)
    ensures Chain(p, a + b) && End(p, a + b) == End(End(p, a), b)
    decreases |a|
  {
    if a == [] {
      assert a + b == b;
    } else {
      assert (a + b)[1..] == a[1..] + b && End(a[0], a[1..]) == End(p, a);
      ChainConcat(a[0], a[1..], b);
    }
  }

  lemma ChainFirst(p: Pet, q: Pet, rest: seq<Pet>)
    requires Follows(p, q) && Chain(q, rest)
    ensures Chain(p, [q] + rest) && End(p, [q] + rest) == End(q, rest)
  {
    assert ([q] + rest)[1..] == rest;
  }

  lemma {:induction false} SheddingFollows(p: Pet, v: Vitals, kept: seq<Buff>, buffs: seq<Buff>)
    requires p.vitals.maxHp == v.maxHp && HpSum(p.buffs) == HpSum(kept) + HpSum(buffs)
    ensures Chain(p, Shedding(v, kept, buffs))
    ensures End(p, Shedding(v, kept, buffs)).vitals.maxHp == Shed(v, buffs).maxHp
    ensures HpSum(End(p, Shedding(v, kept, buffs)).buffs) == HpSum(kept) + HpSum(Holding(buffs))
    decreases |buffs|
  {
    if buffs != [] {
      var b := buffs[0];
      if b.remaining > 0.0 {
        SumOfOne(b);
        HpSumConcat(kept, [b]);
        SheddingFollows(p, v, kept + [b], buffs[1..]);
        HpSumConcat([b], Holding(buffs[1..]));
      } else {
        var q := Pet(Lost(v, b), kept + buffs[1..]);
        HpSumConcat(kept, buffs[1..]);
        SheddingFollows(q, Lost(v, b), kept, buffs[1..]);
        ChainFirst(p, q, Shedding(Lost(v, b), kept, buffs[1..]));
      }
    }
  }

  lemma TickFollows(p: Pet, dt: real)
    ensures Chain(p, Within(p, Tick(dt))) && End(p, Within(p, Tick(dt))) == TickBuffs(p, dt)
  {
    var ticked := TickedAll(p.buffs, dt);
    TickKeepsDeltas(p.buffs, dt, Strength);
    SheddingFollows(p, p.vitals, [], ticked);
    ChainConcat(p, Shedding(p.vitals, [], ticked), [TickBuffs(p, dt)]);
  }

  lemma CastFollows(p: Pet, b: Buff)
    ensures Chain(p, Within(p, Cast(b))) && End(p, Within(p, Cast(b))) == Applied(p, b)
  {
    var i := IndexOf(p.buffs, b.name);
    SumOfOne(b);
    if i == |p.buffs| {
      HpSumConcat(p.buffs, [b]);
      assert Within(p, Cast(b)) == [Applied(p, b)];
    } else {
      HpSumDropped(p.buffs, i);
      HpSumConcat(Dropped(p.buffs, i), [b]);
      ChainFirst(p, Pet(Found(p, b), Dropped(p.buffs, i)), [Applied(p, b)]);
    }
  }

  lemma {:induction false} RunFollows(p: Pet, es: seq<Event>)
    ensures Chain(p, Through(p, es)) && End(p, Through(p, es)) == Run(p, es)
    decreases |es|
  {
    if es != [] {
      match es[0] {
        case Cast(b) => CastFollows(p, b);
        case Tick(dt) => TickFollows(p, dt);
      }
      RunFollows(Step(p, es[0]), es[1..]);
      ChainConcat(p, Within(p, es[0]), Through(Step(p, es[0]), es[1..]));
    }
  }

  lemma FollowsTrueIff(p: Pet, q: Pet, base: real)
    requires Follows(p, q) && CapTrue(p, base) && p.vitals.maxHp >= 1.0
    ensures q.vitals.maxHp >= 1.0 && (CapTrue(q, base) <==> Roomy(q, base))
  {
  }

  lemma {:induction false} ChainTrueIff(p: Pet, qs: seq<Pet>, base: real)
    requires Chain(p, qs) && CapTrue(p, base) && p.vitals.maxHp >= 1.0
    ensures (forall q :: q in qs ==> CapTrue(q, base)) <==> (forall q :: q in qs ==> Roomy(q, base))
    decreases |qs|
  {
    if qs != [] {
      assert forall q :: q in qs <==> q == qs[0] || q in qs[1..];
      FollowsTrueIff(p, qs[0], base);
      if CapTrue(qs[0], base) {
        ChainTrueIff(qs[0], qs[1..], base);
      }
    }
  }

  /**
   Over any casts and ticks, of whatever deltas, the cap is its base plus the deltas that
   hold in every state passed through if and only if that sum never falls below one.
   */
  lemma CapAccountedIff(p: Pet, es: seq<Event>, base: real)
    requires CapTrue(p, base) && p.vitals.maxHp >= 1.0
    ensures (forall q :: q in Through(p, es) ==> CapTrue(q, base))
      <==> (forall q :: q in Through(p, es) ==> Roomy(q, base))
  {
    RunFollows(p, es);
    ChainTrueIff(p, Through(p, es), base);
  }

  // ----------------------------------------------------------------------- hit points

  predicate InBounds(v: Vitals) {
    v.hp <= v.maxHp && v.maxHp >= 1.0
  }

  /** What a caster could look up before the cast: hit points no higher than the cap it would leave. */
  predicate Fits(v: Vitals, b: Buff) {
    v.hp <= Max(v.maxHp + HpDeltaOf(b), 1.0)
  }

  predicate CastsFit(p: Pet, es: seq<Event>)
    decreases |es|
  {
    es == [] || ((es[0].Cast? ==> Fits(Found(p, es[0].buff), es[0].buff)) && CastsFit(Step(p, es[0]), es[1..]))
  }

  /** A buff put on leaves hit points within the cap exactly when they fit it, floor or no floor. */
  lemma GainedWithinIff(v: Vitals, b: Buff)
    requires v.maxHp >= 1.0
    ensures Gained(v, b).hp <= Gained(v, b).maxHp <==> v.hp <= Max(v.maxHp + HpDeltaOf(b), 1.0)
    ensures Gained(v, b).maxHp >= 1.0
  {
  }

  lemma {:induction false} SheddingInBounds(v: Vitals, kept: seq<Buff>, buffs: seq<Buff>)
    requires InBounds(v)
    ensures forall q :: q in Shedding(v, kept, buffs) ==> InBounds(q.vitals)
    ensures InBounds(Shed(v, buffs))
    decreases |buffs|
  {
    if buffs != [] {
      if buffs[0].remaining > 0.0 {
        SheddingInBounds(v, kept + [buffs[0]], buffs[1..]);
      } else {
        SheddingInBounds(Lost(v, buffs[0]), kept, buffs[1..]);
      }
    }
  }

  lemma EventInBoundsIff(p: Pet, e: Event)
    requires InBounds(p.vitals)
    ensures (forall q :: q in Within(p, e) ==> InBounds(q.vitals)) <==> (e.Cast? ==> Fits(Found(p, e.buff), e.buff))
    ensures Step(p, e) in Within(p, e)
  {
    match e
    case Cast(b) =>
      GainedWithinIff(Found(p, b), b);
      assert Within(p, e)[|Within(p, e)| - 1] == Applied(p, b);
    case Tick(dt) =>
      SheddingInBounds(p.vitals, [], TickedAll(p.buffs, dt));
      assert Within(p, e)[|Within(p, e)| - 1] == TickBuffs(p, dt);
  }

  /**
   Over any casts and ticks hit points stay within the cap in every state passed through
   if and only if every cast finds hit points that fit the cap it leaves.
   */
  lemma {:induction false} HpWithinIff(p: Pet, es: seq<Event>)
    requires InBounds(p.vitals)
    ensures (forall q :: q in Through(p, es) ==> InBounds(q.vitals)) <==> CastsFit(p, es)
    decreases |es|
  {
    if es != [] {
      var p' := Step(p, es[0]);
      EventInBoundsIff(p, es[0]);
      assert forall q :: q in Through(p, es) <==> q in Within(p, es[0]) || q in Through(p', es[1..]);
      if InBounds(p'.vitals) {
        HpWithinIff(p', es[1..]);
      }
    }
  }

  // --------------------------------------------------------- buffs that only raise

  lemma {:induction false} RaisingSheds(v: Vitals, kept: seq<Buff>, buffs: seq<Buff>)
    requires Raising(kept) && Raising(buffs)
    ensures forall q :: q in Shedding(v, kept, buffs) ==> Raising(q.buffs)
    decreases |buffs|
  {
    if buffs != [] {
      assert buffs[0] in buffs && forall b :: b in buffs[1..] ==> b in buffs;
      if buffs[0].remaining > 0.0 {
        RaisingSheds(v, kept + [buffs[0]], buffs[1..]);
      } else {
        RaisingSheds(Lost(v, buffs[0]), kept, buffs[1..]);
      }
    }
  }

  lemma RaisingEvent(p: Pet, e: Event)
    requires Raising(p.buffs) && (e.Cast? ==> HpDeltaOf(e.buff) >= 0.0)
    ensures forall q :: q in Within(p, e) ==> Raising(q.buffs)
    ensures Raising(Step(p, e).buffs)
  {
    if e.Tick? {
      var ticked := TickedAll(p.buffs, e.dt);
      assert forall i :: 0 <= i < |ticked| ==> HpDeltaOf(ticked[i]) == HpDeltaOf(p.buffs[i]) && p.buffs[i] in p.buffs;
      RaisingSheds(p.vitals, [], ticked);
    }
  }

  lemma {:induction false} RaisingRun(p: Pet, es: seq<Event>)
    requires Raising(p.buffs) && InBounds(p.vitals)
    requires forall e :: e in es && e.Cast? ==> HpDeltaOf(e.buff) >= 0.0
    ensures (forall q :: q in Through(p, es) ==> Raising(q.buffs)) && CastsFit(p, es)
    decreases |es|
  {
    if es != [] {
      assert es[0] in es && forall e :: e in es[1..] ==> e in es;
      RaisingEvent(p, es[0]);
      EventInBoundsIff(p, es[0]);
      RaisingRun(Step(p, es[0]), es[1..]);
    }
  }

  /** With buffs that never lower it the cap is true and hit points are within it, in every state passed through. */
  lemma HpStaysWithinItsCap(p: Pet, es: seq<Event>, base: real)
    requires CapTrue(p, base) && InBounds(p.vitals) && base >= 1.0 && Raising(p.buffs)
    requires forall e :: e in es && e.Cast? ==> HpDeltaOf(e.buff) >= 0.0
    ensures forall q :: q in Through(p, es) ==> CapTrue(q, base) && InBounds(q.vitals)
  {
    RaisingRun(p, es);
    forall q | q in Through(p, es)
      ensures Roomy(q, base)
    {
      HpSumNonNegative(q.buffs);
    }
    CapAccountedIff(p, es, base);
    HpWithinIff(p, es);
  }

  // ------------------------------------------------------- inputs on which it fails

  /** Hit points above the cap with the floor nowhere near. */
  lemma WeakeningLeavesHpAbove(b: Buff)
    requires b.effect == StatBuff(NO_STATS, -20.0)
    ensures Gained(Vitals(NO_STATS, 100.0, 100.0), b) == Vitals(NO_STATS, 80.0, 100.0)
  {
  }

  lemma CastAnew(p: Pet, b: Buff, v: Vitals, buffs: seq<Buff>)
    requires (forall x :: x in p.buffs ==> x.name != b.name) && Gained(p.vitals, b) == v && p.buffs + [b] == buffs
    ensures Applied(p, b) == Pet(v, buffs)
  {
  }

  lemma {:induction false} NothingToHeal(buffs: seq<Buff>, dt: real)
    requires forall b :: b in buffs ==> !b.effect.Hot?
    ensures HealOf(buffs, dt) == 0
  {
    if buffs != [] {
      assert buffs[0] in buffs && forall b :: b in buffs[1..] ==> b in buffs;
      NothingToHeal(buffs[1..], dt);
    }
  }

  lemma OneRunsOut(up: Buff, down: Buff, v: Vitals, dt: real)
    requires up.effect.StatBuff? && down.effect.StatBuff? && up.remaining <= dt < down.remaining && v.maxHp >= 1.0
    ensures TickBuffs(Pet(v, [up, down]), dt) == Pet(Lost(v, up), [Ticked(down, dt)])
  {
    var a, b := Ticked(up, dt), Ticked(down, dt);
    assert [up, down][1..] == [down] && [down][1..] == [] && [a, b][1..] == [b] && [b][1..] == [];
    assert TickedAll([up, down], dt) == [a, b];
    OnlyOne(b, Lost(v, a));
    assert Shed(v, [a, b]) == Shed(Lost(v, a), [b]);
    NothingToHeal([up, down], dt);
  }

  lemma LastRunsOut(b: Buff, v: Vitals, dt: real)
    requires b.effect.StatBuff? && b.remaining <= dt
    ensures TickBuffs(Pet(v, [b]), dt) == Pet(Lost(v, b), [])
  {
    var a := Ticked(b, dt);
    assert [b][1..] == [] && [a][1..] == [] && TickedAll([b], dt) == [a];
    OnlyOne(a, v);
    NothingToHeal([b], dt);
  }

  /**
   A cap of ten, twenty more for one tick's time, twenty-five fewer for two: neither cast
   meets the floor, and with both run out the cap is twenty-six, for the removal between met it.
   */
  lemma RemovalMeetsTheFloor(p: Pet, up: Buff, down: Buff, dt: real)
    requires p == Pet(Vitals(NO_STATS, 10.0, 10.0), [])
    requires up.name != down.name && up.remaining <= dt < down.remaining <= 2.0 * dt
    requires up.effect == StatBuff(NO_STATS, 20.0) && down.effect == StatBuff(NO_STATS, -25.0)
    ensures Run(p, [Cast(up), Cast(down), Tick(dt), Tick(dt)]) == Pet(Vitals(NO_STATS, 26.0, 1.0), [])
  {
    var thirty, five, one := Vitals(NO_STATS, 30.0, 10.0), Vitals(NO_STATS, 5.0, 10.0), Vitals(NO_STATS, 1.0, 1.0);
    var late := Ticked(down, dt);
    CastAnew(p, up, thirty, [up]);
    CastAnew(Pet(thirty, [up]), down, five, [up, down]);
    OneRunsOut(up, down, five, dt);
    LastRunsOut(late, one, dt);
    assert Lost(five, up) == one && Lost(one, late) == Vitals(NO_STATS, 26.0, 1.0);
    RunOfFour(p, Pet(thirty, [up]), Pet(five, [up, down]), Pet(one, [late]), up, down, dt);
  }

  lemma RunOfFour(p: Pet, p1: Pet, p2: Pet, p3: Pet, a: Buff, b: Buff, dt: real)
    requires Applied(p, a) == p1 && Applied(p1, b) == p2 && TickBuffs(p2, dt) == p3
    ensures Run(p, [Cast(a), Cast(b), Tick(dt), Tick(dt)]) == TickBuffs(p3, dt)
  {
    var rest := [Cast(b), Tick(dt), Tick(dt)];
    assert [Cast(a), Cast(b), Tick(dt), Tick(dt)] == [Cast(a)] + rest;
    assert rest == [Cast(b)] + [Tick(dt), Tick(dt)] && [Tick(dt), Tick(dt)] == [Tick(dt)] + [Tick(dt)];
    RunFirst(p, Cast(a), rest);
    RunFirst(p1, Cast(b), [Tick(dt), Tick(dt)]);
    RunFirst(p2, Tick(dt), [Tick(dt)]);
    RunFirst(p3, Tick(dt), []);
  }

  lemma RunFirst(p: Pet, e: Event, rest: seq<Event>)
    ensures Run(p, [e] + rest) == Run(Step(p, e), rest) && (rest == [] ==> Run(p, [e]) == Step(p, e))
  {
    assert ([e] + rest)[1..] == rest;
  }
}
