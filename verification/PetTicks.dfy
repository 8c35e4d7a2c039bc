/**
 What time does to a pet's buffs: the hit points its heals restore, what a tick reports,
 and how long each buff holds.
 */
module PetTicks {
  import opened Reals
  import opened PetBuffs

  // ------------------------------------------------------------------ one tick

  /** A tick's hit points: what the expired buffs left, with the points credited, up to the cap they left. */
  lemma TickHitPoints(p: Pet, dt: real)
    ensures
      var shed, heal := Shed(p.vitals, TickedAll(p.buffs, dt)), HealOf(p.buffs, dt) as real;
      var after := TickBuffs(p, dt).vitals;
      && after.maxHp == shed.maxHp && after.stats == shed.stats
      && (heal > 0.0 ==> after.hp == Min(shed.maxHp, shed.hp + heal))
      && (heal <= 0.0 ==> after.hp == shed.hp)
      && (heal >= 0.0 && shed.hp <= shed.maxHp ==> after.hp == Min(shed.maxHp, shed.hp + heal))
  {
    HealNonNegative(p.buffs, dt);
    if p.buffs == [] {
      assert TickedAll(p.buffs, dt) == [];
    }
  }

  /** A tick reports that a buff went exactly when one did, and hit points exactly when one did or a heal moved them. */
  lemma ReportedIffChanged(p: Pet, dt: real)
    ensures
      var change, after := ChangeOf(p, dt), TickBuffs(p, dt);
      && (change.setChanged <==> exists b :: b in p.buffs && b.remaining <= dt)
      && (change.hpChanged <==>
            change.setChanged || after.vitals.hp != Shed(p.vitals, TickedAll(p.buffs, dt)).hp)
  {
    var ticked := TickedAll(p.buffs, dt);
    HoldsAllIff(ticked);
    NoneOutIff(ticked);
    if x :| x in ticked && x.remaining <= 0.0 {
      var i :| 0 <= i < |ticked| && ticked[i] == x;
      assert p.buffs[i] in p.buffs;
    }
    if b :| b in p.buffs && b.remaining <= dt {
      var i :| 0 <= i < |p.buffs| && p.buffs[i] == b;
      assert ticked[i] in ticked;
    }
  }

  predicate NoneOut(buffs: seq<Buff>) {
    buffs == [] || (buffs[0].remaining > 0.0 && NoneOut(buffs[1..]))
  }

  lemma {:induction false} NoneOutIff(buffs: seq<Buff>)
    ensures NoneOut(buffs) <==> forall b :: b in buffs ==> b.remaining > 0.0
  {
    if buffs != [] {
      NoneOutIff(buffs[1..]);
      assert buffs == [buffs[0]] + buffs[1..];
    }
  }

  lemma {:induction false} HoldsAllIff(buffs: seq<Buff>)
    ensures |Holding(buffs)| <= |buffs|
    ensures NoneOut(buffs) <==> |Holding(buffs)| == |buffs|
    ensures NoneOut(buffs) ==> Holding(buffs) == buffs
  {
    if buffs != [] {
      HoldsAllIff(buffs[1..]);
      var head := if buffs[0].remaining > 0.0 then [buffs[0]] else [];
      assert Holding(buffs) == head + Holding(buffs[1..]);
      assert buffs == [buffs[0]] + buffs[1..];
    }
  }

  /** Fifty of a hundred hit points and five a second: two seconds make sixty, and the tick says so. */
  lemma TwoSecondsOfHealing(p: Pet, b: Buff)
    requires p == Pet(Vitals(NO_STATS, 100.0, 50.0), [b])
    requires b.effect == Hot(5.0) && b.remaining == 12.0 && b.tickAcc == 0.0
    ensures TickBuffs(p, 2.0).vitals.hp == 60.0 && ChangeOf(p, 2.0) == Change(true, false)
  {
    var late := Ticked(b, 2.0);
    assert [b][1..] == [] && TickedAll([b], 2.0) == [late] && HealOf([b], 2.0) == Credit(b, 2.0) == 10;
    OnlyOne(late, p.vitals);
  }

  // ------------------------------------------------------- heals over many ticks

  /** The pet after some ticks, whatever a tick is. */
  function After(tick: (Pet, real) -> Pet, p: Pet, dts: seq<real>): Pet
    decreases |dts|
  {
    if dts == [] then p else After(tick, tick(p, dts[0]), dts[1..])
  }

  function TicksOver(p: Pet, dts: seq<real>): Pet {
    After(TickBuffs, p, dts)
  }

  /** The whole points the rates of all the heals make in a time. */
  function WholePoints(buffs: seq<Buff>, time: real): int {
    if buffs == [] then 0 else PointsOf(buffs[0], time) + WholePoints(buffs[1..], time)
  }

  function AllCredited(buffs: seq<Buff>, dts: seq<real>): int {
    if buffs == [] then 0 else CreditedOver(buffs[0], dts) + AllCredited(buffs[1..], dts)
  }

  lemma {:induction false} FirstTickCredits(buffs: seq<Buff>, dts: seq<real>)
    requires dts != []
    ensures AllCredited(buffs, dts) == HealOf(buffs, dts[0]) + AllCredited(TickedAll(buffs, dts[0]), dts[1..])
  {
    if buffs != [] {
      FirstTickCredits(buffs[1..], dts);
      assert TickedAll(buffs, dts[0])[1..] == TickedAll(buffs[1..], dts[0]);
    }
  }

  lemma {:induction false} NoTicksNoCredit(buffs: seq<Buff>)
    ensures AllCredited(buffs, []) == 0
  {
    if buffs != [] {
      NoTicksNoCredit(buffs[1..]);
    }
  }

  lemma {:induction false} OtherBuffsCredit(b: Buff, dts: seq<real>)
    requires !b.effect.Hot?
    ensures CreditedOver(b, dts) == 0
    decreases |dts|
  {
    if dts != [] {
      OtherBuffsCredit(Ticked(b, dts[0]), dts[1..]);
    }
  }

  predicate Fresh(buffs: seq<Buff>) {
    forall b :: b in buffs && b.effect.Hot? ==> b.effect.hps >= 0.0 && b.tickAcc == 0.0
  }

  lemma {:induction false} FreshCredits(buffs: seq<Buff>, dts: seq<real>)
    requires Fresh(buffs) && forall dt :: dt in dts ==> dt >= 0.0
    ensures AllCredited(buffs, dts) == WholePoints(buffs, Total(dts))
  {
    if buffs != [] {
      assert buffs[0] in buffs && forall b :: b in buffs[1..] ==> b in buffs;
      FreshCredits(buffs[1..], dts);
      if buffs[0].effect.Hot? {
        HotCreditsWholePoints(buffs[0], dts);
      } else {
        OtherBuffsCredit(buffs[0], dts);
      }
    }
  }

  /** Nothing that will run out in `time`. */
  predicate Lasting(buffs: seq<Buff>, time: real) {
    forall b :: b in buffs ==> b.remaining > time
  }

  /** Points healed: under a cap that stays, hit points are the lesser of it and the start with the points. */
  predicate Credited(p: Pet, p': Pet, heal: int) {
    && heal >= 0 && p'.vitals.maxHp == p.vitals.maxHp
    && p'.vitals.hp == Min(p.vitals.maxHp, p.vitals.hp + heal as real)
  }

  lemma {:induction false} HealNonNegative(buffs: seq<Buff>, dt: real)
    ensures HealOf(buffs, dt) >= 0
  {
    if buffs != [] {
      HealNonNegative(buffs[1..], dt);
    }
  }

  lemma {:induction false} NothingShed(v: Vitals, buffs: seq<Buff>)
    requires forall b :: b in buffs ==> b.remaining > 0.0
    ensures Shed(v, buffs) == v
  {
    if buffs != [] {
      assert buffs[0] in buffs && forall b :: b in buffs[1..] ==> b in buffs;
      NothingShed(v, buffs[1..]);
    }
  }

  lemma TickedLasts(buffs: seq<Buff>, dt: real, time: real)
    requires Lasting(buffs, dt + time)
    ensures Lasting(TickedAll(buffs, dt), time)
  {
    var ticked := TickedAll(buffs, dt);
    forall b | b in ticked
      ensures b.remaining > time
    {
      var i :| 0 <= i < |ticked| && ticked[i] == b;
      assert buffs[i] in buffs;
    }
  }

  lemma LastingTick(p: Pet, dt: real, time: real)
    requires Lasting(p.buffs, dt + time) && time >= 0.0 && p.vitals.hp <= p.vitals.maxHp
    ensures
      TickBuffs(p, dt).buffs == TickedAll(p.buffs, dt) && Credited(p, TickBuffs(p, dt), HealOf(p.buffs, dt))
  {
    var ticked := TickedAll(p.buffs, dt);
    TickedLasts(p.buffs, dt, time);
    NoneOutIff(ticked);
    HoldsAllIff(ticked);
    NothingShed(p.vitals, ticked);
    HealNonNegative(p.buffs, dt);
  }

  /**
   Heals one after another come, under one cap, to their sum: `owed` counts them, `steady`
   lasts as long as they do.
   */
  lemma {:induction false} HealsUnderOneCap(p: Pet, dts: seq<real>, tick: (Pet, real) -> Pet,
      steady: (Pet, seq<real>) -> bool, owed: (Pet, seq<real>) -> int)
    requires steady(p, dts) && p.vitals.hp <= p.vitals.maxHp
    requires forall q: Pet :: owed(q, []) == 0
    requires forall q: Pet, ds: seq<real> :: steady(q, ds) && ds != [] ==>
      && steady(tick(q, ds[0]), ds[1..])
      && (q.vitals.hp <= q.vitals.maxHp ==> Credited(q, tick(q, ds[0]), owed(q, ds) - owed(tick(q, ds[0]), ds[1..])))
    ensures Credited(p, After(tick, p, dts), owed(p, dts))
    decreases |dts|
  {
    if dts != [] {
      HealsUnderOneCap(tick(p, dts[0]), dts[1..], tick, steady, owed);
    }
  }

  /** Ticks of no negative length in which nothing runs out. */
  predicate Steady(p: Pet, dts: seq<real>) {
    (forall dt :: dt in dts ==> dt >= 0.0) && Lasting(p.buffs, Total(dts))
  }

  lemma SteadyTick(p: Pet, dts: seq<real>)
    requires Steady(p, dts) && dts != []
    ensures Steady(TickBuffs(p, dts[0]), dts[1..])
    ensures p.vitals.hp <= p.vitals.maxHp ==>
      Credited(p, TickBuffs(p, dts[0]), AllCredited(p.buffs, dts) - AllCredited(TickBuffs(p, dts[0]).buffs, dts[1..]))
  {
    StaysSteady(p, dts);
    if p.vitals.hp <= p.vitals.maxHp {
      SteadyCredits(p, dts, Total(dts[1..]));
    }
  }

  lemma SteadyCredits(p: Pet, dts: seq<real>, rest: real)
    requires dts != [] && Lasting(p.buffs, dts[0] + rest) && rest >= 0.0 && p.vitals.hp <= p.vitals.maxHp
    ensures
      Credited(p, TickBuffs(p, dts[0]), AllCredited(p.buffs, dts) - AllCredited(TickBuffs(p, dts[0]).buffs, dts[1..]))
  {
    LastingTick(p, dts[0], rest);
    CreditsInTurn(p, TickBuffs(p, dts[0]), dts);
  }

  lemma StaysSteady(p: Pet, dts: seq<real>)
    requires Steady(p, dts) && dts != []
    ensures Lasting(p.buffs, dts[0] + Total(dts[1..])) && Total(dts[1..]) >= 0.0
    ensures Steady(TickBuffs(p, dts[0]), dts[1..])
  {
    assert dts[0] in dts && forall dt :: dt in dts[1..] ==> dt in dts;
    TotalNonNegative(dts[1..]);
    TickedLasts(p.buffs, dts[0], Total(dts[1..]));
  }

  lemma CreditsInTurn(p: Pet, p': Pet, dts: seq<real>)
    requires dts != [] && p'.buffs == TickedAll(p.buffs, dts[0]) && Credited(p, p', HealOf(p.buffs, dts[0]))
    ensures Credited(p, p', AllCredited(p.buffs, dts) - AllCredited(p'.buffs, dts[1..]))
  {
    FirstTickCredits(p.buffs, dts);
  }

  /**
   Over any ticks in which nothing runs out and nothing hurts it, a pet's hit points are the
   lesser of its cap and its start with each fresh heal's rate times the time, rounded down.
   */
  lemma HealsRestoreHitPoints(p: Pet, dts: seq<real>)
    requires Steady(p, dts) && Fresh(p.buffs) && p.vitals.hp <= p.vitals.maxHp
    ensures Credited(p, TicksOver(p, dts), WholePoints(p.buffs, Total(dts)))
  {
    FreshCredits(p.buffs, dts);
    TicksCredit(p, dts);
  }

  lemma TicksCredit(p: Pet, dts: seq<real>)
    requires Steady(p, dts) && p.vitals.hp <= p.vitals.maxHp
    ensures Credited(p, TicksOver(p, dts), AllCredited(p.buffs, dts))
  {
    var owed := (q: Pet, ds: seq<real>) => AllCredited(q.buffs, ds);
    forall q: Pet
      ensures owed(q, []) == 0
    {
      NoTicksNoCredit(q.buffs);
    }
    forall q: Pet, ds: seq<real> | Steady(q, ds) && ds != []
      ensures Steady(TickBuffs(q, ds[0]), ds[1..])
      ensures q.vitals.hp <= q.vitals.maxHp ==>
        Credited(q, TickBuffs(q, ds[0]), owed(q, ds) - owed(TickBuffs(q, ds[0]), ds[1..]))
    {
      SteadyTick(q, ds);
    }
    HealsUnderOneCap(p, dts, TickBuffs, Steady, owed);
  }

  // -------------------------------------------------------------- how long it holds

  predicate HoldsNamed(p: Pet, name: string) {
    exists b :: b in p.buffs && b.name == name
  }

  /** A buff is there after some ticks exactly when they took less time than it had left. */
  lemma {:induction false} BuffHoldsIff(p: Pet, b: Buff, dts: seq<real>)
    requires UniqueNames(p.buffs) && b in p.buffs && b.remaining > 0.0 && forall dt :: dt in dts ==> dt >= 0.0
    ensures HoldsNamed(TicksOver(p, dts), b.name) <==> Total(dts) < b.remaining
    decreases |dts|
  {
    if dts == [] {
      assert HoldsNamed(p, b.name);
    } else {
      assert dts[0] in dts && forall dt :: dt in dts[1..] ==> dt in dts;
      TotalNonNegative(dts[1..]);
      var ticked := TickedAll(p.buffs, dts[0]);
      var i := IndexIn(p.buffs, b);
      HoldingUnique(ticked);
      assert ticked[i] == Ticked(b, dts[0]) && ticked[i] in ticked;
      if ticked[i].remaining > 0.0 {
        BuffHoldsIff(TickBuffs(p, dts[0]), ticked[i], dts[1..]);
      } else {
        forall x | x in Holding(ticked)
          ensures x.name != b.name
        {
          var j :| 0 <= j < |ticked| && ticked[j] == x;
          assert j != i;
        }
        GoneStaysGone(TickBuffs(p, dts[0]), b.name, dts[1..]);
      }
    }
  }

  lemma IndexIn(buffs: seq<Buff>, b: Buff) returns (i: nat)
    requires b in buffs
    ensures i < |buffs| && buffs[i] == b
  {
    i :| 0 <= i < |buffs| && buffs[i] == b;
  }

  lemma {:induction false} GoneStaysGone(p: Pet, name: string, dts: seq<real>)
    requires !HoldsNamed(p, name)
    ensures !HoldsNamed(TicksOver(p, dts), name)
    decreases |dts|
  {
    if dts != [] {
      var ticked := TickedAll(p.buffs, dts[0]);
      forall x | x in Holding(ticked)
        ensures x.name != name
      {
        var j :| 0 <= j < |ticked| && ticked[j] == x;
        assert p.buffs[j] in p.buffs;
      }
      GoneStaysGone(TickBuffs(p, dts[0]), name, dts[1..]);
    }
  }
}
