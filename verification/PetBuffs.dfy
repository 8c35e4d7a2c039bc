/**
 Beneficial buffs on a pet: stat deltas added while a buff holds and taken off
 when it ends, and heals over time credited in whole points.
 */
module PetBuffs {
  import opened Reals

  datatype Stats = Stats(strength: int, agility: int, intelligence: int, wisdom: int, constitution: int)
  {
    function Plus(o: Stats): Stats {
      Stats(strength + o.strength, agility + o.agility, intelligence + o.intelligence,
            wisdom + o.wisdom, constitution + o.constitution)
    }

    function Minus(o: Stats): Stats {
      Stats(strength - o.strength, agility - o.agility, intelligence - o.intelligence,
            wisdom - o.wisdom, constitution - o.constitution)
    }
  }

  const NO_STATS: Stats := Stats(0, 0, 0, 0, 0)

  datatype Effect =
    | Hot(hps: real)
    | StatBuff(delta: Stats, maxHpDelta: real)
    | Haste(amount: real)
    | Speed(mult: real)
    | OtherEffect

  datatype Buff = Buff(name: string, effect: Effect, remaining: real, tickAcc: real)

  /** The part of a pet its buffs move. */
  datatype Vitals = Vitals(stats: Stats, maxHp: real, hp: real)

  datatype Pet = Pet(vitals: Vitals, buffs: seq<Buff>)

  function DeltaOf(b: Buff): Stats {
    if b.effect.StatBuff? then b.effect.delta else NO_STATS
  }

  function HpDeltaOf(b: Buff): real {
    if b.effect.StatBuff? then b.effect.maxHpDelta else 0.0
  }

  /** `apply_stat_deltas` and `undo_stat_deltas`, for the buffs that carry deltas. */
  function Gained(v: Vitals, b: Buff): Vitals {
    if !b.effect.StatBuff? then v
    else v.(stats := v.stats.Plus(b.effect.delta), maxHp := Max(v.maxHp + b.effect.maxHpDelta, 1.0))
  }

  function Lost(v: Vitals, b: Buff): Vitals {
    if !b.effect.StatBuff? then v
    else
      var cap := Max(v.maxHp - b.effect.maxHpDelta, 1.0);
      Vitals(v.stats.Minus(b.effect.delta), cap, Min(v.hp, cap))
  }

  /** Where a buff of this name stands, or `|buffs|`. */
  function IndexOf(buffs: seq<Buff>, name: string): (i: nat)
    ensures i <= |buffs|
    ensures i < |buffs| ==> buffs[i].name == name
    ensures forall j :: 0 <= j < i ==> buffs[j].name != name
  {
    if buffs == [] || buffs[0].name == name then 0 else IndexOf(buffs[1..], name) + 1
  }

  /** The buffs once the one at `i` has been dropped. */
  function Dropped(buffs: seq<Buff>, i: nat): seq<Buff>
    requires i < |buffs|
  {
    buffs[..i] + buffs[i + 1..]
  }

  /** `apply_buff`: a buff of the same name is undone and dropped, then the new one gained. */
  function Applied(p: Pet, b: Buff): Pet {
    var i := IndexOf(p.buffs, b.name);
    if i == |p.buffs| then Pet(Gained(p.vitals, b), p.buffs + [b])
    else Pet(Gained(Lost(p.vitals, p.buffs[i]), b), Dropped(p.buffs, i) + [b])
  }

  // ----------------------------------------------------------------- the tick

  function Accrued(b: Buff, dt: real): real {
    if b.effect.Hot? then b.tickAcc + b.effect.hps * dt else b.tickAcc
  }

  /** Whole points a heal's accumulator flushes at the end of a tick. */
  function Credit(b: Buff, dt: real): int {
    if b.effect.Hot? && Accrued(b, dt) >= 1.0 then Accrued(b, dt).Floor else 0
  }

  function Ticked(b: Buff, dt: real): Buff {
    b.(remaining := b.remaining - dt, tickAcc := Accrued(b, dt) - Credit(b, dt) as real)
  }

  function TickedAll(buffs: seq<Buff>, dt: real): (r: seq<Buff>)
    ensures |r| == |buffs|
    ensures forall i :: 0 <= i < |buffs| ==> r[i] == Ticked(buffs[i], dt)
  {
    if buffs == [] then [] else [Ticked(buffs[0], dt)] + TickedAll(buffs[1..], dt)
  }

  function HealOf(buffs: seq<Buff>, dt: real): int {
    if buffs == [] then 0 else Credit(buffs[0], dt) + HealOf(buffs[1..], dt)
  }

  /** The buffs that still hold, and the vitals with the others taken off in order. */
  function Holding(buffs: seq<Buff>): (r: seq<Buff>)
    ensures forall b :: b in r <==> b in buffs && b.remaining > 0.0
  {
    if buffs == [] then []
    else if buffs[0].remaining > 0.0 then [buffs[0]] + Holding(buffs[1..])
    else Holding(buffs[1..])
  }

  function Shed(v: Vitals, buffs: seq<Buff>): Vitals
    decreases |buffs|
  {
    if buffs == [] then v
    else Shed(if buffs[0].remaining > 0.0 then v else Lost(v, buffs[0]), buffs[1..])
  }

  lemma OnlyOne(b: Buff, v: Vitals)
    ensures Holding([b]) == if b.remaining > 0.0 then [b] else []
    ensures Shed(v, [b]) == if b.remaining > 0.0 then v else Lost(v, b)
  {
    var none: seq<Buff> := [b][1..];
    assert none == [] && Holding(none) == [] && Shed(v, none) == v && Shed(Lost(v, b), none) == Lost(v, b);
  }

  function Healed(v: Vitals, heal: int): Vitals {
    if heal > 0 then v.(hp := Min(v.hp + heal as real, v.maxHp)) else v
  }

  /** `tick_buffs`: heals summed, expired buffs undone, the heal credited under the new cap. */
  function TickBuffs(p: Pet, dt: real): Pet {
    if p.buffs == [] then p
    else
      var ticked := TickedAll(p.buffs, dt);
      Pet(Healed(Shed(p.vitals, ticked), HealOf(p.buffs, dt)), Holding(ticked))
  }

  datatype Change = Change(hpChanged: bool, setChanged: bool)

  function ChangeOf(p: Pet, dt: real): Change {
    if p.buffs == [] then Change(false, false)
    else
      var ticked := TickedAll(p.buffs, dt);
      var v := Shed(p.vitals, ticked);
      var fewer := |Holding(ticked)| < |ticked|;
      Change(fewer || Healed(v, HealOf(p.buffs, dt)).hp != v.hp, fewer)
  }

  // ------------------------------------------------------------- the accounts

  datatype Stat = Strength | Agility | Intelligence | Wisdom | Constitution

  function Value(s: Stats, which: Stat): int {
    match which
    case Strength => s.strength
    case Agility => s.agility
    case Intelligence => s.intelligence
    case Wisdom => s.wisdom
    case Constitution => s.constitution
  }

  /** What the buffs that hold add to one stat. */
  function StatSum(buffs: seq<Buff>, which: Stat): int {
    if buffs == [] then 0 else Value(DeltaOf(buffs[0]), which) + StatSum(buffs[1..], which)
  }

  function HpSum(buffs: seq<Buff>): real {
    if buffs == [] then 0.0 else HpDeltaOf(buffs[0]) + HpSum(buffs[1..])
  }

  predicate UniqueNames(buffs: seq<Buff>) {
    forall i, j :: 0 <= i < j < |buffs| ==> buffs[i].name != buffs[j].name
  }

  /** Every stat is its base plus the deltas of the buffs that hold. */
  predicate StatsAccounted(p: Pet, base: Stats) {
    && UniqueNames(p.buffs)
    && (forall which: Stat :: Value(p.vitals.stats, which) == Value(base, which) + StatSum(p.buffs, which))
  }

  predicate Raising(buffs: seq<Buff>) {
    forall b :: b in buffs ==> HpDeltaOf(b) >= 0.0
  }

  lemma {:induction false} StatSumConcat(a: seq<Buff>, b: seq<Buff>, which: Stat)
    ensures StatSum(a + b, which) == StatSum(a, which) + StatSum(b, which)
  {
    if a == [] {
      assert a + b == b;
    } else {
      assert (a + b)[1..] == a[1..] + b;
      StatSumConcat(a[1..], b, which);
    }
  }

  lemma {:induction false} HpSumConcat(a: seq<Buff>, b: seq<Buff>)
    ensures HpSum(a + b) == HpSum(a) + HpSum(b)
  {
    if a == [] {
      assert a + b == b;
    } else {
      assert (a + b)[1..] == a[1..] + b;
      HpSumConcat(a[1..], b);
    }
  }

  lemma {:induction false} StatSumDropped(buffs: seq<Buff>, i: nat, which: Stat)
    requires i < |buffs|
    ensures StatSum(Dropped(buffs, i), which) == StatSum(buffs, which) - Value(DeltaOf(buffs[i]), which)
  {
    if i == 0 {
      assert Dropped(buffs, 0) == buffs[1..];
    } else {
      assert Dropped(buffs, i)[1..] == Dropped(buffs[1..], i - 1);
      StatSumDropped(buffs[1..], i - 1, which);
    }
  }

  lemma {:induction false} HpSumDropped(buffs: seq<Buff>, i: nat)
    requires i < |buffs|
    ensures HpSum(Dropped(buffs, i)) == HpSum(buffs) - HpDeltaOf(buffs[i])
  {
    if i == 0 {
      assert Dropped(buffs, 0) == buffs[1..];
    } else {
      assert Dropped(buffs, i)[1..] == Dropped(buffs[1..], i - 1);
      HpSumDropped(buffs[1..], i - 1);
    }
  }

  lemma SumOfOne(b: Buff)
    ensures HpSum([b]) == HpDeltaOf(b)
    ensures forall which: Stat :: StatSum([b], which) == Value(DeltaOf(b), which)
  {
    assert [b][1..] == [];
  }

  lemma {:induction false} HpSumNonNegative(buffs: seq<Buff>)
    requires Raising(buffs)
    ensures HpSum(buffs) >= 0.0
  {
    if buffs != [] {
      assert buffs[0] in buffs && forall b :: b in buffs[1..] ==> b in buffs;
      HpSumNonNegative(buffs[1..]);
    }
  }

  lemma {:induction false} TickKeepsDeltas(buffs: seq<Buff>, dt: real, which: Stat)
    ensures StatSum(TickedAll(buffs, dt), which) == StatSum(buffs, which)
    ensures HpSum(TickedAll(buffs, dt)) == HpSum(buffs)
  {
    if buffs != [] {
      assert TickedAll(buffs, dt)[1..] == TickedAll(buffs[1..], dt);
      TickKeepsDeltas(buffs[1..], dt, which);
    }
  }

  lemma GainedAndLost(v: Vitals, b: Buff, which: Stat)
    ensures Value(Gained(v, b).stats, which) == Value(v.stats, which) + Value(DeltaOf(b), which)
    ensures Value(Lost(v, b).stats, which) == Value(v.stats, which) - Value(DeltaOf(b), which)
  {
  }

  /** Casting keeps every stat at its base plus what holds, a re-cast included. */
  lemma ApplyKeepsStats(p: Pet, b: Buff, base: Stats)
    requires StatsAccounted(p, base)
    ensures StatsAccounted(Applied(p, b), base)
  {
    var i, p' := IndexOf(p.buffs, b.name), Applied(p, b);
    SumOfOne(b);
    forall which: Stat
      ensures Value(p'.vitals.stats, which) == Value(base, which) + StatSum(p'.buffs, which)
    {
      if i == |p.buffs| {
        GainedAndLost(p.vitals, b, which);
        StatSumConcat(p.buffs, [b], which);
      } else {
        GainedAndLost(p.vitals, p.buffs[i], which);
        GainedAndLost(Lost(p.vitals, p.buffs[i]), b, which);
        StatSumDropped(p.buffs, i, which);
        StatSumConcat(Dropped(p.buffs, i), [b], which);
      }
    }
    ApplyKeepsUnique(p, b);
  }

  lemma ApplyKeepsUnique(p: Pet, b: Buff)
    requires UniqueNames(p.buffs)
    ensures UniqueNames(Applied(p, b).buffs)
  {
    var i := IndexOf(p.buffs, b.name);
    if i < |p.buffs| {
      var rest := Dropped(p.buffs, i);
      assert forall j :: 0 <= j < |rest| ==> rest[j] == p.buffs[if j < i then j else j + 1];
      assert Applied(p, b).buffs == rest + [b];
    }
  }

  lemma {:induction false} ShedKeepsStats(v: Vitals, buffs: seq<Buff>, which: Stat, base: int)
    requires Value(v.stats, which) == base + StatSum(buffs, which)
    ensures Value(Shed(v, buffs).stats, which) == base + StatSum(Holding(buffs), which)
    decreases |buffs|
  {
    if buffs != [] {
      var b := buffs[0];
      if b.remaining > 0.0 {
        ShedKeepsStats(v, buffs[1..], which, base + Value(DeltaOf(b), which));
        assert ([b] + Holding(buffs[1..]))[1..] == Holding(buffs[1..]);
      } else {
        GainedAndLost(v, b, which);
        ShedKeepsStats(Lost(v, b), buffs[1..], which, base);
      }
    }
  }

  lemma {:induction false} HoldingUnique(buffs: seq<Buff>)
    requires UniqueNames(buffs)
    ensures UniqueNames(Holding(buffs))
  {
    if buffs != [] {
      HoldingUnique(buffs[1..]);
      assert forall b :: b in buffs[1..] ==> b.name != buffs[0].name;
    }
  }

  lemma TickKeepsStats(p: Pet, dt: real, base: Stats)
    requires StatsAccounted(p, base)
    ensures StatsAccounted(TickBuffs(p, dt), base)
  {
    if p.buffs != [] {
      var ticked := TickedAll(p.buffs, dt);
      forall which: Stat
        ensures Value(Shed(p.vitals, ticked).stats, which) == Value(base, which) + StatSum(Holding(ticked), which)
      {
        TickKeepsDeltas(p.buffs, dt, which);
        ShedKeepsStats(p.vitals, ticked, which, Value(base, which));
      }
      HoldingUnique(ticked);
    }
  }

  // ---------------------------------------------------------------------- runs

  datatype Event = Cast(buff: Buff) | Tick(dt: real)

  function Step(p: Pet, e: Event): Pet {
    match e
    case Cast(b) => Applied(p, b)
    case Tick(dt) => TickBuffs(p, dt)
  }

  function Run(p: Pet, es: seq<Event>): Pet
    decreases |es|
  {
    if es == [] then p else Run(Step(p, es[0]), es[1..])
  }

  lemma NothingHeldIsBaseline(p: Pet, base: Stats)
    requires StatsAccounted(p, base)
    ensures p.buffs == [] ==> p.vitals.stats == base
  {
    if p.buffs == [] {
      assert forall which: Stat :: Value(p.vitals.stats, which) == Value(base, which);
      assert Value(p.vitals.stats, Strength) == Value(base, Strength);
      assert Value(p.vitals.stats, Agility) == Value(base, Agility);
      assert Value(p.vitals.stats, Intelligence) == Value(base, Intelligence);
      assert Value(p.vitals.stats, Wisdom) == Value(base, Wisdom);
      assert Value(p.vitals.stats, Constitution) == Value(base, Constitution);
    }
  }

  /** After any interleaving of casts and ticks every stat is its base plus the deltas that hold, names unique. */
  lemma {:induction false} StatsReturnToBaseline(p: Pet, es: seq<Event>, base: Stats)
    requires StatsAccounted(p, base)
    ensures StatsAccounted(Run(p, es), base)
    ensures Run(p, es).buffs == [] ==> Run(p, es).vitals.stats == base
    decreases |es|
  {
    if es == [] {
      NothingHeldIsBaseline(p, base);
    } else {
      match es[0]
      case Cast(b) =>
        ApplyKeepsStats(p, b, base);
        StatsReturnToBaseline(Applied(p, b), es[1..], base);
      case Tick(dt) =>
        TickKeepsStats(p, dt, base);
        StatsReturnToBaseline(TickBuffs(p, dt), es[1..], base);
    }
  }

  /** Taking a buff off restores the cap it was put on, exactly when putting it on did not hit the floor of one. */
  lemma UndoRestoresCapIff(v: Vitals, b: Buff)
    requires v.maxHp >= 1.0
    ensures Lost(Gained(v, b), b).maxHp == v.maxHp <==> v.maxHp + HpDeltaOf(b) >= 1.0
    ensures Lost(Gained(v, b), b).stats == v.stats
  {
  }

  /** A buff that lowers the cap past the floor: hit points above the cap while it holds, a higher cap behind it. */
  lemma WeakeningBreaksBoth(b: Buff)
    requires b.effect == StatBuff(NO_STATS, -20.0)
    ensures
      var v := Vitals(NO_STATS, 10.0, 10.0);
      && Gained(v, b).hp > Gained(v, b).maxHp
      && Lost(Gained(v, b), b).maxHp == 21.0
  {
  }

  // ------------------------------------------------------------ heals over time

  function TickedOver(b: Buff, dts: seq<real>): Buff
    decreases |dts|
  {
    if dts == [] then b else TickedOver(Ticked(b, dts[0]), dts[1..])
  }

  function CreditedOver(b: Buff, dts: seq<real>): int
    decreases |dts|
  {
    if dts == [] then 0 else Credit(b, dts[0]) + CreditedOver(Ticked(b, dts[0]), dts[1..])
  }

  /** Whole points credited plus what is in the accumulator is the rate times the time, over any ticks. */
  lemma {:induction false} HotAccount(b: Buff, dts: seq<real>)
    requires b.effect.Hot?
    ensures TickedOver(b, dts).effect == b.effect
    ensures CreditedOver(b, dts) as real + TickedOver(b, dts).tickAcc == b.tickAcc + b.effect.hps * Total(dts)
    decreases |dts|
  {
    if dts != [] {
      HotAccount(Ticked(b, dts[0]), dts[1..]);
      Distribute(b.effect.hps, dts[0], Total(dts[1..]));
    }
  }

  lemma Distribute(a: real, b: real, c: real)
    ensures a * (b + c) == a * b + a * c
  {
  }

  lemma {:induction false} AccumulatorStaysShort(b: Buff, dts: seq<real>)
    requires b.effect.Hot? && b.effect.hps >= 0.0 && 0.0 <= b.tickAcc < 1.0
    requires forall dt :: dt in dts ==> dt >= 0.0
    ensures 0.0 <= TickedOver(b, dts).tickAcc < 1.0
    decreases |dts|
  {
    if dts != [] {
      assert dts[0] in dts && forall dt :: dt in dts[1..] ==> dt in dts;
      assert b.effect.hps * dts[0] >= 0.0;
      AccumulatorStaysShort(Ticked(b, dts[0]), dts[1..]);
    }
  }

  /** The whole points a heal's rate makes in a time. */
  function PointsOf(b: Buff, time: real): int {
    if b.effect.Hot? then (b.effect.hps * time).Floor else 0
  }

  /** A fresh heal over time has credited its rate times the time, rounded down, however the ticks fell. */
  lemma HotCreditsWholePoints(b: Buff, dts: seq<real>)
    requires b.effect.Hot? && b.effect.hps >= 0.0 && b.tickAcc == 0.0
    requires forall dt :: dt in dts ==> dt >= 0.0
    ensures CreditedOver(b, dts) == PointsOf(b, Total(dts))
  {
    HotAccount(b, dts);
    AccumulatorStaysShort(b, dts);
    WholePart(CreditedOver(b, dts), TickedOver(b, dts).tickAcc, b.effect.hps * Total(dts));
  }

  lemma WholePart(whole: int, part: real, sum: real)
    requires whole as real + part == sum && 0.0 <= part < 1.0
    ensures sum.Floor == whole
  {
  }

  /** What a named heal has run for since it was cast, and the whole points it has been credited with. */
  datatype Book = Book(elapsed: real, credited: int)

  function CreditNamed(buffs: seq<Buff>, name: string, dt: real): int {
    if buffs == [] then 0
      else (if buffs[0].name == name then Credit(buffs[0], dt) else 0) + CreditNamed(buffs[1..], name, dt)
  }

  function Booked(p: Pet, books: map<string, Book>, e: Event): map<string, Book> {
    match e
    case Cast(b) => books[b.name := Book(0.0, 0)]
    case Tick(dt) =>
      map n | n in books :: Book(books[n].elapsed + dt, books[n].credited + CreditNamed(p.buffs, n, dt))
  }

  function BooksOver(p: Pet, books: map<string, Book>, es: seq<Event>): map<string, Book>
    decreases |es|
  {
    if es == [] then books else BooksOver(Step(p, es[0]), Booked(p, books, es[0]), es[1..])
  }

  predicate HotAccounted(b: Buff, books: map<string, Book>) {
    b.effect.Hot? ==>
      b.name in books && books[b.name].credited as real + b.tickAcc == b.effect.hps * books[b.name].elapsed
  }

  /** For every heal that holds: points credited plus what is in its accumulator is its rate times its time. */
  predicate HotsAccounted(p: Pet, books: map<string, Book>) {
    UniqueNames(p.buffs) && forall b :: b in p.buffs ==> HotAccounted(b, books)
  }

  lemma {:induction false} CreditOfNone(buffs: seq<Buff>, name: string, dt: real)
    requires forall b :: b in buffs ==> b.name != name
    ensures CreditNamed(buffs, name, dt) == 0
  {
    if buffs != [] {
      assert buffs[0] in buffs && forall b :: b in buffs[1..] ==> b in buffs;
      CreditOfNone(buffs[1..], name, dt);
    }
  }

  lemma {:induction false} CreditOfOne(buffs: seq<Buff>, i: nat, dt: real)
    requires UniqueNames(buffs) && i < |buffs|
    ensures CreditNamed(buffs, buffs[i].name, dt) == Credit(buffs[i], dt)
  {
    if i == 0 {
      assert forall b :: b in buffs[1..] ==> b.name != buffs[0].name;
      CreditOfNone(buffs[1..], buffs[0].name, dt);
    } else {
      CreditOfOne(buffs[1..], i - 1, dt);
    }
  }

  lemma CastKeepsHots(p: Pet, books: map<string, Book>, b: Buff)
    requires HotsAccounted(p, books) && b.tickAcc == 0.0
    ensures HotsAccounted(Applied(p, b), Booked(p, books, Cast(b)))
  {
    ApplyKeepsUnique(p, b);
    var p', books' := Applied(p, b), Booked(p, books, Cast(b));
    var i := IndexOf(p.buffs, b.name);
    forall x | x in p'.buffs
      ensures HotAccounted(x, books')
    {
      if x != b {
        assert x in p.buffs && x.name != b.name;
      }
    }
  }

  lemma TickKeepsHot(b: Buff, had: Book, dt: real)
    requires b.effect.Hot? && had.credited as real + b.tickAcc == b.effect.hps * had.elapsed
    ensures (had.credited + Credit(b, dt)) as real + Ticked(b, dt).tickAcc == b.effect.hps * (had.elapsed + dt)
  {
    Distribute(b.effect.hps, had.elapsed, dt);
  }

  lemma TickKeepsAccount(buffs: seq<Buff>, books: map<string, Book>, books': map<string, Book>, i: nat, dt: real)
    requires UniqueNames(buffs) && i < |buffs| && HotAccounted(buffs[i], books)
    requires
      var n := buffs[i].name;
      n in books ==>
        n in books' && books'[n] == Book(books[n].elapsed + dt, books[n].credited + CreditNamed(buffs, n, dt))
    ensures HotAccounted(Ticked(buffs[i], dt), books')
  {
    CreditOfOne(buffs, i, dt);
    OneKeepsAccount(buffs[i], books, books', dt);
  }

  lemma OneKeepsAccount(b: Buff, books: map<string, Book>, books': map<string, Book>, dt: real)
    requires HotAccounted(b, books)
    requires b.name in books ==>
      b.name in books' && books'[b.name] == Book(books[b.name].elapsed + dt, books[b.name].credited + Credit(b, dt))
    ensures HotAccounted(Ticked(b, dt), books')
  {
    if b.effect.Hot? {
      TickKeepsHot(b, books[b.name], dt);
    }
  }

  lemma TickKeepsHots(p: Pet, books: map<string, Book>, dt: real)
    requires HotsAccounted(p, books)
    ensures HotsAccounted(TickBuffs(p, dt), Booked(p, books, Tick(dt)))
  {
    var ticked, books' := TickedAll(p.buffs, dt), Booked(p, books, Tick(dt));
    HoldingUnique(ticked);
    forall x | x in Holding(ticked)
      ensures HotAccounted(x, books')
    {
      var i :| 0 <= i < |ticked| && ticked[i] == x;
      assert p.buffs[i] in p.buffs;
      TickKeepsAccount(p.buffs, books, books', i, dt);
    }
  }

  /** After any interleaving of casts and ticks, every heal that holds is accounted for since its cast. */
  lemma {:induction false} HotsStayAccounted(p: Pet, books: map<string, Book>, es: seq<Event>)
    requires HotsAccounted(p, books)
    requires forall e :: e in es && e.Cast? ==> e.buff.tickAcc == 0.0
    ensures HotsAccounted(Run(p, es), BooksOver(p, books, es))
    decreases |es|
  {
    if es != [] {
      assert es[0] in es && forall e :: e in es[1..] ==> e in es;
      match es[0] {
        case Cast(b) => CastKeepsHots(p, books, b);
        case Tick(dt) => TickKeepsHots(p, books, dt);
      }
      HotsStayAccounted(Step(p, es[0]), Booked(p, books, es[0]), es[1..]);
    }
  }
}
