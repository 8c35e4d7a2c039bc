/**
 Mez, and what ends it: spells, dots and pets' swings break it when they hurt; a
 player's swing and a damage shield never do.
 */
module MobSleep {
  import opened Options
  import opened Reals
  import opened Geometry
  import opened Mob
  import opened MobRuns
  import Dots

  predicate Mezzed(cc: seq<Cc>) {
    exists c :: c in cc && c.kind.Mez?
  }

  // ------------------------------------------------------------ one event that hurts

  lemma SwingKeepsCc(m: Mob, attacker: EntityId, amount: nat, missed: bool, at: real)
    ensures Struck(m, attacker, amount, missed, at).cc == m.cc
  {
  }

  lemma ReflectionKeepsCc(m: Mob, defender: Option<EntityId>, dmg: nat, at: real)
    ensures Reflected(m, defender, dmg, at).cc == m.cc
  {
  }

  /** A spell or a pet's swing that hurts and does not kill leaves no mez. */
  lemma HarmWakes(m: Mob, e: Event, m': Mob, w: World)
    requires e.Spell? || e.PetSwing?
    requires Settled(m) && Next(m, e, m', w) && m'.vitals.hp < m.vitals.hp && !m'.state.Dead?
    ensures !Mezzed(m'.cc)
  {
  }

  /** So does a sweep whose ticks hurt. */
  lemma SweepWakes(m: Mob, dt: real, at: real)
    requires Settled(m)
    requires Smouldered(m, dt, at).vitals.hp < m.vitals.hp && !Smouldered(m, dt, at).state.Dead?
    ensures !Mezzed(Smouldered(m, dt, at).cc)
  {
    TicksDealSome(m.dots, dt);
    BurnedKeeps(TickDots(m, dt), DotTicks(m, dt));
    BurnedWalksOn(TickDots(m, dt), DotTicks(m, dt));
  }

  /**
   Whatever it is that costs a mob hit points and leaves it alive, the mob is mezzed
   afterwards if and only if it was, and was hurt by a player's swing or a damage shield.
   */
  lemma HurtWakesIff(m: Mob, e: Event, m': Mob, w: World)
    requires Settled(m) && Next(m, e, m', w) && m'.vitals.hp < m.vitals.hp && !m'.state.Dead?
    ensures Mezzed(m'.cc) <==> Mezzed(m.cc) && (e.Swing? || e.Reflection?)
  {
    match e {
      case Ai(x, hit) => AiKeeps(m, m', hit, w, x);
      case Swing(attacker, amount, missed, at) => SwingKeepsCc(m, attacker, amount, missed, at);
      case Reflection(defender, dmg, at) => ReflectionKeepsCc(m, defender, dmg, at);
      case Spell(_, _, _) => HarmWakes(m, e, m', w);
      case PetSwing(_, _, _, _) => HarmWakes(m, e, m', w);
      case Sweep(dt, at) => SweepWakes(m, dt, at);
      case _ =>
    }
  }

  /** A mob at ten hit points, mezzed for five seconds and struck for three: hurt, and mezzed still. */
  lemma SwingLeavesMez(m: Mob)
    requires Settled(m) && m.state.Idle? && m.vitals.hp == 10.0 && m.cc == [Cc(Mez, 5.0)]
    ensures Struck(m, 1, 3, false, 0.0).vitals.hp == 7.0 && Mezzed(Struck(m, 1, 3, false, 0.0).cc)
  {
    assert Cc(Mez, 5.0) in m.cc;
  }

  /** A dot breaks mez as it lands, and lands on any but a mob walking home, which it leaves alone. */
  lemma LandingDotWakes(m: Mob, dot: Dots.Dot, m': Mob, w: World)
    requires Next(m, Cast(dot), m', w)
    ensures m.state.Leash? ==> m' == m
    ensures !m.state.Leash? ==>
      !Mezzed(m'.cc) && Dots.Landed(dot) in m'.dots
        && (forall d :: d in m'.dots && d.name == dot.name ==> d == Dots.Landed(dot))
  {
    if !m.state.Leash? {
      assert m'.dots[|m'.dots| - 1] == Dots.Landed(dot);
    }
  }

  predicate Stunned(cc: seq<Cc>) {
    exists c :: c in cc && c.kind.Stun?
  }

  lemma WakingKeepsStun(cc: seq<Cc>)
    ensures Stunned(CcWithout(cc, Mez)) <==> Stunned(cc)
  {
  }

  /** Harm that ends mez ends nothing else. */
  lemma HarmEndsOnlyMez(m: Mob, e: Event, m': Mob, w: World)
    requires (e.Spell? || e.PetSwing? || e.Sweep?) && Next(m, e, m', w)
    ensures m'.cc == m.cc || m'.cc == CcWithout(m.cc, Mez)
  {
    if e.Sweep? {
      BurnedWalksOn(TickDots(m, e.dt), DotTicks(m, e.dt));
    }
  }

  /** A stun, unlike mez, outlasts everything but its own time and a newer stun. */
  lemma HarmLeavesStun(m: Mob, e: Event, m': Mob, w: World)
    requires Next(m, e, m', w) && !e.Ai? && !e.Control?
    ensures Stunned(m'.cc) <==> Stunned(m.cc)
  {
    WakingKeepsStun(m.cc);
    match e {
      case Swing(attacker, amount, missed, at) => SwingKeepsCc(m, attacker, amount, missed, at);
      case Reflection(defender, dmg, at) => ReflectionKeepsCc(m, defender, dmg, at);
      case _ =>
        if e.Spell? || e.PetSwing? || e.Sweep? {
          HarmEndsOnlyMez(m, e, m', w);
        }
    }
  }

  // ------------------------------------------------------------------ a whole beating

  /** Mezzed for longer than `time`. */
  predicate MezzedFor(cc: seq<Cc>, time: real) {
    exists c :: c in cc && c.kind.Mez? && c.remaining > time
  }

  /** AI ticks, players' swings, shields, and what no mob feels. */
  predicate Beating(e: Event) {
    || (e.Ai? && e.x.dt >= 0.0)
    || e.Swing? || e.Reflection? || e.Wipe? || e.Enrages? || e.Killed?
  }

  function TimeOf(e: Event): real {
    if e.Ai? then e.x.dt else 0.0
  }

  function TimeIn(run: seq<Link>): real {
    if run == [] then 0.0 else TimeOf(run[0].e) + TimeIn(run[1..])
  }

  lemma {:induction false} TimeInNonNegative(run: seq<Link>)
    requires forall l :: l in run ==> Beating(l.e)
    ensures TimeIn(run) >= 0.0
  {
    if run != [] {
      assert run[0] in run && forall l :: l in run[1..] ==> l in run;
      TimeInNonNegative(run[1..]);
    }
  }

  lemma {:induction false} TickedMez(cc: seq<Cc>, dt: real, time: real)
    requires MezzedFor(cc, dt + time) && time >= 0.0
    ensures MezzedFor(TickCc(cc, dt), time)
  {
    var c :| c in cc && c.kind.Mez? && c.remaining > dt + time;
    var ticked := TickCc(cc[1..], dt);
    if cc[0] == c {
      assert c.(remaining := c.remaining - dt) == TickCc(cc, dt)[0];
    } else {
      assert c in cc[1..];
      TickedMez(cc[1..], dt, time);
      var t :| t in ticked && t.kind.Mez? && t.remaining > time;
      assert t in TickCc(cc, dt);
    }
  }

  /** One event of a beating: the mez runs on, and the mob neither moves nor strikes. */
  lemma BeatenSleepsOn(m: Mob, e: Event, m': Mob, w: World, time: real)
    requires Next(m, e, m', w) && Beating(e) && time >= 0.0 && MezzedFor(m.cc, TimeOf(e) + time)
    ensures MezzedFor(m'.cc, time) && m'.pos == m.pos && (e.Ai? ==> e.hit == None)
  {
    match e {
      case Ai(x, hit) =>
        TickedMez(m.cc, x.dt, time);
        assert Frozen(TickCc(m.cc, x.dt));
      case Swing(attacker, amount, missed, at) => SwingKeepsCc(m, attacker, amount, missed, at);
      case Reflection(defender, dmg, at) => ReflectionKeepsCc(m, defender, dmg, at);
      case _ =>
    }
  }

  /**
   Over any run of players' swings, shields and AI ticks shorter than its mez has left,
   a mob stays mezzed to the end: it never moves from where it stands, nor strikes back.
   */
  lemma {:induction false} BeatingNeverWakes(m: Mob, run: seq<Link>, w: World)
    requires Run(m, run, w) && (forall l :: l in run ==> Beating(l.e)) && MezzedFor(m.cc, TimeIn(run))
    ensures forall l :: l in run ==>
      Mezzed(l.after.cc) && l.after.pos == m.pos && (l.e.Ai? ==> l.e.hit == None)
    decreases |run|
  {
    if run != [] {
      var first, rest := run[0], run[1..];
      assert first in run && forall l :: l in rest ==> l in run;
      TimeInNonNegative(rest);
      BeatenSleepsOn(m, first.e, first.after, w, TimeIn(rest));
      BeatingNeverWakes(first.after, rest, w);
      forall l | l in run
        ensures l == first || l in rest
      {
      }
    }
  }
}
