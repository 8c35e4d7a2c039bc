/**
 The entity as the server keeps it: one mutable object whose methods tick its crowd
 control, dots, buffs and AI in place. `View` is the mob it stands for, and every
 method says what it does to that mob.
 */
module Entities {
  import opened Arithmetic
  import opened Options
  import opened Reals
  import opened Geometry
  import opened Walk
  import opened Mob
  import opened PetAi
  import Dots
  import MobRuns
  import PetBuffs
  import Rules = Mob

  datatype AiEvents = AiEvents(targetChanged: Option<Option<EntityId>>, hit: Option<Hit>, healedHome: bool)

  class Entity {
    const template: Template
    const home: Vec3
    const owner: Option<EntityId>
    const baseStats: PetBuffs.Stats
    var stance: Stance
    var pos: Vec3
    var hp: real
    var maxHp: real
    var stats: PetBuffs.Stats
    var state: State
    var target: Option<EntityId>
    var aggro: map<EntityId, real>
    var threat: map<EntityId, real>
    var lastAttackAt: Option<real>
    var enteredAt: real
    var cc: seq<Cc>
    var dots: seq<Dots.Dot>
    var buffs: seq<PetBuffs.Buff>
    var enrage: Option<Enrage>
    var stuck: Option<StuckClock>

    ghost function View(): Mob
      reads this
    {
      Mob(template, home, pos, Vitals(), baseStats, state, target, aggro, threat, lastAttackAt, enteredAt, cc, dots,
        buffs, enrage, stuck)
    }

    ghost function Vitals(): PetBuffs.Vitals
      reads this
    {
      PetBuffs.Vitals(stats, maxHp, hp)
    }

    ghost function Pet(): PetBuffs.Pet
      reads this
    {
      PetBuffs.Pet(Vitals(), buffs)
    }

    /** `from_spawn`, for a mob that is not a named one. */
    constructor FromSpawn(template: Template, spawnPos: Vec3, mobHp: real, now: real)
      ensures MobRuns.AtRest(View()) && owner == None && pos == home == spawnPos && this.template == template
      ensures hp == mobHp && PetBuffs.StatsAccounted(Pet(), baseStats)
    {
      this.template, home, owner, baseStats := template, spawnPos, None, PetBuffs.NO_STATS;
      stance, pos, hp, maxHp, stats := Follow, spawnPos, mobHp, mobHp, PetBuffs.NO_STATS;
      state, target, aggro, threat := Idle, None, map[], map[];
      lastAttackAt, enteredAt, cc, dots, buffs, enrage, stuck := None, now, [], [], [], None, None;
    }

    // ------------------------------------------------------- crowd control

    method TickCc(dt: real)
      modifies `cc
      ensures View() == old(View()).(cc := Rules.TickCc(old(cc), dt))
    {
      var was, kept, i := cc, [], 0;
      while i < |was|
        invariant 0 <= i <= |was|
        invariant kept == Rules.TickCc(was[..i], dt)
      {
        assert was[..i + 1] == was[..i] + [was[i]];
        TickCcOfConcat(was[..i], was[i], dt);
        var left := was[i].remaining - dt;
        if left > 0.0 {
          kept := kept + [was[i].(remaining := left)];
        }
        i := i + 1;
      }
      assert was[..i] == was;
      cc := kept;
    }

    method DropCc(kind: CcKind)
      modifies `cc
      ensures View() == old(View()).(cc := CcWithout(old(cc), kind))
    {
      cc := RetainOtherKinds(cc, kind);
    }

    static method RetainOtherKinds(was: seq<Cc>, kind: CcKind) returns (kept: seq<Cc>)
      ensures kept == CcWithout(was, kind)
    {
      kept := [];
      var i := 0;
      while i < |was|
        invariant 0 <= i <= |was|
        invariant kept == CcWithout(was[..i], kind)
      {
        assert was[..i + 1] == was[..i] + [was[i]];
        CcWithoutOfConcat(was[..i], was[i], kind);
        if !SameKind(was[i].kind, kind) {
          kept := kept + [was[i]];
        }
        i := i + 1;
      }
      assert was[..i] == was;
    }

    method ApplyCc(c: Cc)
      modifies `cc
      ensures View() == old(View()).(cc := Rules.ApplyCc(old(cc), c))
    {
      if c.kind.AttackSlow? && SlowPct(cc) > c.kind.pct {
        return;
      }
      DropCc(c.kind);
      cc := cc + [c];
    }

    // ---------------------------------------------------------------- dots

    method ApplyDot(dot: Dots.Dot)
      modifies `cc, `dots
      ensures View() == Rules.ApplyDot(old(View()), dot)
    {
      if state.Leash? {
        return;
      }
      var landed := dot.(ticksLeft := Dots.TicksIn(dot.remaining), tickAcc := 0.0);
      var kept := RetainOtherNames(dots, dot.name);
      dots := kept + [landed];
      DropCc(Mez);
    }

    static method RetainOtherNames(was: seq<Dots.Dot>, name: string) returns (kept: seq<Dots.Dot>)
      ensures kept == Dots.Without(was, name)
    {
      kept := [];
      var i := 0;
      while i < |was|
        invariant 0 <= i <= |was|
        invariant kept == Dots.Without(was[..i], name)
      {
        assert was[..i + 1] == was[..i] + [was[i]];
        Dots.WithoutOfConcat(was[..i], was[i], name);
        if was[i].name != name {
          kept := kept + [was[i]];
        }
        i := i + 1;
      }
      assert was[..i] == was;
    }

    method TickDots(dt: real) returns (ticks: seq<Dots.DotTick>)
      modifies `cc, `dots
      ensures View() == Rules.TickDots(old(View()), dt) && ticks == DotTicks(old(View()), dt)
    {
      ticks := [];
      if dots == [] || state.Dead? {
        return;
      }
      ticks := AdvanceDots(dt);
      dots := RetainLive(dots);
      if ticks != [] {
        DropCc(Mez);
      }
    }

    method AdvanceDots(dt: real) returns (ticks: seq<Dots.DotTick>)
      modifies `dots
      ensures dots == Dots.AdvancedAll(old(dots), dt) && ticks == Dots.TicksOf(old(dots), dt)
    {
      ticks := [];
      var i := 0;
      while i < |dots|
        invariant 0 <= i <= |dots| && Burning(old(dots), dt, dots, i, ticks)
      {
        BurnsOn(old(dots), dt, dots, i, ticks);
        var dot, tick := AdvanceDot(dots[i], dt);
        dots := dots[i := dot];
        ticks := ticks + tick;
        i := i + 1;
      }
    }

    /** Partway through `was`: the first `i` of `s` have burned, dealing `ticks`, and the rest are yet to. */
    static predicate Burning(was: seq<Dots.Dot>, dt: real, s: seq<Dots.Dot>, i: nat, ticks: seq<Dots.DotTick>) {
      && i <= |s| == |was|
      && (forall j :: 0 <= j < |s| ==> s[j] == if j < i then Dots.Advanced(was[j], dt) else was[j])
      && Dots.TicksOf(was, dt) == ticks + Dots.TicksOf(was[i..], dt)
    }

    static lemma BurnsOn(was: seq<Dots.Dot>, dt: real, s: seq<Dots.Dot>, i: nat, ticks: seq<Dots.DotTick>)
      requires i < |s| && Burning(was, dt, s, i, ticks)
      ensures Burning(was, dt, s[i := Dots.Advanced(s[i], dt)], i + 1, ticks + Dots.Report(s[i], dt))
    {
      var rest := was[i..];
      assert rest[0] == s[i] && rest[1..] == was[i + 1..];
      assert Dots.TicksOf(rest, dt) == Dots.Report(s[i], dt) + Dots.TicksOf(rest[1..], dt);
    }

    static method AdvanceDot(d: Dots.Dot, dt: real) returns (dot: Dots.Dot, tick: seq<Dots.DotTick>)
      ensures dot == Dots.Advanced(d, dt) && tick == Dots.Report(d, dt)
    {
      tick := [];
      dot := d.(remaining := d.remaining - dt, tickAcc := d.tickAcc + dt);
      if dot.tickAcc >= Dots.DOT_TICK_SECS && dot.ticksLeft > 0 {
        dot := dot.(tickAcc := dot.tickAcc - Dots.DOT_TICK_SECS, ticksLeft := dot.ticksLeft - 1);
        var amount := Dots.TickAmount(dot.dps);
        if amount > 0 {
          tick := [Dots.DotTick(dot.name, dot.caster, amount, dot.dmgType)];
        }
      }
    }

    static method RetainLive(was: seq<Dots.Dot>) returns (kept: seq<Dots.Dot>)
      ensures kept == Dots.Live(was)
    {
      kept := [];
      var i := 0;
      while i < |was|
        invariant 0 <= i <= |was|
        invariant kept == Dots.Live(was[..i])
      {
        assert was[..i + 1] == was[..i] + [was[i]];
        Dots.LiveOfConcat(was[..i], was[i]);
        if was[i].ticksLeft > 0 {
          kept := kept + [was[i]];
        }
        i := i + 1;
      }
      assert was[..i] == was;
    }

    // --------------------------------------------------------------- buffs

    method ApplyStatDeltas(delta: PetBuffs.Stats, maxHpDelta: real)
      modifies `stats, `maxHp
      ensures forall b: PetBuffs.Buff ::
        b.effect == PetBuffs.StatBuff(delta, maxHpDelta) ==> Vitals() == PetBuffs.Gained(old(Vitals()), b)
    {
      stats := stats.Plus(delta);
      maxHp := Max(maxHp + maxHpDelta, 1.0);
    }

    method UndoStatDeltas(delta: PetBuffs.Stats, maxHpDelta: real)
      modifies `stats, `maxHp, `hp
      ensures forall b: PetBuffs.Buff ::
        b.effect == PetBuffs.StatBuff(delta, maxHpDelta) ==> Vitals() == PetBuffs.Lost(old(Vitals()), b)
    {
      stats := stats.Minus(delta);
      maxHp := Max(maxHp - maxHpDelta, 1.0);
      if hp > maxHp {
        hp := maxHp;
      }
    }

    method Undo(b: PetBuffs.Buff)
      modifies `stats, `maxHp, `hp
      ensures Vitals() == PetBuffs.Lost(old(Vitals()), b)
    {
      if b.effect.StatBuff? {
        UndoStatDeltas(b.effect.delta, b.effect.maxHpDelta);
      }
    }

    method BuffNamed(name: string) returns (i: nat)
      ensures i == PetBuffs.IndexOf(buffs, name)
    {
      i := 0;
      while i < |buffs| && buffs[i].name != name
        invariant i <= |buffs|
        invariant PetBuffs.IndexOf(buffs, name) == i + PetBuffs.IndexOf(buffs[i..], name)
      {
        assert buffs[i..][0] == buffs[i] && buffs[i..][1..] == buffs[i + 1..];
        i := i + 1;
      }
      if i < |buffs| {
        assert buffs[i..][0] == buffs[i];
      }
    }

    method ApplyBuff(b: PetBuffs.Buff)
      modifies `stats, `maxHp, `hp, `buffs
      ensures Pet() == PetBuffs.Applied(old(Pet()), b)
    {
      var i := BuffNamed(b.name);
      if i < |buffs| {
        Undo(buffs[i]);
        buffs := PetBuffs.Dropped(buffs, i);
      }
      if b.effect.StatBuff? {
        ApplyStatDeltas(b.effect.delta, b.effect.maxHpDelta);
      }
      buffs := buffs + [b];
    }

    /** `tick_buffs`' first loop: every buff's time and accumulator, and the whole points to heal. */
    method AdvanceBuffs(dt: real) returns (heal: int)
      modifies `buffs
      ensures buffs == PetBuffs.TickedAll(old(buffs), dt) && heal == PetBuffs.HealOf(old(buffs), dt)
    {
      heal := 0;
      var i := 0;
      while i < |buffs|
        invariant 0 <= i <= |buffs| && Ticking(old(buffs), dt, buffs, i, heal)
      {
        TicksOn(old(buffs), dt, buffs, i, heal);
        var b, whole := AdvanceBuff(buffs[i], dt);
        buffs := buffs[i := b];
        heal := heal + whole;
        i := i + 1;
      }
    }

    /** Partway through `was`: the first `i` of `s` have ticked for `heal`, and the rest are yet to. */
    static predicate Ticking(was: seq<PetBuffs.Buff>, dt: real, s: seq<PetBuffs.Buff>, i: nat, heal: int) {
      && i <= |s| == |was|
      && (forall j :: 0 <= j < |s| ==> s[j] == if j < i then PetBuffs.Ticked(was[j], dt) else was[j])
      && PetBuffs.HealOf(was, dt) == heal + PetBuffs.HealOf(was[i..], dt)
    }

    static lemma TicksOn(was: seq<PetBuffs.Buff>, dt: real, s: seq<PetBuffs.Buff>, i: nat, heal: int)
      requires i < |s| && Ticking(was, dt, s, i, heal)
      ensures Ticking(was, dt, s[i := PetBuffs.Ticked(s[i], dt)], i + 1, heal + PetBuffs.Credit(s[i], dt))
    {
      var rest := was[i..];
      assert rest[0] == s[i] && rest[1..] == was[i + 1..];
    }

    static method AdvanceBuff(b: PetBuffs.Buff, dt: real) returns (buff: PetBuffs.Buff, whole: int)
      ensures buff == PetBuffs.Ticked(b, dt) && whole == PetBuffs.Credit(b, dt)
    {
      whole := 0;
      buff := b.(remaining := b.remaining - dt, tickAcc := PetBuffs.Accrued(b, dt));
      if b.effect.Hot? && buff.tickAcc >= 1.0 {
        whole := buff.tickAcc.Floor;
        buff := buff.(tickAcc := buff.tickAcc - whole as real);
      }
    }

    /** `tick_buffs`' second loop: expired buffs removed where they stand, their deltas undone first. */
    method ShedExpired() returns (setChanged: bool)
      modifies `stats, `maxHp, `hp, `buffs
      ensures Vitals() == PetBuffs.Shed(old(Vitals()), old(buffs)) && buffs == PetBuffs.Holding(old(buffs))
      ensures setChanged <==> |buffs| < |old(buffs)|
    {
      ghost var held, shed := PetBuffs.Holding(buffs), PetBuffs.Shed(Vitals(), buffs);
      setChanged := false;
      var i := 0;
      while i < |buffs|
        invariant 0 <= i <= |buffs| && Shedding(held, shed, buffs, i, Vitals())
        invariant |buffs| <= |old(buffs)| && (setChanged <==> |buffs| < |old(buffs)|)
        decreases |buffs| - i
      {
        ShedsOn(held, shed, buffs, i, Vitals());
        if buffs[i].remaining <= 0.0 {
          RemoveExpired(i);
          setChanged := true;
        } else {
          i := i + 1;
        }
      }
      AllShed(held, shed, buffs, Vitals());
    }

    static lemma AllShed(held: seq<PetBuffs.Buff>, shed: PetBuffs.Vitals, s: seq<PetBuffs.Buff>, v: PetBuffs.Vitals)
      requires Shedding(held, shed, s, |s|, v)
      ensures held == s && shed == v
    {
      assert s[..|s|] == s && s[|s|..] == [];
    }

    method RemoveExpired(i: nat)
      requires i < |buffs|
      modifies `stats, `maxHp, `hp, `buffs
      ensures Vitals() == PetBuffs.Lost(old(Vitals()), old(buffs)[i]) && buffs == PetBuffs.Dropped(old(buffs), i)
    {
      Undo(buffs[i]);
      buffs := PetBuffs.Dropped(buffs, i);
    }

    /** Partway: the first `i` of `s` hold, and what the rest leaves will make up `held` and `shed`. */
    static predicate Shedding(held: seq<PetBuffs.Buff>, shed: PetBuffs.Vitals, s: seq<PetBuffs.Buff>, i: nat,
        v: PetBuffs.Vitals)
      requires i <= |s|
    {
      held == s[..i] + PetBuffs.Holding(s[i..]) && shed == PetBuffs.Shed(v, s[i..])
    }

    static lemma ShedsOn(held: seq<PetBuffs.Buff>, shed: PetBuffs.Vitals, s: seq<PetBuffs.Buff>, i: nat,
        v: PetBuffs.Vitals)
      requires i < |s| && Shedding(held, shed, s, i, v)
      ensures s[i].remaining > 0.0 ==> Shedding(held, shed, s, i + 1, v)
      ensures s[i].remaining <= 0.0 ==> Shedding(held, shed, PetBuffs.Dropped(s, i), i, PetBuffs.Lost(v, s[i]))
    {
      SplitAt(s, i);
      ShedHead(s[i..], v);
    }

    static lemma SplitAt(s: seq<PetBuffs.Buff>, i: nat)
      requires i < |s|
      ensures s[i..][0] == s[i] && s[i..][1..] == s[i + 1..] && s[..i + 1] == s[..i] + [s[i]]
      ensures PetBuffs.Dropped(s, i)[..i] == s[..i] && PetBuffs.Dropped(s, i)[i..] == s[i + 1..]
    {
    }

    static lemma ShedHead(rest: seq<PetBuffs.Buff>, v: PetBuffs.Vitals)
      requires rest != []
      ensures PetBuffs.Holding(rest) == (if rest[0].remaining > 0.0 then [rest[0]] else [])
        + PetBuffs.Holding(rest[1..])
      ensures PetBuffs.Shed(v, rest) ==
        PetBuffs.Shed(if rest[0].remaining > 0.0 then v else PetBuffs.Lost(v, rest[0]), rest[1..])
    {
    }

    method TickBuffs(dt: real) returns (change: PetBuffs.Change)
      modifies `stats, `maxHp, `hp, `buffs
      ensures Pet() == PetBuffs.TickBuffs(old(Pet()), dt) && change == PetBuffs.ChangeOf(old(Pet()), dt)
    {
      if buffs == [] {
        return PetBuffs.Change(false, false);
      }
      var heal := AdvanceBuffs(dt);
      var setChanged := ShedExpired();
      var hpChanged := false;
      if heal > 0 {
        var newHp := Min(hp + heal as real, maxHp);
        if newHp != hp {
          hp := newHp;
          hpChanged := true;
        }
      }
      change := PetBuffs.Change(hpChanged || setChanged, setChanged);
    }

    // ---------------------------------------------------------------- states

    method IsEvading(now: real) returns (evading: bool)
      ensures evading == (owner == None && MobRuns.Evading(View(), now))
    {
      if owner.Some? {
        return false;
      }
      match state
      case Leash => evading := true;
      case Chase =>
        evading := stuck.Some? && Elapsed(now, stuck.value.since) >= MobRuns.EVADE_GRACE_SECS
          && Elapsed(now, stuck.value.lastRefused) <= MobRuns.EVADE_REFUSAL_RECENT_SECS;
      case _ => evading := false;
    }

    method Transition(newState: State, now: real)
      modifies `state, `enteredAt, `stuck, `dots
      ensures View() == Rules.Transition(old(View()), newState, now)
    {
      if state == newState {
        return;
      }
      if newState.Leash? || newState.Dead? {
        dots := [];
      }
      state, enteredAt, stuck := newState, now, None;
    }

    method TurnOn(formerOwner: EntityId, now: real)
      modifies `threat, `target, `state, `enteredAt, `stuck, `dots
      ensures View() == MobRuns.TurnedOn(old(View()), formerOwner, now)
    {
      threat := threat[formerOwner := Max(maxHp, 1.0)];
      target := Some(formerOwner);
      Transition(Chase, now);
    }

    method GoHome(w: World, now: real)
      modifies `state, `enteredAt, `stuck, `dots
      ensures View() == MobRuns.SentHome(old(View()), w, now)
    {
      if Dist(w, pos, home) >= LEASH_HOME_TOLERANCE {
        Transition(Leash, now);
      }
    }

    // ----------------------------------------------------------------- walks

    method StepOn(w: World, to: Vec3) returns (moved: bool)
      modifies `pos
      ensures pos == Walk.StepOn(w, old(pos), to) && moved == w.slopeOk(old(pos), to)
    {
      if !w.slopeOk(pos, to) {
        return false;
      }
      pos := GroundVec(w, to);
      moved := true;
    }

    method StuckTooLong(moved: bool, goal: Option<EntityId>, dist: real, now: real) returns (out: bool)
      modifies `stuck
      ensures stuck == ClockAfter(old(stuck), moved, goal, dist, now) && out == RanOut(stuck, now)
    {
      if stuck.Some? && (stuck.value.goal != goal || dist <= stuck.value.startDist - STUCK_PROGRESS_M) {
        stuck := None;
      }
      if !moved {
        if stuck.Some? {
          stuck := Some(stuck.value.(lastRefused := now));
        } else {
          stuck := Some(StuckClock(now, goal, dist, now));
        }
      }
      out := stuck.Some? && Elapsed(now, stuck.value.since) >= MOB_STUCK_SECS;
    }

    /** A step toward a goal, and whether its stuck clock has run out. */
    method WalkToward(w: World, goal: Option<EntityId>, dest: Vec3, step: real, now: real) returns (out: bool)
      modifies `pos, `stuck
      ensures Walker(pos, stuck) == Approach(w, old(Walker(pos, stuck)), goal, dest, step, now)
      ensures out == RanOut(stuck, now)
    {
      var moved := StepOn(w, StepToward(w, pos, dest, step));
      out := StuckTooLong(moved, goal, Dist(w, pos, dest), now);
    }

    // ----------------------------------------------------------------- scans

    static method FindTarget(targets: Targets, id: EntityId) returns (at: Option<Vec3>)
      ensures at == TargetPos(targets, id)
    {
      var i := 0;
      while i < |targets|
        invariant 0 <= i <= |targets| && TargetPos(targets, id) == TargetPos(targets[i..], id)
      {
        assert targets[i..][0] == targets[i] && targets[i..][1..] == targets[i + 1..];
        if targets[i].0 == id {
          return Some(targets[i].1);
        }
        i := i + 1;
      }
      at := None;
    }

    method BestHaterWithinLeash(w: World, targets: Targets) returns (best: Option<EntityId>)
      ensures BestHater(View(), w, targets, best)
    {
      best := None;
      var left := threat.Keys;
      while left != {}
        invariant left <= threat.Keys
        invariant best.Some? ==> best.value !in left && IsHater(View(), w, targets, best.value)
        invariant forall id ::
          IsHater(View(), w, targets, id) && id !in left ==> best.Some? && threat[id] <= threat[best.value]
      {
        var id :| id in left;
        left := left - {id};
        if threat[id] > 0.0 {
          var at := FindTarget(targets, id);
          if at.Some? && Dist(w, pos, at.value) <= LeashRange(template) {
            if best.None? || threat[id] > threat[best.value] {
              best := Some(id);
            }
          }
        }
      }
    }

    method MaybeSwitchTargetByThreat(targets: Targets) returns (ghost rival: Option<EntityId>)
      modifies `target
      ensures old(target).Some? ==> TopRival(old(View()), targets, rival)
      ensures View() == Switched(old(View()), rival)
    {
      rival := None;
      if target.None? {
        return;
      }
      var current := target.value;
      var own := if current in threat then threat[current] else 0.0;
      var best: Option<EntityId> := None;
      var left := threat.Keys;
      while left != {}
        invariant left <= threat.Keys && target == Some(current)
        invariant best.Some? ==> best.value !in left && IsRival(View(), targets, best.value)
        invariant forall id ::
          IsRival(View(), targets, id) && id !in left ==> best.Some? && threat[id] <= threat[best.value]
      {
        var id :| id in left;
        left := left - {id};
        if id != current {
          var at := FindTarget(targets, id);
          if at.Some? && (best.None? || threat[id] > threat[best.value]) {
            best := Some(id);
          }
        }
      }
      rival := best;
      if best.Some? && threat[best.value] >= own * THREAT_SWITCH_MULT && threat[best.value] > 0.0 {
        target := best;
      }
    }

    method NearestTargetWithin(w: World, targets: Targets, hidden: set<EntityId>) returns (best: Option<nat>)
      ensures
        match best
        case None => NoticesNobody(View(), w, targets, hidden)
        case Some(i) => IsNearest(View(), w, targets, hidden, i)
    {
      best := None;
      var i, nearest := 0, 0.0;
      while i < |targets|
        invariant 0 <= i <= |targets|
        invariant best.None? ==> NoticesNobody(View(), w, targets[..i], hidden)
        invariant best.Some? ==> IsNearest(View(), w, targets[..i], hidden, best.value)
        invariant best.Some? ==> best.value < |targets| && nearest == Dist(w, pos, targets[best.value].1)
      {
        var (id, at) := targets[i];
        assert targets[..i + 1] == targets[..i] + [targets[i]];
        if id !in hidden {
          var d := Dist(w, pos, at);
          if d <= template.aggro && w.canSee(pos, at) {
            if best.None? || d < nearest {
              best, nearest := Some(i), d;
            }
          }
        }
        i := i + 1;
      }
      assert targets[..i] == targets;
    }

    // --------------------------------------------------------------- AI ticks

    method NextHaterOrHome(w: World, targets: Targets, now: real) returns (ghost hater: Option<EntityId>)
      modifies `target, `state, `enteredAt, `stuck, `dots
      ensures BestHater(old(View()), w, targets, hater)
      ensures View() == Rules.NextHaterOrHome(old(View()), hater, now)
    {
      var best := BestHaterWithinLeash(w, targets);
      hater := best;
      target := best;
      if target.Some? {
        Transition(Chase, now);
      } else {
        Transition(Leash, now);
      }
    }

    method TickIdle(w: World, targets: Targets, hidden: set<EntityId>, now: real)
      modifies `target, `state, `enteredAt, `stuck, `dots
      ensures IdleStep(old(View()), View(), w, targets, hidden, now)
    {
      var seen := NearestTargetWithin(w, targets, hidden);
      if seen.Some? {
        target := Some(targets[seen.value].0);
        Transition(Chase, now);
        return;
      }
      var hater := BestHaterWithinLeash(w, targets);
      if hater.Some? {
        target := hater;
        Transition(Chase, now);
      }
    }

    method TickChase(w: World, targets: Targets, dt: real, now: real)
      modifies `pos, `target, `state, `enteredAt, `stuck, `dots, `threat, `aggro
      ensures ChaseStep(old(View()), View(), w, targets, dt, now)
    {
      ghost var rival := MaybeSwitchTargetByThreat(targets);
      ghost var hater := ChaseOn(w, targets, dt, now);
      assert ChaseBy(old(View()), View(), w, targets, dt, now, rival, hater);
    }

    method ChaseOn(w: World, targets: Targets, dt: real, now: real) returns (ghost hater: Option<EntityId>)
      modifies `pos, `target, `state, `enteredAt, `stuck, `dots, `threat, `aggro
      ensures ChaseDoes(old(View()), ChaseCaseOf(old(View()), w, targets, dt, now), View(), w, targets, now, hater)
    {
      hater := None;
      if target.None? {
        hater := LoseTarget(w, targets, now);
        return;
      }
      var at := FindTarget(targets, target.value);
      if at.None? {
        hater := LoseTarget(w, targets, now);
        return;
      }
      hater := ChaseAt(w, targets, at.value, dt, now);
    }

    method ChaseAt(w: World, targets: Targets, at: Vec3, dt: real, now: real)
      returns (ghost hater: Option<EntityId>)
      requires target.Some? && TargetPos(targets, target.value) == Some(at)
      modifies `pos, `target, `state, `enteredAt, `stuck, `dots, `threat, `aggro
      ensures ChaseDoes(old(View()), ChaseCaseOf(old(View()), w, targets, dt, now), View(), w, targets, now, hater)
    {
      hater := None;
      var dist := Dist(w, pos, at);
      if dist > LeashRange(template) {
        threat := threat - {target.value};
        hater := LoseTarget(w, targets, now);
      } else if dist <= MeleeRange(template) {
        Transition(Attack, now);
      } else if Rooted(cc) {
        stuck := None;
      } else {
        hater := Pursue(w, targets, at, dt, now);
      }
    }

    method LoseTarget(w: World, targets: Targets, now: real) returns (ghost hater: Option<EntityId>)
      modifies `target, `state, `enteredAt, `stuck, `dots
      ensures BestHater(old(View()).(target := None), w, targets, hater)
      ensures View() == Rules.NextHaterOrHome(old(View()).(target := None), hater, now)
    {
      target := None;
      hater := NextHaterOrHome(w, targets, now);
    }

    method Pursue(w: World, targets: Targets, at: Vec3, dt: real, now: real) returns (ghost hater: Option<EntityId>)
      requires target.Some?
      modifies `pos, `target, `state, `enteredAt, `stuck, `dots, `threat, `aggro
      ensures
        var k := Pursuit(old(View()), w, at, dt, now);
        ChaseDoes(old(View()), if RanOut(k.stuck, now) then GivesUp(k) else Walking(k), View(), w, targets, now, hater)
    {
      hater := None;
      var out := WalkToward(w, target, at, SnaredStrideOf(template, enrage, cc, dt), now);
      if out {
        hater := GiveUp(w, targets, now);
      }
    }

    /** The end of a chase that cannot reach its target: forget that one, and turn on the next or go home. */
    method GiveUp(w: World, targets: Targets, now: real) returns (ghost hater: Option<EntityId>)
      requires target.Some?
      modifies `target, `state, `enteredAt, `stuck, `dots, `threat, `aggro
      ensures
        var c := GivesUp(old(Walker(pos, stuck)));
        BestHater(Forgetting(old(View()), c), w, targets, hater)
          && View() == AfterScan(Forgetting(old(View()), c), c, hater, now)
    {
      ghost var forgot := Forgetting(View(), GivesUp(Walker(pos, stuck)));
      threat := threat - {target.value};
      aggro := aggro - {target.value};
      stuck := None;
      assert forgot == View().(target := None);
      hater := TurnOnNext(w, targets, now);
    }

    method TurnOnNext(w: World, targets: Targets, now: real) returns (ghost hater: Option<EntityId>)
      modifies `target, `state, `enteredAt, `stuck, `dots, `threat, `aggro
      ensures BestHater(old(View()).(target := None), w, targets, hater)
      ensures
        var was := old(View()).(target := None);
        View() == if hater.Some? then was.(target := hater)
          else Rules.Transition(was.(threat := map[], aggro := map[]), Leash, now)
    {
      var best := BestHaterWithinLeash(w, targets);
      hater := best;
      BestHaterIgnoresTarget(View(), w, targets, best);
      target := best;
      if target.None? {
        threat, aggro := map[], map[];
        Transition(Leash, now);
      }
    }

    static lemma BestHaterIgnoresTarget(m: Mob, w: World, targets: Targets, best: Option<EntityId>)
      requires BestHater(m, w, targets, best)
      ensures BestHater(m.(target := None), w, targets, best)
    {
      assert forall id :: IsHater(m.(target := None), w, targets, id) == IsHater(m, w, targets, id);
    }

    method TickAttack(w: World, targets: Targets, now: real) returns (hit: Option<Hit>)
      modifies `target, `state, `enteredAt, `stuck, `dots, `lastAttackAt
      ensures AttackStep(old(View()), View(), hit, w, targets, now)
    {
      ghost var rival := MaybeSwitchTargetByThreat(targets);
      ghost var hater;
      hit, hater := FightOn(w, targets, now);
      assert AttackBy(old(View()), View(), hit, w, targets, now, rival, hater);
    }

    method FightOn(w: World, targets: Targets, now: real) returns (hit: Option<Hit>, ghost hater: Option<EntityId>)
      modifies `target, `state, `enteredAt, `stuck, `dots, `lastAttackAt
      ensures
        var was := old(View());
        AttackDoes(was, AttackCaseOf(was, w, targets, now), View(), hit, w, targets, now, hater, SwingDamage(was))
    {
      hit, hater := None, None;
      if target.None? {
        hater := LoseTarget(w, targets, now);
        return;
      }
      var at := FindTarget(targets, target.value);
      if at.None? {
        hater := LoseTarget(w, targets, now);
        return;
      }
      if Dist(w, pos, at.value) > MeleeRange(template) * ATTACK_RANGE_SLACK {
        Transition(Chase, now);
        return;
      }
      hit := SwingIfDue(now);
    }

    /** The swing both mobs and pets make at a target in reach. */
    method SwingIfDue(now: real) returns (hit: Option<Hit>)
      requires target.Some?
      modifies `lastAttackAt
      ensures
        if SwingDue(old(View()), now) then
          View() == old(View()).(lastAttackAt := Some(now)) && hit == Some(Hit(target.value, SwingDamage(old(View()))))
        else View() == old(View()) && hit == None
    {
      hit := None;
      var due := lastAttackAt.None?
        || (1.0 + HasteTotal(buffs) != 0.0 && Elapsed(now, lastAttackAt.value) >= PauseOf(template, cc, buffs));
      if due {
        lastAttackAt := Some(now);
        hit := Some(Hit(target.value, SwingDamageOf(template, Quot(stats.strength - baseStats.strength, 5), enrage)));
      }
    }

    method TickLeash(w: World, dt: real, now: real) returns (home: bool)
      modifies `pos, `hp, `threat, `aggro, `dots, `state, `enteredAt, `stuck
      ensures View() == LeashStep(old(View()), w, dt, now) && home == IsHome(old(View()), w)
    {
      if Dist(w, pos, this.home) < LEASH_HOME_TOLERANCE {
        hp := maxHp;
        threat, aggro, dots := map[], map[], [];
        Transition(Idle, now);
        return true;
      }
      var out := WalkToward(w, None, this.home, StrideOf(template, enrage, dt), now);
      if out {
        pos := GroundVec(w, this.home);
        stuck := None;
      }
      home := false;
    }

    // ------------------------------------------------------------- a pet's turn

    static method FindFoe(foes: seq<Foe>, id: EntityId) returns (foe: Option<Foe>)
      ensures foe == FoeOf(foes, id) && (foe.Some? ==> foe.value.id == id)
    {
      var i := 0;
      while i < |foes|
        invariant 0 <= i <= |foes| && FoeOf(foes, id) == FoeOf(foes[i..], id)
      {
        assert foes[i..][0] == foes[i] && foes[i..][1..] == foes[i + 1..];
        if foes[i].id == id {
          return Some(foes[i]);
        }
        i := i + 1;
      }
      foe := None;
    }

    method Engage(w: World, foe: Foe, dt: real, now: real) returns (hit: Option<Hit>)
      requires target == Some(foe.id)
      modifies `pos, `target, `stuck, `lastAttackAt
      ensures Turn(View(), hit) == PetAi.Engage(old(View()), w, foe, dt, now)
    {
      hit := None;
      if Dist(w, pos, foe.pos) <= MeleeRange(template) {
        stuck := None;
        hit := SwingIfDue(now);
      } else if !Rooted(cc) {
        var out := WalkToward(w, Some(foe.id), foe.pos, PetStrideOf(template, enrage, buffs, cc, dt), now);
        if out {
          target, stuck := None, None;
        }
      }
    }

    method Heel(w: World, owner: EntityId, targets: Targets, dt: real, now: real)
      modifies `pos, `stuck
      ensures View() == PetAi.Heel(old(View()), stance, owner, w, targets, dt, now)
    {
      if stance.Guard? {
        stuck := None;
        return;
      }
      var at := FindTarget(targets, owner);
      if at.None? {
        return;
      }
      if Dist(w, pos, at.value) > PET_FOLLOW_DISTANCE && !Rooted(cc) {
        var out := WalkToward(w, Some(owner), at.value, PetStrideOf(template, enrage, buffs, cc, dt), now);
        if out {
          pos := GroundVec(w, at.value);
          stuck := None;
        }
      } else {
        stuck := None;
      }
    }

    method TickPetAi(w: World, owner: EntityId, foes: seq<Foe>, x: Senses) returns (hit: Option<Hit>)
      modifies `pos, `target, `stuck, `lastAttackAt
      ensures Turn(View(), hit) == PetStep(old(View()), stance, owner, w, foes, x)
    {
      hit := None;
      if stance.Sit? {
        target := None;
        return;
      }
      var foe: Option<Foe> := None;
      if target.Some? {
        foe := FindFoe(foes, target.value);
      }
      if foe.Some? && foe.value.alive {
        hit := Engage(w, foe.value, x.dt, x.now);
      } else {
        if foe.Some? {
          target := None;
        }
        Heel(w, owner, x.targets, x.dt, x.now);
      }
    }

    // -------------------------------------------------------------- one AI tick

    method TickAtLarge(w: World, x: Senses)
      requires state.Idle? || state.Chase?
      modifies `pos, `target, `state, `enteredAt, `stuck, `dots, `threat, `aggro
      ensures Acts(old(View()), View(), None, w, x)
    {
      if state.Idle? {
        TickIdle(w, x.targets, x.hidden, x.now);
      } else {
        TickChase(w, x.targets, x.dt, x.now);
      }
    }

    method TickMob(w: World, x: Senses) returns (hit: Option<Hit>, healedHome: bool)
      modifies this
      ensures Acts(old(View()), View(), hit, w, x) && View().cc == old(cc)
      ensures healedHome <==> old(state).Leash? && state.Idle?
      ensures stance == old(stance)
    {
      hit, healedHome := None, false;
      if state.Idle? || state.Chase? {
        TickAtLarge(w, x);
      } else if state.Attack? {
        hit := TickAttack(w, x.targets, x.now);
      } else if state.Leash? {
        healedHome := TickLeash(w, x.dt, x.now);
      }
    }

    /**
     `tick_ai`: crowd control, then, unless frozen, a pet's turn or the mob's own. What
     it reports is what changed: the target, a blow, and the healing on arriving home.
     */
    method TickAi(w: World, x: Senses, foes: seq<Foe>) returns (events: AiEvents)
      modifies this
      ensures owner.None? ==> AiStep(old(View()), View(), events.hit, w, x)
      ensures owner.Some? ==> Turn(View(), events.hit) == PetTurn(old(View()), stance, owner.value, w, foes, x)
      ensures events.targetChanged == if target != old(target) then Some(target) else None
      ensures events.healedHome <==> owner.None? && old(state).Leash? && state.Idle?
      ensures stance == old(stance)
    {
      TickCc(x.dt);
      var prevTarget := target;
      events := AiEvents(None, None, false);
      if Frozen(cc) {
        return;
      }
      if owner.Some? {
        var hit := TickPetAi(w, owner.value, foes, x);
        events := events.(hit := hit);
      } else {
        var hit, healedHome := TickMob(w, x);
        events := events.(hit := hit, healedHome := healedHome);
      }
      if target != prevTarget {
        events := events.(targetChanged := Some(target));
      }
    }
  }
}
