/**
 No chase is for ever: whoever a mob hates and whatever the terrain, a chase of those
 who stand still ends upon one of them, on the way home, or in death.
 */
module MobChases {
  import opened Arithmetic
  import opened Options
  import opened Reals
  import opened Geometry
  import opened Walk
  import opened Mob
  import opened MobRuns
  import Dots

  ghost predicate OnGround(w: World, targets: Targets) {
    forall i :: 0 <= i < |targets| ==> GroundVec(w, targets[i].1) == targets[i].1
  }

  lemma {:induction false} FoundOnGround(w: World, targets: Targets, id: EntityId)
    requires OnGround(w, targets)
    ensures TargetPos(targets, id).Some? ==> GroundVec(w, TargetPos(targets, id).value) == TargetPos(targets, id).value
  {
    if targets != [] {
      FoundOnGround(w, targets[1..], id);
    }
  }

  // ------------------------------------------------------------ whom it may turn to

  predicate Absent(m: Mob, targets: Targets) {
    m.target.None? || TargetPos(targets, m.target.value).None?
  }

  /** One it hates, or the one it chases. */
  predicate IsFoe(m: Mob, id: EntityId) {
    id in m.threat || m.target == Some(id)
  }

  function Foes(m: Mob, targets: Targets): nat {
    if targets == [] then 0 else (if IsFoe(m, targets[0].0) then 1 else 0) + Foes(m, targets[1..])
  }

  /** A rival hated enough, beside the target, for the threat switch to turn to. */
  predicate OutHates(m: Mob, id: EntityId) {
    m.target.Some? && Some(id) != m.target && id in m.threat && m.threat[id] > 0.0
    && m.threat[id] >= ThreatOf(m, m.target.value) * THREAT_SWITCH_MULT
  }

  predicate Unsettled(m: Mob, targets: Targets) {
    targets != [] && (OutHates(m, targets[0].0) || Unsettled(m, targets[1..]))
  }

  /** How often it may yet turn: four for every foe present, more while its target is absent or out-hated. */
  function Turns(m: Mob, targets: Targets): nat {
    4 * Foes(m, targets) + (if Absent(m, targets) then 2 else 0) + (if Unsettled(m, targets) then 1 else 0)
  }

  lemma {:induction false} FoesShrink(m: Mob, m': Mob, targets: Targets)
    requires forall id :: IsFoe(m', id) ==> IsFoe(m, id) || TargetPos(targets, id).None?
    ensures Foes(m', targets) <= Foes(m, targets)
    ensures (exists id :: TargetPos(targets, id).Some? && IsFoe(m, id) && !IsFoe(m', id))
      ==> Foes(m', targets) < Foes(m, targets)
  {
    if targets != [] {
      forall id | IsFoe(m', id)
        ensures IsFoe(m, id) || TargetPos(targets[1..], id).None?
      {
        assert TargetPos(targets, id).None? ==> TargetPos(targets[1..], id).None?;
      }
      FoesShrink(m, m', targets[1..]);
      assert IsFoe(m', targets[0].0) ==> TargetPos(targets, targets[0].0).Some?;
    }
  }

  lemma {:induction false} UnsettledBy(m: Mob, targets: Targets)
    ensures Unsettled(m, targets) <==> exists id :: TargetPos(targets, id).Some? && OutHates(m, id)
  {
    if targets != [] {
      UnsettledBy(m, targets[1..]);
      assert TargetPos(targets, targets[0].0).Some?;
      assert forall id :: TargetPos(targets[1..], id).Some? ==> TargetPos(targets, id).Some?;
      assert forall id :: TargetPos(targets, id).Some? && id != targets[0].0 ==> TargetPos(targets[1..], id).Some?;
    }
  }

  /** Only whom it hates and whom it chases count. */
  lemma SameTurns(a: Mob, b: Mob, targets: Targets)
    requires a.target == b.target && a.threat == b.threat
    ensures Turns(a, targets) == Turns(b, targets)
  {
    UnsettledBy(a, targets);
    UnsettledBy(b, targets);
    FoesShrink(a, b, targets);
    FoesShrink(b, a, targets);
    assert forall id :: OutHates(a, id) == OutHates(b, id);
  }

  /** After the threat switch nobody out-hates the target, and a switch made is one turn fewer. */
  lemma SwitchSettles(m: Mob, targets: Targets, rival: Option<EntityId>)
    requires m.target.Some? ==> TopRival(m, targets, rival)
    ensures !Unsettled(Switched(m, rival), targets)
    ensures Switched(m, rival) == m || Turns(Switched(m, rival), targets) < Turns(m, targets)
  {
    var s := Switched(m, rival);
    UnsettledBy(m, targets);
    UnsettledBy(s, targets);
    if s != m {
      assert IsRival(m, targets, rival.value) && OutHates(m, rival.value);
      FoesShrink(m, s, targets);
    }
    forall id: EntityId | TargetPos(targets, id).Some?
      ensures !OutHates(s, id)
    {
      if OutHates(s, id) && Some(id) != m.target {
        assert IsRival(m, targets, id);
      }
    }
  }

  /** A chase that loses its target, leaves it behind or gives it up turns to another, a turn fewer, or ends. */
  lemma LosingTurns(s: Mob, c: ChaseCase, m': Mob, w: World, targets: Targets, now: real, hater: Option<EntityId>)
    requires s.state.Chase? && (c.Lost? || c.Beyond? || c.GivesUp?) && ChaseDoes(s, c, m', w, targets, now, hater)
    requires c.Lost? <==> Absent(s, targets)
    ensures m'.state.Leash? || (m'.state.Chase? && Turns(m', targets) < Turns(s, targets))
    ensures m'.state.Chase? ==> m'.template == s.template && m'.cc == s.cc && (m'.stuck == s.stuck || m'.stuck == None)
  {
    if hater.Some? {
      assert IsHater(Forgetting(s, c), w, targets, hater.value);
      FoesShrink(s, m', targets);
      if !c.Lost? {
        assert IsFoe(s, s.target.value) && !IsFoe(m', s.target.value);
      }
    }
  }

  // --------------------------------------------------------------- how far it may walk

  /** The most ticks any one walk within the leash may take. */
  function LongestWalk(range: real, s: real, gap: real): int
    requires s > 0.0 && gap > 0.0
  {
    Moves(range, s) * (Refusals(gap) + 1) + Refusals(gap)
  }

  /** Ticks left in this stretch of the chase: the walk's budget, and one more to see that it is over. */
  function Stretch(w: World, m: Mob, targets: Targets, s: real, gap: real, t: real): int
    requires s > 0.0 && gap > 0.0
  {
    if Absent(m, targets) then 1
    else
      var at := TargetPos(targets, m.target.value).value;
      if m.pos == at || Dist(w, m.pos, at) > LeashRange(m.template) then 1
      else 1 + Budget(w, Home(m), m.target, at, s, gap, t)
  }

  /** AI ticks that end the chase, whoever it turns to. */
  function TicksToEnd(w: World, m: Mob, targets: Targets, s: real, gap: real, t: real): int
    requires s > 0.0 && gap > 0.0
  {
    Turns(m, targets) * (LongestWalk(Max(LeashRange(m.template), 0.0), s, gap) + 2) + Stretch(w, m, targets, s, gap, t)
  }

  lemma FlatWithinDist(w: World, a: Vec3, b: Vec3)
    requires IsRoot(w.root)
    ensures Flat(w, a, b) <= Dist(w, a, b)
  {
    SquareNonNegative(a.x - b.x);
    SquareNonNegative(a.y - b.y);
    SquareNonNegative(a.z - b.z);
    assert Square(b.x - a.x) == Square(a.x - b.x) && Square(b.z - a.z) == Square(a.z - b.z);
    var flat, dist := Flat(w, a, b), Dist(w, a, b);
    assert Square(flat) <= Square(dist);
    if dist < flat {
      SquareStrict(dist, flat);
    }
  }

  lemma BudgetWithin(w: World, k: Walker, goal: Option<EntityId>, dest: Vec3, range: real, s: real, gap: real, t: real)
    requires IsRoot(w.root) && s > 0.0 && gap > 0.0 && ClockStarted(k, t) && Dist(w, k.pos, dest) <= range
    ensures 1 <= Budget(w, k, goal, dest, s, gap, t) <= LongestWalk(range, s, gap)
  {
    FlatWithinDist(w, k.pos, dest);
    QuotientMono(Flat(w, k.pos, dest), range, s);
    RefusalsLeftWithin(w, k, goal, dest, gap, t);
    BudgetPositive(w, k, goal, dest, s, gap, t);
    QuotientMono(0.0, MOB_STUCK_SECS, gap);
    MulMono(Moves(Flat(w, k.pos, dest), s), Moves(range, s), Refusals(gap) + 1);
  }

  lemma StretchWithin(w: World, m: Mob, targets: Targets, s: real, gap: real, t: real)
    requires IsRoot(w.root) && s > 0.0 && gap > 0.0 && ClockStarted(Home(m), t)
    ensures 1 <= Stretch(w, m, targets, s, gap, t) <= 1 + LongestWalk(Max(LeashRange(m.template), 0.0), s, gap)
  {
    var range := Max(LeashRange(m.template), 0.0);
    DistToSelf(w, m.pos);
    BudgetWithin(w, Walker(m.pos, None), None, m.pos, range, s, gap, t);
    if !Absent(m, targets) {
      var at := TargetPos(targets, m.target.value).value;
      if m.pos != at && Dist(w, m.pos, at) <= range {
        BudgetWithin(w, Home(m), m.target, at, range, s, gap, t);
      }
    }
  }

  /** Fewer turns outweigh any stretch. */
  lemma TurnsOutweigh(turns: nat, turns': nat, stretch: int, stretch': int, longest: int)
    requires 1 <= stretch && 1 <= stretch' <= 1 + longest
    ensures turns' < turns || (turns' <= turns && stretch' < stretch) ==>
      turns' * (longest + 2) + stretch' < turns * (longest + 2) + stretch
  {
    if turns' < turns {
      MulMono(turns', turns - 1, longest + 2);
      DiffTimes(turns, 1, longest + 2);
    }
  }

  // ----------------------------------------------------------------------- the ticks

  /** On the chase, free to move, its clock in the past. */
  ghost predicate Chasing(m: Mob, w: World, t: real) {
    && IsRoot(w.root) && m.state.Chase? && !Frozen(m.cc) && !Rooted(m.cc)
    && MeleeRange(m.template) >= 0.0 && ClockStarted(Home(m), t)
  }

  predicate OffTheChase(m: Mob) {
    m.state.Attack? || m.state.Leash? || m.state.Dead?
  }

  /** A tick of walking shortens the stretch. */
  lemma WalkingShortens(s: Mob, m': Mob, w: World, targets: Targets, k: Walker, step: real, stride: real, gap: real,
      t: real, now: real)
    requires IsRoot(w.root) && !Absent(s, targets) && step >= stride > 0.0 && gap > 0.0 && now >= t
      && ClockStarted(Home(s), t)
    requires
      var at := TargetPos(targets, s.target.value).value;
      && GroundVec(w, at) == at && s.pos != at && Dist(w, s.pos, at) <= LeashRange(s.template)
      && k == Approach(w, Home(s), s.target, at, step, now) && !RanOut(k.stuck, now)
    requires m' == s.(pos := k.pos, stuck := k.stuck)
    ensures ClockStarted(Home(m'), now + gap)
    ensures Stretch(w, m', targets, stride, gap, now + gap) < Stretch(w, s, targets, stride, gap, t)
  {
    var at := TargetPos(targets, s.target.value).value;
    assert Home(m') == k;
    ApproachSpends(w, Home(s), s.target, at, step, stride, gap, now, now + gap);
    WaitingSpends(w, Home(s), s.target, at, stride, gap, t, now);
    BudgetPositive(w, Home(s), s.target, at, stride, gap, t);
  }

  /** Fewer turns to make, or as many and a shorter stretch. */
  predicate Nearer(w: World, m: Mob, m': Mob, targets: Targets, stride: real, gap: real, t: real, t': real)
    requires stride > 0.0 && gap > 0.0
  {
    || Turns(m', targets) < Turns(m, targets)
    || (Turns(m', targets) <= Turns(m, targets)
        && Stretch(w, m', targets, stride, gap, t') < Stretch(w, m, targets, stride, gap, t))
  }

  /** Off the chase, or on it still and nearer its end. */
  ghost predicate Ending(m: Mob, m': Mob, w: World, targets: Targets, stride: real, gap: real, t: real, t': real)
    requires stride > 0.0 && gap > 0.0
  {
    OffTheChase(m')
    || (Chasing(m', w, t') && m'.template == m.template && Nearer(w, m, m', targets, stride, gap, t, t'))
  }

  lemma WalkingNears(s: Mob, m': Mob, w: World, targets: Targets, at: Vec3, k: Walker, step: real, stride: real,
      gap: real, t: real, now: real)
    requires Chasing(s, w, t) && !Absent(s, targets) && step >= stride > 0.0 && gap > 0.0 && now >= t
    requires TargetPos(targets, s.target.value) == Some(at) && GroundVec(w, at) == at
    requires Dist(w, s.pos, at) <= LeashRange(s.template) && s.pos != at
    requires k == Approach(w, Home(s), s.target, at, step, now) && !RanOut(k.stuck, now)
    requires m' == s.(pos := k.pos, stuck := k.stuck)
    ensures Chasing(m', w, now + gap) && Nearer(w, s, m', targets, stride, gap, t, now + gap)
  {
    WalkingShortens(s, m', w, targets, k, step, stride, gap, t, now);
    SameTurns(m', s, targets);
  }

  lemma BranchEnds(s: Mob, c: ChaseCase, m': Mob, w: World, x: Senses, hater: Option<EntityId>, stride: real,
      gap: real, t: real)
    requires Chasing(s, w, t) && stride > 0.0 && gap > 0.0 && OnGround(w, x.targets) && x.now >= t
    requires c == ChaseCaseOf(s, w, x.targets, x.dt, x.now) && ChaseDoes(s, c, m', w, x.targets, x.now, hater)
    requires SnaredStrideOf(s.template, s.enrage, s.cc, x.dt) >= stride
    ensures Ending(s, m', w, x.targets, stride, gap, t, x.now + gap)
  {
    if c.Lost? || c.Beyond? || c.GivesUp? {
      LosingTurns(s, c, m', w, x.targets, x.now, hater);
    } else if c.Walking? {
      var at := TargetPos(x.targets, s.target.value).value;
      FoundOnGround(w, x.targets, s.target.value);
      DistToSelf(w, at);
      var step := SnaredStrideOf(s.template, s.enrage, s.cc, x.dt);
      WalkingNears(s, m', w, x.targets, at, c.k, step, stride, gap, t, x.now);
    }
  }

  /** One tick of a chase: off it, or nearer its end. */
  lemma ChaseNears(m: Mob, m': Mob, w: World, x: Senses, stride: real, gap: real, t: real)
    requires Chasing(m, w, t) && stride > 0.0 && gap > 0.0 && OnGround(w, x.targets) && x.now >= t
    requires ChaseStep(m, m', w, x.targets, x.dt, x.now) && SnaredStrideOf(m.template, m.enrage, m.cc, x.dt) >= stride
    ensures Ending(m, m', w, x.targets, stride, gap, t, x.now + gap)
  {
    var rival: Option<EntityId>, hater: Option<EntityId> :| ChaseBy(m, m', w, x.targets, x.dt, x.now, rival, hater);
    var s := Switched(m, rival);
    SwitchSettles(m, x.targets, rival);
    BranchEnds(s, ChaseCaseOf(s, w, x.targets, x.dt, x.now), m', w, x, hater, stride, gap, t);
  }

  lemma AiNears(m: Mob, m': Mob, hit: Option<Hit>, w: World, x: Senses, stride: real, gap: real, t: real)
    requires Chasing(m, w, t) && stride > 0.0 && gap > 0.0 && OnGround(w, x.targets) && x.now >= t
    requires AiStep(m, m', hit, w, x) && SnaredStrideOf(m.template, m.enrage, TickCc(m.cc, x.dt), x.dt) >= stride
    ensures Ending(m, m', w, x.targets, stride, gap, t, x.now + gap)
  {
    TickCcOnlyRemoves(m.cc, x.dt);
    var c := m.(cc := TickCc(m.cc, x.dt));
    ChaseNears(c, m', w, x, stride, gap, t);
    SameChase(c, m, w, x.targets, stride, gap, t);
  }

  /** Crowd control plays no part in how far a chase is from its end. */
  lemma SameChase(a: Mob, b: Mob, w: World, targets: Targets, stride: real, gap: real, t: real)
    requires a == b.(cc := a.cc) && stride > 0.0 && gap > 0.0
    ensures Turns(a, targets) == Turns(b, targets)
    ensures Stretch(w, a, targets, stride, gap, t) == Stretch(w, b, targets, stride, gap, t)
  {
    SameTurns(a, b, targets);
  }

  // ------------------------------------------------------------- what comes between

  /** An event that gives it no more to hate than its prey does: the prey, if kept, hated no less. */
  predicate Calm(m: Mob, m': Mob) {
    && (forall x :: x in m'.threat && Some(x) != m'.target ==> x in m.threat && m'.threat[x] == m.threat[x])
    && if m'.target == m.target then m.target.Some? ==> ThreatOf(m', m.target.value) >= ThreatOf(m, m.target.value)
       else m'.target == None && m.target.value !in m'.threat
  }

  predicate Binds(e: Event) {
    e.Control? && (e.cc.kind.Mez? || e.cc.kind.Stun? || e.cc.kind.Root?)
  }

  lemma CalmKeepsTurns(m: Mob, m': Mob, targets: Targets)
    requires Calm(m, m')
    ensures Turns(m', targets) < Turns(m, targets)
      || ((m'.target == m.target || Absent(m, targets)) && Turns(m', targets) <= Turns(m, targets))
  {
    FoesShrink(m, m', targets);
    UnsettledBy(m, targets);
    UnsettledBy(m', targets);
    if m'.target == m.target {
      forall id | OutHates(m', id)
        ensures OutHates(m, id)
      {
      }
    } else if TargetPos(targets, m.target.value).Some? {
      assert IsFoe(m, m.target.value) && !IsFoe(m', m.target.value);
    }
  }

  lemma HurtsWalkOn(m: Mob, e: Event, m': Mob, w: World)
    requires m.state.Chase? && !Frozen(m.cc) && !Rooted(m.cc) && Next(m, e, m', w) && Hurts(e)
    ensures m'.state.Dead? || (m'.state.Chase? && SameWalk(m, m') && !Frozen(m'.cc) && !Rooted(m'.cc))
  {
  }

  lemma SweepWalksOn(m: Mob, dt: real, at: real)
    requires m.state.Chase? && !Frozen(m.cc) && !Rooted(m.cc)
    ensures
      var m' := Smouldered(m, dt, at);
      m'.state.Dead? || (m'.state.Chase? && SameWalk(m, m') && !Frozen(m'.cc) && !Rooted(m'.cc))
  {
    BurnedWalksOn(TickDots(m, dt), DotTicks(m, dt));
  }

  lemma OtherEventsWalkOn(m: Mob, e: Event, m': Mob, w: World)
    requires m.state.Chase? && !Frozen(m.cc) && !Rooted(m.cc) && Next(m, e, m', w) && !e.Ai? && !Binds(e)
    ensures m'.state.Dead? || (m'.state.Chase? && SameWalk(m, m') && !Frozen(m'.cc) && !Rooted(m'.cc))
  {
    if e.Sweep? {
      SweepWalksOn(m, e.dt, e.at);
    } else if Hurts(e) {
      HurtsWalkOn(m, e, m', w);
    }
  }

  lemma SameStretch(m: Mob, m': Mob, w: World, targets: Targets, stride: real, gap: real, t: real)
    requires SameWalk(m, m') && m'.target == m.target && stride > 0.0 && gap > 0.0
    ensures Stretch(w, m', targets, stride, gap, t) == Stretch(w, m, targets, stride, gap, t)
  {
  }

  /** Off the chase, or on it still and no further from its end. */
  ghost predicate NoFurther(m: Mob, m': Mob, w: World, targets: Targets, stride: real, gap: real, t: real)
    requires stride > 0.0 && gap > 0.0
  {
    OffTheChase(m') ||
    (Chasing(m', w, t) && m'.template == m.template
     && (Turns(m', targets) < Turns(m, targets)
         || (Turns(m', targets) <= Turns(m, targets)
             && Stretch(w, m', targets, stride, gap, t) == Stretch(w, m, targets, stride, gap, t))))
  }

  lemma OtherEventsNoFurther(m: Mob, e: Event, m': Mob, w: World, targets: Targets, stride: real, gap: real, t: real)
    requires Chasing(m, w, t) && stride > 0.0 && gap > 0.0
    requires Next(m, e, m', w) && !e.Ai? && !Binds(e) && Calm(m, m')
    ensures NoFurther(m, m', w, targets, stride, gap, t)
  {
    OtherEventsWalkOn(m, e, m', w);
    if !OffTheChase(m') {
      CalmNoFurther(m, m', w, targets, stride, gap, t);
    }
  }

  lemma CalmNoFurther(m: Mob, m': Mob, w: World, targets: Targets, stride: real, gap: real, t: real)
    requires Chasing(m, w, t) && Chasing(m', w, t) && stride > 0.0 && gap > 0.0 && SameWalk(m, m') && Calm(m, m')
    ensures NoFurther(m, m', w, targets, stride, gap, t)
  {
    CalmKeepsTurns(m, m', targets);
    if m'.target == m.target {
      SameStretch(m, m', w, targets, stride, gap, t);
    }
  }

  // ------------------------------------------------------------------------ the run

  /** An AI tick that finds the prey where they stood, of a stride at least, or something calm between two. */
  ghost predicate Fair(m: Mob, l: Link, targets: Targets, stride: real, t: real) {
    if l.e.Ai? then
      && l.e.x.now >= t && l.e.x.targets == targets
      && SnaredStrideOf(m.template, m.enrage, TickCc(m.cc, l.e.x.dt), l.e.x.dt) >= stride
    else !Binds(l.e) && Calm(m, l.after)
  }

  /** The earliest the next AI tick may come. */
  function Later(l: Link, gap: real, t: real): real {
    if l.e.Ai? then l.e.x.now + gap else t
  }

  /** The prey stand still through the run, AI ticks `gap` apart at least from `t` on. */
  ghost predicate PreyStand(m: Mob, run: seq<Link>, targets: Targets, stride: real, gap: real, t: real)
    decreases |run|
  {
    run != [] ==>
      Fair(m, run[0], targets, stride, t)
      && PreyStand(run[0].after, run[1..], targets, stride, gap, Later(run[0], gap, t))
  }

  predicate LeavesTheChase(run: seq<Link>) {
    exists i :: 0 <= i < |run| && OffTheChase(run[i].after)
  }

  lemma LeavesLater(run: seq<Link>)
    requires run != [] && (OffTheChase(run[0].after) || LeavesTheChase(run[1..]))
    ensures LeavesTheChase(run)
  {
    if !OffTheChase(run[0].after) {
      var i :| 0 <= i < |run| - 1 && OffTheChase(run[1..][i].after);
      assert run[i + 1] == run[1..][i];
    }
  }

  /** What a link does to a mob on the chase. */
  ghost predicate Brings(m: Mob, l: Link, w: World, targets: Targets, stride: real, gap: real, t: real)
    requires stride > 0.0 && gap > 0.0
  {
    if l.e.Ai? then Ending(m, l.after, w, targets, stride, gap, t, l.e.x.now + gap)
    else NoFurther(m, l.after, w, targets, stride, gap, t)
  }

  lemma LinkBrings(m: Mob, l: Link, w: World, targets: Targets, stride: real, gap: real, t: real)
    requires Chasing(m, w, t) && stride > 0.0 && gap > 0.0 && OnGround(w, targets)
    requires Next(m, l.e, l.after, w) && Fair(m, l, targets, stride, t)
    ensures Brings(m, l, w, targets, stride, gap, t)
  {
    if l.e.Ai? {
      AiNears(m, l.after, l.e.hit, w, l.e.x, stride, gap, t);
    } else {
      OtherEventsNoFurther(m, l.e, l.after, w, targets, stride, gap, t);
    }
  }

  /** A run judged link by link. */
  ghost predicate Judged(m: Mob, run: seq<Link>, gap: real, t: real, ok: (Mob, Link, real) -> bool)
    decreases |run|
  {
    run != [] ==> ok(m, run[0], t) && Judged(run[0].after, run[1..], gap, Later(run[0], gap, t), ok)
  }

  lemma {:induction false} RunIsJudged(m: Mob, run: seq<Link>, w: World, targets: Targets, stride: real, gap: real,
      t: real, ok: (Mob, Link, real) -> bool)
    requires Run(m, run, w) && PreyStand(m, run, targets, stride, gap, t)
    requires forall n: Mob, l: Link, u: real ::
      Next(n, l.e, l.after, w) && Fair(n, l, targets, stride, u) ==> ok(n, l, u)
    ensures Judged(m, run, gap, t, ok)
    decreases |run|
  {
    if run != [] {
      RunIsJudged(run[0].after, run[1..], w, targets, stride, gap, Later(run[0], gap, t), ok);
    }
  }

  /** Every AI tick of the run brings the end of the chase nearer, and nothing between puts it off. */
  ghost predicate Dwindles(m: Mob, run: seq<Link>, w: World, targets: Targets, stride: real, gap: real, t: real)
    requires stride > 0.0 && gap > 0.0
    decreases |run|
  {
    run != [] ==>
      Brings(m, run[0], w, targets, stride, gap, t)
      && (!OffTheChase(run[0].after) ==>
            Dwindles(run[0].after, run[1..], w, targets, stride, gap, Later(run[0], gap, t)))
  }

  lemma {:induction false} JudgedDwindles(m: Mob, run: seq<Link>, w: World, targets: Targets, stride: real,
      gap: real, t: real, ok: (Mob, Link, real) -> bool)
    requires Chasing(m, w, t) && stride > 0.0 && gap > 0.0 && Judged(m, run, gap, t, ok)
    requires forall n: Mob, l: Link, u: real ::
      ok(n, l, u) && Chasing(n, w, u) ==> Brings(n, l, w, targets, stride, gap, u)
    ensures Dwindles(m, run, w, targets, stride, gap, t)
    decreases |run|
  {
    if run != [] {
      assert Brings(m, run[0], w, targets, stride, gap, t);
      if !OffTheChase(run[0].after) {
        JudgedDwindles(run[0].after, run[1..], w, targets, stride, gap, Later(run[0], gap, t), ok);
      }
    }
  }

  lemma ChaseDwindles(m: Mob, run: seq<Link>, w: World, targets: Targets, stride: real, gap: real, t: real)
    requires Chasing(m, w, t) && stride > 0.0 && gap > 0.0 && OnGround(w, targets)
    requires Run(m, run, w) && PreyStand(m, run, targets, stride, gap, t)
    ensures Dwindles(m, run, w, targets, stride, gap, t)
  {
    ghost var ok := (n: Mob, l: Link, u: real) => Next(n, l.e, l.after, w) && Fair(n, l, targets, stride, u);
    forall n: Mob, l: Link, u: real | ok(n, l, u) && Chasing(n, w, u)
      ensures Brings(n, l, w, targets, stride, gap, u)
    {
      LinkBrings(n, l, w, targets, stride, gap, u);
    }
    RunIsJudged(m, run, w, targets, stride, gap, t, ok);
    JudgedDwindles(m, run, w, targets, stride, gap, t, ok);
  }

  lemma TicksCount(w: World, m: Mob, m': Mob, targets: Targets, stride: real, gap: real, t: real, t': real)
    requires Chasing(m, w, t) && Chasing(m', w, t') && m'.template == m.template && stride > 0.0 && gap > 0.0
    ensures Nearer(w, m, m', targets, stride, gap, t, t') ==>
      TicksToEnd(w, m', targets, stride, gap, t') < TicksToEnd(w, m, targets, stride, gap, t)
    ensures NoFurther(m, m', w, targets, stride, gap, t) && t' == t ==>
      TicksToEnd(w, m', targets, stride, gap, t) <= TicksToEnd(w, m, targets, stride, gap, t)
    ensures TicksToEnd(w, m, targets, stride, gap, t) >= 1
  {
    StretchWithin(w, m, targets, stride, gap, t);
    StretchWithin(w, m', targets, stride, gap, t');
    var longest := LongestWalk(Max(LeashRange(m.template), 0.0), stride, gap);
    TurnsOutweigh(Turns(m, targets), Turns(m', targets), Stretch(w, m, targets, stride, gap, t),
                  Stretch(w, m', targets, stride, gap, t'), longest);
    MulMono(0, Turns(m, targets), longest + 2);
  }

  lemma {:induction false} DwindlingEnds(m: Mob, run: seq<Link>, w: World, targets: Targets, stride: real, gap: real,
      t: real)
    requires Chasing(m, w, t) && stride > 0.0 && gap > 0.0 && Dwindles(m, run, w, targets, stride, gap, t)
    requires AiTicks(run) >= TicksToEnd(w, m, targets, stride, gap, t)
    ensures LeavesTheChase(run)
    decreases |run|
  {
    TicksCount(w, m, m, targets, stride, gap, t, t);
    var m', next := run[0].after, Later(run[0], gap, t);
    if !OffTheChase(m') {
      TicksCount(w, m, m', targets, stride, gap, t, next);
      DwindlingEnds(m', run[1..], w, targets, stride, gap, next);
    }
    LeavesLater(run);
  }

  /**
   No chase is for ever. Over any terrain, with everyone it may chase standing still on
   the ground, whatever else happens short of mez, stun, root and new hate for another:
   within its budget of AI ticks a mob is upon someone, or walking home, or dead.
   */
  lemma ChaseEnds(m: Mob, run: seq<Link>, w: World, targets: Targets, stride: real, gap: real, t: real)
    requires Chasing(m, w, t) && stride > 0.0 && gap > 0.0 && OnGround(w, targets)
    requires Run(m, run, w) && PreyStand(m, run, targets, stride, gap, t)
    requires AiTicks(run) >= TicksToEnd(w, m, targets, stride, gap, t)
    ensures LeavesTheChase(run)
  {
    ChaseDwindles(m, run, w, targets, stride, gap, t);
    DwindlingEnds(m, run, w, targets, stride, gap, t);
  }
}
