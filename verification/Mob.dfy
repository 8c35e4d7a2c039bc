/**
 The mob's rules, one tick at a time: whom it notices, whom it fights, when it
 walks home, and what it sheds on the way.

 The threat table is a hash map, scanned in no particular order, so ties between
 equal haters may fall either way. A scan's result is therefore any that satisfies
 its specification, and a tick is a relation between mobs, not a function.
 */
module Mob {
  import opened Reals
  import opened Arithmetic
  import opened Options
  import opened Geometry
  import opened Walk
  import Dots
  import PetBuffs

  const MIN_LEASH_RANGE: real := 35.0
  const LEASH_HOME_TOLERANCE: real := 1.0
  const THREAT_SWITCH_MULT: real := 1.3
  const ATTACK_RANGE_SLACK: real := 1.2

  datatype State = Idle | Chase | Attack | Leash | Dead

  datatype CcKind = Mez | Root | Snare(pct: nat) | AttackSlow(pct: nat) | Stun
  datatype Cc = Cc(kind: CcKind, remaining: real)

  datatype Template = Template(
    speed: real, aggro: real, leash: Option<real>, meleeRange: Option<real>, attackInterval: Option<real>, dmg: int)

  datatype Enrage = Enrage(damageMult: real, speedMult: real)

  datatype Mob = Mob(
    template: Template, home: Vec3, pos: Vec3, vitals: PetBuffs.Vitals, baseStats: PetBuffs.Stats,
    state: State, target: Option<EntityId>, aggro: map<EntityId, real>, threat: map<EntityId, real>,
    lastAttackAt: Option<real>, enteredAt: real, cc: seq<Cc>, dots: seq<Dots.Dot>, buffs: seq<PetBuffs.Buff>,
    enrage: Option<Enrage>, stuck: Option<StuckClock>)

  type Targets = seq<(EntityId, Vec3)>

  datatype Hit = Hit(target: EntityId, amount: int)

  // ------------------------------------------------------------ crowd control

  function TickCc(cc: seq<Cc>, dt: real): seq<Cc> {
    if cc == [] then []
    else if cc[0].remaining - dt > 0.0 then [cc[0].(remaining := cc[0].remaining - dt)] + TickCc(cc[1..], dt)
    else TickCc(cc[1..], dt)
  }

  predicate SameKind(a: CcKind, b: CcKind) {
    match a
    case Mez => b.Mez?
    case Root => b.Root?
    case Snare(_) => b.Snare?
    case AttackSlow(_) => b.AttackSlow?
    case Stun => b.Stun?
  }

  function CcWithout(cc: seq<Cc>, kind: CcKind): (r: seq<Cc>)
    ensures forall c :: c in r <==> c in cc && !SameKind(c.kind, kind)
  {
    if cc == [] then []
    else if SameKind(cc[0].kind, kind) then CcWithout(cc[1..], kind)
    else [cc[0]] + CcWithout(cc[1..], kind)
  }

  /** The attack slow in force, as a percentage. */
  function SlowPct(cc: seq<Cc>): nat {
    if cc == [] then 0
    else
      var rest := SlowPct(cc[1..]);
      if cc[0].kind.AttackSlow? && cc[0].kind.pct > rest then cc[0].kind.pct else rest
  }

  function SnarePct(cc: seq<Cc>): nat {
    if cc == [] then 0
    else
      var rest := SnarePct(cc[1..]);
      if cc[0].kind.Snare? && cc[0].kind.pct > rest then cc[0].kind.pct else rest
  }

  /** `apply_cc`: one of a kind, the newest, except that a weaker attack slow never replaces a stronger. */
  function ApplyCc(cc: seq<Cc>, c: Cc): seq<Cc> {
    if c.kind.AttackSlow? && SlowPct(cc) > c.kind.pct then cc else CcWithout(cc, c.kind) + [c]
  }

  predicate Frozen(cc: seq<Cc>) {
    exists c :: c in cc && (c.kind.Mez? || c.kind.Stun?)
  }

  predicate Rooted(cc: seq<Cc>) {
    exists c :: c in cc && c.kind.Root?
  }

  predicate OneOfAKind(cc: seq<Cc>) {
    forall i, j :: 0 <= i < j < |cc| ==> !SameKind(cc[i].kind, cc[j].kind)
  }

  lemma {:induction false} TickCcOfConcat(s: seq<Cc>, x: Cc, dt: real)
    ensures TickCc(s + [x], dt) ==
      TickCc(s, dt) + (if x.remaining - dt > 0.0 then [x.(remaining := x.remaining - dt)] else [])
    decreases |s|
  {
    if s == [] {
      assert s + [x] == [x];
    } else {
      assert (s + [x])[0] == s[0] && (s + [x])[1..] == s[1..] + [x];
      TickCcOfConcat(s[1..], x, dt);
    }
  }

  lemma {:induction false} CcWithoutOfConcat(s: seq<Cc>, x: Cc, kind: CcKind)
    ensures CcWithout(s + [x], kind) == CcWithout(s, kind) + (if SameKind(x.kind, kind) then [] else [x])
    decreases |s|
  {
    if s == [] {
      assert s + [x] == [x];
    } else {
      assert (s + [x])[0] == s[0] && (s + [x])[1..] == s[1..] + [x];
      CcWithoutOfConcat(s[1..], x, kind);
    }
  }

  lemma {:induction false} CcWithoutOneOfAKind(cc: seq<Cc>, kind: CcKind)
    requires OneOfAKind(cc)
    ensures OneOfAKind(CcWithout(cc, kind))
  {
    if cc != [] {
      CcWithoutOneOfAKind(cc[1..], kind);
      assert forall c :: c in cc[1..] ==> !SameKind(cc[0].kind, c.kind);
    }
  }

  lemma {:induction false} SlowOfConcat(a: seq<Cc>, c: Cc)
    ensures SlowPct(a + [c]) == if c.kind.AttackSlow? && c.kind.pct > SlowPct(a) then c.kind.pct else SlowPct(a)
  {
    if a == [] {
      assert a + [c] == [c] && [c][1..] == [];
    } else {
      assert (a + [c])[1..] == a[1..] + [c];
      SlowOfConcat(a[1..], c);
    }
  }

  lemma {:induction false} SlowOfOthers(cc: seq<Cc>, kind: CcKind)
    ensures SlowPct(CcWithout(cc, kind)) == if kind.AttackSlow? then 0 else SlowPct(cc)
  {
    if cc != [] {
      SlowOfOthers(cc[1..], kind);
      assert ([cc[0]] + CcWithout(cc[1..], kind))[1..] == CcWithout(cc[1..], kind);
    }
  }

  /** The strongest attack slow wins: a new one leaves the larger of the two, and other effects leave it alone. */
  lemma StrongestSlowWins(cc: seq<Cc>, c: Cc)
    ensures SlowPct(ApplyCc(cc, c)) ==
      if c.kind.AttackSlow? && c.kind.pct > SlowPct(cc) then c.kind.pct else SlowPct(cc)
    ensures OneOfAKind(cc) ==> OneOfAKind(ApplyCc(cc, c))
  {
    SlowOfOthers(cc, c.kind);
    SlowOfConcat(CcWithout(cc, c.kind), c);
    if OneOfAKind(cc) {
      CcWithoutOneOfAKind(cc, c.kind);
    }
  }

  lemma {:induction false} TickCcOnlyRemoves(cc: seq<Cc>, dt: real)
    ensures forall c :: c in TickCc(cc, dt) ==> exists d :: d in cc && d.kind == c.kind
    ensures Frozen(TickCc(cc, dt)) ==> Frozen(cc)
  {
    if cc != [] {
      TickCcOnlyRemoves(cc[1..], dt);
      forall c | c in TickCc(cc, dt)
        ensures exists d :: d in cc && d.kind == c.kind
      {
        if c in TickCc(cc[1..], dt) {
          var d :| d in cc[1..] && d.kind == c.kind;
          assert d in cc;
        } else {
          assert cc[0] in cc;
        }
      }
    }
  }

  lemma {:induction false} TickedCcIff(cc: seq<Cc>, dt: real, kind: CcKind, left: real)
    ensures Cc(kind, left) in TickCc(cc, dt) <==> left > 0.0 && Cc(kind, left + dt) in cc
  {
    if cc != [] {
      TickedCcIff(cc[1..], dt, kind, left);
      assert Cc(kind, left + dt) in cc <==> cc[0] == Cc(kind, left + dt) || Cc(kind, left + dt) in cc[1..];
      assert cc[0].(remaining := cc[0].remaining - dt) == Cc(cc[0].kind, cc[0].remaining - dt);
    }
  }

  /** The slow and the snare in force are the strongest held, or nothing. */
  lemma {:induction false} StrongestInForce(cc: seq<Cc>)
    ensures forall c :: c in cc && c.kind.AttackSlow? ==> c.kind.pct <= SlowPct(cc)
    ensures SlowPct(cc) == 0 || exists c :: c in cc && c.kind == AttackSlow(SlowPct(cc))
    ensures forall c :: c in cc && c.kind.Snare? ==> c.kind.pct <= SnarePct(cc)
    ensures SnarePct(cc) == 0 || exists c :: c in cc && c.kind == Snare(SnarePct(cc))
  {
    if cc != [] {
      StrongestInForce(cc[1..]);
      assert cc[0] in cc && forall c :: c in cc[1..] ==> c in cc;
    }
  }

  // ------------------------------------------------------------------- reads

  /** How far from itself a mob keeps chasing; never short of spell reach for one that aggros at all. */
  function LeashRange(t: Template): real {
    var configured := if t.leash.Some? then t.leash.value else t.aggro * 2.0;
    if t.aggro > 0.0 then Max(configured, MIN_LEASH_RANGE) else configured
  }

  function MeleeRange(t: Template): real {
    if t.meleeRange.Some? then t.meleeRange.value else 1.8
  }

  /** A camp that says no more: a leash of twice the aggro radius and spell reach at least, 1.8 m of melee. */
  lemma DefaultReach(t: Template)
    requires t.leash == None && t.meleeRange == None
    ensures t.aggro > 0.0 ==> LeashRange(t) == Max(2.0 * t.aggro, 35.0)
    ensures t.aggro <= 0.0 ==> LeashRange(t) == 2.0 * t.aggro
    ensures MeleeRange(t) == 1.8
  {
  }

  function EnragedSpeedOf(t: Template, enrage: Option<Enrage>): real {
    if enrage.Some? then t.speed * enrage.value.speedMult else t.speed
  }

  /** How far a tick carries it: walking home nothing slows it, on a chase a snare does. */
  function StrideOf(t: Template, enrage: Option<Enrage>, dt: real): real {
    EnragedSpeedOf(t, enrage) * dt
  }

  function Stride(m: Mob, dt: real): real {
    StrideOf(m.template, m.enrage, dt)
  }

  function SnaredStrideOf(t: Template, enrage: Option<Enrage>, cc: seq<Cc>, dt: real): real {
    EnragedSpeedOf(t, enrage) * (1.0 - SnarePct(cc) as real / 100.0) * dt
  }

  function HasteTotal(buffs: seq<PetBuffs.Buff>): real {
    if buffs == [] then 0.0
    else (if buffs[0].effect.Haste? then buffs[0].effect.amount else 0.0) + HasteTotal(buffs[1..])
  }

  lemma {:induction false} HasteOfConcat(a: seq<PetBuffs.Buff>, b: seq<PetBuffs.Buff>)
    ensures HasteTotal(a + b) == HasteTotal(a) + HasteTotal(b)
  {
    if a == [] {
      assert a + b == b;
    } else {
      assert (a + b)[0] == a[0] && (a + b)[1..] == a[1..] + b;
      HasteOfConcat(a[1..], b);
    }
  }

  /** Hastes add up: one more is its amount more. */
  lemma OneMoreHaste(buffs: seq<PetBuffs.Buff>, b: PetBuffs.Buff)
    ensures HasteTotal([]) == 0.0
    ensures HasteTotal(buffs + [b]) == HasteTotal(buffs) + if b.effect.Haste? then b.effect.amount else 0.0
  {
    HasteOfConcat(buffs, [b]);
    assert [b][1..] == [];
  }

  /** `attack_interval`, where haste does not divide by zero. */
  function PauseOf(t: Template, cc: seq<Cc>, buffs: seq<PetBuffs.Buff>): real {
    var base := if t.attackInterval.Some? then t.attackInterval.value else 2.5;
    var slow, haste := 1.0 + SlowPct(cc) as real / 100.0, 1.0 + HasteTotal(buffs);
    if haste == 0.0 then 0.0 else base * slow / haste
  }

  function Pause(m: Mob): real {
    PauseOf(m.template, m.cc, m.buffs)
  }

  /** Whether the swing timer is up; a haste that divides by zero never lets it be. */
  predicate SwingDue(m: Mob, now: real) {
    m.lastAttackAt.None? || (1.0 + HasteTotal(m.buffs) != 0.0 && Elapsed(now, m.lastAttackAt.value) >= Pause(m))
  }

  function SwingDamageOf(t: Template, bonus: int, enrage: Option<Enrage>): (dmg: int)
    ensures dmg >= 1
  {
    var base := if t.dmg + bonus > 1 then t.dmg + bonus else 1;
    if enrage.None? then base
    else
      var scaled := (base as real * enrage.value.damageMult + 0.5).Floor;
      if scaled > 1 then scaled else 1
  }

  /** `melee_swing_damage`: the template's, with a fifth of the strength buffs have added, scaled once enraged. */
  function SwingDamage(m: Mob): (dmg: int)
    ensures dmg >= 1
  {
    SwingDamageOf(m.template, Quot(m.vitals.stats.strength - m.baseStats.strength, 5), m.enrage)
  }

  lemma EnragedToTheNearest(t: Template, bonus: int, how: Enrage)
    ensures
      var multiple := SwingDamageOf(t, bonus, None) as real * how.damageMult;
      var dealt := SwingDamageOf(t, bonus, Some(how)) as real;
      multiple >= 1.0 ==> dealt - 0.5 <= multiple < dealt + 0.5
  {
  }

  /**
   An unbuffed, unenraged mob strikes for its template's damage; every five points of
   strength buffs add is one more, every five they take one less, and fewer than five
   nothing; enraged, it strikes for the multiple, to the nearest point.
   */
  lemma SwingDamageFollows(m: Mob, k: int)
    requires
      var buffed := m.vitals.stats.strength - m.baseStats.strength;
      (buffed >= 0 && 5 * k <= buffed < 5 * (k + 1)) || (buffed < 0 && 5 * (k - 1) < buffed <= 5 * k)
    ensures m.enrage.None? ==> SwingDamage(m) == if m.template.dmg + k > 1 then m.template.dmg + k else 1
    ensures m.enrage.Some? ==>
      var multiple := SwingDamage(m.(enrage := None)) as real * m.enrage.value.damageMult;
      multiple >= 1.0 ==> SwingDamage(m) as real - 0.5 <= multiple < SwingDamage(m) as real + 0.5
  {
    var buffed := m.vitals.stats.strength - m.baseStats.strength;
    assert Quot(buffed, 5) == k;
    if m.enrage.Some? {
      EnragedToTheNearest(m.template, k, m.enrage.value);
    }
  }

  function TargetPos(targets: Targets, id: EntityId): Option<Vec3> {
    if targets == [] then None
    else if targets[0].0 == id then Some(targets[0].1)
    else TargetPos(targets[1..], id)
  }

  function ThreatOf(m: Mob, id: EntityId): real {
    if id in m.threat then m.threat[id] else 0.0
  }

  // ------------------------------------------------------------------- scans

  /** A present attacker the mob has hate for, standing within its leash. */
  predicate IsHater(m: Mob, w: World, targets: Targets, id: EntityId) {
    && id in m.threat && m.threat[id] > 0.0
    && TargetPos(targets, id).Some?
    && Dist(w, m.pos, TargetPos(targets, id).value) <= LeashRange(m.template)
  }

  /** Any result of `best_hater_within_leash`: a hater none out-hates, or none when there is none. */
  ghost predicate BestHater(m: Mob, w: World, targets: Targets, r: Option<EntityId>) {
    match r
    case None => forall id :: !IsHater(m, w, targets, id)
    case Some(id) =>
      && IsHater(m, w, targets, id)
      && (forall x :: IsHater(m, w, targets, x) ==> m.threat[x] <= m.threat[id])
  }

  predicate IsRival(m: Mob, targets: Targets, id: EntityId) {
    id in m.threat && Some(id) != m.target && TargetPos(targets, id).Some?
  }

  /** The present attacker, other than the target, with the most threat. */
  ghost predicate TopRival(m: Mob, targets: Targets, r: Option<EntityId>) {
    match r
    case None => forall id :: !IsRival(m, targets, id)
    case Some(id) =>
      && IsRival(m, targets, id)
      && (forall x :: IsRival(m, targets, x) ==> m.threat[x] <= m.threat[id])
  }

  /** `maybe_switch_target_by_threat`: a rival with 1.3 times the target's threat takes its place. */
  function Switched(m: Mob, rival: Option<EntityId>): Mob {
    if m.target.None? || rival.None? then m
    else
      var theirs, own := ThreatOf(m, rival.value), ThreatOf(m, m.target.value);
      if theirs >= own * THREAT_SWITCH_MULT && theirs > 0.0 then m.(target := rival) else m
  }

  predicate Notices(m: Mob, w: World, hidden: set<EntityId>, t: (EntityId, Vec3)) {
    t.0 !in hidden && Dist(w, m.pos, t.1) <= m.template.aggro && w.canSee(m.pos, t.1)
  }

  /** `nearest_target_within`: the index of the nearest target noticed, the first of equals. */
  predicate IsNearest(m: Mob, w: World, targets: Targets, hidden: set<EntityId>, i: nat) {
    && i < |targets|
    && Notices(m, w, hidden, targets[i])
    && (forall j :: 0 <= j < |targets| && Notices(m, w, hidden, targets[j]) ==>
          Dist(w, m.pos, targets[i].1) <= Dist(w, m.pos, targets[j].1)
          && (j < i ==> Dist(w, m.pos, targets[i].1) < Dist(w, m.pos, targets[j].1)))
  }

  predicate NoticesNobody(m: Mob, w: World, targets: Targets, hidden: set<EntityId>) {
    forall j :: 0 <= j < |targets| ==> !Notices(m, w, hidden, targets[j])
  }

  // -------------------------------------------------------------- transitions

  /** `transition`: nothing when already there; walking home or dying sheds every dot. */
  function Transition(m: Mob, s: State, now: real): Mob {
    if m.state == s then m
    else m.(state := s, enteredAt := now, stuck := None, dots := if s.Leash? || s.Dead? then [] else m.dots)
  }

  function NextHaterOrHome(m: Mob, hater: Option<EntityId>, now: real): Mob {
    Transition(m.(target := hater), if hater.Some? then Chase else Leash, now)
  }

  /** `apply_dot`: refused on the walk home; otherwise it lands and breaks mez. */
  function ApplyDot(m: Mob, d: Dots.Dot): Mob {
    if m.state.Leash? then m
    else m.(dots := Dots.Applied(m.dots, d), cc := CcWithout(m.cc, Mez))
  }

  /** `tick_dots`: nothing on the dead; a tick dealt breaks mez. */
  function TickDots(m: Mob, dt: real): Mob {
    if m.dots == [] || m.state.Dead? then m
    else
      m.(dots := Dots.Swept(m.dots, dt),
         cc := if Dots.TicksOf(m.dots, dt) != [] then CcWithout(m.cc, Mez) else m.cc)
  }

  function DotTicks(m: Mob, dt: real): seq<Dots.DotTick> {
    if m.dots == [] || m.state.Dead? then [] else Dots.TicksOf(m.dots, dt)
  }

  // ------------------------------------------------------------------- states

  function Acquired(m: Mob, hater: Option<EntityId>, now: real): Mob {
    if hater.Some? then Transition(m.(target := hater), Chase, now) else m
  }

  ghost predicate IdleStep(m: Mob, m': Mob, w: World, targets: Targets, hidden: set<EntityId>, now: real) {
    || (exists i: nat ::
          IsNearest(m, w, targets, hidden, i) && m' == Transition(m.(target := Some(targets[i].0)), Chase, now))
    || (NoticesNobody(m, w, targets, hidden)
        && (exists hater: Option<EntityId> :: BestHater(m, w, targets, hater) && m' == Acquired(m, hater, now)))
  }

  /** The chase's walk this tick toward a target standing at `at`. */
  function Pursuit(m: Mob, w: World, at: Vec3, dt: real, now: real): Walker
    requires m.target.Some?
  {
    Approach(w, Walker(m.pos, m.stuck), m.target, at, SnaredStrideOf(m.template, m.enrage, m.cc, dt), now)
  }

  /** The branches of a chase, on the target the threat switch left. */
  datatype ChaseCase = Lost | Beyond | InReach | Held | Walking(k: Walker) | GivesUp(k: Walker)

  function ChaseCaseOf(m: Mob, w: World, targets: Targets, dt: real, now: real): ChaseCase {
    if m.target.None? || TargetPos(targets, m.target.value).None? then Lost
    else
      var at := TargetPos(targets, m.target.value).value;
      if Dist(w, m.pos, at) > LeashRange(m.template) then Beyond
      else if Dist(w, m.pos, at) <= MeleeRange(m.template) then InReach
      else if Rooted(m.cc) then Held
      else
        var k := Pursuit(m, w, at, dt, now);
        if RanOut(k.stuck, now) then GivesUp(k) else Walking(k)
  }

  /** The mob as it looks for its next hater: without the target it has lost or given up. */
  function Forgetting(m: Mob, c: ChaseCase): Mob {
    if m.target.None? then m
    else
      match c
      case Beyond => m.(threat := m.threat - {m.target.value}, target := None)
      case GivesUp(k) =>
        m.(pos := k.pos, threat := m.threat - {m.target.value}, aggro := m.aggro - {m.target.value},
           stuck := None, target := None)
      case _ => m.(target := None)
  }

  function AfterScan(m: Mob, c: ChaseCase, hater: Option<EntityId>, now: real): Mob {
    if !c.GivesUp? then NextHaterOrHome(m, hater, now)
    else if hater.Some? then m.(target := hater)
    else Transition(m.(threat := map[], aggro := map[]), Leash, now)
  }

  /** What each branch of a chase does to the mob. */
  ghost predicate ChaseDoes(s: Mob, c: ChaseCase, m': Mob, w: World, targets: Targets, now: real,
      hater: Option<EntityId>) {
    match c
    case InReach => m' == Transition(s, Attack, now)
    case Held => m' == s.(stuck := None)
    case Walking(k) => m' == s.(pos := k.pos, stuck := k.stuck)
    case _ => BestHater(Forgetting(s, c), w, targets, hater) && m' == AfterScan(Forgetting(s, c), c, hater, now)
  }

  ghost predicate ChaseBy(m: Mob, m': Mob, w: World, targets: Targets, dt: real, now: real,
                          rival: Option<EntityId>, hater: Option<EntityId>) {
    && (m.target.Some? ==> TopRival(m, targets, rival))
    && (var s := Switched(m, rival);
        ChaseDoes(s, ChaseCaseOf(s, w, targets, dt, now), m', w, targets, now, hater))
  }

  ghost predicate ChaseStep(m: Mob, m': Mob, w: World, targets: Targets, dt: real, now: real) {
    exists rival: Option<EntityId>, hater: Option<EntityId> :: ChaseBy(m, m', w, targets, dt, now, rival, hater)
  }

  datatype AttackCase = AttackLost | OutOfReach | Swing | Wait

  function AttackCaseOf(m: Mob, w: World, targets: Targets, now: real): AttackCase {
    if m.target.None? || TargetPos(targets, m.target.value).None? then AttackLost
    else if Dist(w, m.pos, TargetPos(targets, m.target.value).value) > MeleeRange(m.template) * ATTACK_RANGE_SLACK
      then OutOfReach
    else if SwingDue(m, now) then Swing
    else Wait
  }

  ghost predicate AttackDoes(s: Mob, c: AttackCase, m': Mob, hit: Option<Hit>, w: World, targets: Targets, now: real,
                             hater: Option<EntityId>, amount: int) {
    match c
    case AttackLost =>
      && BestHater(s.(target := None), w, targets, hater)
      && m' == NextHaterOrHome(s.(target := None), hater, now) && hit == None
    case OutOfReach => m' == Transition(s, Chase, now) && hit == None
    case Swing => s.target.Some? && m' == s.(lastAttackAt := Some(now)) && hit == Some(Hit(s.target.value, amount))
    case Wait => m' == s && hit == None
  }

  ghost predicate AttackBy(m: Mob, m': Mob, hit: Option<Hit>, w: World, targets: Targets, now: real,
                           rival: Option<EntityId>, hater: Option<EntityId>) {
    && (m.target.Some? ==> TopRival(m, targets, rival))
    && (var s := Switched(m, rival);
        AttackDoes(s, AttackCaseOf(s, w, targets, now), m', hit, w, targets, now, hater, SwingDamage(s)))
  }

  ghost predicate AttackStep(m: Mob, m': Mob, hit: Option<Hit>, w: World, targets: Targets, now: real) {
    exists rival: Option<EntityId>, hater: Option<EntityId> :: AttackBy(m, m', hit, w, targets, now, rival, hater)
  }

  /** Whether a mob walking home is near enough to count as there. */
  predicate IsHome(m: Mob, w: World) {
    Dist(w, m.pos, m.home) < LEASH_HOME_TOLERANCE
  }

  /** The reset on arrival: full hit points, and the fight forgotten. */
  function Arrived(m: Mob, now: real): Mob {
    Transition(m.(vitals := m.vitals.(hp := m.vitals.maxHp), threat := map[], aggro := map[], dots := []), Idle, now)
  }

  function WalkHome(m: Mob, w: World, dt: real, now: real): Walker {
    Approach(w, Walker(m.pos, m.stuck), None, m.home, Stride(m, dt), now)
  }

  /** `tick_leash`: arrive, or walk on; a walk the stuck clock gives up warps home. */
  function LeashStep(m: Mob, w: World, dt: real, now: real): Mob {
    if IsHome(m, w) then Arrived(m, now)
    else
      var k := WalkHome(m, w, dt, now);
      if RanOut(k.stuck, now) then m.(pos := GroundVec(w, m.home), stuck := None)
      else m.(pos := k.pos, stuck := k.stuck)
  }

  /** What one AI tick is told. */
  datatype Senses = Senses(targets: Targets, hidden: set<EntityId>, dt: real, now: real)

  /** The state's own tick, for a mob that is not frozen. */
  ghost predicate Acts(m: Mob, m': Mob, hit: Option<Hit>, w: World, x: Senses) {
    match m.state
    case Idle => IdleStep(m, m', w, x.targets, x.hidden, x.now) && hit == None
    case Chase => ChaseStep(m, m', w, x.targets, x.dt, x.now) && hit == None
    case Attack => AttackStep(m, m', hit, w, x.targets, x.now)
    case Leash => m' == LeashStep(m, w, x.dt, x.now) && hit == None
    case Dead => m' == m && hit == None
  }

  /** `tick_ai` for a mob of the world: crowd control first, then, unless frozen, the state's own tick. */
  ghost predicate AiStep(m: Mob, m': Mob, hit: Option<Hit>, w: World, x: Senses) {
    var c := m.(cc := TickCc(m.cc, x.dt));
    if Frozen(c.cc) then m' == c && hit == None else Acts(c, m', hit, w, x)
  }

  // ------------------------------------------------------ whom it turns home from

  /** A hater of the mob's, judged from where it now stands. */
  predicate StandsInLeash(m: Mob, now: Vec3, w: World, targets: Targets, id: EntityId) {
    IsHater(m.(pos := now), w, targets, id)
  }

  /** `id` is the target a chase has just given up as unreachable. */
  ghost predicate JustGivenUp(m: Mob, w: World, x: Senses, id: EntityId) {
    exists rival: Option<EntityId> :: GivenUpBy(m, w, x, id, rival)
  }

  ghost predicate GivenUpBy(m: Mob, w: World, x: Senses, id: EntityId, rival: Option<EntityId>) {
    && TopRival(m, x.targets, rival)
    && Switched(m, rival).target == Some(id)
    && ChaseCaseOf(Switched(m, rival), w, x.targets, x.dt, x.now).GivesUp?
  }

  /** What the branch of a chase says of the target it has left behind. */
  predicate LeftBehind(s: Mob, c: ChaseCase, w: World, targets: Targets) {
    c.Beyond? ==>
      && s.target.Some? && TargetPos(targets, s.target.value).Some?
      && Dist(w, s.pos, TargetPos(targets, s.target.value).value) > LeashRange(s.template)
  }

  lemma ForgettingSparesOthers(s: Mob, c: ChaseCase, w: World, targets: Targets, id: EntityId)
    requires LeftBehind(s, c, w, targets)
    requires StandsInLeash(s, Forgetting(s, c).pos, w, targets, id)
    ensures IsHater(Forgetting(s, c), w, targets, id) || (c.GivesUp? && s.target == Some(id))
  {
  }

  /**
   A target given up as unreachable is forgotten whole, hate and credit; so is everyone if the
   mob then turns home, and else it chases another it hates, from where it stands.
   */
  lemma GivingUpForgets(m: Mob, m': Mob, w: World, targets: Targets, dt: real, now: real,
      rival: Option<EntityId>, hater: Option<EntityId>)
    requires m.state.Chase? && ChaseBy(m, m', w, targets, dt, now, rival, hater)
    requires ChaseCaseOf(Switched(m, rival), w, targets, dt, now).GivesUp?
    ensures
      var id := Switched(m, rival).target.value;
      && m'.stuck == None
      && (if m'.state.Leash? then m'.target == None && m'.threat == map[] && m'.aggro == map[]
          else m'.state.Chase? && m'.target.Some? && m'.target.value != id
               && m'.threat == m.threat - {id} && m'.aggro == m.aggro - {id})
  {
    var s := Switched(m, rival);
    GivenUpIsForgotten(s, ChaseCaseOf(s, w, targets, dt, now), m', w, targets, now, hater);
  }

  lemma GivenUpIsForgotten(s: Mob, c: ChaseCase, m': Mob, w: World, targets: Targets, now: real,
      hater: Option<EntityId>)
    requires s.state.Chase? && s.target.Some? && c.GivesUp? && ChaseDoes(s, c, m', w, targets, now, hater)
    ensures
      var id := s.target.value;
      && m'.stuck == None
      && (if m'.state.Leash? then m'.target == None && m'.threat == map[] && m'.aggro == map[]
          else m'.state.Chase? && m'.target.Some? && m'.target.value != id
               && m'.threat == s.threat - {id} && m'.aggro == s.aggro - {id})
  {
  }

  /** A target out past the leash loses its hate and keeps its credit; one gone from sight keeps both. */
  lemma LostTargetKeepsCredit(s: Mob, c: ChaseCase, m': Mob, w: World, targets: Targets, now: real,
      hater: Option<EntityId>)
    requires s.state.Chase? && (c.Beyond? || c.Lost?) && ChaseDoes(s, c, m', w, targets, now, hater)
    ensures m'.aggro == s.aggro && m'.pos == s.pos
    ensures m'.threat == if c.Beyond? && s.target.Some? then s.threat - {s.target.value} else s.threat
  {
  }

  /** A rooted mob with its target out of melee stands, and has no walk to be stuck on. */
  lemma RootStopsTheClock(m: Mob, m': Mob, w: World, targets: Targets, dt: real, now: real, rival: Option<EntityId>,
      hater: Option<EntityId>)
    requires ChaseBy(m, m', w, targets, dt, now, rival, hater) && Rooted(m.cc)
    requires
      var s := Switched(m, rival);
      s.target.Some? && TargetPos(targets, s.target.value).Some?
      && MeleeRange(m.template) < Dist(w, m.pos, TargetPos(targets, s.target.value).value) <= LeashRange(m.template)
    ensures m' == Switched(m, rival).(stuck := None)
  {
  }

  lemma GoingHomeMeansNoHater(at: Mob, m': Mob, c: ChaseCase, hater: Option<EntityId>, w: World, targets: Targets,
      now: real, id: EntityId)
    requires at.state.Chase? && BestHater(at, w, targets, hater) && m' == AfterScan(at, c, hater, now)
      && m'.state.Leash?
    ensures m'.pos == at.pos && !IsHater(at, w, targets, id)
  {
  }

  lemma ChaseTurnsHome(m: Mob, m': Mob, w: World, x: Senses, id: EntityId)
    requires m.state.Chase? && ChaseStep(m, m', w, x.targets, x.dt, x.now) && m'.state.Leash?
    requires StandsInLeash(m, m'.pos, w, x.targets, id)
    ensures m.target.Some? && JustGivenUp(m, w, x, id)
  {
    var rival: Option<EntityId>, hater: Option<EntityId> :| ChaseBy(m, m', w, x.targets, x.dt, x.now, rival, hater);
    SwitchedTurnsHome(m, m', w, x, rival, hater, id);
  }

  lemma SwitchedTurnsHome(m: Mob, m': Mob, w: World, x: Senses, rival: Option<EntityId>, hater: Option<EntityId>,
      id: EntityId)
    requires m.state.Chase? && ChaseBy(m, m', w, x.targets, x.dt, x.now, rival, hater) && m'.state.Leash?
    requires StandsInLeash(m, m'.pos, w, x.targets, id)
    ensures m.target.Some? && GivenUpBy(m, w, x, id, rival)
  {
    var s := Switched(m, rival);
    var c := ChaseCaseOf(s, w, x.targets, x.dt, x.now);
    ChaseByTurnsHome(s, c, m', w, x.targets, x.now, hater, id);
  }

  lemma ChaseByTurnsHome(s: Mob, c: ChaseCase, m': Mob, w: World, targets: Targets, now: real,
      hater: Option<EntityId>, id: EntityId)
    requires s.state.Chase? && LeftBehind(s, c, w, targets) && m'.state.Leash?
    requires BestHater(Forgetting(s, c), w, targets, hater) && m' == AfterScan(Forgetting(s, c), c, hater, now)
    requires StandsInLeash(s, m'.pos, w, targets, id)
    ensures c.GivesUp? && s.target == Some(id)
  {
    GoingHomeMeansNoHater(Forgetting(s, c), m', c, hater, w, targets, now, id);
    ForgettingSparesOthers(s, c, w, targets, id);
  }

  lemma AttackTurnsHome(m: Mob, m': Mob, hit: Option<Hit>, w: World, x: Senses, id: EntityId)
    requires m.state.Attack? && AttackStep(m, m', hit, w, x.targets, x.now) && m'.state.Leash?
    ensures !StandsInLeash(m, m'.pos, w, x.targets, id)
  {
    var rival: Option<EntityId>, hater: Option<EntityId> :| AttackBy(m, m', hit, w, x.targets, x.now, rival, hater);
    FightTurnsHome(Switched(m, rival), m', hit, w, x, hater, id);
  }

  lemma FightTurnsHome(s: Mob, m': Mob, hit: Option<Hit>, w: World, x: Senses, hater: Option<EntityId>, id: EntityId)
    requires s.state.Attack? && m'.state.Leash?
    requires AttackDoes(s, AttackCaseOf(s, w, x.targets, x.now), m', hit, w, x.targets, x.now, hater, SwingDamage(s))
    ensures !StandsInLeash(s, m'.pos, w, x.targets, id)
  {
    assert !IsHater(s.(target := None), w, x.targets, id);
  }

  /**
   A mob turns for home from a chase or a fight only when no attacker it hates
   stands within its leash, save one it has just given up on as unreachable.
   */
  lemma TurnsHomeOnlyWhenAlone(m: Mob, m': Mob, hit: Option<Hit>, w: World, x: Senses, id: EntityId)
    requires AiStep(m, m', hit, w, x) && (m.state.Chase? || m.state.Attack?) && m'.state.Leash?
    requires StandsInLeash(m, m'.pos, w, x.targets, id)
    ensures m.state.Chase? && JustGivenUp(m.(cc := TickCc(m.cc, x.dt)), w, x, id)
  {
    var c := m.(cc := TickCc(m.cc, x.dt));
    if m.state.Chase? {
      ChaseTurnsHome(c, m', w, x, id);
    } else {
      AttackTurnsHome(c, m', hit, w, x, id);
    }
  }
}
