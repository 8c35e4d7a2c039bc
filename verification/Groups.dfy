/**
 Player groups: three maps kept consistent over invite, accept, leave and
 leadership changes, and the round-robin loot turn.

 `State` is the manager's abstract value. Each operation is a function on it,
 `GroupManager` carries the operations out in place and is proved to compute
 those functions, and the lemmas are about every run of them.
 */
module Groups {
  import opened Options
  import opened Sequences
  import opened Arithmetic

  type ClientId = nat
  type GroupId = nat

  datatype LootMode = RoundRobin | FreeForAll

  datatype Group = Group(
    id: GroupId, leader: ClientId, members: seq<ClientId>, lootMode: LootMode, lootTurn: nat)

  datatype PendingInvite = PendingInvite(inviter: ClientId, group: GroupId)

  datatype State = State(nextId: GroupId, groups: map<GroupId, Group>, memberOf: map<ClientId, GroupId>,
    pending: map<ClientId, PendingInvite>)

  const EMPTY: State := State(1, map[], map[], map[])

  // -------------------------------------------------------------- consistency

  predicate GroupOk(s: State, g: GroupId)
    requires g in s.groups
  {
    var group := s.groups[g];
    && group.id == g < s.nextId
    && NoDuplicates(group.members)
    && group.leader in group.members
    && (forall m :: m in group.members ==> m in s.memberOf && s.memberOf[m] == g)
  }

  /** The reverse index and the member lists are inverse to each other. */
  predicate Consistent(s: State) {
    && (forall g :: g in s.groups ==> GroupOk(s, g))
    && (forall m :: m in s.memberOf ==> s.memberOf[m] in s.groups && m in s.groups[s.memberOf[m]].members)
    && (forall c :: c in s.pending ==> s.pending[c].group < s.nextId)
  }

  // --------------------------------------------------------------- operations

  /** `group_for_or_new`: the inviter's group, or a new one of their own. */
  function GroupForOrNew(s: State, inviter: ClientId): (State, GroupId) {
    if inviter in s.memberOf then (s, s.memberOf[inviter])
    else
      var g := s.nextId;
      (s.(nextId := g + 1,
          groups := s.groups[g := Group(g, inviter, [inviter], RoundRobin, 0)],
          memberOf := s.memberOf[inviter := g]),
       g)
  }

  /**
   Whoever is in no group gets a new one, under an id never used, led by them, alone in it,
   taking turns from the first.
   */
  lemma NewGroupIsTheirs(s: State, inviter: ClientId)
    ensures
      var (s', g) := GroupForOrNew(s, inviter);
      if inviter in s.memberOf then s' == s && g == s.memberOf[inviter]
      else
        && g == s.nextId && s'.nextId == s.nextId + 1 && s'.pending == s.pending
        && s'.groups == s.groups[g := Group(g, inviter, [inviter], RoundRobin, 0)]
        && s'.memberOf == s.memberOf[inviter := g]
  {
  }

  function RecordInvite(s: State, inviter: ClientId, invitee: ClientId): (State, GroupId) {
    var (s', g) := GroupForOrNew(s, inviter);
    (s'.(pending := s'.pending[invitee := PendingInvite(inviter, g)]), g)
  }

  /** The group an accept would join: the recorded one, if it still stands and the invitee is free. */
  function JoinedBy(s: State, invitee: ClientId, from: ClientId): Option<GroupId> {
    if invitee !in s.pending || s.pending[invitee].inviter != from || invitee in s.memberOf then None
    else if s.pending[invitee].group !in s.groups then None
    else Some(s.pending[invitee].group)
  }

  function Accept(s: State, invitee: ClientId, from: ClientId): State {
    var answered := s.(pending := s.pending - {invitee});
    match JoinedBy(s, invitee, from)
    case None => answered
    case Some(g) =>
      var group := s.groups[g];
      answered.(groups := s.groups[g := group.(members := group.members + [invitee])],
                memberOf := s.memberOf[invitee := g])
  }

  function Without(members: seq<ClientId>, m: ClientId): (r: seq<ClientId>)
    ensures forall x :: x in r <==> x in members && x != m
  {
    if members == [] then []
    else if members[0] == m then Without(members[1..], m)
    else [members[0]] + Without(members[1..], m)
  }

  datatype Departure = Departure(group: GroupId, rest: seq<ClientId>, dissolved: bool)

  function DepartureOf(s: State, member: ClientId): Option<Departure> {
    if member !in s.memberOf || s.memberOf[member] !in s.groups then None
    else
      var g := s.memberOf[member];
      var rest := Without(s.groups[g].members, member);
      Some(Departure(g, rest, |rest| <= 1))
  }

  function Leave(s: State, member: ClientId): State {
    if member !in s.memberOf then s
    else
      var gone := s.(memberOf := s.memberOf - {member}, pending := s.pending - {member});
      match DepartureOf(s, member)
      case None => gone
      case Some(d) =>
        if d.dissolved then
          gone.(groups := s.groups - {d.group}, memberOf := gone.memberOf - (set m | m in d.rest))
        else
          var group := s.groups[d.group];
          var leader := if group.leader == member then d.rest[0] else group.leader;
          gone.(groups := s.groups[d.group := group.(members := d.rest, leader := leader)])
  }

  function PassLeadership(s: State, current: ClientId, newLeader: ClientId): (State, Option<GroupId>) {
    if current !in s.memberOf || s.memberOf[current] !in s.groups then (s, None)
    else
      var g := s.memberOf[current];
      var group := s.groups[g];
      if group.leader != current || newLeader !in group.members then (s, None)
      else (s.(groups := s.groups[g := group.(leader := newLeader)]), Some(g))
  }

  // ---------------------------------------------------------- the loot rotation

  /** The position `i` places round a circle of `n`: `i % n`, kept away from the solver's division. */
  function Place(i: nat, n: nat): (r: nat)
    requires n > 0
    ensures r < n
  {
    if i < n then i else Place(i - n, n)
  }

  lemma {:induction false} PlaceIsRemainder(i: nat, n: nat)
    requires n > 0
    ensures Place(i, n) == i % n
  {
    if i < n {
      DivisionUnique(i, n, 0, i);
    } else {
      PlaceIsRemainder(i - n, n);
      var q, r := (i - n) / n, (i - n) % n;
      assert (q + 1) * n == q * n + n;
      DivisionUnique(i, n, q + 1, r);
    }
  }

  /** The member the rotation reaches `offset` places past the pointer, stale or not. */
  function Candidate(members: seq<ClientId>, turn: nat, offset: nat): ClientId
    requires members != []
  {
    members[Place(turn + offset, |members|)]
  }

  /** How far past the pointer the first eligible member sits; `n` when nobody is eligible. */
  function FirstEligible(members: seq<ClientId>, turn: nat, eligible: set<ClientId>, offset: nat): (r: nat)
    requires offset <= |members|
    ensures offset <= r <= |members|
    ensures forall o :: offset <= o < r ==> Candidate(members, turn, o) !in eligible
    ensures r < |members| ==> Candidate(members, turn, r) in eligible
    decreases |members| - offset
  {
    if offset == |members| then offset
    else if Candidate(members, turn, offset) in eligible then offset
    else FirstEligible(members, turn, eligible, offset + 1)
  }

  /** One claim of the rotation: who is served, and the pointer left behind. */
  function Serve(members: seq<ClientId>, turn: nat, eligible: set<ClientId>): (Option<ClientId>, nat) {
    var r := FirstEligible(members, turn, eligible, 0);
    if r == |members| then (None, turn)
    else
      var i := Place(turn + r, |members|);
      (Some(members[i]), Place(i + 1, |members|))
  }

  function NextLootTurn(s: State, killer: ClientId, eligible: set<ClientId>): (State, Option<ClientId>) {
    if killer !in s.memberOf || s.memberOf[killer] !in s.groups then (s, None)
    else
      var g := s.memberOf[killer];
      var group := s.groups[g];
      if group.lootMode != RoundRobin then (s, None)
      else
        var (served, turn) := Serve(group.members, group.lootTurn, eligible);
        (s.(groups := s.groups[g := group.(lootTurn := turn)]), served)
  }

  /** Who each of a run of claims serves, the eligible members free to change at every claim. */
  function Served(members: seq<ClientId>, turn: nat, claims: seq<set<ClientId>>): (r: seq<Option<ClientId>>)
    ensures |r| == |claims|
    decreases |claims|
  {
    if claims == [] then []
    else
      var (who, turn') := Serve(members, turn, claims[0]);
      [who] + Served(members, turn', claims[1..])
  }

  /** Claims until position `p` comes up, counting from the pointer. */
  function Distance(turn: nat, p: nat, n: nat): (d: nat)
    requires p < n
    ensures d < n
  {
    var t := Place(turn, n);
    if p >= t then p - t else p - t + n
  }

  lemma {:induction false} PlacePlus(turn: nat, o: nat, n: nat)
    requires o < n
    ensures
      var t := Place(turn, n);
      Place(turn + o, n) == if t + o < n then t + o else t + o - n
  {
    if turn >= n {
      PlacePlus(turn - n, o, n);
    } else if turn + o >= n {
      assert Place(turn + o - n, n) == turn + o - n;
    }
  }

  /** A claim that passes over an eligible member brings the pointer strictly nearer to them. */
  lemma ServeApproaches(members: seq<ClientId>, turn: nat, eligible: set<ClientId>, p: nat)
    requires p < |members| && members[p] in eligible
    ensures Serve(members, turn, eligible).0.Some?
    ensures Serve(members, turn, eligible).0 != Some(members[p]) ==>
      Distance(Serve(members, turn, eligible).1, p, |members|) < Distance(turn, p, |members|)
  {
    var n := |members|;
    var d := Distance(turn, p, n);
    PlacePlus(turn, d, n);
    var r := FirstEligible(members, turn, eligible, 0);
    assert Candidate(members, turn, d) == members[p];
    PlacePlus(turn, r, n);
    var i := Place(turn + r, n);
    assert Place(i + 1, n) == if i + 1 < n then i + 1 else 0;
  }

  /**
   Round robin starves nobody. Whatever pointer a departure left behind and
   whoever else is eligible when, a member eligible at each of `n` claims in a
   row (the size of the group) is served at one of them.
   */
  lemma {:induction false} RoundRobinStarvesNobody(members: seq<ClientId>, turn: nat, claims: seq<set<ClientId>>,
      p: nat)
    requires p < |members| && |claims| > Distance(turn, p, |members|)
    requires forall c :: c in claims ==> members[p] in c
    ensures Some(members[p]) in Served(members, turn, claims)
    decreases |claims|
  {
    var (who, turn') := Serve(members, turn, claims[0]);
    assert claims[0] in claims;
    ServeApproaches(members, turn, claims[0], p);
    var rest := Served(members, turn', claims[1..]);
    assert Served(members, turn, claims) == [who] + rest;
    if who != Some(members[p]) {
      RoundRobinStarvesNobody(members, turn', claims[1..], p);
    } else {
      assert ([who] + rest)[0] == Some(members[p]);
    }
  }

  /** With everyone eligible the claims go round the list in order from the pointer. */
  lemma {:induction false} FullRotation(members: seq<ClientId>, turn: nat, claims: seq<set<ClientId>>)
    requires 0 < |members| && |claims| <= |members|
    requires forall c, m :: c in claims && m in members ==> m in c
    ensures forall i :: 0 <= i < |claims| ==>
      Served(members, turn, claims)[i] == Some(Candidate(members, turn, i))
    decreases |claims|
  {
    var n := |members|;
    if claims != [] {
      assert claims[0] in claims;
      var (who, turn') := Serve(members, turn, claims[0]);
      var rest := Served(members, turn', claims[1..]);
      assert Candidate(members, turn, 0) in claims[0];
      assert Served(members, turn, claims) == [who] + rest;
      FullRotation(members, turn', claims[1..]);
      forall i | 0 <= i < |claims|
        ensures Served(members, turn, claims)[i] == Some(Candidate(members, turn, i))
      {
        if i > 0 {
          assert rest[i - 1] == Some(Candidate(members, turn', i - 1));
          NextCandidate(members, turn, i);
        }
      }
    }
  }

  lemma NextCandidate(members: seq<ClientId>, turn: nat, i: nat)
    requires 0 < i < |members|
    ensures
      var n := |members|;
      Candidate(members, Place(Place(turn, n) + 1, n), i - 1) == Candidate(members, turn, i)
  {
    var n := |members|;
    PlacePlus(turn, i, n);
    PlacePlus(Place(Place(turn, n) + 1, n), i - 1, n);
  }

  /** With everyone eligible, a round of claims serves each member exactly once. */
  lemma RoundServesEachOnce(members: seq<ClientId>, turn: nat, claims: seq<set<ClientId>>, m: ClientId)
    requires NoDuplicates(members) && m in members && |claims| == |members|
    requires forall c, x :: c in claims && x in members ==> x in c
    ensures exists i :: 0 <= i < |claims| && Served(members, turn, claims)[i] == Some(m)
    ensures
      var served := Served(members, turn, claims);
      forall i, j :: 0 <= i < |served| && 0 <= j < |served| && served[i] == Some(m) && served[j] == Some(m) ==> i == j
  {
    var n := |members|;
    var served := Served(members, turn, claims);
    FullRotation(members, turn, claims);
    var p :| 0 <= p < n && members[p] == m;
    var d := Distance(turn, p, n);
    PlacePlus(turn, d, n);
    assert served[d] == Some(m);
    forall i | 0 <= i < n && served[i] == Some(m)
      ensures i == d
    {
      PlacePlus(turn, i, n);
      assert Candidate(members, turn, i) == members[p];
    }
  }

  // --------------------------------------------------------------------- runs

  datatype Op =
    | OpInvite(inviter: ClientId, invitee: ClientId)
    | OpAccept(invitee: ClientId, from: ClientId)
    | OpLeave(member: ClientId)
    | OpPass(current: ClientId, newLeader: ClientId)
    | OpTurn(killer: ClientId, eligible: set<ClientId>)

  function Step(s: State, op: Op): State {
    match op
    case OpInvite(a, b) => RecordInvite(s, a, b).0
    case OpAccept(b, a) => Accept(s, b, a)
    case OpLeave(m) => Leave(s, m)
    case OpPass(a, b) => PassLeadership(s, a, b).0
    case OpTurn(k, e) => NextLootTurn(s, k, e).0
  }

  function Run(s: State, ops: seq<Op>): State
    decreases |ops|
  {
    if ops == [] then s else Run(Step(s, ops[0]), ops[1..])
  }

  lemma {:induction false} WithoutKeepsOrder(members: seq<ClientId>, m: ClientId, joined: map<ClientId, nat>)
    requires InJoinOrder(members, joined)
    ensures InJoinOrder(Without(members, m), joined)
  {
    if members != [] {
      var rest := Without(members[1..], m);
      WithoutKeepsOrder(members[1..], m, joined);
      forall i, j | 0 <= i < j < |[members[0]] + rest|
        ensures joined[([members[0]] + rest)[i]] < joined[([members[0]] + rest)[j]]
      {
        if i == 0 {
          assert rest[j - 1] in members[1..];
        } else {
          assert rest[i - 1] in rest && rest[j - 1] in rest;
        }
      }
    }
  }

  /** Everyone has joined, each strictly before the members listed after them. */
  predicate InJoinOrder(members: seq<ClientId>, joined: map<ClientId, nat>) {
    && (forall m :: m in members ==> m in joined)
    && (forall i, j :: 0 <= i < j < |members| ==> joined[members[i]] < joined[members[j]])
  }

  lemma {:induction false} WithoutNoDuplicates(members: seq<ClientId>, m: ClientId)
    requires NoDuplicates(members)
    ensures NoDuplicates(Without(members, m))
  {
    if members != [] {
      WithoutNoDuplicates(members[1..], m);
      assert members[0] !in members[1..];
    }
  }

  lemma InviteConsistent(s: State, inviter: ClientId, invitee: ClientId)
    requires Consistent(s)
    ensures Consistent(RecordInvite(s, inviter, invitee).0)
    ensures RecordInvite(s, inviter, invitee).1 == RecordInvite(s, inviter, invitee).0.memberOf[inviter]
  {
    var s' := RecordInvite(s, inviter, invitee).0;
    forall g | g in s'.groups
      ensures GroupOk(s', g)
    {
      if g in s.groups { assert GroupOk(s, g); }
    }
  }

  lemma AcceptConsistent(s: State, invitee: ClientId, from: ClientId)
    requires Consistent(s)
    ensures Consistent(Accept(s, invitee, from))
  {
    var s' := Accept(s, invitee, from);
    forall g | g in s'.groups
      ensures GroupOk(s', g)
    {
      assert GroupOk(s, g);
      assert invitee in s.groups[g].members ==> invitee in s.memberOf;
    }
  }

  lemma LeaveConsistent(s: State, member: ClientId)
    requires Consistent(s)
    ensures Consistent(Leave(s, member))
  {
    if member in s.memberOf {
      var g := s.memberOf[member];
      assert GroupOk(s, g);
      WithoutNoDuplicates(s.groups[g].members, member);
      if DepartureOf(s, member).value.dissolved {
        DissolveConsistent(s, member, Leave(s, member));
      } else {
        ShrinkConsistent(s, member, Leave(s, member));
      }
    }
  }

  lemma DissolveConsistent(s: State, member: ClientId, s': State)
    requires Consistent(s) && member in s.memberOf
    requires
      var g := s.memberOf[member];
      var members := s.groups[g].members;
      && s'.nextId == s.nextId && s'.pending == s.pending - {member}
      && s'.groups == s.groups - {g}
      && s'.memberOf == s.memberOf - {member} - (set m | m in Without(members, member))
    ensures Consistent(s')
  {
    forall g | g in s'.groups
      ensures GroupOk(s', g)
    {
      assert GroupOk(s, g);
    }
  }

  /** A member's going, when the group goes on without them. */
  predicate Shrinks(s: State, member: ClientId, s': State)
    requires Consistent(s) && member in s.memberOf
  {
    var group := s.groups[s.memberOf[member]];
    && s'.nextId == s.nextId && s'.pending == s.pending - {member}
    && s'.memberOf == s.memberOf - {member}
    && s'.groups.Keys == s.groups.Keys
    && (forall g :: g in s.groups && g != s.memberOf[member] ==> s'.groups[g] == s.groups[g])
    && ShrunkTo(group, member, s'.groups[s.memberOf[member]])
  }

  predicate ShrunkTo(group: Group, member: ClientId, group': Group) {
    var rest := Without(group.members, member);
    && NoDuplicates(rest) && rest != []
    && group' == group.(members := rest, leader := if group.leader == member then rest[0] else group.leader)
  }

  lemma ShrinkConsistent(s: State, member: ClientId, s': State)
    requires Consistent(s) && member in s.memberOf && Shrinks(s, member, s')
    ensures Consistent(s')
  {
    forall g | g in s'.groups
      ensures GroupOk(s', g)
    {
      ShrinkGroupOk(s, member, s', g);
    }
    ShrinkIndexed(s, member, s');
  }

  lemma ShrinkGroupOk(s: State, member: ClientId, s': State, g: GroupId)
    requires Consistent(s) && member in s.memberOf && Shrinks(s, member, s') && g in s.groups
    ensures GroupOk(s', g)
  {
    assert GroupOk(s, g);
  }

  lemma ShrinkIndexed(s: State, member: ClientId, s': State)
    requires Consistent(s) && member in s.memberOf && Shrinks(s, member, s')
    ensures forall m :: m in s'.memberOf ==> s'.memberOf[m] in s'.groups && m in s'.groups[s'.memberOf[m]].members
  {
  }

  lemma PassConsistent(s: State, current: ClientId, newLeader: ClientId)
    requires Consistent(s)
    ensures Consistent(PassLeadership(s, current, newLeader).0)
  {
    var s' := PassLeadership(s, current, newLeader).0;
    forall g | g in s'.groups
      ensures GroupOk(s', g)
    {
      assert GroupOk(s, g);
    }
  }

  lemma TurnConsistent(s: State, killer: ClientId, eligible: set<ClientId>)
    requires Consistent(s)
    ensures Consistent(NextLootTurn(s, killer, eligible).0)
  {
    var s' := NextLootTurn(s, killer, eligible).0;
    forall g | g in s'.groups
      ensures GroupOk(s', g)
    {
      assert GroupOk(s, g);
    }
  }

  lemma StepConsistent(s: State, op: Op)
    requires Consistent(s)
    ensures Consistent(Step(s, op))
  {
    match op
    case OpInvite(a, b) => InviteConsistent(s, a, b);
    case OpAccept(b, a) => AcceptConsistent(s, b, a);
    case OpLeave(m) => LeaveConsistent(s, m);
    case OpPass(a, b) => PassConsistent(s, a, b);
    case OpTurn(k, e) => TurnConsistent(s, k, e);
  }

  /** From a new manager, every run of operations keeps the three maps consistent. */
  lemma {:induction false} RunConsistent(s: State, ops: seq<Op>)
    requires Consistent(s)
    ensures Consistent(Run(s, ops)) && Consistent(EMPTY)
    decreases |ops|
  {
    if ops != [] {
      StepConsistent(s, ops[0]);
      RunConsistent(Step(s, ops[0]), ops[1..]);
    }
  }

  lemma StepReusesNoId(s: State, op: Op, g: GroupId)
    requires Consistent(s) && g < s.nextId && g !in s.groups
    ensures g !in Step(s, op).groups && s.nextId <= Step(s, op).nextId
  {
  }

  /** Ids are never reused: a group that is gone stays gone, and the counter never falls. */
  lemma {:induction false} IdsNeverReused(s: State, ops: seq<Op>, g: GroupId)
    requires Consistent(s) && g < s.nextId && g !in s.groups
    ensures g !in Run(s, ops).groups && s.nextId <= Run(s, ops).nextId
    decreases |ops|
  {
    if ops != [] {
      StepConsistent(s, ops[0]);
      StepReusesNoId(s, ops[0], g);
      IdsNeverReused(Step(s, ops[0]), ops[1..], g);
    }
  }

  /** Nothing but a new invite to the same player changes where a pending invite leads. */
  lemma StepKeepsInvite(s: State, op: Op, invitee: ClientId)
    requires Consistent(s) && !(op.OpInvite? && op.invitee == invitee)
    ensures
      var s' := Step(s, op);
      && (invitee in s'.pending ==> invitee in s.pending && s'.pending[invitee] == s.pending[invitee])
      && (invitee in s.pending && s.pending[invitee].group !in s.groups ==> s.pending[invitee].group !in s'.groups)
  {
  }

  /**
   An invite stays bound to the group it was made for. After any run in which the
   invitee is not invited again, accepting either joins exactly that group, at the
   end of its list, or joins nothing.
   */
  lemma {:induction false} InviteStaysBound(s: State, ops: seq<Op>, invitee: ClientId, from: ClientId)
    requires Consistent(s) && invitee in s.pending
    requires forall op :: op in ops && op.OpInvite? ==> op.invitee != invitee
    ensures
      var g, t := s.pending[invitee].group, Run(s, ops);
      && JoinedBy(t, invitee, from) in {None, Some(g)}
      && (g !in s.groups ==> JoinedBy(t, invitee, from) == None)
    decreases |ops|
  {
    var g := s.pending[invitee].group;
    if ops != [] {
      var s' := Step(s, ops[0]);
      assert ops[0] in ops;
      StepConsistent(s, ops[0]);
      StepKeepsInvite(s, ops[0], invitee);
      assert forall op :: op in ops[1..] ==> op in ops;
      if invitee in s'.pending {
        InviteStaysBound(s', ops[1..], invitee, from);
      } else {
        NoInviteNoJoin(s', ops[1..], invitee, from);
      }
    }
  }

  lemma StepMakesNoInvite(s: State, op: Op, invitee: ClientId)
    requires invitee !in s.pending && !(op.OpInvite? && op.invitee == invitee)
    ensures invitee !in Step(s, op).pending
  {
  }

  lemma {:induction false} NoInviteNoJoin(s: State, ops: seq<Op>, invitee: ClientId, from: ClientId)
    requires invitee !in s.pending
    requires forall op :: op in ops && op.OpInvite? ==> op.invitee != invitee
    ensures JoinedBy(Run(s, ops), invitee, from) == None
    decreases |ops|
  {
    if ops != [] {
      assert ops[0] in ops;
      assert forall op :: op in ops[1..] ==> op in ops;
      StepMakesNoInvite(s, ops[0], invitee);
      NoInviteNoJoin(Step(s, ops[0]), ops[1..], invitee, from);
    }
  }

  /** Nothing that touches an invite: no other to the same player, no answer of theirs, and they leave nothing. */
  predicate LeavesInvite(op: Op, invitee: ClientId) {
    match op
    case OpInvite(_, b) => b != invitee
    case OpAccept(b, _) => b != invitee
    case OpLeave(m) => m != invitee
    case _ => true
  }

  lemma {:induction false} InviteStands(s: State, ops: seq<Op>, invitee: ClientId)
    requires Consistent(s) && invitee in s.pending && forall op :: op in ops ==> LeavesInvite(op, invitee)
    ensures Consistent(Run(s, ops))
    ensures invitee in Run(s, ops).pending && Run(s, ops).pending[invitee] == s.pending[invitee]
    decreases |ops|
  {
    if ops != [] {
      assert ops[0] in ops && forall op :: op in ops[1..] ==> op in ops;
      StepConsistent(s, ops[0]);
      StepLeavesInvite(s, ops[0], invitee);
      InviteStands(Step(s, ops[0]), ops[1..], invitee);
    }
  }

  lemma StepLeavesInvite(s: State, op: Op, invitee: ClientId)
    requires Consistent(s) && invitee in s.pending && LeavesInvite(op, invitee)
    ensures invitee in Step(s, op).pending && Step(s, op).pending[invitee] == s.pending[invitee]
  {
  }

  /** A player joins the end of one group's list, and of the index; nothing else of any group moves. */
  predicate Joins(t: State, t': State, g: GroupId, who: ClientId) {
    && g in t.groups && t'.memberOf == t.memberOf[who := g]
    && t'.groups == t.groups[g := t.groups[g].(members := t.groups[g].members + [who])]
  }

  /**
   An invite is honoured. Accepted after any run that leaves it alone, it joins the group it was
   made for, exactly when the invitee is in none and that group still stands; otherwise, or
   answered to somebody else, it joins nothing; and either way it is used up.
   */
  lemma InviteIsHonoured(s: State, inviter: ClientId, invitee: ClientId, ops: seq<Op>, from: ClientId)
    requires Consistent(s) && forall op :: op in ops ==> LeavesInvite(op, invitee)
    ensures
      var (s', g) := RecordInvite(s, inviter, invitee);
      var t := Run(s', ops);
      var t' := Accept(t, invitee, from);
      && inviter in s'.memberOf && s'.memberOf[inviter] == g
      && (if from == inviter && invitee !in t.memberOf && g in t.groups then Joins(t, t', g, invitee)
          else t'.groups == t.groups && t'.memberOf == t.memberOf)
      && invitee !in t'.pending && t'.pending == t.pending - {invitee}
  {
    InviteConsistent(s, inviter, invitee);
    InviteStands(RecordInvite(s, inviter, invitee).0, ops, invitee);
  }

  /** Leadership passes exactly from a leader to a member of the same group, and moves nothing else. */
  lemma PassesIff(s: State, current: ClientId, newLeader: ClientId)
    requires Consistent(s)
    ensures
      var (s', passed) := PassLeadership(s, current, newLeader);
      && (passed.Some? <==>
            current in s.memberOf && s.groups[s.memberOf[current]].leader == current
            && newLeader in s.memberOf && s.memberOf[newLeader] == s.memberOf[current])
      && (passed.None? ==> s' == s)
      && (passed.Some? ==>
            && passed.value == s.memberOf[current]
            && s' == s.(groups := s.groups[passed.value := s.groups[passed.value].(leader := newLeader)]))
  {
    if current in s.memberOf {
      assert GroupOk(s, s.memberOf[current]);
    }
  }

  /**
   A group goes exactly when a departure leaves at most one in it; then all of it are in none,
   and else only who left.
   */
  lemma LeaveDissolvesIff(s: State, member: ClientId)
    requires Consistent(s) && member in s.memberOf
    ensures
      var g, s' := s.memberOf[member], Leave(s, member);
      && (g !in s'.groups <==> |s.groups[g].members| <= 2)
      && (forall m :: m in s.memberOf && m !in s'.memberOf <==>
            m == member || (g !in s'.groups && m in s.groups[g].members))
      && (forall h :: h in s.groups && h != g ==> h in s'.groups && s'.groups[h] == s.groups[h])
  {
    var g := s.memberOf[member];
    assert GroupOk(s, g);
    WithoutOne(s.groups[g].members, member);
  }

  lemma {:induction false} WithoutOne(members: seq<ClientId>, m: ClientId)
    requires NoDuplicates(members)
    ensures |Without(members, m)| == |members| - if m in members then 1 else 0
  {
    if members != [] {
      WithoutOne(members[1..], m);
      assert m in members <==> members[0] == m || m in members[1..];
      assert members[0] !in members[1..];
    }
  }

  /** Somebody is served exactly when the group takes turns and has someone eligible; they are eligible and a member. */
  lemma ClaimServesIff(s: State, killer: ClientId, eligible: set<ClientId>)
    requires Consistent(s)
    ensures
      var (s', served) := NextLootTurn(s, killer, eligible);
      && (served.Some? <==>
            killer in s.memberOf && s.groups[s.memberOf[killer]].lootMode == RoundRobin
            && exists m :: m in s.groups[s.memberOf[killer]].members && m in eligible)
      && (served.Some? ==> served.value in eligible && served.value in s.groups[s.memberOf[killer]].members)
      && (served.None? ==> s'.memberOf == s.memberOf && s'.groups.Keys == s.groups.Keys)
  {
    if killer in s.memberOf {
      var members := s.groups[s.memberOf[killer]].members;
      assert GroupOk(s, s.memberOf[killer]);
      if m :| m in members && m in eligible {
        var p :| 0 <= p < |members| && members[p] == m;
        EveryPlaceIsTried(members, s.groups[s.memberOf[killer]].lootTurn, p);
      }
    }
  }

  /** The pointer's offsets reach every place of the list. */
  lemma EveryPlaceIsTried(members: seq<ClientId>, turn: nat, p: nat)
    requires p < |members|
    ensures exists o: nat :: o < |members| && Candidate(members, turn, o) == members[p]
  {
    var o := Distance(turn, p, |members|);
    PlacePlus(turn, o, |members|);
    assert Candidate(members, turn, o) == members[p];
  }

  /** A state with the moment each current member joined, and a clock of operations. */
  datatype History = History(state: State, joined: map<ClientId, nat>, clock: nat)

  function Record(h: History, op: Op): History {
    var s' := Step(h.state, op);
    History(s',
            map m | m in s'.memberOf :: if m in h.state.memberOf && m in h.joined then h.joined[m] else h.clock,
            h.clock + 1)
  }

  function RecordAll(h: History, ops: seq<Op>): History
    decreases |ops|
  {
    if ops == [] then h else RecordAll(Record(h, ops[0]), ops[1..])
  }

  predicate Ordered(h: History) {
    && Consistent(h.state)
    && h.joined.Keys == h.state.memberOf.Keys
    && (forall m :: m in h.joined ==> h.joined[m] < h.clock)
    && (forall g :: g in h.state.groups ==> InJoinOrder(h.state.groups[g].members, h.joined))
  }

  /** How one operation may change a member list: start it, extend it by a newcomer, or drop someone. */
  ghost predicate ListFollows(s: State, s': State, g: GroupId)
    requires g in s'.groups
  {
    var members := s'.groups[g].members;
    if g !in s.groups then |members| == 1
    else
      var was := s.groups[g].members;
      || members == was
      || (exists m :: members == Without(was, m))
      || (exists m :: m !in s.memberOf && m in s'.memberOf && members == was + [m])
  }

  lemma StepListFollows(s: State, op: Op, g: GroupId)
    requires Consistent(s) && g in Step(s, op).groups
    ensures ListFollows(s, Step(s, op), g)
  {
    match op
    case OpInvite(a, b) => assert g in s.groups ==> s.groups[g] == Step(s, op).groups[g];
    case OpAccept(b, a) => AcceptListFollows(s, b, a, g);
    case OpLeave(m) => LeaveListFollows(s, m, g);
    case OpPass(a, b) => assert PassLeadership(s, a, b).0.groups[g].members == s.groups[g].members;
    case OpTurn(k, e) => assert NextLootTurn(s, k, e).0.groups[g].members == s.groups[g].members;
  }

  lemma LeaveListFollows(s: State, m: ClientId, g: GroupId)
    requires Consistent(s) && g in Leave(s, m).groups
    ensures ListFollows(s, Leave(s, m), g)
  {
    if m in s.memberOf && s.memberOf[m] == g {
      assert Leave(s, m).groups[g].members == Without(s.groups[g].members, m);
    }
  }

  lemma AcceptListFollows(s: State, b: ClientId, a: ClientId, g: GroupId)
    requires Consistent(s) && g in Accept(s, b, a).groups
    ensures ListFollows(s, Accept(s, b, a), g)
  {
    if JoinedBy(s, b, a) == Some(g) {
      assert Accept(s, b, a).groups[g].members == s.groups[g].members + [b];
    }
  }

  /** A list whose members all carry their old joining times stays in order under the new ones. */
  lemma SameTimesSameOrder(members: seq<ClientId>, joined: map<ClientId, nat>, joined': map<ClientId, nat>)
    requires InJoinOrder(members, joined)
    requires forall m :: m in members ==> m in joined' && joined'[m] == joined[m]
    ensures InJoinOrder(members, joined')
  {
    forall i, j | 0 <= i < j < |members|
      ensures joined'[members[i]] < joined'[members[j]]
    {
      assert members[i] in members && members[j] in members;
    }
  }

  lemma NewcomerIsLast(was: seq<ClientId>, m: ClientId, joined: map<ClientId, nat>, clock: nat)
    requires InJoinOrder(was, joined) && m in joined && joined[m] == clock
    requires forall x :: x in was ==> joined[x] < clock
    ensures InJoinOrder(was + [m], joined)
  {
    forall i, j | 0 <= i < j < |was + [m]|
      ensures joined[(was + [m])[i]] < joined[(was + [m])[j]]
    {
      assert was[i] in was;
    }
  }

  lemma ListKeepsJoinOrder(s: State, s': State, g: GroupId, joined: map<ClientId, nat>, clock: nat,
      joined': map<ClientId, nat>)
    requires g in s'.groups && ListFollows(s, s', g)
    requires forall m :: m in s'.groups[g].members ==> m in s'.memberOf
    requires joined.Keys == s.memberOf.Keys && joined'.Keys == s'.memberOf.Keys
    requires forall m :: m in joined ==> joined[m] < clock
    requires forall m :: m in joined' ==> joined'[m] == if m in joined then joined[m] else clock
    requires g in s.groups ==> InJoinOrder(s.groups[g].members, joined)
    ensures InJoinOrder(s'.groups[g].members, joined')
  {
    var members := s'.groups[g].members;
    if g in s.groups {
      var was := s.groups[g].members;
      if members == was {
        SameTimesSameOrder(was, joined, joined');
      } else if m :| members == Without(was, m) {
        WithoutKeepsOrder(was, m, joined);
        SameTimesSameOrder(members, joined, joined');
      } else {
        var m :| m !in s.memberOf && m in s'.memberOf && members == was + [m];
        assert forall x :: x in was ==> x in members;
        SameTimesSameOrder(was, joined, joined');
        NewcomerIsLast(was, m, joined', clock);
      }
    }
  }

  lemma StepKeepsJoinOrder(h: History, op: Op)
    requires Ordered(h)
    ensures Ordered(Record(h, op))
  {
    var h' := Record(h, op);
    StepConsistent(h.state, op);
    forall g | g in h'.state.groups
      ensures InJoinOrder(h'.state.groups[g].members, h'.joined)
    {
      StepKeepsListOrder(h, op, h', g);
    }
  }

  lemma StepKeepsListOrder(h: History, op: Op, h': History, g: GroupId)
    requires Ordered(h) && h' == Record(h, op) && Consistent(h'.state) && g in h'.state.groups
    ensures InJoinOrder(h'.state.groups[g].members, h'.joined)
  {
    StepListFollows(h.state, op, g);
    assert GroupOk(h'.state, g);
    NextKeepsListOrder(h, h', g);
  }

  lemma NextKeepsListOrder(h: History, h': History, g: GroupId)
    requires Ordered(h) && g in h'.state.groups && GroupOk(h'.state, g) && ListFollows(h.state, h'.state, g)
    requires h'.joined.Keys == h'.state.memberOf.Keys
    requires forall m :: m in h'.joined ==> h'.joined[m] == if m in h.joined then h.joined[m] else h.clock
    ensures InJoinOrder(h'.state.groups[g].members, h'.joined)
  {
    ListKeepsJoinOrder(h.state, h'.state, g, h.joined, h.clock, h'.joined);
  }

  /** Over every run from an empty manager, each group lists its members in the order they joined. */
  lemma {:induction false} RunKeepsJoinOrder(h: History, ops: seq<Op>)
    requires Ordered(h)
    ensures Ordered(RecordAll(h, ops)) && Ordered(History(EMPTY, map[], 0))
    decreases |ops|
  {
    if ops != [] {
      StepKeepsJoinOrder(h, ops[0]);
      RunKeepsJoinOrder(Record(h, ops[0]), ops[1..]);
    }
  }

  /** When the leader leaves and the group goes on, its longest-standing member leads. */
  lemma LeadershipPassesToOldest(h: History, member: ClientId)
    requires Ordered(h) && member in h.state.memberOf
    requires h.state.groups[h.state.memberOf[member]].leader == member
    requires !DepartureOf(h.state, member).value.dissolved
    ensures
      var group := Leave(h.state, member).groups[h.state.memberOf[member]];
      forall m :: m in group.members && m != group.leader ==> h.joined[group.leader] < h.joined[m]
  {
    var was := h.state.groups[h.state.memberOf[member]].members;
    WithoutKeepsOrder(was, member, h.joined);
  }

  // -------------------------------------------------- the rotation in a manager

  /** Whether this operation claims a turn of group `g`. */
  predicate Claims(s: State, op: Op, g: GroupId) {
    op.OpTurn? && op.killer in s.memberOf && s.memberOf[op.killer] == g
  }

  /** The answers a run gives to the claims on group `g`, and who was eligible at each. */
  function Answers(s: State, ops: seq<Op>, g: GroupId): seq<Option<ClientId>>
    decreases |ops|
  {
    if ops == [] then []
    else
      (if Claims(s, ops[0], g) then [NextLootTurn(s, ops[0].killer, ops[0].eligible).1] else [])
      + Answers(Step(s, ops[0]), ops[1..], g)
  }

  function Eligibles(s: State, ops: seq<Op>, g: GroupId): seq<set<ClientId>>
    decreases |ops|
  {
    if ops == [] then []
    else (if Claims(s, ops[0], g) then [ops[0].eligible] else []) + Eligibles(Step(s, ops[0]), ops[1..], g)
  }

  /** Nobody joins or leaves group `g` over the run. */
  predicate SameMembers(s: State, ops: seq<Op>, g: GroupId)
    requires g in s.groups
    decreases |ops|
  {
    ops == [] ||
    (var s' := Step(s, ops[0]);
     g in s'.groups && s'.groups[g].members == s.groups[g].members && SameMembers(s', ops[1..], g))
  }

  /** Nothing but a claim on the group itself moves its pointer, and nothing changes how it loots. */
  lemma StepKeepsRotation(s: State, op: Op, g: GroupId)
    requires Consistent(s) && g in s.groups && g in Step(s, op).groups && !Claims(s, op, g)
    ensures Step(s, op).groups[g].lootTurn == s.groups[g].lootTurn
      && Step(s, op).groups[g].lootMode == s.groups[g].lootMode
  {
    assert GroupOk(s, g);
  }

  lemma ClaimTurnsRotation(s: State, op: Op, g: GroupId)
    requires g in s.groups && s.groups[g].lootMode == RoundRobin && Claims(s, op, g)
    ensures
      var group := s.groups[g];
      var (served, turn) := Serve(group.members, group.lootTurn, op.eligible);
      NextLootTurn(s, op.killer, op.eligible).1 == served
        && Step(s, op).groups == s.groups[g := group.(lootTurn := turn)]
  {
  }

  lemma ServedCons(members: seq<ClientId>, turn: nat, eligible: set<ClientId>, rest: seq<set<ClientId>>)
    ensures
      var (served, turn') := Serve(members, turn, eligible);
      Served(members, turn, [eligible] + rest) == [served] + Served(members, turn', rest)
  {
    assert ([eligible] + rest)[1..] == rest;
  }

  lemma AnswersCons(s: State, ops: seq<Op>, g: GroupId)
    requires ops != []
    ensures
      var s', more := Step(s, ops[0]), ops[1..];
      if Claims(s, ops[0], g) then
        Answers(s, ops, g) == [NextLootTurn(s, ops[0].killer, ops[0].eligible).1] + Answers(s', more, g)
        && Eligibles(s, ops, g) == [ops[0].eligible] + Eligibles(s', more, g)
      else Answers(s, ops, g) == Answers(s', more, g) && Eligibles(s, ops, g) == Eligibles(s', more, g)
  {
  }

  /**
   While its members stay, a group's claims are answered as by the bare rotation, whatever
   else happens between them.
   */
  lemma {:induction false} ClaimsAreTheRotation(s: State, ops: seq<Op>, g: GroupId)
    requires Consistent(s) && g in s.groups && s.groups[g].lootMode == RoundRobin && SameMembers(s, ops, g)
    ensures Answers(s, ops, g) == Served(s.groups[g].members, s.groups[g].lootTurn, Eligibles(s, ops, g))
    decreases |ops|
  {
    if ops != [] {
      var op, s' := ops[0], Step(s, ops[0]);
      StepConsistent(s, op);
      AnswersCons(s, ops, g);
      if Claims(s, op, g) {
        ClaimTurnsRotation(s, op, g);
        ServedCons(s.groups[g].members, s.groups[g].lootTurn, op.eligible, Eligibles(s', ops[1..], g));
      } else {
        StepKeepsRotation(s, op, g);
      }
      ClaimsAreTheRotation(s', ops[1..], g);
    }
  }

  /**
   In a running manager too the rotation starves nobody: over any run in which nobody
   joins or leaves the group, a member eligible at every claim is served within as
   many claims as the group has members.
   */
  lemma LootStarvesNobody(s: State, ops: seq<Op>, g: GroupId, m: ClientId)
    requires Consistent(s) && g in s.groups && s.groups[g].lootMode == RoundRobin && SameMembers(s, ops, g)
    requires m in s.groups[g].members && |Eligibles(s, ops, g)| >= |s.groups[g].members|
    requires forall e :: e in Eligibles(s, ops, g) ==> m in e
    ensures Some(m) in Answers(s, ops, g)
  {
    var members := s.groups[g].members;
    var p :| 0 <= p < |members| && members[p] == m;
    ClaimsAreTheRotation(s, ops, g);
    RoundRobinStarvesNobody(members, s.groups[g].lootTurn, Eligibles(s, ops, g), p);
  }

  // --------------------------------------------------------------- the manager

  class GroupManager {
    var nextId: GroupId
    var groups: map<GroupId, Group>
    var memberOf: map<ClientId, GroupId>
    var pending: map<ClientId, PendingInvite>

    function View(): State
      reads this
    {
      State(nextId, groups, memberOf, pending)
    }

    constructor ()
      ensures View() == EMPTY
    {
      nextId, groups, memberOf, pending := 1, map[], map[], map[];
    }

    method GroupForInviter(inviter: ClientId) returns (g: GroupId)
      modifies this
      ensures (View(), g) == GroupForOrNew(old(View()), inviter)
    {
      if inviter in memberOf {
        return memberOf[inviter];
      }
      g := nextId;
      nextId := nextId + 1;
      groups := groups[g := Group(g, inviter, [inviter], RoundRobin, 0)];
      memberOf := memberOf[inviter := g];
    }

    method Invite(inviter: ClientId, invitee: ClientId) returns (g: GroupId)
      modifies this
      ensures (View(), g) == RecordInvite(old(View()), inviter, invitee)
    {
      g := GroupForInviter(inviter);
      pending := pending[invitee := PendingInvite(inviter, g)];
    }

    method AcceptInvite(invitee: ClientId, from: ClientId) returns (joined: Option<GroupId>)
      modifies this
      ensures View() == Accept(old(View()), invitee, from)
      ensures joined == JoinedBy(old(View()), invitee, from)
    {
      if invitee !in pending {
        assert pending == pending - {invitee};
        return None;
      }
      var invite := pending[invitee];
      pending := pending - {invitee};
      if invite.inviter != from || invitee in memberOf || invite.group !in groups {
        return None;
      }
      var group := groups[invite.group];
      groups := groups[invite.group := group.(members := group.members + [invitee])];
      memberOf := memberOf[invitee := invite.group];
      return Some(invite.group);
    }

    method Retain(members: seq<ClientId>, out: ClientId) returns (rest: seq<ClientId>)
      ensures rest == Without(members, out)
    {
      rest := [];
      var i := 0;
      while i < |members|
        invariant 0 <= i <= |members|
        invariant rest + Without(members[i..], out) == Without(members, out)
      {
        assert members[i..][0] == members[i] && members[i..][1..] == members[i + 1..];
        if members[i] != out {
          rest := rest + [members[i]];
        }
        i := i + 1;
      }
    }

    method LeaveGroup(member: ClientId) returns (departure: Option<Departure>)
      modifies this
      ensures View() == Leave(old(View()), member)
      ensures departure == DepartureOf(old(View()), member)
    {
      if member !in memberOf {
        return None;
      }
      var g := memberOf[member];
      memberOf := memberOf - {member};
      pending := pending - {member};
      if g !in groups {
        return None;
      }
      var group := groups[g];
      var rest := Retain(group.members, member);
      if |rest| <= 1 {
        ghost var others := memberOf;
        var i := 0;
        while i < |rest|
          invariant 0 <= i <= |rest|
          invariant memberOf == others - (set m | m in rest[..i])
          invariant nextId == old(nextId) && groups == old(groups) && pending == old(pending) - {member}
        {
          memberOf := memberOf - {rest[i]};
          assert rest[..i + 1] == rest[..i] + [rest[i]];
          i := i + 1;
        }
        assert rest[..i] == rest;
        groups := groups - {g};
        return Some(Departure(g, rest, true));
      }
      groups := groups[g := group.(members := rest,
                                   leader := if group.leader == member then rest[0] else group.leader)];
      return Some(Departure(g, rest, false));
    }

    /** `same_group`: while the maps agree, whether some group lists both. */
    method SameGroup(a: ClientId, b: ClientId) returns (same: bool)
      ensures Consistent(View()) ==>
        (same <==> exists g :: g in groups && a in groups[g].members && b in groups[g].members)
    {
      return a in memberOf && b in memberOf && memberOf[a] == memberOf[b];
    }

    method ClaimLoot(killer: ClientId, eligible: set<ClientId>) returns (served: Option<ClientId>)
      modifies this
      ensures (View(), served) == NextLootTurn(old(View()), killer, eligible)
    {
      if killer !in memberOf || memberOf[killer] !in groups {
        return None;
      }
      var g := memberOf[killer];
      var group := groups[g];
      if group.lootMode != RoundRobin {
        return None;
      }
      var n := |group.members|;
      var offset := 0;
      while offset < n
        invariant 0 <= offset <= n
        invariant FirstEligible(group.members, group.lootTurn, eligible, 0)
               == FirstEligible(group.members, group.lootTurn, eligible, offset)
        invariant View() == old(View())
      {
        PlaceIsRemainder(group.lootTurn + offset, n);
        var i := (group.lootTurn + offset) % n;
        if group.members[i] in eligible {
          PlaceIsRemainder(i + 1, n);
          groups := groups[g := group.(lootTurn := (i + 1) % n)];
          return Some(group.members[i]);
        }
        offset := offset + 1;
      }
      assert groups[g := group.(lootTurn := group.lootTurn)] == groups;
      return None;
    }

    method Pass(current: ClientId, newLeader: ClientId) returns (changed: Option<GroupId>)
      modifies this
      ensures (View(), changed) == PassLeadership(old(View()), current, newLeader)
    {
      if current !in memberOf || memberOf[current] !in groups {
        return None;
      }
      var g := memberOf[current];
      if groups[g].leader != current || newLeader !in groups[g].members {
        return None;
      }
      groups := groups[g := groups[g].(leader := newLeader)];
      return Some(g);
    }
  }
}
