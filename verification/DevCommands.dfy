/**
 The one gate for a dev or GM command: a token bucket, a refusal notice held to
 one a second, and an audit row for every command let through.
 */
module DevCommands {
  import opened Reals
  import opened Options

  const BURST: real := 128.0
  const REFILL: real := 8.0
  const AUDIT_ARGS_MAX: nat := 200
  const U32_MAX: nat := 0xFFFF_FFFF

  datatype Auth = Allowed | Denied | RateLimited(notify: bool)

  datatype AuditEntry = AuditEntry(command: string, args: string)

  /** The part of a connection the gate reads and writes. */
  datatype Gate = Gate(
    isDev: bool, isGm: bool, tokens: real, refillAt: real, refused: nat, noticeAt: Option<real>, audit: seq<AuditEntry>)

  datatype Command = Command(name: string, args: string, at: real)

  predicate MayUse(g: Gate) {
    g.isDev || g.isGm
  }

  function Refilled(g: Gate, now: real): real {
    Min(g.tokens + Elapsed(now, g.refillAt) * REFILL, BURST)
  }

  function Via(g: Gate): string {
    if g.isGm && g.isDev then "gm+dev" else if g.isGm then "gm" else "dev"
  }

  /** What an audit row keeps of the arguments: their first `AUDIT_ARGS_MAX` characters. */
  function Kept(args: string): (r: string)
    ensures r <= args && |r| <= AUDIT_ARGS_MAX && (|r| < AUDIT_ARGS_MAX ==> r == args)
  {
    if |args| <= AUDIT_ARGS_MAX then args else args[..AUDIT_ARGS_MAX]
  }

  function Decide(g: Gate, c: Command): Auth {
    if !MayUse(g) then Denied
    else if Refilled(g, c.at) < 1.0 then
      RateLimited(g.noticeAt.None? || Elapsed(c.at, g.noticeAt.value) >= 1.0)
    else Allowed
  }

  function After(g: Gate, c: Command): Gate {
    match Decide(g, c)
    case Denied => g
    case RateLimited(notify) =>
      g.(tokens := Refilled(g, c.at),
         refillAt := c.at,
         refused := if g.refused < U32_MAX then g.refused + 1 else g.refused,
         noticeAt := if notify then Some(c.at) else g.noticeAt)
    case Allowed =>
      g.(tokens := Refilled(g, c.at) - 1.0,
         refillAt := c.at,
         audit := g.audit + [AuditEntry(c.name, Kept(c.args) + " via=" + Via(g))])
  }

  function Run(g: Gate, cs: seq<Command>): Gate
    decreases |cs|
  {
    if cs == [] then g else Run(After(g, cs[0]), cs[1..])
  }

  function Decisions(g: Gate, cs: seq<Command>): (r: seq<Auth>)
    ensures |r| == |cs|
    decreases |cs|
  {
    if cs == [] then [] else [Decide(g, cs[0])] + Decisions(After(g, cs[0]), cs[1..])
  }

  predicate InTime(cs: seq<Command>, t: real)
    decreases |cs|
  {
    cs == [] || (t <= cs[0].at && InTime(cs[1..], cs[0].at))
  }

  /** A bucket never overdrawn or overfull, last refilled no later than `t`. */
  predicate Ok(g: Gate, t: real) {
    && 0.0 <= g.tokens <= BURST
    && g.refillAt <= t
    && (g.noticeAt.Some? ==> g.noticeAt.value <= t)
  }

  function Fresh(isDev: bool, isGm: bool, now: real): Gate {
    Gate(isDev, isGm, BURST, now, 0, None, [])
  }

  lemma StepOk(g: Gate, c: Command, t: real)
    requires Ok(g, t) && t <= c.at
    ensures Ok(After(g, c), c.at)
  {
    var earned := Elapsed(c.at, g.refillAt) * REFILL;
    assert earned >= 0.0;
  }

  function CountAllowed(ds: seq<Auth>): nat {
    if ds == [] then 0 else (if ds[0].Allowed? then 1 else 0) + CountAllowed(ds[1..])
  }

  /** The tokens in hand, refilled to time `t`, before any capping. */
  function Credit(g: Gate, t: real): real {
    Min(g.tokens + (t - g.refillAt) * REFILL, BURST)
  }

  /**
   A run spends only what the bucket held at its start and what was refilled
   since: the account of tokens, kept to the end of the run.
   */
  lemma {:induction false} TokensAccount(g: Gate, cs: seq<Command>, t: real, end: real)
    requires Ok(g, t) && InTime(cs, t) && t <= end
    requires forall c :: c in cs ==> c.at <= end
    ensures CountAllowed(Decisions(g, cs)) as real <= Credit(g, t) + REFILL * (end - t)
    decreases |cs|
  {
    if cs != [] {
      var c, g' := cs[0], After(g, cs[0]);
      assert c in cs && forall x :: x in cs[1..] ==> x in cs;
      StepOk(g, c, t);
      TokensAccount(g', cs[1..], c.at, end);
      var ds := Decisions(g', cs[1..]);
      assert Decisions(g, cs)[0] == Decide(g, c) && Decisions(g, cs)[1..] == ds;
      if Decide(g, c).Denied? {
        assert Credit(g, c.at) <= Credit(g, t) + REFILL * (c.at - t);
      } else {
        assert Refilled(g, c.at) <= Credit(g, t) + REFILL * (c.at - t);
      }
    }
  }

  /** Over any stretch of time, at most `BURST` plus the refill over it is let through. */
  lemma AllowedWithinBudget(g: Gate, cs: seq<Command>, t: real, end: real)
    requires Ok(g, t) && InTime(cs, t) && t <= end
    requires forall c :: c in cs ==> c.at <= end
    ensures CountAllowed(Decisions(g, cs)) as real <= BURST + REFILL * (end - t)
  {
    TokensAccount(g, cs, t, end);
  }

  /** The row an allowed command leaves behind. */
  function RowOf(g: Gate, c: Command): AuditEntry {
    AuditEntry(c.name, Kept(c.args) + " via=" + Via(g))
  }

  function AllowedRows(g: Gate, cs: seq<Command>): seq<AuditEntry>
    decreases |cs|
  {
    if cs == [] then []
    else (if Decide(g, cs[0]).Allowed? then [RowOf(g, cs[0])] else []) + AllowedRows(After(g, cs[0]), cs[1..])
  }

  /** Authorized means recorded: the audit grows by exactly the rows of the allowed commands, in order. */
  lemma {:induction false} AuditIsTheAllowed(g: Gate, cs: seq<Command>)
    ensures Run(g, cs).audit == g.audit + AllowedRows(g, cs)
    ensures |AllowedRows(g, cs)| == CountAllowed(Decisions(g, cs))
    decreases |cs|
  {
    if cs != [] {
      var g' := After(g, cs[0]);
      AuditIsTheAllowed(g', cs[1..]);
      assert Decisions(g, cs)[1..] == Decisions(g', cs[1..]);
      if Decide(g, cs[0]).Allowed? {
        assert g'.audit == g.audit + [RowOf(g, cs[0])];
      }
    }
  }

  /** On a server with dev commands off a row says `gm` alone; `dev` is in it exactly when they are on. */
  lemma RowNamesTheAuthority(g: Gate, c: Command)
    requires MayUse(g)
    ensures RowOf(g, c).command == c.name
    ensures RowOf(g, c).args == Kept(c.args) + " via=gm" <==> !g.isDev
    ensures RowOf(g, c).args == Kept(c.args) + " via=dev" <==> !g.isGm
    ensures RowOf(g, c).args == Kept(c.args) + " via=gm+dev" <==> g.isGm && g.isDev
  {
    assert |" via=gm"| == 7 && |" via=dev"| == 8 && |" via=gm+dev"| == 11;
  }

  // ------------------------------------------------------------- the bucket's books

  /** No command of the run finds the bucket refilled past its brim. */
  predicate NeverBrims(g: Gate, cs: seq<Command>)
    decreases |cs|
  {
    cs == [] ||
    (g.tokens + (cs[0].at - g.refillAt) * REFILL <= BURST && NeverBrims(After(g, cs[0]), cs[1..]))
  }

  /**
   Short of the brim no token is lost: what a run leaves is what it found and what was
   refilled, less one a command.
   */
  lemma {:induction false} TokensConserved(g: Gate, cs: seq<Command>, t: real)
    requires MayUse(g) && g.refillAt <= t && InTime(cs, t) && NeverBrims(g, cs)
    ensures Run(g, cs).refillAt == if cs == [] then g.refillAt else cs[|cs| - 1].at
    ensures Run(g, cs).tokens ==
      g.tokens + (Run(g, cs).refillAt - g.refillAt) * REFILL - CountAllowed(Decisions(g, cs)) as real
    decreases |cs|
  {
    if cs != [] {
      TokensConserved(After(g, cs[0]), cs[1..], cs[0].at);
      assert Decisions(g, cs)[1..] == Decisions(After(g, cs[0]), cs[1..]);
    }
  }

  /** With authority a command is let through exactly when the tokens held and refilled since make one. */
  lemma AllowedIffATokenIsMade(g: Gate, c: Command)
    requires g.refillAt <= c.at
    ensures Decide(g, c).Allowed? <==> MayUse(g) && g.tokens + (c.at - g.refillAt) * REFILL >= 1.0
  {
  }

  function CountRefused(ds: seq<Auth>): nat {
    if ds == [] then 0 else (if ds[0].RateLimited? then 1 else 0) + CountRefused(ds[1..])
  }

  /** The counter of refusals counts them, to the most it can hold. */
  lemma {:induction false} RefusalsAreCounted(g: Gate, cs: seq<Command>)
    requires g.refused <= U32_MAX
    ensures
      var refused := g.refused + CountRefused(Decisions(g, cs));
      Run(g, cs).refused == if refused <= U32_MAX then refused else U32_MAX
    decreases |cs|
  {
    if cs != [] {
      RefusalsAreCounted(After(g, cs[0]), cs[1..]);
      assert Decisions(g, cs)[1..] == Decisions(After(g, cs[0]), cs[1..]);
    }
  }

  // ------------------------------------------------------------------- the notices

  /** After a notice at time `s`, every later notice is at least a second on. */
  lemma {:induction false} NoticesAfter(g: Gate, cs: seq<Command>, t: real, s: real, j: nat)
    requires InTime(cs, t) && s <= t && j < |cs|
    requires g.noticeAt.Some? && s <= g.noticeAt.value <= t
    requires Decisions(g, cs)[j] == RateLimited(true)
    ensures cs[j].at >= s + 1.0
    decreases |cs|
  {
    var g' := After(g, cs[0]);
    assert Decisions(g, cs) == [Decide(g, cs[0])] + Decisions(g', cs[1..]);
    if j > 0 {
      NoticesAfter(g', cs[1..], cs[0].at, s, j - 1);
    }
  }

  /** Two refusal notices are at least a second apart. */
  lemma {:induction false} NoticesASecondApart(g: Gate, cs: seq<Command>, t: real, i: nat, j: nat)
    requires InTime(cs, t) && i < j < |cs|
    requires Decisions(g, cs)[i] == RateLimited(true) == Decisions(g, cs)[j]
    ensures cs[j].at - cs[i].at >= 1.0
    decreases |cs|
  {
    var g' := After(g, cs[0]);
    assert Decisions(g, cs) == [Decide(g, cs[0])] + Decisions(g', cs[1..]);
    if i > 0 {
      NoticesASecondApart(g', cs[1..], cs[0].at, i - 1, j - 1);
    } else {
      NoticesAfter(g', cs[1..], cs[0].at, cs[0].at, j - 1);
    }
  }

  /** A refusal that goes untold comes within a second of one that was told. */
  lemma {:induction false} UntoldFollowsANotice(g: Gate, cs: seq<Command>, t: real, j: nat)
    requires InTime(cs, t) && j < |cs| && (g.noticeAt.Some? ==> g.noticeAt.value <= t)
    requires Decisions(g, cs)[j] == RateLimited(false)
    ensures
      || (g.noticeAt.Some? && cs[j].at - g.noticeAt.value < 1.0)
      || (exists i :: 0 <= i < j && Decisions(g, cs)[i] == RateLimited(true) && cs[j].at - cs[i].at < 1.0)
    decreases |cs|
  {
    var g', rest := After(g, cs[0]), Decisions(After(g, cs[0]), cs[1..]);
    assert Decisions(g, cs) == [Decide(g, cs[0])] + rest;
    NothingBefore(cs, t, j);
    if j > 0 {
      UntoldFollowsANotice(g', cs[1..], cs[0].at, j - 1);
      if i :| 0 <= i < j - 1 && rest[i] == RateLimited(true) && cs[1..][j - 1].at - cs[1..][i].at < 1.0 {
        assert Decisions(g, cs)[i + 1] == RateLimited(true) && cs[j].at - cs[i + 1].at < 1.0;
      }
    }
  }

  lemma {:induction false} NothingBefore(cs: seq<Command>, t: real, j: nat)
    requires InTime(cs, t) && j < |cs|
    ensures t <= cs[j].at
    decreases |cs|
  {
    if j > 0 {
      NothingBefore(cs[1..], cs[0].at, j - 1);
    }
  }

  /** Each command comes at least a refill's interval after the one before. */
  predicate Spaced(cs: seq<Command>) {
    forall i :: 0 <= i < |cs| - 1 ==> cs[i + 1].at - cs[i].at >= 1.0 / REFILL
  }

  /** A caller with a token in hand who keeps to the refill rate is never refused. */
  lemma {:induction false} SteadyCallerIsServed(g: Gate, cs: seq<Command>)
    requires MayUse(g) && Spaced(cs) && g.tokens >= 0.0
    requires cs != [] ==> Refilled(g, cs[0].at) >= 1.0
    ensures forall i :: 0 <= i < |cs| ==> Decisions(g, cs)[i] == Allowed
    decreases |cs|
  {
    if cs != [] {
      var g' := After(g, cs[0]);
      if |cs| > 1 {
        assert cs[0 + 1].at - cs[0].at >= 1.0 / REFILL;
        assert Refilled(g', cs[1..][0].at) >= 1.0;
      }
      forall i | 0 <= i < |cs[1..]| - 1
        ensures cs[1..][i + 1].at - cs[1..][i].at >= 1.0 / REFILL
      {
        assert cs[(i + 1) + 1].at - cs[i + 1].at >= 1.0 / REFILL;
      }
      SteadyCallerIsServed(g', cs[1..]);
      assert Decisions(g, cs) == [Decide(g, cs[0])] + Decisions(g', cs[1..]);
    }
  }

  /**
   The gate denies exactly an account without authority, rate-limits exactly one that has
   it and less than a token, and records exactly what it allows; a denial changes nothing.
   */
  lemma RefusedIffBroke(g: Gate, c: Command)
    ensures Decide(g, c).Denied? <==> !MayUse(g)
    ensures Decide(g, c).RateLimited? <==> MayUse(g) && Refilled(g, c.at) < 1.0
    ensures After(g, c).audit != g.audit <==> Decide(g, c).Allowed?
    ensures Decide(g, c).Denied? ==> After(g, c) == g
    ensures Decide(g, c).RateLimited? ==> After(g, c).refused >= g.refused && After(g, c).audit == g.audit
  {
    assert |g.audit + [RowOf(g, c)]| == |g.audit| + 1;
  }

  // ------------------------------------------------------------ the connection

  class Connection {
    const isDev: bool
    const isGm: bool
    var tokens: real
    var refillAt: real
    var refused: nat
    var noticeAt: Option<real>
    var audit: seq<AuditEntry>

    function View(): Gate
      reads this
    {
      Gate(isDev, isGm, tokens, refillAt, refused, noticeAt, audit)
    }

    constructor (isDev: bool, isGm: bool, now: real)
      ensures View() == Fresh(isDev, isGm, now) && Ok(View(), now)
    {
      this.isDev, this.isGm := isDev, isGm;
      tokens, refillAt, refused, noticeAt, audit := BURST, now, 0, None, [];
    }

    /** `authorize_dev_cmd`. */
    method Authorize(c: Command) returns (auth: Auth)
      modifies this
      ensures auth == Decide(old(View()), c)
      ensures View() == After(old(View()), c)
    {
      if !(isDev || isGm) {
        return Denied;
      }
      tokens := Min(tokens + Elapsed(c.at, refillAt) * REFILL, BURST);
      refillAt := c.at;
      if tokens < 1.0 {
        refused := if refused < U32_MAX then refused + 1 else refused;
        var notify := noticeAt.None? || Elapsed(c.at, noticeAt.value) >= 1.0;
        if notify {
          noticeAt := Some(c.at);
        }
        return RateLimited(notify);
      }
      tokens := tokens - 1.0;
      var via := match (isGm, isDev)
        case (true, true) => "gm+dev"
        case (true, false) => "gm"
        case _ => "dev";
      audit := audit + [AuditEntry(c.name, Kept(c.args) + " via=" + via)];
      return Allowed;
    }
  }
}
