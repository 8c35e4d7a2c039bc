/**
 The login and registration limiter: a fixed window per address and kind, with
 an opportunistic prune of expired windows once the table is large.

 `Handle` is the rule for one event with and without the prune; the prune is
 proved invisible, so every other result carries over to the pruning limiter.
 */
module RateLimit {
  import opened Reals

  const MAX_LOGIN_ATTEMPTS: nat := 5
  const LOGIN_WINDOW: real := 60.0
  const PRUNE_AT: nat := 4096

  datatype Kind = Login | Register
  datatype Key = Key(ip: nat, kind: Kind)
  datatype Window = Window(count: nat, start: real)

  type Table = map<Key, Window>

  datatype Event = Attempt(key: Key, at: real) | Clear(key: Key)

  predicate Expired(w: Window, now: real) {
    Elapsed(now, w.start) >= LOGIN_WINDOW
  }

  function Prune(m: Table, now: real): Table {
    if |m| >= PRUNE_AT then map k | k in m && !Expired(m[k], now) :: m[k] else m
  }

  /** The window an attempt is counted in: the standing one, or a fresh one. */
  function Current(m: Table, key: Key, now: real): Window {
    if key !in m || Expired(m[key], now) then Window(0, now) else m[key]
  }

  predicate Admits(m: Table, key: Key, now: real) {
    Current(m, key, now).count < MAX_LOGIN_ATTEMPTS
  }

  function AfterAttempt(m: Table, key: Key, now: real): Table {
    var w := Current(m, key, now);
    m[key := if Admits(m, key, now) then w.(count := w.count + 1) else w]
  }

  function Handle(m: Table, e: Event, prune: bool): Table {
    match e
    case Clear(k) => m - {k}
    case Attempt(k, now) => AfterAttempt(if prune then Prune(m, now) else m, k, now)
  }

  /** The answers to the attempts on key `k`, in order. */
  function Answers(m: Table, es: seq<Event>, prune: bool, k: Key): seq<bool>
    decreases |es|
  {
    if es == [] then []
    else
      var e := es[0];
      var rest := Answers(Handle(m, e, prune), es[1..], prune, k);
      if e.Attempt? && e.key == k then [Admits(if prune then Prune(m, e.at) else m, k, e.at)] + rest else rest
  }

  /** Attempts come at non-decreasing times, none before `t`. */
  predicate InTime(es: seq<Event>, t: real)
    decreases |es|
  {
    es == [] || (match es[0]
                 case Clear(_) => InTime(es[1..], t)
                 case Attempt(_, at) => t <= at && InTime(es[1..], at))
  }

  // ---------------------------------------------------- the prune is invisible

  /** A pruned table beside one that was never pruned: it lacks only windows already over. */
  predicate Pruned(small: Table, full: Table, now: real) {
    && (forall k :: k in small ==> k in full && small[k] == full[k])
    && (forall k :: k in full && k !in small ==> Expired(full[k], now))
    && (forall k :: k in full ==> full[k].start <= now)
  }

  lemma PruneStaysPruned(small: Table, full: Table, t: real, now: real)
    requires Pruned(small, full, t) && t <= now
    ensures Pruned(Prune(small, now), full, now)
  {
  }

  lemma AttemptStaysPruned(small: Table, full: Table, k: Key, now: real)
    requires Pruned(small, full, now)
    ensures Admits(small, k, now) == Admits(full, k, now)
    ensures Pruned(AfterAttempt(small, k, now), AfterAttempt(full, k, now), now)
  {
    assert Current(small, k, now) == Current(full, k, now);
  }

  /** The limiter that prunes answers every attempt exactly as one that never does. */
  lemma {:induction false} PruningIsInvisible(small: Table, full: Table, es: seq<Event>, t: real, k: Key)
    requires Pruned(small, full, t) && InTime(es, t)
    ensures Answers(small, es, true, k) == Answers(full, es, false, k)
    decreases |es|
  {
    if es != [] {
      match es[0]
      case Clear(c) =>
        PruningIsInvisible(small - {c}, full - {c}, es[1..], t, k);
      case Attempt(a, now) =>
        PruneStaysPruned(small, full, t, now);
        AttemptStaysPruned(Prune(small, now), full, a, now);
        PruningIsInvisible(Handle(small, es[0], true), Handle(full, es[0], false), es[1..], now, k);
    }
  }

  // -------------------------------------------------- keys do not interfere

  function Touching(es: seq<Event>, k: Key): seq<Event>
    decreases |es|
  {
    if es == [] then []
    else if es[0].key == k then [es[0]] + Touching(es[1..], k)
    else Touching(es[1..], k)
  }

  function At(m: Table, k: Key): set<Window> {
    if k in m then {m[k]} else {}
  }

  /** A key's answers depend on its own window and its own events, and on nothing else. */
  lemma {:induction false} AnswersAreLocal(m: Table, n: Table, es: seq<Event>, k: Key)
    requires At(m, k) == At(n, k)
    ensures Answers(m, es, false, k) == Answers(n, Touching(es, k), false, k)
    decreases |es|
  {
    if es != [] {
      assert k in m <==> k in n;
      assert k in m ==> m[k] in At(n, k);
      var m' := Handle(m, es[0], false);
      if es[0].key == k {
        assert Touching(es, k)[1..] == Touching(es[1..], k);
        AnswersAreLocal(m', Handle(n, es[0], false), es[1..], k);
      } else {
        AnswersAreLocal(m', n, es[1..], k);
      }
    }
  }

  /**
   No event on another key changes an answer, the prune notwithstanding: two
   traces that agree on what touches `k` give `k` the same answers. So clearing a
   Login budget never changes what Register is told.
   */
  lemma OtherKeysDoNotInterfere(m: Table, es: seq<Event>, es': seq<Event>, t: real, k: Key)
    requires InTime(es, t) && InTime(es', t)
    requires forall c :: c in m ==> m[c].start <= t
    requires Touching(es, k) == Touching(es', k)
    ensures Answers(m, es, true, k) == Answers(m, es', true, k)
  {
    PruningIsInvisible(m, m, es, t, k);
    PruningIsInvisible(m, m, es', t, k);
    AnswersAreLocal(m, m, es, k);
    AnswersAreLocal(m, m, es', k);
  }

  /** Slipping a Login clear in anywhere leaves every Register answer alone. */
  lemma LoginClearSparesRegister(m: Table, before: seq<Event>, after: seq<Event>, ip: nat, t: real)
    requires InTime(before + after, t)
    requires forall c :: c in m ==> m[c].start <= t
    ensures forall other: nat ::
      Answers(m, before + [Clear(Key(ip, Login))] + after, true, Key(other, Register))
      == Answers(m, before + after, true, Key(other, Register))
  {
    var c := Clear(Key(ip, Login));
    InsertingAClear(before, after, c.key, t);
    forall other: nat
      ensures Answers(m, before + [c] + after, true, Key(other, Register))
           == Answers(m, before + after, true, Key(other, Register))
    {
      OtherKeysDoNotInterfere(m, before + [c] + after, before + after, t, Key(other, Register));
    }
  }

  lemma {:induction false} InsertingAClear(before: seq<Event>, after: seq<Event>, c: Key, t: real)
    requires InTime(before + after, t)
    ensures InTime(before + [Clear(c)] + after, t)
    ensures forall k: Key :: k != c ==> Touching(before + [Clear(c)] + after, k) == Touching(before + after, k)
    decreases |before|
  {
    var es := before + [Clear(c)] + after;
    if before == [] {
      assert es[1..] == after && before + after == after;
    } else {
      assert es[1..] == before[1..] + [Clear(c)] + after;
      assert (before + after)[1..] == before[1..] + after;
      InsertingAClear(before[1..], after, c, if before[0].Attempt? then before[0].at else t);
    }
  }

  // --------------------------------------------------------------- the budget

  function Count(answers: seq<bool>): nat {
    if answers == [] then 0 else (if answers[0] then 1 else 0) + Count(answers[1..])
  }

  /** Whole windows in a span of time. */
  function Windows(span: real): int {
    (span / LOGIN_WINDOW).Floor
  }

  /** `k` is never cleared, and no attempt on it comes after `end`. */
  predicate Within(es: seq<Event>, k: Key, end: real) {
    && (forall e :: e in es && e.key == k ==> e.Attempt? && e.at <= end)
  }

  /** What one attempt does to the window of its key: count on, refuse, or start afresh. */
  lemma {:induction false} StandingBudget(m: Table, es: seq<Event>, k: Key, t: real, end: real)
    requires k in m && m[k].count <= MAX_LOGIN_ATTEMPTS && m[k].start <= t
    requires InTime(es, t) && Within(es, k, end) && m[k].start <= end
    ensures Count(Answers(m, es, false, k)) <= MAX_LOGIN_ATTEMPTS * (Windows(end - m[k].start) + 1) - m[k].count
    decreases |es|
  {
    var w := m[k];
    if es == [] {
      assert Windows(end - w.start) >= 0;
    } else {
      var e := es[0];
      var m' := Handle(m, e, false);
      assert forall x :: x in es[1..] ==> x in es;
      if e.key != k {
        StandingBudget(m', es[1..], k, if e.Attempt? then e.at else t, end);
      } else {
        assert e in es;
        var rest := Answers(m', es[1..], false, k);
        assert Answers(m, es, false, k)[1..] == rest;
        StandingBudget(m', es[1..], k, e.at, end);
        if Expired(w, e.at) {
          LaterWindowHoldsLess(w.start, e.at, end);
        }
      }
    }
  }

  lemma LaterWindowHoldsLess(start: real, at: real, end: real)
    requires at - start >= LOGIN_WINDOW && at <= end
    ensures Windows(end - at) + 1 <= Windows(end - start)
  {
    assert (end - at) / LOGIN_WINDOW + 1.0 <= (end - start) / LOGIN_WINDOW;
  }

  /**
   From a key with no window, at most `MAX` attempts are admitted for each window
   that fits in the time since its first attempt, plus one.
   */
  lemma {:induction false} FreshBudget(m: Table, es: seq<Event>, k: Key, t: real, first: real, end: real)
    requires k !in m && InTime(es, t) && Within(es, k, end)
    requires forall e :: e in es && e.key == k ==> first <= e.at
    requires first <= end
    ensures Count(Answers(m, es, false, k)) <= MAX_LOGIN_ATTEMPTS * (Windows(end - first) + 1)
    decreases |es|
  {
    if es == [] {
      assert Windows(end - first) >= 0;
    } else {
      var e := es[0];
      var m' := Handle(m, e, false);
      assert forall x :: x in es[1..] ==> x in es;
      if e.key != k {
        FreshBudget(m', es[1..], k, if e.Attempt? then e.at else t, first, end);
      } else {
        assert e in es;
        assert Answers(m, es, false, k)[1..] == Answers(m', es[1..], false, k);
        StandingBudget(m', es[1..], k, e.at, end);
        assert (end - e.at) / LOGIN_WINDOW <= (end - first) / LOGIN_WINDOW;
      }
    }
  }

  /**
   The budget of a fresh key at a running limiter, prune and all: whatever other windows
   the table holds and whatever other keys do, the span is its own, from `first` to `end`.
   */
  lemma AdmittedWithinBudget(m: Table, es: seq<Event>, k: Key, t: real, first: real, end: real)
    requires k !in m && (forall c :: c in m ==> m[c].start <= t)
    requires InTime(es, t) && Within(es, k, end) && first <= end
    requires forall e :: e in es && e.key == k ==> first <= e.at
    ensures Count(Answers(m, es, true, k)) <= MAX_LOGIN_ATTEMPTS * (Windows(end - first) + 1)
  {
    PruningIsInvisible(m, m, es, t, k);
    FreshBudget(m, es, k, t, first, end);
  }

  /** Over any stretch, whatever window it finds open, the bound is one window larger. */
  lemma AdmittedOverAnyStretch(m: Table, es: seq<Event>, k: Key, first: real, end: real)
    requires InTime(es, first) && Within(es, k, end) && first <= end
    requires forall c :: c in m ==> m[c].start <= first && m[c].count <= MAX_LOGIN_ATTEMPTS
    requires forall e :: e in es && e.key == k ==> first <= e.at
    ensures Count(Answers(m, es, true, k)) <= MAX_LOGIN_ATTEMPTS * (Windows(end - first) + 2)
  {
    PruningIsInvisible(m, m, es, first, k);
    assert Windows(end - first) >= 0;
    if k in m && !Expired(m[k], first) {
      StandingBudget(m, es, k, first, end);
      assert (end - m[k].start) / LOGIN_WINDOW <= (end - first) / LOGIN_WINDOW + 1.0;
    } else {
      ExpiredIsFresh(m, es, k, first);
      FreshBudget(m - {k}, es, k, first, first, end);
    }
  }

  /** A window already over answers as no window at all. */
  lemma {:induction false} ExpiredIsFresh(m: Table, es: seq<Event>, k: Key, t: real)
    requires InTime(es, t) && (k in m ==> Expired(m[k], t) && m[k].start <= t)
    ensures Answers(m, es, false, k) == Answers(m - {k}, es, false, k)
    decreases |es|
  {
    if es != [] {
      match es[0]
      case Clear(c) =>
        assert m - {c} - {k} == m - {k} - {c};
        ExpiredIsFresh(m - {c}, es[1..], k, t);
      case Attempt(a, now) =>
        if a == k {
          assert AfterAttempt(m, k, now) == AfterAttempt(m - {k}, k, now);
        } else {
          var m' := AfterAttempt(m, a, now);
          assert m' - {k} == AfterAttempt(m - {k}, a, now);
          ExpiredIsFresh(m', es[1..], k, now);
        }
    }
  }

  // --------------------------------------------------------------- the limiter

  class LoginRateLimiter {
    const disabled: bool
    var windows: Table

    constructor (disabled: bool)
      ensures this.disabled == disabled && windows == map[]
    {
      this.disabled := disabled;
      windows := map[];
    }

    /** `try_acquire`: consume a slot for the key, or refuse. The kill switch admits everything. */
    method TryAcquire(key: Key, now: real) returns (admitted: bool)
      modifies this
      ensures disabled ==> admitted && windows == old(windows)
      ensures !disabled ==> admitted == Admits(Prune(old(windows), now), key, now)
      ensures !disabled ==> windows == Handle(old(windows), Attempt(key, now), true)
    {
      if disabled {
        return true;
      }
      if |windows| >= PRUNE_AT {
        windows := map k | k in windows && Elapsed(now, windows[k].start) < LOGIN_WINDOW :: windows[k];
      }
      ghost var pruned := windows;
      assert pruned == Prune(old(windows), now);
      if key !in windows {
        windows := windows[key := Window(0, now)];
      }
      if Elapsed(now, windows[key].start) >= LOGIN_WINDOW {
        windows := windows[key := Window(0, now)];
      }
      assert windows == pruned[key := Current(pruned, key, now)];
      if windows[key].count >= MAX_LOGIN_ATTEMPTS {
        return false;
      }
      windows := windows[key := windows[key].(count := windows[key].count + 1)];
      return true;
    }

    method ClearKey(key: Key)
      modifies this
      ensures windows == Handle(old(windows), Clear(key), true)
    {
      windows := windows - {key};
    }
  }
}
