/**
 What the limiter answers, read off the times of the attempts alone: a window opens
 with the first attempt after the one before is over, and admits its first few.
 */
module RateWindows {
  import opened Reals
  import opened RateLimit

  /** The times of the attempts on one key, in order. */
  function Times(es: seq<Event>, k: Key): seq<real> {
    if es == [] then []
    else if es[0].Attempt? && es[0].key == k then [es[0].at] + Times(es[1..], k)
    else Times(es[1..], k)
  }

  /** Which attempt opened the window that attempt `i` falls in. */
  function Opener(ts: seq<real>, i: nat): (o: nat)
    requires i < |ts|
    ensures o <= i
  {
    if i == 0 then 0
    else
      var before := Opener(ts, i - 1);
      if ts[i] - ts[before] >= LOGIN_WINDOW then i else before
  }

  predicate Uncleared(es: seq<Event>, k: Key) {
    forall e :: e in es && e.key == k ==> e.Attempt?
  }

  /**
   The window that stands after the first `n` attempts: its opener's, with as many admitted as
   it has had, to the maximum.
   */
  predicate Stands(m: Table, k: Key, ts: seq<real>, n: nat)
    requires n <= |ts|
  {
    if n == 0 then k !in m
    else
      var o := Opener(ts, n - 1);
      k in m && m[k] == Window(if n - o < MAX_LOGIN_ATTEMPTS then n - o else MAX_LOGIN_ATTEMPTS, ts[o])
  }

  /** One attempt, the `n`th: the answer it gets and the window it leaves. */
  lemma AttemptByWindow(m: Table, k: Key, ts: seq<real>, n: nat)
    requires n < |ts| && Stands(m, k, ts, n) && (n > 0 ==> ts[Opener(ts, n - 1)] <= ts[n])
    ensures Admits(m, k, ts[n]) <==> n - Opener(ts, n) < MAX_LOGIN_ATTEMPTS
    ensures Stands(AfterAttempt(m, k, ts[n]), k, ts, n + 1)
  {
  }

  /** Fewer than the maximum came before it in its window. */
  predicate EarlyAt(ts: seq<real>, i: nat)
    requires i < |ts|
  {
    i - Opener(ts, i) < MAX_LOGIN_ATTEMPTS
  }

  /** From the `n`th attempt on, the answers admit exactly those with few enough before them in their window. */
  predicate EarlyAdmitted(answers: seq<bool>, ts: seq<real>, n: nat) {
    && |answers| == |ts| - n
    && (forall i :: 0 <= i < |answers| ==> (answers[i] <==> EarlyAt(ts, n + i)))
  }

  lemma OneMoreAnswer(first: bool, rest: seq<bool>, ts: seq<real>, n: nat)
    requires n < |ts| && EarlyAdmitted(rest, ts, n + 1) && (first <==> EarlyAt(ts, n))
    ensures EarlyAdmitted([first] + rest, ts, n)
  {
    forall i | 0 <= i < |rest| + 1
      ensures ([first] + rest)[i] <==> EarlyAt(ts, n + i)
    {
      if i > 0 {
        assert ([first] + rest)[i] == rest[i - 1] == EarlyAt(ts, n + 1 + (i - 1));
      }
    }
  }

  lemma {:induction false} ByWindow(m: Table, es: seq<Event>, k: Key, t: real, ts: seq<real>, n: nat)
    requires n <= |ts| && ts[n..] == Times(es, k) && Uncleared(es, k) && InTime(es, t)
    requires Stands(m, k, ts, n) && (n > 0 ==> ts[Opener(ts, n - 1)] <= t)
    ensures EarlyAdmitted(Answers(m, es, false, k), ts, n)
    decreases |es|
  {
    if es != [] {
      var e, rest := es[0], es[1..];
      var m' := Handle(m, e, false);
      assert e in es && forall x :: x in rest ==> x in es;
      if e.key == k {
        assert ts[n] == e.at && ts[n + 1..] == ts[n..][1..];
        AttemptByWindow(m, k, ts, n);
        ByWindow(m', rest, k, e.at, ts, n + 1);
        OneMoreAnswer(Admits(m, k, e.at), Answers(m', rest, false, k), ts, n);
      } else {
        ByWindow(m', rest, k, if e.Attempt? then e.at else t, ts, n);
      }
    }
  }

  /** A key with no window standing: none in the table, or one that is over. */
  predicate NoWindow(m: Table, k: Key, t: real) {
    k !in m || t - m[k].start >= LOGIN_WINDOW
  }

  /**
   From a key with no window standing, at a running limiter, prune and all, whatever other
   keys do: an attempt is admitted exactly when fewer than the maximum came before it in
   its window.
   */
  lemma AdmittedIffEarlyInWindow(m: Table, es: seq<Event>, k: Key, t: real)
    requires (forall c :: c in m ==> m[c].start <= t) && NoWindow(m, k, t)
    requires InTime(es, t) && Uncleared(es, k)
    ensures EarlyAdmitted(Answers(m, es, true, k), Times(es, k), 0)
  {
    PruningIsInvisible(m, m, es, t, k);
    ExpiredIsFresh(m, es, k, t);
    FreshByWindow(m - {k}, es, k, t);
  }

  lemma FreshByWindow(m: Table, es: seq<Event>, k: Key, t: real)
    requires k !in m && InTime(es, t) && Uncleared(es, k)
    ensures EarlyAdmitted(Answers(m, es, false, k), Times(es, k), 0)
  {
    assert Times(es, k)[0..] == Times(es, k);
    ByWindow(m, es, k, t, Times(es, k), 0);
  }

  // ------------------------------------------------------------- one window

  lemma {:induction false} OneOpener(ts: seq<real>, i: nat)
    requires i < |ts| && (forall j :: 0 <= j < |ts| ==> ts[j] - ts[0] < LOGIN_WINDOW)
    ensures Opener(ts, i) == 0
  {
    if i > 0 {
      OneOpener(ts, i - 1);
    }
  }

  /** Answers that admit the first `max` of a stretch and no other. */
  predicate AdmitsFirst(answers: seq<bool>, max: nat) {
    forall i :: 0 <= i < |answers| ==> (answers[i] <==> i < max)
  }

  /** Within a window of its first attempt, a fresh key has its first few attempts admitted and every other refused. */
  lemma FirstFewOfAWindow(m: Table, es: seq<Event>, k: Key, t: real)
    requires (forall c :: c in m ==> m[c].start <= t) && NoWindow(m, k, t)
    requires InTime(es, t) && Uncleared(es, k)
    requires forall i :: 0 <= i < |Times(es, k)| ==> Times(es, k)[i] - Times(es, k)[0] < LOGIN_WINDOW
    ensures |Answers(m, es, true, k)| == |Times(es, k)| && AdmitsFirst(Answers(m, es, true, k), MAX_LOGIN_ATTEMPTS)
  {
    AdmittedIffEarlyInWindow(m, es, k, t);
    AllOneWindow(Answers(m, es, true, k), Times(es, k));
  }

  lemma AllOneWindow(answers: seq<bool>, ts: seq<real>)
    requires EarlyAdmitted(answers, ts, 0) && (forall j :: 0 <= j < |ts| ==> ts[j] - ts[0] < LOGIN_WINDOW)
    ensures AdmitsFirst(answers, MAX_LOGIN_ATTEMPTS)
  {
    forall i | 0 <= i < |answers|
      ensures answers[i] <==> i < MAX_LOGIN_ATTEMPTS
    {
      OneOpener(ts, i);
      assert answers[i] == EarlyAt(ts, 0 + i);
    }
  }

  // ------------------------------------------------ what was admitted before

  lemma {:induction false} SameOpener(ts: seq<real>, i: nat, j: nat)
    requires j <= i < |ts| && Opener(ts, i) <= j
    ensures Opener(ts, j) == Opener(ts, i)
  {
    if j < i {
      SameOpener(ts, i - 1, j);
    }
  }

  lemma {:induction false} CountOfFirst(answers: seq<bool>, max: nat)
    requires AdmitsFirst(answers, max)
    ensures Count(answers) == if |answers| < max then |answers| else max
  {
    if answers != [] {
      var rest := answers[1..];
      if max > 0 {
        forall i | 0 <= i < |rest|
          ensures rest[i] <==> i < max - 1
        {
          assert rest[i] == answers[i + 1];
        }
        CountOfFirst(rest, max - 1);
      } else {
        CountOfFirst(rest, 0);
      }
    }
  }

  lemma CountSince(answers: seq<bool>, o: nat, i: nat)
    requires o <= i <= |answers|
    requires forall j :: o <= j < i ==> (answers[j] <==> j - o < MAX_LOGIN_ATTEMPTS)
    ensures Count(answers[o..i]) == if i - o < MAX_LOGIN_ATTEMPTS then i - o else MAX_LOGIN_ATTEMPTS
  {
    var since := answers[o..i];
    forall j | 0 <= j < |since|
      ensures since[j] <==> j < MAX_LOGIN_ATTEMPTS
    {
      assert since[j] == answers[o + j];
    }
    CountOfFirst(since, MAX_LOGIN_ATTEMPTS);
  }

  /** In answers that admit those early in their window, one is missing exactly when its window is spent. */
  lemma RefusedWhenSpent(answers: seq<bool>, ts: seq<real>, i: nat, o: nat)
    requires i < |ts| && EarlyAdmitted(answers, ts, 0) && o == Opener(ts, i)
    ensures !answers[i] <==> Count(answers[o..i]) == MAX_LOGIN_ATTEMPTS
  {
    forall j | o <= j < i
      ensures answers[j] <==> j - o < MAX_LOGIN_ATTEMPTS
    {
      SinceOpener(answers, ts, i, j);
    }
    SinceOpener(answers, ts, i, i);
    CountSince(answers, o, i);
  }

  lemma SinceOpener(answers: seq<bool>, ts: seq<real>, i: nat, j: nat)
    requires i < |ts| && EarlyAdmitted(answers, ts, 0) && Opener(ts, i) <= j <= i
    ensures answers[j] <==> j - Opener(ts, i) < MAX_LOGIN_ATTEMPTS
  {
    SameOpener(ts, i, j);
    assert answers[j] == EarlyAt(ts, 0 + j);
  }

  /** An attempt is refused if and only if the maximum have been admitted since its window opened. */
  lemma RefusedIffWindowSpent(m: Table, es: seq<Event>, k: Key, t: real, i: nat)
    requires (forall c :: c in m ==> m[c].start <= t) && NoWindow(m, k, t)
    requires InTime(es, t) && Uncleared(es, k) && i < |Times(es, k)|
    ensures |Answers(m, es, true, k)| == |Times(es, k)|
    ensures !Answers(m, es, true, k)[i] <==>
      Count(Answers(m, es, true, k)[Opener(Times(es, k), i)..i]) == MAX_LOGIN_ATTEMPTS
  {
    AdmittedIffEarlyInWindow(m, es, k, t);
    RefusedWhenSpent(Answers(m, es, true, k), Times(es, k), i, Opener(Times(es, k), i));
  }

  /** The first attempt once a window is over, however many it refused, is admitted. */
  lemma NextWindowAdmits(m: Table, es: seq<Event>, k: Key, t: real, i: nat)
    requires (forall c :: c in m ==> m[c].start <= t) && NoWindow(m, k, t)
    requires InTime(es, t) && Uncleared(es, k) && 0 < i < |Times(es, k)|
    requires Times(es, k)[i] - Times(es, k)[Opener(Times(es, k), i - 1)] >= LOGIN_WINDOW
    ensures |Answers(m, es, true, k)| == |Times(es, k)| && Answers(m, es, true, k)[i]
  {
    AdmittedIffEarlyInWindow(m, es, k, t);
    assert Answers(m, es, true, k)[i] == EarlyAt(Times(es, k), 0 + i);
  }

  // ---------------------------------------------------------------- a clear

  lemma {:induction false} AnswersConcat(m: Table, a: seq<Event>, b: seq<Event>, k: Key) returns (n: Table)
    ensures Answers(m, a + b, false, k) == Answers(m, a, false, k) + Answers(n, b, false, k)
    decreases |a|
  {
    if a == [] {
      assert a + b == b;
      n := m;
    } else {
      assert (a + b)[0] == a[0] && (a + b)[1..] == a[1..] + b;
      n := AnswersConcat(Handle(m, a[0], false), a[1..], b, k);
    }
  }

  lemma {:induction false} InTimeParts(a: seq<Event>, b: seq<Event>, t: real)
    requires InTime(a + b, t)
    ensures InTime(a, t) && InTime(b, t)
    decreases |a|
  {
    if a == [] {
      assert a + b == b;
    } else {
      assert (a + b)[0] == a[0] && (a + b)[1..] == a[1..] + b;
      InTimeParts(a[1..], b, if a[0].Attempt? then a[0].at else t);
      if a[0].Attempt? {
        EarlierStart(b, a[0].at, t);
      }
    }
  }

  lemma {:induction false} EarlierStart(es: seq<Event>, t: real, u: real)
    requires InTime(es, t) && u <= t
    ensures InTime(es, u)
    decreases |es|
  {
    if es != [] && es[0].Clear? {
      EarlierStart(es[1..], t, u);
    }
  }

  /** After a clear a key is answered as at a limiter that has never heard of it. */
  lemma ClearStartsAfresh(m: Table, before: seq<Event>, after: seq<Event>, k: Key, t: real)
    requires (forall c :: c in m ==> m[c].start <= t) && InTime(before + [Clear(k)] + after, t)
    ensures Answers(m, before + [Clear(k)] + after, true, k) ==
      Answers(m, before, true, k) + Answers(map[], after, true, k)
  {
    var cleared := [Clear(k)] + after;
    assert before + [Clear(k)] + after == before + cleared;
    InTimeParts(before, cleared, t);
    assert cleared[1..] == after;
    PruningIsInvisible(m, m, before + cleared, t, k);
    PruningIsInvisible(m, m, before, t, k);
    PruningIsInvisible(map[], map[], after, t, k);
    var n := AnswersConcat(m, before, cleared, k);
    AnswersAreLocal(n - {k}, map[], after, k);
    AnswersAreLocal(map[], map[], after, k);
  }
}
