/**
 The momentum rule for a character's alignment: a move away from the centre is
 scaled down by how far out the score already is, a move back lands whole.
 */
module Alignment {
  import opened Reals
  import opened Sequences

  const SCORE_CAP: real := 2000.0

  function Abs(x: real): real {
    if x >= 0.0 then x else -x
  }

  function Clamp(x: real): real {
    if x < -SCORE_CAP then -SCORE_CAP else if x > SCORE_CAP then SCORE_CAP else x
  }

  /** A product under a name, so that proofs may match products without multiplying them out. */
  function Times(a: real, b: real): real {
    a * b
  }

  /** `apply`: one delta through the momentum rule. */
  function Apply(score: real, delta: real): real {
    if delta == 0.0 then score
    else
      var away := (score > 0.0 && delta > 0.0) || (score < 0.0 && delta < 0.0);
      var room := 1.0 - Abs(score) / SCORE_CAP;
      Clamp(score + if away then Times(delta, if room > 0.0 then room else 0.0) else delta)
  }

  function ApplyAll(score: real, deltas: seq<real>): real
    decreases |deltas|
  {
    if deltas == [] then score else ApplyAll(Apply(score, deltas[0]), deltas[1..])
  }

  function Distance(score: real): real {
    SCORE_CAP - Abs(score)
  }

  /** The share of the distance to the cap one delta leaves. */
  function Factor(delta: real): real {
    1.0 - Abs(delta) / SCORE_CAP
  }

  /** The share of the distance to the cap a run of deltas leaves. */
  function Remaining(deltas: seq<real>): real {
    if deltas == [] then 1.0 else Times(Factor(deltas[0]), Remaining(deltas[1..]))
  }

  /** Whether `x` lies on the side of `good` (or at the centre). */
  predicate OnSide(good: bool, x: real) {
    if good then x >= 0.0 else x <= 0.0
  }

  predicate Gentle(good: bool, deltas: seq<real>) {
    forall d :: d in deltas ==> OnSide(good, d) && Abs(d) < SCORE_CAP
  }

  lemma ApplyOutward(good: bool, score: real, delta: real)
    requires OnSide(good, score) && OnSide(good, delta)
    requires Abs(score) <= SCORE_CAP && Abs(delta) < SCORE_CAP
    ensures OnSide(good, Apply(score, delta)) && Abs(Apply(score, delta)) <= SCORE_CAP
    ensures Distance(Apply(score, delta)) == Times(Distance(score), Factor(delta))
  {
    if delta != 0.0 {
      var s, d := Abs(score), Abs(delta);
      GainWithinRoom(s, d);
      if !good {
        assert Times(delta, 1.0 - s / SCORE_CAP) == -Times(d, 1.0 - s / SCORE_CAP);
      }
    }
  }

  lemma Negate(a: real, b: real)
    ensures (-a) * b == -(a * b)
  {
  }

  lemma NonNegative(a: real, b: real)
    requires a >= 0.0 && b >= 0.0
    ensures a * b >= 0.0
  {
  }

  lemma Positive(a: real, b: real)
    requires a > 0.0 && b > 0.0
    ensures a * b > 0.0
  {
  }

  /** What a scaled move gains, and what distance to the cap it leaves. */
  lemma GainWithinRoom(s: real, d: real)
    requires 0.0 <= s <= SCORE_CAP && d >= 0.0
    ensures
      var gain := Times(d, 1.0 - s / SCORE_CAP);
      && gain >= 0.0
      && SCORE_CAP - s - gain == Times(SCORE_CAP - s, 1.0 - d / SCORE_CAP)
      && (d <= SCORE_CAP ==> gain <= SCORE_CAP - s)
  {
    NonNegative(d, 1.0 - s / SCORE_CAP);
    if d <= SCORE_CAP {
      NonNegative(SCORE_CAP - s, 1.0 - d / SCORE_CAP);
    }
  }

  /**
   Deltas that keep pushing one way close the distance to the cap by a factor
   each: what is left is the distance at the start times the product of
   `1 - |d| / cap`.
   */
  lemma {:induction false} MomentumClosedForm(good: bool, score: real, deltas: seq<real>)
    requires OnSide(good, score) && Abs(score) <= SCORE_CAP && Gentle(good, deltas)
    ensures OnSide(good, ApplyAll(score, deltas)) && Abs(ApplyAll(score, deltas)) <= SCORE_CAP
    ensures Distance(ApplyAll(score, deltas)) == Times(Distance(score), Remaining(deltas))
    decreases |deltas|
  {
    if deltas != [] {
      var d, next := deltas[0], Apply(score, deltas[0]);
      assert d in deltas && forall x :: x in deltas[1..] ==> x in deltas;
      ApplyOutward(good, score, d);
      MomentumClosedForm(good, next, deltas[1..]);
      Associate(Distance(score), Factor(d), Remaining(deltas[1..]));
    }
  }

  lemma Associate(a: real, b: real, c: real)
    ensures Times(Times(a, b), c) == Times(a, Times(b, c))
  {
  }

  lemma {:induction false} RemainingIsPositive(good: bool, deltas: seq<real>)
    requires Gentle(good, deltas)
    ensures 0.0 < Remaining(deltas) <= 1.0
  {
    if deltas != [] {
      assert deltas[0] in deltas && forall x :: x in deltas[1..] ==> x in deltas;
      RemainingIsPositive(good, deltas[1..]);
      var f, rest := Factor(deltas[0]), Remaining(deltas[1..]);
      ProductInUnit(f, rest);
      assert Remaining(deltas) == Times(f, rest);
    }
  }

  lemma ProductInUnit(a: real, b: real)
    requires 0.0 < a <= 1.0 && 0.0 < b <= 1.0
    ensures 0.0 < Times(a, b) <= 1.0
  {
    NonNegative(1.0 - a, b);
    Positive(a, b);
  }

  /** Short of the cap, no run of deltas below it ever reaches the cap. */
  lemma CapIsNeverReached(good: bool, score: real, deltas: seq<real>)
    requires OnSide(good, score) && Abs(score) < SCORE_CAP && Gentle(good, deltas)
    ensures Abs(ApplyAll(score, deltas)) < SCORE_CAP
  {
    MomentumClosedForm(good, score, deltas);
    RemainingIsPositive(good, deltas);
    Positive(Distance(score), Remaining(deltas));
  }

  /** In one outward move, to either side, the cap is reached exactly by a delta as large as the cap. */
  lemma CapReachedIff(good: bool, score: real, delta: real)
    requires OnSide(good, score) && Abs(score) < SCORE_CAP && OnSide(good, delta) && delta != 0.0
    ensures OnSide(good, Apply(score, delta))
    ensures Abs(Apply(score, delta)) == SCORE_CAP <==> Abs(delta) >= SCORE_CAP
  {
    var s, d := Abs(score), Abs(delta);
    GainReaches(s, d);
    if !good {
      assert Times(delta, 1.0 - s / SCORE_CAP) == -Times(d, 1.0 - s / SCORE_CAP);
    }
  }

  // ------------------------------------------------------------ moves back

  /** A move back toward the centre lands whole: the sum, held at the far cap once it has crossed. */
  lemma BackLandsWhole(score: real, delta: real)
    requires Abs(score) <= SCORE_CAP
    ensures score >= 0.0 && delta <= 0.0 ==> Apply(score, delta) == Max(score + delta, -SCORE_CAP)
    ensures score <= 0.0 && delta >= 0.0 ==> Apply(score, delta) == Min(score + delta, SCORE_CAP)
  {
  }

  /** Moves back that together do not cross the centre leave the score plus their total. */
  lemma {:induction false} MovesBackAddUp(good: bool, score: real, deltas: seq<real>)
    requires OnSide(good, score) && Abs(score) <= SCORE_CAP
    requires (forall d :: d in deltas ==> OnSide(!good, d)) && OnSide(good, score + Total(deltas))
    ensures ApplyAll(score, deltas) == score + Total(deltas)
    decreases |deltas|
  {
    if deltas != [] {
      assert deltas[0] in deltas && forall d :: d in deltas[1..] ==> d in deltas;
      TotalOnSide(!good, deltas[1..]);
      BackLandsWhole(score, deltas[0]);
      MovesBackAddUp(good, Apply(score, deltas[0]), deltas[1..]);
    }
  }

  lemma {:induction false} TotalOnSide(good: bool, deltas: seq<real>)
    requires forall d :: d in deltas ==> OnSide(good, d)
    ensures OnSide(good, Total(deltas))
  {
    if deltas != [] {
      assert deltas[0] in deltas && forall d :: d in deltas[1..] ==> d in deltas;
      TotalOnSide(good, deltas[1..]);
    }
  }

  /** And they may come in any order. */
  lemma MovesBackInAnyOrder(good: bool, score: real, deltas: seq<real>, shuffled: seq<real>)
    requires OnSide(good, score) && Abs(score) <= SCORE_CAP && multiset(shuffled) == multiset(deltas)
    requires (forall d :: d in deltas ==> OnSide(!good, d)) && OnSide(good, score + Total(deltas))
    ensures ApplyAll(score, shuffled) == score + Total(deltas)
  {
    forall d | d in shuffled
      ensures OnSide(!good, d)
    {
      assert d in multiset(shuffled) && d in deltas;
    }
    TotalOfShuffled(deltas, shuffled);
    MovesBackAddUp(good, score, shuffled);
  }

  lemma {:induction false} TotalOfConcat(a: seq<real>, b: seq<real>)
    ensures Total(a + b) == Total(a) + Total(b)
  {
    if a == [] {
      assert a + b == b;
    } else {
      assert (a + b)[1..] == a[1..] + b;
      TotalOfConcat(a[1..], b);
    }
  }

  lemma {:induction false} TotalOfShuffled(deltas: seq<real>, shuffled: seq<real>)
    requires multiset(shuffled) == multiset(deltas)
    ensures Total(shuffled) == Total(deltas)
    decreases |deltas|
  {
    if deltas == [] {
      assert |multiset(shuffled)| == 0;
    } else {
      var i := ShuffledHead(deltas, shuffled);
      var before, after := shuffled[..i], shuffled[i + 1..];
      TotalOfShuffled(deltas[1..], before + after);
      TotalOfConcat(before, after);
      TotalOfConcat(before, [shuffled[i]] + after);
      assert ([shuffled[i]] + after)[1..] == after;
    }
  }

  lemma GainReaches(s: real, d: real)
    requires 0.0 <= s < SCORE_CAP && d > 0.0
    ensures
      var gain := Times(d, 1.0 - s / SCORE_CAP);
      gain >= 0.0 && (s + gain >= SCORE_CAP <==> d >= SCORE_CAP)
  {
    GainWithinRoom(s, d);
    var left, f := SCORE_CAP - s, 1.0 - d / SCORE_CAP;
    if f > 0.0 {
      Positive(left, f);
    } else {
      NonNegative(left, -f);
      Negate(f, left);
    }
  }

  lemma {:induction false} RemainingOfBoth(a: seq<real>, b: seq<real>)
    ensures Remaining(a + b) == Times(Remaining(a), Remaining(b))
  {
    if a == [] {
      assert a + b == b;
    } else {
      assert (a + b)[1..] == a[1..] + b;
      RemainingOfBoth(a[1..], b);
      Associate(Factor(a[0]), Remaining(a[1..]), Remaining(b));
    }
  }

  lemma {:induction false} RemainingOfShuffled(deltas: seq<real>, shuffled: seq<real>)
    requires multiset(shuffled) == multiset(deltas)
    ensures Remaining(shuffled) == Remaining(deltas)
    decreases |deltas|
  {
    if deltas == [] {
      assert |multiset(shuffled)| == 0;
    } else {
      var i := ShuffledHead(deltas, shuffled);
      var before, after := shuffled[..i], shuffled[i + 1..];
      RemainingOfShuffled(deltas[1..], before + after);
      RemainingOfBoth(before, after);
      RemainingOfBoth(before, [shuffled[i]] + after);
      assert ([shuffled[i]] + after)[1..] == after;
      MiddleFirst(Remaining(before), Factor(shuffled[i]), Remaining(after));
    }
  }

  lemma MiddleFirst(a: real, b: real, c: real)
    ensures Times(a, Times(b, c)) == Times(b, Times(a, c))
  {
  }

  /** Deeds on one side leave the same score in whatever order they come. */
  lemma OrderDoesNotMatter(good: bool, score: real, deltas: seq<real>, shuffled: seq<real>)
    requires OnSide(good, score) && Abs(score) <= SCORE_CAP && Gentle(good, deltas)
    requires multiset(shuffled) == multiset(deltas)
    ensures ApplyAll(score, shuffled) == ApplyAll(score, deltas)
  {
    forall d | d in shuffled
      ensures OnSide(good, d) && Abs(d) < SCORE_CAP
    {
      assert d in multiset(shuffled) && d in deltas;
    }
    MomentumClosedForm(good, score, deltas);
    MomentumClosedForm(good, score, shuffled);
    RemainingOfShuffled(deltas, shuffled);
  }

  /** Whatever the deltas, the score stays within its range. */
  lemma {:induction false} ScoreStaysInRange(score: real, deltas: seq<real>)
    requires Abs(score) <= SCORE_CAP
    ensures Abs(ApplyAll(score, deltas)) <= SCORE_CAP
    decreases |deltas|
  {
    if deltas != [] {
      ScoreStaysInRange(Apply(score, deltas[0]), deltas[1..]);
    }
  }
}
