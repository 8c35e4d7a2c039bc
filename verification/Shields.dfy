/**
 Absorb shields: a hit is taken from the first shield that still holds anything,
 in place in the bearer's list of effects.
 */
module Shields {
  import opened Reals

  datatype Effect = Absorb(pool: real) | OtherEffect

  function Ceil(x: real): int {
    -((-x).Floor)
  }

  /** The whole points of damage a shield can still prevent. */
  function Points(e: Effect): (n: nat)
    ensures n > 0 <==> e.Absorb? && e.pool > 0.0
  {
    if e.Absorb? && e.pool > 0.0 then Ceil(e.pool) else 0
  }

  function TotalPoints(es: seq<Effect>): nat {
    if es == [] then 0 else Points(es[0]) + TotalPoints(es[1..])
  }

  /** The first shield with anything left, or `|es|`. */
  function FirstShield(es: seq<Effect>): (i: nat)
    ensures i <= |es|
    ensures i < |es| ==> Points(es[i]) > 0
    ensures forall j :: 0 <= j < i ==> Points(es[j]) == 0
  {
    if es == [] || Points(es[0]) > 0 then 0 else FirstShield(es[1..]) + 1
  }

  datatype Hit = Hit(effects: seq<Effect>, remaining: int, exhausted: bool)

  /** One hit: what is left of it, and the effects after it. */
  function Struck(es: seq<Effect>, incoming: int): Hit {
    var i := FirstShield(es);
    if incoming <= 0 || i == |es| then Hit(es, incoming, false)
    else
      var absorbed := Min(incoming as real, es[i].pool);
      Hit(es[i := Absorb(es[i].pool - absorbed)], (incoming as real - absorbed).Floor, es[i].pool == absorbed)
  }

  lemma {:induction false} TotalAfterUpdate(es: seq<Effect>, i: nat, e: Effect)
    requires i < |es|
    ensures TotalPoints(es[i := e]) == TotalPoints(es) - Points(es[i]) + Points(e)
  {
    if i == 0 {
      assert es[0 := e][1..] == es[1..];
    } else {
      assert es[i := e][1..] == es[1..][i - 1 := e];
      TotalAfterUpdate(es[1..], i - 1, e);
    }
  }

  lemma {:induction false} NoShieldNoPoints(es: seq<Effect>)
    ensures FirstShield(es) == |es| <==> TotalPoints(es) == 0
  {
    if es != [] {
      NoShieldNoPoints(es[1..]);
    }
  }

  /** Points and damage are conserved: every point a hit loses to a shield is a point the shields lose. */
  lemma HitConserves(es: seq<Effect>, incoming: int)
    ensures
      var h := Struck(es, incoming);
      && TotalPoints(h.effects) + (incoming - h.remaining) == TotalPoints(es)
      && h.remaining <= incoming && (incoming > 0 ==> h.remaining >= 0)
  {
    var i := FirstShield(es);
    if incoming > 0 && i < |es| {
      var p := es[i].pool;
      var absorbed := Min(incoming as real, p);
      TotalAfterUpdate(es, i, Absorb(p - absorbed));
      if absorbed < p {
        assert Ceil(p - absorbed) == Ceil(p) - incoming;
      } else {
        assert (incoming as real - p).Floor == incoming - Ceil(p);
      }
    }
  }

  /** A hit passes whole exactly when no shield holds anything. */
  lemma HitPassesIff(es: seq<Effect>, incoming: int)
    requires incoming > 0
    ensures Struck(es, incoming).remaining == incoming <==> TotalPoints(es) == 0
  {
    HitConserves(es, incoming);
    NoShieldNoPoints(es);
    var i := FirstShield(es);
    if i < |es| {
      TotalAfterUpdate(es, i, Struck(es, incoming).effects[i]);
    }
  }

  /**
   A hit takes from one shield, the first that holds anything, and leaves every other effect;
   it says a shield is spent exactly when one that held something now holds nothing.
   */
  lemma OneShieldTaken(es: seq<Effect>, incoming: int)
    ensures
      var h := Struck(es, incoming);
      && |h.effects| == |es|
      && (forall j :: 0 <= j < |es| && h.effects[j] != es[j] ==>
            Points(es[j]) > 0 && forall k :: 0 <= k < j ==> Points(es[k]) == 0)
      && (h.exhausted <==> exists j :: 0 <= j < |es| && Points(es[j]) > 0 && Points(h.effects[j]) == 0)
  {
    var i, h := FirstShield(es), Struck(es, incoming);
    if incoming > 0 && i < |es| {
      assert h.exhausted <==> Points(h.effects[i]) == 0;
    }
  }

  function AfterHits(es: seq<Effect>, hits: seq<int>): seq<Effect>
    decreases |hits|
  {
    if hits == [] then es else AfterHits(Struck(es, hits[0]).effects, hits[1..])
  }

  function Prevented(es: seq<Effect>, hits: seq<int>): int
    decreases |hits|
  {
    if hits == [] then 0
    else hits[0] - Struck(es, hits[0]).remaining + Prevented(Struck(es, hits[0]).effects, hits[1..])
  }

  /**
   Over any sequence of hits the shields prevent their pools rounded up and no
   more, less what they still hold at the end; exactly that once all are spent.
   */
  lemma {:induction false} ShieldsPreventTheirPools(es: seq<Effect>, hits: seq<int>)
    ensures Prevented(es, hits) == TotalPoints(es) - TotalPoints(AfterHits(es, hits))
    ensures 0 <= Prevented(es, hits) <= TotalPoints(es)
    decreases |hits|
  {
    if hits != [] {
      HitConserves(es, hits[0]);
      ShieldsPreventTheirPools(Struck(es, hits[0]).effects, hits[1..]);
    }
  }

  /** One shield of pool `p` and nothing else: at most `p` rounded up. */
  lemma OneShield(p: real, hits: seq<int>)
    requires p > 0.0
    ensures Prevented([Absorb(p)], hits) <= Ceil(p)
    ensures TotalPoints(AfterHits([Absorb(p)], hits)) == 0 ==> Prevented([Absorb(p)], hits) == Ceil(p)
  {
    ShieldsPreventTheirPools([Absorb(p)], hits);
    assert [Absorb(p)][1..] == [];
    assert TotalPoints([Absorb(p)]) == Ceil(p);
  }

  /** `consume_absorb`, over the bearer's effects in place. */
  method ConsumeAbsorb(effects: array<Effect>, incoming: int) returns (remaining: int, exhausted: bool)
    modifies effects
    ensures Struck(old(effects[..]), incoming) == Hit(effects[..], remaining, exhausted)
  {
    if incoming <= 0 {
      return incoming, false;
    }
    var i := 0;
    while i < effects.Length
      invariant 0 <= i <= effects.Length && effects[..] == old(effects[..])
      invariant forall j :: 0 <= j < i ==> Points(effects[j]) == 0
    {
      if effects[i].Absorb? && effects[i].pool > 0.0 {
        FirstShieldIs(effects[..], i);
        var absorbed := Min(incoming as real, effects[i].pool);
        effects[i] := Absorb(effects[i].pool - absorbed);
        var left := incoming as real - absorbed;
        return (if left > 0.0 then left else 0.0).Floor, effects[i].pool <= 0.0;
      }
      i := i + 1;
    }
    FirstShieldIs(effects[..], effects.Length);
    return incoming, false;
  }

  lemma FirstShieldIs(es: seq<Effect>, i: nat)
    requires i <= |es|
    requires i < |es| ==> Points(es[i]) > 0
    requires forall j :: 0 <= j < i ==> Points(es[j]) == 0
    ensures FirstShield(es) == i
  {
  }
}
