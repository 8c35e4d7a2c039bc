/**
 The four-tier wallet (`Coins`): copper, silver, gold and platinum at 100:1.

 A wallet is a mutable object; `Tiers()` is its abstract value, the four counts
 indexed copper to platinum. Counts are 64-bit, and where the source saturates
 the model saturates.
 */
module Coins {
  import opened Arithmetic

  const I64_MIN: int := -0x8000_0000_0000_0000
  const I64_MAX: int := 0x7FFF_FFFF_FFFF_FFFF
  const U32_LIMIT: int := 0x1_0000_0000

  type i64 = n: int | I64_MIN <= n <= I64_MAX
  type u32 = n: int | 0 <= n < U32_LIMIT

  const PLATINUM_VALUE: int := 1_000_000
  const GOLD_VALUE: int := 10_000
  const SILVER_VALUE: int := 100

  /** The copper value of one coin of a tier, 0 = copper to 3 = platinum. */
  function TierValue(tier: nat): (v: int)
    requires tier < 4
    ensures 1 <= v <= PLATINUM_VALUE
  {
    match tier
    case 0 => 1
    case 1 => SILVER_VALUE
    case 2 => GOLD_VALUE
    case _ => PLATINUM_VALUE
  }

  function Saturate(n: int): (r: i64) {
    if n < I64_MIN then I64_MIN else if n > I64_MAX then I64_MAX else n
  }

  function SatAdd(a: int, b: int): i64 {
    Saturate(a + b)
  }

  function SatSub(a: int, b: int): i64 {
    Saturate(a - b)
  }

  /** A purse as four counts, copper first. */
  type Purse = t: seq<i64> | |t| == 4 witness [0, 0, 0, 0]

  /** What the tiers below `n` are worth. */
  function Worth(t: seq<int>, n: nat): int
    requires n <= 4 == |t|
  {
    if n == 0 then 0 else Worth(t, n - 1) + t[n - 1] * TierValue(n - 1)
  }

  function Value(t: seq<int>): int
    requires |t| == 4
  {
    Worth(t, 4)
  }

  predicate NoNegative(t: seq<int>) {
    forall i :: 0 <= i < |t| ==> t[i] >= 0
  }

  /** Small enough that no sum or product over the tiers leaves 64 bits. */
  predicate Modest(t: seq<int>)
    requires |t| == 4
  {
    forall i :: 0 <= i < 4 ==> -0x1000_0000_0000_0000 <= t[i] * TierValue(i) <= 0x1000_0000_0000_0000
  }

  /** `total_copper`: saturating at every product and every sum. */
  function TotalCopper(t: Purse): i64 {
    Saturate(Saturate(Saturate(t[0] + Saturate(t[1] * SILVER_VALUE))
                      + Saturate(t[2] * GOLD_VALUE))
             + Saturate(t[3] * PLATINUM_VALUE))
  }

  lemma WorthUnfolds(t: seq<int>)
    requires |t| == 4
    ensures Worth(t, 1) == t[0]
    ensures Worth(t, 2) == t[0] + 100 * t[1]
    ensures Worth(t, 3) == t[0] + 100 * t[1] + 10_000 * t[2]
    ensures Value(t) == t[0] + 100 * t[1] + 10_000 * t[2] + 1_000_000 * t[3]
  {
    assert Worth(t, 2) == Worth(t, 1) + t[1] * 100;
    assert Worth(t, 3) == Worth(t, 2) + t[2] * 10_000;
    assert Worth(t, 4) == Worth(t, 3) + t[3] * 1_000_000;
  }

  /** The saturating total is the exact value, capped, on every purse with no negative tier. */
  lemma TotalCopperIsCappedValue(t: Purse)
    ensures NoNegative(t) ==> TotalCopper(t) == if Value(t) > I64_MAX then I64_MAX else Value(t)
    ensures Modest(t) ==> TotalCopper(t) == Value(t)
  {
    WorthUnfolds(t);
    if Modest(t) {
      assert t[0] * TierValue(0) == t[0];
      assert t[1] * TierValue(1) == t[1] * SILVER_VALUE;
      assert t[2] * TierValue(2) == t[2] * GOLD_VALUE;
      assert t[3] * TierValue(3) == t[3] * PLATINUM_VALUE;
    }
  }

  // ---------------------------------------------------------------- reduction

  /** `from_copper`: the fully reduced purse of an amount. */
  function FromCopper(amount: i64): (t: Purse)
    ensures NoNegative(t)
    ensures Value(t) == if amount < 0 then 0 else amount
    ensures t[0] < 100 && t[1] < 100 && t[2] < 100
  {
    var a := if amount < 0 then 0 else amount;
    var t := [a % PLATINUM_VALUE % GOLD_VALUE % SILVER_VALUE,
              a % PLATINUM_VALUE % GOLD_VALUE / SILVER_VALUE,
              a % PLATINUM_VALUE / GOLD_VALUE,
              a / PLATINUM_VALUE];
    WorthUnfolds(t);
    t
  }

  function CoinCount(t: seq<int>): int
    requires |t| == 4
  {
    t[0] + t[1] + t[2] + t[3]
  }

  /** How many coins one carry step saves: the quotient by 100 is never negative. */
  lemma CarryDown(low: int, high: int, r: int, q: int)
    requires low >= 0 && 0 <= r < 100
    requires low + 100 * high == r + 100 * q
    ensures high <= q && low - r == 100 * (q - high)
  {
  }

  /** No purse without a negative tier holds the same value in fewer coins. */
  lemma FromCopperIsFewest(t: Purse, amount: i64)
    requires NoNegative(t) && Value(t) == amount
    ensures CoinCount(FromCopper(amount)) <= CoinCount(t)
    ensures CoinCount(FromCopper(amount)) == CoinCount(t) ==> t == FromCopper(amount)
  {
    var c := FromCopper(amount);
    WorthUnfolds(t);
    WorthUnfolds(c);
    ReducedIsFewest(t[0], t[1], t[2], t[3], c[0], c[1], c[2], c[3]);
  }

  /** Carrying copper into silver, silver into gold and gold into platinum only sheds coins. */
  lemma ReducedIsFewest(t0: int, t1: int, t2: int, t3: int, c0: int, c1: int, c2: int, c3: int)
    requires t0 >= 0 && t1 >= 0 && t2 >= 0 && t3 >= 0
    requires 0 <= c0 < 100 && 0 <= c1 < 100 && 0 <= c2 < 100
    requires t0 + 100 * t1 + 10_000 * t2 + 1_000_000 * t3 == c0 + 100 * c1 + 10_000 * c2 + 1_000_000 * c3
    ensures c0 + c1 + c2 + c3 <= t0 + t1 + t2 + t3
    ensures c0 + c1 + c2 + c3 == t0 + t1 + t2 + t3 ==> t0 == c0 && t1 == c1 && t2 == c2 && t3 == c3
  {
    var a := c1 + 100 * c2 + 10_000 * c3 - (t1 + 100 * t2 + 10_000 * t3);
    CarryDown(t0, t1 + 100 * t2 + 10_000 * t3, c0, c1 + 100 * c2 + 10_000 * c3);
    var b := c2 + 100 * c3 - (t2 + 100 * t3);
    CarryDown(t1 + a, t2 + 100 * t3, c1, c2 + 100 * c3);
    CarryDown(t2 + b, t3, c2, c3);
  }

  // ------------------------------------------------------------------- paying

  /** The lowest tier whose coins, with every tier below it, cover the cost. */
  predicate SettlesAt(t: seq<int>, cost: int, k: nat)
    requires |t| == 4
  {
    && k < 4
    && cost <= Worth(t, k + 1)
    && (forall j :: 1 <= j <= k ==> Worth(t, j) < cost)
  }

  /** Coins of tier value `v` needed to reach `need`, the last one perhaps broken. */
  function CoinsFor(need: int, v: int): (n: int)
    requires v > 0
    ensures need <= n * v < need + v
  {
    (need + v - 1) / v
  }

  /**
   What a purse looks like after a payment: settled at tier `k`, nothing above
   touched, exactly the coins of tier `k` the shortfall needs taken, and the
   change of the one broken coin scattered below in its reduced form.
   */
  predicate Settled(before: seq<int>, after: seq<int>, cost: int, k: nat)
    requires |before| == |after| == 4
  {
    && SettlesAt(before, cost, k)
    && (forall j :: k < j < 4 ==> after[j] == before[j])
    && after[k] == before[k] - CoinsFor(cost - Worth(before, k), TierValue(k))
    && (forall j :: 0 <= j < k ==> 0 <= after[j] < 100)
    && Value(after) == Value(before) - cost
  }

  /** An affordable cost is covered at some tier: no fallback is ever needed. */
  lemma SomeTierSettles(t: seq<int>, cost: int)
    requires |t| == 4 && cost <= Value(t)
    ensures exists k: nat :: SettlesAt(t, cost, k)
  {
    if cost <= Worth(t, 1) { assert SettlesAt(t, cost, 0); }
    else if cost <= Worth(t, 2) { assert SettlesAt(t, cost, 1); }
    else if cost <= Worth(t, 3) { assert SettlesAt(t, cost, 2); }
    else { assert SettlesAt(t, cost, 3); }
  }

  /** Any number of coins worth at least `need` is at least `CoinsFor(need, v)`. */
  lemma CoinsForIsLeast(need: int, v: int, m: int)
    requires v > 0 && need <= m * v
    ensures CoinsFor(need, v) <= m
  {
    var n := CoinsFor(need, v);
    if m <= n - 1 {
      MulMono(m, n - 1, v);
    }
  }

  /** Raising every count of a purse from zero never makes its worth negative. */
  lemma WorthNonNegative(t: seq<int>, n: nat)
    requires n <= 4 == |t|
    requires forall j :: 0 <= j < n ==> t[j] >= 0
    ensures Worth(t, n) >= 0
  {
    if n > 0 {
      WorthNonNegative(t, n - 1);
      assert t[n - 1] * TierValue(n - 1) >= 0;
    }
  }

  lemma WorthAgrees(a: seq<int>, b: seq<int>, n: nat)
    requires n <= 4 == |a| == |b|
    requires forall j :: n <= j < 4 ==> a[j] == b[j]
    ensures Value(a) - Worth(a, n) == Value(b) - Worth(b, n)
  {
    WorthUnfolds(a);
    WorthUnfolds(b);
  }

  /** `Settled` leaves no freedom: the result of a payment is determined by purse and cost. */
  lemma SettledIsDetermined(t: seq<int>, a: seq<int>, b: seq<int>, cost: int, k: nat, m: nat)
    requires |t| == |a| == |b| == 4
    requires Settled(t, a, cost, k) && Settled(t, b, cost, m)
    ensures k == m && a == b
  {
    WorthUnfolds(a);
    WorthUnfolds(b);
    assert forall j :: k <= j < 4 ==> a[j] == b[j];
    WorthAgrees(a, b, k);
    ReducedIsUnique(a, b, k);
    assert forall j :: 0 <= j < 4 ==> a[j] == b[j];
  }

  lemma ReducedIsUnique(a: seq<int>, b: seq<int>, k: nat)
    requires |a| == |b| == 4 && k < 4 && Worth(a, k) == Worth(b, k)
    requires forall j :: 0 <= j < k ==> 0 <= a[j] < 100 && 0 <= b[j] < 100
    ensures forall j :: 0 <= j < k ==> a[j] == b[j]
  {
    WorthUnfolds(a);
    WorthUnfolds(b);
    if k >= 1 { assert 0 <= a[0] < 100 && 0 <= b[0] < 100; }
    if k >= 2 { assert 0 <= a[1] < 100 && 0 <= b[1] < 100; }
    if k >= 3 { assert 0 <= a[2] < 100 && 0 <= b[2] < 100; }
  }

  /**
   A payment disturbs as little as it can. Take any other honest outcome `r` of
   the same payment (no negative tier, the same value left) that leaves every
   tier above `top` alone. Then `top` is at least the tier `spend` settles at,
   and if it is that tier, `r` keeps no more of its coins than `spend` does.
   */
  lemma SettledDisturbsLeast(before: seq<int>, after: seq<int>, r: seq<int>, cost: int, k: nat, top: nat)
    requires |before| == |after| == |r| == 4 && NoNegative(before) && NoNegative(r)
    requires Settled(before, after, cost, k)
    requires Value(r) == Value(before) - cost && top < 4
    requires forall j :: top < j < 4 ==> r[j] == before[j]
    ensures k <= top
    ensures top == k ==> r[k] <= after[k]
  {
    WorthAgrees(r, before, top + 1);
    WorthNonNegative(r, top + 1);
    assert Worth(r, top + 1) == Worth(before, top + 1) - cost;
    if top == k {
      WorthNonNegative(r, k);
      var v := TierValue(k);
      DiffTimes(before[k], r[k], v);
      CoinsForIsLeast(cost - Worth(before, k), v, before[k] - r[k]);
    }
  }

  /** No tier of the result is negative when none was before. */
  lemma SettledStaysNonNegative(before: seq<int>, after: seq<int>, cost: int, k: nat)
    requires |before| == |after| == 4 && NoNegative(before) && Settled(before, after, cost, k)
    ensures NoNegative(after)
  {
    CoinsForIsLeast(cost - Worth(before, k), TierValue(k), before[k]);
  }

  lemma {:induction false} WorthUpdate(t: seq<int>, j: nat, x: int, n: nat)
    requires j < n <= 4 == |t|
    ensures Worth(t[j := x], n) == Worth(t, n) + (x - t[j]) * TierValue(j)
  {
    if j == n - 1 {
      WorthSame(t, t[j := x], j);
      DiffTimes(x, t[j], TierValue(j));
    } else {
      WorthUpdate(t, j, x, n - 1);
    }
  }

  lemma {:induction false} WorthSame(a: seq<int>, b: seq<int>, n: nat)
    requires n <= 4 == |a| == |b|
    requires forall j :: 0 <= j < n ==> a[j] == b[j]
    ensures Worth(a, n) == Worth(b, n)
  {
    if n > 0 {
      WorthSame(a, b, n - 1);
    }
  }

  // ----------------------------------------------------------------- exchange

  datatype ExchangeError = SameTier | InvalidTier | ZeroQuantity | NotEnough | TooLittle

  datatype ExchangeResult = Exchanged(made: int) | Refused(error: ExchangeError)

  /** What an exchange answers: the refusals in the order the banker checks them. */
  function ExchangeOutcome(t: Purse, from: nat, to: nat, qty: u32): ExchangeResult {
    if from == to then Refused(SameTier)
    else if from > 3 || to > 3 then Refused(InvalidTier)
    else if qty == 0 then Refused(ZeroQuantity)
    else if t[from] < qty then Refused(NotEnough)
    else
      var made := qty * TierValue(from) / TierValue(to);
      if made == 0 then Refused(TooLittle) else Exchanged(made)
  }

  /** A purse after an exchange: `made` coins of `to` for their worth in coins of `from`. */
  predicate ExchangedInto(t: Purse, r: Purse, from: nat, to: nat, made: int)
    requires from < 4 && to < 4 && from != to
  {
    && (forall j :: 0 <= j < 4 && j != from && j != to ==> r[j] == t[j])
    && r[to] == Saturate(t[to] + made)
    && (t[from] - r[from]) * TierValue(from) == made * TierValue(to)
  }

  /** The exchange preserves the value of the purse unless the target stack is full. */
  lemma ExchangeKeepsValue(t: Purse, r: Purse, from: nat, to: nat, made: nat)
    requires from < 4 && to < 4 && from != to && ExchangedInto(t, r, from, to, made)
    ensures Value(r) == Value(t) <==> t[to] + made <= I64_MAX
  {
    var mid: seq<int> := t[from := r[from]];
    WorthUpdate(t, from, r[from], 4);
    WorthUpdate(mid, to, r[to], 4);
    assert r == mid[to := r[to]];
    var f, v := TierValue(from), TierValue(to);
    var added: int := (r[to] as int) - t[to];
    DiffTimes(t[from], r[from], f);
    DiffTimes(r[from], t[from], f);
    assert Value(r) == Value(t) - made * v + added * v;
    if t[to] + made > I64_MAX {
      MulMono(added + 1, made, v);
      assert (added + 1) * v == added * v + v;
    }
  }

  /** An exchange always gives back a reduced multiple: no value is lost to rounding. */
  lemma ExchangeDivides(from: nat, to: nat, qty: u32)
    requires from < 4 && to < 4 && from != to && qty > 0
    ensures
      var value := qty * TierValue(from);
      var kept := value % TierValue(to) / TierValue(from);
      0 <= kept <= qty && (qty - kept) * TierValue(from) == value / TierValue(to) * TierValue(to)
  {
    var f, v := TierValue(from), TierValue(to);
    var value := qty * f;
    if from < to {
      var ratio := if to - from == 1 then 100 else if to - from == 2 then 10_000 else 1_000_000;
      assert v == ratio * f;
      RatioDivision(qty, f, ratio);
    } else {
      var ratio := if from - to == 1 then 100 else if from - to == 2 then 10_000 else 1_000_000;
      assert f == ratio * v;
      assert value == (qty * ratio) * v;
      MultipleDivides(qty * ratio, v);
    }
  }

  lemma RatioDivision(qty: nat, f: int, ratio: int)
    requires f > 0 && ratio > 0
    ensures qty * f / (ratio * f) == qty / ratio
    ensures qty * f % (ratio * f) / f == qty % ratio
    ensures (qty - qty % ratio) * f == qty / ratio * (ratio * f)
  {
    var q, r := qty / ratio, qty % ratio;
    assert qty == q * ratio + r;
    assert qty * f == q * (ratio * f) + r * f by {
      assert (q * ratio + r) * f == q * ratio * f + r * f;
      assert q * ratio * f == q * (ratio * f);
    }
    MulMono(0, r, f);
    MulMono(r + 1, ratio, f);
    assert (r + 1) * f == r * f + f;
    DivisionUnique(qty * f, ratio * f, q, r * f);
    MultipleDivides(r, f);
    assert qty - r == q * ratio;
    assert q * ratio * f == q * (ratio * f);
  }

  /** An exchange takes whole coins of the source stack, and their worth divides back exactly. */
  lemma ExchangeTakesWhole(t: Purse, r: Purse, from: nat, to: nat, qty: u32, made: nat)
    requires from < 4 && to < 4 && from != to
    requires ExchangeOutcome(t, from, to, qty) == Exchanged(made) && ExchangedInto(t, r, from, to, made)
    ensures made * TierValue(to) / TierValue(from) == t[from] - r[from] > 0
  {
    var f, v := TierValue(from), TierValue(to);
    var used: int := (t[from] as int) - r[from];
    MultipleDivides(used, f);
    MulMono(1, made, v);
    if used <= 0 { MulMono(used, 0, f); }
  }

  /** What the way back gives: the coins taken, when the target stack held no debt; a refusal when it did. */
  lemma ExchangeBackOutcome(t: Purse, r: Purse, from: nat, to: nat, qty: u32, made: nat)
    requires from < 4 && to < 4 && from != to && made < U32_LIMIT
    requires ExchangeOutcome(t, from, to, qty) == Exchanged(made) && ExchangedInto(t, r, from, to, made)
    ensures t[from] - r[from] > 0
    ensures ExchangeOutcome(r, to, from, made) == if t[to] >= 0 then Exchanged(t[from] - r[from])
      else Refused(NotEnough)
  {
    ExchangeTakesWhole(t, r, from, to, qty, made);
  }

  /**
   The banker takes an exchange exactly when it is between two of the four tiers, for coins
   that are held and are worth at least one of the other; and makes as many as they are worth.
   */
  lemma ExchangeAcceptedIff(t: Purse, from: nat, to: nat, qty: u32)
    ensures ExchangeOutcome(t, from, to, qty).Exchanged? <==>
      from != to && from < 4 && to < 4 && 0 < qty <= t[from] && TierValue(to) <= qty * TierValue(from)
    ensures ExchangeOutcome(t, from, to, qty).Exchanged? ==>
      var made := ExchangeOutcome(t, from, to, qty).made;
      made * TierValue(to) <= qty * TierValue(from) < made * TierValue(to) + TierValue(to)
  {
    if from < 4 && to < 4 {
      DividesDown(qty * TierValue(from), TierValue(to));
    }
  }

  lemma DividesDown(a: nat, v: int)
    requires v > 0
    ensures a / v * v <= a < a / v * v + v
    ensures a / v == 0 <==> a < v
  {
  }

  /** What it refuses it refuses for the first reason there is: tier, quantity, coins, worth. */
  lemma ExchangeRefusal(t: Purse, from: nat, to: nat, qty: u32)
    ensures ExchangeOutcome(t, from, to, qty) == Refused(SameTier) <==> from == to
    ensures ExchangeOutcome(t, from, to, qty) == Refused(InvalidTier) <==> from != to && (from >= 4 || to >= 4)
    ensures ExchangeOutcome(t, from, to, qty) == Refused(ZeroQuantity) <==>
      from != to && from < 4 && to < 4 && qty == 0
    ensures ExchangeOutcome(t, from, to, qty) == Refused(NotEnough) <==>
      from != to && from < 4 && to < 4 && qty > 0 && t[from] < qty
  {
  }

  /**
   Exchanging the produced coins straight back, when they fit a request: it restores the
   purse, whatever it gives back exactly, if and only if the target stack held no debt
   before and had room for the coins.
   */
  lemma ExchangeBackRestores(t: Purse, r: Purse, from: nat, to: nat, qty: u32, made: nat)
    requires from < 4 && to < 4 && from != to && made < U32_LIMIT
    requires ExchangeOutcome(t, from, to, qty) == Exchanged(made) && ExchangedInto(t, r, from, to, made)
    ensures Restores(t, r, from, to, made) <==> t[to] >= 0 && t[to] + made <= I64_MAX
  {
    ExchangeBackOutcome(t, r, from, to, qty, made);
    var m: int := (t[from] as int) - r[from];
    var v := TierValue(to);
    if t[to] >= 0 {
      forall back: Purse | ExchangedInto(r, back, to, from, m)
        ensures back[to] == r[to] - made && back[from] == t[from]
      {
        var d: int := (r[to] as int) - back[to];
        assert d * v == m * TierValue(from) == made * v;
        Cancel(d, made, v);
      }
      var back: Purse := r[to := r[to] - made][from := t[from]];
      assert ExchangedInto(r, back, to, from, m);
    }
  }

  /** The way back is answered, and any purse it may give is the purse there was. */
  ghost predicate Restores(t: Purse, r: Purse, from: nat, to: nat, made: u32)
    requires from < 4 && to < 4 && from != to
  {
    var outcome := ExchangeOutcome(r, to, from, made);
    outcome.Exchanged? && forall back: Purse :: ExchangedInto(r, back, to, from, outcome.made) ==> back == t
  }

  /** Without either condition the way back is refused: a stack in debt, or more coins than a request carries. */
  lemma ExchangeBackCanBeRefused()
    ensures
      var t: Purse, r: Purse := [100, -1, 0, 0], [0, 0, 0, 0];
      && ExchangeOutcome(t, 0, 1, 100) == Exchanged(1) && ExchangedInto(t, r, 0, 1, 1)
      && ExchangeOutcome(r, 1, 0, 1) == Refused(NotEnough)
    ensures
      var t: Purse := [0, 0, 0, 5000];
      ExchangeOutcome(t, 3, 0, 5000) == Exchanged(5_000_000_000) && 5_000_000_000 > U32_LIMIT
  {
    var t: Purse, r: Purse := [100, -1, 0, 0], [0, 0, 0, 0];
    assert forall j :: 0 <= j < 4 && j != 0 && j != 1 ==> r[j] == t[j];
  }

  // ------------------------------------------------------- deposits and payouts

  /** `add_each`: the per-tier saturating sum. */
  function AddEach(a: Purse, b: Purse): Purse {
    var r: seq<i64> := [SatAdd(a[0], b[0]), SatAdd(a[1], b[1]), SatAdd(a[2], b[2]), SatAdd(a[3], b[3])];
    r
  }

  /** `sub_each`: the per-tier saturating difference. */
  function SubEach(a: Purse, b: Purse): Purse {
    var r: seq<i64> := [SatSub(a[0], b[0]), SatSub(a[1], b[1]), SatSub(a[2], b[2]), SatSub(a[3], b[3])];
    r
  }

  predicate HasAtLeast(a: Purse, b: Purse) {
    forall i :: 0 <= i < 4 ==> a[i] >= b[i]
  }

  /** A deposit credits exactly its value if and only if no stack it lands on is too full to hold it. */
  lemma AddEachValue(a: Purse, b: Purse)
    requires NoNegative(b)
    ensures Value(AddEach(a, b)) == Value(a) + Value(b) <==> forall i :: 0 <= i < 4 ==> a[i] + b[i] <= I64_MAX
  {
    WorthUnfolds(a);
    WorthUnfolds(b);
    WorthUnfolds(AddEach(a, b));
    assert a[0] + b[0] <= I64_MAX && a[1] + b[1] <= I64_MAX && a[2] + b[2] <= I64_MAX && a[3] + b[3] <= I64_MAX
      <==> forall i :: 0 <= i < 4 ==> a[i] + b[i] <= I64_MAX;
  }

  /** Taking out what a purse holds and putting it back restores it, tier by tier. */
  lemma WithdrawDeposit(a: Purse, b: Purse)
    requires NoNegative(b) && NoNegative(a) && HasAtLeast(a, b)
    ensures NoNegative(SubEach(a, b)) && Value(SubEach(a, b)) == Value(a) - Value(b)
    ensures AddEach(SubEach(a, b), b) == a
  {
    var r := SubEach(a, b);
    WorthUnfolds(a);
    WorthUnfolds(b);
    WorthUnfolds(r);
    assert a[0] >= b[0] && a[1] >= b[1] && a[2] >= b[2] && a[3] >= b[3];
    assert b[0] >= 0 && b[1] >= 0 && b[2] >= 0 && b[3] >= 0;
    assert AddEach(r, b) == a;
  }

  // ------------------------------------------------------------ the greedy loop

  /** The exact value covers the cost, and nothing the tiers leave owed on the way leaves 64 bits. */
  predicate InRange(t: seq<int>, cost: int)
    requires |t| == 4
  {
    cost <= Value(t) && forall n :: 0 <= n <= 4 ==> cost - Worth(t, n) <= I64_MAX
  }

  /** Every affordable cost is in range for a purse with no negative tier, and for any modest purse. */
  lemma AffordableIsInRange(t: Purse, cost: i64)
    requires (NoNegative(t) || Modest(t)) && 0 <= cost <= TotalCopper(t)
    ensures InRange(t, cost)
  {
    TotalCopperIsCappedValue(t);
    forall n | 0 <= n <= 4
      ensures cost - Worth(t, n) <= I64_MAX
    {
      if NoNegative(t) {
        WorthNonNegative(t, n);
      } else {
        WorthUnfolds(t);
        assert forall i :: 0 <= i < 4 ==> -0x1000_0000_0000_0000 <= t[i] * TierValue(i);
        assert t[0] * TierValue(0) == t[0] && t[1] * TierValue(1) == 100 * t[1];
        assert t[2] * TierValue(2) == 10_000 * t[2] && t[3] * TierValue(3) == 1_000_000 * t[3];
      }
    }
  }

  lemma CoinsForExactly(need: int, v: int, n: int)
    requires v > 0 && need <= n * v < need + v
    ensures CoinsFor(need, v) == n
  {
    DivisionUnique(need + v - 1, v, n, need + v - 1 - n * v);
  }

  /** Scatters the change of a broken coin down the tiers below it, largest first. */
  method Scatter(counts: array<i64>, tier: nat, amount: i64)
    requires counts.Length == 4 && tier < 4 && 0 <= amount < TierValue(tier)
    requires forall j :: 0 <= j < tier ==> counts[j] == 0
    modifies counts
    ensures forall j :: tier <= j < 4 ==> counts[j] == old(counts[j])
    ensures forall j :: 0 <= j < tier ==> 0 <= counts[j] < 100
    ensures Worth(counts[..], tier) == amount
  {
    var change: i64 := amount;
    var j := tier;
    WorthNothing(counts[..], tier);
    while j > 0
      invariant 0 <= j <= tier
      invariant 0 <= change < TierValue(j)
      invariant forall m :: tier <= m < 4 ==> counts[m] == old(counts[m])
      invariant forall m :: 0 <= m < j ==> counts[m] == 0
      invariant forall m :: j <= m < tier ==> 0 <= counts[m] < 100
      invariant Worth(counts[..], tier) + change == amount
    {
      j := j - 1;
      ghost var was := counts[..];
      var v := TierValue(j);
      var q := change / v;
      QuotientBelow(change, v, 100);
      counts[j] := counts[j] + q;
      change := change % v;
      WorthUpdate(was, j, q, tier);
      assert counts[..] == was[j := q];
    }
  }

  lemma QuotientBelow(a: int, v: int, bound: int)
    requires v > 0 && 0 <= a < bound * v
    ensures 0 <= a / v < bound
  {
    if a / v >= bound {
      MulMono(bound, a / v, v);
    }
  }

  lemma {:induction false} WorthNothing(t: seq<int>, n: nat)
    requires n <= 4 == |t|
    requires forall j :: 0 <= j < n ==> t[j] == 0
    ensures Worth(t, n) == 0
  {
    if n > 0 {
      WorthNothing(t, n - 1);
    }
  }

  /** The whole coins worth taking from a stack of `held` toward `need`. */
  function WholeCoins(need: int, v: int, held: int): int
    requires v > 0
  {
    if need / v < held then need / v else held
  }

  /** Taking whole coins either empties the stack or leaves less than one coin owed. */
  lemma TakeWhole(need: int, v: int, held: int)
    requires v > 0 && need > 0
    ensures
      var whole := WholeCoins(need, v, held);
      var left := need - whole * v;
      && left >= 0
      && (left == 0 || (left < v && whole < held) || whole == held)
      && (whole < held ==> 0 <= whole && left < v && need <= held * v)
  {
    var q := need / v;
    var whole := WholeCoins(need, v, held);
    MulMono(whole, q, v);
    assert need == q * v + need % v;
    if whole < held {
      MulMono(q + 1, held, v);
      assert (q + 1) * v == q * v + v;
    }
  }

  /** Tier `i` has settled what was owed when it was reached, taking `n` of its coins. */
  predicate PaidAt(before: seq<int>, after: seq<int>, i: nat, owed: int, n: int)
    requires |before| == |after| == 4 && i < 4
  {
    && after[i] == before[i] - n
    && (forall j :: i < j < 4 ==> after[j] == before[j])
    && (forall j :: 0 <= j < i ==> 0 <= after[j] < 100)
    && owed <= n * TierValue(i) < owed + TierValue(i)
    && Worth(after, i) == n * TierValue(i) - owed
  }

  /** One round of the greedy loop: pay what tier `i` can, breaking one of its coins at most. */
  method SpendTier(counts: array<i64>, i: nat, owed: i64) returns (remaining: i64, ghost n: int)
    requires counts.Length == 4 && i < 4
    requires owed > 0 && owed - counts[i] * TierValue(i) <= I64_MAX
    requires forall j :: 0 <= j < i ==> counts[j] == 0
    modifies counts
    ensures remaining >= 0
    ensures remaining == 0 ==> PaidAt(old(counts[..]), counts[..], i, owed, n)
    ensures remaining == 0 ==> owed <= old(counts[i]) * TierValue(i)
    ensures remaining > 0 ==> remaining == owed - old(counts[i]) * TierValue(i) && counts[..] == old(counts[..])[i := 0]
  {
    var v := TierValue(i);
    TakeWhole(owed, v, counts[i]);
    var whole: i64 := WholeCoins(owed, v, counts[i]);
    n := whole;
    counts[i] := counts[i] - whole;
    remaining := owed - whole * v;
    if 0 < remaining < v && counts[i] > 0 {
      n := n + 1;
      assert n * v == whole * v + v;
      counts[i] := counts[i] - 1;
      var change: i64 := v - remaining;
      remaining := 0;
      Scatter(counts, i, change);
    } else {
      WorthNothing(counts[..], i);
    }
  }

  /** The value left once tier `i` has given `n` coins and the tiers below hold their change. */
  lemma ValueAfter(t: seq<int>, after: seq<int>, i: nat, n: int, change: int)
    requires |t| == |after| == 4 && i < 4 && after[i] == t[i] - n
    requires forall j :: i < j < 4 ==> after[j] == t[j]
    requires Worth(after, i) == change
    ensures Value(after) == Value(t) - Worth(t, i) + change - n * TierValue(i)
  {
    DiffTimes(t[i], n, TierValue(i));
    WorthAgrees(t, after, i + 1);
    assert Worth(t, i + 1) == Worth(t, i) + t[i] * TierValue(i);
    assert Worth(after, i + 1) == Worth(after, i) + after[i] * TierValue(i);
  }

  /** A round that leaves nothing owed settles the payment. */
  lemma PaidIsSettled(t: Purse, before: seq<int>, after: seq<int>, cost: int, i: nat, n: int)
    requires |before| == |after| == 4 && i < 4
    requires StillOwed(t, before, cost, i) && cost > Worth(t, i) && cost <= Worth(t, i + 1)
    requires PaidAt(before, after, i, cost - Worth(t, i), n)
    ensures Settled(t, after, cost, i)
  {
    var owed := cost - Worth(t, i);
    ValueAfter(t, after, i, n, n * TierValue(i) - owed);
    CoinsForExactly(owed, TierValue(i), n);
  }

  /**
   The loop over the tiers. It never runs out of tiers with something still owed,
   so the fallback that would re-mint the whole purse is unreachable.
   */
  method GreedyLoop(counts: array<i64>, cost: i64) returns (ghost k: nat)
    requires counts.Length == 4
    requires 0 <= cost && InRange(counts[..], cost)
    modifies counts
    ensures cost == 0 ==> counts[..] == old(counts[..])
    ensures cost > 0 ==> Settled(old(counts[..]), counts[..], cost, k)
  {
    ghost var t: Purse := counts[..];
    var remaining: i64 := cost;
    k := 0;
    var i := 0;
    while i < 4
      invariant 0 <= i <= 4
      invariant remaining > 0 ==> StillOwed(t, counts[..], cost, i) && remaining == cost - Worth(t, i)
      invariant remaining >= 0 && (cost == 0 ==> remaining == 0)
      invariant remaining == 0 ==> if cost == 0 then counts[..] == t else Settled(t, counts[..], cost, k)
    {
      if remaining == 0 {
        break;
      }
      ghost var was, n := counts[..], 0;
      assert cost - Worth(t, i + 1) <= I64_MAX;
      remaining, n := SpendTier(counts, i, remaining);
      if remaining == 0 {
        PaidIsSettled(t, was, counts[..], cost, i, n);
        k := i;
      }
      i := i + 1;
    }
    assert remaining == 0;
  }

  /** Mid-loop: the tiers below `i` are spent and do not cover the cost; the rest are untouched. */
  predicate StillOwed(t: seq<int>, counts: seq<int>, cost: int, i: nat)
    requires |t| == |counts| == 4 && i <= 4
  {
    && (forall j :: 1 <= j <= i ==> Worth(t, j) < cost)
    && (forall j :: 0 <= j < i ==> counts[j] == 0)
    && (forall j :: i <= j < 4 ==> counts[j] == t[j])
  }

  // ---------------------------------------------------------------- the wallet

  class Wallet {
    var platinum: i64
    var gold: i64
    var silver: i64
    var copper: i64

    function Tiers(): Purse
      reads this
    {
      var t: seq<i64> := [copper, silver, gold, platinum];
      t
    }

    /**
     `spend`. Every assignment below is to a 64-bit variable, so the proof also
     shows no step of the greedy loop overflows.
     */
    method Spend(cost: i64) returns (ok: bool)
      requires 0 <= cost <= TotalCopper(Tiers()) ==> NoNegative(Tiers()) || InRange(Tiers(), cost)
      modifies this
      ensures ok == (0 <= cost <= TotalCopper(old(Tiers())))
      ensures !ok || cost == 0 ==> Tiers() == old(Tiers())
      ensures ok && cost > 0 ==> exists k: nat :: Settled(old(Tiers()), Tiers(), cost, k)
    {
      ghost var t := Tiers();
      if cost < 0 || TotalCopper(Tiers()) < cost {
        return false;
      }
      var counts := new i64[4];
      counts[0], counts[1], counts[2], counts[3] := copper, silver, gold, platinum;
      assert counts[..] == t;
      if NoNegative(t) {
        AffordableIsInRange(t, cost);
      }
      ghost var k := GreedyLoop(counts, cost);
      copper, silver, gold, platinum := counts[0], counts[1], counts[2], counts[3];
      assert Tiers() == counts[..];
      return true;
    }

    /**
     `pay_value_of`: pays what the wanted coins are worth, in whatever tiers it
     takes, and refuses a request with a negative tier.
     */
    method PayValueOf(want: Purse) returns (ok: bool)
      requires TotalCopper(want) <= TotalCopper(Tiers()) ==> NoNegative(Tiers()) || InRange(Tiers(), TotalCopper(want))
      modifies this
      ensures ok == (NoNegative(want) && TotalCopper(want) <= TotalCopper(old(Tiers())))
      ensures !ok ==> Tiers() == old(Tiers())
      ensures ok && TotalCopper(want) == 0 ==> Tiers() == old(Tiers())
      ensures ok && TotalCopper(want) > 0 ==> exists k: nat :: Settled(old(Tiers()), Tiers(), TotalCopper(want), k)
    {
      TotalCopperIsCappedValue(want);
      if !NoNegative(want) {
        return false;
      }
      WorthNonNegative(want, 4);
      ok := Spend(TotalCopper(want));
    }

    method AdjustTier(tier: nat, delta: int)
      requires tier < 4
      modifies this
      ensures Tiers() == old(Tiers())[tier := Saturate(old(Tiers())[tier] + delta)]
    {
      match tier
      case 0 => copper := SatAdd(copper, delta);
      case 1 => silver := SatAdd(silver, delta);
      case 2 => gold := SatAdd(gold, delta);
      case _ => platinum := SatAdd(platinum, delta);
    }

    /** `exchange`: the banker converts up to `qty` coins of one tier into another. */
    method Exchange(from: nat, to: nat, qty: u32) returns (outcome: ExchangeResult)
      modifies this
      ensures outcome == ExchangeOutcome(old(Tiers()), from, to, qty)
      ensures outcome.Refused? ==> Tiers() == old(Tiers())
      ensures outcome.Exchanged? ==> ExchangedInto(old(Tiers()), Tiers(), from, to, outcome.made)
    {
      outcome := ExchangeOutcome(Tiers(), from, to, qty);
      if outcome.Refused? {
        return;
      }
      var value := qty * TierValue(from);
      var consumed := qty - value % TierValue(to) / TierValue(from);
      ExchangeDivides(from, to, qty);
      ghost var t := Tiers();
      AdjustTier(from, -consumed);
      AdjustTier(to, outcome.made);
      assert t[from] - Tiers()[from] == consumed;
    }

    /** `add_payout`: a payout, reduced, on top of the stacks already held. */
    method AddPayout(amount: i64)
      modifies this
      ensures Tiers() == AddEach(old(Tiers()), FromCopper(amount))
    {
      var p := FromCopper(amount);
      platinum := SatAdd(platinum, p[3]);
      gold := SatAdd(gold, p[2]);
      silver := SatAdd(silver, p[1]);
      copper := SatAdd(copper, p[0]);
    }
  }
}
