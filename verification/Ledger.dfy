/**
 The item ledger: one row for every movement of items or coin, and the fold that
 compacts the rows before a cutoff into carry rows without changing the books.

 A table is the sequence of its rows. Grouping yields its groups in no particular
 order, so a fold is given the order (`keys`) and every result holds for all orders.
 */
module Ledger {
  import opened Options
  import opened Sequences

  type CharId = nat

  /** What rows are grouped by. Coin rows have no item, and group together. */
  datatype Key = Key(charId: CharId, item: Option<string>)

  datatype EventRow = EventRow(
    at: int, charId: CharId, action: string, item: Option<string>,
    count: int, delta: int, copper: int, detail: Option<string>)

  datatype Column = Delta | Copper

  function KeyOf(e: EventRow): Key {
    Key(e.charId, e.item)
  }

  function Amount(e: EventRow, col: Column): int {
    match col
    case Delta => e.delta
    case Copper => e.copper
  }

  /** The sum of a column over the rows whose key is selected. */
  function Over(es: seq<EventRow>, sel: Key -> bool, col: Column): int {
    if es == [] then 0
    else (if sel(KeyOf(es[0])) then Amount(es[0], col) else 0) + Over(es[1..], sel, col)
  }

  /** The rows before the cutoff, or those from it on, in their order. */
  function Part(es: seq<EventRow>, cutoff: int, early: bool): (r: seq<EventRow>)
    ensures forall e :: e in r <==> e in es && (e.at < cutoff) == early
  {
    if es == [] then []
    else if (es[0].at < cutoff) == early then [es[0]] + Part(es[1..], cutoff, early)
    else Part(es[1..], cutoff, early)
  }

  function Before(es: seq<EventRow>, cutoff: int): seq<EventRow> {
    Part(es, cutoff, true)
  }

  function Since(es: seq<EventRow>, cutoff: int): seq<EventRow> {
    Part(es, cutoff, false)
  }

  function KeysOf(es: seq<EventRow>): set<Key> {
    set e | e in es :: KeyOf(e)
  }

  function Only(k: Key): Key -> bool {
    x => x == k
  }

  /** The sums of one group of rows. */
  function GroupSum(es: seq<EventRow>, k: Key, col: Column): int {
    Over(es, Only(k), col)
  }

  predicate NonZero(rows: seq<EventRow>, k: Key) {
    GroupSum(rows, k, Delta) != 0 || GroupSum(rows, k, Copper) != 0
  }

  function Carry(rows: seq<EventRow>, k: Key, cutoff: int): EventRow {
    EventRow(cutoff, k.charId, "carry", k.item, 0,
             GroupSum(rows, k, Delta), GroupSum(rows, k, Copper), Some("folded"))
  }

  /** One carry row for each group whose sums are not both zero. */
  function Carries(rows: seq<EventRow>, keys: seq<Key>, cutoff: int): (r: seq<EventRow>)
    ensures |r| <= |keys|
    ensures forall e :: e in r ==> e.at == cutoff && KeyOf(e) in keys
  {
    if keys == [] then []
    else if NonZero(rows, keys[0]) then [Carry(rows, keys[0], cutoff)] + Carries(rows, keys[1..], cutoff)
    else Carries(rows, keys[1..], cutoff)
  }

  /** `fold_item_events_before`, its groups met in the order `keys`. */
  /** What a carry row says of itself: the cutoff, its key, no stack, both sums, and that it was folded. */
  lemma {:induction false} CarriesSay(rows: seq<EventRow>, keys: seq<Key>, cutoff: int, i: nat)
    requires i < |Carries(rows, keys, cutoff)|
    ensures
      var e := Carries(rows, keys, cutoff)[i];
      && e.at == cutoff && e.action == "carry" && e.count == 0 && e.detail == Some("folded")
      && KeyOf(e) in keys && e.delta == GroupSum(rows, KeyOf(e), Delta) && e.copper == GroupSum(rows, KeyOf(e), Copper)
  {
    if NonZero(rows, keys[0]) {
      if i > 0 {
        CarriesSay(rows, keys[1..], cutoff, i - 1);
      }
    } else {
      CarriesSay(rows, keys[1..], cutoff, i);
    }
  }

  function Folded(es: seq<EventRow>, cutoff: int, keys: seq<Key>): seq<EventRow> {
    Since(es, cutoff) + Carries(Before(es, cutoff), keys, cutoff)
  }

  predicate GroupsOf(keys: seq<Key>, es: seq<EventRow>, cutoff: int) {
    Lists(keys, KeysOf(Before(es, cutoff)))
  }

  // ------------------------------------------------------------- sums of rows

  lemma {:induction false} OverConcat(a: seq<EventRow>, b: seq<EventRow>, sel: Key -> bool, col: Column)
    ensures Over(a + b, sel, col) == Over(a, sel, col) + Over(b, sel, col)
  {
    if a == [] {
      assert a + b == b;
    } else {
      assert (a + b)[1..] == a[1..] + b;
      OverConcat(a[1..], b, sel, col);
    }
  }

  lemma OverCons(e: EventRow, es: seq<EventRow>, sel: Key -> bool, col: Column)
    ensures Over([e] + es, sel, col) == (if sel(KeyOf(e)) then Amount(e, col) else 0) + Over(es, sel, col)
  {
    assert ([e] + es)[1..] == es;
  }

  lemma {:induction false} OverSplit(es: seq<EventRow>, cutoff: int, sel: Key -> bool, col: Column)
    ensures Over(es, sel, col) == Over(Before(es, cutoff), sel, col) + Over(Since(es, cutoff), sel, col)
    ensures |es| == |Before(es, cutoff)| + |Since(es, cutoff)|
  {
    if es != [] {
      OverSplit(es[1..], cutoff, sel, col);
      OverCons(es[0], Before(es[1..], cutoff), sel, col);
      OverCons(es[0], Since(es[1..], cutoff), sel, col);
    }
  }

  lemma {:induction false} OverSame(es: seq<EventRow>, f: Key -> bool, g: Key -> bool, col: Column)
    requires forall e :: e in es ==> f(KeyOf(e)) == g(KeyOf(e))
    ensures Over(es, f, col) == Over(es, g, col)
  {
    if es != [] {
      assert es[0] in es && forall e :: e in es[1..] ==> e in es;
      OverSame(es[1..], f, g, col);
    }
  }

  /** Selections that never overlap add up. */
  lemma {:induction false} OverDisjoint(es: seq<EventRow>, f: Key -> bool, g: Key -> bool, both: Key -> bool,
      col: Column)
    requires forall k: Key :: !(f(k) && g(k)) && (both(k) <==> f(k) || g(k))
    ensures Over(es, both, col) == Over(es, f, col) + Over(es, g, col)
  {
    if es != [] {
      OverDisjoint(es[1..], f, g, both, col);
    }
  }

  lemma {:induction false} OverNone(es: seq<EventRow>, sel: Key -> bool, col: Column)
    requires forall e :: e in es ==> !sel(KeyOf(e))
    ensures Over(es, sel, col) == 0
  {
    if es != [] {
      assert es[0] in es && forall e :: e in es[1..] ==> e in es;
      OverNone(es[1..], sel, col);
    }
  }

  // ----------------------------------------------- the fold keeps the balances

  function Among(keys: seq<Key>, sel: Key -> bool): Key -> bool {
    k => k in keys && sel(k)
  }

  /** The carry rows of the listed groups hold what the rows of those groups held. */
  lemma {:induction false} CarriesHoldTheSums(rows: seq<EventRow>, keys: seq<Key>, cutoff: int, sel: Key -> bool,
      col: Column)
    requires NoDuplicates(keys)
    ensures Over(Carries(rows, keys, cutoff), sel, col) == Over(rows, Among(keys, sel), col)
  {
    if keys == [] {
      OverNone(rows, Among(keys, sel), col);
    } else {
      var k, rest := keys[0], keys[1..];
      assert k !in rest;
      CarriesHoldTheSums(rows, rest, cutoff, sel, col);
      var head: Key -> bool := x => x == k && sel(x);
      OverDisjoint(rows, head, Among(rest, sel), Among(keys, sel), col);
      if sel(k) {
        OverSame(rows, head, Only(k), col);
      } else {
        OverNone(rows, head, col);
      }
      OverCons(Carry(rows, k, cutoff), Carries(rows, rest, cutoff), sel, col);
    }
  }

  /**
   The fold changes no balance: whatever characters and items a sum runs over,
   its deltas and its copper are the same before and after.
   */
  lemma FoldKeepsBalances(es: seq<EventRow>, cutoff: int, keys: seq<Key>, sel: Key -> bool, col: Column)
    requires GroupsOf(keys, es, cutoff)
    ensures Over(Folded(es, cutoff, keys), sel, col) == Over(es, sel, col)
  {
    var rows := Before(es, cutoff);
    OverSplit(es, cutoff, sel, col);
    CarriesHoldTheSums(rows, keys, cutoff, sel, col);
    assert forall e :: e in rows ==> KeyOf(e) in KeysOf(rows);
    OverSame(rows, Among(keys, sel), sel, col);
    OverConcat(Since(es, cutoff), Carries(rows, keys, cutoff), sel, col);
  }

  /** A fold never writes more rows than it deletes. */
  lemma CarriesNeverOutnumber(es: seq<EventRow>, cutoff: int, keys: seq<Key>)
    requires GroupsOf(keys, es, cutoff)
    ensures |Carries(Before(es, cutoff), keys, cutoff)| <= |Before(es, cutoff)|
    ensures |Folded(es, cutoff, keys)| <= |es|
  {
    ListingLength(keys, KeysOf(Before(es, cutoff)));
    OverSplit(es, cutoff, k => true, Delta);
    KeysAreFewer(Before(es, cutoff));
  }

  lemma {:induction false} KeysAreFewer(es: seq<EventRow>)
    ensures |KeysOf(es)| <= |es|
  {
    if es != [] {
      KeysAreFewer(es[1..]);
      assert KeysOf(es) == KeysOf(es[1..]) + {KeyOf(es[0])};
    }
  }

  // ------------------------------------------------------------ folds compose

  /** A row is a carry of the old rows when it is the nonzero sum of its own group. */
  predicate IsCarry(rows: seq<EventRow>, cutoff: int, e: EventRow) {
    NonZero(rows, KeyOf(e)) && e == Carry(rows, KeyOf(e), cutoff)
  }

  lemma {:induction false} CarriesAre(rows: seq<EventRow>, keys: seq<Key>, cutoff: int)
    requires NoDuplicates(keys)
    ensures NoDuplicates(Carries(rows, keys, cutoff))
    ensures forall e :: e in Carries(rows, keys, cutoff) <==> IsCarry(rows, cutoff, e) && KeyOf(e) in keys
  {
    if keys != [] {
      assert keys[0] !in keys[1..];
      CarriesAre(rows, keys[1..], cutoff);
    }
  }

  /** A group with a nonzero sum has a row. */
  lemma NonZeroHasRow(rows: seq<EventRow>, k: Key)
    requires NonZero(rows, k)
    ensures k in KeysOf(rows)
  {
    if k !in KeysOf(rows) {
      assert forall e :: e in rows ==> KeyOf(e) in KeysOf(rows);
      OverNone(rows, Only(k), Delta);
      OverNone(rows, Only(k), Copper);
    }
  }

  /** Whatever the order of the groups, the carries are the same rows. */
  lemma CarriesAreTheNonZeroGroups(rows: seq<EventRow>, keys: seq<Key>, cutoff: int)
    requires Lists(keys, KeysOf(rows))
    ensures NoDuplicates(Carries(rows, keys, cutoff))
    ensures forall e :: e in Carries(rows, keys, cutoff) <==> IsCarry(rows, cutoff, e)
  {
    CarriesAre(rows, keys, cutoff);
    forall e | IsCarry(rows, cutoff, e)
      ensures KeyOf(e) in keys
    {
      NonZeroHasRow(rows, KeyOf(e));
    }
  }

  /** Old rows with equal group sums fold into the same carries, in some order. */
  lemma SameSumsSameCarries(a: seq<EventRow>, b: seq<EventRow>, ka: seq<Key>, kb: seq<Key>, cutoff: int)
    requires Lists(ka, KeysOf(a)) && Lists(kb, KeysOf(b))
    requires forall k: Key, col: Column :: GroupSum(a, k, col) == GroupSum(b, k, col)
    ensures multiset(Carries(a, ka, cutoff)) == multiset(Carries(b, kb, cutoff))
  {
    CarriesAreTheNonZeroGroups(a, ka, cutoff);
    CarriesAreTheNonZeroGroups(b, kb, cutoff);
    forall e
      ensures IsCarry(a, cutoff, e) <==> IsCarry(b, cutoff, e)
    {
    }
    SameElementsSameMultiset(Carries(a, ka, cutoff), Carries(b, kb, cutoff));
  }

  lemma {:induction false} PartConcat(a: seq<EventRow>, b: seq<EventRow>, cutoff: int, early: bool)
    ensures Part(a + b, cutoff, early) == Part(a, cutoff, early) + Part(b, cutoff, early)
  {
    if a == [] {
      assert a + b == b;
    } else {
      var rest, tail := Part(a[1..], cutoff, early), Part(b, cutoff, early);
      assert (a + b)[1..] == a[1..] + b;
      PartConcat(a[1..], b, cutoff, early);
      assert [a[0]] + (rest + tail) == ([a[0]] + rest) + tail;
    }
  }

  lemma {:induction false} AllBefore(es: seq<EventRow>, cutoff: int)
    requires forall e :: e in es ==> e.at < cutoff
    ensures Before(es, cutoff) == es && Since(es, cutoff) == []
  {
    if es != [] {
      assert es[0] in es && forall e :: e in es[1..] ==> e in es;
      AllBefore(es[1..], cutoff);
    }
  }

  lemma {:induction false} AllSince(es: seq<EventRow>, cutoff: int)
    requires forall e :: e in es ==> e.at >= cutoff
    ensures Since(es, cutoff) == es && Before(es, cutoff) == []
  {
    if es != [] {
      assert es[0] in es && forall e :: e in es[1..] ==> e in es;
      AllSince(es[1..], cutoff);
    }
  }

  lemma {:induction false} SinceTwice(es: seq<EventRow>, c1: int, c2: int)
    requires c1 <= c2
    ensures Since(Since(es, c1), c2) == Since(es, c2)
  {
    if es != [] {
      SinceTwice(es[1..], c1, c2);
      var rest := Since(es[1..], c1);
      assert ([es[0]] + rest)[1..] == rest;
    }
  }

  /** Folding again at the same cutoff does nothing: no row is old, and none is written. */
  lemma FoldTwiceIsFoldOnce(es: seq<EventRow>, cutoff: int, keys: seq<Key>, again: seq<Key>)
    requires GroupsOf(again, Folded(es, cutoff, keys), cutoff)
    ensures Folded(Folded(es, cutoff, keys), cutoff, again) == Folded(es, cutoff, keys)
  {
    AllSince(Folded(es, cutoff, keys), cutoff);
    assert KeysOf([]) == {};
    ListingLength(again, {});
  }

  /** Folding in two stages leaves the same rows as folding once at the later cutoff. */
  lemma FoldsCompose(es: seq<EventRow>, c1: int, c2: int, k1: seq<Key>, k2: seq<Key>, k: seq<Key>)
    requires c1 <= c2 && GroupsOf(k1, es, c1)
    requires GroupsOf(k2, Folded(es, c1, k1), c2) && GroupsOf(k, es, c2)
    ensures multiset(Folded(Folded(es, c1, k1), c2, k2)) == multiset(Folded(es, c2, k))
  {
    if c1 == c2 {
      FoldTwiceIsFoldOnce(es, c1, k1, k2);
      SameSumsSameCarries(Before(es, c1), Before(es, c1), k1, k, c1);
    } else {
      var mid := Folded(es, c1, k1);
      var carries := Carries(Before(es, c1), k1, c1);
      PartConcat(Since(es, c1), carries, c2, false);
      AllBefore(carries, c2);
      SinceTwice(es, c1, c2);
      assert Since(mid, c2) == Since(es, c2);
      forall key: Key, col: Column
        ensures GroupSum(Before(mid, c2), key, col) == GroupSum(Before(es, c2), key, col)
      {
        FoldKeepsBalances(es, c1, k1, Only(key), col);
        OverSplit(mid, c2, Only(key), col);
        OverSplit(es, c2, Only(key), col);
      }
      SameSumsSameCarries(Before(mid, c2), Before(es, c2), k2, k, c2);
    }
  }
}
