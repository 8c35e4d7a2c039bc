/** Listings of sets: sequences that hold each element once, in some order. */
module Sequences {

  predicate NoDuplicates<T(==)>(s: seq<T>) {
    forall i, j :: 0 <= i < j < |s| ==> s[i] != s[j]
  }

  /** `s` lists exactly the elements of `contents`, each once. */
  predicate Lists<T(==)>(s: seq<T>, contents: set<T>) {
    && (forall x :: x in s ==> x in contents)
    && (forall x :: x in contents ==> x in s)
    && NoDuplicates(s)
  }

  /** The elements of a set, in whatever order it yields them. */
  method Collect<T(==)>(contents: set<T>) returns (list: seq<T>)
    ensures Lists(list, contents)
  {
    list := [];
    var left := contents;
    while left != {}
      invariant left <= contents && Lists(list, contents - left)
      decreases |left|
    {
      var c :| c in left;
      list := list + [c];
      left := left - {c};
    }
    assert contents - left == contents;
  }

  lemma {:induction false} NoDuplicatesCount<T>(s: seq<T>, x: T)
    requires NoDuplicates(s)
    ensures multiset(s)[x] == if x in s then 1 else 0
  {
    if s != [] {
      assert s == [s[0]] + s[1..];
      assert s[0] !in s[1..];
      NoDuplicatesCount(s[1..], x);
    }
  }

  lemma Associates<T>(a: seq<T>, b: seq<T>, c: seq<T>)
    ensures a + (b + c) == (a + b) + c
  {
  }

  /** Two duplicate-free sequences with the same elements are permutations of each other. */
  lemma SameElementsSameMultiset<T>(a: seq<T>, b: seq<T>)
    requires NoDuplicates(a) && NoDuplicates(b)
    requires forall x :: x in a <==> x in b
    ensures multiset(a) == multiset(b)
  {
    forall x
      ensures multiset(a)[x] == multiset(b)[x]
    {
      NoDuplicatesCount(a, x);
      NoDuplicatesCount(b, x);
    }
  }

  /** Where a shuffled sequence holds the head of the other; what is left of it shuffles the rest. */
  lemma ShuffledHead<T>(s: seq<T>, shuffled: seq<T>) returns (i: nat)
    requires s != [] && multiset(shuffled) == multiset(s)
    ensures i < |shuffled| && shuffled[i] == s[0]
    ensures multiset(shuffled[..i] + shuffled[i + 1..]) == multiset(s[1..])
    ensures shuffled == shuffled[..i] + ([shuffled[i]] + shuffled[i + 1..])
  {
    assert s == [s[0]] + s[1..];
    assert s[0] in multiset(shuffled);
    i :| 0 <= i < |shuffled| && shuffled[i] == s[0];
    var before, after := shuffled[..i], shuffled[i + 1..];
    assert shuffled == before + ([shuffled[i]] + after);
    assert multiset(s) == multiset{s[0]} + multiset(s[1..]);
    assert multiset(shuffled) == multiset(before) + (multiset{shuffled[i]} + multiset(after));
    assert multiset(before + after) == multiset(shuffled) - multiset{s[0]};
    assert multiset(s[1..]) == multiset(s) - multiset{s[0]};
  }

  /** A listing is as long as its set is large. */
  lemma {:induction false} ListingLength<T>(s: seq<T>, contents: set<T>)
    requires Lists(s, contents)
    ensures |s| == |contents|
  {
    if s != [] {
      assert s[0] !in s[1..];
      ListingLength(s[1..], contents - {s[0]});
    }
  }
}
