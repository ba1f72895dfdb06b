/** Tuples of enumeration values in the order of their names, as every record keeps them. */
module CanonicalOrder {

  ghost predicate Injective<T(!new)>(rank: T -> int) {
    forall a, b :: rank(a) == rank(b) ==> a == b
  }

  /** In order and without repetition: the two checks that the records make of such a tuple. */
  predicate Strict<T>(s: seq<T>, rank: T -> int) {
    forall i, k :: 0 <= i < k < |s| ==> rank(s[i]) < rank(s[k])
  }

  predicate Ascending<T>(s: seq<T>, rank: T -> int) {
    forall i, k :: 0 <= i < k < |s| ==> rank(s[i]) <= rank(s[k])
  }

  predicate NoRepetition<T(==)>(s: seq<T>) {
    forall i, k :: 0 <= i < k < |s| ==> s[i] != s[k]
  }

  /** `all`, restricted to `chosen`: the sorted form of a set when `all` lists every value in order. */
  function Listed<T(==,!new)>(all: seq<T>, chosen: set<T>): (s: seq<T>)
    ensures forall x :: x in s <==> x in all && x in chosen
    ensures |s| <= |all|
  {
    if all == [] then []
    else
      var rest := Listed(all[..|all| - 1], chosen);
      if all[|all| - 1] in chosen then rest + [all[|all| - 1]] else rest
  }

  lemma {:induction false} ListedIsStrict<T(!new)>(all: seq<T>, chosen: set<T>, rank: T -> int)
    requires Strict(all, rank)
    ensures Strict(Listed(all, chosen), rank)
  {
    if all != [] {
      var init, last := all[..|all| - 1], all[|all| - 1];
      ListedIsStrict(init, chosen, rank);
      forall x | x in Listed(init, chosen)
        ensures rank(x) < rank(last)
      {
        var i :| 0 <= i < |init| && init[i] == x;
        assert all[i] == x;
      }
    }
  }

  /** A set has only one strictly ordered tuple. */
  lemma {:induction false} StrictIsCanonical<T(!new)>(a: seq<T>, b: seq<T>, rank: T -> int)
    requires Strict(a, rank) && Strict(b, rank)
    requires forall x :: x in a <==> x in b
    ensures a == b
  {
    assert a != [] ==> a[0] in b;
    assert b != [] ==> b[0] in a;
    if a != [] {
      var x, y := a[|a| - 1], b[|b| - 1];
      assert x in b && y in a;
      var i :| 0 <= i < |a| && a[i] == y;
      var k :| 0 <= k < |b| && b[k] == x;
      assert rank(y) <= rank(x) && rank(x) <= rank(y);
      assert i == |a| - 1 && k == |b| - 1;
      var a', b' := a[..|a| - 1], b[..|b| - 1];
      forall z
        ensures z in a' <==> z in b'
      {
        if z in a' { InInit(a, z); InInit(b, z); }
        if z in b' { InInit(a, z); InInit(b, z); }
      }
      StrictIsCanonical(a', b', rank);
    }
  }

  lemma InInit<T>(s: seq<T>, z: T)
    requires s != []
    ensures z in s <==> z in s[..|s| - 1] || z == s[|s| - 1]
  {
    assert s == s[..|s| - 1] + [s[|s| - 1]];
  }

  function Insert<T>(x: T, s: seq<T>, rank: T -> int): (r: seq<T>)
    ensures multiset(r) == multiset(s) + multiset{x}
  {
    if s == [] || rank(s[|s| - 1]) <= rank(x) then s + [x]
    else
      assert s == s[..|s| - 1] + [s[|s| - 1]];
      Insert(x, s[..|s| - 1], rank) + [s[|s| - 1]]
  }

  /** The sort of a tuple, which keeps repetitions. */
  function Sorted<T>(s: seq<T>, rank: T -> int): (r: seq<T>)
    ensures multiset(r) == multiset(s)
  {
    if s == [] then []
    else
      assert s == s[..|s| - 1] + [s[|s| - 1]];
      Insert(s[|s| - 1], Sorted(s[..|s| - 1], rank), rank)
  }

  lemma {:induction false} InsertAscending<T(!new)>(x: T, s: seq<T>, rank: T -> int)
    requires Ascending(s, rank)
    ensures Ascending(Insert(x, s, rank), rank)
  {
    if s != [] && rank(x) < rank(s[|s| - 1]) {
      var init, last := s[..|s| - 1], s[|s| - 1];
      InsertAscending(x, init, rank);
      var r := Insert(x, init, rank);
      forall y | y in r
        ensures rank(y) <= rank(last)
      {
        assert y in multiset(r);
        assert y == x || y in init;
      }
    }
  }

  lemma {:induction false} SortedAscending<T(!new)>(s: seq<T>, rank: T -> int)
    ensures Ascending(Sorted(s, rank), rank)
  {
    if s != [] {
      SortedAscending(s[..|s| - 1], rank);
      InsertAscending(s[|s| - 1], Sorted(s[..|s| - 1], rank), rank);
    }
  }

  lemma {:induction false} RepetitionIsMultiplicity<T(!new)>(s: seq<T>)
    ensures NoRepetition(s) <==> forall x :: multiset(s)[x] <= 1
  {
    if s != [] {
      var init, last := s[..|s| - 1], s[|s| - 1];
      RepetitionIsMultiplicity(init);
      assert s == init + [last];
      assert forall x :: multiset(s)[x] == multiset(init)[x] + if x == last then 1 else 0;
      if NoRepetition(s) {
        assert NoRepetition(init) && last !in init;
      }
      if forall x :: multiset(s)[x] <= 1 {
        assert multiset(s)[last] <= 1;
        assert last !in init;
        assert forall x :: multiset(init)[x] <= multiset(s)[x];
      }
    }
  }

  /** A sorted tuple is strictly ordered exactly when it was given without repetition. */
  lemma SortedIsStrictExactlyWhen<T(!new)>(s: seq<T>, rank: T -> int)
    requires Injective(rank)
    ensures Strict(Sorted(s, rank), rank) <==> NoRepetition(s)
    ensures forall x :: x in Sorted(s, rank) <==> x in s
  {
    var r := Sorted(s, rank);
    SortedAscending(s, rank);
    RepetitionIsMultiplicity(s);
    RepetitionIsMultiplicity(r);
    forall x
      ensures x in r <==> x in s
    {
      assert x in multiset(r) <==> x in multiset(s);
    }
    if NoRepetition(r) {
      assert forall i, k :: 0 <= i < k < |r| ==> rank(r[i]) != rank(r[k]);
    }
    if Strict(r, rank) {
      assert forall i, k :: 0 <= i < k < |r| ==> r[i] != r[k];
    }
  }
}
