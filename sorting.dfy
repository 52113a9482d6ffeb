/** `Array.prototype.sort` with a numeric comparator `(a, b) => key(a) - key(b)`.
    The engine's sort is stable, so it is modelled by a stable insertion
    sort; every stable sort by the same key gives the same result. */
module Sorting {

  ghost predicate SortedBy<T>(s: seq<T>, key: T -> int) {
    forall i, j :: 0 <= i < j < |s| ==> key(s[i]) <= key(s[j])
  }

  /** The elements of `s` whose key is `k`, in their order in `s`. */
  function WithKey<T>(s: seq<T>, key: T -> int, k: int): seq<T>
  {
    if s == [] then []
    else WithKey(s[..|s| - 1], key, k) + (if key(s[|s| - 1]) == k then [s[|s| - 1]] else [])
  }

  /** Places `e` after every element whose key is at most its own. */
  function Insert<T>(s: seq<T>, e: T, key: T -> int): (r: seq<T>)
    ensures |r| == |s| + 1
  {
    if s == [] || key(s[|s| - 1]) <= key(e) then s + [e]
    else Insert(s[..|s| - 1], e, key) + [s[|s| - 1]]
  }

  /** Where `Insert` puts `e`. */
  function InsertionPoint<T>(s: seq<T>, e: T, key: T -> int): (k: nat)
    ensures k <= |s|
  {
    if s == [] || key(s[|s| - 1]) <= key(e) then |s| else InsertionPoint(s[..|s| - 1], e, key)
  }

  function SortBy<T>(s: seq<T>, key: T -> int): (r: seq<T>)
    ensures |r| == |s|
  {
    if s == [] then [] else Insert(SortBy(s[..|s| - 1], key), s[|s| - 1], key)
  }

  /** In a sorted sequence `e` lands after everything keyed at most `key(e)`
      and before everything keyed above it. */
  lemma {:induction false} InsertAt<T>(s: seq<T>, e: T, key: T -> int)
    requires SortedBy(s, key)
    ensures var k := InsertionPoint(s, e, key);
      && Insert(s, e, key) == s[..k] + [e] + s[k..]
      && (forall i :: 0 <= i < k ==> key(s[i]) <= key(e))
      && (forall i :: k <= i < |s| ==> key(e) < key(s[i]))
  {
    if s != [] && key(s[|s| - 1]) > key(e) {
      var init := s[..|s| - 1];
      InsertAt(init, e, key);
      var k := InsertionPoint(init, e, key);
      assert init[..k] == s[..k];
      assert init[k..] + [s[|s| - 1]] == s[k..];
    } else {
      assert s[..|s|] == s;
    }
  }

  lemma {:induction false} InsertSorted<T>(s: seq<T>, e: T, key: T -> int)
    requires SortedBy(s, key)
    ensures SortedBy(Insert(s, e, key), key)
  {
    InsertAt(s, e, key);
    var k := InsertionPoint(s, e, key);
    var r := Insert(s, e, key);
    forall i, j | 0 <= i < j < |r| ensures key(r[i]) <= key(r[j]) {
      assert forall m :: 0 <= m < |r| ==> r[m] == if m < k then s[m] else if m == k then e else s[m - 1];
    }
  }

  lemma {:induction false} InsertPermutes<T>(s: seq<T>, e: T, key: T -> int)
    ensures multiset(Insert(s, e, key)) == multiset(s) + multiset{e}
  {
    if s != [] && key(s[|s| - 1]) > key(e) {
      var init := s[..|s| - 1];
      InsertPermutes(init, e, key);
      assert s == init + [s[|s| - 1]];
    }
  }

  lemma WithKeyConcat<T>(a: seq<T>, b: seq<T>, key: T -> int, k: int)
    ensures WithKey(a + b, key, k) == WithKey(a, key, k) + WithKey(b, key, k)
    decreases |b|
  {
    if b == [] {
      assert a + b == a;
    } else {
      assert (a + b)[..|a + b| - 1] == a + b[..|b| - 1];
      WithKeyConcat(a, b[..|b| - 1], key, k);
    }
  }

  /** Inserting does not reorder the elements that share a key with one
      another: `e` joins the end of its key's group. */
  lemma {:induction false} InsertStable<T>(s: seq<T>, e: T, key: T -> int, k: int)
    ensures WithKey(Insert(s, e, key), key, k)
            == WithKey(s, key, k) + (if key(e) == k then [e] else [])
  {
    if s == [] || key(s[|s| - 1]) <= key(e) {
      WithKeyConcat(s, [e], key, k);
      assert WithKey([e], key, k) == (if key(e) == k then [e] else []) by {
        assert [e][..0] == [];
      }
    } else {
      var init, last := s[..|s| - 1], s[|s| - 1];
      InsertStable(init, e, key, k);
      WithKeyConcat(Insert(init, e, key), [last], key, k);
      assert WithKey([last], key, k) == (if key(last) == k then [last] else []) by {
        assert [last][..0] == [];
      }
    }
  }

  lemma {:induction false} SortBySorted<T>(s: seq<T>, key: T -> int)
    ensures SortedBy(SortBy(s, key), key)
  {
    if s != [] {
      SortBySorted(s[..|s| - 1], key);
      InsertSorted(SortBy(s[..|s| - 1], key), s[|s| - 1], key);
    }
  }

  lemma {:induction false} SortByPermutes<T>(s: seq<T>, key: T -> int)
    ensures multiset(SortBy(s, key)) == multiset(s)
  {
    if s != [] {
      var init := s[..|s| - 1];
      SortByPermutes(init, key);
      InsertPermutes(SortBy(init, key), s[|s| - 1], key);
      assert s == init + [s[|s| - 1]];
    }
  }

  /** Stability: for every key, the elements with that key keep their order. */
  lemma {:induction false} SortByStable<T>(s: seq<T>, key: T -> int, k: int)
    ensures WithKey(SortBy(s, key), key, k) == WithKey(s, key, k)
  {
    if s != [] {
      var init := s[..|s| - 1];
      SortByStable(init, key, k);
      InsertStable(SortBy(init, key), s[|s| - 1], key, k);
    }
  }

  /** A sorted sequence is its own sort. */
  lemma {:induction false} SortBySortedInput<T>(s: seq<T>, key: T -> int)
    requires SortedBy(s, key)
    ensures SortBy(s, key) == s
  {
    if s != [] {
      var init := s[..|s| - 1];
      assert SortedBy(init, key);
      SortBySortedInput(init, key);
      assert s == init + [s[|s| - 1]];
    }
  }

  /** Appending one element to a sorted sequence and sorting the result is
      inserting that element. */
  lemma SortAppended<T>(s: seq<T>, e: T, key: T -> int)
    requires SortedBy(s, key)
    ensures SortBy(s + [e], key) == Insert(s, e, key)
  {
    assert (s + [e])[..|s|] == s;
    SortBySortedInput(s, key);
  }
}
