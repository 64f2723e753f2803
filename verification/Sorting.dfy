/**
 The library sort that the exchange's code calls with a comparator, and the one fact every
 determinism argument needs: a strict order leaves only one way to list a set.
 */
module Sorting {

  ghost predicate TotalPreorder<T(!new)>(leq: (T, T) -> bool) {
    && (forall a, b :: leq(a, b) || leq(b, a))
    && (forall a, b, c :: leq(a, b) && leq(b, c) ==> leq(a, c))
  }

  ghost predicate SortedBy<T>(leq: (T, T) -> bool, s: seq<T>) {
    forall i, j :: 0 <= i < j < |s| ==> leq(s[i], s[j])
  }

  /** Stable insertion of an element that stands before everything in `s`. */
  function Insert<T>(x: T, s: seq<T>, leq: (T, T) -> bool): seq<T> {
    if s == [] then [x]
    else if leq(x, s[0]) then [x] + s
    else [s[0]] + Insert(x, s[1..], leq)
  }

  function Sort<T>(s: seq<T>, leq: (T, T) -> bool): seq<T> {
    if s == [] then [] else Insert(s[0], Sort(s[1..], leq), leq)
  }

  lemma {:induction false} InsertPermutes<T>(x: T, s: seq<T>, leq: (T, T) -> bool)
    ensures multiset(Insert(x, s, leq)) == multiset{x} + multiset(s)
  {
    if s == [] {
    } else if leq(x, s[0]) {
    } else {
      InsertPermutes(x, s[1..], leq);
      assert s == [s[0]] + s[1..];
    }
  }

  lemma {:induction false} SortPermutes<T>(s: seq<T>, leq: (T, T) -> bool)
    ensures multiset(Sort(s, leq)) == multiset(s)
    ensures |Sort(s, leq)| == |s|
    ensures forall x :: x in Sort(s, leq) <==> x in s
  {
    if s == [] {
    } else {
      SortPermutes(s[1..], leq);
      InsertPermutes(s[0], Sort(s[1..], leq), leq);
      assert s == [s[0]] + s[1..];
    }
    assert |multiset(Sort(s, leq))| == |multiset(s)|;
    assert forall x :: x in Sort(s, leq) <==> x in multiset(Sort(s, leq));
  }

  lemma {:induction false} InsertSorts<T(!new)>(x: T, s: seq<T>, leq: (T, T) -> bool)
    requires TotalPreorder(leq) && SortedBy(leq, s)
    ensures SortedBy(leq, Insert(x, s, leq))
  {
    if s == [] {
    } else if leq(x, s[0]) {
    } else {
      InsertSorts(x, s[1..], leq);
      InsertPermutes(x, s[1..], leq);
      var r := Insert(x, s[1..], leq);
      forall y | y in r ensures leq(s[0], y) {
        assert y in multiset(r);
        assert y == x || y in s[1..];
      }
    }
  }

  lemma {:induction false} SortSorts<T(!new)>(s: seq<T>, leq: (T, T) -> bool)
    requires TotalPreorder(leq)
    ensures SortedBy(leq, Sort(s, leq))
  {
    if s != [] {
      SortSorts(s[1..], leq);
      InsertSorts(s[0], Sort(s[1..], leq), leq);
    }
  }

  lemma {:induction false} SortOfSorted<T>(s: seq<T>, leq: (T, T) -> bool)
    requires SortedBy(leq, s)
    ensures Sort(s, leq) == s
  {
    if s != [] {
      SortOfSorted(s[1..], leq);
      assert s == [s[0]] + s[1..];
    }
  }

  /** `key` takes a different value at every position. */
  ghost predicate DistinctBy<T(!new), K>(s: seq<T>, key: T -> K) {
    forall i, j :: 0 <= i < j < |s| ==> key(s[i]) != key(s[j])
  }

  ghost predicate Antisymmetric<T(!new), K>(leq: (T, T) -> bool, key: T -> K) {
    forall a, b :: leq(a, b) && leq(b, a) ==> key(a) == key(b)
  }

  /**
   Sorting by an order that separates distinct keys forgets the input order: two lists with
   the same elements, none sharing a key, sort to the same list.
   */
  lemma {:induction false} SortedUnique<T(!new), K>(
    s: seq<T>, t: seq<T>, leq: (T, T) -> bool, key: T -> K)
    requires SortedBy(leq, s) && SortedBy(leq, t)
    requires Antisymmetric(leq, key) && DistinctBy(s, key) && DistinctBy(t, key)
    requires forall x :: x in s <==> x in t
    ensures s == t
  {
    assert |t| > 0 ==> t[0] in s;
    if s != [] {
      assert s[0] in t;
      assert t[0] in s;
      var i :| 0 <= i < |s| && s[i] == t[0];
      var j :| 0 <= j < |t| && t[j] == s[0];
      assert s[0] == t[0];
      forall x ensures x in s[1..] <==> x in t[1..] {
        if x in s[1..] {
          var k :| 1 <= k < |s| && s[k] == x;
          assert x in t && key(s[0]) != key(s[k]);
        }
        if x in t[1..] {
          var k :| 1 <= k < |t| && t[k] == x;
          assert x in s && key(t[0]) != key(t[k]);
        }
      }
      SortedUnique(s[1..], t[1..], leq, key);
      assert s == [s[0]] + s[1..] && t == [t[0]] + t[1..];
    }
  }

  lemma DistinctAppend<T(!new), K>(s: seq<T>, x: T, key: T -> K)
    requires DistinctBy(s, key) && forall i :: 0 <= i < |s| ==> key(s[i]) != key(x)
    ensures DistinctBy(s + [x], key)
  {
  }

  /** A permutation keeps the keys pairwise different. */
  lemma {:induction false} DistinctPermutes<T(!new), K>(s: seq<T>, t: seq<T>, key: T -> K)
    requires multiset(s) == multiset(t) && DistinctBy(s, key)
    ensures DistinctBy(t, key)
  {
    forall i, j | 0 <= i < j < |t| ensures key(t[i]) != key(t[j]) {
      if key(t[i]) == key(t[j]) {
        assert t[i] in multiset(s) && t[j] in multiset(s);
        assert t[i] in s && t[j] in s;
        assert t[i] == t[j];
        assert t == t[..i] + [t[i]] + t[i + 1..j] + [t[j]] + t[j + 1..];
        assert multiset(t)[t[i]] >= 2;
        TwoOccurrences(s, t[i]);
        assert false;
      }
    }
  }

  /** An element counted twice stands at two positions. */
  lemma {:induction false} TwoOccurrences<T>(s: seq<T>, x: T)
    requires multiset(s)[x] >= 2
    ensures exists i, j :: 0 <= i < j < |s| && s[i] == x && s[j] == x
  {
    assert s != [];
    assert s == [s[0]] + s[1..];
    if s[0] == x {
      assert multiset(s[1..])[x] >= 1;
      assert x in multiset(s[1..]);
      var k :| 0 <= k < |s[1..]| && s[1..][k] == x;
      assert s[0] == x && s[k + 1] == x;
    } else {
      TwoOccurrences(s[1..], x);
      var i, j :| 0 <= i < j < |s[1..]| && s[1..][i] == x && s[1..][j] == x;
      assert s[i + 1] == x && s[j + 1] == x;
    }
  }

  /** Two lists with the same elements and no shared keys sort alike. */
  lemma SortForgetsOrder<T(!new), K>(s: seq<T>, t: seq<T>, leq: (T, T) -> bool, key: T -> K)
    requires TotalPreorder(leq) && Antisymmetric(leq, key) && DistinctBy(s, key) && DistinctBy(t, key)
    requires forall x :: x in s <==> x in t
    ensures Sort(s, leq) == Sort(t, leq)
  {
    SortPermutes(s, leq);
    SortPermutes(t, leq);
    SortSorts(s, leq);
    SortSorts(t, leq);
    DistinctPermutes(s, Sort(s, leq), key);
    DistinctPermutes(t, Sort(t, leq), key);
    SortedUnique(Sort(s, leq), Sort(t, leq), leq, key);
  }

  /** A permutation has the same members. */
  lemma SameMembers<T>(s: seq<T>, t: seq<T>)
    requires multiset(s) == multiset(t)
    ensures forall x :: x in s <==> x in t
  {
    forall x ensures x in s <==> x in t {
      assert x in s <==> x in multiset(s);
      assert x in t <==> x in multiset(t);
    }
  }
}
