/**
 Sequences ordered by a key under the ORDER BY order of `Sql.Le`: what it means
 to be sorted, an insertion sort, and the fact that a sorted permutation
 is unique once the keys are distinct.
 */
module Sorting {
  import opened Sql

  /** Every earlier element's key sorts no later than every later element's key. */
  predicate SortedBy<T>(s: seq<T>, key: T -> Value)
  {
    forall i, j :: 0 <= i < j < |s| ==> Le(key(s[i]), key(s[j]))
  }

  /** No two elements share a key. */
  predicate DistinctKeys<T>(s: seq<T>, key: T -> Value)
  {
    forall i, j :: 0 <= i < j < |s| ==> key(s[i]) != key(s[j])
  }

  /** `f` applied to every element, in order. */
  function Map<A, B>(f: A -> B, s: seq<A>): (r: seq<B>)
    ensures |r| == |s|
    ensures forall i :: 0 <= i < |s| ==> r[i] == f(s[i])
  {
    seq(|s|, i requires 0 <= i < |s| => f(s[i]))
  }

  /**
   Inserts `x` into a sorted sequence in front of the first element whose key
   it does not exceed, so that `x` lands before the elements it ties with.
   */
  function Insert<T>(x: T, s: seq<T>, key: T -> Value): (r: seq<T>)
    requires SortedBy(s, key)
    ensures SortedBy(r, key)
    ensures multiset(r) == multiset(s) + multiset{x}
  {
    if |s| == 0 then [x]
    else if Le(key(x), key(s[0])) then
      assert forall j :: 0 <= j < |s| ==> Le(key(x), key(s[j])) by {
        forall j | 0 <= j < |s|
          ensures Le(key(x), key(s[j]))
        {
          if j > 0 {
            LeTransitive(key(x), key(s[0]), key(s[j]));
          }
        }
      }
      [x] + s
    else
      var rest := Insert(x, s[1..], key);
      assert s == [s[0]] + s[1..];
      LeTotal(key(x), key(s[0]));
      assert forall j :: 0 <= j < |rest| ==> Le(key(s[0]), key(rest[j])) by {
        forall j | 0 <= j < |rest|
          ensures Le(key(s[0]), key(rest[j]))
        {
          assert rest[j] in multiset(rest);
          if rest[j] != x {
            assert rest[j] in multiset(s[1..]);
            var k :| 0 <= k < |s[1..]| && s[1..][k] == rest[j];
            assert s[k + 1] == rest[j];
          }
        }
      }
      [s[0]] + rest
  }

  /** Sorts by key; elements with equal keys end up in one fixed order. */
  function InsertionSort<T>(s: seq<T>, key: T -> Value): (r: seq<T>)
    ensures SortedBy(r, key)
    ensures multiset(r) == multiset(s)
  {
    if |s| == 0 then []
    else
      assert s == [s[0]] + s[1..];
      Insert(s[0], InsertionSort(s[1..], key), key)
  }

  lemma MapConcat<A, B>(f: A -> B, x: seq<A>, y: seq<A>)
    ensures Map(f, x + y) == Map(f, x) + Map(f, y)
  {
  }

  /** Mapping preserves "is a permutation of". */
  lemma {:induction false} MapPreservesPermutation<A, B>(f: A -> B, a: seq<A>, b: seq<A>)
    requires multiset(a) == multiset(b)
    ensures multiset(Map(f, a)) == multiset(Map(f, b))
    decreases |a|
  {
    if |a| == 0 {
      assert |b| == |multiset(b)| == 0;
    } else {
      assert a[0] in multiset(b);
      var j :| 0 <= j < |b| && b[j] == a[0];
      var left, right := b[..j], b[j + 1..];
      assert b == left + [b[j]] + right;
      assert a == [a[0]] + a[1..];
      assert multiset(a[1..]) == multiset(left + right) by {
        assert multiset(b) == multiset(left) + multiset{b[j]} + multiset(right);
        assert multiset(a) == multiset{a[0]} + multiset(a[1..]);
        assert multiset(left + right) == multiset(left) + multiset(right);
        assert multiset(a[1..]) == multiset(a) - multiset{a[0]};
      }
      MapPreservesPermutation(f, a[1..], left + right);
      MapConcat(f, [a[0]], a[1..]);
      MapConcat(f, left + [b[j]], right);
      MapConcat(f, left, [b[j]]);
      MapConcat(f, left, right);
    }
  }

  /**
   Two sorted permutations of each other are equal when their keys are
   distinct: with no ties, ORDER BY leaves the engine no choice.
   */
  lemma {:induction false} SortedPermutationUnique<T>(a: seq<T>, b: seq<T>, key: T -> Value)
    requires SortedBy(a, key) && SortedBy(b, key)
    requires multiset(a) == multiset(b)
    requires DistinctKeys(a, key)
    ensures a == b
    decreases |a|
  {
    if |a| == 0 {
      assert |b| == |multiset(b)| == 0;
    } else {
      assert |b| == |multiset(b)| == |a|;
      assert a[0] in multiset(b);
      var j :| 0 <= j < |b| && b[j] == a[0];
      assert b[0] in multiset(a);
      var k :| 0 <= k < |a| && a[k] == b[0];
      if a[0] != b[0] {
        assert Le(key(b[0]), key(b[j]));
        assert Le(key(a[0]), key(a[k]));
        LeAntisymmetric(key(a[0]), key(b[0]));
        assert false;
      }
      assert a == [a[0]] + a[1..];
      assert b == [b[0]] + b[1..];
      assert multiset(a[1..]) == multiset(a) - multiset{a[0]};
      assert multiset(b[1..]) == multiset(b) - multiset{b[0]};
      SortedPermutationUnique(a[1..], b[1..], key);
    }
  }

  /** Elements with equal keys are equal, and each occurs once. */
  predicate NoTies<T>(m: multiset<T>, key: T -> Value)
  {
    forall x, y :: x in m && y in m && key(x) == key(y) ==> x == y && m[x] == 1
  }

  lemma {:induction false} DistinctKeysNoTies<T>(s: seq<T>, key: T -> Value)
    requires DistinctKeys(s, key)
    ensures NoTies(multiset(s), key)
    decreases |s|
  {
    if |s| > 0 {
      var tail := s[1..];
      assert s == [s[0]] + tail;
      DistinctKeysNoTies(tail, key);
      assert s[0] !in multiset(tail) by {
        forall k | 0 <= k < |tail|
          ensures tail[k] != s[0]
        {
          assert key(s[0]) != key(s[k + 1]);
        }
      }
      forall x, y | x in multiset(s) && y in multiset(s) && key(x) == key(y)
        ensures x == y && multiset(s)[x] == 1
      {
        var p :| 0 <= p < |s| && s[p] == x;
        var q :| 0 <= q < |s| && s[q] == y;
        assert p == q;
      }
    }
  }

  /** An element found at two positions occurs at least twice. */
  lemma TwoPositions<T>(s: seq<T>, i: nat, j: nat)
    requires i < j < |s| && s[i] == s[j]
    ensures multiset(s)[s[i]] >= 2
  {
    assert s == s[..j] + s[j..];
    assert s[i] == s[..j][i];
    assert s[j..] == [s[j]] + s[j + 1..];
    assert multiset(s) == multiset(s[..j]) + multiset{s[j]} + multiset(s[j + 1..]);
  }

  lemma NoTiesDistinctKeys<T>(s: seq<T>, key: T -> Value)
    requires NoTies(multiset(s), key)
    ensures DistinctKeys(s, key)
  {
    forall i, j | 0 <= i < j < |s|
      ensures key(s[i]) != key(s[j])
    {
      if key(s[i]) == key(s[j]) {
        assert s[i] in multiset(s) && s[j] in multiset(s);
        TwoPositions(s, i, j);
        assert false;
      }
    }
  }

  /** Reordering cannot create a tie. */
  lemma PermutationKeepsDistinctKeys<T>(a: seq<T>, b: seq<T>, key: T -> Value)
    requires multiset(a) == multiset(b)
    requires DistinctKeys(a, key)
    ensures DistinctKeys(b, key)
  {
    DistinctKeysNoTies(a, key);
    NoTiesDistinctKeys(b, key);
  }
}
