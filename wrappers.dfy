/** The Option datatype, used wherever the game reads a value that may be absent. */
module Wrappers {
  datatype Option<+T> = None | Some(value: T)
}

/** Facts about sequences without repeated elements and about the sizes of finite sets. */
module SeqFacts {

  /** No element occurs twice in `s`. */
  predicate NoDup<T(==)>(s: seq<T>) {
    forall i, j :: 0 <= i < j < |s| ==> s[i] != s[j]
  }

  /**
   * `s` with the first occurrence of `x` taken out, as a container removes a
   * child; unchanged when `x` does not occur.
   */
  function Without<T(==)>(s: seq<T>, x: T): (r: seq<T>)
    ensures x !in s ==> r == s
    ensures x in s ==> multiset(r) == multiset(s) - multiset{x}
  {
    if s == [] then []
    else
      assert s == [s[0]] + s[1..];
      if s[0] == x then s[1..] else [s[0]] + Without(s[1..], x)
  }

  /** The set of the elements of `s`. */
  function Elements<T>(s: seq<T>): set<T> {
    set x | x in s
  }

  /** The natural numbers below `n`. */
  function Below(n: nat): (b: set<nat>)
    ensures forall x: nat :: x in b <==> x < n
    ensures |b| == n
  {
    if n == 0 then {} else Below(n - 1) + {n - 1}
  }

  lemma {:induction false} SubsetCard<T>(a: set<T>, b: set<T>)
    requires a <= b
    ensures |a| <= |b|
  {
    if a != {} {
      var x :| x in a;
      SubsetCard(a - {x}, b - {x});
    }
  }

  /** A subset as large as its superset is the whole superset. */
  lemma SubsetFull<T>(a: set<T>, b: set<T>)
    requires a <= b && |a| == |b|
    ensures a == b
  {
    if x :| x in b && x !in a {
      SubsetCard(a, b - {x});
    }
  }

  lemma {:induction false} NoDupCard<T>(s: seq<T>)
    requires NoDup(s)
    ensures |Elements(s)| == |s|
  {
    if s != [] {
      NoDupCard(s[1..]);
      assert Elements(s) == {s[0]} + Elements(s[1..]);
      assert s[0] !in Elements(s[1..]);
    }
  }

  /** A sequence without repetitions drawn from `b` is no longer than `b` is large. */
  lemma NoDupBound<T>(s: seq<T>, b: set<T>)
    requires NoDup(s) && forall i :: 0 <= i < |s| ==> s[i] in b
    ensures |s| <= |b|
  {
    NoDupCard(s);
    SubsetCard(Elements(s), b);
  }

  /** A sequence without repetitions drawn from `b` and as long as `b` is large holds all of `b`. */
  lemma NoDupFull<T>(s: seq<T>, b: set<T>)
    requires NoDup(s) && (forall i :: 0 <= i < |s| ==> s[i] in b) && |s| == |b|
    ensures forall x :: x in b ==> x in s
  {
    NoDupCard(s);
    SubsetFull(Elements(s), b);
  }

  lemma {:induction false} NoDupAtMostOnce<T>(s: seq<T>, x: T)
    requires NoDup(s)
    ensures multiset(s)[x] <= 1
  {
    if s != [] {
      NoDupAtMostOnce(s[1..], x);
      assert s == [s[0]] + s[1..];
      assert multiset(s) == multiset{s[0]} + multiset(s[1..]);
      if s[0] == x {
        assert x !in s[1..];
      }
    }
  }

  /** Rearranging a sequence without repetitions gives one without repetitions. */
  lemma NoDupPermutation<T>(a: seq<T>, b: seq<T>)
    requires NoDup(a) && multiset(a) == multiset(b)
    ensures NoDup(b)
  {
    if i, j :| 0 <= i < j < |b| && b[i] == b[j] {
      var v := b[i];
      assert b == b[..i] + [b[i]] + b[i + 1..j] + [b[j]] + b[j + 1..];
      assert multiset(b) == multiset(b[..i]) + multiset{v} + multiset(b[i + 1..j]) + multiset{v} + multiset(b[j + 1..]);
      NoDupAtMostOnce(a, v);
    }
  }

  /** How often `v` occurs in `s`, split around position `i`. */
  lemma CountAround<T>(s: seq<T>, i: nat, v: T)
    requires i < |s|
    ensures multiset(s)[v] == multiset(s[..i])[v] + (if s[i] == v then 1 else 0) + multiset(s[i + 1..])[v]
  {
    assert s == s[..i] + [s[i]] + s[i + 1..];
  }

  /** Two arrangements of the same elements that differ somewhere differ in at least two places. */
  lemma {:induction false} PermutationMovesTwo<T>(a: seq<T>, b: seq<T>)
    requires multiset(a) == multiset(b) && a != b
    ensures |a| == |b|
    ensures exists i, j :: 0 <= i < j < |a| && a[i] != b[i] && a[j] != b[j]
  {
    assert |a| == |multiset(a)| == |b|;
    var i :| 0 <= i < |a| && a[i] != b[i];
    if j :| 0 <= j < |a| && j != i && a[j] != b[j] {
      if i < j {
        assert a[i] != b[i] && a[j] != b[j];
      } else {
        assert a[j] != b[j] && a[i] != b[i];
      }
    } else {
      assert a[..i] == b[..i] && a[i + 1..] == b[i + 1..];
      CountAround(a, i, a[i]);
      CountAround(b, i, a[i]);
      assert false;
    }
  }
}
