/**
 * ArrayList.removeIf as a function on sequences, and the facts about it
 * that the filter stages rely on.
 */
module Lists {

  /** The elements of `s` for which `drop` is false, in their original order. */
  function RemoveIf<T>(s: seq<T>, drop: T -> bool): seq<T>
  {
    if s == [] then []
    else RemoveIf(s[..|s| - 1], drop) + (if drop(s[|s| - 1]) then [] else [s[|s| - 1]])
  }

  lemma {:induction false} RemoveIfConcat<T>(a: seq<T>, b: seq<T>, drop: T -> bool)
    ensures RemoveIf(a + b, drop) == RemoveIf(a, drop) + RemoveIf(b, drop)
    decreases |b|
  {
    if b == [] {
      assert a + b == a;
    } else {
      assert (a + b)[..|a + b| - 1] == a + b[..|b| - 1];
      RemoveIfConcat(a, b[..|b| - 1], drop);
    }
  }

  /** removeIf keeps each element as often as it occurs, when it is kept at all. */
  lemma {:induction false} RemoveIfCounts<T>(s: seq<T>, drop: T -> bool)
    ensures forall x :: multiset(RemoveIf(s, drop))[x] == if drop(x) then 0 else multiset(s)[x]
  {
    if s != [] {
      RemoveIfCounts(s[..|s| - 1], drop);
      assert s == s[..|s| - 1] + [s[|s| - 1]];
    }
  }

  lemma RemoveIfMembers<T>(s: seq<T>, drop: T -> bool)
    ensures forall x :: x in RemoveIf(s, drop) <==> x in s && !drop(x)
  {
    RemoveIfCounts(s, drop);
    forall x ensures x in RemoveIf(s, drop) <==> x in s && !drop(x) {
      assert x in RemoveIf(s, drop) <==> multiset(RemoveIf(s, drop))[x] > 0;
      assert x in s <==> multiset(s)[x] > 0;
    }
  }

  /** Nothing to drop leaves the sequence as it was. */
  lemma {:induction false} RemoveIfNothing<T>(s: seq<T>, drop: T -> bool)
    requires forall i :: 0 <= i < |s| ==> !drop(s[i])
    ensures RemoveIf(s, drop) == s
  {
    if s != [] {
      RemoveIfNothing(s[..|s| - 1], drop);
    }
  }

  /** Two removeIf passes in a row drop what either predicate drops. */
  lemma {:induction false} RemoveIfTwice<T>(s: seq<T>, d1: T -> bool, d2: T -> bool, both: T -> bool)
    requires forall x :: both(x) == (d1(x) || d2(x))
    ensures RemoveIf(RemoveIf(s, d1), d2) == RemoveIf(s, both)
  {
    if s != [] {
      var last := s[|s| - 1];
      RemoveIfTwice(s[..|s| - 1], d1, d2, both);
      RemoveIfConcat(RemoveIf(s[..|s| - 1], d1), if d1(last) then [] else [last], d2);
    }
  }

  /**
   * removeIf on an ArrayList: compacts the kept elements of a[..n] to the
   * front in their order and returns how many there are.
   */
  method RemoveIfInPlace<T>(a: array<T>, n: nat, drop: T -> bool) returns (m: nat)
    requires n <= a.Length
    modifies a
    ensures m <= n
    ensures a[..m] == RemoveIf(old(a[..n]), drop)
    ensures a[n..] == old(a[n..])
  {
    ghost var s := a[..n];
    m := 0;
    var i := 0;
    while i < n
      invariant m <= i <= n
      invariant a[..m] == RemoveIf(s[..i], drop)
      invariant forall k :: i <= k < a.Length ==> a[k] == old(a[k])
    {
      var x := a[i];
      assert x == s[i];
      assert s[..i + 1][..i] == s[..i];
      if !drop(x) {
        a[m] := x;
        m := m + 1;
      }
      i := i + 1;
    }
    assert s[..n] == s;
    assert a[n..] == old(a[n..]);
  }
}
