/**
 * List.sort(comparator). The specification is an insertion sort on
 * sequences (SortBy); InsertionSort does the same work in place on an array
 * and is proved to compute it. Like Java's merge sort it is stable: elements
 * the comparator calls equal keep their relative order.
 */
module Sorting {
  import opened Players

  type Comparison = (Player, Player) -> int

  /**
   * What List.sort asks of a comparator: swapping the arguments flips the
   * sign, and "not greater" is transitive.
   */
  ghost predicate TotalPreorder(cmp: Comparison)
  {
    && (forall p, q :: Antisymmetric(cmp, p, q))
    && (forall p, q, r :: Transitive(cmp, p, q, r))
  }

  // The two conditions are stated for given elements so that a proof names
  // the instances it uses (asserting Antisymmetric(cmp, p, q) brings in the
  // fact for p and q) instead of letting the solver chain them without end.
  predicate Antisymmetric(cmp: Comparison, p: Player, q: Player)
  {
    cmp(p, q) == -cmp(q, p)
  }

  predicate Transitive(cmp: Comparison, p: Player, q: Player, r: Player)
  {
    cmp(p, q) <= 0 && cmp(q, r) <= 0 ==> cmp(p, r) <= 0
  }

  /**
   * Inserts `x` after every element of `t` that does not compare greater,
   * scanning from the back: an insertion step never moves `x` in front of
   * an equal element.
   */
  function Insert(t: seq<Player>, x: Player, cmp: Comparison): (r: seq<Player>)
    ensures |r| == |t| + 1
  {
    if t == [] then [x]
    else if cmp(t[|t| - 1], x) <= 0 then t + [x]
    else Insert(t[..|t| - 1], x, cmp) + [t[|t| - 1]]
  }

  function SortBy(s: seq<Player>, cmp: Comparison): (r: seq<Player>)
    ensures |r| == |s|
  {
    if s == [] then [] else Insert(SortBy(s[..|s| - 1], cmp), s[|s| - 1], cmp)
  }

  /** Ordered by the comparator: no pair in the wrong order. */
  predicate Sorted(s: seq<Player>, cmp: Comparison)
  {
    forall i, j :: 0 <= i < j < |s| ==> cmp(s[i], s[j]) <= 0
  }

  /** The elements of `s` that compare equal to `r`, in the order of `s`. */
  function Ties(s: seq<Player>, r: Player, cmp: Comparison): seq<Player>
  {
    if s == [] then []
    else Ties(s[..|s| - 1], r, cmp) + (if cmp(s[|s| - 1], r) == 0 then [s[|s| - 1]] else [])
  }

  function Reverse(s: seq<Player>): (r: seq<Player>)
    ensures |r| == |s|
    ensures forall i :: 0 <= i < |s| ==> r[i] == s[|s| - 1 - i]
  {
    seq(|s|, i requires 0 <= i < |s| => s[|s| - 1 - i])
  }

  // ---------------------------------------------------------------------------
  // Where the insertion step puts the new element
  // ---------------------------------------------------------------------------

  function InsertPos(t: seq<Player>, x: Player, cmp: Comparison): (m: nat)
    ensures m <= |t|
  {
    if t == [] then 0
    else if cmp(t[|t| - 1], x) <= 0 then |t|
    else InsertPos(t[..|t| - 1], x, cmp)
  }

  lemma {:induction false} InsertShape(t: seq<Player>, x: Player, cmp: Comparison)
    ensures Insert(t, x, cmp) == t[..InsertPos(t, x, cmp)] + [x] + t[InsertPos(t, x, cmp)..]
  {
    if t != [] && cmp(t[|t| - 1], x) > 0 {
      var t' := t[..|t| - 1];
      InsertShape(t', x, cmp);
      var m := InsertPos(t', x, cmp);
      assert t'[..m] == t[..m];
      assert t'[m..] + [t[|t| - 1]] == t[m..];
    }
  }

  /** Everything after the insertion point compares greater than `x`; the element before it does not. */
  lemma {:induction false} InsertPosBounds(t: seq<Player>, x: Player, cmp: Comparison)
    ensures forall i :: InsertPos(t, x, cmp) <= i < |t| ==> cmp(t[i], x) > 0
    ensures InsertPos(t, x, cmp) > 0 ==> cmp(t[InsertPos(t, x, cmp) - 1], x) <= 0
  {
    if t != [] && cmp(t[|t| - 1], x) > 0 {
      var t' := t[..|t| - 1];
      InsertPosBounds(t', x, cmp);
      forall i | InsertPos(t, x, cmp) <= i < |t| ensures cmp(t[i], x) > 0 {
        if i < |t| - 1 {
          assert t[i] == t'[i];
        }
      }
    }
  }

  /** In a sorted sequence everything before the insertion point is not greater than `x`. */
  lemma InsertPosBefore(t: seq<Player>, x: Player, cmp: Comparison)
    requires TotalPreorder(cmp) && Sorted(t, cmp)
    ensures forall i :: 0 <= i < InsertPos(t, x, cmp) ==> cmp(t[i], x) <= 0
  {
    InsertPosBounds(t, x, cmp);
    var m := InsertPos(t, x, cmp);
    forall i | 0 <= i < m ensures cmp(t[i], x) <= 0 {
      if i < m - 1 {
        assert Transitive(cmp, t[i], t[m - 1], x);
      }
    }
  }

  /**
   * Scanning from the back, Insert stops at the first element that is not
   * greater than `x`: a split point with greater elements after it and a
   * not-greater one just before it is where Insert puts `x`.
   */
  lemma {:induction false} InsertAt(t: seq<Player>, x: Player, cmp: Comparison, m: nat)
    requires m <= |t|
    requires m == 0 || cmp(t[m - 1], x) <= 0
    requires forall i :: m <= i < |t| ==> cmp(t[i], x) > 0
    ensures Insert(t, x, cmp) == t[..m] + [x] + t[m..]
  {
    if t != [] && m < |t| {
      var t' := t[..|t| - 1];
      InsertAt(t', x, cmp, m);
      assert t'[..m] == t[..m];
      assert t'[m..] + [t[|t| - 1]] == t[m..];
    }
  }

  // ---------------------------------------------------------------------------
  // What the sort promises: permutation, order, stability
  // ---------------------------------------------------------------------------

  /** Inserting adds exactly `x` to the elements. */
  lemma {:induction false} InsertPermutes(t: seq<Player>, x: Player, cmp: Comparison)
    ensures multiset(Insert(t, x, cmp)) == multiset(t) + multiset{x}
  {
    if t != [] && cmp(t[|t| - 1], x) > 0 {
      var init, last := t[..|t| - 1], t[|t| - 1];
      InsertPermutes(init, x, cmp);
      assert t == init + [last];
      assert multiset(Insert(t, x, cmp)) == multiset(Insert(init, x, cmp)) + multiset{last};
    }
  }

  /** The sorted list holds the same elements, each as often. */
  lemma {:induction false} SortByPermutes(s: seq<Player>, cmp: Comparison)
    ensures multiset(SortBy(s, cmp)) == multiset(s)
  {
    if s != [] {
      SortByPermutes(s[..|s| - 1], cmp);
      InsertPermutes(SortBy(s[..|s| - 1], cmp), s[|s| - 1], cmp);
      assert s == s[..|s| - 1] + [s[|s| - 1]];
    }
  }

  /** Putting `x` between the not-greater and the greater part of a sorted sequence keeps it sorted. */
  lemma SortedSplice(r: seq<Player>, t: seq<Player>, x: Player, m: nat, cmp: Comparison)
    requires TotalPreorder(cmp) && Sorted(t, cmp)
    requires m <= |t| && r == t[..m] + [x] + t[m..]
    requires forall i :: 0 <= i < m ==> cmp(t[i], x) <= 0
    requires forall i :: m <= i < |t| ==> cmp(t[i], x) > 0
    ensures Sorted(r, cmp)
  {
    forall i, j | 0 <= i < j < |r| ensures cmp(r[i], r[j]) <= 0 {
      if j == m {
      } else if i == m {
        assert cmp(t[j - 1], x) > 0 && Antisymmetric(cmp, t[j - 1], x);
      } else {
        var i' := if i < m then i else i - 1;
        var j' := if j < m then j else j - 1;
        assert r[i] == t[i'] && r[j] == t[j'] && i' < j';
      }
    }
  }

  lemma InsertSorted(t: seq<Player>, x: Player, cmp: Comparison)
    requires TotalPreorder(cmp) && Sorted(t, cmp)
    ensures Sorted(Insert(t, x, cmp), cmp)
  {
    InsertShape(t, x, cmp);
    InsertPosBounds(t, x, cmp);
    InsertPosBefore(t, x, cmp);
    SortedSplice(Insert(t, x, cmp), t, x, InsertPos(t, x, cmp), cmp);
  }

  /** The sorted list is in comparator order. */
  lemma {:induction false} SortBySorted(s: seq<Player>, cmp: Comparison)
    requires TotalPreorder(cmp)
    ensures Sorted(SortBy(s, cmp), cmp)
  {
    if s != [] {
      SortBySorted(s[..|s| - 1], cmp);
      InsertSorted(SortBy(s[..|s| - 1], cmp), s[|s| - 1], cmp);
    }
  }

  lemma {:induction false} TiesConcat(a: seq<Player>, b: seq<Player>, r: Player, cmp: Comparison)
    ensures Ties(a + b, r, cmp) == Ties(a, r, cmp) + Ties(b, r, cmp)
    decreases |b|
  {
    if b == [] {
      assert a + b == a;
    } else {
      assert (a + b)[..|a + b| - 1] == a + b[..|b| - 1];
      TiesConcat(a, b[..|b| - 1], r, cmp);
    }
  }

  lemma {:induction false} NoTies(s: seq<Player>, r: Player, cmp: Comparison)
    requires forall i :: 0 <= i < |s| ==> cmp(s[i], r) != 0
    ensures Ties(s, r, cmp) == []
  {
    if s != [] {
      NoTies(s[..|s| - 1], r, cmp);
    }
  }

  /** Past the insertion point of an element tied with `r`, nothing ties with `r`. */
  lemma GreaterAreNotTies(b: seq<Player>, x: Player, r: Player, cmp: Comparison)
    requires TotalPreorder(cmp)
    requires forall i :: 0 <= i < |b| ==> cmp(b[i], x) > 0
    requires cmp(x, r) == 0
    ensures Ties(b, r, cmp) == []
  {
    forall i | 0 <= i < |b| ensures cmp(b[i], r) != 0 {
      assert Antisymmetric(cmp, x, r);
      assert Transitive(cmp, b[i], r, x);
    }
    NoTies(b, r, cmp);
  }

  lemma TiesAround(before: seq<Player>, x: Player, after: seq<Player>, r: Player, cmp: Comparison)
    requires cmp(x, r) == 0 ==> Ties(after, r, cmp) == []
    ensures Ties(before + [x] + after, r, cmp) == Ties(before + after, r, cmp) + Ties([x], r, cmp)
  {
    TiesConcat(before + [x], after, r, cmp);
    TiesConcat(before, [x], r, cmp);
    TiesConcat(before, after, r, cmp);
    assert [x][..0] == [];
  }

  /** The insertion step appends `x` to its own tie group and leaves the other groups alone. */
  lemma InsertTies(t: seq<Player>, x: Player, r: Player, cmp: Comparison)
    requires TotalPreorder(cmp)
    ensures Ties(Insert(t, x, cmp), r, cmp) == Ties(t, r, cmp) + Ties([x], r, cmp)
  {
    InsertShape(t, x, cmp);
    var m := InsertPos(t, x, cmp);
    var before, after := t[..m], t[m..];
    if cmp(x, r) == 0 {
      NoTiesAfterInsert(t, x, r, cmp);
    }
    TiesAround(before, x, after, r, cmp);
    assert before + after == t;
  }

  /** Nothing after the insertion point ties with `x`. */
  lemma NoTiesAfterInsert(t: seq<Player>, x: Player, r: Player, cmp: Comparison)
    requires TotalPreorder(cmp) && cmp(x, r) == 0
    ensures Ties(t[InsertPos(t, x, cmp)..], r, cmp) == []
  {
    var m := InsertPos(t, x, cmp);
    var after := t[m..];
    InsertPosBounds(t, x, cmp);
    assert forall i :: 0 <= i < |after| ==> after[i] == t[m + i];
    GreaterAreNotTies(after, x, r, cmp);
  }

  /**
   * Stability: for every element `r`, the elements that compare equal to it
   * appear in the sorted list in the same relative order as in the input.
   */
  lemma {:induction false} SortByStable(s: seq<Player>, cmp: Comparison)
    requires TotalPreorder(cmp)
    ensures forall r :: Ties(SortBy(s, cmp), r, cmp) == Ties(s, r, cmp)
  {
    if s != [] {
      var s' := s[..|s| - 1];
      SortByStable(s', cmp);
      forall r ensures Ties(SortBy(s, cmp), r, cmp) == Ties(s, r, cmp) {
        InsertTies(SortBy(s', cmp), s[|s| - 1], r, cmp);
        assert [s[|s| - 1]][..0] == [];
      }
    }
  }

  // ---------------------------------------------------------------------------
  // Opposite directions
  // ---------------------------------------------------------------------------

  /** `down` is `up` with its arguments swapped, as the descending comparators are. */
  ghost predicate Opposite(up: Comparison, down: Comparison)
  {
    forall p, q :: down(p, q) == up(q, p)
  }

  /** No two elements of `s` compare equal. */
  predicate NoTwoEqual(s: seq<Player>, cmp: Comparison)
  {
    forall i, j :: 0 <= i < j < |s| ==> cmp(s[i], s[j]) != 0
  }

  lemma ReverseSplit(t: seq<Player>, m: nat)
    requires m <= |t|
    ensures Reverse(t)[..|t| - m] == Reverse(t[m..])
    ensures Reverse(t)[|t| - m..] == Reverse(t[..m])
  {
  }

  lemma ReverseAround(a: seq<Player>, x: Player, b: seq<Player>)
    ensures Reverse(a + [x] + b) == Reverse(b) + [x] + Reverse(a)
  {
  }

  /** In the reverse of an ascending list, the split point for `x` moves to the mirrored position. */
  lemma MirroredSplit(sorted: seq<Player>, x: Player, up: Comparison, down: Comparison, m: nat)
    requires TotalPreorder(up) && Opposite(up, down)
    requires m <= |sorted|
    requires forall i :: 0 <= i < m ==> up(sorted[i], x) < 0
    requires forall i :: m <= i < |sorted| ==> up(sorted[i], x) > 0
    ensures Insert(Reverse(sorted), x, down) == Reverse(sorted)[..|sorted| - m] + [x] + Reverse(sorted)[|sorted| - m..]
  {
    var rev := Reverse(sorted);
    forall i | 0 <= i < |sorted| - m ensures down(rev[i], x) <= 0 {
      assert rev[i] == sorted[|sorted| - 1 - i];
      assert Antisymmetric(up, rev[i], x);
    }
    forall i | |sorted| - m <= i < |sorted| ensures down(rev[i], x) > 0 {
      assert rev[i] == sorted[|sorted| - 1 - i];
      assert Antisymmetric(up, rev[i], x);
    }
    InsertAt(rev, x, down, |sorted| - m);
  }

  /** An element that ties with nothing in `s` ties with nothing in a permutation of `s`. */
  lemma NoTieWithPermutation(s: seq<Player>, t: seq<Player>, x: Player, cmp: Comparison)
    requires multiset(t) == multiset(s)
    requires forall j :: 0 <= j < |s| ==> cmp(s[j], x) != 0
    ensures forall i :: 0 <= i < |t| ==> cmp(t[i], x) != 0
  {
    forall i | 0 <= i < |t| ensures cmp(t[i], x) != 0 {
      assert t[i] in multiset(s);
      var j :| 0 <= j < |s| && s[j] == t[i];
    }
  }

  /** Without ties, sorting with the swapped comparator gives exactly the reverse order. */
  lemma {:induction false} OppositeReverses(s: seq<Player>, up: Comparison, down: Comparison)
    requires TotalPreorder(up) && Opposite(up, down)
    requires NoTwoEqual(s, up)
    ensures SortBy(s, down) == Reverse(SortBy(s, up))
  {
    if s != [] {
      var s', x := s[..|s| - 1], s[|s| - 1];
      OppositeReverses(s', up, down);
      var sorted := SortBy(s', up);
      SortByPermutes(s', up);
      SortBySorted(s', up);
      InsertShape(sorted, x, up);
      InsertPosBounds(sorted, x, up);
      InsertPosBefore(sorted, x, up);
      var m := InsertPos(sorted, x, up);
      NoTieWithPermutation(s', sorted, x, up);
      MirroredSplit(sorted, x, up, down, m);
      ReverseSplit(sorted, m);
      ReverseAround(sorted[..m], x, sorted[m..]);
    }
  }

  // ---------------------------------------------------------------------------
  // The in-place sort
  // ---------------------------------------------------------------------------

  lemma Assemble(s: seq<Player>, t: seq<Player>, j: nat, x: Player)
    requires |s| == |t| + 1 && j <= |t|
    requires forall k :: 0 <= k < j ==> s[k] == t[k]
    requires s[j] == x
    requires forall k :: j < k < |s| ==> s[k] == t[k - 1]
    ensures s == t[..j] + [x] + t[j..]
  {
  }

  /** `p` sorts strictly after `x`. */
  predicate Greater(p: Player, x: Player, cmp: Comparison)
  {
    cmp(p, x) > 0
  }

  /**
   * The inner loop of an insertion step: shifts the elements of a[..i] that
   * are greater than `x` one place right, from the back, and returns the
   * slot left free.
   */
  method ShiftGreater(a: array<Player>, i: nat, x: Player, ghost t: seq<Player>, cmp: Comparison) returns (j: nat)
    requires i < a.Length && t == a[..i]
    modifies a
    ensures j <= i
    ensures forall k :: 0 <= k < j ==> a[k] == t[k]
    ensures forall k :: j < k <= i ==> a[k] == t[k - 1]
    ensures forall k :: i < k < a.Length ==> a[k] == old(a[k])
    ensures forall k :: j <= k < i ==> Greater(t[k], x, cmp)
    ensures j == 0 || !Greater(t[j - 1], x, cmp)
  {
    j := i;
    while j > 0 && cmp(a[j - 1], x) > 0
      invariant 0 <= j <= i
      invariant forall k :: 0 <= k < j ==> a[k] == t[k]
      invariant forall k :: j < k <= i ==> a[k] == t[k - 1]
      invariant forall k :: i < k < a.Length ==> a[k] == old(a[k])
      invariant forall k :: j <= k < i ==> Greater(t[k], x, cmp)
    {
      assert a[j - 1] == t[j - 1] && Greater(t[j - 1], x, cmp);
      a[j] := a[j - 1];
      j := j - 1;
    }
    assert j > 0 ==> a[j - 1] == t[j - 1];
  }

  /** One insertion step: moves a[i] left past the greater elements of a[..i]. */
  method InsertLast(a: array<Player>, i: nat, cmp: Comparison)
    requires i < a.Length
    modifies a
    ensures a[..i + 1] == Insert(old(a[..i]), old(a[i]), cmp)
    ensures forall k :: i < k < a.Length ==> a[k] == old(a[k])
  {
    var x := a[i];
    ghost var t := a[..i];
    var j := ShiftGreater(a, i, x, t, cmp);
    a[j] := x;
    InsertAt(t, x, cmp, j);
    Assemble(a[..i + 1], t, j, x);
  }

  /** Sorting one more element inserts it into the sorted prefix. */
  lemma SortStep(s: seq<Player>, i: nat, cmp: Comparison)
    requires i < |s|
    ensures SortBy(s[..i + 1], cmp) == Insert(SortBy(s[..i], cmp), s[i], cmp)
  {
    assert s[..i + 1][..i] == s[..i];
  }

  /** Sorts a[..n] in place with `cmp`; the rest of the array is untouched. */
  method InsertionSort(a: array<Player>, n: nat, cmp: Comparison)
    requires n <= a.Length
    modifies a
    ensures a[..n] == SortBy(old(a[..n]), cmp)
    ensures a[n..] == old(a[n..])
  {
    ghost var s := a[..n];
    var i := 0;
    while i < n
      invariant 0 <= i <= n
      invariant a[..i] == SortBy(s[..i], cmp)
      invariant forall k :: i <= k < a.Length ==> a[k] == old(a[k])
    {
      assert a[i] == s[i];
      InsertLast(a, i, cmp);
      SortStep(s, i, cmp);
      i := i + 1;
    }
    assert s[..n] == s;
    assert a[n..] == old(a[n..]);
  }
}
