/**
 * What applyFilters shows: the loaded records that pass the name search and
 * the team selection, stably sorted on the chosen key in the chosen
 * direction, numbered from 1.
 */
module View {
  import opened Wrappers
  import opened Text
  import opened Players
  import opened Lists
  import opened Sorting
  import opened Teams

  // ---------------------------------------------------------------------------
  // The two filter stages
  // ---------------------------------------------------------------------------

  /** The name-stage removeIf predicate: the lower-cased name does not contain `needle`. */
  function NameMismatch(needle: string): Player -> bool
  {
    (p: Player) => !Contains(ToLower(p.name), needle)
  }

  /** The team-stage removeIf predicate: the team is not exactly `team`. */
  function OtherTeam(team: string): Player -> bool
  {
    (p: Player) => p.team != team
  }

  /** The name stage runs only when the lower-cased search text is not empty. */
  function NameStage(s: seq<Player>, searchText: string): seq<Player>
  {
    var needle := ToLower(searchText);
    if needle == [] then s else RemoveIf(s, NameMismatch(needle))
  }

  /** The team stage runs only for a selection other than null and "All Teams". */
  function TeamStage(s: seq<Player>, selected: Option<string>): seq<Player>
  {
    if selected.Some? && selected.value != AllTeams then RemoveIf(s, OtherTeam(selected.value)) else s
  }

  function Filtered(all: seq<Player>, searchText: string, selected: Option<string>): seq<Player>
  {
    TeamStage(NameStage(all, searchText), selected)
  }

  /** Whether a record passes both filters, stated on the record alone. */
  predicate Kept(p: Player, searchText: string, selected: Option<string>)
  {
    && (searchText == [] || Contains(ToLower(p.name), ToLower(searchText)))
    && (selected.None? || selected.value == AllTeams || p.team == selected.value)
  }

  // ---------------------------------------------------------------------------
  // The comparator and the view
  // ---------------------------------------------------------------------------

  /** The lambda the sort switch hands to List.sort for key `k`. */
  function ComparatorFor(k: SortKey, ascending: bool): Comparison
  {
    (p, q) => Comparator(p, q, k, ascending)
  }

  function View(all: seq<Player>, searchText: string, selected: Option<string>, k: SortKey, ascending: bool): seq<Player>
  {
    SortBy(Filtered(all, searchText, selected), ComparatorFor(k, ascending))
  }

  /** A table row: the rank column and the record shown in the other eight columns. */
  datatype Row = Row(rank: nat, player: Player)

  /** The rows added to the table model for `s`, numbered from 1 in order. */
  function Ranked(s: seq<Player>): (r: seq<Row>)
    ensures |r| == |s|
    ensures forall i :: 0 <= i < |s| ==> r[i].player == s[i] && r[i].rank == i + 1
  {
    seq(|s|, i requires 0 <= i < |s| => Row(i + 1, s[i]))
  }

  /** The loop that adds the rows to the table model, numbering them from 1. */
  method NumberRows(s: seq<Player>) returns (rows: seq<Row>)
    ensures rows == Ranked(s)
  {
    rows := [];
    for i := 0 to |s|
      invariant rows == Ranked(s[..i])
    {
      rows := rows + [Row(i + 1, s[i])];
    }
    assert s[..|s|] == s;
  }

  /**
   * The list work of applyFilters: a fresh copy of the records, the
   * removeIf of each stage that runs, and List.sort with the key's
   * comparator.
   */
  method FilterAndSort(all: seq<Player>, searchText: string, selected: Option<string>, k: SortKey, ascending: bool)
    returns (shown: seq<Player>)
    ensures shown == View(all, searchText, selected, k, ascending)
  {
    var filtered := new Player[|all|](i requires 0 <= i < |all| => all[i]);
    var n := filtered.Length;
    assert filtered[..n] == all;
    var needle := ToLower(searchText);
    if needle != [] {
      n := RemoveIfInPlace(filtered, n, NameMismatch(needle));
    }
    assert filtered[..n] == NameStage(all, searchText);
    if selected.Some? && selected.value != AllTeams {
      ghost var named := filtered[..n];
      n := RemoveIfInPlace(filtered, n, OtherTeam(selected.value));
      assert filtered[..n] == RemoveIf(named, OtherTeam(selected.value));
    }
    assert filtered[..n] == Filtered(all, searchText, selected);
    InsertionSort(filtered, n, ComparatorFor(k, ascending));
    shown := filtered[..n];
  }

  /** `q` comes no earlier than `p` in the chosen order: not below when ascending, not above otherwise. */
  predicate InOrder(p: Player, q: Player, k: SortKey, ascending: bool)
  {
    if ascending then CompareBy(p, q, k) <= 0 else CompareBy(p, q, k) >= 0
  }

  // ---------------------------------------------------------------------------
  // Properties
  // ---------------------------------------------------------------------------

  /** Both directions' comparators are valid for List.sort, swap each other's arguments, and tie on equal keys. */
  lemma ComparatorForValid(k: SortKey, ascending: bool)
    ensures TotalPreorder(ComparatorFor(k, ascending))
    ensures Opposite(ComparatorFor(k, true), ComparatorFor(k, false))
    ensures forall p, q :: ComparatorFor(k, ascending)(p, q) == 0 <==> SameKey(p, q, k)
  {
    var cmp := ComparatorFor(k, ascending);
    forall p, q ensures Antisymmetric(cmp, p, q) && (cmp(p, q) == 0 <==> SameKey(p, q, k)) {
      ComparatorFlip(p, q, k, ascending);
    }
    forall p, q, r ensures Transitive(cmp, p, q, r) {
      if cmp(p, q) <= 0 && cmp(q, r) <= 0 {
        ComparatorTransitive(p, q, r, k, ascending);
      }
    }
  }

  /** The filter stages keep exactly the records that pass both tests, each as often as it was loaded. */
  lemma FilteredCounts(all: seq<Player>, searchText: string, selected: Option<string>)
    ensures forall p :: multiset(Filtered(all, searchText, selected))[p] == if Kept(p, searchText, selected) then multiset(all)[p] else 0
  {
    var needle := ToLower(searchText);
    var named := NameStage(all, searchText);
    if needle != [] {
      RemoveIfCounts(all, NameMismatch(needle));
    }
    if selected.Some? && selected.value != AllTeams {
      RemoveIfCounts(named, OtherTeam(selected.value));
    }
  }

  /** The view is a permutation of exactly the records that pass both filters. */
  lemma ViewContents(all: seq<Player>, searchText: string, selected: Option<string>, k: SortKey, ascending: bool)
    ensures forall p :: multiset(View(all, searchText, selected, k, ascending))[p] == if Kept(p, searchText, selected) then multiset(all)[p] else 0
    ensures forall p :: p in View(all, searchText, selected, k, ascending) <==> p in all && Kept(p, searchText, selected)
  {
    var v := View(all, searchText, selected, k, ascending);
    SortByPermutes(Filtered(all, searchText, selected), ComparatorFor(k, ascending));
    FilteredCounts(all, searchText, selected);
    forall p ensures p in v <==> p in all && Kept(p, searchText, selected) {
      assert p in v <==> multiset(v)[p] > 0;
      assert p in all <==> multiset(all)[p] > 0;
    }
  }

  /** The view is ordered by the chosen key in the chosen direction. */
  lemma ViewOrdered(all: seq<Player>, searchText: string, selected: Option<string>, k: SortKey, ascending: bool)
    ensures forall i, j :: 0 <= i < j < |View(all, searchText, selected, k, ascending)| ==>
      InOrder(View(all, searchText, selected, k, ascending)[i], View(all, searchText, selected, k, ascending)[j], k, ascending)
  {
    var cmp := ComparatorFor(k, ascending);
    var v := View(all, searchText, selected, k, ascending);
    ComparatorForValid(k, ascending);
    SortBySorted(Filtered(all, searchText, selected), cmp);
    forall i, j | 0 <= i < j < |v| ensures InOrder(v[i], v[j], k, ascending) {
      assert cmp(v[i], v[j]) <= 0;
      CompareByFlip(v[i], v[j], k);
    }
  }

  /** On a numeric key the view's statistics never decrease when ascending and never increase otherwise. */
  lemma ViewOrderedByStat(all: seq<Player>, searchText: string, selected: Option<string>, k: SortKey, ascending: bool, i: nat, j: nat)
    requires k != PlayerName
    requires i < j < |View(all, searchText, selected, k, ascending)|
    ensures ascending ==> Stat(View(all, searchText, selected, k, ascending)[i], k) <= Stat(View(all, searchText, selected, k, ascending)[j], k)
    ensures !ascending ==> Stat(View(all, searchText, selected, k, ascending)[i], k) >= Stat(View(all, searchText, selected, k, ascending)[j], k)
  {
    ViewOrdered(all, searchText, selected, k, ascending);
  }

  /** Records tying on the key keep their post-filter relative order, in either direction. */
  lemma ViewStable(all: seq<Player>, searchText: string, selected: Option<string>, k: SortKey, ascending: bool)
    ensures forall r :: Ties(View(all, searchText, selected, k, ascending), r, ComparatorFor(k, ascending))
                     == Ties(Filtered(all, searchText, selected), r, ComparatorFor(k, ascending))
  {
    ComparatorForValid(k, ascending);
    SortByStable(Filtered(all, searchText, selected), ComparatorFor(k, ascending));
  }

  /** Without ties on the key, the descending view is the ascending view reversed. */
  lemma DescendingReversesAscending(all: seq<Player>, searchText: string, selected: Option<string>, k: SortKey)
    requires forall i, j :: 0 <= i < j < |Filtered(all, searchText, selected)| ==>
      !SameKey(Filtered(all, searchText, selected)[i], Filtered(all, searchText, selected)[j], k)
    ensures View(all, searchText, selected, k, false) == Reverse(View(all, searchText, selected, k, true))
  {
    var up := ComparatorFor(k, true);
    ComparatorForValid(k, true);
    ComparatorForValid(k, false);
    OppositeReverses(Filtered(all, searchText, selected), up, ComparatorFor(k, false));
  }

  /** With a tie the two directions list the tied records in the same order, so neither is the other reversed. */
  lemma TiesKeepOrderInBothDirections()
    ensures var a := Player("A", "T", 10.0, 1.0, 1.0, 1.0, 1.0, 5.0);
            var b := Player("B", "T", 20.0, 2.0, 2.0, 2.0, 2.0, 5.0);
            && View([a, b], "", None, MvpScore, true) == [a, b]
            && View([a, b], "", None, MvpScore, false) == [a, b]
            && View([a, b], "", None, MvpScore, false) != Reverse(View([a, b], "", None, MvpScore, true))
  {
    var a := Player("A", "T", 10.0, 1.0, 1.0, 1.0, 1.0, 5.0);
    var b := Player("B", "T", 20.0, 2.0, 2.0, 2.0, 2.0, 5.0);
    assert [a, b][..1] == [a];
    assert [a][..0] == [];
    assert Reverse([a, b])[0] == b;
  }

  /** When every record already belongs to the selected team, the team stage removes nothing. */
  lemma OneTeamStageKeepsAll(s: seq<Player>, team: string)
    requires forall i :: 0 <= i < |s| ==> s[i].team == team
    ensures TeamStage(s, Some(team)) == s
  {
    if team != AllTeams {
      RemoveIfNothing(s, OtherTeam(team));
    }
  }

  /** Empty search text and the "All Teams" entry leave every record in the view. */
  lemma NoFilterKeepsAll(all: seq<Player>, selected: Option<string>, k: SortKey, ascending: bool)
    requires selected == None || selected == Some(AllTeams)
    ensures multiset(View(all, "", selected, k, ascending)) == multiset(all)
  {
    SortByPermutes(all, ComparatorFor(k, ascending));
  }

  /** The view after a reset: every record, by MVP score from the highest, ties in load order. */
  lemma ResetView(all: seq<Player>)
    ensures View(all, "", Some(AllTeams), MvpScore, false) == SortBy(all, ComparatorFor(MvpScore, false))
    ensures forall i, j :: 0 <= i < j < |all| ==>
      SortBy(all, ComparatorFor(MvpScore, false))[i].mvpScore >= SortBy(all, ComparatorFor(MvpScore, false))[j].mvpScore
  {
    ViewOrdered(all, "", Some(AllTeams), MvpScore, false);
  }
}
