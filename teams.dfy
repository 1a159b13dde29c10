/**
 * updateTeamFilter: the team combo box lists "All Teams" and then every
 * team of the loaded records once, in the iteration order of a TreeSet of
 * strings, which is ascending String.compareTo order.
 */
module Teams {
  import opened Text
  import opened Players

  /** The first entry of the team combo box, which selects every team. */
  const AllTeams: string := "All Teams"

  /** `a` sorts strictly before `b` under String.compareTo. */
  predicate Before(a: string, b: string)
  {
    CompareText(a, b) < 0
  }

  /** The contents of a TreeSet, in its iteration order. */
  predicate StrictlyAscending(t: seq<string>)
  {
    forall i, j :: 0 <= i < j < |t| ==> Before(t[i], t[j])
  }

  lemma BeforeIrreflexive(a: string)
    ensures !Before(a, a)
  {
    CompareTextZero(a, a);
  }

  lemma BeforeTotal(a: string, b: string)
    requires a != b && !Before(a, b)
    ensures Before(b, a)
  {
    CompareTextZero(a, b);
    CompareTextFlip(a, b);
  }

  /** TreeSet.add: the set gains `x` and stays in ascending order. */
  function TreeAdd(t: seq<string>, x: string): (r: seq<string>)
    requires StrictlyAscending(t)
    ensures StrictlyAscending(r)
    ensures forall y :: y in r <==> y in t || y == x
  {
    if t == [] then [x]
    else if x == t[0] then t
    else if Before(x, t[0]) then
      BeforeAll(x, t);
      [x] + t
    else
      BeforeTotal(x, t[0]);
      var rest := TreeAdd(t[1..], x);
      assert forall y :: y in rest ==> y in t[1..] || y == x;
      AfterHead(t, rest);
      [t[0]] + rest
  }

  /** An element before the head of an ascending sequence is before all of it. */
  lemma BeforeAll(x: string, t: seq<string>)
    requires StrictlyAscending(t) && t != [] && Before(x, t[0])
    ensures StrictlyAscending([x] + t)
  {
    forall j | 0 < j < |t| ensures Before(x, t[j]) {
      CompareTextStrict(x, t[0], t[j]);
    }
  }

  /** The head of an ascending sequence stays in front of an ascending sequence of later elements. */
  lemma AfterHead(t: seq<string>, rest: seq<string>)
    requires StrictlyAscending(t) && t != [] && StrictlyAscending(rest)
    requires forall y :: y in rest ==> y in t[1..] || Before(t[0], y)
    ensures StrictlyAscending([t[0]] + rest)
  {
    forall j | 0 <= j < |rest| ensures Before(t[0], rest[j]) {
      if rest[j] in t[1..] {
        var k :| 0 <= k < |t[1..]| && t[1..][k] == rest[j];
        assert t[k + 1] == rest[j];
      }
    }
  }

  /** The teams of `players`, added one record at a time as the loop adds them. */
  function DistinctTeams(players: seq<Player>): (r: seq<string>)
    ensures StrictlyAscending(r)
  {
    if players == [] then [] else TreeAdd(DistinctTeams(players[..|players| - 1]), players[|players| - 1].team)
  }

  /** The entries of the team combo box after a load. */
  function TeamItems(players: seq<Player>): seq<string>
  {
    [AllTeams] + DistinctTeams(players)
  }

  // ---------------------------------------------------------------------------
  // Properties
  // ---------------------------------------------------------------------------

  /** Each team of the records is listed exactly once, no other, in ascending order. */
  lemma {:induction false} TeamsListed(players: seq<Player>)
    ensures forall t :: t in DistinctTeams(players) <==> exists i :: 0 <= i < |players| && players[i].team == t
    ensures forall i, j :: 0 <= i < j < |DistinctTeams(players)| ==> Before(DistinctTeams(players)[i], DistinctTeams(players)[j])
    ensures forall i, j :: 0 <= i < j < |DistinctTeams(players)| ==> DistinctTeams(players)[i] != DistinctTeams(players)[j]
  {
    var r := DistinctTeams(players);
    if players != [] {
      var init := players[..|players| - 1];
      TeamsListed(init);
      forall t ensures t in r <==> exists i :: 0 <= i < |players| && players[i].team == t {
        if t in DistinctTeams(init) {
          var i :| 0 <= i < |init| && init[i].team == t;
          assert players[i].team == t;
        }
        if exists i :: 0 <= i < |players| && players[i].team == t {
          var i :| 0 <= i < |players| && players[i].team == t;
          if i < |init| {
            assert init[i].team == t;
          }
        }
      }
    }
    forall i, j | 0 <= i < j < |r| ensures r[i] != r[j] {
      BeforeIrreflexive(r[i]);
    }
  }

  /** The listing is determined by the set of teams: two ascending listings of one set are equal. */
  lemma {:induction false} AscendingUnique(a: seq<string>, b: seq<string>)
    requires StrictlyAscending(a) && StrictlyAscending(b)
    requires forall y :: y in a <==> y in b
    ensures a == b
    decreases |a|
  {
    assert a != [] ==> a[0] in b;
    assert b != [] ==> b[0] in a;
    if a != [] && b != [] {
      if a[0] != b[0] {
        assert b[0] in a;
        var i :| 0 <= i < |a| && a[i] == b[0];
        assert a[0] in b;
        var j :| 0 <= j < |b| && b[j] == a[0];
        CompareTextStrict(a[0], b[0], a[0]);
        BeforeIrreflexive(a[0]);
      }
      forall y ensures y in a[1..] <==> y in b[1..] {
        if y in a[1..] {
          var i :| 0 <= i < |a[1..]| && a[1..][i] == y;
          assert a[i + 1] == y && y != a[0] by { BeforeIrreflexive(a[0]); }
          assert y in b;
        }
        if y in b[1..] {
          var j :| 0 <= j < |b[1..]| && b[1..][j] == y;
          assert b[j + 1] == y && y != b[0] by { BeforeIrreflexive(b[0]); }
          assert y in a;
        }
      }
      AscendingUnique(a[1..], b[1..]);
      assert a == [a[0]] + a[1..] && b == [b[0]] + b[1..];
    }
  }

  /** updateTeamFilter: fills a TreeSet from the records, then lists "All Teams" and the set. */
  method CollectTeams(players: seq<Player>) returns (items: seq<string>)
    ensures items == TeamItems(players)
  {
    var teams: seq<string> := [];
    for i := 0 to |players|
      invariant teams == DistinctTeams(players[..i])
    {
      assert players[..i + 1][..i] == players[..i];
      teams := TreeAdd(teams, players[i].team);
    }
    assert players[..|players|] == players;
    items := [AllTeams];
    for i := 0 to |teams|
      invariant items == [AllTeams] + teams[..i]
    {
      assert teams[..i + 1] == teams[..i] + [teams[i]];
      items := items + [teams[i]];
    }
    assert teams[..|teams|] == teams;
  }
}
