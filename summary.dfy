/**
 * updateStats: the status line after a load reports how many records were
 * loaded, their mean MVP score and the first record, which the text calls
 * the top player.
 */
module Summary {
  import opened Players

  /** What the status label shows; the "%.1f" rendering of the numbers is not modelled. */
  datatype Status =
    | Ready                                                          // the label as created
    | NoData                                                         // "No data loaded"
    | Loaded(count: nat, average: real, topName: string, topScore: real)

  function SumScores(players: seq<Player>): real
  {
    if players == [] then 0.0 else SumScores(players[..|players| - 1]) + players[|players| - 1].mvpScore
  }

  /** The status after a load that reached the end of the file. */
  function Summarize(players: seq<Player>): (st: Status)
    ensures players == [] <==> st == NoData
    ensures st.Loaded? <==> players != []
    ensures st.Loaded? ==> st.count == |players| && st.topName == players[0].name && st.topScore == players[0].mvpScore
  {
    if players == [] then NoData
    else Loaded(|players|, SumScores(players) / (|players| as real), players[0].name, players[0].mvpScore)
  }

  lemma {:induction false} SumBounds(players: seq<Player>, lo: real, hi: real)
    requires forall i :: 0 <= i < |players| ==> lo <= players[i].mvpScore <= hi
    ensures (|players| as real) * lo <= SumScores(players) <= (|players| as real) * hi
  {
    if players != [] {
      var init := players[..|players| - 1];
      SumBounds(init, lo, hi);
      assert (|players| as real) * lo == (|init| as real) * lo + lo;
      assert (|players| as real) * hi == (|init| as real) * hi + hi;
    }
  }

  /** The mean lies between any lower and upper bound of the scores. */
  lemma MeanBounds(players: seq<Player>, lo: real, hi: real)
    requires players != []
    requires forall i :: 0 <= i < |players| ==> lo <= players[i].mvpScore <= hi
    ensures lo <= Summarize(players).average <= hi
  {
    SumBounds(players, lo, hi);
    QuotientBounds(SumScores(players), |players| as real, lo, hi);
  }

  lemma QuotientBounds(sum: real, n: real, lo: real, hi: real)
    requires n > 0.0 && n * lo <= sum <= n * hi
    ensures lo <= sum / n <= hi
  {
    var q := sum / n;
    assert q * n == sum;
    assert (q - lo) * n == sum - n * lo;
    assert (hi - q) * n == n * hi - sum;
  }

  /** The "top" player is the first record, not the one with the highest score. */
  lemma TopNeedNotBeBest()
    ensures var a := Player("A", "T", 0.0, 0.0, 0.0, 0.0, 0.0, 1.0);
            var b := Player("B", "T", 0.0, 0.0, 0.0, 0.0, 0.0, 5.0);
            Summarize([a, b]).topName == "A" && Summarize([a, b]).topScore < b.mvpScore
  {
  }
}
