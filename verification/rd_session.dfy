/** A whole R&D session: rounds played one after another, each round's
    cumulative payoffs carried into the next. The two games differ only in
    how a round is paid. */
module RdSession {
  import opened Common
  import opened RdInvestment
  import RdWinnerTakesAll
  import RdSpillover

  /** Which game is played, with the session flag that game reads. */
  datatype Variant = WinnerTakesAll(winnerTakesAll: bool) | Spillover(spillOver: bool)

  /** One round of the chosen game. */
  function SetPayoffs(v: Variant, history: seq<seq<int>>, previous: seq<int>, d: Draw): (r: RoundResult)
    requires ValidHistory(history) && |previous| == PlayersPerGroup && ValidDraw(d)
    ensures r.decision == Decide(Last(history), d)
    ensures |r.players| == PlayersPerGroup
    ensures forall i :: 0 <= i < PlayersPerGroup ==>
              r.players[i].totalInvestment == CardValue * Sum(Column(history, i))
    ensures forall i :: 0 <= i < PlayersPerGroup ==>
              r.players[i].cumulativePayoff == previous[i] + r.players[i].payoff
  {
    match v
    case WinnerTakesAll(flag) => RdWinnerTakesAll.SetPayoffs(history, previous, flag, d)
    case Spillover(flag) => RdSpillover.SetPayoffs(history, previous, flag, d)
  }

  predicate WellFormed(results: seq<RoundResult>)
  {
    forall k :: 0 <= k < |results| ==> |results[k].players| == PlayersPerGroup
  }

  /** The cumulative payoffs a round starts from: those of the round before,
      or 0 for everyone in round 1. */
  function Carried(prior: seq<RoundResult>): (c: seq<int>)
    requires WellFormed(prior)
    ensures |c| == PlayersPerGroup
  {
    if |prior| == 0 then seq(PlayersPerGroup, i => 0)
    else seq(PlayersPerGroup, i requires 0 <= i < PlayersPerGroup => Last(prior).players[i].cumulativePayoff)
  }

  predicate ValidInputs(rounds: seq<seq<int>>, draws: seq<Draw>)
  {
    |rounds| == |draws| &&
    (forall k :: 0 <= k < |rounds| ==> ValidCards(rounds[k])) &&
    (forall k :: 0 <= k < |draws| ==> ValidDraw(draws[k]))
  }

  /** `results` is a session played on `rounds` and `draws`: round k applies
      the game's round rule to the history of rounds 1..k and to the
      cumulative payoffs after round k-1. */
  predicate IsRun(v: Variant, rounds: seq<seq<int>>, draws: seq<Draw>, results: seq<RoundResult>)
  {
    && ValidInputs(rounds, draws)
    && |results| == |rounds|
    && WellFormed(results)
    && forall k {:trigger draws[k]} :: 0 <= k < |results| ==>
         results[k] == SetPayoffs(v, rounds[..k + 1], Carried(results[..k]), draws[k])
  }

  /** Round k of an extended session is round k of the session it extends. */
  lemma RunExtendsAt(
    v: Variant, rounds: seq<seq<int>>, draws: seq<Draw>, prior: seq<RoundResult>, last: RoundResult, k: int)
    requires ValidInputs(rounds, draws) && |rounds| > 0
    requires IsRun(v, rounds[..|rounds| - 1], draws[..|draws| - 1], prior)
    requires 0 <= k < |prior|
    ensures WellFormed((prior + [last])[..k])
    ensures (prior + [last])[k]
            == SetPayoffs(v, rounds[..k + 1], Carried((prior + [last])[..k]), draws[k])
  {
    var m := |rounds| - 1;
    assert prior[k] == SetPayoffs(v, rounds[..m][..k + 1], Carried(prior[..k]), draws[..m][k]);
    PrefixOfPrefix(rounds, m, k + 1);
    assert (prior + [last])[..k] == prior[..k];
  }

  /** Appending the next round's result to a session gives a session one
      round longer. */
  lemma RunExtends(v: Variant, rounds: seq<seq<int>>, draws: seq<Draw>, prior: seq<RoundResult>)
    requires ValidInputs(rounds, draws) && |rounds| > 0
    requires IsRun(v, rounds[..|rounds| - 1], draws[..|draws| - 1], prior)
    ensures IsRun(v, rounds, draws, prior + [SetPayoffs(v, rounds, Carried(prior), Last(draws))])
  {
    var m := |rounds| - 1;
    var last := SetPayoffs(v, rounds, Carried(prior), Last(draws));
    var results := prior + [last];
    assert WellFormed(results);
    forall k | 0 <= k < |results|
      ensures results[k] == SetPayoffs(v, rounds[..k + 1], Carried(results[..k]), draws[k])
    {
      if k < m {
        RunExtendsAt(v, rounds, draws, prior, last, k);
      } else {
        assert results[..k] == prior;
        assert rounds[..k + 1] == rounds;
      }
    }
  }

  /** Plays rounds 1..n on the submitted cards and draws of each round. */
  function Play(v: Variant, rounds: seq<seq<int>>, draws: seq<Draw>): (results: seq<RoundResult>)
    requires ValidInputs(rounds, draws)
    ensures IsRun(v, rounds, draws, results)
    decreases |rounds|
  {
    if |rounds| == 0 then []
    else
      var prior := Play(v, rounds[..|rounds| - 1], draws[..|draws| - 1]);
      RunExtends(v, rounds, draws, prior);
      prior + [SetPayoffs(v, rounds, Carried(prior), Last(draws))]
  }

  /** One player's payoffs, round by round. */
  function Payoffs(results: seq<RoundResult>, i: int): (ps: seq<int>)
    requires WellFormed(results) && 0 <= i < PlayersPerGroup
    ensures |ps| == |results|
    ensures forall k :: 0 <= k < |results| ==> ps[k] == results[k].players[i].payoff
  {
    seq(|results|, k requires 0 <= k < |results| => results[k].players[i].payoff)
  }

  /** In both games a player's cumulative payoff after round k is the sum of
      its payoffs in rounds 1..k. */
  lemma {:induction false} CumulativeIsSumOfPayoffs(
    v: Variant, rounds: seq<seq<int>>, draws: seq<Draw>, results: seq<RoundResult>, k: int, i: int)
    requires IsRun(v, rounds, draws, results)
    requires 0 <= k < |results| && 0 <= i < PlayersPerGroup
    ensures results[k].players[i].cumulativePayoff == Sum(Payoffs(results[..k + 1], i))
  {
    var ps := Payoffs(results[..k + 1], i);
    assert results[k] == SetPayoffs(v, rounds[..k + 1], Carried(results[..k]), draws[k]);
    assert ps[..k] == Payoffs(results[..k], i);
    if k > 0 {
      CumulativeIsSumOfPayoffs(v, rounds, draws, results, k - 1, i);
      assert results[..k][..k - 1 + 1] == results[..k];
      assert Last(results[..k]) == results[k - 1];
    } else {
      assert ps[..0] == [];
    }
  }

  /** A player's total investment after round k is the card value times its
      cards in rounds 1..k. */
  lemma RoundTotalInvestment(
    v: Variant, rounds: seq<seq<int>>, draws: seq<Draw>, results: seq<RoundResult>, k: int, i: int)
    requires IsRun(v, rounds, draws, results)
    requires 0 <= k < |results| && 0 <= i < PlayersPerGroup
    ensures results[k].players[i].totalInvestment == CardValue * Sum(Column(rounds[..k + 1], i))
  {
    assert results[k] == SetPayoffs(v, rounds[..k + 1], Carried(results[..k]), draws[k]);
  }

  /** A player's total investment after round k is at most 250*k and never
      smaller than after any earlier round. */
  lemma TotalInvestmentGrows(
    v: Variant, rounds: seq<seq<int>>, draws: seq<Draw>, results: seq<RoundResult>, j: int, k: int, i: int)
    requires IsRun(v, rounds, draws, results)
    requires 0 <= j <= k < |results| && 0 <= i < PlayersPerGroup
    ensures 0 <= results[k].players[i].totalInvestment <= CardsPerPlayer * CardValue * (k + 1)
    ensures results[j].players[i].totalInvestment <= results[k].players[i].totalInvestment
  {
    RoundTotalInvestment(v, rounds, draws, results, j, i);
    RoundTotalInvestment(v, rounds, draws, results, k, i);
    CardsGrowWithHistory(rounds[..k + 1], i, j + 1);
    PrefixOfPrefix(rounds, k + 1, j + 1);
  }
}
