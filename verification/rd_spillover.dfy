/** Payoffs of the spillover R&D game: a successful round settles against
    everything a firm has invested so far, and a failed round pays nothing. */
module RdSpillover {
  import opened Common
  import opened RdInvestment

  /** Record of firm `i` after a round decided as `d`: on success the payoff
      is settled against the firm's cumulative investment and added to its
      running total; on failure it is 0 and the running total stays. */
  function Settle(history: seq<seq<int>>, previous: seq<int>, spillOver: bool, d: Decision, i: int): (p: PlayerRecord)
    requires ValidHistory(history) && |previous| == PlayersPerGroup && 0 <= i < PlayersPerGroup
    ensures p.totalInvestment == CardValue * Sum(Column(history, i))
    ensures p.cumulativePayoff == previous[i] + p.payoff
    ensures !d.successful ==> p.payoff == 0 && p.cumulativePayoff == previous[i]
    ensures d.successful && d.successfulPlayer == Some(i) ==>
              p.payoff == SuccessReward - p.totalInvestment
    ensures d.successful && d.successfulPlayer != Some(i) && spillOver ==>
              p.payoff == SpilloverReward - p.totalInvestment
    ensures d.successful && d.successfulPlayer != Some(i) && !spillOver ==>
              p.payoff == -p.totalInvestment
  {
    var invested := TotalInvestmentOf(history, i);
    if d.successful then
      var payoff :=
        if d.successfulPlayer == Some(i) then SuccessReward - invested
        else if spillOver then SpilloverReward - invested
        else -invested;
      PlayerRecord(payoff, invested, previous[i] + payoff)
    else
      PlayerRecord(0, invested, previous[i])
  }

  /** One round: decide the group outcome from the current (last) round of
      `history`; on success pay every firm against its cumulative investment
      and add the payoff to its running total, on failure pay 0 and keep the
      running total `previous` (all 0 in round 1). */
  function SetPayoffs(history: seq<seq<int>>, previous: seq<int>, spillOver: bool, d: Draw): (r: RoundResult)
    requires ValidHistory(history) && |previous| == PlayersPerGroup && ValidDraw(d)
    ensures r.decision == Decide(Last(history), d)
    ensures |r.players| == PlayersPerGroup
    ensures forall i :: 0 <= i < PlayersPerGroup ==>
              r.players[i].totalInvestment == CardValue * Sum(Column(history, i))
    ensures forall i :: 0 <= i < PlayersPerGroup ==>
              r.players[i].cumulativePayoff == previous[i] + r.players[i].payoff
    ensures !r.decision.successful ==>
              forall i :: 0 <= i < PlayersPerGroup ==>
                r.players[i].payoff == 0 && r.players[i].cumulativePayoff == previous[i]
    ensures r.decision.successful ==>
              var w := r.decision.successfulPlayer.value;
              r.players[w].payoff == SuccessReward - r.players[w].totalInvestment
    ensures r.decision.successful && spillOver ==>
              forall i :: 0 <= i < PlayersPerGroup && Some(i) != r.decision.successfulPlayer ==>
                r.players[i].payoff == SpilloverReward - r.players[i].totalInvestment
    ensures r.decision.successful && !spillOver ==>
              forall i :: 0 <= i < PlayersPerGroup && Some(i) != r.decision.successfulPlayer ==>
                r.players[i].payoff == -r.players[i].totalInvestment
  {
    var dec := Decide(Last(history), d);
    var players := seq(PlayersPerGroup, i requires 0 <= i < PlayersPerGroup =>
      Settle(history, previous, spillOver, dec, i));
    assert forall i :: 0 <= i < PlayersPerGroup ==> players[i] == Settle(history, previous, spillOver, dec, i);
    RoundResult(dec, players)
  }
}
