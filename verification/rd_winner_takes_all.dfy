/** Payoffs of the winner-takes-all R&D game: every round's payoff charges
    only that round's cards, and a failed round still costs the cards. */
module RdWinnerTakesAll {
  import opened Common
  import opened RdInvestment

  /** Record of firm `i` after a round decided as `d`: the payoff charges this
      round's cards only, and with the session flag off a losing firm receives
      the spillover reward minus its card count, without the card-value
      multiplier. */
  function Settle(history: seq<seq<int>>, previous: seq<int>, winnerTakesAll: bool, d: Decision, i: int): (p: PlayerRecord)
    requires ValidHistory(history) && |previous| == PlayersPerGroup && 0 <= i < PlayersPerGroup
    ensures p.totalInvestment == CardValue * Sum(Column(history, i))
    ensures p.cumulativePayoff == previous[i] + p.payoff
    ensures -CardsPerPlayer * CardValue <= p.payoff <= SuccessReward
    ensures !d.successful ==> p.payoff == -CardValue * Last(history)[i]
    ensures d.successful && d.successfulPlayer == Some(i) ==>
              p.payoff == SuccessReward - CardValue * Last(history)[i]
    ensures d.successful && d.successfulPlayer != Some(i) && winnerTakesAll ==>
              p.payoff == -CardValue * Last(history)[i]
    ensures d.successful && d.successfulPlayer != Some(i) && !winnerTakesAll ==>
              p.payoff == SpilloverReward - Last(history)[i]
  {
    var cards := Last(history)[i];
    var payoff :=
      if !d.successful then -cards * CardValue
      else if d.successfulPlayer == Some(i) then SuccessReward - cards * CardValue
      else if winnerTakesAll then -cards * CardValue
      else SpilloverReward - cards;
    PlayerRecord(payoff, TotalInvestmentOf(history, i), previous[i] + payoff)
  }

  /** One round: decide the group outcome from the current (last) round of
      `history`, then pay every firm and carry its running totals forward from
      `previous`, the cumulative payoffs after the round before (all 0 in
      round 1). */
  function SetPayoffs(history: seq<seq<int>>, previous: seq<int>, winnerTakesAll: bool, d: Draw): (r: RoundResult)
    requires ValidHistory(history) && |previous| == PlayersPerGroup && ValidDraw(d)
    ensures r.decision == Decide(Last(history), d)
    ensures |r.players| == PlayersPerGroup
    ensures forall i :: 0 <= i < PlayersPerGroup ==>
              r.players[i].totalInvestment == CardValue * Sum(Column(history, i))
    ensures forall i :: 0 <= i < PlayersPerGroup ==>
              r.players[i].cumulativePayoff == previous[i] + r.players[i].payoff
    ensures forall i :: 0 <= i < PlayersPerGroup ==>
              -CardsPerPlayer * CardValue <= r.players[i].payoff <= SuccessReward
    ensures !r.decision.successful ==>
              forall i :: 0 <= i < PlayersPerGroup ==> r.players[i].payoff == -CardValue * Last(history)[i]
    ensures r.decision.successful ==>
              var w := r.decision.successfulPlayer.value;
              r.players[w].payoff == SuccessReward - CardValue * Last(history)[w]
    ensures r.decision.successful && winnerTakesAll ==>
              forall i :: 0 <= i < PlayersPerGroup && Some(i) != r.decision.successfulPlayer ==>
                r.players[i].payoff == -CardValue * Last(history)[i]
    ensures r.decision.successful && !winnerTakesAll ==>
              forall i :: 0 <= i < PlayersPerGroup && Some(i) != r.decision.successfulPlayer ==>
                r.players[i].payoff == SpilloverReward - Last(history)[i]
  {
    var dec := Decide(Last(history), d);
    var players := seq(PlayersPerGroup, i requires 0 <= i < PlayersPerGroup =>
      Settle(history, previous, winnerTakesAll, dec, i));
    assert forall i :: 0 <= i < PlayersPerGroup ==> players[i] == Settle(history, previous, winnerTakesAll, dec, i);
    RoundResult(dec, players)
  }
}
