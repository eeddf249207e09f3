/** The two-stage effort contest: two players with private unit costs each
    choose an effort; the higher effort wins. The winner's share of the round's
    pool is chosen by a tier table on the winner's spending (cost times
    effort), and each player's payoff is its reward minus its own spending. */
module Contest {

  const PlayersPerGroup: int := 2
  const NumRounds: int := 2
  const MinCost: int := 1
  const MaxCost: int := 100

  /** The winner pool of round 1 and of round 2. */
  const WinnerRewards: seq<int> := [500, 1500]
  const LoserRewards: seq<int> := [0, 0]

  predicate ValidRound(round: int)
  {
    1 <= round <= NumRounds
  }

  /** The unit costs drawn once per session, one per participant slot. */
  predicate ValidCosts(costs: seq<int>)
  {
    forall i :: 0 <= i < |costs| ==> MinCost <= costs[i] <= MaxCost
  }

  /** The cost of the participant in slot `idInSubsession` (counted from 1). */
  function CostOf(costs: seq<int>, idInSubsession: int): (c: int)
    requires ValidCosts(costs) && 1 <= idInSubsession <= |costs|
    ensures MinCost <= c <= MaxCost
  {
    costs[idInSubsession - 1]
  }

  /** The largest effort a player may enter: the round's winner pool divided by
      the player's cost, truncated. */
  function EffortMax(round: int, cost: int): (m: int)
    requires ValidRound(round) && MinCost <= cost <= MaxCost
    ensures m * cost <= WinnerRewards[round - 1] < (m + 1) * cost
    ensures m >= WinnerRewards[round - 1] / MaxCost
  {
    WinnerRewards[round - 1] / cost
  }

  /** An effort that passes the entry form's bounds never costs more than the
      round's winner pool. */
  lemma EffortWithinPool(round: int, cost: int, effort: int)
    requires ValidRound(round) && MinCost <= cost <= MaxCost
    requires 0 <= effort <= EffortMax(round, cost)
    ensures 0 <= cost * effort <= WinnerRewards[round - 1]
  {
    var m := EffortMax(round, cost);
    assert cost * effort <= cost * m;
  }

  datatype Contestant = Contestant(cost: int, effort: int)

  /** What one player's record holds after a round: reward, outcome flag
      (2 win, 1 tie, 0 loss) and payoff. */
  datatype Standing = Standing(reward: int, winFlag: int)
  datatype Outcome = Outcome(reward: int, winFlag: int, payoff: int)

  /** Winner and loser rewards of a round for a winner who spent `value`. */
  function WinnerSplit(round: int, value: int): (int, int)
  {
    if round == 1 then
      if value < 300 then (350, 150)
      else if value < 400 then (450, 50)
      else (500, 0)
    else
      if value < 1300 then (1100, 400)
      else if value < 1400 then (1400, 100)
      else (1500, 0)
  }

  /** The winner and loser rewards always exhaust the round's pool, the winner
      getting more than the loser, and a winner who spends more keeps at least
      as much of the pool. */
  lemma WinnerSplitShares(round: int, v1: int, v2: int)
    requires ValidRound(round)
    ensures WinnerSplit(round, v1).0 + WinnerSplit(round, v1).1 == WinnerRewards[round - 1]
    ensures WinnerSplit(round, v1).0 > WinnerSplit(round, v1).1 >= LoserRewards[round - 1]
    ensures v1 <= v2 ==> WinnerSplit(round, v1).0 <= WinnerSplit(round, v2).0
  {
  }

  /** Each player's reward in a tie. */
  function TieReward(round: int): int
  {
    if round == 1 then 250 else 750
  }

  /** One pass of the settling loop, seen from `me` facing `opp`: the rewards
      and flags it assigns to me and to my opponent. */
  function Settle(round: int, me: Contestant, opp: Contestant): (Standing, Standing)
  {
    if me.effort > opp.effort then
      var (w, l) := WinnerSplit(round, me.cost * me.effort);
      (Standing(w, 2), Standing(l, 0))
    else if me.effort == opp.effort then
      (Standing(TieReward(round), 1), Standing(TieReward(round), 1))
    else
      var (w, l) := WinnerSplit(round, opp.cost * opp.effort);
      (Standing(l, 0), Standing(w, 2))
  }

  /** The pass seen from the other side assigns exactly the same standings:
      the loser branch mirrors the winner branch. */
  lemma SettleSymmetric(round: int, a: Contestant, b: Contestant)
    ensures Settle(round, b, a) == (Settle(round, a, b).1, Settle(round, a, b).0)
  {
  }

  /** Settles a round between player 1 (index 0) and player 2: the loop visits
      player 1 then player 2, each pass overwriting both records, and each
      player's payoff is its reward minus its spending. */
  function SetPayoffs(round: int, players: seq<Contestant>): (r: seq<Outcome>)
    requires ValidRound(round) && |players| == PlayersPerGroup
    ensures |r| == PlayersPerGroup
    ensures forall i :: 0 <= i < PlayersPerGroup ==>
              r[i].payoff == r[i].reward - players[i].cost * players[i].effort
    ensures r[0].reward + r[1].reward == WinnerRewards[round - 1]
    ensures players[0].effort > players[1].effort ==>
              r[0].winFlag == 2 && r[1].winFlag == 0
              && (r[0].reward, r[1].reward) == WinnerSplit(round, players[0].cost * players[0].effort)
    ensures players[0].effort < players[1].effort ==>
              r[0].winFlag == 0 && r[1].winFlag == 2
              && (r[1].reward, r[0].reward) == WinnerSplit(round, players[1].cost * players[1].effort)
    ensures players[0].effort == players[1].effort ==>
              r[0].winFlag == 1 && r[1].winFlag == 1
              && r[0].reward == r[1].reward && 2 * r[0].reward == WinnerRewards[round - 1]
  {
    var (p1, p2) := Settle(round, players[0], players[1]);
    var (q2, q1) := Settle(round, players[1], players[0]);
    SettleSymmetric(round, players[0], players[1]);
    WinnerSplitShares(round, 0, 0);
    WinnerSplitShares(round, players[0].cost * players[0].effort, 0);
    WinnerSplitShares(round, players[1].cost * players[1].effort, 0);
    [ Outcome(q1.reward, q1.winFlag, q1.reward - players[0].cost * players[0].effort),
      Outcome(q2.reward, q2.winFlag, q2.reward - players[1].cost * players[1].effort) ]
  }

  /** The second pass of the loop changes nothing: the result is what the
      first pass alone assigns. */
  lemma SecondPassChangesNothing(round: int, players: seq<Contestant>)
    requires ValidRound(round) && |players| == PlayersPerGroup
    ensures var (p1, p2) := Settle(round, players[0], players[1]);
            var r := SetPayoffs(round, players);
            r[0].reward == p1.reward && r[0].winFlag == p1.winFlag
            && r[1].reward == p2.reward && r[1].winFlag == p2.winFlag
  {
    SettleSymmetric(round, players[0], players[1]);
  }

  /** Swapping the two players swaps their outcomes. */
  lemma OutcomeIndependentOfOrder(round: int, a: Contestant, b: Contestant)
    requires ValidRound(round)
    ensures SetPayoffs(round, [b, a]) == [SetPayoffs(round, [a, b])[1], SetPayoffs(round, [a, b])[0]]
  {
    SettleSymmetric(round, a, b);
  }

  /** With efforts inside the entry form's bounds, each payoff is at least the
      player's reward minus the round's pool. */
  lemma PayoffFloor(round: int, players: seq<Contestant>)
    requires ValidRound(round) && |players| == PlayersPerGroup
    requires forall i :: 0 <= i < PlayersPerGroup ==>
               MinCost <= players[i].cost <= MaxCost && 0 <= players[i].effort <= EffortMax(round, players[i].cost)
    ensures forall i :: 0 <= i < PlayersPerGroup ==>
              SetPayoffs(round, players)[i].payoff >= SetPayoffs(round, players)[i].reward - WinnerRewards[round - 1]
  {
    EffortWithinPool(round, players[0].cost, players[0].effort);
    EffortWithinPool(round, players[1].cost, players[1].effort);
  }

  /** A round between the participants in slots id1 and id2, each charged the
      cost the session drew for its slot: each payoff is the reward minus that
      cost times the effort, and with in-bounds efforts at least the reward
      minus the pool. */
  lemma SlotCostsSettle(round: int, costs: seq<int>, id1: int, id2: int, e1: int, e2: int)
    requires ValidRound(round) && ValidCosts(costs)
    requires 1 <= id1 <= |costs| && 1 <= id2 <= |costs|
    requires 0 <= e1 <= EffortMax(round, CostOf(costs, id1))
    requires 0 <= e2 <= EffortMax(round, CostOf(costs, id2))
    ensures var r := SetPayoffs(round, [Contestant(CostOf(costs, id1), e1), Contestant(CostOf(costs, id2), e2)]);
            && r[0].payoff == r[0].reward - costs[id1 - 1] * e1
            && r[1].payoff == r[1].reward - costs[id2 - 1] * e2
            && r[0].payoff >= r[0].reward - WinnerRewards[round - 1]
            && r[1].payoff >= r[1].reward - WinnerRewards[round - 1]
  {
    var players := [Contestant(CostOf(costs, id1), e1), Contestant(CostOf(costs, id2), e2)];
    PayoffFloor(round, players);
  }

  /** Round 1, costs 5 and 3, efforts 60 and 50: the first player wins with
      spending 300, which falls in the middle tier, so the rewards are 450 and
      50 and the payoffs 150 and -100. */
  lemma FirstRoundExample()
    ensures SetPayoffs(1, [Contestant(5, 60), Contestant(3, 50)])
            == [Outcome(450, 2, 150), Outcome(50, 0, -100)]
  {
  }
}
