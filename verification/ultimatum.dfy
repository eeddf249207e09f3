/** The repeated ultimatum game with a discounted pot: two players bargain
    for at most ten rounds, the pot shrinking by a factor 0.8 each round and
    the proposer role alternating. An accepted offer fixes both final payoffs
    and ends the game; a group that has agreed or finished skips every later
    round. The agreement and finished flags are an explicit group state. */
module Ultimatum {
  import opened Common

  const PlayersPerGroup: int := 2
  const NumRounds: int := 10
  const InitialBudget: real := 1000.0
  const DiscountFactor: real := 0.8

  /** b to the power n. */
  function Pow(b: real, n: nat): real
  {
    if n == 0 then 1.0 else b * Pow(b, n - 1)
  }

  /** The pot of round r (rounds count from 1). */
  function CurrentBudget(round: int): real
    requires round >= 1
  {
    InitialBudget * Pow(DiscountFactor, round - 1)
  }

  /** The pot is 1000 in round 1, positive in every round, and each round's pot
      is 0.8 times the previous one, hence strictly smaller. */
  lemma {:induction false} BudgetShrinks(round: int)
    requires round >= 1
    ensures CurrentBudget(1) == InitialBudget
    ensures CurrentBudget(round) > 0.0
    ensures CurrentBudget(round + 1) == DiscountFactor * CurrentBudget(round)
    ensures CurrentBudget(round + 1) < CurrentBudget(round)
  {
    if round > 1 {
      BudgetShrinks(round - 1);
    }
  }

  /** The pot of round 3 is 1000 * 0.8 * 0.8 = 640. */
  lemma ThirdRoundBudget()
    ensures CurrentBudget(3) == 640.0
  {
    BudgetShrinks(2);
  }

  datatype Role = Proposer | Responder

  /** Player 1 proposes in odd rounds and responds in even ones; player 2 the
      other way round. */
  function RoleOf(idInGroup: int, round: int): Role
  {
    if idInGroup == 1 then (if round % 2 == 1 then Proposer else Responder)
    else (if round % 2 == 0 then Proposer else Responder)
  }

  /** Every round has exactly one proposer and one responder, and player 1
      proposes exactly in the odd rounds. */
  lemma OneProposerPerRound(round: int)
    ensures RoleOf(1, round) != RoleOf(2, round)
    ensures RoleOf(1, round) == Proposer <==> round % 2 == 1
    ensures RoleOf(2, round) == Proposer <==> round % 2 == 0
  {
  }

  /** The two flags the game keeps per group across rounds. */
  datatype GroupState = GroupState(agreed: bool, finished: bool)

  /** Both flags are false when round 1 starts. */
  const Initial: GroupState := GroupState(false, false)

  /** A group that has agreed or finished takes no further part. */
  predicate Settled(s: GroupState)
  {
    s.agreed || s.finished
  }

  /** Agreement always comes with finished. */
  predicate Consistent(s: GroupState)
  {
    s.agreed ==> s.finished
  }

  /** Whether the proposal page is shown to player `idInGroup`. */
  predicate ProposerDisplayed(s: GroupState, idInGroup: int, round: int)
  {
    if Settled(s) then false else RoleOf(idInGroup, round) == Proposer
  }

  /** Whether the page waiting for the proposal is shown. */
  predicate WaitForProposerDisplayed(s: GroupState)
  {
    !Settled(s)
  }

  /** Whether the response page is shown to player `idInGroup`. */
  predicate ResponderDisplayed(s: GroupState, idInGroup: int, round: int)
  {
    if Settled(s) then false else RoleOf(idInGroup, round) == Responder
  }

  /** Whether the results wait page, which runs the round transition, is shown. */
  predicate ResultsWaitDisplayed(s: GroupState)
  {
    !Settled(s)
  }

  /** While a group is still bargaining, exactly one of the two players sees
      the proposal page and the other the response page; once it has agreed
      or finished, neither page nor either wait page is shown to anyone. */
  lemma PagesFollowRoles(s: GroupState, round: int)
    ensures !Settled(s) ==>
              (ProposerDisplayed(s, 1, round) <==> !ProposerDisplayed(s, 2, round))
              && (ResponderDisplayed(s, 1, round) <==> ProposerDisplayed(s, 2, round))
              && (ResponderDisplayed(s, 2, round) <==> ProposerDisplayed(s, 1, round))
    ensures Settled(s) ==>
              !ProposerDisplayed(s, 1, round) && !ProposerDisplayed(s, 2, round)
              && !ResponderDisplayed(s, 1, round) && !ResponderDisplayed(s, 2, round)
              && !WaitForProposerDisplayed(s) && !ResultsWaitDisplayed(s)
  {
  }

  /** What the two players submitted in a round. */
  datatype Offer = Offer(proposal: real, accept: bool)

  /** The state after a round and the final payoff each player was assigned in
      it (index 0 is player 1), if any. */
  datatype RoundRecord = RoundRecord(state: GroupState, finalPayoff: seq<Option<real>>)

  /** The transition run once both players reach the results wait page. */
  function AfterAllPlayersArrive(s: GroupState, round: int, offer: Offer): (r: RoundRecord)
    requires round >= 1
    ensures |r.finalPayoff| == PlayersPerGroup
    ensures offer.accept ==> r.state.agreed && r.state.finished
    ensures offer.accept ==>
              forall id :: 1 <= id <= PlayersPerGroup ==>
                r.finalPayoff[id - 1] == Some(if RoleOf(id, round) == Proposer then offer.proposal
                                              else CurrentBudget(round) - offer.proposal)
    ensures !offer.accept ==> r.finalPayoff == [None, None] && r.state.agreed == s.agreed
    ensures !offer.accept ==> r.state.finished == (s.finished || s.agreed || round == NumRounds)
  {
    var agreed := s.agreed || offer.accept;
    var payoffs :=
      if offer.accept then
        var remainder := CurrentBudget(round) - offer.proposal;
        seq(PlayersPerGroup, i => Some(if RoleOf(i + 1, round) == Proposer then offer.proposal else remainder))
      else [None, None];
    var finished := s.finished || agreed || round == NumRounds;
    RoundRecord(GroupState(agreed, finished), payoffs)
  }

  /** A round as the group lives it: skipped entirely once settled, otherwise
      the transition above. */
  function PlayRound(s: GroupState, round: int, offer: Offer): (r: RoundRecord)
    requires round >= 1
    ensures |r.finalPayoff| == PlayersPerGroup
    ensures Settled(s) ==> r == RoundRecord(s, [None, None])
    ensures s.agreed ==> r.state.agreed
    ensures s.finished ==> r.state.finished
    ensures Consistent(s) ==> Consistent(r.state)
    ensures Consistent(s) && round == NumRounds ==> r.state.finished
    ensures r.finalPayoff[0].Some? <==> r.finalPayoff[1].Some?
    ensures r.finalPayoff[0].Some? <==> !Settled(s) && r.state.agreed
    ensures !Settled(s) && !offer.accept && round != NumRounds ==> r == RoundRecord(s, [None, None])
  {
    if ResultsWaitDisplayed(s) then AfterAllPlayersArrive(s, round, offer)
    else RoundRecord(s, [None, None])
  }

  /** On an accepted offer the proposer keeps the proposal, the responder the
      rest of the pot, and the two shares add up to the pot. */
  lemma AcceptedOfferSplitsBudget(s: GroupState, round: int, offer: Offer)
    requires round >= 1 && !Settled(s) && offer.accept
    ensures var r := PlayRound(s, round, offer);
            var proposer := if RoleOf(1, round) == Proposer then 0 else 1;
            && r.finalPayoff[proposer] == Some(offer.proposal)
            && r.finalPayoff[1 - proposer] == Some(CurrentBudget(round) - offer.proposal)
            && r.finalPayoff[0].value + r.finalPayoff[1].value == CurrentBudget(round)
            && r.state == GroupState(true, true)
  {
    var r := PlayRound(s, round, offer);
    assert r.finalPayoff[0] == Some(if RoleOf(1, round) == Proposer then offer.proposal
                                    else CurrentBudget(round) - offer.proposal);
    assert r.finalPayoff[1] == Some(if RoleOf(2, round) == Proposer then offer.proposal
                                    else CurrentBudget(round) - offer.proposal);
  }

  /** The state a round starts from: the initial state in round 1, otherwise
      the state left by the round before. */
  function StateBefore(rs: seq<RoundRecord>, k: int): GroupState
    requires 0 <= k <= |rs|
  {
    if k == 0 then Initial else rs[k - 1].state
  }

  /** Plays rounds 1..n from the initial state, one offer per round: round
      k+1 is PlayRound applied to the state round k left. */
  function Run(offers: seq<Offer>): (rs: seq<RoundRecord>)
    ensures |rs| == |offers|
    ensures forall k :: 0 <= k < |rs| ==> |rs[k].finalPayoff| == PlayersPerGroup
    ensures forall k {:trigger offers[k]} :: 0 <= k < |rs| ==> rs[k] == PlayRound(StateBefore(rs, k), k + 1, offers[k])
    decreases |offers|
  {
    if |offers| == 0 then []
    else
      var prior := Run(offers[..|offers| - 1]);
      var s := if |prior| == 0 then Initial else Last(prior).state;
      var rs := prior + [PlayRound(s, |offers|, Last(offers))];
      assert forall k :: 0 <= k < |prior| ==> StateBefore(rs, k) == StateBefore(prior, k);
      rs
  }

  /** Flags only ever switch on: a flag set after round j stays set after
      every later round k, and agreement always comes with finished. */
  lemma {:induction false} FlagsMonotone(offers: seq<Offer>, j: int, k: int)
    requires 0 <= j <= k < |offers|
    ensures Run(offers)[j].state.agreed ==> Run(offers)[k].state.agreed
    ensures Run(offers)[j].state.finished ==> Run(offers)[k].state.finished
    ensures Consistent(Run(offers)[k].state)
    decreases k
  {
    assert Run(offers)[k] == PlayRound(StateBefore(Run(offers), k), k + 1, offers[k]);
    if j < k {
      FlagsMonotone(offers, j, k - 1);
    } else if k > 0 {
      FlagsMonotone(offers, k - 1, k - 1);
    }
  }

  /** Once a group is settled after round j, every later round leaves its
      state as it is and assigns no final payoff. */
  lemma {:induction false} SettledIsFinal(offers: seq<Offer>, j: int, k: int)
    requires 0 <= j < k < |offers|
    requires Settled(Run(offers)[j].state)
    ensures Run(offers)[k] == RoundRecord(Run(offers)[j].state, [None, None])
    decreases k - j
  {
    assert Run(offers)[k] == PlayRound(StateBefore(Run(offers), k), k + 1, offers[k]);
    if j < k - 1 {
      SettledIsFinal(offers, j, k - 1);
    }
  }

  /** A ten-round game always ends finished. */
  lemma FinishedByLastRound(offers: seq<Offer>)
    requires |offers| == NumRounds
    ensures Run(offers)[NumRounds - 1].state.finished
  {
    assert Run(offers)[NumRounds - 1] == PlayRound(StateBefore(Run(offers), NumRounds - 1), NumRounds, offers[NumRounds - 1]);
    FlagsMonotone(offers, NumRounds - 2, NumRounds - 2);
  }

  /** Final payoffs are assigned in at most one round of a game: the round of
      the accepted offer. */
  lemma AtMostOneSettlement(offers: seq<Offer>, j: int, k: int)
    requires 0 <= j < k < |offers|
    requires Run(offers)[j].finalPayoff[0].Some?
    ensures Run(offers)[k].finalPayoff == [None, None]
  {
    assert Run(offers)[j] == PlayRound(StateBefore(Run(offers), j), j + 1, offers[j]);
    SettledIsFinal(offers, j, k);
  }
}
