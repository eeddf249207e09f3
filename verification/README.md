# Payoff rules of four economics-experiment games, in Dafny

This project models the payoff logic of a small set of oTree experiment apps
and proves properties of it. The apps run behavioural-economics games in a
browser. Each app is page glue around one deterministic payoff rule. The
model keeps the rules and leaves the pages out.

- **R&D investment game** (`r_and_d_game_winner_takes_all`, `r_and_d_game_spillover`).
  Four firms each invest 0..5 cards per round. The group total selects a
  success probability from a four-band table: 0 for 0..4 cards, 1/3 for
  5..11, 1/2 for 12..16 and 2/3 for 17..20. A die roll decides success. On
  success, one firm is drawn as the winner with chances proportional to its
  cards.
  - In the winner-takes-all game, payoffs charge only this round's cards.
  - In the spillover game, payoffs charge the firm's cumulative investment,
    and a failed round pays 0.
  - In both games a cumulative payoff is carried from round to round.
  - In the winner-takes-all game with the flag off, a losing firm is paid
    `1300 − cards`, without the card-value multiplier used everywhere else.
    The model keeps this as written.
- **Repeated discounted ultimatum game** (`practice`). The pot is
  1000·0.8^(r−1) in round r. The proposer role alternates by round parity.
  An accepted offer splits the pot and ends the game, and round 10 ends it
  regardless. The app keeps an "agreed" and a "finished" flag per group in
  session storage. Here they are an explicit `GroupState` threaded through
  the rounds.
- **Two-stage effort contest** (`two_stage_contest`). The higher effort wins.
  The winner's share of the round's pool (500, then 1500) comes from a tier
  table on the winner's spending, cost times effort. Each payoff is the
  reward minus the player's own spending.
- **Public-goods game** (`my_public_goods`). Four contributions out of an
  endowment of 1000 are summed, doubled and shared equally. Each payoff is
  1000 − contribution + share.

Randomness is passed in as parameters: the die, the uniform number behind the
weighted draw, the uniform fallback index and the contest costs. Cross-round
history is an explicit sequence of rounds rather than oTree's `in_round`
lookups.

The two R&D apps carry identical copies of the probability table, the
success test, the winner draw and `calculate_total_investment`. Compare
`r_and_d_game_spillover/__init__.py:25-30, 48-87, 130-137` with the
winner-takes-all lines cited below. Module `RdInvestment` defines these
shared rules once. Modules `RdWinnerTakesAll` and `RdSpillover` hold the two
payoff rules. `RdSession` plays either game over several rounds.

Files:
- `common.dfy`: option type, sums, history columns.
- `rd_investment.dfy`, `rd_winner_takes_all.dfy`, `rd_spillover.dfy`, `rd_session.dfy`: the R&D games.
- `ultimatum.dfy`: the ultimatum game.
- `contest.dfy`: the effort contest.
- `public_goods.dfy`: the public-goods game.

## Model

| member | source | states |
|---|---|---|
| RdInvestment.SuccessProbability | r_and_d_game_winner_takes_all/__init__.py:25-53 | The group total maps to 0 for 0..4, 1/3 for 5..11, 1/2 for 12..16 and 2/3 for 17..20, with band edges inclusive. Any total outside 0..20 falls back to 0. The body scans the band table in order, as the source's loop does. The spillover copy is r_and_d_game_spillover/__init__.py:25-30, 48-54. |
| RdInvestment.SuccessIffWinningFace | r_and_d_game_winner_takes_all/__init__.py:67-71 | probability·6 is exactly 0, 2, 3 or 4. For a die in 1..6, the test "probability nonzero and die ≤ probability·6" holds iff the die shows at most that many faces. Totals of at most 4 never succeed. |
| RdInvestment.ChoiceFrom | r_and_d_game_winner_takes_all/__init__.py:79-82 | Models the bisect step of the weighted draw: the first index from i on whose cumulative weight exceeds x, capped at the last index. The chosen index has positive weight, and x lies in its slice [cum(k−1), cum(k)) of the cumulative weights. |
| RdInvestment.WeightedChoice | r_and_d_game_winner_takes_all/__init__.py:79-82 | For nonnegative weights with a positive sum and u in [0,1), the drawn index is in range and has positive weight. u·total falls inside that index's slice of the cumulative weights, so each index is chosen in proportion to its weight. |
| RdInvestment.SelectWinner | r_and_d_game_winner_takes_all/__init__.py:75-86 | The winner index is in 0..3. When any card was invested, the winner invested at least one card. With no cards invested, it is the uniform fallback index. |
| RdInvestment.Decide | r_and_d_game_winner_takes_all/__init__.py:56-86 | The total is the sum of the four card counts and lies in 0..20. The probability comes from the band table. Success holds iff the die is at most the winning-face count, so totals ≤ 4 never succeed. A winner is recorded iff the round succeeded, and that winner is in 0..3 and invested cards. |
| RdInvestment.FallbackUnused | r_and_d_game_winner_takes_all/__init__.py:75-86 | The uniform fallback never reaches an outcome. A successful round always has a positive card total, and changing the fallback index leaves the round's decision unchanged. |
| RdInvestment.TotalInvestmentIsCardValueTimesCards | r_and_d_game_winner_takes_all/__init__.py:135-142 | The round-by-round accumulation equals 50 × the total number of cards over rounds 1..r. |
| RdInvestment.TotalInvestmentBounds | r_and_d_game_winner_takes_all/__init__.py:131-142 | With 0..5 cards per round, the total investment after r rounds lies in [0, 250·r]. It is never smaller than after any earlier round. |
| RdInvestment.CardsGrowWithHistory | r_and_d_game_winner_takes_all/__init__.py:131-142 | Over any valid history, a player's cards sum to at most 5 per round. The sum over the first n rounds never exceeds the sum over all of them. |
| RdWinnerTakesAll.Settle | r_and_d_game_winner_takes_all/__init__.py:89-128 | A firm's record in one round. On failure it pays −50·cards. The winner gets 1500 − 50·cards. A loser gets −50·cards with the flag set, else 1300 − cards, without the ×50 as written. The payoff always lies in [−250, 1500]. Cumulative = previous cumulative + payoff. Total investment = 50 × cards so far. |
| RdWinnerTakesAll.SetPayoffs | r_and_d_game_winner_takes_all/__init__.py:55-128 | A round's result: the group decision plus four records obeying the payoff rules above. In particular, everyone pays for this round's cards on failure, and exactly the drawn winner receives the success reward. |
| RdSpillover.Settle | r_and_d_game_spillover/__init__.py:90-122 | A firm's record in one round. On failure the payoff is 0 and the cumulative payoff is unchanged. On success the winner gets 1500 − total investment. A loser gets 1300 − total investment if spillover is on, else −total investment. Total investment is cumulative: 50 × cards over rounds 1..r. |
| RdSpillover.SetPayoffs | r_and_d_game_spillover/__init__.py:56-122 | A round's result: the group decision and four records obeying the spillover rules above. Each cumulative payoff is the previous one plus this round's payoff. |
| RdSession.SetPayoffs | r_and_d_game_spillover/__init__.py:33-38 | The session configures the game once. Either game's round rule yields four records whose cumulative payoff extends the previous one by the payoff, and whose total investment is 50 × the player's cards so far. |
| RdSession.Play | r_and_d_game_spillover/__init__.py:175-178 | Playing rounds 1..n gives a run. Round k applies the game's rule to the submissions of rounds 1..k, and to the cumulative payoffs after round k−1 (0 in round 1). |
| RdSession.CumulativeIsSumOfPayoffs | r_and_d_game_winner_takes_all/__init__.py:106-128 | In any run of either game, a player's cumulative payoff after round k equals the sum of its payoffs in rounds 1..k. |
| RdSession.RoundTotalInvestment | r_and_d_game_spillover/__init__.py:130-137 | In any run, a player's total investment after round k is 50 × its cards in rounds 1..k. |
| RdSession.TotalInvestmentGrows | r_and_d_game_spillover/__init__.py:125-137 | In any run, the total investment after round k lies in [0, 250·k]. It never decreases from an earlier round to a later one. |
| Ultimatum.BudgetShrinks | practice/__init__.py:13-14 | The pot is 1000 in round 1 and positive in every round. Each round's pot is 0.8 × the previous one, so it strictly decreases. |
| Ultimatum.ThirdRoundBudget | practice/__init__.py:39-41 | The round-3 pot is 640. |
| Ultimatum.OneProposerPerRound | practice/__init__.py:61-69 | Each round has exactly one proposer and one responder. Player 1 proposes exactly in odd rounds, player 2 exactly in even rounds. |
| Ultimatum.PagesFollowRoles | practice/__init__.py:85-148 | While the group is unsettled, the proposal page goes to exactly one player and the response page to the other. Once agreed or finished, neither of those pages and neither wait page is shown to anyone. |
| Ultimatum.AfterAllPlayersArrive | practice/__init__.py:150-175 | On acceptance, both flags become true. The proposer's final payoff is the proposal and the responder's is pot − proposal. On rejection, no final payoff is assigned, agreement is unchanged, and finished is set only by an earlier flag or by round 10. |
| Ultimatum.PlayRound | practice/__init__.py:145-175 | A settled group's round changes nothing and pays nothing. Both flags only turn on. "Agreed implies finished" is preserved. Round 10 always leaves the group finished. Final payoffs are assigned in the round of the acceptance and only then. A rejection before round 10 changes nothing. |
| Ultimatum.AcceptedOfferSplitsBudget | practice/__init__.py:152-167 | On acceptance, the proposer's and responder's final payoffs are the proposal and pot − proposal. They sum to the pot, and the state becomes agreed and finished. |
| Ultimatum.Run | practice/__init__.py:17-57 | Plays one record per round, each with two final-payoff slots. Round 1 starts from both flags false. Round k+1 is the round transition applied to the flags stored after round k. |
| Ultimatum.FlagsMonotone | practice/__init__.py:150-175 | Over a whole game, a flag set after round j stays set after every later round. Agreement always comes with finished. |
| Ultimatum.SettledIsFinal | practice/__init__.py:145-148 | Once a group has agreed or finished, every later round leaves its state unchanged and assigns no final payoff. |
| Ultimatum.FinishedByLastRound | practice/__init__.py:173-175 | A ten-round game is always finished after round 10. |
| Ultimatum.AtMostOneSettlement | practice/__init__.py:150-171 | Final payoffs are assigned in at most one round of a game. |
| Contest.CostOf | two_stage_contest/__init__.py:150 | A participant's cost, read from the session draw by slot, lies in [1, 100]. |
| Contest.EffortMax | two_stage_contest/__init__.py:65-66 | The effort cap m is the truncated quotient of the round's winner pool by the cost: m·cost ≤ pool < (m+1)·cost. The cap is at least 5 in round 1 and at least 15 in round 2. |
| Contest.EffortWithinPool | two_stage_contest/__init__.py:48-66 | An effort within the form's bounds [0, effort cap] never costs more than the round's pool. |
| Contest.WinnerSplitShares | two_stage_contest/__init__.py:26-29 | In every tier of either round, the winner and loser rewards sum to the pool (500 or 1500). The winner gets more than the loser. A winner who spends more keeps at least as much of the pool. |
| Contest.SettleSymmetric | two_stage_contest/__init__.py:75-129 | The loser branch mirrors the winner branch: one pass seen from the opponent's side gives the same standings, swapped. |
| Contest.SetPayoffs | two_stage_contest/__init__.py:69-133 | The higher raw effort wins: flags 2/0, with rewards from the tier of the winner's cost·effort. Equal effort gives flags 1/1 and half the pool each. The rewards always sum to the pool. Each payoff is reward − cost·effort. |
| Contest.SecondPassChangesNothing | two_stage_contest/__init__.py:70-71 | The loop's second pass leaves what the first pass assigned. |
| Contest.OutcomeIndependentOfOrder | two_stage_contest/__init__.py:69-133 | Swapping the two players swaps their outcomes. |
| Contest.PayoffFloor | two_stage_contest/__init__.py:131-133 | With efforts within the form's bounds, each payoff is at least its reward minus the pool. |
| Contest.SlotCostsSettle | two_stage_contest/__init__.py:131-150 | Players built from the session's cost draw by slot are charged exactly their slot's cost times their effort. With efforts within the form's bounds, each payoff is at least its reward minus the pool. |
| Contest.FirstRoundExample | two_stage_contest/__init__.py:76-85 | Round 1 with costs 5 and 3 and efforts 60 and 50 pays rewards 450 and 50 and payoffs 150 and −100. |
| PublicGoods.SetPayoffs | my_public_goods/__init__.py:51-59 | The total is the sum of the four contributions. share·4 = total·2. payoff_i + c_i = 1000 + share. For any two players, payoff_i − payoff_j = c_j − c_i, so equal contributions earn equal payoffs. |
| PublicGoods.PayoffsSum | my_public_goods/__init__.py:54-59 | The payoffs add up to 4000 + total, that is 4·1000 − total + 2·total. |
| PublicGoods.PayoffBounds | my_public_goods/__init__.py:27-31 | With contributions in [0, 1000], every payoff lies in [500, 2500]. |
| PublicGoods.FreeRiderExample | my_public_goods/__init__.py:13-14 | Contributions 0, 1000, 1000, 1000 pay 2500, 1500, 1500 and 1500. |

## Left out

- Page classes, `vars_for_template`, HTML templates and display mappings are out. This covers the `win_flg` labels and the `id + 1` offsets. They only format values. The ultimatum `is_displayed` guards are kept as the "skip once agreed or finished" predicates.
- WaitPage barriers and oTree model fields are out. The host runs the payoff rule once per round after all submissions arrive. The model takes the submissions as arguments.
- The distributions of `random.randint`, `random.choices` and the cost draw are out. Draws are parameters within their ranges: die in 1..6, u in [0, 1) for the weighted draw, fallback index in 0..3, cost in 1..100. The weighted draw is modelled as `random.choices` computes it, a bisection of u·total over the cumulative weights. This keeps the float-free part of that computation exactly.
- Floating point is out. Probabilities, the 0.8 discount and the public-goods share are exact reals. In IEEE doubles, (1/3)·6, (1/2)·6 and (2/3)·6 also round to exactly 2, 3 and 4, so the success test agrees.
- Currency rounding is out: the model keeps exact reals where the source computes in currency units. The session currency is JPY with points off (`settings.py:45-46`), so oTree rounds currency values to whole yen. The R&D and contest values are whole numbers, so nothing changes there. The ultimatum pot `cu(1000)·0.8^(r−1)` (`practice/__init__.py:13, 41`) is fractional from round 5 on: 409.6 becomes 410, 327.68 becomes 328. The public-goods share `total·2/4` (`my_public_goods/__init__.py:55-57`) is fractional for an odd total: a total of 1 gives 0.5 in the model, a rounded share in the source.
- Ultimatum.BudgetShrinks: the exact recurrence pot(r+1) = 0.8·pot(r) holds of the model's real pot, not of the source's pot rounded to whole yen (round 4 is 512, round 5 is 410 ≠ 0.8·512 = 409.6). The responder's remainder pot − proposal (`practice/__init__.py:158`) inherits the same difference.
- Ultimatum.AcceptedOfferSplitsBudget: the two shares add up to the exact pot. In the source they add up to the rounded pot.
- PublicGoods.PayoffsSum: the identity sum = 4000 + total holds of the exact share. With an odd total the source rounds the share and each payoff at `my_public_goods/__init__.py:59`, so its sum can differ from 4000 + total.
- PublicGoods.SetPayoffs: share·4 = 2·total holds of the exact share only. For an odd total the source's rounded share breaks it.
- The inner `sum(weights) > 0` guard of the R&D winner draw is not modelled separately. It tests the same sum as the enclosing `total_cards_invested > 0`, so its uniform fallback branch cannot be reached.
- The outer uniform fallback of the winner draw (`r_and_d_game_winner_takes_all/__init__.py:85-86`) is also dead. A zero total has probability 0, so such a round never succeeds and never draws a winner. `SelectWinner` keeps the branch as written. `FallbackUnused` proves that `Draw.fallback` never affects a round's outcome.
- The R&D session flags are read per participant in the source. They are copied from one session setting, so the model uses a single flag per session.
- The ultimatum `hasattr(group, 'accept')` check and the `proposal or 0` default are out. The results wait page only runs while the responder page is shown, so both values have been submitted.
- Ultimatum.AfterAllPlayersArrive: the proposal has no upper bound, since the code only sets `min=0`. The responder's share pot − proposal may then be negative.
- Ultimatum.Run: does not stop at ten rounds. The host never plays more than `NUM_ROUNDS`, and `FinishedByLastRound` states what round 10 does.
- A game that reaches round 10 without agreement assigns no final payoff, exactly as the source does. No fallback is invented.
- The R&D games do not stop after a successful round, because the source enforces no terminal state.
- `settings.py` is out. It is session and room configuration with no logic.

