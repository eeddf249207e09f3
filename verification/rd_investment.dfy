/** The rules both R&D investment games share: four firms each put 0..5 cards
    into research, the group total selects a success probability from a
    four-band table, a die roll decides success, and on success one firm is
    drawn as the winner with chances proportional to its cards. */
module RdInvestment {
  import opened Common

  const PlayersPerGroup: int := 4
  const CardsPerPlayer: int := 5
  const CardValue: int := 50
  const SuccessReward: int := 1500
  const SpilloverReward: int := 1300

  /** One row of the probability table: totals in [minCards, maxCards] succeed
      with `probability`. */
  datatype Band = Band(minCards: int, maxCards: int, probability: real)

  /** The table, in the order the game scans it. */
  const SuccessThresholds: seq<Band> :=
    [ Band(0, 4, 0.0), Band(5, 11, 1.0 / 3.0), Band(12, 16, 1.0 / 2.0), Band(17, 20, 2.0 / 3.0) ]

  /** The random draws one round consumes: the die, the uniform number in
      [0, 1) behind the weighted draw of the winner, and the uniform index
      used when no cards were invested. */
  datatype Draw = Draw(die: int, u: real, fallback: int)

  predicate ValidDraw(d: Draw)
  {
    1 <= d.die <= 6 && 0.0 <= d.u < 1.0 && 0 <= d.fallback < PlayersPerGroup
  }

  /** One round's submissions: four card counts, each within [0, 5]. */
  predicate ValidCards(cards: seq<int>)
  {
    |cards| == PlayersPerGroup && forall i :: 0 <= i < |cards| ==> 0 <= cards[i] <= CardsPerPlayer
  }

  /** Rounds 1..r of submissions, the current round last. */
  predicate ValidHistory(history: seq<seq<int>>)
  {
    |history| >= 1 && forall k :: 0 <= k < |history| ==> ValidCards(history[k])
  }

  /** The probability of the first band containing `total`, or 0 if none does. */
  function FirstMatchingBand(bands: seq<Band>, total: int): real
  {
    if |bands| == 0 then 0.0
    else if bands[0].minCards <= total <= bands[0].maxCards then bands[0].probability
    else FirstMatchingBand(bands[1..], total)
  }

  /** Success probability of a group total, the bands inclusive at both ends
      and every total outside [0, 20] falling back to 0. */
  function SuccessProbability(total: int): (p: real)
    ensures 0 <= total <= 4 ==> p == 0.0
    ensures 5 <= total <= 11 ==> p == 1.0 / 3.0
    ensures 12 <= total <= 16 ==> p == 1.0 / 2.0
    ensures 17 <= total <= 20 ==> p == 2.0 / 3.0
    ensures total < 0 || total > 20 ==> p == 0.0
  {
    var b0 := SuccessThresholds;
    var b1 := b0[1..];
    var b2 := b1[1..];
    var b3 := b2[1..];
    assert b3[1..] == [];
    assert FirstMatchingBand(b3, total) == if 17 <= total <= 20 then 2.0 / 3.0 else 0.0;
    assert FirstMatchingBand(b2, total) == if 12 <= total <= 16 then 1.0 / 2.0 else FirstMatchingBand(b3, total);
    assert FirstMatchingBand(b1, total) == if 5 <= total <= 11 then 1.0 / 3.0 else FirstMatchingBand(b2, total);
    FirstMatchingBand(b0, total)
  }

  /** The success test: never with probability 0, otherwise iff the die shows
      at most probability*6. */
  predicate IsSuccessful(probability: real, die: int)
  {
    if probability == 0.0 then false else die as real <= probability * 6.0
  }

  /** Reference table: how many of the six die faces mean success. */
  function WinningFaces(total: int): int
  {
    if 5 <= total <= 11 then 2
    else if 12 <= total <= 16 then 3
    else if 17 <= total <= 20 then 4
    else 0
  }

  /** The die test on the probability table is the same as comparing the die
      with 2, 3 or 4 winning faces; totals of at most 4 never succeed. */
  lemma SuccessIffWinningFace(total: int, die: int)
    requires 1 <= die <= 6
    ensures SuccessProbability(total) * 6.0 == WinningFaces(total) as real
    ensures IsSuccessful(SuccessProbability(total), die) <==> die <= WinningFaces(total)
    ensures total <= 4 ==> !IsSuccessful(SuccessProbability(total), die)
  {
  }

  /** The weighted draw of `random.choices`: the first index from `i` on whose
      cumulative weight exceeds `x`, capped at the last index. */
  function ChoiceFrom(weights: seq<int>, x: real, i: int): (k: int)
    requires 0 <= i < |weights|
    requires forall j :: 0 <= j < |weights| ==> weights[j] >= 0
    requires Sum(weights[..i]) as real <= x < Sum(weights) as real
    ensures i <= k < |weights|
    ensures weights[k] > 0
    ensures Sum(weights[..k]) as real <= x < (Sum(weights[..k]) + weights[k]) as real
    decreases |weights| - i
  {
    SumSnoc(weights, i);
    if i == |weights| - 1 then
      assert weights[..i + 1] == weights;
      i
    else if x < Sum(weights[..i + 1]) as real then i
    else ChoiceFrom(weights, x, i + 1)
  }

  /** The weighted draw driven by a uniform number `u` in [0, 1): the chosen
      index carries positive weight and is the one whose slice of the
      cumulative weights contains u*total. */
  function WeightedChoice(weights: seq<int>, u: real): (k: int)
    requires |weights| > 0
    requires forall j :: 0 <= j < |weights| ==> weights[j] >= 0
    requires Sum(weights) > 0
    requires 0.0 <= u < 1.0
    ensures 0 <= k < |weights|
    ensures weights[k] > 0
    ensures Sum(weights[..k]) as real <= u * Sum(weights) as real < (Sum(weights[..k]) + weights[k]) as real
  {
    var total := Sum(weights) as real;
    assert u * total < 1.0 * total;
    assert weights[..0] == [];
    ChoiceFrom(weights, u * total, 0)
  }

  /** The firm that wins a successful round: a weighted draw over this round's
      cards, or a uniform index when no card was invested. */
  function SelectWinner(cards: seq<int>, d: Draw): (w: int)
    requires ValidCards(cards) && ValidDraw(d)
    ensures 0 <= w < PlayersPerGroup
    ensures Sum(cards) > 0 ==> cards[w] > 0
    ensures Sum(cards) == 0 ==> w == d.fallback
  {
    SumBounds(cards, 0, CardsPerPlayer);
    if Sum(cards) > 0 then WeightedChoice(cards, d.u) else d.fallback
  }

  /** The group-level fields of a round. */
  datatype Decision = Decision(
    totalCards: int,
    probability: real,
    diceRoll: int,
    successful: bool,
    successfulPlayer: Option<int>)

  /** Totals the cards, looks up the probability, rolls the die and, on
      success, draws the winner. */
  function Decide(cards: seq<int>, d: Draw): (r: Decision)
    requires ValidCards(cards) && ValidDraw(d)
    ensures r.totalCards == Sum(cards)
    ensures 0 <= r.totalCards <= PlayersPerGroup * CardsPerPlayer
    ensures r.diceRoll == d.die
    ensures r.probability == SuccessProbability(r.totalCards)
    ensures r.successful <==> d.die <= WinningFaces(r.totalCards)
    ensures r.totalCards <= 4 ==> !r.successful
    ensures r.successful <==> r.successfulPlayer.Some?
    ensures r.successfulPlayer.Some? ==>
              0 <= r.successfulPlayer.value < PlayersPerGroup && cards[r.successfulPlayer.value] > 0
  {
    var total := Sum(cards);
    SumBounds(cards, 0, CardsPerPlayer);
    var p := SuccessProbability(total);
    SuccessIffWinningFace(total, d.die);
    var ok := IsSuccessful(p, d.die);
    Decision(total, p, d.die, ok, if ok then Some(SelectWinner(cards, d)) else None)
  }

  /** The uniform fallback never shows in a round's outcome: a round with no
      cards has probability 0, so it never reaches the winner draw, and
      replacing the fallback index changes nothing. */
  lemma FallbackUnused(cards: seq<int>, d: Draw, fallback: int)
    requires ValidCards(cards) && ValidDraw(d) && 0 <= fallback < PlayersPerGroup
    ensures Decide(cards, d) == Decide(cards, d.(fallback := fallback))
    ensures Decide(cards, d).successful ==> Sum(cards) > 0
  {
  }

  /** Money invested so far: card value times the cards of every round up to
      and including the current one, accumulated round by round. */
  function TotalInvestment(cardsByRound: seq<int>): int
  {
    if |cardsByRound| == 0 then 0
    else TotalInvestment(cardsByRound[..|cardsByRound| - 1]) + cardsByRound[|cardsByRound| - 1] * CardValue
  }

  /** The running total is the card value times the total number of cards. */
  lemma {:induction false} TotalInvestmentIsCardValueTimesCards(cardsByRound: seq<int>)
    ensures TotalInvestment(cardsByRound) == CardValue * Sum(cardsByRound)
  {
    if |cardsByRound| > 0 {
      TotalInvestmentIsCardValueTimesCards(cardsByRound[..|cardsByRound| - 1]);
    }
  }

  /** With 0..5 cards a round, the total after r rounds lies in [0, 250*r] and
      never decreases from one round to the next. */
  lemma TotalInvestmentBounds(cardsByRound: seq<int>, n: int)
    requires forall k :: 0 <= k < |cardsByRound| ==> 0 <= cardsByRound[k] <= CardsPerPlayer
    requires 0 <= n <= |cardsByRound|
    ensures 0 <= TotalInvestment(cardsByRound) <= CardsPerPlayer * CardValue * |cardsByRound|
    ensures TotalInvestment(cardsByRound[..n]) <= TotalInvestment(cardsByRound)
  {
    TotalInvestmentIsCardValueTimesCards(cardsByRound);
    TotalInvestmentIsCardValueTimesCards(cardsByRound[..n]);
    SumBounds(cardsByRound, 0, CardsPerPlayer);
    SumPrefixMonotone(cardsByRound, n, |cardsByRound|);
    assert cardsByRound[..|cardsByRound|] == cardsByRound;
  }

  /** Each player's total investment as of the current round. */
  function TotalInvestmentOf(history: seq<seq<int>>, i: int): (t: int)
    requires ValidHistory(history) && 0 <= i < PlayersPerGroup
    ensures t == CardValue * Sum(Column(history, i))
    ensures 0 <= t <= CardsPerPlayer * CardValue * |history|
  {
    TotalInvestmentIsCardValueTimesCards(Column(history, i));
    TotalInvestmentBounds(Column(history, i), 0);
    TotalInvestment(Column(history, i))
  }

  /** Over a history of rounds, a player's cards after the first n rounds sum
      to at most 5*n and never to more than after all of them. */
  lemma {:induction false} CardsGrowWithHistory(history: seq<seq<int>>, i: int, n: int)
    requires ValidHistory(history) && 0 <= i < PlayersPerGroup && 1 <= n <= |history|
    ensures 0 <= Sum(Column(history, i)) <= CardsPerPlayer * |history|
    ensures Sum(Column(history[..n], i)) <= Sum(Column(history, i))
  {
    var col := Column(history, i);
    assert forall r :: 0 <= r < |col| ==> 0 <= col[r] <= CardsPerPlayer by {
      forall r | 0 <= r < |col| ensures 0 <= col[r] <= CardsPerPlayer {
        assert ValidCards(history[r]);
      }
    }
    SumBounds(col, 0, CardsPerPlayer);
    SumPrefixMonotone(col, n, |col|);
    ColumnPrefix(history, i, n);
    assert col[..|col|] == col;
  }

  /** What one player's record holds after a round. */
  datatype PlayerRecord = PlayerRecord(payoff: int, totalInvestment: int, cumulativePayoff: int)

  /** The outcome of one round: group fields and the four player records. */
  datatype RoundResult = RoundResult(decision: Decision, players: seq<PlayerRecord>)
}
