/** The one-shot public-goods game: four players each keep what they do not
    contribute out of an endowment of 1000, and the summed contributions are
    doubled and shared equally. */
module PublicGoods {
  import opened Common

  const PlayersPerGroup: int := 4
  const Endowment: int := 1000
  const Multiplier: int := 2

  /** Contributions the entry form accepts: one per player, each in [0, 1000]. */
  predicate ValidContributions(c: seq<int>)
  {
    |c| == PlayersPerGroup && forall i :: 0 <= i < |c| ==> 0 <= c[i] <= Endowment
  }

  /** The group fields and each player's payoff. */
  datatype GroupResult = GroupResult(totalContribution: int, individualShare: real, payoffs: seq<real>)

  function SetPayoffs(contributions: seq<int>): (g: GroupResult)
    requires |contributions| == PlayersPerGroup
    ensures g.totalContribution == contributions[0] + contributions[1] + contributions[2] + contributions[3]
    ensures g.individualShare * PlayersPerGroup as real == (g.totalContribution * Multiplier) as real
    ensures |g.payoffs| == PlayersPerGroup
    ensures forall i :: 0 <= i < PlayersPerGroup ==>
              g.payoffs[i] + contributions[i] as real == Endowment as real + g.individualShare
    ensures forall i, j :: 0 <= i < PlayersPerGroup && 0 <= j < PlayersPerGroup ==>
              g.payoffs[i] - g.payoffs[j] == (contributions[j] - contributions[i]) as real
  {
    var total := Sum(contributions);
    assert total == contributions[0] + contributions[1] + contributions[2] + contributions[3] by {
      var c := contributions;
      assert c[..4] == c;
      SumSnoc(c, 3);
      SumSnoc(c, 2);
      SumSnoc(c, 1);
      SumSnoc(c, 0);
      assert c[..0] == [];
    }
    var share := (total * Multiplier) as real / PlayersPerGroup as real;
    GroupResult(total, share,
      seq(PlayersPerGroup, i requires 0 <= i < PlayersPerGroup =>
        (Endowment - contributions[i]) as real + share))
  }

  /** The payoffs add up to 4*1000 - total + 2*total = 4000 + total. */
  lemma PayoffsSum(contributions: seq<int>)
    requires |contributions| == PlayersPerGroup
    ensures var g := SetPayoffs(contributions);
            g.payoffs[0] + g.payoffs[1] + g.payoffs[2] + g.payoffs[3]
            == (PlayersPerGroup * Endowment + g.totalContribution) as real
  {
  }

  /** Within the entry form's bounds every payoff lies in [500, 2500]. */
  lemma PayoffBounds(contributions: seq<int>)
    requires ValidContributions(contributions)
    ensures var g := SetPayoffs(contributions);
            forall i :: 0 <= i < PlayersPerGroup ==> 500.0 <= g.payoffs[i] <= 2500.0
  {
    var g := SetPayoffs(contributions);
    forall i | 0 <= i < PlayersPerGroup
      ensures 500.0 <= g.payoffs[i] <= 2500.0
    {
      var others := g.totalContribution - contributions[i];
      assert 0 <= others <= 3 * Endowment;
      assert g.payoffs[i] == (Endowment - contributions[i]) as real + (2 * (contributions[i] + others)) as real / 4.0;
    }
  }

  /** Contributions 0, 1000, 1000, 1000: the share is 1500, so the payoffs are
      2500 for the free rider and 1500 for the others. */
  lemma FreeRiderExample()
    ensures SetPayoffs([0, 1000, 1000, 1000]).payoffs == [2500.0, 1500.0, 1500.0, 1500.0]
  {
  }
}
