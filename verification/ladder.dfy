/** The static conversion ladder: how one unit of each item tier is made
    from lower tiers plus EP. Tier 1 is bought with EP alone. */
module Ladder {

  /** One conversion rule: lower tier -> units consumed, and the EP paid,
      per unit of the tier being made. */
  datatype Rule = Rule(items: map<int, int>, ep: int)

  /** Highest tier of the ladder. */
  const Tiers: int := 5

  /** The EXCHANGE table. */
  const Exchange: map<int, Rule> := map[
    1 := Rule(map[], 1000),
    2 := Rule(map[1 := 15], 2000),
    3 := Rule(map[1 := 30, 2 := 15], 2500),
    4 := Rule(map[2 := 30, 3 := 20], 4000),
    5 := Rule(map[2 := 30, 3 := 20], 5000)
  ]

  /** The ladder covers exactly tiers 1..Tiers, every rule costs a positive
      amount of EP, and every rule draws positive amounts of STRICTLY LOWER
      tiers only: deficits can only ever flow downwards. */
  ghost predicate WellFormed(ladder: map<int, Rule>)
  {
    (forall t :: t in ladder <==> 1 <= t <= Tiers) &&
    (forall t | t in ladder :: ladder[t].ep > 0) &&
    (forall t, k | t in ladder && k in ladder[t].items ::
       1 <= k < t && ladder[t].items[k] > 0)
  }

  lemma ExchangeWellFormed()
    ensures WellFormed(Exchange)
  {
    forall t, k | t in Exchange && k in Exchange[t].items
      ensures 1 <= k < t && Exchange[t].items[k] > 0
    {
      assert t == 2 || t == 3 || t == 4 || t == 5;
    }
  }

  /** Units of tier `k` consumed to make one unit of tier `t` (zero when the
      rule does not mention `k`). */
  function Cost(t: int, k: int): (c: int)
    requires 1 <= t <= Tiers
    ensures 0 <= c
    ensures c > 0 ==> 1 <= k < t
  {
    ExchangeWellFormed();
    if k in Exchange[t].items then Exchange[t].items[k] else 0
  }

  /** EP paid to make one unit of tier `t`. */
  function EpCost(t: int): (e: int)
    requires 1 <= t <= Tiers
    ensures e > 0
  {
    ExchangeWellFormed();
    Exchange[t].ep
  }
}
