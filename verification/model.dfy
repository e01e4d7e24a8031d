/** The two records of the program: a player's inventory and a reward
    recipe. Item lists are indexed by tier; index 0 is unused padding. */
module Model {
  import opened Ladder

  /** Length of every item list: padding slot 0 plus tiers 1..Tiers. */
  const Slots: int := Tiers + 1

  /** EP held and units held of each tier. */
  datatype Inventory = Inventory(ep: int, items: seq<int>)

  /** A reward: its acquisition limit, the units of each tier and the EP
      one unit of the reward costs. */
  datatype Reward = Reward(name: string, limit: int, items: seq<int>, ep: int)

  /** Every tier index 1..Tiers can be read from both item lists. */
  predicate Shaped(inv: Inventory, r: Reward)
  {
    |inv.items| >= Slots && |r.items| >= Slots
  }

  /** A recipe that asks for no negative quantity of anything. */
  predicate RecipeNonNegative(r: Reward)
  {
    r.ep >= 0 && |r.items| >= Slots &&
    forall i | 1 <= i < Slots :: r.items[i] >= 0
  }

  function Min(a: int, b: int): int
  {
    if a <= b then a else b
  }

  function Max(a: int, b: int): int
  {
    if a >= b then a else b
  }
}
