/** The reward catalog: the REWARDS_DEF table and `load_rewards`, which
    turns each row into a reward whose item list is padded at index 0. */
module Catalog {
  import opened Ladder
  import opened Model
  import opened Feasibility

  /** One row of the table: name, limit, units of tiers 1..5, EP. */
  datatype Row = Row(name: string, limit: int, i1: int, i2: int, i3: int, i4: int, i5: int, ep: int)

  const RewardTable: seq<Row> := [
    Row("SSR Ticket",          1,  0,  0,  0, 150, 100, 500000),
    Row("Limited R Ticket",    3,  0,  0,  0,  40,  30,  40000),
    Row("SR Ticket",           2,  0,  0,  0,  40,  30,  35000),
    Row("R Ticket",            3,  0, 60, 40,   0,   0,  10000),
    Row("Event Skip Ticket",  20,  0,  0,  0,   5,  15,   2500),
    Row("AP Drink EX",         1,  0,  0,  0,  10,  10,   5000),
    Row("Luxury Boiled Tofu", 10,  0,  0,  0,  10,  10,   5000),
    Row("Color Boiled Tofu",  20,  0,  0,  0,   5,   5,   3000),
    Row("Luxury Chazuke",     20,  0,  0, 30,  10,   0,   3000),
    Row("Color Chazuke",      40,  0,  0, 20,   5,   0,   2000),
    Row("Luxury Crepe",       40,  0, 30, 10,   0,   0,   2000),
    Row("Color Crepe",        60,  0,  5, 10,   0,   0,   1000),
    Row("Luxury Ramune",      60, 20, 10,  0,   0,   0,   1000),
    Row("Color Book",          5,  0,  0,  0,  10,  10,   5000),
    Row("Color Draft Paper",  10,  0,  0, 30,  10,   0,   3000),
    Row("Color Fountain Pen", 15,  0, 30, 10,   0,   0,   2000),
    Row("Color Pencil",       20, 20, 10,  0,   0,   0,   1000)
  ]

  /** The reward built from one row: item list `[0, i1, .., i5]`. */
  function FromRow(row: Row): Reward
  {
    Reward(row.name, row.limit, [0, row.i1, row.i2, row.i3, row.i4, row.i5], row.ep)
  }

  /** `load_rewards`: one reward per row, in table order; each keeps its
      row's name, limit and EP, and its item list reads the row's tier
      columns at indices 1..5 behind an empty padding slot. */
  function LoadRewards(): (rs: seq<Reward>)
    ensures |rs| == |RewardTable|
    ensures forall i | 0 <= i < |rs| ::
              rs[i].name == RewardTable[i].name && rs[i].limit == RewardTable[i].limit &&
              rs[i].ep == RewardTable[i].ep && |rs[i].items| == Slots && rs[i].items[0] == 0
    ensures forall i | 0 <= i < |rs| ::
              rs[i].items[1] == RewardTable[i].i1 && rs[i].items[2] == RewardTable[i].i2 &&
              rs[i].items[3] == RewardTable[i].i3 && rs[i].items[4] == RewardTable[i].i4 &&
              rs[i].items[5] == RewardTable[i].i5
  {
    seq(|RewardTable|, i requires 0 <= i < |RewardTable| => FromRow(RewardTable[i]))
  }

  /** A catalog entry as the rest of the program expects it: full item
      list, nothing negative, a positive EP price and a positive limit. */
  predicate WellFormedReward(r: Reward)
  {
    |r.items| == Slots && RecipeNonNegative(r) && r.ep > 0 && r.limit >= 1
  }

  /** Every loaded reward is well formed. */
  lemma CatalogWellFormed()
    ensures forall r | r in LoadRewards() :: WellFormedReward(r)
  {
    var rs := LoadRewards();
    forall i | 0 <= i < |rs|
      ensures WellFormedReward(rs[i])
    {
      var row := RewardTable[i];
      assert row.limit >= 1 && row.ep > 0;
      assert row.i1 >= 0 && row.i2 >= 0 && row.i3 >= 0 && row.i4 >= 0 && row.i5 >= 0;
    }
  }

  /** An inventory with no EP and no items. */
  const EmptyInventory: Inventory := Inventory(0, [0, 0, 0, 0, 0, 0])

  /** With no EP and no items not even one unit of any catalog reward is
      affordable, since every one of them has a positive EP price. */
  lemma EmptyInventoryAffordsNothing(r: Reward)
    requires r in LoadRewards()
    ensures Shaped(EmptyInventory, r)
    ensures !CanMake(1, EmptyInventory, r)
  {
    CatalogWellFormed();
  }

  /** A worked case: each "Luxury Ramune" (20 of tier 1, 10 of tier 2,
      1000 EP) made from nothing but EP costs 1000 + 10 * 2000 for the
      tier-2 conversions + (20 + 10 * 15) * 1000 for tier 1 = 191000 EP, so
      `n` of them are affordable exactly when 191000 * n EP is held. */
  lemma LuxuryRamuneFromEpAlone(n: int, ep: int)
    requires n > 0
    ensures LoadRewards()[12] == Reward("Luxury Ramune", 60, [0, 20, 10, 0, 0, 0], 1000)
    ensures EpNeeded(n, Inventory(ep, [0, 0, 0, 0, 0, 0]), LoadRewards()[12]) == 191000 * n
    ensures CanMake(n, Inventory(ep, [0, 0, 0, 0, 0, 0]), LoadRewards()[12]) <==> 191000 * n <= ep
  {
    var r := LoadRewards()[12];
    assert r == Reward("Luxury Ramune", 60, [0, 20, 10, 0, 0, 0], 1000);
    var inv := Inventory(ep, [0, 0, 0, 0, 0, 0]);
    assert ClosedFormEp(n, inv, r) == 191000 * n by {
      assert Cost(5, 4) == 0 && Cost(5, 3) == 20 && Cost(5, 2) == 30 && Cost(5, 1) == 0;
      assert Cost(4, 3) == 20 && Cost(4, 2) == 30 && Cost(4, 1) == 0;
      assert Cost(3, 2) == 15 && Cost(3, 1) == 30 && Cost(2, 1) == 15;
      assert Deficit(10 * n, 0) == 10 * n;
      assert Deficit(20 * n + 10 * n * 15, 0) == 170 * n;
    }
    ClosedForm(n, inv, r);
  }

  /** A worked case: one "SR Ticket" (40 of tier 4, 30 of tier 5, 35000 EP)
      from nothing but EP needs 438545000 EP. */
  lemma SrTicketFromEpAlone()
    ensures LoadRewards()[2] == Reward("SR Ticket", 2, [0, 0, 0, 0, 40, 30], 35000)
    ensures EpNeeded(1, EmptyInventory, LoadRewards()[2]) == 438545000
  {
    var r := LoadRewards()[2];
    assert r == Reward("SR Ticket", 2, [0, 0, 0, 0, 40, 30], 35000);
    SrTicketSum();
    ClosedForm(1, EmptyInventory, r);
  }

  /** The reference sum for one "SR Ticket" from EP alone, tier by tier. */
  lemma SrTicketSum()
    ensures ClosedFormEp(1, EmptyInventory, Reward("SR Ticket", 2, [0, 0, 0, 0, 40, 30], 35000)) == 438545000
  {
    assert Cost(5, 4) == 0 && Cost(5, 3) == 20 && Cost(5, 2) == 30 && Cost(5, 1) == 0;
    assert Cost(4, 3) == 20 && Cost(4, 2) == 30 && Cost(4, 1) == 0;
    assert Cost(3, 2) == 15 && Cost(3, 1) == 30 && Cost(2, 1) == 15;
    assert Deficit(30 * 20 + 40 * 20, 0) == 1400;
    assert Deficit(30 * 30 + 40 * 30 + 1400 * 15, 0) == 23100;
    assert Deficit(1400 * 30 + 23100 * 15, 0) == 388500;
  }

  /** Holding the tier-4 and tier-5 units of one "SR Ticket" outright
      leaves only its bare EP price to pay. */
  lemma SrTicketFromItems()
    ensures EpNeeded(1, Inventory(0, [0, 0, 0, 0, 40, 30]), LoadRewards()[2]) == 35000
  {
    var r := LoadRewards()[2];
    assert r == Reward("SR Ticket", 2, [0, 0, 0, 0, 40, 30], 35000);
    ClosedForm(1, Inventory(0, [0, 0, 0, 0, 40, 30]), r);
  }
}
