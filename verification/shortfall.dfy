/** `compute_missing_direct`: what is still missing for `count` units of a
    reward if no conversion is made at all. */
module Shortfall {
  import opened Ladder
  import opened Model
  import opened Feasibility

  /** The four results, in the order the program returns them: missing
      units per tier, missing EP, needed units per tier, needed EP. Tier
      lists are indexed by tier with index 0 unused. */
  datatype Missing = Missing(items: seq<int>, ep: int, needItems: seq<int>, needEp: int)

  /** The amount still to obtain when `need` is wanted and `have` is held. */
  function Gap(need: int, have: int): (g: int)
    ensures g >= 0 && g + have >= need
    ensures g > 0 ==> g + have == need
  {
    Max(0, need - have)
  }

  /** `compute_missing_direct`. For every tier and for EP the need is
      `count` times the recipe, and what is missing is the least
      non-negative amount that, added to what is held, covers the need. */
  function ComputeMissingDirect(inv: Inventory, r: Reward, count: int): (m: Missing)
    requires Shaped(inv, r)
    ensures |m.items| == Slots && |m.needItems| == Slots
    ensures m.items[0] == 0 && m.needItems[0] == 0
    ensures forall i | 1 <= i <= Tiers :: m.needItems[i] == r.items[i] * count
    ensures m.needEp == r.ep * count
    ensures forall i | 1 <= i <= Tiers ::
              m.items[i] >= 0 && m.items[i] + inv.items[i] >= m.needItems[i] &&
              (m.items[i] > 0 ==> m.items[i] + inv.items[i] == m.needItems[i])
    ensures m.ep >= 0 && m.ep + inv.ep >= m.needEp && (m.ep > 0 ==> m.ep + inv.ep == m.needEp)
  {
    var needItems := seq(Slots, i requires 0 <= i < Slots =>
                           if i == 0 then 0 else r.items[i] * count);
    var items := seq(Slots, i requires 0 <= i < Slots =>
                       if i == 0 then 0 else Gap(needItems[i], inv.items[i]));
    Missing(items, Gap(r.ep * count, inv.ep), needItems, r.ep * count)
  }

  /** Nothing is missing for a tier exactly when enough of it is held, and
      with a non-negative holding the missing amount never exceeds the
      need; the same holds for EP. */
  lemma MissingIsZeroIffCovered(inv: Inventory, r: Reward, count: int)
    requires Shaped(inv, r)
    ensures forall i | 1 <= i <= Tiers ::
              (ComputeMissingDirect(inv, r, count).items[i] == 0 <==>
               inv.items[i] >= r.items[i] * count)
    ensures forall i | 1 <= i <= Tiers && inv.items[i] >= 0 ::
              ComputeMissingDirect(inv, r, count).items[i] <= Max(0, r.items[i] * count)
    ensures ComputeMissingDirect(inv, r, count).ep == 0 <==> inv.ep >= r.ep * count
    ensures inv.ep >= 0 ==> ComputeMissingDirect(inv, r, count).ep <= Max(0, r.ep * count)
  {
  }

  /** Nothing missing without conversions means the exchange-aware test
      agrees that `count` units are affordable: with every tier already
      held, no conversion is made and only the reward's own price is paid. */
  lemma NothingMissingMeansAffordable(inv: Inventory, r: Reward, count: int)
    requires Shaped(inv, r)
    requires forall i | 1 <= i <= Tiers :: ComputeMissingDirect(inv, r, count).items[i] == 0
    requires ComputeMissingDirect(inv, r, count).ep == 0
    ensures CanMake(count, inv, r)
    ensures count > 0 ==> EpNeeded(count, inv, r) == r.ep * count
  {
    if count > 0 {
      MissingIsZeroIffCovered(inv, r, count);
      ClosedForm(count, inv, r);
      var q, s := r.items, inv.items;
      assert Deficit(q[5] * count, s[5]) == 0;
      assert Deficit(q[4] * count, s[4]) == 0;
      assert Deficit(q[3] * count, s[3]) == 0;
      assert Deficit(q[2] * count, s[2]) == 0;
      assert Deficit(q[1] * count, s[1]) == 0;
    }
  }
}
