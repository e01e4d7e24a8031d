/** The imperative shape of `can_make`: the inventory is a mutable object
    with an item array, the test copies it, and then updates the copy's
    array and a need array in place. Because the method has no `modifies`
    clause, the verifier only lets it write to objects it allocated itself:
    the caller's inventory and its array are left untouched. */
module InPlace {
  import opened Ladder
  import opened Model
  import opened Feasibility

  /** The mutable `Inventory` object. */
  class Holdings {
    var ep: int
    var items: array<int>

    constructor (ep: int, items: array<int>)
      ensures this.ep == ep && this.items == items
    {
      this.ep := ep;
      this.items := items;
    }

    /** The value this object currently holds. */
    function Value(): Inventory
      reads this, items
    {
      Inventory(ep, items[..])
    }

    /** `Inventory.copy`: a new object with a new item array holding the
        same values, so writes to the copy cannot reach this object. */
    method Copy() returns (c: Holdings)
      ensures fresh(c) && fresh(c.items)
      ensures c.ep == ep && c.items[..] == items[..]
    {
      var a := new int[items.Length];
      forall i | 0 <= i < items.Length {
        a[i] := items[i];
      }
      c := new Holdings(ep, a);
    }
  }

  /** The inner loop over one conversion rule: every lower tier the rule
      draws from gets `cnt` times its amount added to its need. The rule's
      entries are visited in ascending tier order, which is the order the
      table lists them in. */
  method PushInPlace(need: array<int>, cnt: int, costs: map<int, int>)
    requires need.Length == Slots
    requires forall k | k in costs :: 0 <= k < Slots
    modifies need
    ensures need[..] == Push(old(need[..]), cnt, costs)
  {
    ghost var base := need[..];
    for low := 0 to Slots
      invariant forall k | 0 <= k < Slots ::
                  need[k] == base[k] + (if k in costs && k < low then cnt * costs[k] else 0)
    {
      if low in costs {
        need[low] := need[low] + cnt * costs[low];
      }
    }
    assert need[..] == Push(base, cnt, costs);
  }

  /** One iteration of the tier loop on the need and stock arrays. */
  method SettleInPlace(t: int, need: array<int>, stock: array<int>, epNeed: int) returns (epNeed': int)
    requires 2 <= t <= Tiers && need.Length == Slots && stock.Length >= Slots && need != stock
    modifies need, stock
    ensures Tally(need[..], stock[..], epNeed') == Settle(t, Tally(old(need[..]), old(stock[..]), epNeed))
  {
    ExchangeWellFormed();
    epNeed' := epNeed;
    if need[t] > 0 {
      var use := Min(need[t], stock[t]);
      need[t] := need[t] - use;
      stock[t] := stock[t] - use;
      if need[t] > 0 {
        var rule := Exchange[t];
        var cnt := need[t];
        PushInPlace(need, cnt, rule.items);
        epNeed' := epNeed' + cnt * rule.ep;
        need[t] := 0;
      }
    }
  }

  /** `can_make`, step by step on a private copy. Its answer is the
      functional `CanMake` of the inventory's current value. */
  method CanMakeInPlace(n: int, inv: Holdings, r: Reward) returns (ok: bool)
    requires inv.items.Length >= Slots && |r.items| >= Slots
    ensures ok == CanMake(n, inv.Value(), r)
  {
    if n <= 0 {
      return true;
    }
    var work := inv.Copy();
    ghost var start := Start(n, inv.Value(), r);
    assert work.items[..] == start.stock;
    var need := new int[Slots](i requires 0 <= i < Slots => if i == 0 then 0 else r.items[i] * n);
    var epNeed := r.ep * n;
    assert need[..] == start.need;

    var t := Tiers;
    while t > 1
      invariant 1 <= t <= Tiers
      invariant fresh(work) && fresh(work.items) && work.items != need
      invariant work.items.Length == inv.items.Length && work.ep == inv.ep
      invariant Resolve(t, Tally(need[..], work.items[..], epNeed)) == Resolve(Tiers, start)
      decreases t
    {
      epNeed := SettleInPlace(t, need, work.items, epNeed);
      t := t - 1;
    }

    ghost var before := Tally(need[..], work.items[..], epNeed);
    if need[1] > 0 {
      var use := Min(need[1], work.items[1]);
      need[1] := need[1] - use;
      work.items[1] := work.items[1] - use;
      if need[1] > 0 {
        epNeed := epNeed + need[1] * Exchange[1].ep;
        need[1] := 0;
      }
    }
    assert epNeed == SettleBase(before).ep;
    ok := epNeed <= work.ep;
  }
}
