/** The feasibility test `can_make`: stock is used tier by tier from the top,
    every remaining deficit is converted into lower-tier needs and EP, and
    the total EP required is compared with the EP held. */
module Feasibility {
  import opened Ladder
  import opened Model

  /** The working state of one evaluation: outstanding need per tier, the
      private copy of the item stock, and the EP required so far. */
  datatype Tally = Tally(need: seq<int>, stock: seq<int>, ep: int)

  predicate Sized(w: Tally)
  {
    |w.need| == Slots && |w.stock| >= Slots
  }

  /** Units of a tier that must be made by conversion, given what is needed
      and what is held. Nothing is converted when nothing is needed;
      otherwise exactly the part of the need that the stock leaves open. */
  function Deficit(need: int, have: int): (d: int)
    ensures 0 <= d
    ensures need <= 0 ==> d == 0
    ensures need > 0 ==> d >= need - have && (d > 0 ==> d == need - have)
  {
    if need <= 0 then 0 else need - Min(need, have)
  }

  /** The state before the tier loop: `n` times the recipe, the caller's
      stock, and the reward's own EP price. */
  function Start(n: int, inv: Inventory, r: Reward): (w: Tally)
    requires Shaped(inv, r)
    ensures Sized(w)
    ensures w.need[0] == 0 && forall i | 1 <= i < Slots :: w.need[i] == r.items[i] * n
    ensures w.stock == inv.items && w.ep == r.ep * n
  {
    Tally(seq(Slots, i requires 0 <= i < Slots =>
                if i == 0 then 0 else r.items[i] * n),
          inv.items, r.ep * n)
  }

  /** Adds `cnt` units of every ingredient of `costs` to `need`. */
  function Push(need: seq<int>, cnt: int, costs: map<int, int>): (need': seq<int>)
    ensures |need'| == |need|
  {
    seq(|need|, k requires 0 <= k < |need| =>
          need[k] + (if k in costs then cnt * costs[k] else 0))
  }

  /** One iteration of the tier loop, for tier `t` in 2..Tiers: use the
      stock of tier `t`, then convert whatever is still needed. */
  function Settle(t: int, w: Tally): (w': Tally)
    requires 2 <= t <= Tiers && Sized(w)
    ensures Sized(w') && |w'.stock| == |w.stock|
    ensures w'.need[t] == Min(w.need[t], 0)
    ensures w'.ep >= w.ep
  {
    if w.need[t] <= 0 then w
    else
      var use := Min(w.need[t], w.stock[t]);
      var left := w.need[t] - use;
      var stock := w.stock[t := w.stock[t] - use];
      if left > 0 then
        var rule := Exchange[t];
        ExchangeWellFormed();
        MulMono(0, left, rule.ep);
        Tally(Push(w.need, left, rule.items)[t := 0], stock, w.ep + left * rule.ep)
      else
        Tally(w.need[t := left], stock, w.ep)
  }

  /** What one iteration does: tier `t` is left with no outstanding need,
      every other tier needs in addition what the deficit of `t` draws from
      it, so higher tiers are untouched; only the stock of tier `t` is
      consumed; and the EP of converting the deficit is added. */
  lemma SettleEffect(t: int, w: Tally)
    requires 2 <= t <= Tiers && Sized(w)
    ensures Settle(t, w).need[t] == Min(w.need[t], 0)
    ensures forall k | 0 <= k < Slots && k != t ::
              Settle(t, w).need[k] == w.need[k] + Deficit(w.need[t], w.stock[t]) * Cost(t, k)
    ensures forall k | t < k < Slots :: Settle(t, w).need[k] == w.need[k]
    ensures forall k | 0 <= k < |w.stock| && k != t :: Settle(t, w).stock[k] == w.stock[k]
    ensures w.need[t] > 0 ==> Settle(t, w).stock[t] == w.stock[t] - Min(w.need[t], w.stock[t])
    ensures Settle(t, w).ep == w.ep + Deficit(w.need[t], w.stock[t]) * EpCost(t)
  {
  }

  /** The tier loop, from tier `t` down to tier 2: afterwards no tier in
      2..t has outstanding need, the tiers above `t` are untouched, and the
      EP required has only grown. */
  function Resolve(t: int, w: Tally): (w': Tally)
    requires 1 <= t <= Tiers && Sized(w)
    ensures Sized(w') && |w'.stock| == |w.stock|
    ensures forall k | 2 <= k <= t :: w'.need[k] <= 0
    ensures forall k | t < k < Slots :: w'.need[k] == w.need[k]
    ensures w'.ep >= w.ep
    decreases t
  {
    if t < 2 then w else SettleEffect(t, w); Resolve(t - 1, Settle(t, w))
  }

  /** Beyond `Resolve`'s own contract: the loop from tier `t` down leaves
      the stock of the tiers above `t` and of tier 1 as before, and the
      tier-1 need has only grown. */
  lemma {:induction false} ResolveEffect(t: int, w: Tally)
    requires 1 <= t <= Tiers && Sized(w)
    ensures forall k | t < k < Slots :: Resolve(t, w).stock[k] == w.stock[k]
    ensures Resolve(t, w).stock[1] == w.stock[1]
    ensures Resolve(t, w).need[1] >= w.need[1]
    decreases t
  {
    if t >= 2 {
      var w' := Settle(t, w);
      SettleEffect(t, w);
      MulMono(0, Deficit(w.need[t], w.stock[t]), Cost(t, 1));
      ResolveEffect(t - 1, w');
    }
  }

  /** The tier-1 block: stock first, the rest bought with EP. */
  function SettleBase(w: Tally): (w': Tally)
    requires Sized(w)
    ensures Sized(w')
    ensures w'.need[1] == Min(w.need[1], 0)
    ensures w'.ep >= w.ep
  {
    if w.need[1] <= 0 then w
    else
      var use := Min(w.need[1], w.stock[1]);
      var left := w.need[1] - use;
      var stock := w.stock[1 := w.stock[1] - use];
      if left > 0 then
        ExchangeWellFormed();
        MulMono(0, left, Exchange[1].ep);
        Tally(w.need[1 := 0], stock, w.ep + left * Exchange[1].ep)
      else
        Tally(w.need[1 := left], stock, w.ep)
  }

  /** What the tier-1 block does: tier 1 is left with no outstanding need,
      other tiers are untouched, and the EP for its deficit is added. */
  lemma SettleBaseEffect(w: Tally)
    requires Sized(w)
    ensures SettleBase(w).need[1] == Min(w.need[1], 0)
    ensures forall k | 2 <= k < Slots :: SettleBase(w).need[k] == w.need[k]
    ensures forall k | 0 <= k < |w.stock| && k != 1 :: SettleBase(w).stock[k] == w.stock[k]
    ensures SettleBase(w).ep == w.ep + Deficit(w.need[1], w.stock[1]) * EpCost(1)
  {
  }

  /** The state after the tier loop and the tier-1 block. */
  function Final(n: int, inv: Inventory, r: Reward): (w: Tally)
    requires Shaped(inv, r)
    ensures Sized(w)
  {
    SettleBase(Resolve(Tiers, Start(n, inv, r)))
  }

  /** Total EP that `n` units of `r` require from `inv`. Conversions only
      ever add EP, so it is never below the reward's own price; its exact
      value is the per-tier sum of `ClosedForm`. */
  function EpNeeded(n: int, inv: Inventory, r: Reward): (e: int)
    requires Shaped(inv, r)
    ensures e >= r.ep * n
  {
    Final(n, inv, r).ep
  }

  /** `can_make`: nothing (n <= 0) is always affordable; otherwise the EP
      required must not exceed the EP held, so holding less EP than the
      reward's own price for `n > 0` units is never enough, whatever items
      are held. */
  function CanMake(n: int, inv: Inventory, r: Reward): (ok: bool)
    requires Shaped(inv, r)
    ensures n <= 0 ==> ok
    ensures n > 0 && inv.ep < r.ep * n ==> !ok
  {
    if n <= 0 then true else EpNeeded(n, inv, r) <= inv.ep
  }

  /** Reference definition of the EP requirement, written out per tier:
      each tier's deficit against the caller's stock, where the need of a
      tier is `n` times the recipe plus what the deficits of all higher
      tiers draw from it; the total is the reward's price plus each
      deficit times the EP cost of its conversion. */
  function ClosedFormEp(n: int, inv: Inventory, r: Reward): int
    requires Shaped(inv, r)
  {
    var q, s := r.items, inv.items;
    var d5 := Deficit(q[5] * n, s[5]);
    var d4 := Deficit(q[4] * n + d5 * Cost(5, 4), s[4]);
    var d3 := Deficit(q[3] * n + d5 * Cost(5, 3) + d4 * Cost(4, 3), s[3]);
    var d2 := Deficit(q[2] * n + d5 * Cost(5, 2) + d4 * Cost(4, 2) + d3 * Cost(3, 2), s[2]);
    var d1 := Deficit(q[1] * n + d5 * Cost(5, 1) + d4 * Cost(4, 1) + d3 * Cost(3, 1) + d2 * Cost(2, 1), s[1]);
    r.ep * n + d5 * EpCost(5) + d4 * EpCost(4) + d3 * EpCost(3) + d2 * EpCost(2) + d1 * EpCost(1)
  }

  /** The tier loop written out as its four iterations. */
  lemma ResolveUnrolled(w: Tally)
    requires Sized(w)
    ensures Resolve(Tiers, w) == Settle(2, Settle(3, Settle(4, Settle(5, w))))
  {
    var w4 := Settle(5, w);
    var w3 := Settle(4, w4);
    var w2 := Settle(3, w3);
    assert Resolve(2, w2) == Resolve(1, Settle(2, w2));
    assert Resolve(3, w3) == Resolve(2, w2);
    assert Resolve(4, w4) == Resolve(3, w3);
  }

  /** The tier loop computes exactly the reference sum. */
  lemma ClosedForm(n: int, inv: Inventory, r: Reward)
    requires Shaped(inv, r)
    ensures EpNeeded(n, inv, r) == ClosedFormEp(n, inv, r)
  {
    var w5 := Start(n, inv, r);
    var w4 := Settle(5, w5);
    var w3 := Settle(4, w4);
    var w2 := Settle(3, w3);
    var w1 := Settle(2, w2);
    SettleEffect(5, w5);
    SettleEffect(4, w4);
    SettleEffect(3, w3);
    SettleEffect(2, w2);
    ResolveUnrolled(w5);
    SettleBaseEffect(w1);
  }

  /** `hi` needs at least as much as `lo` at every tier up to `t` and has
      the same stock there, and `hi` has accumulated at least as much EP. */
  ghost predicate Dominates(t: int, lo: Tally, hi: Tally)
  {
    Sized(lo) && Sized(hi) && t < Slots && lo.ep <= hi.ep &&
    forall k | 1 <= k <= t :: lo.need[k] <= hi.need[k] && lo.stock[k] == hi.stock[k]
  }

  lemma MulMono(a: int, b: int, c: int)
    requires a <= b && 0 <= c
    ensures a * c <= b * c
  {
  }

  lemma DeficitMono(need: int, need': int, have: int)
    requires need <= need'
    ensures Deficit(need, have) <= Deficit(need', have)
  {
  }

  /** One tier step keeps a larger need larger on every lower tier. */
  lemma SettleMonotone(t: int, lo: Tally, hi: Tally)
    requires 2 <= t <= Tiers && Dominates(t, lo, hi)
    ensures Dominates(t - 1, Settle(t, lo), Settle(t, hi))
  {
    var dl, dh := Deficit(lo.need[t], lo.stock[t]), Deficit(hi.need[t], hi.stock[t]);
    SettleEffect(t, lo);
    SettleEffect(t, hi);
    DeficitMono(lo.need[t], hi.need[t], lo.stock[t]);
    MulMono(dl, dh, EpCost(t));
    forall k | 1 <= k <= t - 1
      ensures Settle(t, lo).need[k] <= Settle(t, hi).need[k]
    {
      MulMono(dl, dh, Cost(t, k));
    }
  }

  /** The tier loop is monotone: a state that needs more ends up requiring
      at least as much EP and at least as much tier 1. */
  lemma {:induction false} ResolveMonotone(t: int, lo: Tally, hi: Tally)
    requires 1 <= t <= Tiers && Dominates(t, lo, hi)
    ensures Dominates(1, Resolve(t, lo), Resolve(t, hi))
    decreases t
  {
    if t >= 2 {
      SettleMonotone(t, lo, hi);
      ResolveMonotone(t - 1, Settle(t, lo), Settle(t, hi));
    }
  }

  /** For a recipe with no negative quantity, the EP required never
      decreases as the number of units grows. */
  lemma EpNeededMonotone(j: int, k: int, inv: Inventory, r: Reward)
    requires Shaped(inv, r) && RecipeNonNegative(r) && j <= k
    ensures EpNeeded(j, inv, r) <= EpNeeded(k, inv, r)
  {
    var lo, hi := Start(j, inv, r), Start(k, inv, r);
    MulMono(j, k, r.ep);
    forall i | 1 <= i <= Tiers
      ensures lo.need[i] <= hi.need[i]
    {
      MulMono(j, k, r.items[i]);
    }
    ResolveMonotone(Tiers, lo, hi);
    var a, b := Resolve(Tiers, lo), Resolve(Tiers, hi);
    SettleBaseEffect(a);
    SettleBaseEffect(b);
    DeficitMono(a.need[1], b.need[1], a.stock[1]);
    MulMono(Deficit(a.need[1], a.stock[1]), Deficit(b.need[1], b.stock[1]), EpCost(1));
  }

  /** Affordability is downward closed: if `k` units can be made, so can
      every smaller number. This is what makes binary search sound. */
  lemma CanMakeDownwardClosed(j: int, k: int, inv: Inventory, r: Reward)
    requires Shaped(inv, r) && RecipeNonNegative(r) && j <= k
    requires CanMake(k, inv, r)
    ensures CanMake(j, inv, r)
  {
    if j > 0 {
      EpNeededMonotone(j, k, inv, r);
    }
  }

  /** Every need is non-negative. */
  ghost predicate NoNegativeNeed(w: Tally)
  {
    Sized(w) && forall k | 1 <= k < Slots :: w.need[k] >= 0
  }

  lemma {:induction false} ResolveKeepsNeedsNonNegative(t: int, w: Tally)
    requires 1 <= t <= Tiers && NoNegativeNeed(w)
    ensures NoNegativeNeed(Resolve(t, w))
    decreases t
  {
    if t >= 2 {
      var w' := Settle(t, w);
      SettleEffect(t, w);
      assert NoNegativeNeed(w') by {
        forall k | 1 <= k < Slots && k != t
          ensures w'.need[k] >= 0
        {
          MulMono(0, Deficit(w.need[t], w.stock[t]), Cost(t, k));
        }
      }
      ResolveKeepsNeedsNonNegative(t - 1, w');
    }
  }

  /** For a recipe with no negative quantity and n >= 0, every tier's need
      has been fully met from stock or converted once the evaluation ends. */
  lemma AllNeedsSettled(n: int, inv: Inventory, r: Reward)
    requires Shaped(inv, r) && RecipeNonNegative(r) && n >= 0
    ensures forall k | 1 <= k <= Tiers :: Final(n, inv, r).need[k] == 0
  {
    var w := Start(n, inv, r);
    forall i | 1 <= i < Slots
      ensures w.need[i] >= 0
    {
      MulMono(0, n, r.items[i]);
    }
    ResolveKeepsNeedsNonNegative(Tiers, w);
    ResolveEffect(Tiers, w);
    SettleBaseEffect(Resolve(Tiers, w));
  }
}
