/** `max_take`: the largest affordable quantity up to a reward's limit,
    found by binary search over the feasibility test. The search itself
    only ever asks the test yes/no questions, so it is stated over an
    arbitrary test and then instantiated with `CanMake`. */
module Search {
  import opened Model
  import opened Feasibility

  /** A test under which feasibility of a positive quantity implies
      feasibility of every smaller positive quantity. */
  ghost predicate DownwardClosed(feasible: int -> bool)
  {
    forall j, k | 1 <= j <= k :: feasible(k) ==> feasible(j)
  }

  /** Reference definition by linear scan: the largest `m` in 1..k with
      `feasible(m)`, or 0 if there is none. */
  function Largest(feasible: int -> bool, k: int): (m: int)
    ensures 0 <= m && (k >= 0 ==> m <= k)
    ensures m > 0 ==> feasible(m)
    ensures forall j | m < j <= k :: !feasible(j)
    decreases k
  {
    if k <= 0 then 0
    else if feasible(k) then k
    else Largest(feasible, k - 1)
  }

  /** Under a downward-closed test, the quantities 1..Largest are exactly
      the feasible ones up to `k`. */
  lemma LargestIsPrefix(feasible: int -> bool, k: int)
    requires DownwardClosed(feasible)
    ensures forall j | 1 <= j <= k :: feasible(j) <==> j <= Largest(feasible, k)
  {
  }

  /** Under a downward-closed test that fails at 1 nothing is feasible. */
  lemma NothingFeasible(feasible: int -> bool, limit: int)
    requires DownwardClosed(feasible) && !feasible(1)
    ensures Largest(feasible, limit) == 0
  {
  }

  /** Under a downward-closed test, a feasible quantity that is the limit or
      whose successor is infeasible is the largest feasible one. */
  lemma LocalMaximumIsLargest(feasible: int -> bool, m: int, limit: int)
    requires DownwardClosed(feasible)
    requires 1 <= m <= limit && feasible(m)
    requires m == limit || !feasible(m + 1)
    ensures m == Largest(feasible, limit)
  {
  }

  /** The bisection loop of `max_take`, for a test that holds at 1: the
      result is feasible, at least 1, and either the limit or followed by an
      infeasible quantity. When the limit is below 1 the loop does not run
      and 1 is returned. */
  method Bisect(feasible: int -> bool, limit: int) returns (m: int)
    requires feasible(1)
    ensures 1 <= m && feasible(m)
    ensures limit >= 1 ==> m <= limit && (m == limit || !feasible(m + 1))
    ensures limit < 1 ==> m == 1
  {
    var lo, hi := 1, limit;
    while lo < hi
      invariant 1 <= lo && feasible(lo)
      invariant hi <= limit
      invariant lo <= hi || (limit < 1 && lo == 1)
      invariant hi == limit || !feasible(hi + 1)
      decreases hi - lo
    {
      var mid := (lo + hi + 1) / 2;
      if feasible(mid) {
        lo := mid;
      } else {
        hi := mid - 1;
      }
    }
    m := lo;
  }

  /** `can_make` for a fixed inventory and reward, as a test on quantities. */
  function Affordable(inv: Inventory, r: Reward): (feasible: int -> bool)
    requires Shaped(inv, r)
  {
    n => CanMake(n, inv, r)
  }

  /** For a recipe with no negative quantity the affordability test is
      downward closed, which is what the bisection relies on. */
  lemma AffordableDownwardClosed(inv: Inventory, r: Reward)
    requires Shaped(inv, r) && RecipeNonNegative(r)
    ensures DownwardClosed(Affordable(inv, r))
  {
    forall j, k | 1 <= j <= k && CanMake(k, inv, r)
      ensures CanMake(j, inv, r)
    {
      CanMakeDownwardClosed(j, k, inv, r);
    }
  }

  /** For a recipe with no negative quantity, both ways `max_take` can
      finish (0 when one unit is unaffordable, or a local maximum of the
      bisection) yield the largest affordable quantity up to the limit. */
  lemma BisectionFindsLargest(inv: Inventory, r: Reward, m: int)
    requires Shaped(inv, r) && RecipeNonNegative(r) && r.limit >= 1
    requires m == 0 ==> !Affordable(inv, r)(1)
    requires m != 0 ==> 1 <= m <= r.limit && Affordable(inv, r)(m)
    requires m != 0 ==> m == r.limit || !Affordable(inv, r)(m + 1)
    ensures m == Largest(Affordable(inv, r), r.limit)
  {
    AffordableDownwardClosed(inv, r);
    if m == 0 {
      NothingFeasible(Affordable(inv, r), r.limit);
    } else {
      LocalMaximumIsLargest(Affordable(inv, r), m, r.limit);
    }
  }

  /** `max_take`. Returns 0 exactly when one unit is unaffordable; else an
      affordable quantity at most the limit that is the limit or whose
      successor is unaffordable. When the limit is below 1 the search does
      not run and 1 is returned. For recipes with no negative quantity the
      result is the largest affordable quantity found by a linear scan.
      Holding less EP than one unit's own price always gives 0. */
  method MaxTake(inv: Inventory, r: Reward) returns (m: int)
    requires Shaped(inv, r)
    ensures m == 0 <==> !CanMake(1, inv, r)
    ensures m >= 0 && CanMake(m, inv, r)
    ensures r.limit >= 1 ==> m <= r.limit
    ensures r.limit >= 1 && 0 < m < r.limit ==> !CanMake(m + 1, inv, r)
    ensures r.limit < 1 && m != 0 ==> m == 1
    ensures RecipeNonNegative(r) && r.limit >= 1 ==> m == Largest(Affordable(inv, r), r.limit)
    ensures inv.ep < r.ep ==> m == 0
  {
    if !CanMake(1, inv, r) {
      assert !Affordable(inv, r)(1);
      if RecipeNonNegative(r) && r.limit >= 1 {
        BisectionFindsLargest(inv, r, 0);
      }
      return 0;
    }
    var feasible := Affordable(inv, r);
    m := Bisect(feasible, r.limit);
    assert feasible(m) == CanMake(m, inv, r);
    assert feasible(m + 1) == CanMake(m + 1, inv, r);
    if RecipeNonNegative(r) && r.limit >= 1 {
      BisectionFindsLargest(inv, r, m);
    }
  }
}
