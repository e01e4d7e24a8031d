# Event reward exchange calculator — Dafny model

This project models the exchange-resolution core of a small event-reward calculator. A player holds EP (the base currency) and items of tiers 1..5. Each reward costs some items of each tier plus EP per unit, and may be taken at most `limit` times. A missing item of tier `t` can be made from lower tiers plus EP by a fixed conversion ladder, `EXCHANGE`. Tier 1 is bought with EP alone.

The model covers:

- **Ladder** (`ladder.dfy`): the `EXCHANGE` table as a map from tier to `Rule(items, ep)`. It includes a proof that the ladder is acyclic: every rule draws only on strictly lower tiers, in positive amounts, and costs positive EP.
- **Model** (`model.dfy`): the `Inventory` and `Reward` records. Item lists are indexed by tier, and index 0 is unused padding, as in the program.
- **Catalog** (`catalog.dfy`): the `REWARDS_DEF` table and `load_rewards`, with worked cases. The helper `SrTicketSum` evaluates the reference sum for one of them.
- **Feasibility** (`feasibility.dfy`): `can_make` as pure functions. The walk from tier 5 down to tier 2 is `Resolve`, one iteration of it is `Settle`, and the tier-1 block is `SettleBase`. Three helpers have no row of their own. `Push` is the inner conversion loop, and its effect is stated by `SettleEffect` and `InPlace.PushInPlace`. `Final` names the state after the loop and the tier-1 block. `ResolveUnrolled` writes the loop out as its four iterations. `EpNeeded` is the total EP required, and `CanMake` is `n <= 0 || EpNeeded <= ep`. There is also an independent closed-form sum and monotonicity in `n`.
- **Search** (`search.dfy`): `max_take`. Its bisection is stated over any yes/no test and then used with `CanMake`. It is compared against a linear-scan reference.
- **Shortfall** (`shortfall.dfy`): `compute_missing_direct`, and how it relates to `can_make`.
- **InPlace** (`inplace.dfy`): the mutable shape of `can_make`. It works on an `Inventory` object with an item array, copies the object and updates the copy in place. The method has no `modifies` clause, so the verifier itself enforces that the caller's inventory is never written.

Python integers are unbounded, so Dafny `int` is used with no wrap-around. `max_take` computes `(lo + hi + 1) // 2` only when `lo >= 1` and `hi > lo`. The operand is therefore positive, and Dafny's `/` agrees with Python's floor division there.

Points where the code's behaviour is easy to misread, modelled as the code has it:

- `max_take` called with a limit below 1 on an affordable reward returns 1, not a value in `[0, limit]`. The bisection loop never runs in that case. `MaxTake` states this.
- The code does not require holdings to be non-negative, and neither does the model. Monotonicity in `n` needs only a recipe with no negative quantity.
- There is no exchange-plan generator in the code. Its only shortfall logic is `compute_missing_direct`.

## Model

| member | source | states |
|---|---|---|
| Ladder.ExchangeWellFormed | app.py:16-22 | The table covers exactly tiers 1..5. Every rule costs positive EP and draws positive amounts of strictly lower tiers only, so deficits can only flow downwards. |
| Ladder.Cost | app.py:16-22 | The amount of tier `k` drawn by one unit of tier `t` is non-negative, and positive only for `1 <= k < t`. |
| Ladder.EpCost | app.py:16-22 | Every conversion costs positive EP. |
| Catalog.LoadRewards | app.py:142-146 | There is one reward per table row, in order. Each keeps its row's name, limit and EP, and its item list is `[0, i1..i5]`: the tier columns behind a zero padding slot. |
| Catalog.CatalogWellFormed | app.py:25-43 | Every loaded reward has a full item list, no negative quantity, a positive EP price and a positive limit. |
| Catalog.EmptyInventoryAffordsNothing | app.py:26-42 | With zero EP and zero items, not even one unit of any catalog reward is affordable, so `max_take` gives 0 for every one of them. |
| Catalog.LuxuryRamuneFromEpAlone | app.py:38 | From EP alone, `n` "Luxury Ramune" need exactly `191000 * n` EP. They are affordable iff that much EP is held. |
| Catalog.SrTicketFromEpAlone | app.py:28 | One "SR Ticket" made from EP alone needs 438545000 EP, after cascading tier 5 and tier 4 down through tiers 3, 2 and 1. |
| Catalog.SrTicketFromItems | app.py:28 | Holding the ticket's tier-4 and tier-5 items outright leaves only its 35000 EP price to pay. |
| Feasibility.Deficit | app.py:88-94 | A tier is converted only when needed, and then exactly the part of the need that the stock leaves open. The result is never negative. |
| Feasibility.Start | app.py:81-85 | The state before the loop: tier `i` needs `n` times the recipe's quantity, slot 0 needs nothing, the stock is the caller's item list, and the EP required starts at `n` times the reward's price. |
| Feasibility.Settle | app.py:88-100 | One loop iteration for tier `t`: afterwards tier `t` has no outstanding need (a non-positive need is left as it was), and the EP required has not decreased. `SettleEffect` states the rest. |
| Feasibility.SettleEffect | app.py:87-100 | Exactly what one iteration changes. Tier `t`'s stock drops by `min(need, stock)` when its need is positive, and no other tier's stock changes. Each lower tier's need grows by `deficit * amount`, and `deficit * EXCHANGE[t].ep` is added to the EP required. |
| Feasibility.Resolve | app.py:87-100 | The loop from tier `t` down to tier 2 leaves tiers 2..t with no outstanding need and the tiers above `t` untouched. The EP required only grows. The proof is an induction on `t` through `SettleEffect`. |
| Feasibility.ResolveEffect | app.py:87-100 | The loop also leaves the stock of tier 1 and of the tiers above `t` as it was, and the tier-1 need only grows. `AllNeedsSettled` builds on it. |
| Feasibility.SettleBase | app.py:102-108 | The tier-1 block leaves tier 1 with no outstanding need and does not decrease the EP required. |
| Feasibility.SettleBaseEffect | app.py:102-108 | The tier-1 block leaves every other tier's need and stock untouched and adds exactly `deficit * 1000` EP. |
| Feasibility.EpNeeded | app.py:82-110 | The `ep_need` total after the loop and the tier-1 block. Conversions only add EP, so it is never below `r.ep * n`. Its exact value is given by `ClosedForm`. |
| Feasibility.CanMake | app.py:77-110 | `n <= 0` is always affordable, whatever the inventory. Holding less EP than `r.ep * n` makes `n > 0` units unaffordable, whatever items are held. |
| Feasibility.ClosedForm | app.py:82-110 | The loop's EP total equals an independent per-tier sum: `r.ep * n + Σ deficit_t * EXCHANGE[t].ep + deficit_1 * 1000`, where each tier's need is the recipe plus what all higher tiers' deficits draw from it. |
| Feasibility.SettleMonotone | app.py:87-100 | One iteration preserves "needs at least as much on every lower tier, same stock, at least as much EP". |
| Feasibility.ResolveMonotone | app.py:87-100 | The whole 5→2 loop preserves that ordering. |
| Feasibility.EpNeededMonotone | app.py:82-110 | For a recipe with no negative quantity, the EP required never decreases as `n` grows, for any holdings. |
| Feasibility.CanMakeDownwardClosed | app.py:77-110 | For such recipes, `can_make(k)` implies `can_make(j)` for every `j <= k`. |
| Feasibility.ResolveKeepsNeedsNonNegative | app.py:87-100 | Starting from non-negative needs, the loop never makes a need negative. |
| Feasibility.AllNeedsSettled | app.py:87-108 | For such recipes and `n >= 0`, every `need[t]`, t = 1..5, is exactly 0 at the end. |
| Search.Largest | app.py:112-122 | Linear-scan reference: the largest feasible `m` in 1..k, or 0. Everything above it up to `k` is infeasible. |
| Search.LargestIsPrefix | app.py:116-121 | Under a downward-closed test, `j` in 1..k is feasible iff `j` is at most the linear-scan result. |
| Search.NothingFeasible | app.py:113-114 | Under a downward-closed test that fails at 1, the linear scan gives 0. |
| Search.LocalMaximumIsLargest | app.py:116-122 | Under a downward-closed test, a feasible `m` that is the limit, or whose successor is infeasible, is the linear-scan result. |
| Search.Bisect | app.py:115-122 | Starting from a test true at 1, the loop returns a feasible `m >= 1`. If `limit >= 1`, then `m <= limit` and `m` is either the limit or followed by an infeasible value. If `limit < 1`, it returns 1. |
| Search.AffordableDownwardClosed | app.py:116-121 | For recipes with no negative quantity, `can_make` is a downward-closed test. |
| Search.BisectionFindsLargest | app.py:113-122 | Both ways `max_take` can finish give the linear-scan maximum. |
| Search.MaxTake | app.py:112-122 | Returns 0 iff one unit is unaffordable. Otherwise it returns an affordable value that is at most the limit and either equals the limit or is followed by an unaffordable value. A limit below 1 gives 1. For recipes with no negative quantity it equals the linear scan. EP below one unit's price gives 0. |
| Shortfall.Gap | app.py:161 | The gap is the least non-negative amount that, added to what is held, covers the need. |
| Shortfall.ComputeMissingDirect | app.py:149-166 | Needs are `count` times the recipe for tiers 1..5 and for EP. Each missing amount is non-negative, covers the need together with the holding, and is tight when positive. Slot 0 is 0. |
| Shortfall.MissingIsZeroIffCovered | app.py:159-164 | Nothing is missing iff the holding covers the need, for each tier and for EP. With a non-negative holding, the missing amount is at most `max(0, need)`. |
| Shortfall.NothingMissingMeansAffordable | app.py:77-166 | If nothing is missing without exchanges, `can_make(count)` holds and exactly `r.ep * count` EP is required. |
| InPlace.Holdings.Copy | app.py:51-52 | The copy is a new object with a new item array, holding the same EP and item values. Writes to it cannot reach the original. |
| InPlace.PushInPlace | app.py:97-98 | The inner loop adds `cnt * amt` to each lower tier named by the rule, as the functional `Push` does. |
| InPlace.SettleInPlace | app.py:88-100 | One in-place iteration on the need and stock arrays yields the functional `Settle`. |
| InPlace.CanMakeInPlace | app.py:77-110 | The imperative test on a copied inventory object returns exactly `CanMake` of the inventory's value. With no `modifies` clause, the caller's object and its item array cannot be written. |

## Left out

- `main` (app.py:169-338): Streamlit page layout, widget input, HTML table rendering and the state save button. This is presentation only.
- `load_state` / `save_state` (app.py:125-140): JSON file I/O with a fallback on any exception. Only their output shape is used: operations require item lists of at least 6 entries, the indices the code reads.
- `img_data_uri` (app.py:62-67), `reward_icon_path` (app.py:69-71) and `fmt_ep` (app.py:73-74): file reads, base64, Unicode lower-casing and number formatting. They are cosmetic and unrelated to the arithmetic.
- An exchange-plan generator with a reservation ledger: it is not part of this model, because the program has no such function.
- `Inventory` and `Reward` constructors (app.py:47-59): these are plain field stores, modelled as the `Inventory`/`Reward` datatypes and the `Holdings` constructor.
- InPlace.PushInPlace: visits the entries of one conversion rule in ascending tier order rather than dict insertion order. The two coincide for every rule in the table, and the additions commute anyway.
- Search.MaxTake: the statement "returns the largest affordable quantity" is proved only for recipes with no negative quantity (every catalog reward qualifies). For other recipes `can_make` need not be monotone, and only the local-maximum property is stated.
