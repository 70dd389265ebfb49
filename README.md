# Royalty-separated pricing, modelled in Dafny

The repository prices one product across several distribution platforms.
Each platform has a margin (the share of the sale price the seller keeps)
and an allowed price range. The royalty of a platform is its margin times its
price. Three scripts choose the prices:

- `optimize_with_cvxpy` (op_cvx.py) maximizes the total royalty under three kinds of constraint.
  - Two bound constraints per platform.
  - One royalty-separation constraint between each pair of adjacent margin tiers. A tier is the platforms sharing one margin, and each tier is represented by its first member.
  - One spread constraint for every pair of platforms inside a tier.
- `optimize_pricing` (optimizer.py) maximizes the total royalty with SLSQP. Its constraints are that prices never decrease and royalties never increase along the platform list. It starts from a given guess or from the midpoints of the ranges.
- `enforce_royalty_separation` (rules.py) is a greedy pricer. It stably sorts the platforms by descending margin and gives the first its highest price. Each later platform gets the price `(previous royalty - min_diff) / margin`, clamped to its range. With a positive margin this is the highest in-range price that keeps its royalty `min_diff` below the previous one.

Modules:

- `Common` holds platforms, price ranges, royalties and sums.
- `Constraints` holds the constraint records that both optimizers hand to their solvers. A single function evaluates any of them.
- `MarginGrouping` is the grouping dictionary and the sorted distinct margins of op_cvx.py.
- `CvxModel` covers the constraint-building loops of op_cvx.py.
- `Optimizer` covers optimizer.py.
- `Rules` covers rules.py.

Each loop of the source is a method. Its postcondition equates what it builds with a specification function. Lemmas about that function state what the constraints or prices mean.

Both solvers are black boxes, so each is a function parameter: `solve` for cvxpy, `minimize` for scipy. Prices, margins and royalties are exact reals.

Some properties that a reader might expect of such a pricer do not hold in these scripts, and the model keeps them out:

- optimizer.py:33-34 starts the solver from the midpoints of the ranges. It does not use a margin-ranked seed.
- optimizer.py:29-30 requires royalties only to be non-increasing along the input list. It does not require them to be strictly decreasing, and it does not compare tiers.
- op_cvx.py:37-44 separates only the first members of adjacent tiers. Other members of a tier are tied to it only by the spread constraints.
- op_cvx.py:40-41 reads `margin_groups[m][0]` with no guard for a missing tier. `CvxModel.Representative` proves that every tier has one.
- Both objectives are the plain negated or maximized total royalty (optimizer.py:17-19, op_cvx.py:17-18). Neither adds a penalty term.

The Python default arguments are kept as Dafny default values. `min_royalty_diff` defaults to 0.5 in `CvxModel.OptimizeWithCvxpy` (op_cvx.py:5). `initial_guess` defaults to `None` in `Optimizer.OptimizePricing` (optimizer.py:6), so the solver parameter comes before it. `min_diff` defaults to 0.3 in `Rules.EnforceRoyaltySeparation` (rules.py:3).

## Model

| member | source | states |
|---|---|---|
| `Common.UppersMaximizeTotal` | op_cvx.py:16-18 | with no negative margin, raising every price to its upper bound never lowers the total royalty |
| `Constraints.LowerBoundOn` | op_cvx.py:26 | the constraint holds at prices `p` exactly when `p[i] >= low` |
| `Constraints.UpperBoundOn` | op_cvx.py:27 | the constraint holds exactly when `p[i] <= high` |
| `Constraints.SeparationOf` | op_cvx.py:43 | the constraint holds exactly when `margins[hi]*p[hi] >= margins[lo]*p[lo] + diff` |
| `Constraints.SpreadOf` | op_cvx.py:53 | the constraint holds exactly when `abs(p[a] - p[b]) <= cap` |
| `Constraints.PriceOrderAt` | optimizer.py:26 | step `i`'s price-order constraint reads indices `i` and `i+1` (the `i=i` snapshot) and holds exactly when `x[i] <= x[i+1]` |
| `Constraints.RoyaltyOrderAt` | optimizer.py:30 | step `i`'s royalty-order constraint reads indices `i` and `i+1` and holds exactly when royalty `i` is at least royalty `i+1` |
| `MarginGrouping.Members` | op_cvx.py:31-33 | every index filed under margin `m` holds margin `m`, and the list is strictly increasing |
| `MarginGrouping.MembersComplete` | op_cvx.py:32-33 | every index whose margin is `m` is filed under `m` |
| `MarginGrouping.GroupsPartition` | op_cvx.py:31-33 | each index lies in the group of its own margin and in no other group, and groups hold only valid indices |
| `MarginGrouping.FirstIndex` | op_cvx.py:40-41 | the lowest index holding margin `m` |
| `MarginGrouping.GroupHead` | op_cvx.py:40-41 | the group of a present margin is non-empty and starts at that margin's lowest index |
| `MarginGrouping.Distinct` | op_cvx.py:31-33 | the dictionary's keys: exactly the input margins, each once |
| `MarginGrouping.SortedDistinctDesc` | op_cvx.py:36 | `unique_margins` is strictly descending and holds exactly the input margins |
| `MarginGrouping.DescendingUnique` | op_cvx.py:36 | two strictly descending lists with the same elements are equal, so `unique_margins` depends only on the set of margins |
| `MarginGrouping.GroupMapSnoc` | op_cvx.py:33 | filing one more margin appends its index to that margin's group, creates the group when the key is new, and changes no other group |
| `MarginGrouping.GroupKeys` | op_cvx.py:33 | a margin is a key of the dictionary exactly when it is among the distinct margins |
| `MarginGrouping.GroupMargins` | op_cvx.py:31-33 | the grouping loop yields the dictionary mapping each margin to its members, with keys in first-appearance order |
| `CvxModel.BoundConstraints` | op_cvx.py:24-28 | the bound loop builds the lower then the upper bound of each platform in turn |
| `CvxModel.BoundSpecShape` | op_cvx.py:24-28 | there are `2n` bound constraints; platform `i`'s lower bound is at `2i` and its upper bound at `2i+1` |
| `CvxModel.BoundSpecMeaning` | op_cvx.py:24-28 | all bound constraints hold exactly when every price lies in its range |
| `CvxModel.TierRepresentativesMeaning` | op_cvx.py:36-41 | representative `k` is the lowest index of the `k`-th largest margin; representatives of higher tiers have strictly larger margins; every platform's margin has a representative |
| `CvxModel.Representative` | op_cvx.py:38-41 | every tier has a non-empty group whose first entry is the tier's representative |
| `CvxModel.SeparationConstraints` | op_cvx.py:37-44 | the separation loop builds one constraint per adjacent pair of tiers, between their representatives |
| `CvxModel.SeparationCount` | op_cvx.py:37 | with platforms present there are `len(unique_margins) - 1` separation constraints, and none when there is a single tier |
| `CvxModel.SeparationOverMeaning` | op_cvx.py:42-44 | over any list of representatives, the constraints hold exactly when each representative out-earns the next by `diff` |
| `CvxModel.SeparationMeaning` | op_cvx.py:37-44 | the separation constraints hold exactly when, down the tiers in descending margin, each representative out-earns the next by `min_royalty_diff` |
| `CvxModel.SeparationChain` | op_cvx.py:42-44 | under separation, representative `b` earns at least `(b - a) * diff` less than any earlier representative `a` |
| `CvxModel.GroupSpreadConstraints` | op_cvx.py:49-54 | the nested pair loop over one group builds one constraint per position pair `i < j`, and none for a group of fewer than two |
| `CvxModel.SpreadConstraints` | op_cvx.py:48-54 | the spread loops visit the groups in the dictionary's key order and concatenate their pair constraints |
| `CvxModel.GroupSpreadCount` | op_cvx.py:49-54 | a group of `k` members contributes `k*(k-1)/2` constraints |
| `CvxModel.PairPresent` | op_cvx.py:50-53 | every pair of group positions `i < j` has its spread constraint |
| `CvxModel.PairsHold` | op_cvx.py:50-54 | the constraints of the first `i` outer steps hold exactly when every pair starting below `i` is within 5.0 |
| `CvxModel.GroupSpreadHolds` | op_cvx.py:48-54 | one group's constraints hold exactly when any two platforms of that margin are priced at most 5.0 apart |
| `CvxModel.SpreadMeaning` | op_cvx.py:47-54 | all spread constraints hold exactly when any two platforms sharing a margin are priced at most `max_variation` apart |
| `CvxModel.BuildConstraints` | op_cvx.py:21-54 | the full list is the bounds, then the separation constraints, then the spread constraints; `unique_margins` is the sorted distinct margins |
| `CvxModel.ConstraintCount` | op_cvx.py:21-54 | the list has `2n + (u - 1) + sum of k*(k-1)/2` constraints, for `u` distinct margins and group sizes `k` |
| `CvxModel.FeasibleMeaning` | op_cvx.py:21-54 | prices meet the whole list exactly when they are within bounds, adjacent tiers are separated, and same-margin prices are within 5.0 of each other |
| `CvxModel.FeasibleTotalAtMostUppers` | op_cvx.py:16-28 | with no negative margin, a feasible price vector earns no more in total than all upper bounds |
| `CvxModel.OptimizeWithCvxpy` | op_cvx.py:57-62 | the solver receives the margins and the full constraint list; the royalty vector is margin times solved price, entry by entry |
| `Optimizer.ObjectiveLeastAtUppers` | optimizer.py:17-19 | with no negative margin, the negated total royalty is smallest at the upper bounds among prices within the bounds |
| `Optimizer.PriceOrderSpec` | optimizer.py:25 | there are `n - 1` price-order constraints, and none when `n <= 1` |
| `Optimizer.RoyaltyOrderSpec` | optimizer.py:29 | there are `n - 1` royalty-order constraints, and none when `n <= 1` |
| `Optimizer.OrderConstraints` | optimizer.py:24-30 | the two loops build all price-order constraints, then all royalty-order constraints, step `i` of each reading `i` and `i+1` |
| `Optimizer.PriceOrderStep` | optimizer.py:26 | constraint `i` of the first family holds exactly when `x[i] <= x[i+1]` |
| `Optimizer.RoyaltyOrderStep` | optimizer.py:30 | constraint `i` of the second family holds exactly when `margins[i]*x[i] >= margins[i+1]*x[i+1]` |
| `Optimizer.PriceOrderMeaning` | optimizer.py:24-26 | all price-order constraints hold exactly when the prices are non-decreasing along the list |
| `Optimizer.RoyaltyOrderMeaning` | optimizer.py:28-30 | all royalty-order constraints hold exactly when the royalties are non-increasing along the list |
| `Optimizer.Midpoints` | optimizer.py:34 | each default guess is equidistant from its range's ends and lies inside any range with `low <= high` |
| `Optimizer.InitialGuess` | optimizer.py:33-34 | a missing or empty guess is replaced by the midpoints; any other guess is used unchanged |
| `Optimizer.DefaultGuessWithinBounds` | optimizer.py:33-34 | without a usable guess, the solver starts inside well-formed bounds |
| `Optimizer.Summarize` | optimizer.py:40-52 | on failure the summary is the solver message alone; on success it has one row per platform with its name, price, margin and `margin * price` |
| `Optimizer.OptimizePricing` | optimizer.py:12-52 | the solver receives the margins, the chosen guess, the bounds and both constraint families, and its answer is summarized |
| `Optimizer.FeasibleSummaryOrdered` | optimizer.py:24-45 | if the solver succeeds with a point meeting its constraints, the reported prices never decrease and the reported royalties never increase down the list |
| `Rules.InsertAfter` | rules.py:5 | inserting a new index after all of at least its margin keeps the list stably ordered and adds exactly that index |
| `Rules.StableOrder` | rules.py:5 | the sort order lists each index once, with larger margins first and equal margins in input order |
| `Rules.StablyOrderedUnique` | rules.py:5 | two stably ordered index lists with the same elements are equal, so any stable descending sort gives this order |
| `Rules.SortByMarginDescMeaning` | rules.py:5 | `platforms_sorted` holds every input platform exactly once, with margins non-increasing and equal margins in their input order |
| `Rules.RowFor` | rules.py:15-35 | name and margin are copied and royalty is margin times price. The price is at least `min_price`, and at most `max_price` when the range is well-formed. The first platform gets its highest price. A later platform with a positive margin either sits at `min_price` or has royalty at most `previous - min_diff`, and no in-range price keeping that gap is higher. The target price is taken exactly when it lies in range. When the target lies above the range, the price is `max(max_price, min_price)` |
| `Rules.LaterPriceFacts` | rules.py:20-26 | the later-platform price `max(min(target / margin, max_price), min_price)` keeps the gap unless raised to `min_price` when the margin is positive, and is then the highest admissible price. It equals the target in range, and the highest price when the target lies above the range |
| `Rules.Greedy` | rules.py:10-35 | the loop fails exactly when a platform after the first has a zero margin, at the first such position; otherwise it yields one row per platform |
| `Rules.GreedyRow` | rules.py:10-28 | row `k` is priced from the royalty of row `k - 1` (`previous_royalty` carries the royalty just recorded) |
| `Rules.GreedyMeaning` | rules.py:10-35 | each row copies its platform's name and margin and has a price in range; the first row has price `max(max_price, min_price)` |
| `Rules.GreedyFailsAt` | rules.py:22 | a zero margin after a successful prefix ends the whole run at that position |
| `Rules.GreedyGap` | rules.py:20-26 | a later platform with positive margin, priced above `min_price`, earns at most the previous royalty minus `min_diff`. Its price is the highest in-range price keeping that gap. A target price within range is taken exactly. A target above the range gives `max(max_price, min_price)` |
| `Rules.GreedySeparation` | rules.py:16-28 | when every later platform has a positive margin and none is clamped up to `min_price`, royalties fall by at least `(b - a) * min_diff` from platform `a` to platform `b` |
| `Rules.PriceInOrder` | rules.py:10-35 | the pricing loop, carrying `previous_royalty` from step to step, computes the greedy outcome |
| `Rules.EnforceRoyaltySeparation` | rules.py:3-35 | the result is the greedy outcome over the platforms in stable descending-margin order |

## Left out

- Both numerical solvers are left out: `cp.Problem(...).solve()` (op_cvx.py:57-58) and `scipy.optimize.minimize` with SLSQP (optimizer.py:37). They are function parameters, and the model proves nothing about optimality.
- `OptimizeWithCvxpy` assumes the solver returns one price per platform. With cvxpy, `prices.value` is `None` when the problem is infeasible, and `margins * None` raises at op_cvx.py:62. The model does not cover that failure.
- `OptimizePricing` likewise assumes a successful SLSQP result carries one price per platform.
- Rounding to two decimals is treated as the identity: `round` in rules.py:27 and rules.py:33, and `np.round` in op_cvx.py and optimizer.py. In particular, rules.py carries the rounded royalty forward as `previous_royalty`, so the model's royalty chain is exact where the script's is rounded.
- IEEE floating point is not modelled; all arithmetic is on exact reals. Margins are grouped by exact equality, as the script does.
- The pandas reporting is left out as formatting: DataFrame construction, the `Ranking` column, `sort_values` and the CSV and print driver code. This covers op_cvx.py:64-95, optimizer.py:49-50 and optimizer.py:57-70, and rules.py:37-54. On an empty platform list rules.py:38 raises `KeyError` in this reporting code, since `pd.DataFrame([])` has no `Royalty` column; the pricing loop itself yields no rows, and `Rules.EnforceRoyaltySeparation` returns `Priced([])`. The model's summaries keep the platforms' input order (optimizer.py) or processing order (rules.py), before the final sort.
- Negative margins are accepted, as in the scripts. For a later platform with a negative margin the greedy price need not keep the gap: margin -0.5, previous royalty -100, `min_diff` 0.3 and range (1, 100) give price 100 and royalty -50. The gap and maximality clauses of `Rules.RowFor`, `Rules.LaterPriceFacts`, `Rules.GreedyGap` and `Rules.GreedySeparation` therefore cover positive margins only.
- A zero margin at any position after the first, in processing order, is an error outcome in `Rules.Greedy`. It stands for the `ZeroDivisionError` at rules.py:22. The first platform is never divided by, so a zero margin there is priced normally. Other Python exceptions are not modelled: non-numeric input, or a truth test on a NumPy array passed as `initial_guess` at optimizer.py:33.
- The cvxpy expression objects `cp.multiply`, `cp.sum` and `cp.abs` become the `Constraint` records and `Royalties`. The objective is stated through `Sum` and `Royalties`.
