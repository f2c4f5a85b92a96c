# Live sales dashboard: simulation and rolling-window aggregation

A Dafny model of the data pipeline in `app.py`, the real-time sales dashboard.
Every rerun of the script does four things:

1. It generates one random sale from a fixed six-product catalogue.
2. It appends that sale to the stored history.
3. It keeps only the last 500 rows of the history.
4. It recomputes the metrics from the whole history: total units, total
   revenue, the top performing product (the largest summed revenue per product)
   and the recent-activity table (the history sorted newest first).

Modules, in dependency order:

- `Catalogue`: the product/price dictionary, with prices in integer cents.
- `Sales`: the sale record and the generator. The random draws and the clock
  reading are parameters.
- `RollingBuffer`: `concat` followed by `tail(500)`, and the first-in
  first-out window it yields.
- `Lex`: Python's string order. The grouping sorts its keys by this order.
- `Aggregation`: the totals, the per-product sums and the top product.
- `Ties`: no two products can reach equal sums on any history a session can
  hold, so the top product is a strict maximum.
- `RecentActivity`: the newest-first table.
- `Dashboard`: one rerun (`Step`) and a whole session from the empty history
  (`Session`).

What the code does, and the model follows:

- **Tie-break for the top product.** `groupby` sorts the product names, and
  `idxmax` returns the first maximum in that order, so among products with
  equal sums the code picks the lexicographically smallest name. This rule is
  library behaviour that `app.py` does not spell out, so `Aggregation.TopProduct`
  adopts it as a modelling choice; the script itself promises only membership
  and maximality. `Ties.TopProductIsStrictMaximum` shows that with this
  catalogue, 500 rows and at most 3 units per sale, two products never tie, so
  any tie-break rule gives the same answer on every reachable history.
- **The recent-activity table.** It sorts the whole history, newest first.
- **No other metrics.** The code computes the two totals, the top product and
  the table, and nothing else: no top-N ranking and no cumulative revenue
  series.

## Model

| member | source | states |
|---|---|---|
| Catalogue.PriceOf | app.py:16-19 | the dictionary lookup is defined on exactly the catalogue names, and it returns that product's listed price, which is positive |
| Catalogue.CatalogueWellFormed | app.py:16-19 | the catalogue has six entries with pairwise distinct names and positive prices |
| Sales.Generate | app.py:15-27 | the generated sale carries the drawn catalogue product, a quantity in 1..3, revenue equal to unit price times quantity, and the clock reading as its timestamp |
| Sales.GenerateReachesEveryWellFormedSale | app.py:20-25 | every catalogue product with every quantity 1..3 is produced by some pair of draws, so the generator's outputs are exactly the well-formed sales |
| RollingBuffer.Tail | app.py:41 | `tail(n)` returns the last min(n, length) rows of its input, in order |
| RollingBuffer.Append | app.py:37-41 | after one update the history ends with the new sale and holds at most 500 rows; below capacity nothing is evicted, and at capacity exactly the oldest row is evicted |
| RollingBuffer.AppendPreservesValid | app.py:37-41 | appending a generated sale to a valid history yields a valid history: within capacity, and only generated sales |
| RollingBuffer.TailAppend | app.py:37-41 | trimming after each append gives the same rows as appending everything and trimming once |
| RollingBuffer.TailConcat | app.py:37-41 | the same as TailAppend for a whole sequence of appended rows |
| RollingBuffer.AppendAll | app.py:37-41 | repeated updates keep a history within capacity, leave it unchanged when nothing arrives, and end it with the last sale that arrived; AppendAllIsWindow gives its full contents |
| RollingBuffer.AppendAllIsWindow | app.py:37-41 | any number of updates leaves exactly the last 500 of the old rows followed by the new sales, in arrival order |
| RollingBuffer.EvictionKeepsLastCapacity | app.py:37-41 | after at least 500 new sales the history is exactly the last 500 of them, and every older row has been evicted |
| RollingBuffer.AppendAllPreservesValid | app.py:37-41 | a sequence of updates keeps the history valid and leaves min(500, old + new) rows |
| Lex.TotalOrder | app.py:53 | the order on product names that the grouping sorts by is reflexive, antisymmetric, transitive and total |
| Aggregation.TotalUnits | app.py:46 | the unit total is 0 on an empty history, and with no negative quantity every product's units lie between 0 and the total; TotalsOfConcat and UnitsBounds carry the rest |
| Aggregation.TotalRevenue | app.py:47 | the revenue total is 0 on an empty history and non-negative when no amount is negative; TotalsOfConcat, RevenueIsPriceTimesQuantity and RevenueIsSumOfGroups carry the rest |
| Aggregation.ProductRevenue | app.py:53 | one group's revenue sum is 0 on an empty history and, with no negative amount, lies between 0 and the total revenue; RevenueIsSumOfGroups shows the groups partition the total |
| Aggregation.TotalsOfConcat | app.py:46-47 | the unit total, the revenue total and the per-product sums are additive over a split of the history |
| Aggregation.RevenueIsPriceTimesQuantity | app.py:25-47 | over generated rows, total revenue is the sum of catalogue price times quantity |
| Aggregation.UnitsBounds | app.py:21-46 | the unit total of generated rows lies between the row count and three times the row count |
| Aggregation.AbsentProductHasNoRevenue | app.py:53 | a product that no row carries has zero revenue and zero units |
| Aggregation.RevenueIsSumOfGroups | app.py:47-53 | the per-product revenue sums over the catalogue add up to the total revenue |
| Aggregation.Argmax | app.py:55 | the chosen name is one of the keys; no key has a larger sum; among keys with an equal sum it is the smallest name |
| Aggregation.TopProduct | app.py:50-57 | "N/A" on an empty history; otherwise a product present in the history whose sum no product exceeds, and the smallest such name on ties |
| Aggregation.TopProductIsUnique | app.py:53-55 | on a non-empty history, a product meets the independent top-product description if and only if it is the computed top product |
| Ties.CoprimeTie | app.py:17-18 | for coprime prices a and b, equal amounts a*u == b*v require v >= a and u >= b |
| Ties.DistinctPricesNeverTie | app.py:17-21 | two different catalogue prices never give equal amounts when the two unit counts total at most 1500 |
| Ties.ProductRevenueIsPriceTimesUnits | app.py:25-53 | over generated rows, a product's revenue sum is its unit price times its unit count |
| Ties.UnitsOfPair | app.py:21-41 | on a valid history, two different present products each have at least one unit, and together at most 1500 |
| Ties.NoTwoProductsTie | app.py:53 | on a valid history, two different present products never have equal revenue sums |
| Ties.TopProductIsStrictMaximum | app.py:53-55 | on a valid non-empty history every other product earns strictly less than the top product, so any maximiser is the top product |
| RecentActivity.Insert | app.py:80 | inserting a row into a newest-first list keeps it newest first and adds exactly that row |
| RecentActivity.NewestFirstView | app.py:80 | the table is a permutation of the history with timestamps non-increasing |
| RecentActivity.NewestFirstViewReversesArrival | app.py:80 | when each sale is stamped after the previous one, the table is the history in reverse arrival order |
| Dashboard.Compute | app.py:45-59 | the unit total is the sum of quantities and the revenue total the sum of revenues, which over catalogue rows equals the sum of the per-product group revenues; on an empty history: zeros, "N/A" and an empty table; otherwise the top product is present with maximal revenue, and the table is a newest-first permutation of the history |
| Dashboard.Step | app.py:36-57 | one rerun stores the updated history within capacity and computes the metrics from it; on a valid history it keeps validity and names a catalogue product as the top product |
| Dashboard.StepNeverShowsNoData | app.py:36-57 | because the sale is appended before aggregation, a rerun never shows "N/A" and always counts at least one unit |
| Dashboard.NoDataIsNotAProduct | app.py:57 | the "N/A" placeholder is no catalogue product name |
| Dashboard.Generated | app.py:36 | one sale per draw, the i-th being the sale the generator produces from the i-th draw, all well-formed |
| Dashboard.Session | app.py:31-41 | the history starts empty and never exceeds 500 rows, and after each run it ends with the sale that run generated; SessionIsWindow gives its full contents |
| Dashboard.SessionIsWindow | app.py:31-41 | from the empty initial history, every session history is the last 500 generated sales in arrival order, valid, with min(runs, 500) rows |
| Dashboard.SessionTopProductIsUnique | app.py:50-55 | in every rerun of a session, every other product in the history has strictly less revenue than the top product |

## Left out

- The UI: page configuration, titles, the KPI widgets, column formatting and
  the dataframe display (app.py:6-11, 62-89). They render values and compute
  nothing.
- `st.session_state`, `time.sleep(2)` and `st.rerun()` are the host loop. The
  model replaces them with `Dashboard.Session`, which runs reruns in order from
  the empty history.
- Real randomness and the wall clock. `np.random.choice` becomes a catalogue
  index, `np.random.randint(1, 4)` becomes a quantity parameter in 1..3, and
  `pd.to_datetime('now')` becomes an integer timestamp parameter.
- Floating-point prices and revenue. Every price has exactly two decimals, so
  the model uses exact integer cents. Float rounding in the sums, and the
  `$…,.2f` / `int(...)` formatting, are not modelled.
- The `except Exception` → "Calculating..." fallback (app.py:58-59). On
  well-formed rows neither the grouping nor `idxmax` raises, so this branch is
  not modelled.
- RecentActivity.NewestFirstView: rows with equal timestamps are not given a
  fixed order, because the sort the code calls is not stable. The contract
  states only a permutation with non-increasing timestamps. The definition
  keeps equal-timestamp rows in arrival order.
- Empty DataFrame column dtypes and the `ignore_index` renumbering
  (app.py:32, 39). Row indices are invisible to every metric.
