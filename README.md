# Data-quality checks on orders: a Dafny model

This project models the check engine of a small data-quality pipeline.
Two ingested tables, `orders` and `customers`, and the derived table
`orders_with_customers` are held as sequences of rows. A second store holds
the baseline JSON files. The model covers:

- the five defect-count checks. Each is a SQL aggregate, and 0 means pass:
  - negative amounts;
  - duplicate `order_id` groups;
  - orders without a customer, found by a left-join anti-match;
  - statuses outside `{PAID, PENDING, CANCELLED, REFUNDED}`;
  - orders dated before the customer's signup day, read from the derived table.
- the mean-drift ratio against the saved baseline, including its clamp at a zero baseline;
- the transform, which rebuilds `orders_with_customers` as the inner join with the
  customer columns renamed (`CREATE OR REPLACE`);
- the baseline computation. It takes `COUNT(*)` and `AVG(amount)` and overwrites
  `orders_amount_baseline.json`.

Modules, one per file:

- `Wrappers`: `Option` stands for SQL NULL and `Result` for a raised exception.
- `Schema`: the rows, timestamps with `CAST … AS DATE`, and the baseline JSON record.
- `Aggregates`: `COUNT(*) … WHERE`, `SUM`, `AVG`, and the lemma that row order never affects a count.
- `OrdersChecks`: the five checks and the drift ratio.
- `Transform`: the join, the `Warehouse` class, and how the join relates to the checks.
- `DriftBaseline`: the baseline computation and the `BaselineStore` class.

SQL NULL is modelled explicitly on every column:

- `amount < 0` and `status NOT IN (…)` are NULL for a NULL value, so that row is not counted.
- A NULL `customer_id` joins nothing, so the anti-join counts the order as missing a customer.
- `GROUP BY order_id` puts all NULL ids in one group.
- `AVG` skips NULL amounts, while `COUNT(*)` does not.

Timestamps are whole seconds since the epoch. `CAST(t AS DATE)` is floor division by 86400.

When the current `AVG(amount)` is NULL (no amounts at all), the drift check does not
fail uniformly. With a zero baseline mean, `None == 0` is false, so the result is 1.0.
Otherwise subtracting the baseline mean from `None` raises. The model gives `Ok(1.0)`
and `Err(CurrentMeanNull)` (src/checks/orders_checks.py:114-122).

The transform (src/transform.py:26-40) is modelled as `Transform.Join`.

## Model

| member | source | states |
|---|---|---|
| Schema.DayOf | src/checks/orders_checks.py:91 | the date of an instant is the unique day `d` with `d*86400 <= t < (d+1)*86400` |
| Schema.DayOfMonotone | src/checks/orders_checks.py:91 | truncating to a date keeps the order of instants: `s <= t` implies `day(s) <= day(t)` |
| Schema.BaselineToJson | src/drift_baseline.py:30-33 | the baseline record has exactly the keys `row_count` (an int) and `mean_amount` (a float) |
| Aggregates.CountWhere | src/checks/orders_checks.py:23 | `COUNT(*) … WHERE p` is at most the number of rows; it is 0 iff no row satisfies `p`; it equals the row count iff every row does |
| Aggregates.CountWhereIsIndexCount | src/checks/orders_checks.py:23 | the count is the number of row positions whose row satisfies the condition (multiset meaning) |
| Aggregates.CountWhereAppend | src/checks/orders_checks.py:23 | the count over the concatenation of two tables is the sum of their counts |
| Aggregates.CountWherePermutation | src/checks/orders_checks.py:23 | two tables with the same multiset of rows give the same count, so row order never matters |
| Aggregates.CountWhereCongruent | src/checks/orders_checks.py:23 | conditions that agree on every row give equal counts |
| Aggregates.CountWherePartition | src/checks/orders_checks.py:23 | if `r` is the disjoint union of `p` and `q` on every row, then count(r) = count(p) + count(q) |
| Aggregates.Filter | src/transform.py:37-39 | the rows that satisfy a join condition, as the match step of both joins uses them: exactly the rows satisfying `p`, `count(p)` of them, a sub-multiset of the table |
| Aggregates.SumAmounts | src/drift_baseline.py:27 | `SUM(amount)` over the non-NULL amounts; it has no contract of its own: `SumAmountsAtLeast` and `SumAmountsAtMost` bound it by the number of non-NULL amounts |
| Aggregates.CountAmounts | src/drift_baseline.py:27 | `COUNT(amount)` is at most the number of rows, and 0 iff every amount is NULL |
| Aggregates.AvgAmount | src/drift_baseline.py:27 | `AVG(amount)` is NULL iff every amount is NULL; otherwise mean times the number of non-NULL amounts equals their sum |
| Aggregates.AvgAmountBounds | src/drift_baseline.py:27 | if every non-NULL amount lies in `[lo, hi]`, the mean does too |
| Aggregates.SumAmountsAtLeast | src/drift_baseline.py:27 | amounts that are all at least `lo` sum to at least `lo` times their number |
| Aggregates.SumAmountsAtMost | src/drift_baseline.py:27 | amounts that are all at most `hi` sum to at most `hi` times their number |
| OrdersChecks.CountNegativeOrderAmounts | src/checks/orders_checks.py:17-25 | the count is at most the number of orders; it is 0 iff every amount is NULL or non-negative |
| OrdersChecks.NegativeAmountsCountRows | src/checks/orders_checks.py:23 | the count is the number of rows whose amount is negative (NULL not counted) |
| OrdersChecks.NoNegativeAmountsNoNegativeMean | src/checks/orders_checks.py:17-25 | when the negative-amount check passes, the mean amount is not negative |
| OrdersChecks.DuplicatedIds | src/checks/orders_checks.py:36-41 | the `order_id` values held by more than one row, NULL being one value; no contract of its own: `DuplicatedIdsBound` bounds it and `DuplicateOrderIdsZeroIffDistinct` says when it is empty |
| OrdersChecks.CountDuplicateOrderIds | src/checks/orders_checks.py:28-44 | the number of duplicated ids; no contract of its own: `DuplicateOrderIdsZeroIffDistinct`, `DuplicateOrderIdsAtMostHalf` and `SharedOrderIdCountsOnce` state its properties |
| OrdersChecks.DuplicateOrderIdsZeroIffDistinct | src/checks/orders_checks.py:28-44 | the duplicate check returns 0 iff no two orders share an `order_id`, counting two NULL ids as shared |
| OrdersChecks.DuplicateOrderIdsAtMostHalf | src/checks/orders_checks.py:36-41 | groups are counted, not rows: twice the count is at most the number of orders |
| OrdersChecks.SharedOrderIdCountsOnce | src/checks/orders_checks.py:36-41 | two or more rows that share one `order_id` give exactly 1 |
| OrdersChecks.DuplicatedIdsBound | src/checks/orders_checks.py:39-40 | every group with `HAVING COUNT(*) > 1` has at least two rows: `2 * groups <= rows` |
| OrdersChecks.RepeatedValueMultiplicity | src/checks/orders_checks.py:39-40 | a value found at two positions has at least two rows in its group |
| OrdersChecks.DistinctMultiplicity | src/checks/orders_checks.py:39-40 | with distinct values, every group has at most one row |
| OrdersChecks.LeftJoinRows | src/checks/orders_checks.py:56-58 | one order gives at least one left-join row; every row carries that order, and every non-NULL customer side joins with it |
| OrdersChecks.LeftJoin | src/checks/orders_checks.py:56-58 | the left join has at least as many rows as there are orders, and every row carries one of the orders |
| OrdersChecks.LeftJoinRowOf | src/checks/orders_checks.py:56-58 | every order has a row in the left join, at the returned position |
| OrdersChecks.CountOrdersWithMissingCustomer | src/checks/orders_checks.py:47-62 | the anti-join count; no contract of its own: `MissingCustomerCountsOrders`, `MissingCustomerZeroIffAllMatched` and `MissingCustomerDependsOnlyOnIds` state its properties |
| OrdersChecks.LeftJoinRowsMissing | src/checks/orders_checks.py:55-59 | one order's left-join rows contain one NULL customer id if the order has no customer, and none otherwise |
| OrdersChecks.MissingCustomerCountsOrders | src/checks/orders_checks.py:55-59 | the anti-join count equals the number of orders with no joining customer, and is at most the number of orders |
| OrdersChecks.MissingCustomerZeroIffAllMatched | src/checks/orders_checks.py:47-62 | the referential check returns 0 iff every order joins some customer |
| OrdersChecks.MissingCustomerDependsOnlyOnIds | src/checks/orders_checks.py:55-59 | customer tables with the same set of ids give the same count, so duplicate customers never inflate it |
| OrdersChecks.HasCustomerByIds | src/checks/orders_checks.py:58 | an order has a customer iff its `customer_id` is non-NULL and among the customers' non-NULL ids |
| OrdersChecks.CountOrdersWithInvalidStatus | src/checks/orders_checks.py:65-78 | the count is at most the number of orders; it is 0 iff every status is NULL or in the allowed set |
| OrdersChecks.StatusesPartitionOrders | src/checks/orders_checks.py:75 | invalid, allowed and NULL statuses partition the orders, so the check misses exactly the NULL statuses |
| OrdersChecks.CountOrdersBeforeCustomerSignup | src/checks/orders_checks.py:81-94 | the count is at most the number of joined rows; it is 0 iff no row's order day is before its signup day |
| OrdersChecks.SignupCheckIgnoresTimeOfDay | src/checks/orders_checks.py:91 | date-truncated count + same-day-earlier count = instant-earlier count, so same-day orders never count |
| OrdersChecks.CheckOrdersBeforeCustomerSignup | src/checks/orders_checks.py:86-93 | querying an absent `orders_with_customers` fails with an error; otherwise the result is `CountOrdersBeforeCustomerSignup` of the table, at most its number of rows |
| OrdersChecks.Abs | src/checks/orders_checks.py:121 | `abs` is non-negative and equals `x` or `-x` |
| OrdersChecks.MeanDriftRatio | src/checks/orders_checks.py:114-122 | the ratio fails only for a nonzero baseline with a NULL current mean; every ratio is non-negative |
| OrdersChecks.ZeroBaselineClamp | src/checks/orders_checks.py:114-119 | a zero baseline gives exactly 0.0 or exactly 1.0, and 0.0 iff the current mean is 0 |
| OrdersChecks.DriftIsRelativeChange | src/checks/orders_checks.py:121-122 | with a nonzero baseline, ratio times `abs(base)` equals `abs(cur - base)` |
| OrdersChecks.DriftZeroIffUnchanged | src/checks/orders_checks.py:114-122 | the ratio is 0.0 iff the current mean equals the baseline mean |
| OrdersChecks.DriftOfScaledMean | src/checks/orders_checks.py:121-122 | a current mean of `k * base` drifts by `abs(k - 1)`; doubling gives 1.0 |
| OrdersChecks.DriftExamples | src/checks/orders_checks.py:114-122 | 100 to 150 gives 0.5; 35 to 70 gives 1.0; 0 to 0 gives 0.0; 0 to 12.5 gives 1.0 |
| OrdersChecks.GetOrderAmountMeanDriftRatio | src/checks/orders_checks.py:97-122 | a missing baseline file gives `BaselineMissing`; a file without `mean_amount` gives `BaselineCorrupt`; otherwise the result is `MeanDriftRatio` of the recorded mean and `AVG(amount)`, whose properties the lemmas above state; a successful drift is non-negative |
| OrdersChecks.DriftReadsOnlyRecordedMean | src/checks/orders_checks.py:103-112 | stores that record the same `mean_amount` give the same drift; `row_count`, other fields and other files are ignored |
| Transform.Combine | src/transform.py:27-36 | a joined row carries the order's columns unchanged, and `name`, `email`, `signup_date`, `country` as the `customer_*` columns |
| Transform.JoinRows | src/transform.py:37-39 | one order has as many joined rows as customers it joins with; each carries that order, whose `customer_id` is non-NULL |
| Transform.Join | src/transform.py:26-40 | every joined row carries one of the orders and a non-NULL `customer_id`; `JoinMembership` gives its rows as a set and `JoinSize` gives their number |
| Transform.JoinSize | src/transform.py:37-39 | the join has exactly one row per joining (order, customer) pair: the sum over orders of the customers sharing its `customer_id`, duplicate customers included |
| Transform.JoinRowsMembership | src/transform.py:37-39 | one order's joined rows are exactly its pairings with the customers it joins with |
| Transform.JoinMembership | src/transform.py:26-39 | a row is in the join iff it pairs an order with a customer whose non-NULL `customer_id` equals the order's |
| Transform.JoinRowsAreMatched | src/transform.py:37-39 | every joined row carries an existing order's columns and a non-NULL `customer_id` that some customer has |
| Transform.UnmatchedOrderCountedNotJoined | src/transform.py:37-39 | an order with no customer is counted by the referential check and appears in no joined row |
| Transform.JoinRowsSize | src/transform.py:37-39 | an order yields as many joined rows as it has matching customers, and none iff it has no customer |
| Transform.AtMostOneMatch | src/transform.py:38-39 | with unique customer ids, an order joins at most one customer |
| Transform.JoinCoversMatchedOrders | src/transform.py:37-39 | join size + missing-customer count >= number of orders, with equality when customer ids are unique |
| Transform.AllChecksPassOnCleanData | src/checks/orders_checks.py:17-94 | on data with none of the five defects, every check returns 0, the signup check being run on the join |
| Transform.SignupScenario | src/checks/orders_checks.py:89-91 | customer signed up 2020-01-01, orders of 2020-06-01 and 2019-01-01: the signup check counts 1 |
| Transform.Warehouse.CreateOrReplaceOrdersWithCustomers | src/transform.py:22-46 | the derived table becomes the join of the current tables whatever it held before; the result is its row count; `orders` and `customers` are unchanged |
| Transform.TransformIsIdempotent | src/transform.py:26 | running the transform twice leaves the table that one run builds |
| DriftBaseline.ComputeBaseline | src/drift_baseline.py:25-33 | fails iff no amount is non-NULL (in particular for an empty table); otherwise `row_count` is the number of rows and the mean times the non-NULL count is their sum |
| DriftBaseline.BaselineThenDriftIsZero | src/drift_baseline.py:25-39 | saving the baseline of `orders`, then evaluating drift on the same `orders`, gives 0.0 |
| DriftBaseline.SavedMeanIsRead | src/drift_baseline.py:30-33 | the drift check reads back the saved `mean_amount`, and the saved `row_count` does not affect it |
| DriftBaseline.BaselineStore.SaveOrdersAmountBaseline | src/drift_baseline.py:22-39 | on success the baseline file is overwritten with the new record and no other file changes; on failure the store is unchanged |
| DriftBaseline.SaveThenEvaluateDrift | src/drift_baseline.py:22-39 | after a successful save the store holds the new baseline file and is otherwise unchanged, and the drift of the unchanged `orders` is 0.0; a failed save leaves the store unchanged |

## Left out

- Ingestion (`src/ingest.py`) is not part of this model: CSV reading, DataFrame registration and its printed report.
  The `Warehouse` constructor stands in for the ingested tables.
- The `duckdb` connections and their lifetimes belong to the foreign library.
  Each check is a function of the tables, so it cannot change them.
- Query failures on `orders` or `customers` are not modelled, because those tables always exist in the model.
  An absent `orders_with_customers` is modelled (`CheckOrdersBeforeCustomerSignup`).
- JSON encoding and decoding are abstracted.
  The store maps file names to JSON objects whose members are numbers.
  A file that is not valid JSON, or whose `mean_amount` is not a number, is not represented.
  A file without `mean_amount` is represented: it raises, giving `Err(BaselineCorrupt)`.
- `mkdir`, path resolution and write failures (permissions, disk) are I/O and are not modelled.
  A save either succeeds completely or fails before writing.
- IEEE-754 rounding in `AVG` and in the drift division is not modelled. Arithmetic is exact (`real`).
  NaN and infinities are not represented.
- Parsing date strings into dates is not modelled. Dates and timestamps are integer seconds.
- SQL row order is not modelled. Results are counts, and `CountWherePermutation` shows that a count does not depend on the order of the sequence.
- Printed output (`print`) of every entry point is not modelled.
