/**
 * The data-quality checks on the `orders` table. Each check is one SQL
 * aggregate over tables it never changes, so each is a function of the
 * tables; every count means "0 = pass, anything else = number of defects".
 * The mean-drift ratio compares `AVG(amount)` with the mean recorded in the
 * baseline file.
 */
module OrdersChecks {
  import opened Wrappers
  import opened Schema
  import opened Aggregates

  // ----------------------------------------------------------------------
  // count_negative_order_amounts: the number of orders with a negative amount
  // ----------------------------------------------------------------------

  /** `amount < 0`; a NULL amount makes the condition NULL, so it is not counted. */
  predicate IsNegativeAmount(o: Order)
  {
    o.amount.Some? && o.amount.value < 0.0
  }

  function CountNegativeOrderAmounts(orders: seq<Order>): (n: nat)
    ensures n <= |orders|
    ensures n == 0 <==> forall i :: 0 <= i < |orders| ==> orders[i].amount.None? || orders[i].amount.value >= 0.0
  {
    CountWhere(orders, IsNegativeAmount)
  }

  /** Each negative amount is one defect: the count is the number of such rows. */
  lemma NegativeAmountsCountRows(orders: seq<Order>)
    ensures CountNegativeOrderAmounts(orders) == |set i | 0 <= i < |orders| && IsNegativeAmount(orders[i])|
  {
    CountWhereIsIndexCount(orders, IsNegativeAmount);
    assert IndicesWhere(orders, IsNegativeAmount) == set i | 0 <= i < |orders| && IsNegativeAmount(orders[i]);
  }

  /** When the negative-amount check passes, the mean amount is not negative either. */
  lemma NoNegativeAmountsNoNegativeMean(orders: seq<Order>)
    requires CountNegativeOrderAmounts(orders) == 0
    ensures AvgAmount(orders).Some? ==> AvgAmount(orders).value >= 0.0
  {
    SumAmountsAtLeast(orders, 0.0);
    RepeatedSum(0.0, CountAmounts(orders));
  }

  // ----------------------------------------------------------------------
  // count_duplicate_order_ids: the number of `order_id` values (NULL being
  // one value) held by more than one order
  // ----------------------------------------------------------------------

  /** The `order_id` column. */
  function OrderIds(orders: seq<Order>): (ids: seq<Option<int>>)
    ensures |ids| == |orders|
    ensures forall i :: 0 <= i < |orders| ==> ids[i] == orders[i].orderId
  {
    seq(|orders|, i requires 0 <= i < |orders| => orders[i].orderId)
  }

  /**
   * The ids held by more than one row, given the column as a multiset: one
   * group per distinct value, all NULLs forming one group.
   */
  function DuplicatedIds(ids: multiset<Option<int>>): set<Option<int>>
  {
    set id | id in ids && ids[id] > 1
  }

  function CountDuplicateOrderIds(orders: seq<Order>): nat
  {
    |DuplicatedIds(multiset(OrderIds(orders)))|
  }

  /** A value at two positions of a sequence occurs at least twice in its multiset. */
  lemma RepeatedValueMultiplicity<T>(s: seq<T>, i: nat, j: nat)
    requires i < j < |s| && s[i] == s[j]
    ensures multiset(s)[s[i]] >= 2
  {
    assert s == s[..i] + [s[i]] + s[i + 1..j] + [s[j]] + s[j + 1..];
  }

  /** In a sequence without repeated values, every value occurs at most once. */
  lemma {:induction false} DistinctMultiplicity<T>(s: seq<T>, x: T)
    requires forall i, j :: 0 <= i < j < |s| ==> s[i] != s[j]
    ensures multiset(s)[x] <= 1
  {
    if s != [] {
      assert s == [s[0]] + s[1..];
      DistinctMultiplicity(s[1..], x);
      if s[0] == x {
        assert x !in s[1..];
      }
    }
  }

  /** The duplicate check passes exactly when all `order_id` values (NULL included) are distinct. */
  lemma DuplicateOrderIdsZeroIffDistinct(orders: seq<Order>)
    ensures CountDuplicateOrderIds(orders) == 0 <==>
            forall i, j :: 0 <= i < j < |orders| ==> orders[i].orderId != orders[j].orderId
  {
    var ids := OrderIds(orders);
    var m := multiset(ids);
    if exists i, j :: 0 <= i < j < |orders| && orders[i].orderId == orders[j].orderId {
      var i, j :| 0 <= i < j < |orders| && orders[i].orderId == orders[j].orderId;
      RepeatedValueMultiplicity(ids, i, j);
      assert ids[i] in DuplicatedIds(m);
    } else {
      forall id | id in DuplicatedIds(m)
        ensures false
      {
        DistinctMultiplicity(ids, id);
      }
      assert DuplicatedIds(m) == {};
    }
  }

  /** Dropping every occurrence of `x` from a multiset removes `m[x]` elements. */
  lemma DropAll<T>(m: multiset<T>, x: T)
    ensures |m[x := 0]| == |m| - m[x]
  {
  }

  /** Each duplicated group has at least two rows. */
  lemma {:induction false} DuplicatedIdsBound(m: multiset<Option<int>>)
    ensures 2 * |DuplicatedIds(m)| <= |m|
    decreases |m|
  {
    if |m| > 0 {
      var x :| x in m;
      var rest := m[x := 0];
      DropAll(m, x);
      DuplicatedIdsBound(rest);
      if m[x] > 1 {
        assert DuplicatedIds(m) == DuplicatedIds(rest) + {x};
      } else {
        assert DuplicatedIds(m) == DuplicatedIds(rest);
      }
    } else {
      assert DuplicatedIds(m) == {};
    }
  }

  /** Groups, not rows, are counted: the count is at most half the number of orders. */
  lemma DuplicateOrderIdsAtMostHalf(orders: seq<Order>)
    ensures 2 * CountDuplicateOrderIds(orders) <= |orders|
  {
    DuplicatedIdsBound(multiset(OrderIds(orders)));
  }

  /** A sequence that holds only `x` holds it `|s|` times. */
  lemma {:induction false} ConstantMultiplicity<T>(s: seq<T>, x: T)
    requires forall i :: 0 <= i < |s| ==> s[i] == x
    ensures multiset(s)[x] == |s|
    ensures forall y :: y in multiset(s) ==> y == x
  {
    if s != [] {
      assert s == [s[0]] + s[1..];
      ConstantMultiplicity(s[1..], x);
    }
  }

  /** Any number (at least two) of rows sharing one `order_id` make one defect, not one per row. */
  lemma SharedOrderIdCountsOnce(orders: seq<Order>)
    requires |orders| >= 2
    requires forall i :: 0 <= i < |orders| ==> orders[i].orderId == orders[0].orderId
    ensures CountDuplicateOrderIds(orders) == 1
  {
    var ids := OrderIds(orders);
    var x := orders[0].orderId;
    ConstantMultiplicity(ids, x);
    assert DuplicatedIds(multiset(ids)) == {x};
  }

  // ----------------------------------------------------------------------
  // count_orders_with_missing_customer: an anti-join of orders against
  // customers on `customer_id`, written as a left join whose customer side is
  // NULL
  // ----------------------------------------------------------------------

  function MatchesOrder(o: Order): Customer -> bool
  {
    c => JoinsWith(o, c)
  }

  /** The customers an order joins with. */
  function MatchingCustomers(o: Order, customers: seq<Customer>): seq<Customer>
  {
    Filter(customers, MatchesOrder(o))
  }

  /** A left-join row: an order with a joined customer, or with NULLs on the customer side. */
  type LeftJoinRow = (Order, Option<Customer>)

  /** The left-join rows of one order: one per match, or one NULL-extended row. */
  function LeftJoinRows(o: Order, customers: seq<Customer>): (rows: seq<LeftJoinRow>)
    ensures |rows| >= 1
    ensures forall i :: 0 <= i < |rows| ==> rows[i].0 == o
    ensures forall i :: 0 <= i < |rows| && rows[i].1.Some? ==> JoinsWith(o, rows[i].1.value)
  {
    var cs := MatchingCustomers(o, customers);
    if cs == [] then [(o, None)]
    else seq(|cs|, i requires 0 <= i < |cs| => (o, Some(cs[i])))
  }

  /** The left outer join of orders with customers on equal, non-NULL `customer_id`. */
  function LeftJoin(orders: seq<Order>, customers: seq<Customer>): (rows: seq<LeftJoinRow>)
    ensures |rows| >= |orders|
    ensures forall i :: 0 <= i < |rows| ==> rows[i].0 in orders
  {
    if orders == [] then []
    else LeftJoinRows(orders[0], customers) + LeftJoin(orders[1..], customers)
  }

  /** Every order has a row in the left join: the position `k` of one of its rows. */
  lemma {:induction false} LeftJoinRowOf(orders: seq<Order>, customers: seq<Customer>, i: nat) returns (k: nat)
    requires i < |orders|
    ensures k < |LeftJoin(orders, customers)| && LeftJoin(orders, customers)[k].0 == orders[i]
  {
    var first := LeftJoinRows(orders[0], customers);
    if i == 0 {
      k := 0;
    } else {
      var j := LeftJoinRowOf(orders[1..], customers, i - 1);
      assert orders[1..][i - 1] == orders[i];
      k := |first| + j;
    }
  }


  /** `c.customer_id IS NULL` on a left-join row. */
  predicate CustomerIdIsNull(row: LeftJoinRow)
  {
    row.1.None? || row.1.value.customerId.None?
  }

  function CountOrdersWithMissingCustomer(orders: seq<Order>, customers: seq<Customer>): nat
  {
    CountWhere(LeftJoin(orders, customers), CustomerIdIsNull)
  }

  /** Some customer joins with the order. */
  predicate HasCustomer(customers: seq<Customer>, o: Order)
  {
    exists j :: 0 <= j < |customers| && JoinsWith(o, customers[j])
  }

  function Unmatched(customers: seq<Customer>): Order -> bool
  {
    o => !HasCustomer(customers, o)
  }

  /** One order's left-join rows hold a NULL customer id exactly when it has no customer. */
  lemma LeftJoinRowsMissing(o: Order, customers: seq<Customer>)
    ensures CountWhere(LeftJoinRows(o, customers), CustomerIdIsNull) == if HasCustomer(customers, o) then 0 else 1
  {
    var cs := MatchingCustomers(o, customers);
    var rows := LeftJoinRows(o, customers);
    if cs == [] {
      assert rows == [(o, None)];
      assert CustomerIdIsNull(rows[0]);
    } else {
      assert forall i :: 0 <= i < |rows| ==> rows[i].1 == Some(cs[i]) && JoinsWith(o, cs[i]);
      assert cs[0] in customers && JoinsWith(o, cs[0]);
    }
  }

  /**
   * The left-join query counts every order without a customer exactly once,
   * however many rows the join produces for the other orders.
   */
  lemma {:induction false} MissingCustomerCountsOrders(orders: seq<Order>, customers: seq<Customer>)
    ensures CountOrdersWithMissingCustomer(orders, customers) == CountWhere(orders, Unmatched(customers))
    ensures CountOrdersWithMissingCustomer(orders, customers) <= |orders|
  {
    if orders != [] {
      MissingCustomerCountsOrders(orders[1..], customers);
      CountWhereAppend(LeftJoinRows(orders[0], customers), LeftJoin(orders[1..], customers), CustomerIdIsNull);
      LeftJoinRowsMissing(orders[0], customers);
    }
  }

  /** The referential check passes exactly when every order joins some customer. */
  lemma MissingCustomerZeroIffAllMatched(orders: seq<Order>, customers: seq<Customer>)
    ensures CountOrdersWithMissingCustomer(orders, customers) == 0 <==>
            forall i :: 0 <= i < |orders| ==> HasCustomer(customers, orders[i])
  {
    MissingCustomerCountsOrders(orders, customers);
  }

  /** The non-NULL customer ids of `customers`. */
  function CustomerIds(customers: seq<Customer>): set<int>
  {
    set j | 0 <= j < |customers| && customers[j].customerId.Some? :: customers[j].customerId.value
  }

  /**
   * The check depends on `customers` only through its set of ids: repeating
   * a customer, or any other change that keeps the ids, never changes it.
   */
  lemma MissingCustomerDependsOnlyOnIds(orders: seq<Order>, customers: seq<Customer>, others: seq<Customer>)
    requires CustomerIds(customers) == CustomerIds(others)
    ensures CountOrdersWithMissingCustomer(orders, customers) == CountOrdersWithMissingCustomer(orders, others)
  {
    forall o: Order
      ensures HasCustomer(customers, o) <==> HasCustomer(others, o)
    {
      HasCustomerByIds(customers, o);
      HasCustomerByIds(others, o);
    }
    MissingCustomerCountsOrders(orders, customers);
    MissingCustomerCountsOrders(orders, others);
    CountWhereCongruent(orders, Unmatched(customers), Unmatched(others));
  }

  lemma HasCustomerByIds(customers: seq<Customer>, o: Order)
    ensures HasCustomer(customers, o) <==> o.customerId.Some? && o.customerId.value in CustomerIds(customers)
  {
    if o.customerId.Some? && o.customerId.value in CustomerIds(customers) {
      var j :| 0 <= j < |customers| && customers[j].customerId.Some? && customers[j].customerId.value == o.customerId.value;
      assert JoinsWith(o, customers[j]);
    }
  }

  // ----------------------------------------------------------------------
  // count_orders_with_invalid_status: the number of orders whose non-NULL
  // status is outside the four allowed ones
  // ----------------------------------------------------------------------

  const AllowedStatuses: set<string> := {"PAID", "PENDING", "CANCELLED", "REFUNDED"}

  /** `status NOT IN (...)`; for a NULL status the condition is NULL, so it is not counted. */
  predicate HasInvalidStatus(o: Order)
  {
    o.status.Some? && o.status.value !in AllowedStatuses
  }

  predicate HasAllowedStatus(o: Order)
  {
    o.status.Some? && o.status.value in AllowedStatuses
  }

  predicate HasNullStatus(o: Order)
  {
    o.status.None?
  }

  function CountOrdersWithInvalidStatus(orders: seq<Order>): (n: nat)
    ensures n <= |orders|
    ensures n == 0 <==> forall i :: 0 <= i < |orders| ==> orders[i].status.None? || orders[i].status.value in AllowedStatuses
  {
    CountWhere(orders, HasInvalidStatus)
  }

  /**
   * Every order is counted by exactly one of: invalid status, allowed status,
   * NULL status. The check therefore misses only the NULL statuses.
   */
  lemma StatusesPartitionOrders(orders: seq<Order>)
    ensures CountOrdersWithInvalidStatus(orders) + CountWhere(orders, HasAllowedStatus) + CountWhere(orders, HasNullStatus) == |orders|
  {
    CountWherePartition(orders, HasInvalidStatus, HasAllowedStatus, HasStatus);
    CountWherePartition(orders, HasStatus, HasNullStatus, AnyRow);
    assert CountWhere(orders, AnyRow) == |orders|;
  }

  predicate HasStatus(o: Order)
  {
    o.status.Some?
  }

  predicate AnyRow(o: Order)
  {
    true
  }

  // ----------------------------------------------------------------------
  // count_orders_before_customer_signup: the number of joined rows whose
  // order falls on an earlier date than the customer's signup
  // ----------------------------------------------------------------------

  /** The day of the order is before the day of the signup (NULL on either side: not counted). */
  predicate OrderedBeforeSignupDay(r: OrderWithCustomer)
  {
    r.orderDate.Some? && r.customerSignupDate.Some? &&
    DayOf(r.orderDate.value) < DayOf(r.customerSignupDate.value)
  }

  function CountOrdersBeforeCustomerSignup(rows: seq<OrderWithCustomer>): (n: nat)
    ensures n <= |rows|
    ensures n == 0 <==> forall i :: 0 <= i < |rows| ==> !OrderedBeforeSignupDay(rows[i])
  {
    CountWhere(rows, OrderedBeforeSignupDay)
  }

  /** The order instant is strictly before the signup instant. */
  predicate OrderedBeforeSignupInstant(r: OrderWithCustomer)
  {
    r.orderDate.Some? && r.customerSignupDate.Some? && r.orderDate.value < r.customerSignupDate.value
  }

  /** Earlier than the signup, but on the same day. */
  predicate OrderedEarlierSameDay(r: OrderWithCustomer)
  {
    OrderedBeforeSignupInstant(r) && DayOf(r.orderDate.value) == DayOf(r.customerSignupDate.value)
  }

  /**
   * Truncating to dates drops exactly the rows whose order and signup fall on
   * the same day: those never count, every other earlier order does.
   */
  lemma SignupCheckIgnoresTimeOfDay(rows: seq<OrderWithCustomer>)
    ensures CountOrdersBeforeCustomerSignup(rows) + CountWhere(rows, OrderedEarlierSameDay) ==
            CountWhere(rows, OrderedBeforeSignupInstant)
  {
    forall i | 0 <= i < |rows| && rows[i].orderDate.Some? && rows[i].customerSignupDate.Some?
      ensures OrderedBeforeSignupInstant(rows[i]) <==> OrderedBeforeSignupDay(rows[i]) || OrderedEarlierSameDay(rows[i])
    {
      var o, s := rows[i].orderDate.value, rows[i].customerSignupDate.value;
      if o < s {
        DayOfMonotone(o, s);
      } else {
        DayOfMonotone(s, o);
      }
    }
    CountWherePartition(rows, OrderedBeforeSignupDay, OrderedEarlierSameDay, OrderedBeforeSignupInstant);
  }

  /** The error a check raises when a table it reads does not exist. */
  datatype CheckError = StoreUnavailable

  /**
   * The signup check against the warehouse, where `orders_with_customers`
   * is absent (`None`) until the transform has run once.
   */
  function CheckOrdersBeforeCustomerSignup(table: Option<seq<OrderWithCustomer>>): (r: Result<nat, CheckError>)
    ensures r.Err? <==> table.None?
    ensures r.Ok? ==> r.value <= |table.value|
    ensures table.Some? ==> r == Ok(CountOrdersBeforeCustomerSignup(table.value))
  {
    match table
    case None => Err(StoreUnavailable)
    case Some(rows) => Ok(CountOrdersBeforeCustomerSignup(rows))
  }

  // ----------------------------------------------------------------------
  // get_order_amount_mean_drift_ratio
  // ----------------------------------------------------------------------

  /**
   * Why a drift evaluation raises: the baseline file is missing
   * (FileNotFoundError), it has no `mean_amount` (KeyError), or the current
   * mean is NULL while the baseline mean is not 0 (TypeError from subtracting
   * the baseline mean from `None`).
   */
  datatype DriftError = BaselineMissing | BaselineCorrupt | CurrentMeanNull

  function Abs(x: real): (a: real)
    ensures a >= 0.0 && (a == x || a == -x)
  {
    if x < 0.0 then -x else x
  }

  /**
   * The drift of the current mean from the baseline mean. A baseline mean of 0
   * is clamped: 0.0 when the current mean is also 0, and 1.0 otherwise (a NULL
   * current mean compares unequal to 0, so it also gives 1.0).
   */
  function MeanDriftRatio(baselineMean: real, currentMean: Option<real>): (r: Result<real, DriftError>)
    ensures r.Err? <==> baselineMean != 0.0 && currentMean.None?
    ensures r.Ok? ==> r.value >= 0.0
  {
    if baselineMean == 0.0 then
      Ok(if currentMean == Some(0.0) then 0.0 else 1.0)
    else if currentMean.None? then
      Err(CurrentMeanNull)
    else
      Ok(Abs(currentMean.value - baselineMean) / Abs(baselineMean))
  }

  /** A zero baseline gives exactly 0.0 or exactly 1.0, and 0.0 only for a current mean of 0. */
  lemma ZeroBaselineClamp(currentMean: Option<real>)
    ensures MeanDriftRatio(0.0, currentMean).Ok?
    ensures MeanDriftRatio(0.0, currentMean).value in {0.0, 1.0}
    ensures MeanDriftRatio(0.0, currentMean).value == 0.0 <==> currentMean == Some(0.0)
  {
  }

  /** Away from a zero baseline the ratio is the relative change: ratio times |base| = |cur - base|. */
  lemma DriftIsRelativeChange(baselineMean: real, currentMean: real)
    requires baselineMean != 0.0
    ensures MeanDriftRatio(baselineMean, Some(currentMean)).Ok?
    ensures MeanDriftRatio(baselineMean, Some(currentMean)).value * Abs(baselineMean) == Abs(currentMean - baselineMean)
  {
  }

  /** No drift is reported exactly when the current mean equals the baseline mean. */
  lemma DriftZeroIffUnchanged(baselineMean: real, currentMean: Option<real>)
    ensures MeanDriftRatio(baselineMean, currentMean) == Ok(0.0) <==> currentMean == Some(baselineMean)
  {
    if baselineMean != 0.0 && currentMean.Some? {
      DriftIsRelativeChange(baselineMean, currentMean.value);
    }
  }

  /** Scaling the mean by `k` drifts by `|k - 1|`; doubling it gives 1.0. */
  lemma DriftOfScaledMean(baselineMean: real, k: real)
    requires baselineMean != 0.0
    ensures MeanDriftRatio(baselineMean, Some(k * baselineMean)) == Ok(Abs(k - 1.0))
  {
    ScaledRelativeChange(baselineMean, k);
  }

  lemma ScaledRelativeChange(b: real, k: real)
    requires b != 0.0
    ensures Abs(k * b - b) / Abs(b) == Abs(k - 1.0)
  {
    assert k * b - b == (k - 1.0) * b;
    AbsOfProduct(k - 1.0, b);
    DivideOutFactor(Abs(k - 1.0), Abs(b));
  }

  lemma AbsOfProduct(x: real, y: real)
    ensures Abs(x * y) == Abs(x) * Abs(y)
  {
    if x < 0.0 && y >= 0.0 {
      assert x * y == -((-x) * y);
    } else if x >= 0.0 && y < 0.0 {
      assert x * y == -(x * (-y));
    } else if x < 0.0 && y < 0.0 {
      assert x * y == (-x) * (-y);
    }
  }

  /** A nonzero factor divides out. */
  lemma DivideOutFactor(x: real, c: real)
    requires c != 0.0
    ensures x * c / c == x
  {
  }

  /** Base 100 and current 150 drift by 0.5; base 35 and current 70 drift by 1.0. */
  lemma DriftExamples()
    ensures MeanDriftRatio(100.0, Some(150.0)) == Ok(0.5)
    ensures MeanDriftRatio(35.0, Some(70.0)) == Ok(1.0)
    ensures MeanDriftRatio(0.0, Some(0.0)) == Ok(0.0)
    ensures MeanDriftRatio(0.0, Some(12.5)) == Ok(1.0)
  {
    DriftOfScaledMean(100.0, 1.5);
    DriftOfScaledMean(35.0, 2.0);
  }

  /**
   * The full drift check: read `mean_amount` from the baseline file, then
   * compare it with `AVG(amount)` over the current `orders`. The `row_count`
   * of the baseline and the `COUNT(*)` of the query are not used.
   */
  function GetOrderAmountMeanDriftRatio(files: BaselineFiles, orders: seq<Order>): (r: Result<real, DriftError>)
    ensures r.Ok? ==> r.value >= 0.0
    ensures r.Ok? ==> BaselineFile in files && MeanAmountKey in files[BaselineFile]
    ensures BaselineFile !in files ==> r == Err(BaselineMissing)
    ensures BaselineFile in files && MeanAmountKey !in files[BaselineFile] ==> r == Err(BaselineCorrupt)
    ensures RecordedMean(files).Some? ==> r == MeanDriftRatio(RecordedMean(files).value, AvgAmount(orders))
  {
    if BaselineFile !in files then Err(BaselineMissing)
    else if MeanAmountKey !in files[BaselineFile] then Err(BaselineCorrupt)
    else MeanDriftRatio(NumberValue(files[BaselineFile][MeanAmountKey]), AvgAmount(orders))
  }

  /** The baseline's `mean_amount` as the drift check reads it, if the file has one. */
  function RecordedMean(files: BaselineFiles): Option<real>
  {
    if BaselineFile in files && MeanAmountKey in files[BaselineFile]
    then Some(NumberValue(files[BaselineFile][MeanAmountKey]))
    else None
  }

  /**
   * Two baseline stores that record the same mean give the same drift: the
   * `row_count` field, any other field and any other file are ignored.
   */
  lemma DriftReadsOnlyRecordedMean(files: BaselineFiles, others: BaselineFiles, orders: seq<Order>)
    requires BaselineFile in files <==> BaselineFile in others
    requires RecordedMean(files) == RecordedMean(others)
    ensures GetOrderAmountMeanDriftRatio(files, orders) == GetOrderAmountMeanDriftRatio(others, orders)
  {
  }
}
