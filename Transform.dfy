/**
 * The transform step: `orders_with_customers` is rebuilt as the inner join
 * of `orders` and `customers` on `customer_id`, with the customer columns
 * renamed. The warehouse is a class whose tables are fields; the transform
 * replaces one of them and leaves the others as they are.
 */
module Transform {
  import opened Wrappers
  import opened Schema
  import opened Aggregates
  import opened OrdersChecks

  /**
   * One joined row: the order columns unchanged, and `name`, `email`,
   * `signup_date`, `country` as `customer_name`, `customer_email`,
   * `customer_signup_date`, `customer_country`.
   */
  function Combine(o: Order, c: Customer): (r: OrderWithCustomer)
    ensures OrderOf(r) == o
    ensures r.customerName == c.name && r.customerEmail == c.email
    ensures r.customerSignupDate == c.signupDate && r.customerCountry == c.country
  {
    OrderWithCustomer(o.orderId, o.customerId, o.orderDate, o.amount, o.status,
                      c.name, c.email, c.signupDate, c.country)
  }

  /** The joined rows of one order: one per customer it joins with. */
  function JoinRows(o: Order, customers: seq<Customer>): (rows: seq<OrderWithCustomer>)
    ensures |rows| == CountWhere(customers, MatchesOrder(o))
    ensures forall i :: 0 <= i < |rows| ==> OrderOf(rows[i]) == o && o.customerId.Some?
  {
    var cs := MatchingCustomers(o, customers);
    seq(|cs|, i requires 0 <= i < |cs| => Combine(o, cs[i]))
  }

  /** The inner join of orders with customers on equal, non-NULL `customer_id`. */
  function Join(orders: seq<Order>, customers: seq<Customer>): (rows: seq<OrderWithCustomer>)
    ensures forall i :: 0 <= i < |rows| ==> OrderOf(rows[i]) in orders
    ensures forall i :: 0 <= i < |rows| ==> rows[i].customerId.Some?
  {
    if orders == [] then []
    else JoinRows(orders[0], customers) + Join(orders[1..], customers)
  }

  /** The number of (order, customer) pairs that join, summed over the orders. */
  function MatchCount(orders: seq<Order>, customers: seq<Customer>): nat
  {
    if orders == [] then 0
    else CountWhere(customers, MatchesOrder(orders[0])) + MatchCount(orders[1..], customers)
  }

  /**
   * The join has one row per joining pair: each order contributes as many
   * rows as there are customers with its `customer_id`, duplicates included.
   */
  lemma {:induction false} JoinSize(orders: seq<Order>, customers: seq<Customer>)
    ensures |Join(orders, customers)| == MatchCount(orders, customers)
  {
    if orders != [] {
      JoinSize(orders[1..], customers);
    }
  }

  /** The rows of one order are its pairings with the customers it joins with. */
  lemma JoinRowsMembership(o: Order, customers: seq<Customer>, r: OrderWithCustomer)
    ensures r in JoinRows(o, customers) <==>
            exists j :: 0 <= j < |customers| && JoinsWith(o, customers[j]) && r == Combine(o, customers[j])
  {
    var cs := MatchingCustomers(o, customers);
    if r in JoinRows(o, customers) {
      var i :| 0 <= i < |cs| && JoinRows(o, customers)[i] == r;
      assert cs[i] in customers;
      var j :| 0 <= j < |customers| && customers[j] == cs[i];
      assert JoinsWith(o, customers[j]);
    }
    if exists j :: 0 <= j < |customers| && JoinsWith(o, customers[j]) && r == Combine(o, customers[j]) {
      var j :| 0 <= j < |customers| && JoinsWith(o, customers[j]) && r == Combine(o, customers[j]);
      assert MatchesOrder(o)(customers[j]);
      assert customers[j] in cs;
      var i :| 0 <= i < |cs| && cs[i] == customers[j];
      assert JoinRows(o, customers)[i] == r;
    }
  }

  /**
   * A row is in the join exactly when it pairs an order with a customer
   * whose `customer_id` equals the order's (and is not NULL).
   */
  lemma {:induction false} JoinMembership(orders: seq<Order>, customers: seq<Customer>, r: OrderWithCustomer)
    ensures r in Join(orders, customers) <==>
            exists i, j :: 0 <= i < |orders| && 0 <= j < |customers| &&
                           JoinsWith(orders[i], customers[j]) && r == Combine(orders[i], customers[j])
  {
    if orders != [] {
      JoinMembership(orders[1..], customers, r);
      JoinRowsMembership(orders[0], customers, r);
      if exists i, j :: 0 <= i < |orders| && 0 <= j < |customers| &&
                        JoinsWith(orders[i], customers[j]) && r == Combine(orders[i], customers[j]) {
        var i, j :| 0 <= i < |orders| && 0 <= j < |customers| &&
                    JoinsWith(orders[i], customers[j]) && r == Combine(orders[i], customers[j]);
        if i > 0 {
          assert orders[1..][i - 1] == orders[i];
        }
      }
    }
  }

  /**
   * Every joined row carries the columns of some order and a non-NULL
   * `customer_id` that some customer has.
   */
  lemma JoinRowsAreMatched(orders: seq<Order>, customers: seq<Customer>, r: OrderWithCustomer)
    requires r in Join(orders, customers)
    ensures OrderOf(r) in orders
    ensures r.customerId.Some? && r.customerId.value in CustomerIds(customers)
  {
    JoinMembership(orders, customers, r);
    var i, j :| 0 <= i < |orders| && 0 <= j < |customers| &&
                JoinsWith(orders[i], customers[j]) && r == Combine(orders[i], customers[j]);
    HasCustomerByIds(customers, orders[i]);
  }

  /**
   * An order without a customer is counted by the referential check while
   * the join drops it: no joined row carries it.
   */
  lemma UnmatchedOrderCountedNotJoined(orders: seq<Order>, customers: seq<Customer>, k: nat)
    requires k < |orders| && !HasCustomer(customers, orders[k])
    ensures CountOrdersWithMissingCustomer(orders, customers) >= 1
    ensures forall r :: r in Join(orders, customers) ==> OrderOf(r) != orders[k]
  {
    MissingCustomerCountsOrders(orders, customers);
    forall r | r in Join(orders, customers)
      ensures OrderOf(r) != orders[k]
    {
      JoinMembership(orders, customers, r);
    }
  }

  /** One order's share of the join has as many rows as the order has customers. */
  lemma JoinRowsSize(o: Order, customers: seq<Customer>)
    ensures |JoinRows(o, customers)| == CountWhere(customers, MatchesOrder(o))
    ensures |JoinRows(o, customers)| == 0 <==> !HasCustomer(customers, o)
  {
    var cs := MatchingCustomers(o, customers);
    if HasCustomer(customers, o) {
      var j :| 0 <= j < |customers| && JoinsWith(o, customers[j]);
      assert MatchesOrder(o)(customers[j]);
    }
  }

  /** No two customers share a non-NULL `customer_id`. */
  predicate UniqueCustomerIds(customers: seq<Customer>)
  {
    forall i, j :: 0 <= i < j < |customers| && customers[i].customerId.Some? ==>
      customers[i].customerId != customers[j].customerId
  }

  /** With unique customer ids an order joins at most one customer. */
  lemma {:induction false} AtMostOneMatch(o: Order, customers: seq<Customer>)
    requires UniqueCustomerIds(customers)
    ensures CountWhere(customers, MatchesOrder(o)) <= 1
  {
    if customers != [] {
      var rest := customers[1..];
      assert forall i :: 0 <= i < |rest| ==> rest[i] == customers[i + 1];
      if MatchesOrder(o)(customers[0]) {
        assert forall i :: 0 <= i < |rest| ==> !MatchesOrder(o)(rest[i]);
      } else {
        AtMostOneMatch(o, rest);
      }
    }
  }

  /**
   * Every order with a customer appears at least once in the join, so the
   * join and the referential check together cover all orders.
   */
  lemma {:induction false} JoinCoversMatchedOrders(orders: seq<Order>, customers: seq<Customer>)
    ensures |Join(orders, customers)| + CountOrdersWithMissingCustomer(orders, customers) >= |orders|
    ensures UniqueCustomerIds(customers) ==>
            |Join(orders, customers)| + CountOrdersWithMissingCustomer(orders, customers) == |orders|
  {
    MissingCustomerCountsOrders(orders, customers);
    if orders != [] {
      JoinCoversMatchedOrders(orders[1..], customers);
      MissingCustomerCountsOrders(orders[1..], customers);
      JoinRowsSize(orders[0], customers);
      if UniqueCustomerIds(customers) {
        AtMostOneMatch(orders[0], customers);
      }
    }
  }

  /** The data that every check is meant to accept. */
  predicate CleanData(orders: seq<Order>, customers: seq<Customer>)
  {
    && (forall i :: 0 <= i < |orders| ==> !IsNegativeAmount(orders[i]))
    && (forall i, j :: 0 <= i < j < |orders| ==> orders[i].orderId != orders[j].orderId)
    && (forall i :: 0 <= i < |orders| ==> HasCustomer(customers, orders[i]))
    && (forall i :: 0 <= i < |orders| ==> !HasInvalidStatus(orders[i]))
    && (forall i, j :: 0 <= i < |orders| && 0 <= j < |customers| && JoinsWith(orders[i], customers[j]) ==>
          !OrderedBeforeSignupDay(Combine(orders[i], customers[j])))
  }

  /** On clean data every check, the signup check run on the join, returns 0. */
  lemma AllChecksPassOnCleanData(orders: seq<Order>, customers: seq<Customer>)
    requires CleanData(orders, customers)
    ensures CountNegativeOrderAmounts(orders) == 0
    ensures CountDuplicateOrderIds(orders) == 0
    ensures CountOrdersWithMissingCustomer(orders, customers) == 0
    ensures CountOrdersWithInvalidStatus(orders) == 0
    ensures CountOrdersBeforeCustomerSignup(Join(orders, customers)) == 0
  {
    DuplicateOrderIdsZeroIffDistinct(orders);
    MissingCustomerZeroIffAllMatched(orders, customers);
    var rows := Join(orders, customers);
    forall k | 0 <= k < |rows|
      ensures !OrderedBeforeSignupDay(rows[k])
    {
      JoinMembership(orders, customers, rows[k]);
    }
  }

  /**
   * Customer 1 signed up on 2020-01-01; order 101 (2020-06-01) is fine and
   * order 102 (2019-01-01) predates the signup: the signup check counts 1.
   */
  lemma SignupScenario()
    ensures
      var day := SecondsPerDay;
      var customers := [Customer(Some(1), Some("A"), None, Some(18262 * day), None)];
      var orders := [Order(Some(101), Some(1), Some(18414 * day), Some(50.0), Some("PAID")),
                     Order(Some(102), Some(1), Some(17897 * day), Some(20.0), Some("PAID"))];
      CountOrdersBeforeCustomerSignup(Join(orders, customers)) == 1
  {
    var day := SecondsPerDay;
    var c := Customer(Some(1), Some("A"), None, Some(18262 * day), None);
    var o1 := Order(Some(101), Some(1), Some(18414 * day), Some(50.0), Some("PAID"));
    var o2 := Order(Some(102), Some(1), Some(17897 * day), Some(20.0), Some("PAID"));
    assert MatchingCustomers(o1, [c]) == [c];
    assert MatchingCustomers(o2, [c]) == [c];
    assert [o1, o2][1..] == [o2];
    assert JoinRows(o1, [c]) == [Combine(o1, c)];
    assert JoinRows(o2, [c]) == [Combine(o2, c)];
    assert Join([o2], [c]) == [Combine(o2, c)] + Join([], [c]);
    var rows := Join([o1, o2], [c]);
    assert rows == [Combine(o1, c), Combine(o2, c)];
    assert !OrderedBeforeSignupDay(rows[0]);
    assert OrderedBeforeSignupDay(rows[1]);
  }

  /** The warehouse: the two ingested tables and the derived one (absent until built). */
  class Warehouse {
    var orders: seq<Order>
    var customers: seq<Customer>
    var ordersWithCustomers: Option<seq<OrderWithCustomer>>

    /** A warehouse just after ingestion: the derived table does not exist yet. */
    constructor (orders: seq<Order>, customers: seq<Customer>)
      ensures this.orders == orders && this.customers == customers
      ensures ordersWithCustomers == None
    {
      this.orders := orders;
      this.customers := customers;
      ordersWithCustomers := None;
    }

    /**
     * Create `orders_with_customers` as the join, replacing any table of that
     * name, then count the rows of the new table. The new table depends only on
     * `orders` and `customers`, never on the table it replaces.
     */
    method CreateOrReplaceOrdersWithCustomers() returns (count: nat)
      modifies this`ordersWithCustomers
      ensures ordersWithCustomers == Some(Join(orders, customers))
      ensures count == |Join(orders, customers)|
      ensures orders == old(orders) && customers == old(customers)
    {
      var rows := Join(orders, customers);
      ordersWithCustomers := Some(rows);
      count := |rows|;
    }
  }

  /** Running the transform twice leaves the same table as running it once. */
  method TransformIsIdempotent(w: Warehouse)
    modifies w
    ensures w.orders == old(w.orders) && w.customers == old(w.customers)
    ensures w.ordersWithCustomers == Some(Join(w.orders, w.customers))
  {
    var _ := w.CreateOrReplaceOrdersWithCustomers();
    var once := w.ordersWithCustomers;
    var _ := w.CreateOrReplaceOrdersWithCustomers();
    assert w.ordersWithCustomers == once;
  }
}
