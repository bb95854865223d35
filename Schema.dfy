/**
 * The rows of the warehouse tables `customers`, `orders` and
 * `orders_with_customers`, the timestamps they carry, and the JSON record
 * of the baseline file.
 */
module Schema {
  import opened Wrappers

  /** An instant, in seconds since the epoch (UTC). */
  type Timestamp = int

  const SecondsPerDay: int := 86400

  /**
   * `CAST(t AS DATE)`: the calendar day (days since the epoch) containing
   * `t`, with the time of day dropped.
   */
  function DayOf(t: Timestamp): (d: int)
    ensures d * SecondsPerDay <= t < (d + 1) * SecondsPerDay
  {
    t / SecondsPerDay
  }

  /** Truncation to a date is monotone: a later instant never falls on an earlier day. */
  lemma DayOfMonotone(s: Timestamp, t: Timestamp)
    requires s <= t
    ensures DayOf(s) <= DayOf(t)
  {
  }

  /** A row of `customers`; every column may hold NULL. */
  datatype Customer = Customer(
    customerId: Option<int>,
    name: Option<string>,
    email: Option<string>,
    signupDate: Option<Timestamp>,
    country: Option<string>)

  /** A row of `orders`; every column may hold NULL. */
  datatype Order = Order(
    orderId: Option<int>,
    customerId: Option<int>,
    orderDate: Option<Timestamp>,
    amount: Option<real>,
    status: Option<string>)

  /** A row of the derived table `orders_with_customers`. */
  datatype OrderWithCustomer = OrderWithCustomer(
    orderId: Option<int>,
    customerId: Option<int>,
    orderDate: Option<Timestamp>,
    amount: Option<real>,
    status: Option<string>,
    customerName: Option<string>,
    customerEmail: Option<string>,
    customerSignupDate: Option<Timestamp>,
    customerCountry: Option<string>)

  /**
   * The join condition `o.customer_id = c.customer_id`: a comparison with
   * NULL is never true, so an order with a NULL `customer_id` joins nothing.
   */
  predicate JoinsWith(o: Order, c: Customer)
  {
    o.customerId.Some? && c.customerId == o.customerId
  }

  /** The order columns of a joined row. */
  function OrderOf(r: OrderWithCustomer): Order
  {
    Order(r.orderId, r.customerId, r.orderDate, r.amount, r.status)
  }

  /** A JSON number as `json.load` returns it: a Python `int` or a `float`. */
  datatype Number = Int(i: int) | Float(f: real)

  function NumberValue(n: Number): real
  {
    match n
    case Int(i) => i as real
    case Float(f) => f
  }

  /** A JSON object whose members are numbers. */
  type JsonObject = map<string, Number>

  /** The baseline store: file name to the JSON object in that file. */
  type BaselineFiles = map<string, JsonObject>

  const BaselineFile: string := "orders_amount_baseline.json"
  const RowCountKey: string := "row_count"
  const MeanAmountKey: string := "mean_amount"

  /** The statistics of `orders` that the baseline records. */
  datatype Baseline = Baseline(rowCount: nat, meanAmount: real)

  /** The JSON object written for a baseline: `row_count` an int, `mean_amount` a float. */
  function BaselineToJson(b: Baseline): (obj: JsonObject)
    ensures obj.Keys == {RowCountKey, MeanAmountKey}
    ensures obj[RowCountKey] == Int(b.rowCount) && obj[MeanAmountKey] == Float(b.meanAmount)
  {
    map[RowCountKey := Int(b.rowCount), MeanAmountKey := Float(b.meanAmount)]
  }
}
