/**
 * The baseline computation: `COUNT(*)` and `AVG(amount)` over `orders`,
 * written as `{row_count, mean_amount}` to `orders_amount_baseline.json`.
 * The baseline store is a class whose one field maps file names to the JSON
 * objects they hold; saving overwrites one entry.
 */
module DriftBaseline {
  import opened Wrappers
  import opened Schema
  import opened Aggregates
  import opened OrdersChecks
  import opened Transform

  /** `float(mean_amount)` raises TypeError when `AVG(amount)` is NULL. */
  datatype BaselineError = MeanAmountNull

  /**
   * The baseline of the current `orders`: the number of rows, NULL amounts
   * included, and the mean of the non-NULL amounts. With no amount at all
   * (in particular with no orders) there is no mean and nothing to record.
   */
  function ComputeBaseline(orders: seq<Order>): (r: Result<Baseline, BaselineError>)
    ensures r.Err? <==> forall i :: 0 <= i < |orders| ==> orders[i].amount.None?
    ensures r.Ok? ==> r.value.rowCount == |orders|
    ensures r.Ok? ==> r.value.meanAmount * (CountAmounts(orders) as real) == SumAmounts(orders)
  {
    match AvgAmount(orders)
    case None => Err(MeanAmountNull)
    case Some(m) => Ok(Baseline(|orders|, m))
  }

  /**
   * A baseline computed from `orders`, once saved, makes the drift check on
   * the same `orders` report no drift, whatever else the store holds.
   */
  lemma BaselineThenDriftIsZero(files: BaselineFiles, orders: seq<Order>)
    requires ComputeBaseline(orders).Ok?
    ensures GetOrderAmountMeanDriftRatio(files[BaselineFile := BaselineToJson(ComputeBaseline(orders).value)], orders) == Ok(0.0)
  {
    var b := ComputeBaseline(orders).value;
    DriftZeroIffUnchanged(b.meanAmount, AvgAmount(orders));
  }

  /**
   * The drift check reads back exactly the mean that was saved; the saved
   * `row_count` plays no part in it.
   */
  lemma SavedMeanIsRead(files: BaselineFiles, b: Baseline, rowCount: nat, orders: seq<Order>)
    ensures RecordedMean(files[BaselineFile := BaselineToJson(b)]) == Some(b.meanAmount)
    ensures GetOrderAmountMeanDriftRatio(files[BaselineFile := BaselineToJson(b)], orders) ==
            GetOrderAmountMeanDriftRatio(files[BaselineFile := BaselineToJson(Baseline(rowCount, b.meanAmount))], orders)
  {
    DriftReadsOnlyRecordedMean(files[BaselineFile := BaselineToJson(b)],
                               files[BaselineFile := BaselineToJson(Baseline(rowCount, b.meanAmount))], orders);
  }

  /** The directory of baseline files. */
  class BaselineStore {
    var files: BaselineFiles

    constructor (files: BaselineFiles)
      ensures this.files == files
    {
      this.files := files;
    }

    /**
     * Compute the baseline of the warehouse's `orders` and write it to
     * `orders_amount_baseline.json`, replacing whatever that file held. When
     * the mean is NULL the computation raises before anything is written.
     */
    method SaveOrdersAmountBaseline(warehouse: Warehouse) returns (r: Result<Baseline, BaselineError>)
      modifies this
      ensures r == ComputeBaseline(warehouse.orders)
      ensures r.Ok? ==> files == old(files)[BaselineFile := BaselineToJson(r.value)]
      ensures r.Err? ==> files == old(files)
    {
      r := ComputeBaseline(warehouse.orders);
      if r.Ok? {
        files := files[BaselineFile := BaselineToJson(r.value)];
      }
    }
  }

  /**
   * The baseline lifecycle: compute and save a baseline, then evaluate the
   * drift of the unchanged `orders` against it.
   */
  method SaveThenEvaluateDrift(warehouse: Warehouse, store: BaselineStore) returns (drift: Result<real, DriftError>)
    modifies store
    ensures ComputeBaseline(warehouse.orders).Ok? ==>
              store.files == old(store.files)[BaselineFile := BaselineToJson(ComputeBaseline(warehouse.orders).value)]
    ensures ComputeBaseline(warehouse.orders).Ok? ==> drift == Ok(0.0)
    ensures ComputeBaseline(warehouse.orders).Err? ==> store.files == old(store.files)
  {
    var saved := store.SaveOrdersAmountBaseline(warehouse);
    drift := GetOrderAmountMeanDriftRatio(store.files, warehouse.orders);
    if saved.Ok? {
      BaselineThenDriftIsZero(old(store.files), warehouse.orders);
    }
  }
}
