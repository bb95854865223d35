/**
 * The SQL aggregates the checks are built from, over a table held as a
 * sequence of rows: `COUNT(*) ... WHERE`, `SUM` and `AVG`. SQL tables are
 * unordered; `CountWherePermutation` shows that the order of the sequence
 * never shows through a count.
 */
module Aggregates {
  import opened Wrappers
  import opened Schema

  /** `SELECT COUNT(*) FROM rows WHERE p`. */
  function CountWhere<T>(rows: seq<T>, p: T -> bool): (n: nat)
    ensures n <= |rows|
    ensures n == 0 <==> forall i :: 0 <= i < |rows| ==> !p(rows[i])
    ensures n == |rows| <==> forall i :: 0 <= i < |rows| ==> p(rows[i])
  {
    if rows == [] then 0
    else
      var rest := CountWhere(rows[1..], p);
      assert forall i :: 1 <= i < |rows| ==> rows[i] == rows[1..][i - 1];
      (if p(rows[0]) then 1 else 0) + rest
  }

  /** The positions of the rows that satisfy `p`. */
  ghost function IndicesWhere<T>(rows: seq<T>, p: T -> bool): set<int>
  {
    set i | 0 <= i < |rows| && p(rows[i])
  }

  /** A count over `UNION ALL` is the sum of the counts. */
  lemma {:induction false} CountWhereAppend<T>(a: seq<T>, b: seq<T>, p: T -> bool)
    ensures CountWhere(a + b, p) == CountWhere(a, p) + CountWhere(b, p)
  {
    if a == [] {
      assert a + b == b;
    } else {
      assert (a + b)[1..] == a[1..] + b;
      CountWhereAppend(a[1..], b, p);
    }
  }

  /** The count is the number of row positions that satisfy the condition. */
  lemma {:induction false} CountWhereIsIndexCount<T>(rows: seq<T>, p: T -> bool)
    ensures CountWhere(rows, p) == |IndicesWhere(rows, p)|
    decreases |rows|
  {
    if rows != [] {
      var n := |rows| - 1;
      var init := rows[..n];
      assert rows == init + [rows[n]];
      CountWhereAppend(init, [rows[n]], p);
      CountWhereIsIndexCount(init, p);
      if p(rows[n]) {
        assert IndicesWhere(rows, p) == IndicesWhere(init, p) + {n};
      } else {
        assert IndicesWhere(rows, p) == IndicesWhere(init, p);
      }
    }
  }

  /** Taking out the row at position `k` takes it out of the count. */
  lemma RemoveAt<T>(b: seq<T>, k: nat, p: T -> bool)
    requires k < |b|
    ensures CountWhere(b, p) == CountWhere(b[..k] + b[k + 1..], p) + (if p(b[k]) then 1 else 0)
  {
    SplitAt(b, k);
    CountWhereSplice(b[..k], b[k], b[k + 1..], p);
  }

  /** A sequence is the rows before position `k`, the row at `k` and the rows after it. */
  lemma SplitAt<T>(b: seq<T>, k: nat)
    requires k < |b|
    ensures b == b[..k] + [b[k]] + b[k + 1..]
  {
    assert b[..k + 1] == b[..k] + [b[k]];
    assert b == b[..k + 1] + b[k + 1..];
  }

  /** A row between two runs of rows adds its own contribution to the count. */
  lemma CountWhereSplice<T>(left: seq<T>, x: T, right: seq<T>, p: T -> bool)
    ensures CountWhere(left + [x] + right, p) == CountWhere(left + right, p) + (if p(x) then 1 else 0)
  {
    assert CountWhere([x], p) == (if p(x) then 1 else 0) by {
      assert [x][1..] == [];
    }
    CountWhereAppend(left + [x], right, p);
    CountWhereAppend(left, [x], p);
    CountWhereAppend(left, right, p);
  }

  /** Taking out the row at position `k` takes one copy of it out of the multiset. */
  lemma RemoveAtMultiset<T>(b: seq<T>, k: nat)
    requires k < |b|
    ensures multiset(b[..k] + b[k + 1..]) == multiset(b) - multiset{b[k]}
  {
    var left, right := b[..k], b[k + 1..];
    SplitAt(b, k);
    assert multiset(b) == multiset(left) + multiset{b[k]} + multiset(right);
  }

  /** Reordering the rows of a table (same multiset) never changes a count. */
  lemma {:induction false} CountWherePermutation<T>(a: seq<T>, b: seq<T>, p: T -> bool)
    requires multiset(a) == multiset(b)
    ensures CountWhere(a, p) == CountWhere(b, p)
    decreases |a|
  {
    if a == [] {
      assert |b| == |multiset(b)| == 0;
    } else {
      var x := a[0];
      assert x in multiset(b);
      var k :| 0 <= k < |b| && b[k] == x;
      RemoveAt(b, k, p);
      RemoveAtMultiset(b, k);
      assert a == [x] + a[1..];
      assert multiset(a[1..]) == multiset(a) - multiset{x};
      CountWherePermutation(a[1..], b[..k] + b[k + 1..], p);
    }
  }

  /** Two conditions that agree on every row give the same count. */
  lemma {:induction false} CountWhereCongruent<T>(rows: seq<T>, p: T -> bool, q: T -> bool)
    requires forall i :: 0 <= i < |rows| ==> (p(rows[i]) <==> q(rows[i]))
    ensures CountWhere(rows, p) == CountWhere(rows, q)
  {
    if rows != [] {
      CountWhereCongruent(rows[1..], p, q);
    }
  }

  /**
   * When `r` holds exactly where one of two exclusive conditions `p`, `q`
   * holds, its count is the sum of theirs.
   */
  lemma {:induction false} CountWherePartition<T>(rows: seq<T>, p: T -> bool, q: T -> bool, r: T -> bool)
    requires forall i :: 0 <= i < |rows| ==> (r(rows[i]) <==> p(rows[i]) || q(rows[i]))
    requires forall i :: 0 <= i < |rows| ==> !(p(rows[i]) && q(rows[i]))
    ensures CountWhere(rows, r) == CountWhere(rows, p) + CountWhere(rows, q)
  {
    if rows != [] {
      CountWherePartition(rows[1..], p, q, r);
    }
  }

  /** `SELECT * FROM rows WHERE p`, keeping the rows' relative order. */
  function Filter<T(==)>(rows: seq<T>, p: T -> bool): (r: seq<T>)
    ensures |r| == CountWhere(rows, p)
    ensures forall i :: 0 <= i < |r| ==> r[i] in rows && p(r[i])
    ensures forall i :: 0 <= i < |rows| && p(rows[i]) ==> rows[i] in r
    ensures multiset(r) <= multiset(rows)
  {
    if rows == [] then []
    else
      var rest := Filter(rows[1..], p);
      assert rows == [rows[0]] + rows[1..];
      if p(rows[0]) then [rows[0]] + rest else rest
  }

  /** The `amount` column is not NULL. */
  predicate HasAmount(o: Order)
  {
    o.amount.Some?
  }

  /** `SUM(amount)` over the non-NULL amounts (0 when there are none). */
  function SumAmounts(orders: seq<Order>): (s: real)
  {
    if orders == [] then 0.0
    else (if orders[0].amount.Some? then orders[0].amount.value else 0.0) + SumAmounts(orders[1..])
  }

  /** `COUNT(amount)`: NULL amounts are skipped, unlike `COUNT(*)`. */
  function CountAmounts(orders: seq<Order>): (n: nat)
    ensures n <= |orders|
    ensures n == 0 <==> forall i :: 0 <= i < |orders| ==> orders[i].amount.None?
  {
    CountWhere(orders, HasAmount)
  }

  /** `AVG(amount)`: NULL when no row has an amount, exact real arithmetic otherwise. */
  function AvgAmount(orders: seq<Order>): (m: Option<real>)
    ensures m.None? <==> forall i :: 0 <= i < |orders| ==> orders[i].amount.None?
    ensures m.Some? ==> m.value * (CountAmounts(orders) as real) == SumAmounts(orders)
  {
    var n := CountAmounts(orders);
    if n == 0 then None else Some(SumAmounts(orders) / n as real)
  }

  /** `n` copies of `c` added up; equal to `c * n` (`RepeatedSum`). */
  function Repeat(c: real, n: nat): real
  {
    if n == 0 then 0.0 else Repeat(c, n - 1) + c
  }

  lemma {:induction false} RepeatedSum(c: real, n: nat)
    ensures Repeat(c, n) == c * (n as real)
  {
    if n > 0 {
      RepeatedSum(c, n - 1);
      assert c * (n as real) == c * ((n - 1) as real) + c;
    }
  }

  /** Amounts that are all at least `lo` sum to at least `lo` times their number. */
  lemma {:induction false} SumAmountsAtLeast(orders: seq<Order>, lo: real)
    requires forall i :: 0 <= i < |orders| && orders[i].amount.Some? ==> lo <= orders[i].amount.value
    ensures Repeat(lo, CountAmounts(orders)) <= SumAmounts(orders)
  {
    if orders != [] {
      var rest := orders[1..];
      assert forall i :: 0 <= i < |rest| ==> rest[i] == orders[i + 1];
      SumAmountsAtLeast(rest, lo);
    }
  }

  /** Amounts that are all at most `hi` sum to at most `hi` times their number. */
  lemma {:induction false} SumAmountsAtMost(orders: seq<Order>, hi: real)
    requires forall i :: 0 <= i < |orders| && orders[i].amount.Some? ==> orders[i].amount.value <= hi
    ensures SumAmounts(orders) <= Repeat(hi, CountAmounts(orders))
  {
    if orders != [] {
      var rest := orders[1..];
      assert forall i :: 0 <= i < |rest| ==> rest[i] == orders[i + 1];
      SumAmountsAtMost(rest, hi);
    }
  }

  /** A quotient of a sum that lies between `lo * n` and `hi * n` lies between `lo` and `hi`. */
  lemma MeanBetween(m: real, n: real, s: real, lo: real, hi: real)
    requires n > 0.0 && m * n == s && lo * n <= s <= hi * n
    ensures lo <= m <= hi
  {
  }

  /** The mean of amounts that all lie in `[lo, hi]` lies in `[lo, hi]`. */
  lemma AvgAmountBounds(orders: seq<Order>, lo: real, hi: real)
    requires forall i :: 0 <= i < |orders| && orders[i].amount.Some? ==> lo <= orders[i].amount.value <= hi
    ensures AvgAmount(orders).Some? ==> lo <= AvgAmount(orders).value <= hi
  {
    var m := AvgAmount(orders);
    if m.Some? {
      var n := CountAmounts(orders);
      var s := SumAmounts(orders);
      assert lo * (n as real) <= s by {
        SumAmountsAtLeast(orders, lo);
        RepeatedSum(lo, n);
      }
      assert s <= hi * (n as real) by {
        SumAmountsAtMost(orders, hi);
        RepeatedSum(hi, n);
      }
      MeanBetween(m.value, n as real, s, lo, hi);
    }
  }
}
