/** `DataAnalyzer.analyze_data` (analyzer.py): the aggregate metrics of a
    table of sales rows, each a reduction over the rows.

    Amounts are integer cents, so sums are exact. The 25th and 75th
    percentiles that pandas interpolates are inputs, in cents. */
module Analytics {
  import opened Common
  import Groups
  import Sorting

  /** One cleaned sales transaction; `date` is `None` where pandas could not
      parse the order date. */
  datatype Row = Row(
    orderId: string,
    customerId: string,
    category: string,
    amount: int,
    status: string,
    date: Option<Date>)

  function AmountOf(r: Row): int { r.amount }
  function CategoryOf(r: Row): string { r.category }
  function CustomerOf(r: Row): string { r.customerId }
  function StatusOf(r: Row): string { r.status }
  function CountOne(r: Row): int { 1 }

  /** The calendar month (year, month) of a dated row. */
  function MonthOf(r: Row): (int, int)
  {
    match r.date
    case Some(d) => (d.year, d.month)
    case None => (0, 0)
  }

  /** The error `analyze_data` raises when no data has been loaded. */
  datatype AnalysisError = NoDataLoaded

  /** The `outlier_orders` entry: how many rows fall outside the bounds,
      the bounds themselves and the rows concerned. */
  datatype OutlierReport = OutlierReport(count: nat, lowerBound: real, upperBound: real, details: seq<Row>)

  /** The dictionary `analyze_data` returns, one field per key. */
  datatype Report = Report(
    totalRevenue: int,
    averageOrderValue: Option<real>,
    customerCount: nat,
    revenueByCategory: map<string, int>,
    topCustomers: seq<(string, int)>,
    orderStatusDistribution: map<string, int>,
    avgOrderByCategory: map<string, real>,
    repeatCustomerRate: real,
    monthlyRevenue: map<(int, int), int>,
    outlierOrders: OutlierReport)

  // ---------------------------------------------------------------------
  // 1. Total revenue, average order value, customer count
  // ---------------------------------------------------------------------

  /** `sum()` of the amounts: the total over two tables is the sum of their
      totals, and it is not negative when no amount is. */
  function TotalRevenue(rows: seq<Row>): (r: int)
    ensures (forall i :: 0 <= i < |rows| ==> rows[i].amount >= 0) ==> r >= 0
  {
    Groups.SumNonNegative(rows, AmountOf);
    Groups.Sum(rows, AmountOf)
  }

  /** Revenue is additive over a split of the table. */
  lemma RevenueAppend(a: seq<Row>, b: seq<Row>)
    ensures TotalRevenue(a + b) == TotalRevenue(a) + TotalRevenue(b)
  {
    Groups.SumAppend(a, b, AmountOf);
  }

  /** `mean()`: undefined (pandas gives NaN) for an empty table. */
  function AverageOrderValue(rows: seq<Row>): (r: Option<real>)
    ensures r.Some? <==> |rows| > 0
    ensures r.Some? ==> r.value * |rows| as real == TotalRevenue(rows) as real
  {
    if |rows| == 0 then None
    else Some(Mean(TotalRevenue(rows), |rows|))
  }

  /** `nunique()`: the number of distinct customer ids, counted as the length
      of the list of customers in order of first appearance. */
  function CustomerCount(rows: seq<Row>): (r: nat)
    ensures r == |Groups.KeySet(rows, CustomerOf)|
    ensures r <= |rows|
    ensures |rows| > 0 ==> r >= 1
  {
    Groups.DistinctCount(rows, CustomerOf);
    KeySetSize(rows, CustomerOf);
    |Groups.KeysOf(rows, CustomerOf)|
  }

  /** There are no more distinct keys than rows, and at least one when
      there is a row. */
  lemma KeySetSize<K(!new)>(rows: seq<Row>, keyOf: Row -> K)
    ensures |Groups.KeySet(rows, keyOf)| <= |rows|
    ensures |rows| > 0 ==> |Groups.KeySet(rows, keyOf)| >= 1
  {
    var ks := Groups.KeysOf(rows, keyOf);
    Groups.DistinctCount(rows, keyOf);
    if |rows| > 0 {
      assert keyOf(rows[0]) in Groups.KeySet(rows, keyOf);
    }
    KeysOfLength(rows, keyOf);
  }

  lemma {:induction false} KeysOfLength<K(!new)>(rows: seq<Row>, keyOf: Row -> K)
    ensures |Groups.KeysOf(rows, keyOf)| <= |rows|
    decreases |rows|
  {
    if |rows| > 0 {
      KeysOfLength(rows[..|rows| - 1], keyOf);
    }
  }

  // ---------------------------------------------------------------------
  // 2. Revenue by category
  // ---------------------------------------------------------------------

  /** `groupby('product_category')['order_amount'].sum()`: a key for exactly
      the categories that occur, holding the sum of their rows' amounts, and
      the entries add up to the total revenue. */
  function RevenueByCategory(rows: seq<Row>): (r: map<string, int>)
    ensures forall c :: c in r <==> exists i :: 0 <= i < |rows| && rows[i].category == c
    ensures r.Keys == Groups.KeySet(rows, CategoryOf)
    ensures forall c :: c in r ==> r[c] == Groups.GroupSum(rows, CategoryOf, AmountOf, c)
    ensures Groups.MapSum(r) == TotalRevenue(rows)
  {
    Groups.GroupMapTotal(rows, CategoryOf, AmountOf);
    Groups.GroupMap(rows, CategoryOf, AmountOf)
  }

  // ---------------------------------------------------------------------
  // 3. Top 10 customers by lifetime value
  // ---------------------------------------------------------------------

  /** Each customer's lifetime value: the sum of their rows' amounts. */
  function CustomerTotals(rows: seq<Row>): (r: map<string, int>)
    ensures forall c :: c in r <==> exists i :: 0 <= i < |rows| && rows[i].customerId == c
    ensures forall c :: c in r ==> r[c] == Groups.GroupSum(rows, CustomerOf, AmountOf, c)
  {
    Groups.GroupMap(rows, CustomerOf, AmountOf)
  }

  /** Sorting by the negated total orders customers by descending value. */
  function NegatedTotal(p: (string, int)): real { -(p.1 as real) }

  /** Some entry of `top` is customer `c`. */
  predicate Listed(top: seq<(string, int)>, c: string)
  {
    exists j :: 0 <= j < |top| && top[j].0 == c
  }

  /** Every entry is some customer's (id, lifetime value) pair. */
  predicate TotalsEntries(totals: map<string, int>, s: seq<(string, int)>)
  {
    forall i :: 0 <= i < |s| ==> s[i].0 in totals && s[i].1 == totals[s[i].0]
  }

  /** No customer has two entries. */
  predicate DistinctIds(s: seq<(string, int)>)
  {
    forall i, j :: 0 <= i < j < |s| ==> s[i].0 != s[j].0
  }

  /** `sort_values(ascending=False).head(10)`: at most ten customers with
      their lifetime values, highest first, no customer twice, and nobody
      left out whose value exceeds one that is listed. How ties are ordered
      is not stated. */
  function TopCustomers(rows: seq<Row>): (r: seq<(string, int)>)
    ensures |r| == if CustomerCount(rows) < 10 then CustomerCount(rows) else 10
    ensures forall i, j :: 0 <= i < j < |r| ==> r[i].1 >= r[j].1
    ensures forall i :: 0 <= i < |r| ==> r[i].0 in CustomerTotals(rows) && r[i].1 == CustomerTotals(rows)[r[i].0]
    ensures forall i, j :: 0 <= i < j < |r| ==> r[i].0 != r[j].0
    ensures forall c, i :: c in CustomerTotals(rows) && !Listed(r, c) && 0 <= i < |r| ==> CustomerTotals(rows)[c] <= r[i].1
  {
    var m := if CustomerCount(rows) < 10 then CustomerCount(rows) else 10;
    RankedProperties(rows, m);
    Ranked(rows)[..m]
  }

  /** Every customer with their lifetime value, once each, in order of
      first appearance. */
  function CustomerPairs(rows: seq<Row>): (r: seq<(string, int)>)
    ensures |r| == CustomerCount(rows)
    ensures TotalsEntries(CustomerTotals(rows), r)
    ensures DistinctIds(r)
    ensures forall c :: c in CustomerTotals(rows) ==> Listed(r, c)
  {
    TotalsCoverIds(rows);
    PairUp(CustomerTotals(rows), Groups.KeysOf(rows, CustomerOf))
  }

  /** Each of the distinct `ids` with its total. */
  function PairUp(totals: map<string, int>, ids: seq<string>): (r: seq<(string, int)>)
    requires Groups.NoDup(ids) && forall c :: c in totals <==> c in ids
    ensures |r| == |ids|
    ensures TotalsEntries(totals, r) && DistinctIds(r)
    ensures forall c :: c in totals ==> Listed(r, c)
  {
    var r := seq(|ids|, i requires 0 <= i < |ids| => (ids[i], totals[ids[i]]));
    PairsListEveryone(totals, ids, r);
    r
  }

  /** The customers with a total are the customers listed by first
      appearance. */
  lemma TotalsCoverIds(rows: seq<Row>)
    ensures forall c :: c in CustomerTotals(rows) <==> c in Groups.KeysOf(rows, CustomerOf)
    ensures |Groups.KeysOf(rows, CustomerOf)| == CustomerCount(rows)
  {
  }

  /** Pairing each distinct id with its total lists every customer once. */
  lemma PairsListEveryone(totals: map<string, int>, ids: seq<string>, pairs: seq<(string, int)>)
    requires Groups.NoDup(ids) && forall c :: c in totals <==> c in ids
    requires |pairs| == |ids| && forall i :: 0 <= i < |ids| ==> pairs[i] == (ids[i], totals[ids[i]])
    ensures TotalsEntries(totals, pairs)
    ensures DistinctIds(pairs)
    ensures forall c :: c in totals ==> Listed(pairs, c)
  {
    forall c | c in totals
      ensures Listed(pairs, c)
    {
      var k :| 0 <= k < |ids| && ids[k] == c;
      assert pairs[k].0 == c;
    }
  }

  /** All customers, by descending total. */
  function Ranked(rows: seq<Row>): (r: seq<(string, int)>)
    ensures multiset(r) == multiset(CustomerPairs(rows))
    ensures Sorting.SortedBy(r, NegatedTotal)
  {
    Sorting.MergeSort(CustomerPairs(rows), NegatedTotal)
  }

  /** The facts about the first m ranked customers that `TopCustomers`
      passes on to its result. */
  lemma RankedProperties(rows: seq<Row>, m: nat)
    requires m <= CustomerCount(rows)
    ensures |Ranked(rows)| == CustomerCount(rows)
    ensures var top, totals := Ranked(rows)[..m], CustomerTotals(rows);
      && (forall i, j :: 0 <= i < j < |top| ==> top[i].1 >= top[j].1)
      && (forall i :: 0 <= i < |top| ==> top[i].0 in totals && top[i].1 == totals[top[i].0])
      && (forall i, j :: 0 <= i < j < |top| ==> top[i].0 != top[j].0)
      && (forall c, i :: c in totals && !Listed(top, c) && 0 <= i < |top| ==> totals[c] <= top[i].1)
  {
    var totals, pairs, ranked := CustomerTotals(rows), CustomerPairs(rows), Ranked(rows);
    assert |ranked| == |multiset(ranked)| == |multiset(pairs)| == |pairs|;
    TopOfRanking(totals, pairs, ranked, m);
  }

  /** Any sorted reordering of a list naming every customer once with their
      total has first m entries that are ordered, correct, distinct and
      exceed every customer left out. */
  lemma TopOfRanking(totals: map<string, int>, pairs: seq<(string, int)>, ranked: seq<(string, int)>, m: nat)
    requires TotalsEntries(totals, pairs) && DistinctIds(pairs) && forall c :: c in totals ==> Listed(pairs, c)
    requires multiset(ranked) == multiset(pairs) && Sorting.SortedBy(ranked, NegatedTotal)
    requires m <= |ranked|
    ensures var top := ranked[..m];
      && (forall i, j :: 0 <= i < j < |top| ==> top[i].1 >= top[j].1)
      && (forall i :: 0 <= i < |top| ==> top[i].0 in totals && top[i].1 == totals[top[i].0])
      && (forall i, j :: 0 <= i < j < |top| ==> top[i].0 != top[j].0)
      && (forall c, i :: c in totals && !Listed(top, c) && 0 <= i < |top| ==> totals[c] <= top[i].1)
  {
    RankedEntries(totals, pairs, ranked);
    RankedDistinct(totals, pairs, ranked);
    RankedOmitted(totals, pairs, ranked, m);
    RankedPrefix(totals, ranked, m);
  }

  /** What holds of every ranked entry holds of the first m. */
  lemma RankedPrefix(totals: map<string, int>, ranked: seq<(string, int)>, m: nat)
    requires m <= |ranked| && Sorting.SortedBy(ranked, NegatedTotal)
    requires TotalsEntries(totals, ranked) && DistinctIds(ranked)
    ensures var top := ranked[..m];
      && (forall i, j :: 0 <= i < j < |top| ==> top[i].1 >= top[j].1)
      && (forall i :: 0 <= i < |top| ==> top[i].0 in totals && top[i].1 == totals[top[i].0])
      && (forall i, j :: 0 <= i < j < |top| ==> top[i].0 != top[j].0)
  {
    var top := ranked[..m];
    assert forall i :: 0 <= i < m ==> top[i] == ranked[i];
    assert forall i, j :: 0 <= i < j < m ==> NegatedTotal(ranked[i]) <= NegatedTotal(ranked[j]);
  }

  /** Reordering the pairs keeps every entry a customer's (id, total). */
  lemma RankedEntries(totals: map<string, int>, pairs: seq<(string, int)>, ranked: seq<(string, int)>)
    requires TotalsEntries(totals, pairs) && multiset(ranked) == multiset(pairs)
    ensures TotalsEntries(totals, ranked)
  {
    forall i | 0 <= i < |ranked|
      ensures ranked[i].0 in totals && ranked[i].1 == totals[ranked[i].0]
    {
      assert ranked[i] in multiset(pairs);
      var k :| 0 <= k < |pairs| && pairs[k] == ranked[i];
    }
  }

  /** No customer is ranked twice. */
  lemma RankedDistinct(totals: map<string, int>, pairs: seq<(string, int)>, ranked: seq<(string, int)>)
    requires DistinctIds(pairs) && multiset(ranked) == multiset(pairs)
    requires TotalsEntries(totals, ranked)
    ensures DistinctIds(ranked)
  {
    assert Groups.NoDup(pairs) by {
      forall i, j | 0 <= i < j < |pairs| ensures pairs[i] != pairs[j] {
        assert pairs[i].0 != pairs[j].0;
      }
    }
    Groups.NoDupPermutation(pairs, ranked);
    forall i, j | 0 <= i < j < |ranked|
      ensures ranked[i].0 != ranked[j].0
    {
      assert ranked[i] != ranked[j];
    }
  }

  /** A customer missing from the first m ranked entries is ranked after
      them, so their total is no larger than any of those entries'. */
  lemma RankedOmitted(totals: map<string, int>, pairs: seq<(string, int)>, ranked: seq<(string, int)>, m: nat)
    requires TotalsEntries(totals, pairs) && forall c :: c in totals ==> Listed(pairs, c)
    requires multiset(ranked) == multiset(pairs) && Sorting.SortedBy(ranked, NegatedTotal)
    requires m <= |ranked|
    ensures forall c, i :: c in totals && !Listed(ranked[..m], c) && 0 <= i < m ==> totals[c] <= ranked[i].1
  {
    forall c, i | c in totals && !Listed(ranked[..m], c) && 0 <= i < m
      ensures totals[c] <= ranked[i].1
    {
      RankedOmittedOne(totals, pairs, ranked, m, c, i);
    }
  }

  lemma RankedOmittedOne(totals: map<string, int>, pairs: seq<(string, int)>, ranked: seq<(string, int)>,
                         m: nat, c: string, i: nat)
    requires c in totals && Listed(pairs, c) && TotalsEntries(totals, pairs)
    requires multiset(ranked) == multiset(pairs) && Sorting.SortedBy(ranked, NegatedTotal)
    requires i < m <= |ranked| && !Listed(ranked[..m], c)
    ensures totals[c] <= ranked[i].1
  {
    var k :| 0 <= k < |pairs| && pairs[k].0 == c;
    assert pairs[k] in multiset(ranked);
    var p :| 0 <= p < |ranked| && ranked[p] == pairs[k];
    forall q | 0 <= q < m
      ensures ranked[q].0 != c
    {
      assert ranked[..m][q] == ranked[q];
    }
    assert NegatedTotal(ranked[i]) <= NegatedTotal(ranked[p]);
  }

  // ---------------------------------------------------------------------
  // 4. Order status distribution
  // ---------------------------------------------------------------------

  /** `value_counts()` of the status column: a key for exactly the statuses
      that occur, each mapped to the number of rows with that status, the
      counts adding up to the number of rows. */
  function OrderStatusDistribution(rows: seq<Row>): (r: map<string, int>)
    ensures forall s :: s in r <==> exists i :: 0 <= i < |rows| && rows[i].status == s
    ensures forall s :: s in r ==> r[s] == |set i | 0 <= i < |rows| && rows[i].status == s|
    ensures forall s :: s in r ==> r[s] >= 1
    ensures Groups.MapSum(r) == |rows|
  {
    var r := Groups.GroupMap(rows, StatusOf, CountOne);
    forall s | s in r ensures r[s] >= 1 {
      Groups.GroupCountPositive(rows, StatusOf, CountOne, s);
    }
    forall s | s in r ensures r[s] == |set i | 0 <= i < |rows| && rows[i].status == s| {
      var has := x => StatusOf(x) == s;
      Groups.GroupCountIsPositions(rows, StatusOf, CountOne, s, has);
      assert Groups.Where(rows, has) == set i | 0 <= i < |rows| && rows[i].status == s;
    }
    Groups.GroupMapTotal(rows, StatusOf, CountOne);
    CountOneSum(rows);
    r
  }

  lemma {:induction false} CountOneSum(rows: seq<Row>)
    ensures Groups.Sum(rows, CountOne) == |rows|
    decreases |rows|
  {
    if |rows| > 0 {
      CountOneSum(rows[..|rows| - 1]);
    }
  }

  // ---------------------------------------------------------------------
  // 5. Average order value by category
  // ---------------------------------------------------------------------

  /** `m` is the mean of `count` values whose sum is `total`. */
  predicate IsMean(m: real, total: int, count: int)
  {
    m * count as real == total as real
  }

  /** The mean of `count` values whose sum is `total`. */
  function Mean(total: int, count: int): (r: real)
    requires count >= 1
    ensures r * count as real == total as real
  {
    total as real / count as real
  }

  /** `groupby('product_category')['order_amount'].mean()`: the same keys as
      the revenue by category; each value times the category's row count is
      the category's revenue. */
  function AvgOrderByCategory(rows: seq<Row>): (r: map<string, real>)
    ensures r.Keys == Groups.KeySet(rows, CategoryOf)
    ensures forall c :: c in r ==>
      IsMean(r[c], Groups.GroupSum(rows, CategoryOf, AmountOf, c), Groups.GroupSum(rows, CategoryOf, CountOne, c))
  {
    map c | c in Groups.KeySet(rows, CategoryOf) :: CategoryMean(rows, c)
  }

  /** The mean amount of the rows of a category that occurs. */
  function CategoryMean(rows: seq<Row>, c: string): (r: real)
    requires c in Groups.KeySet(rows, CategoryOf)
    ensures IsMean(r, Groups.GroupSum(rows, CategoryOf, AmountOf, c), Groups.GroupSum(rows, CategoryOf, CountOne, c))
  {
    Groups.GroupCountPositive(rows, CategoryOf, CountOne, c);
    Mean(Groups.GroupSum(rows, CategoryOf, AmountOf, c), Groups.GroupSum(rows, CategoryOf, CountOne, c))
  }

  // ---------------------------------------------------------------------
  // 6. Repeat customer rate
  // ---------------------------------------------------------------------

  /** Each customer's number of rows (`groupby('customer_id').size()`). */
  function OrdersPerCustomer(rows: seq<Row>): (r: map<string, int>)
    ensures r.Keys == Groups.KeySet(rows, CustomerOf)
    ensures forall c :: c in r ==> r[c] == |set i | 0 <= i < |rows| && rows[i].customerId == c|
    ensures forall c :: c in r ==> r[c] >= 1
  {
    var r := Groups.GroupMap(rows, CustomerOf, CountOne);
    forall c | c in r ensures r[c] >= 1 {
      Groups.GroupCountPositive(rows, CustomerOf, CountOne, c);
    }
    forall c | c in r ensures r[c] == |set i | 0 <= i < |rows| && rows[i].customerId == c| {
      var has := x => CustomerOf(x) == c;
      Groups.GroupCountIsPositions(rows, CustomerOf, CountOne, c, has);
      assert Groups.Where(rows, has) == set i | 0 <= i < |rows| && rows[i].customerId == c;
    }
    r
  }

  /** The customers with more than one row. */
  function RepeatCustomers(rows: seq<Row>): (r: set<string>)
    ensures forall c :: c in r <==> c in OrdersPerCustomer(rows) && OrdersPerCustomer(rows)[c] > 1
    ensures forall c :: c in r <==> |set i | 0 <= i < |rows| && rows[i].customerId == c| >= 2
    ensures r <= Groups.KeySet(rows, CustomerOf)
  {
    var counts := OrdersPerCustomer(rows);
    set c | c in counts && counts[c] > 1
  }

  /** The percentage of customers with more than one row, 0 when there are
      no customers. */
  function RepeatCustomerRate(rows: seq<Row>): (r: real)
    ensures 0.0 <= r <= 100.0
    ensures CustomerCount(rows) == 0 ==> r == 0.0
    ensures CustomerCount(rows) > 0 ==> IsRate(r, |RepeatCustomers(rows)|, CustomerCount(rows))
    ensures (forall c :: c in OrdersPerCustomer(rows) ==> OrdersPerCustomer(rows)[c] == 1) ==> r == 0.0
    ensures |rows| > 0 && (forall c :: c in OrdersPerCustomer(rows) ==> OrdersPerCustomer(rows)[c] >= 2) ==> r == 100.0
  {
    var total := CustomerCount(rows);
    var repeat := |RepeatCustomers(rows)|;
    RepeatBounds(rows);
    if total > 0 then Percentage(repeat, total) else 0.0
  }

  /** `r` is `part` as a percentage of `whole`. */
  predicate IsRate(r: real, part: nat, whole: nat)
  {
    r * whole as real == 100.0 * part as real
  }

  /** `part / whole * 100` for a part of a non-empty whole. */
  function Percentage(part: nat, whole: nat): (r: real)
    requires part <= whole && whole > 0
    ensures 0.0 <= r <= 100.0
    ensures r * whole as real == 100.0 * part as real
    ensures IsRate(r, part, whole)
    ensures part == 0 ==> r == 0.0
    ensures part == whole ==> r == 100.0
  {
    var q := part as real / whole as real;
    assert q <= 1.0;
    assert q * whole as real == part as real;
    q * 100.0
  }

  lemma RepeatBounds(rows: seq<Row>)
    ensures |RepeatCustomers(rows)| <= CustomerCount(rows)
    ensures (forall c :: c in OrdersPerCustomer(rows) ==> OrdersPerCustomer(rows)[c] == 1) ==> |RepeatCustomers(rows)| == 0
    ensures (forall c :: c in OrdersPerCustomer(rows) ==> OrdersPerCustomer(rows)[c] >= 2) ==> |RepeatCustomers(rows)| == CustomerCount(rows)
  {
    var keys, counts, repeat := Groups.KeySet(rows, CustomerOf), OrdersPerCustomer(rows), RepeatCustomers(rows);
    if forall c :: c in counts ==> counts[c] == 1 {
      assert repeat == {};
    }
    if forall c :: c in counts ==> counts[c] >= 2 {
      assert repeat == keys;
    }
    Groups.CardinalityOfSubset(repeat, keys);
  }

  // ---------------------------------------------------------------------
  // 7. Monthly revenue
  // ---------------------------------------------------------------------

  predicate HasDate(r: Row) { r.date.Some? }

  /** The rows whose order date could be parsed, in order: each dated row
      as often as it occurs, no undated row, one entry per dated position. */
  function Dated(rows: seq<Row>): (r: seq<Row>)
    ensures forall x :: x in r <==> x in rows && x.date.Some?
    ensures forall x :: multiset(r)[x] == if x.date.Some? then multiset(rows)[x] else 0
    ensures |r| == |set i | 0 <= i < |rows| && rows[i].date.Some?|
    ensures |r| <= |rows|
  {
    Groups.FilterMultiset(rows, HasDate);
    Groups.FilterLength(rows, HasDate);
    assert Groups.Where(rows, HasDate) == set i | 0 <= i < |rows| && rows[i].date.Some?;
    Groups.Filter(rows, HasDate)
  }

  /** Dropping undated rows keeps the table's order: the dated rows of two
      concatenated tables are those of the first, then those of the second. */
  lemma DatedAppend(a: seq<Row>, b: seq<Row>)
    ensures Dated(a + b) == Dated(a) + Dated(b)
  {
    Groups.FilterAppend(a, b, HasDate);
  }

  /** `groupby(order_date.dt.to_period("M"))['order_amount'].sum()`: rows
      without a date belong to no month; each month that occurs maps to the
      sum of its rows' amounts, and the months add up to the dated revenue. */
  function MonthlyRevenue(rows: seq<Row>): (r: map<(int, int), int>)
    ensures forall ym :: ym in r <==> exists i :: 0 <= i < |rows| && rows[i].date.Some? && MonthOf(rows[i]) == ym
    ensures forall ym :: ym in r ==> r[ym] == Groups.GroupSum(Dated(rows), MonthOf, AmountOf, ym)
    ensures Groups.MapSum(r) == TotalRevenue(Dated(rows))
  {
    var dated := Dated(rows);
    Groups.GroupMapTotal(dated, MonthOf, AmountOf);
    DatedMonths(rows);
    Groups.GroupMap(dated, MonthOf, AmountOf)
  }

  /** The months of the dated rows are the months of the rows with a date. */
  lemma DatedMonths(rows: seq<Row>)
    ensures forall ym :: Groups.Occurs(Dated(rows), MonthOf, ym) <==>
      exists i :: 0 <= i < |rows| && rows[i].date.Some? && MonthOf(rows[i]) == ym
  {
    Groups.FilterOccurs(rows, HasDate, MonthOf);
  }

  // ---------------------------------------------------------------------
  // 8. Outliers
  // ---------------------------------------------------------------------

  /** An amount strictly outside [lower, upper]. */
  predicate IsOutlier(r: Row, lower: real, upper: real)
  {
    (r.amount as real) < lower || (r.amount as real) > upper
  }

  /** `df[mask]` for the outlier mask: the outlier rows in order, each as
      often as it occurs, no other row, one entry per outlier position. */
  function OutlierRows(rows: seq<Row>, lower: real, upper: real): (r: seq<Row>)
    ensures forall x :: x in r <==> x in rows && IsOutlier(x, lower, upper)
    ensures forall x :: multiset(r)[x] == if IsOutlier(x, lower, upper) then multiset(rows)[x] else 0
    ensures |r| == |set i | 0 <= i < |rows| && IsOutlier(rows[i], lower, upper)|
    ensures |r| <= |rows|
  {
    var p := x => IsOutlier(x, lower, upper);
    Groups.FilterMultiset(rows, p);
    Groups.FilterLength(rows, p);
    assert Groups.Where(rows, p) == set i | 0 <= i < |rows| && IsOutlier(rows[i], lower, upper);
    Groups.Filter(rows, p)
  }

  /** The outlier rows keep the table's order: those of two concatenated
      tables are the first table's, then the second's. */
  lemma OutlierRowsAppend(a: seq<Row>, b: seq<Row>, lower: real, upper: real)
    ensures OutlierRows(a + b, lower, upper) == OutlierRows(a, lower, upper) + OutlierRows(b, lower, upper)
  {
    Groups.FilterAppend(a, b, x => IsOutlier(x, lower, upper));
  }

  /** The interquartile-range rule: the bounds lie 1.5 IQR beyond the
      quartiles, so they enclose the quartiles, and a row counts as an
      outlier exactly when its amount lies strictly outside them. */
  function Outliers(rows: seq<Row>, q1: real, q3: real): (r: OutlierReport)
    ensures q1 <= q3 ==> r.lowerBound <= q1 <= q3 <= r.upperBound
    ensures r.upperBound - r.lowerBound == 4.0 * (q3 - q1)
    ensures q1 - r.lowerBound == r.upperBound - q3
    ensures r.count == |r.details| <= |rows|
    ensures r.count == |set i | 0 <= i < |rows| && IsOutlier(rows[i], r.lowerBound, r.upperBound)|
    ensures forall x :: x in r.details <==> x in rows && ((x.amount as real) < r.lowerBound || (x.amount as real) > r.upperBound)
    ensures forall x :: multiset(r.details)[x] == if IsOutlier(x, r.lowerBound, r.upperBound) then multiset(rows)[x] else 0
  {
    var iqr := q3 - q1;
    var lower := q1 - 1.5 * iqr;
    var upper := q3 + 1.5 * iqr;
    var details := OutlierRows(rows, lower, upper);
    OutlierReport(|details|, lower, upper, details)
  }

  // ---------------------------------------------------------------------
  // analyze_data
  // ---------------------------------------------------------------------

  /** `analyze_data`: fails when nothing has been loaded (`df` is `None`),
      otherwise computes every metric over the loaded rows. */
  function Analyze(df: Option<seq<Row>>, q1: real, q3: real): (r: Result<Report, AnalysisError>)
    ensures r.Failure? <==> df.None?
    ensures r.Success? ==>
      var rep := r.value;
      && rep.totalRevenue == Groups.MapSum(rep.revenueByCategory)
      && rep.revenueByCategory.Keys == rep.avgOrderByCategory.Keys
      && Groups.MapSum(rep.orderStatusDistribution) == |df.value|
      && rep.customerCount <= |df.value|
      && |rep.topCustomers| <= 10 && |rep.topCustomers| <= rep.customerCount
      && 0.0 <= rep.repeatCustomerRate <= 100.0
      && (q1 <= q3 ==> rep.outlierOrders.lowerBound <= q1 <= q3 <= rep.outlierOrders.upperBound)
      && rep.outlierOrders.upperBound - rep.outlierOrders.lowerBound == 4.0 * (q3 - q1)
      && q1 - rep.outlierOrders.lowerBound == rep.outlierOrders.upperBound - q3
      && rep.outlierOrders.count <= |df.value|
  {
    match df
    case None => Failure(NoDataLoaded)
    case Some(rows) =>
      Success(Report(
        TotalRevenue(rows),
        AverageOrderValue(rows),
        CustomerCount(rows),
        RevenueByCategory(rows),
        TopCustomers(rows),
        OrderStatusDistribution(rows),
        AvgOrderByCategory(rows),
        RepeatCustomerRate(rows),
        MonthlyRevenue(rows),
        Outliers(rows, q1, q3)))
  }

  /** A loaded but empty table: no revenue, no mean, no customers, empty
      breakdowns and a repeat rate of 0. */
  lemma AnalyzeEmptyTable(q1: real, q3: real)
    ensures Analyze(Some([]), q1, q3).Success?
    ensures var rep := Analyze(Some([]), q1, q3).value;
      && rep.totalRevenue == 0
      && rep.averageOrderValue == None
      && rep.customerCount == 0
      && rep.revenueByCategory == map[]
      && rep.topCustomers == []
      && rep.orderStatusDistribution == map[]
      && rep.avgOrderByCategory == map[]
      && rep.repeatCustomerRate == 0.0
      && rep.monthlyRevenue == map[]
      && rep.outlierOrders.count == 0
  {
    var rows: seq<Row> := [];
    assert Groups.KeySet(rows, CategoryOf) == {};
    assert Groups.KeySet(rows, StatusOf) == {};
    assert Dated(rows) == [];
  }

  /** A table of one order: its amount is the revenue and the mean, there
      is one customer, who is not a repeat customer, and the order is the
      only entry in every breakdown. */
  lemma AnalyzeSingleOrder(r: Row, q1: real, q3: real)
    ensures var rep := Analyze(Some([r]), q1, q3).value;
      && rep.totalRevenue == r.amount
      && rep.averageOrderValue == Some(r.amount as real)
      && rep.customerCount == 1
      && rep.revenueByCategory == map[r.category := r.amount]
      && rep.topCustomers == [(r.customerId, r.amount)]
      && rep.orderStatusDistribution == map[r.status := 1]
      && rep.avgOrderByCategory == map[r.category := r.amount as real]
      && rep.repeatCustomerRate == 0.0
      && rep.monthlyRevenue == (if r.date.Some? then map[MonthOf(r) := r.amount] else map[])
  {
    SingleOrderMetrics(r);
  }

  /** The metrics of a one-row table, one by one. */
  lemma SingleOrderMetrics(r: Row)
    ensures TotalRevenue([r]) == r.amount
    ensures AverageOrderValue([r]) == Some(r.amount as real)
    ensures CustomerCount([r]) == 1
    ensures RevenueByCategory([r]) == map[r.category := r.amount]
    ensures TopCustomers([r]) == [(r.customerId, r.amount)]
    ensures OrderStatusDistribution([r]) == map[r.status := 1]
    ensures AvgOrderByCategory([r]) == map[r.category := r.amount as real]
    ensures RepeatCustomerRate([r]) == 0.0
    ensures MonthlyRevenue([r]) == if r.date.Some? then map[MonthOf(r) := r.amount] else map[]
  {
    var rows := [r];
    assert TotalRevenue(rows) == r.amount by {
      assert rows[..0] == [];
      assert Groups.Sum(rows, AmountOf) == Groups.Sum(rows[..0], AmountOf) + r.amount;
    }
    SingleGroup(r, CustomerOf, CountOne);
    assert CustomerCount(rows) == 1;
    SingleGroup(r, CategoryOf, AmountOf);
    SingleGroup(r, StatusOf, CountOne);
    SingleTop(r);
    assert RepeatCustomers(rows) == {};
    SingleCategoryMean(r);
    SingleMonth(r);
  }

  /** The mean by category of a one-row table: its category, at its amount. */
  lemma SingleCategoryMean(r: Row)
    ensures AvgOrderByCategory([r]) == map[r.category := r.amount as real]
  {
    SingleGroup(r, CategoryOf, AmountOf);
    SingleGroup(r, CategoryOf, CountOne);
  }

  /** The monthly revenue of a one-row table: the row's amount under its
      month when it has a date, nothing otherwise. */
  lemma SingleMonth(r: Row)
    ensures Dated([r]) == if r.date.Some? then [r] else []
    ensures MonthlyRevenue([r]) == if r.date.Some? then map[MonthOf(r) := r.amount] else map[]
  {
    var d := Dated([r]);
    if r.date.Some? {
      assert r in d;
      assert d == [r];
      SingleGroup(r, MonthOf, AmountOf);
    } else {
      assert d == [];
      assert Groups.KeySet(d, MonthOf) == {};
    }
  }

  lemma SingleTop(r: Row)
    ensures TopCustomers([r]) == [(r.customerId, r.amount)]
  {
    SingleGroup(r, CustomerOf, AmountOf);
    SingleGroup(r, CustomerOf, CountOne);
    var top := TopCustomers([r]);
    assert |top| == 1;
    assert top[0].0 in CustomerTotals([r]);
  }

  /** A one-row table has one group, holding that row's value. */
  lemma SingleGroup<K(!new)>(r: Row, keyOf: Row -> K, f: Row -> int)
    ensures Groups.KeySet([r], keyOf) == {keyOf(r)}
    ensures Groups.GroupSum([r], keyOf, f, keyOf(r)) == f(r)
    ensures Groups.GroupMap([r], keyOf, f) == map[keyOf(r) := f(r)]
  {
    var rows := [r];
    assert rows[..0] == [];
    assert keyOf(rows[0]) in Groups.KeySet(rows, keyOf);
  }
}
