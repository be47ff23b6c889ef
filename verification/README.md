# Sales analytics core in Dafny

A Dafny model of the computational core of a small sales-analytics
platform, with proofs of its properties. The model covers three parts:

- **Sorting and searching** (`algorithms.py`): bubble sort, merge sort with
  its merge step, linear search and binary search. Lists are Dafny
  sequences, which are values, so "bubble sort works on a copy" holds by
  construction. The sorts are generic over the element type and compare
  elements through a `real` key. With numbers and the identity key this
  is the source's comparison of floats, taken as exact reals. A key that
  maps distinct elements to the same value makes the merge's stability
  observable.
- **Domain objects** (`models.py`): entities, sales items (plain, product,
  service) and their `get_price`, customers with a tagged tier
  (`Regular | Premium | Corporate`) and their discount rate and
  `apply_discount`, and orders. Every constructor is a function returning
  `Success(object)` or `Failure(error)`. It runs the same checks, in the
  same order, as the Python `__init__` chain, so the error reported for
  several bad inputs is the first check's. Money, rates and hours are exact
  `real`s. Python truthiness of an id is modelled explicitly: the empty
  string and the number 0 are rejected.
- **Aggregate metrics** (`analyzer.py`, `DataAnalyzer.analyze_data`): each
  metric is a pure function over a sequence of rows with integer-cent
  amounts. The pandas operations used (`sum`, `nunique`,
  `groupby(...).sum()`, `value_counts`, boolean-mask selection) are defined
  once, in the generic `Groups` module. The mean (`mean()`, and the
  per-category mean of `groupby(...).mean()`) is `Analytics.Mean`.

Modules: `Common` (Option, Result, Date), `Sorting`, `Searching`,
`Models`, `Groups`, `Analytics`.

## Model

| member | source | states |
|---|---|---|
| Sorting.Merge | algorithms.py:50-65 | the merged list is as long as both inputs together and holds exactly the union of their elements |
| Sorting.MergeSorted | algorithms.py:55-64 | merging two sorted lists yields a sorted list |
| Sorting.MergeStable | algorithms.py:56-58 | for any key value, the merged elements with that key are the left list's, then the right list's, each in its own order |
| Sorting.MergeSort | algorithms.py:40-47 | the result is sorted and is a permutation of the input; a list of length at most 1 comes back unchanged |
| Sorting.MergeSortStable | algorithms.py:40-47 | for any key value, merge sort keeps the elements with that key in their input order |
| Sorting.PassStep | algorithms.py:26-27 | one compare-and-swap leaves the pair in order, moves only those two elements, keeps the multiset, and carries the prefix maximum one place right |
| Sorting.BubblePass | algorithms.py:25-27 | one pass leaves the largest key of positions 0..last at position last, in order before the already-sorted suffix, which it does not touch |
| Sorting.BubbleSort | algorithms.py:21-29 | the result is sorted and a permutation of the input; the caller's list is a value and cannot change |
| Sorting.SortedPermutationsEqual | algorithms.py:13-47 | two sorted lists of the same numbers are equal, so any two correct sorts agree |
| Sorting.BubbleSortNumbers | algorithms.py:13-47 | on numbers, bubble sort returns exactly the list merge sort returns |
| Searching.LinearSearch | algorithms.py:104-107 | the result is -1 exactly when the target is absent; otherwise it is the smallest index holding the target |
| Searching.BinarySearch | algorithms.py:118-129 | the loop terminates; the result is -1 or an index holding the target; on a sorted list it is -1 exactly when the target is absent |
| Models.NewEntity | models.py:16-19 | construction succeeds exactly when both the id and the name are truthy, and keeps them |
| Models.NewSalesItem | models.py:42-46 | on success the item holds exactly the given id, name, category and base price, and is valid; a falsy id or empty name fails with the entity error, and otherwise exactly a negative base price fails with the price error |
| Models.NewProduct | models.py:74-77 | on success the product holds exactly the given fields and stock; the entity error, the price error and the stock error each occur exactly when their check is the first to fail, in the source's order |
| Models.NewService | models.py:106-109 | on success the service holds exactly the given fields, with the hourly rate as base price, and the duration; the entity, price and duration errors each occur exactly when their check is the first to fail |
| Models.ItemRoundTrip | models.py:42-109 | rebuilding any valid item from its fields gives it back, so the constructors accept exactly the valid items |
| Models.GetPrice | models.py:48-116 | only a product with a negative quantity fails; a valid item's price for a non-negative quantity is non-negative; quantity 0 costs 0 |
| Models.PriceIsUnitMultiple | models.py:79-116 | for every quantity the item accepts, negative ones included for plain items and services, the price is quantity times the unit price: the base price, or rate times hours for a service |
| Models.PriceIsLinear | models.py:48-116 | the price of a + b units is the price of a units plus the price of b units |
| Models.PriceMonotone | models.py:79-116 | buying more units of a valid item never costs less |
| Models.NewCustomer | models.py:136-140 | on success the customer holds exactly the given id, name, email and lifetime value, as a regular customer; the entity error occurs exactly for a falsy id or empty name, and the email error exactly for a valid entity whose email lacks '@' |
| Models.NewPremiumCustomer | models.py:184-187 | on success the customer holds exactly the given fields with a premium tier of the given years; the entity, email and membership errors each occur exactly when their check is the first to fail |
| Models.NewCorporateCustomer | models.py:219-223 | on success the customer holds exactly the given fields and volume, with the company name, or the contact's name when it is empty; the entity, email and volume errors each occur exactly when their check is the first to fail |
| Models.CustomerRoundTrip | models.py:128-223 | rebuilding any valid customer of any tier from its fields gives it back |
| Models.DiscountRate | models.py:142-235 | regular customers get 0; premium members get 5% + 1% per year, between 6% and 15%, 15% from ten years on; corporate rates are 15%, 10% or 5% exactly on the volume bands |
| Models.PremiumRateMonotone | models.py:194-196 | a longer membership never lowers the premium rate |
| Models.CorporateRateMonotone | models.py:230-235 | a larger annual volume never lowers the corporate rate |
| Models.ApplyDiscount | models.py:149-152 | the discounted amount is the amount less amount × rate; a regular customer pays the full amount; a valid customer pays between 85% and 100% of a non-negative amount |
| Models.DiscountBounds | models.py:149-152 | a rate between 0 and 15% keeps a non-negative amount between 85% and 100% of itself |
| Models.OrderName | models.py:256 | the name an order gives its entity is never empty |
| Models.NewOrder | models.py:245-265 | on success the order holds exactly the given id, date, customer, amount and status, with the name "Order <id>"; it succeeds exactly for a truthy id, a status in {completed, cancelled, pending} and a non-negative amount, checking the id, then the status, then the amount |
| Models.OrderRoundTrip | models.py:247-265 | rebuilding a valid order from its fields gives it back |
| Groups.SumAppend | analyzer.py:80 | the total over two concatenated tables is the sum of their totals |
| Groups.KeysOf | analyzer.py:82 | the distinct keys have no duplicates and are exactly the keys that occur |
| Groups.DistinctCount | analyzer.py:82 | the number of distinct keys is the size of the set of keys that occur |
| Groups.GroupMap | analyzer.py:85 | a group-by sum has an entry for exactly the keys that occur, holding the total over that key's rows |
| Groups.GroupMapTotal | analyzer.py:80-85 | the group totals add up to the total over all rows |
| Groups.GroupCountPositive | analyzer.py:99 | a key that occurs has at least one member |
| Groups.GroupCountIsPositions | analyzer.py:92 | counting the members of a group gives the number of positions whose key is that group's |
| Groups.SumNonNegative | analyzer.py:80 | a total of non-negative values is non-negative |
| Groups.Filter | analyzer.py:114 | boolean-mask selection keeps exactly the elements satisfying the mask, and never lengthens the list |
| Groups.FilterMultiset | analyzer.py:114 | each selected element is kept exactly as often as it occurs, every other element never |
| Groups.FilterLength | analyzer.py:114-116 | the selection's length is the number of positions the mask selects |
| Groups.FilterAppend | analyzer.py:114 | selection keeps order: selecting from two concatenated lists gives the two selections concatenated |
| Groups.FilterOccurs | analyzer.py:104-105 | a key occurs among the selected elements exactly when some selected element has it |
| Groups.NoDupPermutation | analyzer.py:88 | reordering a list without duplicates keeps it free of duplicates |
| Analytics.TotalRevenue | analyzer.py:80 | the revenue of a table whose amounts are all non-negative is non-negative |
| Analytics.RevenueAppend | analyzer.py:80 | the revenue of two concatenated tables is the sum of their revenues |
| Analytics.AverageOrderValue | analyzer.py:81 | the mean exists exactly when there are rows, and the mean times the row count is the total revenue |
| Analytics.CustomerCount | analyzer.py:82 | the count is the number of distinct customer ids: at most the number of rows, and at least 1 when there is a row |
| Analytics.RevenueByCategory | analyzer.py:85 | there is a key for exactly the categories that occur, none for absent ones; each holds that category's revenue; the entries add up to the total revenue |
| Analytics.CustomerTotals | analyzer.py:88 | there is a lifetime value for exactly the customers that occur, and it is the sum of that customer's amounts |
| Analytics.TopCustomers | analyzer.py:88-89 | min(10, customers) entries, values non-increasing, each value that customer's total, no customer twice, and no omitted customer worth more than a listed one |
| Analytics.CustomerPairs | analyzer.py:88 | one entry per distinct customer, no customer twice, every customer present, each with their lifetime value |
| Analytics.Ranked | analyzer.py:88 | a reordering of the customer entries by non-increasing lifetime value |
| Analytics.TopOfRanking | analyzer.py:88-89 | the first m entries of any sorted reordering of the customer entries are ordered, correct, distinct, and worth at least any customer left out |
| Analytics.RankedProperties | analyzer.py:88-89 | the ranking lists every customer once with their total, so its first m entries keep those facts |
| Analytics.OrderStatusDistribution | analyzer.py:92 | there is a key for exactly the statuses that occur, each mapped to the number of row positions with that status (at least 1), and the counts add up to the number of rows |
| Analytics.AvgOrderByCategory | analyzer.py:95 | the same categories as the revenue breakdown; each mean times the category's row count is the category's revenue |
| Analytics.CategoryMean | analyzer.py:95 | a category's mean times its row count is its revenue |
| Analytics.OrdersPerCustomer | analyzer.py:99 | a row count for exactly the customers that occur, each the number of row positions with that customer id (at least 1) |
| Analytics.RepeatCustomers | analyzer.py:100 | a customer is a repeat customer exactly when their row count is above 1, that is, exactly when at least two rows carry their id |
| Analytics.RepeatCustomerRate | analyzer.py:98-101 | the rate lies in [0, 100]; with customers, rate × customers = 100 × repeat customers; it is 0 without customers or when everyone ordered once, and 100 when everyone ordered at least twice |
| Analytics.RepeatBounds | analyzer.py:98-101 | there are no more repeat customers than customers; none when every count is 1, all when every count is at least 2 |
| Analytics.Percentage | analyzer.py:101 | part / whole × 100 lies in [0, 100]; times the whole it is 100 × part |
| Analytics.Dated | analyzer.py:104 | the kept rows are exactly the rows with a parsed date, each kept as often as it occurs, one per dated position |
| Analytics.DatedAppend | analyzer.py:104 | dropping undated rows keeps the table's order: the dated rows of two concatenated tables are those of the first, then those of the second |
| Analytics.MonthlyRevenue | analyzer.py:104-105 | a key for exactly the months of dated rows, each holding the sum of that month's dated amounts; the months add up to the revenue of the dated rows |
| Analytics.OutlierRows | analyzer.py:114 | a row is kept exactly when its amount is strictly outside the bounds, as often as it occurs; the length is the number of outlier positions |
| Analytics.OutlierRowsAppend | analyzer.py:114-119 | the outlier rows keep the table's order: those of two concatenated tables are the first table's, then the second's |
| Analytics.Outliers | analyzer.py:108-119 | the bounds lie equally far beyond Q1 and Q3 and 4 IQR apart, so they are exactly Q1 − 1.5 IQR and Q3 + 1.5 IQR, and enclose the quartiles when q1 ≤ q3; the details are exactly the rows strictly outside them, with their multiplicities; the count is the number of outlier rows |
| Analytics.Analyze | analyzer.py:74-121 | for a cleaned table, fails exactly when no data is loaded; otherwise the report's totals agree with its breakdowns, the status counts add up to the rows, the outlier bounds are Q1 − 1.5 IQR and Q3 + 1.5 IQR, and every bound holds |
| Analytics.AnalyzeEmptyTable | analyzer.py:79-105 | an empty table gives zero revenue, no mean, no customers, a 0 repeat rate, no outliers and all four breakdowns empty: revenue and mean by category, status counts and monthly revenue |
| Analytics.AnalyzeSingleOrder | analyzer.py:79-105 | a one-row table's revenue and mean are its amount, with one customer and a 0 repeat rate; its category maps to its amount in the revenue and mean breakdowns, its status to 1, and its month to its amount when it has a date (no month otherwise) |
| Analytics.SingleOrderMetrics | analyzer.py:79-105 | each metric of a one-row table: revenue and mean are its amount, one customer, a 0 repeat rate, the one-entry revenue, mean, status and top-customer breakdowns, and a monthly revenue with the row's month exactly when it has a date |
| Analytics.SingleCategoryMean | analyzer.py:95 | the mean by category of a one-row table maps its category to its amount |
| Analytics.SingleMonth | analyzer.py:104-105 | a one-row table's dated rows are the row itself exactly when it has a date, and its monthly revenue is that month's amount, or empty without a date |
| Analytics.SingleGroup | analyzer.py:85 | a one-row table has one group, holding that row's value |

## Left out

- Benchmark timers (`benchmark_sorting`, `benchmark_searching`): wall-clock timing only.
- Loading and cleaning (`load_data`, `clean_data`): CSV reading, mean imputation and date coercion are library behaviour. A row's date arrives already parsed, or as `None`.
- `print_analytics`, `__str__`/`__repr__`, main.py and utils.py: console, plotting and file output only.
- The quartiles' linear interpolation: Q1 and Q3 are inputs to `Analytics.Outliers` and `Analytics.Analyze`.
- Floating point: money, rates, hours and sort keys are exact reals, so NaN, infinities and the ordering quirks of NaN in comparisons are not modelled.
- Missing values in the analytics: a row is a cleaned row whose category, customer id and status are always present. pandas drops rows with a missing key from `groupby`, `value_counts` and `nunique`, and `sum` skips a missing amount; the model has no missing keys or amounts, so it does not cover those paths. Only the order date may be missing (`None`).
- Analytics.Analyze: covers a table that has been cleaned. Calling `analyze_data` after `load_data` without `clean_data` leaves the order dates as text, and the source then fails at analyzer.py:104 (`.dt` on a non-date column); that failure is not modelled, so "fails exactly when no data is loaded" holds only for cleaned tables.
- Monetary amounts: in the domain objects money is an exact real, so `0.05 + 0.10` is exactly `0.15`; in the analytics amounts are integer cents. Rounding that pandas and Python would do is not modelled.
- Analytics.TopCustomers: does not state how customers with equal totals are ordered, because pandas' default sort is not stable. The model ranks them with a stable merge sort over first-appearance order, but no property depends on that.
- Analytics.Outliers: the report keeps whole rows as the details, not only the four columns the source selects for display.
- Analytics.Analyze: the report's dictionaries are Dafny maps and sequences, not Python dicts. `average_order_value` for an empty table is `None` where pandas gives NaN.
- Sorting.MergeSort: returns a value, so it does not model that `merge_sort` hands back the caller's own list object when its length is at most 1 (algorithms.py:40-41) and a fresh list otherwise, while `bubble_sort` always copies (algorithms.py:21). Sequences have no identity, and nothing in the modelled code mutates a sorted result.
- Sorting.BubbleSort: works on a sequence rather than an in-place Python list. Its stability is not stated; on numbers `Sorting.BubbleSortNumbers` shows it returns merge sort's list.
- Models.GetPrice: a plain `SalesItem`, and a service, accept a negative quantity and return unit price × quantity for it, as the source does (a negative price whenever the unit price is positive). Only the product checks the quantity.
- The id of an entity is a string or an integer (`Ident`); its name is a string. Other Python values, and the truthiness of other types, are not modelled.
- The order date is an opaque `Date`; the constructor does not check it, and neither does the source.
