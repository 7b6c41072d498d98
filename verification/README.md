# Global Superstore dashboard — a Dafny model of its data core

The dashboard reads the Global Superstore order lines (one CSV line per
product in an order), shows KPI tiles and automatic insights for the lines
the sidebar selects, and scores customers by Recency, Frequency and
Monetary value (RFM) over a small SQLite star schema built by an ETL step.
This project models that data core as pure Dafny functions and proves what
each step promises:

- `superstore.dfy`: a raw order line (`Row`, 23 columns) and the drop of lines
  whose Order Date did not parse. This drop is shared by the ETL and the page.
- `etl.dfy`: the transform half of `run_etl`. It builds the three dimension
  tables (customers, products, locations with a 1-based surrogate key), the
  left merge that puts the Location ID on each line, the 14-column fact table
  and the Product ID strip.
- `quantiles.dfy`: `pd.qcut(x, q=4)` over exact reals. It covers the
  interpolated quartile edges, right-closed bins with the lowest edge included,
  and the `ValueError` on repeated edges. It also covers `rank(method='first')`
  and the `try/except` fallback that bins the ranks instead.
- `rfm.dfy`: `calculate_rfm`. It covers the join of `fact_orders` with
  `dim_customers`, the `GROUP BY` with `MAX`, `COUNT(DISTINCT)` and `SUM`, and
  recency in days from the latest Order Date. It also covers the three scores,
  the score string and `map_segment`.
- `insights.dfy`: `generate_insights`. It has four rules (margin, category,
  discount, volume), with numeric payloads in place of the message text.
- `dashboard.dfy`: the main page. It covers `load_data`'s `Year` and `MonthYear`
  columns, the three sidebar filters, the four KPI tiles and the insights of
  the filtered lines.
- `collections.dfy`, `text.dfy` and `calendar.dfy` are shared helpers.
  - `collections.dfy`: `drop_duplicates` keep-first, row filtering and derived
    columns.
  - `text.dfy`: the Latin-1 whitespace of `str.strip`, Python string order and
    decimal digits.
  - `calendar.dfy`: proleptic Gregorian dates, a day count, and the text order
    of stored dates.

Reading files, SQLite, Streamlit, Plotly and `st.cache_data` are outside the
model. The CSV arrives as a sequence of `Row`s with dates already parsed
(`None` where `to_datetime(errors='coerce')` gave `NaT`). The fact table and
`dim_customers` arrive as sequences; the latest Order Date stands for "today".

## Model

| member | source | states |
|---|---|---|
| Superstore.KeepDated | utils/etl.py:19-23 | a line is kept exactly when it was in the input and has an Order Date; every kept line is dated |
| Superstore.KeepDatedInOrder | app.py:87-90 | the drop keeps lines in their original order: it distributes over concatenation and keeps a single line exactly when it is dated |
| Text.Strip | utils/etl.py:51-52 | `str.strip` leaves no whitespace at either end and never lengthens the value |
| Text.StripIsSlice | utils/etl.py:51-52 | `str.strip` returns a contiguous slice, and everything cut off at either end is whitespace |
| Text.StripIdempotent | utils/etl.py:51-52 | stripping twice equals stripping once |
| Text.StripKeepsTrimmed | utils/etl.py:51-52 | a Product ID with no whitespace at its ends is unchanged by the strip |
| Text.StripDropsTrailingSpace | utils/etl.py:51-52 | a trimmed ID with one trailing space strips back to the ID |
| Text.LessTotal | insights.py:26-28 | Python string order is total on distinct strings, which makes the order of the group keys definite |
| Text.LessTransitive | insights.py:26-28 | Python string order is transitive |
| Text.DigitRoundTrip | utils/rfm.py:56 | a label written with `astype(str)` reads back as the same digit |
| Calendar.DayNumberOrdersDates | utils/rfm.py:18-29 | the stored-text order of two dates (`MAX` in SQL) agrees with their day counts, and equal day counts mean equal dates |
| Calendar.NextDayIsOneLater | utils/rfm.py:29 | the day count that `.dt.days` subtracts steps by exactly one per calendar day, across month ends, year ends and leap days |
| Calendar.Latest | utils/rfm.py:9-11 | `MAX(Order Date)` is one of the dates, and no date is later |
| Etl.Transform | utils/etl.py:29-52 | after the strip, no Product ID in `dim_products` or `fact_orders` has whitespace at either end |
| Etl.CustomerDimension | utils/etl.py:29 | `dim_customers` has no repeated row, holds exactly the (ID, Name, Segment) triples of the dated lines, and lists them in first-occurrence order |
| Etl.ProductTable | utils/etl.py:32-51 | `dim_products` has at most one row per line; every line's product with its Product ID stripped is a row, every row is such a product, and no Product ID keeps whitespace at its ends |
| Etl.LocationDimension | utils/etl.py:35-36 | `dim_locations` row i has Location ID i+1; its locations are distinct and appear in first-occurrence order |
| Etl.LocationCoverage | utils/etl.py:35-40 | every line's location is a row of `dim_locations`, and every row there is some line's location |
| Etl.MergeOneToOne | utils/etl.py:35-40 | the left merge against the numbered distinct locations equals an independent one-fact-per-line definition: neither repeats nor drops a line |
| Etl.MergeFollowsRows | utils/etl.py:40-48 | the merge has one fact per line, in line order, and each carries the Location ID of the line's location |
| Etl.FactsFollowDatedRows | utils/etl.py:23-52 | `fact_orders` has one fact per dated line in order: the line's 14 `fact_cols` with the matching Location ID and the stripped Product ID |
| Etl.FactCustomersResolve | utils/etl.py:29-48 | every fact's Customer ID has a `dim_customers` row |
| Etl.FactProductsResolve | utils/etl.py:32-52 | every fact's Product ID is the Product ID of some `dim_products` row, because both columns go through the same strip |
| Etl.ProductIdsMayRepeat | utils/etl.py:32-51 | for two lines of one product whose Product IDs are `P` and `P ` (trimmed `P`), `dim_products` is two identical rows |
| Etl.CleanProductTableSameRows | utils/etl.py:32-51 | stripping before the deduplication gives the same set of product rows, each exactly once |
| Quantiles.Sort | utils/rfm.py:41 | the sorted copy of a column is ordered and a permutation of it |
| Quantiles.SortedUnique | utils/rfm.py:41 | two ordered permutations of one column are equal, so the quartile edges depend only on the values |
| Quantiles.Edges | utils/rfm.py:41 | the five quartile edges start at the first and end at the last of the values; over ascending values they ascend, so they run from the minimum to the maximum |
| Quantiles.BinIndexRightClosed | utils/rfm.py:41 | with strictly increasing edges, a value is in bin b exactly when it lies in (e[b-1], e[b]], with the first bin also closed on the left |
| Quantiles.QcutLabels | utils/rfm.py:41-53 | where `qcut` succeeds, a value gets label b exactly when it lies in (e[b-1], e[b]] of the edges e of the sorted values, a value equal to the lowest edge getting label 1 |
| Quantiles.Qcut | utils/rfm.py:41 | `qcut` raises (`None`) on fewer than two values; a result has one label per value, each in 1..4 |
| Quantiles.QcutMonotone | utils/rfm.py:41 | a value no larger than another never gets a higher bin |
| Quantiles.RankFirst | utils/rfm.py:43 | `rank(method='first')` gives every position a rank in 1..n, namely its place in the stable order |
| Quantiles.RankOrder | utils/rfm.py:43 | a smaller value, or an equal value earlier in the column, gets a smaller rank |
| Quantiles.RanksPermuteIota | utils/rfm.py:43 | the ranks are a permutation of 1..n |
| Quantiles.RankBin | utils/rfm.py:43 | the closed-form bin of rank r among n ranks: 1..4, rank 1 in bin 1, otherwise the b with (n-1)(b-1) < 4(r-1) <= (n-1)b |
| Quantiles.FallbackBins | utils/rfm.py:42-43 | the rank-fallback labels: one per value, each in 1..4, and a smaller value, or an equal value earlier in the column, never gets a higher label |
| Quantiles.QcutOfRanks | utils/rfm.py:42-43 | binning the ranks with `qcut` always succeeds for n >= 2 and equals a closed integer formula |
| Quantiles.FallbackFillsEveryBin | utils/rfm.py:42-43 | with at least four customers the rank fallback uses all four labels |
| Quantiles.QcutAttempts | utils/rfm.py:40-53 | fewer than two values make both attempts raise; from two values on, the rank attempt succeeds; every success labels within 1..4 |
| Quantiles.QuartileBins | utils/rfm.py:40-53 | the `try/except` pair yields labels exactly when there are at least two values: one label in 1..4 per value |
| Quantiles.QuartileBinsMonotone | utils/rfm.py:40-53 | on either path, a smaller value, or an equal value earlier in the column, never gets a higher label |
| Rfm.GroupRowsMembers | utils/rfm.py:21-23 | a group holds exactly the joined rows with its (Customer ID, Customer Name) key |
| Rfm.JoinedFromFacts | utils/rfm.py:21-22 | every joined row carries the Order ID, Order Date and Sales of one of the facts |
| Rfm.StatOf | utils/rfm.py:17-20 | a group's `MAX(Order Date)` is the date of one of its rows and no row is later; its `COUNT(DISTINCT Order ID)` is at least one |
| Rfm.Stats | utils/rfm.py:14-24 | the `GROUP BY` result has one row per group key: no key twice, every joined row's key present, each with at least one order |
| Rfm.GroupOrderIds | utils/rfm.py:19-23 | a group's distinct Order IDs are exactly those of its Customer ID's facts |
| Rfm.GroupLastOrder | utils/rfm.py:18-23 | a group's last order date is the date of one of its customer's facts, and no fact of that customer is later |
| Rfm.GroupSales | utils/rfm.py:20-23 | a group's `SUM(Sales)` is its customer's Sales counted once per `dim_customers` row with the group's key |
| Rfm.MonetaryCountedTwice | utils/rfm.py:20-22 | a customer with two `dim_customers` rows (two segments) has its one fact's Sales summed twice |
| Rfm.CalculateRfmPerCustomer | utils/rfm.py:14-24 | joining against one customer row per key scores exactly when the query as written does, and the same number of customers |
| Rfm.PerCustomerMonetary | utils/rfm.py:14-24 | joined against one customer row per key, a customer's monetary value is the plain sum of its facts' Sales |
| Rfm.MapSegment | utils/rfm.py:59-70 | each segment implies its own rule's test on (R, F); Potential/Other is reached only with R >= 3 and F <= 2, the case no earlier rule covers |
| Rfm.SegmentRegions | utils/rfm.py:59-70 | on the 4 x 4 score grid the precedence chain of `map_segment` is five disjoint regions, each given in closed form |
| Rfm.ScoreText | utils/rfm.py:56 | the score string is three characters, each a digit 1..4 |
| Rfm.ScoreTextRoundTrip | utils/rfm.py:56 | R, F and M read back from the three-character score string |
| Rfm.LaterThanEvery | utils/rfm.py:9-29 | recency is never negative, since today is the latest Order Date of the whole fact table |
| Rfm.CalculateRfm | utils/rfm.py:6-74 | a result comes back exactly when there are at least two groups (otherwise pandas raises), with one row per group |
| Rfm.CalculateRfmWellScored | utils/rfm.py:27-72 | every row has labels 1..4, recency >= 0 in days from today, at least one order, the score string R‖F‖M and the segment of (R, F) |
| Rfm.CalculateRfmOrderPreserving | utils/rfm.py:31-53 | a more recent customer never gets a lower R; more orders or more Sales never get a lower F or M; ties never invert row order |
| Rfm.CalculateRfmRow | utils/rfm.py:14-29 | a row's key is a `dim_customers` key; its frequency counts its customer's distinct orders; its monetary value is as in `GroupSales`; its last order date is its customer's latest |
| Insights.Keys | insights.py:26 | the group keys are distinct and are exactly the values occurring in the column |
| Insights.GroupsSplitTotal | insights.py:11-26 | the per-group sums of a column add up to the column's total |
| Insights.Highest | insights.py:26-27 | the key picked first is one of the keys, and no key has a larger summed value |
| Insights.Lowest | insights.py:26-28 | the key picked last is one of the keys, and no key has a smaller summed value |
| Insights.HighestIsTop | insights.py:26-27 | the top category has the highest summed profit, ties going to the alphabetically first key |
| Insights.LowestIsBottom | insights.py:26-28 | the bottom category has the lowest summed profit, ties going to the alphabetically last key |
| Insights.TopUnique | insights.py:26-27 | at most one key is top |
| Insights.BottomUnique | insights.py:26-28 | at most one key is bottom |
| Insights.TopIsNotBottom | insights.py:26-31 | with two or more categories, the top and the bottom differ |
| Insights.GenerateInsights | insights.py:4-49 | there is always at least one insight, and no lines give the empty-data message alone |
| Insights.NoDataExactlyWhenEmpty | insights.py:8-9 | the output is the empty-data message alone exactly when there are no lines |
| Insights.InsightsInRuleOrder | insights.py:14-49 | insights come in rule order with each rule at most once; their number is one plus the optional rules that fire; the last is the volume rule |
| Insights.MarginBands | insights.py:15-22 | the `> 15` and `> 0` margin tests agree with the same tests on profit and sales directly |
| Insights.MarginInsight | insights.py:14-22 | a margin insight appears exactly when sales are positive; it comes first, carries profit/sales*100, and is Healthy, Moderate or Loss by the two cut-offs |
| Insights.CategoryInsight | insights.py:24-31 | a category insight appears exactly when there are at least two categories; it names the top and the bottom, which differ |
| Insights.DiscountInsight | insights.py:33-38 | a high-discount insight appears exactly when the mean discount exceeds 0.3, and a low one when it is below 0.1. Neither appears in between. Each carries the mean |
| Insights.VolumeInsight | insights.py:40-47 | the volume insight appears once and last; it names the top sub-category by units, and is a mismatch exactly when that sub-category's summed profit is negative |
| Dashboard.MonthText | app.py:92 | the month text is seven characters: four digits, a dash, two digits |
| Dashboard.MonthTextRoundTrip | app.py:92 | the `YYYY-MM` text reads back as the year and month of the date |
| Dashboard.LoadData | app.py:84-93 | the loaded frame has one row per dated line |
| Dashboard.LoadDataRows | app.py:87-92 | row i of the loaded frame is the i-th dated line; its Year is the year of its Order Date and its MonthYear names that year and month |
| Dashboard.KeepConcat | app.py:121-125 | the boolean mask keeps rows in their original order |
| Dashboard.ApplyFilters | app.py:121-125 | every row shown is a row of the frame that passes each widget whose selection is non-empty |
| Dashboard.FilterMeaning | app.py:107-125 | a row is shown exactly when it is in the frame and, for each of year, region and segment, the selection is empty or holds the row's value |
| Dashboard.EmptySelectionKeepsAll | app.py:108-125 | with nothing selected in all three widgets the whole frame is shown |
| Dashboard.OrderIdsCount | app.py:141 | the order count is the number of distinct Order IDs, between one and the number of rows on a non-empty page |
| Dashboard.ComputeKpis | app.py:134-151 | the tiles are absent exactly when the filtered frame is empty |
| Dashboard.KpiMeaning | app.py:138-151 | the tiles show the sales and profit totals; the margin is profit/sales*100 when sales are positive and 0 otherwise; the average order value is always sales over the order count, which is at least one |
| Dashboard.PageInsights | app.py:134-218 | insights are produced exactly when the KPI tiles are |
| Dashboard.InsightsAgreeWithTiles | app.py:138-140 | on non-empty lines the empty-data insight never appears, and the margin insight equals the margin tile whenever sales are positive |
| Dashboard.PageAgrees | app.py:134-218 | the page never shows the empty-data insight, and its margin insight matches its margin tile |

## Left out

- Reading the CSV and the SQLite file, writing the database, the index creation and the row-count printout of `run_etl` are not modelled. All of these are I/O.
- Superstore.Row: the Postal Code column is not a field, because none of the modelled code reads it.
- Date parsing is not modelled. `to_datetime(errors='coerce')` is represented by its outcome, an optional date on each line. The Ship Date is carried through but never used.
- Floating point is not modelled: Sales, Profit, Discount, the monetary value and numpy's interpolated quartile edges are exact reals. `qcut` picks the value path or the rank path by testing the float edges for repeats. Float rounding could make that test come out differently from the exact-real test here.
- String cells are never missing in the model. pandas' `drop_duplicates` and `merge` treat NaN keys as equal to each other; that case is not represented.
- Text.IsSpace covers only the Latin-1 whitespace that `str.strip` removes from text decoded with `encoding='latin1'`. `Row` strings are not limited to Latin-1 characters, so strip results for other characters are not modelled.
- Rfm.Stats: the groups come out in the order in which each (Customer ID, Customer Name) key first appears in the join. The SQL query has no `ORDER BY`, so SQLite's real order is unspecified. That order decides the tie-break of `rank(method='first')`, and so the labels on the fallback path. The lemmas about returned rows hold whatever the order, but the exact labels follow this choice.
- Rfm.CalculateRfm: the segment is an enumeration. The five label strings are not modelled.
- The `st.cache_data` time-to-live, and the exception that `execute_query` may raise, are not modelled.
- Insights.GenerateInsights: each insight is a constructor with its numeric payload. The emoji, Markdown and `:.1f` / `:.1%` formatting of the message text are not modelled.
- Insights.CategoryInsight: the `'Category' in df.columns` test is taken as always true, because every frame the page passes has that column.
- Insights.HighestIsTop: `groupby` sorts the keys and `sort_values(ascending=False)` then keeps equal sums in key order. The model takes that ordering as given; it does not model numpy's sort.
- Dashboard.ApplyFilters: the option lists are modelled as the distinct values of the frame. They are not sorted, since the sorting only orders the widget. The widget defaults are not modelled; an empty selection is modelled because the code treats it as "everything".
- The charts, the tables, the page styling and the RFM page's presentation are not modelled.

## Findings

| source | as written | input that shows it | evidently intended | confidence | as-written member | corrected member |
|---|---|---|---|---|---|---|
| utils/etl.py:32-51 | `dim_products` is deduplicated first and its Product IDs stripped afterwards | two lines for one product whose Product IDs are `P` and `P ` | one `dim_products` row per product after cleaning the IDs | not executed; the source order is clear | Etl.ProductIdsMayRepeat | Etl.CleanProductTableSameRows |
| utils/rfm.py:20-23 | `SUM(f.Sales)` over the join with `dim_customers`, which has one row per (ID, Name, Segment) | one fact of a customer who is listed under two segments | each fact's Sales counted once in monetary | not executed; depends on the data having such customers | Rfm.MonetaryCountedTwice | Rfm.PerCustomerMonetary |

The rest of the model keeps the code's behaviour. `Etl.Transform` builds
`dim_products` as written, and nothing downstream reads that table.
`Rfm.CalculateRfm` joins against `dim_customers` as written.
`Rfm.CalculateRfmPerCustomer` is the same computation over one customer row per key.
