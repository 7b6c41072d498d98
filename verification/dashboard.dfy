/** The main page of the dashboard: `load_data`'s date cleaning and derived
    columns, the three sidebar filters, the four KPI tiles, and the hand-off
    of the filtered lines to `generate_insights`. Charts and styling are not
    modelled. */
module Dashboard {
  import opened Collections
  import opened Calendar
  import opened Superstore
  import Text
  import Insights

  /** A line of the loaded frame: the dated line and the two columns
      `load_data` derives from its order date. */
  datatype DashRow = DashRow(line: Row, year: int, monthYear: string)

  function LineOf(r: DashRow): Row
  {
    r.line
  }

  // ---------------------------------------------------------------------
  // load_data

  /** `dt.to_period('M').astype(str)`: the month as `YYYY-MM`. */
  function MonthText(d: ValidDate): (t: string)
    ensures |t| == 7 && t[4] == '-'
    ensures forall i :: 0 <= i < 7 && i != 4 ==> '0' <= t[i] <= '9'
  {
    var y := d.year;
    [Text.Digit(y / 1000), Text.Digit(y / 100 % 10), Text.Digit(y / 10 % 10), Text.Digit(y % 10),
     '-', Text.Digit(d.month / 10), Text.Digit(d.month % 10)]
  }

  /** The year and the month read back from a `YYYY-MM` text. */
  function ParseMonthText(t: string): (int, int)
    requires |t| == 7
  {
    (1000 * Text.DigitValue(t[0]) + 100 * Text.DigitValue(t[1]) + 10 * Text.DigitValue(t[2]) + Text.DigitValue(t[3]),
     10 * Text.DigitValue(t[5]) + Text.DigitValue(t[6]))
  }

  lemma {:induction false} Decimal4(y: int)
    requires 0 <= y <= 9999
    ensures 1000 * (y / 1000) + 100 * (y / 100 % 10) + 10 * (y / 10 % 10) + y % 10 == y
  {
    assert y == 10 * (y / 10) + y % 10;
    assert y / 10 == 10 * (y / 100) + y / 10 % 10;
    assert y / 100 == 10 * (y / 1000) + y / 100 % 10;
  }

  /** The month text names the order date's year and month. */
  lemma {:induction false} MonthTextRoundTrip(d: ValidDate)
    ensures ParseMonthText(MonthText(d)) == (d.year, d.month)
  {
    var y := d.year;
    Text.DigitRoundTrip(y / 1000);
    Text.DigitRoundTrip(y / 100 % 10);
    Text.DigitRoundTrip(y / 10 % 10);
    Text.DigitRoundTrip(y % 10);
    Text.DigitRoundTrip(d.month / 10);
    Text.DigitRoundTrip(d.month % 10);
    Decimal4(y);
    assert d.month == 10 * (d.month / 10) + d.month % 10;
  }

  /** The derived columns of a dated line. */
  function Derive(r: Row): DashRow
    requires r.orderDate.Some?
  {
    DashRow(r, r.orderDate.value.year, MonthText(r.orderDate.value))
  }

  function DeriveAll(rows: seq<Row>): (df: seq<DashRow>)
    requires forall i :: 0 <= i < |rows| ==> rows[i].orderDate.Some?
    ensures |df| == |rows|
  {
    if |rows| == 0 then []
    else DeriveAll(rows[..|rows| - 1]) + [Derive(rows[|rows| - 1])]
  }

  lemma {:induction false} DeriveAllAt(rows: seq<Row>, i: nat)
    requires forall i :: 0 <= i < |rows| ==> rows[i].orderDate.Some?
    requires i < |rows|
    ensures DeriveAll(rows)[i] == Derive(rows[i])
  {
    if i < |rows| - 1 {
      DeriveAllAt(rows[..|rows| - 1], i);
    }
  }

  /** `load_data` after the CSV is read: drop the lines whose order date did
      not parse, then add `Year` and `MonthYear`. */
  function LoadData(raw: seq<Row>): (df: seq<DashRow>)
    ensures |df| == |KeepDated(raw)|
  {
    DeriveAll(KeepDated(raw))
  }

  /** The loaded frame holds the dated lines in their original order, each
      with the year of its order date and a month text that reads back as
      that date's year and month. */
  lemma {:induction false} LoadDataRows(raw: seq<Row>, i: nat)
    requires i < |LoadData(raw)|
    ensures LoadData(raw)[i].line == KeepDated(raw)[i]
    ensures KeepDated(raw)[i].orderDate.Some?
    ensures LoadData(raw)[i].year == KeepDated(raw)[i].orderDate.value.year
    ensures |LoadData(raw)[i].monthYear| == 7
    ensures ParseMonthText(LoadData(raw)[i].monthYear)
            == (KeepDated(raw)[i].orderDate.value.year, KeepDated(raw)[i].orderDate.value.month)
  {
    var rows := KeepDated(raw);
    DeriveAllAt(rows, i);
    MonthTextRoundTrip(rows[i].orderDate.value);
  }

  // ---------------------------------------------------------------------
  // The sidebar filters

  /** The three multiselects; an empty list is an empty selection. */
  datatype Selection = Selection(years: seq<int>, regions: seq<string>, segments: seq<string>)

  function YearOf(r: DashRow): int { r.year }
  function RegionOf(r: DashRow): string { r.line.region }
  function SegmentOf(r: DashRow): string { r.line.segment }

  /** `selected if selected else options`. */
  function Chosen<T>(selected: seq<T>, options: seq<T>): (c: seq<T>)
    ensures |selected| > 0 ==> c == selected
    ensures |selected| == 0 ==> c == options
  {
    if |selected| > 0 then selected else options
  }

  /** The row passes the three `isin` tests. */
  predicate Passes(r: DashRow, years: seq<int>, regions: seq<string>, segments: seq<string>)
  {
    r.year in years && r.line.region in regions && r.line.segment in segments
  }

  /** The boolean-mask selection `df[mask]`: the rows that pass, in order. */
  function Keep(df: seq<DashRow>, years: seq<int>, regions: seq<string>, segments: seq<string>): seq<DashRow>
  {
    if |df| == 0 then []
    else
      var last := df[|df| - 1];
      Keep(df[..|df| - 1], years, regions, segments)
        + (if Passes(last, years, regions, segments) then [last] else [])
  }

  /** For each of year, region and segment, the selection is empty or holds
      the row's value. */
  predicate Admits(sel: Selection, r: DashRow)
  {
    && (|sel.years| == 0 || r.year in sel.years)
    && (|sel.regions| == 0 || r.line.region in sel.regions)
    && (|sel.segments| == 0 || r.line.segment in sel.segments)
  }

  /** The filtering of the main page. The option lists are the distinct
      values of the loaded frame; their sorting only orders the widget.
      Every row shown is a row of the frame that passes each widget with a
      non-empty selection. */
  function ApplyFilters(df: seq<DashRow>, sel: Selection): (shown: seq<DashRow>)
    ensures forall r :: r in shown ==> r in df && Admits(sel, r)
  {
    KeepMembers(df,
                Chosen(sel.years, Distinct(Map(df, YearOf))),
                Chosen(sel.regions, Distinct(Map(df, RegionOf))),
                Chosen(sel.segments, Distinct(Map(df, SegmentOf))));
    Keep(df,
         Chosen(sel.years, Distinct(Map(df, YearOf))),
         Chosen(sel.regions, Distinct(Map(df, RegionOf))),
         Chosen(sel.segments, Distinct(Map(df, SegmentOf))))
  }

  lemma {:induction false} KeepMembers(df: seq<DashRow>, years: seq<int>, regions: seq<string>, segments: seq<string>)
    ensures forall r :: r in Keep(df, years, regions, segments) <==> r in df && Passes(r, years, regions, segments)
  {
    if |df| > 0 {
      assert df == df[..|df| - 1] + [df[|df| - 1]];
      KeepMembers(df[..|df| - 1], years, regions, segments);
    }
  }

  /** The mask keeps rows in their original order: it commutes with
      concatenation. */
  lemma {:induction false} KeepConcat(a: seq<DashRow>, b: seq<DashRow>, years: seq<int>, regions: seq<string>, segments: seq<string>)
    ensures Keep(a + b, years, regions, segments) == Keep(a, years, regions, segments) + Keep(b, years, regions, segments)
  {
    if |b| > 0 {
      var b' := b[..|b| - 1];
      assert (a + b)[..|a + b| - 1] == a + b';
      KeepConcat(a, b', years, regions, segments);
    } else {
      assert a + b == a;
    }
  }

  /** A mask every row passes keeps the whole frame. */
  lemma {:induction false} KeepAll(df: seq<DashRow>, years: seq<int>, regions: seq<string>, segments: seq<string>)
    requires forall i :: 0 <= i < |df| ==> Passes(df[i], years, regions, segments)
    ensures Keep(df, years, regions, segments) == df
  {
    if |df| > 0 {
      KeepAll(df[..|df| - 1], years, regions, segments);
      assert df == df[..|df| - 1] + [df[|df| - 1]];
    }
  }

  /** For a value among the options, `Chosen` admits it exactly when the
      selection is empty or holds it. */
  lemma {:induction false} ChosenAdmits<T>(selected: seq<T>, options: seq<T>, v: T)
    requires v in options
    ensures v in Chosen(selected, options) <==> |selected| == 0 || v in selected
  {
  }

  /** A row survives the filters exactly when it is a row of the frame and,
      for each of year, region and segment, the selection is empty or holds
      the row's value. */
  lemma {:induction false} FilterMeaning(df: seq<DashRow>, sel: Selection, r: DashRow)
    ensures r in ApplyFilters(df, sel) <==>
              && r in df
              && (|sel.years| == 0 || r.year in sel.years)
              && (|sel.regions| == 0 || r.line.region in sel.regions)
              && (|sel.segments| == 0 || r.line.segment in sel.segments)
  {
    var yo, ro, so := Distinct(Map(df, YearOf)), Distinct(Map(df, RegionOf)), Distinct(Map(df, SegmentOf));
    var ys, rs, ss := Chosen(sel.years, yo), Chosen(sel.regions, ro), Chosen(sel.segments, so);
    KeepMembers(df, ys, rs, ss);
    assert r in ApplyFilters(df, sel) <==> r in df && Passes(r, ys, rs, ss);
    if r in df {
      var i :| 0 <= i < |df| && df[i] == r;
      DistinctColumn(df, YearOf);
      DistinctColumn(df, RegionOf);
      DistinctColumn(df, SegmentOf);
      ChosenAdmits(sel.years, yo, YearOf(df[i]));
      ChosenAdmits(sel.regions, ro, RegionOf(df[i]));
      ChosenAdmits(sel.segments, so, SegmentOf(df[i]));
    }
  }

  /** With nothing selected in any of the three widgets the page shows the
      whole frame. */
  lemma {:induction false} EmptySelectionKeepsAll(df: seq<DashRow>)
    ensures ApplyFilters(df, Selection([], [], [])) == df
  {
    var ys, rs, ss := Distinct(Map(df, YearOf)), Distinct(Map(df, RegionOf)), Distinct(Map(df, SegmentOf));
    DistinctColumn(df, YearOf);
    DistinctColumn(df, RegionOf);
    DistinctColumn(df, SegmentOf);
    KeepAll(df, ys, rs, ss);
  }

  // ---------------------------------------------------------------------
  // The KPI tiles

  datatype Kpis = Kpis(totalSales: real, totalProfit: real, margin: real, orders: nat, averageOrderValue: real)

  /** The distinct Order IDs of the rows (`nunique`). */
  function OrderIds(rows: seq<DashRow>): set<string>
  {
    if |rows| == 0 then {} else OrderIds(rows[..|rows| - 1]) + {rows[|rows| - 1].line.orderId}
  }

  /** `OrderIds` holds exactly the Order IDs that occur, and there are at
      least one and at most as many as there are rows. */
  lemma {:induction false} OrderIdsCount(rows: seq<DashRow>)
    ensures OrderIds(rows) == set r | r in rows :: r.line.orderId
    ensures |OrderIds(rows)| <= |rows|
    ensures |rows| > 0 ==> |OrderIds(rows)| >= 1
  {
    if |rows| > 0 {
      var pre, last := rows[..|rows| - 1], rows[|rows| - 1];
      OrderIdsCount(pre);
      assert rows == pre + [last];
      OrderIdSetSnoc(pre, last);
      CardAddOne(OrderIds(pre), last.line.orderId);
    }
  }

  lemma {:induction false} OrderIdSetSnoc(pre: seq<DashRow>, last: DashRow)
    ensures (set r | r in pre + [last] :: r.line.orderId) == (set r | r in pre :: r.line.orderId) + {last.line.orderId}
  {
  }

  lemma {:induction false} CardAddOne(a: set<string>, x: string)
    ensures 1 <= |a + {x}| <= |a| + 1
  {
  }

  /** The KPI tiles of the filtered rows, or `None` where the page stops
      with "No data found" before drawing any tile. */
  function ComputeKpis(rows: seq<DashRow>): (k: Option<Kpis>)
    ensures k.None? <==> |rows| == 0
  {
    if |rows| == 0 then None
    else
      var lines := Map(rows, LineOf);
      var sales := Insights.Total(lines, Insights.SalesColumn);
      var profit := Insights.Total(lines, Insights.ProfitColumn);
      var orders := |OrderIds(rows)|;
      Some(Kpis(sales, profit,
                if sales > 0.0 then profit / sales * 100.0 else 0.0,
                orders,
                if orders > 0 then sales / orders as real else 0.0))
  }

  /** What the tiles show: the margin is profit over sales in percent when
      the sales are positive and 0 otherwise; the order count is the number
      of distinct Order IDs, at least one on a page that shows tiles, so
      the average order value is always sales over orders. */
  lemma {:induction false} KpiMeaning(rows: seq<DashRow>)
    requires |rows| > 0
    ensures var k, lines := ComputeKpis(rows).value, Map(rows, LineOf);
            && k.totalSales == Insights.Total(lines, Insights.SalesColumn)
            && k.totalProfit == Insights.Total(lines, Insights.ProfitColumn)
            && (k.totalSales > 0.0 ==> k.margin == k.totalProfit / k.totalSales * 100.0)
            && (k.totalSales <= 0.0 ==> k.margin == 0.0)
    ensures var k := ComputeKpis(rows).value;
            && k.orders == |set r | r in rows :: r.line.orderId|
            && 1 <= k.orders <= |rows|
            && k.averageOrderValue == k.totalSales / k.orders as real
  {
    OrderIdsCount(rows);
  }

  // ---------------------------------------------------------------------
  // The page as a whole

  /** The insight cards of the main page: `generate_insights` of the
      filtered lines, reached only when the filters left some row. */
  function PageInsights(raw: seq<Row>, sel: Selection): (r: Option<seq<Insights.Finding>>)
    ensures r.Some? <==> ComputeKpis(ApplyFilters(LoadData(raw), sel)).Some?
  {
    var rows := ApplyFilters(LoadData(raw), sel);
    if |rows| == 0 then None else Some(Insights.GenerateInsights(Map(rows, LineOf)))
  }

  /** On non-empty lines `generate_insights` never produces the empty-data
      insight, and its first insight reports the margin the profit tile
      shows whenever the sales are positive. */
  lemma {:induction false} InsightsAgreeWithTiles(lines: seq<Row>)
    requires |lines| > 0
    ensures Insights.NoData !in Insights.GenerateInsights(lines)
    ensures var sales, profit := Insights.Total(lines, Insights.SalesColumn), Insights.Total(lines, Insights.ProfitColumn);
            sales > 0.0 ==> Insights.GenerateInsights(lines)[0].margin == profit / sales * 100.0
  {
    Insights.InsightsInRuleOrder(lines);
    Insights.MarginInsight(lines);
    var r := Insights.GenerateInsights(lines);
    forall i | 0 <= i < |r|
      ensures r[i] != Insights.NoData
    {
      if i < |r| - 1 {
        assert Insights.RuleOf(r[i]) < Insights.RuleOf(r[|r| - 1]);
      }
    }
  }

  /** The page never shows the empty-data insight, and its margin insight
      reports the same margin as the profit tile. */
  lemma {:induction false} PageAgrees(raw: seq<Row>, sel: Selection)
    requires PageInsights(raw, sel).Some?
    ensures Insights.NoData !in PageInsights(raw, sel).value
    ensures var k := ComputeKpis(ApplyFilters(LoadData(raw), sel)).value;
            var r := PageInsights(raw, sel).value;
            k.totalSales > 0.0 ==> r[0].margin == k.margin
  {
    var rows := ApplyFilters(LoadData(raw), sel);
    InsightsAgreeWithTiles(Map(rows, LineOf));
  }
}
