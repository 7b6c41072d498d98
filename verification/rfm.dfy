/** `calculate_rfm`: recency, frequency and monetary value per customer from
    the star schema, quartile scores 1..4 and the segment each (R, F) pair
    maps to. The two SQL queries are modelled over the tables they read. */
module Rfm {
  import opened Collections
  import opened Calendar
  import opened Quantiles
  import Text
  import Etl

  // ---------------------------------------------------------------------
  // The join and the grouping

  /** One row of `fact_orders f JOIN dim_customers c ON f.Customer ID =
      c.Customer ID`, keeping the columns the query reads. */
  datatype JoinedRow = JoinedRow(
    customerId: string,
    customerName: string,
    orderId: string,
    orderDate: ValidDate,
    sales: real)

  /** The `GROUP BY c.Customer ID, c.Customer Name` key. */
  datatype Key = Key(customerId: string, customerName: string)

  function KeyOf(j: JoinedRow): Key
  {
    Key(j.customerId, j.customerName)
  }

  function JoinedDate(j: JoinedRow): ValidDate
  {
    j.orderDate
  }

  function FactDate(f: Etl.FactOrder): ValidDate
  {
    f.orderDate
  }

  /** The joined row a fact and a `dim_customers` row make, if their
      Customer IDs agree. */
  function Meet(f: Etl.FactOrder, c: Etl.CustomerDim): seq<JoinedRow>
  {
    if c.customerId == f.customerId
    then [JoinedRow(c.customerId, c.customerName, f.orderId, f.orderDate, f.sales)]
    else []
  }

  /** The joined rows of one fact: one per `dim_customers` row with its
      Customer ID. */
  function JoinOne(f: Etl.FactOrder, dims: seq<Etl.CustomerDim>): seq<JoinedRow>
  {
    if |dims| == 0 then []
    else JoinOne(f, dims[..|dims| - 1]) + Meet(f, dims[|dims| - 1])
  }

  /** The inner join, fact by fact. */
  function Joined(facts: seq<Etl.FactOrder>, dims: seq<Etl.CustomerDim>): seq<JoinedRow>
  {
    if |facts| == 0 then []
    else Joined(facts[..|facts| - 1], dims) + JoinOne(facts[|facts| - 1], dims)
  }

  /** A joined row carries the Order ID, Order Date and Sales of the fact it
      came from. */
  predicate FromFact(j: JoinedRow, f: Etl.FactOrder)
  {
    j.customerId == f.customerId && j.orderId == f.orderId
    && j.orderDate == f.orderDate && j.sales == f.sales
  }

  lemma {:induction false} JoinOneFromFact(f: Etl.FactOrder, dims: seq<Etl.CustomerDim>)
    ensures forall j :: j in JoinOne(f, dims) ==> FromFact(j, f)
  {
    if |dims| > 0 {
      JoinOneFromFact(f, dims[..|dims| - 1]);
    }
  }

  /** Every joined row comes from one of the facts. */
  lemma {:induction false} JoinedFromFacts(facts: seq<Etl.FactOrder>, dims: seq<Etl.CustomerDim>)
    ensures forall j :: j in Joined(facts, dims) ==> exists f :: f in facts && FromFact(j, f)
  {
    if |facts| > 0 {
      var n := |facts| - 1;
      JoinedFromFacts(facts[..n], dims);
      JoinOneFromFact(facts[n], dims);
      forall j | j in Joined(facts, dims)
        ensures exists f :: f in facts && FromFact(j, f)
      {
        if j in Joined(facts[..n], dims) {
          var f :| f in facts[..n] && FromFact(j, f);
          assert f in facts;
        } else {
          assert facts[n] in facts;
        }
      }
    }
  }

  /** The groups, in the order in which their first joined row appears. */
  function GroupKeys(js: seq<JoinedRow>): seq<Key>
  {
    Distinct(Map(js, KeyOf))
  }

  /** The joined rows of one group, in join order. */
  function GroupRows(js: seq<JoinedRow>, k: Key): seq<JoinedRow>
  {
    if |js| == 0 then []
    else
      var last := js[|js| - 1];
      GroupRows(js[..|js| - 1], k) + (if KeyOf(last) == k then [last] else [])
  }

  /** A group holds exactly the joined rows with its key. */
  lemma {:induction false} GroupRowsMembers(js: seq<JoinedRow>, k: Key)
    ensures forall j :: j in GroupRows(js, k) <==> j in js && KeyOf(j) == k
  {
    if |js| > 0 {
      assert js == js[..|js| - 1] + [js[|js| - 1]];
      GroupRowsMembers(js[..|js| - 1], k);
    }
  }

  /** `SUM(f.Sales)` over joined rows. */
  function SalesTotal(js: seq<JoinedRow>): real
  {
    if |js| == 0 then 0.0 else SalesTotal(js[..|js| - 1]) + js[|js| - 1].sales
  }

  /** The Order IDs that `COUNT(DISTINCT f.Order ID)` counts. */
  function OrderIds(js: seq<JoinedRow>): set<string>
  {
    set j | j in js :: j.orderId
  }

  /** One output row of the SQL query. */
  datatype GroupStat = GroupStat(key: Key, lastOrder: ValidDate, frequency: nat, monetary: real)

  /** `MAX(f.Order Date)`, `COUNT(DISTINCT f.Order ID)` and `SUM(f.Sales)` of a
      group that has at least one row. */
  function StatOf(js: seq<JoinedRow>, k: Key): (s: GroupStat)
    requires k in Map(js, KeyOf)
    ensures s.key == k && s.frequency >= 1
    ensures exists j :: j in js && KeyOf(j) == k && j.orderDate == s.lastOrder
    ensures forall j :: j in js && KeyOf(j) == k ==> !Before(s.lastOrder, j.orderDate)
  {
    var i :| 0 <= i < |js| && Map(js, KeyOf)[i] == k;
    var g := GroupRows(js, k);
    GroupRowsMembers(js, k);
    assert js[i] in g;
    var dates := Map(g, JoinedDate);
    var last := Latest(dates);
    assert js[i].orderId in OrderIds(g);
    assert forall j :: j in g ==> j.orderDate in dates by {
      forall j | j in g
        ensures j.orderDate in dates
      {
        var t :| 0 <= t < |g| && g[t] == j;
        assert dates[t] == j.orderDate;
      }
    }
    var t :| 0 <= t < |g| && dates[t] == last;
    assert g[t] in js && KeyOf(g[t]) == k && g[t].orderDate == last;
    forall j | j in js && KeyOf(j) == k
      ensures !Before(last, j.orderDate)
    {
      var u :| 0 <= u < |g| && g[u] == j;
      assert dates[u] == j.orderDate;
    }
    GroupStat(k, last, |OrderIds(g)|, SalesTotal(g))
  }

  /** The result of the SQL query, one row per group: no key twice, and
      every key of a joined row present. */
  function Stats(js: seq<JoinedRow>): (r: seq<GroupStat>)
    ensures |r| == |GroupKeys(js)|
    ensures forall i :: 0 <= i < |r| ==> r[i].key == GroupKeys(js)[i] && r[i].frequency >= 1
    ensures forall i, j :: 0 <= i < j < |r| ==> r[i].key != r[j].key
    ensures forall j :: j in js ==> exists i :: 0 <= i < |r| && r[i].key == KeyOf(j)
  {
    var keys := GroupKeys(js);
    DistinctColumn(js, KeyOf);
    seq(|keys|, i requires 0 <= i < |keys| => StatOf(js, keys[i]))
  }

  /** Position `i` of the SQL result is the group of the `i`-th key. */
  lemma {:induction false} StatsAt(js: seq<JoinedRow>, i: nat)
    requires i < |GroupKeys(js)|
    ensures GroupKeys(js)[i] in Map(js, KeyOf)
    ensures Stats(js)[i] == StatOf(js, GroupKeys(js)[i])
  {
    assert GroupKeys(js)[i] in GroupKeys(js);
  }

  // ---------------------------------------------------------------------
  // Group totals stated over the fact table

  function DimKey(c: Etl.CustomerDim): Key
  {
    Key(c.customerId, c.customerName)
  }

  /** How many `dim_customers` rows carry the key; the join repeats each fact
      of the customer once per such row. */
  function KeyCount(dims: seq<Etl.CustomerDim>, k: Key): nat
  {
    if |dims| == 0 then 0
    else KeyCount(dims[..|dims| - 1], k) + (if DimKey(dims[|dims| - 1]) == k then 1 else 0)
  }

  /** The distinct Order IDs of the facts of one Customer ID. */
  function FactOrderIds(facts: seq<Etl.FactOrder>, id: string): set<string>
  {
    set f | f in facts && f.customerId == id :: f.orderId
  }

  /** The Sales of the facts of one Customer ID, summed. */
  function CustomerSales(facts: seq<Etl.FactOrder>, id: string): real
  {
    if |facts| == 0 then 0.0
    else
      var f := facts[|facts| - 1];
      CustomerSales(facts[..|facts| - 1], id) + (if f.customerId == id then f.sales else 0.0)
  }

  /** A fact meets every `dim_customers` row with its Customer ID. */
  lemma {:induction false} JoinOneHas(f: Etl.FactOrder, dims: seq<Etl.CustomerDim>, c: Etl.CustomerDim)
    requires c in dims && c.customerId == f.customerId
    ensures JoinedRow(c.customerId, c.customerName, f.orderId, f.orderDate, f.sales) in JoinOne(f, dims)
  {
    var n := |dims| - 1;
    assert dims == dims[..n] + [dims[n]];
    if dims[n] != c {
      JoinOneHas(f, dims[..n], c);
    }
  }

  lemma {:induction false} JoinedHas(facts: seq<Etl.FactOrder>, dims: seq<Etl.CustomerDim>, f: Etl.FactOrder, c: Etl.CustomerDim)
    requires f in facts && c in dims && c.customerId == f.customerId
    ensures JoinedRow(c.customerId, c.customerName, f.orderId, f.orderDate, f.sales) in Joined(facts, dims)
  {
    var n := |facts| - 1;
    assert facts == facts[..n] + [facts[n]];
    if facts[n] == f {
      JoinOneHas(f, dims, c);
    } else {
      JoinedHas(facts[..n], dims, f, c);
    }
  }

  /** Every joined row's key is the key of a `dim_customers` row. */
  lemma {:induction false} JoinOneKeys(f: Etl.FactOrder, dims: seq<Etl.CustomerDim>)
    ensures forall j :: j in JoinOne(f, dims) ==> KeyOf(j) in Map(dims, DimKey)
  {
    if |dims| > 0 {
      var n := |dims| - 1;
      JoinOneKeys(f, dims[..n]);
      forall j | j in JoinOne(f, dims)
        ensures KeyOf(j) in Map(dims, DimKey)
      {
        if j in JoinOne(f, dims[..n]) {
          var t :| 0 <= t < n && Map(dims[..n], DimKey)[t] == KeyOf(j);
          assert Map(dims, DimKey)[t] == KeyOf(j);
        } else {
          assert Map(dims, DimKey)[n] == KeyOf(j);
        }
      }
    }
  }

  lemma {:induction false} JoinedKeys(facts: seq<Etl.FactOrder>, dims: seq<Etl.CustomerDim>)
    ensures forall j :: j in Joined(facts, dims) ==> KeyOf(j) in Map(dims, DimKey)
  {
    if |facts| > 0 {
      JoinedKeys(facts[..|facts| - 1], dims);
      JoinOneKeys(facts[|facts| - 1], dims);
    }
  }

  /** `COUNT(DISTINCT Order ID)` of a group counts exactly the distinct
      orders of its Customer ID in the fact table, whatever the name. */
  lemma {:induction false} GroupOrderIds(facts: seq<Etl.FactOrder>, dims: seq<Etl.CustomerDim>, k: Key)
    requires k in Map(dims, DimKey)
    ensures OrderIds(GroupRows(Joined(facts, dims), k)) == FactOrderIds(facts, k.customerId)
  {
    var g := GroupRows(Joined(facts, dims), k);
    GroupRowsMembers(Joined(facts, dims), k);
    var t :| 0 <= t < |dims| && Map(dims, DimKey)[t] == k;
    var c := dims[t];
    JoinedFromFacts(facts, dims);
    forall x | x in OrderIds(g)
      ensures x in FactOrderIds(facts, k.customerId)
    {
      var j :| j in g && j.orderId == x;
      var f :| f in facts && FromFact(j, f);
    }
    forall x | x in FactOrderIds(facts, k.customerId)
      ensures x in OrderIds(g)
    {
      var f :| f in facts && f.customerId == k.customerId && f.orderId == x;
      JoinedHas(facts, dims, f, c);
      var j := JoinedRow(c.customerId, c.customerName, f.orderId, f.orderDate, f.sales);
      assert j in g;
    }
  }

  /** `MAX(Order Date)` of a group is the latest Order Date among the facts
      of its Customer ID. */
  lemma {:induction false} GroupLastOrder(facts: seq<Etl.FactOrder>, dims: seq<Etl.CustomerDim>, k: Key)
    requires k in Map(dims, DimKey) && k in Map(Joined(facts, dims), KeyOf)
    ensures exists f :: f in facts && f.customerId == k.customerId
                        && f.orderDate == StatOf(Joined(facts, dims), k).lastOrder
    ensures forall f :: f in facts && f.customerId == k.customerId ==>
              !Before(StatOf(Joined(facts, dims), k).lastOrder, f.orderDate)
  {
    var js := Joined(facts, dims);
    var s := StatOf(js, k);
    var t :| 0 <= t < |dims| && Map(dims, DimKey)[t] == k;
    var c := dims[t];
    JoinedFromFacts(facts, dims);
    var j :| j in js && KeyOf(j) == k && j.orderDate == s.lastOrder;
    var f :| f in facts && FromFact(j, f);
    forall f | f in facts && f.customerId == k.customerId
      ensures !Before(s.lastOrder, f.orderDate)
    {
      JoinedHas(facts, dims, f, c);
      var j := JoinedRow(c.customerId, c.customerName, f.orderId, f.orderDate, f.sales);
      assert KeyOf(j) == k;
    }
  }

  lemma {:induction false} GroupRowsConcat(a: seq<JoinedRow>, b: seq<JoinedRow>, k: Key)
    ensures GroupRows(a + b, k) == GroupRows(a, k) + GroupRows(b, k)
  {
    if |b| > 0 {
      var b' := b[..|b| - 1];
      assert (a + b)[..|a + b| - 1] == a + b';
      GroupRowsConcat(a, b', k);
    } else {
      assert a + b == a;
    }
  }

  lemma {:induction false} SalesTotalConcat(a: seq<JoinedRow>, b: seq<JoinedRow>)
    ensures SalesTotal(a + b) == SalesTotal(a) + SalesTotal(b)
  {
    if |b| > 0 {
      var b' := b[..|b| - 1];
      assert (a + b)[..|a + b| - 1] == a + b';
      SalesTotalConcat(a, b');
    } else {
      assert a + b == a;
    }
  }

  /** `x` added up `n` times. */
  function Times(n: nat, x: real): real
  {
    if n == 0 then 0.0 else Times(n - 1, x) + x
  }

  lemma {:induction false} TimesIsProduct(n: nat, x: real)
    ensures Times(n, x) == n as real * x
  {
    if n > 0 {
      TimesIsProduct(n - 1, x);
      assert (n - 1) as real * x + x == n as real * x;
    }
  }

  lemma {:induction false} TimesDistributes(n: nat, x: real, y: real)
    ensures Times(n, x + y) == Times(n, x) + Times(n, y)
  {
    if n > 0 {
      TimesDistributes(n - 1, x, y);
    }
  }

  /** The Sales a group collects from one fact and one `dim_customers` row. */
  lemma {:induction false} MeetSales(f: Etl.FactOrder, c: Etl.CustomerDim, k: Key)
    ensures SalesTotal(GroupRows(Meet(f, c), k))
            == (if f.customerId == k.customerId && DimKey(c) == k then f.sales else 0.0)
  {
    if c.customerId == f.customerId {
      assert Meet(f, c)[..0] == [];
    }
  }

  lemma {:induction false} JoinOneSnoc(f: Etl.FactOrder, dims: seq<Etl.CustomerDim>)
    requires |dims| > 0
    ensures JoinOne(f, dims) == JoinOne(f, dims[..|dims| - 1]) + Meet(f, dims[|dims| - 1])
  {
  }

  lemma {:induction false} KeyCountSnoc(dims: seq<Etl.CustomerDim>, k: Key)
    requires |dims| > 0
    ensures KeyCount(dims, k) == KeyCount(dims[..|dims| - 1], k) + (if DimKey(dims[|dims| - 1]) == k then 1 else 0)
  {
  }

  /** The arithmetic of adding one `dim_customers` row to the join. */
  lemma {:induction false} AddOneMatch(total: real, before: real, added: real, m: nat, count: nat,
                                       x: real, sameId: bool, sameKey: bool)
    requires total == before + added
    requires before == (if sameId then Times(m, x) else 0.0)
    requires added == (if sameId && sameKey then x else 0.0)
    requires count == m + (if sameKey then 1 else 0)
    ensures total == (if sameId then Times(count, x) else 0.0)
  {
  }

  /** One fact contributes its Sales to a group once per matching
      `dim_customers` row. */
  lemma {:induction false} JoinOneGroupSales(f: Etl.FactOrder, dims: seq<Etl.CustomerDim>, k: Key)
    ensures SalesTotal(GroupRows(JoinOne(f, dims), k))
            == (if f.customerId == k.customerId then Times(KeyCount(dims, k), f.sales) else 0.0)
  {
    if |dims| > 0 {
      var n := |dims| - 1;
      var pre, c := dims[..n], dims[n];
      var a := JoinOne(f, pre);
      JoinOneSnoc(f, dims);
      JoinOneGroupSales(f, pre, k);
      GroupRowsConcat(a, Meet(f, c), k);
      SalesTotalConcat(GroupRows(a, k), GroupRows(Meet(f, c), k));
      MeetSales(f, c, k);
      KeyCountSnoc(dims, k);
      AddOneMatch(SalesTotal(GroupRows(JoinOne(f, dims), k)),
                  SalesTotal(GroupRows(a, k)), SalesTotal(GroupRows(Meet(f, c), k)),
                  KeyCount(pre, k), KeyCount(dims, k),
                  f.sales, f.customerId == k.customerId, DimKey(c) == k);
    }
  }

  lemma {:induction false} JoinedSnoc(facts: seq<Etl.FactOrder>, dims: seq<Etl.CustomerDim>)
    requires |facts| > 0
    ensures Joined(facts, dims) == Joined(facts[..|facts| - 1], dims) + JoinOne(facts[|facts| - 1], dims)
  {
  }

  lemma {:induction false} CustomerSalesSnoc(facts: seq<Etl.FactOrder>, id: string)
    requires |facts| > 0
    ensures CustomerSales(facts, id)
            == CustomerSales(facts[..|facts| - 1], id)
               + (if facts[|facts| - 1].customerId == id then facts[|facts| - 1].sales else 0.0)
  {
  }

  lemma {:induction false} TimesZero(n: nat)
    ensures Times(n, 0.0) == 0.0
  {
    if n > 0 {
      TimesZero(n - 1);
    }
  }

  /** The arithmetic of adding one fact to the join. */
  lemma {:induction false} AddOneFact(total: real, fromPre: real, fromLast: real, n: nat,
                                      salesPre: real, salesAll: real, x: real, same: bool)
    requires total == fromPre + fromLast
    requires fromPre == Times(n, salesPre)
    requires fromLast == (if same then Times(n, x) else 0.0)
    requires salesAll == salesPre + (if same then x else 0.0)
    ensures total == Times(n, salesAll)
  {
    TimesDistributes(n, salesPre, if same then x else 0.0);
    TimesZero(n);
  }

  /** `SUM(Sales)` of a group: the Sales of its Customer ID's facts, counted
      once per `dim_customers` row carrying the group's key. */
  lemma {:induction false} GroupSales(facts: seq<Etl.FactOrder>, dims: seq<Etl.CustomerDim>, k: Key)
    ensures SalesTotal(GroupRows(Joined(facts, dims), k)) == Times(KeyCount(dims, k), CustomerSales(facts, k.customerId))
  {
    if |facts| > 0 {
      var n := |facts| - 1;
      var pre, f := facts[..n], facts[n];
      var a, b := Joined(pre, dims), JoinOne(f, dims);
      JoinedSnoc(facts, dims);
      GroupSales(pre, dims, k);
      GroupRowsConcat(a, b, k);
      SalesTotalConcat(GroupRows(a, k), GroupRows(b, k));
      JoinOneGroupSales(f, dims, k);
      CustomerSalesSnoc(facts, k.customerId);
      AddOneFact(SalesTotal(GroupRows(Joined(facts, dims), k)),
                 SalesTotal(GroupRows(a, k)), SalesTotal(GroupRows(b, k)), KeyCount(dims, k),
                 CustomerSales(pre, k.customerId), CustomerSales(facts, k.customerId),
                 f.sales, f.customerId == k.customerId);
    } else {
      TimesZero(KeyCount(dims, k));
    }
  }

  // ---------------------------------------------------------------------
  // Segments and the score string

  datatype Segment = Champions | Loyal | AtRisk | Hibernating | PotentialOther

  /** `map_segment`: the first rule that matches (R, F) wins, so each
      segment implies its own rule's test, and Potential/Other is left for a
      high R with a low F. */
  function MapSegment(r: int, f: int): (s: Segment)
    ensures s == Champions ==> r >= 4 && f >= 4
    ensures s == Loyal ==> r >= 3 && f >= 3
    ensures s == AtRisk ==> r <= 2 && f >= 3
    ensures s == Hibernating ==> r <= 2 && f <= 2
    ensures s == PotentialOther ==> r >= 3 && f <= 2
  {
    if r >= 4 && f >= 4 then Champions
    else if r >= 3 && f >= 3 then Loyal
    else if r <= 2 && f >= 3 then AtRisk
    else if r <= 2 && f <= 2 then Hibernating
    else PotentialOther
  }

  /** On the 4 x 4 grid of scores the segments are five disjoint regions:
      Champions the corner (4, 4), Loyal the rest of R, F >= 3, At Risk
      R <= 2 with F >= 3, Hibernating R, F <= 2, and Potential/Other exactly
      R in {3, 4} with F in {1, 2}. */
  lemma {:induction false} SegmentRegions(r: int, f: int)
    requires 1 <= r <= 4 && 1 <= f <= 4
    ensures MapSegment(r, f) == Champions <==> r == 4 && f == 4
    ensures MapSegment(r, f) == Loyal <==> r >= 3 && f >= 3 && !(r == 4 && f == 4)
    ensures MapSegment(r, f) == AtRisk <==> r <= 2 && f >= 3
    ensures MapSegment(r, f) == Hibernating <==> r <= 2 && f <= 2
    ensures MapSegment(r, f) == PotentialOther <==> (r == 3 || r == 4) && (f == 1 || f == 2)
  {
  }

  /** `R.astype(str) + F.astype(str) + M.astype(str)`: one digit per score. */
  function ScoreText(r: int, f: int, m: int): (t: string)
    requires 1 <= r <= 4 && 1 <= f <= 4 && 1 <= m <= 4
    ensures |t| == 3
    ensures forall i :: 0 <= i < 3 ==> '1' <= t[i] <= '4'
  {
    [Text.Digit(r), Text.Digit(f), Text.Digit(m)]
  }

  /** The three scores can be read back from the score string. */
  lemma {:induction false} ScoreTextRoundTrip(r: int, f: int, m: int)
    requires 1 <= r <= 4 && 1 <= f <= 4 && 1 <= m <= 4
    ensures Text.DigitValue(ScoreText(r, f, m)[0]) == r
    ensures Text.DigitValue(ScoreText(r, f, m)[1]) == f
    ensures Text.DigitValue(ScoreText(r, f, m)[2]) == m
  {
    Text.DigitRoundTrip(r);
    Text.DigitRoundTrip(f);
    Text.DigitRoundTrip(m);
  }

  /** Recency labels run `range(4, 0, -1)`: the lowest quartile scores 4. */
  function RecencyScore(bin: int): int
  {
    5 - bin
  }

  // ---------------------------------------------------------------------
  // calculate_rfm

  /** One row of the returned frame. */
  datatype CustomerRfm = CustomerRfm(
    customerId: string,
    customerName: string,
    lastOrderDate: ValidDate,
    recency: int,
    frequency: nat,
    monetary: real,
    r: int,
    f: int,
    m: int,
    score: string,
    segment: Segment)

  /** `(current_date - last_order_date).dt.days`. */
  function Recency(current: ValidDate, s: GroupStat): int
  {
    DayNumber(current) - DayNumber(s.lastOrder)
  }

  /** The recency column handed to `qcut`. Its values are given by
      `ColumnsAt`; the columns carry only their length in their contracts so
      that the binning of three columns stays cheap to reason about. */
  function RecencyColumn(current: ValidDate, stats: seq<GroupStat>): (c: seq<real>)
    ensures |c| == |stats|
  {
    if |stats| == 0 then []
    else RecencyColumn(current, stats[..|stats| - 1]) + [Recency(current, stats[|stats| - 1]) as real]
  }

  function FrequencyColumn(stats: seq<GroupStat>): (c: seq<real>)
    ensures |c| == |stats|
  {
    if |stats| == 0 then []
    else FrequencyColumn(stats[..|stats| - 1]) + [stats[|stats| - 1].frequency as real]
  }

  function MonetaryColumn(stats: seq<GroupStat>): (c: seq<real>)
    ensures |c| == |stats|
  {
    if |stats| == 0 then []
    else MonetaryColumn(stats[..|stats| - 1]) + [stats[|stats| - 1].monetary]
  }

  lemma {:induction false} ColumnsAt(current: ValidDate, stats: seq<GroupStat>, i: nat)
    requires i < |stats|
    ensures RecencyColumn(current, stats)[i] == Recency(current, stats[i]) as real
    ensures FrequencyColumn(stats)[i] == stats[i].frequency as real
    ensures MonetaryColumn(stats)[i] == stats[i].monetary
  {
    if i < |stats| - 1 {
      ColumnsAt(current, stats[..|stats| - 1], i);
    }
  }

  /** The reference date is the latest Order Date of the whole fact table, so
      no group's last order comes after it. */
  lemma {:induction false} LaterThanEvery(current: ValidDate, facts: seq<Etl.FactOrder>, stats: seq<GroupStat>)
    requires |facts| > 0 && current == Latest(Map(facts, FactDate))
    requires forall i :: 0 <= i < |stats| ==> stats[i].lastOrder in Map(facts, FactDate)
    ensures forall i :: 0 <= i < |stats| ==> Recency(current, stats[i]) >= 0
  {
    var dates := Map(facts, FactDate);
    forall i | 0 <= i < |stats|
      ensures Recency(current, stats[i]) >= 0
    {
      var t :| 0 <= t < |dates| && dates[t] == stats[i].lastOrder;
      DayNumberOrdersDates(current, stats[i].lastOrder);
    }
  }

  /** Each group's last order date is the Order Date of one of the facts. */
  lemma {:induction false} LastOrdersAreFactDates(facts: seq<Etl.FactOrder>, dims: seq<Etl.CustomerDim>)
    ensures forall i :: 0 <= i < |Stats(Joined(facts, dims))| ==>
              Stats(Joined(facts, dims))[i].lastOrder in Map(facts, FactDate)
  {
    var js := Joined(facts, dims);
    var stats := Stats(js);
    JoinedFromFacts(facts, dims);
    forall i | 0 <= i < |stats|
      ensures stats[i].lastOrder in Map(facts, FactDate)
    {
      var j :| j in js && KeyOf(j) == stats[i].key && j.orderDate == stats[i].lastOrder;
      var f :| f in facts && FromFact(j, f);
      var t :| 0 <= t < |facts| && facts[t] == f;
      assert Map(facts, FactDate)[t] == stats[i].lastOrder;
    }
  }

  /** A scored row: labels in 1..4, the score string R‖F‖M and the segment of
      (R, F). */
  function Scored(s: GroupStat, recency: int, r: int, f: int, m: int): (c: CustomerRfm)
    requires 1 <= r <= 4 && 1 <= f <= 4 && 1 <= m <= 4
  {
    CustomerRfm(s.key.customerId, s.key.customerName, s.lastOrder, recency,
                s.frequency, s.monetary, r, f, m, ScoreText(r, f, m), MapSegment(r, f))
  }

  /** What every returned row satisfies. */
  predicate WellScored(c: CustomerRfm)
  {
    && 1 <= c.r <= 4 && 1 <= c.f <= 4 && 1 <= c.m <= 4
    && c.recency >= 0 && c.frequency >= 1
    && c.score == ScoreText(c.r, c.f, c.m)
    && c.segment == MapSegment(c.r, c.f)
  }

  /** Every group scored from its three label positions. The rows are given
      by `ScoreRowsAt`. */
  function ScoreRows(current: ValidDate, stats: seq<GroupStat>, rb: seq<int>, fb: seq<int>, mb: seq<int>)
    : (rows: seq<CustomerRfm>)
    requires |rb| == |stats| && |fb| == |stats| && |mb| == |stats|
    requires Labels(rb) && Labels(fb) && Labels(mb)
    ensures |rows| == |stats|
  {
    if |stats| == 0 then []
    else
      var n := |stats| - 1;
      ScoreRows(current, stats[..n], rb[..n], fb[..n], mb[..n])
        + [Scored(stats[n], Recency(current, stats[n]), RecencyScore(rb[n]), fb[n], mb[n])]
  }

  lemma {:induction false} ScoreRowsAt(current: ValidDate, stats: seq<GroupStat>, rb: seq<int>, fb: seq<int>, mb: seq<int>, i: nat)
    requires |rb| == |stats| && |fb| == |stats| && |mb| == |stats|
    requires Labels(rb) && Labels(fb) && Labels(mb)
    requires i < |stats|
    ensures ScoreRows(current, stats, rb, fb, mb)[i]
            == Scored(stats[i], Recency(current, stats[i]), RecencyScore(rb[i]), fb[i], mb[i])
  {
    var n := |stats| - 1;
    if i < n {
      ScoreRowsAt(current, stats[..n], rb[..n], fb[..n], mb[..n], i);
    }
  }

  /** The scores of every group, or `None` where a `qcut` raises: exactly
      when there are fewer than two groups. */
  function ScoreAll(current: ValidDate, stats: seq<GroupStat>): (res: Option<seq<CustomerRfm>>)
    ensures res.Some? <==> |stats| >= 2
    ensures res.Some? ==> |res.value| == |stats|
  {
    var rb := QuartileBins(RecencyColumn(current, stats));
    var fb := QuartileBins(FrequencyColumn(stats));
    var mb := QuartileBins(MonetaryColumn(stats));
    if rb.None? || fb.None? || mb.None? then None
    else Some(ScoreRows(current, stats, rb.value, fb.value, mb.value))
  }

  /** The reference date: the latest Order Date in the fact table
      (`SELECT MAX(Order Date) FROM fact_orders`). */
  function Current(facts: seq<Etl.FactOrder>): ValidDate
    requires |facts| > 0
  {
    Latest(Map(facts, FactDate))
  }

  /** `calculate_rfm` over the fact table and `dim_customers`: one row per
      (Customer ID, Customer Name) group, or `None` where pandas raises, which
      is exactly when there are fewer than two groups. */
  function CalculateRfm(facts: seq<Etl.FactOrder>, dims: seq<Etl.CustomerDim>): (res: Option<seq<CustomerRfm>>)
    ensures res.Some? <==> |GroupKeys(Joined(facts, dims))| >= 2
    ensures res.Some? ==> |res.value| == |GroupKeys(Joined(facts, dims))|
  {
    var stats := Stats(Joined(facts, dims));
    if |facts| == 0 then
      assert Joined(facts, dims) == [];
      None
    else
      ScoreAll(Current(facts), stats)
  }

  // ---------------------------------------------------------------------
  // What a returned row holds

  /** A group's labels are read off the three binned columns at its position. */
  lemma {:induction false} ScoreAllRow(current: ValidDate, stats: seq<GroupStat>, i: nat)
    requires ScoreAll(current, stats).Some? && i < |stats|
    ensures ScoreAll(current, stats).value[i]
            == Scored(stats[i], Recency(current, stats[i]),
                      RecencyScore(QuartileBins(RecencyColumn(current, stats)).value[i]),
                      QuartileBins(FrequencyColumn(stats)).value[i],
                      QuartileBins(MonetaryColumn(stats)).value[i])
  {
    var rb := QuartileBins(RecencyColumn(current, stats));
    var fb := QuartileBins(FrequencyColumn(stats));
    var mb := QuartileBins(MonetaryColumn(stats));
    ScoreRowsAt(current, stats, rb.value, fb.value, mb.value, i);
  }

  /** With facts present, `calculate_rfm` scores the SQL result against the
      latest Order Date. */
  lemma {:induction false} CalculateRfmScoresStats(facts: seq<Etl.FactOrder>, dims: seq<Etl.CustomerDim>)
    requires CalculateRfm(facts, dims).Some?
    ensures |facts| > 0
    ensures CalculateRfm(facts, dims) == ScoreAll(Current(facts), Stats(Joined(facts, dims)))
  {
    assert |Joined(facts, dims)| >= 2;
  }

  /** Every returned row is well formed: labels 1..4, a non-negative recency,
      at least one order, the score string R‖F‖M and the segment of (R, F). */
  lemma {:induction false} CalculateRfmWellScored(facts: seq<Etl.FactOrder>, dims: seq<Etl.CustomerDim>, i: nat)
    requires CalculateRfm(facts, dims).Some? && i < |CalculateRfm(facts, dims).value|
    ensures WellScored(CalculateRfm(facts, dims).value[i])
    ensures CalculateRfm(facts, dims).value[i].recency
            == DayNumber(Current(facts)) - DayNumber(CalculateRfm(facts, dims).value[i].lastOrderDate)
  {
    CalculateRfmScoresStats(facts, dims);
    var stats := Stats(Joined(facts, dims));
    var current := Current(facts);
    LastOrdersAreFactDates(facts, dims);
    LaterThanEvery(current, facts, stats);
    ScoreAllRow(current, stats, i);
  }

  /** The labels follow the columns: a more recent customer never gets a lower
      R, and more orders or more Sales never get a lower F or M. Equal values
      never invert the order of the rows either, since `qcut` of equal values
      gives equal bins and the rank fallback numbers ties in row order. */
  lemma {:induction false} CalculateRfmOrderPreserving(facts: seq<Etl.FactOrder>, dims: seq<Etl.CustomerDim>, i: nat, j: nat)
    requires CalculateRfm(facts, dims).Some?
    requires i < |CalculateRfm(facts, dims).value| && j < |CalculateRfm(facts, dims).value|
    ensures var rows := CalculateRfm(facts, dims).value;
            rows[i].recency < rows[j].recency || (rows[i].recency == rows[j].recency && i < j)
            ==> rows[i].r >= rows[j].r
    ensures var rows := CalculateRfm(facts, dims).value;
            rows[i].frequency < rows[j].frequency || (rows[i].frequency == rows[j].frequency && i < j)
            ==> rows[i].f <= rows[j].f
    ensures var rows := CalculateRfm(facts, dims).value;
            rows[i].monetary < rows[j].monetary || (rows[i].monetary == rows[j].monetary && i < j)
            ==> rows[i].m <= rows[j].m
  {
    CalculateRfmScoresStats(facts, dims);
    var stats := Stats(Joined(facts, dims));
    var current := Current(facts);
    ScoreAllRow(current, stats, i);
    ScoreAllRow(current, stats, j);
    ColumnsAt(current, stats, i);
    ColumnsAt(current, stats, j);
    var rc, fc, mc := RecencyColumn(current, stats), FrequencyColumn(stats), MonetaryColumn(stats);
    if rc[i] < rc[j] || (rc[i] == rc[j] && i < j) {
      QuartileBinsMonotone(rc, i, j);
    }
    if fc[i] < fc[j] || (fc[i] == fc[j] && i < j) {
      QuartileBinsMonotone(fc, i, j);
    }
    if mc[i] < mc[j] || (mc[i] == mc[j] && i < j) {
      QuartileBinsMonotone(mc, i, j);
    }
  }

  /** A returned row restated over the two tables: its key is a
      `dim_customers` key, its frequency counts the distinct orders of its
      Customer ID, its monetary value is that customer's Sales once per
      `dim_customers` row with the key, and its last order date is the latest
      Order Date of that customer's facts. */
  lemma {:induction false} CalculateRfmRow(facts: seq<Etl.FactOrder>, dims: seq<Etl.CustomerDim>, i: nat)
    requires CalculateRfm(facts, dims).Some? && i < |CalculateRfm(facts, dims).value|
    ensures var c := CalculateRfm(facts, dims).value[i];
            Key(c.customerId, c.customerName) == GroupKeys(Joined(facts, dims))[i]
            && Key(c.customerId, c.customerName) in Map(dims, DimKey)
    ensures var c := CalculateRfm(facts, dims).value[i];
            c.frequency == |FactOrderIds(facts, c.customerId)|
    ensures var c := CalculateRfm(facts, dims).value[i];
            c.monetary == Times(KeyCount(dims, Key(c.customerId, c.customerName)), CustomerSales(facts, c.customerId))
    ensures var c := CalculateRfm(facts, dims).value[i];
            (exists f :: f in facts && f.customerId == c.customerId && f.orderDate == c.lastOrderDate)
            && (forall f :: f in facts && f.customerId == c.customerId ==> !Before(c.lastOrderDate, f.orderDate))
  {
    CalculateRfmScoresStats(facts, dims);
    var js := Joined(facts, dims);
    var stats := Stats(js);
    var current := Current(facts);
    ScoreAllRow(current, stats, i);
    StatsAt(js, i);
    var k := GroupKeys(js)[i];
    var t :| 0 <= t < |js| && Map(js, KeyOf)[t] == k;
    JoinedKeys(facts, dims);
    assert js[t] in js;
    GroupOrderIds(facts, dims, k);
    GroupSales(facts, dims, k);
    GroupLastOrder(facts, dims, k);
  }

  // ---------------------------------------------------------------------
  // The Sales of a customer with two segments

  /** As written: `dim_customers` is deduplicated on (Customer ID, Customer
      Name, Segment), so a customer recorded under two segments has two rows,
      the join meets each fact twice and `SUM(Sales)` doubles. */
  lemma {:induction false} MonetaryCountedTwice(f: Etl.FactOrder, c: Etl.CustomerDim)
    requires c.customerId == f.customerId
    ensures var dims := [c, c.(segment := c.segment + "x")];
            NoDuplicates(dims)
            && SalesTotal(GroupRows(Joined([f], dims), DimKey(c))) == 2.0 * f.sales
  {
    var c' := c.(segment := c.segment + "x");
    var dims := [c, c'];
    assert c != c' by {
      assert |c.segment| != |c'.segment|;
    }
    GroupSales([f], dims, DimKey(c));
    assert DimKey(c') == DimKey(c);
    assert dims[..1] == [c];
    assert [c][..0] == [];
    KeyCountSnoc(dims, DimKey(c));
    KeyCountSnoc([c], DimKey(c));
    assert KeyCount(dims, DimKey(c)) == 2;
    assert [f][..0] == [];
    assert CustomerSales([f], f.customerId) == f.sales;
    TimesIsProduct(2, f.sales);
  }

  /** A `dim_customers` row standing for one group key. */
  function KeyRow(k: Key): Etl.CustomerDim
  {
    Etl.CustomerDim(k.customerId, k.customerName, "")
  }

  /** One customer row per (Customer ID, Customer Name) key. */
  function KeyDims(dims: seq<Etl.CustomerDim>): seq<Etl.CustomerDim>
  {
    Map(Distinct(Map(dims, DimKey)), KeyRow)
  }

  lemma {:induction false} KeyCountOfKeys(ks: seq<Key>, k: Key)
    requires NoDuplicates(ks)
    ensures KeyCount(Map(ks, KeyRow), k) == (if k in ks then 1 else 0)
  {
    if |ks| > 0 {
      var n := |ks| - 1;
      assert Map(ks, KeyRow)[..n] == Map(ks[..n], KeyRow);
      KeyCountSnoc(Map(ks, KeyRow), k);
      KeyCountOfKeys(ks[..n], k);
      assert ks == ks[..n] + [ks[n]];
      assert k == ks[n] ==> k !in ks[..n];
    }
  }

  /** A key groups some joined row exactly when it is a `dim_customers` key
      whose Customer ID has a fact. */
  lemma {:induction false} JoinedKeyIff(facts: seq<Etl.FactOrder>, dims: seq<Etl.CustomerDim>, k: Key)
    ensures k in Map(Joined(facts, dims), KeyOf)
            <==> k in Map(dims, DimKey) && exists f :: f in facts && f.customerId == k.customerId
  {
    var js := Joined(facts, dims);
    JoinedKeys(facts, dims);
    JoinedFromFacts(facts, dims);
    if k in Map(js, KeyOf) {
      var t :| 0 <= t < |js| && Map(js, KeyOf)[t] == k;
      assert js[t] in js;
      var f :| f in facts && FromFact(js[t], f);
    }
    if k in Map(dims, DimKey) && exists f :: f in facts && f.customerId == k.customerId {
      var f :| f in facts && f.customerId == k.customerId;
      var t :| 0 <= t < |dims| && Map(dims, DimKey)[t] == k;
      JoinedHas(facts, dims, f, dims[t]);
      var j := JoinedRow(k.customerId, k.customerName, f.orderId, f.orderDate, f.sales);
      var u :| 0 <= u < |js| && js[u] == j;
      assert Map(js, KeyOf)[u] == k;
    }
  }

  /** The one-row-per-key table has the keys of `dim_customers`. */
  lemma {:induction false} KeyDimsKeys(dims: seq<Etl.CustomerDim>, k: Key)
    ensures k in Map(KeyDims(dims), DimKey) <==> k in Map(dims, DimKey)
  {
    var ks := Distinct(Map(dims, DimKey));
    var d := Map(KeyDims(dims), DimKey);
    assert forall i :: 0 <= i < |ks| ==> d[i] == ks[i];
    if k in ks {
      var t :| 0 <= t < |ks| && ks[t] == k;
      assert d[t] == k;
    }
  }

  /** Joining against one row per key leaves the set of groups unchanged. */
  lemma {:induction false} KeyDimsSameGroups(facts: seq<Etl.FactOrder>, dims: seq<Etl.CustomerDim>)
    ensures |GroupKeys(Joined(facts, KeyDims(dims)))| == |GroupKeys(Joined(facts, dims))|
  {
    var a, b := Map(Joined(facts, KeyDims(dims)), KeyOf), Map(Joined(facts, dims), KeyOf);
    forall k
      ensures k in a <==> k in b
    {
      JoinedKeyIff(facts, KeyDims(dims), k);
      JoinedKeyIff(facts, dims, k);
      KeyDimsKeys(dims, k);
    }
    DistinctSameValues(a, b);
  }

  /** `calculate_rfm` joined against one customer row per group key, so that
      every fact counts once. It scores exactly when the query as written
      does, and the same number of customers. */
  function CalculateRfmPerCustomer(facts: seq<Etl.FactOrder>, dims: seq<Etl.CustomerDim>): (res: Option<seq<CustomerRfm>>)
    ensures res.Some? <==> CalculateRfm(facts, dims).Some?
    ensures res.Some? ==> |res.value| == |CalculateRfm(facts, dims).value|
  {
    KeyDimsSameGroups(facts, dims);
    CalculateRfm(facts, KeyDims(dims))
  }

  /** Every key of the one-row-per-key table occurs once there and is a
      `dim_customers` key. */
  lemma {:induction false} KeyDimsCount(dims: seq<Etl.CustomerDim>, k: Key)
    requires k in Map(KeyDims(dims), DimKey)
    ensures KeyCount(KeyDims(dims), k) == 1
    ensures k in Map(dims, DimKey)
  {
    var ks := Distinct(Map(dims, DimKey));
    var d := KeyDims(dims);
    var t :| 0 <= t < |d| && Map(d, DimKey)[t] == k;
    assert ks[t] == k;
    KeyCountOfKeys(ks, k);
  }

  /** With one row per key, a customer's monetary value is the plain sum of
      the Sales of its facts, and its key is still a `dim_customers` key. */
  lemma {:induction false} PerCustomerMonetary(facts: seq<Etl.FactOrder>, dims: seq<Etl.CustomerDim>, i: nat)
    requires CalculateRfmPerCustomer(facts, dims).Some? && i < |CalculateRfmPerCustomer(facts, dims).value|
    ensures var c := CalculateRfmPerCustomer(facts, dims).value[i];
            c.monetary == CustomerSales(facts, c.customerId)
            && Key(c.customerId, c.customerName) in Map(dims, DimKey)
  {
    var d := KeyDims(dims);
    var c := CalculateRfm(facts, d).value[i];
    CalculateRfmRow(facts, d, i);
    KeyDimsCount(dims, Key(c.customerId, c.customerName));
    assert Times(1, CustomerSales(facts, c.customerId)) == CustomerSales(facts, c.customerId);
  }
}
