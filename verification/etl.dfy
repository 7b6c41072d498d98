/** The transform half of `run_etl`: the flat dataset becomes a star schema of
    three dimension tables and one fact table. Reading the CSV, parsing the
    dates and writing the SQLite file are outside the model. */
module Etl {
  import opened Collections
  import opened Calendar
  import opened Superstore
  import Text

  datatype CustomerDim = CustomerDim(customerId: string, customerName: string, segment: string)

  datatype ProductDim = ProductDim(productId: string, productName: string, category: string, subCategory: string)

  /** The five columns that identify a location. */
  datatype Location = Location(city: string, state: string, country: string, region: string, market: string)

  /** A row of `dim_locations`: the five location columns and the surrogate key. */
  datatype LocationDim = LocationDim(location: Location, locationId: nat)

  /** A row of `fact_orders`: the fourteen columns of `fact_cols`, in that order.
      `locationId` is `None` where the left merge found no location. */
  datatype FactOrder = FactOrder(
    rowId: int,
    orderId: string,
    orderDate: ValidDate,
    shipDate: Option<ValidDate>,
    shipMode: string,
    customerId: string,
    productId: string,
    locationId: Option<nat>,
    sales: real,
    quantity: int,
    discount: real,
    profit: real,
    shippingCost: real,
    orderPriority: string)

  datatype Warehouse = Warehouse(
    customers: seq<CustomerDim>,
    products: seq<ProductDim>,
    locations: seq<LocationDim>,
    facts: seq<FactOrder>)

  function CustomerOf(r: Row): CustomerDim
  {
    CustomerDim(r.customerId, r.customerName, r.segment)
  }

  function ProductOf(r: Row): ProductDim
  {
    ProductDim(r.productId, r.productName, r.category, r.subCategory)
  }

  function LocationOf(r: Row): Location
  {
    Location(r.city, r.state, r.country, r.region, r.market)
  }

  function StripProductId(p: ProductDim): ProductDim
  {
    p.(productId := Text.Strip(p.productId))
  }

  /** `fact_orders['Product ID'].str.strip()`, one row at a time. */
  function StripFactProductId(f: FactOrder): FactOrder
  {
    f.(productId := Text.Strip(f.productId))
  }

  /** `dim_locations['Location ID'] = dim_locations.index + 1`. */
  function NumberLocations(locs: seq<Location>): seq<LocationDim>
  {
    seq(|locs|, i requires 0 <= i < |locs| => LocationDim(locs[i], i + 1))
  }

  /** The `dim_locations` rows whose five location columns equal `loc`. */
  function LocationMatches(dim: seq<LocationDim>, loc: Location): seq<LocationDim>
  {
    if |dim| == 0 then []
    else
      var last := dim[|dim| - 1];
      LocationMatches(dim[..|dim| - 1], loc) + (if last.location == loc then [last] else [])
  }

  lemma {:induction false} NoMatch(dim: seq<LocationDim>, loc: Location)
    requires forall i :: 0 <= i < |dim| ==> dim[i].location != loc
    ensures LocationMatches(dim, loc) == []
  {
    if |dim| > 0 {
      NoMatch(dim[..|dim| - 1], loc);
    }
  }

  /** The `fact_cols` projection of a dated line. */
  function ToFact(r: Row, locationId: Option<nat>): FactOrder
    requires r.orderDate.Some?
  {
    FactOrder(r.rowId, r.orderId, r.orderDate.value, r.shipDate, r.shipMode,
              r.customerId, r.productId, locationId,
              r.sales, r.quantity, r.discount, r.profit, r.shippingCost, r.orderPriority)
  }

  /** `df.merge(dim_locations, on=[five columns], how='left')` followed by the
      `fact_cols` projection: every left row in order, repeated once per
      matching right row, or kept once with a missing Location ID when nothing
      matches. */
  function FactRows(rows: seq<Row>, dim: seq<LocationDim>): seq<FactOrder>
    requires forall i :: 0 <= i < |rows| ==> rows[i].orderDate.Some?
  {
    if |rows| == 0 then []
    else
      var last := rows[|rows| - 1];
      FactRows(rows[..|rows| - 1], dim) + MergeLine(last, LocationMatches(dim, LocationOf(last)))
  }

  /** The merged rows of one line: one per matching location, or one with a
      missing Location ID when none matches. */
  function MergeLine(r: Row, ms: seq<LocationDim>): seq<FactOrder>
    requires r.orderDate.Some?
  {
    if |ms| == 0 then [ToFact(r, None)]
    else seq(|ms|, k requires 0 <= k < |ms| => ToFact(r, Some(ms[k].locationId)))
  }

  function CustomerTable(rows: seq<Row>): seq<CustomerDim>
  {
    Distinct(Map(rows, CustomerOf))
  }

  /** Each line's product, with its Product ID stripped, is a row of the
      deduplicated and then stripped product table. */
  lemma {:induction false} DedupThenStripHas(rows: seq<Row>, i: nat)
    requires i < |rows|
    ensures StrippedProductOf(rows[i]) in Map(Distinct(Map(rows, ProductOf)), StripProductId)
  {
    var col := Map(rows, ProductOf);
    var d := Distinct(col);
    assert col[i] in col;
    var k :| 0 <= k < |d| && d[k] == col[i];
    assert Map(d, StripProductId)[k] == StripProductId(col[i]);
  }

  /** Each row of that table is some line's product with its Product ID
      stripped. */
  lemma {:induction false} DedupThenStripFrom(rows: seq<Row>, k: nat)
    requires k < |Distinct(Map(rows, ProductOf))|
    ensures exists i :: 0 <= i < |rows| && StrippedProductOf(rows[i]) == Map(Distinct(Map(rows, ProductOf)), StripProductId)[k]
  {
    var col := Map(rows, ProductOf);
    var d := Distinct(col);
    assert d[k] in d;
    var i :| 0 <= i < |col| && col[i] == d[k];
    assert StrippedProductOf(rows[i]) == StripProductId(d[k]);
  }

  lemma {:induction false} DedupThenStripRows(rows: seq<Row>)
    ensures forall i :: 0 <= i < |rows| ==> StrippedProductOf(rows[i]) in Map(Distinct(Map(rows, ProductOf)), StripProductId)
    ensures forall p :: p in Map(Distinct(Map(rows, ProductOf)), StripProductId) ==>
              exists i :: 0 <= i < |rows| && StrippedProductOf(rows[i]) == p
  {
    var t := Map(Distinct(Map(rows, ProductOf)), StripProductId);
    forall i | 0 <= i < |rows|
      ensures StrippedProductOf(rows[i]) in t
    {
      DedupThenStripHas(rows, i);
    }
    forall p | p in t
      ensures exists i :: 0 <= i < |rows| && StrippedProductOf(rows[i]) == p
    {
      var k :| 0 <= k < |t| && t[k] == p;
      DedupThenStripFrom(rows, k);
    }
  }

  /** `drop_duplicates` first, then the strip of the Product ID column: at
      most one row per line, every line's product present with its Product
      ID stripped, and nothing else. */
  function ProductTable(rows: seq<Row>): (r: seq<ProductDim>)
    ensures |r| <= |rows|
    ensures forall i :: 0 <= i < |rows| ==> StrippedProductOf(rows[i]) in r
    ensures forall p :: p in r ==> exists i :: 0 <= i < |rows| && StrippedProductOf(rows[i]) == p
    ensures forall p :: p in r ==> Text.IsTrimmed(p.productId)
  {
    DedupThenStripRows(rows);
    Map(Distinct(Map(rows, ProductOf)), StripProductId)
  }

  function LocationTable(rows: seq<Row>): seq<LocationDim>
  {
    NumberLocations(Distinct(Map(rows, LocationOf)))
  }

  /** The transform of `run_etl`. No Product ID in either table keeps
      whitespace at its ends after the strip. */
  function Transform(raw: seq<Row>): (w: Warehouse)
    ensures forall p :: p in w.products ==> Text.IsTrimmed(p.productId)
    ensures forall f :: f in w.facts ==> Text.IsTrimmed(f.productId)
  {
    var rows := KeepDated(raw);
    var facts := Map(FactRows(rows, LocationTable(rows)), StripFactProductId);
    Warehouse(CustomerTable(rows), ProductTable(rows), LocationTable(rows), facts)
  }

  // ---------------------------------------------------------------------
  // The left merge against a table of unique locations

  /** In a table of unique locations, a present location matches exactly one row. */
  lemma {:induction false} SingleMatch(dim: seq<LocationDim>, k: nat, loc: Location)
    requires k < |dim| && dim[k].location == loc
    requires forall i, j :: 0 <= i < j < |dim| ==> dim[i].location != dim[j].location
    ensures LocationMatches(dim, loc) == [dim[k]]
  {
    var n := |dim| - 1;
    var front := dim[..n];
    assert dim == front + [dim[n]];
    if k == n {
      NoMatch(front, loc);
    } else {
      assert front[k] == dim[k];
      SingleMatch(front, k, loc);
    }
  }

  lemma {:induction false} MergeLineSingle(r: Row, d: LocationDim)
    requires r.orderDate.Some?
    ensures MergeLine(r, [d]) == [ToFact(r, Some(d.locationId))]
  {
  }

  /** What the merge should give when every location is numbered exactly once:
      each dated line's projection with the number of its own location. */
  function ExpectedFacts(rows: seq<Row>, locs: seq<Location>): seq<FactOrder>
    requires forall i :: 0 <= i < |rows| ==> rows[i].orderDate.Some?
    requires forall i :: 0 <= i < |rows| ==> LocationOf(rows[i]) in locs
  {
    seq(|rows|, i requires 0 <= i < |rows| => ToFact(rows[i], Some(FirstIndex(locs, LocationOf(rows[i])) + 1)))
  }

  /** When every line's location occurs exactly once in the numbered table,
      the merge keeps one fact per line, in order, each carrying the number of
      its own location. */
  lemma {:induction false} MergeOneToOne(rows: seq<Row>, locs: seq<Location>)
    requires forall i :: 0 <= i < |rows| ==> rows[i].orderDate.Some?
    requires NoDuplicates(locs)
    requires forall i :: 0 <= i < |rows| ==> LocationOf(rows[i]) in locs
    ensures FactRows(rows, NumberLocations(locs)) == ExpectedFacts(rows, locs)
  {
    if |rows| > 0 {
      MergeOneToOne(rows[..|rows| - 1], locs);
      MergeLast(rows, locs);
      ExpectedFactsSnoc(rows, locs);
    }
  }

  /** The last line of a merge against unique locations adds exactly one row. */
  lemma {:induction false} MergeLast(rows: seq<Row>, locs: seq<Location>)
    requires |rows| > 0
    requires forall i :: 0 <= i < |rows| ==> rows[i].orderDate.Some?
    requires NoDuplicates(locs)
    requires LocationOf(rows[|rows| - 1]) in locs
    ensures FactRows(rows, NumberLocations(locs))
            == FactRows(rows[..|rows| - 1], NumberLocations(locs))
               + [ToFact(rows[|rows| - 1], Some(FirstIndex(locs, LocationOf(rows[|rows| - 1])) + 1))]
  {
    var dim := NumberLocations(locs);
    var last := rows[|rows| - 1];
    var k := FirstIndex(locs, LocationOf(last));
    NumberedLocationsUnique(locs);
    SingleMatch(dim, k, LocationOf(last));
    MergeLineSingle(last, dim[k]);
  }

  /** One line of `MergeOneToOne`'s conclusion. */
  lemma {:induction false} MergedAt(rows: seq<Row>, locs: seq<Location>, i: nat)
    requires forall i :: 0 <= i < |rows| ==> rows[i].orderDate.Some?
    requires NoDuplicates(locs)
    requires forall i :: 0 <= i < |rows| ==> LocationOf(rows[i]) in locs
    requires i < |rows|
    ensures |FactRows(rows, NumberLocations(locs))| == |rows|
    ensures FactRows(rows, NumberLocations(locs))[i]
            == ToFact(rows[i], Some(FirstIndex(locs, LocationOf(rows[i])) + 1))
  {
    MergeOneToOne(rows, locs);
  }

  lemma {:induction false} NumberedLocationsUnique(locs: seq<Location>)
    requires NoDuplicates(locs)
    ensures forall i, j :: 0 <= i < j < |NumberLocations(locs)| ==>
              NumberLocations(locs)[i].location != NumberLocations(locs)[j].location
  {
  }

  lemma {:induction false} ExpectedFactsSnoc(rows: seq<Row>, locs: seq<Location>)
    requires |rows| > 0
    requires forall i :: 0 <= i < |rows| ==> rows[i].orderDate.Some?
    requires forall i :: 0 <= i < |rows| ==> LocationOf(rows[i]) in locs
    ensures ExpectedFacts(rows, locs)
            == ExpectedFacts(rows[..|rows| - 1], locs)
               + [ToFact(rows[|rows| - 1], Some(FirstIndex(locs, LocationOf(rows[|rows| - 1])) + 1))]
  {
  }

  // ---------------------------------------------------------------------
  // Properties of the transform

  /** Numbering keeps the locations in place and gives the i-th one the
      number i + 1. */
  lemma {:induction false} NumberedInPlace(locs: seq<Location>)
    ensures |NumberLocations(locs)| == |locs|
    ensures forall i :: 0 <= i < |locs| ==>
              NumberLocations(locs)[i] == LocationDim(locs[i], i + 1)
  {
  }

  /** The merge of the dated lines against their own location table keeps
      one row per line, carrying the number of that line's location. */
  lemma {:induction false} MergeFollowsRows(rows: seq<Row>)
    requires forall i :: 0 <= i < |rows| ==> rows[i].orderDate.Some?
    ensures |FactRows(rows, LocationTable(rows))| == |rows|
    ensures forall i :: 0 <= i < |rows| ==>
              exists k :: 0 <= k < |LocationTable(rows)|
                && LocationTable(rows)[k].location == LocationOf(rows[i])
                && FactRows(rows, LocationTable(rows))[i] == ToFact(rows[i], Some(k + 1))
  {
    var locs := Distinct(Map(rows, LocationOf));
    var dim := LocationTable(rows);
    DistinctColumn(rows, LocationOf);
    MergeOneToOne(rows, locs);
    NumberedInPlace(locs);
    forall i | 0 <= i < |rows|
      ensures exists k :: 0 <= k < |dim| && dim[k].location == LocationOf(rows[i])
                && FactRows(rows, dim)[i] == ToFact(rows[i], Some(k + 1))
    {
      var k := FirstIndex(locs, LocationOf(rows[i]));
      MergedAt(rows, locs, i);
      assert dim[k].location == LocationOf(rows[i]);
    }
  }

  /** The fact table has one row per line whose order date parsed, in the
      source order: the projection of that line, with its Product ID stripped
      and the Location ID of its own five location columns. */
  lemma {:induction false} FactsFollowDatedRows(raw: seq<Row>)
    ensures |Transform(raw).facts| == |KeepDated(raw)|
    ensures forall i :: 0 <= i < |KeepDated(raw)| ==>
              exists k :: 0 <= k < |Transform(raw).locations|
                && Transform(raw).locations[k].location == LocationOf(KeepDated(raw)[i])
                && Transform(raw).facts[i] == StripFactProductId(ToFact(KeepDated(raw)[i], Some(k + 1)))
  {
    var w := Transform(raw);
    StrippedFactsFollowRows(KeepDated(raw), w.locations, w.facts);
  }

  /** `FactsFollowDatedRows` for the dated lines, the location table and the
      stripped fact table taken as given values. */
  lemma {:induction false} StrippedFactsFollowRows(rows: seq<Row>, dim: seq<LocationDim>, facts: seq<FactOrder>)
    requires forall i :: 0 <= i < |rows| ==> rows[i].orderDate.Some?
    requires dim == LocationTable(rows)
    requires facts == Map(FactRows(rows, dim), StripFactProductId)
    ensures |facts| == |rows|
    ensures forall i :: 0 <= i < |rows| ==>
              exists k :: 0 <= k < |dim| && dim[k].location == LocationOf(rows[i])
                && facts[i] == StripFactProductId(ToFact(rows[i], Some(k + 1)))
  {
    var merged := FactRows(rows, dim);
    MergeFollowsRows(rows);
    forall i | 0 <= i < |rows|
      ensures exists k :: 0 <= k < |dim| && dim[k].location == LocationOf(rows[i])
                && facts[i] == StripFactProductId(ToFact(rows[i], Some(k + 1)))
    {
      var k :| 0 <= k < |dim| && dim[k].location == LocationOf(rows[i])
                && merged[i] == ToFact(rows[i], Some(k + 1));
      assert facts[i] == StripFactProductId(merged[i]);
    }
  }

  /** `dim_locations` numbers the distinct locations of the dated lines
      1, 2, ..., k, each once, in the order in which they first appear. */
  lemma {:induction false} LocationDimension(rows: seq<Row>)
    ensures forall i :: 0 <= i < |LocationTable(rows)| ==> LocationTable(rows)[i].locationId == i + 1
    ensures forall i, j :: 0 <= i < j < |LocationTable(rows)| ==>
              LocationTable(rows)[i].location != LocationTable(rows)[j].location
    ensures forall i, j :: 0 <= i < j < |LocationTable(rows)| ==>
              FirstIndex(Map(rows, LocationOf), LocationTable(rows)[i].location)
              < FirstIndex(Map(rows, LocationOf), LocationTable(rows)[j].location)
  {
    var col := Map(rows, LocationOf);
    var locs := Distinct(col);
    NumberedInPlace(locs);
    DistinctKeepsFirstOccurrenceOrder(col);
  }

  /** Some dated line has the location `loc`. */
  predicate SomeLineAt(rows: seq<Row>, loc: Location)
  {
    exists j :: 0 <= j < |rows| && LocationOf(rows[j]) == loc
  }

  /** Every dated line's location has a `dim_locations` row, and every row of
      `dim_locations` is the location of some dated line. */
  lemma {:induction false} LocationCoverage(rows: seq<Row>)
    ensures forall r :: r in rows ==>
              exists i :: 0 <= i < |LocationTable(rows)| && LocationTable(rows)[i].location == LocationOf(r)
    ensures forall i :: 0 <= i < |LocationTable(rows)| ==> SomeLineAt(rows, LocationTable(rows)[i].location)
  {
    var locs := Distinct(Map(rows, LocationOf));
    NumberedInPlace(locs);
    DistinctColumn(rows, LocationOf);
    LineLocationsListed(rows, locs, LocationTable(rows));
    forall y | y in locs
      ensures SomeLineAt(rows, y)
    {
      var j :| 0 <= j < |rows| && LocationOf(rows[j]) == y;
    }
    ListedLocationsUsed(rows, locs, LocationTable(rows));
  }

  lemma {:induction false} LineLocationsListed(rows: seq<Row>, locs: seq<Location>, dim: seq<LocationDim>)
    requires forall i :: 0 <= i < |rows| ==> LocationOf(rows[i]) in locs
    requires |dim| == |locs| && forall i :: 0 <= i < |locs| ==> dim[i].location == locs[i]
    ensures forall r :: r in rows ==> exists i :: 0 <= i < |dim| && dim[i].location == LocationOf(r)
  {
    forall r | r in rows
      ensures exists i :: 0 <= i < |dim| && dim[i].location == LocationOf(r)
    {
      var j :| 0 <= j < |rows| && rows[j] == r;
      var i := FirstIndex(locs, LocationOf(r));
      assert dim[i].location == LocationOf(r);
    }
  }

  lemma {:induction false} ListedLocationsUsed(rows: seq<Row>, locs: seq<Location>, dim: seq<LocationDim>)
    requires forall y :: y in locs ==> SomeLineAt(rows, y)
    requires |dim| == |locs| && forall i :: 0 <= i < |locs| ==> dim[i].location == locs[i]
    ensures forall i :: 0 <= i < |dim| ==> SomeLineAt(rows, dim[i].location)
  {
    forall i | 0 <= i < |dim|
      ensures SomeLineAt(rows, dim[i].location)
    {
      assert locs[i] in locs;
    }
  }

  /** `dim_customers` lists each (Customer ID, Customer Name, Segment) triple
      of the dated lines exactly once, in first-occurrence order. */
  lemma {:induction false} CustomerDimension(rows: seq<Row>)
    ensures NoDuplicates(CustomerTable(rows))
    ensures forall r :: r in rows ==> CustomerOf(r) in CustomerTable(rows)
    ensures forall c :: c in CustomerTable(rows) ==> exists r :: r in rows && CustomerOf(r) == c
    ensures forall i, j :: 0 <= i < j < |CustomerTable(rows)| ==>
              FirstIndex(Map(rows, CustomerOf), CustomerTable(rows)[i])
              < FirstIndex(Map(rows, CustomerOf), CustomerTable(rows)[j])
  {
    DistinctKeepsFirstOccurrenceOrder(Map(rows, CustomerOf));
    DistinctColumn(rows, CustomerOf);
    forall c | c in CustomerTable(rows)
      ensures exists r :: r in rows && CustomerOf(r) == c
    {
      var j :| 0 <= j < |rows| && CustomerOf(rows[j]) == c;
      assert rows[j] in rows;
    }
  }

  /** Every fact's Customer ID is found in `dim_customers`. */
  lemma {:induction false} FactCustomersResolve(raw: seq<Row>)
    ensures forall f :: f in Transform(raw).facts ==>
              exists c :: c in Transform(raw).customers && c.customerId == f.customerId
  {
    var rows := KeepDated(raw);
    var w := Transform(raw);
    FactsFollowDatedRows(raw);
    CustomerDimension(rows);
    forall f | f in w.facts
      ensures exists c :: c in w.customers && c.customerId == f.customerId
    {
      var i :| 0 <= i < |w.facts| && w.facts[i] == f;
      assert rows[i] in rows;
      assert CustomerOf(rows[i]) in w.customers;
    }
  }

  /** Every merged row carries the Customer ID and Product ID of one of the
      lines it came from, whatever the location table holds. */
  lemma {:induction false} MergedFromLines(rows: seq<Row>, dim: seq<LocationDim>)
    requires forall i :: 0 <= i < |rows| ==> rows[i].orderDate.Some?
    ensures forall f :: f in FactRows(rows, dim) ==>
              exists r :: r in rows && f.customerId == r.customerId && f.productId == r.productId
  {
    if |rows| > 0 {
      var n := |rows| - 1;
      var front := rows[..n];
      MergedFromLines(front, dim);
      var line := MergeLine(rows[n], LocationMatches(dim, LocationOf(rows[n])));
      assert FactRows(rows, dim) == FactRows(front, dim) + line;
      forall f | f in FactRows(rows, dim)
        ensures exists r :: r in rows && f.customerId == r.customerId && f.productId == r.productId
      {
        if f in FactRows(front, dim) {
          var r :| r in front && f.customerId == r.customerId && f.productId == r.productId;
          assert r in rows;
        } else {
          assert f in line;
          assert f.customerId == rows[n].customerId && f.productId == rows[n].productId;
          assert rows[n] in rows;
        }
      }
    }
  }

  /** Each line's stripped Product ID has a `dim_products` row. */
  lemma {:induction false} ProductRowFor(rows: seq<Row>, r: Row)
    requires r in rows
    ensures exists p :: p in ProductTable(rows) && p.productId == Text.Strip(r.productId)
  {
    var distinct := Distinct(Map(rows, ProductOf));
    DistinctColumn(rows, ProductOf);
    var j :| 0 <= j < |rows| && rows[j] == r;
    var k :| 0 <= k < |distinct| && distinct[k] == ProductOf(r);
    assert ProductTable(rows)[k] == StripProductId(ProductOf(r));
  }

  /** Every fact's Product ID is the Product ID of some `dim_products` row:
      both columns went through the same strip. */
  lemma {:induction false} FactProductsResolve(raw: seq<Row>)
    ensures forall f :: f in Transform(raw).facts ==>
              exists p :: p in Transform(raw).products && p.productId == f.productId
  {
    var rows := KeepDated(raw);
    var merged := FactRows(rows, LocationTable(rows));
    var w := Transform(raw);
    assert w.facts == Map(merged, StripFactProductId);
    assert w.products == ProductTable(rows);
    MergedFromLines(rows, LocationTable(rows));
    forall f | f in w.facts
      ensures exists p :: p in w.products && p.productId == f.productId
    {
      var i :| 0 <= i < |w.facts| && w.facts[i] == f;
      assert merged[i] in merged;
      var r :| r in rows && merged[i].customerId == r.customerId && merged[i].productId == r.productId;
      assert f.productId == Text.Strip(r.productId);
      ProductRowFor(rows, r);
    }
  }

  /** Two product rows that differ only by trailing padding on the Product
      ID are both kept by `drop_duplicates`, and are equal once stripped. */
  lemma {:induction false} PaddedProductSurvives(p: ProductDim)
    requires Text.IsTrimmed(p.productId)
    ensures Map(Distinct([p, p.(productId := p.productId + " ")]), StripProductId) == [p, p]
  {
    var q := p.(productId := p.productId + " ");
    assert p != q by {
      assert |p.productId| != |q.productId|;
    }
    assert [p, q][..1] == [p];
    assert [p][..0] == [];
    assert Distinct([p, q]) == [p, q];
    Text.StripKeepsTrimmed(p.productId);
    Text.StripDropsTrailingSpace(p.productId);
  }

  /** The strip runs after `drop_duplicates`, so two lines of one product
      whose Product IDs differ only by trailing padding survive the
      deduplication as two rows and then become two identical rows of
      `dim_products`. */
  lemma {:induction false} ProductIdsMayRepeat(r: Row)
    requires Text.IsTrimmed(r.productId)
    ensures var padded := r.(productId := r.productId + " ");
            ProductTable([r, padded]) == [ProductOf(r), ProductOf(r)]
  {
    var padded := r.(productId := r.productId + " ");
    var p := ProductOf(r);
    assert ProductOf(padded) == p.(productId := p.productId + " ");
    assert Map([r, padded], ProductOf) == [p, p.(productId := p.productId + " ")];
    PaddedProductSurvives(p);
  }

  /** A product row with its Product ID already stripped. */
  function StrippedProductOf(r: Row): ProductDim
  {
    StripProductId(ProductOf(r))
  }

  /** `dim_products` with the strip applied before `drop_duplicates`. */
  function CleanProductTable(rows: seq<Row>): seq<ProductDim>
  {
    Distinct(Map(rows, StrippedProductOf))
  }

  lemma {:induction false} TableRowIsClean(rows: seq<Row>, p: ProductDim)
    requires p in ProductTable(rows)
    ensures p in CleanProductTable(rows)
  {
    var d := Distinct(Map(rows, ProductOf));
    var table := Map(d, StripProductId);
    var k :| 0 <= k < |table| && table[k] == p;
    DistinctColumn(rows, ProductOf);
    assert d[k] in d;
    var i :| 0 <= i < |rows| && ProductOf(rows[i]) == d[k];
    var clean := Map(rows, StrippedProductOf);
    assert clean[i] == p;
    assert p in clean;
  }

  lemma {:induction false} CleanRowInTable(rows: seq<Row>, p: ProductDim)
    requires p in CleanProductTable(rows)
    ensures p in ProductTable(rows)
  {
    var d := Distinct(Map(rows, ProductOf));
    DistinctColumn(rows, StrippedProductOf);
    var i :| 0 <= i < |rows| && StrippedProductOf(rows[i]) == p;
    DistinctColumn(rows, ProductOf);
    var k :| 0 <= k < |d| && d[k] == ProductOf(rows[i]);
    assert ProductTable(rows)[k] == p;
  }

  /** Stripping first gives the same product rows as the code's table, each
      exactly once. */
  lemma {:induction false} CleanProductTableSameRows(rows: seq<Row>)
    ensures NoDuplicates(CleanProductTable(rows))
    ensures forall p :: p in CleanProductTable(rows) <==> p in ProductTable(rows)
  {
    forall p | p in ProductTable(rows)
      ensures p in CleanProductTable(rows)
    {
      TableRowIsClean(rows, p);
    }
    forall p | p in CleanProductTable(rows)
      ensures p in ProductTable(rows)
    {
      CleanRowInTable(rows, p);
    }
  }
}
