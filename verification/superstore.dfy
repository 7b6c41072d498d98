/** One line of the flat Global Superstore dataset, after the date columns
    have gone through `pd.to_datetime(..., errors='coerce')`, and the one
    cleaning step that both the warehouse build and the dashboard apply to it. */
module Superstore {
  import opened Collections
  import opened Calendar

  /** A transaction line. A date cell that did not parse is `None` (NaT).
      The Postal Code column is never read by the modelled code and is left out. */
  datatype Row = Row(
    rowId: int,
    orderId: string,
    orderDate: Option<ValidDate>,
    shipDate: Option<ValidDate>,
    shipMode: string,
    customerId: string,
    customerName: string,
    segment: string,
    city: string,
    state: string,
    country: string,
    region: string,
    market: string,
    productId: string,
    category: string,
    subCategory: string,
    productName: string,
    sales: real,
    quantity: int,
    discount: real,
    profit: real,
    shippingCost: real,
    orderPriority: string)

  predicate HasOrderDate(r: Row)
  {
    r.orderDate.Some?
  }

  /** `df.dropna(subset=['Order Date'])`: drop the lines whose order date did
      not parse; a line whose ship date did not parse is kept. */
  function KeepDated(rows: seq<Row>): (kept: seq<Row>)
    ensures forall r :: r in kept <==> r in rows && r.orderDate.Some?
    ensures forall i :: 0 <= i < |kept| ==> kept[i].orderDate.Some?
  {
    Filter(rows, HasOrderDate)
  }

  /** Dropping undated lines keeps the survivors in their original order:
      it works line by line and commutes with concatenation. */
  lemma {:induction false} KeepDatedInOrder(a: seq<Row>, b: seq<Row>)
    ensures KeepDated(a + b) == KeepDated(a) + KeepDated(b)
    ensures |b| == 1 ==> KeepDated(b) == (if b[0].orderDate.Some? then b else [])
  {
    FilterConcat(a, b, HasOrderDate);
    if |b| == 1 {
      assert b[..0] == [];
    }
  }
}
