/** `generate_insights`: the short findings the dashboard prints for the
    currently filtered lines. Each finding carries the numbers or names its
    message shows; the wording and the number formatting are not modelled. */
module Insights {
  import opened Collections
  import opened Superstore
  import Text

  datatype Finding =
    | NoData
    | HealthyMargin(margin: real)
    | ModerateMargin(margin: real)
    | LossWarning(margin: real)
    | CategoryPerformance(top: string, bottom: string)
    | HighDiscount(average: real)
    | HealthyPricing(average: real)
    | VolumeMismatch(subCategory: string)
    | TopVolumeDriver(subCategory: string)

  /** Which of the four rules produced a finding, numbered in the order in
      which they run; 0 for the empty-data message. */
  function RuleOf(f: Finding): nat
  {
    match f
    case NoData => 0
    case HealthyMargin(_) => 1
    case ModerateMargin(_) => 1
    case LossWarning(_) => 1
    case CategoryPerformance(_, _) => 2
    case HighDiscount(_) => 3
    case HealthyPricing(_) => 3
    case VolumeMismatch(_) => 4
    case TopVolumeDriver(_) => 4
  }

  /** The numeric columns the rules read. */
  datatype Column = SalesColumn | ProfitColumn | DiscountColumn | QuantityColumn

  function Value(r: Row, c: Column): real
  {
    match c
    case SalesColumn => r.sales
    case ProfitColumn => r.profit
    case DiscountColumn => r.discount
    case QuantityColumn => r.quantity as real
  }

  /** The text columns the rules group by. */
  datatype KeyColumn = CategoryKey | SubCategoryKey

  function KeyValue(r: Row, key: KeyColumn): string
  {
    match key
    case CategoryKey => r.category
    case SubCategoryKey => r.subCategory
  }

  /** `df.groupby(key)[column].sum()`. */
  datatype GroupBy = GroupBy(key: KeyColumn, column: Column)

  /** `df[column].sum()`. */
  function Total(rows: seq<Row>, c: Column): real
  {
    if |rows| == 0 then 0.0 else Total(rows[..|rows| - 1], c) + Value(rows[|rows| - 1], c)
  }

  /** The sum of one group: `df[df[key] == k][column].sum()`. */
  function GroupTotal(rows: seq<Row>, g: GroupBy, k: string): real
  {
    if |rows| == 0 then 0.0
    else
      var r := rows[|rows| - 1];
      GroupTotal(rows[..|rows| - 1], g, k) + (if KeyValue(r, g.key) == k then Value(r, g.column) else 0.0)
  }

  /** Some line carries the key `k`. */
  predicate HasKey(rows: seq<Row>, key: KeyColumn, k: string)
  {
    exists i :: 0 <= i < |rows| && KeyValue(rows[i], key) == k
  }

  /** The groups of a `groupby`: every key that some line carries, once. */
  function Keys(rows: seq<Row>, key: KeyColumn): (ks: seq<string>)
    ensures NoDuplicates(ks)
    ensures forall k :: k in ks <==> HasKey(rows, key, k)
  {
    if |rows| == 0 then []
    else
      var n := |rows| - 1;
      var p := Keys(rows[..n], key);
      var k := KeyValue(rows[n], key);
      assert forall x :: HasKey(rows, key, x) <==> HasKey(rows[..n], key, x) || x == k by {
        forall x | HasKey(rows, key, x)
          ensures HasKey(rows[..n], key, x) || x == k
        {
          var i :| 0 <= i < |rows| && KeyValue(rows[i], key) == x;
          if i < n {
            assert KeyValue(rows[..n][i], key) == x;
          }
        }
        forall x | HasKey(rows[..n], key, x)
          ensures HasKey(rows, key, x)
        {
          var i :| 0 <= i < n && KeyValue(rows[..n][i], key) == x;
          assert KeyValue(rows[i], key) == x;
        }
      }
      if k in p then p else p + [k]
  }

  /** The groups of one `groupby` split the column's total: every line is
      counted in exactly one group. */
  lemma {:induction false} GroupsSplitTotal(rows: seq<Row>, g: GroupBy)
    ensures SumOfGroups(rows, g, Keys(rows, g.key)) == Total(rows, g.column)
  {
    if |rows| > 0 {
      var n := |rows| - 1;
      var pre, r := rows[..n], rows[n];
      var p, ks := Keys(pre, g.key), Keys(rows, g.key);
      var k := KeyValue(r, g.key);
      GroupsSplitTotal(pre, g);
      AddToOneGroup(rows, g, p);
      if k !in p {
        assert ks == p + [k];
        SumOfGroupsSnoc(rows, g, p, k);
        ZeroGroup(pre, g, k);
      }
    }
  }

  /** The group sums of `keys`, added up. */
  function SumOfGroups(rows: seq<Row>, g: GroupBy, keys: seq<string>): real
  {
    if |keys| == 0 then 0.0
    else SumOfGroups(rows, g, keys[..|keys| - 1]) + GroupTotal(rows, g, keys[|keys| - 1])
  }

  lemma {:induction false} SumOfGroupsSnoc(rows: seq<Row>, g: GroupBy, keys: seq<string>, k: string)
    ensures SumOfGroups(rows, g, keys + [k]) == SumOfGroups(rows, g, keys) + GroupTotal(rows, g, k)
  {
    assert (keys + [k])[..|keys|] == keys;
  }

  /** A key that no line carries has an empty group. */
  lemma {:induction false} ZeroGroup(rows: seq<Row>, g: GroupBy, k: string)
    requires !HasKey(rows, g.key, k)
    ensures GroupTotal(rows, g, k) == 0.0
  {
    if |rows| > 0 {
      var n := |rows| - 1;
      forall i | 0 <= i < n
        ensures KeyValue(rows[..n][i], g.key) != k
      {
        assert rows[..n][i] == rows[i];
      }
      ZeroGroup(rows[..n], g, k);
    }
  }

  /** Appending the last line adds its value to the groups of `keys`
      exactly once when its key is among them, and not at all otherwise. */
  lemma {:induction false} AddToOneGroup(rows: seq<Row>, g: GroupBy, keys: seq<string>)
    requires |rows| > 0 && NoDuplicates(keys)
    ensures var n := |rows| - 1;
            SumOfGroups(rows, g, keys)
            == SumOfGroups(rows[..n], g, keys)
               + (if KeyValue(rows[n], g.key) in keys then Value(rows[n], g.column) else 0.0)
  {
    if |keys| > 0 {
      var m := |keys| - 1;
      var front := keys[..m];
      assert NoDuplicates(front);
      AddToOneGroup(rows, g, front);
      assert keys == front + [keys[m]];
      assert keys[m] !in front;
    }
  }

  // ---------------------------------------------------------------------
  // The first and the last group after a descending sort

  /** `k` is where a stable descending sort of the groups, listed in
      ascending key order, puts first: the highest sum, ties going to the
      smallest key. `sort_values(ascending=False).index[0]` and `idxmax()`
      after a `groupby` both pick this key. */
  predicate IsTop(rows: seq<Row>, g: GroupBy, keys: seq<string>, k: string)
  {
    && k in keys
    && (forall x :: x in keys ==> GroupTotal(rows, g, x) <= GroupTotal(rows, g, k))
    && (forall x :: x in keys && x != k && GroupTotal(rows, g, x) == GroupTotal(rows, g, k) ==> Text.Less(k, x))
  }

  /** `k` is where the same sort puts last (`index[-1]`): the lowest sum,
      ties going to the largest key. */
  predicate IsBottom(rows: seq<Row>, g: GroupBy, keys: seq<string>, k: string)
  {
    && k in keys
    && (forall x :: x in keys ==> GroupTotal(rows, g, k) <= GroupTotal(rows, g, x))
    && (forall x :: x in keys && x != k && GroupTotal(rows, g, x) == GroupTotal(rows, g, k) ==> Text.Less(x, k))
  }

  function Highest(rows: seq<Row>, g: GroupBy, keys: seq<string>): (k: string)
    requires |keys| > 0
    ensures k in keys
    ensures forall x :: x in keys ==> GroupTotal(rows, g, x) <= GroupTotal(rows, g, k)
  {
    if |keys| == 1 then keys[0]
    else
      var b := Highest(rows, g, keys[..|keys| - 1]);
      var x := keys[|keys| - 1];
      assert keys == keys[..|keys| - 1] + [x];
      var sx, sb := GroupTotal(rows, g, x), GroupTotal(rows, g, b);
      if sx > sb || (sx == sb && Text.Less(x, b)) then x else b
  }

  function Lowest(rows: seq<Row>, g: GroupBy, keys: seq<string>): (k: string)
    requires |keys| > 0
    ensures k in keys
    ensures forall x :: x in keys ==> GroupTotal(rows, g, k) <= GroupTotal(rows, g, x)
  {
    if |keys| == 1 then keys[0]
    else
      var b := Lowest(rows, g, keys[..|keys| - 1]);
      var x := keys[|keys| - 1];
      assert keys == keys[..|keys| - 1] + [x];
      var sx, sb := GroupTotal(rows, g, x), GroupTotal(rows, g, b);
      if sx < sb || (sx == sb && Text.Less(b, x)) then x else b
  }

  lemma {:induction false} HighestIsTop(rows: seq<Row>, g: GroupBy, keys: seq<string>)
    requires |keys| > 0
    ensures IsTop(rows, g, keys, Highest(rows, g, keys))
  {
    if |keys| > 1 {
      var n := |keys| - 1;
      var pre, x := keys[..n], keys[n];
      var b, k := Highest(rows, g, pre), Highest(rows, g, keys);
      HighestIsTop(rows, g, pre);
      assert keys == pre + [x];
      forall y | y in keys && y != k && GroupTotal(rows, g, y) == GroupTotal(rows, g, k)
        ensures Text.Less(k, y)
      {
        if k != b {
          assert y in pre;
          if y != b {
            Text.LessTransitive(x, b, y);
          }
        } else if y == x {
          Text.LessTotal(x, b);
        }
      }
    }
  }

  lemma {:induction false} LowestIsBottom(rows: seq<Row>, g: GroupBy, keys: seq<string>)
    requires |keys| > 0
    ensures IsBottom(rows, g, keys, Lowest(rows, g, keys))
  {
    if |keys| > 1 {
      var n := |keys| - 1;
      var pre, x := keys[..n], keys[n];
      var b, k := Lowest(rows, g, pre), Lowest(rows, g, keys);
      LowestIsBottom(rows, g, pre);
      assert keys == pre + [x];
      forall y | y in keys && y != k && GroupTotal(rows, g, y) == GroupTotal(rows, g, k)
        ensures Text.Less(y, k)
      {
        if k != b {
          assert y in pre;
          if y != b {
            Text.LessTransitive(y, b, x);
          }
        } else if y == x {
          Text.LessTotal(x, b);
        }
      }
    }
  }

  /** The first place of the sort is well defined: two keys that both
      satisfy `IsTop` are the same key. */
  lemma {:induction false} TopUnique(rows: seq<Row>, g: GroupBy, keys: seq<string>, a: string, b: string)
    requires IsTop(rows, g, keys, a) && IsTop(rows, g, keys, b)
    ensures a == b
  {
    if a != b {
      Text.LessAsymmetric(a, b);
    }
  }

  /** The last place of the sort is well defined too: two keys that both
      satisfy `IsBottom` are the same key. */
  lemma {:induction false} BottomUnique(rows: seq<Row>, g: GroupBy, keys: seq<string>, a: string, b: string)
    requires IsBottom(rows, g, keys, a) && IsBottom(rows, g, keys, b)
    ensures a == b
  {
    if a != b {
      Text.LessAsymmetric(a, b);
    }
  }

  /** With two groups or more, the first and the last place of the sort are
      different groups. */
  lemma {:induction false} TopIsNotBottom(rows: seq<Row>, g: GroupBy, keys: seq<string>, t: string, b: string)
    requires |keys| >= 2 && NoDuplicates(keys)
    requires IsTop(rows, g, keys, t) && IsBottom(rows, g, keys, b)
    ensures t != b
  {
    var other := if keys[0] == t then keys[1] else keys[0];
    assert other in keys && other != t;
    if t == b {
      Text.LessAsymmetric(t, other);
    }
  }

  // ---------------------------------------------------------------------
  // The four rules

  const ProfitByCategory := GroupBy(CategoryKey, ProfitColumn)
  const QuantityBySubCategory := GroupBy(SubCategoryKey, QuantityColumn)
  const ProfitBySubCategory := GroupBy(SubCategoryKey, ProfitColumn)

  /** `(total_profit / total_sales) * 100`. */
  function Margin(rows: seq<Row>): real
    requires Total(rows, SalesColumn) > 0.0
  {
    Total(rows, ProfitColumn) / Total(rows, SalesColumn) * 100.0
  }

  /** Rule 1: overall profitability, only when the sales are positive. */
  function MarginFinding(rows: seq<Row>): seq<Finding>
  {
    if Total(rows, SalesColumn) > 0.0 then
      var m := Margin(rows);
      if m > 15.0 then [HealthyMargin(m)]
      else if m > 0.0 then [ModerateMargin(m)]
      else [LossWarning(m)]
    else []
  }

  /** Rule 2: the most and the least profitable category, when there are
      at least two. */
  function CategoryFinding(rows: seq<Row>): seq<Finding>
  {
    var cats := Keys(rows, CategoryKey);
    if |cats| > 1
    then [CategoryPerformance(Highest(rows, ProfitByCategory, cats), Lowest(rows, ProfitByCategory, cats))]
    else []
  }

  /** `df['Discount'].mean()` of a non-empty frame. */
  function AverageDiscount(rows: seq<Row>): real
    requires |rows| > 0
  {
    Total(rows, DiscountColumn) / |rows| as real
  }

  /** Rule 3: a high or a low average discount; nothing in between. */
  function DiscountFinding(rows: seq<Row>): seq<Finding>
    requires |rows| > 0
  {
    var avg := AverageDiscount(rows);
    if avg > 0.3 then [HighDiscount(avg)]
    else if avg < 0.1 then [HealthyPricing(avg)]
    else []
  }

  /** The sub-category that sells the most units (`idxmax`). */
  function TopVolume(rows: seq<Row>): string
    requires |rows| > 0
  {
    var subs := Keys(rows, SubCategoryKey);
    assert HasKey(rows, SubCategoryKey, rows[0].subCategory);
    Highest(rows, QuantityBySubCategory, subs)
  }

  /** Rule 4: always fires; a mismatch when the top-volume sub-category's
      summed profit is negative. */
  function VolumeFinding(rows: seq<Row>): Finding
    requires |rows| > 0
  {
    var top := TopVolume(rows);
    if GroupTotal(rows, ProfitBySubCategory, top) < 0.0 then VolumeMismatch(top) else TopVolumeDriver(top)
  }

  /** `generate_insights`: the empty-data message alone for no lines,
      otherwise the outputs of the four rules in order, ending with the
      volume finding. */
  function GenerateInsights(rows: seq<Row>): (r: seq<Finding>)
    ensures |r| >= 1
    ensures |rows| == 0 ==> r == [NoData]
  {
    if |rows| == 0 then [NoData]
    else MarginFinding(rows) + CategoryFinding(rows) + DiscountFinding(rows) + [VolumeFinding(rows)]
  }

  // ---------------------------------------------------------------------
  // What the findings say

  /** The empty-data message is the whole output exactly when there are
      no lines. */
  lemma {:induction false} NoDataExactlyWhenEmpty(rows: seq<Row>)
    ensures GenerateInsights(rows) == [NoData] <==> |rows| == 0
  {
    if |rows| > 0 {
      InsightsInRuleOrder(rows);
    }
  }

  /** How many of the three optional rules fire. */
  function OptionalFired(rows: seq<Row>): nat
    requires |rows| > 0
  {
    (if Total(rows, SalesColumn) > 0.0 then 1 else 0)
    + (if |Keys(rows, CategoryKey)| >= 2 then 1 else 0)
    + (if AverageDiscount(rows) > 0.3 || AverageDiscount(rows) < 0.1 then 1 else 0)
  }

  /** The findings of non-empty data are the four rules' outputs in order. */
  lemma {:induction false} InsightsParts(rows: seq<Row>)
    requires |rows| > 0
    ensures GenerateInsights(rows)
            == MarginFinding(rows) + CategoryFinding(rows) + DiscountFinding(rows) + [VolumeFinding(rows)]
  {
  }

  lemma {:induction false} MarginRule(rows: seq<Row>)
    ensures var a := MarginFinding(rows);
            |a| == (if Total(rows, SalesColumn) > 0.0 then 1 else 0)
            && forall i :: 0 <= i < |a| ==> RuleOf(a[i]) == 1
    ensures var a, sales, profit := MarginFinding(rows), Total(rows, SalesColumn), Total(rows, ProfitColumn);
            sales > 0.0 ==>
              && a[0].margin == Margin(rows)
              && (a[0].HealthyMargin? <==> profit * 100.0 > 15.0 * sales)
              && (a[0].ModerateMargin? <==> 0.0 < profit && profit * 100.0 <= 15.0 * sales)
              && (a[0].LossWarning? <==> profit <= 0.0)
  {
    if Total(rows, SalesColumn) > 0.0 {
      MarginBands(Total(rows, ProfitColumn), Total(rows, SalesColumn));
    }
  }

  lemma {:induction false} CategoryRule(rows: seq<Row>)
    ensures var b, cats := CategoryFinding(rows), Keys(rows, CategoryKey);
            |b| == (if |cats| >= 2 then 1 else 0)
            && forall i :: 0 <= i < |b| ==> RuleOf(b[i]) == 2
    ensures var b, cats := CategoryFinding(rows), Keys(rows, CategoryKey);
            |cats| >= 2 ==>
              && IsTop(rows, ProfitByCategory, cats, b[0].top)
              && IsBottom(rows, ProfitByCategory, cats, b[0].bottom)
              && b[0].top != b[0].bottom
  {
    var cats := Keys(rows, CategoryKey);
    if |cats| >= 2 {
      var t, w := Highest(rows, ProfitByCategory, cats), Lowest(rows, ProfitByCategory, cats);
      HighestIsTop(rows, ProfitByCategory, cats);
      LowestIsBottom(rows, ProfitByCategory, cats);
      TopIsNotBottom(rows, ProfitByCategory, cats, t, w);
    }
  }

  lemma {:induction false} DiscountRule(rows: seq<Row>)
    requires |rows| > 0
    ensures var c, avg := DiscountFinding(rows), AverageDiscount(rows);
            |c| == (if avg > 0.3 || avg < 0.1 then 1 else 0)
            && (forall i :: 0 <= i < |c| ==> RuleOf(c[i]) == 3 && c[i].average == avg)
            && (|c| == 1 ==> (c[0].HighDiscount? <==> avg > 0.3) && (c[0].HealthyPricing? <==> avg < 0.1))
  {
  }

  lemma {:induction false} VolumeRule(rows: seq<Row>)
    requires |rows| > 0
    ensures var v := VolumeFinding(rows);
            && RuleOf(v) == 4
            && IsTop(rows, QuantityBySubCategory, Keys(rows, SubCategoryKey), v.subCategory)
            && (v.VolumeMismatch? <==> GroupTotal(rows, ProfitBySubCategory, v.subCategory) < 0.0)
  {
    assert HasKey(rows, SubCategoryKey, rows[0].subCategory);
    HighestIsTop(rows, QuantityBySubCategory, Keys(rows, SubCategoryKey));
  }

  /** What the four rule outputs look like. */
  predicate RuleParts(a: seq<Finding>, b: seq<Finding>, c: seq<Finding>, d: seq<Finding>)
  {
    && |a| <= 1 && |b| <= 1 && |c| <= 1 && |d| == 1
    && (forall i :: 0 <= i < |a| ==> RuleOf(a[i]) == 1)
    && (forall i :: 0 <= i < |b| ==> RuleOf(b[i]) == 2)
    && (forall i :: 0 <= i < |c| ==> RuleOf(c[i]) == 3)
    && RuleOf(d[0]) == 4
  }

  /** The rule of each position of the concatenated output. */
  lemma {:induction false} PartsRuleAt(a: seq<Finding>, b: seq<Finding>, c: seq<Finding>, d: seq<Finding>, i: nat)
    requires RuleParts(a, b, c, d) && i < |a + b + c + d|
    ensures RuleOf((a + b + c + d)[i]) == (if i < |a| then 1 else if i < |a| + |b| then 2
                                         else if i < |a| + |b| + |c| then 3 else 4)
  {
    var r := a + b + c + d;
    if i < |a| {
      assert r[i] == a[i];
    } else if i < |a| + |b| {
      assert r[i] == b[i - |a|];
    } else if i < |a| + |b| + |c| {
      assert r[i] == c[i - |a| - |b|];
    } else {
      assert r[i] == d[0];
    }
  }

  lemma {:induction false} PartsInOrder(a: seq<Finding>, b: seq<Finding>, c: seq<Finding>, d: seq<Finding>)
    requires RuleParts(a, b, c, d)
    ensures var r := a + b + c + d;
            forall i, j :: 0 <= i < j < |r| ==> 1 <= RuleOf(r[i]) < RuleOf(r[j])
  {
    var r := a + b + c + d;
    forall i, j | 0 <= i < j < |r|
      ensures 1 <= RuleOf(r[i]) < RuleOf(r[j])
    {
      PartsRuleAt(a, b, c, d, i);
      PartsRuleAt(a, b, c, d, j);
    }
  }

  lemma {:induction false} PartsMembers(a: seq<Finding>, b: seq<Finding>, c: seq<Finding>, d: seq<Finding>)
    requires RuleParts(a, b, c, d)
    ensures var r := a + b + c + d;
            forall f :: f in r ==> (RuleOf(f) == 1 ==> f in a) && (RuleOf(f) == 2 ==> f in b)
                                   && (RuleOf(f) == 3 ==> f in c) && (RuleOf(f) == 4 ==> f in d)
    ensures var r := a + b + c + d;
            (|a| == 1 ==> r[0] == a[0] && a[0] in r) && (|b| == 1 ==> b[0] in r) && (|c| == 1 ==> c[0] in r)
            && r[|r| - 1] == d[0]
  {
    var r := a + b + c + d;
    assert r == a + (b + (c + d));
    if |b| == 1 {
      assert b[0] in b;
    }
    if |c| == 1 {
      assert c[0] in c;
    }
  }

  lemma {:induction false} InsightsRuleParts(rows: seq<Row>)
    requires |rows| > 0
    ensures RuleParts(MarginFinding(rows), CategoryFinding(rows), DiscountFinding(rows), [VolumeFinding(rows)])
  {
    MarginRule(rows);
    CategoryRule(rows);
    DiscountRule(rows);
    VolumeRule(rows);
  }

  /** The findings of non-empty data come in the order of the rules, each
      rule at most once, the volume finding last; there is one finding per
      optional rule that fired, plus the volume finding. */
  lemma {:induction false} InsightsInRuleOrder(rows: seq<Row>)
    requires |rows| > 0
    ensures var r := GenerateInsights(rows);
            forall i, j :: 0 <= i < j < |r| ==> 1 <= RuleOf(r[i]) < RuleOf(r[j])
    ensures var r := GenerateInsights(rows);
            |r| == 1 + OptionalFired(rows) && RuleOf(r[|r| - 1]) == 4
  {
    InsightsParts(rows);
    InsightsRuleParts(rows);
    MarginRule(rows);
    CategoryRule(rows);
    DiscountRule(rows);
    PartsInOrder(MarginFinding(rows), CategoryFinding(rows), DiscountFinding(rows), [VolumeFinding(rows)]);
    PartsMembers(MarginFinding(rows), CategoryFinding(rows), DiscountFinding(rows), [VolumeFinding(rows)]);
  }

  lemma {:induction false} ScaleOrder(a: real, b: real, s: real)
    requires s > 0.0
    ensures a < b <==> a * s < b * s
  {
    assert b * s - a * s == (b - a) * s;
  }

  lemma {:induction false} Bands(m: real, s: real, p100: real)
    requires s > 0.0 && m * s == p100
    ensures m > 15.0 <==> p100 > 15.0 * s
    ensures m > 0.0 <==> p100 > 0.0
  {
    ScaleOrder(15.0, m, s);
    assert 15.0 < m <==> 15.0 * s < m * s;
    assert 15.0 < m <==> 15.0 * s < p100;
    ScaleOrder(0.0, m, s);
  }

  /** The margin bands stated without the division. */
  lemma {:induction false} MarginBands(p: real, s: real)
    requires s > 0.0
    ensures p / s * 100.0 > 15.0 <==> p * 100.0 > 15.0 * s
    ensures p / s * 100.0 > 0.0 <==> p > 0.0
  {
    var q := p / s;
    assert q * s == p;
    assert (q * 100.0) * s == p * 100.0;
    Bands(q * 100.0, s, p * 100.0);
  }

  /** Rule 1 fires exactly when the sales are positive, and then first and
      in exactly one variant chosen by the margin: healthy above 15 %,
      moderate above 0 %, a loss otherwise. Stated without the division,
      healthy means the profit exceeds 15 % of the sales and a loss means
      the profit is not positive. */
  lemma {:induction false} MarginInsight(rows: seq<Row>)
    requires |rows| > 0
    ensures (exists f :: f in GenerateInsights(rows) && RuleOf(f) == 1) <==> Total(rows, SalesColumn) > 0.0
    ensures var r, sales, profit := GenerateInsights(rows), Total(rows, SalesColumn), Total(rows, ProfitColumn);
            sales > 0.0 ==>
              && RuleOf(r[0]) == 1 && r[0].margin == Margin(rows)
              && (r[0].HealthyMargin? <==> profit * 100.0 > 15.0 * sales)
              && (r[0].ModerateMargin? <==> 0.0 < profit && profit * 100.0 <= 15.0 * sales)
              && (r[0].LossWarning? <==> profit <= 0.0)
  {
    InsightsParts(rows);
    InsightsRuleParts(rows);
    MarginRule(rows);
    PartsInOrder(MarginFinding(rows), CategoryFinding(rows), DiscountFinding(rows), [VolumeFinding(rows)]);
    PartsMembers(MarginFinding(rows), CategoryFinding(rows), DiscountFinding(rows), [VolumeFinding(rows)]);
  }

  /** Rule 2 fires exactly when the lines span at least two categories; it
      names two different categories of the data, the first with the
      highest summed profit (ties to the smaller name) and the second with
      the lowest (ties to the larger name). */
  lemma {:induction false} CategoryInsight(rows: seq<Row>)
    requires |rows| > 0
    ensures (exists f :: f in GenerateInsights(rows) && RuleOf(f) == 2) <==> |Keys(rows, CategoryKey)| >= 2
    ensures forall f :: f in GenerateInsights(rows) && RuleOf(f) == 2 ==>
              && f.CategoryPerformance?
              && IsTop(rows, ProfitByCategory, Keys(rows, CategoryKey), f.top)
              && IsBottom(rows, ProfitByCategory, Keys(rows, CategoryKey), f.bottom)
              && f.top != f.bottom
  {
    InsightsParts(rows);
    InsightsRuleParts(rows);
    CategoryRule(rows);
    PartsInOrder(MarginFinding(rows), CategoryFinding(rows), DiscountFinding(rows), [VolumeFinding(rows)]);
    PartsMembers(MarginFinding(rows), CategoryFinding(rows), DiscountFinding(rows), [VolumeFinding(rows)]);
  }

  /** Rule 3 reports a high average discount above 30 %, healthy pricing
      below 10 %, and nothing from 10 % to 30 % inclusive. */
  lemma {:induction false} DiscountInsight(rows: seq<Row>)
    requires |rows| > 0
    ensures (exists f :: f in GenerateInsights(rows) && f.HighDiscount?) <==> AverageDiscount(rows) > 0.3
    ensures (exists f :: f in GenerateInsights(rows) && f.HealthyPricing?) <==> AverageDiscount(rows) < 0.1
    ensures (forall f :: f in GenerateInsights(rows) ==> RuleOf(f) != 3) <==> 0.1 <= AverageDiscount(rows) <= 0.3
    ensures forall f :: f in GenerateInsights(rows) && (f.HighDiscount? || f.HealthyPricing?) ==>
              f.average == AverageDiscount(rows)
  {
    InsightsParts(rows);
    InsightsRuleParts(rows);
    DiscountRule(rows);
    PartsInOrder(MarginFinding(rows), CategoryFinding(rows), DiscountFinding(rows), [VolumeFinding(rows)]);
    PartsMembers(MarginFinding(rows), CategoryFinding(rows), DiscountFinding(rows), [VolumeFinding(rows)]);
  }

  /** Rule 4 always fires, exactly once and last: it names a sub-category of
      the data that sells the most units (ties to the smaller name), and it
      reports a mismatch exactly when that sub-category's summed profit is
      negative. */
  lemma {:induction false} VolumeInsight(rows: seq<Row>)
    requires |rows| > 0
    ensures var r := GenerateInsights(rows);
            forall i :: 0 <= i < |r| - 1 ==> RuleOf(r[i]) != 4
    ensures var f := GenerateInsights(rows)[|GenerateInsights(rows)| - 1];
            && IsTop(rows, QuantityBySubCategory, Keys(rows, SubCategoryKey), f.subCategory)
            && (f.VolumeMismatch? <==> GroupTotal(rows, ProfitBySubCategory, f.subCategory) < 0.0)
  {
    InsightsParts(rows);
    InsightsRuleParts(rows);
    VolumeRule(rows);
    PartsInOrder(MarginFinding(rows), CategoryFinding(rows), DiscountFinding(rows), [VolumeFinding(rows)]);
    PartsMembers(MarginFinding(rows), CategoryFinding(rows), DiscountFinding(rows), [VolumeFinding(rows)]);
  }
}
