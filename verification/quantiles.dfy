/** `pd.qcut(x, q=4, labels=...)` as `calculate_rfm` uses it: quartile edges
    by numpy's 'linear' interpolation over the sorted values, right-closed
    bins with the lowest edge included, and a `ValueError` when two edges
    coincide; and the fallback that bins `x.rank(method='first')` instead. */
module Quantiles {
  import opened Collections

  // ---------------------------------------------------------------------
  // Sorting

  predicate Sorted(s: seq<real>)
  {
    forall i, j :: 0 <= i < j < |s| ==> s[i] <= s[j]
  }

  /** A value no larger than any element can go in front of a sorted sequence. */
  lemma {:induction false} ConsSorted(a: real, t: seq<real>)
    requires Sorted(t)
    requires forall k :: 0 <= k < |t| ==> a <= t[k]
    ensures Sorted([a] + t)
  {
  }

  /** A lower bound of `u` and of `x` bounds every element of a sequence that
      holds exactly `u` and `x`. */
  lemma {:induction false} LowerBound(a: real, t: seq<real>, u: seq<real>, x: real)
    requires multiset(t) == multiset(u) + multiset{x}
    requires a <= x && forall k :: 0 <= k < |u| ==> a <= u[k]
    ensures forall k :: 0 <= k < |t| ==> a <= t[k]
  {
    forall k | 0 <= k < |t|
      ensures a <= t[k]
    {
      assert t[k] in multiset(t);
      if t[k] != x {
        assert t[k] in multiset(u);
        var j :| 0 <= j < |u| && u[j] == t[k];
      }
    }
  }

  /** `x` put into its place in ascending values. */
  function Insert(x: real, s: seq<real>): (r: seq<real>)
    requires Sorted(s)
    ensures Sorted(r)
    ensures multiset(r) == multiset(s) + multiset{x}
    ensures |r| == |s| + 1
  {
    if |s| == 0 then [x]
    else if x <= s[0] then
      ConsSorted(x, s);
      [x] + s
    else
      var u := s[1..];
      var t := Insert(x, u);
      LowerBound(s[0], t, u, x);
      ConsSorted(s[0], t);
      assert s == [s[0]] + u;
      [s[0]] + t
  }

  /** The values in ascending order (numpy sorts before taking quantiles). */
  function Sort(s: seq<real>): (r: seq<real>)
    ensures Sorted(r)
    ensures multiset(r) == multiset(s)
    ensures |r| == |s|
  {
    if |s| == 0 then []
    else
      assert s == s[..|s| - 1] + [s[|s| - 1]];
      Insert(s[|s| - 1], Sort(s[..|s| - 1]))
  }

  lemma {:induction false} HeadIsLeast(a: seq<real>, x: real)
    requires Sorted(a) && x in multiset(a)
    ensures a[0] <= x
  {
    var i :| 0 <= i < |a| && a[i] == x;
  }

  lemma {:induction false} TailMultiset(a: seq<real>)
    requires |a| > 0
    ensures multiset(a[1..]) == multiset(a) - multiset{a[0]}
  {
    assert a == [a[0]] + a[1..];
  }

  lemma {:induction false} SortedTail(a: seq<real>)
    requires Sorted(a) && |a| > 0
    ensures Sorted(a[1..])
  {
  }

  /** Two ascending sequences with the same elements are the same sequence. */
  lemma {:induction false} SortedUnique(a: seq<real>, b: seq<real>)
    requires Sorted(a) && Sorted(b)
    requires multiset(a) == multiset(b)
    ensures a == b
  {
    assert |a| == |multiset(a)| == |multiset(b)| == |b|;
    if |a| > 0 {
      SameHead(a, b);
      TailMultiset(a);
      TailMultiset(b);
      SortedTail(a);
      SortedTail(b);
      SortedUnique(a[1..], b[1..]);
      ConsTail(a, b);
    }
  }

  /** Ascending sequences with the same elements start alike. */
  lemma {:induction false} SameHead(a: seq<real>, b: seq<real>)
    requires Sorted(a) && Sorted(b) && |a| > 0 && |b| > 0
    requires multiset(a) == multiset(b)
    ensures a[0] == b[0]
  {
    assert a[0] in multiset(a);
    assert b[0] in multiset(b);
    HeadIsLeast(a, b[0]);
    HeadIsLeast(b, a[0]);
  }

  lemma {:induction false} ConsTail(a: seq<real>, b: seq<real>)
    requires |a| > 0 && |b| > 0 && a[0] == b[0] && a[1..] == b[1..]
    ensures a == b
  {
    assert a == [a[0]] + a[1..];
    assert b == [b[0]] + b[1..];
  }

  /** The ends of ascending values bound every one of them. */
  lemma {:induction false} SortedEnds(t: seq<real>, y: real)
    requires Sorted(t) && y in multiset(t)
    ensures t[0] <= y <= t[|t| - 1]
  {
    var j :| 0 <= j < |t| && t[j] == y;
  }

  /** Every value lies between the first and the last of the sorted values. */
  lemma {:induction false} SortBounds(s: seq<real>)
    requires |s| > 0
    ensures forall i :: 0 <= i < |s| ==> Sort(s)[0] <= s[i] <= Sort(s)[|s| - 1]
  {
    var t := Sort(s);
    forall i | 0 <= i < |s|
      ensures t[0] <= s[i] <= t[|s| - 1]
    {
      assert s[i] in multiset(s);
      SortedEnds(t, s[i]);
    }
  }

  // ---------------------------------------------------------------------
  // Quartile edges and binning

  /** numpy's 'linear' quantile at probability k/4 of ascending values: the
      virtual index (n - 1)k/4 split into its whole part and its fraction,
      interpolating between the two neighbouring values. */
  function QuartilePoint(s: seq<real>, k: int): real
    requires |s| > 0 && 0 <= k <= 4
  {
    var n := |s|;
    var h := (n - 1) * k;
    var lo := h / 4;
    assert h <= (n - 1) * 4;
    assert lo <= n - 1;
    if h % 4 == 0 then s[lo]
    else
      assert k < 4 && n > 1;
      assert h < (n - 1) * 4;
      s[lo] + ((h % 4) as real / 4.0) * (s[lo + 1] - s[lo])
  }

  /** An interpolated quantile of ascending values lies between the two
      values it interpolates. */
  lemma {:induction false} QuartilePointBetween(s: seq<real>, k: int)
    requires |s| > 0 && 0 <= k <= 4 && Sorted(s)
    ensures s[(|s| - 1) * k / 4] <= QuartilePoint(s, k)
    ensures (|s| - 1) * k / 4 < |s| - 1 ==> QuartilePoint(s, k) <= s[(|s| - 1) * k / 4 + 1]
  {
    var n := |s|;
    var h := (n - 1) * k;
    var lo := h / 4;
    assert 0 <= h <= (n - 1) * 4;
    assert 0 <= lo <= n - 1;
    if h % 4 == 0 {
      assert QuartilePoint(s, k) == s[lo];
      if lo < n - 1 {
        assert s[lo] <= s[lo + 1];
      }
    } else {
      assert lo < n - 1;
      var f := (h % 4) as real / 4.0;
      var d := s[lo + 1] - s[lo];
      assert QuartilePoint(s, k) == s[lo] + f * d;
      ScaleBetween(f, d);
      assert s[lo] + f * d <= s[lo] + d == s[lo + 1];
      assert QuartilePoint(s, k) <= s[(|s| - 1) * k / 4 + 1];
    }
  }

  lemma {:induction false} ScaleMonotone(f: real, f': real, d: real)
    requires f <= f' && 0.0 <= d
    ensures f * d <= f' * d
  {
    assert f' * d - f * d == (f' - f) * d;
  }

  lemma {:induction false} ScaleBetween(f: real, d: real)
    requires 0.0 <= f <= 1.0 && 0.0 <= d
    ensures 0.0 <= f * d <= d
  {
    assert d - f * d == (1.0 - f) * d;
  }

  /** Over ascending values the quantile at (k + 1)/4 is no lower than the
      one at k/4. */
  lemma {:induction false} QuartilePointStep(s: seq<real>, k: int)
    requires |s| > 0 && 0 <= k < 4 && Sorted(s)
    ensures QuartilePoint(s, k) <= QuartilePoint(s, k + 1)
  {
    var n := |s|;
    var h, h' := (n - 1) * k, (n - 1) * (k + 1);
    var lo, lo' := h / 4, h' / 4;
    assert h' == h + (n - 1);
    assert lo <= lo';
    QuartilePointBetween(s, k);
    QuartilePointBetween(s, k + 1);
    if lo < lo' {
      assert lo < n - 1;
      assert s[lo + 1] <= s[lo'];
    } else if h % 4 != 0 {
      assert h' % 4 == h % 4 + (n - 1);
      assert lo < n - 1;
      var d := s[lo + 1] - s[lo];
      var f, f' := (h % 4) as real / 4.0, (h' % 4) as real / 4.0;
      assert QuartilePoint(s, k) == s[lo] + f * d;
      assert QuartilePoint(s, k + 1) == s[lo] + f' * d;
      ScaleMonotone(f, f', d);
    }
  }

  /** Over ascending values the five quantile points ascend. */
  lemma {:induction false} QuartilePointsAscend(s: seq<real>)
    requires |s| > 0
    ensures Sorted(s) ==> QuartilePoint(s, 0) <= QuartilePoint(s, 1) <= QuartilePoint(s, 2)
                          <= QuartilePoint(s, 3) <= QuartilePoint(s, 4)
  {
    if Sorted(s) {
      QuartilePointStep(s, 0);
      QuartilePointStep(s, 1);
      QuartilePointStep(s, 2);
      QuartilePointStep(s, 3);
    }
  }

  /** The five bin edges at probabilities 0, 1/4, 1/2, 3/4 and 1. Over
      ascending values they ascend from the least value to the greatest. */
  function Edges(s: seq<real>): (e: seq<real>)
    requires |s| > 0
    ensures |e| == 5
    ensures e[0] == s[0] && e[4] == s[|s| - 1]
    ensures Sorted(s) ==> Sorted(e)
  {
    QuartilePointsAscend(s);
    [QuartilePoint(s, 0), QuartilePoint(s, 1), QuartilePoint(s, 2),
     QuartilePoint(s, 3), QuartilePoint(s, 4)]
  }

  /** Ascending edges with no repeats increase strictly. */
  lemma {:induction false} DistinctEdgesIncrease(e: seq<real>)
    requires |e| == 5 && Sorted(e) && NoDuplicates(e)
    ensures forall k :: 0 <= k < 4 ==> e[k] < e[k + 1]
  {
  }

  function Indicator(b: bool): int
  {
    if b then 1 else 0
  }

  /** The label position of `x`: `searchsorted(edges, x, side='left')`, the
      number of edges below `x`, with a value equal to the lowest edge moved
      into the first bin (`include_lowest=True`). */
  function BinIndex(e: seq<real>, x: real): int
    requires |e| == 5
  {
    if x == e[0] then 1
    else Indicator(e[0] < x) + Indicator(e[1] < x) + Indicator(e[2] < x)
         + Indicator(e[3] < x) + Indicator(e[4] < x)
  }

  /** A value between the lowest and the highest edge gets a label position
      from 1 to 4. */
  lemma {:induction false} BinIndexRange(e: seq<real>, x: real)
    requires |e| == 5 && e[0] <= x <= e[4]
    ensures 1 <= BinIndex(e, x) <= 4
  {
  }

  /** With strictly increasing edges the bins are right-closed: position b
      holds exactly the values above edge b - 1 and at most edge b, and the
      lowest edge itself. */
  lemma {:induction false} BinIndexRightClosed(e: seq<real>, x: real, b: int)
    requires |e| == 5 && e[0] <= x <= e[4]
    requires forall k :: 0 <= k < 4 ==> e[k] < e[k + 1]
    requires 1 <= b <= 4
    ensures BinIndex(e, x) == b <==> (e[b - 1] < x || (b == 1 && x == e[0])) && x <= e[b]
  {
  }

  /** Binning never reverses the order of two values. */
  lemma {:induction false} BinIndexMonotone(e: seq<real>, x: real, y: real)
    requires |e| == 5 && e[0] <= x <= y
    ensures BinIndex(e, x) <= BinIndex(e, y)
  {
  }

  /** Every value binned against the same edges. */
  function BinAll(e: seq<real>, x: seq<real>): (r: seq<int>)
    requires |e| == 5
    ensures |r| == |x|
    ensures forall i :: 0 <= i < |x| ==> r[i] == BinIndex(e, x[i])
  {
    seq(|x|, i requires 0 <= i < |x| => BinIndex(e, x[i]))
  }

  /** Every label position is one of the four quartiles. */
  predicate Labels(b: seq<int>)
  {
    forall i :: 0 <= i < |b| ==> 1 <= b[i] <= 4
  }

  /** Values between the lowest and the highest edge all get label
      positions 1 to 4. */
  lemma {:induction false} BinAllRange(e: seq<real>, x: seq<real>)
    requires |e| == 5
    requires forall i :: 0 <= i < |x| ==> e[0] <= x[i] <= e[4]
    ensures Labels(BinAll(e, x))
  {
    forall i | 0 <= i < |x|
      ensures 1 <= BinAll(e, x)[i] <= 4
    {
      BinIndexRange(e, x[i]);
    }
  }

  /** A single value gives five equal edges. */
  lemma {:induction false} SingletonEdges(x: seq<real>)
    ensures |x| == 1 ==> !NoDuplicates(Edges(Sort(x)))
  {
    if |x| == 1 {
      var e := Edges(Sort(x));
      assert e[0] == e[1];
    }
  }

  /** `pd.qcut(x, q=4)` giving each value's label position, or `None` where
      pandas raises `ValueError`: no values, or two edges equal, which is
      always the case for a single value. A result labels every value with
      a quartile 1 to 4. */
  function Qcut(x: seq<real>): (r: Option<seq<int>>)
    ensures r.Some? ==> |x| >= 2 && |r.value| == |x| && Labels(r.value)
  {
    if |x| == 0 then None
    else
      var e := Edges(Sort(x));
      if !NoDuplicates(e) then None
      else
        SortBounds(x);
        BinAllRange(e, x);
        SingletonEdges(x);
        Some(BinAll(e, x))
  }

  // ---------------------------------------------------------------------
  // rank(method='first')

  /** How many values are below `x`. */
  function CountLess(s: seq<real>, x: real): nat
  {
    if |s| == 0 then 0
    else CountLess(s[..|s| - 1], x) + Indicator(s[|s| - 1] < x)
  }

  /** How many values equal `x`. */
  function CountEqual(s: seq<real>, x: real): nat
  {
    if |s| == 0 then 0
    else CountEqual(s[..|s| - 1], x) + Indicator(s[|s| - 1] == x)
  }

  /** The 1-based rank of `s[i]` with ties broken by position: one more than
      the number of smaller values and of equal values that come earlier. */
  function Rank(s: seq<real>, i: nat): int
    requires i < |s|
  {
    1 + CountLess(s, s[i]) + CountEqual(s[..i], s[i])
  }

  /** `Series.rank(method='first')`: positions 1 to n. */
  function RankFirst(s: seq<real>): (r: seq<int>)
    ensures |r| == |s|
    ensures forall i :: 0 <= i < |s| ==> r[i] == Rank(s, i)
    ensures forall i :: 0 <= i < |s| ==> 1 <= r[i] <= |s|
  {
    RanksInRange(s);
    seq(|s|, i requires 0 <= i < |s| => Rank(s, i))
  }

  lemma {:induction false} RanksInRange(s: seq<real>)
    ensures forall i :: 0 <= i < |s| ==> 1 <= Rank(s, i) <= |s|
  {
    forall i | 0 <= i < |s|
      ensures 1 <= Rank(s, i) <= |s|
    {
      RankRange(s, i);
    }
  }

  lemma {:induction false} CountsWithinLength(s: seq<real>, x: real)
    ensures CountLess(s, x) + CountEqual(s, x) <= |s|
  {
    if |s| > 0 {
      CountsWithinLength(s[..|s| - 1], x);
    }
  }

  /** A larger threshold counts every smaller and every equal value below it. */
  lemma {:induction false} CountLessStep(s: seq<real>, x: real, y: real)
    requires x < y
    ensures CountLess(s, x) + CountEqual(s, x) <= CountLess(s, y)
  {
    if |s| > 0 {
      CountLessStep(s[..|s| - 1], x, y);
    }
  }

  /** Counting equal values over a longer prefix never counts fewer, and
      counts more once the prefix passes an occurrence. */
  lemma {:induction false} CountEqualPrefix(s: seq<real>, i: nat, j: nat, x: real)
    requires i <= j <= |s|
    ensures CountEqual(s[..i], x) <= CountEqual(s[..j], x)
    ensures i < j && s[i] == x ==> CountEqual(s[..i], x) < CountEqual(s[..j], x)
    decreases j - i
  {
    if i < j {
      CountEqualPrefix(s, i, j - 1, x);
      assert s[..j][..j - 1] == s[..j - 1];
      if i == j - 1 && s[i] == x {
        assert CountEqual(s[..j], x) == CountEqual(s[..i], x) + 1;
      }
    }
  }

  /** Ranks run from 1 to n. */
  lemma {:induction false} RankRange(s: seq<real>, i: nat)
    requires i < |s|
    ensures 1 <= Rank(s, i) <= |s|
  {
    CountsWithinLength(s, s[i]);
    CountEqualPrefix(s, i, |s|, s[i]);
    assert s[..|s|] == s;
  }

  /** A smaller value, or an equal value further up, gets the smaller rank. */
  lemma {:induction false} RankOrder(s: seq<real>, i: nat, j: nat)
    requires i < |s| && j < |s|
    requires s[i] < s[j] || (s[i] == s[j] && i < j)
    ensures Rank(s, i) < Rank(s, j)
  {
    if s[i] < s[j] {
      CountLessStep(s, s[i], s[j]);
      CountEqualPrefix(s, i, |s|, s[i]);
      assert s[..|s|] == s;
    } else {
      CountEqualPrefix(s, i, j, s[i]);
    }
  }

  // ---------------------------------------------------------------------
  // qcut on the ranks

  function ToReals(s: seq<int>): (r: seq<real>)
    ensures |r| == |s|
    ensures forall i :: 0 <= i < |s| ==> r[i] == s[i] as real
  {
    Map(s, (k: int) => k as real)
  }

  /** 1.0, 2.0, ..., n: the ranks in ascending order. */
  function Iota(n: nat): (r: seq<real>)
    ensures |r| == n
    ensures forall i :: 0 <= i < n ==> r[i] == (i + 1) as real
  {
    seq(n, i requires 0 <= i < n => (i + 1) as real)
  }

  /** Different positions get different ranks. */
  lemma {:induction false} RanksDistinct(s: seq<real>)
    ensures NoDuplicates(ToReals(RankFirst(s)))
  {
    var x := ToReals(RankFirst(s));
    forall i, j | 0 <= i < j < |x|
      ensures x[i] != x[j]
    {
      if s[j] < s[i] {
        RankOrder(s, j, i);
      } else {
        RankOrder(s, i, j);
      }
    }
  }

  /** The ranks are a permutation of 1..n. */
  lemma {:induction false} RanksPermuteIota(s: seq<real>)
    ensures multiset(ToReals(RankFirst(s))) == multiset(Iota(|s|))
  {
    var x := ToReals(RankFirst(s));
    var y := Iota(|s|);
    RanksDistinct(s);
    forall i | 0 <= i < |x|
      ensures x[i] in y
    {
      var r := RankFirst(s)[i];
      assert y[r - 1] == x[i];
    }
    SameElementsSameMultiset(x, y);
  }

  /** Sorting the ranks gives 1, 2, ..., n. */
  lemma {:induction false} SortedRanks(s: seq<real>)
    ensures Sort(ToReals(RankFirst(s))) == Iota(|s|)
  {
    RanksPermuteIota(s);
    SortedUnique(Sort(ToReals(RankFirst(s))), Iota(|s|));
  }

  /** The k-th quartile edge of the ranks 1..n: 1 + (n - 1)k/4. */
  function RankEdge(n: int, k: int): real
  {
    1.0 + ((n - 1) * k) as real / 4.0
  }

  lemma {:induction false} IotaQuartile(n: nat, k: int)
    requires n >= 1 && 0 <= k <= 4
    ensures QuartilePoint(Iota(n), k) == RankEdge(n, k)
  {
    var h := (n - 1) * k;
    var lo := h / 4;
    assert h == 4 * lo + h % 4;
    assert h as real == 4.0 * lo as real + (h % 4) as real;
  }

  /** The label position of rank r among n ranks in integers: the bin b with
      (n - 1)(b - 1) < 4(r - 1) <= (n - 1)b, rank 1 going to the first bin. */
  function RankBin(n: int, r: int): (b: int)
    requires n >= 2 && 1 <= r <= n
    ensures 1 <= b <= 4
    ensures r == 1 ==> b == 1
    ensures r > 1 ==> (n - 1) * (b - 1) < 4 * (r - 1) <= (n - 1) * b
  {
    if 4 * (r - 1) <= n - 1 then 1
    else if 4 * (r - 1) <= 2 * (n - 1) then 2
    else if 4 * (r - 1) <= 3 * (n - 1) then 3
    else 4
  }

  lemma {:induction false} EdgeBelowRank(n: int, k: int, r: int)
    ensures RankEdge(n, k) < r as real <==> (n - 1) * k < 4 * (r - 1)
  {
    var m := (n - 1) * k;
    assert RankEdge(n, k) < r as real <==> m as real < (4 * (r - 1)) as real;
  }

  /** Binning rank r against the rank edges gives `RankBin`. */
  lemma {:induction false} BinOfRank(n: int, r: int)
    requires n >= 2 && 1 <= r <= n
    ensures BinIndex(Edges(Iota(n)), r as real) == RankBin(n, r)
  {
    var e := Edges(Iota(n));
    forall k | 0 <= k <= 4
      ensures e[k] == RankEdge(n, k)
    {
      IotaQuartile(n, k);
    }
    EdgeBelowRank(n, 0, r);
    EdgeBelowRank(n, 1, r);
    EdgeBelowRank(n, 2, r);
    EdgeBelowRank(n, 3, r);
    EdgeBelowRank(n, 4, r);
  }

  /** A higher rank never falls in a lower bin. */
  lemma {:induction false} RankBinsFollowOrder(s: seq<real>)
    requires |s| >= 2
    ensures forall i, j :: 0 <= i < |s| && 0 <= j < |s| && (s[i] < s[j] || (s[i] == s[j] && i < j)) ==>
              RankBin(|s|, RankFirst(s)[i]) <= RankBin(|s|, RankFirst(s)[j])
  {
    forall i, j | 0 <= i < |s| && 0 <= j < |s| && (s[i] < s[j] || (s[i] == s[j] && i < j))
      ensures RankBin(|s|, RankFirst(s)[i]) <= RankBin(|s|, RankFirst(s)[j])
    {
      RankOrder(s, i, j);
    }
  }

  /** Labels of the fallback, in integers: the bin of each value's rank.
      A smaller value, or an equal value earlier in the column, never gets
      a higher label. */
  function FallbackBins(s: seq<real>): (r: seq<int>)
    requires |s| >= 2
    ensures |r| == |s|
    ensures forall i :: 0 <= i < |s| ==> 1 <= r[i] <= 4
    ensures forall i, j :: 0 <= i < |s| && 0 <= j < |s| && (s[i] < s[j] || (s[i] == s[j] && i < j)) ==> r[i] <= r[j]
  {
    RankBinsFollowOrder(s);
    seq(|s|, i requires 0 <= i < |s| => RankBin(|s|, RankFirst(s)[i]))
  }

  lemma {:induction false} RankEdgesIncrease(n: int, i: int, j: int)
    requires n >= 2 && i < j
    ensures RankEdge(n, i) < RankEdge(n, j)
  {
    assert (n - 1) * i < (n - 1) * j;
  }

  lemma {:induction false} RankEdgesDistinct(n: int)
    requires n >= 2
    ensures Edges(Iota(n)) == [RankEdge(n, 0), RankEdge(n, 1), RankEdge(n, 2), RankEdge(n, 3), RankEdge(n, 4)]
    ensures NoDuplicates(Edges(Iota(n)))
  {
    IotaQuartile(n, 0);
    IotaQuartile(n, 1);
    IotaQuartile(n, 2);
    IotaQuartile(n, 3);
    IotaQuartile(n, 4);
    var e := Edges(Iota(n));
    forall i, j | 0 <= i < j < 5
      ensures e[i] != e[j]
    {
      RankEdgesIncrease(n, i, j);
    }
  }

  /** Where `qcut` succeeds, a value's label position is its bin: position
      b holds exactly the values above edge b - 1 and at most edge b, and
      the lowest edge goes to position 1. */
  lemma {:induction false} QcutLabels(x: seq<real>, i: nat, b: int)
    requires Qcut(x).Some? && i < |x| && 1 <= b <= 4
    ensures var e := Edges(Sort(x));
            Qcut(x).value[i] == b <==> (e[b - 1] < x[i] || (b == 1 && x[i] == e[0])) && x[i] <= e[b]
  {
    var e := Edges(Sort(x));
    assert Qcut(x).value == BinAll(e, x);
    DistinctEdgesIncrease(e);
    SortBounds(x);
    BinIndexRightClosed(e, x[i], b);
  }

  /** For n >= 2, `qcut` of the ranks succeeds and puts rank r in `RankBin`:
      its edges 1 + (n - 1)k/4 are distinct. */
  lemma {:induction false} QcutOfRanks(s: seq<real>)
    requires |s| >= 2
    ensures Qcut(ToReals(RankFirst(s))) == Some(FallbackBins(s))
  {
    var n := |s|;
    var x := ToReals(RankFirst(s));
    SortedRanks(s);
    RankEdgesDistinct(n);
    var e := Edges(Iota(n));
    var q := BinAll(e, x);
    assert Qcut(x) == Some(q);
    forall i | 0 <= i < n
      ensures q[i] == FallbackBins(s)[i]
    {
      BinOfRank(n, RankFirst(s)[i]);
    }
    assert q == FallbackBins(s);
  }

  /** With four or more values every one of the four fallback bins is used. */
  lemma {:induction false} FallbackFillsEveryBin(s: seq<real>, b: int)
    requires |s| >= 4 && 1 <= b <= 4
    ensures exists i :: 0 <= i < |s| && FallbackBins(s)[i] == b
  {
    var n := |s|;
    var r := if b == 1 then 1 else (n - 1) * b / 4 + 1;
    if b > 1 {
      var m := (n - 1) * b;
      assert 4 * (r - 1) <= m;
      assert m - 3 <= 4 * (r - 1);
      if n == 4 {
        assert (n - 1) * (b - 1) < 4 * (r - 1);
      } else {
        assert (n - 1) * (b - 1) == m - (n - 1);
      }
      assert r <= n;
      RankBinUnique(n, r, b);
    }
    RanksPermuteIota(s);
    var x := ToReals(RankFirst(s));
    assert Iota(n)[r - 1] in multiset(x);
    var i :| 0 <= i < n && x[i] == r as real;
    assert FallbackBins(s)[i] == b;
  }

  /** Dividing out a positive factor keeps a strict order. */
  lemma {:induction false} CancelFactor(a: int, x: int, y: int)
    requires a > 0 && a * x < a * y
    ensures x < y
  {
    assert a * (y - x) == a * y - a * x;
  }

  /** Only one bin satisfies the right-closed inequality for a rank. */
  lemma {:induction false} RankBinUnique(n: int, r: int, b: int)
    requires n >= 2 && 1 < r <= n && 1 <= b <= 4
    requires (n - 1) * (b - 1) < 4 * (r - 1) <= (n - 1) * b
    ensures RankBin(n, r) == b
  {
    var c := RankBin(n, r);
    CancelFactor(n - 1, c - 1, b);
    CancelFactor(n - 1, b - 1, c);
  }

  // ---------------------------------------------------------------------
  // The scoring column of calculate_rfm

  /** With fewer than two values both `qcut` attempts raise; with two or
      more the rank fallback always succeeds. */
  lemma {:induction false} QcutAttempts(values: seq<real>)
    ensures |values| < 2 ==> Qcut(values).None? && Qcut(ToReals(RankFirst(values))).None?
    ensures |values| >= 2 ==> Qcut(ToReals(RankFirst(values))).Some?
    ensures Qcut(values).Some? ==> Labels(Qcut(values).value)
    ensures Qcut(ToReals(RankFirst(values))).Some? ==> Labels(Qcut(ToReals(RankFirst(values))).value)
  {
    if |values| >= 2 {
      QcutOfRanks(values);
    }
  }

  /** `pd.qcut(values, 4)`, falling back to `pd.qcut(values.rank(method='first'), 4)`
      when the first raises; a result exists exactly when there are at least
      two values. */
  function QuartileBins(values: seq<real>): (r: Option<seq<int>>)
    ensures r.Some? <==> |values| >= 2
    ensures r.Some? ==> |r.value| == |values|
    ensures r.Some? ==> Labels(r.value)
  {
    QcutAttempts(values);
    match Qcut(values)
    case Some(bins) => Some(bins)
    case None => Qcut(ToReals(RankFirst(values)))
  }

  /** Binning keeps the order of the values: a smaller value never gets a
      higher label position, on the value path and on the rank path alike;
      equal values keep their row order on the rank path. */
  lemma {:induction false} QuartileBinsMonotone(values: seq<real>, i: nat, j: nat)
    requires QuartileBins(values).Some?
    requires i < |values| && j < |values|
    requires values[i] < values[j] || (values[i] == values[j] && i < j)
    ensures QuartileBins(values).value[i] <= QuartileBins(values).value[j]
  {
    if Qcut(values).Some? {
      QcutMonotone(values, i, j);
    } else {
      var x := ToReals(RankFirst(values));
      RankOrder(values, i, j);
      QcutMonotone(x, i, j);
    }
  }

  lemma {:induction false} QcutMonotone(x: seq<real>, i: nat, j: nat)
    requires Qcut(x).Some?
    requires i < |x| && j < |x| && x[i] <= x[j]
    ensures Qcut(x).value[i] <= Qcut(x).value[j]
  {
    var e := Edges(Sort(x));
    assert Qcut(x).value == BinAll(e, x);
    SortBounds(x);
    BinIndexMonotone(e, x[i], x[j]);
  }
}
