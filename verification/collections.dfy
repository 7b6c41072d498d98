/** Sequence helpers shared by every part of the model: the optional value that
    stands for a missing cell, pandas' `drop_duplicates` (keep the first
    occurrence), row filtering and derived columns. */
module Collections {

  /** A cell that may be missing (pandas NaN / NaT, SQL NULL). */
  datatype Option<T> = None | Some(value: T)

  predicate NoDuplicates<T(==)>(s: seq<T>)
  {
    forall i, j :: 0 <= i < j < |s| ==> s[i] != s[j]
  }

  /** Removing one position from a duplicate-free sequence leaves it
      duplicate-free and drops exactly that element. */
  lemma {:induction false} RemoveAt<T>(b: seq<T>, j: nat)
    requires j < |b| && NoDuplicates(b)
    ensures NoDuplicates(b[..j] + b[j + 1..])
    ensures forall x :: x in b && x != b[j] ==> x in b[..j] + b[j + 1..]
    ensures multiset(b) == multiset(b[..j] + b[j + 1..]) + multiset{b[j]}
  {
    var c := b[..j] + b[j + 1..];
    assert forall k :: 0 <= k < |c| ==> c[k] == (if k < j then b[k] else b[k + 1]);
    forall x | x in b && x != b[j]
      ensures x in c
    {
      var k :| 0 <= k < |b| && b[k] == x;
      if k < j {
        assert c[k] == x;
      } else {
        assert c[k - 1] == x;
      }
    }
    assert b == b[..j] + [b[j]] + b[j + 1..];
  }

  /** Pigeonhole: a duplicate-free sequence whose elements all occur in
      another duplicate-free sequence of the same length holds the same
      elements, each once. */
  lemma {:induction false} SameElementsSameMultiset<T>(a: seq<T>, b: seq<T>)
    requires NoDuplicates(a) && NoDuplicates(b) && |a| == |b|
    requires forall i :: 0 <= i < |a| ==> a[i] in b
    ensures multiset(a) == multiset(b)
  {
    if |a| > 0 {
      var n := |a| - 1;
      var x := a[n];
      var j :| 0 <= j < |b| && b[j] == x;
      var a', b' := a[..n], b[..j] + b[j + 1..];
      RemoveAt(b, j);
      forall i | 0 <= i < |a'|
        ensures a'[i] in b'
      {
        assert a[i] != x;
      }
      SameElementsSameMultiset(a', b');
      assert a == a' + [x];
    }
  }

  /** Position of the first occurrence of `x` in `s`. */
  function FirstIndex<T(==)>(s: seq<T>, x: T): (i: nat)
    requires x in s
    ensures i < |s| && s[i] == x
    ensures forall j :: 0 <= j < i ==> s[j] != x
  {
    if s[0] == x then 0 else 1 + FirstIndex(s[1..], x)
  }

  lemma {:induction false} FirstIndexInPrefix<T>(s: seq<T>, k: nat, x: T)
    requires k <= |s| && x in s[..k]
    ensures FirstIndex(s, x) == FirstIndex(s[..k], x)
  {
    var a, b := FirstIndex(s, x), FirstIndex(s[..k], x);
    assert s[b] == x;
    assert a <= b;
    assert s[..k][a] == x;
  }

  /** The elements of `s` with every repetition after the first removed, in the
      order of their first occurrence (pandas `drop_duplicates`, `keep='first'`). */
  function Distinct<T(==, !new)>(s: seq<T>): (r: seq<T>)
    ensures NoDuplicates(r)
    ensures forall x :: x in r <==> x in s
    ensures |r| <= |s|
  {
    if |s| == 0 then []
    else
      var p := Distinct(s[..|s| - 1]);
      assert s == s[..|s| - 1] + [s[|s| - 1]];
      if s[|s| - 1] in p then p else p + [s[|s| - 1]]
  }

  /** A duplicate-free sequence has one element per distinct value. */
  lemma {:induction false} NoDuplicatesCard<T>(s: seq<T>)
    requires NoDuplicates(s)
    ensures |set x | x in s| == |s|
  {
    if |s| > 0 {
      var n := |s| - 1;
      NoDuplicatesCard(s[..n]);
      assert s == s[..n] + [s[n]];
      assert (set x | x in s) == (set x | x in s[..n]) + {s[n]};
    }
  }

  /** Two columns holding the same values have equally many distinct values. */
  lemma {:induction false} DistinctSameValues<T(!new)>(a: seq<T>, b: seq<T>)
    requires forall x :: x in a <==> x in b
    ensures |Distinct(a)| == |Distinct(b)|
  {
    NoDuplicatesCard(Distinct(a));
    NoDuplicatesCard(Distinct(b));
    assert (set x | x in Distinct(a)) == (set x | x in Distinct(b));
  }

  /** `Distinct` lists the values in the order in which they first appear. */
  lemma {:induction false} DistinctKeepsFirstOccurrenceOrder<T(!new)>(s: seq<T>)
    ensures forall i, j :: 0 <= i < j < |Distinct(s)| ==>
              FirstIndex(s, Distinct(s)[i]) < FirstIndex(s, Distinct(s)[j])
  {
    if |s| > 0 {
      var n := |s| - 1;
      var t := s[..n];
      var p := Distinct(t);
      var d := Distinct(s);
      DistinctKeepsFirstOccurrenceOrder(t);
      forall x | x in p
        ensures FirstIndex(s, x) == FirstIndex(t, x) < n
      {
        FirstIndexInPrefix(s, n, x);
      }
      if s[n] in p {
        assert d == p;
      } else {
        assert d == p + [s[n]];
        assert s[n] !in t;
        assert FirstIndex(s, s[n]) == n;
        forall i, j | 0 <= i < j < |d|
          ensures FirstIndex(s, d[i]) < FirstIndex(s, d[j])
        {
          assert d[i] == p[i];
          if j < |p| {
            assert d[j] == p[j];
          }
        }
      }
    }
  }

  /** The rows of `s` that satisfy `p`, in their original order. */
  function Filter<T(!new)>(s: seq<T>, p: T -> bool): (r: seq<T>)
    ensures |r| <= |s|
    ensures forall x :: x in r <==> x in s && p(x)
  {
    if |s| == 0 then []
    else
      var q := Filter(s[..|s| - 1], p);
      assert s == s[..|s| - 1] + [s[|s| - 1]];
      if p(s[|s| - 1]) then q + [s[|s| - 1]] else q
  }

  /** Filtering commutes with concatenation: the kept rows stay in order. */
  lemma {:induction false} FilterConcat<T(!new)>(a: seq<T>, b: seq<T>, p: T -> bool)
    ensures Filter(a + b, p) == Filter(a, p) + Filter(b, p)
  {
    if |b| > 0 {
      var b' := b[..|b| - 1];
      assert (a + b)[..|a + b| - 1] == a + b';
      FilterConcat(a, b', p);
    } else {
      assert a + b == a;
    }
  }

  /** A derived column: `f` applied to every row. */
  function Map<T, U>(s: seq<T>, f: T -> U): (r: seq<U>)
    ensures |r| == |s|
    ensures forall i :: 0 <= i < |s| ==> r[i] == f(s[i])
  {
    seq(|s|, i requires 0 <= i < |s| => f(s[i]))
  }

  /** The distinct values of a derived column are exactly the values the
      rows produce. */
  lemma {:induction false} DistinctColumn<T, U(!new)>(s: seq<T>, f: T -> U)
    ensures forall i :: 0 <= i < |s| ==> f(s[i]) in Distinct(Map(s, f))
    ensures forall y :: y in Distinct(Map(s, f)) ==> exists i :: 0 <= i < |s| && f(s[i]) == y
  {
    var col := Map(s, f);
    forall i | 0 <= i < |s|
      ensures f(s[i]) in Distinct(col)
    {
      assert col[i] == f(s[i]);
    }
    forall y | y in Distinct(col)
      ensures exists i :: 0 <= i < |s| && f(s[i]) == y
    {
      var i :| 0 <= i < |col| && col[i] == y;
    }
  }
}
