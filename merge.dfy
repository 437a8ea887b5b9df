/** The merge step: `set_index("timestamp")` followed by
    `sort_index(inplace=True)` reorders the combined table, in place, by
    ascending timestamp. */
module Merge {
  import opened Energy

  predicate SortedByTime(s: seq<Row>)
  {
    forall i, j :: 0 <= i < j < |s| ==> s[i].timestamp <= s[j].timestamp
  }

  /** Exchanges the rows at `j - 1` and `j`. */
  method Swap(a: array<Row>, j: int)
    requires 0 < j < a.Length
    modifies a
    ensures a[..] == old(a[..])[j - 1 := old(a[j])][j := old(a[j - 1])]
    ensures multiset(a[..]) == multiset(old(a[..]))
  {
    a[j - 1], a[j] := a[j], a[j - 1];
  }

  /** One pass of insertion: the row at `i` moves left past every earlier
      row with a later timestamp, so that `a[..i + 1]` is in order. A row
      already in place is not moved. */
  method Sift(a: array<Row>, i: int)
    requires 0 < i < a.Length
    requires SortedByTime(a[..i])
    modifies a
    ensures SortedByTime(a[..i + 1])
    ensures a[i + 1..] == old(a[i + 1..])
    ensures multiset(a[..]) == multiset(old(a[..]))
    ensures old(a[i - 1].timestamp <= a[i].timestamp) ==> a[..] == old(a[..])
  {
    var j := i;
    while j > 0 && a[j - 1].timestamp > a[j].timestamp
      invariant 0 <= j <= i
      invariant forall p, q :: 0 <= p < q <= i && p != j && q != j ==> a[p].timestamp <= a[q].timestamp
      invariant forall q :: j < q <= i ==> a[j].timestamp < a[q].timestamp
      invariant a[i + 1..] == old(a[i + 1..])
      invariant multiset(a[..]) == multiset(old(a[..]))
      invariant old(a[i - 1].timestamp <= a[i].timestamp) ==> a[..] == old(a[..]) && j == i
    {
      Swap(a, j);
      j := j - 1;
    }
  }

  /** Sorts the table in place by ascending timestamp. The rows are only
      reordered, and a table already in order is left exactly as it was. */
  method SortIndex(a: array<Row>)
    modifies a
    ensures SortedByTime(a[..])
    ensures multiset(a[..]) == multiset(old(a[..]))
    ensures SortedByTime(old(a[..])) ==> a[..] == old(a[..])
  {
    if a.Length == 0 {
      return;
    }
    var i := 1;
    while i < a.Length
      invariant 1 <= i <= a.Length
      invariant SortedByTime(a[..i])
      invariant multiset(a[..]) == multiset(old(a[..]))
      invariant SortedByTime(old(a[..])) ==> a[..] == old(a[..])
    {
      Sift(a, i);
      i := i + 1;
    }
    assert a[..] == a[..a.Length];
  }

  /** The merged dataset: the combined rows as a table sorted in place. */
  method MergeRows(rows: seq<Row>) returns (merged: seq<Row>)
    ensures SortedByTime(merged)
    ensures multiset(merged) == multiset(rows)
    ensures SortedByTime(rows) ==> merged == rows
  {
    var a := new Row[|rows|](i requires 0 <= i < |rows| => rows[i]);
    assert a[..] == rows;
    SortIndex(a);
    merged := a[..];
  }

  /** The timestamp column of a table. */
  function Timeline(s: seq<Row>): (t: seq<int>)
    ensures |t| == |s| && forall k :: 0 <= k < |s| ==> t[k] == s[k].timestamp
  {
    seq(|s|, k requires 0 <= k < |s| => s[k].timestamp)
  }

  predicate SameTimeline(s: seq<Row>, t: seq<Row>)
  {
    Timeline(s) == Timeline(t)
  }

  lemma TimelineAppend(a: seq<Row>, b: seq<Row>)
    ensures Timeline(a + b) == Timeline(a) + Timeline(b)
  {
  }

  /** Taking one row out of a table takes its timestamp out of the timeline. */
  lemma TimelineRemove(t: seq<Row>, m: nat)
    requires m < |t|
    ensures multiset(Timeline(t)) == multiset(Timeline(t[..m] + t[m + 1..])) + multiset{t[m].timestamp}
  {
    var t1, t2 := t[..m], t[m + 1..];
    assert t == t1 + [t[m]] + t2;
    TimelineAppend(t1 + [t[m]], t2);
    TimelineAppend(t1, [t[m]]);
    TimelineAppend(t1, t2);
  }

  lemma MultisetRemove(t: seq<Row>, m: nat)
    requires m < |t|
    ensures multiset(t[..m] + t[m + 1..]) == multiset(t) - multiset{t[m]}
  {
    assert t == t[..m] + [t[m]] + t[m + 1..];
  }

  lemma {:induction false} TimelinePermutation(s: seq<Row>, t: seq<Row>)
    requires multiset(s) == multiset(t)
    ensures multiset(Timeline(s)) == multiset(Timeline(t))
  {
    if s == [] {
      assert |t| == |multiset(t)| == 0;
    } else {
      var n := |s| - 1;
      var x := s[n];
      assert x in multiset(t);
      var m :| 0 <= m < |t| && t[m] == x;
      var s', t' := s[..n] + s[n + 1..], t[..m] + t[m + 1..];
      assert multiset(s') == multiset(t') by {
        MultisetRemove(s, n);
        MultisetRemove(t, m);
      }
      TimelinePermutation(s', t');
      TimelineRemove(s, n);
      TimelineRemove(t, m);
    }
  }

  predicate Ascending(u: seq<int>)
  {
    forall i, j :: 0 <= i < j < |u| ==> u[i] <= u[j]
  }

  /** Two ascending orders of the same values end with the same value. */
  lemma SameLast(u: seq<int>, v: seq<int>)
    requires Ascending(u) && Ascending(v)
    requires multiset(u) == multiset(v) && u != []
    ensures |u| == |v| && u[|u| - 1] == v[|v| - 1]
  {
    assert |u| == |multiset(u)| == |v|;
    var n := |u| - 1;
    assert u[n] in multiset(v);
    var k :| 0 <= k < |v| && v[k] == u[n];
    assert v[n] in multiset(u);
    var l :| 0 <= l < |u| && u[l] == v[n];
  }

  lemma DropLast(u: seq<int>)
    requires u != []
    ensures multiset(u[..|u| - 1]) == multiset(u) - multiset{u[|u| - 1]}
  {
    assert u == u[..|u| - 1] + [u[|u| - 1]];
  }

  lemma AscendingPrefix(u: seq<int>, n: nat)
    requires Ascending(u) && n <= |u|
    ensures Ascending(u[..n])
  {
  }

  lemma SameInitAndLast(u: seq<int>, v: seq<int>)
    requires |u| == |v| > 0
    requires u[..|u| - 1] == v[..|v| - 1] && u[|u| - 1] == v[|v| - 1]
    ensures u == v
  {
    assert u == u[..|u| - 1] + [u[|u| - 1]];
    assert v == v[..|v| - 1] + [v[|v| - 1]];
  }

  lemma {:induction false} SortedIntsAgree(u: seq<int>, v: seq<int>)
    requires Ascending(u) && Ascending(v)
    requires multiset(u) == multiset(v)
    ensures u == v
  {
    if u != [] {
      SameLast(u, v);
      var n := |u| - 1;
      assert multiset(u[..n]) == multiset(v[..n]) by {
        DropLast(u);
        DropLast(v);
      }
      AscendingPrefix(u, n);
      AscendingPrefix(v, n);
      SortedIntsAgree(u[..n], v[..n]);
      SameInitAndLast(u, v);
    }
  }

  /** Any two sorted orders of the same rows have the same timestamp at every
      position: the merged index does not depend on how ties are broken. */
  lemma SortedPermutationsAgree(s: seq<Row>, t: seq<Row>)
    requires SortedByTime(s) && SortedByTime(t)
    requires multiset(s) == multiset(t)
    ensures SameTimeline(s, t)
  {
    TimelinePermutation(s, t);
    SortedIntsAgree(Timeline(s), Timeline(t));
  }
}
