/** Task 2 of the pipeline: daily and weekly kWh totals over the merged
    dataset (`resample("D")` / `resample("W")` then `sum`), and the
    per-building `{mean, min, max, sum}` table (`groupby("building")`). */
module Aggregation {
  import opened Energy
  import opened Merge
  import opened StringOrder

  // ---------------------------------------------------------------------
  // Time bins

  /** One resampled period: its bin number and the kWh summed into it. */
  datatype Bucket = Bucket(period: int, total: int)

  const SecondsPerDay := 86400

  /** The day a timestamp falls in, counted from 1970-01-01 (day 0); days
      start at midnight. */
  function DayOf(ts: int): (d: int)
    ensures d * SecondsPerDay <= ts < (d + 1) * SecondsPerDay
  {
    ts / SecondsPerDay
  }

  /** The week a timestamp falls in, named by the Sunday that ends it, as
      pandas' `"W"` (`"W-SUN"`) names weeks. Day 3, 1970-01-04, is a Sunday,
      so Sundays are the days congruent to 3 modulo 7. */
  function WeekOf(ts: int): (w: int)
    ensures w % 7 == 3
    ensures DayOf(ts) <= w <= DayOf(ts) + 6
  {
    7 * ((DayOf(ts) + 3) / 7) + 3
  }

  /** A bin function never puts a later time in an earlier bin. */
  ghost predicate Monotone(bin: int -> int)
  {
    forall x, y :: x <= y ==> bin(x) <= bin(y)
  }

  lemma DayOfMonotone()
    ensures Monotone(DayOf)
  {
    forall x: int, y: int | x <= y ensures DayOf(x) <= DayOf(y) {
      var dx, dy := DayOf(x), DayOf(y);
      assert dx * SecondsPerDay <= x <= y < (dy + 1) * SecondsPerDay;
    }
  }

  lemma WeekOfMonotone()
    ensures Monotone(WeekOf)
  {
    DayOfMonotone();
    forall x: int, y: int | x <= y ensures WeekOf(x) <= WeekOf(y) {
      var dx, dy := DayOf(x), DayOf(y);
      assert dx <= dy;
      assert (dx + 3) / 7 <= (dy + 3) / 7;
    }
  }

  /** One reading of kWh `kwh` in bin `k` arriving after the buckets `bs`:
      it is added to the last bucket when that is bin `k`, and opens a new
      bucket otherwise. */
  function Absorb(bs: seq<Bucket>, k: int, kwh: int): (r: seq<Bucket>)
    ensures r != [] && r[|r| - 1].period == k
  {
    if bs != [] && bs[|bs| - 1].period == k then
      bs[..|bs| - 1] + [Bucket(k, bs[|bs| - 1].total + kwh)]
    else
      bs + [Bucket(k, kwh)]
  }

  /** Resampling `rows` into the bins `bin` gives their timestamps: the
      readings are absorbed one after the other. */
  function BinTotals(rows: seq<Row>, bin: int -> int): (b: seq<Bucket>)
    ensures |b| <= |rows|
    ensures rows != [] ==> b != [] && b[|b| - 1].period == bin(rows[|rows| - 1].timestamp)
  {
    if rows == [] then []
    else
      var x := rows[|rows| - 1];
      Absorb(BinTotals(rows[..|rows| - 1], bin), bin(x.timestamp), x.kwh)
  }

  /** `calculate_daily_totals`. */
  function DailyTotals(rows: seq<Row>): seq<Bucket>
  {
    BinTotals(rows, DayOf)
  }

  /** `calculate_weekly_aggregates`. */
  function WeeklyTotals(rows: seq<Row>): seq<Bucket>
  {
    BinTotals(rows, WeekOf)
  }

  /** `.sum()` of a resampled series. */
  function SumBuckets(bs: seq<Bucket>): int
  {
    if bs == [] then 0 else SumBuckets(bs[..|bs| - 1]) + bs[|bs| - 1].total
  }

  function Periods(bs: seq<Bucket>): set<int>
  {
    set b | b in bs :: b.period
  }

  /** The bins that hold at least one row. */
  function BinsOf(rows: seq<Row>, bin: int -> int): set<int>
  {
    set r | r in rows :: bin(r.timestamp)
  }

  /** The rows that fall in bin `k`, in order. */
  function InBin(rows: seq<Row>, bin: int -> int, k: int): (g: seq<Row>)
    ensures forall r :: r in g <==> r in rows && bin(r.timestamp) == k
  {
    if rows == [] then []
    else
      var x := rows[|rows| - 1];
      InBin(rows[..|rows| - 1], bin, k) + (if bin(x.timestamp) == k then [x] else [])
  }

  predicate StrictlyIncreasing(bs: seq<Bucket>)
  {
    forall i, j :: 0 <= i < j < |bs| ==> bs[i].period < bs[j].period
  }

  /** Every bucket holds exactly the kWh of the rows in its bin. */
  predicate Exact(bs: seq<Bucket>, rows: seq<Row>, bin: int -> int)
  {
    forall i :: 0 <= i < |bs| ==> bs[i].total == Total(InBin(rows, bin, bs[i].period))
  }

  lemma TotalSnoc(g: seq<Row>, x: Row)
    ensures Total(g + [x]) == Total(g) + x.kwh
  {
    assert (g + [x])[..|g|] == g;
  }

  lemma SumBucketsSnoc(bs: seq<Bucket>, b: Bucket)
    ensures SumBuckets(bs + [b]) == SumBuckets(bs) + b.total
  {
    assert (bs + [b])[..|bs|] == bs;
  }

  lemma AbsorbSum(bs: seq<Bucket>, k: int, kwh: int)
    ensures SumBuckets(Absorb(bs, k, kwh)) == SumBuckets(bs) + kwh
  {
    if bs != [] && bs[|bs| - 1].period == k {
      var m := |bs| - 1;
      SumBucketsSnoc(bs[..m], Bucket(k, bs[m].total + kwh));
      assert bs == bs[..m] + [bs[m]];
      SumBucketsSnoc(bs[..m], bs[m]);
    } else {
      SumBucketsSnoc(bs, Bucket(k, kwh));
    }
  }

  lemma AbsorbPeriods(bs: seq<Bucket>, k: int, kwh: int)
    ensures Periods(Absorb(bs, k, kwh)) == Periods(bs) + {k}
  {
    if bs != [] && bs[|bs| - 1].period == k {
      var m := |bs| - 1;
      assert bs == bs[..m] + [bs[m]];
      assert Periods(bs) == Periods(bs[..m]) + {k};
      assert Periods(Absorb(bs, k, kwh)) == Periods(bs[..m]) + {k};
    } else {
      assert Periods(Absorb(bs, k, kwh)) == Periods(bs) + {k};
    }
  }

  lemma AbsorbIncreasing(bs: seq<Bucket>, k: int, kwh: int)
    requires StrictlyIncreasing(bs)
    requires bs != [] ==> bs[|bs| - 1].period <= k
    ensures StrictlyIncreasing(Absorb(bs, k, kwh))
  {
  }

  lemma InBinSnoc(p: seq<Row>, x: Row, bin: int -> int, k: int)
    ensures Total(InBin(p + [x], bin, k)) ==
            Total(InBin(p, bin, k)) + (if bin(x.timestamp) == k then x.kwh else 0)
  {
    assert (p + [x])[..|p|] == p;
    if bin(x.timestamp) == k {
      TotalSnoc(InBin(p, bin, k), x);
    } else {
      assert InBin(p + [x], bin, k) == InBin(p, bin, k);
    }
  }

  lemma InBinEmpty(rows: seq<Row>, bin: int -> int, k: int)
    requires k !in BinsOf(rows, bin)
    ensures InBin(rows, bin, k) == []
  {
  }

  /** Absorbing a reading that comes no earlier than the buckets' bins keeps
      every bucket exact. */
  lemma AbsorbExact(bs: seq<Bucket>, p: seq<Row>, x: Row, bin: int -> int)
    requires Exact(bs, p, bin) && StrictlyIncreasing(bs)
    requires Periods(bs) == BinsOf(p, bin)
    requires bs != [] ==> bs[|bs| - 1].period <= bin(x.timestamp)
    ensures Exact(Absorb(bs, bin(x.timestamp), x.kwh), p + [x], bin)
  {
    var k := bin(x.timestamp);
    var r := Absorb(bs, k, x.kwh);
    if bs != [] && bs[|bs| - 1].period == k {
      var m := |bs| - 1;
      forall i | 0 <= i < |r| ensures r[i].total == Total(InBin(p + [x], bin, r[i].period)) {
        InBinSnoc(p, x, bin, r[i].period);
        if i < m {
          assert r[i] == bs[i];
          assert bs[i].period < bs[m].period;
        }
      }
    } else {
      assert forall j :: 0 <= j < |bs| ==> bs[j].period < k by {
        forall j | 0 <= j < |bs| ensures bs[j].period < k {
          if j < |bs| - 1 {
            assert bs[j].period < bs[|bs| - 1].period;
          }
        }
      }
      assert k !in Periods(bs);
      forall i | 0 <= i < |r| ensures r[i].total == Total(InBin(p + [x], bin, r[i].period)) {
        InBinSnoc(p, x, bin, r[i].period);
        if i == |bs| {
          InBinEmpty(p, bin, k);
        } else {
          assert r[i] == bs[i];
        }
      }
    }
  }

  /** No energy is lost or invented by binning: the buckets add up to the
      total of the rows, whatever the bins. */
  lemma {:induction false} BinTotalsConserve(rows: seq<Row>, bin: int -> int)
    ensures SumBuckets(BinTotals(rows, bin)) == Total(rows)
  {
    if rows != [] {
      var p, x := rows[..|rows| - 1], rows[|rows| - 1];
      BinTotalsConserve(p, bin);
      AbsorbSum(BinTotals(p, bin), bin(x.timestamp), x.kwh);
    }
  }

  /** The bucket bins are exactly the bins that hold a row. */
  lemma {:induction false} BinTotalsPeriods(rows: seq<Row>, bin: int -> int)
    ensures Periods(BinTotals(rows, bin)) == BinsOf(rows, bin)
  {
    if rows != [] {
      var p, x := rows[..|rows| - 1], rows[|rows| - 1];
      BinTotalsPeriods(p, bin);
      AbsorbPeriods(BinTotals(p, bin), bin(x.timestamp), x.kwh);
      assert rows == p + [x];
      assert BinsOf(rows, bin) == BinsOf(p, bin) + {bin(x.timestamp)};
    }
  }

  lemma SortedPrefix(rows: seq<Row>, n: nat)
    requires SortedByTime(rows) && n <= |rows|
    ensures SortedByTime(rows[..n])
  {
  }

  /** The last bucket of a time-ordered prefix is no later than the next
      reading's bin. */
  lemma LastPeriodBefore(rows: seq<Row>, bin: int -> int)
    requires SortedByTime(rows) && Monotone(bin) && |rows| > 1
    ensures var b := BinTotals(rows[..|rows| - 1], bin);
      b[|b| - 1].period <= bin(rows[|rows| - 1].timestamp)
  {
    var n := |rows| - 1;
    assert rows[..n][n - 1] == rows[n - 1];
    assert rows[n - 1].timestamp <= rows[n].timestamp;
  }

  /** Over time-ordered rows, and bins that respect time, every bin occurs
      once and the buckets come in calendar order. */
  lemma {:induction false} BinTotalsIncreasing(rows: seq<Row>, bin: int -> int)
    requires SortedByTime(rows) && Monotone(bin)
    ensures StrictlyIncreasing(BinTotals(rows, bin))
  {
    if rows != [] {
      var n := |rows| - 1;
      SortedPrefix(rows, n);
      BinTotalsIncreasing(rows[..n], bin);
      if n > 0 {
        LastPeriodBefore(rows, bin);
      }
      AbsorbIncreasing(BinTotals(rows[..n], bin), bin(rows[n].timestamp), rows[n].kwh);
    }
  }

  /** Over time-ordered rows each bucket holds exactly the kWh of the rows
      that fall in its bin: every row is counted in exactly one bucket. */
  lemma {:induction false} BinTotalsPerBin(rows: seq<Row>, bin: int -> int)
    requires SortedByTime(rows) && Monotone(bin)
    ensures Exact(BinTotals(rows, bin), rows, bin)
  {
    if rows != [] {
      var n := |rows| - 1;
      var p, x := rows[..n], rows[n];
      assert rows == p + [x];
      SortedPrefix(rows, n);
      BinTotalsPerBin(p, bin);
      BinTotalsIncreasing(p, bin);
      BinTotalsPeriods(p, bin);
      if n > 0 {
        LastPeriodBefore(rows, bin);
      }
      AbsorbExact(BinTotals(p, bin), p, x, bin);
    }
  }

  /** The daily and the weekly series both add up to the dataset's total. */
  lemma {:induction false} ResampledTotalsConserve(rows: seq<Row>)
    ensures SumBuckets(DailyTotals(rows)) == Total(rows)
    ensures SumBuckets(WeeklyTotals(rows)) == Total(rows)
  {
    BinTotalsConserve(rows, DayOf);
    BinTotalsConserve(rows, WeekOf);
  }

  /** Over the merged dataset the daily series has one bucket per day that
      has a reading, in calendar order, and each bucket is that day's kWh;
      likewise for weeks. */
  lemma ResampledBinsExact(rows: seq<Row>)
    requires SortedByTime(rows)
    ensures Periods(DailyTotals(rows)) == BinsOf(rows, DayOf)
    ensures StrictlyIncreasing(DailyTotals(rows))
    ensures Exact(DailyTotals(rows), rows, DayOf)
    ensures Periods(WeeklyTotals(rows)) == BinsOf(rows, WeekOf)
    ensures StrictlyIncreasing(WeeklyTotals(rows))
    ensures Exact(WeeklyTotals(rows), rows, WeekOf)
  {
    DayOfMonotone();
    WeekOfMonotone();
    BinTotalsPeriods(rows, DayOf);
    BinTotalsPeriods(rows, WeekOf);
    BinTotalsIncreasing(rows, DayOf);
    BinTotalsIncreasing(rows, WeekOf);
    BinTotalsPerBin(rows, DayOf);
    BinTotalsPerBin(rows, WeekOf);
  }

  // ---------------------------------------------------------------------
  // Per-building summary

  /** One row of `building_summary`: kWh `mean`, `min`, `max` and `sum`. */
  datatype Stats = Stats(mean: real, min: int, max: int, sum: int)

  datatype SummaryRow = SummaryRow(building: string, stats: Stats)

  function MinKwh(g: seq<Row>): (m: int)
    requires g != []
    ensures exists k :: 0 <= k < |g| && g[k].kwh == m
    ensures forall k :: 0 <= k < |g| ==> m <= g[k].kwh
  {
    if |g| == 1 then g[0].kwh
    else
      var m := MinKwh(g[..|g| - 1]);
      if g[|g| - 1].kwh < m then g[|g| - 1].kwh else m
  }

  function MaxKwh(g: seq<Row>): (m: int)
    requires g != []
    ensures exists k :: 0 <= k < |g| && g[k].kwh == m
    ensures forall k :: 0 <= k < |g| ==> g[k].kwh <= m
  {
    if |g| == 1 then g[0].kwh
    else
      var m := MaxKwh(g[..|g| - 1]);
      if g[|g| - 1].kwh > m then g[|g| - 1].kwh else m
  }

  lemma {:induction false} TotalBetween(g: seq<Row>, lo: int, hi: int)
    requires forall k :: 0 <= k < |g| ==> lo <= g[k].kwh <= hi
    ensures |g| * lo <= Total(g) <= |g| * hi
  {
    if g != [] {
      TotalBetween(g[..|g| - 1], lo, hi);
    }
  }

  lemma MeanBetween(t: int, n: int, lo: int, hi: int)
    requires n > 0 && n * lo <= t <= n * hi
    ensures lo as real <= t as real / n as real <= hi as real
  {
    var q := t as real / n as real;
    assert q * n as real == t as real;
  }

  /** `agg(["mean", "min", "max", "sum"])` over one building's readings. */
  function StatsOf(g: seq<Row>): Stats
    requires g != []
  {
    Stats(Total(g) as real / |g| as real, MinKwh(g), MaxKwh(g), Total(g))
  }

  /** The minimum and maximum are readings of the group and bound every
      reading, the mean is the sum over the count and lies between them, and
      `sum` is the group's total. */
  lemma StatsOfBounds(g: seq<Row>)
    requires g != []
    ensures StatsOf(g).sum == Total(g)
    ensures StatsOf(g).mean == Total(g) as real / |g| as real
    ensures exists k :: 0 <= k < |g| && g[k].kwh == StatsOf(g).min
    ensures exists k :: 0 <= k < |g| && g[k].kwh == StatsOf(g).max
    ensures forall k :: 0 <= k < |g| ==> StatsOf(g).min <= g[k].kwh <= StatsOf(g).max
    ensures StatsOf(g).min as real <= StatsOf(g).mean <= StatsOf(g).max as real
  {
    var lo, hi := MinKwh(g), MaxKwh(g);
    TotalBetween(g, lo, hi);
    MeanBetween(Total(g), |g|, lo, hi);
  }

  /** The building names of `rows`, in ascending string order, each once. */
  function SortedNames(rows: seq<Row>): (ns: seq<string>)
    ensures StrictlySorted(ns)
    ensures forall n :: n in ns <==> n in Names(rows)
  {
    if rows == [] then []
    else
      var p := rows[..|rows| - 1];
      assert rows == p + [rows[|rows| - 1]];
      Insert(SortedNames(p), rows[|rows| - 1].building)
  }

  lemma GroupOfName(rows: seq<Row>, n: string)
    requires n in Names(rows)
    ensures Group(rows, n) != []
  {
    var r :| r in rows && r.building == n;
    assert r in Group(rows, n);
  }

  /** The summary row of building `n`. */
  function SummaryRowOf(rows: seq<Row>, n: string): SummaryRow
    requires n in Names(rows)
  {
    GroupOfName(rows, n);
    SummaryRow(n, StatsOf(Group(rows, n)))
  }

  /** The summary rows for the names `ns`, in that order. */
  function SummaryOf(rows: seq<Row>, ns: seq<string>): (s: seq<SummaryRow>)
    requires forall n :: n in ns ==> n in Names(rows)
    ensures |s| == |ns|
    ensures forall i :: 0 <= i < |ns| ==> s[i] == SummaryRowOf(rows, ns[i])
  {
    seq(|ns|, i requires 0 <= i < |ns| => SummaryRowOf(rows, ns[i]))
  }

  lemma SummaryNames(rows: seq<Row>, ns: seq<string>)
    requires forall n :: n in ns ==> n in Names(rows)
    ensures forall n :: n in ns <==> exists i :: 0 <= i < |ns| && SummaryOf(rows, ns)[i].building == n
  {
    var s := SummaryOf(rows, ns);
    forall n | n in ns ensures exists i :: 0 <= i < |ns| && s[i].building == n {
      var i :| 0 <= i < |ns| && ns[i] == n;
      assert s[i].building == n;
    }
  }

  /** `building_wise_summary`: one row per building, ordered by name, each
      the statistics of exactly that building's readings. */
  function BuildingSummary(rows: seq<Row>): (s: seq<SummaryRow>)
    ensures forall i, j :: 0 <= i < j < |s| ==> Less(s[i].building, s[j].building)
    ensures forall n :: n in Names(rows) <==> exists i :: 0 <= i < |s| && s[i].building == n
    ensures forall i :: 0 <= i < |s| ==>
      Group(rows, s[i].building) != [] && s[i].stats == StatsOf(Group(rows, s[i].building))
  {
    var ns := SortedNames(rows);
    var s := SummaryOf(rows, ns);
    SummaryNames(rows, ns);
    s
  }

  /** Each summary row is one of the dataset's buildings, with that
      building's total as its sum, and no building is missing. */
  lemma SummarySums(rows: seq<Row>)
    ensures forall n :: n in Names(rows) ==>
      exists i :: 0 <= i < |BuildingSummary(rows)| && BuildingSummary(rows)[i].building == n
    ensures forall i :: 0 <= i < |BuildingSummary(rows)| ==>
      && BuildingSummary(rows)[i].building in Names(rows)
      && BuildingSummary(rows)[i].stats.sum == Total(Group(rows, BuildingSummary(rows)[i].building))
  {
    var s := BuildingSummary(rows);
    forall n | n in Names(rows)
      ensures exists i :: 0 <= i < |s| && s[i].building == n
    {
      assert n in Names(rows);
    }
    forall i | 0 <= i < |s|
      ensures s[i].building in Names(rows)
    {
      var g := Group(rows, s[i].building);
      assert g[0] in g;
    }
  }

  /** `summary["sum"].sum()`. */
  function SumOfSums(s: seq<SummaryRow>): int
  {
    if s == [] then 0 else SumOfSums(s[..|s| - 1]) + s[|s| - 1].stats.sum
  }

  /** Sum over the names `ns` of each name's group total. */
  function SumGroups(rows: seq<Row>, ns: seq<string>): int
  {
    if ns == [] then 0 else SumGroups(rows, ns[..|ns| - 1]) + Total(Group(rows, ns[|ns| - 1]))
  }

  lemma {:induction false} SumOfSummaryIsSumGroups(rows: seq<Row>, ns: seq<string>)
    requires forall n :: n in ns ==> n in Names(rows)
    ensures SumOfSums(SummaryOf(rows, ns)) == SumGroups(rows, ns)
  {
    if ns != [] {
      var init := ns[..|ns| - 1];
      SumOfSummaryIsSumGroups(rows, init);
      var s := SummaryOf(rows, ns);
      assert s[..|s| - 1] == SummaryOf(rows, init);
    }
  }

  lemma {:induction false} SumGroupsOfNothing(ns: seq<string>)
    ensures SumGroups([], ns) == 0
  {
    if ns != [] {
      SumGroupsOfNothing(ns[..|ns| - 1]);
    }
  }

  lemma GroupSnocTotal(p: seq<Row>, x: Row, n: string)
    ensures Total(Group(p + [x], n)) == Total(Group(p, n)) + (if x.building == n then x.kwh else 0)
  {
    var q := p + [x];
    assert q[..|q| - 1] == p && q[|q| - 1] == x;
    if x.building == n {
      assert Group(q, n) == Group(p, n) + [x];
      TotalSnoc(Group(p, n), x);
    } else {
      assert Group(q, n) == Group(p, n) + [];
      assert Group(p, n) + [] == Group(p, n);
    }
  }

  /** Adding one row adds its kWh to exactly one group among distinct names. */
  lemma {:induction false} SumGroupsSnoc(p: seq<Row>, x: Row, ns: seq<string>)
    requires Distinct(ns)
    ensures SumGroups(p + [x], ns) == SumGroups(p, ns) + (if x.building in ns then x.kwh else 0)
  {
    if ns != [] {
      var init, n := ns[..|ns| - 1], ns[|ns| - 1];
      assert Distinct(init);
      SumGroupsSnoc(p, x, init);
      GroupSnocTotal(p, x, n);
      assert ns == init + [n];
      assert n !in init;
    }
  }

  /** Over distinct names covering every building, the group totals add up
      to the total of the rows. */
  lemma {:induction false} SumGroupsCovers(rows: seq<Row>, ns: seq<string>)
    requires Distinct(ns)
    requires forall n :: n in Names(rows) ==> n in ns
    ensures SumGroups(rows, ns) == Total(rows)
  {
    if rows == [] {
      SumGroupsOfNothing(ns);
    } else {
      var p, x := rows[..|rows| - 1], rows[|rows| - 1];
      assert rows == p + [x];
      assert x.building in Names(rows);
      SumGroupsCovers(p, ns);
      SumGroupsSnoc(p, x, ns);
    }
  }

  /** The building sums add up to the total kWh of the dataset. */
  lemma SummaryConserves(rows: seq<Row>)
    ensures SumOfSums(BuildingSummary(rows)) == Total(rows)
  {
    var ns := SortedNames(rows);
    SortedDistinct(ns);
    SumOfSummaryIsSumGroups(rows, ns);
    SumGroupsCovers(rows, ns);
  }
}
