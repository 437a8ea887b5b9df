/** Task 5 of the pipeline: the figures of the executive summary. The campus
    total is the sum of the per-building sums, the highest building is the
    label of the largest sum (`idxmax`, so the first one on a tie), and the
    peak time is the index of the largest reading of the merged dataset. */
module ExecutiveSummary {
  import opened Energy
  import opened StringOrder
  import opened Aggregation

  /** `idxmax` over positions: the first position holding the largest value. */
  function FirstMaxIndex(s: seq<int>): (k: nat)
    requires s != []
    ensures k < |s|
    ensures forall i :: 0 <= i < |s| ==> s[i] <= s[k]
    ensures forall i :: 0 <= i < k ==> s[i] < s[k]
  {
    if |s| == 1 then 0
    else
      var k := FirstMaxIndex(s[..|s| - 1]);
      if s[|s| - 1] > s[k] then |s| - 1 else k
  }

  /** The `sum` column of the summary. */
  function Sums(summary: seq<SummaryRow>): (s: seq<int>)
    ensures |s| == |summary| && forall i :: 0 <= i < |s| ==> s[i] == summary[i].stats.sum
  {
    seq(|summary|, i requires 0 <= i < |summary| => summary[i].stats.sum)
  }

  /** `total_campus_kwh = summary["sum"].sum()`. */
  function TotalCampusKwh(summary: seq<SummaryRow>): int
  {
    SumOfSums(summary)
  }

  /** `highest_building = summary["sum"].idxmax()`: the building of the
      first row whose sum no row exceeds. */
  function HighestBuilding(summary: seq<SummaryRow>): (b: string)
    requires summary != []
    ensures exists k ::
      && 0 <= k < |summary| && summary[k].building == b
      && (forall i :: 0 <= i < |summary| ==> summary[i].stats.sum <= summary[k].stats.sum)
      && (forall i :: 0 <= i < k ==> summary[i].stats.sum < summary[k].stats.sum)
  {
    var k := FirstMaxIndex(Sums(summary));
    summary[k].building
  }

  /** The `kwh` column of a table. */
  function Kwhs(rows: seq<Row>): (s: seq<int>)
    ensures |s| == |rows| && forall i :: 0 <= i < |s| ==> s[i] == rows[i].kwh
  {
    seq(|rows|, i requires 0 <= i < |rows| => rows[i].kwh)
  }

  /** `df["kwh"].idxmax()` over positions: the first row holding the largest
      reading. */
  function PeakIndex(rows: seq<Row>): (k: nat)
    requires rows != []
    ensures k < |rows|
    ensures forall i :: 0 <= i < |rows| ==> rows[i].kwh <= rows[k].kwh
    ensures forall i :: 0 <= i < k ==> rows[i].kwh < rows[k].kwh
  {
    FirstMaxIndex(Kwhs(rows))
  }

  /** `peak_time`: the index (timestamp) of that row. */
  function PeakTime(rows: seq<Row>): (t: int)
    requires rows != []
  {
    rows[PeakIndex(rows)].timestamp
  }

  /** The campus total of the summary of a dataset is the dataset's total. */
  lemma CampusTotalConserves(rows: seq<Row>)
    ensures TotalCampusKwh(BuildingSummary(rows)) == Total(rows)
  {
    SummaryConserves(rows);
  }

  /** Over a non-empty dataset the highest building is one of its buildings,
      and no building consumed more than it did. */
  lemma {:induction false} HighestBuildingIsLargest(rows: seq<Row>)
    requires rows != []
    ensures BuildingSummary(rows) != []
    ensures HighestBuilding(BuildingSummary(rows)) in Names(rows)
    ensures forall c :: c in Names(rows) ==>
      Total(Group(rows, c)) <= Total(Group(rows, HighestBuilding(BuildingSummary(rows))))
  {
    assert rows[0].building in Names(rows);
    SummarySums(rows);
    HighestOf(rows, BuildingSummary(rows));
  }

  lemma HighestOf(rows: seq<Row>, s: seq<SummaryRow>)
    requires rows != []
    requires forall n :: n in Names(rows) ==> exists i :: 0 <= i < |s| && s[i].building == n
    requires forall i :: 0 <= i < |s| ==>
      s[i].building in Names(rows) && s[i].stats.sum == Total(Group(rows, s[i].building))
    ensures s != []
    ensures HighestBuilding(s) in Names(rows)
    ensures forall c :: c in Names(rows) ==> Total(Group(rows, c)) <= Total(Group(rows, HighestBuilding(s)))
  {
    assert rows[0].building in Names(rows);
    var h := HighestBuilding(s);
    var k :| 0 <= k < |s| && s[k].building == h
      && (forall i :: 0 <= i < |s| ==> s[i].stats.sum <= s[k].stats.sum);
    forall c | c in Names(rows)
      ensures Total(Group(rows, c)) <= Total(Group(rows, h))
    {
      var i :| 0 <= i < |s| && s[i].building == c;
      assert s[i].stats.sum <= s[k].stats.sum;
    }
  }
}
