/** The whole batch run, in the order the script performs it: ingest every
    discovered file, merge, aggregate, build the registry, and compute the
    executive-summary figures. The two ways the script stops with an
    exception on degenerate input are failures here. */
module Pipeline {
  import opened Energy
  import opened Ingestion
  import opened Merge
  import opened Aggregation
  import opened Registry
  import opened ExecutiveSummary

  datatype Failure =
    | NoFileLoaded  // `set_index("timestamp")` on the empty frame: no such column
    | EmptyDataset  // `idxmax` of an empty `sum` column

  /** What the run produces besides the registry. */
  datatype Report = Report(
    merged: seq<Row>,
    daily: seq<Bucket>,
    weekly: seq<Bucket>,
    summary: seq<SummaryRow>,
    totalCampusKwh: int,
    highestBuilding: string,
    peakTime: int)

  /** `r` is what the script computes from the combined rows `combined`:
      the merged dataset is `combined` sorted by time; the daily, weekly and
      building aggregates are taken over it and each adds up to the campus
      total; the highest building labels `idxmax` of the summary's `sum`
      column (the first in name order on a tie), which `HighestBuilding`
      computes, and consumed no less than any other; and the
      peak time is that of the first largest reading. */
  ghost predicate Describes(r: Report, combined: seq<Row>)
  {
    && SortedByTime(r.merged)
    && multiset(r.merged) == multiset(combined)
    && r.daily == DailyTotals(r.merged)
    && r.weekly == WeeklyTotals(r.merged)
    && r.summary == BuildingSummary(r.merged)
    && SumBuckets(r.daily) == Total(combined)
    && SumBuckets(r.weekly) == Total(combined)
    && r.totalCampusKwh == Total(combined)
    && r.summary != []
    && r.highestBuilding == r.summary[FirstMaxIndex(Sums(r.summary))].building
    && r.highestBuilding in Names(r.merged)
    && (forall c :: c in Names(r.merged) ==>
          Total(Group(r.merged, c)) <= Total(Group(r.merged, r.highestBuilding)))
    && r.merged != []
    && r.peakTime == PeakTime(r.merged)
  }

  /** The building a described report names is `HighestBuilding` of its
      summary. */
  lemma DescribedHighest(r: Report, combined: seq<Row>)
    requires Describes(r, combined)
    ensures r.highestBuilding == HighestBuilding(r.summary)
  {
  }

  /** The registry `ledger` holds the rows `merged` filed by building: one
      entry per building, and each entry's total is that building's `sum` in
      `summary`. */
  ghost predicate Registered(ledger: Ledger, merged: seq<Row>, summary: seq<SummaryRow>)
  {
    && ledger == FileAll(map[], merged)
    && ledger.Keys == Names(merged)
    && (forall i :: 0 <= i < |summary| ==>
          && summary[i].building in ledger
          && SumKwh(ledger[summary[i].building]) == summary[i].stats.sum)
  }

  /** Runs the pipeline over the discovered files, in discovery order. */
  method Run(files: seq<CsvFile>) returns (outcome: Result<Report, Failure>, manager: BuildingManager?)
    ensures outcome == Err(NoFileLoaded) <==> !AnyLoaded(files)
    ensures outcome == Err(EmptyDataset) <==> AnyLoaded(files) && Combined(files) == []
    ensures manager == null <==> !AnyLoaded(files)
    ensures manager != null ==> fresh(manager) && manager.Valid()
    ensures manager != null ==> forall b :: b in manager.buildings ==> fresh(manager.buildings[b])
    ensures outcome == Err(EmptyDataset) ==> manager != null && manager.buildings == map[]
    ensures outcome.Ok? ==> Describes(outcome.value, Combined(files))
    ensures manager != null ==> forall b :: b in manager.buildings ==>
      manager.buildings[b].CalculateTotalConsumption() == SumKwh(manager.Readings()[b])
    ensures outcome.Ok? ==>
      manager != null && Registered(manager.Readings(), outcome.value.merged, outcome.value.summary)
  {
    var combined, loaded := IngestAll(files);
    if !loaded {
      return Err(NoFileLoaded), null;
    }
    outcome, manager := Analyse(combined);
  }

  /** Everything after ingestion, over the combined rows. */
  method Analyse(combined: seq<Row>) returns (outcome: Result<Report, Failure>, manager: BuildingManager)
    ensures outcome.Err? <==> combined == []
    ensures outcome.Err? ==> outcome.error == EmptyDataset && manager.buildings == map[]
    ensures fresh(manager) && manager.Valid()
    ensures forall b :: b in manager.buildings ==> fresh(manager.buildings[b])
    ensures outcome.Ok? ==> Describes(outcome.value, combined)
    ensures outcome.Ok? ==> Registered(manager.Readings(), outcome.value.merged, outcome.value.summary)
  {
    var merged := MergeRows(combined);
    manager := Register(merged);
    ghost var ledger := manager.Readings();
    NonEmpty(combined, merged);
    if merged == [] {
      return Err(EmptyDataset), manager;
    }
    var report := Figures(merged);
    outcome := Ok(report);
    assert Describes(report, combined) by {
      Analysed(combined, merged);
    }
    assert Registered(ledger, merged, report.summary) by {
      RegistryAgrees(merged, ledger);
    }
  }

  /** The aggregates and the executive-summary figures of a non-empty merged
      dataset. */
  function Figures(merged: seq<Row>): Report
    requires merged != []
  {
    var summary := BuildingSummary(merged);
    HighestBuildingIsLargest(merged);
    Report(merged, DailyTotals(merged), WeeklyTotals(merged), summary,
      TotalCampusKwh(summary), HighestBuilding(summary), PeakTime(merged))
  }

  /** `manager = BuildingManager()` then `add_readings_from_df`. */
  method Register(merged: seq<Row>) returns (manager: BuildingManager)
    ensures fresh(manager) && manager.Valid()
    ensures forall b :: b in manager.buildings ==> fresh(manager.buildings[b])
    ensures manager.Readings() == FileAll(map[], merged)
    ensures merged == [] ==> manager.buildings == map[]
  {
    manager := new BuildingManager();
    manager.AddReadingsFromRows(merged);
    if merged == [] {
      assert manager.buildings.Keys == {};
    }
  }

  lemma NonEmpty(combined: seq<Row>, merged: seq<Row>)
    requires multiset(merged) == multiset(combined)
    ensures merged == [] <==> combined == []
    ensures FileAll(map[], merged).Keys == Names(merged)
  {
    assert |merged| == |multiset(merged)| == |combined|;
    FileAllFromEmpty(merged);
  }

  /** The figures the script computes from a merged dataset describe it. */
  lemma Analysed(combined: seq<Row>, merged: seq<Row>)
    requires SortedByTime(merged) && multiset(merged) == multiset(combined)
    requires merged != []
    ensures Describes(Figures(merged), combined)
  {
    TotalPermutation(merged, combined);
    ResampledTotalsConserve(merged);
    CampusTotalConserves(merged);
    HighestBuildingIsLargest(merged);
  }

  /** The registry built from a dataset agrees with its summary. */
  lemma RegistryAgrees(rows: seq<Row>, ledger: Ledger)
    requires ledger == FileAll(map[], rows)
    ensures Registered(ledger, rows, BuildingSummary(rows))
  {
    FileAllFromEmpty(rows);
    SummarySums(rows);
    RegistryMatchesSummary(rows, ledger, BuildingSummary(rows));
  }

  /** Every summary row's building is in the registry, with the same total. */
  lemma RegistryMatchesSummary(rows: seq<Row>, ledger: Ledger, s: seq<SummaryRow>)
    requires ledger == FileAll(map[], rows)
    requires forall i :: 0 <= i < |s| ==>
      s[i].building in Names(rows) && s[i].stats.sum == Total(Group(rows, s[i].building))
    ensures forall i :: 0 <= i < |s| ==>
      s[i].building in ledger && SumKwh(ledger[s[i].building]) == s[i].stats.sum
  {
    FileAllFromEmpty(rows);
    forall i | 0 <= i < |s|
      ensures SumKwh(ledger[s[i].building]) == s[i].stats.sum
    {
      ReadingsTotal(Group(rows, s[i].building));
    }
  }
}
