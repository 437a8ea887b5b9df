/** Task 1 of the pipeline: every discovered `.csv` file is read, tagged with
    a building name, validated for a `timestamp` column, and appended to the
    combined dataset; a file that fails is skipped and the loop goes on. */
module Ingestion {
  import opened Energy

  /** One row as the CSV reader produced it. `timestamp` is the cell after
      date parsing (None when the text is not a date), `building` is the
      cell of the `building` column, meaningful only when the table has one. */
  datatype RawRow = RawRow(timestamp: Option<int>, kwh: int, building: string)

  /** A tokenized table: its header's column names and its rows. */
  datatype Table = Table(columns: set<string>, rows: seq<RawRow>)

  /** What reading a discovered path gives: the file vanished, the reader
      raised (bad encoding, no header, ...), or a table. */
  datatype ReadOutcome = FileMissing | Unreadable | Parsed(table: Table)

  /** A discovered file: its stem (name without `.csv`) and what reading it gave. */
  datatype CsvFile = CsvFile(stem: string, contents: ReadOutcome)

  /** Why a file's whole contribution is dropped. */
  datatype Reason = ReaderFailed | TimestampColumnMissing | TimestampUnparseable

  /** The two handlers of the per-file `try`: a missing file, or any other
      exception ("corrupt or invalid file"). */
  datatype IngestError = MissingFile | Invalid(reason: Reason)

  const TimestampColumn := "timestamp"
  const BuildingColumn := "building"

  /** `sep.join(parts)`. */
  function Join(parts: seq<string>, sep: char): string
    requires |parts| >= 1
  {
    if |parts| == 1 then parts[0] else parts[0] + [sep] + Join(parts[1..], sep)
  }

  /** `s.split(sep)` for a one-character separator: the pieces between
      separators, at least one, none containing `sep`, rejoining to `s`. */
  function Split(s: string, sep: char): (parts: seq<string>)
    ensures |parts| >= 1
    ensures forall i :: 0 <= i < |parts| ==> sep !in parts[i]
    ensures Join(parts, sep) == s
  {
    if s == [] then [[]]
    else
      var rest := Split(s[1..], sep);
      if s[0] == sep then
        assert ([[]] + rest)[1..] == rest;
        [[]] + rest
      else
        var parts := [[s[0]] + rest[0]] + rest[1..];
        assert parts[1..] == rest[1..];
        assert s == [s[0]] + s[1..];
        parts
  }

  /** Splitting a join of separator-free pieces gives the pieces back. */
  lemma {:induction false} SplitJoin(parts: seq<string>, sep: char)
    requires |parts| >= 1
    requires forall i :: 0 <= i < |parts| ==> sep !in parts[i]
    ensures Split(Join(parts, sep), sep) == parts
  {
    if |parts| == 1 {
      SplitOfPiece(parts[0], sep);
    } else {
      SplitJoin(parts[1..], sep);
      SplitPieceThen(parts[0], Join(parts[1..], sep), sep);
      assert [parts[0]] + parts[1..] == parts;
    }
  }

  lemma {:induction false} SplitOfPiece(p: string, sep: char)
    requires sep !in p
    ensures Split(p, sep) == [p]
  {
    if p != [] {
      SplitOfPiece(p[1..], sep);
      assert [p[0]] + p[1..] == p;
    }
  }

  lemma {:induction false} SplitPieceThen(p: string, tail: string, sep: char)
    requires sep !in p
    ensures Split(p + [sep] + tail, sep) == [p] + Split(tail, sep)
  {
    if p == [] {
      assert p + [sep] + tail == [sep] + tail;
      assert ([sep] + tail)[1..] == tail;
    } else {
      assert (p + [sep] + tail)[1..] == p[1..] + [sep] + tail;
      SplitPieceThen(p[1..], tail, sep);
      assert [p[0]] + p[1..] == p;
    }
  }

  /** The default building name of a file (`file.stem.split("_")[0]`):
      the part of the stem before its first underscore, the whole stem when
      it has none. */
  function DefaultBuildingName(stem: string): (name: string)
    ensures |name| <= |stem| && name == stem[..|name|]
    ensures '_' !in name
    ensures |name| < |stem| ==> stem[|name|] == '_'
  {
    var parts := Split(stem, '_');
    assert |parts| > 1 ==> stem == parts[0] + ['_'] + Join(parts[1..], '_');
    parts[0]
  }

  /** A stem written as `name_rest` names building `name`. */
  lemma DefaultBuildingNameOfPrefix(name: string, rest: string)
    requires '_' !in name
    ensures DefaultBuildingName(name + "_" + rest) == name
  {
    var s := name + "_" + rest;
    assert forall i :: 0 <= i < |name| ==> s[i] == name[i] && s[i] != '_';
    assert s[|name|] == '_';
  }

  /** `df["building"] = df.get("building", building_name)`: every row keeps
      its own building cell when the table has that column, otherwise it is
      stamped with the file's default name; nothing else changes. */
  function TagBuilding(stem: string, t: Table): (tagged: seq<RawRow>)
    ensures |tagged| == |t.rows|
    ensures forall k :: 0 <= k < |t.rows| ==>
      tagged[k].timestamp == t.rows[k].timestamp && tagged[k].kwh == t.rows[k].kwh
    ensures BuildingColumn in t.columns ==>
      forall k :: 0 <= k < |t.rows| ==> tagged[k].building == t.rows[k].building
    ensures BuildingColumn !in t.columns ==>
      forall k :: 0 <= k < |t.rows| ==> tagged[k].building == DefaultBuildingName(stem)
  {
    if BuildingColumn in t.columns then t.rows
    else
      var name := DefaultBuildingName(stem);
      seq(|t.rows|, k requires 0 <= k < |t.rows| => t.rows[k].(building := name))
  }

  /** `pd.to_datetime(df["timestamp"])`: succeeds only when every cell is a
      date, and then keeps every row with its parsed time. */
  function ParseTimestamps(raw: seq<RawRow>): (rows: Option<seq<Row>>)
    ensures rows.Some? <==> forall k :: 0 <= k < |raw| ==> raw[k].timestamp.Some?
    ensures rows.Some? ==>
      && |rows.value| == |raw|
      && forall k :: 0 <= k < |raw| ==>
           rows.value[k] == Row(raw[k].timestamp.value, raw[k].kwh, raw[k].building)
  {
    if raw == [] then Some([])
    else
      var last := raw[|raw| - 1];
      match ParseTimestamps(raw[..|raw| - 1])
      case None => None
      case Some(init) =>
        if last.timestamp.None? then None
        else Some(init + [Row(last.timestamp.value, last.kwh, last.building)])
  }

  /** The body of the per-file `try`: the rows one file contributes, or the
      error its handler logs. */
  function IngestFile(f: CsvFile): (r: Result<seq<Row>, IngestError>)
    ensures r.Ok? ==> f.contents.Parsed? && TimestampColumn in f.contents.table.columns
    ensures r.Ok? ==>
      var t := f.contents.table;
      |r.value| == |t.rows| &&
      forall k :: 0 <= k < |t.rows| ==>
        && Some(r.value[k].timestamp) == t.rows[k].timestamp
        && r.value[k].kwh == t.rows[k].kwh
        && r.value[k].building ==
             (if BuildingColumn in t.columns then t.rows[k].building else DefaultBuildingName(f.stem))
    ensures f.contents.Parsed? && TimestampColumn in f.contents.table.columns ==>
      (r.Ok? <==> forall k :: 0 <= k < |f.contents.table.rows| ==> f.contents.table.rows[k].timestamp.Some?)
  {
    match f.contents
    case FileMissing => Err(MissingFile)
    case Unreadable => Err(Invalid(ReaderFailed))
    case Parsed(t) =>
      var tagged := TagBuilding(f.stem, t);
      if TimestampColumn !in t.columns then Err(Invalid(TimestampColumnMissing))
      else
        match ParseTimestamps(tagged)
        case None => Err(Invalid(TimestampUnparseable))
        case Some(rows) => Ok(rows)
  }

  /** How a rejected file is classified: a vanished path is a missing
      file, a reader failure or a table without `timestamp` is invalid. */
  lemma IngestFileErrors(f: CsvFile)
    ensures f.contents == FileMissing ==> IngestFile(f) == Err(MissingFile)
    ensures f.contents == Unreadable ==> IngestFile(f) == Err(Invalid(ReaderFailed))
    ensures f.contents.Parsed? && TimestampColumn !in f.contents.table.columns ==>
      IngestFile(f) == Err(Invalid(TimestampColumnMissing))
  {
  }

  /** The outcome of the per-file `try` for each discovered file, in order. */
  function Outcomes(files: seq<CsvFile>): (outs: seq<Result<seq<Row>, IngestError>>)
    ensures |outs| == |files|
    ensures forall i :: 0 <= i < |files| ==> outs[i] == IngestFile(files[i])
  {
    seq(|files|, i requires 0 <= i < |files| => IngestFile(files[i]))
  }

  /** The rows of the accepted outcomes, one after the other. */
  function Gather(outs: seq<Result<seq<Row>, IngestError>>): seq<Row>
  {
    if outs == [] then []
    else
      Gather(outs[..|outs| - 1]) +
        match outs[|outs| - 1]
        case Ok(rows) => rows
        case Err(_) => []
  }

  /** The combined dataset after the loop has visited `files` in order. */
  function Combined(files: seq<CsvFile>): seq<Row>
  {
    Gather(Outcomes(files))
  }

  /** Some file was accepted, so the combined table has columns. */
  predicate AnyLoaded(files: seq<CsvFile>)
  {
    exists i :: 0 <= i < |files| && IngestFile(files[i]).Ok?
  }

  /** The ingestion loop: `df_combined` starts empty and each accepted file is
      appended to it; a failing file leaves it as it was. `loaded` tells
      whether any file was accepted. */
  method IngestAll(files: seq<CsvFile>) returns (combined: seq<Row>, loaded: bool)
    ensures combined == Combined(files)
    ensures loaded <==> AnyLoaded(files)
  {
    ghost var outs := Outcomes(files);
    combined, loaded := [], false;
    var i := 0;
    while i < |files|
      invariant 0 <= i <= |files|
      invariant combined == Gather(outs[..i])
      invariant loaded <==> exists j :: 0 <= j < i && IngestFile(files[j]).Ok?
    {
      assert outs[..i + 1][..i] == outs[..i];
      match IngestFile(files[i]) {
        case Ok(rows) =>
          combined := combined + rows;
          loaded := true;
        case Err(_) =>
      }
      i := i + 1;
    }
    assert outs[..i] == outs;
  }

  lemma {:induction false} GatherAppend(x: seq<Result<seq<Row>, IngestError>>, y: seq<Result<seq<Row>, IngestError>>)
    ensures Gather(x + y) == Gather(x) + Gather(y)
  {
    if y == [] {
      assert x + y == x;
    } else {
      assert (x + y)[..|x + y| - 1] == x + y[..|y| - 1];
      GatherAppend(x, y[..|y| - 1]);
    }
  }

  /** The loop's result over two runs of files is the two results one after
      the other: discovery order is kept. */
  lemma CombinedAppend(a: seq<CsvFile>, b: seq<CsvFile>)
    ensures Combined(a + b) == Combined(a) + Combined(b)
  {
    assert Outcomes(a + b) == Outcomes(a) + Outcomes(b);
    GatherAppend(Outcomes(a), Outcomes(b));
  }

  /** A rejected file contributes no row: the dataset is as if it had not
      been discovered, whatever comes before or after it. */
  lemma RejectedFileExcluded(before: seq<CsvFile>, f: CsvFile, after: seq<CsvFile>)
    requires IngestFile(f).Err?
    ensures Combined(before + [f] + after) == Combined(before + after)
  {
    CombinedAppend(before + [f], after);
    CombinedAppend(before, [f]);
    CombinedAppend(before, after);
    assert Combined([f]) == [] by {
      var outs := Outcomes([f]);
      assert outs == [IngestFile(f)] && outs[..0] == [];
      assert Gather(outs) == Gather([]) + [];
    }
    assert Combined(before) + [] == Combined(before);
  }

  /** A parsed table without a `timestamp` column is rejected whole. */
  lemma MissingTimestampContributesNothing(before: seq<CsvFile>, f: CsvFile, after: seq<CsvFile>)
    requires f.contents.Parsed? && TimestampColumn !in f.contents.table.columns
    ensures Combined(before + [f] + after) == Combined(before + after)
  {
    RejectedFileExcluded(before, f, after);
  }

  lemma {:induction false} GatherMembers(outs: seq<Result<seq<Row>, IngestError>>, r: Row)
    ensures r in Gather(outs) <==> exists i :: 0 <= i < |outs| && outs[i].Ok? && r in outs[i].value
  {
    if outs != [] {
      var n := |outs| - 1;
      var init := outs[..n];
      GatherMembers(init, r);
      if r in Gather(init) {
        var i :| 0 <= i < n && init[i].Ok? && r in init[i].value;
        assert outs[i] == init[i];
      }
      if exists i :: 0 <= i < |outs| && outs[i].Ok? && r in outs[i].value {
        var i :| 0 <= i < |outs| && outs[i].Ok? && r in outs[i].value;
        if i < n {
          assert init[i] == outs[i];
        }
      }
    }
  }

  /** Every combined row comes from an accepted file, and every row of an
      accepted file is in the combined dataset. */
  lemma CombinedMembers(files: seq<CsvFile>, r: Row)
    ensures r in Combined(files) <==>
      exists i :: 0 <= i < |files| && IngestFile(files[i]).Ok? && r in IngestFile(files[i]).value
  {
    GatherMembers(Outcomes(files), r);
  }
}
