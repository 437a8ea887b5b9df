/** Task 3 of the pipeline: the object model. A `Building` keeps a growing
    list of meter readings and sums them; a `BuildingManager` files every
    row of the merged dataset under its building, creating the building on
    first sight. */
module Registry {
  import opened Energy

  /** One reading held by a building: its timestamp and its kWh. */
  datatype MeterReading = MeterReading(timestamp: int, kwh: int)

  /** The dictionary `generate_report` returns. */
  datatype BuildingReport = BuildingReport(building: string, totalConsumption: int)

  /** `sum(r.kwh for r in readings)`. */
  function SumKwh(rs: seq<MeterReading>): int
  {
    if rs == [] then 0 else SumKwh(rs[..|rs| - 1]) + rs[|rs| - 1].kwh
  }

  /** The readings that rows become when they are filed: the index
      (timestamp) and the kWh of each row, in row order. */
  function ReadingsOf(rows: seq<Row>): (rs: seq<MeterReading>)
    ensures |rs| == |rows|
    ensures forall i :: 0 <= i < |rows| ==> rs[i] == MeterReading(rows[i].timestamp, rows[i].kwh)
  {
    seq(|rows|, i requires 0 <= i < |rows| => MeterReading(rows[i].timestamp, rows[i].kwh))
  }

  lemma SumKwhSnoc(rs: seq<MeterReading>, m: MeterReading)
    ensures SumKwh(rs + [m]) == SumKwh(rs) + m.kwh
  {
    assert (rs + [m])[..|rs|] == rs;
  }

  /** Filing rows as readings keeps their kWh total. */
  lemma {:induction false} ReadingsTotal(rows: seq<Row>)
    ensures SumKwh(ReadingsOf(rows)) == Total(rows)
  {
    if rows != [] {
      var n := |rows| - 1;
      ReadingsTotal(rows[..n]);
      assert ReadingsOf(rows) == ReadingsOf(rows[..n]) + [ReadingsOf(rows)[n]];
      SumKwhSnoc(ReadingsOf(rows[..n]), ReadingsOf(rows)[n]);
    }
  }

  lemma ReadingsSnoc(rows: seq<Row>, x: Row)
    ensures ReadingsOf(rows + [x]) == ReadingsOf(rows) + [MeterReading(x.timestamp, x.kwh)]
  {
  }

  class Building {
    const name: string
    var meterReadings: seq<MeterReading>

    constructor (name: string)
      ensures this.name == name && meterReadings == []
    {
      this.name := name;
      meterReadings := [];
    }

    /** `add_reading`: appends one reading; the building's total grows by
        exactly its kWh. */
    method AddReading(timestamp: int, kwh: int)
      modifies this
      ensures meterReadings == old(meterReadings) + [MeterReading(timestamp, kwh)]
      ensures CalculateTotalConsumption() == old(CalculateTotalConsumption()) + kwh
    {
      SumKwhSnoc(meterReadings, MeterReading(timestamp, kwh));
      meterReadings := meterReadings + [MeterReading(timestamp, kwh)];
    }

    /** `calculate_total_consumption`. */
    function CalculateTotalConsumption(): int
      reads this
    {
      SumKwh(meterReadings)
    }

    /** `generate_report`: the building's name with its total. */
    function GenerateReport(): (r: BuildingReport)
      reads this
      ensures r.building == name
      ensures r.totalConsumption == SumKwh(meterReadings)
    {
      BuildingReport(name, CalculateTotalConsumption())
    }
  }

  class BuildingManager {
    var buildings: map<string, Building>

    /** Every building is filed under its own name; so two names never share
        one `Building`. */
    ghost predicate Valid()
      reads this
    {
      forall b :: b in buildings ==> buildings[b].name == b
    }

    constructor ()
      ensures Valid() && buildings == map[]
    {
      buildings := map[];
    }

    /** The readings each building holds, by name. */
    ghost function Readings(): (m: Ledger)
      reads this, buildings.Values
      ensures m.Keys == buildings.Keys
    {
      map b | b in buildings :: buildings[b].meterReadings
    }

    /** The first half of the loop body: the building named `b` is looked up
        and created, with no readings, if it is new. */
    method Open(b: string) returns (nb: Building)
      requires Valid()
      modifies this
      ensures Valid()
      ensures b in buildings && buildings[b] == nb && nb.name == b
      ensures buildings.Keys == old(buildings.Keys) + {b}
      ensures forall c :: c in old(buildings) ==> buildings[c] == old(buildings[c])
      ensures forall c :: c in buildings && c !in old(buildings) ==> fresh(buildings[c])
      ensures Readings() == Opened(old(Readings()), b)
    {
      if b in buildings {
        nb := buildings[b];
      } else {
        nb := new Building(b);
        buildings := buildings[b := nb];
      }
    }

    /** The body of the loop of `add_readings_from_df` for one row: the
        row's building is created if it is new, and the row is appended to
        that building's readings; no other building changes. */
    method FileRow(r: Row)
      requires Valid()
      modifies this, buildings.Values
      ensures Valid()
      ensures buildings.Keys == old(buildings.Keys) + {r.building}
      ensures forall c :: c in old(buildings) ==> buildings[c] == old(buildings[c])
      ensures forall c :: c in buildings && c !in old(buildings) ==> fresh(buildings[c])
      ensures Readings() == File(old(Readings()), r)
    {
      ghost var before := Readings();
      var b := r.building;
      var nb := Open(b);
      ghost var mid := Readings();
      nb.AddReading(r.timestamp, r.kwh);
      forall c | c in buildings && c != b
        ensures buildings[c] != nb
      {
        assert buildings[c].name == c;
      }
      assert Readings() == mid[b := mid[b] + [MeterReading(r.timestamp, r.kwh)]];
      FileIsOpenThenAppend(before, r);
    }

    /** `add_readings_from_df`: files each row, in order, under its
        building. Buildings already present stay the same objects, new ones
        are fresh, and what every building holds afterwards is what
        `FileAll` says (see `FileAllContents`). */
    method AddReadingsFromRows(rows: seq<Row>)
      requires Valid()
      modifies this, buildings.Values
      ensures Valid()
      ensures old(buildings.Keys) <= buildings.Keys
      ensures forall b :: b in old(buildings) ==> buildings[b] == old(buildings[b])
      ensures forall b :: b in buildings && b !in old(buildings) ==> fresh(buildings[b])
      ensures Readings() == FileAll(old(Readings()), rows)
    {
      ghost var base := Readings();
      var i := 0;
      while i < |rows|
        invariant 0 <= i <= |rows|
        invariant Valid()
        invariant forall b :: b in old(buildings) ==> b in buildings && buildings[b] == old(buildings[b])
        invariant forall b :: b in buildings && b !in old(buildings) ==> fresh(buildings[b])
        invariant Readings() == FileAll(base, rows[..i])
      {
        assert rows[..i + 1][..i] == rows[..i];
        FileRow(rows[i]);
        i := i + 1;
      }
      assert rows[..|rows|] == rows;
    }
  }

  /** What each building holds, by name. */
  type Ledger = map<string, seq<MeterReading>>

  /** Files one row under its building, opening the building on first sight. */
  function File(m: Ledger, r: Row): Ledger
  {
    m[r.building := (if r.building in m then m[r.building] else []) + [MeterReading(r.timestamp, r.kwh)]]
  }

  /** Opens an empty entry for `b` unless it has one. */
  function Opened(m: Ledger, b: string): (o: Ledger)
    ensures o.Keys == m.Keys + {b}
    ensures forall c :: c in m ==> o[c] == m[c]
    ensures b !in m ==> o[b] == []
  {
    if b in m then m else m[b := []]
  }

  /** Filing a row is opening its building, then appending to it. */
  lemma FileIsOpenThenAppend(m: Ledger, r: Row)
    ensures File(m, r) == Opened(m, r.building)[r.building :=
      Opened(m, r.building)[r.building] + [MeterReading(r.timestamp, r.kwh)]]
  {
  }

  /** Files `rows` one after the other. */
  function FileAll(m: Ledger, rows: seq<Row>): Ledger
  {
    if rows == [] then m else File(FileAll(m, rows[..|rows| - 1]), rows[|rows| - 1])
  }

  /** After filing `rows` on top of `m`: every name of `rows` has exactly
      one entry, no other entry appears, and each entry is its old readings
      followed by its own rows, in row order. */
  lemma {:induction false} FileAllContents(m: Ledger, rows: seq<Row>)
    ensures FileAll(m, rows).Keys == m.Keys + Names(rows)
    ensures forall b :: b in FileAll(m, rows) ==>
      FileAll(m, rows)[b] == (if b in m then m[b] else []) + ReadingsOf(Group(rows, b))
  {
    if rows != [] {
      var n := |rows| - 1;
      var p, x := rows[..n], rows[n];
      assert rows == p + [x];
      FileAllContents(m, p);
      var f := FileAll(m, p);
      assert FileAll(m, rows).Keys == m.Keys + Names(rows) by {
        NamesSnoc(p, x);
        FileKeys(f, x);
      }
      forall b | b in File(f, x)
        ensures File(f, x)[b] == (if b in m then m[b] else []) + ReadingsOf(Group(rows, b))
      {
        FileContentsStep(m, f, p, x, b);
      }
    }
  }

  /** Filing `rows` into an empty registry opens one entry per building of
      `rows`, holding exactly that building's rows as readings. */
  lemma FileAllFromEmpty(rows: seq<Row>)
    ensures FileAll(map[], rows).Keys == Names(rows)
    ensures forall b :: b in FileAll(map[], rows) ==> FileAll(map[], rows)[b] == ReadingsOf(Group(rows, b))
  {
    var empty: Ledger := map[];
    FileAllContents(empty, rows);
    assert empty.Keys + Names(rows) == Names(rows);
    forall b | b in FileAll(empty, rows)
      ensures FileAll(empty, rows)[b] == ReadingsOf(Group(rows, b))
    {
      assert [] + ReadingsOf(Group(rows, b)) == ReadingsOf(Group(rows, b));
    }
  }

  /** One filing step keeps building `b`'s entry what it should be. */
  lemma FileContentsStep(m: Ledger, f: Ledger, p: seq<Row>, x: Row, b: string)
    requires b in File(f, x)
    requires b in f ==> f[b] == (if b in m then m[b] else []) + ReadingsOf(Group(p, b))
    requires b !in f ==> b !in m && b !in Names(p)
    ensures File(f, x)[b] == (if b in m then m[b] else []) + ReadingsOf(Group(p + [x], b))
  {
    FileOne(p, x, b);
    var base := if b in m then m[b] else [];
    var added := if x.building == b then [MeterReading(x.timestamp, x.kwh)] else [];
    if b in f {
      AppendAssoc(base, ReadingsOf(Group(p, b)), added);
    } else {
      GroupOfNewName(p, b);
    }
  }

  lemma NamesSnoc(p: seq<Row>, x: Row)
    ensures Names(p + [x]) == Names(p) + {x.building}
  {
  }

  lemma FileKeys(f: Ledger, x: Row)
    ensures File(f, x).Keys == f.Keys + {x.building}
  {
  }

  lemma AppendAssoc(a: seq<MeterReading>, b: seq<MeterReading>, c: seq<MeterReading>)
    ensures a + b + c == a + (b + c)
  {
  }

  lemma GroupOfNewName(rows: seq<Row>, b: string)
    requires b !in Names(rows)
    ensures Group(rows, b) == []
  {
  }

  /** What one more row does to the readings of building `b`. */
  lemma FileOne(p: seq<Row>, x: Row, b: string)
    ensures ReadingsOf(Group(p + [x], b)) == ReadingsOf(Group(p, b))
      + (if x.building == b then [MeterReading(x.timestamp, x.kwh)] else [])
  {
    var q := p + [x];
    assert q[..|q| - 1] == p && q[|q| - 1] == x;
    if x.building == b {
      assert Group(q, b) == Group(p, b) + [x];
      ReadingsSnoc(Group(p, b), x);
    } else {
      assert Group(q, b) == Group(p, b) + [];
      assert Group(p, b) + [] == Group(p, b);
      assert ReadingsOf(Group(p, b)) + [] == ReadingsOf(Group(p, b));
    }
  }
}
