/** transform_output_data: the monthly generator CSV is unpivoted to one entry per
    (row, hour), blank cells dropped, values coerced to numbers and hours turned into
    timestamps; the entries are pivoted back to one record per (DateTime, Generator,
    FuelType) with one column per Measurement; records without Output are dropped and four
    scaled metrics are derived. */
module OutputReshape {
  import opened Wrappers
  import opened Decimal
  import opened Calendar
  import opened SchemaValidator

  // ---------------------------------------------------------------------------------
  // Order of the pivot index

  /** Python's string comparison: code point by code point, a proper prefix first. */
  predicate StrLess(a: string, b: string)
  {
    if a == [] then b != []
    else if b == [] then false
    else a[0] < b[0] || (a[0] == b[0] && StrLess(a[1..], b[1..]))
  }

  lemma {:induction false} StrLessIrreflexive(a: string)
    ensures !StrLess(a, a)
  {
    if a != [] {
      StrLessIrreflexive(a[1..]);
    }
  }

  lemma {:induction false} StrLessTransitive(a: string, b: string, c: string)
    requires StrLess(a, b) && StrLess(b, c)
    ensures StrLess(a, c)
  {
    if a != [] && a[0] == b[0] && b[0] == c[0] {
      StrLessTransitive(a[1..], b[1..], c[1..]);
    }
  }

  lemma {:induction false} StrLessTotal(a: string, b: string)
    requires a != b
    ensures StrLess(a, b) || StrLess(b, a)
  {
    if a != [] && b != [] && a[0] == b[0] {
      assert a == [a[0]] + a[1..] && b == [b[0]] + b[1..];
      StrLessTotal(a[1..], b[1..]);
    }
  }

  /** The index of the pivoted table: DateTime (hours since the calendar's origin),
      Generator, Fuel Type. */
  datatype Key = Key(dateTime: int, generator: string, fuelType: string)

  /** pandas orders the pivoted index lexicographically. */
  predicate KeyLess(a: Key, b: Key)
  {
    a.dateTime < b.dateTime ||
    (a.dateTime == b.dateTime &&
      (StrLess(a.generator, b.generator) || (a.generator == b.generator && StrLess(a.fuelType, b.fuelType))))
  }

  lemma KeyLessIrreflexive(a: Key)
    ensures !KeyLess(a, a)
  {
    StrLessIrreflexive(a.generator);
    StrLessIrreflexive(a.fuelType);
  }

  lemma KeyLessTransitive(a: Key, b: Key, c: Key)
    requires KeyLess(a, b) && KeyLess(b, c)
    ensures KeyLess(a, c)
  {
    if a.dateTime == b.dateTime == c.dateTime {
      if StrLess(a.generator, b.generator) && StrLess(b.generator, c.generator) {
        StrLessTransitive(a.generator, b.generator, c.generator);
      }
      if a.generator == b.generator == c.generator {
        StrLessIrreflexive(a.generator);
        StrLessTransitive(a.fuelType, b.fuelType, c.fuelType);
      }
    }
  }

  lemma KeyLessTotal(a: Key, b: Key)
    requires a != b
    ensures KeyLess(a, b) || KeyLess(b, a)
  {
    if a.generator != b.generator {
      StrLessTotal(a.generator, b.generator);
    } else if a.fuelType != b.fuelType {
      StrLessTotal(a.fuelType, b.fuelType);
    }
  }

  // ---------------------------------------------------------------------------------
  // The long table and the pivot

  /** One entry of the long table: timestamp, generator, fuel type, measurement name (after
      the rename of "Available Capacity") and the coerced value, missing when coercion failed. */
  datatype Reading = Reading(dateTime: int, generator: string, fuelType: string, measurement: string, energy: Option<real>)

  function KeyOf(r: Reading): Key
  {
    Key(r.dateTime, r.generator, r.fuelType)
  }

  /** Two entries that would land in the same cell of the pivoted table. */
  predicate SameCell(a: Reading, b: Reading)
  {
    KeyOf(a) == KeyOf(b) && a.measurement == b.measurement
  }

  predicate NoDuplicateEntry(long: seq<Reading>)
  {
    forall i, j :: 0 <= i < j < |long| ==> !SameCell(long[i], long[j])
  }

  /** A row of the pivoted table: its index and the cells it has a value (possibly NaN) for. */
  datatype PivotRow = PivotRow(key: Key, cells: map<string, Option<real>>)

  predicate Increasing(t: seq<PivotRow>)
  {
    forall i, j :: 0 <= i < j < |t| ==> KeyLess(t[i].key, t[j].key)
  }

  function Keys(t: seq<PivotRow>): set<Key>
  {
    if t == [] then {} else {t[0].key} + Keys(t[1..])
  }

  lemma {:induction false} KeysMembers(t: seq<PivotRow>, k: Key)
    ensures k in Keys(t) <==> exists i :: 0 <= i < |t| && t[i].key == k
  {
    if t != [] {
      KeysMembers(t[1..], k);
      if exists i :: 0 <= i < |t| && t[i].key == k {
        var i :| 0 <= i < |t| && t[i].key == k;
        if i > 0 {
          assert t[1..][i - 1].key == k;
        }
      }
    }
  }

  /** An index without a row has no cells. */
  lemma {:induction false} CellsAtAbsent(t: seq<PivotRow>, k: Key)
    requires forall j :: 0 <= j < |t| ==> t[j].key != k
    ensures CellsAt(t, k) == map[]
  {
    if t != [] {
      CellsAtAbsent(t[1..], k);
    }
  }

  /** The cells of the row indexed k; none when there is no such row. */
  function CellsAt(t: seq<PivotRow>, k: Key): map<string, Option<real>>
  {
    if t == [] then map[] else if t[0].key == k then t[0].cells else CellsAt(t[1..], k)
  }

  /** Enter one long entry into the pivoted table kept in index order: a new row when its
      index is new, a new cell of the existing row otherwise; a cell that is already filled
      is pivot's "Index contains duplicate entries" ValueError. */
  function Place(t: seq<PivotRow>, r: Reading): (res: Result<seq<PivotRow>>)
    requires Increasing(t)
    ensures res.Ok? ==> Increasing(res.value) && Keys(res.value) == Keys(t) + {KeyOf(r)}
  {
    var k := KeyOf(r);
    if t == [] then
      assert [PivotRow(k, map[r.measurement := r.energy])][1..] == [];
      Ok([PivotRow(k, map[r.measurement := r.energy])])
    else if t[0].key == k then
      if r.measurement in t[0].cells then Err(ValueError)
      else
        assert ([t[0].(cells := t[0].cells[r.measurement := r.energy])] + t[1..])[1..] == t[1..];
        Ok([t[0].(cells := t[0].cells[r.measurement := r.energy])] + t[1..])
    else if KeyLess(k, t[0].key) then
      PlaceFirst(t, PivotRow(k, map[r.measurement := r.energy]));
      Ok([PivotRow(k, map[r.measurement := r.energy])] + t)
    else
      match Place(t[1..], r)
      case Err(e) => Err(e)
      case Ok(rest) =>
        KeyLessTotal(k, t[0].key);
        PlaceAfter(t, rest, k);
        Ok([t[0]] + rest)
  }

  lemma PlaceFirst(t: seq<PivotRow>, row: PivotRow)
    requires Increasing(t) && t != [] && KeyLess(row.key, t[0].key)
    ensures Increasing([row] + t) && Keys([row] + t) == Keys(t) + {row.key}
    ensures forall j :: 0 <= j < |t| ==> t[j].key != row.key
  {
    forall j | 0 <= j < |t|
      ensures KeyLess(row.key, t[j].key)
    {
      if j > 0 {
        KeyLessTransitive(row.key, t[0].key, t[j].key);
      }
    }
    forall j | 0 <= j < |t|
      ensures t[j].key != row.key
    {
      KeyLessIrreflexive(row.key);
    }
    assert ([row] + t)[1..] == t;
  }

  lemma PlaceAfter(t: seq<PivotRow>, rest: seq<PivotRow>, k: Key)
    requires Increasing(t) && t != [] && KeyLess(t[0].key, k)
    requires Increasing(rest) && Keys(rest) == Keys(t[1..]) + {k}
    ensures Increasing([t[0]] + rest) && Keys([t[0]] + rest) == Keys(t) + {k}
  {
    forall j | 0 <= j < |rest|
      ensures KeyLess(t[0].key, rest[j].key)
    {
      KeysMembers(rest, rest[j].key);
      if rest[j].key != k {
        KeysMembers(t[1..], rest[j].key);
        var i :| 0 <= i < |t[1..]| && t[1..][i].key == rest[j].key;
        assert t[i + 1].key == rest[j].key;
      }
    }
    assert ([t[0]] + rest)[1..] == rest;
  }

  /** Placing an entry fills exactly its own cell, and fails exactly when that cell is
      already filled. */
  lemma {:induction false} PlaceCells(t: seq<PivotRow>, r: Reading)
    requires Increasing(t)
    ensures Place(t, r).Ok? <==> r.measurement !in CellsAt(t, KeyOf(r))
    ensures Place(t, r).Ok? ==>
              forall k :: CellsAt(Place(t, r).value, k) == (if k == KeyOf(r) then CellsAt(t, k)[r.measurement := r.energy] else CellsAt(t, k))
  {
    var k := KeyOf(r);
    if t != [] && t[0].key != k && !KeyLess(k, t[0].key) {
      PlaceCells(t[1..], r);
      if Place(t, r).Ok? {
        var rest := Place(t[1..], r).value;
        assert ([t[0]] + rest)[1..] == rest;
      }
    } else if t != [] && t[0].key == k && r.measurement !in t[0].cells {
      assert ([t[0].(cells := t[0].cells[r.measurement := r.energy])] + t[1..])[1..] == t[1..];
    } else if t != [] && KeyLess(k, t[0].key) {
      PlaceFirst(t, PivotRow(k, map[r.measurement := r.energy]));
      CellsAtAbsent(t, k);
      assert ([PivotRow(k, map[r.measurement := r.energy])] + t)[1..] == t;
    }
  }

  /** df.pivot(index=['DateTime', 'Generator', 'Fuel Type'], columns='Measurement',
      values='Energy'), the long entries entered in order. */
  function PivotTable(long: seq<Reading>): (r: Result<seq<PivotRow>>)
    ensures r.Ok? ==> Increasing(r.value)
  {
    if long == [] then Ok([])
    else
      match PivotTable(long[..|long| - 1])
      case Err(e) => Err(e)
      case Ok(t) => Place(t, long[|long| - 1])
  }

  /** The cells of t are exactly those the entries of long fill, each holding its entry's
      value. */
  ghost predicate Tabulates(t: seq<PivotRow>, long: seq<Reading>)
  {
    (forall k, m :: m in CellsAt(t, k) ==> exists i :: 0 <= i < |long| && KeyOf(long[i]) == k && long[i].measurement == m) &&
    (forall i :: 0 <= i < |long| ==>
       long[i].measurement in CellsAt(t, KeyOf(long[i])) && CellsAt(t, KeyOf(long[i]))[long[i].measurement] == long[i].energy)
  }

  lemma PivotStep(t: seq<PivotRow>, front: seq<Reading>, last: Reading)
    requires Increasing(t) && Tabulates(t, front) && NoDuplicateEntry(front + [last])
    requires last.measurement !in CellsAt(t, KeyOf(last))
    ensures Place(t, last).Ok? && Tabulates(Place(t, last).value, front + [last])
  {
    PlaceCells(t, last);
    var long := front + [last];
    var t' := Place(t, last).value;
    forall k, m | m in CellsAt(t', k)
      ensures exists i :: 0 <= i < |long| && KeyOf(long[i]) == k && long[i].measurement == m
    {
      if k == KeyOf(last) && m == last.measurement {
        assert long[|front|] == last;
      } else {
        var i :| 0 <= i < |front| && KeyOf(front[i]) == k && front[i].measurement == m;
        assert long[i] == front[i];
      }
    }
    forall i | 0 <= i < |long|
      ensures long[i].measurement in CellsAt(t', KeyOf(long[i])) && CellsAt(t', KeyOf(long[i]))[long[i].measurement] == long[i].energy
    {
      if i < |front| {
        assert long[i] == front[i];
        assert !SameCell(long[i], long[|front|]);
      }
    }
  }

  /** A list extended by one entry is free of duplicates exactly when the list is and no
      entry of it shares the new entry's cell. */
  lemma NoDuplicateSnoc(front: seq<Reading>, last: Reading)
    ensures NoDuplicateEntry(front + [last]) <==>
            NoDuplicateEntry(front) && forall i :: 0 <= i < |front| ==> !SameCell(front[i], last)
  {
    var long := front + [last];
    assert forall i :: 0 <= i < |front| ==> long[i] == front[i];
    assert long[|front|] == last;
  }

  /** In a table that tabulates front, the new entry's cell is taken exactly when an entry
      of front shares it. */
  lemma CellTaken(t: seq<PivotRow>, front: seq<Reading>, last: Reading)
    requires Tabulates(t, front)
    ensures last.measurement in CellsAt(t, KeyOf(last)) <==> exists i :: 0 <= i < |front| && SameCell(front[i], last)
  {
  }

  /** The pivot succeeds exactly when no two entries share a cell; then a row's cells are
      exactly the measurements entered for its index, each holding its entry's value. */
  lemma {:induction false} PivotCells(long: seq<Reading>)
    ensures PivotTable(long).Ok? <==> NoDuplicateEntry(long)
    ensures PivotTable(long).Ok? ==> Tabulates(PivotTable(long).value, long)
  {
    if long != [] {
      var front, last := long[..|long| - 1], long[|long| - 1];
      assert long == front + [last];
      PivotCells(front);
      NoDuplicateSnoc(front, last);
      if PivotTable(front).Ok? {
        var t := PivotTable(front).value;
        PlaceCells(t, last);
        CellTaken(t, front, last);
        if NoDuplicateEntry(long) {
          PivotStep(t, front, last);
        }
      }
    }
  }

  // ---------------------------------------------------------------------------------
  // The wide CSV and the unpivot

  /** A data row of the monthly CSV: the four identifying cells and the cells of Hour 1 to
      Hour 24, a cell read as missing being None. */
  datatype WideRow = WideRow(deliveryDate: string, generator: string, fuelType: string, measurement: string,
                             hours: seq<Option<string>>)

  predicate WellFormed(rows: seq<WideRow>)
  {
    forall i :: 0 <= i < |rows| ==> |rows[i].hours| == 24
  }

  /** A row of the melted frame: the identifying cells, the hour label and the Energy cell. */
  datatype MeltedRow = MeltedRow(deliveryDate: string, generator: string, fuelType: string, measurement: string,
                                 hour: string, energy: Option<string>)

  function MeltedCell(row: WideRow, h: nat): MeltedRow
    requires 1 <= h <= 24 && |row.hours| == 24
  {
    MeltedRow(row.deliveryDate, row.generator, row.fuelType, row.measurement, HourLabel(h), row.hours[h - 1])
  }

  /** The melted rows of column Hour h, one per wide row, in row order. */
  function Column(rows: seq<WideRow>, h: nat): (r: seq<MeltedRow>)
    requires WellFormed(rows) && 1 <= h <= 24
    ensures |r| == |rows| && forall i :: 0 <= i < |rows| ==> r[i] == MeltedCell(rows[i], h)
  {
    seq(|rows|, i requires 0 <= i < |rows| => MeltedCell(rows[i], h))
  }

  /** The melted rows of the columns Hour h to Hour 24, column after column. */
  function MeltFrom(rows: seq<WideRow>, h: nat): (r: seq<MeltedRow>)
    requires WellFormed(rows) && 1 <= h <= 25
    ensures |r| == (25 - h) * |rows|
    decreases 25 - h
  {
    if h == 25 then []
    else Column(rows, h) + MeltFrom(rows, h + 1)
  }

  /** pd.melt(df, id_vars=[...], value_vars=['Hour 1', ..., 'Hour 24']). */
  function Melt(rows: seq<WideRow>): seq<MeltedRow>
    requires WellFormed(rows)
  {
    MeltFrom(rows, 1)
  }

  lemma {:induction false} MeltFromMembers(rows: seq<WideRow>, h: nat, x: MeltedRow)
    requires WellFormed(rows) && 1 <= h <= 25
    ensures x in MeltFrom(rows, h) <==> exists i, g :: 0 <= i < |rows| && h <= g <= 24 && x == MeltedCell(rows[i], g)
    decreases 25 - h
  {
    if h < 25 {
      MeltFromMembers(rows, h + 1, x);
      var column := Column(rows, h);
      assert MeltFrom(rows, h) == column + MeltFrom(rows, h + 1);
      assert x in MeltFrom(rows, h) <==> x in column || x in MeltFrom(rows, h + 1);
      if x in column {
        var i :| 0 <= i < |column| && column[i] == x;
        assert x == MeltedCell(rows[i], h);
      }
      if exists i, g :: 0 <= i < |rows| && h <= g <= 24 && x == MeltedCell(rows[i], g) {
        var i, g :| 0 <= i < |rows| && h <= g <= 24 && x == MeltedCell(rows[i], g);
        if g == h {
          assert column[i] == x;
        }
      }
    }
  }

  /** A cell replace(' ', np.nan) and dropna(subset=['Energy']) discard. */
  predicate Blank(energy: Option<string>)
  {
    energy.None? || energy.value == " "
  }

  /** The cell of hour h of a wide row survives the blank drop. */
  predicate Filled(row: WideRow, h: nat)
    requires 1 <= h <= 24 && |row.hours| == 24
  {
    !Blank(row.hours[h - 1])
  }

  /** melted_df['Energy'].replace(' ', np.nan); melted_df.dropna(subset=['Energy']). */
  function DropBlank(cells: seq<MeltedRow>): (r: seq<MeltedRow>)
    ensures |r| <= |cells|
  {
    if cells == [] then []
    else (if Blank(cells[0].energy) then [] else [cells[0]]) + DropBlank(cells[1..])
  }

  lemma {:induction false} DropBlankMembers(cells: seq<MeltedRow>, x: MeltedRow)
    ensures x in DropBlank(cells) <==> x in cells && !Blank(x.energy)
  {
    if cells != [] {
      DropBlankMembers(cells[1..], x);
      assert cells == [cells[0]] + cells[1..];
    }
  }

  /** str.replace('Hour ', '') on a label that starts with it. */
  function StripHourPrefix(column: string): string
  {
    if |column| >= 5 && column[..5] == "Hour " then column[5..] else column
  }

  /** astype(int) - 1 on the stripped label. */
  function HourOffset(column: string): Option<int>
  {
    match ParseInt(StripHourPrefix(column))
    case None => None
    case Some(n) => Some(n - 1)
  }

  /** The label "Hour N" becomes the offset N - 1. */
  lemma HourLabelOffset(h: nat)
    ensures HourOffset(HourLabel(h)) == Some(h - 1)
  {
    assert StripHourPrefix(HourLabel(h)) == DecimalString(h);
    ParseDecimalString(h);
  }

  /** The rename {'Available Capacity': 'AvailableCapacity'} applied to a measurement name. */
  function Renamed(measurement: string): string
  {
    if measurement == "Available Capacity" then "AvailableCapacity" else measurement
  }

  /** Only Available Capacity changes name, and it becomes the one column name AvailableCapacity
      that an unrenamed measurement could also carry. */
  lemma RenamedNames(measurement: string)
    ensures Renamed(measurement) == "AvailableCapacity" <==>
              measurement == "Available Capacity" || measurement == "AvailableCapacity"
    ensures measurement != "Available Capacity" ==> Renamed(measurement) == measurement
  {
  }

  /** One melted row after pd.to_numeric(errors='coerce'), the hour conversion and
      pd.to_datetime(format='%Y-%m-%d') + to_timedelta. */
  function ReadingOf(c: MeltedRow): (r: Result<Reading>)
    ensures r.Err? ==> r.error == ValueError
  {
    match HourOffset(c.hour)
    case None => Err(ValueError)
    case Some(offset) =>
      match ParseIsoDate(c.deliveryDate)
      case None => Err(ValueError)
      case Some(date) =>
        Ok(Reading(HourStamp(date, offset), c.generator, c.fuelType, Renamed(c.measurement),
                   if c.energy.Some? then ToNumeric(c.energy.value) else None))
  }

  /** The column operations on all melted rows: a single row whose hour or date does not
      convert makes the whole column conversion raise ValueError. */
  function Readings(cells: seq<MeltedRow>): (r: Result<seq<Reading>>)
    ensures r.Err? ==> r.error == ValueError
  {
    if cells == [] then Ok([])
    else
      match ReadingOf(cells[0])
      case Err(e) => Err(e)
      case Ok(x) =>
        match Readings(cells[1..])
        case Err(e) => Err(e)
        case Ok(rest) => Ok([x] + rest)
  }

  lemma {:induction false} ReadingsOk(cells: seq<MeltedRow>)
    ensures Readings(cells).Ok? <==> forall i :: 0 <= i < |cells| ==> ReadingOf(cells[i]).Ok?
  {
    if cells != [] {
      ReadingsOk(cells[1..]);
      assert forall i :: 1 <= i < |cells| ==> cells[i] == cells[1..][i - 1];
    }
  }

  lemma {:induction false} ReadingsAt(cells: seq<MeltedRow>)
    requires Readings(cells).Ok?
    ensures |Readings(cells).value| == |cells|
    ensures forall i :: 0 <= i < |cells| ==> ReadingOf(cells[i]).Ok? && Readings(cells).value[i] == ReadingOf(cells[i]).value
  {
    if cells != [] {
      ReadingsAt(cells[1..]);
      assert forall i :: 1 <= i < |cells| ==> cells[i] == cells[1..][i - 1];
    }
  }

  /** The long table of the monthly CSV. */
  function Long(rows: seq<WideRow>): (r: Result<seq<Reading>>)
    requires WellFormed(rows)
    ensures r.Err? ==> r.error == ValueError
  {
    Readings(DropBlank(Melt(rows)))
  }

  /** The entry the cell of hour h of a wide row becomes, its date being date. */
  function Entry(row: WideRow, h: nat, date: Date): Reading
    requires 1 <= h <= 24 && |row.hours| == 24 && Filled(row, h) && ValidDate(date)
  {
    Reading(HourStamp(date, h - 1), row.generator, row.fuelType, Renamed(row.measurement), ToNumeric(row.hours[h - 1].value))
  }

  /** A melted row kept by the blank drop is the cell of some row and hour. */
  lemma KeptCell(rows: seq<WideRow>, x: MeltedRow)
    requires WellFormed(rows)
    ensures x in DropBlank(Melt(rows)) <==>
            exists i, h :: 0 <= i < |rows| && 1 <= h <= 24 && Filled(rows[i], h) && x == MeltedCell(rows[i], h)
  {
    if x in DropBlank(Melt(rows)) {
      KeptCellSource(rows, x);
    }
    if exists i, h :: 0 <= i < |rows| && 1 <= h <= 24 && Filled(rows[i], h) && x == MeltedCell(rows[i], h) {
      var i, h :| 0 <= i < |rows| && 1 <= h <= 24 && Filled(rows[i], h) && x == MeltedCell(rows[i], h);
      FilledCellKept(rows, i, h);
    }
  }

  lemma KeptCellSource(rows: seq<WideRow>, x: MeltedRow)
    requires WellFormed(rows) && x in DropBlank(Melt(rows))
    ensures exists i, h :: 0 <= i < |rows| && 1 <= h <= 24 && Filled(rows[i], h) && x == MeltedCell(rows[i], h)
  {
    DropBlankMembers(Melt(rows), x);
    MeltFromMembers(rows, 1, x);
    var i, g :| 0 <= i < |rows| && 1 <= g <= 24 && x == MeltedCell(rows[i], g);
    assert Filled(rows[i], g);
  }

  lemma FilledCellKept(rows: seq<WideRow>, i: nat, h: nat)
    requires WellFormed(rows) && i < |rows| && 1 <= h <= 24 && Filled(rows[i], h)
    ensures MeltedCell(rows[i], h) in DropBlank(Melt(rows))
  {
    var x := MeltedCell(rows[i], h);
    MeltFromMembers(rows, 1, x);
    assert x in Melt(rows);
    DropBlankMembers(Melt(rows), x);
  }

  /** The cell's entry, when the row's date converts. */
  lemma ReadingOfCell(row: WideRow, h: nat)
    requires 1 <= h <= 24 && |row.hours| == 24 && Filled(row, h)
    ensures ReadingOf(MeltedCell(row, h)).Ok? <==> ParseIsoDate(row.deliveryDate).Some?
    ensures ReadingOf(MeltedCell(row, h)).Ok? ==>
              ReadingOf(MeltedCell(row, h)).value == Entry(row, h, ParseIsoDate(row.deliveryDate).value)
  {
    HourLabelOffset(h);
  }

  /** The unpivot: it fails exactly when a non-blank cell sits in a row whose Delivery Date
      does not convert; otherwise the entries are exactly those of the non-blank cells, each
      with DateTime = Delivery Date + (N - 1) hours and its coerced value, missing when the
      text is not a number. The length bound follows from 24 cells per row; UnpivotOrder gives
      the exact count and order: one entry per non-blank cell, in melt order. */
  lemma Unpivot(rows: seq<WideRow>)
    requires WellFormed(rows)
    ensures Long(rows).Ok? <==> forall i, h :: 0 <= i < |rows| && 1 <= h <= 24 && Filled(rows[i], h) ==>
                                  ParseIsoDate(rows[i].deliveryDate).Some?
    ensures Long(rows).Ok? ==> |Long(rows).value| <= 24 * |rows|
    ensures Long(rows).Ok? ==> forall x :: x in Long(rows).value <==>
              exists i, h :: 0 <= i < |rows| && 1 <= h <= 24 && Filled(rows[i], h) &&
                             ParseIsoDate(rows[i].deliveryDate).Some? && x == Entry(rows[i], h, ParseIsoDate(rows[i].deliveryDate).value)
  {
    UnpivotSucceeds(rows);
    if Long(rows).Ok? {
      forall x
        ensures x in Long(rows).value <==>
              exists i, h :: 0 <= i < |rows| && 1 <= h <= 24 && Filled(rows[i], h) &&
                             ParseIsoDate(rows[i].deliveryDate).Some? && x == Entry(rows[i], h, ParseIsoDate(rows[i].deliveryDate).value)
      {
        LongMember(rows, x);
      }
      ReadingsAt(DropBlank(Melt(rows)));
      assert |Melt(rows)| == 24 * |rows|;
    }
  }

  lemma UnpivotSucceeds(rows: seq<WideRow>)
    requires WellFormed(rows)
    ensures Long(rows).Ok? <==> forall i, h :: 0 <= i < |rows| && 1 <= h <= 24 && Filled(rows[i], h) ==>
                                  ParseIsoDate(rows[i].deliveryDate).Some?
  {
    var cells := DropBlank(Melt(rows));
    ReadingsOk(cells);
    if Long(rows).Ok? {
      forall i, h | 0 <= i < |rows| && 1 <= h <= 24 && Filled(rows[i], h)
        ensures ParseIsoDate(rows[i].deliveryDate).Some?
      {
        KeptCell(rows, MeltedCell(rows[i], h));
        ReadingOfCell(rows[i], h);
      }
    } else {
      var k :| 0 <= k < |cells| && !ReadingOf(cells[k]).Ok?;
      KeptCell(rows, cells[k]);
      var i, h :| 0 <= i < |rows| && 1 <= h <= 24 && Filled(rows[i], h) && cells[k] == MeltedCell(rows[i], h);
      ReadingOfCell(rows[i], h);
    }
  }

  lemma LongMember(rows: seq<WideRow>, x: Reading)
    requires WellFormed(rows) && Long(rows).Ok?
    ensures x in Long(rows).value <==>
              exists i, h :: 0 <= i < |rows| && 1 <= h <= 24 && Filled(rows[i], h) &&
                             ParseIsoDate(rows[i].deliveryDate).Some? && x == Entry(rows[i], h, ParseIsoDate(rows[i].deliveryDate).value)
  {
    var cells := DropBlank(Melt(rows));
    ReadingsAt(cells);
    if x in Long(rows).value {
      var k :| 0 <= k < |cells| && Long(rows).value[k] == x;
      KeptCell(rows, cells[k]);
      var i, h :| 0 <= i < |rows| && 1 <= h <= 24 && Filled(rows[i], h) && cells[k] == MeltedCell(rows[i], h);
      ReadingOfCell(rows[i], h);
    }
    if exists i, h :: 0 <= i < |rows| && 1 <= h <= 24 && Filled(rows[i], h) &&
                      ParseIsoDate(rows[i].deliveryDate).Some? && x == Entry(rows[i], h, ParseIsoDate(rows[i].deliveryDate).value) {
      var i, h :| 0 <= i < |rows| && 1 <= h <= 24 && Filled(rows[i], h) &&
                  ParseIsoDate(rows[i].deliveryDate).Some? && x == Entry(rows[i], h, ParseIsoDate(rows[i].deliveryDate).value);
      KeptCell(rows, MeltedCell(rows[i], h));
      var k :| 0 <= k < |cells| && cells[k] == MeltedCell(rows[i], h);
      ReadingOfCell(rows[i], h);
    }
  }

  /** Cell p comes before cell q in melt order: an earlier column, or the same column and an
      earlier row. */
  predicate MeltBefore(p: (nat, nat), q: (nat, nat))
  {
    p.1 < q.1 || (p.1 == q.1 && p.0 < q.0)
  }

  /** The filled cells (row, hour) of column Hour h among the first n rows, top to bottom. */
  function ColumnCells(rows: seq<WideRow>, h: nat, n: nat): (ps: seq<(nat, nat)>)
    requires WellFormed(rows) && 1 <= h <= 24 && n <= |rows|
    ensures forall k :: 0 <= k < |ps| ==> ps[k].1 == h && ps[k].0 < n && Filled(rows[ps[k].0], h)
    ensures forall k, l :: 0 <= k < l < |ps| ==> ps[k].0 < ps[l].0
  {
    if n == 0 then []
    else ColumnCells(rows, h, n - 1) + (if Filled(rows[n - 1], h) then [(n - 1, h)] else [])
  }

  /** The filled cells of the columns Hour h to Hour 24 in melt order, each once. */
  function FilledCells(rows: seq<WideRow>, h: nat): (ps: seq<(nat, nat)>)
    requires WellFormed(rows) && 1 <= h <= 25
    ensures forall k :: 0 <= k < |ps| ==> ps[k].0 < |rows| && h <= ps[k].1 <= 24 && Filled(rows[ps[k].0], ps[k].1)
    ensures forall k, l :: 0 <= k < l < |ps| ==> MeltBefore(ps[k], ps[l])
    decreases 25 - h
  {
    if h == 25 then []
    else
      var column := ColumnCells(rows, h, |rows|);
      var rest := FilledCells(rows, h + 1);
      assert forall k, l :: 0 <= k < |column| && 0 <= l < |rest| ==> MeltBefore(column[k], rest[l]);
      column + rest
  }

  lemma {:induction false} ColumnCellsComplete(rows: seq<WideRow>, h: nat, n: nat, i: nat)
    requires WellFormed(rows) && 1 <= h <= 24 && i < n <= |rows| && Filled(rows[i], h)
    ensures (i, h) in ColumnCells(rows, h, n)
  {
    if i < n - 1 {
      ColumnCellsComplete(rows, h, n - 1, i);
    }
  }

  /** Every filled cell of the columns Hour h to Hour 24 is enumerated. */
  lemma {:induction false} FilledCellsComplete(rows: seq<WideRow>, h: nat, i: nat, g: nat)
    requires WellFormed(rows) && 1 <= h <= g <= 24 && i < |rows| && Filled(rows[i], g)
    ensures (i, g) in FilledCells(rows, h)
    decreases 25 - h
  {
    if g == h {
      ColumnCellsComplete(rows, h, |rows|, i);
    } else {
      FilledCellsComplete(rows, h + 1, i, g);
    }
  }

  /** The melted rows of the cells ps, in the order of ps. */
  function MeltedCells(rows: seq<WideRow>, ps: seq<(nat, nat)>): (r: seq<MeltedRow>)
    requires WellFormed(rows)
    requires forall k :: 0 <= k < |ps| ==> ps[k].0 < |rows| && 1 <= ps[k].1 <= 24
    ensures |r| == |ps|
  {
    seq(|ps|, k requires 0 <= k < |ps| => MeltedCell(rows[ps[k].0], ps[k].1))
  }

  lemma {:induction false} DropBlankConcat(a: seq<MeltedRow>, b: seq<MeltedRow>)
    ensures DropBlank(a + b) == DropBlank(a) + DropBlank(b)
  {
    if a == [] {
      assert a + b == b;
    } else {
      assert (a + b)[1..] == a[1..] + b;
      DropBlankConcat(a[1..], b);
    }
  }

  /** Dropping the blank cells of column Hour h, first n rows, leaves that column's filled
      cells. */
  lemma {:induction false} ColumnDrop(rows: seq<WideRow>, h: nat, n: nat)
    requires WellFormed(rows) && 1 <= h <= 24 && n <= |rows|
    ensures DropBlank(Column(rows, h)[..n]) == MeltedCells(rows, ColumnCells(rows, h, n))
  {
    if n > 0 {
      var column := Column(rows, h);
      assert column[..n] == column[..n - 1] + [column[n - 1]];
      ColumnDrop(rows, h, n - 1);
      DropBlankConcat(column[..n - 1], [column[n - 1]]);
      assert DropBlank([column[n - 1]]) == if Filled(rows[n - 1], h) then [column[n - 1]] else [];
    }
  }

  /** The blank drop of the melt is the melted rows of the filled cells, in melt order. */
  lemma {:induction false} MeltDrop(rows: seq<WideRow>, h: nat)
    requires WellFormed(rows) && 1 <= h <= 25
    ensures DropBlank(MeltFrom(rows, h)) == MeltedCells(rows, FilledCells(rows, h))
    decreases 25 - h
  {
    if h < 25 {
      var column := Column(rows, h);
      var cs := ColumnCells(rows, h, |rows|);
      var fs := FilledCells(rows, h + 1);
      calc {
        DropBlank(MeltFrom(rows, h));
        DropBlank(column + MeltFrom(rows, h + 1));
        { DropBlankConcat(column, MeltFrom(rows, h + 1)); }
        DropBlank(column) + DropBlank(MeltFrom(rows, h + 1));
        { ColumnDrop(rows, h, |rows|); assert column[..|rows|] == column; MeltDrop(rows, h + 1); }
        MeltedCells(rows, cs) + MeltedCells(rows, fs);
        { MeltedCellsConcat(rows, cs, fs); }
        MeltedCells(rows, cs + fs);
      }
    }
  }

  lemma MeltedCellsConcat(rows: seq<WideRow>, a: seq<(nat, nat)>, b: seq<(nat, nat)>)
    requires WellFormed(rows)
    requires forall k :: 0 <= k < |a| ==> a[k].0 < |rows| && 1 <= a[k].1 <= 24
    requires forall k :: 0 <= k < |b| ==> b[k].0 < |rows| && 1 <= b[k].1 <= 24
    ensures MeltedCells(rows, a + b) == MeltedCells(rows, a) + MeltedCells(rows, b)
  {
  }

  /** The long table in full: one entry per filled cell, entry k being the k-th filled cell
      in melt order (column Hour 1 top to bottom, then Hour 2, ...), stamped and coerced. */
  lemma UnpivotOrder(rows: seq<WideRow>)
    requires WellFormed(rows) && Long(rows).Ok?
    ensures var cells := FilledCells(rows, 1);
      |Long(rows).value| == |cells| &&
      forall k :: 0 <= k < |cells| ==>
        ParseIsoDate(rows[cells[k].0].deliveryDate).Some? &&
        Long(rows).value[k] == Entry(rows[cells[k].0], cells[k].1, ParseIsoDate(rows[cells[k].0].deliveryDate).value)
  {
    var cells := FilledCells(rows, 1);
    MeltDrop(rows, 1);
    ReadingsAt(DropBlank(Melt(rows)));
    forall k | 0 <= k < |cells|
      ensures ParseIsoDate(rows[cells[k].0].deliveryDate).Some? &&
        Long(rows).value[k] == Entry(rows[cells[k].0], cells[k].1, ParseIsoDate(rows[cells[k].0].deliveryDate).value)
    {
      assert DropBlank(Melt(rows))[k] == MeltedCell(rows[cells[k].0], cells[k].1);
      ReadingOfCell(rows[cells[k].0], cells[k].1);
    }
  }

  // ---------------------------------------------------------------------------------
  // The pivoted table read back against the long table

  /** The first long entry's value for index k and measurement m; none when there is none. */
  function EnergyOf(long: seq<Reading>, k: Key, m: string): Option<real>
  {
    if long == [] then None
    else if KeyOf(long[0]) == k && long[0].measurement == m then long[0].energy
    else EnergyOf(long[1..], k, m)
  }

  lemma {:induction false} EnergyOfEntry(long: seq<Reading>, i: nat)
    requires NoDuplicateEntry(long) && i < |long|
    ensures EnergyOf(long, KeyOf(long[i]), long[i].measurement) == long[i].energy
  {
    if i > 0 {
      assert !SameCell(long[0], long[i]);
      assert forall a, b :: 0 <= a < b < |long[1..]| ==> long[1..][a] == long[a + 1] && long[1..][b] == long[b + 1];
      EnergyOfEntry(long[1..], i - 1);
    }
  }

  lemma {:induction false} EnergyOfAbsent(long: seq<Reading>, k: Key, m: string)
    requires forall i :: 0 <= i < |long| ==> !(KeyOf(long[i]) == k && long[i].measurement == m)
    ensures EnergyOf(long, k, m) == None
  {
    if long != [] {
      assert forall i :: 0 <= i < |long[1..]| ==> long[1..][i] == long[i + 1];
      EnergyOfAbsent(long[1..], k, m);
    }
  }

  /** In a table with increasing index, the cells at a row's index are that row's. */
  lemma {:induction false} CellsAtRow(t: seq<PivotRow>, j: nat)
    requires Increasing(t) && j < |t|
    ensures CellsAt(t, t[j].key) == t[j].cells
  {
    if j > 0 {
      KeyLessIrreflexive(t[0].key);
      CellsAtRow(t[1..], j - 1);
    }
  }

  /** A filled cell belongs to a row of the table. */
  lemma {:induction false} CellsAtFound(t: seq<PivotRow>, k: Key, m: string)
    requires m in CellsAt(t, k)
    ensures exists j :: 0 <= j < |t| && t[j].key == k
  {
    if t[0].key != k {
      CellsAtFound(t[1..], k, m);
      var j :| 0 <= j < |t[1..]| && t[1..][j].key == k;
      assert t[j + 1].key == k;
    }
  }

  /** pivot raises exactly when two entries share a cell. */
  lemma PivotFails(long: seq<Reading>)
    ensures PivotTable(long).Err? <==> !NoDuplicateEntry(long)
    ensures PivotTable(long).Err? ==> PivotTable(long).error == ValueError
  {
    PivotCells(long);
    PivotError(long);
  }

  lemma {:induction false} PivotError(long: seq<Reading>)
    ensures PivotTable(long).Err? ==> PivotTable(long).error == ValueError
  {
    if long != [] {
      PivotError(long[..|long| - 1]);
      if PivotTable(long[..|long| - 1]).Ok? {
        PlaceError(PivotTable(long[..|long| - 1]).value, long[|long| - 1]);
      }
    }
  }

  lemma {:induction false} PlaceError(t: seq<PivotRow>, r: Reading)
    requires Increasing(t)
    ensures Place(t, r).Err? ==> Place(t, r).error == ValueError
  {
    if t != [] && t[0].key != KeyOf(r) && !KeyLess(KeyOf(r), t[0].key) {
      PlaceError(t[1..], r);
    }
  }

  /** The cell of column m in a pivoted row, missing when the row has none. */
  function CellOf(row: PivotRow, m: string): Option<real>
  {
    if m in row.cells then row.cells[m] else None
  }

  /** Each cell of the pivoted table is the value entered for its row and column. */
  lemma PivotCellOf(long: seq<Reading>, j: nat, m: string)
    requires PivotTable(long).Ok? && j < |PivotTable(long).value|
    ensures var row := PivotTable(long).value[j];
      CellOf(row, m) == EnergyOf(long, row.key, m)
  {
    var t := PivotTable(long).value;
    PivotCells(long);
    CellsAtRow(t, j);
    if m in t[j].cells {
      var i :| 0 <= i < |long| && KeyOf(long[i]) == t[j].key && long[i].measurement == m;
      EnergyOfEntry(long, i);
    } else {
      EnergyOfAbsent(long, t[j].key, m);
    }
  }

  // ---------------------------------------------------------------------------------
  // Measurement columns, the Output filter and the scaled metrics

  const MeasurementColumns: seq<string> := ["AvailableCapacity", "Capability", "Forecast", "Output"]

  /** The pivot produces a column for every measurement name of the long table. */
  predicate HasColumn(long: seq<Reading>, c: string)
  {
    exists i :: 0 <= i < |long| && long[i].measurement == c
  }

  function FirstMissing(long: seq<Reading>, columns: seq<string>): (r: Option<string>)
    ensures r.None? <==> forall c :: c in columns ==> HasColumn(long, c)
    ensures r.Some? ==> r.value in columns && !HasColumn(long, r.value)
  {
    if columns == [] then None
    else if !HasColumn(long, columns[0]) then Some(columns[0])
    else FirstMissing(long, columns[1..])
  }

  /** transformed_df[measurement_cols] raises KeyError for a column the pivot did not
      produce; the model names the first one. */
  function MissingColumn(long: seq<Reading>): (r: Option<string>)
    ensures r.None? <==> forall c :: c in MeasurementColumns ==> HasColumn(long, c)
    ensures r.Some? ==> r.value in MeasurementColumns && !HasColumn(long, r.value)
  {
    FirstMissing(long, MeasurementColumns)
  }

  /** transformed_df.dropna(subset=['Output']). */
  function WithOutput(t: seq<PivotRow>): (r: seq<PivotRow>)
    ensures forall x :: x in r <==> x in t && CellOf(x, "Output").Some?
    ensures Increasing(t) ==> Increasing(r)
  {
    if t == [] then []
    else
      var rest := WithOutput(t[1..]);
      assert t == [t[0]] + t[1..];
      WithOutputHead(t, rest);
      (if CellOf(t[0], "Output").Some? then [t[0]] else []) + rest
  }

  lemma WithOutputHead(t: seq<PivotRow>, rest: seq<PivotRow>)
    requires t != [] && forall x :: x in rest ==> x in t[1..]
    ensures Increasing(t) ==> forall j :: 0 <= j < |rest| ==> KeyLess(t[0].key, rest[j].key)
  {
    if Increasing(t) {
      forall j | 0 <= j < |rest|
        ensures KeyLess(t[0].key, rest[j].key)
      {
        assert rest[j] in rest;
        var i :| 0 <= i < |t[1..]| && t[1..][i] == rest[j];
        assert t[i + 1] == rest[j];
      }
    }
  }

  /** A record of the transformed table. Output is present in every record that survives. */
  datatype OutputRecord = OutputRecord(dateTime: int, generator: string, fuelType: string,
                                       availableCapacity: Option<real>, capability: Option<real>,
                                       forecast: Option<real>, output: real,
                                       scaledAvailableCapacity: Option<real>, scaledCapability: Option<real>,
                                       scaledForecast: Option<real>, scaledOutput: Option<real>)

  function RecordKey(x: OutputRecord): Key
  {
    Key(x.dateTime, x.generator, x.fuelType)
  }

  /** A kept pivoted row read through the renamed columns, before any scaled column exists. */
  function Unscaled(row: PivotRow): OutputRecord
    requires CellOf(row, "Output").Some?
  {
    OutputRecord(row.key.dateTime, row.key.generator, row.key.fuelType,
                 CellOf(row, "AvailableCapacity"), CellOf(row, "Capability"), CellOf(row, "Forecast"),
                 CellOf(row, "Output").value, None, None, None, None)
  }

  function Project(t: seq<PivotRow>): (r: seq<OutputRecord>)
    requires forall i :: 0 <= i < |t| ==> CellOf(t[i], "Output").Some?
    ensures |r| == |t| && forall i :: 0 <= i < |t| ==> r[i] == Unscaled(t[i])
  {
    seq(|t|, i requires 0 <= i < |t| && CellOf(t[i], "Output").Some? => Unscaled(t[i]))
  }

  /** Column division after replace([inf, -inf], nan): missing when an operand is missing or
      the denominator is zero (x / 0 is infinite, 0 / 0 is NaN). */
  function Div(a: Option<real>, b: Option<real>): Option<real>
  {
    if a.Some? && b.Some? && b.value != 0.0 then Some(a.value / b.value) else None
  }

  /** The quotient is present exactly when both operands are and the divisor is not zero,
      and then it times the divisor gives the dividend back. */
  lemma DivInverse(a: Option<real>, b: Option<real>)
    ensures Div(a, b).Some? <==> a.Some? && b.Some? && b.value != 0.0
    ensures Div(a, b).Some? ==> Div(a, b).value * b.value == a.value
  {
  }

  /** .loc[AvailableCapacity.notnull(), 'ScaledAvailableCapacity'] = 1 */
  function ScaleAvailableCapacity(x: OutputRecord): OutputRecord
  {
    if x.availableCapacity.Some? then x.(scaledAvailableCapacity := Some(1.0)) else x
  }

  /** .loc[Capability.notnull(), 'ScaledCapability'] = 1 */
  function ScaleCapability(x: OutputRecord): OutputRecord
  {
    if x.capability.Some? then x.(scaledCapability := Some(1.0)) else x
  }

  /** ['ScaledForecast'] = Forecast / AvailableCapacity */
  function ScaleForecast(x: OutputRecord): OutputRecord
  {
    x.(scaledForecast := Div(x.forecast, x.availableCapacity))
  }

  /** .loc[Capability.notnull(), 'ScaledOutput'] = Output / Capability */
  function ScaleOutputByCapability(x: OutputRecord): OutputRecord
  {
    if x.capability.Some? then x.(scaledOutput := Div(Some(x.output), x.capability)) else x
  }

  /** .loc[AvailableCapacity.notnull(), 'ScaledOutput'] = Output / AvailableCapacity */
  function ScaleOutputByAvailableCapacity(x: OutputRecord): OutputRecord
  {
    if x.availableCapacity.Some? then x.(scaledOutput := Div(Some(x.output), x.availableCapacity)) else x
  }

  /** One column assignment applied to every record. */
  function Apply(step: OutputRecord -> OutputRecord, t: seq<OutputRecord>): (r: seq<OutputRecord>)
    ensures |r| == |t| && forall i :: 0 <= i < |t| ==> r[i] == step(t[i])
  {
    seq(|t|, i requires 0 <= i < |t| => step(t[i]))
  }

  /** The five assignments in the order the code makes them. */
  function Scaled(x: OutputRecord): (r: OutputRecord)
    ensures r.(scaledAvailableCapacity := x.scaledAvailableCapacity, scaledCapability := x.scaledCapability,
               scaledForecast := x.scaledForecast, scaledOutput := x.scaledOutput) == x
  {
    ScaleOutputByAvailableCapacity(ScaleOutputByCapability(ScaleForecast(ScaleCapability(ScaleAvailableCapacity(x)))))
  }

  /** The scaled metrics as rules: the two flags are 1 exactly when their measurement is
      present, ScaledForecast is Forecast / AvailableCapacity, and ScaledOutput divides Output
      by AvailableCapacity when that is present, by Capability otherwise, and is missing
      when neither is. */
  predicate ScaledRules(x: OutputRecord)
  {
    x.scaledAvailableCapacity == (if x.availableCapacity.Some? then Some(1.0) else None) &&
    x.scaledCapability == (if x.capability.Some? then Some(1.0) else None) &&
    x.scaledForecast == Div(x.forecast, x.availableCapacity) &&
    x.scaledOutput == (if x.availableCapacity.Some? then Div(Some(x.output), x.availableCapacity)
                       else if x.capability.Some? then Div(Some(x.output), x.capability)
                       else None)
  }

  /** The assignments, starting from columns that do not exist yet, establish the rules and
      leave the index and the measurements alone. */
  lemma ScaledPrecedence(x: OutputRecord)
    requires x.scaledAvailableCapacity.None? && x.scaledCapability.None? && x.scaledForecast.None? && x.scaledOutput.None?
    ensures ScaledRules(Scaled(x))
    ensures Scaled(x).(scaledAvailableCapacity := None, scaledCapability := None, scaledForecast := None, scaledOutput := None) == x
  {
  }

  /** A record agrees with the long table: its Output, AvailableCapacity, Capability and
      Forecast are the values entered for its index, and its scaled metrics follow the
      rules. */
  ghost predicate Faithful(long: seq<Reading>, x: OutputRecord)
  {
    var k := RecordKey(x);
    EnergyOf(long, k, "Output") == Some(x.output) &&
    x.availableCapacity == EnergyOf(long, k, "AvailableCapacity") &&
    x.capability == EnergyOf(long, k, "Capability") &&
    x.forecast == EnergyOf(long, k, "Forecast") &&
    ScaledRules(x)
  }

  /** The transformed table describes the long table: indexes strictly increase (so no two
      records share one), every record is faithful, and every entry with a present Output
      value has its record. */
  ghost predicate Describes(long: seq<Reading>, table: seq<OutputRecord>)
  {
    (forall i, j :: 0 <= i < j < |table| ==> KeyLess(RecordKey(table[i]), RecordKey(table[j]))) &&
    (forall j :: 0 <= j < |table| ==> Faithful(long, table[j])) &&
    (forall i :: 0 <= i < |long| && long[i].measurement == "Output" && long[i].energy.Some? ==>
       exists j :: 0 <= j < |table| && RecordKey(table[j]) == KeyOf(long[i]))
  }

  /** The record built from a row of the pivoted table is faithful to the long table. */
  lemma RowFaithful(long: seq<Reading>, p: nat)
    requires PivotTable(long).Ok? && p < |PivotTable(long).value|
    requires CellOf(PivotTable(long).value[p], "Output").Some?
    ensures Faithful(long, Scaled(Unscaled(PivotTable(long).value[p])))
  {
    PivotCellOf(long, p, "Output");
    PivotCellOf(long, p, "AvailableCapacity");
    PivotCellOf(long, p, "Capability");
    PivotCellOf(long, p, "Forecast");
    ScaledPrecedence(Unscaled(PivotTable(long).value[p]));
  }

  /** An entry with a present Output value has its row among those dropna keeps. */
  lemma OutputKept(long: seq<Reading>, i: nat)
    requires PivotTable(long).Ok? && i < |long| && long[i].measurement == "Output" && long[i].energy.Some?
    ensures exists j :: 0 <= j < |WithOutput(PivotTable(long).value)| && WithOutput(PivotTable(long).value)[j].key == KeyOf(long[i])
  {
    var t := PivotTable(long).value;
    PivotCells(long);
    CellsAtFound(t, KeyOf(long[i]), "Output");
    var p :| 0 <= p < |t| && t[p].key == KeyOf(long[i]);
    CellsAtRow(t, p);
    assert t[p] in WithOutput(t);
  }

  lemma DescribesTable(long: seq<Reading>, table: seq<OutputRecord>)
    requires PivotTable(long).Ok?
    requires var kept := WithOutput(PivotTable(long).value);
      |table| == |kept| && forall j :: 0 <= j < |kept| ==> table[j] == Scaled(Unscaled(kept[j]))
    ensures Describes(long, table)
  {
    var t := PivotTable(long).value;
    var kept := WithOutput(t);
    forall j | 0 <= j < |table|
      ensures RecordKey(table[j]) == kept[j].key && Faithful(long, table[j])
    {
      assert kept[j] in kept;
      var p :| 0 <= p < |t| && t[p] == kept[j];
      RowFaithful(long, p);
    }
    forall i | 0 <= i < |long| && long[i].measurement == "Output" && long[i].energy.Some?
      ensures exists j :: 0 <= j < |table| && RecordKey(table[j]) == KeyOf(long[i])
    {
      OutputKept(long, i);
    }
  }

  /** transform_output_data on the data rows of the monthly CSV: the table is built step by
      step as the code does. It raises ValueError when a date does not convert or two
      entries share a cell, KeyError when one of the four measurement columns is absent,
      and otherwise returns a table that describes the long table. */
  method TransformOutputData(rows: seq<WideRow>) returns (r: Result<seq<OutputRecord>>)
    requires WellFormed(rows)
    ensures Long(rows).Err? ==> r == Err(ValueError)
    ensures Long(rows).Ok? && !NoDuplicateEntry(Long(rows).value) ==> r == Err(ValueError)
    ensures Long(rows).Ok? && NoDuplicateEntry(Long(rows).value) && MissingColumn(Long(rows).value).Some? ==>
              r == Err(KeyError(MissingColumn(Long(rows).value).value))
    ensures Long(rows).Ok? && NoDuplicateEntry(Long(rows).value) && MissingColumn(Long(rows).value).None? ==>
              r.Ok? && Describes(Long(rows).value, r.value)
  {
    var melted := Melt(rows);
    melted := DropBlank(melted);
    var long := Readings(melted);
    assert long == Long(rows);
    if long.Err? {
      return Err(long.error);
    }
    var pivoted := PivotTable(long.value);
    PivotFails(long.value);
    if pivoted.Err? {
      return Err(pivoted.error);
    }
    var missing := MissingColumn(long.value);
    if missing.Some? {
      return Err(KeyError(missing.value));
    }
    var kept := WithOutput(pivoted.value);
    var table := Project(kept);
    ScaledTable(table);
    table := Apply(ScaleAvailableCapacity, table);
    table := Apply(ScaleCapability, table);
    table := Apply(ScaleForecast, table);
    table := Apply(ScaleOutputByCapability, table);
    table := Apply(ScaleOutputByAvailableCapacity, table);
    assert forall j :: 0 <= j < |kept| ==> table[j] == Scaled(Unscaled(kept[j]));
    DescribesTable(long.value, table);
    r := Ok(table);
  }

  /** The five column assignments, one after the other, scale every record as Scaled does. */
  lemma ScaledTable(t: seq<OutputRecord>)
    ensures var s := Apply(ScaleOutputByAvailableCapacity, Apply(ScaleOutputByCapability,
                       Apply(ScaleForecast, Apply(ScaleCapability, Apply(ScaleAvailableCapacity, t)))));
      |s| == |t| && forall j :: 0 <= j < |t| ==> s[j] == Scaled(t[j])
  {
  }

  /** A monthly file whose rows only measure Output and Capability produces no
      AvailableCapacity column, so the column selection raises KeyError for it. */
  lemma OnlyOutputAndCapability(rows: seq<WideRow>)
    requires WellFormed(rows)
    requires forall i :: 0 <= i < |rows| ==> rows[i].measurement == "Output" || rows[i].measurement == "Capability"
    ensures Long(rows).Ok? ==> MissingColumn(Long(rows).value) == Some("AvailableCapacity")
  {
    if Long(rows).Ok? {
      var long := Long(rows).value;
      Unpivot(rows);
      forall k | 0 <= k < |long|
        ensures long[k].measurement != "AvailableCapacity"
      {
        assert long[k] in long;
      }
    }
  }
}
