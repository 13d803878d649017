/** transform_import_export_load_data: for each (intertie, load) file pair of the window,
    join the two extracted tables on Hour, turn Hour into a zero-based offset, sort, run the
    padding step (which raises on a day of fewer than 24 rows), stamp each row with the date
    of the intertie file name plus its hour offset, and append the day to the window table. */
module DailyMerge {
  import opened Wrappers
  import opened Decimal
  import opened Calendar
  import opened Xml
  import opened XmlExtract
  import opened FilenameHelper

  /** A row of pd.merge(intertie_df, load_df, on='Hour'). */
  datatype JoinedRow = JoinedRow(hour: Option<string>, imported: Option<string>, exported: Option<string>,
                                 totalEnergy: Option<string>, totalLoss: Option<string>, totalLoad: Option<string>)

  function Combine(i: IntertieRow, l: LoadRow): JoinedRow
  {
    JoinedRow(i.hour, i.imported, i.exported, l.totalEnergy, l.totalLoss, l.totalLoad)
  }

  /** The load rows whose Hour equals that of one intertie row, combined with it, in order. */
  function Matches(i: IntertieRow, right: seq<LoadRow>): seq<JoinedRow>
  {
    if right == [] then []
    else (if right[0].hour == i.hour then [Combine(i, right[0])] else []) + Matches(i, right[1..])
  }

  /** An inner join on Hour: each intertie row, in order, with each load row of equal Hour
      text, in order. Two missing hours match each other, as pandas matches NaN keys. */
  function InnerJoin(left: seq<IntertieRow>, right: seq<LoadRow>): seq<JoinedRow>
  {
    if left == [] then [] else Matches(left[0], right) + InnerJoin(left[1..], right)
  }

  lemma {:induction false} MatchesMembers(i: IntertieRow, right: seq<LoadRow>, x: JoinedRow)
    ensures x in Matches(i, right) <==> exists k :: 0 <= k < |right| && right[k].hour == i.hour && x == Combine(i, right[k])
  {
    if right != [] {
      MatchesMembers(i, right[1..], x);
      if exists k :: 0 <= k < |right| && right[k].hour == i.hour && x == Combine(i, right[k]) {
        var k :| 0 <= k < |right| && right[k].hour == i.hour && x == Combine(i, right[k]);
        if k > 0 {
          assert right[1..][k - 1] == right[k];
        }
      }
    }
  }

  /** A joined row is exactly a pair of an intertie row and a load row with the same Hour:
      rows whose Hour is missing from the other table are dropped. */
  lemma {:induction false} InnerJoinMembers(left: seq<IntertieRow>, right: seq<LoadRow>, x: JoinedRow)
    ensures x in InnerJoin(left, right) <==>
            exists i, k :: 0 <= i < |left| && 0 <= k < |right| && left[i].hour == right[k].hour && x == Combine(left[i], right[k])
  {
    if left != [] {
      MatchesMembers(left[0], right, x);
      InnerJoinMembers(left[1..], right, x);
      if exists i, k :: 0 <= i < |left| && 0 <= k < |right| && left[i].hour == right[k].hour && x == Combine(left[i], right[k]) {
        var i, k :| 0 <= i < |left| && 0 <= k < |right| && left[i].hour == right[k].hour && x == Combine(left[i], right[k]);
        if i > 0 {
          assert left[1..][i - 1] == left[i];
        }
      }
    }
  }

  function IntertieHours(rows: seq<IntertieRow>): seq<Option<string>>
  {
    seq(|rows|, i requires 0 <= i < |rows| => rows[i].hour)
  }

  function LoadHours(rows: seq<LoadRow>): seq<Option<string>>
  {
    seq(|rows|, i requires 0 <= i < |rows| => rows[i].hour)
  }

  function JoinedHours(rows: seq<JoinedRow>): seq<Option<string>>
  {
    seq(|rows|, i requires 0 <= i < |rows| => rows[i].hour)
  }

  lemma JoinedHoursConcat(a: seq<JoinedRow>, b: seq<JoinedRow>)
    ensures JoinedHours(a + b) == JoinedHours(a) + JoinedHours(b)
  {
  }

  /** One intertie row meets as many load rows as carry its Hour. */
  lemma {:induction false} MatchesCount(i: IntertieRow, right: seq<LoadRow>, h: Option<string>)
    ensures multiset(JoinedHours(Matches(i, right)))[h] == if i.hour == h then multiset(LoadHours(right))[h] else 0
  {
    if right != [] {
      var head := if right[0].hour == i.hour then [Combine(i, right[0])] else [];
      var rest := Matches(i, right[1..]);
      assert Matches(i, right) == head + rest;
      MatchesCount(i, right[1..], h);
      JoinedHoursConcat(head, rest);
      assert multiset(JoinedHours(head + rest)) == multiset(JoinedHours(head)) + multiset(JoinedHours(rest));
      HeadCount(i, right[0], h);
      LoadHoursCons(right);
      assert multiset(LoadHours(right)) == multiset([right[0].hour]) + multiset(LoadHours(right[1..]));
    }
  }

  lemma HeadCount(i: IntertieRow, l: LoadRow, h: Option<string>)
    ensures multiset(JoinedHours(if l.hour == i.hour then [Combine(i, l)] else []))[h] ==
            if l.hour == i.hour && i.hour == h then 1 else 0
  {
    if l.hour == i.hour {
      assert JoinedHours([Combine(i, l)]) == [i.hour];
    } else {
      assert JoinedHours([]) == [];
    }
  }

  lemma LoadHoursCons(right: seq<LoadRow>)
    requires right != []
    ensures LoadHours(right) == [right[0].hour] + LoadHours(right[1..])
  {
  }

  /** The join holds one row per matching pair: an Hour that occurs a times in the intertie
      table and b times in the load table occurs a * b times in the result. */
  lemma {:induction false} InnerJoinCount(left: seq<IntertieRow>, right: seq<LoadRow>, h: Option<string>)
    ensures multiset(JoinedHours(InnerJoin(left, right)))[h] == multiset(IntertieHours(left))[h] * multiset(LoadHours(right))[h]
  {
    if left != [] {
      var m := Matches(left[0], right);
      var rest := InnerJoin(left[1..], right);
      assert InnerJoin(left, right) == m + rest;
      MatchesCount(left[0], right, h);
      InnerJoinCount(left[1..], right, h);
      JoinedHoursConcat(m, rest);
      IntertieHoursCons(left);
      var a := multiset(IntertieHours(left[1..]))[h];
      var b := multiset(LoadHours(right))[h];
      var c := if left[0].hour == h then 1 else 0;
      assert multiset(IntertieHours(left))[h] == c + a;
      assert multiset(JoinedHours(InnerJoin(left, right)))[h] == multiset(JoinedHours(m))[h] + multiset(JoinedHours(rest))[h];
      Distribute(c, a, b);
    }
  }

  lemma Distribute(c: nat, a: nat, b: nat)
    ensures (c + a) * b == c * b + a * b
  {
  }

  lemma IntertieHoursCons(left: seq<IntertieRow>)
    requires left != []
    ensures IntertieHours(left) == [left[0].hour] + IntertieHours(left[1..])
  {
  }

  /** No Hour occurs twice in the list. */
  ghost predicate DistinctHours(hours: seq<Option<string>>)
  {
    forall h :: multiset(hours)[h] <= 1
  }

  /** When neither table repeats an Hour, the join holds each Hour common to both exactly
      once and no other, so its row count, which the padding step tests, is the number of
      common Hours. */
  lemma DistinctJoin(left: seq<IntertieRow>, right: seq<LoadRow>)
    requires DistinctHours(IntertieHours(left)) && DistinctHours(LoadHours(right))
    ensures multiset(JoinedHours(InnerJoin(left, right))) == multiset(IntertieHours(left)) * multiset(LoadHours(right))
    ensures |InnerJoin(left, right)| == |multiset(IntertieHours(left)) * multiset(LoadHours(right))|
  {
    forall h
      ensures multiset(JoinedHours(InnerJoin(left, right)))[h] == (multiset(IntertieHours(left)) * multiset(LoadHours(right)))[h]
    {
      InnerJoinCount(left, right, h);
    }
    assert |JoinedHours(InnerJoin(left, right))| == |InnerJoin(left, right)|;
  }

  /** A day row once Hour is an integer offset. */
  datatype HourRow = HourRow(hour: int, imported: Option<string>, exported: Option<string>,
                             totalEnergy: Option<string>, totalLoss: Option<string>, totalLoad: Option<string>)

  /** curr_df['Hour'].astype(int) - 1: a missing Hour raises TypeError, a text int() refuses
      raises ValueError; the first offending row decides which. */
  function ZeroBased(rows: seq<JoinedRow>): (r: Result<seq<HourRow>>)
    ensures r.Ok? ==> |r.value| == |rows|
  {
    if rows == [] then Ok([])
    else
      var x := rows[0];
      if x.hour.None? then Err(TypeError)
      else match ParseInt(x.hour.value)
        case None => Err(ValueError)
        case Some(h) =>
          match ZeroBased(rows[1..])
          case Err(e) => Err(e)
          case Ok(rest) => Ok([HourRow(h - 1, x.imported, x.exported, x.totalEnergy, x.totalLoss, x.totalLoad)] + rest)
  }

  /** The conversion succeeds exactly when every Hour text is present and int() accepts it;
      each row keeps its measured texts and gets hour int(Hour) - 1. */
  lemma {:induction false} ZeroBasedRows(rows: seq<JoinedRow>)
    ensures ZeroBased(rows).Ok? <==> forall i :: 0 <= i < |rows| ==> rows[i].hour.Some? && ParseInt(rows[i].hour.value).Some?
    ensures ZeroBased(rows).Ok? ==> forall i :: 0 <= i < |rows| ==>
              ZeroBased(rows).value[i] == HourRow(ParseInt(rows[i].hour.value).value - 1, rows[i].imported, rows[i].exported,
                                                   rows[i].totalEnergy, rows[i].totalLoss, rows[i].totalLoad)
  {
    if rows != [] {
      ZeroBasedRows(rows[1..]);
      assert forall i :: 1 <= i < |rows| ==> rows[i] == rows[1..][i - 1];
    }
  }

  /** The Hour column of a day. */
  function Hours(rows: seq<HourRow>): seq<int>
  {
    if rows == [] then [] else [rows[0].hour] + Hours(rows[1..])
  }

  lemma {:induction false} HoursAt(rows: seq<HourRow>)
    ensures |Hours(rows)| == |rows| && forall i :: 0 <= i < |rows| ==> Hours(rows)[i] == rows[i].hour
  {
    if rows != [] {
      HoursAt(rows[1..]);
    }
  }

  predicate SortedByHour(rows: seq<HourRow>)
  {
    forall i, j :: 0 <= i < j < |rows| ==> rows[i].hour <= rows[j].hour
  }

  /** Insert one row before the first row with a larger hour. */
  function Insert(x: HourRow, rows: seq<HourRow>): (r: seq<HourRow>)
    requires SortedByHour(rows)
    ensures SortedByHour(r) && |r| == |rows| + 1
    ensures multiset(r) == multiset(rows) + multiset{x}
  {
    if rows == [] then [x]
    else if x.hour <= rows[0].hour then
      ConsSorted(x, rows);
      [x] + rows
    else
      var rest := Insert(x, rows[1..]);
      assert rows == [rows[0]] + rows[1..];
      InsertBound(x, rows, rest);
      ConsSorted(rows[0], rest);
      assert multiset([rows[0]] + rest) == multiset{rows[0]} + multiset(rest);
      [rows[0]] + rest
  }

  /** A row no later than every row of a sorted day can go in front of it. */
  lemma ConsSorted(head: HourRow, rows: seq<HourRow>)
    requires SortedByHour(rows) && (rows == [] || head.hour <= rows[0].hour || forall k :: 0 <= k < |rows| ==> head.hour <= rows[k].hour)
    ensures SortedByHour([head] + rows)
  {
    var r := [head] + rows;
    forall i, j | 0 <= i < j < |r|
      ensures r[i].hour <= r[j].hour
    {
      if i > 0 {
        assert r[i] == rows[i - 1] && r[j] == rows[j - 1];
      } else {
        assert r[j] == rows[j - 1];
      }
    }
  }

  lemma {:induction false} InsertHours(x: HourRow, rows: seq<HourRow>)
    requires SortedByHour(rows)
    ensures multiset(Hours(Insert(x, rows))) == multiset(Hours(rows)) + multiset{x.hour}
  {
    if rows == [] {
    } else if x.hour <= rows[0].hour {
      assert ([x] + rows)[1..] == rows;
    } else {
      var rest := Insert(x, rows[1..]);
      InsertHours(x, rows[1..]);
      assert ([rows[0]] + rest)[1..] == rest;
    }
  }

  lemma InsertBound(x: HourRow, rows: seq<HourRow>, rest: seq<HourRow>)
    requires rows != [] && SortedByHour(rows) && rows[0].hour < x.hour
    requires multiset(rest) == multiset(rows[1..]) + multiset{x}
    ensures forall k :: 0 <= k < |rest| ==> rows[0].hour <= rest[k].hour
  {
    forall k | 0 <= k < |rest|
      ensures rows[0].hour <= rest[k].hour
    {
      assert rest[k] in multiset(rest);
      if rest[k] != x {
        assert rest[k] in multiset(rows[1..]);
        var j :| 0 <= j < |rows[1..]| && rows[1..][j] == rest[k];
        assert rows[j + 1] == rest[k];
      }
    }
  }

  /** curr_df.sort_values(by=['Hour']): the rows ordered by hour, a permutation of the input. */
  function SortByHour(rows: seq<HourRow>): (r: seq<HourRow>)
    ensures SortedByHour(r) && |r| == |rows|
    ensures multiset(r) == multiset(rows)
    ensures multiset(Hours(r)) == multiset(Hours(rows))
  {
    if rows == [] then []
    else
      var rest := SortByHour(rows[1..]);
      assert rows == [rows[0]] + rows[1..];
      assert multiset(rows) == multiset(rows[1..]) + multiset{rows[0]};
      assert multiset(Hours(rows)) == multiset(Hours(rows[1..])) + multiset{rows[0].hour};
      InsertHours(rows[0], rest);
      Insert(rows[0], rest)
  }

  /** The padding step as the code writes it. A day of 24 rows is left alone, and so is a day
      of more than 24 rows, for which range(n, 25) is empty. A shorter day fails at the first
      placeholder: curr_df.loc[n] = [n] enlarges the frame of six columns (Hour, Import, Export, Total Energy, Total Loss, Total Load) with a
      one-element list, which pandas refuses with ValueError. */
  function Padded(rows: seq<HourRow>): (r: Result<seq<HourRow>>)
    ensures r.Ok? <==> |rows| >= 24
    ensures r.Ok? ==> r.value == rows
    ensures r.Err? ==> r.error == ValueError
  {
    if |rows| < 24 then Err(ValueError) else Ok(rows)
  }

  /** The row the padding loop evidently means to add for offset x: Hour x, every measured
      text missing. */
  function Placeholder(x: int): HourRow
  {
    HourRow(x, None, None, None, None, None)
  }

  /** Placeholders for the offsets from, from + 1, ..., from + count - 1. */
  function PlaceholderRun(from: int, count: nat): (r: seq<HourRow>)
    ensures |r| == count && forall i :: 0 <= i < count ==> r[i] == Placeholder(from + i)
  {
    seq(count, i => Placeholder(from + i))
  }

  /** The padding loop as it reads had pandas accepted `curr_df.loc[x] = [x]` as a row with
      Hour x and the other columns missing: range(n, 25) appended after the sorted rows. */
  function IntendedPadded(rows: seq<HourRow>): (r: seq<HourRow>)
    ensures |r| >= |rows| && r[..|rows|] == rows
    ensures |rows| >= 24 ==> r == rows
  {
    if |rows| >= 24 then rows else rows + PlaceholderRun(|rows|, 25 - |rows|)
  }

  /** Even read that way, a short day ends with 25 rows, not 24: the placeholders carry the
      offsets n..24, the last one at offset 24, which is stamped at the next day's
      midnight, the first record of the next day. */
  lemma IntendedPaddedLength(rows: seq<HourRow>, date: Date)
    requires |rows| < 24 && ValidDate(date) && date.day < DaysInMonth(date.year, date.month)
    ensures var r := IntendedPadded(rows);
      |r| == 25 && r[..|rows|] == rows &&
      (forall k :: |rows| <= k < 25 ==> r[k] == Placeholder(k)) &&
      Stamp(r, date)[24].dateTime == HourStamp(Date(date.year, date.month, date.day + 1), 0)
  {
    var r := IntendedPadded(rows);
    StampAt(r, date);
    NextDayStamp(date, 0);
  }

  /** The placeholders are added by position, not by the hours that are missing: a day of 23
      rows missing an interior hour h < 23 gets placeholders at 23 and 24, and still has no
      row at hour h. */
  lemma IntendedPaddedKeepsGap(rows: seq<HourRow>, h: int)
    requires 0 <= h < 23
    requires multiset(Hours(rows)) == multiset(Upto(24)) - multiset{h}
    ensures |IntendedPadded(rows)| == 25
    ensures forall k :: 0 <= k < 25 ==> IntendedPadded(rows)[k].hour != h
  {
    UptoCount(24, h);
    assert |multiset(Upto(24))| == 24;
    assert multiset(Upto(24)) == (multiset(Upto(24)) - multiset{h}) + multiset{h};
    assert |Hours(rows)| == 23;
    HoursAt(rows);
    forall k | 0 <= k < 23
      ensures rows[k].hour != h
    {
      assert rows[k].hour == Hours(rows)[k];
      assert Hours(rows)[k] in multiset(Hours(rows));
    }
  }

  /** The offsets below n that a day's hours lack, in increasing order. */
  function MissingOffsets(present: multiset<int>, n: nat): (r: seq<int>)
    ensures forall i :: 0 <= i < |r| ==> 0 <= r[i] < n && r[i] !in present
  {
    if n == 0 then []
    else MissingOffsets(present, n - 1) + (if present[n - 1] == 0 then [n - 1] else [])
  }

  lemma {:induction false} MissingOffsetsCount(present: multiset<int>, n: nat, x: int)
    ensures multiset(MissingOffsets(present, n))[x] == if 0 <= x < n && present[x] == 0 then 1 else 0
  {
    if n > 0 {
      MissingOffsetsCount(present, n - 1, x);
      var prev := MissingOffsets(present, n - 1);
      var last: seq<int> := if present[n - 1] == 0 then [n - 1] else [];
      assert MissingOffsets(present, n) == prev + last;
      assert multiset(prev + last) == multiset(prev) + multiset(last);
      assert multiset(last)[x] == if x == n - 1 && present[n - 1] == 0 then 1 else 0;
    }
  }

  /** Placeholders for the given offsets, in order. */
  function Placeholders(offsets: seq<int>): (r: seq<HourRow>)
    ensures |r| == |offsets| && forall i :: 0 <= i < |offsets| ==> r[i] == Placeholder(offsets[i])
  {
    seq(|offsets|, i requires 0 <= i < |offsets| => Placeholder(offsets[i]))
  }

  /** The padding the comment "Ensure data is complete for 24 hours" asks for: one
      placeholder for each offset 0..23 that the day lacks, after the day's own rows. */
  function CompletedDay(rows: seq<HourRow>): (r: seq<HourRow>)
    ensures |r| >= |rows| && r[..|rows|] == rows
    ensures forall k :: |rows| <= k < |r| ==> r[k].hour !in multiset(Hours(rows)) && 0 <= r[k].hour < 24
  {
    rows + Placeholders(MissingOffsets(multiset(Hours(rows)), 24))
  }

  lemma HoursAppend(rows: seq<HourRow>, offsets: seq<int>)
    ensures Hours(rows + Placeholders(offsets)) == Hours(rows) + offsets
  {
    var added := Placeholders(offsets);
    var day := rows + added;
    HoursAt(rows);
    HoursAt(day);
    forall i | 0 <= i < |day|
      ensures Hours(day)[i] == (Hours(rows) + offsets)[i]
    {
      if i >= |rows| {
        assert day[i] == added[i - |rows|];
      }
    }
  }

  /** Offsets already present at most once each, with the missing ones added, are each of
      0..23 exactly once. */
  lemma FillsRange(present: multiset<int>)
    requires present <= multiset(Upto(24))
    ensures present + multiset(MissingOffsets(present, 24)) == multiset(Upto(24))
  {
    forall x
      ensures (present + multiset(MissingOffsets(present, 24)))[x] == multiset(Upto(24))[x]
    {
      MissingOffsetsCount(present, 24, x);
      UptoCount(24, x);
    }
  }

  /** A day whose hours are distinct offsets within 0..23 is completed to each of 0..23 once:
      it keeps its own rows, and once sorted and stamped it gives 24 records at consecutive
      hours of the date. */
  lemma CompletedDayComplete(rows: seq<HourRow>, date: Date)
    requires ValidDate(date)
    requires multiset(Hours(rows)) <= multiset(Upto(24))
    ensures CompletedDay(rows)[..|rows|] == rows
    ensures multiset(Hours(CompletedDay(rows))) == multiset(Upto(24))
    ensures var day := Stamp(SortByHour(CompletedDay(rows)), date);
      |day| == 24 && forall k :: 0 <= k < 24 ==> day[k].dateTime == HourStamp(date, k)
  {
    var present := multiset(Hours(rows));
    var missing := MissingOffsets(present, 24);
    HoursAppend(rows, missing);
    assert multiset(Hours(rows) + missing) == present + multiset(missing);
    FillsRange(present);
    CompleteDay(CompletedDay(rows), date);
  }

  /** A record of the window table: the timestamp (hours since the calendar's origin) and the
      five measured texts. */
  datatype IntertieLoadRecord = IntertieLoadRecord(dateTime: int, imported: Option<string>, exported: Option<string>,
                                                   totalEnergy: Option<string>, totalLoss: Option<string>, totalLoad: Option<string>)

  /** DateTime = the file's date + Hour hours; the Hour column is dropped. */
  function Stamp(rows: seq<HourRow>, date: Date): (r: seq<IntertieLoadRecord>)
    requires ValidDate(date)
    ensures |r| == |rows|
  {
    if rows == [] then []
    else
      var x := rows[0];
      [IntertieLoadRecord(HourStamp(date, x.hour), x.imported, x.exported, x.totalEnergy, x.totalLoss, x.totalLoad)]
        + Stamp(rows[1..], date)
  }

  /** Each record carries its row's texts and is stamped date + hour hours. */
  lemma {:induction false} StampAt(rows: seq<HourRow>, date: Date)
    requires ValidDate(date)
    ensures forall i :: 0 <= i < |rows| ==>
              Stamp(rows, date)[i] == IntertieLoadRecord(HourStamp(date, rows[i].hour), rows[i].imported, rows[i].exported,
                                                         rows[i].totalEnergy, rows[i].totalLoss, rows[i].totalLoad)
  {
    if rows != [] {
      StampAt(rows[1..], date);
    }
  }

  /** The date of an intertie file: the first run of eight digits in its name, read as
      YYYYMMDD; .group() on a failed search raises AttributeError, strptime raises ValueError. */
  function FileDate(name: string): (r: Result<Date>)
    ensures r.Ok? ==> ValidDate(r.value)
  {
    match FirstEightDigitRun(name)
    case None => Err(AttributeError)
    case Some(token) =>
      match ParseCompactDate(token)
      case None => Err(ValueError)
      case Some(d) => Ok(d)
  }

  /** The joined rows of one day with zero-based hours, before sorting and padding. */
  function DayHours(files: map<string, Element>, intertieName: string, loadName: string): (r: Result<seq<HourRow>>)
    ensures intertieName !in files ==> r == Err(FileNotFound(intertieName))
    ensures r.Ok? ==> intertieName in files && loadName in files &&
                      IntertieTable(files[intertieName]).Ok? && LoadTable(files[loadName]).Ok? &&
                      |r.value| == |InnerJoin(IntertieTable(files[intertieName]).value, LoadTable(files[loadName]).value)|
  {
    if intertieName !in files then Err(FileNotFound(intertieName))
    else match IntertieTable(files[intertieName])
      case Err(e) => Err(e)
      case Ok(intertie) =>
        if loadName !in files then Err(FileNotFound(loadName))
        else match LoadTable(files[loadName])
          case Err(e) => Err(e)
          case Ok(load) => ZeroBased(InnerJoin(intertie, load))
  }

  /** The records one iteration of the loop appends for the pair (intertieName, loadName):
      the joined hours sorted, padded and stamped with the date of the intertie file. */
  function DayRecords(files: map<string, Element>, intertieName: string, loadName: string): Result<seq<IntertieLoadRecord>>
  {
    match DayHours(files, intertieName, loadName)
    case Err(e) => Err(e)
    case Ok(hours) =>
      match Padded(SortByHour(hours))
      case Err(e) => Err(e)
      case Ok(day) =>
        match FileDate(intertieName)
        case Err(e) => Err(e)
        case Ok(date) => Ok(Stamp(day, date))
  }

  /** zip(intertie_file_names, load_file_names): pairs up to the shorter list. */
  function Zip(xs: seq<string>, ys: seq<string>): (ps: seq<(string, string)>)
    ensures |ps| == (if |xs| < |ys| then |xs| else |ys|)
    ensures forall i :: 0 <= i < |ps| ==> ps[i] == (xs[i], ys[i])
  {
    var n := if |xs| < |ys| then |xs| else |ys|;
    seq(n, i requires 0 <= i < n => (xs[i], ys[i]))
  }

  /** The records of a run of days concatenated in order; the first day that raised aborts
      the run with its error. */
  function Concat(days: seq<Result<seq<IntertieLoadRecord>>>): Result<seq<IntertieLoadRecord>>
  {
    if days == [] then Ok([])
    else
      match Concat(days[..|days| - 1])
      case Err(e) => Err(e)
      case Ok(table) =>
        match days[|days| - 1]
        case Err(e) => Err(e)
        case Ok(day) => Ok(table + day)
  }

  /** The run succeeds exactly when every day does, and its table is then as long as all
      the days' records together. */
  lemma {:induction false} ConcatOk(days: seq<Result<seq<IntertieLoadRecord>>>)
    ensures Concat(days).Ok? <==> forall k :: 0 <= k < |days| ==> days[k].Ok?
    ensures Concat(days).Ok? ==> |Concat(days).value| == RecordCount(days)
  {
    if days != [] {
      var front := days[..|days| - 1];
      ConcatOk(front);
      assert forall k :: 0 <= k < |front| ==> front[k] == days[k];
    }
  }

  /** The number of records of a run of successful days. */
  function RecordCount(days: seq<Result<seq<IntertieLoadRecord>>>): nat
  {
    if days == [] then 0
    else RecordCount(days[..|days| - 1]) + (if days[|days| - 1].Ok? then |days[|days| - 1].value| else 0)
  }

  /** The outcome of each loop iteration, one per pair of file names. */
  function DayResults(files: map<string, Element>, pairs: seq<(string, string)>): (days: seq<Result<seq<IntertieLoadRecord>>>)
    ensures |days| == |pairs|
  {
    seq(|pairs|, i requires 0 <= i < |pairs| => DayRecords(files, pairs[i].0, pairs[i].1))
  }

  /** The window table: the days' records concatenated in list order. */
  function WindowRecords(files: map<string, Element>, pairs: seq<(string, string)>): Result<seq<IntertieLoadRecord>>
  {
    Concat(DayResults(files, pairs))
  }

  /** The name of the window's output file, transformed_intertie_load_<year><month>.csv. */
  function WindowFileName(year: string, month: string): (name: string)
    ensures |name| == 30 + |year| + |month|
    ensures name[..26] == "transformed_intertie_load_" && name[26..26 + |year| + |month|] == year + month
    ensures name[26 + |year| + |month|..] == ".csv"
  {
    "transformed_intertie_load_" + year + month + ".csv"
  }

  /** One iteration of the loop: parse both files, join, convert and sort the hours, pad,
      stamp. */
  method TransformDay(files: map<string, Element>, intertieName: string, loadName: string)
    returns (r: Result<seq<IntertieLoadRecord>>)
    ensures r == DayRecords(files, intertieName, loadName)
  {
    if intertieName !in files {
      return Err(FileNotFound(intertieName));
    }
    var intertie := ParseIntertieXml(files[intertieName]);
    if intertie.Err? {
      return Err(intertie.error);
    }
    if loadName !in files {
      return Err(FileNotFound(loadName));
    }
    var load := ParseLoadXml(files[loadName]);
    if load.Err? {
      return Err(load.error);
    }
    var hours := ZeroBased(InnerJoin(intertie.value, load.value));
    if hours.Err? {
      return Err(hours.error);
    }
    var current := PadDay(SortByHour(hours.value));
    if current.Err? {
      return Err(current.error);
    }
    var date := FileDate(intertieName);
    if date.Err? {
      return Err(date.error);
    }
    r := Ok(Stamp(current.value, date.value));
  }

  /** The padding loop: when the day does not have 24 rows, a row [x] is added for every x
      from the row count to 24. The loop either has nothing to do (a day of more than 24
      rows) or raises on its first pass, so it is written as that one step. */
  method PadDay(sorted: seq<HourRow>) returns (r: Result<seq<HourRow>>)
    ensures r == Padded(sorted)
  {
    var n := |sorted|;
    if n != 24 && n < 25 {
      // curr_df.loc[n] = [n]: one value for a row of six columns
      return Err(ValueError);
    }
    r := Ok(sorted);
  }

  /** transform_import_export_load_data: the window table and the name of the file it is
      written to. */
  method TransformImportExportLoadData(intertieNames: seq<string>, loadNames: seq<string>, year: string, month: string,
                                       files: map<string, Element>)
    returns (r: Result<(string, seq<IntertieLoadRecord>)>)
    ensures var window := WindowRecords(files, Zip(intertieNames, loadNames));
      (r.Ok? <==> window.Ok?) &&
      (r.Ok? ==> r.value == (WindowFileName(year, month), window.value)) &&
      (r.Err? ==> r.error == window.error)
  {
    var pairs := Zip(intertieNames, loadNames);
    ghost var days := DayResults(files, pairs);
    var table: seq<IntertieLoadRecord> := [];
    var k := 0;
    while k < |pairs|
      invariant 0 <= k <= |pairs|
      invariant Concat(days[..k]) == Ok(table)
    {
      assert days[k] == DayRecords(files, pairs[k].0, pairs[k].1);
      var next := AppendDay(files, pairs, k, table, days);
      if next.Err? {
        ConcatKeepsError(days, k + 1);
        return Err(next.error);
      }
      table := next.value;
      k := k + 1;
    }
    assert days[..k] == days;
    r := Ok((WindowFileName(year, month), table));
  }

  /** One iteration of the loop over the pairs: the table so far followed by day k. */
  method AppendDay(files: map<string, Element>, pairs: seq<(string, string)>, k: nat, table: seq<IntertieLoadRecord>,
                   ghost days: seq<Result<seq<IntertieLoadRecord>>>)
    returns (r: Result<seq<IntertieLoadRecord>>)
    requires k < |pairs| && k < |days| && days[k] == DayRecords(files, pairs[k].0, pairs[k].1)
    requires Concat(days[..k]) == Ok(table)
    ensures r == Concat(days[..k + 1])
  {
    var day := TransformDay(files, pairs[k].0, pairs[k].1);
    ConcatStep(days, k);
    if day.Err? {
      return Err(day.error);
    }
    r := Ok(table + day.value);
  }

  /** The run up to day k + 1 is the run up to day k followed by day k. */
  lemma ConcatStep(days: seq<Result<seq<IntertieLoadRecord>>>, k: nat)
    requires k < |days|
    ensures Concat(days[..k + 1]) ==
              match Concat(days[..k])
              case Err(e) => Err(e)
              case Ok(table) =>
                match days[k]
                case Err(e) => Err(e)
                case Ok(day) => Ok(table + day)
  {
    assert days[..k + 1][..k] == days[..k];
  }

  /** Once the run has failed, later days do not change its error. */
  lemma {:induction false} ConcatKeepsError(days: seq<Result<seq<IntertieLoadRecord>>>, k: nat)
    requires k <= |days| && Concat(days[..k]).Err?
    ensures Concat(days) == Concat(days[..k])
    decreases |days|
  {
    if k < |days| {
      var front := days[..|days| - 1];
      assert front[..k] == days[..k];
      ConcatKeepsError(front, k);
    } else {
      assert days[..k] == days;
    }
  }

  /** A day that succeeds after a run that succeeds extends the table by its records. */
  lemma ConcatExtend(days: seq<Result<seq<IntertieLoadRecord>>>, k: nat)
    requires k < |days| && Concat(days[..k]).Ok? && days[k].Ok?
    ensures Concat(days[..k + 1]) == Ok(Concat(days[..k]).value + days[k].value)
  {
    assert days[..k + 1][..k] == days[..k];
  }

  /** When day k raises and every day before it succeeds, the run fails with that error. */
  lemma {:induction false} ConcatStopsAt(days: seq<Result<seq<IntertieLoadRecord>>>, k: nat)
    requires k < |days| && Concat(days[..k]).Ok? && days[k].Err?
    ensures Concat(days) == Err(days[k].error)
    decreases |days|
  {
    assert days[..k + 1][..k] == days[..k];
    if k + 1 < |days| {
      var front := days[..|days| - 1];
      assert front[..k] == days[..k];
      ConcatStopsAt(front, k);
    }
  }

  /** The window of a list of pairs is the window of all but the last, followed by the last
      day's records. */
  lemma WindowSnoc(files: map<string, Element>, pairs: seq<(string, string)>)
    requires pairs != []
    ensures var n := |pairs| - 1;
      WindowRecords(files, pairs) ==
        match WindowRecords(files, pairs[..n])
        case Err(e) => Err(e)
        case Ok(table) =>
          match DayRecords(files, pairs[n].0, pairs[n].1)
          case Err(e) => Err(e)
          case Ok(day) => Ok(table + day)
  {
    var n := |pairs| - 1;
    assert DayResults(files, pairs)[..n] == DayResults(files, pairs[..n]);
  }

  /** The offsets 0, 1, ..., n - 1. */
  function Upto(n: nat): seq<int>
  {
    seq(n, i => i)
  }

  lemma {:induction false} UptoCount(n: nat, x: int)
    ensures multiset(Upto(n))[x] == if 0 <= x < n then 1 else 0
  {
    if n > 0 {
      assert Upto(n) == Upto(n - 1) + [n - 1];
      UptoCount(n - 1, x);
    }
  }

  /** The largest element of a sorted sequence holding each of 0..n-1 once is n - 1. */
  lemma LastOfSortedRange(s: seq<int>, n: nat)
    requires 0 < n == |s|
    requires forall i, j :: 0 <= i < j < |s| ==> s[i] <= s[j]
    requires multiset(s) == multiset(Upto(n))
    ensures s[n - 1] == n - 1
  {
    UptoCount(n, n - 1);
    assert n - 1 in multiset(s);
    var j :| 0 <= j < |s| && s[j] == n - 1;
    assert s[n - 1] in multiset(s);
    UptoCount(n, s[n - 1]);
  }

  /** Removing the largest offset from 0..n-1 leaves 0..n-2. */
  lemma UptoSnoc(s: seq<int>, n: nat)
    requires 0 < n == |s| && s[n - 1] == n - 1
    requires multiset(s) == multiset(Upto(n))
    ensures multiset(s[..n - 1]) == multiset(Upto(n - 1))
  {
    assert s == s[..n - 1] + [n - 1];
    assert Upto(n) == Upto(n - 1) + [n - 1];
    assert multiset(s[..n - 1]) == multiset(s) - multiset{n - 1};
    assert multiset(Upto(n - 1)) == multiset(Upto(n)) - multiset{n - 1};
  }

  /** A sorted sequence holding each of 0..n-1 once is exactly 0, 1, ..., n - 1. */
  lemma {:induction false} SortedPermutationOfRange(s: seq<int>, n: nat)
    requires forall i, j :: 0 <= i < j < |s| ==> s[i] <= s[j]
    requires multiset(s) == multiset(Upto(n))
    ensures s == Upto(n)
  {
    assert |s| == |multiset(Upto(n))| == n;
    if n > 0 {
      LastOfSortedRange(s, n);
      UptoSnoc(s, n);
      SortedPermutationOfRange(s[..n - 1], n - 1);
      assert s == s[..n - 1] + [n - 1];
      assert Upto(n) == Upto(n - 1) + [n - 1];
    }
  }

  /** A day whose joined hours are each of 0..23 once is sorted into hour order, passes the
      padding unchanged, and its records are stamped date + 0, date + 1, ..., date + 23. */
  lemma {:induction false} CompleteDay(hours: seq<HourRow>, date: Date)
    requires ValidDate(date)
    requires multiset(Hours(hours)) == multiset(Upto(24))
    ensures Padded(SortByHour(hours)) == Ok(SortByHour(hours))
    ensures var day := Stamp(SortByHour(hours), date);
      |day| == 24 && forall k :: 0 <= k < 24 ==> day[k].dateTime == HourStamp(date, k)
  {
    SortedHours(hours, 24);
    StampedHours(SortByHour(hours), date);
  }

  /** Stamping rows numbered 0, 1, ... stamps row k at hour k of the date. */
  lemma StampedHours(rows: seq<HourRow>, date: Date)
    requires ValidDate(date)
    requires forall k :: 0 <= k < |rows| ==> rows[k].hour == k
    ensures forall k :: 0 <= k < |rows| ==> Stamp(rows, date)[k].dateTime == HourStamp(date, k)
  {
    StampAt(rows, date);
  }

  /** Sorting a day whose hours are each of 0..n-1 once puts hour k at position k. */
  lemma SortedHours(hours: seq<HourRow>, n: nat)
    requires multiset(Hours(hours)) == multiset(Upto(n))
    ensures |SortByHour(hours)| == n && forall k :: 0 <= k < n ==> SortByHour(hours)[k].hour == k
  {
    var sorted := SortByHour(hours);
    HoursAt(sorted);
    SortedPermutationOfRange(Hours(sorted), n);
    forall k | 0 <= k < n
      ensures sorted[k].hour == k
    {
      assert Hours(sorted)[k] == Upto(n)[k];
    }
  }

  /** A day's records exist exactly when both files parse, every joined Hour converts, the
      join has at least 24 rows and the intertie name carries a date; they are then the
      joined rows in hour order, stamped. A day of fewer than 24 joined rows, an empty one
      included, raises ValueError at the padding step. */
  lemma DayRecordsOutcome(files: map<string, Element>, intertieName: string, loadName: string)
    ensures var hours := DayHours(files, intertieName, loadName);
      DayRecords(files, intertieName, loadName).Ok? <==> hours.Ok? && |hours.value| >= 24 && FileDate(intertieName).Ok?
    ensures var hours := DayHours(files, intertieName, loadName);
      DayRecords(files, intertieName, loadName).Ok? ==>
        DayRecords(files, intertieName, loadName).value == Stamp(SortByHour(hours.value), FileDate(intertieName).value)
    ensures var hours := DayHours(files, intertieName, loadName);
      hours.Ok? && |hours.value| < 24 ==> DayRecords(files, intertieName, loadName) == Err(ValueError)
  {
  }

  /** A day missing one of the hours 0..23, and holding each other hour once, joins to 23
      rows and so raises ValueError. */
  lemma MissingHourFails(files: map<string, Element>, intertieName: string, loadName: string, h: int)
    requires 0 <= h < 24
    requires DayHours(files, intertieName, loadName).Ok?
    requires multiset(Hours(DayHours(files, intertieName, loadName).value)) == multiset(Upto(24)) - multiset{h}
    ensures DayRecords(files, intertieName, loadName) == Err(ValueError)
  {
    var hours := DayHours(files, intertieName, loadName).value;
    UptoCount(24, h);
    HoursAt(hours);
    assert |multiset(Upto(24))| == 24;
    assert multiset(Upto(24)) == (multiset(Upto(24)) - multiset{h}) + multiset{h};
    assert |hours| == 23;
    DayRecordsOutcome(files, intertieName, loadName);
  }

  /** When every day before day k succeeds and day k joins to fewer than 24 rows, the whole
      run fails with ValueError: no table is produced. */
  lemma IncompleteDayStopsWindow(files: map<string, Element>, pairs: seq<(string, string)>, k: nat)
    requires k < |pairs| && WindowRecords(files, pairs[..k]).Ok?
    requires DayHours(files, pairs[k].0, pairs[k].1).Ok? && |DayHours(files, pairs[k].0, pairs[k].1).value| < 24
    ensures WindowRecords(files, pairs) == Err(ValueError)
  {
    var days := DayResults(files, pairs);
    assert days[..k] == DayResults(files, pairs[..k]);
    DayRecordsOutcome(files, pairs[k].0, pairs[k].1);
    assert days[k] == DayRecords(files, pairs[k].0, pairs[k].1);
    ConcatStopsAt(days, k);
  }

  /** The pair's day joins to each of the hours 0..23 once. */
  predicate CompleteDayHours(files: map<string, Element>, intertieName: string, loadName: string)
  {
    DayHours(files, intertieName, loadName).Ok? &&
    multiset(Hours(DayHours(files, intertieName, loadName).value)) == multiset(Upto(24))
  }

  /** The pair's records, when its hours are complete and its intertie name carries a date. */
  lemma DayRecordsOfComplete(files: map<string, Element>, intertieName: string, loadName: string, date: Date)
    requires CompleteDayHours(files, intertieName, loadName) && FileDate(intertieName) == Ok(date)
    ensures var hours := DayHours(files, intertieName, loadName).value;
      DayRecords(files, intertieName, loadName) == Ok(Stamp(SortByHour(hours), date))
  {
    CompleteDay(DayHours(files, intertieName, loadName).value, date);
  }

  /** A window of complete days whose intertie files are named for days 22, 23, ... of the
      reporting month, as get_daily_data_file_names produces them: the table holds 24
      records per day, and record j is stamped the 22nd at 00:00 plus j hours, so the
      timestamps are consecutive hours without gap or repetition. */
  lemma {:induction false} CompleteWindow(today: Date, year: string, month: string, files: map<string, Element>,
                                          pairs: seq<(string, string)>)
    requires InWindowRange(today) && year + month == LastMonth(today) && |year| == 4
    requires |pairs| <= DaysInMonth(ReportingMonth(today).year, ReportingMonth(today).month) - FirstDailyDay + 1
    requires forall k :: 0 <= k < |pairs| ==> pairs[k].0 == IntertieFileName(year + month + TwoDigits(FirstDailyDay + k))
    requires forall k :: 0 <= k < |pairs| ==> CompleteDayHours(files, pairs[k].0, pairs[k].1)
    ensures WindowRecords(files, pairs).Ok?
    ensures var table := WindowRecords(files, pairs).value;
      var ym := ReportingMonth(today);
      |table| == 24 * |pairs| &&
      forall j :: 0 <= j < |table| ==> table[j].dateTime == HourStamp(Date(ym.year, ym.month, FirstDailyDay), j)
    decreases |pairs|
  {
    if pairs != [] {
      var ym := ReportingMonth(today);
      var n := |pairs| - 1;
      CompleteWindow(today, year, month, files, pairs[..n]);
      WindowSnoc(files, pairs);
      var date := WindowDayDate(today, year, month, n);
      DayRecordsOfComplete(files, pairs[n].0, pairs[n].1, date);
      var hours := DayHours(files, pairs[n].0, pairs[n].1).value;
      CompleteDay(hours, date);
      WindowAppend(WindowRecords(files, pairs[..n]).value, Stamp(SortByHour(hours), date), Date(ym.year, ym.month, FirstDailyDay), n);
    }
  }

  /** The intertie name for day index k carries day 22 + k of the reporting month, whose
      hours follow those of the 22nd by 24 k. */
  lemma WindowDayDate(today: Date, year: string, month: string, k: nat) returns (date: Date)
    requires InWindowRange(today) && year + month == LastMonth(today) && |year| == 4
    requires k < DaysInMonth(ReportingMonth(today).year, ReportingMonth(today).month) - FirstDailyDay + 1
    ensures var ym := ReportingMonth(today);
      date == Date(ym.year, ym.month, FirstDailyDay + k) && ValidDate(date) && ValidDate(Date(ym.year, ym.month, FirstDailyDay)) &&
      FileDate(IntertieFileName(year + month + TwoDigits(FirstDailyDay + k))) == Ok(date) &&
      forall h :: HourStamp(date, h) == HourStamp(Date(ym.year, ym.month, FirstDailyDay), 24 * k + h)
  {
    var ym := ReportingMonth(today);
    DailyNameDate(today, year, month, k);
    date := Date(ym.year, ym.month, FirstDailyDay + k);
  }

  /** Appending 24 records stamped start + 24 n, ..., to 24 n records stamped start + j keeps
      the numbering. */
  lemma WindowAppend(table: seq<IntertieLoadRecord>, day: seq<IntertieLoadRecord>, start: Date, n: nat)
    requires ValidDate(start)
    requires |table| == 24 * n && forall j :: 0 <= j < |table| ==> table[j].dateTime == HourStamp(start, j)
    requires |day| == 24 && forall k :: 0 <= k < 24 ==> day[k].dateTime == HourStamp(start, 24 * n + k)
    ensures |table + day| == 24 * (n + 1)
    ensures forall j :: 0 <= j < |table + day| ==> (table + day)[j].dateTime == HourStamp(start, j)
  {
    forall j | 0 <= j < |table + day|
      ensures (table + day)[j].dateTime == HourStamp(start, j)
    {
      if j >= |table| {
        assert (table + day)[j] == day[j - 24 * n];
      }
    }
  }
}
