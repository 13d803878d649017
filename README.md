# Ontario energy ETL — a verified model of the transform core

This project models the pure core of a monthly ETL job for Ontario electricity market
data, and proves properties of that model. Once a month the job processes three kinds of
public IESO report for the previous month:

* the monthly generator output and capability CSV (`PUB_GenOutputCapabilityMonth_YYYYMM.csv`);
* the daily intertie schedule and flow XML (`PUB_IntertieScheduleFlow_YYYYMMDD.xml`);
* the daily constrained totals XML (`PUB_DAConstTotals_YYYYMMDD.xml`).

The model covers four parts of the job:

* **File names** (`FilenameHelper`). It computes the previous month from a given date and the `YYYYMM` token. It builds the monthly file name and the lists of daily file names for days 22 to the end of that month.
* **Validation** (`SchemaValidator`). It checks the monthly CSV header, and checks that every daily intertie and load document holds the elements the transforms read.
* **Monthly transform** (`OutputReshape`). The step runs in this order:
  1. unpivots the 24 hourly columns into one row per filled cell;
  2. stamps each row with an hour-resolution timestamp;
  3. pivots the measurements into columns, which fails on a duplicate cell;
  4. drops rows without Output;
  5. derives the scaled metrics: ScaledAvailableCapacity, ScaledCapability, ScaledForecast and ScaledOutput.
* **Daily transform** (`XmlExtract`, `DailyMerge`). It pulls rows out of each pair of daily documents and inner-joins them on the hour. It then converts hours to 0–23, sorts them, pads short days and stamps each row with the day's timestamp. The result is the concatenation for the whole window.

Supporting modules:

* `Wrappers` holds Option, Result and the Python exception kinds.
* `Decimal` handles digit strings: `str`, `zfill`, `int`, the `\d{8}` search and the numeric coercion.
* `Calendar` holds the Gregorian calendar. A timestamp is a whole number of hours, `Ordinal(date) * 24 + hour`.
* `Xml` is an element tree with ElementTree's pre-order `iter()` and the path searches the job uses.

File I/O is replaced by values:

* a CSV file becomes its header or its data rows;
* an XML file becomes a parsed `Element`;
* a directory becomes a map from file name to parsed document;
* "today" becomes a parameter.

The operations that loop in the source are Dafny methods:

* `SchemaValidator.CheckIntertieNodes` and `SchemaValidator.CheckLoadNodes`, the loops over the daily file names, whose contracts state when each returns true, false or FileNotFound;
* `FilenameHelper.DailyDataFileNames`, the loop over the days from the 22nd to the end of the month, whose contract gives both name lists in full;
* `XmlExtract.ParseIntertieXml`, `XmlExtract.EntryTexts`, `XmlExtract.ParseLoadXml` and `XmlExtract.LoadRowFor`, the row extraction, each proved equal to a specification function;
* `DailyMerge.PadDay`, `DailyMerge.TransformDay`, `DailyMerge.AppendDay` and `DailyMerge.TransformImportExportLoadData`, the daily loop, each proved equal to a specification function;
* `OutputReshape.TransformOutputData`, the monthly pipeline, whose contract states its error cases and the records it returns.

The properties of the specification functions are proved as lemmas.

Behaviour of the code worth knowing (the padding of short days is under "## Findings"):

* **A day with more than 24 joined rows is kept as it is.** `range(num_rows, 25)` is then empty. A repeated Hour in both documents multiplies its rows in the join (`DailyMerge.InnerJoinCount`).
* **A monthly file with only Output and Capability measurements raises KeyError for `AvailableCapacity`.** It does not produce records (`OutputReshape.OnlyOutputAndCapability`). The code indexes all four measurement columns before dropping rows (`scripts/transform_helper.py:89-90`).
* **Non-numeric energy values stay in the table as missing.** `pd.to_numeric(..., errors='coerce')` runs after the blank cells are dropped (`scripts/transform_helper.py:65-66`), so the rows it turns into missing values are not removed.

## Model

| member | source | states |
|---|---|---|
| FilenameHelper.ReportingMonth | scripts/filename_helper.py:4-5 | the month returned is 1..12 and its last day is the day before the first of today's month (so January gives December of the previous year) |
| FilenameHelper.LastMonth | scripts/filename_helper.py:1-5 | the token is six digits whose first four read as the reporting year and last two as the reporting month |
| FilenameHelper.OutputFileName | scripts/filename_helper.py:8-10 | the name is the monthly prefix, the reporting year and month as digits, and `.csv` |
| FilenameHelper.LastMonthForApril2024 | scripts/filename_helper.py:1-5 | any day of April 2024 gives the token `202403` |
| FilenameHelper.OutputFileNameForMarch2024 | scripts/filename_helper.py:8-10 | any day of April 2024 names `PUB_GenOutputCapabilityMonth_202403.csv` |
| FilenameHelper.DailyDataFileNames | scripts/filename_helper.py:13-27 | year and month split the token and read back as the reporting month; both lists have one name per day 22..last day of that month, the i-th naming day 22+i with a two-digit day |
| FilenameHelper.IntertieFileName | scripts/filename_helper.py:25 | the intertie file of a day: `PUB_IntertieScheduleFlow_`, the eight-digit token and `.xml`; NameToken reads the token back |
| FilenameHelper.LoadFileName | scripts/filename_helper.py:26 | the load file of a day: `PUB_DAConstTotals_`, the eight-digit token and `.xml`; NameToken reads the token back |
| FilenameHelper.DayToken | scripts/filename_helper.py:17-26 | the token for day index i is the YYYYMMDD form of day 22+i of the reporting month, a valid date |
| FilenameHelper.NameToken | scripts/transform_helper.py:176 | the eight-digit search on an intertie or load file name finds the token it was built from |
| FilenameHelper.DailyNameDate | scripts/filename_helper.py:23-26 | the i-th token is the compact form of a valid date in the reporting month; the eight-digit search on either file name finds exactly that token and it parses back to that date |
| Calendar.DaysInMonth | scripts/filename_helper.py:20 | a month has 28 to 31 days |
| Calendar.MonthBoundary | scripts/filename_helper.py:5 | the last day of the previous month is one day before the first of the month |
| Calendar.NextDayStamp | scripts/transform_helper.py:178-179 | adding 24 hours to a date's midnight gives the next day's timestamp |
| Calendar.CompactDateRoundTrip | scripts/transform_helper.py:176-178 | parsing the `%Y%m%d` form of a date gives the date back |
| Calendar.ParseCompactDate | scripts/transform_helper.py:178 | a parsed `%Y%m%d` date is a valid calendar date |
| Calendar.ParseIsoDate | scripts/transform_helper.py:73 | a parsed date is valid and within the Timestamp range 1677-09-22 to 2262-04-11, and a date out of it raises; month and day may have one digit or two |
| Calendar.IsoDateRoundTrip | scripts/transform_helper.py:73 | every date in the Timestamp range parses back from its year, its month and its day joined by `-`, with one- or two-digit month and day fields |
| Calendar.PaddedIsoDateRoundTrip | scripts/transform_helper.py:73 | the zero-padded `%Y-%m-%d` form of a date in range parses back to the date |
| Calendar.UnpaddedIsoDateRoundTrip | scripts/transform_helper.py:73 | the form without leading zeros, as in `2024-3-1`, parses back to the same date |
| Decimal.ParseDecimalString | scripts/filename_helper.py:24 | `int(str(n)) == n` |
| Decimal.ZeroPad | scripts/filename_helper.py:24 | `zfill` keeps the value, pads to the width, and leaves a long enough string alone |
| Decimal.TwoDigits | scripts/filename_helper.py:24 | a day below 100 becomes two digits with the same value |
| Decimal.ToNumericOfDecimalString | scripts/transform_helper.py:66 | numeric coercion reads a decimal string as its value |
| Decimal.ToNumeric | scripts/transform_helper.py:66 | a coerced value comes only from a string that holds a digit; anything else becomes missing |
| Decimal.ToNumericOfDecimal | scripts/transform_helper.py:66 | an optional sign, whole digits and optionally a point with fraction digits coerce to plus or minus the whole value plus the fraction over 10 to the number of fraction digits; one of the digit runs may be empty |
| Decimal.DecimalValue | scripts/transform_helper.py:66 | a decimal value is never negative and equals the whole digits when there is no fraction |
| Decimal.FirstIndexOf | scripts/transform_helper.py:66 | the index found holds the character sought and no earlier index does, or it is the length when the character is absent |
| Decimal.FirstEightDigitRun | scripts/transform_helper.py:176 | the search result is eight digits |
| Decimal.FirstEightDigitRunAfter | scripts/transform_helper.py:176 | after a digit-free prefix the search returns the first eight digits that follow |
| SchemaValidator.HourColumns | scripts/transform_helper.py:9-15 | the hour columns are `Hour 1` .. `Hour 24` in order |
| SchemaValidator.CheckOutputColumns | scripts/transform_helper.py:4-16 | the header passes iff it has 28 names, each one of the expected names; OutputColumnsExact and MissingColumnFails state what that means |
| SchemaValidator.HasIntertieLeaf | scripts/transform_helper.py:28 | some element below the root has the IMO tag of the leaf, which is when `find` returns an element; Xml.NamedMembers states the tag search |
| SchemaValidator.HasLoadLabel | scripts/transform_helper.py:41 | some MQ element below the root has a MarketQuantity child with the label as text; Xml.WithChildTextMembers states the predicate |
| SchemaValidator.OutputColumnsExact | scripts/transform_helper.py:4-16 | a header of distinct names that passes holds exactly the 28 expected names |
| SchemaValidator.MissingColumnFails | scripts/transform_helper.py:4-16 | a header of distinct names lacking any expected name fails |
| SchemaValidator.CheckIntertieNodes | scripts/transform_helper.py:19-29 | true iff every file has Hour, Import and Export elements in the IMO namespace; false iff the first file that is not like that exists but lacks one; FileNotFound iff the first such file is missing |
| SchemaValidator.CheckLoadNodes | scripts/transform_helper.py:32-42 | true iff every file has an MQ element for each of Total Energy, Total Loss and Total Load in the IESO namespace; false and FileNotFound as for the intertie check |
| XmlExtract.RawRows | scripts/transform_helper.py:120-125 | one row per schedule entry, each the texts of its Hour, Import and Export descendants in pre-order |
| XmlExtract.ScheduleEntries | scripts/transform_helper.py:120 | the children of every Schedules child of a Totals element, in document order, as the path ending in `*` selects |
| XmlExtract.IntertieFrame | scripts/transform_helper.py:126 | the frame builds iff there are no rows or the longest row has exactly 3 cells; then row i is row i's cells, missing ones as None |
| XmlExtract.IntertieTable | scripts/transform_helper.py:120-126 | IndexError on a tag without a namespace, else the frame of the raw rows; IntertieTableRows states its outcome |
| XmlExtract.IntertieTableRows | scripts/transform_helper.py:120-126 | the intertie table succeeds iff every tag met has a namespace and there are no entries or the longest raw row has three texts; it then has one row per schedule entry, built from that entry's Hour, Import and Export texts |
| XmlExtract.EntryTexts | scripts/transform_helper.py:122-124 | walking one entry succeeds iff every tag in it has a namespace, giving its leaf texts in pre-order; otherwise IndexError |
| XmlExtract.ParseIntertieXml | scripts/transform_helper.py:110-126 | equals the intertie table of the document |
| XmlExtract.LoadRows | scripts/transform_helper.py:138-143 | the rows succeed iff every DeliveryHour's row does, and then row i is the i-th hour's row |
| XmlExtract.DeliveryHours | scripts/transform_helper.py:138 | the DeliveryHour children of the HourlyConstrainedEnergy elements under Energies, in document order |
| XmlExtract.EnergyCells | scripts/transform_helper.py:142 | the EnergyMW elements under the MQ of the given MarketQuantity in the HourlyConstrainedEnergy of the given DeliveryHour text; XmlExtract.QuantityBelowRoot states where they lie |
| XmlExtract.LoadRowOf | scripts/transform_helper.py:139-142 | one DeliveryHour element's row, with the SyntaxError and AttributeError cases; XmlExtract.LoadRowOfOutcome states them |
| XmlExtract.LoadRowOfOutcome | scripts/transform_helper.py:139-142 | SyntaxError exactly when the hour text holds a double quote, AttributeError exactly when otherwise a quantity has no EnergyMW for that hour, and else the hour text with the first EnergyMW text of each quantity |
| XmlExtract.LoadTableRows | scripts/transform_helper.py:129-144 | the load table succeeds iff no hour text has a double quote (every such text is taken as SyntaxError) and every quantity has an EnergyMW for every hour; row i is then the hour text and the first EnergyMW text of each quantity for that hour |
| XmlExtract.ParseLoadXml | scripts/transform_helper.py:129-144 | equals the load table of the document |
| XmlExtract.LoadRowFor | scripts/transform_helper.py:139-142 | equals the row specified for one DeliveryHour element |
| XmlExtract.LoadTable | scripts/transform_helper.py:138-144 | the rows of the DeliveryHour elements in document order; LoadTableRows states its outcome |
| XmlExtract.LoadRowsExtend | scripts/transform_helper.py:143 | appending a successful row to successful rows extends the table by that row |
| XmlExtract.LoadRowsStopsAt | scripts/transform_helper.py:138-143 | the first failing hour's error is the table's error |
| XmlExtract.LoadExtractionImpliesCheck | scripts/transform_helper.py:32-42 | a document with at least one hour whose load table succeeds passes the load check |
| XmlExtract.QuantityBelowRoot | scripts/transform_helper.py:142 | an EnergyMW found for a quantity lies under an MQ element in the document whose MarketQuantity is that quantity |
| DailyMerge.InnerJoinMembers | scripts/transform_helper.py:162 | a row is in the merge iff it combines an intertie row and a load row with equal Hour |
| DailyMerge.InnerJoin | scripts/transform_helper.py:162 | each intertie row in order, followed by its matches among the load rows in order; InnerJoinMembers and InnerJoinCount state its contents |
| DailyMerge.DayHours | scripts/transform_helper.py:158-165 | a missing intertie file raises FileNotFound for it; on success both files were present and parsed, and the day has one row per pair of the merge |
| DailyMerge.MatchesCount | scripts/transform_helper.py:162 | one intertie row meets as many load rows as carry its Hour |
| DailyMerge.InnerJoinCount | scripts/transform_helper.py:162 | an Hour occurring a times on the left and b times on the right occurs a·b times in the merge: one row per matching pair |
| DailyMerge.DistinctJoin | scripts/transform_helper.py:162-170 | when neither side repeats an Hour, the merge holds each common Hour once and no other, so its row count, tested at line 170, is the number of common Hours |
| DailyMerge.ZeroBasedRows | scripts/transform_helper.py:165 | the conversion succeeds iff every Hour is present and an integer, and row i then has hour Hour-1 and keeps its values |
| DailyMerge.ZeroBased | scripts/transform_helper.py:165 | on success one row per joined row; the first row without an Hour gives TypeError, the first Hour int() refuses gives ValueError |
| DailyMerge.ConsSorted | scripts/transform_helper.py:166 | a row no later than every row of a sorted day keeps it sorted when put in front |
| DailyMerge.SortByHour | scripts/transform_helper.py:166 | the result is sorted by hour and is a permutation of the input |
| DailyMerge.InsertHours | scripts/transform_helper.py:166 | inserting a row adds exactly its hour to the multiset of hours |
| DailyMerge.Padded | scripts/transform_helper.py:169-172 | a day of 24 rows or more passes unchanged; a shorter day, an empty one included, fails with ValueError, as `loc[x] = [x]` on a six-column frame raises |
| DailyMerge.PadDay | scripts/transform_helper.py:169-172 | the padding step equals Padded |
| DailyMerge.IntendedPadded | scripts/transform_helper.py:169-172 | the loop read as adding a placeholder row for each offset n..24: the day's rows are kept in front, and a day of 24 rows or more is left alone |
| DailyMerge.IntendedPaddedLength | scripts/transform_helper.py:169-172 | had each `loc[x] = [x]` been accepted as a placeholder row, a short day would end with 25 rows, not 24: the placeholders carry offsets n..24, and the last is stamped at the next day's midnight |
| DailyMerge.IntendedPaddedKeepsGap | scripts/transform_helper.py:169-172 | the placeholders go by row count, not by missing hour: a day of 23 rows lacking an interior hour h still has no row at h after padding |
| DailyMerge.MissingOffsetsCount | scripts/transform_helper.py:168 | the offsets a day lacks are listed once each, and only those below 24 that the day does not hold |
| DailyMerge.CompletedDay | scripts/transform_helper.py:168 | the day completed as the comment asks: its own rows in front, then one placeholder per offset 0..23 the day lacks |
| DailyMerge.CompletedDayComplete | scripts/transform_helper.py:168 | completing a day whose hours are distinct offsets in 0..23 with one placeholder per missing offset keeps its rows and gives each hour 0..23 once, so it is stamped at 24 consecutive hours |
| DailyMerge.StampAt | scripts/transform_helper.py:178-180 | row i is stamped with the date's midnight plus its hour and keeps its values |
| DailyMerge.Stamp | scripts/transform_helper.py:178-180 | one record per row; StampAt states each record |
| DailyMerge.FileDate | scripts/transform_helper.py:176-178 | a date read from a file name is a valid date |
| DailyMerge.DayRecords | scripts/transform_helper.py:160-186 | one iteration: the first of FileNotFound, the extraction errors, the Hour conversion error, the padding ValueError and the date errors, else the sorted rows stamped; DayRecordsOutcome states when it succeeds |
| DailyMerge.DayRecordsOutcome | scripts/transform_helper.py:160-186 | a day succeeds iff both files parse, every Hour converts, the merge has at least 24 rows and the intertie name carries a date; it then gives the rows in hour order, stamped; a merge of fewer than 24 rows fails with ValueError |
| DailyMerge.MissingHourFails | scripts/transform_helper.py:165-172 | a day holding each hour 0..23 once except one fails with ValueError |
| DailyMerge.TransformDay | scripts/transform_helper.py:160-186 | equals the day's records: join, convert, sort, pad, stamp |
| DailyMerge.Zip | scripts/transform_helper.py:158 | pairs up to the shorter list, pair i holding the i-th names |
| DailyMerge.TransformImportExportLoadData | scripts/transform_helper.py:147-191 | succeeds iff every day of the zipped window does, and then returns the output file name and the days' records concatenated in order; otherwise the first failing day's error |
| DailyMerge.AppendDay | scripts/transform_helper.py:160-188 | one iteration appends day k's records to the table, or fails with day k's error |
| DailyMerge.ConcatStep | scripts/transform_helper.py:188 | the run through day k+1 is the run through day k followed by day k, the first error winning |
| DailyMerge.ConcatExtend | scripts/transform_helper.py:188 | a successful day after a successful run extends the table by its records |
| DailyMerge.ConcatStopsAt | scripts/transform_helper.py:158-188 | the first failing day's error is the whole run's error |
| DailyMerge.ConcatKeepsError | scripts/transform_helper.py:158-188 | once the run has failed, later days do not change its error |
| DailyMerge.WindowSnoc | scripts/transform_helper.py:158-188 | the window of a list of pairs is the window of all but the last followed by the last day's records |
| DailyMerge.WindowRecords | scripts/transform_helper.py:158-188 | the days of the zipped window concatenated in order, the first error winning; ConcatStep, ConcatStopsAt and ConcatKeepsError state this |
| DailyMerge.Concat | scripts/transform_helper.py:188 | the days' records appended in order, the first failing day's error ending the run |
| DailyMerge.ConcatOk | scripts/transform_helper.py:188 | the run succeeds exactly when every day does, and its table then holds all the days' records |
| DailyMerge.WindowFileName | scripts/transform_helper.py:190 | the output name is `transformed_intertie_load_`, the year and month tokens and `.csv` |
| DailyMerge.IncompleteDayStopsWindow | scripts/transform_helper.py:158-188 | when the days before day k succeed and day k merges to fewer than 24 rows, the whole run fails with ValueError |
| DailyMerge.SortedPermutationOfRange | scripts/transform_helper.py:166 | a sorted permutation of 0..n-1 is 0..n-1 |
| DailyMerge.StampedHours | scripts/transform_helper.py:178-179 | rows numbered 0, 1, ... are stamped at hours 0, 1, ... of the date |
| DailyMerge.SortedHours | scripts/transform_helper.py:166 | sorting a day that holds each of the hours 0..n-1 once puts hour k at position k |
| DailyMerge.CompleteDay | scripts/transform_helper.py:165-180 | a day holding each hour 0..23 once passes the padding unchanged and gives 24 records stamped at hours 0..23 of its date |
| DailyMerge.DayRecordsOfComplete | scripts/transform_helper.py:160-180 | a complete day whose file name carries a date gives its rows in hour order, stamped with that date |
| DailyMerge.CompleteWindow | scripts/transform_helper.py:147-188 | complete days named for day 22 onwards give 24 records per day whose timestamps run hour by hour from day 22 at midnight |
| DailyMerge.WindowDayDate | scripts/transform_helper.py:176-179 | the k-th file name reads as day 22+k, whose hours are those 24·k onwards from day 22 |
| DailyMerge.WindowAppend | scripts/transform_helper.py:188 | concatenating a day that continues the hourly run keeps the run contiguous |
| OutputReshape.MeltFromMembers | scripts/transform_helper.py:52-61 | the melted frame holds exactly one cell per row and hour column |
| OutputReshape.Melt | scripts/transform_helper.py:52-61 | the 24 hour columns, column after column, each holding one melted row per data row; MeltFromMembers and MeltDrop state its contents |
| OutputReshape.Column | scripts/transform_helper.py:52-61 | the melted column of Hour h has one row per data row, row i being that row's cell of Hour h |
| OutputReshape.DropBlankMembers | scripts/transform_helper.py:64-65 | a cell survives iff it was present and not a single space |
| OutputReshape.DropBlank | scripts/transform_helper.py:64-65 | the blank drop never adds cells; DropBlankMembers and MeltDrop state which remain |
| OutputReshape.DropBlankConcat | scripts/transform_helper.py:64-65 | dropping blanks distributes over concatenation |
| OutputReshape.KeptCell | scripts/transform_helper.py:52-65 | the cells kept are exactly the filled hour cells of the rows |
| OutputReshape.HourLabelOffset | scripts/transform_helper.py:69-70 | stripping `Hour ` from `Hour h` and subtracting one gives h-1 |
| OutputReshape.ReadingOfCell | scripts/transform_helper.py:66-75 | a filled cell reads iff its delivery date parses, giving the entry stamped at the date plus h-1 hours |
| OutputReshape.ReadingOf | scripts/transform_helper.py:73 | the only failure is ValueError from the date format |
| OutputReshape.ReadingsOk | scripts/transform_helper.py:66-75 | the column conversion succeeds iff every cell converts |
| OutputReshape.ReadingsAt | scripts/transform_helper.py:66-75 | on success reading i is cell i's reading |
| OutputReshape.Readings | scripts/transform_helper.py:66-75 | the only error is ValueError; ReadingsOk and ReadingsAt state the outcome |
| OutputReshape.Long | scripts/transform_helper.py:49-75 | the long table of the monthly file; it fails only with ValueError, and Unpivot, LongMember and UnpivotOrder state its contents |
| OutputReshape.Renamed | scripts/transform_helper.py:84-86 | the rename of Available Capacity to AvailableCapacity applied to a measurement name; RenamedNames states it |
| OutputReshape.RenamedNames | scripts/transform_helper.py:84-86 | only Available Capacity changes name, and a measurement ends up called AvailableCapacity exactly when it was written with or without the space |
| OutputReshape.Unpivot | scripts/transform_helper.py:49-75 | the long table succeeds iff every filled cell's date parses; it then holds exactly the filled cells' entries, and so no more than 24 per data row (UnpivotOrder gives the exact count and order) |
| OutputReshape.UnpivotSucceeds | scripts/transform_helper.py:66-75 | the long table succeeds iff every filled cell's date parses |
| OutputReshape.LongMember | scripts/transform_helper.py:49-75 | an entry is in the long table iff it is the entry of a filled cell |
| OutputReshape.ColumnCells | scripts/transform_helper.py:52-65 | the filled cells of one column, each in that column and filled, with rows strictly increasing |
| OutputReshape.FilledCells | scripts/transform_helper.py:52-65 | the filled cells in melt order: all filled, and strictly ordered by column and then row, so each appears once |
| OutputReshape.ColumnCellsComplete | scripts/transform_helper.py:52-65 | every filled cell of a column is listed |
| OutputReshape.FilledCellsComplete | scripts/transform_helper.py:52-65 | every filled cell is listed |
| OutputReshape.ColumnDrop | scripts/transform_helper.py:52-65 | dropping the blanks of one column leaves its filled cells in row order |
| OutputReshape.MeltDrop | scripts/transform_helper.py:52-65 | the melt with blanks dropped is exactly the filled cells in melt order |
| OutputReshape.UnpivotOrder | scripts/transform_helper.py:49-75 | the long table has exactly one entry per filled cell, and entry k is the entry of the k-th filled cell in melt order |
| OutputReshape.StrLessTotal | scripts/transform_helper.py:78-81 | the string order of the index is total |
| OutputReshape.KeyLessTransitive | scripts/transform_helper.py:78-81 | the order on (DateTime, Generator, FuelType) is transitive |
| OutputReshape.KeyLessTotal | scripts/transform_helper.py:78-81 | the order on (DateTime, Generator, FuelType) is total |
| OutputReshape.KeysMembers | scripts/transform_helper.py:78-81 | a key is in the table iff some row has it |
| OutputReshape.Place | scripts/transform_helper.py:78-81 | placing a reading keeps the rows strictly increasing and adds its key |
| OutputReshape.PlaceCells | scripts/transform_helper.py:78-81 | placing succeeds iff the cell is still empty, and then sets only that cell |
| OutputReshape.PivotTable | scripts/transform_helper.py:78-81 | a successful pivot has strictly increasing rows; PivotCells and PivotFails state its outcome |
| OutputReshape.NoDuplicateSnoc | scripts/transform_helper.py:78-81 | a list extended by one entry has no duplicate cell iff the list has none and no entry of it shares the new entry's cell |
| OutputReshape.PivotStep | scripts/transform_helper.py:78-81 | adding a reading without a duplicate to a table that tabulates the rest tabulates all |
| OutputReshape.PivotCells | scripts/transform_helper.py:78-81 | the pivot succeeds iff no index and measurement repeat, and its rows are then strictly increasing and hold exactly the entered values |
| OutputReshape.PivotFails | scripts/transform_helper.py:78-81 | the pivot fails iff an entry repeats, and then with ValueError |
| OutputReshape.PivotCellOf | scripts/transform_helper.py:78-81 | each cell of the pivot is the value entered for that index and measurement, or missing |
| OutputReshape.EnergyOfEntry | scripts/transform_helper.py:78-81 | without duplicates the value looked up for an entry is that entry's value |
| OutputReshape.FirstMissing | scripts/transform_helper.py:89-90 | no column is reported iff every measurement column exists; a reported one is one of them and absent |
| OutputReshape.MissingColumn | scripts/transform_helper.py:89-90 | no column is missing exactly when all four measurement columns occur in the long table; otherwise it names one that does not |
| OutputReshape.WithOutput | scripts/transform_helper.py:91 | the rows kept are exactly those with an Output value, in order |
| OutputReshape.Project | scripts/transform_helper.py:84-91 | record i carries row i's index and measurements |
| OutputReshape.Apply | scripts/transform_helper.py:94-102 | a column assignment transforms every record and only that |
| OutputReshape.Div | scripts/transform_helper.py:98-104 | a column division followed by the replacement of infinities with missing; OutputReshape.DivInverse states it |
| OutputReshape.DivInverse | scripts/transform_helper.py:98-104 | the quotient is present exactly when both operands are and the divisor is not zero, and then it times the divisor gives the dividend |
| OutputReshape.Scaled | scripts/transform_helper.py:94-104 | the five assignments in source order change only the four scaled columns; ScaledPrecedence states the values they take |
| OutputReshape.ScaledTable | scripts/transform_helper.py:94-104 | the five column assignments made one after the other over the table scale each record as Scaled does |
| OutputReshape.ScaledPrecedence | scripts/transform_helper.py:94-104 | the five assignments in source order give ScaledAvailableCapacity and ScaledCapability 1 where present, Forecast/AvailableCapacity, and Output over AvailableCapacity when present, else over Capability, else missing; a zero divisor gives missing; nothing else changes |
| OutputReshape.RowFaithful | scripts/transform_helper.py:78-104 | a record built from a pivot row holds the long table's values for its index and follows the scaling rules |
| OutputReshape.OutputKept | scripts/transform_helper.py:91 | every entry with an Output value has a row after the filter |
| OutputReshape.DescribesTable | scripts/transform_helper.py:78-104 | the scaled projection of the filtered pivot describes the long table |
| OutputReshape.TransformOutputData | scripts/transform_helper.py:45-104 | a bad date or a duplicate gives ValueError; otherwise a missing measurement column gives KeyError for the first missing one; otherwise the records are strictly increasing by index, faithful to the long table, and cover every entry with an Output value |
| OutputReshape.OnlyOutputAndCapability | scripts/transform_helper.py:89-90 | a file with only Output and Capability measurements raises KeyError for AvailableCapacity |
| Xml.NamedMembers | scripts/transform_helper.py:28 | the tag search keeps exactly the elements with that tag |
| Xml.WithChildTextMembers | scripts/transform_helper.py:41 | the predicate search keeps exactly the elements with a child of that tag and text |
| Xml.ChildInIter | scripts/transform_helper.py:122 | a child of any element met in a pre-order walk is met in that walk too |

## Left out

- File reading and writing: `read_csv` with its three skipped preamble rows and NA tokens, `ET.parse`, and `to_csv`. The model takes the parsed header and data rows, parsed documents, and the records that would be written; column naming and order in the written CSV are not modelled.
- The scheduler that calls these functions, and `date.today()`, which is a parameter.
- Floating point: energy values are reals. `inf` and `nan` never arise. A division by zero is modelled directly as missing, which is what the `inf` replacement leaves.
- Decimal.ToNumeric: only reads optionally signed decimal strings with one optional point. Exponents, `inf`/`nan` spellings and surrounding whitespace become missing.
- Decimal.ParseInt: accepts one optional sign and ASCII digits only; the surrounding whitespace and underscores that `int()` also allows are not modelled.
- Decimal.FirstEightDigitRun: matches ASCII digits only, not every Unicode digit `\d` matches.
- FilenameHelper.LastMonth: requires the reporting year to be at least 1000, because `%Y` of smaller years is platform dependent.
- Calendar.ParseIsoDate: a missing Delivery Date cell, which `to_datetime` turns into NaT, cannot be expressed: the delivery date is always a text. Where a NaT index entry would sort in the pivot depends on pandas' handling of missing index labels, which is not modelled.
- Calendar.ParseIsoDate: leading or trailing whitespace and the NaT spellings `NaT`, `nat` and `NAT` are treated as malformed (ValueError); pandas reads those spellings as NaT and can skip the whitespace.
- Calendar.ParseCompactDate: reads only the fully padded eight-digit form; `strptime` also accepts shorter fields, which a `\d{8}` match never leaves it.
- XmlExtract: element text is the `.text` of the element alone; tails and namespaces holding `}` are not modelled.
- XmlExtract.LoadTableRows: the path predicate compares with the hour text as written, and every hour text containing `"` is modelled as SyntaxError. ElementPath raises only when the quote leaves the path malformed; a text such as `1"][{http://www.ieso.ca/schema}DeliveryHour="1` closes into two well-formed predicates, and the code then reads hour 1's quantities where the model fails. Other characters ElementPath's tokenizer treats specially are not modelled either.
- DailyMerge.SortByHour: does not state which order rows with equal hours end up in; only sortedness and permutation are proved.
- DailyMerge.PadDay: the loop over `range(num_rows, 25)` is written as its first pass only, because that pass either does not happen (24 rows or more) or raises.
- DailyMerge.FileDate: accepts every date `datetime` accepts. Adding the hour offsets turns the date into a nanosecond Timestamp, which fails outside 1677-09-22 to 2262-04-11; that failure is not modelled for file name dates.
- The `fillna(0)` on line 173 and the `replace` on line 90 discard their results, so they change nothing and are not modelled.
- OutputReshape.TransformOutputData: renames `Available Capacity` to `AvailableCapacity` before the pivot. A file holding both spellings would give two columns in the source and one in the model.
- OutputReshape.TransformOutputData: requires every data row to have 24 hour cells, which the column check guarantees.
- OutputReshape.TransformOutputData: the KeyError names only the first missing measurement column; pandas lists every one.
- OutputReshape.TransformOutputData: measurement kinds other than the four named ones are not carried into the records.
- OutputReshape.TransformOutputData: a missing Generator or Fuel Type cell is treated as an ordinary value in the index.
- OutputReshape.HourOffset: strips only a leading `Hour `; `str.replace` would also remove later occurrences, which hour column names never contain.

## Findings

| source | as written | input that shows it | evidently intended | confidence | as-written member | corrected member |
|---|---|---|---|---|---|---|
| scripts/transform_helper.py:168-172 | a day of fewer than 24 joined rows is padded with `curr_df.loc[x] = [x]`, a one-element row for a six-column frame, which pandas refuses with ValueError, so the first short day ends the whole run | a day whose documents lack one hour, joining to 23 rows | the comment "Ensure data is complete for 24 hours": each missing hour added as a row of missing values | not executed | DailyMerge.MissingHourFails | DailyMerge.CompletedDayComplete |
| scripts/transform_helper.py:169-172 | even read as placeholders with Hour x, `range(num_rows, 25)` adds 25 - n rows at offsets n..24, so a short day ends with 25 rows and the last is stamped at the next day's midnight | any day of fewer than 24 rows | each of the 24 hours 0..23 exactly once | not executed | DailyMerge.IntendedPaddedLength | DailyMerge.CompletedDayComplete |
| scripts/transform_helper.py:169-172 | the placeholders are placed by row count, not by the hours missing, so an interior gap stays open | a day of 23 rows lacking offset 5: placeholders at 23 and 24, none at 5 | the missing offset itself filled | not executed | DailyMerge.IntendedPaddedKeepsGap | DailyMerge.CompletedDayComplete |

The window model (`DailyMerge.DayRecords` and the loop) follows the code as written, with `DailyMerge.Padded`; `DailyMerge.IntendedPadded` and `DailyMerge.CompletedDay` stand beside it to show the gap between the loop and its comment.
