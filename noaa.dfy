/** The NOAA GHCN-Daily readers of `noaa.py`: the by-year CSV reader `read_file`, the
    fixed-width `.dly` reader `parse_dly`, the list of "superghcnd" daily diff files, and the
    choice of run mode in `main`. A file arrives as the sequence of its lines (each with its
    newline), the configuration as a value, `float(text)` as the parameter `toFloat`, and
    `datetime.now()` as the parameter `now`. */
module Noaa {
  import opened Wrappers
  import opened PyText
  import opened Calendar
  import opened PyValue

  /** The parts of the `noaa` configuration the readers use: the multiplier of each element
      type (`conversions`) and the meaning of each quality flag (`flag_codes`). */
  datatype Config = Config(conversions: map<string, real>, flagCodes: map<string, Value>)

  /** The data dictionary of one observation: `{"datetime": .., "value": .., "flag": ..}`. */
  datatype Observation = Observation(datetime: string, value: Option<real>, flag: Value)

  /** What `read_file` yields per kept line: station, series name and observation. */
  datatype Record = Record(station: string, series: string, data: Observation)

  // ---------------------------------------------------------------------------
  // read_file: the by-year CSV files

  /** `line.strip('\n').split(',')` unpacked into eight names: any other count is a ValueError. */
  function CsvFields(line: string): (r: Result<seq<string>>)
    ensures r.Ok? ==> |r.value| == 8 && forall i :: 0 <= i < 8 ==> ',' !in r.value[i]
  {
    var fields := Split(Strip(line, {'\n'}), ',');
    if |fields| == 8 then Ok(fields) else Err(ValueError)
  }

  /** Eight fields free of commas and newlines, written out as a CSV line, read back as they were. */
  lemma CsvFieldsOfLine(fields: seq<string>)
    requires |fields| == 8
    requires forall i :: 0 <= i < 8 ==> ',' !in fields[i] && '\n' !in fields[i]
    ensures CsvFields(Join(fields, ",") + "\n") == Ok(fields)
  {
    var s := Join(fields, ",");
    JoinAvoids(fields, ",", '\n');
    StripTrailing(s, '\n', {'\n'});
    assert s + "\n" == s + ['\n'];
    SplitJoin(fields, ',');
  }

  /** Year `date[:4]`, month `date[4:6]` and day `date[6:8]` of a CSV date field. */
  function DateFields(date: string): Result<(int, int, int)>
  {
    var year :- ToInt(Slice(date, 0, 4));
    var month :- ToInt(Slice(date, 4, 6));
    var day :- ToInt(Slice(date, 6, 8));
    Ok((year, month, day))
  }

  /** The time stamp of a CSV line: the date fields and, when the time field is not empty,
      hour `int(time[:2]) % 24` (read first, as the list of arguments is built) and minute
      `time[2:]`; an empty time gives midnight. */
  function ObservedAt(date: string, time: string): Result<DateTime>
  {
    if time != [] then
      var hour :- ToInt(Slice(time, 0, 2));
      var ymd :- DateFields(date);
      var minute :- ToInt(Slice(time, 2, |time|));
      MakeDateTime(ymd.0, ymd.1, ymd.2, hour % 24, minute, 0)
    else
      var ymd :- DateFields(date);
      MakeDateTime(ymd.0, ymd.1, ymd.2, 0, 0, 0)
  }

  /** The date does not depend on the time field, and an empty time field is midnight. */
  lemma ObservedAtDate(date: string, time: string)
    requires ObservedAt(date, time).Ok?
    ensures ObservedAt(date, "").Ok?
    ensures var t := ObservedAt(date, time).value;
      ObservedAt(date, "").value == Midnight(t.year, t.month, t.day) && Valid(t)
  {
    var ymd := DateFields(date).value;
    var t := ObservedAt(date, time).value;
    assert t.year == ymd.0 && t.month == ymd.1 && t.day == ymd.2 && InRange(t.year) && Valid(t);
    assert ObservedAt(date, "") == MakeDateTime(ymd.0, ymd.1, ymd.2, 0, 0, 0);
  }

  /** A four-digit time `hhmm` is hour `hh` modulo 24 and minute `mm` of the line's date. */
  lemma ObservedAtClock(date: string, hh: string, mm: string)
    requires |hh| == 2 && AllDigits(hh) && |mm| >= 1 && AllDigits(mm)
    requires DigitsValue(mm) < 60
    requires ObservedAt(date, "").Ok?
    ensures ObservedAt(date, hh + mm) ==
      Ok(ObservedAt(date, "").value.(hour := DigitsValue(hh) % 24, minute := DigitsValue(mm)))
  {
    var time := hh + mm;
    assert Slice(time, 0, 2) == hh;
    assert Slice(time, 2, |time|) == mm;
    ParseIntOfDigits(hh);
    ParseIntOfDigits(mm);
  }

  /** "2400" is midnight at the start of the line's own date, not of the next one. */
  lemma HourTwentyFour(date: string)
    requires ObservedAt(date, "").Ok?
    ensures ObservedAt(date, "2400") == ObservedAt(date, "")
  {
    assert "2400" == "24" + "00";
    assert DigitsValue("24") == 24;
    assert DigitsValue("00") == 0;
    ObservedAtClock(date, "24", "00");
  }

  /** `float(text) * conversion`; a text that is not a number is a ValueError. */
  function Scaled(toFloat: string -> Option<real>, text: string, conversion: real): (r: Result<real>)
    ensures r.Ok? <==> toFloat(text).Some?
    ensures r.Ok? ==> r.value == toFloat(text).value * conversion
  {
    match toFloat(text)
    case Some(x) => Ok(x * conversion)
    case None => Err(ValueError)
  }

  /** One pass of `read_file`'s loop: the fields and the time stamp are read for every line;
      only a line whose element (field 2) is in `codes` gives a record, after looking up its
      conversion, converting its value (field 3) unless values are deleted, and looking up its
      quality flag (field 5). */
  function CsvRecord(codes: seq<string>, cfg: Config, deleteValues: bool,
                     toFloat: string -> Option<real>, line: string): Result<Option<Record>>
  {
    var fields :- CsvFields(line);
    FieldsRecord(codes, cfg, deleteValues, toFloat, fields)
  }

  /** The record of a line's eight fields. */
  function FieldsRecord(codes: seq<string>, cfg: Config, deleteValues: bool,
                        toFloat: string -> Option<real>, fields: seq<string>): Result<Option<Record>>
    requires |fields| == 8
  {
    var at :- ObservedAt(fields[1], fields[7]);
    if fields[2] !in codes then Ok(None)
    else
      var conversion :- Get(cfg.conversions, fields[2]);
      var value: Option<real> :-
        if deleteValues then Ok(None)
        else var x :- Scaled(toFloat, fields[3], conversion); Ok(Some(x));
      var flag :- Get(cfg.flagCodes, fields[5]);
      var station := "NOAA_" + fields[0];
      Ok(Some(Record(station, station + "#" + fields[2], Observation(IsoDateTime(at) + "Z", value, flag))))
  }

  function CsvStep(codes: seq<string>, cfg: Config, deleteValues: bool,
                   toFloat: string -> Option<real>): string -> Result<Option<Record>>
  {
    line => CsvRecord(codes, cfg, deleteValues, toFloat, line)
  }

  /** What the generator `read_file(codes, path, delete_values)` yields from the file's lines. */
  function ReadFileOf(codes: seq<string>, cfg: Config, deleteValues: bool,
                      toFloat: string -> Option<real>, lines: seq<string>): Yielded<Record>
  {
    Collect(lines, CsvStep(codes, cfg, deleteValues, toFloat))
  }

  /** `read_file`: the loop over the lines of the file, yielding record by record. */
  method ReadFile(codes: seq<string>, cfg: Config, deleteValues: bool,
                  toFloat: string -> Option<real>, lines: seq<string>)
    returns (records: seq<Record>, stop: Option<Error>)
    ensures Yielded(records, stop) == ReadFileOf(codes, cfg, deleteValues, toFloat, lines)
  {
    ghost var step := CsvStep(codes, cfg, deleteValues, toFloat);
    records, stop := [], None;
    var i := 0;
    while i < |lines|
      invariant 0 <= i <= |lines|
      invariant Collect(lines[..i], step) == Yielded(records, None)
    {
      var r := CsvRecord(codes, cfg, deleteValues, toFloat, lines[i]);
      CollectStep(lines, i, step, records);
      assert r == step(lines[i]);
      if r.Err? {
        stop := Some(r.error);
        return;
      }
      if r.value.Some? {
        records := records + [r.value.value];
      }
      i := i + 1;
    }
    assert lines[..i] == lines;
  }

  /** A line that is kept gives "NOAA_" + id as station, station + "#" + element as series,
      the time stamp in ISO form with a Z, the value scaled by the element's conversion (none
      when values are deleted) and the meaning of the Q-flag (field 5); the M- and S-flags
      (fields 4 and 6) play no part. */
  lemma FieldsRecordKept(codes: seq<string>, cfg: Config, deleteValues: bool,
                         toFloat: string -> Option<real>, f: seq<string>)
    requires |f| == 8
    requires FieldsRecord(codes, cfg, deleteValues, toFloat, f).Ok?
    requires FieldsRecord(codes, cfg, deleteValues, toFloat, f).value.Some?
    ensures var r := FieldsRecord(codes, cfg, deleteValues, toFloat, f).value.value;
      f[2] in codes && f[2] in cfg.conversions && f[5] in cfg.flagCodes &&
      ObservedAt(f[1], f[7]).Ok? &&
      r.station == "NOAA_" + f[0] && r.series == "NOAA_" + f[0] + "#" + f[2] &&
      r.data.datetime == IsoDateTime(ObservedAt(f[1], f[7]).value) + "Z" &&
      r.data.flag == cfg.flagCodes[f[5]] &&
      (deleteValues ==> r.data.value.None?) &&
      (!deleteValues ==>
         toFloat(f[3]).Some? && r.data.value == Some(toFloat(f[3]).value * cfg.conversions[f[2]]))
  {
    var at := ObservedAt(f[1], f[7]);
    assert at.Ok?;
    assert f[2] in codes;
    var conversion := Get(cfg.conversions, f[2]);
    assert conversion.Ok?;
    if !deleteValues {
      assert Scaled(toFloat, f[3], conversion.value).Ok?;
    }
    assert Get(cfg.flagCodes, f[5]).Ok?;
  }

  /** A line whose element is not sought gives nothing, but its time stamp is read first and
      raises when it is bad; a sought line needs its element's conversion and its flag's meaning. */
  lemma FieldsRecordFiltered(codes: seq<string>, cfg: Config, deleteValues: bool,
                             toFloat: string -> Option<real>, f: seq<string>)
    requires |f| == 8
    ensures var r := FieldsRecord(codes, cfg, deleteValues, toFloat, f);
      (ObservedAt(f[1], f[7]).Err? ==> r == Err(ObservedAt(f[1], f[7]).error)) &&
      (ObservedAt(f[1], f[7]).Ok? && f[2] !in codes ==> r == Ok(None)) &&
      (ObservedAt(f[1], f[7]).Ok? && f[2] in codes && f[2] !in cfg.conversions ==> r == Err(KeyError)) &&
      ((ObservedAt(f[1], f[7]).Ok? && f[2] in codes && f[2] in cfg.conversions && deleteValues &&
        f[5] !in cfg.flagCodes) ==> r == Err(KeyError)) &&
      ((ObservedAt(f[1], f[7]).Ok? && f[2] in codes && f[2] in cfg.conversions && !deleteValues &&
        toFloat(f[3]).None?) ==> r == Err(ValueError)) &&
      ((ObservedAt(f[1], f[7]).Ok? && f[2] in codes && f[2] in cfg.conversions && !deleteValues &&
        toFloat(f[3]).Some? && f[5] !in cfg.flagCodes) ==> r == Err(KeyError))
  {
  }

  /** A line that does not split into eight fields is a ValueError, whatever its element. */
  lemma CsvRecordFieldCount(codes: seq<string>, cfg: Config, deleteValues: bool,
                            toFloat: string -> Option<real>, line: string)
    requires |Split(Strip(line, {'\n'}), ',')| != 8
    ensures CsvRecord(codes, cfg, deleteValues, toFloat, line) == Err(ValueError)
  {
  }

  /** Records come in file order: reading two stretches of lines is reading the first and,
      unless that raised, then the second. */
  lemma ReadFileInOrder(codes: seq<string>, cfg: Config, deleteValues: bool,
                        toFloat: string -> Option<real>, xs: seq<string>, ys: seq<string>)
    ensures var a := ReadFileOf(codes, cfg, deleteValues, toFloat, xs);
      ReadFileOf(codes, cfg, deleteValues, toFloat, xs + ys) ==
        if a.stop.Some? then a
        else
          var b := ReadFileOf(codes, cfg, deleteValues, toFloat, ys);
          Yielded(a.items + b.items, b.stop)
  {
    CollectAppend(xs, ys, CsvStep(codes, cfg, deleteValues, toFloat));
  }

  /** Every record comes from a line of the file; the file is read to its end exactly when no
      line raises, and otherwise the generator stops with the first line's error. */
  lemma ReadFileYields(codes: seq<string>, cfg: Config, deleteValues: bool,
                       toFloat: string -> Option<real>, lines: seq<string>)
    ensures var r := ReadFileOf(codes, cfg, deleteValues, toFloat, lines);
      (forall k :: 0 <= k < |r.items| ==>
         exists i :: 0 <= i < |lines| && CsvRecord(codes, cfg, deleteValues, toFloat, lines[i]) == Ok(Some(r.items[k]))) &&
      (r.stop.None? <==> forall i :: 0 <= i < |lines| ==> CsvRecord(codes, cfg, deleteValues, toFloat, lines[i]).Ok?) &&
      (r.stop.Some? ==>
         exists i :: 0 <= i < |lines| && CsvRecord(codes, cfg, deleteValues, toFloat, lines[i]) == Err(r.stop.value) &&
           forall j :: 0 <= j < i ==> CsvRecord(codes, cfg, deleteValues, toFloat, lines[j]).Ok?)
  {
    var step := CsvStep(codes, cfg, deleteValues, toFloat);
    CollectSpec(lines, step);
    var r := ReadFileOf(codes, cfg, deleteValues, toFloat, lines);
    forall k | 0 <= k < |r.items|
      ensures exists i :: 0 <= i < |lines| && CsvRecord(codes, cfg, deleteValues, toFloat, lines[i]) == Ok(Some(r.items[k]))
    {
      var i :| 0 <= i < |lines| && step(lines[i]) == Ok(Some(r.items[k]));
      assert CsvRecord(codes, cfg, deleteValues, toFloat, lines[i]) == Ok(Some(r.items[k]));
    }
    if r.stop.None? {
      forall i | 0 <= i < |lines|
        ensures CsvRecord(codes, cfg, deleteValues, toFloat, lines[i]).Ok?
      {
        assert step(lines[i]).Ok?;
      }
    } else {
      var i :| 0 <= i < |lines| && step(lines[i]) == Err(r.stop.value) &&
        forall j :: 0 <= j < i ==> step(lines[j]).Ok?;
      assert CsvRecord(codes, cfg, deleteValues, toFloat, lines[i]) == Err(r.stop.value);
      assert !CsvRecord(codes, cfg, deleteValues, toFloat, lines[i]).Ok?;
    }
  }

  // ---------------------------------------------------------------------------
  // parse_dly: the fixed-width monthly records

  /** The first column of day d's slot: its value is in [x, x + 5) and its Q-flag at x + 6. */
  function SlotStart(d: int): int
  {
    21 + 8 * (d - 1)
  }

  /** `range(21, 269, 8)`: the starts of the 31 day slots. */
  function SlotStarts(): seq<int>
  {
    seq(31, i requires 0 <= i < 31 => SlotStart(i + 1))
  }

  /** `(int(line[x:x+5]) * conversion, line[x+6])`, kept as the raw integer and the flag
      character: a bad number is a ValueError, a line too short for the flag an IndexError. */
  function Slot(line: string, x: int): Result<(int, char)>
  {
    if x < 0 then Err(IndexError)
    else
      var raw :- ToInt(Slice(line, x, x + 5));
      if x + 6 < |line| then Ok((raw, line[x + 6])) else Err(IndexError)
  }

  function SlotStep(line: string): int -> Result<(int, char)>
  {
    x => Slot(line, x)
  }

  /** The list of the 31 slots, built in order: the first slot that raises makes the line raise. */
  function Slots(line: string): Result<seq<(int, char)>>
  {
    var y := Until(SlotStarts(), SlotStep(line));
    if y.stop.Some? then Err(y.stop.value) else Ok(y.items)
  }

  /** The slots are read exactly when every day's slot reads, and then day d's slot is number d. */
  lemma SlotsSpec(line: string)
    ensures Slots(line).Ok? <==> forall d :: 1 <= d <= 31 ==> Slot(line, SlotStart(d)).Ok?
    ensures Slots(line).Ok? ==>
      |Slots(line).value| == 31 &&
      forall d :: 1 <= d <= 31 ==> Slot(line, SlotStart(d)) == Ok(Slots(line).value[d - 1])
  {
    var step := SlotStep(line);
    assert forall d :: 1 <= d <= 31 ==> SlotStarts()[d - 1] == SlotStart(d);
    DaySlots(SlotStarts(), step);
    assert forall x :: step(x) == Slot(line, x);
  }

  /** Running a step over the 31 slot starts, in terms of the days. */
  lemma DaySlots<U>(starts: seq<int>, step: int -> Result<U>)
    requires |starts| == 31
    requires forall d :: 1 <= d <= 31 ==> starts[d - 1] == SlotStart(d)
    ensures var y := Until(starts, step);
      (y.stop.None? <==> forall d :: 1 <= d <= 31 ==> step(SlotStart(d)).Ok?) &&
      (y.stop.None? ==> |y.items| == 31 && forall d :: 1 <= d <= 31 ==> step(SlotStart(d)) == Ok(y.items[d - 1]))
  {
    UntilSpec(starts, step);
    var y := Until(starts, step);
    if y.stop.None? {
      forall d | 1 <= d <= 31
        ensures step(SlotStart(d)) == Ok(y.items[d - 1])
      {
        assert step(starts[d - 1]) == Ok(y.items[d - 1]);
      }
    } else {
      var d := |y.items| + 1;
      assert step(starts[d - 1]).Err?;
      assert !step(SlotStart(d)).Ok?;
    }
  }

  /** `raw * conversion`, the value a slot holds. */
  function Scale(raw: int, conversion: real): real
  {
    raw as real * conversion
  }

  /** The comprehension's filter: a day is kept unless its scaled value equals -9999 scaled. */
  predicate Recorded(raw: int, conversion: real)
  {
    Scale(raw, conversion) != Scale(-9999, conversion)
  }

  /** With a non-zero conversion a day is dropped exactly when its raw value is -9999; with a
      zero conversion every day is dropped. */
  lemma RecordedIffNotMissing(raw: int, conversion: real)
    ensures conversion != 0.0 ==> (Recorded(raw, conversion) <==> raw != -9999)
    ensures conversion == 0.0 ==> !Recorded(raw, conversion)
  {
    assert Scale(raw, conversion) - Scale(-9999, conversion) == (raw as real + 9999.0) * conversion;
    if conversion != 0.0 && raw != -9999 {
      assert raw as real + 9999.0 != 0.0;
    }
  }

  /** One date of the month listing: `values[day.day]` is the slot of its day of the month,
      a kept day becomes `{"datetime": isoformat + 'Z', "value": .., "flag": flag_codes[..]}`. */
  function DayObservation(cfg: Config, conversion: real, values: seq<(int, char)>, date: DateTime)
    : Result<Option<Observation>>
  {
    if date.day < 1 || date.day > |values| then Err(IndexError)
    else
      var slot := values[date.day - 1];
      if !Recorded(slot.0, conversion) then Ok(None)
      else
        var meaning :- Get(cfg.flagCodes, [slot.1]);
        Ok(Some(Observation(IsoDate(date) + "Z", Some(Scale(slot.0, conversion)), meaning)))
  }

  function DayStep(cfg: Config, conversion: real, values: seq<(int, char)>): DateTime -> Result<Option<Observation>>
  {
    date => DayObservation(cfg, conversion, values, date)
  }

  /** The list comprehension over the dates a month listing yields: raising with the first
      day whose flag is unknown, or with the listing's own error once it is reached. */
  function MonthObservations(cfg: Config, conversion: real, values: seq<(int, char)>, dates: Yielded<DateTime>)
    : Result<seq<Observation>>
  {
    var r := Collect(dates.items, DayStep(cfg, conversion, values));
    if r.stop.Some? then Err(r.stop.value)
    else if dates.stop.Some? then Err(dates.stop.value)
    else Ok(r.items)
  }

  /** The days 1..n of a month, in order. */
  function MonthDays(y: int, m: int): (days: seq<DateTime>)
    ensures 1 <= m <= 12 ==> |days| == MonthLength(y, m)
  {
    if 1 <= m <= 12 then seq(MonthLength(y, m), i requires 0 <= i < MonthLength(y, m) => Midnight(y, m, i + 1))
    else []
  }

  /** The dates of the month that starts at `first`, and nothing else. */
  function CalendarMonth(first: DateTime): Yielded<DateTime>
  {
    Yielded(MonthDays(first.year, first.month), None)
  }

  /** `Calendar().itermonthdates(year, month)` (Python 3.7 on): the Monday-first weeks that
      cover the month, so the listing starts with the last days of the previous month and
      ends with the first days of the next; a date outside years 1..9999 is a ValueError when
      the generator reaches it, and a month outside 1..12 raises at once. */
  function IterMonthDates(first: DateTime): Yielded<DateTime>
  {
    var y := first.year;
    var m := first.month;
    if m < 1 || m > 12 then Yielded([], Some(ValueError))
    else
      var before := Weekday(Midnight(y, m, 1));
      var after := (0 - before - MonthLength(y, m)) % 7;
      var py := if m == 1 then y - 1 else y;
      var pm := if m == 1 then 12 else m - 1;
      var ny := if m == 12 then y + 1 else y;
      var nm := if m == 12 then 1 else m + 1;
      var end := MonthLength(py, pm) + 1;
      var lead := seq(before, i requires 0 <= i < before => Midnight(py, pm, end - before + i));
      var trail := seq(after, i requires 0 <= i < after => Midnight(ny, nm, i + 1));
      if before > 0 && !InRange(py) then Yielded([], Some(ValueError))
      else if after > 0 && !InRange(ny) then Yielded(lead + MonthDays(y, m), Some(ValueError))
      else Yielded(lead + MonthDays(y, m) + trail, None)
  }

  /** The month a `.dly` line is for, when it contributes: the year (columns 11-15) and month
      (15-17) are read on every line, and only a line of the sought element (17-21) has its
      first day `datetime(year, month, 1)` built and compared with `fromDate`. */
  function DlyMonth(line: string, element: string, fromDate: DateTime): Result<Option<DateTime>>
  {
    var kind := Slice(line, 17, 21);
    var year :- ToInt(Slice(line, 11, 15));
    var month :- ToInt(Slice(line, 15, 17));
    if element != kind then Ok(None)
    else
      var first :- MakeDateTime(year, month, 1, 0, 0, 0);
      if Before(first, fromDate) then Ok(None) else Ok(Some(first))
  }

  /** What one line adds to `total_data`, with the month's dates listed by `monthDates`. */
  function LineObservations(cfg: Config, element: string, fromDate: DateTime, conversion: real,
                            monthDates: DateTime -> Yielded<DateTime>, line: string): Result<seq<Observation>>
  {
    var first :- DlyMonth(line, element, fromDate);
    if first.None? then Ok([])
    else
      var values :- Slots(line);
      MonthObservations(cfg, conversion, values, monthDates(first.value))
  }

  function LineStep(cfg: Config, element: string, fromDate: DateTime, conversion: real,
                    monthDates: DateTime -> Yielded<DateTime>): string -> Result<seq<Observation>>
  {
    line => LineObservations(cfg, element, fromDate, conversion, monthDates, line)
  }

  /** The triple `parse_dly` returns. */
  datatype DlySeries = DlySeries(station: string, series: string, data: seq<Observation>)

  /** `parse_dly` over the lines of a `.dly` file: the element's conversion is looked up before
      the file is read, the observations of all lines are concatenated, and the station is
      "NOAA_" + the first 11 characters of the last line read; with no line at all, the loop
      variable is never bound (NameError). */
  function ParseDlyWith(cfg: Config, element: string, fromDate: DateTime,
                        monthDates: DateTime -> Yielded<DateTime>, lines: seq<string>): Result<DlySeries>
  {
    var conversion :- Get(cfg.conversions, element);
    var data :- Concat(lines, LineStep(cfg, element, fromDate, conversion, monthDates));
    if lines == [] then Err(NameError)
    else
      var station := "NOAA_" + Slice(lines[|lines| - 1], 0, 11);
      Ok(DlySeries(station, station + "#" + element, data))
  }

  /** `parse_dly` as written, listing each month with `itermonthdates`. */
  function ParseDlyAsWritten(cfg: Config, element: string, fromDate: DateTime, lines: seq<string>): Result<DlySeries>
  {
    ParseDlyWith(cfg, element, fromDate, IterMonthDates, lines)
  }

  /** `parse_dly` as intended, listing only the days of each month. */
  function ParseDlyOf(cfg: Config, element: string, fromDate: DateTime, lines: seq<string>): Result<DlySeries>
  {
    ParseDlyWith(cfg, element, fromDate, CalendarMonth, lines)
  }

  /** `parse_dly`: the loop over the lines, `total_data +=` line by line. */
  method ParseDly(cfg: Config, element: string, fromDate: DateTime, lines: seq<string>)
    returns (r: Result<DlySeries>)
    ensures r == ParseDlyOf(cfg, element, fromDate, lines)
  {
    var conversion := Get(cfg.conversions, element);
    if conversion.Err? {
      return Err(conversion.error);
    }
    ghost var step := LineStep(cfg, element, fromDate, conversion.value, CalendarMonth);
    var totalData := [];
    var i := 0;
    while i < |lines|
      invariant 0 <= i <= |lines|
      invariant Concat(lines[..i], step) == Ok(totalData)
    {
      var data := LineObservations(cfg, element, fromDate, conversion.value, CalendarMonth, lines[i]);
      ConcatStep(lines, i, step, totalData);
      assert data == step(lines[i]);
      if data.Err? {
        return Err(data.error);
      }
      totalData := totalData + data.value;
      i := i + 1;
    }
    assert lines[..i] == lines;
    if |lines| == 0 {
      return Err(NameError);
    }
    var station := "NOAA_" + Slice(lines[|lines| - 1], 0, 11);
    r := Ok(DlySeries(station, station + "#" + element, totalData));
  }

  // ---------------------------------------------------------------------------
  // properties of parse_dly

  /** Year and month are read on every line, so a bad one raises even on a line of another
      element; a line contributes only for the sought element and a month starting on or
      after `fromDate`, and then that month's first day is a valid date. */
  lemma DlyMonthSpec(line: string, element: string, fromDate: DateTime)
    ensures var r := DlyMonth(line, element, fromDate);
      ((ParseInt(Slice(line, 11, 15)).None? || ParseInt(Slice(line, 15, 17)).None?) ==> r == Err(ValueError)) &&
      (r.Ok? && element != Slice(line, 17, 21) ==> r.value.None?) &&
      (r.Ok? && r.value.Some? ==>
         var first := r.value.value;
         element == Slice(line, 17, 21) &&
         Some(first.year) == ParseInt(Slice(line, 11, 15)) && Some(first.month) == ParseInt(Slice(line, 15, 17)) &&
         first == Midnight(first.year, first.month, 1) && Valid(first) && InRange(first.year) &&
         !Before(first, fromDate))
  {
  }

  /** A day of the month is dropped when its slot holds the missing value; otherwise it needs
      a known flag and gives its ISO date with a Z, its slot's scaled value and the flag's meaning. */
  lemma DayObservationSpec(cfg: Config, conversion: real, values: seq<(int, char)>, date: DateTime)
    requires |values| == 31 && 1 <= date.day <= 31
    ensures var r := DayObservation(cfg, conversion, values, date);
      var slot := values[date.day - 1];
      (r == Ok(None) <==> !Recorded(slot.0, conversion)) &&
      (r.Err? <==> Recorded(slot.0, conversion) && [slot.1] !in cfg.flagCodes) &&
      (r.Err? ==> r.error == KeyError) &&
      (r.Ok? && r.value.Some? ==>
         r.value.value == Observation(IsoDate(date) + "Z", Some(Scale(slot.0, conversion)), cfg.flagCodes[[slot.1]]))
  {
    var slot := values[date.day - 1];
    var r := DayObservation(cfg, conversion, values, date);
    if !Recorded(slot.0, conversion) {
      assert r == Ok(None);
    } else if [slot.1] in cfg.flagCodes {
      assert r == Ok(Some(Observation(IsoDate(date) + "Z", Some(Scale(slot.0, conversion)), cfg.flagCodes[[slot.1]])));
    } else {
      assert r == Err(KeyError);
    }
  }

  /** A listed date whose day gives an observation contributes it, wherever it is listed. */
  lemma ListedDateContributes(cfg: Config, conversion: real, values: seq<(int, char)>, dates: Yielded<DateTime>,
                              i: int, o: Observation)
    requires 0 <= i < |dates.items|
    requires DayObservation(cfg, conversion, values, dates.items[i]) == Ok(Some(o))
    requires MonthObservations(cfg, conversion, values, dates).Ok?
    ensures o in MonthObservations(cfg, conversion, values, dates).value
  {
    var step := DayStep(cfg, conversion, values);
    assert step(dates.items[i]) == Ok(Some(o));
    CollectKeeps(dates.items, step, i, o);
  }

  /** With only the month's own days listed, a month's observations are exactly those of its
      recorded days: each comes from a day d of the month (and so from slot d), and each
      recorded day with a known flag is there. */
  lemma CalendarMonthObservations(cfg: Config, conversion: real, values: seq<(int, char)>, first: DateTime)
    requires |values| == 31 && 1 <= first.month <= 12
    ensures var r := MonthObservations(cfg, conversion, values, CalendarMonth(first));
      var n := MonthLength(first.year, first.month);
      (r.Ok? <==> forall d :: 1 <= d <= n ==> DayObservation(cfg, conversion, values, Midnight(first.year, first.month, d)).Ok?) &&
      (r.Ok? ==> forall o :: o in r.value ==>
         exists d :: 1 <= d <= n && DayObservation(cfg, conversion, values, Midnight(first.year, first.month, d)) == Ok(Some(o))) &&
      (r.Ok? ==> forall d ::
         (1 <= d <= n && DayObservation(cfg, conversion, values, Midnight(first.year, first.month, d)).Ok? &&
          DayObservation(cfg, conversion, values, Midnight(first.year, first.month, d)).value.Some?) ==>
           DayObservation(cfg, conversion, values, Midnight(first.year, first.month, d)).value.value in r.value)
  {
    var y, m := first.year, first.month;
    var n := MonthLength(y, m);
    var days := MonthDays(y, m);
    var step := DayStep(cfg, conversion, values);
    CollectSpec(days, step);
    var c := Collect(days, step);
    var r := MonthObservations(cfg, conversion, values, CalendarMonth(first));
    assert forall d :: 1 <= d <= n ==> days[d - 1] == Midnight(y, m, d);
    if c.stop.None? {
      forall o | o in r.value
        ensures exists d :: 1 <= d <= n && DayObservation(cfg, conversion, values, Midnight(y, m, d)) == Ok(Some(o))
      {
        var k :| 0 <= k < |c.items| && c.items[k] == o;
        var i :| 0 <= i < |days| && step(days[i]) == Ok(Some(c.items[k]));
        assert DayObservation(cfg, conversion, values, Midnight(y, m, i + 1)) == Ok(Some(o));
      }
      forall d | 1 <= d <= n && DayObservation(cfg, conversion, values, Midnight(y, m, d)).Ok? &&
          DayObservation(cfg, conversion, values, Midnight(y, m, d)).value.Some?
        ensures DayObservation(cfg, conversion, values, Midnight(y, m, d)).value.value in r.value
      {
        CollectKeeps(days, step, d - 1, DayObservation(cfg, conversion, values, Midnight(y, m, d)).value.value);
      }
      forall d | 1 <= d <= n
        ensures DayObservation(cfg, conversion, values, Midnight(y, m, d)).Ok?
      {
        assert step(days[d - 1]).Ok?;
      }
    } else {
      var i :| 0 <= i < |days| && step(days[i]) == Err(c.stop.value) && forall j :: 0 <= j < i ==> step(days[j]).Ok?;
      assert !DayObservation(cfg, conversion, values, Midnight(y, m, i + 1)).Ok?;
    }
  }

  /** itermonthdates pads February 2017 (which starts on a Wednesday) to full weeks: it lists
      35 dates, from 30 January to 5 March, none of them raising. */
  lemma PaddedFebruary2017()
    ensures var l := IterMonthDates(Midnight(2017, 2, 1));
      l.stop.None? && |l.items| == 35 &&
      l.items[0] == Midnight(2017, 1, 30) && l.items[29] == Midnight(2017, 2, 28) &&
      l.items[30] == Midnight(2017, 3, 1)
  {
    assert DaysBeforeYear(2017) == 736329;
    assert Ordinal(Midnight(2017, 2, 1)) == 736361;
    assert Weekday(Midnight(2017, 2, 1)) == 2;
  }

  /** As written, a February 2017 line with a value on the 1st also yields that value dated
      1 March 2017 (and likewise for the 2nd to the 5th). */
  lemma MisdatedMarchFirst(cfg: Config, conversion: real, values: seq<(int, char)>)
    requires |values| == 31
    requires MonthObservations(cfg, conversion, values, IterMonthDates(Midnight(2017, 2, 1))).Ok?
    requires Recorded(values[0].0, conversion)
    ensures exists o ::
      o in MonthObservations(cfg, conversion, values, IterMonthDates(Midnight(2017, 2, 1))).value &&
      o.datetime == IsoDate(Midnight(2017, 3, 1)) + "Z" && o.value == Some(Scale(values[0].0, conversion))
  {
    var march := Midnight(2017, 3, 1);
    PaddedFebruary2017();
    var l := IterMonthDates(Midnight(2017, 2, 1));
    DayObservationSpec(cfg, conversion, values, march);
    var step := DayStep(cfg, conversion, values);
    CollectSpec(l.items, step);
    assert step(l.items[30]).Ok?;
    var o := DayObservation(cfg, conversion, values, march).value.value;
    ListedDateContributes(cfg, conversion, values, l, 30, o);
  }

  /** The same misdated record, seen through the whole-file parse as written: a file of one
      February 2017 line of the element, with a recorded day-1 value, gives a series holding a
      record dated 1 March 2017. */
  lemma MisdatedMarchFirstInFile(cfg: Config, element: string, fromDate: DateTime, line: string)
    requires element in cfg.conversions
    requires DlyMonth(line, element, fromDate) == Ok(Some(Midnight(2017, 2, 1)))
    requires Slots(line).Ok? && Recorded(Slots(line).value[0].0, cfg.conversions[element])
    requires ParseDlyAsWritten(cfg, element, fromDate, [line]).Ok?
    ensures exists o ::
      o in ParseDlyAsWritten(cfg, element, fromDate, [line]).value.data &&
      o.datetime == IsoDate(Midnight(2017, 3, 1)) + "Z" &&
      o.value == Some(Scale(Slots(line).value[0].0, cfg.conversions[element]))
  {
    var conversion := cfg.conversions[element];
    SlotsSpec(line);
    var values := Slots(line).value;
    var step := LineStep(cfg, element, fromDate, conversion, IterMonthDates);
    var month := MonthObservations(cfg, conversion, values, IterMonthDates(Midnight(2017, 2, 1)));
    assert step(line) == month;
    assert [line][..0] == [];
    ConcatStep([line], 0, step, []);
    assert [line][..1] == [line];
    assert month.Ok?;
    assert ParseDlyAsWritten(cfg, element, fromDate, [line]).value.data == month.value;
    MisdatedMarchFirst(cfg, conversion, values);
  }

  /** Read with only February's own days, no observation of a February 2017 line is dated
      1 March 2017. */
  lemma CorrectedFebruaryStaysInFebruary(cfg: Config, conversion: real, values: seq<(int, char)>)
    requires |values| == 31
    requires MonthObservations(cfg, conversion, values, CalendarMonth(Midnight(2017, 2, 1))).Ok?
    ensures forall o :: o in MonthObservations(cfg, conversion, values, CalendarMonth(Midnight(2017, 2, 1))).value ==>
      o.datetime != IsoDate(Midnight(2017, 3, 1)) + "Z"
  {
    CalendarMonthObservations(cfg, conversion, values, Midnight(2017, 2, 1));
    MonthDigit(2017, 3, 1);
    forall o | o in MonthObservations(cfg, conversion, values, CalendarMonth(Midnight(2017, 2, 1))).value
      ensures o.datetime != IsoDate(Midnight(2017, 3, 1)) + "Z"
    {
      var d :| 1 <= d <= 28 && DayObservation(cfg, conversion, values, Midnight(2017, 2, d)) == Ok(Some(o));
      DayObservationSpec(cfg, conversion, values, Midnight(2017, 2, d));
      MonthDigit(2017, 2, d);
      assert o.datetime[6] == '2';
    }
  }

  /** The seventh character of an ISO date in years 1000..9999 is the month's last digit. */
  lemma MonthDigit(y: int, m: int, d: int)
    requires 1000 <= y <= 9999 && 1 <= m <= 9 && 1 <= d <= 31
    ensures |IsoDate(Midnight(y, m, d))| >= 7 && IsoDate(Midnight(y, m, d))[6] == DigitChar(m)
  {
    PaddedWidth(y, 4);
    PadIntDigits(m, 2);
    PaddedWidth(m, 2);
    PaddedWidth(d, 2);
    assert IntToString(m) == [DigitChar(m)];
    assert PadInt(m, 2) == "0" + [DigitChar(m)];
  }

  /** Without a conversion for the element nothing is read; without any line there is no
      last line for the station name; otherwise the station is "NOAA_" + the first 11
      characters of the last line, whether or not that line was of the sought element. */
  lemma ParseDlyNames(cfg: Config, element: string, fromDate: DateTime, lines: seq<string>)
    ensures element !in cfg.conversions ==> ParseDlyOf(cfg, element, fromDate, lines) == Err(KeyError)
    ensures element in cfg.conversions && lines == [] ==> ParseDlyOf(cfg, element, fromDate, lines) == Err(NameError)
    ensures ParseDlyOf(cfg, element, fromDate, lines).Ok? ==>
      var r := ParseDlyOf(cfg, element, fromDate, lines).value;
      lines != [] && r.station == "NOAA_" + Slice(lines[|lines| - 1], 0, 11) && r.series == r.station + "#" + element
  {
  }

  /** Every observation returned comes from one line of the file. */
  lemma ParseDlyFromLines(cfg: Config, element: string, fromDate: DateTime, lines: seq<string>, o: Observation)
    requires ParseDlyOf(cfg, element, fromDate, lines).Ok?
    requires o in ParseDlyOf(cfg, element, fromDate, lines).value.data
    ensures element in cfg.conversions
    ensures exists i ::
      0 <= i < |lines| &&
      var r := LineObservations(cfg, element, fromDate, cfg.conversions[element], CalendarMonth, lines[i]);
      r.Ok? && o in r.value
  {
    var step := LineStep(cfg, element, fromDate, cfg.conversions[element], CalendarMonth);
    ConcatFrom(lines, step, o);
    var i :| 0 <= i < |lines| && step(lines[i]).Ok? && o in step(lines[i]).value;
    assert step(lines[i]) == LineObservations(cfg, element, fromDate, cfg.conversions[element], CalendarMonth, lines[i]);
  }

  /** The observations of a contributing line are those of its month, read from its slots. */
  lemma LineObservationsSpec(cfg: Config, element: string, fromDate: DateTime, conversion: real, line: string)
    ensures var r := LineObservations(cfg, element, fromDate, conversion, CalendarMonth, line);
      var month := DlyMonth(line, element, fromDate);
      (month.Err? ==> r == Err(month.error)) &&
      (month.Ok? && month.value.None? ==> r == Ok([])) &&
      (month.Ok? && month.value.Some? && Slots(line).Err? ==> r == Err(Slots(line).error)) &&
      (month.Ok? && month.value.Some? && Slots(line).Ok? ==>
         r == MonthObservations(cfg, conversion, Slots(line).value, CalendarMonth(month.value.value)))
  {
  }

  // ---------------------------------------------------------------------------
  // superghcnd_filelist and the run mode of main

  /** `'superghcnd_diff_{f}_to_{t}.tar.gz'`, both dates formatted `%Y%m%d`. */
  function DiffName(from: DateTime, to: DateTime): string
  {
    "superghcnd_diff_" + CompactDate(from) + "_to_" + CompactDate(to) + ".tar.gz"
  }

  /** `(later - earlier).days`: the elapsed time in whole days, rounded down. */
  function ElapsedDays(earlier: DateTime, later: DateTime): int
    requires 1 <= earlier.month <= 12 && 1 <= later.month <= 12
  {
    (Instant(later) - Instant(earlier)) / 86400
  }

  /** The file names for `y in range(elapsed + 1)`: the diff from `start + y days` to the
      day after. */
  function DiffNames(start: DateTime, now: DateTime): seq<string>
    requires Valid(start) && Valid(now)
  {
    var n := ElapsedDays(start, now) + 1;
    seq(if n > 0 then n else 0, y requires 0 <= y => DiffName(AddDays(start, y), AddDays(start, y + 1)))
  }

  function AvailableStep(available: seq<string>): string -> Result<string>
  {
    name => if name in available then Ok(name) else Err(FileNotFound(name))
  }

  /** The generator `superghcnd_filelist()`, with the FTP listing, the parsed
      `last_value_timestamp` and `datetime.now()` as parameters: the names, in order, up to
      the first one that is not on the server, which raises FileNotFoundError. */
  function SuperghcndFiles(available: seq<string>, start: DateTime, now: DateTime): Yielded<string>
    requires Valid(start) && Valid(now)
  {
    Until(DiffNames(start, now), AvailableStep(available))
  }

  /** Whole days between a midnight and a later time are the difference of their ordinals. */
  lemma ElapsedFromMidnight(start: DateTime, now: DateTime)
    requires Valid(start) && Valid(now) && TimeOfDay(start) == 0
    ensures ElapsedDays(start, now) == Ordinal(now) - Ordinal(start)
  {
    var q := Ordinal(now) - Ordinal(start);
    assert Instant(now) - Instant(start) == q * 86400 + TimeOfDay(now);
    FloorOfDays(q, TimeOfDay(now));
  }

  lemma FloorOfDays(q: int, r: int)
    requires 0 <= r < 86400
    ensures (q * 86400 + r) / 86400 == q
  {
  }

  /** From a midnight `start`, the names run over consecutive days: name k is the diff from
      the k-th day after `start` to the day after that, and the last one starts on the day of
      `now`; when `now` is before `start` there are none. */
  lemma DiffNamesCover(start: DateTime, now: DateTime)
    requires Valid(start) && Valid(now) && TimeOfDay(start) == 0
    ensures var names := DiffNames(start, now);
      |names| == (if Ordinal(now) >= Ordinal(start) then Ordinal(now) - Ordinal(start) + 1 else 0) &&
      (names != [] ==> Ordinal(AddDays(start, |names| - 1)) == Ordinal(now))
  {
    ElapsedFromMidnight(start, now);
    var names := DiffNames(start, now);
    if names != [] {
      OrdinalAddDays(start, |names| - 1);
    }
  }

  /** Name k is the diff of two consecutive days, k days after `start`. */
  lemma DiffNameAt(start: DateTime, now: DateTime, k: int)
    requires Valid(start) && Valid(now)
    requires 0 <= k < |DiffNames(start, now)|
    ensures var from, to := AddDays(start, k), AddDays(start, k + 1);
      DiffNames(start, now)[k] == DiffName(from, to) &&
      Ordinal(from) == Ordinal(start) + k && Ordinal(to) == Ordinal(from) + 1
  {
    OrdinalAddDays(start, k);
    OrdinalAddDays(start, k + 1);
  }

  /** Checking names against a listing yields the first names, all listed; it runs out
      exactly when every name is listed, and otherwise stops at the first missing one. */
  lemma AvailablePrefix(available: seq<string>, names: seq<string>)
    ensures var r := Until(names, AvailableStep(available));
      |r.items| <= |names| && r.items == names[..|r.items|] &&
      (forall k :: 0 <= k < |r.items| ==> r.items[k] in available) &&
      (r.stop.None? <==> forall k :: 0 <= k < |names| ==> names[k] in available) &&
      (r.stop.Some? ==>
         names[|r.items|] !in available && r.stop.value == FileNotFound(names[|r.items|]))
  {
    var step := AvailableStep(available);
    UntilSpec(names, step);
    var r := Until(names, step);
    forall k | 0 <= k < |r.items|
      ensures r.items[k] == names[k] && r.items[k] in available
    {
      assert step(names[k]) == Ok(r.items[k]);
    }
    if r.stop.None? {
      forall k | 0 <= k < |names|
        ensures names[k] in available
      {
        assert step(names[k]).Ok?;
      }
    } else {
      assert step(names[|r.items|]).Err?;
    }
  }

  /** The diff files come in day order, up to the first one missing from the server. */
  lemma SuperghcndFilesSpec(available: seq<string>, start: DateTime, now: DateTime)
    requires Valid(start) && Valid(now)
    ensures var names := DiffNames(start, now);
      var r := SuperghcndFiles(available, start, now);
      |r.items| <= |names| && r.items == names[..|r.items|] &&
      (forall k :: 0 <= k < |r.items| ==> r.items[k] in available) &&
      (r.stop.None? <==> |r.items| == |names|) &&
      (r.stop.Some? ==>
         |r.items| < |names| && names[|r.items|] !in available && r.stop.value == FileNotFound(names[|r.items|]))
  {
    AvailablePrefix(available, DiffNames(start, now));
    UntilSpec(DiffNames(start, now), AvailableStep(available));
  }

  /** What `main` does. */
  datatype Mode = Historical | Recent | Idle

  /** `main`'s choice: a (truthy) start year loads the history; otherwise recent data is
      fetched while the last stored value is less than 365 days old; otherwise nothing is done. */
  function ChooseMode(startYear: Value, lastValue: DateTime, now: DateTime): Mode
    requires Valid(lastValue) && Valid(now)
  {
    if Truthy(startYear) then Historical
    else if ElapsedDays(lastValue, now) < 365 then Recent
    else Idle
  }

  /** The choice by calendar days, and a recent run asks for at most 365 diff files. */
  lemma ChooseModeSpec(startYear: Value, lastValue: DateTime, now: DateTime)
    requires Valid(lastValue) && Valid(now) && TimeOfDay(lastValue) == 0
    ensures ChooseMode(startYear, lastValue, now) == Historical <==> Truthy(startYear)
    ensures ChooseMode(startYear, lastValue, now) == Recent <==>
      !Truthy(startYear) && Ordinal(now) - Ordinal(lastValue) < 365
    ensures ChooseMode(startYear, lastValue, now) == Recent ==> |DiffNames(lastValue, now)| <= 365
  {
    ElapsedFromMidnight(lastValue, now);
  }
}
