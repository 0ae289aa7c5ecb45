/** The Mekong River Commission table reader of `mrcmekong.py`: flattening the text of an
    HTML cell, the length of a month, reading a table column by column into one record per
    calendar day, the station tables and which pages are read for which station. The parsed
    HTML arrives as an `Element` tree, the XPath lookup of a cell as the parameter `cell`
    (row, column -> the first matching element, if any), and `float(text)` as `toFloat`. */
module Mekong {
  import opened Wrappers
  import opened PyText
  import opened Calendar

  // ---------------------------------------------------------------------------
  // walk_element_text

  /** An lxml element: its text, its children and its tail (the text after its end tag). */
  datatype Element = Element(text: Option<string>, children: seq<Element>, tail: Option<string>)

  const Blanks: set<char> := {' ', '\r', '\n', '\t'}

  /** `element.text.strip(' \r\n\t') if element.text else ''`. */
  function OwnText(e: Element): string
  {
    match e.text
    case Some(t) => if t != "" then Strip(t, Blanks) else ""
    case None => ""
  }

  /** The element's own stripped text followed by the flattened text of each child in turn. */
  function FlatText(e: Element): string
    decreases e, 1
  {
    OwnText(e) + ChildrenText(e.children)
  }

  function ChildrenText(cs: seq<Element>): string
    decreases cs, 0
  {
    if cs == [] then "" else ChildrenText(cs[..|cs| - 1]) + FlatText(cs[|cs| - 1])
  }

  /** `walk_element_text`: the element's own stripped text, then the loop over its children
      appending the walk of each. */
  method WalkElementText(e: Element) returns (text: string)
    ensures text == FlatText(e)
    decreases e, 1
  {
    text := OwnText(e);
    var rest := WalkChildren(e.children);
    text := text + rest;
  }

  /** The loop of `walk_element_text` over `element.getchildren()`. */
  method WalkChildren(cs: seq<Element>) returns (text: string)
    ensures text == ChildrenText(cs)
    decreases cs, 0
  {
    text := "";
    var i := 0;
    while i < |cs|
      invariant 0 <= i <= |cs|
      invariant text == ChildrenText(cs[..i])
    {
      var child := cs[i];
      var t := WalkElementText(child);
      ChildrenTextPrefix(cs, i);
      text := text + t;
      i := i + 1;
    }
    assert cs[..i] == cs;
  }

  lemma ChildrenTextPrefix(cs: seq<Element>, i: int)
    requires 0 <= i < |cs|
    ensures ChildrenText(cs[..i + 1]) == ChildrenText(cs[..i]) + FlatText(cs[i])
  {
    assert cs[..i + 1][..i] == cs[..i];
  }

  /** Appending a child appends its text: the children's texts come in document order. */
  lemma FlatTextAppendChild(t: Option<string>, cs: seq<Element>, c: Element, tail: Option<string>)
    ensures FlatText(Element(t, cs + [c], tail)) == FlatText(Element(t, cs, tail)) + FlatText(c)
  {
    assert (cs + [c])[..|cs|] == cs;
  }

  /** The element with every tail, its own and its descendants', removed. */
  function WithoutTails(e: Element): (r: Element)
    ensures |r.children| == |e.children|
    decreases e, 1
  {
    Element(e.text, ChildrenWithoutTails(e.children), None)
  }

  function ChildrenWithoutTails(cs: seq<Element>): (r: seq<Element>)
    ensures |r| == |cs|
    decreases cs, 0
  {
    if cs == [] then [] else ChildrenWithoutTails(cs[..|cs| - 1]) + [WithoutTails(cs[|cs| - 1])]
  }

  /** Tail text never reaches the flattened text. */
  lemma {:induction false} FlatTextIgnoresTails(e: Element)
    ensures FlatText(WithoutTails(e)) == FlatText(e)
    decreases e, 1
  {
    ChildrenTextIgnoresTails(e.children);
  }

  lemma {:induction false} ChildrenTextIgnoresTails(cs: seq<Element>)
    ensures ChildrenText(ChildrenWithoutTails(cs)) == ChildrenText(cs)
    decreases cs, 0
  {
    if cs != [] {
      var init := cs[..|cs| - 1];
      var r := ChildrenWithoutTails(cs);
      ChildrenTextIgnoresTails(init);
      FlatTextIgnoresTails(cs[|cs| - 1]);
      assert r[..|r| - 1] == ChildrenWithoutTails(init);
    }
  }

  /** The own text carries no blank at either end. */
  lemma OwnTextTrimmed(e: Element)
    ensures var s := OwnText(e); s == [] || (s[0] !in Blanks && s[|s| - 1] !in Blanks)
  {
    if e.text.Some? && e.text.value != "" {
      StripEnds(e.text.value, Blanks);
    }
  }

  // ---------------------------------------------------------------------------
  // days_in_month

  /** `days_in_month(date)`: the day before the first of the next month, found by building
      `datetime(year, month + 1, 1)` and, when that raises for December, `datetime(year + 1, 1, 1)`
      instead (which itself raises for year 9999). */
  function DaysInMonth(date: DateTime): Result<int>
    requires Valid(date)
  {
    var next :-
      match MakeDateTime(date.year, date.month + 1, 1, 0, 0, 0)
      case Ok(t) => Ok(t)
      case Err(_) => MakeDateTime(date.year + 1, 1, 1, 0, 0, 0);
    Ok(PrevDay(next).day)
  }

  /** The number of days of the date's month, December included; only December 9999 has no
      next month to step back from. */
  lemma DaysInMonthSpec(date: DateTime)
    requires Valid(date) && InRange(date.year)
    ensures date.year == MaxYear && date.month == 12 ==> DaysInMonth(date) == Err(ValueError)
    ensures !(date.year == MaxYear && date.month == 12) ==>
      DaysInMonth(date) == Ok(MonthLength(date.year, date.month))
  {
  }

  // ---------------------------------------------------------------------------
  // read_cols

  /** One record of `read_cols`: `{"datetime": .., "value": .., "flag": 0}`. */
  datatype Event = Event(datetime: DateTime, value: real, flag: int)

  /** The value of a cell: the float of its flattened text, or `missing` (the `null` argument) when the cell is absent
      or its text is not a number. */
  function CellValue(cell: (int, int) -> Option<Element>, toFloat: string -> Option<real>, missing: real,
                     row: int, col: int): real
  {
    var content := match cell(row, col) case Some(e) => FlatText(e) case None => "";
    match toFloat(content)
    case Some(x) => x
    case None => missing
  }

  /** The reader's configuration: cell lookup, number parsing and the missing value. */
  datatype Table = Table(cell: (int, int) -> Option<Element>, toFloat: string -> Option<real>, missing: real)

  /** `row - row_range[0] >= days_in_month(start_date - day)`: the row lies past the end of
      the month before the current date. */
  predicate Skipped(rowStart: int, row: int, date: DateTime)
    requires Valid(date)
  {
    var before := PrevDay(date);
    row - rowStart >= MonthLength(before.year, before.month)
  }

  /** The inner loop over the rows `row .. rowEnd - 1` of column `col`, starting at `date`: a
      row whose offset from `rowStart` reaches the length of the month of the day before the
      current date is skipped without advancing the date; every other row gives a record and
      moves the date on by a day. Returns the records and the date reached. The length of the
      month is the calendar's (see DaysInMonthSpec). */
  function ColumnFrom(t: Table, col: int, rowStart: int, row: int, rowEnd: int, date: DateTime)
    : (r: (seq<Event>, DateTime))
    requires Valid(date)
    ensures Valid(r.1)
    decreases rowEnd - row
  {
    if row >= rowEnd then ([], date)
    else if Skipped(rowStart, row, date) then
      ColumnFrom(t, col, rowStart, row + 1, rowEnd, date)
    else
      var rest := ColumnFrom(t, col, rowStart, row + 1, rowEnd, NextDay(date));
      ([Event(date, CellValue(t.cell, t.toFloat, t.missing, row, col), 0)] + rest.0, rest.1)
  }

  /** The outer loop over the columns `col .. colEnd - 1`, each running over all the rows. */
  function ColumnsFrom(t: Table, col: int, colEnd: int, rowStart: int, rowEnd: int, date: DateTime)
    : (r: (seq<Event>, DateTime))
    requires Valid(date)
    ensures Valid(r.1)
    decreases colEnd - col
  {
    if col >= colEnd then ([], date)
    else
      var c := ColumnFrom(t, col, rowStart, rowStart, rowEnd, date);
      var rest := ColumnsFrom(t, col + 1, colEnd, rowStart, rowEnd, c.1);
      (c.0 + rest.0, rest.1)
  }

  /** What `list(read_cols(tree, xpath, table, row_range, col_range, start_date, null))` gives. */
  function ReadColsOf(t: Table, rowRange: (int, int), colRange: (int, int), start: DateTime): seq<Event>
    requires Valid(start)
  {
    ColumnsFrom(t, colRange.0, colRange.1, rowRange.0, rowRange.1, start).0
  }

  /** `read_cols`: nested loops, columns outside (here) and rows inside (ReadColumn),
      advancing `start_date`. */
  method ReadCols(t: Table, rowRange: (int, int), colRange: (int, int), start: DateTime)
    returns (events: seq<Event>)
    requires Valid(start)
    ensures events == ReadColsOf(t, rowRange, colRange, start)
  {
    var date := start;
    events := [];
    var col := colRange.0;
    while col < colRange.1
      invariant Valid(date)
      invariant events + ColumnsFrom(t, col, colRange.1, rowRange.0, rowRange.1, date).0 ==
        ReadColsOf(t, rowRange, colRange, start)
      decreases colRange.1 - col
    {
      var column, next := ReadColumn(t, col, rowRange.0, rowRange.1, date);
      ColumnsFromStep(t, col, colRange.1, rowRange.0, rowRange.1, date, events,
                      ReadColsOf(t, rowRange, colRange, start));
      events := events + column;
      date := next;
      col := col + 1;
    }
    assert ColumnsFrom(t, col, colRange.1, rowRange.0, rowRange.1, date).0 == [];
    assert events + [] == events;
  }

  /** The inner loop of `read_cols` over the rows of one column. */
  method ReadColumn(t: Table, col: int, rowStart: int, rowEnd: int, start: DateTime)
    returns (column: seq<Event>, date: DateTime)
    requires Valid(start)
    ensures Valid(date)
    ensures (column, date) == ColumnFrom(t, col, rowStart, rowStart, rowEnd, start)
  {
    date := start;
    column := [];
    ghost var c := ColumnFrom(t, col, rowStart, rowStart, rowEnd, start);
    var row := rowStart;
    while row < rowEnd
      invariant Valid(date)
      invariant column + ColumnFrom(t, col, rowStart, row, rowEnd, date).0 == c.0
      invariant ColumnFrom(t, col, rowStart, row, rowEnd, date).1 == c.1
      decreases rowEnd - row
    {
      ColumnRowStep(t, col, rowStart, row, rowEnd, date, column, c);
      if !Skipped(rowStart, row, date) {
        column := column + [Event(date, CellValue(t.cell, t.toFloat, t.missing, row, col), 0)];
        date := NextDay(date);
      }
      row := row + 1;
    }
    assert ColumnFrom(t, col, rowStart, row, rowEnd, date) == ([], date);
    assert column + [] == column;
  }

  /** The outer loop's invariant carried over one column: its run, then the remaining columns
      from the date reached. */
  lemma ColumnsFromStep(t: Table, col: int, colEnd: int, rowStart: int, rowEnd: int, date: DateTime,
                        events: seq<Event>, total: seq<Event>)
    requires Valid(date) && col < colEnd
    requires events + ColumnsFrom(t, col, colEnd, rowStart, rowEnd, date).0 == total
    ensures var c := ColumnFrom(t, col, rowStart, rowStart, rowEnd, date);
      (events + c.0) + ColumnsFrom(t, col + 1, colEnd, rowStart, rowEnd, c.1).0 == total
  {
    var c := ColumnFrom(t, col, rowStart, rowStart, rowEnd, date);
    var rest := ColumnsFrom(t, col + 1, colEnd, rowStart, rowEnd, c.1).0;
    assert events + (c.0 + rest) == (events + c.0) + rest;
  }

  /** The inner loop's invariant carried over one row, skipped or recorded. */
  lemma ColumnRowStep(t: Table, col: int, rowStart: int, row: int, rowEnd: int, date: DateTime,
                      column: seq<Event>, c: (seq<Event>, DateTime))
    requires Valid(date) && row < rowEnd
    requires column + ColumnFrom(t, col, rowStart, row, rowEnd, date).0 == c.0
    requires ColumnFrom(t, col, rowStart, row, rowEnd, date).1 == c.1
    ensures Skipped(rowStart, row, date) ==>
      column + ColumnFrom(t, col, rowStart, row + 1, rowEnd, date).0 == c.0 &&
      ColumnFrom(t, col, rowStart, row + 1, rowEnd, date).1 == c.1
    ensures !Skipped(rowStart, row, date) ==>
      var event := Event(date, CellValue(t.cell, t.toFloat, t.missing, row, col), 0);
      (column + [event]) + ColumnFrom(t, col, rowStart, row + 1, rowEnd, NextDay(date)).0 == c.0 &&
      ColumnFrom(t, col, rowStart, row + 1, rowEnd, NextDay(date)).1 == c.1
  {
    ColumnFromRow(t, col, rowStart, row, rowEnd, date);
    if !Skipped(rowStart, row, date) {
      var event := Event(date, CellValue(t.cell, t.toFloat, t.missing, row, col), 0);
      var rest := ColumnFrom(t, col, rowStart, row + 1, rowEnd, NextDay(date));
      assert column + ([event] + rest.0) == (column + [event]) + rest.0;
    }
  }

  /** One row of the inner loop: skipped, or one record and a day further. */
  lemma ColumnFromRow(t: Table, col: int, rowStart: int, row: int, rowEnd: int, date: DateTime)
    requires Valid(date) && row < rowEnd
    ensures Skipped(rowStart, row, date) ==>
      ColumnFrom(t, col, rowStart, row, rowEnd, date) == ColumnFrom(t, col, rowStart, row + 1, rowEnd, date)
    ensures !Skipped(rowStart, row, date) ==>
      var rest := ColumnFrom(t, col, rowStart, row + 1, rowEnd, NextDay(date));
      ColumnFrom(t, col, rowStart, row, rowEnd, date) ==
        ([Event(date, CellValue(t.cell, t.toFloat, t.missing, row, col), 0)] + rest.0, rest.1)
  {
  }

  /** Record k of a column run is dated k days after the run's start, with flag 0, and the
      run ends on the day after its last record: the date advances exactly once per record. */
  lemma {:induction false} ColumnFromDated(t: Table, col: int, rowStart: int, row: int, rowEnd: int,
                                           date: DateTime)
    requires Valid(date)
    ensures var r := ColumnFrom(t, col, rowStart, row, rowEnd, date);
      |r.0| <= if row < rowEnd then rowEnd - row else 0
    ensures var r := ColumnFrom(t, col, rowStart, row, rowEnd, date);
      r.1 == AddDays(date, |r.0|)
    ensures var r := ColumnFrom(t, col, rowStart, row, rowEnd, date);
      forall k :: 0 <= k < |r.0| ==> r.0[k].datetime == AddDays(date, k) && r.0[k].flag == 0
    decreases rowEnd - row
  {
    if row < rowEnd {
      if Skipped(rowStart, row, date) {
        ColumnFromDated(t, col, rowStart, row + 1, rowEnd, date);
      } else {
        var rest := ColumnFrom(t, col, rowStart, row + 1, rowEnd, NextDay(date));
        ColumnFromDated(t, col, rowStart, row + 1, rowEnd, NextDay(date));
        var r := ColumnFrom(t, col, rowStart, row, rowEnd, date);
        assert r.0 == [r.0[0]] + rest.0;
        forall k | 0 <= k < |r.0|
          ensures r.0[k].datetime == AddDays(date, k) && r.0[k].flag == 0
        {
          if k > 0 {
            assert r.0[k] == rest.0[k - 1];
          }
        }
      }
    }
  }

  /** The same across the columns: the records of `read_cols` fall on consecutive days from
      `start_date`, one per day, all with flag 0. */
  lemma {:induction false} ColumnsFromDated(t: Table, col: int, colEnd: int, rowStart: int, rowEnd: int,
                                            date: DateTime)
    requires Valid(date)
    ensures var r := ColumnsFrom(t, col, colEnd, rowStart, rowEnd, date);
      r.1 == AddDays(date, |r.0|)
    ensures var r := ColumnsFrom(t, col, colEnd, rowStart, rowEnd, date);
      forall k :: 0 <= k < |r.0| ==> r.0[k].datetime == AddDays(date, k) && r.0[k].flag == 0
    decreases colEnd - col
  {
    if col < colEnd {
      var c := ColumnFrom(t, col, rowStart, rowStart, rowEnd, date);
      var rest := ColumnsFrom(t, col + 1, colEnd, rowStart, rowEnd, c.1);
      ColumnFromDated(t, col, rowStart, rowStart, rowEnd, date);
      ColumnsFromDated(t, col + 1, colEnd, rowStart, rowEnd, c.1);
      var r := ColumnsFrom(t, col, colEnd, rowStart, rowEnd, date);
      AddDaysAdd(date, |c.0|, |rest.0|);
      forall k | 0 <= k < |r.0|
        ensures r.0[k].datetime == AddDays(date, k) && r.0[k].flag == 0
      {
        if k >= |c.0| {
          assert r.0[k] == rest.0[k - |c.0|];
          AddDaysAdd(date, |c.0|, k - |c.0|);
        } else {
          assert r.0[k] == c.0[k];
        }
      }
    }
  }

  lemma {:induction false} AddDaysAdd(t: DateTime, m: nat, n: nat)
    requires Valid(t)
    ensures AddDays(AddDays(t, m), n) == AddDays(t, m + n)
    decreases m
  {
    if m > 0 {
      AddDaysAdd(NextDay(t), m - 1, n);
    }
  }

  /** `read_cols` dates its k-th record `start_date + k days`, with flag 0. */
  lemma ReadColsDated(t: Table, rowRange: (int, int), colRange: (int, int), start: DateTime, k: int)
    requires Valid(start)
    requires 0 <= k < |ReadColsOf(t, rowRange, colRange, start)|
    ensures ReadColsOf(t, rowRange, colRange, start)[k].datetime == AddDays(start, k)
    ensures ReadColsOf(t, rowRange, colRange, start)[k].flag == 0
  {
    ColumnsFromDated(t, colRange.0, colRange.1, rowRange.0, rowRange.1, start);
  }

  // -- one column per month

  /** The first day of the month after the date's. */
  function NextMonthStart(date: DateTime): (r: DateTime)
    requires Valid(date)
    ensures Valid(r) && r.day == 1
  {
    if date.month < 12 then date.(month := date.month + 1, day := 1)
    else date.(year := date.year + 1, month := 1, day := 1)
  }

  /** Once a row lies past the month before the current date, so do all later rows. */
  lemma {:induction false} SkipsToEnd(t: Table, col: int, rowStart: int, row: int, rowEnd: int, date: DateTime)
    requires Valid(date) && Skipped(rowStart, row, date)
    ensures ColumnFrom(t, col, rowStart, row, rowEnd, date) == ([], date)
    decreases rowEnd - row
  {
    if row < rowEnd {
      SkipsToEnd(t, col, rowStart, row + 1, rowEnd, date);
    }
  }

  /** Record i carries the value of row `row + i`. */
  predicate ValuesFrom(events: seq<Event>, t: Table, col: int, row: int)
  {
    forall i :: 0 <= i < |events| ==> events[i].value == CellValue(t.cell, t.toFloat, t.missing, row + i, col)
  }

  lemma ValuesCons(events: seq<Event>, t: Table, col: int, row: int)
    requires events != [] && events[0].value == CellValue(t.cell, t.toFloat, t.missing, row, col)
    requires ValuesFrom(events[1..], t, col, row + 1)
    ensures ValuesFrom(events, t, col, row)
  {
    forall i | 0 <= i < |events|
      ensures events[i].value == CellValue(t.cell, t.toFloat, t.missing, row + i, col)
    {
      if i > 0 {
        assert events[i] == events[1..][i - 1];
      }
    }
  }

  /** From day d >= 2 at row offset d - 1, the rest of the month comes out one row per day. */
  lemma {:induction false} MonthRest(t: Table, col: int, rowStart: int, rowEnd: int, date: DateTime)
    requires Valid(date) && date.day >= 2
    requires rowEnd - rowStart >= MonthLength(date.year, date.month)
    ensures var r := ColumnFrom(t, col, rowStart, rowStart + date.day - 1, rowEnd, date);
      |r.0| == MonthLength(date.year, date.month) - date.day + 1 && r.1 == NextMonthStart(date) &&
      ValuesFrom(r.0, t, col, rowStart + date.day - 1)
    decreases MonthLength(date.year, date.month) - date.day
  {
    var n := MonthLength(date.year, date.month);
    var row := rowStart + date.day - 1;
    var before := PrevDay(date);
    assert before.year == date.year && before.month == date.month;
    assert !Skipped(rowStart, row, date);
    var next := NextDay(date);
    var rest := ColumnFrom(t, col, rowStart, row + 1, rowEnd, next);
    var r := ColumnFrom(t, col, rowStart, row, rowEnd, date);
    var v := CellValue(t.cell, t.toFloat, t.missing, row, col);
    assert r.0 == [Event(date, v, 0)] + rest.0 && r.1 == rest.1;
    if date.day < n {
      assert next.year == date.year && next.month == date.month && next.day == date.day + 1;
      assert NextMonthStart(next) == NextMonthStart(date);
      MonthRest(t, col, rowStart, rowEnd, next);
    } else {
      assert next == NextMonthStart(date);
      var last := PrevDay(next);
      assert last.year == date.year && last.month == date.month;
      assert Skipped(rowStart, row + 1, next);
      SkipsToEnd(t, col, rowStart, row + 1, rowEnd, next);
    }
    assert r.0[1..] == rest.0;
    ValuesCons(r.0, t, col, row);
  }

  /** A column started on the 1st of a month, with at least as many rows as the month has
      days, reads one record per day of that month, row k for day k + 1, and leaves the date
      on the 1st of the next month. */
  lemma MonthColumn(t: Table, col: int, rowStart: int, rowEnd: int, date: DateTime)
    requires Valid(date) && date.day == 1
    requires rowEnd - rowStart >= MonthLength(date.year, date.month)
    ensures var r := ColumnFrom(t, col, rowStart, rowStart, rowEnd, date);
      |r.0| == MonthLength(date.year, date.month) && r.1 == NextMonthStart(date) &&
      ValuesFrom(r.0, t, col, rowStart)
  {
    assert !Skipped(rowStart, rowStart, date);
    var next := NextDay(date);
    assert next.year == date.year && next.month == date.month && next.day == 2;
    assert NextMonthStart(next) == NextMonthStart(date);
    var rest := ColumnFrom(t, col, rowStart, rowStart + 1, rowEnd, next);
    var r := ColumnFrom(t, col, rowStart, rowStart, rowEnd, date);
    var v := CellValue(t.cell, t.toFloat, t.missing, rowStart, col);
    assert r.0 == [Event(date, v, 0)] + rest.0 && r.1 == rest.1;
    MonthRest(t, col, rowStart, rowEnd, next);
    assert r.0[1..] == rest.0;
    ValuesCons(r.0, t, col, rowStart);
  }

  /** The number of days in the n months starting with the date's month. */
  function MonthsLength(date: DateTime, n: nat): int
    requires Valid(date)
    decreases n
  {
    if n == 0 then 0 else MonthLength(date.year, date.month) + MonthsLength(NextMonthStart(date), n - 1)
  }

  /** The month `n` months after the date's, on its 1st. */
  function MonthsLater(date: DateTime, n: nat): (r: DateTime)
    requires Valid(date)
    ensures Valid(r)
    decreases n
  {
    if n == 0 then date else MonthsLater(NextMonthStart(date), n - 1)
  }

  /** Started on the 1st of a month with at least 31 rows, `read_cols` reads one month per
      column: as many records as those months have days, ending on the 1st after them. */
  lemma {:induction false} MonthColumns(t: Table, col: int, colEnd: int, rowStart: int, rowEnd: int,
                                        date: DateTime)
    requires Valid(date) && date.day == 1 && rowEnd - rowStart >= 31 && col <= colEnd
    ensures var r := ColumnsFrom(t, col, colEnd, rowStart, rowEnd, date);
      |r.0| == MonthsLength(date, colEnd - col) && r.1 == MonthsLater(date, colEnd - col)
    decreases colEnd - col
  {
    if col < colEnd {
      MonthColumn(t, col, rowStart, rowEnd, date);
      MonthColumns(t, col + 1, colEnd, rowStart, rowEnd, NextMonthStart(date));
    }
  }

  lemma FloodMonths(year: int)
    ensures MonthsLength(Midnight(year, 6, 1), 5) == 153
  {
    assert MonthsLength(Midnight(year, 10, 1), 1) == 31;
    assert MonthsLength(Midnight(year, 9, 1), 2) == 61;
    assert MonthsLength(Midnight(year, 8, 1), 3) == 92;
    assert MonthsLength(Midnight(year, 7, 1), 4) == 123;
  }

  lemma DryMonths(year: int)
    ensures MonthsLength(Midnight(year, 11, 1), 7) == if IsLeap(year + 1) then 213 else 212
  {
    var y := year + 1;
    assert MonthsLength(Midnight(y, 5, 1), 1) == 31;
    assert MonthsLength(Midnight(y, 4, 1), 2) == 61;
    assert MonthsLength(Midnight(y, 3, 1), 3) == 92;
    assert MonthsLength(Midnight(y, 2, 1), 4) == 92 + MonthLength(y, 2);
    assert MonthsLength(Midnight(y, 1, 1), 5) == 123 + MonthLength(y, 2);
    assert MonthsLength(Midnight(year, 12, 1), 6) == 154 + MonthLength(y, 2);
  }

  /** A flood-season page, read from the 1st of June over five columns of (at least) 31 rows
      (the source's rows 3..33 and columns 2..6): June to October, 153 days. */
  lemma FloodPageLength(t: Table, rows: (int, int), cols: (int, int), year: int)
    requires rows.1 - rows.0 >= 31 && cols.1 - cols.0 == 5
    ensures |ReadColsOf(t, rows, cols, Midnight(year, 6, 1))| == 153
  {
    MonthColumns(t, cols.0, cols.1, rows.0, rows.1, Midnight(year, 6, 1));
    FloodMonths(year);
  }

  /** A dry-season page, read from the 1st of November over seven columns (the source's
      columns 2..8): November to May, 212 days, or 213 when the February is a leap one. */
  lemma DryPageLength(t: Table, rows: (int, int), cols: (int, int), year: int)
    requires rows.1 - rows.0 >= 31 && cols.1 - cols.0 == 7
    ensures |ReadColsOf(t, rows, cols, Midnight(year, 11, 1))| == if IsLeap(year + 1) then 213 else 212
  {
    MonthColumns(t, cols.0, cols.1, rows.0, rows.1, Midnight(year, 11, 1));
    DryMonths(year);
  }

  // ---------------------------------------------------------------------------
  // the station tables and what create_timeseries_pixml reads for each station

  /** An entry of `stations`: the code of the station's pages on the MRC site, if it has any,
      and its station code there, if it has one. */
  datatype Codes = Codes(page: Option<string>, code: Option<string>)

  /** The `stations` table, in its (insertion) order. */
  function Stations(): seq<(string, Codes)>
  {
    [
      ("Bassac Chaktomouk", Codes(Some("ppb"), Some("PPB"))),
      ("Can Tho", Codes(None, Some("CAN"))),
      ("Chau Doc", Codes(Some("cdo"), Some("CDO"))),
      ("Chiang Khan", Codes(Some("ckh"), Some("CKH"))),
      ("Chiang Saen", Codes(Some("csa"), Some("CSA"))),
      ("Jinghong", Codes(None, Some("JIN"))),
      ("Khong Chiam", Codes(None, Some("KHO"))),
      ("Koh Khel", Codes(Some("koh"), None)),
      ("Kompong Cham", Codes(Some("kom"), None)),
      ("Kampong Luong", Codes(None, Some("KPL"))),
      ("Kratie", Codes(Some("kra"), Some("KRA"))),
      ("Luang Prabang", Codes(Some("lua"), Some("LUA"))),
      ("Manan", Codes(None, Some("MAN"))),
      ("Mukdahan", Codes(Some("muk"), Some("MUK"))),
      ("Nakhon Phanom", Codes(Some("nak"), Some("NAK"))),
      ("Neak Luong", Codes(Some("nea"), None)),
      ("Nong Khai", Codes(Some("non"), Some("NON"))),
      ("Paksane", Codes(Some("pak"), None)),
      ("Pakse", Codes(Some("pks"), Some("PKS"))),
      ("Phnom Penh Port", Codes(Some("ppp"), None)),
      ("Prek Kdam", Codes(Some("pre"), Some("PRE"))),
      ("Savanakhet", Codes(Some("sav"), None)),
      ("Stung Treng", Codes(Some("str"), Some("STR"))),
      ("Tan Chau", Codes(Some("tch"), Some("TCH"))),
      ("Thakhek", Codes(Some("tha"), None)),
      ("Vam Nao", Codes(None, Some("VAM"))),
      ("Vien Tiane", Codes(Some("vie"), Some("VTE")))
    ]
  }

  /** A dict literal's keys, in order. */
  function Keys<V>(entries: seq<(string, V)>): (r: seq<string>)
    ensures |r| == |entries|
    ensures forall i :: 0 <= i < |entries| ==> r[i] == entries[i].0
  {
    seq(|entries|, i requires 0 <= i < |entries| => entries[i].0)
  }

  /** The first component (the location name) of the `station_locations` entries of the
      stations above; the other entries, and the coordinates, are not part of this model. */
  function Locations(): map<string, string>
  {
    map[
      "Bassac Chaktomouk" := "Bassac_Chaktomouk",
      "Can Tho" := "Can_Tho",
      "Chau Doc" := "Chau_Doc",
      "Chiang Khan" := "Chiang_Khan",
      "Chiang Saen" := "Chiang_Saen",
      "Jinghong" := "Jinghong",
      "Khong Chiam" := "Khong_Chiam",
      "Koh Khel" := "Koh_Khel",
      "Kompong Cham" := "Kompong_Cham",
      "Kampong Luong" := "Kampong_Luong",
      "Kratie" := "Kratie",
      "Luang Prabang" := "Luang_Prabang",
      "Manan" := "Manan",
      "Mukdahan" := "Mukdahan",
      "Nakhon Phanom" := "Nakhon_Phanom",
      "Neak Luong" := "Neak_Luong",
      "Nong Khai" := "Nong_Khai",
      "Paksane" := "Paksane",
      "Pakse" := "Pakse",
      "Phnom Penh Port" := "Phnom_Penh_Port",
      "Prek Kdam" := "Prek_Kdam",
      "Savanakhet" := "Savanakhet",
      "Stung Treng" := "Stung_Treng",
      "Tan Chau" := "Tan_Chau",
      "Thakhek" := "Thakhek",
      "Vam Nao" := "Vam_Nao",
      "Vien Tiane" := "Vien_Tiane"
    ]
  }

  const MissingDry: seq<string> := ["Thakhek", "Savanakhet", "Phnom Penh Port"]

  /** `{k: station_locations[k][0] for k in stations.keys()}`: a KeyError for a station without
      a location. */
  function StationNamesOf(keys: seq<string>, locations: map<string, string>): Result<seq<(string, string)>>
    decreases |keys|
  {
    if keys == [] then Ok([])
    else
      var before :- StationNamesOf(keys[..|keys| - 1], locations);
      var location :- Get(locations, keys[|keys| - 1]);
      Ok(before + [(keys[|keys| - 1], location)])
  }

  /** The comprehension succeeds exactly when every key has a location, and then pairs each
      key, in order, with its location name. */
  lemma {:induction false} StationNamesOfSpec(keys: seq<string>, locations: map<string, string>)
    ensures var r := StationNamesOf(keys, locations);
      (r.Ok? <==> forall i :: 0 <= i < |keys| ==> keys[i] in locations) &&
      (r.Err? ==> r.error == KeyError) &&
      (r.Ok? ==>
        |r.value| == |keys| && forall i :: 0 <= i < |keys| ==> r.value[i] == (keys[i], locations[keys[i]]))
    decreases |keys|
  {
    if keys != [] {
      var init := keys[..|keys| - 1];
      StationNamesOfSpec(init, locations);
      assert forall i :: 0 <= i < |init| ==> init[i] == keys[i];
    }
  }

  /** `station_names`. */
  function StationNames(): Result<seq<(string, string)>>
  {
    StationNamesOf(Keys(Stations()), Locations())
  }

  /** Every station has a location, so `station_names` is built without a KeyError and has
      an entry for each of the 27 stations. */
  lemma StationNamesTable()
    ensures StationNames().Ok? && |StationNames().value| == 27
  {
    var keys := Keys(Stations());
    assert forall i :: 0 <= i < |keys| ==> keys[i] in Locations();
    StationNamesOfSpec(keys, Locations());
  }

  /** A page of the MRC site: a flood season's page (June to October of a year) or a dry
      season's page (November to May, named by its two years). */
  datatype Page = Flood(station: string, year: int) | Dry(station: string, season: string)

  const DrySeasons: seq<string> := ["2013_2014", "2014_2015", "2015_2016"]

  /** The flood pages of 2008 to 2015. */
  function FloodPages(station: string): (r: seq<Page>)
    ensures |r| == 8
    ensures forall i :: 0 <= i < 8 ==> r[i] == Flood(station, 2008 + i)
  {
    seq(8, i requires 0 <= i < 8 => Flood(station, 2008 + i))
  }

  /** The dry pages of the given seasons. */
  function DryPages(station: string, seasons: seq<string>): (r: seq<Page>)
    ensures |r| == |seasons|
    ensures forall i :: 0 <= i < |seasons| ==> r[i] == Dry(station, seasons[i])
  {
    seq(|seasons|, i requires 0 <= i < |seasons| => Dry(station, seasons[i]))
  }

  /** The pages read for a station: every flood page, then the dry pages unless the station
      is one of those without dry-season pages. */
  function StationPages(name: string, page: string): seq<Page>
  {
    StationPagesWith(name, page, DrySeasons)
  }

  function StationPagesWith(name: string, page: string, seasons: seq<string>): seq<Page>
  {
    FloodPages(page) + if name in MissingDry then [] else DryPages(page, seasons)
  }

  /** What is read for one station: the series code, the station name shown, the pages. */
  datatype StationPlan = StationPlan(code: string, name: string, pages: seq<Page>)

  /** One round of the station loop: nothing for a station without pages, otherwise the
      series `G4AW_MEKONG_` + location name, named `G4AW_MEKONG ` + station name. */
  function StationStep(entry: (string, Codes), location: string): Option<StationPlan>
  {
    match entry.1.page
    case None => None
    case Some(page) => Some(StationPlan("G4AW_MEKONG_" + location, "G4AW_MEKONG " + entry.0,
                                        StationPages(entry.0, page)))
  }

  /** The loop over `station_names.items()`. Its keys are those of `stations`, in order, so
      `stations[station_name]` is the entry at the same position. */
  function PlansOf(entries: seq<(string, Codes)>, names: seq<(string, string)>): (r: seq<StationPlan>)
    requires |names| == |entries|
    ensures |r| <= |entries|
    decreases |entries|
  {
    if entries == [] then []
    else
      var n := |entries| - 1;
      PlansOf(entries[..n], names[..n]) +
        match StationStep(entries[n], names[n].1) case Some(p) => [p] case None => []
  }

  /** The stations read, in order: exactly those with a page code. */
  lemma {:induction false} PlansOfSpec(entries: seq<(string, Codes)>, names: seq<(string, string)>)
    requires |names| == |entries|
    ensures |PlansOf(entries, names)| == |PagedIndices(entries)|
    ensures forall j :: 0 <= j < |PagedIndices(entries)| ==>
      var i := PagedIndices(entries)[j];
      0 <= i < |entries| && StationStep(entries[i], names[i].1) == Some(PlansOf(entries, names)[j])
    decreases |entries|
  {
    if entries != [] {
      var n := |entries| - 1;
      PlansOfSpec(entries[..n], names[..n]);
      PagedIndicesPrefix(entries);
    }
  }

  /** The positions of the entries with a page code, in order. */
  function PagedIndices(entries: seq<(string, Codes)>): (r: seq<int>)
    decreases |entries|
  {
    if entries == [] then []
    else
      var n := |entries| - 1;
      PagedIndices(entries[..n]) + if entries[n].1.page.Some? then [n] else []
  }

  lemma {:induction false} PagedIndicesPrefix(entries: seq<(string, Codes)>)
    ensures forall j :: 0 <= j < |PagedIndices(entries)| ==> 0 <= PagedIndices(entries)[j] < |entries|
    ensures forall j :: 0 <= j < |PagedIndices(entries)| ==> entries[PagedIndices(entries)[j]].1.page.Some?
    decreases |entries|
  {
    if entries != [] {
      var n := |entries| - 1;
      PagedIndicesPrefix(entries[..n]);
    }
  }

  /** `create_timeseries_pixml`'s plan: a KeyError from `station_names`, or the stations read. */
  function Plans(): Result<seq<StationPlan>>
  {
    var names :- StationNames();
    StationNamesOfSpec(Keys(Stations()), Locations());
    Ok(PlansOf(Stations(), names))
  }

  /** Eight flood pages for every station read, and three dry pages for each one not in
      `missing_dry`. */
  lemma StationPagesCount(name: string, page: string)
    ensures |StationPages(name, page)| == if name in MissingDry then 8 else 11
    ensures forall i :: 0 <= i < 8 ==> StationPages(name, page)[i] == Flood(page, 2008 + i)
    ensures name !in MissingDry ==>
      forall i :: 0 <= i < 3 ==> StationPages(name, page)[8 + i] == Dry(page, DrySeasons[i])
  {
  }

  /** Seasons that start on the 1st of November 2013, 2014 and 2015. */
  predicate SeasonsFrom2013(seasons: seq<string>)
  {
    |seasons| == 3 &&
    forall i :: 0 <= i < 3 ==> DrySeasonStart(seasons[i]) == Ok(Midnight(2013 + i, 11, 1))
  }

  /** `datetime(year=int(years.split('_')[0]), month=11, day=1)`. */
  function DrySeasonStart(season: string): Result<DateTime>
  {
    var year :- ToInt(FirstPiece(season, '_'));
    MakeDateTime(year, 11, 1, 0, 0, 0)
  }

  /** A season named `{y}_{y+1}` starts on the 1st of November of y. */
  lemma SeasonStart(y: int)
    requires InRange(y)
    ensures DrySeasonStart(IntToString(y) + "_" + IntToString(y + 1)) == Ok(Midnight(y, 11, 1))
  {
    var first := IntToString(y);
    NatToStringDigits(y);
    assert '_' !in first by {
      forall i | 0 <= i < |first| ensures first[i] != '_' {
        assert IsDigit(first[i]);
      }
    }
    assert first + "_" + IntToString(y + 1) == first + ['_'] + IntToString(y + 1);
    SplitPieceThenSeparator(first, '_', IntToString(y + 1));
    ParseIntOfIntToString(y);
  }

  /** `str(n)` of a four-digit number. */
  lemma FourDigits(n: int)
    requires 1000 <= n <= 9999
    ensures IntToString(n) ==
      [DigitChar(n / 1000), DigitChar(n / 100 % 10), DigitChar(n / 10 % 10), DigitChar(n % 10)]
  {
    var a, b, c := n / 10, n / 100, n / 1000;
    assert a / 10 == b && b / 10 == c;
    assert 100 <= a && 10 <= b && 1 <= c < 10;
    assert NatToString(c) == [DigitChar(c)];
    assert NatToString(b) == NatToString(c) + [DigitChar(b % 10)];
    assert NatToString(a) == NatToString(b) + [DigitChar(a % 10)];
    assert NatToString(n) == NatToString(a) + [DigitChar(n % 10)];
  }

  /** The dry seasons are named `{y}_{y+1}` for y = 2013, 2014, 2015. */
  lemma DrySeasonName(i: int)
    requires 0 <= i < 3
    ensures DrySeasons[i] == IntToString(2013 + i) + "_" + IntToString(2014 + i)
  {
    FourDigits(2013 + i);
    FourDigits(2014 + i);
    assert DigitChar(0) == '0' && DigitChar(1) == '1' && DigitChar(2) == '2';
    assert DigitChar(3) == '3' && DigitChar(4) == '4' && DigitChar(5) == '5' && DigitChar(6) == '6';
  }

  lemma DrySeasonStartsFrom2013()
    ensures SeasonsFrom2013(DrySeasons)
  {
    forall i | 0 <= i < 3
      ensures DrySeasonStart(DrySeasons[i]) == Ok(Midnight(2013 + i, 11, 1))
    {
      DrySeasonStarts(i);
    }
  }

  /** The three dry seasons start on the 1st of November 2013, 2014 and 2015. */
  lemma DrySeasonStarts(i: int)
    requires 0 <= i < 3
    ensures DrySeasonStart(DrySeasons[i]) == Ok(Midnight(2013 + i, 11, 1))
  {
    DrySeasonName(i);
    SeasonStart(2013 + i);
  }

  // -- the series of one station

  /** Where the daily values sit on a page: the rows of a month's days, and the month columns
      of a flood page and of a dry page. */
  datatype Layout = Layout(rows: (int, int), floodCols: (int, int), dryCols: (int, int))

  /** `row_range=(3, 34)`, `col_range=(2, 7)` and `col_range=(2, 9)`. */
  const PageLayout := Layout((3, 34), (2, 7), (2, 9))

  /** A layout with room for 31 days, five flood months and seven dry months. */
  predicate MonthsLayout(layout: Layout)
  {
    layout.rows.1 - layout.rows.0 >= 31 &&
    layout.floodCols.1 - layout.floodCols.0 == 5 && layout.dryCols.1 - layout.dryCols.0 == 7
  }

  lemma PageLayoutShape()
    ensures MonthsLayout(PageLayout)
  {
  }

  /** `read_cols`' default `null`. */
  const Missing: real := -999.0

  /** The download and parse of a page, and the cell lookup of one of its tables. */
  type Fetch = (Page, int) -> ((int, int) -> Option<Element>)

  /** The water levels read from a page: table 6, June to October of a flood page, November
      to May of a dry page. */
  function PageWaterlevels(fetch: Fetch, toFloat: string -> Option<real>, layout: Layout, p: Page)
    : Result<seq<Event>>
  {
    match p
    case Flood(_, year) =>
      var start :- MakeDateTime(year, 6, 1, 0, 0, 0);
      Ok(ReadColsOf(Table(fetch(p, 6), toFloat, Missing), layout.rows, layout.floodCols, start))
    case Dry(_, season) =>
      var start :- DrySeasonStart(season);
      Ok(ReadColsOf(Table(fetch(p, 6), toFloat, Missing), layout.rows, layout.dryCols, start))
  }

  /** The precipitation read from a page: table 7 of a flood page; dry pages give none. */
  function PagePrecipitation(fetch: Fetch, toFloat: string -> Option<real>, layout: Layout, p: Page)
    : Result<seq<Event>>
  {
    match p
    case Flood(_, year) =>
      var start :- MakeDateTime(year, 6, 1, 0, 0, 0);
      Ok(ReadColsOf(Table(fetch(p, 7), toFloat, Missing), layout.rows, layout.floodCols, start))
    case Dry(_, _) => Ok([])
  }

  function WaterlevelStep(fetch: Fetch, toFloat: string -> Option<real>, layout: Layout)
    : Page -> Result<seq<Event>>
  {
    (p: Page) => PageWaterlevels(fetch, toFloat, layout, p)
  }

  function PrecipitationStep(fetch: Fetch, toFloat: string -> Option<real>, layout: Layout)
    : Page -> Result<seq<Event>>
  {
    (p: Page) => PagePrecipitation(fetch, toFloat, layout, p)
  }

  /** `waterlevel_values[code]` and `precipitation_values[code]` of one station: what each of
      its pages gives, page after page. */
  function StationSeries(fetch: Fetch, toFloat: string -> Option<real>, layout: Layout, pages: seq<Page>)
    : Result<(seq<Event>, seq<Event>)>
  {
    var waterlevels :- Concat(pages, WaterlevelStep(fetch, toFloat, layout));
    var precipitation :- Concat(pages, PrecipitationStep(fetch, toFloat, layout));
    Ok((waterlevels, precipitation))
  }

  /** A flood page of a year in range gives 153 records of each series. */
  lemma FloodStep(fetch: Fetch, toFloat: string -> Option<real>, layout: Layout, p: Page)
    requires MonthsLayout(layout) && p.Flood? && InRange(p.year)
    ensures PageWaterlevels(fetch, toFloat, layout, p).Ok?
    ensures |PageWaterlevels(fetch, toFloat, layout, p).value| == 153
    ensures PagePrecipitation(fetch, toFloat, layout, p).Ok?
    ensures |PagePrecipitation(fetch, toFloat, layout, p).value| == 153
  {
    FloodPageLength(Table(fetch(p, 6), toFloat, Missing), layout.rows, layout.floodCols, p.year);
    FloodPageLength(Table(fetch(p, 7), toFloat, Missing), layout.rows, layout.floodCols, p.year);
  }

  /** 153 records per flood page and series. */
  lemma {:induction false} FloodSeries(fetch: Fetch, toFloat: string -> Option<real>, layout: Layout,
                                       station: string, n: nat)
    requires MonthsLayout(layout) && n <= 8
    ensures var pages := FloodPages(station)[..n];
      Concat(pages, WaterlevelStep(fetch, toFloat, layout)).Ok? &&
      |Concat(pages, WaterlevelStep(fetch, toFloat, layout)).value| == 153 * n &&
      Concat(pages, PrecipitationStep(fetch, toFloat, layout)).Ok? &&
      |Concat(pages, PrecipitationStep(fetch, toFloat, layout)).value| == 153 * n
  {
    if n > 0 {
      var pages := FloodPages(station)[..n];
      assert pages[..n - 1] == FloodPages(station)[..n - 1];
      FloodSeries(fetch, toFloat, layout, station, n - 1);
      FloodStep(fetch, toFloat, layout, pages[n - 1]);
    }
  }

  /** A dry page whose season starts in year y: 212 water levels, 213 when the February is a
      leap one; no precipitation. */
  lemma DryStep(fetch: Fetch, toFloat: string -> Option<real>, layout: Layout, p: Page, y: int)
    requires MonthsLayout(layout) && p.Dry? && DrySeasonStart(p.season) == Ok(Midnight(y, 11, 1))
    ensures PageWaterlevels(fetch, toFloat, layout, p).Ok?
    ensures |PageWaterlevels(fetch, toFloat, layout, p).value| == if IsLeap(y + 1) then 213 else 212
    ensures PagePrecipitation(fetch, toFloat, layout, p) == Ok([])
  {
    DryPageLength(Table(fetch(p, 6), toFloat, Missing), layout.rows, layout.dryCols, y);
  }

  /** The dry page of season i (2013-14, 2014-15, 2015-16): 212, 212 and 213 water levels. */
  lemma DryStepAt(fetch: Fetch, toFloat: string -> Option<real>, layout: Layout, station: string,
                  seasons: seq<string>, i: int)
    requires MonthsLayout(layout) && SeasonsFrom2013(seasons) && 0 <= i < 3
    ensures PageWaterlevels(fetch, toFloat, layout, DryPages(station, seasons)[i]).Ok?
    ensures |PageWaterlevels(fetch, toFloat, layout, DryPages(station, seasons)[i]).value| ==
      212 + if i == 2 then 1 else 0
    ensures PagePrecipitation(fetch, toFloat, layout, DryPages(station, seasons)[i]) == Ok([])
  {
    var p := DryPages(station, seasons)[i];
    assert p == Dry(station, seasons[i]);
    assert DrySeasonStart(p.season) == Ok(Midnight(2013 + i, 11, 1));
    DryStep(fetch, toFloat, layout, p, 2013 + i);
    LeapSeason(i);
  }

  /** Of the years 2014, 2015 and 2016 only 2016 is a leap year. */
  lemma LeapSeason(i: int)
    requires 0 <= i < 3
    ensures IsLeap(2014 + i) <==> i == 2
  {
    if i == 2 {
      assert 2014 + i == 4 * 504;
    } else {
      assert (2014 + i) % 4 != 0;
    }
  }

  /** The first n dry pages: 212 water levels each, one more for the leap 2015-16 season. */
  lemma {:induction false} DrySeries(fetch: Fetch, toFloat: string -> Option<real>, layout: Layout,
                                     station: string, seasons: seq<string>, n: nat)
    requires MonthsLayout(layout) && SeasonsFrom2013(seasons) && n <= 3
    ensures var pages := DryPages(station, seasons)[..n];
      Concat(pages, WaterlevelStep(fetch, toFloat, layout)).Ok? &&
      |Concat(pages, WaterlevelStep(fetch, toFloat, layout)).value| == 212 * n + (if n == 3 then 1 else 0) &&
      Concat(pages, PrecipitationStep(fetch, toFloat, layout)) == Ok([])
  {
    if n > 0 {
      var pages := DryPages(station, seasons)[..n];
      assert pages[..n - 1] == DryPages(station, seasons)[..n - 1];
      DrySeries(fetch, toFloat, layout, station, seasons, n - 1);
      DryStepAt(fetch, toFloat, layout, station, seasons, n - 1);
      assert pages[n - 1] == DryPages(station, seasons)[n - 1];
      var none: seq<Event> := [];
      assert none + none == none;
    }
  }

  /** A station's series: 8 x 153 = 1224 precipitation records, and as many water levels plus
      the 637 dry-season days unless the station is in `missing_dry`. */
  lemma StationSeriesLength(fetch: Fetch, toFloat: string -> Option<real>, layout: Layout,
                            name: string, page: string, seasons: seq<string>)
    requires MonthsLayout(layout) && SeasonsFrom2013(seasons)
    ensures var r := StationSeries(fetch, toFloat, layout, StationPagesWith(name, page, seasons));
      r.Ok? && |r.value.1| == 1224 && |r.value.0| == if name in MissingDry then 1224 else 1861
  {
    var flood := FloodPages(page);
    FloodSeries(fetch, toFloat, layout, page, 8);
    assert flood[..8] == flood;
    var w := WaterlevelStep(fetch, toFloat, layout);
    var pr := PrecipitationStep(fetch, toFloat, layout);
    if name in MissingDry {
      assert StationPagesWith(name, page, seasons) == flood;
    } else {
      DrySeries(fetch, toFloat, layout, page, seasons, 3);
      assert DryPages(page, seasons)[..3] == DryPages(page, seasons);
      ConcatAppend(flood, DryPages(page, seasons), w);
      ConcatAppend(flood, DryPages(page, seasons), pr);
    }
  }
}
