/** The proleptic Gregorian calendar of Python's `datetime`, on plain tuples
    (year, month, day, hour, minute, second): month lengths, the ordinal day count
    `toordinal()`, weekdays, stepping by days and seconds, and the `isoformat()` and
    `strftime` texts the scripts produce. */
module Calendar {
  import opened Wrappers
  import opened PyText

  datatype DateTime = DateTime(year: int, month: int, day: int, hour: int, minute: int, second: int)

  predicate IsLeap(y: int)
  {
    y % 4 == 0 && (y % 100 != 0 || y % 400 == 0)
  }

  function MonthLength(y: int, m: int): (n: int)
    requires 1 <= m <= 12
    ensures 28 <= n <= 31
    ensures n == 29 <==> m == 2 && IsLeap(y)
  {
    if m == 2 then (if IsLeap(y) then 29 else 28)
    else if m == 4 || m == 6 || m == 9 || m == 11 then 30
    else 31
  }

  predicate ValidDate(y: int, m: int, d: int)
  {
    1 <= m <= 12 && 1 <= d <= MonthLength(y, m)
  }

  /** A well-formed date and time of day (any year; see MakeDateTime for Python's range). */
  predicate Valid(t: DateTime)
  {
    ValidDate(t.year, t.month, t.day) &&
    0 <= t.hour < 24 && 0 <= t.minute < 60 && 0 <= t.second < 60
  }

  const MinYear := 1
  const MaxYear := 9999

  predicate InRange(y: int)
  {
    MinYear <= y <= MaxYear
  }

  function Midnight(y: int, m: int, d: int): DateTime
  {
    DateTime(y, m, d, 0, 0, 0)
  }

  /** `datetime.datetime(y, m, d, h, mi, s)`: a ValueError unless every field is in range. */
  function MakeDateTime(y: int, m: int, d: int, h: int, mi: int, s: int): (r: Result<DateTime>)
    ensures r.Ok? <==> InRange(y) && Valid(DateTime(y, m, d, h, mi, s))
    ensures r.Ok? ==> r.value == DateTime(y, m, d, h, mi, s)
    ensures r.Err? ==> r.error == ValueError
  {
    var t := DateTime(y, m, d, h, mi, s);
    if InRange(y) && Valid(t) then Ok(t) else Err(ValueError)
  }

  /** Python's chronological `a < b` on datetimes: lexicographic on the fields. */
  predicate Before(a: DateTime, b: DateTime)
  {
    if a.year != b.year then a.year < b.year
    else if a.month != b.month then a.month < b.month
    else if a.day != b.day then a.day < b.day
    else if a.hour != b.hour then a.hour < b.hour
    else if a.minute != b.minute then a.minute < b.minute
    else a.second < b.second
  }

  predicate NotAfter(a: DateTime, b: DateTime)
  {
    a == b || Before(a, b)
  }

  lemma BeforeIsStrictTotalOrder(a: DateTime, b: DateTime, c: DateTime)
    ensures !Before(a, a)
    ensures Before(a, b) && Before(b, c) ==> Before(a, c)
    ensures a == b || Before(a, b) || Before(b, a)
    ensures Before(a, b) ==> !Before(b, a)
  {
  }

  // ---------------------------------------------------------------------------
  // stepping by one day

  function NextDay(t: DateTime): (r: DateTime)
    requires Valid(t)
    ensures Valid(r)
    ensures Before(t, r)
  {
    if t.day < MonthLength(t.year, t.month) then t.(day := t.day + 1)
    else if t.month < 12 then t.(month := t.month + 1, day := 1)
    else t.(year := t.year + 1, month := 1, day := 1)
  }

  function PrevDay(t: DateTime): (r: DateTime)
    requires Valid(t)
    ensures Valid(r)
    ensures Before(r, t)
  {
    if t.day > 1 then t.(day := t.day - 1)
    else if t.month > 1 then t.(month := t.month - 1, day := MonthLength(t.year, t.month - 1))
    else t.(year := t.year - 1, month := 12, day := 31)
  }

  /** Adding a day and subtracting one are inverse. */
  lemma NextPrevInverse(t: DateTime)
    requires Valid(t)
    ensures NextDay(PrevDay(t)) == t
    ensures PrevDay(NextDay(t)) == t
  {
  }

  function AddDays(t: DateTime, n: nat): (r: DateTime)
    requires Valid(t)
    ensures Valid(r)
    decreases n
  {
    if n == 0 then t else AddDays(NextDay(t), n - 1)
  }

  // ---------------------------------------------------------------------------
  // ordinals, as date.toordinal(): 0001-01-01 is day 1

  function DaysBeforeYear(y: int): int
  {
    var p := y - 1;
    365 * p + p / 4 - p / 100 + p / 400
  }

  /** The days of year y before month m. */
  function DaysBeforeMonth(y: int, m: int): (n: int)
    requires 1 <= m <= 12
  {
    if m == 1 then 0 else DaysBeforeMonth(y, m - 1) + MonthLength(y, m - 1)
  }

  /** Eleven months of a year make 334 days, 335 in a leap year. */
  lemma DaysBeforeDecember(y: int)
    ensures DaysBeforeMonth(y, 12) == if IsLeap(y) then 335 else 334
  {
    var leap := if IsLeap(y) then 1 else 0;
    assert DaysBeforeMonth(y, 2) == 31;
    assert DaysBeforeMonth(y, 3) == 59 + leap;
    assert DaysBeforeMonth(y, 4) == 90 + leap;
    assert DaysBeforeMonth(y, 5) == 120 + leap;
    assert DaysBeforeMonth(y, 6) == 151 + leap;
    assert DaysBeforeMonth(y, 7) == 181 + leap;
    assert DaysBeforeMonth(y, 8) == 212 + leap;
    assert DaysBeforeMonth(y, 9) == 243 + leap;
    assert DaysBeforeMonth(y, 10) == 273 + leap;
    assert DaysBeforeMonth(y, 11) == 304 + leap;
  }

  lemma DaysBeforeNextMonth(y: int, m: int)
    requires 1 <= m < 12
    ensures DaysBeforeMonth(y, m + 1) == DaysBeforeMonth(y, m) + MonthLength(y, m)
  {
  }

  function Ordinal(t: DateTime): int
    requires 1 <= t.month <= 12
  {
    DaysBeforeYear(t.year) + DaysBeforeMonth(t.year, t.month) + t.day
  }

  /** `date.weekday()`: Monday is 0 and Sunday is 6. */
  function Weekday(t: DateTime): (w: int)
    requires 1 <= t.month <= 12
    ensures 0 <= w < 7
  {
    (Ordinal(t) + 6) % 7
  }

  lemma DivStep(p: int, k: int)
    requires k == 4 || k == 100 || k == 400
    ensures (p + 1) / k - p / k == if (p + 1) % k == 0 then 1 else 0
  {
    var q, r := p / k, p % k;
    assert p == k * q + r && 0 <= r < k;
    if r == k - 1 {
      assert p + 1 == k * (q + 1);
    } else {
      assert p + 1 == k * q + (r + 1);
    }
  }

  lemma DaysBeforeNextYear(y: int)
    ensures DaysBeforeYear(y + 1) == DaysBeforeYear(y) + if IsLeap(y) then 366 else 365
  {
    var p := y - 1;
    DivStep(p, 4);
    DivStep(p, 100);
    DivStep(p, 400);
    assert p + 1 == y;
    if y % 400 == 0 {
      var q := y / 400;
      assert y == 100 * (4 * q) && y == 4 * (100 * q);
    } else if y % 100 == 0 {
      assert y == 4 * (25 * (y / 100));
    }
  }

  /** The day after has the next ordinal: the ordinal counts days without gaps. */
  lemma OrdinalNextDay(t: DateTime)
    requires Valid(t)
    ensures Ordinal(NextDay(t)) == Ordinal(t) + 1
  {
    if t.day == MonthLength(t.year, t.month) {
      if t.month == 12 {
        DaysBeforeNextYear(t.year);
        DaysBeforeDecember(t.year);
      } else {
        DaysBeforeNextMonth(t.year, t.month);
      }
    }
  }

  lemma {:induction false} OrdinalAddDays(t: DateTime, n: nat)
    requires Valid(t)
    ensures Ordinal(AddDays(t, n)) == Ordinal(t) + n
    decreases n
  {
    if n > 0 {
      OrdinalNextDay(t);
      OrdinalAddDays(NextDay(t), n - 1);
    }
  }

  /** The weekday advances by one, modulo 7, from one day to the next. */
  lemma WeekdayNextDay(t: DateTime)
    requires Valid(t)
    ensures Weekday(NextDay(t)) == (Weekday(t) + 1) % 7
  {
    OrdinalNextDay(t);
    ModSevenSucc(Ordinal(t) + 6);
  }

  lemma ModSevenSucc(a: int)
    ensures (a + 1) % 7 == (a % 7 + 1) % 7
  {
    var q, r := a / 7, a % 7;
    assert a == 7 * q + r;
    if r == 6 {
      assert a + 1 == 7 * (q + 1);
    } else {
      assert a + 1 == 7 * q + (r + 1);
    }
  }

  // ---------------------------------------------------------------------------
  // months counted from year 0: month index 12 * year + (month - 1)

  function MonthIndex(t: DateTime): int
  {
    t.year * 12 + t.month - 1
  }

  /** The ordinal of the first day of the month with index `mi`. */
  function MonthStart(mi: int): int
  {
    var y, m := mi / 12, mi % 12 + 1;
    DaysBeforeYear(y) + DaysBeforeMonth(y, m) + 1
  }

  lemma MonthStartStep(mi: int)
    ensures MonthStart(mi + 1) == MonthStart(mi) + MonthLength(mi / 12, mi % 12 + 1)
  {
    var q, r := mi / 12, mi % 12;
    assert mi == 12 * q + r && 0 <= r < 12;
    if r < 11 {
      assert mi + 1 == 12 * q + (r + 1);
      DaysBeforeNextMonth(q, r + 1);
    } else {
      assert mi + 1 == 12 * (q + 1);
      DaysBeforeNextYear(q);
      DaysBeforeDecember(q);
    }
  }

  /** Every month has at least 28 days, so month starts grow by at least 28 per month. */
  lemma {:induction false} MonthStartGrows(a: int, b: int)
    requires a <= b
    ensures MonthStart(a) + 28 * (b - a) <= MonthStart(b)
    decreases b - a
  {
    if a < b {
      MonthStartGrows(a, b - 1);
      MonthStartStep(b - 1);
    }
  }

  /** A valid date lies between the start of its month and the start of the next. */
  lemma OrdinalWithinMonth(t: DateTime)
    requires Valid(t)
    ensures MonthStart(MonthIndex(t)) <= Ordinal(t) < MonthStart(MonthIndex(t) + 1)
  {
    var mi := MonthIndex(t);
    assert mi == 12 * t.year + (t.month - 1);
    assert mi / 12 == t.year && mi % 12 + 1 == t.month;
    MonthStartStep(mi);
  }

  /** The ordinal of a date tells its month: a date whose ordinal lies between the starts
      of months a and b is in a month from a up to (not including) b. */
  lemma MonthIndexBetween(t: DateTime, a: int, b: int)
    requires Valid(t)
    requires MonthStart(a) <= Ordinal(t) < MonthStart(b)
    ensures a <= MonthIndex(t) < b
  {
    MonthIndexAtLeast(t, a);
    MonthIndexBelow(t, b);
  }

  lemma MonthIndexAtLeast(t: DateTime, a: int)
    requires Valid(t) && MonthStart(a) <= Ordinal(t)
    ensures a <= MonthIndex(t)
  {
    var mi := MonthIndex(t);
    if mi < a {
      OrdinalWithinMonth(t);
      MonthStartGrows(mi + 1, a);
    }
  }

  lemma MonthIndexBelow(t: DateTime, b: int)
    requires Valid(t) && Ordinal(t) < MonthStart(b)
    ensures MonthIndex(t) < b
  {
    var mi := MonthIndex(t);
    if mi >= b {
      OrdinalWithinMonth(t);
      MonthStartGrows(b, mi);
    }
  }

  // ---------------------------------------------------------------------------
  // instants in seconds, and adding seconds

  function TimeOfDay(t: DateTime): int
  {
    t.hour * 3600 + t.minute * 60 + t.second
  }

  /** Seconds since the start of day 0 of the ordinal count. */
  function Instant(t: DateTime): int
    requires 1 <= t.month <= 12
  {
    Ordinal(t) * 86400 + TimeOfDay(t)
  }

  /** `t + timedelta(seconds=s)` for s >= 0. */
  function AddSeconds(t: DateTime, s: nat): (r: DateTime)
    requires Valid(t)
    ensures Valid(r)
  {
    var total := TimeOfDay(t) + s;
    var d := AddDays(t, total / 86400);
    var tod := total % 86400;
    d.(hour := tod / 3600, minute := tod % 3600 / 60, second := tod % 60)
  }

  lemma InstantAddSeconds(t: DateTime, s: nat)
    requires Valid(t)
    ensures Instant(AddSeconds(t, s)) == Instant(t) + s
  {
    var total := TimeOfDay(t) + s;
    OrdinalAddDays(t, total / 86400);
    var tod := total % 86400;
    assert TimeOfDay(AddSeconds(t, s)) == tod;
    assert total == (total / 86400) * 86400 + tod;
  }

  /** The day number of an instant is its ordinal. */
  lemma OrdinalOfInstant(t: DateTime)
    requires Valid(t)
    ensures Ordinal(t) == Instant(t) / 86400
    ensures 0 <= Instant(t) % 86400 == TimeOfDay(t) < 86400
  {
  }

  /** An instant lies between the starts of its month and of the next, in seconds. */
  lemma InstantWithinMonth(t: DateTime)
    requires Valid(t)
    ensures MonthStart(MonthIndex(t)) * 86400 <= Instant(t) < MonthStart(MonthIndex(t) + 1) * 86400
  {
    OrdinalWithinMonth(t);
  }

  /** An instant between the starts of months a and b belongs to a month from a up to
      (not including) b. */
  lemma InstantMonthBetween(t: DateTime, a: int, b: int)
    requires Valid(t)
    requires MonthStart(a) * 86400 <= Instant(t) < MonthStart(b) * 86400
    ensures a <= MonthIndex(t) < b
  {
    OrdinalOfInstant(t);
    MonthIndexBetween(t, a, b);
  }

  // ---------------------------------------------------------------------------
  // texts

  /** `date.isoformat()`: YYYY-MM-DD. */
  function IsoDate(t: DateTime): string
  {
    PadInt(t.year, 4) + "-" + PadInt(t.month, 2) + "-" + PadInt(t.day, 2)
  }

  /** `HH:MM:SS`, as `strftime('%H:%M:%S')`. */
  function ClockTime(t: DateTime): string
  {
    PadInt(t.hour, 2) + ":" + PadInt(t.minute, 2) + ":" + PadInt(t.second, 2)
  }

  /** `datetime.isoformat()` without microseconds: YYYY-MM-DDTHH:MM:SS. */
  function IsoDateTime(t: DateTime): string
  {
    IsoDate(t) + "T" + ClockTime(t)
  }

  /** `strftime('%Y%m%d')`. */
  function CompactDate(t: DateTime): string
  {
    PadInt(t.year, 4) + PadInt(t.month, 2) + PadInt(t.day, 2)
  }

  /** For years 1..9999 the ISO texts have their fixed widths. */
  lemma IsoWidths(t: DateTime)
    requires Valid(t) && 1 <= t.year <= 9999
    ensures |IsoDate(t)| == 10 && |ClockTime(t)| == 8 && |IsoDateTime(t)| == 19 && |CompactDate(t)| == 8
  {
    PaddedWidth(t.year, 4);
    PaddedWidth(t.month, 2);
    PaddedWidth(t.day, 2);
    PaddedWidth(t.hour, 2);
    PaddedWidth(t.minute, 2);
    PaddedWidth(t.second, 2);
  }

  lemma PaddedWidth(n: int, width: nat)
    requires 1 <= width <= 4 && 0 <= n < Pow10(width)
    ensures |PadInt(n, width)| == width
  {
    PadIntDigits(n, width);
  }
}
