/** The IMERG half-hourly file names of the GPM script: `strfy`, which zero-pads numbers,
    and `filelist`, which steps through one month and names a file per step and suffix.
    The script's globals `year`, `month` and `format` are parameters here. */
module Gpm {
  import opened PyText
  import opened Calendar

  // ---------------------------------------------------------------------------
  // strfy

  /** What `strfy(*args, length=length)` returns: the pieces in argument order. */
  function StrfyOf(args: seq<int>, length: int): string
  {
    if args == [] then [] else StrfyOf(args[..|args| - 1], length) + PadInt(args[|args| - 1], length)
  }

  method Strfy(args: seq<int>, length: int) returns (r: string)
    ensures r == StrfyOf(args, length)
  {
    r := "";
    var k := 0;
    while k < |args|
      invariant 0 <= k <= |args|
      invariant r == StrfyOf(args[..k], length)
    {
      assert args[..k + 1][..k] == args[..k];
      r := r + PadInt(args[k], length);
      k := k + 1;
    }
    assert args[..|args|] == args;
  }

  /** A piece is never truncated: it has `length` characters or is the whole number. */
  lemma PieceKeepsNumber(x: int, length: int)
    ensures EndsWith(PadInt(x, length), IntToString(x))
    ensures |PadInt(x, length)| == if |IntToString(x)| < length then length else |IntToString(x)|
  {
    ZeroPadShape(IntToString(x), length);
  }

  /** A negative number's sign counts toward the length: -5 padded to 3 is "0-5", and
      minute 0 minus 29 padded to 2 is "-29". */
  lemma NegativePieces()
    ensures PadInt(-5, 3) == "0-5"
    ensures PadInt(-29, 2) == "-29"
  {
    assert NatToString(5) == "5";
    assert NatToString(2) == "2";
    assert NatToString(29) == NatToString(2) + "9";
    assert IntToString(-29) == "-29";
    assert Repeat('0', 1) == "0";
  }

  /** Pieces concatenate in argument order. */
  lemma {:induction false} StrfyAppend(a: seq<int>, b: seq<int>, length: int)
    ensures StrfyOf(a + b, length) == StrfyOf(a, length) + StrfyOf(b, length)
    decreases |b|
  {
    if b == [] {
      assert a + b == a;
    } else {
      var b', x := b[..|b| - 1], b[|b| - 1];
      assert (a + b)[..|a + b| - 1] == a + b';
      assert (a + b)[|a + b| - 1] == x;
      var p := PadInt(x, length);
      assert StrfyOf(a + b, length) == StrfyOf(a + b', length) + p;
      assert StrfyOf(b, length) == StrfyOf(b', length) + p;
      StrfyAppend(a, b', length);
      ConcatAssoc(StrfyOf(a, length), StrfyOf(b', length), p);
    }
  }

  lemma {:induction false} StrfyLength(args: seq<int>, length: nat)
    requires length >= 1
    requires forall i :: 0 <= i < |args| ==> 0 <= args[i] < Pow10(length)
    ensures |StrfyOf(args, length)| == length * |args|
    decreases |args|
  {
    if args != [] {
      var n := |args|;
      StrfyLength(args[..n - 1], length);
      PadIntDigits(args[n - 1], length);
      MulPred(length, n);
    }
  }

  /** Reading a `strfy` text back: consecutive `length`-digit numbers, from the right. */
  function Unstrfy(s: string, length: nat): seq<int>
    requires length >= 1 && AllDigits(s)
    decreases |s|
  {
    if |s| < length then [] else Unstrfy(s[..|s| - length], length) + [DigitsValue(s[|s| - length..])]
  }

  /** Appending one `length`-digit number appends it to what is read back. */
  lemma UnstrfyAppend(x: string, p: string, length: nat)
    requires length >= 1 && AllDigits(x) && AllDigits(p) && |p| == length
    ensures AllDigits(x + p)
    ensures Unstrfy(x + p, length) == Unstrfy(x, length) + [DigitsValue(p)]
  {
    var t := x + p;
    forall i | 0 <= i < |t|
      ensures IsDigit(t[i])
    {
      if i < |x| { assert t[i] == x[i]; } else { assert t[i] == p[i - |x|]; }
    }
    assert t[..|t| - length] == x;
    assert t[|t| - length..] == p;
  }

  /** For arguments in [0, 10^length) every piece has exactly `length` digits, so the text
      reads back as the arguments. */
  lemma {:induction false} StrfyRoundTrip(args: seq<int>, length: nat)
    requires length >= 1
    requires forall i :: 0 <= i < |args| ==> 0 <= args[i] < Pow10(length)
    ensures AllDigits(StrfyOf(args, length))
    ensures Unstrfy(StrfyOf(args, length), length) == args
    decreases |args|
  {
    if args != [] {
      var n := |args|;
      var init, last := args[..n - 1], args[n - 1];
      assert args == init + [last];
      StrfyRoundTrip(init, length);
      var x, p := StrfyOf(init, length), PadInt(last, length);
      PadIntDigits(last, length);
      assert StrfyOf(args, length) == x + p;
      UnstrfyAppend(x, p, length);
    }
  }

  // ---------------------------------------------------------------------------
  // filelist

  /** The position after k steps of `delta` seconds. */
  function Steps(start: DateTime, delta: nat, k: nat): (r: DateTime)
    requires Valid(start)
    ensures Valid(r)
  {
    if k == 0 then start else AddSeconds(Steps(start, delta, k - 1), delta)
  }

  lemma {:induction false} InstantSteps(start: DateTime, delta: nat, k: nat)
    requires Valid(start)
    ensures Instant(Steps(start, delta, k)) == Instant(start) + delta * k
  {
    if k > 0 {
      InstantSteps(start, delta, k - 1);
      InstantAddSeconds(Steps(start, delta, k - 1), delta);
      MulPred(delta, k);
    }
  }

  /** `int((position - start).seconds / 60)`: the minutes of the within-day part of the
      elapsed time (`timedelta.seconds` leaves out whole days). */
  function ElapsedMinutes(position: DateTime, start: DateTime): int
    requires 1 <= position.month <= 12 && 1 <= start.month <= 12
  {
    (Instant(position) - Instant(start)) % 86400 / 60
  }

  /** What the names for one position share, up to the suffix; `minutes` is the elapsed
      minutes of the day. */
  function NamePrefix(position: DateTime, minutes: int, step: string, year: int, month: int): string
  {
    var s := PadInt(position.hour, 2) + PadInt(position.minute - 29, 2);
    var date := IntToString(year) + PadInt(month, 2) + PadInt(position.day, 2);
    var time := PadInt(position.hour, 2) + PadInt(position.minute, 2);
    var i := PadInt(minutes, 4);
    "3B-HHR-L.MS.MRG.3IMERG." + date + "-S" + s + "00-E" + time + "59." + i + ".V03E." + step + "."
  }

  function ImergName(position: DateTime, minutes: int, step: string, year: int, month: int, suffix: string): string
  {
    NamePrefix(position, minutes, step, year, month) + suffix
  }

  /** The names for one position: one per suffix, in suffix order. */
  function NamesAt(position: DateTime, minutes: int, step: string, year: int, month: int, formats: seq<string>): (r: seq<string>)
    ensures |r| == |formats|
    ensures forall j :: 0 <= j < |formats| ==> r[j] == ImergName(position, minutes, step, year, month, formats[j])
  {
    seq(|formats|, j requires 0 <= j < |formats| => ImergName(position, minutes, step, year, month, formats[j]))
  }

  /** The names of the first n positions, position by position. */
  function Names(start: DateTime, delta: nat, n: nat, step: string, year: int, month: int, formats: seq<string>): seq<string>
    requires Valid(start)
  {
    if n == 0 then []
    else Names(start, delta, n - 1, step, year, month, formats) + NamesAt(Steps(start, delta, n - 1), ElapsedMinutes(Steps(start, delta, n - 1), start), step, year, month, formats)
  }

  lemma {:induction false} NamesCount(start: DateTime, delta: nat, n: nat, step: string, year: int, month: int, formats: seq<string>)
    requires Valid(start)
    ensures |Names(start, delta, n, step, year, month, formats)| == |formats| * n
  {
    if n > 0 {
      NamesCount(start, delta, n - 1, step, year, month, formats);
      MulPred(|formats|, n);
    }
  }

  /** The index field of every name is four digits denoting the elapsed minutes of the day. */
  lemma IndexField(position: DateTime, start: DateTime)
    requires Valid(position) && Valid(start)
    ensures 0 <= ElapsedMinutes(position, start) < 1440
    ensures var i := PadInt(ElapsedMinutes(position, start), 4);
      |i| == 4 && AllDigits(i) && DigitsValue(i) == ElapsedMinutes(position, start)
  {
    var x := ElapsedMinutes(position, start);
    assert 0 <= x < 1440;
    assert Pow10(4) == 10000;
    PadIntDigits(x, 4);
  }

  lemma StrfyOne(x: int, length: int)
    ensures StrfyOf([x], length) == PadInt(x, length)
  {
    var p := PadInt(x, length);
    assert [x][..0] == [];
    assert StrfyOf([x], length) == StrfyOf([], length) + p;
    assert [] + p == p;
  }

  /** The body of the `while` loop for one position: the names for every suffix. */
  method PositionNames(position: DateTime, minutes: int, step: string, year: int, month: int, formats: seq<string>)
    returns (here: seq<string>)
    ensures here == NamesAt(position, minutes, step, year, month, formats)
  {
    var s0 := Strfy([position.hour], 2);
    var s1 := Strfy([position.minute - 29], 2);
    var d0 := Strfy([month], 2);
    var d1 := Strfy([position.day], 2);
    var t0 := Strfy([position.hour], 2);
    var t1 := Strfy([position.minute], 2);
    var i := Strfy([minutes], 4);
    StrfyOne(position.hour, 2);
    StrfyOne(position.minute - 29, 2);
    StrfyOne(month, 2);
    StrfyOne(position.day, 2);
    StrfyOne(position.minute, 2);
    StrfyOne(minutes, 4);
    var s, date, time := s0 + s1, IntToString(year) + d0 + d1, t0 + t1;
    var prefix := "3B-HHR-L.MS.MRG.3IMERG." + date + "-S" + s + "00-E" + time + "59." + i + ".V03E." + step + ".";
    assert prefix == NamePrefix(position, minutes, step, year, month);
    here := WithSuffixes(prefix, formats);
  }

  /** `for f in format: filenames.append(prefix + f)`. */
  method WithSuffixes(prefix: string, formats: seq<string>) returns (here: seq<string>)
    ensures |here| == |formats|
    ensures forall q :: 0 <= q < |formats| ==> here[q] == prefix + formats[q]
  {
    here := [];
    var j := 0;
    while j < |formats|
      invariant 0 <= j <= |formats|
      invariant |here| == j
      invariant forall q :: 0 <= q < j ==> here[q] == prefix + formats[q]
    {
      here := here + [prefix + formats[j]];
      j := j + 1;
    }
  }

  /** The first n positions all lie in the start's month. */
  predicate StaysInMonth(start: DateTime, delta: nat, n: nat)
    requires Valid(start)
  {
    n == 0 || (StaysInMonth(start, delta, n - 1) && Steps(start, delta, n - 1).month == start.month)
  }

  lemma {:induction false} StaysInMonthAt(start: DateTime, delta: nat, n: nat, k: nat)
    requires Valid(start) && StaysInMonth(start, delta, n) && k < n
    ensures Steps(start, delta, k).month == start.month
    decreases n
  {
    if k < n - 1 {
      StaysInMonthAt(start, delta, n - 1, k);
    }
  }

  /** Within two consecutive months, the month number tells them apart. */
  lemma SameMonth(position: DateTime, start: DateTime)
    requires Valid(position) && Valid(start)
    requires MonthIndex(start) <= MonthIndex(position) <= MonthIndex(start) + 1
    ensures position.month == start.month <==> MonthIndex(position) == MonthIndex(start)
  {
  }

  /** A position in the start's month lies before the next month begins. */
  lemma PositionBeforeNextMonth(position: DateTime, start: DateTime)
    requires Valid(position)
    requires MonthIndex(position) == MonthIndex(start)
    ensures Instant(position) < MonthStart(MonthIndex(start) + 1) * 86400
  {
    InstantWithinMonth(position);
  }

  /** One step of less than 28 days lands in the same month or the next. */
  lemma StepWithinNextMonth(position: DateTime, next: DateTime, delta: nat)
    requires Valid(position) && Valid(next)
    requires 0 < delta < 28 * 86400
    requires Instant(next) == Instant(position) + delta
    ensures MonthIndex(position) <= MonthIndex(next) <= MonthIndex(position) + 1
  {
    StepBound(position, next, delta);
    InstantMonthBetween(next, MonthIndex(position), MonthIndex(position) + 2);
  }

  /** The instant of such a step lies between the start of the position's month and the
      start of the month after the next. */
  lemma StepBound(position: DateTime, next: DateTime, delta: nat)
    requires Valid(position) && 1 <= next.month <= 12
    requires 0 < delta < 28 * 86400
    requires Instant(next) == Instant(position) + delta
    ensures MonthStart(MonthIndex(position)) * 86400 <= Instant(next)
    ensures Instant(next) < MonthStart(MonthIndex(position) + 2) * 86400
  {
    var m := MonthIndex(position);
    InstantWithinMonth(position);
    MonthStartGrows(m + 1, m + 2);
  }

  /** One round of the loop of `filelist`: the next position is the next step, at or after
      the start and in the start's month or the next, and the distance to the next month
      shrinks. */
  lemma FilelistStep(start: DateTime, delta: nat, m: int, position: DateTime, next: DateTime)
    requires Valid(start) && 0 < delta < 28 * 86400 && m == MonthIndex(start)
    requires Valid(position) && Valid(next) && Instant(next) == Instant(position) + delta
    requires Instant(start) <= Instant(position)
    requires m <= MonthIndex(position) <= m + 1
    requires position.month == start.month
    ensures Instant(start) <= Instant(next)
    ensures m <= MonthIndex(next) <= m + 1
    ensures 0 <= MonthStart(m + 1) * 86400 - Instant(position)
    ensures MonthStart(m + 1) * 86400 - Instant(next) < MonthStart(m + 1) * 86400 - Instant(position)
  {
    SameMonth(position, start);
    PositionBeforeNextMonth(position, start);
    StepWithinNextMonth(position, next, delta);
  }

  /** The same round, for the names and the positions stepped through. */
  lemma FilelistNamesStep(start: DateTime, delta: nat, n: nat, position: DateTime,
                          step: string, year: int, month: int, formats: seq<string>)
    requires Valid(start) && position == Steps(start, delta, n)
    requires StaysInMonth(start, delta, n) && position.month == start.month
    ensures AddSeconds(position, delta) == Steps(start, delta, n + 1)
    ensures StaysInMonth(start, delta, n + 1)
    ensures Names(start, delta, n + 1, step, year, month, formats) ==
      Names(start, delta, n, step, year, month, formats) + NamesAt(position, ElapsedMinutes(position, start), step, year, month, formats)
  {
  }

  /** `filelist(position, step_, delta)` for a step of `delta` seconds, 0 < delta < 28 days.
      It names every position of the start's month, stepping from the start, and returns
      the first position outside it, which lies in the following month. */
  method Filelist(start: DateTime, step: string, delta: nat, year: int, month: int, formats: seq<string>)
    returns (filenames: seq<string>, position: DateTime, ghost n: nat)
    requires Valid(start)
    requires 0 < delta < 28 * 86400
    ensures position == Steps(start, delta, n)
    ensures StaysInMonth(start, delta, n)
    ensures position.month != start.month
    ensures MonthIndex(position) == MonthIndex(start) + 1
    ensures filenames == Names(start, delta, n, step, year, month, formats)
  {
    filenames := [];
    position := start;
    n := 0;
    ghost var m := MonthIndex(start);
    while position.month == start.month
      invariant Valid(position) && position == Steps(start, delta, n)
      invariant Instant(start) <= Instant(position)
      invariant m <= MonthIndex(position) <= m + 1
      invariant StaysInMonth(start, delta, n)
      invariant filenames == Names(start, delta, n, step, year, month, formats)
      decreases MonthStart(m + 1) * 86400 - Instant(position)
    {
      InstantAddSeconds(position, delta);
      FilelistStep(start, delta, m, position, AddSeconds(position, delta));
      FilelistNamesStep(start, delta, n, position, step, year, month, formats);
      var here := PositionNames(position, ElapsedMinutes(position, start), step, year, month, formats);
      filenames := filenames + here;
      position := AddSeconds(position, delta);
      n := n + 1;
    }
    SameMonth(position, start);
  }
}
