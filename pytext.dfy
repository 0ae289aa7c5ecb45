/** The handful of Python string operations the scripts rely on, on `string = seq<char>`:
    `str.split(sep)` with a one-character separator, `sep.join`, slicing with clamped
    bounds, `str.strip(chars)`, `str(int)`, `int(str)`, `in` on strings, and
    `startswith`/`endswith`. Each carries the property that makes it usable: split and
    join are inverse, `int(str(i)) == i`, stripping leaves no stripped character at either end. */
module PyText {
  import opened Wrappers

  // ---------------------------------------------------------------------------
  // split and join

  /** `s.split(sep)`: the maximal pieces between occurrences of `sep`. */
  function Split(s: string, sep: char): (parts: seq<string>)
    ensures |parts| >= 1
    ensures forall i :: 0 <= i < |parts| ==> sep !in parts[i]
    decreases |s|
  {
    if s == [] then [""]
    else
      var rest := Split(s[1..], sep);
      if s[0] == sep then [""] + rest
      else [[s[0]] + rest[0]] + rest[1..]
  }

  /** `sep.join(parts)`. */
  function Join(parts: seq<string>, sep: string): string
    decreases |parts|
  {
    if |parts| == 0 then ""
    else if |parts| == 1 then parts[0]
    else parts[0] + sep + Join(parts[1..], sep)
  }

  /** Joining the pieces of a split with the separator gives back the string. */
  lemma {:induction false} JoinSplit(s: string, sep: char)
    ensures Join(Split(s, sep), [sep]) == s
    decreases |s|
  {
    if s != [] {
      var rest := Split(s[1..], sep);
      JoinSplit(s[1..], sep);
      if s[0] == sep {
        assert Split(s, sep) == [""] + rest;
        assert Join([""] + rest, [sep]) == "" + [sep] + Join(rest, [sep]);
        assert [sep] + s[1..] == s;
      } else if |rest| == 1 {
        assert Join(rest, [sep]) == rest[0];
        assert Split(s, sep) == [[s[0]] + rest[0]];
        assert [s[0]] + s[1..] == s;
      } else {
        var parts := [[s[0]] + rest[0]] + rest[1..];
        assert Split(s, sep) == parts;
        assert parts[1..] == rest[1..];
        assert Join(rest, [sep]) == rest[0] + [sep] + Join(rest[1..], [sep]);
        assert Join(parts, [sep]) == [s[0]] + rest[0] + [sep] + Join(rest[1..], [sep]);
        assert [s[0]] + s[1..] == s;
      }
    }
  }

  lemma {:induction false} SplitNoSeparator(p: string, sep: char)
    requires sep !in p
    ensures Split(p, sep) == [p]
    decreases |p|
  {
    if p != [] {
      SplitNoSeparator(p[1..], sep);
      assert [p[0]] + p[1..] == p;
    }
  }

  lemma {:induction false} SplitPieceThenSeparator(p: string, sep: char, t: string)
    requires sep !in p
    ensures Split(p + [sep] + t, sep) == [p] + Split(t, sep)
    decreases |p|
  {
    var s := p + [sep] + t;
    if p == [] {
      assert s == [sep] + t;
      assert s[1..] == t;
    } else {
      assert s[0] == p[0];
      assert s[1..] == p[1..] + [sep] + t;
      SplitPieceThenSeparator(p[1..], sep, t);
      assert [p[0]] + p[1..] == p;
    }
  }

  /** Splitting a join of separator-free pieces gives back the pieces. */
  lemma {:induction false} SplitJoin(parts: seq<string>, sep: char)
    requires |parts| >= 1
    requires forall i :: 0 <= i < |parts| ==> sep !in parts[i]
    ensures Split(Join(parts, [sep]), sep) == parts
    decreases |parts|
  {
    if |parts| == 1 {
      SplitNoSeparator(parts[0], sep);
    } else {
      SplitJoin(parts[1..], sep);
      SplitPieceThenSeparator(parts[0], sep, Join(parts[1..], [sep]));
      assert [parts[0]] + parts[1..] == parts;
    }
  }

  /** Joining two non-empty runs of pieces is joining each and putting the separator between. */
  lemma {:induction false} JoinConcat(a: seq<string>, b: seq<string>, sep: string)
    requires |a| >= 1 && |b| >= 1
    ensures Join(a + b, sep) == Join(a, sep) + sep + Join(b, sep)
    decreases |a|
  {
    if |a| == 1 {
      assert (a + b)[1..] == b;
    } else {
      JoinConcat(a[1..], b, sep);
      assert (a + b)[1..] == a[1..] + b;
    }
  }

  /** A character in neither the pieces nor the separator is not in their join. */
  lemma {:induction false} JoinAvoids(parts: seq<string>, sep: string, c: char)
    requires c !in sep
    requires forall i :: 0 <= i < |parts| ==> c !in parts[i]
    ensures c !in Join(parts, sep)
    decreases |parts|
  {
    if |parts| > 1 {
      JoinAvoids(parts[1..], sep, c);
      assert parts[1..][0] in parts[1..];
    }
  }

  /** The last piece of a split, `s.split(sep)[-1]`. */
  function LastPiece(s: string, sep: char): string
  {
    var parts := Split(s, sep);
    parts[|parts| - 1]
  }

  /** The first piece of a split, `s.split(sep)[0]`. */
  function FirstPiece(s: string, sep: char): string
  {
    Split(s, sep)[0]
  }

  lemma {:induction false} JoinLast(parts: seq<string>, sep: string)
    requires |parts| >= 2
    ensures Join(parts, sep) == Join(parts[..|parts| - 1], sep) + sep + parts[|parts| - 1]
    decreases |parts|
  {
    if |parts| > 2 {
      JoinLast(parts[1..], sep);
      assert parts[1..][..|parts| - 2] == parts[..|parts| - 1][1..];
    }
  }

  /** What precedes the last piece of a split: the other pieces, each followed by `sep`. */
  function BeforeLastPiece(s: string, sep: char): string
  {
    var parts := Split(s, sep);
    if |parts| == 1 then "" else Join(parts[..|parts| - 1], [sep]) + [sep]
  }

  /** `s` is what precedes its last piece followed by that piece, and what precedes it
      is empty or ends with the separator. */
  lemma LastPieceIsSuffix(s: string, sep: char)
    ensures s == BeforeLastPiece(s, sep) + LastPiece(s, sep)
    ensures BeforeLastPiece(s, sep) == [] || BeforeLastPiece(s, sep)[|BeforeLastPiece(s, sep)| - 1] == sep
  {
    var parts := Split(s, sep);
    JoinSplit(s, sep);
    if |parts| > 1 {
      JoinLast(parts, [sep]);
    }
  }

  // ---------------------------------------------------------------------------
  // slicing, prefixes, containment

  /** Python's `s[lo:hi]` for non-negative bounds: out-of-range bounds are clamped. */
  function Slice(s: string, lo: nat, hi: nat): (r: string)
    ensures lo <= hi <= |s| ==> r == s[lo..hi]
    ensures |s| <= lo ==> r == []
  {
    var a := if lo < |s| then lo else |s|;
    var b := if hi < |s| then hi else |s|;
    if a < b then s[a..b] else []
  }

  predicate StartsWith(s: string, prefix: string)
  {
    |prefix| <= |s| && s[..|prefix|] == prefix
  }

  predicate EndsWith(s: string, suffix: string)
  {
    |suffix| <= |s| && s[|s| - |suffix|..] == suffix
  }

  /** `sub` occurs in `s` starting at index `i`. */
  predicate OccursAt(s: string, sub: string, i: int)
  {
    0 <= i <= |s| - |sub| && s[i..i + |sub|] == sub
  }

  /** Python's `sub in s`. */
  predicate Contains(s: string, sub: string)
  {
    exists i :: 0 <= i <= |s| && OccursAt(s, sub, i)
  }

  // ---------------------------------------------------------------------------
  // strip

  /** The number of leading characters of `s` that belong to `cs`. */
  function LeadingCount(s: string, cs: set<char>): (k: nat)
    ensures k <= |s|
    decreases |s|
  {
    if s != [] && s[0] in cs then 1 + LeadingCount(s[1..], cs) else 0
  }

  /** The leading run is all of `cs`, and the character after it is not. */
  lemma {:induction false} LeadingCountSpec(s: string, cs: set<char>)
    ensures forall i :: 0 <= i < LeadingCount(s, cs) ==> s[i] in cs
    ensures LeadingCount(s, cs) < |s| ==> s[LeadingCount(s, cs)] !in cs
    decreases |s|
  {
    if s != [] && s[0] in cs {
      LeadingCountSpec(s[1..], cs);
      forall i | 1 <= i < LeadingCount(s, cs)
        ensures s[i] in cs
      {
        assert s[i] == s[1..][i - 1];
      }
    }
  }

  /** The number of trailing characters of `s` that belong to `cs`. */
  function TrailingCount(s: string, cs: set<char>): (k: nat)
    ensures k <= |s|
    decreases |s|
  {
    if s != [] && s[|s| - 1] in cs then 1 + TrailingCount(s[..|s| - 1], cs) else 0
  }

  /** The trailing run is all of `cs`, and the character before it is not. */
  lemma {:induction false} TrailingCountSpec(s: string, cs: set<char>)
    ensures forall i :: |s| - TrailingCount(s, cs) <= i < |s| ==> s[i] in cs
    ensures TrailingCount(s, cs) < |s| ==> s[|s| - 1 - TrailingCount(s, cs)] !in cs
    decreases |s|
  {
    if s != [] && s[|s| - 1] in cs {
      TrailingCountSpec(s[..|s| - 1], cs);
      forall i | |s| - TrailingCount(s, cs) <= i < |s| - 1
        ensures s[i] in cs
      {
        assert s[i] == s[..|s| - 1][i];
      }
    }
  }

  /** Python's `s.strip(chars)`. */
  function Strip(s: string, cs: set<char>): string
  {
    var t := s[LeadingCount(s, cs)..];
    t[..|t| - TrailingCount(t, cs)]
  }

  /** The stripped text neither starts nor ends with a character of `cs`. */
  lemma StripEnds(s: string, cs: set<char>)
    ensures var r := Strip(s, cs); r == [] || (r[0] !in cs && r[|r| - 1] !in cs)
  {
    var l := LeadingCount(s, cs);
    var t := s[l..];
    var r := Strip(s, cs);
    LeadingCountSpec(s, cs);
    TrailingCountSpec(t, cs);
    if r != [] {
      assert r[0] == t[0] == s[l];
      assert r[|r| - 1] == t[|t| - 1 - TrailingCount(t, cs)];
    }
  }

  /** Text without a character of `cs` is left as it is. */
  lemma StripNothing(s: string, cs: set<char>)
    requires forall i :: 0 <= i < |s| ==> s[i] !in cs
    ensures Strip(s, cs) == s
  {
    if s != [] {
      assert s[0] !in cs && s[|s| - 1] !in cs;
      assert s[LeadingCount(s, cs)..] == s;
    }
  }

  /** Stripping a text without a character of `cs` and one trailing character of `cs`
      (`line.strip('\n')` on a line with its newline) gives the text back. */
  lemma StripTrailing(s: string, c: char, cs: set<char>)
    requires forall i :: 0 <= i < |s| ==> s[i] !in cs
    requires c in cs
    ensures Strip(s + [c], cs) == s
  {
    var u := s + [c];
    if s == [] {
      assert LeadingCount(u, cs) == 1 + LeadingCount(u[1..], cs);
    } else {
      assert u[0] == s[0];
      assert LeadingCount(u, cs) == 0;
      assert u[LeadingCount(u, cs)..] == u;
      assert u[..|u| - 1] == s;
      assert s[|s| - 1] !in cs;
      assert TrailingCount(s, cs) == 0;
      assert TrailingCount(u, cs) == 1;
    }
  }

  /** The characters `str.strip()` and `int()` treat as blank (the ASCII ones). */
  const Whitespace: set<char> := {' ', '\t', '\n', '\r', '\U{0B}', '\U{0C}', '\U{1C}', '\U{1D}', '\U{1E}', '\U{1F}'}

  // ---------------------------------------------------------------------------
  // str(int) and int(str)

  predicate IsDigit(c: char) { '0' <= c <= '9' }

  predicate AllDigits(s: string) { forall i :: 0 <= i < |s| ==> IsDigit(s[i]) }

  function DigitChar(d: nat): (c: char)
    requires d < 10
    ensures IsDigit(c) && c as int - '0' as int == d
  {
    ('0' as int + d) as char
  }

  /** The number a string of decimal digits denotes. */
  function DigitsValue(s: string): nat
    requires AllDigits(s)
    decreases |s|
  {
    if s == [] then 0
    else DigitsValue(s[..|s| - 1]) * 10 + (s[|s| - 1] as int - '0' as int)
  }

  /** `str(n)` for a natural number: its decimal digits, without leading zeros. */
  function NatToString(n: nat): (s: string)
    ensures |s| >= 1
    decreases n
  {
    if n < 10 then [DigitChar(n)] else NatToString(n / 10) + [DigitChar(n % 10)]
  }

  /** `str(n)` is decimal digits that denote n, and begins with '0' only for 0. */
  lemma {:induction false} NatToStringDigits(n: nat)
    ensures AllDigits(NatToString(n))
    ensures NatToString(n)[0] == '0' ==> n == 0
    ensures DigitsValue(NatToString(n)) == n
    decreases n
  {
    if n >= 10 {
      NatToStringDigits(n / 10);
      var s := NatToString(n);
      assert s[..|s| - 1] == NatToString(n / 10);
    }
  }

  /** `str(i)`: a minus sign, then the digits, for negative numbers. */
  function IntToString(i: int): string
  {
    if i < 0 then "-" + NatToString(-i) else NatToString(i)
  }

  /** Python's `int(s)` on text: optional surrounding blanks, an optional sign, then at
      least one decimal digit; anything else is a ValueError (here: None). */
  function ParseInt(s: string): (r: Option<int>)
    ensures r.Some? ==> Strip(s, Whitespace) != []
  {
    var t := Strip(s, Whitespace);
    if |t| >= 2 && (t[0] == '-' || t[0] == '+') && AllDigits(t[1..]) then
      var magnitude: int := DigitsValue(t[1..]);
      Some(if t[0] == '-' then -magnitude else magnitude)
    else if |t| >= 1 && AllDigits(t) then
      Some(DigitsValue(t))
    else None
  }

  /** `int(s)` as an operation that raises: ValueError when `s` is not an integer. */
  function ToInt(s: string): (r: Result<int>)
    ensures r.Ok? <==> ParseInt(s).Some?
    ensures r.Ok? ==> ParseInt(s) == Some(r.value)
    ensures r.Err? ==> r.error == ValueError
  {
    match ParseInt(s)
    case Some(i) => Ok(i)
    case None => Err(ValueError)
  }

  /** `int(str(i)) == i`. */
  lemma ParseIntOfIntToString(i: int)
    ensures ParseInt(IntToString(i)) == Some(i)
  {
    var n := if i < 0 then -i else i;
    NatToStringDigits(n);
    if i < 0 {
      var s := IntToString(i);
      assert s[1..] == NatToString(n);
      ParseIntOfNegativeDigits(s);
    } else {
      ParseIntOfDigits(NatToString(n));
    }
  }

  /** A run of digits reads as its value. */
  lemma ParseIntOfDigits(d: string)
    requires |d| >= 1 && AllDigits(d)
    ensures ParseInt(d) == Some(DigitsValue(d) as int)
  {
    assert IsDigit(d[0]) && IsDigit(d[|d| - 1]);
    assert LeadingCount(d, Whitespace) == 0;
    assert TrailingCount(d, Whitespace) == 0;
    assert Strip(d, Whitespace) == d;
  }

  /** A minus sign and a run of digits read as the negated value. */
  lemma ParseIntOfNegativeDigits(m: string)
    requires |m| >= 2 && m[0] == '-' && AllDigits(m[1..])
    ensures ParseInt(m) == Some(-(DigitsValue(m[1..]) as int))
  {
    assert IsDigit(m[1..][|m| - 2]);
    assert LeadingCount(m, Whitespace) == 0;
    assert TrailingCount(m, Whitespace) == 0;
    assert Strip(m, Whitespace) == m;
  }

  // ---------------------------------------------------------------------------
  // zero padding

  /** `c * n`: n copies of c, none for n <= 0. */
  function Repeat(c: char, n: int): (r: string)
    ensures |r| == if n < 0 then 0 else n
    decreases n
  {
    if n <= 0 then [] else [c] + Repeat(c, n - 1)
  }

  lemma {:induction false} RepeatIsUniform(c: char, n: int)
    ensures forall i :: 0 <= i < |Repeat(c, n)| ==> Repeat(c, n)[i] == c
    decreases n
  {
    if n > 0 {
      RepeatIsUniform(c, n - 1);
    }
  }

  /** `'0' * (width - len(s)) + s`: left-pads with zeros, never truncates. */
  function ZeroPad(s: string, width: int): (r: string)
    ensures |r| == if |s| < width then width else |s|
  {
    Repeat('0', width - |s|) + s
  }

  /** ZeroPad keeps `s` whole at the end and puts only zeros in front of it. */
  lemma ZeroPadShape(s: string, width: int)
    ensures EndsWith(ZeroPad(s, width), s)
    ensures forall i :: 0 <= i < |ZeroPad(s, width)| - |s| ==> ZeroPad(s, width)[i] == '0'
  {
    var r := ZeroPad(s, width);
    assert r[|r| - |s|..] == s;
    RepeatIsUniform('0', width - |s|);
  }

  /** `'0' * (width - len(str(n))) + str(n)`, and `'%0*d' % (width, n)` for n >= 0. */
  function PadInt(n: int, width: int): string
  {
    ZeroPad(IntToString(n), width)
  }

  lemma {:induction false} DigitsValueOfZeros(z: string)
    requires forall i :: 0 <= i < |z| ==> z[i] == '0'
    ensures AllDigits(z) && DigitsValue(z) == 0
    decreases |z|
  {
    if z != [] {
      DigitsValueOfZeros(z[..|z| - 1]);
    }
  }

  /** Leading zeros do not change the number a digit string denotes. */
  lemma {:induction false} DigitsValueLeadingZeros(z: string, s: string)
    requires forall i :: 0 <= i < |z| ==> z[i] == '0'
    requires AllDigits(s)
    ensures AllDigits(z + s) && DigitsValue(z + s) == DigitsValue(s)
    decreases |s|
  {
    if s == [] {
      assert z + s == z;
      DigitsValueOfZeros(z);
    } else {
      DigitsValueLeadingZeros(z, s[..|s| - 1]);
      assert (z + s)[..|z + s| - 1] == z + s[..|s| - 1];
    }
  }

  lemma ConcatAssoc<T>(x: seq<T>, y: seq<T>, z: seq<T>)
    ensures (x + y) + z == x + (y + z)
  {
  }

  /** Distributing a product over its last unit, kept apart so that proofs by induction
      over a length do not have to find it among their other facts. */
  lemma MulPred(a: int, b: int)
    ensures a * (b - 1) + a == a * b
  {
  }

  lemma MulMono(a: nat, b: int, c: int)
    requires b <= c
    ensures a * b <= a * c
  {
    assert a * c - a * b == a * (c - b);
  }

  function Pow10(k: nat): (p: nat)
    ensures p >= 1
  {
    if k == 0 then 1 else 10 * Pow10(k - 1)
  }

  /** A number below 10^k has at most k digits; one at or above 10^(k-1) has at least k. */
  lemma {:induction false} NatToStringLength(n: nat, k: nat)
    ensures n < Pow10(k) && k >= 1 ==> |NatToString(n)| <= k
    ensures k >= 1 && Pow10(k - 1) <= n ==> |NatToString(n)| >= k
    decreases k
  {
    if k >= 2 {
      NatToStringLength(n / 10, k - 1);
    }
  }

  /** For 0 <= x < 10^width the zero-padded decimal text has exactly `width` characters
      and denotes x. */
  lemma ZeroPadNat(x: nat, width: nat)
    requires 1 <= width && x < Pow10(width)
    ensures var r := ZeroPad(NatToString(x), width);
      |r| == width && AllDigits(r) && DigitsValue(r) == x
  {
    NatToStringLength(x, width);
    NatToStringDigits(x);
    var s := NatToString(x);
    RepeatIsUniform('0', width - |s|);
    DigitsValueLeadingZeros(Repeat('0', width - |s|), s);
  }

  /** For 0 <= x < 10^width, PadInt gives exactly `width` digits denoting x. */
  lemma PadIntDigits(x: int, width: nat)
    requires 1 <= width && 0 <= x < Pow10(width)
    ensures |PadInt(x, width)| == width && AllDigits(PadInt(x, width))
    ensures DigitsValue(PadInt(x, width)) == x
  {
    ZeroPadNat(x, width);
  }
}
