/** The PI-XML writer of `utils/pixml.py`: `header`, which builds the header dictionary of
    one time series, `create`, which turns a dictionary of event lists and a dictionary of
    headers into series (consuming both dictionaries as it goes), appends each to a temporary
    file and splices that file into the serialised root element, and `remove_xml_version`,
    which strips the XML declarations the per-series serialisation leaves in a file.

    XML serialisation is a parameter (`serialize`, and the lines of the serialised root);
    what is modelled is everything the code itself decides: which header entries exist,
    their order, the start and end dates, the events, which dictionary keys are consumed,
    which errors stop the run, and how the lines are copied. */
module PiXmlUtils {
  import opened Wrappers
  import opened PyText
  import opened PyValue
  import opened Calendar
  import opened PyFile
  import opened PyDict

  // ---------------------------------------------------------------------------
  // header

  /** The arguments of `header`: its named parameters, then the extra keyword arguments. */
  datatype HeaderArgs = HeaderArgs(
    kind: Value, moduleInstanceId: Value, locationId: Value, parameterId: Value,
    timeStepUnit: Value, timeStepMultiplier: Value, missVal: Value, stationName: Value,
    lat: Value, lon: Value, units: Value, extra: map<string, Value>)

  /** A call that gives only extra keyword arguments: every parameter at its default. */
  function DefaultArgs(extra: map<string, Value>): HeaderArgs
  {
    HeaderArgs(Str("instantaneous"), Null, Null, Null, Str("nonequidistant"), Null,
               Float("-999.0"), Null, Null, Null, Null, extra)
  }

  /** The names of `header`'s own parameters: Python binds a keyword argument with one of
      these names to the parameter, so none of them can reach the extra keyword arguments. */
  const ParameterNames: set<string> :=
    {"type", "moduleInstanceId", "locationId", "parameterId", "timeStep_unit", "timeStep_multiplier",
     "missVal", "stationName", "lat", "lon", "units"}

  /** The keys `header` always sets, over any extra keyword argument of the same name. */
  const FixedKeys: set<string> :=
    {"type", "timeStep", "missVal", "locationId", "parameterId", "stationName", "lat", "lon",
     "units", "startDate", "endDate"}

  predicate MissingRequired(a: HeaderArgs)
  {
    a.locationId == Null || a.parameterId == Null || a.stationName == Null ||
    a.lat == Null || a.lon == Null || a.units == Null
  }

  /** The `timeStep` entry: its unit, and a multiplier only when that is truthy. */
  function TimeStep(unit: Value, multiplier: Value): (r: Value)
    ensures r.Dict? && 1 <= |r.items| <= 2 && r.items[0] == ("unit", unit)
    ensures |r.items| == 2 <==> Truthy(multiplier)
    ensures |r.items| == 2 ==> r.items[1] == ("multiplier", multiplier)
  {
    Dict([("unit", unit)] + if Truthy(multiplier) then [("multiplier", multiplier)] else [])
  }

  /** `header(...)`: a TypeError exactly when a required field is None (a falsy value that
      is not None passes); otherwise the extra keyword arguments, overridden by the fixed
      keys, and `moduleInstanceId` only when it is truthy. */
  function Header(a: HeaderArgs): (r: Result<map<string, Value>>)
    requires a.extra.Keys !! ParameterNames
    ensures r.Err? <==> MissingRequired(a)
    ensures r.Err? ==> r.error == TypeError
  {
    if MissingRequired(a) then Err(TypeError)
    else
      var d := a.extra + FixedEntries(a);
      Ok(if Truthy(a.moduleInstanceId) then d["moduleInstanceId" := a.moduleInstanceId] else d)
  }

  /** The entries `header` sets whatever the extra keyword arguments are. */
  function FixedEntries(a: HeaderArgs): map<string, Value>
  {
    map[
      "type" := a.kind, "timeStep" := TimeStep(a.timeStepUnit, a.timeStepMultiplier),
      "missVal" := a.missVal, "locationId" := a.locationId, "parameterId" := a.parameterId,
      "stationName" := a.stationName, "lat" := a.lat, "lon" := a.lon, "units" := a.units,
      "startDate" := Null, "endDate" := Null]
  }

  /** The header holds the extra keyword arguments, the fixed keys, and `moduleInstanceId`
      exactly when that is truthy; the extra arguments the fixed keys do not override keep
      their value. */
  lemma HeaderKeys(a: HeaderArgs)
    requires a.extra.Keys !! ParameterNames && !MissingRequired(a)
    ensures Header(a).value.Keys ==
      a.extra.Keys + FixedKeys + (if Truthy(a.moduleInstanceId) then {"moduleInstanceId"} else {})
    ensures forall k :: k in a.extra && k !in FixedKeys ==> Header(a).value[k] == a.extra[k]
  {
    assert FixedEntries(a).Keys == FixedKeys;
    assert "moduleInstanceId" in ParameterNames;
  }

  /** Each fixed key holds its argument: the time step as its dictionary, both dates None. */
  lemma HeaderFields(a: HeaderArgs)
    requires a.extra.Keys !! ParameterNames && !MissingRequired(a)
    ensures var h := Header(a).value;
      h["startDate"] == Null && h["endDate"] == Null &&
      h["timeStep"] == TimeStep(a.timeStepUnit, a.timeStepMultiplier) &&
      h["type"] == a.kind && h["missVal"] == a.missVal && h["locationId"] == a.locationId &&
      h["parameterId"] == a.parameterId && h["stationName"] == a.stationName &&
      h["lat"] == a.lat && h["lon"] == a.lon && h["units"] == a.units &&
      (Truthy(a.moduleInstanceId) ==> h["moduleInstanceId"] == a.moduleInstanceId)
  {
    var f := FixedEntries(a);
    assert "moduleInstanceId" !in f;
  }

  // ---------------------------------------------------------------------------
  // create: the elements of one series

  /** One event of `values[key]`: `{"datetime": .., "value": .., "flag": ..}`. */
  datatype Record = Record(datetime: DateTime, value: Value, flag: Value)

  /** `<event date=.. time=.. value=.. flag=../>`. */
  datatype EventElement = EventElement(date: string, time: string, value: string, flag: string)

  type Attributes = seq<(string, Value)>

  /** A header element: with text, or with attributes (`Element(**val_dict)`). */
  datatype HeaderElement =
    | Text(name: string, text: string)
    | Attributed(name: string, attributes: Attributes)

  datatype Series = Series(header: seq<HeaderElement>, events: seq<EventElement>)

  /** The order of the header elements, before filtering. */
  const Order: seq<string> :=
    ["type", "moduleInstanceId", "locationId", "parameterId", "timeStep", "startDate", "endDate",
     "missVal", "stationName", "lat", "lon", "units"]

  /** `[x for x in names if x in d]`. */
  function Filter(names: seq<string>, d: map<string, Value>): seq<string>
    decreases |names|
  {
    if names == [] then []
    else
      var rest := Filter(names[..|names| - 1], d);
      var last := names[|names| - 1];
      if last in d then rest + [last] else rest
  }

  /** `xs` can be had from `ys` by leaving elements out. */
  predicate IsSubsequence(xs: seq<string>, ys: seq<string>)
    decreases |ys|
  {
    if xs == [] then true
    else if ys == [] then false
    else if xs[|xs| - 1] == ys[|ys| - 1] then IsSubsequence(xs[..|xs| - 1], ys[..|ys| - 1])
    else IsSubsequence(xs, ys[..|ys| - 1])
  }

  /** The header order of `create`: the fixed order, filtered by the keys of the first
      header dictionary. */
  function HeaderOrder(first: map<string, Value>): seq<string>
  {
    Filter(Order, first)
  }

  /** The filter keeps exactly the names present in the dictionary, in their order. */
  lemma {:induction false} FilterSpec(names: seq<string>, d: map<string, Value>)
    ensures forall x :: x in Filter(names, d) <==> x in names && x in d
    ensures IsSubsequence(Filter(names, d), names)
    decreases |names|
  {
    if names != [] {
      var init := names[..|names| - 1];
      var last := names[|names| - 1];
      FilterSpec(init, d);
      assert forall x :: x in names <==> x in init || x == last;
      var rest := Filter(init, d);
      if last in d {
        assert (rest + [last])[..|rest|] == rest;
      } else {
        SubsequenceOfInit(rest, names);
      }
    }
  }

  lemma SubsequenceOfInit(xs: seq<string>, ys: seq<string>)
    requires ys != [] && IsSubsequence(xs, ys[..|ys| - 1])
    ensures IsSubsequence(xs, ys)
    decreases |ys|, 0
  {
    if xs != [] && xs[|xs| - 1] == ys[|ys| - 1] {
      SubsequenceDropLast(xs, ys[..|ys| - 1]);
    }
  }

  lemma {:induction false} SubsequenceDropLast(xs: seq<string>, ys: seq<string>)
    requires xs != [] && IsSubsequence(xs, ys)
    ensures IsSubsequence(xs[..|xs| - 1], ys)
    decreases |ys|, 1
  {
    var init := xs[..|xs| - 1];
    if ys != [] {
      if xs[|xs| - 1] == ys[|ys| - 1] {
        SubsequenceOfInit(init, ys);
      } else {
        SubsequenceDropLast(xs, ys[..|ys| - 1]);
        SubsequenceOfInit(init, ys);
      }
    }
  }

  /** The header order lists, in the fixed order, the known names the first header has;
      `x` and `y` never appear. */
  lemma HeaderOrderSpec(first: map<string, Value>)
    ensures forall x :: x in HeaderOrder(first) <==> x in Order && x in first
    ensures IsSubsequence(HeaderOrder(first), Order)
    ensures "x" !in HeaderOrder(first) && "y" !in HeaderOrder(first)
  {
    FilterSpec(Order, first);
  }

  /** On a dictionary holding every name, the filter keeps them all. */
  lemma {:induction false} FilterAll(names: seq<string>, d: map<string, Value>)
    requires forall i :: 0 <= i < |names| ==> names[i] in d
    ensures Filter(names, d) == names
    decreases |names|
  {
    if names != [] {
      FilterAll(names[..|names| - 1], d);
      assert names[..|names| - 1] + [names[|names| - 1]] == names;
    }
  }

  /** On a dictionary missing exactly one of the names, the filter drops just it. */
  lemma {:induction false} FilterAllBut(names: seq<string>, d: map<string, Value>, x: string)
    requires forall i :: 0 <= i < |names| ==> (names[i] in d <==> names[i] != x)
    ensures Filter(names, d) == WithoutAll(names, [x])
    decreases |names|
  {
    if names != [] {
      FilterAllBut(names[..|names| - 1], d, x);
    }
  }

  /** When the first header comes from `header`, every series is written with all twelve
      elements, or with all but `moduleInstanceId` when that was not truthy. */
  lemma HeaderOrderOfHeader(a: HeaderArgs)
    requires a.extra.Keys !! ParameterNames && !MissingRequired(a)
    ensures Truthy(a.moduleInstanceId) ==> HeaderOrder(Header(a).value) == Order
    ensures !Truthy(a.moduleInstanceId) ==>
      HeaderOrder(Header(a).value) == WithoutAll(Order, ["moduleInstanceId"])
  {
    HeaderKeys(a);
    var d := Header(a).value;
    assert forall i :: 0 <= i < |Order| ==> (Order[i] in FixedKeys <==> Order[i] != "moduleInstanceId");
    if Truthy(a.moduleInstanceId) {
      FilterAll(Order, d);
    } else {
      FilterAllBut(Order, d, "moduleInstanceId");
    }
  }

  /** One event element: `strftime('%Y-%m-%d %H:%M:%S').split(' ')` for date and time,
      and `str` of value and flag. */
  function EventOf(r: Record): EventElement
  {
    EventElement(IsoDate(r.datetime), ClockTime(r.datetime), Show(r.value), Show(r.flag))
  }

  function EventsOf(recs: seq<Record>): (r: seq<EventElement>)
    ensures |r| == |recs|
  {
    seq(|recs|, i requires 0 <= i < |recs| => EventOf(recs[i]))
  }

  /** For years 1..9999 the two halves of `strftime('%Y-%m-%d %H:%M:%S')` hold no blank,
      so splitting at the blank gives exactly the date and the time. */
  lemma StrftimeSplit(t: DateTime)
    requires Valid(t) && InRange(t.year)
    ensures Split(IsoDate(t) + " " + ClockTime(t), ' ') == [IsoDate(t), ClockTime(t)]
  {
    assert Pow10(2) == 100 && Pow10(4) == 10000;
    PadIntDigits(t.year, 4);
    PadIntDigits(t.month, 2);
    PadIntDigits(t.day, 2);
    PadIntDigits(t.hour, 2);
    PadIntDigits(t.minute, 2);
    PadIntDigits(t.second, 2);
    NoBlankInDigits(PadInt(t.year, 4));
    NoBlankInDigits(PadInt(t.month, 2));
    NoBlankInDigits(PadInt(t.day, 2));
    NoBlankInDigits(PadInt(t.hour, 2));
    NoBlankInDigits(PadInt(t.minute, 2));
    NoBlankInDigits(PadInt(t.second, 2));
    assert ' ' !in IsoDate(t);
    assert ' ' !in ClockTime(t);
    SplitPieceThenSeparator(IsoDate(t), ' ', ClockTime(t));
    SplitNoSeparator(ClockTime(t), ' ');
  }

  lemma NoBlankInDigits(s: string)
    requires AllDigits(s)
    ensures ' ' !in s
  {
    forall i | 0 <= i < |s|
      ensures s[i] != ' '
    {
      assert IsDigit(s[i]);
    }
  }

  /** `datetime.datetime(1, 1, 1)`, where `max_date` starts. */
  const Epoch := DateTime(1, 1, 1, 0, 0, 0)

  /** Python's `min(a, b)`: `a` unless `b` is earlier. */
  function Min(a: DateTime, b: DateTime): DateTime
  {
    if Before(b, a) then b else a
  }

  /** Python's `max(a, b)`: `a` unless `b` is later. */
  function Max(a: DateTime, b: DateTime): DateTime
  {
    if Before(a, b) then b else a
  }

  /** `min_date` after the loop over the events: the minimum of `start` and the dates. */
  function MinDate(start: DateTime, recs: seq<Record>): DateTime
    decreases |recs|
  {
    if recs == [] then start
    else Min(MinDate(start, recs[..|recs| - 1]), recs[|recs| - 1].datetime)
  }

  /** `max_date` after the loop over the events: the maximum of `start` and the dates. */
  function MaxDate(start: DateTime, recs: seq<Record>): DateTime
    decreases |recs|
  {
    if recs == [] then start
    else Max(MaxDate(start, recs[..|recs| - 1]), recs[|recs| - 1].datetime)
  }

  lemma NotAfterTransitive(a: DateTime, b: DateTime, c: DateTime)
    requires NotAfter(a, b) && NotAfter(b, c)
    ensures NotAfter(a, c)
  {
    BeforeIsStrictTotalOrder(a, b, c);
  }

  /** The start date is the earliest of `now` and the event dates, and is one of them. */
  lemma {:induction false} MinDateSpec(start: DateTime, recs: seq<Record>)
    ensures NotAfter(MinDate(start, recs), start)
    ensures forall i :: 0 <= i < |recs| ==> NotAfter(MinDate(start, recs), recs[i].datetime)
    ensures MinDate(start, recs) == start ||
      exists i :: 0 <= i < |recs| && MinDate(start, recs) == recs[i].datetime
    decreases |recs|
  {
    if recs != [] {
      var init := recs[..|recs| - 1];
      var last := recs[|recs| - 1].datetime;
      var m := MinDate(start, init);
      MinDateSpec(start, init);
      BeforeIsStrictTotalOrder(m, last, m);
      var r := MinDate(start, recs);
      assert NotAfter(r, m) && NotAfter(r, last);
      NotAfterTransitive(r, m, start);
      forall i | 0 <= i < |recs|
        ensures NotAfter(r, recs[i].datetime)
      {
        if i < |recs| - 1 {
          assert recs[i] == init[i];
          NotAfterTransitive(r, m, recs[i].datetime);
        }
      }
      if r != last && m != start {
        var j :| 0 <= j < |init| && m == init[j].datetime;
        assert recs[j] == init[j];
      }
    }
  }

  /** The end date is the latest of 0001-01-01 and the event dates, and is one of them. */
  lemma {:induction false} MaxDateSpec(start: DateTime, recs: seq<Record>)
    ensures NotAfter(start, MaxDate(start, recs))
    ensures forall i :: 0 <= i < |recs| ==> NotAfter(recs[i].datetime, MaxDate(start, recs))
    ensures MaxDate(start, recs) == start ||
      exists i :: 0 <= i < |recs| && MaxDate(start, recs) == recs[i].datetime
    decreases |recs|
  {
    if recs != [] {
      var init := recs[..|recs| - 1];
      var last := recs[|recs| - 1].datetime;
      var m := MaxDate(start, init);
      MaxDateSpec(start, init);
      BeforeIsStrictTotalOrder(m, last, m);
      var r := MaxDate(start, recs);
      assert NotAfter(m, r) && NotAfter(last, r);
      NotAfterTransitive(start, m, r);
      forall i | 0 <= i < |recs|
        ensures NotAfter(recs[i].datetime, r)
      {
        if i < |recs| - 1 {
          assert recs[i] == init[i];
          NotAfterTransitive(recs[i].datetime, m, r);
        }
      }
      if r != last && m != start {
        var j :| 0 <= j < |init| && m == init[j].datetime;
        assert recs[j] == init[j];
      }
    }
  }

  /** The inner loop over `values[key]`: the events in input order, and the running
      minimum and maximum of the dates from `now` and 0001-01-01. */
  method CollectEvents(recs: seq<Record>, now: DateTime)
    returns (events: seq<EventElement>, minDate: DateTime, maxDate: DateTime)
    ensures events == EventsOf(recs)
    ensures minDate == MinDate(now, recs) && maxDate == MaxDate(Epoch, recs)
  {
    events := [];
    minDate := now;
    maxDate := Epoch;
    var i := 0;
    while i < |recs|
      invariant 0 <= i <= |recs|
      invariant events == EventsOf(recs[..i])
      invariant minDate == MinDate(now, recs[..i]) && maxDate == MaxDate(Epoch, recs[..i])
    {
      CollectEventsStep(recs, i, now);
      minDate := Min(minDate, recs[i].datetime);
      maxDate := Max(maxDate, recs[i].datetime);
      events := events + [EventOf(recs[i])];
      i := i + 1;
    }
    assert recs[..i] == recs;
  }

  /** One more record: one more event, and the running minimum and maximum take its date. */
  lemma CollectEventsStep(recs: seq<Record>, i: nat, now: DateTime)
    requires i < |recs|
    ensures EventsOf(recs[..i + 1]) == EventsOf(recs[..i]) + [EventOf(recs[i])]
    ensures MinDate(now, recs[..i + 1]) == Min(MinDate(now, recs[..i]), recs[i].datetime)
    ensures MaxDate(Epoch, recs[..i + 1]) == Max(MaxDate(Epoch, recs[..i]), recs[i].datetime)
  {
    var front := recs[..i + 1];
    assert front[..i] == recs[..i];
    assert front[i] == recs[i];
  }

  /** `{"date": date, "time": time}` of a date. */
  function DateAttributes(t: DateTime): Attributes
  {
    [("date", Str(IsoDate(t))), ("time", Str(ClockTime(t)))]
  }

  /** One round of the loop over the header order. `bound` is what `val_dict` holds from
      earlier rounds, of this series or of an earlier one (None while it is unbound). The
      dates and `timeStep` give attributes and rebind `val_dict`; any other name gives its
      `str` as text, except that an empty text falls back to the attributes in `val_dict`
      (UnboundLocalError, a NameError, when there are none yet). A missing name is a
      KeyError and a `timeStep` that is not a dictionary a TypeError. */
  function HeaderStep(name: string, h: map<string, Value>, minDate: DateTime, maxDate: DateTime,
                      bound: Option<Attributes>): Result<(HeaderElement, Option<Attributes>)>
  {
    if name == "startDate" then
      Ok((Attributed(name, DateAttributes(minDate)), Some(DateAttributes(minDate))))
    else if name == "endDate" then
      Ok((Attributed(name, DateAttributes(maxDate)), Some(DateAttributes(maxDate))))
    else if name == "timeStep" then
      var v :- Get(h, name);
      match v
      case Dict(items) => Ok((Attributed(name, items), Some(items)))
      case _ => Err(TypeError)
    else
      var v :- Get(h, name);
      var text := Show(v);
      if text != "" then Ok((Text(name, text), bound))
      else
        match bound
        case Some(attributes) => Ok((Attributed(name, attributes), bound))
        case None => Err(NameError)
  }

  /** The loop over the header order: the elements, and what `val_dict` holds afterwards. */
  function HeaderElementsOf(names: seq<string>, h: map<string, Value>, minDate: DateTime,
                            maxDate: DateTime, bound: Option<Attributes>)
    : Result<(seq<HeaderElement>, Option<Attributes>)>
    decreases |names|
  {
    if names == [] then Ok(([], bound))
    else
      var (e, next) :- HeaderStep(names[0], h, minDate, maxDate, bound);
      var (rest, final) :- HeaderElementsOf(names[1..], h, minDate, maxDate, next);
      Ok(([e] + rest, final))
  }

  /** The header element `create` writes for a name when nothing goes wrong. */
  function ExpectedElement(name: string, h: map<string, Value>, minDate: DateTime,
                           maxDate: DateTime): HeaderElement
    requires WellFormedEntry(name, h)
  {
    if name == "startDate" then Attributed(name, DateAttributes(minDate))
    else if name == "endDate" then Attributed(name, DateAttributes(maxDate))
    else if name == "timeStep" then Attributed(name, h[name].items)
    else Text(name, Show(h[name]))
  }

  /** A name `create` can write without error or fallback: a date, or present in the
      header, `timeStep` as a dictionary and every other name with a non-empty `str`. */
  predicate WellFormedEntry(name: string, h: map<string, Value>)
  {
    name == "startDate" || name == "endDate" ||
    (name in h && (name == "timeStep" ==> h[name].Dict?) && (name != "timeStep" ==> Show(h[name]) != ""))
  }

  /** When every name is well formed, the header holds one element per name, in order:
      the dates as attributes of the minimum and maximum, `timeStep` as attributes of its
      dictionary, and every other entry as its `str`. */
  lemma {:induction false} HeaderElementsWellFormed(names: seq<string>, h: map<string, Value>,
                                                    minDate: DateTime, maxDate: DateTime,
                                                    bound: Option<Attributes>)
    requires forall i :: 0 <= i < |names| ==> WellFormedEntry(names[i], h)
    ensures HeaderElementsOf(names, h, minDate, maxDate, bound).Ok?
    ensures var es := HeaderElementsOf(names, h, minDate, maxDate, bound).value.0;
      |es| == |names| && forall i :: 0 <= i < |names| ==> es[i] == ExpectedElement(names[i], h, minDate, maxDate)
    decreases |names|
  {
    if names != [] {
      HeaderStepWellFormed(names[0], h, minDate, maxDate, bound);
      var step := HeaderStep(names[0], h, minDate, maxDate, bound);
      assert forall i :: 0 <= i < |names[1..]| ==> names[1..][i] == names[i + 1];
      HeaderElementsWellFormed(names[1..], h, minDate, maxDate, step.value.1);
    }
  }

  lemma HeaderStepWellFormed(name: string, h: map<string, Value>, minDate: DateTime,
                              maxDate: DateTime, bound: Option<Attributes>)
    requires WellFormedEntry(name, h)
    ensures HeaderStep(name, h, minDate, maxDate, bound).Ok?
    ensures HeaderStep(name, h, minDate, maxDate, bound).value.0 == ExpectedElement(name, h, minDate, maxDate)
  {
  }

  /** A missing name (neither date) stops the header with a KeyError when every name
      before it is well formed. */
  lemma {:induction false} HeaderElementsMissing(names: seq<string>, h: map<string, Value>,
                                                 minDate: DateTime, maxDate: DateTime,
                                                 bound: Option<Attributes>, j: int)
    requires 0 <= j < |names| && names[j] !in h && names[j] != "startDate" && names[j] != "endDate"
    requires forall i :: 0 <= i < j ==> WellFormedEntry(names[i], h)
    ensures HeaderElementsOf(names, h, minDate, maxDate, bound) == Err(KeyError)
    decreases |names|
  {
    if j > 0 {
      HeaderStepWellFormed(names[0], h, minDate, maxDate, bound);
      var step := HeaderStep(names[0], h, minDate, maxDate, bound);
      assert forall i :: 0 <= i < |names[1..]| ==> names[1..][i] == names[i + 1];
      HeaderElementsMissing(names[1..], h, minDate, maxDate, step.value.1, j - 1);
      HeaderElementsPassesError(names, h, minDate, maxDate, bound);
    } else {
      HeaderStepMissing(names[0], h, minDate, maxDate, bound);
    }
  }

  /** After a first element, an error in the rest is the error of the whole. */
  lemma HeaderElementsPassesError(names: seq<string>, h: map<string, Value>, minDate: DateTime,
                                  maxDate: DateTime, bound: Option<Attributes>)
    requires names != [] && HeaderStep(names[0], h, minDate, maxDate, bound).Ok?
    ensures var next := HeaderStep(names[0], h, minDate, maxDate, bound).value.1;
      HeaderElementsOf(names[1..], h, minDate, maxDate, next).Err? ==>
        HeaderElementsOf(names, h, minDate, maxDate, bound) == HeaderElementsOf(names[1..], h, minDate, maxDate, next)
  {
  }

  lemma HeaderStepMissing(name: string, h: map<string, Value>, minDate: DateTime, maxDate: DateTime,
                          bound: Option<Attributes>)
    requires name !in h && name != "startDate" && name != "endDate"
    ensures HeaderStep(name, h, minDate, maxDate, bound) == Err(KeyError)
  {
  }

  /** An entry whose `str` is empty, such as `units=""`, is written with the attributes of
      the element before it: here those of `timeStep`. */
  lemma EmptyTextReusesAttributes(h: map<string, Value>, minDate: DateTime, maxDate: DateTime,
                                  items: Attributes)
    requires "timeStep" in h && h["timeStep"] == Dict(items)
    requires "units" in h && h["units"] == Str("")
    ensures HeaderElementsOf(["timeStep", "units"], h, minDate, maxDate, None) ==
      Ok(([Attributed("timeStep", items), Attributed("units", items)], Some(items)))
  {
    var names := ["timeStep", "units"];
    assert names[1..] == ["units"];
    assert ["units"][1..] == [];
    assert Show(Str("")) == "";
    var first := HeaderStep("timeStep", h, minDate, maxDate, None);
    assert first == Ok((Attributed("timeStep", items), Some(items)));
    var second := HeaderStep("units", h, minDate, maxDate, Some(items));
    assert second == Ok((Attributed("units", items), Some(items)));
    assert HeaderElementsOf([], h, minDate, maxDate, Some(items)) == Ok(([], Some(items)));
    var unitsOnly: seq<HeaderElement> := [Attributed("units", items)];
    assert unitsOnly + [] == unitsOnly;
    assert ["units"][0] == "units" && names[0] == "timeStep";
    assert HeaderElementsOf(["units"], h, minDate, maxDate, Some(items)) ==
      Ok(([Attributed("units", items)], Some(items)));
    assert HeaderElementsOf(names, h, minDate, maxDate, None) ==
      Ok(([Attributed("timeStep", items)] + unitsOnly, Some(items)));
    assert [Attributed("timeStep", items)] + unitsOnly ==
      [Attributed("timeStep", items), Attributed("units", items)];
  }

  /** The same entry as the first element of the first series is an UnboundLocalError. */
  lemma EmptyTextFirstIsUnbound(h: map<string, Value>, minDate: DateTime, maxDate: DateTime)
    requires "type" in h && h["type"] == Str("")
    ensures HeaderElementsOf(["type"], h, minDate, maxDate, None) == Err(NameError)
  {
  }

  /** Prefixes the elements of a successful rest of the loop. */
  function Prepend(done: seq<HeaderElement>, r: Result<(seq<HeaderElement>, Option<Attributes>)>)
    : Result<(seq<HeaderElement>, Option<Attributes>)>
  {
    match r
    case Ok((es, b)) => Ok((done + es, b))
    case Err(e) => Err(e)
  }

  /** The loop over the header order of `create`. */
  method CollectHeader(names: seq<string>, h: map<string, Value>, minDate: DateTime,
                       maxDate: DateTime, bound: Option<Attributes>)
    returns (r: Result<(seq<HeaderElement>, Option<Attributes>)>)
    ensures r == HeaderElementsOf(names, h, minDate, maxDate, bound)
  {
    var elements: seq<HeaderElement> := [];
    var current := bound;
    var i := 0;
    assert names[0..] == names;
    PrependNothing(HeaderElementsOf(names, h, minDate, maxDate, bound));
    while i < |names|
      invariant 0 <= i <= |names|
      invariant Prepend(elements, HeaderElementsOf(names[i..], h, minDate, maxDate, current)) ==
        HeaderElementsOf(names, h, minDate, maxDate, bound)
    {
      var step := HeaderStep(names[i], h, minDate, maxDate, current);
      HeaderElementsStep(names, i, h, minDate, maxDate, current, elements);
      if step.Err? {
        return Err(step.error);
      }
      elements := elements + [step.value.0];
      current := step.value.1;
      i := i + 1;
    }
    assert names[i..] == [];
    assert elements + [] == elements;
    r := Ok((elements, current));
  }

  lemma PrependNothing(r: Result<(seq<HeaderElement>, Option<Attributes>)>)
    ensures Prepend([], r) == r
  {
    if r.Ok? {
      assert [] + r.value.0 == r.value.0;
    }
  }

  /** One round of the header loop carried over to the loop's invariant. */
  lemma HeaderElementsStep(names: seq<string>, i: int, h: map<string, Value>, minDate: DateTime,
                           maxDate: DateTime, current: Option<Attributes>, done: seq<HeaderElement>)
    requires 0 <= i < |names|
    ensures var step := HeaderStep(names[i], h, minDate, maxDate, current);
      var here := Prepend(done, HeaderElementsOf(names[i..], h, minDate, maxDate, current));
      (step.Err? ==> here == Err(step.error)) &&
      (step.Ok? ==> here == Prepend(done + [step.value.0],
                                    HeaderElementsOf(names[i + 1..], h, minDate, maxDate, step.value.1)))
  {
    assert names[i..][1..] == names[i + 1..];
    var step := HeaderStep(names[i], h, minDate, maxDate, current);
    if step.Ok? {
      var rest := HeaderElementsOf(names[i + 1..], h, minDate, maxDate, step.value.1);
      if rest.Ok? {
        assert done + ([step.value.0] + rest.value.0) == (done + [step.value.0]) + rest.value.0;
      }
    }
  }

  // ---------------------------------------------------------------------------
  // create: the series, in the order of the keys of `values`

  /** One round of the loop over the keys: `headerdicts[key]` (a KeyError when missing),
      the events, then the header elements. */
  function SeriesStep(key: string, vals: map<string, seq<Record>>, hdrs: map<string, map<string, Value>>,
                      order: seq<string>, clock: string -> DateTime, bound: Option<Attributes>)
    : Result<(Series, Option<Attributes>)>
    requires key in vals
  {
    var recs := vals[key];
    var h :- Get(hdrs, key);
    var (header, next) :- HeaderElementsOf(order, h, MinDate(clock(key), recs), MaxDate(Epoch, recs), bound);
    Ok((Series(header, EventsOf(recs)), next))
  }

  /** The series written, key by key, up to the first key whose round raises. */
  function SeriesRun(keys: seq<string>, vals: map<string, seq<Record>>,
                     hdrs: map<string, map<string, Value>>, order: seq<string>, clock: string -> DateTime,
                     bound: Option<Attributes>): (r: Yielded<Series>)
    requires forall k :: k in keys ==> k in vals
    ensures |r.items| <= |keys|
    ensures r.stop.None? ==> |r.items| == |keys|
    decreases |keys|
  {
    if keys == [] then Yielded([], None)
    else
      match SeriesStep(keys[0], vals, hdrs, order, clock, bound)
      case Err(e) => Yielded([], Some(e))
      case Ok((s, next)) =>
        var rest := SeriesRun(keys[1..], vals, hdrs, order, clock, next);
        Yielded([s] + rest.items, rest.stop)
  }

  /** What `create` writes: nothing but a StopIteration when there is no header at
      all (`next(iter(headerdicts.values()))`), or else the series run with the header
      order of the first header dictionary. */
  function CreateRun(hkeys: seq<string>, hdrs: map<string, map<string, Value>>, vkeys: seq<string>,
                     vals: map<string, seq<Record>>, clock: string -> DateTime): Yielded<Series>
    requires forall k :: k in hkeys ==> k in hdrs
    requires forall k :: k in vkeys ==> k in vals
  {
    if hkeys == [] then Yielded([], Some(StopIteration))
    else SeriesRun(vkeys, vals, hdrs, HeaderOrder(hdrs[hkeys[0]]), clock, None)
  }

  /** One round for a key with a well-formed header: its series holds its events and one
      header element per name of the order. */
  lemma SeriesStepWellFormed(k: string, vals: map<string, seq<Record>>,
                             hdrs: map<string, map<string, Value>>, order: seq<string>,
                             clock: string -> DateTime, bound: Option<Attributes>)
    requires k in vals && k in hdrs
    requires forall i :: 0 <= i < |order| ==> WellFormedEntry(order[i], hdrs[k])
    ensures var step := SeriesStep(k, vals, hdrs, order, clock, bound);
      step.Ok? && step.value.0.events == EventsOf(vals[k]) && |step.value.0.header| == |order|
  {
    HeaderElementsWellFormed(order, hdrs[k], MinDate(clock(k), vals[k]), MaxDate(Epoch, vals[k]), bound);
  }

  /** A series for every key of `values` when every key has a well-formed header: each
      header follows the fixed order, and each series holds that key's events. */
  lemma {:induction false} SeriesRunWellFormed(keys: seq<string>, vals: map<string, seq<Record>>,
                                               hdrs: map<string, map<string, Value>>,
                                               order: seq<string>, clock: string -> DateTime,
                                               bound: Option<Attributes>)
    requires forall k :: k in keys ==> k in vals && k in hdrs
    requires forall k, i :: k in keys && 0 <= i < |order| ==> WellFormedEntry(order[i], hdrs[k])
    ensures var r := SeriesRun(keys, vals, hdrs, order, clock, bound);
      r.stop.None? && |r.items| == |keys| &&
      forall j :: 0 <= j < |keys| ==>
        r.items[j].events == EventsOf(vals[keys[j]]) && |r.items[j].header| == |order|
    decreases |keys|
  {
    if keys != [] {
      var k := keys[0];
      SeriesStepWellFormed(k, vals, hdrs, order, clock, bound);
      var step := SeriesStep(k, vals, hdrs, order, clock, bound);
      assert forall x :: x in keys[1..] ==> x in keys;
      SeriesRunWellFormed(keys[1..], vals, hdrs, order, clock, step.value.1);
      var rest := SeriesRun(keys[1..], vals, hdrs, order, clock, step.value.1);
      assert SeriesRun(keys, vals, hdrs, order, clock, bound).items == [step.value.0] + rest.items;
      forall j | 1 <= j < |keys|
        ensures keys[j] == keys[1..][j - 1]
      {
      }
    }
  }

  /** A key of `values` without a header stops the run there with a KeyError, after the
      series of the keys before it. */
  lemma {:induction false} SeriesRunMissingHeader(keys: seq<string>, vals: map<string, seq<Record>>,
                                                  hdrs: map<string, map<string, Value>>,
                                                  order: seq<string>, clock: string -> DateTime,
                                                  bound: Option<Attributes>, j: int)
    requires forall k :: k in keys ==> k in vals
    requires 0 <= j < |keys| && keys[j] !in hdrs
    requires forall i :: 0 <= i < j ==> keys[i] in hdrs
    requires forall i, n :: 0 <= i < j && 0 <= n < |order| ==> WellFormedEntry(order[n], hdrs[keys[i]])
    ensures var r := SeriesRun(keys, vals, hdrs, order, clock, bound);
      r.stop == Some(KeyError) && |r.items| == j
    decreases |keys|
  {
    var k := keys[0];
    if j > 0 {
      SeriesStepWellFormed(k, vals, hdrs, order, clock, bound);
      var step := SeriesStep(k, vals, hdrs, order, clock, bound);
      assert forall x :: x in keys[1..] ==> x in keys;
      assert forall i :: 0 <= i < j - 1 ==> keys[1..][i] == keys[i + 1];
      SeriesRunMissingHeader(keys[1..], vals, hdrs, order, clock, step.value.1, j - 1);
    } else {
      SeriesStepMissingHeader(k, vals, hdrs, order, clock, bound);
    }
  }

  lemma SeriesStepMissingHeader(k: string, vals: map<string, seq<Record>>,
                                hdrs: map<string, map<string, Value>>, order: seq<string>,
                                clock: string -> DateTime, bound: Option<Attributes>)
    requires k in vals && k !in hdrs
    ensures SeriesStep(k, vals, hdrs, order, clock, bound) == Err(KeyError)
  {
  }

  /** The set of a sequence's keys. */
  function KeySet(ks: seq<string>): set<string>
  {
    set k | k in ks
  }

  function SerializeAll(series: seq<Series>, serialize: Series -> string): (r: seq<string>)
    ensures |r| == |series|
  {
    seq(|series|, i requires 0 <= i < |series| => serialize(series[i]))
  }

  /** The state of the two dictionaries once the first `n` keys of `values` are done: those
      keys are gone from both, in order and entries, and nothing else is. */
  predicate Consumed(n: nat, keys: seq<string>, vals: map<string, seq<Record>>,
                     hkeys: seq<string>, hdrs: map<string, map<string, Value>>,
                     keysNow: seq<string>, valsNow: map<string, seq<Record>>,
                     hkeysNow: seq<string>, hdrsNow: map<string, map<string, Value>>)
  {
    n <= |keys| &&
    keysNow == keys[n..] && valsNow == vals - KeySet(keys[..n]) &&
    hkeysNow == WithoutAll(hkeys, keys[..n]) && hdrsNow == hdrs - KeySet(keys[..n])
  }

  /** One round of the loop over the keys: the series of `key` and what `val_dict` holds
      afterwards; a round that raises changes neither dictionary, one that succeeds deletes
      `key` from both. */
  method WriteOne(headerdicts: OrderedDict<map<string, Value>>, values: OrderedDict<seq<Record>>,
                  key: string, order: seq<string>, clock: string -> DateTime, bound: Option<Attributes>)
    returns (r: Result<(Series, Option<Attributes>)>)
    requires headerdicts.Valid() && values.Valid() && key in values.entries
    modifies headerdicts, values
    ensures headerdicts.Valid() && values.Valid()
    ensures r == SeriesStep(key, old(values.entries), old(headerdicts.entries), order, clock, bound)
    ensures r.Err? ==>
      values.keys == old(values.keys) && values.entries == old(values.entries) &&
      headerdicts.keys == old(headerdicts.keys) && headerdicts.entries == old(headerdicts.entries)
    ensures r.Ok? ==>
      values.keys == WithoutAll(old(values.keys), [key]) && values.entries == old(values.entries) - {key} &&
      headerdicts.keys == WithoutAll(old(headerdicts.keys), [key]) &&
      headerdicts.entries == old(headerdicts.entries) - {key}
  {
    var recs := values.entries[key];
    var h := headerdicts.Lookup(key);
    if h.Err? {
      return Err(h.error);
    }
    var events, minDate, maxDate := CollectEvents(recs, clock(key));
    var header := CollectHeader(order, h.value, minDate, maxDate, bound);
    if header.Err? {
      return Err(header.error);
    }
    var _ := values.Delete(key);
    var _ := headerdicts.Delete(key);
    r := Ok((Series(header.value.0, events), header.value.1));
  }

  /** `create` up to the final file: a StopIteration when there is no header, otherwise the
      loop over the keys of `values` with the header order of the first header. */
  method WriteSeries(headerdicts: OrderedDict<map<string, Value>>, values: OrderedDict<seq<Record>>,
                     clock: string -> DateTime, serialize: Series -> string, staleTmp: Option<string>)
    returns (tmp: Option<string>, stop: Option<Error>)
    requires headerdicts.Valid() && values.Valid()
    modifies headerdicts, values
    ensures headerdicts.Valid() && values.Valid()
    ensures var run := CreateRun(old(headerdicts.keys), old(headerdicts.entries), old(values.keys),
                                 old(values.entries), clock);
      stop == run.stop &&
      tmp == Appended(staleTmp, SerializeAll(run.items, serialize)) &&
      Consumed(|run.items|, old(values.keys), old(values.entries), old(headerdicts.keys),
               old(headerdicts.entries), values.keys, values.entries, headerdicts.keys,
               headerdicts.entries)
  {
    if |headerdicts.keys| == 0 {
      ConsumedNone(values.keys, values.entries, headerdicts.keys, headerdicts.entries);
      TmpNone(staleTmp, serialize);
      return staleTmp, Some(StopIteration);
    }
    var order := HeaderOrder(headerdicts.entries[headerdicts.keys[0]]);
    tmp, stop := WriteLoop(headerdicts, values, order, clock, serialize, staleTmp);
  }

  /** The loop over the keys of `values`: for each key in turn its series is appended to
      the temporary file (after whatever a failed earlier run left there), and the key is
      deleted from both dictionaries; the first round that raises ends it, with the keys of
      that round and after still in both dictionaries. */
  method WriteLoop(headerdicts: OrderedDict<map<string, Value>>, values: OrderedDict<seq<Record>>,
                   order: seq<string>, clock: string -> DateTime, serialize: Series -> string, staleTmp: Option<string>)
    returns (tmp: Option<string>, stop: Option<Error>)
    requires headerdicts.Valid() && values.Valid()
    modifies headerdicts, values
    ensures headerdicts.Valid() && values.Valid()
    ensures var run := SeriesRun(old(values.keys), old(values.entries), old(headerdicts.entries),
                                 order, clock, None);
      stop == run.stop &&
      tmp == Appended(staleTmp, SerializeAll(run.items, serialize)) &&
      Consumed(|run.items|, old(values.keys), old(values.entries), old(headerdicts.keys),
               old(headerdicts.entries), values.keys, values.entries, headerdicts.keys,
               headerdicts.entries)
  {
    tmp := staleTmp;
    ghost var hkeys := headerdicts.keys;
    ghost var hdrs := headerdicts.entries;
    ghost var vals := values.entries;
    var keys := values.keys;
    ConsumedNone(keys, vals, hkeys, hdrs);
    TmpNone(staleTmp, serialize);
    ghost var done: seq<Series> := [];
    ghost var total := SeriesRun(keys, vals, hdrs, order, clock, None);
    var bound: Option<Attributes> := None;
    assert keys[0..] == keys;
    var i := 0;
    while i < |keys|
      invariant 0 <= i <= |keys| && |done| == i
      invariant values.Valid() && headerdicts.Valid()
      invariant Consumed(i, keys, vals, hkeys, hdrs, values.keys, values.entries, headerdicts.keys,
                         headerdicts.entries)
      invariant tmp == Appended(staleTmp, SerializeAll(done, serialize))
      invariant done + SeriesRun(keys[i..], vals, hdrs, order, clock, bound).items == total.items
      invariant SeriesRun(keys[i..], vals, hdrs, order, clock, bound).stop == total.stop
    {
      var key := keys[i];
      ConsumedLookup(i, keys, vals, hkeys, hdrs, values.keys, values.entries, headerdicts.keys,
                     headerdicts.entries, order, clock, bound);
      SeriesRunStep(keys, i, vals, hdrs, order, clock, bound, done);
      ghost var keysNow, valsNow, hkeysNow, hdrsNow := values.keys, values.entries, headerdicts.keys,
                                                       headerdicts.entries;
      var step := WriteOne(headerdicts, values, key, order, clock, bound);
      if step.Err? {
        assert done + [] == done;
        return tmp, Some(step.error);
      }
      ConsumedStep(i, keys, vals, hkeys, hdrs, keysNow, valsNow, hkeysNow, hdrsNow);
      TmpStep(staleTmp, done, step.value.0, serialize);
      tmp := Some(Content(tmp) + serialize(step.value.0));
      done := done + [step.value.0];
      bound := step.value.1;
      i := i + 1;
    }
    assert keys[i..] == [];
    assert done + [] == done;
    stop := None;
  }

  lemma ConsumedNone(keys: seq<string>, vals: map<string, seq<Record>>, hkeys: seq<string>,
                     hdrs: map<string, map<string, Value>>)
    ensures Consumed(0, keys, vals, hkeys, hdrs, keys, vals, hkeys, hdrs)
  {
    assert keys[..0] == [] && keys[0..] == keys;
    assert KeySet([]) == {};
    WithoutNone(hkeys);
  }

  /** Before the round of key `n` its entries are the original ones. */
  lemma ConsumedLookup(n: nat, keys: seq<string>, vals: map<string, seq<Record>>, hkeys: seq<string>,
                       hdrs: map<string, map<string, Value>>, keysNow: seq<string>,
                       valsNow: map<string, seq<Record>>, hkeysNow: seq<string>,
                       hdrsNow: map<string, map<string, Value>>, order: seq<string>, clock: string -> DateTime,
                       bound: Option<Attributes>)
    requires Consumed(n, keys, vals, hkeys, hdrs, keysNow, valsNow, hkeysNow, hdrsNow) && n < |keys|
    requires Distinct(keys) && forall k :: k in keys ==> k in vals
    ensures keys[n] in valsNow
    ensures SeriesStep(keys[n], valsNow, hdrsNow, order, clock, bound) ==
            SeriesStep(keys[n], vals, hdrs, order, clock, bound)
  {
    KeyNotDone(keys, n);
    assert Get(hdrsNow, keys[n]) == Get(hdrs, keys[n]);
  }

  /** After a successful round of key `n` the first `n + 1` keys are done. */
  lemma ConsumedStep(n: nat, keys: seq<string>, vals: map<string, seq<Record>>, hkeys: seq<string>,
                     hdrs: map<string, map<string, Value>>, keysNow: seq<string>,
                     valsNow: map<string, seq<Record>>, hkeysNow: seq<string>,
                     hdrsNow: map<string, map<string, Value>>)
    requires Consumed(n, keys, vals, hkeys, hdrs, keysNow, valsNow, hkeysNow, hdrsNow) && n < |keys|
    requires Distinct(keys)
    ensures Consumed(n + 1, keys, vals, hkeys, hdrs, WithoutAll(keysNow, [keys[n]]), valsNow - {keys[n]},
                     WithoutAll(hkeysNow, [keys[n]]), hdrsNow - {keys[n]})
  {
    var key := keys[n];
    assert Distinct(keys[n..]);
    WithoutFirst(keys[n..]);
    assert keys[n..][1..] == keys[n + 1..];
    WithoutAllAppend(hkeys, keys[..n], key);
    assert keys[..n] + [key] == keys[..n + 1];
    assert KeySet(keys[..n + 1]) == KeySet(keys[..n]) + {key};
  }

  /** What there is of a file that may not exist. */
  function Content(file: Option<string>): string
  {
    if file.Some? then file.value else ""
  }

  /** The temporary file after the parts are appended to it (`open(.., 'a')`): as it was
      when nothing is appended, else created if need be and extended. */
  function Appended(file: Option<string>, parts: seq<string>): (r: Option<string>)
    ensures parts != [] ==> r.Some?
  {
    if parts == [] then file else Some(Content(file) + Flatten(parts))
  }

  lemma TmpNone(staleTmp: Option<string>, serialize: Series -> string)
    ensures Appended(staleTmp, SerializeAll([], serialize)) == staleTmp
  {
    assert SerializeAll([], serialize) == [];
  }

  /** Appending one series to the temporary file. */
  lemma TmpStep(staleTmp: Option<string>, done: seq<Series>, series: Series, serialize: Series -> string)
    ensures Appended(staleTmp, SerializeAll(done + [series], serialize)) ==
      Some(Content(Appended(staleTmp, SerializeAll(done, serialize))) + serialize(series))
  {
    var parts := SerializeAll(done, serialize);
    FlattenAppend(parts, serialize(series));
    assert SerializeAll(done + [series], serialize) == parts + [serialize(series)];
    assert Content(Appended(staleTmp, parts)) == Content(staleTmp) + Flatten(parts) by {
      if parts == [] {
        assert Flatten(parts) == "";
        assert Content(staleTmp) + "" == Content(staleTmp);
      }
    }
    assert Content(staleTmp) + (Flatten(parts) + serialize(series)) ==
      Content(staleTmp) + Flatten(parts) + serialize(series);
  }

  lemma WithoutNone(ks: seq<string>)
    ensures WithoutAll(ks, []) == ks
  {
    if ks != [] {
      WithoutNone(ks[..|ks| - 1]);
    }
  }

  /** The key of round i was not among the keys already deleted. */
  lemma KeyNotDone(keys: seq<string>, i: int)
    requires 0 <= i < |keys| && Distinct(keys)
    ensures keys[i] !in KeySet(keys[..i])
  {
  }

  /** One round of the key loop carried over to the loop's invariant: a round that raises
      ends the run there, and one that succeeds adds its series. */
  lemma SeriesRunStep(keys: seq<string>, i: int, vals: map<string, seq<Record>>,
                      hdrs: map<string, map<string, Value>>, order: seq<string>, clock: string -> DateTime,
                      bound: Option<Attributes>, done: seq<Series>)
    requires 0 <= i < |keys| && forall k :: k in keys ==> k in vals
    ensures forall k :: k in keys[i + 1..] ==> k in vals
    ensures var step := SeriesStep(keys[i], vals, hdrs, order, clock, bound);
      var here := SeriesRun(keys[i..], vals, hdrs, order, clock, bound);
      (step.Err? ==> here == Yielded([], Some(step.error))) &&
      (step.Ok? ==>
        var rest := SeriesRun(keys[i + 1..], vals, hdrs, order, clock, step.value.1);
        done + here.items == (done + [step.value.0]) + rest.items && here.stop == rest.stop)
  {
    assert keys[i..][1..] == keys[i + 1..];
    assert forall k :: k in keys[i + 1..] ==> k in keys;
    var step := SeriesStep(keys[i], vals, hdrs, order, clock, bound);
    if step.Ok? {
      var rest := SeriesRun(keys[i + 1..], vals, hdrs, order, clock, step.value.1);
      assert done + ([step.value.0] + rest.items) == (done + [step.value.0]) + rest.items;
    }
  }

  // ---------------------------------------------------------------------------
  // create: the final file

  /** The XML declaration with its indentation and line end, as the regular expression
      matches it. */
  const Declaration: string := "  <?xml version='1.0' encoding='utf-8'?>\n"

  /** `regex.sub("", line)`. */
  function Undeclared(line: string): string
  {
    Remove(line, Declaration)
  }

  /** What `create` writes for one line of the temporary file. */
  function Indented(line: string): string
  {
    "  " + Undeclared(line) + "\n"
  }

  function IndentAll(lines: seq<string>): (r: seq<string>)
    ensures |r| == |lines|
  {
    seq(|lines|, i requires 0 <= i < |lines| => Indented(lines[i]))
  }

  /** `begin`: the first root line, then the next two with the declaration removed and a
      line end added, joined by line ends. */
  function Begin(root: seq<string>): string
  {
    var first := if |root| >= 1 then root[..1] else root;
    var next := if |root| <= 1 then [] else root[1..if |root| < 3 then |root| else 3];
    Join(first + Terminated(next), "\n")
  }

  /** Each line with the declaration removed and a line end added. */
  function Terminated(lines: seq<string>): (r: seq<string>)
    ensures |r| == |lines|
  {
    seq(|lines|, i requires 0 <= i < |lines| => Undeclared(lines[i]) + "\n")
  }

  /** `end`: the root lines from the fourth on, joined by line ends. */
  function End(root: seq<string>): string
  {
    Join(if |root| <= 3 then [] else root[3..], "\n")
  }

  /** The file `create` writes: `begin`, every temporary line indented, then `end`. */
  function Output(tmp: string, root: seq<string>): string
  {
    Begin(root) + Flatten(IndentAll(Lines(tmp))) + End(root)
  }

  /** Each line of the temporary file is written indented, with only a declaration at its
      very end removed, and followed by one more line end (so a line that had one now
      ends in two). */
  lemma IndentedLine(line: string)
    requires IsLine(line)
    ensures EndsWith(line, Declaration) ==>
      Indented(line) == "  " + line[..|line| - |Declaration|] + "\n"
    ensures !EndsWith(line, Declaration) ==> Indented(line) == "  " + line + "\n"
  {
    RemoveFromLine(line, Declaration);
  }

  /** The lines of the serialised root hold no line end, so the regular expression changes
      none of them: `begin` is the first three root lines, with an empty line after the
      second and a line end after the third. */
  lemma BeginOfRoot(rootString: string)
    requires |Split(rootString, '\n')| >= 3
    ensures var root := Split(rootString, '\n');
      Begin(root) == root[0] + "\n" + root[1] + "\n" + "\n" + root[2] + "\n"
  {
    var root := Split(rootString, '\n');
    NoDeclarationWithoutLineEnd(root[1]);
    NoDeclarationWithoutLineEnd(root[2]);
    BeginOfLines(root);
  }

  /** `begin` of root lines whose second and third the regular expression leaves alone. */
  lemma BeginOfLines(root: seq<string>)
    requires |root| >= 3 && Undeclared(root[1]) == root[1] && Undeclared(root[2]) == root[2]
    ensures Begin(root) == root[0] + "\n" + root[1] + "\n" + "\n" + root[2] + "\n"
  {
    var parts := [root[0], root[1] + "\n", root[2] + "\n"];
    assert root[..1] == [root[0]];
    assert root[1..3] == [root[1], root[2]];
    assert Terminated([root[1], root[2]]) == [root[1] + "\n", root[2] + "\n"];
    assert [root[0]] + [root[1] + "\n", root[2] + "\n"] == parts;
    JoinThree(root[0], root[1] + "\n", root[2] + "\n", "\n");
  }

  lemma JoinThree(a: string, b: string, c: string, sep: string)
    ensures Join([a, b, c], sep) == a + sep + b + sep + c
  {
    var parts := [a, b, c];
    assert parts[1..][1..] == [c];
    assert Join(parts[1..], sep) == b + sep + c;
  }

  lemma NoDeclarationWithoutLineEnd(s: string)
    requires '\n' !in s
    ensures Undeclared(s) == s
  {
    assert !Contains(s, Declaration) by {
      forall i | 0 <= i <= |s|
        ensures !OccursAt(s, Declaration, i)
      {
        assert Declaration[|Declaration| - 1] == '\n';
        if i + |Declaration| <= |s| {
          assert s[i + |Declaration| - 1] != '\n';
          assert s[i..i + |Declaration|][|Declaration| - 1] == s[i + |Declaration| - 1];
        }
      }
    }
    RemoveAbsent(s, Declaration);
  }

  /** The copy loop over the temporary file: each line indented. */
  method CopyIndented(tmp: string) returns (out: string)
    ensures out == Flatten(IndentAll(Lines(tmp)))
  {
    var lines := Lines(tmp);
    out := "";
    var i := 0;
    while i < |lines|
      invariant 0 <= i <= |lines|
      invariant out == Flatten(IndentAll(lines[..i]))
    {
      FlattenAppend(IndentAll(lines[..i]), Indented(lines[i]));
      assert IndentAll(lines[..i + 1]) == IndentAll(lines[..i]) + [Indented(lines[i])];
      out := out + Indented(lines[i]);
      i := i + 1;
    }
    assert lines[..i] == lines;
  }

  /** `create(headerdicts, values, filename)`, given what the temporary file `filename.tmp`
      holds beforehand (None when there is none) and the lines of the serialised root.
      Returns what `filename` then holds (None when it is not opened), what the temporary
      file holds, and the exception that ends the call:
      - a round that raises leaves the temporary file with the series written so far and
        `filename` untouched;
      - when there is no temporary file to read back (no series and none beforehand)
        `filename` holds `begin` and the open raises FileNotFoundError;
      - otherwise `filename` holds `begin`, every temporary line indented, and `end`, and the
        temporary file is removed. */
  method Create(headerdicts: OrderedDict<map<string, Value>>, values: OrderedDict<seq<Record>>,
                filename: string, clock: string -> DateTime, serialize: Series -> string,
                staleTmp: Option<string>, root: seq<string>)
    returns (file: Option<string>, tmp: Option<string>, stop: Option<Error>)
    requires headerdicts.Valid() && values.Valid()
    modifies headerdicts, values
    ensures headerdicts.Valid() && values.Valid()
    ensures var run := CreateRun(old(headerdicts.keys), old(headerdicts.entries), old(values.keys),
                                 old(values.entries), clock);
      var written := Appended(staleTmp, SerializeAll(run.items, serialize));
      Consumed(|run.items|, old(values.keys), old(values.entries), old(headerdicts.keys),
               old(headerdicts.entries), values.keys, values.entries, headerdicts.keys,
               headerdicts.entries) &&
      (run.stop.Some? ==> file == None && tmp == written && stop == run.stop) &&
      (run.stop.None? && written.None? ==>
         file == Some(Begin(root)) && tmp == None && stop == Some(FileNotFound(filename + ".tmp"))) &&
      (run.stop.None? && written.Some? ==>
         file == Some(Output(written.value, root)) && tmp == None && stop == None)
  {
    tmp, stop := WriteSeries(headerdicts, values, clock, serialize, staleTmp);
    if stop.Some? {
      return None, tmp, stop;
    }
    if tmp.None? {
      return Some(Begin(root)), None, Some(FileNotFound(filename + ".tmp"));
    }
    var body := CopyIndented(tmp.value);
    file := Some(Begin(root) + body + End(root));
    tmp := None;
  }

  // ---------------------------------------------------------------------------
  // remove_xml_version

  /** What `remove_xml_version` writes, and the StopIteration that ends it when the file
      has fewer than three lines: the first two lines as they are, the third with the
      declaration removed and a line end added, every later line with the declaration
      removed. */
  function RemoveXmlVersionOf(text: string): (string, Option<Error>)
  {
    var ls := Lines(text);
    if |ls| < 3 then (Flatten(ls), Some(StopIteration))
    else (ls[0] + ls[1] + Undeclared(ls[2]) + "\n" + Flatten(UndeclaredAll(ls[3..])), None)
  }

  function UndeclaredAll(lines: seq<string>): (r: seq<string>)
    ensures |r| == |lines|
  {
    seq(|lines|, i requires 0 <= i < |lines| => Undeclared(lines[i]))
  }

  lemma UndeclaredAllStep(lines: seq<string>, a: nat, b: nat)
    requires a <= b < |lines|
    ensures UndeclaredAll(lines[a..b + 1]) == UndeclaredAll(lines[a..b]) + [Undeclared(lines[b])]
  {
    var front := lines[a..b + 1];
    assert front[..b - a] == lines[a..b];
    assert lines[a..b + 1][b - a] == lines[b];
  }

  /** `remove_xml_version`: the line-by-line copy. */
  method RemoveXmlVersion(text: string) returns (written: string, stop: Option<Error>)
    ensures (written, stop) == RemoveXmlVersionOf(text)
  {
    var lines := Lines(text);
    written := "";
    var i := 0;
    while i < 2
      invariant 0 <= i <= 2 && i <= |lines|
      invariant written == Flatten(lines[..i])
    {
      if i == |lines| {
        assert lines[..i] == lines;
        return written, Some(StopIteration);
      }
      FlattenAppend(lines[..i], lines[i]);
      assert lines[..i + 1] == lines[..i] + [lines[i]];
      written := written + lines[i];
      i := i + 1;
    }
    if |lines| == 2 {
      assert lines[..2] == lines;
      return written, Some(StopIteration);
    }
    assert Flatten(lines[..2]) == lines[0] + lines[1] by {
      assert lines[..2] == [lines[0], lines[1]];
      assert [lines[0], lines[1]][1..] == [lines[1]];
      assert Flatten([lines[1]]) == lines[1] + Flatten([]);
    }
    written := written + (Undeclared(lines[2]) + "\n");
    ghost var head := written;
    i := 3;
    while i < |lines|
      invariant 3 <= i <= |lines|
      invariant written == head + Flatten(UndeclaredAll(lines[3..i]))
    {
      FlattenAppend(UndeclaredAll(lines[3..i]), Undeclared(lines[i]));
      UndeclaredAllStep(lines, 3, i);
      written := written + Undeclared(lines[i]);
      i := i + 1;
    }
    assert lines[3..i] == lines[3..];
    assert written == lines[0] + lines[1] + Undeclared(lines[2]) + "\n" + Flatten(UndeclaredAll(lines[3..]));
    stop := None;
  }

  /** On the lines of a file, `remove_xml_version` keeps the first two lines and cuts from
      each later line only a declaration at its very end. */
  lemma RemoveXmlVersionLines(text: string, i: int)
    requires 3 <= i < |Lines(text)|
    ensures var l := Lines(text)[i];
      UndeclaredAll(Lines(text)[3..])[i - 3] ==
        if EndsWith(l, Declaration) then l[..|l| - |Declaration|] else l
  {
    LinesShape(text);
    RemoveFromLine(Lines(text)[i], Declaration);
  }
}
