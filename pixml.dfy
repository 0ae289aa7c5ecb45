/** The older PI-XML writer of `pixml.py`. Its `header` and its loop over the series are
    those of `utils/pixml.py` (`PiXmlUtils.Header`, `PiXmlUtils.WriteSeries`); it differs in
    the final file, which is the serialised root with the temporary file copied verbatim
    into it after the third line. */
module PiXml {
  import opened Wrappers
  import opened PyText
  import opened PyValue
  import opened Calendar
  import opened PyFile
  import opened PyDict
  import opened PiXmlUtils

  /** `begin`: the first three root lines, joined by line ends. */
  function Begin(root: seq<string>): string
  {
    Join(if |root| <= 3 then root else root[..3], "\n")
  }

  /** The file `create` writes: `begin`, the temporary file, then `end`. */
  function Output(tmp: string, root: seq<string>): string
  {
    Begin(root) + tmp + End(root)
  }

  /** The temporary file is copied into the serialised root in place of the line end after
      its third line. */
  lemma OutputSplicesRoot(tmp: string, rootString: string)
    requires |Split(rootString, '\n')| >= 4
    ensures var root := Split(rootString, '\n');
      var head := Join(root[..3], "\n");
      var tail := Join(root[3..], "\n");
      rootString == head + "\n" + tail && Output(tmp, root) == head + tmp + tail
  {
    var root := Split(rootString, '\n');
    JoinSplit(rootString, '\n');
    JoinConcat(root[..3], root[3..], "\n");
    assert root[..3] + root[3..] == root;
  }

  /** The copy loop over the temporary file: every line as it is. */
  method CopyLines(tmp: string) returns (out: string)
    ensures out == tmp
  {
    var lines := Lines(tmp);
    out := "";
    var i := 0;
    while i < |lines|
      invariant 0 <= i <= |lines|
      invariant out == Flatten(lines[..i])
    {
      FlattenAppend(lines[..i], lines[i]);
      assert lines[..i + 1] == lines[..i] + [lines[i]];
      out := out + lines[i];
      i := i + 1;
    }
    assert lines[..i] == lines;
    LinesFlatten(tmp);
  }

  /** `create(headerdicts, values, filename)` of `pixml.py`: as `PiXmlUtils.Create`, except
      that the final file holds the temporary file unchanged between `begin` and `end`. */
  method Create(headerdicts: OrderedDict<map<string, Value>>, values: OrderedDict<seq<Record>>,
                filename: string, clock: string -> DateTime, serialize: Series -> string,
                staleTmp: Option<string>, root: seq<string>)
    returns (file: Option<string>, tmp: Option<string>, stop: Option<Error>)
    requires headerdicts.Valid() && values.Valid()
    modifies headerdicts, values
    ensures headerdicts.Valid() && values.Valid()
    ensures var run := CreateRun(old(headerdicts.keys), old(headerdicts.entries), old(values.keys),
                                 old(values.entries), clock);
      var written := Appended(staleTmp, SerializeAll(run.items, serialize));
      Consumed(|run.items|, old(values.keys), old(values.entries), old(headerdicts.keys),
               old(headerdicts.entries), values.keys, values.entries, headerdicts.keys,
               headerdicts.entries) &&
      (run.stop.Some? ==> file == None && tmp == written && stop == run.stop) &&
      (run.stop.None? && written.None? ==>
         file == Some(Begin(root)) && tmp == None && stop == Some(FileNotFound(filename + ".tmp"))) &&
      (run.stop.None? && written.Some? ==>
         file == Some(Output(written.value, root)) && tmp == None && stop == None)
  {
    tmp, stop := WriteSeries(headerdicts, values, clock, serialize, staleTmp);
    if stop.Some? {
      return None, tmp, stop;
    }
    if tmp.None? {
      return Some(Begin(root)), None, Some(FileNotFound(filename + ".tmp"));
    }
    var body := CopyLines(tmp.value);
    file := Some(Begin(root) + body + End(root));
    tmp := None;
  }
}
