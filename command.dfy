/** The command-line and configuration helpers of `utils/command.py`: where a script's
    configuration file lives (`read_config`), the `store_to_dict` decorator, which stores the
    result of every call in a dictionary passed as a keyword argument, and `argparser`,
    which registers the arguments a configuration lists and then post-processes what
    `argparse` parsed. */
module Command {
  import opened Wrappers
  import opened PyText
  import opened PyValue
  import Paths
  import opened PyDict

  // ---------------------------------------------------------------------------
  // read_config

  /** `name.split('.')[-1]`: the last dotted component of a module name. */
  function ConfigName(name: string): (r: string)
    ensures '.' !in r
  {
    var parts := Split(name, '.');
    parts[|parts| - 1]
  }

  /** The file `read_config(name)` opens, below the repository base directory. */
  function ConfigPath(base: string, name: string): string
  {
    Paths.Join(base, "var/config/" + ConfigName(name) + "_config.json")
  }

  /** A module's configuration is named after its last component only: `a.b.noaa` and
      `noaa` share `noaa_config.json`. */
  lemma ConfigNameOfModule(package: string, module_: string)
    requires '.' !in module_
    ensures ConfigName(package + "." + module_) == module_
    ensures ConfigName(module_) == module_
  {
    SplitNoSeparator(module_, '.');
    SplitAppendPiece(package, module_);
  }

  /** Splitting `a + "." + b` where `b` has no dot ends with the piece `b`. */
  lemma {:induction false} SplitAppendPiece(a: string, b: string)
    requires '.' !in b
    ensures var parts := Split(a + "." + b, '.'); |parts| >= 2 && parts[|parts| - 1] == b
    decreases |a|
  {
    if a == [] {
      assert "" + "." + b == ['.'] + b;
      assert (['.'] + b)[1..] == b;
      SplitNoSeparator(b, '.');
    } else {
      SplitAppendPiece(a[1..], b);
      assert (a + "." + b)[1..] == a[1..] + "." + b;
    }
  }

  /** The config path ends with the module's own name and the fixed suffix. */
  lemma ConfigPathShape(base: string, name: string)
    ensures EndsWith(ConfigPath(base, name), "var/config/" + ConfigName(name) + "_config.json")
  {
    var file := "var/config/" + ConfigName(name) + "_config.json";
    assert !StartsWith(file, "/") by {
      assert file[0] == 'v';
    }
    if base == [] || EndsWith(base, "/") {
      assert (base + file)[|base + file| - |file|..] == file;
    } else {
      assert (base + "/" + file)[|base + "/" + file| - |file|..] == file;
    }
  }

  // ---------------------------------------------------------------------------
  // store_to_dict

  /** A dictionary the caller keeps and the decorator writes results into. */
  class Memo {
    var entries: map<Key, Value>

    constructor (entries: map<Key, Value>)
      ensures this.entries == entries
    {
      this.entries := entries;
    }
  }

  /** A keyword argument: a dictionary the caller holds, or any other value. */
  datatype Arg = Val(value: Value) | DictRef(memo: Memo)

  /** The key as computed: one argument, or a tuple of arguments. */
  datatype KeyArg = Single(arg: Arg) | Tuple(args: seq<Arg>)

  /** The key as stored (hashed). */
  datatype Key = One(v: Value) | Many(vs: seq<Value>)

  /** `dict_key_name`: a name (a string, which the fallback iterates character by
      character) or a tuple of names. */
  datatype KeyName = Name(name: string) | Names(names: seq<string>)

  /** What `for x in dict_key_name` iterates. */
  function TupleNames(k: KeyName): (r: seq<string>)
    ensures k.Name? ==> |r| == |k.name| && forall i :: 0 <= i < |r| ==> r[i] == [k.name[i]]
    ensures k.Names? ==> r == k.names
  {
    match k
    case Name(s) => seq(|s|, i requires 0 <= i < |s| => [s[i]])
    case Names(ns) => ns
  }

  /** `tuple(kwargs[x] for x in names)`: a KeyError at the first missing name. */
  function Lookups(kwargs: map<string, Arg>, names: seq<string>): Result<seq<Arg>>
    decreases |names|
  {
    if names == [] then Ok([])
    else
      var first :- Get(kwargs, names[0]);
      var rest :- Lookups(kwargs, names[1..]);
      Ok([first] + rest)
  }

  lemma {:induction false} LookupsSpec(kwargs: map<string, Arg>, names: seq<string>)
    ensures Lookups(kwargs, names).Ok? <==> forall i :: 0 <= i < |names| ==> names[i] in kwargs
    ensures Lookups(kwargs, names).Ok? ==>
      var args := Lookups(kwargs, names).value;
      |args| == |names| && forall i :: 0 <= i < |names| ==> args[i] == kwargs[names[i]]
    ensures Lookups(kwargs, names).Err? ==> Lookups(kwargs, names).error == KeyError
    decreases |names|
  {
    if names != [] {
      LookupsSpec(kwargs, names[1..]);
      assert forall i :: 1 <= i < |names| ==> names[i] == names[1..][i - 1];
    }
  }

  /** The key, and the keyword arguments it came from: `kwargs[dict_key_name]` when that
      name is present, otherwise the tuple of the arguments `dict_key_name` iterates. */
  function KeyOf(kwargs: map<string, Arg>, k: KeyName): Result<(KeyArg, seq<string>)>
  {
    if k.Name? && k.name in kwargs then Ok((Single(kwargs[k.name]), [k.name]))
    else
      var args :- Lookups(kwargs, TupleNames(k));
      Ok((Tuple(args), TupleNames(k)))
  }

  /** `del kwargs[x]` for each name in turn: a KeyError when a name is missing, or is
      listed twice. */
  function DeleteAll(kwargs: map<string, Arg>, names: seq<string>): Result<map<string, Arg>>
    decreases |names|
  {
    if names == [] then Ok(kwargs)
    else if names[0] !in kwargs then Err(KeyError)
    else DeleteAll(kwargs - {names[0]}, names[1..])
  }

  /** The deletions succeed exactly when the names are present and distinct, and then
      remove just those names. */
  lemma {:induction false} DeleteAllSpec(kwargs: map<string, Arg>, names: seq<string>)
    ensures DeleteAll(kwargs, names).Ok? <==>
      Distinct(names) && forall i :: 0 <= i < |names| ==> names[i] in kwargs
    ensures DeleteAll(kwargs, names).Ok? ==>
      DeleteAll(kwargs, names).value == kwargs - (set n | n in names)
    ensures DeleteAll(kwargs, names).Err? ==> DeleteAll(kwargs, names).error == KeyError
    decreases |names|
  {
    if names != [] {
      var rest := names[1..];
      var smaller := kwargs - {names[0]};
      DeleteAllSpec(smaller, rest);
      assert forall i :: 1 <= i < |names| ==> names[i] == rest[i - 1];
      if DeleteAll(kwargs, names).Ok? {
        assert smaller - (set n | n in rest) == kwargs - (set n | n in names);
      }
      if names[0] in kwargs && !Distinct(names) && Distinct(rest) {
        var i, j :| 0 <= i < j < |names| && names[i] == names[j];
        assert i == 0 && names[j] == rest[j - 1] && rest[j - 1] !in smaller;
      }
    }
  }

  /** The wrapper up to the call: the dictionary argument, the key, and the keyword
      arguments passed on, once the dictionary (always) and the key arguments (unless
      they are kept) are deleted. */
  function Prepared(kwargs: map<string, Arg>, dictName: string, keyName: KeyName, keep: bool)
    : Result<(Arg, KeyArg, map<string, Arg>)>
  {
    var d :- Get(kwargs, dictName);
    var (key, names) :- KeyOf(kwargs, keyName);
    var rest :- if keep then Ok(kwargs) else DeleteAll(kwargs, names);
    var passed :- if dictName in rest then Ok(rest - {dictName}) else Err(KeyError);
    Ok((d, key, passed))
  }

  /** `dict_[key] = result` needs a hashable key: no dictionary in it. */
  function Hash(key: KeyArg): Result<Key>
  {
    match key
    case Single(Val(v)) => if v.Dict? then Err(TypeError) else Ok(One(v))
    case Single(DictRef(_)) => Err(TypeError)
    case Tuple(args) =>
      if forall i :: 0 <= i < |args| ==> args[i].Val? && !args[i].value.Dict? then
        Ok(Many(seq(|args|, i requires 0 <= i < |args| && args[i].Val? => args[i].value)))
      else Err(TypeError)
  }

  /** With the key present as one keyword argument, that argument is the key, and it is
      passed on to the function exactly when it is kept. */
  lemma PreparedNamedKey(kwargs: map<string, Arg>, dictName: string, name: string, keep: bool)
    requires dictName in kwargs && name in kwargs && name != dictName
    ensures var p := Prepared(kwargs, dictName, Name(name), keep);
      p.Ok? && p.value.0 == kwargs[dictName] && p.value.1 == Single(kwargs[name]) &&
      p.value.2 == if keep then kwargs - {dictName} else kwargs - {name} - {dictName}
  {
    DeleteAllSpec(kwargs, [name]);
    assert (set n | n in [name]) == {name};
  }

  /** Without that argument, the key is the tuple of the arguments named by the items of
      `dict_key_name`, and missing one of them is a KeyError. */
  lemma PreparedTupleKey(kwargs: map<string, Arg>, dictName: string, keyName: KeyName)
    requires dictName in kwargs && (keyName.Name? ==> keyName.name !in kwargs)
    ensures var names := TupleNames(keyName);
      var p := Prepared(kwargs, dictName, keyName, true);
      (p.Ok? <==> forall i :: 0 <= i < |names| ==> names[i] in kwargs) &&
      (p.Err? ==> p.error == KeyError) &&
      (p.Ok? ==>
         p.value.1.Tuple? && |p.value.1.args| == |names| &&
         (forall i :: 0 <= i < |names| ==> p.value.1.args[i] == kwargs[names[i]]) &&
         p.value.2 == kwargs - {dictName})
  {
    LookupsSpec(kwargs, TupleNames(keyName));
  }

  /** The dictionary argument is never passed on, the key arguments only when kept, and
      every other argument is passed on unchanged. */
  lemma PreparedPassesRest(kwargs: map<string, Arg>, dictName: string, keyName: KeyName, keep: bool)
    requires Prepared(kwargs, dictName, keyName, keep).Ok?
    ensures var p := Prepared(kwargs, dictName, keyName, keep).value;
      var names := KeyOf(kwargs, keyName).value.1;
      dictName !in p.2 &&
      (keep ==> p.2 == kwargs - {dictName}) &&
      (!keep ==> p.2 == kwargs - (set n | n in names) - {dictName})
  {
    var names := KeyOf(kwargs, keyName).value.1;
    if !keep {
      DeleteAllSpec(kwargs, names);
    }
  }

  /** The key arguments gone while the dictionary argument is also one of them: the final
      deletion of the dictionary argument is a KeyError. */
  lemma DictNameIsKeyName(kwargs: map<string, Arg>, name: string)
    requires name in kwargs
    ensures Prepared(kwargs, name, Name(name), false) == Err(KeyError)
  {
    assert DeleteAll(kwargs, [name]) == Ok(kwargs - {name}) by {
      assert [name][1..] == [];
    }
  }

  /** The memo a call of the wrapper may write to. */
  function MemoOf(kwargs: map<string, Arg>, dictName: string): set<Memo>
  {
    if dictName in kwargs && kwargs[dictName].DictRef? then {kwargs[dictName].memo} else {}
  }

  /** The deletion loop over the items of `dict_key_name`. */
  method DeleteEach(kwargs: map<string, Arg>, names: seq<string>) returns (r: Result<map<string, Arg>>)
    ensures r == DeleteAll(kwargs, names)
  {
    var rest := kwargs;
    var i := 0;
    while i < |names|
      invariant 0 <= i <= |names|
      invariant DeleteAll(rest, names[i..]) == DeleteAll(kwargs, names)
    {
      assert names[i..][1..] == names[i + 1..];
      if names[i] !in rest {
        return Err(KeyError);
      }
      rest := rest - {names[i]};
      i := i + 1;
    }
    assert names[i..] == [];
    r := Ok(rest);
  }

  /** `store_to_dict(dict_name, dict_key_name, keep_dict_key)(function_)(**kwargs)`: the
      function is called with the prepared arguments whenever the preparation succeeds
      (there is no lookup of an earlier result); its result is then stored under the key,
      whatever it is, and returned. Nothing is stored when the preparation, the call or the
      hashing raises, or when the dictionary argument is not a dictionary. */
  method StoreToDict(kwargs: map<string, Arg>, dictName: string, keyName: KeyName, keep: bool,
                     function_: map<string, Arg> -> Result<Value>)
    returns (r: Result<Value>)
    modifies MemoOf(kwargs, dictName)
    ensures var p := Prepared(kwargs, dictName, keyName, keep);
      (p.Err? ==> r == Err(p.error)) &&
      (p.Ok? ==>
        var (d, key, passed) := p.value;
        var result := function_(passed);
        (result.Err? ==> r == result) &&
        (result.Ok? && (d.Val? || Hash(key).Err?) ==> r == Err(TypeError)) &&
        (result.Ok? && d.DictRef? && Hash(key).Ok? ==>
          r == result && d.memo.entries == old(d.memo.entries)[Hash(key).value := result.value]))
    ensures var p := Prepared(kwargs, dictName, keyName, keep);
      var stored := p.Ok? && function_(p.value.2).Ok? && p.value.0.DictRef? && Hash(p.value.1).Ok?;
      !stored ==> forall m :: m in MemoOf(kwargs, dictName) ==> m.entries == old(m.entries)
  {
    if dictName !in kwargs {
      return Err(KeyError);
    }
    var d := kwargs[dictName];
    var args := kwargs;
    var key: KeyArg;
    var names: seq<string>;
    if keyName.Name? && keyName.name in args {
      key := Single(args[keyName.name]);
      names := [keyName.name];
      if !keep {
        args := args - {keyName.name};
        assert DeleteAll(kwargs, names) == Ok(args) by {
          assert names[1..] == [];
        }
      }
    } else {
      names := TupleNames(keyName);
      var looked := Lookups(args, names);
      if looked.Err? {
        return Err(looked.error);
      }
      key := Tuple(looked.value);
      if !keep {
        var deleted := DeleteEach(args, names);
        if deleted.Err? {
          return Err(deleted.error);
        }
        args := deleted.value;
      }
    }
    if dictName !in args {
      return Err(KeyError);
    }
    args := args - {dictName};
    var result := function_(args);
    if result.Err? {
      return result;
    }
    var hashed := Hash(key);
    if d.Val? || hashed.Err? {
      return Err(TypeError);
    }
    d.memo.entries := d.memo.entries[hashed.value := result.value];
    r := result;
  }

  // ---------------------------------------------------------------------------
  // argparser: registering the arguments

  /** The option strings of each argument `argparser` knows (`parser_args`). */
  function Flags(name: string): Option<seq<string>>
  {
    match name
    case "verbose" => Some(["-v", "--verbose"])
    case "lizard_backend" => Some(["-b", "--lizard_backend"])
    case "start" => Some(["-S", "--start"])
    case "end" => Some(["-E", "--end"])
    case "start_year" => Some(["-s", "--start_year"])
    case "end_year" => Some(["-e", "--end_year"])
    case "code_types" => Some(["-t", "--code_types"])
    case "pixml" => Some(["-X", "--pixml"])
    case "password" => Some(["-p", "--password"])
    case "username" => Some(["-u", "--username"])
    case "ftp_password" => Some(["-P", "--ftp_password"])
    case "ftp_username" => Some(["-U", "--ftp_username"])
    case "organisation" => Some(["-o", "--organisation"])
    case "lat" => Some(["-L", "--lat"])
    case "lon" => Some(["-l", "--lon"])
    case "name" => Some(["-N", "--name"])
    case "code" => Some(["-C", "--code"])
    case "endpoint" => Some(["-E", "--endpoint"])
    case "access_modifier" => Some(["-M", "--access_modifier"])
    case "data_dir" => Some(["-D", "--data_dir"])
    case _ => None
  }

  /** The option strings every parser starts with. */
  const HelpFlags: seq<string> := ["-h", "--help"]

  /** Some option string of `fs` is already taken. */
  predicate Clashes(fs: seq<string>, taken: seq<string>)
  {
    exists i :: 0 <= i < |fs| && fs[i] in taken
  }

  /** The loop over `commandline_args`: `parser_args[argument]` (a KeyError for an unknown
      name), then `add_argument`, which raises an ArgumentError for an option string
      already taken. The result is the option strings taken in the end. */
  function Registered(cla: seq<string>, taken: seq<string>): Result<seq<string>>
    decreases |cla|
  {
    if cla == [] then Ok(taken)
    else
      match Flags(cla[0])
      case None => Err(KeyError)
      case Some(fs) => if Clashes(fs, taken) then Err(ArgumentError) else Registered(cla[1..], taken + fs)
  }

  /** The option strings of a list of known names, in order. */
  function AllFlags(cla: seq<string>): seq<string>
    requires forall i :: 0 <= i < |cla| ==> Flags(cla[i]).Some?
    decreases |cla|
  {
    if cla == [] then [] else Flags(cla[0]).value + AllFlags(cla[1..])
  }

  /** Registration succeeds only for known names, and then takes exactly their option
      strings; an unknown name is a KeyError and a taken option string an ArgumentError. */
  lemma RegisteredSpec(cla: seq<string>, taken: seq<string>)
    ensures Registered(cla, taken).Ok? ==>
      (forall i :: 0 <= i < |cla| ==> Flags(cla[i]).Some?) &&
      Registered(cla, taken).value == taken + AllFlags(cla)
    ensures Registered(cla, taken).Err? ==>
      Registered(cla, taken).error == KeyError || Registered(cla, taken).error == ArgumentError
    ensures (exists i :: 0 <= i < |cla| && Flags(cla[i]).None?) ==> Registered(cla, taken).Err?
  {
    RegisteredKnown(cla, taken);
    if Registered(cla, taken).Ok? {
      RegisteredTakes(cla, taken);
    }
    RegisteredErrors(cla, taken);
  }

  lemma {:induction false} RegisteredKnown(cla: seq<string>, taken: seq<string>)
    ensures Registered(cla, taken).Ok? ==> forall i :: 0 <= i < |cla| ==> Flags(cla[i]).Some?
    decreases |cla|
  {
    if cla != [] && Registered(cla, taken).Ok? {
      var rest := cla[1..];
      RegisteredKnown(rest, taken + Flags(cla[0]).value);
      forall i | 1 <= i < |cla|
        ensures Flags(cla[i]).Some?
      {
        assert cla[i] == rest[i - 1];
      }
    }
  }

  lemma {:induction false} RegisteredTakes(cla: seq<string>, taken: seq<string>)
    requires forall i :: 0 <= i < |cla| ==> Flags(cla[i]).Some?
    ensures Registered(cla, taken).Ok? ==> Registered(cla, taken).value == taken + AllFlags(cla)
    decreases |cla|
  {
    if cla != [] && Registered(cla, taken).Ok? {
      var rest, fs := cla[1..], Flags(cla[0]).value;
      assert forall i :: 0 <= i < |rest| ==> Flags(rest[i]).Some? by {
        forall i | 0 <= i < |rest|
          ensures Flags(rest[i]).Some?
        {
          assert rest[i] == cla[i + 1];
        }
      }
      RegisteredTakes(rest, taken + fs);
      ConcatAssoc(taken, fs, AllFlags(rest));
    }
  }

  lemma {:induction false} RegisteredErrors(cla: seq<string>, taken: seq<string>)
    ensures Registered(cla, taken).Err? ==>
      Registered(cla, taken).error == KeyError || Registered(cla, taken).error == ArgumentError
    decreases |cla|
  {
    if cla != [] && Flags(cla[0]).Some? && !Clashes(Flags(cla[0]).value, taken) {
      RegisteredErrors(cla[1..], taken + Flags(cla[0]).value);
    }
  }

  /** `end` and `endpoint` share `-E`: listing both is an ArgumentError. */
  lemma EndAndEndpointClash()
    ensures Registered(["end", "endpoint"], HelpFlags) == Err(ArgumentError)
  {
    var after := HelpFlags + ["-E", "--end"];
    assert !Clashes(["-E", "--end"], HelpFlags) by {
      assert "-E" != "-h" && "-E" != "--help" && "--end" != "-h" && "--end" != "--help";
    }
    assert ["end", "endpoint"][1..] == ["endpoint"];
    assert Clashes(["-E", "--endpoint"], after) by {
      assert ["-E", "--endpoint"][0] == "-E" && after[2] == "-E";
    }
  }

  /** The registration loop. */
  method Register(cla: seq<string>) returns (r: Result<seq<string>>)
    ensures r == Registered(cla, HelpFlags)
  {
    var taken := HelpFlags;
    var i := 0;
    assert cla[0..] == cla;
    while i < |cla|
      invariant 0 <= i <= |cla|
      invariant Registered(cla[i..], taken) == Registered(cla, HelpFlags)
    {
      assert cla[i..][1..] == cla[i + 1..];
      var flags := Flags(cla[i]);
      if flags.None? {
        return Err(KeyError);
      }
      if exists j :: 0 <= j < |flags.value| && flags.value[j] in taken {
        return Err(ArgumentError);
      }
      taken := taken + flags.value;
      i := i + 1;
    }
    assert cla[i..] == [];
    r := Ok(taken);
  }

  // ---------------------------------------------------------------------------
  // argparser: after parse_args

  /** `login.get(name, default)`. */
  function LoginValue(login: map<string, Value>, name: string, default: string): Value
  {
    if name in login then login[name] else Str(default)
  }

  /** The credential rule: when both arguments are listed and either parsed value is
      falsy, both are taken from the configuration's login (with defaults). */
  function Credentials(cla: seq<string>, attrs: map<string, Value>, login: map<string, Value>,
                       password: string, username: string, defaultUser: string): map<string, Value>
    requires forall n :: n in cla ==> n in attrs
  {
    if password in cla && username in cla && (!Truthy(attrs[password]) || !Truthy(attrs[username])) then
      attrs[password := LoginValue(login, password, "")][username := LoginValue(login, username, defaultUser)]
    else attrs
  }

  /** Credentials are replaced exactly when both are listed and one is falsy, then both
      from the login; nothing else changes. */
  lemma CredentialsSpec(cla: seq<string>, attrs: map<string, Value>, login: map<string, Value>,
                        password: string, username: string, defaultUser: string)
    requires forall n :: n in cla ==> n in attrs
    requires password != username
    ensures var r := Credentials(cla, attrs, login, password, username, defaultUser);
      var replace := password in cla && username in cla &&
                     (!Truthy(attrs[password]) || !Truthy(attrs[username]));
      r.Keys == attrs.Keys + (if replace then {password, username} else {}) &&
      (replace ==> r[password] == LoginValue(login, password, "") &&
                   r[username] == LoginValue(login, username, defaultUser)) &&
      (forall n :: n in attrs && n != password && n != username ==> r[n] == attrs[n]) &&
      (!replace ==> r == attrs)
  {
  }

  /** The staging backend. */
  const StagingBase: string := "https://nxt.staging.lizard.net"

  /** The backend rule, on `config['lizardbase']` (None while the configuration has none). */
  function Backend(cla: seq<string>, attrs: map<string, Value>, base: Option<string>): Result<Option<string>>
    requires forall n :: n in cla ==> n in attrs
  {
    if "lizard_backend" !in cla then Ok(base)
    else
      match attrs["lizard_backend"]
      case Str(s) =>
        if s == "production" then Ok(base)
        else if s == "staging" then Ok(Some(StagingBase))
        else if StartsWith(s, "https://") then Ok(Some(s))
        else Err(TypeError)
      case _ => Err(AttributeError)
  }

  /** A listed backend keeps the configured base for 'production', selects the staging
      base for 'staging', is used as given when it starts with 'https://', and is a
      TypeError otherwise. */
  lemma BackendSpec(cla: seq<string>, attrs: map<string, Value>, base: Option<string>, s: string)
    requires forall n :: n in cla ==> n in attrs
    requires "lizard_backend" in cla && attrs["lizard_backend"] == Str(s)
    ensures s == "production" ==> Backend(cla, attrs, base) == Ok(base)
    ensures s == "staging" ==> Backend(cla, attrs, base) == Ok(Some(StagingBase))
    ensures s != "production" && StartsWith(s, "https://") ==> Backend(cla, attrs, base) == Ok(Some(s))
    ensures Backend(cla, attrs, base).Err? <==>
      s != "production" && s != "staging" && !StartsWith(s, "https://")
    ensures Backend(cla, attrs, base).Err? ==> Backend(cla, attrs, base).error == TypeError
  {
    assert !StartsWith("staging", "https://") by {
      assert "staging"[0] != "https://"[0];
    }
  }

  /** The code rule: `args.codes` is `code_types` split at ','; it is set before the check,
      which raises a TypeError for a code the configuration does not list (a KeyError when
      the configuration lists none at all). */
  function Codes(cla: seq<string>, attrs: map<string, Value>, configCodes: Option<seq<string>>)
    : (Option<seq<string>>, Option<Error>)
    requires forall n :: n in cla ==> n in attrs
  {
    if "code_types" !in cla then (None, None)
    else
      match attrs["code_types"]
      case Str(s) =>
        var codes := Split(s, ',');
        if configCodes.None? then (Some(codes), Some(KeyError))
        else if exists i :: 0 <= i < |codes| && codes[i] !in configCodes.value then (Some(codes), Some(TypeError))
        else (Some(codes), None)
      case _ => (None, Some(AttributeError))
  }

  /** A listed `code_types` string is accepted exactly when every one of its items is a
      configured code, and joining the codes gives the string back. */
  lemma CodesSpec(cla: seq<string>, attrs: map<string, Value>, configured: seq<string>, s: string)
    requires forall n :: n in cla ==> n in attrs
    requires "code_types" in cla && attrs["code_types"] == Str(s)
    ensures var (codes, stop) := Codes(cla, attrs, Some(configured));
      codes == Some(Split(s, ',')) && Join(codes.value, ",") == s &&
      (stop.None? <==> forall c :: c in codes.value ==> c in configured) &&
      (stop.Some? ==> stop == Some(TypeError))
  {
    JoinSplit(s, ',');
  }

  /** `int(value)`: an int stays, a bool counts as 0 or 1, a string must hold a decimal
      integer (else ValueError), None and dictionaries are a TypeError. */
  function IntOf(v: Value): Result<int>
  {
    match v
    case Int(i) => Ok(i)
    case Bool(b) => Ok(if b then 1 else 0)
    case Str(s) => ToInt(s)
    case Float(_) => Err(TypeError)
    case Null => Err(TypeError)
    case Dict(_) => Err(TypeError)
  }

  /** The year rule: when `guard` is listed and the field is not None, the field is
      converted with `int`. */
  function ConvertYear(guard: string, field: string, cla: seq<string>, attrs: map<string, Value>)
    : Result<map<string, Value>>
  {
    if guard in cla && field in attrs && attrs[field] != Null then
      var i :- IntOf(attrs[field]);
      Ok(attrs[field := Int(i)])
    else if guard in cla && field !in attrs then Err(AttributeError)
    else Ok(attrs)
  }

  /** `end_year` as the code converts it: guarded by `'last_year' in commandline_args`. */
  function EndYearAsWritten(cla: seq<string>, attrs: map<string, Value>): Result<map<string, Value>>
  {
    ConvertYear("last_year", "end_year", cla, attrs)
  }

  /** `end_year` as intended: guarded by its own name, as `start_year` is. */
  function EndYear(cla: seq<string>, attrs: map<string, Value>): Result<map<string, Value>>
  {
    ConvertYear("end_year", "end_year", cla, attrs)
  }

  function StartYear(cla: seq<string>, attrs: map<string, Value>): Result<map<string, Value>>
  {
    ConvertYear("start_year", "start_year", cla, attrs)
  }

  /** A listed year given as the decimal text of `y` becomes the integer `y`; nothing else
      changes. */
  lemma YearConverted(field: string, cla: seq<string>, attrs: map<string, Value>, y: int)
    requires field in cla && field in attrs && attrs[field] == Str(IntToString(y))
    ensures ConvertYear(field, field, cla, attrs) == Ok(attrs[field := Int(y)])
  {
    ParseIntOfIntToString(y);
  }

  /** 'last_year' is no known argument, so in any registration that succeeds it is not
      listed: the guarded conversion never happens, and an `end_year` typed on the
      command line stays a string. */
  lemma EndYearNeverConverted(cla: seq<string>, attrs: map<string, Value>, y: int)
    requires Registered(cla, HelpFlags).Ok?
    ensures EndYearAsWritten(cla, attrs) == Ok(attrs)
    ensures "end_year" in cla && "end_year" in attrs && attrs["end_year"] == Str(IntToString(y)) ==>
      EndYearAsWritten(cla, attrs).value["end_year"] == Str(IntToString(y)) &&
      EndYear(cla, attrs) == Ok(attrs["end_year" := Int(y)])
  {
    RegisteredSpec(cla, HelpFlags);
    assert Flags("last_year").None?;
    assert "last_year" !in cla by {
      forall i | 0 <= i < |cla|
        ensures cla[i] != "last_year"
      {
        assert Flags(cla[i]).Some?;
      }
    }
    if "end_year" in cla && "end_year" in attrs && attrs["end_year"] == Str(IntToString(y)) {
      YearConverted("end_year", cla, attrs, y);
    }
  }

  /** What the post-processing leaves: the namespace's attributes, `args.codes` (None
      while unset), the configuration's `lizardbase`, and the exception that ends it. */
  datatype Outcome = Outcome(attrs: map<string, Value>, codes: Option<seq<string>>,
                             lizardbase: Option<string>, stop: Option<Error>)

  /** The rules after `parse_args`, in the order of the code. A raised exception ends the
      run; what was already set stays set. */
  function PostParseOf(cla: seq<string>, attrs: map<string, Value>, base: Option<string>,
                       login: map<string, Value>, configCodes: Option<seq<string>>): Outcome
    requires forall n :: n in cla ==> n in attrs
  {
    var a1 := Credentials(cla, attrs, login, "password", "username", "");
    var a2 := Credentials(cla, a1, login, "ftp_password", "ftp_username", "anomymous");
    match Backend(cla, a2, base)
    case Err(e) => Outcome(a2, None, base, Some(e))
    case Ok(base2) =>
      var (codes, stop) := Codes(cla, a2, configCodes);
      if stop.Some? then Outcome(a2, codes, base2, stop)
      else
        match StartYear(cla, a2)
        case Err(e) => Outcome(a2, codes, base2, Some(e))
        case Ok(a3) =>
          match EndYear(cla, a3)
          case Err(e) => Outcome(a3, codes, base2, Some(e))
          case Ok(a4) => Outcome(a4, codes, base2, None)
  }

  /** The namespace `parse_args` returns: one attribute per registered argument, and
      `codes` once the code rule sets it. */
  class Namespace {
    var attrs: map<string, Value>
    var codes: Option<seq<string>>

    constructor (attrs: map<string, Value>)
      ensures this.attrs == attrs && codes == None
    {
      this.attrs := attrs;
      codes := None;
    }
  }

  /** The configuration dictionary: `lizardbase` is written, the rest only read. */
  class Config {
    var lizardbase: Option<string>
    const login: map<string, Value>
    const codes: Option<seq<string>>

    constructor (lizardbase: Option<string>, login: map<string, Value>, codes: Option<seq<string>>)
      ensures this.lizardbase == lizardbase && this.login == login && this.codes == codes
    {
      this.lizardbase := lizardbase;
      this.login := login;
      this.codes := codes;
    }
  }

  /** The post-processing of `argparser`, step by step on the namespace and the
      configuration, with `end_year` converted as intended. */
  method PostParse(cla: seq<string>, args: Namespace, config: Config) returns (stop: Option<Error>)
    requires forall n :: n in cla ==> n in args.attrs
    requires args.codes == None
    modifies args, config
    ensures Outcome(args.attrs, args.codes, config.lizardbase, stop) ==
      PostParseOf(cla, old(args.attrs), old(config.lizardbase), config.login, config.codes)
  {
    ghost var a0 := args.attrs;
    if "password" in cla && "username" in cla {
      if !Truthy(args.attrs["password"]) || !Truthy(args.attrs["username"]) {
        args.attrs := args.attrs["password" := LoginValue(config.login, "password", "")];
        args.attrs := args.attrs["username" := LoginValue(config.login, "username", "")];
      }
    }
    assert args.attrs == Credentials(cla, a0, config.login, "password", "username", "");
    ghost var a1 := args.attrs;
    if "ftp_password" in cla && "ftp_username" in cla {
      if !Truthy(args.attrs["ftp_password"]) || !Truthy(args.attrs["ftp_username"]) {
        args.attrs := args.attrs["ftp_password" := LoginValue(config.login, "ftp_password", "")];
        args.attrs := args.attrs["ftp_username" := LoginValue(config.login, "ftp_username", "anomymous")];
      }
    }
    assert args.attrs == Credentials(cla, a1, config.login, "ftp_password", "ftp_username", "anomymous");
    var backend := Backend(cla, args.attrs, config.lizardbase);
    if backend.Err? {
      return Some(backend.error);
    }
    config.lizardbase := backend.value;
    var (codes, codeStop) := Codes(cla, args.attrs, config.codes);
    args.codes := codes;
    if codeStop.Some? {
      return codeStop;
    }
    var start := StartYear(cla, args.attrs);
    if start.Err? {
      return Some(start.error);
    }
    args.attrs := start.value;
    var end := EndYear(cla, args.attrs);
    if end.Err? {
      return Some(end.error);
    }
    args.attrs := end.value;
    stop := None;
  }

  /** `argparser(config)` around `parse_args`: registration, then (given what `parse_args`
      returns, an attribute per registered argument) the post-processing. */
  method Argparser(cla: seq<string>, parsed: map<string, Value>, config: Config)
    returns (args: Namespace?, stop: Option<Error>)
    requires forall n :: n in cla ==> n in parsed
    modifies config
    ensures Registered(cla, HelpFlags).Err? ==>
      args == null && stop == Some(Registered(cla, HelpFlags).error) && config.lizardbase == old(config.lizardbase)
    ensures Registered(cla, HelpFlags).Ok? ==>
      args != null && fresh(args) &&
      Outcome(args.attrs, args.codes, config.lizardbase, stop) ==
        PostParseOf(cla, parsed, old(config.lizardbase), config.login, config.codes)
  {
    var registered := Register(cla);
    if registered.Err? {
      return null, Some(registered.error);
    }
    args := new Namespace(parsed);
    stop := PostParse(cla, args, config);
  }
}
