/** The `posixpath` functions the scripts use: `basename`, two-argument `join` and the
    root part of `splitext`. */
module Paths {
  import opened PyText

  /** Python's `p.rfind(c)`: the last index holding `c`, or -1. */
  function RFind(p: string, c: char): (r: int)
    ensures -1 <= r < |p|
    ensures r >= 0 ==> p[r] == c
    ensures forall i :: r < i < |p| ==> p[i] != c
    decreases |p|
  {
    if p == [] then -1
    else if p[|p| - 1] == c then |p| - 1
    else RFind(p[..|p| - 1], c)
  }

  /** `os.path.basename(p)`: what follows the last '/'. */
  function Basename(p: string): (b: string)
    ensures '/' !in b
    ensures EndsWith(p, b)
  {
    var k := RFind(p, '/') + 1;
    var b := p[k..];
    assert p[|p| - |b|..] == b;
    forall i | 0 <= i < |b|
      ensures b[i] != '/'
    {
      assert b[i] == p[k + i];
    }
    b
  }

  /** `os.path.join(a, b)`. */
  function Join(a: string, b: string): string
  {
    if StartsWith(b, "/") then b
    else if a == [] || EndsWith(a, "/") then a + b
    else a + "/" + b
  }

  /** `os.path.splitext(p)[0]`: `p` without the extension of its last component, where a
      dot that only starts a run of leading dots is no extension. */
  function SplitExtRoot(p: string): string
  {
    var sep := RFind(p, '/');
    var dot := RFind(p, '.');
    if sep < dot && exists i :: sep + 1 <= i < dot && p[i] != '.' then p[..dot] else p
  }

  /** The base name of a name joined under a directory is the name itself. */
  lemma BasenameOfJoin(dir: string, name: string)
    requires '/' !in name
    ensures Basename(Join(dir, name)) == name
  {
    var j := Join(dir, name);
    if |name| >= 1 {
      assert name[..1][0] == name[0];
    }
    assert !StartsWith(name, "/");
    if dir == [] || EndsWith(dir, "/") {
      assert j == dir + name;
    } else {
      assert j == dir + "/" + name;
    }
    assert j[|j| - |name|..] == name;
    assert forall i :: |j| - |name| <= i < |j| ==> j[i] == name[i - (|j| - |name|)];
    if |name| < |j| {
      assert j[|j| - |name| - 1] == '/';
    }
    assert RFind(j, '/') == |j| - |name| - 1;
  }

  /** Dropping the extension of `dir/stem.ext` gives `dir/stem` when neither `ext` nor
      `stem` holds a '/', `ext` holds no '.', and `stem` does not start with '.'. */
  lemma SplitExtRootOfName(dir: string, stem: string, ext: string)
    requires stem != [] && stem[0] != '.'
    requires '/' !in stem && '/' !in ext && '.' !in ext
    ensures SplitExtRoot(Join(dir, stem + "." + ext)) == Join(dir, stem)
  {
    var name := stem + "." + ext;
    assert name[..1][0] == name[0];
    assert stem[..1][0] == stem[0];
    var prefix := if dir == [] || EndsWith(dir, "/") then dir else dir + "/";
    assert Join(dir, name) == prefix + name;
    assert Join(dir, stem) == prefix + stem;
    var p := prefix + name;
    assert forall i :: |prefix| <= i < |p| ==> p[i] == name[i - |prefix|];
    assert forall i :: |prefix| <= i < |p| ==> p[i] != '/';
    if prefix != [] {
      assert p[|prefix| - 1] == '/';
    }
    assert RFind(p, '/') == |prefix| - 1;
    assert p[|prefix| + |stem|] == '.';
    assert forall i :: |prefix| + |stem| < i < |p| ==> p[i] == ext[i - |prefix| - |stem| - 1];
    assert RFind(p, '.') == |prefix| + |stem|;
    assert p[|prefix|] != '.';
    assert p[..|prefix| + |stem|] == prefix + stem;
  }
}
