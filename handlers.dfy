/** The names `ungzip` and `untar` derive for what they write, and which files they
    remove. The decompression and extraction themselves are file I/O and are not modelled. */
module Handlers {
  import opened PyText
  import Paths

  /** `re.sub(r'\.ext$', '', s)` for a literal suffix `.ext`: `$` matches at the very end
      and also just before a final newline, and at most one of the two can match. */
  function DropSuffix(s: string, suffix: string): (r: string)
    requires |suffix| >= 1 && suffix[|suffix| - 1] != '\n'
    ensures EndsWith(s, suffix) ==> r + suffix == s
    ensures !EndsWith(s, suffix) && EndsWith(s, suffix + "\n") ==>
      EndsWith(r, "\n") && r[..|r| - 1] + suffix + "\n" == s
    ensures !EndsWith(s, suffix) && !EndsWith(s, suffix + "\n") ==> r == s
  {
    if EndsWith(s, suffix) then s[..|s| - |suffix|]
    else if EndsWith(s, suffix + "\n") then s[..|s| - |suffix| - 1] + "\n"
    else s
  }

  /** Removing a suffix that was just appended gives back the original name. */
  lemma DropAppendedSuffix(s: string, suffix: string)
    requires |suffix| >= 1 && suffix[|suffix| - 1] != '\n'
    ensures DropSuffix(s + suffix, suffix) == s
  {
    assert (s + suffix)[|s + suffix| - |suffix|..] == suffix;
  }

  /** What `ungzip(filename, remove)` writes and deletes. */
  datatype UngzipEffect = UngzipEffect(newName: string, removed: seq<string>)

  function Ungzip(filename: string, remove: bool): (r: UngzipEffect)
    ensures EndsWith(filename, ".gz") ==> r.newName + ".gz" == filename
    ensures !EndsWith(filename, ".gz") && !EndsWith(filename, ".gz\n") ==> r.newName == filename
    ensures r.removed == if remove then [filename] else []
  {
    UngzipEffect(DropSuffix(filename, ".gz"), if remove then [filename] else [])
  }

  /** Only one trailing ".gz" is removed. */
  lemma UngzipRemovesOneSuffix(stem: string)
    ensures Ungzip(stem + ".gz.gz", false).newName == stem + ".gz"
  {
    assert stem + ".gz.gz" == (stem + ".gz") + ".gz";
    DropAppendedSuffix(stem + ".gz", ".gz");
  }

  /** What `untar(file_path, download_dir)` returns and deletes, given the listing of the
      extracted directory. */
  datatype UntarEffect = UntarEffect(extractDir: string, paths: seq<string>, removed: seq<string>)

  /** `[os.path.join(dir, x) for x in listing]`. */
  function JoinAll(dir: string, listing: seq<string>): (paths: seq<string>)
    ensures |paths| == |listing|
    ensures forall i :: 0 <= i < |listing| ==> paths[i] == Paths.Join(dir, listing[i])
  {
    if listing == [] then [] else [Paths.Join(dir, listing[0])] + JoinAll(dir, listing[1..])
  }

  function Untar(filePath: string, downloadDir: string, listing: seq<string>): (r: UntarEffect)
    ensures |r.paths| == |listing|
    ensures forall i :: 0 <= i < |listing| ==> r.paths[i] == Paths.Join(r.extractDir, listing[i])
    ensures r.removed == [filePath]
  {
    var extractDir := Paths.Join(downloadDir, DropSuffix(Paths.Basename(filePath), ".tar"));
    UntarEffect(extractDir, JoinAll(extractDir, listing), [filePath])
  }

  /** The archive `name.tar` in any directory extracts to `download_dir/name`. */
  lemma UntarExtractDir(dir: string, name: string, downloadDir: string)
    requires '/' !in name
    ensures Untar(Paths.Join(dir, name + ".tar"), downloadDir, []).extractDir == Paths.Join(downloadDir, name)
  {
    Paths.BasenameOfJoin(dir, name + ".tar");
    DropAppendedSuffix(name, ".tar");
  }

  /** Every returned path names its listed entry inside the extracted directory. */
  lemma UntarPathsNameEntries(filePath: string, downloadDir: string, listing: seq<string>, i: int)
    requires 0 <= i < |listing| && '/' !in listing[i]
    ensures Paths.Basename(Untar(filePath, downloadDir, listing).paths[i]) == listing[i]
  {
    var r := Untar(filePath, downloadDir, listing);
    Paths.BasenameOfJoin(r.extractDir, listing[i]);
  }
}
