/** The deterministic parts of the MODIS evapotranspiration script: the FTP directories it
    walks, the tile it picks in each, where the converted GeoTIFF goes, how a listing error
    is mapped, and the nodata remap applied to the raster band before it is written. */
module ModisEt {
  import opened Wrappers
  import opened PyText
  import Paths

  // ---------------------------------------------------------------------------
  // the directories of `main`

  /** Python's `range(lo, hi, step)` for a positive step: element i is lo + step * i, and
      there are ceil((hi - lo) / step) of them when lo < hi. */
  function Range(lo: int, hi: int, step: int): seq<int>
    requires step > 0
  {
    seq(if lo < hi then (hi - lo + step - 1) / step else 0, i => lo + step * i)
  }

  const Root := "/.autofs/NTSG_Products/MOD16/MOD16A2.105_MERRAGMAO/Y"

  /** The day part: `(3 - len(str(day))) * '0' + str(day)`. */
  function DayPart(day: int): string
  {
    PadInt(day, 3)
  }

  function DirName(year: int, day: int): string
  {
    Root + IntToString(year) + "/D" + DayPart(day) + "/"
  }

  /** The generator `(f(x, y) for x in xs for y in ys)`: x-major. */
  function Product<A, B, C>(xs: seq<A>, ys: seq<B>, f: (A, B) -> C): seq<C>
  {
    if xs == [] then []
    else seq(|ys|, j requires 0 <= j < |ys| => f(xs[0], ys[j])) + Product(xs[1..], ys, f)
  }

  /** With n == |ys|, the enumeration has n * |xs| entries. */
  lemma {:induction false} ProductLength<A, B, C>(xs: seq<A>, ys: seq<B>, f: (A, B) -> C, n: int)
    requires n == |ys|
    ensures |Product(xs, ys, f)| == n * |xs|
    decreases |xs|
  {
    if xs != [] {
      ProductLength(xs[1..], ys, f, n);
      MulPred(n, |xs|);
    }
  }

  /** With n == |ys|, entry n * i + j of the x-major enumeration is f(xs[i], ys[j]). */
  lemma {:induction false} ProductIndex<A, B, C>(xs: seq<A>, ys: seq<B>, f: (A, B) -> C, n: int, i: int, j: int)
    requires n == |ys|
    requires 0 <= i < |xs| && 0 <= j < n
    ensures n * i + j < |Product(xs, ys, f)|
    ensures Product(xs, ys, f)[n * i + j] == f(xs[i], ys[j])
    decreases |xs|
  {
    var row := seq(n, q requires 0 <= q < n => f(xs[0], ys[q]));
    var rest := Product(xs[1..], ys, f);
    assert Product(xs, ys, f) == row + rest;
    ProductLength(xs, ys, f, n);
    MulPred(n, i + 1);
    MulMono(n, i + 1, |xs|);
    if i > 0 {
      ProductIndex(xs[1..], ys, f, n, i - 1, j);
      MulPred(n, i);
      IndexAfter(row, rest, n * i + j);
    }
  }

  lemma ProductEntry<A, B, C>(xs: seq<A>, ys: seq<B>, f: (A, B) -> C, k: int)
    requires |ys| == 46 && 0 <= k < 46 * |xs|
    ensures k < |Product(xs, ys, f)|
    ensures Product(xs, ys, f)[k] == f(xs[k / 46], ys[k % 46])
  {
    var i, j := k / 46, k % 46;
    assert 46 * i + j == k;
    ProductIndex(xs, ys, f, 46, i, j);
  }

  lemma IndexAfter<T>(x: seq<T>, y: seq<T>, k: int)
    requires |x| <= k < |x| + |y|
    ensures (x + y)[k] == y[k - |x|]
  {
  }

  const FirstYear := 2000
  const EndYear := 2014
  const DayStep := 8
  /** `range(2000, 2014)` and `range(1, 365, 8)`. */
  const Years := Range(FirstYear, EndYear, 1)
  const Days := Range(1, 365, DayStep)

  /** One (year, composite period) pair of the enumeration. */
  datatype Period = Period(year: int, day: int)

  function Periods(): seq<Period>
  {
    Product(Years, Days, (year, day) => Period(year, day))
  }

  /** `dirs` of `main`: one directory per period, in the same order. */
  function Dirs(): seq<string>
  {
    var ps := Periods();
    seq(|ps|, k requires 0 <= k < |ps| => DirName(ps[k].year, ps[k].day))
  }

  /** 14 years of 46 composite periods each, year-major: entry k is year 2000 + k / 46 and
      day 1 + 8 * (k % 46). */
  lemma PeriodsEnumeration()
    ensures |Periods()| == 644
    ensures forall k :: 0 <= k < 644 ==> Periods()[k] == Period(2000 + k / 46, 1 + 8 * (k % 46))
  {
    PeriodsLength();
    forall k | 0 <= k < 644
      ensures Periods()[k] == Period(2000 + k / 46, 1 + 8 * (k % 46))
    {
      PeriodAt(k);
    }
  }

  lemma PeriodAt(k: int)
    requires 0 <= k < 644
    ensures k < |Periods()| && Periods()[k] == Period(2000 + k / 46, 1 + 8 * (k % 46))
  {
    PeriodsLength();
    SplitIndex(k);
    RangeAt(FirstYear, EndYear, 1, k / 46);
    RangeAt(1, 365, DayStep, k % 46);
    ProductEntry(Years, Days, (year, day) => Period(year, day), k);
  }

  lemma PeriodsLength()
    ensures |Years| == 14 && |Days| == 46
    ensures |Periods()| == 644
  {
    ProductLength(Years, Days, (year, day) => Period(year, day), 46);
  }

  /** Directory k is the one of year 2000 + k / 46 and day 1 + 8 * (k % 46). */
  lemma DirsEnumeration(k: int)
    requires 0 <= k < 644
    ensures |Dirs()| == 644
    ensures Dirs()[k] == DirName(2000 + k / 46, 1 + 8 * (k % 46))
  {
    PeriodsLength();
    PeriodAt(k);
    var p := Periods()[k];
    assert Dirs()[k] == DirName(p.year, p.day);
  }

  lemma SplitIndex(k: int)
    requires 0 <= k < 644
    ensures 0 <= k / 46 < 14 && 0 <= k % 46 < 46 && 46 * (k / 46) + k % 46 == k
  {
  }

  lemma RangeAt(lo: int, hi: int, step: int, i: int)
    requires step > 0 && 0 <= i < |Range(lo, hi, step)|
    ensures Range(lo, hi, step)[i] == lo + step * i
  {
  }

  /** Every day in the enumeration is written with exactly three digits (D001 ... D361)
      and the directory ends with '/'. */
  lemma DirNameShape(year: int, day: int)
    requires day in Range(1, 365, DayStep)
    ensures var d := DayPart(day); |d| == 3 && AllDigits(d) && DigitsValue(d) == day
    ensures EndsWith(DirName(year, day), "/")
    ensures StartsWith(DirName(year, day), Root)
  {
    assert 1 <= day < 365;
    assert Pow10(3) == 1000;
    PadIntDigits(day, 3);
    var n := DirName(year, day);
    assert n[|n| - 1..] == "/";
    assert n[..|Root|] == Root;
  }

  // ---------------------------------------------------------------------------
  // the listing of a directory

  const NoFilesMessage := "550 No files found"

  /** `ftplist`: the outcome of `nlst()` mapped to what the function returns. Only the
      permanent error with exactly the text "550 No files found" becomes an empty list. */
  function FtpList(nlst: Result<seq<string>>): (r: Result<seq<string>>)
    ensures nlst.Ok? ==> r == nlst
    ensures r.Ok? && nlst.Err? <==> nlst == Err(PermanentFtpError(NoFilesMessage))
    ensures r.Ok? && nlst.Err? ==> r.value == []
    ensures r.Err? ==> r == nlst
  {
    match nlst
    case Ok(files) => Ok(files)
    case Err(PermanentFtpError(message)) =>
      if message == NoFilesMessage then Ok([]) else Err(PermanentFtpError(message))
    case Err(e) => Err(e)
  }

  // ---------------------------------------------------------------------------
  // the tile

  const Tile := "h26v06"

  /** `next(f for f in files if tile in f)`, as the index of the chosen name. */
  function FirstWith(files: seq<string>, tile: string): (r: Option<nat>)
    ensures r.Some? ==> r.value < |files| && Contains(files[r.value], tile)
    ensures r.Some? ==> forall j :: 0 <= j < r.value ==> !Contains(files[j], tile)
    ensures r.None? ==> forall j :: 0 <= j < |files| ==> !Contains(files[j], tile)
  {
    if files == [] then None
    else if Contains(files[0], tile) then Some(0)
    else match FirstWith(files[1..], tile)
      case None => None
      case Some(i) => Some(i + 1)
  }

  /** The chosen name, or StopIteration when no listed name holds the tile code. */
  function PickTile(files: seq<string>, tile: string): (r: Result<string>)
    ensures r.Ok? <==> exists j :: 0 <= j < |files| && Contains(files[j], tile)
    ensures r.Err? ==> r.error == StopIteration
    ensures r.Ok? ==> r.value in files && Contains(r.value, tile)
  {
    match FirstWith(files, tile)
    case None => Err(StopIteration)
    case Some(i) => Ok(files[i])
  }

  // ---------------------------------------------------------------------------
  // the GeoTIFF path

  function GeotiffPath(datadir: string, dir: string, filename: string): string
  {
    Paths.Join(datadir, Paths.Basename(Paths.SplitExtRoot(Paths.Join(dir, filename))) + "-sd1.tif")
  }

  /** For a listed `stem.ext` the GeoTIFF is `datadir/stem-sd1.tif`, whatever the directory. */
  lemma GeotiffPathOfName(datadir: string, dir: string, stem: string, ext: string)
    requires stem != [] && stem[0] != '.'
    requires '/' !in stem && '/' !in ext && '.' !in ext
    ensures GeotiffPath(datadir, dir, stem + "." + ext) == Paths.Join(datadir, stem + "-sd1.tif")
  {
    Paths.SplitExtRootOfName(dir, stem, ext);
    Paths.BasenameOfJoin(dir, stem);
  }

  // ---------------------------------------------------------------------------
  // the download plan of `main`

  /** One directory's work: the remote file, the local name and the GeoTIFF path. */
  datatype Job = Job(remote: string, local: string, geotiff: string)

  /** The work of `main` for one directory whose listing is `files`: the job, or the error
      that ends the loop (the listing's error, or StopIteration when no name holds the tile). */
  function DirJob(dir: string, files: Result<seq<string>>, datadir: string): Result<Job>
  {
    var listed :- FtpList(files);
    var picked :- PickTile(listed, Tile);
    Ok(Job(Paths.Join(dir, picked), picked, GeotiffPath(datadir, dir, picked)))
  }

  /** A job downloads the listed name holding the tile into `dir`'s path, and its GeoTIFF
      goes next to the data directory; a listing error is passed on unchanged. */
  lemma DirJobSpec(dir: string, files: Result<seq<string>>, datadir: string)
    ensures var r := DirJob(dir, files, datadir);
      (r.Ok? <==> FtpList(files).Ok? && PickTile(FtpList(files).value, Tile).Ok?) &&
      (r.Ok? ==>
        PickTile(FtpList(files).value, Tile) == Ok(r.value.local) &&
        r.value.remote == Paths.Join(dir, r.value.local) &&
        r.value.geotiff == GeotiffPath(datadir, dir, r.value.local)) &&
      (r.Err? && FtpList(files).Err? ==> r.error == FtpList(files).error) &&
      (r.Err? && FtpList(files).Ok? ==> r.error == StopIteration)
  {
  }

  /** The loop of `main` over `dirs`, given what listing each directory returns: it yields
      each directory's job and stops at the first directory that has none. */
  function Plan(dirs: seq<string>, listing: string -> Result<seq<string>>, datadir: string): Yielded<Job>
  {
    Until(dirs, dir => DirJob(dir, listing(dir), datadir))
  }

  /** The jobs are those of the leading directories, in order, and the run ends either after
      the last directory or at the first directory without a job, with its error. */
  lemma PlanJobs(dirs: seq<string>, listing: string -> Result<seq<string>>, datadir: string)
    ensures var r := Plan(dirs, listing, datadir);
      |r.items| <= |dirs| &&
      (forall i :: 0 <= i < |r.items| ==> DirJob(dirs[i], listing(dirs[i]), datadir) == Ok(r.items[i])) &&
      (r.stop.None? <==> |r.items| == |dirs|) &&
      (r.stop.Some? ==>
         |r.items| < |dirs| &&
         DirJob(dirs[|r.items|], listing(dirs[|r.items|]), datadir) == Err(r.stop.value))
  {
    UntilSpec(dirs, dir => DirJob(dir, listing(dir), datadir));
  }

  // ---------------------------------------------------------------------------
  // the nodata remap of `hdf_subdataset_extraction`

  const SourceNoData: real := -28672.0
  const NoData: real := -32768.0

  function Remapped(x: real): (y: real)
    ensures y != SourceNoData
    ensures x != SourceNoData ==> y == x
  {
    if x == SourceNoData then NoData else x
  }

  /** `band_array[band_array == -28672] = -32768`, in place. */
  method RemapNoData(band: array2<real>)
    modifies band
    ensures forall i, j :: 0 <= i < band.Length0 && 0 <= j < band.Length1 ==>
      band[i, j] == Remapped(old(band[i, j]))
  {
    var i := 0;
    while i < band.Length0
      invariant 0 <= i <= band.Length0
      invariant forall p, q :: 0 <= p < i && 0 <= q < band.Length1 ==> band[p, q] == Remapped(old(band[p, q]))
      invariant forall p, q :: i <= p < band.Length0 && 0 <= q < band.Length1 ==> band[p, q] == old(band[p, q])
    {
      var j := 0;
      while j < band.Length1
        invariant 0 <= j <= band.Length1
        invariant forall p, q :: 0 <= p < i && 0 <= q < band.Length1 ==> band[p, q] == Remapped(old(band[p, q]))
        invariant forall q :: 0 <= q < j ==> band[i, q] == Remapped(old(band[i, q]))
        invariant forall q :: j <= q < band.Length1 ==> band[i, q] == old(band[i, q])
        invariant forall p, q :: i < p < band.Length0 && 0 <= q < band.Length1 ==> band[p, q] == old(band[p, q])
      {
        if band[i, j] == SourceNoData {
          band[i, j] := NoData;
        }
        j := j + 1;
      }
      i := i + 1;
    }
  }

  /** Remapping twice changes nothing more, and no cell keeps the source's nodata value. */
  lemma RemapIdempotent(x: real)
    ensures Remapped(Remapped(x)) == Remapped(x)
    ensures Remapped(x) == x <==> x != SourceNoData
  {
  }
}
