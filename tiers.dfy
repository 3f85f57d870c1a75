/** Tiered base directories for a dataset (utils/filesystem.py): a "hot" and a
    "cold" root per platform, joined with the dataset name, created when absent. */
module Tiers {
  import opened PyStr
  import opened PyPath
  import opened Disk

  /** The tiers, in the order they are resolved. */
  const TIERS: seq<string> := ["hot", "cold"]

  predicate IsTier(tier: string) { tier == "hot" || tier == "cold" }

  /** The platform root of a tier: drive letters on Windows, `/<tier>data` elsewhere. */
  function Root(windows: bool, tier: string): (r: string)
    requires IsTier(tier)
    ensures windows ==> r == (if tier == "hot" then "D:/" else "E:/")
    ensures !windows ==> r == "/" + tier + "data"
  {
    if windows then (if tier == "hot" then "D:/" else "E:/") else "/" + tier + "data"
  }

  /** The directory of `dataset` on a tier; the bare root for an empty dataset.
      Both Windows roots end in '/', so joining there is concatenation. */
  function TierPath(windows: bool, tier: string, dataset: string): string
    requires IsTier(tier)
  {
    var root := Root(windows, tier);
    if dataset == [] then root
    else if windows then root + dataset
    else Join(root, dataset)
  }

  /** What is printed while resolving. */
  datatype Warning =
    | CouldNotCreate(path: string)             // makedirs raised PermissionError
    | NotAvailable(tier: string, path: string) // the path does not exist afterwards

  /** The file system after resolving a prefix of the tiers, the map built so
      far, the warnings printed, and whether an uncaught exception ended it. */
  datatype Resolution = Resolution(fs: FsState, paths: map<string, string>, warnings: seq<Warning>, raised: bool)

  /** One iteration of the loop over the tiers. */
  function ResolveStep(r: Resolution, refused: Refusals, windows: bool, dataset: string, tier: string): Resolution
    requires IsTier(tier)
  {
    if r.raised then r
    else
      var path := TierPath(windows, tier, dataset);
      var (fs, made) := MakeDirs(r.fs, refused, path);
      if made == FileInTheWay || made == CreateFailed then r.(raised := true)
      else
        var w1 := if made == PermissionDenied then [CouldNotCreate(path)] else [];
        var w2 := if !Exists(fs, path) then [NotAvailable(tier, path)] else [];
        Resolution(fs, r.paths[tier := path], r.warnings + w1 + w2, false)
  }

  /** The loop over `tiers`, from the initial file system. */
  function Resolve(st: FsState, refused: Refusals, windows: bool, dataset: string, tiers: seq<string>): Resolution
    requires forall i :: 0 <= i < |tiers| ==> IsTier(tiers[i])
    decreases |tiers|
  {
    if tiers == [] then Resolution(st, map[], [], false)
    else ResolveStep(Resolve(st, refused, windows, dataset, tiers[..|tiers| - 1]), refused, windows, dataset, tiers[|tiers| - 1])
  }

  /** `filesystem_data_paths(dataset)`: creates each tier directory when it can,
      warns when it cannot, and maps every tier to its path regardless. */
  method FilesystemDataPaths(disk: Disk, windows: bool, dataset: string)
    returns (paths: map<string, string>, warnings: seq<Warning>, raised: bool)
    modifies disk
    ensures Resolution(disk.State(), paths, warnings, raised) == Resolve(old(disk.State()), disk.refused, windows, dataset, TIERS)
    ensures !raised ==> paths.Keys == {"hot", "cold"}
    ensures !raised ==> paths["hot"] == TierPath(windows, "hot", dataset) && paths["cold"] == TierPath(windows, "cold", dataset)
  {
    paths, warnings, raised := map[], [], false;
    var i := 0;
    while i < |TIERS|
      invariant 0 <= i <= |TIERS|
      invariant !raised
      invariant Resolution(disk.State(), paths, warnings, raised) == Resolve(old(disk.State()), disk.refused, windows, dataset, TIERS[..i])
    {
      var tier := TIERS[i];
      ResolveSnoc(old(disk.State()), disk.refused, windows, dataset, i);
      var path := TierPath(windows, tier, dataset);
      var made := disk.MakeDirsAt(path);
      if made == FileInTheWay || made == CreateFailed {
        raised := true;
        ResolveAfterRaise(old(disk.State()), disk.refused, windows, dataset, TIERS, i + 1);
        assert TIERS[..|TIERS|] == TIERS;
        return;
      }
      if made == PermissionDenied {
        warnings := warnings + [CouldNotCreate(path)];
      }
      if !(path in disk.files || path in disk.dirs) {
        warnings := warnings + [NotAvailable(tier, path)];
      }
      paths := paths[tier := path];
      i := i + 1;
    }
    assert TIERS[..|TIERS|] == TIERS;
    ResolvedMap(old(disk.State()), disk.refused, windows, dataset);
  }

  lemma ResolveSnoc(st: FsState, refused: Refusals, windows: bool, dataset: string, i: nat)
    requires i < |TIERS|
    ensures Resolve(st, refused, windows, dataset, TIERS[..i + 1])
         == ResolveStep(Resolve(st, refused, windows, dataset, TIERS[..i]), refused, windows, dataset, TIERS[i])
  {
    assert TIERS[..i + 1][..i] == TIERS[..i];
  }

  /** Once an exception has escaped, the remaining tiers change nothing. */
  lemma {:induction false} ResolveAfterRaise(st: FsState, refused: Refusals, windows: bool, dataset: string, tiers: seq<string>, k: nat)
    requires forall i :: 0 <= i < |tiers| ==> IsTier(tiers[i])
    requires k <= |tiers| && Resolve(st, refused, windows, dataset, tiers[..k]).raised
    ensures Resolve(st, refused, windows, dataset, tiers) == Resolve(st, refused, windows, dataset, tiers[..k])
    decreases |tiers|
  {
    if k < |tiers| {
      var p := tiers[..|tiers| - 1];
      assert p[..k] == tiers[..k];
      ResolveAfterRaise(st, refused, windows, dataset, p, k);
    } else {
      assert tiers[..k] == tiers;
    }
  }

  /** Warn-but-return: unless an exception escaped, both tiers are in the map
      with their paths, whether or not their directories could be created. */
  lemma ResolvedMap(st: FsState, refused: Refusals, windows: bool, dataset: string)
    ensures var r := Resolve(st, refused, windows, dataset, TIERS);
      !r.raised ==> r.paths == map["hot" := TierPath(windows, "hot", dataset), "cold" := TierPath(windows, "cold", dataset)]
  {
    assert TIERS[..1] == ["hot"] && TIERS[..1][..0] == [];
  }

  /** Resolving one tier raises FileExistsError when a regular file and no
      directory sits at its path. For a path that is not a regular file it
      raises exactly when the directory is absent and fails to be created
      with an error other than PermissionError. Otherwise there is a
      CouldNotCreate and a NotAvailable warning exactly when the directory is
      absent and may not be created, and else the directory exists
      afterwards. */
  lemma ResolveStepWarnings(r: Resolution, refused: Refusals, windows: bool, dataset: string, tier: string)
    requires IsTier(tier) && !r.raised
    ensures var path := TierPath(windows, tier, dataset);
      path in r.fs.files && path !in r.fs.dirs ==> ResolveStep(r, refused, windows, dataset, tier).raised
    ensures var path := TierPath(windows, tier, dataset);
      var r' := ResolveStep(r, refused, windows, dataset, tier);
      path !in r.fs.files ==>
      && (r'.raised <==> path !in r.fs.dirs && path in refused && refused[path] == OtherOSError)
      && (!r'.raised ==>
        && r'.warnings == r.warnings + (if path !in r.fs.dirs && path in refused then [CouldNotCreate(path), NotAvailable(tier, path)] else [])
        && r'.fs.files == r.fs.files
        && r'.fs.dirs == r.fs.dirs + (if path in refused then {} else {path}))
  {
  }

  /** Over both tiers: an exception escapes exactly when a tier directory is
      absent and fails with an error other than PermissionError. Otherwise the
      warnings are exactly those for tier directories that were absent and
      could not be created, one CouldNotCreate and one NotAvailable each. */
  lemma WarningsExact(st: FsState, refused: Refusals, windows: bool, dataset: string)
    requires var h := TierPath(windows, "hot", dataset); var c := TierPath(windows, "cold", dataset);
      h != c && h !in st.files && c !in st.files
    ensures var r := Resolve(st, refused, windows, dataset, TIERS);
      var h := TierPath(windows, "hot", dataset); var c := TierPath(windows, "cold", dataset);
      && (r.raised <==> ((h !in st.dirs && h in refused && refused[h] == OtherOSError)
                      || (c !in st.dirs && c in refused && refused[c] == OtherOSError)))
      && (!r.raised ==>
        && r.warnings == (if h !in st.dirs && h in refused then [CouldNotCreate(h), NotAvailable("hot", h)] else [])
                       + (if c !in st.dirs && c in refused then [CouldNotCreate(c), NotAvailable("cold", c)] else [])
        && r.fs.files == st.files
        && r.fs.dirs == st.dirs + (if h in refused then {} else {h}) + (if c in refused then {} else {c}))
  {
    var h := TierPath(windows, "hot", dataset);
    var c := TierPath(windows, "cold", dataset);
    var r0 := Resolution(st, map[], [], false);
    assert TIERS[..1] == ["hot"] && TIERS[..1][..0] == [] && TIERS[..2] == TIERS;
    ResolveStepWarnings(r0, refused, windows, dataset, "hot");
    var r1 := ResolveStep(r0, refused, windows, dataset, "hot");
    assert Resolve(st, refused, windows, dataset, TIERS[..1]) == r1;
    if !r1.raised {
      ResolveStepWarnings(r1, refused, windows, dataset, "cold");
      assert c !in r1.fs.dirs <==> c !in st.dirs;
    }
  }

  /** The hot and cold paths differ unless the dataset is an absolute POSIX
      path, which `os.path.join` lets replace both roots. */
  lemma TierPathsDistinct(windows: bool, dataset: string)
    requires windows || !StartsWith(dataset, "/")
    ensures TierPath(windows, "hot", dataset) != TierPath(windows, "cold", dataset)
  {
    var h := TierPath(windows, "hot", dataset);
    var c := TierPath(windows, "cold", dataset);
    if windows {
      assert h[0] == 'D' && c[0] == 'E';
    } else {
      PosixTierPathStart("hot", dataset);
      PosixTierPathStart("cold", dataset);
      assert h[..8][1] == 'h' && c[..9][1] == 'c';
    }
  }

  /** On POSIX a relative dataset keeps the tier root at the front of the path. */
  lemma PosixTierPathStart(tier: string, dataset: string)
    requires IsTier(tier) && !StartsWith(dataset, "/")
    ensures StartsWith(TierPath(false, tier, dataset), "/" + tier + "data")
  {
    JoinSpec("/" + tier + "data", dataset);
  }

  /** An absolute dataset name makes both tiers the same directory on POSIX. */
  lemma AbsoluteDatasetCollapsesTiers(dataset: string)
    requires StartsWith(dataset, "/")
    ensures TierPath(false, "hot", dataset) == dataset == TierPath(false, "cold", dataset)
  {
  }
}
