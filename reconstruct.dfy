/** Batch conversion of a tree of Parquet files into a mirrored tree of CSV
    files (scripts/reconstruct_csvs.py). The directory walk is given as a
    sequence of directories, the conversion engine as a predicate on
    (input file, output file) telling whether its COPY succeeds. */
module Reconstruct {
  import opened PyStr
  import opened PyPath
  import opened Disk

  /** One directory reported by `os.walk(input_root)`: its path below the
      input root as a list of names (empty for the root itself), and the names
      of the files in it. Its `dirpath` is the input root joined with those names. */
  datatype WalkDir = WalkDir(rel: seq<string>, filenames: seq<string>)

  /** One file met during the walk. */
  datatype Entry = Entry(rel: seq<string>, name: string)

  /** The month filter, with `int(month)` evaluated: no filter (no month or
      an empty one), a month that is not a number, or the token to look for. */
  datatype MonthRule = AnyMonth | NotANumber | Token(token: string)

  /** The arguments of `process_all_parquet`, the month already parsed. */
  datatype Job = Job(inputRoot: string, outputRoot: string, year: Option<string>, month: MonthRule)

  /** Whether the engine's COPY from the first path to the second succeeds. */
  type Engine = (string, string) -> bool

  function Entries(d: WalkDir): seq<Entry> {
    seq(|d.filenames|, i requires 0 <= i < |d.filenames| => Entry(d.rel, d.filenames[i]))
  }

  /** The files in walk order: directory by directory, file by file. */
  function Flatten(walk: seq<WalkDir>): seq<Entry>
    decreases |walk|
  {
    if walk == [] then [] else Flatten(walk[..|walk| - 1]) + Entries(walk[|walk| - 1])
  }

  /** `f"-{m:02d}"`: a minus sign and the month, zero-padded to two characters
      (a negative number already has two characters with its sign). */
  function MonthToken(m: int): string {
    "-" + (if 0 <= m < 10 then "0" + NatToStr(m) else IntToStr(m))
  }

  /** `int(month)` and the token it gives. The parse has no side effect, so
      doing it once up front changes nothing; whether it raises is still
      decided file by file, when a file reaches the month filter. */
  function MonthRuleOf(month: Option<string>): MonthRule {
    if month.None? || month.value == [] then AnyMonth
    else match ParseInt(month.value)
      case None => NotANumber
      case Some(m) => Token(MonthToken(m))
  }

  function JobOf(inputRoot: string, outputRoot: string, year: Option<string>, month: Option<string>): Job {
    Job(inputRoot, outputRoot, year, MonthRuleOf(month))
  }

  /** What the filters make of one file name. */
  datatype Selection = Skip | Take | MonthNotANumber

  /** The three `continue` filters: the extension, the year substring and the
      month token; `int(month)` raising on a non-numeric month. */
  function Select(job: Job, name: string): Selection {
    if !EndsWith(name, ".parquet") then Skip
    else if job.year.Some? && job.year.value != [] && !Contains(name, job.year.value) then Skip
    else match job.month
      case AnyMonth => Take
      case NotANumber => MonthNotANumber
      case Token(t) => if Contains(name, t) then Take else Skip
  }

  /** `os.path.relpath(dirpath, input_root)` for a directory the walk reached
      through the names `rel`. */
  function RelPath(rel: seq<string>): string {
    if rel == [] then "." else JoinWith("/", rel)
  }

  function InFile(job: Job, e: Entry): string {
    Join(JoinAll(job.inputRoot, e.rel), e.name)
  }

  function OutDir(job: Job, e: Entry): string {
    Join(job.outputRoot, RelPath(e.rel))
  }

  /** The mirrored output path: the output root, the directory's path relative
      to the input root, and the file name with every ".parquet" made ".csv". */
  function OutFile(job: Job, e: Entry): string {
    Join(OutDir(job, e), ReplaceAll(e.name, ".parquet", ".csv"))
  }

  /** How one call of `convert_parquet_to_csv` that returns ends. */
  datatype Outcome = Skipped | Converted | Failed

  /** The exceptions that escape and end the whole batch. */
  datatype Abort =
    | BadMonth                 // ValueError from int(month)
    | DirDenied(path: string)  // PermissionError from os.makedirs
    | DirIsFile(path: string)  // FileExistsError from os.makedirs
    | DirFailed(path: string)  // any other OSError from os.makedirs

  datatype ConvertResult = Done(outcome: Outcome) | Raised(abort: Abort)

  /** `convert_parquet_to_csv(in_file, out_file)` on a snapshot. */
  function Convert(st: FsState, refused: Refusals, engine: Engine, inFile: string, outFile: string): (FsState, ConvertResult) {
    var dir := Dirname(outFile);
    var (st1, made) := MakeDirs(st, refused, dir);
    if made == PermissionDenied then (st1, Raised(DirDenied(dir)))
    else if made == FileInTheWay then (st1, Raised(DirIsFile(dir)))
    else if made == CreateFailed then (st1, Raised(DirFailed(dir)))
    else if Exists(st1, outFile) then (st1, Done(Skipped))
    else if engine(inFile, outFile) then (FsState(st1.files + {outFile}, st1.dirs), Done(Converted))
    else (st1, Done(Failed))
  }

  /** The output directory is created before the existence check, an existing
      output is left alone, and only a successful conversion adds a file. */
  lemma ConvertEffect(st: FsState, refused: Refusals, engine: Engine, inFile: string, outFile: string)
    ensures var (st2, res) := Convert(st, refused, engine, inFile, outFile);
      var dir := Dirname(outFile);
      && Grows(st, st2)
      && (res.Done? <==> dir in st.dirs || (dir !in st.files && dir !in refused))
      && (res.Done? ==> st2.dirs == st.dirs + {dir})
      && (res == Done(Skipped) <==> res.Done? && Exists(FsState(st.files, st.dirs + {dir}), outFile))
      && (res == Done(Converted) ==> st2.files == st.files + {outFile} && !Exists(st, outFile) && engine(inFile, outFile))
      && (res != Done(Converted) ==> st2.files == st.files)
      && (res == Done(Failed) ==> !engine(inFile, outFile))
  {
  }

  /** One file of the batch: the entry and how its conversion ended. */
  datatype Attempt = Attempt(entry: Entry, outcome: Outcome)

  /** The state of the batch: the file system, the files attempted so far and
      the exception that ended it, if any. */
  datatype Batch = Batch(fs: FsState, report: seq<Attempt>, abort: Option<Abort>)

  /** One iteration of the inner loop of `process_all_parquet`. */
  function Step(job: Job, refused: Refusals, engine: Engine, b: Batch, e: Entry): Batch {
    if b.abort.Some? then b
    else match Select(job, e.name)
      case Skip => b
      case MonthNotANumber => b.(abort := Some(BadMonth))
      case Take =>
        var (fs, res) := Convert(b.fs, refused, engine, InFile(job, e), OutFile(job, e));
        match res
        case Raised(a) => Batch(fs, b.report, Some(a))
        case Done(o) => Batch(fs, b.report + [Attempt(e, o)], None)
  }

  /** The batch over the files `es`, in order, from the snapshot `st`. */
  function RunAll(job: Job, refused: Refusals, engine: Engine, st: FsState, es: seq<Entry>): Batch
    decreases |es|
  {
    if es == [] then Batch(st, [], None)
    else Step(job, refused, engine, RunAll(job, refused, engine, st, es[..|es| - 1]), es[|es| - 1])
  }

  /** `convert_parquet_to_csv`: make the output directory, skip an existing
      output, otherwise run the engine and report a failure without raising. */
  method ConvertParquetToCsv(disk: Disk, engine: Engine, inFile: string, outFile: string) returns (res: ConvertResult)
    modifies disk
    ensures (disk.State(), res) == Convert(old(disk.State()), disk.refused, engine, inFile, outFile)
    ensures res == Done(Skipped) ==> disk.files == old(disk.files)
  {
    var dir := Dirname(outFile);
    var made := disk.MakeDirsAt(dir);
    if made == PermissionDenied {
      return Raised(DirDenied(dir));
    }
    if made == FileInTheWay {
      return Raised(DirIsFile(dir));
    }
    if made == CreateFailed {
      return Raised(DirFailed(dir));
    }
    if outFile in disk.files || outFile in disk.dirs {
      return Done(Skipped);
    }
    if engine(inFile, outFile) {
      disk.WriteFile(outFile);
      res := Done(Converted);
    } else {
      res := Done(Failed);
    }
  }

  /** The body of the inner loop of `process_all_parquet` for one file name:
      the `continue` filters, then the conversion. */
  method VisitFile(disk: Disk, engine: Engine, job: Job, e: Entry, report: seq<Attempt>)
    returns (report': seq<Attempt>, abort: Option<Abort>)
    modifies disk
    ensures Batch(disk.State(), report', abort) == Step(job, disk.refused, engine, Batch(old(disk.State()), report, None), e)
  {
    report', abort := report, None;
    var sel := Select(job, e.name);
    if sel == Skip {
      return;
    }
    if sel == MonthNotANumber {
      return report, Some(BadMonth);
    }
    var res := ConvertParquetToCsv(disk, engine, InFile(job, e), OutFile(job, e));
    if res.Raised? {
      abort := Some(res.abort);
    } else {
      report' := report + [Attempt(e, res.outcome)];
    }
  }

  /** The inner loop of `process_all_parquet` over the file names of one
      directory, continuing a batch that has run over `done` from `st0`. */
  method VisitDir(disk: Disk, engine: Engine, job: Job, dir: WalkDir, report: seq<Attempt>,
                  ghost st0: FsState, ghost done: seq<Entry>)
    returns (report': seq<Attempt>, abort: Option<Abort>)
    requires Batch(disk.State(), report, None) == RunAll(job, disk.refused, engine, st0, done)
    modifies disk
    ensures Batch(disk.State(), report', abort) == RunAll(job, disk.refused, engine, st0, done + Entries(dir))
  {
    report', abort := report, None;
    var j := 0;
    assert done + Entries(dir)[..0] == done;
    while j < |dir.filenames| && abort == None
      invariant 0 <= j <= |dir.filenames|
      invariant Batch(disk.State(), report', abort) == RunAll(job, disk.refused, engine, st0, done + Entries(dir)[..j])
    {
      var e := Entry(dir.rel, dir.filenames[j]);
      RunNextEntry(job, disk.refused, engine, st0, done, dir, j, Batch(disk.State(), report', None), e);
      report', abort := VisitFile(disk, engine, job, e, report');
      j := j + 1;
    }
    RunRestAfterAbort(job, disk.refused, engine, st0, done, Entries(dir), j);
  }

  /** `process_all_parquet`: walk the tree, filter, and convert file by file
      until the walk ends or an exception escapes. */
  method ProcessAllParquet(disk: Disk, engine: Engine, inputRoot: string, outputRoot: string,
                           year: Option<string>, month: Option<string>, walk: seq<WalkDir>)
    returns (report: seq<Attempt>, abort: Option<Abort>)
    modifies disk
    ensures Batch(disk.State(), report, abort)
         == RunAll(JobOf(inputRoot, outputRoot, year, month), disk.refused, engine, old(disk.State()), Flatten(walk))
  {
    var job := JobOf(inputRoot, outputRoot, year, month);
    report, abort := [], None;
    var i := 0;
    while i < |walk|
      invariant 0 <= i <= |walk|
      invariant abort == None
      invariant Batch(disk.State(), report, None) == RunAll(job, disk.refused, engine, old(disk.State()), Flatten(walk[..i]))
    {
      FlattenSnoc(walk, i);
      report, abort := VisitDir(disk, engine, job, walk[i], report, old(disk.State()), Flatten(walk[..i]));
      if abort.Some? {
        WalkAfterAbort(job, disk.refused, engine, old(disk.State()), walk, i + 1);
        return;
      }
      i := i + 1;
    }
    WalkAfterAbort(job, disk.refused, engine, old(disk.State()), walk, i);
  }

  lemma FlattenSnoc(walk: seq<WalkDir>, i: nat)
    requires i < |walk|
    ensures Flatten(walk[..i + 1]) == Flatten(walk[..i]) + Entries(walk[i])
  {
    assert walk[..i + 1][..i] == walk[..i];
  }

  /** A batch that has run over the first `i` directories of the walk is
      finished once the walk is exhausted or an exception has escaped. */
  lemma WalkAfterAbort(job: Job, refused: Refusals, engine: Engine, st: FsState, walk: seq<WalkDir>, i: nat)
    requires i <= |walk|
    requires i == |walk| || RunAll(job, refused, engine, st, Flatten(walk[..i])).abort.Some?
    ensures RunAll(job, refused, engine, st, Flatten(walk)) == RunAll(job, refused, engine, st, Flatten(walk[..i]))
  {
    if i < |walk| {
      FlattenPrefix(walk, i);
      RunAfterAbort(job, refused, engine, st, Flatten(walk), Flatten(walk[..i]));
    } else {
      assert walk[..i] == walk;
    }
  }

  /** One more file of a directory: the batch over `done` and the first
      `j + 1` names is one step beyond the batch `b` over the first `j`. */
  lemma RunNextEntry(job: Job, refused: Refusals, engine: Engine, st: FsState, done: seq<Entry>, dir: WalkDir, j: nat, b: Batch, e: Entry)
    requires j < |dir.filenames| && e == Entry(dir.rel, dir.filenames[j])
    requires b == RunAll(job, refused, engine, st, done + Entries(dir)[..j])
    ensures RunAll(job, refused, engine, st, done + Entries(dir)[..j + 1]) == Step(job, refused, engine, b, e)
  {
    var es := Entries(dir);
    assert (done + es[..j]) + [es[j]] == done + es[..j + 1];
    RunAllSnoc(job, refused, engine, st, done + es[..j], e);
  }

  /** A batch that has run over `done` and the first `j` of `rest` is finished
      once `rest` is exhausted or an exception has escaped. */
  lemma RunRestAfterAbort(job: Job, refused: Refusals, engine: Engine, st: FsState, done: seq<Entry>, rest: seq<Entry>, j: nat)
    requires j <= |rest|
    requires j == |rest| || RunAll(job, refused, engine, st, done + rest[..j]).abort.Some?
    ensures RunAll(job, refused, engine, st, done + rest) == RunAll(job, refused, engine, st, done + rest[..j])
  {
    if j < |rest| {
      assert (done + rest)[..|done| + j] == done + rest[..j];
      RunAfterAbort(job, refused, engine, st, done + rest, done + rest[..j]);
    } else {
      assert rest[..j] == rest;
    }
  }

  lemma RunAllSnoc(job: Job, refused: Refusals, engine: Engine, st: FsState, es: seq<Entry>, e: Entry)
    ensures RunAll(job, refused, engine, st, es + [e]) == Step(job, refused, engine, RunAll(job, refused, engine, st, es), e)
  {
    assert (es + [e])[..|es|] == es;
  }

  /** Once an exception has escaped, the rest of the walk changes nothing. */
  lemma {:induction false} RunAfterAbort(job: Job, refused: Refusals, engine: Engine, st: FsState, es: seq<Entry>, p: seq<Entry>)
    requires |p| <= |es| && es[..|p|] == p
    requires RunAll(job, refused, engine, st, p).abort.Some?
    ensures RunAll(job, refused, engine, st, es) == RunAll(job, refused, engine, st, p)
    decreases |es|
  {
    if |p| < |es| {
      var q := es[..|es| - 1];
      assert q[..|p|] == p;
      RunAfterAbort(job, refused, engine, st, q, p);
    } else {
      assert es == p;
    }
  }

  /** The files of the first `k` directories come first in the walk order. */
  lemma {:induction false} FlattenPrefix(walk: seq<WalkDir>, k: nat)
    requires k <= |walk|
    ensures |Flatten(walk[..k])| <= |Flatten(walk)| && Flatten(walk)[..|Flatten(walk[..k])|] == Flatten(walk[..k])
    decreases |walk|
  {
    if k < |walk| {
      var p := walk[..|walk| - 1];
      assert p[..k] == walk[..k];
      FlattenPrefix(p, k);
    } else {
      assert walk[..k] == walk;
    }
  }

  // ---------------------------------------------------------------------------
  // Which files are chosen

  /** The files of `es` the filters let through, in order. */
  function Selected(job: Job, es: seq<Entry>): seq<Entry>
    decreases |es|
  {
    if es == [] then []
    else Selected(job, es[..|es| - 1]) + (if Select(job, es[|es| - 1].name) == Take then [es[|es| - 1]] else [])
  }

  /** The files a report lists, in order. */
  function Attempted(report: seq<Attempt>): (es: seq<Entry>)
    ensures |es| == |report|
  {
    seq(|report|, k requires 0 <= k < |report| => report[k].entry)
  }

  /** A chosen file ends in ".parquet", contains a non-empty year, and contains
      the month token of a non-empty month, which is a number. */
  lemma SelectTake(job: Job, name: string)
    requires Select(job, name) == Take
    ensures EndsWith(name, ".parquet")
    ensures job.year.Some? && job.year.value != [] ==> Contains(name, job.year.value)
    ensures job.month != NotANumber
    ensures job.month.Token? ==> Contains(name, job.month.token)
  {
  }

  /** `f"-{m:02d}"` for a month below 100 is a minus sign and exactly two
      digits spelling the month. */
  lemma MonthTokenDigits(m: int)
    requires 0 <= m < 100
    ensures var t := MonthToken(m); |t| == 3 && t[0] == '-' && AllDigits(t[1..]) && DigitsValue(t[1..]) == m
  {
    NatToStrValue(m);
    var t := MonthToken(m);
    if m < 10 {
      assert NatToStr(m) == [DigitChar(m)];
      assert t[1..] == "0" + NatToStr(m);
      assert t[1..][..1] == "0";
    } else {
      LeadingDigitBound(NatToStr(m));
      assert |NatToStr(m)| == 2;
    }
  }

  /** The month filter of a numeric month looks for its token; a month that
      is not a number raises; no month or an empty one filters nothing. */
  lemma MonthRuleSpec(month: Option<string>)
    ensures month.None? || month.value == [] <==> MonthRuleOf(month) == AnyMonth
    ensures MonthRuleOf(month) == NotANumber <==> month.Some? && month.value != [] && ParseInt(month.value).None?
    ensures month.Some? && month.value != [] && ParseInt(month.value).Some? ==>
      MonthRuleOf(month) == Token(MonthToken(ParseInt(month.value).value))
  {
  }

  /** Month "2" looks for "-02". */
  lemma MonthTwo()
    ensures MonthRuleOf(Some("2")) == Token("-02")
  {
    ParseIntOfIntToStr(2);
    assert NatToStr(2) == "2";
  }

  /** Month "x" is not a number, so the batch raises at its first parquet file. */
  lemma MonthNotNumber()
    ensures MonthRuleOf(Some("x")) == NotANumber
  {
    assert LStrip("x") == "x";
    assert RStrip("x") == "x";
    assert !DigitGroups("x");
  }

  /** How one step changes the report: an aborted batch stays as it is, a
      file not chosen adds nothing, and a chosen file either adds its attempt
      or, when an exception escapes, nothing. */
  lemma StepReport(job: Job, refused: Refusals, engine: Engine, b: Batch, e: Entry)
    ensures var b' := Step(job, refused, engine, b, e);
      && (b.abort.Some? ==> b' == b)
      && (b'.abort.Some? || Select(job, e.name) != Take ==> b'.report == b.report)
      && (b'.abort == None ==> b.abort == None)
      && (b'.abort == None && Select(job, e.name) == Take ==>
            |b'.report| == |b.report| + 1 && b'.report == b.report + [Attempt(e, b'.report[|b.report|].outcome)])
  {
  }

  /** Every file in the selection passes the filters. */
  lemma {:induction false} SelectedAreChosen(job: Job, es: seq<Entry>)
    ensures forall x <- Selected(job, es) :: Select(job, x.name) == Take
    decreases |es|
  {
    if es != [] {
      var p := es[..|es| - 1];
      var e := es[|es| - 1];
      SelectedAreChosen(job, p);
      assert Selected(job, es) == Selected(job, p) + (if Select(job, e.name) == Take then [e] else []);
    }
  }

  /** Failure isolation: the files attempted are the chosen files in walk
      order, up to the one whose exception ended the batch; a batch that no
      exception ended has attempted every chosen file, whatever the engine
      made of the earlier ones. */
  lemma {:induction false} AttemptedAreSelected(job: Job, refused: Refusals, engine: Engine, st: FsState, es: seq<Entry>)
    ensures var b := RunAll(job, refused, engine, st, es);
      && |b.report| <= |Selected(job, es)|
      && Attempted(b.report) == Selected(job, es)[..|b.report|]
      && (b.abort == None ==> Attempted(b.report) == Selected(job, es))
    decreases |es|
  {
    if es != [] {
      var p := es[..|es| - 1];
      var e := es[|es| - 1];
      AttemptedAreSelected(job, refused, engine, st, p);
      var b := RunAll(job, refused, engine, st, p);
      var b' := RunAll(job, refused, engine, st, es);
      assert b' == Step(job, refused, engine, b, e);
      StepReport(job, refused, engine, b, e);
      var sel := Selected(job, p);
      assert Selected(job, es) == sel + (if Select(job, e.name) == Take then [e] else []);
      if b'.report == b.report {
        assert Selected(job, es)[..|b.report|] == sel[..|b.report|];

      } else {
        assert Attempted(b'.report) == Attempted(b.report) + [e];
        assert Selected(job, es)[..|b'.report|] == Selected(job, es);
      }
    }
  }

  /** A month that is not a number: nothing is created or attempted, and the
      batch raises exactly when some file passes the extension and year filters. */
  lemma {:induction false} BadMonthChangesNothing(job: Job, refused: Refusals, engine: Engine, st: FsState, es: seq<Entry>)
    requires job.month == NotANumber
    ensures var b := RunAll(job, refused, engine, st, es);
      && b.fs == st && b.report == []
      && (b.abort.Some? <==> exists k :: 0 <= k < |es| && Select(job, es[k].name) == MonthNotANumber)
      && (b.abort.Some? ==> b.abort == Some(BadMonth))
    decreases |es|
  {
    if es != [] {
      var p := es[..|es| - 1];
      BadMonthChangesNothing(job, refused, engine, st, p);
      assert forall k :: 0 <= k < |p| ==> p[k] == es[k];
      if Select(job, es[|es| - 1].name) == MonthNotANumber {
        assert Select(job, es[|es| - 1].name) == MonthNotANumber;
      } else {
        assert forall k :: 0 <= k < |es| && Select(job, es[k].name) == MonthNotANumber ==> k < |p|;
      }
    }
  }

  // ---------------------------------------------------------------------------
  // The output tree

  /** The names `os.walk` reports: non-empty, without '/'. */
  predicate WalkName(s: string) { s != [] && Lacks(s, '/') }

  lemma BorderFreeParquet()
    ensures BorderFree(".parquet")
  {
    var p := ".parquet";
    forall k | 0 < k < |p|
      ensures !Border(p, k)
    {
      assert p[k..][0] == p[k] != p[0] == p[..|p| - k][0];
    }
  }

  /** The CSV name of a ".parquet" file: its stem with the inner
      occurrences replaced, then ".csv"; no '/' appears in it. */
  lemma CsvName(name: string, stem: string)
    requires name == stem + ".parquet" && Lacks(name, '/')
    ensures ReplaceAll(name, ".parquet", ".csv") == ReplaceAll(stem, ".parquet", ".csv") + ".csv"
    ensures Lacks(ReplaceAll(name, ".parquet", ".csv"), '/')
  {
    BorderFreeParquet();
    ReplaceAllSuffix(stem, ".parquet", ".csv");
    assert Lacks(stem, '/') by {
      assert forall i :: 0 <= i < |stem| ==> stem[i] == name[i];
    }
    ReplaceAllLacks(stem, ".parquet", ".csv", '/');
  }

  /** The relative directory of a walked directory neither starts nor ends in '/'. */
  lemma RelPathShape(rel: seq<string>)
    requires forall k :: 0 <= k < |rel| ==> WalkName(rel[k])
    ensures var rp := RelPath(rel); rp != [] && rp[0] != '/' && rp[|rp| - 1] != '/'
  {
    if rel != [] {
      var rp := RelPath(rel);
      JoinWithEndsWith("/", rel);
      JoinWithStart("/", rel);
      var last := rel[|rel| - 1];
      assert WalkName(last) && WalkName(rel[0]);
      assert rp[|rp| - 1] == last[|last| - 1];
    }
  }

  /** The mirrored output path: the output directory, '/', and the file's
      stem with ".parquet" replaced inside it, then ".csv"; `os.path.dirname`
      of it is the output directory, which is what gets created. */
  lemma OutFileShape(job: Job, e: Entry, stem: string)
    requires e.name == stem + ".parquet" && WalkName(e.name)
    requires forall k :: 0 <= k < |e.rel| ==> WalkName(e.rel[k])
    ensures OutFile(job, e) == OutDir(job, e) + "/" + ReplaceAll(stem, ".parquet", ".csv") + ".csv"
    ensures Dirname(OutFile(job, e)) == OutDir(job, e)
    ensures EndsWith(OutFile(job, e), ".csv")
  {
    CsvName(e.name, stem);
    OutDirShape(job, e);
    var csv := ReplaceAll(e.name, ".parquet", ".csv");
    var od := OutDir(job, e);
    assert csv == ReplaceAll(stem, ".parquet", ".csv") + ".csv";
    LacksNotStartsWith(csv, '/');
    DirnameOfJoin(od, csv);
    assert OutFile(job, e) == od + "/" + csv;
  }

  /** The mirrored directory is not empty and does not end in '/'. */
  lemma OutDirShape(job: Job, e: Entry)
    requires forall k :: 0 <= k < |e.rel| ==> WalkName(e.rel[k])
    ensures OutDir(job, e) != [] && !EndsWith(OutDir(job, e), "/")
  {
    RelPathShape(e.rel);
    var rp := RelPath(e.rel);
    var od := OutDir(job, e);
    assert !StartsWith(rp, "/") by { assert rp[..1][0] == rp[0]; }
    JoinSpec(job.outputRoot, rp);
    assert EndsWith(od, rp);
    assert od[|od| - 1] == rp[|rp| - 1];
  }

  // ---------------------------------------------------------------------------
  // What the batch does to the file system

  /** The output files the converted attempts of a report wrote. */
  function Written(job: Job, report: seq<Attempt>): set<string>
    decreases |report|
  {
    if report == [] then {}
    else
      var a := report[|report| - 1];
      Written(job, report[..|report| - 1]) + (if a.outcome == Converted then {OutFile(job, a.entry)} else {})
  }

  /** One step's effect on the files: only a conversion adds a file, and only
      one that did not exist; nothing is ever removed. */
  lemma StepFiles(job: Job, refused: Refusals, engine: Engine, b: Batch, e: Entry)
    ensures var b' := Step(job, refused, engine, b, e);
      && Grows(b.fs, b'.fs) && (b'.report == b.report || |b'.report| == |b.report| + 1)
      && (b'.report == b.report ==> b'.fs.files == b.fs.files)
      && (b'.report != b.report ==>
            var a := b'.report[|b.report|];
            && b'.report == b.report + [a] && a.entry == e
            && (a.outcome == Converted ==> b'.fs.files == b.fs.files + {OutFile(job, e)} && !Exists(b.fs, OutFile(job, e)))
            && (a.outcome != Converted ==> b'.fs.files == b.fs.files))
  {
    if b.abort == None && Select(job, e.name) == Take {
      var out := OutFile(job, e);
      ConvertEffect(b.fs, refused, engine, InFile(job, e), out);
      var (fs, res) := Convert(b.fs, refused, engine, InFile(job, e), out);
      assert Exists(b.fs, out) ==> Exists(FsState(b.fs.files, b.fs.dirs + {Dirname(out)}), out);
    }
  }

  /** Existing outputs are left alone: the batch adds exactly the outputs it
      converted, none of which existed before, and removes nothing. */
  lemma {:induction false} RunFiles(job: Job, refused: Refusals, engine: Engine, st: FsState, es: seq<Entry>)
    ensures var b := RunAll(job, refused, engine, st, es);
      && Grows(st, b.fs)
      && b.fs.files == st.files + Written(job, b.report)
      && Written(job, b.report) !! (st.files + st.dirs)
    decreases |es|
  {
    if es != [] {
      var p := es[..|es| - 1];
      var e := es[|es| - 1];
      RunFiles(job, refused, engine, st, p);
      var b := RunAll(job, refused, engine, st, p);
      var b' := RunAll(job, refused, engine, st, es);
      assert b' == Step(job, refused, engine, b, e);
      StepFiles(job, refused, engine, b, e);
      WrittenGrows(job, st, b, b', e);
    }
  }

  /** The set reasoning of one step of RunFiles, apart from Step itself. */
  lemma WrittenGrows(job: Job, st: FsState, b: Batch, b': Batch, e: Entry)
    requires Grows(st, b.fs) && b.fs.files == st.files + Written(job, b.report)
    requires Written(job, b.report) !! (st.files + st.dirs)
    requires Grows(b.fs, b'.fs) && (b'.report == b.report || |b'.report| == |b.report| + 1)
    requires b'.report == b.report ==> b'.fs.files == b.fs.files
    requires b'.report != b.report ==>
      var a := b'.report[|b.report|];
      && b'.report == b.report + [a] && a.entry == e
      && (a.outcome == Converted ==> b'.fs.files == b.fs.files + {OutFile(job, e)} && !Exists(b.fs, OutFile(job, e)))
      && (a.outcome != Converted ==> b'.fs.files == b.fs.files)
    ensures Grows(st, b'.fs) && b'.fs.files == st.files + Written(job, b'.report)
    ensures Written(job, b'.report) !! (st.files + st.dirs)
  {
    if b'.report != b.report {
      assert b'.report[..|b'.report| - 1] == b.report;
    }
  }

  /** A file that a re-run would not touch: not chosen, or its output
      directory exists and its output exists or cannot be produced. */
  predicate Settled(job: Job, refused: Refusals, engine: Engine, fs: FsState, e: Entry) {
    match Select(job, e.name)
    case Skip => true
    case MonthNotANumber => false
    case Take =>
      Dirname(OutFile(job, e)) in fs.dirs
      && (Exists(fs, OutFile(job, e)) || !engine(InFile(job, e), OutFile(job, e)))
  }

  /** A step that raises nothing settles its file, and growth keeps files settled. */
  lemma StepSettles(job: Job, refused: Refusals, engine: Engine, b: Batch, e: Entry, x: Entry)
    requires b.abort == None
    ensures var b' := Step(job, refused, engine, b, e);
      b'.abort == None ==> Settled(job, refused, engine, b'.fs, e)
    ensures var b' := Step(job, refused, engine, b, e);
      Settled(job, refused, engine, b.fs, x) ==> Settled(job, refused, engine, b'.fs, x)
  {
    StepFiles(job, refused, engine, b, e);
  }

  /** After a batch that raised nothing, every file of the walk is settled. */
  lemma {:induction false} RunSettles(job: Job, refused: Refusals, engine: Engine, st: FsState, es: seq<Entry>)
    ensures var b := RunAll(job, refused, engine, st, es);
      b.abort == None ==> forall x <- es :: Settled(job, refused, engine, b.fs, x)
    decreases |es|
  {
    if es != [] {
      var p := es[..|es| - 1];
      var e := es[|es| - 1];
      RunSettles(job, refused, engine, st, p);
      var b := RunAll(job, refused, engine, st, p);
      var b' := RunAll(job, refused, engine, st, es);
      assert b' == Step(job, refused, engine, b, e);
      StepReport(job, refused, engine, b, e);
      if b'.abort == None {
        forall x <- es
          ensures Settled(job, refused, engine, b'.fs, x)
        {
          StepSettles(job, refused, engine, b, e, x);
          if x != e {
            assert x in p;
          }
        }
      }
    }
  }

  /** A step on a settled file changes no file, raises nothing and converts nothing. */
  lemma StepOnSettled(job: Job, refused: Refusals, engine: Engine, b: Batch, e: Entry)
    requires b.abort == None && Settled(job, refused, engine, b.fs, e)
    ensures var b' := Step(job, refused, engine, b, e);
      && b'.fs == b.fs && b'.abort == None
      && (b'.report == b.report || (b'.report == b.report + [b'.report[|b.report|]] && b'.report[|b.report|].outcome != Converted))
  {
  }

  /** A batch over settled files changes nothing and converts nothing. */
  lemma {:induction false} RunOnSettled(job: Job, refused: Refusals, engine: Engine, fs: FsState, es: seq<Entry>)
    requires forall x <- es :: Settled(job, refused, engine, fs, x)
    ensures var b := RunAll(job, refused, engine, fs, es);
      b.fs == fs && b.abort == None && forall a <- b.report :: a.outcome != Converted
    decreases |es|
  {
    if es != [] {
      var p := es[..|es| - 1];
      var e := es[|es| - 1];
      assert forall x <- p :: x in es;
      RunOnSettled(job, refused, engine, fs, p);
      var b := RunAll(job, refused, engine, fs, p);
      assert RunAll(job, refused, engine, fs, es) == Step(job, refused, engine, b, e);
      StepOnSettled(job, refused, engine, b, e);
    }
  }

  /** Re-running a batch that raised nothing, on the file system it left,
      creates nothing, raises nothing and converts nothing. */
  lemma RerunConvertsNothing(job: Job, refused: Refusals, engine: Engine, st: FsState, es: seq<Entry>)
    requires RunAll(job, refused, engine, st, es).abort == None
    ensures var fs1 := RunAll(job, refused, engine, st, es).fs;
      var b2 := RunAll(job, refused, engine, fs1, es);
      b2.fs == fs1 && b2.abort == None && forall a <- b2.report :: a.outcome != Converted
  {
    RunSettles(job, refused, engine, st, es);
    RunOnSettled(job, refused, engine, RunAll(job, refused, engine, st, es).fs, es);
  }

  /** Every attempt in a report is a chosen file of the walk. */
  lemma {:induction false} AttemptsFromWalk(job: Job, refused: Refusals, engine: Engine, st: FsState, es: seq<Entry>)
    ensures forall a <- RunAll(job, refused, engine, st, es).report :: a.entry in es && Select(job, a.entry.name) == Take
    decreases |es|
  {
    if es != [] {
      var p := es[..|es| - 1];
      var e := es[|es| - 1];
      AttemptsFromWalk(job, refused, engine, st, p);
      var b := RunAll(job, refused, engine, st, p);
      assert RunAll(job, refused, engine, st, es) == Step(job, refused, engine, b, e);
      StepReport(job, refused, engine, b, e);
      assert forall x <- p :: x in es;
    }
  }

  /** A converted attempt's output is among the files its report wrote. */
  lemma {:induction false} WrittenHas(job: Job, report: seq<Attempt>)
    ensures forall a <- report :: a.outcome == Converted ==> OutFile(job, a.entry) in Written(job, report)
    decreases |report|
  {
    if report != [] {
      var p := report[..|report| - 1];
      WrittenHas(job, p);
      assert forall a <- report :: a in p || a == report[|report| - 1];
    }
  }

  /** After a batch that raised nothing, a chosen file of the walk either has
      its output or is reported as a failed conversion. */
  lemma {:induction false} RunLeavesFailures(job: Job, refused: Refusals, engine: Engine, st: FsState, es: seq<Entry>)
    ensures var b := RunAll(job, refused, engine, st, es);
      b.abort == None ==>
        forall x <- es :: Select(job, x.name) == Take ==> Exists(b.fs, OutFile(job, x)) || Attempt(x, Failed) in b.report
    decreases |es|
  {
    if es != [] {
      var p := es[..|es| - 1];
      var e := es[|es| - 1];
      RunLeavesFailures(job, refused, engine, st, p);
      var b := RunAll(job, refused, engine, st, p);
      var b' := RunAll(job, refused, engine, st, es);
      assert b' == Step(job, refused, engine, b, e);
      StepReport(job, refused, engine, b, e);
      StepFiles(job, refused, engine, b, e);
      if b'.abort == None && Select(job, e.name) == Take {
        var out := OutFile(job, e);
        ConvertEffect(b.fs, refused, engine, InFile(job, e), out);
        assert b'.report[|b.report|] in b'.report;
      }
      if b'.abort == None {
        forall x <- es | Select(job, x.name) == Take
          ensures Exists(b'.fs, OutFile(job, x)) || Attempt(x, Failed) in b'.report
        {
          if x != e {
            assert x in p;
            assert forall a <- b.report :: a in b'.report;
          }
        }
      }
    }
  }

  /** A re-run on the file system a batch without exceptions left, with an
      engine that may now answer differently: no file present after the first
      run is rewritten, nothing is removed, and the only files converted are
      those whose first conversion failed. */
  lemma RerunRetriesOnlyFailures(job: Job, refused: Refusals, engine: Engine, engine2: Engine, st: FsState, es: seq<Entry>)
    requires RunAll(job, refused, engine, st, es).abort == None
    ensures var b1 := RunAll(job, refused, engine, st, es);
      var b2 := RunAll(job, refused, engine2, b1.fs, es);
      && Grows(b1.fs, b2.fs)
      && b2.fs.files == b1.fs.files + Written(job, b2.report)
      && Written(job, b2.report) !! b1.fs.files
      && forall a <- b2.report :: a.outcome == Converted ==> Attempt(a.entry, Failed) in b1.report
  {
    var b1 := RunAll(job, refused, engine, st, es);
    var b2 := RunAll(job, refused, engine2, b1.fs, es);
    RunFiles(job, refused, engine2, b1.fs, es);
    WrittenHas(job, b2.report);
    AttemptsFromWalk(job, refused, engine2, b1.fs, es);
    RunLeavesFailures(job, refused, engine, st, es);
    forall a <- b2.report | a.outcome == Converted
      ensures Attempt(a.entry, Failed) in b1.report
    {
      assert OutFile(job, a.entry) in Written(job, b2.report);
      assert !Exists(b1.fs, OutFile(job, a.entry));
    }
  }
}
