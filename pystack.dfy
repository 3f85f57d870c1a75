/** utils/pystackinfo.py: the versions of the packages a requirements file
    lists, and the one-line summary of them. Importing a module is outside
    the model: `importer(name)` says what `importlib.import_module(name)`
    gives. */
module PyStack {
  import opened PyStr

  /** What importing a module gives: its `__version__`, a module without
      one, an `ImportError`, or any other exception (which is not caught). */
  datatype Import = Version(v: string) | NoVersion | NotFound | Fails

  /** A dictionary that keeps its keys in insertion order. */
  type Stack = seq<(string, string)>

  /** The keys of the stack, in order. */
  function Keys(st: Stack): (ks: seq<string>)
    ensures |ks| == |st|
  {
    if st == [] then [] else [st[0].0] + Keys(st[1..])
  }

  lemma {:induction false} KeysAt(st: Stack, i: int)
    requires 0 <= i < |st|
    ensures Keys(st)[i] == st[i].0
    decreases |st|
  {
    if i > 0 {
      KeysAt(st[1..], i - 1);
    }
  }

  /** No key appears twice. */
  predicate UniqueKeys(st: Stack) {
    var ks := Keys(st);
    forall i, j :: 0 <= i < j < |ks| ==> ks[i] != ks[j]
  }

  /** `st[k] = v`: an existing key keeps its place and takes the new value; a
      new key goes at the end. */
  function Put(st: Stack, k: string, v: string): (r: Stack)
    ensures |r| >= |st|
  {
    if st == [] then [(k, v)]
    else if st[0].0 == k then [(k, v)] + st[1..]
    else [st[0]] + Put(st[1..], k, v)
  }

  /** Putting keeps the keys in order and adds `k` at the end when it is new. */
  lemma {:induction false} PutKeys(st: Stack, k: string, v: string)
    ensures k in Keys(st) ==> Keys(Put(st, k, v)) == Keys(st)
    ensures k !in Keys(st) ==> Keys(Put(st, k, v)) == Keys(st) + [k]
    decreases |st|
  {
    if st != [] {
      var r := Put(st, k, v);
      if st[0].0 == k {
        assert r[1..] == st[1..];
      } else {
        PutKeys(st[1..], k, v);
        assert r[1..] == Put(st[1..], k, v);
      }
    }
  }

  /** Putting leaves every other key's entry where it was, and the entry
      of `k` holds `v`. */
  lemma {:induction false} PutValues(st: Stack, k: string, v: string)
    requires UniqueKeys(st)
    ensures forall i :: 0 <= i < |st| && st[i].0 != k ==> Put(st, k, v)[i] == st[i]
    ensures forall i :: 0 <= i < |Put(st, k, v)| && Put(st, k, v)[i].0 == k ==> Put(st, k, v)[i].1 == v
    decreases |st|
  {
    if st != [] {
      var r := Put(st, k, v);
      var t := st[1..];
      assert UniqueKeys(t) by {
        assert Keys(t) == Keys(st)[1..];
      }
      if st[0].0 == k {
        forall i | 0 < i < |r| ensures r[i].0 != k {
          KeysAt(st, 0);
          KeysAt(st, i);
        }
      } else {
        PutValues(t, k, v);
        assert r == [st[0]] + Put(t, k, v);
      }
    }
  }

  /** Putting keeps the keys unique. */
  lemma PutUnique(st: Stack, k: string, v: string)
    requires UniqueKeys(st)
    ensures UniqueKeys(Put(st, k, v))
  {
    PutKeys(st, k, v);
  }

  /** The stripped text after the first "import-name", else the package. */
  function ImportName(line: string, pkg: string): string {
    var (_, rest) := SplitOnce(line, "import-name");
    if rest.Some? then Strip(rest.value) else pkg
  }

  /** The value recorded for an import that did not raise beyond `ImportError`. */
  function Recorded(i: Import): string
    requires !i.Fails?
  {
    match i
    case Version(v) => v
    case NoVersion => "N/A"
    case NotFound => "not_installed"
  }

  /** One line of the requirements file: None when it raises, the stack
      unchanged when the line carries "-omit-info", else the stack with the
      package's version put under the package name. */
  function Step(st: Stack, raw: string, importer: string -> Import): Option<Stack> {
    var line := Strip(raw);
    var ws := Words(line);
    if ws == [] then None
    else if Contains(line, "-omit-info") then Some(st)
    else
      var imported := importer(ImportName(line, ws[0]));
      if imported.Fails? then None
      else Some(Put(st, ws[0], Recorded(imported)))
  }

  /** The stack after the first lines, None once one of them raised. */
  function Run(lines: seq<string>, importer: string -> Import): Option<Stack> {
    if lines == [] then Some([])
    else
      var before := Run(lines[..|lines| - 1], importer);
      if before.None? then None else Step(before.value, lines[|lines| - 1], importer)
  }

  /** `get_pystack_diagnostics`'s DevStack: `file` is the lines of the
      requirements file, None when it does not exist; the result is None
      when the loop raises. */
  method DevStack(file: Option<seq<string>>, importer: string -> Import)
    returns (stack: Option<Stack>)
    ensures file.None? ==> stack == Some([])
    ensures file.Some? ==> stack == Run(file.value, importer)
  {
    if file.None? {
      return Some([]);
    }
    var lines := file.value;
    var st: Stack := [];
    for i := 0 to |lines|
      invariant Run(lines[..i], importer) == Some(st)
    {
      assert lines[..i + 1][..i] == lines[..i];
      var next := Step(st, lines[i], importer);
      if next.None? {
        RunStaysRaised(lines, i + 1, importer);
        return None;
      }
      st := next.value;
    }
    assert lines[..|lines|] == lines;
    stack := Some(st);
  }

  /** Once a line raised, the whole run has raised. */
  lemma {:induction false} RunStaysRaised(lines: seq<string>, n: nat, importer: string -> Import)
    requires n <= |lines| && Run(lines[..n], importer).None?
    ensures Run(lines, importer).None?
    decreases |lines| - n
  {
    if n < |lines| {
      assert lines[..n + 1][..n] == lines[..n];
      RunStaysRaised(lines, n + 1, importer);
    } else {
      assert lines[..n] == lines;
    }
  }

  /** Every stack the loop builds has each package once. */
  lemma {:induction false} RunUnique(lines: seq<string>, importer: string -> Import)
    ensures Run(lines, importer).Some? ==> UniqueKeys(Run(lines, importer).value)
    decreases |lines|
  {
    if lines != [] {
      var p := lines[..|lines| - 1];
      RunUnique(p, importer);
      var before := Run(p, importer);
      if before.Some? {
        var line := Strip(lines[|lines| - 1]);
        var ws := Words(line);
        if ws != [] && !Contains(line, "-omit-info") {
          var imported := importer(ImportName(line, ws[0]));
          if !imported.Fails? {
            PutUnique(before.value, ws[0], Recorded(imported));
          }
        }
      }
    }
  }

  /** A line that is blank once stripped raises, whatever came before. */
  lemma BlankLineRaises(st: Stack, raw: string, importer: string -> Import)
    requires forall i :: 0 <= i < |raw| ==> IsSpace(raw[i])
    ensures Step(st, raw, importer).None?
  {
    LStripSpec(raw);
    assert LStrip(raw) == [];
  }

  /** A line carrying "-omit-info" (and some word) adds nothing. */
  lemma OmittedLine(st: Stack, raw: string, importer: string -> Import)
    requires Contains(Strip(raw), "-omit-info")
    ensures Step(st, raw, importer) == Some(st)
  {
    var line := Strip(raw);
    var i :| 0 <= i <= |line| && OccursAt(line, "-omit-info", i);
    assert !IsSpace(line[i]) by { assert line[i] == "-omit-info"[0]; }
    WordsOfVisible(line, i);
  }

  /** A string holding a character that is not whitespace has a word. */
  lemma WordsOfVisible(s: string, i: int)
    requires 0 <= i < |s| && !IsSpace(s[i])
    ensures Words(s) != []
  {
    LStripSpec(s);
    assert i >= |s| - |LStrip(s)|;
  }

  /** Any other line that does not raise records, under its first word, the
      version the import name yields: the text after "import-name" when the
      line has it, else that first word. Other packages keep their entries. */
  lemma RecordedLine(st: Stack, raw: string, importer: string -> Import)
    requires UniqueKeys(st)
    requires Words(Strip(raw)) != [] && !Contains(Strip(raw), "-omit-info")
    requires importer(ImportName(Strip(raw), Words(Strip(raw))[0])) != Fails
    ensures var line := Strip(raw);
      var pkg := Words(line)[0];
      var value := Recorded(importer(ImportName(line, pkg)));
      && Step(st, raw, importer).Some?
      && var r := Step(st, raw, importer).value;
      && pkg in Keys(r)
      && (forall i :: 0 <= i < |r| && r[i].0 == pkg ==> r[i].1 == value)
      && (forall i :: 0 <= i < |st| && st[i].0 != pkg ==> r[i] == st[i])
  {
    var line := Strip(raw);
    var pkg := Words(line)[0];
    var value := Recorded(importer(ImportName(line, pkg)));
    PutKeys(st, pkg, value);
    PutValues(st, pkg, value);
    var ks := Keys(Put(st, pkg, value));
    if pkg !in Keys(st) {
      assert ks[|st|] == pkg;
    }
  }

  /** "key: value" for each entry, in order. */
  function Pairs(st: Stack): (r: seq<string>)
    ensures |r| == |st|
  {
    seq(|st|, i requires 0 <= i < |st| => st[i].0 + ": " + st[i].1)
  }

  /** `pystack_summary`: the first word of the Python version, then the
      pairs joined by ", "; None when the version has no word (the index
      raises). The head, the join and the length leave nothing in between. */
  function Summary(pythonVersion: string, st: Stack): (r: Option<string>)
    ensures r.None? <==> Words(pythonVersion) == []
    ensures r.Some? ==> StartsWith(r.value, "Python " + Words(pythonVersion)[0] + " | ")
    ensures r.Some? ==> EndsWith(r.value, JoinWith(", ", Pairs(st)))
    ensures r.Some? ==> |r.value| == |"Python " + Words(pythonVersion)[0] + " | "| + |JoinWith(", ", Pairs(st))|
  {
    var ws := Words(pythonVersion);
    if ws == [] then None
    else
      var head := "Python " + ws[0] + " | ";
      var s := head + JoinWith(", ", Pairs(st));
      assert s[..|head|] == head;
      assert s[|s| - |JoinWith(", ", Pairs(st))|..] == JoinWith(", ", Pairs(st));
      Some(s)
  }

  /** `pystack_summary()`: the summary of the DevStack the requirements file
      gives; None when collecting it or splitting the version raises. */
  function PystackSummary(pythonVersion: string, file: Option<seq<string>>, importer: string -> Import): (r: Option<string>)
    ensures file.None? ==> r == Summary(pythonVersion, [])
    ensures file.Some? && Run(file.value, importer).None? ==> r.None?
    ensures file.Some? && Run(file.value, importer).Some? ==> r == Summary(pythonVersion, Run(file.value, importer).value)
  {
    var st := if file.None? then Some([]) else Run(file.value, importer);
    if st.None? then None else Summary(pythonVersion, st.value)
  }
}
