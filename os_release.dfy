/** `get_linux_distro` (utils/sysinfo.py): the distribution name and version
    read from the "KEY=value" lines of `/etc/os-release`. */
module OsRelease {
  import opened PyStr
  import opened PyDict

  /** The assignment one line makes, if it holds '=': the stripped line split
      at its first '=', the value with the surrounding double quotes removed. */
  function Entry(line: string): Option<(string, string)> {
    if !Contains(line, "=") then None
    else
      var (k, v) := SplitOnce(Strip(line), "=");
      Some((k, StripChar(if v.Some? then v.value else "", '"')))
  }

  /** The key of an entry is the stripped line up to its first '=', and the
      value the rest of the line with its quotes removed. */
  lemma EntrySpec(line: string)
    ensures Entry(line).None? <==> !Contains(line, "=")
    ensures Entry(line).Some? ==>
      var (k, v) := Entry(line).value;
      exists rest ::
        && Strip(line) == k + "=" + rest
        && !Contains(k, "=")
        && v == StripChar(rest, '"')
  {
    if Contains(line, "=") {
      var i :| 0 <= i <= |line| && OccursAt(line, "=", i);
      assert line[i] == '=' by { assert line[i..i + 1] == "="; }
      StripKeeps(line, i);
      assert [line[i]] == "=";
      SplitOnceSpec(Strip(line), "=");
      var (k, rest) := SplitOnce(Strip(line), "=");
      assert rest.Some?;
      assert Strip(line) == k + "=" + rest.value;
      assert !Contains(k, "=") by { assert k + "="[..0] == k; }
    }
  }

  /** A character that is not whitespace survives `strip()`. */
  lemma StripKeeps(s: string, i: int)
    requires 0 <= i < |s| && !IsSpace(s[i])
    ensures Contains(Strip(s), [s[i]])
  {
    var l := LStrip(s);
    LStripSpec(s);
    var j := i - (|s| - |l|);
    assert 0 <= j < |l| && l[j] == s[i];
    var r := RStrip(l);
    RStripSpec(l);
    assert j < |r|;
    assert OccursAt(r, [s[i]], j) by { assert r[j..j + 1] == [r[j]]; }
  }

  /** The entry of each line. */
  function Entries(lines: seq<string>): (r: seq<Option<(string, string)>>)
    ensures |r| == |lines|
  {
    seq(|lines|, i requires 0 <= i < |lines| => Entry(lines[i]))
  }

  function Data(lines: seq<string>): map<string, string> {
    Assign(Entries(lines))
  }

  /** `f"{data.get('NAME')} {data.get('VERSION')}"`: a missing key renders as "None". */
  function Render(data: map<string, string>): (r: string)
    ensures "NAME" in data && "VERSION" in data ==> r == data["NAME"] + " " + data["VERSION"]
    ensures "NAME" !in data && "VERSION" in data ==> r == "None " + data["VERSION"]
    ensures "NAME" in data && "VERSION" !in data ==> r == data["NAME"] + " None"
    ensures "NAME" !in data && "VERSION" !in data ==> r == "None None"
  {
    (if "NAME" in data then data["NAME"] else "None") + " "
    + (if "VERSION" in data then data["VERSION"] else "None")
  }

  /** The whole function: `file` is the lines of `/etc/os-release` (each with
      its line break), None when it cannot be opened; `release` is the kernel
      release the fallback names. */
  method LinuxDistro(file: Option<seq<string>>, release: string) returns (r: string)
    ensures file.None? ==> r == "Linux " + release
    ensures file.Some? ==> r == Render(Data(file.value))
  {
    if file.None? {
      return "Linux " + release;
    }
    var lines := file.value;
    ghost var kvs := Entries(lines);
    var data: map<string, string> := map[];
    for i := 0 to |lines|
      invariant data == Assign(kvs[..i])
    {
      assert kvs[..i + 1][..i] == kvs[..i];
      if Contains(lines[i], "=") {
        var (k, v) := SplitOnce(Strip(lines[i]), "=");
        data := data[k := StripChar(if v.Some? then v.value else "", '"')];
      }
    }
    assert kvs[..|lines|] == kvs;
    r := Render(data);
  }

  /** The name shown is the value of the last line that assigns NAME, and
      "None" when no line does; the same holds for VERSION. */
  lemma DataSpec(lines: seq<string>, k: string)
    ensures k in Data(lines) <==> exists i :: 0 <= i < |lines| && SetsKey(Entry(lines[i]), k)
    ensures k in Data(lines) ==>
      exists i :: 0 <= i < |lines| && Entry(lines[i]) == Some((k, Data(lines)[k]))
        && forall j :: i < j < |lines| ==> !SetsKey(Entry(lines[j]), k)
  {
    var kvs := Entries(lines);
    assert forall j :: 0 <= j < |lines| ==> Entry(lines[j]) == kvs[j];
    AssignKeys(kvs, k);
    if k in Data(lines) {
      AssignLast(kvs, k);
      var i :| 0 <= i < |kvs| && kvs[i] == Some((k, Assign(kvs)[k]))
        && forall j :: i < j < |kvs| ==> !SetsKey(kvs[j], k);
      assert Entry(lines[i]) == kvs[i];
      assert forall j :: i < j < |lines| ==> Entry(lines[j]) == kvs[j];
    }
  }
}
