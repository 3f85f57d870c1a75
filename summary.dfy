/** `system_summary` (utils/sysinfo.py): the one-line description built from
    the diagnostics record. A result of None stands for an exception that
    escapes the function. */
module Summary {
  import opened PyStr
  import opened PyValue

  /** The diagnostics record `get_system_diagnostics` returns. */
  datatype Diagnostics = Diagnostics(
    system: Value,
    cpu: Dict,
    ram: Dict,
    storage: seq<Dict>,
    os: Value,
    gpu: seq<Dict>)

  /** The core and thread counts, "<cores>c/<threads>t". */
  function Counts(cpu: Dict): string {
    StrOf(Get(cpu, "Cores (Physical)", VStr("?"))) + "c/" + StrOf(Get(cpu, "Threads (Logical)", VStr("?"))) + "t"
  }

  /** The CPU name: the friendly one when it is truthy, else the raw one. */
  function CpuName(cpu: Dict): Value {
    var friendly := Get(cpu, "CPU Name (Friendly)", VNone);
    if Truthy(friendly) then friendly else Get(cpu, "CPU Name (Raw)", VNone)
  }

  /** The CPU text: the counts go inside a closing parenthesis that ends the
      name, else in parentheses of their own; None when the name is not a
      string (`endswith` raises). */
  function CpuText(cpu: Dict): Option<string> {
    var name := CpuName(cpu);
    if !name.VStr? then None else Some(WithCounts(name.s, Counts(cpu)))
  }

  /** The name with the counts added inside its closing parenthesis. */
  function WithCounts(name: string, counts: string): string {
    if EndsWith(name, ")") then name[..|name| - 1] + ", " + counts + ")"
    else name + " (" + counts + ")"
  }

  /** The CPU text keeps the name up to its closing parenthesis, and ends
      with the counts and one closing parenthesis: ", " joins them to a name
      that ended in ")", " (" to any other. */
  lemma WithCountsSpec(name: string, counts: string)
    ensures var r := WithCounts(name, counts);
      var kept := if EndsWith(name, ")") then |name| - 1 else |name|;
      && StartsWith(r, name[..kept])
      && EndsWith(r, counts + ")")
      && r[kept..kept + 2] == (if EndsWith(name, ")") then ", " else " (")
      && |r| == kept + 2 + |counts| + 1
  {
    var r := WithCounts(name, counts);
    var kept := if EndsWith(name, ")") then |name| - 1 else |name|;
    var sep := if EndsWith(name, ")") then ", " else " (";
    assert r == name[..kept] + sep + counts + ")";
    assert r[..kept] == name[..kept];
    assert r[kept..kept + 2] == sep;
    assert r[|r| - |counts + ")"|..] == counts + ")";
  }

  /** `",".join(map(str, speeds))` with a leading '-', or "" for no speeds;
      a string is iterated character by character, and any other truthy
      value is not iterable and raises. */
  function SpeedsText(v: Value): Option<string> {
    if !Truthy(v) then Some("")
    else match v
      case VList(items) => Some(Dashed(StrsOf(items)))
      case VStr(s) => Some(Dashed(seq(|s|, i requires 0 <= i < |s| => [s[i]])))
      case _ => None
  }

  /** `map(str, items)`. */
  function StrsOf(items: seq<Value>): (r: seq<string>)
    ensures |r| == |items|
  {
    seq(|items|, i requires 0 <= i < |items| => StrOf(items[i]))
  }

  /** '-' and the texts joined by ",". */
  function Dashed(strs: seq<string>): string {
    "-" + JoinWith(",", strs)
  }

  /** "<total>GB <type><speeds> RAM". */
  function RamText(ram: Dict): Option<string> {
    var speeds := SpeedsText(Get(ram, "Memory Speed (MHz)", VList([])));
    if speeds.None? then None
    else Some(StrOf(Get(ram, "Advertised RAM (GB)", VNone)) + "GB "
      + StrOf(Get(ram, "Memory Type", VStr(""))) + speeds.value + " RAM")
  }

  /** Vendor names that are really bus names. */
  predicate IsBusName(v: string) {
    var u := ToUpper(v);
    u == "SATA" || u == "ATA" || u == "NVME"
  }

  /** The vendor shown: stripped, blank when it is a bus name or missing;
      None when it is truthy but not a string (`strip` raises). */
  function VendorText(d: Dict): Option<string> {
    var v := Get(d, "Vendor", VStr(""));
    if !Truthy(v) then Some("")
    else if !v.VStr? then None
    else if IsBusName(Strip(v.s)) then Some("")
    else Some(Strip(v.s))
  }

  /** The text of one drive: vendor, model ("UnknownDrive" when missing),
      size and media type, stripped. */
  function DrivePart(d: Dict): Option<string> {
    var vendor := VendorText(d);
    if vendor.None? then None
    else Some(Strip(vendor.value + " " + StrOf(Get(d, "Model", VStr("UnknownDrive")))
      + " " + StrOf(Get(d, "Size", VNone)) + " " + StrOf(Get(d, "MediaType", VStr("")))))
  }

  /** A vendor that is a bus name, in any case and with any surrounding
      whitespace, shows as if the drive had no vendor at all. */
  lemma BusVendorBlanked(d: Dict)
    requires "Vendor" in d && d["Vendor"].VStr? && IsBusName(Strip(d["Vendor"].s))
    ensures DrivePart(d) == DrivePart(d - {"Vendor"})
  {
    assert (d - {"Vendor"}) == d - {"Vendor"};
    assert Get(d - {"Vendor"}, "Model", VStr("UnknownDrive")) == Get(d, "Model", VStr("UnknownDrive"));
    assert Get(d - {"Vendor"}, "Size", VNone) == Get(d, "Size", VNone);
    assert Get(d - {"Vendor"}, "MediaType", VStr("")) == Get(d, "MediaType", VStr(""));
  }

  /** A drive without a model shows as one whose model is "UnknownDrive". */
  lemma MissingModel(d: Dict)
    requires "Model" !in d
    ensures DrivePart(d) == DrivePart(d["Model" := VStr("UnknownDrive")])
  {
    var e := d["Model" := VStr("UnknownDrive")];
    assert Get(e, "Vendor", VStr("")) == Get(d, "Vendor", VStr(""));
    assert Get(e, "Size", VNone) == Get(d, "Size", VNone);
    assert Get(e, "MediaType", VStr("")) == Get(d, "MediaType", VStr(""));
  }

  /** A drive part has no whitespace at either end, and a truthy vendor that
      is not a string raises. A vendor that is a string, not blank and not a
      bus name, comes first, stripped; a missing, falsy or bus-name vendor
      leaves the model first. Then come the model, the size and the media
      type, one space apart (the ends assumed free of whitespace, which
      `strip` would remove). */
  lemma DrivePartSpec(d: Dict)
    ensures DrivePart(d).None? <==> Truthy(Get(d, "Vendor", VStr(""))) && !Get(d, "Vendor", VStr("")).VStr?
    ensures DrivePart(d).Some? ==>
      var p := DrivePart(d).value;
      p == [] || (!IsSpace(p[0]) && !IsSpace(p[|p| - 1]))
    ensures var v := Get(d, "Vendor", VStr(""));
      var m := StrOf(Get(d, "Model", VStr("UnknownDrive")));
      var size := StrOf(Get(d, "Size", VNone));
      var t := StrOf(Get(d, "MediaType", VStr("")));
      v.VStr? && Strip(v.s) != [] && !IsBusName(Strip(v.s)) && t != [] && !IsSpace(t[|t| - 1]) ==>
        DrivePart(d) == Some(Strip(v.s) + " " + m + " " + size + " " + t)
    ensures var v := Get(d, "Vendor", VStr(""));
      var m := StrOf(Get(d, "Model", VStr("UnknownDrive")));
      var size := StrOf(Get(d, "Size", VNone));
      var t := StrOf(Get(d, "MediaType", VStr("")));
      (!Truthy(v) || (v.VStr? && IsBusName(Strip(v.s)))) && m != [] && !IsSpace(m[0])
      && t != [] && !IsSpace(t[|t| - 1]) ==>
        DrivePart(d) == Some(m + " " + size + " " + t)
  {
    var vendor := VendorText(d);
    if vendor.Some? {
      var v := Get(d, "Vendor", VStr(""));
      if v.VStr? {
        StripEnds(v.s);
      }
      var m := StrOf(Get(d, "Model", VStr("UnknownDrive")));
      var size := StrOf(Get(d, "Size", VNone));
      var t := StrOf(Get(d, "MediaType", VStr("")));
      DriveTextStrip(vendor.value, m, size, t);
    }
  }

  /** Stripping the joined fields of a drive, with a vendor that has no
      whitespace at its ends or is blank. */
  lemma DriveTextStrip(v: string, m: string, size: string, t: string)
    requires v == [] || (!IsSpace(v[0]) && !IsSpace(v[|v| - 1]))
    ensures var x := Strip(v + " " + m + " " + size + " " + t);
      x == [] || (!IsSpace(x[0]) && !IsSpace(x[|x| - 1]))
    ensures v != [] && t != [] && !IsSpace(t[|t| - 1]) ==>
      Strip(v + " " + m + " " + size + " " + t) == v + " " + m + " " + size + " " + t
    ensures v == [] && m != [] && !IsSpace(m[0]) && t != [] && !IsSpace(t[|t| - 1]) ==>
      Strip(v + " " + m + " " + size + " " + t) == m + " " + size + " " + t
  {
    var x := v + " " + m + " " + size + " " + t;
    StripEnds(x);
    if t != [] && !IsSpace(t[|t| - 1]) {
      assert x[|x| - 1] == t[|t| - 1];
      if v != [] {
        assert x[0] == v[0];
        StripNoSpace(x);
      } else if m != [] && !IsSpace(m[0]) {
        var y := m + " " + size + " " + t;
        assert x == " " + y;
        assert y[0] == m[0] && y[|y| - 1] == t[|t| - 1];
        StripLeadingSpace(y);
      }
    }
  }

  /** The values of the first steps of a loop that appends one value per
      step, None once one step raised. */
  function Collect(ps: seq<Option<string>>): (r: Option<seq<string>>)
    ensures r.Some? ==> |r.value| == |ps|
  {
    if ps == [] then Some([])
    else
      var before := Collect(ps[..|ps| - 1]);
      if before.None? || ps[|ps| - 1].None? then None else Some(before.value + [ps[|ps| - 1].value])
  }

  /** The loop gives every value, in order, exactly when no step raises. */
  lemma {:induction false} CollectSpec(ps: seq<Option<string>>)
    ensures Collect(ps).Some? <==> forall i :: 0 <= i < |ps| ==> ps[i].Some?
    ensures Collect(ps).Some? ==> forall i :: 0 <= i < |ps| ==> Collect(ps).value[i] == ps[i].value
    decreases |ps|
  {
    if ps != [] {
      var p := ps[..|ps| - 1];
      CollectSpec(p);
      assert forall i :: 0 <= i < |p| ==> ps[i] == p[i];
    }
  }

  /** The part of each drive. */
  function Parts(drives: seq<Dict>): (r: seq<Option<string>>)
    ensures |r| == |drives|
  {
    seq(|drives|, i requires 0 <= i < |drives| => DrivePart(drives[i]))
  }

  /** `storage_parts`, None when one drive raised. */
  function StorageParts(drives: seq<Dict>): Option<seq<string>> {
    Collect(Parts(drives))
  }

  /** Every drive gives a part, in order, exactly when none of them raises. */
  lemma StoragePartsSpec(drives: seq<Dict>)
    ensures StorageParts(drives).Some? <==> forall i :: 0 <= i < |drives| ==> DrivePart(drives[i]).Some?
    ensures StorageParts(drives).Some? ==>
      forall i :: 0 <= i < |drives| ==> StorageParts(drives).value[i] == DrivePart(drives[i]).value
  {
    var ps := Parts(drives);
    CollectSpec(ps);
    assert forall i :: 0 <= i < |drives| ==> ps[i] == DrivePart(drives[i]);
  }

  /** `" | ".join(parts)` of parts that were collected. */
  function Joined(parts: Option<seq<string>>): Option<string> {
    if parts.None? then None else Some(JoinWith(" | ", parts.value))
  }

  /** The loop over the drives building `storage_parts`, and `storage_str`
      (None when a drive raised). */
  method StorageText(drives: seq<Dict>) returns (text: Option<string>)
    ensures text == Joined(StorageParts(drives))
  {
    ghost var ps := Parts(drives);
    var parts: seq<string> := [];
    for i := 0 to |drives|
      invariant Collect(ps[..i]) == Some(parts)
    {
      var part := DrivePart(drives[i]);
      assert part == ps[i];
      if part.None? {
        CollectStep(ps, i, parts);
        CollectStaysRaised(ps, i + 1);
        return None;
      }
      CollectStep(ps, i, parts);
      parts := parts + [part.value];
    }
    assert ps[..|drives|] == ps;
    text := Joined(Some(parts));
  }

  /** One more step of the loop. */
  lemma CollectStep(ps: seq<Option<string>>, i: nat, parts: seq<string>)
    requires i < |ps| && Collect(ps[..i]) == Some(parts)
    ensures ps[i].None? ==> Collect(ps[..i + 1]).None?
    ensures ps[i].Some? ==> Collect(ps[..i + 1]) == Some(parts + [ps[i].value])
  {
    assert ps[..i + 1][..i] == ps[..i];
  }

  /** Once a drive raised, the whole loop has raised. */
  lemma {:induction false} CollectStaysRaised(ps: seq<Option<string>>, n: nat)
    requires n <= |ps| && Collect(ps[..n]).None?
    ensures Collect(ps).None?
    decreases |ps| - n
  {
    if n < |ps| {
      assert ps[..n + 1][..n] == ps[..n];
      CollectStaysRaised(ps, n + 1);
    } else {
      assert ps[..n] == ps;
    }
  }

  /** The GPU text: empty unless GPUs are checked and the first entry is not
      an error; then each entry's "GPU" with a space, joined by ",", stripped.
      None when an entry has no "GPU" (the lookup raises). */
  function GpuText(checkGpu: bool, gpus: seq<Dict>): Option<string> {
    if !checkGpu || gpus == [] || "Error" in gpus[0] then Some("")
    else if exists i :: 0 <= i < |gpus| && "GPU" !in gpus[i] then None
    else Some(Strip(JoinWith(",", seq(|gpus|, i requires 0 <= i < |gpus| && "GPU" in gpus[i] => StrOf(gpus[i]["GPU"]) + " "))))
  }

  /** The names of the GPUs. */
  function GpuNames(gpus: seq<Dict>): (r: seq<string>)
    requires forall i :: 0 <= i < |gpus| ==> "GPU" in gpus[i]
    ensures |r| == |gpus|
  {
    seq(|gpus|, i requires 0 <= i < |gpus| => StrOf(gpus[i]["GPU"]))
  }

  /** The GPU text is empty when GPUs are not checked, there are none, or
      the first entry is an error; otherwise it raises exactly when an entry
      lacks "GPU", and has no whitespace at either end. Each name is
      followed by a space before the "," join, so names whose outer ends
      are not whitespace come out separated by " ,". */
  lemma GpuTextSpec(checkGpu: bool, gpus: seq<Dict>)
    ensures (!checkGpu || gpus == [] || "Error" in gpus[0]) ==> GpuText(checkGpu, gpus) == Some("")
    ensures checkGpu && gpus != [] && "Error" !in gpus[0] ==>
      (GpuText(checkGpu, gpus).None? <==> exists i :: 0 <= i < |gpus| && "GPU" !in gpus[i])
    ensures GpuText(checkGpu, gpus).Some? ==>
      var g := GpuText(checkGpu, gpus).value;
      g == [] || (!IsSpace(g[0]) && !IsSpace(g[|g| - 1]))
    ensures checkGpu && gpus != [] && "Error" !in gpus[0] && (forall i :: 0 <= i < |gpus| ==> "GPU" in gpus[i]) ==>
      var names := GpuNames(gpus);
      var first, last := names[0], names[|names| - 1];
      first != [] && !IsSpace(first[0]) && last != [] && !IsSpace(last[|last| - 1]) ==>
        GpuText(checkGpu, gpus) == Some(JoinWith(" ,", names))
  {
    if checkGpu && gpus != [] && "Error" !in gpus[0] && forall i :: 0 <= i < |gpus| ==> "GPU" in gpus[i] {
      var spaced := seq(|gpus|, i requires 0 <= i < |gpus| && "GPU" in gpus[i] => StrOf(gpus[i]["GPU"]) + " ");
      StripEnds(JoinWith(",", spaced));
      var names := GpuNames(gpus);
      assert spaced == Spaced(names);
      StripSpacedJoin(names);
    }
  }

  /** Stripping the names each followed by a space and joined by ",": the
      names joined by " ,", when the outer ends are not whitespace. */
  lemma StripSpacedJoin(names: seq<string>)
    requires names != []
    ensures var first, last := names[0], names[|names| - 1];
      first != [] && !IsSpace(first[0]) && last != [] && !IsSpace(last[|last| - 1]) ==>
        Strip(JoinWith(",", Spaced(names))) == JoinWith(" ,", names)
  {
    var first, last := names[0], names[|names| - 1];
    if first != [] && !IsSpace(first[0]) && last != [] && !IsSpace(last[|last| - 1]) {
      JoinSpaced(names);
      var j := JoinWith(" ,", names);
      JoinWithStart(" ,", names);
      JoinWithEndsWith(" ,", names);
      assert j[|j| - 1] == last[|last| - 1];
      assert (j + " ")[0] == j[0];
      assert LStrip(j + " ") == j + " ";
      RStripAppend(j, " ");
      assert RStrip(j) == j;
    }
  }

  /** Each name followed by a space. */
  function Spaced(names: seq<string>): (r: seq<string>)
    ensures |r| == |names|
  {
    seq(|names|, i requires 0 <= i < |names| => names[i] + " ")
  }

  /** `",".join(n + " " for n in names)` is the names joined by " ," with
      one space after the last. */
  lemma {:induction false} JoinSpaced(names: seq<string>)
    requires names != []
    ensures JoinWith(",", Spaced(names)) == JoinWith(" ,", names) + " "
    decreases |names|
  {
    if |names| > 1 {
      JoinSpaced(names[1..]);
      assert Spaced(names)[1..] == Spaced(names[1..]);
      assert Spaced(names)[0] == names[0] + " ";
      assert (names[0] + " ") + "," + (JoinWith(" ,", names[1..]) + " ")
        == names[0] + " ," + JoinWith(" ,", names[1..]) + " ";
    }
  }

  /** The RAM text is the total with "GB ", then the memory type followed by
      the speeds text, then " RAM"; it raises exactly when the speeds are
      truthy but neither a list nor a string. */
  lemma RamTextSpec(ram: Dict)
    ensures var v := Get(ram, "Memory Speed (MHz)", VList([]));
      RamText(ram).None? <==> (Truthy(v) && !v.VList? && !v.VStr?)
    ensures RamText(ram).Some? ==>
      var r := RamText(ram).value;
      var lead := StrOf(Get(ram, "Advertised RAM (GB)", VNone)) + "GB ";
      var mid := StrOf(Get(ram, "Memory Type", VStr(""))) + SpeedsText(Get(ram, "Memory Speed (MHz)", VList([]))).value;
      && |r| == |lead| + |mid| + 4
      && StartsWith(r, lead)
      && r[|lead|..|lead| + |mid|] == mid
      && EndsWith(r, " RAM")
  {
    if RamText(ram).Some? {
      var r := RamText(ram).value;
      var lead := StrOf(Get(ram, "Advertised RAM (GB)", VNone)) + "GB ";
      var mid := StrOf(Get(ram, "Memory Type", VStr(""))) + SpeedsText(Get(ram, "Memory Speed (MHz)", VList([]))).value;
      assert r == lead + mid + " RAM";
      Seg(lead, mid, " RAM");
    }
  }

  /** The dashed text starts with '-' and the first text, and ends with the
      last one. */
  lemma DashedSpec(strs: seq<string>)
    requires strs != []
    ensures StartsWith(Dashed(strs), "-" + strs[0])
    ensures EndsWith(Dashed(strs), strs[|strs| - 1])
  {
    JoinWithEndsWith(",", strs);
    JoinWithStartsWith(",", strs);
    var t := Dashed(strs);
    var j := JoinWith(",", strs);
    assert t[..1 + |strs[0]|] == "-" + j[..|strs[0]|];
    assert t[|t| - |strs[|strs| - 1]|..] == j[|j| - |strs[|strs| - 1]|..];
  }

  /** Speeds that are given add '-', the first speed, and at the end the
      last one, each written by `str`. */
  lemma SpeedsTextSpec(items: seq<Value>)
    requires items != []
    ensures SpeedsText(VList(items)) == Some(Dashed(StrsOf(items)))
    ensures var t := Dashed(StrsOf(items));
      StartsWith(t, "-" + StrOf(items[0])) && EndsWith(t, StrOf(items[|items| - 1]))
  {
    DashedSpec(StrsOf(items));
  }

  /** `system_summary()`: `checkGpu` is the module's GPU switch and `pyStack`
      what `pystack_summary()` gives (None when it raises). */
  function SystemSummary(diag: Diagnostics, checkGpu: bool, pyStack: Option<string>): Option<string> {
    var cpu := CpuText(diag.cpu);
    var ram := RamText(diag.ram);
    var storage := StorageParts(diag.storage);
    var gpu := GpuText(checkGpu, diag.gpu);
    if cpu.None? || ram.None? || storage.None? || gpu.None? || pyStack.None? then None
    else Some(Line(StrOf(diag.system), cpu.value, ram.value, JoinWith(" | ", storage.value),
      StrOf(diag.os), gpu.value, pyStack.value))
  }

  /** `retStr`, from its parts: the GPU segment only when there is GPU text. */
  function Line(system: string, cpu: string, ram: string, storage: string, os: string, gpu: string, py: string): string {
    var head := system + " | " + cpu + " CPU | " + ram + " | " + storage + " | " + os + " OS";
    head + GpuSegment(gpu) + " | " + py
  }

  /** `f" | {gpu} GPU"` when there is GPU text, else nothing. */
  function GpuSegment(gpu: string): string {
    if gpu != [] then " | " + gpu + " GPU" else []
  }

  /** The layout of the line, segment by segment at its offset: the system
      and the CPU with " CPU", then the RAM, the storage and the OS with " OS"
      separated by " | ", the GPU segment with " GPU" when there is GPU text,
      and " | " with the Python stack at the end. */
  predicate LineLayout(r: string, system: string, cpu: string, ram: string, storage: string, os: string, gpu: string, py: string) {
    var o2 := |system| + |cpu| + 10;
    var o3 := o2 + |ram| + 3;
    var o4 := o3 + |storage| + 3;
    var h := o4 + |os| + 3;
    && |r| == h + (if gpu != [] then |gpu| + 7 else 0) + 3 + |py|
    && StartsWith(r, system + " | " + cpu + " CPU | ")
    && r[o2..o2 + |ram|] == ram && r[o2 + |ram|..o3] == " | "
    && r[o3..o3 + |storage|] == storage && r[o3 + |storage|..o4] == " | "
    && r[o4..o4 + |os|] == os && r[o4 + |os|..h] == " OS"
    && (gpu != [] ==> r[h..h + |gpu| + 7] == " | " + gpu + " GPU")
    && EndsWith(r, " | " + py)
  }

  /** The line has that layout. */
  lemma LineSpec(system: string, cpu: string, ram: string, storage: string, os: string, gpu: string, py: string)
    ensures LineLayout(Line(system, cpu, ram, storage, os, gpu, py), system, cpu, ram, storage, os, gpu, py)
  {
    var lead := system + " | " + cpu + " CPU | ";
    var front := lead + ram + " | " + storage + " | ";
    var rest := os + " OS" + GpuSegment(gpu) + " | " + py;
    Regroup(front, os, GpuSegment(gpu), py);
    LineFront(lead, ram, storage, rest);
    LineBack(lead, ram, storage, os, GpuSegment(gpu), py);
    assert |lead| == |system| + |cpu| + 10 && |front| == |lead| + |ram| + |storage| + 6;
    assert |GpuSegment(gpu)| == if gpu != [] then |gpu| + 7 else 0;
  }

  /** The line as its front and the rest. */
  lemma Regroup(front: string, os: string, gs: string, py: string)
    ensures front + os + " OS" + gs + " | " + py == front + (os + " OS" + gs + " | " + py)
  {
  }

  /** The first segments of the line: the lead, then the RAM and the
      storage, each followed by " | ". */
  lemma LineFront(lead: string, ram: string, storage: string, rest: string)
    ensures var r := lead + ram + " | " + storage + " | " + rest;
      var o3 := |lead| + |ram| + 3;
      && r[..|lead|] == lead
      && r[|lead|..|lead| + |ram|] == ram && r[|lead| + |ram|..o3] == " | "
      && r[o3..o3 + |storage|] == storage && r[o3 + |storage|..o3 + |storage| + 3] == " | "
  {
    var p1 := lead + ram;
    assert lead + ram + " | " + storage + " | " + rest == lead + ram + (" | " + storage + " | " + rest);
    Seg(lead, ram, " | " + storage + " | " + rest);
    assert p1 + " | " + storage + " | " + rest == p1 + " | " + (storage + " | " + rest);
    Seg(p1, " | ", storage + " | " + rest);
    assert p1 + " | " + storage + " | " + rest == (p1 + " | ") + storage + (" | " + rest);
    Seg(p1 + " | ", storage, " | " + rest);
    Seg(p1 + " | " + storage, " | ", rest);
  }

  /** The last segments of the line: the OS with " OS", the GPU segment, and
      " | " with the Python stack. */
  lemma LineBack(lead: string, ram: string, storage: string, os: string, gs: string, py: string)
    ensures var r := lead + ram + " | " + storage + " | " + os + " OS" + gs + " | " + py;
      var front := lead + ram + " | " + storage + " | ";
      var h := |front| + |os| + 3;
      && |r| == h + |gs| + 3 + |py|
      && r[|front|..|front| + |os|] == os && r[|front| + |os|..h] == " OS"
      && r[h..h + |gs|] == gs && r[h + |gs|..] == " | " + py
  {
    var r := lead + ram + " | " + storage + " | " + os + " OS" + gs + " | " + py;
    var front := lead + ram + " | " + storage + " | ";
    var t := " | " + py;
    assert r == front + os + (" OS" + gs + t);
    Seg(front, os, " OS" + gs + t);
    assert r == (front + os) + " OS" + (gs + t);
    Seg(front + os, " OS", gs + t);
    assert r == (front + os + " OS") + gs + t;
    Seg(front + os + " OS", gs, t);
  }

  /** The middle of three joined texts, and the texts around it. */
  lemma Seg(p: string, v: string, q: string)
    ensures (p + v + q)[..|p|] == p
    ensures (p + v + q)[|p|..|p| + |v|] == v
    ensures (p + v + q)[|p| + |v|..] == q
  {
  }

  /** The summary is there exactly when no part raises, and then it has the
      layout of the line with the system, the CPU text, the RAM text, the
      drive parts joined by " | ", the OS, the GPU text and the Python stack;
      the GPU segment is absent when GPUs are not checked or the first entry
      is an error. */
  lemma SystemSummarySpec(diag: Diagnostics, checkGpu: bool, pyStack: Option<string>)
    ensures var r := SystemSummary(diag, checkGpu, pyStack);
      && (r.Some? <==> (CpuText(diag.cpu).Some? && RamText(diag.ram).Some?
            && StorageParts(diag.storage).Some? && GpuText(checkGpu, diag.gpu).Some? && pyStack.Some?))
      && (r.Some? ==> LineLayout(r.value, StrOf(diag.system), CpuText(diag.cpu).value, RamText(diag.ram).value,
            Joined(StorageParts(diag.storage)).value, StrOf(diag.os), GpuText(checkGpu, diag.gpu).value, pyStack.value))
      && ((!checkGpu || diag.gpu == [] || "Error" in diag.gpu[0]) ==> GpuText(checkGpu, diag.gpu) == Some(""))
  {
    var r := SystemSummary(diag, checkGpu, pyStack);
    if r.Some? {
      LineSpec(StrOf(diag.system), CpuText(diag.cpu).value, RamText(diag.ram).value,
        JoinWith(" | ", StorageParts(diag.storage).value), StrOf(diag.os),
        GpuText(checkGpu, diag.gpu).value, pyStack.value);
    }
  }
}
