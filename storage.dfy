/** `get_storage_info` (utils/sysinfo.py): one record per physical drive, from
    the `Get-PhysicalDisk | Format-List` text on Windows and from the `lsblk`
    device list on Linux, with the bus and media type decided from what those
    report. */
module Storage {
  import opened PyStr
  import opened PyValue
  import opened PyDict
  import Units

  /** `None` for a missing entry, else the string. */
  function OptStr(o: Option<string>): Value {
    if o.Some? then VStr(o.value) else VNone
  }

  /** A drive that raised: `{"Error": str(e)}`. */
  function ErrorEntry(errorText: string): Dict {
    map["Error" := VStr(errorText)]
  }

  // ---------------------------------------------------------------- Windows

  /** `key, val = line.split(":", 1)`, both stripped, for a line holding ':'. */
  function KeyValue(line: string): Option<(string, string)> {
    var (k, rest) := SplitOnce(line, ":");
    if rest.None? then None else Some((Strip(k), Strip(rest.value)))
  }

  /** The "key: value" pair each line of a block gives, if any. */
  function Pairs(lines: seq<string>): (r: seq<Option<(string, string)>>)
    ensures |r| == |lines|
  {
    seq(|lines|, i requires 0 <= i < |lines| => KeyValue(lines[i]))
  }

  /** The dictionary one block builds. */
  function BlockInfo(lines: seq<string>): map<string, string> {
    Assign(Pairs(lines))
  }

  /** The loop over the lines of a block. */
  method ParseBlock(lines: seq<string>) returns (info: map<string, string>)
    ensures info == BlockInfo(lines)
  {
    info := map[];
    for i := 0 to |lines|
      invariant info == Assign(Pairs(lines)[..i])
    {
      var kv := KeyValue(lines[i]);
      assert Pairs(lines)[..i + 1][..i] == Pairs(lines)[..i];
      if kv.Some? {
        info := info[kv.value.0 := kv.value.1];
      }
    }
    assert Pairs(lines)[..|lines|] == Pairs(lines);
  }

  /** The media type on Windows: USB for any USB drive; for NVMe and SATA
      the reported media when it is SSD or HDD, else the bus; otherwise the
      bus, or "Unknown" when the bus is empty. Both arguments are upper-cased. */
  function WindowsMediaType(bus: string, media: string): (r: string)
    ensures r != []
    ensures bus == "USB" ==> r == "USB"
    ensures (bus == "NVME" || bus == "SATA") && (media == "SSD" || media == "HDD") ==> r == media
    ensures (bus == "NVME" || bus == "SATA") && media != "SSD" && media != "HDD" ==> r == bus
    ensures bus !in {"USB", "NVME", "SATA"} ==> r == (if bus == [] then "Unknown" else bus)
  {
    if bus == "USB" then "USB"
    else if bus == "NVME" || bus == "SATA" then
      (if media == "SSD" then "SSD" else if media == "HDD" then "HDD" else bus)
    else if bus != [] then bus
    else "Unknown"
  }

  /** The media type is always one of the fixed names or the bus itself. */
  lemma WindowsMediaTypeRange(bus: string, media: string)
    ensures WindowsMediaType(bus, media) in {"USB", "SSD", "HDD", "Unknown", bus}
    ensures WindowsMediaType(bus, media) == "Unknown" ==> bus == [] || bus == "Unknown"
  {
  }

  /** The "Size" entry: a string of digits is rendered by `bytes_to_str`, any
      other non-empty text is kept, and an absent or empty size is `None`. */
  function WindowsSize(size: Option<string>): (r: Value)
    ensures r.VNone? <==> size.None? || size.value == []
    ensures size.Some? && size.value != [] && AllDigits(size.value) ==> r == VStr(Units.BytesToStr(Some(DigitsValue(size.value))))
    ensures size.Some? && size.value != [] && !AllDigits(size.value) ==> r == VStr(size.value)
  {
    if size.None? || size.value == [] then VNone
    else if AllDigits(size.value) then VStr(Units.BytesToStr(Some(DigitsValue(size.value))))
    else VStr(size.value)
  }

  /** `d.get(key)` and `d.get(key, "")` on the block's dictionary. */
  function Lookup(info: map<string, string>, key: string): Option<string> {
    if key in info then Some(info[key]) else None
  }

  function LookupOrEmpty(info: map<string, string>, key: string): string {
    if key in info then info[key] else ""
  }

  /** The record appended for one non-empty block. */
  function WindowsDrive(info: map<string, string>): (d: Dict)
    ensures d.Keys == {"Model", "Manufacturer", "Serial", "Size", "BusType", "MediaType"}
    ensures d["Model"] == OptStr(Lookup(info, "FriendlyName"))
    ensures d["Manufacturer"] == OptStr(Lookup(info, "Manufacturer"))
    ensures d["Serial"] == OptStr(Lookup(info, "SerialNumber"))
    ensures d["Size"] == WindowsSize(Lookup(info, "Size"))
    ensures d["BusType"] == VStr(ToUpper(LookupOrEmpty(info, "BusType")))
    ensures d["MediaType"] == VStr(WindowsMediaType(ToUpper(LookupOrEmpty(info, "BusType")), ToUpper(LookupOrEmpty(info, "MediaType"))))
  {
    var bus := ToUpper(LookupOrEmpty(info, "BusType"));
    var media := ToUpper(LookupOrEmpty(info, "MediaType"));
    map[
      "Model" := OptStr(Lookup(info, "FriendlyName")),
      "Manufacturer" := OptStr(Lookup(info, "Manufacturer")),
      "Serial" := OptStr(Lookup(info, "SerialNumber")),
      "Size" := WindowsSize(Lookup(info, "Size")),
      "BusType" := VStr(bus),
      "MediaType" := VStr(WindowsMediaType(bus, media))
    ]
  }

  /** The records for a sequence of blocks: one per block that has at least
      one "key: value" line. */
  function WindowsDrives(blocks: seq<seq<string>>): seq<Dict> {
    if blocks == [] then []
    else
      var info := BlockInfo(blocks[|blocks| - 1]);
      WindowsDrives(blocks[..|blocks| - 1]) + (if info != map[] then [WindowsDrive(info)] else [])
  }

  /** The output of the PowerShell command, already split into blocks of
      lines, or the text of the exception that running it raised. */
  datatype CommandOutput = Output(blocks: seq<seq<string>>) | Raised(errorText: string)

  /** The Windows branch. */
  method WindowsStorage(output: CommandOutput) returns (drives: seq<Dict>)
    ensures output.Raised? ==> drives == [ErrorEntry(output.errorText)]
    ensures output.Output? ==> drives == WindowsDrives(output.blocks)
  {
    if output.Raised? {
      return [ErrorEntry(output.errorText)];
    }
    var blocks := output.blocks;
    drives := [];
    for i := 0 to |blocks|
      invariant drives == WindowsDrives(blocks[..i])
    {
      assert blocks[..i + 1][..i] == blocks[..i];
      var info := ParseBlock(blocks[i]);
      if info != map[] {
        drives := drives + [WindowsDrive(info)];
      }
    }
    assert blocks[..|blocks|] == blocks;
  }

  /** There are at most as many drives as blocks, and each is a full record
      whose media type follows the bus. */
  lemma {:induction false} WindowsDrivesSpec(blocks: seq<seq<string>>)
    ensures |WindowsDrives(blocks)| <= |blocks|
    ensures forall d: Dict <- WindowsDrives(blocks) ::
      ("MediaType" in d && "BusType" in d && d["MediaType"].VStr? && d["BusType"].VStr?
      && d["MediaType"].s in {"USB", "SSD", "HDD", "Unknown", d["BusType"].s})
    decreases |blocks|
  {
    if blocks != [] {
      WindowsDrivesSpec(blocks[..|blocks| - 1]);
      var info := BlockInfo(blocks[|blocks| - 1]);
      WindowsMediaTypeRange(ToUpper(LookupOrEmpty(info, "BusType")), ToUpper(LookupOrEmpty(info, "MediaType")));
    }
  }

  // ------------------------------------------------------------------ Linux

  /** `lsblk` names that are not physical drives. */
  predicate Kept(name: string) {
    !StartsWith(name, "loop") && !StartsWith(name, "ram")
  }

  /** The devices the filter keeps, in order. */
  function KeptDevices(devs: seq<Dict>): seq<Dict> {
    if devs == [] then []
    else
      var d := devs[|devs| - 1];
      var name := Get(d, "name", VNone);
      KeptDevices(devs[..|devs| - 1]) + (if name.VStr? && Kept(name.s) then [d] else [])
  }

  /** Every device has a string name, so `startswith` can be called on it. */
  predicate AllNamed(devs: seq<Dict>) {
    forall i :: 0 <= i < |devs| ==> Get(devs[i], "name", VNone).VStr?
  }

  /** The filter loop: `name.startswith` raises, uncaught, on a device whose
      name is missing or not a string; the others are kept unless their name
      starts with "loop" or "ram". */
  method FilterDevices(devs: seq<Dict>) returns (raised: bool, kept: seq<Dict>)
    ensures raised <==> !AllNamed(devs)
    ensures !raised ==> kept == KeptDevices(devs)
  {
    kept := [];
    for i := 0 to |devs|
      invariant AllNamed(devs[..i])
      invariant kept == KeptDevices(devs[..i])
    {
      assert devs[..i + 1][..i] == devs[..i];
      var name := Get(devs[i], "name", VNone);
      if !name.VStr? {
        return true, kept;
      }
      if Kept(name.s) {
        kept := kept + [devs[i]];
      }
    }
    assert devs[..|devs|] == devs;
    raised := false;
  }

  /** The filter keeps exactly the devices whose name does not start with
      "loop" or "ram"; `KeptDevicesAppend` states that it keeps their order
      and their repetitions. */
  lemma {:induction false} KeptDevicesSpec(devs: seq<Dict>)
    requires AllNamed(devs)
    ensures forall d <- KeptDevices(devs) :: d in devs && Kept(Get(d, "name", VNone).s)
    ensures forall d <- devs :: Kept(Get(d, "name", VNone).s) ==> d in KeptDevices(devs)
    ensures |KeptDevices(devs)| <= |devs|
    decreases |devs|
  {
    if devs != [] {
      var p := devs[..|devs| - 1];
      assert AllNamed(p) by {
        assert forall i :: 0 <= i < |p| ==> p[i] == devs[i];
      }
      KeptDevicesSpec(p);
      forall d <- devs | Kept(Get(d, "name", VNone).s)
        ensures d in KeptDevices(devs)
      {
        if d != devs[|devs| - 1] {
          var i :| 0 <= i < |devs| && devs[i] == d;
          assert p[i] == d;
        } else {
          assert Get(d, "name", VNone).VStr? by { assert devs[|devs| - 1] == d; }
        }
      }
    }
  }

  /** The filter works device by device: filtering two runs of devices one
      after the other gives the kept devices of each, in order, and a single
      device is kept, once, exactly when it has a string name that passes. */
  lemma {:induction false} KeptDevicesAppend(a: seq<Dict>, b: seq<Dict>)
    ensures KeptDevices(a + b) == KeptDevices(a) + KeptDevices(b)
    ensures |b| == 1 ==> (KeptDevices(b) ==
      (var name := Get(b[0], "name", VNone); if name.VStr? && Kept(name.s) then b else []))
    decreases |b|
  {
    if b == [] {
      assert a + b == a;
    } else {
      var c := b[..|b| - 1];
      KeptDevicesAppend(a, c);
      assert (a + b)[..|a + b| - 1] == a + c;
      assert (a + b)[|a + b| - 1] == b[|b| - 1];
      if |b| == 1 {
        assert c == [];
      }
    }
  }

  /** `s.split(' ')[-1]`: the text after the last space. */
  function LastPiece(s: string): (r: string)
    ensures |r| <= |s|
  {
    if s == [] || s[|s| - 1] == ' ' then []
    else LastPiece(s[..|s| - 1]) + [s[|s| - 1]]
  }

  /** The last piece is a suffix without spaces, preceded by a space unless
      it is the whole string. */
  lemma {:induction false} LastPieceSpec(s: string)
    ensures var r := LastPiece(s);
      && r == s[|s| - |r|..] && Lacks(r, ' ')
      && (|r| < |s| ==> s[|s| - |r| - 1] == ' ')
    decreases |s|
  {
    if s != [] && s[|s| - 1] != ' ' {
      var p := s[..|s| - 1];
      LastPieceSpec(p);
      var q := LastPiece(p);
      assert s[|s| - |q| - 1..] == p[|p| - |q|..] + [s[|s| - 1]];
    }
  }

  /** A string without spaces is its own last piece. */
  lemma {:induction false} LastPieceOfWord(s: string)
    requires Lacks(s, ' ')
    ensures LastPiece(s) == s
    decreases |s|
  {
    if s != [] {
      LastPieceOfWord(s[..|s| - 1]);
    }
  }

  /** The transport: upper-cased and stripped when present and not empty,
      "UNKNOWN" otherwise; None where `strip` raises on a non-string. */
  function Transport(tran: Value): Option<string> {
    if !Truthy(tran) then Some("UNKNOWN")
    else if tran.VStr? then Some(ToUpper(Strip(tran.s)))
    else None
  }

  /** The media type on Linux: SATA and NVMe drives are SSDs exactly when the
      rotational flag reads "0", HDDs otherwise; any other bus is its own
      media type. */
  function LinuxMediaType(bus: string, rota: string): (r: string)
    requires Lacks(bus, ' ')
    ensures bus in {"SATA", "NVME"} ==> (r == "SSD" <==> rota == "0") && r in {"SSD", "HDD"}
    ensures bus !in {"SATA", "NVME"} ==> r == bus
  {
    LastPieceOfWord(bus);
    if bus in {"SATA", "NVME"} then (if rota == "0" then "SSD" else "HDD")
    else LastPiece(bus)
  }

  /** `x.strip() if isinstance(x, str) else x`. */
  function StripIfText(v: Value): Value {
    if v.VStr? then VStr(Strip(v.s)) else v
  }

  /** The "Size" entry: a non-empty string as it is, another truthy value
      through `int()` and `bytes_to_str`, and `None` for an empty or false
      size; None (no entry) where `int()` raises. */
  function LinuxSize(size: Value): (r: Option<Value>)
    ensures size.VStr? && size.s != [] ==> r == Some(size)
    ensures size.VInt? && size.i != 0 ==> r == Some(VStr(Units.BytesToStr(Some(size.i))))
    ensures !Truthy(size) ==> r == Some(VNone)
    ensures r.None? <==> size.VList? && size.items != []
  {
    match size
    case VStr(s) => if s != [] then Some(size) else Some(VNone)
    case VInt(i) => if i != 0 then Some(VStr(Units.BytesToStr(Some(i)))) else Some(VNone)
    case VBool(b) => if b then Some(VStr(Units.BytesToStr(Some(1)))) else Some(VNone)
    case VNone => Some(VNone)
    case VList(items) => if items != [] then None else Some(VNone)
  }

  /** The dictionary appended for a device whose fields were all read. */
  function LinuxRecord(dev: Dict, name: string, size: Value, bus: string, rota: string): (d: Dict)
    requires Lacks(bus, ' ')
    ensures d.Keys == {"Device", "Model", "Vendor", "Serial", "Size", "BusType", "MediaType"}
    ensures "Error" !in d
    ensures d["Model"] == StripIfText(Get(dev, "model", VStr("")))
    ensures d["Vendor"] == StripIfText(Get(dev, "vendor", VStr("")))
    ensures d["Serial"] == StripIfText(Get(dev, "serial", VStr("")))
    ensures "BusType" in d && d["BusType"] == VStr(bus)
    ensures "MediaType" in d && d["MediaType"] == VStr(LinuxMediaType(bus, rota))
    ensures "Device" in d && d["Device"] == VStr("/dev/" + name)
    ensures "Size" in d && d["Size"] == size
  {
    map[
      "Device" := VStr("/dev/" + name),
      "Model" := StripIfText(Get(dev, "model", VStr(""))),
      "Vendor" := StripIfText(Get(dev, "vendor", VStr(""))),
      "Serial" := StripIfText(Get(dev, "serial", VStr(""))),
      "Size" := size,
      "BusType" := VStr(bus),
      "MediaType" := VStr(LinuxMediaType(bus, rota))
    ]
  }

  /** The bus: the last space-separated word of the upper-cased transport. */
  function LinuxBus(tran: string): (bus: string)
    ensures Lacks(bus, ' ')
  {
    LastPieceSpec(ToUpper(tran));
    LastPiece(ToUpper(tran))
  }

  /** The record for one kept device. `rotational(name)` is the content of
      `/sys/block/<name>/queue/rotational`, None when it cannot be opened;
      an exception inside the `try` gives the error entry instead. */
  function LinuxDrive(dev: Dict, rotational: string -> Option<string>, errorText: string): (d: Dict)
    requires Get(dev, "name", VNone).VStr?
  {
    var name := Strip(Get(dev, "name", VNone).s);
    LinuxEntry(dev, name, Transport(Get(dev, "tran", VNone)),
      LinuxSize(StripIfText(Get(dev, "size", VStr("")))), rotational(name), errorText)
  }

  /** The entry from what was read: the transport and size (None where they
      raised) and the rotational flag (None where it could not be opened). */
  function LinuxEntry(dev: Dict, name: string, tran: Option<string>, size: Option<Value>,
                      rota: Option<string>, errorText: string): (d: Dict)
  {
    if tran.None? || size.None? || rota.None? then ErrorEntry(errorText)
    else LinuxRecord(dev, name, size.value, LinuxBus(tran.value), Strip(rota.value))
  }

  /** A device gives an error entry exactly when its transport or size
      raises or its rotational flag cannot be read; otherwise its bus is
      the last word of the upper-cased transport, and SATA or NVMe drives
      are SSDs exactly when the flag reads "0". */
  lemma LinuxEntrySpec(dev: Dict, name: string, tran: Option<string>, size: Option<Value>,
                       rota: Option<string>, errorText: string)
    ensures var d := LinuxEntry(dev, name, tran, size, rota, errorText);
      ("Error" in d <==> tran.None? || size.None? || rota.None?)
      && ("Error" !in d ==>
        && d["Device"] == VStr("/dev/" + name)
        && d["Size"] == size.value
        && d["BusType"] == VStr(LinuxBus(tran.value))
        && (d["BusType"].s in {"SATA", "NVME"} ==>
              (d["MediaType"] == VStr("SSD") <==> Strip(rota.value) == "0"))
        && (d["BusType"].s !in {"SATA", "NVME"} ==> d["MediaType"] == d["BusType"]))
  {
  }

  /** The bus of a transport that did not raise is the last word of the
      transport itself, and "UNKNOWN" when the transport is missing or empty. */
  lemma TransportBus(tran: Value)
    ensures Transport(tran).Some? ==> LinuxBus(Transport(tran).value) == LastPiece(Transport(tran).value)
    ensures !Truthy(tran) ==> LinuxBus(Transport(tran).value) == "UNKNOWN"
  {
    TransportIsUpper(tran);
    if !Truthy(tran) {
      LastPieceOfWord("UNKNOWN");
    }
  }

  /** The transport is already upper-case. */
  lemma TransportIsUpper(tran: Value)
    ensures Transport(tran).Some? ==> ToUpper(Transport(tran).value) == Transport(tran).value
  {
    if Truthy(tran) && tran.VStr? {
      ToUpperIdempotent(Strip(tran.s));
    }
  }

  /** Upper-casing twice is upper-casing once. */
  lemma ToUpperIdempotent(s: string)
    ensures ToUpper(ToUpper(s)) == ToUpper(s)
  {
  }

  /** The records for the kept devices, in order. */
  function LinuxDrives(devs: seq<Dict>, rotational: string -> Option<string>, errorText: string): (r: seq<Dict>)
    requires AllNamed(devs)
    ensures |r| == |devs|
  {
    seq(|devs|, i requires 0 <= i < |devs| => LinuxDrive(devs[i], rotational, errorText))
  }

  /** The Linux branch: None when the name filter raises, else one record
      per kept device, an error entry for each device that raised. */
  method LinuxStorage(devs: seq<Dict>, rotational: string -> Option<string>, errorText: string)
    returns (drives: Option<seq<Dict>>)
    ensures drives.None? <==> !AllNamed(devs)
    ensures drives.Some? ==>
      (AllNamed(KeptDevices(devs)) && drives.value == LinuxDrives(KeptDevices(devs), rotational, errorText))
  {
    var raised, kept := FilterDevices(devs);
    if raised {
      return None;
    }
    KeptNamed(devs);
    var out := LinuxRecords(kept, rotational, errorText);
    drives := Some(out);
  }

  /** The loop over the kept devices: one record each, in order. */
  method LinuxRecords(kept: seq<Dict>, rotational: string -> Option<string>, errorText: string)
    returns (out: seq<Dict>)
    requires AllNamed(kept)
    ensures out == LinuxDrives(kept, rotational, errorText)
  {
    ghost var all := LinuxDrives(kept, rotational, errorText);
    out := [];
    for i := 0 to |kept|
      invariant out == all[..i]
    {
      var d := LinuxDrive(kept[i], rotational, errorText);
      assert d == all[i];
      PrefixStep(all, i);
      out := out + [d];
    }
  }

  /** A prefix one longer is the prefix and the next record. */
  lemma PrefixStep(all: seq<Dict>, i: int)
    requires 0 <= i < |all|
    ensures all[..i + 1] == all[..i] + [all[i]]
  {
  }

  /** The kept devices all have string names. */
  lemma {:induction false} KeptNamed(devs: seq<Dict>)
    ensures AllNamed(KeptDevices(devs))
    decreases |devs|
  {
    if devs != [] {
      KeptNamed(devs[..|devs| - 1]);
    }
  }
}
