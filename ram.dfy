/** `get_ram_info` (utils/sysinfo.py): the Windows aggregation of the DIMM
    records PowerShell reports, and the Linux "advertised" total rounded up
    from `MemTotal` in `/proc/meminfo`. */
module Ram {
  import opened PyStr
  import opened PyValue

  /** One `Win32_PhysicalMemory` record; a missing key reads as `VNone`. */
  datatype Dimm = Dimm(capacity: Value, speed: Value, typeCode: Value)

  /** `int(d.get("Capacity", 0) or 0)`; None when `int` raises. */
  function CapacityValue(v: Value): Option<int> {
    match v
    case VNone => Some(0)
    case VBool(b) => Some(if b then 1 else 0)
    case VInt(i) => Some(i)
    case VStr(s) => if s == [] then Some(0) else ParseInt(s)
    case VList(items) => if items == [] then Some(0) else None
  }

  /** `v and str(v).isdigit()`, then `int(v)`: a positive integer, or a
      non-empty string of digits read in base 10. */
  function DigitField(v: Value): (r: Option<nat>)
    ensures r.Some? <==> (v.VInt? && v.i > 0) || (v.VStr? && v.s != [] && AllDigits(v.s))
    ensures v.VInt? && r.Some? ==> r.value == v.i
  {
    match v
    case VInt(i) => if i > 0 then Some(i) else None
    case VStr(s) => if s != [] && AllDigits(s) then Some(DigitsValue(s)) else None
    case _ => None
  }

  /** The SMBIOS memory type codes that have a name. */
  function TypeName(code: nat): Option<string> {
    if code == 20 then Some("DDR")
    else if code == 21 then Some("DDR2")
    else if code == 24 then Some("DDR3")
    else if code == 26 then Some("DDR4")
    else if code == 27 then Some("LPDDR")
    else if code == 28 then Some("LPDDR2")
    else if code == 29 then Some("LPDDR3")
    else if code == 30 then Some("LPDDR4")
    else None
  }

  /** The speeds appended for `ds`, in order. */
  function Speeds(ds: seq<Dimm>): seq<nat> {
    if ds == [] then []
    else
      var s := DigitField(ds[|ds| - 1].speed);
      Speeds(ds[..|ds| - 1]) + (if s.Some? then [s.value] else [])
  }

  /** The type code of a record, when it has a name. */
  function TypeOf(d: Dimm): Option<string> {
    var t := DigitField(d.typeCode);
    if t.Some? then TypeName(t.value) else None
  }

  /** The type names appended for `ds`, in order. */
  function Types(ds: seq<Dimm>): seq<string> {
    if ds == [] then []
    else
      var t := TypeOf(ds[|ds| - 1]);
      Types(ds[..|ds| - 1]) + (if t.Some? then [t.value] else [])
  }

  /** Every record's capacity is one `int()` can read. */
  predicate AllReadable(ds: seq<Dimm>) {
    ds == [] || (AllReadable(ds[..|ds| - 1]) && CapacityValue(ds[|ds| - 1].capacity).Some?)
  }

  lemma {:induction false} AllReadableSpec(ds: seq<Dimm>)
    ensures AllReadable(ds) <==> forall k :: 0 <= k < |ds| ==> CapacityValue(ds[k].capacity).Some?
    decreases |ds|
  {
    if ds != [] {
      var p := ds[..|ds| - 1];
      AllReadableSpec(p);
      assert forall k :: 0 <= k < |p| ==> p[k] == ds[k];
    }
  }

  /** The loop over the records: a capacity `int()` cannot read raises and
      ends it; otherwise every record contributes its speed and its type. */
  method CollectDimms(dimms: seq<Dimm>) returns (ok: bool, speeds: seq<nat>, types: seq<string>)
    ensures ok <==> AllReadable(dimms)
    ensures ok ==> speeds == Speeds(dimms) && types == Types(dimms)
  {
    speeds, types := [], [];
    var i := 0;
    while i < |dimms|
      invariant 0 <= i <= |dimms|
      invariant AllReadable(dimms[..i])
      invariant speeds == Speeds(dimms[..i]) && types == Types(dimms[..i])
    {
      var d := dimms[i];
      RecordsSnoc(dimms, i);
      if CapacityValue(d.capacity).None? {
        NotAllReadable(dimms, i);
        return false, speeds, types;
      }
      var spd := DigitField(d.speed);
      if spd.Some? {
        speeds := speeds + [spd.value];
      }
      var t := DigitField(d.typeCode);
      if t.Some? && TypeName(t.value).Some? {
        types := types + [TypeName(t.value).value];
      }
      i := i + 1;
    }
    assert dimms[..i] == dimms;
    ok := true;
  }

  lemma RecordsSnoc(ds: seq<Dimm>, i: nat)
    requires i < |ds|
    ensures AllReadable(ds[..i + 1]) == (AllReadable(ds[..i]) && CapacityValue(ds[i].capacity).Some?)
    ensures var s := DigitField(ds[i].speed);
      Speeds(ds[..i + 1]) == Speeds(ds[..i]) + (if s.Some? then [s.value] else [])
    ensures var t := TypeOf(ds[i]);
      Types(ds[..i + 1]) == Types(ds[..i]) + (if t.Some? then [t.value] else [])
  {
    assert ds[..i + 1][..i] == ds[..i];
  }

  /** One unreadable capacity makes the whole list unreadable. */
  lemma NotAllReadable(ds: seq<Dimm>, i: nat)
    requires i < |ds| && CapacityValue(ds[i].capacity).None?
    ensures !AllReadable(ds)
  {
    AllReadableSpec(ds);
  }

  /** Every speed collected is one some record reported. */
  lemma {:induction false} SpeedsFromRecords(ds: seq<Dimm>)
    ensures forall k :: 0 <= k < |Speeds(ds)| ==>
      exists j :: 0 <= j < |ds| && DigitField(ds[j].speed) == Some(Speeds(ds)[k])
    decreases |ds|
  {
    if ds != [] {
      var p := ds[..|ds| - 1];
      SpeedsFromRecords(p);
      forall k | 0 <= k < |Speeds(ds)|
        ensures exists j :: 0 <= j < |ds| && DigitField(ds[j].speed) == Some(Speeds(ds)[k])
      {
        if k < |Speeds(p)| {
          assert Speeds(ds)[k] == Speeds(p)[k];
          var j :| 0 <= j < |p| && DigitField(p[j].speed) == Some(Speeds(p)[k]);
          assert ds[j] == p[j];
        } else {
          var s := DigitField(ds[|ds| - 1].speed);
          assert s.Some? && Speeds(ds)[k] == s.value;
        }
      }
    } else {
      assert Speeds(ds) == [];
    }
  }

  /** `sorted` values strictly increase. */
  predicate Increasing(s: seq<int>) {
    forall i, j :: 0 <= i < j < |s| ==> s[i] < s[j]
  }

  /** Puts `x` into an increasing sequence, once. */
  function Insert(x: int, s: seq<int>): (r: seq<int>)
    requires Increasing(s)
    ensures Increasing(r)
    ensures forall y :: y in r <==> y == x || y in s
  {
    if s == [] then [x]
    else if x < s[0] then [x] + s
    else if x == s[0] then s
    else
      var t := Insert(x, s[1..]);
      ConsIncreasing(s, x, t);
      [s[0]] + t
  }

  lemma ConsIncreasing(s: seq<int>, x: int, t: seq<int>)
    requires Increasing(s) && s != [] && x > s[0] && Increasing(t)
    requires forall y :: y in t <==> y == x || y in s[1..]
    ensures Increasing([s[0]] + t)
  {
    forall j | 0 <= j < |t|
      ensures s[0] < t[j]
    {
      assert t[j] in t;
      if t[j] != x { TailAbove(s, t[j]); }
    }
  }

  /** `sorted(set(s))`. */
  function SortedSet(s: seq<int>): (r: seq<int>)
    ensures Increasing(r)
    ensures forall y :: y in r <==> y in s
  {
    if s == [] then [] else Insert(s[|s| - 1], SortedSet(s[..|s| - 1]))
  }

  /** An increasing sequence is fixed by its elements, so `SortedSet` is the
      only increasing arrangement of the distinct values. */
  lemma {:induction false} IncreasingUnique(a: seq<int>, b: seq<int>)
    requires Increasing(a) && Increasing(b)
    requires forall y :: y in a <==> y in b
    ensures a == b
    decreases |a|
  {
    if a != [] { assert a[0] in a; }
    if b != [] { assert b[0] in b; }
    if a != [] && b != [] {
      // Both heads are the least element of the same set.
      HeadIsLeast(a, b[0]);
      HeadIsLeast(b, a[0]);
      forall y
        ensures y in a[1..] <==> y in b[1..]
      {
        if y in a[1..] {
          TailAbove(a, y);
          InTail(b, y);
        }
        if y in b[1..] {
          TailAbove(b, y);
          InTail(a, y);
        }
      }
      IncreasingUnique(a[1..], b[1..]);
    }
  }

  lemma HeadIsLeast(s: seq<int>, y: int)
    requires Increasing(s) && y in s
    ensures s[0] <= y
  {
    var k :| 0 <= k < |s| && s[k] == y;
  }

  lemma TailAbove(s: seq<int>, y: int)
    requires Increasing(s) && s != [] && y in s[1..]
    ensures y in s && s[0] < y
  {
    var k :| 0 <= k < |s| - 1 && s[1..][k] == y;
    assert s[k + 1] == y;
  }

  lemma InTail(s: seq<int>, y: int)
    requires y in s && s != [] && y != s[0]
    ensures y in s[1..]
  {
    var k :| 0 <= k < |s| && s[k] == y;
    assert s[1..][k - 1] == y;
  }

  /** "Memory Type": one name when every record agrees, else the list. */
  datatype MemoryType = OneType(name: string) | MixedTypes(names: seq<string>)

  function MemoryTypeOf(types: seq<string>): (r: Option<MemoryType>)
    ensures r.None? <==> types == []
    ensures r.Some? && r.value.OneType? ==> forall t <- types :: t == r.value.name
    ensures r.Some? && r.value.MixedTypes? ==> r.value.names == types && exists i, j :: 0 <= i < j < |types| && types[i] != types[j]
  {
    if types == [] then None
    else if forall t <- types :: t == types[0] then Some(OneType(types[0]))
    else
      var t :| t in types && t != types[0];
      var j :| 0 <= j < |types| && types[j] == t;
      assert 0 < j && types[0] != types[j];
      Some(MixedTypes(types))
  }

  /** What the Windows branch records: the speeds and the memory type, or
      an error, in which case neither is set. */
  datatype WindowsRam = WindowsRam(speeds: seq<int>, memoryType: Option<MemoryType>, error: bool)

  method WindowsRamInfo(dimms: seq<Dimm>) returns (r: WindowsRam)
    ensures r.error <==> !AllReadable(dimms)
    ensures r.error ==> r.speeds == [] && r.memoryType.None?
    ensures !r.error ==> r.speeds == SortedSet(Speeds(dimms)) && r.memoryType == MemoryTypeOf(Types(dimms))
  {
    var ok, speeds, types := CollectDimms(dimms);
    if !ok {
      return WindowsRam([], None, true);
    }
    r := WindowsRam([], None, false);
    if speeds != [] {
      r := r.(speeds := SortedSet(speeds));
    }
    if types != [] {
      r := r.(memoryType := MemoryTypeOf(types));
    }
  }

  /** `ceil(n / d)` for `d > 0`. */
  function CeilDiv(n: int, d: int): int
    requires d > 0
  {
    -((-n) / d)
  }

  const KIB_PER_GIB: int := 1024 * 1024

  /** `int(math.ceil(kb / 1024**2 / 4.0)) * 4`, in exact arithmetic. */
  function AdvertisedGb(kb: int): int {
    4 * CeilDiv(kb, 4 * KIB_PER_GIB)
  }

  /** The advertised total is the least multiple of 4 GiB that holds the
      usable memory: divisible by 4, at least the usable GiB, and less than
      4 GiB above them. */
  lemma AdvertisedGbSpec(kb: int)
    ensures AdvertisedGb(kb) % 4 == 0
    ensures AdvertisedGb(kb) * KIB_PER_GIB >= kb
    ensures (AdvertisedGb(kb) - 4) * KIB_PER_GIB < kb
    ensures forall m: int :: m % 4 == 0 && m * KIB_PER_GIB >= kb ==> m >= AdvertisedGb(kb)
  {
    var q := (-kb) / (4 * KIB_PER_GIB);
    assert q * (4 * KIB_PER_GIB) <= -kb < (q + 1) * (4 * KIB_PER_GIB);
    forall m: int | m % 4 == 0 && m * KIB_PER_GIB >= kb
      ensures m >= AdvertisedGb(kb)
    {
      var c := m / 4;
      assert m == 4 * c;
    }
  }

  /** The index of the first line starting with `p`. */
  function FirstStarting(lines: seq<string>, p: string): (r: Option<nat>)
    ensures r.Some? ==>
      (r.value < |lines| && StartsWith(lines[r.value], p) && forall k :: 0 <= k < r.value ==> !StartsWith(lines[k], p))
    ensures r.None? ==> forall k :: 0 <= k < |lines| ==> !StartsWith(lines[k], p)
  {
    if lines == [] then None
    else if StartsWith(lines[0], p) then Some(0)
    else
      var r := FirstStarting(lines[1..], p);
      if r.Some? then Some(r.value + 1) else None
  }

  /** `int(line.split()[1])`; None when there is no second word or `int` raises. */
  function KbOf(line: string): Option<int> {
    var ws := Words(line);
    if |ws| < 2 then None else ParseInt(ws[1])
  }

  /** The `/proc/meminfo` loop: the first `MemTotal:` line gives the
      advertised total and ends the loop; a file that cannot be opened, or a
      `MemTotal:` line without a readable number, records an error instead. */
  method ScanMeminfo(file: Option<seq<string>>) returns (advertised: Option<int>, error: bool)
    ensures file.None? ==> advertised.None? && error
    ensures file.Some? ==> match FirstStarting(file.value, "MemTotal:")
      case None => advertised.None? && !error
      case Some(i) =>
        var kb := KbOf(file.value[i]);
        && (kb.None? ==> advertised.None? && error)
        && (kb.Some? ==> advertised == Some(AdvertisedGb(kb.value)) && !error)
  {
    if file.None? {
      return None, true;
    }
    var lines := file.value;
    advertised, error := None, false;
    var i := 0;
    while i < |lines|
      invariant 0 <= i <= |lines|
      invariant forall k :: 0 <= k < i ==> !StartsWith(lines[k], "MemTotal:")
    {
      if StartsWith(lines[i], "MemTotal:") {
        var kb := KbOf(lines[i]);
        if kb.None? {
          return None, true;
        }
        advertised := Some(AdvertisedGb(kb.value));
        break;
      }
      i := i + 1;
    }
  }

  /** A 16 GB machine reports slightly less than 16 GiB usable, which is
      advertised as 16. */
  lemma SixteenGigabytes()
    ensures AdvertisedGb(16 * KIB_PER_GIB - 300000) == 16
  {
    AdvertisedGbSpec(16 * KIB_PER_GIB - 300000);
  }
}
