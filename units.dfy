/** Python's `round` on an exact quotient, and `bytes_to_str` (utils/sysinfo.py),
    which names a byte count in 1000-based units. */
module Units {
  import opened PyStr

  /** `round(n / d)` for `d > 0`, taking the quotient as an exact rational:
      the nearest integer, and the even one of two equally near. */
  function RoundDiv(n: int, d: int): (q: int)
    requires d > 0
    ensures -d <= 2 * (n - q * d) <= d
    ensures (2 * (n - q * d) == d || 2 * (n - q * d) == -d) ==> q % 2 == 0
  {
    var q := n / d;
    var r := n % d;
    if 2 * r < d then q
    else if 2 * r > d then q + 1
    else if q % 2 == 0 then q
    else q + 1
  }

  /** Those two facts pin the rounded value down: no other integer has them. */
  lemma RoundDivUnique(n: int, d: int, q: int)
    requires d > 0
    requires -d <= 2 * (n - q * d) <= d
    requires (2 * (n - q * d) == d || 2 * (n - q * d) == -d) ==> q % 2 == 0
    ensures q == RoundDiv(n, d)
  {
    var p := RoundDiv(n, d);
    // (p - q) * d lies within [-d, d], so p and q are at most one apart,
    // and one apart needs a tie on both sides, which parity rules out.
    Distrib(p, q, d);
    assert -d <= (p - q) * d <= d;
    SmallFactor(p - q, d);
    UnitFactor(p - q, d);
  }

  lemma UnitFactor(m: int, d: int)
    requires -1 <= m <= 1
    ensures m * d == (if m == 1 then d else if m == -1 then -d else 0)
  {
  }

  /** `(a - b) * d == a * d - b * d`. */
  lemma Distrib(a: int, b: int, d: int)
    ensures (a - b) * d == a * d - b * d
  {
  }

  lemma SmallFactor(m: int, d: int)
    requires d > 0 && -d <= m * d <= d
    ensures -1 <= m <= 1
  {
    if m >= 2 { MulAtLeast(m, 2, d); }
    if m <= -2 { MulAtLeast(-2, m, d); }
  }

  lemma MulAtLeast(a: int, b: int, d: int)
    requires a >= b && d > 0
    ensures a * d >= b * d
  {
  }

  /** The rounded quotient reaches `k` exactly when `n / d` is above `k - 1/2`,
      or equal to it with `k` even (the tie then goes up to `k`). */
  lemma RoundDivAtLeast(n: int, d: int, k: int)
    requires d > 0
    ensures RoundDiv(n, d) >= k <==> 2 * n > (2 * k - 1) * d || (2 * n == (2 * k - 1) * d && k % 2 == 0)
  {
    var q := RoundDiv(n, d);
    HalfBelow(k, d);
    Distrib(q, k, d);
    if q >= k { MulAtLeast(q - k, 0, d); }
    if q > k { MulAtLeast(q - k, 1, d); }
    if q < k { MulAtLeast(k - q, 1, d); }
    if q < k - 1 { MulAtLeast(k - q, 2, d); }
    RoundSteps(n, d, q, k, q * d, k * d);
  }

  lemma HalfBelow(k: int, d: int)
    ensures (2 * k - 1) * d == 2 * (k * d) - d
  {
  }

  /** The same with the products `q * d` and `k * d` named `x` and `z`. */
  lemma RoundSteps(n: int, d: int, q: int, k: int, x: int, z: int)
    requires d > 0 && -d <= 2 * (n - x) <= d
    requires (2 * (n - x) == d || 2 * (n - x) == -d) ==> q % 2 == 0
    requires q == k ==> x == z
    requires q > k ==> x >= z + d
    requires q < k ==> x <= z - d
    requires q < k - 1 ==> x <= z - 2 * d
    ensures q >= k <==> 2 * n > 2 * z - d || (2 * n == 2 * z - d && k % 2 == 0)
  {
  }

  const KB: int := 1000
  const MB: int := 1000 * 1000
  const GB: int := 1000 * 1000 * 1000
  const TB: int := 1000 * 1000 * 1000 * 1000

  /** The units `bytes_to_str` may choose. */
  datatype Unit = Terabytes | Gigabytes | Megabytes | Kilobytes | Bytes

  function Suffix(u: Unit): string {
    match u
    case Terabytes => "TB"
    case Gigabytes => "GB"
    case Megabytes => "MB"
    case Kilobytes => "KB"
    case Bytes => "B"
  }

  /** The number of bytes in one of the unit. */
  function Scale(u: Unit): (s: int)
    ensures s > 0
  {
    match u
    case Terabytes => TB
    case Gigabytes => GB
    case Megabytes => MB
    case Kilobytes => KB
    case Bytes => 1
  }

  /** The unit chosen: each is taken when the size, rounded in the next
      smaller unit, reaches 1000; kilobytes when they round to at least one. */
  function ChooseUnit(b: int): Unit {
    if RoundDiv(b, GB) >= 1000 then Terabytes
    else if RoundDiv(b, MB) >= 1000 then Gigabytes
    else if RoundDiv(b, KB) >= 1000 then Megabytes
    else if RoundDiv(b, KB) >= 1 then Kilobytes
    else Bytes
  }

  /** The number printed before the unit. */
  function Shown(b: int): int {
    RoundDiv(b, Scale(ChooseUnit(b)))
  }

  /** `bytes_to_str(size_bytes)`: "Unknown" for None, otherwise the count
      rounded in the largest unit whose figure reaches 1000 in the next
      smaller one. Half a unit below each 1000 already rounds up to it, so
      the byte ranges start just under the powers of 1000. */
  function BytesToStr(size: Option<int>): (r: string)
    ensures size.None? ==> r == "Unknown"
    ensures size.Some? && size.value >= 999_500_000_000 ==> r == IntToStr(RoundDiv(size.value, TB)) + "TB"
    ensures size.Some? && 999_500_000 <= size.value < 999_500_000_000 ==> r == IntToStr(RoundDiv(size.value, GB)) + "GB"
    ensures size.Some? && 999_500 <= size.value < 999_500_000 ==> r == IntToStr(RoundDiv(size.value, MB)) + "MB"
    ensures size.Some? && 500 < size.value < 999_500 ==> r == IntToStr(RoundDiv(size.value, KB)) + "KB"
    ensures size.Some? && size.value <= 500 ==> r == IntToStr(size.value) + "B"
  {
    if size.None? then "Unknown"
    else
      var b := size.value;
      ChooseUnitThresholds(b);
      RoundDivUnique(b, 1, b);
      IntToStr(Shown(b)) + Suffix(ChooseUnit(b))
  }

  /** The unit in terms of the byte count itself: the cut-offs sit half a unit
      below each 1000, because a tie there rounds up to the even 1000, and at
      500 bytes, because half a kilobyte rounds down to the even 0. */
  lemma ChooseUnitThresholds(b: int)
    ensures ChooseUnit(b) == Terabytes <==> b >= 999_500_000_000
    ensures ChooseUnit(b) == Gigabytes <==> 999_500_000 <= b < 999_500_000_000
    ensures ChooseUnit(b) == Megabytes <==> 999_500 <= b < 999_500_000
    ensures ChooseUnit(b) == Kilobytes <==> 500 < b < 999_500
    ensures ChooseUnit(b) == Bytes <==> b <= 500
  {
    RoundDivAtLeast(b, GB, 1000);
    RoundDivAtLeast(b, MB, 1000);
    RoundDivAtLeast(b, KB, 1000);
    RoundDivAtLeast(b, KB, 1);
  }

  /** The number shown is between 1 and 999 in KB, MB and GB, at least 1 in
      TB, and at most 500 bytes in B; negative counts are shown in bytes. */
  lemma ShownRange(b: int)
    ensures ChooseUnit(b) == Terabytes ==> Shown(b) >= 1
    ensures ChooseUnit(b) in {Gigabytes, Megabytes, Kilobytes} ==> 1 <= Shown(b) <= 999
    ensures ChooseUnit(b) == Bytes ==> Shown(b) == b <= 500
    ensures b < 0 ==> ChooseUnit(b) == Bytes
  {
    ChooseUnitThresholds(b);
    match ChooseUnit(b)
    case Terabytes => RoundDivAtLeast(b, TB, 1);
    case Gigabytes =>
      RoundDivAtLeast(b, GB, 1);
      RoundDivAtLeast(b, GB, 1000);
      RoundDivAtLeast(b, MB, 1000);
    case Megabytes =>
      RoundDivAtLeast(b, MB, 1);
      RoundDivAtLeast(b, MB, 1000);
      RoundDivAtLeast(b, KB, 1000);
    case Kilobytes =>
      RoundDivAtLeast(b, KB, 1);
      RoundDivAtLeast(b, KB, 1000);
    case Bytes =>
      RoundDivUnique(b, 1, b);
  }

  /** Five billion bytes print as "5GB". */
  lemma FiveGigabytes()
    ensures BytesToStr(Some(5 * GB)) == "5GB"
  {
    ChooseUnitThresholds(5 * GB);
    RoundDivUnique(5 * GB, GB, 5);
    assert NatToStr(5) == "5";
  }

  /** 2500 bytes are 2.5 kilobytes, which round to the even 2: "2KB". */
  lemma HalfRoundsToEven()
    ensures BytesToStr(Some(2500)) == "2KB"
  {
    ChooseUnitThresholds(2500);
    RoundDivUnique(2500, KB, 2);
    assert NatToStr(2) == "2";
  }
}
