/** The pieces of Python's `str` behaviour that the diagnostics and conversion
    code relies on: whitespace, stripping, splitting, ASCII case mapping,
    decimal conversion in both directions, joining and replacement. */
module PyStr {

  datatype Option<+T> = None | Some(value: T)

  /** `str.isspace()` for one character: the Unicode whitespace set that Python's
      `str.split()`, `str.strip()` and the regular expression class `\s` share. */
  predicate IsSpace(c: char) {
    c == ' ' || ('\t' <= c <= '\r') || ('\U{1c}' <= c <= '\U{1f}')
    || c == '\U{85}' || c == '\U{a0}' || c == '\U{1680}'
    || ('\U{2000}' <= c <= '\U{200a}') || c == '\U{2028}' || c == '\U{2029}'
    || c == '\U{202f}' || c == '\U{205f}' || c == '\U{3000}'
  }

  predicate IsDigit(c: char) { '0' <= c <= '9' }

  predicate AllDigits(s: string) { forall i :: 0 <= i < |s| ==> IsDigit(s[i]) }

  /** A character of the regular-expression class `\w` (ASCII letters, digits, '_'). */
  predicate IsWordChar(c: char) {
    IsDigit(c) || ('a' <= c <= 'z') || ('A' <= c <= 'Z') || c == '_'
  }

  function Lower(c: char): char {
    if 'A' <= c <= 'Z' then (c as int + 32) as char else c
  }

  function Upper(c: char): char {
    if 'a' <= c <= 'z' then (c as int - 32) as char else c
  }

  /** `s.upper()` on ASCII letters. */
  function ToUpper(s: string): (r: string)
    ensures |r| == |s| && forall i :: 0 <= i < |s| ==> r[i] == Upper(s[i])
  {
    if s == [] then [] else [Upper(s[0])] + ToUpper(s[1..])
  }

  /** Equality under ASCII case folding, as the `re.IGNORECASE` flag compares literals. */
  predicate EqIgnoreCase(a: string, b: string) {
    |a| == |b| && forall i :: 0 <= i < |a| ==> Lower(a[i]) == Lower(b[i])
  }

  predicate StartsWith(s: string, p: string) { |p| <= |s| && s[..|p|] == p }

  predicate EndsWith(s: string, p: string) { |p| <= |s| && s[|s| - |p|..] == p }

  predicate OccursAt(s: string, t: string, i: int) {
    0 <= i <= |s| - |t| && s[i..i + |t|] == t
  }

  /** Python's `t in s`. */
  predicate Contains(s: string, t: string) {
    exists i | 0 <= i <= |s| :: OccursAt(s, t, i)
  }

  /** Index of the leftmost occurrence of `t` in `s` at or after `from`. */
  function IndexOfFrom(s: string, t: string, from: nat): (r: Option<nat>)
    decreases |s| - from
    ensures r.Some? ==> from <= r.value && OccursAt(s, t, r.value)
    ensures r.Some? ==> forall j :: from <= j < r.value ==> !OccursAt(s, t, j)
    ensures r.None? ==> forall j :: from <= j ==> !OccursAt(s, t, j)
  {
    if from + |t| > |s| then None
    else if s[from..from + |t|] == t then Some(from)
    else IndexOfFrom(s, t, from + 1)
  }

  function IndexOf(s: string, t: string): (r: Option<nat>)
    ensures r.Some? <==> Contains(s, t)
    ensures r.Some? ==> OccursAt(s, t, r.value) && forall j :: 0 <= j < r.value ==> !OccursAt(s, t, j)
  {
    IndexOfFrom(s, t, 0)
  }

  /** `s.lstrip(c)` for one character `c`. */
  function LStripChar(s: string, c: char): (r: string)
    ensures |r| <= |s|
  {
    if s != [] && s[0] == c then LStripChar(s[1..], c) else s
  }

  /** `s.rstrip(c)` for one character `c`. */
  function RStripChar(s: string, c: char): (r: string)
    ensures |r| <= |s|
  {
    if s != [] && s[|s| - 1] == c then RStripChar(s[..|s| - 1], c) else s
  }

  /** `s.strip(c)` for one character `c`. */
  function StripChar(s: string, c: char): string {
    RStripChar(LStripChar(s, c), c)
  }

  /** A value wrapped in one pair of `c`s, and not itself starting or ending
      with `c`, comes back unwrapped. */
  lemma StripCharWrapped(v: string, c: char)
    requires v == [] || (v[0] != c && v[|v| - 1] != c)
    ensures StripChar([c] + v + [c], c) == v
  {
    var w := [c] + v + [c];
    assert w[1..] == v + [c];
    if v == [] {
      assert w == [c, c] && w[1..] == [c] && [c][1..] == [];
      assert LStripChar(w, c) == LStripChar([c], c) == LStripChar([], c) == [];
    } else {
      assert (v + [c])[0] == v[0];
      assert LStripChar(w, c) == LStripChar(v + [c], c) == v + [c];
      assert (v + [c])[..|v|] == v;
      assert RStripChar(v + [c], c) == RStripChar(v, c) == v;
    }
  }

  /** A value that neither starts nor ends with `c` is left alone. */
  lemma StripCharBare(v: string, c: char)
    requires v == [] || (v[0] != c && v[|v| - 1] != c)
    ensures StripChar(v, c) == v
  {
  }

  /** `s.lstrip()`: `s` without its leading whitespace. */
  function LStrip(s: string): (r: string)
    ensures |r| <= |s|
  {
    if s != [] && IsSpace(s[0]) then LStrip(s[1..]) else s
  }

  /** `s.rstrip()`: `s` without its trailing whitespace. */
  function RStrip(s: string): (r: string)
    ensures |r| <= |s|
  {
    if s != [] && IsSpace(s[|s| - 1]) then RStrip(s[..|s| - 1]) else s
  }

  /** `s.strip()`. */
  function Strip(s: string): string {
    RStrip(LStrip(s))
  }

  /** `lstrip()` removes a prefix of whitespace and stops at the first other character. */
  lemma {:induction false} LStripSpec(s: string)
    ensures var r := LStrip(s);
      && r == s[|s| - |r|..]
      && (r == [] || !IsSpace(r[0]))
      && forall i :: 0 <= i < |s| - |r| ==> IsSpace(s[i])
    decreases |s|
  {
    if s != [] && IsSpace(s[0]) {
      LStripSpec(s[1..]);
    }
  }

  /** `rstrip()` removes a suffix of whitespace and stops at the last other character. */
  lemma {:induction false} RStripSpec(s: string)
    ensures var r := RStrip(s);
      && r == s[..|r|]
      && (r == [] || !IsSpace(r[|r| - 1]))
      && forall i :: |r| <= i < |s| ==> IsSpace(s[i])
    decreases |s|
  {
    if s != [] && IsSpace(s[|s| - 1]) {
      RStripSpec(s[..|s| - 1]);
    }
  }

  /** Stripping never leaves whitespace at either end. */
  lemma StripEnds(s: string)
    ensures var r := Strip(s); r == [] || (!IsSpace(r[0]) && !IsSpace(r[|r| - 1]))
  {
    var l := LStrip(s);
    LStripSpec(s);
    RStripSpec(l);
    var r := RStrip(l);
    if r != [] {
      assert r[0] == l[0];
    }
  }

  /** The longest prefix of `s` holding no whitespace. */
  function TakeWord(s: string): (w: string)
    ensures |w| <= |s| && w == s[..|w|]
    ensures forall i :: 0 <= i < |w| ==> !IsSpace(w[i])
    ensures |w| < |s| ==> IsSpace(s[|w|])
  {
    if s == [] || IsSpace(s[0]) then [] else [s[0]] + TakeWord(s[1..])
  }

  /** `s.split()`: the maximal runs of non-whitespace characters, in order. */
  function Words(s: string): (ws: seq<string>)
    decreases |s|
    ensures forall k :: 0 <= k < |ws| ==> ws[k] != [] && forall i :: 0 <= i < |ws[k]| ==> !IsSpace(ws[k][i])
  {
    var t := LStrip(s);
    if t == [] then []
    else
      var w := TakeWord(t);
      assert |w| > 0 by { LStripSpec(s); }
      [w] + Words(t[|w|..])
  }

  /** `split()` ignores leading whitespace. */
  lemma WordsLStrip(s: string)
    ensures Words(LStrip(s)) == Words(s)
  {
    LStripSpec(s);
  }

  /** A whitespace character in front changes no word. */
  lemma WordsSpace(c: char, s: string)
    requires IsSpace(c)
    ensures Words([c] + s) == Words(s)
  {
    assert ([c] + s)[1..] == s;
  }

  /** A non-empty run without whitespace, followed by nothing or by
      whitespace, is the first word. */
  lemma WordsCons(w: string, rest: string)
    requires w != [] && forall i :: 0 <= i < |w| ==> !IsSpace(w[i])
    requires rest == [] || IsSpace(rest[0])
    ensures Words(w + rest) == [w] + Words(rest)
  {
    var s := w + rest;
    assert s[0] == w[0];
    TakeWordPrefix(w, rest);
    assert s[|w|..] == rest;
  }

  lemma {:induction false} TakeWordPrefix(w: string, rest: string)
    requires forall i :: 0 <= i < |w| ==> !IsSpace(w[i])
    requires rest == [] || IsSpace(rest[0])
    ensures TakeWord(w + rest) == w
    decreases |w|
  {
    var s := w + rest;
    if w == [] {
      assert s == rest;
    } else {
      assert s[0] == w[0] && s[1..] == w[1..] + rest;
      TakeWordPrefix(w[1..], rest);
      assert w == [w[0]] + w[1..];
    }
  }

  /** `rstrip()` of a concatenation: the whitespace at the end of `y` goes,
      and when `y` is nothing but whitespace, so does the end of `a`. */
  lemma {:induction false} RStripAppend(a: string, y: string)
    ensures RStrip(a + y) == if RStrip(y) == [] then RStrip(a) else a + RStrip(y)
    decreases |y|
  {
    if y == [] {
      assert a + y == a;
    } else if IsSpace(y[|y| - 1]) {
      assert (a + y)[..|a + y| - 1] == a + y[..|y| - 1];
      RStripAppend(a, y[..|y| - 1]);
    }
  }

  /** `s.split(sep, 1)`: the text before the first `sep` and, when there is
      one, the text after it. */
  function SplitOnce(s: string, sep: string): (r: (string, Option<string>))
    requires sep != []
  {
    match IndexOf(s, sep)
    case None => (s, None)
    case Some(i) => (s[..i], Some(s[i + |sep|..]))
  }

  /** There is a second part exactly when `sep` occurs; the first part and
      `sep` and the second give back `s`, and `sep` does not occur before the
      cut (not even overlapping it). */
  lemma SplitOnceSpec(s: string, sep: string)
    requires sep != []
    ensures var r := SplitOnce(s, sep);
      && (r.1.None? <==> !Contains(s, sep))
      && (r.1.None? ==> r.0 == s)
      && (r.1.Some? ==> r.0 + sep + r.1.value == s && !Contains(r.0 + sep[..|sep| - 1], sep))
  {
    match IndexOf(s, sep)
    case None =>
    case Some(i) =>
      assert OccursAt(s, sep, i);
      var a, m, b := s[..i], s[i..i + |sep|], s[i + |sep|..];
      assert s[i..] == m + b;
      assert s == a + s[i..];
      assert m == sep;
      var u := s[..i] + sep[..|sep| - 1];
      assert u == s[..i + |sep| - 1] by {
        assert s[i..i + |sep|] == sep;
      }
      assert forall j :: 0 <= j < i ==> !OccursAt(s, sep, j);
      forall j | 0 <= j <= |u| - |sep| ensures !OccursAt(u, sep, j) {
        assert j < i;
        assert !OccursAt(s, sep, j);
        assert u[j..j + |sep|] == s[j..j + |sep|];
      }
      assert !Contains(u, sep);
  }

  function DigitValue(c: char): nat
    requires IsDigit(c)
  {
    c as int - '0' as int
  }

  function DigitChar(d: nat): (c: char)
    requires d < 10
    ensures IsDigit(c) && DigitValue(c) == d
  {
    ('0' as int + d) as char
  }

  /** The value of a string of decimal digits, most significant first. */
  function DigitsValue(s: string): nat
    requires AllDigits(s)
  {
    if s == [] then 0 else DigitsValue(s[..|s| - 1]) * 10 + DigitValue(s[|s| - 1])
  }

  /** `str(n)` for a natural number. */
  function NatToStr(n: nat): (r: string)
    ensures r != [] && AllDigits(r)
    ensures |r| > 1 ==> r[0] != '0'
  {
    if n < 10 then [DigitChar(n)] else NatToStr(n / 10) + [DigitChar(n % 10)]
  }

  /** `str(n)` for any integer. */
  function IntToStr(n: int): string {
    if n < 0 then "-" + NatToStr(-n) else NatToStr(n)
  }

  /** Reading back what `str` wrote gives the number. */
  lemma {:induction false} NatToStrValue(n: nat)
    ensures DigitsValue(NatToStr(n)) == n
  {
    if n >= 10 {
      NatToStrValue(n / 10);
      var s := NatToStr(n);
      assert s[..|s| - 1] == NatToStr(n / 10);
    }
  }

  /** Writing the value of a digit string with no superfluous leading zero gives it back. */
  lemma {:induction false} DigitsRoundTrip(s: string)
    requires s != [] && AllDigits(s) && (|s| > 1 ==> s[0] != '0')
    ensures NatToStr(DigitsValue(s)) == s
  {
    if |s| == 1 {
    } else {
      var p := s[..|s| - 1];
      DigitsRoundTrip(p);
      LeadingDigitBound(p);
      var v := DigitsValue(s);
      assert v / 10 == DigitsValue(p) && v % 10 == DigitValue(s[|s| - 1]);
      assert v >= 10;
      assert s == p + [s[|s| - 1]];
    }
  }

  /** A digit string of length at least two that starts with a non-zero digit is worth at least 10. */
  lemma {:induction false} LeadingDigitBound(s: string)
    requires s != [] && AllDigits(s) && s[0] != '0'
    ensures DigitsValue(s) >= 1
  {
    if |s| > 1 {
      LeadingDigitBound(s[..|s| - 1]);
    }
  }

  /** One decimal digit group of Python's `int()` syntax: digits, with single
      underscores allowed between two digits. */
  predicate DigitGroups(s: string) {
    s != [] && IsDigit(s[0]) && IsDigit(s[|s| - 1])
    && (forall i :: 0 <= i < |s| ==> IsDigit(s[i]) || s[i] == '_')
    && (forall i :: 0 <= i < |s| - 1 ==> !(s[i] == '_' && s[i + 1] == '_'))
  }

  function DropUnderscores(s: string): (r: string)
    requires forall i :: 0 <= i < |s| ==> IsDigit(s[i]) || s[i] == '_'
    ensures AllDigits(r)
  {
    if s == [] then [] else (if s[0] == '_' then [] else [s[0]]) + DropUnderscores(s[1..])
  }

  /** Python's `int(s)` in base 10: surrounding whitespace, an optional sign,
      then digit groups. `None` is the `ValueError` it raises otherwise. */
  function ParseInt(s: string): (r: Option<int>)
  {
    var t := Strip(s);
    var neg := t != [] && t[0] == '-';
    var body := if t != [] && (t[0] == '-' || t[0] == '+') then t[1..] else t;
    if DigitGroups(body) then
      var v := DigitsValue(DropUnderscores(body)) as int;
      Some(if neg then -v else v)
    else None
  }

  /** Parsing what `str` wrote gives the number back. */
  lemma ParseIntOfIntToStr(n: int)
    ensures ParseInt(IntToStr(n)) == Some(n)
  {
    var m: nat := if n < 0 then -n else n;
    var d := NatToStr(m);
    NatToStrValue(m);
    ParseDigits(d);
    if n < 0 {
      assert IntToStr(n) == "-" + d;
    } else {
      assert IntToStr(n) == d;
    }
  }

  lemma ParseDigits(d: string)
    requires d != [] && AllDigits(d)
    ensures ParseInt(d) == Some(DigitsValue(d) as int)
    ensures ParseInt("-" + d) == Some(-(DigitsValue(d) as int))
  {
    ParsePlainDigits(d);
    ParseNegatedDigits(d);
  }

  lemma ParsePlainDigits(d: string)
    requires d != [] && AllDigits(d)
    ensures ParseInt(d) == Some(DigitsValue(d) as int)
  {
    DropUnderscoresOfDigits(d);
    DigitsAreGroups(d);
    StripNoSpace(d);
    assert IsDigit(d[0]);
    assert d[0] != '-' && d[0] != '+';
  }

  lemma ParseNegatedDigits(d: string)
    requires d != [] && AllDigits(d)
    ensures ParseInt("-" + d) == Some(-(DigitsValue(d) as int))
  {
    DropUnderscoresOfDigits(d);
    DigitsAreGroups(d);
    var m := "-" + d;
    StripNoSpace(m);
    assert m[1..] == d;
  }

  lemma DigitsAreGroups(d: string)
    requires d != [] && AllDigits(d)
    ensures DigitGroups(d)
  {
  }

  lemma {:induction false} DropUnderscoresOfDigits(s: string)
    requires AllDigits(s)
    ensures DropUnderscores(s) == s
  {
    if s != [] {
      DropUnderscoresOfDigits(s[1..]);
    }
  }

  lemma StripNoSpace(s: string)
    requires s != [] && !IsSpace(s[0]) && !IsSpace(s[|s| - 1])
    ensures Strip(s) == s
  {
  }

  /** One space in front of such a string is stripped away. */
  lemma StripLeadingSpace(s: string)
    requires s != [] && !IsSpace(s[0]) && !IsSpace(s[|s| - 1])
    ensures Strip(" " + s) == s
  {
    assert (" " + s)[1..] == s;
    assert LStrip(" " + s) == LStrip(s) == s;
  }

  /** No character of `s` is `c`. */
  predicate Lacks(s: string, c: char) { forall i :: 0 <= i < |s| ==> s[i] != c }

  /** `sep.join(parts)`. */
  function JoinWith(sep: string, parts: seq<string>): string {
    if parts == [] then []
    else if |parts| == 1 then parts[0]
    else parts[0] + sep + JoinWith(sep, parts[1..])
  }

  /** `c * n`: `n` copies of `c`, none when `n` is not positive. */
  function Repeat(c: char, n: int): (r: string)
    ensures |r| == (if n <= 0 then 0 else n)
    ensures forall i :: 0 <= i < |r| ==> r[i] == c
  {
    if n <= 0 then [] else [c] + Repeat(c, n - 1)
  }

  /** `s.replace(pat, rep)`: every non-overlapping occurrence of `pat`, scanning
      from the left, replaced by `rep`. */
  function ReplaceAll(s: string, pat: string, rep: string): string
    requires pat != []
  {
    if |s| < |pat| then s
    else if s[..|pat|] == pat then rep + ReplaceAll(s[|pat|..], pat, rep)
    else [s[0]] + ReplaceAll(s[1..], pat, rep)
  }

  /** A string with no border: no proper non-empty prefix is also a suffix.
      Occurrences of such a string can never overlap. */
  predicate BorderFree(p: string) {
    forall k :: 0 < k < |p| ==> !Border(p, k)
  }

  /** The last `|p| - k` characters of `p` equal its first `|p| - k`. */
  predicate Border(p: string, k: int)
    requires 0 <= k <= |p|
  {
    p[k..] == p[..|p| - k]
  }

  /** When the pattern cannot overlap itself, an occurrence at the very end is
      always replaced, and what precedes it is rewritten on its own. */
  lemma {:induction false} ReplaceAllSuffix(t: string, pat: string, rep: string)
    requires pat != [] && BorderFree(pat)
    ensures ReplaceAll(t + pat, pat, rep) == ReplaceAll(t, pat, rep) + rep
    decreases |t|, 1
  {
    if t == [] {
      assert t + pat == pat;
      assert pat[..|pat|] == pat && pat[|pat|..] == [];
      assert ReplaceAll(pat, pat, rep) == rep + ReplaceAll([], pat, rep);
    } else if |t| >= |pat| && t[..|pat|] == pat {
      ReplaceAllSuffixMatch(t, pat, rep);
    } else {
      ReplaceAllSuffixSkip(t, pat, rep);
    }
  }

  lemma {:induction false} ReplaceAllSuffixMatch(t: string, pat: string, rep: string)
    requires pat != [] && BorderFree(pat)
    requires |t| >= |pat| && t[..|pat|] == pat
    ensures ReplaceAll(t + pat, pat, rep) == ReplaceAll(t, pat, rep) + rep
    decreases |t|, 0
  {
    var s := t + pat;
    assert s[..|pat|] == pat;
    assert s[|pat|..] == t[|pat|..] + pat;
    ReplaceAllSuffix(t[|pat|..], pat, rep);
  }

  lemma {:induction false} ReplaceAllSuffixSkip(t: string, pat: string, rep: string)
    requires pat != [] && BorderFree(pat)
    requires t != [] && !(|t| >= |pat| && t[..|pat|] == pat)
    ensures ReplaceAll(t + pat, pat, rep) == ReplaceAll(t, pat, rep) + rep
    decreases |t|, 0
  {
    var s := t + pat;
    if |t| < |pat| {
      NoMatchAcrossEnd(t, pat);
    } else {
      assert s[..|pat|] == t[..|pat|];
    }
    assert ReplaceAll(s, pat, rep) == [t[0]] + ReplaceAll(s[1..], pat, rep);
    assert s[1..] == t[1..] + pat;
    ReplaceAllSuffix(t[1..], pat, rep);
    if |t| < |pat| {
      assert ReplaceAll(t[1..], pat, rep) == t[1..];
      assert ReplaceAll(t, pat, rep) == t == [t[0]] + t[1..];
    }
  }

  /** A border-free pattern placed after a shorter non-empty text does not
      occur at the text's start. */
  lemma NoMatchAcrossEnd(t: string, pat: string)
    requires BorderFree(pat) && 0 < |t| < |pat|
    ensures (t + pat)[..|pat|] != pat
  {
    var s := t + pat;
    var k := |t|;
    assert s[k..|pat|] == pat[..|pat| - k];
    assert !Border(pat, k);
    assert s[..|pat|][k..] == s[k..|pat|];
  }

  /** Replacing never introduces a character that neither the text nor the
      replacement has. */
  lemma {:induction false} ReplaceAllLacks(s: string, pat: string, rep: string, c: char)
    requires pat != [] && Lacks(s, c) && Lacks(rep, c)
    ensures Lacks(ReplaceAll(s, pat, rep), c)
    decreases |s|
  {
    if |s| < |pat| {
    } else if s[..|pat|] == pat {
      ReplaceAllLacks(s[|pat|..], pat, rep, c);
    } else {
      ReplaceAllLacks(s[1..], pat, rep, c);
    }
  }

  /** A join ends with its last part. */
  lemma {:induction false} JoinWithEndsWith(sep: string, parts: seq<string>)
    requires parts != []
    ensures EndsWith(JoinWith(sep, parts), parts[|parts| - 1])
    decreases |parts|
  {
    if |parts| > 1 {
      JoinWithEndsWith(sep, parts[1..]);
    }
  }

  /** A join of parts whose first part is non-empty starts with that part's
      first character. */
  lemma JoinWithStart(sep: string, parts: seq<string>)
    requires parts != [] && parts[0] != []
    ensures JoinWith(sep, parts) != [] && JoinWith(sep, parts)[0] == parts[0][0]
  {
  }

  /** A part in front of a non-empty list of parts is followed by `sep`. */
  lemma JoinWithCons(sep: string, p: string, parts: seq<string>)
    requires parts != []
    ensures JoinWith(sep, [p] + parts) == p + sep + JoinWith(sep, parts)
  {
    assert ([p] + parts)[1..] == parts;
  }

  /** The joined string starts with the first part. */
  lemma JoinWithStartsWith(sep: string, parts: seq<string>)
    requires parts != []
    ensures StartsWith(JoinWith(sep, parts), parts[0])
  {
    var j := JoinWith(sep, parts);
    if |parts| > 1 {
      assert j == parts[0] + (sep + JoinWith(sep, parts[1..]));
    }
    assert j[..|parts[0]|] == parts[0];
  }

  /** A string without `c` does not start with it. */
  lemma LacksNotStartsWith(s: string, c: char)
    requires Lacks(s, c)
    ensures !StartsWith(s, [c])
  {
    if s != [] {
      assert s[..1] == [s[0]] && s[0] != c;
    }
  }
}
