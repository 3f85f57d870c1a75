/** `make_friendly_cpu_name` (utils/sysinfo.py): trademark and clock-speed
    tokens are scrubbed from the raw processor name, whitespace is collapsed,
    and an Intel Core model number, when present, replaces the whole name. */
module CpuName {
  import opened PyStr

  /** `s[i..]` starts with the literal `lit` under `re.IGNORECASE` (ASCII case folding). */
  predicate MatchesAt(s: string, i: nat, lit: string) {
    i + |lit| <= |s| && EqIgnoreCase(s[i..i + |lit|], lit)
  }

  /** The end of the line holding position `i`: the first '\n' at or after
      `i`, or the end of `s`. The regular-expression `.` stops there. */
  function LineEnd(s: string, i: nat): (e: nat)
    requires i <= |s|
    ensures i <= e <= |s|
    ensures e < |s| ==> s[e] == '\n'
    ensures forall k :: i <= k < e ==> s[k] != '\n'
    decreases |s| - i
  {
    if i == |s| || s[i] == '\n' then i else LineEnd(s, i + 1)
  }

  /** The largest `j` in `lo + 3 .. hi` such that "GHz" (any case) ends at `j`. */
  function LastGhz(s: string, lo: nat, hi: nat): (r: Option<nat>)
    requires lo <= hi <= |s|
    ensures r.Some? ==> lo + 3 <= r.value <= hi && MatchesAt(s, r.value - 3, "GHz")
    ensures forall k :: (if r.Some? then r.value - 2 else lo) <= k && k + 3 <= hi ==> !MatchesAt(s, k, "GHz")
    decreases hi
  {
    if hi < lo + 3 then None
    else if MatchesAt(s, hi - 3, "GHz") then Some(hi)
    else LastGhz(s, lo, hi - 1)
  }

  /** Length of the match of `\(R\)|\(TM\)|CPU|@.*GHz` (ignoring case) at the
      start of `s`, alternatives tried in order; 0 when none matches. The
      greedy `.*` reaches the last "GHz" before the end of the line. */
  function TokenLength(s: string): nat
    requires s != []
  {
    if MatchesAt(s, 0, "(R)") then 3
    else if MatchesAt(s, 0, "(TM)") then 4
    else if MatchesAt(s, 0, "CPU") then 3
    else if s[0] == '@' then
      match LastGhz(s, 1, LineEnd(s, 1))
      case Some(j) => j
      case None => 0
    else 0
  }

  /** `re.sub(r"\(R\)|\(TM\)|CPU|@.*GHz", "", s, flags=re.IGNORECASE)`:
      the scan resumes after each removed token, or one character further on. */
  function Scrub(s: string): (r: string)
    ensures |r| <= |s|
  {
    if s == [] then []
    else
      var n := TokenLength(s);
      if n > 0 then Scrub(s[n..]) else [s[0]] + Scrub(s[1..])
  }

  /** A trademark token at the front, in any case, is removed. */
  lemma ScrubTrademark(t: string, rest: string)
    requires EqIgnoreCase(t, "(R)") || EqIgnoreCase(t, "(TM)") || EqIgnoreCase(t, "CPU")
    ensures Scrub(t + rest) == Scrub(rest)
  {
    var s := t + rest;
    assert s[..|t|] == t;
    if EqIgnoreCase(t, "(TM)") {
      assert Lower(s[1]) == 't';
      assert !MatchesAt(s, 0, "(R)") by { assert s[..3][1] == s[1]; }
    }
    assert TokenLength(s) == |t|;
    assert s[|t|..] == rest;
  }

  /** A clock speed "@...GHz" on one line is removed, up to its last "GHz". */
  lemma ScrubClock(u: string, ghz: string)
    requires Lacks(u, '\n') && EqIgnoreCase(ghz, "GHz")
    ensures Scrub("@" + u + ghz) == []
  {
    var s := "@" + u + ghz;
    assert s[|s| - 3..] == ghz;
    assert forall k :: 1 <= k < |s| ==> s[k] != '\n' by {
      forall k | 1 <= k < |s| ensures s[k] != '\n' {
        if k <= |u| { assert s[k] == u[k - 1]; } else { assert Lower(s[k]) == Lower("GHz"[k - 1 - |u|]); }
      }
    }
    LineEndWithout(s, 1);
    assert MatchesAt(s, |s| - 3, "GHz");
    NoTrademarkAt(s);
    assert TokenLength(s) == |s|;
  }

  /** A string starting with neither '(' nor "cp" (in any case) starts with
      no trademark token. */
  lemma NoTrademarkAt(s: string)
    requires s != [] && s[0] != '('
    requires Lower(s[0]) == 'c' && |s| >= 2 ==> Lower(s[1]) != 'p'
    ensures !MatchesAt(s, 0, "(R)") && !MatchesAt(s, 0, "(TM)") && !MatchesAt(s, 0, "CPU")
  {
    if |s| >= 3 {
      assert s[..3][0] == s[0] && s[..3][1] == s[1];
    }
    if |s| >= 4 {
      assert s[..4][0] == s[0];
    }
  }

  lemma {:induction false} LineEndWithout(s: string, i: nat)
    requires i <= |s| && forall k :: i <= k < |s| ==> s[k] != '\n'
    ensures LineEnd(s, i) == |s|
    decreases |s| - i
  {
    if i < |s| {
      LineEndWithout(s, i + 1);
    }
  }

  /** A character that starts no token is kept. */
  lemma ScrubKeeps(c: char, rest: string)
    requires c != '(' && c != '@' && Lower(c) != 'c'
    ensures Scrub([c] + rest) == [c] + Scrub(rest)
  {
    var s := [c] + rest;
    NoTrademarkAt(s);
    assert s[1..] == rest;
  }

  /** No character of `p` starts a token where it stands: there is no '('
      or '@', and a 'c' in any case is followed, inside `p`, by a character
      other than 'p'. */
  predicate Plain(p: string) {
    forall i :: 0 <= i < |p| ==> PlainAt(p, i)
  }

  predicate PlainAt(p: string, i: nat)
    requires i < |p|
  {
    p[i] != '(' && p[i] != '@' && (Lower(p[i]) == 'c' ==> i + 1 < |p| && Lower(p[i + 1]) != 'p')
  }

  /** Plain text is kept as it is, whatever follows it. */
  lemma {:induction false} ScrubPlain(p: string, rest: string)
    requires Plain(p)
    ensures Scrub(p + rest) == p + Scrub(rest)
    decreases |p|
  {
    if p == [] {
      assert p + rest == rest;
    } else {
      assert PlainAt(p, 0);
      ScrubFirstKept(p, rest);
      PlainTail(p);
      ScrubPlain(p[1..], rest);
      assert [p[0]] + (p[1..] + Scrub(rest)) == p + Scrub(rest) by {
        assert p == [p[0]] + p[1..];
      }
    }
  }

  lemma ScrubFirstKept(p: string, rest: string)
    requires p != [] && PlainAt(p, 0)
    ensures Scrub(p + rest) == [p[0]] + Scrub(p[1..] + rest)
  {
    var s := p + rest;
    assert s[0] == p[0];
    assert |p| >= 2 ==> s[1] == p[1];
    NoTrademarkAt(s);
    assert TokenLength(s) == 0;
    assert s[1..] == p[1..] + rest;
  }

  lemma PlainTail(p: string)
    requires p != [] && Plain(p)
    ensures Plain(p[1..])
  {
    var q := p[1..];
    forall i | 0 <= i < |q|
      ensures PlainAt(q, i)
    {
      assert PlainAt(p, i + 1);
      assert q[i] == p[i + 1];
      if i + 1 < |q| {
        assert q[i + 1] == p[i + 2];
      }
    }
  }

  /** A clock speed after plain text is removed and the text is kept. */
  lemma ScrubClockAfter(p: string, u: string, ghz: string)
    requires Plain(p) && Lacks(u, '\n') && EqIgnoreCase(ghz, "GHz")
    ensures Scrub(p + "@" + u + ghz) == p
  {
    assert p + "@" + u + ghz == p + ("@" + u + ghz);
    ScrubPlain(p, "@" + u + ghz);
    ScrubClock(u, ghz);
    assert p + [] == p;
  }

  /** A name holding no token at all is unchanged. */
  lemma {:induction false} ScrubNoTokens(s: string)
    requires forall k :: 0 <= k < |s| ==> TokenLength(s[k..]) == 0
    ensures Scrub(s) == s
    decreases |s|
  {
    if s != [] {
      assert TokenLength(s[0..]) == 0 by { assert s[0..] == s; }
      forall k | 0 <= k < |s| - 1 ensures TokenLength(s[1..][k..]) == 0 {
        assert s[1..][k..] == s[k + 1..];
      }
      ScrubNoTokens(s[1..]);
    }
  }

  /** `re.sub(r"\s+", " ", s)`: every maximal whitespace run becomes one space. */
  function CollapseSpaces(s: string): (r: string)
    decreases |s|
  {
    if s == [] then []
    else if IsSpace(s[0]) then " " + CollapseSpaces(LStrip(s[1..]))
    else [s[0]] + CollapseSpaces(s[1..])
  }

  /** The characters of `s` that are not whitespace, in order. */
  function Visible(s: string): string {
    if s == [] then [] else (if IsSpace(s[0]) then [] else [s[0]]) + Visible(s[1..])
  }

  /** Single spaces only: no whitespace other than ' ', and no two spaces in a row. */
  predicate SingleSpaced(s: string) {
    (forall i :: 0 <= i < |s| ==> IsSpace(s[i]) ==> s[i] == ' ')
    && (forall i :: 0 <= i < |s| - 1 ==> !(s[i] == ' ' && s[i + 1] == ' '))
  }

  /** Collapsing keeps every visible character, in order, and leaves single
      spaces; the words of `split()` are the same before and after, so a run
      of whitespace between two words becomes exactly one space. */
  lemma {:induction false} CollapseSpacesSpec(s: string)
    ensures Visible(CollapseSpaces(s)) == Visible(s)
    ensures SingleSpaced(CollapseSpaces(s))
    ensures CollapseSpaces(s) != [] && CollapseSpaces(s)[0] == ' ' ==> s != [] && IsSpace(s[0])
    ensures Words(CollapseSpaces(s)) == Words(s)
    decreases |s|
  {
    CollapseWords(s);
    if s == [] {
    } else if IsSpace(s[0]) {
      var t := LStrip(s[1..]);
      CollapseSpacesSpec(t);
      VisibleOfSpaces(s[1..]);
      var r := CollapseSpaces(t);
      assert CollapseSpaces(s) == " " + r;
      assert Visible(" " + r) == Visible(r) by { assert (" " + r)[1..] == r; }
      assert Visible(s) == Visible(s[1..]);
      assert r != [] ==> r[0] != ' ' by {
        if r != [] && r[0] == ' ' { LStripSpec(s[1..]); }
      }
      SingleSpacedCons(' ', r);
    } else {
      CollapseSpacesSpec(s[1..]);
      var r := CollapseSpaces(s[1..]);
      assert CollapseSpaces(s) == [s[0]] + r;
      assert ([s[0]] + r)[1..] == r;
      SingleSpacedCons(s[0], r);
    }
  }

  /** The words of the collapsed text, and the collapsed text without its
      trailing whitespace, which is the words joined by single spaces. */
  lemma CollapseWords(s: string)
    ensures Words(CollapseSpaces(s)) == Words(s)
    ensures Strip(CollapseSpaces(s)) == JoinWith(" ", Words(s))
  {
    var y := CollapseSpaces(LStrip(s));
    CollapseStripped(s);
    if s != [] && IsSpace(s[0]) {
      assert CollapseSpaces(s) == " " + y;
      WordsSpace(' ', y);
      assert LStrip(" " + y) == LStrip(y) by { assert (" " + y)[1..] == y; }
    } else {
      assert LStrip(s) == s;
    }
    assert LStrip(y) == y;
  }

  /** Collapsing what follows the leading whitespace: it starts with no
      whitespace, keeps the words, and up to its trailing whitespace is the
      words joined by single spaces. */
  lemma {:induction false} CollapseStripped(u: string)
    ensures var y := CollapseSpaces(LStrip(u));
      && (y == [] || !IsSpace(y[0]))
      && Words(y) == Words(u)
      && RStrip(y) == JoinWith(" ", Words(u))
    decreases |u|
  {
    var t := LStrip(u);
    LStripSpec(u);
    if t != [] {
      var w := TakeWord(t);
      var rest := t[|w|..];
      assert t == w + rest;
      assert Words(u) == [w] + Words(rest);
      CollapseWord(w, rest);
      if rest == [] {
        WordsCons(w, []);
        RStripAppend(w, []);
        assert w + [] == w;
      } else {
        assert LStrip(rest[1..]) == LStrip(rest);
        CollapseStripped(rest);
        CollapseWordThen(w, CollapseSpaces(LStrip(rest)), Words(rest));
      }
    }
  }

  /** One word, one space, and the collapsed rest, whose words are `ws`. */
  lemma CollapseWordThen(w: string, y: string, ws: seq<string>)
    requires w != [] && forall i :: 0 <= i < |w| ==> !IsSpace(w[i])
    requires y == [] || !IsSpace(y[0])
    requires Words(y) == ws && RStrip(y) == JoinWith(" ", ws)
    requires forall k :: 0 <= k < |ws| ==> ws[k] != []
    ensures Words(w + (" " + y)) == [w] + ws
    ensures RStrip(w + (" " + y)) == JoinWith(" ", [w] + ws)
  {
    WordsCons(w, " " + y);
    WordsSpace(' ', y);
    RStripWordThen(w, y);
    if ws != [] {
      JoinWithStart(" ", ws);
      JoinWithCons(" ", w, ws);
    }
  }

  /** Trailing whitespace of `w + " " + y` lies in `y`, or is the space when
      `y` is only whitespace. */
  lemma RStripWordThen(w: string, y: string)
    requires w != [] && !IsSpace(w[|w| - 1])
    ensures RStrip(w + (" " + y)) == if RStrip(y) == [] then w else w + " " + RStrip(y)
  {
    assert w + (" " + y) == (w + " ") + y;
    RStripAppend(w + " ", y);
    RStripAppend(w, " ");
    RStripAppend(w, []);
    assert w + [] == w;
  }

  /** A run without whitespace passes through collapsing unchanged. */
  lemma {:induction false} CollapseWord(w: string, rest: string)
    requires forall i :: 0 <= i < |w| ==> !IsSpace(w[i])
    ensures CollapseSpaces(w + rest) == w + CollapseSpaces(rest)
    decreases |w|
  {
    if w == [] {
      assert w + rest == rest;
    } else {
      assert (w + rest)[1..] == w[1..] + rest;
      CollapseWord(w[1..], rest);
      assert w == [w[0]] + w[1..];
    }
  }

  lemma SingleSpacedCons(c: char, r: string)
    requires SingleSpaced(r) && (IsSpace(c) ==> c == ' ')
    requires c == ' ' && r != [] ==> r[0] != ' '
    ensures SingleSpaced([c] + r)
  {
    var s := [c] + r;
    forall i | 0 <= i < |s| - 1 ensures !(s[i] == ' ' && s[i + 1] == ' ') {
      if i > 0 { assert s[i] == r[i - 1] && s[i + 1] == r[i]; }
    }
  }

  /** Dropping leading whitespace does not change the visible characters. */
  lemma {:induction false} VisibleOfSpaces(s: string)
    ensures Visible(LStrip(s)) == Visible(s)
    decreases |s|
  {
    if s != [] && IsSpace(s[0]) {
      VisibleOfSpaces(s[1..]);
    }
  }

  /** `re.sub(r"\s+", " ", s).strip()`. */
  function Normalize(s: string): string {
    Strip(CollapseSpaces(s))
  }

  /** The name after normalising is `" ".join(s.split())`: the words of the
      input, in order, joined by single spaces. So it has no whitespace at
      either end, single spaces inside, and exactly the visible characters
      of the input, in order. */
  lemma NormalizeSpec(s: string)
    ensures var r := Normalize(s);
      && r == JoinWith(" ", Words(s))
      && (r == [] || (!IsSpace(r[0]) && !IsSpace(r[|r| - 1])))
      && SingleSpaced(r)
      && Visible(r) == Visible(s)
  {
    var c := CollapseSpaces(s);
    assert Normalize(s) == JoinWith(" ", Words(s)) by {
      CollapseWords(s);
    }
    assert SingleSpaced(Normalize(s)) && Visible(Normalize(s)) == Visible(s) by {
      CollapseSpacesSpec(s);
      StripInside(c);
    }
    StripEnds(c);
  }

  /** Stripping the whitespace at both ends keeps a run of the middle of the
      string: single spacing and the visible characters survive it. */
  lemma StripInside(c: string)
    ensures SingleSpaced(c) ==> SingleSpaced(RStrip(LStrip(c)))
    ensures Visible(RStrip(LStrip(c))) == Visible(c)
  {
    var l := LStrip(c);
    var r := RStrip(l);
    LStripSpec(c);
    RStripSpec(l);
    VisibleOfSpaces(c);
    VisibleOfTrailing(l);
    if SingleSpaced(c) {
      var a := |c| - |l|;
      assert r == c[a..a + |r|];
      SingleSpacedSlice(c, a, a + |r|);
    }
  }

  lemma SingleSpacedSlice(c: string, a: nat, b: nat)
    requires a <= b <= |c| && SingleSpaced(c)
    ensures SingleSpaced(c[a..b])
  {
    var r := c[a..b];
    assert forall i :: 0 <= i < |r| ==> r[i] == c[a + i];
  }

  lemma {:induction false} VisibleOfTrailing(s: string)
    ensures Visible(RStrip(s)) == Visible(s)
    decreases |s|
  {
    if s != [] && IsSpace(s[|s| - 1]) {
      var p := s[..|s| - 1];
      VisibleOfTrailing(p);
      VisibleSnoc(p, s[|s| - 1]);
      assert s == p + [s[|s| - 1]];
    }
  }

  lemma {:induction false} VisibleSnoc(p: string, c: char)
    ensures Visible(p + [c]) == Visible(p) + (if IsSpace(c) then [] else [c])
    decreases |p|
  {
    if p != [] {
      assert (p + [c])[1..] == p[1..] + [c];
      VisibleSnoc(p[1..], c);
    } else {
      assert p + [c] == [c];
    }
  }

  /** Number of consecutive ASCII digits from position `i`. */
  function DigitRun(s: string, i: nat): (n: nat)
    requires i <= |s|
    ensures i + n <= |s| && AllDigits(s[i..i + n])
    ensures i + n < |s| ==> !IsDigit(s[i + n])
    decreases |s| - i
  {
    if i < |s| && IsDigit(s[i]) then
      var n := 1 + DigitRun(s, i + 1);
      assert s[i..i + n] == [s[i]] + s[i + 1..i + n];
      n
    else 0
  }

  predicate IsFamily(f: string) { f == "i3" || f == "i5" || f == "i7" || f == "i9" }

  /** An Intel Core model number `(i3|i5|i7|i9)-(\d{3,5})` matched at a position. */
  datatype IntelMatch = IntelMatch(at: nat, family: string, digits: string)

  /** The match of `(i3|i5|i7|i9)-(\d{3,5})` at `i`, if any; `\d{3,5}` is
      greedy, so it takes up to five digits. Case is significant. */
  function IntelAt(s: string, i: nat): (r: Option<IntelMatch>)
    requires i <= |s|
    ensures r.Some? ==> r.value.at == i && 3 <= |r.value.digits| <= 5 && AllDigits(r.value.digits)
  {
    if i + 3 <= |s| && IsFamily(s[i..i + 2]) && s[i + 2] == '-' then
      var n := DigitRun(s, i + 3);
      var m := if n < 5 then n else 5;
      if m >= 3 then
        assert s[i + 3..i + 3 + m] == s[i + 3..i + 3 + n][..m];
        Some(IntelMatch(i, s[i..i + 2], s[i + 3..i + 3 + m]))
      else None
    else None
  }

  /** `re.search`: the leftmost match at or after `i`. */
  function FindIntel(s: string, i: nat): (r: Option<IntelMatch>)
    requires i <= |s|
    ensures r.Some? ==> 3 <= |r.value.digits| <= 5 && AllDigits(r.value.digits)
    decreases |s| - i
  {
    if i == |s| then None
    else if IntelAt(s, i).Some? then IntelAt(s, i)
    else FindIntel(s, i + 1)
  }

  /** `re.search` finds the leftmost match: `None` exactly when no position
      matches, otherwise a match at its position with none further left. */
  lemma FindIntelLeftmost(s: string, i: nat)
    requires i <= |s|
    ensures var r := FindIntel(s, i);
      && (r.None? ==> forall j :: i <= j <= |s| ==> IntelAt(s, j).None?)
      && (r.Some? ==> i <= r.value.at <= |s| && IntelAt(s, r.value.at) == r)
      && (r.Some? ==> forall j :: i <= j < r.value.at ==> IntelAt(s, j).None?)
  {
    if FindIntel(s, i).None? {
      FindIntelNone(s, i);
    } else {
      FindIntelSome(s, i);
    }
  }

  lemma {:induction false} FindIntelNone(s: string, i: nat)
    requires i <= |s| && FindIntel(s, i).None?
    ensures forall j :: i <= j <= |s| ==> IntelAt(s, j).None?
    decreases |s| - i
  {
    if i < |s| {
      FindIntelNone(s, i + 1);
    } else {
      assert IntelAt(s, |s|).None?;
    }
  }

  lemma {:induction false} FindIntelSome(s: string, i: nat)
    requires i <= |s| && FindIntel(s, i).Some?
    ensures var m := FindIntel(s, i).value;
      i <= m.at <= |s| && IntelAt(s, m.at) == Some(m) && forall j :: i <= j < m.at ==> IntelAt(s, j).None?
    decreases |s| - i
  {
    if IntelAt(s, i).None? {
      FindIntelSome(s, i + 1);
    }
  }

  /** `k` digits from `i` on make a digit run of at least `k`. */
  lemma {:induction false} DigitRunAtLeast(s: string, i: nat, k: nat)
    requires i + k <= |s| && AllDigits(s[i..i + k])
    ensures DigitRun(s, i) >= k
    decreases k
  {
    if k > 0 {
      assert IsDigit(s[i..i + k][0]);
      assert s[i + 1..i + k] == s[i..i + k][1..];
      DigitRunAtLeast(s, i + 1, k - 1);
    }
  }

  /** A match spells a family, a dash and its digits at its position; it has
      five digits or all of a shorter digit run. Conversely a family, a dash
      and three digits at `i` always match there. */
  lemma IntelAtSpec(s: string, i: nat)
    requires i <= |s|
    ensures var r := IntelAt(s, i);
      r.Some? ==>
        var m := r.value;
        && IsFamily(m.family) && m.at + 3 + |m.digits| <= |s|
        && s[m.at..m.at + 3 + |m.digits|] == m.family + "-" + m.digits
        && (|m.digits| < 5 && m.at + 3 + |m.digits| < |s| ==> !IsDigit(s[m.at + 3 + |m.digits|]))
    ensures i + 6 <= |s| && IsFamily(s[i..i + 2]) && s[i + 2] == '-' && AllDigits(s[i + 3..i + 6]) ==>
      IntelAt(s, i).Some?
  {
    if IntelAt(s, i).Some? {
      IntelAtSpells(s, i);
    }
    if i + 6 <= |s| && IsFamily(s[i..i + 2]) && s[i + 2] == '-' && AllDigits(s[i + 3..i + 6]) {
      DigitRunAtLeast(s, i + 3, 3);
    }
  }

  lemma IntelAtSpells(s: string, i: nat)
    requires i <= |s| && IntelAt(s, i).Some?
    ensures var m := IntelAt(s, i).value;
      s[i..i + 3 + |m.digits|] == m.family + "-" + m.digits
  {
    var n := |IntelAt(s, i).value.digits|;
    assert s[i..i + 3 + n] == s[i..i + 2] + "-" + s[i + 3..i + 3 + n];
  }

  /** The Intel Core rewrite of a cleaned name, or the name itself. */
  function IntelRewrite(name: string): string {
    match FindIntel(name, 0)
    case Some(m) => "Intel Core " + m.family + "-" + NatToStr(DigitsValue(m.digits))
    case None => name
  }

  /** A name holding a model number such as "i7-8700" becomes exactly
      "Intel Core i7-8700", the digits read as an integer (so a leading zero
      is dropped) and no generation text added; any other name is kept. */
  lemma IntelRewriteSpec(name: string)
    ensures FindIntel(name, 0).None? ==> IntelRewrite(name) == name
    ensures FindIntel(name, 0).Some? ==>
      var m := FindIntel(name, 0).value;
      && IsFamily(m.family) && 3 <= |m.digits| <= 5 && AllDigits(m.digits)
      && OccursAt(name, m.family + "-" + m.digits, m.at)
      && IntelRewrite(name) == "Intel Core " + m.family + "-" + NatToStr(DigitsValue(m.digits))
      && (m.digits[0] != '0' ==> IntelRewrite(name) == "Intel Core " + m.family + "-" + m.digits)
  {
    FindIntelLeftmost(name, 0);
    if FindIntel(name, 0).Some? {
      var m := FindIntel(name, 0).value;
      IntelAtSpec(name, m.at);
      if m.digits[0] != '0' {
        DigitsRoundTrip(m.digits);
      }
    }
  }

  /** The name with trademarks and clock speed scrubbed and whitespace normalised. */
  function CleanName(raw: string): string {
    Normalize(Scrub(raw))
  }

  /** `make_friendly_cpu_name(raw_name)`; `None` and "" are the falsy names. */
  function FriendlyCpuName(raw: Option<string>): string {
    if raw.None? || raw.value == [] then "Unknown CPU"
    else IntelRewrite(CleanName(raw.value))
  }

  /** A missing name gives "Unknown CPU"; a name with an Intel Core model
      number gives "Intel Core <family>-<number>"; any other name comes back
      as the words of the scrubbed name joined by single spaces: trimmed and
      single-spaced, with every visible character the scrubbing kept, in order. */
  lemma FriendlyCpuNameSpec(raw: Option<string>)
    ensures raw.None? || raw.value == [] ==> FriendlyCpuName(raw) == "Unknown CPU"
    ensures raw.Some? && raw.value != [] && FindIntel(CleanName(raw.value), 0).Some? ==>
      var m := FindIntel(CleanName(raw.value), 0).value;
      && Contains(CleanName(raw.value), m.family + "-" + m.digits)
      && FriendlyCpuName(raw) == "Intel Core " + m.family + "-" + NatToStr(DigitsValue(m.digits))
    ensures raw.Some? && raw.value != [] && FindIntel(CleanName(raw.value), 0).None? ==>
      var r := FriendlyCpuName(raw);
      && r == JoinWith(" ", Words(Scrub(raw.value)))
      && (r == [] || (!IsSpace(r[0]) && !IsSpace(r[|r| - 1])))
      && SingleSpaced(r)
      && Visible(r) == Visible(Scrub(raw.value))
  {
    if raw.Some? && raw.value != [] {
      IntelRewriteSpec(CleanName(raw.value));
      NormalizeSpec(Scrub(raw.value));
    }
  }
  /** Plain text, a trademark, plain text, a trademark, plain text, a
      trademark, plain text and a clock speed: only the plain text is left. */
  lemma ScrubAroundTokens(a: string, t1: string, b: string, t2: string, c: string, t3: string,
                          d: string, u: string, ghz: string)
    requires Plain(a) && Plain(b) && Plain(c) && Plain(d)
    requires Trademark(t1) && Trademark(t2) && Trademark(t3)
    requires Lacks(u, '\n') && EqIgnoreCase(ghz, "GHz")
    ensures Scrub(a + (t1 + (b + (t2 + (c + (t3 + (d + "@" + u + ghz))))))) == a + (b + (c + d))
  {
    ScrubClockAfter(d, u, ghz);
    ScrubTrademark(t3, d + "@" + u + ghz);
    ScrubPlain(c, t3 + (d + "@" + u + ghz));
    ScrubTrademark(t2, c + (t3 + (d + "@" + u + ghz)));
    ScrubPlain(b, t2 + (c + (t3 + (d + "@" + u + ghz))));
    ScrubTrademark(t1, b + (t2 + (c + (t3 + (d + "@" + u + ghz)))));
    ScrubPlain(a, t1 + (b + (t2 + (c + (t3 + (d + "@" + u + ghz))))));
  }

  predicate Trademark(t: string) {
    EqIgnoreCase(t, "(R)") || EqIgnoreCase(t, "(TM)") || EqIgnoreCase(t, "CPU")
  }

  /** Three words followed by two spaces normalise to the words joined by
      single spaces. */
  lemma NormalizeThreeWords(a: string, b: string, c: string)
    requires a != [] && b != [] && c != []
    requires forall i :: 0 <= i < |a| ==> !IsSpace(a[i])
    requires forall i :: 0 <= i < |b| ==> !IsSpace(b[i])
    requires forall i :: 0 <= i < |c| ==> !IsSpace(c[i])
    ensures Normalize(a + (" " + (b + (" " + (c + "  "))))) == a + " " + b + " " + c
  {
    var s := a + (" " + (b + (" " + (c + "  "))));
    NormalizeSpec(s);
    WordsThree(a, b, c);
    JoinWithCons(" ", a, [b, c]);
    JoinWithCons(" ", b, [c]);
    assert [a] + [b, c] == [a, b, c] && [b] + [c] == [b, c];
  }

  lemma WordsThree(a: string, b: string, c: string)
    requires a != [] && b != [] && c != []
    requires forall i :: 0 <= i < |a| ==> !IsSpace(a[i])
    requires forall i :: 0 <= i < |b| ==> !IsSpace(b[i])
    requires forall i :: 0 <= i < |c| ==> !IsSpace(c[i])
    ensures Words(a + (" " + (b + (" " + (c + "  "))))) == [a, b, c]
  {
    var z := c + "  ";
    WordsCons(c, "  ");
    assert Words("  ") == [] by {
      assert "  "[1..] == " " && " "[1..] == [];
      assert LStrip("  ") == [];
    }
    var y := b + (" " + z);
    WordsSpace(' ', z);
    assert " " + z == [' '] + z;
    WordsCons(b, " " + z);
    WordsSpace(' ', y);
    assert " " + y == [' '] + y;
    WordsCons(a, " " + y);
  }

  /** A name whose only model number is the family and digits at its end,
      after text without a dash, is rewritten to that model number. */
  lemma RewriteAtEnd(p: string, f: string, d: string)
    requires Lacks(p, '-') && IsFamily(f)
    requires 3 <= |d| <= 5 && AllDigits(d) && d[0] != '0'
    ensures IntelRewrite(p + f + "-" + d) == "Intel Core " + f + "-" + d
  {
    var n := p + f + "-" + d;
    NoIntelBefore(p, f, "-" + d);
    assert n == p + f + ("-" + d);
    IntelAtEnd(p, f, d);
    FindIntelLeftmost(n, 0);
    DigitsRoundTrip(d);
  }

  /** No model number starts inside text without a dash that a family follows. */
  lemma NoIntelBefore(p: string, f: string, rest: string)
    requires Lacks(p, '-') && IsFamily(f)
    ensures forall j :: 0 <= j < |p| ==> IntelAt(p + f + rest, j).None?
  {
    var n := p + f + rest;
    var k := |p|;
    forall j | 0 <= j < k ensures IntelAt(n, j).None? {
      assert n[j + 2] == (if j + 2 < k then p[j + 2] else f[j + 2 - k]);
    }
  }

  /** The family, a dash and three to five digits at the end match. */
  lemma IntelAtEnd(p: string, f: string, d: string)
    requires IsFamily(f) && 3 <= |d| <= 5 && AllDigits(d)
    ensures IntelAt(p + f + "-" + d, |p|) == Some(IntelMatch(|p|, f, d))
  {
    var n := p + f + "-" + d;
    var k := |p|;
    assert n[k..k + 2] == f && n[k + 2] == '-';
    DigitRunOfSuffix(p + f + "-", d);
  }

  /** The digit run where trailing digits start covers all of them. */
  lemma DigitRunOfSuffix(x: string, d: string)
    requires AllDigits(d)
    ensures DigitRun(x + d, |x|) == |d| && (x + d)[|x|..|x| + |d|] == d
  {
    var n := x + d;
    forall i | |x| <= i < |n| ensures IsDigit(n[i]) {
      assert n[i] == d[i - |x|];
    }
    DigitRunToEnd(n, |x|);
  }

  /** The digit run from `i` reaches the end of a string that is all digits from there. */
  lemma {:induction false} DigitRunToEnd(s: string, i: nat)
    requires i <= |s| && forall k :: i <= k < |s| ==> IsDigit(s[k])
    ensures DigitRun(s, i) == |s| - i
    decreases |s| - i
  {
    if i < |s| {
      DigitRunToEnd(s, i + 1);
    }
  }
}

/** The worked example of `make_friendly_cpu_name`, traced through the
    scrubbing, the whitespace normalisation and the Intel Core rewrite. */
module CpuNameExample {
  import opened PyStr
  import opened CpuName

  /** The pieces of the example that the scrubbing keeps start no token. */
  lemma ExamplePlain()
    ensures Plain("Intel") && Plain(" Core") && Plain(" i7-8700 ") && Plain(" ")
  {
  }

  /** The example's trademarks and clock speed. */
  lemma ExampleTokens()
    ensures Trademark("(R)") && Trademark("(TM)") && Trademark("CPU")
    ensures Lacks(" 3.20", '\n') && EqIgnoreCase("GHz", "GHz")
  {
  }

  /** The example's words hold no whitespace. */
  lemma ExampleWords()
    ensures forall i :: 0 <= i < |"Intel"| ==> !IsSpace("Intel"[i])
    ensures forall i :: 0 <= i < |"Core"| ==> !IsSpace("Core"[i])
    ensures forall i :: 0 <= i < |"i7-8700"| ==> !IsSpace("i7-8700"[i])
  {
  }

  /** The example's model number and the text before it. */
  lemma ExampleModel()
    ensures Lacks("Intel Core ", '-') && IsFamily("i7")
    ensures AllDigits("8700") && "8700"[0] != '0'
  {
  }

  /** The example name cut at its tokens. */
  lemma ExampleSpelling()
    ensures "Intel(R) Core(TM) i7-8700 CPU @ 3.20GHz"
      == "Intel" + ("(R)" + (" Core" + ("(TM)" + (" i7-8700 " + ("CPU" + (" " + "@" + " 3.20" + "GHz"))))))
  {
  }

  /** The pieces the scrubbing keeps, as words, and as the model number. */
  lemma ExampleJoined()
    ensures "Intel" + (" Core" + (" i7-8700 " + " ")) == "Intel" + (" " + ("Core" + (" " + ("i7-8700" + "  "))))
    ensures "Intel" + " " + "Core" + " " + "i7-8700" == "Intel Core " + "i7" + "-" + "8700"
    ensures "Intel Core " + "i7" + "-" + "8700" == "Intel Core i7-8700"
  {
  }

  /** A worked example: "Intel(R) Core(TM) i7-8700 CPU @ 3.20GHz"
      becomes "Intel Core i7-8700". */
  lemma FriendlyCpuNameExample()
    ensures FriendlyCpuName(Some("Intel(R) Core(TM) i7-8700 CPU @ 3.20GHz")) == "Intel Core i7-8700"
  {
    ExampleSpelling();
    ExampleJoined();
    ExamplePlain();
    ExampleTokens();
    ScrubAroundTokens("Intel", "(R)", " Core", "(TM)", " i7-8700 ", "CPU", " ", " 3.20", "GHz");
    ExampleWords();
    NormalizeThreeWords("Intel", "Core", "i7-8700");
    ExampleModel();
    RewriteAtEnd("Intel Core ", "i7", "8700");
  }
}
