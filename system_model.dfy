/** `get_system_model` (utils/sysinfo.py): the manufacturer name is cleaned of
    trailing punctuation and one company suffix, then combined with the model
    name read from the firmware tables. */
module SystemModel {
  import opened PyStr

  /** The class `[.,\s]`. */
  predicate IsTrailJunk(c: char) { c == '.' || c == ',' || IsSpace(c) }

  /** `re.sub(r"[.,\s]+$", "", s)`: the leftmost match is the maximal run of
      the class at the end, so exactly that run is removed. */
  function TrimJunk(s: string): (r: string)
    ensures |r| <= |s|
  {
    if s != [] && IsTrailJunk(s[|s| - 1]) then TrimJunk(s[..|s| - 1]) else s
  }

  /** What `TrimJunk` keeps: a prefix with no junk at its end, and junk only after it. */
  lemma {:induction false} TrimJunkSpec(s: string)
    ensures var r := TrimJunk(s);
      && (forall k :: |r| <= k < |s| ==> IsTrailJunk(s[k]))
    decreases |s|
  {
    TrimJunkPrefix(s);
    if s != [] && IsTrailJunk(s[|s| - 1]) {
      TrimJunkSpec(s[..|s| - 1]);
    }
  }

  lemma {:induction false} TrimJunkPrefix(s: string)
    ensures var r := TrimJunk(s);
      && r == s[..|r|]
      && (r == [] || !IsTrailJunk(r[|r| - 1]))
    decreases |s|
  {
    if s != [] && IsTrailJunk(s[|s| - 1]) {
      TrimJunkPrefix(s[..|s| - 1]);
    }
  }

  /** A string that already ends in something else is left alone. */
  lemma TrimJunkClean(s: string)
    requires s == [] || !IsTrailJunk(s[|s| - 1])
    ensures TrimJunk(s) == s
  {
  }

  /** The company words of `\b(inc|inc\.|ltd|ltd\.|corp|co\.?)\b$`, in
      alternation order. The dotted alternatives never match: `\b` after a
      '.' needs a word character next, and `$` allows only the end or a
      final newline there. */
  const COMPANY_WORDS: seq<string> := ["inc", "ltd", "corp", "co"]

  /** `a` and `b` spell the same word up to ASCII case, as `re.IGNORECASE`
      compares literals. */
  predicate SameLetters(a: string, b: string) {
    |a| == |b| && (a == [] || (Lower(a[0]) == Lower(b[0]) && SameLetters(a[1..], b[1..])))
  }

  /** `w` (any case) ends at `e`, after a word boundary. */
  predicate WordEndsAt(s: string, e: nat, w: string) {
    |w| <= e <= |s| && SameLetters(s[e - |w|..e], w)
    && (e == |w| || !IsWordChar(s[e - |w| - 1]))
  }

  /** Where `$` can match after a word: the end, or before a final newline
      (the end itself is no word boundary then). */
  function DollarAt(s: string): (e: nat)
    ensures e <= |s|
  {
    if s != [] && s[|s| - 1] == '\n' then |s| - 1 else |s|
  }

  /** The length of the company word the suffix pattern removes, if any. The
      words end in different letters, so at most one of them can match. */
  function CompanyWord(s: string): (n: nat)
    ensures n <= DollarAt(s)
  {
    var e := DollarAt(s);
    if WordEndsAt(s, e, "inc") || WordEndsAt(s, e, "ltd") then 3
    else if WordEndsAt(s, e, "corp") then 4
    else if WordEndsAt(s, e, "co") then 2
    else 0
  }

  /** `re.sub(r"\b(inc|inc\.|ltd|ltd\.|corp|co\.?)\b$", "", s, flags=re.IGNORECASE)`. */
  function StripCompany(s: string): string {
    var e := DollarAt(s);
    s[..e - CompanyWord(s)] + s[e..]
  }

  /** The three passes applied to the manufacturer name. */
  function CleanVendor(s: string): string {
    TrimJunk(StripCompany(TrimJunk(s)))
  }

  /** The cleaned vendor is a prefix of the input that does not end in '.',
      ',' or whitespace. */
  lemma CleanVendorPrefix(s: string)
    ensures StartsWith(s, CleanVendor(s))
    ensures CleanVendor(s) == [] || !IsTrailJunk(CleanVendor(s)[|CleanVendor(s)| - 1])
  {
    var t := TrimJunk(s);
    var u := StripCompany(t);
    CleanVendorSteps(s);
    var r := TrimJunk(u);
    TrimJunkPrefix(s);
    TrimJunkPrefix(u);
    PrefixOfPrefix(s, t, u);
    PrefixOfPrefix(s, u, r);
  }

  /** The cleaned vendor is the input without its trailing junk and, when
      that ends in a company word, without the word and the junk before it too. */
  lemma CleanVendorSpec(s: string)
    ensures var t := TrimJunk(s);
      && CleanVendor(s) == TrimJunk(t[..|t| - CompanyWord(t)])
      && (CompanyWord(t) == 0 ==> CleanVendor(s) == t)
  {
    var t := TrimJunk(s);
    CleanVendorSteps(s);
    if CompanyWord(t) == 0 {
      TrimJunkPrefix(s);
      TrimJunkClean(t);
    }
  }

  /** The suffix pass on a string with no trailing junk cuts the word off the end. */
  lemma CleanVendorSteps(s: string)
    ensures var t := TrimJunk(s);
      && |t| >= CompanyWord(t)
      && StripCompany(t) == t[..|t| - CompanyWord(t)]
      && CleanVendor(s) == TrimJunk(t[..|t| - CompanyWord(t)])
  {
    var t := TrimJunk(s);
    TrimJunkPrefix(s);
    StripCompanyClean(t);
  }

  /** Without trailing junk, the suffix pass only cuts the word off the end. */
  lemma StripCompanyClean(t: string)
    requires t == [] || !IsTrailJunk(t[|t| - 1])
    ensures |t| >= CompanyWord(t) && StripCompany(t) == t[..|t| - CompanyWord(t)]
  {
    DollarAtClean(t);
    var n := CompanyWord(t);
    assert t[|t|..] == [];
    assert t[..|t| - n] + [] == t[..|t| - n];
  }

  lemma PrefixOfPrefix(s: string, t: string, u: string)
    requires |t| <= |s| && t == s[..|t|] && |u| <= |t| && u == t[..|u|]
    ensures u == s[..|u|]
  {
  }

  /** Without a trailing newline, `$` matches only at the end. */
  lemma DollarAtClean(t: string)
    requires t == [] || !IsTrailJunk(t[|t| - 1])
    ensures DollarAt(t) == |t|
  {
    if t != [] { assert IsSpace('\n'); }
  }

  /** Which word the suffix pattern finds at the end of a string that does
      not end in junk: "inc" or "ltd" (3), "corp" (4) or "co" (2), any case,
      after a word boundary; 0 when none. */
  lemma CompanyWordSpec(t: string)
    requires t == [] || !IsTrailJunk(t[|t| - 1])
    ensures CompanyWord(t) == 3 <==> WordEndsAt(t, |t|, "inc") || WordEndsAt(t, |t|, "ltd")
    ensures CompanyWord(t) == 4 <==> WordEndsAt(t, |t|, "corp")
    ensures CompanyWord(t) == 2 <==> WordEndsAt(t, |t|, "co")
    ensures CompanyWord(t) == 0 <==> forall w :: w in COMPANY_WORDS ==> !WordEndsAt(t, |t|, w)
  {
    DollarAtClean(t);
    WordsExclusive(t);
    assert COMPANY_WORDS == ["inc", "ltd", "corp", "co"];
  }

  /** At most one company word can end at a given place. */
  lemma WordsExclusive(t: string)
    ensures WordEndsAt(t, |t|, "inc") ==> !WordEndsAt(t, |t|, "ltd") && !WordEndsAt(t, |t|, "corp") && !WordEndsAt(t, |t|, "co")
    ensures WordEndsAt(t, |t|, "ltd") ==> !WordEndsAt(t, |t|, "corp") && !WordEndsAt(t, |t|, "co")
    ensures WordEndsAt(t, |t|, "corp") ==> !WordEndsAt(t, |t|, "co")
  {
    if WordEndsAt(t, |t|, "inc") { WordEndsLast(t, "inc"); }
    if WordEndsAt(t, |t|, "ltd") { WordEndsLast(t, "ltd"); }
    if WordEndsAt(t, |t|, "corp") { WordEndsLast(t, "corp"); }
    if WordEndsAt(t, |t|, "co") { WordEndsLast(t, "co"); }
  }

  lemma WordEndsLast(t: string, w: string)
    requires w != [] && WordEndsAt(t, |t|, w)
    ensures Lower(t[|t| - 1]) == Lower(w[|w| - 1])
  {
    var u := t[|t| - |w|..|t|];
    SameLettersLast(u, w);
    assert u[|u| - 1] == t[|t| - 1];
  }

  /** `w` is one of the company words, in any case. */
  predicate IsCompanyWord(w: string) {
    SameLetters(w, "inc") || SameLetters(w, "ltd") || SameLetters(w, "corp") || SameLetters(w, "co")
  }

  lemma {:induction false} SameLettersLast(a: string, b: string)
    requires SameLetters(a, b) && a != []
    ensures Lower(a[|a| - 1]) == Lower(b[|b| - 1])
    decreases |a|
  {
    if |a| > 1 {
      SameLettersLast(a[1..], b[1..]);
    }
  }

  /** A name followed by a space and a company word with a full stop loses
      both: "Dell Inc." becomes "Dell". */
  lemma CleanVendorDropsSuffix(name: string, w: string)
    requires name != [] && !IsTrailJunk(name[|name| - 1])
    requires IsCompanyWord(w)
    ensures CleanVendor(name + " " + w + ".") == name
  {
    var s := name + " " + w + ".";
    var t := name + " " + w;
    TrimFullStop(name, w);
    CompanyWordAfterSpace(name, w);
    CleanVendorSpec(s);
    assert t[..|t| - |w|] == name + " ";
    assert (name + " ")[..|name|] == name;
    assert TrimJunk(name + " ") == name;
  }

  /** The full stop after a company word is trailing junk; the word is not. */
  lemma TrimFullStop(name: string, w: string)
    requires IsCompanyWord(w)
    ensures TrimJunk(name + " " + w + ".") == name + " " + w
  {
    var s := name + " " + w + ".";
    var t := name + " " + w;
    assert s[..|s| - 1] == t;
    assert t[|t| - 1] == w[|w| - 1];
    if SameLetters(w, "inc") { SameLettersLast(w, "inc"); }
    else if SameLetters(w, "ltd") { SameLettersLast(w, "ltd"); }
    else if SameLetters(w, "corp") { SameLettersLast(w, "corp"); }
    else { SameLettersLast(w, "co"); }
  }

  /** A company word after a space is found by the suffix pattern, whole. */
  lemma CompanyWordAfterSpace(name: string, w: string)
    requires IsCompanyWord(w)
    ensures CompanyWord(name + " " + w) == |w|
  {
    var t := name + " " + w;
    TrimFullStop(name, w);
    assert (name + " " + w + ".")[..|t|] == t;
    TrimJunkPrefix(name + " " + w + ".");
    DollarAtClean(t);
    WordsExclusive(t);
    if SameLetters(w, "inc") { WordAfterSpace(name, w, "inc"); }
    else if SameLetters(w, "ltd") { WordAfterSpace(name, w, "ltd"); }
    else if SameLetters(w, "corp") { WordAfterSpace(name, w, "corp"); }
    else { WordAfterSpace(name, w, "co"); }
  }

  lemma WordAfterSpace(name: string, w: string, lit: string)
    requires SameLetters(w, lit)
    ensures WordEndsAt(name + " " + w, |name + " " + w|, lit)
  {
    var t := name + " " + w;
    assert t[|t| - |w|..|t|] == w && t[|t| - |w| - 1] == ' ';
  }

  /** An empty vendor stays empty. */
  lemma CleanVendorEmpty()
    ensures CleanVendor([]) == []
  {
    CleanVendorPrefix([]);
  }

  lemma DellExample()
    ensures CleanVendor("Dell Inc.") == "Dell"
  {
    CleanVendorDropsSuffix("Dell", "Inc");
    assert "Dell" + " " + "Inc" + "." == "Dell Inc.";
  }

  /** Reading a firmware table file: its text, FileNotFoundError, or another
      error, which escapes to the outer handler. */
  datatype ReadResult = Text(text: string) | NotFound | Unreadable

  /** The Linux branch: `sys_vendor` and `product_name`, each stripped; a
      non-empty vendor is cleaned (its second `strip()` finds nothing left to remove); then both, whichever is non-empty, or the
      node name. Any error other than a missing file gives "Unknown System". */
  function LinuxSystemModel(vendorFile: ReadResult, modelFile: ReadResult, node: string): string {
    if vendorFile.Unreadable? || modelFile.Unreadable? then "Unknown System"
    else
      var vendor := if vendorFile.Text? then Strip(vendorFile.text) else [];
      var model := if modelFile.Text? then Strip(modelFile.text) else [];
      var v := if vendor != [] then CleanVendor(vendor) else vendor;
      Combine(v, model, node)
  }

  /** Both parts joined by a space, whichever part is non-empty, or the fallback. */
  function Combine(v: string, model: string, node: string): string {
    if v != [] && model != [] then v + " " + model
    else if model != [] then model
    else if v != [] then v
    else node
  }

  /** The Linux result is the cleaned vendor and the model joined by a space
      when both are non-empty, the one that is non-empty otherwise, and the
      node name when neither is; a vendor that cleans down to nothing counts
      as missing. */
  lemma LinuxSystemModelSpec(vendorFile: ReadResult, modelFile: ReadResult, node: string)
    ensures vendorFile.Unreadable? || modelFile.Unreadable? ==>
      LinuxSystemModel(vendorFile, modelFile, node) == "Unknown System"
    ensures !vendorFile.Unreadable? && !modelFile.Unreadable? ==>
      var v := if vendorFile.Text? then CleanVendor(Strip(vendorFile.text)) else [];
      var m := if modelFile.Text? then Strip(modelFile.text) else [];
      var r := LinuxSystemModel(vendorFile, modelFile, node);
      && (v != [] && m != [] ==> r == v + " " + m)
      && (v == [] && m != [] ==> r == m)
      && (v != [] && m == [] ==> r == v)
      && (v == [] && m == [] ==> r == node)
  {
    if !vendorFile.Unreadable? && !modelFile.Unreadable? {
      CleanVendorEmpty();
      var v := if vendorFile.Text? then CleanVendor(Strip(vendorFile.text)) else [];
      var m := if modelFile.Text? then Strip(modelFile.text) else [];
      assert LinuxSystemModel(vendorFile, modelFile, node) == Combine(v, m, node);
    }
  }

  /** The Windows branch, given the PowerShell query for each property of
      `Win32_ComputerSystemProduct` (None when the command fails): the cleaned
      vendor, a space, and the Version, or the Name when the Version is empty. */
  function WindowsSystemModel(query: string -> Option<string>): string {
    var version := query("Version");
    var vendor := query("Vendor");
    if version.None? || vendor.None? then "Unknown System"
    else
      var v := CleanVendor(Strip(vendor.value));
      var out := query(if Strip(version.value) == [] then "Name" else "Version");
      if out.None? then "Unknown System" else v + " " + Strip(out.value)
  }

  /** On Windows the model is the Version, or the Name when the Version is
      blank, after the cleaned vendor and one space; a failed query gives
      "Unknown System". */
  lemma WindowsSystemModelSpec(query: string -> Option<string>)
    ensures query("Version").None? || query("Vendor").None? ==>
      WindowsSystemModel(query) == "Unknown System"
    ensures query("Version").Some? && query("Vendor").Some? ==>
      var v := CleanVendor(Strip(query("Vendor").value));
      var version := Strip(query("Version").value);
      && (version != [] ==> WindowsSystemModel(query) == v + " " + version)
      && (version == [] && query("Name").Some? ==> WindowsSystemModel(query) == v + " " + Strip(query("Name").value))
      && (version == [] && query("Name").None? ==> WindowsSystemModel(query) == "Unknown System")
  {
  }
}
