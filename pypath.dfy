/** The two `posixpath` operations the conversion tool relies on. */
module PyPath {
  import opened PyStr

  /** `os.path.join(a, b)` on POSIX: an absolute `b` replaces `a`; otherwise a
      single '/' is put between them unless `a` is empty or already ends in one. */
  function Join(a: string, b: string): string {
    if StartsWith(b, "/") then b
    else if a == [] || EndsWith(a, "/") then a + b
    else a + "/" + b
  }

  /** What `join` keeps of its arguments. */
  lemma JoinSpec(a: string, b: string)
    ensures StartsWith(b, "/") ==> Join(a, b) == b
    ensures !StartsWith(b, "/") ==> StartsWith(Join(a, b), a) && EndsWith(Join(a, b), b)
    ensures !StartsWith(b, "/") && a != [] && !EndsWith(a, "/") ==> Join(a, b) == a + "/" + b
  {
    var r := Join(a, b);
    if !StartsWith(b, "/") {
      if a == [] || EndsWith(a, "/") {
        assert r == a + b && r[..|a|] == a && r[|r| - |b|..] == b;
      } else {
        assert r == a + "/" + b && r[..|a|] == a && r[|r| - |b|..] == b;
      }
    }
  }

  /** `os.path.join(root, c1, c2, ...)`. */
  function JoinAll(root: string, parts: seq<string>): string
    decreases |parts|
  {
    if parts == [] then root else JoinAll(Join(root, parts[0]), parts[1..])
  }

  /** Length of the longest prefix of `p` that ends in '/', or 0. */
  function HeadLength(p: string): (n: nat)
    ensures n <= |p|
  {
    if p == [] then 0
    else if p[|p| - 1] == '/' then |p|
    else HeadLength(p[..|p| - 1])
  }

  /** The head ends at the last '/' of the path. */
  lemma {:induction false} HeadLengthSpec(p: string)
    ensures HeadLength(p) > 0 ==> p[HeadLength(p) - 1] == '/'
    ensures forall i :: HeadLength(p) <= i < |p| ==> p[i] != '/'
    decreases |p|
  {
    if p != [] && p[|p| - 1] != '/' {
      HeadLengthSpec(p[..|p| - 1]);
    }
  }

  /** `s.rstrip('/')`. */
  function RStripSlashes(s: string): (r: string)
    ensures |r| <= |s|
  {
    if s != [] && s[|s| - 1] == '/' then RStripSlashes(s[..|s| - 1]) else s
  }

  /** `os.path.dirname(p)`: everything up to the last '/', with trailing slashes
      removed unless the head consists of slashes only. */
  function Dirname(p: string): string {
    var head := p[..HeadLength(p)];
    var stripped := RStripSlashes(head);
    if stripped != [] then stripped else head
  }

  /** Joining a file name onto a directory and taking `dirname` gives the directory back. */
  lemma DirnameOfJoin(d: string, f: string)
    requires f != [] && Lacks(f, '/')
    requires !EndsWith(d, "/")
    ensures Dirname(Join(d, f)) == d
  {
    JoinSpec(d, f);
    assert !StartsWith(f, "/") by {
      assert f[..1][0] == f[0];
    }
    var p := Join(d, f);
    if d == [] {
      assert p == f;
      HeadLengthSpec(p);
      assert HeadLength(p) == 0;
    } else {
      assert p == d + "/" + f;
      HeadLengthAfterSlash(d + "/", f);
      var head := p[..|d| + 1];
      assert head == d + "/";
      assert head[..|head| - 1] == d;
      assert d[|d| - 1] != '/' by {
        assert d[|d| - 1..] == [d[|d| - 1]];
      }
      assert RStripSlashes(head) == d;
    }
  }

  lemma {:induction false} HeadLengthAfterSlash(a: string, f: string)
    requires a != [] && a[|a| - 1] == '/'
    requires Lacks(f, '/')
    ensures HeadLength(a + f) == |a|
    decreases |f|
  {
    if f == [] {
      assert a + f == a;
    } else {
      assert (a + f)[..|a + f| - 1] == a + f[..|f| - 1];
      HeadLengthAfterSlash(a, f[..|f| - 1]);
    }
  }
}
