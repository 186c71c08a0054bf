/**
 * The parts of Python's `os.path` the scripts use, with POSIX paths:
 * `join` of two parts, `basename` and `dirname`.
 */
module PosixPath {
  import opened PyStr

  /** Python's `os.path.join(a, b)` on POSIX. */
  function Join(a: string, b: string): string
  {
    if StartsWith(b, "/") then b
    else if a == "" || EndsWith(a, "/") then a + b
    else a + "/" + b
  }

  /** The index of the last `/` of `p`, or -1 when it has none. */
  function LastSlash(p: string): (r: int)
    ensures -1 <= r < |p|
    ensures r >= 0 ==> p[r] == '/'
    ensures forall j :: r < j < |p| ==> p[j] != '/'
    decreases |p|
  {
    if p == [] then -1
    else if p[|p| - 1] == '/' then |p| - 1
    else LastSlash(p[..|p| - 1])
  }

  /** Python's `os.path.basename(p)`: the text after the last `/`. */
  function Basename(p: string): string
  {
    p[LastSlash(p) + 1..]
  }

  predicate IsSlash(c: char)
  {
    c == '/'
  }

  /**
   * Python's `os.path.dirname(p)`: the text up to the last `/`, with its
   * trailing slashes removed unless it consists of slashes only.
   */
  function Dirname(p: string): string
  {
    var head := p[..LastSlash(p) + 1];
    if head != "" && exists i :: 0 <= i < |head| && head[i] != '/' then RStripWith(head, IsSlash)
    else head
  }

  /** A base name holds no `/` and ends its path. */
  lemma BasenameShape(p: string)
    ensures '/' !in Basename(p)
    ensures p == p[..|p| - |Basename(p)|] + Basename(p)
    ensures |Basename(p)| < |p| ==> p[|p| - |Basename(p)| - 1] == '/'
  {
    var k := LastSlash(p);
    var b := Basename(p);
    forall i | 0 <= i < |b|
      ensures b[i] != '/'
    {
      var j := k + 1 + i;
      assert k < j < |p| && b[i] == p[j];
    }
    assert |p| - |b| == k + 1;
    SplitAt(p, k + 1);
  }

  lemma SplitAt<T>(s: seq<T>, k: nat)
    requires k <= |s|
    ensures s[..k] + s[k..] == s
  {
  }

  /** Appending text without a `/` does not move the last `/`. */
  lemma {:induction false} LastSlashAppend(a: string, b: string)
    requires '/' !in b
    ensures LastSlash(a + b) == LastSlash(a)
    decreases |b|
  {
    if b == [] {
      assert a + b == a;
    } else {
      var c := b[..|b| - 1];
      assert (a + b)[..|a + b| - 1] == a + c;
      assert (a + b)[|a + b| - 1] == b[|b| - 1];
      LastSlashAppend(a, c);
    }
  }

  /** Joining a name without a `/` onto a directory puts it directly inside: it is the base name of the result. */
  lemma JoinBasename(d: string, name: string)
    requires '/' !in name
    ensures Basename(Join(d, name)) == name
  {
    if d == "" {
      LastSlashAppend("", name);
      assert "" + name == name;
    } else if EndsWith(d, "/") {
      assert d[|d| - 1] == '/';
      LastSlashAppend(d, name);
    } else {
      var e := d + "/";
      assert d + "/" + name == e + name;
      assert e[|e| - 1] == '/';
      LastSlashAppend(e, name);
    }
  }

  /**
   * In a path without doubled slashes, joining the directory name back to the
   * base name gives the path again.
   */
  lemma JoinDirBase(p: string)
    requires forall i :: 0 <= i < |p| - 1 ==> p[i] != '/' || p[i + 1] != '/'
    ensures Join(Dirname(p), Basename(p)) == p
  {
    var k := LastSlash(p);
    if k == -1 {
      assert Basename(p) == p;
      assert Dirname(p) == "";
      assert p == [] || p[0] != '/';
      assert Join("", p) == p;
    } else if k == 0 {
      JoinDirBaseRoot(p);
    } else {
      JoinDirBaseDeep(p);
    }
  }

  /** `JoinDirBase` for a path whose only `/` is its first character. */
  lemma JoinDirBaseRoot(p: string)
    requires LastSlash(p) == 0
    ensures Join(Dirname(p), Basename(p)) == p
  {
    var base := p[1..];
    assert Basename(p) == base;
    assert p[..1] == "/";
    assert Dirname(p) == "/";
    assert EndsWith("/", "/");
    if base != [] {
      assert base[0] == p[1];
    }
    assert !StartsWith(base, "/");
    assert Join("/", base) == "/" + base;
    SplitAt(p, 1);
  }

  /** `JoinDirBase` for a path whose last `/` is not its first character. */
  lemma JoinDirBaseDeep(p: string)
    requires forall i :: 0 <= i < |p| - 1 ==> p[i] != '/' || p[i + 1] != '/'
    requires LastSlash(p) > 0
    ensures Join(Dirname(p), Basename(p)) == p
  {
    var k := LastSlash(p);
    assert p[k - 1] != '/';
    DirnameDeep(p);
    var d, base := p[..k], p[k + 1..];
    assert d[k - 1] != '/';
    NoTrailingSlash(d);
    if base != [] {
      assert base[0] == p[k + 1];
    }
    assert !StartsWith(base, "/");
    assert Join(d, base) == d + "/" + base;
    assert [p[k]] == "/";
    SplitAround(p, k);
  }

  lemma SplitAround<T>(s: seq<T>, k: nat)
    requires k < |s|
    ensures s[..k] + [s[k]] + s[k + 1..] == s
  {
  }

  /** The directory name of a path whose last `/` follows another character is the text before that `/`. */
  lemma DirnameDeep(p: string)
    requires LastSlash(p) > 0 && p[LastSlash(p) - 1] != '/'
    ensures Dirname(p) == p[..LastSlash(p)]
  {
    var k := LastSlash(p);
    var head := p[..k + 1];
    assert head[k - 1] != '/';
    assert head[..k] == p[..k];
    assert RStripWith(head, IsSlash) == RStripWith(p[..k], IsSlash);
    assert RStripWith(p[..k], IsSlash) == p[..k];
  }

  lemma NoTrailingSlash(d: string)
    requires d != [] && d[|d| - 1] != '/'
    ensures !EndsWith(d, "/")
  {
    var t := d[|d| - 1..];
    assert |t| == 1 && t[0] == d[|d| - 1];
    assert "/"[0] == '/';
  }
}
