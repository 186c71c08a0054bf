/**
 * The version-selection loop of `main` in bin/projsetup.py: among the
 * Simics installations found by a glob, it keeps the one whose version
 * stamp (`simics-A.B.C`) it considers the latest, counting the entries
 * seen and the entry at which the kept one was found.  The glob, the
 * prints and the final `project-setup` call are not modelled.
 */
module ProjSetup {
  import opened Wrappers
  import opened PyStr
  import opened PyInt

  /** The marker in front of a version stamp. */
  const VerSubstr: string := "simics-"

  datatype Version = Version(a: int, b: int, c: int)

  /** The version the loop starts from, `ver_a = ver_b = ver_c = 0`. */
  const Zero := Version(0, 0, 0)

  /** The loop's test: every component at least the current best's. */
  predicate AtLeast(v: Version, w: Version)
  {
    v.a >= w.a && v.b >= w.b && v.c >= w.c
  }

  /** Version order proper: compare the first component, then the second, then the third. */
  predicate LexAtLeast(v: Version, w: Version)
  {
    v.a > w.a || (v.a == w.a && (v.b > w.b || (v.b == w.b && v.c >= w.c)))
  }

  /**
   * What one path contributes: `ValueError` when `rindex` finds no
   * `simics-` or `int()` rejects a field, nothing when the text after the
   * last `simics-` has fewer than three `.`-separated fields, and otherwise
   * the version read from the first three.
   */
  function EntryVersion(path: string): (r: Result<Option<Version>>)
    ensures r.Err? ==> r.fault == ValueError
    ensures !Contains(path, VerSubstr) ==> r == Err(ValueError)
  {
    var k := RFind(path, VerSubstr);
    if k == -1 then Err(ValueError)
    else
      var comps := SplitChar(path[k + |VerSubstr|..], '.', -1);
      if |comps| < 3 then Ok(None)
      else
        match (ParseInt(comps[0], 10), ParseInt(comps[1], 10), ParseInt(comps[2], 10))
        case (Some(a), Some(b), Some(c)) => Ok(Some(Version(a, b, c)))
        case _ => Err(ValueError)
  }

  /** Lines 48-60 for one path, `rindex` raising where the source tests for -1. */
  method ParseEntry(curfile: string) returns (entry: Result<Option<Version>>)
    ensures entry == EntryVersion(curfile)
  {
    var substrLoc := RFind(curfile, VerSubstr);
    if substrLoc == -1 {
      return Err(ValueError);
    }
    var locfile := curfile[substrLoc + |VerSubstr|..];
    var verComps := SplitChar(locfile, '.', -1);
    if |verComps| < 3 {
      return Ok(None);
    }
    var locverA := ParseInt(verComps[0], 10);
    var locverB := ParseInt(verComps[1], 10);
    var locverC := ParseInt(verComps[2], 10);
    if locverA.None? || locverB.None? || locverC.None? {
      return Err(ValueError);
    }
    entry := Ok(Some(Version(locverA.value, locverB.value, locverC.value)));
  }

  /** The path stamped with version `a.b.c` after a directory prefix. */
  function InstallPath(prefix: string, a: nat, b: nat, c: nat): string
  {
    prefix + VerSubstr + Stamp(a, b, c)
  }

  /** The version stamp `a.b.c`. */
  function Stamp(a: nat, b: nat, c: nat): string
  {
    FormatDec(a) + "." + FormatDec(b) + "." + FormatDec(c)
  }

  /** Decimal digits hold neither a `.` nor an `s`. */
  lemma DecimalChars(n: nat)
    ensures '.' !in FormatDec(n) && 's' !in FormatDec(n) && '-' !in FormatDec(n)
  {
    FormatDecShape(n);
    forall i | 0 <= i < |FormatDec(n)|
      ensures FormatDec(n)[i] != '.' && FormatDec(n)[i] != 's' && FormatDec(n)[i] != '-'
    {
      assert FormatDec(n)[0] != '-';
    }
  }

  /** After a `simics-` followed by text without an `s`, no later `simics-` can start. */
  lemma LastMarker(prefix: string, stamp: string)
    requires 's' !in stamp
    ensures RFind(prefix + VerSubstr + stamp, VerSubstr) == |prefix|
  {
    var p := prefix + VerSubstr + stamp;
    assert p[|prefix|..|prefix| + 7] == VerSubstr;
    forall j | |prefix| < j
      ensures !OccursAt(p, VerSubstr, j)
    {
      if j + 7 <= |p| {
        if j == |prefix| + 5 {
          assert p[j + 1] == VerSubstr[6];
          assert p[j..j + 7][1] == p[j + 1];
        } else if j < |prefix| + 7 {
          assert p[j] == VerSubstr[j - |prefix|];
          assert p[j..j + 7][0] == p[j];
        } else {
          assert p[j] == stamp[j - |prefix| - 7];
          assert p[j..j + 7][0] == p[j];
        }
      }
    }
    assert OccursAt(p, VerSubstr, |prefix|);
  }

  /** The last `simics-` of an install path is the one in front of its stamp. */
  lemma StampFound(prefix: string, a: nat, b: nat, c: nat)
    ensures RFind(InstallPath(prefix, a, b, c), VerSubstr) == |prefix|
  {
    DecimalChars(a);
    DecimalChars(b);
    DecimalChars(c);
    LastMarker(prefix, Stamp(a, b, c));
  }

  /** Three fields without a `.`, joined by `.`, split back into those three. */
  lemma SplitThree(x: string, y: string, z: string)
    requires '.' !in x && '.' !in y && '.' !in z
    ensures SplitChar(x + "." + y + "." + z, '.', -1) == [x, y, z]
  {
    var w := y + ['.'] + z;
    assert x + ['.'] + w == x + "." + y + "." + z;
    SplitCharCons(x, '.', w, -1);
    SplitCharCons(y, '.', z, -1);
    SplitCharNone(z, '.', -1);
  }

  /** A path whose last `simics-` is followed by three readable `.`-separated fields has their version. */
  lemma EntryVersionOfFields(prefix: string, x: string, y: string, z: string, v: Version)
    requires '.' !in x && '.' !in y && '.' !in z
    requires RFind(prefix + VerSubstr + (x + "." + y + "." + z), VerSubstr) == |prefix|
    requires ParseInt(x, 10) == Some(v.a) && ParseInt(y, 10) == Some(v.b) && ParseInt(z, 10) == Some(v.c)
    ensures EntryVersion(prefix + VerSubstr + (x + "." + y + "." + z)) == Ok(Some(v))
  {
    var p := prefix + VerSubstr + (x + "." + y + "." + z);
    assert p[|prefix| + |VerSubstr|..] == x + "." + y + "." + z;
    SplitThree(x, y, z);
  }

  /** Reading a version back from the path it stamps gives the version. */
  lemma EntryVersionOfInstall(prefix: string, a: nat, b: nat, c: nat)
    ensures EntryVersion(InstallPath(prefix, a, b, c)) == Ok(Some(Version(a, b, c)))
  {
    StampFound(prefix, a, b, c);
    DecimalChars(a);
    DecimalChars(b);
    DecimalChars(c);
    FormatDecParse(a);
    FormatDecParse(b);
    FormatDecParse(c);
    EntryVersionOfFields(prefix, FormatDec(a), FormatDec(b), FormatDec(c), Version(a, b, c));
  }

  /**
   * The loop's variables: the best version so far, the path it came from,
   * the entry number at which it was taken (`passes`) and the number of
   * entries seen (`total_entries`).
   */
  datatype Selection = Selection(best: Version, latestPath: string, passes: nat, total: nat)

  const Initial := Selection(Zero, "", 0, 0)

  /**
   * One pass of the loop: the entry is counted, and a version `newer`
   * accepts over the best so far becomes the best; an entry that raises
   * ends the run.
   */
  function Then(r: Result<Selection>, path: string, out: Result<Option<Version>>, newer: (Version, Version) -> bool): Result<Selection>
  {
    match r
    case Err(e) => Err(e)
    case Ok(s) =>
      match out
      case Err(e) => Err(e)
      case Ok(None) => Ok(s.(total := s.total + 1))
      case Ok(Some(v)) =>
        if newer(v, s.best) then Ok(Selection(v, path, s.total + 1, s.total + 1))
        else Ok(s.(total := s.total + 1))
  }

  /** The loop over `files`, whose entries read as `outs`. */
  function Select(files: seq<string>, outs: seq<Result<Option<Version>>>, newer: (Version, Version) -> bool): Result<Selection>
    requires |outs| == |files|
    decreases |files|
  {
    if files == [] then Ok(Initial)
    else
      var n := |files| - 1;
      Then(Select(files[..n], outs[..n], newer), files[n], outs[n], newer)
  }

  /** The entries of `files`, each read on its own. */
  function Outcomes(files: seq<string>): (outs: seq<Result<Option<Version>>>)
    ensures |outs| == |files|
  {
    seq(|files|, k requires 0 <= k < |files| => EntryVersion(files[k]))
  }

  lemma SelectSnoc(files: seq<string>, outs: seq<Result<Option<Version>>>, newer: (Version, Version) -> bool, i: nat)
    requires |outs| == |files| && i < |files|
    ensures Select(files[..i + 1], outs[..i + 1], newer) == Then(Select(files[..i], outs[..i], newer), files[i], outs[i], newer)
  {
    assert files[..i + 1][..i] == files[..i];
    assert outs[..i + 1][..i] == outs[..i];
  }

  /** An entry that raises ends the whole run with its exception. */
  lemma {:induction false} SelectErrStays(files: seq<string>, outs: seq<Result<Option<Version>>>, newer: (Version, Version) -> bool, i: nat)
    requires |outs| == |files| && i <= |files|
    requires Select(files[..i], outs[..i], newer).Err?
    ensures Select(files, outs, newer) == Select(files[..i], outs[..i], newer)
    decreases |files| - i
  {
    if i < |files| {
      SelectSnoc(files, outs, newer, i);
      SelectErrStays(files, outs, newer, i + 1);
    } else {
      assert files[..i] == files && outs[..i] == outs;
    }
  }

  /** The rest of one pass of `main`'s loop once `curfile` has been read as `entry`, with the version test of the source: all three components at least the best's. */
  method Advance(cur: Selection, curfile: string, entry: Result<Option<Version>>) returns (next: Result<Selection>)
    ensures next == Then(Ok(cur), curfile, entry, AtLeast)
  {
    var totalEntries := cur.total + 1;
    match entry {
      case Err(e) =>
        next := Err(e);
      case Ok(None) =>
        next := Ok(cur.(total := totalEntries));
      case Ok(Some(v)) =>
        if v.a >= cur.best.a && v.b >= cur.best.b && v.c >= cur.best.c {
          next := Ok(Selection(v, curfile, totalEntries, totalEntries));
        } else {
          next := Ok(cur.(total := totalEntries));
        }
    }
  }

  /** `main`'s loop over the paths the glob found, stopping at an entry that raises. */
  method SelectInstall(filelist: seq<string>) returns (r: Result<Selection>)
    ensures r == Select(filelist, Outcomes(filelist), AtLeast)
  {
    ghost var outs := Outcomes(filelist);
    var cur := Initial;
    for i := 0 to |filelist|
      invariant Select(filelist[..i], outs[..i], AtLeast) == Ok(cur)
    {
      var curfile := filelist[i];
      SelectSnoc(filelist, outs, AtLeast, i);
      var entry := ParseEntry(curfile);
      assert outs[i] == entry;
      var next := Advance(cur, curfile, entry);
      if next.Err? {
        SelectErrStays(filelist, outs, AtLeast, i + 1);
        return next;
      }
      cur := next.value;
    }
    assert filelist[..|filelist|] == filelist && outs[..|filelist|] == outs;
    r := Ok(cur);
  }

  /**
   * Every entry is counted; the kept path is the entry at number `passes`
   * and its version is the best; with no entry taken, the path is empty and
   * the best is 0.0.0.
   */
  lemma {:induction false} SelectShape(files: seq<string>, outs: seq<Result<Option<Version>>>, newer: (Version, Version) -> bool)
    requires |outs| == |files|
    requires Select(files, outs, newer).Ok?
    ensures var s := Select(files, outs, newer).value;
      s.total == |files| && s.passes <= s.total &&
      (s.passes == 0 ==> s.latestPath == "" && s.best == Zero) &&
      (s.passes > 0 ==> s.latestPath == files[s.passes - 1] && outs[s.passes - 1] == Ok(Some(s.best)))
    decreases |files|
  {
    if files != [] {
      var n := |files| - 1;
      SelectShape(files[..n], outs[..n], newer);
    }
  }

  /** The run raises exactly when one of its entries does. */
  lemma {:induction false} SelectErrIff(files: seq<string>, outs: seq<Result<Option<Version>>>, newer: (Version, Version) -> bool)
    requires |outs| == |files|
    ensures Select(files, outs, newer).Err? <==> exists k :: 0 <= k < |outs| && outs[k].Err?
    decreases |files|
  {
    if files != [] {
      var n := |files| - 1;
      SelectErrIff(files[..n], outs[..n], newer);
      if exists k :: 0 <= k < n && outs[..n][k].Err? {
        var k :| 0 <= k < n && outs[..n][k].Err?;
        assert outs[k].Err?;
      }
      if exists k :: 0 <= k < |outs| && outs[k].Err? {
        var k :| 0 <= k < |outs| && outs[k].Err?;
        if k < n {
          assert outs[..n][k].Err?;
        }
      }
    }
  }

  ghost predicate Transitive(newer: (Version, Version) -> bool)
  {
    forall u, v, w :: newer(u, v) && newer(v, w) ==> newer(u, w)
  }

  ghost predicate Reflexive(newer: (Version, Version) -> bool)
  {
    forall v :: newer(v, v)
  }

  ghost predicate Connex(newer: (Version, Version) -> bool)
  {
    forall v, w :: newer(v, w) || newer(w, v)
  }

  lemma AtLeastOrder()
    ensures Transitive(AtLeast) && Reflexive(AtLeast)
  {
  }

  lemma LexAtLeastOrder()
    ensures Transitive(LexAtLeast) && Reflexive(LexAtLeast) && Connex(LexAtLeast)
  {
  }

  /** The best version never moves back: each later best is `newer` than each earlier one. */
  lemma {:induction false} SelectMonotone(files: seq<string>, outs: seq<Result<Option<Version>>>, newer: (Version, Version) -> bool, i: nat)
    requires |outs| == |files| && i <= |files|
    requires Transitive(newer) && Reflexive(newer)
    requires Select(files, outs, newer).Ok?
    ensures Select(files[..i], outs[..i], newer).Ok?
    ensures newer(Select(files, outs, newer).value.best, Select(files[..i], outs[..i], newer).value.best)
    decreases |files| - i
  {
    if i == |files| {
      assert files[..i] == files && outs[..i] == outs;
    } else {
      var n := |files| - 1;
      assert files[..n][..i] == files[..i] && outs[..n][..i] == outs[..i];
      SelectMonotone(files[..n], outs[..n], newer, i);
    }
  }

  /**
   * With a total order as the test, the kept version is at least every
   * version read and at least 0.0.0: the loop finds the latest installation.
   */
  lemma {:induction false} SelectMaximum(files: seq<string>, outs: seq<Result<Option<Version>>>, newer: (Version, Version) -> bool)
    requires |outs| == |files|
    requires Transitive(newer) && Reflexive(newer) && Connex(newer)
    requires Select(files, outs, newer).Ok?
    ensures var best := Select(files, outs, newer).value.best;
      newer(best, Zero) && forall k :: 0 <= k < |outs| && outs[k].Ok? && outs[k].value.Some? ==> newer(best, outs[k].value.value)
    decreases |files|
  {
    if files != [] {
      var n := |files| - 1;
      SelectMaximum(files[..n], outs[..n], newer);
      var prev := Select(files[..n], outs[..n], newer).value.best;
      var best := Select(files, outs, newer).value.best;
      assert newer(best, prev);
      forall k | 0 <= k < |outs| && outs[k].Ok? && outs[k].value.Some?
        ensures newer(best, outs[k].value.value)
      {
        if k < n {
          assert outs[..n][k] == outs[k];
        }
      }
    }
  }

  /** The corrected loop: the same scan with the version order in place of the componentwise test. */
  function SelectLatest(filelist: seq<string>): Result<Selection>
  {
    Select(filelist, Outcomes(filelist), LexAtLeast)
  }

  /** The corrected loop keeps a version at least every version it reads. */
  lemma SelectLatestMaximum(filelist: seq<string>)
    requires SelectLatest(filelist).Ok?
    ensures forall k :: 0 <= k < |filelist| && Outcomes(filelist)[k].Ok? && Outcomes(filelist)[k].value.Some? ==>
      LexAtLeast(SelectLatest(filelist).value.best, Outcomes(filelist)[k].value.value)
  {
    LexAtLeastOrder();
    SelectMaximum(filelist, Outcomes(filelist), LexAtLeast);
  }

  /** A loop over two entries takes two passes. */
  lemma SelectPair(f0: string, f1: string, o0: Result<Option<Version>>, o1: Result<Option<Version>>, newer: (Version, Version) -> bool)
    ensures Select([f0, f1], [o0, o1], newer) == Then(Then(Ok(Initial), f0, o0, newer), f1, o1, newer)
  {
    var fs, os := [f0, f1], [o0, o1];
    assert fs[..1] == [f0] && os[..1] == [o0];
    assert [f0][..0] == [] && [o0][..0] == [];
    assert Select(fs, os, newer) == Then(Select([f0], [o0], newer), f1, o1, newer);
    assert Select([f0], [o0], newer) == Then(Ok(Initial), f0, o0, newer);
  }

  lemma OutcomesPair(f0: string, f1: string)
    ensures Outcomes([f0, f1]) == [EntryVersion(f0), EntryVersion(f1)]
  {
  }

  /** Two entries that read as 6.0.51 and then 6.1.0. */
  lemma MissesNewer(f0: string, f1: string, outs: seq<Result<Option<Version>>>)
    requires outs == [Ok(Some(Version(6, 0, 51))), Ok(Some(Version(6, 1, 0)))]
    ensures Select([f0, f1], outs, AtLeast) == Ok(Selection(Version(6, 0, 51), f0, 1, 2))
    ensures Select([f0, f1], outs, LexAtLeast) == Ok(Selection(Version(6, 1, 0), f1, 2, 2))
  {
    SelectPair(f0, f1, outs[0], outs[1], AtLeast);
    SelectPair(f0, f1, outs[0], outs[1], LexAtLeast);
  }

  /**
   * As written, a newer installation that lowers a later component is
   * never taken: after 6.0.51, the loop keeps 6.0.51 although 6.1.0 follows,
   * while the corrected loop takes 6.1.0.
   */
  lemma SelectInstallMissesNewer(prefix: string)
    ensures var files := [InstallPath(prefix, 6, 0, 51), InstallPath(prefix, 6, 1, 0)];
      Select(files, Outcomes(files), AtLeast) == Ok(Selection(Version(6, 0, 51), files[0], 1, 2)) &&
      SelectLatest(files) == Ok(Selection(Version(6, 1, 0), files[1], 2, 2))
  {
    var f0, f1 := InstallPath(prefix, 6, 0, 51), InstallPath(prefix, 6, 1, 0);
    EntryVersionOfInstall(prefix, 6, 0, 51);
    EntryVersionOfInstall(prefix, 6, 1, 0);
    OutcomesPair(f0, f1);
    MissesNewer(f0, f1, Outcomes([f0, f1]));
  }
}
