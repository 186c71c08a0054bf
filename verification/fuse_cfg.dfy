/**
 * The two readers of name/value lists in bin/fusegen-tools.py:
 * `parse_cfg_out` takes the `cfg.fuse` section of a firmware configuration
 * dump, and `parse_default_ovrd` a default-override file of `name = value`
 * lines.  Both yield records of which only the name and the value are set,
 * the form `merge_values` (PatchMerge) consumes.  A file that cannot be
 * opened is `None` and yields the empty list, as in the scripts.
 */
module FuseConfig {
  import opened Wrappers
  import opened PyStr
  import opened PyInt
  import opened Tally
  import opened FuseValue
  import opened PatchFormat

  /** A record carrying only a name and a value (the scripts' `{"NAME": …, "VALUE": …}`). */
  function NamedValue(name: string, value: int): (f: Fuse)
    ensures f.name == name && f.value == value
  {
    Fuse(0, 0, 0, value, name, "", false, false)
  }

  /* ---------------------------------------------------------------- */
  /* parse_cfg_out                                                     */

  const CfgMarker: string := "== cfg.fuse =="
  const EndMarker: string := "==============="
  const DcodePrefix: string := "dmu_fuse_fw_fuses_"
  const PunitPrefix: string := "punit_punit_fw_fuses_"

  /** The name prefix: the DMU one for a file whose base name mentions `dcode` in any case. */
  function CfgPrefix(basename: string): string
  {
    if Contains(Lower(basename), "dcode") then DcodePrefix else PunitPrefix
  }

  /** Where the scan of the dump stands. */
  datatype ScanState = Locating | InCfg | Ended

  /** The stripped line split at its first two `:`; it has a second part exactly when the line has a `:`. */
  function CfgParts(line: string): (parts: seq<string>)
    ensures |parts| >= 2 <==> ':' in Strip(line)
  {
    var t := Strip(line);
    FindCharIff(t, ':');
    SplitChar(t, ':', 2)
  }

  /**
   * One line of the section: `KEY: value` becomes the prefixed upper-case
   * key and the decimal value.  A line without `:` makes the script index
   * past the split, and a value `int()` rejects raises `ValueError`.
   */
  function CfgLine(line: string, prefix: string): (r: Result<Fuse>)
    ensures r == Err(IndexError) <==> ':' !in Strip(line)
    ensures r == Err(ValueError) <==> ':' in Strip(line) && ParseInt(Strip(CfgParts(line)[1]), 10).None?
    ensures r.Err? ==> r == Err(IndexError) || r == Err(ValueError)
    ensures r.Ok? ==>
      (':' in Strip(line) && r.value.name == prefix + Upper(CfgParts(line)[0]) &&
       Some(r.value.value) == ParseInt(Strip(CfgParts(line)[1]), 10))
  {
    var parts := CfgParts(line);
    if |parts| < 2 then Err(IndexError)
    else
      match ParseInt(Strip(parts[1]), 10)
      case None => Err(ValueError)
      case Some(v) => Ok(NamedValue(prefix + Upper(parts[0]), v))
  }

  /** The outcome of every line read as a section line. */
  function CfgRows(lines: seq<string>, prefix: string): (rows: seq<Result<Fuse>>)
    ensures |rows| == |lines|
    ensures forall k :: 0 <= k < |lines| ==> rows[k] == CfgLine(lines[k], prefix)
  {
    seq(|lines|, k requires 0 <= k < |lines| => CfgLine(lines[k], prefix))
  }

  /** What the scan looks for in a line: the `cfg.fuse` marker and the end marker. */
  datatype Mark = Mark(opens: bool, closes: bool)

  function MarkOf(line: string): (mk: Mark)
    ensures mk.opens <==> Find(line, CfgMarker) != -1
    ensures mk.closes <==> Find(line, EndMarker) != -1
  {
    Mark(Contains(line, CfgMarker), Contains(line, EndMarker))
  }

  function Marks(lines: seq<string>): (marks: seq<Mark>)
    ensures |marks| == |lines|
    ensures forall k :: 0 <= k < |lines| ==> marks[k] == MarkOf(lines[k])
  {
    seq(|lines|, k requires 0 <= k < |lines| => MarkOf(lines[k]))
  }

  /**
   * The state machine of `parse_cfg_out` over the lines read so far, given
   * the markers each line holds and what each yields when it is read as a
   * section line: the state and the records taken, or the first error.
   */
  function Scan(marks: seq<Mark>, rows: seq<Result<Fuse>>): Result<(ScanState, seq<Fuse>)>
    requires |rows| == |marks|
  {
    if marks == [] then Ok((Locating, []))
    else
      var n := |marks| - 1;
      Step(Scan(marks[..n], rows[..n]), marks[n], rows[n])
  }

  /** One line of the scan: its markers and what reading it yields. */
  function Step(st: Result<(ScanState, seq<Fuse>)>, mk: Mark, row: Result<Fuse>): Result<(ScanState, seq<Fuse>)>
  {
    match st
    case Err(e) => Err(e)
    case Ok((state, items)) =>
      match state
      case Locating => Ok((if mk.opens then InCfg else Locating, items))
      case Ended => Ok((Ended, items))
      case InCfg =>
        if mk.closes then Ok((Ended, items))
        else
          match row
          case Err(e) => Err(e)
          case Ok(f) => Ok((InCfg, items + [f]))
  }

  /** `parse_cfg_out(source_filename)` on the file's lines and base name. */
  function CfgOut(file: Option<seq<string>>, basename: string): Result<seq<Fuse>>
  {
    match file
    case None => Ok([])
    case Some(lines) => ScanItems(lines, CfgPrefix(basename))
  }

  /** The records the scan of `lines` collects with `prefix`, or its error. */
  function ScanItems(lines: seq<string>, prefix: string): Result<seq<Fuse>>
  {
    ItemsOf(Scan(Marks(lines), CfgRows(lines, prefix)))
  }

  /** The records of a scan, or its error. */
  function ItemsOf(r: Result<(ScanState, seq<Fuse>)>): Result<seq<Fuse>>
  {
    match r
    case Err(e) => Err(e)
    case Ok((_, items)) => Ok(items)
  }

  /** Once the scan has ended or failed, further lines change nothing. */
  lemma {:induction false} ScanStops(marks: seq<Mark>, rows: seq<Result<Fuse>>, n: nat)
    requires |rows| == |marks| && n <= |marks|
    requires Scan(marks[..n], rows[..n]).Err? || Scan(marks[..n], rows[..n]).value.0 == Ended
    ensures Scan(marks, rows) == Scan(marks[..n], rows[..n])
    decreases |marks| - n
  {
    if n < |marks| {
      assert marks[..n + 1][..n] == marks[..n];
      assert rows[..n + 1][..n] == rows[..n];
      ScanStops(marks, rows, n + 1);
    } else {
      assert marks[..n] == marks;
      assert rows[..n] == rows;
    }
  }

  /** The body of the loop of `parse_cfg_out` for a line of the section. */
  method ReadCfgLine(line: string, prefix: string) returns (r: Result<Fuse>)
    ensures r == CfgLine(line, prefix)
  {
    var parts := CfgParts(line);
    if |parts| < 2 {
      return Err(IndexError);
    }
    var v := ParseInt(Strip(parts[1]), 10);
    if v.None? {
      return Err(ValueError);
    }
    r := Ok(NamedValue(prefix + Upper(parts[0]), v.value));
  }

  /** One more line is one more step of the state machine. */
  lemma ScanSnoc(marks: seq<Mark>, rows: seq<Result<Fuse>>, i: nat)
    requires |rows| == |marks| && i < |marks|
    ensures Scan(marks[..i + 1], rows[..i + 1]) == Step(Scan(marks[..i], rows[..i]), marks[i], rows[i])
  {
    assert marks[..i + 1][..i] == marks[..i];
    assert rows[..i + 1][..i] == rows[..i];
  }

  /** The body of the loop of `parse_cfg_out` for one line. */
  method StepLine(state: ScanState, items: seq<Fuse>, line: string, prefix: string) returns (next: Result<(ScanState, seq<Fuse>)>)
    ensures next == Step(Ok((state, items)), MarkOf(line), CfgLine(line, prefix))
  {
    if state == Locating {
      if Find(line, CfgMarker) != -1 {
        return Ok((InCfg, items));
      }
      return Ok((Locating, items));
    }
    if state == Ended || Find(line, EndMarker) != -1 {
      return Ok((Ended, items));
    }
    var f := ReadCfgLine(line, prefix);
    if f.Err? {
      return Err(f.fault);
    }
    next := Ok((InCfg, items + [f.value]));
  }

  /** `parse_cfg_out`: no records without a file; otherwise the prefix the file name selects, then the scan. */
  method ParseCfgOut(file: Option<seq<string>>, basename: string) returns (r: Result<seq<Fuse>>)
    ensures r == CfgOut(file, basename)
  {
    if file.None? {
      return Ok([]);
    }
    var prefix := PunitPrefix;
    if Find(Lower(basename), "dcode") != -1 {
      prefix := DcodePrefix;
    }
    r := ScanCfg(file.value, prefix);
  }

  /** The loop of `parse_cfg_out`, stepping through the three states and stopping at the end marker. */
  method ScanCfg(lines: seq<string>, prefix: string) returns (r: Result<seq<Fuse>>)
    ensures r == ScanItems(lines, prefix)
  {
    r := ScanLines(lines, prefix, Marks(lines), CfgRows(lines, prefix));
  }

  /** The loop over the lines, given what each line's markers are and what reading it yields. */
  method ScanLines(lines: seq<string>, prefix: string, ghost marks: seq<Mark>, ghost rows: seq<Result<Fuse>>) returns (r: Result<seq<Fuse>>)
    requires |marks| == |rows| == |lines|
    requires forall k :: 0 <= k < |lines| ==> marks[k] == MarkOf(lines[k]) && rows[k] == CfgLine(lines[k], prefix)
    ensures r == ItemsOf(Scan(marks, rows))
  {
    var items: seq<Fuse> := [];
    var state := Locating;
    var i := 0;
    while i < |lines|
      invariant 0 <= i <= |lines|
      invariant Scan(marks[..i], rows[..i]) == Ok((state, items))
      invariant state != Ended
    {
      ScanSnoc(marks, rows, i);
      var next := StepLine(state, items, lines[i], prefix);
      assert next == Scan(marks[..i + 1], rows[..i + 1]);
      if next.Err? || next.value.0 == Ended {
        ScanStops(marks, rows, i + 1);
        if next.Err? {
          return Err(next.fault);
        }
        return Ok(items);
      }
      state, items := next.value.0, next.value.1;
      i := i + 1;
    }
    assert marks[..|lines|] == marks;
    assert rows[..|lines|] == rows;
    r := Ok(items);
  }

  /* The section read directly, for comparison. */

  function Flag(mk: Mark, closing: bool): bool
  {
    if closing then mk.closes else mk.opens
  }

  /** The first line from `i` on that holds the marker (the end marker when `closing`), or `|marks|` when none does. */
  function FirstMark(marks: seq<Mark>, closing: bool, i: nat): (k: nat)
    requires i <= |marks|
    ensures i <= k <= |marks|
    ensures k < |marks| ==> Flag(marks[k], closing)
    ensures forall j :: i <= j < k ==> !Flag(marks[j], closing)
    decreases |marks| - i
  {
    if i == |marks| then i
    else if Flag(marks[i], closing) then i
    else FirstMark(marks, closing, i + 1)
  }

  /** `FirstMark` is the only position with its three properties. */
  lemma FirstMarkIs(marks: seq<Mark>, closing: bool, i: nat, k: nat)
    requires i <= k <= |marks|
    requires k < |marks| ==> Flag(marks[k], closing)
    requires forall j :: i <= j < k ==> !Flag(marks[j], closing)
    ensures FirstMark(marks, closing, i) == k
  {
  }

  /** One more line moves the first marker only when there was none. */
  lemma FirstMarkSnoc(marks: seq<Mark>, x: Mark, closing: bool, i: nat)
    requires i <= |marks|
    ensures FirstMark(marks + [x], closing, i) ==
      if FirstMark(marks, closing, i) < |marks| then FirstMark(marks, closing, i)
      else if Flag(x, closing) then |marks| else |marks| + 1
  {
    var s := marks + [x];
    var k := FirstMark(marks, closing, i);
    assert forall j :: 0 <= j < |marks| ==> s[j] == marks[j];
    if k < |marks| {
      FirstMarkIs(s, closing, i, k);
    } else if Flag(x, closing) {
      FirstMarkIs(s, closing, i, |marks|);
    } else {
      FirstMarkIs(s, closing, i, |marks| + 1);
    }
  }

  /** The first line holding the `cfg.fuse` marker, or `|marks|`. */
  function SectionStart(marks: seq<Mark>): nat
  {
    FirstMark(marks, false, 0)
  }

  /** The first line after the marker holding the end marker, or `|marks|`. */
  function SectionEnd(marks: seq<Mark>): nat
    requires SectionStart(marks) < |marks|
  {
    FirstMark(marks, true, SectionStart(marks) + 1)
  }

  /** The lines strictly between the first `cfg.fuse` marker and the first end marker after it. */
  function Section(lines: seq<string>): seq<string>
  {
    var marks := Marks(lines);
    if SectionStart(marks) == |lines| then [] else lines[SectionStart(marks) + 1..SectionEnd(marks)]
  }

  /** Every outcome's record in order, or the error of the first outcome that failed. */
  function GatherAll(rows: seq<Result<Fuse>>): Result<seq<Fuse>>
  {
    if rows == [] then Ok([])
    else
      match GatherAll(rows[..|rows| - 1])
      case Err(e) => Err(e)
      case Ok(items) =>
        match rows[|rows| - 1]
        case Err(e) => Err(e)
        case Ok(f) => Ok(items + [f])
  }

  /**
   * Gathering succeeds exactly when every outcome does, and then keeps each
   * record in place; otherwise it fails with the first failing outcome's error.
   */
  lemma {:induction false} GatherAllSpec(rows: seq<Result<Fuse>>)
    ensures var r := GatherAll(rows);
      && (r.Ok? <==> forall k :: 0 <= k < |rows| ==> rows[k].Ok?)
      && (r.Ok? ==> |r.value| == |rows| && forall k :: 0 <= k < |rows| ==> rows[k] == Ok(r.value[k]))
      && (r.Err? ==> exists k :: (0 <= k < |rows| && rows[k] == Err(r.fault) && forall j :: 0 <= j < k ==> rows[j].Ok?))
    decreases |rows|
  {
    if rows != [] {
      var n := |rows| - 1;
      var init := rows[..n];
      GatherAllSpec(init);
      assert forall k :: 0 <= k < n ==> init[k] == rows[k];
      var r0 := GatherAll(init);
      if r0.Err? {
        var k :| 0 <= k < n && init[k] == Err(r0.fault) && forall j :: 0 <= j < k ==> init[j].Ok?;
        assert rows[k] == Err(GatherAll(rows).fault);
      } else if rows[n].Err? {
        assert rows[n] == Err(GatherAll(rows).fault);
      }
    }
  }

  /** The records of a scan in the given state, or its error. */
  function Lift(state: ScanState, r: Result<seq<Fuse>>): Result<(ScanState, seq<Fuse>)>
  {
    match r
    case Err(e) => Err(e)
    case Ok(items) => Ok((state, items))
  }

  /** Where the scan stands after the lines, read off the positions of the two markers. */
  function ScanOutcome(marks: seq<Mark>, rows: seq<Result<Fuse>>): Result<(ScanState, seq<Fuse>)>
    requires |rows| == |marks|
  {
    if SectionStart(marks) == |marks| then Ok((Locating, []))
    else
      var m, e := SectionStart(marks), SectionEnd(marks);
      Lift(if e == |marks| then InCfg else Ended, GatherAll(rows[m + 1..e]))
  }

  /** The state machine is the direct reading of the marker positions. */
  lemma {:induction false} ScanIsOutcome(marks: seq<Mark>, rows: seq<Result<Fuse>>)
    requires |rows| == |marks|
    ensures Scan(marks, rows) == ScanOutcome(marks, rows)
    decreases |marks|
  {
    if marks != [] {
      var n := |marks| - 1;
      var init, x, ri := marks[..n], marks[n], rows[..n];
      ScanIsOutcome(init, ri);
      assert marks == init + [x];
      FirstMarkSnoc(init, x, false, 0);
      var m := SectionStart(init);
      if m < n {
        var e := SectionEnd(init);
        if e < n {
          ScanAfterEnd(marks, rows);
        } else if x.closes {
          ScanAtEnd(marks, rows);
        } else {
          ScanReadsLine(marks, rows);
        }
      } else if x.opens {
        assert SectionStart(marks) == n;
        FirstMarkIs(marks, true, n + 1, n + 1);
        assert rows[n + 1..n + 1] == [];
      }
    }
  }

  /** Where the markers stand once one more line is seen inside an open section. */
  lemma SectionSnoc(marks: seq<Mark>)
    requires |marks| > 0 && SectionStart(marks[..|marks| - 1]) < |marks| - 1
    ensures var init := marks[..|marks| - 1];
      SectionStart(marks) == SectionStart(init) &&
      SectionEnd(marks) == if SectionEnd(init) < |init| then SectionEnd(init)
        else if marks[|marks| - 1].closes then |init| else |init| + 1
  {
    var n := |marks| - 1;
    var init, x := marks[..n], marks[n];
    assert marks == init + [x];
    FirstMarkSnoc(init, x, false, 0);
    FirstMarkSnoc(init, x, true, SectionStart(init) + 1);
  }

  /** A line after the end marker changes nothing. */
  lemma {:induction false} ScanAfterEnd(marks: seq<Mark>, rows: seq<Result<Fuse>>)
    requires |rows| == |marks| > 0
    requires SectionStart(marks[..|marks| - 1]) < |marks| - 1
    requires Scan(marks[..|marks| - 1], rows[..|marks| - 1]) == ScanOutcome(marks[..|marks| - 1], rows[..|marks| - 1])
    requires SectionEnd(marks[..|marks| - 1]) < |marks| - 1
    ensures Scan(marks, rows) == ScanOutcome(marks, rows)
  {
    var n := |marks| - 1;
    SectionSnoc(marks);
    var m, e := SectionStart(marks[..n]), SectionEnd(marks[..n]);
    SlicePrefix(rows, m + 1, e, n);
  }

  /** The end marker ends the section. */
  lemma {:induction false} ScanAtEnd(marks: seq<Mark>, rows: seq<Result<Fuse>>)
    requires |rows| == |marks| > 0
    requires SectionStart(marks[..|marks| - 1]) < |marks| - 1
    requires Scan(marks[..|marks| - 1], rows[..|marks| - 1]) == ScanOutcome(marks[..|marks| - 1], rows[..|marks| - 1])
    requires SectionEnd(marks[..|marks| - 1]) == |marks| - 1 && marks[|marks| - 1].closes
    ensures Scan(marks, rows) == ScanOutcome(marks, rows)
  {
    var n := |marks| - 1;
    SectionSnoc(marks);
    var m := SectionStart(marks[..n]);
    SlicePrefix(rows, m + 1, n, n);
  }

  /** Any other line inside the section is read. */
  lemma {:induction false} ScanReadsLine(marks: seq<Mark>, rows: seq<Result<Fuse>>)
    requires |rows| == |marks| > 0
    requires SectionStart(marks[..|marks| - 1]) < |marks| - 1
    requires Scan(marks[..|marks| - 1], rows[..|marks| - 1]) == ScanOutcome(marks[..|marks| - 1], rows[..|marks| - 1])
    requires SectionEnd(marks[..|marks| - 1]) == |marks| - 1 && !marks[|marks| - 1].closes
    ensures Scan(marks, rows) == ScanOutcome(marks, rows)
  {
    var n := |marks| - 1;
    SectionSnoc(marks);
    var m := SectionStart(marks[..n]);
    SlicePrefix(rows, m + 1, n, n);
    SliceSnoc(rows, m + 1, n);
    GatherAllSnoc(rows[m + 1..n], rows[n]);
  }

  lemma SlicePrefix<T>(s: seq<T>, a: nat, c: nat, b: nat)
    requires a <= c <= b <= |s|
    ensures s[..b][a..c] == s[a..c]
  {
  }

  lemma SliceSnoc<T>(s: seq<T>, a: nat, b: nat)
    requires a <= b < |s|
    ensures s[a..b + 1] == s[a..b] + [s[b]]
    ensures s[..b][a..b] == s[a..b]
  {
  }

  lemma GatherAllSnoc(xs: seq<Result<Fuse>>, y: Result<Fuse>)
    ensures GatherAll(xs + [y]) ==
      match GatherAll(xs)
      case Err(e) => Err(e)
      case Ok(items) => (match y case Err(e) => Err(e) case Ok(f) => Ok(items + [f]))
  {
    assert (xs + [y])[..|xs|] == xs;
  }

  /** Every line of a section read in turn, or the first error. */
  function ParseSection(sec: seq<string>, prefix: string): Result<seq<Fuse>>
  {
    GatherAll(CfgRows(sec, prefix))
  }

  /**
   * A section reads into one record per line, each what its line yields,
   * or fails with the error of its first line that cannot be read.
   */
  lemma {:induction false} ParseSectionSpec(sec: seq<string>, prefix: string)
    ensures var r := ParseSection(sec, prefix);
      && (r.Ok? ==> |r.value| == |sec| && forall k :: 0 <= k < |sec| ==> CfgLine(sec[k], prefix) == Ok(r.value[k]))
      && (r.Err? ==> exists k :: (0 <= k < |sec| && CfgLine(sec[k], prefix) == Err(r.fault) &&
                                  forall j :: 0 <= j < k ==> CfgLine(sec[j], prefix).Ok?))
  {
    var rows := CfgRows(sec, prefix);
    var r := ParseSection(sec, prefix);
    GatherAllSpec(rows);
    if r.Err? {
      var k :| 0 <= k < |rows| && rows[k] == Err(r.fault) && forall j :: 0 <= j < k ==> rows[j].Ok?;
      assert CfgLine(sec[k], prefix) == Err(r.fault);
    }
  }

  /** Reading every line and then cutting out the section is reading the section. */
  lemma CfgRowsSlice(lines: seq<string>, prefix: string, a: nat, b: nat)
    requires a <= b <= |lines|
    ensures CfgRows(lines, prefix)[a..b] == CfgRows(lines[a..b], prefix)
  {
  }

  /**
   * `parse_cfg_out` reads exactly the lines strictly between the first
   * `cfg.fuse` marker and the first end marker after it, with the prefix
   * the file name selects; before the marker nothing is read.
   */
  lemma {:induction false} CfgOutSpec(lines: seq<string>, basename: string)
    ensures CfgOut(Some(lines), basename) == ParseSection(Section(lines), CfgPrefix(basename))
  {
    ScanSection(lines, CfgPrefix(basename));
  }

  /** The scan with any prefix reads the section with that prefix. */
  lemma ScanSection(lines: seq<string>, prefix: string)
    ensures ScanItems(lines, prefix) == ParseSection(Section(lines), prefix)
  {
    var marks := Marks(lines);
    var rows := CfgRows(lines, prefix);
    ScannedItems(marks, rows);
    var m := SectionStart(marks);
    if m < |lines| {
      var e := SectionEnd(marks);
      assert Section(lines) == lines[m + 1..e];
      CfgRowsSlice(lines, prefix, m + 1, e);
      assert ParseSection(Section(lines), prefix) == GatherAll(rows[m + 1..e]);
    } else {
      assert Section(lines) == [];
      assert CfgRows([], prefix) == [];
    }
  }

  /** The records of the scan: none before the marker, else those of the section. */
  lemma ScannedItems(marks: seq<Mark>, rows: seq<Result<Fuse>>)
    requires |rows| == |marks|
    ensures ItemsOf(Scan(marks, rows)) ==
      if SectionStart(marks) == |marks| then Ok([]) else GatherAll(rows[SectionStart(marks) + 1..SectionEnd(marks)])
  {
    ScanIsOutcome(marks, rows);
  }

  /** Every record read carries the selected prefix followed by its key in upper case. */
  lemma {:induction false} CfgOutNames(lines: seq<string>, basename: string)
    requires CfgOut(Some(lines), basename).Ok?
    ensures forall f :: f in CfgOut(Some(lines), basename).value ==>
      exists key :: f.name == CfgPrefix(basename) + Upper(key)
  {
    var prefix := CfgPrefix(basename);
    CfgOutSpec(lines, basename);
    var sec := Section(lines);
    ParseSectionSpec(sec, prefix);
    var items := CfgOut(Some(lines), basename).value;
    forall f | f in items ensures exists key :: f.name == prefix + Upper(key) {
      var k :| 0 <= k < |items| && items[k] == f;
      assert CfgLine(sec[k], prefix) == Ok(f);
      assert f.name == prefix + Upper(CfgParts(sec[k])[0]);
    }
  }

  /* ---------------------------------------------------------------- */
  /* parse_default_ovrd                                                */

  /** A line that carries an entry: not blank and not a `#` comment. */
  predicate EntryLine(line: string)
  {
    var t := Strip(line);
    |t| > 0 && t[0] != '#'
  }

  /** The stripped line split at its first two `=`; it has a second part exactly when the line has a `=`. */
  function OvrdParts(line: string): (parts: seq<string>)
    ensures |parts| >= 2 <==> '=' in Strip(line)
  {
    var t := Strip(line);
    FindCharIff(t, '=');
    SplitChar(t, '=', 2)
  }

  /**
   * One line of a default-override file: blank and comment lines are
   * skipped, and `name = value` becomes the fixed-up name and the value
   * `process_value` reads.  The name is read before the value; a line
   * without `=` makes the script index past the split.
   */
  function OvrdLine(line: string): (r: Result<Option<Fuse>>)
    ensures r == Ok(None) <==> !EntryLine(line)
    ensures EntryLine(line) && '=' !in Strip(line) ==> r == Err(IndexError)
    ensures r.Ok? && r.value.Some? ==>
      && '=' in Strip(line)
      && Ok(r.value.value.name) == FixupFuseName(Strip(OvrdParts(line)[0]))
      && Ok(r.value.value.value) == ProcessValue(Some(Strip(OvrdParts(line)[1])))
  {
    var t := Strip(line);
    if |t| == 0 || t[0] == '#' then Ok(None)
    else
      var parts := OvrdParts(line);
      if |parts| < 2 then Err(IndexError)
      else
        match FixupFuseName(Strip(parts[0]))
        case Err(e) => Err(e)
        case Ok(name) =>
          match ProcessValue(Some(Strip(parts[1])))
          case Err(e) => Err(e)
          case Ok(v) => Ok(Some(NamedValue(name, v)))
  }

  /** The outcome of every line of a default-override file. */
  function OvrdRows(lines: seq<string>): (rows: seq<Result<Option<Fuse>>>)
    ensures |rows| == |lines|
    ensures forall k :: 0 <= k < |lines| ==> rows[k] == OvrdLine(lines[k])
  {
    seq(|lines|, k requires 0 <= k < |lines| => OvrdLine(lines[k]))
  }

  /** `parse_default_ovrd(source_filename)` on the file's lines. */
  function DefaultOvrd(file: Option<seq<string>>): Result<seq<Fuse>>
  {
    match file
    case None => Ok([])
    case Some(lines) => Gather(OvrdRows(lines))
  }

  /** The body of the loop of `parse_default_ovrd` for one line. */
  method ReadOvrdLine(line: string) returns (r: Result<Option<Fuse>>)
    ensures r == OvrdLine(line)
  {
    var stripped := Strip(line);
    if |stripped| == 0 {
      return Ok(None);
    }
    if stripped[0] == '#' {
      return Ok(None);
    }
    var parts := SplitChar(stripped, '=', 2);
    if |parts| < 2 {
      return Err(IndexError);
    }
    var name := FixupFuseName(Strip(parts[0]));
    if name.Err? {
      return Err(name.fault);
    }
    var value := ProcessValue(Some(Strip(parts[1])));
    if value.Err? {
      return Err(value.fault);
    }
    r := Ok(Some(NamedValue(name.value, value.value)));
  }

  /** The loop of `parse_default_ovrd`. */
  method ParseDefaultOvrd(file: Option<seq<string>>) returns (r: Result<seq<Fuse>>)
    ensures r == DefaultOvrd(file)
  {
    if file.None? {
      return Ok([]);
    }
    var lines := file.value;
    ghost var rows := OvrdRows(lines);
    var items: seq<Fuse> := [];
    for i := 0 to |lines|
      invariant Gather(rows[..i]) == Ok(items)
    {
      var item := ReadOvrdLine(lines[i]);
      assert item == rows[i];
      GatherSnoc(rows, i);
      if item.Err? {
        GatherErr(rows, i + 1, item.fault);
        return Err(item.fault);
      }
      if item.value.Some? {
        items := items + [item.value.value];
      }
    }
    assert rows[..|lines|] == rows;
    r := Ok(items);
  }

  /** One more outcome is one more step of gathering. */
  lemma GatherSnoc(rows: seq<Result<Option<Fuse>>>, i: nat)
    requires i < |rows|
    ensures Gather(rows[..i + 1]) ==
      match Gather(rows[..i])
      case Err(e) => Err(e)
      case Ok(items) =>
        match rows[i]
        case Err(e) => Err(e)
        case Ok(None) => Ok(items)
        case Ok(Some(f)) => Ok(items + [f])
  {
    assert rows[..i + 1][..i] == rows[..i];
  }

  predicate HasRecord(row: Result<Option<Fuse>>)
  {
    row.Ok? && row.value.Some?
  }

  /** Gathering succeeds exactly when every outcome does, and then keeps one record per outcome that has one. */
  lemma {:induction false} GatherSpec(rows: seq<Result<Option<Fuse>>>)
    ensures Gather(rows).Ok? <==> forall k :: 0 <= k < |rows| ==> rows[k].Ok?
    ensures Gather(rows).Ok? ==>
      |Gather(rows).value| == Count(rows, HasRecord) && forall f :: f in Gather(rows).value ==> Ok(Some(f)) in rows
    decreases |rows|
  {
    if rows != [] {
      var n := |rows| - 1;
      var init := rows[..n];
      GatherSpec(init);
      assert rows == init + [rows[n]];
      CountSnoc(init, rows[n], HasRecord);
      assert forall k :: 0 <= k < n ==> init[k] == rows[k];
      assert forall y :: y in init ==> y in rows;
    }
  }

  /** An entry line yields a record with a clean name when it is read. */
  lemma OvrdEntry(line: string)
    requires OvrdLine(line).Ok?
    ensures HasRecord(OvrdLine(line)) <==> EntryLine(line)
    ensures EntryLine(line) ==> '=' in Strip(line)
    ensures HasRecord(OvrdLine(line)) ==> CleanName(OvrdLine(line).value.value.name)
  {
    if HasRecord(OvrdLine(line)) {
      FixupFuseNameClean(Strip(OvrdParts(line)[0]));
    }
  }

  /** When every line reads, the records are as many as the entry lines, and every entry line has an `=`. */
  lemma OvrdCount(lines: seq<string>)
    requires forall k :: 0 <= k < |lines| ==> OvrdRows(lines)[k].Ok?
    ensures Count(OvrdRows(lines), HasRecord) == Count(lines, EntryLine)
    ensures forall k :: 0 <= k < |lines| && EntryLine(lines[k]) ==> '=' in Strip(lines[k])
  {
    var rows := OvrdRows(lines);
    forall k | 0 <= k < |lines| ensures HasRecord(rows[k]) == EntryLine(lines[k]) && (EntryLine(lines[k]) ==> '=' in Strip(lines[k])) {
      OvrdEntry(lines[k]);
    }
    CountAlike(rows, lines, HasRecord, EntryLine);
  }

  /** Every record gathered from the lines has a clean name. */
  lemma OvrdClean(lines: seq<string>, items: seq<Fuse>)
    requires forall f :: f in items ==> Ok(Some(f)) in OvrdRows(lines)
    ensures forall f :: f in items ==> CleanName(f.name)
  {
    var rows := OvrdRows(lines);
    forall f | f in items ensures CleanName(f.name) {
      var k :| 0 <= k < |rows| && rows[k] == Ok(Some(f));
      OvrdEntry(lines[k]);
    }
  }

  /**
   * `parse_default_ovrd` succeeds only when every entry line has an `=`,
   * and then yields one record per entry line, each named by a clean
   * identifier as `fixupFuseName` leaves it.
   */
  lemma {:induction false} DefaultOvrdSpec(lines: seq<string>)
    ensures DefaultOvrd(Some(lines)).Ok? ==>
      && (forall k :: 0 <= k < |lines| && EntryLine(lines[k]) ==> '=' in Strip(lines[k]))
      && |DefaultOvrd(Some(lines)).value| == Count(lines, EntryLine)
      && forall f :: f in DefaultOvrd(Some(lines)).value ==> CleanName(f.name)
  {
    var rows := OvrdRows(lines);
    GatherSpec(rows);
    if Gather(rows).Ok? {
      OvrdCount(lines);
      OvrdClean(lines, Gather(rows).value);
    }
  }
}
