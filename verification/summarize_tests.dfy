/**
 * bin/summarizetests.py: the script results of a pretest log's summary
 * section sorted into time-outs, failures and successes, the fmod
 * configuration of each `run_target` line of the log, and the dictionaries
 * counting configurations, failed scripts and timed-out scripts over all
 * logs.  A log's last lines and all its lines are parameters; the path
 * separator is a parameter.  Elapsed times are kept as the text `float()`
 * would read.
 */
module SummarizeTests {
  import opened Wrappers
  import opened PyStr
  import opened Tally
  import opened Counter
  import opened CollectTests

  /** One script's result: `{"SCRIPT": ..., "TYPE": ..., "SECONDS": ...}`. */
  datatype ScriptResult = ScriptResult(script: string, kind: int, seconds: string)

  /** `TestResult` once filled in; `totalseconds` and `param_dicts` are not modelled. */
  datatype TestResult = TestResult(
    testname: string, filename: string,
    timeouts: seq<ScriptResult>, failures: seq<ScriptResult>, successes: seq<ScriptResult>,
    runTargets: seq<string>, fmodConfigs: seq<string>, paramTexts: seq<string>)

  const ElapsedMarker: string := " (elapsed: "
  const SecondsMarker: string := "s,"

  /** The first occurrence of `pat` in `s` splits it into text free of `pat`, `pat` and the rest. */
  lemma FirstOccurrence(s: string, pat: string)
    requires pat != "" && Contains(s, pat)
    ensures var k := Find(s, pat);
      0 <= k && k + |pat| <= |s| && s[..k + |pat|] == s[..k] + pat && !Contains(s[..k], pat)
  {
    var k := Find(s, pat);
    assert s[k..k + |pat|] == pat;
    assert s[..k + |pat|] == s[..k] + s[k..k + |pat|];
    forall j
      ensures !OccursAt(s[..k], pat, j)
    {
      if 0 <= j && j + |pat| <= k {
        assert s[..k][j..j + |pat|] == s[j..j + |pat|];
        assert j < k;
        assert !OccursAt(s, pat, j);
      }
    }
  }

  /**
   * A summary line's script result from the text after its status prefix:
   * nothing when it lacks ` (elapsed: ` or the text after that lacks `s,`;
   * otherwise the script is the text before the first ` (elapsed: ` and the
   * seconds the text between it and the first `s,` after it.
   */
  function Fields(rest: string, kind: int): (r: Option<ScriptResult>)
    ensures r.Some? <==> Contains(rest, ElapsedMarker) && Contains(rest[Find(rest, ElapsedMarker) + |ElapsedMarker|..], SecondsMarker)
    ensures r.Some? ==>
      r.value.kind == kind &&
      StartsWith(rest, r.value.script + ElapsedMarker) && !Contains(r.value.script, ElapsedMarker) &&
      StartsWith(rest[|r.value.script| + |ElapsedMarker|..], r.value.seconds + SecondsMarker) &&
      !Contains(r.value.seconds, SecondsMarker)
  {
    var elapsedPos := Find(rest, ElapsedMarker);
    if elapsedPos == -1 then None
    else
      var curTime := rest[elapsedPos + |ElapsedMarker|..];
      var dotPos := Find(curTime, SecondsMarker);
      if dotPos == -1 then None
      else
        FirstOccurrence(rest, ElapsedMarker);
        FirstOccurrence(curTime, SecondsMarker);
        Some(ScriptResult(rest[..elapsedPos], kind, curTime[..dotPos]))
  }

  /** What one summary line contributes: its kind by its status prefix, the rest from the text after the 9-character prefix. */
  function Entry(line: string): (r: Option<ScriptResult>)
  {
    Fields(SliceFrom(Strip(line), 9), Rank(line))
  }

  /* ---------------------------------------------------------------- */
  /* The loop of extract_results                                       */

  /** The loop's state: `cur_state == STATE_TESTS` and the three lists. */
  datatype Sorted = Sorted(inSummary: bool, timeouts: seq<ScriptResult>, failures: seq<ScriptResult>, successes: seq<ScriptResult>)

  /** Appending a script result to the list of its kind. */
  function Place(s: Sorted, e: ScriptResult): (r: Sorted)
  {
    if e.kind == ResultTimeout then s.(timeouts := s.timeouts + [e])
    else if e.kind == ResultFailure then s.(failures := s.failures + [e])
    else s.(successes := s.successes + [e])
  }

  /** The loop over `lines`, with `marker` opening the summary and `entry` reading its lines. */
  function SortLines(lines: seq<string>, marker: string -> bool, entry: string -> Option<ScriptResult>): (r: Sorted)
    decreases |lines|
  {
    if lines == [] then Sorted(false, [], [], [])
    else
      var s := SortLines(lines[..|lines| - 1], marker, entry);
      var line := lines[|lines| - 1];
      if !s.inSummary then s.(inSummary := marker(line))
      else match entry(line)
        case None => s
        case Some(e) => Place(s, e)
  }

  lemma SortSnoc(lines: seq<string>, line: string, marker: string -> bool, entry: string -> Option<ScriptResult>)
    ensures var s := SortLines(lines, marker, entry);
      SortLines(lines + [line], marker, entry) ==
        if !s.inSummary then s.(inSummary := marker(line))
        else match entry(line) case None => s case Some(e) => Place(s, e)
  {
    assert (lines + [line])[..|lines|] == lines;
  }

  /** The script results the lines `xs` contribute, in order. */
  function Collected(xs: seq<string>, entry: string -> Option<ScriptResult>): (r: seq<ScriptResult>)
    ensures |r| <= |xs|
    decreases |xs|
  {
    if xs == [] then []
    else
      var x := xs[|xs| - 1];
      Collected(xs[..|xs| - 1], entry) + (if entry(x).Some? then [entry(x).value] else [])
  }

  lemma CollectedSnoc(xs: seq<string>, x: string, entry: string -> Option<ScriptResult>)
    ensures Collected(xs + [x], entry) == Collected(xs, entry) + (if entry(x).Some? then [entry(x).value] else [])
  {
    assert (xs + [x])[..|xs|] == xs;
  }

  function OfKind(k: int): ScriptResult -> bool
  {
    (e: ScriptResult) => e.kind == k
  }

  function OtherKind(e: ScriptResult): bool
  {
    e.kind != ResultTimeout && e.kind != ResultFailure
  }

  /**
   * The three lists in closed form: the script results of the lines after
   * the first marker line, split by kind, each in the order of the lines.
   */
  predicate Closed(lines: seq<string>, marker: string -> bool, entry: string -> Option<ScriptResult>)
  {
    var s := SortLines(lines, marker, entry);
    var c := Collected(AfterMarker(lines, marker), entry);
    s.inSummary == HasMarker(lines, marker) &&
    s.timeouts == Filter(c, OfKind(ResultTimeout)) &&
    s.failures == Filter(c, OfKind(ResultFailure)) &&
    s.successes == Filter(c, OtherKind)
  }

  lemma {:induction false} SortClosed(lines: seq<string>, marker: string -> bool, entry: string -> Option<ScriptResult>)
    ensures var s := SortLines(lines, marker, entry);
      var c := Collected(AfterMarker(lines, marker), entry);
      s.inSummary == HasMarker(lines, marker) &&
      s.timeouts == Filter(c, OfKind(ResultTimeout)) &&
      s.failures == Filter(c, OfKind(ResultFailure)) &&
      s.successes == Filter(c, OtherKind)
    decreases |lines|
  {
    if lines != [] {
      var init := lines[..|lines| - 1];
      var line := lines[|lines| - 1];
      assert lines == init + [line];
      SortClosed(init, marker, entry);
      SortClosedStep(init, line, marker, entry);
    }
    assert Closed(lines, marker, entry);
  }

  /** One more line keeps the closed form. */
  lemma SortClosedStep(init: seq<string>, line: string, marker: string -> bool, entry: string -> Option<ScriptResult>)
    requires Closed(init, marker, entry)
    ensures Closed(init + [line], marker, entry)
  {
    var lines := init + [line];
    SortSnoc(init, line, marker, entry);
    AfterMarkerSnoc(init, line, marker);
    var after := AfterMarker(init, marker);
    if HasMarker(init, marker) {
      var i :| 0 <= i < |init| && marker(init[i]);
      assert lines[i] == init[i];
      CollectedSnoc(after, line, entry);
      var c := Collected(after, entry);
      if entry(line).Some? {
        var e := entry(line).value;
        CountSnoc(c, e, OfKind(ResultTimeout));
        CountSnoc(c, e, OfKind(ResultFailure));
        CountSnoc(c, e, OtherKind);
      } else {
        assert Collected(after + [line], entry) == c;
      }
    } else {
      AfterMarkerSpec(init, marker);
      forall i | 0 <= i < |init|
        ensures !marker(lines[i])
      {
        assert lines[i] == init[i];
      }
      assert HasMarker(lines, marker) <==> marker(line);
    }
  }

  /** The three kinds split the collected results: each goes to exactly one list. */
  lemma {:induction false} KindsPartition(c: seq<ScriptResult>)
    ensures |Filter(c, OfKind(ResultTimeout))| + |Filter(c, OfKind(ResultFailure))| + |Filter(c, OtherKind)| == |c|
    decreases |c|
  {
    if c != [] {
      var init := c[..|c| - 1];
      var e := c[|c| - 1];
      assert c == init + [e];
      KindsPartition(init);
      CountSnoc(init, e, OfKind(ResultTimeout));
      CountSnoc(init, e, OfKind(ResultFailure));
      CountSnoc(init, e, OtherKind);
    }
  }

  /* ---------------------------------------------------------------- */
  /* extract_results                                                   */

  /**
   * What `extract_results` returns: `None` when the file name lacks
   * `<sep>test<sep>` or `<sep>0<sep>test.log`, and otherwise the test named
   * by the text from just after the first separator of `<sep>test<sep>` up
   * to `<sep>0<sep>test.log`, with its summary lines sorted by kind.
   */
  function ExtractedResults(filename: string, tailLines: seq<string>, sep: char): Option<TestResult>
  {
    var testpos := Find(filename, [sep] + "test" + [sep]);
    var logpos := Find(filename, [sep] + "0" + [sep] + "test.log");
    if testpos == -1 || logpos == -1 then None
    else
      var s := SortLines(tailLines, IsMarker, Entry);
      Some(TestResult(Slice(filename, testpos + 1, logpos), filename, s.timeouts, s.failures, s.successes, [], [], []))
  }

  /** Lines 159-173: the script and seconds of one summary line, after its status prefix. */
  method FieldsOf(stripped: string, curResult: int) returns (e: Option<ScriptResult>)
    ensures e == Fields(stripped, curResult)
  {
    var elapsedPos := Find(stripped, ElapsedMarker);
    if elapsedPos == -1 {
      return None;
    }
    var script := stripped[..elapsedPos];
    var curTime := stripped[elapsedPos + |ElapsedMarker|..];
    var dotPos := Find(curTime, SecondsMarker);
    if dotPos == -1 {
      return None;
    }
    curTime := curTime[..dotPos];
    e := Some(ScriptResult(script, curResult, curTime));
  }

  /** Lines 148-173 for one summary line: its script result, or none when a marker is missing. */
  method LineEntry(curLine: string) returns (e: Option<ScriptResult>)
    ensures e == Entry(curLine)
  {
    var curResult := ResultSuccess;
    var stripped := Strip(curLine);
    if StartsWith(stripped, "TIMEOUT: ") {
      curResult := ResultTimeout;
      stripped := SliceFrom(stripped, |"TIMEOUT: "|);
    } else if StartsWith(stripped, "FAILURE: ") {
      curResult := ResultFailure;
      stripped := SliceFrom(stripped, |"FAILURE: "|);
    } else {
      stripped := SliceFrom(stripped, |"SUCCESS: "|);
    }
    e := FieldsOf(stripped, curResult);
  }

  /** `extract_results`. */
  method ExtractResults(filename: string, tailLines: seq<string>, sep: char) returns (result: Option<TestResult>)
    ensures result == ExtractedResults(filename, tailLines, sep)
  {
    var testStr := [sep] + "test" + [sep];
    var logStr := [sep] + "0" + [sep] + "test.log";
    var testpos := Find(filename, testStr);
    if testpos == -1 {
      return None;
    }
    var logpos := Find(filename, logStr);
    if logpos == -1 {
      return None;
    }
    var testname := Slice(filename, testpos + 1, logpos);
    var inSummary := false;
    var timeouts, failures, successes := [], [], [];
    for i := 0 to |tailLines|
      invariant SortLines(tailLines[..i], IsMarker, Entry) == Sorted(inSummary, timeouts, failures, successes)
    {
      var curLine := tailLines[i];
      SortSnoc(tailLines[..i], curLine, IsMarker, Entry);
      assert tailLines[..i + 1] == tailLines[..i] + [curLine];
      if !inSummary {
        var found := LineIsMarker(curLine);
        if !found {
          continue;
        }
        inSummary := true;
      } else {
        var e := LineEntry(curLine);
        if e.None? {
          continue;
        }
        var newResult := e.value;
        if newResult.kind == ResultTimeout {
          timeouts := timeouts + [newResult];
        } else if newResult.kind == ResultFailure {
          failures := failures + [newResult];
        } else {
          successes := successes + [newResult];
        }
      }
    }
    assert tailLines[..|tailLines|] == tailLines;
    result := Some(TestResult(testname, filename, timeouts, failures, successes, [], [], []));
  }

  /**
   * A found test's lists hold exactly the script results of the lines after
   * its first `### SUMMARY` line, each in the list of its kind, in the
   * order of the lines; lines without the elapsed markers are skipped.
   */
  lemma ExtractedLists(filename: string, tailLines: seq<string>, sep: char)
    requires ExtractedResults(filename, tailLines, sep).Some?
    ensures var r := ExtractedResults(filename, tailLines, sep).value;
      var c := Collected(AfterMarker(tailLines, IsMarker), Entry);
      r.timeouts == Filter(c, OfKind(ResultTimeout)) &&
      r.failures == Filter(c, OfKind(ResultFailure)) &&
      r.successes == Filter(c, OtherKind) &&
      |r.timeouts| + |r.failures| + |r.successes| == |c|
  {
    SortClosed(tailLines, IsMarker, Entry);
    KindsPartition(Collected(AfterMarker(tailLines, IsMarker), Entry));
  }

  /**
   * The test's name is the text from just after the first separator of
   * `<sep>test<sep>` up to `<sep>0<sep>test.log`, so it starts with
   * `test<sep>`; it is empty when the log part comes first.
   */
  lemma ExtractedName(filename: string, tailLines: seq<string>, sep: char)
    requires ExtractedResults(filename, tailLines, sep).Some?
    ensures var name := ExtractedResults(filename, tailLines, sep).value.testname;
      var testpos := Find(filename, [sep] + "test" + [sep]);
      var logpos := Find(filename, [sep] + "0" + [sep] + "test.log");
      testpos >= 0 && logpos >= 0 &&
      (testpos < logpos ==> name == filename[testpos + 1..logpos]) &&
      (logpos <= testpos ==> name == "") &&
      (testpos + 6 <= logpos ==> StartsWith(name, "test" + [sep]))
  {
    var testpos := Find(filename, [sep] + "test" + [sep]);
    var logpos := Find(filename, [sep] + "0" + [sep] + "test.log");
    if testpos + 6 <= logpos {
      var pat := [sep] + "test" + [sep];
      var name := filename[testpos + 1..logpos];
      assert ExtractedResults(filename, tailLines, sep).value.testname == name;
      assert filename[testpos..testpos + 6] == pat;
      assert pat[1..] == "test" + [sep];
      assert name[..5] == filename[testpos..testpos + 6][1..];
    }
  }

  /* ---------------------------------------------------------------- */
  /* get_params_and_fmods                                              */

  const RunTarget: string := "[sim info] run_target("
  const FmodKey: string := "'fmod': '"
  const ParamsKey: string := "preset_params "

  /** The fmod configuration of a `run_target` line: `(BMOD)` without an fmod entry, else its quoted value. */
  function Fmod(line: string): (r: string)
    ensures !Contains(line, FmodKey) ==> r == "(BMOD)"
    ensures Contains(line, FmodKey) ==>
      var start := Find(line, FmodKey) + |FmodKey|;
      start + |r| <= |line| && line[start..start + |r|] == r &&
      (start + |r| == |line| || line[start + |r|] == '\'')
    ensures '\'' !in r
  {
    var fpos := Find(line, FmodKey);
    if fpos == -1 then "(BMOD)"
    else
      var curFmod := line[fpos + |FmodKey|..];
      var delim := Find(curFmod, "'");
      if delim == -1 then
        FindCharIff(curFmod, '\'');
        curFmod
      else
        assert '\'' !in curFmod[..delim] by {
          forall j | 0 <= j < delim
            ensures curFmod[j] != '\''
          {
            assert !OccursAt(curFmod, "'", j);
            assert curFmod[j..j + 1] == [curFmod[j]];
          }
        }
        curFmod[..delim]
  }

  /** The parameter text of a `run_target` line, the input of `ast.literal_eval`; none without `preset_params `. */
  function ParamText(line: string): (r: Option<string>)
    ensures r.None? <==> !Contains(line, ParamsKey)
    ensures r.Some? ==> EndsWith(line, r.value) && |r.value| <= |line| - |ParamsKey|
  {
    var fpos := Find(line, ParamsKey);
    if fpos == -1 then None
    else Some(line[fpos + |ParamsKey|..])
  }

  /** `get_matching_lines`: the lines holding `start`, stripped, in file order. */
  function MatchingLines(fileLines: seq<string>, picked: string -> bool): (r: seq<string>)
    ensures |r| == Count(fileLines, picked)
    decreases |fileLines|
  {
    if fileLines == [] then []
    else
      var init := fileLines[..|fileLines| - 1];
      var line := fileLines[|fileLines| - 1];
      assert fileLines == init + [line];
      CountSnoc(init, line, picked);
      MatchingLines(init, picked) + (if picked(line) then [Strip(line)] else [])
  }

  function Holding(start: string): string -> bool
  {
    line => Contains(line, start)
  }

  /** The fmod configuration of each line, in order. */
  function Fmods(lines: seq<string>): (r: seq<string>)
    ensures |r| == |lines| && forall i :: 0 <= i < |lines| ==> r[i] == Fmod(lines[i])
    decreases |lines|
  {
    if lines == [] then []
    else Fmods(lines[..|lines| - 1]) + [Fmod(lines[|lines| - 1])]
  }

  lemma FmodsStep(lines: seq<string>, i: nat)
    requires i < |lines|
    ensures Fmods(lines[..i + 1]) == Fmods(lines[..i]) + [Fmod(lines[i])]
    ensures ParamTexts(lines[..i + 1]) == ParamTexts(lines[..i]) + (if ParamText(lines[i]).Some? then [ParamText(lines[i]).value] else [])
  {
    assert lines[..i + 1][..i] == lines[..i];
  }

  /** The parameter texts of the lines that have one, in order. */
  function ParamTexts(lines: seq<string>): (r: seq<string>)
    ensures |r| <= |lines|
    decreases |lines|
  {
    if lines == [] then []
    else
      var p := ParamText(lines[|lines| - 1]);
      ParamTexts(lines[..|lines| - 1]) + (if p.Some? then [p.value] else [])
  }

  /** What `get_params_and_fmods` returns: a pair when no line matched, a triple otherwise. */
  datatype Returned = Pair(lines: seq<string>, fmods: seq<string>) | Triple(lines: seq<string>, fmods: seq<string>, params: seq<string>)

  /** `get_params_and_fmods` as written: the early return gives only two values. */
  function ParamsAndFmodsAsWritten(fileLines: seq<string>): Returned
  {
    var lines := MatchingLines(fileLines, Holding(RunTarget));
    if |lines| == 0 then Pair(lines, [])
    else Triple(lines, Fmods(lines), ParamTexts(lines))
  }

  /** Line 211's unpacking into three names: a pair raises `ValueError`. */
  function Unpack3(r: Returned): (u: Result<(seq<string>, seq<string>, seq<string>)>)
    ensures u.Err? <==> r.Pair?
  {
    match r
    case Pair(_, _) => Err(ValueError)
    case Triple(a, b, c) => Ok((a, b, c))
  }

  /**
   * As written, a log whose results were found but that has no
   * `run_target` line stops `collect_logs` with `ValueError`.
   */
  lemma UnpackFailsWithoutRunTarget(fileLines: seq<string>)
    requires forall i :: 0 <= i < |fileLines| ==> !Contains(fileLines[i], RunTarget)
    ensures Unpack3(ParamsAndFmodsAsWritten(fileLines)) == Err(ValueError)
  {
    assert Count(fileLines, Holding(RunTarget)) == 0;
  }

  /** The evidently intended `get_params_and_fmods`: always the three lists, empty when nothing matched. */
  function ParamsAndFmods(fileLines: seq<string>): (r: (seq<string>, seq<string>, seq<string>))
    ensures |r.1| == |r.0| == Count(fileLines, Holding(RunTarget))
    ensures forall i :: 0 <= i < |r.0| ==> r.1[i] == Fmod(r.0[i])
    ensures |r.2| <= |r.0|
  {
    var lines := MatchingLines(fileLines, Holding(RunTarget));
    (lines, Fmods(lines), ParamTexts(lines))
  }

  /** Where the source does return three lists, the corrected function returns the same ones. */
  lemma ParamsAndFmodsAgree(fileLines: seq<string>)
    ensures ParamsAndFmodsAsWritten(fileLines).Triple? ==> Unpack3(ParamsAndFmodsAsWritten(fileLines)) == Ok(ParamsAndFmods(fileLines))
    ensures ParamsAndFmodsAsWritten(fileLines).Pair? ==> ParamsAndFmods(fileLines) == ([], [], [])
  {
  }

  /** `get_matching_lines` over the file's lines. */
  method GetMatchingLines(fileLines: seq<string>, startingString: string) returns (lines: seq<string>)
    ensures lines == MatchingLines(fileLines, Holding(startingString))
  {
    ghost var picked := Holding(startingString);
    lines := [];
    for i := 0 to |fileLines|
      invariant lines == MatchingLines(fileLines[..i], picked)
    {
      var curline := fileLines[i];
      assert fileLines[..i + 1] == fileLines[..i] + [curline];
      assert fileLines[..i + 1][..i] == fileLines[..i];
      if Find(curline, startingString) != -1 {
        lines := lines + [Strip(curline)];
      }
    }
    assert fileLines[..|fileLines|] == fileLines;
  }

  /** Lines 327-335 for one line: its fmod configuration. */
  method LineFmod(curLine: string) returns (curFmod: string)
    ensures curFmod == Fmod(curLine)
  {
    var fpos := Find(curLine, FmodKey);
    if fpos == -1 {
      return "(BMOD)";
    }
    curFmod := curLine[fpos + |FmodKey|..];
    var delim := Find(curFmod, "'");
    if delim != -1 {
      curFmod := curFmod[..delim];
    }
  }

  /** Lines 336-339 for one line: its parameter text, if it has one. */
  method LineParams(curLine: string) returns (paramLine: Option<string>)
    ensures paramLine == ParamText(curLine)
  {
    var fpos := Find(curLine, ParamsKey);
    if fpos == -1 {
      return None;
    }
    paramLine := Some(curLine[fpos + |ParamsKey|..]);
  }

  /** The loop of `get_params_and_fmods`, with the corrected return. */
  method GetParamsAndFmods(fileLines: seq<string>) returns (lines: seq<string>, fmods: seq<string>, params: seq<string>)
    ensures (lines, fmods, params) == ParamsAndFmods(fileLines)
  {
    fmods := [];
    lines := GetMatchingLines(fileLines, RunTarget);
    params := [];
    for i := 0 to |lines|
      invariant fmods == Fmods(lines[..i])
      invariant params == ParamTexts(lines[..i])
    {
      var curLine := lines[i];
      FmodsStep(lines, i);
      var curFmod := LineFmod(curLine);
      fmods := fmods + [curFmod];
      var paramLine := LineParams(curLine);
      if paramLine.Some? {
        params := params + [paramLine.value];
      }
    }
    assert lines[..|lines|] == lines;
  }

  /* ---------------------------------------------------------------- */
  /* collect_logs and the counting dictionaries of __main__            */

  /** A log as `collect_logs` sees it: its path, its last lines and all its lines. */
  datatype LogFile = LogFile(path: string, tailLines: seq<string>, fileLines: seq<string>)

  /** What one log contributes to `collect_logs`: its test result with its `run_target` lines filled in, if it has one. */
  function LogResult(log: LogFile, sep: char): Option<TestResult>
  {
    match ExtractedResults(log.path, log.tailLines, sep)
    case None => None
    case Some(t) =>
      var (a, b, c) := ParamsAndFmods(log.fileLines);
      Some(t.(runTargets := a, fmodConfigs := b, paramTexts := c))
  }

  /**
   * `collect_logs` with the corrected `get_params_and_fmods`: the results of
   * the logs that have one, in order, each with one fmod configuration per
   * `run_target` line.
   */
  function Results(logs: seq<LogFile>, sep: char): (r: seq<TestResult>)
    ensures |r| <= |logs|
    ensures forall i :: 0 <= i < |r| ==> |r[i].fmodConfigs| == |r[i].runTargets|
    ensures forall i, j :: 0 <= i < |r| && 0 <= j < |r[i].runTargets| ==> r[i].fmodConfigs[j] == Fmod(r[i].runTargets[j])
    decreases |logs|
  {
    if logs == [] then []
    else
      var prev := Results(logs[..|logs| - 1], sep);
      match LogResult(logs[|logs| - 1], sep)
      case None => prev
      case Some(t) => prev + [t]
  }

  lemma ResultsStep(logs: seq<LogFile>, i: nat, sep: char)
    requires i < |logs|
    ensures Results(logs[..i + 1], sep) == Results(logs[..i], sep) + (match LogResult(logs[i], sep) case None => [] case Some(t) => [t])
  {
    assert logs[..i + 1][..i] == logs[..i];
  }

  /** The body of `collect_logs`' loop for one log. */
  method CollectLog(curfile: LogFile, sep: char) returns (curresult: Option<TestResult>)
    ensures curresult == LogResult(curfile, sep)
  {
    curresult := ExtractResults(curfile.path, curfile.tailLines, sep);
    if curresult.Some? {
      var runTargets, fmodConfigs, paramTexts := GetParamsAndFmods(curfile.fileLines);
      curresult := Some(curresult.value.(runTargets := runTargets, fmodConfigs := fmodConfigs, paramTexts := paramTexts));
    }
  }

  /** Lines 198-212: the loop of `collect_logs`. */
  method CollectLogs(filelist: seq<LogFile>, sep: char) returns (results: seq<TestResult>)
    ensures results == Results(filelist, sep)
  {
    results := [];
    for i := 0 to |filelist|
      invariant results == Results(filelist[..i], sep)
    {
      ResultsStep(filelist, i, sep);
      var curresult := CollectLog(filelist[i], sep);
      if curresult.Some? {
        results := results + [curresult.value];
      }
    }
    assert filelist[..|filelist|] == filelist;
  }

  /** The sum of `len(field)` over the results, as lines 218-221 add it up. */
  function SumOf(results: seq<TestResult>, size: TestResult -> nat): nat
    decreases |results|
  {
    if results == [] then 0 else SumOf(results[..|results| - 1], size) + size(results[|results| - 1])
  }

  function Successes(r: TestResult): nat { |r.successes| }
  function Failures(r: TestResult): nat { |r.failures| }
  function Timeouts(r: TestResult): nat { |r.timeouts| }
  function Classified(r: TestResult): nat { |r.timeouts| + |r.failures| + |r.successes| }

  /** Lines 214-221: the three totals. */
  method Totals(results: seq<TestResult>) returns (totalSuccess: nat, totalFail: nat, totalTimeout: nat)
    ensures totalSuccess == SumOf(results, Successes)
    ensures totalFail == SumOf(results, Failures)
    ensures totalTimeout == SumOf(results, Timeouts)
    ensures totalSuccess + totalFail + totalTimeout == SumOf(results, Classified)
  {
    totalSuccess, totalFail, totalTimeout := 0, 0, 0;
    for i := 0 to |results|
      invariant totalSuccess == SumOf(results[..i], Successes)
      invariant totalFail == SumOf(results[..i], Failures)
      invariant totalTimeout == SumOf(results[..i], Timeouts)
      invariant totalSuccess + totalFail + totalTimeout == SumOf(results[..i], Classified)
    {
      var curResult := results[i];
      assert results[..i + 1][..i] == results[..i];
      totalSuccess := totalSuccess + |curResult.successes|;
      totalFail := totalFail + |curResult.failures|;
      totalTimeout := totalTimeout + |curResult.timeouts|;
    }
    assert results[..|results|] == results;
  }

  /** The keys one result adds to a dictionary, in the order of the loop. */
  function Configs(r: TestResult): seq<string> { r.fmodConfigs }

  function Scripts(es: seq<ScriptResult>): (r: seq<string>)
    ensures |r| == |es| && forall i :: 0 <= i < |es| ==> r[i] == es[i].script
  {
    seq(|es|, i requires 0 <= i < |es| => es[i].script)
  }

  function FailedScripts(r: TestResult): seq<string> { Scripts(r.failures) }
  function TimedOutScripts(r: TestResult): seq<string> { Scripts(r.timeouts) }

  /** The keys of all results, one result after the other. */
  function Flatten(results: seq<TestResult>, keys: TestResult -> seq<string>): seq<string>
    decreases |results|
  {
    if results == [] then [] else Flatten(results[..|results| - 1], keys) + keys(results[|results| - 1])
  }

  lemma FlattenStep(results: seq<TestResult>, i: nat, keys: TestResult -> seq<string>)
    requires i < |results|
    ensures Flatten(results[..i + 1], keys) == Flatten(results[..i], keys) + keys(results[i])
  {
    assert results[..i + 1][..i] == results[..i];
  }

  /** One inner loop of lines 407-427: each key counted into `d`. */
  method CountAll(d: map<string, nat>, ghost done: seq<string>, keys: seq<string>) returns (r: map<string, nat>)
    requires d == Counts(done)
    ensures r == Counts(done + keys)
  {
    r := d;
    AppendSlice(done, keys, 0);
    for j := 0 to |keys|
      invariant r == Counts(done + keys[..j])
    {
      var k := keys[j];
      var curCount := if k in r then r[k] else 0;
      CountsAppendStep(done, keys, j, r, curCount);
      r := r[k := curCount + 1];
    }
    AppendSlice(done, keys, |keys|);
  }

  /** Counting the next key of `keys` after `done` and its first `j` keys. */
  lemma CountsAppendStep(done: seq<string>, keys: seq<string>, j: nat, m: map<string, nat>, c: nat)
    requires j < |keys| && m == Counts(done + keys[..j])
    requires c == if keys[j] in m then m[keys[j]] else 0
    ensures Counts(done + keys[..j + 1]) == m[keys[j] := c + 1]
  {
    AppendSlice(done, keys, j + 1);
    CountsSnoc(done + keys[..j], keys[j]);
  }

  /** `a` followed by the first `j` elements of `b`, one element at a time. */
  lemma AppendSlice<T>(a: seq<T>, b: seq<T>, j: nat)
    requires j <= |b|
    ensures j == 0 ==> a + b[..j] == a
    ensures j > 0 ==> a + b[..j] == (a + b[..j - 1]) + [b[j - 1]]
    ensures j == |b| ==> a + b[..j] == a + b
  {
    if j > 0 {
      assert b[..j] == b[..j - 1] + [b[j - 1]];
    }
  }

  /** Lines 403-427: the configuration, failed-script and timed-out-script dictionaries. */
  method CountDicts(results: seq<TestResult>) returns (cfgDict: map<string, nat>, failDict: map<string, nat>, timeDict: map<string, nat>)
    ensures cfgDict == Counts(Flatten(results, Configs))
    ensures failDict == Counts(Flatten(results, FailedScripts))
    ensures timeDict == Counts(Flatten(results, TimedOutScripts))
  {
    cfgDict, failDict, timeDict := map[], map[], map[];
    for i := 0 to |results|
      invariant cfgDict == Counts(Flatten(results[..i], Configs))
      invariant failDict == Counts(Flatten(results[..i], FailedScripts))
      invariant timeDict == Counts(Flatten(results[..i], TimedOutScripts))
    {
      var curRes := results[i];
      FlattenStep(results, i, Configs);
      FlattenStep(results, i, FailedScripts);
      FlattenStep(results, i, TimedOutScripts);
      cfgDict := CountAll(cfgDict, Flatten(results[..i], Configs), curRes.fmodConfigs);
      failDict := CountAll(failDict, Flatten(results[..i], FailedScripts), Scripts(curRes.failures));
      timeDict := CountAll(timeDict, Flatten(results[..i], TimedOutScripts), Scripts(curRes.timeouts));
    }
    assert results[..|results|] == results;
  }

  /**
   * Each dictionary has a key for each configuration or script that occurs,
   * and its value is the number of its occurrences over all results.
   */
  lemma CountDictsSpec(results: seq<TestResult>, keys: TestResult -> seq<string>)
    ensures var all := Flatten(results, keys);
      forall k :: k in Counts(all) <==> k in all
    ensures var all := Flatten(results, keys);
      forall k :: k in Counts(all) ==> Counts(all)[k] == Occurrences(all, k) > 0
    ensures var all := Flatten(results, keys);
      Total(Counts(all), Keys(all)) == |all|
  {
    var all := Flatten(results, keys);
    CountsOccurrences(all);
    CountsTotal(all);
  }
}
