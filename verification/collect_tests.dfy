/**
 * `extract_result` and `collect_logs` of bin/collecttests.py (and the
 * identical `extract_result` of bin/collectdefaults.py): a test log's
 * result is read off the lines that follow its `### SUMMARY` line, and the
 * directory its files are copied to is named after the test, the branch,
 * the result and the log's time stamp.  The path separator and the time
 * stamp (`%m-%d-%H-%M` of the log's modification time) are parameters; the
 * tail of the file, the directory creation and the copying are not
 * modelled.
 */
module CollectTests {
  import opened PyStr
  import opened Tally

  /** The ranks of `TestResult`. */
  const ResultError := -1
  const ResultSuccess := 0
  const ResultFailure := 1
  const ResultTimeout := 2

  const SummaryMarker: string := "### SUMMARY"

  /** The text the loop keeps beside each rank. */
  function ResultText(result: int): (r: string)
  {
    if result == ResultTimeout then "TIMEOUT"
    else if result == ResultFailure then "FAILURE"
    else if result == ResultSuccess then "SUCCESS"
    else "ERROR"
  }

  /** A line that opens the summary section. */
  predicate IsMarker(line: string)
  {
    Contains(line, SummaryMarker)
  }

  /** The rank a line of the summary section stands for. */
  function Rank(line: string): int
  {
    var stripped := Strip(line);
    if StartsWith(stripped, "TIMEOUT: ") then ResultTimeout
    else if StartsWith(stripped, "FAILURE: ") then ResultFailure
    else ResultSuccess
  }

  function Max(a: int, b: int): (r: int)
  {
    if a < b then b else a
  }

  /** The loop's state: `cur_state == STATE_TESTS`, and `result`. */
  datatype Scan = Scan(inSummary: bool, result: int)

  /** The loop over `lines`, with `marker` opening the summary and `rank` ranking its lines. */
  function ScanLines(lines: seq<string>, marker: string -> bool, rank: string -> int): (r: Scan)
    decreases |lines|
  {
    if lines == [] then Scan(false, ResultError)
    else
      var s := ScanLines(lines[..|lines| - 1], marker, rank);
      var line := lines[|lines| - 1];
      if !s.inSummary then Scan(marker(line), s.result)
      else Scan(true, Max(s.result, rank(line)))
  }

  lemma ScanSnoc(lines: seq<string>, line: string, marker: string -> bool, rank: string -> int)
    ensures var s := ScanLines(lines, marker, rank);
      ScanLines(lines + [line], marker, rank) ==
        if !s.inSummary then Scan(marker(line), s.result) else Scan(true, Max(s.result, rank(line)))
  {
    assert (lines + [line])[..|lines|] == lines;
  }

  /* ---------------------------------------------------------------- */
  /* The result in closed form                                         */

  predicate HasMarker(lines: seq<string>, marker: string -> bool)
  {
    exists i :: 0 <= i < |lines| && marker(lines[i])
  }

  /** The lines after the first marker line; none when no line is a marker. */
  function AfterMarker(lines: seq<string>, marker: string -> bool): seq<string>
    decreases |lines|
  {
    if lines == [] then []
    else if marker(lines[0]) then lines[1..]
    else AfterMarker(lines[1..], marker)
  }

  /** The highest rank among `xs`, and `RESULT_ERROR` when there is none. */
  function Peak(xs: seq<string>, rank: string -> int): (r: int)
    decreases |xs|
  {
    if xs == [] then ResultError
    else Max(Peak(xs[..|xs| - 1], rank), rank(xs[|xs| - 1]))
  }

  /** The summary section is the text after the first marker line, and nothing before any marker. */
  lemma {:induction false} AfterMarkerSpec(lines: seq<string>, marker: string -> bool)
    ensures !HasMarker(lines, marker) ==> AfterMarker(lines, marker) == []
    ensures HasMarker(lines, marker) ==>
      exists k :: 0 <= k < |lines| && marker(lines[k]) &&
        (forall j :: 0 <= j < k ==> !marker(lines[j])) && AfterMarker(lines, marker) == lines[k + 1..]
    decreases |lines|
  {
    if lines != [] && !marker(lines[0]) {
      var rest := lines[1..];
      AfterMarkerSpec(rest, marker);
      if HasMarker(lines, marker) {
        var i :| 0 <= i < |lines| && marker(lines[i]);
        assert rest[i - 1] == lines[i];
        var k :| 0 <= k < |rest| && marker(rest[k]) &&
          (forall j :: 0 <= j < k ==> !marker(rest[j])) && AfterMarker(rest, marker) == rest[k + 1..];
        assert lines[k + 1] == rest[k];
        assert lines[k + 2..] == rest[k + 1..];
        forall j | 0 <= j < k + 1
          ensures !marker(lines[j])
        {
          if j > 0 {
            assert lines[j] == rest[j - 1];
          }
        }
      } else {
        forall i | 0 <= i < |rest|
          ensures !marker(rest[i])
        {
          assert rest[i] == lines[i + 1];
        }
      }
    } else if lines != [] {
      assert marker(lines[0]) && lines[1..] == lines[0 + 1..];
    }
  }

  /** One more line joins the summary section exactly when a marker came before it. */
  lemma {:induction false} AfterMarkerSnoc(lines: seq<string>, line: string, marker: string -> bool)
    ensures AfterMarker(lines + [line], marker) ==
      if HasMarker(lines, marker) then AfterMarker(lines, marker) + [line] else []
    decreases |lines|
  {
    var all := lines + [line];
    if lines == [] {
      assert !HasMarker(lines, marker);
      assert all == [line] && all[1..] == [];
    } else {
      var rest := lines[1..];
      assert all[1..] == rest + [line];
      assert all[0] == lines[0];
      if marker(lines[0]) {
        assert HasMarker(lines, marker);
      } else {
        AfterMarkerSnoc(rest, line, marker);
        if HasMarker(lines, marker) {
          var i :| 0 <= i < |lines| && marker(lines[i]);
          assert rest[i - 1] == lines[i];
        }
        if HasMarker(rest, marker) {
          var i :| 0 <= i < |rest| && marker(rest[i]);
          assert lines[i + 1] == rest[i];
        }
      }
    }
  }

  /** The loop's state in closed form: in the summary once a marker was seen, holding the peak rank of the summary's lines. */
  lemma {:induction false} ScanClosed(lines: seq<string>, marker: string -> bool, rank: string -> int)
    ensures ScanLines(lines, marker, rank) == Scan(HasMarker(lines, marker), Peak(AfterMarker(lines, marker), rank))
    decreases |lines|
  {
    if lines != [] {
      var init := lines[..|lines| - 1];
      var line := lines[|lines| - 1];
      assert lines == init + [line];
      ScanClosed(init, marker, rank);
      ScanSnoc(init, line, marker, rank);
      AfterMarkerSnoc(init, line, marker);
      var after := AfterMarker(init, marker);
      if HasMarker(init, marker) {
        var i :| 0 <= i < |init| && marker(init[i]);
        assert lines[i] == init[i];
        assert (after + [line])[..|after|] == after;
      } else {
        AfterMarkerSpec(init, marker);
        forall i | 0 <= i < |init|
          ensures !marker(lines[i])
        {
          assert lines[i] == init[i];
        }
        assert HasMarker(lines, marker) <==> marker(line);
      }
    }
  }

  /** The peak is `RESULT_ERROR` or the rank of one of the lines, and no line ranks higher. */
  lemma {:induction false} PeakSpec(xs: seq<string>, rank: string -> int)
    ensures Peak(xs, rank) >= ResultError
    ensures forall i :: 0 <= i < |xs| ==> rank(xs[i]) <= Peak(xs, rank)
    ensures Peak(xs, rank) == ResultError || exists i :: 0 <= i < |xs| && Peak(xs, rank) == rank(xs[i])
    decreases |xs|
  {
    if xs != [] {
      var init := xs[..|xs| - 1];
      PeakSpec(init, rank);
      forall i | 0 <= i < |xs| - 1
        ensures rank(xs[i]) <= Peak(xs, rank)
      {
        assert xs[i] == init[i];
      }
      if Peak(init, rank) != ResultError && Peak(xs, rank) == Peak(init, rank) {
        var i :| 0 <= i < |init| && Peak(init, rank) == rank(init[i]);
        assert xs[i] == init[i];
      }
    }
  }

  /** The result never goes down while the lines are read. */
  lemma {:induction false} ScanMonotone(lines: seq<string>, i: nat, j: nat, marker: string -> bool, rank: string -> int)
    requires i <= j <= |lines|
    ensures ScanLines(lines[..i], marker, rank).result <= ScanLines(lines[..j], marker, rank).result
    ensures ScanLines(lines[..i], marker, rank).inSummary ==> ScanLines(lines[..j], marker, rank).inSummary
    decreases j - i
  {
    if i < j {
      ScanMonotone(lines, i, j - 1, marker, rank);
      ScanSnoc(lines[..j - 1], lines[j - 1], marker, rank);
      assert lines[..j] == lines[..j - 1] + [lines[j - 1]];
    }
  }

  /** Every summary line that is neither a time-out nor a failure counts as a success. */
  lemma RankOther(line: string)
    ensures ResultSuccess <= Rank(line) <= ResultTimeout
    ensures Rank(line) == ResultTimeout <==> StartsWith(Strip(line), "TIMEOUT: ")
    ensures Rank(line) == ResultSuccess <==> !StartsWith(Strip(line), "TIMEOUT: ") && !StartsWith(Strip(line), "FAILURE: ")
  {
  }

  /* ---------------------------------------------------------------- */
  /* extract_result                                                    */

  /** The test's name: the text between `test<sep>` and `<sep>test.log`, separators turned into `-`. */
  function TestName(filename: string, sep: char): (r: string)
  {
    var testpos := Find(filename, "test" + [sep]);
    var logpos := Find(filename, [sep] + "test.log");
    ReplaceAll(Slice(filename, testpos + 5, logpos), [sep], "-")
  }

  /**
   * What `extract_result` returns: `(RESULT_ERROR, "")` when either path
   * marker is missing, and otherwise the peak rank of the summary section
   * with the directory name built from the test name, the branch, the
   * result's text and the time stamp.
   */
  function Extracted(filename: string, tailLines: seq<string>, branchname: string, sep: char, timestring: string): (r: (int, string))
  {
    if Find(filename, "test" + [sep]) == -1 || Find(filename, [sep] + "test.log") == -1 then (ResultError, "")
    else
      var result := ScanLines(tailLines, IsMarker, Rank).result;
      (result, TestName(filename, sep) + "-" + branchname + "-" + ResultText(result) + "-" + timestring)
  }

  /** The test of one line before the summary, `cur_line.find("### SUMMARY") == -1`. */
  method LineIsMarker(curLine: string) returns (found: bool)
    ensures found == IsMarker(curLine)
  {
    found := Find(curLine, SummaryMarker) != -1;
  }

  /** The classification of one summary line, raising `result` to its rank. */
  method Classify(curLine: string, result: int, resultText: string) returns (newResult: int, newText: string)
    requires resultText == ResultText(result)
    ensures newResult == Max(result, Rank(curLine))
    ensures newText == ResultText(newResult)
  {
    newResult, newText := result, resultText;
    var stripped := Strip(curLine);
    if StartsWith(stripped, "TIMEOUT: ") {
      if ResultTimeout > result {
        newResult, newText := ResultTimeout, "TIMEOUT";
      }
    } else if StartsWith(stripped, "FAILURE: ") {
      if ResultFailure > result {
        newResult, newText := ResultFailure, "FAILURE";
      }
    } else if ResultSuccess > result {
      newResult, newText := ResultSuccess, "SUCCESS";
    }
  }

  /** `extract_result`. */
  method ExtractResult(filename: string, tailLines: seq<string>, branchname: string, sep: char, timestring: string)
    returns (result: int, dirname: string)
    ensures (result, dirname) == Extracted(filename, tailLines, branchname, sep, timestring)
  {
    result := ResultError;
    var testname := "";
    dirname := "";
    var resultText := "ERROR";
    var testStr := "test" + [sep];
    var logStr := [sep] + "test.log";
    var testpos := Find(filename, testStr);
    if testpos == -1 {
      return;
    }
    var logpos := Find(filename, logStr);
    if logpos == -1 {
      return;
    }
    testname := Slice(filename, testpos + 5, logpos);
    testname := ReplaceAll(testname, [sep], "-");
    var inSummary := false;
    for i := 0 to |tailLines|
      invariant ScanLines(tailLines[..i], IsMarker, Rank) == Scan(inSummary, result)
      invariant resultText == ResultText(result)
    {
      var curLine := tailLines[i];
      ScanSnoc(tailLines[..i], curLine, IsMarker, Rank);
      assert tailLines[..i + 1] == tailLines[..i] + [curLine];
      if !inSummary {
        var found := LineIsMarker(curLine);
        if !found {
          continue;
        }
        inSummary := true;
      } else {
        result, resultText := Classify(curLine, result, resultText);
      }
    }
    assert tailLines[..|tailLines|] == tailLines;
    dirname := testname + "-" + branchname + "-" + resultText + "-" + timestring;
  }

  /**
   * When both path markers are present, the result is the highest rank of
   * the lines after the first `### SUMMARY` line, and `RESULT_ERROR` when
   * there is no such line.
   */
  lemma ExtractedResult(filename: string, tailLines: seq<string>, branchname: string, sep: char, timestring: string)
    requires Find(filename, "test" + [sep]) != -1 && Find(filename, [sep] + "test.log") != -1
    ensures var r := Extracted(filename, tailLines, branchname, sep, timestring);
      r.0 == Peak(AfterMarker(tailLines, IsMarker), Rank) &&
      r.1 == TestName(filename, sep) + "-" + branchname + "-" + ResultText(r.0) + "-" + timestring
  {
    ScanClosed(tailLines, IsMarker, Rank);
  }

  /** A log without a `### SUMMARY` line is an error, and its directory name says so. */
  lemma NoSummaryIsError(filename: string, tailLines: seq<string>, branchname: string, sep: char, timestring: string)
    requires !HasMarker(tailLines, IsMarker)
    ensures var r := Extracted(filename, tailLines, branchname, sep, timestring);
      r.0 == ResultError &&
      (r.1 == "" || r.1 == TestName(filename, sep) + "-" + branchname + "-ERROR-" + timestring)
  {
    ScanClosed(tailLines, IsMarker, Rank);
    AfterMarkerSpec(tailLines, IsMarker);
  }

  /** The peak of the summary section bounds every line after the first marker and is one of their ranks. */
  lemma PeakAfterFirst(lines: seq<string>, marker: string -> bool, rank: string -> int, k: nat)
    requires k < |lines| && marker(lines[k]) && forall j :: 0 <= j < k ==> !marker(lines[j])
    ensures var r := Peak(AfterMarker(lines, marker), rank);
      (forall i :: k < i < |lines| ==> rank(lines[i]) <= r) &&
      (r == ResultError || exists i :: k < i < |lines| && r == rank(lines[i]))
  {
    AfterMarkerSpec(lines, marker);
    var after := AfterMarker(lines, marker);
    var k' :| 0 <= k' < |lines| && marker(lines[k']) &&
      (forall j :: 0 <= j < k' ==> !marker(lines[j])) && after == lines[k' + 1..];
    assert k' == k;
    PeakSpec(after, rank);
    forall i | k < i < |lines|
      ensures rank(lines[i]) <= Peak(after, rank)
    {
      assert lines[i] == after[i - k - 1];
    }
    var r := Peak(after, rank);
    if r != ResultError {
      var i :| 0 <= i < |after| && r == rank(after[i]);
      assert after[i] == lines[i + k + 1];
    }
  }

  /**
   * After a `### SUMMARY` line, the result is at least that of every later
   * line, and at least `RESULT_SUCCESS` once there is one.
   */
  lemma SummaryRanks(filename: string, tailLines: seq<string>, branchname: string, sep: char, timestring: string, k: nat)
    requires Find(filename, "test" + [sep]) != -1 && Find(filename, [sep] + "test.log") != -1
    requires k < |tailLines| && IsMarker(tailLines[k]) && forall j :: 0 <= j < k ==> !IsMarker(tailLines[j])
    ensures var r := Extracted(filename, tailLines, branchname, sep, timestring).0;
      (k + 1 < |tailLines| ==> r >= ResultSuccess) &&
      (forall i :: k < i < |tailLines| ==> Rank(tailLines[i]) <= r) &&
      (r == ResultError || exists i :: k < i < |tailLines| && r == Rank(tailLines[i]))
  {
    ExtractedResult(filename, tailLines, branchname, sep, timestring);
    PeakAfterFirst(tailLines, IsMarker, Rank, k);
    if k + 1 < |tailLines| {
      RankOther(tailLines[k + 1]);
    }
  }

  /** The test's name holds no separator when the separator is not `-`. */
  lemma TestNameNoSep(filename: string, sep: char)
    requires sep != '-'
    ensures sep !in TestName(filename, sep)
  {
    var testpos := Find(filename, "test" + [sep]);
    var logpos := Find(filename, [sep] + "test.log");
    var t := Slice(filename, testpos + 5, logpos);
    ReplaceAllChar(t, sep, '-');
    assert [sep] + "test.log" == [sep] + "test.log";
    assert "-" == ['-'];
  }

  /* ---------------------------------------------------------------- */
  /* collect_logs                                                      */

  /** A log file as `collect_logs` sees it: its path, its last lines and its time stamp. */
  datatype LogFile = LogFile(path: string, tailLines: seq<string>, timestring: string)

  /** A log whose result is not `RESULT_ERROR`, and so is processed. */
  function Processed(branchname: string, sep: char): LogFile -> bool
  {
    (log: LogFile) => Extracted(log.path, log.tailLines, branchname, sep, log.timestring).0 != ResultError
  }

  /** One log of `collect_logs`: whether its result is other than `RESULT_ERROR`. */
  method ProcessLog(curfile: LogFile, branchname: string, sep: char) returns (processed: bool)
    ensures processed == Processed(branchname, sep)(curfile)
  {
    var curresult, testname := ExtractResult(curfile.path, curfile.tailLines, branchname, sep, curfile.timestring);
    processed := curresult != ResultError;
  }

  /** `collect_logs`: the number of logs whose result is not an error. */
  method CollectLogs(logs: seq<LogFile>, branchname: string, sep: char) returns (logsProcessed: nat)
    ensures logsProcessed == Count(logs, Processed(branchname, sep))
  {
    ghost var counted := Processed(branchname, sep);
    logsProcessed := 0;
    for i := 0 to |logs|
      invariant logsProcessed == Count(logs[..i], counted)
    {
      var processed := ProcessLog(logs[i], branchname, sep);
      CountStep(logs, i, counted);
      if processed {
        logsProcessed := logsProcessed + 1;
      }
    }
    assert logs[..|logs|] == logs;
  }

  /** A log is processed exactly when both path markers and a `### SUMMARY` line followed by another line are present. */
  lemma ProcessedIff(log: LogFile, branchname: string, sep: char)
    ensures Processed(branchname, sep)(log) <==>
      Find(log.path, "test" + [sep]) != -1 && Find(log.path, [sep] + "test.log") != -1 &&
      AfterMarker(log.tailLines, IsMarker) != []
  {
    if Find(log.path, "test" + [sep]) != -1 && Find(log.path, [sep] + "test.log") != -1 {
      var after := AfterMarker(log.tailLines, IsMarker);
      ExtractedResult(log.path, log.tailLines, branchname, sep, log.timestring);
      PeakSpec(after, Rank);
      if after != [] {
        RankOther(after[0]);
      }
    }
  }
}
