/**
 * The counting loop of bin/loginstances.py: every line of a log that holds
 * the search string (case-insensitively on request) is counted under the
 * line itself, with newlines stripped from both ends.  Reading the file,
 * the exit codes and the report are not modelled.
 */
module LogInstances {
  import opened PyStr
  import opened Tally
  import opened Counter

  /** Whether a line is counted: `search_string` occurs in it, compared in lower case with `ignore_case`. */
  predicate Matches(line: string, search: string, ignoreCase: bool)
  {
    if ignoreCase then Contains(Lower(line), Lower(search)) else Contains(line, search)
  }

  function Matching(search: string, ignoreCase: bool): string -> bool
  {
    line => Matches(line, search, ignoreCase)
  }

  /** The key a counted line is filed under: `line.strip("\n")`. */
  function Key(line: string): string
  {
    StripChar(line, '\n')
  }

  /** The keys of the lines `counted` accepts, in file order. */
  function MatchedKeys(lines: seq<string>, counted: string -> bool): (r: seq<string>)
    ensures |r| == Count(lines, counted)
    decreases |lines|
  {
    if lines == [] then []
    else
      var init := lines[..|lines| - 1];
      var line := lines[|lines| - 1];
      assert lines == init + [line];
      CountSnoc(init, line, counted);
      MatchedKeys(init, counted) + (if counted(line) then [Key(line)] else [])
  }

  lemma MatchedKeysSnoc(lines: seq<string>, line: string, counted: string -> bool)
    ensures MatchedKeys(lines + [line], counted) ==
      MatchedKeys(lines, counted) + (if counted(line) then [Key(line)] else [])
  {
    assert (lines + [line])[..|lines|] == lines;
  }

  /** The test of one line, `fresult != -1`. */
  method LineMatches(curLine: string, search: string, ignoreCase: bool) returns (found: bool)
    ensures found == Matches(curLine, search, ignoreCase)
  {
    var fresult := -1;
    if ignoreCase {
      fresult := Find(Lower(curLine), Lower(search));
    } else {
      fresult := Find(curLine, search);
    }
    found := fresult != -1;
  }

  /** The loop over the lines, filling `found_items`. */
  method CountInstances(lines: seq<string>, search: string, ignoreCase: bool) returns (found: map<string, nat>)
    ensures found == Counts(MatchedKeys(lines, Matching(search, ignoreCase)))
  {
    ghost var counted := Matching(search, ignoreCase);
    found := map[];
    for i := 0 to |lines|
      invariant found == Counts(MatchedKeys(lines[..i], counted))
    {
      var curLine := lines[i];
      assert lines[..i + 1] == lines[..i] + [curLine];
      MatchedKeysSnoc(lines[..i], curLine, counted);
      var matches := LineMatches(curLine, search, ignoreCase);
      assert matches == counted(curLine);
      ghost var ks := MatchedKeys(lines[..i], counted);
      if matches {
        var newLine := Key(curLine);
        assert MatchedKeys(lines[..i + 1], counted) == ks + [newLine];
        CountsSnoc(ks, newLine);
        var curCount := if newLine in found then found[newLine] else 0;
        found := found[newLine := curCount + 1];
      } else {
        assert MatchedKeys(lines[..i + 1], counted) == ks;
      }
    }
    assert lines[..|lines|] == lines;
  }

  /** A line accepted by `counted` and filed under `k`. */
  function CountedAs(counted: string -> bool, k: string): string -> bool
  {
    line => counted(line) && Key(line) == k
  }

  /** How often a key occurs among the matched keys is the number of counted lines filed under it. */
  lemma {:induction false} MatchedOccurrences(lines: seq<string>, counted: string -> bool, k: string)
    ensures Occurrences(MatchedKeys(lines, counted), k) == Count(lines, CountedAs(counted, k))
    decreases |lines|
  {
    if lines != [] {
      var init := lines[..|lines| - 1];
      var line := lines[|lines| - 1];
      assert lines == init + [line];
      MatchedOccurrences(init, counted, k);
      CountSnoc(init, line, CountedAs(counted, k));
      var ks := MatchedKeys(init, counted);
      if counted(line) {
        CountSnoc(ks, Key(line), Equals(k));
      } else {
        assert MatchedKeys(lines, counted) == ks;
      }
    }
  }

  /** A key is a matched key exactly when some counted line is filed under it. */
  lemma {:induction false} MatchedKeysMembers(lines: seq<string>, counted: string -> bool, k: string)
    ensures k in MatchedKeys(lines, counted) <==>
      exists i :: 0 <= i < |lines| && counted(lines[i]) && Key(lines[i]) == k
    decreases |lines|
  {
    if lines != [] {
      var init := lines[..|lines| - 1];
      var line := lines[|lines| - 1];
      assert lines == init + [line];
      MatchedKeysMembers(init, counted, k);
      var ks := MatchedKeys(init, counted);
      assert MatchedKeys(lines, counted) == ks + (if counted(line) then [Key(line)] else []);
      if k in ks {
        var i :| 0 <= i < |init| && counted(init[i]) && Key(init[i]) == k;
        assert lines[i] == init[i];
      } else if counted(line) && Key(line) == k {
        assert lines[|init|] == line;
      } else {
        forall i | 0 <= i < |lines| && counted(lines[i])
          ensures Key(lines[i]) != k
        {
          if i < |init| {
            assert lines[i] == init[i];
          }
        }
      }
    }
  }

  /**
   * What `found_items` holds: a key for each distinct stripped matching
   * line, counting the matching lines filed under it; the counts add up to
   * the number of matching lines, so other lines contribute nothing.
   */
  lemma InstancesSpec(lines: seq<string>, search: string, ignoreCase: bool)
    ensures var found := Counts(MatchedKeys(lines, Matching(search, ignoreCase)));
      forall k :: k in found <==>
        exists i :: 0 <= i < |lines| && Matches(lines[i], search, ignoreCase) && Key(lines[i]) == k
    ensures var found := Counts(MatchedKeys(lines, Matching(search, ignoreCase)));
      forall k :: k in found ==> found[k] == Count(lines, CountedAs(Matching(search, ignoreCase), k))
    ensures var ks := MatchedKeys(lines, Matching(search, ignoreCase));
      Total(Counts(ks), Keys(ks)) == Count(lines, Matching(search, ignoreCase))
  {
    var counted := Matching(search, ignoreCase);
    var ks := MatchedKeys(lines, counted);
    forall k
      ensures k in Counts(ks) <==>
        exists i :: 0 <= i < |lines| && Matches(lines[i], search, ignoreCase) && Key(lines[i]) == k
    {
      MatchedKeysMembers(lines, counted, k);
    }
    CountsOccurrences(ks);
    forall k | k in Counts(ks)
      ensures Counts(ks)[k] == Count(lines, CountedAs(counted, k))
    {
      MatchedOccurrences(lines, counted, k);
    }
    CountsTotal(ks);
  }
}
