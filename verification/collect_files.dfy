/**
 * The plugin-report reading of bin/collectfiles.py: `process_line` cuts a
 * plugin name out of a report line, and `extract_plugin_names` walks the
 * report, collecting names from the 32-bit summary section, the 64-bit one,
 * or both, as the flags ask.
 */
module CollectFiles {
  import opened PyStr
  import opened Dedup

  const Summary32 := "Summary: Plugins Used In 32-bit Projects"
  const Summary64 := "Summary: Plugins Used In 64-bit Projects"
  const SummaryAll := "Summary: Plugins Used In all Projects"

  /** `process_line`: the text from two past the first ':' to one before the last '(', or "" without either. */
  function ProcessLine(line: string): (r: string)
    ensures Find(line, ":") == -1 || RFind(line, "(") == -1 ==> r == ""
    ensures |r| <= |line|
  {
    var colpos := Find(line, ":");
    if colpos == -1 then ""
    else
      var parpos := RFind(line, "(");
      if parpos == -1 then "" else Slice(line, colpos + 2, parpos - 1)
  }

  /** A report line `<pre>: <name> (<post>)` gives back `<name>`. */
  lemma ProcessLineOf(pre: string, name: string, post: string)
    requires ':' !in pre && '(' !in post
    ensures ProcessLine(pre + ": " + name + " (" + post) == name
  {
    var line := pre + ": " + name + " (" + post;
    var c := |pre|;
    var p := |pre| + 2 + |name| + 1;
    assert OccursAt(line, ":", c) by { assert line[c..c + 1] == ":"; }
    forall j | 0 <= j < c
      ensures !OccursAt(line, ":", j)
    {
      assert line[j] == pre[j];
    }
    assert Find(line, ":") == c;
    assert OccursAt(line, "(", p) by { assert line[p..p + 1] == "("; }
    forall j | p < j
      ensures !OccursAt(line, "(", j)
    {
      if j < |line| {
        assert line[j] == post[j - p - 1];
        assert line[j..j + 1] == [line[j]];
      }
    }
    assert RFind(line, "(") == p;
    assert line[c + 2..p - 1] == name;
  }

  /** Which summary headers a stripped report line starts with. */
  datatype Header = Header(is32: bool, is64: bool, isAll: bool)

  function HeaderOf(line: string): Header
  {
    Header(StartsWith(line, Summary32), StartsWith(line, Summary64), StartsWith(line, SummaryAll))
  }

  function Headers(lines: seq<string>): (r: seq<Header>)
    ensures |r| == |lines|
  {
    seq(|lines|, k requires 0 <= k < |lines| => HeaderOf(Strip(lines[k])))
  }

  function Items(lines: seq<string>): (r: seq<string>)
    ensures |r| == |lines|
  {
    seq(|lines|, k requires 0 <= k < |lines| => ProcessLine(Strip(lines[k])))
  }

  /** `cur_step`: before the first section, inside the 32-bit or the 64-bit section, or finished. */
  datatype Step = Init | In32 | In64 | Done

  const NonEmpty: string -> bool := s => |s| > 0

  /** The next step, and whether the line is one whose name is collected. */
  function Advance(step: Step, h: Header, get32: bool, get64: bool): (Step, bool)
  {
    match step
    case Init =>
      if (if get32 then h.is32 else h.is64) then (if get32 then In32 else In64, false) else (Init, false)
    case In32 =>
      if h.is64 then (if get64 then In64 else Done, false) else (In32, true)
    case In64 =>
      if h.isAll then (Done, false) else (In64, true)
    case Done => (Done, false)
  }

  /** The names after one line: the line's name is added when the step collects it. */
  function Collect(names: seq<string>, take: bool, item: string): seq<string>
  {
    if take then AddOne(names, item, NonEmpty) else names
  }

  /** The walk over the report lines from position `from` on, given the step and the names so far. */
  function Run(step: Step, names: seq<string>, hs: seq<Header>, items: seq<string>, from: nat, get32: bool, get64: bool): (Step, seq<string>)
    requires |hs| == |items| && from <= |hs|
    decreases |hs| - from
  {
    if from == |hs| then (step, names)
    else
      var a := Advance(step, hs[from], get32, get64);
      Run(a.0, Collect(names, a.1, items[from]), hs, items, from + 1, get32, get64)
  }

  /** What `extract_plugin_names(lines, get32bit, get64bit)` returns. */
  function PluginNames(lines: seq<string>, get32: bool, get64: bool): (r: seq<string>)
    ensures !get32 && !get64 ==> r == []
  {
    if !get32 && !get64 then [] else Run(Init, [], Headers(lines), Items(lines), 0, get32, get64).1
  }

  /** Once finished, nothing further is collected. */
  lemma {:induction false} DoneStays(names: seq<string>, hs: seq<Header>, items: seq<string>, from: nat, get32: bool, get64: bool)
    requires |hs| == |items| && from <= |hs|
    ensures Run(Done, names, hs, items, from, get32, get64) == (Done, names)
    decreases |hs| - from
  {
    if from < |hs| {
      DoneStays(names, hs, items, from + 1, get32, get64);
    }
  }

  /** The header kinds the walk waits for. */
  datatype Kind = Open32 | Open64 | OpenAll

  predicate Has(h: Header, kind: Kind)
  {
    match kind
    case Open32 => h.is32
    case Open64 => h.is64
    case OpenAll => h.isAll
  }

  /** The first position at or after `from` whose line starts with the header, or the end. */
  function First(hs: seq<Header>, from: nat, kind: Kind): (r: nat)
    requires from <= |hs|
    ensures from <= r <= |hs|
    ensures r < |hs| ==> Has(hs[r], kind)
    ensures forall k :: from <= k < r ==> !Has(hs[k], kind)
    decreases |hs| - from
  {
    if from == |hs| || Has(hs[from], kind) then from else First(hs, from + 1, kind)
  }

  /** Before the opening header nothing is collected; the walk opens at the first one. */
  lemma {:induction false} IdleUntil(names: seq<string>, hs: seq<Header>, items: seq<string>, from: nat, get32: bool, get64: bool)
    requires |hs| == |items| && from <= |hs|
    ensures var a := First(hs, from, if get32 then Open32 else Open64);
      Run(Init, names, hs, items, from, get32, get64)
      == if a == |hs| then (Init, names)
         else Run(if get32 then In32 else In64, names, hs, items, a + 1, get32, get64)
    decreases |hs| - from
  {
    if from < |hs| {
      if !(if get32 then hs[from].is32 else hs[from].is64) {
        IdleUntil(names, hs, items, from + 1, get32, get64);
      }
    }
  }

  /** Inside a section every line's name is collected until the closing header. */
  lemma {:induction false} CollectUntil(step: Step, names: seq<string>, hs: seq<Header>, items: seq<string>, from: nat, get32: bool, get64: bool)
    requires |hs| == |items| && from <= |hs|
    requires step == In32 || step == In64
    ensures var c := First(hs, from, if step == In32 then Open64 else OpenAll);
      var got := AddRange(names, items, from, c, NonEmpty);
      Run(step, names, hs, items, from, get32, get64)
      == if c == |hs| then (step, got)
         else Run(Advance(step, hs[c], get32, get64).0, got, hs, items, c + 1, get32, get64)
    decreases |hs| - from
  {
    if from < |hs| && !Has(hs[from], if step == In32 then Open64 else OpenAll) {
      CollectUntil(step, AddOne(names, items[from], NonEmpty), hs, items, from + 1, get32, get64);
    }
  }

  /** The report lines whose names are collected: the lines strictly inside the chosen sections. */
  function SectionItems(hs: seq<Header>, items: seq<string>, get32: bool, get64: bool): (r: seq<string>)
    requires |hs| == |items|
  {
    var a := First(hs, 0, if get32 then Open32 else Open64);
    if a == |hs| then []
    else if get32 then
      var b := First(hs, a + 1, Open64);
      if !get64 || b == |hs| then items[a + 1..b]
      else items[a + 1..b] + items[b + 1..First(hs, b + 1, OpenAll)]
    else items[a + 1..First(hs, a + 1, OpenAll)]
  }

  /** Walking the 64-bit section from its first line. */
  lemma Section64(names: seq<string>, hs: seq<Header>, items: seq<string>, from: nat, get32: bool, get64: bool)
    requires |hs| == |items| && from <= |hs|
    ensures Run(In64, names, hs, items, from, get32, get64).1
      == AddRange(names, items, from, First(hs, from, OpenAll), NonEmpty)
  {
    CollectUntil(In64, names, hs, items, from, get32, get64);
    var c := First(hs, from, OpenAll);
    if c < |hs| {
      DoneStays(AddRange(names, items, from, c, NonEmpty), hs, items, c + 1, get32, get64);
    }
  }

  /** Walking the 32-bit section from its first line, and then the 64-bit one when both are asked for. */
  lemma Section32(hs: seq<Header>, items: seq<string>, from: nat, get32: bool, get64: bool)
    requires |hs| == |items| && from <= |hs|
    ensures var b := First(hs, from, Open64);
      var got := AddRange([], items, from, b, NonEmpty);
      Run(In32, [], hs, items, from, get32, get64).1
      == if !get64 || b == |hs| then got else AddRange(got, items, b + 1, First(hs, b + 1, OpenAll), NonEmpty)
  {
    CollectUntil(In32, [], hs, items, from, get32, get64);
    var b := First(hs, from, Open64);
    var got := AddRange([], items, from, b, NonEmpty);
    if b < |hs| {
      if get64 {
        Section64(got, hs, items, b + 1, get32, true);
      } else {
        DoneStays(got, hs, items, b + 1, get32, false);
      }
    }
  }

  /** The names collected from two ranges are those of their lines, once each. */
  lemma TwoRanges(items: seq<string>, from: nat, b: nat, c: nat)
    requires from <= b < c <= |items|
    ensures AddRange(AddRange([], items, from, b, NonEmpty), items, b + 1, c, NonEmpty)
      == Distinct(items[from..b] + items[b + 1..c], NonEmpty)
  {
    RangeSection(items, from, b);
    AddRangeAll(AddRange([], items, from, b, NonEmpty), items, b + 1, c, NonEmpty);
    AddAllDistinct(items[from..b], items[b + 1..c], NonEmpty);
  }

  /** The names collected from one range are those of the range's lines, once each. */
  lemma RangeSection(items: seq<string>, from: nat, to: nat)
    requires from <= to <= |items|
    ensures AddRange([], items, from, to, NonEmpty) == Distinct(items[from..to], NonEmpty)
  {
    AddRangeAll([], items, from, to, NonEmpty);
    AddAllDistinct([], items[from..to], NonEmpty);
    assert [] + items[from..to] == items[from..to];
  }

  /** With the 32-bit flag, when the walk ends inside the 32-bit section or only it is asked for. */
  lemma RunSection32One(hs: seq<Header>, items: seq<string>, get64: bool, a: nat, b: nat)
    requires |hs| == |items| && a == First(hs, 0, Open32) < |hs| && b == First(hs, a + 1, Open64)
    requires !get64 || b == |hs|
    ensures Run(In32, [], hs, items, a + 1, true, get64).1 == Distinct(SectionItems(hs, items, true, get64), NonEmpty)
  {
    Section32(hs, items, a + 1, true, get64);
    RangeSection(items, a + 1, b);
    assert SectionItems(hs, items, true, get64) == items[a + 1..b];
  }

  /** With both flags, when the 32-bit section closes: the 32-bit section and then the 64-bit one. */
  lemma RunSection32Both(hs: seq<Header>, items: seq<string>, a: nat, b: nat)
    requires |hs| == |items| && a == First(hs, 0, Open32) < |hs| && b == First(hs, a + 1, Open64) < |hs|
    ensures Run(In32, [], hs, items, a + 1, true, true).1 == Distinct(SectionItems(hs, items, true, true), NonEmpty)
  {
    BothRun(hs, items, a + 1, b);
    BothNames(hs, items, a, b);
  }

  /** Walking the 32-bit section from `from` when it closes and the 64-bit one is asked for too. */
  lemma BothRun(hs: seq<Header>, items: seq<string>, from: nat, b: nat)
    requires |hs| == |items| && from <= |hs| && b == First(hs, from, Open64) < |hs|
    ensures Run(In32, [], hs, items, from, true, true).1
      == AddRange(AddRange([], items, from, b, NonEmpty), items, b + 1, First(hs, b + 1, OpenAll), NonEmpty)
  {
    var got := AddRange([], items, from, b, NonEmpty);
    assert Run(In32, [], hs, items, from, true, true) == Run(In64, got, hs, items, b + 1, true, true) by {
      CollectUntil(In32, [], hs, items, from, true, true);
      assert Advance(In32, hs[b], true, true).0 == In64;
    }
    Section64(got, hs, items, b + 1, true, true);
  }

  lemma BothNames(hs: seq<Header>, items: seq<string>, a: nat, b: nat)
    requires |hs| == |items| && a == First(hs, 0, Open32) < |hs| && b == First(hs, a + 1, Open64) < |hs|
    ensures AddRange(AddRange([], items, a + 1, b, NonEmpty), items, b + 1, First(hs, b + 1, OpenAll), NonEmpty)
      == Distinct(SectionItems(hs, items, true, true), NonEmpty)
  {
    TwoRanges(items, a + 1, b, First(hs, b + 1, OpenAll));
    SectionBoth(hs, items, a, b);
  }

  lemma SectionBoth(hs: seq<Header>, items: seq<string>, a: nat, b: nat)
    requires |hs| == |items| && a == First(hs, 0, Open32) < |hs| && b == First(hs, a + 1, Open64) < |hs|
    ensures SectionItems(hs, items, true, true) == items[a + 1..b] + items[b + 1..First(hs, b + 1, OpenAll)]
  {
  }

  /** With only the 64-bit flag: the 64-bit section. */
  lemma RunSection64(hs: seq<Header>, items: seq<string>, get64: bool, a: nat)
    requires |hs| == |items| && a == First(hs, 0, Open64) < |hs|
    ensures Run(In64, [], hs, items, a + 1, false, get64).1 == Distinct(SectionItems(hs, items, false, get64), NonEmpty)
  {
    var c := First(hs, a + 1, OpenAll);
    Section64([], hs, items, a + 1, false, get64);
    RangeSection(items, a + 1, c);
    assert SectionItems(hs, items, false, get64) == items[a + 1..c];
  }

  /** The walk collects, once each and in order, the non-empty names of the lines inside the chosen sections. */
  lemma RunSection(hs: seq<Header>, items: seq<string>, get32: bool, get64: bool)
    requires |hs| == |items|
    ensures Run(Init, [], hs, items, 0, get32, get64).1 == Distinct(SectionItems(hs, items, get32, get64), NonEmpty)
  {
    IdleUntil([], hs, items, 0, get32, get64);
    var a := First(hs, 0, if get32 then Open32 else Open64);
    if a == |hs| {
      assert SectionItems(hs, items, get32, get64) == [];
    } else if get32 {
      var b := First(hs, a + 1, Open64);
      if !get64 || b == |hs| {
        RunSection32One(hs, items, get64, a, b);
      } else {
        RunSection32Both(hs, items, a, b);
      }
    } else {
      RunSection64(hs, items, get64, a);
    }
  }

  /**
   * The names from `extract_plugin_names`: none without a flag; otherwise the
   * names of the lines inside the chosen sections, never empty, never twice,
   * and every non-empty name of such a line.
   */
  lemma PluginNamesSpec(lines: seq<string>, get32: bool, get64: bool)
    ensures get32 || get64 ==>
      PluginNames(lines, get32, get64) == Distinct(SectionItems(Headers(lines), Items(lines), get32, get64), NonEmpty)
    ensures NoRepeats(PluginNames(lines, get32, get64))
    ensures "" !in PluginNames(lines, get32, get64)
    ensures forall x :: (x in SectionItems(Headers(lines), Items(lines), get32, get64) && x != "" && (get32 || get64)
      ==> x in PluginNames(lines, get32, get64))
  {
    var hs, items := Headers(lines), Items(lines);
    var sec := SectionItems(hs, items, get32, get64);
    if get32 || get64 {
      assert PluginNames(lines, get32, get64) == Distinct(sec, NonEmpty) by {
        RunSection(hs, items, get32, get64);
      }
      DistinctSpec(sec, NonEmpty);
    }
  }

  /** The three header texts differ (at the position of "32", "64" and "all"). */
  lemma HeadersDiffer()
    ensures Summary32 != Summary64 && Summary32 != SummaryAll && Summary64 != SummaryAll
  {
    assert Summary32[25] == '3' && Summary64[25] == '6' && SummaryAll[25] == 'a';
  }

  /** One line of the walk. */
  lemma RunUnfold(step: Step, names: seq<string>, hs: seq<Header>, items: seq<string>, i: nat, get32: bool, get64: bool)
    requires |hs| == |items| && i < |hs|
    ensures var a := Advance(step, hs[i], get32, get64);
      Run(step, names, hs, items, i, get32, get64) == Run(a.0, Collect(names, a.1, items[i]), hs, items, i + 1, get32, get64)
  {
  }

  /** The `STEP_INIT` branch for one stripped line: enter the section the search string names. */
  method InitLine(curLine: string, searchString: string, endString: string, get32bit: bool, get64bit: bool)
      returns (step: Step, endString': string)
    requires get32bit || get64bit
    requires searchString == if get32bit then Summary32 else Summary64
    ensures step == Advance(Init, HeaderOf(curLine), get32bit, get64bit).0
    ensures step == Init || (step == In32 && get32bit && endString' == Summary64) || (step == In64 && endString' == SummaryAll)
  {
    HeadersDiffer();
    step, endString' := Init, endString;
    // the search string is always one of the two section headers
    if StartsWith(curLine, searchString) {
      if get32bit && searchString == Summary32 {
        step := In32;
        endString' := Summary64;
      } else if get64bit && searchString == Summary64 {
        step := In64;
        endString' := SummaryAll;
      }
    }
  }

  /** The `STEP_PROCESS_32_BIT` branch: move on at the 64-bit header, otherwise collect the line's name. */
  method In32Line(curLine: string, endString: string, names: seq<string>, get64bit: bool)
      returns (step: Step, endString': string, names': seq<string>)
    requires endString == Summary64
    ensures var a := Advance(In32, HeaderOf(curLine), true, get64bit);
      step == a.0 && names' == Collect(names, a.1, ProcessLine(curLine))
    ensures step == In32 || step == Done || (step == In64 && endString' == SummaryAll)
    ensures step == In32 ==> endString' == endString
  {
    step, endString', names' := In32, endString, names;
    if StartsWith(curLine, endString) {
      if get64bit {
        step := In64;
        endString' := SummaryAll;
        return;
      } else {
        step := Done;
        endString' := SummaryAll;
        return;
      }
    }
    var procline := ProcessLine(curLine);
    if |procline| > 0 {
      if procline !in names' {
        names' := names' + [procline];
      }
    }
  }

  /** The `STEP_PROCESS_64_BIT` branch: finish at the "all" header, otherwise collect the line's name. */
  method In64Line(curLine: string, endString: string, names: seq<string>, get32bit: bool, get64bit: bool)
      returns (step: Step, names': seq<string>)
    requires endString == SummaryAll
    ensures var a := Advance(In64, HeaderOf(curLine), get32bit, get64bit);
      step == a.0 && names' == Collect(names, a.1, ProcessLine(curLine))
    ensures step == In64 || step == Done
  {
    step, names' := In64, names;
    if StartsWith(curLine, endString) {
      step := Done;
      return;
    }
    var procline := ProcessLine(curLine);
    if |procline| > 0 {
      if procline !in names' {
        names' := names' + [procline];
      }
    }
  }

  /** One pass of the loop body: the branch of the current step; `stop` where the loop breaks. */
  method HandleLine(step: Step, curLine: string, searchString: string, endString: string, names: seq<string>,
                    get32bit: bool, get64bit: bool)
      returns (step': Step, endString': string, names': seq<string>, stop: bool)
    requires get32bit || get64bit
    requires searchString == if get32bit then Summary32 else Summary64
    requires step == In32 ==> endString == Summary64 && get32bit
    requires step == In64 ==> endString == SummaryAll
    ensures var a := Advance(step, HeaderOf(curLine), get32bit, get64bit);
      step' == a.0 && names' == Collect(names, a.1, ProcessLine(curLine))
    ensures stop ==> step' == Done
    ensures step' == In32 ==> endString' == Summary64 && get32bit
    ensures step' == In64 ==> endString' == SummaryAll
  {
    stop := false;
    names' := names;
    if step == Init {
      step', endString' := InitLine(curLine, searchString, endString, get32bit, get64bit);
    } else if step == In32 {
      step', endString', names' := In32Line(curLine, endString, names, get64bit);
    } else if step == In64 {
      step', names' := In64Line(curLine, endString, names, get32bit, get64bit);
      endString' := SummaryAll;
      stop := step' == Done;
    } else {
      step', endString' := Done, endString;
      stop := true;
    }
  }

  /** `extract_plugin_names`: the step machine over the stripped report lines. */
  method ExtractPluginNames(lines: seq<string>, get32bit: bool, get64bit: bool) returns (names: seq<string>)
    ensures names == PluginNames(lines, get32bit, get64bit)
  {
    names := [];
    var searchString := "";
    var endString := SummaryAll;
    if get64bit {
      searchString := Summary64;
    }
    if get32bit {
      searchString := Summary32;
    }
    if !get32bit && !get64bit {
      return;
    }
    ghost var hs := Headers(lines);
    ghost var items := Items(lines);
    var step := Init;
    for i := 0 to |lines|
      invariant searchString == if get32bit then Summary32 else Summary64
      invariant step == In32 ==> endString == Summary64 && get32bit
      invariant step == In64 ==> endString == SummaryAll
      invariant Run(Init, [], hs, items, 0, get32bit, get64bit) == Run(step, names, hs, items, i, get32bit, get64bit)
    {
      var curLine := Strip(lines[i]);
      assert hs[i] == HeaderOf(curLine) && items[i] == ProcessLine(curLine);
      RunUnfold(step, names, hs, items, i, get32bit, get64bit);
      var stop;
      step, endString, names, stop := HandleLine(step, curLine, searchString, endString, names, get32bit, get64bit);
      if stop {
        DoneStays(names, hs, items, i + 1, get32bit, get64bit);
        break;
      }
    }
  }
}
