/**
 * bin/tags.py: the `tags:` line of a SUITEINFO file.  `get_tags` reads the
 * whitespace-separated tags of the first such line, sorted; `build_tagline`
 * writes a line back; the `add` and `remove` commands rewrite the first tag
 * line of every SUITEINFO file that lacks (has) a tag.  The file system is a
 * map from path to the file's lines, newlines included.
 */
module Tags {
  import opened PyStr
  import opened StrOrder
  import opened Dedup

  const TagsKey: string := "tags:"

  /** `is_tagline`. */
  predicate IsTagline(line: string)
  {
    StartsWith(line, TagsKey)
  }

  /** What `re.match(r"tags:(.*)", line)` captures: the rest of the line, up to a newline. */
  function TagText(line: string): string
    requires IsTagline(line)
  {
    var rest := line[|TagsKey|..];
    var nl := Find(rest, "\n");
    if nl == -1 then rest else rest[..nl]
  }

  /** The index of the first tag line, or -1. */
  function FirstTagline(lines: seq<string>): (r: int)
    ensures r == -1 ==> forall i :: 0 <= i < |lines| ==> !IsTagline(lines[i])
    ensures r != -1 ==> 0 <= r < |lines| && IsTagline(lines[r])
    ensures r != -1 ==> forall i :: 0 <= i < r ==> !IsTagline(lines[i])
  {
    if lines == [] then -1
    else if IsTagline(lines[0]) then 0
    else
      var r := FirstTagline(lines[1..]);
      assert forall i :: 1 <= i < |lines| ==> lines[i] == lines[1..][i - 1];
      if r == -1 then -1 else r + 1
  }

  /** The tags of one tag line: its text split on whitespace, sorted. */
  function LineTags(line: string): seq<string>
    requires IsTagline(line)
  {
    SortStrings(SplitWs(Strip(TagText(line))))
  }

  /** What `get_tags` returns for a file's lines: the tags of the first tag line, or none. */
  function TagsOf(lines: seq<string>): seq<string>
  {
    var k := FirstTagline(lines);
    if k == -1 then [] else LineTags(lines[k])
  }

  /** `get_tags` on the lines of a file (an unreadable file has no lines). */
  method GetTags(lines: seq<string>) returns (tags: seq<string>)
    ensures tags == TagsOf(lines)
  {
    tags := [];
    for x := 0 to |lines|
      invariant forall m :: 0 <= m < x ==> !IsTagline(lines[m])
      invariant tags == []
    {
      var line := lines[x];
      if StartsWith(line, TagsKey) {
        FirstTaglineAt(lines, x);
        tags := SplitWs(Strip(TagText(line)));
        assert SortStrings(tags) == TagsOf(lines);
        break;
      }
    }
    tags := SortStrings(tags);
  }

  /** A tag line with none before it is the first. */
  lemma FirstTaglineAt(lines: seq<string>, x: int)
    requires 0 <= x < |lines| && IsTagline(lines[x])
    requires forall m :: 0 <= m < x ==> !IsTagline(lines[m])
    ensures FirstTagline(lines) == x
  {
  }

  /** A tag as `split()` yields it: non-empty, without whitespace. */
  predicate Word(t: string)
  {
    |t| > 0 && forall j :: 0 <= j < |t| ==> !IsSpace(t[j])
  }

  predicate Words(tags: seq<string>)
  {
    forall i :: 0 <= i < |tags| ==> Word(tags[i])
  }

  /** The tags read from a file are sorted words. */
  lemma TagsOfWords(lines: seq<string>)
    ensures Ordered(TagsOf(lines)) && Words(TagsOf(lines))
  {
    var k := FirstTagline(lines);
    if k != -1 {
      var split := SplitWs(Strip(TagText(lines[k])));
      var r := SortStrings(split);
      forall i | 0 <= i < |r|
        ensures Word(r[i])
      {
        assert r[i] in multiset(r);
        assert r[i] in multiset(split);
      }
    }
  }

  /** `contains_tag`. */
  method ContainsTag(tags: seq<string>, wantedTag: string) returns (found: bool)
    ensures found <==> wantedTag in tags
  {
    for i := 0 to |tags|
      invariant wantedTag !in tags[..i]
    {
      assert tags[..i + 1] == tags[..i] + [tags[i]];
      if tags[i] == wantedTag {
        return true;
      }
    }
    assert tags[..|tags|] == tags;
    return false;
  }

  /*
   * get_files_by_tag
   */

  /** `get_tags` of a path: a file that cannot be opened has no tags. */
  function FileTags(files: map<string, seq<string>>, path: string): seq<string>
  {
    if path in files then TagsOf(files[path]) else []
  }

  /** Whether the tags of each listed file hold the tag. */
  function Hits(files: map<string, seq<string>>, filelist: seq<string>, wantedTag: string): (r: seq<bool>)
    ensures |r| == |filelist|
  {
    seq(|filelist|, k requires 0 <= k < |filelist| => wantedTag in FileTags(files, filelist[k]))
  }

  /** The first `n` listed paths whose mark is `keep`, in order. */
  function Select<T>(list: seq<T>, marks: seq<bool>, n: nat, keep: bool): (r: seq<T>)
    requires n <= |list| && |marks| == |list|
    ensures |r| <= n
  {
    if n == 0 then [] else Select(list, marks, n - 1, keep) + (if marks[n - 1] == keep then [list[n - 1]] else [])
  }

  /** The listed files whose tags hold the tag (`returnContaining`) or lack it, in list order. */
  function FilesByTag(files: map<string, seq<string>>, filelist: seq<string>, wantedTag: string,
                      returnContaining: bool): (r: seq<string>)
  {
    Select(filelist, Hits(files, filelist, wantedTag), |filelist|, returnContaining)
  }

  /** `get_files_by_tag`. */
  method GetFilesByTag(files: map<string, seq<string>>, filelist: seq<string>, wantedTag: string,
                       returnContaining: bool) returns (returnList: seq<string>)
    ensures returnList == FilesByTag(files, filelist, wantedTag, returnContaining)
  {
    ghost var hits := Hits(files, filelist, wantedTag);
    returnList := [];
    for i := 0 to |filelist|
      invariant returnList == Select(filelist, hits, i, returnContaining)
    {
      var curfile := filelist[i];
      var lines := if curfile in files then files[curfile] else [];
      var curtags := GetTags(lines);
      var found := ContainsTag(curtags, wantedTag);
      assert found == hits[i];
      if found == returnContaining {
        returnList := returnList + [curfile];
      }
    }
  }

  lemma {:induction false} SelectMembers(list: seq<string>, marks: seq<bool>, n: nat, keep: bool)
    requires n <= |list| && |marks| == |list|
    ensures forall p :: p in Select(list, marks, n, keep) <==> exists i :: 0 <= i < n && list[i] == p && marks[i] == keep
  {
    if n > 0 {
      SelectMembers(list, marks, n - 1, keep);
    }
  }

  /** A file is returned exactly when it is listed and its tags hold the tag as asked. */
  lemma FilesByTagMembers(files: map<string, seq<string>>, filelist: seq<string>,
                          wantedTag: string, returnContaining: bool)
    ensures forall p :: p in FilesByTag(files, filelist, wantedTag, returnContaining) <==>
      p in filelist && (wantedTag in FileTags(files, p)) == returnContaining
  {
    var hits := Hits(files, filelist, wantedTag);
    SelectMembers(filelist, hits, |filelist|, returnContaining);
    forall p | p in filelist && (wantedTag in FileTags(files, p)) == returnContaining
      ensures p in FilesByTag(files, filelist, wantedTag, returnContaining)
    {
      var i :| 0 <= i < |filelist| && filelist[i] == p;
      assert hits[i] == returnContaining;
    }
  }

  lemma SelectPartition<T>(list: seq<T>, marks: seq<bool>, n: nat)
    requires n <= |list| && |marks| == |list|
    ensures Partitioned(list, marks, n)
  {
    PartitionedEmpty(list, marks);
    for i := 0 to n
      invariant Partitioned(list, marks, i)
    {
      PartitionSnoc(list, marks, i + 1);
    }
  }

  /** The first `n` listed items are split between those marked and those not. */
  ghost predicate Partitioned<T>(list: seq<T>, marks: seq<bool>, n: nat)
    requires n <= |list| && |marks| == |list|
  {
    multiset(Select(list, marks, n, true)) + multiset(Select(list, marks, n, false)) == multiset(list[..n])
  }

  lemma PartitionedEmpty<T>(list: seq<T>, marks: seq<bool>)
    requires |marks| == |list|
    ensures Partitioned(list, marks, 0)
  {
    assert list[..0] == [];
  }

  lemma PartitionSnoc<T>(list: seq<T>, marks: seq<bool>, n: nat)
    requires 0 < n <= |list| && |marks| == |list|
    requires Partitioned(list, marks, n - 1)
    ensures Partitioned(list, marks, n)
  {
    PrefixBag(list, n);
    SelectBag(list, marks, n, true);
    SelectBag(list, marks, n, false);
    BagAdd(multiset(Select(list, marks, n - 1, true)), multiset(Select(list, marks, n - 1, false)),
           multiset(list[..n - 1]), list[n - 1]);
  }

  lemma BagAdd<T>(a: multiset<T>, b: multiset<T>, c: multiset<T>, x: T)
    requires a + b == c
    ensures (a + multiset{x}) + (b + multiset{}) == c + multiset{x}
    ensures (a + multiset{}) + (b + multiset{x}) == c + multiset{x}
  {
  }

  lemma PrefixBag<T>(list: seq<T>, n: nat)
    requires 0 < n <= |list|
    ensures multiset(list[..n]) == multiset(list[..n - 1]) + multiset{list[n - 1]}
  {
    assert list[..n] == list[..n - 1] + [list[n - 1]];
  }

  lemma SelectBag<T>(list: seq<T>, marks: seq<bool>, n: nat, keep: bool)
    requires 0 < n <= |list| && |marks| == |list|
    ensures multiset(Select(list, marks, n, keep)) ==
      multiset(Select(list, marks, n - 1, keep)) + (if marks[n - 1] == keep then multiset{list[n - 1]} else multiset{})
  {
  }

  /** The files with the tag and the files without it split the list between them. */
  lemma FilesByTagPartition(files: map<string, seq<string>>, filelist: seq<string>, wantedTag: string)
    ensures multiset(FilesByTag(files, filelist, wantedTag, true)) + multiset(FilesByTag(files, filelist, wantedTag, false))
      == multiset(filelist)
  {
    SelectPartition(filelist, Hits(files, filelist, wantedTag), |filelist|);
    assert filelist[..|filelist|] == filelist;
  }

  lemma {:induction false} SelectDistinct(list: seq<string>, marks: seq<bool>, n: nat, keep: bool)
    requires n <= |list| && |marks| == |list| && NoRepeats(list)
    ensures NoRepeats(Select(list, marks, n, keep))
  {
    if n > 0 {
      SelectDistinct(list, marks, n - 1, keep);
      SelectMembers(list, marks, n - 1, keep);
      assert list[n - 1] !in Select(list, marks, n - 1, keep);
    }
  }

  /** A list without repeats gives results without repeats. */
  lemma FilesByTagDistinct(files: map<string, seq<string>>, filelist: seq<string>,
                           wantedTag: string, returnContaining: bool)
    requires NoRepeats(filelist)
    ensures NoRepeats(FilesByTag(files, filelist, wantedTag, returnContaining))
  {
    SelectDistinct(filelist, Hits(files, filelist, wantedTag), |filelist|, returnContaining);
  }

  /*
   * build_tagline
   */

  /** Each tag preceded by a space, in order. */
  function Spaced(tags: seq<string>): string
  {
    if tags == [] then "" else Spaced(tags[..|tags| - 1]) + " " + tags[|tags| - 1]
  }

  /** The line `build_tagline` returns. */
  function TagLine(tags: seq<string>): string
  {
    TagsKey + Spaced(tags) + "\n"
  }

  /** `build_tagline`. */
  method BuildTagline(tags: seq<string>) returns (tagline: string)
    ensures tagline == TagLine(tags)
  {
    tagline := TagsKey;
    for i := 0 to |tags|
      invariant tagline == TagsKey + Spaced(tags[..i])
    {
      assert tags[..i + 1][..i] == tags[..i];
      tagline := tagline + " ";
      tagline := tagline + tags[i];
    }
    assert tags[..|tags|] == tags;
    tagline := tagline + "\n";
  }

  lemma {:induction false} SpacedCons(t: string, ts: seq<string>)
    ensures Spaced([t] + ts) == " " + t + Spaced(ts)
    decreases |ts|
  {
    if ts != [] {
      var init := ts[..|ts| - 1];
      assert ([t] + ts)[..|ts|] == [t] + init;
      SpacedCons(t, init);
    } else {
      assert [t] + ts == [t];
    }
  }

  /** Spaced words hold no newline and end with the last word's last character. */
  lemma {:induction false} SpacedShape(tags: seq<string>)
    requires Words(tags)
    ensures '\n' !in Spaced(tags)
    ensures tags != [] ==> Spaced(tags) != "" && !IsSpace(Spaced(tags)[|Spaced(tags)| - 1])
    decreases |tags|
  {
    if tags != [] {
      SpacedShape(tags[..|tags| - 1]);
      assert IsSpace('\n');
    }
  }

  lemma SplitWsSpace(x: string)
    ensures SplitWs(" " + x) == SplitWs(x)
  {
    assert (" " + x)[1..] == x;
    assert LStripWith(" " + x, IsSpace) == LStripWith(x, IsSpace);
  }

  /** Splitting a word followed by whitespace-led text peels off the word. */
  lemma SplitWsWord(t: string, rest: string)
    requires Word(t) && (rest == "" || IsSpace(rest[0]))
    ensures SplitWs(t + rest) == [t] + SplitWs(rest)
  {
    var s := t + rest;
    assert s[0] == t[0];
    assert LStripWith(s, IsSpace) == s;
    assert forall j :: 0 <= j < |t| ==> s[j] == t[j];
    assert rest != "" ==> s[|t|] == rest[0];
    var k := FirstSpace(s, 0);
    assert k == |t|;
    assert s[..k] == t && s[k..] == rest;
  }

  /** Spaced words: a space, the first word, and the spaced rest, which is empty or starts with a space. */
  lemma SpacedFront(tags: seq<string>)
    requires tags != []
    ensures Spaced(tags) == " " + (tags[0] + Spaced(tags[1..]))
    ensures Spaced(tags[1..]) == "" || Spaced(tags[1..])[0] == ' '
  {
    var ts := tags[1..];
    assert tags == [tags[0]] + ts;
    SpacedCons(tags[0], ts);
    if ts != [] {
      SpacedCons(ts[0], ts[1..]);
      assert ts == [ts[0]] + ts[1..];
    }
  }

  /** Splitting spaced words peels off the first word. */
  lemma SplitWsSpacedStep(tags: seq<string>)
    requires tags != [] && Word(tags[0])
    ensures SplitWs(Spaced(tags)) == [tags[0]] + SplitWs(Spaced(tags[1..]))
  {
    var ts := tags[1..];
    SpacedFront(tags);
    SplitWsSpace(tags[0] + Spaced(ts));
    assert IsSpace(' ');
    SplitWsWord(tags[0], Spaced(ts));
  }

  /** `split()` of spaced words gives the words back. */
  lemma {:induction false} SplitWsSpaced(tags: seq<string>)
    requires Words(tags)
    ensures SplitWs(Spaced(tags)) == tags
    decreases |tags|
  {
    if tags != [] {
      var ts := tags[1..];
      assert tags == [tags[0]] + ts;
      assert Word(tags[0]);
      SplitWsSpacedStep(tags);
      assert Words(ts);
      SplitWsSpaced(ts);
    }
  }

  /** Stripping spaced words before splitting changes nothing. */
  lemma StripSpaced(tags: seq<string>)
    requires Words(tags)
    ensures SplitWs(Strip(Spaced(tags))) == tags
  {
    SplitWsSpaced(tags);
    if tags != [] {
      SpacedFront(tags);
      var x := tags[0] + Spaced(tags[1..]);
      SpacedShape(tags);
      assert x[|x| - 1] == Spaced(tags)[|Spaced(tags)| - 1];
      assert Word(tags[0]);
      StripAfterSpace(x);
      SplitWsSpace(x);
    }
  }

  /** Stripping a space and text with no whitespace at either end leaves the text. */
  lemma StripAfterSpace(x: string)
    requires x != "" && !IsSpace(x[0]) && !IsSpace(x[|x| - 1])
    ensures Strip(" " + x) == x
  {
    LStripRun(" ", x, IsSpace);
    RStripRun(x, "", IsSpace);
    assert x + "" == x;
  }

  /** A built line is a tag line whose captured text is the spaced tags. */
  lemma TagTextOfLine(tags: seq<string>)
    requires Words(tags)
    ensures IsTagline(TagLine(tags)) && TagText(TagLine(tags)) == Spaced(tags)
  {
    var line := TagLine(tags);
    assert line[..|TagsKey|] == TagsKey;
    assert line[|TagsKey|..] == Spaced(tags) + ['\n'] + "";
    SpacedShape(tags);
    FindCharFirst(Spaced(tags), '\n', "");
  }

  /** Reading back a line built from sorted words gives those words. */
  lemma TaglineRoundTrip(tags: seq<string>)
    requires Words(tags) && Ordered(tags)
    ensures IsTagline(TagLine(tags)) && LineTags(TagLine(tags)) == tags
  {
    TagTextOfLine(tags);
    StripSpaced(tags);
    OrderedUnique(SortStrings(tags), tags);
  }

  /*
   * add and remove
   */

  /** `contents` with its first tag line replaced, and nothing else. */
  function ReplaceTagline(contents: seq<string>, tagline: string): seq<string>
  {
    var k := FirstTagline(contents);
    if k == -1 then contents else contents[k := tagline]
  }

  /** The loop that overwrites the first tag line of the loaded contents. */
  method ReplaceFirstTagline(contents: seq<string>, tagline: string) returns (updated: seq<string>)
    ensures updated == ReplaceTagline(contents, tagline)
  {
    updated := contents;
    for x := 0 to |updated|
      invariant updated == contents
      invariant forall m :: 0 <= m < x ==> !IsTagline(contents[m])
    {
      if StartsWith(updated[x], TagsKey) {
        updated := updated[x := tagline];
        break;
      }
    }
  }

  /** Replacing keeps the other lines; the new line becomes the first tag line. */
  lemma ReplaceTaglineSpec(contents: seq<string>, tagline: string)
    requires IsTagline(tagline)
    ensures var r := ReplaceTagline(contents, tagline);
      var k := FirstTagline(contents);
      |r| == |contents| &&
      (forall i :: 0 <= i < |r| && i != k ==> r[i] == contents[i]) &&
      (k == -1 ==> r == contents) &&
      (k != -1 ==> FirstTagline(r) == k && r[k] == tagline)
  {
  }

  /** Python's `list.remove(x)`: the first `x` dropped. */
  function RemoveFirst(s: seq<string>, x: string): (r: seq<string>)
    ensures x in s ==> multiset(r) == multiset(s) - multiset{x}
    ensures x !in s ==> r == s
  {
    if s == [] then []
    else if s[0] == x then
      assert s == [s[0]] + s[1..];
      s[1..]
    else
      assert s == [s[0]] + s[1..];
      [s[0]] + RemoveFirst(s[1..], x)
  }

  /** The tags after `add` (`append`) or `remove`, sorted as the new tag line writes them. */
  function NewTags(tags: seq<string>, tag: string, add: bool): seq<string>
  {
    SortStrings(if add then tags + [tag] else RemoveFirst(tags, tag))
  }

  /** The new contents of one file: its first tag line rebuilt from the new tags. */
  function Updated(contents: seq<string>, tag: string, add: bool): seq<string>
  {
    ReplaceTagline(contents, TagLine(NewTags(TagsOf(contents), tag, add)))
  }

  /**
   * Re-reading an updated file gives the new tags: the old ones plus the tag
   * (`add`) or less one copy of it (`remove`).  A file without a tag line is
   * left as it is.
   */
  lemma UpdatedTags(contents: seq<string>, tag: string, add: bool)
    requires add ==> Word(tag)
    ensures FirstTagline(contents) == -1 ==> Updated(contents, tag, add) == contents
    ensures FirstTagline(contents) != -1 ==> TagsOf(Updated(contents, tag, add)) == NewTags(TagsOf(contents), tag, add)
    ensures FirstTagline(contents) != -1 && add ==> tag in TagsOf(Updated(contents, tag, add))
    ensures FirstTagline(contents) != -1 && !add && tag in TagsOf(contents) ==>
      multiset(TagsOf(Updated(contents, tag, add))) == multiset(TagsOf(contents)) - multiset{tag}
  {
    var before := TagsOf(contents);
    var changed := if add then before + [tag] else RemoveFirst(before, tag);
    var after := NewTags(before, tag, add);
    TagsOfWords(contents);
    assert Words(changed) by {
      forall i | 0 <= i < |changed|
        ensures Word(changed[i])
      {
        assert changed[i] in multiset(changed);
        if !add {
          assert changed[i] in multiset(before);
        }
      }
    }
    assert Words(after) by {
      forall i | 0 <= i < |after|
        ensures Word(after[i])
      {
        assert after[i] in multiset(after);
        assert after[i] in multiset(changed);
      }
    }
    TaglineRoundTrip(after);
    ReplaceTaglineSpec(contents, TagLine(after));
    if add {
      assert tag in multiset(changed);
      assert tag in multiset(after);
    }
  }

  /** The shared state of the `add`/`remove` loop: the files, `updatedfiles` and `errors`. */
  datatype State = State(files: map<string, seq<string>>, updatedfiles: nat, errors: nat)

  /** The rewrite the command applies to a file's contents. */
  function Rewrite(tag: string, add: bool): seq<string> -> seq<string>
  {
    contents => Updated(contents, tag, add)
  }

  /**
   * One pass of the loop for `curfile`, and whether it met an empty file:
   * a file that cannot be copied counts as an error; otherwise the `~`
   * backup is written and, for a non-empty file, the file is rewritten.
   */
  function Step(st: State, curfile: string, update: seq<string> -> seq<string>): (State, bool)
  {
    if curfile !in st.files then (st.(errors := st.errors + 1), false)
    else
      var contents := st.files[curfile];
      var backedUp := st.files[curfile + "~" := contents];
      if contents == [] then (st.(files := backedUp), true)
      else (State(backedUp[curfile := update(contents)], st.updatedfiles + 1, st.errors), false)
  }

  /** The loop from position `i` on; `stopOnEmpty` is the `break` at an empty file. */
  function Apply(st: State, list: seq<string>, i: nat, update: seq<string> -> seq<string>, stopOnEmpty: bool): State
    decreases |list| - i
  {
    if i >= |list| then st
    else
      var (next, empty) := Step(st, list[i], update);
      if empty && stopOnEmpty then next else Apply(next, list, i + 1, update, stopOnEmpty)
  }

  /** One pass of the loop body. */
  method UpdateOneFile(files: map<string, seq<string>>, updatedfiles: nat, errors: nat, curfile: string,
                       tag: string, add: bool)
      returns (files': map<string, seq<string>>, updatedfiles': nat, errors': nat, empty: bool)
    ensures (State(files', updatedfiles', errors'), empty) == Step(State(files, updatedfiles, errors), curfile, Rewrite(tag, add))
  {
    files', updatedfiles', errors', empty := files, updatedfiles, errors, false;
    var lines := if curfile in files then files[curfile] else [];
    var tags := GetTags(lines);
    if add {
      tags := tags + [tag];
    } else {
      tags := RemoveFirst(tags, tag);
    }
    var tagline := BuildTagline(SortStrings(tags));
    assert tagline == TagLine(NewTags(TagsOf(lines), tag, add));
    if curfile !in files {
      errors' := errors + 1;
      return;
    }
    files' := files[curfile + "~" := files[curfile]];
    var contents := files[curfile];
    if |contents| == 0 {
      empty := true;
      return;
    }
    var replaced := ReplaceFirstTagline(contents, tagline);
    assert replaced == Rewrite(tag, add)(contents);
    files' := files'[curfile := replaced];
    updatedfiles' := updatedfiles + 1;
  }

  /**
   * The `add` (or `remove`) command as written: over the listed files that
   * lack (hold) the tag, it stops at the first empty file.
   */
  method TagCommandAsWritten(files: map<string, seq<string>>, filelist: seq<string>, tag: string, add: bool)
      returns (files': map<string, seq<string>>, updatedfiles: nat, errors: nat)
    ensures State(files', updatedfiles, errors) == Apply(State(files, 0, 0), FilesByTag(files, filelist, tag, !add), 0, Rewrite(tag, add), true)
  {
    var resultlist := GetFilesByTag(files, filelist, tag, !add);
    files', updatedfiles, errors := files, 0, 0;
    for i := 0 to |resultlist|
      invariant Apply(State(files, 0, 0), resultlist, 0, Rewrite(tag, add), true) == Apply(State(files', updatedfiles, errors), resultlist, i, Rewrite(tag, add), true)
    {
      var empty;
      files', updatedfiles, errors, empty := UpdateOneFile(files', updatedfiles, errors, resultlist[i], tag, add);
      if empty {
        break;
      }
    }
  }

  /** The `add` (or `remove`) command with an empty file skipped, as its warning says. */
  method TagCommand(files: map<string, seq<string>>, filelist: seq<string>, tag: string, add: bool)
      returns (files': map<string, seq<string>>, updatedfiles: nat, errors: nat)
    ensures State(files', updatedfiles, errors) == Apply(State(files, 0, 0), FilesByTag(files, filelist, tag, !add), 0, Rewrite(tag, add), false)
  {
    var resultlist := GetFilesByTag(files, filelist, tag, !add);
    files', updatedfiles, errors := files, 0, 0;
    for i := 0 to |resultlist|
      invariant Apply(State(files, 0, 0), resultlist, 0, Rewrite(tag, add), false) == Apply(State(files', updatedfiles, errors), resultlist, i, Rewrite(tag, add), false)
    {
      var empty;
      files', updatedfiles, errors, empty := UpdateOneFile(files', updatedfiles, errors, resultlist[i], tag, add);
    }
  }

  /** As written, an empty file ends the loop: no later listed file is backed up or rewritten. */
  lemma EmptyFileStops(st: State, list: seq<string>, i: nat, update: seq<string> -> seq<string>)
    requires i < |list| && list[i] in st.files && st.files[list[i]] == []
    ensures Apply(st, list, i, update, true) == st.(files := st.files[list[i] + "~" := []])
  {
  }

  /** No path is the backup name of another listed path. */
  predicate NoBackups(list: seq<string>)
  {
    forall a, b :: a in list && b in list ==> a + "~" != b
  }

  /** Paths the loop does not reach from `i` on, and that are no backup of them, keep their contents. */
  lemma {:induction false} ApplyUntouched(st: State, list: seq<string>, i: nat, p: string, update: seq<string> -> seq<string>, stopOnEmpty: bool)
    requires forall j :: i <= j < |list| ==> list[j] != p && list[j] + "~" != p
    ensures var r := Apply(st, list, i, update, stopOnEmpty);
      (p in r.files <==> p in st.files) && (p in st.files ==> r.files[p] == st.files[p])
    decreases |list| - i
  {
    if i < |list| {
      var (next, empty) := Step(st, list[i], update);
      if !(empty && stopOnEmpty) {
        ApplyUntouched(next, list, i + 1, p, update, stopOnEmpty);
      }
    }
  }

  /** With the skip, every listed non-empty file ends up updated from the contents it had. */
  lemma {:induction false} ApplyVisits(st: State, list: seq<string>, i: nat, k: nat, update: seq<string> -> seq<string>)
    requires NoRepeats(list) && NoBackups(list)
    requires i <= k < |list| && list[k] in st.files && st.files[list[k]] != []
    ensures var r := Apply(st, list, i, update, false);
      list[k] in r.files && r.files[list[k]] == update(st.files[list[k]])
    decreases |list| - i
  {
    var p := list[k];
    var (next, empty) := Step(st, list[i], update);
    if i < k {
      assert list[i] != p && list[i] in list && p in list;
      ApplyVisits(next, list, i + 1, k, update);
    } else {
      forall j | i + 1 <= j < |list|
        ensures list[j] != p && list[j] + "~" != p
      {
        assert list[j] in list && p in list;
      }
      ApplyUntouched(next, list, i + 1, p, update, false);
    }
  }

  /**
   * With the skip, every listed file that lacks the tag (for `add`) or holds
   * it (for `remove`) and has lines is rewritten from its old contents, so
   * re-reading its tags gives `UpdatedTags`; the paths must be distinct and
   * none the backup name of another, as the SUITEINFO paths a glob returns are.
   */
  lemma TagCommandUpdatesAll(files: map<string, seq<string>>, filelist: seq<string>, tag: string, add: bool, p: string)
    requires NoRepeats(filelist) && NoBackups(filelist)
    requires p in filelist && p in files && files[p] != []
    requires (tag in TagsOf(files[p])) != add
    ensures var r := Apply(State(files, 0, 0), FilesByTag(files, filelist, tag, !add), 0, Rewrite(tag, add), false);
      p in r.files && r.files[p] == Updated(files[p], tag, add)
  {
    var list := FilesByTag(files, filelist, tag, !add);
    FilesByTagMembers(files, filelist, tag, !add);
    FilesByTagDistinct(files, filelist, tag, !add);
    assert p in list;
    var k :| 0 <= k < |list| && list[k] == p;
    ApplyVisits(State(files, 0, 0), list, 0, k, Rewrite(tag, add));
  }
}
