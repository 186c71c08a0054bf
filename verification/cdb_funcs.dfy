/**
 * bin/cdbfuncs.py: recognising DevBank and RegLayout file names, swapping
 * one for its companion, reducing a bank file name to the prefix its
 * transform scripts share, deciding whether a bank file is a candidate to
 * disable, and reading the transform/CRIF pairs out of a DevBank file.
 * The file system is a map from path to the file's lines; logging is not
 * modelled.
 */
module CdbFuncs {
  import opened Wrappers
  import opened PyStr
  import opened PosixPath

  const DevBankPrefix: string := "DevBank_"
  const RegLayoutPrefix: string := "RegLayout_"

  /** `is_devbank`. */
  predicate IsDevbank(bankfile: string)
  {
    StartsWith(bankfile, DevBankPrefix)
  }

  /** `is_reglayout`. */
  predicate IsReglayout(bankfile: string)
  {
    StartsWith(bankfile, RegLayoutPrefix)
  }

  /** `is_valid_bankfile`. */
  predicate IsValidBankfile(bankfile: string)
  {
    IsDevbank(bankfile) || IsReglayout(bankfile)
  }

  /** Python's `s.replace(old, new, 1)`: the first occurrence only. */
  function ReplaceFirst(s: string, pat: string, rep: string): (r: string)
  {
    var k := Find(s, pat);
    if k == -1 then s else s[..k] + rep + s[k + |pat|..]
  }

  /** Replacing the first occurrence of a prefix the text starts with swaps that prefix. */
  lemma ReplaceFirstPrefix(s: string, pat: string, rep: string)
    requires StartsWith(s, pat)
    ensures ReplaceFirst(s, pat, rep) == rep + s[|pat|..]
  {
    assert OccursAt(s, pat, 0);
  }

  /** `get_companion_filename`: DevBank_x becomes RegLayout_x and back; any other name gives "". */
  function CompanionFilename(bankfile: string): (r: string)
  {
    var resultfile := if IsDevbank(bankfile) then ReplaceFirst(bankfile, DevBankPrefix, RegLayoutPrefix) else "";
    if IsReglayout(bankfile) then ReplaceFirst(bankfile, RegLayoutPrefix, DevBankPrefix) else resultfile
  }

  /** The two prefixes differ at their first character, so no name carries both. */
  lemma PrefixesExclusive(bankfile: string)
    ensures !(IsDevbank(bankfile) && IsReglayout(bankfile))
  {
    if IsDevbank(bankfile) {
      assert bankfile[0] == bankfile[..8][0] == 'D';
    }
  }

  /** A companion is a bank file of the other kind with the same rest of the name, and "" exactly for other names. */
  lemma CompanionSwaps(bankfile: string)
    ensures var r := CompanionFilename(bankfile);
      (r == "" <==> !IsValidBankfile(bankfile)) &&
      (IsDevbank(bankfile) ==> IsReglayout(r) && r[|RegLayoutPrefix|..] == bankfile[|DevBankPrefix|..]) &&
      (IsReglayout(bankfile) ==> IsDevbank(r) && r[|DevBankPrefix|..] == bankfile[|RegLayoutPrefix|..])
  {
    PrefixesExclusive(bankfile);
    if IsDevbank(bankfile) {
      ReplaceFirstPrefix(bankfile, DevBankPrefix, RegLayoutPrefix);
      var r := RegLayoutPrefix + bankfile[|DevBankPrefix|..];
      assert r[..|RegLayoutPrefix|] == RegLayoutPrefix;
    }
    if IsReglayout(bankfile) {
      ReplaceFirstPrefix(bankfile, RegLayoutPrefix, DevBankPrefix);
      var r := DevBankPrefix + bankfile[|RegLayoutPrefix|..];
      assert r[..|DevBankPrefix|] == DevBankPrefix;
    }
  }

  /** The companion of a companion is the name itself. */
  lemma CompanionInvolution(bankfile: string)
    requires IsValidBankfile(bankfile)
    ensures CompanionFilename(CompanionFilename(bankfile)) == bankfile
  {
    var r := CompanionFilename(bankfile);
    CompanionSwaps(bankfile);
    CompanionSwaps(r);
    if IsDevbank(bankfile) {
      assert bankfile == DevBankPrefix + bankfile[|DevBankPrefix|..];
    } else {
      assert bankfile == RegLayoutPrefix + bankfile[|RegLayoutPrefix|..];
    }
  }

  /*
   * Counting underscores.
   */

  /** How often `c` occurs in `s`. */
  function Count(s: string, c: char): nat
  {
    multiset(s)[c]
  }

  /** The index of the `n`-th `c` in `s`, or -1 when `s` holds fewer. */
  function NthIndex(s: string, c: char, n: nat): (r: int)
    requires n >= 1
    ensures r == -1 || (0 <= r < |s| && s[r] == c && Count(s[..r], c) == n - 1)
    decreases |s|
  {
    if s == [] then -1
    else
      var p := NthIndex(s[..|s| - 1], c, n);
      if p != -1 then
        assert s[..p] == s[..|s| - 1][..p];
        p
      else if s[|s| - 1] == c && Count(s[..|s| - 1], c) == n - 1 then |s| - 1
      else -1
  }

  /** There is an `n`-th `c` exactly when `c` occurs at least `n` times. */
  lemma {:induction false} NthIndexFound(s: string, c: char, n: nat)
    requires n >= 1
    ensures NthIndex(s, c, n) != -1 <==> Count(s, c) >= n
    decreases |s|
  {
    if s != [] {
      var t := s[..|s| - 1];
      assert s == t + [s[|s| - 1]];
      NthIndexFound(t, c, n);
    }
  }

  /** Once a prefix holds the `n`-th `c`, so does the whole text, at the same index. */
  lemma {:induction false} NthIndexPrefix(s: string, c: char, n: nat, j: nat)
    requires n >= 1 && j <= |s|
    requires NthIndex(s[..j], c, n) != -1
    ensures NthIndex(s, c, n) == NthIndex(s[..j], c, n)
    decreases |s|
  {
    if j < |s| {
      var t := s[..|s| - 1];
      assert t[..j] == s[..j];
      NthIndexPrefix(t, c, n, j);
    } else {
      assert s[..j] == s;
    }
  }

  /**
   * The underscore-counting loop of `can_disable` and `trim_bankfile_name`:
   * it stops at the `n`-th underscore, leaving its index in `trimcount`.
   */
  method ScoreCount(s: string, n: nat) returns (scorecount: nat, trimcount: nat)
    requires n >= 1
    ensures scorecount >= n <==> Count(s, '_') >= n
    ensures scorecount >= n ==> trimcount == NthIndex(s, '_', n)
  {
    scorecount, trimcount := 0, 0;
    for i := 0 to |s|
      invariant scorecount == Count(s[..i], '_') < n
      invariant NthIndex(s[..i], '_', n) == -1
    {
      assert s[..i + 1] == s[..i] + [s[i]];
      assert s[..i + 1][..i] == s[..i];
      if s[i] == '_' {
        scorecount := scorecount + 1;
      }
      if scorecount == n {
        trimcount := i;
        NthIndexPrefix(s, '_', n, i + 1);
        NthIndexFound(s, '_', n);
        return;
      }
    }
    assert s[..|s|] == s;
    NthIndexFound(s, '_', n);
  }

  /*
   * trim_bankfile_name
   */

  /** One leading zero dropped from a field longer than one character. */
  function Unpad(e: string): (r: string)
    ensures r == e || (|e| > 1 && e == "0" + r)
    ensures r == "" <==> e == ""
  {
    if |e| > 1 && e[0] == '0' then
      assert e == "0" + e[1..];
      e[1..]
    else e
  }

  /** The fields, each unpadded and followed by `_`, in order. */
  function Joined(es: seq<string>): (r: string)
    ensures es != [] ==> r != "" && r[|r| - 1] == '_'
  {
    if es == [] then "" else Joined(es[..|es| - 1]) + Unpad(es[|es| - 1]) + "_"
  }

  /** Where the bank name proper starts: after the first `devbank_`, else after the first `reglayout_`. */
  function NameStart(lower: string): (r: int)
    ensures r == -1 <==> !Contains(lower, "devbank_") && !Contains(lower, "reglayout_")
    ensures r == -1 || r <= |lower|
  {
    var d := Find(lower, "devbank_");
    if d != -1 then d + 8
    else
      var g := Find(lower, "reglayout_");
      if g != -1 then g + 10 else -1
  }

  /** The name after the prefix, with dots turned into underscores. */
  function Remainder(bankfile: string): (r: string)
    requires NameStart(Lower(bankfile)) != -1
  {
    ReplaceAll(Lower(bankfile)[NameStart(Lower(bankfile))..], ".", "_")
  }

  /**
   * What `trim_bankfile_name` returns: "" without a DevBank/RegLayout
   * prefix or without three underscores after it; otherwise the three
   * fields before the third underscore, unpadded, each followed by `_`.
   */
  function SearchPrefix(bankfile: string): (r: string)
  {
    if NameStart(Lower(bankfile)) == -1 then ""
    else
      var rest := Remainder(bankfile);
      var k := NthIndex(rest, '_', 3);
      if k == -1 then "" else Joined(SplitChar(rest[..k], '_', -1))
  }

  /** `trim_bankfile_name`: lower-case, cut the prefix, count to the third underscore, join the unpadded fields. */
  method TrimBankfileName(bankfile: string) returns (finalstring: string)
    ensures finalstring == SearchPrefix(bankfile)
  {
    var curfile := Lower(bankfile);
    var prelen := 8;
    var strpos := Find(curfile, "devbank_");
    if strpos == -1 {
      strpos := Find(curfile, "reglayout_");
      if strpos == -1 {
        return "";
      } else {
        prelen := 10;
      }
    }
    curfile := curfile[strpos + prelen..];
    curfile := ReplaceAll(curfile, ".", "_");
    assert curfile == Remainder(bankfile);
    var scorecount, trimcount := ScoreCount(curfile, 3);
    NthIndexFound(curfile, '_', 3);
    if scorecount < 3 {
      return "";
    }
    curfile := curfile[..trimcount];
    var elements := SplitChar(curfile, '_', -1);
    finalstring := JoinFields(elements);
  }

  /** The loop that unpads each field and appends it with an underscore. */
  method JoinFields(elements: seq<string>) returns (finalstring: string)
    ensures finalstring == Joined(elements)
  {
    finalstring := "";
    for j := 0 to |elements|
      invariant finalstring == Joined(elements[..j])
    {
      assert elements[..j + 1][..j] == elements[..j];
      var curelement := elements[j];
      if |curelement| > 1 && curelement[0] == '0' {
        curelement := curelement[1..];
      }
      finalstring := finalstring + curelement;
      finalstring := finalstring + "_";
    }
    assert elements[..|elements|] == elements;
  }

  /** The search prefix is empty exactly when the name has no prefix or fewer than three underscores after it. */
  lemma SearchPrefixEmpty(bankfile: string)
    ensures SearchPrefix(bankfile) == "" <==>
      NameStart(Lower(bankfile)) == -1 || Count(Remainder(bankfile), '_') < 3
  {
    if NameStart(Lower(bankfile)) != -1 {
      NthIndexFound(Remainder(bankfile), '_', 3);
    }
  }

  /** The search prefix ignores case. */
  lemma SearchPrefixCaseless(a: string, b: string)
    requires Lower(a) == Lower(b)
    ensures SearchPrefix(a) == SearchPrefix(b)
  {
  }

  /** A full split yields one more piece than there are separators. */
  lemma {:induction false} SplitCount(s: string, c: char)
    ensures |SplitChar(s, c, -1)| == Count(s, c) + 1
    decreases |s|
  {
    var k := Find(s, [c]);
    FindCharIff(s, c);
    if k != -1 {
      assert s[k..k + 1] == [c];
      assert c !in s[..k] by {
        if c in s[..k] {
          var j :| 0 <= j < k && s[..k][j] == c;
          assert s[j..j + 1] == [c];
          assert OccursAt(s, [c], j);
        }
      }
      assert s == s[..k] + [c] + s[k + 1..];
      SplitCount(s[k + 1..], c);
    }
  }

  /** Unpadding only drops characters. */
  lemma UnpadIn(e: string, x: char)
    requires x in Unpad(e)
    ensures x in e
  {
  }

  /** Joined fields count one underscore per field when no field holds one, and hold nothing else new. */
  lemma {:induction false} JoinedShape(es: seq<string>)
    requires forall i :: 0 <= i < |es| ==> '_' !in es[i]
    ensures Count(Joined(es), '_') == |es|
    ensures forall x :: x in Joined(es) ==> x == '_' || exists i :: 0 <= i < |es| && x in es[i]
    decreases |es|
  {
    if es != [] {
      var init := es[..|es| - 1];
      var last := es[|es| - 1];
      JoinedShape(init);
      assert Count(Unpad(last), '_') == 0 by {
        if '_' in multiset(Unpad(last)) {
          UnpadIn(last, '_');
        }
      }
      assert multiset(Joined(es)) == multiset(Joined(init)) + multiset(Unpad(last)) + multiset{'_'};
      forall x | x in Joined(es)
        ensures x == '_' || exists i :: 0 <= i < |es| && x in es[i]
      {
        assert x in Joined(init) + Unpad(last) + "_";
        if x in Joined(init) && x != '_' {
          var i :| 0 <= i < |init| && x in init[i];
          assert es[i] == init[i];
        } else if x in Unpad(last) {
          UnpadIn(last, x);
        }
      }
    }
  }

  /** Every character of the remainder is a lower-cased character of the name other than a dot. */
  lemma RemainderIn(bankfile: string, x: char)
    requires NameStart(Lower(bankfile)) != -1
    requires x in Remainder(bankfile)
    ensures x != '.' && !('A' <= x <= 'Z')
  {
    var tail := Lower(bankfile)[NameStart(Lower(bankfile))..];
    ReplaceAllChar(tail, '.', '_');
    var i :| 0 <= i < |tail| && MapChar(tail, '.', '_')[i] == x;
  }

  /**
   * A non-empty search prefix is lower-case, holds no dot and exactly three
   * underscores, and ends with one.
   */
  lemma SearchPrefixShape(bankfile: string)
    requires SearchPrefix(bankfile) != ""
    ensures var r := SearchPrefix(bankfile);
      r[|r| - 1] == '_' && Count(r, '_') == 3 &&
      forall x :: x in r ==> x != '.' && !('A' <= x <= 'Z')
  {
    var rest := Remainder(bankfile);
    var k := NthIndex(rest, '_', 3);
    var pieces := SplitChar(rest[..k], '_', -1);
    SplitCount(rest[..k], '_');
    forall i | 0 <= i < |pieces|
      ensures '_' !in pieces[i]
    {
      SplitCharPieceFree(rest[..k], '_', -1, i);
    }
    JoinedShape(pieces);
    forall x | x in Joined(pieces)
      ensures x != '.' && !('A' <= x <= 'Z')
    {
      if x != '_' {
        var i :| 0 <= i < |pieces| && x in pieces[i];
        SplitCharPieceIn(rest[..k], '_', -1, i, x);
        RemainderIn(bankfile, x);
      }
    }
  }

  /*
   * can_disable
   */

  /** `c.isdigit() and int(c) > 0` for one character. */
  predicate NonZeroDigit(c: char)
  {
    '1' <= c <= '9'
  }

  predicate HasNonZeroDigit(s: string)
  {
    exists i :: 0 <= i < |s| && NonZeroDigit(s[i])
  }

  /** Text up to the first `pci_`, where the irrelevant hex digits begin. */
  function BeforePci(s: string): (r: string)
    ensures |r| <= |s| && r == s[..|r|]
  {
    var p := Find(s, "pci_");
    if p != -1 then s[..p] else s
  }

  /** The rule for names without `Lane`: a non-zero digit from the seventh underscore up to `pci_`. */
  predicate UnderscoreRule(filename: string)
  {
    var k := NthIndex(filename, '_', 7);
    k != -1 && HasNonZeroDigit(BeforePci(Lower(filename[k..])))
  }

  /**
   * `can_disable` as written: the length guard is `>=`, so when the first
   * `Lane` ends the name the subscript is out of range.
   */
  function CanDisableAsWritten(filename: string): (r: Result<bool>)
  {
    var lanePos := Find(filename, "Lane");
    if lanePos != -1 then
      var digitIndex := lanePos + 4;
      if |filename| >= digitIndex then
        if digitIndex < |filename| then Ok(NonZeroDigit(filename[digitIndex])) else Err(IndexError)
      else Ok(false)
    else Ok(UnderscoreRule(filename))
  }

  /** `can_disable` with the guard the code evidently intends (`>`). */
  predicate Disableable(filename: string)
  {
    var lanePos := Find(filename, "Lane");
    if lanePos != -1 then lanePos + 4 < |filename| && NonZeroDigit(filename[lanePos + 4])
    else UnderscoreRule(filename)
  }

  /** As written, `can_disable` raises exactly when the first `Lane` ends the name. */
  lemma CanDisableAsWrittenFails(filename: string)
    ensures CanDisableAsWritten(filename).Err? <==>
      Find(filename, "Lane") != -1 && Find(filename, "Lane") + 4 == |filename|
    ensures CanDisableAsWritten(filename).Ok? ==> CanDisableAsWritten(filename).value == Disableable(filename)
  {
  }

  /** A name ending in its only `Lane` makes the written code raise. */
  lemma CanDisableLaneAtEnd()
    ensures CanDisableAsWritten("DevBank_Lane") == Err(IndexError)
  {
    var s := "DevBank_Lane";
    assert OccursAt(s, "Lane", 8);
    forall j | 0 <= j < 8
      ensures !OccursAt(s, "Lane", j)
    {
      assert s[j..j + 4][0] == s[j] != 'L';
    }
  }

  /**
   * Only names with a non-zero digit are candidates; with `Lane` it is the
   * character right after the first `Lane` that decides.
   */
  lemma DisableableNeedsDigit(filename: string)
    ensures Disableable(filename) ==> HasNonZeroDigit(filename)
    ensures Contains(filename, "Lane") ==>
      (Disableable(filename) <==> exists i :: i == Find(filename, "Lane") + 4 && i < |filename| && NonZeroDigit(filename[i]))
    ensures !Contains(filename, "Lane") && Count(filename, '_') < 7 ==> !Disableable(filename)
  {
    NthIndexFound(filename, '_', 7);
    if Disableable(filename) && !Contains(filename, "Lane") {
      var k := NthIndex(filename, '_', 7);
      var t := BeforePci(Lower(filename[k..]));
      var i :| 0 <= i < |t| && NonZeroDigit(t[i]);
      assert t[i] == Lower(filename[k..])[i];
      assert NonZeroDigit(filename[k + i]);
    }
  }

  /** `can_disable` (with `>`): the `Lane` digit, or the counting loop and the digit scan. */
  method CanDisable(filename: string) returns (result: bool)
    ensures result == Disableable(filename)
  {
    result := false;
    var lanePos := Find(filename, "Lane");
    if lanePos != -1 {
      var digitIndex := lanePos + 4;
      if |filename| > digitIndex {
        var digit := filename[digitIndex];
        if IsDigit(digit) {
          if digit > '0' {
            result := true;
          }
        }
      }
    } else {
      result := UnderscoreCheck(filename);
    }
  }

  /** The branch of `can_disable` for names without `Lane`. */
  method UnderscoreCheck(filename: string) returns (result: bool)
    ensures result == UnderscoreRule(filename)
  {
    result := false;
    var scorecount, trimcount := ScoreCount(filename, 7);
    NthIndexFound(filename, '_', 7);
    if scorecount >= 7 {
      var name := filename[trimcount..];
      name := Lower(name);
      var pciPos := Find(name, "pci_");
      if pciPos != -1 {
        name := name[..pciPos];
      }
      assert name == BeforePci(Lower(filename[trimcount..]));
      result := ScanDigits(name);
    }
  }

  /** The scan for a non-zero digit, stopping at the first. */
  method ScanDigits(name: string) returns (result: bool)
    ensures result == HasNonZeroDigit(name)
  {
    result := false;
    for j := 0 to |name|
      invariant forall m :: 0 <= m < j ==> !NonZeroDigit(name[m])
    {
      if IsDigit(name[j]) {
        if name[j] > '0' {
          result := true;
          break;
        }
      }
    }
  }

  /*
   * get_devbank_map
   */

  /** A token naming a transform: three characters or more, not opening with `(`. */
  predicate TransformToken(e: string)
  {
    |e| >= 3 && e[0] != '('
  }

  /** A token holding a CRIF name: three characters or more, opening with `(`. */
  predicate CrifToken(e: string)
  {
    |e| >= 3 && e[0] == '('
  }

  predicate IsToken(e: string, crif: bool)
  {
    if crif then CrifToken(e) else TransformToken(e)
  }

  /** The index of the last token of the given kind, or -1: later tokens overwrite earlier ones. */
  function LastToken(es: seq<string>, crif: bool): (r: int)
    ensures r == -1 ==> forall i :: 0 <= i < |es| ==> !IsToken(es[i], crif)
    ensures r != -1 ==> 0 <= r < |es| && IsToken(es[r], crif)
    ensures r != -1 ==> forall j :: r < j < |es| ==> !IsToken(es[j], crif)
  {
    if es == [] then -1
    else if IsToken(es[|es| - 1], crif) then |es| - 1
    else LastToken(es[..|es| - 1], crif)
  }

  /** Python 2's `s.translate(None, chars)`: every character of `chars` deleted. */
  function DeleteChars(s: string, chars: set<char>): (r: string)
    ensures forall x :: x in r ==> x in s && x !in chars
  {
    if s == [] then ""
    else (if s[0] in chars then "" else [s[0]]) + DeleteChars(s[1..], chars)
  }

  /** A CRIF token with `(`, `)` and `:` removed and whitespace stripped. */
  function CrifName(e: string): string
  {
    Strip(DeleteChars(e, {'(', ')', ':'}))
  }

  /** The transform name the token loop leaves: the last transform token, or "". */
  function TransformOf(es: seq<string>): string
  {
    var t := LastToken(es, false);
    if t == -1 then "" else es[t]
  }

  /** The CRIF name the token loop leaves: the last CRIF token, cleaned, or "". */
  function CrifOf(es: seq<string>): string
  {
    var c := LastToken(es, true);
    if c == -1 then "" else CrifName(es[c])
  }

  /** The pair a marked line yields: the last transform token and the last CRIF name, when both are non-empty. */
  function LineEntry(line: string): (r: Option<(string, string)>)
  {
    var es := SplitChar(line, ' ', -1);
    var transformname := TransformOf(es);
    var crifname := CrifOf(es);
    if |transformname| > 0 && |crifname| > 0 then Some((transformname, crifname)) else None
  }

  /** One more token: it replaces the name of its kind. */
  lemma TokenSnoc(es: seq<string>, j: nat)
    requires j < |es|
    ensures TransformOf(es[..j + 1]) == if TransformToken(es[j]) then es[j] else TransformOf(es[..j])
    ensures CrifOf(es[..j + 1]) == if CrifToken(es[j]) then CrifName(es[j]) else CrifOf(es[..j])
  {
    assert es[..j + 1][..j] == es[..j];
  }

  /** The token loop of `get_devbank_map` for one marked line. */
  method ParseMapLine(curline: string) returns (transformname: string, crifname: string)
    ensures LineEntry(curline) == if |transformname| > 0 && |crifname| > 0 then Some((transformname, crifname)) else None
  {
    transformname, crifname := "", "";
    var elements := SplitChar(curline, ' ', -1);
    for j := 0 to |elements|
      invariant transformname == TransformOf(elements[..j])
      invariant crifname == CrifOf(elements[..j])
    {
      TokenSnoc(elements, j);
      var curelement := elements[j];
      if |curelement| >= 3 {
        if curelement[0] != '(' {
          transformname := curelement;
        } else {
          crifname := DeleteChars(curelement, {'(', ')', ':'});
          crifname := Strip(crifname);
        }
      }
    }
    assert elements[..|elements|] == elements;
  }

  /** A pair names a transform token of the line and a clean, stripped CRIF name. */
  lemma LineEntryShape(line: string)
    requires LineEntry(line).Some?
    ensures var (t, c) := LineEntry(line).value;
      TransformToken(t) && ' ' !in t &&
      c != "" && Strip(c) == c && '(' !in c && ')' !in c && ':' !in c
  {
    var es := SplitChar(line, ' ', -1);
    var t := LastToken(es, false);
    SplitCharPieceFree(line, ' ', -1, t);
    var c := LastToken(es, true);
    var d := DeleteChars(es[c], {'(', ')', ':'});
    StripNoop(Strip(d));
    forall x | x in Strip(d)
      ensures x != '(' && x != ')' && x != ':'
    {
      StripIn(d, x);
    }
  }

  /** A marked line: one holding `// * `. */
  predicate Marked(line: string)
  {
    Contains(line, "// * ")
  }

  /** The pairs of the marked lines, in file order. */
  function MapEntries(lines: seq<string>): (r: seq<(string, string)>)
    ensures |r| <= |lines|
  {
    if lines == [] then []
    else
      var last := lines[|lines| - 1];
      var e := if Marked(last) then LineEntry(last) else None;
      MapEntries(lines[..|lines| - 1]) + (if e.Some? then [e.value] else [])
  }

  /** Where `get_devbank_map` reads a DevBank file of a release. */
  function BankPath(releasename: string, curfile: string): string
  {
    Join(Join("linux64/autogen/regs", releasename), curfile)
  }

  /** The DevBank name `get_devbank_map` reads: the name itself, or the companion of a RegLayout name. */
  function DevbankName(bankfile: string): string
  {
    if IsDevbank(bankfile) then bankfile else CompanionFilename(bankfile)
  }

  /**
   * `get_devbank_map`: the pairs of the DevBank file's marked lines; no
   * pairs for a name that is not a bank file or a file that does not exist.
   * `files` maps each existing path to its lines, newlines included.
   */
  method GetDevbankMap(bankfile: string, releasename: string, files: map<string, seq<string>>)
      returns (resultlist: seq<(string, string)>)
    ensures var curfile := DevbankName(bankfile);
      var path := BankPath(releasename, curfile);
      resultlist == if curfile == "" || path !in files then [] else MapEntries(files[path])
  {
    resultlist := [];
    var curfile := bankfile;
    if !IsDevbank(bankfile) {
      curfile := CompanionFilename(bankfile);
    }
    if |curfile| == 0 {
      return;
    }
    var curpath := BankPath(releasename, curfile);
    if curpath !in files {
      return;
    }
    var openfile := files[curpath];
    for i := 0 to |openfile|
      invariant resultlist == MapEntries(openfile[..i])
    {
      assert openfile[..i + 1][..i] == openfile[..i];
      var curline := openfile[i];
      if Find(curline, "// * ") != -1 {
        var transformname, crifname := ParseMapLine(curline);
        if |transformname| > 0 && |crifname| > 0 {
          resultlist := resultlist + [(transformname, crifname)];
        }
      }
    }
    assert openfile[..|openfile|] == openfile;
  }

  /** Every pair of the map comes from a marked line of the file, and has the shape of `LineEntryShape`. */
  lemma {:induction false} MapEntriesFromLines(lines: seq<string>, k: nat)
    requires k < |MapEntries(lines)|
    ensures exists i :: 0 <= i < |lines| && Marked(lines[i]) && LineEntry(lines[i]) == Some(MapEntries(lines)[k])
    decreases |lines|
  {
    var init := lines[..|lines| - 1];
    var last := lines[|lines| - 1];
    if k < |MapEntries(init)| {
      MapEntriesFromLines(init, k);
      var i :| 0 <= i < |init| && Marked(init[i]) && LineEntry(init[i]) == Some(MapEntries(init)[k]);
      assert lines[i] == init[i];
    } else {
      assert Marked(last) && LineEntry(last) == Some(MapEntries(lines)[k]);
    }
  }
}
