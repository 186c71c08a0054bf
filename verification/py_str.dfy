/**
 * The handful of Python `str` operations the scripts rely on, written with
 * Python's semantics: `find` answers -1 when absent, slices clamp and accept
 * negative indices, `strip()` removes Python whitespace, `split(sep, n)`
 * splits at most `n` times from the left.  Case mapping and `isdigit` are
 * ASCII-only.
 */
module PyStr {

  /** `sub` occurs in `s` starting at index `i`. */
  predicate OccursAt(s: string, sub: string, i: int)
  {
    0 <= i && i + |sub| <= |s| && s[i..i + |sub|] == sub
  }

  predicate StartsWith(s: string, p: string)
  {
    |p| <= |s| && s[..|p|] == p
  }

  predicate EndsWith(s: string, p: string)
  {
    |p| <= |s| && s[|s| - |p|..] == p
  }

  function FindFrom(s: string, sub: string, i: nat): (r: int)
    requires i <= |s| + 1
    ensures r == -1 || (i <= r && OccursAt(s, sub, r))
    ensures r == -1 ==> forall j :: i <= j ==> !OccursAt(s, sub, j)
    ensures r != -1 ==> forall j :: i <= j < r ==> !OccursAt(s, sub, j)
    decreases |s| + 1 - i
  {
    if i + |sub| > |s| then -1
    else if s[i..i + |sub|] == sub then i
    else FindFrom(s, sub, i + 1)
  }

  /** Python's `s.find(sub)`: the lowest index where `sub` starts, or -1. */
  function Find(s: string, sub: string): (r: int)
    ensures r == -1 || OccursAt(s, sub, r)
    ensures r == -1 ==> forall j :: !OccursAt(s, sub, j)
    ensures r != -1 ==> forall j :: 0 <= j < r ==> !OccursAt(s, sub, j)
  {
    FindFrom(s, sub, 0)
  }

  /** Python's `sub in s`. */
  predicate Contains(s: string, sub: string)
  {
    Find(s, sub) != -1
  }

  function RFindUpTo(s: string, sub: string, i: int): (r: int)
    requires i <= |s|
    ensures r == -1 || (r <= i && OccursAt(s, sub, r))
    ensures forall j :: r < j <= i ==> !OccursAt(s, sub, j)
    decreases i + 1
  {
    if i < 0 then -1
    else if OccursAt(s, sub, i) then i
    else RFindUpTo(s, sub, i - 1)
  }

  /** Python's `s.rfind(sub)`: the highest index where `sub` starts, or -1. */
  function RFind(s: string, sub: string): (r: int)
    ensures r == -1 || OccursAt(s, sub, r)
    ensures forall j :: r < j ==> !OccursAt(s, sub, j)
  {
    RFindUpTo(s, sub, |s|)
  }

  /** Python's normalisation of one slice bound against a length `n`. */
  function SliceBound(i: int, n: nat): (r: nat)
    ensures r <= n
    ensures 0 <= i <= n ==> r == i
  {
    if i < 0 then (if i + n < 0 then 0 else i + n)
    else if i > n then n
    else i
  }

  /** Python's `s[i:j]` for any integers `i` and `j`. */
  function Slice(s: string, i: int, j: int): (r: string)
    ensures 0 <= i <= j <= |s| ==> r == s[i..j]
    ensures |r| <= |s|
  {
    var a := SliceBound(i, |s|);
    var b := SliceBound(j, |s|);
    if a < b then s[a..b] else ""
  }

  /** Python's `s[i:]`. */
  function SliceFrom(s: string, i: int): (r: string)
    ensures 0 <= i <= |s| ==> r == s[i..]
    ensures i >= |s| ==> r == ""
  {
    Slice(s, i, |s|)
  }

  /** The characters for which Python's `str.isspace()` holds. */
  predicate IsSpace(c: char)
  {
    c == ' ' || ('\t' <= c <= '\r') || ('\U{1c}' <= c <= '\U{1f}') || c == '\U{85}' || c == '\U{a0}'
    || c == '\U{1680}' || ('\U{2000}' <= c <= '\U{200a}') || c == '\U{2028}' || c == '\U{2029}'
    || c == '\U{202f}' || c == '\U{205f}' || c == '\U{3000}'
  }

  /** ASCII digits: the digits `isdigit` and `int` are modelled for. */
  predicate IsDigit(c: char)
  {
    '0' <= c <= '9'
  }

  predicate AllDigits(s: string)
  {
    forall i :: 0 <= i < |s| ==> IsDigit(s[i])
  }

  /** Python's `s.isdigit()`: non-empty and every character a digit. */
  predicate IsDigitStr(s: string)
  {
    |s| > 0 && AllDigits(s)
  }

  function LStripWith(s: string, drop: char -> bool): (r: string)
    ensures |r| <= |s| && r == s[|s| - |r|..]
    ensures r == "" || !drop(r[0])
    ensures forall i :: 0 <= i < |s| - |r| ==> drop(s[i])
  {
    if |s| > 0 && drop(s[0]) then
      var r := LStripWith(s[1..], drop);
      assert forall i :: 1 <= i < |s| - |r| ==> s[i] == s[1..][i - 1];
      r
    else s
  }

  function RStripWith(s: string, drop: char -> bool): (r: string)
    ensures |r| <= |s| && r == s[..|r|]
    ensures r == "" || !drop(r[|r| - 1])
    ensures forall i :: |r| <= i < |s| ==> drop(s[i])
  {
    if |s| > 0 && drop(s[|s| - 1]) then RStripWith(s[..|s| - 1], drop) else s
  }

  /** Python's `s.strip()`: drop leading and trailing whitespace. */
  function Strip(s: string): (r: string)
    ensures |r| <= |s|
    ensures r == "" || (!IsSpace(r[0]) && !IsSpace(r[|r| - 1]))
  {
    RStripWith(LStripWith(s, IsSpace), IsSpace)
  }

  /** Python's `s.strip(c)` for a one-character argument. */
  function StripChar(s: string, c: char): (r: string)
    ensures |r| <= |s|
    ensures r == "" || (r[0] != c && r[|r| - 1] != c)
  {
    RStripWith(LStripWith(s, x => x == c), x => x == c)
  }

  /** Left-stripping removes exactly a leading run of dropped characters. */
  lemma {:induction false} LStripRun(pre: string, d: string, drop: char -> bool)
    requires forall i :: 0 <= i < |pre| ==> drop(pre[i])
    requires d == "" || !drop(d[0])
    ensures LStripWith(pre + d, drop) == d
    decreases |pre|
  {
    if |pre| > 0 {
      assert (pre + d)[1..] == pre[1..] + d;
      LStripRun(pre[1..], d, drop);
    } else {
      assert pre + d == d;
    }
  }

  /** Right-stripping removes exactly a trailing run of dropped characters. */
  lemma {:induction false} RStripRun(d: string, post: string, drop: char -> bool)
    requires forall i :: 0 <= i < |post| ==> drop(post[i])
    requires d == "" || !drop(d[|d| - 1])
    ensures RStripWith(d + post, drop) == d
    decreases |post|
  {
    if |post| > 0 {
      assert (d + post)[..|d + post| - 1] == d + post[..|post| - 1];
      RStripRun(d, post[..|post| - 1], drop);
    } else {
      assert d + post == d;
    }
  }

  /** `strip(c)` of text framed by runs of `c` around a part free of `c` is that part. */
  lemma StripCharRuns(pre: string, d: string, post: string, c: char)
    requires forall i :: 0 <= i < |pre| ==> pre[i] == c
    requires forall i :: 0 <= i < |post| ==> post[i] == c
    requires c !in d
    ensures StripChar(pre + d + post, c) == d
  {
    var drop := x => x == c;
    if d == "" {
      LStripRun(pre + post, "", drop);
      assert pre + d + post == pre + post + "";
    } else {
      LStripRun(pre, d + post, drop);
      assert pre + d + post == pre + (d + post);
      RStripRun(d, post, drop);
    }
  }

  /** What `strip(c)` keeps is a part of the text. */
  lemma StripCharIn(s: string, c: char, x: char)
    requires x in StripChar(s, c)
    ensures x in s
  {
    var l := LStripWith(s, y => y == c);
    var r := RStripWith(l, y => y == c);
    var j :| 0 <= j < |r| && r[j] == x;
    assert l[j] == x;
    assert s[|s| - |l| + j] == x;
  }

  /** What `strip()` keeps is a part of the text. */
  lemma StripIn(s: string, x: char)
    requires x in Strip(s)
    ensures x in s
  {
    var l := LStripWith(s, IsSpace);
    var r := RStripWith(l, IsSpace);
    var j :| 0 <= j < |r| && r[j] == x;
    assert l[j] == x;
    assert s[|s| - |l| + j] == x;
  }

  /** Stripping is the identity on text that neither starts nor ends with whitespace. */
  lemma StripNoop(s: string)
    requires s == "" || (!IsSpace(s[0]) && !IsSpace(s[|s| - 1]))
    ensures Strip(s) == s
  {
  }

  function LowerChar(c: char): char
  {
    if 'A' <= c <= 'Z' then (c as int + 32) as char else c
  }

  function UpperChar(c: char): char
  {
    if 'a' <= c <= 'z' then (c as int - 32) as char else c
  }

  /** Python's `s.lower()` on ASCII letters. */
  function Lower(s: string): (r: string)
    ensures |r| == |s|
    ensures forall i :: 0 <= i < |s| ==> r[i] == LowerChar(s[i])
  {
    seq(|s|, i requires 0 <= i < |s| => LowerChar(s[i]))
  }

  /** Python's `s.upper()` on ASCII letters. */
  function Upper(s: string): (r: string)
    ensures |r| == |s|
    ensures forall i :: 0 <= i < |s| ==> r[i] == UpperChar(s[i])
  {
    seq(|s|, i requires 0 <= i < |s| => UpperChar(s[i]))
  }

  /** Python's `s.split(c, limit)` for a one-character separator; a negative limit splits everywhere. */
  function SplitChar(s: string, c: char, limit: int): (r: seq<string>)
    ensures |r| >= 1
    ensures limit >= 0 ==> |r| <= limit + 1
    ensures limit != 0 && Find(s, [c]) != -1 ==> |r| >= 2
    ensures Find(s, [c]) == -1 ==> r == [s]
    decreases |s|
  {
    var k := Find(s, [c]);
    if limit == 0 || k == -1 then [s]
    else [s[..k]] + SplitChar(s[k + 1..], c, if limit < 0 then limit else limit - 1)
  }

  /** The first `c` of `a + [c] + b` is at `|a|` when `a` holds none. */
  lemma FindCharFirst(a: string, c: char, b: string)
    requires c !in a
    ensures Find(a + [c] + b, [c]) == |a|
  {
    var s := a + [c] + b;
    assert OccursAt(s, [c], |a|);
    forall j | 0 <= j < |a| ensures !OccursAt(s, [c], j) {
      assert s[j] == a[j];
    }
  }

  /** Splitting text that has no separator yields the text itself. */
  lemma SplitCharNone(s: string, c: char, limit: int)
    requires c !in s
    ensures SplitChar(s, c, limit) == [s]
  {
    FindCharIn(s, c);
  }

  /** A one-character search succeeds only on text that holds the character. */
  lemma FindCharIn(s: string, c: char)
    ensures Find(s, [c]) != -1 ==> c in s
  {
    var k := Find(s, [c]);
    if k != -1 {
      assert s[k..k + 1] == [c];
      assert s[k] == c;
    }
  }

  /** A one-character search succeeds exactly on text that holds the character. */
  lemma FindCharIff(s: string, c: char)
    ensures Find(s, [c]) != -1 <==> c in s
  {
    FindCharIn(s, c);
    if c in s {
      var i :| 0 <= i < |s| && s[i] == c;
      assert s[i..i + 1] == [c];
      assert OccursAt(s, [c], i);
    }
  }

  /** Every character of every piece of a split comes from the text split. */
  lemma {:induction false} SplitCharPieceIn(s: string, c: char, limit: int, i: nat, x: char)
    requires i < |SplitChar(s, c, limit)| && x in SplitChar(s, c, limit)[i]
    ensures x in s && (limit < 0 ==> x != c)
    decreases |s|
  {
    var k := Find(s, [c]);
    if limit == 0 || k == -1 {
      FindCharIff(s, c);
    } else {
      var rest := s[k + 1..];
      var pieces := SplitChar(rest, c, if limit < 0 then limit else limit - 1);
      assert SplitChar(s, c, limit) == [s[..k]] + pieces;
      if i == 0 {
        var j :| 0 <= j < k && s[..k][j] == x;
        assert !OccursAt(s, [c], j) && s[j..j + 1] == [s[j]];
      } else {
        assert x in pieces[i - 1];
        SplitCharPieceIn(rest, c, if limit < 0 then limit else limit - 1, i - 1, x);
      }
    }
  }

  /** Splitting `a + [c] + b` where `a` holds no separator peels off `a`. */
  lemma SplitCharCons(a: string, c: char, b: string, limit: int)
    requires c !in a && limit != 0
    ensures SplitChar(a + [c] + b, c, limit) == [a] + SplitChar(b, c, if limit < 0 then limit else limit - 1)
  {
    var s := a + [c] + b;
    assert OccursAt(s, [c], |a|);
    forall j | 0 <= j < |a| ensures !OccursAt(s, [c], j) {
      assert s[j] == a[j];
    }
    assert s[..|a|] == a;
    assert s[|a| + 1..] == b;
  }

  /** Python's `s.split()`: the maximal runs of non-whitespace, in order. */
  function SplitWs(s: string): (r: seq<string>)
    ensures forall i :: 0 <= i < |r| ==> |r[i]| > 0
    ensures forall i, j :: 0 <= i < |r| && 0 <= j < |r[i]| ==> !IsSpace(r[i][j])
    decreases |s|
  {
    var t := LStripWith(s, IsSpace);
    if t == "" then []
    else
      var k := FirstSpace(t, 0);
      FirstWord(t, k);
      var rest := SplitWs(t[k..]);
      WordsNonEmpty(t[..k], rest);
      [t[..k]] + rest
  }

  /** The text before the first whitespace of text not starting with whitespace is a word. */
  lemma FirstWord(t: string, k: nat)
    requires t != "" && !IsSpace(t[0]) && k == FirstSpace(t, 0)
    ensures 0 < k <= |t|
    ensures forall j :: 0 <= j < |t[..k]| ==> !IsSpace(t[..k][j])
  {
  }

  lemma WordsNonEmpty(w: string, rest: seq<string>)
    requires |w| > 0 && forall j :: 0 <= j < |w| ==> !IsSpace(w[j])
    requires forall i :: 0 <= i < |rest| ==> |rest[i]| > 0
    requires forall i, j :: 0 <= i < |rest| && 0 <= j < |rest[i]| ==> !IsSpace(rest[i][j])
    ensures forall i :: 0 <= i < |rest| + 1 ==> |([w] + rest)[i]| > 0
    ensures forall i, j :: 0 <= i < |rest| + 1 && 0 <= j < |([w] + rest)[i]| ==> !IsSpace(([w] + rest)[i][j])
  {
  }

  function FirstSpace(t: string, i: nat): (k: nat)
    requires i <= |t|
    ensures i <= k <= |t|
    ensures k < |t| ==> IsSpace(t[k])
    ensures forall j :: i <= j < k ==> !IsSpace(t[j])
    decreases |t| - i
  {
    if i == |t| || IsSpace(t[i]) then i else FirstSpace(t, i + 1)
  }

  /** Python's `s.replace(pat, rep)`: every non-overlapping occurrence, scanning left to right. */
  function ReplaceAll(s: string, pat: string, rep: string): (r: string)
    requires |pat| > 0
    decreases |s|
  {
    if |s| < |pat| then s
    else if s[..|pat|] == pat then rep + ReplaceAll(s[|pat|..], pat, rep)
    else [s[0]] + ReplaceAll(s[1..], pat, rep)
  }

  /** Every `c` replaced by `d`, position by position. */
  function MapChar(s: string, c: char, d: char): (r: string)
    ensures |r| == |s|
    ensures forall i :: 0 <= i < |s| ==> r[i] == if s[i] == c then d else s[i]
  {
    seq(|s|, i requires 0 <= i < |s| => if s[i] == c then d else s[i])
  }

  /** Replacing a one-character pattern by one character is a position-by-position map. */
  lemma {:induction false} ReplaceAllChar(s: string, c: char, d: char)
    ensures ReplaceAll(s, [c], [d]) == MapChar(s, c, d)
    decreases |s|
  {
    if |s| >= 1 {
      ReplaceAllChar(s[1..], c, d);
      assert MapChar(s, c, d) == [if s[0] == c then d else s[0]] + MapChar(s[1..], c, d);
    }
  }

  /** Replacing leaves text without an occurrence unchanged. */
  lemma {:induction false} ReplaceAllNoop(s: string, pat: string, rep: string)
    requires |pat| > 0 && !Contains(s, pat)
    ensures ReplaceAll(s, pat, rep) == s
    decreases |s|
  {
    if |s| >= |pat| {
      assert !OccursAt(s, pat, 0);
      forall j ensures !OccursAt(s[1..], pat, j) {
        if OccursAt(s[1..], pat, j) {
          assert s[j + 1..j + 1 + |pat|] == s[1..][j..j + |pat|];
          assert OccursAt(s, pat, j + 1);
        }
      }
      ReplaceAllNoop(s[1..], pat, rep);
    }
  }

  /** A replacement as long as its pattern keeps the length of the text. */
  lemma {:induction false} ReplaceAllLength(s: string, pat: string, rep: string)
    requires |pat| > 0 && |rep| == |pat|
    ensures |ReplaceAll(s, pat, rep)| == |s|
    decreases |s|
  {
    if |s| >= |pat| {
      if s[..|pat|] == pat {
        ReplaceAllLength(s[|pat|..], pat, rep);
      } else {
        ReplaceAllLength(s[1..], pat, rep);
      }
    }
  }

  /** Replacing a pattern by a different text changes every text in which the pattern occurs. */
  lemma {:induction false} ReplaceAllChanges(s: string, pat: string, rep: string)
    requires |pat| > 0 && |rep| == |pat| && rep != pat
    requires Contains(s, pat)
    ensures ReplaceAll(s, pat, rep) != s
    decreases |s|
  {
    var k := Find(s, pat);
    if s[..|pat|] == pat {
      var r := ReplaceAll(s, pat, rep);
      assert r[..|pat|] == rep;
    } else {
      assert k != 0;
      assert s[k..k + |pat|] == s[1..][k - 1..k - 1 + |pat|];
      assert OccursAt(s[1..], pat, k - 1);
      ReplaceAllChanges(s[1..], pat, rep);
      assert s == [s[0]] + s[1..];
    }
  }

  /** Text in front of which no occurrence starts passes through a replacement untouched. */
  lemma {:induction false} ReplaceAllPrefix(a: string, b: string, pat: string, rep: string)
    requires |pat| > 0
    requires forall j :: 0 <= j < |a| ==> !OccursAt(a + b, pat, j)
    ensures ReplaceAll(a + b, pat, rep) == a + ReplaceAll(b, pat, rep)
    decreases |a|
  {
    if a != [] {
      var s := a + b;
      assert !OccursAt(s, pat, 0);
      forall j | 0 <= j < |a[1..]| ensures !OccursAt(a[1..] + b, pat, j) {
        assert !OccursAt(s, pat, j + 1);
        assert a[1..] + b == s[1..];
      }
      ReplaceAllPrefix(a[1..], b, pat, rep);
      assert s[1..] == a[1..] + b;
      if |s| >= |pat| {
        assert s[..|pat|] == s[0..|pat|];
        assert ReplaceAll(s, pat, rep) == [s[0]] + ReplaceAll(s[1..], pat, rep);
        assert s[0] == a[0];
        assert [a[0]] + (a[1..] + ReplaceAll(b, pat, rep)) == a + ReplaceAll(b, pat, rep);
      } else {
        assert ReplaceAll(b, pat, rep) == b;
      }
    } else {
      assert a + b == b;
    }
  }

  /** Python's `c.join(parts)` for a one-character separator. */
  function JoinWith(parts: seq<string>, c: char): (r: string)
    decreases |parts|
  {
    if parts == [] then ""
    else if |parts| == 1 then parts[0]
    else parts[0] + [c] + JoinWith(parts[1..], c)
  }

  /** Splitting what was joined gives the parts back, when no part holds the separator. */
  lemma {:induction false} SplitCharJoin(parts: seq<string>, c: char, limit: int)
    requires |parts| >= 1
    requires forall i :: 0 <= i < |parts| ==> c !in parts[i]
    requires limit < 0 || |parts| - 1 <= limit
    ensures SplitChar(JoinWith(parts, c), c, limit) == parts
    decreases |parts|
  {
    if |parts| == 1 {
      SplitCharNone(parts[0], c, limit);
    } else {
      var rest := JoinWith(parts[1..], c);
      SplitCharCons(parts[0], c, rest, limit);
      SplitCharJoin(parts[1..], c, if limit < 0 then limit else limit - 1);
      assert parts == [parts[0]] + parts[1..];
    }
  }

  /** Removing every `c` keeps only characters of the text other than `c`. */
  lemma {:induction false} RemoveCharIn(s: string, c: char)
    ensures forall x :: x in ReplaceAll(s, [c], "") ==> x in s && x != c
    decreases |s|
  {
    if |s| >= 1 {
      RemoveCharIn(s[1..], c);
    }
  }

  /** Removing a character distributes over concatenation. */
  lemma {:induction false} RemoveCharAppend(a: string, b: string, c: char)
    ensures ReplaceAll(a + b, [c], "") == ReplaceAll(a, [c], "") + ReplaceAll(b, [c], "")
    decreases |a|
  {
    if a == [] {
      assert a + b == b;
    } else {
      assert (a + b)[1..] == a[1..] + b;
      assert (a + b)[..1] == a[..1];
      RemoveCharAppend(a[1..], b, c);
    }
  }

  /** Every piece but the last of a split with a limit is free of the separator; all are, for a full split. */
  lemma {:induction false} SplitCharPieceFree(s: string, c: char, limit: int, i: nat)
    requires i < |SplitChar(s, c, limit)|
    requires limit >= 0 ==> i < limit
    ensures c !in SplitChar(s, c, limit)[i]
    decreases |s|
  {
    var k := Find(s, [c]);
    var r := SplitChar(s, c, limit);
    if k == -1 {
      FindCharIff(s, c);
      assert r[i] == s;
    } else {
      var next := if limit < 0 then limit else limit - 1;
      var rest := SplitChar(s[k + 1..], c, next);
      assert r == [s[..k]] + rest;
      if i == 0 {
        FirstPieceFree(s, c);
        assert r[i] == s[..k];
      } else {
        SplitCharPieceFree(s[k + 1..], c, next, i - 1);
        assert r[i] == rest[i - 1];
      }
    }
  }

  /** The text before the first separator holds no separator. */
  lemma FirstPieceFree(s: string, c: char)
    requires Find(s, [c]) != -1
    ensures c !in s[..Find(s, [c])]
  {
    var k := Find(s, [c]);
    if c in s[..k] {
      var j :| 0 <= j < k && s[..k][j] == c;
      assert s[j..j + 1] == [c];
      assert OccursAt(s, [c], j);
    }
  }

  /** The first piece of a split is empty only for empty text or text starting with the separator. */
  lemma SplitCharHead(s: string, c: char, limit: int)
    ensures SplitChar(s, c, limit)[0] == "" ==> s == "" || s[0] == c
    ensures s != "" && s[0] != c ==> SplitChar(s, c, limit)[0][0] == s[0]
  {
    var k := Find(s, [c]);
    if k != -1 && limit != 0 {
      assert SplitChar(s, c, limit)[0] == s[..k];
      if k == 0 {
        assert s[0..1] == [c];
      }
    }
  }

  /** A join starts with its first part when that is non-empty. */
  lemma JoinWithFirst(parts: seq<string>, c: char)
    requires |parts| >= 1 && parts[0] != ""
    ensures JoinWith(parts, c) != "" && JoinWith(parts, c)[0] == parts[0][0]
  {
  }

  /** A join ends with its last part when that is non-empty. */
  lemma {:induction false} JoinWithLast(parts: seq<string>, c: char)
    requires |parts| >= 1 && parts[|parts| - 1] != ""
    ensures JoinWith(parts, c) != ""
    ensures JoinWith(parts, c)[|JoinWith(parts, c)| - 1] == parts[|parts| - 1][|parts[|parts| - 1]| - 1]
    decreases |parts|
  {
    if |parts| > 1 {
      JoinWithLast(parts[1..], c);
    }
  }
}
