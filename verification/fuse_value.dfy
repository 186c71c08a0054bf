/**
 * Field values and names as the fuse tools read them from fusegen XML,
 * override files and patch inputs (`process_value` and `fixupFuseName` in
 * bin/fusegen-tools.py).
 */
module FuseValue {
  import opened Wrappers
  import opened PyStr
  import opened PyInt

  /**
   * The radix rules of `process_value`, tried in order: a `0x` prefix, a
   * leading `x`, an `h` at either end, a `b` at either end, a `d` at either
   * end, all decimal digits; otherwise base 0, which lets `int()` read a
   * Python prefix.  The marker letters are stripped from both ends.
   */
  function Radix(t: string): (r: (string, int))
    ensures r.1 in {0, 2, 10, 16}
    ensures |r.0| <= |t|
  {
    if StartsWith(t, "0x") then (t[2..], 16)
    else if StartsWith(t, "x") then (StripChar(t, 'x'), 16)
    else if EndsWith(t, "h") || StartsWith(t, "h") then (StripChar(t, 'h'), 16)
    else if EndsWith(t, "b") || StartsWith(t, "b") then (StripChar(t, 'b'), 2)
    else if EndsWith(t, "d") || StartsWith(t, "d") then (StripChar(t, 'd'), 10)
    else if IsDigitStr(t) then (t, 10)
    else (t, 0)
  }

  /**
   * The text `process_value` hands to the radix rules: underscores removed,
   * then the rest of `Unwrap`.
   */
  function Normalize(text: string): (r: Option<string>)
    ensures r.Some? ==> '\'' !in r.value && '_' !in r.value
  {
    RemoveCharIn(text, '_');
    Unwrap(ReplaceAll(text, "_", ""))
  }

  /**
   * One pair of surrounding braces dropped, and of a sized literal such as
   * `5'b10111` only the part after the first quote (up to a second one).
   * `None` when there is no character at all, where the script indexes past
   * the end.
   */
  function Unwrap(t0: string): (r: Option<string>)
    ensures r.None? <==> t0 == ""
    ensures r.Some? ==> '\'' !in r.value
    ensures r.Some? && '_' !in t0 ==> '_' !in r.value
  {
    if |t0| == 0 then None
    else
      var t1 := if t0[0] == '{' && t0[|t0| - 1] == '}' then t0[1..|t0| - 1] else t0;
      var t2 := if Contains(t1, "'") then SplitChar(t1, '\'', -1)[1] else t1;
      QuoteFree(t1);
      Some(t2)
  }

  /**
   * `process_value(text)`: the integer a field value denotes.  `None` in the
   * XML and the words "None" and "0/0/0" read as 0, as do the placeholders
   * "S", "s", "-" and an "F" not read as hex.
   */
  function ProcessValue(text: Option<string>): (r: Result<int>)
    ensures r.Err? ==> r.fault == IndexError || (text.Some? && r.fault == CannotParse(text.value))
  {
    if text == Some("0/0/0") then Ok(0)
    else if text.None? || text.value == "None" then Ok(0)
    else
      match Normalize(text.value)
      case None => Err(IndexError)
      case Some(t) =>
        var (digits, base) := Radix(t);
        ReadDigits(digits, base, text.value)
  }

  /** What `process_value` makes of the digits and base the radix rules chose; `text` is named in the error. */
  function ReadDigits(digits: string, base: int, text: string): (r: Result<int>)
    requires base in {0, 2, 10, 16}
    ensures r.Err? ==> r.fault == CannotParse(text)
  {
    if digits == "S" || digits == "s" then Ok(0)
    else if digits == "F" && base != 16 then Ok(0)
    else if digits == "-" then Ok(0)
    else if digits == "'1" then Ok(1)
    else
      match ParseInt(digits, base)
      case Some(v) => Ok(v)
      case None => Err(CannotParse(text))
  }

  /** The original text only names the error. */
  lemma ReadDigitsText(digits: string, base: int, t: string, u: string)
    requires base in {0, 2, 10, 16}
    ensures ReadDigits(digits, base, t).Ok? <==> ReadDigits(digits, base, u).Ok?
    ensures ReadDigits(digits, base, t).Ok? ==> ReadDigits(digits, base, t) == ReadDigits(digits, base, u)
  {
  }

  /* ---------------------------------------------------------------- */

  /** The piece a sized literal keeps holds no quote, and nothing `t` lacks. */
  lemma QuoteFree(t: string)
    ensures var u := if Contains(t, "'") then SplitChar(t, '\'', -1)[1] else t;
      '\'' !in u && ('_' !in t ==> '_' !in u)
  {
    FindCharIff(t, '\'');
    if Contains(t, "'") {
      var u := SplitChar(t, '\'', -1)[1];
      forall x | x in u ensures x != '\'' && x in t {
        SplitCharPieceIn(t, '\'', -1, 1, x);
      }
    }
  }

  /** Removing every `c` leaves nothing exactly when the text is all `c`. */
  lemma {:induction false} RemoveAllEmpty(s: string, c: char)
    ensures ReplaceAll(s, [c], "") == [] <==> forall i :: 0 <= i < |s| ==> s[i] == c
    decreases |s|
  {
    if |s| >= 1 {
      RemoveAllEmpty(s[1..], c);
      if s[0] == c {
        assert forall i :: 1 <= i < |s| ==> s[i] == s[1..][i - 1];
      }
    }
  }

  /** Text with no underscore, no quote and no opening brace is read as it stands. */
  lemma NormalizePlain(t: string)
    requires |t| > 0 && t[0] != '{'
    requires forall i :: 0 <= i < |t| ==> t[i] != '_' && t[i] != '\''
    ensures Normalize(t) == Some(t)
  {
    FindCharIff(t, '_');
    ReplaceAllNoop(t, "_", "");
    FindCharIff(t, '\'');
  }

  /** Of a sized literal only the part after the quote is read. */
  lemma NormalizeSized(wd: string, rest: string)
    requires |wd| > 0 && wd[0] != '{'
    requires forall i :: 0 <= i < |wd| ==> wd[i] != '_' && wd[i] != '\''
    requires forall i :: 0 <= i < |rest| ==> rest[i] != '_' && rest[i] != '\''
    ensures Normalize(wd + "'" + rest) == Some(rest)
  {
    var t := wd + "'" + rest;
    forall i | 0 <= i < |t| ensures t[i] != '_' {
      if i < |wd| { assert t[i] == wd[i]; }
      else if i > |wd| { assert t[i] == rest[i - |wd| - 1]; }
    }
    FindCharIff(t, '_');
    ReplaceAllNoop(t, "_", "");
    assert t[|wd|] == '\'';
    FindCharIff(t, '\'');
    SplitCharCons(wd, '\'', rest, -1);
    SplitCharNone(rest, '\'', -1);
    assert t[0] == wd[0];
  }

  /** What the radix rules keep is a part of what they are given. */
  lemma RadixIn(u: string, x: char)
    requires x in Radix(u).0
    ensures x in u
  {
    if StartsWith(u, "0x") {
    } else if StartsWith(u, "x") {
      StripCharIn(u, 'x', x);
    } else if EndsWith(u, "h") || StartsWith(u, "h") {
      StripCharIn(u, 'h', x);
    } else if EndsWith(u, "b") || StartsWith(u, "b") {
      StripCharIn(u, 'b', x);
    } else if EndsWith(u, "d") || StartsWith(u, "d") {
      StripCharIn(u, 'd', x);
    }
  }

  /** The last two radix rules: plain digits are decimal, anything else leaves the base to `int`. */
  lemma RadixLast(u: string)
    requires !StartsWith(u, "0x") && !StartsWith(u, "x")
    requires !EndsWith(u, "h") && !StartsWith(u, "h")
    requires !EndsWith(u, "b") && !StartsWith(u, "b")
    requires !EndsWith(u, "d") && !StartsWith(u, "d")
    ensures Radix(u) == (u, if IsDigitStr(u) then 10 else 0)
  {
  }

  /** A one-character placeholder meets no radix rule. */
  lemma RadixOther(t: string)
    requires t == "S" || t == "s" || t == "-" || t == "F"
    ensures Radix(t) == (t, 0)
  {
    Ends(t, t[0], t[0]);
    assert !IsDigit(t[0]);
    RadixLast(t);
  }

  /** Plain decimal digits meet only the digit rule. */
  lemma RadixDigits(s: string)
    requires IsDigitStr(s)
    ensures Radix(s) == (s, 10)
  {
    assert IsDigit(s[0]) && IsDigit(s[|s| - 1]);
    Ends(s, s[0], s[|s| - 1]);
    assert |s| >= 2 ==> IsDigit(s[1]);
    RadixLast(s);
  }

  /** `process_value` once the normalised text and its radix are known. */
  lemma ReadAs(t: string, digits: string, base: int, v: int)
    requires t != "0/0/0" && t != "None"
    requires Normalize(t).Some? && Radix(Normalize(t).value) == (digits, base)
    requires digits != "S" && digits != "s" && digits != "-" && (digits == "F" ==> base == 16)
    requires ParseInt(digits, base) == Some(v)
    ensures ProcessValue(Some(t)) == Ok(v)
  {
    QuoteOneUnreachable(t);
  }

  /** The check for the text `'1` never fires: by then every quote has been cut away. */
  lemma QuoteOneUnreachable(t: string)
    ensures Normalize(t).Some? ==> Radix(Normalize(t).value).0 != "'1"
  {
    if Normalize(t).Some? {
      var u := Normalize(t).value;
      if '\'' in Radix(u).0 {
        RadixIn(u, '\'');
      }
      assert '\'' in "'1";
    }
  }

  /* ---------------------------------------------------------------- */
  /* What process_value reads                                          */

  /** The placeholders read as 0 (an `F` only where it is not a hex digit). */
  lemma PlaceholdersReadZero(t: string)
    requires t in {"0/0/0", "None", "S", "s", "-", "F"}
    ensures ProcessValue(Some(t)) == Ok(0)
    ensures ProcessValue(None) == Ok(0)
  {
    if t != "0/0/0" && t != "None" {
      NormalizePlain(t);
      RadixOther(t);
    }
  }

  /** Only text made of underscores alone (or nothing) makes the script index past the end. */
  lemma IndexErrorExactly(t: string)
    ensures ProcessValue(Some(t)) == Err(IndexError) <==> forall i :: 0 <= i < |t| ==> t[i] == '_'
  {
    RemoveAllEmpty(t, '_');
    assert t == "0/0/0" ==> t[0] != '_';
    assert t == "None" ==> t[0] != '_';
  }

  /** Underscores are ignored: texts that agree once they are removed read alike. */
  lemma UnderscoresIgnored(t: string, u: string)
    requires ReplaceAll(t, "_", "") == ReplaceAll(u, "_", "")
    requires t != "0/0/0" && t != "None" && u != "0/0/0" && u != "None"
    ensures ProcessValue(Some(t)).Ok? <==> ProcessValue(Some(u)).Ok?
    ensures ProcessValue(Some(t)).Ok? ==> ProcessValue(Some(t)).value == ProcessValue(Some(u)).value
  {
    var n := Normalize(t);
    assert n == Normalize(u);
    if n.Some? {
      var (digits, base) := Radix(n.value);
      ReadDigitsText(digits, base, t, u);
    }
  }

  /** The digits of `n` in base 16, 10 or 2 with the facts the radix rules look at. */
  lemma DigitsFacts(n: nat, base: nat)
    requires base == 16 || base == 10 || base == 2
    ensures var d := DigitsOf(n, base);
      && (forall i :: 0 <= i < |d| ==> DigitVal(d[i]) < base && !IsSpace(d[i]) && d[i] != '_' && d[i] != '\'')
      && d[0] != '{' && d[0] != 'x' && d[0] != 'h' && d[|d| - 1] != 'h'
      && (base != 16 ==> d[0] != 'b' && d[|d| - 1] != 'b' && d[0] != 'd' && d[|d| - 1] != 'd')
      && d != "S" && d != "s" && d != "-" && (d == "F" ==> base == 16)
      && !(|d| >= 2 && d[0] == '0' && PrefixLetter(d[1], base))
      && DigitsValue(d, base) == n
  {
    var d := DigitsOf(n, base);
    assert DigitVal(d[|d| - 1]) < base && DigitVal(d[0]) < base;
    assert |d| >= 2 ==> DigitVal(d[1]) < base;
    DigitsOfValue(n, base);
  }

  /** `0x` followed by the hex digits of `n` reads as `n`. */
  lemma HexPrefixed(n: nat)
    ensures ProcessValue(Some("0x" + DigitsOf(n, 16))) == Ok(n)
  {
    HexNormal(n);
    DigitsParse(n, 16);
    ReadAs("0x" + DigitsOf(n, 16), DigitsOf(n, 16), 16, n);
  }

  /** `0x` followed by hex digits is already normal and selects base 16. */
  lemma HexNormal(n: nat)
    ensures var d := DigitsOf(n, 16);
      Normalize("0x" + d) == Some("0x" + d) && Radix("0x" + d) == (d, 16) && d != "S" && d != "s" && d != "-" &&
      "0x" + d != "0/0/0" && "0x" + d != "None"
  {
    var d := DigitsOf(n, 16);
    var t := "0x" + d;
    DigitsFacts(n, 16);
    forall i | 0 <= i < |t| ensures t[i] != '_' && t[i] != '\'' {
      if i >= 2 { assert t[i] == d[i - 2]; }
    }
    NormalizePlain(t);
    assert t[2..] == d;
    assert t[1] == 'x' && t[0] == '0';
  }

  /** The digits of `n` in base 16, 10 or 2 read back as `n`. */
  lemma DigitsParse(n: nat, base: nat)
    requires base == 16 || base == 10 || base == 2
    ensures ParseInt(DigitsOf(n, base), base) == Some(n)
  {
    DigitsFacts(n, base);
    PaddedDigitsParse(DigitsOf(n, base), base, n, false);
  }

  lemma Assoc(a: string, b: string, c: string)
    ensures a + b + c == a + (b + c)
  {
  }

  /** A marker letter and the base it selects: `h` hex, `b` binary, `d` decimal. */
  predicate Marker(letter: char, base: nat)
  {
    (letter == 'h' && base == 16) || (letter == 'b' && base == 2) || (letter == 'd' && base == 10)
  }

  /** The radix rule a marker selects, once the earlier rules are known not to apply. */
  lemma RadixMarked(u: string, letter: char, base: nat)
    requires Marker(letter, base)
    requires !StartsWith(u, "0x") && !StartsWith(u, "x")
    requires EndsWith(u, [letter]) || StartsWith(u, [letter])
    requires letter != 'h' ==> !EndsWith(u, "h") && !StartsWith(u, "h")
    requires letter == 'd' ==> !EndsWith(u, "b") && !StartsWith(u, "b")
    ensures Radix(u) == (StripChar(u, letter), base)
  {
    if letter == 'h' {
      assert EndsWith(u, "h") || StartsWith(u, "h");
    } else if letter == 'b' {
      assert EndsWith(u, "b") || StartsWith(u, "b");
    } else {
      assert EndsWith(u, "d") || StartsWith(u, "d");
    }
  }

  /** Text whose first and last characters are given. */
  lemma Ends(u: string, first: char, last: char)
    requires |u| >= 1 && u[0] == first && u[|u| - 1] == last
    ensures forall c :: StartsWith(u, [c]) <==> c == first
    ensures forall c :: EndsWith(u, [c]) <==> c == last
    ensures StartsWith(u, "0x") ==> first == '0' && |u| >= 2 && u[1] == 'x'
  {
    forall c ensures StartsWith(u, [c]) <==> c == first {
      assert u[..1] == [u[0]];
    }
    forall c ensures EndsWith(u, [c]) <==> c == last {
      assert u[|u| - 1..] == [u[|u| - 1]];
    }
    if StartsWith(u, "0x") {
      assert u[..2][0] == u[0] && u[..2][1] == u[1];
    }
  }

  /** The radix rules on a marker letter in front of digits in its base. */
  lemma RadixMarkedPrefix(n: nat, letter: char, base: nat)
    requires Marker(letter, base)
    ensures Radix([letter] + DigitsOf(n, base)) == (DigitsOf(n, base), base)
  {
    MarkedPrefixStripped(n, letter, base);
    MarkedPrefixEnds(n, letter, base);
    RadixMarked([letter] + DigitsOf(n, base), letter, base);
  }

  /** Removing a marker letter from in front of digits in its base leaves the digits. */
  lemma MarkedPrefixStripped(n: nat, letter: char, base: nat)
    requires Marker(letter, base)
    ensures StripChar([letter] + DigitsOf(n, base), letter) == DigitsOf(n, base)
  {
    var d := DigitsOf(n, base);
    DigitsFacts(n, base);
    forall i | 0 <= i < |d| ensures d[i] != letter {
      assert DigitVal(d[i]) < base;
    }
    StripCharRuns([letter], d, "", letter);
    assert [letter] + d + "" == [letter] + d;
  }

  /** A marker letter in front of digits in its base escapes the earlier radix rules. */
  lemma MarkedPrefixEnds(n: nat, letter: char, base: nat)
    requires Marker(letter, base)
    ensures var u := [letter] + DigitsOf(n, base);
      && !StartsWith(u, "0x") && !StartsWith(u, "x") && StartsWith(u, [letter])
      && (letter != 'h' ==> !EndsWith(u, "h") && !StartsWith(u, "h"))
      && (letter == 'd' ==> !EndsWith(u, "b") && !StartsWith(u, "b"))
  {
    var d := DigitsOf(n, base);
    DigitsFacts(n, base);
    Ends([letter] + d, letter, d[|d| - 1]);
  }

  /** The radix rules on digits followed by their marker letter. */
  lemma RadixMarkedSuffix(n: nat, letter: char, base: nat)
    requires Marker(letter, base)
    ensures Radix(DigitsOf(n, base) + [letter]) == (DigitsOf(n, base), base)
  {
    var d := DigitsOf(n, base);
    var u := d + [letter];
    assert StripChar(u, letter) == d by {
      forall i | 0 <= i < |d| ensures d[i] != letter {
        assert DigitVal(d[i]) < base;
      }
      StripCharRuns("", d, [letter], letter);
      assert "" + d + [letter] == u;
    }
    assert !StartsWith(u, "0x") && !StartsWith(u, "x") && !StartsWith(u, [letter])
        && (forall c :: StartsWith(u, [c]) ==> DigitVal(c) < base) && EndsWith(u, [letter]) by {
      DigitsFacts(n, base);
      Ends(u, d[0], letter);
      assert u[0] == d[0];
      assert |d| >= 2 ==> u[1] == d[1] && DigitVal(d[1]) < base;
    }
    RadixMarked(u, letter, base);
  }

  /**
   * A sized literal in the style of `5'b10111` or `16'h7c`: the width in
   * front of the quote is dropped and the digits after the marker are read
   * in the marker's base.
   */
  lemma SizedLiteral(w: nat, n: nat, letter: char, base: nat)
    requires Marker(letter, base)
    ensures ProcessValue(Some(DigitsOf(w, 10) + "'" + [letter] + DigitsOf(n, base))) == Ok(n)
  {
    var wd, d := DigitsOf(w, 10), DigitsOf(n, base);
    SizedLiteralParts(w, n, letter, base);
    ReadAs(wd + "'" + ([letter] + d), d, base, n);
    Assoc(wd + "'", [letter], d);
  }

  /** The steps of `process_value` on a sized literal, up to the final read. */
  lemma SizedLiteralParts(w: nat, n: nat, letter: char, base: nat)
    requires Marker(letter, base)
    ensures var d := DigitsOf(n, base);
      var rest := [letter] + d;
      var t := DigitsOf(w, 10) + "'" + rest;
      && t != "0/0/0" && t != "None" && Normalize(t) == Some(rest) && Radix(rest) == (d, base)
      && d != "S" && d != "s" && d != "-" && (d == "F" ==> base == 16) && ParseInt(d, base) == Some(n)
  {
    var wd := DigitsOf(w, 10);
    var d := DigitsOf(n, base);
    var t := wd + "'" + ([letter] + d);
    SizedNormal(w, n, letter, base);
    RadixMarkedPrefix(n, letter, base);
    DigitsFacts(n, base);
    DigitsParse(n, base);
    assert t[|wd|] == '\'';
    QuotedNotPlaceholder(t, |wd|);
  }

  /** A sized literal normalises to its marker letter and digits. */
  lemma SizedNormal(w: nat, n: nat, letter: char, base: nat)
    requires Marker(letter, base)
    ensures Normalize(DigitsOf(w, 10) + "'" + ([letter] + DigitsOf(n, base))) == Some([letter] + DigitsOf(n, base))
  {
    var wd := DigitsOf(w, 10);
    var d := DigitsOf(n, base);
    var rest := [letter] + d;
    DigitsFacts(w, 10);
    DigitsFacts(n, base);
    ConcatAll([letter], d, (c: char) => c != '_' && c != '\'');
    NormalizeSized(wd, rest);
  }

  /** Text holding a quote is neither of the words that read as 0. */
  lemma QuotedNotPlaceholder(t: string, k: nat)
    requires k < |t| && t[k] == '\''
    ensures t != "0/0/0" && t != "None"
  {
  }

  /** Digits followed by a marker letter (`1fh`, `101b`, `99d`) are read in the marker's base. */
  lemma MarkedSuffix(n: nat, letter: char, base: nat)
    requires Marker(letter, base)
    ensures ProcessValue(Some(DigitsOf(n, base) + [letter])) == Ok(n)
  {
    var d := DigitsOf(n, base);
    var t := d + [letter];
    assert Normalize(t) == Some(t) by {
      DigitsFacts(n, base);
      forall i | 0 <= i < |t| ensures t[i] != '_' && t[i] != '\'' {
        if i < |d| { assert t[i] == d[i]; }
      }
      assert t[0] == d[0];
      NormalizePlain(t);
    }
    assert Radix(t) == (d, base) by {
      RadixMarkedSuffix(n, letter, base);
    }
    assert ParseInt(d, base) == Some(n) && d != "S" && d != "s" && d != "-" && (d == "F" ==> base == 16) by {
      DigitsFacts(n, base);
      PaddedDigitsParse(d, base, n, false);
    }
    assert t != "0/0/0" && t != "None" by {
      assert t[|t| - 1] == letter;
    }
    ReadAs(t, d, base, n);
  }

  /** Plain decimal digits are read in base 10, leading zeros included. */
  lemma DecimalDigits(s: string)
    requires IsDigitStr(s)
    ensures ProcessValue(Some(s)) == Ok(DigitsValue(s, 10))
  {
    DecimalDigitsParts(s);
    ReadAs(s, s, 10, DigitsValue(s, 10));
  }

  /** The steps of `process_value` on plain decimal digits, up to the final read. */
  lemma DecimalDigitsParts(s: string)
    requires IsDigitStr(s)
    ensures s != "0/0/0" && s != "None" && s != "S" && s != "s" && s != "-" && s != "F"
    ensures Normalize(s) == Some(s) && Radix(s) == (s, 10) && ParseInt(s, 10) == Some(DigitsValue(s, 10))
  {
    DigitsNotWord(s);
    DigitsNormal(s);
    RadixDigits(s);
    DigitsParse10(s);
  }

  /** Decimal digits are none of the words `process_value` reads specially. */
  lemma DigitsNotWord(s: string)
    requires IsDigitStr(s)
    ensures s != "0/0/0" && s != "None" && s != "S" && s != "s" && s != "-" && s != "F"
  {
    assert IsDigit(s[0]);
    assert |s| >= 2 ==> IsDigit(s[1]);
  }

  /** Decimal digits are already normal. */
  lemma DigitsNormal(s: string)
    requires IsDigitStr(s)
    ensures Normalize(s) == Some(s)
  {
    forall i | 0 <= i < |s| ensures s[i] != '_' && s[i] != '\'' {
      assert IsDigit(s[i]);
    }
    assert s[0] != '{' by { assert IsDigit(s[0]); }
    NormalizePlain(s);
  }

  /** Decimal digits parse in base 10 as their value. */
  lemma DigitsParse10(s: string)
    requires IsDigitStr(s)
    ensures ParseInt(s, 10) == Some(DigitsValue(s, 10))
  {
    forall i | 0 <= i < |s| ensures DigitVal(s[i]) < 10 && !IsSpace(s[i]) && s[i] != '_' {
      assert IsDigit(s[i]);
    }
    assert |s| >= 2 ==> IsDigit(s[1]);
    PaddedDigitsParse(s, 10, DigitsValue(s, 10), false);
  }

  /* ---------------------------------------------------------------- */
  /* Fuse names                                                        */

  /** The characters `fixupFuseName` turns into underscores. */
  const NameBadChars: string := " /-():[]#."

  /** `s.replace(c, "_")` for each `c` of `cs` in turn. */
  function ReplaceEach(s: string, cs: string): string
    decreases |cs|
  {
    if cs == [] then s else ReplaceEach(ReplaceAll(s, [cs[0]], "_"), cs[1..])
  }

  /** Position by position: a character of `cs` becomes `_`, anything else stays. */
  function Sanitize(s: string, cs: string): (r: string)
    ensures |r| == |s|
    ensures forall i :: 0 <= i < |s| ==> r[i] == if s[i] in cs then '_' else s[i]
  {
    seq(|s|, i requires 0 <= i < |s| => if s[i] in cs then '_' else s[i])
  }

  /** The sequential replacements amount to the position-by-position map. */
  lemma {:induction false} ReplaceEachSanitizes(s: string, cs: string)
    ensures ReplaceEach(s, cs) == Sanitize(s, cs)
    decreases |cs|
  {
    if cs != [] {
      var c := cs[0];
      var m := ReplaceAll(s, [c], "_");
      ReplaceAllChar(s, c, '_');
      ReplaceEachSanitizes(m, cs[1..]);
      forall i | 0 <= i < |s| ensures Sanitize(m, cs[1..])[i] == Sanitize(s, cs)[i] {
        assert s[i] in cs <==> s[i] == c || s[i] in cs[1..];
      }
    }
  }

  /**
   * `fixupFuseName(name)`: every character of `NameBadChars` becomes `_`,
   * and a name that then starts with a digit gets a leading `_`.  An empty
   * name makes the script index past its end.
   */
  function FixupFuseName(name: string): (r: Result<string>)
    ensures r.Err? <==> name == ""
    ensures r.Err? ==> r.fault == IndexError
    ensures r.Ok? ==> r.value == (if IsDigit(name[0]) then "_" else "") + Sanitize(name, NameBadChars)
  {
    var t := ReplaceEach(name, NameBadChars);
    ReplaceEachSanitizes(name, NameBadChars);
    if |t| == 0 then Err(IndexError)
    else if IsDigit(t[0]) then Ok("_" + t)
    else Ok(t)
  }

  /** Whatever the replaced characters, once `_` is not among them, none survives the map. */
  lemma SanitizeClean(s: string, cs: string)
    requires '_' !in cs
    ensures forall i :: 0 <= i < |s| ==> Sanitize(s, cs)[i] !in cs
    ensures forall i :: 0 <= i < |s| ==> (IsDigit(Sanitize(s, cs)[i]) ==> Sanitize(s, cs)[i] == s[i])
  {
  }

  lemma UnderscoreNotBad()
    ensures '_' !in NameBadChars
  {
  }

  /** A leading `_` in front of text free of `cs` keeps it free of `cs`. */
  lemma PrefixClean(z: string, cs: string)
    requires '_' !in cs
    requires forall i :: 0 <= i < |z| ==> z[i] !in cs
    ensures forall i :: 0 <= i < |z| + 1 ==> ("_" + z)[i] !in cs
  {
    forall i | 0 <= i < |z| + 1 ensures ("_" + z)[i] !in cs {
      if i > 0 { assert ("_" + z)[i] == z[i - 1]; }
    }
  }

  /** A name as `fixupFuseName` leaves it: not empty, no replaced character, no leading digit. */
  predicate CleanName(t: string)
  {
    |t| > 0 && !IsDigit(t[0]) && forall i :: 0 <= i < |t| ==> t[i] !in NameBadChars
  }

  /** A fixed-up name holds none of the replaced characters and does not start with a digit. */
  lemma FixupFuseNameClean(name: string)
    requires name != ""
    ensures var t := FixupFuseName(name).value;
      && |t| > 0 && !IsDigit(t[0])
      && (forall i :: 0 <= i < |t| ==> t[i] !in NameBadChars)
      && |name| <= |t| <= |name| + 1
  {
    var t := FixupFuseName(name).value;
    var z := Sanitize(name, NameBadChars);
    UnderscoreNotBad();
    SanitizeClean(name, NameBadChars);
    if IsDigit(name[0]) {
      assert t == "_" + z;
      PrefixClean(z, NameBadChars);
    } else {
      assert t == z by {
        assert "" + z == z;
      }
    }
  }

  /** Fixing up a fixed-up name changes nothing. */
  lemma FixupFuseNameIdempotent(name: string)
    requires name != ""
    ensures FixupFuseName(FixupFuseName(name).value) == FixupFuseName(name)
  {
    var t := FixupFuseName(name).value;
    FixupFuseNameClean(name);
    var z := Sanitize(t, NameBadChars);
    assert z == t by {
      forall i | 0 <= i < |t| ensures z[i] == t[i] {
        assert t[i] !in NameBadChars;
      }
    }
    var r := FixupFuseName(t);
    assert r.Ok? && !IsDigit(t[0]);
    assert r.value == "" + z;
    assert "" + z == t;
  }
}
