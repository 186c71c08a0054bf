/**
 * Python's `int(text, base)` on strings and the `format` specifications the
 * scripts use for integers (`{:x}`, `{:05x}`, `{:0Nx}`, `{}`), with the
 * round trips between them.
 */
module PyInt {
  import opened Wrappers
  import opened PyStr

  /** The value of a digit character in any base up to 36; 36 for anything else. */
  function DigitVal(c: char): (d: nat)
    ensures d <= 36
    ensures d < 10 <==> IsDigit(c)
  {
    if '0' <= c <= '9' then c as int - '0' as int
    else if 'a' <= c <= 'z' then c as int - 'a' as int + 10
    else if 'A' <= c <= 'Z' then c as int - 'A' as int + 10
    else 36
  }

  /** The number written by a string of digits, most significant first. */
  function DigitsValue(s: string, base: nat): nat
  {
    if s == [] then 0 else DigitsValue(s[..|s| - 1], base) * base + DigitVal(s[|s| - 1])
  }

  function RemoveUnderscores(s: string): (r: string)
    ensures |r| <= |s|
    ensures forall i :: 0 <= i < |r| ==> r[i] != '_' && r[i] in s
  {
    if s == [] then []
    else if s[0] == '_' then RemoveUnderscores(s[1..])
    else [s[0]] + RemoveUnderscores(s[1..])
  }

  /**
   * The digit part of a literal: digits of `base`, single underscores
   * between digits, no trailing underscore, and a leading underscore only
   * right after a base prefix.
   */
  predicate WellSeparated(s: string, base: nat, afterPrefix: bool)
  {
    && |s| > 0
    && s[|s| - 1] != '_'
    && (s[0] == '_' ==> afterPrefix)
    && (forall i :: 0 <= i < |s| ==> s[i] == '_' || DigitVal(s[i]) < base)
    && (forall i :: 0 <= i < |s| - 1 ==> s[i] != '_' || s[i + 1] != '_')
  }

  predicate PrefixLetter(c: char, base: int)
  {
    (base == 16 && (c == 'x' || c == 'X'))
    || (base == 8 && (c == 'o' || c == 'O'))
    || (base == 2 && (c == 'b' || c == 'B'))
  }

  /** The base a literal is read in: `base` itself, or the one its prefix names when `base` is 0. */
  function LiteralBase(u: string, base: int): (b: int)
    ensures base != 0 ==> b == base
    ensures b == 2 || b == 8 || b == 10 || b == 16 || b == base
  {
    if base != 0 then base
    else if |u| >= 2 && u[0] == '0' && PrefixLetter(u[1], 16) then 16
    else if |u| >= 2 && u[0] == '0' && PrefixLetter(u[1], 8) then 8
    else if |u| >= 2 && u[0] == '0' && PrefixLetter(u[1], 2) then 2
    else 10
  }

  /**
   * Python's `int(text, base)` for `base` 0 or 2 to 36: surrounding
   * whitespace is ignored, one sign is allowed, base 0 takes its base from a
   * `0x`/`0o`/`0b` prefix (the base's own prefix is also accepted when the
   * base is given), and base 0 without a prefix rejects a leading zero
   * unless the value is zero.  `None` is the `ValueError` case.
   */
  function ParseInt(text: string, base: int): (r: Option<int>)
    requires base == 0 || 2 <= base <= 36
  {
    ParseSigned(Strip(text), base)
  }

  /** `int(t, base)` once the whitespace around `t` is removed: an optional sign and the unsigned part. */
  function ParseSigned(t: string, base: int): (r: Option<int>)
    requires base == 0 || 2 <= base <= 36
  {
    if |t| > 0 && t[0] == '-' then
      (match ParseUnsigned(t[1..], base) case Some(v) => Some(-v) case None => None)
    else if |t| > 0 && t[0] == '+' then ParseUnsigned(t[1..], base)
    else ParseUnsigned(t, base)
  }

  /** The unsigned part of `int(text, base)`, after whitespace and sign. */
  function ParseUnsigned(u: string, base: int): (r: Option<int>)
    requires base == 0 || 2 <= base <= 36
    ensures r.Some? ==> r.value >= 0
  {
    var b := LiteralBase(u, base);
    var prefixed := |u| >= 2 && u[0] == '0' && PrefixLetter(u[1], b);
    var body := if prefixed then u[2..] else u;
    if !WellSeparated(body, b, prefixed) then None
    else
      var v: int := DigitsValue(RemoveUnderscores(body), b);
      if base == 0 && b == 10 && body[0] == '0' && v != 0 then None
      else Some(v)
  }

  /* ---------------------------------------------------------------- */
  /* Formatting                                                        */

  function DigitChar(d: nat): (c: char)
    requires d < 16
    ensures DigitVal(c) == d && c != '_' && !IsSpace(c)
    ensures c != 'x' && c != 'X' && c != 'h' && c != 'S' && c != 's' && c != 'F' && c != '-' && c != '\''
  {
    "0123456789abcdef"[d]
  }

  /**
   * The digits of `n` in `base` (up to 16), lower case, most significant
   * first, without leading zeros: `'{:x}'`, `str()` and `'{:b}'` of a
   * non-negative number.
   */
  function DigitsOf(n: nat, base: nat): (r: string)
    requires 2 <= base <= 16
    ensures |r| >= 1
    ensures forall i :: 0 <= i < |r| ==> DigitVal(r[i]) < base && r[i] != '_' && !IsSpace(r[i])
    ensures forall i :: 0 <= i < |r| ==> r[i] != 'x' && r[i] != 'X' && r[i] != 'h' && r[i] != '\''
  {
    if n < base then [DigitChar(n)]
    else DigitsOf(n / base, base) + [DigitChar(n % base)]
  }

  /** The digits `DigitsOf` writes read back as the number, and start with a non-zero digit. */
  lemma {:induction false} DigitsOfValue(n: nat, base: nat)
    requires 2 <= base <= 16
    ensures DigitsValue(DigitsOf(n, base), base) == n
    ensures n > 0 ==> DigitsOf(n, base)[0] != '0'
    decreases n
  {
    if n >= base {
      var q := n / base;
      var d := n % base;
      DivMod(n, base);
      assert q >= 1;
      var p := DigitsOf(q, base);
      var r := p + [DigitChar(d)];
      assert DigitsOf(n, base) == r;
      assert r[..|r| - 1] == p;
      assert DigitsValue(r, base) == DigitsValue(p, base) * base + d;
      DigitsOfValue(q, base);
    }
  }

  lemma DivMod(n: nat, b: nat)
    requires b >= 2
    ensures n == (n / b) * b + n % b && 0 <= n % b < b
    ensures n >= b ==> 1 <= n / b < n
  {
  }

  function Zeros(k: int): (r: string)
    ensures |r| == if k < 0 then 0 else k
    ensures forall i :: 0 <= i < |r| ==> r[i] == '0'
  {
    if k <= 0 then "" else "0" + Zeros(k - 1)
  }

  /**
   * `'{:0<width>x}'.format(n)`: hex digits padded with zeros after the sign
   * to at least `width` characters in all.
   */
  function FormatHex(n: int, width: int): (r: string)
    ensures |r| >= width
    ensures n >= 0 ==> |r| == Max(width, |DigitsOf(n, 16)|)
    ensures n < 0 ==> |r| == 1 + Max(width - 1, |DigitsOf(-n, 16)|)
  {
    if n < 0 then "-" + ZeroPad(DigitsOf(-n, 16), width - 1) else ZeroPad(DigitsOf(n, 16), width)
  }

  /** `s` preceded by enough zeros to make it at least `width` long. */
  function ZeroPad(s: string, width: int): (r: string)
    ensures |r| == Max(width, |s|)
  {
    Zeros(width - |s|) + s
  }

  /** `str(n)` and `f"{n}"` for an integer. */
  function FormatDec(n: int): (r: string)
    ensures |r| >= 1
    ensures n >= 0 <==> r[0] != '-'
  {
    if n < 0 then "-" + DigitsOf(-n, 10) else DigitsOf(n, 10)
  }

  function Max(a: int, b: int): int { if a < b then b else a }

  /* ---------------------------------------------------------------- */
  /* Round trips                                                       */

  lemma {:induction false} DigitsValueZeros(z: string, s: string, base: nat)
    requires forall i :: 0 <= i < |z| ==> z[i] == '0'
    ensures DigitsValue(z + s, base) == DigitsValue(s, base)
    decreases |s|
  {
    if s == [] {
      assert z + s == z;
      ZerosValue(z, base);
    } else {
      assert (z + s)[..|z + s| - 1] == z + s[..|s| - 1];
      DigitsValueZeros(z, s[..|s| - 1], base);
    }
  }

  lemma {:induction false} ZerosValue(z: string, base: nat)
    requires forall i :: 0 <= i < |z| ==> z[i] == '0'
    ensures DigitsValue(z, base) == 0
    decreases |z|
  {
    if z != [] {
      ZerosValue(z[..|z| - 1], base);
    }
  }

  lemma RemoveUnderscoresNone(s: string)
    requires forall i :: 0 <= i < |s| ==> s[i] != '_'
    ensures RemoveUnderscores(s) == s
  {
  }

  /** A digit string with possible leading zeros and no separators reads back as its value. */
  lemma PaddedDigitsParse(u: string, base: int, n: int, neg: bool)
    requires 2 <= base <= 36 && |u| > 0
    requires forall i :: 0 <= i < |u| ==> DigitVal(u[i]) < base && !IsSpace(u[i]) && u[i] != '_'
    requires !(|u| >= 2 && u[0] == '0' && PrefixLetter(u[1], base))
    requires DigitsValue(u, base) == n
    ensures ParseInt(if neg then "-" + u else u, base) == Some(if neg then -n else n)
  {
    if neg {
      PaddedNegativeParse(u, base, n);
    } else {
      PaddedPlainParse(u, base, n);
    }
  }

  /** `PaddedDigitsParse` with a minus sign in front. */
  lemma PaddedNegativeParse(u: string, base: int, n: int)
    requires 2 <= base <= 36 && |u| > 0
    requires forall i :: 0 <= i < |u| ==> DigitVal(u[i]) < base && !IsSpace(u[i]) && u[i] != '_'
    requires !(|u| >= 2 && u[0] == '0' && PrefixLetter(u[1], base))
    requires DigitsValue(u, base) == n
    ensures ParseInt("-" + u, base) == Some(-n)
  {
    var text := "-" + u;
    ConsTail('-', u);
    assert ParseUnsigned(text[1..], base) == Some(n) by {
      PaddedDigitsUnsigned(u, base, n);
    }
    assert Strip(text) == text by {
      assert !IsSpace(u[|u| - 1]);
      StripNoop(text);
    }
    NegativeParse(text, base, n);
    assert ParseInt(text, base) == ParseSigned(text, base);
  }

  /** `PaddedDigitsParse` without a sign. */
  lemma PaddedPlainParse(u: string, base: int, n: int)
    requires 2 <= base <= 36 && |u| > 0
    requires forall i :: 0 <= i < |u| ==> DigitVal(u[i]) < base && !IsSpace(u[i]) && u[i] != '_'
    requires !(|u| >= 2 && u[0] == '0' && PrefixLetter(u[1], base))
    requires DigitsValue(u, base) == n
    ensures ParseInt(u, base) == Some(n)
  {
    assert ParseUnsigned(u, base) == Some(n) by {
      PaddedDigitsUnsigned(u, base, n);
    }
    assert Strip(u) == u && u[0] != '-' && u[0] != '+' by {
      assert DigitVal(u[0]) < base;
      assert !IsSpace(u[0]) && !IsSpace(u[|u| - 1]);
      StripNoop(u);
    }
    PlainParse(u, base, n);
    assert ParseInt(u, base) == ParseSigned(u, base);
  }

  lemma ConsTail<T>(x: T, s: seq<T>)
    ensures ([x] + s)[0] == x && ([x] + s)[1..] == s
  {
  }

  /** `int()` on a minus sign and an unsigned part, once stripped. */
  lemma NegativeParse(t: string, base: int, n: int)
    requires 2 <= base <= 36 && |t| > 0 && t[0] == '-'
    requires ParseUnsigned(t[1..], base) == Some(n)
    ensures ParseSigned(t, base) == Some(-n)
  {
  }

  /** `int()` on an unsigned part alone, once stripped. */
  lemma PlainParse(u: string, base: int, n: int)
    requires 2 <= base <= 36 && |u| > 0 && u[0] != '-' && u[0] != '+'
    requires ParseUnsigned(u, base) == Some(n)
    ensures ParseSigned(u, base) == Some(n)
  {
  }

  lemma PaddedDigitsUnsigned(u: string, base: int, n: int)
    requires 2 <= base <= 36 && |u| > 0
    requires forall i :: 0 <= i < |u| ==> DigitVal(u[i]) < base && u[i] != '_'
    requires !(|u| >= 2 && u[0] == '0' && PrefixLetter(u[1], base))
    requires DigitsValue(u, base) == n
    ensures ParseUnsigned(u, base) == Some(n)
  {
    assert WellSeparated(u, base, false);
    RemoveUnderscoresNone(u);
  }

  /** Reading back what `'{:0<width>x}'` wrote gives the number. */
  lemma FormatHexParse(n: int, width: int)
    ensures ParseInt(FormatHex(n, width), 16) == Some(n)
  {
    var m := if n < 0 then -n else n;
    var u := ZeroPad(DigitsOf(m, 16), if n < 0 then width - 1 else width);
    var t := if n < 0 then "-" + u else u;
    assert ParseInt(t, 16) == Some(n) by {
      PaddedHex(m, if n < 0 then width - 1 else width, u);
      PaddedDigitsParse(u, 16, m, n < 0);
    }
    assert FormatHex(n, width) == t;
  }

  /** Zero-padded hex digits of `m` are hex digits whose value is `m`. */
  lemma PaddedHex(m: nat, width: int, u: string)
    requires u == ZeroPad(DigitsOf(m, 16), width)
    ensures |u| > 0
    ensures forall i :: 0 <= i < |u| ==> DigitVal(u[i]) < 16 && !IsSpace(u[i]) && u[i] != '_'
    ensures !(|u| >= 2 && u[0] == '0' && PrefixLetter(u[1], 16))
    ensures DigitsValue(u, 16) == m
  {
    var z := Zeros(width - |DigitsOf(m, 16)|);
    DigitsOfValue(m, 16);
    DigitsValueZeros(z, DigitsOf(m, 16), 16);
    PaddedChars(z, m, 16);
  }

  lemma PaddedChars(z: string, m: nat, base: nat)
    requires 2 <= base <= 16
    requires forall i :: 0 <= i < |z| ==> z[i] == '0'
    ensures var u := z + DigitsOf(m, base);
      && (forall i :: 0 <= i < |u| ==> DigitVal(u[i]) < base && !IsSpace(u[i]) && u[i] != '_')
      && !(|u| >= 2 && u[0] == '0' && PrefixLetter(u[1], base))
  {
    var d := DigitsOf(m, base);
    var u := z + d;
    forall i | 0 <= i < |u| ensures DigitVal(u[i]) < base && !IsSpace(u[i]) && u[i] != '_' && u[i] != 'x' && u[i] != 'X' {
      if i >= |z| {
        assert u[i] == d[i - |z|];
      }
    }
    if |u| >= 2 && u[0] == '0' {
      assert DigitVal(u[1]) < base;
    }
  }

  /** Reading back what `str(n)` wrote gives the number. */
  lemma FormatDecParse(n: int)
    ensures ParseInt(FormatDec(n), 10) == Some(n)
  {
    var m := if n < 0 then -n else n;
    DigitsOfValue(m, 10);
    PaddedDigitsParse(DigitsOf(m, 10), 10, m, n < 0);
  }

  /** Hex formatting writes only a sign and hex digits. */
  lemma FormatHexShape(n: int, width: int)
    ensures |FormatHex(n, width)| >= 1
    ensures forall i :: 0 <= i < |FormatHex(n, width)| ==> FormatHex(n, width)[i] == '-' || DigitVal(FormatHex(n, width)[i]) < 16
  {
    var m := if n < 0 then -n else n;
    var d := DigitsOf(m, 16);
    var z := Zeros((if n < 0 then width - 1 else width) - |d|);
    var hex := (c: char) => c == '-' || DigitVal(c) < 16;
    ConcatAll(z, d, hex);
    if n < 0 {
      ConcatAll("-", z + d, hex);
    }
  }

  /** A property every element of two sequences has, every element of their concatenation has. */
  lemma ConcatAll<T>(a: seq<T>, b: seq<T>, p: T -> bool)
    requires forall i :: 0 <= i < |a| ==> p(a[i])
    requires forall i :: 0 <= i < |b| ==> p(b[i])
    ensures forall i :: 0 <= i < |a + b| ==> p((a + b)[i])
  {
    forall i | 0 <= i < |a + b| ensures p((a + b)[i]) {
      if i >= |a| {
        assert (a + b)[i] == b[i - |a|];
      }
    }
  }

  /** Decimal formatting writes only a sign and decimal digits. */
  lemma FormatDecShape(n: int)
    ensures forall i :: 0 <= i < |FormatDec(n)| ==> FormatDec(n)[i] == '-' || DigitVal(FormatDec(n)[i]) < 10
  {
    if n < 0 {
      var d := DigitsOf(-n, 10);
      forall i | 1 <= i < |"-" + d| ensures DigitVal(("-" + d)[i]) < 10 {
        assert ("-" + d)[i] == d[i - 1];
      }
    }
  }
}
