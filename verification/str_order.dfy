/**
 * Python's ordering of `str` values (code point by code point, a proper
 * prefix first) and `sorted` on a list of strings, as an insertion sort
 * whose result is ordered and a permutation of its input.
 */
module StrOrder {

  /** Python's `a <= b` on strings. */
  predicate LexLe(a: string, b: string)
    decreases |a|
  {
    a == [] || (b != [] && (a[0] < b[0] || (a[0] == b[0] && LexLe(a[1..], b[1..]))))
  }

  lemma {:induction false} LexRefl(a: string)
    ensures LexLe(a, a)
    decreases |a|
  {
    if a != [] {
      LexRefl(a[1..]);
    }
  }

  lemma {:induction false} LexTotal(a: string, b: string)
    ensures LexLe(a, b) || LexLe(b, a)
    decreases |a|
  {
    if a != [] && b != [] && a[0] == b[0] {
      LexTotal(a[1..], b[1..]);
    }
  }

  lemma {:induction false} LexTrans(a: string, b: string, c: string)
    requires LexLe(a, b) && LexLe(b, c)
    ensures LexLe(a, c)
    decreases |a|
  {
    if a != [] && a[0] == b[0] && b[0] == c[0] {
      LexTrans(a[1..], b[1..], c[1..]);
    }
  }

  lemma {:induction false} LexAntisym(a: string, b: string)
    requires LexLe(a, b) && LexLe(b, a)
    ensures a == b
    decreases |a|
  {
    if a != [] {
      LexAntisym(a[1..], b[1..]);
      assert a == [a[0]] + a[1..] && b == [b[0]] + b[1..];
    }
  }

  predicate Ordered(s: seq<string>)
  {
    forall i, j :: 0 <= i < j < |s| ==> LexLe(s[i], s[j])
  }

  function InsertStr(s: seq<string>, x: string): (r: seq<string>)
    requires Ordered(s)
    ensures Ordered(r)
    ensures multiset(r) == multiset(s) + multiset{x}
    decreases |s|
  {
    if s == [] then [x]
    else if LexLe(x, s[0]) then
      assert forall j :: 0 < j < |s| ==> LexLe(s[0], s[j]);
      LexTransAll(x, s);
      [x] + s
    else
      OrderedTail(s);
      var t := InsertStr(s[1..], x);
      LexTotal(x, s[0]);
      InsertBound(s, x, t);
      assert s == [s[0]] + s[1..];
      [s[0]] + t
  }

  /** Inserting a string at least the head into the tail keeps the head first. */
  lemma InsertBound(s: seq<string>, x: string, t: seq<string>)
    requires s != [] && Ordered(s) && LexLe(s[0], x)
    requires multiset(t) == multiset(s[1..]) + multiset{x}
    requires Ordered(t)
    ensures Ordered([s[0]] + t)
  {
    forall y | y in t
      ensures LexLe(s[0], y)
    {
      assert y in multiset(t);
      if y != x {
        assert y in multiset(s[1..]);
        var k :| 0 <= k < |s[1..]| && s[1..][k] == y;
        assert s[k + 1] == y;
      }
    }
    var u := [s[0]] + t;
    forall i, j | 0 <= i < j < |u|
      ensures LexLe(u[i], u[j])
    {
      if i == 0 {
        assert u[j] == t[j - 1] && u[j] in t;
      } else {
        assert u[i] == t[i - 1] && u[j] == t[j - 1];
      }
    }
  }

  lemma LexTransAll(x: string, s: seq<string>)
    requires s != [] && LexLe(x, s[0]) && Ordered(s)
    ensures forall j :: 0 <= j < |s| ==> LexLe(x, s[j])
  {
    forall j | 0 < j < |s|
      ensures LexLe(x, s[j])
    {
      LexTrans(x, s[0], s[j]);
    }
  }

  /** Python's `sorted(s)` on a list of strings: ordered, and the same strings as often. */
  function SortStrings(s: seq<string>): (r: seq<string>)
    ensures Ordered(r)
    ensures multiset(r) == multiset(s)
    decreases |s|
  {
    if s == [] then []
    else
      assert s == s[..|s| - 1] + [s[|s| - 1]];
      InsertStr(SortStrings(s[..|s| - 1]), s[|s| - 1])
  }

  /** The first string of an ordered list is at most every string in it. */
  lemma HeadLeast(a: seq<string>, x: string)
    requires Ordered(a) && x in a
    ensures LexLe(a[0], x)
  {
    var i :| 0 <= i < |a| && a[i] == x;
    if i == 0 {
      LexRefl(x);
    }
  }

  lemma OrderedTail(a: seq<string>)
    requires a != [] && Ordered(a)
    ensures Ordered(a[1..])
  {
    assert forall i, j :: 0 <= i < j < |a| - 1 ==> a[1..][i] == a[i + 1] && a[1..][j] == a[j + 1];
  }

  lemma SameTail(a: seq<string>, b: seq<string>)
    requires a != [] && b != [] && a[0] == b[0] && multiset(a) == multiset(b)
    ensures multiset(a[1..]) == multiset(b[1..])
  {
    assert a == [a[0]] + a[1..] && b == [b[0]] + b[1..];
    assert multiset(a) == multiset{a[0]} + multiset(a[1..]);
    assert multiset(b) == multiset{b[0]} + multiset(b[1..]);
    assert multiset(a[1..]) == multiset(a) - multiset{a[0]};
    assert multiset(b[1..]) == multiset(b) - multiset{b[0]};
  }

  /** There is only one ordered arrangement of a multiset of strings, so `sorted` is determined by its contents. */
  lemma {:induction false} OrderedUnique(a: seq<string>, b: seq<string>)
    requires Ordered(a) && Ordered(b) && multiset(a) == multiset(b)
    ensures a == b
    decreases |a|
  {
    if a != [] {
      assert |b| == |multiset(b)| == |a|;
      assert a[0] in multiset(b) && b[0] in multiset(a);
      HeadLeast(b, a[0]);
      HeadLeast(a, b[0]);
      LexAntisym(a[0], b[0]);
      SameTail(a, b);
      OrderedTail(a);
      OrderedTail(b);
      OrderedUnique(a[1..], b[1..]);
    }
  }
}
