/**
 * Python's idiom of appending an item to a list only when the list does
 * not hold it yet: the list that results holds each accepted element once,
 * in the order of its first occurrence.
 */
module Dedup {

  /** The elements of `xs` that `keep` accepts, each once, in the order of their first occurrence. */
  function Distinct<T(==)>(xs: seq<T>, keep: T -> bool): (r: seq<T>)
    decreases |xs|
  {
    if xs == [] then []
    else
      AddOne(Distinct(xs[..|xs| - 1], keep), xs[|xs| - 1], keep)
  }

  /** One step of the idiom: `if keep(x) and x not in r: r.append(x)`. */
  function AddOne<T(==)>(r: seq<T>, x: T, keep: T -> bool): seq<T>
  {
    if keep(x) && x !in r then r + [x] else r
  }

  /** The idiom applied to each of `xs` in turn, starting from `r`. */
  function AddAll<T(==)>(r: seq<T>, xs: seq<T>, keep: T -> bool): seq<T>
    decreases |xs|
  {
    if xs == [] then r else AddAll(AddOne(r, xs[0], keep), xs[1..], keep)
  }

  /** The idiom applied to `xs[from]`, ..., `xs[to - 1]` in turn. */
  function AddRange<T(==)>(r: seq<T>, xs: seq<T>, from: nat, to: nat, keep: T -> bool): seq<T>
    requires from <= to <= |xs|
    decreases |xs| - from
  {
    if from == to then r else AddRange(AddOne(r, xs[from], keep), xs, from + 1, to, keep)
  }

  lemma {:induction false} AddRangeAll<T>(r: seq<T>, xs: seq<T>, from: nat, to: nat, keep: T -> bool)
    requires from <= to <= |xs|
    ensures AddRange(r, xs, from, to, keep) == AddAll(r, xs[from..to], keep)
    decreases |xs| - from
  {
    if from < to {
      AddRangeAll(AddOne(r, xs[from], keep), xs, from + 1, to, keep);
      assert xs[from..to][0] == xs[from] && xs[from..to][1..] == xs[from + 1..to];
    }
  }

  /** Continuing the idiom over more elements is the idiom over all of them. */
  lemma {:induction false} AddAllDistinct<T>(p: seq<T>, xs: seq<T>, keep: T -> bool)
    ensures AddAll(Distinct(p, keep), xs, keep) == Distinct(p + xs, keep)
    decreases |xs|
  {
    if xs == [] {
      assert p + xs == p;
    } else {
      assert (p + [xs[0]])[..|p|] == p;
      assert Distinct(p + [xs[0]], keep) == AddOne(Distinct(p, keep), xs[0], keep);
      AddAllDistinct(p + [xs[0]], xs[1..], keep);
      assert p + [xs[0]] + xs[1..] == p + xs;
    }
  }

  predicate NoRepeats<T(==)>(s: seq<T>)
  {
    forall i, j :: 0 <= i < j < |s| ==> s[i] != s[j]
  }

  /** The position of the first occurrence of `x`. */
  function FirstIndex<T(==)>(s: seq<T>, x: T): (k: nat)
    requires x in s
    ensures k < |s| && s[k] == x
    ensures forall j :: 0 <= j < k ==> s[j] != x
  {
    if s[0] == x then 0 else 1 + FirstIndex(s[1..], x)
  }

  lemma {:induction false} FirstIndexSnoc<T>(s: seq<T>, x: T, y: T)
    requires y in s
    ensures FirstIndex(s + [x], y) == FirstIndex(s, y)
  {
    var k := FirstIndex(s, y);
    var t := s + [x];
    assert t[k] == y;
    assert forall j :: 0 <= j < k ==> t[j] == s[j];
    FirstIndexAt(t, y, k);
  }

  lemma FirstIndexAt<T>(s: seq<T>, x: T, k: nat)
    requires k < |s| && s[k] == x && forall j :: 0 <= j < k ==> s[j] != x
    ensures FirstIndex(s, x) == k
  {
    var f := FirstIndex(s, x);
    assert !(f < k) && !(k < f);
  }

  /** The elements of `r` all occur in `xs` and come in the order of their first occurrence there. */
  predicate InFirstOrder<T(==)>(r: seq<T>, xs: seq<T>)
  {
    forall i, j :: 0 <= i < j < |r| ==> r[i] in xs && r[j] in xs && FirstIndex(xs, r[i]) < FirstIndex(xs, r[j])
  }

  /** An element is listed exactly when it occurs and is accepted; none twice; in first-occurrence order. */
  lemma DistinctSpec<T>(xs: seq<T>, keep: T -> bool)
    ensures forall x :: x in Distinct(xs, keep) <==> x in xs && keep(x)
    ensures NoRepeats(Distinct(xs, keep))
    ensures InFirstOrder(Distinct(xs, keep), xs)
  {
    DistinctMembers(xs, keep);
    DistinctOrder(xs, keep);
  }

  lemma {:induction false} DistinctMembers<T>(xs: seq<T>, keep: T -> bool)
    ensures forall x :: x in Distinct(xs, keep) <==> x in xs && keep(x)
    ensures NoRepeats(Distinct(xs, keep))
    decreases |xs|
  {
    if xs != [] {
      var init := xs[..|xs| - 1];
      var x := xs[|xs| - 1];
      DistinctMembers(init, keep);
      assert Distinct(xs, keep) == AddOne(Distinct(init, keep), x, keep);
      assert xs == init + [x];
    }
  }

  lemma {:induction false} DistinctOrder<T>(xs: seq<T>, keep: T -> bool)
    ensures InFirstOrder(Distinct(xs, keep), xs)
    decreases |xs|
  {
    if xs != [] {
      var init := xs[..|xs| - 1];
      var x := xs[|xs| - 1];
      var r := Distinct(init, keep);
      DistinctOrder(init, keep);
      DistinctMembers(init, keep);
      assert Distinct(xs, keep) == AddOne(r, x, keep);
      assert xs == init + [x];
      forall y | y in r
        ensures FirstIndex(xs, y) == FirstIndex(init, y)
      {
        FirstIndexSnoc(init, x, y);
      }
      if keep(x) && x !in r {
        var q := r + [x];
        FirstIndexAt(xs, x, |init|);
        forall i, j | 0 <= i < j < |q|
          ensures q[i] in xs && q[j] in xs && FirstIndex(xs, q[i]) < FirstIndex(xs, q[j])
        {
          assert q[i] == r[i] && q[i] in r;
          if j < |r| {
            assert q[j] == r[j] && q[j] in r;
          }
        }
      }
    }
  }

  /** A rearrangement of a list without repeats has none either. */
  lemma PermutedNoRepeats<T>(s: seq<T>, r: seq<T>)
    requires NoRepeats(s) && multiset(r) == multiset(s)
    ensures NoRepeats(r)
  {
    forall i, j | 0 <= i < j < |r|
      ensures r[i] != r[j]
    {
      if r[i] == r[j] {
        RepeatTwice(r, i, j);
        DistinctOnce(s, r[j]);
      }
    }
  }

  lemma RepeatTwice<T>(r: seq<T>, i: nat, j: nat)
    requires i < j < |r| && r[i] == r[j]
    ensures multiset(r)[r[j]] >= 2
  {
    var x := r[j];
    assert r == r[..j] + [x] + r[j + 1..];
    assert r[..j][i] == x;
    assert multiset(r[..j])[x] >= 1;
    assert multiset(r) == multiset(r[..j]) + multiset{x} + multiset(r[j + 1..]);
  }

  lemma {:induction false} DistinctOnce<T>(s: seq<T>, x: T)
    requires NoRepeats(s)
    ensures multiset(s)[x] <= 1
    decreases |s|
  {
    if s != [] {
      var t := s[1..];
      assert s == [s[0]] + t;
      assert NoRepeats(t) by {
        assert forall i, j :: 0 <= i < j < |t| ==> t[i] == s[i + 1] && t[j] == s[j + 1];
      }
      DistinctOnce(t, x);
      if s[0] == x {
        assert x !in t by {
          assert forall i :: 0 <= i < |t| ==> t[i] == s[i + 1];
        }
      }
    }
  }
}
