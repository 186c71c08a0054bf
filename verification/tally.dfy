/**
 * Counting and filtering over sequences, in the order a Python `for` loop
 * visits them: both are defined from the end, so that a loop over `s[..i]`
 * extends them by one element per iteration.
 */
module Tally {
  import opened Sorting

  /** How many elements of `s` satisfy `p`. */
  function Count<T>(s: seq<T>, p: T -> bool): (n: nat)
    ensures n <= |s|
    ensures n == 0 <==> forall i :: 0 <= i < |s| ==> !p(s[i])
  {
    if s == [] then 0
    else
      var n := Count(s[..|s| - 1], p) + (if p(s[|s| - 1]) then 1 else 0);
      assert forall i :: 0 <= i < |s| - 1 ==> s[..|s| - 1][i] == s[i];
      n
  }

  /** The elements of `s` that satisfy `p`, in their order in `s`. */
  function Filter<T>(s: seq<T>, p: T -> bool): (r: seq<T>)
    ensures |r| == Count(s, p)
  {
    if s == [] then []
    else
      Filter(s[..|s| - 1], p) + (if p(s[|s| - 1]) then [s[|s| - 1]] else [])
  }

  /** An element is kept exactly when it occurs in `s` and satisfies `p`. */
  lemma {:induction false} FilterMembers<T>(s: seq<T>, p: T -> bool)
    ensures forall i :: 0 <= i < |Filter(s, p)| ==> Filter(s, p)[i] in s && p(Filter(s, p)[i])
    ensures forall i :: 0 <= i < |s| && p(s[i]) ==> s[i] in Filter(s, p)
    decreases |s|
  {
    if s != [] {
      assert s == s[..|s| - 1] + [s[|s| - 1]];
      FilterMembers(s[..|s| - 1], p);
      var init := s[..|s| - 1];
      forall i | 0 <= i < |s| - 1 ensures s[i] == init[i] { }
    }
  }

  lemma CountSnoc<T>(s: seq<T>, x: T, p: T -> bool)
    ensures Count(s + [x], p) == Count(s, p) + (if p(x) then 1 else 0)
    ensures Filter(s + [x], p) == Filter(s, p) + (if p(x) then [x] else [])
  {
    assert (s + [x])[..|s|] == s;
  }

  /** A loop over `s` that has seen `s[..i]` extends the count by `s[i]`. */
  lemma CountStep<T>(s: seq<T>, i: nat, p: T -> bool)
    requires i < |s|
    ensures Count(s[..i + 1], p) == Count(s[..i], p) + (if p(s[i]) then 1 else 0)
  {
    assert s[..i + 1] == s[..i] + [s[i]];
    CountSnoc(s[..i], s[i], p);
  }

  lemma {:induction false} CountAppend<T>(a: seq<T>, b: seq<T>, p: T -> bool)
    ensures Count(a + b, p) == Count(a, p) + Count(b, p)
    ensures Filter(a + b, p) == Filter(a, p) + Filter(b, p)
    decreases |b|
  {
    if b == [] {
      assert a + b == a;
    } else {
      var c := b[..|b| - 1];
      var x := b[|b| - 1];
      assert b == c + [x];
      assert a + b == (a + c) + [x];
      CountAppend(a, c, p);
      CountSnoc(a + c, x, p);
      CountSnoc(c, x, p);
    }
  }

  /** Two sequences whose elements pass their tests at the same positions have the same count. */
  lemma {:induction false} CountAlike<A, B>(xs: seq<A>, ys: seq<B>, p: A -> bool, q: B -> bool)
    requires |xs| == |ys| && forall k :: 0 <= k < |xs| ==> p(xs[k]) == q(ys[k])
    ensures Count(xs, p) == Count(ys, q)
    decreases |xs|
  {
    if xs != [] {
      var n := |xs| - 1;
      assert forall k :: 0 <= k < n ==> xs[..n][k] == xs[k] && ys[..n][k] == ys[k];
      CountAlike(xs[..n], ys[..n], p, q);
    }
  }

  /** Keeping only some elements of a sorted sequence leaves it sorted. */
  lemma {:induction false} FilterSorted<T>(s: seq<T>, p: T -> bool, key: T -> int)
    requires SortedBy(s, key)
    ensures SortedBy(Filter(s, p), key)
    decreases |s|
  {
    if s != [] {
      var init := s[..|s| - 1];
      var x := s[|s| - 1];
      assert SortedBy(init, key) by {
        forall i, j | 0 <= i < j < |init| ensures key(init[i]) <= key(init[j]) {
          assert init[i] == s[i] && init[j] == s[j];
        }
      }
      FilterSorted(init, p, key);
      FilterMembers(init, p);
      var f := Filter(init, p);
      if p(x) {
        forall i | 0 <= i < |f| ensures key(f[i]) <= key(x) {
          assert f[i] in init;
          var j :| 0 <= j < |init| && init[j] == f[i];
          assert s[j] == f[i];
        }
        var r := f + [x];
        forall i, j | 0 <= i < j < |r| ensures key(r[i]) <= key(r[j]) {
          assert r[i] == f[i];
          if j < |f| {
            assert r[j] == f[j];
          }
        }
      }
    }
  }
}
