/**
 * The counting dictionary the scripts build with
 * `d[x] = d[x] + 1 if x in d else 1`, one key per distinct element, and
 * what its entries add up to.  Python keeps the keys in the order of their
 * first insertion; that order is `Keys`.
 */
module Counter {
  import opened Tally
  import opened Dedup

  function Equals(k: string): string -> bool
  {
    x => x == k
  }

  function Anything(x: string): bool
  {
    true
  }

  /** How often `k` occurs in `s`. */
  function Occurrences(s: seq<string>, k: string): nat
  {
    Count(s, Equals(k))
  }

  /** The dictionary after counting the elements of `s` in turn. */
  function Counts(s: seq<string>): (m: map<string, nat>)
    ensures forall k :: k in m <==> k in s
    decreases |s|
  {
    if s == [] then map[]
    else
      var init := s[..|s| - 1];
      var x := s[|s| - 1];
      assert s == init + [x];
      var m := Counts(init);
      m[x := (if x in m then m[x] else 0) + 1]
  }

  /** Counting one more element bumps its entry or adds it with 1. */
  lemma CountsSnoc(s: seq<string>, x: string)
    ensures var m := Counts(s);
      Counts(s + [x]) == m[x := (if x in m then m[x] else 0) + 1]
  {
    assert (s + [x])[..|s|] == s;
  }

  /** The dictionary's keys in insertion order. */
  function Keys(s: seq<string>): seq<string>
  {
    Distinct(s, Anything)
  }

  /** The sum of the entries of `m` for the keys `ks`. */
  function Total(m: map<string, nat>, ks: seq<string>): nat
    decreases |ks|
  {
    if ks == [] then 0
    else
      var k := ks[|ks| - 1];
      Total(m, ks[..|ks| - 1]) + (if k in m then m[k] else 0)
  }

  /** Every entry is the number of occurrences of its key, and so at least one. */
  lemma {:induction false} CountsOccurrences(s: seq<string>)
    ensures forall k :: k in Counts(s) ==> Counts(s)[k] == Occurrences(s, k) > 0
    decreases |s|
  {
    if s != [] {
      var init := s[..|s| - 1];
      var x := s[|s| - 1];
      assert s == init + [x];
      CountsOccurrences(init);
      CountsSnoc(init, x);
      forall k | k in Counts(s)
        ensures Counts(s)[k] == Occurrences(s, k) > 0
      {
        CountSnoc(init, x, Equals(k));
        if k != x {
          assert k in init;
        }
      }
    }
  }

  /** Changing the entry of a key outside `ks` does not change the sum over `ks`. */
  lemma {:induction false} TotalOther(m: map<string, nat>, ks: seq<string>, x: string, v: nat)
    requires x !in ks
    ensures Total(m[x := v], ks) == Total(m, ks)
    decreases |ks|
  {
    if ks != [] {
      TotalOther(m, ks[..|ks| - 1], x, v);
    }
  }

  /** Bumping the entry of a key that occurs once in `ks` raises the sum over `ks` by one. */
  lemma {:induction false} TotalBump(m: map<string, nat>, ks: seq<string>, x: string)
    requires x in ks && x in m && NoRepeats(ks)
    ensures Total(m[x := m[x] + 1], ks) == Total(m, ks) + 1
    decreases |ks|
  {
    var init := ks[..|ks| - 1];
    var k := ks[|ks| - 1];
    assert ks == init + [k];
    if k == x {
      assert x !in init;
      TotalOther(m, init, x, m[x] + 1);
    } else {
      assert x in init;
      TotalBump(m, init, x);
    }
  }

  /** The entries add up to the number of elements counted. */
  lemma {:induction false} CountsTotal(s: seq<string>)
    ensures Total(Counts(s), Keys(s)) == |s|
    decreases |s|
  {
    if s != [] {
      var init := s[..|s| - 1];
      var x := s[|s| - 1];
      assert s == init + [x];
      CountsTotal(init);
      CountsSnoc(init, x);
      DistinctSpec(init, Anything);
      var m := Counts(init);
      var ks := Keys(init);
      assert Anything(x);
      if x in m {
        assert Keys(s) == ks;
        TotalBump(m, ks, x);
      } else {
        assert Keys(s) == ks + [x];
        TotalOther(m, ks, x, 1);
        assert (ks + [x])[..|ks|] == ks;
      }
    }
  }
}
