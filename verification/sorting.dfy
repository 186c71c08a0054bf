/**
 * Python's `sorted(items, key=...)` for an integer key: a stable sort.  The
 * fuse tools sort patch rows by bit position and DLUT entries by their sort
 * key with it.
 */
module Sorting {

  predicate SortedBy<T>(s: seq<T>, key: T -> int)
  {
    forall i, j :: 0 <= i < j < |s| ==> key(s[i]) <= key(s[j])
  }

  /** The elements of `s` whose key is `k`, in their order in `s`. */
  function KeyRun<T>(s: seq<T>, key: T -> int, k: int): (r: seq<T>)
    ensures |r| <= |s|
    ensures forall i :: 0 <= i < |r| ==> key(r[i]) == k
  {
    if s == [] then []
    else (if key(s[0]) == k then [s[0]] else []) + KeyRun(s[1..], key, k)
  }

  /** `x` placed after every element whose key is not larger than its own. */
  function Insert<T>(s: seq<T>, x: T, key: T -> int): (r: seq<T>)
    ensures |r| == |s| + 1
    ensures multiset(r) == multiset(s) + multiset{x}
    decreases |s|
  {
    if s == [] then [x]
    else if key(s[0]) <= key(x) then
      assert s == [s[0]] + s[1..];
      [s[0]] + Insert(s[1..], x, key)
    else [x] + s
  }

  /** `sorted(s, key=key)`. */
  function SortBy<T>(s: seq<T>, key: T -> int): (r: seq<T>)
    ensures |r| == |s|
    ensures multiset(r) == multiset(s)
    decreases |s|
  {
    if s == [] then []
    else
      assert s == s[..|s| - 1] + [s[|s| - 1]];
      Insert(SortBy(s[..|s| - 1], key), s[|s| - 1], key)
  }

  /* ---------------------------------------------------------------- */

  lemma ConsSorted<T>(a: T, t: seq<T>, key: T -> int)
    requires SortedBy(t, key)
    requires forall i :: 0 <= i < |t| ==> key(a) <= key(t[i])
    ensures SortedBy([a] + t, key)
  {
    var r := [a] + t;
    forall i, j | 0 <= i < j < |r| ensures key(r[i]) <= key(r[j]) {
      assert r[j] == t[j - 1];
      if i > 0 {
        assert r[i] == t[i - 1];
      }
    }
  }

  lemma {:induction false} InsertSorted<T>(s: seq<T>, x: T, key: T -> int)
    requires SortedBy(s, key)
    ensures SortedBy(Insert(s, x, key), key)
    decreases |s|
  {
    if s != [] && key(s[0]) <= key(x) {
      var t := Insert(s[1..], x, key);
      InsertSorted(s[1..], x, key);
      forall i | 0 <= i < |t| ensures key(s[0]) <= key(t[i]) {
        assert t[i] in multiset(t);
        assert t[i] in multiset(s[1..]) || t[i] == x;
        if t[i] != x {
          var j :| 0 <= j < |s[1..]| && s[1..][j] == t[i];
          assert s[j + 1] == t[i];
        }
      }
      ConsSorted(s[0], t, key);
    } else if s != [] {
      ConsSorted(x, s, key);
    }
  }

  /** The result of `sorted` is ordered by the key. */
  lemma {:induction false} SortBySorted<T>(s: seq<T>, key: T -> int)
    ensures SortedBy(SortBy(s, key), key)
    decreases |s|
  {
    if s != [] {
      SortBySorted(s[..|s| - 1], key);
      InsertSorted(SortBy(s[..|s| - 1], key), s[|s| - 1], key);
    }
  }

  lemma {:induction false} KeyRunAppend<T>(a: seq<T>, b: seq<T>, key: T -> int, k: int)
    ensures KeyRun(a + b, key, k) == KeyRun(a, key, k) + KeyRun(b, key, k)
    decreases |a|
  {
    if a == [] {
      assert a + b == b;
    } else {
      assert (a + b)[1..] == a[1..] + b;
      KeyRunAppend(a[1..], b, key, k);
    }
  }

  lemma {:induction false} KeyRunNone<T>(s: seq<T>, key: T -> int, k: int)
    requires forall i :: 0 <= i < |s| ==> key(s[i]) != k
    ensures KeyRun(s, key, k) == []
    decreases |s|
  {
    if s != [] {
      KeyRunNone(s[1..], key, k);
    }
  }

  lemma {:induction false} InsertRun<T>(s: seq<T>, x: T, key: T -> int, k: int)
    requires SortedBy(s, key)
    ensures KeyRun(Insert(s, x, key), key, k) == KeyRun(s, key, k) + (if key(x) == k then [x] else [])
    decreases |s|
  {
    if s == [] {
    } else if key(s[0]) <= key(x) {
      SortedTail(s, key);
      InsertRun(s[1..], x, key, k);
      InsertBehind(s, x, key, k);
    } else {
      InsertFront(s, x, key, k);
    }
  }

  lemma SortedTail<T>(s: seq<T>, key: T -> int)
    requires SortedBy(s, key) && s != []
    ensures SortedBy(s[1..], key)
  {
  }

  lemma InsertBehind<T>(s: seq<T>, x: T, key: T -> int, k: int)
    requires s != [] && key(s[0]) <= key(x)
    ensures KeyRun(Insert(s, x, key), key, k) == (if key(s[0]) == k then [s[0]] else []) + KeyRun(Insert(s[1..], x, key), key, k)
  {
    var t := Insert(s[1..], x, key);
    assert Insert(s, x, key) == [s[0]] + t;
    assert ([s[0]] + t)[1..] == t;
  }

  lemma InsertFront<T>(s: seq<T>, x: T, key: T -> int, k: int)
    requires SortedBy(s, key) && s != [] && key(x) < key(s[0])
    ensures KeyRun([x] + s, key, k) == KeyRun(s, key, k) + (if key(x) == k then [x] else [])
  {
    assert ([x] + s)[1..] == s;
    if key(x) == k {
      forall i | 0 <= i < |s| ensures key(s[i]) != k {
        assert key(s[0]) <= key(s[i]);
      }
      KeyRunNone(s, key, k);
    }
  }

  /** `sorted` is stable: the elements sharing a key keep their relative order. */
  lemma {:induction false} SortByStable<T>(s: seq<T>, key: T -> int, k: int)
    ensures KeyRun(SortBy(s, key), key, k) == KeyRun(s, key, k)
    decreases |s|
  {
    if s != [] {
      var p := s[..|s| - 1];
      var x := s[|s| - 1];
      var tail := if key(x) == k then [x] else [];
      assert KeyRun(SortBy(s, key), key, k) == KeyRun(p, key, k) + tail by {
        SortByStable(p, key, k);
        SortBySorted(p, key);
        InsertRun(SortBy(p, key), x, key, k);
      }
      assert KeyRun(s, key, k) == KeyRun(p, key, k) + tail by {
        assert s == p + [x];
        KeyRunAppend(p, [x], key, k);
        assert [x][1..] == [];
      }
    }
  }

  lemma {:induction false} InsertLast<T>(s: seq<T>, x: T, key: T -> int)
    requires forall i :: 0 <= i < |s| ==> key(s[i]) <= key(x)
    ensures Insert(s, x, key) == s + [x]
    decreases |s|
  {
    if s != [] {
      InsertLast(s[1..], x, key);
      assert s == [s[0]] + s[1..];
    }
  }

  /** Input already in key order comes back unchanged. */
  lemma {:induction false} SortBySortedNoop<T>(s: seq<T>, key: T -> int)
    requires SortedBy(s, key)
    ensures SortBy(s, key) == s
    decreases |s|
  {
    if s != [] {
      var p := s[..|s| - 1];
      SortBySortedNoop(p, key);
      InsertLast(p, s[|s| - 1], key);
    }
  }
}
