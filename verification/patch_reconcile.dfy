/**
 * The reconcile mode of bin/fusegen-tools.py: each record of an old patch
 * is paired with the default records at its address, and one row is
 * written per pair, with the old record's position and value, the name of
 * the default it was paired with and a type that says how it matched.
 * The source first builds the list of pairs, then rewrites the old record
 * of each pair in place and writes it; several pairs share one old record,
 * so a pair sees the name the previous pair gave it.
 */
module PatchReconcile {
  import opened Wrappers
  import opened PyInt
  import opened PatchFormat

  datatype MatchKind = Exact | Closest | NoMatch

  /** A pair: the index of the old record, its partner and how they matched. */
  datatype Pairing = Pairing(index: nat, partner: Fuse, kind: MatchKind)

  predicate SameSpot(o: Fuse, d: Fuse)
  {
    o.addr == d.addr && o.startBit == d.startBit
  }

  /** The exact pairs of old record `i`, one per default at its address and start bit, in order. */
  function ExactPairs(i: nat, o: Fuse, defaults: seq<Fuse>): (r: seq<Pairing>)
    ensures |r| <= |defaults|
    ensures forall k :: 0 <= k < |r| ==> r[k].index == i && r[k].kind == Exact && SameSpot(o, r[k].partner) && r[k].partner in defaults
    ensures forall m :: 0 <= m < |defaults| && SameSpot(o, defaults[m]) ==> Pairing(i, defaults[m], Exact) in r
  {
    if defaults == [] then []
    else
      var init := defaults[..|defaults| - 1];
      var d := defaults[|defaults| - 1];
      assert forall m :: 0 <= m < |init| ==> init[m] == defaults[m];
      ExactPairs(i, o, init) + (if SameSpot(o, d) then [Pairing(i, d, Exact)] else [])
  }

  /** The last default at the old record's address, if any (`last_default`). */
  function LastSameAddr(o: Fuse, defaults: seq<Fuse>): (r: Option<Fuse>)
    ensures r.Some? ==> r.value.addr == o.addr
  {
    if defaults == [] then None
    else
      var d := defaults[|defaults| - 1];
      if d.addr == o.addr then Some(d) else LastSameAddr(o, defaults[..|defaults| - 1])
  }

  /** `last_default` is the last default at the address, and there is one exactly when some default has that address. */
  lemma {:induction false} LastSameAddrIsLast(o: Fuse, defaults: seq<Fuse>)
    ensures LastSameAddr(o, defaults).None? <==> forall m :: 0 <= m < |defaults| ==> defaults[m].addr != o.addr
    ensures LastSameAddr(o, defaults).Some? ==>
      exists m :: 0 <= m < |defaults| && defaults[m] == LastSameAddr(o, defaults).value &&
                  forall m' :: m < m' < |defaults| ==> defaults[m'].addr != o.addr
    decreases |defaults|
  {
    if defaults != [] {
      var init := defaults[..|defaults| - 1];
      LastSameAddrIsLast(o, init);
      assert forall m :: 0 <= m < |init| ==> init[m] == defaults[m];
      if defaults[|defaults| - 1].addr == o.addr {
        assert defaults[|defaults| - 1] == LastSameAddr(o, defaults).value;
      } else if LastSameAddr(o, init).Some? {
        var m :| 0 <= m < |init| && init[m] == LastSameAddr(o, init).value &&
                 forall m' :: m < m' < |init| ==> init[m'].addr != o.addr;
        assert defaults[m] == LastSameAddr(o, defaults).value;
      }
    }
  }

  /**
   * The pairs of old record `i`: its exact matches; failing those one
   * closest pair with the last default at its address; failing that the
   * record paired with itself.
   */
  function PairsFor(i: nat, o: Fuse, defaults: seq<Fuse>): (r: seq<Pairing>)
    ensures |r| >= 1
    ensures forall k :: 0 <= k < |r| ==> r[k].index == i
    ensures ExactPairs(i, o, defaults) != [] ==> r == ExactPairs(i, o, defaults)
    ensures ExactPairs(i, o, defaults) == [] ==> |r| == 1 && r[0].kind != Exact
  {
    var ex := ExactPairs(i, o, defaults);
    if ex != [] then ex
    else match LastSameAddr(o, defaults)
      case Some(d) => [Pairing(i, d, Closest)]
      case None => [Pairing(i, o, NoMatch)]
  }

  /** All pairs, old record by old record (`item_pairs`). */
  function Pairings(olds: seq<Fuse>, defaults: seq<Fuse>): (r: seq<Pairing>)
    ensures forall k :: 0 <= k < |r| ==> r[k].index < |olds|
  {
    if olds == [] then []
    else
      var r := Pairings(olds[..|olds| - 1], defaults) + PairsFor(|olds| - 1, olds[|olds| - 1], defaults);
      r
  }

  /**
   * The pairs of one old record say how it matched: every default at the
   * same address and start bit gives an exact pair; with none, the closest
   * pair holds the last default at the same address; with no default at
   * that address, the record is paired with itself.
   */
  lemma PairsForSpec(i: nat, o: Fuse, defaults: seq<Fuse>)
    ensures var r := PairsFor(i, o, defaults);
      (forall m :: 0 <= m < |defaults| && SameSpot(o, defaults[m]) ==> Pairing(i, defaults[m], Exact) in r) &&
      (forall k :: 0 <= k < |r| && r[k].kind == Exact ==> SameSpot(o, r[k].partner) && r[k].partner in defaults) &&
      (forall k :: 0 <= k < |r| && r[k].kind == Closest ==>
         |r| == 1 && (forall m :: 0 <= m < |defaults| ==> !SameSpot(o, defaults[m])) &&
         exists m :: 0 <= m < |defaults| && defaults[m] == r[k].partner && r[k].partner.addr == o.addr &&
                     forall m' :: m < m' < |defaults| ==> defaults[m'].addr != o.addr) &&
      (forall k :: 0 <= k < |r| && r[k].kind == NoMatch ==>
         r == [Pairing(i, o, NoMatch)] && forall m :: 0 <= m < |defaults| ==> defaults[m].addr != o.addr)
  {
    LastSameAddrIsLast(o, defaults);
  }

  /** The record as the reconcile loop rewrites it for pair `p`, given its current state. */
  function Relabel(cur: Fuse, p: Pairing): (r: Fuse)
  {
    var partner := if p.kind == NoMatch then cur else p.partner;
    var sameValue := cur.value == partner.value;
    var origValue := partner.value;
    var origName := cur.name;
    var named := cur.(name := partner.name);
    match p.kind
    case Exact =>
      if sameValue then named.(typ := "(exact, " + origName + ")")
      else named.(typ := "(exact, " + origName + ", ov: 0x" + FormatHex(origValue, 0) + ")")
    case Closest =>
      var where := "(closest, " + origName + ", s:" + FormatDec(partner.startBit) + " w:" + FormatDec(partner.width);
      if sameValue then named.(typ := where + ")")
      else named.(typ := where + " v:0x" + FormatHex(origValue, 0) + ")")
    case NoMatch => named.(typ := "(no match, keeping original fuse)")
  }

  /** A rewrite keeps position and value, takes the partner's name and says how it matched. */
  lemma RelabelKeeps(cur: Fuse, p: Pairing)
    ensures WrittenFor(Relabel(cur, p), cur, p)
    ensures p.kind == NoMatch ==> Relabel(cur, p) == cur.(typ := "(no match, keeping original fuse)")
  {
  }

  predicate IndicesBelow(pairs: seq<Pairing>, n: nat)
  {
    forall k :: 0 <= k < |pairs| ==> pairs[k].index < n
  }

  /** The old records as rewritten so far, and the records written, one per pair. */
  datatype ReconcileState = ReconcileState(items: seq<Fuse>, written: seq<Fuse>)

  function Reconciled(olds: seq<Fuse>, pairs: seq<Pairing>): (r: ReconcileState)
    requires IndicesBelow(pairs, |olds|)
    ensures |r.items| == |olds| && |r.written| == |pairs|
  {
    if pairs == [] then ReconcileState(olds, [])
    else
      var st := Reconciled(olds, pairs[..|pairs| - 1]);
      var p := pairs[|pairs| - 1];
      var rec := Relabel(st.items[p.index], p);
      ReconcileState(st.items[p.index := rec], st.written + [rec])
  }

  /** The lines the reconcile mode writes. */
  function ReconcileFile(olds: seq<Fuse>, defaults: seq<Fuse>): seq<string>
  {
    [Header] + PlainRows(Reconciled(olds, Pairings(olds, defaults)).written)
  }

  /** The inner loop of the pairing: exact pairs are appended as they are found. */
  method ScanDefaults(pairs0: seq<Pairing>, i: nat, cur: Fuse, defaults: seq<Fuse>)
    returns (pairs: seq<Pairing>, found: bool, last: Option<Fuse>)
    ensures pairs == pairs0 + ExactPairs(i, cur, defaults)
    ensures found <==> ExactPairs(i, cur, defaults) != []
    ensures last == LastSameAddr(cur, defaults)
  {
    pairs, found, last := pairs0, false, None;
    for j := 0 to |defaults|
      invariant pairs == pairs0 + ExactPairs(i, cur, defaults[..j])
      invariant last == LastSameAddr(cur, defaults[..j])
      invariant found <==> ExactPairs(i, cur, defaults[..j]) != []
    {
      assert defaults[..j + 1][..j] == defaults[..j];
      if cur.addr == defaults[j].addr {
        last := Some(defaults[j]);
        if cur.startBit == defaults[j].startBit {
          found := true;
          pairs := pairs + [Pairing(i, defaults[j], Exact)];
        }
      }
    }
    assert defaults[..|defaults|] == defaults;
  }

  /** The pairing loop of the reconcile mode. */
  method PairUp(olds: seq<Fuse>, defaults: seq<Fuse>) returns (pairs: seq<Pairing>)
    ensures pairs == Pairings(olds, defaults)
  {
    pairs := [];
    for i := 0 to |olds|
      invariant pairs == Pairings(olds[..i], defaults)
    {
      assert olds[..i + 1][..i] == olds[..i];
      var cur := olds[i];
      var found, last;
      pairs, found, last := ScanDefaults(pairs, i, cur, defaults);
      if !found {
        if last.Some? {
          pairs := pairs + [Pairing(i, last.value, Closest)];
        } else {
          pairs := pairs + [Pairing(i, cur, NoMatch)];
        }
      }
    }
    assert olds[..|olds|] == olds;
  }

  /** The writing loop of the reconcile mode: each pair rewrites its old record, which is then written. */
  method Rewrite(olds: seq<Fuse>, pairs: seq<Pairing>) returns (written: seq<Fuse>)
    requires IndicesBelow(pairs, |olds|)
    ensures written == Reconciled(olds, pairs).written
  {
    var items := olds;
    written := [];
    for k := 0 to |pairs|
      invariant ReconcileState(items, written) == Reconciled(olds, pairs[..k])
    {
      assert pairs[..k + 1][..k] == pairs[..k];
      var p := pairs[k];
      var rec := Relabel(items[p.index], p);
      items := items[p.index := rec];
      written := written + [rec];
    }
    assert pairs[..|pairs|] == pairs;
  }

  /** The reconcile mode on lists already read. */
  method Reconcile(olds: seq<Fuse>, defaults: seq<Fuse>) returns (lines: seq<string>)
    ensures lines == ReconcileFile(olds, defaults)
  {
    var pairs := PairUp(olds, defaults);
    var written := Rewrite(olds, pairs);
    lines := [Header] + PlainRows(written);
  }

  /**
   * Every written row keeps the old record's address, start bit, width and
   * value, takes the name of the default it was paired with (its own name
   * when unmatched), and says how it matched in its type.
   */
  lemma {:induction false} ReconciledKeeps(olds: seq<Fuse>, pairs: seq<Pairing>)
    requires IndicesBelow(pairs, |olds|)
    ensures var st := Reconciled(olds, pairs);
      (forall j :: 0 <= j < |olds| ==> SameField(st.items[j], olds[j])) &&
      (forall k :: 0 <= k < |pairs| ==> WrittenFor(st.written[k], olds[pairs[k].index], pairs[k]))
    decreases |pairs|
  {
    if pairs != [] {
      var n := |pairs| - 1;
      var p := pairs[n];
      var init := pairs[..n];
      assert IndicesBelow(init, |olds|) by {
        forall k | 0 <= k < n ensures init[k].index < |olds| {
          assert init[k] == pairs[k];
        }
      }
      ReconciledKeeps(olds, init);
      var prev := Reconciled(olds, init);
      var st := Reconciled(olds, pairs);
      var rec := Relabel(prev.items[p.index], p);
      RelabelKeeps(prev.items[p.index], p);
      assert SameField(rec, olds[p.index]);
      assert st.items == prev.items[p.index := rec] && st.written == prev.written + [rec];
      forall j | 0 <= j < |olds| ensures SameField(st.items[j], olds[j]) {
        if j != p.index {
          assert st.items[j] == prev.items[j];
        }
      }
      forall k | 0 <= k < |pairs| ensures WrittenFor(st.written[k], olds[pairs[k].index], pairs[k]) {
        if k < n {
          assert st.written[k] == prev.written[k] && pairs[k] == init[k];
        }
      }
    }
  }

  /** `w` has the address, start bit, width and value of `o`. */
  predicate SameField(w: Fuse, o: Fuse)
  {
    w.addr == o.addr && w.startBit == o.startBit && w.width == o.width && w.value == o.value
  }

  /**
   * `w` is the row written for pair `p` of old record `o`: the field of `o`,
   * the partner's name, and for an unmatched record the type that says so.
   */
  predicate WrittenFor(w: Fuse, o: Fuse, p: Pairing)
  {
    SameField(w, o) &&
    (p.kind != NoMatch ==> w.name == p.partner.name) &&
    (p.kind == NoMatch ==> w.typ == "(no match, keeping original fuse)")
  }

  /** The pairs come old record by old record, and only exact pairs share an old record. */
  lemma {:induction false} PairingsOrdered(olds: seq<Fuse>, defaults: seq<Fuse>)
    ensures forall k, k' :: 0 <= k' < k < |Pairings(olds, defaults)| && Pairings(olds, defaults)[k].kind != Exact ==>
      Pairings(olds, defaults)[k'].index < Pairings(olds, defaults)[k].index
    decreases |olds|
  {
    if olds != [] {
      var init := Pairings(olds[..|olds| - 1], defaults);
      var block := PairsFor(|olds| - 1, olds[|olds| - 1], defaults);
      var r := Pairings(olds, defaults);
      assert r == init + block;
      PairingsOrdered(olds[..|olds| - 1], defaults);
      forall k, k' | 0 <= k' < k < |r| && r[k].kind != Exact ensures r[k'].index < r[k].index {
        if k >= |init| {
          assert r[k] == block[k - |init|];
          assert |block| == 1 && k == |init|;
          assert r[k'] == init[k'];
          assert r[k'].index < |olds| - 1;
          assert r[k].index == |olds| - 1;
        } else {
          assert r[k] == init[k] && r[k'] == init[k'];
          assert init[k'].index < init[k].index;
        }
      }
    }
  }

  /**
   * A pair that is the first of its old record sees that record as read:
   * rewriting happens only at the indices of earlier pairs.
   */
  lemma {:induction false} ReconciledUntouched(olds: seq<Fuse>, pairs: seq<Pairing>, j: nat)
    requires IndicesBelow(pairs, |olds|) && j < |olds|
    requires forall k :: 0 <= k < |pairs| ==> pairs[k].index != j
    ensures Reconciled(olds, pairs).items[j] == olds[j]
    decreases |pairs|
  {
    if pairs != [] {
      ReconciledUntouched(olds, pairs[..|pairs| - 1], j);
    }
  }

  /**
   * A closest or unmatched row is its old record rewritten once: its type
   * carries the old record's own name, and an unmatched row is the old
   * record with only its type changed.
   */
  lemma ReconcileSingleRows(olds: seq<Fuse>, defaults: seq<Fuse>, k: nat)
    requires k < |Pairings(olds, defaults)| && Pairings(olds, defaults)[k].kind != Exact
    ensures var pairs := Pairings(olds, defaults);
      var w := Reconciled(olds, pairs).written[k];
      w == Relabel(olds[pairs[k].index], pairs[k]) &&
      (pairs[k].kind == NoMatch ==> w == olds[pairs[k].index].(typ := "(no match, keeping original fuse)"))
  {
    var pairs := Pairings(olds, defaults);
    PairingsOrdered(olds, defaults);
    var before := pairs[..k];
    ReconciledUntouched(olds, before, pairs[k].index);
    ReconciledPrefix(olds, pairs, k);
  }

  /** The rows written for the first pairs do not depend on the later pairs. */
  lemma {:induction false} ReconciledPrefix(olds: seq<Fuse>, pairs: seq<Pairing>, k: nat)
    requires IndicesBelow(pairs, |olds|) && k < |pairs|
    ensures Reconciled(olds, pairs).written[k] == Relabel(Reconciled(olds, pairs[..k]).items[pairs[k].index], pairs[k])
    decreases |pairs|
  {
    if k < |pairs| - 1 {
      assert pairs[..|pairs| - 1][..k] == pairs[..k];
      ReconciledPrefix(olds, pairs[..|pairs| - 1], k);
    } else {
      assert pairs[..|pairs| - 1] == pairs[..k];
    }
  }
}
