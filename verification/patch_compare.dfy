/**
 * `compare_patch` of bin/fusegen-tools.py in patch-file mode: the records
 * of an old and a new patch are matched by name, and the old records are
 * sorted into those only in the old patch, those with the same value and
 * those with a different value; the new records whose name the old patch
 * lacks make up a fourth list.
 */
module PatchCompare {
  import opened Wrappers
  import opened PatchFormat

  datatype Comparison = Comparison(onlyOld: seq<Fuse>, sameValues: seq<Fuse>,
                                   diffValues: seq<(Fuse, Fuse)>, onlyNew: seq<Fuse>)

  /** The three lists built from the old records (`onlyNew` left empty). */
  function SortOld(olds: seq<Fuse>, news: seq<Fuse>): (c: Comparison)
    ensures c.onlyNew == []
    ensures |c.onlyOld| + |c.sameValues| + |c.diffValues| == |olds|
  {
    if olds == [] then Comparison([], [], [], [])
    else
      var c := SortOld(olds[..|olds| - 1], news);
      var o := olds[|olds| - 1];
      match FindByName(o.name, news)
      case None => c.(onlyOld := c.onlyOld + [o])
      case Some(k) =>
        if o.value == news[k].value then c.(sameValues := c.sameValues + [o])
        else c.(diffValues := c.diffValues + [(o, news[k])])
  }

  /** The new records whose name no old record has, in order. */
  function OnlyNew(news: seq<Fuse>, olds: seq<Fuse>): (r: seq<Fuse>)
    ensures |r| <= |news|
  {
    if news == [] then []
    else
      var n := news[|news| - 1];
      OnlyNew(news[..|news| - 1], olds) + (if FindByName(n.name, olds).None? then [n] else [])
  }

  /** The result of the comparison, or `None` when either patch is empty and the function returns False. */
  function Compared(olds: seq<Fuse>, news: seq<Fuse>): Option<Comparison>
  {
    if olds == [] || news == [] then None
    else Some(SortOld(olds, news).(onlyNew := OnlyNew(news, olds)))
  }

  /** `compare_patch(old_patch_file, new_patch_file, False)` on lists already read. */
  method ComparePatch(olds: seq<Fuse>, news: seq<Fuse>) returns (r: Option<Comparison>)
    ensures r == Compared(olds, news)
  {
    if |olds| == 0 || |news| == 0 {
      return None;
    }
    var onlyOld: seq<Fuse> := [];
    var sameValues: seq<Fuse> := [];
    var diffValues: seq<(Fuse, Fuse)> := [];
    for i := 0 to |olds|
      invariant Comparison(onlyOld, sameValues, diffValues, []) == SortOld(olds[..i], news)
    {
      assert olds[..i + 1][..i] == olds[..i];
      var cur := olds[i];
      match FindByName(cur.name, news)
      case None =>
        onlyOld := onlyOld + [cur];
      case Some(k) =>
        if cur.value == news[k].value {
          sameValues := sameValues + [cur];
        } else {
          diffValues := diffValues + [(cur, news[k])];
        }
    }
    assert olds[..|olds|] == olds;
    var onlyNew: seq<Fuse> := [];
    for i := 0 to |news|
      invariant onlyNew == OnlyNew(news[..i], olds)
    {
      assert news[..i + 1][..i] == news[..i];
      if FindByName(news[i].name, olds).None? {
        onlyNew := onlyNew + [news[i]];
      }
    }
    assert news[..|news|] == news;
    r := Some(Comparison(onlyOld, sameValues, diffValues, onlyNew));
  }

  /** The first new record of the old record's name, when there is one. */
  function Partner(o: Fuse, news: seq<Fuse>): Option<Fuse>
  {
    match FindByName(o.name, news)
    case None => None
    case Some(k) => Some(news[k])
  }

  predicate InOnlyOld(o: Fuse, news: seq<Fuse>)
  {
    Partner(o, news).None?
  }

  predicate InSame(o: Fuse, news: seq<Fuse>)
  {
    Partner(o, news).Some? && Partner(o, news).value.value == o.value
  }

  predicate InDiff(o: Fuse, n: Fuse, news: seq<Fuse>)
  {
    Partner(o, news) == Some(n) && n.value != o.value
  }

  /** `Partner` is `find_by_name`: none exactly when the new patch lacks the name. */
  lemma PartnerSpec(o: Fuse, news: seq<Fuse>)
    ensures Partner(o, news).None? <==> o.name !in Names(news)
    ensures Partner(o, news).Some? ==> Partner(o, news).value.name == o.name && Partner(o, news).value in news
  {
  }

  /** Each old record lands in the list its name and value call for. */
  lemma {:induction false} SortOldComplete(olds: seq<Fuse>, news: seq<Fuse>)
    ensures var c := SortOld(olds, news);
      forall i :: 0 <= i < |olds| ==>
        (InOnlyOld(olds[i], news) ==> olds[i] in c.onlyOld) &&
        (InSame(olds[i], news) ==> olds[i] in c.sameValues) &&
        (forall n :: InDiff(olds[i], n, news) ==> (olds[i], n) in c.diffValues)
    decreases |olds|
  {
    if olds != [] {
      var init := olds[..|olds| - 1];
      var o := olds[|olds| - 1];
      SortOldComplete(init, news);
      var p, c := SortOld(init, news), SortOld(olds, news);
      assert p.onlyOld <= c.onlyOld && p.sameValues <= c.sameValues && p.diffValues <= c.diffValues;
      forall i | 0 <= i < |olds|
        ensures (InOnlyOld(olds[i], news) ==> olds[i] in c.onlyOld) &&
          (InSame(olds[i], news) ==> olds[i] in c.sameValues) &&
          (forall n :: InDiff(olds[i], n, news) ==> (olds[i], n) in c.diffValues)
      {
        if i < |init| {
          assert init[i] == olds[i];
        } else {
          match FindByName(o.name, news)
          case None =>
            assert c.onlyOld == p.onlyOld + [o];
          case Some(k) =>
            if o.value == news[k].value {
              assert c.sameValues == p.sameValues + [o];
            } else {
              assert c.diffValues == p.diffValues + [(o, news[k])];
            }
        }
      }
    }
  }

  /** Every listed record comes from the old patch and satisfies its list's rule. */
  lemma {:induction false} SortOldSound(olds: seq<Fuse>, news: seq<Fuse>)
    ensures var c := SortOld(olds, news);
      (forall f :: f in c.onlyOld ==> f in olds && InOnlyOld(f, news)) &&
      (forall f :: f in c.sameValues ==> f in olds && InSame(f, news)) &&
      (forall p :: p in c.diffValues ==> p.0 in olds && InDiff(p.0, p.1, news))
    decreases |olds|
  {
    if olds != [] {
      var init := olds[..|olds| - 1];
      SortOldSound(init, news);
      assert forall f :: f in init ==> f in olds;
    }
  }

  /** The only-new list holds exactly the new records whose name the old patch lacks. */
  lemma {:induction false} OnlyNewSpec(news: seq<Fuse>, olds: seq<Fuse>)
    ensures forall f :: f in OnlyNew(news, olds) ==> f in news && f.name !in Names(olds)
    ensures forall i :: 0 <= i < |news| && news[i].name !in Names(olds) ==> news[i] in OnlyNew(news, olds)
    decreases |news|
  {
    if news != [] {
      var init := news[..|news| - 1];
      var n := news[|news| - 1];
      OnlyNewSpec(init, olds);
      var prev := OnlyNew(init, olds);
      var tail := if FindByName(n.name, olds).None? then [n] else [];
      assert OnlyNew(news, olds) == prev + tail;
      forall f | f in prev + tail
        ensures f in news && f.name !in Names(olds)
      {
        if f in prev {
          var j :| 0 <= j < |init| && init[j] == f;
          assert news[j] == f;
        }
      }
      forall i | 0 <= i < |news| && news[i].name !in Names(olds)
        ensures news[i] in prev + tail
      {
        if i < |init| {
          assert init[i] == news[i];
        }
      }
    }
  }
}
