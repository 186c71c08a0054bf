/**
 * The two merge modes of bin/fusegen-tools.py: `merge_values` writes
 * override values (from a default-override file) into the list of default
 * values, and `merge_patches` folds a new patch into an old one.  Both
 * rewrite records in place, found by name with `find_by_name` (PatchFormat);
 * here the list is a sequence updated by index.
 */
module PatchMerge {
  import opened Wrappers
  import opened PyInt
  import opened PatchFormat

  /** The value of the last record of `s` named `name`, or `dflt` when none is. */
  function LastValue(s: seq<Fuse>, name: string, dflt: int): (v: int)
    ensures name !in Names(s) ==> v == dflt
    ensures name in Names(s) ==> exists i :: 0 <= i < |s| && s[i].name == name && s[i].value == v
  {
    if s == [] then dflt
    else
      var init := s[..|s| - 1];
      var last := s[|s| - 1];
      assert Names(s) == Names(init) + [last.name];
      if last.name == name then last.value
      else
        var v := LastValue(init, name, dflt);
        assert name in Names(s) ==> name in Names(init);
        assert forall i :: 0 <= i < |init| ==> init[i] == s[i];
        v
  }

  /* ---------------------------------------------------------------- */
  /* merge_values                                                      */

  /**
   * The defaults being rewritten, the indices of the records that took a
   * new value (`items_updated`, repeats included), the override names not
   * found and the count of overrides that changed nothing.
   */
  datatype OverrideState = OverrideState(items: seq<Fuse>, updated: seq<nat>, missing: seq<string>, same: nat)

  /**
   * One override record: the first default of its name takes its value and
   * records the value it had, in hex, as its type; an override naming no
   * default is listed as missing.
   */
  function OverrideOne(st: OverrideState, c: Fuse): (r: OverrideState)
  {
    match FindByName(c.name, st.items)
    case None => st.(missing := st.missing + [c.name])
    case Some(k) =>
      if st.items[k].value != c.value then
        st.(items := st.items[k := st.items[k].(typ := FormatHex(st.items[k].value, 0), value := c.value)],
            updated := st.updated + [k])
      else st.(same := st.same + 1)
  }

  function Overridden(defaults: seq<Fuse>, cfg: seq<Fuse>): (r: OverrideState)
  {
    if cfg == [] then OverrideState(defaults, [], [], 0)
    else OverrideOne(Overridden(defaults, cfg[..|cfg| - 1]), cfg[|cfg| - 1])
  }

  predicate IndicesIn(idx: seq<nat>, n: nat)
  {
    forall i :: 0 <= i < |idx| ==> idx[i] < n
  }

  /**
   * The overrides only rewrite values and types of records already there:
   * the list keeps its length and names, every recorded index is in range,
   * every override is counted once, and every missing name is absent from
   * the defaults.
   */
  lemma {:induction false} OverriddenShape(defaults: seq<Fuse>, cfg: seq<Fuse>)
    ensures var st := Overridden(defaults, cfg);
      |st.items| == |defaults| && Names(st.items) == Names(defaults) &&
      IndicesIn(st.updated, |st.items|) &&
      |st.updated| + |st.missing| + st.same == |cfg| &&
      (forall j :: 0 <= j < |defaults| ==>
         st.items[j] == defaults[j].(value := st.items[j].value, typ := st.items[j].typ)) &&
      (forall i :: 0 <= i < |st.missing| ==> st.missing[i] !in Names(defaults))
    decreases |cfg|
  {
    if cfg != [] {
      var prev := Overridden(defaults, cfg[..|cfg| - 1]);
      OverriddenShape(defaults, cfg[..|cfg| - 1]);
      var c := cfg[|cfg| - 1];
      match FindByName(c.name, prev.items)
      case None =>
      case Some(k) =>
        if prev.items[k].value != c.value {
          FindByNameUpdate(c.name, prev.items, k, prev.items[k].(typ := FormatHex(prev.items[k].value, 0), value := c.value));
        }
    }
  }

  /**
   * The value each default ends with: the first record of a name takes the
   * value of the last override of that name, and every other record keeps
   * its value.
   */
  lemma {:induction false} OverrideLastWins(defaults: seq<Fuse>, cfg: seq<Fuse>, j: nat)
    requires j < |defaults|
    ensures var st := Overridden(defaults, cfg);
      j < |st.items| &&
      st.items[j].value ==
        if FindByName(defaults[j].name, defaults) == Some(j)
        then LastValue(cfg, defaults[j].name, defaults[j].value)
        else defaults[j].value
    decreases |cfg|
  {
    OverriddenShape(defaults, cfg);
    if cfg != [] {
      var init := cfg[..|cfg| - 1];
      var c := cfg[|cfg| - 1];
      var prev := Overridden(defaults, init);
      var st := Overridden(defaults, cfg);
      OverriddenShape(defaults, init);
      OverrideLastWins(defaults, init, j);
      var name := defaults[j].name;
      assert prev.items[j].name == name by {
        assert Names(prev.items)[j] == Names(defaults)[j];
      }
      assert LastValue(cfg, name, defaults[j].value) ==
        if c.name == name then c.value else LastValue(init, name, defaults[j].value);
      FindByNameNames(c.name, prev.items, defaults);
      match FindByName(c.name, prev.items)
      case None =>
        assert st.items == prev.items;
        assert c.name != name by {
          assert Names(defaults)[j] == name;
        }
      case Some(k) =>
        if k != j {
          assert st.items[j] == prev.items[j];
          if c.name == name {
            assert FindByName(name, defaults) == Some(k);
          }
        } else {
          assert c.name == name;
        }
    }
  }

  /** The records at the given indices, in that order. */
  function At(items: seq<Fuse>, idx: seq<nat>): (r: seq<Fuse>)
    requires IndicesIn(idx, |items|)
    ensures |r| == |idx|
  {
    seq(|idx|, i requires 0 <= i < |idx| => items[idx[i]])
  }

  /**
   * The lines `merge_values` writes, or `None` when it returns False for an
   * empty override list or an empty defaults file: every default, or with
   * `changesOnly` the changed records in the order they changed.
   */
  function MergeValuesFile(defaults: seq<Fuse>, cfg: seq<Fuse>, changesOnly: bool): Option<seq<string>>
  {
    if cfg == [] || defaults == [] then None
    else
      var st := Overridden(defaults, cfg);
      OverriddenShape(defaults, cfg);
      Some(SavedFile(if changesOnly then At(st.items, st.updated) else st.items))
  }

  /** `merge_values(default_values, config_out_items, target, changes_only)` on lists already read. */
  method MergeValues(defaults: seq<Fuse>, cfg: seq<Fuse>, changesOnly: bool)
    returns (r: Option<seq<string>>, st: OverrideState)
    ensures r == MergeValuesFile(defaults, cfg, changesOnly)
    ensures r.Some? ==> st == Overridden(defaults, cfg)
  {
    st := OverrideState(defaults, [], [], 0);
    if |cfg| == 0 || |defaults| == 0 {
      return None, st;
    }
    var items := defaults;
    var updated: seq<nat> := [];
    var missing: seq<string> := [];
    var same := 0;
    for i := 0 to |cfg|
      invariant OverrideState(items, updated, missing, same) == Overridden(defaults, cfg[..i])
    {
      assert cfg[..i + 1][..i] == cfg[..i];
      var c := cfg[i];
      match FindByName(c.name, items)
      case None =>
        missing := missing + [c.name];
      case Some(k) =>
        if items[k].value != c.value {
          items := items[k := items[k].(typ := FormatHex(items[k].value, 0), value := c.value)];
          updated := updated + [k];
        } else {
          same := same + 1;
        }
    }
    assert cfg[..|cfg|] == cfg;
    st := OverrideState(items, updated, missing, same);
    OverriddenShape(defaults, cfg);
    var lines;
    if changesOnly {
      lines := SavePatchItems(At(items, updated));
    } else {
      lines := SavePatchItems(items);
    }
    r := Some(lines);
  }

  /* ---------------------------------------------------------------- */
  /* merge_patches                                                     */

  /** The merged list and the four counters of `merge_patches`. */
  datatype MergeState = MergeState(items: seq<Fuse>, same: nat, changed: nat, added: nat, lockedSkipped: nat)

  /**
   * One record of the new patch: skipped when a locked list is in force and
   * names it; appended when the merged list has no record of its name;
   * otherwise the first such record takes its value and records its old
   * value, in decimal, as its type.
   */
  function MergeOne(st: MergeState, n: Fuse, locked: seq<string>): MergeState
  {
    if |locked| > 0 && n.name in locked then st.(lockedSkipped := st.lockedSkipped + 1)
    else match FindByName(n.name, st.items)
      case None => st.(items := st.items + [n], added := st.added + 1)
      case Some(k) =>
        if st.items[k].value != n.value then
          st.(items := st.items[k := st.items[k].(typ := FormatDec(st.items[k].value), value := n.value)],
              changed := st.changed + 1)
        else st.(same := st.same + 1)
  }

  function Merged(olds: seq<Fuse>, news: seq<Fuse>, locked: seq<string>): MergeState
  {
    if news == [] then MergeState(olds, 0, 0, 0, 0)
    else MergeOne(Merged(olds, news[..|news| - 1], locked), news[|news| - 1], locked)
  }

  /**
   * The lines `merge_patches` writes, or `None` when it returns False for an
   * empty old or new patch.  An empty locked list means no locking.
   */
  function MergePatchesFile(olds: seq<Fuse>, news: seq<Fuse>, locked: seq<string>): Option<seq<string>>
  {
    if olds == [] || news == [] then None
    else Some(SavedFile(Merged(olds, news, locked).items))
  }

  /** `merge_patches(old_patch, new_patch, locked_fuses, target)` on lists already read. */
  method MergePatches(olds: seq<Fuse>, news: seq<Fuse>, locked: seq<string>)
    returns (r: Option<seq<string>>, st: MergeState)
    ensures r == MergePatchesFile(olds, news, locked)
    ensures r.Some? ==> st == Merged(olds, news, locked)
  {
    st := MergeState(olds, 0, 0, 0, 0);
    if |olds| == 0 || |news| == 0 {
      return None, st;
    }
    var keepLocked := |locked| > 0;
    var merged := olds;
    var same, changed, added, lockedSkipped := 0, 0, 0, 0;
    for i := 0 to |news|
      invariant MergeState(merged, same, changed, added, lockedSkipped) == Merged(olds, news[..i], locked)
    {
      assert news[..i + 1][..i] == news[..i];
      var cur := news[i];
      if keepLocked && cur.name in locked {
        lockedSkipped := lockedSkipped + 1;
        continue;
      }
      match FindByName(cur.name, merged)
      case None =>
        merged := merged + [cur];
        added := added + 1;
      case Some(k) =>
        if merged[k].value != cur.value {
          merged := merged[k := merged[k].(typ := FormatDec(merged[k].value), value := cur.value)];
          changed := changed + 1;
        } else {
          same := same + 1;
        }
    }
    assert news[..|news|] == news;
    st := MergeState(merged, same, changed, added, lockedSkipped);
    var lines := SavePatchItems(merged);
    r := Some(lines);
  }

  /**
   * The merge only appends records and rewrites values and types: every new
   * record is counted once, the length grows by the appended count, the old
   * records keep their position and name, locked old records are untouched,
   * and no appended record has a locked name.
   */
  lemma {:induction false} MergedShape(olds: seq<Fuse>, news: seq<Fuse>, locked: seq<string>)
    ensures var st := Merged(olds, news, locked);
      st.same + st.changed + st.added + st.lockedSkipped == |news| &&
      |st.items| == |olds| + st.added &&
      (forall j :: 0 <= j < |olds| ==> st.items[j] == olds[j].(value := st.items[j].value, typ := st.items[j].typ)) &&
      (|locked| > 0 ==> forall j :: 0 <= j < |olds| && olds[j].name in locked ==> st.items[j] == olds[j]) &&
      (|locked| > 0 ==> forall j :: |olds| <= j < |st.items| ==> st.items[j].name !in locked)
    decreases |news|
  {
    if news != [] {
      MergedShape(olds, news[..|news| - 1], locked);
    }
  }

  /**
   * Every unlocked name of the new patch ends up in the merged list, and
   * its first record there holds the value of the last new record of that
   * name.
   */
  lemma {:induction false} MergeLastWins(olds: seq<Fuse>, news: seq<Fuse>, locked: seq<string>, name: string)
    requires name in Names(news) && !(|locked| > 0 && name in locked)
    ensures var items := Merged(olds, news, locked).items;
      name in Names(items) &&
      items[FindByName(name, items).value].value == LastValue(news, name, 0)
    decreases |news|
  {
    var init := news[..|news| - 1];
    var c := news[|news| - 1];
    var prev := Merged(olds, init, locked);
    var items := Merged(olds, news, locked).items;
    assert Names(news) == Names(init) + [c.name];
    if c.name != name {
      assert name in Names(init);
      MergeLastWins(olds, init, locked, name);
      var p := FindByName(name, prev.items).value;
      if !(|locked| > 0 && c.name in locked) {
        match FindByName(c.name, prev.items)
        case None =>
          FindByNameAppend(name, prev.items, c);
          assert items[p] == prev.items[p];
          assert Names(items)[p] == name;
        case Some(k) =>
          if prev.items[k].value != c.value {
            FindByNameUpdate(name, prev.items, k, prev.items[k].(typ := FormatDec(prev.items[k].value), value := c.value));
          }
      }
    } else {
      match FindByName(c.name, prev.items)
      case None =>
        FindByNameAppend(name, prev.items, c);
        assert Names(items)[|prev.items|] == name;
      case Some(k) =>
        if prev.items[k].value != c.value {
          FindByNameUpdate(name, prev.items, k, prev.items[k].(typ := FormatDec(prev.items[k].value), value := c.value));
        }
        assert Names(items)[k] == name;
    }
  }
}
