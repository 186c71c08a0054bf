/**
 * The modes of bin/fusegen-tools.py that carry an old patch forward onto a
 * new list of default values: `update_patch` with the import and
 * config-stub steps of the update mode that feed it, and the prune mode.
 * The records the source rewrites in place are elements of a sequence that
 * the methods update by index.
 */
module PatchUpdate {
  import opened Wrappers
  import opened PyInt
  import opened Sorting
  import opened Tally
  import opened PatchFormat

  /* ---------------------------------------------------------------- */
  /* update_patch                                                      */

  /** What `update_patch` does with one old record. */
  datatype UpdateStep = NotFound | SameAsDefault | Refreshed(item: Fuse)

  predicate IsNotFound(s: UpdateStep) { s.NotFound? }
  predicate IsSameAsDefault(s: UpdateStep) { s.SameAsDefault? }
  predicate IsRefreshed(s: UpdateStep) { s.Refreshed? }

  /**
   * One old record against the defaults: dropped when no default has its
   * name, dropped when it came from config.out and its value is the
   * default's, otherwise its position and type are taken from the first
   * default of that name while its name and value are kept.
   */
  function UpdateOne(cur: Fuse, defaults: seq<Fuse>): (r: UpdateStep)
    ensures r.NotFound? <==> cur.name !in Names(defaults)
    ensures r.SameAsDefault? <==>
      cur.name in Names(defaults) && cur.cfgItem &&
      cur.value == defaults[FindByName(cur.name, defaults).value].value
    ensures r.Refreshed? ==>
      cur.name in Names(defaults) &&
      var d := defaults[FindByName(cur.name, defaults).value];
      r.item.addr == d.addr && r.item.startBit == d.startBit &&
      r.item.width == d.width && r.item.typ == d.typ &&
      r.item.name == cur.name && r.item.value == cur.value &&
      r.item.cfgItem == cur.cfgItem && r.item.skip == cur.skip
  {
    match FindByName(cur.name, defaults)
    case None => NotFound
    case Some(k) =>
      if cur.cfgItem && cur.value == defaults[k].value then SameAsDefault
      else Refreshed(cur.(addr := defaults[k].addr, startBit := defaults[k].startBit,
                          width := defaults[k].width, typ := defaults[k].typ))
  }

  function UpdateSteps(olds: seq<Fuse>, defaults: seq<Fuse>): (r: seq<UpdateStep>)
    ensures |r| == |olds|
    ensures forall i :: 0 <= i < |olds| ==> r[i] == UpdateOne(olds[i], defaults)
  {
    seq(|olds|, i requires 0 <= i < |olds| => UpdateOne(olds[i], defaults))
  }

  /** The refreshed records, in the order of the old list (`tmp_items`). */
  function Refreshes(steps: seq<UpdateStep>): (r: seq<Fuse>)
    ensures |r| == Count(steps, IsRefreshed)
  {
    if steps == [] then []
    else
      var last := steps[|steps| - 1];
      Refreshes(steps[..|steps| - 1]) + (if last.Refreshed? then [last.item] else [])
  }

  lemma RefreshesSnoc(steps: seq<UpdateStep>, s: UpdateStep)
    ensures Refreshes(steps + [s]) == Refreshes(steps) + (if s.Refreshed? then [s.item] else [])
  {
    assert (steps + [s])[..|steps|] == steps;
  }

  lemma {:induction false} RefreshesMembers(steps: seq<UpdateStep>)
    ensures forall f :: f in Refreshes(steps) <==> Refreshed(f) in steps
    decreases |steps|
  {
    if steps != [] {
      assert steps == steps[..|steps| - 1] + [steps[|steps| - 1]];
      RefreshesMembers(steps[..|steps| - 1]);
    }
  }

  /** What one more old record adds to the steps, the counters and the refreshed records. */
  lemma UpdateStepsSnoc(olds: seq<Fuse>, defaults: seq<Fuse>, i: nat)
    requires i < |olds|
    ensures var steps := UpdateSteps(olds[..i], defaults);
      var step := UpdateOne(olds[i], defaults);
      UpdateSteps(olds[..i + 1], defaults) == steps + [step] &&
      Refreshes(steps + [step]) == Refreshes(steps) + (if step.Refreshed? then [step.item] else []) &&
      Count(steps + [step], IsRefreshed) == Count(steps, IsRefreshed) + (if step.Refreshed? then 1 else 0) &&
      Count(steps + [step], IsNotFound) == Count(steps, IsNotFound) + (if step.NotFound? then 1 else 0) &&
      Count(steps + [step], IsSameAsDefault) == Count(steps, IsSameAsDefault) + (if step.SameAsDefault? then 1 else 0)
  {
    var steps := UpdateSteps(olds[..i], defaults);
    var step := UpdateOne(olds[i], defaults);
    assert UpdateSteps(olds[..i + 1], defaults) == steps + [step];
    CountSnoc(steps, step, IsRefreshed);
    CountSnoc(steps, step, IsNotFound);
    CountSnoc(steps, step, IsSameAsDefault);
    RefreshesSnoc(steps, step);
  }

  /** Every old record is counted exactly once: updated, not found or skipped. */
  lemma {:induction false} StepCounts(steps: seq<UpdateStep>)
    ensures Count(steps, IsRefreshed) + Count(steps, IsNotFound) + Count(steps, IsSameAsDefault) == |steps|
    decreases |steps|
  {
    if steps != [] {
      StepCounts(steps[..|steps| - 1]);
    }
  }

  /** Rows without position data and rows flagged SKIP are not written. */
  predicate Emitted(f: Fuse)
  {
    !(f.addr == 0 && f.width == 0) && !f.skip
  }

  /** The records `update_patch` writes, in the order it writes them. */
  function UpdateOutput(olds: seq<Fuse>, defaults: seq<Fuse>): seq<Fuse>
  {
    Filter(SortBy(Refreshes(UpdateSteps(olds, defaults)), BitPosition), Emitted)
  }

  /** The lines `update_patch` writes. */
  function UpdateFile(olds: seq<Fuse>, defaults: seq<Fuse>): seq<string>
  {
    [Header] + PlainRows(UpdateOutput(olds, defaults))
  }

  /** `update_patch(old_items, new_items, ...)`: the lines written and the three counters. */
  method UpdatePatch(olds: seq<Fuse>, defaults: seq<Fuse>)
    returns (lines: seq<string>, updated: nat, notFound: nat, skipped: nat)
    ensures lines == UpdateFile(olds, defaults)
    ensures updated == Count(UpdateSteps(olds, defaults), IsRefreshed)
    ensures notFound == Count(UpdateSteps(olds, defaults), IsNotFound)
    ensures skipped == Count(UpdateSteps(olds, defaults), IsSameAsDefault)
    ensures updated + notFound + skipped == |olds|
  {
    var kept: seq<Fuse> := [];
    updated, notFound, skipped := 0, 0, 0;
    for i := 0 to |olds|
      invariant kept == Refreshes(UpdateSteps(olds[..i], defaults))
      invariant updated == Count(UpdateSteps(olds[..i], defaults), IsRefreshed)
      invariant notFound == Count(UpdateSteps(olds[..i], defaults), IsNotFound)
      invariant skipped == Count(UpdateSteps(olds[..i], defaults), IsSameAsDefault)
    {
      ghost var steps := UpdateSteps(olds[..i], defaults);
      var cur := olds[i];
      ghost var step := UpdateOne(cur, defaults);
      UpdateStepsSnoc(olds, defaults, i);
      match FindByName(cur.name, defaults)
      case None =>
        assert step == NotFound;
        notFound := notFound + 1;
      case Some(k) =>
        if cur.cfgItem && cur.value == defaults[k].value {
          assert step == SameAsDefault;
          skipped := skipped + 1;
        } else {
          cur := cur.(addr := defaults[k].addr, startBit := defaults[k].startBit,
                      width := defaults[k].width, typ := defaults[k].typ);
          assert step == Refreshed(cur);
          updated := updated + 1;
          kept := kept + [cur];
        }
    }
    assert olds[..|olds|] == olds;
    StepCounts(UpdateSteps(olds, defaults));

    var rows := WriteRows(SortBy(kept, BitPosition));
    lines := [Header] + rows;
  }

  /** The writing loop of `update_patch`: a row for each record with position data and no SKIP flag. */
  method WriteRows(sorted: seq<Fuse>) returns (rows: seq<string>)
    ensures rows == PlainRows(Filter(sorted, Emitted))
  {
    var written: seq<Fuse> := [];
    for j := 0 to |sorted|
      invariant written == Filter(sorted[..j], Emitted)
    {
      assert sorted[..j + 1] == sorted[..j] + [sorted[j]];
      CountSnoc(sorted[..j], sorted[j], Emitted);
      if sorted[j].addr == 0 && sorted[j].width == 0 {
        continue;
      }
      if sorted[j].skip {
        continue;
      }
      written := written + [sorted[j]];
    }
    assert sorted[..|sorted|] == sorted;
    rows := PlainRows(written);
  }

  /**
   * What `update_patch` promises about its output: the rows are in
   * bit-position order, each is a refreshed old record with position data
   * and not flagged SKIP, and every such refreshed record is written.
   */
  lemma UpdateOutputSpec(olds: seq<Fuse>, defaults: seq<Fuse>)
    ensures SortedBy(UpdateOutput(olds, defaults), BitPosition)
    ensures forall f :: f in UpdateOutput(olds, defaults) <==>
      Emitted(f) && exists i :: 0 <= i < |olds| && UpdateOne(olds[i], defaults) == Refreshed(f)
    ensures forall f :: f in UpdateOutput(olds, defaults) ==> f.name in Names(defaults)
  {
    var steps := UpdateSteps(olds, defaults);
    var kept := Refreshes(steps);
    var sorted := SortBy(kept, BitPosition);
    SortBySorted(kept, BitPosition);
    FilterSorted(sorted, Emitted, BitPosition);
    FilterMembers(sorted, Emitted);
    RefreshesMembers(steps);
    forall f ensures f in UpdateOutput(olds, defaults) <==>
      Emitted(f) && exists i :: 0 <= i < |olds| && UpdateOne(olds[i], defaults) == Refreshed(f)
    {
      assert f in sorted <==> f in kept by {
        assert f in multiset(sorted) <==> f in multiset(kept);
      }
      if f in UpdateOutput(olds, defaults) {
        var m :| 0 <= m < |UpdateOutput(olds, defaults)| && UpdateOutput(olds, defaults)[m] == f;
        var i :| 0 <= i < |steps| && steps[i] == Refreshed(f);
        assert UpdateOne(olds[i], defaults) == Refreshed(f);
      }
      if Emitted(f) && exists i :: 0 <= i < |olds| && UpdateOne(olds[i], defaults) == Refreshed(f) {
        var i :| 0 <= i < |olds| && UpdateOne(olds[i], defaults) == Refreshed(f);
        assert steps[i] == Refreshed(f);
        var m :| 0 <= m < |sorted| && sorted[m] == f;
      }
    }
  }

  /* ---------------------------------------------------------------- */
  /* The update mode: imported values and config.out stubs             */

  /** The old list and the counters of the import step. */
  datatype ImportState = ImportState(items: seq<Fuse>, lockedKept: nat, unlockedKept: nat,
                                     unlockedChanged: nat, added: nat)

  /**
   * One imported record: appended when no record of the list has its name;
   * otherwise, only when a locked list was given, the first record of that
   * name takes its value unless the name is locked.
   */
  function ImportOne(st: ImportState, imp: Fuse, locked: seq<string>, keepLocked: bool): ImportState
  {
    match FindByName(imp.name, st.items)
    case None => st.(items := st.items + [imp], added := st.added + 1)
    case Some(k) =>
      if !keepLocked then st
      else if st.items[k].name in locked then st.(lockedKept := st.lockedKept + 1)
      else if st.items[k].value != imp.value then
        st.(items := st.items[k := st.items[k].(value := imp.value)],
            unlockedChanged := st.unlockedChanged + 1)
      else st.(unlockedKept := st.unlockedKept + 1)
  }

  function Imported(olds: seq<Fuse>, imps: seq<Fuse>, locked: seq<string>, keepLocked: bool): ImportState
  {
    if imps == [] then ImportState(olds, 0, 0, 0, 0)
    else ImportOne(Imported(olds, imps[..|imps| - 1], locked, keepLocked), imps[|imps| - 1], locked, keepLocked)
  }

  /** The import loop of the update mode. */
  method ImportItems(olds: seq<Fuse>, imps: seq<Fuse>, locked: seq<string>, keepLocked: bool)
    returns (st: ImportState)
    ensures st == Imported(olds, imps, locked, keepLocked)
  {
    var items := olds;
    var lockedKept, unlockedKept, unlockedChanged, added := 0, 0, 0, 0;
    for i := 0 to |imps|
      invariant ImportState(items, lockedKept, unlockedKept, unlockedChanged, added)
                == Imported(olds, imps[..i], locked, keepLocked)
    {
      assert imps[..i + 1][..i] == imps[..i];
      var cur := imps[i];
      match FindByName(cur.name, items)
      case None =>
        items := items + [cur];
        added := added + 1;
      case Some(k) =>
        if keepLocked {
          if items[k].name in locked {
            lockedKept := lockedKept + 1;
          } else if items[k].value != cur.value {
            items := items[k := items[k].(value := cur.value)];
            unlockedChanged := unlockedChanged + 1;
          } else {
            unlockedKept := unlockedKept + 1;
          }
        }
    }
    assert imps[..|imps|] == imps;
    st := ImportState(items, lockedKept, unlockedKept, unlockedChanged, added);
  }

  /**
   * The import step only appends records and changes values: the old
   * records keep everything but their value, and keep even that when no
   * locked list was given or their name is locked.
   */
  lemma {:induction false} ImportedKeepsOld(olds: seq<Fuse>, imps: seq<Fuse>, locked: seq<string>, keepLocked: bool)
    ensures var st := Imported(olds, imps, locked, keepLocked);
      |st.items| == |olds| + st.added &&
      (forall j :: 0 <= j < |olds| ==> st.items[j] == olds[j].(value := st.items[j].value)) &&
      (!keepLocked ==> forall j :: 0 <= j < |olds| ==> st.items[j] == olds[j]) &&
      (keepLocked ==> forall j :: 0 <= j < |olds| && olds[j].name in locked ==> st.items[j] == olds[j])
    decreases |imps|
  {
    if imps != [] {
      ImportedKeepsOld(olds, imps[..|imps| - 1], locked, keepLocked);
      ImportOneKeepsOld(Imported(olds, imps[..|imps| - 1], locked, keepLocked), imps[|imps| - 1], olds, locked, keepLocked);
    }
  }

  lemma ImportOneKeepsOld(st: ImportState, imp: Fuse, olds: seq<Fuse>, locked: seq<string>, keepLocked: bool)
    requires |st.items| == |olds| + st.added
    requires forall j :: 0 <= j < |olds| ==> st.items[j] == olds[j].(value := st.items[j].value)
    requires !keepLocked ==> forall j :: 0 <= j < |olds| ==> st.items[j] == olds[j]
    requires keepLocked ==> forall j :: 0 <= j < |olds| && olds[j].name in locked ==> st.items[j] == olds[j]
    ensures var next := ImportOne(st, imp, locked, keepLocked);
      |next.items| == |olds| + next.added &&
      (forall j :: 0 <= j < |olds| ==> next.items[j] == olds[j].(value := next.items[j].value)) &&
      (!keepLocked ==> forall j :: 0 <= j < |olds| ==> next.items[j] == olds[j]) &&
      (keepLocked ==> forall j :: 0 <= j < |olds| && olds[j].name in locked ==> next.items[j] == olds[j])
  {
  }

  /** Names never change, so the import step keeps every name it has seen. */
  lemma {:induction false} ImportedNames(olds: seq<Fuse>, imps: seq<Fuse>, locked: seq<string>, keepLocked: bool)
    ensures forall i :: 0 <= i < |imps| ==> imps[i].name in Names(Imported(olds, imps, locked, keepLocked).items)
    ensures Names(olds) <= Names(Imported(olds, imps, locked, keepLocked).items)
    decreases |imps|
  {
    if imps != [] {
      var init := imps[..|imps| - 1];
      var imp := imps[|imps| - 1];
      ImportedNames(olds, init, locked, keepLocked);
      var prev := Imported(olds, init, locked, keepLocked);
      var st := Imported(olds, imps, locked, keepLocked);
      ImportOneNames(prev, imp, locked, keepLocked);
      var before, after := Names(prev.items), Names(st.items);
      forall i | 0 <= i < |imps| ensures imps[i].name in after {
        if i < |imps| - 1 {
          assert imps[i] == init[i];
          PrefixIn(before, after, imps[i].name);
        }
      }
    }
  }

  /** One import keeps the names before it, in place, and holds the imported name. */
  lemma ImportOneNames(st: ImportState, imp: Fuse, locked: seq<string>, keepLocked: bool)
    ensures Names(st.items) <= Names(ImportOne(st, imp, locked, keepLocked).items)
    ensures imp.name in Names(ImportOne(st, imp, locked, keepLocked).items)
  {
    var next := ImportOne(st, imp, locked, keepLocked).items;
    var a, b := Names(st.items), Names(next);
    match FindByName(imp.name, st.items)
    case None =>
      assert b == a + [imp.name];
    case Some(k) =>
      assert b == a by {
        forall j | 0 <= j < |a| ensures b[j] == a[j] {
          assert next[j].name == st.items[j].name;
        }
      }
      assert a[k] == imp.name;
  }

  lemma PrefixIn<T>(a: seq<T>, b: seq<T>, x: T)
    requires a <= b && x in a
    ensures x in b
  {
    var i :| 0 <= i < |a| && a[i] == x;
    assert b[i] == x;
  }

  /** With a locked list every imported record is counted exactly once. */
  lemma {:induction false} ImportedCounts(olds: seq<Fuse>, imps: seq<Fuse>, locked: seq<string>)
    ensures var st := Imported(olds, imps, locked, true);
      st.lockedKept + st.unlockedKept + st.unlockedChanged + st.added == |imps|
    decreases |imps|
  {
    if imps != [] {
      ImportedCounts(olds, imps[..|imps| - 1], locked);
    }
  }

  /** The stub a config.out record becomes when the patch does not have it. */
  function Stub(c: Fuse): (r: Fuse)
    ensures r.addr == 0 && r.width == 0 && r.cfgItem && !r.skip
  {
    Fuse(0, 0, 0, c.value, c.name, "(fuse)", true, false)
  }

  /** The stubs for the config.out records whose name no record of `items` has, in order. */
  function Stubs(items: seq<Fuse>, cfg: seq<Fuse>): seq<Fuse>
  {
    if cfg == [] then []
    else
      var c := cfg[|cfg| - 1];
      Stubs(items, cfg[..|cfg| - 1]) + (if c.name in Names(items) then [] else [Stub(c)])
  }

  /** The config.out step of the update mode: the old list with the stubs appended. */
  method AddStubs(olds: seq<Fuse>, cfg: seq<Fuse>) returns (items: seq<Fuse>)
    ensures items == olds + Stubs(olds, cfg)
  {
    var stubs: seq<Fuse> := [];
    for i := 0 to |cfg|
      invariant stubs == Stubs(olds, cfg[..i])
    {
      assert cfg[..i + 1][..i] == cfg[..i];
      var found := false;
      for j := 0 to |olds|
        invariant found <==> exists m :: 0 <= m < j && olds[m].name == cfg[i].name
      {
        if olds[j].name == cfg[i].name {
          found := true;
        }
      }
      assert found <==> cfg[i].name in Names(olds);
      if !found {
        stubs := stubs + [Stub(cfg[i])];
      }
    }
    assert cfg[..|cfg|] == cfg;
    items := olds + stubs;
  }

  /** A stub is added exactly for each config.out record whose name the list lacks. */
  lemma {:induction false} StubsSpec(items: seq<Fuse>, cfg: seq<Fuse>)
    ensures forall s :: s in Stubs(items, cfg) ==> s.name !in Names(items) && s.addr == 0 && s.width == 0 && s.cfgItem
    ensures forall i :: 0 <= i < |cfg| && cfg[i].name !in Names(items) ==> Stub(cfg[i]) in Stubs(items, cfg)
    ensures |Stubs(items, cfg)| <= |cfg|
    decreases |cfg|
  {
    if cfg != [] {
      StubsSpec(items, cfg[..|cfg| - 1]);
      forall i | 0 <= i < |cfg| - 1 ensures cfg[i] == cfg[..|cfg| - 1][i] { }
    }
  }

  /** The whole update mode on lists already read; `None` when it stops without writing. */
  function UpdateModeFile(olds: seq<Fuse>, defaults: seq<Fuse>, locked: Option<seq<string>>,
                          imported: Option<seq<Fuse>>, cfg: seq<Fuse>): Option<seq<string>>
  {
    if olds == [] || defaults == [] || locked == Some([]) || imported == Some([]) then None
    else
      var keepLocked := locked.Some?;
      var lockedNames := if locked.Some? then locked.value else [];
      var afterImport := if imported.Some? then Imported(olds, imported.value, lockedNames, keepLocked).items else olds;
      Some(UpdateFile(afterImport + Stubs(afterImport, cfg), defaults))
  }

  /**
   * The update mode: stop when the old patch, the defaults, a given locked
   * list or a given import file is empty; otherwise import, add stubs and
   * update.
   */
  method UpdateMode(olds: seq<Fuse>, defaults: seq<Fuse>, locked: Option<seq<string>>,
                    imported: Option<seq<Fuse>>, cfg: seq<Fuse>) returns (r: Option<seq<string>>)
    ensures r == UpdateModeFile(olds, defaults, locked, imported, cfg)
    ensures r.None? <==> olds == [] || defaults == [] || locked == Some([]) || imported == Some([])
  {
    if olds == [] || defaults == [] {
      return None;
    }
    var keepLocked := false;
    var lockedNames: seq<string> := [];
    if locked.Some? {
      lockedNames := locked.value;
      if |lockedNames| == 0 {
        assert locked == Some([]);
        return None;
      }
      keepLocked := true;
    }
    assert locked != Some([]);
    var items := olds;
    if imported.Some? {
      if |imported.value| == 0 {
        assert imported == Some([]);
        return None;
      }
      var st := ImportItems(olds, imported.value, lockedNames, keepLocked);
      items := st.items;
    }
    assert imported != Some([]);
    assert items == if imported.Some? then Imported(olds, imported.value, lockedNames, keepLocked).items else olds;
    items := AddStubs(items, cfg);
    var lines, _, _, _ := UpdatePatch(items, defaults);
    r := Some(lines);
  }

  /* ---------------------------------------------------------------- */
  /* The prune mode                                                    */

  /** What the prune mode does with one old record. */
  datatype PruneStep = NoDefault(item: Fuse) | Differs(item: Fuse) | SameValue

  predicate IsNoDefault(s: PruneStep) { s.NoDefault? }
  predicate IsSameValue(s: PruneStep) { s.SameValue? }

  /**
   * One old record against the defaults: kept and typed "no default" when
   * no default has its name, kept and typed with the default's value in
   * hex when the values differ, dropped when they are equal.
   */
  function PruneOne(cur: Fuse, defaults: seq<Fuse>): (r: PruneStep)
    ensures r.NoDefault? <==> cur.name !in Names(defaults)
    ensures r.SameValue? <==>
      cur.name in Names(defaults) && defaults[FindByName(cur.name, defaults).value].value == cur.value
    ensures r.NoDefault? ==> r.item == cur.(typ := "no default")
    ensures r.Differs? ==> (cur.name in Names(defaults) &&
      r.item == cur.(typ := "0x" + FormatHex(defaults[FindByName(cur.name, defaults).value].value, 0)))
  {
    match FindByName(cur.name, defaults)
    case None => NoDefault(cur.(typ := "no default"))
    case Some(k) =>
      if defaults[k].value != cur.value then Differs(cur.(typ := "0x" + FormatHex(defaults[k].value, 0)))
      else SameValue
  }

  function PruneSteps(olds: seq<Fuse>, defaults: seq<Fuse>): (r: seq<PruneStep>)
    ensures |r| == |olds|
    ensures forall i :: 0 <= i < |olds| ==> r[i] == PruneOne(olds[i], defaults)
  {
    seq(|olds|, i requires 0 <= i < |olds| => PruneOne(olds[i], defaults))
  }

  /** The kept records (`kept_items`), in the order of the old list. */
  function KeptItems(steps: seq<PruneStep>): seq<Fuse>
  {
    if steps == [] then []
    else
      var last := steps[|steps| - 1];
      KeptItems(steps[..|steps| - 1]) + (if last.SameValue? then [] else [last.item])
  }

  function Pruned(olds: seq<Fuse>, defaults: seq<Fuse>): seq<Fuse>
  {
    KeptItems(PruneSteps(olds, defaults))
  }

  /** What one more old record adds to the steps, the counters and the kept records. */
  lemma PruneStepsSnoc(olds: seq<Fuse>, defaults: seq<Fuse>, i: nat)
    requires i < |olds|
    ensures var steps := PruneSteps(olds[..i], defaults);
      var step := PruneOne(olds[i], defaults);
      PruneSteps(olds[..i + 1], defaults) == steps + [step] &&
      KeptItems(steps + [step]) == KeptItems(steps) + (if step.SameValue? then [] else [step.item]) &&
      Count(steps + [step], IsNoDefault) == Count(steps, IsNoDefault) + (if step.NoDefault? then 1 else 0) &&
      Count(steps + [step], IsSameValue) == Count(steps, IsSameValue) + (if step.SameValue? then 1 else 0)
  {
    var steps := PruneSteps(olds[..i], defaults);
    var step := PruneOne(olds[i], defaults);
    assert PruneSteps(olds[..i + 1], defaults) == steps + [step];
    assert (steps + [step])[..i] == steps;
    CountSnoc(steps, step, IsNoDefault);
    CountSnoc(steps, step, IsSameValue);
  }

  /** Kept and discarded records add up to the old list. */
  lemma {:induction false} KeptCount(steps: seq<PruneStep>)
    ensures |KeptItems(steps)| + Count(steps, IsSameValue) == |steps|
    ensures Count(steps, IsNoDefault) <= |KeptItems(steps)|
    decreases |steps|
  {
    if steps != [] {
      KeptCount(steps[..|steps| - 1]);
    }
  }

  /**
   * The prune mode: stop when the old patch or the defaults are empty;
   * otherwise write the kept records with `save_patch_items`.
   */
  method Prune(olds: seq<Fuse>, defaults: seq<Fuse>)
    returns (r: Option<seq<string>>, notFound: nat, discarded: nat)
    ensures r.None? <==> olds == [] || defaults == []
    ensures r.Some? ==> r.value == SavedFile(Pruned(olds, defaults))
    ensures r.Some? ==> notFound == Count(PruneSteps(olds, defaults), IsNoDefault)
    ensures r.Some? ==> discarded == Count(PruneSteps(olds, defaults), IsSameValue)
    ensures r.Some? ==> |Pruned(olds, defaults)| + discarded == |olds|
  {
    notFound, discarded := 0, 0;
    if olds == [] || defaults == [] {
      return None, notFound, discarded;
    }
    var kept: seq<Fuse> := [];
    for i := 0 to |olds|
      invariant kept == KeptItems(PruneSteps(olds[..i], defaults))
      invariant notFound == Count(PruneSteps(olds[..i], defaults), IsNoDefault)
      invariant discarded == Count(PruneSteps(olds[..i], defaults), IsSameValue)
    {
      var cur := olds[i];
      ghost var step := PruneOne(cur, defaults);
      PruneStepsSnoc(olds, defaults, i);
      match FindByName(cur.name, defaults)
      case None =>
        assert step.NoDefault?;
        notFound := notFound + 1;
        cur := cur.(typ := "no default");
        kept := kept + [cur];
      case Some(k) =>
        if defaults[k].value != cur.value {
          cur := cur.(typ := "0x" + FormatHex(defaults[k].value, 0));
          assert step == Differs(cur);
          kept := kept + [cur];
        } else {
          assert step == SameValue;
          discarded := discarded + 1;
        }
    }
    assert olds[..|olds|] == olds;
    KeptCount(PruneSteps(olds, defaults));
    var lines := SavePatchItems(kept);
    r := Some(lines);
  }

  /**
   * An old record is kept exactly when its step is not "same value", and
   * every kept record is the retyped form of one old record.
   */
  lemma PrunedSpec(olds: seq<Fuse>, defaults: seq<Fuse>)
    ensures forall i :: 0 <= i < |olds| && !PruneOne(olds[i], defaults).SameValue? ==>
      PruneOne(olds[i], defaults).item in Pruned(olds, defaults)
    ensures forall f :: f in Pruned(olds, defaults) ==>
      exists i :: 0 <= i < |olds| && !PruneOne(olds[i], defaults).SameValue? && PruneOne(olds[i], defaults).item == f
  {
    var steps := PruneSteps(olds, defaults);
    KeptItemsSpec(steps);
    forall f | f in Pruned(olds, defaults) ensures
      exists i :: 0 <= i < |olds| && !PruneOne(olds[i], defaults).SameValue? && PruneOne(olds[i], defaults).item == f
    {
      var i :| 0 <= i < |steps| && !steps[i].SameValue? && steps[i].item == f;
      assert steps[i] == PruneOne(olds[i], defaults);
    }
  }

  /** The kept records are the items of the steps that are not "same value", in order. */
  lemma {:induction false} KeptItemsSpec(steps: seq<PruneStep>)
    ensures forall i :: 0 <= i < |steps| && !steps[i].SameValue? ==> steps[i].item in KeptItems(steps)
    ensures forall f :: f in KeptItems(steps) ==> exists i :: 0 <= i < |steps| && !steps[i].SameValue? && steps[i].item == f
    decreases |steps|
  {
    if steps != [] {
      var init := steps[..|steps| - 1];
      var last := steps[|steps| - 1];
      KeptItemsSpec(init);
      forall i | 0 <= i < |init| ensures init[i] == steps[i] { }
      forall f | f in KeptItems(steps) ensures
        exists i :: 0 <= i < |steps| && !steps[i].SameValue? && steps[i].item == f
      {
        if f in KeptItems(init) {
          var i :| 0 <= i < |init| && !init[i].SameValue? && init[i].item == f;
          assert steps[i] == init[i];
        } else {
          assert !last.SameValue? && f == last.item;
        }
      }
    }
  }
}
