/**
 * The catalogue helpers of bin/fusegen-tools.py that work on records the
 * XML reader has already extracted: port ids and the DLUT sort key
 * (`combine_portid`, `get_instance_by_portid`, `get_dlut`), the rule of
 * `parse_high_groups`, the per-instance group statistics of `get_stats`
 * and the lowest and highest fuse of `get_fuse_stats`.
 */
module FuseCatalog {
  import opened Wrappers
  import opened PyStr
  import opened PyBits
  import opened Sorting
  import opened Tally
  import opened FuseValue
  import opened FuseBlob

  /* ---------------------------------------------------------------- */
  /* Port ids                                                          */

  /** `combine_portid(portid_hi, portid_lo)`: the high id shifted up a byte, or-ed with the low id. */
  function CombinePortId(hi: int, lo: int): int
  {
    BitOr(Shl(hi, 8), lo)
  }

  /** With a low id that fits a byte, the combined id is `hi * 256 + lo` and gives both ids back. */
  lemma CombinePortIdSpec(hi: int, lo: int)
    requires 0 <= lo < 256
    ensures CombinePortId(hi, lo) == hi * 256 + lo
    ensures CombinePortId(hi, lo) / 256 == hi && CombinePortId(hi, lo) % 256 == lo
  {
    assert Pow2(8) == 256;
    OrShifted(hi, 8, lo);
    DivModUnique(hi * 256 + lo, 256, hi, lo);
  }

  /** Distinct pairs of ids with byte-sized low ids combine to distinct full ids. */
  lemma CombinePortIdInjective(hi: int, lo: int, hi': int, lo': int)
    requires 0 <= lo < 256 && 0 <= lo' < 256
    requires CombinePortId(hi, lo) == CombinePortId(hi', lo')
    ensures hi == hi' && lo == lo'
  {
    CombinePortIdSpec(hi, lo);
    CombinePortIdSpec(hi', lo');
  }

  /* ---------------------------------------------------------------- */
  /* The DLUT sort key                                                 */

  /** The type bit of the sort key: 0 for a direct fuse, 1 for anything else. */
  function TypeBit(typ: string): (t: int)
    ensures t == 0 <==> typ == DirectFuse
    ensures t == 0 || t == 1
  {
    if typ == DirectFuse then 0 else 1
  }

  /**
   * `(portid_full << 24) | (sbep << 20) | (typebit << 16) | (group << 8) | count`,
   * or-ed from the left as Python evaluates it.
   */
  function SortKey(portIdFull: int, sbep: int, typ: string, group: int, count: int): int
  {
    BitOr(BitOr(BitOr(BitOr(Shl(portIdFull, PortIdShift), Shl(sbep, SbepShift)), Shl(TypeBit(typ), TypeShift)),
                Shl(group, GroupShift)), count)
  }

  /** Where the key puts each field: port id at bit 24, endpoint at 20, type bit at 16, group at 8. */
  const PortIdShift: nat := 24
  const SbepShift: nat := 20
  const TypeShift: nat := 16
  const GroupShift: nat := 8

  lemma MulDouble(x: int, p: int)
    ensures x * (2 * p) == 2 * (x * p)
  {
  }

  lemma MulNonZero(x: int, p: int)
    requires x != 0 && p >= 1
    ensures x * p != 0
  {
    if x > 0 {
      MulLeft(x, p);
    } else {
      MulLeft(-x, p);
      assert x * p == -((-x) * p);
    }
  }

  /** Halving an even number that is neither 0 nor -1 halves its or with another such number. */
  lemma OrEven(a: int, b: int)
    requires a != 0 && b != 0
    ensures BitOr(2 * a, 2 * b) == 2 * BitOr(a, b)
  {
    assert (2 * a) / 2 == a && (2 * a) % 2 == 0;
    assert (2 * b) / 2 == b && (2 * b) % 2 == 0;
  }

  /** Or-ing two numbers shifted by the same amount is or-ing them and shifting. */
  lemma {:induction false} OrLowZeros(x: int, y: int, m: nat)
    ensures BitOr(x * Pow2(m), y * Pow2(m)) == BitOr(x, y) * Pow2(m)
    decreases m
  {
    if x == 0 {
      assert x * Pow2(m) == 0;
    } else if y == 0 {
      assert y * Pow2(m) == 0;
    } else if m > 0 {
      var p := Pow2(m - 1);
      assert Pow2(m) == 2 * p;
      MulDouble(x, p);
      MulDouble(y, p);
      MulNonZero(x, p);
      MulNonZero(y, p);
      OrEven(x * p, y * p);
      OrLowZeros(x, y, m - 1);
      MulDouble(BitOr(x, y), p);
    }
  }

  /** Or-ing a field of `k` bits, shifted by `m`, below a number shifted by `k + m`. */
  lemma OrField(a: int, k: nat, b: int, m: nat)
    requires 0 <= b < Pow2(k)
    ensures BitOr(a * Pow2(k + m), b * Pow2(m)) == (a * Pow2(k) + b) * Pow2(m)
  {
    Pow2Add(k, m);
    assert a * Pow2(k + m) == (a * Pow2(k)) * Pow2(m);
    OrLowZeros(a * Pow2(k), b, m);
    OrShifted(a, k, b);
  }

  /** Two fields of `k` bits or-ed in turn below a number: the mixed-radix number of the three. */
  lemma OrTwoFields(p: int, s: int, t: int, k: nat, m: nat)
    requires 0 <= s < Pow2(k) && 0 <= t < Pow2(k)
    ensures BitOr(BitOr(p * Pow2(k + k + m), s * Pow2(k + m)), t * Pow2(m)) ==
      ((p * Pow2(k) + s) * Pow2(k) + t) * Pow2(m)
  {
    OrField(p, k, s, k + m);
    assert k + (k + m) == k + k + m;
    OrField(p * Pow2(k) + s, k, t, m);
  }

  /** Four fields or-ed in turn below a number, as a mixed-radix number, for any field widths. */
  lemma OrFourFields(p: int, s: int, t: int, group: int, count: int, a: nat, b: nat)
    requires 0 <= s < Pow2(a) && 0 <= t < Pow2(a) && 0 <= group < Pow2(b) && 0 <= count < Pow2(b)
    ensures BitOr(BitOr(BitOr(BitOr(Shl(p, a + a + (b + b)), Shl(s, a + (b + b))), Shl(t, b + b)), Shl(group, b)), count) ==
      (((p * Pow2(a) + s) * Pow2(a) + t) * Pow2(b) + group) * Pow2(b) + count
  {
    OrTwoFields(p, s, t, a, b + b);
    var a2 := (p * Pow2(a) + s) * Pow2(a) + t;
    OrField(a2, b, group, b);
    OrShifted(a2 * Pow2(b) + group, b, count);
  }

  /** The key as a mixed-radix number, with the radixes left as powers of two. */
  lemma SortKeyRadix(portIdFull: int, sbep: int, t: int, group: int, count: int)
    requires 0 <= sbep < Pow2(4) && 0 <= t < Pow2(4) && 0 <= group < Pow2(8) && 0 <= count < Pow2(8)
    ensures BitOr(BitOr(BitOr(BitOr(Shl(portIdFull, PortIdShift), Shl(sbep, SbepShift)), Shl(t, TypeShift)),
                          Shl(group, GroupShift)), count) ==
      (((portIdFull * Pow2(4) + sbep) * Pow2(4) + t) * Pow2(8) + group) * Pow2(8) + count
  {
    var a, b: nat := 4, 8;
    assert PortIdShift == a + a + (b + b) && SbepShift == a + (b + b) && TypeShift == b + b && GroupShift == b;
    OrFourFields(portIdFull, sbep, t, group, count, a, b);
  }

  /** With each field within its bits, the key is the mixed-radix number of the five fields. */
  lemma SortKeySpec(portIdFull: int, sbep: int, typ: string, group: int, count: int)
    requires 0 <= sbep < 16 && 0 <= group < 256 && 0 <= count < 256
    ensures SortKey(portIdFull, sbep, typ, group, count) ==
      (((portIdFull * 16 + sbep) * 16 + TypeBit(typ)) * 256 + group) * 256 + count
  {
    var p4, p8 := Pow2(4), Pow2(8);
    assert p4 == 16 && p8 == 256;
    SortKeyRadix(portIdFull, sbep, TypeBit(typ), group, count);
    var a1 := portIdFull * p4 + sbep;
    assert a1 == portIdFull * 16 + sbep;
    var a2 := a1 * p4 + TypeBit(typ);
    assert a2 == a1 * 16 + TypeBit(typ);
    var a3 := a2 * p8 + group;
    assert a3 == a2 * 256 + group;
    assert a3 * p8 + count == a3 * 256 + count;
  }

  /** Comparing mixed-radix numbers digit by digit. */
  lemma Radix(x: int, d: int, y: int, e: int, base: int)
    requires 0 <= d < base && 0 <= e < base
    ensures x * base + d < y * base + e <==> x < y || (x == y && d < e)
    ensures x * base + d == y * base + e <==> x == y && d == e
  {
    if x < y {
      assert y * base - x * base == (y - x) * base;
      MulLeft(y - x, base);
    } else if y < x {
      assert x * base - y * base == (x - y) * base;
      MulLeft(x - y, base);
    }
  }

  /**
   * The order the sort key gives: by full port id, then endpoint, then
   * direct fuses before other kinds, then group, then count.
   */
  predicate DlutBefore(a: DlutEntry, b: DlutEntry)
  {
    a.portIdFull < b.portIdFull || (a.portIdFull == b.portIdFull &&
    (a.sbep < b.sbep || (a.sbep == b.sbep &&
    (TypeBit(a.typ) < TypeBit(b.typ) || (TypeBit(a.typ) == TypeBit(b.typ) &&
    (a.group < b.group || (a.group == b.group && a.count < b.count)))))))
  }

  /** The key fields of an entry fit the bits the key gives them. */
  predicate KeyFieldsFit(e: DlutEntry)
  {
    0 <= e.sbep < 16 && 0 <= e.group < 256 && 0 <= e.count < 256
  }

  function EntryKey(e: DlutEntry): int
  {
    SortKey(e.portIdFull, e.sbep, e.typ, e.group, e.count)
  }

  /** For entries whose fields fit, a smaller key means exactly an earlier entry in field order. */
  lemma SortKeyOrder(a: DlutEntry, b: DlutEntry)
    requires KeyFieldsFit(a) && KeyFieldsFit(b)
    ensures EntryKey(a) < EntryKey(b) <==> DlutBefore(a, b)
  {
    SortKeySpec(a.portIdFull, a.sbep, a.typ, a.group, a.count);
    SortKeySpec(b.portIdFull, b.sbep, b.typ, b.group, b.count);
    var a1, b1 := a.portIdFull * 16 + a.sbep, b.portIdFull * 16 + b.sbep;
    var a2, b2 := a1 * 16 + TypeBit(a.typ), b1 * 16 + TypeBit(b.typ);
    var a3, b3 := a2 * 256 + a.group, b2 * 256 + b.group;
    Radix(a.portIdFull, a.sbep, b.portIdFull, b.sbep, 16);
    Radix(a1, TypeBit(a.typ), b1, TypeBit(b.typ), 16);
    Radix(a2, a.group, b2, b.group, 256);
    Radix(a3, a.count, b3, b.count, 256);
  }

  /* ---------------------------------------------------------------- */
  /* get_instance_by_portid and get_dlut                               */

  /** One entry of `get_ip_info`: an IP, its unique instance name, its port ids and endpoint. */
  datatype IpInfo = IpInfo(ip: string, instance: string, hiPortId: int, loPortId: int,
                           portIdFull: int, sbep: int, pullTrigger: string)

  /** `get_instance_by_portid(ip_info, portid_full)`: the instance of the first entry with the id, else "". */
  function InstanceByPortId(ipInfo: seq<IpInfo>, portIdFull: int): (r: string)
    ensures (forall k :: 0 <= k < |ipInfo| ==> ipInfo[k].portIdFull != portIdFull) ==> r == ""
    ensures forall k :: (0 <= k < |ipInfo| && ipInfo[k].portIdFull == portIdFull &&
      (forall j :: 0 <= j < k ==> ipInfo[j].portIdFull != portIdFull)) ==> r == ipInfo[k].instance
  {
    if ipInfo == [] then ""
    else if ipInfo[0].portIdFull == portIdFull then ipInfo[0].instance
    else
      var r := InstanceByPortId(ipInfo[1..], portIdFull);
      assert forall k :: 0 < k < |ipInfo| ==> ipInfo[1..][k - 1] == ipInfo[k];
      r
  }

  /** The search loop of `get_instance_by_portid`. */
  method FindInstance(ipInfo: seq<IpInfo>, portIdFull: int) returns (instance: string)
    ensures instance == InstanceByPortId(ipInfo, portIdFull)
  {
    instance := "";
    for i := 0 to |ipInfo|
      invariant InstanceByPortId(ipInfo, portIdFull) == InstanceByPortId(ipInfo[i..], portIdFull)
    {
      assert ipInfo[i..][1..] == ipInfo[i + 1..];
      if ipInfo[i].portIdFull == portIdFull {
        instance := ipInfo[i].instance;
        return;
      }
    }
  }

  /** The attributes of one `DistributionLUT` element, as `process_value` reads them. */
  datatype DlutAttributes = DlutAttributes(sbep: int, hiPortId: int, loPortId: int, group: int, typ: string,
                                           count: int, rcvrAddr: int, bar: string, ramAddr: int, size: int,
                                           lockoutPos: int, lockoutAddr: int)

  /** The entry `get_dlut` builds from one element's attributes. */
  function DlutEntryOf(a: DlutAttributes, ipInfo: seq<IpInfo>): (e: DlutEntry)
    ensures e.portIdFull == CombinePortId(a.hiPortId, a.loPortId)
    ensures e.instance == InstanceByPortId(ipInfo, e.portIdFull)
    ensures e.sortKey == EntryKey(e)
  {
    var full := CombinePortId(a.hiPortId, a.loPortId);
    DlutEntry(InstanceByPortId(ipInfo, full), full, a.hiPortId, a.loPortId, a.sbep, a.group, a.typ, a.count,
              a.ramAddr, a.rcvrAddr, a.bar, a.size, a.lockoutPos, a.lockoutAddr,
              SortKey(full, a.sbep, a.typ, a.group, a.count))
  }

  function DlutEntriesOf(attrs: seq<DlutAttributes>, ipInfo: seq<IpInfo>): (r: seq<DlutEntry>)
    ensures |r| == |attrs|
    ensures forall k :: 0 <= k < |attrs| ==> r[k] == DlutEntryOf(attrs[k], ipInfo)
  {
    seq(|attrs|, k requires 0 <= k < |attrs| => DlutEntryOf(attrs[k], ipInfo))
  }

  function SortKeyOf(e: DlutEntry): int { e.sortKey }

  /** The table `get_dlut` returns: the entries sorted by their key, stably. */
  function Dlut(attrs: seq<DlutAttributes>, ipInfo: seq<IpInfo>): (r: seq<DlutEntry>)
  {
    SortBy(DlutEntriesOf(attrs, ipInfo), SortKeyOf)
  }

  /** The entry loop of `get_dlut`, then the sort. */
  method GetDlut(attrs: seq<DlutAttributes>, ipInfo: seq<IpInfo>) returns (r: seq<DlutEntry>)
    ensures r == Dlut(attrs, ipInfo)
  {
    var entries: seq<DlutEntry> := [];
    for i := 0 to |attrs|
      invariant entries == DlutEntriesOf(attrs[..i], ipInfo)
    {
      var a := attrs[i];
      var full := CombinePortId(a.hiPortId, a.loPortId);
      var instance := FindInstance(ipInfo, full);
      var key := SortKey(full, a.sbep, a.typ, a.group, a.count);
      entries := entries + [DlutEntry(instance, full, a.hiPortId, a.loPortId, a.sbep, a.group, a.typ, a.count,
                                      a.ramAddr, a.rcvrAddr, a.bar, a.size, a.lockoutPos, a.lockoutAddr, key)];
    }
    assert attrs[..|attrs|] == attrs;
    r := SortBy(entries, SortKeyOf);
  }

  /**
   * The table holds the entries built from the attributes, each once, in
   * key order; where the key fields fit their bits no entry comes after
   * one it precedes in field order.
   */
  lemma DlutOrdered(attrs: seq<DlutAttributes>, ipInfo: seq<IpInfo>)
    ensures multiset(Dlut(attrs, ipInfo)) == multiset(DlutEntriesOf(attrs, ipInfo))
    ensures SortedBy(Dlut(attrs, ipInfo), SortKeyOf)
    ensures forall i, j :: (0 <= i < j < |Dlut(attrs, ipInfo)| &&
      KeyFieldsFit(Dlut(attrs, ipInfo)[i]) && KeyFieldsFit(Dlut(attrs, ipInfo)[j])) ==>
      !DlutBefore(Dlut(attrs, ipInfo)[j], Dlut(attrs, ipInfo)[i])
  {
    var es := DlutEntriesOf(attrs, ipInfo);
    var d := Dlut(attrs, ipInfo);
    SortBySorted(es, SortKeyOf);
    forall e | e in d ensures e.sortKey == EntryKey(e) {
      assert e in multiset(d);
      assert e in multiset(es);
      var k :| 0 <= k < |es| && es[k] == e;
    }
    forall i, j | 0 <= i < j < |d| && KeyFieldsFit(d[i]) && KeyFieldsFit(d[j])
      ensures !DlutBefore(d[j], d[i])
    {
      assert d[i] in d && d[j] in d;
      SortKeyOrder(d[j], d[i]);
    }
  }

  /* ---------------------------------------------------------------- */
  /* parse_high_groups                                                 */

  /** The texts of the elements `parse_high_groups` reads from one fuse or strap. */
  datatype GroupCandidate = GroupCandidate(group: string, groupNumber: string, name: string,
                                           portId: string, ramAddr: string, category: string)

  /** One entry of the list of fuses and straps with non-standard groups. */
  datatype HighGroup = HighGroup(category: string, portId: int, name: string, addr: int, typ: string, groupNum: int)

  /** The group rule: a soft strap in any group but 4, or a direct fuse in a group above 3. */
  predicate NonStandardGroup(typ: string, groupNum: int)
  {
    (typ == SoftStrap && groupNum != 4) || (typ == DirectFuse && groupNum > 3)
  }

  /** A candidate the list takes: a readable group number that breaks the rule, and a port id. */
  predicate Qualifies(c: GroupCandidate)
  {
    match ProcessValue(Some(c.groupNumber))
    case Err(_) => false
    case Ok(g) => NonStandardGroup(c.group, g) && Strip(c.portId) != ""
  }

  /**
   * The loop body of `parse_high_groups` for one candidate: the group
   * number and the name are read first, the port id whenever it is not
   * blank, and the RAM address only for a candidate that is taken.
   */
  function HighGroupOf(c: GroupCandidate): (r: Result<Option<HighGroup>>)
    ensures r.Ok? ==> (r.value.Some? <==> Qualifies(c))
    ensures r.Ok? && r.value.Some? ==>
      var h := r.value.value;
      h.typ == c.group && NonStandardGroup(h.typ, h.groupNum) && Ok(h.groupNum) == ProcessValue(Some(c.groupNumber)) &&
      Ok(h.name) == FixupFuseName(Strip(c.name)) && Ok(h.portId) == ProcessValue(Some(c.portId)) &&
      Ok(h.addr) == ProcessValue(Some(c.ramAddr)) && h.category == c.category
  {
    match ProcessValue(Some(c.groupNumber))
    case Err(e) => Err(e)
    case Ok(g) =>
      match FixupFuseName(Strip(c.name))
      case Err(e) => Err(e)
      case Ok(name) =>
        if Strip(c.portId) == "" then Ok(None)
        else
          match ProcessValue(Some(c.portId))
          case Err(e) => Err(e)
          case Ok(pid) =>
            if !NonStandardGroup(c.group, g) then Ok(None)
            else
              match ProcessValue(Some(c.ramAddr))
              case Err(e) => Err(e)
              case Ok(addr) => Ok(Some(HighGroup(c.category, pid, name, addr, c.group, g)))
  }

  /** The outcome of each candidate. */
  function HighResults(cands: seq<GroupCandidate>): (r: seq<Result<Option<HighGroup>>>)
    ensures |r| == |cands|
    ensures forall k :: 0 <= k < |cands| ==> r[k] == HighGroupOf(cands[k])
  {
    seq(|cands|, k requires 0 <= k < |cands| => HighGroupOf(cands[k]))
  }

  /** The list extended with the entries of the outcomes in order, or the first error. */
  function GatherHigh(groups: seq<HighGroup>, rows: seq<Result<Option<HighGroup>>>): (r: Result<seq<HighGroup>>)
    decreases |rows|
  {
    if rows == [] then Ok(groups)
    else
      match GatherHigh(groups, rows[..|rows| - 1])
      case Err(e) => Err(e)
      case Ok(hs) =>
        match rows[|rows| - 1]
        case Err(e) => Err(e)
        case Ok(None) => Ok(hs)
        case Ok(Some(h)) => Ok(hs + [h])
  }

  /** `parse_high_groups(tree, high_groups)`: the list extended with the candidates taken, or the first error. */
  function HighGroups(groups: seq<HighGroup>, cands: seq<GroupCandidate>): Result<seq<HighGroup>>
  {
    if cands == [] then Ok(groups)
    else
      match HighGroups(groups, cands[..|cands| - 1])
      case Err(e) => Err(e)
      case Ok(hs) =>
        match HighGroupOf(cands[|cands| - 1])
        case Err(e) => Err(e)
        case Ok(None) => Ok(hs)
        case Ok(Some(h)) => Ok(hs + [h])
  }

  lemma {:induction false} HighGroupsErrStays(groups: seq<HighGroup>, cands: seq<GroupCandidate>, n: nat)
    requires n <= |cands| && HighGroups(groups, cands[..n]).Err?
    ensures HighGroups(groups, cands) == HighGroups(groups, cands[..n])
    decreases |cands| - n
  {
    if n < |cands| {
      assert cands[..n + 1][..n] == cands[..n];
      HighGroupsErrStays(groups, cands, n + 1);
    } else {
      assert cands[..n] == cands;
    }
  }

  /** One more candidate: its outcome's error, or the list so far with its entry, if any. */
  lemma HighGroupsSnoc(groups: seq<HighGroup>, cands: seq<GroupCandidate>, i: nat, local: seq<HighGroup>,
                       h: Result<Option<HighGroup>>)
    requires i < |cands| && HighGroups(groups, cands[..i]) == Ok(local) && h == HighGroupOf(cands[i])
    ensures HighGroups(groups, cands[..i + 1]) ==
      match h
      case Err(e) => Err(e)
      case Ok(None) => Ok(local)
      case Ok(Some(g)) => Ok(local + [g])
  {
    assert cands[..i + 1][..i] == cands[..i];
  }

  /** Reading the candidates one by one is gathering their outcomes. */
  lemma {:induction false} HighGroupsGather(groups: seq<HighGroup>, cands: seq<GroupCandidate>)
    ensures HighGroups(groups, cands) == GatherHigh(groups, HighResults(cands))
    decreases |cands|
  {
    if cands != [] {
      var init := cands[..|cands| - 1];
      HighGroupsGather(groups, init);
      assert HighResults(cands)[..|cands| - 1] == HighResults(init);
    }
  }

  /** The body of the candidate loop of `parse_high_groups`, step by step. */
  method ReadCandidate(c: GroupCandidate) returns (r: Result<Option<HighGroup>>)
    ensures r == HighGroupOf(c)
  {
    var g := ProcessValue(Some(c.groupNumber));
    if g.Err? {
      return Err(g.fault);
    }
    var name := FixupFuseName(Strip(c.name));
    if name.Err? {
      return Err(name.fault);
    }
    if Strip(c.portId) == "" {
      return Ok(None);
    }
    var pid := ProcessValue(Some(c.portId));
    if pid.Err? {
      return Err(pid.fault);
    }
    if !NonStandardGroup(c.group, g.value) {
      return Ok(None);
    }
    var addr := ProcessValue(Some(c.ramAddr));
    if addr.Err? {
      return Err(addr.fault);
    }
    r := Ok(Some(HighGroup(c.category, pid.value, name.value, addr.value, c.group, g.value)));
  }

  /** The candidate loop of `parse_high_groups`, appending to the list it is given. */
  method ParseHighGroups(groups: seq<HighGroup>, cands: seq<GroupCandidate>) returns (r: Result<seq<HighGroup>>)
    ensures r == HighGroups(groups, cands)
  {
    var local := groups;
    for i := 0 to |cands|
      invariant HighGroups(groups, cands[..i]) == Ok(local)
    {
      var h := ReadCandidate(cands[i]);
      HighGroupsSnoc(groups, cands, i, local, h);
      if h.Err? {
        HighGroupsErrStays(groups, cands, i + 1);
        return Err(h.fault);
      }
      if h.value.Some? {
        local := local + [h.value.value];
      }
    }
    assert cands[..|cands|] == cands;
    r := Ok(local);
  }

  predicate Taken(row: Result<Option<HighGroup>>)
  {
    row.Ok? && row.value.Some?
  }

  /** Gathering keeps the list given, then adds one entry per outcome that has one, each from its outcome. */
  lemma {:induction false} GatherHighSpec(groups: seq<HighGroup>, rows: seq<Result<Option<HighGroup>>>)
    ensures GatherHigh(groups, rows).Ok? ==>
      var r := GatherHigh(groups, rows).value;
      |r| == |groups| + Count(rows, Taken) && r[..|groups|] == groups &&
      (forall k :: |groups| <= k < |r| ==> Ok(Some(r[k])) in rows) &&
      (forall j :: 0 <= j < |rows| ==> rows[j].Ok?)
    decreases |rows|
  {
    if rows != [] {
      var init := rows[..|rows| - 1];
      var x := rows[|rows| - 1];
      GatherHighSpec(groups, init);
      assert rows == init + [x];
      CountSnoc(init, x, Taken);
      if GatherHigh(groups, rows).Ok? {
        var r0 := GatherHigh(groups, init).value;
        assert forall y :: y in init ==> y in rows;
        assert forall j :: 0 <= j < |init| ==> rows[j] == init[j];
        if Taken(x) {
          assert (r0 + [x.value.value])[..|groups|] == r0[..|groups|];
        }
      }
    }
  }

  /** Counting taken outcomes counts the candidates the rule takes, once every outcome is a success. */
  lemma CountTaken(cands: seq<GroupCandidate>)
    requires forall j :: 0 <= j < |cands| ==> HighResults(cands)[j].Ok?
    ensures Count(HighResults(cands), Taken) == Count(cands, Qualifies)
  {
    var rows := HighResults(cands);
    forall k | 0 <= k < |cands| ensures Taken(rows[k]) == Qualifies(cands[k]) {
      assert rows[k] == HighGroupOf(cands[k]);
    }
    CountAlike(rows, cands, Taken, Qualifies);
  }

  /** An entry taken from a candidate breaks the group rule and has a clean name. */
  lemma TakenEntry(cands: seq<GroupCandidate>, j: int, h: HighGroup)
    requires 0 <= j < |cands| && HighResults(cands)[j] == Ok(Some(h))
    ensures NonStandardGroup(h.typ, h.groupNum) && CleanName(h.name)
  {
    FixupFuseNameClean(Strip(cands[j].name));
  }

  lemma TakenEntries(cands: seq<GroupCandidate>, r: seq<HighGroup>, n: nat)
    requires forall k :: n <= k < |r| ==> Ok(Some(r[k])) in HighResults(cands)
    ensures forall k :: n <= k < |r| ==> NonStandardGroup(r[k].typ, r[k].groupNum) && CleanName(r[k].name)
  {
    forall k | n <= k < |r| ensures NonStandardGroup(r[k].typ, r[k].groupNum) && CleanName(r[k].name) {
      var j :| 0 <= j < |cands| && HighResults(cands)[j] == Ok(Some(r[k]));
      TakenEntry(cands, j, r[k]);
    }
  }

  /**
   * The list keeps what it was given and grows by one entry per candidate
   * the rule takes, each breaking the group rule and named by a clean
   * identifier.
   */
  lemma HighGroupsSpec(groups: seq<HighGroup>, cands: seq<GroupCandidate>)
    ensures HighGroups(groups, cands).Ok? ==>
      var r := HighGroups(groups, cands).value;
      |r| == |groups| + Count(cands, Qualifies) && r[..|groups|] == groups &&
      forall k :: |groups| <= k < |r| ==> NonStandardGroup(r[k].typ, r[k].groupNum) && CleanName(r[k].name)
  {
    var rows := HighResults(cands);
    HighGroupsGather(groups, cands);
    GatherHighSpec(groups, rows);
    if HighGroups(groups, cands).Ok? {
      var r := HighGroups(groups, cands).value;
      CountTaken(cands);
      TakenEntries(cands, r, |groups|);
    }
  }

  /* ---------------------------------------------------------------- */
  /* get_stats                                                         */

  /** The running figures of one group: total size, rows, lowest RAM and receiver addresses. */
  datatype GroupStats = GroupStats(sizeTotal: int, rows: nat, baseRamAddr: int, baseRcvrAddr: int)

  /** The figures of one instance: its port id and endpoint, and its fuse and strap groups by number. */
  datatype InstanceStats = InstanceStats(instance: string, portIdFull: int, sbep: int,
                                         fuseGroups: map<int, GroupStats>, strapGroups: map<int, GroupStats>)

  /** The address a new group starts from, above any real one. */
  const MaxAddress: int := 0xFFFF_FFFF

  const NewGroup: GroupStats := GroupStats(0, 0, MaxAddress, MaxAddress)

  function Smaller(a: int, b: int): int { if a < b then a else b }

  /** One entry counted into its group. */
  function AddToGroup(g: GroupStats, e: DlutEntry): GroupStats
  {
    GroupStats(g.sizeTotal + e.size, g.rows + 1, Smaller(e.ramAddr, g.baseRamAddr), Smaller(e.rcvrAddr, g.baseRcvrAddr))
  }

  function GroupOrNew(groups: map<int, GroupStats>, n: int): GroupStats
  {
    if n in groups then groups[n] else NewGroup
  }

  function InstanceOrNew(stats: map<string, InstanceStats>, e: DlutEntry): InstanceStats
  {
    if e.instance in stats then stats[e.instance] else InstanceStats(e.instance, e.portIdFull, e.sbep, map[], map[])
  }

  /** One DLUT entry counted: its instance made if new, then its fuse or strap group. */
  function AddEntry(stats: map<string, InstanceStats>, e: DlutEntry): map<string, InstanceStats>
  {
    var inst := InstanceOrNew(stats, e);
    var inst' := if e.typ == SoftStrap
                 then inst.(strapGroups := inst.strapGroups[e.group := AddToGroup(GroupOrNew(inst.strapGroups, e.group), e)])
                 else inst.(fuseGroups := inst.fuseGroups[e.group := AddToGroup(GroupOrNew(inst.fuseGroups, e.group), e)]);
    stats[e.instance := inst']
  }

  /** `get_stats(dlut_list)`. */
  function Stats(dlut: seq<DlutEntry>): map<string, InstanceStats>
  {
    if dlut == [] then map[] else AddEntry(Stats(dlut[..|dlut| - 1]), dlut[|dlut| - 1])
  }

  /** The running-figure updates of `get_stats` for one entry of a group. */
  method CountEntry(g: GroupStats, e: DlutEntry) returns (g': GroupStats)
    ensures g' == AddToGroup(g, e)
  {
    g' := g.(sizeTotal := g.sizeTotal + e.size, rows := g.rows + 1);
    if e.ramAddr < g'.baseRamAddr {
      g' := g'.(baseRamAddr := e.ramAddr);
    }
    if e.rcvrAddr < g'.baseRcvrAddr {
      g' := g'.(baseRcvrAddr := e.rcvrAddr);
    }
  }

  /** The loop of `get_stats`, updating the instance and group found or made for each entry. */
  method GetStats(dlut: seq<DlutEntry>) returns (stats: map<string, InstanceStats>)
    ensures stats == Stats(dlut)
  {
    stats := map[];
    for i := 0 to |dlut|
      invariant stats == Stats(dlut[..i])
    {
      assert dlut[..i + 1][..i] == dlut[..i];
      var e := dlut[i];
      var inst: InstanceStats;
      if e.instance in stats {
        inst := stats[e.instance];
      } else {
        inst := InstanceStats(e.instance, e.portIdFull, e.sbep, map[], map[]);
      }
      var isFuse := e.typ != SoftStrap;
      var g: GroupStats;
      if isFuse {
        g := if e.group in inst.fuseGroups then inst.fuseGroups[e.group] else NewGroup;
        g := CountEntry(g, e);
        inst := inst.(fuseGroups := inst.fuseGroups[e.group := g]);
      } else {
        g := if e.group in inst.strapGroups then inst.strapGroups[e.group] else NewGroup;
        g := CountEntry(g, e);
        inst := inst.(strapGroups := inst.strapGroups[e.group := g]);
      }
      stats := stats[e.instance := inst];
    }
    assert dlut[..|dlut|] == dlut;
  }

  /* The same figures computed group by group, for comparison. */

  /** An entry of the given instance, kind and group. */
  predicate InGroup(e: DlutEntry, instance: string, strap: bool, group: int)
  {
    e.instance == instance && (e.typ == SoftStrap) == strap && e.group == group
  }

  function InGroupOf(instance: string, strap: bool, group: int): DlutEntry -> bool
  {
    e => InGroup(e, instance, strap, group)
  }

  function GroupRows(dlut: seq<DlutEntry>, instance: string, strap: bool, group: int): seq<DlutEntry>
  {
    Filter(dlut, InGroupOf(instance, strap, group))
  }

  /** The figures of a list of entries: size sum, count, and the lowest addresses (at most `MaxAddress`). */
  function Summary(es: seq<DlutEntry>): (g: GroupStats)
    ensures g.rows == |es|
    ensures g.baseRamAddr <= MaxAddress && g.baseRcvrAddr <= MaxAddress
    ensures forall k :: 0 <= k < |es| ==> g.baseRamAddr <= es[k].ramAddr && g.baseRcvrAddr <= es[k].rcvrAddr
  {
    if es == [] then NewGroup
    else
      var g := AddToGroup(Summary(es[..|es| - 1]), es[|es| - 1]);
      assert forall k :: 0 <= k < |es| - 1 ==> es[..|es| - 1][k] == es[k];
      g
  }

  /** The figures reported for a group, if it is reported. */
  function Lookup(stats: map<string, InstanceStats>, instance: string, strap: bool, group: int): Option<GroupStats>
  {
    if instance !in stats then None
    else
      var groups := if strap then stats[instance].strapGroups else stats[instance].fuseGroups;
      if group in groups then Some(groups[group]) else None
  }

  /** Counting one entry changes the figures of its own group only. */
  lemma AddEntryLookup(stats: map<string, InstanceStats>, e: DlutEntry, instance: string, strap: bool, group: int)
    ensures Lookup(AddEntry(stats, e), instance, strap, group) ==
      if InGroup(e, instance, strap, group) then
        Some(AddToGroup(match Lookup(stats, instance, strap, group) case None => NewGroup case Some(g) => g, e))
      else Lookup(stats, instance, strap, group)
  {
  }

  /**
   * Every group `get_stats` reports holds the figures of exactly the
   * entries of its instance, kind and group, and a group is reported
   * exactly when it has entries.
   */
  lemma {:induction false} StatsGroups(dlut: seq<DlutEntry>, instance: string, strap: bool, group: int)
    ensures Lookup(Stats(dlut), instance, strap, group) ==
      var rows := GroupRows(dlut, instance, strap, group);
      if rows == [] then None else Some(Summary(rows))
    decreases |dlut|
  {
    if dlut != [] {
      var init := dlut[..|dlut| - 1];
      var e := dlut[|dlut| - 1];
      StatsGroups(init, instance, strap, group);
      AddEntryLookup(Stats(init), e, instance, strap, group);
      assert dlut == init + [e];
      CountSnoc(init, e, InGroupOf(instance, strap, group));
      var rows := GroupRows(init, instance, strap, group);
      if InGroup(e, instance, strap, group) {
        assert InGroupOf(instance, strap, group)(e);
        assert GroupRows(dlut, instance, strap, group) == rows + [e];
        assert (rows + [e])[..|rows|] == rows;
        assert Summary(rows + [e]) == AddToGroup(Summary(rows), e);
      } else {
        assert !InGroupOf(instance, strap, group)(e);
        assert GroupRows(dlut, instance, strap, group) == rows;
      }
    }
  }

  /** Counting one entry adds its instance, made from it when new, and leaves the other instances' fields. */
  lemma AddEntryInstances(stats: map<string, InstanceStats>, e: DlutEntry)
    ensures AddEntry(stats, e).Keys == stats.Keys + {e.instance}
    ensures forall i :: i in stats ==>
      (AddEntry(stats, e)[i].instance == stats[i].instance &&
       AddEntry(stats, e)[i].portIdFull == stats[i].portIdFull && AddEntry(stats, e)[i].sbep == stats[i].sbep)
    ensures e.instance !in stats ==>
      (AddEntry(stats, e)[e.instance].instance == e.instance &&
       AddEntry(stats, e)[e.instance].portIdFull == e.portIdFull && AddEntry(stats, e)[e.instance].sbep == e.sbep)
  {
  }

  function InstancesOf(dlut: seq<DlutEntry>): set<string>
  {
    set k | 0 <= k < |dlut| :: dlut[k].instance
  }

  /** The instances reported are those of the entries. */
  lemma {:induction false} StatsKeys(dlut: seq<DlutEntry>)
    ensures Stats(dlut).Keys == InstancesOf(dlut)
    decreases |dlut|
  {
    if dlut != [] {
      var init := dlut[..|dlut| - 1];
      var e := dlut[|dlut| - 1];
      StatsKeys(init);
      AddEntryInstances(Stats(init), e);
      assert forall k :: 0 <= k < |init| ==> init[k] == dlut[k];
      assert InstancesOf(dlut) == InstancesOf(init) + {e.instance} by {
        forall x | x in InstancesOf(dlut) ensures x in InstancesOf(init) + {e.instance} {
          var k :| 0 <= k < |dlut| && dlut[k].instance == x;
          if k < |init| {
            assert init[k].instance == x;
          }
        }
      }
    }
  }

  /** Each instance carries the port id and endpoint of its first entry. */
  lemma {:induction false} StatsFirst(dlut: seq<DlutEntry>, k: nat)
    requires k < |dlut| && forall j :: 0 <= j < k ==> dlut[j].instance != dlut[k].instance
    ensures dlut[k].instance in Stats(dlut)
    ensures Stats(dlut)[dlut[k].instance].instance == dlut[k].instance
    ensures Stats(dlut)[dlut[k].instance].portIdFull == dlut[k].portIdFull
    ensures Stats(dlut)[dlut[k].instance].sbep == dlut[k].sbep
    decreases |dlut|
  {
    var init := dlut[..|dlut| - 1];
    var e := dlut[|dlut| - 1];
    AddEntryInstances(Stats(init), e);
    if k < |init| {
      assert init[k] == dlut[k];
      assert forall j :: 0 <= j < k ==> init[j] == dlut[j];
      StatsFirst(init, k);
    } else {
      StatsKeys(init);
      assert e.instance !in InstancesOf(init) by {
        forall j | 0 <= j < |init| ensures init[j].instance != e.instance {
          assert init[j] == dlut[j];
        }
      }
    }
  }

  /* ---------------------------------------------------------------- */
  /* get_fuse_stats                                                    */

  /** A direct fuse as `get_fuse_stats` reads it: name, RAM address, start bit, width, receiver address. */
  datatype FuseStat = FuseStat(name: string, ramAddr: int, startBit: int, width: int, rcvrAddr: int)

  /** `a` lies before `b`: a lower receiver address, or the same one and a lower start bit. */
  predicate Before(a: FuseStat, b: FuseStat)
  {
    a.rcvrAddr < b.rcvrAddr || (a.rcvrAddr == b.rcvrAddr && a.startBit < b.startBit)
  }

  /** The entry for a fuse whose stripped name has the prefix. */
  function StatEntry(f: FuseStat, prefix: string): (r: Option<FuseStat>)
    ensures r.Some? ==> r.value == f.(name := Strip(f.name)) && StartsWith(r.value.name, prefix)
  {
    var name := Strip(f.name);
    if StartsWith(name, prefix) then Some(f.(name := name)) else None
  }

  function StatEntries(fuses: seq<FuseStat>, prefix: string): (r: seq<Option<FuseStat>>)
    ensures |r| == |fuses|
    ensures forall k :: 0 <= k < |fuses| ==> r[k] == StatEntry(fuses[k], prefix)
  {
    seq(|fuses|, k requires 0 <= k < |fuses| => StatEntry(fuses[k], prefix))
  }

  /** One entry seen: it replaces the lowest when it lies before it. */
  function LowStep(lo: Option<FuseStat>, x: Option<FuseStat>): Option<FuseStat>
  {
    match x
    case None => lo
    case Some(e) => if lo.None? || Before(e, lo.value) then Some(e) else lo
  }

  /** One entry seen: it replaces the highest when it lies after it. */
  function HighStep(hi: Option<FuseStat>, x: Option<FuseStat>): Option<FuseStat>
  {
    match x
    case None => hi
    case Some(e) => if hi.None? || Before(hi.value, e) then Some(e) else hi
  }

  function Lowest(xs: seq<Option<FuseStat>>): Option<FuseStat>
  {
    if xs == [] then None else LowStep(Lowest(xs[..|xs| - 1]), xs[|xs| - 1])
  }

  function Highest(xs: seq<Option<FuseStat>>): Option<FuseStat>
  {
    if xs == [] then None else HighStep(Highest(xs[..|xs| - 1]), xs[|xs| - 1])
  }

  /** `get_fuse_stats(tree, name_prefix)` over the direct fuses in document order. */
  function FuseStats(fuses: seq<FuseStat>, prefix: string): (Option<FuseStat>, Option<FuseStat>)
  {
    (Lowest(StatEntries(fuses, prefix)), Highest(StatEntries(fuses, prefix)))
  }

  /** The scan of `get_fuse_stats`. */
  method GetFuseStats(fuses: seq<FuseStat>, prefix: string) returns (lowest: Option<FuseStat>, highest: Option<FuseStat>)
    ensures (lowest, highest) == FuseStats(fuses, prefix)
  {
    var xs := StatEntries(fuses, prefix);
    lowest, highest := None, None;
    for i := 0 to |fuses|
      invariant lowest == Lowest(xs[..i]) && highest == Highest(xs[..i])
    {
      assert xs[..i + 1][..i] == xs[..i];
      var name := Strip(fuses[i].name);
      if !StartsWith(name, prefix) {
        continue;
      }
      var entry := fuses[i].(name := name);
      if lowest.None? {
        lowest := Some(entry);
      } else if lowest.value.rcvrAddr > entry.rcvrAddr {
        lowest := Some(entry);
      } else if lowest.value.rcvrAddr == entry.rcvrAddr && lowest.value.startBit > entry.startBit {
        lowest := Some(entry);
      }
      if highest.None? {
        highest := Some(entry);
      } else if highest.value.rcvrAddr < entry.rcvrAddr {
        highest := Some(entry);
      } else if highest.value.rcvrAddr == entry.rcvrAddr && highest.value.startBit < entry.startBit {
        highest := Some(entry);
      }
    }
    assert xs[..|fuses|] == xs;
  }

  /** The entries present, in order. */
  function Present(xs: seq<Option<FuseStat>>): (r: seq<FuseStat>)
  {
    if xs == [] then []
    else Present(xs[..|xs| - 1]) + (if xs[|xs| - 1].Some? then [xs[|xs| - 1].value] else [])
  }

  /** `c[i]` lies before every earlier entry and after no later one: the first lowest. */
  predicate FirstLowest(c: seq<FuseStat>, i: int)
  {
    0 <= i < |c| && (forall j :: 0 <= j < i ==> Before(c[i], c[j])) && (forall j :: i < j < |c| ==> !Before(c[j], c[i]))
  }

  /** `c[i]` lies after every earlier entry and before no later one: the first highest. */
  predicate FirstHighest(c: seq<FuseStat>, i: int)
  {
    0 <= i < |c| && (forall j :: 0 <= j < i ==> Before(c[j], c[i])) && (forall j :: i < j < |c| ==> !Before(c[i], c[j]))
  }

  /** The lowest is missing exactly when no fuse matches, and is otherwise the first lowest matching fuse. */
  lemma {:induction false} LowestSpec(xs: seq<Option<FuseStat>>)
    ensures Lowest(xs).None? <==> Present(xs) == []
    ensures Lowest(xs).Some? ==> exists i :: FirstLowest(Present(xs), i) && Lowest(xs).value == Present(xs)[i]
    decreases |xs|
  {
    if xs != [] {
      var init := xs[..|xs| - 1];
      var x := xs[|xs| - 1];
      LowestSpec(init);
      var c0 := Present(init);
      var lo0 := Lowest(init);
      if x.Some? {
        var e := x.value;
        var c := c0 + [e];
        assert Present(xs) == c;
        var n := |c0|;
        assert c[n] == e;
        assert forall j :: 0 <= j < n ==> c[j] == c0[j];
        if lo0.None? {
          assert FirstLowest(c, n);
        } else {
          var i :| FirstLowest(c0, i) && lo0.value == c0[i];
          if Before(e, lo0.value) {
            forall j | 0 <= j < n ensures Before(c[n], c[j]) {
              if j < i {
                assert Before(c0[i], c0[j]);
              } else if j > i {
                assert !Before(c0[j], c0[i]);
              }
            }
            assert FirstLowest(c, n);
          } else {
            assert FirstLowest(c, i);
          }
        }
      } else {
        assert Present(xs) == c0;
      }
    }
  }

  /** The highest is missing exactly when no fuse matches, and is otherwise the first highest matching fuse. */
  lemma {:induction false} HighestSpec(xs: seq<Option<FuseStat>>)
    ensures Highest(xs).None? <==> Present(xs) == []
    ensures Highest(xs).Some? ==> exists i :: FirstHighest(Present(xs), i) && Highest(xs).value == Present(xs)[i]
    decreases |xs|
  {
    if xs != [] {
      var init := xs[..|xs| - 1];
      var x := xs[|xs| - 1];
      HighestSpec(init);
      var c0 := Present(init);
      var hi0 := Highest(init);
      if x.Some? {
        var e := x.value;
        var c := c0 + [e];
        assert Present(xs) == c;
        var n := |c0|;
        assert c[n] == e;
        assert forall j :: 0 <= j < n ==> c[j] == c0[j];
        if hi0.None? {
          assert FirstHighest(c, n);
        } else {
          var i :| FirstHighest(c0, i) && hi0.value == c0[i];
          if Before(hi0.value, e) {
            forall j | 0 <= j < n ensures Before(c[j], c[n]) {
              if j < i {
                assert Before(c0[j], c0[i]);
              } else if j > i {
                assert !Before(c0[i], c0[j]);
              }
            }
            assert FirstHighest(c, n);
          } else {
            assert FirstHighest(c, i);
          }
        }
      } else {
        assert Present(xs) == c0;
      }
    }
  }
}
