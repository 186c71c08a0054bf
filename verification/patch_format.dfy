/**
 * Fuse records and the patch-file text format of bin/fusegen-tools.py: one
 * row per fuse, `<addr:05x> <startbit> <width> <value:0Nx> # <name> <type>`,
 * under a header comment; rows are read back by `load_patch_items` and
 * written by `save_patch_items`, `update_patch`, `import_blob` and the
 * reconcile mode.  Files are sequences of lines without their terminators.
 */
module PatchFormat {
  import opened Wrappers
  import opened PyStr
  import opened PyInt
  import opened Sorting

  const ByteBits: int := 8

  /**
   * One patch record (a dict with the keys ADDR, STARTBIT, WIDTH, VALUE,
   * NAME, TYPE, CFGITEM and SKIP).
   */
  datatype Fuse = Fuse(addr: int, startBit: int, width: int, value: int,
                       name: string, typ: string, cfgItem: bool, skip: bool)

  /** The sort key of patch rows: the absolute bit position. */
  function BitPosition(f: Fuse): int
  {
    f.addr * ByteBits + f.startBit
  }

  const Header: string := "# " + "RamAddr (hex) StartBit (dec) Width (dec) Value (hex)"

  /** How many hex digits the value is padded to: one per four bits of width, at least one. */
  function ValueDigits(width: int): (n: int)
    ensures n == Max(1, width / 4)
  {
    if width > 4 then width / 4 else 1
  }

  function RowFields(f: Fuse, typeText: string): seq<string>
  {
    [FormatHex(f.addr, 5), FormatDec(f.startBit), FormatDec(f.width),
     FormatHex(f.value, ValueDigits(f.width)), "#", f.name, typeText]
  }

  /** A patch row with the given text in the type column. */
  function Row(f: Fuse, typeText: string): string
  {
    JoinWith(RowFields(f, typeText), ' ')
  }

  /** The row `update_patch`, `import_blob` and reconcile write: the type as it stands. */
  function PlainRow(f: Fuse): string
  {
    Row(f, f.typ)
  }

  /** The type column `save_patch_items` writes: parentheses dropped, then wrapped in one pair. */
  function SavedType(t: string): (r: string)
    ensures |r| >= 2 && r[0] == '(' && r[|r| - 1] == ')'
    ensures forall i :: 0 < i < |r| - 1 ==> r[i] != '(' && r[i] != ')' && r[i] in t
  {
    var inner := ReplaceAll(ReplaceAll(t, "(", ""), ")", "");
    RemoveCharIn(t, '(');
    RemoveCharIn(ReplaceAll(t, "(", ""), ')');
    assert forall i :: 0 <= i < |inner| ==> inner[i] in inner;
    "(" + inner + ")"
  }

  function SavedRow(f: Fuse): string
  {
    Row(f, SavedType(f.typ))
  }

  function SavedRows(s: seq<Fuse>): (r: seq<string>)
    ensures |r| == |s|
    ensures forall i :: 0 <= i < |s| ==> r[i] == SavedRow(s[i])
  {
    Each(s, SavedRow)
  }

  /** `f` applied to each element, in order. */
  function Each<T, U>(s: seq<T>, f: T -> U): (r: seq<U>)
    ensures |r| == |s|
    ensures forall i :: 0 <= i < |s| ==> r[i] == f(s[i])
  {
    seq(|s|, i requires 0 <= i < |s| => f(s[i]))
  }

  lemma EachSnoc<T, U>(s: seq<T>, f: T -> U, i: nat)
    requires i < |s|
    ensures Each(s[..i + 1], f) == Each(s[..i], f) + [f(s[i])]
  {
    assert s[..i + 1][..i] == s[..i];
  }

  /** The lines `save_patch_items` writes: the header, then the rows in bit-position order. */
  function SavedFile(items: seq<Fuse>): seq<string>
  {
    [Header] + SavedRows(SortBy(items, BitPosition))
  }

  /** `save_patch_items(target_file, items)`: the lines it writes. */
  method SavePatchItems(items: seq<Fuse>) returns (lines: seq<string>)
    ensures lines == SavedFile(items)
  {
    var sorted := SortBy(items, BitPosition);
    var rows := SaveRows(sorted);
    lines := [Header] + rows;
  }

  /** The rows of the loop of `save_patch_items`, one per record in the given order. */
  method SaveRows(sorted: seq<Fuse>) returns (rows: seq<string>)
    ensures rows == SavedRows(sorted)
  {
    rows := [];
    for i := 0 to |sorted|
      invariant rows == SavedRows(sorted[..i])
    {
      EachSnoc(sorted, SavedRow, i);
      rows := rows + [SavedRow(sorted[i])];
    }
    assert sorted[..|sorted|] == sorted;
  }

  /* ---------------------------------------------------------------- */
  /* Reading rows                                                      */

  /** `int(parts[i], base)`, failing like Python when the part is missing or malformed. */
  function Field(parts: seq<string>, i: nat, base: int): (r: Result<int>)
    requires base == 0 || 2 <= base <= 36
    ensures i >= |parts| ==> r == Err(IndexError)
    ensures r.Ok? ==> ParseInt(parts[i], base) == Some(r.value)
  {
    if i >= |parts| then Err(IndexError)
    else match ParseInt(parts[i], base)
      case Some(v) => Ok(v)
      case None => Err(ValueError)
  }

  /**
   * One line of a patch file without the name filter: stripped, split at
   * single spaces (at most seven times); a line whose first part starts
   * with `#` is a comment (`None`).  The first four parts are read as hex,
   * decimal, decimal and hex, the sixth is the name, the seventh (if any)
   * the type, otherwise "(fuse)".
   */
  function ParseFields(line: string): (r: Result<Option<Fuse>>)
    ensures Strip(line) == "" ==> r == Err(IndexError)
    ensures r.Ok? && r.value.Some? ==> var f := r.value.value;
      !f.cfgItem && !f.skip && ' ' !in f.name && ' ' !in f.typ
  {
    var parts := SplitChar(Strip(line), ' ', 7);
    NameTypeFree(Strip(line));
    FuseTypeFree();
    ParseParts(parts)
  }

  lemma FuseTypeFree()
    ensures ' ' !in "(fuse)"
  {
    var t := "(fuse)";
    assert t[0] == '(' && t[1] == 'f' && t[2] == 'u' && t[3] == 's' && t[4] == 'e' && t[5] == ')';
  }

  /** The name and type parts of a row hold no space. */
  lemma NameTypeFree(s: string)
    ensures var parts := SplitChar(s, ' ', 7);
      (|parts| > 5 ==> ' ' !in parts[5]) && (|parts| > 6 ==> ' ' !in parts[6])
  {
    var parts := SplitChar(s, ' ', 7);
    if |parts| > 5 {
      SplitCharPieceFree(s, ' ', 7, 5);
    }
    if |parts| > 6 {
      SplitCharPieceFree(s, ' ', 7, 6);
    }
  }

  /** The parts of a stripped line, read as described for `ParseFields`. */
  function ParseParts(parts: seq<string>): (r: Result<Option<Fuse>>)
    requires |parts| >= 1
    ensures parts[0] == "" ==> r == Err(IndexError)
    ensures r.Ok? && r.value.Some? ==> var f := r.value.value;
      && !f.cfgItem && !f.skip && |parts| > 5 && f.name == parts[5]
      && f.typ == (if |parts| > 6 then parts[6] else "(fuse)")
  {
    if parts[0] == "" then Err(IndexError)
    else if parts[0][0] == '#' then Ok(None)
    else
      var addr := Field(parts, 0, 16);
      if addr.Err? then Err(addr.fault) else
      var startBit := Field(parts, 1, 10);
      if startBit.Err? then Err(startBit.fault) else
      var width := Field(parts, 2, 10);
      if width.Err? then Err(width.fault) else
      var value := Field(parts, 3, 16);
      if value.Err? then Err(value.fault) else
      if |parts| < 6 then Err(IndexError)
      else
        var typ := if |parts| > 6 then parts[6] else "(fuse)";
        Ok(Some(Fuse(addr.value, startBit.value, width.value, value.value, parts[5], typ, false, false)))
  }

  /**
   * `load_patch_items` on one line with the name filter it evidently
   * intends: a row whose name does not start with a non-empty prefix is
   * skipped.
   */
  function ParseRow(line: string, prefix: string): (r: Result<Option<Fuse>>)
    ensures r.Ok? && r.value.Some? ==> StartsWith(r.value.value.name, prefix)
  {
    KeepPrefix(ParseFields(line), prefix)
  }

  /** The name filter on the outcome of one line: a row with another name becomes a skipped line. */
  function KeepPrefix(row: Result<Option<Fuse>>, prefix: string): (r: Result<Option<Fuse>>)
    ensures r.Ok? <==> row.Ok?
    ensures r.Ok? && r.value.Some? ==> r == row && StartsWith(r.value.value.name, prefix)
    ensures row.Ok? && row.value.Some? && StartsWith(row.value.value.name, prefix) ==> r == row
    ensures prefix == "" ==> r == row
  {
    match row
    case Ok(Some(f)) =>
      if prefix != "" && !StartsWith(f.name, prefix) then Ok(None)
      else
        assert prefix == "" ==> StartsWith(f.name, prefix);
        row
    case other => other
  }

  /** `load_patch_items` on one line as written: a non-empty prefix reaches an undefined name. */
  function ParseRowAsWritten(line: string, prefix: string): (r: Result<Option<Fuse>>)
    ensures prefix == "" ==> r == ParseRow(line, prefix)
  {
    match ParseFields(line)
    case Ok(Some(f)) => if prefix != "" then Err(NameError) else Ok(Some(f))
    case other => other
  }

  /** The outcome of each line of a patch file. */
  function ParsedLines(lines: seq<string>, prefix: string): (r: seq<Result<Option<Fuse>>>)
    ensures |r| == |lines|
    ensures forall i :: 0 <= i < |lines| ==> r[i] == ParseRow(lines[i], prefix)
  {
    seq(|lines|, i requires 0 <= i < |lines| => ParseRow(lines[i], prefix))
  }

  /** The records of the lines read in order, or the error of the first line that failed. */
  function Gather(rows: seq<Result<Option<Fuse>>>): (r: Result<seq<Fuse>>)
    ensures r.Ok? ==> |r.value| <= |rows|
    decreases |rows|
  {
    if rows == [] then Ok([])
    else match Gather(rows[..|rows| - 1])
      case Err(e) => Err(e)
      case Ok(items) =>
        match rows[|rows| - 1]
        case Err(e) => Err(e)
        case Ok(None) => Ok(items)
        case Ok(Some(f)) => Ok(items + [f])
  }

  /** The records of a patch file, or the error of its first bad line. */
  function LoadRows(lines: seq<string>, prefix: string): Result<seq<Fuse>>
  {
    Gather(ParsedLines(lines, prefix))
  }

  /** `load_patch_items(filepath, prefix)` on the lines of the file. */
  method LoadPatchItems(lines: seq<string>, prefix: string) returns (r: Result<seq<Fuse>>)
    ensures r == LoadRows(lines, prefix)
  {
    ghost var rows := ParsedLines(lines, prefix);
    var items: seq<Fuse> := [];
    var i := 0;
    while i < |lines|
      invariant 0 <= i <= |lines|
      invariant Gather(rows[..i]) == Ok(items)
    {
      var row := ParseRow(lines[i], prefix);
      GatherSnoc(rows, i);
      if row.Err? {
        GatherErr(rows, i + 1, row.fault);
        return Err(row.fault);
      }
      if row.value.Some? {
        items := items + [row.value.value];
      }
      i := i + 1;
    }
    assert rows[..i] == rows;
    return Ok(items);
  }

  /** Reading one more line: its error, nothing more, or one more record. */
  lemma GatherSnoc(rows: seq<Result<Option<Fuse>>>, i: nat)
    requires i < |rows|
    ensures Gather(rows[..i + 1]) == match Gather(rows[..i])
      case Err(e) => Err(e)
      case Ok(items) => match rows[i]
        case Err(e) => Err(e)
        case Ok(None) => Ok(items)
        case Ok(Some(f)) => Ok(items + [f])
  {
    assert rows[..i + 1][..i] == rows[..i];
  }

  /** Once some first lines fail, the whole file fails with the same error. */
  lemma {:induction false} GatherErr(rows: seq<Result<Option<Fuse>>>, n: nat, e: Fault)
    requires n <= |rows| && Gather(rows[..n]) == Err(e)
    ensures Gather(rows) == Err(e)
    decreases |rows| - n
  {
    if n < |rows| {
      assert rows[..n + 1][..n] == rows[..n];
      GatherErr(rows, n + 1, e);
    } else {
      assert rows[..n] == rows;
    }
  }

  /* ---------------------------------------------------------------- */
  /* Lookup                                                            */

  function Names(items: seq<Fuse>): (r: seq<string>)
    ensures |r| == |items| && forall i :: 0 <= i < |items| ==> r[i] == items[i].name
  {
    seq(|items|, i requires 0 <= i < |items| => items[i].name)
  }

  /** `find_by_name(name, items)`: the first record with that name. */
  function FindByName(name: string, items: seq<Fuse>): (r: Option<nat>)
    ensures r.Some? ==> r.value < |items| && items[r.value].name == name
    ensures r.Some? ==> forall j :: 0 <= j < r.value ==> items[j].name != name
    ensures r.None? <==> name !in Names(items)
  {
    if items == [] then None
    else if items[0].name == name then Some(0)
    else match FindByName(name, items[1..])
      case None =>
        assert forall j :: 1 <= j < |items| ==> items[j] == items[1..][j - 1];
        None
      case Some(k) =>
        assert items[k + 1] == items[1..][k];
        Some(k + 1)
  }

  /** `find_by_name` looks at nothing but the names. */
  lemma FindByNameNames(name: string, a: seq<Fuse>, b: seq<Fuse>)
    requires Names(a) == Names(b)
    ensures FindByName(name, a) == FindByName(name, b)
  {
    var ra, rb := FindByName(name, a), FindByName(name, b);
    var keys := Names(a);
    if ra.Some? && rb.Some? {
      forall m | 0 <= m < |a| ensures keys[m] == b[m].name {
        assert keys[m] == Names(b)[m];
      }
      FirstUnique(keys, name, ra.value, rb.value);
    }
  }

  /** Appending a record does not move the first record of a name already present. */
  lemma FindByNameAppend(name: string, items: seq<Fuse>, x: Fuse)
    ensures name in Names(items) ==> FindByName(name, items + [x]) == FindByName(name, items)
    ensures name !in Names(items) && x.name == name ==> FindByName(name, items + [x]) == Some(|items|)
    ensures name !in Names(items) && x.name != name ==> FindByName(name, items + [x]).None?
  {
    if name in Names(items) {
      FindByNamePresent(name, items, x);
    } else {
      forall j | 0 <= j < |items| ensures items[j].name != name {
        assert Names(items)[j] == items[j].name;
      }
      FindByNameAbsent(name, items, x);
    }
  }

  lemma FindByNamePresent(name: string, items: seq<Fuse>, x: Fuse)
    requires name in Names(items)
    ensures FindByName(name, items + [x]) == FindByName(name, items)
  {
    var k := FindByName(name, items).value;
    var s := items + [x];
    var keys := Names(s);
    forall m | 0 <= m <= k ensures keys[m] == Names(items)[m] {
      assert s[m] == items[m];
    }
    var b := FindByName(name, s).value;
    FirstUnique(keys, name, k, b);
  }

  /** Two first positions of the same key are one. */
  lemma FirstUnique<K>(keys: seq<K>, key: K, i: nat, j: nat)
    requires i < |keys| && j < |keys| && keys[i] == key && keys[j] == key
    requires forall m :: 0 <= m < i ==> keys[m] != key
    requires forall m :: 0 <= m < j ==> keys[m] != key
    ensures i == j
  {
  }

  lemma FindByNameAbsent(name: string, items: seq<Fuse>, x: Fuse)
    requires forall j :: 0 <= j < |items| ==> items[j].name != name
    ensures x.name == name ==> FindByName(name, items + [x]) == Some(|items|)
    ensures x.name != name ==> FindByName(name, items + [x]).None?
  {
    var s := items + [x];
    forall j | 0 <= j < |items| ensures s[j].name != name {
      assert s[j] == items[j];
    }
    if x.name == name {
      assert Names(s)[|items|] == name;
    } else {
      assert forall j :: 0 <= j < |s| ==> Names(s)[j] != name;
    }
  }

  /** Rewriting a record without renaming it keeps every name lookup. */
  lemma FindByNameUpdate(name: string, items: seq<Fuse>, k: nat, v: Fuse)
    requires k < |items| && v.name == items[k].name
    ensures Names(items[k := v]) == Names(items)
    ensures FindByName(name, items[k := v]) == FindByName(name, items)
  {
    assert Names(items[k := v]) == Names(items);
    FindByNameNames(name, items[k := v], items);
  }

  /** The rows of records written with their type as it stands. */
  function PlainRows(s: seq<Fuse>): (r: seq<string>)
    ensures |r| == |s|
    ensures forall i :: 0 <= i < |s| ==> r[i] == PlainRow(s[i])
  {
    seq(|s|, i requires 0 <= i < |s| => PlainRow(s[i]))
  }

  /* ---------------------------------------------------------------- */
  /* Locked-name lists                                                 */

  /** One line of a locked-fuses file: its first space-separated word, unless a comment. */
  function NameRow(line: string): (r: Result<Option<string>>)
    ensures Strip(line) == "" <==> r == Err(IndexError)
    ensures r.Ok? && r.value.Some? ==> ' ' !in r.value.value && r.value.value != "" && r.value.value[0] != '#'
  {
    var parts := SplitChar(Strip(line), ' ', 7);
    SplitCharPieceFree(Strip(line), ' ', 7, 0);
    if parts[0] == "" then Err(IndexError)
    else if parts[0][0] == '#' then Ok(None)
    else Ok(Some(parts[0]))
  }

  function NameRows(lines: seq<string>): (r: Result<seq<string>>)
    decreases |lines|
  {
    if lines == [] then Ok([])
    else match NameRows(lines[..|lines| - 1])
      case Err(e) => Err(e)
      case Ok(names) =>
        match NameRow(lines[|lines| - 1])
        case Err(e) => Err(e)
        case Ok(None) => Ok(names)
        case Ok(Some(n)) => Ok(names + [n])
  }

  /** `load_fuse_names(filepath)` on the lines of the file. */
  method LoadFuseNames(lines: seq<string>) returns (r: Result<seq<string>>)
    ensures r == NameRows(lines)
  {
    var names: seq<string> := [];
    var i := 0;
    while i < |lines|
      invariant 0 <= i <= |lines|
      invariant NameRows(lines[..i]) == Ok(names)
    {
      assert lines[..i + 1][..i] == lines[..i];
      var row := NameRow(lines[i]);
      if row.Err? {
        NameRowsErr(lines, i + 1, row.fault);
        return Err(row.fault);
      }
      if row.value.Some? {
        names := names + [row.value.value];
      }
      i := i + 1;
    }
    assert lines[..i] == lines;
    return Ok(names);
  }

  lemma {:induction false} NameRowsErr(lines: seq<string>, n: nat, e: Fault)
    requires n <= |lines| && NameRows(lines[..n]) == Err(e)
    ensures NameRows(lines) == Err(e)
    decreases |lines| - n
  {
    if n < |lines| {
      assert lines[..n + 1][..n] == lines[..n];
      NameRowsErr(lines, n + 1, e);
    } else {
      assert lines[..n] == lines;
    }
  }

  /* ---------------------------------------------------------------- */
  /* Round trips                                                       */

  /** A record as `load_patch_items` reads back the row written for it with a given type column. */
  function Reread(f: Fuse, typeText: string): Fuse
  {
    Fuse(f.addr, f.startBit, f.width, f.value, f.name, typeText, false, false)
  }

  /** The fields of a row, none of which holds a space; the first neither empty nor a comment. */
  lemma RowFieldsClean(f: Fuse, t: string)
    requires ' ' !in f.name && ' ' !in t
    ensures var fs := RowFields(f, t);
      && (forall i :: 0 <= i < |fs| ==> ' ' !in fs[i])
      && fs[0] != "" && fs[0][0] != '#' && !IsSpace(fs[0][0])
  {
    FormatHexShape(f.addr, 5);
    FormatHexShape(f.value, ValueDigits(f.width));
    FormatDecShape(f.startBit);
    FormatDecShape(f.width);
    assert DigitVal(' ') == 36 && DigitVal('#') == 36;
  }

  /** A row neither starts nor ends with whitespace. */
  lemma RowStripped(f: Fuse, t: string)
    requires ' ' !in f.name && ' ' !in t && t != "" && !IsSpace(t[|t| - 1])
    ensures Strip(Row(f, t)) == Row(f, t)
  {
    var fs := RowFields(f, t);
    RowFieldsClean(f, t);
    JoinWithFirst(fs, ' ');
    JoinWithLast(fs, ' ');
    StripNoop(Row(f, t));
  }

  /** The stripped row splits into its fields again. */
  lemma RowSplits(f: Fuse, t: string)
    requires ' ' !in f.name && ' ' !in t && t != "" && !IsSpace(t[|t| - 1])
    ensures var p := SplitChar(Strip(Row(f, t)), ' ', 7);
      && |p| == 7 && p[0] == FormatHex(f.addr, 5) && p[1] == FormatDec(f.startBit)
      && p[2] == FormatDec(f.width) && p[3] == FormatHex(f.value, ValueDigits(f.width))
      && p[5] == f.name && p[6] == t
  {
    RowStripped(f, t);
    assert SplitChar(Row(f, t), ' ', 7) == RowFields(f, t) by {
      RowFieldsClean(f, t);
      SplitCharJoin(RowFields(f, t), ' ', 7);
    }
  }

  /** Seven parts whose first four read as numbers make a record. */
  lemma PartsRead(parts: seq<string>, addr: int, startBit: int, width: int, value: int)
    requires |parts| == 7 && parts[0] != "" && parts[0][0] != '#'
    requires ParseInt(parts[0], 16) == Some(addr) && ParseInt(parts[1], 10) == Some(startBit)
    requires ParseInt(parts[2], 10) == Some(width) && ParseInt(parts[3], 16) == Some(value)
    ensures ParseParts(parts) == Ok(Some(Fuse(addr, startBit, width, value, parts[5], parts[6], false, false)))
  {
  }

  /**
   * Reading a row back recovers address, start bit, width, value, name and
   * type.  The row is taken as one line: see `Writable` for the file.
   */
  lemma RowRoundTrip(f: Fuse, t: string)
    requires ' ' !in f.name && ' ' !in t && t != "" && !IsSpace(t[|t| - 1])
    ensures ParseFields(Row(f, t)) == Ok(Some(Reread(f, t)))
  {
    var p := SplitChar(Strip(Row(f, t)), ' ', 7);
    RowSplits(f, t);
    assert p[0] != "" && p[0][0] != '#' by {
      FormatHexShape(f.addr, 5);
      assert DigitVal('#') == 36;
    }
    FormatHexParse(f.addr, 5);
    FormatDecParse(f.startBit);
    FormatDecParse(f.width);
    FormatHexParse(f.value, ValueDigits(f.width));
    PartsRead(p, f.addr, f.startBit, f.width, f.value);
  }

  /** Reading back a row `save_patch_items` wrote recovers the record with its type re-wrapped. */
  lemma SavedRowRoundTrip(f: Fuse)
    requires Writable(f)
    ensures ParseRow(SavedRow(f), "") == Ok(Some(Reread(f, SavedType(f.typ))))
  {
    var t := SavedType(f.typ);
    assert ' ' !in t by {
      forall i | 0 <= i < |t| ensures t[i] != ' ' {
        if 0 < i < |t| - 1 { assert t[i] in f.typ; }
      }
    }
    RowRoundTrip(f, t);
  }

  /** A line whose first non-blank character is `#` is a comment. */
  lemma CommentLine(line: string)
    requires Strip(line) != "" && Strip(line)[0] == '#'
    ensures ParseFields(line) == Ok(None)
  {
    SplitCharHead(Strip(line), ' ', 7);
    assert ParseParts(SplitChar(Strip(line), ' ', 7)) == Ok(None);
  }

  lemma HeaderStripped()
    ensures Strip(Header) != "" && Strip(Header)[0] == '#'
  {
    assert Header[0] == '#' && Header[|Header| - 1] == ')';
    StripNoop(Header);
  }

  /** The header is a comment, whatever the prefix. */
  lemma HeaderSkipped(prefix: string)
    ensures ParseRow(Header, prefix) == Ok(None)
  {
    HeaderStripped();
    CommentLine(Header);
  }

  /** Every record as read back from the row written for it. */
  function RereadAll(s: seq<Fuse>): (r: seq<Fuse>)
    ensures |r| == |s|
    ensures forall i :: 0 <= i < |s| ==> r[i] == Reread(s[i], SavedType(s[i].typ))
  {
    seq(|s|, i requires 0 <= i < |s| => Reread(s[i], SavedType(s[i].typ)))
  }

  /**
   * A record `save_patch_items` can write so that it reads back: no space in
   * name or type, and no line break, which would split its row in two when
   * the file is read back line by line.
   */
  predicate Writable(f: Fuse)
  {
    ' ' !in f.name && ' ' !in f.typ && NoBreak(f.name) && NoBreak(f.typ)
  }

  predicate NoBreak(s: string)
  {
    '\n' !in s && '\r' !in s
  }

  /**
   * Lines whose first is skipped and whose others each read as one record
   * load as those records, in order.
   */
  lemma {:induction false} GatherParsed(rs: seq<Result<Option<Fuse>>>, rows: seq<Fuse>)
    requires |rs| == |rows| + 1
    requires rs[0] == Ok(None)
    requires forall k :: 1 <= k < |rs| ==> rs[k] == Ok(Some(rows[k - 1]))
    ensures Gather(rs) == Ok(rows)
    decreases |rows|
  {
    var p := rs[..|rs| - 1];
    if rows == [] {
      assert p == [];
    } else {
      GatherParsed(p, rows[..|rows| - 1]);
      assert rows == rows[..|rows| - 1] + [rows[|rows| - 1]];
    }
  }

  /** A skipped first line followed by lines that each read as one record loads as those records. */
  lemma LoadAfterFirst(first: string, body: seq<string>, rows: seq<Fuse>)
    requires |body| == |rows|
    requires ParseRow(first, "") == Ok(None)
    requires forall k :: 0 <= k < |body| ==> ParseRow(body[k], "") == Ok(Some(rows[k]))
    ensures LoadRows([first] + body, "") == Ok(rows)
  {
    ParsedAfterFirst(first, body, rows);
    GatherParsed(ParsedLines([first] + body, ""), rows);
  }

  /** The per-line results of a skipped first line followed by lines that each read as one record. */
  lemma ParsedAfterFirst(first: string, body: seq<string>, rows: seq<Fuse>)
    requires |body| == |rows|
    requires ParseRow(first, "") == Ok(None)
    requires forall k :: 0 <= k < |body| ==> ParseRow(body[k], "") == Ok(Some(rows[k]))
    ensures ParsedLines([first] + body, "")[0] == Ok(None)
    ensures forall k :: 1 <= k <= |body| ==> ParsedLines([first] + body, "")[k] == Ok(Some(rows[k - 1]))
  {
    var lines := [first] + body;
    assert lines[0] == first;
    forall k | 1 <= k <= |body| ensures ParsedLines(lines, "")[k] == Ok(Some(rows[k - 1])) {
      ConsIndex(first, body, k);
    }
  }

  lemma ConsIndex<T>(first: T, body: seq<T>, k: nat)
    requires 1 <= k <= |body|
    ensures ([first] + body)[k] == body[k - 1]
  {
  }

  /** Each row `save_patch_items` writes reads back as its record. */
  lemma SavedRowsParsed(s: seq<Fuse>)
    requires forall i :: 0 <= i < |s| ==> Writable(s[i])
    ensures forall k :: 0 <= k < |s| ==> ParseRow(SavedRows(s)[k], "") == Ok(Some(RereadAll(s)[k]))
  {
    forall k | 0 <= k < |s|
      ensures ParseRow(SavedRows(s)[k], "") == Ok(Some(RereadAll(s)[k]))
    {
      SavedRowRoundTrip(s[k]);
    }
  }

  /** The header and the rows `save_patch_items` writes for some records load as those records. */
  lemma LoadSavedRows(s: seq<Fuse>)
    requires forall i :: 0 <= i < |s| ==> Writable(s[i])
    ensures LoadRows([Header] + SavedRows(s), "") == Ok(RereadAll(s))
  {
    HeaderSkipped("");
    SavedRowsParsed(s);
    LoadAfterFirst(Header, SavedRows(s), RereadAll(s));
  }

  /**
   * What `save_patch_items` writes, `load_patch_items` reads back: the same
   * records in bit-position order, with their type columns wrapped in one
   * pair of parentheses, as long as names and types hold no space.
   */
  lemma SaveLoadRoundTrip(items: seq<Fuse>)
    requires forall i :: 0 <= i < |items| ==> Writable(items[i])
    ensures LoadRows(SavedFile(items), "") == Ok(RereadAll(SortBy(items, BitPosition)))
    ensures SortedBy(RereadAll(SortBy(items, BitPosition)), BitPosition)
    ensures multiset(SortBy(items, BitPosition)) == multiset(items)
  {
    var sorted := SortBy(items, BitPosition);
    forall i | 0 <= i < |sorted| ensures Writable(sorted[i]) {
      assert sorted[i] in multiset(items);
    }
    LoadSavedRows(sorted);
    SortBySorted(items, BitPosition);
  }

  /** Wrapping the type column a second time changes nothing. */
  lemma SavedTypeIdempotent(t: string)
    ensures SavedType(SavedType(t)) == SavedType(t)
  {
    var inner := ReplaceAll(ReplaceAll(t, "(", ""), ")", "");
    var w := "(" + inner + ")";
    assert '(' !in inner && ')' !in inner by {
      RemoveCharIn(t, '(');
      RemoveCharIn(ReplaceAll(t, "(", ""), ')');
    }
    assert ReplaceAll(w, "(", "") == inner + ")" by {
      RemoveCharAppend("(" + inner, ")", '(');
      RemoveCharAppend("(", inner, '(');
      FindCharIff(inner, '(');
      ReplaceAllNoop(inner, "(", "");
    }
    assert ReplaceAll(inner + ")", ")", "") == inner by {
      RemoveCharAppend(inner, ")", ')');
      FindCharIff(inner, ')');
      ReplaceAllNoop(inner, ")", "");
    }
  }

  /**
   * The name filter: with a prefix, `load_patch_items` keeps exactly the
   * rows it reads without one whose name starts with the prefix, and fails
   * exactly when it fails without one.
   */
  lemma LoadRowsFiltered(lines: seq<string>, prefix: string)
    ensures LoadRows(lines, prefix).Ok? <==> LoadRows(lines, "").Ok?
    ensures LoadRows(lines, prefix).Ok? ==>
      LoadRows(lines, prefix).value == FilterPrefix(LoadRows(lines, "").value, prefix)
  {
    var all := ParsedLines(lines, "");
    var kept := ParsedLines(lines, prefix);
    forall k | 0 <= k < |all| ensures kept[k] == KeepPrefix(all[k], prefix) {
      assert all[k] == KeepPrefix(ParseFields(lines[k]), "");
    }
    GatherFiltered(all, kept, prefix);
  }

  /** Filtering every outcome filters the gathered records. */
  lemma {:induction false} GatherFiltered(all: seq<Result<Option<Fuse>>>, kept: seq<Result<Option<Fuse>>>, prefix: string)
    requires |all| == |kept|
    requires forall k :: 0 <= k < |all| ==> kept[k] == KeepPrefix(all[k], prefix)
    ensures Gather(kept).Ok? <==> Gather(all).Ok?
    ensures Gather(kept).Ok? ==> Gather(kept).value == FilterPrefix(Gather(all).value, prefix)
    decreases |all|
  {
    if all != [] {
      var n := |all| - 1;
      GatherFiltered(all[..n], kept[..n], prefix);
      if Gather(all[..n]).Ok? {
        match all[n]
        case Ok(Some(f)) =>
          FilterPrefixAppend(Gather(all[..n]).value, [f], prefix);
        case _ =>
      }
    }
  }

  function FilterPrefix(s: seq<Fuse>, prefix: string): (r: seq<Fuse>)
    ensures |r| <= |s|
    decreases |s|
  {
    if s == [] then []
    else FilterPrefix(s[..|s| - 1], prefix) + (if StartsWith(s[|s| - 1].name, prefix) then [s[|s| - 1]] else [])
  }

  lemma FilterPrefixAppend(a: seq<Fuse>, b: seq<Fuse>, prefix: string)
    requires |b| == 1
    ensures FilterPrefix(a + b, prefix) == FilterPrefix(a, prefix) + FilterPrefix(b, prefix)
  {
    assert (a + b)[..|a + b| - 1] == a;
    assert b[..0] == [];
  }

  /** As written, a non-empty prefix fails on the first data row instead of filtering. */
  lemma PrefixFailsAsWritten(f: Fuse, t: string, prefix: string)
    requires ' ' !in f.name && ' ' !in t && t != "" && !IsSpace(t[|t| - 1])
    requires prefix != ""
    ensures ParseRowAsWritten(Row(f, t), prefix) == Err(NameError)
    ensures StartsWith(f.name, prefix) ==> ParseRow(Row(f, t), prefix) == Ok(Some(Reread(f, t)))
  {
    RowRoundTrip(f, t);
  }
}
