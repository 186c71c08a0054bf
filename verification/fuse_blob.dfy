/**
 * Decoding a fuse blob (bin/fusegen-tools.py): `extract_blob_data` cuts a
 * blob into chunks, each behind a four-byte header whose last byte counts
 * the chunk's dwords; `filter_dlut` picks the DLUT entries of one IP,
 * group and kind; `filter_values` picks the default records a chunk holds;
 * `import_blob` reads each picked record's bit field out of its chunk and
 * writes the records as patch rows.  Blobs and chunks are byte sequences
 * (the hex text `bytes.fromhex` and `.hex()` convert between is left out).
 */
module FuseBlob {
  import opened Wrappers
  import opened PyStr
  import opened PyInt
  import opened PyBits
  import opened PatchFormat

  const DirectFuse: string := "DirectFuse"
  const SoftStrap: string := "SoftStrap"
  const InvalidGroup: int := -1
  const HeaderSize: nat := 4
  const BytesInDword: nat := 4
  const DwordField: nat := 3

  /** Python's `b[i:j]` on bytes. */
  function Bytes(b: seq<Byte>, i: int, j: int): (r: seq<Byte>)
    ensures 0 <= i <= j <= |b| ==> r == b[i..j]
    ensures |r| <= |b|
    ensures 0 <= i && i <= j ==> |r| <= j - i
  {
    var a := SliceBound(i, |b|);
    var c := SliceBound(j, |b|);
    if a < c then b[a..c] else []
  }

  /* ---------------------------------------------------------------- */
  /* extract_blob_data                                                 */

  function Prepend(c: seq<Byte>, r: Result<seq<seq<Byte>>>): Result<seq<seq<Byte>>>
  {
    match r
    case Ok(cs) => Ok([c] + cs)
    case Err(e) => Err(e)
  }

  /** Where the chunk behind the header at `pos` ends (past the blob's end when it is cut short). */
  function ChunkEnd(b: seq<Byte>, pos: nat): nat
    requires pos + HeaderSize <= |b|
  {
    pos + HeaderSize + BytesInDword * b[pos + DwordField]
  }

  /** The chunk behind the header at `pos`: up to its end or the blob's. */
  function Chunk(b: seq<Byte>, pos: nat): seq<Byte>
    requires pos + HeaderSize <= |b|
  {
    b[pos + HeaderSize .. if ChunkEnd(b, pos) < |b| then ChunkEnd(b, pos) else |b|]
  }

  /**
   * The chunks of `b` from position `pos` on: a header, then as many
   * dwords as its last byte says (fewer when the blob ends first); a header
   * cut short by the end of the blob raises IndexError.
   */
  function ChunksFrom(b: seq<Byte>, pos: nat): (r: Result<seq<seq<Byte>>>)
    decreases |b| - pos
  {
    if pos >= |b| then Ok([])
    else if |b| - pos < HeaderSize then Err(IndexError)
    else Prepend(Chunk(b, pos), ChunksFrom(b, ChunkEnd(b, pos)))
  }

  /**
   * Every chunk takes at least a header's worth of bytes and holds at most
   * 255 dwords; a failure is always IndexError.
   */
  lemma {:induction false} ChunksFromBounds(b: seq<Byte>, pos: nat)
    ensures ChunksFrom(b, pos).Ok? ==> HeaderSize * |ChunksFrom(b, pos).value| <= |b| - pos || pos >= |b|
    ensures ChunksFrom(b, pos).Ok? ==>
      forall k :: 0 <= k < |ChunksFrom(b, pos).value| ==> |ChunksFrom(b, pos).value[k]| <= BytesInDword * 255
    ensures ChunksFrom(b, pos).Err? ==> ChunksFrom(b, pos).fault == IndexError
    decreases |b| - pos
  {
    if pos < |b| && |b| - pos >= HeaderSize {
      ChunksFromBounds(b, ChunkEnd(b, pos));
      var c := Chunk(b, pos);
      assert |c| <= BytesInDword * 255;
      var rest := ChunksFrom(b, ChunkEnd(b, pos));
      if rest.Ok? {
        assert ChunksFrom(b, pos).value == [c] + rest.value;
      }
    }
  }

  function ExtractChunks(b: seq<Byte>): Result<seq<seq<Byte>>>
  {
    ChunksFrom(b, 0)
  }

  function Joined(cs: seq<seq<Byte>>, r: Result<seq<seq<Byte>>>): Result<seq<seq<Byte>>>
  {
    match r
    case Ok(more) => Ok(cs + more)
    case Err(e) => Err(e)
  }

  lemma JoinedStep(cs: seq<seq<Byte>>, c: seq<Byte>, r: Result<seq<seq<Byte>>>)
    ensures Joined(cs, Prepend(c, r)) == Joined(cs + [c], r)
    ensures Joined([], r) == r
    ensures Joined(cs, Ok([])) == Ok(cs)
  {
    if r.Ok? {
      assert cs + ([c] + r.value) == (cs + [c]) + r.value;
      assert [] + r.value == r.value;
    }
    assert cs + [] == cs;
  }

  /** The slice `extract_blob_data` takes after a header is the chunk. */
  lemma SectionIsChunk(b: seq<Byte>, pos: nat)
    requires pos + HeaderSize <= |b|
    ensures Bytes(b, pos + HeaderSize, pos + HeaderSize + BytesInDword * b[pos + DwordField]) == Chunk(b, pos)
  {
  }

  /** `extract_blob_data(blob_string)` on the blob's bytes. */
  method ExtractBlobData(b: seq<Byte>) returns (r: Result<seq<seq<Byte>>>)
    ensures r == ExtractChunks(b)
  {
    var chunks: seq<seq<Byte>> := [];
    var pos: nat := 0;
    JoinedStep([], [], ExtractChunks(b));
    while pos < |b|
      invariant ExtractChunks(b) == Joined(chunks, ChunksFrom(b, pos))
      decreases |b| - pos
    {
      if |b| - pos < HeaderSize {
        return Err(IndexError);
      }
      var bytesToExtract := BytesInDword * b[pos + DwordField];
      var section := Bytes(b, pos + HeaderSize, pos + HeaderSize + bytesToExtract);
      SectionIsChunk(b, pos);
      JoinedStep(chunks, section, ChunksFrom(b, ChunkEnd(b, pos)));
      pos := pos + HeaderSize + bytesToExtract;
      chunks := chunks + [section];
    }
    JoinedStep(chunks, [], Ok([]));
    return Ok(chunks);
  }

  /** A chunk a header can describe: whole dwords, at most 255 of them. */
  predicate Frameable(c: seq<Byte>)
  {
    |c| % BytesInDword == 0 && |c| / BytesInDword < 256
  }

  /** A blob carrying `chunks`, each behind a header with zero in its first three bytes. */
  function Frame(chunks: seq<seq<Byte>>): seq<Byte>
    requires forall k :: 0 <= k < |chunks| ==> Frameable(chunks[k])
  {
    if chunks == [] then []
    else
      assert Frameable(chunks[0]);
      var h: seq<Byte> := [0, 0, 0, |chunks[0]| / BytesInDword];
      h + chunks[0] + Frame(chunks[1..])
  }

  /** Chunking does not depend on the bytes before the current position. */
  lemma {:induction false} ChunksFromShift(p: seq<Byte>, b: seq<Byte>, i: nat)
    ensures ChunksFrom(p + b, |p| + i) == ChunksFrom(b, i)
    decreases |b| - i
  {
    var pb := p + b;
    if i < |b| && |b| - i >= HeaderSize {
      assert pb[|p| + i + DwordField] == b[i + DwordField];
      assert ChunkEnd(pb, |p| + i) == |p| + ChunkEnd(b, i);
      assert Chunk(pb, |p| + i) == Chunk(b, i);
      ChunksFromShift(p, b, ChunkEnd(b, i));
    }
  }

  /** Extraction recovers the chunks a blob was framed from. */
  lemma {:induction false} ExtractFrame(chunks: seq<seq<Byte>>)
    requires forall k :: 0 <= k < |chunks| ==> Frameable(chunks[k])
    ensures ExtractChunks(Frame(chunks)) == Ok(chunks)
    decreases |chunks|
  {
    if chunks != [] {
      var c := chunks[0];
      var h: seq<Byte> := [0, 0, 0, |c| / BytesInDword];
      var rest := Frame(chunks[1..]);
      var b := Frame(chunks);
      assert b == (h + c) + rest;
      assert b[DwordField] == |c| / BytesInDword;
      assert ChunkEnd(b, 0) == |h + c|;
      assert Chunk(b, 0) == c;
      ExtractFrame(chunks[1..]);
      ChunksFromShift(h + c, rest, 0);
      assert ChunksFrom(b, ChunkEnd(b, 0)) == Ok(chunks[1..]);
      assert [c] + chunks[1..] == chunks;
    }
  }

  /* ---------------------------------------------------------------- */
  /* The bit field of one record                                       */

  /** `math.ceil((startbit + numbits) / 8)`: how many bytes the field spans. */
  function ByteCount(startBit: int, width: int): (n: int)
    ensures n > 0 <==> startBit + width > 0
    ensures startBit + width >= 0 ==> 8 * n >= startBit + width
  {
    -((-(startBit + width)) / 8)
  }

  /**
   * The value `import_blob` reads for a field of `width` bits at
   * `startBit` in the bytes from `bytePos`: the spanned bytes read little
   * endian, and-ed with the mask of the field's bits, shifted right by
   * `startBit`.  An empty mask string fails `int(..., 2)` and a negative
   * start fails the shift, both with ValueError.
   */
  function FieldValue(blob: seq<Byte>, bytePos: int, startBit: int, width: int): (r: Result<int>)
    ensures r.Err? ==> r.fault == ValueError
    ensures r.Err? <==> !Readable(startBit, width)
  {
    var count := ByteCount(startBit, width);
    if count <= 0 then Err(ValueError)
    else if startBit < 0 then Err(ValueError)
    else
      var mask := BitRangeMask(startBit, startBit + width, 8 * count);
      Ok(Shr(BitAnd(LittleEndian(Bytes(blob, bytePos, bytePos + count)), mask), startBit))
  }

  /** A field whose mask string is not empty and whose start is not negative. */
  predicate Readable(startBit: int, width: int)
  {
    startBit + width > 0 && startBit >= 0
  }

  /** The masked, shifted field of `x`: bits `startBit` to `startBit + width - 1`. */
  lemma MaskedField(x: nat, startBit: nat, width: nat, total: nat)
    requires startBit + width <= total
    ensures Shr(BitAnd(x, BitRangeMask(startBit, startBit + width, total)), startBit) == (x / Pow2(startBit)) % Pow2(width)
    ensures 0 <= (x / Pow2(startBit)) % Pow2(width) < Pow2(width)
  {
    BitRangeMaskValue(startBit, startBit + width, total);
    FieldExtract(x, startBit, startBit + width);
    assert startBit + width - startBit == width;
  }

  /**
   * For a field with non-negative start and width the extraction fails
   * only when both are zero, and otherwise yields bits `startBit` to
   * `startBit + width - 1` of the little-endian number: below `2^width`.
   */
  lemma FieldValueSpec(blob: seq<Byte>, bytePos: int, startBit: int, width: int)
    requires startBit >= 0 && width >= 0
    ensures FieldValue(blob, bytePos, startBit, width).Err? <==> startBit + width == 0
    ensures FieldValue(blob, bytePos, startBit, width).Ok? ==>
      var x := LittleEndian(Bytes(blob, bytePos, bytePos + ByteCount(startBit, width)));
      FieldValue(blob, bytePos, startBit, width).value == (x / Pow2(startBit)) % Pow2(width)
    ensures FieldValue(blob, bytePos, startBit, width).Ok? ==>
      0 <= FieldValue(blob, bytePos, startBit, width).value < Pow2(width)
  {
    if startBit + width > 0 {
      FieldValueRead(blob, bytePos, startBit, width);
    }
  }

  /** A readable field is the masked, shifted bits of its bytes. */
  lemma FieldValueRead(blob: seq<Byte>, bytePos: int, startBit: nat, width: nat)
    requires startBit + width > 0
    ensures var x := LittleEndian(Bytes(blob, bytePos, bytePos + ByteCount(startBit, width)));
      && FieldValue(blob, bytePos, startBit, width) == Ok((x / Pow2(startBit)) % Pow2(width))
      && 0 <= (x / Pow2(startBit)) % Pow2(width) < Pow2(width)
  {
    var count := ByteCount(startBit, width);
    var x := LittleEndian(Bytes(blob, bytePos, bytePos + count));
    var v := Shr(BitAnd(x, BitRangeMask(startBit, startBit + width, 8 * count)), startBit);
    assert FieldValue(blob, bytePos, startBit, width) == Ok(v);
    MaskedField(x, startBit, width, 8 * count);
  }

  /** The mask loop of `import_blob`: bit `i` of `total` set exactly when `lo <= i < hi`. */
  method RangeMask(lo: int, hi: int, total: nat) returns (mask: nat)
    ensures mask == BitRangeMask(lo, hi, total)
  {
    mask := 0;
    for i := 0 to total
      invariant mask == BitRangeMask(lo, hi, i)
    {
      if lo <= i < hi {
        mask := mask + Pow2(i);
      }
    }
  }

  /** The extraction steps of `import_blob` for one record. */
  method ExtractField(blob: seq<Byte>, bytePos: int, startBit: int, width: int) returns (r: Result<int>)
    ensures r == FieldValue(blob, bytePos, startBit, width)
  {
    var count := ByteCount(startBit, width);
    var total := 8 * count;
    if total <= 0 {
      return Err(ValueError);
    }
    var mask := RangeMask(startBit, startBit + width, total);
    if startBit < 0 {
      return Err(ValueError);
    }
    var x := LittleEndian(Bytes(blob, bytePos, bytePos + count));
    r := Ok(Shr(BitAnd(x, mask), startBit));
  }

  /** The type `import_blob` gives a record whose value changed: the old value in hex, in parentheses. */
  function OldValueType(v: int): string
  {
    "(0x" + FormatHex(v, 0) + ")"
  }

  /**
   * One record after decoding: a value that differs from the record's is
   * taken, with the old value kept in the type as `(0x<old>)`; an equal
   * value leaves the type `(fuse)`.  Nothing else changes.
   */
  function DecodeRow(f: Fuse, blob: seq<Byte>, base: int): (r: Result<Fuse>)
    ensures r.Err? <==> !Readable(f.startBit, f.width)
    ensures r.Ok? ==> FieldValue(blob, f.addr - base, f.startBit, f.width) == Ok(r.value.value)
    ensures r.Ok? ==> r.value.(value := f.value, typ := f.typ) == f
    ensures r.Ok? && r.value.value != f.value ==> r.value.typ == OldValueType(f.value)
    ensures r.Ok? && r.value.value == f.value ==> r.value.typ == "(fuse)"
  {
    match FieldValue(blob, f.addr - base, f.startBit, f.width)
    case Err(e) => Err(e)
    case Ok(v) =>
      if f.value != v then Ok(f.(typ := OldValueType(f.value), value := v))
      else Ok(f.(typ := "(fuse)"))
  }

  /** Two records that differ at most in value and type. */
  predicate SameField(f: Fuse, g: Fuse)
  {
    f.(value := g.value, typ := g.typ) == g
  }

  predicate Below(picks: seq<nat>, n: nat)
  {
    forall k :: 0 <= k < |picks| ==> picks[k] < n
  }

  predicate Increasing(picks: seq<nat>)
  {
    forall a, b :: 0 <= a < b < |picks| ==> picks[a] < picks[b]
  }

  /**
   * Decoding the picked records of one chunk in order, updating each in
   * place: the records afterwards, and the records in the order their rows
   * are written.
   */
  function DecodeRows(items: seq<Fuse>, picks: seq<nat>, blob: seq<Byte>, base: int): (r: Result<(seq<Fuse>, seq<Fuse>)>)
    requires Below(picks, |items|)
    ensures r.Ok? ==> |r.value.0| == |items| && |r.value.1| == |picks|
    ensures r.Ok? ==> forall j :: 0 <= j < |items| ==> SameField(r.value.0[j], items[j])
    decreases |picks|
  {
    if picks == [] then Ok((items, []))
    else
      match DecodeRows(items, picks[..|picks| - 1], blob, base)
      case Err(e) => Err(e)
      case Ok((its, out)) =>
        var k := picks[|picks| - 1];
        match DecodeRow(its[k], blob, base)
        case Err(e) => Err(e)
        case Ok(f) => Ok((its[k := f], out + [f]))
  }

  /** One more pick: decode the record at it, as it stands after the earlier picks. */
  lemma DecodeRowsSnoc(items: seq<Fuse>, picks: seq<nat>, j: nat, blob: seq<Byte>, base: int, its: seq<Fuse>, out: seq<Fuse>)
    requires Below(picks, |items|) && j < |picks|
    requires DecodeRows(items, picks[..j], blob, base) == Ok((its, out))
    ensures picks[j] < |its|
    ensures DecodeRows(items, picks[..j + 1], blob, base) ==
      match DecodeRow(its[picks[j]], blob, base)
      case Err(e) => Err(e)
      case Ok(f) => Ok((its[picks[j] := f], out + [f]))
  {
    assert picks[..j + 1][..j] == picks[..j];
  }

  /** Every picked record's field can be read. */
  predicate AllReadable(items: seq<Fuse>, picks: seq<nat>)
    requires Below(picks, |items|)
  {
    forall k :: 0 <= k < |picks| ==> Readable(items[picks[k]].startBit, items[picks[k]].width)
  }

  /** One more pick fails exactly when the earlier ones did or the new record's field cannot be read. */
  lemma DecodeRowsStepFails(items: seq<Fuse>, picks: seq<nat>, blob: seq<Byte>, base: int)
    requires Below(picks, |items|) && picks != []
    ensures DecodeRows(items, picks, blob, base).Err? <==>
      DecodeRows(items, picks[..|picks| - 1], blob, base).Err? ||
      !Readable(items[picks[|picks| - 1]].startBit, items[picks[|picks| - 1]].width)
  {
    var j := |picks| - 1;
    var prev := DecodeRows(items, picks[..j], blob, base);
    if prev.Ok? {
      var its := prev.value.0;
      var last := picks[j];
      DecodeRowsSnoc(items, picks, j, blob, base, its, prev.value.1);
      assert picks[..j + 1] == picks;
      assert SameField(its[last], items[last]);
    }
  }

  lemma AllReadableSnoc(items: seq<Fuse>, picks: seq<nat>)
    requires Below(picks, |items|) && picks != []
    ensures AllReadable(items, picks) <==>
      AllReadable(items, picks[..|picks| - 1]) &&
      Readable(items[picks[|picks| - 1]].startBit, items[picks[|picks| - 1]].width)
  {
    var init := picks[..|picks| - 1];
    assert forall a :: 0 <= a < |init| ==> init[a] == picks[a];
  }

  /** Decoding fails exactly when some picked record's field cannot be read. */
  lemma {:induction false} DecodeRowsFails(items: seq<Fuse>, picks: seq<nat>, blob: seq<Byte>, base: int)
    requires Below(picks, |items|)
    ensures DecodeRows(items, picks, blob, base).Err? <==> !AllReadable(items, picks)
    decreases |picks|
  {
    if picks != [] {
      DecodeRowsFails(items, picks[..|picks| - 1], blob, base);
      DecodeRowsStepFails(items, picks, blob, base);
      AllReadableSnoc(items, picks);
    }
  }

  /** With distinct picks, each picked record is decoded from its original value. */
  lemma {:induction false} DecodeRowsDecoded(items: seq<Fuse>, picks: seq<nat>, blob: seq<Byte>, base: int)
    requires Below(picks, |items|) && Increasing(picks)
    ensures DecodeRows(items, picks, blob, base).Ok? ==>
      forall k :: 0 <= k < |picks| ==>
        DecodeRow(items[picks[k]], blob, base) == Ok(DecodeRows(items, picks, blob, base).value.0[picks[k]])
    decreases |picks|
  {
    if picks != [] {
      var j := |picks| - 1;
      var init := picks[..j];
      var k := picks[j];
      DecodeRowsDecoded(items, init, blob, base);
      DecodeRowsUntouched(items, init, blob, base);
      var prev := DecodeRows(items, init, blob, base);
      var cur := DecodeRows(items, picks, blob, base);
      if prev.Ok? && cur.Ok? {
        var its := prev.value.0;
        DecodeRowsSnoc(items, picks, j, blob, base, its, prev.value.1);
        assert picks[..j + 1] == picks;
        assert k !in init by {
          assert forall a :: 0 <= a < |init| ==> init[a] == picks[a] && init[a] < k;
        }
        assert its[k] == items[k];
        var f := cur.value.0[k];
        assert DecodeRow(its[k], blob, base) == Ok(f) && cur.value.0 == its[k := f];
        forall a | 0 <= a < |picks|
          ensures DecodeRow(items[picks[a]], blob, base) == Ok(cur.value.0[picks[a]])
        {
          if a < j {
            assert init[a] == picks[a] && picks[a] < k;
          }
        }
      }
    }
  }

  /** With distinct picks, the rows are written in pick order, each for its record's final state. */
  lemma {:induction false} DecodeRowsOrder(items: seq<Fuse>, picks: seq<nat>, blob: seq<Byte>, base: int)
    requires Below(picks, |items|) && Increasing(picks)
    ensures DecodeRows(items, picks, blob, base).Ok? ==>
      forall k :: 0 <= k < |picks| ==>
        DecodeRows(items, picks, blob, base).value.1[k] == DecodeRows(items, picks, blob, base).value.0[picks[k]]
    decreases |picks|
  {
    if picks != [] {
      var j := |picks| - 1;
      var init := picks[..j];
      var k := picks[j];
      DecodeRowsOrder(items, init, blob, base);
      var prev := DecodeRows(items, init, blob, base);
      if prev.Ok? {
        DecodeRowsSnoc(items, picks, j, blob, base, prev.value.0, prev.value.1);
        assert picks[..j + 1] == picks;
        assert forall a :: 0 <= a < |init| ==> init[a] == picks[a] && init[a] < k;
      }
    }
  }

  /** Each written record is the picked record with at most its value and type changed. */
  lemma {:induction false} DecodeRowsOut(items: seq<Fuse>, picks: seq<nat>, blob: seq<Byte>, base: int)
    requires Below(picks, |items|)
    ensures DecodeRows(items, picks, blob, base).Ok? ==>
      forall k :: 0 <= k < |picks| ==> SameField(DecodeRows(items, picks, blob, base).value.1[k], items[picks[k]])
    decreases |picks|
  {
    if picks != [] {
      var init := picks[..|picks| - 1];
      DecodeRowsOut(items, init, blob, base);
      assert forall a :: 0 <= a < |init| ==> init[a] == picks[a];
    }
  }

  /** Records that are not picked are left as they are. */
  lemma {:induction false} DecodeRowsUntouched(items: seq<Fuse>, picks: seq<nat>, blob: seq<Byte>, base: int)
    requires Below(picks, |items|)
    ensures DecodeRows(items, picks, blob, base).Ok? ==>
      var its := DecodeRows(items, picks, blob, base).value.0;
      forall j :: 0 <= j < |items| && j !in picks ==> its[j] == items[j]
    decreases |picks|
  {
    if picks != [] {
      var init := picks[..|picks| - 1];
      DecodeRowsUntouched(items, init, blob, base);
      assert forall j :: j in init ==> j in picks;
    }
  }

  /** Decoding a chunk's records stops at the first one that fails. */
  lemma {:induction false} DecodeRowsErrStays(items: seq<Fuse>, picks: seq<nat>, j: nat, blob: seq<Byte>, base: int)
    requires Below(picks, |items|) && j <= |picks|
    requires DecodeRows(items, picks[..j], blob, base).Err?
    ensures DecodeRows(items, picks, blob, base) == DecodeRows(items, picks[..j], blob, base)
    decreases |picks| - j
  {
    if j < |picks| {
      assert picks[..j + 1][..j] == picks[..j];
      DecodeRowsErrStays(items, picks, j + 1, blob, base);
    } else {
      assert picks[..j] == picks;
    }
  }

  /** The body of the row loop of `import_blob` for one record. */
  method DecodeRecord(cur: Fuse, blob: seq<Byte>, base: int) returns (r: Result<Fuse>)
    ensures r == DecodeRow(cur, blob, base)
  {
    var v := ExtractField(blob, cur.addr - base, cur.startBit, cur.width);
    if v.Err? {
      return Err(v.fault);
    }
    if cur.value != v.value {
      r := Ok(cur.(typ := OldValueType(cur.value), value := v.value));
    } else {
      r := Ok(cur.(typ := "(fuse)"));
    }
  }

  /**
   * The row loop of `import_blob` over one chunk's picked records: the
   * records afterwards and the records whose rows it writes.
   */
  method DecodeChunk(items: seq<Fuse>, picks: seq<nat>, blob: seq<Byte>, base: int)
    returns (r: Result<(seq<Fuse>, seq<Fuse>)>)
    requires Below(picks, |items|)
    ensures r == DecodeRows(items, picks, blob, base)
  {
    var its := items;
    var out: seq<Fuse> := [];
    for j := 0 to |picks|
      invariant DecodeRows(items, picks[..j], blob, base) == Ok((its, out))
    {
      DecodeRowsSnoc(items, picks, j, blob, base, its, out);
      var k := picks[j];
      var d := DecodeRecord(its[k], blob, base);
      if d.Err? {
        DecodeRowsErrStays(items, picks, j + 1, blob, base);
        return Err(d.fault);
      }
      its := its[k := d.value];
      out := out + [d.value];
    }
    assert picks[..|picks|] == picks;
    r := Ok((its, out));
  }

  /* ---------------------------------------------------------------- */
  /* filter_values                                                     */

  /** A record `filter_values` considers: its name has the prefix and it lies at or above the base. */
  predicate Eligible(f: Fuse, prefix: string, base: int)
  {
    StartsWith(f.name, prefix) && f.addr >= base
  }

  /**
   * The positions `filter_values` picks from `i` on, with `total` bits
   * already taken: eligible records are taken while fewer than `maxBits`
   * bits are taken, and the first eligible record met at or past the
   * limit ends the scan.
   */
  function PicksFrom(items: seq<Fuse>, prefix: string, base: int, maxBits: int, i: nat, total: int): (p: seq<nat>)
    requires i <= |items|
    ensures forall k :: 0 <= k < |p| ==> i <= p[k] < |items|
    decreases |items| - i
  {
    if i == |items| then []
    else if !Eligible(items[i], prefix, base) then PicksFrom(items, prefix, base, maxBits, i + 1, total)
    else if total < maxBits then [i] + PicksFrom(items, prefix, base, maxBits, i + 1, total + items[i].width)
    else []
  }

  /**
   * `filter_values(default_values, prefix, base_address, data_size)`: the
   * list of references it returns is modelled by the records' positions.
   */
  function Picks(items: seq<Fuse>, prefix: string, base: int, size: int): (p: seq<nat>)
    ensures Below(p, |items|)
  {
    PicksFrom(items, prefix, base, size * ByteBits, 0, 0)
  }

  method FilterValues(items: seq<Fuse>, prefix: string, base: int, size: int) returns (picks: seq<nat>)
    ensures picks == Picks(items, prefix, base, size)
  {
    var maxBits := size * ByteBits;
    var total := 0;
    picks := [];
    var i := 0;
    while i < |items|
      invariant i <= |items|
      invariant picks + PicksFrom(items, prefix, base, maxBits, i, total) == Picks(items, prefix, base, size)
    {
      if !StartsWith(items[i].name, prefix) {
        i := i + 1;
        continue;
      }
      if items[i].addr < base {
        i := i + 1;
        continue;
      }
      if total < maxBits {
        assert PicksFrom(items, prefix, base, maxBits, i, total)
          == [i] + PicksFrom(items, prefix, base, maxBits, i + 1, total + items[i].width);
        picks := picks + [i];
        total := total + items[i].width;
      } else {
        break;
      }
      i := i + 1;
    }
  }

  /** The widths of the picked records, summed. */
  function WidthSum(items: seq<Fuse>, picks: seq<nat>): int
    requires Below(picks, |items|)
  {
    if picks == [] then 0 else items[picks[0]].width + WidthSum(items, picks[1..])
  }

  /** The picks are increasing positions of eligible records. */
  lemma {:induction false} PicksFromOrdered(items: seq<Fuse>, prefix: string, base: int, maxBits: int, i: nat, total: int)
    requires i <= |items|
    ensures Increasing(PicksFrom(items, prefix, base, maxBits, i, total))
    ensures forall k :: 0 <= k < |PicksFrom(items, prefix, base, maxBits, i, total)| ==>
      Eligible(items[PicksFrom(items, prefix, base, maxBits, i, total)[k]], prefix, base)
    decreases |items| - i
  {
    if i < |items| {
      var p := PicksFrom(items, prefix, base, maxBits, i, total);
      if !Eligible(items[i], prefix, base) {
        assert p == PicksFrom(items, prefix, base, maxBits, i + 1, total);
        PicksFromOrdered(items, prefix, base, maxBits, i + 1, total);
      } else if total < maxBits {
        var q := PicksFrom(items, prefix, base, maxBits, i + 1, total + items[i].width);
        PicksFromOrdered(items, prefix, base, maxBits, i + 1, total + items[i].width);
        assert p == [i] + q;
        forall k | 0 < k < |p|
          ensures p[k] == q[k - 1] && i < p[k]
        {
        }
      }
    }
  }

  /** Each pick was taken while the bits taken before it stayed under the limit. */
  lemma {:induction false} PicksFromBudget(items: seq<Fuse>, prefix: string, base: int, maxBits: int, i: nat, total: int)
    requires i <= |items|
    ensures forall k :: 0 <= k < |PicksFrom(items, prefix, base, maxBits, i, total)| ==>
      total + WidthSum(items, PicksFrom(items, prefix, base, maxBits, i, total)[..k]) < maxBits
    decreases |items| - i
  {
    if i < |items| {
      var p := PicksFrom(items, prefix, base, maxBits, i, total);
      if !Eligible(items[i], prefix, base) {
        assert p == PicksFrom(items, prefix, base, maxBits, i + 1, total);
        PicksFromBudget(items, prefix, base, maxBits, i + 1, total);
      } else if total < maxBits {
        var w := items[i].width;
        var q := PicksFrom(items, prefix, base, maxBits, i + 1, total + w);
        PicksFromBudget(items, prefix, base, maxBits, i + 1, total + w);
        assert p == [i] + q;
        forall k | 0 <= k < |p|
          ensures total + WidthSum(items, p[..k]) < maxBits
        {
          if k > 0 {
            assert p[..k][0] == i;
            assert p[..k][1..] == q[..k - 1];
            assert WidthSum(items, p[..k]) == w + WidthSum(items, q[..k - 1]);
          }
        }
      }
    }
  }

  /**
   * An eligible record that is not picked lies after every pick, and the
   * picks reached the limit.
   */
  lemma {:induction false} PicksFromMaximal(items: seq<Fuse>, prefix: string, base: int, maxBits: int, i: nat, total: int)
    requires i <= |items|
    ensures var p := PicksFrom(items, prefix, base, maxBits, i, total);
      forall j :: i <= j < |items| && Eligible(items[j], prefix, base) && j !in p ==>
        (forall k :: 0 <= k < |p| ==> p[k] < j) && total + WidthSum(items, p) >= maxBits
    decreases |items| - i
  {
    if i < |items| {
      var p := PicksFrom(items, prefix, base, maxBits, i, total);
      if !Eligible(items[i], prefix, base) {
        PicksFromMaximal(items, prefix, base, maxBits, i + 1, total);
      } else if total < maxBits {
        var w := items[i].width;
        var q := PicksFrom(items, prefix, base, maxBits, i + 1, total + w);
        PicksFromMaximal(items, prefix, base, maxBits, i + 1, total + w);
        assert p == [i] + q;
        assert p[1..] == q;
        assert i in p;
      }
    }
  }

  /* ---------------------------------------------------------------- */
  /* filter_dlut and import_blob                                      */

  /**
   * One entry of the distribution look-up table as `get_dlut` builds it:
   * the IP instance owning the chunk, its sideband port ids and endpoint,
   * its group, kind and count, its RAM and receiver addresses, BAR, size in
   * bytes, lockout position and address, and the key the table is sorted by.
   */
  datatype DlutEntry = DlutEntry(instance: string, portIdFull: int, hiPortId: int, loPortId: int,
                                 sbep: int, group: int, typ: string, count: int,
                                 ramAddr: int, rcvrAddr: int, bar: string, size: int,
                                 lockoutPos: int, lockoutAddr: int, sortKey: int)

  function KindName(softstrap: bool): string
  {
    if softstrap then SoftStrap else DirectFuse
  }

  predicate DlutMatch(e: DlutEntry, instance: string, group: int, softstrap: bool)
  {
    e.instance == instance && e.group == group && e.typ == KindName(softstrap)
  }

  /** `filter_dlut(dlut_list, instance_name, group, type_softstrap)`: the matching entries in order. */
  function DlutMatches(dlut: seq<DlutEntry>, instance: string, group: int, softstrap: bool): (r: seq<DlutEntry>)
    ensures |r| <= |dlut|
    ensures forall k :: 0 <= k < |r| ==> r[k] in dlut && DlutMatch(r[k], instance, group, softstrap)
    ensures forall k :: 0 <= k < |dlut| && DlutMatch(dlut[k], instance, group, softstrap) ==> dlut[k] in r
  {
    if dlut == [] then []
    else
      var init := dlut[..|dlut| - 1];
      var e := dlut[|dlut| - 1];
      var r := DlutMatches(init, instance, group, softstrap) + (if DlutMatch(e, instance, group, softstrap) then [e] else []);
      assert forall k :: 0 <= k < |init| ==> init[k] == dlut[k];
      r
  }

  method FilterDlut(dlut: seq<DlutEntry>, instance: string, group: int, softstrap: bool) returns (r: seq<DlutEntry>)
    ensures r == DlutMatches(dlut, instance, group, softstrap)
  {
    var kind := KindName(softstrap);
    r := [];
    for i := 0 to |dlut|
      invariant r == DlutMatches(dlut[..i], instance, group, softstrap)
    {
      assert dlut[..i + 1][..i] == dlut[..i];
      var e := dlut[i];
      if e.instance != instance {
        continue;
      }
      if e.group != group {
        continue;
      }
      if e.typ != kind {
        continue;
      }
      r := r + [e];
    }
    assert dlut[..|dlut|] == dlut;
  }

  /** How `import_blob` ends. */
  datatype BlobOutcome =
    | Refused                      // False, before the output file is opened
    | Stopped(lines: seq<string>)  // False, after writing `lines`
    | Raised(fault: Fault)         // an exception escapes
    | Written(lines: seq<string>)  // True, having written `lines`

  /** The chunk loop's state: the records, and the records whose rows are written so far. */
  datatype Progress = Going(items: seq<Fuse>, written: seq<Fuse>) | Halted(outcome: BlobOutcome)

  /** The output file: the header, then one row per written record. */
  function BlobFile(written: seq<Fuse>): seq<string>
  {
    [Header] + PlainRows(written)
  }

  /**
   * The chunk loop of `import_blob` over `blobs`, chunk `n` read with DLUT
   * entry `n`: a chunk without an entry raises IndexError, a chunk with no
   * picked record stops the import, and otherwise the picked records are
   * decoded (updating the records in place) and their rows written.
   */
  function Run(blobs: seq<seq<Byte>>, items0: seq<Fuse>, chunks: seq<DlutEntry>, prefix: string): (p: Progress)
    ensures p.Going? ==> |p.items| == |items0| && |blobs| <= |chunks|
    ensures p.Halted? ==> !p.outcome.Refused? && !p.outcome.Written?
    decreases |blobs|
  {
    if blobs == [] then Going(items0, [])
    else
      match Run(blobs[..|blobs| - 1], items0, chunks, prefix)
      case Halted(o) => Halted(o)
      case Going(items, written) =>
        var n := |blobs| - 1;
        if n >= |chunks| then Halted(Raised(IndexError))
        else
          var picks := Picks(items, prefix, chunks[n].ramAddr, chunks[n].size);
          if picks == [] then Halted(Stopped(BlobFile(written)))
          else
            match DecodeRows(items, picks, blobs[n], chunks[n].ramAddr)
            case Err(e) => Halted(Raised(e))
            case Ok((its, out)) => Going(its, written + out)
  }

  /**
   * `import_blob(blob_strings, default_values, dlut_list, target_file,
   * prefix, group, type_softstrap)` with the default records already read.
   */
  function ImportBlobOutcome(blobs: seq<seq<Byte>>, defs: seq<Fuse>, dlut: seq<DlutEntry>, target: string,
                             prefix: string, group: int, softstrap: bool): (o: BlobOutcome)
    ensures o.Refused? <==>
      target == [] || defs == [] || prefix == [] || DlutMatches(dlut, prefix, group, softstrap) == []
  {
    if |target| == 0 || |defs| == 0 || |prefix| == 0 then Refused
    else
      var chunks := DlutMatches(dlut, prefix, group, softstrap);
      if chunks == [] then Refused
      else
        match Run(blobs, defs, chunks, prefix)
        case Halted(o) => o
        case Going(_, written) => Written(BlobFile(written))
  }

  /** Once the chunk loop halts, later chunks change nothing. */
  lemma {:induction false} RunHaltedStays(blobs: seq<seq<Byte>>, i: nat, items0: seq<Fuse>, chunks: seq<DlutEntry>, prefix: string)
    requires i <= |blobs|
    requires Run(blobs[..i], items0, chunks, prefix).Halted?
    ensures Run(blobs, items0, chunks, prefix) == Run(blobs[..i], items0, chunks, prefix)
    decreases |blobs| - i
  {
    if i < |blobs| {
      assert blobs[..i + 1][..i] == blobs[..i];
      RunHaltedStays(blobs, i + 1, items0, chunks, prefix);
    } else {
      assert blobs[..i] == blobs;
    }
  }

  /** A blob beyond the last matching chunk stops the loop with an `IndexError`. */
  lemma RunPastChunks(blobs: seq<seq<Byte>>, i: nat, items0: seq<Fuse>, chunks: seq<DlutEntry>, prefix: string)
    requires |chunks| <= i < |blobs|
    requires Run(blobs[..i], items0, chunks, prefix).Going?
    ensures Run(blobs[..i + 1], items0, chunks, prefix) == Halted(Raised(IndexError))
  {
    assert blobs[..i + 1][..i] == blobs[..i];
  }

  method ImportBlob(blobs: seq<seq<Byte>>, defs: seq<Fuse>, dlut: seq<DlutEntry>, target: string,
                    prefix: string, group: int, softstrap: bool) returns (o: BlobOutcome)
    ensures o == ImportBlobOutcome(blobs, defs, dlut, target, prefix, group, softstrap)
  {
    if |target| == 0 || |defs| == 0 || |prefix| == 0 {
      return Refused;
    }
    // An invalid group is reported, but the import carries on.
    var chunks := FilterDlut(dlut, prefix, group, softstrap);
    if |chunks| == 0 {
      return Refused;
    }
    var items := defs;
    var written: seq<Fuse> := [];
    for i := 0 to |blobs|
      invariant Run(blobs[..i], defs, chunks, prefix) == Going(items, written)
    {
      assert blobs[..i + 1][..i] == blobs[..i];
      if i >= |chunks| {
        RunPastChunks(blobs, i, defs, chunks, prefix);
        RunHaltedStays(blobs, i + 1, defs, chunks, prefix);
        return Raised(IndexError);
      }
      var base := chunks[i].ramAddr;
      var picks := FilterValues(items, prefix, base, chunks[i].size);
      if |picks| == 0 {
        assert Run(blobs[..i + 1], defs, chunks, prefix) == Halted(Stopped(BlobFile(written)));
        RunHaltedStays(blobs, i + 1, defs, chunks, prefix);
        return Stopped(BlobFile(written));
      }
      var decoded := DecodeChunk(items, picks, blobs[i], base);
      if decoded.Err? {
        assert Run(blobs[..i + 1], defs, chunks, prefix) == Halted(Raised(decoded.fault));
        RunHaltedStays(blobs, i + 1, defs, chunks, prefix);
        return Raised(decoded.fault);
      }
      items := decoded.value.0;
      written := written + decoded.value.1;
    }
    assert blobs[..|blobs|] == blobs;
    o := Written(BlobFile(written));
  }

  /**
   * A completed chunk loop has written at least one row per chunk, and the
   * records differ from the defaults only in value and type.
   */
  lemma {:induction false} RunShape(blobs: seq<seq<Byte>>, items0: seq<Fuse>, chunks: seq<DlutEntry>, prefix: string)
    ensures Run(blobs, items0, chunks, prefix).Going? ==>
      var p := Run(blobs, items0, chunks, prefix);
      |p.written| >= |blobs| && forall j :: 0 <= j < |items0| ==> SameField(p.items[j], items0[j])
    decreases |blobs|
  {
    if blobs != [] {
      RunShape(blobs[..|blobs| - 1], items0, chunks, prefix);
    }
  }

  /** Every row a completed chunk loop writes is a record whose name has the prefix. */
  lemma {:induction false} RunNames(blobs: seq<seq<Byte>>, items0: seq<Fuse>, chunks: seq<DlutEntry>, prefix: string)
    ensures Run(blobs, items0, chunks, prefix).Going? ==>
      forall k :: 0 <= k < |Run(blobs, items0, chunks, prefix).written| ==>
        StartsWith(Run(blobs, items0, chunks, prefix).written[k].name, prefix)
    decreases |blobs|
  {
    if blobs != [] {
      var init := blobs[..|blobs| - 1];
      RunNames(init, items0, chunks, prefix);
      var prev := Run(init, items0, chunks, prefix);
      var n := |blobs| - 1;
      if prev.Going? && n < |chunks| {
        var items := prev.items;
        var base := chunks[n].ramAddr;
        var picks := Picks(items, prefix, base, chunks[n].size);
        if picks != [] {
          PicksFromOrdered(items, prefix, base, chunks[n].size * ByteBits, 0, 0);
          DecodeRowsOut(items, picks, blobs[n], base);
        }
      }
    }
  }
}
