/**
 * The query side: `ReverseGeocoder` maps an index file and answers, for a
 * pixel, the record of the entity that covers it, split into its
 * NUL-terminated fields.
 *
 * The mapped file is the byte sequence `buffer`; the projection from
 * longitude/latitude to a pixel is float arithmetic and is not modelled, so
 * lookups take the pixel coordinates.
 */
module Geocoder {
  import opened Binary
  import opened Varint
  import opened RunLength
  import opened RowCodec
  import opened Container

  /** What the Java code throws, by cause. */
  datatype GeoError =
    | NotAnIndex               // the magic number is not that of a version-1 file
    | OutOfBuffer              // a position or a read past the end of the mapped file
    | NegativeCount            // a negative record count (the cache array cannot be created)
    | BadRow(e: VarintError)   // a row's varints run past the file or are too long

  const NUL: char := '\0'

  // ---------------------------------------------------------------------------
  // Records.

  /**
   * The fields of a decoded record, scanning from `i` with the current field
   * starting at `j`: each NUL ends a field; text after the last NUL is dropped.
   */
  function Split(s: string, i: nat, j: nat): seq<string>
    requires j <= i <= |s|
    decreases |s| - i
  {
    if i == |s| then []
    else if s[i] == NUL then [s[j..i]] + Split(s, i + 1, i + 1)
    else Split(s, i + 1, j)
  }

  function Fields(s: string): seq<string>
  {
    Split(s, 0, 0)
  }

  /** The number of NULs in `s[i..]`. */
  function NulsFrom(s: string, i: nat): nat
    requires i <= |s|
    decreases |s| - i
  {
    if i == |s| then 0 else (if s[i] == NUL then 1 else 0) + NulsFrom(s, i + 1)
  }

  /** Keys written one after the other, each followed by a NUL (the builders' record format). */
  function Join(ps: seq<string>): string
  {
    if ps == [] then [] else ps[0] + [NUL] + Join(ps[1..])
  }

  predicate NoNul(p: string)
  {
    forall c :: 0 <= c < |p| ==> p[c] != NUL
  }

  /** There is one field per NUL. */
  lemma {:induction false} SplitCount(s: string, i: nat, j: nat)
    requires j <= i <= |s|
    ensures |Split(s, i, j)| == NulsFrom(s, i)
    decreases |s| - i
  {
    if i < |s| {
      if s[i] == NUL {
        SplitCount(s, i + 1, i + 1);
      } else {
        SplitCount(s, i + 1, j);
      }
    }
  }

  /** No field contains a NUL. */
  lemma {:induction false} SplitNoNul(s: string, i: nat, j: nat)
    requires j <= i <= |s| && NoNul(s[j..i])
    ensures forall f :: 0 <= f < |Split(s, i, j)| ==> NoNul(Split(s, i, j)[f])
    decreases |s| - i
  {
    if i < |s| {
      if s[i] == NUL {
        SplitNoNul(s, i + 1, i + 1);
      } else {
        assert s[j..i + 1] == s[j..i] + [s[i]];
        SplitNoNul(s, i + 1, j);
      }
    }
  }

  /** Characters without a NUL only extend the current field. */
  lemma {:induction false} SplitSkip(s: string, i: nat, m: nat, j: nat)
    requires j <= i <= m <= |s| && NoNul(s[i..m])
    ensures Split(s, i, j) == Split(s, m, j)
    decreases m - i
  {
    if i < m {
      assert s[i] == s[i..m][0];
      assert s[i + 1..m] == s[i..m][1..];
      SplitSkip(s, i + 1, m, j);
    }
  }

  lemma {:induction false} SplitJoin(pre: string, ps: seq<string>)
    requires forall k :: 0 <= k < |ps| ==> NoNul(ps[k])
    ensures Split(pre + Join(ps), |pre|, |pre|) == ps
    decreases |ps|
  {
    var s := pre + Join(ps);
    if ps != [] {
      var m := |pre| + |ps[0]|;
      var pre' := pre + ps[0] + [NUL];
      assert s == pre' + Join(ps[1..]);
      assert s[|pre|..m] == ps[0];
      SplitSkip(s, |pre|, m, |pre|);
      assert s[m] == NUL;
      SplitJoin(pre', ps[1..]);
    } else {
      assert |s| == |pre|;
    }
  }

  /** Splitting what the builder joined gives back the keys. */
  lemma {:induction false} FieldsJoin(ps: seq<string>)
    requires forall k :: 0 <= k < |ps| ==> NoNul(ps[k])
    ensures Fields(Join(ps)) == ps
  {
    SplitJoin([], ps);
    assert [] + Join(ps) == Join(ps);
  }

  /** Text after the last NUL is dropped. */
  lemma {:induction false} FieldsDropTail(s: string, t: string)
    requires NoNul(t)
    ensures Fields(s + t) == Fields(s)
  {
    SplitPrefix(s, t, 0, 0);
  }

  lemma {:induction false} SplitPrefix(s: string, t: string, i: nat, j: nat)
    requires j <= i <= |s| && NoNul(t)
    ensures Split(s + t, i, j) == Split(s, i, j)
    decreases |s| - i
  {
    if i < |s| {
      assert (s + t)[i] == s[i];
      if s[i] == NUL {
        assert (s + t)[j..i] == s[j..i];
        SplitPrefix(s, t, i + 1, i + 1);
      } else {
        SplitPrefix(s, t, i + 1, j);
      }
    } else {
      assert (s + t)[|s|..] == t;
      SplitSkip(s + t, |s|, |s + t|, j);
    }
  }

  /**
   * The two loops of `lookupEntryUncached` after decoding: count the NULs
   * to size the result, then cut the fields.
   */
  method SplitFields(decoded: string) returns (ret: seq<string>)
    ensures ret == Fields(decoded)
    ensures |ret| == NulsFrom(decoded, 0)
  {
    var nummeta := 0;
    var end := |decoded|;
    for i := 0 to end
      invariant nummeta + NulsFrom(decoded, i) == NulsFrom(decoded, 0)
    {
      if decoded[i] == NUL {
        nummeta := nummeta + 1;
      }
    }
    var arr := new string[nummeta](_ => []);
    var j, k := 0, 0;
    SplitCount(decoded, 0, 0);
    for i := 0 to end
      invariant j <= i && k + NulsFrom(decoded, i) == nummeta
      invariant arr[..k] + Split(decoded, i, j) == Fields(decoded)
    {
      if decoded[i] == NUL {
        ghost var done := arr[..k];
        arr[k] := decoded[j..i];
        assert arr[..k + 1] == done + [decoded[j..i]];
        k := k + 1;
        j := i + 1;
      }
    }
    ret := arr[..];
    assert arr[..k] == arr[..];
  }

  /** UTF-8 decoding is not modelled: each byte stands for one character. */
  function Chars(bytes: seq<byte>): string
  {
    seq(|bytes|, k requires 0 <= k < |bytes| => bytes[k] as char)
  }

  // ---------------------------------------------------------------------------
  // Reading the file.

  /** `HEADER_SIZE + (k << 2)` in Java `int` arithmetic. */
  function SlotPos(k: i32): i32
  {
    AddI32(HEADER_SIZE, ToI32(ToU32(k * 4)))
  }

  /**
   * `lookupUncached` on a pixel: 0 outside the map; otherwise the row's
   * offset is read from its slot and the row is scanned for column `x`.
   */
  function Pixel(buf: seq<byte>, width: i32, height: i32, x: i32, y: i32): Result<i32, GeoError>
  {
    if x < 0 || x >= width || y < 0 || y >= height then Ok(0)
    else
      var pos := SlotPos(y);
      if pos < 0 || pos + 4 > |buf| then Err(OutOfBuffer)
      else
        var rowpos := GetInt(buf, pos);
        if rowpos < 0 || rowpos > |buf| then Err(OutOfBuffer)
        else match ScanRow(buf, rowpos, x)
          case Err(e) => Err(BadRow(e))
          case Ok(c) => Ok(c)
  }

  /**
   * `lookupEntryUncached`: no fields for an index outside 0 .. numentries-1
   * or for equal start and end offsets; otherwise the fields of the bytes
   * between the record's two offsets (nothing when the end lies before the
   * start, as the buffer's position is then clamped to its limit).
   */
  function Entry(buf: seq<byte>, height: i32, numentries: i32, idx: i32): Result<seq<string>, GeoError>
  {
    if idx < 0 || idx >= numentries then Ok([])
    else
      var pos := SlotPos(AddI32(height, idx));
      if pos < 0 || pos + 8 > |buf| then Err(OutOfBuffer)
      else
        var start, endp := GetInt(buf, pos), GetInt(buf, pos + 4);
        if start == endp then Ok([])
        else if start < 0 || start > |buf| || endp < 0 || endp > |buf| then Err(OutOfBuffer)
        else if endp < start then Ok([])
        else Ok(Fields(Chars(buf[start..endp])))
  }

  // ---------------------------------------------------------------------------
  // What the reader finds in a file the sliced builder wrote.

  /** Slot positions of a file under 2 GiB do not wrap. */
  lemma {:induction false} SlotPosExact(k: i32)
    requires 0 <= k && HEADER_SIZE + 4 * k < 0x8000_0000
    ensures SlotPos(k) == HEADER_SIZE + 4 * k
  {
    NonNegI32(k * 4);
    AddNoWrap(HEADER_SIZE, k * 4);
  }

  /** A file is the bytes before a chunk, the chunk, and the bytes after it. */
  lemma {:induction false} AroundChunk(f: seq<byte>, a: nat, b: nat, c: seq<byte>)
    requires a <= b <= |f| && f[a..b] == c
    ensures f == f[..a] + c + f[b..] && |f[..a]| == a
  {
  }

  /**
   * The pixel lookup on a file whose rows are the compressed rows of a grid,
   * renumbered through `idmap`, yields the new code of that grid cell.
   */
  lemma {:induction false} PixelOfIndex(vp: Viewport, rows: seq<seq<byte>>, metadata: seq<seq<byte>>,
                                       grid: seq<seq<i32>>, idmap: seq<i32>, x: i32, y: i32)
    requires |rows| == |grid| == vp.height && vp.width < 0x8000_0000
    requires 0 <= y < vp.height && 0 <= x < vp.width
    requires |grid[y]| == vp.width && InRange(grid[y], |idmap|)
    requires Recode(CompressedRow(grid[y]), idmap) == Ok(rows[y])
    requires |IndexFile(vp, rows, metadata)| < 0x8000_0000
    ensures Pixel(IndexFile(vp, rows, metadata), vp.width, vp.height, x, y) == Ok(idmap[grid[y][x]])
  {
    var f := IndexFile(vp, rows, metadata);
    var offs := Offsets(FirstPos(vp.height, |metadata|), rows + metadata);
    RecodeCompressedRow(grid[y], idmap);
    ReadSlot(vp, rows, metadata, y);
    SlotPosExact(y);
    ReadChunk(vp, rows, metadata, y);
    assert (rows + metadata)[y] == rows[y];
    AroundChunk(f, offs[y], offs[y + 1], rows[y]);
    ScanEncodedRow(grid[y], idmap, f[..offs[y]], f[offs[y + 1]..], x);
  }

  /** The record lookup on a built file yields the fields of the record stored for that index. */
  lemma {:induction false} EntryOfIndex(vp: Viewport, rows: seq<seq<byte>>, metadata: seq<seq<byte>>, i: i32)
    requires |rows| == vp.height && 0 <= i < |metadata|
    requires |IndexFile(vp, rows, metadata)| < 0x8000_0000
    ensures Entry(IndexFile(vp, rows, metadata), vp.height, |metadata|, i) == Ok(Fields(Chars(metadata[i])))
  {
    var f := IndexFile(vp, rows, metadata);
    var k := vp.height + i;
    var offs := Offsets(FirstPos(vp.height, |metadata|), rows + metadata);
    ReadSlot(vp, rows, metadata, k);
    ReadSlot(vp, rows, metadata, k + 1);
    ReadChunk(vp, rows, metadata, k);
    assert (rows + metadata)[k] == metadata[i];
    EntryFromSlots(f, vp.height, |metadata|, i, offs[k], offs[k + 1]);
  }

  /** The record lookup reads the record between the two offsets in its slots. */
  lemma {:induction false} EntryFromSlots(f: seq<byte>, height: i32, n: i32, i: i32, a: int, b: int)
    requires 0 <= height && 0 <= i < n && |f| < 0x8000_0000
    requires HEADER_SIZE + 4 * (height + i) + 8 <= |f|
    requires GetInt(f, HEADER_SIZE + 4 * (height + i)) == a && GetInt(f, HEADER_SIZE + 4 * (height + i) + 4) == b
    requires 0 <= a <= b <= |f|
    ensures Entry(f, height, n, i) == Ok(Fields(Chars(f[a..b])))
  {
    AddNoWrap(height, i);
    SlotPosExact(height + i);
    if a == b {
      assert Chars(f[a..b]) == [];
    }
  }

  /** Records the builder joins from NUL-free keys come back as those keys. */
  lemma {:induction false} KeysOfIndex(vp: Viewport, rows: seq<seq<byte>>, metadata: seq<seq<byte>>, i: i32, keys: seq<string>)
    requires |rows| == vp.height && 0 <= i < |metadata|
    requires |IndexFile(vp, rows, metadata)| < 0x8000_0000
    requires Chars(metadata[i]) == Join(keys) && forall k :: 0 <= k < |keys| ==> NoNul(keys[k])
    ensures Entry(IndexFile(vp, rows, metadata), vp.height, |metadata|, i) == Ok(keys)
  {
    EntryOfIndex(vp, rows, metadata, i);
    FieldsJoin(keys);
  }

  class ReverseGeocoder {
    var buffer: seq<byte>
    var width: i32
    var height: i32
    var numentries: i32
    var cache: array<Option<seq<string>>>

    /** The cache has a slot per record, and every filled slot holds what a fresh read gives. */
    ghost predicate Valid()
      reads this, cache
    {
      cache.Length == numentries
      && forall i :: 0 <= i < cache.Length && cache[i].Some? ==> Entry(buffer, height, numentries, i) == Ok(cache[i].value)
    }

    /** An unopened geocoder over an empty file; `Reopen` maps one. */
    constructor ()
      ensures buffer == [] && numentries == 0 && Valid()
    {
      buffer := [];
      width, height, numentries := 0, 0, 0;
      cache := new Option<seq<string>>[0];
    }

    /**
     * `reopen`: maps the file, checks the magic, reads the dimensions and
     * the record count, and starts an empty cache.
     */
    method Reopen(file: seq<byte>) returns (r: Result<(), GeoError>)
      modifies this
      ensures buffer == file
      ensures r == (if |file| < 4 then Err(OutOfBuffer)
                    else if GetInt(file, 0) != MAGIC then Err(NotAnIndex)
                    else if |file| < HEADER_SIZE then Err(OutOfBuffer)
                    else if GetInt(file, 28) < 0 then Err(NegativeCount)
                    else Ok(()))
      ensures r.Ok? ==> width == GetInt(file, 4) && height == GetInt(file, 8) && numentries == GetInt(file, 28)
                        && fresh(cache) && (forall i :: 0 <= i < cache.Length ==> cache[i] == None) && Valid()
    {
      buffer := file;
      if |file| < 4 {
        return Err(OutOfBuffer);
      }
      var magic := GetInt(file, 0);
      if magic != MAGIC {
        return Err(NotAnIndex);
      }
      if |file| < HEADER_SIZE {
        return Err(OutOfBuffer);
      }
      width := GetInt(file, 4);
      height := GetInt(file, 8);
      numentries := GetInt(file, 28);
      if numentries < 0 {
        return Err(NegativeCount);
      }
      cache := new Option<seq<string>>[numentries](_ => None);
      return Ok(());
    }

    /** `lookupUncached` on a pixel, with its scanning loop. */
    method LookupUncached(x: i32, y: i32) returns (r: Result<i32, GeoError>)
      ensures r == Pixel(buffer, width, height, x, y)
    {
      if x < 0 || x >= width || y < 0 || y >= height {
        return Ok(0);
      }
      var pos := SlotPos(y);
      if pos < 0 || pos + 4 > |buffer| {
        return Err(OutOfBuffer);
      }
      var rowpos := GetInt(buffer, pos);
      if rowpos < 0 || rowpos > |buffer| {
        return Err(OutOfBuffer);
      }
      var p: nat := rowpos;
      var i: i32 := 0;
      while i <= x
        invariant ScanFrom(buffer, p, x, i) == ScanRow(buffer, rowpos, x)
        decreases |buffer| - p
      {
        var c := ReadUnsignedVarint(buffer, p);
        if c.Err? {
          return Err(BadRow(c.error));
        }
        var n := ReadUnsignedVarint(buffer, c.value.1);
        if n.Err? {
          return Err(BadRow(n.error));
        }
        i := AddI32(i, AddI32(ToI32(n.value.0), 1));
        p := n.value.1;
        if x < i {
          return Ok(ToI32(c.value.0));
        }
      }
      return Ok(0);
    }

    /** `lookupEntryUncached`. */
    method LookupEntryUncached(idx: i32) returns (r: Result<seq<string>, GeoError>)
      ensures r == Entry(buffer, height, numentries, idx)
    {
      if idx < 0 || idx >= numentries {
        return Ok([]);
      }
      var pos := SlotPos(AddI32(height, idx));
      if pos < 0 || pos + 8 > |buffer| {
        return Err(OutOfBuffer);
      }
      var start, endp := GetInt(buffer, pos), GetInt(buffer, pos + 4);
      if start == endp {
        return Ok([]);
      }
      if start < 0 || start > |buffer| || endp < 0 || endp > |buffer| {
        return Err(OutOfBuffer);
      }
      if endp < start {
        return Ok([]);
      }
      var fields := SplitFields(Chars(buffer[start..endp]));
      return Ok(fields);
    }

    /**
     * `lookupEntry`: the cached read. It answers exactly what an uncached
     * read answers, and afterwards that answer is in the cache.
     */
    method LookupEntry(idx: i32) returns (r: Result<seq<string>, GeoError>)
      requires Valid()
      modifies cache
      ensures Valid()
      ensures r == Entry(buffer, height, numentries, idx)
      ensures r.Ok? && 0 <= idx < numentries ==> cache[idx] == Some(r.value)
      ensures forall i :: 0 <= i < cache.Length && i != idx ==> cache[i] == old(cache[i])
    {
      if idx < 0 || idx >= numentries {
        return Ok([]);
      }
      if cache[idx].Some? {
        return Ok(cache[idx].value);
      }
      r := LookupEntryUncached(idx);
      if r.Ok? {
        cache[idx] := Some(r.value);
      }
    }

    /** `lookup`: the record of the entity at a pixel. */
    method Lookup(x: i32, y: i32) returns (r: Result<seq<string>, GeoError>)
      requires Valid()
      modifies cache
      ensures Valid()
      ensures r == match Pixel(buffer, width, height, x, y)
                   case Err(e) => Err(e)
                   case Ok(c) => Entry(buffer, height, numentries, c)
    {
      var c := LookupUncached(x, y);
      if c.Err? {
        return Err(c.error);
      }
      r := LookupEntry(c.value);
    }
  }
}
