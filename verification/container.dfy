/**
 * The layout of the version-1 index file written by the sliced builder and
 * read by the reverse geocoder:
 *
 *   header    magic, width, height, four float fields, record count (32 bytes)
 *   table     one int offset per row, one per metadata record, one end offset
 *   rows      the run-length encoded pixel rows
 *   records   the metadata records
 *
 * All ints are big-endian. The float fields are taken as their 32-bit
 * patterns (what `writeFloat` stores).
 */
module Container {
  import opened Binary

  const MAGIC: int := 0x6e06e001
  const HEADER_SIZE: nat := 32

  /** The header fields that `buildIndex` writes besides the magic and the record count. */
  datatype Viewport = Viewport(width: int, height: nat, xcover: u32, ycover: u32, xshift: u32, yshift: u32)

  datatype LayoutError = Inconsistent(expected: int, position: int)

  function HeaderBytes(vp: Viewport, count: int): (r: seq<byte>)
    ensures |r| == HEADER_SIZE
  {
    IntBytes(MAGIC) + IntBytes(vp.width) + IntBytes(vp.height)
    + IntBytes(vp.xcover) + IntBytes(vp.ycover) + IntBytes(vp.xshift) + IntBytes(vp.yshift)
    + IntBytes(count)
  }

  /** Byte strings written one after the other. */
  function Concat(chunks: seq<seq<byte>>): seq<byte>
  {
    if chunks == [] then [] else Concat(chunks[..|chunks| - 1]) + chunks[|chunks| - 1]
  }

  /** Ints written one after the other. */
  function Table(offs: seq<int>): (r: seq<byte>)
    ensures |r| == 4 * |offs|
  {
    if offs == [] then [] else Table(offs[..|offs| - 1]) + IntBytes(offs[|offs| - 1])
  }

  /** Where each chunk starts when the chunks are laid out from `start`, then where the last one ends. */
  function Offsets(start: int, chunks: seq<seq<byte>>): (r: seq<int>)
    ensures |r| == |chunks| + 1
  {
    seq(|chunks| + 1, k requires 0 <= k <= |chunks| => start + |Concat(chunks[..k])|)
  }

  /** Position of the first row: the header and one table slot per row, per record and for the end. */
  function FirstPos(height: nat, count: nat): nat
  {
    HEADER_SIZE + (height + count + 1) * 4
  }

  /** The whole file. */
  function IndexFile(vp: Viewport, rows: seq<seq<byte>>, metadata: seq<seq<byte>>): seq<byte>
  {
    HeaderBytes(vp, |metadata|)
    + Table(Offsets(FirstPos(vp.height, |metadata|), rows + metadata))
    + Concat(rows) + Concat(metadata)
  }

  // ---------------------------------------------------------------------------
  // Facts about the pieces.

  lemma {:induction false} TableSize(offs: seq<int>)
    ensures |Table(offs)| == 4 * |offs|
  {
    if offs != [] {
      TableSize(offs[..|offs| - 1]);
    }
  }

  lemma {:induction false} TableAppend(a: seq<int>, b: seq<int>)
    ensures Table(a + b) == Table(a) + Table(b)
  {
    if b != [] {
      var n := |b| - 1;
      assert (a + b)[..|a + b| - 1] == a + b[..n];
      assert (a + b)[|a + b| - 1] == b[n];
      TableAppend(a, b[..n]);
      assert Table(a + b) == Table(a + b[..n]) + IntBytes(b[n]);
      assert Table(b) == Table(b[..n]) + IntBytes(b[n]);
    } else {
      assert a + b == a;
    }
  }

  lemma {:induction false} ConcatAppend(a: seq<seq<byte>>, b: seq<seq<byte>>)
    ensures Concat(a + b) == Concat(a) + Concat(b)
  {
    if b != [] {
      var n := |b| - 1;
      assert (a + b)[..|a + b| - 1] == a + b[..n];
      assert (a + b)[|a + b| - 1] == b[n];
      ConcatAppend(a, b[..n]);
      assert Concat(a + b) == Concat(a + b[..n]) + b[n];
      assert Concat(b) == Concat(b[..n]) + b[n];
    } else {
      assert a + b == a;
    }
  }

  /** Chunk `k` sits in the concatenation right after the chunks before it. */
  lemma {:induction false} ConcatAt(chunks: seq<seq<byte>>, k: nat)
    requires k < |chunks|
    ensures Concat(chunks) == Concat(chunks[..k]) + chunks[k] + Concat(chunks[k + 1..])
  {
    assert chunks == chunks[..k] + [chunks[k]] + chunks[k + 1..];
    ConcatAppend(chunks[..k] + [chunks[k]], chunks[k + 1..]);
    ConcatAppend(chunks[..k], [chunks[k]]);
    assert Concat([chunks[k]]) == chunks[k] by {
      assert [chunks[k]][..0] == chunks[..0];
    }
  }

  /** The `k`-th slot of a table holds the `k`-th int. */
  lemma {:induction false} TableAt(offs: seq<int>, k: nat, pre: seq<byte>, post: seq<byte>)
    requires k < |offs|
    ensures GetInt(pre + Table(offs) + post, |pre| + 4 * k) == ToI32(ToU32(offs[k]))
  {
    assert offs == offs[..k] + [offs[k]] + offs[k + 1..];
    TableAppend(offs[..k] + [offs[k]], offs[k + 1..]);
    TableAppend(offs[..k], [offs[k]]);
    assert Table([offs[k]]) == IntBytes(offs[k]) by {
      assert [offs[k]][..0] == offs[..0];
    }
    TableSize(offs[..k]);
    TableSize(offs);
    assert pre + Table(offs) + post == (pre + Table(offs[..k])) + IntBytes(offs[k]) + (Table(offs[k + 1..]) + post);
    GetIntBytes(offs[k], pre + Table(offs[..k]), Table(offs[k + 1..]) + post);
  }

  /** The layout's offsets step by the chunk sizes. */
  lemma {:induction false} OffsetsStep(start: int, chunks: seq<seq<byte>>, k: nat)
    requires k < |chunks|
    ensures Offsets(start, chunks)[k + 1] == Offsets(start, chunks)[k] + |chunks[k]|
  {
    assert chunks[..k + 1][..k] == chunks[..k];
  }

  /** The last offset is the end of all chunks. */
  lemma {:induction false} OffsetsEnd(start: int, chunks: seq<seq<byte>>)
    ensures Offsets(start, chunks)[|chunks|] == start + |Concat(chunks)|
  {
    assert chunks[..|chunks|] == chunks;
  }

  lemma {:induction false} FileSize(vp: Viewport, rows: seq<seq<byte>>, metadata: seq<seq<byte>>)
    requires |rows| == vp.height
    ensures |IndexFile(vp, rows, metadata)| == FirstPos(vp.height, |metadata|) + |Concat(rows + metadata)|
    ensures |Concat(rows + metadata)| == |Concat(rows)| + |Concat(metadata)|
  {
    var offs := Offsets(FirstPos(vp.height, |metadata|), rows + metadata);
    assert IndexFile(vp, rows, metadata) == HeaderBytes(vp, |metadata|) + Table(offs) + Concat(rows) + Concat(metadata);
    TableSize(offs);
    ConcatAppend(rows, metadata);
  }

  // ---------------------------------------------------------------------------
  // What a reader finds in the file.

  /** The header reads back as written (the magic and all fields fit in an int). */
  lemma {:induction false} ReadHeader(vp: Viewport, rows: seq<seq<byte>>, metadata: seq<seq<byte>>)
    requires -0x8000_0000 <= vp.width < 0x8000_0000 && vp.height < 0x8000_0000 && |metadata| < 0x8000_0000
    ensures var f := IndexFile(vp, rows, metadata);
      |f| >= HEADER_SIZE && GetInt(f, 0) == MAGIC && GetInt(f, 4) == vp.width
      && GetInt(f, 8) == vp.height && GetInt(f, 28) == |metadata|
  {
    var rest := Table(Offsets(FirstPos(vp.height, |metadata|), rows + metadata)) + Concat(rows) + Concat(metadata);
    assert IndexFile(vp, rows, metadata) == HeaderBytes(vp, |metadata|) + rest;
    HeaderFields(vp, |metadata|, rest);
  }

  lemma {:induction false} HeaderFields(vp: Viewport, count: int, rest: seq<byte>)
    requires -0x8000_0000 <= vp.width < 0x8000_0000 && vp.height < 0x8000_0000 && 0 <= count < 0x8000_0000
    ensures var f := HeaderBytes(vp, count) + rest;
      GetInt(f, 0) == MAGIC && GetInt(f, 4) == vp.width && GetInt(f, 8) == vp.height && GetInt(f, 28) == count
  {
    var f := HeaderBytes(vp, count) + rest;
    assert f[0..4] == IntBytes(MAGIC);
    GetIntAt(f, 0, MAGIC);
    assert f[4..8] == IntBytes(vp.width);
    GetIntAt(f, 4, vp.width);
    I32Bits(vp.width);
    assert f[8..12] == IntBytes(vp.height);
    GetIntAt(f, 8, vp.height);
    NonNegI32(vp.height);
    assert f[28..32] == IntBytes(count);
    GetIntAt(f, 28, count);
    NonNegI32(count);
    NonNegI32(MAGIC);
  }

  /**
   * Slot `k` of the table (rows first, then records) holds where chunk `k`
   * starts, and slot `k + 1` where it ends, for files under 2 GiB.
   */
  lemma {:induction false} ReadSlot(vp: Viewport, rows: seq<seq<byte>>, metadata: seq<seq<byte>>, k: nat)
    requires |rows| == vp.height && k <= |rows| + |metadata|
    requires |IndexFile(vp, rows, metadata)| < 0x8000_0000
    ensures var f := IndexFile(vp, rows, metadata);
      HEADER_SIZE + 4 * k + 4 <= |f|
      && GetInt(f, HEADER_SIZE + 4 * k) == Offsets(FirstPos(vp.height, |metadata|), rows + metadata)[k]
  {
    var chunks := rows + metadata;
    var offs := Offsets(FirstPos(vp.height, |metadata|), chunks);
    FileSize(vp, rows, metadata);
    OffsetsBound(FirstPos(vp.height, |metadata|), chunks, k);
    SlotAt(HeaderBytes(vp, |metadata|), offs, Concat(rows) + Concat(metadata), k);
  }

  lemma {:induction false} OffsetsBound(start: int, chunks: seq<seq<byte>>, k: nat)
    requires k <= |chunks|
    ensures start <= Offsets(start, chunks)[k] <= start + |Concat(chunks)|
  {
    ConcatAppend(chunks[..k], chunks[k..]);
    assert chunks[..k] + chunks[k..] == chunks;
  }

  lemma {:induction false} SlotAt(h: seq<byte>, offs: seq<int>, rest: seq<byte>, k: nat)
    requires |h| == HEADER_SIZE && k < |offs| && 0 <= offs[k] < 0x8000_0000
    ensures GetInt(h + Table(offs) + rest, HEADER_SIZE + 4 * k) == offs[k]
  {
    TableAt(offs, k, h, rest);
    NonNegI32(offs[k]);
  }

  /** Chunk `k` (rows first, then records) lies between its two offsets. */
  lemma {:induction false} ReadChunk(vp: Viewport, rows: seq<seq<byte>>, metadata: seq<seq<byte>>, k: nat)
    requires |rows| == vp.height && k < |rows| + |metadata|
    ensures var f := IndexFile(vp, rows, metadata);
      var offs := Offsets(FirstPos(vp.height, |metadata|), rows + metadata);
      0 <= offs[k] <= offs[k + 1] <= |f| && f[offs[k]..offs[k + 1]] == (rows + metadata)[k]
  {
    var chunks := rows + metadata;
    var offs := Offsets(FirstPos(vp.height, |metadata|), chunks);
    var head := HeaderBytes(vp, |metadata|) + Table(offs);
    TableSize(offs);
    assert |head| == FirstPos(vp.height, |metadata|);
    ConcatAppend(rows, metadata);
    ConcatAt(chunks, k);
    OffsetsStep(FirstPos(vp.height, |metadata|), chunks, k);
    var before, after := Concat(chunks[..k]), Concat(chunks[k + 1..]);
    var body := Concat(rows) + Concat(metadata);
    assert IndexFile(vp, rows, metadata) == head + body;
    assert body == before + chunks[k] + after;
    assert offs[k] == |head| + |before|;
    SliceMiddle(head, before, chunks[k], after);
  }

  lemma {:induction false} SliceMiddle(h: seq<byte>, a: seq<byte>, b: seq<byte>, c: seq<byte>)
    ensures |h + (a + b + c)| == |h| + |a| + |b| + |c|
    ensures (h + (a + b + c))[|h| + |a|..|h| + |a| + |b|] == b
  {
    assert h + (a + b + c) == (h + a) + b + c;
  }

  // ---------------------------------------------------------------------------
  // Writing the file.

  /**
   * The writing part of the sliced `buildIndex`: header, row and record
   * offsets, the end offset, rows and records, with its two consistency
   * checks. The checks never fail: the result is always the layout above.
   */
  method WriteIndex(vp: Viewport, rows: seq<seq<byte>>, metadata: seq<seq<byte>>) returns (r: Result<seq<byte>, LayoutError>)
    requires |rows| == vp.height
    ensures r == Ok(IndexFile(vp, rows, metadata))
  {
    var c := |metadata|;
    var os := HeaderBytes(vp, c);
    var headersize := |os|;
    var firstpos := headersize + (vp.height + c + 1) * 4;
    assert firstpos == FirstPos(vp.height, c);
    var pos2;
    os, pos2 := WriteOffsets(os, firstpos, rows + metadata);
    if |os| != firstpos {
      return Err(Inconsistent(firstpos, |os|));
    }
    os := WriteChunks(os, rows);
    os := WriteChunks(os, metadata);
    ConcatAppend(rows, metadata);
    if pos2 != |os| {
      return Err(Inconsistent(firstpos, |os|));
    }
    return Ok(os);
  }

  /** The offset table: one int per chunk, then the end offset, which is also returned. */
  method WriteOffsets(os: seq<byte>, firstpos: int, chunks: seq<seq<byte>>) returns (os': seq<byte>, pos2: int)
    ensures os' == os + Table(Offsets(firstpos, chunks)) && pos2 == firstpos + |Concat(chunks)|
  {
    ghost var offs := Offsets(firstpos, chunks);
    os' := os;
    pos2 := firstpos;
    for k := 0 to |chunks|
      invariant os' == os + Table(offs[..k])
      invariant pos2 == firstpos + |Concat(chunks[..k])|
    {
      assert offs[..k + 1][..k] == offs[..k];
      os' := os' + IntBytes(pos2);
      assert chunks[..k + 1][..k] == chunks[..k];
      pos2 := pos2 + |chunks[k]|;
    }
    assert offs[..|chunks| + 1][..|chunks|] == offs[..|chunks|];
    assert chunks[..|chunks|] == chunks;
    os' := os' + IntBytes(pos2);
    assert offs[..|chunks| + 1] == offs;
  }

  /** The chunks' bytes, one chunk after the other. */
  method WriteChunks(os: seq<byte>, chunks: seq<seq<byte>>) returns (os': seq<byte>)
    ensures os' == os + Concat(chunks)
  {
    os' := os;
    for y := 0 to |chunks|
      invariant os' == os + Concat(chunks[..y])
    {
      assert chunks[..y + 1][..y] == chunks[..y];
      os' := os' + chunks[y];
    }
    assert chunks[..|chunks|] == chunks;
  }

  // ---------------------------------------------------------------------------
  // The version-0 file of the older builder: 16-bit sizes, no offsets.
  //
  //   header    magic, width and height as shorts, four float fields, record count as short (26 bytes)
  //   rows      one short length per row, then the rows
  //   records   one short length per record, then the records

  const MAGIC_V0: int := 0x6e06e000
  const HEADER_SIZE_V0: nat := 26

  function HeaderBytesV0(vp: Viewport, count: int): (r: seq<byte>)
    ensures |r| == HEADER_SIZE_V0
  {
    IntBytes(MAGIC_V0) + ShortBytes(vp.width) + ShortBytes(vp.height)
    + IntBytes(vp.xcover) + IntBytes(vp.ycover) + IntBytes(vp.xshift) + IntBytes(vp.yshift)
    + ShortBytes(count)
  }

  /** The lengths of the chunks, each written as a short. */
  function Lengths(chunks: seq<seq<byte>>): (r: seq<byte>)
    ensures |r| == 2 * |chunks|
  {
    if chunks == [] then [] else Lengths(chunks[..|chunks| - 1]) + ShortBytes(|chunks[|chunks| - 1]|)
  }

  function IndexFileV0(vp: Viewport, rows: seq<seq<byte>>, metadata: seq<seq<byte>>): seq<byte>
  {
    HeaderBytesV0(vp, |metadata|) + Lengths(rows) + Concat(rows) + Lengths(metadata) + Concat(metadata)
  }

  /** An unsigned big-endian short at an absolute position. */
  function GetShort(s: seq<byte>, p: nat): int
    requires p + 2 <= |s|
  {
    (s[p] as int) * 0x100 + (s[p + 1] as int)
  }

  lemma {:induction false} LengthsAppend(a: seq<seq<byte>>, b: seq<seq<byte>>)
    ensures Lengths(a + b) == Lengths(a) + Lengths(b)
  {
    if b != [] {
      var n := |b| - 1;
      assert (a + b)[..|a + b| - 1] == a + b[..n];
      assert (a + b)[|a + b| - 1] == b[n];
      LengthsAppend(a, b[..n]);
      assert Lengths(a + b) == Lengths(a + b[..n]) + ShortBytes(|b[n]|);
      assert Lengths(b) == Lengths(b[..n]) + ShortBytes(|b[n]|);
    } else {
      assert a + b == a;
    }
  }

  /**
   * Slot `k` of a length table reads back as the chunk's length modulo
   * 2^16: a chunk of 64 KiB or more has its length truncated.
   */
  lemma {:induction false} LengthAt(chunks: seq<seq<byte>>, k: nat, pre: seq<byte>, post: seq<byte>)
    requires k < |chunks|
    ensures GetShort(pre + Lengths(chunks) + post, |pre| + 2 * k) == |chunks[k]| % 0x1_0000
  {
    assert chunks == chunks[..k] + [chunks[k]] + chunks[k + 1..];
    LengthsAppend(chunks[..k] + [chunks[k]], chunks[k + 1..]);
    LengthsAppend(chunks[..k], [chunks[k]]);
    assert Lengths([chunks[k]]) == ShortBytes(|chunks[k]|) by {
      assert [chunks[k]][..0] == chunks[..0];
    }
    var s := pre + Lengths(chunks) + post;
    assert s == (pre + Lengths(chunks[..k])) + ShortBytes(|chunks[k]|) + (Lengths(chunks[k + 1..]) + post);
    var u := |chunks[k]| % 0x1_0000;
    assert s[|pre| + 2 * k] == u / 0x100 && s[|pre| + 2 * k + 1] == u % 0x100;
  }

  /** Every length below 64 KiB reads back exactly, in the row table and in the record table. */
  lemma {:induction false} ReadLengthsV0(vp: Viewport, rows: seq<seq<byte>>, metadata: seq<seq<byte>>, y: nat, i: nat)
    requires y < |rows| && i < |metadata|
    ensures var f := IndexFileV0(vp, rows, metadata);
      var rowTable := HEADER_SIZE_V0;
      var metaTable := HEADER_SIZE_V0 + 2 * |rows| + |Concat(rows)|;
      metaTable + 2 * |metadata| <= |f|
      && GetShort(f, rowTable + 2 * y) == |rows[y]| % 0x1_0000
      && GetShort(f, metaTable + 2 * i) == |metadata[i]| % 0x1_0000
  {
    var h := HeaderBytesV0(vp, |metadata|);
    LengthAt(rows, y, h, Concat(rows) + Lengths(metadata) + Concat(metadata));
    assert IndexFileV0(vp, rows, metadata) == h + Lengths(rows) + (Concat(rows) + Lengths(metadata) + Concat(metadata));
    LengthAt(metadata, i, h + Lengths(rows) + Concat(rows), Concat(metadata));
  }

  /** Where the version-0 rows and records lie: the row table, the rows, the record table, the records. */
  lemma {:induction false} ReadChunksV0(vp: Viewport, rows: seq<seq<byte>>, metadata: seq<seq<byte>>)
    ensures var f := IndexFileV0(vp, rows, metadata);
      var rowsAt := HEADER_SIZE_V0 + 2 * |rows|;
      var metaAt := rowsAt + |Concat(rows)| + 2 * |metadata|;
      |f| == metaAt + |Concat(metadata)|
      && f[rowsAt..rowsAt + |Concat(rows)|] == Concat(rows)
      && f[metaAt..] == Concat(metadata)
  {
    var h := HeaderBytesV0(vp, |metadata|) + Lengths(rows);
    assert IndexFileV0(vp, rows, metadata) == h + Concat(rows) + (Lengths(metadata) + Concat(metadata));
  }

  /** The writing part of the version-0 `buildIndex`. */
  method WriteIndexV0(vp: Viewport, rows: seq<seq<byte>>, metadata: seq<seq<byte>>) returns (os: seq<byte>)
    ensures os == IndexFileV0(vp, rows, metadata)
  {
    os := HeaderBytesV0(vp, |metadata|);
    os := WriteLengths(os, rows);
    os := WriteChunks(os, rows);
    os := WriteLengths(os, metadata);
    os := WriteChunks(os, metadata);
  }

  /** One short length per chunk. */
  method WriteLengths(os: seq<byte>, chunks: seq<seq<byte>>) returns (os': seq<byte>)
    ensures os' == os + Lengths(chunks)
  {
    os' := os;
    for y := 0 to |chunks|
      invariant os' == os + Lengths(chunks[..y])
    {
      assert chunks[..y + 1][..y] == chunks[..y];
      os' := os' + ShortBytes(|chunks[y]|);
    }
    assert chunks[..|chunks|] == chunks;
  }
}
