/**
 * The row format of index version 0 (`BuildIndex.encodeLine16`): runs of at
 * most 256 equal pixels, each stored as exactly three bytes — the high byte
 * of the code with the marker bit 0x80, the low byte of the code, and the
 * run length minus one.
 */
module RowCodecV0 {
  import opened Binary
  import opened RunLength

  /** The longest run a single triple can describe. */
  const MAX_CHUNK: nat := 256

  /** Where the run starting at `x` is cut: at a change of value or after 256 pixels. */
  function ChunkEnd(row: seq<i32>, x: nat): (e: nat)
    requires x < |row|
    ensures x < e <= |row| && e - x <= MAX_CHUNK
  {
    if RunEnd(row, x) - x <= MAX_CHUNK then RunEnd(row, x) else x + MAX_CHUNK
  }

  /** The runs the version-0 writer emits for `row[x..]`. */
  function ChunksFrom(row: seq<i32>, x: nat): seq<Run>
    requires x <= |row|
    decreases |row| - x
  {
    if x == |row| then []
    else
      var e := ChunkEnd(row, x);
      [Run(row[x], e - x)] + ChunksFrom(row, e)
  }

  function Chunks(row: seq<i32>): seq<Run>
  {
    ChunksFrom(row, 0)
  }

  predicate ChunksFit(runs: seq<Run>)
  {
    forall k :: 0 <= k < |runs| ==> 1 <= runs[k].count <= MAX_CHUNK
  }

  /** Java `b | 0x80` on a byte value. */
  function MarkHigh(b: byte): byte
  {
    if b >= 0x80 then b else b + 0x80
  }

  /**
   * The three bytes of one run: `(val >>> 8 & 0xFF) | 0x80`, `val & 0xFF`,
   * and the run length minus one cast to a byte.
   */
  function EncodeTriple(val: int, count: nat): (r: seq<byte>)
    ensures |r| == 3
  {
    var u := ToU32(val);
    [MarkHigh((u / 0x100) % 0x100), u % 0x100, (count - 1) % 0x100]
  }

  function EncodeTriples(runs: seq<Run>): (r: seq<byte>)
    ensures |r| == 3 * |runs|
  {
    if runs == [] then [] else EncodeTriple(runs[0].code, runs[0].count) + EncodeTriples(runs[1..])
  }

  /**
   * Reading a stored version-0 row back: the marker bit is dropped from the
   * first byte of each triple, the next byte is the low byte of the code, and
   * the third byte is the run length minus one.
   */
  function DecodeTriples(s: seq<byte>): (r: seq<Run>)
    requires |s| % 3 == 0
    ensures |r| == |s| / 3
  {
    if s == [] then []
    else [Run((s[0] as int % 0x80) * 0x100 + s[1] as int, s[2] as int + 1)] + DecodeTriples(s[3..])
  }

  lemma {:induction false} MarkHighIsOr(b: byte)
    ensures MarkHigh(b) == BitOr(b, 0x80)
  {
    Pow2Values();
    BitOrBit(b, 7);
  }

  /** OR with a single bit sets that bit and keeps the others. */
  lemma {:induction false} BitOrBit(a: nat, k: nat)
    requires a < Pow2(k + 1)
    ensures BitOr(a, Pow2(k)) == if a >= Pow2(k) then a else a + Pow2(k)
    decreases k
  {
    if k > 0 && a != 0 {
      assert Pow2(k) == 2 * Pow2(k - 1);
      assert Pow2(k + 1) == 2 * Pow2(k);
      BitOrBit(a / 2, k - 1);
    }
  }

  // ---------------------------------------------------------------------------
  // The chunks cover the row.

  lemma {:induction false} ChunksFromSpec(row: seq<i32>, x: nat)
    requires x <= |row|
    ensures Expand(ChunksFrom(row, x)) == row[x..]
    ensures ChunksFit(ChunksFrom(row, x))
    ensures TotalCount(ChunksFrom(row, x)) == |row| - x
  {
    ChunksFromExpand(row, x);
    ChunksFromFit(row, x);
  }

  lemma {:induction false} ChunksFromExpand(row: seq<i32>, x: nat)
    requires x <= |row|
    ensures Expand(ChunksFrom(row, x)) == row[x..]
    decreases |row| - x
  {
    if x < |row| {
      var e := ChunkEnd(row, x);
      ChunksFromExpand(row, e);
      var cs := ChunksFrom(row, x);
      assert cs[1..] == ChunksFrom(row, e);
      ChunkBlock(row, x, e);
      assert row[x..] == row[x..e] + row[e..];
    }
  }

  lemma {:induction false} ChunksFromFit(row: seq<i32>, x: nat)
    requires x <= |row|
    ensures ChunksFit(ChunksFrom(row, x))
    ensures TotalCount(ChunksFrom(row, x)) == |row| - x
    decreases |row| - x
  {
    if x < |row| {
      var e := ChunkEnd(row, x);
      var rest := ChunksFrom(row, e);
      ChunksFromFit(row, e);
      var cs := ChunksFrom(row, x);
      assert cs[1..] == rest;
      forall k | 0 <= k < |cs|
        ensures 1 <= cs[k].count <= MAX_CHUNK
      {
        if k > 0 {
          assert cs[k] == rest[k - 1];
        }
      }
    }
  }

  /** The pixels of one chunk all repeat its first pixel. */
  lemma {:induction false} ChunkBlock(row: seq<i32>, x: nat, e: nat)
    requires x < |row| && e == ChunkEnd(row, x)
    ensures seq(e - x, _ => row[x]) == row[x..e]
  {
    assert forall k :: x <= k < e ==> row[k] == row[x];
  }

  /** The chunks of a row expand to the row, and their lengths (run + 1) sum to its width. */
  lemma {:induction false} ExpandChunks(row: seq<i32>)
    ensures Expand(Chunks(row)) == row
    ensures ChunksFit(Chunks(row))
    ensures TotalCount(Chunks(row)) == |row|
  {
    ChunksFromSpec(row, 0);
  }

  /** The writer's cut: a chunk ends at a change of value, at the row's end, or after 256 pixels. */
  lemma {:induction false} ChunkStep(row: seq<i32>, first: nat, e: nat)
    requires first < e <= |row| && e - first <= MAX_CHUNK
    requires forall k :: first <= k < e ==> row[k] == row[first]
    requires e == |row| || row[e] != row[first] || e - first == MAX_CHUNK
    ensures ChunksFrom(row, first) == [Run(row[first], e - first)] + ChunksFrom(row, e)
  {
    if e < |row| && row[e] != row[first] {
      RunEndUnique(row, first, e);
    }
  }

  lemma {:induction false} ChunkCodes(row: seq<i32>, x: nat, n: nat)
    requires x <= |row| && InRange(row, n)
    ensures CodesInRange(ChunksFrom(row, x), n)
    decreases |row| - x
  {
    if x < |row| {
      var e := ChunkEnd(row, x);
      ChunkCodes(row, e, n);
      assert ChunksFrom(row, x)[1..] == ChunksFrom(row, e);
    }
  }

  // ---------------------------------------------------------------------------
  // Reading the triples back.

  lemma {:induction false} DecodeTriple(val: int, count: nat)
    requires 0 <= val < 0x8000 && 1 <= count <= MAX_CHUNK
    ensures DecodeTriples(EncodeTriple(val, count)) == [Run(val, count)]
  {
    var s := EncodeTriple(val, count);
    assert s[3..] == [];
    assert (val / 0x100) % 0x100 == val / 0x100 < 0x80;
  }

  /** Triples of codes below 0x8000 read back as the runs they were written from. */
  lemma {:induction false} DecodeEncodeTriples(runs: seq<Run>)
    requires ChunksFit(runs) && CodesInRange(runs, 0x8000)
    ensures DecodeTriples(EncodeTriples(runs)) == runs
  {
    if runs != [] {
      var t := EncodeTriple(runs[0].code, runs[0].count);
      var rest := EncodeTriples(runs[1..]);
      assert EncodeTriples(runs) == t + rest;
      DecodeTriple(runs[0].code, runs[0].count);
      DecodeTriplesAppend(t, rest);
      assert ChunksFit(runs[1..]) && CodesInRange(runs[1..], 0x8000);
      DecodeEncodeTriples(runs[1..]);
      assert runs == [runs[0]] + runs[1..];
    }
  }

  lemma {:induction false} DecodeTriplesAppend(t: seq<byte>, rest: seq<byte>)
    requires |t| == 3 && |rest| % 3 == 0
    ensures DecodeTriples(t + rest) == DecodeTriples(t) + DecodeTriples(rest)
  {
    assert (t + rest)[3..] == rest;
    assert t[3..] == [];
  }

  /**
   * As written, the high byte of a code keeps its own top bit under the
   * marker, so code 0x8000 is stored exactly like code 0.
   */
  lemma {:induction false} MarkerCollision(count: nat)
    requires 1 <= count <= MAX_CHUNK
    ensures EncodeTriple(0x8000, count) == EncodeTriple(0, count)
  {
  }

  // ---------------------------------------------------------------------------
  // The writer.

  /**
   * The three byte stores of one pass of `encodeLine16`'s loop; `rest` and
   * `all` are the bytes still to come and the whole row's bytes.
   */
  method PutTriple(buffer: array<byte>, len: nat, val: int, run: nat, ghost rest: seq<byte>, ghost all: seq<byte>)
    returns (len': nat)
    requires len + 3 <= buffer.Length
    requires buffer[..len] + (EncodeTriple(val, run + 1) + rest) == all
    modifies buffer
    ensures len' == len + 3
    ensures buffer[..len'] == old(buffer[..len]) + EncodeTriple(val, run + 1)
    ensures buffer[..len'] + rest == all
  {
    var u := ToU32(val);
    buffer[len] := MarkHigh((u / 0x100) % 0x100);
    buffer[len + 1] := u % 0x100;
    buffer[len + 2] := run % 0x100;
    len' := len + 3;
    assert buffer[..len'] == old(buffer[..len]) + EncodeTriple(val, run + 1);
  }

  /**
   * `encodeLine16` of the version-0 builder on row `y`: the renumbered
   * chunks of the row, three bytes each, from offset 0 of `buffer`.
   */
  method EncodeLine16V0(winner: array<i32>, idmap: array<i32>, buffer: array<byte>) returns (len: nat)
    requires InRange(winner[..], idmap.Length)
    requires buffer.Length >= 3 * winner.Length
    modifies buffer
    ensures CodesInRange(Chunks(winner[..]), idmap.Length)
    ensures len == 3 * |Chunks(winner[..])| <= buffer.Length
    ensures buffer[..len] == EncodeTriples(MapRuns(Chunks(winner[..]), idmap[..]))
  {
    ghost var row := winner[..];
    ExpandChunks(row);
    ChunkCodes(row, 0, idmap.Length);
    ghost var all := EncodeTriples(MapRuns(Chunks(row), idmap[..]));
    ChunkCountBound(Chunks(row));
    len := 0;
    var x := 0;
    while x < winner.Length
      invariant 0 <= x <= winner.Length && len <= buffer.Length
      invariant CodesInRange(ChunksFrom(row, x), idmap.Length)
      invariant buffer[..len] + EncodeTriples(MapRuns(ChunksFrom(row, x), idmap[..])) == all
      invariant |all| <= buffer.Length
      decreases winner.Length - x
    {
      x, len := PutChunk(winner, idmap, buffer, x, len, all);
    }
  }

  /** One pass of the outer loop of `encodeLine16`: the chunk at `x`, scanned and stored. */
  method PutChunk(winner: array<i32>, idmap: array<i32>, buffer: array<byte>, x: nat, len: nat, ghost all: seq<byte>)
    returns (x': nat, len': nat)
    requires x < winner.Length && len <= buffer.Length && |all| <= buffer.Length
    requires CodesInRange(ChunksFrom(winner[..], x), idmap.Length)
    requires buffer[..len] + EncodeTriples(MapRuns(ChunksFrom(winner[..], x), idmap[..])) == all
    modifies buffer
    ensures x < x' <= winner.Length && len' <= buffer.Length
    ensures CodesInRange(ChunksFrom(winner[..], x'), idmap.Length)
    ensures buffer[..len'] + EncodeTriples(MapRuns(ChunksFrom(winner[..], x'), idmap[..])) == all
  {
    ghost var row := winner[..];
    var cur := winner[x];
    var run := 0;
    while run < 255 && x + run + 1 < winner.Length && winner[x + run + 1] == cur
      invariant x + run < winner.Length && run <= 255
      invariant forall k :: x <= k <= x + run ==> row[k] == cur
    {
      run := run + 1;
    }
    x' := x + run + 1;
    ghost var tail := ChunkAdvance(row, x, cur, run, x', idmap[..], buffer[..len], all);
    len' := PutTriple(buffer, len, idmap[cur], run, tail, all);
  }

  /** One pass of the writer's outer loop, on the row's values. */
  lemma {:induction false} ChunkWrite(row: seq<i32>, first: nat, e: nat, idmap: seq<i32>)
    requires first < e <= |row| && e - first <= MAX_CHUNK
    requires forall k :: first <= k < e ==> row[k] == row[first]
    requires e == |row| || row[e] != row[first] || e - first == MAX_CHUNK
    requires CodesInRange(ChunksFrom(row, first), |idmap|)
    ensures 0 <= row[first] < |idmap| && CodesInRange(ChunksFrom(row, e), |idmap|)
    ensures |ChunksFrom(row, first)| == 1 + |ChunksFrom(row, e)|
    ensures EncodeTriples(MapRuns(ChunksFrom(row, first), idmap))
         == EncodeTriple(idmap[row[first]], e - first) + EncodeTriples(MapRuns(ChunksFrom(row, e), idmap))
  {
    ChunkStep(row, first, e);
    var cs := ChunksFrom(row, first);
    assert cs[0] == Run(row[first], e - first);
    assert cs[1..] == ChunksFrom(row, e);
    MapChunkStep(cs, idmap);
  }

  /**
   * The invariant of the writer's outer loop carried over one chunk of `run + 1`
   * pixels of value `cur`; returns the bytes of the chunks after it.
   */
  lemma {:induction false} ChunkAdvance(row: seq<i32>, first: nat, cur: i32, run: nat, next: nat, idmap: seq<i32>,
                                        done: seq<byte>, all: seq<byte>)
    returns (tail: seq<byte>)
    requires next == first + run + 1 <= |row| && run < MAX_CHUNK && row[first] == cur
    requires forall k :: first <= k < next ==> row[k] == cur
    requires next == |row| || row[next] != cur || run == 255
    requires CodesInRange(ChunksFrom(row, first), |idmap|)
    requires done + EncodeTriples(MapRuns(ChunksFrom(row, first), idmap)) == all
    ensures 0 <= cur < |idmap| && CodesInRange(ChunksFrom(row, next), |idmap|)
    ensures tail == EncodeTriples(MapRuns(ChunksFrom(row, next), idmap))
    ensures done + (EncodeTriple(idmap[cur], run + 1) + tail) == all
  {
    ChunkWrite(row, first, next, idmap);
    tail := EncodeTriples(MapRuns(ChunksFrom(row, next), idmap));
    assert EncodeTriples(MapRuns(ChunksFrom(row, first), idmap)) == EncodeTriple(idmap[cur], run + 1) + tail;
  }

  lemma {:induction false} MapChunkStep(runs: seq<Run>, idmap: seq<i32>)
    requires runs != [] && CodesInRange(runs, |idmap|)
    ensures CodesInRange(runs[1..], |idmap|)
    ensures EncodeTriples(MapRuns(runs, idmap))
         == EncodeTriple(idmap[runs[0].code], runs[0].count) + EncodeTriples(MapRuns(runs[1..], idmap))
  {
    assert CodesInRange(runs[1..], |idmap|);
    assert MapRuns(runs, idmap)[1..] == MapRuns(runs[1..], idmap);
  }

  lemma {:induction false} ChunkCountBound(runs: seq<Run>)
    requires ChunksFit(runs)
    ensures |runs| <= TotalCount(runs)
  {
    if runs != [] {
      assert ChunksFit(runs[1..]);
      ChunkCountBound(runs[1..]);
    }
  }

  /**
   * The version-0 format's round trip: when every code is below 0x8000 the
   * stored row reads back, pixel by pixel, as the renumbered row.
   */
  lemma {:induction false} DecodeEncodedRowV0(row: seq<i32>, idmap: seq<i32>)
    requires InRange(row, |idmap|)
    requires forall i :: 0 <= i < |row| ==> 0 <= idmap[row[i]] < 0x8000
    ensures CodesInRange(Chunks(row), |idmap|)
    ensures ChunksFit(MapRuns(Chunks(row), idmap))
    ensures DecodeTriples(EncodeTriples(MapRuns(Chunks(row), idmap))) == MapRuns(Chunks(row), idmap)
    ensures Expand(MapRuns(Chunks(row), idmap)) == seq(|row|, i requires 0 <= i < |row| => idmap[row[i]])
  {
    ExpandChunks(row);
    ChunkCodes(row, 0, |idmap|);
    var cs := Chunks(row);
    var rs := MapRuns(cs, idmap);
    ChunkPixels(cs, row, idmap);
    DecodeEncodeTriples(rs);
    ExpandMapRuns(cs, idmap);
  }

  lemma {:induction false} ChunkPixels(cs: seq<Run>, row: seq<i32>, idmap: seq<i32>)
    requires Expand(cs) == row && ChunksFit(cs) && CodesInRange(cs, |idmap|) && InRange(row, |idmap|)
    requires forall i :: 0 <= i < |row| ==> 0 <= idmap[row[i]] < 0x8000
    ensures CodesInRange(MapRuns(cs, idmap), 0x8000) && ChunksFit(MapRuns(cs, idmap))
  {
    MapRunsShape(cs, idmap);
    forall k | 0 <= k < |cs|
      ensures 0 <= idmap[cs[k].code] < 0x8000
    {
      var i := ExpandIndex(cs, k);
      assert row[i] == cs[k].code;
    }
  }

  /** A position of `Expand(runs)` that lies inside run `k`. */
  lemma {:induction false} ExpandIndex(runs: seq<Run>, k: nat) returns (i: nat)
    requires k < |runs| && runs[k].count >= 1
    ensures i < |Expand(runs)| && Expand(runs)[i] == runs[k].code
  {
    var block := seq(runs[0].count, _ => runs[0].code);
    assert Expand(runs) == block + Expand(runs[1..]);
    if k == 0 {
      i := 0;
    } else {
      var j := ExpandIndex(runs[1..], k - 1);
      i := |block| + j;
    }
  }
}
