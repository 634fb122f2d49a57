/**
 * The row format of index version 1: every maximal run of a raster row is
 * stored as the varint pair (code, run length - 1). The writers produce it
 * (`compress` and `recodeLine16` in the sliced builder, `encodeLine16` in the
 * layered builder) and the query engine scans it (`lookupUncached`).
 */
module RowCodec {
  import opened Binary
  import opened Varint
  import opened RunLength

  /** The bytes stored for one run: the code, then the repetition count minus one. */
  function EncodeRun(r: Run): seq<byte>
  {
    Encode(ToU32(r.code)) + Encode(ToU32(r.count - 1))
  }

  function EncodeRuns(runs: seq<Run>): seq<byte>
  {
    if runs == [] then [] else EncodeRun(runs[0]) + EncodeRuns(runs[1..])
  }

  /** The stored form of a raster row without renumbering (the sliced builder's `compress`). */
  function CompressedRow(row: seq<i32>): seq<byte>
  {
    EncodeRuns(Runs(row))
  }

  // ---------------------------------------------------------------------------
  // Facts about the run lists the writers see.

  lemma {:induction false} RunsFromCounts(row: seq<i32>, x: nat)
    requires x <= |row| < 0x8000_0000
    ensures CountsFit(RunsFrom(row, x))
    decreases |row| - x
  {
    if x < |row| {
      var e := RunEnd(row, x);
      RunsFromCounts(row, e);
      var runs := RunsFrom(row, x);
      assert runs == [Run(row[x], e - x)] + RunsFrom(row, e);
      assert forall k :: 0 < k < |runs| ==> runs[k] == RunsFrom(row, e)[k - 1];
    }
  }

  /** Seven bits per byte: a count of n pixels never needs more than n bytes. */
  lemma {:induction false} EncodeRunsSize(runs: seq<Run>)
    requires CountsFit(runs)
    ensures |EncodeRuns(runs)| <= 8 * TotalCount(runs)
  {
    if runs != [] {
      var r := runs[0];
      assert 1 <= r.count < 0x8000_0000;
      EncodeShape(ToU32(r.code));
      EncodeShape(ToU32(r.count - 1));
      assert ToU32(r.count - 1) == r.count - 1;
      assert |EncodeRun(r)| <= 5 + r.count;
      assert CountsFit(runs[1..]);
      EncodeRunsSize(runs[1..]);
      assert |EncodeRuns(runs)| == |EncodeRun(r)| + |EncodeRuns(runs[1..])|;
      assert TotalCount(runs) == r.count + TotalCount(runs[1..]);
    }
  }

  /**
   * The writer's output buffer of 8 bytes per pixel is always large enough
   * for a row of a raster narrower than 2^31 pixels.
   */
  lemma {:induction false} CompressedRowSize(row: seq<i32>)
    requires |row| < 0x8000_0000
    ensures |CompressedRow(row)| <= 8 * |row|
  {
    ExpandRuns(row);
    RunsFromCounts(row, 0);
    EncodeRunsSize(Runs(row));
  }

  /** The same bound after renumbering. */
  lemma {:induction false} MappedRowSize(row: seq<i32>, idmap: seq<i32>)
    requires |row| < 0x8000_0000 && InRange(row, |idmap|)
    ensures CodesInRange(Runs(row), |idmap|)
    ensures |EncodeRuns(MapRuns(Runs(row), idmap))| <= 8 * |row|
  {
    ExpandRuns(row);
    RunsFromCounts(row, 0);
    RunsFromCodes(row, 0, |idmap|);
    MapRunsShape(Runs(row), idmap);
    EncodeRunsSize(MapRuns(Runs(row), idmap));
  }

  // ---------------------------------------------------------------------------
  // The reader: the scan in `lookupUncached`.

  /**
   * Scanning from `p` with `i` pixels already passed: read a code and a count,
   * advance `i` by count + 1 (Java `int` arithmetic), and answer the code as
   * soon as `x < i`. The buffer ends at `|buf|` (the mapped file's limit).
   */
  function ScanFrom(buf: seq<byte>, p: nat, x: i32, i: i32): Result<i32, VarintError>
    decreases |buf| - p
  {
    if !(i <= x) then Ok(0)
    else match Decode(buf, p)
      case Err(e) => Err(e)
      case Ok((c, p1)) =>
        match Decode(buf, p1)
        case Err(e) => Err(e)
        case Ok((n, p2)) =>
          var i' := AddI32(i, AddI32(ToI32(n), 1));
          if x < i' then Ok(ToI32(c)) else ScanFrom(buf, p2, x, i')
  }

  /** The code a row starting at `p` stores for column `x`. */
  function ScanRow(buf: seq<byte>, p: nat, x: i32): Result<i32, VarintError>
  {
    ScanFrom(buf, p, x, 0)
  }

  /** `s` occurs in `buf` at offset `p`, stated byte by byte. */
  predicate At(buf: seq<byte>, p: nat, s: seq<byte>)
    decreases |s|
  {
    p + |s| <= |buf| && (s == [] || (buf[p] == s[0] && At(buf, p + 1, s[1..])))
  }

  lemma {:induction false} AtSlice(buf: seq<byte>, p: nat, s: seq<byte>)
    requires p + |s| <= |buf|
    ensures At(buf, p, s) <==> buf[p..p + |s|] == s
    decreases |s|
  {
    if s != [] {
      AtSlice(buf, p + 1, s[1..]);
      if buf[p..p + |s|] == s {
        assert buf[p + 1..p + |s|] == buf[p..p + |s|][1..];
      }
      if At(buf, p, s) {
        assert buf[p..p + |s|] == [buf[p]] + buf[p + 1..p + |s|];
      }
    }
  }

  lemma {:induction false} AtSplit(buf: seq<byte>, p: nat, a: seq<byte>, b: seq<byte>)
    requires At(buf, p, a + b)
    ensures At(buf, p, a) && At(buf, p + |a|, b)
    decreases |a|
  {
    if a == [] {
      assert a + b == b;
    } else {
      assert (a + b)[0] == a[0];
      assert (a + b)[1..] == a[1..] + b;
      AtSplit(buf, p + 1, a[1..], b);
    }
  }

  lemma {:induction false} AtMiddle(pre: seq<byte>, s: seq<byte>, post: seq<byte>)
    ensures At(pre + s + post, |pre|, s)
  {
    assert (pre + s + post)[|pre|..|pre| + |s|] == s;
    AtSlice(pre + s + post, |pre|, s);
  }

  lemma {:induction false} AtWhole(s: seq<byte>)
    ensures At(s, 0, s)
  {
    assert s[0..|s|] == s;
    AtSlice(s, 0, s);
  }

  lemma {:induction false} DecodeAtPos(buf: seq<byte>, p: nat, v: u32)
    requires At(buf, p, Encode(v))
    ensures Decode(buf, p) == Ok((v, p + |Encode(v)|))
  {
    AtSlice(buf, p, Encode(v));
    DecodeEncodeFrom(buf, p, v, 0, 0);
  }

  /**
   * Reading varints from `p` yields, run by run, each code and its count
   * minus one, and ends at `q`.
   */
  predicate Stored(buf: seq<byte>, p: nat, runs: seq<Run>, q: nat)
    decreases |runs|
  {
    if runs == [] then p == q
    else
      var d1 := Decode(buf, p);
      && d1.Ok? && d1.value.0 == ToU32(runs[0].code)
      && var d2 := Decode(buf, d1.value.1);
         && d2.Ok? && d2.value.0 == ToU32(runs[0].count - 1)
         && Stored(buf, d2.value.1, runs[1..], q)
  }

  lemma {:induction false} StoredCons(buf: seq<byte>, p: nat, runs: seq<Run>, q: nat, p1: nat, p2: nat)
    requires runs != []
    requires Decode(buf, p) == Ok((ToU32(runs[0].code), p1))
    requires Decode(buf, p1) == Ok((ToU32(runs[0].count - 1), p2))
    requires Stored(buf, p2, runs[1..], q)
    ensures Stored(buf, p, runs, q)
  {
  }

  /** The stored bytes of a run list read back as that run list. */
  lemma {:induction false} AtStored(buf: seq<byte>, p: nat, runs: seq<Run>)
    requires At(buf, p, EncodeRuns(runs))
    ensures Stored(buf, p, runs, p + |EncodeRuns(runs)|)
    decreases |runs|
  {
    if runs != [] {
      var r := runs[0];
      var ec, en := Encode(ToU32(r.code)), Encode(ToU32(r.count - 1));
      var p1 := p + |ec|;
      var p2 := p1 + |en|;
      assert EncodeRun(r) == ec + en;
      assert EncodeRuns(runs) == EncodeRun(r) + EncodeRuns(runs[1..]);
      AtSplit(buf, p, EncodeRun(r), EncodeRuns(runs[1..]));
      AtSplit(buf, p, ec, en);
      DecodeAtPos(buf, p, ToU32(r.code));
      DecodeAtPos(buf, p1, ToU32(r.count - 1));
      AtStored(buf, p2, runs[1..]);
      StoredCons(buf, p, runs, p + |EncodeRuns(runs)|, p1, p2);
    }
  }

  /** The scan's step, read off its definition once both varints are known. */
  lemma {:induction false} ScanUnfold(buf: seq<byte>, p: nat, x: i32, i: i32, c: u32, p1: nat, n: u32, p2: nat)
    requires i <= x
    requires Decode(buf, p) == Ok((c, p1)) && Decode(buf, p1) == Ok((n, p2))
    ensures ScanFrom(buf, p, x, i)
         == var i' := AddI32(i, AddI32(ToI32(n), 1));
            if x < i' then Ok(ToI32(c)) else ScanFrom(buf, p2, x, i')
  {
  }

  /** Scanning stored runs for a column they cover yields that column's code. */
  lemma {:induction false} ScanRuns(buf: seq<byte>, p: nat, runs: seq<Run>, q: nat, x: i32, i: i32)
    requires CountsFit(runs)
    requires 0 <= i <= x < i + TotalCount(runs) < 0x8000_0000
    requires Stored(buf, p, runs, q)
    ensures ScanFrom(buf, p, x, i) == Ok(Expand(runs)[x - i])
    decreases |runs|
  {
    var r, rest := runs[0], runs[1..];
    var d1 := Decode(buf, p);
    var d2 := Decode(buf, d1.value.1);
    I32Bits(r.code);
    NonNegI32(r.count - 1);
    AddNoWrap(r.count - 1, 1);
    AddNoWrap(i, r.count);
    ScanUnfold(buf, p, x, i, d1.value.0, d1.value.1, d2.value.0, d2.value.1);
    assert Expand(runs) == seq(r.count, _ => r.code) + Expand(rest);
    if x < i + r.count {
      assert Expand(runs)[x - i] == r.code;
    } else {
      assert CountsFit(rest);
      ScanRuns(buf, d2.value.1, rest, q, x, i + r.count);
      assert Expand(runs)[x - i] == Expand(rest)[x - (i + r.count)];
    }
  }

  /** Scanning the stored form of a run list yields the pixel at column `x`. */
  lemma {:induction false} ScanEncoded(runs: seq<Run>, pre: seq<byte>, post: seq<byte>, x: i32)
    requires CountsFit(runs)
    requires 0 <= x < TotalCount(runs) < 0x8000_0000
    ensures ScanRow(pre + EncodeRuns(runs) + post, |pre|, x) == Ok(Expand(runs)[x])
  {
    var stored := EncodeRuns(runs);
    AtMiddle(pre, stored, post);
    AtStored(pre + stored + post, |pre|, runs);
    ScanRuns(pre + stored + post, |pre|, runs, |pre| + |stored|, x, 0);
  }

  /**
   * The central property of the format: scanning the stored form of a
   * renumbered row for column `x` yields the new code of the pixel at `x`.
   */
  lemma {:induction false} ScanEncodedRow(row: seq<i32>, idmap: seq<i32>, pre: seq<byte>, post: seq<byte>, x: i32)
    requires |row| < 0x8000_0000 && InRange(row, |idmap|)
    requires 0 <= x < |row|
    ensures CodesInRange(Runs(row), |idmap|)
    ensures ScanRow(pre + EncodeRuns(MapRuns(Runs(row), idmap)) + post, |pre|, x) == Ok(idmap[row[x]])
  {
    ExpandRuns(row);
    RunsFromCounts(row, 0);
    RunsFromCodes(row, 0, |idmap|);
    MapRunsShape(Runs(row), idmap);
    ExpandMapRuns(Runs(row), idmap);
    ScanEncoded(MapRuns(Runs(row), idmap), pre, post, x);
  }

  /** Without renumbering, the scan yields the pixel value itself. */
  lemma {:induction false} ScanCompressedRow(row: seq<i32>, pre: seq<byte>, post: seq<byte>, x: i32)
    requires |row| < 0x8000_0000
    requires 0 <= x < |row|
    ensures ScanRow(pre + CompressedRow(row) + post, |pre|, x) == Ok(row[x])
  {
    ExpandRuns(row);
    RunsFromCounts(row, 0);
    ScanEncoded(Runs(row), pre, post, x);
  }

  // ---------------------------------------------------------------------------
  // Renumbering a stored row (`recodeLine16`).

  datatype RecodeError =
    | BadVarint(e: VarintError)  // a varint ran past the row or was too long
    | BadIndex                   // a code outside the renumbering table
    | Overflow                   // the output buffer is too small

  /**
   * The bytes `recodeLine16` produces from `row[p..]`: each code is replaced by
   * its entry in `idmap`, each count is copied.
   */
  function RecodeFrom(row: seq<byte>, p: nat, idmap: seq<i32>): Result<seq<byte>, RecodeError>
    decreases |row| - p
  {
    if p >= |row| then Ok([])
    else match Decode(row, p)
      case Err(e) => Err(BadVarint(e))
      case Ok((c, p1)) =>
        var idx := ToI32(c);
        if idx < 0 || idx >= |idmap| then Err(BadIndex)
        else match Decode(row, p1)
          case Err(e) => Err(BadVarint(e))
          case Ok((n, p2)) =>
            match RecodeFrom(row, p2, idmap)
            case Err(e) => Err(e)
            case Ok(rest) => Ok(Encode(ToU32(idmap[idx])) + Encode(n) + rest)
  }

  /** Prefixing a recoded result with bytes already written. */
  function Prepend(done: seq<byte>, r: Result<seq<byte>, RecodeError>): Result<seq<byte>, RecodeError>
  {
    if r.Ok? then Ok(done + r.value) else r
  }

  function Recode(row: seq<byte>, idmap: seq<i32>): Result<seq<byte>, RecodeError>
  {
    RecodeFrom(row, 0, idmap)
  }

  /** The recoding's step, read off its definition once both varints are known. */
  lemma {:induction false} RecodeUnfold(row: seq<byte>, p: nat, idmap: seq<i32>, c: u32, p1: nat, n: u32, p2: nat)
    requires p < |row| && 0 <= ToI32(c) < |idmap|
    requires Decode(row, p) == Ok((c, p1)) && Decode(row, p1) == Ok((n, p2))
    ensures RecodeFrom(row, p, idmap)
         == Prepend(Encode(ToU32(idmap[ToI32(c)])) + Encode(n), RecodeFrom(row, p2, idmap))
  {
  }

  /** Recoding stored runs renumbers their codes and keeps their counts. */
  lemma {:induction false} RecodeRuns(row: seq<byte>, p: nat, runs: seq<Run>, idmap: seq<i32>)
    requires CodesInRange(runs, |idmap|)
    requires Stored(row, p, runs, |row|)
    ensures RecodeFrom(row, p, idmap) == Ok(EncodeRuns(MapRuns(runs, idmap)))
    decreases |runs|
  {
    if runs != [] {
      var r, rest := runs[0], runs[1..];
      var d1 := Decode(row, p);
      var d2 := Decode(row, d1.value.1);
      I32Bits(r.code);
      RecodeUnfold(row, p, idmap, d1.value.0, d1.value.1, d2.value.0, d2.value.1);
      assert CodesInRange(rest, |idmap|);
      RecodeRuns(row, d2.value.1, rest, idmap);
      assert MapRuns(runs, idmap) == [Run(idmap[r.code], r.count)] + MapRuns(rest, idmap);
    }
  }

  /** Recoding the stored form of a run list renumbers its codes. */
  lemma {:induction false} RecodeEncoded(runs: seq<Run>, idmap: seq<i32>)
    requires CodesInRange(runs, |idmap|)
    ensures Recode(EncodeRuns(runs), idmap) == Ok(EncodeRuns(MapRuns(runs, idmap)))
  {
    var stored := EncodeRuns(runs);
    AtWhole(stored);
    AtStored(stored, 0, runs);
    RecodeRuns(stored, 0, runs, idmap);
  }

  /**
   * The sliced builder's two passes (`compress`, then `recodeLine16`) store the
   * same bytes the layered builder's single pass (`encodeLine16`) stores.
   */
  lemma {:induction false} RecodeCompressedRow(row: seq<i32>, idmap: seq<i32>)
    requires InRange(row, |idmap|)
    ensures CodesInRange(Runs(row), |idmap|)
    ensures Recode(CompressedRow(row), idmap) == Ok(EncodeRuns(MapRuns(Runs(row), idmap)))
  {
    RunsFromCodes(row, 0, |idmap|);
    RecodeEncoded(Runs(row), idmap);
  }

  // ---------------------------------------------------------------------------
  // The writers.

  lemma {:induction false} Regroup(done: seq<byte>, a: seq<byte>, b: seq<byte>, rest: seq<byte>)
    ensures done + ((a + b) + rest) == ((done + a) + b) + rest
  {
  }

  lemma {:induction false} RunStep(row: seq<i32>, first: nat, x: nat)
    requires first < x <= |row|
    requires forall k :: first <= k < x ==> row[k] == row[first]
    requires x < |row| ==> row[x] != row[first]
    ensures RunsFrom(row, first) == [Run(row[first], x - first)] + RunsFrom(row, x)
    ensures EncodeRuns(RunsFrom(row, first))
         == Encode(ToU32(row[first])) + Encode(ToU32(x - first - 1)) + EncodeRuns(RunsFrom(row, x))
  {
    RunEndUnique(row, first, x);
    var rs := RunsFrom(row, first);
    assert rs[0] == Run(row[first], x - first);
    assert rs[1..] == RunsFrom(row, x);
    assert EncodeRuns(rs) == EncodeRun(rs[0]) + EncodeRuns(rs[1..]);
  }

  /**
   * The body of the sliced builder's `compress` for one row: the row's maximal
   * runs, stored from offset 0 of `buffer`.
   */
  method CompressRow(row: array<i32>, buffer: array<byte>) returns (len: nat)
    requires row.Length < 0x8000_0000
    requires buffer.Length >= 8 * row.Length
    modifies buffer
    ensures len <= buffer.Length && buffer[..len] == CompressedRow(row[..])
  {
    ghost var r := row[..];
    ghost var all := CompressedRow(r);
    CompressedRowSize(r);
    ExpandRuns(r);
    var rl := row.Length;
    len := 0;
    var x := 0;
    while x < rl
      invariant 0 <= x <= rl && len <= buffer.Length
      invariant buffer[..len] + EncodeRuns(RunsFrom(r, x)) == all
      invariant |all| <= buffer.Length
    {
      var first := x;
      var cur := row[x];
      x := x + 1;
      while x < rl && row[x] == cur
        invariant first < x <= rl
        invariant forall k :: first <= k < x ==> r[k] == cur
      {
        x := x + 1;
      }
      ghost var e1, e2 := Encode(ToU32(cur)), Encode(ToU32(x - first - 1));
      ghost var rest := EncodeRuns(RunsFrom(r, x));
      RunStep(r, first, x);
      ghost var done := buffer[..len];
      assert done + (e1 + e2 + rest) == all;
      len := WriteUnsignedVarint(buffer, len, ToU32(cur));
      len := WriteUnsignedVarint(buffer, len, ToU32(x - first - 1));
      Regroup(done, e1, e2, rest);
    }
  }

  lemma {:induction false} MapRunStep(row: seq<i32>, first: nat, cur: i32, x: nat, idmap: seq<i32>,
                                      done: seq<byte>, all: seq<byte>)
    returns (rest: seq<byte>)
    requires first < x <= |row| && row[first] == cur && CodesInRange(RunsFrom(row, first), |idmap|)
    requires forall k :: first <= k < x ==> row[k] == cur
    requires x < |row| ==> row[x] != cur
    requires done + EncodeRuns(MapRuns(RunsFrom(row, first), idmap)) == all
    ensures CodesInRange(RunsFrom(row, x), |idmap|) && 0 <= cur < |idmap|
    ensures rest == EncodeRuns(MapRuns(RunsFrom(row, x), idmap))
    ensures done + (Encode(ToU32(idmap[cur])) + Encode(ToU32(x - first - 1)) + rest) == all
  {
    RunStep(row, first, x);
    var rs := RunsFrom(row, first);
    assert rs[0] == Run(cur, x - first);
    assert rs[1..] == RunsFrom(row, x);
    rest := EncodeRuns(MapRuns(RunsFrom(row, x), idmap));
    assert EncodeRuns(MapRuns(rs, idmap)) == Encode(ToU32(idmap[cur])) + Encode(ToU32(x - first - 1)) + rest;
  }

  /**
   * `encodeLine16` of the layered builder: the maximal runs of a row, each
   * code replaced by its entry in `idmap`, stored from offset 0 of `buffer`.
   */
  method EncodeLine16(row: array<i32>, idmap: array<i32>, buffer: array<byte>) returns (len: nat)
    requires row.Length < 0x8000_0000
    requires InRange(row[..], idmap.Length)
    requires buffer.Length >= 8 * row.Length
    modifies buffer
    ensures CodesInRange(Runs(row[..]), idmap.Length)
    ensures len <= buffer.Length && buffer[..len] == EncodeRuns(MapRuns(Runs(row[..]), idmap[..]))
  {
    ghost var r := row[..];
    ghost var m := idmap[..];
    MappedRowSize(r, m);
    ghost var all := EncodeRuns(MapRuns(Runs(r), m));
    ExpandRuns(r);
    len := 0;
    var x := 0;
    while x < row.Length
      invariant 0 <= x <= row.Length && len <= buffer.Length
      invariant CodesInRange(RunsFrom(r, x), idmap.Length)
      invariant idmap[..] == m
      invariant buffer[..len] + EncodeRuns(MapRuns(RunsFrom(r, x), m)) == all
      invariant |all| <= buffer.Length
    {
      var first := x;
      var cur := row[x];
      x := x + 1;
      while x < row.Length && row[x] == cur
        invariant first < x <= row.Length
        invariant forall k :: first <= k < x ==> r[k] == cur
      {
        x := x + 1;
      }
      ghost var rest := MapRunStep(r, first, cur, x, m, buffer[..len], all);
      len := PutRun(buffer, len, ToU32(idmap[cur]), ToU32(x - first - 1), rest, all);
    }
  }

  /**
   * The two varint stores of one pass of `encodeLine16`'s loop; `rest` and
   * `all` are the bytes still to come and the whole row's bytes.
   */
  method PutRun(buffer: array<byte>, len: nat, code: u32, run: u32, ghost rest: seq<byte>, ghost all: seq<byte>)
    returns (len': nat)
    requires len <= buffer.Length
    requires buffer[..len] + (Encode(code) + Encode(run) + rest) == all && |all| <= buffer.Length
    modifies buffer
    ensures len' <= buffer.Length && buffer[..len'] + rest == all
  {
    ghost var done := buffer[..len];
    len' := WriteUnsignedVarint(buffer, len, code);
    len' := WriteUnsignedVarint(buffer, len', run);
    Regroup(done, Encode(code), Encode(run), rest);
  }

  lemma {:induction false} PrependEmpty(r: Result<seq<byte>, RecodeError>)
    ensures Prepend([], r) == r
  {
    if r.Ok? {
      assert [] + r.value == r.value;
    }
  }

  lemma {:induction false} PrependTwice(a: seq<byte>, b: seq<byte>, r: Result<seq<byte>, RecodeError>)
    ensures Prepend(a, Prepend(b, r)) == Prepend(a + b, r)
  {
    if r.Ok? {
      assert a + (b + r.value) == (a + b) + r.value;
    }
  }

  /**
   * A successful recoding from `p` starts with the new code of the run at `p`
   * and that run's count; both varints were readable.
   */
  lemma {:induction false} RecodeOkShape(row: seq<byte>, p: nat, idmap: seq<i32>, c: u32, p1: nat)
    requires p < |row| && 0 <= ToI32(c) < |idmap|
    requires Decode(row, p) == Ok((c, p1))
    requires RecodeFrom(row, p, idmap).Ok?
    ensures Decode(row, p1).Ok?
    ensures |Encode(ToU32(idmap[ToI32(c)]))| + |Encode(Decode(row, p1).value.0)| <= |RecodeFrom(row, p, idmap).value|
  {
  }

  /**
   * `recodeLine16` of the sliced builder: renumbers the codes of a stored row
   * into `buffer`. It succeeds exactly when the row is well formed and the
   * result fits; on success the buffer starts with the recoded row.
   */
  method RecodeLine16(row: seq<byte>, idmap: array<i32>, buffer: array<byte>) returns (r: Result<nat, RecodeError>)
    modifies buffer
    ensures r.Ok? <==> Recode(row, idmap[..]).Ok? && |Recode(row, idmap[..]).value| <= buffer.Length
    ensures r.Ok? ==> r.value <= buffer.Length && buffer[..r.value] == Recode(row, idmap[..]).value
  {
    ghost var m := idmap[..];
    var len := 0;
    var p := 0;
    PrependEmpty(Recode(row, m));
    while p < |row|
      invariant len <= buffer.Length && idmap[..] == m
      invariant Recode(row, m) == Prepend(buffer[..len], RecodeFrom(row, p, m))
      decreases |row| - p
    {
      var c := ReadUnsignedVarint(row, p);
      if c.Err? {
        return Err(BadVarint(c.error));
      }
      var code, p1 := c.value.0, c.value.1;
      var idx := ToI32(code);
      if idx < 0 || idx >= idmap.Length {
        return Err(BadIndex);
      }
      var v := ToU32(idmap[idx]);
      if RecodeFrom(row, p, m).Ok? {
        RecodeOkShape(row, p, m, code, p1);
      }
      if len + |Encode(v)| > buffer.Length {
        return Err(Overflow);
      }
      ghost var done := buffer[..len];
      len := WriteUnsignedVarint(buffer, len, v);
      var n := ReadUnsignedVarint(row, p1);
      if n.Err? {
        return Err(BadVarint(n.error));
      }
      if len + |Encode(n.value.0)| > buffer.Length {
        return Err(Overflow);
      }
      len := WriteUnsignedVarint(buffer, len, n.value.0);
      RecodeUnfold(row, p, m, code, p1, n.value.0, n.value.1);
      PrependTwice(done, Encode(v) + Encode(n.value.0), RecodeFrom(row, n.value.1, m));
      assert done + (Encode(v) + Encode(n.value.0)) == buffer[..len];
      p := n.value.1;
    }
    assert buffer[..len] + [] == buffer[..len];
    return Ok(len);
  }
}
