/**
 * Renumbering entity numbers to the dense codes stored in the index file.
 *
 * The layered builders mark every entity number present in the final grid
 * and number the marked ones 0, 1, ... in increasing entity order; the
 * sliced builder numbers the entities that won any pixel in decreasing order
 * of their pixel totals, so that frequent entities get short varint codes.
 */
module Codes {
  import opened Binary
  import opened RunLength
  import opened RowCodecV0

  // ---------------------------------------------------------------------------
  // Layered builders: marks, then codes in entity order.

  /** The number of marked entries. */
  function NumUsed(marks: seq<int>): (r: nat)
    ensures r <= |marks|
  {
    if marks == [] then 0 else NumUsed(marks[..|marks| - 1]) + (if marks[|marks| - 1] == 0 then 0 else 1)
  }

  /** The code of every entity: -1 when unmarked, else the number of marked entities before it. */
  function Codes(marks: seq<int>): (r: seq<int>)
    ensures |r| == |marks|
  {
    if marks == [] then []
    else
      var init := marks[..|marks| - 1];
      Codes(init) + [if marks[|marks| - 1] == 0 then -1 else NumUsed(init)]
  }

  /**
   * The codes are dense and keep the entity order: unmarked entities get -1,
   * marked ones get codes below the count, strictly increasing with the
   * entity number (so no two share a code), and every code below the count
   * is taken.
   */
  lemma {:induction false} CodesSpec(marks: seq<int>)
    ensures forall i :: 0 <= i < |marks| ==> (Codes(marks)[i] == -1 <==> marks[i] == 0)
    ensures forall i :: 0 <= i < |marks| && marks[i] != 0 ==> 0 <= Codes(marks)[i] < NumUsed(marks)
    ensures forall i, j :: 0 <= i < j < |marks| && marks[i] != 0 && marks[j] != 0 ==> Codes(marks)[i] < Codes(marks)[j]
    ensures forall c :: 0 <= c < NumUsed(marks) ==> c in Codes(marks)
  {
    if marks != [] {
      var init := marks[..|marks| - 1];
      var last := |marks| - 1;
      CodesSpec(init);
      assert forall i :: 0 <= i < last ==> marks[i] == init[i] && Codes(marks)[i] == Codes(init)[i];
      forall c | 0 <= c < NumUsed(marks)
        ensures c in Codes(marks)
      {
        if c < NumUsed(init) {
          assert c in Codes(init);
          var i :| 0 <= i < |Codes(init)| && Codes(init)[i] == c;
          assert Codes(marks)[i] == c;
        } else {
          assert Codes(marks)[last] == c;
        }
      }
    }
  }

  /** Some pixel of the grid holds entity `i`. */
  ghost predicate Present(grid: array2<i32>, i: int)
    reads grid
  {
    exists y, x :: 0 <= y < grid.Length0 && 0 <= x < grid.Length1 && grid[y, x] == i
  }

  /** The first loop of `buildIndex` in the layered builders: mark every entity present in the grid. */
  method MarkUsed(grid: array2<i32>, marks: array<int>)
    requires forall y, x :: 0 <= y < grid.Length0 && 0 <= x < grid.Length1 ==> 0 <= grid[y, x] < marks.Length
    modifies marks
    ensures forall i :: 0 <= i < marks.Length ==> marks[i] == if Present(grid, i) then 1 else old(marks[i])
  {
    for y := 0 to grid.Length0
      invariant forall i :: 0 <= i < marks.Length ==>
        marks[i] == if exists r, k :: 0 <= r < y && 0 <= k < grid.Length1 && grid[r, k] == i then 1 else old(marks[i])
    {
      for x := 0 to grid.Length1
        invariant forall i :: 0 <= i < marks.Length ==>
          marks[i] == if (exists r, k :: 0 <= r < y && 0 <= k < grid.Length1 && grid[r, k] == i)
                         || (exists k :: 0 <= k < x && grid[y, k] == i) then 1 else old(marks[i])
      {
        marks[grid[y, x]] := 1;
      }
    }
  }

  /**
   * The second loop of `buildIndex` in the layered builders: every marked
   * entry is replaced by the next code, every unmarked one by -1.
   */
  method Compact(marks: array<int>) returns (c: int)
    modifies marks
    ensures marks[..] == Codes(old(marks[..])) && c == NumUsed(old(marks[..]))
  {
    ghost var m := marks[..];
    c := 0;
    for i := 0 to marks.Length
      invariant marks[..i] == Codes(m[..i]) && marks[i..] == m[i..]
      invariant c == NumUsed(m[..i])
    {
      assert m[..i + 1][..i] == m[..i];
      if marks[i] == 0 {
        marks[i] := -1;
      } else {
        marks[i] := c;
        c := c + 1;
      }
      assert marks[..i + 1] == marks[..i] + [marks[i]];
    }
    assert m[..marks.Length] == m && marks[..marks.Length] == marks[..];
  }

  /**
   * The metadata loop of the layered `buildIndex`: the records of the
   * entries that received a code, in entry order.
   */
  method CollectMeta(codes: array<int>, meta: seq<string>) returns (metadata: seq<string>)
    requires codes.Length == |meta|
    ensures metadata == Coded(codes[..], meta)
  {
    metadata := [];
    for i := 0 to codes.Length
      invariant metadata == Coded(codes[..i], meta[..i])
    {
      CodedSnoc(codes[..], meta, i);
      if codes[i] <= -1 {
        continue;
      }
      metadata := metadata + [meta[i]];
    }
    assert codes[..codes.Length] == codes[..] && meta[..codes.Length] == meta;
  }

  /** The records of the entries with a code (not -1), in entry order. */
  function Coded(codes: seq<int>, meta: seq<string>): seq<string>
    requires |codes| == |meta|
  {
    if codes == [] then []
    else
      var n := |codes| - 1;
      Coded(codes[..n], meta[..n]) + (if codes[n] > -1 then [meta[n]] else [])
  }

  /** The number of entries that received a code. */
  function NumUsedCodes(codes: seq<int>): (r: nat)
    ensures r <= |codes|
  {
    if codes == [] then 0 else NumUsedCodes(codes[..|codes| - 1]) + (if codes[|codes| - 1] > -1 then 1 else 0)
  }

  /** The position of entry `i` among the entries that received a code. */
  function Rank(codes: seq<int>, i: nat): nat
    requires i <= |codes|
  {
    NumUsedCodes(codes[..i])
  }

  lemma {:induction false} RankPrefix(codes: seq<int>, i: nat)
    requires i < |codes|
    ensures codes[..i + 1][..i] == codes[..i]
    ensures NumUsedCodes(codes[..i + 1]) == NumUsedCodes(codes[..i]) + (if codes[i] > -1 then 1 else 0)
  {
    assert codes[..i + 1][..i] == codes[..i];
  }

  /** For compacted codes, the rank of a coded entry is its code. */
  lemma {:induction false} RankIsCode(marks: seq<int>, i: nat)
    requires i < |marks| && marks[i] != 0
    ensures Rank(Codes(marks), i) == Codes(marks)[i] && NumUsedCodes(Codes(marks)) == NumUsed(marks)
  {
    CodesUsed(marks);
    CodesPrefix(marks, i);
  }

  lemma {:induction false} CodesUsed(marks: seq<int>)
    ensures NumUsedCodes(Codes(marks)) == NumUsed(marks)
  {
    if marks != [] {
      var init := marks[..|marks| - 1];
      CodesUsed(init);
      assert Codes(marks)[..|marks| - 1] == Codes(init);
    }
  }

  lemma {:induction false} CodesPrefix(marks: seq<int>, i: nat)
    requires i <= |marks|
    ensures Codes(marks)[..i] == Codes(marks[..i])
    ensures i < |marks| && marks[i] != 0 ==> Codes(marks)[i] == NumUsed(marks[..i]) == NumUsedCodes(Codes(marks)[..i])
    decreases |marks|
  {
    if i < |marks| {
      var init := marks[..|marks| - 1];
      assert init[..i] == marks[..i];
      if i < |init| {
        CodesPrefix(init, i);
        assert Codes(marks)[..i] == Codes(init)[..i];
        if marks[i] != 0 {
          assert Codes(marks)[i] == Codes(init)[i];
        }
      } else {
        assert Codes(marks)[..i] == Codes(init);
      }
      if marks[i] != 0 {
        CodesUsed(marks[..i]);
      }
    } else {
      assert marks[..i] == marks;
    }
  }

  /** The record list has one record per coded entry. */
  lemma {:induction false} CodedSize(codes: seq<int>, meta: seq<string>)
    requires |codes| == |meta|
    ensures |Coded(codes, meta)| == NumUsedCodes(codes)
  {
    if codes != [] {
      var n := |codes| - 1;
      CodedSize(codes[..n], meta[..n]);
    }
  }

  /** The record of a coded entry sits at that entry's rank. */
  lemma {:induction false} CodedAt(codes: seq<int>, meta: seq<string>, i: nat)
    requires |codes| == |meta| && i < |codes| && codes[i] > -1
    ensures Rank(codes, i) < |Coded(codes, meta)| && Coded(codes, meta)[Rank(codes, i)] == meta[i]
    decreases |codes|
  {
    var n := |codes| - 1;
    RankPrefix(codes, i);
    CodedSize(codes[..n], meta[..n]);
    if i < n {
      CodedAt(codes[..n], meta[..n], i);
      assert codes[..n][..i] == codes[..i];
    } else {
      assert codes[..i] == codes[..n];
    }
  }

  /** A prefix never has more coded entries than the whole. */
  lemma {:induction false} NumUsedCodesMono(codes: seq<int>, i: nat)
    requires i <= |codes|
    ensures NumUsedCodes(codes[..i]) <= NumUsedCodes(codes)
    decreases |codes|
  {
    if i < |codes| {
      var n := |codes| - 1;
      assert codes[..n][..i] == codes[..i];
      NumUsedCodesMono(codes[..n], i);
    } else {
      assert codes[..i] == codes;
    }
  }

  /**
   * With compacted codes, the record list is indexed by code: the record
   * at position `Codes(marks)[i]` is the record of entity `i`.
   */
  lemma {:induction false} MetaOfCode(marks: seq<int>, meta: seq<string>)
    requires |marks| == |meta|
    ensures |Coded(Codes(marks), meta)| == NumUsed(marks)
    ensures forall i :: 0 <= i < |marks| && marks[i] != 0 ==>
      0 <= Codes(marks)[i] < |Coded(Codes(marks), meta)| && Coded(Codes(marks), meta)[Codes(marks)[i]] == meta[i]
  {
    CodesSpec(marks);
    CodedSize(Codes(marks), meta);
    CodesUsed(marks);
    forall i | 0 <= i < |marks| && marks[i] != 0
      ensures 0 <= Codes(marks)[i] < |Coded(Codes(marks), meta)| && Coded(Codes(marks), meta)[Codes(marks)[i]] == meta[i]
    {
      RankIsCode(marks, i);
      CodedAt(Codes(marks), meta, i);
    }
  }

  /** Splitting off the first entry of the record list. */
  lemma {:induction false} CodedCons(codes: seq<int>, meta: seq<string>)
    requires |codes| == |meta| > 0
    ensures Coded(codes, meta) == (if codes[0] > -1 then [meta[0]] else []) + Coded(codes[1..], meta[1..])
    decreases |codes|
  {
    var n := |codes| - 1;
    if n > 0 {
      CodedCons(codes[..n], meta[..n]);
      assert codes[..n][1..] == codes[1..][..n - 1] && meta[..n][1..] == meta[1..][..n - 1];
      assert codes[1..][n - 1] == codes[n] && meta[1..][n - 1] == meta[n];
    } else {
      assert codes[1..] == [] && meta[1..] == [];
    }
  }

  // ---------------------------------------------------------------------------
  // The version-0 writer (`BuildIndex.buildIndex`).

  datatype CodesError =
    | TooManyCodes(count: nat)     // the writer refuses this many codes
    | OutOfBounds(index: nat)      // a store past the end of the metadata array
    | MissingEntry(index: nat)     // a metadata slot left null, dereferenced when written

  /** The count check of the version-0 writer, as written: more than 0xFFFF codes are refused. */
  function GuardV0(c: nat): (r: Result<nat, CodesError>)
    ensures r.Ok? ==> r.value == c
  {
    if c > 0xFFFF then Err(TooManyCodes(c)) else Ok(c)
  }

  /**
   * The guard admits 0x8001 codes, and then two different entities get
   * codes (0 and 0x8000) whose stored triples are identical: the marker bit
   * hides the top bit of the code.
   */
  lemma {:induction false} GuardV0AdmitsCollision(marks: seq<int>) returns (i: nat, j: nat)
    requires NumUsed(marks) == 0x8001
    ensures GuardV0(NumUsed(marks)).Ok?
    ensures i < |marks| && j < |marks| && i != j && marks[i] != 0 && marks[j] != 0
    ensures forall n :: 1 <= n <= MAX_CHUNK ==> EncodeTriple(Codes(marks)[i], n) == EncodeTriple(Codes(marks)[j], n)
  {
    CodesSpec(marks);
    assert 0 in Codes(marks) && 0x8000 in Codes(marks);
    i :| 0 <= i < |Codes(marks)| && Codes(marks)[i] == 0;
    j :| 0 <= j < |Codes(marks)| && Codes(marks)[j] == 0x8000;
    forall n | 1 <= n <= MAX_CHUNK
      ensures EncodeTriple(Codes(marks)[i], n) == EncodeTriple(Codes(marks)[j], n)
    {
      MarkerCollision(n);
    }
  }

  /** The count check the format needs: at most 0x8000 codes, as the writer's own message says. */
  function GuardV0Fixed(c: nat): (r: Result<nat, CodesError>)
    ensures r.Ok? <==> c <= 0x8000
    ensures r.Ok? ==> r.value == c
  {
    if c > 0x8000 then Err(TooManyCodes(c)) else Ok(c)
  }

  /**
   * With the corrected guard every stored version-0 row reads back as the
   * codes of its pixels, and the codes tell the entities apart.
   */
  lemma {:induction false} V0RowRoundTrip(marks: seq<int>, idmap: seq<i32>, row: seq<i32>)
    requires idmap == Codes(marks) && GuardV0Fixed(NumUsed(marks)).Ok?
    requires InRange(row, |marks|) && forall i :: 0 <= i < |row| ==> marks[row[i]] != 0
    ensures CodesInRange(Chunks(row), |idmap|) && ChunksFit(MapRuns(Chunks(row), idmap))
    ensures DecodeTriples(EncodeTriples(MapRuns(Chunks(row), idmap))) == MapRuns(Chunks(row), idmap)
    ensures Expand(MapRuns(Chunks(row), idmap)) == seq(|row|, i requires 0 <= i < |row| => idmap[row[i]])
    ensures forall i, j :: 0 <= i < |row| && 0 <= j < |row| && idmap[row[i]] == idmap[row[j]] ==> row[i] == row[j]
  {
    CodesSpec(marks);
    DecodeEncodedRowV0(row, idmap);
  }

  /**
   * The metadata list of the version-0 writer, as written: slot 0 holds
   * "Earth" and the entries 1, 2, ... with a code follow in slots 1, 2, ...
   * of an array of exactly `c` slots; a store past its end fails, and a slot
   * left unfilled fails when the lengths are written.
   */
  function MetaV0(codes: seq<int>, keys: seq<string>, c: nat): Result<seq<string>, CodesError>
    requires |codes| == |keys| + 1
  {
    var tail := Coded(codes[1..], keys);
    if c == 0 then Err(OutOfBounds(0))
    else if 1 + |tail| > c then Err(OutOfBounds(c))
    else if 1 + |tail| < c then Err(MissingEntry(1 + |tail|))
    else Ok(["Earth"] + tail)
  }

  /** The metadata loop of the version-0 `buildIndex`. */
  method CollectMetaV0(codes: array<int>, keys: seq<string>, c: nat) returns (r: Result<seq<string>, CodesError>)
    requires codes.Length == |keys| + 1
    ensures r == MetaV0(codes[..], keys, c)
  {
    if c == 0 {
      return Err(OutOfBounds(0));
    }
    var metadata := new string[c](_ => "");
    metadata[0] := "Earth";
    var c2: nat := 1;
    for i := 1 to codes.Length
      invariant c2 <= c && metadata[..c2] == ["Earth"] + Coded(codes[..][1..][..i - 1], keys[..i - 1])
    {
      var full;
      c2, full := StoreMetaV0(codes, keys, metadata, i, c2);
      if full {
        return Err(OutOfBounds(c));
      }
    }
    assert codes[..][1..][..codes.Length - 1] == codes[..][1..] && keys[..codes.Length - 1] == keys;
    if c2 < c {
      return Err(MissingEntry(c2));
    }
    r := Ok(metadata[..c2]);
  }

  /**
   * One pass of the version-0 metadata loop: the record of entry `i` goes
   * to the next slot if it has a code; `full` when that slot is past the end.
   */
  method StoreMetaV0(codes: array<int>, keys: seq<string>, metadata: array<string>, i: nat, c2: nat)
    returns (c2': nat, full: bool)
    requires codes.Length == |keys| + 1 && 1 <= i < codes.Length && metadata.Length > 0
    requires c2 <= metadata.Length && metadata[..c2] == ["Earth"] + Coded(codes[..][1..][..i - 1], keys[..i - 1])
    modifies metadata
    ensures full ==> MetaV0(codes[..], keys, metadata.Length) == Err(OutOfBounds(metadata.Length))
    ensures !full ==> c2' <= metadata.Length && metadata[..c2'] == ["Earth"] + Coded(codes[..][1..][..i], keys[..i])
  {
    ghost var tail := codes[..][1..];
    CodedSnoc(tail, keys, i - 1);
    if codes[i] <= -1 {
      return c2, false;
    }
    if c2 >= metadata.Length {
      CodedPrefixSize(tail, keys, i);
      return c2, true;
    }
    metadata[c2] := keys[i - 1];
    c2', full := c2 + 1, false;
    assert metadata[..c2'] == metadata[..c2] + [keys[i - 1]];
  }

  /** One more entry adds its record, if it has a code. */
  lemma {:induction false} CodedSnoc(codes: seq<int>, meta: seq<string>, n: nat)
    requires |codes| == |meta| && n < |codes|
    ensures Coded(codes[..n + 1], meta[..n + 1]) == Coded(codes[..n], meta[..n]) + (if codes[n] > -1 then [meta[n]] else [])
  {
    assert codes[..n + 1][..n] == codes[..n] && meta[..n + 1][..n] == meta[..n];
  }

  /** A prefix never has more records than the whole list. */
  lemma {:induction false} CodedPrefixSize(codes: seq<int>, meta: seq<string>, n: nat)
    requires |codes| == |meta| && n <= |codes|
    ensures |Coded(codes[..n], meta[..n])| <= |Coded(codes, meta)|
  {
    CodedSize(codes[..n], meta[..n]);
    CodedSize(codes, meta);
    NumUsedCodesMono(codes, n);
  }

  /**
   * The version-0 metadata succeeds exactly when entity 0 holds a pixel, and
   * then it is the record list indexed by code with "Earth" as the record
   * of entity 0.
   */
  lemma {:induction false} MetaV0NeedsEarth(marks: seq<int>, keys: seq<string>)
    requires |marks| == |keys| + 1
    ensures MetaV0(Codes(marks), keys, NumUsed(marks)).Ok? <==> marks[0] != 0
    ensures marks[0] != 0 ==> MetaV0(Codes(marks), keys, NumUsed(marks)).value == Coded(Codes(marks), ["Earth"] + keys)
  {
    var meta := ["Earth"] + keys;
    CodesSpec(marks);
    CodedCons(Codes(marks), meta);
    assert meta[1..] == keys;
    CodedSize(Codes(marks), meta);
    CodesUsed(marks);
  }

  /**
   * A 1 by 1 grid covered by entity 1 makes the version-0 writer fail: the
   * only code goes to entity 1, and "Earth" has already taken the only slot.
   */
  lemma {:induction false} MetaV0OutOfBounds()
    ensures NumUsed([0, 1]) == 1 && Codes([0, 1]) == [-1, 0]
    ensures MetaV0(Codes([0, 1]), ["k"], NumUsed([0, 1])) == Err(OutOfBounds(1))
  {
    assert [0, 1][..1] == [0];
    assert [0][..0] == [];
    assert Codes([0, 1])[1..] == [0];
    assert [0][..0] == [] && ["k"][..0] == [];
  }

  // ---------------------------------------------------------------------------
  // The sliced builder: codes by descending pixel total.

  /**
   * The order `tmp` has after the indirect sort: a permutation of the entity
   * numbers with entity 0 first (the sort starts at index 1) and the others
   * by descending count.
   */
  predicate SortedByCount(cnt: seq<int>, order: seq<int>)
  {
    |order| == |cnt| > 0 && order[0] == 0
    && (forall k :: 0 <= k < |order| ==> 0 <= order[k] < |cnt|)
    && (forall i :: 0 <= i < |cnt| ==> i in order)
    && (forall k, j :: 0 <= k < j < |order| ==> order[k] != order[j])
    && (forall k, j :: 1 <= k < j < |order| ==> cnt[order[k]] >= cnt[order[j]])
  }

  /**
   * The renumbering loop of the sliced `buildIndex`: walking the sorted
   * order until the first entity without pixels, each entity gets the next
   * code and its record the next slot. Entity 0 (whose count is the largest
   * int) gets code 0, entities with a positive count get dense codes in
   * descending order of their counts, and all others get -1.
   */
  method RenumberSliced(cnt: array<int>, order: seq<int>, meta: seq<string>) returns (idmap: array<int>, c: nat, mmeta: seq<string>)
    requires SortedByCount(cnt[..], order) && cnt[0] > 0 && |meta| == cnt.Length
    ensures fresh(idmap)
    ensures RenumberedAll(cnt[..], order, meta, idmap[..], mmeta, c)
  {
    idmap := new int[cnt.Length](_ => -1);
    c := 0;
    mmeta := [];
    while c < |order| && cnt[order[c]] > 0
      invariant Renumbered(cnt[..], order, meta, idmap[..], mmeta, c)
    {
      var p := order[c];
      RenumberStep(cnt[..], order, meta, idmap[..], mmeta, c);
      idmap[p] := c;
      mmeta := mmeta + [meta[p]];
      c := c + 1;
    }
    RenumberDone(cnt[..], order, meta, idmap[..], mmeta, c);
  }

  /** The loop invariant of `RenumberSliced`: the first `c` entities of the order have their codes. */
  predicate Renumbered(cnt: seq<int>, order: seq<int>, meta: seq<string>, idmap: seq<int>, mmeta: seq<string>, c: nat)
    requires SortedByCount(cnt, order)
  {
    |idmap| == |cnt| && c <= |order| && |mmeta| == c
    && (forall j :: 0 <= j < c ==> cnt[order[j]] > 0 && idmap[order[j]] == j && order[j] < |meta| && mmeta[j] == meta[order[j]])
    && (forall i :: 0 <= i < |idmap| && i !in order[..c] ==> idmap[i] == -1)
  }

  /**
   * What the renumbering delivers: entity 0 gets code 0 and keeps its
   * record in slot 0; an entity gets -1 exactly when its count is not
   * positive; the others get the dense codes `0 .. c-1`, one entity per code
   * (the code's position in the order), with the record of each entity in
   * the slot of its code; and a smaller nonzero code never has a smaller
   * count.
   */
  predicate RenumberedAll(cnt: seq<int>, order: seq<int>, meta: seq<string>, idmap: seq<int>, mmeta: seq<string>, c: nat)
    requires SortedByCount(cnt, order) && |meta| == |cnt|
  {
    |idmap| == |cnt| && 1 <= c <= |cnt| && |mmeta| == c && idmap[0] == 0 && mmeta[0] == meta[0]
    && (forall i :: 0 <= i < |cnt| ==> (idmap[i] == -1 <==> cnt[i] <= 0))
    && (forall i :: 0 <= i < |cnt| && cnt[i] > 0 ==> 0 <= idmap[i] < c && order[idmap[i]] == i && mmeta[idmap[i]] == meta[i])
    && (forall j :: 0 <= j < c ==> idmap[order[j]] == j)
    && (forall p, q :: 0 <= p < |cnt| && 0 <= q < |cnt| && 0 < idmap[p] < idmap[q] ==> cnt[p] >= cnt[q])
  }

  lemma {:induction false} RenumberStep(cnt: seq<int>, order: seq<int>, meta: seq<string>, idmap: seq<int>, mmeta: seq<string>, c: nat)
    requires SortedByCount(cnt, order) && |meta| == |cnt| && Renumbered(cnt, order, meta, idmap, mmeta, c)
    requires c < |order| && cnt[order[c]] > 0
    ensures Renumbered(cnt, order, meta, idmap[order[c] := c], mmeta + [meta[order[c]]], c + 1)
  {
    var p := order[c];
    assert forall j :: 0 <= j < c ==> order[j] != p;
    assert order[..c + 1] == order[..c] + [p];
  }

  /** When the walk stops, the codes are complete. */
  lemma {:induction false} RenumberDone(cnt: seq<int>, order: seq<int>, meta: seq<string>, idmap: seq<int>, mmeta: seq<string>, c: nat)
    requires SortedByCount(cnt, order) && |meta| == |cnt| && cnt[0] > 0 && Renumbered(cnt, order, meta, idmap, mmeta, c)
    requires c == |order| || cnt[order[c]] <= 0
    ensures RenumberedAll(cnt, order, meta, idmap, mmeta, c)
  {
    forall i | 0 <= i < |cnt| && cnt[i] > 0
      ensures 0 <= idmap[i] < c && order[idmap[i]] == i
    {
      assert i in order;
      var k :| 0 <= k < |order| && order[k] == i;
      assert k < c;
    }
  }
}
