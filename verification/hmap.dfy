/**
 * The two-level hash map from 64-bit node ids to values
 * (`LongIntHierarchicalMap`, `LongLongHierarchicalMap`,
 * `LongObjectHierarchicalMap`; the three differ only in the value type, so
 * one generic class models them).
 *
 * A key is split into a 32-bit prefix `(int)(id >>> 16)`, which selects a
 * chunk of the top map, and a 16-bit suffix `(short)(id & 0xFFFF)`, the key
 * inside that chunk. Only the default layout (`shift` 16) is used, so
 * `maxid` is 2^48. The hash maps themselves are Dafny maps; the suffix
 * short is kept as its 16-bit pattern, which the cast maps one to one.
 */
module HierarchicalMap {
  import opened Binary

  type i64 = x: int | -0x8000_0000_0000_0000 <= x < 0x8000_0000_0000_0000
  type u16 = x: int | 0 <= x < 0x1_0000

  /** `DEFAULT_SHIFT`. */
  const SHIFT: nat := 16
  /** `maxid = 1L << (shift + 32)`. */
  const MAXID: int := 0x1_0000_0000_0000

  /** Chunks of the top map, keyed by prefix; each maps suffixes to values. */
  type Top<V> = map<i32, map<u16, V>>

  /** Lookups throw for `id >= maxid`. */
  datatype MapError = TooLarge

  /** `(int) (id >>> shift)`: the unsigned shift of the 64-bit pattern, cut to 32 bits. */
  function Prefix(id: i64): i32
  {
    ToI32(((id % 0x1_0000_0000_0000_0000) / 0x1_0000) % 0x1_0000_0000)
  }

  /** `(short) (id & mask)`: the low 16 bits of the two's complement pattern. */
  function Suffix(id: i64): u16
  {
    id % 0x1_0000
  }

  /** The value stored under `id`, read through its chunk. */
  function FindIn<V>(t: Top<V>, id: i64): Option<V>
  {
    var p := Prefix(id);
    var s := Suffix(id);
    if p in t && s in t[p] then Some(t[p][s]) else None
  }

  /** `put`: creates the chunk when missing, then stores under the suffix. */
  function PutIn<V>(t: Top<V>, id: i64, v: V): Top<V>
  {
    var p := Prefix(id);
    var chunk := if p in t then t[p] else map[];
    t[p := chunk[Suffix(id) := v]]
  }

  /** In range, prefix and suffix together determine the id. */
  lemma {:induction false} KeySplitInjective(a: i64, b: i64)
    requires 0 <= a < MAXID && 0 <= b < MAXID
    ensures Prefix(a) == Prefix(b) && Suffix(a) == Suffix(b) ==> a == b
  {
    PrefixInRange(a);
    PrefixInRange(b);
  }

  /** In range, the prefix is the id's quotient by 2^16, read as a signed int. */
  lemma {:induction false} PrefixInRange(a: i64)
    requires 0 <= a < MAXID
    ensures 0 <= a / 0x1_0000 < 0x1_0000_0000
    ensures a == (a / 0x1_0000) * 0x1_0000 + Suffix(a)
    ensures Prefix(a) == ToI32(a / 0x1_0000)
  {
    assert a % 0x1_0000_0000_0000_0000 == a;
  }

  /** After `put(id, v)` the key reads back `v`. */
  lemma {:induction false} PutFindSame<V>(t: Top<V>, id: i64, v: V)
    ensures FindIn(PutIn(t, id, v), id) == Some(v)
  {
  }

  /** `put(id, v)` leaves every other key in `[0, maxid)` as it was. */
  lemma {:induction false} PutFindOther<V>(t: Top<V>, id: i64, v: V, j: i64)
    requires 0 <= id < MAXID && 0 <= j < MAXID && j != id
    ensures FindIn(PutIn(t, id, v), j) == FindIn(t, j)
  {
    KeySplitInjective(id, j);
  }

  /** The number of entries summed over all chunks: `computeSize`'s result. */
  ghost function SizeOf<V>(t: Top<V>): nat
  {
    SumOver(t, t.Keys)
  }

  /** The entries of the chunks named in `ks`, summed in an arbitrary order (hash order is not modelled). */
  ghost function SumOver<V>(t: Top<V>, ks: set<i32>): nat
    requires ks <= t.Keys
    decreases ks
  {
    if ks == {} then 0
    else
      var p := Pick(ks);
      |t[p]| + SumOver(t, ks - {p})
  }

  ghost function Pick(ks: set<i32>): (p: i32)
    requires ks != {}
    ensures p in ks
  {
    var k :| k in ks; k
  }

  /** The sum does not depend on the chunk taken first. */
  lemma {:induction false} SumRemove<V>(t: Top<V>, ks: set<i32>, p: i32)
    requires ks <= t.Keys && p in ks
    ensures SumOver(t, ks) == |t[p]| + SumOver(t, ks - {p})
    decreases ks
  {
    var q := Pick(ks);
    if q != p {
      SumRemove(t, ks - {q}, p);
      SumRemove(t, ks - {p}, q);
      assert ks - {q} - {p} == ks - {p} - {q};
    }
  }

  /** The sum reads only the sizes of the chunks it names. */
  lemma {:induction false} SumFrame<V>(t: Top<V>, u: Top<V>, ks: set<i32>)
    requires ks <= t.Keys && ks <= u.Keys
    requires forall k :: k in ks ==> |t[k]| == |u[k]|
    ensures SumOver(t, ks) == SumOver(u, ks)
    decreases ks
  {
    if ks != {} {
      SumFrame(t, u, ks - {Pick(ks)});
    }
  }

  /** `put` adds one entry exactly when the key was absent. */
  lemma {:induction false} PutSize<V>(t: Top<V>, id: i64, v: V)
    ensures SizeOf(PutIn(t, id, v)) == SizeOf(t) + (if FindIn(t, id).None? then 1 else 0)
  {
    var p, s := Prefix(id), Suffix(id);
    var r := PutIn(t, id, v);
    SumRemove(r, r.Keys, p);
    if p in t {
      SumRemove(t, t.Keys, p);
      assert r.Keys - {p} == t.Keys - {p};
      SumFrame(r, t, t.Keys - {p});
      assert r[p].Keys == t[p].Keys + {s};
      if s in t[p] {
        assert r[p].Keys == t[p].Keys;
      } else {
        assert |r[p].Keys| == |t[p].Keys| + 1;
      }
    } else {
      assert r.Keys - {p} == t.Keys;
      SumFrame(r, t, t.Keys);
      assert r[p] == map[s := v];
    }
  }

  /** The top map after putting `ids[i] -> vals[i]` in order, starting from `t`. */
  function PutAll<V>(t: Top<V>, ids: seq<i64>, vals: seq<V>): Top<V>
    requires |ids| == |vals|
    decreases |ids|
  {
    if ids == [] then t
    else
      var n := |ids| - 1;
      PutIn(PutAll(t, ids[..n], vals[..n]), ids[n], vals[n])
  }

  /** A key is present after a series of puts iff it was one of the in-range ids put. */
  lemma {:induction false} PutAllFind<V>(ids: seq<i64>, vals: seq<V>, j: i64)
    requires |ids| == |vals|
    requires forall i :: 0 <= i < |ids| ==> 0 <= ids[i] < MAXID
    requires 0 <= j < MAXID
    ensures FindIn(PutAll(map[], ids, vals), j).Some? <==> j in ids
    decreases |ids|
  {
    if ids != [] {
      var n := |ids| - 1;
      PutAllFind(ids[..n], vals[..n], j);
      if j == ids[n] {
        PutFindSame(PutAll(map[], ids[..n], vals[..n]), ids[n], vals[n]);
      } else {
        PutFindOther(PutAll(map[], ids[..n], vals[..n]), ids[n], vals[n], j);
        assert j in ids <==> j in ids[..n] by {
          assert ids == ids[..n] + [ids[n]];
        }
      }
    }
  }

  /**
   * Starting from an empty map, `computeSize` after a series of puts of
   * in-range ids is the number of distinct ids put.
   */
  lemma {:induction false} PutAllSize<V>(ids: seq<i64>, vals: seq<V>)
    requires |ids| == |vals|
    requires forall i :: 0 <= i < |ids| ==> 0 <= ids[i] < MAXID
    ensures SizeOf(PutAll(map[], ids, vals)) == |Distinct(ids)|
    decreases |ids|
  {
    if ids == [] {
      assert Distinct(ids) == {};
    } else {
      var n := |ids| - 1;
      var init, last := ids[..n], ids[n];
      var t := PutAll(map[], init, vals[..n]);
      PutAllSize(init, vals[..n]);
      PutSize(t, last, vals[n]);
      PutAllFind(init, vals[..n], last);
      DistinctAppend(init, last);
      assert ids == init + [last];
    }
  }

  /** The distinct ids of a sequence. */
  function Distinct(s: seq<i64>): set<i64>
  {
    set i | i in s
  }

  lemma {:induction false} DistinctAppend(s: seq<i64>, x: i64)
    ensures |Distinct(s + [x])| == |Distinct(s)| + (if x in s then 0 else 1)
  {
    assert Distinct(s + [x]) == Distinct(s) + {x};
    if x in s {
      assert Distinct(s + [x]) == Distinct(s);
    } else {
      assert x !in Distinct(s);
    }
  }

  /** Negative ids pass the lookup check, and `put` checks nothing: keys outside `[0, maxid)` alias keys inside. */
  lemma {:induction false} PutAliases<V>(t: Top<V>, v: V)
    ensures FindIn(PutIn(t, MAXID + 5, v), 5) == Some(v)
    ensures FindIn(PutIn(t, -1, v), MAXID - 1) == Some(v)
  {
    assert Prefix(MAXID + 5) == Prefix(5) == 0 && Suffix(MAXID + 5) == Suffix(5);
    assert Prefix(-1) == Prefix(MAXID - 1) == -1 && Suffix(-1) == Suffix(MAXID - 1);
  }

  /** `put` with the range check the lookups evidently intend: ids outside `[0, maxid)` are refused. */
  function PutChecked<V>(t: Top<V>, id: i64, v: V): (r: Result<Top<V>, MapError>)
    ensures r.Ok? <==> 0 <= id < MAXID
  {
    if id < 0 || id >= MAXID then Err(TooLarge) else Ok(PutIn(t, id, v))
  }

  /** Whatever the id, a checked put changes no other in-range key. */
  lemma {:induction false} PutCheckedIsolated<V>(t: Top<V>, id: i64, v: V, j: i64)
    requires 0 <= j < MAXID && j != id
    ensures PutChecked(t, id, v).Ok? ==> FindIn(PutChecked(t, id, v).value, j) == FindIn(t, j)
    ensures PutChecked(t, id, v).Ok? ==> FindIn(PutChecked(t, id, v).value, id) == Some(v)
  {
    if 0 <= id < MAXID {
      PutFindOther(t, id, v, j);
      PutFindSame(t, id, v);
    }
  }

  /** The values of a chunk, listed in the order `keys` enumerates its suffixes. */
  function ChunkValues<V>(c: map<u16, V>, keys: seq<u16>): (r: seq<V>)
    requires forall i :: 0 <= i < |keys| ==> keys[i] in c
    ensures |r| == |keys|
  {
    seq(|keys|, i requires 0 <= i < |keys| => c[keys[i]])
  }

  /** `s` lists the elements of `S`, each once. */
  predicate Enumerates<K>(s: seq<K>, S: set<K>)
  {
    (forall i :: 0 <= i < |s| ==> s[i] in S)
    && (forall x :: x in S ==> x in s)
    && (forall i, j :: 0 <= i < j < |s| ==> s[i] != s[j])
  }

  /** The concatenation of a sequence of value lists. */
  function Flatten<V>(chunks: seq<seq<V>>): seq<V>
  {
    if chunks == [] then [] else chunks[0] + Flatten(chunks[1..])
  }

  /** The value lists of the chunks, visited in the order `order`. */
  function ChunksIn<V>(t: Top<V>, order: seq<i32>, slots: map<i32, seq<u16>>): (r: seq<seq<V>>)
    requires forall i :: 0 <= i < |order| ==> order[i] in t && order[i] in slots
    requires forall p :: p in t && p in slots ==> Enumerates(slots[p], t[p].Keys)
    ensures |r| == |order|
  {
    seq(|order|, i requires 0 <= i < |order| =>
      var p := order[i];
      assert Enumerates(slots[p], t[p].Keys);
      ChunkValues(t[p], slots[p]))
  }

  lemma {:induction false} EnumeratesSize<K>(s: seq<K>, S: set<K>)
    requires Enumerates(s, S)
    ensures |s| == |S|
    decreases |s|
  {
    if s != [] {
      var rest := s[1..];
      assert Enumerates(rest, S - {s[0]}) by {
        forall x | x in S - {s[0]}
          ensures x in rest
        {
          var i :| 0 <= i < |s| && s[i] == x;
          assert i != 0;
          assert rest[i - 1] == x;
        }
      }
      EnumeratesSize(rest, S - {s[0]});
    } else {
      assert forall x :: x in S ==> x in s;
    }
  }

  /**
   * Visiting the chunks named in `ks` once each, and every suffix of each
   * chunk once, yields as many values as those chunks hold.
   */
  lemma {:induction false} ValuesCount<V>(t: Top<V>, ks: set<i32>, order: seq<i32>, slots: map<i32, seq<u16>>)
    requires ks <= t.Keys && Enumerates(order, ks)
    requires forall p :: p in t ==> p in slots && Enumerates(slots[p], t[p].Keys)
    ensures |Flatten(ChunksIn(t, order, slots))| == SumOver(t, ks)
    decreases |order|
  {
    if order == [] {
      assert forall p :: p in ks ==> p in order;
    } else {
      var p := order[0];
      var rest := order[1..];
      assert Enumerates(rest, ks - {p}) by {
        forall x | x in ks - {p}
          ensures x in rest
        {
          var i :| 0 <= i < |order| && order[i] == x;
          assert i != 0;
          assert rest[i - 1] == x;
        }
      }
      ValuesCount(t, ks - {p}, rest, slots);
      var all := ChunksIn(t, order, slots);
      assert all[1..] == ChunksIn(t, rest, slots);
      EnumeratesSize(slots[p], t[p].Keys);
      assert |t[p].Keys| == |t[p]|;
      SumRemove(t, ks, p);
    }
  }

  lemma {:induction false} FlattenMember<V>(chunks: seq<seq<V>>, x: V)
    ensures x in Flatten(chunks) <==> exists i :: 0 <= i < |chunks| && x in chunks[i]
    decreases |chunks|
  {
    if chunks != [] {
      FlattenMember(chunks[1..], x);
      if x in chunks[0] {
      } else if exists i :: 0 <= i < |chunks| && x in chunks[i] {
        var i :| 0 <= i < |chunks| && x in chunks[i];
        assert i != 0;
        assert x in chunks[1..][i - 1];
      }
    }
  }

  /** A value is visited exactly when some stored key holds it. */
  lemma {:induction false} ValuesMember<V>(t: Top<V>, order: seq<i32>, slots: map<i32, seq<u16>>, x: V)
    requires Enumerates(order, t.Keys)
    requires forall p :: p in t ==> p in slots && Enumerates(slots[p], t[p].Keys)
    ensures x in Flatten(ChunksIn(t, order, slots)) <==> exists p, s :: p in t && s in t[p] && t[p][s] == x
  {
    var all := ChunksIn(t, order, slots);
    FlattenMember(all, x);
    if exists p, s :: p in t && s in t[p] && t[p][s] == x {
      var p, s :| p in t && s in t[p] && t[p][s] == x;
      var i :| 0 <= i < |order| && order[i] == p;
      var k :| 0 <= k < |slots[p]| && slots[p][k] == s;
      assert all[i][k] == x;
    }
    if x in Flatten(all) {
      var i :| 0 <= i < |all| && x in all[i];
      var k :| 0 <= k < |all[i]| && all[i][k] == x;
      assert t[order[i]][slots[order[i]][k]] == x;
    }
  }

  /** `ValueIterator`: the current chunk's remaining values and the chunks not yet entered. */
  class ValueIterator<V> {
    var outer: seq<seq<V>>
    var inner: seq<V>

    /** The values still to come. */
    function Remaining(): seq<V>
      reads this
    {
      inner + Flatten(outer)
    }

    /** Enters the first chunk, if any. */
    constructor (chunks: seq<seq<V>>)
      ensures Remaining() == Flatten(chunks)
    {
      if chunks != [] {
        inner := chunks[0];
        outer := chunks[1..];
      } else {
        inner := [];
        outer := [];
      }
    }

    /** `hasNext`: skips exhausted chunks; what remains is unchanged. */
    method HasNext() returns (b: bool)
      modifies this
      ensures b <==> Remaining() != []
      ensures Remaining() == old(Remaining())
      ensures b ==> inner != []
    {
      while inner == []
        invariant Remaining() == old(Remaining())
        decreases |outer|
      {
        if outer == [] {
          return false;
        }
        inner, outer := outer[0], outer[1..];
      }
      return true;
    }

    /** `next`: the first remaining value; `None` where Java throws `NoSuchElementException`. */
    method Next() returns (r: Option<V>)
      modifies this
      ensures old(Remaining()) == [] ==> r == None && Remaining() == []
      ensures old(Remaining()) != [] ==> r == Some(old(Remaining())[0]) && Remaining() == old(Remaining())[1..]
    {
      var b := HasNext();
      if !b {
        return None;
      }
      r := Some(inner[0]);
      inner := inner[1..];
    }
  }

  class HierarchicalMap<V> {
    var topmap: Top<V>

    /** The default constructor: an empty top map. */
    constructor ()
      ensures topmap == map[]
    {
      topmap := map[];
    }

    /** `containsKey`: `TooLarge` from `maxid` up, else whether the key is stored. */
    function ContainsKey(id: i64): (r: Result<bool, MapError>)
      reads this
      ensures r.Err? <==> id >= MAXID
      ensures r.Ok? ==> (r.value <==> FindIn(topmap, id).Some?)
    {
      if id >= MAXID then Err(TooLarge)
      else
        var p := Prefix(id);
        Ok(p in topmap && Suffix(id) in topmap[p])
    }

    /** `getIfAbsent` (and `getOrDefault`): the stored value, or `notfound` when the chunk or the suffix is absent. */
    function GetIfAbsent(id: i64, notfound: V): (r: Result<V, MapError>)
      reads this
      ensures r.Err? <==> id >= MAXID
      ensures r.Ok? && FindIn(topmap, id).Some? ==> r.value == FindIn(topmap, id).value
      ensures r.Ok? && FindIn(topmap, id).None? ==> r.value == notfound
    {
      if id >= MAXID then Err(TooLarge)
      else
        var p := Prefix(id);
        if p !in topmap then Ok(notfound)
        else if Suffix(id) in topmap[p] then Ok(topmap[p][Suffix(id)])
        else Ok(notfound)
    }

    /** `get` of the object map: `None` stands for `null`. */
    function Get(id: i64): (r: Result<Option<V>, MapError>)
      reads this
      ensures r.Err? <==> id >= MAXID
      ensures r.Ok? ==> r.value == FindIn(topmap, id)
    {
      if id >= MAXID then Err(TooLarge)
      else
        var p := Prefix(id);
        if p !in topmap then Ok(None)
        else if Suffix(id) in topmap[p] then Ok(Some(topmap[p][Suffix(id)]))
        else Ok(None)
    }

    /** `put`: no range check; the key reads back `v`, and other in-range keys keep their values. */
    method Put(id: i64, v: V)
      modifies this
      ensures topmap == PutIn(old(topmap), id, v)
      ensures FindIn(topmap, id) == Some(v)
      ensures 0 <= id < MAXID ==> forall j: i64 :: 0 <= j < MAXID && j != id ==> FindIn(topmap, j) == FindIn(old(topmap), j)
      ensures SizeOf(topmap) == old(SizeOf(topmap)) + (if old(FindIn(topmap, id)).None? then 1 else 0)
    {
      var p := Prefix(id);
      var chunk := if p in topmap then topmap[p] else map[];
      PutSize(topmap, id, v);
      if 0 <= id < MAXID {
        forall j: i64 | 0 <= j < MAXID && j != id
          ensures FindIn(PutIn(topmap, id, v), j) == FindIn(topmap, j)
        {
          PutFindOther(topmap, id, v, j);
        }
      }
      topmap := topmap[p := chunk[Suffix(id) := v]];
    }

    /** `computeSize`: sums the chunk sizes. */
    method ComputeSize() returns (size: nat)
      ensures size == SizeOf(topmap)
    {
      size := 0;
      var rest := topmap.Keys;
      while rest != {}
        invariant rest <= topmap.Keys
        invariant size + SumOver(topmap, rest) == SizeOf(topmap)
        decreases rest
      {
        var p :| p in rest;
        SumRemove(topmap, rest, p);
        size := size + |topmap[p]|;
        rest := rest - {p};
      }
    }

    /**
     * `valueIterator`: the chunks in the top map's iteration order `order`,
     * each chunk's values in its iteration order `slots[p]`.
     */
    method Values(order: seq<i32>, slots: map<i32, seq<u16>>) returns (it: ValueIterator<V>)
      requires Enumerates(order, topmap.Keys)
      requires forall p :: p in topmap ==> p in slots && Enumerates(slots[p], topmap[p].Keys)
      ensures fresh(it)
      ensures it.Remaining() == Flatten(ChunksIn(topmap, order, slots))
      ensures |it.Remaining()| == SizeOf(topmap)
    {
      ValuesCount(topmap, topmap.Keys, order, slots);
      it := new ValueIterator(ChunksIn(topmap, order, slots));
    }
  }
}
