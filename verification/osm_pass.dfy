/**
 * The first two passes of `ParseOSM` over an OpenStreetMap extract, and the
 * coordinate packing they share with the third pass.
 *
 * The first pass keeps every way's node ids with one extra flag slot
 * (bit 2: a closed way with an `admin_level` or `boundary` key; bit 1: a
 * member of a relation with an `admin_level` key), then drops the ways
 * whose flag stayed 0 and enters each remaining node into the node map with
 * the placeholder `Integer.MIN_VALUE`. The second pass stores the packed
 * coordinates of exactly the nodes already in the map.
 *
 * Ids are absolute here; the delta decoding of the PBF blocks is not part
 * of this model.
 */
module OsmPass {
  import opened Binary
  import opened HierarchicalMap

  datatype PassError = EmptyWay | NoNodesToKeep | NoNodesKept

  // ---------------------------------------------------------------------
  // Packed coordinates
  // ---------------------------------------------------------------------

  /** `(ilat << 16) | ilon` on Java `int`s. */
  function Pack(ilon: i32, ilat: i32): i32
  {
    ToI32(Or32(Shl32(ToU32(ilat), 16), ToU32(ilon)))
  }

  /** `val & 0xFFFF`. */
  function LonBits(val: i32): nat
  {
    ToU32(val) % 0x1_0000
  }

  /** `val >>> 16`. */
  function LatBits(val: i32): nat
  {
    ToU32(val) / 0x1_0000
  }

  /** The number whose upper 16 bits are `hi` and lower 16 bits are `lo`. */
  function Halves(hi: int, lo: int): int
  {
    hi * 0x1_0000 + lo
  }

  /** Within the asserted ranges the two halves do not overlap. */
  lemma {:induction false} PackExact(ilon: i32, ilat: i32)
    requires 0 <= ilon < 0xFFFF && 0 <= ilat < 0x8000
    ensures Pack(ilon, ilat) == Halves(ilat, ilon)
  {
    Pow2Values();
    ScaleMul(ilat, 16);
    var hi := Scale(ilat, 16);
    assert hi == ilat * 0x1_0000;
    assert ToU32(ilat) == ilat && ToU32(ilon) == ilon;
    assert Shl32(ilat, 16) == hi by {
      assert 0 <= hi < TWO_32;
    }
    BitOrDisjoint(ilon, ilat, 16);
    BitOrComm(ilon, hi);
    Or32Exact(hi, ilon);
    assert Or32(hi, ilon) == ilon + hi;
  }

  /**
   * The indexer's `encodeLonLat` on the rounded hundredths of
   * `lon + 180` and `lat + 90`, and its `decodeLon`/`decodeLat` before the
   * scaling back: both halves come back, and a packed value is neither
   * `Integer.MIN_VALUE` (a node without coordinates) nor
   * `Integer.MAX_VALUE` (no coordinate written yet).
   */
  lemma {:induction false} ConvPackRoundTrip(ilon: i32, ilat: i32)
    requires 0 <= ilon < 0xFFFF && 0 <= ilat < 0x8000
    ensures LonBits(Pack(ilon, ilat)) == ilon && LatBits(Pack(ilon, ilat)) == ilat
    ensures 0 <= Pack(ilon, ilat) < INT_MAX
  {
    PackExact(ilon, ilat);
    SplitHalves(ilat, ilon);
  }

  lemma {:induction false} SplitHalves(hi: nat, lo: nat)
    requires hi < 0x8000 && lo < 0xFFFF
    ensures 0 <= Halves(hi, lo) < INT_MAX
    ensures LonBits(Halves(hi, lo) as i32) == lo && LatBits(Halves(hi, lo) as i32) == hi
  {
    var v := Halves(hi, lo);
    assert 0 <= v < INT_MAX;
    assert ToU32(v as i32) == v;
    assert v % 0x1_0000 == lo && v / 0x1_0000 == hi;
  }

  /** The builder's `encodeLonLat` on the rounded hundredths: shifted by 0x8000 and 0x4000. */
  function BuildEncode(ilon: i32, ilat: i32): i32
  {
    Pack(AddI32(ilon, 0x8000), AddI32(ilat, 0x4000))
  }

  /** The builder's `decodeLon` before the scaling. */
  function BuildDecodeLon(val: i32): int
  {
    LonBits(val) - 0x8000
  }

  /** The builder's `decodeLat` before the scaling. */
  function BuildDecodeLat(val: i32): int
  {
    LatBits(val) - 0x4000
  }

  /** The builder's packing is undone by its decoding, and never yields either sentinel. */
  lemma {:induction false} BuildPackRoundTrip(ilon: i32, ilat: i32)
    requires -0x8000 <= ilon < 0x7FFF && -0x4000 <= ilat < 0x4000
    ensures BuildDecodeLon(BuildEncode(ilon, ilat)) == ilon && BuildDecodeLat(BuildEncode(ilon, ilat)) == ilat
    ensures 0 <= BuildEncode(ilon, ilat) < INT_MAX
  {
    AddNoWrap(ilon, 0x8000);
    AddNoWrap(ilat, 0x4000);
    ConvPackRoundTrip(ilon + 0x8000, ilat + 0x4000);
  }

  // ---------------------------------------------------------------------
  // First pass: ways and relations
  // ---------------------------------------------------------------------

  /** A way as the first pass keeps it: its node ids and the flag slot after them. */
  datatype WayData = WayData(nodes: seq<i64>, flag: nat)

  datatype MemberType = NodeMember | WayMember | RelationMember

  datatype Member = Member(kind: MemberType, id: i64, role: string)

  predicate IsAdminKey(k: string)
  {
    k == "admin_level" || k == "boundary"
  }

  predicate HasAdminKey(keys: seq<string>)
  {
    exists i :: 0 <= i < |keys| && IsAdminKey(keys[i])
  }

  predicate HasAdminLevel(keys: seq<string>)
  {
    exists i :: 0 <= i < |keys| && keys[i] == "admin_level"
  }

  /**
   * The indexer's `parseWays` for one way: a way without nodes fails
   * (reading `nodes[rcount - 1]`); otherwise the flag is 2 exactly for a
   * closed way with an admin key.
   */
  function ConvWayData(refs: seq<i64>, keys: seq<string>): (r: Result<WayData, PassError>)
    ensures r.Err? <==> refs == []
    ensures r.Ok? ==> r.value.nodes == refs
    ensures r.Ok? ==> (r.value.flag == 2 <==> refs[0] == refs[|refs| - 1] && HasAdminKey(keys))
    ensures r.Ok? ==> r.value.flag in {0, 2}
  {
    if refs == [] then Err(EmptyWay)
    else
      var slots := refs + [0];
      Ok(WayData(refs, if slots[0] == slots[|refs| - 1] && HasAdminKey(keys) then 2 else 0))
  }

  /** The builder's `parseWays` for one way, as written: it compares the first node with the flag slot. */
  function BuildWayData(refs: seq<i64>, keys: seq<string>): WayData
  {
    var slots := refs + [0];
    WayData(refs, if slots[0] == slots[|refs|] && HasAdminKey(keys) then 2 else 0)
  }

  /** The builder misses a closed boundary way, and flags an open one whose first node id is 0. */
  lemma {:induction false} BuildWayFlagWrong()
    ensures BuildWayData([5, 7, 5], ["admin_level"]).flag == 0
    ensures ConvWayData([5, 7, 5], ["admin_level"]) == Ok(WayData([5, 7, 5], 2))
    ensures BuildWayData([0, 7, 9], ["boundary"]).flag == 2
    ensures ConvWayData([0, 7, 9], ["boundary"]) == Ok(WayData([0, 7, 9], 0))
  {
    assert IsAdminKey(["admin_level"][0]);
    assert IsAdminKey(["boundary"][0]);
  }

  /** `|= 1`: a flag with the relation bit set. */
  function OrOne(f: nat): (r: nat)
    ensures r == 2 * (f / 2) + 1
  {
    if f == 0 then BitOr(f, 1)
    else
      assert BitOr(f / 2, 0) == f / 2;
      BitOr(f, 1)
  }

  predicate IsWayMember(ms: seq<Member>, x: i64)
  {
    exists i :: 0 <= i < |ms| && ms[i].kind == WayMember && ms[i].id == x
  }

  /** The second loop of `parseRelation`: every known way among the members gets the relation bit. */
  function MarkWays(ws: map<i64, WayData>, ms: seq<Member>): map<i64, WayData>
    decreases |ms|
  {
    if ms == [] then ws
    else
      var w := MarkWays(ws, ms[..|ms| - 1]);
      var m := ms[|ms| - 1];
      if m.kind == WayMember && m.id in w then w[m.id := w[m.id].(flag := OrOne(w[m.id].flag))] else w
  }

  /**
   * Marking keeps every way and its nodes; a way listed as a way member
   * ends with the relation bit set and the other bits kept, any other way
   * keeps its flag.
   */
  lemma {:induction false} MarkWaysSpec(ws: map<i64, WayData>, ms: seq<Member>, x: i64)
    ensures MarkWays(ws, ms).Keys == ws.Keys
    ensures x in ws ==> MarkWays(ws, ms)[x].nodes == ws[x].nodes
    ensures x in ws ==> MarkWays(ws, ms)[x].flag == if IsWayMember(ms, x) then OrOne(ws[x].flag) else ws[x].flag
    decreases |ms|
  {
    if ms != [] {
      var n := |ms| - 1;
      MarkWaysSpec(ws, ms[..n], x);
      if ms[n].kind == WayMember && ms[n].id in ws {
        MarkWaysSpec(ws, ms[..n], ms[n].id);
      }
      assert forall i :: 0 <= i < n ==> ms[..n][i] == ms[i];
    }
  }

  /** The ways kept by `complete()`: those with a non-zero flag. */
  function Pruned(ws: map<i64, WayData>): (r: map<i64, WayData>)
    ensures forall x :: x in r <==> x in ws && ws[x].flag != 0
    ensures forall x :: x in r ==> r[x] == ws[x]
  {
    map x | x in ws && ws[x].flag != 0 :: ws[x]
  }

  /** A `put` of `v` never takes `v` away from another key, whatever chunk it lands in. */
  lemma {:induction false} PutKeepsValue<V>(t: Top<V>, id: i64, v: V, j: i64)
    requires FindIn(t, j) == Some(v)
    ensures FindIn(PutIn(t, id, v), j) == Some(v)
  {
  }

  /** A `put` on a stored key changes no key's presence. */
  lemma {:induction false} PutStoredKeepsKeys<V>(t: Top<V>, id: i64, v: V, j: i64)
    requires FindIn(t, id).Some?
    ensures FindIn(PutIn(t, id, v), j).Some? <==> FindIn(t, j).Some?
  {
  }

  /** The placeholder the first pass stores for every wanted node, `n` times. */
  function Markers(n: nat): seq<i32>
  {
    seq(n, k => INT_MIN)
  }

  /** Ids that share a chunk and a suffix: the node map cannot tell them apart. */
  predicate SameSlot(a: i64, b: i64)
  {
    Prefix(a) == Prefix(b) && Suffix(a) == Suffix(b)
  }

  /** Some id of `ids` is stored in the slot of `j`. */
  ghost predicate SlotIn(ids: seq<i64>, j: i64)
  {
    exists i :: 0 <= i < |ids| && SameSlot(ids[i], j)
  }

  /** Some node of some way of `ws` is stored in the slot of `j`. */
  ghost predicate SlotOnWays(ws: map<i64, WayData>, j: i64)
  {
    exists x :: x in ws && SlotIn(ws[x].nodes, j)
  }

  /**
   * Entering a list of nodes with the placeholder: a slot some node lands
   * in holds the placeholder, every other slot is as before.
   */
  lemma {:induction false} PutMarkers(t: Top<i32>, ids: seq<i64>, j: i64)
    ensures FindIn(PutAll(t, ids, Markers(|ids|)), j) == if SlotIn(ids, j) then Some(INT_MIN) else FindIn(t, j)
    decreases |ids|
  {
    if ids != [] {
      var n := |ids| - 1;
      assert Markers(|ids|)[..n] == Markers(n);
      PutMarkers(t, ids[..n], j);
      if SlotIn(ids[..n], j) {
        var i :| 0 <= i < n && SameSlot(ids[..n][i], j);
        assert SameSlot(ids[i], j);
      }
      if SlotIn(ids, j) && !SameSlot(ids[n], j) {
        var i :| 0 <= i < |ids| && SameSlot(ids[i], j);
        assert ids[..n][i] == ids[i];
      }
    }
  }

  /** Adding a way adds exactly the slots of its nodes. */
  lemma {:induction false} SlotOnWaysAdd(ws: map<i64, WayData>, x: i64, w: WayData, j: i64)
    requires x !in ws
    ensures SlotOnWays(ws[x := w], j) <==> SlotOnWays(ws, j) || SlotIn(w.nodes, j)
  {
    if SlotOnWays(ws, j) {
      var y :| y in ws && SlotIn(ws[y].nodes, j);
      assert y in ws[x := w] && ws[x := w][y] == ws[y];
    }
    if SlotIn(w.nodes, j) {
      assert x in ws[x := w];
    }
  }

  /** For ids in range the slot is the id itself: the kept set is the set of nodes of the kept ways. */
  lemma {:induction false} SlotOnWaysInRange(ws: map<i64, WayData>, j: i64)
    requires 0 <= j < MAXID
    requires forall x, k :: x in ws && 0 <= k < |ws[x].nodes| ==> 0 <= ws[x].nodes[k] < MAXID
    ensures SlotOnWays(ws, j) <==> exists x, k :: x in ws && 0 <= k < |ws[x].nodes| && ws[x].nodes[k] == j
  {
    if SlotOnWays(ws, j) {
      var x :| x in ws && SlotIn(ws[x].nodes, j);
      var k :| 0 <= k < |ws[x].nodes| && SameSlot(ws[x].nodes[k], j);
      KeySplitInjective(ws[x].nodes[k], j);
    }
    if exists x, k :: x in ws && 0 <= k < |ws[x].nodes| && ws[x].nodes[k] == j {
      var x, k :| x in ws && 0 <= k < |ws[x].nodes| && ws[x].nodes[k] == j;
      assert SameSlot(ws[x].nodes[k], j);
    }
  }

  /** The first pass of the indexer's converter. */
  class FirstPass {
    var ways: map<i64, WayData>
    var nodemap: HierarchicalMap<i32>

    constructor ()
      ensures ways == map[] && nodemap.topmap == map[] && fresh(nodemap)
    {
      ways := map[];
      nodemap := new HierarchicalMap();
    }

    /** `parseWays` for one way with absolute node ids `refs`. */
    method ParseWay(id: i64, refs: seq<i64>, keys: seq<string>) returns (r: Result<(), PassError>)
      modifies this
      ensures r.Err? <==> refs == []
      ensures r.Ok? ==> ways == old(ways)[id := ConvWayData(refs, keys).value]
      ensures r.Err? ==> ways == old(ways)
      ensures nodemap == old(nodemap)
    {
      if |refs| == 0 {
        return Err(EmptyWay);
      }
      var flag := 0;
      if refs[0] == refs[|refs| - 1] {
        var i := 0;
        while i < |keys|
          invariant i <= |keys| && flag == 0
          invariant forall j :: 0 <= j < i ==> !IsAdminKey(keys[j])
        {
          if keys[i] == "admin_level" || keys[i] == "boundary" {
            assert IsAdminKey(keys[i]);
            flag := 2;
            break;
          }
          i := i + 1;
        }
      }
      ways := ways[id := WayData(refs, flag)];
      return Ok(());
    }

    /** `parseRelation`: only a relation with an `admin_level` key marks its way members. */
    method ParseRelation(keys: seq<string>, members: seq<Member>)
      modifies this
      ensures ways == if HasAdminLevel(keys) then MarkWays(old(ways), members) else old(ways)
      ensures nodemap == old(nodemap)
    {
      var keep := false;
      var i := 0;
      while i < |keys|
        invariant i <= |keys| && !keep
        invariant forall j :: 0 <= j < i ==> keys[j] != "admin_level"
      {
        if keys[i] == "admin_level" {
          keep := true;
          break;
        }
        i := i + 1;
      }
      if !keep {
        return;
      }
      ghost var start := ways;
      var k := 0;
      while k < |members|
        invariant k <= |members| && nodemap == old(nodemap)
        invariant ways == MarkWays(start, members[..k])
      {
        assert members[..k + 1][..k] == members[..k];
        var m := members[k];
        if m.kind == WayMember && m.id in ways {
          ways := ways[m.id := ways[m.id].(flag := OrOne(ways[m.id].flag))];
        }
        k := k + 1;
      }
      assert members[..k] == members;
    }

    /** Enters every node of `nodes` with the placeholder; values already equal to it stay. */
    method PutNodes(nodes: seq<i64>)
      modifies nodemap
      ensures nodemap.topmap == PutAll(old(nodemap.topmap), nodes, Markers(|nodes|))
      ensures forall k :: 0 <= k < |nodes| ==> FindIn(nodemap.topmap, nodes[k]) == Some(INT_MIN)
      ensures forall j: i64 :: FindIn(old(nodemap.topmap), j) == Some(INT_MIN) ==> FindIn(nodemap.topmap, j) == Some(INT_MIN)
    {
      ghost var start := nodemap.topmap;
      var i := 0;
      while i < |nodes|
        invariant i <= |nodes|
        invariant nodemap.topmap == PutAll(start, nodes[..i], Markers(i))
        invariant forall k :: 0 <= k < i ==> FindIn(nodemap.topmap, nodes[k]) == Some(INT_MIN)
        invariant forall j: i64 :: FindIn(start, j) == Some(INT_MIN) ==> FindIn(nodemap.topmap, j) == Some(INT_MIN)
      {
        ghost var before := nodemap.topmap;
        nodemap.Put(nodes[i], INT_MIN);
        assert nodes[..i + 1][..i] == nodes[..i] && Markers(i + 1)[..i] == Markers(i);
        forall j: i64 | FindIn(before, j) == Some(INT_MIN)
          ensures FindIn(nodemap.topmap, j) == Some(INT_MIN)
        {
          PutKeepsValue(before, nodes[i], INT_MIN, j);
        }
        i := i + 1;
      }
      assert nodes[..i] == nodes;
    }

    /**
     * `complete()`: drops the ways whose flag is 0, enters the nodes of the
     * others with the placeholder, and fails when the node map stays empty.
     */
    method Complete() returns (r: Result<(), PassError>)
      modifies this, nodemap
      ensures nodemap == old(nodemap)
      ensures ways == Pruned(old(ways))
      ensures forall x, k :: x in ways && 0 <= k < |ways[x].nodes| ==> FindIn(nodemap.topmap, ways[x].nodes[k]) == Some(INT_MIN)
      ensures forall j: i64 :: FindIn(old(nodemap.topmap), j) == Some(INT_MIN) ==> FindIn(nodemap.topmap, j) == Some(INT_MIN)
      ensures forall j: i64 :: FindIn(nodemap.topmap, j) == if SlotOnWays(ways, j) then Some(INT_MIN) else FindIn(old(nodemap.topmap), j)
      ensures r.Err? <==> SizeOf(nodemap.topmap) == 0
      ensures r.Err? ==> r.error == NoNodesToKeep
    {
      var all := ways;
      ghost var start := nodemap.topmap;
      var kept: map<i64, WayData> := map[];
      var rest := all.Keys;
      while rest != {}
        invariant nodemap == old(nodemap)
        invariant rest <= all.Keys
        invariant forall x :: x in kept <==> x in all && x !in rest && all[x].flag != 0
        invariant forall x :: x in kept ==> kept[x] == all[x]
        invariant forall x, k :: x in kept && 0 <= k < |kept[x].nodes| ==> FindIn(nodemap.topmap, kept[x].nodes[k]) == Some(INT_MIN)
        invariant forall j: i64 :: FindIn(start, j) == Some(INT_MIN) ==> FindIn(nodemap.topmap, j) == Some(INT_MIN)
        invariant forall j: i64 :: FindIn(nodemap.topmap, j) == if SlotOnWays(kept, j) then Some(INT_MIN) else FindIn(start, j)
        decreases rest
      {
        var x :| x in rest;
        if all[x].flag != 0 {
          ghost var before := nodemap.topmap;
          PutNodes(all[x].nodes);
          forall j: i64
            ensures FindIn(nodemap.topmap, j) == if SlotOnWays(kept[x := all[x]], j) then Some(INT_MIN) else FindIn(start, j)
          {
            PutMarkers(before, all[x].nodes, j);
            SlotOnWaysAdd(kept, x, all[x], j);
          }
          kept := kept[x := all[x]];
        }
        rest := rest - {x};
      }
      assert kept == Pruned(all);
      ways := kept;
      var size := nodemap.ComputeSize();
      if size == 0 {
        return Err(NoNodesToKeep);
      }
      return Ok(());
    }
  }

  // ---------------------------------------------------------------------
  // Second pass: coordinates
  // ---------------------------------------------------------------------

  /** The second pass: fills in the coordinates of the nodes the first pass asked for. */
  class SecondPass {
    var nodemap: HierarchicalMap<i32>
    var n2counter: nat

    constructor (nm: HierarchicalMap<i32>)
      ensures nodemap == nm && n2counter == 0
    {
      nodemap := nm;
      n2counter := 0;
    }

    /**
     * `processNode` with the node's packed coordinates: a node the map
     * does not hold is ignored, a held one takes `packed`; the set of held
     * nodes never changes. Ids from 2^48 up fail in `containsKey`.
     */
    method ProcessNode(id: i64, packed: i32) returns (r: Result<(), MapError>)
      modifies this, nodemap
      ensures nodemap == old(nodemap)
      ensures r.Err? <==> id >= MAXID
      ensures r.Ok? && old(FindIn(nodemap.topmap, id)).Some? ==>
        && nodemap.topmap == PutIn(old(nodemap.topmap), id, packed)
        && FindIn(nodemap.topmap, id) == Some(packed)
        && n2counter == old(n2counter) + 1
      ensures !(r.Ok? && old(FindIn(nodemap.topmap, id)).Some?) ==>
        nodemap.topmap == old(nodemap.topmap) && n2counter == old(n2counter)
      ensures forall j: i64 :: FindIn(nodemap.topmap, j).Some? <==> FindIn(old(nodemap.topmap), j).Some?
    {
      var c := nodemap.ContainsKey(id);
      if c.Err? {
        return Err(c.error);
      }
      if !c.value {
        return Ok(());
      }
      n2counter := n2counter + 1;
      ghost var before := nodemap.topmap;
      nodemap.Put(id, packed);
      forall j: i64
        ensures FindIn(nodemap.topmap, j).Some? <==> FindIn(before, j).Some?
      {
        PutStoredKeepsKeys(before, id, packed, j);
      }
      return Ok(());
    }

    /** `complete()`: fails when no node was kept. */
    method Complete() returns (r: Result<(), PassError>)
      ensures r.Err? <==> n2counter == 0
      ensures r.Err? ==> r.error == NoNodesKept
    {
      if n2counter == 0 {
        return Err(NoNodesKept);
      }
      return Ok(());
    }
  }
}
