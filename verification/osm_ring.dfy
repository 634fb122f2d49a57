/**
 * Writing way outlines and assembling rings from way fragments (the third
 * pass of `ParseOSM`; `appendToBuf`, `appendToBufReverse` and both
 * `ringAssignment` methods are the same in the indexer's converter and in
 * the builder).
 *
 * A fragment is the node-id list of an open way. Its flag is the extra
 * slot Java keeps after the nodes; here the flags are one array with a slot
 * per fragment. Node coordinates come from the node map (a
 * `LongIntHierarchicalMap`, modelled by its top map); `Integer.MIN_VALUE`
 * marks a node without coordinates. The buffer is a sequence of tokens:
 * characters, and one `Pt` per formatted coordinate pair.
 */
module OsmRing {
  import opened Binary
  import opened HierarchicalMap
  import OsmPass

  datatype Tok = Chr(c: char) | Pt(v: i32)

  /** `nodemap.getIfAbsent(id, Integer.MIN_VALUE)`. */
  function Coord(nm: Top<i32>, id: i64): i32
  {
    match FindIn(nm, id)
    case Some(v) => v
    case None => INT_MIN
  }

  /**
   * Below 2^48 `Coord` is the value `getIfAbsent` returns; from 2^48 on
   * `getIfAbsent` throws, which `Coord` does not model.
   */
  lemma {:induction false} CoordIsGetIfAbsent(m: HierarchicalMap<i32>, id: i64)
    ensures id < MAXID ==> m.GetIfAbsent(id, INT_MIN) == Ok(Coord(m.topmap, id))
    ensures id >= MAXID ==> m.GetIfAbsent(id, INT_MIN).Err?
  {
  }

  /**
   * The coordinates written for `ids`: a node without coordinates is
   * skipped, and so is one whose coordinate equals the last one written
   * (initially `last`).
   */
  function Emit(nm: Top<i32>, ids: seq<i64>, last: i32): (r: seq<Tok>)
    ensures |r| <= |ids|
    decreases |ids|
  {
    if ids == [] then []
    else
      var c := Coord(nm, ids[0]);
      if c == INT_MIN || c == last then Emit(nm, ids[1..], last)
      else [Pt(c)] + Emit(nm, ids[1..], c)
  }

  function Reversed(s: seq<i64>): (r: seq<i64>)
    ensures |r| == |s|
  {
    if s == [] then [] else [s[|s| - 1]] + Reversed(s[..|s| - 1])
  }

  /** `appendToBuf(nodes, start)`: the nodes from `start` on, after the node before `start` (if any). */
  function FwdText(nm: Top<i32>, f: seq<i64>, start: nat): seq<Tok>
    requires start <= |f|
  {
    Emit(nm, f[start..], if start == 0 then INT_MIN else Coord(nm, f[start - 1]))
  }

  /** `appendToBufReverse(nodes)`: all nodes but the last, backwards, after the last one. */
  function RevText(nm: Top<i32>, f: seq<i64>): seq<Tok>
    requires |f| >= 1
  {
    Emit(nm, Reversed(f[..|f| - 1]), Coord(nm, f[|f| - 1]))
  }

  /** What `Emit` writes: present, pairwise-different neighbours, never repeating `last` first. */
  predicate Deduplicated(r: seq<Tok>, last: i32)
  {
    (forall k :: 0 <= k < |r| ==> r[k].Pt? && r[k].v != INT_MIN)
    && (forall k :: 0 < k < |r| ==> r[k - 1] != r[k])
    && (|r| > 0 ==> r[0] != Pt(last))
  }

  /** The written coordinates skip missing nodes and never repeat one in a row. */
  lemma {:induction false} EmitDedup(nm: Top<i32>, ids: seq<i64>, last: i32)
    ensures Deduplicated(Emit(nm, ids, last), last)
    decreases |ids|
  {
    if ids != [] {
      var c := Coord(nm, ids[0]);
      if c == INT_MIN || c == last {
        EmitDedup(nm, ids[1..], last);
      } else {
        EmitDedup(nm, ids[1..], c);
      }
    }
  }

  /** The coordinate tokens of the nodes. */
  function NodePoints(nm: Top<i32>, ids: seq<i64>): set<Tok>
  {
    set j | 0 <= j < |ids| :: Pt(Coord(nm, ids[j]))
  }

  /** Every written coordinate is that of one of the nodes. */
  lemma {:induction false} EmitOrigin(nm: Top<i32>, ids: seq<i64>, last: i32)
    ensures forall t :: t in Emit(nm, ids, last) ==> t in NodePoints(nm, ids)
    decreases |ids|
  {
    if ids != [] {
      var c := Coord(nm, ids[0]);
      var rest := ids[1..];
      var next := if c == INT_MIN || c == last then last else c;
      EmitOrigin(nm, rest, next);
      assert NodePoints(nm, ids) == {Pt(c)} + NodePoints(nm, rest) by {
        forall t | t in NodePoints(nm, ids)
          ensures t in {Pt(c)} + NodePoints(nm, rest)
        {
          var j :| 0 <= j < |ids| && t == Pt(Coord(nm, ids[j]));
          if j > 0 {
            assert ids[j] == rest[j - 1];
          }
        }
        forall t | t in NodePoints(nm, rest)
          ensures t in NodePoints(nm, ids)
        {
          var j :| 0 <= j < |rest| && t == Pt(Coord(nm, rest[j]));
          assert rest[j] == ids[j + 1];
        }
      }
    }
  }

  /** Every node with coordinates is written, or repeats the coordinate written just before it. */
  lemma {:induction false} EmitCovers(nm: Top<i32>, ids: seq<i64>, last: i32)
    ensures forall j :: 0 <= j < |ids| && Coord(nm, ids[j]) != INT_MIN ==>
      Pt(Coord(nm, ids[j])) in Emit(nm, ids, last) || Coord(nm, ids[j]) == last
    decreases |ids|
  {
    if ids != [] {
      var c := Coord(nm, ids[0]);
      var rest := ids[1..];
      var r := Emit(nm, ids, last);
      var next := if c == INT_MIN || c == last then last else c;
      var tail := Emit(nm, rest, next);
      EmitCovers(nm, rest, next);
      assert r == (if next == last then [] else [Pt(c)]) + tail;
      forall j | 0 < j < |ids| && Coord(nm, ids[j]) != INT_MIN
        ensures Pt(Coord(nm, ids[j])) in r || Coord(nm, ids[j]) == last
      {
        assert ids[j] == rest[j - 1];
        if Coord(nm, ids[j]) == next && next != last {
          assert r[0] == Pt(c);
        }
      }
    }
  }

  /** One fragment joined to the ring, forwards or reversed. */
  datatype Step = Step(idx: nat, rev: bool)

  /** Every fragment has a node (Java reads `l[l.length - 2]`). */
  predicate Frags(fr: seq<seq<i64>>)
  {
    forall k :: 0 <= k < |fr| ==> |fr[k]| >= 1
  }

  function First(f: seq<i64>): i64 requires |f| >= 1 { f[0] }

  function Last(f: seq<i64>): i64 requires |f| >= 1 { f[|f| - 1] }

  /** The fragments still unassigned (flag 0). */
  function Free(flags: seq<int>): set<nat>
  {
    set k: nat | k < |flags| && flags[k] == 0
  }

  lemma {:induction false} FreeShrinks(flags: seq<int>, i: nat)
    requires i < |flags| && flags[i] == 0
    ensures Free(flags[i := 1]) < Free(flags)
  {
    assert i in Free(flags) && i !in Free(flags[i := 1]);
  }

  /**
   * The private `ringAssignment(fragments, rid, stop, cur)`: the first
   * unassigned fragment from `i` on that extends the ring at `cur` and,
   * recursively, closes it at `stop`; the path of fragments used.
   */
  function Search(fr: seq<seq<i64>>, flags: seq<int>, stop: i64, cur: i64, i: nat): Option<seq<Step>>
    requires Frags(fr) && |flags| == |fr| && i <= |fr|
    decreases Free(flags), |fr| - i, 1
  {
    if i == |fr| then None
    else if flags[i] != 0 then Search(fr, flags, stop, cur, i + 1)
    else
      match Try(fr, flags, stop, cur, i)
      case Some(p) => Some(p)
      case None => Search(fr, flags, stop, cur, i + 1)
  }

  /** One loop turn of the private `ringAssignment`, for the unassigned fragment `i`. */
  function Try(fr: seq<seq<i64>>, flags: seq<int>, stop: i64, cur: i64, i: nat): Option<seq<Step>>
    requires Frags(fr) && |flags| == |fr| && i < |fr| && flags[i] == 0
    decreases Free(flags), |fr| - i, 0
  {
    var f := fr[i];
    FreeShrinks(flags, i);
    if First(f) == cur then
      if Last(f) == stop then Some([Step(i, false)])
      else
        match Search(fr, flags[i := 1], stop, Last(f), 0)
        case Some(p) => Some([Step(i, false)] + p)
        case None => None
    else if Last(f) == cur then
      if First(f) == stop then Some([Step(i, true)])
      else
        match Search(fr, flags[i := 1], stop, First(f), 0)
        case Some(p) => Some([Step(i, true)] + p)
        case None => None
    else None
  }

  /**
   * `path` joins unassigned fragments end to end from `cur` until it
   * reaches `stop`: forwards when the fragment starts at the current node,
   * reversed when only its end does.
   */
  predicate Chain(fr: seq<seq<i64>>, flags: seq<int>, path: seq<Step>, stop: i64, cur: i64)
    requires Frags(fr) && |flags| == |fr|
    decreases |path|
  {
    path != [] && path[0].idx < |fr| && flags[path[0].idx] == 0
    && var f := fr[path[0].idx];
    && (if path[0].rev then Last(f) == cur && First(f) != cur else First(f) == cur)
    && var next := if path[0].rev then First(f) else Last(f);
    if next == stop then |path| == 1
    else Chain(fr, flags[path[0].idx := 1], path[1..], stop, next)
  }

  /** The search only returns closed chains. */
  lemma {:induction false} SearchSound(fr: seq<seq<i64>>, flags: seq<int>, stop: i64, cur: i64, i: nat)
    requires Frags(fr) && |flags| == |fr| && i <= |fr|
    ensures Search(fr, flags, stop, cur, i).Some? ==> Chain(fr, flags, Search(fr, flags, stop, cur, i).value, stop, cur)
    decreases Free(flags), |fr| - i
  {
    if i < |fr| {
      if flags[i] != 0 {
        SearchSound(fr, flags, stop, cur, i + 1);
      } else {
        var f := fr[i];
        FreeShrinks(flags, i);
        if First(f) == cur && Last(f) != stop {
          SearchSound(fr, flags[i := 1], stop, Last(f), 0);
        } else if First(f) != cur && Last(f) == cur && First(f) != stop {
          SearchSound(fr, flags[i := 1], stop, First(f), 0);
        }
        SearchSound(fr, flags, stop, cur, i + 1);
      }
    }
  }

  /** The search is exhaustive: when a closing chain starting at fragment `i` or later exists, one is found. */
  lemma {:induction false} SearchComplete(fr: seq<seq<i64>>, flags: seq<int>, stop: i64, cur: i64, i: nat, path: seq<Step>)
    requires Frags(fr) && |flags| == |fr| && i <= |fr|
    requires Chain(fr, flags, path, stop, cur) && path[0].idx >= i
    ensures Search(fr, flags, stop, cur, i).Some?
    decreases Free(flags), |fr| - i
  {
    var s := path[0];
    if i < |fr| {
      if flags[i] != 0 || s.idx != i {
        if Search(fr, flags, stop, cur, i) == Search(fr, flags, stop, cur, i + 1) {
          SearchComplete(fr, flags, stop, cur, i + 1, path);
        }
      } else {
        var f := fr[i];
        FreeShrinks(flags, i);
        var next := if s.rev then First(f) else Last(f);
        if next != stop {
          SearchComplete(fr, flags[i := 1], stop, next, 0, path[1..]);
        }
      }
    }
  }

  /** The flags after the fragments of `path` are marked assigned. */
  function Mark(flags: seq<int>, path: seq<Step>): (r: seq<int>)
    requires forall k :: 0 <= k < |path| ==> path[k].idx < |flags|
    ensures |r| == |flags|
    decreases |path|
  {
    if path == [] then flags else Mark(flags[path[0].idx := 1], path[1..])
  }

  /** Marking never clears a flag, and marks every fragment of the path. */
  lemma {:induction false} MarkSpec(flags: seq<int>, path: seq<Step>, k: nat)
    requires forall j :: 0 <= j < |path| ==> path[j].idx < |flags|
    requires k < |flags|
    ensures flags[k] != 0 ==> Mark(flags, path)[k] != 0
    ensures flags[k] == 1 ==> Mark(flags, path)[k] == 1
    ensures (exists j :: 0 <= j < |path| && path[j].idx == k) ==> Mark(flags, path)[k] == 1
    decreases |path|
  {
    if path != [] {
      MarkSpec(flags[path[0].idx := 1], path[1..], k);
      if exists j :: 0 <= j < |path| && path[j].idx == k {
        var j :| 0 <= j < |path| && path[j].idx == k;
        if j > 0 {
          assert path[1..][j - 1].idx == k;
        }
      }
    }
  }

  /** What the chain appends to the buffer: each fragment forwards from its second node, or reversed. */
  function Text(nm: Top<i32>, fr: seq<seq<i64>>, path: seq<Step>): seq<Tok>
    requires Frags(fr) && forall k :: 0 <= k < |path| ==> path[k].idx < |fr|
    decreases |path|
  {
    if path == [] then []
    else
      var f := fr[path[0].idx];
      (if path[0].rev then RevText(nm, f) else FwdText(nm, f, 1)) + Text(nm, fr, path[1..])
  }

  /** Paths the search returns name fragments only. */
  lemma {:induction false} SearchIndices(fr: seq<seq<i64>>, flags: seq<int>, stop: i64, cur: i64, i: nat)
    requires Frags(fr) && |flags| == |fr| && i <= |fr|
    ensures Search(fr, flags, stop, cur, i).Some? ==>
      forall k :: 0 <= k < |Search(fr, flags, stop, cur, i).value| ==> Search(fr, flags, stop, cur, i).value[k].idx < |fr|
    decreases Free(flags), |fr| - i
  {
    if Search(fr, flags, stop, cur, i).Some? {
      SearchSound(fr, flags, stop, cur, i);
      ChainIndices(fr, flags, Search(fr, flags, stop, cur, i).value, stop, cur);
    }
  }

  lemma {:induction false} ChainIndices(fr: seq<seq<i64>>, flags: seq<int>, path: seq<Step>, stop: i64, cur: i64)
    requires Frags(fr) && |flags| == |fr|
    requires Chain(fr, flags, path, stop, cur)
    ensures forall k :: 0 <= k < |path| ==> path[k].idx < |fr|
    decreases |path|
  {
    var f := fr[path[0].idx];
    var next := if path[0].rev then First(f) else Last(f);
    if next != stop {
      ChainIndices(fr, flags[path[0].idx := 1], path[1..], stop, next);
      forall k | 0 < k < |path|
        ensures path[k].idx < |fr|
      {
        assert path[k] == path[1..][k - 1];
      }
    }
  }

  /** The flags and the output lines after the public `ringAssignment` has visited fragments `i..`. */
  datatype Assigned = Assigned(flags: seq<int>, lines: seq<seq<Tok>>)

  /**
   * The public `ringAssignment(fragments, rid, trunk)`: each fragment still
   * unassigned is marked, written forwards after the record `prefix`, and
   * closed by the search; a closed ring with text is written out as one
   * line. A fragment that cannot be closed stays marked.
   */
  function Assign(nm: Top<i32>, fr: seq<seq<i64>>, flags: seq<int>, prefix: seq<Tok>, i: nat): (r: Assigned)
    requires Frags(fr) && |flags| == |fr| && i <= |fr|
    ensures |r.flags| == |fr|
    decreases |fr| - i
  {
    if i == |fr| then Assigned(flags, [])
    else if flags[i] != 0 then Assign(nm, fr, flags, prefix, i + 1)
    else
      var f := fr[i];
      var fl := flags[i := 1];
      SearchIndices(fr, fl, First(f), Last(f), 0);
      match Search(fr, fl, First(f), Last(f), 0)
      case Some(p) =>
        var text := FwdText(nm, f, 0) + Text(nm, fr, p);
        var rest := Assign(nm, fr, Mark(fl, p), prefix, i + 1);
        Assigned(rest.flags, (if text != [] then [prefix + text + [Chr('\n')]] else []) + rest.lines)
      case None => Assign(nm, fr, fl, prefix, i + 1)
  }

  /** Afterwards every fragment is assigned. */
  lemma {:induction false} AssignSpec(nm: Top<i32>, fr: seq<seq<i64>>, flags: seq<int>, prefix: seq<Tok>, i: nat)
    requires Frags(fr) && |flags| == |fr| && i <= |fr|
    ensures forall k :: 0 <= k < |fr| && (k >= i || flags[k] != 0) ==> Assign(nm, fr, flags, prefix, i).flags[k] != 0
    decreases |fr| - i
  {
    if i < |fr| {
      if flags[i] != 0 {
        AssignSpec(nm, fr, flags, prefix, i + 1);
      } else {
        var f := fr[i];
        var fl := flags[i := 1];
        SearchIndices(fr, fl, First(f), Last(f), 0);
        match Search(fr, fl, First(f), Last(f), 0)
        case Some(p) =>
          var marked := Mark(fl, p);
          AssignSpec(nm, fr, marked, prefix, i + 1);
          forall k | 0 <= k < |fr| && fl[k] != 0
            ensures marked[k] != 0
          {
            MarkSpec(fl, p, k);
          }
        case None =>
          AssignSpec(nm, fr, fl, prefix, i + 1);
      }
    }
  }

  /** Every line written is the record prefix, a ring, and a line break. */
  lemma {:induction false} AssignLines(nm: Top<i32>, fr: seq<seq<i64>>, flags: seq<int>, prefix: seq<Tok>, i: nat)
    requires Frags(fr) && |flags| == |fr| && i <= |fr|
    ensures forall l :: l in Assign(nm, fr, flags, prefix, i).lines ==>
      |l| > |prefix| && l[..|prefix|] == prefix && l[|l| - 1] == Chr('\n')
    decreases |fr| - i
  {
    if i < |fr| {
      if flags[i] != 0 {
        AssignLines(nm, fr, flags, prefix, i + 1);
      } else {
        var f := fr[i];
        var fl := flags[i := 1];
        SearchIndices(fr, fl, First(f), Last(f), 0);
        match Search(fr, fl, First(f), Last(f), 0)
        case Some(p) =>
          AssignLines(nm, fr, Mark(fl, p), prefix, i + 1);
          var line := prefix + (FwdText(nm, f, 0) + Text(nm, fr, p)) + [Chr('\n')];
          assert line[..|prefix|] == prefix;
        case None =>
          AssignLines(nm, fr, fl, prefix, i + 1);
      }
    }
  }

  // ---------------------------------------------------------------------
  // Ways and relations of the third pass
  // ---------------------------------------------------------------------

  /** Fresh fragment flags: none assigned yet. */
  function Zeros(n: nat): (r: seq<int>)
    ensures |r| == n && forall k :: 0 <= k < n ==> r[k] == 0
  {
    seq(n, k => 0)
  }

  /** A record as buffer characters. */
  function Chars(s: string): (r: seq<Tok>)
    ensures |r| == |s|
  {
    if s == [] then [] else [Chr(s[0])] + Chars(s[1..])
  }

  /** The coordinate last written in `text`, or `dflt` when none was. */
  function LastCoord(text: seq<Tok>, dflt: i32): i32
  {
    if text == [] || !text[|text| - 1].Pt? then dflt else text[|text| - 1].v
  }

  /** Every node record of the first pass has at least one node. */
  predicate WaysOk(ways: map<i64, OsmPass.WayData>)
  {
    forall x :: x in ways ==> |ways[x].nodes| >= 1
  }

  /** The indexer's test for a closed way: at least two coordinates written, and the last node id is the first. */
  predicate ConvClosed(text: seq<Tok>, refs: seq<i64>)
  {
    |text| > 1 && |refs| > 0 && refs[|refs| - 1] == refs[0]
  }

  /** The builder's test as written: more than one node, and the last coordinate written equals the first node id. */
  predicate BuildClosed(text: seq<Tok>, refs: seq<i64>)
  {
    |refs| > 1 && LastCoord(text, INT_MAX) as int == refs[0]
  }

  /** The line a way with the record `record` yields: the record, its coordinates, a line break. */
  function WayLine(nm: Top<i32>, record: string, refs: seq<i64>): seq<Tok>
  {
    Chars(record) + Emit(nm, refs, INT_MAX) + [Chr('\n')]
  }

  /**
   * The indexer's third-pass `parseWays` for one way, whose metadata after
   * `reset(w)` is `accepted` and writes `record`.
   */
  function ConvWayOutput(nm: Top<i32>, ways: map<i64, OsmPass.WayData>, id: i64, refs: seq<i64>, record: string, accepted: bool): seq<seq<Tok>>
  {
    if id !in ways || !accepted then []
    else if ConvClosed(Emit(nm, refs, INT_MAX), refs) then [WayLine(nm, record, refs)]
    else []
  }

  /**
   * A way is written exactly when the first pass kept it, its tags are
   * accepted and it is closed with at least two distinct coordinates in a
   * row; the line is its record, then coordinates of its own nodes without
   * repeats in a row, then a line break.
   */
  lemma {:induction false} ConvWayOutputSpec(nm: Top<i32>, ways: map<i64, OsmPass.WayData>, id: i64, refs: seq<i64>, record: string, accepted: bool)
    ensures ConvWayOutput(nm, ways, id, refs, record, accepted) in {[], [WayLine(nm, record, refs)]}
    ensures ConvWayOutput(nm, ways, id, refs, record, accepted) != [] <==>
      id in ways && accepted && |refs| > 0 && refs[|refs| - 1] == refs[0] && |Emit(nm, refs, INT_MAX)| >= 2
    ensures ConvWayOutput(nm, ways, id, refs, record, accepted) != [] ==>
      && Deduplicated(Emit(nm, refs, INT_MAX), INT_MAX)
      && forall t :: t in Emit(nm, refs, INT_MAX) ==> t in NodePoints(nm, refs)
  {
    EmitDedup(nm, refs, INT_MAX);
    EmitOrigin(nm, refs, INT_MAX);
  }

  /** The builder's third-pass `parseWays` for one way: ways flagged only as closed boundaries are skipped. */
  function BuildWayOutput(nm: Top<i32>, ways: map<i64, OsmPass.WayData>, id: i64, refs: seq<i64>, record: string, accepted: bool): seq<seq<Tok>>
  {
    if id !in ways || ways[id].flag % 4 == 2 || !accepted then []
    else if BuildClosed(Emit(nm, refs, INT_MAX), refs) then [WayLine(nm, record, refs)]
    else []
  }

  /** The builder's way output with the closed-way test it evidently intends. */
  function BuildWayOutputFixed(nm: Top<i32>, ways: map<i64, OsmPass.WayData>, id: i64, refs: seq<i64>, record: string, accepted: bool): seq<seq<Tok>>
  {
    if id !in ways || ways[id].flag % 4 == 2 || !accepted then []
    else if ConvClosed(Emit(nm, refs, INT_MAX), refs) then [WayLine(nm, record, refs)]
    else []
  }

  /** With the intended test, a kept, accepted way is written exactly when it is closed with at least two coordinates. */
  lemma {:induction false} BuildWayFixedSpec(nm: Top<i32>, ways: map<i64, OsmPass.WayData>, id: i64, refs: seq<i64>, record: string)
    requires id in ways && ways[id].flag % 4 != 2
    ensures BuildWayOutputFixed(nm, ways, id, refs, record, true) != [] <==>
      |refs| > 0 && refs[|refs| - 1] == refs[0] && |Emit(nm, refs, INT_MAX)| >= 2
    ensures BuildWayOutputFixed(nm, ways, id, refs, record, true) != [] ==>
      BuildWayOutputFixed(nm, ways, id, refs, record, true) == [WayLine(nm, record, refs)]
  {
  }

  /**
   * As written, the builder drops a closed square whose nodes all have
   * coordinates: the last coordinate written is compared with the first
   * node id.
   */
  lemma {:induction false} BuildWayClosedWrong(ways: map<i64, OsmPass.WayData>, record: string)
    requires 5 in ways && ways[5].flag == 1
    ensures var nm := PutIn(PutIn(PutIn(map[], 1, 100), 2, 200), 3, 300);
      && BuildWayOutput(nm, ways, 5, [1, 2, 3, 1], record, true) == []
      && |BuildWayOutputFixed(nm, ways, 5, [1, 2, 3, 1], record, true)| == 1
  {
    var nm := PutIn(PutIn(PutIn(map[], 1, 100), 2, 200), 3, 300);
    assert Coord(nm, 1) == 100 && Coord(nm, 2) == 200 && Coord(nm, 3) == 300;
    var refs: seq<i64> := [1, 2, 3, 1];
    assert refs[1..][1..][1..][1..] == [];
    assert Emit(nm, refs, INT_MAX) == [Pt(100), Pt(200), Pt(300), Pt(100)];
  }

  /** What `parseRelation` has produced after some members: closed ways' lines, and the open ways kept as fragments. */
  datatype RelScan = RelScan(lines: seq<seq<Tok>>, frags: seq<seq<i64>>)

  /** Whether a member takes part: a known way, and, in the builder, in the `outer` or `inner` role. */
  predicate Takes(ways: map<i64, OsmPass.WayData>, m: OsmPass.Member, roles: bool)
  {
    m.kind == OsmPass.WayMember && m.id in ways && (!roles || m.role == "outer" || m.role == "inner")
  }

  /** One turn of the member loop of `parseRelation`, after the record `prefix` is in the buffer. */
  function ScanStep(nm: Top<i32>, ways: map<i64, OsmPass.WayData>, prefix: seq<Tok>, s: RelScan, m: OsmPass.Member, roles: bool): RelScan
    requires WaysOk(ways)
  {
    if !Takes(ways, m, roles) then s
    else
      var nodes := ways[m.id].nodes;
      if First(nodes) == Last(nodes) then
        var text := FwdText(nm, nodes, 0);
        RelScan(s.lines + (if text != [] then [prefix + text + [Chr('\n')]] else []), s.frags)
      else RelScan(s.lines, s.frags + [nodes])
  }

  /** The member loop of `parseRelation`. */
  function ScanMembers(nm: Top<i32>, ways: map<i64, OsmPass.WayData>, prefix: seq<Tok>, ms: seq<OsmPass.Member>, roles: bool): RelScan
    requires WaysOk(ways)
    decreases |ms|
  {
    if ms == [] then RelScan([], [])
    else ScanStep(nm, ways, prefix, ScanMembers(nm, ways, prefix, ms[..|ms| - 1], roles), ms[|ms| - 1], roles)
  }

  /** The lines of one relation: its closed ways, then the rings assembled from its open ways. */
  function RelationLines(nm: Top<i32>, ways: map<i64, OsmPass.WayData>, record: string, accepted: bool,
                         ms: seq<OsmPass.Member>, roles: bool): seq<seq<Tok>>
    requires WaysOk(ways)
  {
    if !accepted then []
    else
      var prefix := Chars(record);
      var s := ScanMembers(nm, ways, prefix, ms, roles);
      ScanFrags(nm, ways, prefix, ms, roles);
      s.lines + (if s.frags != [] then Assign(nm, s.frags, Zeros(|s.frags|), prefix, 0).lines else [])
  }

  /** The fragments of a relation are open ways, each with a node. */
  lemma {:induction false} ScanFrags(nm: Top<i32>, ways: map<i64, OsmPass.WayData>, prefix: seq<Tok>, ms: seq<OsmPass.Member>, roles: bool)
    requires WaysOk(ways)
    ensures var s := ScanMembers(nm, ways, prefix, ms, roles);
      Frags(s.frags) && forall k :: 0 <= k < |s.frags| ==> First(s.frags[k]) != Last(s.frags[k])
    decreases |ms|
  {
    if ms != [] {
      var n := |ms| - 1;
      ScanFrags(nm, ways, prefix, ms[..n], roles);
      var s := ScanMembers(nm, ways, prefix, ms[..n], roles);
      var m := ms[n];
      if Takes(ways, m, roles) {
        var nodes := ways[m.id].nodes;
        if First(nodes) != Last(nodes) {
          var fr := s.frags + [nodes];
          assert fr[|s.frags|] == nodes;
          assert forall k :: 0 <= k < |s.frags| ==> fr[k] == s.frags[k];
        }
      }
    }
  }

  /** Whether `f` is the node list of one of the taken members `ms`. */
  predicate FromMember(ways: map<i64, OsmPass.WayData>, ms: seq<OsmPass.Member>, roles: bool, f: seq<i64>)
  {
    exists j :: 0 <= j < |ms| && Takes(ways, ms[j], roles) && f == ways[ms[j].id].nodes
  }

  /** Every fragment in `fr` is the node list of one of the taken members `ms`. */
  predicate FragsFrom(ways: map<i64, OsmPass.WayData>, ms: seq<OsmPass.Member>, roles: bool, fr: seq<seq<i64>>)
  {
    forall k :: 0 <= k < |fr| ==> FromMember(ways, ms, roles, fr[k])
  }

  /** Every fragment of a relation is the node list of one of its taken members. */
  lemma {:induction false} ScanFragsFrom(nm: Top<i32>, ways: map<i64, OsmPass.WayData>, prefix: seq<Tok>, ms: seq<OsmPass.Member>, roles: bool)
    requires WaysOk(ways)
    ensures FragsFrom(ways, ms, roles, ScanMembers(nm, ways, prefix, ms, roles).frags)
    decreases |ms|
  {
    if ms == [] {
      assert ScanMembers(nm, ways, prefix, ms, roles).frags == [];
    } else {
      var n := |ms| - 1;
      ScanFragsFrom(nm, ways, prefix, ms[..n], roles);
      var s := ScanMembers(nm, ways, prefix, ms[..n], roles);
      var r := ScanMembers(nm, ways, prefix, ms, roles);
      forall k | 0 <= k < |r.frags|
        ensures FromMember(ways, ms, roles, r.frags[k])
      {
        assert r == ScanStep(nm, ways, prefix, s, ms[n], roles);
        if k < |s.frags| {
          assert r.frags[k] == s.frags[k];
          assert FromMember(ways, ms[..n], roles, s.frags[k]);
          var j :| 0 <= j < n && Takes(ways, ms[..n][j], roles) && s.frags[k] == ways[ms[..n][j].id].nodes;
          assert ms[..n][j] == ms[j];
          assert 0 <= j < |ms| && Takes(ways, ms[j], roles) && r.frags[k] == ways[ms[j].id].nodes;
        } else {
          assert 0 <= n < |ms| && Takes(ways, ms[n], roles) && r.frags[k] == ways[ms[n].id].nodes;
        }
      }

    }
  }

  /** Every closed-way line of a relation is the record, some coordinates and a line break. */
  lemma {:induction false} ScanLines(nm: Top<i32>, ways: map<i64, OsmPass.WayData>, prefix: seq<Tok>, ms: seq<OsmPass.Member>, roles: bool)
    requires WaysOk(ways)
    ensures forall l :: l in ScanMembers(nm, ways, prefix, ms, roles).lines ==>
      |l| > |prefix| && l[..|prefix|] == prefix && l[|l| - 1] == Chr('\n')
    decreases |ms|
  {
    if ms != [] {
      var n := |ms| - 1;
      ScanLines(nm, ways, prefix, ms[..n], roles);
      var m := ms[n];
      if Takes(ways, m, roles) {
        var nodes := ways[m.id].nodes;
        if First(nodes) == Last(nodes) {
          var line := prefix + FwdText(nm, nodes, 0) + [Chr('\n')];
          assert line[..|prefix|] == prefix;
        }
      }
    }
  }

  /**
   * Every line a relation yields is the record, a ring or closed way, and a
   * line break; every open way among its members ends up assigned.
   */
  lemma {:induction false} RelationLinesSpec(nm: Top<i32>, ways: map<i64, OsmPass.WayData>, record: string, accepted: bool,
                                             ms: seq<OsmPass.Member>, roles: bool)
    requires WaysOk(ways)
    ensures !accepted ==> RelationLines(nm, ways, record, accepted, ms, roles) == []
    ensures forall l :: l in RelationLines(nm, ways, record, accepted, ms, roles) ==>
      |l| > |record| && l[..|record|] == Chars(record) && l[|l| - 1] == Chr('\n')
  {
    if accepted {
      var prefix := Chars(record);
      var s := ScanMembers(nm, ways, prefix, ms, roles);
      ScanFrags(nm, ways, prefix, ms, roles);
      ScanLines(nm, ways, prefix, ms, roles);
      if s.frags != [] {
        AssignLines(nm, s.frags, Zeros(|s.frags|), prefix, 0);
      }
    }
  }

  /** The state of the third pass that the outline writers use. */
  class ThirdPass {
    var nodemap: Top<i32>
    var buf: seq<Tok>
    var output: seq<seq<Tok>>

    constructor (nm: Top<i32>)
      ensures nodemap == nm && buf == [] && output == []
    {
      nodemap, buf, output := nm, [], [];
    }

    /** The coordinate loop of the third pass's `parseWays`: appends the way's coordinates and reports how many and the last. */
    method EmitWay(refs: seq<i64>) returns (wp: nat, last: i32)
      modifies this
      ensures buf == old(buf) + Emit(nodemap, refs, INT_MAX)
      ensures wp == |Emit(nodemap, refs, INT_MAX)| && last == LastCoord(Emit(nodemap, refs, INT_MAX), INT_MAX)
      ensures nodemap == old(nodemap) && output == old(output)
    {
      last := INT_MAX;
      wp := 0;
      var j := 0;
      EmitDedup(nodemap, refs, INT_MAX);
      while j < |refs|
        invariant j <= |refs|
        invariant nodemap == old(nodemap) && output == old(output)
        invariant old(buf) + Emit(nodemap, refs, INT_MAX) == buf + Emit(nodemap, refs[j..], last)
        invariant wp + |Emit(nodemap, refs[j..], last)| == |Emit(nodemap, refs, INT_MAX)|
        invariant LastCoord(Emit(nodemap, refs, INT_MAX), INT_MAX) == LastCoord(Emit(nodemap, refs[j..], last), last)
      {
        assert refs[j..][1..] == refs[j + 1..];
        var cur := Coord(nodemap, refs[j]);
        if cur != INT_MIN && cur != last {
          EmitDedup(nodemap, refs[j + 1..], cur);
          LastCoordCons(cur, Emit(nodemap, refs[j + 1..], cur), last);
          buf := buf + [Pt(cur)];
          wp := wp + 1;
          last := cur;
        }
        j := j + 1;
      }
    }

    /**
     * The indexer's third-pass `parseWays` for one way with absolute node ids
     * `refs`, whose metadata after `reset(w)` is `accepted` and writes `record`.
     */
    method ParseWayIndexer(ways: map<i64, OsmPass.WayData>, id: i64, refs: seq<i64>, record: string, accepted: bool)
      modifies this
      ensures nodemap == old(nodemap)
      ensures output == old(output) + ConvWayOutput(nodemap, ways, id, refs, record, accepted)
    {
      if id !in ways {
        return;
      }
      if !accepted {
        return;
      }
      buf := Chars(record);
      var wp, last := EmitWay(refs);
      if wp > 1 && refs[|refs| - 1] == refs[0] {
        buf := buf + [Chr('\n')];
        output := output + [buf];
      }
    }

    /** The builder's third-pass `parseWays` for one way. */
    method ParseWayBuilder(ways: map<i64, OsmPass.WayData>, id: i64, refs: seq<i64>, record: string, accepted: bool)
      modifies this
      ensures nodemap == old(nodemap)
      ensures output == old(output) + BuildWayOutput(nodemap, ways, id, refs, record, accepted)
    {
      if id !in ways || ways[id].flag % 4 == 2 {
        return;
      }
      if !accepted {
        return;
      }
      buf := Chars(record);
      var wp, last := EmitWay(refs);
      if |refs| > 1 && last as int == refs[0] {
        buf := buf + [Chr('\n')];
        output := output + [buf];
      }
    }

    /**
     * `parseRelation` for a relation whose metadata after `reset(r)` is
     * `accepted` and writes `record`: the closed member ways are written one
     * per line, the open ones are assembled into rings. `roles` is the
     * builder's filter on the `outer` and `inner` roles.
     */
    method ParseRelation(ways: map<i64, OsmPass.WayData>, record: string, accepted: bool, ms: seq<OsmPass.Member>, roles: bool)
      requires WaysOk(ways)
      modifies this
      ensures nodemap == old(nodemap)
      ensures output == old(output) + RelationLines(nodemap, ways, record, accepted, ms, roles)
    {
      if !accepted {
        return;
      }
      buf := Chars(record);
      var trunk := |buf|;
      ghost var prefix := buf;
      var frags := ScanLoop(ways, ms, roles, trunk, prefix);
      ScanFrags(nodemap, ways, prefix, ms, roles);
      if |frags| > 0 {
        AssignFragments(frags, trunk, prefix);
      }
      ghost var sc := ScanMembers(nodemap, ways, prefix, ms, roles);
      assert RelationLines(nodemap, ways, record, accepted, ms, roles) ==
        sc.lines + (if sc.frags != [] then Assign(nodemap, sc.frags, Zeros(|sc.frags|), prefix, 0).lines else []);
    }

    /** The member loop of `parseRelation`, with the record `prefix` in the buffer. */
    method ScanLoop(ways: map<i64, OsmPass.WayData>, ms: seq<OsmPass.Member>, roles: bool, trunk: nat, ghost prefix: seq<Tok>)
      returns (frags: seq<seq<i64>>)
      requires WaysOk(ways) && buf == prefix && trunk == |prefix|
      modifies this
      ensures nodemap == old(nodemap) && buf == prefix
      ensures output == old(output) + ScanMembers(nodemap, ways, prefix, ms, roles).lines
      ensures frags == ScanMembers(nodemap, ways, prefix, ms, roles).frags
    {
      frags := [];
      var k := 0;
      while k < |ms|
        invariant k <= |ms|
        invariant nodemap == old(nodemap) && buf == prefix
        invariant output == old(output) + ScanMembers(nodemap, ways, prefix, ms[..k], roles).lines
        invariant frags == ScanMembers(nodemap, ways, prefix, ms[..k], roles).frags
      {
        assert ms[..k + 1][..k] == ms[..k];
        ghost var lines := ScanMembers(nodemap, ways, prefix, ms[..k], roles).lines;
        ghost var written;
        frags, written := TakeMember(ways, ms[k], roles, trunk, frags, prefix, lines);
        k := k + 1;
      }
      assert ms[..k] == ms;
    }

    /** The end of `parseRelation`: fresh flags for the fragments, then the public `ringAssignment`. */
    method AssignFragments(frags: seq<seq<i64>>, trunk: nat, ghost prefix: seq<Tok>)
      requires Frags(frags) && trunk == |prefix| && buf == prefix
      modifies this
      ensures nodemap == old(nodemap)
      ensures output == old(output) + Assign(nodemap, frags, Zeros(|frags|), prefix, 0).lines
    {
      var flags := new int[|frags|](i => 0);
      assert flags[..] == Zeros(|frags|);
      assert buf[..trunk] == prefix;
      RingAssignment(frags, flags, trunk);
    }

    /** One turn of the member loop of `parseRelation`. */
    method TakeMember(ways: map<i64, OsmPass.WayData>, m: OsmPass.Member, roles: bool, trunk: nat, frags: seq<seq<i64>>,
                      ghost prefix: seq<Tok>, ghost lines: seq<seq<Tok>>)
      returns (frags': seq<seq<i64>>, ghost written: seq<seq<Tok>>)
      requires WaysOk(ways) && buf == prefix && trunk == |prefix|
      modifies this
      ensures nodemap == old(nodemap) && buf == prefix
      ensures output == old(output) + written
      ensures ScanStep(nodemap, ways, prefix, RelScan(lines, frags), m, roles) == RelScan(lines + written, frags')
    {
      frags' := frags;
      written := [];
      if Takes(ways, m, roles) {
        var nodes := ways[m.id].nodes;
        if nodes[0] == nodes[|nodes| - 1] {
          AppendToBuf(nodes, 0);
          if |buf| > trunk {
            buf := buf + [Chr('\n')];
            output := output + [buf];
            written := [buf];
            buf := buf[..trunk];
          }
        } else {
          frags' := frags + [nodes];
        }
      }
    }

    /** `appendToBuf(nodes, start)`. */
    method AppendToBuf(f: seq<i64>, start: nat)
      requires start <= |f|
      modifies this
      ensures buf == old(buf) + FwdText(nodemap, f, start)
      ensures nodemap == old(nodemap) && output == old(output)
    {
      var last: i32 := if start == 0 then INT_MIN else Coord(nodemap, f[start - 1]);
      var j := start;
      while j < |f|
        invariant start <= j <= |f|
        invariant nodemap == old(nodemap) && output == old(output)
        invariant old(buf) + FwdText(nodemap, f, start) == buf + Emit(nodemap, f[j..], last)
        decreases |f| - j
      {
        assert f[j..][1..] == f[j + 1..];
        var cur := Coord(nodemap, f[j]);
        if cur != INT_MIN && cur != last {
          buf := buf + [Pt(cur)];
          last := cur;
        }
        j := j + 1;
      }
    }

    /** `appendToBufReverse(nodes)`. */
    method AppendToBufReverse(f: seq<i64>)
      requires |f| >= 1
      modifies this
      ensures buf == old(buf) + RevText(nodemap, f)
      ensures nodemap == old(nodemap) && output == old(output)
    {
      var n := |f| - 1;
      var last := Coord(nodemap, f[n]);
      var j := n - 1;
      assert f[..j + 1] == f[..n];
      while j >= 0
        invariant -1 <= j < n
        invariant nodemap == old(nodemap) && output == old(output)
        invariant old(buf) + RevText(nodemap, f) == buf + Emit(nodemap, Reversed(f[..j + 1]), last)
        decreases j
      {
        assert Reversed(f[..j + 1]) == [f[j]] + Reversed(f[..j]) by {
          assert f[..j + 1][..j] == f[..j];
        }
        var cur := Coord(nodemap, f[j]);
        if cur != INT_MIN && cur != last {
          buf := buf + [Pt(cur)];
          last := cur;
        }
        j := j - 1;
      }
    }

    /**
     * The private `ringAssignment(fragments, rid, stop, cur)`: on success
     * the chain's fragments stay marked and its text is appended; on
     * failure every flag and the buffer are as they were.
     */
    method RingFrom(fr: seq<seq<i64>>, flags: array<int>, stop: i64, cur: i64) returns (found: bool)
      requires Frags(fr) && flags.Length == |fr|
      modifies this, flags
      ensures nodemap == old(nodemap) && output == old(output)
      ensures found == Search(fr, old(flags[..]), stop, cur, 0).Some?
      ensures found ==> (SearchOk(fr, old(flags[..]), stop, cur) &&
        var p := Search(fr, old(flags[..]), stop, cur, 0).value;
        flags[..] == Mark(old(flags[..]), p) && buf == old(buf) + Text(nodemap, fr, p))
      ensures !found ==> flags[..] == old(flags[..]) && buf == old(buf)
      decreases Free(flags[..]), 1
    {
      var i := 0;
      while i < |fr|
        invariant i <= |fr|
        invariant nodemap == old(nodemap) && output == old(output)
        invariant flags[..] == old(flags[..]) && buf == old(buf)
        invariant Search(fr, old(flags[..]), stop, cur, 0) == Search(fr, old(flags[..]), stop, cur, i)
        decreases |fr| - i
      {
        if flags[i] == 0 {
          found := TryAt(fr, flags, stop, cur, i);
          if found {
            return;
          }
        }
        i := i + 1;
      }
      found := false;
    }

    /** One loop turn of the private `ringAssignment`, from marking fragment `i` to unmarking it. */
    method TryAt(fr: seq<seq<i64>>, flags: array<int>, stop: i64, cur: i64, i: nat) returns (found: bool)
      requires Frags(fr) && flags.Length == |fr| && i < |fr| && flags[i] == 0
      modifies this, flags
      ensures nodemap == old(nodemap) && output == old(output)
      ensures found == Try(fr, old(flags[..]), stop, cur, i).Some?
      ensures found ==> (TryOk(fr, old(flags[..]), stop, cur, i) &&
        var p := Try(fr, old(flags[..]), stop, cur, i).value;
        flags[..] == Mark(old(flags[..]), p) && buf == old(buf) + Text(nodemap, fr, p))
      ensures !found ==> flags[..] == old(flags[..]) && buf == old(buf)
      decreases Free(flags[..]), 0
    {
      var f := fr[i];
      var first, last := First(f), Last(f);
      var trunk := |buf|;
      ghost var before := flags[..];
      FreeShrinks(before, i);
      flags[i] := 1;
      assert flags[..] == before[i := 1];
      if first == cur {
        AppendToBuf(f, 1);
        if last == stop {
          return true;
        }
        found := RingFrom(fr, flags, stop, last);
        if found {
          return;
        }
        buf := buf[..trunk];
      } else if last == cur {
        AppendToBufReverse(f);
        if first == stop {
          return true;
        }
        found := RingFrom(fr, flags, stop, first);
        if found {
          return;
        }
        buf := buf[..trunk];
      }
      flags[i] := 0;
      assert flags[..] == before;
      found := false;
    }

    /** The public `ringAssignment(fragments, rid, trunk)`; `trunk` is where the record prefix ends in the buffer. */
    method RingAssignment(fr: seq<seq<i64>>, flags: array<int>, trunk: nat)
      requires Frags(fr) && flags.Length == |fr| && trunk <= |buf|
      modifies this, flags
      ensures nodemap == old(nodemap)
      ensures flags[..] == Assign(nodemap, fr, old(flags[..]), old(buf[..trunk]), 0).flags
      ensures output == old(output) + Assign(nodemap, fr, old(flags[..]), old(buf[..trunk]), 0).lines
      ensures |buf| >= trunk && buf[..trunk] == old(buf[..trunk])
    {
      ghost var prefix := buf[..trunk];
      ghost var done: seq<seq<Tok>> := [];
      var i := 0;
      while i < |fr|
        invariant i <= |fr|
        invariant nodemap == old(nodemap)
        invariant |buf| >= trunk && buf[..trunk] == prefix
        invariant output == old(output) + done
        invariant Assign(nodemap, fr, old(flags[..]), prefix, 0).flags == Assign(nodemap, fr, flags[..], prefix, i).flags
        invariant Assign(nodemap, fr, old(flags[..]), prefix, 0).lines == done + Assign(nodemap, fr, flags[..], prefix, i).lines
        decreases |fr| - i
      {
        if flags[i] == 0 {
          var written := AssignAt(fr, flags, trunk, i, prefix);
          done := done + written;
        }
        i := i + 1;
      }
    }

    /** One loop turn of the public `ringAssignment`, for the unassigned fragment `i`. */
    method AssignAt(fr: seq<seq<i64>>, flags: array<int>, trunk: nat, i: nat, ghost prefix: seq<Tok>)
      returns (ghost written: seq<seq<Tok>>)
      requires Frags(fr) && flags.Length == |fr| && i < |fr| && flags[i] == 0
      requires |buf| >= trunk && buf[..trunk] == prefix
      modifies this, flags
      ensures nodemap == old(nodemap)
      ensures |buf| >= trunk && buf[..trunk] == prefix
      ensures output == old(output) + written
      ensures Assign(nodemap, fr, old(flags[..]), prefix, i).flags == Assign(nodemap, fr, flags[..], prefix, i + 1).flags
      ensures Assign(nodemap, fr, old(flags[..]), prefix, i).lines == written + Assign(nodemap, fr, flags[..], prefix, i + 1).lines
    {
      var f := fr[i];
      ghost var fl := flags[..][i := 1];
      flags[i] := 1;
      assert flags[..] == fl;
      buf := buf[..trunk];
      AppendToBuf(f, 0);
      ghost var seg := FwdText(nodemap, f, 0);
      assert buf == prefix + seg;
      var ok := RingFrom(fr, flags, First(f), Last(f));
      ghost var found := Search(fr, fl, First(f), Last(f), 0);
      SearchIndices(fr, fl, First(f), Last(f), 0);
      if ok {
        var text := seg + Text(nodemap, fr, found.value);
        assert buf == prefix + text;
        assert Assign(nodemap, fr, old(flags[..]), prefix, i) == var rest := Assign(nodemap, fr, flags[..], prefix, i + 1);
          Assigned(rest.flags, (if text != [] then [prefix + text + [Chr('\n')]] else []) + rest.lines);
        if |buf| > trunk {
          buf := buf + [Chr('\n')];
          output := output + [buf];
          written := [buf];
        } else {
          written := [];
        }
      } else {
        assert Assign(nodemap, fr, old(flags[..]), prefix, i) == Assign(nodemap, fr, fl, prefix, i + 1);
        buf := buf[..trunk];
        written := [];
      }
    }
  }

  lemma {:induction false} LastCoordCons(c: i32, rest: seq<Tok>, d: i32)
    requires forall k :: 0 <= k < |rest| ==> rest[k].Pt?
    ensures LastCoord([Pt(c)] + rest, d) == LastCoord(rest, c)
  {
    if rest != [] {
      assert ([Pt(c)] + rest)[|rest|] == rest[|rest| - 1];
    }
  }

  /** The path a successful search returns names fragments only (so `Mark` and `Text` apply). */
  predicate SearchOk(fr: seq<seq<i64>>, flags: seq<int>, stop: i64, cur: i64)
    requires Frags(fr) && |flags| == |fr|
  {
    Search(fr, flags, stop, cur, 0).Some? &&
    forall k :: 0 <= k < |Search(fr, flags, stop, cur, 0).value| ==> Search(fr, flags, stop, cur, 0).value[k].idx < |fr|
  }

  predicate TryOk(fr: seq<seq<i64>>, flags: seq<int>, stop: i64, cur: i64, i: nat)
    requires Frags(fr) && |flags| == |fr| && i < |fr| && flags[i] == 0
  {
    Try(fr, flags, stop, cur, i).Some? &&
    forall k :: 0 <= k < |Try(fr, flags, stop, cur, i).value| ==> Try(fr, flags, stop, cur, i).value[k].idx < |fr|
  }
}
