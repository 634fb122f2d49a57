/**
 * Reading the polygon file into entities (`start` of the layered
 * builders) and numbering them for the index.
 *
 * A parsed input line carries its text up to the admin level, the level,
 * and the ring's points. Entities are kept per level in a set where two
 * entities are the same exactly when their keys are equal, so each level
 * is a map from key to entity; a level the builder does not use is `None`.
 */
module Entities {
  import opened Binary
  import opened BBox

  type Point = (int, int)

  /** A line of the polygon file after the regular expressions have split it. */
  datatype Line = Line(text: string, level: nat, pts: seq<Point>)

  datatype Entity = Entity(key: string, num: int, bb: Box, polys: seq<seq<Point>>)

  type Level = Option<map<string, Entity>>

  /** The entity sets of all levels and the entity counter. */
  datatype Merged = Merged(levels: seq<Level>, ecounter: int)

  datatype EntityError = TooManyEntities(count: int)

  /** The key of a line: its text through the admin level, terminated by NUL. */
  function KeyOf(line: Line): string
  {
    line.text + "\0"
  }

  /**
   * Whether `start` keeps a parsed line: it has points, its box is not
   * smaller than `minsize`, and its level is one the builder uses.
   */
  predicate Kept(levels: seq<Level>, line: Line, minsize: int)
  {
    line.pts != [] && !Lt(Size(BoxOf(line.pts)), Fin(minsize)) && line.level < |levels| && levels[line.level].Some?
  }

  /**
   * One line of `start`: a line without an admin level (`None`) or not kept
   * changes nothing; a key already present at the level gets the ring
   * appended and its box widened; otherwise a new entity numbered
   * `++ecounter` is added.
   */
  function MergeLine(m: Merged, line: Option<Line>, minsize: int): Merged
  {
    if line.None? || !Kept(m.levels, line.value, minsize) then m
    else
      var l := line.value;
      var lev := m.levels[l.level].value;
      var key := KeyOf(l);
      if key in lev then
        var e := lev[key];
        m.(levels := m.levels[l.level := Some(lev[key := e.(bb := Union(e.bb, BoxOf(l.pts)), polys := e.polys + [l.pts])])])
      else
        var e := Entity(key, m.ecounter + 1, BoxOf(l.pts), [l.pts]);
        Merged(m.levels[l.level := Some(lev[key := e])], m.ecounter + 1)
  }

  function MergeAll(m: Merged, lines: seq<Option<Line>>, minsize: int): Merged
    decreases |lines|
  {
    if lines == [] then m else MergeAll(MergeLine(m, lines[0], minsize), lines[1..], minsize)
  }

  predicate Has(levels: seq<Level>, l: int, k: string)
  {
    0 <= l < |levels| && levels[l].Some? && k in levels[l].value
  }

  function At(levels: seq<Level>, l: int, k: string): Entity
    requires Has(levels, l, k)
  {
    levels[l].value[k]
  }

  /** Every ring of the entity lies inside its box. */
  predicate Covers(e: Entity)
  {
    NoNaN(e.bb) && forall r, j :: 0 <= r < |e.polys| && 0 <= j < |e.polys[r]| ==> InsideBox(e.bb, e.polys[r][j].0, e.polys[r][j].1)
  }

  /** Each entity is stored under its own key, numbered in 1 .. ecounter, with at least one ring its box covers. */
  ghost predicate EntitiesOk(levels: seq<Level>, ecounter: int)
  {
    forall l, k :: Has(levels, l, k) ==>
      var e := At(levels, l, k); e.key == k && 1 <= e.num <= ecounter && e.polys != [] && Covers(e)
  }

  /** No two entities, at any levels, share a number. */
  ghost predicate DistinctNums(levels: seq<Level>)
  {
    forall l1, k1, l2, k2 :: Has(levels, l1, k1) && Has(levels, l2, k2) && (l1 != l2 || k1 != k2) ==>
      At(levels, l1, k1).num != At(levels, l2, k2).num
  }

  ghost predicate NumTaken(levels: seq<Level>, n: int)
  {
    exists l, k :: Has(levels, l, k) && At(levels, l, k).num == n
  }

  /** Every number in 1 .. ecounter belongs to some entity. */
  ghost predicate DenseNums(levels: seq<Level>, ecounter: int)
  {
    forall n :: 1 <= n <= ecounter ==> NumTaken(levels, n)
  }

  /**
   * The invariant of the entity sets: the entities are well formed and
   * their numbers are exactly 1 .. ecounter, each used once.
   */
  ghost predicate WellNumbered(m: Merged)
  {
    m.ecounter >= 0 && EntitiesOk(m.levels, m.ecounter) && DistinctNums(m.levels) && DenseNums(m.levels, m.ecounter)
  }

  /** Merging a ring into an entity keeps its box covering all its rings. */
  lemma {:induction false} CoversMerge(e: Entity, pts: seq<Point>)
    requires Covers(e)
    ensures Covers(e.(bb := Union(e.bb, BoxOf(pts)), polys := e.polys + [pts]))
  {
    var e' := e.(bb := Union(e.bb, BoxOf(pts)), polys := e.polys + [pts]);
    BoxOfInside(pts);
    UnionSpec(e.bb, BoxOf(pts), 0, 0);
    forall r, j | 0 <= r < |e'.polys| && 0 <= j < |e'.polys[r]|
      ensures InsideBox(e'.bb, e'.polys[r][j].0, e'.polys[r][j].1)
    {
      UnionSpec(e.bb, BoxOf(pts), e'.polys[r][j].0, e'.polys[r][j].1);
    }
  }

  /** A new entity's box covers its single ring. */
  lemma {:induction false} CoversNew(key: string, num: int, pts: seq<Point>)
    ensures Covers(Entity(key, num, BoxOf(pts), [pts]))
  {
    BoxOfInside(pts);
  }

  /** `start` keeps the entity sets well numbered, line after line. */
  lemma {:induction false} MergeLinePreserves(m: Merged, line: Option<Line>, minsize: int)
    requires WellNumbered(m)
    ensures WellNumbered(MergeLine(m, line, minsize))
    ensures MergeLine(m, line, minsize).ecounter == m.ecounter || MergeLine(m, line, minsize).ecounter == m.ecounter + 1
    ensures |MergeLine(m, line, minsize).levels| == |m.levels|
  {
    if line.Some? && Kept(m.levels, line.value, minsize) {
      var l := line.value;
      var key := KeyOf(l);
      var lev := m.levels[l.level].value;
      if key in lev {
        var e := lev[key];
        assert Has(m.levels, l.level, key);
        var e' := e.(bb := Union(e.bb, BoxOf(l.pts)), polys := e.polys + [l.pts]);
        CoversMerge(e, l.pts);
        SameNums(m.levels, l.level, key, e', m.ecounter);
        assert MergeLine(m, line, minsize) == Merged(m.levels[l.level := Some(lev[key := e'])], m.ecounter);
      } else {
        var e' := Entity(key, m.ecounter + 1, BoxOf(l.pts), [l.pts]);
        CoversNew(key, m.ecounter + 1, l.pts);
        NewNum(m.levels, l.level, key, e', m.ecounter);
        assert MergeLine(m, line, minsize) == Merged(m.levels[l.level := Some(lev[key := e'])], m.ecounter + 1);
      }
    }
  }

  /** Replacing an entity by one with the same key and number keeps the invariant. */
  lemma {:induction false} SameNums(levels: seq<Level>, l0: int, k0: string, e: Entity, ec: int)
    requires Has(levels, l0, k0) && e.key == k0 && e.num == At(levels, l0, k0).num && e.polys != [] && Covers(e)
    requires EntitiesOk(levels, ec) && DistinctNums(levels) && DenseNums(levels, ec)
    ensures var levels' := levels[l0 := Some(levels[l0].value[k0 := e])];
      EntitiesOk(levels', ec) && DistinctNums(levels') && DenseNums(levels', ec)
  {
    var levels' := levels[l0 := Some(levels[l0].value[k0 := e])];
    assert forall l, k :: Has(levels', l, k) <==> Has(levels, l, k);
    assert forall l, k :: Has(levels, l, k) ==> At(levels', l, k).num == At(levels, l, k).num;
    forall n | 1 <= n <= ec
      ensures NumTaken(levels', n)
    {
      assert NumTaken(levels, n);
      var l, k :| Has(levels, l, k) && At(levels, l, k).num == n;
      assert Has(levels', l, k) && At(levels', l, k).num == n;
    }
  }

  /** Adding an entity under a new key with the next number keeps the invariant, one number higher. */
  lemma {:induction false} NewNum(levels: seq<Level>, l0: int, k0: string, e: Entity, ec: int)
    requires 0 <= l0 < |levels| && levels[l0].Some? && !Has(levels, l0, k0)
    requires e.key == k0 && e.num == ec + 1 && e.polys != [] && Covers(e) && ec >= 0
    requires EntitiesOk(levels, ec) && DistinctNums(levels) && DenseNums(levels, ec)
    ensures var levels' := levels[l0 := Some(levels[l0].value[k0 := e])];
      EntitiesOk(levels', ec + 1) && DistinctNums(levels') && DenseNums(levels', ec + 1)
  {
    var levels' := levels[l0 := Some(levels[l0].value[k0 := e])];
    assert forall l, k :: Has(levels', l, k) <==> Has(levels, l, k) || (l == l0 && k == k0);
    assert forall l, k :: Has(levels, l, k) ==> At(levels', l, k) == At(levels, l, k);
    forall n | 1 <= n <= ec + 1
      ensures NumTaken(levels', n)
    {
      if n <= ec {
        assert NumTaken(levels, n);
        var l, k :| Has(levels, l, k) && At(levels, l, k).num == n;
        assert Has(levels', l, k) && At(levels', l, k).num == n;
      } else {
        assert Has(levels', l0, k0) && At(levels', l0, k0).num == n;
      }
    }
  }

  lemma {:induction false} MergeAllPreserves(m: Merged, lines: seq<Option<Line>>, minsize: int)
    requires WellNumbered(m)
    ensures WellNumbered(MergeAll(m, lines, minsize)) && |MergeAll(m, lines, minsize).levels| == |m.levels|
    ensures MergeAll(m, lines, minsize).ecounter <= m.ecounter + |lines|
    decreases |lines|
  {
    if lines != [] {
      MergeLinePreserves(m, lines[0], minsize);
      MergeAllPreserves(MergeLine(m, lines[0], minsize), lines[1..], minsize);
    }
  }

  /** The entity sets start out empty at the used levels. */
  lemma {:induction false} EmptyWellNumbered(used: seq<bool>)
    ensures WellNumbered(Merged(seq(|used|, l requires 0 <= l < |used| => if used[l] then Some(map[]) else None), 0))
  {
  }

  /**
   * What one kept line does: its entity exists afterwards at its level,
   * with the line's ring as its last ring and every point of that ring
   * inside its box; it keeps its number when the key existed and gets
   * `ecounter + 1` otherwise; every other entity is unchanged.
   */
  lemma {:induction false} MergeLineSpec(m: Merged, l: Line, minsize: int)
    requires WellNumbered(m) && Kept(m.levels, l, minsize)
    ensures var m' := MergeLine(m, Some(l), minsize);
      Has(m'.levels, l.level, KeyOf(l))
      && At(m'.levels, l.level, KeyOf(l)).polys[|At(m'.levels, l.level, KeyOf(l)).polys| - 1] == l.pts
      && (forall j :: 0 <= j < |l.pts| ==> InsideBox(At(m'.levels, l.level, KeyOf(l)).bb, l.pts[j].0, l.pts[j].1))
      && (if Has(m.levels, l.level, KeyOf(l))
          then At(m'.levels, l.level, KeyOf(l)).num == At(m.levels, l.level, KeyOf(l)).num && m'.ecounter == m.ecounter
          else At(m'.levels, l.level, KeyOf(l)).num == m'.ecounter == m.ecounter + 1)
      && (forall l1, k1 :: Has(m.levels, l1, k1) && (l1 != l.level || k1 != KeyOf(l)) ==>
            Has(m'.levels, l1, k1) && At(m'.levels, l1, k1) == At(m.levels, l1, k1))
  {
    MergeLinePreserves(m, Some(l), minsize);
    var m' := MergeLine(m, Some(l), minsize);
    assert Has(m'.levels, l.level, KeyOf(l));
    var e := At(m'.levels, l.level, KeyOf(l));
    assert Covers(e);
    forall j | 0 <= j < |l.pts|
      ensures InsideBox(e.bb, l.pts[j].0, l.pts[j].1)
    {
      assert l.pts[j] == e.polys[|e.polys| - 1][j];
    }
  }

  // ---------------------------------------------------------------------------
  // Numbers and records.

  /** The numbers of the entities of one level. */
  function NumsOf(lev: map<string, Entity>): set<int>
  {
    set k | k in lev :: lev[k].num
  }

  /** The numbers of the entities of the levels below `l`. */
  function NumsBelow(levels: seq<Level>, l: nat): set<int>
    requires l <= |levels|
  {
    if l == 0 then {}
    else NumsBelow(levels, l - 1) + (if levels[l - 1].Some? then NumsOf(levels[l - 1].value) else {})
  }

  lemma {:induction false} NumsBelowSpec(levels: seq<Level>, l: nat, n: int)
    requires l <= |levels|
    ensures n in NumsBelow(levels, l) <==> exists l1, k :: 0 <= l1 < l && Has(levels, l1, k) && At(levels, l1, k).num == n
  {
    if l > 0 {
      NumsBelowSpec(levels, l - 1, n);
      if n in NumsBelow(levels, l) && n !in NumsBelow(levels, l - 1) {
        var k :| k in levels[l - 1].value && levels[l - 1].value[k].num == n;
        assert Has(levels, l - 1, k);
      }
      if exists l1, k :: 0 <= l1 < l && Has(levels, l1, k) && At(levels, l1, k).num == n {
        var l1, k :| 0 <= l1 < l && Has(levels, l1, k) && At(levels, l1, k).num == n;
        if l1 == l - 1 {
          assert n in NumsOf(levels[l - 1].value);
        }
      }
    }
  }

  /**
   * The first loop of the sliced `buildIndex`: record 0 is the empty string
   * and each entity's key is recorded under its number.
   */
  method CollectKeys(levels: seq<Level>, ghost ecounter: int) returns (meta: map<int, string>)
    requires WellNumbered(Merged(levels, ecounter))
    ensures forall n :: n in meta <==> 0 <= n <= ecounter
    ensures meta[0] == ""
    ensures forall l, k :: Has(levels, l, k) ==> meta[At(levels, l, k).num] == k
  {
    meta := map[0 := ""];
    for l := 0 to |levels|
      invariant meta.Keys == {0} + NumsBelow(levels, l)
      invariant meta[0] == ""
      invariant forall l1, k :: 0 <= l1 < l && Has(levels, l1, k) ==> At(levels, l1, k).num in meta && meta[At(levels, l1, k).num] == k
    {
      if levels[l].None? {
        continue;
      }
      forall k | k in levels[l].value
        ensures levels[l].value[k].key == k && levels[l].value[k].num != 0
      {
        assert Has(levels, l, k);
      }
      ghost var before := meta;
      meta := CollectLevel(levels, l, meta);
      forall l1, k | 0 <= l1 < l && Has(levels, l1, k)
        ensures At(levels, l1, k).num in meta && meta[At(levels, l1, k).num] == k
      {
        var n := At(levels, l1, k).num;
        NumsBelowSpec(levels, l, n);
        forall k2 | k2 in levels[l].value
          ensures levels[l].value[k2].num != n
        {
          assert Has(levels, l, k2);
        }
      }
    }
    forall n
      ensures n in meta <==> 0 <= n <= ecounter
    {
      NumsBelowSpec(levels, |levels|, n);
      if 1 <= n <= ecounter {
        assert NumTaken(levels, n);
      }
    }
  }

  /** The inner loop over the entities of one level, in the set's iteration order. */
  method CollectLevel(levels: seq<Level>, l: nat, meta: map<int, string>) returns (meta': map<int, string>)
    requires l < |levels| && levels[l].Some? && DistinctNums(levels)
    requires forall k :: k in levels[l].value ==> levels[l].value[k].key == k && levels[l].value[k].num != 0
    ensures meta'.Keys == meta.Keys + NumsOf(levels[l].value)
    ensures forall k :: k in levels[l].value ==> meta'[levels[l].value[k].num] == k
    ensures forall n :: n in meta && n !in NumsOf(levels[l].value) ==> meta'[n] == meta[n]
  {
    var lev := levels[l].value;
    var rest := lev.Keys;
    meta' := meta;
    while rest != {}
      invariant rest <= lev.Keys
      invariant meta'.Keys == meta.Keys + (set k | k in lev && k !in rest :: lev[k].num)
      invariant forall k :: k in lev && k !in rest ==> meta'[lev[k].num] == k
      invariant forall n :: n in meta && n !in NumsOf(lev) ==> meta'[n] == meta[n]
      decreases rest
    {
      var k :| k in rest;
      forall k2 | k2 in lev && k2 !in rest
        ensures lev[k2].num != lev[k].num
      {
        assert Has(levels, l, k) && Has(levels, l, k2);
      }
      meta' := meta'[lev[k].num := lev[k].key];
      rest := rest - {k};
    }
  }

  // ---------------------------------------------------------------------------
  // Numbering while rendering (the other two builders).

  /** The entities `render` draws: those with at least one ring, level after level, in each level's order. */
  function Drawn(orders: seq<seq<Entity>>): seq<Entity>
  {
    if orders == [] then [] else Drawn(orders[..|orders| - 1]) + Drawable(orders[|orders| - 1])
  }

  function Drawable(order: seq<Entity>): seq<Entity>
  {
    if order == [] then [] else Drawable(order[..|order| - 1]) + (if order[|order| - 1].polys != [] then [order[|order| - 1]] else [])
  }

  /**
   * The entities' `compareTo`, `Double.compare` of the box sizes reversed:
   * after `Collections.sort` the largest box comes first.
   */
  predicate SortedBySize(order: seq<Entity>)
  {
    forall i :: 0 < i < |order| ==> CompareLe(Size(order[i].bb), Size(order[i - 1].bb))
  }

  /** `new ArrayList<>(set)`: each entity of the set, stored under its key, exactly once. */
  predicate ListsSet(order: seq<Entity>, ents: map<string, Entity>)
  {
    (forall i :: 0 <= i < |order| ==> order[i].key in ents && ents[order[i].key] == order[i])
    && (forall k :: k in ents ==> ents[k] in order)
    && (forall i, j :: 0 <= i < j < |order| ==> order[i].key != order[j].key)
  }

  /** The order `render` draws one level in: nothing for an unused level, else the level's entities sorted. */
  predicate LevelOrder(lev: Level, order: seq<Entity>)
  {
    if lev.None? then order == [] else ListsSet(order, lev.value) && SortedBySize(order)
  }

  /** Between any two positions of a sorted order, the earlier box is at least as large. */
  lemma {:induction false} SortedPairs(order: seq<Entity>, i: int, j: int)
    requires SortedBySize(order) && 0 <= i < j < |order|
    ensures CompareLe(Size(order[j].bb), Size(order[i].bb))
    decreases j - i
  {
    if j > i + 1 {
      SortedPairs(order, i, j - 1);
      CompareLeTrans(Size(order[j].bb), Size(order[j - 1].bb), Size(order[i].bb));
    }
  }

  /** Skipping the entities without rings keeps the order sorted. */
  lemma {:induction false} DrawableSorted(order: seq<Entity>)
    requires SortedBySize(order)
    ensures SortedBySize(Drawable(order))
  {
    if order != [] {
      var n := |order| - 1;
      var init := order[..n];
      assert SortedBySize(init) by {
        forall i | 0 < i < |init|
          ensures CompareLe(Size(init[i].bb), Size(init[i - 1].bb))
        {
          assert init[i] == order[i] && init[i - 1] == order[i - 1];
        }
      }
      DrawableSorted(init);
      var d := Drawable(init);
      if order[n].polys != [] && d != [] {
        DrawableSpec(init, d[|d| - 1]);
        var p :| 0 <= p < n && init[p] == d[|d| - 1];
        SortedPairs(order, p, n);
        var d' := Drawable(order);
        assert d' == d + [order[n]];
        forall i | 0 < i < |d'|
          ensures CompareLe(Size(d'[i].bb), Size(d'[i - 1].bb))
        {
          if i < |d| {
            assert d'[i] == d[i] && d'[i - 1] == d[i - 1];
          }
        }
      }
    }
  }

  /** `render` of the layered builder draws exactly the entities with rings of all levels. */
  lemma {:induction false} DrawnSpec(orders: seq<seq<Entity>>, e: Entity)
    ensures e in Drawn(orders) <==> e.polys != [] && exists l :: 0 <= l < |orders| && e in orders[l]
  {
    if orders != [] {
      var n := |orders| - 1;
      var init := orders[..n];
      DrawnSpec(init, e);
      DrawableSpec(orders[n], e);
      if e.polys != [] && exists l :: 0 <= l < |orders| && e in orders[l] {
        var l :| 0 <= l < |orders| && e in orders[l];
        if l < n {
          assert e in init[l];
        }
      }
      if e in Drawn(init) {
        var l :| 0 <= l < |init| && e in init[l];
        assert e in orders[l];
      }
    }
  }

  /** The entities drawn for the first `n` levels come first. */
  lemma {:induction false} DrawnPrefix(orders: seq<seq<Entity>>, n: nat)
    requires n <= |orders|
    ensures |Drawn(orders[..n])| <= |Drawn(orders)|
    ensures Drawn(orders)[..|Drawn(orders[..n])|] == Drawn(orders[..n])
    decreases |orders|
  {
    if n < |orders| {
      var m := |orders| - 1;
      assert orders[..m][..n] == orders[..n];
      DrawnPrefix(orders[..m], n);
    } else {
      assert orders[..n] == orders;
    }
  }

  /** The number of entities drawn before level `l`: that level's block starts here. */
  function LevelStart(orders: seq<seq<Entity>>, l: nat): nat
    requires l <= |orders|
  {
    |Drawn(orders[..l])|
  }

  /** The block of level `l` in the drawing order goes from the largest box to the smallest. */
  predicate LevelSorted(orders: seq<seq<Entity>>, l: nat)
    requires l < |orders|
  {
    LevelStart(orders, l + 1) <= |Drawn(orders)|
    && forall i, j :: LevelStart(orders, l) <= i < j < LevelStart(orders, l + 1) ==>
      CompareLe(Size(Drawn(orders)[j].bb), Size(Drawn(orders)[i].bb))
  }

  /**
   * Within the block of one level, the drawing order (and so the
   * numbering) goes from the largest box to the smallest.
   */
  lemma {:induction false} DrawnLevelSorted(orders: seq<seq<Entity>>, l: nat, i: int, j: int)
    requires l < |orders| && SortedBySize(orders[l])
    requires LevelStart(orders, l) <= i < j < LevelStart(orders, l + 1)
    ensures j < |Drawn(orders)| && CompareLe(Size(Drawn(orders)[j].bb), Size(Drawn(orders)[i].bb))
  {
    var a := |Drawn(orders[..l])|;
    assert orders[..l + 1][..l] == orders[..l];
    assert Drawn(orders[..l + 1]) == Drawn(orders[..l]) + Drawable(orders[l]);
    DrawnPrefix(orders, l + 1);
    assert Drawn(orders)[i] == Drawable(orders[l])[i - a] && Drawn(orders)[j] == Drawable(orders[l])[j - a];
    DrawableSorted(orders[l]);
    SortedPairs(Drawable(orders[l]), i - a, j - a);
  }

  /**
   * The numbering of the layered `render`: each level's entities are
   * sorted by `compareTo`; `entnum` starts at 1 and grows by one per drawn
   * entity; record 0 is the empty string and record `entnum` the entity's
   * key. Returned with the records: each drawn entity with its number.
   * Every entity with a ring gets a number, and within a level the larger
   * box gets the smaller number.
   */
  method NumberLayered(ghost levels: seq<Level>, orders: seq<seq<Entity>>) returns (meta: seq<string>, drawn: seq<(int, Entity)>)
    requires |orders| == |levels|
    requires forall l :: 0 <= l < |levels| ==> LevelOrder(levels[l], orders[l])
    ensures |drawn| == |Drawn(orders)| && |meta| == |drawn| + 1 && meta[0] == ""
    ensures forall j :: 0 <= j < |drawn| ==> drawn[j] == (j + 1, Drawn(orders)[j]) && meta[j + 1] == Drawn(orders)[j].key
    ensures forall e :: e in Drawn(orders) ==>
      e.polys != [] && exists l :: Has(levels, l, e.key) && At(levels, l, e.key) == e
    ensures forall l, k :: Has(levels, l, k) && At(levels, l, k).polys != [] ==> At(levels, l, k) in Drawn(orders)
    ensures forall l :: 0 <= l < |orders| ==> LevelSorted(orders, l)
  {
    forall l | 0 <= l < |orders|
      ensures SortedBySize(orders[l])
    {
      assert LevelOrder(levels[l], orders[l]);
    }
    meta, drawn := NumberLevels(orders);
    DrawnLevels(levels, orders);
  }

  /** The loop over the levels: each sorted level continues the numbering. */
  method NumberLevels(orders: seq<seq<Entity>>) returns (meta: seq<string>, drawn: seq<(int, Entity)>)
    requires forall l :: 0 <= l < |orders| ==> SortedBySize(orders[l])
    ensures |drawn| == |Drawn(orders)| && |meta| == |drawn| + 1 && meta[0] == ""
    ensures forall j :: 0 <= j < |drawn| ==> drawn[j] == (j + 1, Drawn(orders)[j]) && meta[j + 1] == Drawn(orders)[j].key
  {
    meta := [""];
    drawn := [];
    for lev := 0 to |orders|
      invariant |drawn| == |Drawn(orders[..lev])| && |meta| == |drawn| + 1 && meta[0] == ""
      invariant forall j :: 0 <= j < |drawn| ==> drawn[j] == (j + 1, Drawn(orders[..lev])[j]) && meta[j + 1] == Drawn(orders[..lev])[j].key
    {
      assert orders[..lev + 1][..lev] == orders[..lev];
      assert Drawn(orders[..lev + 1]) == Drawn(orders[..lev]) + Drawable(orders[lev]);
      meta, drawn := NumberLevel(orders[lev], meta, drawn);
    }
    assert orders[..|orders|] == orders;
  }

  lemma {:induction false} LevelSortedIn(orders: seq<seq<Entity>>, l: nat)
    requires l < |orders| && SortedBySize(orders[l])
    ensures LevelSorted(orders, l)
  {
    DrawnPrefix(orders, l + 1);
    forall i, j | LevelStart(orders, l) <= i < j < LevelStart(orders, l + 1)
      ensures CompareLe(Size(Drawn(orders)[j].bb), Size(Drawn(orders)[i].bb))
    {
      DrawnLevelSorted(orders, l, i, j);
    }
  }

  /**
   * What the layered drawing order promises: every drawn entity is an entity
   * of some level with a ring, every such entity is drawn, and within the
   * block of a level the larger box comes first.
   */
  lemma {:induction false} DrawnLevels(levels: seq<Level>, orders: seq<seq<Entity>>)
    requires |orders| == |levels|
    requires forall l :: 0 <= l < |levels| ==> LevelOrder(levels[l], orders[l])
    ensures forall e :: e in Drawn(orders) ==>
      e.polys != [] && exists l :: Has(levels, l, e.key) && At(levels, l, e.key) == e
    ensures forall l, k :: Has(levels, l, k) && At(levels, l, k).polys != [] ==> At(levels, l, k) in Drawn(orders)
    ensures forall l :: 0 <= l < |orders| ==> LevelSorted(orders, l)
  {
    forall e | e in Drawn(orders)
      ensures e.polys != [] && exists l :: Has(levels, l, e.key) && At(levels, l, e.key) == e
    {
      DrawnSpec(orders, e);
      var l :| 0 <= l < |orders| && e in orders[l];
      var p :| 0 <= p < |orders[l]| && orders[l][p] == e;
      assert levels[l].Some? && e.key in levels[l].value && levels[l].value[e.key] == e;
      assert Has(levels, l, e.key);
    }
    forall l, k | Has(levels, l, k) && At(levels, l, k).polys != []
      ensures At(levels, l, k) in Drawn(orders)
    {
      assert At(levels, l, k) in orders[l];
      DrawnSpec(orders, At(levels, l, k));
    }
    forall l | 0 <= l < |orders|
      ensures LevelSorted(orders, l)
    {
      assert LevelOrder(levels[l], orders[l]);
      LevelSortedIn(orders, l);
    }
  }

  /** The loop over the entities of one level, continuing the numbering from `|drawn| + 1`. */
  method NumberLevel(order: seq<Entity>, meta: seq<string>, drawn: seq<(int, Entity)>) returns (meta': seq<string>, drawn': seq<(int, Entity)>)
    requires |meta| == |drawn| + 1 && SortedBySize(order)
    ensures |drawn'| == |drawn| + |Drawable(order)| && |meta'| == |drawn'| + 1
    ensures drawn'[..|drawn|] == drawn && meta'[..|meta|] == meta
    ensures forall j :: 0 <= j < |Drawable(order)| ==>
      drawn'[|drawn| + j] == (|drawn| + j + 1, Drawable(order)[j]) && meta'[|meta| + j] == Drawable(order)[j].key
    ensures forall i, j :: |drawn| <= i < j < |drawn'| ==> CompareLe(Size(drawn'[j].1.bb), Size(drawn'[i].1.bb))
  {
    meta', drawn' := meta, drawn;
    var entnum := |drawn| + 1;
    for i := 0 to |order|
      invariant |drawn'| == |drawn| + |Drawable(order[..i])| && |meta'| == |drawn'| + 1 && entnum == |meta'|
      invariant drawn'[..|drawn|] == drawn && meta'[..|meta|] == meta
      invariant forall j :: 0 <= j < |Drawable(order[..i])| ==>
        drawn'[|drawn| + j] == (|drawn| + j + 1, Drawable(order[..i])[j]) && meta'[|meta| + j] == Drawable(order[..i])[j].key
    {
      assert order[..i + 1][..i] == order[..i];
      var e := order[i];
      if |e.polys| <= 0 {
        continue;
      }
      meta' := meta' + [e.key];
      drawn' := drawn' + [(entnum, e)];
      entnum := entnum + 1;
    }
    assert order[..|order|] == order;
    AppendedSorted(order, drawn, drawn');
  }

  /** A block that lists the drawable entities of a sorted level is sorted. */
  lemma {:induction false} AppendedSorted(order: seq<Entity>, drawn: seq<(int, Entity)>, drawn': seq<(int, Entity)>)
    requires SortedBySize(order) && |drawn'| == |drawn| + |Drawable(order)|
    requires forall j :: 0 <= j < |Drawable(order)| ==> drawn'[|drawn| + j].1 == Drawable(order)[j]
    ensures forall i, j :: |drawn| <= i < j < |drawn'| ==> CompareLe(Size(drawn'[j].1.bb), Size(drawn'[i].1.bb))
  {
    DrawableSorted(order);
    forall i, j | |drawn| <= i < j < |drawn'|
      ensures CompareLe(Size(drawn'[j].1.bb), Size(drawn'[i].1.bb))
    {
      assert drawn'[i].1 == Drawable(order)[i - |drawn|] && drawn'[j].1 == Drawable(order)[j - |drawn|];
      SortedPairs(Drawable(order), i - |drawn|, j - |drawn|);
    }
  }

  /** The entities of the version-0 `render`, numbered by their position in the order whether drawn or not. */
  function DrawnV0(order: seq<Entity>): seq<(int, Entity)>
  {
    if order == [] then []
    else DrawnV0(order[..|order| - 1]) + (if order[|order| - 1].polys != [] then [(|order|, order[|order| - 1])] else [])
  }

  /**
   * The numbering loop of the version-0 `render`: `entnum` is incremented
   * before the test for rings, so an entity without rings still uses up a
   * number. The order is the builder's entity set sorted by `compareTo`;
   * every entity with a ring is drawn, and a larger box gets a smaller
   * number.
   */
  method NumberV0(ghost ents: map<string, Entity>, order: seq<Entity>) returns (drawn: seq<(int, Entity)>)
    requires ListsSet(order, ents) && SortedBySize(order)
    ensures drawn == DrawnV0(order)
    ensures forall j :: 0 <= j < |drawn| ==>
      drawn[j].1.key in ents && ents[drawn[j].1.key] == drawn[j].1 && drawn[j].1.polys != []
    ensures forall k :: k in ents && ents[k].polys != [] ==> exists j :: 0 <= j < |drawn| && drawn[j].1 == ents[k]
    ensures forall i, j :: 0 <= i < j < |drawn| ==> CompareLe(Size(drawn[j].1.bb), Size(drawn[i].1.bb))
  {
    drawn := [];
    var entnum := 0;
    for i := 0 to |order|
      invariant entnum == i && drawn == DrawnV0(order[..i])
    {
      assert order[..i + 1][..i] == order[..i];
      entnum := entnum + 1;
      var e := order[i];
      if |e.polys| <= 0 {
        continue;
      }
      drawn := drawn + [(entnum, e)];
    }
    assert order[..|order|] == order;
    DrawnV0Set(ents, order);
    DrawnV0Sorted(order);
  }

  /**
   * What the version-0 numbering promises for a listing of the entity set:
   * exactly the entities with a ring are drawn.
   */
  lemma {:induction false} DrawnV0Set(ents: map<string, Entity>, order: seq<Entity>)
    requires ListsSet(order, ents)
    ensures forall j :: 0 <= j < |DrawnV0(order)| ==>
      DrawnV0(order)[j].1.key in ents && ents[DrawnV0(order)[j].1.key] == DrawnV0(order)[j].1 && DrawnV0(order)[j].1.polys != []
    ensures forall k :: k in ents && ents[k].polys != [] ==> exists j :: 0 <= j < |DrawnV0(order)| && DrawnV0(order)[j].1 == ents[k]
  {
    DrawnV0Positions(order);
    forall k | k in ents && ents[k].polys != []
      ensures exists j :: 0 <= j < |DrawnV0(order)| && DrawnV0(order)[j].1 == ents[k]
    {
      var p :| 0 <= p < |order| && order[p] == ents[k];
      DrawnV0Covers(order, p);
    }
  }

  /** For a sorted order, a smaller version-0 number goes to a box at least as large. */
  lemma {:induction false} DrawnV0Sorted(order: seq<Entity>)
    requires SortedBySize(order)
    ensures forall i, j :: 0 <= i < j < |DrawnV0(order)| ==> CompareLe(Size(DrawnV0(order)[j].1.bb), Size(DrawnV0(order)[i].1.bb))
  {
    var d := DrawnV0(order);
    DrawnV0Positions(order);
    DrawnV0Increasing(order);
    forall i, j | 0 <= i < j < |d|
      ensures CompareLe(Size(d[j].1.bb), Size(d[i].1.bb))
    {
      SortedPairs(order, d[i].0 - 1, d[j].0 - 1);
    }
  }

  /** The version-0 `render` draws every entity that has a ring, under its position. */
  lemma {:induction false} DrawnV0Covers(order: seq<Entity>, p: int)
    requires 0 <= p < |order| && order[p].polys != []
    ensures exists j :: 0 <= j < |DrawnV0(order)| && DrawnV0(order)[j] == (p + 1, order[p])
  {
    var n := |order| - 1;
    if p < n {
      DrawnV0Covers(order[..n], p);
      var j :| 0 <= j < |DrawnV0(order[..n])| && DrawnV0(order[..n])[j] == (p + 1, order[..n][p]);
      assert DrawnV0(order)[j] == (p + 1, order[p]);
    } else {
      assert DrawnV0(order)[|DrawnV0(order)| - 1] == (p + 1, order[p]);
    }
  }

  /**
   * Version-0 numbers are positions: entity number `n` is `order[n - 1]`,
   * which is what the version-0 metadata relies on.
   */
  lemma {:induction false} DrawnV0Positions(order: seq<Entity>)
    ensures forall j :: 0 <= j < |DrawnV0(order)| ==>
      1 <= DrawnV0(order)[j].0 <= |order| && DrawnV0(order)[j].1 == order[DrawnV0(order)[j].0 - 1] && DrawnV0(order)[j].1.polys != []
  {
    if order != [] {
      var n := |order| - 1;
      DrawnV0Positions(order[..n]);
      forall j | 0 <= j < |DrawnV0(order[..n])|
        ensures order[..n][DrawnV0(order[..n])[j].0 - 1] == order[DrawnV0(order[..n])[j].0 - 1]
      {
      }
    }
  }

  /** Version-0 numbers increase strictly along the drawing order. */
  lemma {:induction false} DrawnV0Increasing(order: seq<Entity>)
    ensures forall j :: 0 <= j < |DrawnV0(order)| ==> DrawnV0(order)[j].0 <= |order|
    ensures forall i, j :: 0 <= i < j < |DrawnV0(order)| ==> DrawnV0(order)[i].0 < DrawnV0(order)[j].0
  {
    if order != [] {
      DrawnV0Increasing(order[..|order| - 1]);
    }
  }

  /** Version-0 numbers are dense (1, 2, ...) exactly when every entity has a ring. */
  lemma {:induction false} DrawnV0Dense(order: seq<Entity>)
    requires forall k :: 0 <= k < |order| ==> order[k].polys != []
    ensures |DrawnV0(order)| == |order|
    ensures forall j :: 0 <= j < |order| ==> DrawnV0(order)[j].0 == j + 1
  {
    if order != [] {
      var n := |order| - 1;
      assert forall k :: 0 <= k < n ==> order[..n][k] == order[k];
      DrawnV0Dense(order[..n]);
    }
  }

  /** Drawn entities of the layered builders are exactly those with rings. */
  lemma {:induction false} DrawableSpec(order: seq<Entity>, e: Entity)
    ensures e in Drawable(order) <==> e in order && e.polys != []
  {
    if order != [] {
      var n := |order| - 1;
      DrawableSpec(order[..n], e);
      assert order == order[..n] + [order[n]];
    }
  }
  /**
   * The entity sets of the sliced builder, updated line by line by `start`.
   * (The layered builder merges identically and does not use the number.)
   */
  class EntitySets {
    var levels: seq<Level>
    var ecounter: int

    function State(): Merged
      reads this
    {
      Merged(levels, ecounter)
    }

    /** Empty sets at the used levels, nothing elsewhere, the counter at 0. */
    constructor (used: seq<bool>)
      ensures State() == Merged(seq(|used|, l requires 0 <= l < |used| => if used[l] then Some(map[]) else None), 0)
    {
      levels := seq(|used|, l requires 0 <= l < |used| => if used[l] then Some(map[]) else None);
      ecounter := 0;
    }

    method AddLine(line: Option<Line>, minsize: int)
      modifies this
      ensures State() == MergeLine(old(State()), line, minsize)
    {
      if line.None? {
        return;
      }
      var l := line.value;
      if l.pts == [] || Lt(Size(BoxOf(l.pts)), Fin(minsize)) || l.level >= |levels| || levels[l.level].None? {
        return;
      }
      var lev := levels[l.level].value;
      var key := KeyOf(l);
      if key in lev {
        var exist := lev[key];
        levels := levels[l.level := Some(lev[key := exist.(bb := Union(exist.bb, BoxOf(l.pts)), polys := exist.polys + [l.pts])])];
      } else {
        ecounter := ecounter + 1;
        levels := levels[l.level := Some(lev[key := Entity(key, ecounter, BoxOf(l.pts), [l.pts])])];
      }
    }

    /**
     * The reading loop of `start` followed by its check that entity numbers
     * leave the top byte of a raster cell free.
     */
    method ReadLines(lines: seq<Option<Line>>, minsize: int) returns (r: Result<int, EntityError>)
      modifies this
      ensures State() == MergeAll(old(State()), lines, minsize)
      ensures r == if ecounter >= 0x0100_0000 then Err(TooManyEntities(ecounter)) else Ok(ecounter)
    {
      for i := 0 to |lines|
        invariant MergeAll(old(State()), lines, minsize) == MergeAll(State(), lines[i..], minsize)
      {
        assert lines[i..][1..] == lines[i + 1..];
        AddLine(lines[i], minsize);
      }
      if ecounter >= 0x0100_0000 {
        return Err(TooManyEntities(ecounter));
      }
      return Ok(ecounter);
    }
  }
}
