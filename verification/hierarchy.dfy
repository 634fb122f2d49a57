/**
 * Containment inference: every entity's parent is the cumulative owner it
 * overlaps most, and its metadata record gets the parent's record appended;
 * then the entity numbers still present in the final grid are renumbered to
 * dense codes.
 *
 * Metadata records are kept as strings indexed by entity number (the hash
 * maps of the builders have exactly the keys 0 .. n-1).
 */
module Hierarchy {
  import opened Binary
  import opened Raster

  /** The cumulative owners entity `i` voted for. */
  function Candidates(b: Ballots, i: int): set<i32>
  {
    set q | q in b && q.0 == i :: q.1
  }

  /** The entities that cast at least one vote: the keys of the vote map. */
  function Voters(b: Ballots): set<int>
  {
    set q | q in b :: q.0
  }

  /**
   * `best` is the candidate with the most votes, the smallest one among
   * equally voted candidates; without candidates both values stay -1.
   */
  predicate IsBestParent(b: Ballots, i: int, best: int, bcount: int)
  {
    if Candidates(b, i) == {} then best == -1 && bcount == -1
    else
      best in Candidates(b, i) && bcount == b[(i, best)]
      && forall p :: p in Candidates(b, i) ==> b[(i, p)] < bcount || (b[(i, p)] == bcount && best <= p)
  }

  /** The choice is determined by the votes alone, whatever order they are visited in. */
  lemma {:induction false} BestParentUnique(b: Ballots, i: int, best1: int, bcount1: int, best2: int, bcount2: int)
    requires IsBestParent(b, i, best1, bcount1) && IsBestParent(b, i, best2, bcount2)
    ensures best1 == best2 && bcount1 == bcount2
  {
    if Candidates(b, i) != {} {
      assert b[(i, best2)] < bcount1 || (b[(i, best2)] == bcount1 && best1 <= best2);
      assert b[(i, best1)] < bcount2 || (b[(i, best1)] == bcount2 && best2 <= best1);
    }
  }

  /**
   * The parent choice of the layered builder's `flatten`: most votes, ties
   * to the smaller candidate. (The bag iterator visits a candidate once per
   * vote; the repeated visits cannot change the choice, so each candidate is
   * visited once here.)
   */
  method PickParent(b: Ballots, i: int) returns (best: int, bcount: int)
    ensures IsBestParent(b, i, best, bcount)
  {
    best, bcount := -1, -1;
    var todo := Candidates(b, i);
    while todo != {}
      invariant todo <= Candidates(b, i)
      invariant Candidates(b, i) - todo == {} ==> best == -1 && bcount == -1
      invariant Candidates(b, i) - todo != {} ==>
        best in Candidates(b, i) - todo && bcount == b[(i, best)]
        && forall p :: p in Candidates(b, i) - todo ==> b[(i, p)] < bcount || (b[(i, p)] == bcount && best <= p)
      decreases todo
    {
      var p :| p in todo;
      assert (i, p) in b;
      var c := b[(i, p)];
      if c > bcount || (c == bcount && p < best) {
        bcount := c;
        best := p;
      }
      todo := todo - {p};
    }
  }

  // ---------------------------------------------------------------------------
  // The sliced builder's parent choice, as written.

  /**
   * The sliced builder's choice over the candidates in the order `ps` the
   * hash map yields them. The tie test compares the vote count `c` with the
   * current choice's id, so a tie goes to the later candidate exactly when
   * the count is smaller than the earlier candidate's id.
   */
  function PickSliced(b: Ballots, i: int, ps: seq<i32>): (int, int)
  {
    if ps == [] then (-1, -1)
    else
      var (best, bcount) := PickSliced(b, i, ps[..|ps| - 1]);
      var p := ps[|ps| - 1];
      var c := b[(i, p)];
      if c > bcount || (c == bcount && c < best) then (p, c) else (best, bcount)
  }

  /** The sliced choice still has the maximum vote count among the visited candidates. */
  lemma {:induction false} PickSlicedMax(b: Ballots, i: int, ps: seq<i32>)
    requires forall k :: 0 <= k < |ps| ==> ps[k] in Candidates(b, i)
    ensures var (best, bcount) := PickSliced(b, i, ps);
      if ps == [] then best == -1 && bcount == -1
      else
        best in ps && bcount == b[(i, best)] > 0
        && forall k :: 0 <= k < |ps| ==> b[(i, ps[k])] <= bcount
  {
    if ps != [] {
      var init := ps[..|ps| - 1];
      PickSlicedMax(b, i, init);
      var p := ps[|ps| - 1];
      assert (i, p) in b;
      var (best, bcount) := PickSliced(b, i, init);
      if init != [] {
        assert best in ps by {
          var k :| 0 <= k < |init| && init[k] == best;
          assert ps[k] == best;
        }
      }
      forall k | 0 <= k < |ps|
        ensures b[(i, ps[k])] <= PickSliced(b, i, ps).1
      {
        if k < |ps| - 1 {
          assert ps[k] == init[k];
        }
      }
    }
  }

  /** The votes of the sliced counterexample: candidates 1 and 2 have three votes each from entity 5. */
  function TieVotes(): Ballots
  {
    multiset{(5, 1), (5, 1), (5, 1), (5, 2), (5, 2), (5, 2)}
  }

  /**
   * With two equally voted candidates, the sliced choice depends on the
   * order the hash map yields them, while the intended rule picks candidate
   * 1 either way.
   */
  lemma {:induction false} PickSlicedOrderDependent()
    ensures PickSliced(TieVotes(), 5, [2, 1]).0 == 2
    ensures PickSliced(TieVotes(), 5, [1, 2]).0 == 1
    ensures IsBestParent(TieVotes(), 5, 1, 3)
  {
    var b := TieVotes();
    assert b[(5, 1)] == 3 && b[(5, 2)] == 3;
    assert [2, 1][..1] == [2] && [1, 2][..1] == [1];
    assert [2][..0] == [] && [1][..0] == [];
    assert Candidates(b, 5) == {1, 2} by {
      assert (5, 1) in b && (5, 2) in b;
      forall p | p in Candidates(b, 5) ensures p == 1 || p == 2 {
        var q :| q in b && q.0 == 5 && q.1 == p;
      }
    }
  }

  /** The sum of the vote counts over the visited candidates: `cnt[i]` of the sliced builder. */
  function Total(b: Ballots, i: int, ps: seq<i32>): nat
  {
    if ps == [] then 0 else Total(b, i, ps[..|ps| - 1]) + b[(i, ps[|ps| - 1])]
  }

  /** An entity that voted has a positive total; one that did not has none. */
  lemma {:induction false} TotalPositive(b: Ballots, i: int, ps: seq<i32>)
    requires forall k :: 0 <= k < |ps| ==> ps[k] in Candidates(b, i)
    ensures Total(b, i, ps) > 0 <==> ps != []
  {
    if ps != [] {
      var p := ps[|ps| - 1];
      assert (i, p) in b;
    }
  }

  /** The metadata after the sliced builder's parent loop has handled the first `n` entities of `order`. */
  function SlicedMeta(b: Ballots, order: seq<int>, entries: seq<seq<i32>>, meta: seq<string>, n: nat): (r: seq<string>)
    requires n <= |order| == |entries|
    requires forall k :: 0 <= k < |order| ==> 0 <= order[k] < |meta|
    requires forall k, j :: 0 <= k < |entries| && 0 <= j < |entries[k]| ==> 0 <= entries[k][j] < |meta|
    ensures |r| == |meta|
  {
    if n == 0 then meta
    else
      var m := SlicedMeta(b, order, entries, meta, n - 1);
      var i := order[n - 1];
      var best := PickSliced(b, i, entries[n - 1]).0;
      if best <= 0 then m
      else
        assert best in entries[n - 1] by { PickSlicedInRange(b, i, entries[n - 1], |meta|); }
        m[i := m[i] + m[best]]
  }

  lemma {:induction false} PickSlicedInRange(b: Ballots, i: int, ps: seq<i32>, n: nat)
    requires forall j :: 0 <= j < |ps| ==> 0 <= ps[j] < n
    ensures PickSliced(b, i, ps).0 == -1 || PickSliced(b, i, ps).0 in ps
  {
    if ps != [] {
      PickSlicedInRange(b, i, ps[..|ps| - 1], n);
      var best := PickSliced(b, i, ps[..|ps| - 1]).0;
      if best != -1 {
        var k :| 0 <= k < |ps| - 1 && ps[..|ps| - 1][k] == best;
        assert ps[k] == best;
      }
    }
  }

  /** The keys of the vote map in hash order, each with its candidates in hash order. */
  ghost predicate Enumerates(b: Ballots, order: seq<int>, entries: seq<seq<i32>>)
  {
    |order| == |entries|
    && (forall k, j :: 0 <= k < j < |order| ==> order[k] != order[j])
    && (forall i :: i in Voters(b) <==> i in order)
    && (forall k, j, l :: 0 <= k < |entries| && 0 <= j < l < |entries[k]| ==> entries[k][j] != entries[k][l])
    && (forall k, p :: 0 <= k < |entries| ==> (p in Candidates(b, order[k]) <==> p in entries[k]))
  }

  /**
   * The parent loop of the sliced builder's `buildIndex`: `cnt` gets every
   * voter's total, and the metadata records are extended one entity at a
   * time, in the order the hash map yields them.
   */
  method ChooseParentsSliced(b: Ballots, order: seq<int>, entries: seq<seq<i32>>, cnt: array<int>, meta: seq<string>)
    returns (meta': seq<string>)
    requires Enumerates(b, order, entries)
    requires cnt.Length == |meta|
    requires forall k :: 0 <= k < |order| ==> 0 <= order[k] < |meta|
    requires forall k, j :: 0 <= k < |entries| && 0 <= j < |entries[k]| ==> 0 <= entries[k][j] < |meta|
    modifies cnt
    ensures meta' == SlicedMeta(b, order, entries, meta, |order|)
    ensures forall k :: 0 <= k < |order| ==> cnt[order[k]] == Total(b, order[k], entries[k])
    ensures forall i :: 0 <= i < cnt.Length && i !in Voters(b) ==> cnt[i] == old(cnt[i])
  {
    meta' := meta;
    for n := 0 to |order|
      invariant meta' == SlicedMeta(b, order, entries, meta, n)
      invariant forall k :: 0 <= k < n ==> cnt[order[k]] == Total(b, order[k], entries[k])
      invariant forall i :: 0 <= i < cnt.Length && i !in order[..n] ==> cnt[i] == old(cnt[i])
    {
      var i := order[n];
      var ps := entries[n];
      var best, bcount, total := BestCandidateSliced(b, i, ps);
      PickSlicedInRange(b, i, ps, |meta|);
      assert forall k :: 0 <= k < n ==> order[k] != i;
      cnt[i] := total;
      if best > 0 {
        meta' := meta'[i := meta'[i] + meta'[best]];
      }
      assert order[..n + 1] == order[..n] + [i];
    }
    assert order[..|order|] == order;
  }

  /**
   * The inner loop of the sliced builder's parent choice: the choice as
   * written, and the total number of votes.
   */
  method BestCandidateSliced(b: Ballots, i: int, ps: seq<i32>) returns (best: int, bcount: int, total: nat)
    ensures (best, bcount) == PickSliced(b, i, ps) && total == Total(b, i, ps)
  {
    best, bcount, total := -1, -1, 0;
    for j := 0 to |ps|
      invariant (best, bcount) == PickSliced(b, i, ps[..j])
      invariant total == Total(b, i, ps[..j])
    {
      assert ps[..j + 1][..j] == ps[..j];
      var c := b[(i, ps[j])];
      total := total + c;
      if c > bcount || (c == bcount && c < best) {
        bcount := c;
        best := ps[j];
      }
    }
    assert ps[..|ps|] == ps;
  }

  /**
   * Three nested entities: 3 lies in 2, 2 lies in 1, and 1 lies in no other
   * entity (it voted for the background 0).
   */
  function NestedVotes(): Ballots
  {
    multiset{(3, 2), (2, 1), (1, 0)}
  }

  function NestedMeta(): seq<string>
  {
    ["", "A\0", "B\0", "C\0"]
  }

  /**
   * The sliced builder's metadata depends on the hash order of the entities:
   * handled child-first, entity 3's record misses its grandparent 1, while
   * parent-first gives the full chain.
   */
  lemma {:induction false} SlicedMetaOrderDependent()
    ensures SlicedMeta(NestedVotes(), [3, 2, 1], [[2], [1], [0]], NestedMeta(), 3)[3] == "C\0B\0"
    ensures SlicedMeta(NestedVotes(), [1, 2, 3], [[0], [1], [2]], NestedMeta(), 3)[3] == "C\0B\0A\0"
  {
    var b := NestedVotes();
    assert b[(3, 2)] == 1 && b[(2, 1)] == 1 && b[(1, 0)] == 1;
    assert [2][..0] == [] && [1][..0] == [] && [0][..0] == [];
    var m := NestedMeta();
    assert PickSliced(b, 3, [2]) == (2, 1) && PickSliced(b, 2, [1]) == (1, 1) && PickSliced(b, 1, [0]) == (0, 1);
    var m1 := SlicedMeta(b, [3, 2, 1], [[2], [1], [0]], m, 1);
    assert m1 == m[3 := m[3] + m[2]];
    assert m1[3] == "C\0" + "B\0" == "C\0B\0";
    var m2 := SlicedMeta(b, [3, 2, 1], [[2], [1], [0]], m, 2);
    assert m2 == m1[2 := m1[2] + m1[1]];
    assert SlicedMeta(b, [3, 2, 1], [[2], [1], [0]], m, 3) == m2;
    var n1 := SlicedMeta(b, [1, 2, 3], [[0], [1], [2]], m, 1);
    assert n1 == m;
    var n2 := SlicedMeta(b, [1, 2, 3], [[0], [1], [2]], m, 2);
    assert n2 == m[2 := m[2] + m[1]];
    assert n2[2] == "B\0" + "A\0" == "B\0A\0";
    var n3 := SlicedMeta(b, [1, 2, 3], [[0], [1], [2]], m, 3);
    assert n3 == n2[3 := n2[3] + n2[2]];
    assert n3[3] == "C\0" + "B\0A\0" == "C\0B\0A\0";
  }

  // ---------------------------------------------------------------------------
  // The layered builder: one level at a time.

  /** Every vote names entity numbers that have a record, and no voter is a candidate of the same round. */
  predicate LevelVotes(b: Ballots, n: nat)
  {
    (forall q :: q in b ==> 0 <= q.0 < n && 0 <= q.1 < n)
    && (forall q, r :: q in b && r in b ==> q.0 != r.1)
  }

  /**
   * After one level: every voter's record is its own record followed by its
   * parent's record, when the parent is an entity; every other record is
   * unchanged.
   */
  ghost predicate ReducedMeta(b: Ballots, meta: seq<string>, meta': seq<string>)
  {
    |meta'| == |meta|
    && forall i, best, bcount :: 0 <= i < |meta| && IsBestParent(b, i, best, bcount) ==>
      meta'[i] == if 0 < best < |meta| then meta[i] + meta[best] else meta[i]
  }

  /** The middle loop of the layered builder's `flatten`, over the entities that voted. */
  method ReduceMeta(b: Ballots, meta: seq<string>) returns (meta': seq<string>)
    requires LevelVotes(b, |meta|)
    ensures ReducedMeta(b, meta, meta')
  {
    meta' := meta;
    var todo := Voters(b);
    ghost var done: set<int> := {};
    while todo != {}
      invariant todo + done == Voters(b) && todo !! done
      invariant |meta'| == |meta|
      invariant forall i :: 0 <= i < |meta| && i !in done ==> meta'[i] == meta[i]
      invariant forall i, best, bcount :: i in done && IsBestParent(b, i, best, bcount) ==>
        meta'[i] == if 0 < best < |meta| then meta[i] + meta[best] else meta[i]
      decreases todo
    {
      var i :| i in todo;
      var best, bcount := PickParent(b, i);
      if best > 0 {
        assert (i, best) in b;
        meta' := meta'[i := meta'[i] + meta'[best]];
      }
      forall best', bcount' | IsBestParent(b, i, best', bcount')
        ensures best' == best
      {
        BestParentUnique(b, i, best, bcount, best', bcount');
      }
      todo := todo - {i};
      done := done + {i};
    }
    forall i, best, bcount | 0 <= i < |meta| && IsBestParent(b, i, best, bcount)
      ensures meta'[i] == if 0 < best < |meta| then meta[i] + meta[best] else meta[i]
    {
      if i !in done {
        forall r | r in b ensures r.0 != i {
          assert r.0 in Voters(b);
        }
        assert Candidates(b, i) == {};
      }
    }
  }

  /**
   * The parent's record appended is its final one: a level never changes the
   * record of a candidate, so every record is its own followed by its
   * parent's full chain, whatever order the entities are visited in.
   */
  lemma {:induction false} ReducedMetaChains(b: Ballots, meta: seq<string>, meta': seq<string>, i: int, best: int, bcount: int)
    requires LevelVotes(b, |meta|) && ReducedMeta(b, meta, meta')
    requires 0 <= i < |meta| && IsBestParent(b, i, best, bcount) && best > 0
    ensures best < |meta| && meta'[i] == meta[i] + meta'[best]
  {
    assert (i, best) in b;
    NoCandidates(b, best);
  }

  /** A candidate never voted in the same round, so it keeps no parent. */
  lemma {:induction false} NoCandidates(b: Ballots, j: int)
    requires forall q, r :: q in b && r in b ==> q.0 != r.1
    requires exists q :: q in b && q.1 == j
    ensures Candidates(b, j) == {} && IsBestParent(b, j, -1, -1)
  {
    var q :| q in b && q.1 == j;
    forall r | r in b ensures r.0 != j {
      assert r.0 != q.1;
    }
    assert Candidates(b, j) == {};
  }

  /** The votes of a level whose entities are new and whose owners all have records. */
  lemma {:induction false} GridLevelVotes(winner: array2<u32>, winners: array2<i32>, n: nat)
    requires SameShape(winner, winners)
    requires forall y, x :: 0 <= y < winner.Length0 && 0 <= x < winner.Length1 ==>
      IdOf(winner[y, x]) < n && 0 <= winners[y, x] < n
    requires forall y, x, r, k ::
      (0 <= y < winner.Length0 && 0 <= x < winner.Length1 && 0 <= r < winner.Length0 && 0 <= k < winner.Length1
       && IdOf(winner[y, x]) != 0) ==> IdOf(winner[y, x]) != winners[r, k]
    ensures LevelVotes(multiset(GridVotes(winner, winners, winner.Length0)), n)
  {
    var b := multiset(GridVotes(winner, winners, winner.Length0));
    forall q | q in b ensures 0 <= q.0 < n && 0 <= q.1 < n
    {
      GridVotesCells(winner, winners, winner.Length0, q.0, q.1);
    }
    forall q, r | q in b && r in b ensures q.0 != r.1
    {
      GridVotesCells(winner, winners, winner.Length0, q.0, q.1);
      GridVotesCells(winner, winners, winner.Length0, r.0, r.1);
    }
  }

  /**
   * `flatten` of the layered builder: a fresh vote bag for this level, the
   * metadata extended by each voter's parent, then the cumulative grid
   * overwritten by this level's entities.
   */
  method FlattenLayered(winners: array2<i32>, winner: array2<u32>, meta: seq<string>) returns (meta': seq<string>)
    requires SameShape(winner, winners)
    requires forall y, x :: 0 <= y < winner.Length0 && 0 <= x < winner.Length1 ==>
      IdOf(winner[y, x]) < |meta| && 0 <= winners[y, x] < |meta|
    requires forall y, x, r, k ::
      (0 <= y < winner.Length0 && 0 <= x < winner.Length1 && 0 <= r < winner.Length0 && 0 <= k < winner.Length1
       && IdOf(winner[y, x]) != 0) ==> IdOf(winner[y, x]) != winners[r, k]
    modifies winners
    ensures ReducedMeta(old(multiset(GridVotes(winner, winners, winner.Length0))), meta, meta')
    ensures forall y, x :: 0 <= y < winners.Length0 && 0 <= x < winners.Length1 ==>
      winners[y, x] == if IdOf(winner[y, x]) > 0 then IdOf(winner[y, x]) else old(winners[y, x])
  {
    ghost var votes := multiset(GridVotes(winner, winners, winner.Length0));
    var parents := CountVotes(winner, winners, multiset{});
    assert parents == votes;
    GridLevelVotes(winner, winners, |meta|);
    meta' := ReduceMeta(parents, meta);
    Overwrite(winner, winners);
  }
}
