/**
 * Maximal runs of equal pixel values in one raster row, the abstraction all
 * three row encoders share: a row is cut into runs from the left, each run as
 * long as the value stays the same.
 */
module RunLength {
  import opened Binary

  /** `count` consecutive pixels holding `code`. */
  datatype Run = Run(code: i32, count: nat)

  /** The end (exclusive) of the maximal run that starts at `x`. */
  function RunEnd(row: seq<i32>, x: nat): (e: nat)
    requires x < |row|
    ensures x < e <= |row|
    ensures forall k :: x <= k < e ==> row[k] == row[x]
    ensures e < |row| ==> row[e] != row[x]
    decreases |row| - x
  {
    if x + 1 < |row| && row[x + 1] == row[x] then RunEnd(row, x + 1) else x + 1
  }

  /** The maximal runs of `row[x..]`. */
  function RunsFrom(row: seq<i32>, x: nat): seq<Run>
    requires x <= |row|
    decreases |row| - x
  {
    if x == |row| then []
    else
      var e := RunEnd(row, x);
      [Run(row[x], e - x)] + RunsFrom(row, e)
  }

  function Runs(row: seq<i32>): seq<Run>
  {
    RunsFrom(row, 0)
  }

  /** The pixels a run list stands for. */
  function Expand(runs: seq<Run>): (r: seq<i32>)
    ensures |r| == TotalCount(runs)
  {
    if runs == [] then [] else seq(runs[0].count, _ => runs[0].code) + Expand(runs[1..])
  }

  function TotalCount(runs: seq<Run>): nat
  {
    if runs == [] then 0 else runs[0].count + TotalCount(runs[1..])
  }

  /** Every run is non-empty and neighbouring runs hold different values. */
  predicate Canonical(runs: seq<Run>)
  {
    && (forall k :: 0 <= k < |runs| ==> runs[k].count >= 1)
    && (forall k :: 0 < k < |runs| ==> runs[k].code != runs[k - 1].code)
  }

  /** `RunEnd` is the only position with the run-end property. */
  lemma {:induction false} RunEndUnique(row: seq<i32>, x: nat, e: nat)
    requires x < e <= |row|
    requires forall k :: x <= k < e ==> row[k] == row[x]
    requires e < |row| ==> row[e] != row[x]
    ensures RunEnd(row, x) == e
  {
  }

  /**
   * The runs cover `row[x..]` exactly, are canonical, and the first one starts
   * with the pixel at `x`.
   */
  lemma {:induction false} RunsFromSpec(row: seq<i32>, x: nat)
    requires x <= |row|
    ensures Expand(RunsFrom(row, x)) == row[x..]
    ensures Canonical(RunsFrom(row, x))
    ensures TotalCount(RunsFrom(row, x)) == |row| - x
    ensures x < |row| ==> RunsFrom(row, x) != [] && RunsFrom(row, x)[0] == Run(row[x], RunEnd(row, x) - x)
    decreases |row| - x
  {
    if x < |row| {
      var e := RunEnd(row, x);
      var rest := RunsFrom(row, e);
      RunsFromSpec(row, e);
      var runs := RunsFrom(row, x);
      assert runs == [Run(row[x], e - x)] + rest;
      assert runs[1..] == rest;
      assert seq(e - x, _ => row[x]) == row[x..e];
      assert row[x..] == row[x..e] + row[e..];
      forall k | 0 < k < |runs|
        ensures runs[k].code != runs[k - 1].code
      {
        if k == 1 {
          assert rest[0].code == row[e];
        } else {
          assert runs[k] == rest[k - 1] && runs[k - 1] == rest[k - 2];
        }
      }
    }
  }

  /** Expanding the runs of a row gives back the row. */
  lemma {:induction false} ExpandRuns(row: seq<i32>)
    ensures Expand(Runs(row)) == row
    ensures Canonical(Runs(row))
    ensures TotalCount(Runs(row)) == |row|
  {
    RunsFromSpec(row, 0);
  }

  lemma {:induction false} RunEndShift(pre: seq<i32>, s: seq<i32>, x: nat)
    requires x < |s|
    ensures RunEnd(pre + s, |pre| + x) == |pre| + RunEnd(s, x)
  {
    var row := pre + s;
    var e := RunEnd(s, x);
    forall k | |pre| + x <= k < |pre| + e
      ensures row[k] == row[|pre| + x]
    {
      assert row[k] == s[k - |pre|];
    }
    RunEndUnique(row, |pre| + x, |pre| + e);
  }

  lemma {:induction false} RunsFromShift(pre: seq<i32>, s: seq<i32>, x: nat)
    requires x <= |s|
    ensures RunsFrom(pre + s, |pre| + x) == RunsFrom(s, x)
    decreases |s| - x
  {
    if x < |s| {
      RunEndShift(pre, s, x);
      RunsFromShift(pre, s, RunEnd(s, x));
    }
  }

  /** A canonical run list is recovered from its pixels: the run split is unique. */
  lemma {:induction false} RunsOfExpand(runs: seq<Run>)
    requires Canonical(runs)
    ensures Runs(Expand(runs)) == runs
  {
    if runs != [] {
      var r := runs[0];
      var block := seq(r.count, _ => r.code);
      var rest := runs[1..];
      assert Canonical(rest);
      RunsOfExpand(rest);
      var row := Expand(runs);
      assert row == block + Expand(rest);
      if rest != [] {
        RunsFromSpec(Expand(rest), 0);
        assert Expand(rest)[0] == rest[0].code;
        assert runs[1].code != runs[0].code;
      }
      RunEndUnique(row, 0, r.count);
      RunsFromShift(block, Expand(rest), 0);
      assert RunsFrom(row, r.count) == rest;
    }
  }

  // ---------------------------------------------------------------------------
  // Renumbering the codes of a run list.

  /** Every pixel value is a valid index into a table of `n` entries. */
  predicate InRange(row: seq<i32>, n: nat)
  {
    forall i :: 0 <= i < |row| ==> 0 <= row[i] < n
  }

  predicate CodesInRange(runs: seq<Run>, n: nat)
  {
    forall k :: 0 <= k < |runs| ==> 0 <= runs[k].code < n
  }

  /** Run lengths a Java `int` pixel counter can hold. */
  predicate CountsFit(runs: seq<Run>)
  {
    forall k :: 0 <= k < |runs| ==> 1 <= runs[k].count < 0x8000_0000
  }

  /** Each run's code replaced by its entry in `idmap`; the lengths are kept. */
  function MapRuns(runs: seq<Run>, idmap: seq<i32>): (r: seq<Run>)
    requires CodesInRange(runs, |idmap|)
    ensures |r| == |runs|
  {
    if runs == [] then [] else [Run(idmap[runs[0].code], runs[0].count)] + MapRuns(runs[1..], idmap)
  }

  lemma {:induction false} RunsFromCodes(row: seq<i32>, x: nat, n: nat)
    requires x <= |row| && InRange(row, n)
    ensures CodesInRange(RunsFrom(row, x), n)
    decreases |row| - x
  {
    if x < |row| {
      var e := RunEnd(row, x);
      RunsFromCodes(row, e, n);
      var runs := RunsFrom(row, x);
      assert runs == [Run(row[x], e - x)] + RunsFrom(row, e);
      assert forall k :: 0 < k < |runs| ==> runs[k] == RunsFrom(row, e)[k - 1];
    }
  }

  lemma {:induction false} MapRunsShape(runs: seq<Run>, idmap: seq<i32>)
    requires CodesInRange(runs, |idmap|)
    ensures TotalCount(MapRuns(runs, idmap)) == TotalCount(runs)
    ensures CountsFit(runs) ==> CountsFit(MapRuns(runs, idmap))
    ensures forall k :: 0 <= k < |runs| ==> MapRuns(runs, idmap)[k] == Run(idmap[runs[k].code], runs[k].count)
  {
    if runs != [] {
      MapRunsShape(runs[1..], idmap);
      var m := MapRuns(runs, idmap);
      assert forall k :: 0 < k < |runs| ==> m[k] == MapRuns(runs[1..], idmap)[k - 1];
    }
  }

  /** Renumbering the runs renumbers every pixel they stand for. */
  lemma {:induction false} ExpandMapRuns(runs: seq<Run>, idmap: seq<i32>)
    requires CodesInRange(runs, |idmap|)
    ensures |Expand(MapRuns(runs, idmap))| == |Expand(runs)|
    ensures forall i :: 0 <= i < |Expand(runs)| ==>
      0 <= Expand(runs)[i] < |idmap| && Expand(MapRuns(runs, idmap))[i] == idmap[Expand(runs)[i]]
  {
    if runs != [] {
      ExpandMapRuns(runs[1..], idmap);
      var r := runs[0];
      var block := seq(r.count, _ => r.code);
      var mblock := seq(r.count, _ => idmap[r.code]);
      assert Expand(runs) == block + Expand(runs[1..]);
      assert MapRuns(runs, idmap)[1..] == MapRuns(runs[1..], idmap);
      assert Expand(MapRuns(runs, idmap)) == mblock + Expand(MapRuns(runs[1..], idmap));
    }
  }
}
