/**
 * The raster side of the index builders: the per-pixel coverage arbitration
 * (`transferPixels` in its three variants) and the per-level flattening
 * (`flatten`), which counts, for every entity, the entities of the coarser
 * levels it covers, and then lets the finer level overwrite the cumulative
 * grid.
 *
 * A scratch cell of the layered builders keeps the coverage in its top byte
 * and the entity number in the low 24 bits; it is held as its unsigned 32-bit
 * view. The rendered snapshot is an input grid of coverage bytes (the low
 * byte of each ARGB pixel), indexed as [row, column] relative to the tile.
 */
module Raster {
  import opened Binary

  /** Coverage below this (about 10%) never claims a pixel. */
  const MIN_COVER: byte := 0x19

  /** The entity number of a scratch cell: Java `cell & 0xFFFFFF`. */
  function IdOf(cell: u32): int
  {
    cell % 0x100_0000
  }

  /** The coverage of a scratch cell: Java `cell >>> 24`. */
  function CoverOf(cell: u32): byte
  {
    cell / 0x100_0000
  }

  /** Java `(alpha << 24) | c`. */
  function Pack(alpha: byte, c: u32): u32
  {
    Or32(Shl32(alpha, 24), c)
  }

  /** Java's `(byte)` cast of a value 0..255. */
  function SignedByte(b: byte): int
  {
    if b < 0x80 then b else b - 0x100
  }

  /** A packed cell holds the coverage on top of the entity number, without loss. */
  lemma {:induction false} PackFields(alpha: byte, c: u32)
    requires c < 0x100_0000
    ensures Pack(alpha, c) == alpha * 0x100_0000 + c
    ensures IdOf(Pack(alpha, c)) == c && CoverOf(Pack(alpha, c)) == alpha
  {
    Pow2Values();
    ScaleMul(alpha, 24);
    assert Shl32(alpha, 24) == Scale(alpha, 24);
    BitOrComm(Scale(alpha, 24), c);
    BitOrDisjoint(c, alpha, 24);
    Or32Exact(Scale(alpha, 24), c);
  }

  /**
   * Packing any entity number: the id read back is the number's low 24
   * bits, and its higher bits are ORed into the coverage byte. A number
   * from 2^24 up therefore reads back as a different entity.
   */
  lemma {:induction false} PackWide(alpha: byte, c: u32)
    ensures IdOf(Pack(alpha, c)) == c % 0x100_0000
    ensures CoverOf(Pack(alpha, c)) == BitOr(alpha, c / 0x100_0000)
  {
    var hi, lo := c / 0x100_0000, c % 0x100_0000;
    assert Shl32(alpha, 24) == Scale(alpha, 24) by {
      Scale24(alpha);
    }
    assert c == Scale(hi, 24) + lo by {
      Scale24(hi);
    }
    assert BitOr(Scale(alpha, 24), c) == Scale(BitOr(alpha, hi), 24) + lo by {
      Pow2Values();
      BitOrHigh(alpha, hi, lo, 24);
    }
    var o := BitOr(alpha, hi);
    assert o < 0x100 by {
      Pow2Values();
      BitOrBound(alpha, hi, 8);
    }
    Scale24(o);
    SplitAt24(o, lo);
  }

  lemma {:induction false} Scale24(x: nat)
    ensures Scale(x, 24) == x * 0x100_0000
  {
    Pow2Values();
    ScaleMul(x, 24);
  }

  lemma {:induction false} SplitAt24(o: nat, lo: nat)
    requires o < 0x100 && lo < 0x100_0000
    ensures o * 0x100_0000 + lo < TWO_32
    ensures (o * 0x100_0000 + lo) % TWO_32 / 0x100_0000 == o
    ensures (o * 0x100_0000 + lo) % TWO_32 % 0x100_0000 == lo
  {
  }

  /** An entity numbered 2^24 + 5 drawn at coverage 0x20 leaves entity 5 at coverage 0x21. */
  lemma {:induction false} LayeredNumberAliases()
    ensures IdOf(LayeredCell(0, 0x20, 0x100_0005)) == 5
    ensures CoverOf(LayeredCell(0, 0x20, 0x100_0005)) == 0x21
  {
    PackWide(0x20, 0x100_0005);
    assert BitOr(0x20, 1) == 0x21;
  }

  // ---------------------------------------------------------------------------
  // The coverage rule of each builder, for one pixel.

  /**
   * The sliced builder: coverage below the threshold is ignored; otherwise
   * the entity takes the pixel when it covers it fully or at least as much
   * as the current owner.
   */
  function SlicedCell(cell: u32, alpha: byte, c: u32): u32
  {
    if alpha < MIN_COVER then cell
    else if alpha == 0xFF || alpha >= CoverOf(cell) then Pack(alpha, c)
    else cell
  }

  /**
   * The layered builder: the same, with the coverage clamped to 0x7F first
   * and the stored coverage read back through a signed byte.
   */
  function LayeredCell(cell: u32, alpha: byte, c: u32): u32
  {
    if alpha < MIN_COVER then cell
    else
      var a: byte := if alpha > 0x7F then 0x7F else alpha;
      if a == 0x7F || (a > 0 && a >= SignedByte(CoverOf(cell))) then Pack(a, c) else cell
  }

  type i8 = x: int | -0x80 <= x < 0x80

  /**
   * The version-0 builder keeps the coverage in a separate byte grid: the
   * owner and its coverage change together, under the layered rule.
   */
  function V0Cell(owner: i32, cover: i8, alpha: byte, c: i32): (r: (i32, i8))
  {
    if alpha < MIN_COVER then (owner, cover)
    else
      var a: byte := if alpha > 0x7F then 0x7F else alpha;
      if a == 0x7F || (a > 0 && a >= cover) then (c, a as i8) else (owner, cover)
  }

  /**
   * The sliced rule: a pixel changes exactly when the coverage reaches the
   * threshold and the current owner's coverage (so the later entity wins a
   * tie), and then it holds the entity and its coverage.
   */
  lemma {:induction false} SlicedCellSpec(cell: u32, alpha: byte, c: u32)
    requires c < 0x100_0000
    ensures alpha < MIN_COVER || alpha < CoverOf(cell) ==> SlicedCell(cell, alpha, c) == cell
    ensures alpha >= MIN_COVER && alpha >= CoverOf(cell) ==>
      IdOf(SlicedCell(cell, alpha, c)) == c && CoverOf(SlicedCell(cell, alpha, c)) == alpha
  {
    PackFields(alpha, c);
  }

  /**
   * The layered rule: the pixel changes exactly when the clamped coverage
   * reaches the threshold and the owner's coverage; the stored coverage never
   * exceeds 0x7F.
   */
  lemma {:induction false} LayeredCellSpec(cell: u32, alpha: byte, c: u32)
    requires c < 0x100_0000 && CoverOf(cell) <= 0x7F
    ensures CoverOf(LayeredCell(cell, alpha, c)) <= 0x7F
    ensures alpha < MIN_COVER || (alpha <= 0x7F && alpha < CoverOf(cell)) ==> LayeredCell(cell, alpha, c) == cell
    ensures alpha >= MIN_COVER && (alpha > 0x7F || alpha >= CoverOf(cell)) ==>
      IdOf(LayeredCell(cell, alpha, c)) == c
      && CoverOf(LayeredCell(cell, alpha, c)) == (if alpha > 0x7F then 0x7F else alpha)
  {
    PackFields(if alpha > 0x7F then 0x7F else alpha, c);
  }

  /** The version-0 rule keeps the coverage grid within 0..0x7F. */
  lemma {:induction false} V0CellSpec(owner: i32, cover: i8, alpha: byte, c: i32)
    requires 0 <= cover <= 0x7F
    ensures 0 <= V0Cell(owner, cover, alpha, c).1 <= 0x7F
    ensures alpha < MIN_COVER || (alpha <= 0x7F && alpha < cover) ==> V0Cell(owner, cover, alpha, c) == (owner, cover)
    ensures alpha >= MIN_COVER && (alpha > 0x7F || alpha >= cover) ==>
      V0Cell(owner, cover, alpha, c).0 == c && V0Cell(owner, cover, alpha, c).1 >= cover
  {
  }

  /**
   * The layered builder stores the same owner and coverage as the version-0
   * builder with its separate coverage grid.
   */
  lemma {:induction false} LayeredMatchesV0(cell: u32, alpha: byte, c: u32)
    requires 0 < c < 0x100_0000 && CoverOf(cell) <= 0x7F
    ensures var (o, a) := V0Cell(IdOf(cell), CoverOf(cell), alpha, c);
      IdOf(LayeredCell(cell, alpha, c)) == o && CoverOf(LayeredCell(cell, alpha, c)) == a
  {
    PackFields(if alpha > 0x7F then 0x7F else alpha, c);
  }

  // ---------------------------------------------------------------------------
  // `transferPixels`: the rule applied to the tile [y1, y2) x [x1, x2).

  /** Tile bounds inside the grid, and a snapshot at least as large as the tile. */
  predicate TileFits<T, U>(img: array2<T>, grid: array2<U>, x1: int, x2: int, y1: int, y2: int)
  {
    0 <= y1 <= y2 <= grid.Length0 && 0 <= x1 <= x2 <= grid.Length1
    && y2 - y1 <= img.Length0 && x2 - x1 <= img.Length1
  }

  /** `transferPixels` of the sliced builder. */
  method TransferPixelsSliced(img: array2<byte>, x1: int, x2: int, y1: int, y2: int, winner: array2<u32>, c: u32)
    requires TileFits(img, winner, x1, x2, y1, y2)
    requires 0 < c < 0x100_0000
    modifies winner
    ensures forall y, x :: 0 <= y < winner.Length0 && 0 <= x < winner.Length1 ==>
      winner[y, x] == if y1 <= y < y2 && x1 <= x < x2 then SlicedCell(old(winner[y, x]), img[y - y1, x - x1], c)
                      else old(winner[y, x])
  {
    var y := y1;
    while y < y2
      invariant y1 <= y <= y2
      invariant forall i, j :: 0 <= i < winner.Length0 && 0 <= j < winner.Length1 ==>
        winner[i, j] == if y1 <= i < y && x1 <= j < x2 then SlicedCell(old(winner[i, j]), img[i - y1, j - x1], c)
                        else old(winner[i, j])
    {
      var x := x1;
      while x < x2
        invariant x1 <= x <= x2
        invariant forall i, j :: 0 <= i < winner.Length0 && 0 <= j < winner.Length1 ==>
          winner[i, j] == if (y1 <= i < y && x1 <= j < x2) || (i == y && x1 <= j < x)
                          then SlicedCell(old(winner[i, j]), img[i - y1, j - x1], c)
                          else old(winner[i, j])
      {
        var alpha := img[y - y1, x - x1];
        if alpha >= MIN_COVER {
          var oldalpha := winner[y, x] / 0x100_0000;
          if alpha == 0xFF || alpha >= oldalpha {
            winner[y, x] := Pack(alpha, c);
          }
        }
        x := x + 1;
      }
      y := y + 1;
    }
  }

  /** `transferPixels` of the layered builder. */
  method TransferPixelsLayered(img: array2<byte>, x1: int, x2: int, y1: int, y2: int, winner: array2<u32>, c: u32)
    requires TileFits(img, winner, x1, x2, y1, y2)
    modifies winner
    ensures forall y, x :: 0 <= y < winner.Length0 && 0 <= x < winner.Length1 ==>
      winner[y, x] == if y1 <= y < y2 && x1 <= x < x2 then LayeredCell(old(winner[y, x]), img[y - y1, x - x1], c)
                      else old(winner[y, x])
  {
    var y := y1;
    while y < y2
      invariant y1 <= y <= y2
      invariant forall i, j :: 0 <= i < winner.Length0 && 0 <= j < winner.Length1 ==>
        winner[i, j] == if y1 <= i < y && x1 <= j < x2 then LayeredCell(old(winner[i, j]), img[i - y1, j - x1], c)
                        else old(winner[i, j])
    {
      var x := x1;
      while x < x2
        invariant x1 <= x <= x2
        invariant forall i, j :: 0 <= i < winner.Length0 && 0 <= j < winner.Length1 ==>
          winner[i, j] == if (y1 <= i < y && x1 <= j < x2) || (i == y && x1 <= j < x)
                          then LayeredCell(old(winner[i, j]), img[i - y1, j - x1], c)
                          else old(winner[i, j])
      {
        var alpha := img[y - y1, x - x1];
        if alpha >= MIN_COVER {
          alpha := if alpha > 0x7F then 0x7F else alpha;
          var oldalpha := SignedByte(winner[y, x] / 0x100_0000);
          if alpha == 0x7F || (alpha > 0 && alpha >= oldalpha) {
            winner[y, x] := Pack(alpha, c);
          }
        }
        x := x + 1;
      }
      y := y + 1;
    }
  }

  /** `transferPixels` of the version-0 builder, with its separate coverage grid. */
  method TransferPixelsV0(img: array2<byte>, x1: int, x2: int, y1: int, y2: int,
                          winner: array2<i32>, c: i32, alphas: array2<i8>)
    requires TileFits(img, winner, x1, x2, y1, y2)
    requires alphas.Length0 == winner.Length0 && alphas.Length1 == winner.Length1
    modifies winner, alphas
    ensures forall y, x :: 0 <= y < winner.Length0 && 0 <= x < winner.Length1 ==>
      (winner[y, x], alphas[y, x])
        == if y1 <= y < y2 && x1 <= x < x2 then V0Cell(old(winner[y, x]), old(alphas[y, x]), img[y - y1, x - x1], c)
           else (old(winner[y, x]), old(alphas[y, x]))
  {
    var y := y1;
    while y < y2
      invariant y1 <= y <= y2
      invariant forall i, j :: 0 <= i < winner.Length0 && 0 <= j < winner.Length1 ==>
        (winner[i, j], alphas[i, j])
          == if y1 <= i < y && x1 <= j < x2 then V0Cell(old(winner[i, j]), old(alphas[i, j]), img[i - y1, j - x1], c)
             else (old(winner[i, j]), old(alphas[i, j]))
    {
      var x := x1;
      while x < x2
        invariant x1 <= x <= x2
        invariant forall i, j :: 0 <= i < winner.Length0 && 0 <= j < winner.Length1 ==>
          (winner[i, j], alphas[i, j])
            == if (y1 <= i < y && x1 <= j < x2) || (i == y && x1 <= j < x)
               then V0Cell(old(winner[i, j]), old(alphas[i, j]), img[i - y1, j - x1], c)
               else (old(winner[i, j]), old(alphas[i, j]))
      {
        var alpha := img[y - y1, x - x1];
        if alpha >= MIN_COVER {
          alpha := if alpha > 0x7F then 0x7F else alpha;
          if alpha == 0x7F || (alpha > 0 && alpha >= alphas[y, x]) {
            alphas[y, x] := alpha as i8;
            winner[y, x] := c;
          }
        }
        x := x + 1;
      }
      y := y + 1;
    }
  }

  // ---------------------------------------------------------------------------
  // `flatten`: parent votes, then the finer level overwrites the cumulative grid.

  /** The scratch grid of a level and the cumulative grid of the coarser levels cover the same pixels. */
  predicate SameShape(winner: array2<u32>, winners: array2<i32>)
  {
    winner.Length0 == winners.Length0 && winner.Length1 == winners.Length1
  }

  /**
   * The parent votes cast so far: one (entity, cumulative owner) pair per
   * pixel the entity won; the count of a pair is its number of votes.
   */
  type Ballots = multiset<(int, i32)>

  /** The vote of one pixel: the scratch entity votes for the cumulative owner, if there is a scratch entity. */
  function CellVote(cell: u32, owner: i32): seq<(int, i32)>
  {
    if IdOf(cell) != 0 then [(IdOf(cell), owner)] else []
  }

  /** The votes of the first `x` pixels of row `y`. */
  function RowVotes(winner: array2<u32>, winners: array2<i32>, y: nat, x: nat): seq<(int, i32)>
    requires SameShape(winner, winners) && y < winner.Length0 && x <= winner.Length1
    reads winner, winners
  {
    if x == 0 then []
    else RowVotes(winner, winners, y, x - 1) + CellVote(winner[y, x - 1], winners[y, x - 1])
  }

  /** The votes of the first `y` rows, in row-major order. */
  function GridVotes(winner: array2<u32>, winners: array2<i32>, y: nat): seq<(int, i32)>
    requires SameShape(winner, winners) && y <= winner.Length0
    reads winner, winners
  {
    if y == 0 then []
    else GridVotes(winner, winners, y - 1) + RowVotes(winner, winners, y - 1, winner.Length1)
  }

  /** Pixel (r, k) holds entity `i` of this level over the cumulative owner `p`. */
  predicate VotedAt(winner: array2<u32>, winners: array2<i32>, r: int, k: int, i: int, p: i32)
    requires SameShape(winner, winners)
    reads winner, winners
  {
    0 <= r < winner.Length0 && 0 <= k < winner.Length1 && i != 0 && IdOf(winner[r, k]) == i && winners[r, k] == p
  }

  /** A pair is voted for exactly when some pixel of the row prefix carries that entity over that owner. */
  lemma {:induction false} RowVotesCells(winner: array2<u32>, winners: array2<i32>, y: nat, x: nat, i: int, p: i32)
    requires SameShape(winner, winners) && y < winner.Length0 && x <= winner.Length1
    ensures (i, p) in RowVotes(winner, winners, y, x) <==> exists k :: 0 <= k < x && VotedAt(winner, winners, y, k, i, p)
  {
    if x > 0 {
      RowVotesCells(winner, winners, y, x - 1, i, p);
      var cell := CellVote(winner[y, x - 1], winners[y, x - 1]);
      assert (i, p) in cell <==> VotedAt(winner, winners, y, x - 1, i, p);
      assert RowVotes(winner, winners, y, x) == RowVotes(winner, winners, y, x - 1) + cell;
    }
  }

  /**
   * The votes of the whole grid: entity `i` voted for `p` exactly when it won
   * a pixel whose cumulative owner is `p`.
   */
  lemma {:induction false} GridVotesCells(winner: array2<u32>, winners: array2<i32>, y: nat, i: int, p: i32)
    requires SameShape(winner, winners) && y <= winner.Length0
    ensures (i, p) in GridVotes(winner, winners, y) <==> exists r, k :: 0 <= r < y && VotedAt(winner, winners, r, k, i, p)
  {
    if y > 0 {
      var w := winner.Length1;
      GridVotesCells(winner, winners, y - 1, i, p);
      RowVotesCells(winner, winners, y - 1, w, i, p);
      var prev := GridVotes(winner, winners, y - 1);
      var row := RowVotes(winner, winners, y - 1, w);
      assert GridVotes(winner, winners, y) == prev + row;
      if (i, p) in row {
        var k :| 0 <= k < w && VotedAt(winner, winners, y - 1, k, i, p);
        assert 0 <= y - 1 < y && VotedAt(winner, winners, y - 1, k, i, p);
      }
      if exists r, k :: 0 <= r < y && VotedAt(winner, winners, r, k, i, p) {
        var r, k :| 0 <= r < y && VotedAt(winner, winners, r, k, i, p);
        if r == y - 1 {
          assert (i, p) in row;
        } else {
          assert (i, p) in prev;
        }
      }
    }
  }

  /** At most one vote per pixel. */
  lemma {:induction false} GridVotesSize(winner: array2<u32>, winners: array2<i32>, y: nat)
    requires SameShape(winner, winners) && y <= winner.Length0
    ensures |GridVotes(winner, winners, y)| <= y * winner.Length1
  {
    if y > 0 {
      var w := winner.Length1;
      GridVotesSize(winner, winners, y - 1);
      RowVotesSize(winner, winners, y - 1, w);
      assert |GridVotes(winner, winners, y)| == |GridVotes(winner, winners, y - 1)| + |RowVotes(winner, winners, y - 1, w)|;
      assert (y - 1) * w + w == y * w;
    }
  }

  lemma {:induction false} RowVotesSize(winner: array2<u32>, winners: array2<i32>, y: nat, x: nat)
    requires SameShape(winner, winners) && y < winner.Length0 && x <= winner.Length1
    ensures |RowVotes(winner, winners, y, x)| <= x
  {
    if x > 0 {
      RowVotesSize(winner, winners, y, x - 1);
    }
  }

  /** The first loop of `flatten`: one vote per pixel that holds an entity of this level. */
  method CountVotes(winner: array2<u32>, winners: array2<i32>, parents: Ballots) returns (parents': Ballots)
    requires SameShape(winner, winners)
    ensures parents' == parents + multiset(GridVotes(winner, winners, winner.Length0))
  {
    parents' := parents;
    var y := 0;
    assert multiset(GridVotes(winner, winners, 0)) == multiset{};
    while y < winner.Length0
      invariant y <= winner.Length0
      invariant parents' == parents + multiset(GridVotes(winner, winners, y))
    {
      parents' := CountRow(winner, winners, y, parents, parents');
      y := y + 1;
    }
  }

  /** One row of the first loop of `flatten`. */
  method CountRow(winner: array2<u32>, winners: array2<i32>, y: nat, ghost start: Ballots, parents: Ballots) returns (parents': Ballots)
    requires SameShape(winner, winners) && y < winner.Length0
    requires parents == start + multiset(GridVotes(winner, winners, y))
    ensures parents' == start + multiset(GridVotes(winner, winners, y + 1))
  {
    parents' := parents;
    for x := 0 to winner.Length1
      invariant parents' == parents + multiset(RowVotes(winner, winners, y, x))
    {
      var id := winner[y, x] % 0x100_0000;
      ghost var vote := CellVote(winner[y, x], winners[y, x]);
      assert RowVotes(winner, winners, y, x + 1) == RowVotes(winner, winners, y, x) + vote;
      assert multiset(RowVotes(winner, winners, y, x + 1)) == multiset(RowVotes(winner, winners, y, x)) + multiset(vote);
      UnionAssoc(parents, multiset(RowVotes(winner, winners, y, x)), multiset(vote));
      if id != 0 {
        assert vote == [(id, winners[y, x])];
        parents' := parents' + multiset{(id, winners[y, x])};
      } else {
        assert vote == [];
      }
    }
    GridStep(winner, winners, y, start, parents, parents');
  }

  lemma {:induction false} GridStep(winner: array2<u32>, winners: array2<i32>, y: nat, start: Ballots, before: Ballots, after: Ballots)
    requires SameShape(winner, winners) && y < winner.Length0
    requires before == start + multiset(GridVotes(winner, winners, y))
    requires after == before + multiset(RowVotes(winner, winners, y, winner.Length1))
    ensures after == start + multiset(GridVotes(winner, winners, y + 1))
  {
    var done := GridVotes(winner, winners, y);
    var row := RowVotes(winner, winners, y, winner.Length1);
    assert GridVotes(winner, winners, y + 1) == done + row;
    assert multiset(done + row) == multiset(done) + multiset(row);
    UnionAssoc(start, multiset(done), multiset(row));
  }

  lemma {:induction false} UnionAssoc<T>(a: multiset<T>, b: multiset<T>, c: multiset<T>)
    ensures a + b + c == a + (b + c)
  {
  }

  /** The second loop of `flatten`: the finer level's entities replace the cumulative owners. */
  method Overwrite(winner: array2<u32>, winners: array2<i32>)
    requires SameShape(winner, winners)
    modifies winners
    ensures forall y, x :: 0 <= y < winners.Length0 && 0 <= x < winners.Length1 ==>
      winners[y, x] == if IdOf(winner[y, x]) > 0 then IdOf(winner[y, x]) else old(winners[y, x])
  {
    for y := 0 to winner.Length0
      invariant forall r, k :: 0 <= r < winners.Length0 && 0 <= k < winners.Length1 ==>
        winners[r, k] == if r < y && IdOf(winner[r, k]) > 0 then IdOf(winner[r, k]) else old(winners[r, k])
    {
      for x := 0 to winner.Length1
        invariant forall r, k :: 0 <= r < winners.Length0 && 0 <= k < winners.Length1 ==>
          winners[r, k] == if (r < y || (r == y && k < x)) && IdOf(winner[r, k]) > 0 then IdOf(winner[r, k]) else old(winners[r, k])
      {
        var id := winner[y, x] % 0x100_0000;
        if id > 0 {
          winners[y, x] := id;
        }
      }
    }
  }

  /**
   * `flatten` of the sliced builder: the votes are added to the bag kept for
   * the whole run, then the cumulative grid is overwritten.
   */
  method FlattenSliced(winners: array2<i32>, winner: array2<u32>, parents: Ballots) returns (parents': Ballots)
    requires SameShape(winner, winners)
    modifies winners
    ensures parents' == parents + old(multiset(GridVotes(winner, winners, winner.Length0)))
    ensures forall y, x :: 0 <= y < winners.Length0 && 0 <= x < winners.Length1 ==>
      winners[y, x] == if IdOf(winner[y, x]) > 0 then IdOf(winner[y, x]) else old(winners[y, x])
  {
    parents' := CountVotes(winner, winners, parents);
    Overwrite(winner, winners);
  }
}
