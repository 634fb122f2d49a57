/**
 * The bounding box of a set of longitude/latitude points (`BoundingBox`,
 * identical in the indexer and the builder).
 *
 * Coordinates are exact integers standing for the `float` values; the
 * fields take values in `Num`, which adds the two infinities of an empty
 * box and the not-a-number that infinite arithmetic can produce.
 */
module BBox {

  datatype Num = NegInf | Fin(v: int) | PosInf | NaN

  /** `a < b` on floats: false whenever one side is not a number. */
  predicate Lt(a: Num, b: Num)
  {
    match (a, b)
    case (NaN, _) => false
    case (_, NaN) => false
    case (NegInf, NegInf) => false
    case (NegInf, _) => true
    case (PosInf, _) => false
    case (Fin(x), Fin(y)) => x < y
    case (Fin(_), PosInf) => true
    case (Fin(_), NegInf) => false
  }

  /** `a <= b` on floats. */
  predicate Le(a: Num, b: Num)
  {
    a != NaN && b != NaN && (a == b || Lt(a, b))
  }

  /** Float subtraction, with the infinite cases of IEEE 754. */
  function Sub(a: Num, b: Num): Num
  {
    match (a, b)
    case (NaN, _) => NaN
    case (_, NaN) => NaN
    case (Fin(x), Fin(y)) => Fin(x - y)
    case (PosInf, PosInf) => NaN
    case (NegInf, NegInf) => NaN
    case (PosInf, _) => PosInf
    case (NegInf, _) => NegInf
    case (Fin(_), PosInf) => NegInf
    case (Fin(_), NegInf) => PosInf
  }

  function Sign(a: Num): int
  {
    match a
    case NegInf => -1
    case PosInf => 1
    case NaN => 0
    case Fin(x) => if x < 0 then -1 else if x == 0 then 0 else 1
  }

  /** Float multiplication, with the infinite cases of IEEE 754. */
  function Mul(a: Num, b: Num): Num
  {
    if a == NaN || b == NaN then NaN
    else if a.Fin? && b.Fin? then Fin(a.v * b.v)
    else if Sign(a) * Sign(b) == 0 then NaN
    else if Sign(a) * Sign(b) > 0 then PosInf
    else NegInf
  }

  /** The four fields of a box. */
  datatype Box = Box(lonmin: Num, lonmax: Num, latmin: Num, latmax: Num)

  /** The state after `reset`: minima at +infinity, maxima at -infinity. */
  const EMPTY: Box := Box(PosInf, NegInf, PosInf, NegInf)

  /** No field is not-a-number (subtraction can produce one, but it is never stored). */
  predicate NoNaN(b: Box)
  {
    b.lonmin != NaN && b.lonmax != NaN && b.latmin != NaN && b.latmax != NaN
  }

  predicate InsideBox(b: Box, lon: int, lat: int)
  {
    Le(b.lonmin, Fin(lon)) && Le(Fin(lon), b.lonmax) && Le(b.latmin, Fin(lat)) && Le(Fin(lat), b.latmax)
  }

  function Width(b: Box): Num { Sub(b.lonmax, b.lonmin) }

  function Height(b: Box): Num { Sub(b.latmax, b.latmin) }

  function Size(b: Box): Num { Mul(Sub(b.lonmax, b.lonmin), Sub(b.latmax, b.latmin)) }

  function MinOf(x: Num, cur: Num): Num { if Lt(x, cur) then x else cur }

  function MaxOf(x: Num, cur: Num): Num { if Lt(cur, x) then x else cur }

  /** `update(lon, lat)`: each field takes the point's coordinate when that is further out. */
  function AddPoint(b: Box, lon: int, lat: int): Box
  {
    Box(MinOf(Fin(lon), b.lonmin), MaxOf(Fin(lon), b.lonmax), MinOf(Fin(lat), b.latmin), MaxOf(Fin(lat), b.latmax))
  }

  /** `update(other)`: each field takes the other box's field when that is further out. */
  function Union(b: Box, o: Box): Box
  {
    Box(MinOf(o.lonmin, b.lonmin), MaxOf(o.lonmax, b.lonmax), MinOf(o.latmin, b.latmin), MaxOf(o.latmax, b.latmax))
  }

  /**
   * `Double.compare(a, b) <= 0`: a total order that agrees with `<` on
   * numbers and puts not-a-number above everything.
   */
  predicate CompareLe(a: Num, b: Num)
  {
    a == b || b == NaN || Lt(a, b)
  }

  lemma {:induction false} CompareLeTrans(a: Num, b: Num, c: Num)
    requires CompareLe(a, b) && CompareLe(b, c)
    ensures CompareLe(a, c)
  {
  }

  lemma {:induction false} LeTrans(a: Num, b: Num, c: Num)
    requires Le(a, b) && Le(b, c)
    ensures Le(a, c)
  {
  }

  /** After `reset` no point is inside, the width and height are -infinity and the size is +infinity. */
  lemma {:induction false} EmptySpec(lon: int, lat: int)
    ensures !InsideBox(EMPTY, lon, lat)
    ensures Width(EMPTY) == NegInf && Height(EMPTY) == NegInf && Size(EMPTY) == PosInf
  {
  }

  /** After `update(lon, lat)` the point is inside, and every point inside before still is. */
  lemma {:induction false} AddPointSpec(b: Box, lon: int, lat: int, x: int, y: int)
    requires NoNaN(b)
    ensures NoNaN(AddPoint(b, lon, lat))
    ensures InsideBox(AddPoint(b, lon, lat), lon, lat)
    ensures InsideBox(b, x, y) ==> InsideBox(AddPoint(b, lon, lat), x, y)
  {
    var r := AddPoint(b, lon, lat);
    if InsideBox(b, x, y) {
      LeTrans(r.lonmin, b.lonmin, Fin(x));
      LeTrans(Fin(x), b.lonmax, r.lonmax);
      LeTrans(r.latmin, b.latmin, Fin(y));
      LeTrans(Fin(y), b.latmax, r.latmax);
    }
  }

  /** Adding a point that is already inside changes none of the four fields. */
  lemma {:induction false} AddInsidePoint(b: Box, lon: int, lat: int)
    requires InsideBox(b, lon, lat)
    ensures AddPoint(b, lon, lat) == b
  {
  }

  /** `update(other)` keeps every point of either box inside. */
  lemma {:induction false} UnionSpec(b: Box, o: Box, x: int, y: int)
    requires NoNaN(b) && NoNaN(o)
    ensures NoNaN(Union(b, o))
    ensures InsideBox(b, x, y) || InsideBox(o, x, y) ==> InsideBox(Union(b, o), x, y)
  {
    var r := Union(b, o);
    if InsideBox(b, x, y) {
      LeTrans(r.lonmin, b.lonmin, Fin(x));
      LeTrans(Fin(x), b.lonmax, r.lonmax);
      LeTrans(r.latmin, b.latmin, Fin(y));
      LeTrans(Fin(y), b.latmax, r.latmax);
    }
    if InsideBox(o, x, y) {
      LeTrans(r.lonmin, o.lonmin, Fin(x));
      LeTrans(Fin(x), o.lonmax, r.lonmax);
      LeTrans(r.latmin, o.latmin, Fin(y));
      LeTrans(Fin(y), o.latmax, r.latmax);
    }
  }

  /** Adding a point is the union with the box of that single point. */
  lemma {:induction false} AddPointIsUnion(b: Box, lon: int, lat: int)
    ensures AddPoint(b, lon, lat) == Union(b, AddPoint(EMPTY, lon, lat))
  {
  }

  /** The box of a sequence of points, as `start` builds it from a reset box. */
  function BoxOf(pts: seq<(int, int)>): Box
  {
    if pts == [] then EMPTY else AddPoint(BoxOf(pts[..|pts| - 1]), pts[|pts| - 1].0, pts[|pts| - 1].1)
  }

  /** Every point added is inside the box, and no field is ever not-a-number. */
  lemma {:induction false} BoxOfInside(pts: seq<(int, int)>)
    ensures NoNaN(BoxOf(pts))
    ensures forall k :: 0 <= k < |pts| ==> InsideBox(BoxOf(pts), pts[k].0, pts[k].1)
    decreases |pts|
  {
    if pts != [] {
      var n := |pts| - 1;
      var init := pts[..n];
      BoxOfInside(init);
      forall k | 0 <= k < |pts|
        ensures InsideBox(BoxOf(pts), pts[k].0, pts[k].1)
      {
        AddPointSpec(BoxOf(init), pts[n].0, pts[n].1, pts[k].0, pts[k].1);
        if k < n {
          assert pts[k] == init[k];
        }
      }
    }
  }

  /**
   * Once at least one point was added, the fields are finite, the width
   * and height are not negative and the size is their product.
   */
  lemma {:induction false} BoxOfSpec(pts: seq<(int, int)>)
    requires pts != []
    ensures var b := BoxOf(pts);
      b.lonmin.Fin? && b.lonmax.Fin? && b.latmin.Fin? && b.latmax.Fin?
      && Width(b) == Fin(b.lonmax.v - b.lonmin.v) && Height(b) == Fin(b.latmax.v - b.latmin.v)
      && Width(b).v >= 0 && Height(b).v >= 0 && Size(b) == Fin(Width(b).v * Height(b).v)
    decreases |pts|
  {
    var n := |pts| - 1;
    if n > 0 {
      BoxOfSpec(pts[..n]);
    }
  }

  /** The box with its fields stored in place. */
  class BoundingBox {
    var lonmin: Num
    var lonmax: Num
    var latmin: Num
    var latmax: Num

    function Value(): Box
      reads this
    {
      Box(lonmin, lonmax, latmin, latmax)
    }

    /** The default constructor resets the box. */
    constructor ()
      ensures Value() == EMPTY
    {
      lonmin, lonmax, latmin, latmax := PosInf, NegInf, PosInf, NegInf;
    }

    /** The clone constructor copies all four fields. */
    constructor Clone(other: BoundingBox)
      ensures Value() == other.Value()
    {
      lonmin, lonmax, latmin, latmax := other.lonmin, other.lonmax, other.latmin, other.latmax;
    }

    method Reset()
      modifies this
      ensures Value() == EMPTY
    {
      lonmin := PosInf;
      lonmax := NegInf;
      latmin := PosInf;
      latmax := NegInf;
    }

    predicate Inside(lon: int, lat: int)
      reads this
    {
      InsideBox(Value(), lon, lat)
    }

    /** `width()`: -infinity for a reset box, the non-negative extent once the box holds a point. */
    function BoxWidth(): (r: Num)
      reads this
      ensures Value() == EMPTY ==> r == NegInf
      ensures Le(lonmin, lonmax) && lonmin.Fin? && lonmax.Fin? ==> r.Fin? && r.v >= 0
    {
      Sub(lonmax, lonmin)
    }

    /** `height()`: -infinity for a reset box, the non-negative extent once the box holds a point. */
    function BoxHeight(): (r: Num)
      reads this
      ensures Value() == EMPTY ==> r == NegInf
      ensures Le(latmin, latmax) && latmin.Fin? && latmax.Fin? ==> r.Fin? && r.v >= 0
    {
      Sub(latmax, latmin)
    }

    /** `size()`: +infinity for a reset box, the product of width and height once the box holds a point. */
    function BoxSize(): (r: Num)
      reads this
      ensures Value() == EMPTY ==> r == PosInf
      ensures BoxWidth().Fin? && BoxHeight().Fin? ==> r == Fin(BoxWidth().v * BoxHeight().v)
    {
      Mul(Sub(lonmax, lonmin), Sub(latmax, latmin))
    }

    method Update(lon: int, lat: int)
      modifies this
      ensures Value() == AddPoint(old(Value()), lon, lat)
    {
      lonmin := if Lt(Fin(lon), lonmin) then Fin(lon) else lonmin;
      lonmax := if Lt(lonmax, Fin(lon)) then Fin(lon) else lonmax;
      latmin := if Lt(Fin(lat), latmin) then Fin(lat) else latmin;
      latmax := if Lt(latmax, Fin(lat)) then Fin(lat) else latmax;
    }

    /** `update(other)`; `other` may be this very box. */
    method UpdateBox(other: BoundingBox)
      modifies this
      ensures Value() == Union(old(Value()), old(other.Value()))
    {
      var olonmin, olonmax, olatmin, olatmax := other.lonmin, other.lonmax, other.latmin, other.latmax;
      lonmin := if Lt(olonmin, lonmin) then olonmin else lonmin;
      lonmax := if Lt(lonmax, olonmax) then olonmax else lonmax;
      latmin := if Lt(olatmin, latmin) then olatmin else latmin;
      latmax := if Lt(latmax, olatmax) then olatmax else latmax;
    }
  }
}
