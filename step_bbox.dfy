/**
 * The CARTESIAN_POINT bounding box of `StepDataAnalyzer`: the
 * `BoundingBoxAccumulator` class, whose fields `add` updates in place, and
 * `tryAddCartesianPointToBbox`, which reads a point from an argument text.
 *
 * Java `double` coordinates are modelled as `real`: `Math.min`/`Math.max`
 * on NaN and signed zeros are not modelled.
 */
module StepBox {
  import opened JavaText
  import opened StepValues

  /** A point with its three coordinates. */
  datatype Point = Point(x: real, y: real, z: real)

  /** `StepBoundingBox`. */
  datatype BoundingBox = BoundingBox(minX: real, minY: real, minZ: real, maxX: real, maxY: real, maxZ: real, pointCount: int)

  function RMin(a: real, b: real): real { if a <= b then a else b }
  function RMax(a: real, b: real): real { if a >= b then a else b }

  /** The box of a sequence of points, taken point by point; none for no points. */
  function BoxOf(ps: seq<Point>): (r: Option<BoundingBox>)
    ensures r.None? <==> ps == []
    ensures r.Some? ==> r.value.pointCount == |ps|
  {
    if ps == [] then None
    else
      var p := ps[|ps| - 1];
      match BoxOf(ps[..|ps| - 1])
      case None => Some(BoundingBox(p.x, p.y, p.z, p.x, p.y, p.z, 1))
      case Some(b) => Some(BoundingBox(RMin(b.minX, p.x), RMin(b.minY, p.y), RMin(b.minZ, p.z),
                                       RMax(b.maxX, p.x), RMax(b.maxY, p.y), RMax(b.maxZ, p.z), b.pointCount + 1))
  }

  /** A point lies in a box. */
  predicate Inside(b: BoundingBox, p: Point) {
    b.minX <= p.x <= b.maxX && b.minY <= p.y <= b.maxY && b.minZ <= p.z <= b.maxZ
  }

  /** Every accepted point lies inside the box, so min <= max on every axis. */
  lemma {:induction false} BoxContains(ps: seq<Point>)
    requires ps != []
    ensures forall i | 0 <= i < |ps| :: Inside(BoxOf(ps).value, ps[i])
    ensures var b := BoxOf(ps).value; b.minX <= b.maxX && b.minY <= b.maxY && b.minZ <= b.maxZ
  {
    var init := ps[..|ps| - 1];
    if init != [] {
      BoxContains(init);
      forall i | 0 <= i < |ps| - 1
        ensures ps[i] == init[i]
      {
      }
    }
  }

  /** Every bound of the box is a coordinate of some accepted point. */
  lemma {:induction false} BoxAttained(ps: seq<Point>)
    requires ps != []
    ensures var b := BoxOf(ps).value;
      (exists i | 0 <= i < |ps| :: ps[i].x == b.minX) && (exists i | 0 <= i < |ps| :: ps[i].x == b.maxX) &&
      (exists i | 0 <= i < |ps| :: ps[i].y == b.minY) && (exists i | 0 <= i < |ps| :: ps[i].y == b.maxY) &&
      (exists i | 0 <= i < |ps| :: ps[i].z == b.minZ) && (exists i | 0 <= i < |ps| :: ps[i].z == b.maxZ)
  {
    var n := |ps| - 1;
    var init := ps[..n];
    if init != [] {
      BoxAttained(init);
      forall i | 0 <= i < n
        ensures ps[i] == init[i]
      {
      }
    }
    assert ps[n] == ps[|ps| - 1];
  }

  /** `BoundingBoxAccumulator`. */
  class BoxAccumulator {
    var initialized: bool
    var minX: real
    var minY: real
    var minZ: real
    var maxX: real
    var maxY: real
    var maxZ: real
    var count: int
    /** The points added so far, in order. */
    ghost var points: seq<Point>

    /** The fields hold the box of the points added so far. */
    ghost predicate Valid()
      reads this
    {
      count == |points| && initialized == (points != []) &&
      (initialized ==> BoxOf(points) == Some(BoundingBox(minX, minY, minZ, maxX, maxY, maxZ, count)))
    }

    constructor ()
      ensures Valid() && points == []
    {
      initialized := false;
      minX, minY, minZ := 0.0, 0.0, 0.0;
      maxX, maxY, maxZ := 0.0, 0.0, 0.0;
      count := 0;
      points := [];
    }

    /** `add(x, y, z)`. */
    method Add(x: real, y: real, z: real)
      requires Valid()
      modifies this
      ensures Valid() && points == old(points) + [Point(x, y, z)]
    {
      ghost var ps := points + [Point(x, y, z)];
      assert ps[..|ps| - 1] == points;
      if !initialized {
        initialized := true;
        minX, maxX := x, x;
        minY, maxY := y, y;
        minZ, maxZ := z, z;
      } else {
        minX := RMin(minX, x);
        minY := RMin(minY, y);
        minZ := RMin(minZ, z);
        maxX := RMax(maxX, x);
        maxY := RMax(maxY, y);
        maxZ := RMax(maxZ, z);
      }
      count := count + 1;
      points := ps;
    }

    /** `toBoundingBox()`: none before the first point. */
    method ToBoundingBox() returns (r: Option<BoundingBox>)
      requires Valid()
      ensures r == BoxOf(points)
    {
      if !initialized || count <= 0 {
        return None;
      }
      return Some(BoundingBox(minX, minY, minZ, maxX, maxY, maxZ, count));
    }
  }

  /** A value is a number whose text parsed. */
  predicate IsNumeric(v: Value) {
    v.StepNumber? && v.number.Some?
  }

  /** Coordinate `k` of a coordinate list, 0 where the list is shorter. */
  function Coordinate(items: seq<Value>, k: nat): (r: real)
    ensures k < |items| && IsNumeric(items[k]) ==> r == items[k].number.value
    ensures k >= |items| ==> r == 0.0
  {
    if k < |items| && IsNumeric(items[k]) then items[k].number.value else 0.0
  }

  /**
   * The point `tryAddCartesianPointToBbox` reads from the arguments
   * `('', (x, y, z))`: the second argument must be a list whose first
   * `min(3, n)` items are numbers; missing coordinates are 0.
   */
  function PointOf(args: seq<Value>): (r: Option<Point>)
    ensures r.Some? <==> (|args| >= 2 && args[1].StepList? &&
      forall k | 0 <= k < Min(3, |args[1].items|) :: IsNumeric(args[1].items[k]))
    ensures r.Some? ==> var items := args[1].items;
      r.value == Point(Coordinate(items, 0), Coordinate(items, 1), Coordinate(items, 2))
  {
    if |args| < 2 || !args[1].StepList? then None
    else
      var items := args[1].items;
      if forall k | 0 <= k < Min(3, |items|) :: IsNumeric(items[k])
      then Some(Point(Coordinate(items, 0), Coordinate(items, 1), Coordinate(items, 2)))
      else None
  }

  /** `tryAddCartesianPointToBbox(argsText, bbox)`. */
  method TryAddCartesianPoint(lib: JavaLib, argsText: JString, box: BoxAccumulator)
    requires box.Valid()
    modifies box
    ensures box.Valid()
    ensures box.points == old(box.points) + Listed(PointOf(ArgsOf(lib, argsText)))
  {
    var args := ParseArgsText(lib, argsText);
    AddPointOf(args, box);
  }

  /** The part of `tryAddCartesianPointToBbox` after its arguments are parsed. */
  method AddPointOf(args: seq<Value>, box: BoxAccumulator)
    requires box.Valid()
    modifies box
    ensures box.Valid()
    ensures box.points == old(box.points) + Listed(PointOf(args))
  {
    if |args| < 2 {
      return;
    }
    var coords := args[1];
    if !coords.StepList? {
      return;
    }
    var items := coords.items;
    var xyz := new real[3];
    xyz[0], xyz[1], xyz[2] := 0.0, 0.0, 0.0;
    var dim := Min(3, |items|);
    var idx := 0;
    while idx < dim
      invariant 0 <= idx <= dim
      invariant forall k | 0 <= k < idx :: IsNumeric(items[k])
      invariant forall k | 0 <= k < idx :: xyz[k] == Coordinate(items, k)
      invariant forall k | idx <= k < 3 :: xyz[k] == 0.0
      modifies xyz
    {
      var v := items[idx];
      if v.StepNumber? && v.number.Some? {
        xyz[idx] := v.number.value;
      } else {
        return;
      }
      idx := idx + 1;
    }
    box.Add(xyz[0], xyz[1], xyz[2]);
  }

  /** A list of two numbers is accepted and its third coordinate is 0. */
  lemma ShortPointPadded(x: real, y: real, tag: Value, rawX: JString, rawY: JString)
    ensures PointOf([tag, StepList([StepNumber(rawX, Some(x)), StepNumber(rawY, Some(y))])]) == Some(Point(x, y, 0.0))
  {
  }

  /** A number whose text did not parse among the first three items rejects the point. */
  lemma UnparsedCoordinateRejects(args: seq<Value>, k: nat)
    requires |args| >= 2 && args[1].StepList? && k < Min(3, |args[1].items|)
    requires args[1].items[k].StepNumber? && args[1].items[k].number.None?
    ensures PointOf(args) == None
  {
  }
}
