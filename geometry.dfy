/** The planar parts of geometry.php: the shoelace area of a polygon with
    holes, the centroid of its exterior ring and the even-odd test of a
    point against its rings.  Coordinates are reals; PHP's floating point
    is not reproduced bit for bit. */
module Geometry {

  import opened Wrappers

  datatype Point = Point(x: real, y: real)
  type Ring = seq<Point>

  /** x_i * y_j - y_i * x_j for the edge from a to b. */
  function Cross(a: Point, b: Point): real { a.x * b.y - a.y * b.x }

  /** The three per-edge terms the shoelace formulas sum: twice the signed
      area, and the two first moments the centroid divides by it. */
  datatype Term = Area | MomentX | MomentY

  function EdgeTerm(t: Term, a: Point, b: Point): real
  {
    match t
    case Area => Cross(a, b)
    case MomentX => (a.x + b.x) * Cross(a, b)
    case MomentY => (a.y + b.y) * Cross(a, b)
  }

  /** Every edge term changes sign with the edge's direction. */
  lemma EdgeTermAntisymmetric(t: Term, a: Point, b: Point)
    ensures EdgeTerm(t, b, a) == -EdgeTerm(t, a, b)
    ensures EdgeTerm(t, a, a) == 0.0
  {
    assert Cross(b, a) == -Cross(a, b);
    assert Cross(a, a) == 0.0;
    match t
    case Area =>
    case MomentX =>
      assert (b.x + a.x) * Cross(b, a) == -((a.x + b.x) * Cross(a, b));
    case MomentY =>
      assert (b.y + a.y) * Cross(b, a) == -((a.y + b.y) * Cross(a, b));
  }

  /** The sum over the first i edges of the ring, the edge after vertex k
      going to vertex (k + 1) % n, as the loops of geometry.php:89-93 and
      400-405 run. */
  function WrapSum(t: Term, ring: Ring, i: nat): real
    requires i <= |ring|
  {
    if i == 0 then 0.0 else WrapSum(t, ring, i - 1) + EdgeTerm(t, ring[i - 1], ring[i % |ring|])
  }

  /** The sum over every edge of the ring, the closing edge included. */
  function CycleSum(t: Term, ring: Ring): real { WrapSum(t, ring, |ring|) }

  /** The sum over the edges between consecutive vertices, without the
      closing edge: the reference the wrap-around sum is compared with. */
  function PathSum(t: Term, s: Ring): real
  {
    if |s| < 2 then 0.0 else EdgeTerm(t, s[0], s[1]) + PathSum(t, s[1..])
  }

  function Reverse(s: Ring): (r: Ring)
    ensures |r| == |s|
    ensures forall k :: 0 <= k < |s| ==> r[k] == s[|s| - 1 - k]
  {
    if s == [] then [] else Reverse(s[1..]) + [s[0]]
  }

  lemma {:induction false} PathSumSnoc(t: Term, s: Ring, p: Point)
    requires |s| >= 1
    ensures PathSum(t, s + [p]) == PathSum(t, s) + EdgeTerm(t, s[|s| - 1], p)
  {
    if |s| >= 2 {
      assert (s + [p])[1..] == s[1..] + [p];
      PathSumSnoc(t, s[1..], p);
    }
  }

  lemma {:induction false} WrapSumPath(t: Term, ring: Ring, i: nat)
    requires i < |ring|
    ensures WrapSum(t, ring, i) == PathSum(t, ring[..i + 1])
  {
    if i > 0 {
      var init, e := ring[..i], EdgeTerm(t, ring[i - 1], ring[i]);
      assert WrapSum(t, ring, i) == WrapSum(t, ring, i - 1) + e by {
        assert i % |ring| == i;
      }
      assert PathSum(t, ring[..i + 1]) == PathSum(t, init) + e by {
        assert ring[..i + 1] == init + [ring[i]];
        assert init[|init| - 1] == ring[i - 1];
        PathSumSnoc(t, init, ring[i]);
      }
      WrapSumPath(t, ring, i - 1);
    }
  }

  /** The whole cycle is the path plus the closing edge. */
  lemma CycleSplit(t: Term, ring: Ring)
    requires |ring| >= 1
    ensures CycleSum(t, ring) == PathSum(t, ring) + EdgeTerm(t, ring[|ring| - 1], ring[0])
  {
    WrapSumPath(t, ring, |ring| - 1);
    assert ring[..|ring|] == ring;
  }

  /** Appending the first vertex to close the ring leaves every sum as it
      was: the new closing edge is degenerate. */
  lemma CycleClose(t: Term, ring: Ring)
    requires |ring| >= 1
    ensures CycleSum(t, ring + [ring[0]]) == CycleSum(t, ring)
  {
    var closed := ring + [ring[0]];
    CycleSplit(t, closed);
    CycleSplit(t, ring);
    PathSumSnoc(t, ring, ring[0]);
    EdgeTermAntisymmetric(t, ring[0], ring[0]);
  }

  lemma {:induction false} PathReverse(t: Term, s: Ring)
    ensures PathSum(t, Reverse(s)) == -PathSum(t, s)
  {
    if |s| >= 2 {
      var r := Reverse(s[1..]);
      PathReverse(t, s[1..]);
      PathSumSnoc(t, r, s[0]);
      EdgeTermAntisymmetric(t, s[0], s[1]);
    }
  }

  /** Walking the ring the other way negates every sum. */
  lemma CycleReverse(t: Term, ring: Ring)
    ensures CycleSum(t, Reverse(ring)) == -CycleSum(t, ring)
  {
    if |ring| >= 1 {
      var r := Reverse(ring);
      CycleSplit(t, r);
      CycleSplit(t, ring);
      PathReverse(t, ring);
      EdgeTermAntisymmetric(t, ring[|ring| - 1], ring[0]);
    }
  }

  /** The signed area of one ring, positive when counter-clockwise. */
  function RingArea(ring: Ring): real { CycleSum(Area, ring) / 2.0 }

  /** Orientation flips the sign of a ring's area. */
  lemma RingAreaReverse(ring: Ring)
    ensures RingArea(Reverse(ring)) == -RingArea(ring)
  {
    CycleReverse(Area, ring);
  }

  /** Closing a ring does not change its area. */
  lemma RingAreaClose(ring: Ring)
    requires |ring| >= 1
    ensures RingArea(ring + [ring[0]]) == RingArea(ring)
  {
    CycleClose(Area, ring);
  }

  /** The '+' direction of geometry.php:99, 101: an area equal to its
      absolute value. */
  predicate Plus(a: real) { a >= 0.0 }

  function Abs(a: real): real { if a >= 0.0 then a else -a }

  function Sign(a: real): real { if Plus(a) then 1.0 else -1.0 }

  /** The area after the rings of `areas`, the first one exterior: a ring
      whose direction matches the exterior's is subtracted, any other is
      added (geometry.php:97-108). */
  function NetArea(areas: seq<real>): real
    requires |areas| >= 1
  {
    if |areas| == 1 then areas[0]
    else
      var area := NetArea(areas[..|areas| - 1]);
      var h := areas[|areas| - 1];
      if Plus(areas[0]) == Plus(h) then area - h else area + h
  }

  function SumAbs(areas: seq<real>): (s: real)
    ensures s >= 0.0
  {
    if areas == [] then 0.0 else SumAbs(areas[..|areas| - 1]) + Abs(areas[|areas| - 1])
  }

  /** Whatever their orientation, holes are taken off the exterior:
      net = exterior - sgn(exterior) * (sum of |hole|). */
  lemma {:induction false} HoleRule(areas: seq<real>)
    requires |areas| >= 1
    ensures NetArea(areas) == areas[0] - Sign(areas[0]) * SumAbs(areas[1..])
  {
    if |areas| == 1 {
      assert areas[1..] == [];
    } else {
      var init := areas[..|areas| - 1];
      HoleRule(init);
      assert init[1..] == areas[1..][..|areas[1..]| - 1];
    }
  }

  /** Each further hole lowers the net area, taken with the exterior's
      sign, by exactly the hole's magnitude; nothing stops it at zero. */
  lemma HoleShrinks(areas: seq<real>, hole: real)
    requires |areas| >= 1
    ensures Sign(areas[0]) * NetArea(areas + [hole]) == Sign(areas[0]) * NetArea(areas) - Abs(hole)
  {
    var more := areas + [hole];
    HoleRule(areas);
    HoleRule(more);
    assert more[1..] == areas[1..] + [hole];
    assert (areas[1..] + [hole])[..|areas[1..]|] == areas[1..];
  }

  function RingAreas(polygon: seq<Ring>): (areas: seq<real>)
    ensures |areas| == |polygon|
    ensures forall k :: 0 <= k < |polygon| ==> areas[k] == RingArea(polygon[k])
  {
    seq(|polygon|, k requires 0 <= k < |polygon| => RingArea(polygon[k]))
  }

  /** The area of a polygon with holes; None (PHP's null from the unset
      `$area`) for a polygon without rings. */
  function PolygonArea(polygon: seq<Ring>): Option<real>
  {
    if polygon == [] then None else Some(NetArea(RingAreas(polygon)))
  }

  /** `get_area` (geometry.php:79-112). */
  method GetArea(polygon: seq<Ring>) returns (area: Option<real>)
    ensures area == PolygonArea(polygon)
    ensures area.Some? ==>
      area.value == RingArea(polygon[0]) - Sign(RingArea(polygon[0])) * SumAbs(RingAreas(polygon)[1..])
  {
    area := None;
    var exteriorPlus := true;
    var rings := |polygon|;
    for r := 0 to rings
      invariant r == 0 <==> area.None?
      invariant r >= 1 ==> area == Some(NetArea(RingAreas(polygon)[..r]))
      invariant r >= 1 ==> exteriorPlus == Plus(RingArea(polygon[0]))
    {
      var ringArea := ShoelaceArea(polygon[r]);
      var areas := RingAreas(polygon)[..r + 1];
      assert areas[r] == ringArea;
      if r == 0 {
        area := Some(ringArea);
        exteriorPlus := ringArea == Abs(ringArea);
      } else {
        assert areas[..r] == RingAreas(polygon)[..r];
        var interiorPlus := ringArea == Abs(ringArea);
        if exteriorPlus == interiorPlus {
          area := Some(area.value - ringArea);
        } else {
          area := Some(area.value + ringArea);
        }
      }
    }
    if area.Some? {
      assert RingAreas(polygon)[..|polygon|] == RingAreas(polygon);
      HoleRule(RingAreas(polygon));
    }
  }

  /** The inner loop of `get_area` (geometry.php:84-95): one ring's
      shoelace sum, halved. */
  method ShoelaceArea(ring: Ring) returns (ringArea: real)
    ensures ringArea == RingArea(ring)
  {
    var n := |ring|;
    ringArea := 0.0;
    for i := 0 to n
      invariant ringArea == WrapSum(Area, ring, i)
    {
      var j := (i + 1) % n;
      ringArea := ringArea + ring[i].x * ring[j].y;
      ringArea := ringArea - ring[i].y * ring[j].x;
    }
    ringArea := ringArea / 2.0;
  }

  /** The centroid of the exterior ring: the moment sums divided by six
      times its area; None when there is no ring or the area is zero,
      where the source divides by zero (geometry.php:391-415). */
  function Centroid(polygon: seq<Ring>): Option<Point>
  {
    if polygon == [] then None
    else
      var ring := polygon[0];
      var a := 6.0 * RingArea(ring);
      if a == 0.0 then None
      else Some(Point(Scale(CycleSum(MomentX, ring), a), Scale(CycleSum(MomentY, ring), a)))
  }

  /** A moment multiplied by the reciprocal of six times the area. */
  function Scale(moment: real, a: real): real
    requires a != 0.0
  {
    moment * (1.0 / a)
  }

  /** `get_polygon_centroid`. */
  method GetPolygonCentroid(polygon: seq<Ring>) returns (c: Option<Point>)
    ensures c == Centroid(polygon)
  {
    if |polygon| == 0 {
      return None;
    }
    var ring := polygon[0];
    var area := GetArea([ring]);
    var a := area.value;
    assert a == RingArea(ring) by {
      assert RingAreas([ring]) == [RingArea(ring)];
    }
    var polyCount := |ring|;
    var cx, cy := 0.0, 0.0;
    for i := 0 to polyCount
      invariant cx == WrapSum(MomentX, ring, i) && cy == WrapSum(MomentY, ring, i)
    {
      var j := (i + 1) % polyCount;
      var factor := ring[i].x * ring[j].y - ring[j].x * ring[i].y;
      assert factor == Cross(ring[i], ring[j]);
      cx := cx + (ring[i].x + ring[j].x) * factor;
      cy := cy + (ring[i].y + ring[j].y) * factor;
    }
    a := a * 6.0;
    if a == 0.0 {
      return None;
    }
    var factor := 1.0 / a;
    assert cx * factor == Scale(CycleSum(MomentX, ring), a);
    assert cy * factor == Scale(CycleSum(MomentY, ring), a);
    c := Some(Point(cx * factor, cy * factor));
  }

  lemma ScaleNegated(c: real, a: real)
    requires a != 0.0
    ensures Scale(-c, -a) == Scale(c, a)
  {
    assert 1.0 / (-a) == -(1.0 / a);
  }

  /** The centroid does not depend on the ring's orientation. */
  lemma CentroidReverse(ring: Ring)
    ensures Centroid([Reverse(ring)]) == Centroid([ring])
  {
    var r := Reverse(ring);
    CycleReverse(Area, ring);
    CycleReverse(MomentX, ring);
    CycleReverse(MomentY, ring);
    var a := 6.0 * RingArea(ring);
    assert 6.0 * RingArea(r) == -a;
    assert [r][0] == r && [ring][0] == ring;
    if a != 0.0 {
      ScaleNegated(CycleSum(MomentX, ring), a);
      ScaleNegated(CycleSum(MomentY, ring), a);
    }
  }

  /** Nor on whether the ring repeats its first vertex at the end. */
  lemma CentroidClose(ring: Ring)
    requires |ring| >= 1
    ensures Centroid([ring + [ring[0]]]) == Centroid([ring])
  {
    var closed := ring + [ring[0]];
    CycleClose(Area, ring);
    CycleClose(MomentX, ring);
    CycleClose(MomentY, ring);
    assert [closed][0] == closed && [ring][0] == ring;
  }

  /** The crossing test of geometry.php:434-435 for the edge from vertex
      pj to vertex pi: the edge straddles the horizontal line through the
      point and meets it to the right of the point. */
  predicate Crosses(pi: Point, pj: Point, x: real, y: real)
  {
    && ((pi.y > y) != (pj.y > y))
    && x < MeetX(pi, pj, y)
  }

  /** Where the line through the edge meets the horizontal line at y. */
  function MeetX(pi: Point, pj: Point, y: real): real
    requires pi.y != pj.y
  {
    (pj.x - pi.x) * (y - pi.y) / (pj.y - pi.y) + pi.x
  }

  /** The vertex before vertex i, wrapping round to the last one. */
  function Prev(n: nat, i: nat): nat
    requires i < n
  {
    if i == 0 then n - 1 else i - 1
  }

  /** The number of crossing edges among those ending at vertices 0..i-1. */
  function Crossings(ring: Ring, x: real, y: real, i: nat): nat
    requires i <= |ring|
  {
    if i == 0 then 0
    else Crossings(ring, x, y, i - 1) + (if Crosses(ring[i - 1], ring[Prev(|ring|, i - 1)], x, y) then 1 else 0)
  }

  predicate Odd(n: nat) { n % 2 == 1 }

  /** The even-odd rule for a point and one ring. */
  predicate InsideRing(ring: Ring, x: real, y: real) { Odd(Crossings(ring, x, y, |ring|)) }

  /** Inside the exterior ring and inside none of the holes; any point is
      in range of a polygon without rings. */
  predicate InRangeSpec(polygon: seq<Ring>, x: real, y: real)
  {
    polygon == [] ||
      (InsideRing(polygon[0], x, y) && forall k :: 1 <= k < |polygon| ==> !InsideRing(polygon[k], x, y))
  }

  /** The inner loop of `in_range`: toggles `flag` once per crossing edge. */
  method ToggleCrossings(ring: Ring, x: real, y: real, flag0: bool) returns (flag: bool)
    ensures flag == (flag0 != InsideRing(ring, x, y))
  {
    flag := flag0;
    var npol := |ring| - 1;
    for i := 0 to |ring|
      invariant flag == (flag0 != Odd(Crossings(ring, x, y, i)))
    {
      var j := if i == 0 then npol else i - 1;
      if Crosses(ring[i], ring[j], x, y) {
        flag := !flag;
      }
    }
  }

  /** `in_range` (geometry.php:425-449): the flag `$out` counts crossings
      of the exterior ring, the flag `$in` those of each interior ring, and
      the test fails as soon as the point is outside the exterior or
      inside a hole. */
  method InRange(polygon: seq<Ring>, x: real, y: real) returns (inside: bool)
    ensures inside == InRangeSpec(polygon, x, y)
  {
    var inFlag, outFlag := false, false;
    for r := 0 to |polygon|
      invariant r == 0 ==> !outFlag
      invariant r >= 1 ==> outFlag && InsideRing(polygon[0], x, y)
      invariant !inFlag
      invariant forall k :: 1 <= k < r ==> !InsideRing(polygon[k], x, y)
    {
      if r == 0 {
        outFlag := ToggleCrossings(polygon[r], x, y, outFlag);
      } else {
        inFlag := ToggleCrossings(polygon[r], x, y, inFlag);
      }
      if !outFlag || inFlag {
        return false;
      }
    }
    return true;
  }

  /** An edge whose ends both lie on one side of the horizontal line
      through the point is never crossed. */
  lemma {:induction false} NoCrossingsOnOneSide(ring: Ring, x: real, y: real, i: nat)
    requires i <= |ring|
    requires (forall k :: 0 <= k < |ring| ==> ring[k].y > y) || (forall k :: 0 <= k < |ring| ==> ring[k].y <= y)
    ensures Crossings(ring, x, y, i) == 0
  {
    if i > 0 {
      NoCrossingsOnOneSide(ring, x, y, i - 1);
    }
  }

  /** A point above or below every vertex of the exterior ring is not in
      range. */
  lemma OutsideVertically(polygon: seq<Ring>, x: real, y: real)
    requires |polygon| >= 1
    requires (forall k :: 0 <= k < |polygon[0]| ==> polygon[0][k].y > y)
          || (forall k :: 0 <= k < |polygon[0]| ==> polygon[0][k].y <= y)
    ensures !InRangeSpec(polygon, x, y)
  {
    NoCrossingsOnOneSide(polygon[0], x, y, |polygon[0]|);
  }

  /** A fraction n / d of a, with n between 0 and d, lies between 0 and a. */
  lemma FractionBetween(a: real, n: real, d: real)
    requires (0.0 < d && 0.0 <= n <= d) || (d < 0.0 && d <= n <= 0.0)
    ensures 0.0 <= a ==> 0.0 <= a * n / d <= a
    ensures a < 0.0 ==> a <= a * n / d <= 0.0
  {
    var t := n / d;
    UnitFraction(n, d);
    MulDivAssoc(a, n, d);
    assert a - a * t == a * (1.0 - t);
    MulSigns(a, t);
    MulSigns(a, 1.0 - t);
  }

  lemma ScaleBack(n: real, d: real)
    requires d != 0.0
    ensures (n / d) * d == n
  {
  }

  /** n / d lies in [0, 1] when n lies between 0 and d. */
  lemma UnitFraction(n: real, d: real)
    requires (0.0 < d && 0.0 <= n <= d) || (d < 0.0 && d <= n <= 0.0)
    ensures 0.0 <= n / d <= 1.0
  {
    var t := n / d;
    ScaleBack(n, d);
    assert (t - 1.0) * d == t * d - d;
    MulSigns(t, d);
    MulSigns(t - 1.0, d);
  }

  lemma MulDivAssoc(a: real, n: real, d: real)
    requires d != 0.0
    ensures a * n / d == a * (n / d)
  {
    var t := n / d;
    ScaleBack(n, d);
    assert a * n == (a * t) * d by {
      MulAssoc(a, t, d);
    }
    CancelDiv(a * t, d);
  }

  lemma MulAssoc(x: real, y: real, z: real)
    ensures x * (y * z) == (x * y) * z
  {
  }

  lemma CancelDiv(x: real, d: real)
    requires d != 0.0
    ensures (x * d) / d == x
  {
  }

  lemma MulSigns(u: real, v: real)
    ensures u >= 0.0 && v >= 0.0 ==> u * v >= 0.0
    ensures u > 0.0 && v > 0.0 ==> u * v > 0.0
    ensures u > 0.0 && v < 0.0 ==> u * v < 0.0
    ensures u < 0.0 && v > 0.0 ==> u * v < 0.0
    ensures u < 0.0 && v < 0.0 ==> u * v > 0.0
  {
  }

  /** Where a straddling edge meets the horizontal line lies between the
      edge's ends. */
  lemma MeetsBetween(pi: Point, pj: Point, y: real)
    requires (pi.y > y) != (pj.y > y)
    ensures pi.x <= MeetX(pi, pj, y) || pj.x <= MeetX(pi, pj, y)
    ensures MeetX(pi, pj, y) <= pi.x || MeetX(pi, pj, y) <= pj.x
  {
    var a, n, d := pj.x - pi.x, y - pi.y, pj.y - pi.y;
    FractionBetween(a, n, d);
    var q := a * n / d;
    assert MeetX(pi, pj, y) == q + pi.x;
  }

  lemma {:induction false} NoCrossingsToTheRight(ring: Ring, x: real, y: real, i: nat)
    requires i <= |ring|
    requires forall k :: 0 <= k < |ring| ==> ring[k].x <= x
    ensures Crossings(ring, x, y, i) == 0
  {
    if i > 0 {
      NoCrossingsToTheRight(ring, x, y, i - 1);
      var pi, pj := ring[i - 1], ring[Prev(|ring|, i - 1)];
      if (pi.y > y) != (pj.y > y) {
        MeetsBetween(pi, pj, y);
      }
    }
  }

  /** A point at or to the right of every vertex of the exterior ring is
      not in range. */
  lemma OutsideToTheRight(polygon: seq<Ring>, x: real, y: real)
    requires |polygon| >= 1
    requires forall k :: 0 <= k < |polygon[0]| ==> polygon[0][k].x <= x
    ensures !InRangeSpec(polygon, x, y)
  {
    NoCrossingsToTheRight(polygon[0], x, y, |polygon[0]|);
  }
}
