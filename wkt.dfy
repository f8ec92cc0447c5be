/** The two conversions of geometry.php between the PHP polygon array
    (ring => point => coordinates) and the OpenGIS Well-Known Text form of
    a polygon (OGC Simple Feature Access, Part 1, section 7): the
    serialiser wraps the text in a MySQL `PolyFromText` call, and the
    parser reads the `POLYGON((...),(...))` text that MySQL's `AsText`
    prints.  Coordinates travel as strings, as they do in the PHP arrays
    that the parser builds. */
module Wkt {

  import opened Wrappers
  import opened Text

  /** One point: the PHP array of its coordinates, normally [x, y]. */
  type Point = seq<string>
  type Ring = seq<Point>
  type Polygon = seq<Ring>

  /** A ring with its first point appended when that point differs from
      its last (geometry.php:27-30). */
  function Close(ring: Ring): (closed: Ring)
    requires |ring| >= 1
    ensures |closed| >= 1 && closed[0] == closed[|closed| - 1]
    ensures closed == ring <==> ring[0] == ring[|ring| - 1]
    ensures closed != ring ==> closed == ring + [ring[0]]
  {
    if ring[0] != ring[|ring| - 1] then ring + [ring[0]] else ring
  }

  /** Every ring of the polygon closed. */
  function Closed(poly: Polygon): (closed: Polygon)
    requires forall k :: 0 <= k < |poly| ==> |poly[k]| >= 1
    ensures |closed| == |poly|
    ensures forall k :: 0 <= k < |poly| ==> closed[k] == Close(poly[k])
  {
    seq(|poly|, k requires 0 <= k < |poly| => Close(poly[k]))
  }

  /** A closed ring is left as it is: closing is idempotent. */
  lemma CloseIdempotent(ring: Ring)
    requires |ring| >= 1
    ensures Close(Close(ring)) == Close(ring)
  {
  }

  /** `implode(' ', $point_array)`. */
  function PointText(p: Point): string { Join(p, " ") }

  function PointTexts(ring: Ring): (ts: seq<string>)
    ensures |ts| == |ring|
    ensures forall k :: 0 <= k < |ring| ==> ts[k] == PointText(ring[k])
  {
    if ring == [] then [] else [PointText(ring[0])] + PointTexts(ring[1..])
  }

  /** A ring's points separated by commas and enclosed in parentheses. */
  function RingText(ring: Ring): string { "(" + Join(PointTexts(ring), ",") + ")" }

  function RingTexts(poly: Polygon): (ts: seq<string>)
    ensures |ts| == |poly|
    ensures forall k :: 0 <= k < |poly| ==> ts[k] == RingText(poly[k])
  {
    if poly == [] then [] else [RingText(poly[0])] + RingTexts(poly[1..])
  }

  /** The Well-Known Text of a polygon whose rings are already closed. */
  function PolygonText(poly: Polygon): string
  {
    "POLYGON(" + Join(RingTexts(poly), ",") + ")"
  }

  /** The MySQL expression that turns polygon text into a geometry. */
  function PolyFromText(text: string): string { "(PolyFromText('" + text + "'))" }

  /** `convert_array_to_poly` (geometry.php:22-49): false for an empty
      array; otherwise every ring closed and the polygon text wrapped in a
      `PolyFromText` call. */
  method ConvertArrayToPoly(polyArray: Polygon) returns (r: Option<string>)
    requires forall k :: 0 <= k < |polyArray| ==> |polyArray[k]| >= 1
    ensures r.None? <==> polyArray == []
    ensures r.Some? ==> r.value == PolyFromText(PolygonText(Closed(polyArray)))
  {
    if |polyArray| == 0 {
      return None;
    }
    var pointsArray: seq<string> := [];
    for n := 0 to |polyArray|
      invariant |pointsArray| == n
      invariant forall k :: 0 <= k < n ==> pointsArray[k] == RingText(Close(polyArray[k]))
    {
      var text := ConvertRing(polyArray[n]);
      pointsArray := pointsArray + [text];
    }
    assert pointsArray == RingTexts(Closed(polyArray));
    var polygon := Join(pointsArray, ",");
    r := Some(PolyFromText("POLYGON(" + polygon + ")"));
  }

  /** The body of the outer loop of `convert_array_to_poly`: close the ring,
      then write its points. */
  method ConvertRing(ring: Ring) returns (text: string)
    requires |ring| >= 1
    ensures text == RingText(Close(ring))
  {
    var polygon := ring;
    var polyLen := |polygon|;
    if polygon[0] != polygon[polyLen - 1] {
      polygon := polygon + [polygon[0]];
    }
    var pointPairs: seq<string> := [];
    for i := 0 to |polygon|
      invariant |pointPairs| == i
      invariant forall k :: 0 <= k < i ==> pointPairs[k] == PointText(polygon[k])
    {
      pointPairs := pointPairs + [Join(polygon[i], " ")];
    }
    assert pointPairs == PointTexts(polygon);
    text := "(" + Join(pointPairs, ",") + ")";
  }

  /** PHP `substr($poly, 9, -2)`: the text without the leading
      `POLYGON((` and the trailing `))`; empty when too short. */
  function Strip(s: string): (body: string)
    ensures |s| >= 11 ==> s == s[..9] + body + s[|s| - 2..]
    ensures |s| < 11 ==> body == ""
  {
    if |s| >= 11 then s[9..|s| - 2] else ""
  }

  /** The points of one ring: each text split at spaces. */
  function ParsePoints(ts: seq<string>): (ring: Ring)
    ensures |ring| == |ts|
    ensures forall k :: 0 <= k < |ts| ==> ring[k] == Explode(ts[k], " ")
  {
    if ts == [] then [] else [Explode(ts[0], " ")] + ParsePoints(ts[1..])
  }

  /** The rings: each text split at commas into points. */
  function ParseRings(ts: seq<string>): (poly: Polygon)
    ensures |poly| == |ts|
    ensures forall k :: 0 <= k < |ts| ==> poly[k] == ParsePoints(Explode(ts[k], ","))
  {
    if ts == [] then [] else [ParsePoints(Explode(ts[0], ","))] + ParseRings(ts[1..])
  }

  /** What `convert_poly_to_array` makes of a text: the body split at
      `),(` into rings, each ring at commas into points and each point at
      spaces into coordinates.  Never empty, since `explode` never is. */
  function Parse(s: string): (poly: Polygon)
    ensures |poly| >= 1
    ensures forall k :: 0 <= k < |poly| ==> |poly[k]| >= 1
  {
    ParseRings(Explode(Strip(s), "),("))
  }

  /** `convert_poly_to_array` (geometry.php:58-71), with its nested loops. */
  method ConvertPolyToArray(poly: string) returns (polyArray: Polygon)
    ensures polyArray == Parse(poly)
  {
    var rings := Explode(Strip(poly), "),(");
    polyArray := [];
    for ringNum := 0 to |rings|
      invariant |polyArray| == ringNum
      invariant forall k :: 0 <= k < ringNum ==> polyArray[k] == ParsePoints(Explode(rings[k], ","))
    {
      var ring := ParseRing(rings[ringNum]);
      polyArray := polyArray + [ring];
    }
    assert polyArray == ParseRings(rings);
  }

  /** The body of the outer loop of `convert_poly_to_array`: one ring's
      text split into points and coordinates. */
  method ParseRing(text: string) returns (ring: Ring)
    ensures ring == ParsePoints(Explode(text, ","))
  {
    var pointSets := Explode(text, ",");
    ring := [];
    for i := 0 to |pointSets|
      invariant |ring| == i
      invariant forall k :: 0 <= k < i ==> ring[k] == Explode(pointSets[k], " ")
    {
      ring := ring + [Explode(pointSets[i], " ")];
    }
    assert ring == ParsePoints(pointSets);
  }

  /** The coordinate texts the round trip needs: no separator of the
      format occurs in them. */
  predicate PlainCoord(c: string) { Free(c, ' ') && Free(c, ',') && Free(c, ')') }

  /** A polygon the text can carry: at least one ring, no empty ring, no
      empty point, plain coordinates. */
  predicate Carried(poly: Polygon)
  {
    && |poly| >= 1
    && (forall k :: 0 <= k < |poly| ==> |poly[k]| >= 1)
    && (forall k, i :: 0 <= k < |poly| && 0 <= i < |poly[k]| ==> |poly[k][i]| >= 1)
    && (forall k, i, j :: 0 <= k < |poly| && 0 <= i < |poly[k]| && 0 <= j < |poly[k][i]| ==>
          PlainCoord(poly[k][i][j]))
  }

  /** The parenthesised rings joined by commas are the ring bodies joined
      by `),(` inside one pair of parentheses. */
  lemma {:induction false} JoinParens(bodies: seq<string>)
    requires |bodies| >= 1
    ensures Join(Parens(bodies), ",") == "(" + Join(bodies, "),(") + ")"
  {
    if |bodies| >= 2 {
      JoinParens(bodies[1..]);
      assert Parens(bodies)[1..] == Parens(bodies[1..]);
    }
  }

  function Parens(bodies: seq<string>): (ps: seq<string>)
    ensures |ps| == |bodies|
    ensures forall k :: 0 <= k < |bodies| ==> ps[k] == "(" + bodies[k] + ")"
  {
    if bodies == [] then [] else ["(" + bodies[0] + ")"] + Parens(bodies[1..])
  }

  /** The text between a ring's parentheses. */
  function RingBody(ring: Ring): string { Join(PointTexts(ring), ",") }

  function RingBodies(poly: Polygon): (bs: seq<string>)
    ensures |bs| == |poly|
    ensures forall k :: 0 <= k < |poly| ==> bs[k] == RingBody(poly[k])
  {
    if poly == [] then [] else [RingBody(poly[0])] + RingBodies(poly[1..])
  }

  /** Splitting a point's text at spaces gives its coordinates back. */
  lemma PointRoundTrip(p: Point)
    requires |p| >= 1
    requires forall j :: 0 <= j < |p| ==> PlainCoord(p[j])
    ensures Explode(PointText(p), " ") == p
    ensures Free(PointText(p), ',') && Free(PointText(p), ')')
  {
    forall c | c in p ensures Free(c, ' ') && Free(c, ',') && Free(c, ')') {
      var j :| 0 <= j < |p| && p[j] == c;
      assert PlainCoord(p[j]);
    }
    ExplodeJoin(p, " ");
    JoinFree(p, " ", ',');
    JoinFree(p, " ", ')');
  }

  /** Splitting a ring's body at commas and each point at spaces gives the
      ring back; the body holds no closing parenthesis. */
  lemma RingRoundTrip(ring: Ring)
    requires |ring| >= 1
    requires forall i :: 0 <= i < |ring| ==> |ring[i]| >= 1
    requires forall i, j :: 0 <= i < |ring| && 0 <= j < |ring[i]| ==> PlainCoord(ring[i][j])
    ensures ParsePoints(Explode(RingBody(ring), ",")) == ring
    ensures Free(RingBody(ring), ')')
  {
    var ts := PointTexts(ring);
    forall i | 0 <= i < |ring|
      ensures Explode(ts[i], " ") == ring[i] && Free(ts[i], ',') && Free(ts[i], ')')
    {
      PointRoundTrip(ring[i]);
    }
    forall t | t in ts ensures Free(t, ',') && Free(t, ')') {
      var i :| 0 <= i < |ts| && ts[i] == t;
    }
    ExplodeJoin(ts, ",");
    JoinFree(ts, ",", ')');
  }

  /** Parsing the text of a polygon gives the polygon back, point by point,
      when its coordinates hold no space, comma or closing parenthesis. */
  lemma ParsePolygonText(poly: Polygon)
    requires Carried(poly)
    ensures Parse(PolygonText(poly)) == poly
  {
    var bodies := RingBodies(poly);
    assert RingTexts(poly) == Parens(bodies);
    JoinParens(bodies);
    var joined := Join(bodies, "),(");
    var s := PolygonText(poly);
    assert s == "POLYGON((" + joined + "))";
    assert Strip(s) == joined;
    forall k | 0 <= k < |poly|
      ensures ParsePoints(Explode(bodies[k], ",")) == poly[k] && Free(bodies[k], ')')
    {
      RingRoundTrip(poly[k]);
    }
    forall b | b in bodies ensures Free(b, ')') {
      var k :| 0 <= k < |bodies| && bodies[k] == b;
    }
    ExplodeJoin(bodies, "),(");
  }

  /** The serialiser and the parser agree: the polygon text inside the
      `PolyFromText` call parses back to the input with every ring closed. */
  lemma ConvertRoundTrip(poly: Polygon)
    requires Carried(poly)
    ensures Parse(PolygonText(Closed(poly))) == Closed(poly)
  {
    var closed := Closed(poly);
    forall k, i | 0 <= k < |closed| && 0 <= i < |closed[k]|
      ensures |closed[k][i]| >= 1
      ensures forall j :: 0 <= j < |closed[k][i]| ==> PlainCoord(closed[k][i][j])
    {
      if i == |poly[k]| {
        assert closed[k][i] == poly[k][0];
      } else {
        assert closed[k][i] == poly[k][i];
      }
    }
    ParsePolygonText(closed);
  }
}
