/** The Google Maps polygon encoder of polylineEncoder.php: Douglas-Peucker
    simplification driven by an explicit stack, discrete zoom levels for the
    retained vertices, and the Encoded Polyline Algorithm Format (zig-zag
    fold, 5-bit groups with continuation bit 0x20, ASCII offset 63).

    Coordinates are taken already scaled: a Point holds the integers that
    polylineEncoder.php:126-127 obtains as floor(x * 1e5).  Floating point is
    not reproduced bit for bit; the segment distance is a parameter of the
    simplification (its squared form is modelled exactly by SegmentDistanceSq,
    since a square root is not available). */
module Polyline {

  import opened Wrappers

  datatype Point = Point(lat: int, lng: int)

  const Origin := Point(0, 0)

  /* ------------------------------------------------------------------ */
  /* Zig-zag fold of encode_signed_number                                 */
  /* ------------------------------------------------------------------ */

  /** PHP's `~` on a two's complement integer. */
  function BitNot(x: int): int { -x - 1 }

  /** encode_signed_number's fold: `num << 1`, bit-inverted when negative.
      The sign ends up in the lowest bit. */
  function ZigZag(num: int): (r: nat)
    ensures r % 2 == 1 <==> num < 0
  {
    var shifted := 2 * num;
    if num < 0 then BitNot(shifted) else shifted
  }

  /** The inverse of the fold, as a decoder applies it. */
  function UnZigZag(r: nat): int
  {
    if r % 2 == 0 then r / 2 else BitNot(r / 2)
  }

  lemma ZigZagRoundTrip(num: int)
    ensures UnZigZag(ZigZag(num)) == num
  {
  }

  /** Distinct numbers fold to distinct codes. */
  lemma ZigZagInjective(a: int, b: int)
    requires ZigZag(a) == ZigZag(b)
    ensures a == b
  {
    ZigZagRoundTrip(a);
    ZigZagRoundTrip(b);
  }

  /* ------------------------------------------------------------------ */
  /* 5-bit groups of encode_number                                        */
  /* ------------------------------------------------------------------ */

  /** The characters encode_number emits for `num`: the 5-bit groups, least
      significant first, each offset by 63, with 0x20 set on every group but
      the last.  (`num & 0x1f` is `num % 32`, `0x20 | g` is `32 + g` for
      g < 32, and `num >>= 5` is `num / 32`.) */
  function Varint(num: nat): string
    decreases num
  {
    if num < 0x20 then [(num + 63) as char]
    else [((0x20 + num % 0x20) + 63) as char] + Varint(num / 0x20)
  }

  /** Every character is printable ASCII 63..126; every character but the
      last carries the continuation bit (>= 95); the last one does not. */
  lemma {:induction false} VarintShape(num: nat)
    ensures |Varint(num)| >= 1
    ensures forall k :: 0 <= k < |Varint(num)| ==> 63 <= Varint(num)[k] as int <= 126
    ensures forall k :: 0 <= k < |Varint(num)| - 1 ==> Varint(num)[k] as int >= 95
    ensures 63 <= Varint(num)[|Varint(num)| - 1] as int <= 94
    decreases num
  {
    if num >= 0x20 {
      VarintShape(num / 0x20);
    }
  }

  /** encode_number: a loop that emits one continued group per step. */
  method EncodeNumber(num: nat) returns (s: string)
    ensures s == Varint(num)
  {
    s := "";
    var n := num;
    while n >= 0x20
      invariant s + Varint(n) == Varint(num)
    {
      var nextValue := (0x20 + n % 0x20) + 63;
      assert Varint(n) == [nextValue as char] + Varint(n / 0x20);
      s := s + [nextValue as char];
      n := n / 0x20;
    }
    var finalValue := n + 63;
    s := s + [finalValue as char];
  }

  /** encode_signed_number. */
  method EncodeSignedNumber(num: int) returns (s: string)
    ensures s == Varint(ZigZag(num))
  {
    var sgnNum := 2 * num;
    if num < 0 {
      sgnNum := BitNot(sgnNum);
    }
    s := EncodeNumber(sgnNum);
  }

  /** A decoder for one group sequence, as a client of the format reads it:
      the value and the rest of the input. */
  function DecodeVarint(s: string): (r: Option<(nat, string)>)
    ensures r.Some? ==> |r.value.1| < |s|
    decreases |s|
  {
    if s == [] then None
    else
      var c := s[0] as int - 63;
      if c < 0 || c >= 64 then None
      else if c < 0x20 then Some((c, s[1..]))
      else match DecodeVarint(s[1..])
        case None => None
        case Some((v, rest)) => Some(((c - 0x20) + 0x20 * v, rest))
  }

  lemma {:induction false} DecodeVarintOf(num: nat, rest: string)
    ensures DecodeVarint(Varint(num) + rest) == Some((num, rest))
    decreases num
  {
    var s := Varint(num) + rest;
    if num < 0x20 {
      assert s[1..] == rest;
    } else {
      assert s[1..] == Varint(num / 0x20) + rest;
      DecodeVarintOf(num / 0x20, rest);
    }
  }

  /** The concatenated groups of a list of numbers. */
  function VarintAll(nums: seq<nat>): string
  {
    if nums == [] then "" else Varint(nums[0]) + VarintAll(nums[1..])
  }

  lemma {:induction false} VarintAllSnoc(nums: seq<nat>, x: nat)
    ensures VarintAll(nums + [x]) == VarintAll(nums) + Varint(x)
  {
    if nums == [] {
      assert nums + [x] == [x];
    } else {
      assert (nums + [x])[1..] == nums[1..] + [x];
      VarintAllSnoc(nums[1..], x);
    }
  }

  /** Reads numbers until the input is used up; None if it is malformed. */
  function DecodeAll(s: string): Option<seq<nat>>
    decreases |s|
  {
    if s == [] then Some([])
    else match DecodeVarint(s)
      case None => None
      case Some((v, rest)) =>
        match DecodeAll(rest)
        case None => None
        case Some(vs) => Some([v] + vs)
  }

  /** Decoding the concatenated groups gives the numbers back. */
  lemma {:induction false} DecodeAllVarintAll(nums: seq<nat>)
    ensures DecodeAll(VarintAll(nums)) == Some(nums)
  {
    if nums != [] {
      var s := VarintAll(nums);
      DecodeVarintOf(nums[0], VarintAll(nums[1..]));
      VarintShape(nums[0]);
      assert s != [];
      DecodeAllVarintAll(nums[1..]);
      assert nums == [nums[0]] + nums[1..];
    }
  }

  /* ------------------------------------------------------------------ */
  /* Delta encoding of the retained points (create_encodings)             */
  /* ------------------------------------------------------------------ */

  /** The folded coordinate differences of consecutive points, the first
      one taken from `prev`. */
  function Deltas(pts: seq<Point>, prev: Point): (nums: seq<nat>)
    ensures |nums| == 2 * |pts|
  {
    if pts == [] then []
    else [ZigZag(pts[0].lat - prev.lat), ZigZag(pts[0].lng - prev.lng)] + Deltas(pts[1..], pts[0])
  }

  function LastOr(pts: seq<Point>, default: Point): Point
  {
    if pts == [] then default else pts[|pts| - 1]
  }

  lemma {:induction false} DeltasSnoc(pts: seq<Point>, p: Point, prev: Point)
    ensures Deltas(pts + [p], prev) ==
            Deltas(pts, prev) + [ZigZag(p.lat - LastOr(pts, prev).lat), ZigZag(p.lng - LastOr(pts, prev).lng)]
  {
    if pts != [] {
      assert (pts + [p])[1..] == pts[1..] + [p];
      DeltasSnoc(pts[1..], p, pts[0]);
    }
  }

  /** What a decoder does with the numbers: unfold pairs and add them up. */
  function Rebuild(nums: seq<nat>, prev: Point): seq<Point>
    decreases |nums|
  {
    if |nums| < 2 then []
    else
      var p := Point(prev.lat + UnZigZag(nums[0]), prev.lng + UnZigZag(nums[1]));
      [p] + Rebuild(nums[2..], p)
  }

  /** Prefix sums of the decoded deltas recover the points. */
  lemma {:induction false} RebuildDeltas(pts: seq<Point>, prev: Point)
    ensures Rebuild(Deltas(pts, prev), prev) == pts
  {
    if pts != [] {
      var nums := Deltas(pts, prev);
      ZigZagRoundTrip(pts[0].lat - prev.lat);
      ZigZagRoundTrip(pts[0].lng - prev.lng);
      assert nums[2..] == Deltas(pts[1..], pts[0]);
      RebuildDeltas(pts[1..], pts[0]);
      assert pts == [pts[0]] + pts[1..];
    }
  }

  /** The encoded points string of a point list. */
  function PointsCode(pts: seq<Point>): string
  {
    VarintAll(Deltas(pts, Origin))
  }

  /** Reading a points string back, as a map client does. */
  function DecodePoints(s: string): Option<seq<Point>>
  {
    match DecodeAll(s)
    case None => None
    case Some(nums) => if |nums| % 2 == 0 then Some(Rebuild(nums, Origin)) else None
  }

  /** The points string decodes to exactly the points it was made from. */
  lemma DecodePointsCode(pts: seq<Point>)
    ensures DecodePoints(PointsCode(pts)) == Some(pts)
  {
    var nums := Deltas(pts, Origin);
    assert PointsCode(pts) == VarintAll(nums);
    DecodeAllVarintAll(nums);
    assert |nums| % 2 == 0 by {
      assert |nums| == 2 * |pts|;
    }
    RebuildDeltas(pts, Origin);
  }

  lemma PointsCodeSnoc(pts: seq<Point>, p: Point)
    ensures PointsCode(pts + [p]) ==
            PointsCode(pts) + (Varint(ZigZag(p.lat - LastOr(pts, Origin).lat)) + Varint(ZigZag(p.lng - LastOr(pts, Origin).lng)))
  {
    var prev := LastOr(pts, Origin);
    var a := ZigZag(p.lat - prev.lat);
    var b := ZigZag(p.lng - prev.lng);
    var d := Deltas(pts, Origin);
    DeltasSnoc(pts, p, Origin);
    assert d + [a, b] == (d + [a]) + [b];
    VarintAllSnoc(d + [a], b);
    VarintAllSnoc(d, a);
    AppendAssoc(VarintAll(d), Varint(a), Varint(b));
  }

  lemma AppendAssoc(a: string, b: string, c: string)
    ensures (a + b) + c == a + (b + c)
  {
  }

  /** create_encodings keeps index i when it has a recorded distance or is
      the first or the last index. */
  predicate Kept(n: nat, dists: map<int, real>, i: nat)
  {
    i in dists || i == 0 || i == n - 1
  }

  /** The points create_encodings emits among the first `i` of the ring, in
      index order. */
  function SelectUpTo(ring: seq<Point>, dists: map<int, real>, i: nat): seq<Point>
    requires i <= |ring|
  {
    if i == 0 then []
    else SelectUpTo(ring, dists, i - 1) + (if Kept(|ring|, dists, i - 1) then [ring[i - 1]] else [])
  }

  function Selected(ring: seq<Point>, dists: map<int, real>): seq<Point>
  {
    SelectUpTo(ring, dists, |ring|)
  }

  /** The first and the last vertex of a ring are always emitted. */
  lemma SelectedEndpoints(ring: seq<Point>, dists: map<int, real>)
    requires |ring| >= 1
    ensures |Selected(ring, dists)| >= 1
    ensures Selected(ring, dists)[0] == ring[0]
    ensures Selected(ring, dists)[|Selected(ring, dists)| - 1] == ring[|ring| - 1]
  {
    SelectUpToFirst(ring, dists, |ring|);
  }

  lemma {:induction false} SelectUpToFirst(ring: seq<Point>, dists: map<int, real>, i: nat)
    requires 1 <= i <= |ring|
    ensures |SelectUpTo(ring, dists, i)| >= 1 && SelectUpTo(ring, dists, i)[0] == ring[0]
  {
    if i > 1 {
      SelectUpToFirst(ring, dists, i - 1);
    }
  }

  /** create_encodings: the previous emitted point starts at the origin
      (an unset PHP variable reads as 0). */
  method CreateEncodings(ring: seq<Point>, dists: map<int, real>) returns (encodedPoints: string)
    ensures encodedPoints == PointsCode(Selected(ring, dists))
  {
    encodedPoints := "";
    var plat, plng := 0, 0;
    var i := 0;
    var numPoints := |ring|;
    while i < numPoints
      invariant 0 <= i <= numPoints
      invariant encodedPoints == PointsCode(SelectUpTo(ring, dists, i))
      invariant Point(plat, plng) == LastOr(SelectUpTo(ring, dists, i), Origin)
    {
      if i in dists || i == 0 || i == |ring| - 1 {
        var point := ring[i];
        var dlat := point.lat - plat;
        var dlng := point.lng - plng;
        plat, plng := point.lat, point.lng;
        var a := EncodeSignedNumber(dlat);
        var b := EncodeSignedNumber(dlng);
        PointsCodeSnoc(SelectUpTo(ring, dists, i), point);
        assert SelectUpTo(ring, dists, i + 1) == SelectUpTo(ring, dists, i) + [point];
        encodedPoints := encodedPoints + (a + b);
      } else {
        assert SelectUpTo(ring, dists, i + 1) == SelectUpTo(ring, dists, i) + [];
        assert SelectUpTo(ring, dists, i + 1) == SelectUpTo(ring, dists, i);
        assert encodedPoints == PointsCode(SelectUpTo(ring, dists, i + 1));
      }
      i := i + 1;
    }
  }

  /* ------------------------------------------------------------------ */
  /* Zoom levels (constructor table, compute_level, encode_levels)        */
  /* ------------------------------------------------------------------ */

  function Pow(x: real, k: nat): real
  {
    if k == 0 then 1.0 else x * Pow(x, k - 1)
  }

  /** zoomLevelBreaks[i] = verySmall * zoomFactor^(numLevels - i - 1). */
  function Breaks(numLevels: nat, zoomFactor: real, verySmall: real): seq<real>
  {
    seq(numLevels, i requires 0 <= i < numLevels => verySmall * Pow(zoomFactor, numLevels - i - 1))
  }

  lemma MulPositive(a: real, b: real)
    requires a > 0.0 && b > 0.0
    ensures a * b > 0.0
  {
  }

  lemma {:induction false} PowPositive(x: real, k: nat)
    requires x > 0.0
    ensures Pow(x, k) > 0.0
  {
    if k > 0 {
      PowPositive(x, k - 1);
      MulPositive(x, Pow(x, k - 1));
    }
  }

  lemma {:induction false} PowGrows(x: real, j: nat, k: nat)
    requires x > 1.0 && j < k
    ensures Pow(x, j) < Pow(x, k)
    decreases k
  {
    PowPositive(x, k - 1);
    var p := Pow(x, k - 1);
    MulPositive(x - 1.0, p);
    assert Pow(x, k) - p == (x - 1.0) * p;
    if j < k - 1 {
      PowGrows(x, j, k - 1);
    }
  }

  /** For a zoom factor above 1 the table strictly decreases, and its last
      entry is verySmall itself. */
  lemma BreaksTable(numLevels: nat, zoomFactor: real, verySmall: real)
    requires zoomFactor > 1.0 && verySmall > 0.0
    ensures forall i, j :: 0 <= i < j < numLevels ==>
              Breaks(numLevels, zoomFactor, verySmall)[i] > Breaks(numLevels, zoomFactor, verySmall)[j]
    ensures numLevels >= 1 ==> Breaks(numLevels, zoomFactor, verySmall)[numLevels - 1] == verySmall
  {
    var b := Breaks(numLevels, zoomFactor, verySmall);
    assert Pow(zoomFactor, 0) == 1.0;
    forall i, j | 0 <= i < j < numLevels
      ensures b[i] > b[j]
    {
      var hi := Pow(zoomFactor, numLevels - i - 1);
      var lo := Pow(zoomFactor, numLevels - j - 1);
      PowGrows(zoomFactor, numLevels - j - 1, numLevels - i - 1);
      MulPositive(verySmall, hi - lo);
      assert verySmall * hi - verySmall * lo == verySmall * (hi - lo);
    }
  }

  /** The level settings the encoder was built with. */
  datatype LevelTable = LevelTable(numLevels: nat, breaks: seq<real>, verySmall: real, forceEndpoints: bool)
  {
    /** At least one level, and the finest threshold is verySmall (as the
        constructor's table has it). */
    predicate WellFormed()
    {
      numLevels >= 1 && |breaks| == numLevels && breaks[numLevels - 1] == verySmall
    }
  }

  /** The walk of compute_level's loop from index `lev`.  Reading past the
      table yields PHP null, and `dd < null` is false, so the walk stops at
      the end of the table. */
  function LevelFrom(breaks: seq<real>, dd: real, lev: nat): nat
    decreases |breaks| - lev
  {
    if lev < |breaks| && dd < breaks[lev] then LevelFrom(breaks, dd, lev + 1) else lev
  }

  /** compute_level: for dd <= verySmall the level stays unset, which PHP
      reads as 0. */
  function LevelOf(t: LevelTable, dd: real): nat
  {
    if dd > t.verySmall then LevelFrom(t.breaks, dd, 0) else 0
  }

  lemma {:induction false} LevelFromLeast(breaks: seq<real>, dd: real, lev: nat)
    requires lev < |breaks| && dd >= breaks[|breaks| - 1]
    ensures lev <= LevelFrom(breaks, dd, lev) < |breaks|
    ensures dd >= breaks[LevelFrom(breaks, dd, lev)]
    ensures forall j :: lev <= j < LevelFrom(breaks, dd, lev) ==> dd < breaks[j]
    decreases |breaks| - lev
  {
    if dd < breaks[lev] {
      LevelFromLeast(breaks, dd, lev + 1);
    }
  }

  /** Above verySmall, compute_level returns the least level whose threshold
      dd reaches; the result is always a valid level. */
  lemma LevelOfLeast(t: LevelTable, dd: real)
    requires t.WellFormed()
    ensures LevelOf(t, dd) < t.numLevels
    ensures dd > t.verySmall ==> dd >= t.breaks[LevelOf(t, dd)]
    ensures dd > t.verySmall ==> forall j :: 0 <= j < LevelOf(t, dd) ==> dd < t.breaks[j]
  {
    if dd > t.verySmall {
      LevelFromLeast(t.breaks, dd, 0);
    }
  }

  /** A larger deviation never gets a finer level. */
  lemma LevelMonotone(t: LevelTable, dd1: real, dd2: real)
    requires t.WellFormed() && t.verySmall < dd1 <= dd2
    ensures LevelOf(t, dd2) <= LevelOf(t, dd1)
  {
    LevelOfLeast(t, dd1);
    LevelOfLeast(t, dd2);
  }

  /** The number encode_levels writes for a deviation. */
  function LevelCode(t: LevelTable, dd: real): nat
    requires t.WellFormed()
  {
    LevelOfLeast(t, dd);
    t.numLevels - LevelOf(t, dd) - 1
  }

  /** The code of both endpoints. */
  function EndCode(t: LevelTable, absMaxDist: real): nat
    requires t.WellFormed()
  {
    if t.forceEndpoints then t.numLevels - 1 else LevelCode(t, absMaxDist)
  }

  /** The codes of the recorded indices in [1, i). */
  function InteriorCodes(t: LevelTable, dists: map<int, real>, i: nat): seq<nat>
    requires t.WellFormed()
  {
    if i <= 1 then []
    else InteriorCodes(t, dists, i - 1) + (if i - 1 in dists then [LevelCode(t, dists[i - 1])] else [])
  }

  /** The codes encode_levels emits for a ring of n points. */
  function LevelCodes(t: LevelTable, n: nat, dists: map<int, real>, absMaxDist: real): seq<nat>
    requires t.WellFormed()
  {
    [EndCode(t, absMaxDist)] + InteriorCodes(t, dists, if n == 0 then 0 else n - 1) + [EndCode(t, absMaxDist)]
  }

  lemma {:induction false} KeptCount(ring: seq<Point>, dists: map<int, real>, t: LevelTable, i: nat)
    requires t.WellFormed() && 1 <= i <= |ring| - 1
    ensures |SelectUpTo(ring, dists, i)| == 1 + |InteriorCodes(t, dists, i)|
  {
    if i > 1 {
      KeptCount(ring, dists, t, i - 1);
    }
  }

  /** encode_levels emits one code per point create_encodings emits, for a
      ring of two or more points. */
  lemma OneLevelPerPoint(ring: seq<Point>, dists: map<int, real>, t: LevelTable, absMaxDist: real)
    requires t.WellFormed() && |ring| >= 2
    ensures |LevelCodes(t, |ring|, dists, absMaxDist)| == |Selected(ring, dists)|
  {
    KeptCount(ring, dists, t, |ring| - 1);
  }

  /* ------------------------------------------------------------------ */
  /* Douglas-Peucker simplification (the stack loop of encode_polygon)    */
  /* ------------------------------------------------------------------ */

  /** The deviation of vertex i from the chord ring[lo]-ring[hi]. */
  function Deviation(ring: seq<Point>, dist: (Point, Point, Point) -> real, lo: int, hi: int, i: int): real
    requires 0 <= lo < |ring| && 0 <= hi < |ring| && 0 <= i < |ring|
  {
    dist(ring[i], ring[lo], ring[hi])
  }

  /** Vertex k is the first vertex strictly inside lo..hi at the largest
      deviation d from that chord. */
  ghost predicate FarthestIn(ring: seq<Point>, dist: (Point, Point, Point) -> real, lo: int, k: int, hi: int, d: real)
  {
    && 0 <= lo < k < hi < |ring|
    && Deviation(ring, dist, lo, hi, k) == d
    && (forall i :: lo < i < hi ==> Deviation(ring, dist, lo, hi, i) <= d)
    && (forall i :: lo < i < k ==> Deviation(ring, dist, lo, hi, i) < d)
  }

  /** Range r is split at k: k is the first vertex of r at its largest
      deviation, and that deviation exceeds verySmall. */
  ghost predicate SplitAt(ring: seq<Point>, dist: (Point, Point, Point) -> real, verySmall: real, r: (int, int), k: int)
  {
    && 0 <= r.0 < k < r.1 < |ring|
    && Deviation(ring, dist, r.0, r.1, k) > verySmall
    && FarthestIn(ring, dist, r.0, k, r.1, Deviation(ring, dist, r.0, r.1, k))
  }

  /** Range s is one of the two halves of a range examined before position
      `bound`, split at that range's farthest vertex. */
  ghost predicate HalfOf(ring: seq<Point>, dist: (Point, Point, Point) -> real, verySmall: real,
                         examined: seq<(int, int)>, s: (int, int), bound: int)
  {
    exists m, k :: 0 <= m < bound && m < |examined| && SplitAt(ring, dist, verySmall, examined[m], k)
                   && (s == (examined[m].0, k) || s == (k, examined[m].1))
  }

  /** A recorded distance: d exceeds verySmall and k is the farthest vertex
      of one of the examined ranges. */
  ghost predicate Recorded(ring: seq<Point>, dist: (Point, Point, Point) -> real, verySmall: real,
                           examined: seq<(int, int)>, k: int, d: real)
  {
    d > verySmall && exists j :: 0 <= j < |examined| && FarthestIn(ring, dist, examined[j].0, k, examined[j].1, d)
  }

  /** Every vertex strictly inside lo..hi is within verySmall of its chord. */
  ghost predicate SmoothBetween(ring: seq<Point>, dist: (Point, Point, Point) -> real, verySmall: real, lo: int, hi: int)
  {
    0 <= lo < hi < |ring| && forall j :: lo < j < hi ==> Deviation(ring, dist, lo, hi, j) <= verySmall
  }

  /** Vertex i was dropped: it lies inside an examined range that needed no
      split. */
  ghost predicate Dropped(ring: seq<Point>, dist: (Point, Point, Point) -> real, verySmall: real,
                          examined: seq<(int, int)>, i: int)
  {
    exists j :: 0 <= j < |examined| && examined[j].0 < i < examined[j].1
                && SmoothBetween(ring, dist, verySmall, examined[j].0, examined[j].1)
  }

  /** Vertex i lies strictly inside a range still on the stack. */
  ghost predicate Pending(stack: seq<(int, int)>, i: int)
  {
    exists j :: 0 <= j < |stack| && stack[j].0 < i < stack[j].1
  }

  function Width(r: (int, int)): nat
  {
    if r.1 > r.0 then r.1 - r.0 - 1 else 0
  }

  /** The interior vertices the stack still has to look at. */
  function Work(stack: seq<(int, int)>): nat
  {
    if stack == [] then 0 else Work(stack[..|stack| - 1]) + Width(stack[|stack| - 1])
  }

  /** The inner `for` loop: the first vertex of lo..hi farthest from the
      chord, and the running maximum over all ranges. */
  method FarthestPoint(ring: seq<Point>, dist: (Point, Point, Point) -> real, lo: int, hi: int, absMax0: real)
      returns (maxDist: real, maxLoc: int, absMax: real)
    requires 0 <= lo < hi < |ring| && absMax0 >= 0.0
    ensures maxDist >= 0.0
    ensures forall i :: lo < i < hi ==> Deviation(ring, dist, lo, hi, i) <= maxDist
    ensures maxDist > 0.0 ==> FarthestIn(ring, dist, lo, maxLoc, hi, maxDist)
    ensures absMax == if maxDist > absMax0 then maxDist else absMax0
  {
    maxDist, maxLoc, absMax := 0.0, lo, absMax0;
    var i := lo + 1;
    while i < hi
      invariant lo + 1 <= i <= hi
      invariant maxDist >= 0.0
      invariant forall j :: lo < j < i ==> Deviation(ring, dist, lo, hi, j) <= maxDist
      invariant maxDist > 0.0 ==> lo < maxLoc < i && Deviation(ring, dist, lo, hi, maxLoc) == maxDist
      invariant maxDist > 0.0 ==> forall j :: lo < j < maxLoc ==> Deviation(ring, dist, lo, hi, j) < maxDist
      invariant absMax == if maxDist > absMax0 then maxDist else absMax0
    {
      var temp := dist(ring[i], ring[lo], ring[hi]);
      if temp > maxDist {
        maxDist := temp;
        maxLoc := i;
        if maxDist > absMax {
          absMax := maxDist;
        }
      }
      i := i + 1;
    }
  }

  /** A range has one farthest vertex. */
  lemma FarthestUnique(ring: seq<Point>, dist: (Point, Point, Point) -> real, lo: int, hi: int,
                       k1: int, d1: real, k2: int, d2: real)
    requires FarthestIn(ring, dist, lo, k1, hi, d1) && FarthestIn(ring, dist, lo, k2, hi, d2)
    ensures k1 == k2 && d1 == d2
  {
  }

  /** Every entry of a list of ranges is a range lo < hi of vertex indices. */
  ghost predicate Ranges(stack: seq<(int, int)>, n: int)
  {
    forall j :: 0 <= j < |stack| ==> 0 <= stack[j].0 < stack[j].1 < n
  }

  /** absMax is the largest of absMax0 and of every deviation met in an
      examined range. */
  ghost predicate Peak(ring: seq<Point>, dist: (Point, Point, Point) -> real, examined: seq<(int, int)>,
                       absMax0: real, absMax: real)
  {
    && Ranges(examined, |ring|)
    && absMax >= absMax0
    && (forall j, i :: 0 <= j < |examined| && examined[j].0 < i < examined[j].1 ==>
          Deviation(ring, dist, examined[j].0, examined[j].1, i) <= absMax)
    && (absMax == absMax0 ||
        exists j, i :: 0 <= j < |examined| && examined[j].0 < i < examined[j].1
                       && Deviation(ring, dist, examined[j].0, examined[j].1, i) == absMax)
  }

  /** Every entry is either one left by an earlier ring or a distance this
      ring recorded, bounded by the running maximum. */
  ghost predicate Sound(ring: seq<Point>, dist: (Point, Point, Point) -> real, verySmall: real,
                        examined: seq<(int, int)>, dists0: map<int, real>, dists: map<int, real>, absMax: real)
  {
    forall k :: k in dists ==>
      (k in dists0 && dists[k] == dists0[k]) ||
      (Recorded(ring, dist, verySmall, examined, k, dists[k]) && dists[k] <= absMax)
  }

  /** Every interior vertex is recorded, dropped, or still to be examined. */
  ghost predicate Covered(ring: seq<Point>, dist: (Point, Point, Point) -> real, verySmall: real,
                          dists: map<int, real>, examined: seq<(int, int)>, stack: seq<(int, int)>)
  {
    forall i :: 0 < i < |ring| - 1 ==>
      i in dists || Dropped(ring, dist, verySmall, examined, i) || Pending(stack, i)
  }

  /** The whole ring is examined first, and every range examined or pushed
      later is a half of a range examined before it. */
  ghost predicate Descended(ring: seq<Point>, dist: (Point, Point, Point) -> real, verySmall: real,
                            examined: seq<(int, int)>, stack: seq<(int, int)>)
  {
    && (|examined| == 0 ==> stack == [(0, |ring| - 1)])
    && (|examined| > 0 ==> examined[0] == (0, |ring| - 1))
    && (forall j :: 0 < j < |examined| ==> HalfOf(ring, dist, verySmall, examined, examined[j], j))
    && (forall s :: s in stack && |examined| > 0 ==> HalfOf(ring, dist, verySmall, examined, s, |examined|))
  }

  /** Every examined range that needs a split has its farthest vertex
      recorded and both halves examined or still on the stack. */
  ghost predicate Closed(ring: seq<Point>, dist: (Point, Point, Point) -> real, verySmall: real,
                         dists: map<int, real>, examined: seq<(int, int)>, stack: seq<(int, int)>)
  {
    forall m, k {:trigger SplitAt(ring, dist, verySmall, examined[m], k)} ::
      0 <= m < |examined| && SplitAt(ring, dist, verySmall, examined[m], k) ==>
      && k in dists && dists[k] == Deviation(ring, dist, examined[m].0, examined[m].1, k)
      && (examined[m].0, k) in examined + stack
      && (k, examined[m].1) in examined + stack
  }

  /** The ranges on the stack lie left to right without overlapping, so
      the top is the rightmost. */
  ghost predicate Ordered(stack: seq<(int, int)>)
  {
    forall i, j :: 0 <= i < j < |stack| ==> stack[i].1 <= stack[j].0
  }

  /** No vertex a range was split at lies inside a range still on the
      stack, so no later split records it again. */
  ghost predicate Settled(ring: seq<Point>, dist: (Point, Point, Point) -> real, verySmall: real,
                          examined: seq<(int, int)>, stack: seq<(int, int)>)
  {
    forall m, k, j {:trigger SplitAt(ring, dist, verySmall, examined[m], k), stack[j]} ::
      0 <= m < |examined| && SplitAt(ring, dist, verySmall, examined[m], k) && 0 <= j < |stack| ==>
        !(stack[j].0 < k < stack[j].1)
  }

  /** The invariant of the stack loop. */
  ghost predicate Simplifying(ring: seq<Point>, dist: (Point, Point, Point) -> real, verySmall: real,
                              dists0: map<int, real>, absMax0: real, dists: map<int, real>, absMax: real,
                              examined: seq<(int, int)>, stack: seq<(int, int)>)
  {
    && Ranges(stack, |ring|)
    && dists0.Keys <= dists.Keys
    && Peak(ring, dist, examined, absMax0, absMax)
    && Sound(ring, dist, verySmall, examined, dists0, dists, absMax)
    && Covered(ring, dist, verySmall, dists, examined, stack)
    && Descended(ring, dist, verySmall, examined, stack)
    && Closed(ring, dist, verySmall, dists, examined, stack)
    && Ordered(stack)
    && Settled(ring, dist, verySmall, examined, stack)
  }

  /** The facts FarthestPoint gives about the top range. */
  ghost predicate Farthest(ring: seq<Point>, dist: (Point, Point, Point) -> real, r: (int, int),
                           absMax: real, maxDist: real, maxLoc: int, am: real)
  {
    && 0 <= r.0 < r.1 < |ring|
    && maxDist >= 0.0
    && (forall i :: r.0 < i < r.1 ==> Deviation(ring, dist, r.0, r.1, i) <= maxDist)
    && (maxDist > 0.0 ==> FarthestIn(ring, dist, r.0, maxLoc, r.1, maxDist))
    && am == if maxDist > absMax then maxDist else absMax
  }

  lemma PeakStep(ring: seq<Point>, dist: (Point, Point, Point) -> real, examined: seq<(int, int)>,
                 absMax0: real, absMax: real, r: (int, int), maxDist: real, maxLoc: int, am: real)
    requires absMax0 >= 0.0 && Peak(ring, dist, examined, absMax0, absMax)
    requires Farthest(ring, dist, r, absMax, maxDist, maxLoc, am)
    ensures Peak(ring, dist, examined + [r], absMax0, am)
  {
    var next := examined + [r];
    forall j, i | 0 <= j < |next| && next[j].0 < i < next[j].1
      ensures Deviation(ring, dist, next[j].0, next[j].1, i) <= am
    {
      if j < |examined| {
        assert next[j] == examined[j];
      }
    }
    if am != absMax0 {
      if am == absMax {
        var j, i :| 0 <= j < |examined| && examined[j].0 < i < examined[j].1
                    && Deviation(ring, dist, examined[j].0, examined[j].1, i) == absMax;
        assert next[j] == examined[j];
      } else {
        assert next[|examined|] == r;
        assert Deviation(ring, dist, r.0, r.1, maxLoc) == am;
      }
    }
  }

  lemma SoundStep(ring: seq<Point>, dist: (Point, Point, Point) -> real, verySmall: real,
                  examined: seq<(int, int)>, dists0: map<int, real>, dists: map<int, real>, absMax: real,
                  r: (int, int), maxDist: real, maxLoc: int, am: real)
    requires verySmall >= 0.0 && Sound(ring, dist, verySmall, examined, dists0, dists, absMax)
    requires Farthest(ring, dist, r, absMax, maxDist, maxLoc, am)
    ensures Sound(ring, dist, verySmall, examined + [r], dists0, dists, am)
    ensures maxDist > verySmall ==>
              Sound(ring, dist, verySmall, examined + [r], dists0, dists[maxLoc := maxDist], am)
  {
    var next := examined + [r];
    forall k | k in dists && Recorded(ring, dist, verySmall, examined, k, dists[k])
      ensures Recorded(ring, dist, verySmall, next, k, dists[k])
    {
      var j :| 0 <= j < |examined| && FarthestIn(ring, dist, examined[j].0, k, examined[j].1, dists[k]);
      assert next[j] == examined[j];
    }
    if maxDist > verySmall {
      assert next[|examined|] == r;
      assert Recorded(ring, dist, verySmall, next, maxLoc, maxDist);
    }
  }

  lemma DroppedGrows(ring: seq<Point>, dist: (Point, Point, Point) -> real, verySmall: real,
                     examined: seq<(int, int)>, r: (int, int), i: int)
    requires Dropped(ring, dist, verySmall, examined, i)
    ensures Dropped(ring, dist, verySmall, examined + [r], i)
  {
    var j :| 0 <= j < |examined| && examined[j].0 < i < examined[j].1
             && SmoothBetween(ring, dist, verySmall, examined[j].0, examined[j].1);
    assert (examined + [r])[j] == examined[j];
  }

  lemma CoveredAfterSplit(ring: seq<Point>, dist: (Point, Point, Point) -> real, verySmall: real,
                          dists: map<int, real>, examined: seq<(int, int)>, stack: seq<(int, int)>, k: int, d: real)
    requires |stack| >= 1 && stack[|stack| - 1].0 < k < stack[|stack| - 1].1
    requires Covered(ring, dist, verySmall, dists, examined, stack)
    ensures Covered(ring, dist, verySmall, dists[k := d], examined + [stack[|stack| - 1]],
                    stack[..|stack| - 1] + [(stack[|stack| - 1].0, k), (k, stack[|stack| - 1].1)])
  {
    var top := stack[|stack| - 1];
    var next := stack[..|stack| - 1] + [(top.0, k), (k, top.1)];
    forall i | 0 < i < |ring| - 1 && Dropped(ring, dist, verySmall, examined, i)
      ensures Dropped(ring, dist, verySmall, examined + [top], i)
    {
      DroppedGrows(ring, dist, verySmall, examined, top, i);
    }
    forall i | 0 < i < |ring| - 1 && Pending(stack, i)
      ensures i in dists[k := d] || Pending(next, i)
    {
      var j :| 0 <= j < |stack| && stack[j].0 < i < stack[j].1;
      if j < |stack| - 1 {
        assert next[j] == stack[j];
      } else if i < k {
        assert next[|next| - 2] == (top.0, k);
      } else if i > k {
        assert next[|next| - 1] == (k, top.1);
      }
    }
  }

  lemma CoveredAfterSmooth(ring: seq<Point>, dist: (Point, Point, Point) -> real, verySmall: real,
                           dists: map<int, real>, examined: seq<(int, int)>, stack: seq<(int, int)>)
    requires |stack| >= 1 && SmoothBetween(ring, dist, verySmall, stack[|stack| - 1].0, stack[|stack| - 1].1)
    requires Covered(ring, dist, verySmall, dists, examined, stack)
    ensures Covered(ring, dist, verySmall, dists, examined + [stack[|stack| - 1]], stack[..|stack| - 1])
  {
    var top := stack[|stack| - 1];
    var next := stack[..|stack| - 1];
    var seen := examined + [top];
    forall i | 0 < i < |ring| - 1 && Dropped(ring, dist, verySmall, examined, i)
      ensures Dropped(ring, dist, verySmall, seen, i)
    {
      DroppedGrows(ring, dist, verySmall, examined, top, i);
    }
    forall i | 0 < i < |ring| - 1 && Pending(stack, i)
      ensures Dropped(ring, dist, verySmall, seen, i) || Pending(next, i)
    {
      var j :| 0 <= j < |stack| && stack[j].0 < i < stack[j].1;
      if j < |stack| - 1 {
        assert next[j] == stack[j];
      } else {
        assert seen[|examined|] == top;
      }
    }
  }

  lemma OriginGrows(ring: seq<Point>, dist: (Point, Point, Point) -> real, verySmall: real,
                    examined: seq<(int, int)>, r: (int, int), s: (int, int), bound: int)
    requires HalfOf(ring, dist, verySmall, examined, s, bound)
    ensures HalfOf(ring, dist, verySmall, examined + [r], s, bound)
  {
    var m, k :| 0 <= m < bound && m < |examined| && SplitAt(ring, dist, verySmall, examined[m], k)
                && (s == (examined[m].0, k) || s == (k, examined[m].1));
    assert (examined + [r])[m] == examined[m];
  }

  lemma DescendedStep(ring: seq<Point>, dist: (Point, Point, Point) -> real, verySmall: real,
                      examined: seq<(int, int)>, stack: seq<(int, int)>, rest: seq<(int, int)>)
    requires |stack| >= 1 && Descended(ring, dist, verySmall, examined, stack)
    requires forall s :: s in rest ==>
               (s in stack[..|stack| - 1] || HalfOf(ring, dist, verySmall, examined + [stack[|stack| - 1]], s, |examined| + 1))
    ensures Descended(ring, dist, verySmall, examined + [stack[|stack| - 1]], rest)
  {
    var top := stack[|stack| - 1];
    var next := examined + [top];
    assert top in stack;
    if |examined| > 0 {
      assert next[0] == examined[0];
      assert HalfOf(ring, dist, verySmall, examined, top, |examined|);
      OriginGrows(ring, dist, verySmall, examined, top, top, |examined|);
      assert next[|examined|] == top;
    }
    forall j | 0 < j < |examined|
      ensures HalfOf(ring, dist, verySmall, next, next[j], j)
    {
      assert next[j] == examined[j];
      OriginGrows(ring, dist, verySmall, examined, top, examined[j], j);
    }
    forall s | s in rest
      ensures HalfOf(ring, dist, verySmall, next, s, |next|)
    {
      if s in stack[..|stack| - 1] {
        assert |examined| > 0;
        assert s in stack;
        OriginGrows(ring, dist, verySmall, examined, top, s, |examined|);
        var m, k :| 0 <= m < |examined| && m < |next| && SplitAt(ring, dist, verySmall, next[m], k)
                    && (s == (next[m].0, k) || s == (k, next[m].1));
      }
    }
  }

  /** After a split the top range's halves come from it. */
  lemma HalvesOrigin(ring: seq<Point>, dist: (Point, Point, Point) -> real, verySmall: real,
                     examined: seq<(int, int)>, r: (int, int), k: int)
    requires SplitAt(ring, dist, verySmall, r, k)
    ensures HalfOf(ring, dist, verySmall, examined + [r], (r.0, k), |examined| + 1)
    ensures HalfOf(ring, dist, verySmall, examined + [r], (k, r.1), |examined| + 1)
  {
    assert (examined + [r])[|examined|] == r;
  }

  lemma ClosedStep(ring: seq<Point>, dist: (Point, Point, Point) -> real, verySmall: real,
                   dists: map<int, real>, examined: seq<(int, int)>, stack: seq<(int, int)>,
                   dists': map<int, real>, rest: seq<(int, int)>)
    requires |stack| >= 1 && Closed(ring, dist, verySmall, dists, examined, stack)
    requires Settled(ring, dist, verySmall, examined, stack)
    requires forall k :: k in dists && !(stack[|stack| - 1].0 < k < stack[|stack| - 1].1) ==>
               k in dists' && dists'[k] == dists[k]
    requires forall s :: s in stack[..|stack| - 1] ==> s in rest
    requires forall k :: SplitAt(ring, dist, verySmall, stack[|stack| - 1], k) ==>
               && k in dists' && dists'[k] == Deviation(ring, dist, stack[|stack| - 1].0, stack[|stack| - 1].1, k)
               && (stack[|stack| - 1].0, k) in rest && (k, stack[|stack| - 1].1) in rest
    ensures Closed(ring, dist, verySmall, dists', examined + [stack[|stack| - 1]], rest)
  {
    var top := stack[|stack| - 1];
    var next := examined + [top];
    forall m, k | 0 <= m < |next| && SplitAt(ring, dist, verySmall, next[m], k)
      ensures k in dists' && dists'[k] == Deviation(ring, dist, next[m].0, next[m].1, k)
      ensures (next[m].0, k) in next + rest && (k, next[m].1) in next + rest
    {
      if m < |examined| {
        assert next[m] == examined[m];
        assert SplitAt(ring, dist, verySmall, examined[m], k);
        assert stack[|stack| - 1] == top;
        StillListed(examined, stack, top, rest, (examined[m].0, k));
        StillListed(examined, stack, top, rest, (k, examined[m].1));
      } else {
        assert next[m] == top;
      }
    }
  }

  /** A range listed as examined or on the stack stays listed after the top
      of the stack is popped into the examined ranges. */
  lemma StillListed(examined: seq<(int, int)>, stack: seq<(int, int)>, top: (int, int), rest: seq<(int, int)>,
                    a: (int, int))
    requires |stack| >= 1 && top == stack[|stack| - 1]
    requires forall s :: s in stack[..|stack| - 1] ==> s in rest
    requires a in examined + stack
    ensures a in examined + [top] + rest
  {
    if a !in examined {
      var j :| 0 <= j < |stack| && stack[j] == a;
      if j < |stack| - 1 {
        assert stack[..|stack| - 1][j] == a;
      }
    }
  }

  /** Splitting the top range at k keeps the stack ordered and every split
      vertex, k included, outside the ranges left on it. */
  lemma SettledAfterSplit(ring: seq<Point>, dist: (Point, Point, Point) -> real, verySmall: real,
                          examined: seq<(int, int)>, stack: seq<(int, int)>, top: (int, int), k: int)
    requires |stack| >= 1 && top == stack[|stack| - 1]
    requires Ordered(stack) && Settled(ring, dist, verySmall, examined, stack)
    requires forall k' :: SplitAt(ring, dist, verySmall, top, k') ==> k' == k
    requires stack[|stack| - 1].0 < k < stack[|stack| - 1].1
    ensures var rest := stack[..|stack| - 1] + [(top.0, k), (k, top.1)];
      Ordered(rest) && Settled(ring, dist, verySmall, examined + [top], rest)
  {
    var rest := stack[..|stack| - 1] + [(top.0, k), (k, top.1)];
    var seen := examined + [top];
    var n := |stack| - 1;
    assert Ordered(rest) by {
      forall i, j | 0 <= i < j < |rest| ensures rest[i].1 <= rest[j].0 {
        if j < n {
          assert rest[i] == stack[i] && rest[j] == stack[j];
        } else if i < n {
          assert rest[i] == stack[i] && stack[n] == top;
        }
      }
    }
    forall m, k', j | 0 <= m < |seen| && SplitAt(ring, dist, verySmall, seen[m], k') && 0 <= j < |rest|
      ensures !(rest[j].0 < k' < rest[j].1)
    {
      if m < |examined| {
        assert seen[m] == examined[m];
        assert SplitAt(ring, dist, verySmall, examined[m], k');
        assert stack[n] == top;
        if j < n {
          assert rest[j] == stack[j];
        }
      } else {
        assert seen[m] == top;
        if j < n {
          assert rest[j] == stack[j] && stack[n] == top;
        }
      }
    }
  }

  /** Dropping a top range that needs no split keeps the stack ordered and
      every split vertex outside the ranges left on it. */
  lemma SettledAfterSmooth(ring: seq<Point>, dist: (Point, Point, Point) -> real, verySmall: real,
                           examined: seq<(int, int)>, stack: seq<(int, int)>, top: (int, int))
    requires |stack| >= 1 && top == stack[|stack| - 1]
    requires Ordered(stack) && Settled(ring, dist, verySmall, examined, stack)
    requires forall k :: !SplitAt(ring, dist, verySmall, top, k)
    ensures Ordered(stack[..|stack| - 1])
    ensures Settled(ring, dist, verySmall, examined + [top], stack[..|stack| - 1])
  {
    var rest := stack[..|stack| - 1];
    var seen := examined + [top];
    assert Ordered(rest) by {
      forall i, j | 0 <= i < j < |rest| ensures rest[i].1 <= rest[j].0 {
        assert rest[i] == stack[i] && rest[j] == stack[j];
      }
    }
    forall m, k, j | 0 <= m < |seen| && SplitAt(ring, dist, verySmall, seen[m], k) && 0 <= j < |rest|
      ensures !(rest[j].0 < k < rest[j].1)
    {
      assert rest[j] == stack[j];
      if m < |examined| {
        assert seen[m] == examined[m];
        assert SplitAt(ring, dist, verySmall, examined[m], k);
      }
    }
  }

  lemma WorkSplit(stack: seq<(int, int)>, k: int)
    requires |stack| >= 1 && stack[|stack| - 1].0 < k < stack[|stack| - 1].1
    ensures Work(stack[..|stack| - 1] + [(stack[|stack| - 1].0, k), (k, stack[|stack| - 1].1)]) < Work(stack)
  {
    var top := stack[|stack| - 1];
    var popped := stack[..|stack| - 1];
    var next := popped + [(top.0, k), (k, top.1)];
    assert next[..|next| - 1] == popped + [(top.0, k)];
    assert (popped + [(top.0, k)])[..|popped|] == popped;
  }

  /** One split of the top range keeps the loop invariant. */
  lemma SplitStep(ring: seq<Point>, dist: (Point, Point, Point) -> real, verySmall: real,
                  dists0: map<int, real>, absMax0: real, dists: map<int, real>, absMax: real,
                  examined: seq<(int, int)>, stack: seq<(int, int)>, maxDist: real, maxLoc: int, am: real)
    requires verySmall >= 0.0 && absMax0 >= 0.0 && |stack| >= 1
    requires Simplifying(ring, dist, verySmall, dists0, absMax0, dists, absMax, examined, stack)
    requires Farthest(ring, dist, stack[|stack| - 1], absMax, maxDist, maxLoc, am) && maxDist > verySmall
    ensures var top := stack[|stack| - 1];
      Simplifying(ring, dist, verySmall, dists0, absMax0, dists[maxLoc := maxDist], am,
                  examined + [top], stack[..|stack| - 1] + [(top.0, maxLoc), (maxLoc, top.1)])
  {
    SplitMeasured(ring, dist, verySmall, dists0, absMax0, dists, absMax, examined, stack, maxDist, maxLoc, am);
    SplitShaped(ring, dist, verySmall, dists, absMax, examined, stack, maxDist, maxLoc, am);
  }

  /** A split keeps the bounds, the running maximum, the recorded entries
      and the coverage of the invariant. */
  lemma SplitMeasured(ring: seq<Point>, dist: (Point, Point, Point) -> real, verySmall: real,
                      dists0: map<int, real>, absMax0: real, dists: map<int, real>, absMax: real,
                      examined: seq<(int, int)>, stack: seq<(int, int)>, maxDist: real, maxLoc: int, am: real)
    requires verySmall >= 0.0 && absMax0 >= 0.0 && |stack| >= 1
    requires Ranges(stack, |ring|) && dists0.Keys <= dists.Keys
    requires Peak(ring, dist, examined, absMax0, absMax)
    requires Sound(ring, dist, verySmall, examined, dists0, dists, absMax)
    requires Covered(ring, dist, verySmall, dists, examined, stack)
    requires Farthest(ring, dist, stack[|stack| - 1], absMax, maxDist, maxLoc, am) && maxDist > verySmall
    ensures var top := stack[|stack| - 1];
      var rest := stack[..|stack| - 1] + [(top.0, maxLoc), (maxLoc, top.1)];
      var dists' := dists[maxLoc := maxDist];
      && Ranges(rest, |ring|) && dists0.Keys <= dists'.Keys
      && Peak(ring, dist, examined + [top], absMax0, am)
      && Sound(ring, dist, verySmall, examined + [top], dists0, dists', am)
      && Covered(ring, dist, verySmall, dists', examined + [top], rest)
  {
    var top := stack[|stack| - 1];
    var rest := stack[..|stack| - 1] + [(top.0, maxLoc), (maxLoc, top.1)];
    assert Ranges(rest, |ring|) by {
      forall j | 0 <= j < |rest| ensures 0 <= rest[j].0 < rest[j].1 < |ring| {
        if j < |stack| - 1 { assert rest[j] == stack[j]; }
      }
    }
    PeakStep(ring, dist, examined, absMax0, absMax, top, maxDist, maxLoc, am);
    SoundStep(ring, dist, verySmall, examined, dists0, dists, absMax, top, maxDist, maxLoc, am);
    CoveredAfterSplit(ring, dist, verySmall, dists, examined, stack, maxLoc, maxDist);
  }

  /** A split keeps the order of the ranges, their descent from the whole
      ring, and the recorded splits of the invariant. */
  lemma SplitShaped(ring: seq<Point>, dist: (Point, Point, Point) -> real, verySmall: real,
                    dists: map<int, real>, absMax: real,
                    examined: seq<(int, int)>, stack: seq<(int, int)>, maxDist: real, maxLoc: int, am: real)
    requires verySmall >= 0.0 && |stack| >= 1
    requires Descended(ring, dist, verySmall, examined, stack)
    requires Closed(ring, dist, verySmall, dists, examined, stack)
    requires Ordered(stack) && Settled(ring, dist, verySmall, examined, stack)
    requires Farthest(ring, dist, stack[|stack| - 1], absMax, maxDist, maxLoc, am) && maxDist > verySmall
    ensures var top := stack[|stack| - 1];
      var rest := stack[..|stack| - 1] + [(top.0, maxLoc), (maxLoc, top.1)];
      var dists' := dists[maxLoc := maxDist];
      && Descended(ring, dist, verySmall, examined + [top], rest)
      && Closed(ring, dist, verySmall, dists', examined + [top], rest)
      && Ordered(rest) && Settled(ring, dist, verySmall, examined + [top], rest)
  {
    var top := stack[|stack| - 1];
    var rest := stack[..|stack| - 1] + [(top.0, maxLoc), (maxLoc, top.1)];
    var dists' := dists[maxLoc := maxDist];
    assert FarthestIn(ring, dist, top.0, maxLoc, top.1, maxDist);
    assert SplitAt(ring, dist, verySmall, top, maxLoc);
    forall k | SplitAt(ring, dist, verySmall, top, k)
      ensures k == maxLoc
    {
      FarthestUnique(ring, dist, top.0, top.1, k, Deviation(ring, dist, top.0, top.1, k), maxLoc, maxDist);
    }
    assert Descended(ring, dist, verySmall, examined + [top], rest) by {
      HalvesOrigin(ring, dist, verySmall, examined, top, maxLoc);
      DescendedStep(ring, dist, verySmall, examined, stack, rest);
    }
    SettledAfterSplit(ring, dist, verySmall, examined, stack, top, maxLoc);
    assert rest[|rest| - 2] == (top.0, maxLoc) && rest[|rest| - 1] == (maxLoc, top.1);
    ClosedStep(ring, dist, verySmall, dists, examined, stack, dists', rest);
  }

  /** Dropping a top range that needs no split keeps the loop invariant. */
  lemma SmoothStep(ring: seq<Point>, dist: (Point, Point, Point) -> real, verySmall: real,
                   dists0: map<int, real>, absMax0: real, dists: map<int, real>, absMax: real,
                   examined: seq<(int, int)>, stack: seq<(int, int)>, maxDist: real, maxLoc: int, am: real)
    requires verySmall >= 0.0 && absMax0 >= 0.0 && |stack| >= 1
    requires Simplifying(ring, dist, verySmall, dists0, absMax0, dists, absMax, examined, stack)
    requires Farthest(ring, dist, stack[|stack| - 1], absMax, maxDist, maxLoc, am) && maxDist <= verySmall
    ensures Simplifying(ring, dist, verySmall, dists0, absMax0, dists, am,
                        examined + [stack[|stack| - 1]], stack[..|stack| - 1])
  {
    var top := stack[|stack| - 1];
    var rest := stack[..|stack| - 1];
    assert Ranges(rest, |ring|) by {
      forall j | 0 <= j < |rest| ensures 0 <= rest[j].0 < rest[j].1 < |ring| {
        assert rest[j] == stack[j];
      }
    }
    PeakStep(ring, dist, examined, absMax0, absMax, top, maxDist, maxLoc, am);
    SoundStep(ring, dist, verySmall, examined, dists0, dists, absMax, top, maxDist, maxLoc, am);
    CoveredAfterSmooth(ring, dist, verySmall, dists, examined, stack);
    DescendedStep(ring, dist, verySmall, examined, stack, rest);
    forall k | SplitAt(ring, dist, verySmall, top, k)
      ensures false
    {
    }
    SettledAfterSmooth(ring, dist, verySmall, examined, stack, top);
    ClosedStep(ring, dist, verySmall, dists, examined, stack, dists, rest);
  }

  /** What the simplification of a ring leaves behind, continuing from the
      distances dists0 and the running maximum absMax0 of earlier rings:
      the ranges examined, in order, are the whole ring first and then
      halves of ranges examined before them, each split at its farthest
      vertex; both halves of every such split are examined and the split
      vertex recorded; every interior vertex is recorded or lies in an
      examined range that needed no split; and the running maximum ends as
      the largest of absMax0 and every deviation met in an examined range.
      A ring of at most two vertices leaves everything as it was. */
  ghost predicate Simplified(ring: seq<Point>, dist: (Point, Point, Point) -> real, verySmall: real,
                             dists0: map<int, real>, absMax0: real,
                             examined: seq<(int, int)>, dists: map<int, real>, absMax: real)
  {
    && dists0.Keys <= dists.Keys
    && Peak(ring, dist, examined, absMax0, absMax)
    && Sound(ring, dist, verySmall, examined, dists0, dists, absMax)
    && (|ring| > 2 ==> |examined| > 0 && examined[0] == (0, |ring| - 1))
    && (forall j :: 0 < j < |examined| ==> HalfOf(ring, dist, verySmall, examined, examined[j], j))
    && (forall m, k {:trigger SplitAt(ring, dist, verySmall, examined[m], k)} ::
          0 <= m < |examined| && SplitAt(ring, dist, verySmall, examined[m], k) ==>
          && k in dists && dists[k] == Deviation(ring, dist, examined[m].0, examined[m].1, k)
          && (examined[m].0, k) in examined && (k, examined[m].1) in examined)
    && (|ring| > 2 ==> forall i :: 0 < i < |ring| - 1 ==> i in dists || Dropped(ring, dist, verySmall, examined, i))
    && (|ring| <= 2 ==> dists == dists0 && absMax == absMax0 && examined == [])
  }

  /** The loop starts with the whole ring on the stack. */
  lemma SimplifyStart(ring: seq<Point>, dist: (Point, Point, Point) -> real, verySmall: real,
                      dists0: map<int, real>, absMax0: real)
    requires |ring| > 2
    ensures Simplifying(ring, dist, verySmall, dists0, absMax0, dists0, absMax0, [], [(0, |ring| - 1)])
  {
    var stack := [(0, |ring| - 1)];
    forall i | 0 < i < |ring| - 1
      ensures Pending(stack, i)
    {
      assert stack[0] == (0, |ring| - 1);
    }
  }

  /** With the stack empty the invariant gives the simplification's result. */
  lemma SimplifyEnd(ring: seq<Point>, dist: (Point, Point, Point) -> real, verySmall: real,
                    dists0: map<int, real>, absMax0: real, dists: map<int, real>, absMax: real,
                    examined: seq<(int, int)>)
    requires |ring| > 2
    requires Simplifying(ring, dist, verySmall, dists0, absMax0, dists, absMax, examined, [])
    ensures Simplified(ring, dist, verySmall, dists0, absMax0, examined, dists, absMax)
  {
    assert examined + [] == examined;
  }

  /** The stack loop of encode_polygon on one ring: `examined` lists the
      ranges it pops, in order. */
  method Simplify(ring: seq<Point>, dist: (Point, Point, Point) -> real, verySmall: real,
                  dists0: map<int, real>, absMax0: real)
      returns (dists: map<int, real>, absMax: real, ghost examined: seq<(int, int)>)
    requires verySmall >= 0.0 && absMax0 >= 0.0
    ensures Simplified(ring, dist, verySmall, dists0, absMax0, examined, dists, absMax)
  {
    dists, absMax, examined := dists0, absMax0, [];
    if |ring| > 2 {
      var stack := [(0, |ring| - 1)];
      SimplifyStart(ring, dist, verySmall, dists0, absMax0);
      while |stack| > 0
        invariant Simplifying(ring, dist, verySmall, dists0, absMax0, dists, absMax, examined, stack)
        decreases Work(stack), |stack|
      {
        var current := stack[|stack| - 1];
        var maxDist, maxLoc, am := FarthestPoint(ring, dist, current.0, current.1, absMax);
        if maxDist > verySmall {
          SplitStep(ring, dist, verySmall, dists0, absMax0, dists, absMax, examined, stack, maxDist, maxLoc, am);
          WorkSplit(stack, maxLoc);
          dists := dists[maxLoc := maxDist];
          stack := stack[..|stack| - 1] + [(current.0, maxLoc), (maxLoc, current.1)];
        } else {
          SmoothStep(ring, dist, verySmall, dists0, absMax0, dists, absMax, examined, stack, maxDist, maxLoc, am);
          assert Work(stack) == Work(stack[..|stack| - 1]) + Width(current);
          stack := stack[..|stack| - 1];
        }
        absMax := am;
        examined := examined + [current];
      }
      SimplifyEnd(ring, dist, verySmall, dists0, absMax0, dists, absMax, examined);
    }
  }

  /* ------------------------------------------------------------------ */
  /* get_distance                                                         */
  /* ------------------------------------------------------------------ */

  function Sq(x: real): real { x * x }

  function DistSq(a: Point, b: Point): real
  {
    Sq((a.lat - b.lat) as real) + Sq((a.lng - b.lng) as real)
  }

  lemma SqPositive(x: real)
    requires x != 0.0
    ensures Sq(x) > 0.0
  {
    if x < 0.0 {
      calc { Sq(x); (-x) * (-x); > 0.0; }
    } else {
      calc { Sq(x); x * x; > 0.0; }
    }
  }

  lemma SqNonNegative(x: real)
    ensures Sq(x) >= 0.0
  {
    if x != 0.0 {
      SqPositive(x);
    }
  }

  /** The squared distance from (ax, ay) to the point u of the way along
      (dx, dy). */
  function AlongSq(ax: real, ay: real, dx: real, dy: real, u: real): real
  {
    Sq(ax - u * dx) + Sq(ay - u * dy)
  }

  /** The projection parameter u of get_distance. */
  function Projection(ax: real, ay: real, dx: real, dy: real): real
    requires Sq(dx) + Sq(dy) > 0.0
  {
    (ax * dx + ay * dy) / (Sq(dx) + Sq(dy))
  }

  lemma LengthPositive(dx: real, dy: real)
    requires dx != 0.0 || dy != 0.0
    ensures Sq(dx) + Sq(dy) > 0.0
  {
    SqNonNegative(dx);
    SqNonNegative(dy);
    if dx != 0.0 { SqPositive(dx); } else { SqPositive(dy); }
  }

  /** get_distance, squared (the square root is monotone, so comparisons of
      distances are comparisons of these values): the distance from p0 to
      the segment p1-p2. */
  function SegmentDistanceSq(p0: Point, p1: Point, p2: Point): real
  {
    if p1 == p2 then DistSq(p0, p2)
    else
      var dx := (p2.lat - p1.lat) as real;
      var dy := (p2.lng - p1.lng) as real;
      LengthPositive(dx, dy);
      OffsetSq((p0.lat - p1.lat) as real, (p0.lng - p1.lng) as real, dx, dy)
  }

  /** The squared distance from a = (ax, ay) to the segment from the origin
      to d = (dx, dy), through the projection parameter u: the end 0 when
      u <= 0, the end d when u >= 1, the projected point otherwise. */
  function OffsetSq(ax: real, ay: real, dx: real, dy: real): real
    requires Sq(dx) + Sq(dy) > 0.0
  {
    var u := Projection(ax, ay, dx, dy);
    if u <= 0.0 then Sq(ax) + Sq(ay)
    else if u >= 1.0 then Sq(ax - dx) + Sq(ay - dy)
    else AlongSq(ax, ay, dx, dy, u)
  }

  lemma ExpandAtU(ax: real, ay: real, dx: real, dy: real, u: real)
    ensures AlongSq(ax, ay, dx, dy, u)
         == Sq(ax) + Sq(ay) - 2.0 * (u * (ax * dx + ay * dy)) + u * (u * (Sq(dx) + Sq(dy)))
  {
  }

  lemma ExpandAtEnd(ax: real, ay: real, dx: real, dy: real)
    ensures Sq(ax - dx) + Sq(ay - dy) == Sq(ax) + Sq(ay) - 2.0 * (ax * dx + ay * dy) + (Sq(dx) + Sq(dy))
  {
  }

  lemma ProjectionBack(ax: real, ay: real, dx: real, dy: real)
    requires Sq(dx) + Sq(dy) > 0.0
    ensures Projection(ax, ay, dx, dy) * (Sq(dx) + Sq(dy)) == ax * dx + ay * dy
  {
  }

  lemma MulMonotone(u: real, v: real, len: real)
    requires len > 0.0 && u <= v
    ensures u * len <= v * len
  {
    if u < v {
      MulPositive(v - u, len);
    }
  }

  /** When the projection falls inside the segment, with t = a.d = u len,
      the value a - 2ut + u(u len) is at most a = |a|^2 and at most
      b = |a - d|^2 = a - 2t + len. */
  lemma InsideBounds(a: real, b: real, t: real, len: real, u: real, r: real)
    requires len > 0.0 && 0.0 < u < 1.0 && u * len == t
    requires r == a - 2.0 * (u * t) + u * (u * len)
    requires b == a - 2.0 * t + len
    ensures r <= a && r <= b
  {
    MulPositive(u, len);
    MulPositive(u, t);
    assert u * (u * len) == u * t;
    SqPositive(1.0 - u);
    MulPositive(Sq(1.0 - u), len);
    assert Sq(1.0 - u) * len == len - 2.0 * (u * len) + u * (u * len);
  }

  /** The projected point is no farther from a than either end. */
  lemma AlongBounds(ax: real, ay: real, dx: real, dy: real, u: real)
    requires Sq(dx) + Sq(dy) > 0.0 && 0.0 < u < 1.0
    requires u * (Sq(dx) + Sq(dy)) == ax * dx + ay * dy
    ensures 0.0 <= AlongSq(ax, ay, dx, dy, u)
    ensures AlongSq(ax, ay, dx, dy, u) <= Sq(ax) + Sq(ay)
    ensures AlongSq(ax, ay, dx, dy, u) <= Sq(ax - dx) + Sq(ay - dy)
  {
    ExpandAtU(ax, ay, dx, dy, u);
    ExpandAtEnd(ax, ay, dx, dy);
    SqNonNegative(ax - u * dx);
    SqNonNegative(ay - u * dy);
    InsideBounds(Sq(ax) + Sq(ay), Sq(ax - dx) + Sq(ay - dy), ax * dx + ay * dy, Sq(dx) + Sq(dy), u,
                 AlongSq(ax, ay, dx, dy, u));
  }

  /** The projection falls before the start: the start is the nearer end. */
  lemma BehindBounds(ax: real, ay: real, dx: real, dy: real, u: real)
    requires Sq(dx) + Sq(dy) > 0.0 && u <= 0.0
    requires u * (Sq(dx) + Sq(dy)) == ax * dx + ay * dy
    ensures Sq(ax) + Sq(ay) <= Sq(ax - dx) + Sq(ay - dy)
  {
    ExpandAtEnd(ax, ay, dx, dy);
    MulMonotone(u, 0.0, Sq(dx) + Sq(dy));
  }

  /** The projection falls past the end: the end is the nearer one. */
  lemma BeyondBounds(ax: real, ay: real, dx: real, dy: real, u: real)
    requires Sq(dx) + Sq(dy) > 0.0 && u >= 1.0
    requires u * (Sq(dx) + Sq(dy)) == ax * dx + ay * dy
    ensures Sq(ax - dx) + Sq(ay - dy) <= Sq(ax) + Sq(ay)
  {
    ExpandAtEnd(ax, ay, dx, dy);
    EndNearer(Sq(ax) + Sq(ay), Sq(ax - dx) + Sq(ay - dy), ax * dx + ay * dy, Sq(dx) + Sq(dy), u);
  }

  /** With t = a.d = u len and u at least 1, b = a - 2t + len is at most a. */
  lemma EndNearer(a: real, b: real, t: real, len: real, u: real)
    requires len > 0.0 && u >= 1.0 && u * len == t
    requires b == a - 2.0 * t + len
    ensures b <= a
  {
    MulMonotone(1.0, u, len);
  }

  lemma OffsetBounds(ax: real, ay: real, dx: real, dy: real)
    requires Sq(dx) + Sq(dy) > 0.0
    ensures 0.0 <= OffsetSq(ax, ay, dx, dy)
    ensures OffsetSq(ax, ay, dx, dy) <= Sq(ax) + Sq(ay)
    ensures OffsetSq(ax, ay, dx, dy) <= Sq(ax - dx) + Sq(ay - dy)
  {
    var u := Projection(ax, ay, dx, dy);
    ProjectionBack(ax, ay, dx, dy);
    SqNonNegative(ax);
    SqNonNegative(ay);
    SqNonNegative(ax - dx);
    SqNonNegative(ay - dy);
    if u <= 0.0 {
      BehindBounds(ax, ay, dx, dy, u);
    } else if u >= 1.0 {
      BeyondBounds(ax, ay, dx, dy, u);
    } else {
      AlongBounds(ax, ay, dx, dy, u);
    }
  }

  /** The distance to a segment is never negative and never more than the
      distance to either end point; in particular it is 0 at an end point. */
  lemma SegmentDistanceBounds(p0: Point, p1: Point, p2: Point)
    ensures 0.0 <= SegmentDistanceSq(p0, p1, p2)
    ensures SegmentDistanceSq(p0, p1, p2) <= DistSq(p0, p1)
    ensures SegmentDistanceSq(p0, p1, p2) <= DistSq(p0, p2)
  {
    var ax := (p0.lat - p1.lat) as real;
    var ay := (p0.lng - p1.lng) as real;
    var dx := (p2.lat - p1.lat) as real;
    var dy := (p2.lng - p1.lng) as real;
    assert DistSq(p0, p2) == Sq(ax - dx) + Sq(ay - dy);
    if p1 == p2 {
      SqNonNegative(ax - dx);
      SqNonNegative(ay - dy);
    } else {
      LengthPositive(dx, dy);
      OffsetBounds(ax, ay, dx, dy);
    }
  }

  /* ------------------------------------------------------------------ */
  /* The encoder object and encode_polygon                                */
  /* ------------------------------------------------------------------ */

  /** One entry of encode_polygon's result: the 'points' and 'levels'
      strings of a ring. */
  datatype EncodedRing = EncodedRing(points: string, levels: string)

  /** A ring's two strings decode to the retained vertices, first and last
      included, and to one level code per retained vertex. */
  lemma EncodedRingDecodes(t: LevelTable, ring: seq<Point>, dists: map<int, real>, absMax: real)
    requires t.WellFormed() && |ring| >= 2
    ensures DecodePoints(PointsCode(Selected(ring, dists))) == Some(Selected(ring, dists))
    ensures Selected(ring, dists)[0] == ring[0]
    ensures Selected(ring, dists)[|Selected(ring, dists)| - 1] == ring[|ring| - 1]
    ensures DecodeAll(VarintAll(LevelCodes(t, |ring|, dists, absMax))) == Some(LevelCodes(t, |ring|, dists, absMax))
    ensures |LevelCodes(t, |ring|, dists, absMax)| == |Selected(ring, dists)|
  {
    DecodePointsCode(Selected(ring, dists));
    SelectedEndpoints(ring, dists);
    DecodeAllVarintAll(LevelCodes(t, |ring|, dists, absMax));
    OneLevelPerPoint(ring, dists, t, absMax);
  }

  /** The points string made from one ring never decodes to a list that
      starts at another ring's first vertex. */
  lemma OtherRingFirstVertex(ring0: seq<Point>, ring: seq<Point>, dists: map<int, real>)
    requires |ring0| >= 1 && |ring| >= 1 && ring0[0] != ring[0]
    ensures DecodePoints(PointsCode(Selected(ring0, dists))).Some?
    ensures DecodePoints(PointsCode(Selected(ring0, dists))).value[0] != ring[0]
  {
    DecodePointsCode(Selected(ring0, dists));
    SelectedEndpoints(ring0, dists);
  }

  lemma LevelsSnoc(t: LevelTable, dists: map<int, real>, i: nat, endCode: nat)
    requires t.WellFormed() && i >= 1
    ensures i in dists ==>
              VarintAll([endCode] + InteriorCodes(t, dists, i + 1))
              == VarintAll([endCode] + InteriorCodes(t, dists, i)) + Varint(LevelCode(t, dists[i]))
    ensures i !in dists ==>
              VarintAll([endCode] + InteriorCodes(t, dists, i + 1)) == VarintAll([endCode] + InteriorCodes(t, dists, i))
  {
    var before := [endCode] + InteriorCodes(t, dists, i);
    if i in dists {
      assert [endCode] + InteriorCodes(t, dists, i + 1) == before + [LevelCode(t, dists[i])];
      VarintAllSnoc(before, LevelCode(t, dists[i]));
    } else {
      assert InteriorCodes(t, dists, i + 1) == InteriorCodes(t, dists, i) + [];
      assert InteriorCodes(t, dists, i + 1) == InteriorCodes(t, dists, i);
    }
  }

  /** Iteration q of encode_polygon as written simplifies `ring` again,
      starting from the distances and the maximum iteration q - 1 left. */
  ghost predicate Carried(ring: seq<Point>, dist: (Point, Point, Point) -> real, verySmall: real,
                          ranges: seq<seq<(int, int)>>, chosen: seq<map<int, real>>, peaks: seq<real>)
  {
    && |ranges| == |chosen| == |peaks|
    && forall q {:trigger ranges[q]} :: 0 <= q < |chosen| ==>
         Simplified(ring, dist, verySmall, if q == 0 then map[] else chosen[q - 1],
                    if q == 0 then 0.0 else peaks[q - 1], ranges[q], chosen[q], peaks[q])
  }

  lemma CarriedSnoc(ring: seq<Point>, dist: (Point, Point, Point) -> real, verySmall: real,
                    ranges: seq<seq<(int, int)>>, chosen: seq<map<int, real>>, peaks: seq<real>,
                    dists0: map<int, real>, absMax0: real,
                    examined: seq<(int, int)>, dists: map<int, real>, absMax: real)
    requires Carried(ring, dist, verySmall, ranges, chosen, peaks)
    requires dists0 == (if chosen == [] then map[] else chosen[|chosen| - 1])
    requires absMax0 == (if chosen == [] then 0.0 else peaks[|peaks| - 1])
    requires Simplified(ring, dist, verySmall, dists0, absMax0, examined, dists, absMax)
    ensures Carried(ring, dist, verySmall, ranges + [examined], chosen + [dists], peaks + [absMax])
  {
    var ranges', chosen', peaks' := ranges + [examined], chosen + [dists], peaks + [absMax];
    forall q | 0 <= q < |chosen'|
      ensures Simplified(ring, dist, verySmall, if q == 0 then map[] else chosen'[q - 1],
                         if q == 0 then 0.0 else peaks'[q - 1], ranges'[q], chosen'[q], peaks'[q])
    {
      if q < |chosen| {
        assert Simplified(ring, dist, verySmall, if q == 0 then map[] else chosen[q - 1],
                          if q == 0 then 0.0 else peaks[q - 1], ranges[q], chosen[q], peaks[q]);
        assert ranges'[q] == ranges[q] && chosen'[q] == chosen[q] && peaks'[q] == peaks[q];
        if q > 0 {
          assert chosen'[q - 1] == chosen[q - 1] && peaks'[q - 1] == peaks[q - 1];
        }
      } else {
        assert q == |chosen| && ranges'[q] == examined && chosen'[q] == dists && peaks'[q] == absMax;
        if q > 0 {
          assert chosen'[q - 1] == chosen[q - 1] && peaks'[q - 1] == peaks[q - 1];
        }
      }
    }
  }

  /** Entry q of encode_polygon as written encodes `ring` with the distances
      and the maximum of iteration q. */
  ghost predicate EncodedFrom(t: LevelTable, ring: seq<Point>, encodedPolygon: seq<EncodedRing>,
                              chosen: seq<map<int, real>>, peaks: seq<real>)
    requires t.WellFormed()
  {
    && |encodedPolygon| == |chosen| == |peaks|
    && forall q {:trigger encodedPolygon[q]} :: 0 <= q < |encodedPolygon| ==>
         encodedPolygon[q] == EncodedRing(PointsCode(Selected(ring, chosen[q])),
                                          VarintAll(LevelCodes(t, |ring|, chosen[q], peaks[q])))
  }

  lemma EncodedFromSnoc(t: LevelTable, ring: seq<Point>, encodedPolygon: seq<EncodedRing>,
                        chosen: seq<map<int, real>>, peaks: seq<real>, dists: map<int, real>, absMax: real)
    requires t.WellFormed() && EncodedFrom(t, ring, encodedPolygon, chosen, peaks)
    ensures EncodedFrom(t, ring, encodedPolygon + [EncodedRing(PointsCode(Selected(ring, dists)),
                                                               VarintAll(LevelCodes(t, |ring|, dists, absMax)))],
                        chosen + [dists], peaks + [absMax])
  {
    var e := EncodedRing(PointsCode(Selected(ring, dists)), VarintAll(LevelCodes(t, |ring|, dists, absMax)));
    var encodedPolygon', chosen', peaks' := encodedPolygon + [e], chosen + [dists], peaks + [absMax];
    forall q | 0 <= q < |encodedPolygon'|
      ensures encodedPolygon'[q] == EncodedRing(PointsCode(Selected(ring, chosen'[q])),
                                                VarintAll(LevelCodes(t, |ring|, chosen'[q], peaks'[q])))
    {
      if q < |encodedPolygon| {
        assert encodedPolygon'[q] == encodedPolygon[q] && chosen'[q] == chosen[q] && peaks'[q] == peaks[q];
      }
    }
  }

  class Encoder {
    var numLevels: nat
    var zoomFactor: real
    var verySmall: real
    var forceEndpoints: bool
    var zoomLevelBreaks: seq<real>

    /** The threshold table agrees with the settings. */
    ghost predicate Valid()
      reads this
    {
      zoomLevelBreaks == Breaks(numLevels, zoomFactor, verySmall)
    }

    function Table(): LevelTable
      reads this
    {
      LevelTable(numLevels, zoomLevelBreaks, verySmall, forceEndpoints)
    }

    /** __construct: stores the settings and fills the threshold table. */
    constructor(numLevels: nat, zoomFactor: real, verySmall: real, forceEndpoints: bool)
      ensures this.numLevels == numLevels && this.zoomFactor == zoomFactor
      ensures this.verySmall == verySmall && this.forceEndpoints == forceEndpoints
      ensures Valid()
      ensures numLevels >= 1 ==> Table().WellFormed()
    {
      var breaks: seq<real> := [];
      var i := 0;
      while i < numLevels
        invariant 0 <= i <= numLevels && |breaks| == i
        invariant forall j :: 0 <= j < i ==> breaks[j] == verySmall * Pow(zoomFactor, numLevels - j - 1)
      {
        breaks := breaks + [verySmall * Pow(zoomFactor, numLevels - i - 1)];
        i := i + 1;
      }
      ghost var table := Breaks(numLevels, zoomFactor, verySmall);
      assert |table| == numLevels;
      forall j | 0 <= j < numLevels
        ensures breaks[j] == table[j]
      {
      }
      assert breaks == table;
      assert Pow(zoomFactor, 0) == 1.0;
      this.numLevels, this.zoomFactor, this.verySmall, this.forceEndpoints := numLevels, zoomFactor, verySmall, forceEndpoints;
      zoomLevelBreaks := breaks;
    }

    /** compute_level. */
    method ComputeLevel(dd: real) returns (lev: nat)
      ensures lev == LevelOf(Table(), dd)
    {
      lev := 0;
      if dd > verySmall {
        while lev < |zoomLevelBreaks| && dd < zoomLevelBreaks[lev]
          invariant LevelFrom(zoomLevelBreaks, dd, lev) == LevelFrom(zoomLevelBreaks, dd, 0)
          decreases |zoomLevelBreaks| - lev
        {
          lev := lev + 1;
        }
      }
    }

    /** The code encode_levels writes for both endpoints. */
    method EndpointCode(absMaxDist: real) returns (code: nat)
      requires Table().WellFormed()
      ensures code == EndCode(Table(), absMaxDist)
    {
      if forceEndpoints {
        code := numLevels - 1;
      } else {
        var lev := ComputeLevel(absMaxDist);
        LevelOfLeast(Table(), absMaxDist);
        code := numLevels - lev - 1;
      }
    }

    /** The level code encode_levels writes for a recorded interior index. */
    method InteriorCode(dd: real) returns (code: string)
      requires Table().WellFormed()
      ensures code == Varint(LevelCode(Table(), dd))
    {
      var lev := ComputeLevel(dd);
      LevelOfLeast(Table(), dd);
      code := EncodeNumber(numLevels - lev - 1);
    }

    /** encode_levels: the endpoint code, the code of every recorded
        interior index in order, and the endpoint code again. */
    method EncodeLevels(ring: seq<Point>, dists: map<int, real>, absMaxDist: real) returns (encodedLevels: string)
      requires Table().WellFormed()
      ensures encodedLevels == VarintAll(LevelCodes(Table(), |ring|, dists, absMaxDist))
    {
      var endCode := EndpointCode(absMaxDist);
      encodedLevels := EncodeNumber(endCode);
      assert encodedLevels == VarintAll([endCode] + InteriorCodes(Table(), dists, 1));
      var i := 1;
      var numPoints := |ring| - 1;
      while i < numPoints
        invariant 1 <= i && (i <= numPoints || i == 1)
        invariant encodedLevels == VarintAll([endCode] + InteriorCodes(Table(), dists, i))
      {
        LevelsSnoc(Table(), dists, i, endCode);
        if i in dists {
          var code := InteriorCode(dists[i]);
          encodedLevels := encodedLevels + code;
        }
        i := i + 1;
      }
      ghost var interior := InteriorCodes(Table(), dists, if |ring| == 0 then 0 else |ring| - 1);
      assert InteriorCodes(Table(), dists, i) == interior;
      endCode := EndpointCode(absMaxDist);
      var tail := EncodeNumber(endCode);
      VarintAllSnoc([endCode] + interior, endCode);
      encodedLevels := encodedLevels + tail;
    }

    /** encode_polygon as evidently intended: ring r is simplified and
        encoded from its own vertices, starting from no recorded distances
        and a zero running maximum. */
    method EncodePolygon(polygon: seq<seq<Point>>, dist: (Point, Point, Point) -> real)
        returns (encodedPolygon: seq<EncodedRing>, ghost chosen: seq<map<int, real>>, ghost peaks: seq<real>,
                 ghost ranges: seq<seq<(int, int)>>)
      requires Table().WellFormed() && verySmall >= 0.0
      ensures |encodedPolygon| == |polygon| && |chosen| == |polygon| && |peaks| == |polygon| && |ranges| == |polygon|
      ensures forall r :: 0 <= r < |polygon| ==>
                Simplified(polygon[r], dist, verySmall, map[], 0.0, ranges[r], chosen[r], peaks[r])
      ensures forall r :: 0 <= r < |polygon| ==>
                encodedPolygon[r] == EncodedRing(PointsCode(Selected(polygon[r], chosen[r])),
                                                 VarintAll(LevelCodes(Table(), |polygon[r]|, chosen[r], peaks[r])))
    {
      encodedPolygon, chosen, peaks, ranges := [], [], [], [];
      var r := 0;
      while r < |polygon|
        invariant 0 <= r <= |polygon|
        invariant |encodedPolygon| == r && |chosen| == r && |peaks| == r
        invariant |ranges| == r
        invariant forall q :: 0 <= q < r ==>
                    Simplified(polygon[q], dist, verySmall, map[], 0.0, ranges[q], chosen[q], peaks[q])
        invariant forall q :: 0 <= q < r ==>
                    encodedPolygon[q] == EncodedRing(PointsCode(Selected(polygon[q], chosen[q])),
                                                     VarintAll(LevelCodes(Table(), |polygon[q]|, chosen[q], peaks[q])))
      {
        var encoded, dists, absMaxDist, examined := EncodeRing(polygon[r], dist);
        ghost var ranges' := ranges + [examined];
        ghost var chosen' := chosen + [dists];
        ghost var peaks' := peaks + [absMaxDist];
        assert forall q :: 0 <= q <= r ==>
                 Simplified(polygon[q], dist, verySmall, map[], 0.0, ranges'[q], chosen'[q], peaks'[q]) by {
          forall q | 0 <= q <= r
            ensures Simplified(polygon[q], dist, verySmall, map[], 0.0, ranges'[q], chosen'[q], peaks'[q])
          {
            if q < r {
              assert ranges'[q] == ranges[q] && chosen'[q] == chosen[q] && peaks'[q] == peaks[q];
            }
          }
        }
        ghost var encodedPolygon' := encodedPolygon + [encoded];
        assert forall q :: 0 <= q <= r ==>
                 encodedPolygon'[q] == EncodedRing(PointsCode(Selected(polygon[q], chosen'[q])),
                                                   VarintAll(LevelCodes(Table(), |polygon[q]|, chosen'[q], peaks'[q]))) by {
          forall q | 0 <= q < r
            ensures encodedPolygon'[q] == encodedPolygon[q] && chosen'[q] == chosen[q] && peaks'[q] == peaks[q]
          {
          }
        }
        encodedPolygon := encodedPolygon + [encoded];
        chosen, peaks, ranges := chosen', peaks', ranges';
        r := r + 1;
      }
    }

    /** One ring of encode_polygon as intended: simplified from no recorded
        distances and a zero maximum, then its points and levels encoded. */
    method EncodeRing(points: seq<Point>, dist: (Point, Point, Point) -> real)
        returns (encoded: EncodedRing, ghost dists: map<int, real>, ghost absMaxDist: real,
                 ghost examined: seq<(int, int)>)
      requires Table().WellFormed() && verySmall >= 0.0
      ensures Simplified(points, dist, verySmall, map[], 0.0, examined, dists, absMaxDist)
      ensures encoded == EncodedRing(PointsCode(Selected(points, dists)),
                                     VarintAll(LevelCodes(Table(), |points|, dists, absMaxDist)))
    {
      var ds, peak, seen := Simplify(points, dist, verySmall, map[], 0.0);
      var encodedPoints := CreateEncodings(points, ds);
      var encodedLevels := EncodeLevels(points, ds, peak);
      encoded := EncodedRing(encodedPoints, encodedLevels);
      dists, absMaxDist, examined := ds, peak, seen;
    }

    /** encode_polygon as written: every iteration reads ring 0, and the
        recorded distances and the running maximum carry over from one
        iteration to the next. */
    method EncodePolygonAsWritten(polygon: seq<seq<Point>>, dist: (Point, Point, Point) -> real)
        returns (encodedPolygon: seq<EncodedRing>, ghost chosen: seq<map<int, real>>, ghost peaks: seq<real>,
                 ghost ranges: seq<seq<(int, int)>>)
      requires Table().WellFormed() && verySmall >= 0.0
      ensures |encodedPolygon| == |polygon| && |chosen| == |polygon| && |peaks| == |polygon| && |ranges| == |polygon|
      ensures |polygon| > 0 ==> Carried(polygon[0], dist, verySmall, ranges, chosen, peaks)
      ensures |polygon| > 0 ==> EncodedFrom(Table(), polygon[0], encodedPolygon, chosen, peaks)
    {
      encodedPolygon, chosen, peaks, ranges := [], [], [], [];
      var dists: map<int, real> := map[];
      var absMaxDist := 0.0;
      var r := 0;
      while r < |polygon|
        invariant 0 <= r <= |polygon| && absMaxDist >= 0.0
        invariant |encodedPolygon| == r && |chosen| == r && |peaks| == r && |ranges| == r
        invariant r == 0 ==> dists == map[] && absMaxDist == 0.0
        invariant r > 0 ==> dists == chosen[r - 1] && absMaxDist == peaks[r - 1]
        invariant |polygon| > 0 ==> Carried(polygon[0], dist, verySmall, ranges, chosen, peaks)
        invariant |polygon| > 0 ==> EncodedFrom(Table(), polygon[0], encodedPolygon, chosen, peaks)
      {
        var points := polygon[0];
        ghost var examined;
        ghost var dists0, absMax0 := dists, absMaxDist;
        dists, absMaxDist, examined := Simplify(points, dist, verySmall, dists, absMaxDist);
        var encodedPoints := CreateEncodings(points, dists);
        var encodedLevels := EncodeLevels(points, dists, absMaxDist);
        CarriedSnoc(points, dist, verySmall, ranges, chosen, peaks, dists0, absMax0, examined, dists, absMaxDist);
        EncodedFromSnoc(Table(), points, encodedPolygon, chosen, peaks, dists, absMaxDist);
        encodedPolygon := encodedPolygon + [EncodedRing(encodedPoints, encodedLevels)];
        chosen, peaks, ranges := chosen + [dists], peaks + [absMaxDist], ranges + [examined];
        r := r + 1;
      }
    }
  }
}
