/**
 backend/geofence/geofence.go: distance to a route, and the events a run of GPS pings raises.

 Distances to segments are kept squared, over exact reals: comparing squares of non-negative
 numbers is comparing the numbers. The great-circle distance and the scale of a degree of
 longitude at a latitude are given functions.
 */
module Geofence {
  datatype Option<+T> = None | Some(value: T)

  datatype LatLng = LatLng(latitude: real, longitude: real)

  type Metres = r: real | r >= 0.0

  /** The two trigonometric facts the geometry rests on. */
  datatype Earth = Earth(
    haversineM: (LatLng, LatLng) -> Metres,
    eastPerDegree: real -> real,  // metres per degree of longitude at a latitude
    northPerDegree: real)

  datatype Vec = Vec(x: real, y: real)

  // ---- Geometry ----

  function ToLocalXY(e: Earth, p: LatLng, origin: LatLng): Vec {
    Vec((p.longitude - origin.longitude) * e.eastPerDegree(origin.latitude),
        (p.latitude - origin.latitude) * e.northPerDegree)
  }

  function Product(a: real, b: real): real {
    a * b
  }

  function Square(a: real): real {
    Product(a, a)
  }

  function Dot(p: Vec, v: Vec): real {
    p.x * v.x + p.y * v.y
  }

  function LengthSq(v: Vec): real {
    Square(v.x) + Square(v.y)
  }

  function Clamp(t: real): real {
    if t < 0.0 then 0.0 else if 1.0 < t then 1.0 else t
  }

  /** The squared distance from p to the point s of the way along v. */
  function GapSq(p: Vec, v: Vec, s: real): real {
    LengthSq(Vec(p.x - v.x * s, p.y - v.y * s))
  }

  /** Where on the segment the code looks. */
  function Projection(p: Vec, v: Vec): real {
    ProjectionFactor(Dot(p, v), LengthSq(v))
  }

  function ProjectionFactor(dot: real, lengthSq: real): real {
    if lengthSq == 0.0 then 0.0 else Clamp(dot / lengthSq)
  }

  function DistanceSqToSegment(e: Earth, point: LatLng, a: LatLng, b: LatLng): real {
    var p := ToLocalXY(e, point, a);
    var v := ToLocalXY(e, b, a);
    if LengthSq(v) == 0.0 then LengthSq(p) else GapSq(p, v, Projection(p, v))
  }

  /** A distance, by its square; Infinite for a polyline with no vertex. */
  datatype Distance = Infinite | Squared(sq: real)

  predicate Within(d: Distance, width: real) {
    d.Squared? && 0.0 <= width && d.sq <= Square(width)
  }

  function Nearer(d: Distance, sq: real): Distance {
    if d.Infinite? || sq < d.sq then Squared(sq) else d
  }

  /** The minimum over the segments ending at vertices 1..n. */
  function NearestSegment(e: Earth, point: LatLng, polyline: seq<LatLng>, n: nat): Distance
    requires n < |polyline|
  {
    if n == 0 then Infinite
    else Nearer(NearestSegment(e, point, polyline, n - 1), DistanceSqToSegment(e, point, polyline[n - 1], polyline[n]))
  }

  function PolylineDistance(e: Earth, point: LatLng, polyline: seq<LatLng>): Distance {
    if polyline == [] then Infinite
    else if |polyline| == 1 then var d := e.haversineM(point, polyline[0]); Squared(Square(d))
    else NearestSegment(e, point, polyline, |polyline| - 1)
  }

  method DistanceToPolyline(e: Earth, point: LatLng, polyline: seq<LatLng>) returns (min: Distance)
    ensures min == PolylineDistance(e, point, polyline)
  {
    if |polyline| == 0 {
      return Infinite;
    }
    if |polyline| == 1 {
      var d := e.haversineM(point, polyline[0]);
      return Squared(Square(d));
    }
    min := Infinite;
    for i := 1 to |polyline|
      invariant min == NearestSegment(e, point, polyline, i - 1)
    {
      var sq := DistanceSqToSegment(e, point, polyline[i - 1], polyline[i]);
      if min.Infinite? || sq < min.sq {
        min := Squared(sq);
      }
    }
  }

  datatype Corridor = Corridor(polyline: seq<LatLng>, widthM: real)

  predicate WithinCorridor(e: Earth, point: LatLng, c: Corridor) {
    c.polyline == [] || Within(PolylineDistance(e, point, c.polyline), c.widthM)
  }

  // ---- The nearest-point theorem ----

  lemma SquareExpands(a: real, b: real, s: real)
    ensures Square(a - b * s) == Square(a) - 2.0 * s * (a * b) + s * s * Square(b)
  {
    assert (b * s) * (b * s) == s * s * (b * b);
    assert a * (b * s) == s * (a * b);
  }

  /** The gap as a polynomial in how far along the segment it is taken. */
  lemma GapExpands(p: Vec, v: Vec, s: real, base: real, dot: real, q: real)
    requires base == LengthSq(p) && dot == Dot(p, v) && q == LengthSq(v)
    ensures GapSq(p, v, s) == base - 2.0 * s * dot + s * s * q
  {
    SquareExpands(p.x, v.x, s);
    SquareExpands(p.y, v.y, s);
    assert s * s * Square(v.x) + s * s * Square(v.y) == s * s * (Square(v.x) + Square(v.y));
    assert s * (p.x * v.x) + s * (p.y * v.y) == s * (p.x * v.x + p.y * v.y);
  }

  /** u is where the polynomial is least; clamping it finds the least on [0,1]. */
  lemma PolynomialOrder(s: real, t: real, u: real, q: real, dot: real)
    requires 0.0 <= s <= 1.0 && t == Clamp(u) && q > 0.0 && dot == u * q
    ensures t * t * q - 2.0 * t * dot <= s * s * q - 2.0 * s * dot
  {
    var a, b := s - t, s + t - 2.0 * u;
    assert a * b >= 0.0 by {
      if u < 0.0 {
        assert a >= 0.0 && b >= 0.0;
      } else if 1.0 < u {
        assert a <= 0.0 && b <= 0.0;
      } else {
        assert a == b;
      }
    }
    assert a * b == s * s - t * t - 2.0 * u * s + 2.0 * u * t;
    assert (a * b) * q >= 0.0;
    assert (a * b) * q == s * s * q - t * t * q - 2.0 * s * dot + 2.0 * t * dot;
  }

  lemma GapOrder(p: Vec, v: Vec, s: real, t: real, u: real, base: real, dot: real, q: real)
    requires base == LengthSq(p) && dot == Dot(p, v) && q == LengthSq(v)
    requires 0.0 <= s <= 1.0 && t == Clamp(u) && q > 0.0 && dot == u * q
    ensures GapSq(p, v, t) <= GapSq(p, v, s)
  {
    var atS, atT := GapSq(p, v, s), GapSq(p, v, t);
    assert atS == base - 2.0 * s * dot + s * s * q by { GapExpands(p, v, s, base, dot, q); }
    assert atT == base - 2.0 * t * dot + t * t * q by { GapExpands(p, v, t, base, dot, q); }
    PolynomialOrder(s, t, u, q, dot);
  }

  lemma SameSignProduct(a: real, b: real)
    ensures a > 0.0 && b > 0.0 ==> Product(a, b) > 0.0
    ensures a < 0.0 && b < 0.0 ==> Product(a, b) > 0.0
    ensures a == 0.0 ==> Product(a, b) == 0.0
  {
    if a < 0.0 && b < 0.0 {
      assert a * b == (-a) * (-b);
    }
  }

  lemma SquareSign(a: real)
    ensures Square(a) >= 0.0
    ensures a != 0.0 ==> Square(a) > 0.0
  {
    SameSignProduct(a, a);
  }

  lemma ZeroLength(v: Vec)
    ensures LengthSq(v) == 0.0 <==> v == Vec(0.0, 0.0)
    ensures LengthSq(v) != 0.0 ==> LengthSq(v) > 0.0
  {
    SquareSign(v.x);
    SquareSign(v.y);
    assert Square(0.0) == 0.0;
  }

  lemma FactorIsClamped(dot: real, lengthSq: real) returns (u: real)
    requires lengthSq != 0.0
    ensures dot == u * lengthSq && ProjectionFactor(dot, lengthSq) == Clamp(u)
  {
    u := dot / lengthSq;
  }

  lemma ClampedIsNearest(p: Vec, v: Vec, s: real, u: real)
    requires LengthSq(v) > 0.0 && Dot(p, v) == u * LengthSq(v) && 0.0 <= s <= 1.0
    ensures GapSq(p, v, Clamp(u)) <= GapSq(p, v, s)
  {
    GapOrder(p, v, s, Clamp(u), u, LengthSq(p), Dot(p, v), LengthSq(v));
  }

  /** The clamped projection is on the segment and no farther than any point of it. */
  lemma ProjectionIsNearest(p: Vec, v: Vec, s: real)
    requires LengthSq(v) != 0.0 && 0.0 <= s <= 1.0
    ensures 0.0 <= Projection(p, v) <= 1.0
    ensures GapSq(p, v, Projection(p, v)) <= GapSq(p, v, s)
  {
    ZeroLength(v);
    var u := FactorIsClamped(Dot(p, v), LengthSq(v));
    assert Projection(p, v) == Clamp(u);
    ClampedIsNearest(p, v, s, u);
  }

  lemma GapToNowhere(p: Vec, s: real)
    ensures GapSq(p, Vec(0.0, 0.0), s) == LengthSq(p)
  {
    assert p.x - 0.0 * s == p.x && p.y - 0.0 * s == p.y;
  }

  /** When the vertices coincide every place is the same place. */
  lemma DegenerateSegment(p: Vec, v: Vec, s: real)
    requires LengthSq(v) == 0.0
    ensures GapSq(p, v, s) == LengthSq(p)
  {
    ZeroLength(v);
    GapToNowhere(p, s);
  }

  /** The place s of the way from a to b on the map. */
  function Place(a: LatLng, b: LatLng, s: real): LatLng {
    LatLng(a.latitude + (b.latitude - a.latitude) * s, a.longitude + (b.longitude - a.longitude) * s)
  }

  /** The squared distance from the point to that place, in metres on a plane that touches at a. */
  function PlaceSq(e: Earth, point: LatLng, a: LatLng, b: LatLng, s: real): real {
    var q := Place(a, b, s);
    Square((point.longitude - q.longitude) * e.eastPerDegree(a.latitude))
      + Square((point.latitude - q.latitude) * e.northPerDegree)
  }

  lemma Scaled(x: real, d: real, scale: real, s: real)
    ensures x * scale - d * scale * s == (x - d * s) * scale
  {
    assert d * scale * s == d * s * scale;
  }

  /** What the code computes from local coordinates is the distance to a place on the map. */
  lemma PlaceIsGap(e: Earth, point: LatLng, a: LatLng, b: LatLng, s: real)
    ensures PlaceSq(e, point, a, b, s) == GapSq(ToLocalXY(e, point, a), ToLocalXY(e, b, a), s)
  {
    var p, v := ToLocalXY(e, point, a), ToLocalXY(e, b, a);
    var east, north := e.eastPerDegree(a.latitude), e.northPerDegree;
    var dLon, dLat := b.longitude - a.longitude, b.latitude - a.latitude;
    Scaled(point.longitude - a.longitude, dLon, east, s);
    Scaled(point.latitude - a.latitude, dLat, north, s);
    assert p.x - v.x * s == (point.longitude - (a.longitude + dLon * s)) * east;
    assert p.y - v.y * s == (point.latitude - (a.latitude + dLat * s)) * north;
  }

  /** The same, on segment i of a polyline. */
  function SpotSq(e: Earth, point: LatLng, polyline: seq<LatLng>, i: int, s: real): real
    requires 1 <= i < |polyline|
  {
    PlaceSq(e, point, polyline[i - 1], polyline[i], s)
  }

  /** DistanceToSegmentM is attained on the segment, and nothing on the segment is nearer. */
  lemma SegmentDistanceIsLeast(e: Earth, point: LatLng, a: LatLng, b: LatLng, s: real)
    requires 0.0 <= s <= 1.0
    ensures DistanceSqToSegment(e, point, a, b) <= PlaceSq(e, point, a, b, s)
  {
    var p, v := ToLocalXY(e, point, a), ToLocalXY(e, b, a);
    PlaceIsGap(e, point, a, b, s);
    if LengthSq(v) == 0.0 {
      DegenerateSegment(p, v, s);
    } else {
      ProjectionIsNearest(p, v, s);
    }
  }

  lemma SegmentDistanceIsAttained(e: Earth, point: LatLng, a: LatLng, b: LatLng) returns (s: real)
    ensures 0.0 <= s <= 1.0 && PlaceSq(e, point, a, b, s) == DistanceSqToSegment(e, point, a, b)
  {
    var p, v := ToLocalXY(e, point, a), ToLocalXY(e, b, a);
    s := Projection(p, v);
    PlaceIsGap(e, point, a, b, s);
    if LengthSq(v) == 0.0 {
      DegenerateSegment(p, v, s);
    } else {
      ProjectionIsNearest(p, v, 0.0);
    }
  }

  lemma {:induction false} NearestSegmentIsLeast(e: Earth, point: LatLng, polyline: seq<LatLng>, n: nat)
    requires 0 < n < |polyline|
    ensures var d := NearestSegment(e, point, polyline, n);
      && d.Squared?
      && (forall i | 1 <= i <= n :: d.sq <= DistanceSqToSegment(e, point, polyline[i - 1], polyline[i]))
      && (exists i | 1 <= i <= n :: d.sq == DistanceSqToSegment(e, point, polyline[i - 1], polyline[i]))
  {
    if n > 1 {
      NearestSegmentIsLeast(e, point, polyline, n - 1);
    }
  }

  /** The distance to a polyline is attained at some place of some segment, and no place is nearer. */
  lemma PolylineDistanceIsLeast(e: Earth, point: LatLng, poly: seq<LatLng>) returns (k: int, t: real)
    requires |poly| >= 2
    ensures PolylineDistance(e, point, poly).Squared?
    ensures 1 <= k < |poly| && 0.0 <= t <= 1.0 && SpotSq(e, point, poly, k, t) == PolylineDistance(e, point, poly).sq
    ensures forall i, s: real | 1 <= i < |poly| && 0.0 <= s <= 1.0 ::
      PolylineDistance(e, point, poly).sq <= SpotSq(e, point, poly, i, s)
  {
    NearestSegmentIsLeast(e, point, poly, |poly| - 1);
    var d := PolylineDistance(e, point, poly);
    k :| 1 <= k < |poly| && d.sq == DistanceSqToSegment(e, point, poly[k - 1], poly[k]);
    t := SegmentDistanceIsAttained(e, point, poly[k - 1], poly[k]);
    forall i, s: real | 1 <= i < |poly| && 0.0 <= s <= 1.0
      ensures d.sq <= SpotSq(e, point, poly, i, s)
    {
      SegmentDistanceIsLeast(e, point, poly[i - 1], poly[i], s);
    }
  }

  /**
   For a corridor with a segment, WithinCorridor says exactly that some place on some segment
   is within the width of the point.
   */
  lemma WithinCorridorMeaning(e: Earth, point: LatLng, c: Corridor)
    requires |c.polyline| >= 2
    ensures WithinCorridor(e, point, c) <==>
      && 0.0 <= c.widthM
      && exists i, s: real | 1 <= i < |c.polyline| && 0.0 <= s <= 1.0 ::
           SpotSq(e, point, c.polyline, i, s) <= Square(c.widthM)
  {
    var i, s := PolylineDistanceIsLeast(e, point, c.polyline);
  }

  /** Without a vertex everything is within; with one, what the great circle puts within the width. */
  lemma ShortCorridorMeaning(e: Earth, point: LatLng, c: Corridor)
    ensures c.polyline == [] ==> WithinCorridor(e, point, c)
    ensures |c.polyline| == 1 ==> (WithinCorridor(e, point, c) <==> e.haversineM(point, c.polyline[0]) <= c.widthM)
  {
    if |c.polyline| == 1 {
      SquaresCompare(e.haversineM(point, c.polyline[0]), c.widthM);
    }
  }

  lemma SquareGrows(a: real, b: real)
    requires 0.0 <= a < b
    ensures Square(a) < Square(b)
  {
    assert Product(b, b) - Product(a, a) == Product(b - a, b + a);
  }

  lemma SquaresCompare(a: real, b: real)
    requires a >= 0.0
    ensures 0.0 <= b && Square(a) <= Square(b) <==> a <= b
  {
    if 0.0 <= b < a {
      SquareGrows(b, a);
    } else if a < b {
      SquareGrows(a, b);
    }
  }

  // ---- Events ----

  datatype FenceKind = PICKUP | DELIVERY | STOP
  datatype Circle = Circle(id: string, kind: FenceKind, center: LatLng, radiusM: real)
  datatype EventType = ENTER | EXIT | DEVIATION | RETURN

  /** fenceID is "" for corridor events. */
  datatype Event = Event(kind: EventType, fenceID: string, fenceKind: FenceKind)

  predicate PointInCircle(e: Earth, point: LatLng, fence: Circle) {
    e.haversineM(point, fence.center) <= fence.radiusM
  }

  function CircleEvent(e: Earth, prev: Option<LatLng>, curr: LatLng, fence: Circle): seq<Event> {
    var currInside := PointInCircle(e, curr, fence);
    var prevInside := prev.Some? && PointInCircle(e, prev.value, fence);
    if currInside && !prevInside then [Event(ENTER, fence.id, fence.kind)]
    else if !currInside && prevInside then [Event(EXIT, fence.id, fence.kind)]
    else []
  }

  function CircleEvents(e: Earth, prev: Option<LatLng>, curr: LatLng, circles: seq<Circle>): seq<Event> {
    if circles == [] then []
    else
      var n := |circles| - 1;
      CircleEvents(e, prev, curr, circles[..n]) + CircleEvent(e, prev, curr, circles[n])
  }

  /** A corridor without a segment is not evaluated. */
  predicate Evaluated(corridor: Option<Corridor>) {
    corridor.Some? && |corridor.value.polyline| >= 2
  }

  /** With no previous ping the truck counts as having been on route. */
  function CorridorEvent(e: Earth, prev: Option<LatLng>, curr: LatLng, corridor: Option<Corridor>): seq<Event> {
    if !Evaluated(corridor) then []
    else
      var currInside := WithinCorridor(e, curr, corridor.value);
      var prevInside := prev.None? || WithinCorridor(e, prev.value, corridor.value);
      if !currInside && prevInside then [Event(DEVIATION, "", STOP)]
      else if currInside && !prevInside then [Event(RETURN, "", STOP)]
      else []
  }

  function Events(e: Earth, prev: Option<LatLng>, curr: LatLng, circles: seq<Circle>,
      corridor: Option<Corridor>): seq<Event> {
    CircleEvents(e, prev, curr, circles) + CorridorEvent(e, prev, curr, corridor)
  }

  method EvaluateGeofences(e: Earth, prev: Option<LatLng>, curr: LatLng, circles: seq<Circle>,
      corridor: Option<Corridor>)
    returns (events: seq<Event>)
    ensures events == Events(e, prev, curr, circles, corridor)
  {
    events := [];
    for i := 0 to |circles|
      invariant events == CircleEvents(e, prev, curr, circles[..i])
    {
      var fence := circles[i];
      var currInside := PointInCircle(e, curr, fence);
      var prevInside := false;
      if prev.Some? {
        prevInside := PointInCircle(e, prev.value, fence);
      }
      if currInside && !prevInside {
        events := events + [Event(ENTER, fence.id, fence.kind)];
      } else if !currInside && prevInside {
        events := events + [Event(EXIT, fence.id, fence.kind)];
      }
      assert circles[..i + 1][..i] == circles[..i];
    }
    assert circles[..|circles|] == circles;
    if corridor.Some? && |corridor.value.polyline| >= 2 {
      var currInside := WithinCorridor(e, curr, corridor.value);
      var prevInside := true;
      if prev.Some? {
        prevInside := WithinCorridor(e, prev.value, corridor.value);
      }
      if !currInside && prevInside {
        events := events + [Event(DEVIATION, "", STOP)];
      } else if currInside && !prevInside {
        events := events + [Event(RETURN, "", STOP)];
      }
    }
  }

  function KindName(kind: FenceKind): string {
    match kind
    case PICKUP => "PICKUP"
    case DELIVERY => "DELIVERY"
    case STOP => "STOP"
  }

  function EventTypeCode(ev: Event): string {
    match ev.kind
    case ENTER => "GEOFENCE_ARRIVED_" + KindName(ev.fenceKind)
    case EXIT => "GEOFENCE_DEPARTED_" + KindName(ev.fenceKind)
    case DEVIATION => "GEOFENCE_ROUTE_DEVIATION"
    case RETURN => "GEOFENCE_ROUTE_RETURN"
  }

  // ---- Whole runs ----

  function Previous(pings: seq<LatLng>): Option<LatLng>
    requires pings != []
  {
    if |pings| == 1 then None else Some(pings[|pings| - 2])
  }

  /** All events of a run of pings, each ping evaluated against the one before it. */
  function RunEvents(e: Earth, circles: seq<Circle>, corridor: Option<Corridor>, pings: seq<LatLng>): seq<Event> {
    if pings == [] then []
    else
      var n := |pings| - 1;
      RunEvents(e, circles, corridor, pings[..n]) + Events(e, Previous(pings), pings[n], circles, corridor)
  }

  /** The ENTER and EXIT events of one fence, in order. */
  function CircleTrail(events: seq<Event>, id: string): seq<EventType> {
    if events == [] then []
    else
      var n := |events| - 1;
      CircleTrail(events[..n], id) + OfFence(events[n], id)
  }

  function OfFence(ev: Event, id: string): seq<EventType> {
    if ev.kind in {ENTER, EXIT} && ev.fenceID == id then [ev.kind] else []
  }

  /** The DEVIATION and RETURN events, in order. */
  function CorridorTrail(events: seq<Event>): seq<EventType> {
    if events == [] then []
    else
      var n := |events| - 1;
      CorridorTrail(events[..n]) + (if events[n].kind in {DEVIATION, RETURN} then [events[n].kind] else [])
  }

  /** x, y, x, y, ... */
  predicate Alternates(trail: seq<EventType>, x: EventType, y: EventType) {
    forall i | 0 <= i < |trail| :: trail[i] == if i % 2 == 0 then x else y
  }

  lemma {:induction false} AlternatingCounts(trail: seq<EventType>, x: EventType, y: EventType)
    requires x != y && Alternates(trail, x, y)
    ensures multiset(trail)[x] == multiset(trail)[y] + |trail| % 2
  {
    if trail != [] {
      var n := |trail| - 1;
      AlternatingCounts(trail[..n], x, y);
      CountOfAppend(trail[..n], trail[n], x);
      CountOfAppend(trail[..n], trail[n], y);
      assert trail == trail[..n] + [trail[n]];
    }
  }

  lemma CountOfAppend(trail: seq<EventType>, last: EventType, x: EventType)
    ensures multiset(trail + [last])[x] == multiset(trail)[x] + (if last == x then 1 else 0)
  {
  }

  predicate DistinctIDs(circles: seq<Circle>) {
    forall i, j | 0 <= i < j < |circles| :: circles[i].id != circles[j].id
  }

  lemma {:induction false} CircleTrailConcat(a: seq<Event>, b: seq<Event>, id: string)
    ensures CircleTrail(a + b, id) == CircleTrail(a, id) + CircleTrail(b, id)
  {
    if b == [] {
      assert a + [] == a;
    } else {
      var n := |b| - 1;
      CircleTrailConcat(a, b[..n], id);
      assert (a + b)[..|a| + n] == a + b[..n] && (a + b)[|a| + n] == b[n];
      assert CircleTrail(a + b, id) == CircleTrail(a + b[..n], id) + OfFence(b[n], id);
    }
  }

  lemma {:induction false} CorridorTrailConcat(a: seq<Event>, b: seq<Event>)
    ensures CorridorTrail(a + b) == CorridorTrail(a) + CorridorTrail(b)
  {
    if b == [] {
      assert a + [] == a;
    } else {
      var n := |b| - 1;
      CorridorTrailConcat(a, b[..n]);
      assert (a + b)[..|a| + n] == a + b[..n];
    }
  }

  /** What one fence, or the corridor, says about one ping. */
  function Change(curr: bool, prev: bool, up: EventType, down: EventType): seq<EventType> {
    if curr && !prev then [up] else if !curr && prev then [down] else []
  }

  lemma SingleTrail(ev: Event, id: string)
    ensures CircleTrail([ev], id) == if ev.kind in {ENTER, EXIT} && ev.fenceID == id then [ev.kind] else []
    ensures CorridorTrail([ev]) == if ev.kind in {DEVIATION, RETURN} then [ev.kind] else []
  {
    assert [ev][..0] == [];
  }

  function WasInside(e: Earth, prev: Option<LatLng>, fence: Circle): bool {
    prev.Some? && PointInCircle(e, prev.value, fence)
  }

  lemma CircleEventTrail(e: Earth, prev: Option<LatLng>, curr: LatLng, fence: Circle, id: string)
    ensures CircleTrail(CircleEvent(e, prev, curr, fence), id)
         == if fence.id == id then Change(PointInCircle(e, curr, fence), WasInside(e, prev, fence), ENTER, EXIT) else []
    ensures CorridorTrail(CircleEvent(e, prev, curr, fence)) == []
  {
    SingleTrail(Event(ENTER, fence.id, fence.kind), id);
    SingleTrail(Event(EXIT, fence.id, fence.kind), id);
  }

  lemma LastCircleTrail(e: Earth, prev: Option<LatLng>, curr: LatLng, circles: seq<Circle>, id: string)
    requires circles != []
    ensures var last := circles[|circles| - 1];
      CircleTrail(CircleEvents(e, prev, curr, circles), id)
        == CircleTrail(CircleEvents(e, prev, curr, circles[..|circles| - 1]), id)
         + if last.id == id then Change(PointInCircle(e, curr, last), WasInside(e, prev, last), ENTER, EXIT) else []
  {
    var n := |circles| - 1;
    CircleEventTrail(e, prev, curr, circles[n], id);
    CircleTrailConcat(CircleEvents(e, prev, curr, circles[..n]), CircleEvent(e, prev, curr, circles[n]), id);
  }

  /** Among the circle events of one ping, a fence finds only its own, and the corridor finds none. */
  lemma {:induction false} OtherCirclesTrail(e: Earth, prev: Option<LatLng>, curr: LatLng, circles: seq<Circle>,
      id: string)
    requires forall k | 0 <= k < |circles| :: circles[k].id != id
    ensures CircleTrail(CircleEvents(e, prev, curr, circles), id) == []
  {
    if circles != [] {
      OtherCirclesTrail(e, prev, curr, circles[..|circles| - 1], id);
      LastCircleTrail(e, prev, curr, circles, id);
    }
  }

  lemma {:induction false} CirclesCorridorTrail(e: Earth, prev: Option<LatLng>, curr: LatLng, circles: seq<Circle>)
    ensures CorridorTrail(CircleEvents(e, prev, curr, circles)) == []
  {
    if circles == [] {
    } else {
      var n := |circles| - 1;
      CirclesCorridorTrail(e, prev, curr, circles[..n]);
      CircleEventTrail(e, prev, curr, circles[n], "");
      CorridorTrailConcat(CircleEvents(e, prev, curr, circles[..n]), CircleEvent(e, prev, curr, circles[n]));
    }
  }

  /** No other circle has this one's name. */
  predicate OnlyNamed(circles: seq<Circle>, k: nat)
    requires k < |circles|
  {
    forall j | 0 <= j < |circles| && j != k :: circles[j].id != circles[k].id
  }

  lemma LastOwnTrail(e: Earth, prev: Option<LatLng>, curr: LatLng, circles: seq<Circle>, last: Circle)
    requires OnlyNamed(circles + [last], |circles|)
    ensures CircleTrail(CircleEvents(e, prev, curr, circles + [last]), last.id)
         == Change(PointInCircle(e, curr, last), WasInside(e, prev, last), ENTER, EXIT)
  {
    assert (circles + [last])[..|circles|] == circles;
    forall j | 0 <= j < |circles|
      ensures circles[j].id != last.id
    {
      assert (circles + [last])[j] == circles[j];
    }
    LastCircleTrail(e, prev, curr, circles + [last], last.id);
    OtherCirclesTrail(e, prev, curr, circles, last.id);
  }

  lemma {:induction false} OwnCircleTrail(e: Earth, prev: Option<LatLng>, curr: LatLng, circles: seq<Circle>, k: nat)
    requires k < |circles| && OnlyNamed(circles, k)
    ensures CircleTrail(CircleEvents(e, prev, curr, circles), circles[k].id)
         == Change(PointInCircle(e, curr, circles[k]), WasInside(e, prev, circles[k]), ENTER, EXIT)
  {
    var n := |circles| - 1;
    assert circles == circles[..n] + [circles[n]];
    if k == n {
      LastOwnTrail(e, prev, curr, circles[..n], circles[n]);
    } else {
      LastCircleTrail(e, prev, curr, circles, circles[k].id);
      OwnCircleTrail(e, prev, curr, circles[..n], k);
    }
  }

  function WasOff(e: Earth, prev: Option<LatLng>, corridor: Corridor): bool {
    prev.Some? && !WithinCorridor(e, prev.value, corridor)
  }

  lemma CorridorEventTrail(e: Earth, prev: Option<LatLng>, curr: LatLng, corridor: Option<Corridor>, id: string)
    ensures CircleTrail(CorridorEvent(e, prev, curr, corridor), id) == []
    ensures CorridorTrail(CorridorEvent(e, prev, curr, corridor))
         == if Evaluated(corridor)
            then Change(!WithinCorridor(e, curr, corridor.value), WasOff(e, prev, corridor.value), DEVIATION, RETURN)
            else []
  {
    SingleTrail(Event(DEVIATION, "", STOP), id);
    SingleTrail(Event(RETURN, "", STOP), id);
  }

  lemma PingCircleTrail(e: Earth, prev: Option<LatLng>, curr: LatLng, circles: seq<Circle>,
      corridor: Option<Corridor>, k: nat)
    requires k < |circles| && DistinctIDs(circles)
    ensures CircleTrail(Events(e, prev, curr, circles, corridor), circles[k].id)
         == Change(PointInCircle(e, curr, circles[k]), WasInside(e, prev, circles[k]), ENTER, EXIT)
  {
    var a, b := CircleEvents(e, prev, curr, circles), CorridorEvent(e, prev, curr, corridor);
    OwnCircleTrail(e, prev, curr, circles, k);
    CorridorEventTrail(e, prev, curr, corridor, circles[k].id);
    CircleTrailConcat(a, b, circles[k].id);
  }

  lemma PingCorridorTrail(e: Earth, prev: Option<LatLng>, curr: LatLng, circles: seq<Circle>,
      corridor: Option<Corridor>)
    ensures CorridorTrail(Events(e, prev, curr, circles, corridor))
         == if Evaluated(corridor)
            then Change(!WithinCorridor(e, curr, corridor.value), WasOff(e, prev, corridor.value), DEVIATION, RETURN)
            else []
  {
    CirclesCorridorTrail(e, prev, curr, circles);
    CorridorEventTrail(e, prev, curr, corridor, "");
    CorridorTrailConcat(CircleEvents(e, prev, curr, circles), CorridorEvent(e, prev, curr, corridor));
  }

  /** A trail that is alternating and odd exactly when the state is up stays so when a change is added. */
  lemma ChangeKeepsAlternation(trail: seq<EventType>, curr: bool, prev: bool, up: EventType, down: EventType)
    requires Alternates(trail, up, down) && (|trail| % 2 == 1 <==> prev)
    ensures var longer := trail + Change(curr, prev, up, down);
      Alternates(longer, up, down) && (|longer| % 2 == 1 <==> curr)
  {
  }

  lemma CircleTrailStep(e: Earth, circles: seq<Circle>, corridor: Option<Corridor>, pings: seq<LatLng>, k: nat)
    requires k < |circles| && DistinctIDs(circles) && pings != []
    ensures CircleTrail(RunEvents(e, circles, corridor, pings), circles[k].id)
         == CircleTrail(RunEvents(e, circles, corridor, pings[..|pings| - 1]), circles[k].id)
          + Change(PointInCircle(e, pings[|pings| - 1], circles[k]), WasInside(e, Previous(pings), circles[k]),
            ENTER, EXIT)
  {
    var n := |pings| - 1;
    var before, now :=
      RunEvents(e, circles, corridor, pings[..n]), Events(e, Previous(pings), pings[n], circles, corridor);
    CircleTrailConcat(before, now, circles[k].id);
    PingCircleTrail(e, Previous(pings), pings[n], circles, corridor, k);
  }

  lemma {:induction false} CircleTrailInvariant(e: Earth, circles: seq<Circle>, corridor: Option<Corridor>,
      pings: seq<LatLng>, k: nat)
    requires k < |circles| && DistinctIDs(circles)
    ensures var trail := CircleTrail(RunEvents(e, circles, corridor, pings), circles[k].id);
      && Alternates(trail, ENTER, EXIT)
      && (|trail| % 2 == 1 <==> pings != [] && PointInCircle(e, pings[|pings| - 1], circles[k]))
  {
    if pings == [] {
    } else {
      var n := |pings| - 1;
      CircleTrailInvariant(e, circles, corridor, pings[..n], k);
      CircleTrailStep(e, circles, corridor, pings, k);
      ChangeKeepsAlternation(CircleTrail(RunEvents(e, circles, corridor, pings[..n]), circles[k].id),
                             PointInCircle(e, pings[n], circles[k]), WasInside(e, Previous(pings), circles[k]),
                               ENTER, EXIT);
    }
  }

  /**
   Alternation over whole runs, for a fence: ENTER and EXIT strictly alternate starting with
   ENTER, and there is one more ENTER than EXIT exactly when the last ping is inside.
   */
  lemma CircleEventsAlternate(e: Earth, circles: seq<Circle>, corridor: Option<Corridor>, pings: seq<LatLng>, k: nat)
    requires k < |circles| && DistinctIDs(circles)
    ensures var trail := CircleTrail(RunEvents(e, circles, corridor, pings), circles[k].id);
      && Alternates(trail, ENTER, EXIT)
      && multiset(trail)[ENTER] == multiset(trail)[EXIT]
           + (if pings != [] && e.haversineM(pings[|pings| - 1], circles[k].center) <= circles[k].radiusM then 1 else 0)
  {
    CircleTrailInvariant(e, circles, corridor, pings, k);
    AlternatingCounts(CircleTrail(RunEvents(e, circles, corridor, pings), circles[k].id), ENTER, EXIT);
  }

  lemma CorridorTrailStep(e: Earth, circles: seq<Circle>, corridor: Option<Corridor>, pings: seq<LatLng>)
    requires pings != []
    ensures CorridorTrail(RunEvents(e, circles, corridor, pings))
         == CorridorTrail(RunEvents(e, circles, corridor, pings[..|pings| - 1]))
          + if Evaluated(corridor)
            then Change(!WithinCorridor(e, pings[|pings| - 1], corridor.value),
                        WasOff(e, Previous(pings), corridor.value), DEVIATION, RETURN)
            else []
  {
    var n := |pings| - 1;
    var before, now :=
      RunEvents(e, circles, corridor, pings[..n]), Events(e, Previous(pings), pings[n], circles, corridor);
    CorridorTrailConcat(before, now);
    PingCorridorTrail(e, Previous(pings), pings[n], circles, corridor);
  }

  lemma {:induction false} CorridorTrailInvariant(e: Earth, circles: seq<Circle>, corridor: Option<Corridor>,
      pings: seq<LatLng>)
    ensures var trail := CorridorTrail(RunEvents(e, circles, corridor, pings));
      if !Evaluated(corridor) then trail == []
      else
        && Alternates(trail, DEVIATION, RETURN)
        && (|trail| % 2 == 1 <==> pings != [] && !WithinCorridor(e, pings[|pings| - 1], corridor.value))
  {
    if pings == [] {
    } else {
      var n := |pings| - 1;
      CorridorTrailInvariant(e, circles, corridor, pings[..n]);
      CorridorTrailStep(e, circles, corridor, pings);
      if Evaluated(corridor) {
        ChangeKeepsAlternation(CorridorTrail(RunEvents(e, circles, corridor, pings[..n])),
                               !WithinCorridor(e, pings[n], corridor.value),
                               WasOff(e, Previous(pings), corridor.value), DEVIATION, RETURN);
      }
    }
  }

  /**
   The same for the corridor: DEVIATION and RETURN alternate starting with DEVIATION, one ahead
   exactly when the last ping is off the corridor; no such event without a corridor to evaluate.
   */
  lemma CorridorEventsAlternate(e: Earth, circles: seq<Circle>, corridor: Option<Corridor>, pings: seq<LatLng>)
    ensures var trail := CorridorTrail(RunEvents(e, circles, corridor, pings));
      if corridor.None? || |corridor.value.polyline| < 2 then trail == []
      else
        && Alternates(trail, DEVIATION, RETURN)
        && multiset(trail)[DEVIATION] == multiset(trail)[RETURN]
             + (if pings != [] && !WithinCorridor(e, pings[|pings| - 1], corridor.value) then 1 else 0)
  {
    CorridorTrailInvariant(e, circles, corridor, pings);
    if Evaluated(corridor) {
      AlternatingCounts(CorridorTrail(RunEvents(e, circles, corridor, pings)), DEVIATION, RETURN);
    }
  }
}
