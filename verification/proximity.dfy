/** Distance to a zone's boundary, and the two places that decide "near" from it.

Distances are kept squared: the source takes a square root and compares it with a
positive constant, and both orders agree.  The metres in a degree of longitude depend on
the query's latitude through a cosine that the source keeps at 0.01 or more, so here that
scale is any positive number.
 */
module Proximity {
  import opened Geometry
  import Rings

  /** Metres in a degree of latitude. */
  const M_PER_DEG_LAT: real := 111320.0

  /** Proximity is flagged below this distance, in the sink and in the simulation. */
  const WARNING_DISTANCE_M: real := 500.0

  /** What a position inside a zone scores. */
  const INSIDE_RISK: real := 0.95

  const BREACH_RISK_THRESHOLD: real := 0.7

  /** The distance at which the score is the breach threshold. */
  const BREACH_DISTANCE_M: real := 150.0

  /** A squared distance, or the infinity the source starts from. */
  datatype Distance = Infinite | Squared(sq: real)

  /** A position in metres about the query point. */
  datatype Metres = Metres(x: real, y: real)

  function ToXY(p: Point, v: Point, mPerDegLon: real): Metres {
    Metres((v.lon - p.lon) * mPerDegLon, (v.lat - p.lat) * M_PER_DEG_LAT)
  }

  /** Squared distance from the origin to the point a fraction `t` along the segment. */
  function Along(a: Metres, b: Metres, t: real): real {
    var x, y := a.x + t * (b.x - a.x), a.y + t * (b.y - a.y);
    x * x + y * y
  }

  function LengthSq(a: Metres, b: Metres): real {
    (b.x - a.x) * (b.x - a.x) + (b.y - a.y) * (b.y - a.y)
  }

  /** How far the segment reaches back towards the origin, times its length. */
  function Reach(a: Metres, b: Metres): real {
    -(a.x * (b.x - a.x) + a.y * (b.y - a.y))
  }

  function Clamp(t: real): real {
    if t < 0.0 then 0.0 else if t > 1.0 then 1.0 else t
  }

  /** The fraction the source measures to: the projection of the origin, clamped. */
  function Foot(lengthSq: real, reach: real): (t: real)
    ensures 0.0 <= t <= 1.0
  {
    if lengthSq == 0.0 then 0.0 else Clamp(reach / lengthSq)
  }

  /** A quadratic in `t`, which is what the squared distance along a segment is. */
  function Quadratic(c: real, u: real, l: real, t: real): real {
    c - 2.0 * (t * u) + t * t * l
  }

  lemma AlongIsQuadratic(a: Metres, b: Metres, t: real)
    ensures Along(a, b, t) == Quadratic(a.x * a.x + a.y * a.y, Reach(a, b), LengthSq(a, b), t)
  {
    var dx, dy := b.x - a.x, b.y - a.y;
    assert (a.x + t * dx) * (a.x + t * dx) == a.x * a.x + 2.0 * (t * (a.x * dx)) + t * t * (dx * dx);
    assert (a.y + t * dy) * (a.y + t * dy) == a.y * a.y + 2.0 * (t * (a.y * dy)) + t * t * (dy * dy);
  }

  lemma ProductNonNegative(x: real, y: real)
    requires (x >= 0.0 && y >= 0.0) || (x <= 0.0 && y <= 0.0)
    ensures x * y >= 0.0
  {
  }

  /** On the way from the clamped vertex `s` of the quadratic to `t`, it never falls. */
  lemma QuadraticLeast(c: real, u: real, l: real, q: real, t: real)
    requires l > 0.0 && q * l == u && 0.0 <= t <= 1.0
    ensures Quadratic(c, u, l, Clamp(q)) <= Quadratic(c, u, l, t)
  {
    var s := Clamp(q);
    var slope := t + s - 2.0 * q;
    assert Quadratic(c, u, l, t) - Quadratic(c, u, l, s) == l * ((t - s) * slope) by {
      assert t * u == t * (q * l) && s * u == s * (q * l);
    }
    ProductNonNegative(t - s, if t == s then 0.0 else slope);
    ProductNonNegative(l, (t - s) * slope);
  }

  /** The clamped projection is the nearest point of the whole segment, zero length included. */
  lemma FootIsNearest(a: Metres, b: Metres, t: real)
    requires 0.0 <= t <= 1.0
    ensures Along(a, b, Foot(LengthSq(a, b), Reach(a, b))) <= Along(a, b, t)
  {
    AlongIsQuadratic(a, b, t);
    AlongIsQuadratic(a, b, Foot(LengthSq(a, b), Reach(a, b)));
    SegmentFacts(a, b);
    FootLeast(a.x * a.x + a.y * a.y, Reach(a, b), LengthSq(a, b), t);
  }

  lemma FootLeast(c: real, u: real, l: real, t: real)
    requires l >= 0.0 && (l == 0.0 ==> u == 0.0) && 0.0 <= t <= 1.0
    ensures Quadratic(c, u, l, Foot(l, u)) <= Quadratic(c, u, l, t)
  {
    if l > 0.0 {
      assert u / l * l == u;
      QuadraticLeast(c, u, l, u / l, t);
    }
  }

  lemma ProductSign(x: real, y: real, s: real)
    requires s == x * y
    ensures (x > 0.0 && y > 0.0) || (x < 0.0 && y < 0.0) ==> s > 0.0
    ensures x == 0.0 ==> s == 0.0
  {
  }

  lemma SquareFacts(x: real, s: real)
    requires s == x * x
    ensures s >= 0.0
    ensures s == 0.0 ==> x == 0.0
  {
    ProductSign(x, x, s);
  }

  /** A segment of no length reaches nowhere. */
  lemma SegmentFacts(a: Metres, b: Metres)
    ensures LengthSq(a, b) >= 0.0
    ensures LengthSq(a, b) == 0.0 ==> Reach(a, b) == 0.0
  {
    var dx, dy := b.x - a.x, b.y - a.y;
    SquareFacts(dx, dx * dx);
    SquareFacts(dy, dy * dy);
  }

  // ----- the boundary loop

  /** The point a fraction `t` of the way from one vertex to another, in degrees. */
  function PointOn(a: Point, b: Point, t: real): Point {
    Point(a.lon + t * (b.lon - a.lon), a.lat + t * (b.lat - a.lat))
  }

  /** Squared metres between two points: longitude and latitude each at their own scale. */
  function SquaredMetres(p: Point, q: Point, mPerDegLon: real): real {
    var east, north := (q.lon - p.lon) * mPerDegLon, (q.lat - p.lat) * M_PER_DEG_LAT;
    east * east + north * north
  }

  /** A degree is 111320 metres to the north, and the given scale to the east. */
  lemma DegreesAreMetres(p: Point, q: Point, mPerDegLon: real)
    ensures q == Point(p.lon, p.lat + 1.0) ==> SquaredMetres(p, q, mPerDegLon) == 111320.0 * 111320.0
    ensures q == Point(p.lon + 1.0, p.lat) ==> SquaredMetres(p, q, mPerDegLon) == mPerDegLon * mPerDegLon
    ensures SquaredMetres(p, q, mPerDegLon) ==
            SquaredMetres(p, Point(q.lon, p.lat), mPerDegLon) + SquaredMetres(p, Point(p.lon, q.lat), mPerDegLon)
  {
    AlongOneAxis(p, q, mPerDegLon);
  }

  lemma AlongOneAxis(p: Point, q: Point, mPerDegLon: real)
    ensures
      var east, north := (q.lon - p.lon) * mPerDegLon, (q.lat - p.lat) * M_PER_DEG_LAT;
      && SquaredMetres(p, Point(q.lon, p.lat), mPerDegLon) == east * east
      && SquaredMetres(p, Point(p.lon, q.lat), mPerDegLon) == north * north
  {
    assert (p.lat - p.lat) * M_PER_DEG_LAT == 0.0 && (p.lon - p.lon) * mPerDegLon == 0.0;
  }

  /** Measuring along a segment laid out in metres about `p` is measuring from `p` to the point
      in degrees. */
  lemma AlongMeasures(p: Point, a: Point, b: Point, mPerDegLon: real, t: real)
    ensures Along(ToXY(p, a, mPerDegLon), ToXY(p, b, mPerDegLon), t) == SquaredMetres(p, PointOn(a, b, t), mPerDegLon)
  {
    ScaledStep(a.lon - p.lon, b.lon - p.lon, mPerDegLon, t);
    ScaledStep(a.lat - p.lat, b.lat - p.lat, M_PER_DEG_LAT, t);
    assert PointOn(a, b, t).lon - p.lon == (a.lon - p.lon) + t * ((b.lon - p.lon) - (a.lon - p.lon));
    assert PointOn(a, b, t).lat - p.lat == (a.lat - p.lat) + t * ((b.lat - p.lat) - (a.lat - p.lat));
  }

  lemma ScaledStep(u: real, v: real, scale: real, t: real)
    ensures u * scale + t * (v * scale - u * scale) == (u + t * (v - u)) * scale
  {
    assert v * scale - u * scale == (v - u) * scale;
    assert t * ((v - u) * scale) == t * (v - u) * scale;
  }

  /** Squared distance to the point a fraction `t` along the ring's edge `i`. */
  function ToEdge(p: Point, ring: Ring, mPerDegLon: real, i: nat, t: real): real
    requires i < |ring|
  {
    SquaredMetres(p, PointOn(ring[i], ring[(i + 1) % |ring|], t), mPerDegLon)
  }

  /** `d` is the least squared distance over every point of the first `n` edges. */
  ghost predicate LeastOverEdges(p: Point, ring: Ring, mPerDegLon: real, n: nat, d: Distance)
    requires n <= |ring|
  {
    if n == 0 then d == Infinite
    else
      && d.Squared?
      && (exists i: nat, t: real ::
            i < n && 0.0 <= t <= 1.0 && d.sq == ToEdge(p, ring, mPerDegLon, i, t))
      && (forall i: nat, t: real ::
            i < n && 0.0 <= t <= 1.0 ==> d.sq <= ToEdge(p, ring, mPerDegLon, i, t))
  }

  /** What the distance function promises: nothing from a ring too short to enclose, zero
      inside, and otherwise the least distance to the boundary. */
  ghost predicate IsDistance(p: Point, ring: Ring, mPerDegLon: real, d: Distance) {
    if |ring| < 3 then d == Infinite
    else if InPolygon(p, ring) then d == Squared(0.0)
    else LeastOverEdges(p, ring, mPerDegLon, |ring|, d)
  }

  /** A position has one distance to a ring. */
  lemma DistanceIsUnique(p: Point, ring: Ring, mPerDegLon: real, d: Distance, e: Distance)
    ensures IsDistance(p, ring, mPerDegLon, d) && IsDistance(p, ring, mPerDegLon, e) ==> d == e
  {
  }

  method DistanceToPolygon(p: Point, polygon: Ring, mPerDegLon: real) returns (d: Distance)
    requires mPerDegLon > 0.0
    ensures IsDistance(p, polygon, mPerDegLon, d)
  {
    if |polygon| < 3 {
      return Infinite;
    }
    var inside := PointInPolygon(p, polygon);
    if inside {
      return Squared(0.0);
    }
    var nearest := Infinite;
    for i := 0 to |polygon|
      invariant LeastOverEdges(p, polygon, mPerDegLon, i, nearest)
    {
      var a := ToXY(p, polygon[i], mPerDegLon);
      var b := ToXY(p, polygon[(i + 1) % |polygon|], mPerDegLon);
      var foot := Foot(LengthSq(a, b), Reach(a, b));
      var here := Along(a, b, foot);
      forall t | 0.0 <= t <= 1.0
        ensures here <= ToEdge(p, polygon, mPerDegLon, i, t)
      {
        FootIsNearest(a, b, t);
        AlongMeasures(p, polygon[i], polygon[(i + 1) % |polygon|], mPerDegLon, t);
      }
      AlongMeasures(p, polygon[i], polygon[(i + 1) % |polygon|], mPerDegLon, foot);
      assert here == ToEdge(p, polygon, mPerDegLon, i, foot);
      ghost var before := nearest;
      if nearest.Infinite? || here < nearest.sq {
        nearest := Squared(here);
      }
      LeastGrows(p, polygon, mPerDegLon, i, before, here, foot);
    }
    d := nearest;
  }

  lemma LeastGrows(p: Point, ring: Ring, mPerDegLon: real, n: nat, d: Distance, here: real, foot: real)
    requires n < |ring| && LeastOverEdges(p, ring, mPerDegLon, n, d)
    requires 0.0 <= foot <= 1.0 && here == ToEdge(p, ring, mPerDegLon, n, foot)
    requires forall t :: 0.0 <= t <= 1.0 ==> here <= ToEdge(p, ring, mPerDegLon, n, t)
    ensures
      var next := if d.Infinite? || here < d.sq then Squared(here) else d;
      LeastOverEdges(p, ring, mPerDegLon, n + 1, next)
  {
    var next := if d.Infinite? || here < d.sq then Squared(here) else d;
    forall i: nat, t: real | i < n + 1 && 0.0 <= t <= 1.0
      ensures next.sq <= ToEdge(p, ring, mPerDegLon, i, t)
    {
    }
  }

  // ----- the sink's flag and the simulation's list

  predicate Within(d: Distance, metres: real) {
    d.Squared? && d.sq < metres * metres
  }

  /** A zone as the sink caches it. */
  datatype Zone = Zone(id: string, ring: Ring)

  /** Some point of the zone or of its boundary is closer than so many metres. */
  ghost predicate Closer(p: Point, ring: Ring, mPerDegLon: real, metres: real) {
    |ring| >= 3 &&
    (InPolygon(p, ring) ||
     exists i: nat, t: real ::
       i < |ring| && 0.0 <= t <= 1.0 && ToEdge(p, ring, mPerDegLon, i, t) < metres * metres)
  }

  lemma WithinIsCloser(p: Point, ring: Ring, mPerDegLon: real, d: Distance, metres: real)
    requires IsDistance(p, ring, mPerDegLon, d) && metres > 0.0
    ensures Within(d, metres) <==> Closer(p, ring, mPerDegLon, metres)
  {
    ProductSign(metres, metres, metres * metres);
    if |ring| >= 3 && !InPolygon(p, ring) {
      if Within(d, metres) {
        var i: nat, t: real :| i < |ring| && 0.0 <= t <= 1.0 && d.sq == ToEdge(p, ring, mPerDegLon, i, t);
        assert ToEdge(p, ring, mPerDegLon, i, t) < metres * metres;
      }
    }
  }

  /** Within the warning distance. */
  ghost predicate Threatens(p: Point, ring: Ring, mPerDegLon: real) {
    Closer(p, ring, mPerDegLon, WARNING_DISTANCE_M)
  }

  /** A square root. */
  ghost predicate IsRoot(root: real -> real) {
    forall x :: x >= 0.0 ==> root(x) >= 0.0 && root(x) * root(x) == x
  }

  lemma RootBelow(root: real -> real, x: real, c: real)
    requires IsRoot(root) && x >= 0.0 && c > 0.0
    ensures root(x) < c <==> x < c * c
  {
    var r := root(x);
    assert c * c - r * r == (c - r) * (c + r);
    ProductSign(c - r, c + r, c * c - r * r);
    ProductSign(r - c, c + r, r * r - c * c);
  }

  lemma RootOrder(root: real -> real, x: real, y: real)
    requires IsRoot(root) && 0.0 <= x < y
    ensures root(x) < root(y)
  {
    SquareFacts(root(y), y);
    RootBelow(root, x, root(y));
  }

  /** The score of a position within the warning distance: lower inside than just outside. */
  function Risk(d: Distance, root: real -> real): real
    requires d.Squared?
  {
    if d == Squared(0.0) then INSIDE_RISK else 1.0 - root(d.sq) / WARNING_DISTANCE_M
  }

  /** The zone is near and scores so much. */
  ghost predicate Scores(p: Point, z: Zone, mPerDegLon: real, root: real -> real, score: real) {
    exists d :: IsDistance(p, z.ring, mPerDegLon, d) && Within(d, WARNING_DISTANCE_M) && score == Risk(d, root)
  }

  lemma ScoreIs(p: Point, z: Zone, mPerDegLon: real, root: real -> real, d: Distance, score: real)
    requires IsDistance(p, z.ring, mPerDegLon, d)
    ensures Scores(p, z, mPerDegLon, root, score) <==> Within(d, WARNING_DISTANCE_M) && score == Risk(d, root)
  {
    if Scores(p, z, mPerDegLon, root, score) {
      var e :| IsDistance(p, z.ring, mPerDegLon, e) && Within(e, WARNING_DISTANCE_M) && score == Risk(e, root);
      DistanceIsUnique(p, z.ring, mPerDegLon, d, e);
    }
  }

  /** A near zone scores more than nothing, and more than the breach threshold exactly when it
      holds the position or is closer than the threshold's share of the warning distance. */
  lemma RiskMeans(p: Point, ring: Ring, mPerDegLon: real, root: real -> real, d: Distance)
    requires IsDistance(p, ring, mPerDegLon, d) && Within(d, WARNING_DISTANCE_M) && IsRoot(root)
    ensures Risk(d, root) > 0.0
    ensures d == Squared(0.0) || Risk(d, root) > BREACH_RISK_THRESHOLD <==>
            Closer(p, ring, mPerDegLon, BREACH_DISTANCE_M)
  {
    DistanceNonNegative(p, ring, mPerDegLon, d);
    RootBelow(root, d.sq, WARNING_DISTANCE_M);
    RootBelow(root, d.sq, BREACH_DISTANCE_M);
    WithinIsCloser(p, ring, mPerDegLon, d, BREACH_DISTANCE_M);
  }

  /** Outside a zone the score falls by one over the warning distance for each metre, so the
      nearer of two zones scores more. */
  lemma NearerScoresMore(root: real -> real, d: Distance, e: Distance)
    requires IsRoot(root) && d.Squared? && e.Squared? && d.sq > 0.0 && e.sq > 0.0
    ensures Risk(d, root) * 500.0 == 500.0 - root(d.sq)
    ensures Risk(d, root) > Risk(e, root) <==> d.sq < e.sq
  {
    if d.sq < e.sq {
      RootOrder(root, d.sq, e.sq);
    } else if e.sq < d.sq {
      RootOrder(root, e.sq, d.sq);
    }
  }

  /** A position inside a zone scores as one 25 metres away does: a zone closer than that, but
      not holding the position, outscores it. */
  lemma InsideScoresAsClose(root: real -> real, d: Distance)
    requires IsRoot(root) && d.Squared? && d.sq > 0.0
    ensures Risk(d, root) > Risk(Squared(0.0), root) <==> d.sq < 25.0 * 25.0
  {
    RootBelow(root, d.sq, 25.0);
  }

  lemma DistanceNonNegative(p: Point, ring: Ring, mPerDegLon: real, d: Distance)
    requires IsDistance(p, ring, mPerDegLon, d) && d.Squared?
    ensures d.sq >= 0.0
  {
    if |ring| >= 3 && !InPolygon(p, ring) {
      var i: nat, t: real :| i < |ring| && 0.0 <= t <= 1.0 && d.sq == ToEdge(p, ring, mPerDegLon, i, t);
      ToEdgeNonNegative(p, ring, mPerDegLon, i, t);
    }
  }

  datatype Nearest = NoZone | Nearest(id: string)

  /** The highest score among the zones, and the first zone that has it. */
  ghost predicate Highest(
    p: Point, zones: seq<Zone>, mPerDegLon: real, root: real -> real, risk: real, nearest: Nearest)
  {
    && (forall k, score :: 0 <= k < |zones| && Scores(p, zones[k], mPerDegLon, root, score) ==> score <= risk)
    && (nearest == NoZone ==> risk == 0.0 && forall k, score ::
          0 <= k < |zones| ==> !Scores(p, zones[k], mPerDegLon, root, score))
    && (nearest != NoZone ==>
          exists k: nat :: FirstWith(p, zones, mPerDegLon, root, risk, k) && zones[k].id == nearest.id)
  }

  /** Zone `k` has the score, and no zone before it. */
  ghost predicate FirstWith(p: Point, zones: seq<Zone>, mPerDegLon: real, root: real -> real, risk: real, k: nat) {
    && k < |zones| && Scores(p, zones[k], mPerDegLon, root, risk)
    && forall j, score :: 0 <= j < k && Scores(p, zones[j], mPerDegLon, root, score) ==> score < risk
  }

  /** The zone named is one of the nearest. */
  ghost predicate NamesNearest(p: Point, zones: seq<Zone>, mPerDegLon: real, id: string) {
    exists k :: 0 <= k < |zones| && zones[k].id == id && IsNearest(p, zones, mPerDegLon, k)
  }

  ghost predicate IsNearest(p: Point, zones: seq<Zone>, mPerDegLon: real, k: nat) {
    && k < |zones|
    && forall d, e, j :: 0 <= j < |zones| && IsDistance(p, zones[k].ring, mPerDegLon, d)
                         && IsDistance(p, zones[j].ring, mPerDegLon, e) ==>
         d.Squared? && (e.Squared? ==> d.sq <= e.sq)
  }

  /** With the position in none of the zones, the highest score is the nearest zone's. */
  lemma HighestIsNearest(
      p: Point, zones: seq<Zone>, mPerDegLon: real, root: real -> real, risk: real, nearest: Nearest)
    requires Highest(p, zones, mPerDegLon, root, risk, nearest) && nearest != NoZone && IsRoot(root)
    requires forall k :: 0 <= k < |zones| ==> !AtZero(p, zones[k].ring, mPerDegLon)
    ensures NamesNearest(p, zones, mPerDegLon, nearest.id)
  {
    var k: nat :| FirstWith(p, zones, mPerDegLon, root, risk, k) && zones[k].id == nearest.id;
    forall d, e, j | 0 <= j < |zones| && IsDistance(p, zones[k].ring, mPerDegLon, d)
                     && IsDistance(p, zones[j].ring, mPerDegLon, e)
      ensures d.Squared? && (e.Squared? ==> d.sq <= e.sq)
    {
      ScoreIs(p, zones[k], mPerDegLon, root, d, risk);
      if e.Squared? && e.sq < d.sq {
        ScoreIs(p, zones[j], mPerDegLon, root, e, Risk(e, root));
        NonZeroIsPositive(p, zones[k].ring, mPerDegLon, d);
        NonZeroIsPositive(p, zones[j].ring, mPerDegLon, e);
        NearerScoresMore(root, e, d);
      }
    }
  }

  lemma NonZeroIsPositive(p: Point, ring: Ring, mPerDegLon: real, d: Distance)
    requires IsDistance(p, ring, mPerDegLon, d) && d.Squared? && !AtZero(p, ring, mPerDegLon)
    ensures d.sq > 0.0
  {
    ZeroIsAtZero(p, ring, mPerDegLon, d);
    DistanceNonNegative(p, ring, mPerDegLon, d);
  }

  lemma HighestGrows(p: Point, zones: seq<Zone>, zone: Zone, mPerDegLon: real, root: real -> real,
                     risk: real, nearest: Nearest, d: Distance)
    requires Highest(p, zones, mPerDegLon, root, risk, nearest) && IsDistance(p, zone.ring, mPerDegLon, d)
    requires d.Squared? ==> Within(d, WARNING_DISTANCE_M) ==> Risk(d, root) > 0.0
    ensures
      var better := Within(d, WARNING_DISTANCE_M) && Risk(d, root) > risk;
      Highest(p, zones + [zone], mPerDegLon, root, if better then Risk(d, root) else risk,
              if better then Nearest.Nearest(zone.id) else nearest)
  {
    var more := zones + [zone];
    var better := Within(d, WARNING_DISTANCE_M) && Risk(d, root) > risk;
    assert forall k :: 0 <= k < |zones| ==> more[k] == zones[k];
    forall score
      ensures Scores(p, zone, mPerDegLon, root, score) <==> Within(d, WARNING_DISTANCE_M) && score == Risk(d, root)
    {
      ScoreIs(p, zone, mPerDegLon, root, d, score);
    }
    if better {
      assert FirstWith(p, more, mPerDegLon, root, Risk(d, root), |zones|);
    } else if nearest != NoZone {
      var k: nat :| FirstWith(p, zones, mPerDegLon, root, risk, k) && zones[k].id == nearest.id;
      assert FirstWith(p, more, mPerDegLon, root, risk, k);
    }
  }

  /** Some zone is closer than so many metres. */
  ghost predicate AnyCloser(p: Point, zones: seq<Zone>, mPerDegLon: real, metres: real) {
    exists z :: z in zones && Closer(p, z.ring, mPerDegLon, metres)
  }

  lemma AnyGrows(p: Point, zones: seq<Zone>, zone: Zone, mPerDegLon: real, metres: real)
    ensures AnyCloser(p, zones + [zone], mPerDegLon, metres) <==>
            AnyCloser(p, zones, mPerDegLon, metres) || Closer(p, zone.ring, mPerDegLon, metres)
  {
    assert zone in zones + [zone];
  }

  /** The zones a position is in or on the boundary of. */
  ghost predicate Breaches(p: Point, zones: seq<Zone>, mPerDegLon: real, breached: seq<string>) {
    forall id :: id in breached <==> exists z :: z in zones && z.id == id && AtZero(p, z.ring, mPerDegLon)
  }

  lemma BreachesGrow(p: Point, zones: seq<Zone>, zone: Zone, mPerDegLon: real, breached: seq<string>)
    requires Breaches(p, zones, mPerDegLon, breached)
    ensures Breaches(p, zones + [zone], mPerDegLon,
                     if AtZero(p, zone.ring, mPerDegLon) then breached + [zone.id] else breached)
  {
    assert zone in zones + [zone];
  }

  /** What one zone's distance says. */
  lemma DistanceSays(p: Point, zone: Zone, mPerDegLon: real, root: real -> real, d: Distance)
    requires IsDistance(p, zone.ring, mPerDegLon, d) && IsRoot(root)
    ensures Within(d, WARNING_DISTANCE_M) <==> Closer(p, zone.ring, mPerDegLon, WARNING_DISTANCE_M)
    ensures d == Squared(0.0) <==> AtZero(p, zone.ring, mPerDegLon)
    ensures Within(d, WARNING_DISTANCE_M) ==> Risk(d, root) > 0.0
    ensures Within(d, WARNING_DISTANCE_M) && (d == Squared(0.0) || Risk(d, root) > BREACH_RISK_THRESHOLD) <==>
            Closer(p, zone.ring, mPerDegLon, BREACH_DISTANCE_M)
  {
    WithinIsCloser(p, zone.ring, mPerDegLon, d, WARNING_DISTANCE_M);
    WithinIsCloser(p, zone.ring, mPerDegLon, d, BREACH_DISTANCE_M);
    ZeroIsAtZero(p, zone.ring, mPerDegLon, d);
    if Within(d, WARNING_DISTANCE_M) {
      RiskMeans(p, zone.ring, mPerDegLon, root, d);
    }
  }

  /** What the sink says of a position. */
  datatype Check = Check(near: bool, predicted: bool, risk: real, nearest: Nearest, breached: seq<string>)

  /** It is right about these zones. */
  ghost predicate Tells(p: Point, zones: seq<Zone>, mPerDegLon: real, root: real -> real, c: Check) {
    && (c.near <==> AnyCloser(p, zones, mPerDegLon, WARNING_DISTANCE_M))
    && (c.predicted <==> AnyCloser(p, zones, mPerDegLon, BREACH_DISTANCE_M))
    && Highest(p, zones, mPerDegLon, root, c.risk, c.nearest)
    && Breaches(p, zones, mPerDegLon, c.breached)
    && (c.near ==> c.nearest != NoZone)
  }

  /** What one more zone's distance makes of it. */
  function Told(c: Check, zone: Zone, root: real -> real, d: Distance): Check {
    if !Within(d, WARNING_DISTANCE_M) then c
    else
      var inside, score := d == Squared(0.0), Risk(d, root);
      Check(true, c.predicted || inside || score > BREACH_RISK_THRESHOLD,
            if score > c.risk then score else c.risk,
            if score > c.risk then Nearest.Nearest(zone.id) else c.nearest,
            if inside then c.breached + [zone.id] else c.breached)
  }

  lemma TellsMore(
      p: Point, zones: seq<Zone>, zone: Zone, mPerDegLon: real, root: real -> real, c: Check, d: Distance)
    requires Tells(p, zones, mPerDegLon, root, c) && IsDistance(p, zone.ring, mPerDegLon, d) && IsRoot(root)
    ensures Tells(p, zones + [zone], mPerDegLon, root, Told(c, zone, root, d))
  {
    DistanceSays(p, zone, mPerDegLon, root, d);
    AnyGrows(p, zones, zone, mPerDegLon, WARNING_DISTANCE_M);
    AnyGrows(p, zones, zone, mPerDegLon, BREACH_DISTANCE_M);
    HighestGrows(p, zones, zone, mPerDegLon, root, c.risk, c.nearest, d);
    BreachesGrow(p, zones, zone, mPerDegLon, c.breached);
    ZeroIsWithin(d);
  }

  lemma ZeroIsWithin(d: Distance)
    ensures d == Squared(0.0) ==> Within(d, WARNING_DISTANCE_M)
  {
  }

  /** The sink's pass over its zones.  `near`, `predicted` and `risk` are what it writes beside
      the position, and `breached` the zones it calls breached because the distance came back
      zero. */
  method CheckProximity(p: Point, zones: seq<Zone>, mPerDegLon: real, root: real -> real)
    returns (near: bool, predicted: bool, risk: real, nearest: Nearest, breached: seq<string>)
    requires mPerDegLon > 0.0 && IsRoot(root)
    ensures near <==> AnyCloser(p, zones, mPerDegLon, WARNING_DISTANCE_M)
    ensures predicted <==> AnyCloser(p, zones, mPerDegLon, BREACH_DISTANCE_M)
    ensures Highest(p, zones, mPerDegLon, root, risk, nearest)
    ensures Breaches(p, zones, mPerDegLon, breached)
    ensures near && breached == [] ==> nearest != NoZone && NamesNearest(p, zones, mPerDegLon, nearest.id)
  {
    near, predicted, risk, nearest, breached := false, false, 0.0, NoZone, [];
    for k := 0 to |zones|
      invariant Tells(p, zones[..k], mPerDegLon, root, Check(near, predicted, risk, nearest, breached))
    {
      var zone := zones[k];
      var d := DistanceToPolygon(p, zone.ring, mPerDegLon);
      TellsMore(p, zones[..k], zone, mPerDegLon, root, Check(near, predicted, risk, nearest, breached), d);
      assert zones[..k + 1] == zones[..k] + [zone];
      if Within(d, WARNING_DISTANCE_M) {
        var inside, score := d == Squared(0.0), Risk(d, root);
        near := true;
        if score > risk {
          risk, nearest := score, Nearest.Nearest(zone.id);
        }
        if inside || score > BREACH_RISK_THRESHOLD {
          predicted := true;
        }
        if inside {
          breached := breached + [zone.id];
        }
      }
    }
    assert zones[..|zones|] == zones;
    if near && breached == [] {
      NoneBreached(p, zones, mPerDegLon, breached);
      HighestIsNearest(p, zones, mPerDegLon, root, risk, nearest);
    }
  }

  lemma NoneBreached(p: Point, zones: seq<Zone>, mPerDegLon: real, breached: seq<string>)
    requires Breaches(p, zones, mPerDegLon, breached) && breached == []
    ensures forall k :: 0 <= k < |zones| ==> !AtZero(p, zones[k].ring, mPerDegLon)
  {
    forall k | 0 <= k < |zones| ensures !AtZero(p, zones[k].ring, mPerDegLon) {
      assert zones[k].id !in breached && zones[k] in zones;
    }
  }

  /** The simulation's pass over the fleet, for one hypothetical zone. */
  method WhatIf(fleet: seq<(string, Point)>, ring: Ring, scale: real -> real)
    returns (inside: seq<string>, nearby: seq<string>)
    requires forall lat :: scale(lat) > 0.0
    ensures forall id :: id in inside <==> exists d :: d in fleet && d.0 == id && InPolygon(d.1, ring)
    ensures forall id :: id in nearby <==>
                         exists d :: d in fleet && d.0 == id && !InPolygon(d.1, ring) &&
                                     Threatens(d.1, ring, scale(d.1.lat))
  {
    inside, nearby := [], [];
    for k := 0 to |fleet|
      invariant forall id :: id in inside <==>
                             exists d :: d in fleet[..k] && d.0 == id && InPolygon(d.1, ring)
      invariant forall id :: id in nearby <==>
                             exists d :: d in fleet[..k] && d.0 == id && !InPolygon(d.1, ring) &&
                                         Threatens(d.1, ring, scale(d.1.lat))
    {
      var drone := fleet[k];
      var within := PointInPolygon(drone.1, ring);
      if within {
        inside := inside + [drone.0];
      } else {
        var d := DistanceToPolygon(drone.1, ring, scale(drone.1.lat));
        WithinIsCloser(drone.1, ring, scale(drone.1.lat), d, WARNING_DISTANCE_M);
        if Within(d, WARNING_DISTANCE_M) {
          nearby := nearby + [drone.0];
        }
      }
      assert fleet[..k + 1] == fleet[..k] + [drone];
    }
    assert fleet[..|fleet|] == fleet;
  }

  // ----- where the two disagree

  /** `p` is on the boundary: zero metres from a point of some edge. */
  ghost predicate OnBoundary(p: Point, ring: Ring, mPerDegLon: real) {
    exists i: nat, t: real ::
      i < |ring| && 0.0 <= t <= 1.0 && ToEdge(p, ring, mPerDegLon, i, t) == 0.0
  }

  /** When the sink takes a position to be inside a zone: its distance is zero. */
  ghost predicate AtZero(p: Point, ring: Ring, mPerDegLon: real) {
    |ring| >= 3 && (InPolygon(p, ring) || OnBoundary(p, ring, mPerDegLon))
  }

  lemma ToEdgeNonNegative(p: Point, ring: Ring, mPerDegLon: real, i: nat, t: real)
    requires i < |ring|
    ensures ToEdge(p, ring, mPerDegLon, i, t) >= 0.0
  {
    var q := PointOn(ring[i], ring[(i + 1) % |ring|], t);
    var east, north := (q.lon - p.lon) * mPerDegLon, (q.lat - p.lat) * M_PER_DEG_LAT;
    SquareFacts(east, east * east);
    SquareFacts(north, north * north);
  }

  lemma ZeroIsAtZero(p: Point, ring: Ring, mPerDegLon: real, d: Distance)
    requires IsDistance(p, ring, mPerDegLon, d)
    ensures d == Squared(0.0) <==> AtZero(p, ring, mPerDegLon)
  {
    if |ring| >= 3 && !InPolygon(p, ring) {
      if OnBoundary(p, ring, mPerDegLon) {
        var i: nat, t: real :|
          i < |ring| && 0.0 <= t <= 1.0 && ToEdge(p, ring, mPerDegLon, i, t) == 0.0;
        var j: nat, s: real :|
          j < |ring| && 0.0 <= s <= 1.0 && d.sq == ToEdge(p, ring, mPerDegLon, j, s);
        ToEdgeNonNegative(p, ring, mPerDegLon, j, s);
      }
    }
  }

  /** For a single zone the sink flags a position exactly when the simulation lists the drone.
      What it calls a breach is what the simulation lists as inside, except for a drone on the
      boundary that an even number of the ring's triangles cover. */
  method SinkAgreesWithSimulation(id: string, p: Point, zone: Zone, scale: real -> real, root: real -> real)
    returns (near: bool, listed: bool, breach: bool, within: bool)
    requires IsRoot(root) && forall lat :: scale(lat) > 0.0
    ensures near == listed
    ensures near <==> Threatens(p, zone.ring, scale(p.lat))
    ensures !OnBoundary(p, zone.ring, scale(p.lat)) ==> (breach <==> within)
    ensures (breach <==> within) <==>
            !(|zone.ring| >= 3 && OnBoundary(p, zone.ring, scale(p.lat)) && Coverings(p, zone.ring) % 2 == 0)
  {
    var flag, _, _, _, breached := CheckProximity(p, [zone], scale(p.lat), root);
    near := flag;
    var inside, nearby := WhatIf([(id, p)], zone.ring, scale);
    assert zone in [zone] && (id, p) in [(id, p)];
    EvenOddRule(p, zone.ring);
    listed := id in inside + nearby;
    breach, within := zone.id in breached, id in inside;
  }

  /** Half way along a side that runs due north, the distance is zero. */
  lemma MiddleOfSide(p: Point, ring: Ring, mPerDegLon: real, i: nat)
    requires i < |ring|
    requires
      var a, b := ring[i], ring[(i + 1) % |ring|];
      p.lon == a.lon == b.lon && p.lat - a.lat == b.lat - p.lat
    ensures OnBoundary(p, ring, mPerDegLon)
  {
    assert PointOn(ring[i], ring[(i + 1) % |ring|], 0.5) == p;
    assert ToEdge(p, ring, mPerDegLon, i, 0.5) == 0.0;
  }

  lemma FourSides(p: Point, a: Point, b: Point, c: Point, d: Point)
    ensures InPolygon(p, [a, b, c, d]) ==
            (Crosses(p, a, b) != (Crosses(p, b, c) != (Crosses(p, c, d) != Crosses(p, d, a))))
  {
    var m := Crossed(p);
    Rings.PathExtend(m, [a, b, c, d], a);
    Rings.PathExtend(m, [a, b, c], d);
    Rings.PathExtend(m, [a, b], c);
    Rings.EdgeParity(m, a, b);
    assert [a, b] + [c] == [a, b, c] && [a, b, c] + [d] == [a, b, c, d];
  }

  /** A drone on the east side of a square zone: the sink reports a breach, the simulation
      lists it as merely nearby. */
  lemma BoundaryDisagreement(mPerDegLon: real)
    ensures
      var ring := [Point(0.0, 0.0), Point(1.0, 0.0), Point(1.0, 1.0), Point(0.0, 1.0)];
      var p := Point(1.0, 0.5);
      AtZero(p, ring, mPerDegLon) && !InPolygon(p, ring)
  {
    var a, b, c, d := Point(0.0, 0.0), Point(1.0, 0.0), Point(1.0, 1.0), Point(0.0, 1.0);
    var p := Point(1.0, 0.5);
    MiddleOfSide(p, [a, b, c, d], mPerDegLon, 1);
    assert !InPolygon(p, [a, b, c, d]) by {
      CrossingIsATurn(p, b, c);
      CrossingIsATurn(p, d, a);
      FourSides(p, a, b, c, d);
    }
  }
}
