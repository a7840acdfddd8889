/** The ray-casting containment test, in exact arithmetic.

The loop is proved against the parity of crossed edges, and what that parity means is
proved about the ring: it does not depend on where the ring starts or which way round it
runs, it adds up when a ring is cut along a chord, it is false for every point that a
straight line separates from the ring, and for a ring cut into a fan of triangles it is
the even-odd rule.
 */
module Geometry {
  import opened Collections
  import Rings

  /** A vertex, in the x, y order of WKT. */
  datatype Point = Point(lon: real, lat: real)

  type Ring = seq<Point>

  /** The longitude at which the edge `a`-`b` meets the ray's latitude. */
  function CrossingLon(p: Point, a: Point, b: Point): real
    requires a.lat != b.lat
  {
    a.lon + (b.lon - a.lon) * (p.lat - a.lat) / (b.lat - a.lat)
  }

  /** Whether the ray from `p` towards growing longitude crosses the edge `a`-`b`. */
  predicate Crosses(p: Point, a: Point, b: Point) {
    && (a.lat > p.lat) != (b.lat > p.lat)
    && p.lon < CrossingLon(p, a, b)
  }

  /** The edges the ray from `p` crosses. */
  function Crossed(p: Point): (Point, Point) -> bool {
    (a, b) => Crosses(p, a, b)
  }

  /** The answer of the containment test: too short a ring holds nothing. */
  predicate InPolygon(p: Point, ring: Ring) {
    |ring| >= 3 && Rings.RingParity(Crossed(p), ring)
  }

  // ----- one edge

  /** Twice the signed area of the triangle p, a, b. */
  function Turn(p: Point, a: Point, b: Point): real {
    (a.lon - p.lon) * (b.lat - p.lat) - (a.lat - p.lat) * (b.lon - p.lon)
  }

  /** Comparing with a quotient is comparing with the numerator. */
  lemma QuotientAbove(low: real, n: real, d: real)
    requires d != 0.0
    ensures d > 0.0 ==> (low < n / d <==> low * d < n)
    ensures d < 0.0 ==> (low < n / d <==> low * d > n)
  {
    var q := n / d;
    assert q * d == n;
    if d > 0.0 {
      if low < q { assert (q - low) * d > 0.0; }
      if low >= q { assert (low - q) * d >= 0.0; }
    } else {
      if low < q { assert (q - low) * -d > 0.0; }
      if low >= q { assert (low - q) * -d >= 0.0; }
    }
  }

  /** The division in the crossing test only asks which side of the edge the point is on:
      the ray crosses a rising edge when it turns left, a falling one when it turns right. */
  lemma CrossingIsATurn(p: Point, a: Point, b: Point)
    ensures a.lat <= p.lat < b.lat ==> (Crosses(p, a, b) <==> Turn(p, a, b) > 0.0)
    ensures b.lat <= p.lat < a.lat ==> (Crosses(p, a, b) <==> Turn(p, a, b) < 0.0)
  {
    if (a.lat > p.lat) != (b.lat > p.lat) {
      var n, d := (b.lon - a.lon) * (p.lat - a.lat), b.lat - a.lat;
      QuotientAbove(p.lon - a.lon, n, d);
      assert n - (p.lon - a.lon) * d == Turn(p, a, b);
    }
  }

  lemma CrossesBothWays(p: Point, a: Point, b: Point)
    ensures Crosses(p, a, b) == Crosses(p, b, a)
  {
    CrossingIsATurn(p, a, b);
    CrossingIsATurn(p, b, a);
    assert Turn(p, a, b) == -Turn(p, b, a);
  }

  lemma CrossedIsSymmetric(p: Point)
    ensures Rings.Symmetric(Crossed(p))
    ensures forall a :: !Crossed(p)(a, a)
  {
    forall a, b
      ensures Crossed(p)(a, b) == Crossed(p)(b, a)
    {
      CrossesBothWays(p, a, b);
    }
  }

  // ----- how a ring is written makes no difference

  /** The length guard never decides anything. */
  lemma InPolygonIsParity(p: Point, ring: Ring)
    ensures InPolygon(p, ring) == Rings.RingParity(Crossed(p), ring)
  {
    CrossedIsSymmetric(p);
    if |ring| < 3 {
      Rings.ShortRing(Crossed(p), ring);
    }
  }

  lemma RotationKeepsAnswer(p: Point, ring: Ring, k: nat)
    requires k <= |ring|
    ensures InPolygon(p, ring[k..] + ring[..k]) == InPolygon(p, ring)
  {
    Rings.Rotation(Crossed(p), ring, k);
  }

  lemma ReversalKeepsAnswer(p: Point, ring: Ring)
    ensures InPolygon(p, Reversed(ring)) == InPolygon(p, ring)
  {
    CrossedIsSymmetric(p);
    Rings.Reversal(Crossed(p), ring);
  }

  /** A ring that repeats its first vertex at the end, as WKT writes it, answers alike. */
  lemma RepeatedVertexKeepsAnswer(p: Point, ring: Ring)
    requires ring != []
    ensures InPolygon(p, ring + [ring[0]]) == InPolygon(p, ring)
  {
    CrossedIsSymmetric(p);
    Rings.RepeatedVertex(Crossed(p), ring);
    InPolygonIsParity(p, ring);
    InPolygonIsParity(p, ring + [ring[0]]);
  }

  /** Cutting a ring along the chord between two of its vertices gives two rings whose
      answers add up to the whole ring's. */
  lemma ChordCut(p: Point, ring: Ring, i: nat, j: nat)
    requires i < j < |ring|
    ensures InPolygon(p, ring) ==
            (InPolygon(p, ring[i..j + 1]) != InPolygon(p, ring[j..] + ring[..i + 1]))
  {
    CrossedIsSymmetric(p);
    Rings.ChordCut(Crossed(p), ring, i, j);
    InPolygonIsParity(p, ring);
    InPolygonIsParity(p, ring[i..j + 1]);
    InPolygonIsParity(p, ring[j..] + ring[..i + 1]);
  }

  // ----- what the answer means

  /** A line strictly separates `p` from every vertex of the ring. */
  ghost predicate SeparatedBy(p: Point, ring: Ring, nx: real, ny: real) {
    forall v :: v in ring ==> nx * (v.lon - p.lon) + ny * (v.lat - p.lat) > 0.0
  }

  lemma SameSign(x: real, y: real)
    requires x * y > 0.0
    ensures x > 0.0 <==> y > 0.0
  {
  }

  /** A rising edge on the far side of a line is crossed exactly when the line faces the ray. */
  lemma SeparatedRisingEdge(p: Point, a: Point, b: Point, nx: real, ny: real)
    requires SeparatedBy(p, [a, b], nx, ny)
    requires a.lat <= p.lat < b.lat
    ensures Crosses(p, a, b) <==> nx > 0.0
  {
    var ax, ah, bx, bh := a.lon - p.lon, a.lat - p.lat, b.lon - p.lon, b.lat - p.lat;
    var na, nb := nx * ax + ny * ah, nx * bx + ny * bh;
    assert a in [a, b] && b in [a, b];
    assert na > 0.0 && nb > 0.0;
    assert bh * na > 0.0 && -ah * nb >= 0.0;
    assert bh * na - ah * nb == nx * Turn(p, a, b) by {
      assert bh * (nx * ax + ny * ah) == nx * (ax * bh) + ny * (ah * bh);
      assert ah * (nx * bx + ny * bh) == nx * (ah * bx) + ny * (ah * bh);
    }
    SameSign(nx, Turn(p, a, b));
    CrossingIsATurn(p, a, b);
  }

  lemma SeparatedEdge(p: Point, a: Point, b: Point, nx: real, ny: real)
    requires SeparatedBy(p, [a, b], nx, ny)
    ensures Crosses(p, a, b) <==> nx > 0.0 && (a.lat > p.lat) != (b.lat > p.lat)
  {
    if a.lat <= p.lat < b.lat {
      SeparatedRisingEdge(p, a, b, nx, ny);
    } else if b.lat <= p.lat < a.lat {
      assert SeparatedBy(p, [b, a], nx, ny);
      SeparatedRisingEdge(p, b, a, nx, ny);
      CrossesBothWays(p, a, b);
    }
  }

  lemma {:induction false} SeparatedPath(p: Point, path: seq<Point>, nx: real, ny: real)
    requires path != [] && SeparatedBy(p, path, nx, ny)
    ensures Rings.PathParity(Crossed(p), path) <==>
            nx > 0.0 && (path[0].lat > p.lat) != (path[|path| - 1].lat > p.lat)
    decreases |path|
  {
    if |path| >= 2 {
      SeparatedPath(p, path[1..], nx, ny);
      SeparatedEdge(p, path[0], path[1], nx, ny);
    }
  }

  /** No ring, however it twists, holds a point that a line separates from its vertices. */
  lemma SeparatedIsOutside(p: Point, ring: Ring, nx: real, ny: real)
    requires SeparatedBy(p, ring, nx, ny)
    ensures !InPolygon(p, ring)
  {
    if ring != [] {
      SeparatedPath(p, ring + [ring[0]], nx, ny);
    }
  }

  /** `p` lies strictly inside the triangle: every side turns the same way about it. */
  predicate InTriangle(p: Point, a: Point, b: Point, c: Point) {
    || (Turn(p, a, b) > 0.0 && Turn(p, b, c) > 0.0 && Turn(p, c, a) > 0.0)
    || (Turn(p, a, b) < 0.0 && Turn(p, b, c) < 0.0 && Turn(p, c, a) < 0.0)
  }

  lemma TriangleParity(p: Point, a: Point, b: Point, c: Point)
    ensures InPolygon(p, [a, b, c]) ==
            (Crosses(p, a, b) != (Crosses(p, b, c) != Crosses(p, c, a)))
  {
    var m := Crossed(p);
    Rings.PathExtend(m, [a, b, c], a);
    Rings.PathExtend(m, [a, b], c);
    assert [a, b] + [c] == [a, b, c];
    Rings.EdgeParity(m, a, b);
  }

  function Sign(x: real): int { if x > 0.0 then 1 else if x < 0.0 then -1 else 0 }

  /** Which side of the line from `a` to `b` the point is on; a point on the line goes with its
      neighbours to the east, and along a level line with those to the north. */
  function Side(p: Point, a: Point, b: Point): int {
    if Turn(p, a, b) != 0.0 then Sign(Turn(p, a, b))
    else if a.lat != b.lat then Sign(a.lat - b.lat)
    else Sign(b.lon - a.lon)
  }

  /** The triangle with the part of its boundary that goes with it. */
  predicate Covers(p: Point, a: Point, b: Point, c: Point) {
    Side(p, a, b) == Side(p, b, c) == Side(p, c, a) != 0
  }

  lemma SideFlips(p: Point, a: Point, b: Point)
    ensures Side(p, b, a) == -Side(p, a, b)
  {
    assert Turn(p, b, a) == -Turn(p, a, b);
  }

  /** An edge that spans the point's latitude is crossed according to the side. */
  lemma CrossingIsASide(p: Point, a: Point, b: Point)
    ensures a.lat <= p.lat < b.lat ==> Side(p, a, b) != 0 && (Crosses(p, a, b) <==> Side(p, a, b) == 1)
    ensures b.lat <= p.lat < a.lat ==> Side(p, a, b) != 0 && (Crosses(p, a, b) <==> Side(p, a, b) == -1)
  {
    CrossingIsATurn(p, a, b);
  }

  /** Weighted by the opposite turns, the heights of a triangle's vertices cancel. */
  lemma HeightsCancel(p: Point, a: Point, b: Point, c: Point)
    ensures Turn(p, b, c) * (a.lat - p.lat) + Turn(p, c, a) * (b.lat - p.lat) + Turn(p, a, b) * (c.lat - p.lat) == 0.0
  {
    var ax, ah, bx, bh, cx, ch :=
      a.lon - p.lon, a.lat - p.lat, b.lon - p.lon, b.lat - p.lat, c.lon - p.lon, c.lat - p.lat;
    var tab, tbc, tca := Turn(p, a, b), Turn(p, b, c), Turn(p, c, a);
    assert tbc * ah == bx * ch * ah - bh * cx * ah;
    assert tca * bh == cx * ah * bh - ch * ax * bh;
    assert tab * ch == ax * bh * ch - ah * bx * ch;
  }

  lemma Product(x: real, y: real, s: real)
    requires s == x * y
    ensures x > 0.0 && y > 0.0 ==> s > 0.0
    ensures x > 0.0 && y < 0.0 ==> s < 0.0
    ensures x < 0.0 && y > 0.0 ==> s < 0.0
    ensures x < 0.0 && y < 0.0 ==> s > 0.0
    ensures x == 0.0 || y == 0.0 ==> s == 0.0
  {
  }

  /** Weights that balance heights: all zero over heights of one strict sign, and otherwise zero
      except at height zero. */
  lemma Weights(u: real, x: real, v: real, y: real, w: real, z: real)
    requires u >= 0.0 && v >= 0.0 && w >= 0.0 && u * x + v * y + w * z == 0.0
    ensures x > 0.0 && y > 0.0 && z > 0.0 ==> u == 0.0 && v == 0.0 && w == 0.0
    ensures x <= 0.0 && y <= 0.0 && z <= 0.0 && u > 0.0 ==> x == 0.0
  {
    Product(u, x, u * x);
    Product(v, y, v * y);
    Product(w, z, w * z);
  }

  /** A vertex above the point between two that are not: what the two sides it ends agree on,
      the third side agrees to. */
  lemma MiddleUp(p: Point, a: Point, b: Point, c: Point)
    requires a.lat <= p.lat < b.lat && c.lat <= p.lat
    requires Side(p, a, b) == 1 && Side(p, b, c) == 1
    ensures Side(p, c, a) == 1
  {
    var ah, bh, ch := a.lat - p.lat, b.lat - p.lat, c.lat - p.lat;
    var tab, tbc, tca := Turn(p, a, b), Turn(p, b, c), Turn(p, c, a);
    HeightsCancel(p, a, b, c);
    assert tab > 0.0 && tbc >= 0.0;
    Product(tab, ch, tab * ch);
    Product(tbc, ah, tbc * ah);
    Product(tca, bh, tca * bh);
    assert tca >= 0.0;
    if tca == 0.0 {
      assert ch == 0.0;
      if ah == 0.0 {
        LevelTurns(p, a, b, c);
      }
    }
  }

  /** Two vertices level with the point, east and west of it. */
  lemma LevelTurns(p: Point, a: Point, b: Point, c: Point)
    requires a.lat == p.lat == c.lat && b.lat > p.lat && Turn(p, a, b) > 0.0 && Turn(p, b, c) >= 0.0
    ensures c.lon <= p.lon < a.lon
  {
    var bh := b.lat - p.lat;
    assert Turn(p, a, b) == (a.lon - p.lon) * bh;
    assert Turn(p, b, c) == (p.lon - c.lon) * bh;
    Product(a.lon - p.lon, bh, Turn(p, a, b));
    Product(p.lon - c.lon, bh, Turn(p, b, c));
  }

  /** The same with one vertex not above the point between two that are. */
  lemma MiddleDown(p: Point, a: Point, b: Point, c: Point)
    requires b.lat <= p.lat < a.lat && p.lat < c.lat
    requires Side(p, a, b) == 1 && Side(p, b, c) == 1
    ensures Side(p, c, a) == 1
  {
    var ah, bh, ch := a.lat - p.lat, b.lat - p.lat, c.lat - p.lat;
    var tab, tbc, tca := Turn(p, a, b), Turn(p, b, c), Turn(p, c, a);
    HeightsCancel(p, a, b, c);
    assert tab >= 0.0 && tbc > 0.0;
    Product(tab, ch, tab * ch);
    Product(tbc, ah, tbc * ah);
    Product(tca, bh, tca * bh);
  }

  /** No triangle turns one way about a point that all its vertices are above. */
  lemma AllUp(p: Point, a: Point, b: Point, c: Point)
    requires a.lat > p.lat && b.lat > p.lat && c.lat > p.lat
    ensures !(Side(p, a, b) == 1 && Side(p, b, c) == 1 && Side(p, c, a) == 1)
  {
    if Side(p, a, b) == 1 && Side(p, b, c) == 1 && Side(p, c, a) == 1 {
      HeightsCancel(p, a, b, c);
      Weights(Turn(p, b, c), a.lat - p.lat, Turn(p, c, a), b.lat - p.lat, Turn(p, a, b), c.lat - p.lat);
    }
  }

  /** Nor about one that none of them is above. */
  lemma AllDown(p: Point, a: Point, b: Point, c: Point)
    requires a.lat <= p.lat && b.lat <= p.lat && c.lat <= p.lat
    ensures !(Side(p, a, b) == 1 && Side(p, b, c) == 1 && Side(p, c, a) == 1)
  {
    if Side(p, a, b) == 1 && Side(p, b, c) == 1 && Side(p, c, a) == 1 {
      DownZeros(p, a, b, c);
      if Turn(p, a, b) > 0.0 {
        TopVertex(p, a, b, c);
      } else if Turn(p, b, c) > 0.0 {
        DownZeros(p, b, c, a);
        TopVertex(p, b, c, a);
      } else if Turn(p, c, a) > 0.0 {
        DownZeros(p, c, a, b);
        TopVertex(p, c, a, b);
      }
    }
  }

  lemma DownZeros(p: Point, a: Point, b: Point, c: Point)
    requires a.lat <= p.lat && b.lat <= p.lat && c.lat <= p.lat
    requires Side(p, a, b) == 1 && Side(p, b, c) == 1 && Side(p, c, a) == 1
    ensures Turn(p, a, b) > 0.0 ==> c.lat == p.lat
  {
    HeightsCancel(p, a, b, c);
    Weights(Turn(p, a, b), c.lat - p.lat, Turn(p, b, c), a.lat - p.lat, Turn(p, c, a), b.lat - p.lat);
  }

  /** With one vertex level with the point and the others below, the sides cannot agree. */
  lemma TopVertex(p: Point, a: Point, b: Point, c: Point)
    requires a.lat <= p.lat && b.lat <= p.lat && c.lat == p.lat && Turn(p, a, b) > 0.0
    ensures !(Side(p, b, c) == 1 && Side(p, c, a) == 1)
  {
    var ax, ah, bx, bh, cx := a.lon - p.lon, a.lat - p.lat, b.lon - p.lon, b.lat - p.lat, c.lon - p.lon;
    TopTurns(p, a, b, c);
    Product(-bh, cx, Turn(p, b, c));
    Product(cx, ah, Turn(p, c, a));
    Product(ax, bh, ax * bh);
    Product(ah, bx, ah * bx);
  }

  lemma TopTurns(p: Point, a: Point, b: Point, c: Point)
    requires c.lat == p.lat
    ensures Turn(p, b, c) == -(b.lat - p.lat) * (c.lon - p.lon)
    ensures Turn(p, c, a) == (c.lon - p.lon) * (a.lat - p.lat)
  {
  }

  /** The triangle rule for one arrangement: `b` is the vertex on its own side of the point's
      latitude, or none is. */
  lemma RuleAt(p: Point, a: Point, b: Point, c: Point)
    requires (a.lat > p.lat) == (c.lat > p.lat)
    ensures (Crosses(p, a, b) != (Crosses(p, b, c) != Crosses(p, c, a))) <==> Covers(p, a, b, c)
  {
    CrossingIsASide(p, a, b);
    CrossingIsASide(p, b, c);
    SideFlips(p, a, b);
    SideFlips(p, b, c);
    SideFlips(p, c, a);
    if (a.lat > p.lat) == (b.lat > p.lat) {
      if a.lat > p.lat {
        AllUp(p, a, b, c);
        AllUp(p, c, b, a);
      } else {
        AllDown(p, a, b, c);
        AllDown(p, c, b, a);
      }
    } else if Side(p, a, b) == Side(p, b, c) == 1 {
      if b.lat > p.lat { MiddleUp(p, a, b, c); } else { MiddleDown(p, a, b, c); }
    } else if Side(p, a, b) == Side(p, b, c) == -1 {
      if b.lat > p.lat { MiddleUp(p, c, b, a); } else { MiddleDown(p, c, b, a); }
    }
  }

  /** For every point and every three vertices the test says yes exactly in the triangle with
      its part of the boundary: strictly inside, and on the sides whose east is inside. */
  lemma TriangleRule(p: Point, a: Point, b: Point, c: Point)
    ensures InPolygon(p, [a, b, c]) <==> Covers(p, a, b, c)
  {
    TriangleParity(p, a, b, c);
    if (a.lat > p.lat) == (c.lat > p.lat) {
      RuleAt(p, a, b, c);
    } else if (b.lat > p.lat) == (a.lat > p.lat) {
      RuleAt(p, b, c, a);
    } else {
      RuleAt(p, c, a, b);
    }
  }

  /** The test says yes strictly inside a triangle, whichever way its vertices are listed. */
  lemma InsideTriangle(p: Point, a: Point, b: Point, c: Point)
    requires InTriangle(p, a, b, c)
    ensures InPolygon(p, [a, b, c])
  {
    TriangleRule(p, a, b, c);
  }

  /** The test says no wherever two sides turn opposite ways, and on flat triangles. */
  lemma OutsideTriangle(p: Point, a: Point, b: Point, c: Point)
    ensures InPolygon(p, [a, b, c]) ==>
              || (Turn(p, a, b) >= 0.0 && Turn(p, b, c) >= 0.0 && Turn(p, c, a) >= 0.0)
              || (Turn(p, a, b) <= 0.0 && Turn(p, b, c) <= 0.0 && Turn(p, c, a) <= 0.0)
    ensures InPolygon(p, [a, b, c]) ==> Turn(a, b, c) != 0.0
  {
    TriangleRule(p, a, b, c);
    assert Turn(a, b, c) == Turn(p, a, b) + Turn(p, b, c) + Turn(p, c, a);
  }

  /** The point a fraction `t` of the way from `a` to `b`. */
  function PartWay(a: Point, b: Point, t: real): Point {
    Point(a.lon + t * (b.lon - a.lon), a.lat + t * (b.lat - a.lat))
  }

  /** Which points of a side the test keeps: with the vertices counter-clockwise (a positive
      turn), those of a side that falls or runs level to the east; clockwise, the others. */
  lemma SideRule(a: Point, b: Point, c: Point, t: real)
    requires 0.0 < t < 1.0
    ensures Turn(a, b, c) != 0.0 ==>
              (InPolygon(PartWay(a, b, t), [a, b, c]) <==>
               (Turn(a, b, c) > 0.0 <==> a.lat > b.lat || (a.lat == b.lat && b.lon > a.lon)))
  {
    var p, whole := PartWay(a, b, t), Turn(a, b, c);
    TurnsAlong(a, b, c, t);
    Product(t, whole, Turn(p, c, a));
    Product(1.0 - t, whole, Turn(p, b, c));
    TriangleRule(p, a, b, c);
  }

  lemma TurnsAlong(a: Point, b: Point, c: Point, t: real)
    ensures
      var p, whole := PartWay(a, b, t), Turn(a, b, c);
      Turn(p, a, b) == 0.0 && Turn(p, c, a) == t * whole && Turn(p, b, c) == (1.0 - t) * whole
  {
    var p, whole := PartWay(a, b, t), Turn(a, b, c);
    var dx, dy, cx, cy := b.lon - a.lon, b.lat - a.lat, c.lon - a.lon, c.lat - a.lat;
    assert whole == dx * cy - dy * cx;
    assert Turn(p, a, b) == (-t * dx) * (dy - t * dy) - (-t * dy) * (dx - t * dx);
    assert Turn(p, c, a) == (cx - t * dx) * -(t * dy) - (cy - t * dy) * -(t * dx);
    assert t * whole == t * (dx * cy) - t * (dy * cx);
    assert whole == Turn(p, a, b) + Turn(p, b, c) + Turn(p, c, a);
    assert (1.0 - t) * whole == whole - t * whole;
  }

  /** How many triangles of the ring's fan cover the point. */
  function Coverings(p: Point, ring: Ring): nat {
    Rings.Covering((a, b, c) => Covers(p, a, b, c), ring)
  }

  /** The even-odd rule: for any ring and any point the test counts the triangles of the fan
      that cover the point, modulo two. */
  lemma EvenOddRule(p: Point, ring: Ring)
    ensures InPolygon(p, ring) <==> Coverings(p, ring) % 2 == 1
  {
    var holds := (a, b, c) => Covers(p, a, b, c);
    forall a, b, c ensures Rings.RingParity(Crossed(p), [a, b, c]) == holds(a, b, c) {
      TriangleRule(p, a, b, c);
    }
    Rings.EvenOdd(Crossed(p), holds, ring);
    CrossedIsSymmetric(p);
    Rings.FanOfTriangles(Crossed(p), ring);
    InPolygonIsParity(p, ring);
  }

  // ----- just east of a point

  function East(p: Point, d: real): Point { Point(p.lon + d, p.lat) }

  /** How far east of the point an edge's answer stays the same. */
  function EdgeRoom(p: Point, a: Point, b: Point): (room: real)
    ensures room > 0.0
  {
    if Crosses(p, a, b) then CrossingLon(p, a, b) - p.lon else 1.0
  }

  lemma EdgeEast(p: Point, a: Point, b: Point, d: real)
    requires 0.0 <= d < EdgeRoom(p, a, b)
    ensures Crosses(East(p, d), a, b) == Crosses(p, a, b)
  {
    if (a.lat > p.lat) != (b.lat > p.lat) {
      assert CrossingLon(East(p, d), a, b) == CrossingLon(p, a, b);
    }
  }

  lemma {:induction false} PathRoom(p: Point, path: seq<Point>) returns (room: real)
    ensures room > 0.0
    ensures forall i :: 0 <= i < |path| - 1 ==> room <= EdgeRoom(p, path[i], path[i + 1])
  {
    room := 1.0;
    if |path| >= 2 {
      var n := |path| - 1;
      var before := PathRoom(p, path[..n]);
      var last := EdgeRoom(p, path[n - 1], path[n]);
      room := if before <= last then before else last;
      forall i | 0 <= i < n ensures room <= EdgeRoom(p, path[i], path[i + 1]) {
        if i < n - 1 {
          assert room <= EdgeRoom(p, path[..n][i], path[..n][i + 1]);
        }
      }
    }
  }

  /** A point on the boundary is answered as the positions just east of it are: it is dropped
      exactly where those are outside. */
  lemma AnsweredAsEast(p: Point, ring: Ring) returns (room: real)
    ensures room > 0.0 && forall d :: 0.0 <= d < room ==> InPolygon(East(p, d), ring) == InPolygon(p, ring)
  {
    room := 1.0;
    if ring != [] {
      var path := ring + [ring[0]];
      room := PathRoom(p, path);
      forall d | 0.0 <= d < room ensures InPolygon(East(p, d), ring) == InPolygon(p, ring) {
        forall i | 0 <= i < |path| - 1
          ensures Crossed(p)(path[i], path[i + 1]) == Crossed(East(p, d))(path[i], path[i + 1])
        {
          EdgeEast(p, path[i], path[i + 1], d);
        }
        Rings.PathSame(Crossed(p), Crossed(East(p, d)), path);
      }
    }
  }

  // ----- the loop

  /** The containment loop: `j` trails one vertex behind `i`, starting from the last. */
  method PointInPolygon(p: Point, polygon: Ring) returns (inside: bool)
    ensures inside == InPolygon(p, polygon)
  {
    if |polygon| < 3 {
      return false;
    }
    inside := false;
    ghost var m := Crossed(p);
    CrossedIsSymmetric(p);
    var n := |polygon|;
    var j := n - 1;
    for i := 0 to n
      invariant j == if i == 0 then n - 1 else i - 1
      invariant inside ==
                (i > 0 && (m(polygon[0], polygon[n - 1]) != Rings.PathParity(m, polygon[..i])))
    {
      var vi, vj := polygon[i], polygon[j];
      if (vi.lat > p.lat) != (vj.lat > p.lat) {
        if p.lon < CrossingLon(p, vi, vj) {
          inside := !inside;
        }
      }
      if i > 0 {
        Rings.PathExtend(m, polygon[..i], vi);
        assert polygon[..i] + [vi] == polygon[..i + 1];
      }
      j := i;
    }
    assert polygon[..n] == polygon;
    Rings.PathExtend(m, polygon, polygon[0]);
  }
}
