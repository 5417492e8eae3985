/** Distance to a route in real arithmetic. The great-circle distance is a parameter: any
    function of two points. */
module Geo {
  datatype Point = Point(lat: real, lng: real)

  type Distance = (Point, Point) -> real

  function Mul(x: real, y: real): real {
    x * y
  }

  function Sq(x: real): real {
    Mul(x, x)
  }

  /** The squared distance in the degree plane. */
  function PlaneSq(p: Point, q: Point): real {
    Sq(q.lat - p.lat) + Sq(q.lng - p.lng)
  }

  function Dot(a: Point, b: Point, p: Point): real {
    Mul(p.lat - a.lat, b.lat - a.lat) + Mul(p.lng - a.lng, b.lng - a.lng)
  }

  function Along(a: Point, b: Point, t: real): Point {
    Point(a.lat + Mul(t, b.lat - a.lat), a.lng + Mul(t, b.lng - a.lng))
  }

  function Clamp(t: real): real {
    if t > 1.0 then 1.0 else if t < 0.0 then 0.0 else t
  }

  lemma PositiveProduct(x: real, y: real)
    requires (x > 0.0 && y > 0.0) || (x < 0.0 && y < 0.0)
    ensures Mul(x, y) > 0.0
  {
  }

  lemma SqPositive(x: real)
    ensures Sq(x) >= 0.0 && (x != 0.0 ==> Sq(x) > 0.0)
  {
    if x != 0.0 { PositiveProduct(x, x); }
  }

  lemma SquarePositive(a: Point, b: Point)
    requires a != b
    ensures PlaneSq(a, b) > 0.0
  {
    SqPositive(b.lat - a.lat);
    SqPositive(b.lng - a.lng);
    assert a.lat != b.lat || a.lng != b.lng;
  }

  /** The parameter of the projection of p on the line ab, clamped to the segment. */
  function Projection(p: Point, a: Point, b: Point): (t: real)
    requires a != b
    ensures 0.0 <= t <= 1.0
  {
    SquarePositive(a, b);
    Clamp(Dot(a, b, p) / PlaneSq(a, b))
  }

  function ClosestPoint(p: Point, a: Point, b: Point): Point {
    if a == b then a else Along(a, b, Projection(p, a, b))
  }

  function SegmentKm(km: Distance, p: Point, a: Point, b: Point): real {
    km(p, ClosestPoint(p, a, b))
  }

  function Parabola(q: real, d: real, t: real): real {
    Mul(Sq(t), q) - 2.0 * Mul(t, d)
  }

  lemma SquareOfSum(x: real, u: real, t: real)
    ensures Sq(x + Mul(t, u)) == Sq(x) + 2.0 * Mul(t, Mul(x, u)) + Mul(Sq(t), Sq(u))
  {
    assert (x + t * u) * (x + t * u) == x * x + x * (t * u) + (t * u) * x + (t * u) * (t * u);
  }

  lemma MulSum(x: real, y: real, z: real)
    ensures Mul(x, y + z) == Mul(x, y) + Mul(x, z)
  {
  }

  lemma MulNegated(x: real, y: real)
    ensures Mul(-x, y) == -Mul(x, y) && Mul(x, -y) == -Mul(x, y)
  {
  }

  /** The squared distance when a squared degree of longitude weighs w times one of latitude.
      Close to latitude phi the great-circle distance is, to first order, a multiple of the
      root of this with w the square of the cosine of phi. */
  function WeightedSq(w: real, p: Point, q: Point): real {
    Sq(q.lat - p.lat) + Mul(w, Sq(q.lng - p.lng))
  }

  function WeightedDot(w: real, a: Point, b: Point, p: Point): real {
    Mul(p.lat - a.lat, b.lat - a.lat) + Mul(w, Mul(p.lng - a.lng, b.lng - a.lng))
  }

  lemma UnitWeight(p: Point, a: Point, b: Point)
    ensures WeightedSq(1.0, a, b) == PlaneSq(a, b) && WeightedDot(1.0, a, b, p) == Dot(a, b, p)
  {
  }

  lemma WeightedPositive(w: real, a: Point, b: Point)
    requires w > 0.0 && a != b
    ensures WeightedSq(w, a, b) > 0.0
  {
    SqPositive(b.lat - a.lat);
    SqPositive(b.lng - a.lng);
    assert a.lat != b.lat || a.lng != b.lng;
    if a.lng != b.lng { PositiveProduct(w, Sq(b.lng - a.lng)); }
  }

  /** In one coordinate: x from p to a, u from a to b. */
  lemma CoordinateParabola(x: real, u: real, t: real)
    ensures Sq(x + Mul(t, u)) == Sq(x) + Parabola(Sq(u), Mul(-x, u), t)
  {
    SquareOfSum(x, u, t);
    MulNegated(x, u);
    MulNegated(t, Mul(x, u));
  }

  lemma ParabolaSum(q: real, d: real, w: real, r: real, e: real, t: real)
    ensures Parabola(q, d, t) + Mul(w, Parabola(r, e, t)) == Parabola(q + Mul(w, r), d + Mul(w, e), t)
  {
    MulSum(Sq(t), q, Mul(w, r));
    MulSum(t, d, Mul(w, e));
    assert Mul(Sq(t), Mul(w, r)) == Mul(w, Mul(Sq(t), r));
    assert Mul(t, Mul(w, e)) == Mul(w, Mul(t, e));
    assert Mul(w, Mul(Sq(t), r) - 2.0 * Mul(t, e)) == Mul(w, Mul(Sq(t), r)) - 2.0 * Mul(w, Mul(t, e));
  }

  /** Along the segment the squared distance from p is a parabola in t, for every weight. */
  lemma DistanceIsParabola(w: real, p: Point, a: Point, b: Point, t: real)
    ensures WeightedSq(w, p, Along(a, b, t))
            == WeightedSq(w, p, a) + Parabola(WeightedSq(w, a, b), WeightedDot(w, a, b, p), t)
  {
    var x, y, u, v := a.lat - p.lat, a.lng - p.lng, b.lat - a.lat, b.lng - a.lng;
    var q := Along(a, b, t);
    CoordinateParabola(x, u, t);
    CoordinateParabola(y, v, t);
    assert q.lat - p.lat == x + Mul(t, u) && q.lng - p.lng == y + Mul(t, v);
    assert -x == p.lat - a.lat && -y == p.lng - a.lng;
    MulSum(w, Sq(y), Parabola(Sq(v), Mul(-y, v), t));
    ParabolaSum(Sq(u), Mul(-x, u), w, Sq(v), Mul(-y, v), t);
  }

  /** How far above its value at c the parabola with vertex v is at t. */
  lemma ParabolaDifference(q: real, v: real, c: real, t: real)
    ensures Parabola(q, v * q, t) - Parabola(q, v * q, c) == q * ((t - c) * ((t - v) + (c - v)))
  {
    assert (t - c) * ((t - v) + (c - v)) == t * t - c * c - 2.0 * t * v + 2.0 * c * v;
  }

  lemma ProductNonNegative(x: real, y: real)
    requires (x >= 0.0 && y >= 0.0) || (x <= 0.0 && y <= 0.0)
    ensures x * y >= 0.0
  {
  }

  /** A parabola with positive leading coefficient q and vertex d / q is least, on [0, 1], at
      the clamped vertex. */
  lemma ClampedVertex(q: real, d: real, t: real)
    requires q > 0.0 && 0.0 <= t <= 1.0
    ensures Parabola(q, d, Clamp(d / q)) <= Parabola(q, d, t)
  {
    var v := d / q;
    var c := Clamp(v);
    assert d == v * q;
    ProductNonNegative(t - c, (t - v) + (c - v));
    ProductNonNegative(q, (t - c) * ((t - v) + (c - v)));
    ParabolaDifference(q, v, c, t);
  }

  /** And nowhere else. */
  lemma OnlyClampedVertex(q: real, d: real, t: real)
    requires q > 0.0 && 0.0 <= t <= 1.0 && t != Clamp(d / q)
    ensures Parabola(q, d, Clamp(d / q)) < Parabola(q, d, t)
  {
    var v := d / q;
    var c := Clamp(v);
    assert d == v * q;
    PositiveProduct(t - c, (t - v) + (c - v));
    PositiveProduct(q, Mul(t - c, (t - v) + (c - v)));
    ParabolaDifference(q, v, c, t);
  }

  /** The clamped projection is the point of the segment closest to p in the degree plane, for
      every p and every segment, degenerate ones included. */
  lemma ClosestInPlane(p: Point, a: Point, b: Point, t: real)
    requires 0.0 <= t <= 1.0
    ensures PlaneSq(p, ClosestPoint(p, a, b)) <= PlaneSq(p, Along(a, b, t))
  {
    if a == b {
      assert Along(a, b, t) == a;
    } else {
      SquarePositive(a, b);
      var c := Projection(p, a, b);
      UnitWeight(p, a, b);
      UnitWeight(p, p, Along(a, b, t));
      UnitWeight(p, p, Along(a, b, c));
      DistanceIsParabola(1.0, p, a, b, t);
      DistanceIsParabola(1.0, p, a, b, c);
      ClampedVertex(PlaneSq(a, b), Dot(a, b, p), t);
    }
  }

  // --------------------------------------- when that point is the nearest in kilometres

  /** The parameter that is best when longitude has weight w. */
  function WeightedProjection(w: real, p: Point, a: Point, b: Point): (t: real)
    requires w > 0.0 && a != b
    ensures 0.0 <= t <= 1.0
  {
    WeightedPositive(w, a, b);
    Clamp(WeightedDot(w, a, b, p) / WeightedSq(w, a, b))
  }

  /** No point of the segment ab is nearer to p than q is. */
  ghost predicate Nearest(w: real, p: Point, a: Point, b: Point, q: Point) {
    forall t :: 0.0 <= t <= 1.0 ==> WeightedSq(w, p, q) <= WeightedSq(w, p, Along(a, b, t))
  }

  lemma WeightedComparison(w: real, p: Point, a: Point, b: Point, t: real)
    requires w > 0.0 && a != b && 0.0 <= t <= 1.0
    ensures var c := WeightedProjection(w, p, a, b);
            if t == c then WeightedSq(w, p, Along(a, b, c)) == WeightedSq(w, p, Along(a, b, t))
            else WeightedSq(w, p, Along(a, b, c)) < WeightedSq(w, p, Along(a, b, t))
  {
    var c := WeightedProjection(w, p, a, b);
    WeightedPositive(w, a, b);
    DistanceIsParabola(w, p, a, b, t);
    DistanceIsParabola(w, p, a, b, c);
    if t != c { OnlyClampedVertex(WeightedSq(w, a, b), WeightedDot(w, a, b, p), t); }
  }

  /** For every weight of longitude: the point that the code measures to is the nearest of the
      segment if and only if the projections with and without the weight, clamped, agree. */
  lemma NearestExactly(w: real, p: Point, a: Point, b: Point)
    requires w > 0.0 && a != b
    ensures Nearest(w, p, a, b, ClosestPoint(p, a, b)) <==> Projection(p, a, b) == WeightedProjection(w, p, a, b)
  {
    var t, c := Projection(p, a, b), WeightedProjection(w, p, a, b);
    if t == c {
      forall r | 0.0 <= r <= 1.0
        ensures WeightedSq(w, p, ClosestPoint(p, a, b)) <= WeightedSq(w, p, Along(a, b, r))
      {
        WeightedComparison(w, p, a, b, r);
      }
    } else {
      WeightedComparison(w, p, a, b, t);
      assert WeightedSq(w, p, Along(a, b, c)) < WeightedSq(w, p, ClosestPoint(p, a, b));
    }
  }

  /** p lies on the line through a and b. */
  predicate OnLine(p: Point, a: Point, b: Point) {
    Mul(p.lat - a.lat, b.lng - a.lng) == Mul(p.lng - a.lng, b.lat - a.lat)
  }

  predicate AxisParallel(a: Point, b: Point) {
    a.lat == b.lat || a.lng == b.lng
  }

  lemma Fractions(d: real, q: real, e: real, r: real)
    requires q > 0.0 && r > 0.0
    ensures d / q == e / r <==> Mul(d, r) == Mul(e, q)
  {
    var m, n := d / q, e / r;
    assert d == m * q && e == n * r;
    assert d * r == m * (q * r) && e * q == n * (q * r);
    PositiveProduct(q, r);
    if m != n {
      SqPositive(m - n);
      assert (m - n) * (q * r) != 0.0 by { NonZero(m - n, q * r); }
    }
  }

  lemma NonZero(x: real, y: real)
    requires x != 0.0 && y != 0.0
    ensures x * y != 0.0
  {
  }

  /** The two fractions differ by a product of four factors. */
  lemma CrossDifference(w: real, x: real, y: real, u: real, v: real)
    ensures Mul(Mul(x, u) + Mul(y, v), Sq(u) + Mul(w, Sq(v))) - Mul(Mul(x, u) + Mul(w, Mul(y, v)), Sq(u) + Sq(v))
            == (w - 1.0) * ((u * v) * (Mul(x, v) - Mul(y, u)))
  {
    var xu, yv, uu, vv := x * u, y * v, u * u, v * v;
    assert (xu + yv) * (uu + w * vv) == xu * uu + yv * uu + w * (xu * vv) + w * (yv * vv);
    assert (xu + w * yv) * (uu + vv) == xu * uu + xu * vv + w * (yv * uu) + w * (yv * vv);
    assert (u * v) * (x * v - y * u) == xu * vv - yv * uu;
  }

  lemma FourFactors(w: real, u: real, v: real, c: real)
    ensures (w - 1.0) * ((u * v) * c) == 0.0 <==> w == 1.0 || u == 0.0 || v == 0.0 || c == 0.0
  {
    if w != 1.0 && u != 0.0 && v != 0.0 && c != 0.0 {
      NonZero(u, v);
      NonZero(u * v, c);
      NonZero(w - 1.0, (u * v) * c);
    }
  }

  lemma CrossExactly(w: real, x: real, y: real, u: real, v: real)
    ensures Mul(Mul(x, u) + Mul(y, v), Sq(u) + Mul(w, Sq(v))) == Mul(Mul(x, u) + Mul(w, Mul(y, v)), Sq(u) + Sq(v))
            <==> w == 1.0 || u == 0.0 || v == 0.0 || Mul(x, v) == Mul(y, u)
  {
    CrossDifference(w, x, y, u, v);
    FourFactors(w, u, v, Mul(x, v) - Mul(y, u));
  }

  /** Before clamping, the two projections agree exactly when longitude weighs as much as
      latitude, the segment runs along a meridian or a parallel, or p is on its line. */
  lemma SameProjectionExactly(w: real, p: Point, a: Point, b: Point)
    requires w > 0.0 && a != b
    ensures PlaneSq(a, b) > 0.0 && WeightedSq(w, a, b) > 0.0
    ensures Dot(a, b, p) / PlaneSq(a, b) == WeightedDot(w, a, b, p) / WeightedSq(w, a, b)
            <==> w == 1.0 || AxisParallel(a, b) || OnLine(p, a, b)
  {
    SquarePositive(a, b);
    WeightedPositive(w, a, b);
    CrossExactly(w, p.lat - a.lat, p.lng - a.lng, b.lat - a.lat, b.lng - a.lng);
    Fractions(Dot(a, b, p), PlaneSq(a, b), WeightedDot(w, a, b, p), WeightedSq(w, a, b));
  }

  /** So along meridians and parallels, and for points on the segment's line, the code's point
      is the nearest one whatever longitude weighs. */
  lemma NearestOnAxes(w: real, p: Point, a: Point, b: Point)
    requires w > 0.0 && a != b && (AxisParallel(a, b) || OnLine(p, a, b))
    ensures Nearest(w, p, a, b, ClosestPoint(p, a, b))
  {
    SameProjectionExactly(w, p, a, b);
    NearestExactly(w, p, a, b);
  }

  /** Everywhere else, if neither projection falls outside the segment, it is not, unless the
      weight is one. */
  lemma NotNearestBetween(w: real, p: Point, a: Point, b: Point)
    requires w > 0.0 && w != 1.0 && a != b && !AxisParallel(a, b) && !OnLine(p, a, b)
    requires 0.0 < Projection(p, a, b) < 1.0
    ensures !Nearest(w, p, a, b, ClosestPoint(p, a, b))
  {
    SameProjectionExactly(w, p, a, b);
    NearestExactly(w, p, a, b);
  }

  /** p is a right-angled corner over the diagonal ab of a one-degree square. */
  predicate Corner(p: Point, a: Point, b: Point) {
    p.lat - a.lat == b.lat - a.lat == b.lng - a.lng == 1.0 && p.lng == a.lng
  }

  lemma CornerValues(p: Point, a: Point, b: Point)
    requires Corner(p, a, b)
    ensures Dot(a, b, p) == 1.0 && PlaneSq(a, b) == 2.0 && !AxisParallel(a, b) && !OnLine(p, a, b)
  {
  }

  lemma CornerHalfway(p: Point, a: Point, b: Point)
    requires Corner(p, a, b) && a != b
    ensures Projection(p, a, b) == 0.5
  {
    CornerValues(p, a, b);
  }

  /** Off the equator it fails at every such corner. */
  lemma CornerNotNearest(w: real, p: Point, a: Point, b: Point)
    requires w > 0.0 && w != 1.0 && Corner(p, a, b)
    ensures !Nearest(w, p, a, b, ClosestPoint(p, a, b))
  {
    CornerValues(p, a, b);
    CornerHalfway(p, a, b);
    NotNearestBetween(w, p, a, b);
  }

  /** At sixty degrees north a squared degree of longitude weighs a quarter. */
  lemma NotAlwaysNearest(p: Point, a: Point, b: Point)
    requires a == Point(60.0, 0.0) && b == Point(61.0, 1.0) && p == Point(61.0, 0.0)
    ensures !Nearest(0.25, p, a, b, ClosestPoint(p, a, b))
  {
    CornerNotNearest(0.25, p, a, b);
  }

  // ------------------------------------------------------------------- the whole route

  const FAR: real := 1000000000000000000.0

  /** Along(a, b, t) is the point of the segment closest to p in the degree plane. */
  ghost predicate ClosestAt(p: Point, a: Point, b: Point, t: real) {
    && 0.0 <= t <= 1.0
    && forall r :: 0.0 <= r <= 1.0 ==> PlaneSq(p, Along(a, b, t)) <= PlaneSq(p, Along(a, b, r))
  }

  /** d is the distance from p to the closest point of the leg from a to b. */
  ghost predicate LegDistance(km: Distance, p: Point, a: Point, b: Point, d: real) {
    exists t :: ClosestAt(p, a, b, t) && d == km(p, Along(a, b, t))
  }

  lemma AlongItself(a: Point, t: real)
    ensures Along(a, a, t) == a
  {
  }

  lemma OnlyProjectionIsClosest(p: Point, a: Point, b: Point, t: real)
    requires a != b && ClosestAt(p, a, b, t)
    ensures t == Projection(p, a, b)
  {
    var c := Projection(p, a, b);
    UnitWeight(p, a, b);
    UnitWeight(p, p, Along(a, b, t));
    UnitWeight(p, p, Along(a, b, c));
    WeightedComparison(1.0, p, a, b, t);
    assert PlaneSq(p, Along(a, b, t)) <= PlaneSq(p, Along(a, b, c));
  }

  lemma ProjectionIsClosest(p: Point, a: Point, b: Point)
    ensures ClosestAt(p, a, b, if a == b then 0.0 else Projection(p, a, b))
  {
    var t := if a == b then 0.0 else Projection(p, a, b);
    forall r | 0.0 <= r <= 1.0 ensures PlaneSq(p, Along(a, b, t)) <= PlaneSq(p, Along(a, b, r)) {
      if a == b {
        AlongItself(a, t);
        AlongItself(a, r);
      } else {
        ClosestInPlane(p, a, b, r);
      }
    }
  }

  /** `pointToSegmentDistanceKm` measures to the closest point of the segment and to no other. */
  lemma SegmentExactly(km: Distance, p: Point, a: Point, b: Point, d: real)
    ensures d == SegmentKm(km, p, a, b) <==> LegDistance(km, p, a, b, d)
  {
    ProjectionIsClosest(p, a, b);
    AlongItself(a, 0.0);
    if LegDistance(km, p, a, b, d) {
      var t :| ClosestAt(p, a, b, t) && d == km(p, Along(a, b, t));
      if a == b { AlongItself(a, t); } else { OnlyProjectionIsClosest(p, a, b, t); }
    }
  }

  ghost predicate DistanceToLeg(km: Distance, p: Point, stops: seq<Point>, i: int, d: real) {
    0 <= i < |stops| - 1 && LegDistance(km, p, stops[i], stops[i + 1], d)
  }

  /** What `minDistanceToRoute` promises: 0 without stops, the distance to a single one, and
      otherwise the least distance to a leg, or 1e18 if every leg is at least that far. */
  ghost predicate RouteDistance(km: Distance, p: Point, stops: seq<Point>, min: real) {
    if |stops| == 0 then min == 0.0
    else if |stops| == 1 then min == km(p, stops[0])
    else
      && min <= 1000000000000000000.0
      && (forall i, d :: DistanceToLeg(km, p, stops, i, d) ==> min <= d)
      && (min == 1000000000000000000.0 || exists i :: DistanceToLeg(km, p, stops, i, min))
  }

  method MinDistanceToRoute(km: Distance, p: Point, stops: seq<Point>) returns (min: real)
    ensures RouteDistance(km, p, stops, min)
  {
    if |stops| == 0 {
      return 0.0;
    }
    if |stops| == 1 {
      return km(p, stops[0]);
    }
    min := FAR;
    for i := 0 to |stops| - 1
      invariant min <= FAR && forall k :: 0 <= k < i ==> min <= SegmentKm(km, p, stops[k], stops[k + 1])
      invariant min == FAR || exists k :: 0 <= k < i && min == SegmentKm(km, p, stops[k], stops[k + 1])
    {
      var dist := SegmentKm(km, p, stops[i], stops[i + 1]);
      if dist < min {
        min := dist;
      }
    }
    forall i, d | DistanceToLeg(km, p, stops, i, d) ensures min <= d {
      SegmentExactly(km, p, stops[i], stops[i + 1], d);
    }
    if min != FAR {
      var i :| 0 <= i < |stops| - 1 && min == SegmentKm(km, p, stops[i], stops[i + 1]);
      SegmentExactly(km, p, stops[i], stops[i + 1], min);
      assert DistanceToLeg(km, p, stops, i, min);
    }
  }
}
