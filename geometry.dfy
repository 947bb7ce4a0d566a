/**
  * The pure geometry behind rectangle selection: rectangle normalisation,
  * the orientation-based segment intersection test and the
  * segment-versus-rectangle test built on it (selection.py:15-69).
  *
  * Coordinates are exact reals; floating-point rounding is not modelled.
  */
module Geometry {

  /** A point in scene space (the `(x, y)` tuples of selection.py). */
  datatype Point = Point(x: real, y: real)

  /** An axis-aligned rectangle given by its bounds. */
  datatype Rect = Rect(xMin: real, xMax: real, yMin: real, yMax: real)

  function Min(a: real, b: real): real { if a <= b then a else b }
  function Max(a: real, b: real): real { if a <= b then b else a }

  /** Closed-box membership: points on the border count as inside. */
  predicate InRect(p: Point, r: Rect) {
    r.xMin <= p.x <= r.xMax && r.yMin <= p.y <= r.yMax
  }

  /**
    * The rectangle spanned by two drag corners: each axis is the sorted pair
    * of the corners' coordinates (selection.py:15-19).
    */
  function NormalizeRect(a: Point, b: Point): (r: Rect)
    ensures r.xMin <= r.xMax && r.yMin <= r.yMax
    ensures (r.xMin, r.xMax) == (a.x, b.x) || (r.xMin, r.xMax) == (b.x, a.x)
    ensures (r.yMin, r.yMax) == (a.y, b.y) || (r.yMin, r.yMax) == (b.y, a.y)
  {
    Rect(Min(a.x, b.x), Max(a.x, b.x), Min(a.y, b.y), Max(a.y, b.y))
  }

  /** Which corner the drag started from does not matter. */
  lemma NormalizeRectSymmetric(a: Point, b: Point)
    ensures NormalizeRect(a, b) == NormalizeRect(b, a)
  {
  }

  /**
    * A point is in the normalised rectangle exactly when each of its
    * coordinates lies between the two corners' coordinates, in either order.
    */
  lemma InNormalizedRect(p: Point, a: Point, b: Point)
    ensures InRect(p, NormalizeRect(a, b)) <==>
      && (a.x <= p.x <= b.x || b.x <= p.x <= a.x)
      && (a.y <= p.y <= b.y || b.y <= p.y <= a.y)
  {
  }

  // ---------------------------------------------------------------------
  // Orientation and segment intersection (selection.py:23-51)
  // ---------------------------------------------------------------------

  function Sub(a: Point, b: Point): Point { Point(a.x - b.x, a.y - b.y) }

  /** The two-dimensional cross product of two vectors. */
  function Cross(u: Point, v: Point): real { u.x * v.y - u.y * v.x }

  /** The quantity `val` that orientation computes for `p`, `q`, `r`. */
  function OrientValue(p: Point, q: Point, r: Point): real {
    (q.y - p.y) * (r.x - q.x) - (q.x - p.x) * (r.y - q.y)
  }

  /**
    * Orientation of the triple: 0 when collinear, 1 for a clockwise turn and
    * 2 for a counter-clockwise one, measured by the cross product of
    * `q - p` and `r - p` in a y-up frame.
    */
  function Orientation(p: Point, q: Point, r: Point): (o: int)
    ensures o == 0 <==> Cross(Sub(q, p), Sub(r, p)) == 0.0
    ensures o == 1 <==> Cross(Sub(q, p), Sub(r, p)) < 0.0
    ensures o == 2 <==> Cross(Sub(q, p), Sub(r, p)) > 0.0
  {
    Sign(OrientValue(p, q, r))
  }

  /** The class (zero, positive, negative) that orientation assigns to a value. */
  function Sign(v: real): int { if v == 0.0 then 0 else if v > 0.0 then 1 else 2 }

  /** `q` lies in the bounding box of `p` and `r`. */
  predicate OnSegment(p: Point, q: Point, r: Point) {
    Min(p.x, r.x) <= q.x <= Max(p.x, r.x) && Min(p.y, r.y) <= q.y <= Max(p.y, r.y)
  }

  /** The classic orientation test for segments `p1q1` and `p2q2`. */
  predicate DoIntersect(p1: Point, q1: Point, p2: Point, q2: Point) {
    var o1 := Orientation(p1, q1, p2);
    var o2 := Orientation(p1, q1, q2);
    var o3 := Orientation(p2, q2, p1);
    var o4 := Orientation(p2, q2, q1);
    || (o1 != o2 && o3 != o4)
    || (o1 == 0 && OnSegment(p1, p2, q1))
    || (o2 == 0 && OnSegment(p1, q2, q1))
    || (o3 == 0 && OnSegment(p2, p1, q2))
    || (o4 == 0 && OnSegment(p2, q1, q2))
  }

  /** The test does not depend on which segment is named first. */
  lemma DoIntersectSymmetric(p1: Point, q1: Point, p2: Point, q2: Point)
    ensures DoIntersect(p1, q1, p2, q2) == DoIntersect(p2, q2, p1, q1)
  {
  }

  /** Swapping the two ends of a segment turns clockwise into counter-clockwise. */
  lemma OrientationReversed(p: Point, q: Point, r: Point)
    ensures OrientValue(q, p, r) == -OrientValue(p, q, r)
    ensures Orientation(q, p, r) == Flip(Orientation(p, q, r))
  {
  }

  /** Exchanges the two turn directions and leaves "collinear" alone. */
  function Flip(o: int): int { if o == 1 then 2 else if o == 2 then 1 else o }

  /** The test does not depend on the direction of either segment. */
  lemma DoIntersectReversed(p1: Point, q1: Point, p2: Point, q2: Point)
    ensures DoIntersect(q1, p1, p2, q2) == DoIntersect(p1, q1, p2, q2)
    ensures DoIntersect(p1, q1, q2, p2) == DoIntersect(p1, q1, p2, q2)
  {
    FirstReversed(p1, q1, p2, q2);
    FirstReversed(p2, q2, p1, q1);
    DoIntersectSymmetric(p1, q1, q2, p2);
    DoIntersectSymmetric(p1, q1, p2, q2);
  }

  /** Reversing the first segment flips `o1` and `o2` and exchanges `o3` and `o4`. */
  lemma FirstReversed(p1: Point, q1: Point, p2: Point, q2: Point)
    ensures DoIntersect(q1, p1, p2, q2) == DoIntersect(p1, q1, p2, q2)
  {
    OrientationReversed(p1, q1, p2);
    OrientationReversed(p1, q1, q2);
  }

  /** Segments that share an endpoint always intersect. */
  lemma SharedEndpointIntersects(p1: Point, q1: Point, p2: Point, q2: Point)
    requires p2 == p1 || p2 == q1 || q2 == p1 || q2 == q1
    ensures DoIntersect(p1, q1, p2, q2)
  {
    if p2 == p1 || p2 == q1 {
      assert OrientValue(p1, q1, p2) == 0.0;
    } else {
      assert OrientValue(p1, q1, q2) == 0.0;
    }
  }

  // ---------------------------------------------------------------------
  // Soundness: strictly separated segments never intersect
  // ---------------------------------------------------------------------

  /** The affine function `a*x + b*y + c`, whose sign tells a half-plane. */
  datatype Line = Line(a: real, b: real, c: real)

  function Level(l: Line, p: Point): real { l.a * p.x + l.b * p.y + l.c }

  /**
    * The orientation values of four points satisfy one linear relation, and
    * the same relation weighted by any affine function: the two lines meet
    * at the point both segments' orientation values describe.
    */
  lemma FourPointIdentity(p1: Point, q1: Point, p2: Point, q2: Point, l: Line)
    ensures
      var A, B := OrientValue(p1, q1, p2), OrientValue(p1, q1, q2);
      var C, E := OrientValue(p2, q2, p1), OrientValue(p2, q2, q1);
      && B - A == C - E
      && B * Level(l, p2) - A * Level(l, q2) + E * Level(l, p1) - C * Level(l, q1) == 0.0
  {
    var A, B := OrientValue(p1, q1, p2), OrientValue(p1, q1, q2);
    var C, E := OrientValue(p2, q2, p1), OrientValue(p2, q2, q1);
    var Z := B - A + E - C;
    var X := B * p2.x - A * q2.x + E * p1.x - C * q1.x;
    var Y := B * p2.y - A * q2.y + E * p1.y - C * q1.y;
    assert Z == 0.0 && X == 0.0 && Y == 0.0;
    calc {
      B * Level(l, p2) - A * Level(l, q2) + E * Level(l, p1) - C * Level(l, q1);
      l.a * X + l.b * Y + l.c * Z;
      l.a * 0.0 + l.b * 0.0 + l.c * 0.0;
      0.0;
    }
  }

  /** The sign of a product follows from the signs of its factors, and only a zero factor gives zero. */
  lemma ProductSigns(u: real, v: real)
    ensures u >= 0.0 && v >= 0.0 ==> u * v >= 0.0
    ensures u <= 0.0 && v <= 0.0 ==> u * v >= 0.0
    ensures u >= 0.0 && v <= 0.0 ==> u * v <= 0.0
    ensures u <= 0.0 && v >= 0.0 ==> u * v <= 0.0
    ensures u * v == 0.0 ==> u == 0.0 || v == 0.0
  {
  }

  /**
    * A point that is collinear with `p` and `r` and in their bounding box is
    * `p + t * (r - p)` for some `t` between 0 and 1.
    */
  lemma CollinearParameter(p: Point, q: Point, r: Point) returns (t: real)
    requires OrientValue(p, r, q) == 0.0 && OnSegment(p, q, r)
    ensures 0.0 <= t <= 1.0
    ensures q.x - p.x == t * (r.x - p.x) && q.y - p.y == t * (r.y - p.y)
  {
    var ux, uy := r.x - p.x, r.y - p.y;
    var wx, wy := q.x - p.x, q.y - p.y;
    assert ux * wy == uy * wx;
    if ux != 0.0 {
      t := Ratio(wx, ux);
      calc {
        ux * wy;
        uy * wx;
        uy * (t * ux);
        ux * (t * uy);
      }
      CancelFactor(ux, wy, t * uy);
    } else if uy != 0.0 {
      t := Ratio(wy, uy);
    } else {
      t := 0.0;
    }
  }

  /** `w / u` when `w` lies between zero and `u`: a fraction in the unit interval. */
  lemma Ratio(w: real, u: real) returns (t: real)
    requires u != 0.0 && Min(0.0, u) <= w <= Max(0.0, u)
    ensures 0.0 <= t <= 1.0 && w == t * u
  {
    t := w / u;
    if u > 0.0 {
      assert u * (1.0 - t) == u - w;
    } else {
      assert -u * (1.0 - t) == w - u;
    }
  }

  /** Multiplying by a non-zero factor is one-to-one. */
  lemma CancelFactor(s: real, a: real, b: real)
    requires s != 0.0 && s * a == s * b
    ensures a == b
  {
    assert s * (a - b) == 0.0;
  }

  /**
    * An affine function that is negative at both ends of segment `pr` is
    * negative at every point of it that the orientation test accepts.
    */
  lemma CollinearBetween(p: Point, q: Point, r: Point, l: Line)
    requires OrientValue(p, r, q) == 0.0 && OnSegment(p, q, r)
    requires Level(l, p) < 0.0 && Level(l, r) < 0.0
    ensures Level(l, q) < 0.0
  {
    var t := CollinearParameter(p, q, r);
    var d := Level(l, r) - Level(l, p);
    assert d == l.a * (r.x - p.x) + l.b * (r.y - p.y);
    assert Level(l, q) == Level(l, p) + l.a * (q.x - p.x) + l.b * (q.y - p.y);
    assert l.a * (q.x - p.x) + l.b * (q.y - p.y) == t * d;
    assert Level(l, q) == (1.0 - t) * Level(l, p) + t * Level(l, r);
    ProductSigns(1.0 - t, Level(l, p));
    ProductSigns(t, Level(l, r));
  }

  /**
    * The sign argument behind separation: given the four-point relation, the
    * values at the first segment's ends negative and at the second's
    * non-negative, the orientation values cannot straddle on both segments.
    */
  lemma NoStraddle(A: real, B: real, C: real, E: real, lp1: real, lq1: real, lp2: real, lq2: real)
    requires lp1 < 0.0 && lq1 < 0.0 && lp2 >= 0.0 && lq2 >= 0.0
    requires B - A == C - E
    requires B * lp2 - A * lq2 + E * lp1 - C * lq1 == 0.0
    ensures !(Sign(A) != Sign(B) && Sign(C) != Sign(E))
  {
    ProductSigns(B, lp2);
    ProductSigns(A, lq2);
    ProductSigns(E, lp1);
    ProductSigns(C, lq1);
  }

  /** `CollinearBetween` for an affine function that is non-negative at both ends. */
  lemma CollinearBetweenNonNegative(p: Point, q: Point, r: Point, l: Line)
    requires OrientValue(p, r, q) == 0.0 && OnSegment(p, q, r)
    requires Level(l, p) >= 0.0 && Level(l, r) >= 0.0
    ensures Level(l, q) >= 0.0
  {
    var t := CollinearParameter(p, q, r);
    var d := Level(l, r) - Level(l, p);
    assert d == l.a * (r.x - p.x) + l.b * (r.y - p.y);
    assert l.a * (q.x - p.x) + l.b * (q.y - p.y) == t * d;
    assert Level(l, q) == (1.0 - t) * Level(l, p) + t * Level(l, r);
    ProductSigns(1.0 - t, Level(l, p));
    ProductSigns(t, Level(l, r));
  }

  /**
    * Two segments that an affine function strictly separates (negative at
    * both ends of the first, non-negative at both ends of the second) do not
    * intersect according to the orientation test.
    */
  lemma SeparatedSegmentsDoNotIntersect(p1: Point, q1: Point, p2: Point, q2: Point, l: Line)
    requires Level(l, p1) < 0.0 && Level(l, q1) < 0.0
    requires Level(l, p2) >= 0.0 && Level(l, q2) >= 0.0
    ensures !DoIntersect(p1, q1, p2, q2)
  {
    var A, B := OrientValue(p1, q1, p2), OrientValue(p1, q1, q2);
    var C, E := OrientValue(p2, q2, p1), OrientValue(p2, q2, q1);
    FourPointIdentity(p1, q1, p2, q2, l);
    NoStraddle(A, B, C, E, Level(l, p1), Level(l, q1), Level(l, p2), Level(l, q2));
    // The collinear cases would put an endpoint of one segment on the other.
    if A == 0.0 && OnSegment(p1, p2, q1) {
      CollinearBetween(p1, p2, q1, l);
    }
    if B == 0.0 && OnSegment(p1, q2, q1) {
      CollinearBetween(p1, q2, q1, l);
    }
    if C == 0.0 && OnSegment(p2, p1, q2) {
      CollinearBetweenNonNegative(p2, p1, q2, l);
    }
    if E == 0.0 && OnSegment(p2, q1, q2) {
      CollinearBetweenNonNegative(p2, q1, q2, l);
    }
  }

  // ---------------------------------------------------------------------
  // Completeness: segments with a common point always intersect
  // ---------------------------------------------------------------------

  /** The point a fraction `t` of the way from `p` to `q`. */
  function Lerp(p: Point, q: Point, t: real): Point {
    Point(p.x + t * (q.x - p.x), p.y + t * (q.y - p.y))
  }

  /** A point of a segment is collinear with its ends and in their bounding box. */
  lemma LerpOnSegment(p: Point, q: Point, t: real)
    requires 0.0 <= t <= 1.0
    ensures OrientValue(p, q, Lerp(p, q, t)) == 0.0
    ensures OnSegment(p, Lerp(p, q, t), q)
  {
    var dx, dy := q.x - p.x, q.y - p.y;
    var m := Lerp(p, q, t);
    assert m.x - q.x == (t - 1.0) * dx;
    assert m.y - q.y == (t - 1.0) * dy;
    assert dy * ((t - 1.0) * dx) == dx * ((t - 1.0) * dy);
    ProductSigns(t, dx);
    ProductSigns(1.0 - t, dx);
    ProductSigns(t, dy);
    ProductSigns(1.0 - t, dy);
  }

  /** Along any segment `ab`, the orientation value relative to `pq` changes affinely. */
  lemma OrientValueLerp(p: Point, q: Point, a: Point, b: Point, t: real)
    ensures OrientValue(p, q, Lerp(a, b, t))
      == OrientValue(p, q, a) + t * (OrientValue(p, q, b) - OrientValue(p, q, a))
  {
    var dx, dy := q.x - p.x, q.y - p.y;
    var ux, uy := b.x - a.x, b.y - a.y;
    assert OrientValue(p, q, b) - OrientValue(p, q, a) == dy * ux - dx * uy;
    assert OrientValue(p, q, Lerp(a, b, t)) == OrientValue(p, q, a) + dy * (t * ux) - dx * (t * uy);
    assert t * (dy * ux - dx * uy) == dy * (t * ux) - dx * (t * uy);
  }

  /**
    * When `A + u * (B - A)` vanishes for `u` in [0, 1]: non-zero `A` and `B`
    * have opposite signs, and if exactly one of them is zero then `u` is the
    * end of the interval at which the value is that one.
    */
  lemma VanishingCombination(A: real, B: real, u: real)
    requires 0.0 <= u <= 1.0 && A + u * (B - A) == 0.0
    ensures A != 0.0 && B != 0.0 ==> Sign(A) != Sign(B)
    ensures A == 0.0 && B != 0.0 ==> u == 0.0
    ensures A != 0.0 && B == 0.0 ==> u == 1.0
  {
    assert A + u * (B - A) == (1.0 - u) * A + u * B;
    ProductSigns(1.0 - u, A);
    ProductSigns(u, B);
  }

  /** Three or more collinear points: a point of the line through `p != q` is `Lerp(p, q, a)` for some `a`. */
  lemma LineParameter(p: Point, q: Point, r: Point) returns (a: real)
    requires p != q && OrientValue(p, q, r) == 0.0
    ensures r == Lerp(p, q, a)
  {
    var dx, dy := q.x - p.x, q.y - p.y;
    var wx, wy := r.x - p.x, r.y - p.y;
    assert dy * (wx - dx) == dx * (wy - dy);
    if dx != 0.0 {
      a := AxisParameter(dx, dy, wx, wy);
    } else {
      a := AxisParameter(dy, dx, wy, wx);
    }
  }

  /**
    * `LineParameter` on coordinates: a vector `w` parallel to `d`, with `d`
    * non-zero on the first axis, is a multiple of `d`.
    */
  lemma AxisParameter(dx: real, dy: real, wx: real, wy: real) returns (a: real)
    requires dx != 0.0 && dy * (wx - dx) == dx * (wy - dy)
    ensures wx == a * dx && wy == a * dy
  {
    a := wx / dx;
    assert a * dx == wx;
    calc {
      dx * (wy - dy);
      dy * (a * dx - dx);
      dx * ((a - 1.0) * dy);
    }
    CancelFactor(dx, wy - dy, (a - 1.0) * dy);
  }

  /** A point between two points of a line is again a point of that line. */
  lemma LerpCompose(p: Point, q: Point, a: real, b: real, u: real)
    ensures Lerp(Lerp(p, q, a), Lerp(p, q, b), u) == Lerp(p, q, a + u * (b - a))
  {
    ScalarCompose(p.x, q.x - p.x, a, b, u);
    ScalarCompose(p.y, q.y - p.y, a, b, u);
  }

  /** `LerpCompose` on one coordinate. */
  lemma ScalarCompose(c: real, d: real, a: real, b: real, u: real)
    ensures (c + a * d) + u * ((c + b * d) - (c + a * d)) == c + (a + u * (b - a)) * d
  {
    calc {
      (c + a * d) + u * ((c + b * d) - (c + a * d));
      (c + a * d) + u * ((b - a) * d);
      (c + a * d) + (u * (b - a)) * d;
      c + (a + u * (b - a)) * d;
    }
  }

  /** Distinct ends give distinct points for distinct fractions. */
  lemma LerpInjective(p: Point, q: Point, s: real, t: real)
    requires p != q && Lerp(p, q, s) == Lerp(p, q, t)
    ensures s == t
  {
    if q.x != p.x {
      CancelFactor(q.x - p.x, s, t);
    } else {
      CancelFactor(q.y - p.y, s, t);
    }
  }

  /**
    * Two fractions outside [0, 1] whose combination lies inside it are on
    * opposite sides of the interval.
    */
  lemma OppositeOutside(a: real, b: real, u: real)
    requires 0.0 <= u <= 1.0 && 0.0 <= a + u * (b - a) <= 1.0
    requires !(0.0 <= a <= 1.0) && !(0.0 <= b <= 1.0)
    ensures (a < 0.0 && b > 1.0) || (a > 1.0 && b < 0.0)
  {
    if a < 0.0 && b < 0.0 {
      assert a + u * (b - a) == (1.0 - u) * a + u * b;
      ProductSigns(1.0 - u, a);
      ProductSigns(u, b);
    } else if a > 1.0 && b > 1.0 {
      assert a + u * (b - a) - 1.0 == (1.0 - u) * (a - 1.0) + u * (b - 1.0);
      ProductSigns(1.0 - u, a - 1.0);
      ProductSigns(u, b - 1.0);
    }
  }

  /**
    * The test for segments on one line through `p1` and `q1`: when they
    * share a point, an end of one lies on the other.
    */
  lemma CollinearOverlap(p1: Point, q1: Point, p2: Point, q2: Point, t: real, u: real)
    requires 0.0 <= t <= 1.0 && 0.0 <= u <= 1.0
    requires Lerp(p1, q1, t) == Lerp(p2, q2, u)
    requires OrientValue(p1, q1, p2) == 0.0 && OrientValue(p1, q1, q2) == 0.0
    ensures DoIntersect(p1, q1, p2, q2)
  {
    if OnSegment(p1, p2, q1) || OnSegment(p1, q2, q1) {
    } else if p1 == q1 {
      assert Lerp(p1, q1, t) == p1;
      LerpOnSegment(p2, q2, u);
    } else {
      var a := LineParameter(p1, q1, p2);
      var b := LineParameter(p1, q1, q2);
      LerpCompose(p1, q1, a, b, u);
      LerpInjective(p1, q1, t, a + u * (b - a));
      assert !(0.0 <= a <= 1.0) by {
        if 0.0 <= a <= 1.0 { LerpOnSegment(p1, q1, a); }
      }
      assert !(0.0 <= b <= 1.0) by {
        if 0.0 <= b <= 1.0 { LerpOnSegment(p1, q1, b); }
      }
      OppositeOutside(a, b, u);
      // `p1` is the point of `p2q2` at fraction `a / (a - b)`.
      var s := Ratio(a, a - b);
      LerpCompose(p1, q1, a, b, s);
      assert a + s * (b - a) == 0.0;
      assert Lerp(p1, q1, 0.0) == p1;
      LerpOnSegment(p2, q2, s);
    }
  }

  /**
    * Segments that have a point in common always pass the test: the point a
    * fraction `t` along the first is the point a fraction `u` along the
    * second.
    */
  lemma CommonPointIntersects(p1: Point, q1: Point, p2: Point, q2: Point, t: real, u: real)
    requires 0.0 <= t <= 1.0 && 0.0 <= u <= 1.0
    requires Lerp(p1, q1, t) == Lerp(p2, q2, u)
    ensures DoIntersect(p1, q1, p2, q2)
  {
    var A, B := OrientValue(p1, q1, p2), OrientValue(p1, q1, q2);
    var C, E := OrientValue(p2, q2, p1), OrientValue(p2, q2, q1);
    LerpOnSegment(p1, q1, t);
    LerpOnSegment(p2, q2, u);
    OrientValueLerp(p1, q1, p2, q2, u);
    OrientValueLerp(p2, q2, p1, q1, t);
    VanishingCombination(A, B, u);
    VanishingCombination(C, E, t);
    if A == 0.0 && B == 0.0 {
      CollinearOverlap(p1, q1, p2, q2, t, u);
    } else if C == 0.0 && E == 0.0 {
      CollinearOverlap(p2, q2, p1, q1, u, t);
      DoIntersectSymmetric(p1, q1, p2, q2);
    } else if A == 0.0 {
      assert Lerp(p2, q2, 0.0) == p2;
    } else if B == 0.0 {
      assert Lerp(p2, q2, 1.0) == q2;
    } else if C == 0.0 {
      assert Lerp(p1, q1, 0.0) == p1;
    } else if E == 0.0 {
      assert Lerp(p1, q1, 1.0) == q1;
    }
  }

  // ---------------------------------------------------------------------
  // Segment versus rectangle (selection.py:21-69)
  // ---------------------------------------------------------------------

  /** The rectangle's corners in the order the border is walked. */
  function Corners(r: Rect): seq<Point> {
    [Point(r.xMin, r.yMin), Point(r.xMax, r.yMin), Point(r.xMax, r.yMax), Point(r.xMin, r.yMax)]
  }

  /** The segment `se` meets border side `i`, from corner `i` to corner `i + 1` (mod 4). */
  predicate CrossesSide(s: Point, e: Point, r: Rect, i: int)
    requires 0 <= i < 4
  {
    DoIntersect(s, e, Corners(r)[i], Corners(r)[(i + 1) % 4])
  }

  /**
    * The segment from `s` to `e` touches the rectangle: it meets one of the
    * four border sides, or lies inside with both endpoints.
    */
  predicate LineIntersectsRect(s: Point, e: Point, r: Rect) {
    || (exists i :: 0 <= i < 4 && CrossesSide(s, e, r, i))
    || (InRect(s, r) && InRect(e, r))
  }

  /** A segment with both endpoints in the closed rectangle is hit. */
  lemma ContainedSegmentHits(s: Point, e: Point, r: Rect)
    requires InRect(s, r) && InRect(e, r)
    ensures LineIntersectsRect(s, e, r)
  {
  }

  /** A segment with an endpoint on a corner of the rectangle is hit. */
  lemma CornerEndpointHits(s: Point, e: Point, r: Rect, i: int)
    requires 0 <= i < 4 && (s == Corners(r)[i] || e == Corners(r)[i])
    ensures LineIntersectsRect(s, e, r)
  {
    SharedEndpointIntersects(s, e, Corners(r)[i], Corners(r)[(i + 1) % 4]);
    assert CrossesSide(s, e, r, i);
  }

  /** Whether an edge is hit does not depend on its direction. */
  lemma LineIntersectsRectReversed(s: Point, e: Point, r: Rect)
    ensures LineIntersectsRect(e, s, r) == LineIntersectsRect(s, e, r)
  {
    forall i | 0 <= i < 4
      ensures CrossesSide(e, s, r, i) == CrossesSide(s, e, r, i)
    {
      DoIntersectReversed(s, e, Corners(r)[i], Corners(r)[(i + 1) % 4]);
    }
  }

  /** Both endpoints lie strictly beyond the same side of the rectangle. */
  predicate BeyondOneSide(s: Point, e: Point, r: Rect) {
    || (s.x < r.xMin && e.x < r.xMin)
    || (s.x > r.xMax && e.x > r.xMax)
    || (s.y < r.yMin && e.y < r.yMin)
    || (s.y > r.yMax && e.y > r.yMax)
  }

  /**
    * A segment whose endpoints both lie strictly beyond one side of a
    * well-formed rectangle is not hit: it meets no border side and is not
    * contained.
    */
  lemma BeyondOneSideMisses(s: Point, e: Point, r: Rect)
    requires r.xMin <= r.xMax && r.yMin <= r.yMax
    requires BeyondOneSide(s, e, r)
    ensures !LineIntersectsRect(s, e, r)
  {
    var l := SeparatingLine(s, e, r);
    forall i | 0 <= i < 4
      ensures !CrossesSide(s, e, r, i)
    {
      SeparatedSegmentsDoNotIntersect(s, e, Corners(r)[i], Corners(r)[(i + 1) % 4], l);
    }
  }

  /** The side the endpoints lie beyond, as an affine function negative on them and not on the rectangle. */
  lemma SeparatingLine(s: Point, e: Point, r: Rect) returns (l: Line)
    requires r.xMin <= r.xMax && r.yMin <= r.yMax
    requires BeyondOneSide(s, e, r)
    ensures Level(l, s) < 0.0 && Level(l, e) < 0.0
    ensures forall i :: 0 <= i < 4 ==> Level(l, Corners(r)[i]) >= 0.0
  {
    if s.x < r.xMin && e.x < r.xMin {
      l := Line(1.0, 0.0, -r.xMin);
    } else if s.x > r.xMax && e.x > r.xMax {
      l := Line(-1.0, 0.0, r.xMax);
    } else if s.y < r.yMin && e.y < r.yMin {
      l := Line(0.0, 1.0, -r.yMin);
    } else {
      l := Line(0.0, -1.0, r.yMax);
    }
  }

  // ---------------------------------------------------------------------
  // Completeness: a segment with a point in the rectangle is hit
  // ---------------------------------------------------------------------

  /** The point lies on one of the four border lines. */
  predicate OnBorder(p: Point, r: Rect) {
    p.x == r.xMin || p.x == r.xMax || p.y == r.yMin || p.y == r.yMax
  }

  /**
    * The last fraction at which `lP + s * (lQ - lP)`, an affine function
    * along a segment that starts on its non-negative side, is still
    * non-negative: 1 when it never turns negative, else where it vanishes.
    */
  lemma ExitFraction(lP: real, lQ: real) returns (s: real)
    requires lP >= 0.0
    ensures 0.0 <= s <= 1.0
    ensures lQ >= 0.0 ==> s == 1.0
    ensures lQ < 0.0 ==> s < 1.0 && lP + s * (lQ - lP) == 0.0
  {
    if lQ >= 0.0 {
      s := 1.0;
    } else {
      s := Ratio(lP, lP - lQ);
    }
  }

  /**
    * Before its exit fraction the affine function is non-negative, and at
    * an exit fraction below 1 it vanishes.
    */
  lemma BeforeExit(lP: real, lQ: real, s: real, t: real, lM: real)
    requires lP >= 0.0 && 0.0 <= t <= s <= 1.0
    requires lQ >= 0.0 ==> s == 1.0
    requires lQ < 0.0 ==> lP + s * (lQ - lP) == 0.0
    requires lM == lP + t * (lQ - lP)
    ensures lM >= 0.0
    ensures t == s < 1.0 ==> lM == 0.0
  {
    if lQ >= 0.0 {
      assert lP + t * (lQ - lP) == (1.0 - t) * lP + t * lQ;
      ProductSigns(1.0 - t, lP);
      ProductSigns(t, lQ);
    } else {
      assert lP + t * (lQ - lP) == (lP + s * (lQ - lP)) - (s - t) * (lQ - lP);
      ProductSigns(s - t, lQ - lP);
    }
  }

  /**
    * Four affine functions along a segment, all non-negative at its start
    * and one negative at its end: at the first fraction where one of them
    * vanishes all four are still non-negative.
    */
  lemma FirstExit(a0: real, a1: real, a2: real, a3: real, b0: real, b1: real, b2: real, b3: real)
    returns (t: real)
    requires a0 >= 0.0 && a1 >= 0.0 && a2 >= 0.0 && a3 >= 0.0
    requires b0 < 0.0 || b1 < 0.0 || b2 < 0.0 || b3 < 0.0
    ensures 0.0 <= t <= 1.0
    ensures a0 + t * (b0 - a0) >= 0.0 && a1 + t * (b1 - a1) >= 0.0
    ensures a2 + t * (b2 - a2) >= 0.0 && a3 + t * (b3 - a3) >= 0.0
    ensures || a0 + t * (b0 - a0) == 0.0 || a1 + t * (b1 - a1) == 0.0
            || a2 + t * (b2 - a2) == 0.0 || a3 + t * (b3 - a3) == 0.0
  {
    var s0 := ExitFraction(a0, b0);
    var s1 := ExitFraction(a1, b1);
    var s2 := ExitFraction(a2, b2);
    var s3 := ExitFraction(a3, b3);
    t := Min(Min(s0, s1), Min(s2, s3));
    BeforeExit(a0, b0, s0, t, a0 + t * (b0 - a0));
    BeforeExit(a1, b1, s1, t, a1 + t * (b1 - a1));
    BeforeExit(a2, b2, s2, t, a2 + t * (b2 - a2));
    BeforeExit(a3, b3, s3, t, a3 + t * (b3 - a3));
  }

  /**
    * A segment from a point inside the rectangle to one outside it leaves
    * through the border: some point of it is in the rectangle and on the
    * border.
    */
  lemma ExitPoint(p: Point, q: Point, r: Rect) returns (t: real)
    requires InRect(p, r) && !InRect(q, r)
    ensures 0.0 <= t <= 1.0
    ensures InRect(Lerp(p, q, t), r) && OnBorder(Lerp(p, q, t), r)
  {
    t := FirstExit(p.y - r.yMin, r.xMax - p.x, r.yMax - p.y, p.x - r.xMin,
                   q.y - r.yMin, r.xMax - q.x, r.yMax - q.y, q.x - r.xMin);
    var m := Lerp(p, q, t);
    assert m.y - r.yMin == (p.y - r.yMin) + t * ((q.y - r.yMin) - (p.y - r.yMin));
    assert r.xMax - m.x == (r.xMax - p.x) + t * ((r.xMax - q.x) - (r.xMax - p.x));
    assert r.yMax - m.y == (r.yMax - p.y) + t * ((r.yMax - q.y) - (r.yMax - p.y));
    assert m.x - r.xMin == (p.x - r.xMin) + t * ((q.x - r.xMin) - (p.x - r.xMin));
  }

  /** A point of the rectangle on its border lies on one of the four sides. */
  lemma OnSide(m: Point, r: Rect) returns (i: int, u: real)
    requires InRect(m, r) && OnBorder(m, r)
    ensures 0 <= i < 4 && 0.0 <= u <= 1.0
    ensures Lerp(Corners(r)[i], Corners(r)[(i + 1) % 4], u) == m
  {
    if m.y == r.yMin {
      var v := Between(r.xMin, r.xMax, m.x);
      i, u := 0, v;
    } else if m.x == r.xMax {
      var v := Between(r.yMin, r.yMax, m.y);
      i, u := 1, v;
    } else if m.y == r.yMax {
      var v := Between(r.xMin, r.xMax, m.x);
      i, u := 2, 1.0 - v;
    } else {
      var v := Between(r.yMin, r.yMax, m.y);
      i, u := 3, 1.0 - v;
    }
  }

  /** A value between two bounds is a fraction of the way from either bound to the other. */
  lemma Between(lo: real, hi: real, v: real) returns (u: real)
    requires lo <= v <= hi
    ensures 0.0 <= u <= 1.0
    ensures v == lo + u * (hi - lo) && v == hi + (1.0 - u) * (lo - hi)
  {
    if lo == hi {
      u := 0.0;
    } else {
      u := Ratio(v - lo, hi - lo);
    }
  }

  /** A segment with a point on the border of the rectangle is hit. */
  lemma BorderPointHits(s: Point, e: Point, r: Rect, t: real)
    requires 0.0 <= t <= 1.0
    requires InRect(Lerp(s, e, t), r) && OnBorder(Lerp(s, e, t), r)
    ensures LineIntersectsRect(s, e, r)
  {
    var i, u := OnSide(Lerp(s, e, t), r);
    CommonPointIntersects(s, e, Corners(r)[i], Corners(r)[(i + 1) % 4], t, u);
    assert CrossesSide(s, e, r, i);
  }

  /** A segment from a point in the rectangle to an end outside it is hit. */
  lemma ExitingSegmentHits(s: Point, e: Point, r: Rect, t: real)
    requires 0.0 <= t <= 1.0
    requires InRect(Lerp(s, e, t), r) && !InRect(e, r)
    ensures LineIntersectsRect(s, e, r)
  {
    var u := ExitPoint(Lerp(s, e, t), e, r);
    assert Lerp(s, e, 1.0) == e;
    LerpCompose(s, e, t, 1.0, u);
    ProductSigns(u, 1.0 - t);
    ProductSigns(1.0 - u, 1.0 - t);
    BorderPointHits(s, e, r, t + u * (1.0 - t));
  }

  /**
    * A segment with any point in the closed rectangle is hit: with both
    * ends inside by the containment check, otherwise through the side it
    * leaves by.
    */
  lemma PointInRectHits(s: Point, e: Point, r: Rect, t: real)
    requires 0.0 <= t <= 1.0 && InRect(Lerp(s, e, t), r)
    ensures LineIntersectsRect(s, e, r)
  {
    if InRect(s, r) && InRect(e, r) {
      ContainedSegmentHits(s, e, r);
    } else if !InRect(e, r) {
      ExitingSegmentHits(s, e, r, t);
    } else {
      assert Lerp(e, s, 1.0 - t) == Lerp(s, e, t);
      ExitingSegmentHits(e, s, r, 1.0 - t);
      LineIntersectsRectReversed(s, e, r);
    }
  }
}
