/**
 The even-odd point-in-polygon test (packages/portal-config/src/classification.ts,
 `inPolygon`) in exact reals. A vertex is (lon, lat); a polygon is its list of vertices,
 closed by the edge from the last to the first.
 */
module Polygon {

  datatype Point = Point(lon: real, lat: real)

  /** The edge from `q` to `p` has its ends on both sides of the horizontal line through the tested point. */
  predicate Straddles(p: Point, q: Point, lat: real) {
    (p.lat > lat) != (q.lat > lat)
  }

  /** `base`, moved by the fraction `num / den` of `d`. */
  function Interpolate(d: real, num: real, den: real, base: real): real
    requires den != 0.0
  {
    d * num / den + base
  }

  /** The tested point lies west of where the edge meets that line. */
  predicate Crosses(p: Point, q: Point, at: Point) {
    Straddles(p, q, at.lat) && at.lon < Interpolate(q.lon - p.lon, at.lat - p.lat, q.lat - p.lat, p.lon)
  }

  function Xor(a: bool, b: bool): bool { a != b }

  /** Parity of the crossed edges along an open chain. */
  ghost function Chain(ps: seq<Point>, at: Point): bool {
    if |ps| < 2 then false else Xor(Crosses(ps[1], ps[0], at), Chain(ps[1..], at))
  }

  /** Parity of the crossed edges of the closed polygon. */
  ghost function Parity(ps: seq<Point>, at: Point): bool {
    if ps == [] then false else Xor(Crosses(ps[0], ps[|ps| - 1], at), Chain(ps, at))
  }

  method InPolygon(at: Point, points: seq<Point>) returns (inside: bool)
    ensures inside == Parity(points, at)
  {
    inside := false;
    var i, j := 0, |points| - 1;
    while i < |points|
      invariant 0 <= i <= |points|
      invariant i == 0 ==> j == |points| - 1 && !inside
      invariant i > 0 ==> j == i - 1
      invariant i > 0 ==> inside == Xor(Crosses(points[0], points[|points| - 1], at), Chain(points[..i], at))
    {
      if Crosses(points[i], points[j], at) {
        inside := !inside;
      }
      if i > 0 {
        ChainPush(points[..i], points[i], at);
        assert points[..i + 1] == points[..i] + [points[i]];
      }
      j, i := i, i + 1;
    }
    assert points[..|points|] == points;
  }

  // ------------------------------------------------------------------- chains

  lemma {:induction false} ChainPush(ps: seq<Point>, p: Point, at: Point)
    requires ps != []
    ensures Chain(ps + [p], at) == Xor(Chain(ps, at), Crosses(p, ps[|ps| - 1], at))
  {
    if |ps| == 1 {
      assert (ps + [p])[1..] == [p];
    } else {
      ChainPush(ps[1..], p, at);
      assert (ps + [p])[1..] == ps[1..] + [p];
    }
  }

  /** Two chains glued by the edge between them. */
  lemma {:induction false} ChainConcat(a: seq<Point>, b: seq<Point>, at: Point)
    requires a != [] && b != []
    ensures Chain(a + b, at) == Xor(Xor(Chain(a, at), Crosses(b[0], a[|a| - 1], at)), Chain(b, at))
  {
    if |b| == 1 {
      ChainPush(a, b[0], at);
      assert a + b == a + [b[0]];
    } else {
      var front, last := b[..|b| - 1], b[|b| - 1];
      assert b == front + [last] && a + b == (a + front) + [last];
      ChainConcat(a, front, at);
      ChainPush(a + front, last, at);
      ChainPush(front, last, at);
    }
  }

  // --------------------------------------------------------------- one edge

  lemma QuotientIs(num: real, den: real, t: real)
    requires den != 0.0 && t * den == num
    ensures num / den == t
  {
  }

  lemma Quotient(num: real, den: real) returns (t: real)
    requires den != 0.0
    ensures t == num / den && t * den == num
  {
    t := num / den;
  }

  lemma Scaled(d: real, num: real, den: real, t: real)
    requires den != 0.0 && t * den == num
    ensures d * num / den == d * t
  {
    assert (d * t) * den == d * (t * den);
    QuotientIs(d * num, den, d * t);
  }

  /** Interpolating from the other end gives the same point. */
  lemma InterpolateBack(d: real, num: real, den: real, base: real)
    requires den != 0.0
    ensures Interpolate(d, num, den, base) == Interpolate(-d, num - den, -den, base + d)
  {
    var t := Quotient(num, den);
    Scaled(d, num, den, t);
    assert (1.0 - t) * (-den) == num - den;
    Scaled(-d, num - den, -den, 1.0 - t);
    assert (-d) * (1.0 - t) == d * t - d;
  }

  /** An edge is crossed from either end. */
  lemma CrossesSymmetric(p: Point, q: Point, at: Point)
    ensures Crosses(p, q, at) == Crosses(q, p, at)
  {
    if Straddles(p, q, at.lat) {
      InterpolateBack(q.lon - p.lon, at.lat - p.lat, q.lat - p.lat, p.lon);
    }
  }

  // --------------------------------------------------------------- reversal

  function Reverse(ps: seq<Point>): seq<Point> {
    if ps == [] then [] else Reverse(ps[1..]) + [ps[0]]
  }

  lemma {:induction false} ReverseEnds(ps: seq<Point>)
    requires ps != []
    ensures |Reverse(ps)| == |ps| && Reverse(ps)[0] == ps[|ps| - 1] && Reverse(ps)[|ps| - 1] == ps[0]
  {
    if |ps| > 1 {
      ReverseEnds(ps[1..]);
    }
  }

  lemma {:induction false} ChainReverse(ps: seq<Point>, at: Point)
    ensures Chain(Reverse(ps), at) == Chain(ps, at)
  {
    if |ps| < 2 {
    } else {
      ReverseEnds(ps[1..]);
      ChainReverse(ps[1..], at);
      ChainPush(Reverse(ps[1..]), ps[0], at);
      CrossesSymmetric(ps[0], ps[1], at);
    }
  }

  // ------------------------------------------------------------------ polygon laws

  /** Which vertex comes first does not matter. */
  lemma RotationInvariant(a: seq<Point>, b: seq<Point>, at: Point)
    ensures Parity(a + b, at) == Parity(b + a, at)
  {
    if a == [] || b == [] {
      assert a + b == b + a;
    } else {
      ChainConcat(a, b, at);
      ChainConcat(b, a, at);
    }
  }

  /** Nor does the direction in which the vertices are listed. */
  lemma ReversalInvariant(ps: seq<Point>, at: Point)
    ensures Parity(Reverse(ps), at) == Parity(ps, at)
  {
    if ps != [] {
      ReverseEnds(ps);
      ChainReverse(ps, at);
      CrossesSymmetric(ps[0], ps[|ps| - 1], at);
    }
  }

  /** A chain, closed through one more point. */
  lemma ClosedThrough(m: seq<Point>, p: Point, at: Point)
    requires m != []
    ensures Parity(m + [p], at) == Xor(Crosses(m[0], p, at), Xor(Chain(m, at), Crosses(p, m[|m| - 1], at)))
  {
    ChainPush(m, p, at);
  }

  /** Two chains in a ring: the chord joins their first points. */
  lemma ChordOfTwo(m: seq<Point>, n: seq<Point>, at: Point)
    requires m != [] && n != []
    ensures Parity(m + n, at) == Xor(Parity(m + [n[0]], at), Parity(n + [m[0]], at))
  {
    ChainConcat(m, n, at);
    ClosedThrough(m, n[0], at);
    ClosedThrough(n, m[0], at);
    CrossesSymmetric(m[0], n[0], at);
  }

  lemma RotateTo(ps: seq<Point>, i: nat, j: nat, at: Point)
    requires i < j < |ps|
    ensures Parity(ps, at) == Parity(ps[i..j] + (ps[j..] + ps[..i]), at)
  {
    RotationInvariant(ps[..i], ps[i..], at);
    assert ps == ps[..i] + ps[i..];
    assert ps[i..] + ps[..i] == ps[i..j] + (ps[j..] + ps[..i]);
  }

  /** Cutting along a chord between two vertices: the polygon is the exclusive-or of its two pieces. */
  lemma ChordCut(ps: seq<Point>, i: nat, j: nat, at: Point)
    requires i < j < |ps|
    ensures Parity(ps, at) == Xor(Parity(ps[i..j + 1], at), Parity(ps[j..] + ps[..i + 1], at))
  {
    RotateTo(ps, i, j, at);
    ChordOfTwo(ps[i..j], ps[j..] + ps[..i], at);
    assert ps[i..j] + [ps[j]] == ps[i..j + 1];
    assert (ps[j..] + ps[..i]) + [ps[i]] == ps[j..] + ps[..i + 1];
  }

  /** Parity of the triangles that fan out from the first vertex, up to vertex `n`. */
  ghost function Fan(ps: seq<Point>, n: nat, at: Point): bool
    requires n < |ps|
  {
    if n < 2 then false else Xor(Fan(ps, n - 1, at), Parity([ps[0], ps[n - 1], ps[n]], at))
  }

  /** A two-sided polygon contains nothing. */
  lemma TwoVertices(p: Point, q: Point, at: Point)
    ensures !Parity([p, q], at)
  {
    CrossesSymmetric(p, q, at);
    assert [p, q][1..] == [q];
    assert !Chain([q], at);
    assert Chain([p, q], at) == Crosses(q, p, at);
  }

  lemma {:induction false} FanPrefix(ps: seq<Point>, n: nat, at: Point)
    requires 1 <= n < |ps|
    ensures Parity(ps[..n + 1], at) == Fan(ps, n, at)
  {
    var front := ps[..n + 1];
    if n == 1 {
      assert front == [ps[0], ps[1]];
      TwoVertices(ps[0], ps[1], at);
    } else {
      FanPrefix(ps, n - 1, at);
      ChordCut(front, 0, n - 1, at);
      assert front[0..n - 1 + 1] == ps[..n];
      assert front[n - 1..] + front[..0 + 1] == [ps[n - 1], ps[n]] + [ps[0]];
      RotationInvariant([ps[0]], [ps[n - 1], ps[n]], at);
      assert [ps[0]] + [ps[n - 1], ps[n]] == [ps[0], ps[n - 1], ps[n]];
    }
  }

  /** Every polygon is the exclusive-or of the triangles that fan out from its first vertex. */
  lemma FanOfTriangles(ps: seq<Point>, at: Point)
    requires |ps| >= 2
    ensures Parity(ps, at) == Fan(ps, |ps| - 1, at)
  {
    FanPrefix(ps, |ps| - 1, at);
    assert ps[..|ps| - 1 + 1] == ps;
  }

  // ------------------------------------------------------------------ bounding box

  /** Parity of the straddling edges of an open chain: only its two ends decide. */
  ghost function StraddleParity(ps: seq<Point>, lat: real): bool {
    if |ps| < 2 then false else Xor(Straddles(ps[1], ps[0], lat), StraddleParity(ps[1..], lat))
  }

  lemma {:induction false} StraddleTelescopes(ps: seq<Point>, lat: real)
    requires ps != []
    ensures StraddleParity(ps, lat) == Straddles(ps[|ps| - 1], ps[0], lat)
  {
    if |ps| > 1 {
      StraddleTelescopes(ps[1..], lat);
    }
  }

  lemma Fraction(num: real, den: real, t: real)
    requires t * den == num
    requires (0.0 <= num <= den && den > 0.0) || (den <= num <= 0.0 && den < 0.0)
    ensures 0.0 <= t <= 1.0
  {
  }

  /** A fraction of an offset lies between nothing and the offset. */
  lemma Shrunk(d: real, t: real, x: real)
    requires 0.0 <= t <= 1.0 && x == d * t
    ensures if d >= 0.0 then 0.0 <= x <= d else d <= x <= 0.0
  {
    assert d - x == d * (1.0 - t);
  }

  lemma Offset(d: real, num: real, den: real, base: real) returns (x: real)
    requires (0.0 <= num <= den && den > 0.0) || (den <= num <= 0.0 && den < 0.0)
    ensures Interpolate(d, num, den, base) == x + base
    ensures if d >= 0.0 then 0.0 <= x <= d else d <= x <= 0.0
  {
    var t := Quotient(num, den);
    Fraction(num, den, t);
    Scaled(d, num, den, t);
    x := d * t;
    Shrunk(d, t, x);
  }

  /** Where a straddling edge meets the line, between the longitudes of its ends. */
  lemma IntersectionBetween(p: Point, q: Point, lat: real, lo: real, hi: real)
    requires Straddles(p, q, lat) && lo <= p.lon <= hi && lo <= q.lon <= hi
    ensures lo <= Interpolate(q.lon - p.lon, lat - p.lat, q.lat - p.lat, p.lon) <= hi
  {
    var x := Offset(q.lon - p.lon, lat - p.lat, q.lat - p.lat, p.lon);
  }

  predicate Within(ps: seq<Point>, west: real, east: real, south: real, north: real) {
    forall p :: p in ps ==> west <= p.lon <= east && south <= p.lat <= north
  }

  lemma EdgeOutside(p: Point, q: Point, at: Point, west: real, east: real, south: real, north: real)
    requires Within([p, q], west, east, south, north)
    ensures at.lat >= north || at.lat < south ==> !Straddles(p, q, at.lat)
    ensures at.lon >= east ==> !Crosses(p, q, at)
    ensures at.lon < west ==> Crosses(p, q, at) == Straddles(p, q, at.lat)
  {
    assert p in [p, q] && q in [p, q];
    if Straddles(p, q, at.lat) {
      IntersectionBetween(p, q, at.lat, west, east);
    }
  }

  lemma {:induction false} ChainOutside(ps: seq<Point>, at: Point, west: real, east: real, south: real, north: real)
    requires Within(ps, west, east, south, north)
    ensures at.lat >= north || at.lat < south || at.lon >= east ==> !Chain(ps, at)
    ensures at.lon < west ==> Chain(ps, at) == StraddleParity(ps, at.lat)
  {
    if |ps| < 2 {
    } else {
      assert ps[0] in ps && ps[1] in ps;
      EdgeOutside(ps[1], ps[0], at, west, east, south, north);
      ChainOutside(ps[1..], at, west, east, south, north);
    }
  }

  /**
   No point outside the box of the vertices is inside; the box is closed to the west and
   south, open to the east and north.
   */
  lemma OutsideBoxIsOutside(ps: seq<Point>, at: Point, west: real, east: real, south: real, north: real)
    requires Within(ps, west, east, south, north)
    requires !(west <= at.lon < east && south <= at.lat < north)
    ensures !Parity(ps, at)
  {
    if ps != [] {
      var first, last := ps[0], ps[|ps| - 1];
      assert first in ps && last in ps;
      EdgeOutside(first, last, at, west, east, south, north);
      ChainOutside(ps, at, west, east, south, north);
      StraddleTelescopes(ps, at.lat);
    }
  }

  /** Inside an axis-aligned rectangle means exactly: in its half-open box. */
  lemma RectangleExact(west: real, east: real, south: real, north: real, at: Point)
    requires west <= east && south <= north
    ensures Parity([Point(west, south), Point(east, south), Point(east, north), Point(west, north)], at)
      <==> west <= at.lon < east && south <= at.lat < north
  {
    var a, b, c, d := Point(west, south), Point(east, south), Point(east, north), Point(west, north);
    var ps := [a, b, c, d];
    assert ps[1..] == [b, c, d] && [b, c, d][1..] == [c, d] && [c, d][1..] == [d];
    assert !Chain([d], at);
    assert Chain([c, d], at) == Crosses(d, c, at);
    assert Chain([b, c, d], at) == Xor(Crosses(c, b, at), Crosses(d, c, at));
    assert Chain(ps, at) == Xor(Crosses(b, a, at), Xor(Crosses(c, b, at), Crosses(d, c, at)));
  }
}
