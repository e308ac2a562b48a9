/**
 The point-in-polygon test (packages/portal-config/src/classification.ts, `inPolygon`) against
 the side test by cross products: exactly for every triangle, and through the fan of triangles
 for every polygon, boundaries included.
 */
module Triangle {
  import opened Polygon

  function Det(a: real, b: real, c: real, d: real): real { a * d - b * c }

  /** Twice the signed area of the triangle: positive when it turns left, in the order of its vertices. */
  function Area(a: Point, b: Point, c: Point): real {
    Det(b.lon - a.lon, b.lat - a.lat, c.lon - a.lon, c.lat - a.lat)
  }

  lemma SignOf(x: real, y: real)
    ensures x >= 0.0 && y >= 0.0 ==> x * y >= 0.0
    ensures x <= 0.0 && y <= 0.0 ==> x * y >= 0.0
    ensures x >= 0.0 && y <= 0.0 ==> x * y <= 0.0
    ensures x <= 0.0 && y >= 0.0 ==> x * y <= 0.0
    ensures x * y == 0.0 <==> x == 0.0 || y == 0.0
  {
  }

  lemma Reached(d: real, num: real, den: real, t: real, base: real)
    requires den != 0.0 && t * den == num
    ensures Interpolate(d, num, den, base) == t * d + base
  {
    Scaled(d, num, den, t);
  }

  /** Where an edge is crossed: the point of the edge at the tested latitude lies east of the tested point. */
  lemma CrossesAt(p: Point, q: Point, at: Point, t: real)
    requires Straddles(p, q, at.lat) && at.lat == p.lat + t * (q.lat - p.lat)
    ensures Crosses(p, q, at) <==> at.lon < p.lon + t * (q.lon - p.lon)
  {
    Reached(q.lon - p.lon, at.lat - p.lat, q.lat - p.lat, t, p.lon);
  }

  lemma InterpolateSide(d: real, num: real, den: real, base: real, x: real)
    requires den != 0.0
    ensures x < Interpolate(d, num, den, base) <==>
      if den > 0.0 then Det(d, den, x - base, num) > 0.0 else Det(d, den, x - base, num) < 0.0
  {
    var t := d * num / den;
    var z := x - base;
    assert t * den == d * num;
    assert Det(d, den, z, num) == (t - z) * den;
    SignOf(t - z, den);
  }

  /** Which side of the edge the point is on decides. */
  lemma CrossesBySide(p: Point, q: Point, at: Point)
    ensures Crosses(p, q, at) <==>
      Straddles(p, q, at.lat) && if q.lat > p.lat then Area(p, q, at) > 0.0 else Area(p, q, at) < 0.0
  {
    if Straddles(p, q, at.lat) {
      InterpolateSide(q.lon - p.lon, at.lat - p.lat, q.lat - p.lat, p.lon, at.lon);
    }
  }

  // ------------------------------------------------------------ areas of a triangle

  lemma Translated(px: real, py: real, qx: real, qy: real, x: real, y: real)
    ensures (qx - px) * (y - py) - (qy - py) * (x - px) == (px - x) * (qy - y) - (qx - x) * (py - y)
  {
    var a, b, c, d := px - x, py - y, qx - x, qy - y;
    assert (c - a) * (-b) - (d - b) * (-a) == a * d - c * b;
  }

  lemma Cancel(xa: real, ya: real, xb: real, yb: real, xc: real, yc: real)
    ensures (xb * yc - xc * yb) * ya + (xc * ya - xa * yc) * yb + (xa * yb - xb * ya) * yc == 0.0
  {
  }

  lemma AreasWeigh(a: Point, b: Point, c: Point, at: Point)
    ensures Area(b, c, at) * (a.lat - at.lat) + Area(c, a, at) * (b.lat - at.lat)
      + Area(a, b, at) * (c.lat - at.lat) == 0.0
  {
    Translated(b.lon, b.lat, c.lon, c.lat, at.lon, at.lat);
    Translated(c.lon, c.lat, a.lon, a.lat, at.lon, at.lat);
    Translated(a.lon, a.lat, b.lon, b.lat, at.lon, at.lat);
    Cancel(a.lon - at.lon, a.lat - at.lat, b.lon - at.lon, b.lat - at.lat, c.lon - at.lon, c.lat - at.lat);
  }

  lemma AreasAdd(a: Point, b: Point, c: Point, at: Point)
    ensures Area(a, b, at) + Area(b, c, at) + Area(c, a, at) == Area(a, b, c)
  {
  }

  lemma AreaTurns(a: Point, b: Point, c: Point)
    ensures Area(b, c, a) == Area(a, b, c) && Area(c, b, a) == -Area(a, b, c) && Area(b, a, c) == -Area(a, b, c)
  {
  }

  lemma LoneAbove(da: real, db: real, dc: real, u: real, v: real, w: real)
    requires u > 0.0 && v <= 0.0 && w <= 0.0 && da * u + db * v + dc * w == 0.0
    ensures da + db + dc > 0.0 && dc < 0.0 ==> db > 0.0
    ensures dc >= 0.0 && db > 0.0 ==> da >= 0.0 && (da == 0.0 ==> v == 0.0)
  {
    SignOf(da, u);
    SignOf(db, v);
    SignOf(dc, w);
  }

  lemma LoneBelow(da: real, db: real, dc: real, u: real, v: real, w: real)
    requires u <= 0.0 && v > 0.0 && w > 0.0 && da * u + db * v + dc * w == 0.0
    ensures da + db + dc > 0.0 && db < 0.0 ==> dc > 0.0
    ensures dc > 0.0 && db >= 0.0 ==> da > 0.0
  {
    SignOf(da, u);
    SignOf(db, v);
    SignOf(dc, w);
  }

  // ------------------------------------------------------------ the side test

  /** The point is on the left of the edge, or on its line where the edge goes down, or east along the bottom. */
  predicate Covers(p: Point, q: Point, at: Point) {
    Area(p, q, at) > 0.0 || (Area(p, q, at) == 0.0 && (q.lat < p.lat || (q.lat == p.lat && q.lon > p.lon)))
  }

  predicate CoversAll(a: Point, b: Point, c: Point, at: Point) {
    Covers(a, b, at) && Covers(b, c, at) && Covers(c, a, at)
  }

  lemma ThreeEdges(a: Point, b: Point, c: Point, at: Point)
    ensures Parity([a, b, c], at) == Xor(Crosses(a, b, at), Xor(Crosses(b, c, at), Crosses(c, a, at)))
  {
    var ps := [a, b, c];
    assert ps[1..] == [b, c] && [b, c][1..] == [c];
    assert !Chain([c], at) && Chain([b, c], at) == Crosses(c, b, at);
    assert Chain(ps, at) == Xor(Crosses(b, a, at), Chain([b, c], at));
    CrossesSymmetric(a, b, at);
    CrossesSymmetric(b, c, at);
    CrossesSymmetric(c, a, at);
  }

  lemma FlatTop(a: Point, b: Point, c: Point)
    requires b.lat == c.lat
    ensures Area(a, b, c) == (c.lon - b.lon) * (a.lat - b.lat)
  {
    assert (b.lon - a.lon) * (b.lat - a.lat) - (b.lat - a.lat) * (c.lon - a.lon) == (c.lon - b.lon) * (a.lat - b.lat);
  }

  /** One vertex above the line, two not. */
  lemma TipAbove(a: Point, b: Point, c: Point, at: Point)
    requires Area(a, b, c) > 0.0 && a.lat > at.lat && b.lat <= at.lat && c.lat <= at.lat
    ensures Parity([a, b, c], at) <==> CoversAll(a, b, c, at)
  {
    ThreeEdges(a, b, c, at);
    CrossesBySide(a, b, at);
    CrossesBySide(c, a, at);
    AreasAdd(a, b, c, at);
    AreasWeigh(a, b, c, at);
    LoneAbove(Area(b, c, at), Area(c, a, at), Area(a, b, at), a.lat - at.lat, b.lat - at.lat, c.lat - at.lat);
    if Area(b, c, at) == 0.0 && b.lat == c.lat {
      FlatTop(a, b, c);
      SignOf(c.lon - b.lon, a.lat - b.lat);
    }
  }

  lemma TipBelow(a: Point, b: Point, c: Point, at: Point)
    requires Area(a, b, c) > 0.0 && a.lat <= at.lat && b.lat > at.lat && c.lat > at.lat
    ensures Parity([a, b, c], at) <==> CoversAll(a, b, c, at)
  {
    ThreeEdges(a, b, c, at);
    CrossesBySide(a, b, at);
    CrossesBySide(c, a, at);
    AreasAdd(a, b, c, at);
    AreasWeigh(a, b, c, at);
    LoneBelow(Area(b, c, at), Area(c, a, at), Area(a, b, at), a.lat - at.lat, b.lat - at.lat, c.lat - at.lat);
  }

  lemma AllAbove(a: Point, b: Point, c: Point, at: Point)
    requires Area(a, b, c) > 0.0 && a.lat > at.lat && b.lat > at.lat && c.lat > at.lat
    ensures !Parity([a, b, c], at) && !CoversAll(a, b, c, at)
  {
    ThreeEdges(a, b, c, at);
    AreasAdd(a, b, c, at);
    AreasWeigh(a, b, c, at);
    SignOf(Area(b, c, at), a.lat - at.lat);
    SignOf(Area(c, a, at), b.lat - at.lat);
    SignOf(Area(a, b, at), c.lat - at.lat);
  }

  /** All at or below the line, and the point left of the edge a-b: then it could only be at the top. */
  lemma AllBelowLeft(a: Point, b: Point, c: Point, at: Point)
    requires Area(a, b, c) > 0.0 && a.lat <= at.lat && b.lat <= at.lat && c.lat <= at.lat && Area(a, b, at) > 0.0
    ensures !CoversAll(a, b, c, at)
  {
    if CoversAll(a, b, c, at) {
      AreasWeigh(a, b, c, at);
      SignOf(Area(b, c, at), a.lat - at.lat);
      SignOf(Area(c, a, at), b.lat - at.lat);
      SignOf(Area(a, b, at), c.lat - at.lat);
      AreaTurns(a, b, c);
      if Area(b, c, at) > 0.0 {
        FlatTop(b, c, a);
        SignOf(a.lon - c.lon, b.lat - c.lat);
      } else {
        FlatTop(a, b, c);
        SignOf(c.lon - b.lon, a.lat - b.lat);
      }
      assert false;
    }
  }

  lemma AllBelow(a: Point, b: Point, c: Point, at: Point)
    requires Area(a, b, c) > 0.0 && a.lat <= at.lat && b.lat <= at.lat && c.lat <= at.lat
    ensures !Parity([a, b, c], at) && !CoversAll(a, b, c, at)
  {
    ThreeEdges(a, b, c, at);
    AreasAdd(a, b, c, at);
    AreaTurns(a, b, c);
    AreaTurns(b, c, a);
    if Area(a, b, at) > 0.0 {
      AllBelowLeft(a, b, c, at);
    } else if Area(b, c, at) > 0.0 {
      AllBelowLeft(b, c, a, at);
    } else {
      AllBelowLeft(c, a, b, at);
    }
  }

  lemma Turned(a: Point, b: Point, c: Point, at: Point)
    ensures Parity([a, b, c], at) == Parity([b, c, a], at)
  {
    RotationInvariant([a], [b, c], at);
    assert [a] + [b, c] == [a, b, c] && [b, c] + [a] == [b, c, a];
  }

  /** Inside a triangle whose vertices turn left: on the left of all three edges, boundary included. */
  lemma LeftTriangle(a: Point, b: Point, c: Point, at: Point)
    requires Area(a, b, c) > 0.0
    ensures Parity([a, b, c], at) <==> CoversAll(a, b, c, at)
  {
    AreaTurns(a, b, c);
    AreaTurns(b, c, a);
    Turned(a, b, c, at);
    Turned(b, c, a, at);
    var x, y, z := a.lat > at.lat, b.lat > at.lat, c.lat > at.lat;
    if x && y && z {
      AllAbove(a, b, c, at);
    } else if !x && !y && !z {
      AllBelow(a, b, c, at);
    } else if y == z {
      if x { TipAbove(a, b, c, at); } else { TipBelow(a, b, c, at); }
    } else if x == z {
      if y { TipAbove(b, c, a, at); } else { TipBelow(b, c, a, at); }
    } else {
      if z { TipAbove(c, a, b, at); } else { TipBelow(c, a, b, at); }
    }
  }

  lemma FlatTip(da: real, db: real, dc: real, u: real, v: real, w: real)
    requires da + db + dc == 0.0 && da * u + db * v + dc * w == 0.0
    requires (u > 0.0 && v <= 0.0 && w <= 0.0) || (u <= 0.0 && v > 0.0 && w > 0.0)
    ensures (dc < 0.0 <==> db > 0.0) && (dc > 0.0 <==> db < 0.0)
  {
    assert da * u == -(db * u) - dc * u;
    assert db * (v - u) == db * v - db * u;
    assert dc * (w - u) == dc * w - dc * u;
    assert db * (v - u) == -(dc * (w - u));
    SignOf(db, v - u);
    SignOf(dc, w - u);
  }

  lemma FlatAt(a: Point, b: Point, c: Point, at: Point)
    requires Area(a, b, c) == 0.0 && (a.lat > at.lat) != (b.lat > at.lat) && (b.lat > at.lat) == (c.lat > at.lat)
    ensures !Parity([a, b, c], at)
  {
    ThreeEdges(a, b, c, at);
    CrossesBySide(a, b, at);
    CrossesBySide(c, a, at);
    AreasAdd(a, b, c, at);
    AreasWeigh(a, b, c, at);
    FlatTip(Area(b, c, at), Area(c, a, at), Area(a, b, at), a.lat - at.lat, b.lat - at.lat, c.lat - at.lat);
  }

  /** Three vertices on a line contain nothing. */
  lemma FlatTriangle(a: Point, b: Point, c: Point, at: Point)
    requires Area(a, b, c) == 0.0
    ensures !Parity([a, b, c], at)
  {
    AreaTurns(a, b, c);
    AreaTurns(b, c, a);
    Turned(a, b, c, at);
    Turned(b, c, a, at);
    var x, y, z := a.lat > at.lat, b.lat > at.lat, c.lat > at.lat;
    if x == y == z {
      ThreeEdges(a, b, c, at);
    } else if y == z {
      FlatAt(a, b, c, at);
    } else if x == z {
      FlatAt(b, c, a, at);
    } else {
      FlatAt(c, a, b, at);
    }
  }

  lemma ReverseThree(a: Point, b: Point, c: Point)
    ensures Reverse([a, b, c]) == [c, b, a]
  {
    assert [a, b, c][1..] == [b, c] && [b, c][1..] == [c] && [c][1..] == [];
    assert Reverse([c]) == [c] && Reverse([b, c]) == [c, b];
  }

  /** The triangle has the point on the inner side of its three edges, whichever way it turns. */
  predicate InTriangle(a: Point, b: Point, c: Point, at: Point) {
    (Area(a, b, c) > 0.0 && CoversAll(a, b, c, at)) || (Area(a, b, c) < 0.0 && CoversAll(c, b, a, at))
  }

  /** The parity test of a triangle is the test by sides, for all triangles and points, boundaries included. */
  lemma TriangleExact(a: Point, b: Point, c: Point, at: Point)
    ensures Parity([a, b, c], at) <==> InTriangle(a, b, c, at)
  {
    if Area(a, b, c) > 0.0 {
      LeftTriangle(a, b, c, at);
    } else if Area(a, b, c) < 0.0 {
      AreaTurns(a, b, c);
      LeftTriangle(c, b, a, at);
      ReversalInvariant([a, b, c], at);
      ReverseThree(a, b, c);
    } else {
      FlatTriangle(a, b, c, at);
    }
  }

  /** In how many triangles of the fan the point is, modulo two. */
  ghost function OddTriangles(ps: seq<Point>, n: nat, at: Point): bool
    requires n < |ps|
  {
    if n < 2 then false else Xor(OddTriangles(ps, n - 1, at), InTriangle(ps[0], ps[n - 1], ps[n], at))
  }

  lemma {:induction false} FanBySides(ps: seq<Point>, n: nat, at: Point)
    requires n < |ps|
    ensures Fan(ps, n, at) == OddTriangles(ps, n, at)
  {
    if n < 2 {
    } else {
      FanBySides(ps, n - 1, at);
      TriangleExact(ps[0], ps[n - 1], ps[n], at);
    }
  }

  /** Every polygon by sides alone: the point is inside an odd number of the triangles from its first vertex. */
  lemma PolygonBySides(ps: seq<Point>, at: Point)
    requires |ps| >= 2
    ensures Parity(ps, at) == OddTriangles(ps, |ps| - 1, at)
  {
    FanOfTriangles(ps, at);
    FanBySides(ps, |ps| - 1, at);
  }
}
