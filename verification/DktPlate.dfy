/** The DKT plate bending operator: mid-side nodes, edge normals, the rotation shape functions written out by hand, and
    the strain operator built from them. Square roots are exact. */
module DktPlate {
  import opened Scalars
  import opened LinearAlgebra

  datatype Point = Point(x: real, y: real, z: real) {

    function Plus(b: Point): Point {
      Point(x + b.x, y + b.y, z + b.z)
    }

    function Minus(b: Point): Point {
      Point(x - b.x, y - b.y, z - b.z)
    }

    function Times(a: real): Point {
      Point(a * x, a * y, a * z)
    }

    function Over(a: real): Point
      requires a != 0.0
    {
      Point(x / a, y / a, z / a)
    }

    function Cross(b: Point): Point {
      Point(y * b.z - z * b.y, z * b.x - x * b.z, x * b.y - y * b.x)
    }

    function NormSq(): real {
      x * x + y * y + z * z
    }

    function Norm(sqrt: real -> real): real {
      sqrt(NormSq())
    }
  }

  type Corners = c: seq<Point> | |c| == 3 witness [Point(0.0, 0.0, 0.0), Point(1.0, 0.0, 0.0), Point(0.0, 1.0, 0.0)]

  /** Twice the signed area of the projection on the xy-plane. */
  function Area2(c: Corners): real {
    (c[1].x - c[0].x) * (c[2].y - c[0].y) - (c[1].y - c[0].y) * (c[2].x - c[0].x)
  }

  /** A proper triangle parallel to the xy-plane, of either orientation. */
  predicate InPlane(c: Corners) {
    c[0].z == c[1].z == c[2].z && Area2(c) != 0.0
  }

  predicate CounterClockwise(c: Corners) {
    Area2(c) > 0.0
  }

  function Midpoint(a: Point, b: Point): Point {
    a.Plus(b).Times(0.5)
  }

  /** The corners followed by the mid-side nodes of edges 01, 12 and 20. */
  function SixNodes(c: Corners): (t: seq<Point>)
    ensures |t| == 6
  {
    c + [Midpoint(c[0], c[1]), Midpoint(c[1], c[2]), Midpoint(c[2], c[0])]
  }

  /** Sine and cosine of the normal of an edge, and its length. */
  datatype Edge = Edge(sine: real, cosine: real, length: real)

  /** The shape functions of the two rotations, dofs in the order w0 w1 w2, thetax0.., thetay0.. . */
  datatype Rotations = Rotations(betax: seq<real>, betay: seq<real>)

  /** What an edge contributes to betax and betay for the mid-side value n: the factors of the deflection at its far
      end, and of thetax and thetay at both ends. */
  function SlopeX(n: real, e: Edge): real
    requires e.length != 0.0
  {
    n * e.sine / e.length
  }

  function SlopeY(n: real, e: Edge): real
    requires e.length != 0.0
  {
    n * e.cosine / e.length
  }

  function Mixed(n: real, e: Edge): real {
    n * e.sine * e.cosine
  }

  function AlongY(n: real, e: Edge): real {
    n * (0.5 * e.cosine * e.cosine - 0.25 * e.sine * e.sine)
  }

  function AlongX(n: real, e: Edge): real {
    n * (0.25 * e.cosine * e.cosine - 0.5 * e.sine * e.sine)
  }

  function ShapeFunctions(phi: seq<real>, e4: Edge, e5: Edge, e6: Edge): (r: Rotations)
    requires |phi| == 6 && e4.length != 0.0 && e5.length != 0.0 && e6.length != 0.0
    ensures |r.betax| == |r.betay| == 9
  {
    var n1, n2, n3, n4, n5, n6 := phi[0], phi[1], phi[2], phi[4], phi[5], phi[3];
    var m3 := -0.75 * (Mixed(n5, e5) + Mixed(n6, e6));
    var m4 := -0.75 * (Mixed(n4, e4) + Mixed(n6, e6));
    var m5 := -0.75 * (Mixed(n5, e5) + Mixed(n4, e4));
    Rotations(
      [1.5 * (SlopeX(n5, e5) - SlopeX(n6, e6)),
       1.5 * (SlopeX(n6, e6) - SlopeX(n4, e4)),
       1.5 * (SlopeX(n4, e4) - SlopeX(n5, e5)),
       m3, m4, m5,
       n1 + AlongY(n5, e5) + AlongY(n6, e6),
       n2 + AlongY(n4, e4) + AlongY(n6, e6),
       n3 + AlongY(n5, e5) + AlongY(n4, e4)],
      [1.5 * (-SlopeY(n5, e5) + SlopeY(n6, e6)),
       1.5 * (-SlopeY(n6, e6) + SlopeY(n4, e4)),
       1.5 * (-SlopeY(n4, e4) + SlopeY(n5, e5)),
       -n1 + AlongX(n5, e5) + AlongX(n6, e6),
       -n2 + AlongX(n4, e4) + AlongX(n6, e6),
       -n3 + AlongX(n5, e5) + AlongX(n4, e4),
       -1.0 * m3, -1.0 * m4, -1.0 * m5])
  }

  // ---------------------------------------------------------------------------------------------
  // A quadratic deflection and its nodal values
  // ---------------------------------------------------------------------------------------------

  /** w = a + px x + py y + qxx x^2 + qxy x y + qyy y^2. */
  datatype Deflection = Deflection(a: real, px: real, py: real, qxx: real, qxy: real, qyy: real) {

    function W(p: Point): real {
      a + px * p.x + py * p.y + qxx * (p.x * p.x) + qxy * (p.x * p.y) + qyy * (p.y * p.y)
    }

    function Dx(p: Point): real {
      px + 2.0 * qxx * p.x + qxy * p.y
    }

    function Dy(p: Point): real {
      py + qxy * p.x + 2.0 * qyy * p.y
    }
  }

  /** Corner values of w, thetax = dw/dy and thetay = -dw/dx. */
  function NodalValues(w: Deflection, c: Corners): (v: seq<real>)
    ensures |v| == 9
  {
    [w.W(c[0]), w.W(c[1]), w.W(c[2]), w.Dy(c[0]), w.Dy(c[1]), w.Dy(c[2]), -w.Dx(c[0]), -w.Dx(c[1]), -w.Dx(c[2])]
  }

  /** The product of a shape function row with nodal values. */
  function Interpolate(beta: seq<real>, v: seq<real>): real
    requires |beta| == |v| == 9
  {
    beta[0] * v[0] + beta[1] * v[1] + beta[2] * v[2]
    + (beta[3] * v[3] + beta[4] * v[4] + beta[5] * v[5])
    + (beta[6] * v[6] + beta[7] * v[7] + beta[8] * v[8])
  }

  /** The phi-weighted sum of six nodal values. */
  function Weighted(phi: seq<real>, v: seq<real>): real
    requires |phi| == |v| == 6
  {
    phi[0] * v[0] + phi[1] * v[1] + phi[2] * v[2] + phi[3] * v[3] + phi[4] * v[4] + phi[5] * v[5]
  }

  function SlopesX(w: Deflection, t: seq<Point>): (v: seq<real>)
    requires |t| == 6
    ensures |v| == 6
  {
    [-w.Dx(t[0]), -w.Dx(t[1]), -w.Dx(t[2]), -w.Dx(t[3]), -w.Dx(t[4]), -w.Dx(t[5])]
  }

  function SlopesY(w: Deflection, t: seq<Point>): (v: seq<real>)
    requires |t| == 6
    ensures |v| == 6
  {
    [-w.Dy(t[0]), -w.Dy(t[1]), -w.Dy(t[2]), -w.Dy(t[3]), -w.Dy(t[4]), -w.Dy(t[5])]
  }

  // ---------------------------------------------------------------------------------------------
  // One edge
  // ---------------------------------------------------------------------------------------------

  /** The edge from a to b seen with normal side `side`: +1 in a counter-clockwise triangle and -1 in a clockwise one.
      */
  predicate IsEdge(e: Edge, a: Point, b: Point, side: real) {
    && e.length > 0.0
    && e.sine * e.sine + e.cosine * e.cosine == 1.0
    && e.sine * e.length == -(side * (b.x - a.x))
    && e.cosine * e.length == side * (b.y - a.y)
  }

  /** A quadratic changes along an edge by the edge vector times its gradient at the midpoint, which is the mean one. */
  lemma ChangeAlongEdge(w: Deflection, a: Point, b: Point)
    ensures w.W(b) - w.W(a) == (b.x - a.x) * w.Dx(Midpoint(a, b)) + (b.y - a.y) * w.Dy(Midpoint(a, b))
    ensures w.Dx(a) + w.Dx(b) == 2.0 * w.Dx(Midpoint(a, b)) && w.Dy(a) + w.Dy(b) == 2.0 * w.Dy(Midpoint(a, b))
  {
    assert w.W(b) - w.W(a) == w.px * (b.x - a.x) + w.py * (b.y - a.y) + w.qxx * (b.x * b.x - a.x * a.x)
                              + w.qxy * (b.x * b.y - a.x * a.y) + w.qyy * (b.y * b.y - a.y * a.y);
  }

  /** The change of a function with the given gradient per unit of edge length. */
  function Rate(e: Edge, gx: real, gy: real, side: real): real {
    side * (e.cosine * gy - e.sine * gx)
  }

  lemma SlopeTimesChange(n: real, e: Edge, change: real, rate: real)
    requires e.length != 0.0 && change == rate * e.length
    ensures SlopeX(n, e) * change == n * e.sine * rate && SlopeY(n, e) * change == n * e.cosine * rate
  {
    Quotient(n * e.sine, e.length, rate);
    Quotient(n * e.cosine, e.length, rate);
  }

  lemma Quotient(f: real, l: real, rate: real)
    requires l != 0.0
    ensures f / l * (rate * l) == f * rate
  {
    var q := f / l;
    assert q * l == f;
    assert q * (rate * l) == (q * l) * rate;
  }

  /** The terms of one edge in the interpolated betax and betay, from the change of w along it and the sums of the
      corner slopes. */
  function EdgeX(n: real, e: Edge, change: real, dx: real, dy: real): real
    requires e.length != 0.0
  {
    1.5 * (SlopeX(n, e) * change) - 0.75 * (Mixed(n, e) * dy) - AlongY(n, e) * dx
  }

  function EdgeY(n: real, e: Edge, change: real, dx: real, dy: real): real
    requires e.length != 0.0
  {
    -1.5 * (SlopeY(n, e) * change) + AlongX(n, e) * dy - 0.75 * (Mixed(n, e) * dx)
  }

  function MissX(n: real, e: Edge, change: real, side: real): real
    requires e.length != 0.0
  {
    if side == 1.0 then 0.0 else 3.0 * (SlopeX(n, e) * change)
  }

  function MissY(n: real, e: Edge, change: real, side: real): real
    requires e.length != 0.0
  {
    if side == 1.0 then 0.0 else -3.0 * (SlopeY(n, e) * change)
  }

  function EdgeTermX(n: real, e: Edge, a: Point, b: Point, w: Deflection): real
    requires e.length != 0.0
  {
    EdgeX(n, e, w.W(b) - w.W(a), w.Dx(a) + w.Dx(b), w.Dy(a) + w.Dy(b))
  }

  function EdgeTermY(n: real, e: Edge, a: Point, b: Point, w: Deflection): real
    requires e.length != 0.0
  {
    EdgeY(n, e, w.W(b) - w.W(a), w.Dx(a) + w.Dx(b), w.Dy(a) + w.Dy(b))
  }

  /** What a clockwise edge misses: three times the change of w, resolved along the normal and divided by the length. */
  function MissTermX(n: real, e: Edge, a: Point, b: Point, side: real, w: Deflection): real
    requires e.length != 0.0
  {
    MissX(n, e, w.W(b) - w.W(a), side)
  }

  function MissTermY(n: real, e: Edge, a: Point, b: Point, side: real, w: Deflection): real
    requires e.length != 0.0
  {
    MissY(n, e, w.W(b) - w.W(a), side)
  }

  /** One edge: its three terms interpolate minus the slope at its midpoint; in a clockwise triangle they miss it by
      three times the change of w along the edge, resolved along the normal and divided by the length. */
  lemma EdgeRotation(n: real, e: Edge, a: Point, b: Point, side: real, w: Deflection)
    requires IsEdge(e, a, b, side) && (side == 1.0 || side == -1.0) && e.length != 0.0
    ensures EdgeTermX(n, e, a, b, w) == -(n * w.Dx(Midpoint(a, b))) + MissTermX(n, e, a, b, side, w)
    ensures EdgeTermY(n, e, a, b, w) == -(n * w.Dy(Midpoint(a, b))) + MissTermY(n, e, a, b, side, w)
  {
    hide SlopeX, SlopeY, Mixed, AlongX, AlongY, EdgeX, EdgeY, MissX, MissY, Rate, IsEdge, Deflection.W,
         Deflection.Dx, Deflection.Dy, Midpoint;
    var change, gx, gy := w.W(b) - w.W(a), w.Dx(Midpoint(a, b)), w.Dy(Midpoint(a, b));
    ChangeAlongEdge(w, a, b);
    RateAlongEdge(e, a, b, gx, gy, side);
    SlopeTimesChange(n, e, change, Rate(e, gx, gy, side));
    EdgeAlgebra(n, e, gx, gy, side, change, w.Dx(a) + w.Dx(b), w.Dy(a) + w.Dy(b));
  }

  lemma RateAlongEdge(e: Edge, a: Point, b: Point, gx: real, gy: real, side: real)
    requires IsEdge(e, a, b, side) && (side == 1.0 || side == -1.0)
    ensures (b.x - a.x) * gx + (b.y - a.y) * gy == Rate(e, gx, gy, side) * e.length
    ensures e.sine * e.sine + e.cosine * e.cosine == 1.0
  {
    var sl, cl := e.sine * e.length, e.cosine * e.length;
    assert (e.cosine * gy - e.sine * gx) * e.length == cl * gy - sl * gx;
  }

  lemma EdgeAlgebra(n: real, e: Edge, gx: real, gy: real, side: real, change: real, dx: real, dy: real)
    requires e.sine * e.sine + e.cosine * e.cosine == 1.0 && (side == 1.0 || side == -1.0) && e.length != 0.0
    requires SlopeX(n, e) * change == n * e.sine * Rate(e, gx, gy, side)
    requires SlopeY(n, e) * change == n * e.cosine * Rate(e, gx, gy, side)
    requires dx == 2.0 * gx && dy == 2.0 * gy
    ensures EdgeX(n, e, change, dx, dy) == -(n * gx) + MissX(n, e, change, side)
    ensures EdgeY(n, e, change, dx, dy) == -(n * gy) + MissY(n, e, change, side)
  {
    hide SlopeX, SlopeY;
    var p, q := SlopeX(n, e) * change, SlopeY(n, e) * change;
    UnitEdgeAlgebra(n, e.sine, e.cosine, gx, gy, side, p, q);
  }

  lemma UnitEdgeAlgebra(n: real, s: real, c: real, gx: real, gy: real, side: real, p: real, q: real)
    requires s * s + c * c == 1.0 && (side == 1.0 || side == -1.0)
    requires p == n * s * (side * (c * gy - s * gx)) && q == n * c * (side * (c * gy - s * gx))
    ensures 1.5 * p - 0.75 * (n * s * c * (2.0 * gy)) - n * (0.5 * c * c - 0.25 * s * s) * (2.0 * gx)
         == -(n * gx) + if side == 1.0 then 0.0 else 3.0 * p
    ensures -1.5 * q + n * (0.25 * c * c - 0.5 * s * s) * (2.0 * gy) - 0.75 * (n * s * c * (2.0 * gx))
         == -(n * gy) - if side == 1.0 then 0.0 else 3.0 * q
  {
    var ngx, ngy := n * gx, n * gy;
    assert ngx == ngx * (s * s + c * c);
    assert ngy == ngy * (s * s + c * c);
  }

  // ---------------------------------------------------------------------------------------------
  // The triangle
  // ---------------------------------------------------------------------------------------------

  lemma RegroupX(n1: real, n2: real, n3: real, s4: real, s5: real, s6: real, m4: real, m5: real, m6: real,
                 a4: real, a5: real, a6: real, w0: real, w1: real, w2: real, y0: real, y1: real, y2: real, x0: real,
                 x1: real, x2: real, beta: seq<real>, v: seq<real>)
    requires beta == [1.5 * (s5 - s6), 1.5 * (s6 - s4), 1.5 * (s4 - s5), -0.75 * (m5 + m6), -0.75 * (m4 + m6),
                      -0.75 * (m5 + m4), n1 + a5 + a6, n2 + a4 + a6, n3 + a5 + a4]
    requires v == [w0, w1, w2, y0, y1, y2, -x0, -x1, -x2]
    ensures Interpolate(beta, v)
         == -(n1 * x0 + n2 * x1 + n3 * x2)
            + (1.5 * (s6 * (w1 - w0)) - 0.75 * (m6 * (y0 + y1)) - a6 * (x0 + x1))
            + (1.5 * (s4 * (w2 - w1)) - 0.75 * (m4 * (y1 + y2)) - a4 * (x1 + x2))
            + (1.5 * (s5 * (w0 - w2)) - 0.75 * (m5 * (y2 + y0)) - a5 * (x2 + x0))
  {
  }

  lemma RegroupY(n1: real, n2: real, n3: real, s4: real, s5: real, s6: real, m4: real, m5: real, m6: real,
                 a4: real, a5: real, a6: real, w0: real, w1: real, w2: real, y0: real, y1: real, y2: real, x0: real,
                 x1: real, x2: real, beta: seq<real>, v: seq<real>)
    requires beta == [1.5 * (-s5 + s6), 1.5 * (-s6 + s4), 1.5 * (-s4 + s5), -n1 + a5 + a6, -n2 + a4 + a6, -n3 + a5 + a4,
                      0.75 * (m5 + m6), 0.75 * (m4 + m6), 0.75 * (m5 + m4)]
    requires v == [w0, w1, w2, y0, y1, y2, -x0, -x1, -x2]
    ensures Interpolate(beta, v)
         == -(n1 * y0 + n2 * y1 + n3 * y2)
            + (-1.5 * (s6 * (w1 - w0)) + a6 * (y0 + y1) - 0.75 * (m6 * (x0 + x1)))
            + (-1.5 * (s4 * (w2 - w1)) + a4 * (y1 + y2) - 0.75 * (m4 * (x1 + x2)))
            + (-1.5 * (s5 * (w0 - w2)) + a5 * (y2 + y0) - 0.75 * (m5 * (x2 + x0)))
  {
  }

  lemma EdgeSpelledOut(n: real, e: Edge, change: real, dx: real, dy: real)
    requires e.length != 0.0
    ensures EdgeX(n, e, change, dx, dy)
         == 1.5 * (SlopeX(n, e) * change) - 0.75 * (Mixed(n, e) * dy) - AlongY(n, e) * dx
    ensures EdgeY(n, e, change, dx, dy)
         == -1.5 * (SlopeY(n, e) * change) + AlongX(n, e) * dy - 0.75 * (Mixed(n, e) * dx)
  {
    hide SlopeX, SlopeY, Mixed, AlongX, AlongY;
  }

  /** For any nodal values: the corner rotations thetay and -thetax, and one term for each edge. */
  lemma SplitX(phi: seq<real>, e4: Edge, e5: Edge, e6: Edge, v: seq<real>, t6: real, t4: real, t5: real)
    requires |phi| == 6 && |v| == 9 && e4.length != 0.0 && e5.length != 0.0 && e6.length != 0.0
    requires t6 == EdgeX(phi[3], e6, v[1] - v[0], -v[6] - v[7], v[3] + v[4])
    requires t4 == EdgeX(phi[4], e4, v[2] - v[1], -v[7] - v[8], v[4] + v[5])
    requires t5 == EdgeX(phi[5], e5, v[0] - v[2], -v[8] - v[6], v[5] + v[3])
    ensures Interpolate(ShapeFunctions(phi, e4, e5, e6).betax, v)
         == phi[0] * v[6] + phi[1] * v[7] + phi[2] * v[8] + t6 + t4 + t5
  {
    hide SlopeX, SlopeY, Mixed, AlongX, AlongY, Interpolate, EdgeX, EdgeY;
    var n4, n5, n6 := phi[4], phi[5], phi[3];
    EdgeSpelledOut(n6, e6, v[1] - v[0], -v[6] - v[7], v[3] + v[4]);
    EdgeSpelledOut(n4, e4, v[2] - v[1], -v[7] - v[8], v[4] + v[5]);
    EdgeSpelledOut(n5, e5, v[0] - v[2], -v[8] - v[6], v[5] + v[3]);
    assert v == [v[0], v[1], v[2], v[3], v[4], v[5], -(-v[6]), -(-v[7]), -(-v[8])];
    RegroupX(phi[0], phi[1], phi[2], SlopeX(n4, e4), SlopeX(n5, e5), SlopeX(n6, e6), Mixed(n4, e4), Mixed(n5, e5),
             Mixed(n6, e6), AlongY(n4, e4), AlongY(n5, e5), AlongY(n6, e6), v[0], v[1], v[2], v[3], v[4], v[5],
             -v[6], -v[7], -v[8], ShapeFunctions(phi, e4, e5, e6).betax, v);
  }

  lemma SplitY(phi: seq<real>, e4: Edge, e5: Edge, e6: Edge, v: seq<real>, t6: real, t4: real, t5: real)
    requires |phi| == 6 && |v| == 9 && e4.length != 0.0 && e5.length != 0.0 && e6.length != 0.0
    requires t6 == EdgeY(phi[3], e6, v[1] - v[0], -v[6] - v[7], v[3] + v[4])
    requires t4 == EdgeY(phi[4], e4, v[2] - v[1], -v[7] - v[8], v[4] + v[5])
    requires t5 == EdgeY(phi[5], e5, v[0] - v[2], -v[8] - v[6], v[5] + v[3])
    ensures Interpolate(ShapeFunctions(phi, e4, e5, e6).betay, v)
         == -(phi[0] * v[3] + phi[1] * v[4] + phi[2] * v[5]) + t6 + t4 + t5
  {
    hide SlopeX, SlopeY, Mixed, AlongX, AlongY, Interpolate, EdgeX, EdgeY;
    var n4, n5, n6 := phi[4], phi[5], phi[3];
    EdgeSpelledOut(n6, e6, v[1] - v[0], -v[6] - v[7], v[3] + v[4]);
    EdgeSpelledOut(n4, e4, v[2] - v[1], -v[7] - v[8], v[4] + v[5]);
    EdgeSpelledOut(n5, e5, v[0] - v[2], -v[8] - v[6], v[5] + v[3]);
    assert v == [v[0], v[1], v[2], v[3], v[4], v[5], -(-v[6]), -(-v[7]), -(-v[8])];
    RegroupY(phi[0], phi[1], phi[2], SlopeY(n4, e4), SlopeY(n5, e5), SlopeY(n6, e6), Mixed(n4, e4), Mixed(n5, e5),
             Mixed(n6, e6), AlongX(n4, e4), AlongX(n5, e5), AlongX(n6, e6), v[0], v[1], v[2], v[3], v[4], v[5],
             -v[6], -v[7], -v[8], ShapeFunctions(phi, e4, e5, e6).betay, v);
  }

  lemma WeightedSlopes(phi: seq<real>, c: Corners, w: Deflection)
    requires |phi| == 6
    ensures Weighted(phi, SlopesX(w, SixNodes(c)))
         == -(phi[0] * w.Dx(c[0]) + phi[1] * w.Dx(c[1]) + phi[2] * w.Dx(c[2])) - phi[3] * w.Dx(Midpoint(c[0], c[1]))
            - phi[4] * w.Dx(Midpoint(c[1], c[2])) - phi[5] * w.Dx(Midpoint(c[2], c[0]))
    ensures Weighted(phi, SlopesY(w, SixNodes(c)))
         == -(phi[0] * w.Dy(c[0]) + phi[1] * w.Dy(c[1]) + phi[2] * w.Dy(c[2])) - phi[3] * w.Dy(Midpoint(c[0], c[1]))
            - phi[4] * w.Dy(Midpoint(c[1], c[2])) - phi[5] * w.Dy(Midpoint(c[2], c[0]))
  {
    hide Midpoint, Deflection.Dx, Deflection.Dy;
  }

  predicate AreNodalValues(v: seq<real>, w: Deflection, c: Corners) {
    && |v| == 9
    && v[0] == w.W(c[0]) && v[1] == w.W(c[1]) && v[2] == w.W(c[2])
    && v[3] == w.Dy(c[0]) && v[4] == w.Dy(c[1]) && v[5] == w.Dy(c[2])
    && v[6] == -w.Dx(c[0]) && v[7] == -w.Dx(c[1]) && v[8] == -w.Dx(c[2])
  }

  /** For the nodal values of a quadratic deflection. */
  lemma NodalSplit(phi: seq<real>, c: Corners, e4: Edge, e5: Edge, e6: Edge, w: Deflection, v: seq<real>)
    requires |phi| == 6 && e4.length != 0.0 && e5.length != 0.0 && e6.length != 0.0 && AreNodalValues(v, w, c)
    ensures Interpolate(ShapeFunctions(phi, e4, e5, e6).betax, v)
         == -(phi[0] * w.Dx(c[0]) + phi[1] * w.Dx(c[1]) + phi[2] * w.Dx(c[2]))
            + EdgeTermX(phi[3], e6, c[0], c[1], w) + EdgeTermX(phi[4], e4, c[1], c[2], w)
            + EdgeTermX(phi[5], e5, c[2], c[0], w)
    ensures Interpolate(ShapeFunctions(phi, e4, e5, e6).betay, v)
         == -(phi[0] * w.Dy(c[0]) + phi[1] * w.Dy(c[1]) + phi[2] * w.Dy(c[2]))
            + EdgeTermY(phi[3], e6, c[0], c[1], w) + EdgeTermY(phi[4], e4, c[1], c[2], w)
            + EdgeTermY(phi[5], e5, c[2], c[0], w)
  {
    hide EdgeX, EdgeY, Interpolate, ShapeFunctions, Deflection.W, Deflection.Dx, Deflection.Dy, EdgeTermX, EdgeTermY;
    EdgeFromNodes(phi[3], e6, c[0], c[1], w, v[1] - v[0], -v[6] - v[7], v[3] + v[4]);
    EdgeFromNodes(phi[4], e4, c[1], c[2], w, v[2] - v[1], -v[7] - v[8], v[4] + v[5]);
    EdgeFromNodes(phi[5], e5, c[2], c[0], w, v[0] - v[2], -v[8] - v[6], v[5] + v[3]);
    CornerSums(phi, w.Dx(c[0]), w.Dx(c[1]), w.Dx(c[2]), v[6], v[7], v[8], w.Dy(c[0]), w.Dy(c[1]), w.Dy(c[2]), v[3],
               v[4],
               v[5]);
    SplitX(phi, e4, e5, e6, v, EdgeTermX(phi[3], e6, c[0], c[1], w), EdgeTermX(phi[4], e4, c[1], c[2], w),
           EdgeTermX(phi[5], e5, c[2], c[0], w));
    SplitY(phi, e4, e5, e6, v, EdgeTermY(phi[3], e6, c[0], c[1], w), EdgeTermY(phi[4], e4, c[1], c[2], w),
           EdgeTermY(phi[5], e5, c[2], c[0], w));
    hide AreNodalValues;
  }

  lemma CornerSums(phi: seq<real>, x0: real, x1: real, x2: real, v6: real, v7: real, v8: real, y0: real, y1: real,
                   y2: real, v3: real, v4: real, v5: real)
    requires |phi| == 6 && v6 == -x0 && v7 == -x1 && v8 == -x2 && v3 == y0 && v4 == y1 && v5 == y2
    ensures phi[0] * v6 + phi[1] * v7 + phi[2] * v8 == -(phi[0] * x0 + phi[1] * x1 + phi[2] * x2)
    ensures phi[0] * v3 + phi[1] * v4 + phi[2] * v5 == phi[0] * y0 + phi[1] * y1 + phi[2] * y2
  {
  }

  lemma NodalValuesAre(w: Deflection, c: Corners)
    ensures AreNodalValues(NodalValues(w, c), w, c)
  {
    hide Deflection.W, Deflection.Dx, Deflection.Dy;
  }

  lemma EdgeFromNodes(n: real, e: Edge, a: Point, b: Point, w: Deflection, change: real, dx: real, dy: real)
    requires e.length != 0.0
    requires change == w.W(b) - w.W(a) && dx == w.Dx(a) + w.Dx(b) && dy == w.Dy(a) + w.Dy(b)
    ensures EdgeX(n, e, change, dx, dy) == EdgeTermX(n, e, a, b, w)
    ensures EdgeY(n, e, change, dx, dy) == EdgeTermY(n, e, a, b, w)
  {
    hide EdgeX, EdgeY, Deflection.W, Deflection.Dx, Deflection.Dy;
  }

  /** With the edges of one orientation, the rotations interpolate minus the slopes at the six nodes, and in a clockwise
      triangle miss them by the sum of what the edges miss. */
  lemma RotationsOnEdges(phi: seq<real>, c: Corners, e4: Edge, e5: Edge, e6: Edge, side: real, w: Deflection)
    requires |phi| == 6 && e4.length != 0.0 && e5.length != 0.0 && e6.length != 0.0 && (side == 1.0 || side == -1.0)
    requires IsEdge(e4, c[1], c[2], side) && IsEdge(e5, c[2], c[0], side) && IsEdge(e6, c[0], c[1], side)
    ensures Interpolate(ShapeFunctions(phi, e4, e5, e6).betax, NodalValues(w, c))
         == Weighted(phi, SlopesX(w, SixNodes(c)))
            + (MissTermX(phi[3], e6, c[0], c[1], side, w) + MissTermX(phi[4], e4, c[1], c[2], side, w)
               + MissTermX(phi[5], e5, c[2], c[0], side, w))
    ensures Interpolate(ShapeFunctions(phi, e4, e5, e6).betay, NodalValues(w, c))
         == Weighted(phi, SlopesY(w, SixNodes(c)))
            + (MissTermY(phi[3], e6, c[0], c[1], side, w) + MissTermY(phi[4], e4, c[1], c[2], side, w)
               + MissTermY(phi[5], e5, c[2], c[0], side, w))
  {
    hide IsEdge, EdgeTermX, EdgeTermY, MissTermX, MissTermY, Interpolate, ShapeFunctions, NodalValues, Midpoint,
         Deflection.Dx, Deflection.Dy, Deflection.W, Weighted, SixNodes;
    WeightedSlopes(phi, c, w);
    NodalValuesAre(w, c);
    hide AreNodalValues;
    NodalSplit(phi, c, e4, e5, e6, w, NodalValues(w, c));
    EdgeRotation(phi[3], e6, c[0], c[1], side, w);
    EdgeRotation(phi[4], e4, c[1], c[2], side, w);
    EdgeRotation(phi[5], e5, c[2], c[0], side, w);
  }

  // ---------------------------------------------------------------------------------------------
  // Edges from the coordinates
  // ---------------------------------------------------------------------------------------------

  lemma RootOfSquare(sqrt: real -> real, x: real, s: real)
    requires ExactSqrt(sqrt) && s == x * x
    ensures sqrt(s) == Abs(x)
  {
    assert Sq(x) == s;
    var r := sqrt(s);
    assert Mul(r - x, r + x) == r * r - x * x;
    hide Mul;
    assert r == x || r == -x;
  }

  function Side(c: Corners): real {
    if CounterClockwise(c) then 1.0 else -1.0
  }

  /** The unit normal of the triangle is plus or minus the z direction. */
  lemma NormalIsVertical(sqrt: real -> real, c: Corners)
    requires ExactSqrt(sqrt) && InPlane(c)
    ensures var n := c[1].Minus(c[0]).Cross(c[2].Minus(c[0]));
      n.Norm(sqrt) != 0.0 && n.Over(n.Norm(sqrt)) == Point(0.0, 0.0, Side(c))
  {
    var n, area := c[1].Minus(c[0]).Cross(c[2].Minus(c[0])), Area2(c);
    assert n == Point(0.0, 0.0, area);
    hide Area2, Point.Norm, Point.Cross, Point.Minus;
    VerticalNorm(sqrt, n, area);
    OverItself(area);
  }

  lemma VerticalNorm(sqrt: real -> real, n: Point, a: real)
    requires ExactSqrt(sqrt) && n == Point(0.0, 0.0, a)
    ensures n.Norm(sqrt) == Abs(a)
  {
    assert n.NormSq() == a * a;
    RootOfSquare(sqrt, a, n.NormSq());
  }

  lemma OverItself(area: real)
    requires area != 0.0
    ensures area / Abs(area) == (if area > 0.0 then 1.0 else -1.0) && 0.0 / Abs(area) == 0.0
  {
  }

  function UnitNormal(sqrt: real -> real, c: Corners): (n: Point)
    requires ExactSqrt(sqrt) && InPlane(c)
    ensures n == Point(0.0, 0.0, Side(c))
  {
    NormalIsVertical(sqrt, c);
    var n := c[1].Minus(c[0]).Cross(c[2].Minus(c[0]));
    n.Over(n.Norm(sqrt))
  }

  predicate IsSide(i: nat, j: nat) {
    (i == 0 && j == 1) || (i == 1 && j == 2) || (i == 2 && j == 0)
  }

  lemma SideHasLength(c: Corners, i: nat, j: nat)
    requires InPlane(c) && IsSide(i, j)
    ensures c[j].x - c[i].x != 0.0 || c[j].y - c[i].y != 0.0
  {
  }

  /** Turning an in-plane vector by a right angle keeps its norm. */
  lemma TurnedNorm(sqrt: real -> real, d: Point, side: real, m: Point)
    requires ExactSqrt(sqrt) && (d.x != 0.0 || d.y != 0.0) && d.z == 0.0
    requires m == Point(d.y * side, -(d.x * side), 0.0) && (side == 1.0 || side == -1.0)
    ensures m.Norm(sqrt) == d.Norm(sqrt) > 0.0 && m.Norm(sqrt) * m.Norm(sqrt) == m.x * m.x + m.y * m.y
  {
    var s := Sq(d.x) + Sq(d.y);
    assert d.NormSq() == s && m.NormSq() == s && m.x * m.x + m.y * m.y == s;
    hide Point.NormSq, Sq;
    var r := sqrt(s);
    assert r * r == s;
  }

  /** The in-plane normal of a side before normalisation, and its length, which is that of the side. */
  lemma SideNormal(sqrt: real -> real, c: Corners, i: nat, j: nat)
    requires ExactSqrt(sqrt) && InPlane(c) && IsSide(i, j)
    ensures var m := c[j].Minus(c[i]).Cross(UnitNormal(sqrt, c));
      && m == Point((c[j].y - c[i].y) * Side(c), -((c[j].x - c[i].x) * Side(c)), 0.0)
      && m.Norm(sqrt) == c[j].Minus(c[i]).Norm(sqrt)
      && m.Norm(sqrt) > 0.0
      && m.Norm(sqrt) * m.Norm(sqrt) == m.x * m.x + m.y * m.y
  {
    var m, d := c[j].Minus(c[i]).Cross(UnitNormal(sqrt, c)), c[j].Minus(c[i]);
    SideHasLength(c, i, j);
    assert m == Point(d.y * Side(c), -(d.x * Side(c)), 0.0);
    hide Point.Norm, Point.Cross;
    TurnedNorm(sqrt, d, Side(c), m);
  }

  function EdgeOf(sqrt: real -> real, c: Corners, i: nat, j: nat): Edge
    requires ExactSqrt(sqrt) && InPlane(c) && IsSide(i, j)
  {
    SideNormal(sqrt, c, i, j);
    var m := c[j].Minus(c[i]).Cross(UnitNormal(sqrt, c));
    var v := m.Over(m.Norm(sqrt));
    Edge(v.y, v.x, c[j].Minus(c[i]).Norm(sqrt))
  }

  /** Sine and cosine of the normal are those of the side turned by a right angle, outward for a counter-clockwise
      triangle. */
  lemma EdgeOfIsEdge(sqrt: real -> real, c: Corners, i: nat, j: nat)
    requires ExactSqrt(sqrt) && InPlane(c) && IsSide(i, j)
    ensures IsEdge(EdgeOf(sqrt, c, i, j), c[i], c[j], Side(c)) && EdgeOf(sqrt, c, i, j).length > 0.0
  {
    hide Point.Norm, Point.Cross, Point.Minus, Point.Over, Area2, IsEdge, InPlane;
    SideNormal(sqrt, c, i, j);
    var m := c[j].Minus(c[i]).Cross(UnitNormal(sqrt, c));
    UnitEdge(m, m.Norm(sqrt), c[i], c[j], Side(c));
  }

  lemma UnitEdge(m: Point, r: real, a: Point, b: Point, side: real)
    requires r > 0.0 && r * r == m.x * m.x + m.y * m.y
    requires m.x == (b.y - a.y) * side && m.y == -((b.x - a.x) * side)
    ensures IsEdge(Edge(m.Over(r).y, m.Over(r).x, r), a, b, side)
  {
    UnitVector(m, r);
  }

  lemma UnitVector(m: Point, r: real)
    requires r > 0.0 && r * r == m.x * m.x + m.y * m.y
    ensures var v := m.Over(r);
      v.x * r == m.x && v.y * r == m.y && v.x * v.x + v.y * v.y == 1.0
  {
    var x, y := m.x / r, m.y / r;
    assert x * r == m.x && y * r == m.y;
    assert (x * x + y * y) * (r * r) == (x * r) * (x * r) + (y * r) * (y * r);
    var t := x * x + y * y;
    assert Mul(t - 1.0, r * r) == 0.0;
    assert Sq(r) > 0.0;
    hide Mul;
    assert t - 1.0 == 0.0;
  }

  function Shapes(sqrt: real -> real, c: Corners, phi: seq<real>): (r: Rotations)
    requires ExactSqrt(sqrt) && InPlane(c) && |phi| == 6
    ensures |r.betax| == |r.betay| == 9
  {
    LengthsArePositive(sqrt, c);
    ShapeFunctions(phi, EdgeOf(sqrt, c, 1, 2), EdgeOf(sqrt, c, 2, 0), EdgeOf(sqrt, c, 0, 1))
  }

  /** The rotations interpolated from the nodal values of w are minus its slopes, weighted as the six-node shape
      functions weigh them. */
  ghost predicate Reproduces(sqrt: real -> real, c: Corners, phi: seq<real>, w: Deflection)
    requires ExactSqrt(sqrt) && InPlane(c) && |phi| == 6
  {
    && Interpolate(Shapes(sqrt, c, phi).betax, NodalValues(w, c)) == Weighted(phi, SlopesX(w, SixNodes(c)))
    && Interpolate(Shapes(sqrt, c, phi).betay, NodalValues(w, c)) == Weighted(phi, SlopesY(w, SixNodes(c)))
  }

  /** The patch test holds in every counter-clockwise triangle. */
  lemma PatchTest(sqrt: real -> real, c: Corners, phi: seq<real>, w: Deflection)
    requires ExactSqrt(sqrt) && InPlane(c) && |phi| == 6 && CounterClockwise(c)
    ensures Reproduces(sqrt, c, phi, w)
  {
    hide ShapeFunctions, Interpolate, Weighted, NodalValues, SixNodes, SlopesX, SlopesY, IsEdge, Area2, InPlane,
         Deflection.W, EdgeOf, MissX, MissY;
    LengthsArePositive(sqrt, c);
    var e4, e5, e6 := EdgeOf(sqrt, c, 1, 2), EdgeOf(sqrt, c, 2, 0), EdgeOf(sqrt, c, 0, 1);
    RotationsOnEdges(phi, c, e4, e5, e6, 1.0, w);
    NothingMissed(phi, c, e4, e5, e6, w);
  }

  lemma NothingMissed(phi: seq<real>, c: Corners, e4: Edge, e5: Edge, e6: Edge, w: Deflection)
    requires |phi| == 6 && e4.length != 0.0 && e5.length != 0.0 && e6.length != 0.0
    ensures MissTermX(phi[3], e6, c[0], c[1], 1.0, w) + MissTermX(phi[4], e4, c[1], c[2], 1.0, w)
            + MissTermX(phi[5], e5, c[2], c[0], 1.0, w) == 0.0
    ensures MissTermY(phi[3], e6, c[0], c[1], 1.0, w) + MissTermY(phi[4], e4, c[1], c[2], 1.0, w)
            + MissTermY(phi[5], e5, c[2], c[0], 1.0, w) == 0.0
  {
  }

  lemma LengthsArePositive(sqrt: real -> real, c: Corners)
    requires ExactSqrt(sqrt) && InPlane(c)
    ensures EdgeOf(sqrt, c, 1, 2).length > 0.0 && EdgeOf(sqrt, c, 2, 0).length > 0.0
            && EdgeOf(sqrt, c, 0, 1).length > 0.0
    ensures IsEdge(EdgeOf(sqrt, c, 1, 2), c[1], c[2], Side(c))
    ensures IsEdge(EdgeOf(sqrt, c, 2, 0), c[2], c[0], Side(c))
    ensures IsEdge(EdgeOf(sqrt, c, 0, 1), c[0], c[1], Side(c))
  {
    hide IsEdge, EdgeOf, InPlane, Area2;
    EdgeOfIsEdge(sqrt, c, 1, 2);
    EdgeOfIsEdge(sqrt, c, 2, 0);
    EdgeOfIsEdge(sqrt, c, 0, 1);
  }

  /** In a clockwise triangle the patch test fails already on the side from the first corner to the second: with weight
      one on its midpoint and w rising along the side,
      a rotation is missed by three times the squared normal component. */
  lemma ClockwiseFails(sqrt: real -> real, c: Corners) returns (phi: seq<real>, w: Deflection)
    requires ExactSqrt(sqrt) && InPlane(c) && !CounterClockwise(c)
    ensures |phi| == 6 && !Reproduces(sqrt, c, phi, w)
  {
    hide ShapeFunctions, Interpolate, Weighted, NodalValues, SixNodes, SlopesX, SlopesY, IsEdge, Area2, InPlane,
         EdgeOf, MissTermX, MissTermY;
    LengthsArePositive(sqrt, c);
    var e4, e5, e6 := EdgeOf(sqrt, c, 1, 2), EdgeOf(sqrt, c, 2, 0), EdgeOf(sqrt, c, 0, 1);
    phi := [0.0, 0.0, 0.0, 1.0, 0.0, 0.0];
    w := Deflection(0.0, c[1].x - c[0].x, c[1].y - c[0].y, 0.0, 0.0, 0.0);
    RotationsOnEdges(phi, c, e4, e5, e6, -1.0, w);
    OnlyFirstSideMisses(c, e4, e5, e6, w);
    FirstSideMisses(c, e6, w);
  }

  lemma OnlyFirstSideMisses(c: Corners, e4: Edge, e5: Edge, e6: Edge, w: Deflection)
    requires e4.length != 0.0 && e5.length != 0.0
    ensures MissTermX(0.0, e4, c[1], c[2], -1.0, w) == 0.0 && MissTermX(0.0, e5, c[2], c[0], -1.0, w) == 0.0
    ensures MissTermY(0.0, e4, c[1], c[2], -1.0, w) == 0.0 && MissTermY(0.0, e5, c[2], c[0], -1.0, w) == 0.0
  {
    hide Deflection.W;
  }

  lemma FirstSideMisses(c: Corners, e: Edge, w: Deflection)
    requires IsEdge(e, c[0], c[1], -1.0) && e.length != 0.0
    requires w == Deflection(0.0, c[1].x - c[0].x, c[1].y - c[0].y, 0.0, 0.0, 0.0)
    ensures MissTermX(1.0, e, c[0], c[1], -1.0, w) != 0.0 || MissTermY(1.0, e, c[0], c[1], -1.0, w) != 0.0
  {
    var dx, dy, change := c[1].x - c[0].x, c[1].y - c[0].y, w.W(c[1]) - w.W(c[0]);
    assert change == dx * dx + dy * dy;
    hide Deflection.W;
    var x, y := SlopeX(1.0, e), SlopeY(1.0, e);
    assert x * e.length == e.sine && y * e.length == e.cosine;
    assert Sq(dx) + Sq(dy) == change;
    UnitHasComponent(e.sine, e.cosine, e.length, x, y, dx, dy, change);
  }

  lemma UnitHasComponent(s: real, c: real, l: real, x: real, y: real, dx: real, dy: real, change: real)
    requires s * s + c * c == 1.0 && x * l == s && y * l == c && s * l == dx && c * l == -dy
    requires l != 0.0 && change == Sq(dx) + Sq(dy)
    ensures x * change != 0.0 || y * change != 0.0
  {
    assert s != 0.0 || c != 0.0;
    assert dx == Mul(s, l) && -dy == Mul(c, l);
    assert x != 0.0 || y != 0.0;
    assert Mul(x, change) == x * change && Mul(y, change) == y * change;
    hide Mul, Sq;
    assert change > 0.0;
  }

  /** The patch test, for all deflections and weights, holds exactly in the counter-clockwise triangles. */
  lemma PatchTestExactlyCounterClockwise(sqrt: real -> real, c: Corners)
    requires ExactSqrt(sqrt) && InPlane(c)
    ensures CounterClockwise(c) <==> forall phi: seq<real>, w: Deflection | |phi| == 6 :: Reproduces(sqrt, c, phi, w)
  {
    hide Reproduces, Area2, InPlane;
    if CounterClockwise(c) {
      forall phi: seq<real>, w: Deflection | |phi| == 6
        ensures Reproduces(sqrt, c, phi, w)
      {
        PatchTest(sqrt, c, phi, w);
      }
    } else {
      var phi, w := ClockwiseFails(sqrt, c);
    }
  }

  // ---------------------------------------------------------------------------------------------
  // Any nodal values: the discrete Kirchhoff conditions
  // ---------------------------------------------------------------------------------------------

  lemma EdgeIsLinear(n: real, e: Edge, change: real, dx: real, dy: real)
    requires e.length != 0.0
    ensures EdgeX(n, e, change, dx, dy) == n * EdgeX(1.0, e, change, dx, dy)
    ensures EdgeY(n, e, change, dx, dy) == n * EdgeY(1.0, e, change, dx, dy)
  {
    hide SlopeX, SlopeY, Mixed, AlongX, AlongY, EdgeX, EdgeY;
    PartsAreLinear(n, e, change);
    EdgeSpelledOut(n, e, change, dx, dy);
    EdgeSpelledOut(1.0, e, change, dx, dy);
    LinearTerms(n, SlopeX(1.0, e) * change, Mixed(1.0, e), AlongY(1.0, e), dx, dy, SlopeX(n, e) * change, Mixed(n, e),
                AlongY(n, e));
    LinearTerms(n, -(SlopeY(1.0, e) * change), Mixed(1.0, e), -AlongX(1.0, e), dy, dx, -(SlopeY(n, e) * change),
                Mixed(n, e), -AlongX(n, e));
  }

  lemma PartsAreLinear(n: real, e: Edge, change: real)
    requires e.length != 0.0
    ensures SlopeX(n, e) * change == n * (SlopeX(1.0, e) * change)
    ensures SlopeY(n, e) * change == n * (SlopeY(1.0, e) * change)
    ensures Mixed(n, e) == n * Mixed(1.0, e) && AlongX(n, e) == n * AlongX(1.0, e)
            && AlongY(n, e) == n * AlongY(1.0, e)
  {
    FactorOut(n, e.sine, e.length, change);
    FactorOut(n, e.cosine, e.length, change);
  }

  lemma FactorOut(n: real, s: real, l: real, change: real)
    requires l != 0.0
    ensures n * s / l * change == n * (1.0 * s / l * change)
  {
    var r := s / l;
    assert r * l == s;
    assert n * s / l == n * r;
  }

  lemma LinearTerms(n: real, p: real, m: real, a: real, dx: real, dy: real, pn: real, mn: real, an: real)
    requires pn == n * p && mn == n * m && an == n * a
    ensures 1.5 * pn - 0.75 * (mn * dy) - an * dx == n * (1.5 * p - 0.75 * (m * dy) - a * dx)
  {
  }

  /** The rotations at the six nodes that the shape functions weigh, from the nodal values. */
  function NodalX(sqrt: real -> real, c: Corners, v: seq<real>): (b: seq<real>)
    requires ExactSqrt(sqrt) && InPlane(c) && |v| == 9
    ensures |b| == 6
  {
    LengthsArePositive(sqrt, c);
    [v[6], v[7], v[8], EdgeX(1.0, EdgeOf(sqrt, c, 0, 1), v[1] - v[0], -v[6] - v[7], v[3] + v[4]),
     EdgeX(1.0, EdgeOf(sqrt, c, 1, 2), v[2] - v[1], -v[7] - v[8], v[4] + v[5]),
     EdgeX(1.0, EdgeOf(sqrt, c, 2, 0), v[0] - v[2], -v[8] - v[6], v[5] + v[3])]
  }

  function NodalY(sqrt: real -> real, c: Corners, v: seq<real>): (b: seq<real>)
    requires ExactSqrt(sqrt) && InPlane(c) && |v| == 9
    ensures |b| == 6
  {
    LengthsArePositive(sqrt, c);
    [-v[3], -v[4], -v[5], EdgeY(1.0, EdgeOf(sqrt, c, 0, 1), v[1] - v[0], -v[6] - v[7], v[3] + v[4]),
     EdgeY(1.0, EdgeOf(sqrt, c, 1, 2), v[2] - v[1], -v[7] - v[8], v[4] + v[5]),
     EdgeY(1.0, EdgeOf(sqrt, c, 2, 0), v[0] - v[2], -v[8] - v[6], v[5] + v[3])]
  }

  lemma ShapesWeigh(sqrt: real -> real, c: Corners, phi: seq<real>, v: seq<real>)
    requires ExactSqrt(sqrt) && InPlane(c) && |phi| == 6 && |v| == 9
    ensures Interpolate(Shapes(sqrt, c, phi).betax, v) == Weighted(phi, NodalX(sqrt, c, v))
    ensures Interpolate(Shapes(sqrt, c, phi).betay, v) == Weighted(phi, NodalY(sqrt, c, v))
  {
    hide InPlane, EdgeOf, EdgeX, EdgeY, Interpolate, ShapeFunctions, ExactSqrt;
    LengthsArePositive(sqrt, c);
    var e4, e5, e6 := EdgeOf(sqrt, c, 1, 2), EdgeOf(sqrt, c, 2, 0), EdgeOf(sqrt, c, 0, 1);
    var x, y := NodalX(sqrt, c, v), NodalY(sqrt, c, v);
    hide Weighted;
    EdgeIsLinear(phi[3], e6, v[1] - v[0], -v[6] - v[7], v[3] + v[4]);
    EdgeIsLinear(phi[4], e4, v[2] - v[1], -v[7] - v[8], v[4] + v[5]);
    EdgeIsLinear(phi[5], e5, v[0] - v[2], -v[8] - v[6], v[5] + v[3]);
    SplitX(phi, e4, e5, e6, v, phi[3] * x[3], phi[4] * x[4], phi[5] * x[5]);
    SplitY(phi, e4, e5, e6, v, phi[3] * y[3], phi[4] * y[4], phi[5] * y[5]);
    WeighedParts(phi, x, v[6], v[7], v[8]);
    WeighedParts(phi, y, -v[3], -v[4], -v[5]);
    CornerSums(phi, v[3], v[4], v[5], -v[3], -v[4], -v[5], 0.0, 0.0, 0.0, 0.0, 0.0, 0.0);
    hide NodalX, NodalY;
  }

  lemma WeighedParts(phi: seq<real>, b: seq<real>, b0: real, b1: real, b2: real)
    requires |phi| == |b| == 6 && b[0] == b0 && b[1] == b1 && b[2] == b2
    ensures Weighted(phi, b)
         == phi[0] * b0 + phi[1] * b1 + phi[2] * b2 + phi[3] * b[3] + phi[4] * b[4] + phi[5] * b[5]
  {
  }

  /** The rotation (rx, ry) in the middle of a side, from the change of w along it and the sums of the slopes at its
      ends: along the side it is minus the slope of the cubic with the values and slopes of the ends, across it the mean
      of the end rotations. */
  ghost predicate KirchhoffMidside(a: Point, b: Point, change: real, dx: real, dy: real, rx: real, ry: real) {
    var x, y := b.x - a.x, b.y - a.y;
    && x * rx + y * ry == -MiddleSlope(change, x * dx + y * dy)
    && y * rx - x * ry == -0.5 * (y * dx - x * dy)
  }

  /** The slope of a cubic in the middle of [0, 1], from its change and the sum of its end slopes. */
  function MiddleSlope(change: real, slopes: real): real {
    1.5 * change - 0.25 * slopes
  }

  lemma CubicInTheMiddle(c0: real, c1: real, c2: real, c3: real)
    ensures var w := (s: real) => c0 + c1 * s + c2 * s * s + c3 * s * s * s;
            var slope := (s: real) => c1 + 2.0 * c2 * s + 3.0 * c3 * s * s;
            slope(0.5) == MiddleSlope(w(1.0) - w(0.0), slope(0.0) + slope(1.0))
  {
  }

  /** The rotations at the six nodes of discrete Kirchhoff theory for w, thetax = dw/dy and thetay = -dw/dx at the
      corners. */
  ghost predicate IsKirchhoff(c: Corners, v: seq<real>, rx: seq<real>, ry: seq<real>)
    requires |v| == 9
  {
    && |rx| == 6 && |ry| == 6
    && rx[0] == v[6] && rx[1] == v[7] && rx[2] == v[8] && ry[0] == -v[3] && ry[1] == -v[4] && ry[2] == -v[5]
    && KirchhoffMidside(c[0], c[1], v[1] - v[0], -v[6] - v[7], v[3] + v[4], rx[3], ry[3])
    && KirchhoffMidside(c[1], c[2], v[2] - v[1], -v[7] - v[8], v[4] + v[5], rx[4], ry[4])
    && KirchhoffMidside(c[2], c[0], v[0] - v[2], -v[8] - v[6], v[5] + v[3], rx[5], ry[5])
  }

  lemma EdgeIsKirchhoff(e: Edge, a: Point, b: Point, change: real, dx: real, dy: real)
    requires IsEdge(e, a, b, 1.0)
    ensures KirchhoffMidside(a, b, change, dx, dy, EdgeX(1.0, e, change, dx, dy), EdgeY(1.0, e, change, dx, dy))
  {
    hide EdgeX, EdgeY, IsEdge;
    EdgeFacts(e, a, b);
    var x, y := EdgeX(1.0, e, change, dx, dy), EdgeY(1.0, e, change, dx, dy);
    var s, c, l := e.sine, e.cosine, e.length;
    EdgeAxes(e, change, dx, dy);
    InSideAxes(e, a, b, x, y);
    InSideAxes(e, a, b, dx, dy);
    KirchhoffFrom(a, b, change, dx, dy, x, y, l * (c * y - s * x), l * (c * x + s * y), l * (c * dy - s * dx),
                  l * (c * dx + s * dy));
  }

  /** The terms of one edge for unit weight, along and across it. */
  lemma EdgeAxes(e: Edge, change: real, dx: real, dy: real)
    requires e.length != 0.0 && e.sine * e.sine + e.cosine * e.cosine == 1.0
    ensures var x, y := EdgeX(1.0, e, change, dx, dy), EdgeY(1.0, e, change, dx, dy);
            && e.length * (e.cosine * y - e.sine * x)
               == -1.5 * change + 0.25 * (e.length * (e.cosine * dy - e.sine * dx))
            && e.length * (e.cosine * x + e.sine * y) == -0.5 * (e.length * (e.cosine * dx + e.sine * dy))
  {
    hide EdgeX, EdgeY;
    var x, y := EdgeX(1.0, e, change, dx, dy), EdgeY(1.0, e, change, dx, dy);
    var p, q := EdgeTurned(e, change, dx, dy);
    AlongSide(e.sine, e.cosine, e.length, change, dx, dy, p, q, x, y);
    AcrossSide(e.sine, e.cosine, e.length, change, dx, dy, p, q, x, y);
  }

  /** The terms of one edge for unit weight, in components along and across it. */
  lemma EdgeTurned(e: Edge, change: real, dx: real, dy: real) returns (p: real, q: real)
    requires e.length != 0.0 && e.sine * e.sine + e.cosine * e.cosine == 1.0
    ensures p * e.length == e.sine * change && q * e.length == e.cosine * change
    ensures var x, y := EdgeX(1.0, e, change, dx, dy), EdgeY(1.0, e, change, dx, dy);
            && e.cosine * y - e.sine * x
               == -1.5 * (e.sine * p + e.cosine * q) + 0.25 * (e.cosine * dy - e.sine * dx)
            && e.cosine * x + e.sine * y
               == 1.5 * (e.cosine * p - e.sine * q) - 0.5 * (e.cosine * dx + e.sine * dy)
  {
    hide EdgeX, EdgeY;
    var x, y;
    p, q, x, y := EdgeComponents(e, change, dx, dy, e.cosine * dy - e.sine * dx, e.cosine * dx + e.sine * dy);
    TurnBack(e.sine, e.cosine, e.cosine * dy - e.sine * dx, e.cosine * dx + e.sine * dy, p, q, x, y);
  }

  lemma TurnBack(s: real, c: real, a: real, n: real, p: real, q: real, x: real, y: real)
    requires s * s + c * c == 1.0
    requires x == 1.5 * p - 0.5 * (c * n) - 0.25 * (s * a) && y == -1.5 * q - 0.5 * (s * n) + 0.25 * (c * a)
    ensures c * y - s * x == -1.5 * (s * p + c * q) + 0.25 * a
    ensures c * x + s * y == 1.5 * (c * p - s * q) - 0.5 * n
  {
    OnUnitCircle(s, c, a);
    OnUnitCircle(s, c, n);
  }

  lemma OnUnitCircle(s: real, c: real, u: real)
    requires s * s + c * c == 1.0
    ensures u == u * (s * s) + u * (c * c)
  {
    assert u * (s * s + c * c) == u * (s * s) + u * (c * c);
  }

  lemma EdgeFacts(e: Edge, a: Point, b: Point)
    requires IsEdge(e, a, b, 1.0)
    ensures e.length != 0.0 && e.sine * e.sine + e.cosine * e.cosine == 1.0
  {
  }

  lemma KirchhoffFrom(a: Point, b: Point, change: real, dx: real, dy: real, x: real, y: real, along: real, across: real,
                      slopes: real, turned: real)
    requires (b.x - a.x) * x + (b.y - a.y) * y == along == -1.5 * change + 0.25 * slopes
    requires (b.y - a.y) * x - (b.x - a.x) * y == across == -0.5 * turned
    requires (b.x - a.x) * dx + (b.y - a.y) * dy == slopes && (b.y - a.y) * dx - (b.x - a.x) * dy == turned
    ensures KirchhoffMidside(a, b, change, dx, dy, x, y)
  {
  }

  lemma InSideAxes(e: Edge, a: Point, b: Point, u: real, v: real)
    requires IsEdge(e, a, b, 1.0)
    ensures (b.x - a.x) * u + (b.y - a.y) * v == e.length * (e.cosine * v - e.sine * u)
    ensures (b.y - a.y) * u - (b.x - a.x) * v == e.length * (e.cosine * u + e.sine * v)
  {
    Turned(e.sine, e.cosine, e.length, b.x - a.x, b.y - a.y, u, v);
  }

  /** The terms of one edge for unit weight, from the change of w over the length and the slopes along the side, a, and
      across it, n. */
  lemma EdgeComponents(e: Edge, change: real, dx: real, dy: real, a: real, n: real)
    returns (p: real, q: real, x: real, y: real)
    requires e.length != 0.0 && a == e.cosine * dy - e.sine * dx && n == e.cosine * dx + e.sine * dy
    ensures p * e.length == e.sine * change && q * e.length == e.cosine * change
    ensures x == EdgeX(1.0, e, change, dx, dy) == 1.5 * p - 0.5 * (e.cosine * n) - 0.25 * (e.sine * a)
    ensures y == EdgeY(1.0, e, change, dx, dy) == -1.5 * q - 0.5 * (e.sine * n) + 0.25 * (e.cosine * a)
  {
    p, q := SlopeX(1.0, e) * change, SlopeY(1.0, e) * change;
    OverLength(e.sine, e.length, change, p);
    OverLength(e.cosine, e.length, change, q);
    hide SlopeX, SlopeY;
    x, y := EdgeX(1.0, e, change, dx, dy), EdgeY(1.0, e, change, dx, dy);
  }

  lemma OverLength(s: real, l: real, change: real, p: real)
    requires l != 0.0 && p == 1.0 * s / l * change
    ensures p * l == s * change
  {
    var r := s / l;
    assert r * l == s;
  }

  lemma AlongSide(s: real, c: real, l: real, change: real, dx: real, dy: real, p: real, q: real, x: real, y: real)
    requires s * s + c * c == 1.0 && p * l == s * change && q * l == c * change
    requires c * y - s * x == -1.5 * (s * p + c * q) + 0.25 * (c * dy - s * dx)
    ensures l * (c * y - s * x) == -1.5 * change + 0.25 * (l * (c * dy - s * dx))
  {
    assert l * (s * p + c * q) == s * (p * l) + c * (q * l);
    assert s * (s * change) + c * (c * change) == (s * s + c * c) * change;
  }

  lemma AcrossSide(s: real, c: real, l: real, change: real, dx: real, dy: real, p: real, q: real, x: real, y: real)
    requires p * l == s * change && q * l == c * change
    requires c * x + s * y == 1.5 * (c * p - s * q) - 0.5 * (c * dx + s * dy)
    ensures l * (c * x + s * y) == -0.5 * (l * (c * dx + s * dy))
  {
    assert l * (c * p - s * q) == c * (p * l) - s * (q * l);
  }

  /** The components of a vector along and across the side. */
  lemma Turned(s: real, c: real, l: real, x: real, y: real, u: real, v: real)
    requires x == -(s * l) && y == c * l
    ensures x * u + y * v == l * (c * v - s * u) && y * u - x * v == l * (c * u + s * v)
  {
  }

  /** Both conditions together leave one rotation. */
  lemma KirchhoffIsUnique(a: Point, b: Point, change: real, dx: real, dy: real, rx: real, ry: real, rx': real,
                          ry': real)
    requires a.x != b.x || a.y != b.y
    requires KirchhoffMidside(a, b, change, dx, dy, rx, ry) && KirchhoffMidside(a, b, change, dx, dy, rx', ry')
    ensures rx == rx' && ry == ry'
  {
    var x, y, u, v := b.x - a.x, b.y - a.y, rx - rx', ry - ry';
    assert x * u + y * v == 0.0 && y * u - x * v == 0.0;
    hide KirchhoffMidside;
    NoComponents(x, y, u, v);
  }

  lemma NoComponents(x: real, y: real, u: real, v: real)
    requires x * u + y * v == 0.0 && y * u - x * v == 0.0 && (x != 0.0 || y != 0.0)
    ensures u == 0.0 && v == 0.0
  {
    var d := Sq(x) + Sq(y);
    assert d > 0.0;
    assert Mul(d, u) == x * (x * u + y * v) + y * (y * u - x * v);
    assert Mul(d, v) == y * (x * u + y * v) - x * (y * u - x * v);
    hide Sq;
    ZeroFactor(d, u);
    ZeroFactor(d, v);
  }

  lemma ZeroFactor(d: real, u: real)
    requires d > 0.0 && Mul(d, u) == 0.0
    ensures u == 0.0
  {
  }

  /** The six rotations are those weighed by the shape functions if they are so on each side. */
  lemma SidesAreUnique(c: Corners, v: seq<real>, x: seq<real>, y: seq<real>, rx: seq<real>, ry: seq<real>)
    requires |v| == 9 && IsKirchhoff(c, v, x, y) && IsKirchhoff(c, v, rx, ry) && InPlane(c)
    ensures rx == x && ry == y
  {
    hide InPlane, KirchhoffMidside;
    SideHasLength(c, 0, 1);
    SideHasLength(c, 1, 2);
    SideHasLength(c, 2, 0);
    KirchhoffIsUnique(c[0], c[1], v[1] - v[0], -v[6] - v[7], v[3] + v[4], rx[3], ry[3], x[3], y[3]);
    KirchhoffIsUnique(c[1], c[2], v[2] - v[1], -v[7] - v[8], v[4] + v[5], rx[4], ry[4], x[4], y[4]);
    KirchhoffIsUnique(c[2], c[0], v[0] - v[2], -v[8] - v[6], v[5] + v[3], rx[5], ry[5], x[5], y[5]);
  }

  /** In a counter-clockwise triangle the nodal rotations are exactly those of discrete Kirchhoff theory. */
  lemma NodalRotationsAreKirchhoff(sqrt: real -> real, c: Corners, v: seq<real>, rx: seq<real>, ry: seq<real>)
    requires ExactSqrt(sqrt) && InPlane(c) && CounterClockwise(c) && |v| == 9
    ensures IsKirchhoff(c, v, rx, ry) <==> rx == NodalX(sqrt, c, v) && ry == NodalY(sqrt, c, v)
  {
    LengthsArePositive(sqrt, c);
    hide InPlane, EdgeOf, EdgeX, EdgeY, IsEdge, KirchhoffMidside, ExactSqrt;
    EdgeIsKirchhoff(EdgeOf(sqrt, c, 0, 1), c[0], c[1], v[1] - v[0], -v[6] - v[7], v[3] + v[4]);
    EdgeIsKirchhoff(EdgeOf(sqrt, c, 1, 2), c[1], c[2], v[2] - v[1], -v[7] - v[8], v[4] + v[5]);
    EdgeIsKirchhoff(EdgeOf(sqrt, c, 2, 0), c[2], c[0], v[0] - v[2], -v[8] - v[6], v[5] + v[3]);
    assert IsKirchhoff(c, v, NodalX(sqrt, c, v), NodalY(sqrt, c, v));
    hide IsKirchhoff, NodalX, NodalY;
    if IsKirchhoff(c, v, rx, ry) {
      SidesAreUnique(c, v, NodalX(sqrt, c, v), NodalY(sqrt, c, v), rx, ry);
    }
  }

  /** For any nine nodal values and any weights, the shape functions of a counter-clockwise triangle interpolate the
      rotations of discrete Kirchhoff theory. */
  lemma ShapesAreKirchhoff(sqrt: real -> real, c: Corners, phi: seq<real>, v: seq<real>, rx: seq<real>, ry: seq<real>)
    requires ExactSqrt(sqrt) && InPlane(c) && CounterClockwise(c) && |phi| == 6 && |v| == 9 && IsKirchhoff(c, v, rx, ry)
    ensures Interpolate(Shapes(sqrt, c, phi).betax, v) == Weighted(phi, rx)
    ensures Interpolate(Shapes(sqrt, c, phi).betay, v) == Weighted(phi, ry)
  {
    hide IsKirchhoff, NodalX, NodalY, Shapes, Interpolate, Weighted;
    NodalRotationsAreKirchhoff(sqrt, c, v, rx, ry);
    ShapesWeigh(sqrt, c, phi, v);
  }

  // ---------------------------------------------------------------------------------------------
  // The strain operator
  // ---------------------------------------------------------------------------------------------

  /** Factors that differentiate linear functions given at six nodes exactly along x or along y. */
  predicate Differentiates(t: seq<Point>, dphi: seq<real>, alongX: real, alongY: real)
    requires |t| == |dphi| == 6
  {
    && Weighted(dphi, Ones()) == 0.0
    && Weighted(dphi, XCoordinates(t)) == alongX
    && Weighted(dphi, YCoordinates(t)) == alongY
  }

  function Sum(u: seq<real>, v: seq<real>): (r: seq<real>)
    requires |u| == |v|
    ensures |r| == |u|
  {
    seq(|u|, i requires 0 <= i < |u| => u[i] + v[i])
  }

  /** The rows for epsilon-x, epsilon-y and gamma-xy, dofs in the order of the shape functions. */
  function StrainRow(sqrt: real -> real, c: Corners, dx: seq<real>, dy: seq<real>, row: nat): (r: seq<real>)
    requires ExactSqrt(sqrt) && InPlane(c) && |dx| == |dy| == 6 && row < 3
    ensures |r| == 9
  {
    if row == 0 then Shapes(sqrt, c, dx).betax
    else if row == 1 then Shapes(sqrt, c, dy).betay
    else Sum(Shapes(sqrt, c, dy).betax, Shapes(sqrt, c, dx).betay)
  }

  /** The curvatures of w with the sign of the strains they cause at unit height. */
  function Curvature(w: Deflection, row: nat): real {
    if row == 0 then -2.0 * w.qxx else if row == 1 then -2.0 * w.qyy else -2.0 * w.qxy
  }

  lemma DotNext(k: nat, u: seq<real>, v: seq<real>)
    requires k < |u| && k < |v|
    ensures Dot(k + 1, AsVector(u), AsVector(v)) == Dot(k, AsVector(u), AsVector(v)) + u[k] * v[k]
  {
  }

  lemma WeightedIsDot(u: seq<real>, v: seq<real>)
    requires |u| == |v| == 6
    ensures Weighted(u, v) == Dot(6, AsVector(u), AsVector(v))
  {
    assert Dot(0, AsVector(u), AsVector(v)) == 0.0;
    hide Dot, AsVector;
    DotNext(0, u, v);
    DotNext(1, u, v);
    DotNext(2, u, v);
    DotNext(3, u, v);
    DotNext(4, u, v);
    DotNext(5, u, v);
  }

  lemma InterpolateIsDot(u: seq<real>, v: seq<real>)
    requires |u| == |v| == 9
    ensures Interpolate(u, v) == Dot(9, AsVector(u), AsVector(v))
  {
    assert Dot(0, AsVector(u), AsVector(v)) == 0.0;
    hide Dot, AsVector;
    DotNext(0, u, v);
    DotNext(1, u, v);
    DotNext(2, u, v);
    DotNext(3, u, v);
    DotNext(4, u, v);
    DotNext(5, u, v);
    DotNext(6, u, v);
    DotNext(7, u, v);
    DotNext(8, u, v);
  }

  lemma InterpolateSum(u: seq<real>, v: seq<real>, q: seq<real>)
    requires |u| == |v| == |q| == 9
    ensures Interpolate(Sum(u, v), q) == Interpolate(u, q) + Interpolate(v, q)
  {
    hide Interpolate, Dot;
    InterpolateIsDot(Sum(u, v), q);
    InterpolateIsDot(u, q);
    InterpolateIsDot(v, q);
    DotCombine(9, 1.0, AsVector(u), AsVector(q), 1.0, AsVector(v), AsVector(q), AsVector(Sum(u, v)), AsVector(q));
  }

  lemma InterpolateScaled(z: real, u: seq<real>, q: seq<real>)
    requires |u| == |q| == 9
    ensures Interpolate(Scaled(z, u), q) == z * Interpolate(u, q)
  {
    hide Interpolate, Dot;
    InterpolateIsDot(Scaled(z, u), q);
    InterpolateIsDot(u, q);
    DotScale(9, z, AsVector(u), AsVector(q), AsVector(Scaled(z, u)), AsVector(q));
  }

  function Ones(): seq<real> {
    [1.0, 1.0, 1.0, 1.0, 1.0, 1.0]
  }

  function XCoordinates(t: seq<Point>): (x: seq<real>)
    requires |t| == 6
    ensures |x| == 6 && forall i | 0 <= i < 6 :: x[i] == t[i].x
  {
    [t[0].x, t[1].x, t[2].x, t[3].x, t[4].x, t[5].x]
  }

  function YCoordinates(t: seq<Point>): (y: seq<real>)
    requires |t| == 6
    ensures |y| == 6 && forall i | 0 <= i < 6 :: y[i] == t[i].y
  {
    [t[0].y, t[1].y, t[2].y, t[3].y, t[4].y, t[5].y]
  }

  /** A weighted sum of a linear function's values, negated, gives its negated derivative. */
  lemma WeightedLinear(t: seq<Point>, d: seq<real>, v: seq<real>, alongX: real, alongY: real, a: real, b: real, c: real)
    requires |t| == |d| == |v| == 6 && Differentiates(t, d, alongX, alongY)
    requires forall i | 0 <= i < 6 :: v[i] == -(a + b * t[i].x + c * t[i].y)
    ensures Weighted(d, v) == -(b * alongX + c * alongY)
  {
    hide Weighted, Dot;
    var one, x, y := AsVector(Ones()), AsVector(XCoordinates(t)), AsVector(YCoordinates(t));
    var constantAndX := Combination(-a, one, -b, x);
    var linear := Combination(1.0, constantAndX, -c, y);
    forall i | 0 <= i < 6
      ensures AsVector(v)(i) == linear(i)
    {
      assert constantAndX(i) == -a * 1.0 - b * t[i].x;
    }
    DotCongruent(6, AsVector(d), AsVector(v), AsVector(d), linear);
    WeightedIsDot(d, v);
    WeightedIsDot(d, Ones());
    WeightedIsDot(d, XCoordinates(t));
    WeightedIsDot(d, YCoordinates(t));
    hide Combination, AsVector, Ones, XCoordinates, YCoordinates;
    DotCombination(6, AsVector(d), 1.0, constantAndX, -c, y);
    DotCombination(6, AsVector(d), -a, one, -b, x);
  }

  /** Differentiating the slopes of a quadratic gives its second derivatives. */
  lemma WeightedSlopeIsCurvature(t: seq<Point>, dphi: seq<real>, alongX: real, alongY: real, w: Deflection)
    requires |t| == |dphi| == 6 && Differentiates(t, dphi, alongX, alongY)
    ensures Weighted(dphi, SlopesX(w, t)) == -(2.0 * w.qxx * alongX + w.qxy * alongY)
    ensures Weighted(dphi, SlopesY(w, t)) == -(w.qxy * alongX + 2.0 * w.qyy * alongY)
  {
    hide *;
    forall i | 0 <= i < 6
      ensures SlopesX(w, t)[i] == -(w.px + 2.0 * w.qxx * t[i].x + w.qxy * t[i].y)
      ensures SlopesY(w, t)[i] == -(w.py + w.qxy * t[i].x + 2.0 * w.qyy * t[i].y)
    {
      SlopeEntry(w, t, i);
      SlopeIsLinear(w, t[i]);
    }
    WeightedLinear(t, dphi, SlopesX(w, t), alongX, alongY, w.px, 2.0 * w.qxx, w.qxy);
    WeightedLinear(t, dphi, SlopesY(w, t), alongX, alongY, w.py, w.qxy, 2.0 * w.qyy);
  }

  lemma SlopeEntry(w: Deflection, t: seq<Point>, i: nat)
    requires |t| == 6 && i < 6
    ensures SlopesX(w, t)[i] == -w.Dx(t[i]) && SlopesY(w, t)[i] == -w.Dy(t[i])
  {
    hide Deflection.Dx, Deflection.Dy;
  }

  lemma SlopeIsLinear(w: Deflection, p: Point)
    ensures w.Dx(p) == w.px + 2.0 * w.qxx * p.x + w.qxy * p.y && w.Dy(p) == w.py + w.qxy * p.x + 2.0 * w.qyy * p.y
  {
  }

  /** In a counter-clockwise triangle the strain operator turns the nodal values of a quadratic deflection into its
      constant curvatures times the height, wherever in the triangle dphi is evaluated. */
  lemma ConstantCurvature(sqrt: real -> real, c: Corners, dx: seq<real>, dy: seq<real>, z: real, w: Deflection,
                          row: nat)
    requires ExactSqrt(sqrt) && InPlane(c) && CounterClockwise(c) && |dx| == |dy| == 6 && row < 3
    requires Differentiates(SixNodes(c), dx, 1.0, 0.0) && Differentiates(SixNodes(c), dy, 0.0, 1.0)
    ensures Interpolate(Scaled(z, StrainRow(sqrt, c, dx, dy, row)), NodalValues(w, c)) == z * Curvature(w, row)
  {
    hide Differentiates, Interpolate, Shapes, Weighted, SixNodes, NodalValues, Area2, InPlane, SlopesX, SlopesY,
         Sum, Scaled;
    PatchTest(sqrt, c, dx, w);
    PatchTest(sqrt, c, dy, w);
    WeightedSlopeIsCurvature(SixNodes(c), dx, 1.0, 0.0, w);
    WeightedSlopeIsCurvature(SixNodes(c), dy, 0.0, 1.0, w);
    InterpolateSum(Shapes(sqrt, c, dy).betax, Shapes(sqrt, c, dx).betay, NodalValues(w, c));
    InterpolateScaled(z, StrainRow(sqrt, c, dx, dy, row), NodalValues(w, c));
    assert Interpolate(StrainRow(sqrt, c, dx, dy, row), NodalValues(w, c)) == Curvature(w, row);
  }

  /** A row of the operator holds beta, split into its parts for w, thetax and thetay. */
  ghost predicate HoldsRow(bmat: array2<seq<real>>, row: nat, beta: seq<real>)
    requires row < bmat.Length0 && bmat.Length1 == 6
    reads bmat
  {
    && |bmat[row, 2]| == |bmat[row, 3]| == |bmat[row, 4]| == 3
    && bmat[row, 2] + bmat[row, 3] + bmat[row, 4] == beta
  }

  /** A row of the operator applied to the nodal values of w, thetax and thetay. */
  function OnRow(bmat: array2<seq<real>>, row: nat, v: seq<real>): real
    requires row < bmat.Length0 && bmat.Length1 == 6 && |v| == 9
    requires |bmat[row, 2]| == |bmat[row, 3]| == |bmat[row, 4]| == 3
    reads bmat
  {
    Interpolate(bmat[row, 2] + bmat[row, 3] + bmat[row, 4], v)
  }

  /** phi moved by h along d. */
  function Moved(phi: seq<real>, h: real, d: seq<real>): (r: seq<real>)
    requires |phi| == |d| == 6
    ensures |r| == 6
  {
    seq(6, i requires 0 <= i < 6 => phi[i] + h * d[i])
  }

  /** How much the interpolated rotations rise when the six-node shape functions move from phi by h along d. */
  function RiseX(sqrt: real -> real, c: Corners, v: seq<real>, phi: seq<real>, h: real, d: seq<real>): real
    requires ExactSqrt(sqrt) && InPlane(c) && |v| == 9 && |phi| == |d| == 6
  {
    Interpolate(Shapes(sqrt, c, Moved(phi, h, d)).betax, v) - Interpolate(Shapes(sqrt, c, phi).betax, v)
  }

  function RiseY(sqrt: real -> real, c: Corners, v: seq<real>, phi: seq<real>, h: real, d: seq<real>): real
    requires ExactSqrt(sqrt) && InPlane(c) && |v| == 9 && |phi| == |d| == 6
  {
    Interpolate(Shapes(sqrt, c, Moved(phi, h, d)).betay, v) - Interpolate(Shapes(sqrt, c, phi).betay, v)
  }

  /** The rows of the operator, applied to any nodal values, are z times what betax rises along dx, betay along dy, and
      betax along dy with betay along dx, per step h. */
  ghost predicate StrainsAreRises(sqrt: real -> real, c: Corners, bmat: array2<seq<real>>, dx: seq<real>, dy: seq<real>,
                                  z: real, v: seq<real>, phi: seq<real>, h: real)
    requires ExactSqrt(sqrt) && InPlane(c) && bmat.Length0 == 3 && bmat.Length1 == 6
    requires |dx| == |dy| == |phi| == 6 && |v| == 9
    reads bmat
  {
    && (forall row: nat | row < 3 :: |bmat[row, 2]| == |bmat[row, 3]| == |bmat[row, 4]| == 3)
    && h * OnRow(bmat, 0, v) == z * RiseX(sqrt, c, v, phi, h, dx)
    && h * OnRow(bmat, 1, v) == z * RiseY(sqrt, c, v, phi, h, dy)
    && h * OnRow(bmat, 2, v) == z * (RiseX(sqrt, c, v, phi, h, dy) + RiseY(sqrt, c, v, phi, h, dx))
  }

  lemma WeightedMoved(phi: seq<real>, h: real, d: seq<real>, b: seq<real>)
    requires |phi| == |d| == |b| == 6
    ensures Weighted(Moved(phi, h, d), b) == Weighted(phi, b) + h * Weighted(d, b)
  {
    hide Weighted, Dot;
    WeightedIsDot(Moved(phi, h, d), b);
    WeightedIsDot(phi, b);
    WeightedIsDot(d, b);
    forall i | 0 <= i < 6
      ensures AsVector(Moved(phi, h, d))(i) * AsVector(b)(i)
           == 1.0 * (AsVector(phi)(i) * AsVector(b)(i)) + h * (AsVector(d)(i) * AsVector(b)(i))
    {
      MovedEntry(phi[i], h, d[i], b[i]);
    }
    hide Moved, AsVector;
    DotCombine(6, 1.0, AsVector(phi), AsVector(b), h, AsVector(d), AsVector(b), AsVector(Moved(phi, h, d)),
               AsVector(b));
  }

  lemma MovedEntry(p: real, h: real, d: real, b: real)
    ensures (p + h * d) * b == 1.0 * (p * b) + h * (d * b)
  {
  }

  /** For any nodal values the interpolated rotations are linear in the six-node shape functions. */
  lemma RotationsAreLinear(sqrt: real -> real, c: Corners, v: seq<real>, phi: seq<real>, h: real, d: seq<real>)
    requires ExactSqrt(sqrt) && InPlane(c) && |v| == 9 && |phi| == |d| == 6
    ensures RiseX(sqrt, c, v, phi, h, d) == h * Interpolate(Shapes(sqrt, c, d).betax, v)
    ensures RiseY(sqrt, c, v, phi, h, d) == h * Interpolate(Shapes(sqrt, c, d).betay, v)
  {
    hide InPlane, NodalX, NodalY, Shapes, Interpolate, Weighted, Moved;
    ShapesWeigh(sqrt, c, phi, v);
    ShapesWeigh(sqrt, c, d, v);
    ShapesWeigh(sqrt, c, Moved(phi, h, d), v);
    WeightedMoved(phi, h, d, NodalX(sqrt, c, v));
    WeightedMoved(phi, h, d, NodalY(sqrt, c, v));
  }

  lemma RowsAreRises(sqrt: real -> real, c: Corners, bmat: array2<seq<real>>, dx: seq<real>, dy: seq<real>, z: real,
                     v: seq<real>, phi: seq<real>, h: real)
    requires ExactSqrt(sqrt) && InPlane(c) && bmat.Length0 == 3 && bmat.Length1 == 6
    requires |dx| == |dy| == |phi| == 6 && |v| == 9
    requires forall row: nat | row < 3 :: HoldsRow(bmat, row, Scaled(z, StrainRow(sqrt, c, dx, dy, row)))
    ensures StrainsAreRises(sqrt, c, bmat, dx, dy, z, v, phi, h)
  {
    hide InPlane, Shapes, Interpolate, Scaled, RiseX, RiseY, Sum;
    assert HoldsRow(bmat, 0, Scaled(z, StrainRow(sqrt, c, dx, dy, 0)));
    assert HoldsRow(bmat, 1, Scaled(z, StrainRow(sqrt, c, dx, dy, 1)));
    assert HoldsRow(bmat, 2, Scaled(z, StrainRow(sqrt, c, dx, dy, 2)));
    InterpolateScaled(z, StrainRow(sqrt, c, dx, dy, 0), v);
    InterpolateScaled(z, StrainRow(sqrt, c, dx, dy, 1), v);
    InterpolateScaled(z, StrainRow(sqrt, c, dx, dy, 2), v);
    var xx, yy := Interpolate(Shapes(sqrt, c, dx).betax, v), Interpolate(Shapes(sqrt, c, dy).betay, v);
    var xy, yx := Interpolate(Shapes(sqrt, c, dy).betax, v), Interpolate(Shapes(sqrt, c, dx).betay, v);
    InterpolateSum(Shapes(sqrt, c, dy).betax, Shapes(sqrt, c, dx).betay, v);
    RotationsAreLinear(sqrt, c, v, phi, h, dx);
    RotationsAreLinear(sqrt, c, v, phi, h, dy);
    StepTimes(h, z, xx);
    StepTimes(h, z, yy);
    StepTimes(h, z, xy);
    StepTimes(h, z, yx);
    assert h * (z * (xy + yx)) == z * (h * xy + h * yx);
  }

  lemma StepTimes(h: real, z: real, x: real)
    ensures h * (z * x) == z * (h * x)
  {
  }

  function Firsts(dphi: seq<(real, real)>): (r: seq<real>)
    ensures |r| == |dphi|
  {
    seq(|dphi|, k requires 0 <= k < |dphi| => dphi[k].0)
  }

  function Seconds(dphi: seq<(real, real)>): (r: seq<real>)
    ensures |r| == |dphi|
  {
    seq(|dphi|, k requires 0 <= k < |dphi| => dphi[k].1)
  }

  class DktBendingOperator {
    const sqrt: real -> real
    const corners: Corners
    var nodes: seq<Point>
    var tri6: seq<Point>

    ghost predicate Valid()
      reads this
    {
      ExactSqrt(sqrt) && InPlane(corners) && tri6 == SixNodes(corners)
    }

    constructor (sqrt: real -> real, corners: Corners)
      requires ExactSqrt(sqrt) && InPlane(corners)
      ensures Valid() && this.sqrt == sqrt && this.corners == corners
    {
      this.sqrt, this.corners := sqrt, corners;
      var first := corners[0].Plus(corners[1]).Times(0.5);
      var second := corners[1].Plus(corners[2]).Times(0.5);
      var third := corners[2].Plus(corners[0]).Times(0.5);
      var middle := [first, second, third];
      var six := seq(6, i => first);
      for i := 0 to 3
        invariant |six| == 6 && forall k | 0 <= k < i :: six[k] == corners[k] && six[k + 3] == middle[k]
      {
        six := six[i := corners[i]][i + 3 := middle[i]];
      }
      nodes, tri6 := middle, six;
    }

    method CalculateDktShapeFunctions(phi: array<real>, betax: array<real>, betay: array<real>)
      requires Valid() && phi.Length == 6 && betax.Length == 9 && betay.Length == 9
      requires betax != betay && phi != betax && phi != betay
      modifies betax, betay
      ensures betax[..] == Shapes(sqrt, corners, phi[..]).betax && betay[..] == Shapes(sqrt, corners, phi[..]).betay
    {
      hide EdgeOf, InPlane;
      var r := Shapes(sqrt, corners, phi[..]);
      CopyInto(betax, r.betax);
      CopyInto(betay, r.betay);
    }

    /** The three strain rows, from the gradients of the six-node shape functions at one quadrature point. */
    method StrainRows(dphi: seq<(real, real)>) returns (first: array<real>, second: array<real>, third: array<real>)
      requires Valid() && |dphi| == 6
      ensures fresh(first) && fresh(second) && fresh(third)
      ensures first[..] == StrainRow(sqrt, corners, Firsts(dphi), Seconds(dphi), 0)
      ensures second[..] == StrainRow(sqrt, corners, Firsts(dphi), Seconds(dphi), 1)
      ensures third[..] == StrainRow(sqrt, corners, Firsts(dphi), Seconds(dphi), 2)
    {
      hide Shapes, EdgeOf, InPlane, Sum, SixNodes;
      var phi := new real[6](i => 0.0);
      var dbetaxdx, dbetaydx := new real[9](i => 0.0), new real[9](i => 0.0);
      var dbetaxdy, dbetaydy := new real[9](i => 0.0), new real[9](i => 0.0);
      CopyInto(phi, Firsts(dphi));
      CalculateDktShapeFunctions(phi, dbetaxdx, dbetaydx);
      ghost var alongX := dbetaydx[..];
      CopyInto(phi, Seconds(dphi));
      CalculateDktShapeFunctions(phi, dbetaxdy, dbetaydy);
      assert dbetaydx[..] == alongX;
      AddInto(dbetaxdy, dbetaydx);
      first, second, third := dbetaxdx, dbetaydy, dbetaxdy;
    }

    /** Fills rows 0 to 2 of the operator for the variables w, thetax and thetay, and leaves the others alone. */
    method InitializeBendingStrainOperatorForZ(dphi: seq<(real, real)>, z: real, bmat: array2<seq<real>>)
      requires Valid() && |dphi| == 6 && bmat.Length0 == 3 && bmat.Length1 == 6
      modifies bmat
      ensures forall row: nat | row < 3 ::
        HoldsRow(bmat, row, Scaled(z, StrainRow(sqrt, corners, Firsts(dphi), Seconds(dphi), row)))
      ensures forall v: seq<real>, phi: seq<real>, h: real | |v| == 9 && |phi| == 6 ::
                StrainsAreRises(sqrt, corners, bmat, Firsts(dphi), Seconds(dphi), z, v, phi, h)
      ensures forall row, v | 0 <= row < 3 && 0 <= v < 6 && v !in {2, 3, 4} :: bmat[row, v] == old(bmat[row, v])
    {
      hide StrainRow, InPlane, HoldsRow, Scaled, SixNodes, StrainsAreRises;
      var first, second, third := StrainRows(dphi);
      FillRows(bmat, first, second, third, z);
      forall v: seq<real>, phi: seq<real>, h: real | |v| == 9 && |phi| == 6
        ensures StrainsAreRises(sqrt, corners, bmat, Firsts(dphi), Seconds(dphi), z, v, phi, h)
      {
        RowsAreRises(sqrt, corners, bmat, Firsts(dphi), Seconds(dphi), z, v, phi, h);
      }
    }
  }

  method FillRows(bmat: array2<seq<real>>, first: array<real>, second: array<real>, third: array<real>, z: real)
    requires bmat.Length0 == 3 && bmat.Length1 == 6 && first.Length == 9 && second.Length == 9 && third.Length == 9
    modifies bmat
    ensures HoldsRow(bmat, 0, Scaled(z, first[..])) && HoldsRow(bmat, 1, Scaled(z, second[..]))
            && HoldsRow(bmat, 2, Scaled(z, third[..]))
    ensures forall r, v | 0 <= r < 3 && 0 <= v < 6 && v !in {2, 3, 4} :: bmat[r, v] == old(bmat[r, v])
  {
    hide HoldsRow, Scaled;
    SetRow(bmat, 0, first, z);
    SetRow(bmat, 1, second, z);
    SetRow(bmat, 2, third, z);
  }

  method AddInto(a: array<real>, b: array<real>)
    requires a != b && a.Length == b.Length
    modifies a
    ensures a[..] == Sum(old(a[..]), b[..])
  {
    for i := 0 to a.Length
      invariant forall k | 0 <= k < i :: a[k] == old(a[k]) + b[k]
      invariant forall k | i <= k < a.Length :: a[k] == old(a[k])
    {
      a[i] := a[i] + b[i];
    }
  }

  /** Splits a row of nine into the parts of w, thetax and thetay, scales them and stores them in the operator. */
  method SetRow(bmat: array2<seq<real>>, row: nat, beta: array<real>, z: real)
    requires row < bmat.Length0 && bmat.Length1 == 6 && beta.Length == 9
    modifies bmat
    ensures HoldsRow(bmat, row, Scaled(z, beta[..]))
    ensures forall r: nat, b: seq<real> | r < bmat.Length0 && r != row && old(HoldsRow(bmat, r, b)) ::
            HoldsRow(bmat, r, b)
    ensures forall r, v | 0 <= r < bmat.Length0 && 0 <= v < 6 && (r != row || v !in {2, 3, 4}) ::
            bmat[r, v] == old(bmat[r, v])
  {
    var w, thetax, thetay := [], [], [];
    for i := 0 to 3
      invariant w == beta[..i] && thetax == beta[3..3 + i] && thetay == beta[6..6 + i]
    {
      w, thetax, thetay := w + [beta[i]], thetax + [beta[3 + i]], thetay + [beta[6 + i]];
    }
    assert w + thetax + thetay == beta[..];
    ScaledParts(z, w, thetax, thetay);
    bmat[row, 2], bmat[row, 3], bmat[row, 4] := Scaled(z, w), Scaled(z, thetax), Scaled(z, thetay);
  }

  lemma ScaledParts(z: real, a: seq<real>, b: seq<real>, c: seq<real>)
    ensures Scaled(z, a) + Scaled(z, b) + Scaled(z, c) == Scaled(z, a + b + c)
  {
    var s := a + b + c;
    forall i | 0 <= i < |s|
      ensures (Scaled(z, a) + Scaled(z, b) + Scaled(z, c))[i] == Scaled(z, s)[i]
    {
      if i < |a| {
        assert s[i] == a[i];
      } else if i < |a| + |b| {
        assert s[i] == b[i - |a|];
      } else {
        assert s[i] == c[i - |a| - |b|];
      }
    }
  }
}
