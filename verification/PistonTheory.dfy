/** Piston-theory pressure and its five hand-expanded derivative routines, against one evaluation of the pressure in
    dual numbers. Square roots are exact, and pow(x, 1.5) is x sqrt(x). */
module PistonTheory {
  import opened Scalars

  /** Free-stream velocity, Mach number, density, heat ratio, surface slope and surface velocity, or their derivatives
      with respect to a parameter. */
  datatype Inputs = Inputs(v: real, m: real, rho: real, gamma: real, dwdx: real, dwdt: real)

  predicate IsSupersonic(m: real) {
    m * m > 1.0
  }

  predicate Supersonic(x: Inputs) {
    x.v != 0.0 && IsSupersonic(x.m)
  }

  // ---------------------------------------------------------------------------------------------
  // The routines
  // ---------------------------------------------------------------------------------------------

  function MachFactor(m: real): real
    requires IsSupersonic(m)
  {
    (m * m - 2.0) / (m * m - 1.0)
  }

  function MachFactorDerivative(m: real, dm: real): real
    requires IsSupersonic(m)
  {
    NonZeroSquare(m);
    2.0 * m * dm / (m * m - 1.0) - (m * m - 2.0) / ((m * m - 1.0) * (m * m - 1.0)) * 2.0 * m * dm
  }

  lemma NonZeroSquare(m: real)
    requires IsSupersonic(m)
    ensures (m * m - 1.0) * (m * m - 1.0) != 0.0
  {
    assert Sq(m * m - 1.0) == (m * m - 1.0) * (m * m - 1.0);
  }

  function Reduced(m: real): (q: real)
    requires IsSupersonic(m)
    ensures q > 0.0
  {
    m * m - 1.0
  }

  function ReducedRoot(sqrt: real -> real, m: real): (r: real)
    requires ExactSqrt(sqrt) && IsSupersonic(m)
    ensures r > 0.0 && r * r == Reduced(m) && Reduced(m) * r != 0.0
  {
    var r := sqrt(Reduced(m));
    assert r * r == Reduced(m);
    assert Mul(Reduced(m), r) == Reduced(m) * r;
    r
  }

  function F1(sqrt: real -> real, x: Inputs): real
    requires ExactSqrt(sqrt) && Supersonic(x)
  {
    x.rho / ReducedRoot(sqrt, x.m)
  }

  function DF1(sqrt: real -> real, x: Inputs, d: Inputs): real
    requires ExactSqrt(sqrt) && Supersonic(x)
  {
    F1Change(x.rho, d.rho, x.m, d.m, Reduced(x.m), ReducedRoot(sqrt, x.m))
  }

  function F1Change(rho: real, drho: real, m: real, dm: real, q: real, r: real): real
    requires r != 0.0 && q * r != 0.0
  {
    drho / r + -0.5 * rho / (q * r) * 2.0 * m * dm
  }

  /** The normal wash V dw/dx + Mf dw/dt, whose square is the quadratic part. */
  function Wash(v: real, mf: real, w: real, t: real): real {
    v * w + mf * t
  }

  /** The factor of the cubic part, dw/dx + Mf dw/dt / V. */
  function WashAngle(v: real, mf: real, w: real, t: real): real
    requires v != 0.0
  {
    w + mf * t / v
  }

  /** How the wash angle changes with V and with M. */
  function AngleWithV(v: real, dv: real, mf: real, t: real): real
    requires v != 0.0
  {
    NonZeroProduct(v);
    -mf * t / (v * v) * dv
  }

  function AngleWithM(v: real, dmf: real, t: real): real
    requires v != 0.0
  {
    dmf * t / v
  }

  /** The partial of the wash angle with the surface velocity, and how it changes with V and with M. */
  function AnglePartial(v: real, mf: real): real
    requires v != 0.0
  {
    mf / v
  }

  function AnglePartialWithV(v: real, dv: real, mf: real): real
    requires v != 0.0
  {
    NonZeroProduct(v);
    -mf / (v * v) * dv
  }

  lemma NonZeroProduct(v: real)
    requires v != 0.0
    ensures v * v != 0.0
  {
    assert Sq(v) == v * v;
  }

  /** The pressure value; the switch on the order falls through, so any order but 2 and 3 keeps the linear part alone.
      */
  function Pressure(order: nat, sqrt: real -> real, x: Inputs): real
    requires ExactSqrt(sqrt) && Supersonic(x)
  {
    var v, w, t, mf := x.v, x.dwdx, x.dwdt, MachFactor(x.m);
    var v0, v1, v2 := WashAngle(v, mf, w, t), v * v * w + mf * v * t, Wash(v, mf, w, t) * Wash(v, mf, w, t);
    var v3 := v0 * v2;
    var cubic := if order == 3 then (x.gamma + 1.0) / 12.0 * x.m * x.m * v3 else 0.0;
    var quadratic := if order == 3 || order == 2 then (x.gamma + 1.0) / 4.0 * x.m * v2 else 0.0;
    (v1 + cubic + quadratic) * F1(sqrt, x)
  }

  /** The linear, quadratic and cubic parts of a quantity and their derivatives. */
  datatype Expansion = Expansion(v1: real, dv1: real, v2: real, dv2: real, v3: real, dv3: real) {
    function Values(): Terms {
      Terms(v1, v2, v3)
    }
  }

  datatype Terms = Terms(v1: real, v2: real, v3: real)

  /** The quadratic and the cubic contribution, and what changes them. */
  function QuadraticValue(f1: real, m: real, gamma: real, v2: real): real {
    f1 * m * v2 * (gamma + 1.0) / 4.0
  }

  function CubicValue(f1: real, m: real, gamma: real, v3: real): real {
    f1 * m * m * v3 * (gamma + 1.0) / 12.0
  }

  function QuadraticChange(f1: real, df1: real, m: real, dm: real, gamma: real, dgamma: real, v2: real,
                           dv2: real): real {
    df1 * m * v2 * (gamma + 1.0) / 4.0 + f1 * (dm * v2 + m * dv2) * (gamma + 1.0) / 4.0 + f1 * m * v2 / 4.0 * dgamma
  }

  function CubicChange(f1: real, df1: real, m: real, dm: real, gamma: real, dgamma: real, v3: real, dv3: real): real {
    df1 * m * m * v3 * (gamma + 1.0) / 12.0 + f1 * m * (2.0 * dm * v3 + m * dv3) * (gamma + 1.0) / 12.0
      + f1 * m * m * v3 / 12.0 * dgamma
  }

  /** How the three derivative routines put their parts together. */
  function Derived(order: nat, f1: real, df1: real, x: Inputs, d: Inputs, e: Expansion): real {
    f1 * e.dv1 + df1 * e.v1
    + (if order == 3 then CubicChange(f1, df1, x.m, d.m, x.gamma, d.gamma, e.v3, e.dv3) else 0.0)
    + (if order == 3 || order == 2 then QuadraticChange(f1, df1, x.m, d.m, x.gamma, d.gamma, e.v2, e.dv2) else 0.0)
  }

  /** How the two routines for the partial derivatives put theirs together. */
  function Valued(order: nat, f1: real, x: Inputs, t: Terms): real {
    f1 * t.v1
    + (if order == 3 then CubicValue(f1, x.m, x.gamma, t.v3) else 0.0)
    + (if order == 3 || order == 2 then QuadraticValue(f1, x.m, x.gamma, t.v2) else 0.0)
  }

  function PressureExpansion(v: real, dv: real, mf: real, dmf: real, w: real, dw: real, t: real, dt: real): Expansion
    requires v != 0.0
  {
    var a, v0, v1 := Wash(v, mf, w, t), WashAngle(v, mf, w, t), v * v * w + mf * v * t;
    var v2 := a * a;
    var v3 := v0 * v2;
    var v0dw, v1dw, v2dw := dw, v * v * dw, 2.0 * a * v * dw;
    var v3dw := v0 * v2dw + v0dw * v2;
    var v0dwt, v1dwt, v2dwt := AnglePartial(v, mf) * dt, mf * v * dt, 2.0 * a * mf * dt;
    var v3dwt := v0dwt * v2 + v0 * v2dwt;
    var dv0dV, dv1dV, dv2dV := AngleWithV(v, dv, mf, t), (2.0 * v * w + mf * t) * dv, 2.0 * a * w * dv;
    var dv3dV := dv0dV * v2 + v0 * dv2dV;
    var dv0dM, dv1dM, dv2dM := AngleWithM(v, dmf, t), dmf * v * t, 2.0 * a * dmf * t;
    var dv3dM := dv0dM * v2 + v0 * dv2dM;
    Expansion(v1, dv1dV + dv1dM + v1dw + v1dwt, v2, dv2dV + dv2dM + v2dw + v2dwt, v3, dv3dV + dv3dM + v3dw + v3dwt)
  }

  function XExpansion(v: real, dv: real, mf: real, dmf: real, w: real, t: real): Expansion
    requires v != 0.0
  {
    XParts(v, dv, mf, dmf, w, t, Wash(v, mf, w, t), WashAngle(v, mf, w, t), AngleWithV(v, dv, mf, t),
           AngleWithM(v, dmf, t))
  }

  function XParts(v: real, dv: real, mf: real, dmf: real, w: real, t: real, a: real, v0: real, dv0dV: real,
                  dv0dM: real): Expansion {
    var v2 := a * a;
    var v0dw, v1dw, v2dw := 1.0, v * v, 2.0 * a * v;
    var v3dw := v0 * v2dw + v0dw * v2;
    var dv2dV, dv2dM := 2.0 * a * w * dv, 2.0 * a * dmf * t;
    var v0dwdV, v1dwdV, v2dwdV := 0.0, 2.0 * v * dv, 2.0 * (2.0 * v * dv * w + mf * dv * t);
    var v3dwdV := dv0dV * v2dw + v0 * v2dwdV + v0dwdV * v2 + v0dw * dv2dV;
    var v0dwdM, v1dwdM, v2dwdM := 0.0, 0.0, 2.0 * dmf * t * v;
    var v3dwdM := dv0dM * v2dw + v0 * v2dwdM + v0dwdM * v2 + v0dw * dv2dM;
    Expansion(v1dw, v1dwdV + v1dwdM, v2dw, v2dwdV + v2dwdM, v3dw, v3dwdV + v3dwdM)
  }

  function XdotExpansion(v: real, dv: real, mf: real, dmf: real, w: real, t: real): Expansion
    requires v != 0.0
  {
    XdotParts(v, dv, mf, dmf, w, t, Wash(v, mf, w, t), WashAngle(v, mf, w, t), AngleWithV(v, dv, mf, t),
              AngleWithM(v, dmf, t), AnglePartial(v, mf), AnglePartialWithV(v, dv, mf), AnglePartial(v, dmf))
  }

  function XdotParts(v: real, dv: real, mf: real, dmf: real, w: real, t: real, a: real, v0: real, dv0dV: real,
                     dv0dM: real, v0dwt: real, v0dwtdV: real, v0dwtdM: real): Expansion
  {
    var v2 := a * a;
    var dv2dV, dv2dM := 2.0 * a * w * dv, 2.0 * a * dmf * t;
    var v1dwt, v2dwt := mf * v, 2.0 * a * mf;
    var v3dwt := v0dwt * v2 + v0 * v2dwt;
    var v1dwtdV, v2dwtdV := mf * dv, 2.0 * dv * w * mf;
    var v3dwtdV := v0dwtdV * v2 + v0dwt * dv2dV + dv0dV * v2dwt + v0 * v2dwtdV;
    var v1dwtdM, v2dwtdM := dmf * v, 2.0 * (v * dmf * w + 2.0 * mf * dmf * t);
    var v3dwtdM := v0dwtdM * v2 + v0dwt * dv2dM + dv0dM * v2dwt + v0 * v2dwtdM;
    Expansion(v1dwt, v1dwtdV + v1dwtdM, v2dwt, v2dwtdV + v2dwtdM, v3dwt, v3dwtdV + v3dwtdM)
  }

  function PressureDerivative(order: nat, sqrt: real -> real, x: Inputs, d: Inputs): real
    requires ExactSqrt(sqrt) && Supersonic(x)
  {
    Derived(order, F1(sqrt, x), DF1(sqrt, x, d), x, d,
            PressureExpansion(x.v, d.v, MachFactor(x.m), MachFactorDerivative(x.m, d.m), x.dwdx, d.dwdx, x.dwdt,
                              d.dwdt))
  }

  function XDerivative(order: nat, sqrt: real -> real, x: Inputs): real
    requires ExactSqrt(sqrt) && Supersonic(x)
  {
    Valued(order, F1(sqrt, x), x, XTerms(x.v, MachFactor(x.m), x.dwdx, x.dwdt))
  }

  function XTerms(v: real, mf: real, w: real, t: real): Terms
    requires v != 0.0
  {
    var a, v0 := Wash(v, mf, w, t), WashAngle(v, mf, w, t);
    var v2 := a * a;
    var v0dw, v1dw, v2dw := 1.0, v * v, 2.0 * a * v;
    var v3dw := v0 * v2dw + v0dw * v2;
    Terms(v1dw, v2dw, v3dw)
  }

  function XDerivativeDerivative(order: nat, sqrt: real -> real, x: Inputs, d: Inputs): real
    requires ExactSqrt(sqrt) && Supersonic(x)
  {
    Derived(order, F1(sqrt, x), DF1(sqrt, x, d), x, d,
            XExpansion(x.v, d.v, MachFactor(x.m), MachFactorDerivative(x.m, d.m), x.dwdx, x.dwdt))
  }

  function XdotDerivative(order: nat, sqrt: real -> real, x: Inputs): real
    requires ExactSqrt(sqrt) && Supersonic(x)
  {
    Valued(order, F1(sqrt, x), x, XdotTerms(x.v, MachFactor(x.m), x.dwdx, x.dwdt))
  }

  function XdotTerms(v: real, mf: real, w: real, t: real): Terms
    requires v != 0.0
  {
    var a, v0 := Wash(v, mf, w, t), WashAngle(v, mf, w, t);
    var v2 := a * a;
    var v0dwt, v1dwt, v2dwt := AnglePartial(v, mf), mf * v, 2.0 * a * mf;
    var v3dwt := v0dwt * v2 + v0 * v2dwt;
    Terms(v1dwt, v2dwt, v3dwt)
  }

  function XdotDerivativeDerivative(order: nat, sqrt: real -> real, x: Inputs, d: Inputs): real
    requires ExactSqrt(sqrt) && Supersonic(x)
  {
    Derived(order, F1(sqrt, x), DF1(sqrt, x, d), x, d,
            XdotExpansion(x.v, d.v, MachFactor(x.m), MachFactorDerivative(x.m, d.m), x.dwdx, x.dwdt))
  }

  // ---------------------------------------------------------------------------------------------
  // Dual numbers
  // ---------------------------------------------------------------------------------------------

  /** A value and its derivative along the parameter. */
  datatype Dual = Dual(re: real, du: real) {

    function Plus(b: Dual): Dual {
      Dual(re + b.re, du + b.du)
    }

    function Times(b: Dual): Dual {
      Dual(re * b.re, re * b.du + du * b.re)
    }

    /** The only q with q.Times(b) == this. */
    function Over(b: Dual): (q: Dual)
      requires b.re != 0.0
      ensures q.Times(b) == this
    {
      var q := re / b.re;
      var s := (du - q * b.du) / b.re;
      assert q * b.re == re && s * b.re == du - q * b.du;
      Dual(q, s)
    }

    /** The non-negative root r with r.Times(r) == this. */
    function Root(sqrt: real -> real): (r: Dual)
      requires ExactSqrt(sqrt) && re > 0.0
      ensures r.Times(r) == this && r.re > 0.0
    {
      var r := sqrt(re);
      assert r * r == re;
      var s := du / (2.0 * r);
      assert s * (2.0 * r) == du;
      assert r * s + s * r == s * (2.0 * r);
      Dual(r, s)
    }
  }

  function Const(c: real): Dual {
    Dual(c, 0.0)
  }

  lemma OverUnique(a: Dual, b: Dual, q: Dual)
    requires b.re != 0.0 && q.Times(b) == a
    ensures a.Over(b) == q
  {
    var p := a.Over(b);
    assert p.re * b.re == q.re * b.re;
    CancelFactor(p.re, q.re, b.re);
    assert p.du * b.re == q.du * b.re;
    CancelFactor(p.du, q.du, b.re);
  }

  lemma CancelFactor(p: real, q: real, b: real)
    requires b != 0.0 && p * b == q * b
    ensures p == q
  {
    assert Mul(p - q, b) == 0.0;
    hide Mul;
    assert p - q == 0.0;
  }

  /** A dual number that also carries its derivative along a direction of the slope and the surface velocity, which the
      parameters do not share: a truncated product in two infinitesimals. */
  datatype Jet = Jet(value: Dual, slope: Dual) {

    function Plus(b: Jet): Jet {
      Jet(value.Plus(b.value), slope.Plus(b.slope))
    }

    function Times(b: Jet): Jet {
      Jet(value.Times(b.value), value.Times(b.slope).Plus(slope.Times(b.value)))
    }

    function Scaled(a: Dual): Jet {
      Jet(a.Times(value), a.Times(slope))
    }

    function Over(b: Dual): Jet
      requires b.re != 0.0
    {
      Jet(value.Over(b), slope.Over(b))
    }
  }

  // ---------------------------------------------------------------------------------------------
  // The pressure in dual numbers
  // ---------------------------------------------------------------------------------------------

  function SquareLess(m: Dual, c: real): Dual {
    m.Times(m).Plus(Const(-c))
  }

  lemma SquareLessIs(m: real, dm: real, c: real)
    ensures SquareLess(Dual(m, dm), c) == Dual(m * m - c, 2.0 * (m * dm))
    ensures IsSupersonic(m) ==> SquareLess(Dual(m, dm), 1.0).re > 0.0
  {
  }

  /** (M^2 - 2) / (M^2 - 1). */
  function DualMachFactor(m: Dual): Dual
    requires IsSupersonic(m.re)
  {
    SquareLessIs(m.re, m.du, 1.0);
    SquareLess(m, 2.0).Over(SquareLess(m, 1.0))
  }

  /** rho / sqrt(M^2 - 1). */
  function DualF1(sqrt: real -> real, rho: Dual, m: Dual): Dual
    requires ExactSqrt(sqrt) && IsSupersonic(m.re)
  {
    SquareLessIs(m.re, m.du, 1.0);
    rho.Over(SquareLess(m, 1.0).Root(sqrt))
  }

  datatype Parts = Parts(v0: Jet, v1: Jet, v2: Jet, v3: Jet)

  function PartsOf(v: Dual, mf: Dual, w: Jet, t: Jet): Parts
    requires v.re != 0.0
  {
    var v0 := w.Plus(t.Scaled(mf).Over(v));
    var v1 := w.Scaled(v.Times(v)).Plus(t.Scaled(mf.Times(v)));
    var a := w.Scaled(v).Plus(t.Scaled(mf));
    Parts(v0, v1, a.Times(a), v0.Times(a.Times(a)))
  }

  /** The three parts that are linear in the slope and the surface velocity. */
  function Linear0(v: Dual, mf: Dual, w: Dual, t: Dual): Dual
    requires v.re != 0.0
  {
    w.Plus(mf.Times(t).Over(v))
  }

  function Linear1(v: Dual, mf: Dual, w: Dual, t: Dual): Dual {
    v.Times(v).Times(w).Plus(mf.Times(v).Times(t))
  }

  function LinearA(v: Dual, mf: Dual, w: Dual, t: Dual): Dual {
    v.Times(w).Plus(mf.Times(t))
  }

  lemma PartsSplit(v: Dual, mf: Dual, w: Jet, t: Jet)
    requires v.re != 0.0
    ensures var p := PartsOf(v, mf, w, t);
      var a, b, v0, v0s := LinearA(v, mf, w.value, t.value), LinearA(v, mf, w.slope, t.slope),
          Linear0(v, mf, w.value, t.value),
                            Linear0(v, mf, w.slope, t.slope);
      && p.v1 == Jet(Linear1(v, mf, w.value, t.value), Linear1(v, mf, w.slope, t.slope))
      && p.v2 == Jet(a.Times(a), a.Times(b).Plus(b.Times(a)))
      && p.v3 == Jet(v0.Times(a.Times(a)), v0.Times(a.Times(b).Plus(b.Times(a))).Plus(v0s.Times(a.Times(a))))
  {
    hide Dual.Times, Dual.Plus, Dual.Over;
  }

  function CubicFactor(gamma: Dual, m: Dual): Dual {
    gamma.Plus(Const(1.0)).Over(Const(12.0)).Times(m).Times(m)
  }

  function QuadraticFactor(gamma: Dual, m: Dual): Dual {
    gamma.Plus(Const(1.0)).Over(Const(4.0)).Times(m)
  }

  function Series(order: nat, f1: Dual, gamma: Dual, m: Dual, v1: Dual, v2: Dual, v3: Dual): Dual {
    var cubic := if order == 3 then CubicFactor(gamma, m).Times(v3) else Const(0.0);
    var quadratic := if order == 3 || order == 2 then QuadraticFactor(gamma, m).Times(v2) else Const(0.0);
    f1.Times(v1.Plus(cubic).Plus(quadratic))
  }

  /** The pressure of the inputs x moving with d along the parameter, and with (alongX, alongXdot) along the direction
      of the slope and the surface velocity: its value, its partial, and the parameter derivatives of both. */
  function PressureJet(order: nat, sqrt: real -> real, x: Inputs, d: Inputs, alongX: real, alongXdot: real): Jet
    requires ExactSqrt(sqrt) && Supersonic(x)
  {
    var v, m, rho, gamma := Dual(x.v, d.v), Dual(x.m, d.m), Dual(x.rho, d.rho), Dual(x.gamma, d.gamma);
    var w, t := Jet(Dual(x.dwdx, d.dwdx), Const(alongX)), Jet(Dual(x.dwdt, d.dwdt), Const(alongXdot));
    var p := PartsOf(v, DualMachFactor(m), w, t);
    var f1 := DualF1(sqrt, rho, m);
    Jet(Series(order, f1, gamma, m, p.v1.value, p.v2.value, p.v3.value),
        Series(order, f1, gamma, m, p.v1.slope, p.v2.slope, p.v3.slope))
  }

  // ---------------------------------------------------------------------------------------------
  // The coefficients
  // ---------------------------------------------------------------------------------------------

  lemma DivideTwice(x: real, a: real, b: real)
    requires a != 0.0 && b != 0.0 && a * b != 0.0
    ensures x / (a * b) * b == x / a
  {
    var q, r := x / (a * b), x / a;
    assert q * (a * b) == x && r * a == x;
    assert (q * b) * a == r * a;
    CancelFactor(q * b, r, a);
  }

  lemma MachFactorIsDual(m: real, dm: real)
    requires IsSupersonic(m)
    ensures DualMachFactor(Dual(m, dm)) == Dual(MachFactor(m), MachFactorDerivative(m, dm))
  {
    var n, q, p := m * m - 2.0, m * m - 1.0, 2.0 * (m * dm);
    SquareLessIs(m, dm, 1.0);
    SquareLessIs(m, dm, 2.0);
    NonZeroSquare(m);
    MachFactorProduct(n, q, m, dm, MachFactor(m), MachFactorDerivative(m, dm));
    hide *;
    OverUnique(Dual(n, p), Dual(q, p), Dual(MachFactor(m), MachFactorDerivative(m, dm)));
  }

  lemma MachFactorProduct(n: real, q: real, m: real, dm: real, mf: real, dmf: real)
    requires q != 0.0 && q * q != 0.0 && mf == n / q && dmf == 2.0 * m * dm / q - n / (q * q) * 2.0 * m * dm
    ensures Dual(mf, dmf).Times(Dual(q, 2.0 * (m * dm))) == Dual(n, 2.0 * (m * dm))
  {
    DivideTwice(n, q, q);
    var s, t, p := n / (q * q), 2.0 * m * dm / q, m * dm;
    assert mf * q == n && s * q == mf && t * q == 2.0 * p;
    assert dmf == t - 2.0 * (s * p);
    assert (s * p) * q == mf * p;
    assert dmf * q == t * q - 2.0 * ((s * p) * q);
  }

  lemma F1IsDual(sqrt: real -> real, x: Inputs, d: Inputs)
    requires ExactSqrt(sqrt) && Supersonic(x)
    ensures DualF1(sqrt, Dual(x.rho, d.rho), Dual(x.m, d.m)) == Dual(F1(sqrt, x), DF1(sqrt, x, d))
  {
    var q, r := Reduced(x.m), ReducedRoot(sqrt, x.m);
    SquareLessIs(x.m, d.m, 1.0);
    var root := SquareLess(Dual(x.m, d.m), 1.0).Root(sqrt);
    assert SquareLess(Dual(x.m, d.m), 1.0).re == q;
    assert root.re == r;
    hide Reduced, ReducedRoot;
    assert r * root.du + root.du * r == 2.0 * (x.m * d.m);
    F1Product(x.rho, d.rho, q, r, root.du, x.m, d.m, F1(sqrt, x), DF1(sqrt, x, d));
    hide *;
    OverUnique(Dual(x.rho, d.rho), root, Dual(F1(sqrt, x), DF1(sqrt, x, d)));
  }

  lemma F1Product(rho: real, drho: real, q: real, r: real, dr: real, m: real, dm: real, f: real, df: real)
    requires r != 0.0 && q != 0.0 && q * r != 0.0 && r * r == q && r * dr + dr * r == 2.0 * (m * dm)
    requires f == rho / r && df == F1Change(rho, drho, m, dm, q, r)
    ensures Dual(f, df).Times(Dual(r, dr)) == Dual(rho, drho)
  {
    DivideTwice(-0.5 * rho, q, r);
    var g, h, t, p := -0.5 * rho / (q * r), -0.5 * rho / q, drho / r, m * dm;
    assert f * r == rho && t * r == drho && g * r == h && h * q == -0.5 * rho;
    assert r * dr == p;
    assert df == t + 2.0 * (g * p);
    assert df * r == t * r + 2.0 * ((g * r) * p);
    assert (f * dr) * r == rho * dr && (2.0 * (h * p)) * r == 2.0 * (h * (r * r)) * dr;
    CancelFactor(f * dr, -(2.0 * (h * p)), r);
  }

  // ---------------------------------------------------------------------------------------------
  // The parts
  // ---------------------------------------------------------------------------------------------

  lemma Linear1Is(v: real, dv: real, mf: real, dmf: real, w: real, dw: real, t: real, dt: real)
    ensures Linear1(Dual(v, dv), Dual(mf, dmf), Dual(w, dw), Dual(t, dt))
         == Dual(v * v * w + mf * v * t, (2.0 * v * w + mf * t) * dv + dmf * v * t + v * v * dw + mf * v * dt)
  {
  }

  lemma LinearAIs(v: real, dv: real, mf: real, dmf: real, w: real, dw: real, t: real, dt: real)
    ensures LinearA(Dual(v, dv), Dual(mf, dmf), Dual(w, dw), Dual(t, dt))
         == Dual(Wash(v, mf, w, t), w * dv + dmf * t + v * dw + mf * dt)
  {
  }

  lemma AsInverse(x: real, v: real, i: real)
    requires v != 0.0 && i * v == 1.0
    ensures v * v != 0.0 && x / v == x * i && x / (v * v) == x * (i * i)
  {
    assert Sq(v) == v * v;
    CancelFactor(x / v, x * i, v);
    assert (x * (i * i)) * (v * v) == x * (i * v) * (i * v);
    CancelFactor(x / (v * v), x * (i * i), v * v);
  }

  lemma Linear0Is(v: real, dv: real, mf: real, dmf: real, w: real, dw: real, t: real, dt: real)
    requires v != 0.0
    ensures Linear0(Dual(v, dv), Dual(mf, dmf), Dual(w, dw), Dual(t, dt))
         == Dual(WashAngle(v, mf, w, t), AngleWithV(v, dv, mf, t) + AngleWithM(v, dmf, t) + dw
                 + AnglePartial(v, mf) * dt)
  {
    NonZeroProduct(v);
    var i := 1.0 / v;
    assert i * v == 1.0;
    AsInverse(mf * t, v, i);
    AsInverse(-mf * t, v, i);
    AsInverse(dmf * t, v, i);
    AsInverse(mf, v, i);
    var q := Dual(mf * t / v, -mf * t / (v * v) * dv + dmf * t / v + mf / v * dt);
    QuotientProduct(v, dv, mf, dmf, t, dt, i, q);
    OverUnique(Dual(mf, dmf).Times(Dual(t, dt)), Dual(v, dv), q);
    assert Linear0(Dual(v, dv), Dual(mf, dmf), Dual(w, dw), Dual(t, dt)) == Dual(w, dw).Plus(q);
  }

  lemma QuotientProduct(v: real, dv: real, mf: real, dmf: real, t: real, dt: real, i: real, q: Dual)
    requires i * v == 1.0 && q.re == mf * t * i && q.du == -mf * t * (i * i) * dv + dmf * t * i + mf * i * dt
    ensures q.Times(Dual(v, dv)) == Dual(mf, dmf).Times(Dual(t, dt))
  {
    var mt, dmt, mdt := mf * t, dmf * t, mf * dt;
    assert q.re * v == mt * (i * v);
    assert q.du * v == -mt * i * (i * v) * dv + dmt * (i * v) + mdt * (i * v);
    assert q.re * dv == mt * i * dv;
  }

  lemma ProductIs(p: real, dp: real, q: real, dq: real)
    ensures Dual(p, dp).Times(Dual(q, dq)) == Dual(p * q, p * dq + dp * q)
  {
  }

  // ---------------------------------------------------------------------------------------------
  // Putting the parts together
  // ---------------------------------------------------------------------------------------------

  lemma FactorsAre(g: real, dg: real, m: real, dm: real, k3: real, dk3: real, k2: real, dk2: real)
    requires k3 == (g + 1.0) / 12.0 && dk3 == dg / 12.0 && k2 == (g + 1.0) / 4.0 && dk2 == dg / 4.0
    ensures CubicFactor(Dual(g, dg), Dual(m, dm)) == Dual(k3 * m * m, dk3 * m * m + 2.0 * (k3 * m * dm))
    ensures QuadraticFactor(Dual(g, dg), Dual(m, dm)) == Dual(k2 * m, dk2 * m + k2 * dm)
  {
    var n := Dual(g, dg).Plus(Const(1.0));
    OverUnique(n, Const(12.0), Dual(k3, dk3));
    OverUnique(n, Const(4.0), Dual(k2, dk2));
    assert CubicFactor(Dual(g, dg), Dual(m, dm)) == Dual(k3, dk3).Times(Dual(m, dm)).Times(Dual(m, dm));
    assert QuadraticFactor(Dual(g, dg), Dual(m, dm)) == Dual(k2, dk2).Times(Dual(m, dm));
  }

  lemma SeriesIs(order: nat, f1: real, df1: real, x: Inputs, d: Inputs, v1: real, dv1: real, v2: real, dv2: real,
                 v3: real, dv3: real)
    ensures Series(order, Dual(f1, df1), Dual(x.gamma, d.gamma), Dual(x.m, d.m), Dual(v1, dv1), Dual(v2, dv2),
                   Dual(v3, dv3))
         == Dual(Valued(order, f1, x, Terms(v1, v2, v3)), Derived(order, f1, df1, x, d,
                                                                  Expansion(v1, dv1, v2, dv2, v3, dv3)))
  {
    hide Dual.Times, CubicFactor, QuadraticFactor, Series, CubicValue, CubicChange, QuadraticValue, QuadraticChange;
    SeriesDistributes(order, Dual(f1, df1), Dual(x.gamma, d.gamma), Dual(x.m, d.m), Dual(v1, dv1), Dual(v2, dv2),
                      Dual(v3, dv3));
    CubicContribution(f1, df1, x.gamma, d.gamma, x.m, d.m, v3, dv3);
    QuadraticContribution(f1, df1, x.gamma, d.gamma, x.m, d.m, v2, dv2);
    ProductIs(f1, df1, v1, dv1);
  }

  lemma SeriesDistributes(order: nat, f: Dual, g: Dual, m: Dual, v1: Dual, v2: Dual, v3: Dual)
    ensures Series(order, f, g, m, v1, v2, v3)
         == f.Times(v1).Plus(if order == 3 then f.Times(CubicFactor(g, m).Times(v3)) else Const(0.0))
                       .Plus(if order == 3 || order == 2 then f.Times(QuadraticFactor(g, m).Times(v2)) else Const(0.0))
  {
    hide Dual.Times, Dual.Plus, CubicFactor, QuadraticFactor;
    var cubic := if order == 3 then CubicFactor(g, m).Times(v3) else Const(0.0);
    var quadratic := if order == 3 || order == 2 then QuadraticFactor(g, m).Times(v2) else Const(0.0);
    DualDistributes(f, v1, cubic, quadratic);
    TimesNothing(f);
  }

  lemma TimesNothing(a: Dual)
    ensures a.Times(Const(0.0)) == Const(0.0)
  {
  }

  lemma DualDistributes(a: Dual, b: Dual, c: Dual, e: Dual)
    ensures a.Times(b.Plus(c).Plus(e)) == a.Times(b).Plus(a.Times(c)).Plus(a.Times(e))
  {
  }

  /** What the cubic and the quadratic part contribute, as the routines write it. */
  lemma CubicContribution(f: real, df: real, g: real, dg: real, m: real, dm: real, c: real, dc: real)
    ensures Dual(f, df).Times(CubicFactor(Dual(g, dg), Dual(m, dm)).Times(Dual(c, dc)))
         == Dual(CubicValue(f, m, g, c), CubicChange(f, df, m, dm, g, dg, c, dc))
  {
    hide Dual.Times, Dual.Plus, Dual.Over, CubicFactor, QuadraticFactor;
    var k3, dk3, k2, dk2 := (g + 1.0) / 12.0, dg / 12.0, (g + 1.0) / 4.0, dg / 4.0;
    FactorsAre(g, dg, m, dm, k3, dk3, k2, dk2);
    CubicPart(f, df, g, dg, m, dm, c, dc);
    CubicTerm(f, df, m, dm, k3, dk3, c, dc, CubicFactor(Dual(g, dg), Dual(m, dm)), CubicValue(f, m, g, c),
              CubicChange(f, df, m, dm, g, dg, c, dc));
  }

  lemma CubicPart(f: real, df: real, g: real, dg: real, m: real, dm: real, c: real, dc: real)
    ensures CubicValue(f, m, g, c) == f * m * m * c * ((g + 1.0) / 12.0)
    ensures CubicChange(f, df, m, dm, g, dg, c, dc)
         == df * m * m * c * ((g + 1.0) / 12.0) + f * m * (2.0 * dm * c + m * dc) * ((g + 1.0) / 12.0)
           + f * m * m * c * (dg / 12.0)
  {
  }

  lemma CubicTerm(f: real, df: real, m: real, dm: real, k: real, dk: real, c: real, dc: real, factor: Dual, r: real,
                  dr: real)
    requires factor == Dual(k * m * m, dk * m * m + 2.0 * (k * m * dm))
    requires r == f * m * m * c * k && dr == df * m * m * c * k + f * m * (2.0 * dm * c + m * dc) * k
             + f * m * m * c * dk
    ensures Dual(f, df).Times(factor.Times(Dual(c, dc))) == Dual(r, dr)
  {
  }

  lemma QuadraticContribution(f: real, df: real, g: real, dg: real, m: real, dm: real, c: real, dc: real)
    ensures Dual(f, df).Times(QuadraticFactor(Dual(g, dg), Dual(m, dm)).Times(Dual(c, dc)))
         == Dual(QuadraticValue(f, m, g, c), QuadraticChange(f, df, m, dm, g, dg, c, dc))
  {
    hide Dual.Times, Dual.Plus, Dual.Over, CubicFactor, QuadraticFactor;
    var k3, dk3, k2, dk2 := (g + 1.0) / 12.0, dg / 12.0, (g + 1.0) / 4.0, dg / 4.0;
    FactorsAre(g, dg, m, dm, k3, dk3, k2, dk2);
    QuadraticPart(f, df, g, dg, m, dm, c, dc);
    QuadraticTerm(f, df, m, dm, k2, dk2, c, dc, QuadraticFactor(Dual(g, dg), Dual(m, dm)), QuadraticValue(f, m, g, c),
                  QuadraticChange(f, df, m, dm, g, dg, c, dc));
  }

  lemma QuadraticPart(f: real, df: real, g: real, dg: real, m: real, dm: real, c: real, dc: real)
    ensures QuadraticValue(f, m, g, c) == f * m * c * ((g + 1.0) / 4.0)
    ensures QuadraticChange(f, df, m, dm, g, dg, c, dc)
         == df * m * c * ((g + 1.0) / 4.0) + f * (dm * c + m * dc) * ((g + 1.0) / 4.0) + f * m * c * (dg / 4.0)
  {
  }

  lemma QuadraticTerm(f: real, df: real, m: real, dm: real, k: real, dk: real, c: real, dc: real, factor: Dual, r: real,
                      dr: real)
    requires factor == Dual(k * m, dk * m + k * dm)
    requires r == f * m * c * k && dr == df * m * c * k + f * (dm * c + m * dc) * k + f * m * c * dk
    ensures Dual(f, df).Times(factor.Times(Dual(c, dc))) == Dual(r, dr)
  {
  }

  // ---------------------------------------------------------------------------------------------
  // The five routines
  // ---------------------------------------------------------------------------------------------

  /** The jets of the four parts along (alongX, alongXdot), with the parameter moving by d. */
  function PartsAt(x: Inputs, d: Inputs, alongX: real, alongXdot: real): Parts
    requires Supersonic(x)
  {
    PartsOf(Dual(x.v, d.v), Dual(MachFactor(x.m), MachFactorDerivative(x.m, d.m)),
            Jet(Dual(x.dwdx, d.dwdx), Const(alongX)), Jet(Dual(x.dwdt, d.dwdt), Const(alongXdot)))
  }

  function Sides(v1: Dual, v2: Dual, v3: Dual): Expansion {
    Expansion(v1.re, v1.du, v2.re, v2.du, v3.re, v3.du)
  }

  function Assembled(order: nat, sqrt: real -> real, x: Inputs, d: Inputs, e: Expansion): Dual
    requires ExactSqrt(sqrt) && Supersonic(x)
  {
    Dual(Valued(order, F1(sqrt, x), x, e.Values()), Derived(order, F1(sqrt, x), DF1(sqrt, x, d), x, d, e))
  }

  lemma JetFromParts(order: nat, sqrt: real -> real, x: Inputs, d: Inputs, alongX: real, alongXdot: real)
    requires ExactSqrt(sqrt) && Supersonic(x)
    ensures var p := PartsAt(x, d, alongX, alongXdot);
      PressureJet(order, sqrt, x, d, alongX, alongXdot)
      == Jet(Assembled(order, sqrt, x, d, Sides(p.v1.value, p.v2.value, p.v3.value)),
             Assembled(order, sqrt, x, d, Sides(p.v1.slope, p.v2.slope, p.v3.slope)))
  {
    hide Valued, Derived, F1, DF1, MachFactor, MachFactorDerivative, DualMachFactor, DualF1, Series, PartsOf;
    var p := PartsAt(x, d, alongX, alongXdot);
    MachFactorIsDual(x.m, d.m);
    F1IsDual(sqrt, x, d);
    SeriesIs(order, F1(sqrt, x), DF1(sqrt, x, d), x, d, p.v1.value.re, p.v1.value.du, p.v2.value.re, p.v2.value.du,
             p.v3.value.re, p.v3.value.du);
    SeriesIs(order, F1(sqrt, x), DF1(sqrt, x, d), x, d, p.v1.slope.re, p.v1.slope.du, p.v2.slope.re, p.v2.slope.du,
             p.v3.slope.re, p.v3.slope.du);
  }

  lemma ValuedIsPressure(order: nat, sqrt: real -> real, x: Inputs, d: Inputs)
    requires ExactSqrt(sqrt) && Supersonic(x)
    ensures var e := PressureExpansion(x.v, d.v, MachFactor(x.m), MachFactorDerivative(x.m, d.m), x.dwdx, d.dwdx,
                                       x.dwdt, d.dwdt);
      Pressure(order, sqrt, x) == Valued(order, F1(sqrt, x), x, e.Values())
  {
    hide F1, MachFactor, MachFactorDerivative, Wash, WashAngle, CubicValue, QuadraticValue;
    var e := PressureExpansion(x.v, d.v, MachFactor(x.m), MachFactorDerivative(x.m, d.m), x.dwdx, d.dwdx, x.dwdt,
                               d.dwdt);
    SeriesFactors(F1(sqrt, x), x.m, x.gamma, e.v1, e.v2, e.v3);
  }

  lemma SeriesFactors(f: real, m: real, g: real, v1: real, v2: real, v3: real)
    ensures (v1 + (g + 1.0) / 12.0 * m * m * v3 + (g + 1.0) / 4.0 * m * v2) * f
         == f * v1 + CubicValue(f, m, g, v3) + QuadraticValue(f, m, g, v2)
    ensures (v1 + 0.0 + (g + 1.0) / 4.0 * m * v2) * f == f * v1 + 0.0 + QuadraticValue(f, m, g, v2)
  {
  }

  lemma SquareIs(a: real, w: real, dv: real, dmf: real, t: real, v: real, dw: real, mf: real, dt: real, da: real)
    requires da == w * dv + dmf * t + v * dw + mf * dt
    ensures Dual(a, da).Times(Dual(a, da))
         == Dual(a * a, 2.0 * a * w * dv + 2.0 * a * dmf * t + 2.0 * a * v * dw + 2.0 * a * mf * dt)
  {
    assert a * da == a * w * dv + a * dmf * t + a * v * dw + a * mf * dt;
  }

  lemma CubeIs(v0: real, e1: real, e2: real, e3: real, e4: real, v2: real, q1: real, q2: real, q3: real, q4: real)
    ensures Dual(v0, e1 + e2 + e3 + e4).Times(Dual(v2, q1 + q2 + q3 + q4))
         == Dual(v0 * v2, (e1 * v2 + v0 * q1) + (e2 * v2 + v0 * q2) + (v0 * q3 + e3 * v2) + (e4 * v2 + v0 * q4))
  {
  }

  /** The value sides of the four parts, as the pressure and its derivative routine write them. */
  lemma ValueSides(v: real, dv: real, mf: real, dmf: real, w: real, dw: real, t: real, dt: real, alongX: Dual,
                   alongXdot: Dual)
    requires v != 0.0
    ensures var p := PartsOf(Dual(v, dv), Dual(mf, dmf), Jet(Dual(w, dw), alongX), Jet(Dual(t, dt), alongXdot));
      var a, v0 := Wash(v, mf, w, t), WashAngle(v, mf, w, t);
      && p.v1.value == Dual(v * v * w + mf * v * t, (2.0 * v * w + mf * t) * dv + dmf * v * t + v * v * dw
                            + mf * v * dt)
      && p.v2.value == Dual(a * a, 2.0 * a * w * dv + 2.0 * a * dmf * t + 2.0 * a * v * dw + 2.0 * a * mf * dt)
      && p.v3.value == Dual(v0 * (a * a), (AngleWithV(v, dv, mf, t) * (a * a) + v0 * (2.0 * a * w * dv))
                                          + (AngleWithM(v, dmf, t) * (a * a) + v0 * (2.0 * a * dmf * t))
                                          + (v0 * (2.0 * a * v * dw) + dw * (a * a))
                                          + (AnglePartial(v, mf) * dt * (a * a) + v0 * (2.0 * a * mf * dt)))
  {
    hide Dual.Times, Dual.Plus, Linear0, Linear1, LinearA, PartsOf, Wash, WashAngle, AngleWithV, AngleWithM,
         AnglePartial;
    var a, v0 := Wash(v, mf, w, t), WashAngle(v, mf, w, t);
    PartsSplit(Dual(v, dv), Dual(mf, dmf), Jet(Dual(w, dw), alongX), Jet(Dual(t, dt), alongXdot));
    Linear0Is(v, dv, mf, dmf, w, dw, t, dt);
    Linear1Is(v, dv, mf, dmf, w, dw, t, dt);
    LinearAIs(v, dv, mf, dmf, w, dw, t, dt);
    SquareIs(a, w, dv, dmf, t, v, dw, mf, dt, w * dv + dmf * t + v * dw + mf * dt);
    CubeIs(v0, AngleWithV(v, dv, mf, t), AngleWithM(v, dmf, t), dw, AnglePartial(v, mf) * dt, a * a,
           2.0 * a * w * dv, 2.0 * a * dmf * t, 2.0 * a * v * dw, 2.0 * a * mf * dt);
  }

  /** The pressure and its derivative routine are the value side of the pressure in dual numbers. */
  lemma PressureIsDual(order: nat, sqrt: real -> real, x: Inputs, d: Inputs, alongX: real, alongXdot: real)
    requires ExactSqrt(sqrt) && Supersonic(x)
    ensures PressureJet(order, sqrt, x, d, alongX, alongXdot).value
         == Dual(Pressure(order, sqrt, x), PressureDerivative(order, sqrt, x, d))
  {
    hide Valued, Derived, F1, DF1, PressureJet, PressureExpansion, Pressure, PartsOf, MachFactor, MachFactorDerivative;
    JetFromParts(order, sqrt, x, d, alongX, alongXdot);
    ValuedIsPressure(order, sqrt, x, d);
    PressureSides(x.v, d.v, MachFactor(x.m), MachFactorDerivative(x.m, d.m), x.dwdx, d.dwdx, x.dwdt, d.dwdt,
                  Const(alongX), Const(alongXdot));
  }

  lemma PressureSides(v: real, dv: real, mf: real, dmf: real, w: real, dw: real, t: real, dt: real, alongX: Dual,
                      alongXdot: Dual)
    requires v != 0.0
    ensures var p := PartsOf(Dual(v, dv), Dual(mf, dmf), Jet(Dual(w, dw), alongX), Jet(Dual(t, dt), alongXdot));
      Sides(p.v1.value, p.v2.value, p.v3.value) == PressureExpansion(v, dv, mf, dmf, w, dw, t, dt)
  {
    hide PartsOf, Wash, WashAngle, AngleWithV, AngleWithM, AnglePartial;
    ValueSides(v, dv, mf, dmf, w, dw, t, dt, alongX, alongXdot);
  }

  lemma SlopeParts(v: Dual, mf: Dual, w: Jet, t: Jet, a: Dual, b: Dual, v0: Dual, v0s: Dual)
    requires v.re != 0.0
    requires a == LinearA(v, mf, w.value, t.value) && b == LinearA(v, mf, w.slope, t.slope)
    requires v0 == Linear0(v, mf, w.value, t.value) && v0s == Linear0(v, mf, w.slope, t.slope)
    ensures var p := PartsOf(v, mf, w, t);
      && p.v2.slope == Dual(2.0 * a.re * b.re, 2.0 * (a.re * b.du + a.du * b.re))
      && p.v3.slope.re == v0.re * (2.0 * a.re * b.re) + v0s.re * (a.re * a.re)
      && p.v3.slope.du == v0.re * (2.0 * (a.re * b.du + a.du * b.re)) + v0.du * (2.0 * a.re * b.re)
                          + (v0s.re * (2.0 * a.re * a.du) + v0s.du * (a.re * a.re))
  {
    hide PartsOf, Linear0, LinearA, Dual.Times, Dual.Plus;
    PartsSplit(v, mf, w, t);
    CrossIs(a, b);
    SquareOf(a);
    CubeSlope(v0, v0s, Dual(2.0 * a.re * b.re, 2.0 * (a.re * b.du + a.du * b.re)),
              Dual(a.re * a.re, 2.0 * a.re * a.du));
  }

  lemma CrossIs(a: Dual, b: Dual)
    ensures a.Times(b).Plus(b.Times(a)) == Dual(2.0 * a.re * b.re, 2.0 * (a.re * b.du + a.du * b.re))
  {
  }

  lemma SquareOf(a: Dual)
    ensures a.Times(a) == Dual(a.re * a.re, 2.0 * a.re * a.du)
  {
  }

  lemma CubeSlope(v0: Dual, v0s: Dual, cross: Dual, square: Dual)
    ensures v0.Times(cross).Plus(v0s.Times(square))
         == Dual(v0.re * cross.re + v0s.re * square.re, v0.re * cross.du + v0.du * cross.re
                 + (v0s.re * square.du + v0s.du * square.re))
  {
  }

  /** The linear parts along the slope alone and along the surface velocity alone. */
  lemma UnitSlope(v: real, dv: real, mf: real, dmf: real)
    requires v != 0.0
    ensures LinearA(Dual(v, dv), Dual(mf, dmf), Const(1.0), Const(0.0)) == Dual(v, dv)
    ensures Linear1(Dual(v, dv), Dual(mf, dmf), Const(1.0), Const(0.0)) == Dual(v * v, 2.0 * v * dv)
    ensures Linear0(Dual(v, dv), Dual(mf, dmf), Const(1.0), Const(0.0)) == Const(1.0)
  {
    TimesNothing(Dual(mf, dmf));
    OverUnique(Const(0.0), Dual(v, dv), Const(0.0));
  }

  lemma UnitVelocity(v: real, dv: real, mf: real, dmf: real)
    requires v != 0.0
    ensures LinearA(Dual(v, dv), Dual(mf, dmf), Const(0.0), Const(1.0)) == Dual(mf, dmf)
    ensures Linear1(Dual(v, dv), Dual(mf, dmf), Const(0.0), Const(1.0)) == Dual(mf * v, mf * dv + dmf * v)
    ensures Linear0(Dual(v, dv), Dual(mf, dmf), Const(0.0), Const(1.0))
         == Dual(AnglePartial(v, mf), AnglePartialWithV(v, dv, mf) + AnglePartial(v, dmf))
  {
    Linear0Is(v, dv, mf, dmf, 0.0, 0.0, 1.0, 0.0);
    hide Linear0;
  }

  lemma XSides(v: real, dv: real, mf: real, dmf: real, w: real, t: real)
    requires v != 0.0
    ensures var p := PartsOf(Dual(v, dv), Dual(mf, dmf), Jet(Const(w), Const(1.0)), Jet(Const(t), Const(0.0)));
      Sides(p.v1.slope, p.v2.slope, p.v3.slope) == XExpansion(v, dv, mf, dmf, w, t)
  {
    hide PartsOf, Linear0, Linear1, LinearA, Wash, WashAngle, XParts, XdotParts, AngleWithV, AngleWithM,
         AnglePartial, AnglePartialWithV;
    var a, v0 := LinearA(Dual(v, dv), Dual(mf, dmf), Const(w), Const(t)),
        Linear0(Dual(v, dv), Dual(mf, dmf), Const(w), Const(t));
    PartsSplit(Dual(v, dv), Dual(mf, dmf), Jet(Const(w), Const(1.0)), Jet(Const(t), Const(0.0)));
    SlopeParts(Dual(v, dv), Dual(mf, dmf), Jet(Const(w), Const(1.0)), Jet(Const(t), Const(0.0)), a, Dual(v, dv), v0,
               Const(1.0)) by {
      UnitSlope(v, dv, mf, dmf);
    }
    UnitSlope(v, dv, mf, dmf);
    Linear0Is(v, dv, mf, dmf, w, 0.0, t, 0.0);
    LinearAIs(v, dv, mf, dmf, w, 0.0, t, 0.0);
    var p := PartsOf(Dual(v, dv), Dual(mf, dmf), Jet(Const(w), Const(1.0)), Jet(Const(t), Const(0.0)));
    XMatches(v, dv, mf, dmf, w, t, Wash(v, mf, w, t), a.du, WashAngle(v, mf, w, t), v0.du, AngleWithV(v, dv, mf, t),
             AngleWithM(v, dmf, t), p.v2.slope, p.v3.slope) by {
      WashIs(v, mf, w, t);
    }
  }

  lemma WashIs(v: real, mf: real, w: real, t: real)
    ensures Wash(v, mf, w, t) == v * w + mf * t
  {
  }

  /** The slope parts are what the routine writes, q1 and q2 being the changes of v0 with V and with M. */
  lemma XMatches(v: real, dv: real, mf: real, dmf: real, w: real, t: real, a: real, da: real, v0: real, dv0: real,
                 q1: real, q2: real, s2: Dual, s3: Dual)
    requires a == v * w + mf * t && da == w * dv + dmf * t && dv0 == q1 + q2
    requires s2 == Dual(2.0 * a * v, 2.0 * (a * dv + da * v)) && s3.re == v0 * (2.0 * a * v) + 1.0 * (a * a)
    requires s3.du == v0 * (2.0 * (a * dv + da * v)) + dv0 * (2.0 * a * v) + (1.0 * (2.0 * a * da) + 0.0 * (a * a))
    ensures Sides(Dual(v * v, 2.0 * v * dv), s2, s3) == XParts(v, dv, mf, dmf, w, t, a, v0, q1, q2)
  {
    XAlgebra(v, dv, mf, dmf, w, t, a, v0, da, dv0, q1, q2);
  }

  lemma XAlgebra(v: real, dv: real, mf: real, dmf: real, w: real, t: real, a: real, v0: real, da: real, dv0: real,
                 q1: real, q2: real)
    requires a == v * w + mf * t && da == w * dv + dmf * t && dv0 == q1 + q2
    ensures 2.0 * (a * dv + da * v) == 2.0 * (2.0 * v * dv * w + mf * dv * t) + 2.0 * dmf * t * v
    ensures v0 * (2.0 * (a * dv + da * v)) + dv0 * (2.0 * a * v) + (1.0 * (2.0 * a * da) + 0.0 * (a * a))
         == q1 * (2.0 * a * v) + v0 * (2.0 * (2.0 * v * dv * w + mf * dv * t)) + 0.0 * (a * a)
           + 1.0 * (2.0 * a * w * dv)
            + (q2 * (2.0 * a * v) + v0 * (2.0 * dmf * t * v) + 0.0 * (a * a) + 1.0 * (2.0 * a * dmf * t))
  {
    assert 2.0 * a * da == 2.0 * a * w * dv + 2.0 * a * dmf * t;
    assert v0 * (2.0 * (a * dv + da * v)) == v0 * (2.0 * (2.0 * v * dv * w + mf * dv * t) + 2.0 * dmf * t * v);
  }

  lemma XdotSides(v: real, dv: real, mf: real, dmf: real, w: real, t: real)
    requires v != 0.0
    ensures var p := PartsOf(Dual(v, dv), Dual(mf, dmf), Jet(Const(w), Const(0.0)), Jet(Const(t), Const(1.0)));
      Sides(p.v1.slope, p.v2.slope, p.v3.slope) == XdotExpansion(v, dv, mf, dmf, w, t)
  {
    hide PartsOf, Linear0, Linear1, LinearA, Wash, WashAngle, XParts, XdotParts, AngleWithV, AngleWithM,
         AnglePartial, AnglePartialWithV;
    var a, v0 := LinearA(Dual(v, dv), Dual(mf, dmf), Const(w), Const(t)),
        Linear0(Dual(v, dv), Dual(mf, dmf), Const(w), Const(t));
    UnitVelocity(v, dv, mf, dmf);
    var v0s := Dual(AnglePartial(v, mf), AnglePartialWithV(v, dv, mf) + AnglePartial(v, dmf));
    PartsSplit(Dual(v, dv), Dual(mf, dmf), Jet(Const(w), Const(0.0)), Jet(Const(t), Const(1.0)));
    SlopeParts(Dual(v, dv), Dual(mf, dmf), Jet(Const(w), Const(0.0)), Jet(Const(t), Const(1.0)), a, Dual(mf, dmf), v0,
               v0s);
    Linear0Is(v, dv, mf, dmf, w, 0.0, t, 0.0);
    LinearAIs(v, dv, mf, dmf, w, 0.0, t, 0.0);
    var p := PartsOf(Dual(v, dv), Dual(mf, dmf), Jet(Const(w), Const(0.0)), Jet(Const(t), Const(1.0)));
    XdotMatches(v, dv, mf, dmf, w, t, Wash(v, mf, w, t), a.du, WashAngle(v, mf, w, t), v0.du, AngleWithV(v, dv, mf, t),
                AngleWithM(v, dmf, t),
                AnglePartial(v, mf), AnglePartialWithV(v, dv, mf), AnglePartial(v, dmf), v0s.du, p.v2.slope,
                p.v3.slope) by {
      WashIs(v, mf, w, t);
    }
  }

  /** The slope parts are what the routine writes; q1, q2 and q3, q4 are the changes of v0 and of its slope with V and
      M. */
  lemma XdotMatches(v: real, dv: real, mf: real, dmf: real, w: real, t: real, a: real, da: real, v0: real, dv0: real,
                    q1: real, q2: real, u: real, q3: real, q4: real, du: real, s2: Dual, s3: Dual)
    requires a == v * w + mf * t && da == w * dv + dmf * t && dv0 == q1 + q2 && du == q3 + q4
    requires s2 == Dual(2.0 * a * mf, 2.0 * (a * dmf + da * mf)) && s3.re == v0 * (2.0 * a * mf) + u * (a * a)
    requires s3.du == v0 * (2.0 * (a * dmf + da * mf)) + dv0 * (2.0 * a * mf) + (u * (2.0 * a * da) + du * (a * a))
    ensures Sides(Dual(mf * v, mf * dv + dmf * v), s2, s3) == XdotParts(v, dv, mf, dmf, w, t, a, v0, q1, q2, u, q3, q4)
  {
    XdotAlgebra(v, dv, mf, dmf, w, t, a, v0, da, dv0, q1, q2, u, q3, q4, du);
  }

  lemma XdotAlgebra(v: real, dv: real, mf: real, dmf: real, w: real, t: real, a: real, v0: real, da: real, dv0: real,
                    q1: real, q2: real, u: real, q3: real, q4: real, du: real)
    requires a == v * w + mf * t && da == w * dv + dmf * t && dv0 == q1 + q2 && du == q3 + q4
    ensures 2.0 * (a * dmf + da * mf) == 2.0 * dv * w * mf + 2.0 * (v * dmf * w + 2.0 * mf * dmf * t)
    ensures v0 * (2.0 * (a * dmf + da * mf)) + dv0 * (2.0 * a * mf) + (u * (2.0 * a * da) + du * (a * a))
         == q3 * (a * a) + u * (2.0 * a * w * dv) + q1 * (2.0 * a * mf) + v0 * (2.0 * dv * w * mf)
            + (q4 * (a * a) + u * (2.0 * a * dmf * t) + q2 * (2.0 * a * mf)
               + v0 * (2.0 * (v * dmf * w + 2.0 * mf * dmf * t)))
  {
    assert u * (2.0 * a * da) == u * (2.0 * a * w * dv) + u * (2.0 * a * dmf * t);
    assert v0 * (2.0 * (a * dmf + da * mf)) == v0 * (2.0 * dv * w * mf + 2.0 * (v * dmf * w + 2.0 * mf * dmf * t));
  }

  /** The parameter moves, the slope and the surface velocity do not. */
  function Fixed(d: Inputs): Inputs {
    d.(dwdx := 0.0, dwdt := 0.0)
  }

  lemma FixedAssembles(order: nat, sqrt: real -> real, x: Inputs, d: Inputs, e: Expansion)
    requires ExactSqrt(sqrt) && Supersonic(x)
    ensures Assembled(order, sqrt, x, Fixed(d), e) == Assembled(order, sqrt, x, d, e)
  {
    hide F1, F1Change, Valued, CubicChange, QuadraticChange, Reduced, ReducedRoot;
    assert Fixed(d).rho == d.rho && Fixed(d).m == d.m && Fixed(d).gamma == d.gamma;
  }

  /** The slope partial and its derivative routine are the slope side of the same evaluation, along the slope. */
  lemma XDerivativeIsDual(order: nat, sqrt: real -> real, x: Inputs, d: Inputs)
    requires ExactSqrt(sqrt) && Supersonic(x)
    ensures PressureJet(order, sqrt, x, Fixed(d), 1.0, 0.0).slope
         == Dual(XDerivative(order, sqrt, x), XDerivativeDerivative(order, sqrt, x, d))
  {
    hide PressureJet, PartsOf, XExpansion, Assembled, XDerivative, XDerivativeDerivative, MachFactor,
         MachFactorDerivative;
    JetFromParts(order, sqrt, x, Fixed(d), 1.0, 0.0);
    assert PartsAt(x, Fixed(d), 1.0, 0.0) == PartsOf(Dual(x.v, d.v),
                                                     Dual(MachFactor(x.m), MachFactorDerivative(x.m, d.m)),
                                                     Jet(Const(x.dwdx), Const(1.0)), Jet(Const(x.dwdt), Const(0.0)));
    XSides(x.v, d.v, MachFactor(x.m), MachFactorDerivative(x.m, d.m), x.dwdx, x.dwdt);
    XRoutines(order, sqrt, x, d);
    var p := PartsAt(x, Fixed(d), 1.0, 0.0);
    assert Sides(p.v1.slope, p.v2.slope, p.v3.slope) == XExpansion(x.v, d.v, MachFactor(x.m),
                                                                   MachFactorDerivative(x.m, d.m), x.dwdx, x.dwdt);
    assert PressureJet(order, sqrt, x, Fixed(d), 1.0, 0.0).slope
           == Assembled(order, sqrt, x, Fixed(d), Sides(p.v1.slope, p.v2.slope, p.v3.slope));
  }

  lemma XTermsAre(v: real, dv: real, mf: real, dmf: real, w: real, t: real)
    requires v != 0.0
    ensures XExpansion(v, dv, mf, dmf, w, t).Values() == XTerms(v, mf, w, t)
    ensures XdotExpansion(v, dv, mf, dmf, w, t).Values() == XdotTerms(v, mf, w, t)
  {
    hide Wash, WashAngle, AngleWithV, AngleWithM, AnglePartial, AnglePartialWithV;
  }

  lemma XRoutines(order: nat, sqrt: real -> real, x: Inputs, d: Inputs)
    requires ExactSqrt(sqrt) && Supersonic(x)
    ensures Assembled(order, sqrt, x, Fixed(d), XExpansion(x.v, d.v, MachFactor(x.m), MachFactorDerivative(x.m, d.m),
                                                           x.dwdx, x.dwdt))
         == Dual(XDerivative(order, sqrt, x), XDerivativeDerivative(order, sqrt, x, d))
  {
    XTermsAre(x.v, d.v, MachFactor(x.m), MachFactorDerivative(x.m, d.m), x.dwdx, x.dwdt);
    hide Valued, Derived, F1, DF1, MachFactor, MachFactorDerivative, XExpansion;
    FixedAssembles(order, sqrt, x, d, XExpansion(x.v, d.v, MachFactor(x.m), MachFactorDerivative(x.m, d.m), x.dwdx,
                                                 x.dwdt));
  }

  /** The velocity partial and its derivative routine are the slope side of the same evaluation, along the surface
      velocity. */
  lemma XdotDerivativeIsDual(order: nat, sqrt: real -> real, x: Inputs, d: Inputs)
    requires ExactSqrt(sqrt) && Supersonic(x)
    ensures PressureJet(order, sqrt, x, Fixed(d), 0.0, 1.0).slope
         == Dual(XdotDerivative(order, sqrt, x), XdotDerivativeDerivative(order, sqrt, x, d))
  {
    hide PressureJet, PartsOf, XdotExpansion, Assembled, XdotDerivative, XdotDerivativeDerivative, MachFactor,
         MachFactorDerivative;
    JetFromParts(order, sqrt, x, Fixed(d), 0.0, 1.0);
    assert PartsAt(x, Fixed(d), 0.0, 1.0) == PartsOf(Dual(x.v, d.v),
                                                     Dual(MachFactor(x.m), MachFactorDerivative(x.m, d.m)),
                                                     Jet(Const(x.dwdx), Const(0.0)), Jet(Const(x.dwdt), Const(1.0)));
    XdotSides(x.v, d.v, MachFactor(x.m), MachFactorDerivative(x.m, d.m), x.dwdx, x.dwdt);
    XdotRoutines(order, sqrt, x, d);
    var p := PartsAt(x, Fixed(d), 0.0, 1.0);
    assert Sides(p.v1.slope, p.v2.slope, p.v3.slope) == XdotExpansion(x.v, d.v, MachFactor(x.m),
                                                                      MachFactorDerivative(x.m, d.m), x.dwdx, x.dwdt);
    assert PressureJet(order, sqrt, x, Fixed(d), 0.0, 1.0).slope
           == Assembled(order, sqrt, x, Fixed(d), Sides(p.v1.slope, p.v2.slope, p.v3.slope));
  }

  lemma XdotRoutines(order: nat, sqrt: real -> real, x: Inputs, d: Inputs)
    requires ExactSqrt(sqrt) && Supersonic(x)
    ensures Assembled(order, sqrt, x, Fixed(d), XdotExpansion(x.v, d.v, MachFactor(x.m), MachFactorDerivative(x.m, d.m),
                                                              x.dwdx, x.dwdt))
         == Dual(XdotDerivative(order, sqrt, x), XdotDerivativeDerivative(order, sqrt, x, d))
  {
    XTermsAre(x.v, d.v, MachFactor(x.m), MachFactorDerivative(x.m, d.m), x.dwdx, x.dwdt);
    hide Valued, Derived, F1, DF1, MachFactor, MachFactorDerivative, XdotExpansion;
    FixedAssembles(order, sqrt, x, d, XdotExpansion(x.v, d.v, MachFactor(x.m), MachFactorDerivative(x.m, d.m), x.dwdx,
                                                    x.dwdt));
  }

  /** e changes as f does, and by p and q times the changes of the slope and of the surface velocity. */
  predicate Chains(e: Expansion, f: Expansion, p: Expansion, q: Expansion, dw: real, dt: real) {
    && e.v1 == f.v1 && e.v2 == f.v2 && e.v3 == f.v3
    && e.dv1 == f.dv1 + p.v1 * dw + q.v1 * dt && e.dv2 == f.dv2 + p.v2 * dw + q.v2 * dt
      && e.dv3 == f.dv3 + p.v3 * dw + q.v3 * dt
  }

  lemma ExpansionsChain(v: real, dv: real, mf: real, dmf: real, w: real, dw: real, t: real, dt: real)
    requires v != 0.0
    ensures Chains(PressureExpansion(v, dv, mf, dmf, w, dw, t, dt), PressureExpansion(v, dv, mf, dmf, w, 0.0, t, 0.0),
                   XExpansion(v, dv, mf, dmf, w, t), XdotExpansion(v, dv, mf, dmf, w, t), dw, dt)
  {
    hide Wash, WashAngle, AngleWithV, AngleWithM, AnglePartial, AnglePartialWithV;
    CubeChains(WashAngle(v, mf, w, t), Wash(v, mf, w, t), v, mf, dw, dt, AnglePartial(v, mf));
  }

  lemma CubeChains(v0: real, a: real, v: real, mf: real, dw: real, dt: real, u: real)
    ensures v0 * (2.0 * a * v * dw) + dw * (a * a) == (v0 * (2.0 * a * v) + 1.0 * (a * a)) * dw
    ensures u * dt * (a * a) + v0 * (2.0 * a * mf * dt) == (u * (a * a) + v0 * (2.0 * a * mf)) * dt
    ensures v0 * (2.0 * a * v * 0.0) + 0.0 * (a * a) == 0.0 && u * 0.0 * (a * a) + v0 * (2.0 * a * mf * 0.0) == 0.0
  {
  }

  lemma DerivedChains(order: nat, f1: real, df1: real, x: Inputs, d: Inputs, e: Expansion, f: Expansion, p: Expansion,
                      q: Expansion, dw: real, dt: real, alongX: real, alongXdot: real)
    requires Chains(e, f, p, q, dw, dt) && alongX == Valued(order, f1, x, p.Values())
             && alongXdot == Valued(order, f1, x, q.Values())
    ensures Derived(order, f1, df1, x, d, e) == Derived(order, f1, df1, x, d, f) + Mul(alongX, dw) + Mul(alongXdot, dt)
  {
    hide Mul, CubicValue, CubicChange, QuadraticValue, QuadraticChange;
    LinearChains(f1, df1, e.v1, f.v1, e.dv1, f.dv1, p.v1, q.v1, dw, dt);
    QuadraticChains(f1, df1, x.m, d.m, x.gamma, d.gamma, e.v2, f.v2, e.dv2, f.dv2, p.v2, q.v2, dw, dt);
    CubicChains(f1, df1, x.m, d.m, x.gamma, d.gamma, e.v3, f.v3, e.dv3, f.dv3, p.v3, q.v3, dw, dt);
    Combined(order, f1 * e.dv1 + df1 * e.v1, f1 * f.dv1 + df1 * f.v1,
             CubicChange(f1, df1, x.m, d.m, x.gamma, d.gamma, e.v3, e.dv3),
             CubicChange(f1, df1, x.m, d.m, x.gamma, d.gamma, f.v3, f.dv3),
             QuadraticChange(f1, df1, x.m, d.m, x.gamma, d.gamma, e.v2, e.dv2),
             QuadraticChange(f1, df1, x.m, d.m, x.gamma, d.gamma, f.v2, f.dv2),
             f1 * p.v1, f1 * q.v1, CubicValue(f1, x.m, x.gamma, p.v3), CubicValue(f1, x.m, x.gamma, q.v3),
             QuadraticValue(f1, x.m, x.gamma, p.v2), QuadraticValue(f1, x.m, x.gamma, q.v2), dw, dt, alongX, alongXdot);
  }

  /** The three parts, each with its two partials, put together for one order. */
  lemma Combined(order: nat, l: real, l': real, c: real, c': real, q: real, q': real, lx: real, lt: real, cx: real,
                 ct: real, qx: real, qt: real, dw: real, dt: real, alongX: real, alongXdot: real)
    requires l == l' + Mul(lx, dw) + Mul(lt, dt)
    requires c == c' + Mul(cx, dw) + Mul(ct, dt) && q == q' + Mul(qx, dw) + Mul(qt, dt)
    requires alongX == lx + (if order == 3 then cx else 0.0) + if order == 3 || order == 2 then qx else 0.0
    requires alongXdot == lt + (if order == 3 then ct else 0.0) + if order == 3 || order == 2 then qt else 0.0
    ensures l + (if order == 3 then c else 0.0) + (if order == 3 || order == 2 then q else 0.0)
         == l' + (if order == 3 then c' else 0.0) + (if order == 3 || order == 2 then q' else 0.0)
            + Mul(alongX, dw) + Mul(alongXdot, dt)
  {
    SumTimes(alongX, lx, if order == 3 then cx else 0.0, if order == 3 || order == 2 then qx else 0.0, dw);
    SumTimes(alongXdot, lt, if order == 3 then ct else 0.0, if order == 3 || order == 2 then qt else 0.0, dt);
    assert Mul(0.0, dw) == 0.0 && Mul(0.0, dt) == 0.0;
    hide Mul;
  }

  lemma SumTimes(s: real, a: real, b: real, c: real, d: real)
    requires s == a + b + c
    ensures Mul(s, d) == Mul(a, d) + Mul(b, d) + Mul(c, d)
  {
  }

  lemma LinearChains(f: real, df: real, v: real, v': real, dv: real, dv': real, p: real, q: real, dw: real, dt: real)
    requires v == v' && dv == dv' + p * dw + q * dt
    ensures f * dv + df * v == f * dv' + df * v' + Mul(f * p, dw) + Mul(f * q, dt)
  {
  }

  lemma QuadraticChains(f: real, df: real, m: real, dm: real, g: real, dg: real, v: real, v': real, dv: real, dv': real,
                        p: real, q: real, dw: real, dt: real)
    requires v == v' && dv == dv' + p * dw + q * dt
    ensures QuadraticChange(f, df, m, dm, g, dg, v, dv)
         == QuadraticChange(f, df, m, dm, g, dg, v', dv') + Mul(QuadraticValue(f, m, g, p), dw)
           + Mul(QuadraticValue(f, m, g, q), dt)
  {
    assert f * (dm * v + m * dv) == f * (dm * v' + m * dv') + f * m * p * dw + f * m * q * dt;
  }

  lemma CubicChains(f: real, df: real, m: real, dm: real, g: real, dg: real, v: real, v': real, dv: real, dv': real,
                    p: real, q: real, dw: real, dt: real)
    requires v == v' && dv == dv' + p * dw + q * dt
    ensures CubicChange(f, df, m, dm, g, dg, v, dv)
         == CubicChange(f, df, m, dm, g, dg, v', dv') + Mul(CubicValue(f, m, g, p), dw)
           + Mul(CubicValue(f, m, g, q), dt)
  {
    CubicSlope(f, m, dm, v, dv);
    CubicSlope(f, m, dm, v', dv');
    var k := f * m * m;
    assert k * dv == k * dv' + k * p * dw + k * q * dt;
    assert f * m * (2.0 * dm * v + m * dv) == f * m * (2.0 * dm * v' + m * dv') + f * m * m * p * dw
           + f * m * m * q * dt;
  }

  lemma CubicSlope(f: real, m: real, dm: real, v: real, dv: real)
    ensures f * m * (2.0 * dm * v + m * dv) == f * m * (2.0 * dm * v) + f * m * m * dv
  {
  }

  /** The three first-derivative routines agree: the parameter derivative is the one with the surface held fixed, plus
      each partial times what the slope and the surface velocity change by. */
  lemma RoutinesObeyChainRule(order: nat, sqrt: real -> real, x: Inputs, d: Inputs)
    requires ExactSqrt(sqrt) && Supersonic(x)
    ensures PressureDerivative(order, sqrt, x, d)
         == PressureDerivative(order, sqrt, x, Fixed(d)) + Mul(XDerivative(order, sqrt, x), d.dwdx)
            + Mul(XdotDerivative(order, sqrt, x), d.dwdt)
  {
    var f1, df1, mf, dmf := F1(sqrt, x), DF1(sqrt, x, d), MachFactor(x.m), MachFactorDerivative(x.m, d.m);
    var e, f := PressureExpansion(x.v, d.v, mf, dmf, x.dwdx, d.dwdx, x.dwdt, d.dwdt),
        PressureExpansion(x.v, d.v, mf, dmf, x.dwdx, 0.0, x.dwdt, 0.0);
    var p, q := XExpansion(x.v, d.v, mf, dmf, x.dwdx, x.dwdt), XdotExpansion(x.v, d.v, mf, dmf, x.dwdx, x.dwdt);
    hide F1, DF1, MachFactor, MachFactorDerivative, PressureExpansion, XExpansion, XdotExpansion, Valued, Derived, Mul;
    FixedAssembles(order, sqrt, x, d, f);
    assert PressureDerivative(order, sqrt, x, Fixed(d)) == Derived(order, f1, df1, x, d, f);
    assert PressureDerivative(order, sqrt, x, d) == Derived(order, f1, df1, x, d, e);
    hide Chains;
    ExpansionsChain(x.v, d.v, mf, dmf, x.dwdx, d.dwdx, x.dwdt, d.dwdt);
    XTermsAre(x.v, d.v, mf, dmf, x.dwdx, x.dwdt);
    DerivedChains(order, f1, df1, x, d, e, f, p, q, d.dwdx, d.dwdt, XDerivative(order, sqrt, x),
                  XdotDerivative(order, sqrt, x));
    hide *;
  }

  // ---------------------------------------------------------------------------------------------
  // The isentropic law
  // ---------------------------------------------------------------------------------------------

  /** The third-order series in the Mach number z of the piston, and its derivative. */
  function PistonSeries(gamma: real, z: real): real {
    z + (gamma + 1.0) / 4.0 * (z * z) + (gamma + 1.0) / 12.0 * (z * z * z)
  }

  function PistonSlope(gamma: real, z: real): real {
    1.0 + (gamma + 1.0) / 2.0 * z + (gamma + 1.0) / 4.0 * (z * z)
  }

  lemma SlopeOfSeries(gamma: real, z: real, h: real)
    ensures PistonSeries(gamma, z + h)
         == PistonSeries(gamma, z) + h * PistonSlope(gamma, z)
            + h * h * ((gamma + 1.0) / 4.0 + (gamma + 1.0) / 4.0 * z + (gamma + 1.0) / 12.0 * h)
  {
    var c := (gamma + 1.0) / 12.0;
    assert (z + h) * (z + h) == z * z + 2.0 * (z * h) + h * h;
    assert (z + h) * (z + h) * (z + h) == z * z * z + 3.0 * (z * z * h) + 3.0 * (z * h * h) + h * h * h;
    assert PistonSeries(gamma, z + h) == (z + h) + 3.0 * c * ((z + h) * (z + h)) + c * ((z + h) * (z + h) * (z + h));
  }

  /** The pressure f(z) behind an isentropic simple wave, over rho a^2, satisfies f' (1 + (gamma - 1) / 2 z) =
      1 + gamma f. The series does so up to the third order, and no further. */
  lemma SeriesIsIsentropic(gamma: real, z: real)
    ensures PistonSlope(gamma, z) * (1.0 + (gamma - 1.0) / 2.0 * z)
         == 1.0 + gamma * PistonSeries(gamma, z) + (gamma + 1.0) * (gamma - 3.0) / 24.0 * (z * z * z)
  {
    var g, q, r := gamma, z * z, z * z * z;
    assert z * q == r;
    assert PistonSlope(g, z) * (1.0 + (g - 1.0) / 2.0 * z)
        == 1.0 + ((g + 1.0) / 2.0 + (g - 1.0) / 2.0) * z + ((g + 1.0) / 4.0 + (g + 1.0) * (g - 1.0) / 4.0) * q
           + (g + 1.0) * (g - 1.0) / 8.0 * r;
  }

  /** The pressure of order three is that series in the normal wash, with M over V as its scale; the density carries
      1 / sqrt(M^2 - 1) in place of 1 / M. */
  lemma PressureIsPistonSeries(sqrt: real -> real, x: Inputs, z: real)
    requires ExactSqrt(sqrt) && Supersonic(x) && z * x.v == x.m * Wash(x.v, MachFactor(x.m), x.dwdx, x.dwdt)
    ensures Mul(Pressure(3, sqrt, x), x.m) == Mul(F1(sqrt, x), Sq(x.v) * PistonSeries(x.gamma, z))
  {
    var mf := MachFactor(x.m);
    var a, v0 := Wash(x.v, mf, x.dwdx, x.dwdt), WashAngle(x.v, mf, x.dwdx, x.dwdt);
    SeriesAtHand(sqrt, x, z);
    hide *;
    FromSeries(x.v, x.m, a, v0, z, (x.gamma + 1.0) / 4.0, (x.gamma + 1.0) / 12.0, F1(sqrt, x), Pressure(3, sqrt, x),
               PistonSeries(x.gamma, z));
  }

  /** The pressure and the series in the normal wash a and the wash angle v0. */
  predicate InWash(v: real, m: real, a: real, v0: real, z: real, c2: real, c3: real, f: real, p: real, series: real) {
    && v != 0.0 && v0 * v == a && z * v == m * a && series == z + c2 * (z * z) + c3 * (z * z * z)
    && p == (v * a + c3 * m * m * (v0 * (a * a)) + c2 * m * (a * a)) * f
  }

  lemma SeriesAtHand(sqrt: real -> real, x: Inputs, z: real)
    requires ExactSqrt(sqrt) && Supersonic(x) && z * x.v == x.m * Wash(x.v, MachFactor(x.m), x.dwdx, x.dwdt)
    ensures var a, v0 := Wash(x.v, MachFactor(x.m), x.dwdx, x.dwdt), WashAngle(x.v, MachFactor(x.m), x.dwdx, x.dwdt);
            InWash(x.v, x.m, a, v0, z, (x.gamma + 1.0) / 4.0, (x.gamma + 1.0) / 12.0, F1(sqrt, x),
                   Pressure(3, sqrt, x), PistonSeries(x.gamma, z))
  {
    var mf := MachFactor(x.m);
    var a, v0 := Wash(x.v, mf, x.dwdx, x.dwdt), WashAngle(x.v, mf, x.dwdx, x.dwdt);
    WashOverVelocity(x.v, mf, x.dwdx, x.dwdt);
    PressureParts(sqrt, x, a, v0, (x.gamma + 1.0) / 4.0, (x.gamma + 1.0) / 12.0);
    SeriesParts(x.gamma, z, (x.gamma + 1.0) / 4.0, (x.gamma + 1.0) / 12.0);
    hide F1, MachFactor, Wash, WashAngle, Pressure, PistonSeries;
  }

  lemma SeriesParts(gamma: real, z: real, c2: real, c3: real)
    requires c2 == (gamma + 1.0) / 4.0 && c3 == (gamma + 1.0) / 12.0
    ensures PistonSeries(gamma, z) == z + c2 * (z * z) + c3 * (z * z * z)
  {
  }

  lemma PressureParts(sqrt: real -> real, x: Inputs, a: real, v0: real, c2: real, c3: real)
    requires ExactSqrt(sqrt) && Supersonic(x) && a == Wash(x.v, MachFactor(x.m), x.dwdx, x.dwdt)
    requires v0 == WashAngle(x.v, MachFactor(x.m), x.dwdx, x.dwdt)
    requires c2 == (x.gamma + 1.0) / 4.0 && c3 == (x.gamma + 1.0) / 12.0
    ensures Pressure(3, sqrt, x) == (x.v * a + c3 * x.m * x.m * (v0 * (a * a)) + c2 * x.m * (a * a)) * F1(sqrt, x)
  {
    hide F1, MachFactor, WashAngle;
    assert x.v * a == x.v * x.v * x.dwdx + MachFactor(x.m) * x.v * x.dwdt;
  }

  lemma FromSeries(v: real, m: real, a: real, v0: real, z: real, c2: real, c3: real, f: real, p: real, series: real)
    requires InWash(v, m, a, v0, z, c2, c3, f, p, series)
    ensures Mul(p, m) == Mul(f, Sq(v) * series)
  {
    SeriesTerms(v, m, a, v0, z, c2, c3);
    var s := v * a + c3 * m * m * (v0 * (a * a)) + c2 * m * (a * a);
    var t := z + c2 * (z * z) + c3 * (z * z * z);
    assert s * m == v * v * t && p == s * f && series == t;
    hide InWash;
    InOrder(s, f, m, v, t, p, series);
  }

  lemma InOrder(s: real, f: real, m: real, v: real, t: real, p: real, series: real)
    requires s * m == v * v * t && p == s * f && series == t
    ensures Mul(p, m) == Mul(f, Sq(v) * series)
  {
    assert s * f * m == f * (s * m);
  }

  lemma WashOverVelocity(v: real, mf: real, w: real, t: real)
    requires v != 0.0
    ensures WashAngle(v, mf, w, t) * v == Wash(v, mf, w, t)
  {
    var q := mf * t / v;
    assert q * v == mf * t;
  }

  lemma SeriesTerms(v: real, m: real, a: real, v0: real, z: real, c2: real, c3: real)
    requires v != 0.0 && v0 * v == a && z * v == m * a
    ensures (v * a + c3 * m * m * (v0 * (a * a)) + c2 * m * (a * a)) * m
         == v * v * (z + c2 * (z * z) + c3 * (z * z * z))
  {
    ScaleOf(v, m, a, v0, z);
    var q, r := v * v * (z * z), v * v * (z * z * z);
    assert v * v * z == v * (m * a);
    SecondPower(v, m, a, z);
    ThirdPower(v, m, a, v0, z);
    assert v * v * (z + c2 * (z * z) + c3 * (z * z * z)) == v * v * z + c2 * q + c3 * r;
  }

  lemma ScaleOf(v: real, m: real, a: real, v0: real, z: real)
    requires v != 0.0 && v0 * v == a && z * v == m * a
    ensures z == m * v0
  {
    assert (z - m * v0) * v == 0.0;
  }

  lemma SecondPower(v: real, m: real, a: real, z: real)
    requires z * v == m * a
    ensures v * v * (z * z) == m * (a * a) * m
  {
    assert v * v * (z * z) == (z * v) * (z * v);
  }

  lemma ThirdPower(v: real, m: real, a: real, v0: real, z: real)
    requires z * v == m * a && z == m * v0
    ensures v * v * (z * z * z) == m * m * (v0 * (a * a)) * m
  {
    assert v * v * (z * z * z) == (z * v) * (z * v) * z;
  }
}
