/** A complex system of n dofs assembled as an interleaved real one of 2n: dof d has its real part at 2d and its
    imaginary part at 2d + 1, and every complex Jacobian entry a + ib becomes the block [a -b; b a], added where
    elements overlap. */
module ComplexAssembly {
  import opened Scalars
  import opened LinearAlgebra
  import opened ComplexAlgebra
  import opened ElementAssembly

  /** What an element computes from its base solution and its complex disturbance. */
  datatype ComplexOperations = ComplexOperations(
    residual: (Element, seq<real>, seq<Complex>) -> seq<Complex>,
    jacobian: (Element, seq<real>, seq<Complex>) -> CMatrix,
    residualSensitivity: (Element, seq<real>, seq<Complex>) -> seq<Complex>)

  function CGather(dofs: seq<nat>, x: seq<Complex>): seq<Complex> {
    seq(|dofs|, i requires 0 <= i < |dofs| => CAt(x, dofs[i]))
  }

  function CZeros(n: nat): seq<Complex> {
    seq(n, i => Zero)
  }

  /** The complex vector that an interleaved real one stands for. */
  function FromBlocks(x: seq<real>): seq<Complex>
    requires |x| % 2 == 0
  {
    seq(|x| / 2, d requires 0 <= d < |x| / 2 => Complex(x[2 * d], x[2 * d + 1]))
  }

  function FromParts(re: seq<real>, im: seq<real>): seq<Complex>
    requires |re| == |im|
  {
    seq(|re|, d requires 0 <= d < |re| => Complex(re[d], im[d]))
  }

  // ---------------------------------------------------------------------------------------------
  // Complex assembly
  // ---------------------------------------------------------------------------------------------

  function CAddEntries(v: seq<Complex>, dofs: seq<nat>, vec: seq<Complex>): (r: seq<Complex>)
    requires |dofs| == |vec| && Within(|v|, dofs)
    ensures |r| == |v|
  {
    if dofs == [] then v
    else
      var k := |dofs| - 1;
      var r := CAddEntries(v, dofs[..k], vec[..k]);
      r[dofs[k] := r[dofs[k]].Plus(vec[k])]
  }

  ghost predicate CFits(n: nat, mesh: seq<Element>, f: Element -> seq<Complex>) {
    forall e <- mesh :: Within(n, e.dofs) && |f(e)| == |e.dofs|
  }

  function CAssembled(n: nat, mesh: seq<Element>, f: Element -> seq<Complex>): (r: seq<Complex>)
    requires CFits(n, mesh, f)
    ensures |r| == n
  {
    if mesh == [] then CZeros(n)
    else
      var k := |mesh| - 1;
      CAddEntries(CAssembled(n, mesh[..k], f), mesh[k].dofs, f(mesh[k]))
  }

  /** The entries of w added along row d at the listed columns. */
  function AddRow(a: CMatrix, d: nat, dofs: seq<nat>, w: CVector): CMatrix {
    if dofs == [] then a
    else
      var k := |dofs| - 1;
      var r := AddRow(a, d, dofs[..k], w);
      (p, q) => if p == d && q == dofs[k] then r(p, q).Plus(w(k)) else r(p, q)
  }

  function AddMatrix(a: CMatrix, rows: seq<nat>, dofs: seq<nat>, m: CMatrix): CMatrix {
    if rows == [] then a
    else
      var k := |rows| - 1;
      AddRow(AddMatrix(a, rows[..k], dofs, m), rows[k], dofs, CRow(m, k))
  }

  function ZeroMatrix(): CMatrix {
    (p, q) => Zero
  }

  function MatrixAssembled(mesh: seq<Element>, m: Element -> CMatrix): CMatrix {
    if mesh == [] then ZeroMatrix()
    else
      var k := |mesh| - 1;
      AddMatrix(MatrixAssembled(mesh[..k], m), mesh[k].dofs, mesh[k].dofs, m(mesh[k]))
  }

  // ---------------------------------------------------------------------------------------------
  // The assembled Jacobian acts as the sum of the element Jacobians on gathered vectors
  // ---------------------------------------------------------------------------------------------

  /** The element Jacobian times the gathered part of x. */
  function ElementProduct(m: CMatrix, dofs: seq<nat>, x: seq<Complex>): seq<Complex> {
    seq(|dofs|, i requires 0 <= i < |dofs| => CDot(|dofs|, CRow(m, i), AsCVector(CGather(dofs, x))))
  }

  lemma PlusAssociates(a: Complex, b: Complex, c: Complex)
    ensures a.Plus(b).Plus(c) == a.Plus(b.Plus(c)) == a.Plus(c).Plus(b)
  {
  }

  lemma TimesDistributesLeft(a: Complex, b: Complex, c: Complex)
    ensures a.Plus(b).Times(c) == a.Times(c).Plus(b.Times(c))
  {
    TimesCommutes(a.Plus(b), c);
    TimesDistributes(c, a, b);
    TimesCommutes(a, c);
    TimesCommutes(b, c);
  }

  lemma {:induction false} CDotBump(n: nat, u: CVector, u': CVector, q: nat, w: Complex, x: CVector)
    requires forall j | 0 <= j < n :: u'(j) == if j == q then u(j).Plus(w) else u(j)
    ensures CDot(n, u', x) == if q < n then CDot(n, u, x).Plus(w.Times(x(q))) else CDot(n, u, x)
  {
    hide Complex.Plus, Complex.Times;
    if n > 0 {
      CDotBump(n - 1, u, u', q, w, x);
      TimesDistributesLeft(u(n - 1), w, x(n - 1));
      if q == n - 1 {
        PlusAssociates(CDot(n - 1, u, x), u(n - 1).Times(x(n - 1)), w.Times(x(q)));
      } else {
        PlusAssociates(CDot(n - 1, u, x), w.Times(x(q)), u(n - 1).Times(x(n - 1)));
      }
    }
  }

  lemma GatheredPrefix(dofs: seq<nat>, w: CVector, x: seq<Complex>, k: nat)
    requires k <= |dofs|
    ensures CDot(k, w, AsCVector(CGather(dofs[..k], x))) == CDot(k, w, AsCVector(CGather(dofs, x)))
  {
    forall i | 0 <= i < k
      ensures AsCVector(CGather(dofs[..k], x))(i) == AsCVector(CGather(dofs, x))(i)
    {
    }
    hide Complex.Times;
    CDotCongruent(k, w, AsCVector(CGather(dofs[..k], x)), w, AsCVector(CGather(dofs, x)));
  }

  lemma {:induction false} AddRowApplies(n: nat, a: CMatrix, d: nat, dofs: seq<nat>, w: CVector, x: seq<Complex>,
                                         p: nat)
    requires Within(n, dofs) && |x| == n
    ensures CApply(n, AddRow(a, d, dofs, w), AsCVector(x))(p)
         == if p == d then CApply(n, a, AsCVector(x))(p).Plus(CDot(|dofs|, w, AsCVector(CGather(dofs, x))))
            else CApply(n, a, AsCVector(x))(p)
  {
    hide Complex.Plus, Complex.Times;
    var xs := AsCVector(x);
    if dofs == [] {
      PlusZero(CApply(n, a, xs)(p));
    } else {
      var k := |dofs| - 1;
      AddRowApplies(n, a, d, dofs[..k], w, x, p);
      var r := AddRow(a, d, dofs[..k], w);
      var u, u' := CRow(r, p), CRow(AddRow(a, d, dofs, w), p);
      if p == d {
        CDotBump(n, u, u', dofs[k], w(k), xs);
        GatheredPrefix(dofs, w, x, k);
        hide AddRow, CGather;
        PlusAssociates(CApply(n, a, xs)(p), CDot(k, w, AsCVector(CGather(dofs, x))), w(k).Times(xs(dofs[k])));
      } else {
        CDotCongruent(n, u', xs, u, xs);
      }
    }
  }

  lemma PlusZero(a: Complex)
    ensures a.Plus(Zero) == a
  {
  }

  lemma {:induction false} AddMatrixApplies(n: nat, a: CMatrix, rows: seq<nat>, dofs: seq<nat>, m: CMatrix,
                                            x: seq<Complex>, y: seq<Complex>, w: seq<Complex>)
    requires Within(n, rows) && Within(n, dofs) && |x| == |y| == n && |w| == |rows|
    requires forall p: nat | p < n :: y[p] == CApply(n, a, AsCVector(x))(p)
    requires forall i | 0 <= i < |rows| :: w[i] == CDot(|dofs|, CRow(m, i), AsCVector(CGather(dofs, x)))
    ensures forall p: nat | p < n ::
              CApply(n, AddMatrix(a, rows, dofs, m), AsCVector(x))(p) == CAddEntries(y, rows, w)[p]
  {
    if rows != [] {
      var k := |rows| - 1;
      AddMatrixApplies(n, a, rows[..k], dofs, m, x, y, w[..k]);
      forall p: nat | p < n
        ensures CApply(n, AddMatrix(a, rows, dofs, m), AsCVector(x))(p) == CAddEntries(y, rows, w)[p]
      {
        AddRowApplies(n, AddMatrix(a, rows[..k], dofs, m), rows[k], dofs, CRow(m, k), x, p);
        hide CApply, CDot, AddRow, Complex.Plus;
      }
    }
  }

  /** For any connectivity: the assembled Jacobian times x assembles the element Jacobians times the gathered x. */
  lemma {:induction false} AssembledJacobianActsByElements(n: nat, mesh: seq<Element>, m: Element -> CMatrix,
                                                           x: seq<Complex>, f: Element -> seq<Complex>)
    requires |x| == n && CFits(n, mesh, f)
    requires forall e <- mesh :: f(e) == ElementProduct(m(e), e.dofs, x)
    ensures forall p: nat | p < n :: CApply(n, MatrixAssembled(mesh, m), AsCVector(x))(p) == CAssembled(n, mesh, f)[p]
  {
    if mesh == [] {
      forall p: nat | p < n
        ensures CApply(n, ZeroMatrix(), AsCVector(x))(p) == Zero
      {
        CDotZero(n, CRow(ZeroMatrix(), p), AsCVector(x));
      }
    } else {
      var k := |mesh| - 1;
      assert mesh[k] in mesh;
      AssembledJacobianActsByElements(n, mesh[..k], m, x, f);
      AddMatrixApplies(n, MatrixAssembled(mesh[..k], m), mesh[k].dofs, mesh[k].dofs, m(mesh[k]), x,
                       CAssembled(n, mesh[..k], f), f(mesh[k]));
    }
  }

  lemma AddInAnyOrder(a: Complex, b: Complex, c: Complex, d: Complex)
    ensures a.Plus(b).Plus(c.Plus(d)) == a.Plus(c).Plus(b.Plus(d))
  {
  }

  lemma {:induction false} EntriesAdd(v: seq<Complex>, v': seq<Complex>, dofs: seq<nat>, vec: seq<Complex>,
                                      vec': seq<Complex>, p: nat)
    requires |v| == |v'| && |dofs| == |vec| == |vec'| && Within(|v|, dofs) && p < |v|
    ensures CAddEntries(SumOf(v, v'), dofs, SumOf(vec, vec'))[p]
         == CAddEntries(v, dofs, vec)[p].Plus(CAddEntries(v', dofs, vec')[p])
  {
    hide Complex.Plus;
    if dofs != [] {
      var k := |dofs| - 1;
      EntriesAdd(v, v', dofs[..k], vec[..k], vec'[..k], p);
      assert SumOf(vec, vec')[..k] == SumOf(vec[..k], vec'[..k]);
      AddInAnyOrder(CAddEntries(v, dofs[..k], vec[..k])[p], CAddEntries(v', dofs[..k], vec'[..k])[p], vec[k], vec'[k]);
    }
  }

  function SumOf(u: seq<Complex>, v: seq<Complex>): (r: seq<Complex>)
    requires |u| == |v|
    ensures |r| == |u|
  {
    seq(|u|, i requires 0 <= i < |u| => u[i].Plus(v[i]))
  }

  lemma ZerosAdd(n: nat)
    ensures SumOf(CZeros(n), CZeros(n)) == CZeros(n)
  {
  }

  /** Element vectors that add up assemble to vectors that add up. */
  lemma {:induction false} AssembledAdds(n: nat, mesh: seq<Element>, f: Element -> seq<Complex>,
                                         g: Element -> seq<Complex>, h: Element -> seq<Complex>)
    requires CFits(n, mesh, f) && CFits(n, mesh, g) && CFits(n, mesh, h)
    requires forall e <- mesh :: h(e) == SumOf(f(e), g(e))
    ensures CAssembled(n, mesh, h) == SumOf(CAssembled(n, mesh, f), CAssembled(n, mesh, g))
  {
    if mesh == [] {
      ZerosAdd(n);
    } else {
      var k := |mesh| - 1;
      var e := mesh[k];
      assert e in mesh;
      AssembledAdds(n, mesh[..k], f, g, h);
      forall p: nat | p < n
        ensures CAssembled(n, mesh, h)[p] == SumOf(CAssembled(n, mesh, f), CAssembled(n, mesh, g))[p]
      {
        EntriesAdd(CAssembled(n, mesh[..k], f), CAssembled(n, mesh[..k], g), e.dofs, f(e), g(e), p);
      }
    }
  }

  // ---------------------------------------------------------------------------------------------
  // The blocked real form refines complex arithmetic
  // ---------------------------------------------------------------------------------------------

  /** J holds each complex entry as the block [a -b; b a]. */
  ghost predicate IsBlocked(n: nat, j: Matrix, a: CMatrix) {
    forall p, q | 0 <= p < n && 0 <= q < n :: IsBlock(j, a(p, q), p, q)
  }

  predicate IsBlock(j: Matrix, v: Complex, p: int, q: int) {
    && j(2 * p, 2 * q) == v.re && j(2 * p, 2 * q + 1) == -v.im
    && j(2 * p + 1, 2 * q) == v.im && j(2 * p + 1, 2 * q + 1) == v.re
  }

  lemma BlockTimes(v: Complex, e0: real, e1: real, o0: real, o1: real, a: real, b: real)
    requires e0 == v.re && e1 == -v.im && o0 == v.im && o1 == v.re
    ensures v.Times(Complex(a, b)) == Complex(e0 * a + e1 * b, o0 * a + o1 * b)
  {
  }

  /** Column q of a pair of rows holds a complex entry, and x holds its factor. */
  predicate HoldsTerm(even: Vector, odd: Vector, x: Vector, row: CVector, xc: CVector, q: int) {
    && even(2 * q) == row(q).re && even(2 * q + 1) == -row(q).im
    && odd(2 * q) == row(q).im && odd(2 * q + 1) == row(q).re
    && xc(q) == Complex(x(2 * q), x(2 * q + 1))
  }

  lemma BlockedStep(q: nat, even: Vector, odd: Vector, x: Vector, row: CVector, xc: CVector)
    requires HoldsTerm(even, odd, x, row, xc, q)
    ensures Complex(Dot(2 * q + 2, even, x), Dot(2 * q + 2, odd, x))
         == Complex(Dot(2 * q, even, x), Dot(2 * q, odd, x)).Plus(row(q).Times(xc(q)))
  {
    TwoTerms(2 * q, even, x);
    TwoTerms(2 * q, odd, x);
    BlockTimes(row(q), even(2 * q), even(2 * q + 1), odd(2 * q), odd(2 * q + 1), x(2 * q), x(2 * q + 1));
    hide Dot, Complex.Times;
  }

  lemma {:induction false} BlockedRow(m: nat, even: Vector, odd: Vector, x: Vector, row: CVector, xc: CVector)
    requires forall q | 0 <= q < m :: HoldsTerm(even, odd, x, row, xc, q)
    ensures Complex(Dot(2 * m, even, x), Dot(2 * m, odd, x)) == CDot(m, row, xc)
  {
    hide HoldsTerm, Complex.Times, Complex.Plus;
    if m > 0 {
      BlockedRow(m - 1, even, odd, x, row, xc);
      BlockedStep(m - 1, even, odd, x, row, xc);
      assert 2 * m == 2 * (m - 1) + 2;
    }
  }

  lemma TwoTerms(k: nat, u: Vector, v: Vector)
    ensures Dot(k + 2, u, v) == Dot(k, u, v) + u(k) * v(k) + u(k + 1) * v(k + 1)
  {
    assert Dot(k + 2, u, v) == Dot(k + 1, u, v) + u(k + 1) * v(k + 1);
    assert Dot(k + 1, u, v) == Dot(k, u, v) + u(k) * v(k);
  }

  /** The real 2n x 2n Jacobian times an interleaved vector interleaves the complex product. */
  lemma BlockedProductIsComplexProduct(n: nat, j: Matrix, a: CMatrix, x: seq<real>, p: nat)
    requires IsBlocked(n, j, a) && |x| == 2 * n && p < n
    ensures Complex(Apply(2 * n, j, AsVector(x))(2 * p), Apply(2 * n, j, AsVector(x))(2 * p + 1))
         == CApply(n, a, AsCVector(FromBlocks(x)))(p)
  {
    var even, odd, xs, row, xc := Row(j, 2 * p), Row(j, 2 * p + 1), AsVector(x), CRow(a, p), AsCVector(FromBlocks(x));
    forall q | 0 <= q < n
      ensures HoldsTerm(even, odd, xs, row, xc, q)
    {
      assert IsBlock(j, a(p, q), p, q);
    }
    BlockedRow(n, even, odd, xs, row, xc);
  }

  function BlockedResidual(n: nat, j: Matrix, x: seq<real>, r: seq<real>, i: int): real {
    Apply(2 * n, j, AsVector(x))(i) + At(r, i)
  }

  function ComplexResidual(n: nat, a: CMatrix, x: seq<Complex>, r: seq<Complex>, p: int): Complex {
    CApply(n, a, AsCVector(x))(p).Plus(CAt(r, p))
  }

  lemma ResidualsMatch(n: nat, j: Matrix, a: CMatrix, x: seq<real>, r: seq<real>, p: nat)
    requires IsBlocked(n, j, a) && |x| == |r| == 2 * n && p < n
    ensures ComplexResidual(n, a, FromBlocks(x), FromBlocks(r), p)
         == Complex(BlockedResidual(n, j, x, r, 2 * p), BlockedResidual(n, j, x, r, 2 * p + 1))
  {
    BlockedProductIsComplexProduct(n, j, a, x, p);
  }

  /** The blocked Newton system J x + r = 0 and the complex one have the same solutions. */
  lemma BlockedSystemIsComplexSystem(n: nat, j: Matrix, a: CMatrix, x: seq<real>, r: seq<real>)
    requires IsBlocked(n, j, a) && |x| == |r| == 2 * n
    ensures (forall i | 0 <= i < 2 * n :: BlockedResidual(n, j, x, r, i) == 0.0)
       <==> (forall p | 0 <= p < n :: ComplexResidual(n, a, FromBlocks(x), FromBlocks(r), p) == Zero)
  {
    forall p: nat | p < n {
      ResidualsMatch(n, j, a, x, r, p);
    }
    hide BlockedResidual, ComplexResidual;
    if forall p | 0 <= p < n :: ComplexResidual(n, a, FromBlocks(x), FromBlocks(r), p) == Zero {
      forall i | 0 <= i < 2 * n
        ensures BlockedResidual(n, j, x, r, i) == 0.0
      {
        assert ComplexResidual(n, a, FromBlocks(x), FromBlocks(r), i / 2) == Zero;
        assert i == 2 * (i / 2) || i == 2 * (i / 2) + 1;
      }
    }
  }

  lemma {:induction false} BlockedNorm(m: nat, x: Vector, re: Vector, im: Vector)
    requires forall d | 0 <= d < m :: x(2 * d) == re(d) && x(2 * d + 1) == im(d)
    ensures Dot(2 * m, x, x) == Dot(m, re, re) + Dot(m, im, im)
  {
    if m > 0 {
      BlockedNorm(m - 1, x, re, im);
      TwoTerms(2 * (m - 1), x, x);
      assert 2 * m == 2 * (m - 1) + 2;
    }
  }

  function Reals(r: seq<Complex>): (s: seq<real>)
    ensures |s| == |r|
  {
    seq(|r|, d requires 0 <= d < |r| => r[d].re)
  }

  function Imaginaries(r: seq<Complex>): (s: seq<real>)
    ensures |s| == |r|
  {
    seq(|r|, d requires 0 <= d < |r| => r[d].im)
  }

  /** The sum of the squared moduli. */
  function SquaredNorm(r: seq<Complex>): real {
    Pairing(Reals(r), Reals(r)) + Pairing(Imaginaries(r), Imaginaries(r))
  }

  lemma {:induction false} DotSelfNonNegative(n: nat, u: Vector)
    ensures Dot(n, u, u) >= 0.0
  {
    if n > 0 {
      DotSelfNonNegative(n - 1, u);
      assert Sq(u(n - 1)) == u(n - 1) * u(n - 1);
    }
  }

  /** Adding complex entries adds their real and their imaginary parts. */
  lemma {:induction false} PartsAdd(v: seq<Complex>, dofs: seq<nat>, vec: seq<Complex>)
    requires |dofs| == |vec| && Within(|v|, dofs)
    ensures Reals(CAddEntries(v, dofs, vec)) == AddEntries(Reals(v), dofs, Reals(vec))
    ensures Imaginaries(CAddEntries(v, dofs, vec)) == AddEntries(Imaginaries(v), dofs, Imaginaries(vec))
  {
    if dofs != [] {
      var k := |dofs| - 1;
      PartsAdd(v, dofs[..k], vec[..k]);
      assert Reals(vec)[..k] == Reals(vec[..k]) && Imaginaries(vec)[..k] == Imaginaries(vec[..k]);
    }
  }

  // ---------------------------------------------------------------------------------------------
  // The element loops
  // ---------------------------------------------------------------------------------------------

  function OnComplex<T>(f: (Element, seq<real>, seq<Complex>) -> T, base: seq<real>, x: seq<Complex>): Element -> T {
    (e: Element) => f(e, Gather(e.dofs, base), CGather(e.dofs, x))
  }

  lemma {:induction false} AssembledCongruent(n: nat, mesh: seq<Element>, f: Element -> seq<Complex>,
                                              g: Element -> seq<Complex>)
    requires CFits(n, mesh, f) && forall e <- mesh :: g(e) == f(e)
    ensures CFits(n, mesh, g) && CAssembled(n, mesh, g) == CAssembled(n, mesh, f)
  {
    hide CAddEntries;
    if mesh != [] {
      AssembledCongruent(n, mesh[..|mesh| - 1], f, g);
      assert mesh[|mesh| - 1] in mesh;
    }
  }

  /** Every element is evaluated on the base solution and the disturbance at its own dofs. */
  lemma AssembledOverEntries(n: nat, mesh: seq<Element>, f: (Element, seq<real>, seq<Complex>) -> seq<Complex>,
                             base: seq<real>, x: seq<Complex>, g: Element -> seq<Complex>)
    requires |base| == |x| == n && CFits(n, mesh, g)
    requires forall e <- mesh ::
               g(e) == f(e, seq(|e.dofs|, k requires 0 <= k < |e.dofs| => if e.dofs[k] < n then base[e.dofs[k]]
                                else 0.0),
                         seq(|e.dofs|, k requires 0 <= k < |e.dofs| => if e.dofs[k] < n then x[e.dofs[k]] else Zero))
    ensures CFits(n, mesh, OnComplex(f, base, x))
    ensures CAssembled(n, mesh, OnComplex(f, base, x)) == CAssembled(n, mesh, g)
  {
    hide CAssembled;
    forall e <- mesh
      ensures OnComplex(f, base, x)(e) == g(e)
    {
      assert Gather(e.dofs, base)
          == seq(|e.dofs|, k requires 0 <= k < |e.dofs| => if e.dofs[k] < n then base[e.dofs[k]] else 0.0);
      assert CGather(e.dofs, x)
          == seq(|e.dofs|, k requires 0 <= k < |e.dofs| => if e.dofs[k] < n then x[e.dofs[k]] else Zero);
    }
    AssembledCongruent(n, mesh, g, OnComplex(f, base, x));
  }

  /** Where the element residuals are affine in the disturbance and the element Jacobians are their slopes, on the base
      solution at the dofs of the element, the assembled Jacobian is the slope of the assembled residual. */
  lemma JacobianIsDerivative(n: nat, mesh: seq<Element>, ops: ComplexOperations, base: seq<real>, x: seq<Complex>,
                             h: seq<Complex>, p: nat)
    requires |x| == |h| == n && p < n
    requires forall e <- mesh ::
               var s, d := Gather(e.dofs, base), CGather(e.dofs, x);
               && Within(n, e.dofs) && |ops.residual(e, s, d)| == |e.dofs|
               && ops.residual(e, s, CGather(e.dofs, SumOf(x, h)))
                  == SumOf(ops.residual(e, s, d), ElementProduct(ops.jacobian(e, s, d), e.dofs, h))
    ensures CFits(n, mesh, OnComplex(ops.residual, base, x))
            && CFits(n, mesh, OnComplex(ops.residual, base, SumOf(x, h)))
    ensures CAssembled(n, mesh, OnComplex(ops.residual, base, SumOf(x, h)))[p]
         == CAssembled(n, mesh, OnComplex(ops.residual, base, x))[p]
            .Plus(CApply(n, MatrixAssembled(mesh, OnComplex(ops.jacobian, base, x)), AsCVector(h))(p))
  {
    hide CAssembled, MatrixAssembled, CApply, Gather, CGather, CDot;
    var m := OnComplex(ops.jacobian, base, x);
    var slope := (e: Element) => ElementProduct(m(e), e.dofs, h);
    AssembledAdds(n, mesh, OnComplex(ops.residual, base, x), slope, OnComplex(ops.residual, base, SumOf(x, h)));
    AssembledJacobianActsByElements(n, mesh, m, h, slope);
  }

  ghost predicate Holds(r: array<real>, rc: seq<Complex>)
    reads r
  {
    && r.Length == 2 * |rc|
    && forall d | 0 <= d < |rc| :: r[2 * d] == rc[d].re && r[2 * d + 1] == rc[d].im
  }

  predicate HoldsBlock(j: array2<real>, v: Complex, p: nat, q: nat)
    requires 2 * p + 1 < j.Length0 && 2 * q + 1 < j.Length1
    reads j
  {
    && j[2 * p, 2 * q] == v.re && j[2 * p, 2 * q + 1] == -v.im
    && j[2 * p + 1, 2 * q] == v.im && j[2 * p + 1, 2 * q + 1] == v.re
  }

  ghost predicate HoldsMatrix(n: nat, j: array2<real>, a: CMatrix)
    reads j
  {
    && j.Length0 == j.Length1 == 2 * n
    && forall p: nat, q: nat | p < n && q < n :: HoldsBlock(j, a(p, q), p, q)
  }

  method AddToBlock(n: nat, j: array2<real>, p: nat, q: nat, v: Complex, ghost a: CMatrix, ghost a': CMatrix)
    requires HoldsMatrix(n, j, a) && p < n && q < n
    requires forall k: nat, l: nat | k < n && l < n :: a'(k, l) == if k == p && l == q then a(k, l).Plus(v) else a(k, l)
    modifies j
    ensures HoldsMatrix(n, j, a')
  {
    assert HoldsBlock(j, a(p, q), p, q);
    var vals := [v.re, -v.im, v.im, v.re];
    j[2 * p, 2 * q] := j[2 * p, 2 * q] + vals[0];
    j[2 * p, 2 * q + 1] := j[2 * p, 2 * q + 1] + vals[1];
    j[2 * p + 1, 2 * q] := j[2 * p + 1, 2 * q] + vals[2];
    j[2 * p + 1, 2 * q + 1] := j[2 * p + 1, 2 * q + 1] + vals[3];
    forall k: nat, l: nat | k < n && l < n
      ensures HoldsBlock(j, a'(k, l), k, l)
    {
      assert old(HoldsBlock(j, a(k, l), k, l));
    }
  }

  method AddBlockRow(n: nat, j: array2<real>, d: nat, dofs: seq<nat>, i: nat, mat: CMatrix, ghost a: CMatrix)
    requires HoldsMatrix(n, j, a) && d < n && Within(n, dofs)
    modifies j
    ensures HoldsMatrix(n, j, AddRow(a, d, dofs, CRow(mat, i)))
  {
    hide HoldsMatrix;
    for k := 0 to |dofs|
      invariant HoldsMatrix(n, j, AddRow(a, d, dofs[..k], CRow(mat, i)))
    {
      assert dofs[..k + 1][..k] == dofs[..k];
      AddToBlock(n, j, d, dofs[k], mat(i, k), AddRow(a, d, dofs[..k], CRow(mat, i)),
                 AddRow(a, d, dofs[..k + 1], CRow(mat, i)));
    }
    assert dofs[..|dofs|] == dofs;
  }

  method AddToVector(r: array<real>, d: nat, v: Complex, ghost rc: seq<Complex>)
    requires Holds(r, rc) && d < |rc|
    modifies r
    ensures Holds(r, rc[d := rc[d].Plus(v)])
  {
    r[2 * d] := r[2 * d] + v.re;
    r[2 * d + 1] := r[2 * d + 1] + v.im;
  }

  lemma EmptyPrefix(rc: seq<Complex>, dofs: seq<nat>, vec: seq<Complex>, a: CMatrix, mat: CMatrix)
    requires |vec| == |dofs| && Within(|rc|, dofs)
    ensures CAddEntries(rc, dofs[..0], vec[..0]) == rc && AddMatrix(a, dofs[..0], dofs, mat) == a
  {
  }

  lemma NextPrefix(rc: seq<Complex>, dofs: seq<nat>, vec: seq<Complex>, a: CMatrix, mat: CMatrix, i: nat)
    requires |vec| == |dofs| && Within(|rc|, dofs) && i < |dofs|
    ensures CAddEntries(rc, dofs[..i + 1], vec[..i + 1])
         == CAddEntries(rc, dofs[..i], vec[..i])[dofs[i] := CAddEntries(rc, dofs[..i], vec[..i])[dofs[i]].Plus(vec[i])]
    ensures AddMatrix(a, dofs[..i + 1], dofs, mat) == AddRow(AddMatrix(a, dofs[..i], dofs, mat), dofs[i], dofs,
                                                             CRow(mat, i))
  {
    assert dofs[..i + 1][..i] == dofs[..i] && vec[..i + 1][..i] == vec[..i];
    hide AddRow, Complex.Plus;
  }

  method AddElement(n: nat, dofs: seq<nat>, vec: seq<Complex>, mat: CMatrix, r: array<real>, j: array2<real>,
                    ghost rc: seq<Complex>, ghost a: CMatrix)
    requires |vec| == |dofs| && Within(n, dofs) && |rc| == n && Holds(r, rc) && HoldsMatrix(n, j, a)
    modifies r, j
    ensures Holds(r, CAddEntries(rc, dofs, vec))
    ensures HoldsMatrix(n, j, AddMatrix(a, dofs, dofs, mat))
  {
    hide HoldsMatrix, Holds, AddMatrix, CAddEntries, AddRow, CRow, Complex.Plus;
    EmptyPrefix(rc, dofs, vec, a, mat);
    for i := 0 to |dofs|
      invariant Holds(r, CAddEntries(rc, dofs[..i], vec[..i]))
      invariant HoldsMatrix(n, j, AddMatrix(a, dofs[..i], dofs, mat))
    {
      NextPrefix(rc, dofs, vec, a, mat, i);
      AddToVector(r, dofs[i], vec[i], CAddEntries(rc, dofs[..i], vec[..i]));
      AddBlockRow(n, j, dofs[i], dofs, i, mat, AddMatrix(a, dofs[..i], dofs, mat));
    }
    assert dofs[..|dofs|] == dofs && vec[..|vec|] == vec;
  }

  method ZeroBlocks(n: nat, r: array<real>, j: array2<real>)
    requires r.Length == 2 * n && j.Length0 == 2 * n && j.Length1 == 2 * n
    modifies r, j
    ensures Holds(r, CZeros(n)) && HoldsMatrix(n, j, ZeroMatrix())
  {
    forall i | 0 <= i < r.Length {
      r[i] := 0.0;
    }
    forall p, q | 0 <= p < j.Length0 && 0 <= q < j.Length1 {
      j[p, q] := 0.0;
    }
  }

  method GatherComplex(dofs: seq<nat>, x: array<real>) returns (sol: seq<Complex>)
    requires x.Length % 2 == 0 && Within(x.Length / 2, dofs)
    ensures sol == CGather(dofs, FromBlocks(x[..]))
  {
    sol := [];
    for i := 0 to |dofs|
      invariant sol == CGather(dofs[..i], FromBlocks(x[..]))
    {
      sol := sol + [Complex(x[2 * dofs[i]], x[2 * dofs[i] + 1])];
    }
    assert dofs[..|dofs|] == dofs;
  }

  /** The base solution on the element, or zeros. */
  method GatherBase(n: nat, dofs: seq<nat>, base: array?<real>) returns (sol: seq<real>)
    requires Within(n, dofs) && (base != null ==> base.Length == n)
    ensures sol == Gather(dofs, if base == null then Zeros(n) else base[..])
  {
    sol := Zeros(|dofs|);
    if base != null {
      sol := GatherInto(dofs, base);
    }
  }

  /** Assembles the blocked residual, or its sensitivity, and the blocked Jacobian. */
  method ResidualAndJacobianBlocked(n: nat, mesh: seq<Element>, ops: ComplexOperations, base: array?<real>,
                                    x: array<real>, r: array<real>, j: array2<real>, sensitivity: bool)
    requires x.Length == 2 * n && r.Length == 2 * n && j.Length0 == 2 * n && j.Length1 == 2 * n
    requires r != x && r != base && (base != null ==> base.Length == n)
    requires var b := if base == null then Zeros(n) else base[..];
      && CFits(n, mesh, OnComplex(ops.residual, b, FromBlocks(x[..])))
      && CFits(n, mesh, OnComplex(ops.residualSensitivity, b, FromBlocks(x[..])))
    modifies r, j
    ensures var b := if base == null then Zeros(n) else base[..];
      && Holds(r, CAssembled(n, mesh, OnComplex(if sensitivity then ops.residualSensitivity
                                                else ops.residual, b, FromBlocks(x[..]))))
      && HoldsMatrix(n, j, MatrixAssembled(mesh, OnComplex(ops.jacobian, b, FromBlocks(x[..]))))
  {
    hide Holds, HoldsMatrix, FromBlocks, AddMatrix, CAddEntries;
    ghost var b := if base == null then Zeros(n) else base[..];
    ghost var xc := FromBlocks(x[..]);
    ghost var f := OnComplex(if sensitivity then ops.residualSensitivity else ops.residual, b, xc);
    ghost var m := OnComplex(ops.jacobian, b, xc);
    ZeroBlocks(n, r, j);
    for k := 0 to |mesh|
      invariant Holds(r, CAssembled(n, mesh[..k], f))
      invariant HoldsMatrix(n, j, MatrixAssembled(mesh[..k], m))
    {
      var e := mesh[k];
      assert mesh[..k + 1][..k] == mesh[..k] && e in mesh;
      var sol := GatherBase(n, e.dofs, base);
      var delta := GatherComplex(e.dofs, x);
      var vec, mat := ops.residual(e, sol, delta), ops.jacobian(e, sol, delta);
      if sensitivity {
        vec := ops.residualSensitivity(e, sol, delta);
      }
      AddElement(n, e.dofs, vec, mat, r, j, CAssembled(n, mesh[..k], f), MatrixAssembled(mesh[..k], m));
    }
    assert mesh[..|mesh|] == mesh;
  }

  method GatherParts(dofs: seq<nat>, re: array<real>, im: array<real>) returns (sol: seq<Complex>)
    requires re.Length == im.Length && Within(re.Length, dofs)
    ensures sol == CGather(dofs, FromParts(re[..], im[..]))
  {
    sol := [];
    for i := 0 to |dofs|
      invariant sol == CGather(dofs[..i], FromParts(re[..], im[..]))
    {
      sol := sol + [Complex(re[dofs[i]], im[dofs[i]])];
    }
    assert dofs[..|dofs|] == dofs;
  }

  lemma NothingAssembled(n: nat, mesh: seq<Element>, f: Element -> seq<Complex>)
    requires CFits(n, mesh, f)
    ensures Reals(CAssembled(n, mesh[..0], f)) == Imaginaries(CAssembled(n, mesh[..0], f)) == Zeros(n)
  {
  }

  lemma OneMoreAssembled(n: nat, mesh: seq<Element>, f: Element -> seq<Complex>, k: nat)
    requires CFits(n, mesh, f) && k < |mesh|
    ensures mesh[k] in mesh
    ensures CAssembled(n, mesh[..k + 1], f) == CAddEntries(CAssembled(n, mesh[..k], f), mesh[k].dofs, f(mesh[k]))
  {
    assert mesh[..k + 1][..k] == mesh[..k];
    hide CAddEntries;
  }

  lemma SquaredNormIsSum(r: seq<Complex>)
    ensures SquaredNorm(r) == Pairing(Reals(r), Reals(r)) + Pairing(Imaginaries(r), Imaginaries(r))
  {
  }

  /** The norm of the complex residual, from its real and its imaginary part. */
  method ResidualL2Norm(n: nat, mesh: seq<Element>, ops: ComplexOperations, base: array?<real>, re: array<real>,
                        im: array<real>, sqrt: real -> real) returns (norm: real)
    requires re.Length == n && im.Length == n && (base != null ==> base.Length == n) && ExactSqrt(sqrt)
    requires CFits(n, mesh, OnComplex(ops.residual, if base == null then Zeros(n)
                                      else base[..], FromParts(re[..], im[..])))
    ensures norm >= 0.0
    ensures norm * norm == SquaredNorm(CAssembled(n, mesh,
              OnComplex(ops.residual, if base == null then Zeros(n) else base[..], FromParts(re[..], im[..]))))
  {
    hide CAddEntries, AddEntries, Pairing, FromParts, Reals, Imaginaries, CAssembled, SquaredNorm;
    ghost var f := OnComplex(ops.residual, if base == null then Zeros(n) else base[..], FromParts(re[..], im[..]));
    var residualRe, residualIm := new real[n], new real[n];
    SetZero(residualRe);
    SetZero(residualIm);
    NothingAssembled(n, mesh, f);
    for k := 0 to |mesh|
      invariant residualRe[..] == Reals(CAssembled(n, mesh[..k], f))
      invariant residualIm[..] == Imaginaries(CAssembled(n, mesh[..k], f))
      modifies residualRe, residualIm
    {
      var e := mesh[k];
      assert e in mesh;
      OneMoreAssembled(n, mesh, f, k);
      var sol := GatherBase(n, e.dofs, base);
      var delta := GatherParts(e.dofs, re, im);
      var vec := ops.residual(e, sol, delta);
      PartsAdd(CAssembled(n, mesh[..k], f), e.dofs, vec);
      AddVector(residualRe, e.dofs, Reals(vec));
      AddVector(residualIm, e.dofs, Imaginaries(vec));
    }
    assert mesh[..|mesh|] == mesh;
    var l2Real := L2Norm(residualRe, sqrt);
    var l2Imag := L2Norm(residualIm, sqrt);
    norm := SqrtOfSum(l2Real, l2Imag, sqrt);
    SquaredNormIsSum(CAssembled(n, mesh, f));
  }

  method L2Norm(v: array<real>, sqrt: real -> real) returns (norm: real)
    requires ExactSqrt(sqrt)
    ensures norm >= 0.0 && norm * norm == Pairing(v[..], v[..])
  {
    DotSelfNonNegative(v.Length, AsVector(v[..]));
    norm := sqrt(Pairing(v[..], v[..]));
  }

  method SqrtOfSum(a: real, b: real, sqrt: real -> real) returns (r: real)
    requires ExactSqrt(sqrt)
    ensures r >= 0.0 && r * r == a * a + b * b
  {
    assert Sq(a) == a * a && Sq(b) == b * b;
    r := sqrt(a * a + b * b);
  }

  /** The norm of the blocked residual is the norm that ResidualL2Norm returns for the same complex residual. */
  lemma BlockedNormIsComplexNorm(r: array<real>, rc: seq<Complex>)
    requires Holds(r, rc)
    ensures Pairing(r[..], r[..]) == SquaredNorm(rc)
  {
    BlockedNorm(|rc|, AsVector(r[..]), AsVector(Reals(rc)), AsVector(Imaginaries(rc)));
  }

  /** The end-to-end reading: the assembled real Jacobian times an interleaved vector interleaves the assembly of the
      element Jacobians times the gathered complex vector. */
  lemma BlockedJacobianActsByElements(n: nat, mesh: seq<Element>, m: Element -> CMatrix, j: array2<real>, a: Matrix,
                                      x: seq<real>, f: Element -> seq<Complex>, p: nat)
    requires HoldsMatrix(n, j, MatrixAssembled(mesh, m))
    requires forall k, l | 0 <= k < 2 * n && 0 <= l < 2 * n :: a(k, l) == j[k, l]
    requires |x| == 2 * n && p < n && CFits(n, mesh, f)
    requires forall e <- mesh :: f(e) == ElementProduct(m(e), e.dofs, FromBlocks(x))
    ensures Complex(Apply(2 * n, a, AsVector(x))(2 * p), Apply(2 * n, a, AsVector(x))(2 * p + 1))
            == CAssembled(n, mesh, f)[p]
  {
    var jc := MatrixAssembled(mesh, m);
    HeldIsBlocked(n, j, a, jc);
    BlockedProductIsComplexProduct(n, a, jc, x, p);
    AssembledJacobianActsByElements(n, mesh, m, FromBlocks(x), f);
  }

  lemma HeldIsBlocked(n: nat, j: array2<real>, a: Matrix, jc: CMatrix)
    requires HoldsMatrix(n, j, jc)
    requires forall k, l | 0 <= k < 2 * n && 0 <= l < 2 * n :: a(k, l) == j[k, l]
    ensures IsBlocked(n, a, jc)
  {
    forall p: nat, q: nat | p < n && q < n
      ensures IsBlock(a, jc(p, q), p, q)
    {
      assert HoldsBlock(j, jc(p, q), p, q);
    }
  }
}
