/** Flutter roots and the eigensolutions that hold them, for the time-domain and the U-g solver. */
module FlutterRoots {
  import opened Scalars
  import opened ComplexAlgebra
  import opened ModeTracking
  import FirstOrderPencil

  datatype FlutterRoot = FlutterRoot(kr: real, g: real, V: real, omega: real, root: Complex, nonphysical: bool,
                                     evecRight: seq<Complex>, evecLeft: seq<Complex>)

  /** One generalised eigenvalue alpha / beta with its eigenvectors, as the LAPACK interface returns it. */
  datatype EigenTriple = EigenTriple(alpha: Complex, beta: Complex, right: seq<Complex>, left: seq<Complex>)

  /** An eigensolution: the B matrix (size rows) and one triple per row. */
  datatype EigenSolution = EigenSolution(size: nat, B: CMatrix, triples: seq<EigenTriple>)

  /** A root of the time-domain solver. An infinite eigenvalue (beta = 0) leaves the default zeros. */
  function TimeDomainRoot(vRef: real, t: EigenTriple): FlutterRoot {
    if t.beta == Zero then FlutterRoot(0.0, 0.0, 0.0, 0.0, Zero, false, t.right, t.left)
    else
      var root := t.alpha.Over(t.beta);
      FlutterRoot(0.0, 0.0, vRef, root.im, root, false, t.right, t.left)
  }

  /** A root of the U-g solver: lambda = (1 + i g) / V^2. A non-positive real part is not physical. */
  function UGRoot(sqrt: real -> real, krRef: real, bRef: real, t: EigenTriple): FlutterRoot
    requires bRef != 0.0
  {
    if t.beta == Zero then FlutterRoot(krRef, 0.0, 0.0, 0.0, Zero, false, t.right, t.left)
    else
      var root := t.alpha.Over(t.beta);
      if root.re > 0.0 then
        var V := sqrt(1.0 / root.re);
        FlutterRoot(krRef, root.im / root.re, V, krRef * V / bRef, root, false, t.right, t.left)
      else FlutterRoot(krRef, 0.0, 0.0, 0.0, root, true, t.right, t.left)
  }

  /** What the U-g definitions mean: a physical root has lambda V^2 = 1 + i g with V > 0, and omega b = kr V. A finite
      root is physical exactly when its real part is positive. */
  lemma UGRootDefinition(sqrt: real -> real, krRef: real, bRef: real, t: EigenTriple)
    requires ExactSqrt(sqrt) && bRef != 0.0 && t.beta != Zero
    ensures var r := UGRoot(sqrt, krRef, bRef, t);
            && r.kr == krRef
            && r.root.Times(t.beta) == t.alpha
            && (!r.nonphysical <==> r.root.re > 0.0)
            && (!r.nonphysical ==>
                  && r.V > 0.0
                  && r.root.Scaled(r.V * r.V) == Complex(1.0, r.g)
                  && r.omega * bRef == krRef * r.V)
  {
    hide Complex.Over, Complex.Times, ExactSqrt;
    var root := t.alpha.Over(t.beta);
    OverUnique(t.alpha, t.beta, root);
    if root.re > 0.0 {
      UGFields(sqrt, root.re, root.im, sqrt(1.0 / root.re), krRef, bRef);
    }
  }

  lemma UGFields(sqrt: real -> real, re: real, im: real, V: real, kr: real, b: real)
    requires ExactSqrt(sqrt) && re > 0.0 && b != 0.0 && V == sqrt(1.0 / re)
    ensures V > 0.0 && V * V * re == 1.0 && V * V * im == im / re && kr * V / b * b == kr * V
  {
    var q := 1.0 / re;
    assert q * re == 1.0 && V * V == q;
    QuotientAsProduct(im, re, q);
    SquareTimes(V, q, re);
    SquareTimes(V, q, im);
  }

  lemma QuotientAsProduct(x: real, y: real, q: real)
    requires y != 0.0 && q * y == 1.0
    ensures x / y == q * x
  {
  }

  lemma SquareTimes(V: real, q: real, x: real)
    requires V * V == q
    ensures V * V * x == q * x
  {
  }

  function TimeDomainRoots(vRef: real, s: EigenSolution): (r: seq<FlutterRoot>)
    ensures |r| == |s.triples|
  {
    seq(|s.triples|, i requires 0 <= i < |s.triples| => TimeDomainRoot(vRef, s.triples[i]))
  }

  // ---------------------------------------------------------------------------------------------
  // Match scores
  // ---------------------------------------------------------------------------------------------

  /** A ratio of squared moduli as a score. */
  function QuotientOf(p: real, d: real): (s: Score)
    requires p >= 0.0 && d >= 0.0
    ensures s.Finite? ==> s.value >= 0.0
  {
    if d > 0.0 then
      RatioNonNegative(p, d);
      Finite(p / d)
    else if p > 0.0 then Infinite
    else Undefined
  }

  /** A match product divided by the distance of the eigenvalues, as a squared score. */
  function Quotient(product: Complex, distance: Complex): (s: Score)
    ensures s.Finite? ==> s.value >= 0.0
  {
    QuotientOf(product.NormSq(), distance.NormSq())
  }

  lemma RatioNonNegative(a: real, b: real)
    requires a >= 0.0 && b > 0.0
    ensures a / b >= 0.0
  {
  }

  function LeftProduct(size: nat, B: CMatrix, l: FlutterRoot, r: FlutterRoot): Complex {
    Inner(size, AsCVector(l.evecLeft), CApply(size, B, AsCVector(r.evecRight)))
  }

  /** The two-sided score of the time-domain solver. */
  function SymmetricScore(size: nat, B: CMatrix): Scoring<FlutterRoot> {
    (prev: FlutterRoot, cur: FlutterRoot) =>
      Quotient(LeftProduct(size, B, prev, cur).Plus(LeftProduct(size, B, cur, prev)).Scaled(0.5),
               prev.root.Minus(cur.root))
  }

  /** The one-sided score of the U-g solver. */
  function OneSidedScore(size: nat, B: CMatrix): Scoring<FlutterRoot> {
    (prev: FlutterRoot, cur: FlutterRoot) => Quotient(LeftProduct(size, B, prev, cur), prev.root.Minus(cur.root))
  }

  lemma ScoresNonNegative(size: nat, B: CMatrix)
    ensures NonNegative(SymmetricScore(size, B)) && NonNegative(OneSidedScore(size, B))
  {
  }

  /** The left eigenvector of one root times B times the right eigenvector of another. */
  ghost function BProduct(size: nat, B: CMatrix, left: seq<Complex>, right: seq<Complex>): Complex {
    Inner(size, AsCVector(left), CApply(size, B, AsCVector(right)))
  }

  /** Which of two quotients is the larger, without the division: a zero distance is never exceeded. */
  lemma QuotientExceeds(p: Complex, d: Complex, p': Complex, d': Complex)
    ensures Exceeds(Quotient(p, d), Quotient(p', d'))
       <==> d'.NormSq() > 0.0 && p.NormSq() * d'.NormSq() > p'.NormSq() * d.NormSq()
  {
    NormIsZero(p);
    NormIsZero(d);
    NormIsZero(p');
    NormIsZero(d');
    hide Complex.NormSq, QuotientOf;
    QuotientOfExceeds(p.NormSq(), d.NormSq(), p'.NormSq(), d'.NormSq());
  }

  lemma QuotientOfExceeds(a: real, x: real, b: real, y: real)
    requires a >= 0.0 && x >= 0.0 && b >= 0.0 && y >= 0.0
    ensures Exceeds(QuotientOf(a, x), QuotientOf(b, y)) <==> y > 0.0 && a * y > b * x
  {
    if y > 0.0 {
      if x > 0.0 {
        CrossMultiply(a, x, b, y);
      } else {
        SignOfProduct(a, y);
        assert Mul(a, y) == a * y;
      }
    }
    hide Mul;
  }

  lemma CrossMultiply(a: real, x: real, b: real, y: real)
    requires x > 0.0 && y > 0.0
    ensures a / x > b / y <==> a * y > b * x
  {
    var q, r := a / x, b / y;
    assert a == q * x && b == r * y;
    assert a * y - b * x == Mul(q - r, Mul(x, y));
    assert Mul(x, y) > 0.0;
    hide Mul;
    SignOfProduct(q - r, Mul(x, y));
  }

  lemma SignOfProduct(d: real, z: real)
    requires z > 0.0
    ensures Mul(d, z) > 0.0 <==> d > 0.0
  {
  }

  lemma ScaledNorm(p: Complex)
    ensures p.Scaled(0.5).NormSq() == 0.25 * p.NormSq()
  {
  }

  /** Whether a beats b, from the products p, q with the previous root and the distances d, e from it: b must be away
      from it, and p^2 e^2 > q^2 d^2. */
  ghost predicate Beats(p: Complex, d: Complex, q: Complex, e: Complex) {
    e.NormSq() > 0.0 && p.NormSq() * e.NormSq() > q.NormSq() * d.NormSq()
  }

  /** The two-sided score prefers a to b exactly for a larger quotient of product and distance: of two roots with equal
      products the one with the nearer eigenvalue, of two at equal distance the one with the larger product. */
  lemma SymmetricScorePrefers(size: nat, B: CMatrix, prev: FlutterRoot, a: FlutterRoot, b: FlutterRoot)
    ensures var p := BProduct(size, B, prev.evecLeft, a.evecRight).Plus(BProduct(size, B, a.evecLeft, prev.evecRight));
            var q := BProduct(size, B, prev.evecLeft, b.evecRight).Plus(BProduct(size, B, b.evecLeft, prev.evecRight));
            var d, e := prev.root.Minus(a.root), prev.root.Minus(b.root);
            var better := Exceeds(SymmetricScore(size, B)(prev, a), SymmetricScore(size, B)(prev, b));
            && (better <==> Beats(p, d, q, e))
            && (p == q != Zero && d.NormSq() < e.NormSq() ==> better)
            && (d.NormSq() == e.NormSq() > 0.0 && p.NormSq() > q.NormSq() ==> better)
  {
    hide Inner, CApply, Complex.Plus, Complex.Scaled, Complex.Minus, Quotient, Exceeds;
    var p := LeftProduct(size, B, prev, a).Plus(LeftProduct(size, B, a, prev));
    var q := LeftProduct(size, B, prev, b).Plus(LeftProduct(size, B, b, prev));
    var d, e := prev.root.Minus(a.root), prev.root.Minus(b.root);
    QuotientExceeds(p.Scaled(0.5), d, q.Scaled(0.5), e);
    ScaledNorm(p);
    ScaledNorm(q);
    NearerOrLarger(p, d, q, e);
    hide Complex.NormSq;
  }

  /** So does the one-sided score with its one product. */
  lemma OneSidedScorePrefers(size: nat, B: CMatrix, prev: FlutterRoot, a: FlutterRoot, b: FlutterRoot)
    ensures var p, q := BProduct(size, B, prev.evecLeft, a.evecRight), BProduct(size, B, prev.evecLeft, b.evecRight);
            var d, e := prev.root.Minus(a.root), prev.root.Minus(b.root);
            var better := Exceeds(OneSidedScore(size, B)(prev, a), OneSidedScore(size, B)(prev, b));
            && (better <==> Beats(p, d, q, e))
            && (p == q != Zero && d.NormSq() < e.NormSq() ==> better)
            && (d.NormSq() == e.NormSq() > 0.0 && p.NormSq() > q.NormSq() ==> better)
  {
    hide Inner, CApply, Complex.Minus, Quotient, Exceeds;
    var p, q := LeftProduct(size, B, prev, a), LeftProduct(size, B, prev, b);
    var d, e := prev.root.Minus(a.root), prev.root.Minus(b.root);
    QuotientExceeds(p, d, q, e);
    NearerOrLarger(p, d, q, e);
    hide Complex.NormSq;
  }

  lemma NearerOrLarger(p: Complex, d: Complex, q: Complex, e: Complex)
    ensures p == q != Zero && d.NormSq() < e.NormSq() ==> Beats(p, d, q, e)
    ensures d.NormSq() == e.NormSq() > 0.0 && p.NormSq() > q.NormSq() ==> Beats(p, d, q, e)
  {
    NormIsZero(p);
    NormIsZero(d);
    hide Complex.NormSq;
    var a, x, b, y := p.NormSq(), d.NormSq(), q.NormSq(), e.NormSq();
    assert a * y - b * x == Mul(a, y - x) + Mul(a - b, x);
  }

  lemma NormIsZero(z: Complex)
    ensures z.NormSq() >= 0.0 && (z.NormSq() == 0.0 <==> z == Zero)
  {
    assert Sq(z.re) + Sq(z.im) == z.NormSq();
  }

  // ---------------------------------------------------------------------------------------------
  // Critical roots
  // ---------------------------------------------------------------------------------------------

  predicate InUpperHalf(r: FlutterRoot) {
    r.root.im >= 0.0
  }

  predicate IsUnstable(tol: real, r: FlutterRoot) {
    InUpperHalf(r) && r.root.re >= tol
  }

  function CountUnstable(tol: real, roots: seq<FlutterRoot>, n: nat): nat
    requires n <= |roots|
  {
    if n == 0 then 0
    else CountUnstable(tol, roots, n - 1) + if IsUnstable(tol, roots[n - 1]) then 1 else 0
  }

  /** The last root of largest real part in the upper half plane, among the first n. */
  function LargestReal(roots: seq<FlutterRoot>, n: nat): (best: int)
    requires n <= |roots|
    ensures -1 <= best < n
  {
    if n == 0 then -1
    else
      var best := LargestReal(roots, n - 1);
      if InUpperHalf(roots[n - 1]) && (best < 0 || roots[n - 1].root.re >= roots[best].root.re) then n - 1 else best
  }

  /** The last root of lowest velocity among the unstable ones with positive velocity. */
  function LowestUnstable(tol: real, roots: seq<FlutterRoot>, n: nat): (best: int)
    requires n <= |roots|
    ensures -1 <= best < n
  {
    if n == 0 then -1
    else
      var best := LowestUnstable(tol, roots, n - 1);
      var r := roots[n - 1];
      if IsUnstable(tol, r) && r.V > 0.0 && (best < 0 || r.V <= roots[best].V) then n - 1 else best
  }

  /** The position of the critical root, or -1. */
  function CriticalIndex(tol: real, roots: seq<FlutterRoot>): (c: int)
    ensures -1 <= c < |roots|
  {
    if LowestUnstable(tol, roots, |roots|) >= 0 then LowestUnstable(tol, roots, |roots|)
    else LargestReal(roots, |roots|)
  }

  lemma {:induction false} LargestRealIsMaximum(roots: seq<FlutterRoot>, n: nat)
    requires n <= |roots|
    ensures var best := LargestReal(roots, n);
            if best < 0 then forall i | 0 <= i < n :: !InUpperHalf(roots[i])
            else InUpperHalf(roots[best]) && forall i | 0 <= i < n && InUpperHalf(roots[i]) ::
              roots[i].root.re < roots[best].root.re || (roots[i].root.re == roots[best].root.re && i <= best)
  {
    if n > 0 {
      LargestRealIsMaximum(roots, n - 1);
    }
  }

  lemma {:induction false} LowestUnstableIsMinimum(tol: real, roots: seq<FlutterRoot>, n: nat)
    requires n <= |roots|
    ensures var best := LowestUnstable(tol, roots, n);
            if best < 0 then forall i | 0 <= i < n && IsUnstable(tol, roots[i]) :: roots[i].V <= 0.0
            else IsUnstable(tol, roots[best]) && roots[best].V > 0.0
                 && forall i | 0 <= i < n && IsUnstable(tol, roots[i]) && roots[i].V > 0.0 ::
                   roots[best].V < roots[i].V || (roots[best].V == roots[i].V && i <= best)
  {
    if n > 0 {
      LowestUnstableIsMinimum(tol, roots, n - 1);
    }
  }

  lemma {:induction false} CountIsZero(tol: real, roots: seq<FlutterRoot>, n: nat)
    requires n <= |roots|
    ensures CountUnstable(tol, roots, n) > 0 <==> exists i :: 0 <= i < n && IsUnstable(tol, roots[i])
  {
    if n > 0 {
      CountIsZero(tol, roots, n - 1);
    }
  }

  /** The count is the number of positions with an unstable root. */
  lemma {:induction false} CountIsCardinality(tol: real, roots: seq<FlutterRoot>, n: nat)
    requires n <= |roots|
    ensures CountUnstable(tol, roots, n)
         == |set i: int | 0 <= i < n && roots[i].root.im >= 0.0 && roots[i].root.re >= tol|
  {
    var s := set i: int | 0 <= i < n && roots[i].root.im >= 0.0 && roots[i].root.re >= tol;
    if n > 0 {
      CountIsCardinality(tol, roots, n - 1);
      var t := set i: int | 0 <= i < n - 1 && roots[i].root.im >= 0.0 && roots[i].root.re >= tol;
      assert s == if IsUnstable(tol, roots[n - 1]) then t + {n - 1} else t;
    } else {
      assert s == {};
    }
  }

  /** Position c holds the critical root: among the unstable roots of positive velocity in the upper half plane the last
      one of lowest velocity; without such a root the last one of largest real part in that half; without any, -1. */
  ghost predicate IsCritical(tol: real, roots: seq<FlutterRoot>, c: int) {
    if exists r <- roots :: r.root.im >= 0.0 && r.root.re >= tol && r.V > 0.0 then
      && 0 <= c < |roots| && roots[c].root.im >= 0.0 && roots[c].root.re >= tol && roots[c].V > 0.0
      && forall i | 0 <= i < |roots| && roots[i].root.im >= 0.0 && roots[i].root.re >= tol && roots[i].V > 0.0 ::
           roots[c].V < roots[i].V || (roots[c].V == roots[i].V && i <= c)
    else if exists r <- roots :: r.root.im >= 0.0 then
      && 0 <= c < |roots| && roots[c].root.im >= 0.0
      && forall i | 0 <= i < |roots| && roots[i].root.im >= 0.0 ::
           roots[i].root.re < roots[c].root.re || (roots[i].root.re == roots[c].root.re && i <= c)
    else c == -1
  }

  lemma CriticalIndexIsCritical(tol: real, roots: seq<FlutterRoot>)
    ensures IsCritical(tol, roots, CriticalIndex(tol, roots))
  {
    LargestRealIsMaximum(roots, |roots|);
    LowestUnstableIsMinimum(tol, roots, |roots|);
    hide LargestReal, LowestUnstable;
  }

  lemma CriticalIsUnique(tol: real, roots: seq<FlutterRoot>, c: int, c': int)
    requires IsCritical(tol, roots, c) && IsCritical(tol, roots, c')
    ensures c == c'
  {
  }

  /** The critical root is unstable exactly when the count is non-zero; otherwise it has the largest real
      part of the upper half plane. It is missing only if that half is empty. No condition on the velocity
      is needed for these; with V = v > 0 on every finite root the unstable pick also has the lowest V. */
  lemma CountAndCriticalAgree(tol: real, roots: seq<FlutterRoot>)
    ensures var c := CriticalIndex(tol, roots);
            && (c < 0 <==> forall r | r in roots :: !InUpperHalf(r))
            && (CountUnstable(tol, roots, |roots|) > 0 <==> c >= 0 && IsUnstable(tol, roots[c]))
            && (c >= 0 && (CountUnstable(tol, roots, |roots|) == 0 || LowestUnstable(tol, roots, |roots|) < 0) ==>
                  InUpperHalf(roots[c]) && forall r | r in roots && InUpperHalf(r) :: r.root.re <= roots[c].root.re)
  {
    var n := |roots|;
    LargestRealIsMaximum(roots, n);
    LowestUnstableIsMinimum(tol, roots, n);
    CountIsZero(tol, roots, n);
  }

  /** The contract of the eigensolver for one triple: beta A x = alpha B x, row by row. */
  ghost predicate SolvesPencil(size: nat, A: CMatrix, B: CMatrix, t: EigenTriple) {
    forall i | 0 <= i < size ::
      t.beta.Times(CApply(size, A, AsCVector(t.right))(i)) == t.alpha.Times(CApply(size, B, AsCVector(t.right))(i))
  }

  /** Every root built from a finite eigenvalue of the assembled pencil solves the second-order problem
      (p^2 M + p C + K) x = 0, with the upper half of its eigenvector equal to p x. */
  lemma FiniteRootSolvesSecondOrder(n: nat, q: FirstOrderPencil.Reduced, vRef: real, t: EigenTriple)
    requires t.beta != Zero
    requires SolvesPencil(2 * n, FirstOrderPencil.PencilA(n, q), FirstOrderPencil.PencilB(n, q), t)
    ensures var r := TimeDomainRoot(vRef, t);
            && r.V == vRef && r.omega == r.root.im
            && FirstOrderPencil.VelocityIsScaled(n, r.root, AsCVector(r.evecRight))
            && forall i | 0 <= i < n ::
                 FirstOrderPencil.QuadraticResidual(n, q, r.root, AsCVector(r.evecRight), i) == Zero
  {
    var A, B := FirstOrderPencil.PencilA(n, q), FirstOrderPencil.PencilB(n, q);
    var p, x := t.alpha.Over(t.beta), AsCVector(t.right);
    OverUnique(t.alpha, t.beta, p);
    forall i | 0 <= i < 2 * n
      ensures FirstOrderPencil.RowHolds(2 * n, A, B, p, x, i)
    {
      var a, b := CApply(2 * n, A, x)(i), CApply(2 * n, B, x)(i);
      assert t.beta.Times(a) == t.alpha.Times(b);
      CancelBeta(t.alpha, t.beta, p, a, b);
    }
    FirstOrderPencil.PencilMeaning(n, q, p, x);
    hide CApply, Complex.Times, FirstOrderPencil.QuadraticResidual;
  }

  lemma CancelBeta(alpha: Complex, beta: Complex, p: Complex, a: Complex, b: Complex)
    requires beta != Zero && p.Times(beta) == alpha && beta.Times(a) == alpha.Times(b)
    ensures a == p.Times(b)
  {
    TimesCommutes(beta, a);
    OverUnique(alpha.Times(b), beta, a);
    TimesAssociates(p, beta, b);
    TimesCommutes(beta, b);
    TimesAssociates(p, b, beta);
    OverUnique(alpha.Times(b), beta, p.Times(b));
    hide Complex.Times, Complex.Over;
  }
}
