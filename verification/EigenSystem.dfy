/** The nonlinear system as an eigenproblem: the solve with its condensation and exchange, the normalised pairs, and
    the sensitivities of the eigenvalues, which reuse the storage of the two matrices. One process holds all dofs. */
module EigenSystem {
  import opened Scalars
  import opened LinearAlgebra
  import opened ComplexAlgebra
  import opened OrderedContainers
  import opened EigenCondensation
  import opened EigenSensitivity

  /** The eigenproblem types; everything but the two Hermitian ones stops the program when a pair is fetched. */
  datatype ProblemType = HEP | GHEP | NHEP | GNHEP | GHIEP {
    predicate Generalized() {
      GHEP? || GNHEP? || GHIEP?
    }

    predicate Hermitian() {
      HEP? || GHEP?
    }
  }

  datatype Operation = Idle | EigenproblemSolve

  /** What the eigensolver holds for one converged pair. */
  datatype EigenPair = EigenPair(value: Complex, vector: seq<real>)

  /** How a solve ends: the assembly dereferences a missing B, and a checked build asserts that a standard problem has
      none. */
  datatype SolveOutcome = Converged | NullMatrixB | UnexpectedMatrixB

  datatype Fetched = Fetched(value: Complex) | NotImplemented | InfiniteEigenvalue | NonPositiveNorm

  datatype SensitivityOutcome = Computed(sens: seq<real>) | Stopped

  /** The two matrices handed to the eigensolver. */
  function SolverMatrices(a: Matrix, b: Matrix, condensed: bool, free: seq<nat>, exchange: bool): (Matrix, Matrix) {
    var ca := if condensed then Submatrix(a, free) else a;
    var cb := if condensed then Submatrix(b, free) else b;
    if exchange then (cb, ca) else (ca, cb)
  }

  /** An exact Hermitian pair of A x = mu B x of the given size. */
  ghost predicate ExactPair(size: nat, a: Matrix, b: Matrix, p: EigenPair) {
    |p.vector| == size && p.value.im == 0.0 && Solves(size, a, b, p.value.re, p.vector)
  }

  /** Inverting the eigenvalue of the exchanged problem gives that of the original one. */
  lemma InvertedValue(ax: real, bx: real, mu: real, lambda: real)
    requires bx == mu * ax && lambda * mu == 1.0
    ensures ax == lambda * bx
  {
    assert lambda * bx == (lambda * mu) * ax;
  }

  lemma RealInverse(mu: Complex)
    requires mu.im == 0.0 && mu != Zero
    ensures One.Over(mu).im == 0.0 && One.Over(mu).re * mu.re == 1.0
  {
    var d := mu.NormSq();
    var r := 1.0 / d;
    assert d == mu.re * mu.re;
    assert r * d == 1.0;
    assert One.Over(mu).re == r * mu.re;
    assert One.Over(mu).im == 0.0;
    assert (r * mu.re) * mu.re == r * (mu.re * mu.re);
  }

  class NonlinearSystem {
    const nDofs: nat
    const problemType: ProblemType
    const exchangeAB: bool
    /** Whether a B matrix is kept although the problem may not need one, and whether assertions are compiled in. */
    const initializeBMatrix: bool
    const checkedBuild: bool
    /** The exact eigensolvers for A x = mu B x and A x = mu x. */
    const solveGeneralized: (nat, Matrix, Matrix) -> seq<EigenPair>
    const solveStandard: (nat, Matrix) -> seq<EigenPair>

    var operation: Operation
    var matrixA: Matrix
    var matrixB: Option<Matrix>
    var localNonCondensedDofs: seq<nat>
    var condensedDofsInitialized: bool
    var pairs: seq<EigenPair>

    /** The matrices of the problem whose pairs are held. */
    ghost var solvedA: Matrix
    ghost var solvedB: Matrix

    constructor (nDofs: nat, problemType: ProblemType, exchangeAB: bool, initializeBMatrix: bool, checkedBuild: bool,
                 solveGeneralized: (nat, Matrix, Matrix) -> seq<EigenPair>,
                 solveStandard: (nat, Matrix) -> seq<EigenPair>)
      ensures this.nDofs == nDofs && this.problemType == problemType && this.exchangeAB == exchangeAB
      ensures this.initializeBMatrix == initializeBMatrix && this.checkedBuild == checkedBuild
      ensures this.solveGeneralized == solveGeneralized && this.solveStandard == solveStandard
      ensures Valid() && Solved() && operation == Idle && !condensedDofsInitialized && pairs == []
    {
      this.nDofs, this.problemType, this.exchangeAB := nDofs, problemType, exchangeAB;
      this.initializeBMatrix, this.checkedBuild := initializeBMatrix, checkedBuild;
      this.solveGeneralized, this.solveStandard := solveGeneralized, solveStandard;
      operation, localNonCondensedDofs, condensedDofsInitialized, pairs := Idle, [], false, [];
      matrixA := (i, j) => 0.0;
      matrixB := if problemType.Generalized() || initializeBMatrix then Some((i, j) => 0.0) else None;
    }

    /** The B matrix exists exactly if the problem needs it or it was asked for; the free dofs are in order. */
    ghost predicate Valid()
      reads this
    {
      && (matrixB.Some? <==> problemType.Generalized() || initializeBMatrix)
      && FreeDofsValid()
    }

    ghost predicate FreeDofsValid()
      reads `localNonCondensedDofs, `condensedDofsInitialized
    {
      condensedDofsInitialized ==>
        && Ascending(localNonCondensedDofs)
        && forall j | 0 <= j < |localNonCondensedDofs| :: localNonCondensedDofs[j] < nDofs
    }

    /** The number of unknowns of the problem that is solved. */
    function Size(): nat
      reads `localNonCondensedDofs, `condensedDofsInitialized
    {
      if condensedDofsInitialized then |localNonCondensedDofs| else nDofs
    }

    /** For a Hermitian problem the eigensolvers return exact real pairs. */
    ghost predicate ExactSolvers() {
      problemType.Hermitian() ==>
      && (forall n, a, b, p | p in solveGeneralized(n, a, b) :: ExactPair(n, a, b, p))
      && (forall n, a, p | p in solveStandard(n, a) :: ExactPair(n, a, IdentityMatrix(), p))
    }

    /** Whether the assertions and the assembly let a solve get through. */
    predicate SolveGetsThrough() {
      problemType.Generalized() || (initializeBMatrix && !checkedBuild)
    }

    /** The pairs belong to the matrices of the last solve, whatever the storage holds by now. The standard problem
        ignores the exchange. */
    ghost predicate Solved()
      reads `pairs, `solvedA, `solvedB, `localNonCondensedDofs, `condensedDofsInitialized
    {
      && (pairs != [] ==> SolveGetsThrough())
      && forall p | p in pairs && problemType.Hermitian() ::
           if problemType == GHEP then
             var m := SolverMatrices(solvedA, solvedB, condensedDofsInitialized, localNonCondensedDofs, exchangeAB);
             ExactPair(Size(), m.0, m.1, p)
           else
             var m := SolverMatrices(solvedA, solvedB, condensedDofsInitialized, localNonCondensedDofs, false);
             ExactPair(Size(), m.0, IdentityMatrix(), p)
    }

    /** The storage still holds the matrices of the last solve. */
    ghost predicate HoldsProblem()
      reads this
    {
      matrixA == solvedA && matrixB == Some(solvedB)
    }

    /** The free dofs are those that are neither constrained nor on a Dirichlet boundary, in ascending order. */
    method InitializeCondensedDofs(isConstrained: nat -> bool, dirichlet: set<nat>)
      requires Valid()
      modifies this`localNonCondensedDofs, this`condensedDofsInitialized
      ensures condensedDofsInitialized && Valid()
      ensures forall d: nat :: d in localNonCondensedDofs <==> d < nDofs && !isConstrained(d) && d !in dirichlet
    {
      var local: set<nat> := {};
      for i := 0 to nDofs
        invariant forall d: nat :: d in local <==> d < i && !isConstrained(d)
      {
        if !isConstrained(i) {
          local := local + {i};
        }
      }
      var rest := dirichlet;
      while rest != {}
        invariant rest <= dirichlet
        invariant forall d: nat :: d in local <==> d < nDofs && !isConstrained(d) && (d !in dirichlet || d in rest)
        decreases rest
      {
        var condensed :| condensed in rest;
        if condensed < nDofs {
          local := local - {condensed};
        }
        rest := rest - {condensed};
      }
      localNonCondensedDofs := [];
      for i := 0 to nDofs
        invariant Ascending(localNonCondensedDofs)
        invariant forall k | 0 <= k < |localNonCondensedDofs| :: localNonCondensedDofs[k] < i
        invariant forall d: nat :: d in localNonCondensedDofs <==> d < i && d in local
      {
        if i in local {
          localNonCondensedDofs := localNonCondensedDofs + [i];
        }
      }
      condensedDofsInitialized := true;
    }

    /** Assembles the matrices and solves the eigenproblem, on the free dofs if they are known. A standard problem gets
        through only with the flag for B set, because the assembly writes into B, and assertions off. */
    method SolveEigenproblem(a: Matrix, b: Matrix) returns (r: SolveOutcome)
      requires operation == Idle && Valid() && ExactSolvers() && Solved()
      requires condensedDofsInitialized ==> localNonCondensedDofs != []
      modifies this`operation, this`matrixA, this`matrixB, this`pairs, this`solvedA, this`solvedB
      ensures Valid() && Solved()
      ensures r.Converged? <==> SolveGetsThrough()
      ensures r.NullMatrixB? <==> !problemType.Generalized() && !initializeBMatrix
      ensures r.Converged? ==> operation == Idle && HoldsProblem() && solvedA == a && solvedB == b
      ensures r.Converged? ==>
                var exchange := problemType.Generalized() && exchangeAB;
                var m := SolverMatrices(a, b, condensedDofsInitialized, localNonCondensedDofs, exchange);
                pairs == if problemType.Generalized() then solveGeneralized(Size(), m.0, m.1)
                         else solveStandard(Size(), m.0)
      ensures !r.Converged? ==> operation == EigenproblemSolve && pairs == old(pairs)
    {
      operation := EigenproblemSolve;
      if matrixB.None? {
        return NullMatrixB;
      }
      matrixA, matrixB := a, Some(b);
      if problemType.Generalized() {
        var m := SolverMatrices(a, b, condensedDofsInitialized, localNonCondensedDofs, exchangeAB);
        pairs := solveGeneralized(Size(), m.0, m.1);
      } else {
        if checkedBuild {
          return UnexpectedMatrixB;
        }
        var m := SolverMatrices(a, b, condensedDofsInitialized, localNonCondensedDofs, false);
        pairs := solveStandard(Size(), m.0);
      }
      solvedA, solvedB := a, b;
      operation := Idle;
      r := Converged;
    }

    /** The matrix B of the problem whose pairs are held, or the identity for the standard problem. */
    ghost function ProblemB(): Matrix
      reads this
    {
      if problemType == GHEP then solvedB else IdentityMatrix()
    }

    /** The matrix of the inner product: what is stored as B, or the identity for the standard problem. */
    function InnerProductMatrix(): Matrix
      requires problemType == GHEP ==> matrixB.Some?
      reads this
    {
      if problemType == GHEP then matrixB.value else IdentityMatrix()
    }

    ghost predicate FreeRow(d: int)
      reads this
    {
      if condensedDofsInitialized then d in localNonCondensedDofs else 0 <= d < nDofs
    }

    /** v vanishes on the condensed dofs and satisfies A v = lambda B v on every free row. */
    ghost predicate IsEigenvector(lambda: real, v: seq<real>)
      reads this
    {
      && |v| == nDofs
      && (forall d | 0 <= d < nDofs && !FreeRow(d) :: v[d] == 0.0)
      && (forall d | 0 <= d < nDofs && FreeRow(d) ::
            Apply(nDofs, solvedA, AsVector(v))(d) == lambda * Apply(nDofs, ProblemB(), AsVector(v))(d))
    }

    /** The full vector of a pair before normalisation. */
    ghost function FullVector(p: EigenPair): (v: seq<real>)
      requires FreeDofsValid() && |p.vector| == Size()
      reads `localNonCondensedDofs, `condensedDofsInitialized
      ensures |v| == nDofs
    {
      if condensedDofsInitialized then Scatter(nDofs, localNonCondensedDofs, p.vector) else p.vector
    }

    /** The squared norm of the full vector in the inner product of the moment. */
    ghost function PairNorm(p: EigenPair): real
      requires Valid() && |p.vector| == Size()
      reads this
    {
      Norm(nDofs, InnerProductMatrix(), FullVector(p))
    }

    /** The value handed out for a pair. */
    function ValueOf(p: EigenPair): Complex
      requires exchangeAB ==> p.value != Zero
    {
      if exchangeAB then One.Over(p.value) else p.value
    }

    /** The eigenvalue of A v = lambda B v that a pair stands for. */
    ghost function TrueValue(p: EigenPair): real
      requires exchangeAB ==> p.value != Zero
    {
      if problemType == GHEP then ValueOf(p).re else p.value.re
    }

    /** A pair that can be fetched in the present state. */
    ghost predicate Fetchable(p: EigenPair)
      requires Valid() && |p.vector| == Size()
      reads this
    {
      problemType.Hermitian() && PairNorm(p) > 0.0 && (exchangeAB ==> p.value != Zero)
    }

    /** The row equations of the solved problem, on the full vector. */
    lemma FullRows(p: EigenPair)
      requires Valid() && Solved() && p in pairs && problemType.Hermitian()
      ensures |p.vector| == Size() && p.value.im == 0.0
      ensures var v := AsVector(FullVector(p));
              forall d | 0 <= d < nDofs && FreeRow(d) ::
                var av, bv := Apply(nDofs, solvedA, v)(d), Apply(nDofs, ProblemB(), v)(d);
                if problemType == GHEP && exchangeAB then bv == p.value.re * av else av == p.value.re * bv
      ensures forall d | 0 <= d < nDofs && !FreeRow(d) :: FullVector(p)[d] == 0.0
    {
      hide Dot, Scatter;
      var free, x, mu := localNonCondensedDofs, p.vector, p.value.re;
      if condensedDofsInitialized {
        ScatterEntries(nDofs, free, x);
        if problemType == GHEP {
          if exchangeAB {
            LiftSolves(nDofs, free, solvedB, solvedA, mu, x);
          } else {
            LiftSolves(nDofs, free, solvedA, solvedB, mu, x);
          }
        } else {
          CondensedIdentity(free, solvedA, mu, x);
          LiftSolves(nDofs, free, solvedA, IdentityMatrix(), mu, x);
        }
      }
    }

    /** A pair of the exchanged problem with eigenvalue zero has zero norm in B, so it is not handed out while the
        storage holds B. */
    lemma ZeroPairHasZeroNorm(p: EigenPair)
      requires Valid() && Solved() && p in pairs && problemType == GHEP && exchangeAB && p.value == Zero
      ensures |p.vector| == Size() && Norm(nDofs, solvedB, FullVector(p)) == 0.0
    {
      FullRows(p);
      var v := AsVector(FullVector(p));
      forall d | 0 <= d < nDofs
        ensures v(d) * Apply(nDofs, solvedB, v)(d) == 0.0
      {
        if FreeRow(d) {
          assert Apply(nDofs, ProblemB(), v)(d) == p.value.re * Apply(nDofs, solvedA, v)(d);
        }
      }
      DotZero(nDofs, v, Apply(nDofs, solvedB, v));
    }

    /** Any multiple of the full vector is an eigenvector for the true value. */
    lemma ScaledPair(p: EigenPair, s: real)
      requires Valid() && Solved() && p in pairs && problemType.Hermitian()
      requires |p.vector| == Size() && (exchangeAB ==> p.value != Zero)
      ensures IsEigenvector(TrueValue(p), Scaled(s, FullVector(p)))
    {
      hide Dot, Scatter, FullVector;
      FullRows(p);
      var full, b := FullVector(p), ProblemB();
      var lambda := TrueValue(p);
      forall d | 0 <= d < nDofs && FreeRow(d)
        ensures Apply(nDofs, solvedA, AsVector(Scaled(s, full)))(d)
             == lambda * Apply(nDofs, b, AsVector(Scaled(s, full)))(d)
      {
        if problemType == GHEP && exchangeAB {
          RealInverse(p.value);
          var av, bv := Apply(nDofs, solvedA, AsVector(full))(d), Apply(nDofs, b, AsVector(full))(d);
          InvertedValue(av, bv, p.value.re, lambda);
        }
        ScaledSolves(nDofs, solvedA, b, lambda, full, s, d);
      }
    }

    /** An eigenvector of unit norm has only one eigenvalue. */
    lemma OneEigenvalue(lambda: real, mu: real, v: seq<real>)
      requires problemType == HEP && IsEigenvector(lambda, v) && Norm(nDofs, IdentityMatrix(), v) == 1.0
      ensures IsEigenvector(mu, v) <==> lambda == mu
    {
      hide IdentityMatrix, Apply, Norm, Dot;
      if IsEigenvector(mu, v) && lambda != mu {
        NormOfIdentity(nDofs, v);
        forall d | 0 <= d < nDofs
          ensures AsVector(v)(d) * AsVector(v)(d) == 0.0
        {
          if FreeRow(d) {
            assert Apply(nDofs, IdentityMatrix(), AsVector(v))(d) == v[d];
            TwoMultiples(lambda, mu, v[d]);
          }
        }
        DotZero(nDofs, AsVector(v), AsVector(v));
        assert false;
      }
    }

    /** With pairs at hand, a B matrix is stored. */
    lemma StoresB()
      requires Valid() && Solved() && pairs != []
      ensures matrixB.Some?
    {
    }

    /** What fetching a pair means. The vector is normalised in the inner product of the moment, which for the
        generalised problem is v^T B v only while the storage holds B. The value is the eigenvalue of the vector,
        exchanged or not, in the generalised problem. The standard problem, whose matrices are never exchanged, is only
        reached with B kept and assertions off; a requested exchange still inverts its value, which is then the
        eigenvalue only if its square is one. */
    ghost predicate Delivers(p: EigenPair, r: Fetched, v: seq<real>)
      requires Valid() && |p.vector| == Size()
      reads this
    {
      match r
      case NotImplemented => !problemType.Hermitian()
      case NonPositiveNorm => problemType.Hermitian() && PairNorm(p) <= 0.0
      case InfiniteEigenvalue => exchangeAB && p.value == Zero && (problemType == GHEP ==> !HoldsProblem())
      case Fetched(value) =>
        && Fetchable(p)
        && value == ValueOf(p) && value.im == 0.0
        && IsEigenvector(TrueValue(p), v)
        && Norm(nDofs, InnerProductMatrix(), v) == 1.0
        && (problemType == GHEP ==> IsEigenvector(value.re, v))
        && (problemType == HEP ==>
              && initializeBMatrix && !checkedBuild
              && (IsEigenvector(value.re, v) <==> !exchangeAB || Sq(p.value.re) == 1.0))
    }

    lemma NormalisedPairIsDelivered(p: EigenPair, s: real)
      requires Valid() && Solved() && p in pairs && |p.vector| == Size() && Fetchable(p)
      requires s * s * PairNorm(p) == 1.0
      ensures Delivers(p, Fetched(ValueOf(p)), Scaled(s, FullVector(p)))
    {
      hide FullVector, IsEigenvector, Norm, IdentityMatrix;
      var value, v := ValueOf(p), Scaled(s, FullVector(p));
      ScaledPair(p, s);
      FullRows(p);
      NormScales(nDofs, InnerProductMatrix(), FullVector(p), s);
      if exchangeAB {
        RealInverse(p.value);
      }
      if problemType == HEP {
        OneEigenvalue(p.value.re, value.re, v);
        SelfInverse(p.value.re, value.re, exchangeAB);
      }
    }

    /** Fetches pair i into vecRe and normalises it with what is stored as B at the time. `sqrt` is exact. */
    method GetEigenpair(i: nat, vecRe: array<real>, sqrt: real -> real) returns (r: Fetched)
      requires Valid() && Solved() && i < |pairs| && |pairs[i].vector| == Size()
      requires vecRe.Length == nDofs && ExactSqrt(sqrt)
      modifies vecRe
      ensures r.Fetched? <==> Fetchable(pairs[i])
      ensures Delivers(pairs[i], r, vecRe[..])
      ensures r.Fetched? ==> IsMultiple(vecRe[..], FullVector(pairs[i]))
    {
      hide Norm, FullVector, IsEigenvector, Solved, IdentityMatrix;
      if !problemType.Hermitian() {
        return NotImplemented;
      }
      var p := pairs[i];
      CopyToFull(p, vecRe);
      ghost var full := FullVector(p);
      var v := if problemType == GHEP then Norm(nDofs, matrixB.value, vecRe[..])
               else Dot(nDofs, AsVector(vecRe[..]), AsVector(vecRe[..]));
      NormOfIdentity(nDofs, full);
      if !(v > 0.0) {
        return NonPositiveNorm;
      }
      if exchangeAB && p.value == Zero {
        if problemType == GHEP {
          ZeroPairHasZeroNorm(p);
        }
        return InfiniteEigenvalue;
      }
      var s := UnitScale(v, sqrt);
      ScaleInPlace(vecRe, s);
      NormalisedPairIsDelivered(p, s);
      r := Fetched(ValueOf(p));
    }

    /** The condensed vector at the free dofs and zeros elsewhere, or the whole vector. */
    method CopyToFull(p: EigenPair, vecRe: array<real>)
      requires Valid() && |p.vector| == Size() && vecRe.Length == nDofs
      modifies vecRe
      ensures vecRe[..] == FullVector(p)
    {
      if condensedDofsInitialized {
        for k := 0 to nDofs
          invariant forall j | 0 <= j < k :: vecRe[j] == 0.0
        {
          vecRe[k] := 0.0;
        }
        ghost var free, x := localNonCondensedDofs, p.vector;
        assert vecRe[..] == Scatter(nDofs, free[..0], x[..0]);
        for j := 0 to |localNonCondensedDofs|
          invariant vecRe[..] == Scatter(nDofs, free[..j], x[..j])
        {
          assert free[..j + 1][..j] == free[..j] && x[..j + 1][..j] == x[..j];
          vecRe[localNonCondensedDofs[j]] := p.vector[j];
        }
        assert free[..|free|] == free && x[..|x|] == x;
      } else {
        for k := 0 to nDofs
          invariant forall j | 0 <= j < k :: vecRe[j] == p.vector[j]
        {
          vecRe[k] := p.vector[k];
        }
      }
    }

    // -------------------------------------------------------------------------------------------
    // Sensitivities of the eigenvalues
    // -------------------------------------------------------------------------------------------

    /** The quotient for one pair, with the given matrix in the denominator. */
    ghost function SensitivityWith(c: Matrix, p: EigenPair, da: Matrix, db: Matrix): real
      requires FreeDofsValid() && |p.vector| == Size() && (exchangeAB ==> p.value != Zero)
      requires Norm(nDofs, c, FullVector(p)) != 0.0
      reads `localNonCondensedDofs, `condensedDofsInitialized
    {
      Sensitivity(nDofs, c, da, if problemType == GHEP then db else IdentityMatrix(), ValueOf(p).re,
                  AsVector(FullVector(p)))
    }

    /** The quotient does not depend on the normalisation. */
    lemma ScaledPairSensitivity(p: EigenPair, x: seq<real>, c: Matrix, da: Matrix, db: Matrix)
      requires Valid() && |p.vector| == Size() && (exchangeAB ==> p.value != Zero)
      requires IsMultiple(x, FullVector(p)) && Norm(nDofs, c, FullVector(p)) != 0.0
      ensures Norm(nDofs, c, x) != 0.0
      ensures SensitivityWith(c, p, da, db)
           == (Norm(nDofs, da, x)
               - ValueOf(p).re * Norm(nDofs, if problemType == GHEP then db else IdentityMatrix(), x))
              / Norm(nDofs, c, x)
    {
      hide Quadratic, FullVector, IdentityMatrix;
      var s: real :| s != 0.0 && x == Scaled(s, FullVector(p));
      ScaledSensitivity(nDofs, c, da, if problemType == GHEP then db else IdentityMatrix(), ValueOf(p).re,
                        FullVector(p), s);
    }

    /** Pair p is ready for a quotient with c in the denominator. */
    ghost predicate Ready(c: Matrix, p: EigenPair)
      requires FreeDofsValid() && |p.vector| == Size()
      reads `localNonCondensedDofs, `condensedDofsInitialized
    {
      Norm(nDofs, c, FullVector(p)) > 0.0 && (exchangeAB ==> p.value != Zero)
    }

    /** One quotient for each listed pair, all over c. */
    ghost predicate AreSensitivities(c: Matrix, indices: seq<nat>, da: Matrix, db: Matrix, sens: seq<real>)
      requires FreeDofsValid()
      requires forall k | 0 <= k < |indices| :: indices[k] < |pairs| && |pairs[indices[k]].vector| == Size()
      reads `pairs, `localNonCondensedDofs, `condensedDofsInitialized
    {
      && |sens| == |indices|
      && forall k | 0 <= k < |indices| ::
           Ready(c, pairs[indices[k]]) && sens[k] == SensitivityWith(c, pairs[indices[k]], da, db)
    }

    /** Fetches the listed pairs, with the value and the denominator of each. */
    method FetchPairs(indices: seq<nat>, sqrt: real -> real)
      returns (ok: bool, xRight: seq<seq<real>>, eig: seq<real>, denom: seq<real>)
      requires Valid() && Solved() && ExactSqrt(sqrt)
      requires forall k | 0 <= k < |indices| :: indices[k] < |pairs| && |pairs[indices[k]].vector| == Size()
      ensures ok <==> forall k | 0 <= k < |indices| :: Fetchable(pairs[indices[k]])
      ensures ok ==>
                && |xRight| == |eig| == |denom| == |indices|
                && forall k | 0 <= k < |indices| ::
                     && |xRight[k]| == nDofs
                     && IsMultiple(xRight[k], FullVector(pairs[indices[k]]))
                     && eig[k] == ValueOf(pairs[indices[k]]).re
                     && denom[k] == Norm(nDofs, InnerProductMatrix(), xRight[k])
    {
      hide Norm, FullVector, IsEigenvector, Solved, IdentityMatrix, IsMultiple;
      xRight, eig, denom := [], [], [];
      for i := 0 to |indices|
        invariant |xRight| == |eig| == |denom| == i
        invariant forall k | 0 <= k < i :: Fetchable(pairs[indices[k]])
        invariant forall k | 0 <= k < i :: |xRight[k]| == nDofs && IsMultiple(xRight[k], FullVector(pairs[indices[k]]))
        invariant forall k | 0 <= k < i :: eig[k] == ValueOf(pairs[indices[k]]).re
        invariant forall k | 0 <= k < i :: denom[k] == Norm(nDofs, InnerProductMatrix(), xRight[k])
      {
        var x := new real[nDofs];
        var fetched := GetEigenpair(indices[i], x, sqrt);
        if !fetched.Fetched? {
          ok := false;
          return;
        }
        NormOfIdentity(nDofs, x[..]);
        var d := if problemType == GHEP then Norm(nDofs, matrixB.value, x[..])
                 else Dot(nDofs, AsVector(x[..]), AsVector(x[..]));
        xRight, eig, denom := xRight + [x[..]], eig + [fetched.value.re], denom + [d];
      }
      ok := true;
    }

    /** x^T A' x - value (x^T M x) with what is stored now, M the stored B or the identity. */
    method Numerator(x: seq<real>, value: real) returns (s: real)
      requires Valid() && |x| == nDofs
      ensures s == Norm(nDofs, matrixA, x) - value * Norm(nDofs, InnerProductMatrix(), x)
    {
      hide Norm, IdentityMatrix;
      NormOfIdentity(nDofs, x);
      s := Norm(nDofs, matrixA, x);
      s := s - value * (if problemType == GHEP then Norm(nDofs, matrixB.value, x)
                        else Dot(nDofs, AsVector(x), AsVector(x)));
    }

    /** The quotients from what is stored now, over denominators taken with c. */
    method DividePairs(indices: seq<nat>, xRight: seq<seq<real>>, eig: seq<real>, denom: seq<real>, ghost c: Matrix)
      returns (sens: seq<real>)
      requires Valid() && matrixB.Some? && |xRight| == |eig| == |denom| == |indices|
      requires forall k | 0 <= k < |indices| :: indices[k] < |pairs| && |pairs[indices[k]].vector| == Size()
      requires forall k | 0 <= k < |indices| ::
                 && Ready(c, pairs[indices[k]])
                 && |xRight[k]| == nDofs
                 && IsMultiple(xRight[k], FullVector(pairs[indices[k]]))
                 && eig[k] == ValueOf(pairs[indices[k]]).re
                 && denom[k] == Norm(nDofs, c, xRight[k])
      ensures AreSensitivities(c, indices, matrixA, matrixB.value, sens)
    {
      hide Norm, FullVector, IdentityMatrix, SensitivityWith, IsMultiple;
      sens := [];
      for i := 0 to |indices|
        invariant |sens| == i
        invariant forall k | 0 <= k < i :: sens[k] == SensitivityWith(c, pairs[indices[k]], matrixA, matrixB.value)
      {
        var s := Numerator(xRight[i], eig[i]);
        ScaledPairSensitivity(pairs[indices[i]], xRight[i], c, matrixA, matrixB.value);
        sens := sens + [s / denom[i]];
      }
    }

    /** The sensitivities of the listed pairs for one parameter. The derivatives of the two matrices are assembled into
        the storage of the matrices themselves, which nothing restores. */
    method EigenproblemSensitivitySolve(da: Matrix, db: Matrix, indices: seq<nat>, sqrt: real -> real)
      returns (r: SensitivityOutcome)
      requires Valid() && Solved() && ExactSqrt(sqrt) && pairs != []
      requires forall k | 0 <= k < |indices| :: indices[k] < |pairs| && |pairs[indices[k]].vector| == Size()
      modifies this`matrixA, this`matrixB
      ensures Valid() && Solved()
      ensures r.Computed? <==> forall k | 0 <= k < |indices| :: old(Fetchable(pairs[indices[k]]))
      ensures r.Computed? ==> matrixA == da && matrixB == Some(db)
      ensures r.Computed? ==> AreSensitivities(old(InnerProductMatrix()), indices, da, db, r.sens)
      ensures r.Stopped? ==> matrixA == old(matrixA) && matrixB == old(matrixB)
    {
      hide Norm, FullVector, IdentityMatrix, SensitivityWith, IsMultiple;
      StoresB();
      var ok, xRight, eig, denom := FetchPairs(indices, sqrt);
      if !ok {
        return Stopped;
      }
      ghost var c := InnerProductMatrix();
      assert forall k | 0 <= k < |indices| :: Ready(c, pairs[indices[k]]);
      matrixA, matrixB := da, Some(db);
      var sens := DividePairs(indices, xRight, eig, denom, c);
      r := Computed(sens);
    }

    /** Generalised problem, call i of a run over parameters: the value is the forced derivative of the eigenvalue times
        x^T B x / x^T C x, where C is B in the first call and the B derivative of the previous parameter later on. So
        the first call is right, and a later one only if that ratio is one or the derivative is zero. */
    lemma SensitivityOverRun(params: seq<MatrixDerivatives>, i: nat, p: EigenPair, dlambda: real, dx: Vector)
      requires problemType == GHEP && FreeDofsValid() && |p.vector| == Size() && i < |params|
      requires Ready(StoredB(params, solvedB, i), p)
      requires Symmetric(nDofs, solvedA) && Symmetric(nDofs, solvedB)
      requires IsPerturbed(nDofs, solvedA, solvedB, params[i].da, params[i].db, TrueValue(p), dlambda,
                           AsVector(FullVector(p)), dx)
      ensures var c, x := StoredB(params, solvedB, i), FullVector(p);
              var value := SensitivityWith(c, p, params[i].da, params[i].db);
              && value == dlambda * (Norm(nDofs, solvedB, x) / Norm(nDofs, c, x))
              && (value == dlambda <==> dlambda == 0.0 || Norm(nDofs, solvedB, x) == Norm(nDofs, c, x))
              && (i == 0 ==> value == dlambda)
    {
      hide Quadratic, FullVector, IsPerturbed;
      SensitivityIsRescaled(nDofs, solvedA, solvedB, StoredB(params, solvedB, i), params[i].da, params[i].db,
                            TrueValue(p), dlambda, AsVector(FullVector(p)), dx);
    }

    /** Standard problem, which is only reached with B kept and assertions off: every call subtracts the value of the
        pair from the forced derivative. It is right only for a zero value, so never with an exchange requested. */
    lemma StandardSensitivity(p: EigenPair, da: Matrix, db: Matrix, dlambda: real, dx: Vector)
      requires problemType == HEP && Valid() && Solved() && p in pairs && |p.vector| == Size()
      requires Ready(IdentityMatrix(), p) && Symmetric(nDofs, solvedA)
      requires IsPerturbed(nDofs, solvedA, IdentityMatrix(), da, (i, j) => 0.0, p.value.re, dlambda,
                           AsVector(FullVector(p)), dx)
      ensures initializeBMatrix && !checkedBuild
      ensures var value := SensitivityWith(IdentityMatrix(), p, da, db);
              && value == dlambda - ValueOf(p).re
              && (value == dlambda <==> !exchangeAB && p.value.re == 0.0)
    {
      hide Quadratic, FullVector, IsPerturbed, IdentityMatrix;
      StandardSensitivityOffByEigenvalue(nDofs, solvedA, da, p.value.re, ValueOf(p).re, dlambda,
                                         AsVector(FullVector(p)), dx);
      if exchangeAB {
        FullRows(p);
        RealInverse(p.value);
      }
    }
  }

  /** The derivatives of the two matrices with respect to one parameter. */
  datatype MatrixDerivatives = MatrixDerivatives(da: Matrix, db: Matrix)

  /** What is stored as B before call i of a run that starts with b. */
  function StoredB(params: seq<MatrixDerivatives>, b: Matrix, i: nat): Matrix
    requires i <= |params|
  {
    if i == 0 then b else params[i - 1].db
  }

  /** The matrix of the inner product before call i. */
  function DenominatorMatrix(problem: ProblemType, params: seq<MatrixDerivatives>, b: Matrix, i: nat): Matrix
    requires i <= |params|
  {
    if problem == GHEP then StoredB(params, b, i) else IdentityMatrix()
  }

  /** One call for each design parameter, up to the first that stops. Call i divides by the matrix that call i - 1 has
      left behind. */
  method EigenvalueGradients(sys: NonlinearSystem, params: seq<MatrixDerivatives>, indices: seq<nat>,
                             sqrt: real -> real)
    returns (grads: seq<seq<real>>)
    requires sys.Valid() && sys.Solved() && ExactSqrt(sqrt) && sys.pairs != []
    requires forall k | 0 <= k < |indices| ::
               indices[k] < |sys.pairs| && |sys.pairs[indices[k]].vector| == sys.Size()
    modifies sys`matrixA, sys`matrixB
    ensures sys.Valid() && sys.Solved() && |grads| <= |params|
    ensures forall i | 0 <= i < |grads| ::
              sys.AreSensitivities(DenominatorMatrix(sys.problemType, params, old(sys.matrixB.value), i), indices,
                                   params[i].da, params[i].db, grads[i])
    ensures |grads| < |params| ==>
              || !sys.problemType.Hermitian()
              || exists k | 0 <= k < |indices| ::
                   !sys.Ready(DenominatorMatrix(sys.problemType, params, old(sys.matrixB.value), |grads|),
                              sys.pairs[indices[k]])
    ensures sys.matrixB == Some(StoredB(params, old(sys.matrixB.value), |grads|))
  {
    hide Norm, IdentityMatrix, NonlinearSystem.Solved, NonlinearSystem.AreSensitivities, NonlinearSystem.FullVector;
    sys.StoresB();
    ghost var b := sys.matrixB.value;
    grads := [];
    for i := 0 to |params|
      invariant |grads| == i && sys.Valid() && sys.matrixB == Some(StoredB(params, b, i))
      invariant forall j | 0 <= j < i ::
                  sys.AreSensitivities(DenominatorMatrix(sys.problemType, params, b, j), indices,
                                       params[j].da, params[j].db, grads[j])
    {
      assert sys.InnerProductMatrix() == DenominatorMatrix(sys.problemType, params, b, i);
      var r := sys.EigenproblemSensitivitySolve(params[i].da, params[i].db, indices, sqrt);
      if r.Stopped? {
        return;
      }
      grads := grads + [r.sens];
    }
  }

  lemma TwoMultiples(l: real, m: real, x: real)
    requires l * x == m * x && l != m
    ensures x == 0.0
  {
    assert (l - m) * x == 0.0;
  }

  /** x is a non-zero multiple of v. */
  ghost predicate IsMultiple(x: seq<real>, v: seq<real>) {
    exists s: real :: s != 0.0 && x == Scaled(s, v)
  }

  lemma CommonFactor(t: real, p: real, q: real)
    requires t != 0.0 && q != 0.0
    ensures t * q != 0.0 && (t * p) / (t * q) == p / q
  {
    var r := p / q;
    assert r * q == p;
    assert t * (r * q) == r * (t * q);
    QuotientIs(t * p, t * q, r);
  }

  lemma ScaledSensitivity(n: nat, c: Matrix, da: Matrix, m: Matrix, value: real, v: seq<real>, s: real)
    requires n <= |v| && s != 0.0 && Norm(n, c, v) != 0.0
    ensures Norm(n, c, Scaled(s, v)) != 0.0
    ensures Sensitivity(n, c, da, m, value, AsVector(Scaled(s, v))) == Sensitivity(n, c, da, m, value, AsVector(v))
  {
    hide Quadratic;
    assert Sq(s) != 0.0;
    NormScales(n, c, v, s);
    NormScales(n, da, v, s);
    NormScales(n, m, v, s);
    var t, p, q := s * s, Norm(n, da, v), Norm(n, m, v);
    assert t * p - value * (t * q) == t * (p - value * q);
    CommonFactor(t, p - value * q, Norm(n, c, v));
  }

  lemma SelfInverse(mu: real, value: real, exchange: bool)
    requires if exchange then value * mu == 1.0 else value == mu
    ensures value == mu <==> !exchange || Sq(mu) == 1.0
  {
    if exchange && mu * mu == 1.0 {
      assert (value - mu) * mu == 0.0;
      assert mu != 0.0;
    }
  }

  method UnitScale(v: real, sqrt: real -> real) returns (s: real)
    requires v > 0.0 && ExactSqrt(sqrt)
    ensures s * s * v == 1.0
  {
    var root := sqrt(v);
    assert root * root == v;
    s := 1.0 / root;
    assert s * root == 1.0;
    assert s * s * v == (s * root) * (s * root);
  }

  /** An eigensolver for 2 x = mu x that is exact on every problem: it solves that one only. */
  function TwoSolver(): (nat, Matrix) -> seq<EigenPair> {
    (n, a: Matrix) => if n == 1 && a(0, 0) == 2.0 then [EigenPair(Complex(2.0, 0.0), [1.0])] else []
  }

  lemma TwoSolverIsExact(n: nat, a: Matrix)
    ensures forall p <- TwoSolver()(n, a) :: ExactPair(n, a, IdentityMatrix(), p)
  {
    var v := AsVector([1.0]);
    if n == 1 && a(0, 0) == 2.0 {
      assert Dot(1, Row(a, 0), v) == Dot(0, Row(a, 0), v) + 2.0 * 1.0;
      assert Dot(1, Row(IdentityMatrix(), 0), v) == Dot(0, Row(IdentityMatrix(), 0), v) + 1.0 * 1.0;
    }
  }

  lemma UnitNorm()
    ensures Norm(1, IdentityMatrix(), [1.0]) == 1.0
  {
    var v := AsVector([1.0]);
    NormOfIdentity(1, [1.0]);
    assert Dot(1, v, v) == Dot(0, v, v) + 1.0 * 1.0;
  }

  lemma HalfOfTwo()
    ensures One.Over(Complex(2.0, 0.0)) == Complex(0.5, 0.0)
  {
    hide Complex.Over;
    OverUnique(One, Complex(2.0, 0.0), Complex(0.5, 0.0));
  }

  /** The pair can be fetched, with the inverted value 1/2, which is then not the eigenvalue. */
  lemma FetchTwo(sys: NonlinearSystem, fetched: Fetched, v: seq<real>)
    requires sys.Valid() && sys.problemType == HEP && sys.nDofs == 1 && !sys.condensedDofsInitialized && sys.exchangeAB
    ensures var p := EigenPair(Complex(2.0, 0.0), [1.0]);
            && |p.vector| == sys.Size() && sys.Fetchable(p)
            && (fetched.Fetched? && sys.Delivers(p, fetched, v) ==>
                  && fetched.value == Complex(0.5, 0.0)
                  && sys.IsEigenvector(2.0, v) && !sys.IsEigenvector(0.5, v))
  {
    hide Norm, IdentityMatrix, Complex.Over, NonlinearSystem.IsEigenvector;
    UnitNorm();
    HalfOfTwo();
    assert Sq(2.0) == 4.0;
    hide Sq;
  }

  lemma SolversAreExact(sys: NonlinearSystem)
    requires sys.solveStandard == TwoSolver() && forall n, a, b :: sys.solveGeneralized(n, a, b) == []
    ensures sys.ExactSolvers()
  {
    hide TwoSolver, ExactPair;
    forall n, a
      ensures forall p <- TwoSolver()(n, a) :: ExactPair(n, a, IdentityMatrix(), p)
    {
      TwoSolverIsExact(n, a);
    }
  }

  /** The standard problem 2 x = lambda x, solved with B kept, assertions off and an exchange requested. */
  method SolveStandardProblem() returns (sys: NonlinearSystem)
    ensures fresh(sys) && sys.Valid() && sys.Solved() && sys.problemType == HEP && sys.nDofs == 1 && sys.exchangeAB
    ensures !sys.condensedDofsInitialized && sys.solvedA(0, 0) == 2.0
    ensures sys.pairs == [EigenPair(Complex(2.0, 0.0), [1.0])]
  {
    sys := new NonlinearSystem(1, HEP, true, true, false, (n, a, b) => [], TwoSolver());
    SolversAreExact(sys);
    var a: Matrix := (i, j) => 2.0;
    assert TwoSolver()(1, a) == [EigenPair(Complex(2.0, 0.0), [1.0])];
    hide TwoSolver, NonlinearSystem.ExactSolvers, NonlinearSystem.Solved;
    var solved := sys.SolveEigenproblem(a, (i, j) => 0.0);
  }

  /** The value handed out for its pair is 1/2, which is not an eigenvalue of the vector handed out. */
  method ExchangedStandardProblem(sqrt: real -> real) returns (sys: NonlinearSystem, value: Complex, v: seq<real>)
    requires ExactSqrt(sqrt)
    ensures fresh(sys) && sys.problemType == HEP && sys.nDofs == 1 && sys.solvedA(0, 0) == 2.0
    ensures value == Complex(0.5, 0.0) && sys.IsEigenvector(2.0, v) && !sys.IsEigenvector(value.re, v)
  {
    hide NonlinearSystem.Delivers, NonlinearSystem.IsEigenvector, NonlinearSystem.Fetchable,
         NonlinearSystem.Solved, ExactSqrt;
    sys := SolveStandardProblem();
    var x := new real[1];
    FetchTwo(sys, NotImplemented, []);
    var fetched := sys.GetEigenpair(0, x, sqrt);
    FetchTwo(sys, fetched, x[..]);
    value, v := fetched.value, x[..];
  }
}
