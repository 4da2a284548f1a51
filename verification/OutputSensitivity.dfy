/** Total derivatives of an output: the linear solves of the system for the solution sensitivity and the adjoint, and
    the element loops that turn either into a derivative. The linear solver is exact, hanging-node constraints are
    absent, and one process holds all elements. */
module OutputSensitivity {
  import opened LinearAlgebra
  import opened ElementAssembly
  import opened OrderedContainers

  type ElementVector = (Element, seq<real>) -> seq<real>

  /** What an output computes on one element from the gathered solution: its derivative with respect to the solution,
      and its sensitivity for a given solution sensitivity. */
  datatype OutputOperations = OutputOperations(derivative: ElementVector,
                                               sensitivity: (Element, seq<real>, seq<real>) -> real)

  /** The user's statement of which elements a parameter influences. */
  datatype ParameterDependence = NoDependence | Dependence(dependsOn: Element -> bool, overrideFlag: bool) {

    predicate Influences(e: Element) {
      NoDependence? || dependsOn(e)
    }

    predicate Evaluates(e: Element, withSolutionSensitivity: bool) {
      Influences(e) || (withSolutionSensitivity && !overrideFlag)
    }
  }

  /** The derivative of a point load at one node. */
  datatype NodalLoad = NodalLoad(dofs: seq<nat>, derivative: seq<real>)

  datatype Operation = Idle | ForwardSensitivitySolve | AdjointSolve

  // ---------------------------------------------------------------------------------------------
  // Specification of the element loops
  // ---------------------------------------------------------------------------------------------

  function OnElement(f: ElementVector, x: seq<real>): Element -> seq<real> {
    (e: Element) => f(e, Gather(e.dofs, x))
  }

  function Always(): Element -> bool {
    e => true
  }

  function Influenced(dependence: ParameterDependence): Element -> bool {
    e => dependence.Influences(e)
  }

  function Evaluated(dependence: ParameterDependence, withSolutionSensitivity: bool): Element -> bool {
    e => dependence.Evaluates(e, withSolutionSensitivity)
  }

  function GatheredOrZero(dofs: seq<nat>, dx: Option<seq<real>>): seq<real> {
    if dx.Some? then Gather(dofs, dx.value) else Zeros(|dofs|)
  }

  function SensitivityOn(ops: OutputOperations, x: seq<real>, dx: Option<seq<real>>): Element -> real {
    (e: Element) => ops.sensitivity(e, Gather(e.dofs, x), GatheredOrZero(e.dofs, dx))
  }

  function WithLoads(r: seq<real>, loads: seq<NodalLoad>): (s: seq<real>)
    requires forall l <- loads :: Within(|r|, l.dofs) && |l.derivative| == |l.dofs|
    ensures |s| == |r|
  {
    if loads == [] then r
    else
      var k := |loads| - 1;
      AddEntries(WithLoads(r, loads[..k]), loads[k].dofs, Scaled(-1.0, loads[k].derivative))
  }

  /** What the loads contribute along y. */
  function LoadWork(loads: seq<NodalLoad>, y: seq<real>): real
    requires forall l <- loads :: |l.derivative| == |l.dofs|
  {
    if loads == [] then 0.0
    else
      var k := |loads| - 1;
      assert loads[k] in loads;
      LoadWork(loads[..k], y) + Pairing(loads[k].derivative, Gather(loads[k].dofs, y))
  }

  /** Against any vector, the loads take away what each of them contributes at its dofs. */
  lemma {:induction false} LoadsPair(r: seq<real>, loads: seq<NodalLoad>, y: seq<real>)
    requires |y| == |r| && forall l <- loads :: Within(|r|, l.dofs) && |l.derivative| == |l.dofs|
    ensures Pairing(WithLoads(r, loads), y) == Pairing(r, y) - LoadWork(loads, y)
  {
    hide Pairing;
    if loads != [] {
      var k := |loads| - 1;
      var l := loads[k];
      assert l in loads;
      LoadsPair(r, loads[..k], y);
      AddingIsDualToGathering(WithLoads(r, loads[..k]), l.dofs, Scaled(-1.0, l.derivative), y);
      NegatedPairing(l.derivative, Gather(l.dofs, y));
    }
  }

  lemma NegatedPairing(u: seq<real>, v: seq<real>)
    requires |u| == |v|
    ensures Pairing(Scaled(-1.0, u), v) == -Pairing(u, v)
  {
    DotScale(|u|, -1.0, AsVector(u), AsVector(v), AsVector(Scaled(-1.0, u)), AsVector(v));
    hide Dot;
  }

  /** The assembled residual sensitivity against any vector: the contributions of the elements that the parameter
      influences, each evaluated on the solution at its dofs, less those of all point loads. */
  lemma AssembledWithLoadsPairs(n: nat, mesh: seq<Element>, loads: seq<NodalLoad>, dependence: ParameterDependence,
                                elemOps: ElementVector, x: seq<real>, y: seq<real>, influenced: Element -> bool,
                                work: Element -> real)
    requires |y| == n && forall e <- mesh :: Within(n, e.dofs) && |elemOps(e, Gather(e.dofs, x))| == |e.dofs|
    requires forall l <- loads :: Within(n, l.dofs) && |l.derivative| == |l.dofs|
    requires forall e <- mesh :: influenced(e) <==> dependence.NoDependence? || dependence.dependsOn(e)
    requires forall e <- mesh :: work(e) == Pairing(elemOps(e, Gather(e.dofs, x)), Gather(e.dofs, y))
    ensures Fits(n, mesh, OnElement(elemOps, x))
    ensures Pairing(WithLoads(Assembled(n, mesh, Influenced(dependence), OnElement(elemOps, x)), loads), y)
         == Total(mesh, influenced, work) - LoadWork(loads, y)
  {
    hide WithLoads, LoadWork, Assembled, Pairing, Gather;
    var f := OnElement(elemOps, x);
    LoadsPair(Assembled(n, mesh, Influenced(dependence), f), loads, y);
    AssemblyIsDualToGathering(n, mesh, Influenced(dependence), f, y, work);
    TotalCongruent(mesh, Influenced(dependence), influenced, work);
  }

  lemma {:induction false} TotalCongruent(mesh: seq<Element>, keep: Element -> bool, keep': Element -> bool,
                                          g: Element -> real)
    requires forall e <- mesh :: keep(e) == keep'(e)
    ensures Total(mesh, keep, g) == Total(mesh, keep', g)
  {
    if mesh != [] {
      TotalCongruent(mesh[..|mesh| - 1], keep, keep', g);
      assert mesh[|mesh| - 1] in mesh;
    }
  }

  /** dq/dX: every element contributes. */
  function OutputDerivative(n: nat, mesh: seq<Element>, ops: OutputOperations, x: seq<real>): seq<real>
    requires Fits(n, mesh, OnElement(ops.derivative, x))
  {
    Assembled(n, mesh, Always(), OnElement(ops.derivative, x))
  }

  /** The output sensitivity summed over the elements that are evaluated. */
  function DirectSensitivity(mesh: seq<Element>, dependence: ParameterDependence, ops: OutputOperations, x: seq<real>,
                             dx: Option<seq<real>>): real
  {
    Total(mesh, Evaluated(dependence, dx.Some?), SensitivityOn(ops, x, dx))
  }

  // ---------------------------------------------------------------------------------------------
  // The adjoint and the direct total derivative
  // ---------------------------------------------------------------------------------------------

  /** The element sensitivity is a total derivative: its part at zero solution sensitivity, which vanishes where the
      parameter has no influence, plus the element derivative along the solution sensitivity. */
  ghost predicate ObeysChainRule(mesh: seq<Element>, dependence: ParameterDependence, ops: OutputOperations,
                                 x: seq<real>) {
    forall e <- mesh ::
      && |OnElement(ops.derivative, x)(e)| == |e.dofs|
      && (!dependence.Influences(e) ==> SensitivityOn(ops, x, None)(e) == 0.0)
      && forall dx: seq<real> :: SensitivityOn(ops, x, Some(dx))(e)
           == SensitivityOn(ops, x, None)(e) + Pairing(OnElement(ops.derivative, x)(e), Gather(e.dofs, dx))
  }

  ghost predicate Solves(n: nat, k: Matrix, u: seq<real>, b: seq<real>) {
    && |u| == |b| == n
    && forall i | 0 <= i < n :: Apply(n, k, AsVector(u))(i) == b[i]
  }

  ghost predicate SolvesTransposed(n: nat, k: Matrix, u: seq<real>, b: seq<real>) {
    && |u| == |b| == n
    && forall i | 0 <= i < n :: ApplyTransposed(n, k, AsVector(u))(i) == b[i]
  }

  /** The linear solver is exact on this matrix. */
  ghost predicate SolvesExactly(n: nat, k: Matrix, solve: (Matrix, seq<real>) -> seq<real>) {
    forall b: seq<real> | |b| == n :: Solves(n, k, solve(k, b), b)
  }

  ghost predicate SolvesTransposedExactly(n: nat, k: Matrix, solve: (Matrix, seq<real>) -> seq<real>) {
    forall b: seq<real> | |b| == n :: SolvesTransposed(n, k, solve(k, b), b)
  }

  /** The derivative of an element's output along the solution sensitivity. */
  function Along(ops: OutputOperations, x: seq<real>, u: seq<real>): Element -> real {
    (e: Element) => Dot(|e.dofs|, AsVector(ops.derivative(e, Gather(e.dofs, x))), AsVector(Gather(e.dofs, u)))
  }

  /** The part of the total derivative lost on the elements that the override flag skips. */
  function Skipped(mesh: seq<Element>, dependence: ParameterDependence, ops: OutputOperations, x: seq<real>,
                   u: seq<real>): real {
    Total(mesh, e => !dependence.Evaluates(e, true), Along(ops, x, u))
  }

  /** Two solves with one matrix, on the right-hand sides -r and -d: the solutions pair crosswise. */
  lemma SolutionsPairCrosswise(n: nat, k: Matrix, u: seq<real>, adjoint: seq<real>, r: seq<real>, d: seq<real>)
    requires |r| == |d| == n
    requires Solves(n, k, u, Scaled(-1.0, r)) && SolvesTransposed(n, k, adjoint, Scaled(-1.0, d))
    ensures Pairing(adjoint, r) == Pairing(d, u)
  {
    DotTranspose(n, n, k, AsVector(u), AsVector(adjoint));
    DotScale(n, -1.0, AsVector(adjoint), AsVector(r), AsVector(adjoint), Apply(n, k, AsVector(u)));
    DotScale(n, -1.0, AsVector(d), AsVector(u), ApplyTransposed(n, k, AsVector(adjoint)), AsVector(u));
  }

  /** The direct total, completed by what the override flag skips, splits into partial and derivative parts. */
  lemma DirectSplits(mesh: seq<Element>, dependence: ParameterDependence, ops: OutputOperations, x: seq<real>,
                     u: seq<real>)
    requires ObeysChainRule(mesh, dependence, ops, x)
    ensures DirectSensitivity(mesh, dependence, ops, x, Some(u)) + Skipped(mesh, dependence, ops, x, u)
         == DirectSensitivity(mesh, dependence, ops, x, None) + Total(mesh, Always(), Along(ops, x, u))
  {
    hide Gather, Dot;
    TotalsSplit(mesh, Evaluated(dependence, true), SensitivityOn(ops, x, Some(u)),
                e => !dependence.Evaluates(e, true), Along(ops, x, u),
                Evaluated(dependence, false), SensitivityOn(ops, x, None), Always());
  }

  lemma {:induction false} TotalsSplit(mesh: seq<Element>, kept: Element -> bool, t: Element -> real,
                                       lost: Element -> bool,
                                       h: Element -> real, partialKept: Element -> bool, p: Element -> real,
                                       all: Element -> bool)
    requires forall e <- mesh :: kept(e) != lost(e) && all(e)
    requires forall e <- mesh :: kept(e) ==> t(e) == h(e) + if partialKept(e) then p(e) else 0.0
    requires forall e <- mesh :: lost(e) ==> !partialKept(e)
    ensures Total(mesh, kept, t) + Total(mesh, lost, h) == Total(mesh, partialKept, p) + Total(mesh, all, h)
  {
    if mesh != [] {
      var k := |mesh| - 1;
      TotalsSplit(mesh[..k], kept, t, lost, h, partialKept, p, all);
      assert mesh[k] in mesh;
    }
  }

  /** The direct and the adjoint total are the same. */
  ghost predicate RoutesAgree(mesh: seq<Element>, dependence: ParameterDependence, ops: OutputOperations, x: seq<real>,
                              r: seq<real>, u: seq<real>, adjoint: seq<real>)
    requires |r| == |adjoint|
  {
    DirectSensitivity(mesh, dependence, ops, x, Some(u))
    == Pairing(adjoint, r) + DirectSensitivity(mesh, dependence, ops, x, None)
  }

  /** With exact solves, for any connectivity: the direct total plus what the override flag skips is the adjoint total.
      The two routes agree exactly when the skipped part sums to zero. */
  lemma AdjointEqualsDirect(n: nat, mesh: seq<Element>, dependence: ParameterDependence, ops: OutputOperations,
                            k: Matrix, x: seq<real>, r: seq<real>, u: seq<real>, adjoint: seq<real>)
    requires |r| == n && Fits(n, mesh, OnElement(ops.derivative, x)) && ObeysChainRule(mesh, dependence, ops, x)
    requires Solves(n, k, u, Scaled(-1.0, r))
    requires SolvesTransposed(n, k, adjoint, Scaled(-1.0, OutputDerivative(n, mesh, ops, x)))
    ensures DirectSensitivity(mesh, dependence, ops, x, Some(u)) + Skipped(mesh, dependence, ops, x, u)
         == Pairing(adjoint, r) + DirectSensitivity(mesh, dependence, ops, x, None)
    ensures RoutesAgree(mesh, dependence, ops, x, r, u, adjoint) <==> Skipped(mesh, dependence, ops, x, u) == 0.0
  {
    DirectSplits(mesh, dependence, ops, x, u);
    SolutionsPairCrosswise(n, k, u, adjoint, r, OutputDerivative(n, mesh, ops, x));
    forall e <- mesh
      ensures Along(ops, x, u)(e) == Pairing(OnElement(ops.derivative, x)(e), Gather(e.dofs, u))
    {
    }
    AssemblyIsDualToGathering(n, mesh, Always(), OnElement(ops.derivative, x), u, Along(ops, x, u));
    hide *;
  }

  /** The gathered solution sensitivity is zero on every element that is not evaluated. Without a dependence object, or
      with its override flag off, every element is evaluated. */
  predicate VanishesWhereSkipped(mesh: seq<Element>, dependence: ParameterDependence, u: seq<real>) {
    forall e <- mesh | dependence.Dependence? && dependence.overrideFlag && !dependence.dependsOn(e) ::
      forall k | 0 <= k < |e.dofs| :: At(u, e.dofs[k]) == 0.0
  }

  lemma GatheredZeros(dofs: seq<nat>, u: seq<real>)
    ensures Gather(dofs, u) == Zeros(|dofs|) <==> forall k | 0 <= k < |dofs| :: At(u, dofs[k]) == 0.0
  {
    hide At;
    var g, z := Gather(dofs, u), Zeros(|dofs|);
    assert forall k | 0 <= k < |dofs| :: g[k] == At(u, dofs[k]) && z[k] == 0.0;
  }

  lemma NothingSkipped(mesh: seq<Element>, dependence: ParameterDependence, ops: OutputOperations, x: seq<real>,
                       u: seq<real>)
    requires VanishesWhereSkipped(mesh, dependence, u)
    ensures Skipped(mesh, dependence, ops, x, u) == 0.0
  {
    forall e <- mesh | !dependence.Evaluates(e, true)
      ensures Along(ops, x, u)(e) == 0.0
    {
      GatheredZeros(e.dofs, u);
      DotZero(|e.dofs|, AsVector(ops.derivative(e, Gather(e.dofs, x))), AsVector(Zeros(|e.dofs|)));
    }
    TotalVanishes(mesh, e => !dependence.Evaluates(e, true), Along(ops, x, u));
  }

  /** The output whose derivative is g on element e and zero elsewhere. */
  function Probe(e: Element, g: seq<real>): OutputOperations {
    OutputOperations((d: Element, x) => if d == e then g else Zeros(|d.dofs|),
                     (d: Element, x, dx) => if d == e then Dot(|g|, AsVector(g), AsVector(dx)) else 0.0)
  }

  lemma ProbeOnElement(d: Element, e: Element, g: seq<real>, x: seq<real>, dx: Option<seq<real>>)
    requires |g| == |e.dofs|
    ensures OnElement(Probe(e, g).derivative, x)(d) == if d == e then g else Zeros(|d.dofs|)
    ensures SensitivityOn(Probe(e, g), x, dx)(d)
         == if dx.None? then 0.0 else Pairing(OnElement(Probe(e, g).derivative, x)(d), Gather(d.dofs, dx.value))
  {
    var zeros, ds := Zeros(|d.dofs|), GatheredOrZero(d.dofs, dx);
    assert SensitivityOn(Probe(e, g), x, dx)(d) == Probe(e, g).sensitivity(d, Gather(d.dofs, x), ds);
    DotZero(|g|, AsVector(g), AsVector(Zeros(|g|)));
    DotZero(|d.dofs|, AsVector(zeros), AsVector(ds));
    hide Dot;
  }

  lemma ProbeObeysChainRule(mesh: seq<Element>, dependence: ParameterDependence, e: Element, g: seq<real>, x: seq<real>)
    requires |g| == |e.dofs|
    ensures ObeysChainRule(mesh, dependence, Probe(e, g), x)
  {
    hide Dot, SensitivityOn, Probe;
    var ops := Probe(e, g);
    forall d <- mesh
      ensures |OnElement(ops.derivative, x)(d)| == |d.dofs| && SensitivityOn(ops, x, None)(d) == 0.0
      ensures forall dx: seq<real> ::
                SensitivityOn(ops, x, Some(dx))(d) == Pairing(OnElement(ops.derivative, x)(d), Gather(d.dofs, dx))
    {
      ProbeOnElement(d, e, g, x, None);
      forall dx: seq<real>
        ensures SensitivityOn(ops, x, Some(dx))(d) == Pairing(OnElement(ops.derivative, x)(d), Gather(d.dofs, dx))
      {
        ProbeOnElement(d, e, g, x, Some(dx));
      }
    }
  }

  /** Probed with its own gathered solution sensitivity, a skipped element is missed unless that is zero. */
  lemma ProbeIsSkipped(mesh: seq<Element>, dependence: ParameterDependence, e: Element, x: seq<real>, u: seq<real>)
    requires e in mesh && !dependence.Evaluates(e, true) && Gather(e.dofs, u) != Zeros(|e.dofs|)
    ensures Skipped(mesh, dependence, Probe(e, Gather(e.dofs, u)), x, u) > 0.0
  {
    var g := Gather(e.dofs, u);
    var h := Along(Probe(e, g), x, u);
    forall d <- mesh
      ensures h(d) >= 0.0 && (d == e ==> h(d) > 0.0)
    {
      if d == e {
        DotSquare(|g|, AsVector(g));
        var i :| 0 <= i < |g| && g[i] != Zeros(|g|)[i];
        assert AsVector(g)(i) == g[i];
      } else {
        DotZero(|d.dofs|, AsVector(Zeros(|d.dofs|)), AsVector(Gather(d.dofs, u)));
      }
    }
    TotalIsPositive(mesh, e => !dependence.Evaluates(e, true), h, e);
  }

  lemma {:induction false} TotalIsPositive(mesh: seq<Element>, keep: Element -> bool, g: Element -> real, e: Element)
    requires forall d <- mesh :: g(d) >= 0.0
    ensures Total(mesh, keep, g) >= 0.0
    ensures e in mesh && keep(e) && g(e) > 0.0 ==> Total(mesh, keep, g) > 0.0
  {
    if mesh != [] {
      var k := |mesh| - 1;
      TotalIsPositive(mesh[..k], keep, g, e);
      assert mesh[k] in mesh;
      assert mesh == mesh[..k] + [mesh[k]];
    }
  }

  /** The exact condition, on mesh, dependence and solution sensitivity alone: the two routes agree for every output
      that obeys the chain rule if and only if the gathered solution sensitivity is zero on every skipped element. */
  lemma RoutesAgreeForEveryOutput(n: nat, mesh: seq<Element>, dependence: ParameterDependence, k: Matrix,
                                  adjointSolve: (Matrix, seq<real>) -> seq<real>, x: seq<real>, r: seq<real>,
                                  u: seq<real>)
    requires |r| == n && (forall e <- mesh :: Within(n, e.dofs)) && Solves(n, k, u, Scaled(-1.0, r))
    requires SolvesTransposedExactly(n, k, adjointSolve)
    ensures (forall ops: OutputOperations | Fits(n, mesh, OnElement(ops.derivative, x))
             && ObeysChainRule(mesh, dependence, ops, x) ::
               var adjoint := adjointSolve(k, Scaled(-1.0, OutputDerivative(n, mesh, ops, x)));
               |adjoint| == n && RoutesAgree(mesh, dependence, ops, x, r, u, adjoint))
       <==> VanishesWhereSkipped(mesh, dependence, u)
  {
    hide Skipped, RoutesAgree, ObeysChainRule, Probe, Solves;
    forall ops: OutputOperations | Fits(n, mesh, OnElement(ops.derivative, x))
      && ObeysChainRule(mesh, dependence, ops, x)
      ensures var adjoint := adjointSolve(k, Scaled(-1.0, OutputDerivative(n, mesh, ops, x)));
              && |adjoint| == n
              && (RoutesAgree(mesh, dependence, ops, x, r, u, adjoint) <==> Skipped(mesh, dependence, ops, x, u) == 0.0)
    {
      var b := Scaled(-1.0, OutputDerivative(n, mesh, ops, x));
      assert SolvesTransposed(n, k, adjointSolve(k, b), b);
      AdjointEqualsDirect(n, mesh, dependence, ops, k, x, r, u, adjointSolve(k, b));
    }
    if VanishesWhereSkipped(mesh, dependence, u) {
      forall ops: OutputOperations | Fits(n, mesh, OnElement(ops.derivative, x))
        && ObeysChainRule(mesh, dependence, ops, x)
        ensures Skipped(mesh, dependence, ops, x, u) == 0.0
      {
        NothingSkipped(mesh, dependence, ops, x, u);
      }
    } else {
      var e :| e in mesh && !dependence.Evaluates(e, true) && !forall k | 0 <= k < |e.dofs| :: At(u, e.dofs[k]) == 0.0;
      GatheredZeros(e.dofs, u);
      var ops := Probe(e, Gather(e.dofs, u));
      ProbeObeysChainRule(mesh, dependence, e, Gather(e.dofs, u), x);
      ProbeFits(n, mesh, e, Gather(e.dofs, u), x);
      ProbeIsSkipped(mesh, dependence, e, x, u);
    }
  }

  lemma ProbeFits(n: nat, mesh: seq<Element>, e: Element, g: seq<real>, x: seq<real>)
    requires |g| == |e.dofs| && forall d <- mesh :: Within(n, d.dofs)
    ensures Fits(n, mesh, OnElement(Probe(e, g).derivative, x))
  {
  }

  const LONE := Element(0, [0])

  /** An output that is the one dof of the lone element, which the parameter does not influence. */
  function LoneOutput(): OutputOperations {
    OutputOperations((e, x) => [1.0], (e, x, dx) => At(dx, 0))
  }

  function LoneDependence(): ParameterDependence {
    Dependence(e => false, true)
  }

  lemma PairingOfOne(a: real, b: real)
    ensures Pairing([a], [b]) == a * b
  {
    assert Dot(1, AsVector([a]), AsVector([b])) == Dot(0, AsVector([a]), AsVector([b])) + a * b;
  }

  lemma LoneChainRule(x: seq<real>)
    ensures ObeysChainRule([LONE], LoneDependence(), LoneOutput(), x)
  {
    var g := SensitivityOn(LoneOutput(), x, None);
    assert LONE.dofs == [0];
    assert forall s, ds :: LoneOutput().sensitivity(LONE, s, ds) == At(ds, 0);
    assert g(LONE) == LoneOutput().sensitivity(LONE, Gather(LONE.dofs, x), GatheredOrZero(LONE.dofs, None));
    assert g(LONE) == At(GatheredOrZero(LONE.dofs, None), 0);
    forall dx: seq<real>
      ensures SensitivityOn(LoneOutput(), x, Some(dx))(LONE)
           == g(LONE) + Pairing(OnElement(LoneOutput().derivative, x)(LONE), Gather(LONE.dofs, dx))
    {
      assert Gather([0], dx) == [At(dx, 0)];
      PairingOfOne(1.0, At(dx, 0));
      var gathered := GatheredOrZero(LONE.dofs, Some(dx));
      assert SensitivityOn(LoneOutput(), x, Some(dx))(LONE) == LoneOutput().sensitivity(LONE, Gather(LONE.dofs, x),
            gathered);
      assert gathered == [At(dx, 0)];
    }
  }

  lemma LoneDerivative(x: seq<real>)
    ensures Fits(1, [LONE], OnElement(LoneOutput().derivative, x))
    ensures OutputDerivative(1, [LONE], LoneOutput(), x) == [1.0]
  {
    var f := OnElement(LoneOutput().derivative, x);
    assert [LONE][..0] == [];
    assert Assembled(1, [LONE], Always(), f) == AddEntries(Zeros(1), [0], [1.0]);
    assert [0][..0] == [] && [1.0][..0] == [];
    assert AddEntries(Zeros(1), [0], [1.0]) == Zeros(1)[0 := 0.0 + 1.0];
  }

  lemma LoneSolves(k: Matrix, b: real)
    requires k(0, 0) == 1.0
    ensures Solves(1, k, [b], [b]) && SolvesTransposed(1, k, [b], [b])
  {
    assert Dot(1, Row(k, 0), AsVector([b])) == Dot(0, Row(k, 0), AsVector([b])) + 1.0 * b;
    assert Dot(1, Column(k, 0), AsVector([b])) == Dot(0, Column(k, 0), AsVector([b])) + 1.0 * b;
  }

  lemma LoneTotals(x: seq<real>, u: seq<real>)
    ensures DirectSensitivity([LONE], LoneDependence(), LoneOutput(), x, Some(u)) == 0.0
    ensures DirectSensitivity([LONE], LoneDependence(), LoneOutput(), x, None) == 0.0
  {
    TotalVanishes([LONE], Evaluated(LoneDependence(), true), SensitivityOn(LoneOutput(), x, Some(u)));
    TotalVanishes([LONE], Evaluated(LoneDependence(), false), SensitivityOn(LoneOutput(), x, None));
  }

  const LONE_LOAD := NodalLoad([0], [-1.0])

  lemma LoneResidualSensitivity(assembly: Assembly, elemOps: ElementVector, x: seq<real>)
    requires assembly.nDofs == 1 && assembly.mesh == [LONE] && assembly.loads == [LONE_LOAD]
    requires assembly.paramDependence == LoneDependence()
    requires Fits(1, [LONE], OnElement(elemOps, x))
    ensures assembly.ResidualSensitivity(elemOps, x) == [1.0]
  {
    var f, keep := OnElement(elemOps, x), Influenced(LoneDependence());
    assert [LONE][..0] == [] && !keep(LONE);
    assert Assembled(1, [LONE], keep, f) == Zeros(1);
    assert [LONE_LOAD][..0] == [] && Scaled(-1.0, [-1.0]) == [1.0];
    assert WithLoads(Zeros(1), [LONE_LOAD]) == AddEntries(Zeros(1), [0], [1.0]);
    assert [0][..0] == [] && [1.0][..0] == [];
    assert AddEntries(Zeros(1), [0], [1.0]) == Zeros(1)[0 := 0.0 + 1.0];
  }

  /** Where the flag's assumption fails it loses the derivative: one element that the parameter does not influence,
      whose dof still moves because the parameter scales a point load on it. The direct total is 0 and the adjoint total
      -1. */
  lemma OverrideFlagLosesDerivative(assembly: Assembly, elemOps: ElementVector, x: seq<real>, k: Matrix)
    requires assembly.nDofs == 1 && assembly.mesh == [LONE] && assembly.loads == [LONE_LOAD]
    requires assembly.paramDependence == LoneDependence()
    requires Fits(1, [LONE], OnElement(elemOps, x)) && k(0, 0) == 1.0
    ensures Fits(1, [LONE], OnElement(LoneOutput().derivative, x))
    ensures ObeysChainRule([LONE], LoneDependence(), LoneOutput(), x)
    ensures Solves(1, k, [-1.0], Scaled(-1.0, assembly.ResidualSensitivity(elemOps, x)))
    ensures SolvesTransposed(1, k, [-1.0], Scaled(-1.0, OutputDerivative(1, [LONE], LoneOutput(), x)))
    ensures DirectSensitivity([LONE], LoneDependence(), LoneOutput(), x, Some([-1.0])) == 0.0
    ensures Pairing([-1.0], assembly.ResidualSensitivity(elemOps, x))
            + DirectSensitivity([LONE], LoneDependence(), LoneOutput(), x, None) == -1.0
  {
    LoneResidualSensitivity(assembly, elemOps, x);
    hide Pairing, DirectSensitivity, OutputDerivative, ObeysChainRule, Solves, SolvesTransposed, LoneOutput,
         LoneDependence, Fits, Assembly.ResidualSensitivity;
    LoneChainRule(x);
    LoneDerivative(x);
    assert Scaled(-1.0, [1.0]) == [-1.0];
    LoneSolves(k, -1.0);
    LoneTotals(x, [-1.0]);
    PairingOfOne(-1.0, 1.0);
  }

  lemma {:induction false} TotalVanishes(mesh: seq<Element>, keep: Element -> bool, g: Element -> real)
    requires forall e <- mesh | keep(e) :: g(e) == 0.0
    ensures Total(mesh, keep, g) == 0.0
  {
    if mesh != [] {
      TotalVanishes(mesh[..|mesh| - 1], keep, g);
      assert mesh[|mesh| - 1] in mesh;
    }
  }

  // ---------------------------------------------------------------------------------------------
  // The output, the assembly and the system
  // ---------------------------------------------------------------------------------------------

  class Output {
    const ops: OutputOperations
    var total: real

    constructor (ops: OutputOperations)
      ensures this.ops == ops && total == 0.0
    {
      this.ops := ops;
      total := 0.0;
    }

    method ZeroForSensitivity()
      modifies this
      ensures total == 0.0
    {
      total := 0.0;
    }

    method EvaluateSensitivity(e: Element, sol: seq<real>, dsol: seq<real>)
      modifies this
      ensures total == old(total) + ops.sensitivity(e, sol, dsol)
    {
      total := total + ops.sensitivity(e, sol, dsol);
    }
  }

  class Assembly {
    const nDofs: nat
    const mesh: seq<Element>
    const loads: seq<NodalLoad>
    var paramDependence: ParameterDependence

    constructor (nDofs: nat, mesh: seq<Element>, loads: seq<NodalLoad>)
      ensures this.nDofs == nDofs && this.mesh == mesh && this.loads == loads && paramDependence == NoDependence
    {
      this.nDofs, this.mesh, this.loads := nDofs, mesh, loads;
      paramDependence := NoDependence;
    }

    /** dR/dp at x, point loads included. */
    ghost function ResidualSensitivity(elemOps: ElementVector, x: seq<real>): (r: seq<real>)
      requires Fits(nDofs, mesh, OnElement(elemOps, x))
      requires forall l <- loads :: Within(nDofs, l.dofs) && |l.derivative| == |l.dofs|
      reads this
      ensures |r| == nDofs
    {
      WithLoads(Assembled(nDofs, mesh, Influenced(paramDependence), OnElement(elemOps, x)), loads)
    }

    /** Against any vector, dR/dp contributes what the influenced elements do, each on the solution at its dofs, less
        what all point loads do. */
    lemma ResidualSensitivityPairs(elemOps: ElementVector, x: seq<real>, y: seq<real>, influenced: Element -> bool,
                                   work: Element -> real)
      requires |y| == nDofs && forall e <- mesh :: Within(nDofs, e.dofs) && |elemOps(e, Gather(e.dofs, x))| == |e.dofs|
      requires forall l <- loads :: Within(nDofs, l.dofs) && |l.derivative| == |l.dofs|
      requires forall e <- mesh :: influenced(e) <==> paramDependence.NoDependence? || paramDependence.dependsOn(e)
      requires forall e <- mesh :: work(e) == Pairing(elemOps(e, Gather(e.dofs, x)), Gather(e.dofs, y))
      ensures Fits(nDofs, mesh, OnElement(elemOps, x))
      ensures Pairing(ResidualSensitivity(elemOps, x), y) == Total(mesh, influenced, work) - LoadWork(loads, y)
    {
      hide WithLoads, LoadWork, Assembled, Pairing, Gather;
      AssembledWithLoadsPairs(nDofs, mesh, loads, paramDependence, elemOps, x, y, influenced, work);
    }

    method SensitivityAssemble(elemOps: ElementVector, solution: array<real>, rhs: array<real>)
      requires solution != rhs && solution.Length == nDofs && rhs.Length == nDofs
      requires Fits(nDofs, mesh, OnElement(elemOps, solution[..]))
      requires forall l <- loads :: Within(nDofs, l.dofs) && |l.derivative| == |l.dofs|
      modifies rhs
      ensures rhs[..] == ResidualSensitivity(elemOps, solution[..])
    {
      hide AddEntries;
      SetZero(rhs);
      ghost var keep, f := Influenced(paramDependence), OnElement(elemOps, solution[..]);
      for i := 0 to |mesh|
        invariant rhs[..] == Assembled(nDofs, mesh[..i], keep, f)
      {
        var e := mesh[i];
        assert mesh[..i + 1][..i] == mesh[..i] && e in mesh;
        if paramDependence.Dependence? && !paramDependence.dependsOn(e) {
          continue;
        }
        var sol := GatherInto(e.dofs, solution);
        AddVector(rhs, e.dofs, elemOps(e, sol));
      }
      assert mesh[..|mesh|] == mesh;
      ghost var r := rhs[..];
      for i := 0 to |loads|
        invariant rhs[..] == WithLoads(r, loads[..i])
      {
        var l := loads[i];
        assert loads[..i + 1][..i] == loads[..i] && l in loads;
        AddVector(rhs, l.dofs, Scaled(-1.0, l.derivative));
      }
      assert loads[..|loads|] == loads;
    }

    method CalculateOutputDerivative(x: array<real>, output: Output, dq_dX: array<real>)
      requires x != dq_dX && x.Length == nDofs && dq_dX.Length == nDofs
      requires Fits(nDofs, mesh, OnElement(output.ops.derivative, x[..]))
      modifies output, dq_dX
      ensures dq_dX[..] == OutputDerivative(nDofs, mesh, output.ops, x[..])
      ensures output.total == 0.0
    {
      hide AddEntries;
      output.ZeroForSensitivity();
      SetZero(dq_dX);
      ghost var f := OnElement(output.ops.derivative, x[..]);
      for i := 0 to |mesh|
        invariant dq_dX[..] == Assembled(nDofs, mesh[..i], Always(), f)
        invariant output.total == 0.0
      {
        var e := mesh[i];
        assert mesh[..i + 1][..i] == mesh[..i] && e in mesh;
        var sol := GatherInto(e.dofs, x);
        AddVector(dq_dX, e.dofs, output.ops.derivative(e, sol));
      }
      assert mesh[..|mesh|] == mesh;
    }

    /** The direct route; a null dXdp leaves only the partial derivative. */
    method CalculateOutputDirectSensitivity(x: array<real>, dXdp: array?<real>, output: Output)
      requires x.Length == nDofs && (dXdp != null ==> dXdp.Length == nDofs)
      requires forall e <- mesh :: Within(nDofs, e.dofs)
      modifies output
      ensures output.total == DirectSensitivity(mesh, paramDependence, output.ops, x[..],
                                                if dXdp == null then None else Some(dXdp[..]))
    {
      output.ZeroForSensitivity();
      ghost var dx := if dXdp == null then None else Some(dXdp[..]);
      ghost var keep, g := Evaluated(paramDependence, dx.Some?), SensitivityOn(output.ops, x[..], dx);
      for i := 0 to |mesh|
        invariant output.total == Total(mesh[..i], keep, g)
      {
        var e := mesh[i];
        assert mesh[..i + 1][..i] == mesh[..i] && e in mesh;
        if paramDependence.Dependence? && !paramDependence.dependsOn(e)
           && (dXdp == null || (dXdp != null && paramDependence.overrideFlag)) {
          continue;
        }
        var sol := GatherInto(e.dofs, x);
        var dsol := Zeros(|e.dofs|);
        if dXdp != null {
          dsol := GatherInto(e.dofs, dXdp);
        }
        assert keep(e) && dsol == GatheredOrZero(e.dofs, dx) && g(e) == output.ops.sensitivity(e, sol, dsol);
        output.EvaluateSensitivity(e, sol, dsol);
      }
      assert mesh[..|mesh|] == mesh;
    }

    /** The adjoint route. The residual sensitivity is taken at the system's own solution. */
    method CalculateOutputAdjointSensitivity(system: LinearisedSystem, x: array<real>, dq_dX: array<real>,
                                             elemOps: ElementVector,
                                             output: Output, includePartialSens: bool) returns (dq_dp: real)
      requires system.Valid() && system.nDofs == nDofs && x.Length == nDofs && dq_dX.Length == nDofs
      requires x != system.sensitivityRhs && dq_dX != system.sensitivityRhs
      requires Fits(nDofs, mesh, OnElement(elemOps, system.solution[..]))
      requires forall l <- loads :: Within(nDofs, l.dofs) && |l.derivative| == |l.dofs|
      modifies system.sensitivityRhs, output
      ensures dq_dp == Pairing(dq_dX[..], ResidualSensitivity(elemOps, system.solution[..]))
                       + if includePartialSens then DirectSensitivity(mesh, paramDependence, output.ops, x[..], None)
                         else 0.0
    {
      hide AddEntries, Assembled, Total, WithLoads;
      SensitivityAssemble(elemOps, system.solution, system.sensitivityRhs);
      dq_dp := Pairing(dq_dX[..], system.sensitivityRhs[..]);
      if includePartialSens {
        CalculateOutputDirectSensitivity(x, null, output);
        dq_dp := dq_dp + output.total;
      }
    }
  }

  /** The part of the nonlinear system that the two linear solves use. */
  class LinearisedSystem {
    const nDofs: nat
    const solution: array<real>
    const sensitivitySolution: array<real>
    const sensitivityRhs: array<real>
    const adjointSolution: array<real>
    const adjointRhs: array<real>
    var matrix: Matrix
    var operation: Operation

    ghost predicate Valid()
      reads this
    {
      && solution.Length == nDofs && sensitivitySolution.Length == nDofs && sensitivityRhs.Length == nDofs
      && adjointSolution.Length == nDofs && adjointRhs.Length == nDofs
      && solution !in {sensitivitySolution, sensitivityRhs, adjointSolution, adjointRhs}
      && sensitivitySolution != sensitivityRhs && adjointSolution != adjointRhs
    }

    constructor (nDofs: nat, matrix: Matrix)
      ensures Valid() && this.nDofs == nDofs && operation == Idle
      ensures fresh(solution) && fresh(sensitivitySolution) && fresh(sensitivityRhs) && fresh(adjointSolution)
              && fresh(adjointRhs)
    {
      this.nDofs, this.matrix, operation := nDofs, matrix, Idle;
      solution := new real[nDofs];
      sensitivitySolution := new real[nDofs];
      sensitivityRhs := new real[nDofs];
      adjointSolution := new real[nDofs];
      adjointRhs := new real[nDofs];
    }

    /** Leaves K u = -dR/dp in the sensitivity solution, K being the matrix assembled at the solution or the one kept.
        */
    method SensitivitySolve(assembly: Assembly, elemOps: ElementVector, jacobian: seq<real> -> Matrix,
                            ifAssembleJacobian: bool,
                            solve: (Matrix, seq<real>) -> seq<real>)
      requires Valid() && operation == Idle && assembly.nDofs == nDofs
      requires Fits(nDofs, assembly.mesh, OnElement(elemOps, solution[..]))
      requires forall l <- assembly.loads :: Within(nDofs, l.dofs) && |l.derivative| == |l.dofs|
      requires SolvesExactly(nDofs, if ifAssembleJacobian then jacobian(solution[..]) else matrix, solve)
      modifies this, sensitivitySolution, sensitivityRhs
      ensures Valid() && operation == Idle
      ensures matrix == if ifAssembleJacobian then jacobian(solution[..]) else old(matrix)
      ensures sensitivityRhs[..] == Scaled(-1.0, assembly.ResidualSensitivity(elemOps, solution[..]))
      ensures Solves(nDofs, matrix, sensitivitySolution[..], sensitivityRhs[..])
    {
      hide Solves, AddEntries, Assembled;
      operation := ForwardSensitivitySolve;
      if ifAssembleJacobian {
        matrix := jacobian(solution[..]);
      }
      assembly.SensitivityAssemble(elemOps, solution, sensitivityRhs);
      ScaleInPlace(sensitivityRhs, -1.0);
      var u := solve(matrix, sensitivityRhs[..]);
      SolutionLength(nDofs, matrix, u, sensitivityRhs[..]);
      CopyInto(sensitivitySolution, u);
      operation := Idle;
    }

    /** Leaves K^T a = -dq/dX in the adjoint solution. */
    method AdjointSolve(assembly: Assembly, output: Output, jacobian: seq<real> -> Matrix, ifAssembleJacobian: bool,
                        adjointSolve: (Matrix, seq<real>) -> seq<real>)
      requires Valid() && operation == Idle && assembly.nDofs == nDofs
      requires Fits(nDofs, assembly.mesh, OnElement(output.ops.derivative, solution[..]))
      requires SolvesTransposedExactly(nDofs, if ifAssembleJacobian then jacobian(solution[..])
                                       else matrix, adjointSolve)
      modifies this, adjointSolution, adjointRhs, output
      ensures Valid() && operation == Idle
      ensures matrix == if ifAssembleJacobian then jacobian(solution[..]) else old(matrix)
      ensures adjointRhs[..] == Scaled(-1.0, OutputDerivative(nDofs, assembly.mesh, output.ops, solution[..]))
      ensures SolvesTransposed(nDofs, matrix, adjointSolution[..], adjointRhs[..])
    {
      hide SolvesTransposed, AddEntries, Assembled;
      operation := Operation.AdjointSolve;
      if ifAssembleJacobian {
        matrix := jacobian(solution[..]);
      }
      assembly.CalculateOutputDerivative(solution, output, adjointRhs);
      ScaleInPlace(adjointRhs, -1.0);
      var u := adjointSolve(matrix, adjointRhs[..]);
      AdjointLength(nDofs, matrix, u, adjointRhs[..]);
      CopyInto(adjointSolution, u);
      operation := Idle;
    }
  }

  lemma SolutionLength(n: nat, k: Matrix, u: seq<real>, b: seq<real>)
    requires Solves(n, k, u, b)
    ensures |u| == n
  {
  }

  lemma AdjointLength(n: nat, k: Matrix, u: seq<real>, b: seq<real>)
    requires SolvesTransposed(n, k, u, b)
    ensures |u| == n
  {
  }
}
