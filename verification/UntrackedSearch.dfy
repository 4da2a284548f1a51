/** The search for the critical root without mode tracking: a march to the first unstable velocity, then a
    refinement of the bracket with a damped linear interpolation towards a small positive damping. */
module UntrackedSearch {
  import opened Scalars
  import opened ComplexAlgebra
  import opened OrderedContainers
  import opened FlutterRoots
  import opened RegulaFalsi
  import opened CrossoverSearch
  import opened VelocitySweep

  /** The damping the refinement aims at. */
  const TARGET := 0.0001

  predicate HasUpperHalf(roots: seq<FlutterRoot>) {
    exists r :: r in roots && InUpperHalf(r)
  }

  function CriticalDamping(tol: real, roots: seq<FlutterRoot>): real {
    var c := CriticalIndex(tol, roots);
    if c >= 0 then roots[c].root.re else 0.0
  }

  predicate Unstable(tol: real, roots: seq<FlutterRoot>) {
    CountUnstable(tol, roots, |roots|) > 0
  }

  // ---------------------------------------------------------------------------------------------
  // The march
  // ---------------------------------------------------------------------------------------------

  /** The first step from j on that is unstable or reaches the upper velocity. */
  function Stop(m: Sweep, env: Analysis, tol: real, j: nat): (k: nat)
    requires 0 < j <= m.divs
    ensures j <= k <= m.divs
    decreases m.divs - j
  {
    if j == m.divs || m.V(j) >= m.hi || Unstable(tol, m.Roots(env, j)) then j else Stop(m, env, tol, j + 1)
  }

  /** The march ends within the divisions, at the first unstable step or at the upper velocity, which between ascending
      limits is reached after all divisions. */
  lemma {:induction false} StopIsFirstUnstable(m: Sweep, env: Analysis, tol: real, j: nat)
    requires 0 < j <= m.divs
    ensures var k := Stop(m, env, tol, j);
            && (forall i | j <= i < k :: !Unstable(tol, m.Roots(env, i)))
            && (Unstable(tol, m.Roots(env, k)) || m.V(k) >= m.hi)
            && (m.lo < m.hi ==> Unstable(tol, m.Roots(env, k)) || k == m.divs)
    decreases m.divs - j
  {
    SweepSteps(m, j);
    if m.lo < m.hi {
      SweepAscends(m, j);
    }
    hide Sweep.V, Unstable;
    if j < m.divs && m.V(j) < m.hi && !Unstable(tol, m.Roots(env, j)) {
      StopIsFirstUnstable(m, env, tol, j + 1);
    }
  }

  // ---------------------------------------------------------------------------------------------
  // The refinement
  // ---------------------------------------------------------------------------------------------

  function DampedZero(lowerV: real, lowerG: real, upperV: real, upperG: real): real
    requires upperG != lowerG
  {
    upperV + 0.5 * (upperV - lowerV) / (upperG - lowerG) * (TARGET - upperG)
  }

  function DampedTrial(b: Bracket): real
    requires b.upperG != b.lowerG
  {
    DampedZero(b.lowerV, b.lowerG, b.upperV, b.upperG)
  }

  function Middle(b: Bracket): real {
    0.5 * (b.lowerV + b.upperV)
  }

  /** The lower end is below the target damping and the upper end above it. */
  predicate AroundTarget(b: Bracket) {
    b.lowerV < b.upperV && b.lowerG < TARGET < b.upperG
  }

  /** The refinement velocity lies strictly between the middle of the bracket and its upper end exactly when the
      target damping lies strictly between the dampings at the ends. */
  lemma DampedTrialInside(b: Bracket)
    requires b.lowerV < b.upperV && b.lowerG < b.upperG
    ensures Middle(b) < DampedTrial(b) < b.upperV <==> b.lowerG < TARGET < b.upperG
    ensures b.upperG < TARGET ==> DampedTrial(b) > b.upperV
  {
    var h, w := 0.5 * (b.upperV - b.lowerV), b.upperG - b.lowerG;
    var q := h / w;
    StepsScale(h, w);
    assert DampedTrial(b) == b.upperV + Mul(q, TARGET - b.upperG);
    assert DampedTrial(b) - Middle(b) == Mul(q, TARGET - b.lowerG) by {
      assert Mul(q, TARGET - b.lowerG) == q * w + Mul(q, TARGET - b.upperG);
    }
    hide Mul;
  }

  /** The value at v of the line through the two ends of the bracket. */
  function Line(b: Bracket, v: real): real
    requires b.upperV != b.lowerV
  {
    b.lowerG + (v - b.lowerV) * ((b.upperG - b.lowerG) / (b.upperV - b.lowerV))
  }

  /** The refinement velocity is halfway from the upper end to the point at which the line through both ends reaches a
      damping of 1e-4, and no other velocity is. */
  lemma DampedTrialIsHalfway(b: Bracket, v: real)
    requires b.upperV != b.lowerV && b.upperG != b.lowerG
    ensures v == DampedTrial(b) <==> Line(b, 2.0 * v - b.upperV) == 0.0001
  {
    var h, w := b.upperV - b.lowerV, b.upperG - b.lowerG;
    var s, q := w / h, 0.5 * h / w;
    assert s * h == w && q * w == 0.5 * h;
    assert DampedTrial(b) == b.upperV + Mul(q, TARGET - b.upperG);
    var d := 2.0 * v - 2.0 * b.upperV;
    assert (d + h) * s == d * s + h * s;
    assert Line(b, 2.0 * v - b.upperV) == b.upperG + d * s;
    OnLine(s, h, w, q, d, TARGET - b.upperG);
    hide Mul;
  }

  lemma OnLine(s: real, h: real, w: real, q: real, d: real, e: real)
    requires s * h == w && q * w == 0.5 * h && h != 0.0 && w != 0.0
    ensures d * s == e <==> 0.5 * d == Mul(q, e)
  {
    assert 2.0 * q * s == 1.0 by {
      assert (2.0 * q * s - 1.0) * h == 2.0 * (q * (s * h)) - h;
      assert (2.0 * q * s - 1.0) * h == 0.0;
    }
    if d * s == e {
      assert q * e == (q * s) * d;
    }
    if 0.5 * d == Mul(q, e) {
      assert d * s == (2.0 * q * s) * e;
    }
  }

  predicate Accepted(tol: real, g: real) {
    0.0 < g <= tol
  }

  /** The solutions the refinement analyses, each sorted against the one before. It stops on acceptance, on the
      iteration limit, or when both ends have the same damping and the interpolation is undefined. */
  function Refine(env: Analysis, tol: real, b: Bracket, prev: seq<FlutterRoot>, iters: nat): (s: seq<Solution>)
    ensures |s| <= iters
    decreases iters
  {
    if iters == 0 || b.upperG == b.lowerG then []
    else
      var v := DampedTrial(b);
      var roots := env.At(v, prev);
      var g := CriticalDamping(tol, roots);
      if Accepted(tol, g) then [Solution(v, roots)]
      else [Solution(v, roots)] + Refine(env, tol, Narrow(b, v, g), roots, iters - 1)
  }

  /** The bracket before the k-th refinement step. */
  function BracketAt(tol: real, b: Bracket, s: seq<Solution>, k: nat): Bracket
    requires k <= |s|
    decreases k
  {
    if k == 0 then b
    else BracketAt(tol, Narrow(b, s[0].refVal, CriticalDamping(tol, s[0].roots)), s[1..], k - 1)
  }

  /** As long as no analysed velocity has damping exactly zero, every refinement velocity lies strictly between the
      middle and the upper end of its current bracket, so that moving the lower end there more than halves the
      bracket; every bracket stays inside the first one. */
  lemma {:induction false} RefineStaysInside(env: Analysis, tol: real, b: Bracket, prev: seq<FlutterRoot>, iters: nat,
                                             k: nat)
    requires tol >= TARGET && AroundTarget(b) && k < |Refine(env, tol, b, prev, iters)|
    requires var s := Refine(env, tol, b, prev, iters); forall j | 0 <= j < k :: CriticalDamping(tol, s[j].roots) != 0.0
    ensures var s := Refine(env, tol, b, prev, iters);
            var bk := BracketAt(tol, b, s, k);
            && AroundTarget(bk)
            && b.lowerV <= bk.lowerV && bk.upperV <= b.upperV
            && Middle(bk) < s[k].refVal < bk.upperV
            && bk.upperV - s[k].refVal < 0.5 * (bk.upperV - bk.lowerV)
    decreases iters
  {
    hide DampedZero;
    DampedTrialInside(b);
    if k > 0 {
      var s := Refine(env, tol, b, prev, iters);
      var g := CriticalDamping(tol, s[0].roots);
      var rest := Refine(env, tol, Narrow(b, s[0].refVal, g), s[0].roots, iters - 1);
      assert s[1..] == rest;
      RefineStaysInside(env, tol, Narrow(b, s[0].refVal, g), s[0].roots, iters - 1, k - 1);
    }
  }

  /** Under the same condition no refinement velocity repeats. */
  lemma {:induction false} RefineDistinct(env: Analysis, tol: real, b: Bracket, prev: seq<FlutterRoot>, iters: nat,
                                          j: nat, k: nat)
    requires tol >= TARGET && AroundTarget(b) && j < k < |Refine(env, tol, b, prev, iters)|
    requires var s := Refine(env, tol, b, prev, iters); forall i | 0 <= i < k :: CriticalDamping(tol, s[i].roots) != 0.0
    ensures var s := Refine(env, tol, b, prev, iters); s[j].refVal != s[k].refVal
    decreases iters
  {
    hide DampedZero;
    var s := Refine(env, tol, b, prev, iters);
    var g := CriticalDamping(tol, s[0].roots);
    var nb := Narrow(b, s[0].refVal, g);
    DampedTrialInside(b);
    var rest := Refine(env, tol, nb, s[0].roots, iters - 1);
    assert s[1..] == rest;
    if j > 0 {
      RefineDistinct(env, tol, nb, s[0].roots, iters - 1, j - 1, k - 1);
    } else {
      RefineStaysInside(env, tol, nb, s[0].roots, iters - 1, k - 1);
    }
  }

  /** A damping of exactly zero moves the upper end below the target, and the next refinement velocity leaves the
      bracket. */
  lemma ZeroDampingLeavesBracket(b: Bracket)
    requires AroundTarget(b) && b.lowerG < 0.0
    ensures var nb := Narrow(b, DampedTrial(b), 0.0); DampedTrial(nb) > nb.upperV
  {
    DampedTrialInside(b);
    DampedTrialInside(Narrow(b, DampedTrial(b), 0.0));
  }

  /** Every refinement velocity lies strictly between the middle and the upper end of its current bracket. */
  predicate StaysInside(tol: real, b: Bracket, s: seq<Solution>) {
    forall k | 0 <= k < |s| :: Middle(BracketAt(tol, b, s, k)) < s[k].refVal < BracketAt(tol, b, s, k).upperV
  }

  predicate NoZeroBeforeLast(tol: real, s: seq<Solution>) {
    forall j | 0 <= j < |s| - 1 :: CriticalDamping(tol, s[j].roots) != 0.0
  }

  /** A whole refinement from a negative lower damping stays inside its brackets if and only if no velocity but the
      last has damping exactly zero. */
  lemma InsideExactlyWithoutZero(env: Analysis, tol: real, b: Bracket, prev: seq<FlutterRoot>, iters: nat)
    requires tol >= TARGET && AroundTarget(b) && b.lowerG < 0.0
    ensures var s := Refine(env, tol, b, prev, iters); StaysInside(tol, b, s) <==> NoZeroBeforeLast(tol, s)
  {
    var s := Refine(env, tol, b, prev, iters);
    if NoZeroBeforeLast(tol, s) {
      forall k | 0 <= k < |s|
        ensures Middle(BracketAt(tol, b, s, k)) < s[k].refVal < BracketAt(tol, b, s, k).upperV
      {
        RefineStaysInside(env, tol, b, prev, iters, k);
      }
    } else {
      var j :| 0 <= j < |s| - 1 && CriticalDamping(tol, s[j].roots) == 0.0;
      ZeroLeaves(env, tol, b, prev, iters, j);
    }
  }

  lemma {:induction false} ZeroLeaves(env: Analysis, tol: real, b: Bracket, prev: seq<FlutterRoot>, iters: nat, j: nat)
    requires tol >= TARGET && AroundTarget(b) && b.lowerG < 0.0
    requires var s := Refine(env, tol, b, prev, iters);
             j < |s| - 1 && CriticalDamping(tol, s[j].roots) == 0.0
    ensures !StaysInside(tol, b, Refine(env, tol, b, prev, iters))
    decreases iters
  {
    hide DampedZero, CriticalDamping;
    var s := Refine(env, tol, b, prev, iters);
    var g := CriticalDamping(tol, s[0].roots);
    var nb := Narrow(b, s[0].refVal, g);
    var rest := Refine(env, tol, nb, s[0].roots, iters - 1);
    assert s[1..] == rest;
    DampedTrialInside(b);
    if g == 0.0 {
      ZeroDampingLeavesBracket(b);
      assert BracketAt(tol, b, s, 1) == nb;
    } else {
      ZeroLeaves(env, tol, nb, s[0].roots, iters - 1, j - 1);
      var k :| 0 <= k < |rest|
            && !(Middle(BracketAt(tol, nb, rest, k)) < rest[k].refVal < BracketAt(tol, nb, rest, k).upperV);
      assert BracketAt(tol, b, s, k + 1) == BracketAt(tol, nb, rest, k);
    }
  }

  // ---------------------------------------------------------------------------------------------
  // The whole call
  // ---------------------------------------------------------------------------------------------

  datatype Outcome = Found(root: Option<FlutterRoot>) | NotConverged(root: Option<FlutterRoot>) | NoInstability |
    DivisionByZero

  /** The bracket the march hands over at step k. */
  function MarchBracket(m: Sweep, env: Analysis, tol: real, k: nat): Bracket
    requires m.divs > 0 && k > 0
  {
    Bracket(m.V(k - 1), CriticalDamping(tol, m.Roots(env, k - 1)), m.V(k), CriticalDamping(tol, m.Roots(env, k)))
  }

  /** Every solution the call analyses, in order. */
  function AllVisits(m: Sweep, env: Analysis, tol: real, iters: nat): (s: seq<Solution>)
    requires m.divs > 0
    ensures |s| > 0
  {
    var k := Stop(m, env, tol, 1);
    m.Visits(env, k)
    + if Unstable(tol, m.Roots(env, k)) then Refine(env, tol, MarchBracket(m, env, tol, k), m.Roots(env, k), iters)
      else []
  }

  function CriticalRoot(tol: real, roots: seq<FlutterRoot>): Option<FlutterRoot> {
    var c := CriticalIndex(tol, roots);
    if c >= 0 then Some(roots[c]) else None
  }

  /** What the refinement returns after the solutions s: acceptance, an interpolation between equal dampings, or the
      iteration limit. */
  function RefineOutcome(tol: real, iters: nat, roots: seq<FlutterRoot>, s: seq<Solution>): Outcome {
    var last := if s == [] then roots else s[|s| - 1].roots;
    if s != [] && Accepted(tol, CriticalDamping(tol, last)) then Found(CriticalRoot(tol, last))
    else if |s| < iters then DivisionByZero
    else NotConverged(CriticalRoot(tol, last))
  }

  /** What the call returns. */
  function UntrackedOutcome(m: Sweep, env: Analysis, tol: real, iters: nat): Outcome
    requires m.divs > 0
  {
    var k := Stop(m, env, tol, 1);
    if !Unstable(tol, m.Roots(env, k)) then NoInstability
    else
      RefineOutcome(tol, iters, m.Roots(env, k),
                    Refine(env, tol, MarchBracket(m, env, tol, k), m.Roots(env, k), iters))
  }

  /** Some root in the upper half plane reaches the tolerance. */
  ghost predicate HasUnstable(tol: real, roots: seq<FlutterRoot>) {
    exists r <- roots :: r.root.im >= 0.0 && r.root.re >= tol
  }

  ghost predicate IsCriticalRoot(tol: real, roots: seq<FlutterRoot>, r: FlutterRoot) {
    exists c: nat :: c < |roots| && IsCritical(tol, roots, c) && r == roots[c]
  }

  /** The critical root has positive damping within the tolerance. */
  ghost predicate Converges(tol: real, roots: seq<FlutterRoot>) {
    exists r :: IsCriticalRoot(tol, roots, r) && 0.0 < r.root.re <= tol
  }

  /** What an outcome tells of the marched and the refined solutions. */
  ghost predicate Concludes(r: Outcome, tol: real, iters: nat, marched: seq<Solution>, refined: seq<Solution>) {
    && |marched| > 1 && |refined| <= iters
    && (forall j | 0 < j < |marched| - 1 :: !HasUnstable(tol, marched[j].roots))
    && (r.Found? <==> exists j :: 0 <= j < |refined| && Converges(tol, refined[j].roots))
    && match r
       case Found(root) =>
         && refined != [] && (forall j | 0 <= j < |refined| - 1 :: !Converges(tol, refined[j].roots))
         && root.Some? && IsCriticalRoot(tol, refined[|refined| - 1].roots, root.value)
           && 0.0 < root.value.root.re <= tol
       case NotConverged(root) =>
         && |refined| == iters && HasUnstable(tol, marched[|marched| - 1].roots)
         && (root.Some? ==> IsCriticalRoot(tol, (marched + refined)[|marched + refined| - 1].roots, root.value))
       case NoInstability => refined == [] && !HasUnstable(tol, marched[|marched| - 1].roots)
       case DivisionByZero => |refined| < iters && HasUnstable(tol, marched[|marched| - 1].roots)
  }

  function Marches(m: Sweep, env: Analysis, tol: real): (s: seq<Solution>)
    requires m.divs > 0
  {
    m.Visits(env, Stop(m, env, tol, 1))
  }

  function Refinements(m: Sweep, env: Analysis, tol: real, iters: nat): (s: seq<Solution>)
    requires m.divs > 0
  {
    var k := Stop(m, env, tol, 1);
    if Unstable(tol, m.Roots(env, k)) then Refine(env, tol, MarchBracket(m, env, tol, k), m.Roots(env, k), iters)
      else []
  }

  lemma UnstableMeaning(tol: real, roots: seq<FlutterRoot>)
    ensures Unstable(tol, roots) <==> HasUnstable(tol, roots)
  {
    CountIsZero(tol, roots, |roots|);
  }

  lemma AcceptedMeaning(tol: real, roots: seq<FlutterRoot>)
    ensures Accepted(tol, CriticalDamping(tol, roots)) <==> Converges(tol, roots)
    ensures CriticalRoot(tol, roots).Some? ==> IsCriticalRoot(tol, roots, CriticalRoot(tol, roots).value)
    ensures Accepted(tol, CriticalDamping(tol, roots)) ==>
              CriticalRoot(tol, roots).Some? && 0.0 < CriticalRoot(tol, roots).value.root.re <= tol
  {
    var c := CriticalIndex(tol, roots);
    CriticalIndexIsCritical(tol, roots);
    hide IsCritical, CriticalIndex;
    if Converges(tol, roots) {
      var r :| IsCriticalRoot(tol, roots, r) && 0.0 < r.root.re <= tol;
      var c': nat :| c' < |roots| && IsCritical(tol, roots, c') && r == roots[c'];
      CriticalIsUnique(tol, roots, c, c');
    }
    if c >= 0 {
      assert IsCriticalRoot(tol, roots, roots[c]);
    }
  }

  /** The refinement stops at the first accepted solution, at the iteration limit, or where both ends of the bracket
      have one damping. */
  lemma {:induction false} RefineStopsAtFirst(env: Analysis, tol: real, b: Bracket, prev: seq<FlutterRoot>, iters: nat)
    ensures var s := Refine(env, tol, b, prev, iters);
            && (forall j | 0 <= j < |s| - 1 :: !Accepted(tol, CriticalDamping(tol, s[j].roots)))
            && (|s| < iters ==>
                  || (s != [] && Accepted(tol, CriticalDamping(tol, s[|s| - 1].roots)))
                  || BracketAt(tol, b, s, |s|).upperG == BracketAt(tol, b, s, |s|).lowerG)
    decreases iters
  {
    hide CriticalDamping, Accepted, DampedZero, Narrow;
    var s := Refine(env, tol, b, prev, iters);
    if s != [] && !Accepted(tol, CriticalDamping(tol, s[0].roots)) {
      var nb := Narrow(b, s[0].refVal, CriticalDamping(tol, s[0].roots));
      RefineStopsAtFirst(env, tol, nb, s[0].roots, iters - 1);
      assert s[1..] == Refine(env, tol, nb, s[0].roots, iters - 1);
    }
  }

  /** Every refinement velocity is the damped one of the bracket before it, and its solution follows the one before. */
  lemma {:induction false} RefineVelocity(env: Analysis, tol: real, b: Bracket, prev: seq<FlutterRoot>, iters: nat,
                                          k: nat)
    requires k < |Refine(env, tol, b, prev, iters)|
    ensures var s := Refine(env, tol, b, prev, iters);
            var bk := BracketAt(tol, b, s, k);
            && bk.upperG != bk.lowerG && s[k].refVal == DampedTrial(bk)
            && s[k].roots == env.At(s[k].refVal, if k == 0 then prev else s[k - 1].roots)
    decreases iters
  {
    hide CriticalDamping, Accepted, DampedZero, Narrow;
    var s := Refine(env, tol, b, prev, iters);
    if k > 0 {
      var nb := Narrow(b, s[0].refVal, CriticalDamping(tol, s[0].roots));
      RefineVelocity(env, tol, nb, s[0].roots, iters - 1, k - 1);
      assert s[1..] == Refine(env, tol, nb, s[0].roots, iters - 1);
    }
  }

  /** The bracket that the march hands over, from its last two solutions. */
  function LastBracket(tol: real, marched: seq<Solution>): Bracket
    requires |marched| > 1
  {
    var lower, upper := marched[|marched| - 2], marched[|marched| - 1];
    Bracket(lower.refVal, CriticalDamping(tol, lower.roots), upper.refVal, CriticalDamping(tol, upper.roots))
  }

  /** Every refinement is at the damped velocity of the bracket so far; without an outcome otherwise, the refinement
      ends where both ends have one damping. */
  ghost predicate RefinesBracket(r: Outcome, tol: real, marched: seq<Solution>, refined: seq<Solution>)
    requires |marched| > 1
  {
    && (forall k | 0 <= k < |refined| ::
          var b := BracketAt(tol, LastBracket(tol, marched), refined, k);
          b.upperG != b.lowerG && refined[k].refVal == DampedTrial(b))
    && (r.DivisionByZero? ==>
          var b := BracketAt(tol, LastBracket(tol, marched), refined, |refined|); b.upperG == b.lowerG)
  }

  lemma OutcomeRefines(m: Sweep, env: Analysis, tol: real, iters: nat)
    requires m.divs > 0
    ensures |Marches(m, env, tol)| > 1
    ensures RefinesBracket(UntrackedOutcome(m, env, tol, iters), tol, Marches(m, env, tol),
                           Refinements(m, env, tol, iters))
  {
    hide Unstable, Accepted, CriticalDamping, CriticalRoot, Refine, Sweep.V, BracketAt, DampedZero;
    var k := Stop(m, env, tol, 1);
    VisitsAre(m, env, k, k - 1);
    VisitsAre(m, env, k, k);
    if Unstable(tol, m.Roots(env, k)) {
      var b, refined := MarchBracket(m, env, tol, k), Refinements(m, env, tol, iters);
      assert LastBracket(tol, Marches(m, env, tol)) == b;
      RefineStopsAtFirst(env, tol, b, m.Roots(env, k), iters);
      forall j | 0 <= j < |refined|
        ensures var bj := BracketAt(tol, b, refined, j); bj.upperG != bj.lowerG && refined[j].refVal == DampedTrial(bj)
      {
        RefineVelocity(env, tol, b, m.Roots(env, k), iters, j);
      }
    }
  }

  /** What the call returns says exactly what was found among the solutions it analysed. */
  lemma OutcomeMeaning(m: Sweep, env: Analysis, tol: real, iters: nat)
    requires m.divs > 0
    ensures AllVisits(m, env, tol, iters) == Marches(m, env, tol) + Refinements(m, env, tol, iters)
    ensures Concludes(UntrackedOutcome(m, env, tol, iters), tol, iters, Marches(m, env, tol),
                      Refinements(m, env, tol, iters))
  {
    hide Unstable, HasUnstable, Converges, IsCriticalRoot, Accepted, CriticalDamping, CriticalRoot, Refine, Sweep.V;
    var k := Stop(m, env, tol, 1);
    var marched, refined := Marches(m, env, tol), Refinements(m, env, tol, iters);
    StopIsFirstUnstable(m, env, tol, 1);
    forall j: nat | j <= k
      ensures marched[j].roots == m.Roots(env, j) && (Unstable(tol, marched[j].roots)
                                                      <==> HasUnstable(tol, marched[j].roots))
    {
      VisitsAre(m, env, k, j);
      UnstableMeaning(tol, marched[j].roots);
    }
    if Unstable(tol, m.Roots(env, k)) {
      RefineStopsAtFirst(env, tol, MarchBracket(m, env, tol, k), m.Roots(env, k), iters);
      forall j | 0 <= j < |refined|
        ensures Accepted(tol, CriticalDamping(tol, refined[j].roots)) <==> Converges(tol, refined[j].roots)
      {
        AcceptedMeaning(tol, refined[j].roots);
      }
      AcceptedMeaning(tol, (marched + refined)[|marched + refined| - 1].roots);
    }
  }

  /** The march has reached step j without meeting an instability after the first velocity. */
  ghost predicate Marching(m: Sweep, env: Analysis, tol: real, j: nat, visits: seq<Solution>) {
    && 0 < j <= m.divs
    && Stop(m, env, tol, 1) == Stop(m, env, tol, j)
    && visits == m.Visits(env, j - 1)
  }

  lemma MarchStarts(m: Sweep, env: Analysis, tol: real)
    requires m.divs > 0
    ensures Marching(m, env, tol, 1, [Solution(m.V(0), m.first)])
  {
  }

  lemma MarchContinues(m: Sweep, env: Analysis, tol: real, j: nat, visits: seq<Solution>)
    requires Marching(m, env, tol, j, visits)
    ensures var next := visits + [Solution(m.V(j), m.Roots(env, j))];
            if Unstable(tol, m.Roots(env, j)) || j == m.divs || m.V(j) >= m.hi
            then Stop(m, env, tol, 1) == j && next == m.Visits(env, j)
            else Marching(m, env, tol, j + 1, next)
  {
  }

  /** The data the march keeps between steps: the last velocity, its roots and its critical damping. */
  ghost predicate AtStep(m: Sweep, env: Analysis, tol: real, j: nat, v: real, roots: seq<FlutterRoot>, g: real) {
    m.divs > 0 && v == m.V(j) && roots == m.Roots(env, j) && g == CriticalDamping(tol, roots)
  }

  /** The march has ended: all its visits, the bracket and the last solution. */
  ghost predicate Marched(m: Sweep, env: Analysis, tol: real, visits: seq<Solution>, b: Bracket,
                          roots: seq<FlutterRoot>) {
    m.divs > 0
    && var k := Stop(m, env, tol, 1);
       visits == m.Visits(env, k) && b == MarchBracket(m, env, tol, k) && roots == m.Roots(env, k)
  }

  lemma MarchStep(m: Sweep, env: Analysis, tol: real, j: nat, visits: seq<Solution>,
                  lowerV: real, lowerRoots: seq<FlutterRoot>, lowerG: real, upperV: real, upperRoots: seq<FlutterRoot>,
                  upperG: real)
    requires Marching(m, env, tol, j, visits) && AtStep(m, env, tol, j - 1, lowerV, lowerRoots, lowerG)
    requires upperV == lowerV + m.dV() && upperRoots == env.At(upperV, lowerRoots)
             && upperG == CriticalDamping(tol, upperRoots)
    ensures var next := visits + [Solution(upperV, upperRoots)];
            && AtStep(m, env, tol, j, upperV, upperRoots, upperG)
            && if Unstable(tol, upperRoots) || upperV >= m.hi
               then Marched(m, env, tol, next, Bracket(lowerV, lowerG, upperV, upperG), upperRoots)
               else j < m.divs && Marching(m, env, tol, j + 1, next)
  {
    hide Unstable, CriticalDamping, Stop;
    SweepSteps(m, j - 1);
    MarchContinues(m, env, tol, j, visits);
    hide Sweep.V;
  }

  lemma MarchEnds(m: Sweep, env: Analysis, tol: real, iters: nat, visits: seq<Solution>, b: Bracket,
                  roots: seq<FlutterRoot>)
    requires Marched(m, env, tol, visits, b, roots)
    ensures if Unstable(tol, roots) then
              var s := Refine(env, tol, b, roots, iters);
              && AllVisits(m, env, tol, iters) == visits + s
              && UntrackedOutcome(m, env, tol, iters) == RefineOutcome(tol, iters, roots, s)
            else AllVisits(m, env, tol, iters) == visits && UntrackedOutcome(m, env, tol, iters) == NoInstability
  {
  }

  /** The remaining bracket yields the remaining refinement steps. */
  ghost predicate Refining(env: Analysis, tol: real, iters: nat, whole: seq<Solution>, done: seq<Solution>,
                           b: Bracket, prev: seq<FlutterRoot>)
  {
    |done| <= iters && whole == done + Refine(env, tol, b, prev, iters - |done|)
  }

  lemma RefineContinues(env: Analysis, tol: real, iters: nat, whole: seq<Solution>, done: seq<Solution>,
                        b: Bracket, prev: seq<FlutterRoot>, v: real, roots: seq<FlutterRoot>, g: real)
    requires Refining(env, tol, iters, whole, done, b, prev) && |done| < iters && b.upperG != b.lowerG
    requires v == DampedZero(b.lowerV, b.lowerG, b.upperV, b.upperG)
    requires roots == env.At(v, prev) && g == CriticalDamping(tol, roots)
    ensures var next := done + [Solution(v, roots)];
            if Accepted(tol, g) then whole == next
            else Refining(env, tol, iters, whole, next,
                          if g < 0.0 then b.(lowerV := v, lowerG := g) else b.(upperV := v, upperG := g), roots)
  {
    hide DampedZero, CriticalDamping, Accepted;
    var next := done + [Solution(v, roots)];
    var nb := Narrow(b, v, g);
    if !Accepted(tol, g) {
      assert done + ([Solution(v, roots)] + Refine(env, tol, nb, roots, iters - |next|))
          == next + Refine(env, tol, nb, roots, iters - |next|);
    }
  }

  lemma RefineEnds(env: Analysis, tol: real, iters: nat, whole: seq<Solution>, done: seq<Solution>,
                   b: Bracket, prev: seq<FlutterRoot>)
    requires Refining(env, tol, iters, whole, done, b, prev) && (|done| == iters || b.upperG == b.lowerG)
    ensures whole == done
  {
  }

  /** If the last stable velocity has critical damping below the target, the tolerance is at least the target and
      exceeded at the first unstable velocity, and no refinement but the last meets a damping of exactly zero, then
      no velocity is analysed twice, so no insertion of the call fails. */
  lemma UntrackedNeverRepeats(m: Sweep, env: Analysis, tol: real, iters: nat)
    requires m.divs > 0 && m.lo < m.hi && tol >= TARGET
    requires var k := Stop(m, env, tol, 1);
             var b := MarchBracket(m, env, tol, k);
             var s := Refine(env, tol, b, m.Roots(env, k), iters);
             Unstable(tol, m.Roots(env, k)) ==>
               && b.lowerG < TARGET < b.upperG
               && NoZeroBeforeLast(tol, s)
    ensures !Repeats(AllVisits(m, env, tol, iters))
  {
    var k := Stop(m, env, tol, 1);
    MarchVisits(m, env, k);
    if Unstable(tol, m.Roots(env, k)) {
      var b := MarchBracket(m, env, tol, k);
      SweepAscends(m, k);
      var s := Refine(env, tol, b, m.Roots(env, k), iters);
      RefineVisits(env, tol, b, m.Roots(env, k), iters);
      NoRepeatsConcat(m.Visits(env, k), s);
    } else {
      assert AllVisits(m, env, tol, iters) == m.Visits(env, k);
    }
  }

  lemma MarchVisits(m: Sweep, env: Analysis, k: nat)
    requires m.divs > 0 && m.lo < m.hi && 0 < k <= m.divs
    ensures !Repeats(m.Visits(env, k))
    ensures forall i | 0 <= i <= k :: m.Visits(env, k)[i].refVal <= m.V(k - 1) || m.Visits(env, k)[i].refVal == m.V(k)
  {
    var s := m.Visits(env, k);
    forall i, j | 0 <= i < j <= k
      ensures s[i].refVal < s[j].refVal
    {
      VisitsAre(m, env, k, i);
      VisitsAre(m, env, k, j);
      SweepAscends(m, j);
    }
    VisitsAre(m, env, k, k - 1);
    VisitsAre(m, env, k, k);
  }

  lemma RefineVisits(env: Analysis, tol: real, b: Bracket, prev: seq<FlutterRoot>, iters: nat)
    requires tol >= TARGET && AroundTarget(b)
    requires NoZeroBeforeLast(tol, Refine(env, tol, b, prev, iters))
    ensures var s := Refine(env, tol, b, prev, iters);
            !Repeats(s) && forall j | 0 <= j < |s| :: b.lowerV < s[j].refVal < b.upperV
  {
    var s := Refine(env, tol, b, prev, iters);
    forall j | 0 <= j < |s|
      ensures b.lowerV < s[j].refVal < b.upperV
      ensures forall i | 0 <= i < j :: s[i].refVal != s[j].refVal
    {
      RefineStaysInside(env, tol, b, prev, iters, j);
      forall i | 0 <= i < j
        ensures s[i].refVal != s[j].refVal
      {
        RefineDistinct(env, tol, b, prev, iters, i, j);
      }
    }
  }

  /** Of a conjugate pair, the root in the upper half plane is critical. */
  lemma ConjugatePair(tol: real, r: FlutterRoot, r': FlutterRoot)
    requires InUpperHalf(r) && !InUpperHalf(r')
    ensures CriticalDamping(tol, [r, r']) == r.root.re && (Unstable(tol, [r, r']) <==> r.root.re >= tol)
  {
    var rs := [r, r'];
    assert LowestUnstable(tol, rs, 0) == -1 && LargestReal(rs, 0) == -1 && CountUnstable(tol, rs, 0) == 0;
    assert LowestUnstable(tol, rs, 1) == (if IsUnstable(tol, r) && r.V > 0.0 then 0 else -1);
    assert LargestReal(rs, 1) == 0 && CountUnstable(tol, rs, 1) == if IsUnstable(tol, r) then 1 else 0;
  }

  /** The damping -0.0002 at velocity 0, 0.0003 at velocity 1, and zero elsewhere. */
  function DippingDamping(v: real): real {
    if v == 0.0 then -0.0002 else if v == 1.0 then 0.0003 else 0.0
  }

  /** The roots of p^2 - 2 g p + 1 for that damping. */
  function DippingRoots(sqrt: real -> real, v: real): seq<FlutterRoot> {
    var g := DippingDamping(v);
    var w := sqrt(1.0 - g * g);
    [FlutterRoot(0.0, 0.0, v, w, Complex(g, w), false, [], []),
     FlutterRoot(0.0, 0.0, v, -w, Complex(g, -w), false, [], [])]
  }

  lemma UnitCircle(g: real, w: real)
    requires w * w == 1.0 - g * g
    ensures var p := Complex(g, w); p.Times(p).Minus(p.Scaled(2.0 * g)).Plus(One) == Zero
  {
    var p := Complex(g, w);
    assert p.Times(p) == Complex(g * g - w * w, 2.0 * (g * w));
    assert p.Scaled(2.0 * g) == Complex(2.0 * (g * g), 2.0 * (g * w));
    hide Complex.Times, Complex.Scaled;
  }

  lemma DippingSquare(v: real)
    ensures 1.0 - DippingDamping(v) * DippingDamping(v) > 0.0
  {
  }

  lemma PositiveRoot(sqrt: real -> real, x: real)
    requires ExactSqrt(sqrt) && x > 0.0
    ensures sqrt(x) * sqrt(x) == x && sqrt(x) > 0.0
  {
  }

  lemma PairOnUnitCircle(rs: seq<FlutterRoot>, g: real, w: real)
    requires w * w == 1.0 - g * g && |rs| == 2
    requires rs[0].root == Complex(g, w) && rs[1].root == Complex(g, -w)
    ensures forall r <- rs :: r.root.Times(r.root).Minus(r.root.Scaled(2.0 * g)).Plus(One) == Zero
  {
    hide Complex.Times, Complex.Scaled;
    assert (-w) * (-w) == w * w;
    UnitCircle(g, w);
    UnitCircle(g, -w);
  }

  lemma DippingRootsAre(sqrt: real -> real, v: real, tol: real)
    requires ExactSqrt(sqrt)
    ensures var g, rs := DippingDamping(v), DippingRoots(sqrt, v);
            && (forall r <- rs :: r.root.Times(r.root).Minus(r.root.Scaled(2.0 * g)).Plus(One) == Zero)
            && CriticalDamping(tol, rs) == g && (Unstable(tol, rs) <==> g >= tol)
  {
    hide ExactSqrt, CriticalDamping, Unstable, Complex.Times, Complex.Scaled, Complex.Minus, Complex.Plus;
    var g, rs := DippingDamping(v), DippingRoots(sqrt, v);
    var y := 1.0 - g * g;
    DippingSquare(v);
    assert y > 0.0;
    PositiveRoot(sqrt, y);
    var w := sqrt(y);
    assert rs[0].root == Complex(g, w) && rs[1].root == Complex(g, -w) && rs == [rs[0], rs[1]];
    PairOnUnitCircle(rs, g, w);
    ConjugatePair(tol, rs[0], rs[1]);
  }

  /** A zero refinement damping can make the search repeat a velocity, so that its insertion fails: the refinement of
      [0, 1] first tries 0.8, finds zero damping there, and goes back to 1, which the march has stored. */
  lemma ZeroDampingRepeatsVelocity(sqrt: real -> real)
    requires ExactSqrt(sqrt)
    ensures var env := Analysis(2, (v, prev) => DippingRoots(sqrt, v), (r: FlutterRoot) => r.root.re);
            var m := Sweep(0.0, 1.0, 1, DippingRoots(sqrt, 0.0));
            var s := AllVisits(m, env, 0.0002, 2);
            |s| == 4 && s[1].refVal == 1.0 && s[2].refVal == 0.8 && s[3].refVal == 1.0 && Repeats(s)
  {
    var env := Analysis(2, (v, prev) => DippingRoots(sqrt, v), (r: FlutterRoot) => r.root.re);
    var m, tol := Sweep(0.0, 1.0, 1, DippingRoots(sqrt, 0.0)), 0.0002;
    DippingRootsAre(sqrt, 0.0, tol);
    DippingRootsAre(sqrt, 0.8, tol);
    DippingRootsAre(sqrt, 1.0, tol);
    hide ExactSqrt, CriticalDamping, Unstable, DippingRoots;
    assert m.V(0) == 0.0 && m.V(1) == 1.0;
    assert m.Roots(env, 1) == DippingRoots(sqrt, 1.0);
    var b := Bracket(0.0, -0.0002, 1.0, 0.0003);
    assert Stop(m, env, tol, 1) == 1 && MarchBracket(m, env, tol, 1) == b;
    var nb := Bracket(0.0, -0.0002, 0.8, 0.0);
    assert DampedTrial(b) == 0.8 && DampedTrial(nb) == 1.0;
    assert env.At(0.8, DippingRoots(sqrt, 1.0)) == DippingRoots(sqrt, 0.8) && Narrow(b, 0.8, 0.0) == nb;
    assert Refine(env, tol, nb, DippingRoots(sqrt, 0.8), 1) == [Solution(1.0, DippingRoots(sqrt, 1.0))];
    assert Refine(env, tol, b, DippingRoots(sqrt, 1.0), 2)
        == [Solution(0.8, DippingRoots(sqrt, 0.8))] + [Solution(1.0, DippingRoots(sqrt, 1.0))];
    assert |m.Visits(env, 1)| == 2 && m.Visits(env, 1)[1].refVal == 1.0;
  }

  /** The upper end handed over by an unstable march has damping at least the tolerance, the lower end of a stable
      step less. */
  lemma MarchBracketDampings(m: Sweep, env: Analysis, tol: real, k: nat)
    requires m.divs > 0 && k > 0 && tol > 0.0
    requires Unstable(tol, m.Roots(env, k)) && !Unstable(tol, m.Roots(env, k - 1))
    ensures var b := MarchBracket(m, env, tol, k); b.lowerG < tol <= b.upperG
  {
    CountAndCriticalAgree(tol, m.Roots(env, k));
    CountAndCriticalAgree(tol, m.Roots(env, k - 1));
  }
}
