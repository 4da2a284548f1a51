# Verification models of the multidisciplinary analysis library

Dafny models of the parts of the library whose correctness rests on long arguments, with machine-checked proofs. All
arithmetic is exact real arithmetic: complex numbers are pairs of reals, vectors and matrices of any size are functions on
indices, and square roots are a function with `sqrt(x) >= 0` and `sqrt(x) * sqrt(x) == x`.

The components, each in the form the program has (objects with fields updated in place, loops over arrays, or closed
formulas):

- **Flutter search** (`src/aeroelasticity`). The first-order pencil, the U-g pencil and the sensitivity of their eigenvalues
  (`FirstOrderPencil`, `UGPencil`, `UGSensitivity`), root definitions and queries (`FlutterRoots`, `FlutterSolutions`), greedy
  mode tracking and what it means for an eigensolution (`ModeTracking`, `SolutionTracking`), the bracket search (`RegulaFalsi`), the ordered containers and the searches over stored
  crossovers (`OrderedContainers`, `CrossoverSearch`, `CrossoverObjects`), scanning and detection (`VelocitySweep`,
  `CrossoverDetection`, `UGDetection`), what whole runs end with, from any state and from a scan (`CompleteRuns`,
  `ScanFailures`, `UGSearches`), the search without tracking (`UntrackedSearch`), and the two solver classes
  (`TimeDomainFlutter`, `UGFlutter`). The solver methods are proved to refine functions on the whole solver state, and the
  theorems about runs are proved about those functions.
- **Condensation and sensitivities** (`src/base`). Condensed eigenproblems (`EigenCondensation`), sensitivities of Hermitian
  eigenvalues (`EigenSensitivity`), the system object that solves, normalises and differentiates (`EigenSystem`), element
  loops (`ElementAssembly`), and the direct and adjoint route to a total derivative (`OutputSensitivity`).
- **Complex systems in blocked real form** (`ComplexAssembly`).
- **Hand-expanded element formulas**: the DKT plate (`DktPlate`), piston theory (`PistonTheory`) and the rotation of packed
  stresses (`StressTransformation`).

`Scalars`, `LinearAlgebra` and `ComplexAlgebra` hold the mathematics they share.

## Where the code departs from what one would expect

These are proved, each with the exact condition under which the code does meet the expectation, and most with a concrete
input on which it does not.

- The sensitivities of the eigenvalues are assembled into the storage of the matrices themselves
  (`src/base/nonlinear_system.cpp:641`, `src/base/eigenproblem_assembly.cpp:196-200`), which nothing restores. From the
  second parameter on, a generalised problem therefore normalises and divides with the previous parameter's B derivative:
  each value is the true derivative times `x^T B x / x^T C x`, C being what is stored, so only the first call is right
  unless that ratio is one or the derivative zero (`SensitivityOverRun`, `EigenvalueGradients`). The same parameter passed
  twice gives 2 and then 1 in a problem of one unknown (`SecondCallIsWrong`).
- A standard Hermitian problem gets through the solve only with the flag for B set and assertions compiled out: the assembly
  dereferences B, and a checked build then asserts that there is none (`SolveEigenproblem`). In that one configuration,
  `get_eigenpair` inverts the eigenvalue when an exchange was requested although the matrices were not exchanged, so the
  value is right only if its square is one (`GetEigenpair`; for the eigenvalue 2 it is 1/2, `ExchangedStandardProblem`); and
  the sensitivity subtracts `lambda x^T x` although the identity does not depend on the parameter, so it is too small by
  exactly the value handed out (`StandardSensitivity`).
- A crossover whose lower damping is exactly zero passes detection (`<= 0`), but its first trial velocity is then the lower
  end itself, whose solution is already stored, and the insertion assertion fails (`InsertionFailsExactly`,
  `ZeroDampingAtLowerEndFails`). Two modes that cross in one interval can be analysed at one velocity, with the same effect.
  In general, a run that evaluates everything, with one tolerance and iteration limit, fails an insertion if and only if
  some velocity to be analysed is already stored or is common to two crossovers (`UniformRunFailsExactly`); after a scan, if
  and only if some first end has zero damping or two modes that cross between the same samples are to be analysed at one
  velocity (`ScanFailures.ScanRunFailsExactly`, and `UGSearches.ScanRunFailsExactly` for the U-g solver). Modes with equal
  dampings at both ends of an interval always are (`TwinModesFail`), such as a conjugate pair of which neither root is
  neglected because it is real at some sample (`ConjugatePairFails`).
- In the untracked search a refinement damping of exactly zero moves the upper end below the target damping, and the next
  velocity leaves the bracket: from a negative lower damping every refinement velocity stays in the upper half of its
  bracket if and only if no damping but the last is zero (`InsideExactlyWithoutZero`). The velocity can then be one already
  stored, and the insertion fails (`ZeroDampingRepeatsVelocity`, with a conjugate pair of roots).
- A U-g eigenvalue whose real part is not positive leaves a root with velocity and damping zero. A search that meets one
  takes it for converged, and ends with such a root in no other case (`EndsUnphysicalExactly`); the root is stored at
  velocity zero, ahead of all others. So the critical root has no velocity if and only if a crossover found before has none,
  or one that the search comes to meets such an eigenvalue (`CriticalIsUnphysicalExactly`), and likewise for whole runs
  (`CompleteRunIsUnphysicalExactly`). The ends of the bracket do not show it: `PhysicalBracketEndsUnphysical`. An infinite
  eigenvalue does so too, without being marked as non-physical (`UGRootsAreAt`).
- The U-g parameter sensitivity leaves out the derivative of the aerodynamic force; the result is the true one if and only
  if `u^H (rho/2 dA/dp) x = 0` (`TotalIsForcedExactlyWithoutForce`). With one unknown and a parameter that changes the force
  only, the derivative is -1 (`ForceMovesEigenvalue`) and the computed one 0 (`MissingForceIsMissed`).
- With the override flag of the parameter dependence set, the direct route skips an element's whole contribution. Direct and
  adjoint totals agree for every output exactly when the gathered solution sensitivity is zero on every skipped element
  (`RoutesAgreeForEveryOutput`); `OverrideFlagLosesDerivative` is a failing assembly with one point load.
- The DKT shape functions are right for counter-clockwise triangles only (`PatchTestExactlyCounterClockwise`).
- The comment above the U-g velocity sensitivity gives the exponent of the inverse
  (`src/aeroelasticity/ug_flutter_solver.cpp:961`); the code divides by `Re^(3/2)`, which is the exact derivative, and the
  model follows the code.
- `find_next_root` and `find_critical_root` drop the converged flag: `true` means that a crossover was evaluated.
- The argument of `calculate_output_adjoint_sensitivity` named `dq_dX` must be the adjoint solution; the theorem is stated
  for it.

## Model

| member | source | states |
|---|---|---|
| `FirstOrderPencil.PencilMeaning` | src/aeroelasticity/time_domain_flutter_solver.cpp:676-745 | for every n, (x, z) is an eigenvector of the assembled pencil with eigenvalue p if and only if z = p x and (p^2 M + p C + K) x = 0 |
| `FirstOrderPencil.IdentityBlocksCancel` | src/aeroelasticity/time_domain_flutter_solver.cpp:803-814 | on any vector with x2 = lambda x1 the identity blocks left in the two sensitivity matrices contribute nothing to u^H (A' - lambda B') x |
| `FirstOrderPencil.NumeratorForced` | src/aeroelasticity/time_domain_flutter_solver.cpp:1041-1053 | for any pencil, u^H (A' - lambda B') x equals the first-order eigenvalue change times u^H B x, whatever the change of the eigenvector |
| `FirstOrderPencil.ComputedDerivativeIsForced` | src/aeroelasticity/time_domain_flutter_solver.cpp:1051-1074 | the quotient that the solver evaluates, identity blocks included, is the eigenvalue derivative forced by the perturbed baseline pencil |
| `FirstOrderPencil.TotalDerivativeIsForced` | src/aeroelasticity/time_domain_flutter_solver.cpp:1051-1087 | when the parameter moves by one and the velocity by any s, the computed derivatives add up to the change forced on the eigenvalue |
| `FirstOrderPencil.RootSensitivity.CalculateSensitivity` | src/aeroelasticity/time_domain_flutter_solver.cpp:1051-1087 | the stored velocity sensitivity is the only one that makes the total eigenvalue derivative purely imaginary; root_sens is that total, and the change forced on the eigenvalue when parameter and velocity move together |
| `ModeTracking.BestMatchDominates` | src/aeroelasticity/time_domain_flutter_solution.cpp:173-197 | no candidate from position i on exceeds the score of the one picked |
| `ModeTracking.TrackedPermutes` | src/aeroelasticity/time_domain_flutter_solution.cpp:166-202 | tracking permutes the roots |
| `ModeTracking.TrackedDominates` | src/aeroelasticity/time_domain_flutter_solution.cpp:166-202 | after tracking no later root exceeds the score of the root at position p against previous root p |
| `ModeTracking.TrackedRecovers` | src/aeroelasticity/time_domain_flutter_solution.cpp:166-202 | if every previous root strictly prefers its own partner, tracking returns the partners in order whatever order the new roots came in |
| `ModeTracking.TrackedFromStart` | src/aeroelasticity/time_domain_flutter_solution.cpp:166-202 | the three properties for the matching as both solutions call it |
| `SolutionTracking.TimeDomainRootIs` | src/aeroelasticity/time_domain_flutter_root.cpp:38-55 | a root keeps the eigenvectors of its triple; for beta = 0 its velocity and eigenvalue are zero, otherwise they are the velocity and the p with p beta = alpha |
| `SolutionTracking.UGRootIs` | src/aeroelasticity/ug_flutter_root.cpp:37-72 | the same for the U-g root, with lambda V^2 = 1 + i g and omega b = kr V where the real part is positive, and V = g = 0 otherwise |
| `SolutionTracking.OrthogonalPrefers` | src/aeroelasticity/time_domain_flutter_solution.cpp:166-202 | if the eigenvectors of every mode are orthogonal in B to those that the other modes had before and not to its own, every previous root strictly prefers its own triple |
| `SolutionTracking.TrackedFollows` | src/aeroelasticity/time_domain_flutter_solution.cpp:166-202 | the tracked roots are those of the triples in some order, none twice; no later root has a larger quotient of B-product and eigenvalue distance against the previous root at a position; modes that stay orthogonal in B keep their positions, whatever order the eigensolver returned |
| `SolutionTracking.TrackedUGFollows` | src/aeroelasticity/ug_flutter_solution.cpp:93-125 | the same with the one product of the U-g solver |
| `FlutterRoots.FiniteRootSolvesSecondOrder` | src/aeroelasticity/time_domain_flutter_root.cpp:45-50 | a root made from a finite eigenvalue has V, omega and eigenvalue set so that its eigenvector solves the second-order flutter problem at that eigenvalue |
| `FlutterRoots.UGRootDefinition` | src/aeroelasticity/ug_flutter_root.cpp:47-69 | a finite U-g root is physical exactly when its real part is positive; then V > 0, lambda V^2 = 1 + i g and omega b = kr V |
| `FlutterRoots.SymmetricScorePrefers` | src/aeroelasticity/time_domain_flutter_solution.cpp:180-192 | of two candidates the first scores higher if and only if the second is at a positive distance and the quotient of the summed B-products with the previous root and the eigenvalue distance is larger: with equal products the nearer one wins, at equal distances the one with the larger product |
| `FlutterRoots.OneSidedScorePrefers` | src/aeroelasticity/ug_flutter_solution.cpp:102-120 | the same with the B-product of the previous left eigenvector alone |
| `FlutterRoots.LargestRealIsMaximum` | src/aeroelasticity/time_domain_flutter_solution.cpp:127-135 | the running choice has the largest real part of the upper half plane among the roots seen, the last one among equals, and is missing only if that half is empty |
| `FlutterRoots.LowestUnstableIsMinimum` | src/aeroelasticity/time_domain_flutter_solution.cpp:142-149 | the running choice among unstable roots with positive velocity has the lowest velocity, the last one among equals |
| `FlutterRoots.CountAndCriticalAgree` | src/aeroelasticity/time_domain_flutter_solution.cpp:84-158 | the instability count is non-zero exactly when the critical root is unstable; otherwise the critical root has the largest real part of the upper half plane; it is null only if that half is empty |
| `FlutterRoots.CountIsCardinality` | src/aeroelasticity/time_domain_flutter_solution.cpp:86-105 | the count is the number of positions whose root has Im >= 0 and Re >= tol |
| `FlutterRoots.CriticalIndexIsCritical` | src/aeroelasticity/time_domain_flutter_solution.cpp:110-158 | the position is that of the last root of lowest velocity among the unstable ones with positive velocity; without any, of the last root of largest real part with Im >= 0; without any, none |
| `FlutterSolutions.TimeDomainFlutterSolution.constructor` | src/aeroelasticity/time_domain_flutter_solution.cpp:43-79 | one root per eigenvalue, each defined by its eigenvalue, eigenvectors and the velocity |
| `FlutterSolutions.TimeDomainFlutterSolution.MatchFor` | src/aeroelasticity/time_domain_flutter_solution.cpp:176-197 | the inner loop returns the position of the best two-sided match |
| `FlutterSolutions.TimeDomainFlutterSolution.Sort` | src/aeroelasticity/time_domain_flutter_solution.cpp:166-202 | the in-place swaps leave the roots in tracked order: a permutation in which no later root scores higher at a position, and the list of partners whenever preferences are strict |
| `FlutterSolutions.TimeDomainFlutterSolution.NUnstableRootsInUpperComplexHalf` | src/aeroelasticity/time_domain_flutter_solution.cpp:86-105 | the number of positions whose root has Im >= 0 and Re >= tol, positive exactly when there is such a root |
| `FlutterSolutions.TimeDomainFlutterSolution.GetCriticalRoot` | src/aeroelasticity/time_domain_flutter_solution.cpp:110-158 | the position of the critical root: the last of lowest velocity among the unstable ones, else the last of largest real part in the upper half plane; null exactly when no root is in the upper half plane |
| `FlutterSolutions.UGFlutterSolution.constructor` | src/aeroelasticity/ug_flutter_solution.cpp:45-85 | one root per eigenvalue with the U-g definitions |
| `FlutterSolutions.UGFlutterSolution.MatchFor` | src/aeroelasticity/ug_flutter_solution.cpp:102-120 | the inner loop returns the position of the best one-sided match |
| `FlutterSolutions.UGFlutterSolution.Sort` | src/aeroelasticity/ug_flutter_solution.cpp:93-125 | the same three properties with the one-sided score |
| `RegulaFalsi.TrialIsInside` | src/aeroelasticity/time_domain_flutter_solver.cpp:589-590 | for either velocity order the trial point is strictly inside the bracket if and only if the lower damping is negative; with zero lower damping it is the lower end |
| `RegulaFalsi.NarrowIsNested` | src/aeroelasticity/time_domain_flutter_solver.cpp:614-624 | a non-zero damping keeps the signs and gives a bracket whose interior lies in the old one without the trial point |
| `RegulaFalsi.TrialsInside` | src/aeroelasticity/time_domain_flutter_solver.cpp:576-633 | every trial point lies strictly inside the starting bracket |
| `RegulaFalsi.TrialsDistinct` | src/aeroelasticity/time_domain_flutter_solver.cpp:576-633 | trial points of one search never repeat |
| `RegulaFalsi.LastTrialConverged` | src/aeroelasticity/time_domain_flutter_solver.cpp:604-633 | only the last trial point can be within the tolerance, and it is when the search stops early |
| `RegulaFalsi.AffineConvergesAtOnce` | src/aeroelasticity/time_domain_flutter_solver.cpp:589-612 | if the damping is affine in the parameter, the first trial point has zero damping and is the only one |
| `OrderedContainers.InsertKeepsOrder` | src/aeroelasticity/time_domain_flutter_solver.cpp:182-185 | multimap insertion keeps the key order, strictly for a new key |
| `OrderedContainers.InsertAddsOne` | src/aeroelasticity/time_domain_flutter_solver.cpp:182-185 | insertion adds exactly the inserted entry |
| `OrderedContainers.InsertUniqueKeepsOrder` | src/aeroelasticity/time_domain_flutter_solver.cpp:598-602 | map insertion keeps strict key order and the set of keys grows by at most the given key |
| `CrossoverSearch.RecordOne` | src/aeroelasticity/time_domain_flutter_solver.cpp:592-602 | recording one more solution inserts it, and fails exactly when its velocity is already stored |
| `CrossoverSearch.EvaluateKeeps` | src/aeroelasticity/time_domain_flutter_solver.cpp:165-186 | evaluating a crossover keeps the containers ordered, neither loses nor duplicates a crossover, adds one root, and leaves evaluated crossovers keyed by root velocity |
| `CrossoverSearch.FindNextKeeps` | src/aeroelasticity/time_domain_flutter_solver.cpp:153-194 | a call raises the number of roots by one while a crossover is unevaluated and changes nothing afterwards; the collection of crossovers stays |
| `CrossoverSearch.FindNextStores` | src/aeroelasticity/time_domain_flutter_solver.cpp:153-194 | while a crossover is unevaluated, the root returned is the one now stored, under its velocity, for the first unevaluated crossover; every other crossover is left as it was |
| `CrossoverSearch.NextRootRun` | src/aeroelasticity/time_domain_flutter_solver.cpp:153-194 | over any run of calls the successes number the smaller of the calls and the initially unevaluated crossovers |
| `CrossoverSearch.FindCriticalKeeps` | src/aeroelasticity/time_domain_flutter_solver.cpp:199-248 | the loop terminates because each pass lowers the number of unevaluated crossovers; the first crossover ends evaluated, and none is lost or duplicated |
| `CrossoverSearch.CriticalIsLowest` | src/aeroelasticity/time_domain_flutter_solver.cpp:225-248 | the returned root has a velocity no larger than any key in the container |
| `CrossoverSearch.FoundRootsAscend` | src/aeroelasticity/time_domain_flutter_solver.cpp:126-147 | the roots found are listed in ascending velocity |
| `CrossoverSearch.Step` | src/aeroelasticity/time_domain_flutter_solver.cpp:153-248 | every call leaves a valid state |
| `CrossoverSearch.Run` | src/aeroelasticity/time_domain_flutter_solver.cpp:153-248 | every run of calls leaves a valid state |
| `CrossoverSearch.InsertionFailsExactly` | src/aeroelasticity/time_domain_flutter_solver.cpp:598-602 | the insertion assertion fails exactly when some trial point is already stored; a lower end with zero damping is always such a case |
| `CrossoverSearch.FailsExactlyForZeroDamping` | src/aeroelasticity/time_domain_flutter_solver.cpp:576-602 | for a crossover between neighbouring stored solutions, an insertion of its evaluation fails if and only if its lower damping is exactly zero |
| `CrossoverSearch.EvaluateKeepsSafe` | src/aeroelasticity/time_domain_flutter_solver.cpp:576-602 | evaluation keeps the remaining crossovers' intervals free of stored solutions |
| `CrossoverSearch.SafeRun` | src/aeroelasticity/time_domain_flutter_solver.cpp:153-248 | if every unevaluated crossover has negative lower damping and an interval of its own, no insertion fails in any run of either search |
| `CrossoverSearch.RunKeepsDoomed` | src/aeroelasticity/time_domain_flutter_solver.cpp:153-248 | a crossover with zero lower damping stays stored, or its evaluation has failed an insertion, over any run |
| `CrossoverSearch.CompleteRunFailsExactly` | src/aeroelasticity/time_domain_flutter_solver.cpp:153-248 | with intervals of their own, a run that evaluates every crossover fails an insertion if and only if some lower damping is exactly zero |
| `CrossoverSearch.SharedIntervalFails` | src/aeroelasticity/time_domain_flutter_solver.cpp:576-602 | when one of two crossovers with one bracket has been evaluated, the evaluation of the other fails an insertion, whatever the two tolerances and iteration limits; `CompleteRuns` has the general condition |
| `CompleteRuns.EvaluateKeepsClash` | src/aeroelasticity/time_domain_flutter_solver.cpp:165-186 | evaluating one crossover neither removes nor creates a clash: a failed insertion, a velocity to be analysed that is stored, or one common to two crossovers |
| `CompleteRuns.RunKeepsClash` | src/aeroelasticity/time_domain_flutter_solver.cpp:153-248 | nor does any run of either search with one tolerance and iteration limit, complete or not |
| `CompleteRuns.UniformRunFailsExactly` | src/aeroelasticity/time_domain_flutter_solver.cpp:153-248 | a run that evaluates every crossover fails an insertion if and only if, at its start, some velocity to be analysed is stored or common to two crossovers |
| `CompleteRuns.HitsExactlyForZero` | src/aeroelasticity/time_domain_flutter_solver.cpp:576-602 | between neighbouring stored solutions a search meets a stored velocity if and only if its lower damping is exactly zero |
| `CompleteRuns.NeighboursRunFailsExactly` | src/aeroelasticity/time_domain_flutter_solver.cpp:153-248 | with brackets between neighbouring stored solutions, any number in an interval, a complete run fails an insertion if and only if some lower damping is exactly zero or two crossovers are to be analysed at one velocity |
| `CompleteRuns.OwnIntervalsDoNotShare` | src/aeroelasticity/time_domain_flutter_solver.cpp:153-248 | in intervals of their own, two crossovers have a velocity in common only if some lower damping is zero |
| `CompleteRuns.SharedBracketFails` | src/aeroelasticity/time_domain_flutter_solver.cpp:576-602 | from any state with two unevaluated crossovers of one bracket, every complete run fails an insertion, in whatever order it comes to them |
| `CompleteRuns.ZeroDampingAtLowerEndFails` | src/aeroelasticity/time_domain_flutter_solver.cpp:589-602 | a crossover of damping v - 1 between the velocities 1 and 2, whose evaluation fails an insertion |
| `CompleteRuns.CompleteRunFindsAll` | src/aeroelasticity/time_domain_flutter_solver.cpp:153-248 | every complete run finds the same roots, in whatever order: the one each crossover's own search ends with |
| `CompleteRuns.CriticalFindsReached` | src/aeroelasticity/time_domain_flutter_solver.cpp:199-248 | a search for the critical root adds exactly the roots of the crossovers it comes to: those before which everything is unevaluated and moves behind |
| `VelocitySweep.SweepAscends` | src/aeroelasticity/time_domain_flutter_solver.cpp:425-442 | sweep velocities ascend and meet the upper limit exactly at the last division |
| `VelocitySweep.SweepDoesNotRepeat` | src/aeroelasticity/time_domain_flutter_solver.cpp:425-442 | between different limits no velocity is visited twice |
| `VelocitySweep.SweepIsStored` | src/aeroelasticity/time_domain_flutter_solver.cpp:444-458 | a sweep between different limits is stored in its order, or in reverse if it goes down |
| `VelocitySweep.RecordVisitsDistinct` | src/aeroelasticity/time_domain_flutter_solver.cpp:444-458 | without repetitions every visited solution is stored as analysed |
| `VelocitySweep.VisitNext` | src/aeroelasticity/time_domain_flutter_solver.cpp:452-457 | an insertion fails exactly when the velocity was visited before |
| `CrossoverDetection.SweepIsScan` | src/aeroelasticity/time_domain_flutter_solver.cpp:425-462 | the recorded sweep holds one solution per velocity, in order, with all roots |
| `CrossoverDetection.CrossoversBalance` | src/aeroelasticity/time_domain_flutter_solver.cpp:882-984 | up-crossings plus an unstable start minus down-crossings equal one if the mode is unstable at the last velocity and zero otherwise |
| `CrossoverDetection.SpacingSuffices` | src/aeroelasticity/time_domain_flutter_solver.cpp:897-906 | velocities more than 2e-5 apart are enough for every pair to be examined |
| `CrossoverDetection.UnstableModeIsDetected` | src/aeroelasticity/time_domain_flutter_solver.cpp:882-984 | a mode that is not neglected and is unstable at any sample has an entry |
| `CrossoverDetection.PairEntriesSound` | src/aeroelasticity/time_domain_flutter_solver.cpp:895-945 | every bracketed entry joins neighbouring solutions, with non-positive damping first and positive second, keyed by the velocity of the first root |
| `CrossoverDetection.DetectedExactly` | src/aeroelasticity/time_domain_flutter_solver.cpp:843-984 | a crossover is detected if and only if some mode with |Re| >= 0.00001 at a sample and Im >= 0 at a sample changes sign between neighbouring samples, one of them with |V| > 0.00001, or is unstable at the first one: with these ends, root number and key |
| `CrossoverDetection.InsertAllKeeps` | src/aeroelasticity/time_domain_flutter_solver.cpp:882-984 | the container ends ordered and holds exactly the entries found |
| `CrossoverDetection.ScanIsSearchable` | src/aeroelasticity/time_domain_flutter_solver.cpp:966-981 | the searches are defined on the state after a scan if and only if no mode that counts starts unstable, and then no crossover has been evaluated |
| `CrossoverDetection.SeparatedScanIsSafe` | src/aeroelasticity/time_domain_flutter_solver.cpp:882-984 | if no mode starts unstable, no crossover has zero lower damping and no interval has two, no later search fails an insertion |
| `CrossoverDetection.ScanHasOwnIntervals` | src/aeroelasticity/time_domain_flutter_solver.cpp:882-984 | if no mode starts unstable and no interval has crossovers of two modes, the detected crossovers have stored neighbouring ends and intervals of their own |
| `CrossoverDetection.OneModeScanFailsExactly` | src/aeroelasticity/time_domain_flutter_solver.cpp:882-984 | where every interval has a crossover of at most one mode, a run that evaluates every detected crossover, with any tolerances, fails an insertion if and only if one has damping exactly zero at its first end |
| `ScanFailures.InsertAllShares` | src/aeroelasticity/time_domain_flutter_solver.cpp:882-984 | sorting the detected entries into the multimap does not change whether two of them are to be analysed at one velocity |
| `ScanFailures.ListRunFailsExactly` | src/aeroelasticity/time_domain_flutter_solver.cpp:153-248 | for any list of searchable entries sorted into the multimap, a complete run fails an insertion if and only if some lower damping is zero or two entries have a velocity in common |
| `ScanFailures.ScanRunFailsExactly` | src/aeroelasticity/time_domain_flutter_solver.cpp:882-984 | after any scan whose modes all start stable, a run that evaluates everything fails an insertion if and only if some crossover has damping exactly zero at its first sample or two modes that cross between the same samples are to be analysed at one velocity |
| `ScanFailures.TwinModesFail` | src/aeroelasticity/time_domain_flutter_solver.cpp:895-945 | two modes, neither neglected, with equal dampings at both samples of an interval in which one crosses: every complete run fails an insertion |
| `ScanFailures.ConjugatePairFails` | src/aeroelasticity/time_domain_flutter_solver.cpp:868-945 | three samples of a conjugate pair, real at the last of them, so that both modes count: every complete run fails an insertion |
| `UntrackedSearch.StopIsFirstUnstable` | src/aeroelasticity/time_domain_flutter_solver.cpp:306-344 | the march stops within the divisions, at the first unstable velocity or at the upper limit, which between ascending limits is reached after all divisions |
| `UntrackedSearch.DampedTrialInside` | src/aeroelasticity/time_domain_flutter_solver.cpp:370-371 | the refinement velocity is strictly between the middle and the upper end of the bracket if and only if the target 1e-4 is strictly between the end dampings |
| `UntrackedSearch.DampedTrialIsHalfway` | src/aeroelasticity/time_domain_flutter_solver.cpp:370-371 | the refinement velocity, and no other, is halfway from the upper end to the point where the line through both ends has damping 0.0001 |
| `UntrackedSearch.RefineStopsAtFirst` | src/aeroelasticity/time_domain_flutter_solver.cpp:353-412 | the refinement stops at the first accepted solution, at the iteration limit, or where both ends have one damping |
| `UntrackedSearch.RefineVelocity` | src/aeroelasticity/time_domain_flutter_solver.cpp:353-412 | every refinement is at the damped velocity of the bracket so far, with its roots tracked against the solution before |
| `UntrackedSearch.OutcomeMeaning` | src/aeroelasticity/time_domain_flutter_solver.cpp:255-419 | Found if and only if a refined solution has a critical root with 0 < Re <= tol, which is the last one, its root is returned and none before it has one; NotConverged after all iterations without one; NoInstability only if no marched solution after the first has a root with Im >= 0 and Re >= tol |
| `UntrackedSearch.OutcomeRefines` | src/aeroelasticity/time_domain_flutter_solver.cpp:346-412 | the refined velocities follow the brackets that start from the last two marched solutions, and the search stops without an outcome otherwise only where both ends have one damping |
| `UntrackedSearch.RefineStaysInside` | src/aeroelasticity/time_domain_flutter_solver.cpp:353-412 | with tolerance at least 1e-4 and no damping exactly zero, each refinement velocity lies in the upper half of its current bracket, and moving the lower end there more than halves it |
| `UntrackedSearch.RefineDistinct` | src/aeroelasticity/time_domain_flutter_solver.cpp:353-412 | under the same condition refinement velocities never repeat |
| `UntrackedSearch.ZeroDampingLeavesBracket` | src/aeroelasticity/time_domain_flutter_solver.cpp:397-409 | a damping of exactly zero makes the next refinement velocity leave the bracket |
| `UntrackedSearch.InsideExactlyWithoutZero` | src/aeroelasticity/time_domain_flutter_solver.cpp:353-412 | from a negative lower damping, every refinement velocity lies strictly in the upper half of its bracket if and only if no damping but the last is exactly zero |
| `UntrackedSearch.ZeroDampingRepeatsVelocity` | src/aeroelasticity/time_domain_flutter_solver.cpp:353-412 | a whole call, with the conjugate roots of p^2 - 2 g(V) p + 1 at every velocity, in which a zero damping sends the search back to a stored velocity, so that an insertion fails |
| `UntrackedSearch.MarchBracketDampings` | src/aeroelasticity/time_domain_flutter_solver.cpp:306-350 | the march hands over a lower damping below the tolerance and an upper damping at or above it |
| `UntrackedSearch.UntrackedNeverRepeats` | src/aeroelasticity/time_domain_flutter_solver.cpp:255-419 | if the end dampings enclose the target and only the last refinement may meet a zero damping, no velocity is analysed twice in the whole call |
| `CrossoverObjects.MovedValues` | src/aeroelasticity/time_domain_flutter_solver.cpp:178-185 | erasing a crossover object and inserting it under its root velocity moves its value and keeps the set of objects |
| `CrossoverObjects.AssignAndReinsert` | src/aeroelasticity/time_domain_flutter_solver.cpp:178-185 | assigning the root and reinserting the object, stated on the values of the whole container |
| `TimeDomainFlutter.TimeDomainFlutterSolver.Analyze` | src/aeroelasticity/time_domain_flutter_solver.cpp:640-670 | the roots of the eigensolution at the velocity, following the previous ones: one per triple in some order, no later root a better match, modes that stay B-orthogonal in their positions; as the eigensolver returned them without previous roots |
| `TimeDomainFlutter.TimeDomainFlutterSolver.AnalyzeAndAdd` | src/aeroelasticity/time_domain_flutter_solver.cpp:592-602 | the solution follows the previous roots and is inserted under its velocity; an existing key keeps its solution and fails the assertion |
| `TimeDomainFlutter.TimeDomainFlutterSolver.BisectionSearch` | src/aeroelasticity/time_domain_flutter_solver.cpp:567-633 | analyses exactly the trial points of the specification, records each, and returns the last solution, whose roots follow those of the first end; converged exactly when its damping is within the tolerance |
| `TimeDomainFlutter.TimeDomainFlutterSolver.EvaluateCrossover` | src/aeroelasticity/time_domain_flutter_solver.cpp:165-186 | the common step of the searches refines its specification on the whole solver state; only this crossover changes, its root is its mode of an eigensolution that follows its first end, and it is stored under the velocity of that root |
| `TimeDomainFlutter.TimeDomainFlutterSolver.FindNextRoot` | src/aeroelasticity/time_domain_flutter_solver.cpp:153-194 | refines its specification; true exactly when a crossover was unevaluated; the root returned is the one now stored for the first such crossover, the only one that changes |
| `TimeDomainFlutter.TimeDomainFlutterSolver.FindCriticalRoot` | src/aeroelasticity/time_domain_flutter_solver.cpp:199-248 | refines its specification, terminates, and returns the root of the first crossover |
| `TimeDomainFlutter.TimeDomainFlutterSolver.ScanVelocities` | src/aeroelasticity/time_domain_flutter_solver.cpp:430-438 | the sampled velocities, the last one set to the upper limit |
| `TimeDomainFlutter.TimeDomainFlutterSolver.SampleRange` | src/aeroelasticity/time_domain_flutter_solver.cpp:440-458 | the stored solutions are the recorded sweep |
| `TimeDomainFlutter.TimeDomainFlutterSolver.ScanForRoots` | src/aeroelasticity/time_domain_flutter_solver.cpp:425-462 | scans only once; then holds one solution per equally spaced velocity, each following the one before, and exactly the crossovers that the samples show; tells when the searches are defined, when no run fails an insertion, and exactly when a complete run fails one, for any number of crossing modes per interval |
| `TimeDomainFlutter.TimeDomainFlutterSolver.ModesToNeglect` | src/aeroelasticity/time_domain_flutter_solver.cpp:843-878 | a mode is neglected exactly unless |Re| >= 0.00001 at some sample and Im >= 0 at some sample |
| `TimeDomainFlutter.TimeDomainFlutterSolver.IdentifyForMode` | src/aeroelasticity/time_domain_flutter_solver.cpp:882-984 | adds exactly the crossovers of one mode |
| `TimeDomainFlutter.TimeDomainFlutterSolver.IdentifyStart` | src/aeroelasticity/time_domain_flutter_solver.cpp:947-982 | adds the entry of a mode unstable at the first velocity |
| `TimeDomainFlutter.TimeDomainFlutterSolver.IdentifyCrossoverPoints` | src/aeroelasticity/time_domain_flutter_solver.cpp:822-985 | adds exactly the crossovers of all modes |
| `TimeDomainFlutter.TimeDomainFlutterSolver.MarchToInstability` | src/aeroelasticity/time_domain_flutter_solver.cpp:274-344 | visits, bracket and last solution of the march |
| `TimeDomainFlutter.TimeDomainFlutterSolver.RefineBracket` | src/aeroelasticity/time_domain_flutter_solver.cpp:352-418 | the refinement analyses exactly the specified velocities and returns the specified outcome, whose meaning is that of UntrackedSearch.OutcomeMeaning |
| `TimeDomainFlutter.TimeDomainFlutterSolver.AnalyzeAndFindCriticalRootWithoutTracking` | src/aeroelasticity/time_domain_flutter_solver.cpp:255-419 | the solutions analysed and stored are the march, at equally spaced velocities, and the refinement, at the damped velocities of its brackets, each following the one before; Found if and only if a refined solution has a critical root with 0 < Re <= tol, which is returned and the first such; NotConverged after all iterations without one; NoInstability if no marched solution has an unstable root up to the upper velocity |
| `TimeDomainFlutter.TimeDomainFlutterSolver.NRootsFound` | src/aeroelasticity/time_domain_flutter_solver.cpp:108-121 | the number of evaluated crossovers, in any state |
| `TimeDomainFlutter.TimeDomainFlutterSolver.GetRoot` | src/aeroelasticity/time_domain_flutter_solver.cpp:126-147 | the n-th root found, in any state and for every n below the count |
| `UGDetection.UGRootsAreAt` | src/aeroelasticity/ug_flutter_root.cpp:45-69 | every root of a U-g solution carries its reduced frequency; its velocity is positive exactly for a positive real part, and otherwise velocity and damping are zero |
| `UGDetection.EntriesSound` | src/aeroelasticity/ug_flutter_solver.cpp:728-859 | everything detected is a root at zero frequency with small damping that is not marked non-physical, already evaluated; a bracket of neighbouring solutions whose roots are not marked non-physical and have moderate, correctly signed dampings; or, only if asked for, an unstable start |
| `UGDetection.CrossoversBalance` | src/aeroelasticity/ug_flutter_solver.cpp:760-859 | for a mode looked at in every pair, crossings into instability with decreasing frequency plus the unstable start less those out of it tell whether it is unstable at the lowest frequency |
| `UGDetection.ChangeIsDetected` | src/aeroelasticity/ug_flutter_solver.cpp:760-823 | a mode of changing stability has an entry |
| `UGDetection.DetectedExactly` | src/aeroelasticity/ug_flutter_solver.cpp:708-859 | a crossover is detected if and only if some mode with |g| >= 0.00001 at a sample changes sign between neighbouring samples with |g| < 0.75 that are not marked non-physical, one of them with |kr| > 0.00001, or, if asked for, is unstable at the highest of them, or it is a root with |g| < 0.00001 at a first sample with |kr| < 0.00001 |
| `UGDetection.ScanIsSearchable` | src/aeroelasticity/ug_flutter_solver.cpp:826-859 | after a scan the searches are defined if and only if no unstable start was recorded; evaluated entries are keyed by their velocity |
| `UGSearches.ScanRunFailsExactly` | src/aeroelasticity/ug_flutter_solver.cpp:163-256 | after a U-g scan without unstable starts, a run that evaluates everything fails an insertion if and only if some crossover has damping exactly zero at its first end or two are to be analysed at one reduced frequency |
| `UGSearches.EndsUnphysicalExactly` | src/aeroelasticity/ug_flutter_solver.cpp:406-479 | a search ends with a root without a velocity if and only if it analyses a reduced frequency at which the eigenvalue of the mode has no positive real part |
| `UGSearches.NoVelocityComesFirst` | src/aeroelasticity/ug_flutter_solver.cpp:190-199 | of crossovers stored by root velocity, the one in front has no velocity if and only if some found root has none |
| `UGSearches.CriticalIsUnphysicalExactly` | src/aeroelasticity/ug_flutter_solver.cpp:208-256 | the critical root has no velocity if and only if one found before has none, or an unevaluated crossover that the search comes to meets such an eigenvalue |
| `UGSearches.CompleteRunIsUnphysicalExactly` | src/aeroelasticity/ug_flutter_solver.cpp:163-256 | after a run that evaluates everything the root in front has no velocity if and only if one found before has none or some crossover meets such an eigenvalue |
| `UGSearches.PhysicalBracketEndsUnphysical` | src/aeroelasticity/ug_flutter_solver.cpp:427-466 | a bracket with physical ends of dampings -1/2 and 1/2 whose first trial point has the eigenvalue -1: the search returns it, whatever the tolerance |
| `UGFlutter.UGFlutterSolver.Analyze` | src/aeroelasticity/ug_flutter_solver.cpp:486-515 | the roots of the eigensolution at the reduced frequency, following the previous ones with the one-sided product |
| `UGFlutter.UGFlutterSolver.BisectionSearch` | src/aeroelasticity/ug_flutter_solver.cpp:406-479 | the same search on the reduced-frequency axis with the damping g, the bracket taken from the roots, the solution following the first end; a root without a velocity counts as converged |
| `UGFlutter.UGFlutterSolver.EvaluateCrossover` | src/aeroelasticity/ug_flutter_solver.cpp:174-195 | the common step refines its specification; only this crossover changes, its root is its mode of an eigensolution that follows its first end, and it is stored under the velocity of that root |
| `UGFlutter.UGFlutterSolver.FindNextRoot` | src/aeroelasticity/ug_flutter_solver.cpp:163-204 | refines the same specification as the time-domain search; the root returned is the one now stored for the first unevaluated crossover, and has a positive velocity exactly if its eigenvalue has a positive real part |
| `UGFlutter.UGFlutterSolver.FindCriticalRoot` | src/aeroelasticity/ug_flutter_solver.cpp:208-256 | refines the same specification as the time-domain search; the root returned has velocity zero if and only if one found before has, or a crossover that the search comes to meets an eigenvalue whose real part is not positive |
| `UGFlutter.UGFlutterSolver.ScanFrequencies` | src/aeroelasticity/ug_flutter_solver.cpp:266-276 | the sampled reduced frequencies from the highest down, the last one set to the lower limit |
| `UGFlutter.UGFlutterSolver.SampleRange` | src/aeroelasticity/ug_flutter_solver.cpp:278-299 | the stored solutions are the recorded sweep |
| `UGFlutter.UGFlutterSolver.ScanForRoots` | src/aeroelasticity/ug_flutter_solver.cpp:262-303 | scans only once; then holds one solution per equally spaced reduced frequency, each following the one before, and exactly the crossovers that the samples show; tells when the searches are defined, exactly when a complete run fails an insertion, and exactly when it ends with a root without a velocity in front |
| `UGFlutter.UGFlutterSolver.ModesToNeglect` | src/aeroelasticity/ug_flutter_solver.cpp:708-726 | a mode is neglected exactly unless |g| >= 0.00001 at some sample |
| `UGFlutter.UGFlutterSolver.IdentifyDivergence` | src/aeroelasticity/ug_flutter_solver.cpp:730-758 | adds exactly the roots at zero reduced frequency that are undamped and not marked non-physical, as evaluated |
| `UGFlutter.UGFlutterSolver.IdentifyForMode` | src/aeroelasticity/ug_flutter_solver.cpp:762-859 | adds exactly the crossovers of one mode, from the highest reduced frequency down |
| `UGFlutter.UGFlutterSolver.IdentifyHighest` | src/aeroelasticity/ug_flutter_solver.cpp:826-859 | adds the entry of a mode unstable at the highest reduced frequency, if such modes are asked for |
| `UGFlutter.UGFlutterSolver.IdentifyCrossoverPoints` | src/aeroelasticity/ug_flutter_solver.cpp:692-861 | adds exactly the crossovers of the specification |
| `UGFlutter.UGFlutterSolver.NRootsFound` | src/aeroelasticity/ug_flutter_solver.cpp:118-131 | the number of evaluated crossovers, in any state |
| `UGFlutter.UGFlutterSolver.GetRoot` | src/aeroelasticity/ug_flutter_solver.cpp:137-157 | the n-th root found, in any state |
| `UGSensitivity.DampingDerivativeMeaning` | src/aeroelasticity/ug_flutter_solver.cpp:967-970 | the evaluated derivative vanishes exactly when Im / Re is stationary |
| `UGSensitivity.VelocityDerivativeIsExact` | src/aeroelasticity/ug_flutter_solver.cpp:981-981 | -1/2 Re' / Re^(3/2) is the only velocity change that keeps V^2 Re = 1 to first order |
| `UGSensitivity.DerivativeIsForced` | src/aeroelasticity/ug_flutter_solver.cpp:927-953 | with exact derivatives of both matrices, the quotient evaluated for the eigenvalue is the derivative forced by the perturbed pencil |
| `UGPencil.MassFactorChange` | src/aeroelasticity/ug_flutter_solver.cpp:551-674 | 2 kr / b^2 is the derivative of the mass factor (kr / b)^2 |
| `UGPencil.PencilIsFlutterEquations` | src/aeroelasticity/ug_flutter_solver.cpp:522-570 | with V^2 lambda = 1 + i g and omega b = kr V, lambda is an eigenvalue of the assembled pencil for x if and only if (-omega^2 M + (1 + i g) K + (rho V^2 / 2) A) x = 0 |
| `UGPencil.FrequencyAIsLinearTerm` | src/aeroelasticity/ug_flutter_solver.cpp:636-690 | entry by entry, with the force moving from A to A + h dA/dkr, the matrix at kr + h is that at kr plus h times the assembled derivative plus h^2 M / b^2 |
| `UGPencil.MatrixAIsLinear` | src/aeroelasticity/ug_flutter_solver.cpp:551-570 | at one reduced frequency the matrix is linear in M and A |
| `UGPencil.ChangeFromDerivatives` | src/aeroelasticity/ug_flutter_solver.cpp:580-690 | (kr / b)^2 M' + 2 s kr / b^2 M - (rho / 2) (A' + s dA/dkr) is the matrix of the derivatives plus s times the assembled derivative for the reduced frequency |
| `UGSensitivity.TotalIsForcedExactlyWithoutForce` | src/aeroelasticity/ug_flutter_solver.cpp:606-981 | the total of the two computed derivatives is the change forced on the eigenvalue by K' and by (kr / b)^2 M' + 2 s kr / b^2 M - (rho / 2) (A' + s dA/dkr) if and only if the force term left out of the parameter derivative vanishes |
| `UGSensitivity.ForceMovesEigenvalue` | src/aeroelasticity/ug_flutter_solver.cpp:606-674 | one unknown, eigenvalue 1, a parameter that changes the force only: the eigenvalue changes by -1 |
| `UGSensitivity.MissingForceIsMissed` | src/aeroelasticity/ug_flutter_solver.cpp:606-953 | there the numerator that the solver evaluates is 0 over the denominator 1, because the force term it leaves out is 1 |
| `UGSensitivity.UGRootSensitivity.CalculateSensitivity` | src/aeroelasticity/ug_flutter_solver.cpp:896-983 | the total eigenvalue derivative keeps g stationary, only this reduced-frequency sensitivity does, and V_sens is the exact derivative of V along it; the total is the change forced by the matrices and their derivatives if and only if the missing force term vanishes |
| `EigenCondensation.ScatterEntries` | src/base/nonlinear_system.cpp:478-485 | the scattered vector has the condensed entries at the free dofs and zeros elsewhere |
| `EigenCondensation.LiftSolves` | src/base/nonlinear_system.cpp:318-355 | for any size and any ascending list of free dofs, a condensed eigenvector scattered back satisfies A v = mu B v on every free row |
| `EigenCondensation.NormScales` | src/base/nonlinear_system.cpp:515-529 | scaling by s multiplies v^T B v by s^2, so dividing by the square root of v^T B v gives one |
| `EigenSystem.NonlinearSystem.InitializeCondensedDofs` | src/base/nonlinear_system.cpp:685-730 | the free-dof list is exactly the ascending complement of the constrained and Dirichlet dofs |
| `EigenSystem.NonlinearSystem.SolveEigenproblem` | src/base/nonlinear_system.cpp:235-378 | the pairs are exact for the submatrices actually passed, exchanged only in the generalised case; a standard problem gets through if and only if B is kept and assertions are off |
| `EigenSystem.NonlinearSystem.ScaledPair` | src/base/nonlinear_system.cpp:421-529 | any multiple of the full vector vanishes on condensed dofs and solves every free row of the solved problem with the true eigenvalue |
| `EigenSystem.NonlinearSystem.OneEigenvalue` | src/base/nonlinear_system.cpp:504-513 | a normalised vector of the standard problem has one eigenvalue |
| `EigenSystem.NonlinearSystem.CopyToFull` | src/base/nonlinear_system.cpp:476-486 | the loop leaves the full vector of the pair |
| `EigenSystem.NonlinearSystem.GetEigenpair` | src/base/nonlinear_system.cpp:403-543 | in any state: the vector solves the solved problem and has norm one in what is stored as B; generalised problem: the value is its eigenvalue, exchanged or not; standard problem: if and only if no exchange was requested or its square is one |
| `EigenSystem.ExchangedStandardProblem` | src/base/nonlinear_system.cpp:235-543 | a standard problem with the eigenvalue 2, solved with the flag for B and an exchange: the value handed out is 1/2, not an eigenvalue of the vector handed out |
| `EigenSensitivity.ContractRows` | src/base/nonlinear_system.cpp:649-665 | row relations carry over to their products with the eigenvector |
| `EigenSensitivity.SensitivityIsRescaled` | src/base/nonlinear_system.cpp:622-665 | for any matrix C in the denominator the quotient is the forced derivative times x^T B x / x^T C x, and the derivative itself if and only if that is zero or the two norms agree |
| `EigenSensitivity.GeneralizedSensitivityIsForced` | src/base/nonlinear_system.cpp:658-665 | while the storage holds B, the quotient is the derivative forced by the perturbed problem on the free rows |
| `EigenSensitivity.SecondCallIsWrong` | src/base/nonlinear_system.cpp:641-665 | one parameter passed twice gives the derivative 2 and then 1 |
| `EigenSensitivity.StandardSensitivityOffByEigenvalue` | src/base/nonlinear_system.cpp:649-655 | the standard formula is smaller than the forced derivative by exactly the value it subtracts |
| `EigenSystem.NonlinearSystem.EigenproblemSensitivitySolve` | src/base/nonlinear_system.cpp:551-678 | one quotient per listed pair over the inner product matrix found in the storage, whatever the normalisation; the matrices are left holding the derivatives; it stops exactly if a pair cannot be normalised or inverted |
| `EigenSystem.NonlinearSystem.SensitivityOverRun` | src/base/nonlinear_system.cpp:617-665 | value i of a run is the forced derivative times x^T B x / x^T C x with C the previous B derivative: right in the first call, and later if and only if the derivative is zero or the norms agree |
| `EigenSystem.NonlinearSystem.StandardSensitivity` | src/base/nonlinear_system.cpp:611-655 | standard problem, reached only with B kept and assertions off: every call misses the forced derivative by the value handed out |
| `EigenSystem.EigenvalueGradients` | examples/structural/example_5/example_5.cpp:2037-2079 | the loop over design parameters: row i holds the quotients over what call i - 1 left in the storage |
| `ElementAssembly.AddingIsDualToGathering` | src/base/assembly_base.cpp:377-395 | for one element and any dof list, adding an element vector and gathering are adjoint operations |
| `ElementAssembly.AssemblyIsDualToGathering` | src/base/assembly_base.cpp:366-397 | for any mesh connectivity the assembled vector pairs with y as the element vectors pair with the gathered y |
| `ElementAssembly.AddVector` | src/base/assembly_base.cpp:395-395 | the in-place loop adds every entry at its dof |
| `OutputSensitivity.SolutionsPairCrosswise` | src/base/nonlinear_system.cpp:751-830 | the forward and the adjoint solution of one matrix pair crosswise with each other's right-hand sides |
| `OutputSensitivity.AdjointEqualsDirect` | src/base/assembly_base.cpp:507-543 | direct total plus what the override flag skips equals the adjoint total, for any mesh connectivity |
| `OutputSensitivity.RoutesAgreeForEveryOutput` | src/base/assembly_base.cpp:456-543 | the two routes agree for every output that obeys the chain rule if and only if the solution sensitivity is zero at every dof of every element that the parameter does not influence, once the override flag is set |
| `OutputSensitivity.NothingSkipped` | src/base/assembly_base.h:75-98 | nothing is lost where the gathered solution sensitivity vanishes on the elements that are not evaluated |
| `OutputSensitivity.LoadsPair` | src/base/nonlinear_implicit_assembly.cpp:560-628 | against any vector, the load loop takes away the contribution of every load at its dofs |
| `OutputSensitivity.Assembly.ResidualSensitivityPairs` | src/base/nonlinear_implicit_assembly.cpp:480-628 | against any vector, dR/dp contributes what each element does that the parameter influences, on the solution at its dofs, less what all loads do |
| `OutputSensitivity.OverrideFlagLosesDerivative` | src/base/assembly_base.cpp:460-468 | an assembly with one dof and one point load for which the flag makes the direct total 0 and the adjoint total -1 |
| `OutputSensitivity.Assembly.SensitivityAssemble` | src/base/nonlinear_implicit_assembly.cpp:480-628 | dR/dp is the sum over influenced elements and all point loads |
| `OutputSensitivity.Assembly.CalculateOutputDerivative` | src/base/assembly_base.cpp:328-406 | dq/dX is the sum of the element derivatives at their dofs, and the output's accumulator is cleared |
| `OutputSensitivity.Assembly.CalculateOutputDirectSensitivity` | src/base/assembly_base.cpp:412-504 | the accumulated sensitivity is the sum over the elements evaluated, with zero solution sensitivity for a null vector |
| `OutputSensitivity.Assembly.CalculateOutputAdjointSensitivity` | src/base/assembly_base.cpp:509-543 | the vector dotted with the residual sensitivity, plus the partial sensitivity if requested |
| `OutputSensitivity.LinearisedSystem.SensitivitySolve` | src/base/nonlinear_system.cpp:737-787 | leaves K u = -dR/dp with K assembled at the solution or kept, and the operation idle |
| `OutputSensitivity.LinearisedSystem.AdjointSolve` | src/base/nonlinear_system.cpp:792-838 | leaves K^T a = -dq/dX and the operation idle |
| `ComplexAssembly.AddMatrixApplies` | src/base/complex_assembly_base.cpp:577-593 | adding one element Jacobian adds its product with the gathered vector |
| `ComplexAssembly.AssembledJacobianActsByElements` | src/base/complex_assembly_base.cpp:491-594 | for any connectivity the assembled complex Jacobian times x assembles the element Jacobians times the gathered x |
| `ComplexAssembly.AssembledOverEntries` | src/base/complex_assembly_base.cpp:491-560 | every element is evaluated on the entries of the base solution and of the complex vector at its own dofs |
| `ComplexAssembly.AssembledAdds` | src/base/complex_assembly_base.cpp:577-593 | element vectors that add up assemble to vectors that add up |
| `ComplexAssembly.JacobianIsDerivative` | src/base/complex_assembly_base.cpp:491-594 | where the element Jacobians are the slopes of affine element residuals, the assembled Jacobian is the slope of the assembled residual, whatever the connectivity |
| `ComplexAssembly.BlockedProductIsComplexProduct` | src/base/complex_assembly_base.cpp:553-592 | the 2n real Jacobian times an interleaved vector is the interleaved complex product |
| `ComplexAssembly.BlockedSystemIsComplexSystem` | src/base/complex_assembly_base.cpp:553-559 | the blocked real system and the complex system have the same solutions |
| `ComplexAssembly.PartsAdd` | src/base/complex_assembly_base.cpp:208-222 | adding complex entries adds their real and their imaginary parts |
| `ComplexAssembly.BlockedNormIsComplexNorm` | src/base/complex_assembly_base.cpp:228-239 | the squared norm of the blocked residual is the sum of the squared norms of its two parts |
| `ComplexAssembly.BlockedJacobianActsByElements` | src/base/complex_assembly_base.cpp:491-594 | end to end: the real Jacobian held in the array acts as the element Jacobians on gathered complex vectors |
| `ComplexAssembly.AddToBlock` | src/base/complex_assembly_base.cpp:583-591 | one additive 2x2 block write adds one complex entry and disturbs no other |
| `ComplexAssembly.AddElement` | src/base/complex_assembly_base.cpp:577-593 | the dof loops add one element to residual and Jacobian |
| `ComplexAssembly.ResidualAndJacobianBlocked` | src/base/complex_assembly_base.cpp:410-606 | residual, or its sensitivity when a parameter is given, and Jacobian hold the complex assembly in blocked form |
| `ComplexAssembly.ResidualL2Norm` | src/base/complex_assembly_base.cpp:110-239 | the returned norm is the norm of the assembled complex residual |
| `DktPlate.ChangeAlongEdge` | src/elasticity/dkt_bending_operator.h:356-358 | a quadratic changes along an edge by the edge vector times its midpoint gradient |
| `DktPlate.EdgeRotation` | src/elasticity/dkt_bending_operator.h:360-377 | one edge's terms interpolate minus the slope at its midpoint; in a clockwise triangle they miss it by a closed expression |
| `DktPlate.EdgeOfIsEdge` | src/elasticity/dkt_bending_operator.h:266-314 | sine, cosine and length of a side from the cross products, for both orientations |
| `DktPlate.RotationsOnEdges` | src/elasticity/dkt_bending_operator.h:321-379 | for the nodal values of a quadratic deflection, the interpolated rotations are the six-node weighted slopes plus, in a clockwise triangle, what the edges miss |
| `DktPlate.PatchTest` | src/elasticity/dkt_bending_operator.h:321-379 | in a counter-clockwise triangle betax and betay interpolate the slopes of every quadratic deflection for any six weights |
| `DktPlate.PatchTestExactlyCounterClockwise` | src/elasticity/dkt_bending_operator.h:279-379 | the patch test for all deflections and weights holds if and only if the triangle is counter-clockwise |
| `DktPlate.ClockwiseFails` | src/elasticity/dkt_bending_operator.h:279-314 | for every clockwise triangle a deflection and weights that fail |
| `DktPlate.CubicInTheMiddle` | src/elasticity/dkt_bending_operator.h:360-377 | the slope of a cubic in the middle of an edge, from its change and the sum of its end slopes |
| `DktPlate.NodalRotationsAreKirchhoff` | src/elasticity/dkt_bending_operator.h:321-379 | for any nine nodal values, the six rotations weighed by the shape functions of a counter-clockwise triangle are exactly those of discrete Kirchhoff theory: the end rotations, and at each mid-side minus the slope of the cubic along the side and the mean end rotation across it |
| `DktPlate.ShapesAreKirchhoff` | src/elasticity/dkt_bending_operator.h:321-379 | so betax and betay interpolate those rotations for any nodal values and any six weights |
| `DktPlate.RotationsAreLinear` | src/elasticity/dkt_bending_operator.h:321-379 | for any nodal values, either orientation, the interpolated betax and betay are linear in the six weights |
| `DktPlate.ConstantCurvature` | src/elasticity/dkt_bending_operator.h:185-258 | the strain operator turns the nodal values of a quadratic deflection into its curvatures times the height |
| `DktPlate.DktBendingOperator.constructor` | src/elasticity/dkt_bending_operator.h:42-88 | corners and mid-side nodes in the order of the six-node triangle |
| `DktPlate.DktBendingOperator.CalculateDktShapeFunctions` | src/elasticity/dkt_bending_operator.h:321-379 | fills both vectors with the shape functions |
| `DktPlate.DktBendingOperator.InitializeBendingStrainOperatorForZ` | src/elasticity/dkt_bending_operator.h:185-258 | fills the three strain rows for w, thetax and thetay and leaves the other variables alone; applied to any nine nodal values the rows are z times what betax rises along dx, betay along dy, and betax along dy with betay along dx |
| `PistonTheory.MachFactorIsDual` | src/elasticity/piston_theory_boundary_condition.cpp:108-109 | dMf is the derivative of (M^2 - 2) / (M^2 - 1) |
| `PistonTheory.F1IsDual` | src/elasticity/piston_theory_boundary_condition.cpp:136-138 | df1drho + df1dM is the derivative of rho / sqrt(M^2 - 1) |
| `PistonTheory.SeriesIs` | src/elasticity/piston_theory_boundary_condition.cpp:146-166 | the way the parts are put together is exact for every order |
| `PistonTheory.SlopeOfSeries` | src/elasticity/piston_theory_boundary_condition.cpp:75-92 | the slope of the third-order series, as its linear term |
| `PistonTheory.SeriesIsIsentropic` | src/elasticity/piston_theory_boundary_condition.cpp:75-92 | the third-order series f satisfies the isentropic law f' (1 + (gamma - 1) z / 2) = 1 + gamma f but for the term (gamma + 1) (gamma - 3) z^3 / 24 |
| `PistonTheory.PressureIsPistonSeries` | src/elasticity/piston_theory_boundary_condition.cpp:59-92 | the pressure of order three times M is rho V^2 / sqrt(M^2 - 1) times that series at z = M (V dw/dx + Mf dw/dt) / V |
| `PistonTheory.PressureIsDual` | src/elasticity/piston_theory_boundary_condition.cpp:59-167 | the pressure and its parameter derivative are value and derivative of one dual-number evaluation |
| `PistonTheory.XDerivativeIsDual` | src/elasticity/piston_theory_boundary_condition.cpp:207-332 | the slope partial and its parameter derivative at fixed slope and velocity are the mixed parts of the same evaluation |
| `PistonTheory.XdotDerivativeIsDual` | src/elasticity/piston_theory_boundary_condition.cpp:370-493 | the velocity partial and its parameter derivative likewise |
| `PistonTheory.RoutinesObeyChainRule` | src/elasticity/piston_theory_boundary_condition.cpp:94-256 | the parameter derivative is the one at fixed surface plus each partial times the change of its variable |
| `StressTransformation.RepresentsRotation` | src/coordinates/coordinate_base.cpp:33-68 | the 6 by 6 matrix times a packed symmetric tensor S is the packed T^T S T |
| `StressTransformation.TransformationsCompose` | src/coordinates/coordinate_base.cpp:33-68 | transforming by T1 and then T2 is transforming by T1 T2 |
| `StressTransformation.MatricesCompose` | src/coordinates/coordinate_base.cpp:33-68 | entry by entry mat(T2) mat(T1) = mat(T1 T2) |
| `StressTransformation.OrthogonalUndone` | src/coordinates/coordinate_base.cpp:33-68 | an orthogonal T is undone by its transpose |
| `StressTransformation.SensitivityIsLinearTerm` | src/coordinates/coordinate_base.cpp:74-102 | mat(T + h dT) = mat(T) + h sens(T, dT) + h^2 mat(dT) |
| `StressTransformation.StressStrainTransformationMatrix` | src/coordinates/coordinate_base.cpp:31-68 | the loops fill every entry of the matrix |
| `StressTransformation.StressStrainTransformationMatrixSens` | src/coordinates/coordinate_base.cpp:71-102 | the loops fill every entry of its sensitivity |

## Left out

- Eigen and linear solvers (LAPACK, SLEPc, PETSc) and libMesh enter by contract only: exact pairs with one triple per row, exact linear solves on the matrix at hand, identity dof constraints, one process.
- Floating-point rounding, overflow and not-a-number arithmetic. A match score divided by a zero eigenvalue distance is modelled as infinite or undefined.
- Match scores are compared through their squares, which orders them as the moduli do.
- TimeDomainFlutter.TimeDomainFlutterSolver.FindNextRoot: requires signed brackets on every unevaluated crossover. A mode unstable at the first velocity is stored with one solution at both ends, where the code's own comment says that the bracket search cannot work: it would divide zero by zero. Detection of these entries is modelled, and ScanForRoots says when there are none.
- TimeDomainFlutter.TimeDomainFlutterSolver.FindCriticalRoot: the same.
- UGFlutter.UGFlutterSolver.FindNextRoot: the same, for modes unstable at the highest reduced frequency.
- UGFlutter.UGFlutterSolver.FindCriticalRoot: the same.
- The identity of the root object shared by a solution and a crossover: roots are values, crossovers are objects.
- Convergence of the bracket search to the tolerance within the iteration limit: only what each trial point and the returned flag mean is stated.
- FirstOrderPencil.RootSensitivity.CalculateSensitivity: requires a non-zero denominator and a non-zero velocity slope; the derivatives of the reduced matrices, assembled by foreign calls, are arguments. A base-solution sensitivity given for the parameter but not for the velocity, which the code dereferences as null, is not modelled.
- UGSensitivity.UGRootSensitivity.CalculateSensitivity: requires a positive real part, a non-zero denominator and a non-zero damping slope; the reduced matrices and the force, assembled by foreign calls, are arguments.
- TimeDomainFlutter.TimeDomainFlutterSolver.AnalyzeAndFindCriticalRootWithoutTracking: requires a root in the upper half plane at every velocity, as real matrices give; where the interpolation would divide by zero the model stops with an outcome of its own.
- UntrackedSearch.UntrackedNeverRepeats: a sufficient condition for the insertions of the whole call; a refinement that leaves its bracket need not come back to a stored velocity.
- CompleteRuns.UniformRunFailsExactly: for calls with one tolerance and iteration limit; with several, what is analysed depends on which call comes to a crossover.
- The pk solver: a third copy of the same search.
- `modal_participation`, printing, plotting, reading and writing of vectors, setters and getters, timers.
- Non-Hermitian eigenproblem types: the program stops on them when a pair is fetched or differentiated, and so does the model.
- EigenSystem.NonlinearSystem.GetEigenpair: a pair that cannot be inverted or has no positive norm stops the model; an unchecked build goes on with infinities or not-a-numbers.
- EigenSystem.NonlinearSystem.SolveEigenproblem: takes the shipped assemblies, all of which write into B; a user's own assembly might not.
- The assembly loop of the real Jacobian: a parameter of the two solves; the complex one, of the same form, is modelled.
- Element kernels (stress, residual, complex residual): functions that obey the chain rule.
- Kinematic coupling rows, and aggregated stress functions built on exponentials and logarithms.
- DktPlate.ConstantCurvature: requires gradients that differentiate linear functions exactly, which is the contract of the six-node finite element.
