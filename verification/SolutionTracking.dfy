/** What it means that an eigensolution follows the roots before it, in terms of the triples that the
    eigensolver returned: each position holds the root of one triple, none twice; no later root matches the
    previous root at a position better; and modes whose eigenvectors stay orthogonal in B to those of the
    other modes keep their position. */
module SolutionTracking {
  import opened Scalars
  import opened ComplexAlgebra
  import opened ModeTracking
  import opened FlutterRoots

  /** The root of the time-domain solver for a triple at velocity v. */
  predicate IsTimeDomainRoot(v: real, t: EigenTriple, r: FlutterRoot) {
    && r.evecRight == t.right && r.evecLeft == t.left && r.omega == r.root.im
    && if t.beta == Zero then r.V == 0.0 && r.root == Zero else r.V == v && r.root.Times(t.beta) == t.alpha
  }

  /** The root of the U-g solver for a triple at reduced frequency kr. */
  predicate IsUGRoot(kr: real, b: real, t: EigenTriple, r: FlutterRoot) {
    && r.evecRight == t.right && r.evecLeft == t.left && r.kr == kr && r.omega * b == kr * r.V
    && (r.nonphysical <==> t.beta != Zero && r.root.re <= 0.0)
    && (if t.beta == Zero then r.root == Zero else r.root.Times(t.beta) == t.alpha)
    && if r.root.re > 0.0 then r.V > 0.0 && r.root.Scaled(r.V * r.V) == Complex(1.0, r.g) else r.V == 0.0 && r.g == 0.0
  }

  type RootOf = (EigenTriple, FlutterRoot) -> bool

  function TimeDomainRootsAt(v: real): RootOf {
    (t, r) => IsTimeDomainRoot(v, t, r)
  }

  function UGRootsAt(kr: real, b: real): RootOf {
    (t, r) => IsUGRoot(kr, b, t, r)
  }

  /** The roots are those of the triples, in the same order. */
  predicate Belong(isRoot: RootOf, triples: seq<EigenTriple>, roots: seq<FlutterRoot>) {
    |roots| == |triples| && forall i | 0 <= i < |roots| :: isRoot(triples[i], roots[i])
  }

  /** The roots are those of the triples in some order. */
  ghost predicate BelongInSomeOrder(isRoot: RootOf, triples: seq<EigenTriple>, roots: seq<FlutterRoot>) {
    exists order: seq<EigenTriple> :: multiset(order) == multiset(triples) && Belong(isRoot, order, roots)
  }

  // ---------------------------------------------------------------------------------------------
  // Following the previous roots
  // ---------------------------------------------------------------------------------------------

  /** The time-domain solver adds the products of both left eigenvectors, the U-g solver takes that of the previous
      one. */
  datatype Matching = TwoSided | OneSided

  /** The product in B of the eigenvectors of a previous root with a new pair of eigenvectors. */
  ghost function Product(kind: Matching, eig: EigenSolution, p: FlutterRoot, left: seq<Complex>,
                         right: seq<Complex>): Complex {
    var one := BProduct(eig.size, eig.B, p.evecLeft, right);
    if kind.OneSided? then one else one.Plus(BProduct(eig.size, eig.B, left, p.evecRight))
  }

  /** No root at a later position has a larger quotient of the product with the previous root at a position and the
      distance from it. */
  ghost predicate NoneLaterBeats(kind: Matching, eig: EigenSolution, prev: seq<FlutterRoot>, r: seq<FlutterRoot>)
    requires |prev| == |r|
  {
    forall p, k | 0 <= p < k < |r| ::
      !Beats(Product(kind, eig, prev[p], r[k].evecLeft, r[k].evecRight), prev[p].root.Minus(r[k].root),
             Product(kind, eig, prev[p], r[p].evecLeft, r[p].evecRight), prev[p].root.Minus(r[p].root))
  }

  /** The eigenvectors of each mode are orthogonal in B to those that the other modes had before, and not to its own. */
  ghost predicate StaysOrthogonal(kind: Matching, eig: EigenSolution, prev: seq<FlutterRoot>, next: seq<EigenTriple>) {
    && |prev| == |next|
    && forall i, j | 0 <= i < |prev| && 0 <= j < |prev| ::
         Product(kind, eig, prev[i], next[j].left, next[j].right) == Zero <==> i != j
  }

  /** The roots of an eigensolution follow the previous ones. */
  ghost predicate Follows(kind: Matching, isRoot: RootOf, eig: EigenSolution, prev: seq<FlutterRoot>,
                          r: seq<FlutterRoot>)
  {
    && |r| == |prev| && BelongInSomeOrder(isRoot, eig.triples, r) && NoneLaterBeats(kind, eig, prev, r)
    && forall next: seq<EigenTriple> |
         multiset(next) == multiset(eig.triples) && StaysOrthogonal(kind, eig, prev, next) :: Belong(isRoot, next, r)
  }

  lemma TimeDomainRootIs(v: real, t: EigenTriple)
    ensures IsTimeDomainRoot(v, t, TimeDomainRoot(v, t))
  {
    if t.beta != Zero {
      OverUnique(t.alpha, t.beta, t.alpha.Over(t.beta));
    }
    hide Complex.Over, Complex.Times;
  }

  lemma UGRootIs(sqrt: real -> real, kr: real, b: real, t: EigenTriple)
    requires ExactSqrt(sqrt) && b != 0.0
    ensures IsUGRoot(kr, b, t, UGRoot(sqrt, kr, b, t))
  {
    if t.beta != Zero {
      UGRootDefinition(sqrt, kr, b, t);
      OverUnique(t.alpha, t.beta, t.alpha.Over(t.beta));
    }
    hide Complex.Over, Complex.Times, Complex.Scaled, ExactSqrt;
  }

  /** Without previous roots, the order is that of the eigensolver. */
  lemma FirstTimeDomainRoots(v: real, eig: EigenSolution)
    ensures Belong(TimeDomainRootsAt(v), eig.triples, TimeDomainRoots(v, eig))
  {
    hide TimeDomainRoot, IsTimeDomainRoot;
    forall i | 0 <= i < |eig.triples|
      ensures IsTimeDomainRoot(v, eig.triples[i], TimeDomainRoot(v, eig.triples[i]))
    {
      TimeDomainRootIs(v, eig.triples[i]);
    }
  }

  /** The tracked roots of the time-domain solver follow the previous ones. */
  lemma TrackedFollows(v: real, eig: EigenSolution, prev: seq<FlutterRoot>)
    requires |prev| == |eig.triples|
    ensures Follows(TwoSided, TimeDomainRootsAt(v), eig, prev,
                    Tracked(SymmetricScore(eig.size, eig.B), prev, TimeDomainRoots(v, eig), 0))
  {
    hide TimeDomainRoot, IsTimeDomainRoot, SymmetricScore, Tracked, Follows;
    forall t
      ensures IsTimeDomainRoot(v, t, TimeDomainRoot(v, t))
    {
      TimeDomainRootIs(v, t);
    }
    var make := (t: EigenTriple) => TimeDomainRoot(v, t);
    forall t {
      TimeDomainEigenvectors(v, t);
    }
    MatchingFollows(TwoSided, TimeDomainRootsAt(v), make, eig, prev);
    assert TimeDomainRoots(v, eig) == Mapped(make, eig.triples);
  }

  lemma TimeDomainEigenvectors(v: real, t: EigenTriple)
    ensures TimeDomainRoot(v, t).evecLeft == t.left && TimeDomainRoot(v, t).evecRight == t.right
  {
    hide Complex.Over;
  }

  lemma UGEigenvectors(sqrt: real -> real, kr: real, b: real, t: EigenTriple)
    requires b != 0.0
    ensures UGRoot(sqrt, kr, b, t).evecLeft == t.left && UGRoot(sqrt, kr, b, t).evecRight == t.right
  {
    hide Complex.Over;
  }

  /** Those of the U-g solver do as well. */
  lemma TrackedUGFollows(sqrt: real -> real, kr: real, b: real, eig: EigenSolution, prev: seq<FlutterRoot>,
                         cur: seq<FlutterRoot>)
    requires ExactSqrt(sqrt) && b != 0.0 && |prev| == |cur| == |eig.triples|
    requires forall i | 0 <= i < |cur| :: cur[i] == UGRoot(sqrt, kr, b, eig.triples[i])
    ensures Belong(UGRootsAt(kr, b), eig.triples, cur)
    ensures Follows(OneSided, UGRootsAt(kr, b), eig, prev, Tracked(OneSidedScore(eig.size, eig.B), prev, cur, 0))
  {
    hide UGRoot, IsUGRoot, OneSidedScore, Tracked, Follows, ExactSqrt;
    forall t
      ensures IsUGRoot(kr, b, t, UGRoot(sqrt, kr, b, t))
    {
      UGRootIs(sqrt, kr, b, t);
    }
    var make := (t: EigenTriple) => UGRoot(sqrt, kr, b, t);
    forall t {
      UGEigenvectors(sqrt, kr, b, t);
    }
    MatchingFollows(OneSided, UGRootsAt(kr, b), make, eig, prev);
    assert cur == Mapped(make, eig.triples);
  }

  ghost function ScoreOf(kind: Matching, eig: EigenSolution): Scoring<FlutterRoot> {
    if kind.OneSided? then OneSidedScore(eig.size, eig.B) else SymmetricScore(eig.size, eig.B)
  }

  lemma ScorePrefers(kind: Matching, eig: EigenSolution, prev: FlutterRoot, a: FlutterRoot, b: FlutterRoot)
    ensures Exceeds(ScoreOf(kind, eig)(prev, a), ScoreOf(kind, eig)(prev, b))
       <==> Beats(Product(kind, eig, prev, a.evecLeft, a.evecRight), prev.root.Minus(a.root),
                  Product(kind, eig, prev, b.evecLeft, b.evecRight), prev.root.Minus(b.root))
  {
    hide BProduct, SymmetricScore, OneSidedScore, Beats, Exceeds, Complex.Minus, Complex.Plus, Complex.NormSq;
    if kind.OneSided? {
      OneSidedScorePrefers(eig.size, eig.B, prev, a, b);
    } else {
      SymmetricScorePrefers(eig.size, eig.B, prev, a, b);
    }
  }

  lemma ScoreIsNonNegative(kind: Matching, eig: EigenSolution)
    ensures NonNegative(ScoreOf(kind, eig))
  {
    hide NonNegative, SymmetricScore, OneSidedScore;
    ScoresNonNegative(eig.size, eig.B);
  }

  lemma MatchingFollows(kind: Matching, isRoot: RootOf, make: EigenTriple -> FlutterRoot, eig: EigenSolution,
                        prev: seq<FlutterRoot>)
    requires |prev| == |eig.triples|
    requires forall t :: isRoot(t, make(t)) && make(t).evecLeft == t.left && make(t).evecRight == t.right
    ensures Follows(kind, isRoot, eig, prev, Tracked(ScoreOf(kind, eig), prev, Mapped(make, eig.triples), 0))
  {
    hide ScoreOf, Tracked, StrictlyPrefers, NonNegative, Exceeds, Beats, Product, StaysOrthogonal, Complex.Minus;
    var score, cur := ScoreOf(kind, eig), Mapped(make, eig.triples);
    var r := Tracked(score, prev, cur, 0);
    ScoreIsNonNegative(kind, eig);
    TrackedFromStart(score, prev, cur);
    forall p, k | 0 <= p < k < |r|
      ensures !Beats(Product(kind, eig, prev[p], r[k].evecLeft, r[k].evecRight), prev[p].root.Minus(r[k].root),
                     Product(kind, eig, prev[p], r[p].evecLeft, r[p].evecRight), prev[p].root.Minus(r[p].root))
    {
      ScorePrefers(kind, eig, prev[p], r[k], r[p]);
    }
    Reordered(isRoot, make, eig.triples, r);
    forall next: seq<EigenTriple> | multiset(next) == multiset(eig.triples) && StaysOrthogonal(kind, eig, prev, next)
      ensures Belong(isRoot, next, r)
    {
      OrthogonalPrefers(kind, make, eig, prev, next);
      MapPermutes(make, next, eig.triples);
    }
  }

  /** Across modes that stay orthogonal the scores vanish, and within a mode they do not. */
  lemma OrthogonalPrefers(kind: Matching, make: EigenTriple -> FlutterRoot, eig: EigenSolution, prev: seq<FlutterRoot>,
                          next: seq<EigenTriple>)
    requires StaysOrthogonal(kind, eig, prev, next)
    requires forall t :: make(t).evecLeft == t.left && make(t).evecRight == t.right
    ensures StrictlyPrefers(ScoreOf(kind, eig), prev, Mapped(make, next))
  {
    hide Quotient, Product, Complex.Scaled, Complex.Minus, Exceeds, ScoreOf;
    var score, cand, f := ScoreOf(kind, eig), Mapped(make, next), if kind.OneSided? then 1.0 else 0.5;
    forall i, j | 0 <= i < |prev| && 0 <= j < |prev|
      ensures score(prev[i], cand[j])
           == Quotient(Product(kind, eig, prev[i], next[j].left, next[j].right).Scaled(f),
                       prev[i].root.Minus(cand[j].root))
    {
      ScoreIs(kind, eig, prev[i], cand[j]);
    }
    forall i | 0 <= i < |prev|
      ensures Exceeds(score(prev[i], cand[i]), NO_SCORE)
    {
      QuotientOfProduct(Product(kind, eig, prev[i], next[i].left, next[i].right), prev[i].root.Minus(cand[i].root), f);
    }
    forall i, j | 0 <= i < |prev| && 0 <= j < |prev| && i != j
      ensures score(prev[i], cand[j]).Undefined? || score(prev[i], cand[j]) == NO_SCORE
    {
      QuotientOfNothing(prev[i].root.Minus(cand[j].root), f);
    }
  }

  lemma ScoreIs(kind: Matching, eig: EigenSolution, p: FlutterRoot, c: FlutterRoot)
    ensures ScoreOf(kind, eig)(p, c)
         == Quotient(Product(kind, eig, p, c.evecLeft, c.evecRight).Scaled(if kind.OneSided? then 1.0 else 0.5),
                     p.root.Minus(c.root))
  {
    hide Inner, CApply, Quotient, Complex.Plus, Complex.Minus;
  }

  /** A non-zero product scores, at whatever distance; no product does not. */
  lemma QuotientOfProduct(p: Complex, d: Complex, f: real)
    requires p != Zero && f != 0.0
    ensures Exceeds(Quotient(p.Scaled(f), d), NO_SCORE)
  {
    NonZeroScaled(p, f);
    NormIsZero(p.Scaled(f));
    NormIsZero(d);
    hide Complex.NormSq, Complex.Scaled, QuotientOf;
    ScoresOfReals(p.Scaled(f).NormSq(), d.NormSq());
  }

  lemma QuotientOfNothing(d: Complex, f: real)
    ensures Quotient(Zero.Scaled(f), d).Undefined? || Quotient(Zero.Scaled(f), d) == NO_SCORE
  {
    ScaledNothing(f);
    NormIsZero(Zero);
    NormIsZero(d);
    hide Complex.NormSq, Complex.Scaled, QuotientOf;
    ScoresOfReals(0.0, d.NormSq());
  }

  lemma ScaledNothing(f: real)
    ensures Zero.Scaled(f) == Zero
  {
  }

  lemma ScoresOfReals(a: real, x: real)
    requires a >= 0.0 && x >= 0.0
    ensures a > 0.0 ==> Exceeds(QuotientOf(a, x), NO_SCORE)
    ensures QuotientOf(0.0, x).Undefined? || QuotientOf(0.0, x) == NO_SCORE
  {
    if a > 0.0 && x > 0.0 {
      PositiveRatio(a, x);
    }
  }

  lemma NonZeroScaled(p: Complex, f: real)
    requires p != Zero && f != 0.0
    ensures p.Scaled(f) != Zero
  {
    assert p.re != 0.0 ==> p.re * f != 0.0;
    assert p.im != 0.0 ==> p.im * f != 0.0;
  }

  lemma PositiveRatio(a: real, b: real)
    requires a > 0.0 && b > 0.0
    ensures a / b > 0.0
  {
  }

  // ---------------------------------------------------------------------------------------------
  // Reordering
  // ---------------------------------------------------------------------------------------------

  function Mapped<A, B>(f: A -> B, s: seq<A>): (r: seq<B>)
    ensures |r| == |s|
  {
    seq(|s|, i requires 0 <= i < |s| => f(s[i]))
  }

  function Without<A>(s: seq<A>, k: nat): (r: seq<A>)
    requires k < |s|
    ensures |r| == |s| - 1
  {
    s[..k] + s[k + 1..]
  }

  lemma MappedWithout<A, B>(f: A -> B, s: seq<A>, k: nat)
    requires k < |s|
    ensures Mapped(f, Without(s, k)) == Without(Mapped(f, s), k)
  {
  }

  lemma WithoutOne<A>(s: seq<A>, k: nat)
    requires k < |s|
    ensures multiset(s) == multiset(Without(s, k)) + multiset{s[k]}
    ensures multiset(Without(s, k)) == multiset(s) - multiset{s[k]}
  {
    assert s == s[..k] + [s[k]] + s[k + 1..];
  }

  /** Values of a reordered list are the values, reordered. */
  lemma {:induction false} MapPermutes<A, B>(f: A -> B, s: seq<A>, t: seq<A>)
    requires multiset(s) == multiset(t)
    ensures multiset(Mapped(f, s)) == multiset(Mapped(f, t))
    decreases |s|
  {
    if s == [] {
      assert |multiset(t)| == 0;
    } else {
      assert s[0] in multiset(t);
      var k :| 0 <= k < |t| && t[k] == s[0];
      assert Mapped(f, s)[0] == Mapped(f, t)[k];
      hide Without, Mapped;
      WithoutOne(s, 0);
      WithoutOne(t, k);
      MapPermutes(f, Without(s, 0), Without(t, k));
      MappedWithout(f, s, 0);
      MappedWithout(f, t, k);
      WithoutOne(Mapped(f, s), 0);
      WithoutOne(Mapped(f, t), k);
    }
  }

  lemma Restored<A>(s: seq<A>)
    requires s != []
    ensures s == [s[0]] + Without(s, 0)
  {
  }

  lemma MappedNext<A, B>(f: A -> B, x: A, t: seq<A>)
    ensures Mapped(f, [x] + t) == [f(x)] + Mapped(f, t)
  {
  }

  /** And a reordering of the values comes from a reordering of the list. */
  lemma {:induction false} Unmapped<A, B>(f: A -> B, s: seq<A>, r: seq<B>) returns (t: seq<A>)
    requires multiset(r) == multiset(Mapped(f, s))
    ensures multiset(t) == multiset(s) && r == Mapped(f, t)
    decreases |r|
  {
    if r == [] {
      assert |multiset(Mapped(f, s))| == 0;
      t := [];
    } else {
      assert r[0] in multiset(Mapped(f, s));
      var k :| 0 <= k < |s| && Mapped(f, s)[k] == r[0];
      assert f(s[k]) == r[0];
      hide Without, Mapped;
      WithoutOne(r, 0);
      WithoutOne(Mapped(f, s), k);
      MappedWithout(f, s, k);
      var rest := Unmapped(f, Without(s, k), Without(r, 0));
      WithoutOne(s, k);
      t := [s[k]] + rest;
      Restored(r);
      MappedNext(f, s[k], rest);
      assert multiset(t) == multiset{s[k]} + multiset(rest);
    }
  }

  lemma Reordered(isRoot: RootOf, make: EigenTriple -> FlutterRoot, triples: seq<EigenTriple>, r: seq<FlutterRoot>)
    requires multiset(r) == multiset(Mapped(make, triples)) && forall t :: isRoot(t, make(t))
    ensures BelongInSomeOrder(isRoot, triples, r)
  {
    var order := Unmapped(make, triples, r);
    assert Belong(isRoot, order, r);
  }
}
