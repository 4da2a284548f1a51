/** The bracketed linear-interpolation search for a zero of the damping. The bracket ends may stand in
    either order on the velocity (or reduced frequency) axis. */
module RegulaFalsi {
  import opened Scalars

  datatype Bracket = Bracket(lowerV: real, lowerG: real, upperV: real, upperG: real)

  type DampingCurve = real -> real

  /** What crossover detection guarantees of a bracketed crossover. */
  predicate Signed(b: Bracket) {
    b.lowerG <= 0.0 < b.upperG
  }

  predicate Proper(b: Bracket) {
    b.lowerG < 0.0 < b.upperG && b.lowerV != b.upperV
  }

  predicate Between(v: real, a: real, b: real) {
    a < v < b || b < v < a
  }

  /** Linear interpolation to zero damping. */
  function LinearZero(lowerV: real, lowerG: real, upperV: real, upperG: real): real
    requires upperG != lowerG
  {
    lowerV + (upperV - lowerV) / (upperG - lowerG) * (0.0 - lowerG)
  }

  function Trial(b: Bracket): real
    requires b.upperG != b.lowerG
  {
    LinearZero(b.lowerV, b.lowerG, b.upperV, b.upperG)
  }

  function Narrow(b: Bracket, v: real, g: real): Bracket {
    if g < 0.0 then b.(lowerV := v, lowerG := g) else b.(upperV := v, upperG := g)
  }

  /** The parameter values the search analyses, in order. */
  function Trials(damping: DampingCurve, b: Bracket, gTol: real, iters: nat): (t: seq<real>)
    requires Signed(b) && gTol >= 0.0
    ensures |t| <= iters && (iters > 0 ==> |t| > 0)
    decreases iters
  {
    if iters == 0 then []
    else
      var v := Trial(b);
      if Abs(damping(v)) <= gTol then [v]
      else [v] + Trials(damping, Narrow(b, v, damping(v)), gTol, iters - 1)
  }

  lemma TrialsUnfold(damping: DampingCurve, b: Bracket, gTol: real, iters: nat)
    requires Signed(b) && gTol >= 0.0 && iters > 0
    ensures var v := Trial(b);
            var g := damping(v);
            Trials(damping, b, gTol, iters)
            == if Abs(g) <= gTol then [v]
               else [v] + Trials(damping, Narrow(b, v, g), gTol, iters - 1)
  {
  }

  // ---------------------------------------------------------------------------------------------

  lemma QuotientSign(d: real, w: real)
    requires w > 0.0
    ensures d > 0.0 ==> d / w > 0.0
    ensures d < 0.0 ==> d / w < 0.0
  {
  }

  /** A proper fraction m / w of a non-zero length d lies strictly between 0 and d. */
  lemma Fraction(d: real, w: real, m: real)
    requires d != 0.0 && 0.0 < m < w
    ensures Between(d / w * m, 0.0, d)
  {
    var q := d / w;
    QuotientSign(d, w);
    assert Mul(q, m) + Mul(q, w - m) == Mul(q, w) == d;
    assert Mul(q, m) == d / w * m;
    hide Mul;
  }

  /** With the velocities apart, the trial point is strictly inside the bracket exactly when the damping at
      the lower end is strictly negative; when that damping is zero the trial point is the lower end itself. */
  lemma TrialIsInside(b: Bracket)
    requires Signed(b) && b.lowerV != b.upperV
    ensures Between(Trial(b), b.lowerV, b.upperV) <==> b.lowerG < 0.0
    ensures b.lowerG == 0.0 <==> Trial(b) == b.lowerV
  {
    if b.lowerG < 0.0 {
      Fraction(b.upperV - b.lowerV, b.upperG - b.lowerG, 0.0 - b.lowerG);
    } else {
      assert b.lowerG == 0.0;
    }
  }

  /** A non-zero damping at the trial point gives a strictly smaller bracket with the same signs. */
  lemma NarrowIsNested(b: Bracket, g: real)
    requires Proper(b) && g != 0.0
    ensures var nb := Narrow(b, Trial(b), g);
            && Proper(nb)
            && forall v: real :: Between(v, nb.lowerV, nb.upperV) ==> Between(v, b.lowerV, b.upperV) && v != Trial(b)
  {
    TrialIsInside(b);
  }

  /** Every trial point lies strictly inside the starting bracket. */
  lemma {:induction false} TrialsInside(damping: DampingCurve, b: Bracket, gTol: real, iters: nat, k: nat)
    requires Proper(b) && gTol >= 0.0 && k < |Trials(damping, b, gTol, iters)|
    ensures Between(Trials(damping, b, gTol, iters)[k], b.lowerV, b.upperV)
    decreases iters
  {
    TrialIsInside(b);
    if k > 0 {
      var g := damping(Trial(b));
      NarrowIsNested(b, g);
      TrialsInside(damping, Narrow(b, Trial(b), g), gTol, iters - 1, k - 1);
    }
  }

  /** Trial points within one search never repeat. */
  lemma {:induction false} TrialsDistinct(damping: DampingCurve, b: Bracket, gTol: real, iters: nat, j: nat, k: nat)
    requires Proper(b) && gTol >= 0.0 && j < k < |Trials(damping, b, gTol, iters)|
    ensures Trials(damping, b, gTol, iters)[j] != Trials(damping, b, gTol, iters)[k]
    decreases iters
  {
    var g := damping(Trial(b));
    var nb := Narrow(b, Trial(b), g);
    NarrowIsNested(b, g);
    if j > 0 {
      TrialsDistinct(damping, nb, gTol, iters - 1, j - 1, k - 1);
    } else {
      TrialsInside(damping, nb, gTol, iters - 1, k - 1);
    }
  }

  /** The search stops early only on a damping within the tolerance. */
  lemma {:induction false} LastTrialConverged(damping: DampingCurve, b: Bracket, gTol: real, iters: nat)
    requires Signed(b) && gTol >= 0.0 && iters > 0
    ensures var t := Trials(damping, b, gTol, iters);
            && (|t| < iters ==> Abs(damping(t[|t| - 1])) <= gTol)
            && (forall k | 0 <= k < |t| - 1 :: Abs(damping(t[k])) > gTol)
    decreases iters
  {
    var v := Trial(b);
    if iters > 1 && Abs(damping(v)) > gTol {
      LastTrialConverged(damping, Narrow(b, v, damping(v)), gTol, iters - 1);
    }
  }

  /** If the damping is affine in the parameter, the first trial point has zero damping and ends the search. */
  lemma AffineConvergesAtOnce(damping: DampingCurve, b: Bracket, gTol: real, iters: nat, slope: real)
    requires Signed(b) && gTol >= 0.0 && iters > 0 && b.lowerV != b.upperV
    requires forall v: real :: damping(v) == b.lowerG + slope * (v - b.lowerV)
    requires damping(b.upperV) == b.upperG
    ensures Trials(damping, b, gTol, iters) == [Trial(b)] && damping(Trial(b)) == 0.0
  {
    hide Trial, Trials;
    AffineTrial(b, slope);
    TrialsUnfold(damping, b, gTol, iters);
  }

  lemma AffineTrial(b: Bracket, slope: real)
    requires Signed(b) && b.lowerV != b.upperV
    requires slope * (b.upperV - b.lowerV) == b.upperG - b.lowerG
    ensures b.lowerG + slope * (Trial(b) - b.lowerV) == 0.0
  {
    var d, w := b.upperV - b.lowerV, b.upperG - b.lowerG;
    var q := d / w;
    assert Trial(b) - b.lowerV == q * (0.0 - b.lowerG);
    AffineZero(slope, d, w, q, 0.0 - b.lowerG);
    hide Trial;
  }

  lemma AffineZero(slope: real, d: real, w: real, q: real, m: real)
    requires slope * d == w && q * w == d && d != 0.0
    ensures slope * (q * m) == m
  {
    assert (slope * q) * w == w by {
      assert (slope * q) * w == slope * (q * w);
    }
    assert w != 0.0;
    assert slope * q == 1.0 by {
      assert (slope * q - 1.0) * w == 0.0;
    }
    assert slope * (q * m) == (slope * q) * m;
  }
}
