/** Leader calibration: solving a joint convention from pose samples, and applying it.
    Angles are degrees over the reals; the circular mean and the square root are any functions with
    the one property used. */
module Calibration {
  import opened Wrappers
  import opened Reals
  import opened Angles

  /** Averaging equal angles gives that angle, up to full turns. Nothing is assumed about other input. */
  ghost predicate IsCircularMean(mean: seq<real> -> real) {
    forall vals: seq<real>, v: real :: vals != [] && (forall i :: 0 <= i < |vals| ==> vals[i] == v) ==> Congruent(mean(vals), v)
  }

  /** One captured pose: the leader's joints and the follower reference they stand for. */
  datatype Sample = Sample(leader: seq<real>, ref: seq<real>)

  datatype Fit = Fit(offset: real, rms: real)

  datatype PoseFit = PoseFit(offsets: seq<real>, flips: seq<int>, residuals: seq<real>, ambiguous: seq<int>, count: nat)

  const SIGN_TIE := 0.000001

  predicate Shaped(samples: seq<Sample>, dof: nat) {
    forall i :: 0 <= i < |samples| ==> |samples[i].leader| == |samples[i].ref| == dof
  }

  function Signed(flip: bool, x: real): real { if flip then -x else x }

  /** The offset one sample asks of joint `j` under a sign. */
  function Estimate(s: Sample, j: nat, flip: bool): real
    requires j < |s.leader| == |s.ref|
  {
    Wrap(Signed(flip, s.ref[j]) - s.leader[j])
  }

  function Estimates(samples: seq<Sample>, j: nat, flip: bool): (est: seq<real>)
    requires forall i :: 0 <= i < |samples| ==> j < |samples[i].leader| == |samples[i].ref|
    ensures |est| == |samples| && forall i :: 0 <= i < |est| ==> est[i] == Estimate(samples[i], j, flip)
  {
    seq(|samples|, i requires 0 <= i < |samples| => Estimate(samples[i], j, flip))
  }

  function SumSquares(xs: seq<real>): (t: real)
    ensures t >= 0.0
  {
    if |xs| == 0 then 0.0 else SumSquares(xs[..|xs| - 1]) + xs[|xs| - 1] * xs[|xs| - 1]
  }

  function Deviations(est: seq<real>, offset: real): (d: seq<real>)
    ensures |d| == |est| && forall i :: 0 <= i < |d| ==> d[i] == Wrap(est[i] - offset)
  {
    seq(|est|, i requires 0 <= i < |est| => Wrap(est[i] - offset))
  }

  /** Circular least-squares fit of one sign. */
  function FitOf(est: seq<real>, mean: seq<real> -> real, sqrt: real -> real): Fit
    requires |est| > 0
  {
    Fit(mean(est), sqrt(SumSquares(Deviations(est, mean(est))) / |est| as real))
  }

  predicate Tied(plus: Fit, minus: Fit) { Abs(plus.rms - minus.rms) <= SIGN_TIE }

  /** The sign kept for joint `j`: the better fit, or the configured one on a tie. */
  predicate FlipChosen(plus: Fit, minus: Fit, fallback: bool) {
    if Tied(plus, minus) then fallback else minus.rms < plus.rms
  }

  function JointFit(samples: seq<Sample>, j: nat, flip: bool, mean: seq<real> -> real, sqrt: real -> real): Fit
    requires |samples| > 0 && forall i :: 0 <= i < |samples| ==> j < |samples[i].leader| == |samples[i].ref|
  {
    FitOf(Estimates(samples, j, flip), mean, sqrt)
  }

  predicate SolvedFlip(samples: seq<Sample>, j: nat, fallback: bool, mean: seq<real> -> real, sqrt: real -> real)
    requires |samples| > 0 && forall i :: 0 <= i < |samples| ==> j < |samples[i].leader| == |samples[i].ref|
  {
    FlipChosen(JointFit(samples, j, false, mean, sqrt), JointFit(samples, j, true, mean, sqrt), fallback)
  }

  // ---- The solver as it runs -------------------------------------------------------------------

  method MeasureEstimates(samples: seq<Sample>, j: nat, flip: bool) returns (est: seq<real>)
    requires forall i :: 0 <= i < |samples| ==> j < |samples[i].leader| == |samples[i].ref|
    ensures est == Estimates(samples, j, flip)
  {
    est := [];
    for i := 0 to |samples|
      invariant |est| == i && forall k :: 0 <= k < i ==> est[k] == Estimate(samples[k], j, flip)
    {
      est := est + [Wrap(Signed(flip, samples[i].ref[j]) - samples[i].leader[j])];
    }
  }

  method MeasureResidual(est: seq<real>, offset: real) returns (total: real)
    ensures total == SumSquares(Deviations(est, offset))
  {
    ghost var dev := Deviations(est, offset);
    total := 0.0;
    for i := 0 to |est|
      invariant total == SumSquares(dev[..i])
    {
      var d := Wrap(est[i] - offset);
      assert dev[..i + 1][..i] == dev[..i] && dev[i] == d;
      total := total + d * d;
    }
    assert dev[..|dev|] == dev;
  }

  method MeasureSign(samples: seq<Sample>, j: nat, flip: bool, mean: seq<real> -> real, sqrt: real -> real) returns (fit: Fit)
    requires |samples| > 0 && forall i :: 0 <= i < |samples| ==> j < |samples[i].leader| == |samples[i].ref|
    ensures fit == JointFit(samples, j, flip, mean, sqrt)
  {
    var est := MeasureEstimates(samples, j, flip);
    var off := mean(est);
    var total := MeasureResidual(est, off);
    fit := Fit(off, sqrt(total / |est| as real));
  }

  /** The outcome of joint `j`: better sign and its fit, with the configured sign kept on a tie. */
  ghost predicate JointSolved(fit: Fit, flipped: bool, ambiguous: bool, samples: seq<Sample>, j: nat, fallback: bool,
                              mean: seq<real> -> real, sqrt: real -> real)
    requires |samples| > 0 && forall i :: 0 <= i < |samples| ==> j < |samples[i].leader| == |samples[i].ref|
  {
    && flipped == SolvedFlip(samples, j, fallback, mean, sqrt)
    && ambiguous == Tied(JointFit(samples, j, false, mean, sqrt), JointFit(samples, j, true, mean, sqrt))
    && fit == JointFit(samples, j, flipped, mean, sqrt)
  }

  ghost predicate IndicesOk(fit: PoseFit, n: nat) {
    && (forall k :: k in fit.flips || k in fit.ambiguous ==> 0 <= k < n)
    && (forall a, b :: 0 <= a < b < |fit.flips| ==> fit.flips[a] < fit.flips[b])
  }

  /** What `solve_from_samples` returns, joint by joint. */
  ghost predicate IsSolution(fit: PoseFit, samples: seq<Sample>, dof: nat, n: nat, fallback: set<int>,
                             mean: seq<real> -> real, sqrt: real -> real)
    requires |samples| > 0 && Shaped(samples, dof) && n <= dof
  {
    && |fit.offsets| == |fit.residuals| == n && fit.count == |samples| && IndicesOk(fit, n)
    && forall j :: 0 <= j < n ==>
         JointSolved(Fit(fit.offsets[j], fit.residuals[j]), j in fit.flips, j in fit.ambiguous, samples, j, j in fallback, mean, sqrt)
  }

  function Extended(fit: PoseFit, kept: Fit, n: int, flip: bool, tied: bool): PoseFit {
    PoseFit(fit.offsets + [kept.offset], if flip then fit.flips + [n] else fit.flips,
            fit.residuals + [kept.rms], if tied then fit.ambiguous + [n] else fit.ambiguous, fit.count)
  }

  lemma IndicesExtend(fit: PoseFit, kept: Fit, n: nat, flip: bool, tied: bool)
    requires IndicesOk(fit, n)
    ensures var fit' := Extended(fit, kept, n, flip, tied);
            && IndicesOk(fit', n + 1) && (n in fit'.flips <==> flip) && (n in fit'.ambiguous <==> tied)
            && forall j :: j != n ==> (j in fit'.flips <==> j in fit.flips) && (j in fit'.ambiguous <==> j in fit.ambiguous)
  {
    assert forall a :: 0 <= a < |fit.flips| ==> fit.flips[a] in fit.flips;
  }

  lemma SolutionExtends(fit: PoseFit, samples: seq<Sample>, dof: nat, n: nat, fallback: set<int>,
                        mean: seq<real> -> real, sqrt: real -> real, kept: Fit, flip: bool, tied: bool)
    requires |samples| > 0 && Shaped(samples, dof) && n < dof && IsSolution(fit, samples, dof, n, fallback, mean, sqrt)
    requires JointSolved(kept, flip, tied, samples, n, n in fallback, mean, sqrt)
    ensures IsSolution(Extended(fit, kept, n, flip, tied), samples, dof, n + 1, fallback, mean, sqrt)
  {
    IndicesExtend(fit, kept, n, flip, tied);
    var fit' := Extended(fit, kept, n, flip, tied);
    forall j | 0 <= j < n + 1
      ensures JointSolved(Fit(fit'.offsets[j], fit'.residuals[j]), j in fit'.flips, j in fit'.ambiguous, samples, j, j in fallback, mean, sqrt)
    {
      if j < n {
        assert fit'.offsets[j] == fit.offsets[j] && fit'.residuals[j] == fit.residuals[j];
      }
    }
  }

  method SolveFromSamples(samples: seq<Sample>, fallback: set<int>, mean: seq<real> -> real, sqrt: real -> real)
    returns (r: Option<PoseFit>)
    ensures r.Some? <==> samples != [] && Shaped(samples, |samples[0].leader|)
    ensures r.Some? ==> IsSolution(r.value, samples, |samples[0].leader|, |samples[0].leader|, fallback, mean, sqrt)
  {
    if samples == [] { return None; }
    var dof := |samples[0].leader|;
    if !Shaped(samples, dof) { return None; }
    var fit := PoseFit([], [], [], [], |samples|);
    for j := 0 to dof
      invariant IsSolution(fit, samples, dof, j, fallback, mean, sqrt)
    {
      var plus := MeasureSign(samples, j, false, mean, sqrt);
      var minus := MeasureSign(samples, j, true, mean, sqrt);
      var flip, tied := false, false;
      if Abs(plus.rms - minus.rms) <= SIGN_TIE {
        flip, tied := j in fallback, true;
      } else {
        flip := minus.rms < plus.rms;
      }
      var kept := if flip then minus else plus;
      SolutionExtends(fit, samples, dof, j, fallback, mean, sqrt, kept, flip, tied);
      fit := PoseFit(fit.offsets + [kept.offset], if flip then fit.flips + [j] else fit.flips,
                     fit.residuals + [kept.rms], if tied then fit.ambiguous + [j] else fit.ambiguous, fit.count);
    }
    r := Some(fit);
  }

  // ---- Residuals -------------------------------------------------------------------------------

  lemma {:induction false} SumSquaresOfZeros(xs: seq<real>)
    requires forall i :: 0 <= i < |xs| ==> xs[i] == 0.0
    ensures SumSquares(xs) == 0.0
  {
    if |xs| > 0 { SumSquaresOfZeros(xs[..|xs| - 1]); }
  }

  lemma PositiveProduct(x: real, y: real, product: real)
    requires x > 0.0 && y > 0.0 && product == x * y
    ensures product > 0.0
  {
  }

  lemma SquarePositive(x: real, square: real)
    requires x != 0.0 && square == x * x
    ensures square > 0.0
  {
    if x < 0.0 { PositiveProduct(-x, -x, square); } else { PositiveProduct(x, x, square); }
  }

  lemma {:induction false} SumSquaresAtLeastOne(xs: seq<real>, p: nat)
    requires p < |xs|
    ensures SumSquares(xs) >= xs[p] * xs[p]
  {
    var init := xs[..|xs| - 1];
    if p < |xs| - 1 {
      SumSquaresAtLeastOne(init, p);
      SquareNonNegative(xs[|xs| - 1]);
    }
  }

  lemma {:induction false} SumSquaresAtLeastTwo(xs: seq<real>, p: nat, q: nat)
    requires p < q < |xs|
    ensures SumSquares(xs) >= xs[p] * xs[p] + xs[q] * xs[q]
  {
    var init := xs[..|xs| - 1];
    if q < |xs| - 1 {
      SumSquaresAtLeastTwo(init, p, q);
      SquareNonNegative(xs[|xs| - 1]);
    } else {
      SumSquaresAtLeastOne(init, p);
    }
  }

  /** The residual vanishes exactly when every estimate is the offset, up to full turns. */
  lemma ZeroRms(est: seq<real>, mean: seq<real> -> real, sqrt: real -> real)
    requires |est| > 0 && IsSqrt(sqrt)
    ensures var f := FitOf(est, mean, sqrt);
            f.rms == 0.0 <==> forall i :: 0 <= i < |est| ==> Wrap(est[i] - f.offset) == 0.0
  {
    var f := FitOf(est, mean, sqrt);
    RmsSquared(est, mean, sqrt);
    ZeroScaled(f.rms, |est| as real, Deviations(est, f.offset));
  }

  lemma ScaledSquare(x: real, n: real, square: real, total: real)
    requires n > 0.0 && square == x * x && total == square * n
    ensures x != 0.0 <==> total > 0.0
  {
    if x != 0.0 {
      SquarePositive(x, square);
      PositiveProduct(square, n, total);
    }
  }

  lemma SumSquaresPositive(xs: seq<real>, i: nat)
    requires i < |xs| && xs[i] != 0.0
    ensures SumSquares(xs) > 0.0
  {
    var square := xs[i] * xs[i];
    SquarePositive(xs[i], square);
    SumSquaresAtLeastOne(xs, i);
  }

  lemma ZeroScaled(rms: real, n: real, dev: seq<real>)
    requires n > 0.0 && rms * rms * n == SumSquares(dev)
    ensures rms == 0.0 <==> forall i :: 0 <= i < |dev| ==> dev[i] == 0.0
  {
    ScaledSquare(rms, n, rms * rms, SumSquares(dev));
    if i :| 0 <= i < |dev| && dev[i] != 0.0 {
      SumSquaresPositive(dev, i);
    } else {
      SumSquaresOfZeros(dev);
    }
  }

  lemma RmsSquared(est: seq<real>, mean: seq<real> -> real, sqrt: real -> real)
    requires |est| > 0 && IsSqrt(sqrt)
    ensures var f := FitOf(est, mean, sqrt);
            f.rms >= 0.0 && f.rms * f.rms * |est| as real == SumSquares(Deviations(est, f.offset))
  {
    var f := FitOf(est, mean, sqrt);
    var total, n := SumSquares(Deviations(est, f.offset)), |est| as real;
    assert total / n >= 0.0;
    assert f.rms * f.rms == total / n;
    assert total / n * n == total;
  }

  lemma DeviationGap(est: seq<real>, offset: real, p: nat, q: nat)
    requires p < q < |est|
    ensures var dev := Deviations(est, offset);
            Abs(dev[p] - dev[q]) >= Abs(Wrap(est[p] - est[q]))
  {
    var a, b := Wrap(est[p] - offset), Wrap(est[q] - offset);
    WrapCongruent(est[p] - offset);
    WrapCongruent(est[q] - offset);
    CongruentAdd(a, est[p] - offset, b, est[q] - offset);
    assert est[p] - offset - (est[q] - offset) == est[p] - est[q];
    WrapIsShortest(a - b, est[p] - est[q]);
  }

  lemma GapSquares(xs: seq<real>, p: nat, q: nat, d: real)
    requires p < q < |xs| && 0.0 <= d <= Abs(xs[p] - xs[q])
    ensures 2.0 * SumSquares(xs) >= d * d
  {
    SumSquaresAtLeastTwo(xs, p, q);
    HalfSquare(xs[p], xs[q], d);
  }

  /** Whatever the mean returns, two estimates a wrapped distance `d` apart leave a mean square of at least `d^2 / 2n`. */
  lemma SpreadLeavesResidual(est: seq<real>, mean: seq<real> -> real, sqrt: real -> real, p: nat, q: nat, d: real)
    requires p < q < |est| && IsSqrt(sqrt) && d == Abs(Wrap(est[p] - est[q]))
    ensures var f := FitOf(est, mean, sqrt);
            f.rms >= 0.0 && 2.0 * (f.rms * f.rms * |est| as real) >= d * d
  {
    RmsSquared(est, mean, sqrt);
    DeviationGap(est, mean(est), p, q);
    GapSquares(Deviations(est, mean(est)), p, q, d);
  }

  lemma HalfSquare(a: real, b: real, d: real)
    requires 0.0 <= d <= Abs(a - b)
    ensures 2.0 * (a * a + b * b) >= d * d
  {
    var e := Abs(a - b);
    assert d * d <= e * e by { SquareMonotone(d, e); }
    assert e * e == (a - b) * (a - b);
    SquareNonNegative(a + b);
    assert (a - b) * (a - b) + (a + b) * (a + b) == 2.0 * (a * a + b * b);
  }

  // ---- The sign that is kept, on any samples -------------------------------------------------------

  /** How far a sign and an offset leave joint `j` of one sample from its reference. */
  function Misfit(s: Sample, j: nat, flip: bool, offset: real): real
    requires j < |s.leader| == |s.ref|
  {
    Wrap((if flip then 0.0 - s.ref[j] else s.ref[j]) - (s.leader[j] + offset))
  }

  function SquaredError(samples: seq<Sample>, j: nat, flip: bool, offset: real, n: nat): real
    requires n <= |samples| && forall i :: 0 <= i < |samples| ==> j < |samples[i].leader| == |samples[i].ref|
  {
    if n == 0 then 0.0 else
      SquaredError(samples, j, flip, offset, n - 1) + Misfit(samples[n - 1], j, flip, offset) * Misfit(samples[n - 1], j, flip, offset)
  }

  lemma DeviationIsError(x: real, offset: real)
    ensures Wrap(Wrap(x) - offset) == Wrap(x - offset)
  {
    WrapCongruent(x);
    CongruentSelf(offset);
    CongruentAdd(Wrap(x), x, offset, offset);
    WrapRespects(Wrap(x) - offset, x - offset);
  }

  lemma DeviationIsMisfit(s: Sample, j: nat, flip: bool, offset: real)
    requires j < |s.leader| == |s.ref|
    ensures Wrap(Estimate(s, j, flip) - offset) == Misfit(s, j, flip, offset)
  {
    DeviationIsError(Signed(flip, s.ref[j]) - s.leader[j], offset);
    assert Signed(flip, s.ref[j]) - s.leader[j] - offset == Signed(flip, s.ref[j]) - (s.leader[j] + offset);
  }

  lemma {:induction false} MisfitsSum(dev: seq<real>, samples: seq<Sample>, j: nat, flip: bool, offset: real, n: nat)
    requires n <= |samples| == |dev| && forall i :: 0 <= i < |samples| ==> j < |samples[i].leader| == |samples[i].ref|
    requires forall i :: 0 <= i < |dev| ==> dev[i] == Misfit(samples[i], j, flip, offset)
    ensures SumSquares(dev[..n]) == SquaredError(samples, j, flip, offset, n)
    decreases n
  {
    if n > 0 {
      MisfitsSum(dev, samples, j, flip, offset, n - 1);
      assert dev[..n][..n - 1] == dev[..n - 1];
    }
  }

  lemma DeviationsAreErrors(samples: seq<Sample>, j: nat, flip: bool, offset: real)
    requires forall i :: 0 <= i < |samples| ==> j < |samples[i].leader| == |samples[i].ref|
    ensures SumSquares(Deviations(Estimates(samples, j, flip), offset)) == SquaredError(samples, j, flip, offset, |samples|)
  {
    var dev := Deviations(Estimates(samples, j, flip), offset);
    forall i | 0 <= i < |dev| ensures dev[i] == Misfit(samples[i], j, flip, offset) {
      DeviationIsMisfit(samples[i], j, flip, offset);
    }
    MisfitsSum(dev, samples, j, flip, offset, |samples|);
    assert dev[..|samples|] == dev;
  }

  /** The residual of a sign is the root mean square of what its offset leaves. */
  lemma ResidualIsRms(samples: seq<Sample>, j: nat, flip: bool, mean: seq<real> -> real, sqrt: real -> real, f: Fit)
    requires |samples| > 0 && forall i :: 0 <= i < |samples| ==> j < |samples[i].leader| == |samples[i].ref|
    requires IsSqrt(sqrt) && f == JointFit(samples, j, flip, mean, sqrt)
    ensures f.offset == mean(Estimates(samples, j, flip))
    ensures f.rms >= 0.0 && f.rms * f.rms * |samples| as real == SquaredError(samples, j, flip, f.offset, |samples|)
  {
    RmsSquared(Estimates(samples, j, flip), mean, sqrt);
    DeviationsAreErrors(samples, j, flip, f.offset);
  }

  /** Whatever was captured, the sign kept for a joint leaves no more residual than either sign, up to the tie
      threshold; a decided joint keeps the strictly better one, an undecided one the configured one. */
  lemma KeepsBetterSign(fit: PoseFit, samples: seq<Sample>, dof: nat, fallback: set<int>, mean: seq<real> -> real, sqrt: real -> real, j: nat)
    requires |samples| > 0 && Shaped(samples, dof) && IsSolution(fit, samples, dof, dof, fallback, mean, sqrt) && j < dof
    ensures forall b :: fit.residuals[j] <= JointFit(samples, j, b, mean, sqrt).rms + 0.000001
    ensures var kept, other := JointFit(samples, j, j in fit.flips, mean, sqrt), JointFit(samples, j, j !in fit.flips, mean, sqrt);
            && fit.offsets[j] == kept.offset && fit.residuals[j] == kept.rms
            && (j !in fit.ambiguous <==> kept.rms + 0.000001 < other.rms || other.rms + 0.000001 < kept.rms)
            && (j !in fit.ambiguous ==> kept.rms + 0.000001 < other.rms)
            && (j in fit.ambiguous ==> (j in fit.flips <==> j in fallback))
  {
    var kept := Fit(fit.offsets[j], fit.residuals[j]);
    assert JointSolved(kept, j in fit.flips, j in fit.ambiguous, samples, j, j in fallback, mean, sqrt);
    forall b ensures kept.rms <= JointFit(samples, j, b, mean, sqrt).rms + 0.000001 {
      if b { } else { }
    }
  }

  // ---- Recovery of a convention ------------------------------------------------------------------

  /** Joint `j` of every sample obeys `ref = sign * (leader + offset)` up to full turns. */
  ghost predicate FromConvention(samples: seq<Sample>, j: nat, flip: bool, offset: real)
    requires forall i :: 0 <= i < |samples| ==> j < |samples[i].leader| == |samples[i].ref|
  {
    forall i :: 0 <= i < |samples| ==> Congruent(samples[i].ref[j], Signed(flip, samples[i].leader[j] + offset))
  }

  /** Two references far enough apart to tell the signs from each other. */
  ghost predicate Separates(samples: seq<Sample>, j: nat, p: nat, q: nat)
    requires forall i :: 0 <= i < |samples| ==> j < |samples[i].leader| == |samples[i].ref|
    requires p < q < |samples|
  {
    var d := Abs(Wrap(2.0 * (samples[p].ref[j] - samples[q].ref[j])));
    d * d > 2.0 * (|samples| as real * (SIGN_TIE * SIGN_TIE))
  }

  /** The estimate under either sign, up to full turns. */
  lemma EstimateOf(s: Sample, j: nat, flip: bool, offset: real)
    requires j < |s.leader| == |s.ref| && Congruent(s.ref[j], Signed(flip, s.leader[j] + offset))
    ensures Congruent(Estimate(s, j, flip), offset)
    ensures Congruent(Estimate(s, j, !flip), offset - 2.0 * Signed(flip, s.ref[j]))
  {
    var r, l := Signed(flip, s.ref[j]), s.leader[j];
    SignedCongruent(s.ref[j], l + offset, flip);
    CongruentSelf(l);
    CongruentAdd(r, l + offset, l, l);
    assert l + offset - l == offset;
    WrapCongruent(r - l);
    CongruentTransitive(Estimate(s, j, flip), r - l, offset);
    OtherEstimate(s, j, flip, offset);
  }

  lemma SignedCongruent(a: real, b: real, flip: bool)
    requires Congruent(a, Signed(flip, b))
    ensures Congruent(Signed(flip, a), b)
  {
    CongruentAdd(a, Signed(flip, b), a, Signed(flip, b));
  }

  lemma OtherEstimate(s: Sample, j: nat, flip: bool, offset: real)
    requires j < |s.leader| == |s.ref| && Congruent(Signed(flip, s.ref[j]) - s.leader[j], offset)
    ensures Congruent(Estimate(s, j, !flip), offset - 2.0 * Signed(flip, s.ref[j]))
  {
    var r, l := Signed(flip, s.ref[j]), s.leader[j];
    var back := 2.0 * r;
    CongruentSelf(back);
    CongruentAdd(r - l, offset, back, back);
    assert Signed(!flip, s.ref[j]) - l == r - l - back;
    WrapCongruent(Signed(!flip, s.ref[j]) - l);
    CongruentTransitive(Estimate(s, j, !flip), Signed(!flip, s.ref[j]) - l, offset - back);
  }

  /** The true sign fits without residual, at an offset congruent to the true one. */
  lemma TrueSignFits(samples: seq<Sample>, j: nat, flip: bool, offset: real, mean: seq<real> -> real, sqrt: real -> real)
    requires |samples| > 0 && forall i :: 0 <= i < |samples| ==> j < |samples[i].leader| == |samples[i].ref|
    requires FromConvention(samples, j, flip, offset) && IsCircularMean(mean) && IsSqrt(sqrt)
    ensures var f := JointFit(samples, j, flip, mean, sqrt);
            f.rms == 0.0 && Congruent(f.offset, offset)
  {
    var est := Estimates(samples, j, flip);
    var v := Wrap(offset);
    EstimatesAgree(samples, j, flip, offset);
    var f := FitOf(est, mean, sqrt);
    assert est != [] && Congruent(f.offset, v);
    WrapCongruent(offset);
    CongruentTransitive(f.offset, v, offset);
    NoDeviation(v, f.offset);
    ZeroRms(est, mean, sqrt);
  }

  /** Under the true sign every sample asks for the same offset. */
  lemma EstimatesAgree(samples: seq<Sample>, j: nat, flip: bool, offset: real)
    requires forall i :: 0 <= i < |samples| ==> j < |samples[i].leader| == |samples[i].ref|
    requires FromConvention(samples, j, flip, offset)
    ensures forall i :: 0 <= i < |samples| ==> Estimates(samples, j, flip)[i] == Wrap(offset)
  {
    forall i | 0 <= i < |samples| ensures Estimate(samples[i], j, flip) == Wrap(offset) {
      EstimateOf(samples[i], j, flip, offset);
      var e := Estimate(samples[i], j, flip);
      WrapRespects(e, offset);
      CongruentSelf(e);
      WrapRespects(e, e);
    }
  }

  lemma NoDeviation(v: real, offset: real)
    requires Congruent(offset, v)
    ensures Wrap(v - offset) == 0.0
  {
    CongruentSymmetric(offset, v);
    CongruentSelf(offset);
    CongruentAdd(v, offset, offset, offset);
    assert offset - offset == 0.0;
    WrapRespects(v - offset, 0.0);
  }

  /** The other sign leaves more residual than the tie threshold. */
  lemma WrongSignMisfits(samples: seq<Sample>, j: nat, flip: bool, offset: real, mean: seq<real> -> real, sqrt: real -> real, p: nat, q: nat)
    requires forall i :: 0 <= i < |samples| ==> j < |samples[i].leader| == |samples[i].ref|
    requires p < q < |samples| && Separates(samples, j, p, q)
    requires FromConvention(samples, j, flip, offset) && IsSqrt(sqrt)
    ensures JointFit(samples, j, !flip, mean, sqrt).rms > SIGN_TIE
  {
    WrongEstimatesApart(samples, j, flip, offset, p, q);
    FarEstimatesMisfit(Estimates(samples, j, !flip), mean, sqrt, p, q, Abs(Wrap(2.0 * (samples[p].ref[j] - samples[q].ref[j]))));
  }

  lemma FarEstimatesMisfit(est: seq<real>, mean: seq<real> -> real, sqrt: real -> real, p: nat, q: nat, d: real)
    requires p < q < |est| && IsSqrt(sqrt) && d == Abs(Wrap(est[p] - est[q]))
    requires d * d > 2.0 * (|est| as real * (SIGN_TIE * SIGN_TIE))
    ensures FitOf(est, mean, sqrt).rms > SIGN_TIE
  {
    SpreadLeavesResidual(est, mean, sqrt, p, q, d);
    BeatsThreshold(FitOf(est, mean, sqrt).rms, |est| as real, d);
  }

  /** Under the wrong sign two estimates differ by the doubled difference of their references. */
  lemma WrongEstimatesApart(samples: seq<Sample>, j: nat, flip: bool, offset: real, p: nat, q: nat)
    requires forall i :: 0 <= i < |samples| ==> j < |samples[i].leader| == |samples[i].ref|
    requires p < q < |samples| && FromConvention(samples, j, flip, offset)
    ensures var est := Estimates(samples, j, !flip);
            Abs(Wrap(est[p] - est[q])) == Abs(Wrap(2.0 * (samples[p].ref[j] - samples[q].ref[j])))
  {
    var a, b := Estimate(samples[p], j, !flip), Estimate(samples[q], j, !flip);
    var u, w := Signed(flip, samples[p].ref[j]), Signed(flip, samples[q].ref[j]);
    EstimateOf(samples[p], j, flip, offset);
    EstimateOf(samples[q], j, flip, offset);
    CongruentAdd(a, offset - 2.0 * u, b, offset - 2.0 * w);
    var apart := 2.0 * (samples[p].ref[j] - samples[q].ref[j]);
    assert offset - 2.0 * u - (offset - 2.0 * w) == Signed(!flip, apart);
    WrapRespects(a - b, Signed(!flip, apart));
    WrappedSizeOfNegation(apart);
  }

  lemma WrappedSizeOfNegation(x: real)
    ensures Abs(Wrap(-x)) == Abs(Wrap(x))
  {
    WrapCongruent(x);
    WrapCongruent(-x);
    CongruentAdd(Wrap(x), x, Wrap(-x), -x);
    WrapIsShortest(-Wrap(x), -x);
    assert Congruent(-Wrap(-x), x);
    WrapIsShortest(-Wrap(-x), x);
  }

  lemma BeatsThreshold(rms: real, n: real, d: real)
    requires rms >= 0.0 && n > 0.0 && 2.0 * (rms * rms * n) >= d * d > 2.0 * (n * (SIGN_TIE * SIGN_TIE))
    ensures rms > SIGN_TIE
  {
    if rms <= SIGN_TIE {
      SquareMonotone(rms, SIGN_TIE);
      ScaleMonotone(rms * rms, SIGN_TIE * SIGN_TIE, n);
    }
  }

  lemma ScaleMonotone(x: real, y: real, n: real)
    requires x <= y && n > 0.0
    ensures x * n <= y * n
  {
  }

  /** Samples taken exactly from one convention give that convention back on every joint two references
      separate: its sign, no residual, a congruent offset, and no ambiguity. */
  lemma SolverRecovers(fit: PoseFit, samples: seq<Sample>, dof: nat, fallback: set<int>, mean: seq<real> -> real, sqrt: real -> real,
                       j: nat, flip: bool, offset: real, p: nat, q: nat)
    requires |samples| > 0 && Shaped(samples, dof) && IsSolution(fit, samples, dof, dof, fallback, mean, sqrt)
    requires IsCircularMean(mean) && IsSqrt(sqrt)
    requires j < dof && FromConvention(samples, j, flip, offset) && p < q < |samples| && Separates(samples, j, p, q)
    ensures (j in fit.flips <==> flip) && j !in fit.ambiguous
    ensures fit.residuals[j] == 0.0 && Congruent(fit.offsets[j], offset)
  {
    TrueSignFits(samples, j, flip, offset, mean, sqrt);
    WrongSignMisfits(samples, j, flip, offset, mean, sqrt, p, q);
  }

  /** When no two references of a joint can be told apart after doubling, both signs fit exactly: the joint
      is reported ambiguous and keeps its configured sign, still without residual. */
  lemma AmbiguousKeepsFallback(fit: PoseFit, samples: seq<Sample>, dof: nat, fallback: set<int>, mean: seq<real> -> real, sqrt: real -> real,
                               j: nat, flip: bool, offset: real)
    requires |samples| > 0 && Shaped(samples, dof) && IsSolution(fit, samples, dof, dof, fallback, mean, sqrt)
    requires IsCircularMean(mean) && IsSqrt(sqrt)
    requires j < dof && FromConvention(samples, j, flip, offset)
    requires forall i :: 0 <= i < |samples| ==> Congruent(2.0 * samples[i].ref[j], 2.0 * samples[0].ref[j])
    ensures j in fit.ambiguous && (j in fit.flips <==> j in fallback) && fit.residuals[j] == 0.0
  {
    TrueSignFits(samples, j, flip, offset, mean, sqrt);
    var other := offset - 2.0 * Signed(flip, samples[0].ref[j]);
    forall i | 0 <= i < |samples| ensures Congruent(samples[i].ref[j], Signed(!flip, samples[i].leader[j] + other)) {
      var r, r0, l := samples[i].ref[j], samples[0].ref[j], samples[i].leader[j];
      CongruentAdd(r, Signed(flip, l + offset), 2.0 * r, 2.0 * r0);
      CongruentSymmetric(r, Signed(flip, l + offset));
      CongruentAdd(2.0 * r, 2.0 * r0, r, Signed(flip, l + offset));
      assert 2.0 * r - r == r;
      assert 2.0 * r0 - Signed(flip, l + offset) == Signed(!flip, l + other);
    }
    TrueSignFits(samples, j, !flip, other, mean, sqrt);
  }

  // ---- Applying a convention -----------------------------------------------------------------------

  datatype Convention = Convention(dropTrailing: nat, offsets: seq<real>, flips: seq<int>)

  /** Python's `q[: len(q) - drop]`: a negative end counts from the back. */
  function SliceEnd(n: nat, drop: nat): (e: nat)
    ensures e <= n && (drop <= n ==> e == n - drop)
  {
    if drop <= n then n - drop else if drop <= 2 * n then 2 * n - drop else 0
  }

  predicate IndexOk(j: int, n: nat) { 0 - n <= j < n }

  function IndexOf(j: int, n: nat): int { if j < 0 then j + n else j }

  /** Is joint `i` negated an odd number of times by the first `k` flips? */
  predicate Negated(flips: seq<int>, n: nat, i: int, k: nat)
    requires k <= |flips|
  {
    k > 0 && (Negated(flips, n, i, k - 1) != (IndexOf(flips[k - 1], n) == i))
  }

  /** One joint of `convert_factr_to_rizon`, in degrees. */
  function Convert(leader: real, offset: real, flip: bool): real {
    Wrap(Signed(flip, leader + offset))
  }

  /** The offsets numpy adds to `n` joints: `offsets[:n]`, one offset for all joints, none for a single joint
      without offset; other widths do not broadcast. */
  function OffsetsFor(offsets: seq<real>, n: nat): (r: Option<seq<real>>)
    ensures |offsets| >= n ==> r == Some(offsets[..n])
    ensures r.Some? <==> |offsets| >= n || |offsets| == 1 || n == 1
    ensures r.Some? ==> |r.value| <= n && (|offsets| > 0 ==> |r.value| == n)
    ensures |offsets| == 1 && r.Some? ==> forall i :: 0 <= i < |r.value| ==> r.value[i] == offsets[0]
    ensures |offsets| == 0 && r.Some? ==> r.value == []
  {
    if |offsets| >= n then Some(offsets[..n])
    else if |offsets| == 1 then Some(seq(n, _ => offsets[0]))
    else if n == 1 then Some([])
    else None
  }

  /** `convert_factr_to_rizon`: drop the gripper, add offsets, flip, wrap. */
  method ConvertFactrToRizon(q: seq<real>, conv: Convention) returns (r: Option<seq<real>>)
    ensures var off := OffsetsFor(conv.offsets, SliceEnd(|q|, conv.dropTrailing));
            && (r.Some? <==> off.Some? && forall k :: 0 <= k < |conv.flips| ==> IndexOk(conv.flips[k], |off.value|))
            && (r.Some? ==> |r.value| == |off.value| && forall i :: 0 <= i < |off.value| ==>
                  r.value[i] == Convert(q[i], off.value[i], Negated(conv.flips, |off.value|, i, |conv.flips|)))
  {
    var off := OffsetsFor(conv.offsets, if conv.dropTrailing > 0 then SliceEnd(|q|, conv.dropTrailing) else |q|);
    if off.None? { return None; }
    var n := |off.value|;
    var deg := new real[n](i requires 0 <= i < |off.value| <= |q| => q[i] + off.value[i]);
    var ok := FlipJoints(deg, conv.flips);
    if !ok { return None; }
    WrapAll(deg);
    r := Some(deg[..]);
  }

  /** `for j in sign_flip_joints: deg[j] = -deg[j]`; a bad index is an IndexError. */
  method FlipJoints(deg: array<real>, flips: seq<int>) returns (ok: bool)
    modifies deg
    ensures ok <==> forall k :: 0 <= k < |flips| ==> IndexOk(flips[k], deg.Length)
    ensures ok ==> forall i :: 0 <= i < deg.Length ==> deg[i] == Signed(Negated(flips, deg.Length, i, |flips|), old(deg[i]))
  {
    for k := 0 to |flips|
      invariant forall i :: 0 <= i < deg.Length ==> deg[i] == Signed(Negated(flips, deg.Length, i, k), old(deg[i]))
      invariant forall i :: 0 <= i < k ==> IndexOk(flips[i], deg.Length)
    {
      if !IndexOk(flips[k], deg.Length) { return false; }
      var j := IndexOf(flips[k], deg.Length);
      deg[j] := -deg[j];
    }
    ok := true;
  }

  method WrapAll(deg: array<real>)
    modifies deg
    ensures forall i :: 0 <= i < deg.Length ==> deg[i] == Wrap(old(deg[i]))
  {
    for i := 0 to deg.Length
      invariant forall k :: 0 <= k < deg.Length ==> deg[k] == if k < i then Wrap(old(deg[k])) else old(deg[k])
    {
      deg[i] := Wrap(deg[i]);
    }
  }

  /** The configured flips among the first `k` that name joint `i`, from the front or from the back. */
  function Naming(flips: seq<int>, n: nat, i: nat, k: nat): set<int>
    requires k <= |flips|
  {
    set m | 0 <= m < k && (flips[m] == i || flips[m] == i - n)
  }

  /** A joint is negated exactly when an odd number of configured flips name it, a negative one from the back. */
  lemma {:induction false} NegatedIffOdd(flips: seq<int>, n: nat, i: nat, k: nat)
    requires k <= |flips| && i < n
    ensures Negated(flips, n, i, k) <==> |Naming(flips, n, i, k)| % 2 == 1
    decreases k
  {
    if k > 0 {
      NegatedIffOdd(flips, n, i, k - 1);
      OneMoreNaming(flips, n, i, k);
    }
  }

  lemma OneMoreNaming(flips: seq<int>, n: nat, i: nat, k: nat)
    requires 0 < k <= |flips|
    ensures |Naming(flips, n, i, k)| == |Naming(flips, n, i, k - 1)| + if flips[k - 1] == i || flips[k - 1] == i - n then 1 else 0
  {
    assert Naming(flips, n, i, k) == Naming(flips, n, i, k - 1) + if flips[k - 1] == i || flips[k - 1] == i - n then {k - 1} else {};
  }

  /** A strictly increasing list of joints negates exactly its members. */
  lemma {:induction false} IncreasingFlips(flips: seq<int>, n: nat, i: nat, k: nat)
    requires k <= |flips| && i < n
    requires forall a :: 0 <= a < |flips| ==> 0 <= flips[a] < n
    requires forall a, b :: 0 <= a < b < |flips| ==> flips[a] < flips[b]
    ensures Negated(flips, n, i, k) <==> i in flips[..k]
  {
    if k > 0 {
      IncreasingFlips(flips, n, i, k - 1);
      assert flips[..k] == flips[..k - 1] + [flips[k - 1]];
    }
  }

  /** Any fit without residual maps every captured sample onto its reference, whatever produced the samples. */
  lemma ZeroResidualConverts(samples: seq<Sample>, j: nat, flip: bool, mean: seq<real> -> real, sqrt: real -> real, i: nat)
    requires i < |samples| && forall k :: 0 <= k < |samples| ==> j < |samples[k].leader| == |samples[k].ref|
    requires IsSqrt(sqrt) && JointFit(samples, j, flip, mean, sqrt).rms == 0.0
    ensures Convert(samples[i].leader[j], JointFit(samples, j, flip, mean, sqrt).offset, flip) == Wrap(samples[i].ref[j])
  {
    var est := Estimates(samples, j, flip);
    ZeroRms(est, mean, sqrt);
    var f := FitOf(est, mean, sqrt);
    var r, l := samples[i].ref[j], samples[i].leader[j];
    WrapCongruent(est[i] - f.offset);
    CongruentSelf(f.offset);
    assert Congruent(est[i] - f.offset, 0.0);
    CongruentAdd(est[i] - f.offset, 0.0, f.offset, f.offset);
    assert Congruent(est[i], f.offset);
    WrapCongruent(Signed(flip, r) - l);
    CongruentTransitive(Signed(flip, r) - l, est[i], f.offset);
    CongruentSelf(l);
    CongruentAdd(Signed(flip, r) - l, f.offset, l, l);
    assert Congruent(Signed(flip, r), l + f.offset);
    CongruentAdd(Signed(flip, r), l + f.offset, l, l);
    assert Congruent(r, Signed(flip, l + f.offset));
    WrapRespects(r, Signed(flip, l + f.offset));
  }

  /** Calibrate, then convert: a joint solved without residual sends every captured sample back to its
      reference, through the list of flips the solver wrote. */
  lemma CalibrationRoundTrip(fit: PoseFit, samples: seq<Sample>, dof: nat, fallback: set<int>, mean: seq<real> -> real, sqrt: real -> real,
                             j: nat, i: nat)
    requires |samples| > 0 && Shaped(samples, dof) && IsSolution(fit, samples, dof, dof, fallback, mean, sqrt)
    requires IsSqrt(sqrt) && j < dof && i < |samples| && fit.residuals[j] == 0.0
    requires -180.0 <= samples[i].ref[j] < 180.0
    ensures Convert(samples[i].leader[j], fit.offsets[j], Negated(fit.flips, dof, j, |fit.flips|)) == samples[i].ref[j]
  {
    assert forall a :: 0 <= a < |fit.flips| ==> fit.flips[a] in fit.flips;
    IncreasingFlips(fit.flips, dof, j, |fit.flips|);
    assert fit.flips[..|fit.flips|] == fit.flips;
    ZeroResidualConverts(samples, j, j in fit.flips, mean, sqrt, i);
    CongruentSelf(samples[i].ref[j]);
    WrapRespects(samples[i].ref[j], samples[i].ref[j]);
  }

  /** Joint `j` of every sample obeys one convention, and two of its references tell the signs apart. */
  ghost predicate Decided(samples: seq<Sample>, j: nat, flip: bool, offset: real)
    requires forall i :: 0 <= i < |samples| ==> j < |samples[i].leader| == |samples[i].ref|
  {
    FromConvention(samples, j, flip, offset) && exists p, q :: 0 <= p < q < |samples| && Separates(samples, j, p, q)
  }

  lemma DecidedHasNoResidual(fit: PoseFit, samples: seq<Sample>, dof: nat, fallback: set<int>, mean: seq<real> -> real, sqrt: real -> real,
                             j: nat, flip: bool, offset: real)
    requires |samples| > 0 && Shaped(samples, dof) && IsSolution(fit, samples, dof, dof, fallback, mean, sqrt)
    requires IsCircularMean(mean) && IsSqrt(sqrt) && j < dof && Decided(samples, j, flip, offset)
    ensures fit.residuals[j] == 0.0
  {
    var p, q :| 0 <= p < q < |samples| && Separates(samples, j, p, q);
    SolverRecovers(fit, samples, dof, fallback, mean, sqrt, j, flip, offset, p, q);
  }

  /** Calibrate on samples of one convention, then convert a captured leader sample with its gripper values:
      the whole reference pose comes back. */
  method CalibrateThenConvert(samples: seq<Sample>, fallback: set<int>, mean: seq<real> -> real, sqrt: real -> real, i: nat, gripper: seq<real>,
                              ghost flips: seq<bool>, ghost offsets: seq<real>)
    returns (r: Option<seq<real>>)
    requires i < |samples| && Shaped(samples, |samples[0].leader|) && IsCircularMean(mean) && IsSqrt(sqrt)
    requires |flips| == |offsets| == |samples[0].leader|
    requires forall j :: 0 <= j < |flips| ==> Decided(samples, j, flips[j], offsets[j])
    requires forall j :: 0 <= j < |samples[i].ref| ==> -180.0 <= samples[i].ref[j] < 180.0
    ensures r == Some(samples[i].ref)
  {
    var solved := SolveFromSamples(samples, fallback, mean, sqrt);
    var fit := solved.value;
    WholeReference(fit, samples, |samples[0].leader|, fallback, mean, sqrt, i, flips, offsets);
    r := ConvertPose(samples[i], fit, gripper);
  }

  /** What a solution of decided samples makes of captured sample `i`, joint by joint. */
  ghost predicate Restores(fit: PoseFit, s: Sample) {
    && |fit.offsets| == |s.leader| == |s.ref| && (forall a :: 0 <= a < |fit.flips| ==> 0 <= fit.flips[a] < |s.leader|)
    && forall j :: 0 <= j < |s.ref| ==> Convert(s.leader[j], fit.offsets[j], Negated(fit.flips, |s.leader|, j, |fit.flips|)) == s.ref[j]
  }

  lemma WholeReference(fit: PoseFit, samples: seq<Sample>, dof: nat, fallback: set<int>, mean: seq<real> -> real, sqrt: real -> real,
                       i: nat, flips: seq<bool>, offsets: seq<real>)
    requires i < |samples| && Shaped(samples, dof) && IsSolution(fit, samples, dof, dof, fallback, mean, sqrt)
    requires IsCircularMean(mean) && IsSqrt(sqrt) && |flips| == |offsets| == dof
    requires forall j :: 0 <= j < |flips| ==> Decided(samples, j, flips[j], offsets[j])
    requires forall j :: 0 <= j < |samples[i].ref| ==> -180.0 <= samples[i].ref[j] < 180.0
    ensures Restores(fit, samples[i])
  {
    assert forall a :: 0 <= a < |fit.flips| ==> fit.flips[a] in fit.flips;
    forall j | 0 <= j < dof
      ensures Convert(samples[i].leader[j], fit.offsets[j], Negated(fit.flips, dof, j, |fit.flips|)) == samples[i].ref[j]
    {
      DecidedHasNoResidual(fit, samples, dof, fallback, mean, sqrt, j, flips[j], offsets[j]);
      CalibrationRoundTrip(fit, samples, dof, fallback, mean, sqrt, j, i);
    }
  }

  /** A leader sample with its gripper values through the solved convention. */
  method ConvertPose(s: Sample, fit: PoseFit, gripper: seq<real>) returns (r: Option<seq<real>>)
    requires Restores(fit, s)
    ensures r == Some(s.ref)
  {
    r := ConvertFactrToRizon(s.leader + gripper, Convention(|gripper|, fit.offsets, fit.flips));
    assert fit.offsets[..|s.leader|] == fit.offsets;
    assert r.value == s.ref;
  }

  /** `offsets_from_straight_pose`, for a leader held with every follower joint at zero. */
  function StraightOffsets(q: seq<real>, dropTrailing: nat): (offsets: seq<real>)
    ensures |offsets| == SliceEnd(|q|, dropTrailing) && forall i :: 0 <= i < |offsets| ==> -180.0 <= offsets[i] < 180.0
  {
    seq(SliceEnd(|q|, dropTrailing), i requires 0 <= i < SliceEnd(|q|, dropTrailing) => Wrap(-q[i]))
  }

  /** Converting that pose with those offsets gives zero on every joint, flipped or not. */
  lemma StraightPoseIsZero(q: seq<real>, dropTrailing: nat, flip: bool, i: nat)
    requires i < |StraightOffsets(q, dropTrailing)|
    ensures Convert(q[i], StraightOffsets(q, dropTrailing)[i], flip) == 0.0
  {
    WrapCongruent(-q[i]);
    CongruentSelf(q[i]);
    CongruentAdd(q[i], q[i], Wrap(-q[i]), -q[i]);
    assert q[i] + -q[i] == 0.0;
    CongruentSelf(0.0);
    CongruentAdd(q[i] + Wrap(-q[i]), 0.0, 0.0, 0.0);
    assert Congruent(Signed(flip, q[i] + Wrap(-q[i])), 0.0);
    WrapRespects(Signed(flip, q[i] + Wrap(-q[i])), 0.0);
  }

  // ---- The reference poses ---------------------------------------------------------------------------

  const REFERENCE_POSES: seq<seq<real>> := [
    [0.0, 0.0, 0.0, 0.0, 0.0, 0.0, 0.0],
    [0.0, -90.0, 0.0, 90.0, 0.0, 90.0, 0.0],
    [90.0, -90.0, 0.0, 90.0, 0.0, 90.0, 0.0],
    [0.0, -90.0, 90.0, 90.0, 0.0, 90.0, 0.0],
    [0.0, -90.0, 0.0, 90.0, 90.0, 90.0, 0.0],
    [0.0, -90.0, 0.0, 90.0, 0.0, 90.0, 90.0]]

  /** The pose after "Straight up" in which joint `j` first leaves zero. */
  function ProbePose(j: nat): (p: nat)
    requires j < 7
    ensures 0 < p < 6
  {
    if j == 0 then 2 else if j == 2 then 3 else if j == 4 then 4 else if j == 6 then 5 else 1
  }

  /** After doubling, the probe pose of a joint and "Straight up" are a half turn apart. */
  lemma ProbeApart(samples: seq<Sample>, j: nat)
    requires |samples| == 6 && Shaped(samples, 7) && j < 7
    requires forall i :: 0 <= i < 6 ==> samples[i].ref == REFERENCE_POSES[i]
    ensures Abs(Wrap(2.0 * (samples[0].ref[j] - samples[ProbePose(j)].ref[j]))) == 180.0
  {
    var p := ProbePose(j);
    var r := REFERENCE_POSES[p][j];
    assert samples[0].ref[j] == 0.0 && samples[p].ref[j] == r;
    assert r == 90.0 || r == -90.0;
    var x := 2.0 * (0.0 - r);
    CongruentBy(x, -180.0, if x == 180.0 then 1 else 0);
    WrapRespects(x, -180.0);
  }

  /** Capturing the six reference poses once determines the whole convention, whatever it is. */
  lemma ReferencePosesDecide(samples: seq<Sample>, j: nat)
    requires |samples| == 6 && Shaped(samples, 7) && j < 7
    requires forall i :: 0 <= i < 6 ==> samples[i].ref == REFERENCE_POSES[i]
    ensures Separates(samples, j, 0, ProbePose(j))
  {
    ProbeApart(samples, j);
  }
}
