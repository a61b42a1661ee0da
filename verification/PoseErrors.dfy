/** Calibration from poses set by hand: how far every captured joint may be from its reference pose. */
module PoseErrors {
  import opened Reals
  import opened Angles
  import opened Calibration

  /** All angles lie within `e` of `v`, across the seam if need be. */
  ghost predicate Within(vals: seq<real>, v: real, e: real) {
    forall i :: 0 <= i < |vals| ==> Close(vals[i], v, e)
  }

  /** The direction of the resultant of unit vectors that all lie in an arc of less than a half turn lies in that
      arc. This is all that is used of the circular mean. */
  ghost predicate IsArcMean(mean: seq<real> -> real) {
    forall vals: seq<real>, v: real, e: real {:trigger Within(vals, v, e)} ::
      vals != [] && e < 90.0 && Within(vals, v, e) ==> Close(mean(vals), v, e)
  }

  /** Joint `j` of every sample obeys `ref = sign * (leader + offset)` up to `e` degrees and full turns. */
  ghost predicate NearConvention(samples: seq<Sample>, j: nat, flip: bool, offset: real, e: real)
    requires forall i :: 0 <= i < |samples| ==> j < |samples[i].leader| == |samples[i].ref|
  {
    forall i :: 0 <= i < |samples| ==> Abs(Misfit(samples[i], j, flip, offset)) <= e
  }

  /** Two angles are at most `e` degrees apart. */
  ghost predicate Close(a: real, b: real, e: real) { Abs(Wrap(a - b)) <= e }

  lemma WrapTriangle(a: real, b: real)
    ensures Abs(Wrap(a - b)) <= Abs(Wrap(a)) + Abs(Wrap(b)) && Abs(Wrap(a + b)) <= Abs(Wrap(a)) + Abs(Wrap(b))
  {
    WrapCongruent(a);
    WrapCongruent(b);
    CongruentAdd(Wrap(a), a, Wrap(b), b);
    WrapIsShortest(Wrap(a) - Wrap(b), a - b);
    WrapIsShortest(Wrap(a) + Wrap(b), a + b);
  }

  // ---- The true sign ---------------------------------------------------------------------------------

  lemma EstimatesWithin(samples: seq<Sample>, j: nat, flip: bool, offset: real, e: real)
    requires forall i :: 0 <= i < |samples| ==> j < |samples[i].leader| == |samples[i].ref|
    requires NearConvention(samples, j, flip, offset, e)
    ensures Within(Estimates(samples, j, flip), offset, e)
  {
    forall i | 0 <= i < |samples| ensures Close(Estimates(samples, j, flip)[i], offset, e) {
      DeviationIsMisfit(samples[i], j, flip, offset);
    }
  }

  lemma DeviationsSmall(est: seq<real>, m: real, offset: real, e: real)
    requires Within(est, offset, e) && Close(m, offset, e)
    ensures forall i :: 0 <= i < |est| ==> Abs(Deviations(est, m)[i]) <= 2.0 * e
  {
    forall i | 0 <= i < |est| ensures Abs(Deviations(est, m)[i]) <= 2.0 * e {
      WrapTriangle(est[i] - offset, m - offset);
      assert est[i] - offset - (m - offset) == est[i] - m;
    }
  }

  lemma {:induction false} SumSquaresAtMost(xs: seq<real>, b: real)
    requires b >= 0.0 && forall i :: 0 <= i < |xs| ==> Abs(xs[i]) <= b
    ensures SumSquares(xs) <= |xs| as real * (b * b)
  {
    if |xs| > 0 {
      var last := xs[|xs| - 1];
      SumSquaresAtMost(xs[..|xs| - 1], b);
      SquareMonotone(Abs(last), b);
      assert last * last == Abs(last) * Abs(last);
    }
  }

  lemma RmsAtMost(rms: real, n: real, b: real, total: real)
    requires rms >= 0.0 && n > 0.0 && b >= 0.0 && rms * rms * n == total <= n * (b * b)
    ensures rms <= b
  {
    if rms > b {
      var gap := rms * rms - b * b;
      PositiveProduct(rms - b, rms + b, gap);
      PositiveProduct(gap, n, gap * n);
    }
  }

  /** Deviations of at most `b` leave a root mean square of at most `b`. */
  lemma RmsBound(dev: seq<real>, rms: real, b: real)
    requires |dev| > 0 && rms >= 0.0 && b >= 0.0 && rms * rms * |dev| as real == SumSquares(dev)
    requires forall i :: 0 <= i < |dev| ==> Abs(dev[i]) <= b
    ensures rms <= b
  {
    SumSquaresAtMost(dev, b);
    RmsAtMost(rms, |dev| as real, b, SumSquares(dev));
  }

  lemma SmallDeviationsFit(est: seq<real>, b: real, mean: seq<real> -> real, sqrt: real -> real)
    requires est != [] && b >= 0.0 && IsSqrt(sqrt)
    requires forall i :: 0 <= i < |est| ==> Abs(Deviations(est, mean(est))[i]) <= b
    ensures 0.0 <= FitOf(est, mean, sqrt).rms <= b
  {
    RmsSquared(est, mean, sqrt);
    RmsBound(Deviations(est, mean(est)), FitOf(est, mean, sqrt).rms, b);
  }

  /** The true sign leaves a residual of at most twice the pose error, at an offset within it. */
  lemma TrueSignNear(samples: seq<Sample>, j: nat, flip: bool, offset: real, e: real, mean: seq<real> -> real, sqrt: real -> real)
    requires |samples| > 0 && forall i :: 0 <= i < |samples| ==> j < |samples[i].leader| == |samples[i].ref|
    requires NearConvention(samples, j, flip, offset, e) && 0.0 <= e < 90.0 && IsArcMean(mean) && IsSqrt(sqrt)
    ensures var f := JointFit(samples, j, flip, mean, sqrt);
            0.0 <= f.rms <= 2.0 * e && Close(f.offset, offset, e)
  {
    EstimatesWithin(samples, j, flip, offset, e);
    var est := Estimates(samples, j, flip);
    DeviationsSmall(est, mean(est), offset, e);
    SmallDeviationsFit(est, 2.0 * e, mean, sqrt);
  }

  // ---- The wrong sign --------------------------------------------------------------------------------

  /** The doubled difference of two references, as the estimates under the wrong sign show it. */
  lemma WrongEstimatesNear(samples: seq<Sample>, j: nat, flip: bool, offset: real, e: real, p: nat, q: nat)
    requires forall i :: 0 <= i < |samples| ==> j < |samples[i].leader| == |samples[i].ref|
    requires p < q < |samples| && NearConvention(samples, j, flip, offset, e)
    ensures var est := Estimates(samples, j, !flip);
            Abs(Wrap(est[p] - est[q])) >= Spread(samples, j, e, p, q)
  {
    var a, b := Signed(!flip, samples[p].ref[j]) - samples[p].leader[j], Signed(!flip, samples[q].ref[j]) - samples[q].leader[j];
    DifferenceOfWraps(a, b);
    ErrorsApart(flip, offset, samples[p].ref[j], samples[p].leader[j], samples[q].ref[j], samples[q].leader[j]);
  }

  /** Two samples `(u, x)` and `(w, y)`: what the wrong sign makes of them is apart by what separates the
      references, up to both errors. */
  lemma ErrorsApart(flip: bool, offset: real, u: real, x: real, w: real, y: real)
    ensures Abs(Wrap(2.0 * (u - w))) <= Abs(Wrap(Signed(!flip, u) - x - (Signed(!flip, w) - y)))
              + Abs(Wrap(Signed(flip, u) - (x + offset))) + Abs(Wrap(Signed(flip, w) - (y + offset)))
  {
    var ep, eq := Signed(flip, u) - (x + offset), Signed(flip, w) - (y + offset);
    var apart := Signed(!flip, u) - x - (Signed(!flip, w) - y);
    WrapTriangle(ep, eq);
    WrapTriangle(ep - eq, apart);
    assert ep - eq - apart == Signed(flip, 2.0 * (u - w));
    WrappedSizeOfNegation(2.0 * (u - w));
  }

  lemma DifferenceOfWraps(a: real, b: real)
    ensures Wrap(Wrap(a) - Wrap(b)) == Wrap(a - b)
  {
    WrapCongruent(a);
    WrapCongruent(b);
    CongruentAdd(Wrap(a), a, Wrap(b), b);
    WrapRespects(Wrap(a) - Wrap(b), a - b);
  }

  /** A residual whose square exceeds that of `b` exceeds `b`. */
  lemma RmsAbove(rms: real, n: real, b: real, d: real)
    requires rms >= 0.0 && n > 0.0 && b >= 0.0 && 2.0 * (rms * rms * n) >= d * d > 2.0 * (n * (b * b))
    ensures rms > b
  {
    if rms <= b {
      SquareMonotone(rms, b);
      ScaleMonotone(rms * rms, b * b, n);
    }
  }

  lemma FarEstimatesMisfitBy(est: seq<real>, mean: seq<real> -> real, sqrt: real -> real, p: nat, q: nat, d: real, b: real)
    requires p < q < |est| && IsSqrt(sqrt) && 0.0 <= d <= Abs(Wrap(est[p] - est[q])) && b >= 0.0
    requires d * d > 2.0 * (|est| as real * (b * b))
    ensures FitOf(est, mean, sqrt).rms > b
  {
    var gap := Abs(Wrap(est[p] - est[q]));
    SpreadLeavesResidual(est, mean, sqrt, p, q, gap);
    SquareMonotone(d, gap);
    RmsAbove(FitOf(est, mean, sqrt).rms, |est| as real, b, gap);
  }

  /** How far apart two references stay for the wrong sign, less the two pose errors. */
  ghost function Spread(samples: seq<Sample>, j: nat, e: real, p: nat, q: nat): real
    requires p < q < |samples| && forall i :: 0 <= i < |samples| ==> j < |samples[i].leader| == |samples[i].ref|
  {
    Abs(Wrap(2.0 * (samples[p].ref[j] - samples[q].ref[j]))) - 2.0 * e
  }

  lemma WrongSignFar(samples: seq<Sample>, j: nat, flip: bool, offset: real, e: real, mean: seq<real> -> real, sqrt: real -> real,
                     p: nat, q: nat, d: real, b: real)
    requires forall i :: 0 <= i < |samples| ==> j < |samples[i].leader| == |samples[i].ref|
    requires p < q < |samples| && NearConvention(samples, j, flip, offset, e) && IsSqrt(sqrt)
    requires 0.0 <= d <= Spread(samples, j, e, p, q) && b >= 0.0 && d * d > 2.0 * (|samples| as real * (b * b))
    ensures JointFit(samples, j, !flip, mean, sqrt).rms > b
  {
    WrongEstimatesNear(samples, j, flip, offset, e, p, q);
    FarEstimatesMisfitBy(Estimates(samples, j, !flip), mean, sqrt, p, q, d, b);
  }

  // ---- Hand-posed captures -----------------------------------------------------------------------------

  /** A sign whose residual is smaller by more than the threshold is the one that is kept. */
  lemma SmallerIsKept(fit: PoseFit, samples: seq<Sample>, dof: nat, fallback: set<int>, mean: seq<real> -> real, sqrt: real -> real,
                      j: nat, flip: bool, b: real)
    requires |samples| > 0 && Shaped(samples, dof) && IsSolution(fit, samples, dof, dof, fallback, mean, sqrt) && j < dof
    requires JointFit(samples, j, flip, mean, sqrt).rms <= b && JointFit(samples, j, !flip, mean, sqrt).rms > b + SIGN_TIE
    ensures (j in fit.flips <==> flip) && j !in fit.ambiguous
    ensures fit.offsets[j] == JointFit(samples, j, flip, mean, sqrt).offset && fit.residuals[j] == JointFit(samples, j, flip, mean, sqrt).rms
  {
    KeepsBetterSign(fit, samples, dof, fallback, mean, sqrt, j);
  }

  /** What pose errors of up to `e` degrees leave of the two signs. */
  lemma SignsApart(samples: seq<Sample>, j: nat, flip: bool, offset: real, e: real, mean: seq<real> -> real, sqrt: real -> real, p: nat, q: nat,
                   d: real, b: real)
    requires |samples| > 0 && forall i :: 0 <= i < |samples| ==> j < |samples[i].leader| == |samples[i].ref|
    requires NearConvention(samples, j, flip, offset, e) && 0.0 <= e < 90.0 && IsArcMean(mean) && IsSqrt(sqrt)
    requires p < q < |samples| && 0.0 <= d <= Spread(samples, j, e, p, q) && b >= 0.0 && d * d > 2.0 * (|samples| as real * (b * b))
    ensures JointFit(samples, j, flip, mean, sqrt).rms <= 2.0 * e && JointFit(samples, j, !flip, mean, sqrt).rms > b
    ensures Close(JointFit(samples, j, flip, mean, sqrt).offset, offset, e)
  {
    TrueSignNear(samples, j, flip, offset, e, mean, sqrt);
    WrongSignFar(samples, j, flip, offset, e, mean, sqrt, p, q, d, b);
  }

  /** Pose errors of up to `e` degrees do not hide the sign: whenever two references of the joint are far enough
      apart for that error, the true sign is found, and the offset is off by no more than the pose error. */
  lemma PoseErrorTolerated(fit: PoseFit, samples: seq<Sample>, dof: nat, fallback: set<int>, mean: seq<real> -> real, sqrt: real -> real,
                           j: nat, flip: bool, offset: real, e: real, p: nat, q: nat, d: real, b: real)
    requires |samples| > 0 && Shaped(samples, dof) && IsSolution(fit, samples, dof, dof, fallback, mean, sqrt)
    requires IsArcMean(mean) && IsSqrt(sqrt) && 0.0 <= e < 90.0
    requires j < dof && NearConvention(samples, j, flip, offset, e) && p < q < |samples|
    requires 0.0 <= d <= Spread(samples, j, e, p, q) && 2.0 * e + SIGN_TIE <= b && d * d > 2.0 * (|samples| as real * (b * b))
    ensures (j in fit.flips <==> flip) && j !in fit.ambiguous
    ensures fit.residuals[j] <= 2.0 * e && Close(fit.offsets[j], offset, e)
  {
    SignsApart(samples, j, flip, offset, e, mean, sqrt, p, q, d, b);
    SmallerIsKept(fit, samples, dof, fallback, mean, sqrt, j, flip, 2.0 * e);
  }

  lemma ConvertNear(leader: real, ref: real, flip: bool, offset: real, offset': real, e: real)
    requires Abs(Wrap(Signed(flip, ref) - (leader + offset))) <= e && Close(offset', offset, e)
    ensures Close(Convert(leader, offset', flip), ref, 2.0 * e)
  {
    var x := Signed(flip, ref) - (leader + offset);
    var y := Signed(flip, leader + offset') - ref;
    WrapTriangle(x, offset' - offset);
    assert y == Signed(!flip, x - (offset' - offset));
    WrappedSizeOfNegation(x - (offset' - offset));
    DeviationIsError(Signed(flip, leader + offset'), ref);
  }

  /** An offset off by at most `e` adds at most `e` to what a sample was off by. */
  lemma SampleNear(s: Sample, j: nat, flip: bool, offset: real, offset': real, e: real)
    requires j < |s.leader| == |s.ref| && Abs(Misfit(s, j, flip, offset)) <= e && Close(offset', offset, e)
    ensures Close(Convert(s.leader[j], offset', flip), s.ref[j], 2.0 * e)
  {
    ConvertNear(s.leader[j], s.ref[j], flip, offset, offset', e);
  }

  /** Converted with the solved convention, every captured sample comes within twice the pose error of its reference. */
  lemma PoseComesBack(fit: PoseFit, samples: seq<Sample>, dof: nat, j: nat, flip: bool, offset: real, e: real, i: nat)
    requires Shaped(samples, dof) && IndicesOk(fit, dof) && |fit.offsets| == dof && j < dof && i < |samples|
    requires NearConvention(samples, j, flip, offset, e) && (j in fit.flips <==> flip) && Close(fit.offsets[j], offset, e)
    ensures Close(Convert(samples[i].leader[j], fit.offsets[j], Negated(fit.flips, dof, j, |fit.flips|)), samples[i].ref[j], 2.0 * e)
  {
    SolvedFlips(fit, dof, j);
    SampleNear(samples[i], j, flip, offset, fit.offsets[j], e);
  }

  lemma SolvedFlips(fit: PoseFit, dof: nat, j: nat)
    requires IndicesOk(fit, dof) && j < dof
    ensures Negated(fit.flips, dof, j, |fit.flips|) <==> j in fit.flips
  {
    assert forall a :: 0 <= a < |fit.flips| ==> fit.flips[a] in fit.flips;
    IncreasingFlips(fit.flips, dof, j, |fit.flips|);
    assert fit.flips[..|fit.flips|] == fit.flips;
  }

  /** The six reference poses captured once, each joint up to 20 degrees off: every sign is found. */
  lemma TwentyDegreesAreTolerated(fit: PoseFit, samples: seq<Sample>, fallback: set<int>, mean: seq<real> -> real, sqrt: real -> real,
                                  j: nat, flip: bool, offset: real, e: real)
    requires |samples| == 6 && Shaped(samples, 7) && j < 7 && forall i :: 0 <= i < 6 ==> samples[i].ref == REFERENCE_POSES[i]
    requires IsSolution(fit, samples, 7, 7, fallback, mean, sqrt) && IsArcMean(mean) && IsSqrt(sqrt)
    requires 0.0 <= e <= 20.0 && NearConvention(samples, j, flip, offset, e)
    ensures (j in fit.flips <==> flip) && j !in fit.ambiguous
    ensures fit.residuals[j] <= 2.0 * e && Close(fit.offsets[j], offset, e)
  {
    ProbeApart(samples, j);
    PoseErrorTolerated(fit, samples, 7, fallback, mean, sqrt, j, flip, offset, e, 0, ProbePose(j), 140.0, 40.000001);
  }
}
