/** The real-time trajectory generator: every tick moves each joint towards its latest target
    under a velocity limit, an acceleration limit and a square-root braking law.
    Reals stand for doubles; the square root is any function with its defining property. */
module Trajectory {
  import opened Reals

  datatype Limits = Limits(vel: real, acc: real)

  datatype Joint = Joint(q: real, dq: real, ddq: real)

  predicate Positive(p: Limits) { p.vel > 0.0 && p.acc > 0.0 }

  /** `std::copysign` for a non-negative magnitude. */
  function CopySign(magnitude: real, sign: real): real {
    if sign < 0.0 then -magnitude else magnitude
  }

  /** The speed from which the joint can still brake on its target, squared. */
  function BrakingEnergy(acc: real, delta: real): real {
    2.0 * acc * Abs(delta)
  }

  /** One joint, one tick. */
  function Step(p: Limits, sqrt: real -> real, j: Joint, target: real): Joint {
    Law(p, j, target, sqrt(BrakingEnergy(p.acc, target - j.q)))
  }

  /** The tick's update law for a given braking speed. A slow joint within 1e-7 of its target is
      put on it; the tick lasts 0.001 s. */
  function Law(p: Limits, j: Joint, target: real, braking: real): Joint {
    var delta := target - j.q;
    if Abs(delta) < 0.0000001 && Abs(j.dq) <= p.acc * 0.001 then
      Joint(target, 0.0, -j.dq / 0.001)
    else
      var speed := Min(p.vel, braking);
      var dv := Clamp(CopySign(speed, delta) - j.dq, -p.acc * 0.001, p.acc * 0.001);
      Joint(j.q + (j.dq + dv) * 0.001, j.dq + dv, dv / 0.001)
  }

  /** `AdvanceTrajectory`: all joints, in place. */
  method AdvanceTrajectory(desired: array<real>, q: array<real>, dq: array<real>, ddq: array<real>,
                           p: Limits, sqrt: real -> real)
    requires q.Length >= desired.Length && dq.Length >= desired.Length && ddq.Length >= desired.Length
    requires desired != q && desired != dq && desired != ddq && q != dq && q != ddq && dq != ddq
    modifies q, dq, ddq
    ensures forall i :: 0 <= i < desired.Length ==>
              Joint(q[i], dq[i], ddq[i]) == Step(p, sqrt, old(Joint(q[i], dq[i], ddq[i])), desired[i])
    ensures forall i :: desired.Length <= i < q.Length ==> q[i] == old(q[i])
    ensures forall i :: desired.Length <= i < dq.Length ==> dq[i] == old(dq[i])
    ensures forall i :: desired.Length <= i < ddq.Length ==> ddq[i] == old(ddq[i])
  {
    for i := 0 to desired.Length
      invariant forall k :: 0 <= k < i ==>
                  Joint(q[k], dq[k], ddq[k]) == Step(p, sqrt, old(Joint(q[k], dq[k], ddq[k])), desired[k])
      invariant forall k :: i <= k < q.Length ==> q[k] == old(q[k])
      invariant forall k :: i <= k < dq.Length ==> dq[k] == old(dq[k])
      invariant forall k :: i <= k < ddq.Length ==> ddq[k] == old(ddq[k])
    {
      var j := AdvanceJoint(q[i], dq[i], ddq[i], desired[i], p, sqrt);
      q[i], dq[i], ddq[i] := j.q, j.dq, j.ddq;
    }
  }

  /** The loop body of `AdvanceTrajectory`. */
  method AdvanceJoint(q: real, dq: real, ddq: real, desired: real, p: Limits, sqrt: real -> real) returns (j: Joint)
    ensures j == Step(p, sqrt, Joint(q, dq, ddq), desired)
  {
    var delta := desired - q;
    var previous := dq;
    if Abs(delta) < 0.0000001 && Abs(previous) <= p.acc * 0.001 {
      return Joint(desired, 0.0, -previous / 0.001);
    }
    var braking := sqrt(BrakingEnergy(p.acc, delta));
    var speed := Min(p.vel, braking);
    var dv := Clamp(CopySign(speed, delta) - previous, -p.acc * 0.001, p.acc * 0.001);
    var velocity := previous + dv;
    j := Joint(q + velocity * 0.001, velocity, dv / 0.001);
  }

  // ---- Motion limits ---------------------------------------------------------------------

  ghost predicate WithinLimits(p: Limits, j: Joint) {
    Abs(j.dq) <= p.vel && Abs(j.ddq) <= p.acc
  }

  /** `root` is the braking speed of this tick. */
  ghost predicate IsBraking(p: Limits, j: Joint, target: real, root: real) {
    root >= 0.0 && root * root == BrakingEnergy(p.acc, target - j.q)
  }

  lemma SqrtIsBraking(p: Limits, sqrt: real -> real, j: Joint, target: real)
    requires IsSqrt(sqrt) && Positive(p)
    ensures IsBraking(p, j, target, sqrt(BrakingEnergy(p.acc, target - j.q)))
  {
    assert BrakingEnergy(p.acc, target - j.q) >= 0.0;
  }

  /** A tick keeps the speed and acceleration limits, whatever the target. */
  lemma LawKeepsLimits(p: Limits, j: Joint, target: real, root: real)
    requires Positive(p) && root >= 0.0 && Abs(j.dq) <= p.vel
    ensures WithinLimits(p, Law(p, j, target, root))
  {
  }

  /** The streamed derivatives are those of the streamed positions, up to the final snap. */
  lemma StepIsKinematic(p: Limits, sqrt: real -> real, j: Joint, target: real)
    ensures var j' := Step(p, sqrt, j, target);
            && j'.ddq * 0.001 == j'.dq - j.dq
            && (j'.q == j.q + j'.dq * 0.001 || (j'.q == target && j'.dq == 0.0 && Abs(target - j.q) < 0.0000001))
  {
  }

  // ---- Seeking the target ------------------------------------------------------------------

  /** A slow joint that has arrived is put on its target and stands still. */
  lemma ArrivedIsPut(p: Limits, sqrt: real -> real, j: Joint, target: real)
    requires Abs(target - j.q) < 0.0000001 && Abs(j.dq) <= p.acc * 0.001
    ensures Step(p, sqrt, j, target).q == target && Step(p, sqrt, j, target).dq == 0.0
  {
  }

  /** The wanted velocity: towards the target, as fast as the limit allows and the joint can brake before it. */
  ghost predicate Wanted(p: Limits, delta: real, w: real) {
    && Abs(w) <= p.vel && w * w <= 2.0 * p.acc * Abs(delta) && (Abs(w) == p.vel || w * w == 2.0 * p.acc * Abs(delta))
    && (delta > 0.0 ==> w >= 0.0) && (delta < 0.0 ==> w <= 0.0)
  }

  lemma WantedSpeed(p: Limits, delta: real, root: real)
    requires Positive(p) && root >= 0.0 && root * root == BrakingEnergy(p.acc, delta)
    ensures Wanted(p, delta, CopySign(Min(p.vel, root), delta))
  {
    var speed := Min(p.vel, root);
    SquareMonotone(speed, root);
    SignDropsOut(speed, delta);
  }

  lemma SignDropsOut(speed: real, delta: real)
    ensures CopySign(speed, delta) * CopySign(speed, delta) == speed * speed
  {
  }

  /** Away from its target a joint takes, of all velocities `v` it can reach in one tick, the one nearest to the wanted
      velocity. */
  lemma StepSeeksTarget(p: Limits, sqrt: real -> real, j: Joint, target: real, v: real) returns (w: real)
    requires Positive(p) && IsSqrt(sqrt) && Abs(v - j.dq) <= p.acc * 0.001
    requires !(Abs(target - j.q) < 0.0000001 && Abs(j.dq) <= p.acc * 0.001)
    ensures Wanted(p, target - j.q, w) && Abs(Step(p, sqrt, j, target).dq - w) <= Abs(v - w)
  {
    var root := sqrt(BrakingEnergy(p.acc, target - j.q));
    SqrtIsBraking(p, sqrt, j, target);
    WantedSpeed(p, target - j.q, root);
    LawIsNearest(p, j, target, root, v);
    w := CopySign(Min(p.vel, root), target - j.q);
  }

  lemma LawIsNearest(p: Limits, j: Joint, target: real, root: real, v: real)
    requires Positive(p) && Abs(v - j.dq) <= p.acc * 0.001 && !(Abs(target - j.q) < 0.0000001 && Abs(j.dq) <= p.acc * 0.001)
    ensures var w := CopySign(Min(p.vel, root), target - j.q); Abs(Law(p, j, target, root).dq - w) <= Abs(v - w)
  {
    NearestReachable(CopySign(Min(p.vel, root), target - j.q), j.dq, p.acc * 0.001, v);
  }

  /** Clamping a change gives the nearest reachable value. */
  lemma NearestReachable(w: real, from: real, most: real, v: real)
    requires most >= 0.0 && Abs(v - from) <= most
    ensures Abs(from + Clamp(w - from, -most, most) - w) <= Abs(v - w)
  {
  }

  /** From rest a joint sets off towards its target. */
  lemma LeavesRest(p: Limits, sqrt: real -> real, j: Joint, target: real)
    requires Positive(p) && IsSqrt(sqrt) && j.dq == 0.0 && Abs(target - j.q) >= 0.0000001
    ensures target > j.q ==> Step(p, sqrt, j, target).q > j.q
    ensures target < j.q ==> Step(p, sqrt, j, target).q < j.q
  {
    var root := sqrt(BrakingEnergy(p.acc, target - j.q));
    SqrtIsBraking(p, sqrt, j, target);
    BrakingEnergyPositive(p, j, target, root);
  }

  // ---- The overshoot envelope ------------------------------------------------------------

  /** How far past its target range a joint can ever travel. */
  function Overshoot(p: Limits): real {
    p.vel * 0.001 / 2.0 + p.acc * 0.001 * 0.001 / 8.0
  }

  /** Kinetic excess over what braking can absorb before `hi`. */
  function Excess(p: Limits, j: Joint, hi: real): real {
    j.dq * j.dq - 2.0 * p.acc * (hi - j.q)
  }

  ghost predicate BelowEnvelope(p: Limits, j: Joint, hi: real) {
    && j.dq <= p.vel && j.q <= hi + Overshoot(p)
    && (j.dq >= 0.0 ==> Excess(p, j, hi) <= p.acc * 0.001 * (j.dq + p.vel))
  }

  /** The invariant on the excess bounds the position. */
  lemma ExcessBoundsPosition(p: Limits, j: Joint, hi: real)
    requires Positive(p) && 0.0 <= j.dq
    requires Excess(p, j, hi) <= p.acc * 0.001 * (j.dq + p.vel)
    ensures j.q <= hi + Overshoot(p)
  {
    var w := p.acc * 0.001;
    assert w * j.dq - j.dq * j.dq <= w * w / 4.0 by {
      SquareNonNegative(j.dq - w / 2.0);
    }
    assert 2.0 * p.acc * (j.q - hi) <= w * p.vel + w * w / 4.0;
    assert w * p.vel + w * w / 4.0 == 2.0 * p.acc * Overshoot(p);
    DivideOut(2.0 * p.acc, j.q - hi, Overshoot(p));
  }

  lemma DivideOut(a: real, x: real, y: real)
    requires a > 0.0 && a * x <= a * y
    ensures x <= y
  {
  }

  lemma RootUnique(x: real, y: real)
    requires 0.0 <= x && 0.0 <= y
    ensures x * x == y * y <==> x == y
  {
    if x < y { SquareStrict(x, y); }
    if y < x { SquareStrict(y, x); }
  }

  lemma SquareStrict(x: real, y: real)
    requires 0.0 <= x < y
    ensures x * x < y * y
  {
    assert y * y - x * x == (y - x) * (y + x);
    ProductPositive(y - x, y + x);
  }

  lemma ProductPositive(x: real, y: real)
    requires x > 0.0 && y > 0.0
    ensures x * y > 0.0
  {
  }

  /** Following or speeding up: the new speed could still be braked away before the target. */
  lemma FollowingKeepsExcess(p: Limits, j: Joint, j': Joint, target: real, hi: real, root: real)
    requires Positive(p) && target <= hi
    requires root >= 0.0 && root * root == 2.0 * p.acc * (target - j.q)
    requires 0.0 <= j'.dq <= root && j'.dq <= p.vel && j'.q == j.q + j'.dq * 0.001
    ensures Excess(p, j', hi) <= p.acc * 0.001 * (j'.dq + p.vel)
  {
    SquareMonotone(j'.dq, root);
    var w := p.acc * 0.001;
    assert 2.0 * p.acc * (target - j.q) <= 2.0 * p.acc * (hi - j.q);
    assert Excess(p, j', hi) == j'.dq * j'.dq - 2.0 * p.acc * (hi - j.q) + 2.0 * (w * j'.dq);
    assert w * j'.dq <= w * p.vel;
    assert w * (j'.dq + p.vel) == w * j'.dq + w * p.vel;
  }

  /** Braking at the limit lowers the excess by exactly the square of the speed step. */
  lemma BrakingKeepsExcess(p: Limits, j: Joint, j': Joint, hi: real)
    requires Positive(p)
    requires Excess(p, j, hi) <= p.acc * 0.001 * (j.dq + p.vel)
    requires j'.dq == j.dq - p.acc * 0.001 && j'.q == j.q + j'.dq * 0.001
    ensures Excess(p, j', hi) == Excess(p, j, hi) - p.acc * 0.001 * (p.acc * 0.001)
    ensures Excess(p, j', hi) <= p.acc * 0.001 * (j'.dq + p.vel)
  {
    var w := p.acc * 0.001;
    assert j'.dq * j'.dq == j.dq * j.dq - 2.0 * (w * j.dq) + w * w;
    assert 2.0 * p.acc * (hi - j'.q) == 2.0 * p.acc * (hi - j.q) - 2.0 * (w * j.dq) + 2.0 * (w * w);
  }

  /** Away from the snap a tick either brakes at the limit or does not exceed the wanted speed. */
  lemma LawBrakesOrFollows(p: Limits, j: Joint, target: real, root: real)
    requires Positive(p) && root >= 0.0
    requires !(Abs(target - j.q) < 0.0000001 && Abs(j.dq) <= p.acc * 0.001)
    ensures var j' := Law(p, j, target, root);
            && j'.q == j.q + j'.dq * 0.001
            && (j'.dq == j.dq - p.acc * 0.001 || j'.dq <= CopySign(Min(p.vel, root), target - j.q))
  {
  }

  lemma LawStaysBelow(p: Limits, j: Joint, target: real, root: real, hi: real)
    requires Positive(p) && IsBraking(p, j, target, root) && target <= hi
    requires BelowEnvelope(p, j, hi) && -p.vel <= j.dq
    ensures BelowEnvelope(p, Law(p, j, target, root), hi)
  {
    var j' := Law(p, j, target, root);
    LawKeepsLimits(p, j, target, root);
    if Abs(target - j.q) < 0.0000001 && Abs(j.dq) <= p.acc * 0.001 {
      RestInEnvelope(p, target, target, hi);
    } else if j'.dq >= 0.0 {
      LawBrakesOrFollows(p, j, target, root);
      MovingStaysBelow(p, j, j', target, root, hi);
    } else {
      LawBrakesOrFollows(p, j, target, root);
    }
  }

  lemma MovingStaysBelow(p: Limits, j: Joint, j': Joint, target: real, root: real, hi: real)
    requires Positive(p) && IsBraking(p, j, target, root) && target <= hi
    requires BelowEnvelope(p, j, hi) && 0.0 <= j'.dq <= p.vel && j'.q == j.q + j'.dq * 0.001
    requires j'.dq == j.dq - p.acc * 0.001 || j'.dq <= CopySign(Min(p.vel, root), target - j.q)
    ensures BelowEnvelope(p, j', hi)
  {
    if j'.dq == j.dq - p.acc * 0.001 {
      BrakingKeepsExcess(p, j, j', hi);
    } else {
      if target < j.q { BrakingEnergyPositive(p, j, target, root); }
      FollowingKeepsExcess(p, j, j', target, hi, root);
    }
    ExcessBoundsPosition(p, j', hi);
  }

  lemma BrakingEnergyPositive(p: Limits, j: Joint, target: real, root: real)
    requires Positive(p) && IsBraking(p, j, target, root)
    ensures root > 0.0 <==> target != j.q
  {
    if target != j.q {
      assert BrakingEnergy(p.acc, target - j.q) > 0.0;
    } else {
      assert BrakingEnergy(p.acc, target - j.q) == 0.0;
      RootUnique(root, 0.0);
    }
  }

  /** Reflection about zero: the law treats both directions alike. */
  function Mirror(j: Joint): Joint { Joint(-j.q, -j.dq, -j.ddq) }

  lemma LawMirrors(p: Limits, j: Joint, target: real, root: real)
    requires Positive(p) && root >= 0.0 && (target == j.q ==> root == 0.0)
    ensures Law(p, Mirror(j), -target, root) == Mirror(Law(p, j, target, root))
  {
  }

  lemma BrakingMirrors(p: Limits, j: Joint, target: real, root: real)
    requires IsBraking(p, j, target, root)
    ensures IsBraking(p, Mirror(j), -target, root)
  {
    assert Abs(-target - Mirror(j).q) == Abs(target - j.q);
  }

  ghost predicate InEnvelope(p: Limits, j: Joint, lo: real, hi: real) {
    BelowEnvelope(p, j, hi) && BelowEnvelope(p, Mirror(j), -lo)
  }

  lemma StepStaysInEnvelope(p: Limits, sqrt: real -> real, j: Joint, target: real, lo: real, hi: real)
    requires Positive(p) && IsSqrt(sqrt) && lo <= target <= hi
    requires InEnvelope(p, j, lo, hi)
    ensures InEnvelope(p, Step(p, sqrt, j, target), lo, hi) && WithinLimits(p, Step(p, sqrt, j, target))
  {
    var root := sqrt(BrakingEnergy(p.acc, target - j.q));
    SqrtIsBraking(p, sqrt, j, target);
    LawKeepsLimits(p, j, target, root);
    BrakingEnergyPositive(p, j, target, root);
    LawMirrors(p, j, target, root);
    BrakingMirrors(p, j, target, root);
    LawStaysBelow(p, j, target, root, hi);
    LawStaysBelow(p, Mirror(j), -target, root, -lo);
  }

  /** The joint after following `targets` tick by tick. */
  function Follow(p: Limits, sqrt: real -> real, j: Joint, targets: seq<real>): Joint
    decreases |targets|
  {
    if |targets| == 0 then j else Follow(p, sqrt, Step(p, sqrt, j, targets[0]), targets[1..])
  }

  /** For every target sequence inside `[lo, hi]`, from rest inside it: the joint stays within the
      range widened by `Overshoot`, and within its speed and acceleration limits. Every prefix of
      a run is a run, so this holds at every tick. */
  lemma RunStaysInEnvelope(p: Limits, sqrt: real -> real, start: real, targets: seq<real>, lo: real, hi: real)
    requires Positive(p) && IsSqrt(sqrt) && lo <= start <= hi
    requires forall t :: t in targets ==> lo <= t <= hi
    ensures var j := Follow(p, sqrt, Joint(start, 0.0, 0.0), targets);
            lo - Overshoot(p) <= j.q <= hi + Overshoot(p) && WithinLimits(p, j)
  {
    var j := Joint(start, 0.0, 0.0);
    RestInEnvelope(p, start, lo, hi);
    FollowStaysInEnvelope(p, sqrt, j, targets, lo, hi);
  }

  lemma ScaleNonNegative(p: Limits, d: real)
    requires Positive(p) && d >= 0.0
    ensures 2.0 * p.acc * d >= 0.0
  {
    var scale := 2.0 * p.acc;
    if d > 0.0 { ProductPositive(scale, d); }
  }

  lemma AllowancePositive(p: Limits)
    requires Positive(p)
    ensures Overshoot(p) > 0.0 && p.acc * 0.001 * p.vel > 0.0
  {
    ProductPositive(p.acc * 0.001, p.vel);
  }

  lemma RestInEnvelope(p: Limits, start: real, lo: real, hi: real)
    requires Positive(p) && lo <= start <= hi
    ensures InEnvelope(p, Joint(start, 0.0, 0.0), lo, hi)
  {
    ScaleNonNegative(p, hi - start);
    ScaleNonNegative(p, start - lo);
    assert Overshoot(p) >= 0.0 && p.acc * 0.001 * p.vel >= 0.0 by { AllowancePositive(p); }
  }

  lemma {:induction false} FollowStaysInEnvelope(p: Limits, sqrt: real -> real, j: Joint, targets: seq<real>, lo: real, hi: real)
    requires Positive(p) && IsSqrt(sqrt)
    requires forall t :: t in targets ==> lo <= t <= hi
    requires InEnvelope(p, j, lo, hi) && Abs(j.ddq) <= p.acc
    ensures var j' := Follow(p, sqrt, j, targets);
            InEnvelope(p, j', lo, hi) && WithinLimits(p, j')
    decreases |targets|
  {
    if |targets| > 0 {
      assert targets[0] in targets && forall t :: t in targets[1..] ==> t in targets;
      var j1 := Step(p, sqrt, j, targets[0]);
      StepStaysInEnvelope(p, sqrt, j, targets[0], lo, hi);
      FollowStaysInEnvelope(p, sqrt, j1, targets[1..], lo, hi);
    }
  }

  /** The widening is needed: with the default limits a single tick from rest already carries the
      joint past its target. */
  lemma OvershootHappens(sqrt: real -> real)
    requires IsSqrt(sqrt)
    ensures Step(Limits(2.0, 3.0), sqrt, Joint(0.0, 0.0, 0.0), 0.0000015).q > 0.0000015
  {
    var j := Joint(0.0, 0.0, 0.0);
    SqrtIsBraking(Limits(2.0, 3.0), sqrt, j, 0.0000015);
    assert BrakingEnergy(3.0, 0.0000015 - j.q) == 0.003 * 0.003;
    RootUnique(sqrt(BrakingEnergy(3.0, 0.0000015 - j.q)), 0.003);
  }
}
