/** The control loop of the native controller: deadman, setpoint adoption, trajectory, safety stop. */
module Controller {
  import opened Seqlock
  import opened Reals
  import opened Trajectory

  datatype Settings = Settings(
    dof: nat,
    soft: int,             // adopt new setpoints only up to this age (ns)
    hard: int,             // stop the robot beyond this age (ns)
    safetyCheck: bool,
    tolerance: real,
    limits: Limits)

  /** What one `Latest` call on the setpoint ring left in the caller's variables. */
  datatype Newest = Newest(ok: bool, values: seq<real>, time: int)

  /** Everything the outside world contributes to one tick. */
  datatype Input = Input(now: int, halt: bool, newest: Newest, measured: seq<real>)

  /** One command streamed to the robot. */
  datatype Streamed = Streamed(age: int, desired: seq<real>, joints: seq<Joint>)

  /** The call returned a whole posted row, or failed without touching the vector. */
  ghost predicate Honest(posted: seq<Entry>, n: Newest) {
    if n.ok then exists i :: 0 <= i < |posted| && posted[i] == Entry(n.values, n.time)
    else n.values == []
  }

  function NewestOf(o: Outcome): Newest
    requires o.LatestDone? || o.LatestFailed?
  {
    match o
    case LatestDone(_, values, time, _, _) => Newest(true, values, time)
    case LatestFailed(values, _, _) => Newest(false, values, 0)
  }

  /** A finished `Latest` call during which at most `n` rows were appended. */
  predicate CallWithin(o: Outcome, n: int) {
    o.LatestDone? || (o.LatestFailed? && o.finished - o.started <= n)
  }

  /** Fewer than this many rows appended during a call leave it honest. */
  function AppendBound(capacity: nat): int { 4 * (capacity - 1) }

  lemma CallIsHonest(s: System, who: nat)
    requires Inv(s) && who < |s.readers| && CallWithin(s.readers[who].outcome, AppendBound(s.mem.capacity) - 1)
    ensures Honest(s.mem.log, NewestOf(s.readers[who].outcome))
  {
    var o := s.readers[who].outcome;
    assert OutcomeInv(s.mem, o);
    if o.LatestDone? {
      assert s.mem.log[o.index] == Entry(o.values, o.time);
    }
  }

  /** Under every interleaving a finished `Latest` call is honest, provided fewer than
      `4 * (capacity - 1)` rows were appended while it ran. */
  lemma LatestIsHonest(s: System, actions: seq<Action>, s': System, who: nat)
    requires Init(s) && Runs(s, actions, s') && who < |s'.readers|
    requires CallWithin(s'.readers[who].outcome, AppendBound(s'.mem.capacity) - 1)
    ensures Honest(s'.mem.log, NewestOf(s'.readers[who].outcome))
  {
    RunKeepsInv(s, actions, s');
    CallIsHonest(s', who);
  }

  // ---- One tick as a state transition ------------------------------------------------------

  /** The variables of the streaming loop. */
  datatype State = State(desired: seq<real>, joints: seq<Joint>, lastTime: int)

  datatype Ticked = Halted | Streams(out: Streamed, next: State)

  function LastTime(s: State, x: Input): int { if x.newest.ok then x.newest.time else s.lastTime }

  /** The newest vector replaces the target only within the soft deadman. Whether the read
      succeeded is not consulted, only whether the vector is non-empty. */
  function Adopted(c: Settings, desired: seq<real>, newest: Newest, age: int): seq<real> {
    if newest.values != [] && age <= c.soft && |newest.values| >= c.dof then newest.values[..c.dof] else desired
  }

  function AllMoved(c: Settings, sqrt: real -> real, js: seq<Joint>, desired: seq<real>): (js': seq<Joint>)
    requires |desired| == |js|
    ensures |js'| == |js|
  {
    seq(|js|, i requires 0 <= i < |js| => Step(c.limits, sqrt, js[i], desired[i]))
  }

  /** Some joint is further from its measured position than the tolerance. */
  ghost predicate RunAway(c: Settings, js: seq<Joint>, measured: seq<real>)
    requires |measured| >= |js|
  {
    c.safetyCheck && (c.tolerance < 0.0 || exists i :: 0 <= i < |js| && Abs(js[i].q - measured[i]) > c.tolerance)
  }

  ghost predicate Fits(c: Settings, s: State) { |s.desired| == |s.joints| == c.dof }

  ghost function TickOf(c: Settings, sqrt: real -> real, s: State, x: Input): (t: Ticked)
    requires Fits(c, s) && |x.measured| >= c.dof
    ensures t.Streams? ==> Fits(c, t.next)
  {
    var time := LastTime(s, x);
    var age := x.now - time;
    if x.halt || age > c.hard then Halted else
      var desired := Adopted(c, s.desired, x.newest, age);
      var js := AllMoved(c, sqrt, s.joints, desired);
      if RunAway(c, js, x.measured) then Halted
      else Streams(Streamed(age, desired, js), State(desired, js, time))
  }

  /** Everything streamed until the loop halts or the inputs end. */
  ghost function TraceOf(c: Settings, sqrt: real -> real, s: State, inputs: seq<Input>): (trace: seq<Streamed>)
    requires Fits(c, s) && forall k :: 0 <= k < |inputs| ==> |inputs[k].measured| >= c.dof
    ensures |trace| <= |inputs|
    decreases |inputs|
  {
    if |inputs| == 0 then [] else
      match TickOf(c, sqrt, s, inputs[0])
      case Halted => []
      case Streams(out, next) => [out] + TraceOf(c, sqrt, next, inputs[1..])
  }

  /** At rest on the first setpoint. */
  function Initial(c: Settings, e: Entry): State
    requires |e.values| >= c.dof
  {
    State(e.values[..c.dof], seq(c.dof, i requires 0 <= i < c.dof => Joint(e.values[i], 0.0, 0.0)), e.time)
  }

  // ---- Safety of every run -----------------------------------------------------------------

  /** A box that contains every posted row. */
  ghost predicate Boxed(c: Settings, posted: seq<Entry>, lo: seq<real>, hi: seq<real>) {
    && |lo| == |hi| == c.dof
    && forall k :: 0 <= k < |posted| ==> InRange(lo, hi, posted[k].values)
  }

  ghost predicate InRange(lo: seq<real>, hi: seq<real>, v: seq<real>)
    requires |lo| == |hi|
  {
    |lo| <= |v| && forall i :: 0 <= i < |lo| ==> lo[i] <= v[i] <= hi[i]
  }

  /** `v` is the joint part of one whole posted row. */
  ghost predicate Posted(posted: seq<Entry>, dof: nat, v: seq<real>) {
    exists i :: 0 <= i < |posted| && |posted[i].values| >= dof && posted[i].values[..dof] == v
  }

  /** Some posted row is exactly `age` old at `now`. */
  ghost predicate PostedAged(posted: seq<Entry>, now: int, age: int) {
    exists i :: 0 <= i < |posted| && now - posted[i].time == age
  }

  ghost predicate AllInEnvelope(p: Limits, js: seq<Joint>, lo: seq<real>, hi: seq<real>) {
    |js| == |lo| == |hi| && forall i :: 0 <= i < |js| ==> InEnvelope(p, js[i], lo[i], hi[i])
  }

  ghost predicate Good(c: Settings, posted: seq<Entry>, lo: seq<real>, hi: seq<real>, s: State) {
    && Fits(c, s) && AllInEnvelope(c.limits, s.joints, lo, hi)
    && Posted(posted, c.dof, s.desired) && PostedAged(posted, s.lastTime, 0)
  }

  /** Setpoint guarantees of one streamed command. */
  ghost predicate Fresh(c: Settings, posted: seq<Entry>, x: Input, held: seq<real>, t: Streamed) {
    && !x.halt
    && t.age <= c.hard && PostedAged(posted, x.now, t.age)
    && Posted(posted, c.dof, t.desired)
    && (t.desired == held || t.age <= c.soft)
  }

  /** Motion guarantees of one streamed command. */
  ghost predicate Bounded(c: Settings, lo: seq<real>, hi: seq<real>, x: Input, t: Streamed) {
    && |t.joints| == |lo| == |hi| == c.dof <= |x.measured|
    && forall i :: 0 <= i < c.dof ==>
         && lo[i] - Overshoot(c.limits) <= t.joints[i].q <= hi[i] + Overshoot(c.limits)
         && WithinLimits(c.limits, t.joints[i])
         && (c.safetyCheck ==> Abs(t.joints[i].q - x.measured[i]) <= c.tolerance)
  }

  /** The target vector in force just before tick `k`. */
  function Held(first: seq<real>, trace: seq<Streamed>, k: nat): seq<real>
    requires k <= |trace|
  {
    if k == 0 then first else trace[k - 1].desired
  }

  lemma MovedStaysInEnvelope(c: Settings, sqrt: real -> real, js: seq<Joint>, desired: seq<real>, lo: seq<real>, hi: seq<real>)
    requires Positive(c.limits) && IsSqrt(sqrt) && AllInEnvelope(c.limits, js, lo, hi)
    requires InRange(lo, hi, desired) && |desired| == |js|
    ensures AllInEnvelope(c.limits, AllMoved(c, sqrt, js, desired), lo, hi)
    ensures forall i :: 0 <= i < |js| ==> WithinLimits(c.limits, AllMoved(c, sqrt, js, desired)[i])
  {
    forall i | 0 <= i < |js|
      ensures InEnvelope(c.limits, Step(c.limits, sqrt, js[i], desired[i]), lo[i], hi[i])
      ensures WithinLimits(c.limits, Step(c.limits, sqrt, js[i], desired[i]))
    {
      StepStaysInEnvelope(c.limits, sqrt, js[i], desired[i], lo[i], hi[i]);
    }
  }

  lemma InitialIsGood(c: Settings, posted: seq<Entry>, lo: seq<real>, hi: seq<real>, e: Entry)
    requires Positive(c.limits) && Boxed(c, posted, lo, hi) && e in posted && |e.values| >= c.dof
    ensures Good(c, posted, lo, hi, Initial(c, e))
  {
    var k :| 0 <= k < |posted| && posted[k] == e;
    forall i | 0 <= i < c.dof ensures InEnvelope(c.limits, Initial(c, e).joints[i], lo[i], hi[i]) {
      RestInEnvelope(c.limits, e.values[i], lo[i], hi[i]);
    }
  }

  /** An honest tick adopts only whole posted rows. */
  lemma AdoptedIsPosted(c: Settings, posted: seq<Entry>, s: State, x: Input, age: int)
    requires Posted(posted, c.dof, s.desired) && PostedAged(posted, s.lastTime, 0) && Honest(posted, x.newest)
    ensures Posted(posted, c.dof, Adopted(c, s.desired, x.newest, age))
    ensures PostedAged(posted, LastTime(s, x), 0)
  {
  }

  lemma PostedInRange(c: Settings, posted: seq<Entry>, v: seq<real>, lo: seq<real>, hi: seq<real>)
    requires Posted(posted, c.dof, v) && Boxed(c, posted, lo, hi)
    ensures InRange(lo, hi, v)
  {
    var i :| 0 <= i < |posted| && |posted[i].values| >= c.dof && posted[i].values[..c.dof] == v;
    assert InRange(lo, hi, posted[i].values);
  }

  /** One tick preserves the invariant and streams only safe commands. */
  lemma TickIsSafe(c: Settings, sqrt: real -> real, posted: seq<Entry>, lo: seq<real>, hi: seq<real>, s: State, x: Input)
    requires Positive(c.limits) && IsSqrt(sqrt) && Boxed(c, posted, lo, hi)
    requires Good(c, posted, lo, hi, s) && Honest(posted, x.newest) && |x.measured| >= c.dof
    requires TickOf(c, sqrt, s, x).Streams?
    ensures var t := TickOf(c, sqrt, s, x);
            && Good(c, posted, lo, hi, t.next) && t.next.desired == t.out.desired
            && Fresh(c, posted, x, s.desired, t.out) && Bounded(c, lo, hi, x, t.out)
  {
    var t := TickOf(c, sqrt, s, x);
    AdoptedIsPosted(c, posted, s, x, t.out.age);
    var k :| 0 <= k < |posted| && t.next.lastTime - posted[k].time == 0;
    assert x.now - posted[k].time == t.out.age;
    PostedInRange(c, posted, t.out.desired, lo, hi);
    MovedStaysInEnvelope(c, sqrt, s.joints, t.out.desired, lo, hi);
  }

  /** Every command of every run, for any inputs and any posted rows inside `[lo, hi]`. */
  lemma {:induction false} TraceIsSafe(c: Settings, sqrt: real -> real, posted: seq<Entry>, lo: seq<real>, hi: seq<real>,
                    s: State, inputs: seq<Input>)
    requires Positive(c.limits) && IsSqrt(sqrt) && Boxed(c, posted, lo, hi) && Good(c, posted, lo, hi, s)
    requires forall n :: 0 <= n < |inputs| ==> Honest(posted, inputs[n].newest) && |inputs[n].measured| >= c.dof
    ensures var trace := TraceOf(c, sqrt, s, inputs);
            forall k :: 0 <= k < |trace| ==> SafeAt(c, posted, lo, hi, inputs[k], Held(s.desired, trace, k), trace[k])
    decreases |inputs|
  {
    if |inputs| > 0 {
      var t := TickOf(c, sqrt, s, inputs[0]);
      if t.Streams? {
        TickIsSafe(c, sqrt, posted, lo, hi, s, inputs[0]);
        TraceIsSafe(c, sqrt, posted, lo, hi, t.next, inputs[1..]);
        ChainContinues((x, held, out) => SafeAt(c, posted, lo, hi, x, held, out), s.desired, inputs, t.out, TraceOf(c, sqrt, t.next, inputs[1..]));
      }
    }
  }

  /** A command put in front of a run, all with some property of input, held target and command. */
  lemma ChainContinues(good: (Input, seq<real>, Streamed) -> bool, first: seq<real>, inputs: seq<Input>, out: Streamed, rest: seq<Streamed>)
    requires |rest| < |inputs| && good(inputs[0], first, out)
    requires forall k :: 0 <= k < |rest| ==> good(inputs[1..][k], Held(out.desired, rest, k), rest[k])
    ensures var trace := [out] + rest; forall k :: 0 <= k < |trace| ==> good(inputs[k], Held(first, trace, k), trace[k])
  {
    var trace := [out] + rest;
    forall k | 0 <= k < |trace| ensures good(inputs[k], Held(first, trace, k), trace[k]) {
      if k > 0 { assert good(inputs[1..][k - 1], Held(out.desired, rest, k - 1), rest[k - 1]); }
    }
  }

  ghost predicate SafeAt(c: Settings, posted: seq<Entry>, lo: seq<real>, hi: seq<real>, x: Input, held: seq<real>, t: Streamed) {
    Fresh(c, posted, x, held, t) && Bounded(c, lo, hi, x, t)
  }

  // ---- What the loop follows ------------------------------------------------------------------

  /** Time of the newest setpoint read so far. */
  ghost function LastGood(time: int, inputs: seq<Input>, n: nat): int
    requires n <= |inputs|
  {
    if n == 0 then time else if inputs[n - 1].newest.ok then inputs[n - 1].newest.time else LastGood(time, inputs, n - 1)
  }

  /** The motion in force just before tick `k`. */
  function Before(first: seq<Joint>, trace: seq<Streamed>, k: nat): seq<Joint>
    requires k <= |trace|
  {
    if k == 0 then first else trace[k - 1].joints
  }

  type Stepper = (Joint, real) -> Joint

  /** `step` is one tick of the trajectory law. */
  ghost predicate IsStep(step: Stepper, c: Settings, sqrt: real -> real) {
    forall j, x {:trigger Step(c.limits, sqrt, j, x)} :: step(j, x) == Step(c.limits, sqrt, j, x)
  }

  /** A tick may end the loop only for one of these causes. */
  ghost predicate HaltCause(c: Settings, step: Stepper, held: seq<real>, js: seq<Joint>, x: Input, age: int) {
    || x.halt || age > c.hard
    || (c.safetyCheck && (c.tolerance < 0.0 || exists i :: 0 <= i < |js| && TooFar(c, step, held, js, x, age, i)))
  }

  /** Joint `i`, moved towards the target of this tick, is beyond the tolerance. */
  ghost predicate TooFar(c: Settings, step: Stepper, held: seq<real>, js: seq<Joint>, x: Input, age: int, i: nat) {
    var target := if x.newest.values != [] && age <= c.soft && |x.newest.values| >= c.dof then x.newest.values[..c.dof] else held;
    i < |js| && i < |target| && i < |x.measured| && Abs(step(js[i], target[i]).q - x.measured[i]) > c.tolerance
  }

  /** The target of a streamed command: the setpoint just read if it is young and wide enough, else the one held. */
  ghost predicate FollowsTarget(c: Settings, x: Input, held: seq<real>, t: Streamed) {
    && (x.newest.ok && t.age <= c.soft && |x.newest.values| >= c.dof ==> t.desired == x.newest.values[..c.dof])
    && (x.newest.values == [] || t.age > c.soft || |x.newest.values| < c.dof ==> t.desired == held)
  }

  /** A streamed command moves every joint one step of the law from where it was. */
  ghost predicate FollowsLaw(step: Stepper, js: seq<Joint>, t: Streamed) {
    |t.joints| == |js| == |t.desired| && forall i :: 0 <= i < |js| ==> t.joints[i] == step(js[i], t.desired[i])
  }

  /** What one tick did: its age, target and motion if it streamed, the cause if it halted. */
  ghost predicate TickExplained(c: Settings, step: Stepper, s: State, x: Input, t: Ticked) {
    var time := if x.newest.ok then x.newest.time else s.lastTime;
    match t
    case Halted => HaltCause(c, step, s.desired, s.joints, x, x.now - time)
    case Streams(out, next) =>
      && !x.halt && out.age == x.now - time <= c.hard && FollowsTarget(c, x, s.desired, out) && FollowsLaw(step, s.joints, out)
      && next == State(out.desired, out.joints, time) && !HaltCause(c, step, s.desired, s.joints, x, out.age)
  }

  lemma TickFollows(c: Settings, sqrt: real -> real, step: Stepper, s: State, x: Input)
    requires Fits(c, s) && |x.measured| >= c.dof && IsStep(step, c, sqrt)
    ensures TickExplained(c, step, s, x, TickOf(c, sqrt, s, x))
  {
    var age := x.now - LastTime(s, x);
    var target := Adopted(c, s.desired, x.newest, age);
    AllMovedSteps(c, sqrt, step, s.joints, target);
    var js := AllMoved(c, sqrt, s.joints, target);
    RunAwayIsCause(c, step, s, x, age, js);
  }

  lemma AllMovedSteps(c: Settings, sqrt: real -> real, step: Stepper, js: seq<Joint>, target: seq<real>)
    requires IsStep(step, c, sqrt) && |target| == |js|
    ensures forall i :: 0 <= i < |js| ==> AllMoved(c, sqrt, js, target)[i] == step(js[i], target[i])
  {
    forall i | 0 <= i < |js| ensures AllMoved(c, sqrt, js, target)[i] == step(js[i], target[i]) {
      assert AllMoved(c, sqrt, js, target)[i] == Step(c.limits, sqrt, js[i], target[i]);
    }
  }

  lemma RunAwayIsCause(c: Settings, step: Stepper, s: State, x: Input, age: int, js: seq<Joint>)
    requires Fits(c, s) && |x.measured| >= c.dof && |js| == c.dof
    requires var target := Adopted(c, s.desired, x.newest, age); forall i :: 0 <= i < |js| ==> js[i] == step(s.joints[i], target[i])
    ensures HaltCause(c, step, s.desired, s.joints, x, age) <==> x.halt || age > c.hard || RunAway(c, js, x.measured)
  {
    if RunAway(c, js, x.measured) && c.tolerance >= 0.0 {
      var i :| 0 <= i < |js| && Abs(js[i].q - x.measured[i]) > c.tolerance;
      assert TooFar(c, step, s.desired, s.joints, x, age, i);
    }
  }

  lemma {:induction false} LastGoodTail(time: int, inputs: seq<Input>, n: nat)
    requires 0 < n <= |inputs|
    ensures LastGood(time, inputs, n) == LastGood(if inputs[0].newest.ok then inputs[0].newest.time else time, inputs[1..], n - 1)
    decreases n
  {
    if n > 1 { LastGoodTail(time, inputs, n - 1); }
  }

  /** What tick `k` of a run streamed: its age, its target and its motion. */
  ghost predicate FollowsAt(c: Settings, step: Stepper, s: State, inputs: seq<Input>, trace: seq<Streamed>, k: nat) {
    && k < |trace| && k < |inputs|
    && trace[k].age == inputs[k].now - LastGood(s.lastTime, inputs, k + 1)
    && FollowsTarget(c, inputs[k], Held(s.desired, trace, k), trace[k]) && FollowsLaw(step, Before(s.joints, trace, k), trace[k])
    && !HaltCause(c, step, Held(s.desired, trace, k), Before(s.joints, trace, k), inputs[k], trace[k].age)
  }

  /** A run follows the setpoints it reads, tick by tick, and ends before its inputs do exactly when a tick has a
      cause to halt. */
  ghost predicate RunFollows(c: Settings, step: Stepper, s: State, inputs: seq<Input>, trace: seq<Streamed>) {
    && |trace| <= |inputs| && (forall k :: 0 <= k < |trace| ==> FollowsAt(c, step, s, inputs, trace, k))
    && (|trace| < |inputs| ==>
          var k := |trace|;
          HaltCause(c, step, Held(s.desired, trace, k), Before(s.joints, trace, k), inputs[k], inputs[k].now - LastGood(s.lastTime, inputs, k + 1)))
  }

  lemma {:induction false} TraceFollows(c: Settings, sqrt: real -> real, step: Stepper, s: State, inputs: seq<Input>)
    requires Fits(c, s) && IsStep(step, c, sqrt) && forall n :: 0 <= n < |inputs| ==> |inputs[n].measured| >= c.dof
    ensures RunFollows(c, step, s, inputs, TraceOf(c, sqrt, s, inputs))
    decreases |inputs|
  {
    if |inputs| > 0 {
      TickFollows(c, sqrt, step, s, inputs[0]);
      var t := TickOf(c, sqrt, s, inputs[0]);
      if t.Streams? {
        TraceFollows(c, sqrt, step, t.next, inputs[1..]);
        RunContinues(c, step, s, inputs, t.out, t.next, TraceOf(c, sqrt, t.next, inputs[1..]));
      } else {
        RunStops(c, step, s, inputs);
      }
    }
  }

  lemma RunStops(c: Settings, step: Stepper, s: State, inputs: seq<Input>)
    requires |inputs| > 0 && TickExplained(c, step, s, inputs[0], Halted)
    ensures RunFollows(c, step, s, inputs, [])
  {
    assert LastGood(s.lastTime, inputs, 1) == if inputs[0].newest.ok then inputs[0].newest.time else s.lastTime;
  }

  /** A tick put in front of a run that follows its setpoints. */
  lemma RunContinues(c: Settings, step: Stepper, s: State, inputs: seq<Input>, out: Streamed, next: State, rest: seq<Streamed>)
    requires |inputs| > 0 && TickExplained(c, step, s, inputs[0], Streams(out, next)) && RunFollows(c, step, next, inputs[1..], rest)
    ensures RunFollows(c, step, s, inputs, [out] + rest)
  {
    var trace := [out] + rest;
    LastGoodTail(s.lastTime, inputs, 1);
    forall k | 0 <= k < |trace| ensures FollowsAt(c, step, s, inputs, trace, k) {
      if k > 0 {
        LastGoodTail(s.lastTime, inputs, k + 1);
        assert FollowsAt(c, step, next, inputs[1..], rest, k - 1) && inputs[1..][k - 1] == inputs[k];
      }
    }
    if |trace| < |inputs| {
      LastGoodTail(s.lastTime, inputs, |trace| + 1);
      assert inputs[1..][|rest|] == inputs[|trace|];
    }
  }

  // ---- The loop on a running ring ------------------------------------------------------------

  /** A run of the setpoint ring, seen at the moments `moments[0], moments[1], …`. */
  ghost predicate RingRun(moments: seq<System>, schedule: seq<seq<Action>>) {
    && |moments| == |schedule| + 1 && Init(moments[0])
    && forall j :: 0 <= j < |schedule| ==> LeadsTo(moments[j], schedule[j], moments[j + 1])
  }

  ghost predicate LeadsTo(s: System, actions: seq<Action>, s': System) {
    Inv(s) ==> Runs(s, actions, s')
  }

  lemma {:induction false} RingRunKeeps(moments: seq<System>, schedule: seq<seq<Action>>, j: nat, l: nat)
    requires RingRun(moments, schedule) && j <= l < |moments|
    ensures Inv(moments[j]) && Inv(moments[l]) && Evolves(moments[j].mem, moments[l].mem) && |moments[l].readers| == |moments[0].readers|
    decreases l
  {
    if l == 0 {
      EvolvesReflexive(moments[0].mem);
    } else {
      RingRunKeeps(moments, schedule, l - 1, l - 1);
      assert LeadsTo(moments[l - 1], schedule[l - 1], moments[l]);
      RunKeepsInv(moments[l - 1], schedule[l - 1], moments[l]);
      if j < l {
        RingRunKeeps(moments, schedule, j, l - 1);
        EvolvesTransitive(moments[j].mem, moments[l - 1].mem, moments[l].mem);
      } else {
        EvolvesReflexive(moments[l].mem);
      }
    }
  }

  /** The first moment is the end of the call that found the first setpoint, and moment `k + 2` the end of
      the call of tick `k`; during each call fewer than `4 * (capacity - 1)` rows were appended. */
  ghost predicate Fed(moments: seq<System>, who: nat, initial: Entry, inputs: seq<Input>) {
    && |moments| == |inputs| + 2 && (forall j :: 0 <= j < |moments| ==> who < |moments[j].readers|)
    && moments[1].readers[who].outcome.LatestDone?
    && initial == Entry(moments[1].readers[who].outcome.values, moments[1].readers[who].outcome.time)
    && forall k :: 0 <= k < |inputs| ==> FedAt(moments[k + 2], who, inputs[k])
  }

  ghost predicate FedAt(s: System, who: nat, x: Input) {
    && who < |s.readers| && CallWithin(s.readers[who].outcome, AppendBound(s.mem.capacity) - 1)
    && x.newest == NewestOf(s.readers[who].outcome)
  }

  /** Whole rows stay whole rows while the log grows. */
  lemma HonestLater(log: seq<Entry>, log': seq<Entry>, n: Newest)
    requires log <= log' && Honest(log, n)
    ensures Honest(log', n)
  {
    if n.ok {
      var i :| 0 <= i < |log| && log[i] == Entry(n.values, n.time);
      assert log'[i] == log[i];
    }
  }

  /** Every call up to tick `k` is honest about the rows posted by the end of tick `k`'s call. */
  lemma CallsAreHonest(moments: seq<System>, schedule: seq<seq<Action>>, who: nat, initial: Entry, inputs: seq<Input>, k: nat)
    requires RingRun(moments, schedule) && Fed(moments, who, initial, inputs) && k < |inputs|
    ensures var posted := moments[k + 2].mem.log;
            initial in posted && forall n :: 0 <= n <= k ==> Honest(posted, inputs[n].newest)
  {
    var posted := moments[k + 2].mem.log;
    RingRunKeeps(moments, schedule, 1, k + 2);
    var o := moments[1].readers[who].outcome;
    assert OutcomeInv(moments[1].mem, o);
    assert moments[1].mem.log[o.index] == posted[o.index] == initial;
    forall n | 0 <= n <= k ensures Honest(posted, inputs[n].newest) {
      RingRunKeeps(moments, schedule, n + 2, k + 2);
      assert FedAt(moments[n + 2], who, inputs[n]);
      CallIsHonest(moments[n + 2], who);
      HonestLater(moments[n + 2].mem.log, posted, inputs[n].newest);
    }
  }

  /** What streams at a tick does not depend on later inputs. */
  lemma {:induction false} TracePrefix(c: Settings, sqrt: real -> real, s: State, inputs: seq<Input>, n: nat, k: nat)
    requires Fits(c, s) && (forall j :: 0 <= j < |inputs| ==> |inputs[j].measured| >= c.dof) && k < n <= |inputs|
    requires k < |TraceOf(c, sqrt, s, inputs)|
    ensures k < |TraceOf(c, sqrt, s, inputs[..n])| && TraceOf(c, sqrt, s, inputs[..n])[..k + 1] == TraceOf(c, sqrt, s, inputs)[..k + 1]
    decreases |inputs|
  {
    var t := TickOf(c, sqrt, s, inputs[0]);
    assert inputs[..n][0] == inputs[0] && inputs[..n][1..] == inputs[1..][..n - 1];
    var rest := TraceOf(c, sqrt, t.next, inputs[1..]);
    assert TraceOf(c, sqrt, s, inputs) == [t.out] + rest;
    if k > 0 {
      TracePrefix(c, sqrt, t.next, inputs[1..], n - 1, k - 1);
      var cut := TraceOf(c, sqrt, t.next, inputs[1..][..n - 1]);
      assert ([t.out] + rest)[..k + 1] == [t.out] + rest[..k];
      assert ([t.out] + cut)[..k + 1] == [t.out] + cut[..k];
    }
  }

  /** The controller on a running setpoint ring. For every interleaving of the producer's word-by-word appends
      with the loop's `Latest` calls, with fewer than `4 * (capacity - 1)` appends per call: every streamed
      command follows one whole row posted before it streamed, some posted row is then no older than the hard
      deadman, the target changed only within the soft one, and the motion is bounded. */
  lemma RingRunIsSafe(c: Settings, sqrt: real -> real, moments: seq<System>, schedule: seq<seq<Action>>, who: nat, initial: Entry,
                      inputs: seq<Input>, lo: seq<real>, hi: seq<real>, k: nat)
    requires Positive(c.limits) && IsSqrt(sqrt) && RingRun(moments, schedule) && Fed(moments, who, initial, inputs)
    requires |initial.values| >= c.dof && forall n :: 0 <= n < |inputs| ==> |inputs[n].measured| >= c.dof
    requires k < |TraceOf(c, sqrt, Initial(c, initial), inputs)| && Boxed(c, moments[k + 2].mem.log, lo, hi)
    ensures var trace, posted := TraceOf(c, sqrt, Initial(c, initial), inputs), moments[k + 2].mem.log;
            && Fresh(c, posted, inputs[k], Held(Initial(c, initial).desired, trace, k), trace[k])
            && Bounded(c, lo, hi, inputs[k], trace[k])
  {
    var s, posted, seen := Initial(c, initial), moments[k + 2].mem.log, inputs[..k + 1];
    CallsAreHonest(moments, schedule, who, initial, inputs, k);
    InitialIsGood(c, posted, lo, hi, initial);
    TracePrefix(c, sqrt, s, inputs, k + 1, k);
    TraceIsSafe(c, sqrt, posted, lo, hi, s, seen);
    CutAgrees(c, posted, lo, hi, s.desired, inputs[k], TraceOf(c, sqrt, s, inputs), TraceOf(c, sqrt, s, seen), k);
  }

  lemma CutAgrees(c: Settings, posted: seq<Entry>, lo: seq<real>, hi: seq<real>, first: seq<real>, x: Input, trace: seq<Streamed>, cut: seq<Streamed>, k: nat)
    requires k < |trace| && k < |cut| && cut[..k + 1] == trace[..k + 1] && SafeAt(c, posted, lo, hi, x, Held(first, cut, k), cut[k])
    ensures SafeAt(c, posted, lo, hi, x, Held(first, trace, k), trace[k])
  {
    assert trace[k] == trace[..k + 1][k] == cut[..k + 1][k] == cut[k];
    if k > 0 { assert trace[k - 1] == trace[..k + 1][k - 1] == cut[..k + 1][k - 1] == cut[k - 1]; }
  }

  /** The command goes for the row its call returned. */
  ghost predicate FollowsRow(c: Settings, s: System, who: nat, x: Input, t: Streamed) {
    && who < |s.readers| && s.readers[who].outcome.LatestDone?
    && var m, o := s.mem, s.readers[who].outcome;
       && 0 <= o.index < |m.log| && t.age == x.now - m.log[o.index].time
       && (t.age <= c.soft && |m.log[o.index].values| >= c.dof ==> t.desired == m.log[o.index].values[..c.dof])
  }

  /** On a running ring: a command whose call succeeded follows exactly the row that `Latest` returned, at its
      age, as long as that row is young and wide enough. */
  lemma RingRunFollows(c: Settings, sqrt: real -> real, moments: seq<System>, schedule: seq<seq<Action>>, who: nat, initial: Entry,
                       inputs: seq<Input>, k: nat)
    requires RingRun(moments, schedule) && Fed(moments, who, initial, inputs)
    requires |initial.values| >= c.dof && forall n :: 0 <= n < |inputs| ==> |inputs[n].measured| >= c.dof
    requires k < |TraceOf(c, sqrt, Initial(c, initial), inputs)| && moments[k + 2].readers[who].outcome.LatestDone?
    ensures FollowsRow(c, moments[k + 2], who, inputs[k], TraceOf(c, sqrt, Initial(c, initial), inputs)[k])
  {
    var step: Stepper := (j, x) => Step(c.limits, sqrt, j, x);
    TraceFollows(c, sqrt, step, Initial(c, initial), inputs);
    RingRunKeeps(moments, schedule, k + 2, k + 2);
    assert FedAt(moments[k + 2], who, inputs[k]) && OutcomeInv(moments[k + 2].mem, moments[k + 2].readers[who].outcome);
    assert FollowsAt(c, step, Initial(c, initial), inputs, TraceOf(c, sqrt, Initial(c, initial), inputs), k);
  }

  // ---- The loop itself ---------------------------------------------------------------------

  function Joints(q: seq<real>, dq: seq<real>, ddq: seq<real>): (js: seq<Joint>)
    requires |q| == |dq| == |ddq|
    ensures |js| == |q|
  {
    seq(|q|, i requires 0 <= i < |q| => Joint(q[i], dq[i], ddq[i]))
  }

  method WorstError(q: seq<real>, measured: seq<real>) returns (worst: real)
    requires |measured| >= |q|
    ensures worst >= 0.0 && forall i :: 0 <= i < |q| ==> Abs(q[i] - measured[i]) <= worst
    ensures worst == 0.0 || exists i :: 0 <= i < |q| && Abs(q[i] - measured[i]) == worst
  {
    worst := 0.0;
    for i := 0 to |q|
      invariant worst >= 0.0 && forall k :: 0 <= k < i ==> Abs(q[k] - measured[k]) <= worst
      invariant worst == 0.0 || exists k :: 0 <= k < i && Abs(q[k] - measured[k]) == worst
    {
      var e := Abs(q[i] - measured[i]);
      if worst < e { worst := e; }
    }
  }

  class Loop {
    const c: Settings
    const desired: array<real>
    const q: array<real>
    const dq: array<real>
    const ddq: array<real>
    var lastTime: int

    ghost predicate Valid()
      reads this, desired, q, dq, ddq
    {
      && desired.Length == q.Length == dq.Length == ddq.Length == c.dof
      && desired != q && desired != dq && desired != ddq && q != dq && q != ddq && dq != ddq
    }

    ghost function View(): State
      reads this, desired, q, dq, ddq
      requires Valid()
    {
      State(desired[..], Joints(q[..], dq[..], ddq[..]), lastTime)
    }

    constructor (c: Settings, initial: Entry)
      requires |initial.values| >= c.dof
      ensures Valid() && this.c == c && View() == Initial(c, initial)
      ensures desired[..] == q[..] == initial.values[..c.dof] && lastTime == initial.time
      ensures forall i :: 0 <= i < c.dof ==> dq[i] == ddq[i] == 0.0
      ensures fresh(desired) && fresh(q) && fresh(dq) && fresh(ddq)
    {
      this.c, lastTime := c, initial.time;
      desired := new real[c.dof](i requires 0 <= i < c.dof => initial.values[i]);
      q := new real[c.dof](i requires 0 <= i < c.dof => initial.values[i]);
      dq := new real[c.dof](_ => 0.0);
      ddq := new real[c.dof](_ => 0.0);
    }

    method Adopt(newest: Newest, age: int)
      requires Valid()
      modifies desired
      ensures desired[..] == Adopted(c, old(desired[..]), newest, age)
    {
      if |newest.values| > 0 {
        if age <= c.soft && |newest.values| >= c.dof {
          for i := 0 to c.dof
            invariant forall n :: 0 <= n < i ==> desired[n] == newest.values[n]
          {
            desired[i] := newest.values[i];
          }
        }
      }
    }

    /** One tick; a tick that does not stream ends the loop. */
    method Tick(x: Input, sqrt: real -> real) returns (streams: bool, out: Streamed)
      requires Valid() && |x.measured| >= c.dof
      modifies this, desired, q, dq, ddq
      ensures Valid()
      ensures var t := TickOf(c, sqrt, old(View()), x);
              streams == t.Streams? && (streams ==> out == t.out && View() == t.next)
    {
      streams, out := false, Streamed(0, [], []);
      if x.halt { return; }
      if x.newest.ok { lastTime := x.newest.time; }
      var age := x.now - lastTime;
      if age > c.hard { return; }
      Adopt(x.newest, age);
      ghost var js := Joints(q[..], dq[..], ddq[..]);
      AdvanceTrajectory(desired, q, dq, ddq, c.limits, sqrt);
      assert Joints(q[..], dq[..], ddq[..]) == AllMoved(c, sqrt, js, desired[..]);
      if c.safetyCheck {
        var worst := WorstError(q[..], x.measured);
        if worst > c.tolerance { return; }
      }
      out := Streamed(age, desired[..], Joints(q[..], dq[..], ddq[..]));
      streams := true;
    }
  }

  /** The streaming part of `Run`: refused for non-positive limits, otherwise tick until one halts. */
  method Run(c: Settings, sqrt: real -> real, initial: Entry, inputs: seq<Input>) returns (ok: bool, trace: seq<Streamed>)
    requires |initial.values| >= c.dof
    requires forall k :: 0 <= k < |inputs| ==> |inputs[k].measured| >= c.dof
    ensures ok <==> c.limits.vel > 0.0 && c.limits.acc > 0.0
    ensures ok ==> trace == TraceOf(c, sqrt, Initial(c, initial), inputs)
    ensures ok ==> RunFollows(c, (j, x) => Step(c.limits, sqrt, j, x), Initial(c, initial), inputs, trace)
  {
    if c.limits.vel <= 0.0 || c.limits.acc <= 0.0 {
      return false, [];
    }
    ok := true;
    trace := Stream(c, sqrt, initial, inputs);
    TraceFollows(c, sqrt, (j, x) => Step(c.limits, sqrt, j, x), Initial(c, initial), inputs);
  }

  /** The loop of `Run`. */
  method Stream(c: Settings, sqrt: real -> real, initial: Entry, inputs: seq<Input>) returns (trace: seq<Streamed>)
    requires |initial.values| >= c.dof && forall k :: 0 <= k < |inputs| ==> |inputs[k].measured| >= c.dof
    ensures trace == TraceOf(c, sqrt, Initial(c, initial), inputs)
  {
    trace := [];
    var loop := new Loop(c, initial);
    var k, streaming := 0, true;
    while k < |inputs| && streaming
      invariant loop.Valid() && loop.c == c && k <= |inputs|
      invariant fresh(loop) && fresh(loop.desired) && fresh(loop.q) && fresh(loop.dq) && fresh(loop.ddq)
      invariant streaming ==>
          trace + TraceOf(c, sqrt, loop.View(), inputs[k..]) == TraceOf(c, sqrt, Initial(c, initial), inputs)
      invariant !streaming ==> trace == TraceOf(c, sqrt, Initial(c, initial), inputs)
      decreases |inputs| - k
    {
      ghost var before := loop.View();
      var out;
      streaming, out := loop.Tick(inputs[k], sqrt);
      assert inputs[k..][0] == inputs[k] && inputs[k..][1..] == inputs[k + 1..];
      if streaming { trace := trace + [out]; }
      k := k + 1;
    }
  }

  /** `Run` on a running ring: what it streams is safe, command by command. */
  method RunOnRing(c: Settings, sqrt: real -> real, initial: Entry, inputs: seq<Input>, ghost moments: seq<System>,
                   ghost schedule: seq<seq<Action>>, ghost who: nat, ghost lo: seq<real>, ghost hi: seq<real>)
    returns (ok: bool, trace: seq<Streamed>)
    requires IsSqrt(sqrt) && RingRun(moments, schedule) && Fed(moments, who, initial, inputs)
    requires |initial.values| >= c.dof && forall k :: 0 <= k < |inputs| ==> |inputs[k].measured| >= c.dof
    requires forall j :: 0 <= j < |moments| ==> Boxed(c, moments[j].mem.log, lo, hi)
    ensures ok <==> Positive(c.limits)
    ensures ok ==> |trace| <= |inputs| && forall k :: 0 <= k < |trace| ==>
              && Fresh(c, moments[k + 2].mem.log, inputs[k], Held(initial.values[..c.dof], trace, k), trace[k])
              && Bounded(c, lo, hi, inputs[k], trace[k])
              && (moments[k + 2].readers[who].outcome.LatestDone? ==> FollowsRow(c, moments[k + 2], who, inputs[k], trace[k]))
  {
    ok, trace := Run(c, sqrt, initial, inputs);
    if ok {
      forall k | 0 <= k < |trace|
        ensures Fresh(c, moments[k + 2].mem.log, inputs[k], Held(initial.values[..c.dof], trace, k), trace[k])
        ensures Bounded(c, lo, hi, inputs[k], trace[k])
        ensures moments[k + 2].readers[who].outcome.LatestDone? ==> FollowsRow(c, moments[k + 2], who, inputs[k], trace[k])
      {
        RingRunIsSafe(c, sqrt, moments, schedule, who, initial, inputs, lo, hi, k);
        if moments[k + 2].readers[who].outcome.LatestDone? {
          RingRunFollows(c, sqrt, moments, schedule, who, initial, inputs, k);
        }
      }
    }
  }
}
