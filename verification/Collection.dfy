/** Teleoperation: leader samples become held targets and posted setpoints. */
module Collection {
  import opened Reals
  import opened Sides
  import opened Layout
  import opened Packing
  import opened Vectors
  import opened Deltas
  import opened Channel

  type Samples = map<string, seq<real>>

  function Dof(s: Slot): nat { if s.start <= s.stop then s.stop - s.start else 0 }

  /** Python's `raw[:n]`. */
  function Head(raw: seq<real>, n: nat): seq<real> { if |raw| <= n then raw else raw[..n] }

  function GripOf(raw: seq<real>): real { if raw == [] then 0.0 else raw[|raw| - 1] }

  datatype Held = Held(qd: map<string, seq<real>>, grip: map<string, real>)

  /** What is held for a side is its latest real sample, or nothing. */
  ghost predicate SlotHeld(held: Held, sample: Samples, s: Slot) {
    && (s.side in held.qd <==> s.side in sample)
    && (s.side in held.qd ==>
          held.qd[s.side] == Head(sample[s.side], Dof(s)) && s.side in held.grip && held.grip[s.side] == GripOf(sample[s.side]))
  }

  ghost predicate HeldOk(held: Held, sample: Samples, slots: seq<Slot>) {
    && (forall k :: 0 <= k < |slots| ==> SlotHeld(held, sample, slots[k]))
    && KeysKnown(held, slots)
  }

  /** The target of a side this tick: its latest sample, or zeros before the first. */
  function TargetOf(sample: Samples, s: Slot): seq<real> {
    if s.side in sample then Head(sample[s.side], Dof(s)) else Zeros(Dof(s))
  }

  function GripTarget(sample: Samples, s: Slot): real {
    if s.side in sample then GripOf(sample[s.side]) else 0.0
  }

  ghost predicate Targets(qd: map<string, seq<real>>, grip: map<string, real>, sample: Samples, s: Slot) {
    s.side in qd && qd[s.side] == TargetOf(sample, s) && s.side in grip && grip[s.side] == GripTarget(sample, s)
  }

  ghost predicate DistinctSlots(slots: seq<Slot>) {
    forall i, j :: 0 <= i < j < |slots| ==> slots[i].side != slots[j].side
  }

  /** Every layout the constructor builds is one the loop can use. */
  lemma BuiltLayoutFits(l: Layout, arms: map<string, Arm>, signals: seq<string>, actionSides: seq<string>)
    requires IsLayout(l, arms, signals, actionSides)
    ensures LayoutOk(l) && DistinctSlots(l.slots)
  {
    DictEntriesOk(l.blocks, l.stateDim);
    SlotsTileThem(arms, l.sides);
    forall i, j | 0 <= i < j < |l.slots| ensures l.slots[i].side != l.slots[j].side {
      Compare(l.sides[i], l.sides[j]);
    }
  }

  /** One side of the fill loop. */
  method FillSide(s: Slot, leaders: Samples, held: Held, ghost sample: Samples) returns (held': Held, q: seq<real>, g: real)
    requires SlotHeld(held, sample, s)
    ensures SlotHeld(held', sample + leaders, s)
    ensures q == TargetOf(sample + leaders, s) && g == GripTarget(sample + leaders, s)
    ensures held' == held || held' == Updated(held, s.side, q, g)
  {
    if s.side in leaders {
      var raw := leaders[s.side];
      q, g := Head(raw, Dof(s)), GripOf(raw);
      held' := Held(held.qd[s.side := q], held.grip[s.side := g]);
    } else {
      held' := held;
      q := if s.side in held.qd then held.qd[s.side] else Zeros(Dof(s));
      g := if s.side in held.qd then held.grip[s.side] else 0.0;
    }
  }

  /** `actions_from_leaders` and the hold: a target for every recorded side. */
  method Fill(slots: seq<Slot>, leaders: Samples, held: Held, ghost sample: Samples)
    returns (held': Held, qd: map<string, seq<real>>, grip: map<string, real>)
    requires DistinctSlots(slots) && HeldOk(held, sample, slots)
    ensures HeldOk(held', sample + leaders, slots)
    ensures forall k :: 0 <= k < |slots| ==> Targets(qd, grip, sample + leaders, slots[k])
  {
    held', qd, grip := held, map[], map[];
    ghost var merged := sample + leaders;
    for i := 0 to |slots|
      invariant Filled(held', qd, grip, sample, merged, slots, i)
    {
      ghost var before, qd0, grip0 := held', qd, grip;
      var q, g;
      held', q, g := FillSide(slots[i], leaders, held', sample);
      qd := qd[slots[i].side := q];
      grip := grip[slots[i].side := g];
      FilledOneMore(before, held', qd0, grip0, sample, merged, slots, i, q, g);
    }
  }

  /** The first `i` sides have their targets for this tick; the others still hold what they held. */
  ghost predicate Filled(held: Held, qd: map<string, seq<real>>, grip: map<string, real>, sample: Samples, merged: Samples, slots: seq<Slot>, i: nat) {
    && i <= |slots|
    && (forall k :: 0 <= k < i ==> SlotHeld(held, merged, slots[k]))
    && (forall k :: i <= k < |slots| ==> SlotHeld(held, sample, slots[k]))
    && (forall k :: 0 <= k < i ==> Targets(qd, grip, merged, slots[k]))
    && KeysKnown(held, slots)
  }

  ghost predicate KeysKnown(held: Held, slots: seq<Slot>) {
    forall s :: s in held.qd ==> exists k :: 0 <= k < |slots| && slots[k].side == s
  }

  function Updated(held: Held, side: string, q: seq<real>, g: real): Held { Held(held.qd[side := q], held.grip[side := g]) }

  lemma KeptElsewhere(held: Held, side: string, q: seq<real>, g: real, sample: Samples, s: Slot)
    requires s.side != side && SlotHeld(held, sample, s)
    ensures SlotHeld(Updated(held, side, q, g), sample, s)
  {
  }

  lemma TargetsElsewhere(qd: map<string, seq<real>>, grip: map<string, real>, side: string, q: seq<real>, g: real, sample: Samples, s: Slot)
    requires s.side != side && Targets(qd, grip, sample, s)
    ensures Targets(qd[side := q], grip[side := g], sample, s)
  {
  }

  lemma KeysGrow(held: Held, slots: seq<Slot>, i: nat, q: seq<real>, g: real)
    requires i < |slots| && KeysKnown(held, slots)
    ensures KeysKnown(Updated(held, slots[i].side, q, g), slots)
  {
  }

  lemma FilledOneMore(held: Held, held': Held, qd: map<string, seq<real>>, grip: map<string, real>, sample: Samples, merged: Samples,
                      slots: seq<Slot>, i: nat, q: seq<real>, g: real)
    requires i < |slots| && DistinctSlots(slots) && Filled(held, qd, grip, sample, merged, slots, i)
    requires SlotHeld(held', merged, slots[i]) && q == TargetOf(merged, slots[i]) && g == GripTarget(merged, slots[i])
    requires held' == held || held' == Updated(held, slots[i].side, q, g)
    ensures Filled(held', qd[slots[i].side := q], grip[slots[i].side := g], sample, merged, slots, i + 1)
  {
    var side := slots[i].side;
    forall k | 0 <= k < i
      ensures SlotHeld(held', merged, slots[k]) && Targets(qd[side := q], grip[side := g], merged, slots[k])
    {
      KeptElsewhere(held, side, q, g, merged, slots[k]);
      TargetsElsewhere(qd, grip, side, q, g, merged, slots[k]);
    }
    forall k | i < k < |slots| ensures SlotHeld(held', sample, slots[k]) {
      KeptElsewhere(held, side, q, g, sample, slots[k]);
    }
    assert Targets(qd[side := q], grip[side := g], merged, slots[i]);
    KeysGrow(held, slots, i, q, g);
  }

  // ---- Commands -------------------------------------------------------------------------------------------------

  datatype CommandArm = CommandArm(side: string, control: Control)
  datatype Post = Post(side: string, control: Control, setpoint: seq<real>)

  /** A setpoint made of the latest real sample of its side. */
  ghost predicate PostFrom(p: Post, sample: Samples, slots: seq<Slot>) {
    exists k :: 0 <= k < |slots| && slots[k].side == p.side && PostOn(p, sample, slots[k])
  }

  ghost predicate PostOn(p: Post, sample: Samples, s: Slot) {
    && s.side in sample && p.control.kind == Qpos
    && Accepts(p.control, JointFields(Head(sample[s.side], Dof(s))))
    && p.setpoint == Streamed(p.control.streamed, JointFields(Head(sample[s.side], Dof(s))))
  }

  datatype GripPost = GripPost(side: string, value: real)

  /** The recorded sides that have produced a sample. */
  function Known(sample: Samples, slots: seq<Slot>): set<string> {
    set k | 0 <= k < |slots| && slots[k].side in sample :: slots[k].side
  }

  lemma KnownIsHeld(held: Held, sample: Samples, slots: seq<Slot>)
    requires HeldOk(held, sample, slots)
    ensures held.qd.Keys == Known(sample, slots)
  {
    forall s ensures s in held.qd <==> s in Known(sample, slots) {
      if s in held.qd {
        var k :| 0 <= k < |slots| && slots[k].side == s;
        assert SlotHeld(held, sample, slots[k]);
      }
      if s in Known(sample, slots) {
        var k :| 0 <= k < |slots| && slots[k].side in sample && slots[k].side == s;
        assert SlotHeld(held, sample, slots[k]);
      }
    }
  }

  /** The arms that get a joint setpoint: sampled ones under joint position control. */
  function Wanted(arms: seq<CommandArm>, n: nat, known: set<string>): (w: seq<CommandArm>)
    requires n <= |arms|
  {
    if n == 0 then [] else
      Wanted(arms, n - 1, known) + (if arms[n - 1].side in known && arms[n - 1].control.kind == Qpos then [arms[n - 1]] else [])
  }

  /** The sampled arms, which all get a gripper target. */
  function Sampled(arms: seq<CommandArm>, n: nat, known: set<string>): (w: seq<CommandArm>)
    requires n <= |arms|
  {
    if n == 0 then [] else Sampled(arms, n - 1, known) + (if arms[n - 1].side in known then [arms[n - 1]] else [])
  }

  ghost predicate PostsFor(posts: seq<Post>, wanted: seq<CommandArm>, sample: Samples, slots: seq<Slot>) {
    |posts| == |wanted| && forall p :: 0 <= p < |posts| ==>
      posts[p].side == wanted[p].side && posts[p].control == wanted[p].control && PostFrom(posts[p], sample, slots)
  }

  ghost predicate GripsFor(grips: seq<GripPost>, sampled: seq<CommandArm>, sample: Samples) {
    |grips| == |sampled| && forall p :: 0 <= p < |grips| ==>
      grips[p].side == sampled[p].side && grips[p].side in sample && grips[p].value == GripOf(sample[grips[p].side])
  }

  /** The loop can fill every field the arm streams, and the setpoint has the width of the arm's ring. */
  ghost predicate Postable(arm: CommandArm, sample: Samples, slots: seq<Slot>) {
    exists k :: 0 <= k < |slots| && slots[k].side == arm.side && Accepts(arm.control, JointFields(TargetOf(sample, slots[k])))
  }

  ghost predicate AllPostable(arms: seq<CommandArm>, sample: Samples, slots: seq<Slot>) {
    forall i :: 0 <= i < |arms| ==> Postable(arms[i], sample, slots)
  }

  /** The command loop of `tick`: exactly the sampled arms are commanded, in order. A streamed field other than
      `q_d` and `dq_d`, or a setpoint that is not as wide as the arm's ring, is an error that ends the loop. */
  method CommandAll(arms: seq<CommandArm>, slots: seq<Slot>, held: Held, qd: map<string, seq<real>>, grip: map<string, real>, ghost sample: Samples)
    returns (ok: bool, posts: seq<Post>, grips: seq<GripPost>)
    requires HeldOk(held, sample, slots)
    requires forall k :: 0 <= k < |slots| ==> Targets(qd, grip, sample, slots[k])
    ensures ok <==> AllPostable(Wanted(arms, |arms|, held.qd.Keys), sample, slots)
    ensures forall p :: 0 <= p < |posts| ==> PostFrom(posts[p], sample, slots)
    ensures ok ==> Commanded(posts, grips, arms, |arms|, held.qd.Keys, sample, slots)
  {
    posts, grips, ok := [], [], true;
    ghost var known := held.qd.Keys;
    for i := 0 to |arms|
      invariant Commanded(posts, grips, arms, i, known, sample, slots)
    {
      if arms[i].side in held.qd {
        var post;
        ok, post := CommandOne(arms[i], slots, held, qd, grip, sample);
        if !ok {
          WantedLater(arms, i, known);
          return;
        }
        CommandedOne(posts, grips, arms, i, known, sample, slots, post, grip[arms[i].side]);
        if arms[i].control.kind == Qpos {
          posts := posts + [post];
        }
        grips := grips + [GripPost(arms[i].side, grip[arms[i].side])];
      }
    }
  }

  /** The first `n` arms have been commanded. */
  ghost predicate Commanded(posts: seq<Post>, grips: seq<GripPost>, arms: seq<CommandArm>, n: nat, known: set<string>, sample: Samples, slots: seq<Slot>)
    requires n <= |arms|
  {
    && PostsFor(posts, Wanted(arms, n, known), sample, slots) && GripsFor(grips, Sampled(arms, n, known), sample)
    && AllPostable(Wanted(arms, n, known), sample, slots)
  }

  lemma CommandedOne(posts: seq<Post>, grips: seq<GripPost>, arms: seq<CommandArm>, n: nat, known: set<string>, sample: Samples, slots: seq<Slot>,
                     post: Post, value: real)
    requires n < |arms| && Commanded(posts, grips, arms, n, known, sample, slots) && arms[n].side in known
    requires arms[n].control.kind == Qpos ==>
               Postable(arms[n], sample, slots) && post.side == arms[n].side && post.control == arms[n].control && PostFrom(post, sample, slots)
    requires arms[n].side in sample && value == GripOf(sample[arms[n].side])
    ensures Commanded(if arms[n].control.kind == Qpos then posts + [post] else posts, grips + [GripPost(arms[n].side, value)],
                      arms, n + 1, known, sample, slots)
  {
    if arms[n].control.kind == Qpos { OneMorePost(posts, Wanted(arms, n, known), post, arms[n], sample, slots); }
    OneMoreGrip(grips, Sampled(arms, n, known), arms[n], sample);
  }

  lemma OneMorePost(posts: seq<Post>, wanted: seq<CommandArm>, post: Post, arm: CommandArm, sample: Samples, slots: seq<Slot>)
    requires PostsFor(posts, wanted, sample, slots) && AllPostable(wanted, sample, slots) && Postable(arm, sample, slots)
    requires post.side == arm.side && post.control == arm.control && PostFrom(post, sample, slots)
    ensures PostsFor(posts + [post], wanted + [arm], sample, slots) && AllPostable(wanted + [arm], sample, slots)
  {
  }

  lemma OneMoreGrip(grips: seq<GripPost>, sampled: seq<CommandArm>, arm: CommandArm, sample: Samples)
    requires GripsFor(grips, sampled, sample) && arm.side in sample
    ensures GripsFor(grips + [GripPost(arm.side, GripOf(sample[arm.side]))], sampled + [arm], sample)
  {
  }

  /** One sampled arm: its setpoint, if it is under joint position control. */
  method CommandOne(arm: CommandArm, slots: seq<Slot>, held: Held, qd: map<string, seq<real>>, grip: map<string, real>, ghost sample: Samples)
    returns (ok: bool, post: Post)
    requires HeldOk(held, sample, slots) && arm.side in held.qd
    requires forall k :: 0 <= k < |slots| ==> Targets(qd, grip, sample, slots[k])
    ensures ok <==> (arm.control.kind == Qpos ==> Postable(arm, sample, slots))
    ensures post.side == arm.side && post.control == arm.control
    ensures ok && arm.control.kind == Qpos ==> PostFrom(post, sample, slots)
    ensures arm.side in grip && arm.side in sample && grip[arm.side] == GripOf(sample[arm.side])
  {
    ok, post := true, Post(arm.side, arm.control, []);
    ghost var k :| 0 <= k < |slots| && slots[k].side == arm.side;
    assert SlotHeld(held, sample, slots[k]) && Targets(qd, grip, sample, slots[k]);
    if arm.control.kind == Qpos {
      if !Accepts(arm.control, JointFields(qd[arm.side])) {
        RefusedIsNotPostable(arm, slots, qd, grip, sample);
        ok := false;
        return;
      }
      post := Post(arm.side, arm.control, Streamed(arm.control.streamed, JointFields(qd[arm.side])));
      assert PostOn(post, sample, slots[k]);
    }
  }

  lemma RefusedIsNotPostable(arm: CommandArm, slots: seq<Slot>, qd: map<string, seq<real>>, grip: map<string, real>, sample: Samples)
    requires (forall k :: 0 <= k < |slots| ==> Targets(qd, grip, sample, slots[k])) && arm.side in qd
    requires !Accepts(arm.control, JointFields(qd[arm.side]))
    ensures !Postable(arm, sample, slots)
  {
    forall k | 0 <= k < |slots| && slots[k].side == arm.side ensures !Accepts(arm.control, JointFields(TargetOf(sample, slots[k]))) {
      assert Targets(qd, grip, sample, slots[k]);
    }
  }

  /** A wanted arm stays in the list. */
  lemma {:induction false} WantedGrows(arms: seq<CommandArm>, m: nat, n: nat, known: set<string>)
    requires m <= n <= |arms|
    ensures Wanted(arms, m, known) <= Wanted(arms, n, known)
    decreases n
  {
    if m < n { WantedGrows(arms, m, n - 1, known); }
  }

  lemma WantedLater(arms: seq<CommandArm>, i: nat, known: set<string>)
    requires i < |arms| && arms[i].side in known && arms[i].control.kind == Qpos
    ensures exists k :: 0 <= k < |Wanted(arms, |arms|, known)| && Wanted(arms, |arms|, known)[k] == arms[i]
  {
    WantedGrows(arms, i + 1, |arms|, known);
    var here, all := Wanted(arms, i + 1, known), Wanted(arms, |arms|, known);
    assert here[|here| - 1] == arms[i] && all[|here| - 1] == arms[i];
  }

  // ---- What a sample and a list of arms mean ------------------------------------------------------------------

  /** A leader sample is the joints followed by the gripper; before the first one the target is zero. */
  lemma JointsThenGripper(sample: Samples, s: Slot, joints: seq<real>, gripper: real)
    requires |joints| == Dof(s)
    ensures s.side in sample && sample[s.side] == joints + [gripper] ==> TargetOf(sample, s) == joints && GripTarget(sample, s) == gripper
    ensures s.side !in sample && (forall i :: 0 <= i < |joints| ==> joints[i] == 0.0) ==> TargetOf(sample, s) == joints && GripTarget(sample, s) == 0.0
    ensures s.side in sample && sample[s.side] == joints ==> TargetOf(sample, s) == joints
    ensures s.side in sample && sample[s.side] == [] ==> GripTarget(sample, s) == 0.0
  {
  }

  /** The arms that are posted to are the sampled ones under joint position control, the others with a sample get
      their gripper target only. */
  lemma {:induction false} CommandedArms(arms: seq<CommandArm>, n: nat, known: set<string>, arm: CommandArm)
    requires n <= |arms|
    ensures arm in Wanted(arms, n, known) <==> arm in arms[..n] && arm.side in known && arm.control.kind == Qpos
    ensures arm in Sampled(arms, n, known) <==> arm in arms[..n] && arm.side in known
    decreases n
  {
    if n > 0 {
      CommandedArms(arms, n - 1, known, arm);
      assert arms[..n] == arms[..n - 1] + [arms[n - 1]];
    }
  }

  /** With one streamed joint field the ring takes exactly the targets of its width. */
  lemma JointChannelAccepts(c: Control, q: seq<real>)
    requires c.streamed == [Qd]
    ensures Accepts(c, JointFields(q)) <==> Qd in c.command && |q| == c.command[Qd]
    ensures Accepts(c, JointFields(q)) ==> Streamed(c.streamed, JointFields(q)) == q
  {
    var fields := JointFields(q);
    assert c.streamed[..0] == [] && Streamed([], fields) == [] && fields[Qd] == q;
    if Accepts(c, fields) {
      assert Offset(c.streamed, c.command, 0) == 0 && Offset(c.streamed, c.command, 1) == c.command[Qd];
    }
    if Qd in c.command && |q| == c.command[Qd] {
      SizedIsAccepted(c, fields);
    }
  }
}
