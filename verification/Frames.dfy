/** Frames: what one tick posts and records of the latest samples and streams. */
module Frames {
  import opened Wrappers
  import opened Layout
  import opened Vectors
  import opened Deltas
  import opened Channel
  import opened Collection

  datatype ImageSpec = ImageSpec(stream: string, shape: seq<nat>)

  /** What every frame carries besides state and action: the cameras and the instruction. */
  datatype FrameSpec = FrameSpec(images: seq<ImageSpec>, task: string)

  datatype Image = Image(shape: seq<nat>, pixels: seq<int>)

  function Product(shape: seq<nat>): nat {
    if shape == [] then 1 else shape[0] * Product(shape[1..])
  }

  /** The number of pixels of a shape is the product over its axes, however they are grouped. */
  lemma {:induction false} ProductOfAxes(shape: seq<nat>, more: seq<nat>)
    ensures Product(shape + more) == Product(shape) * Product(more)
    ensures |shape| == 1 ==> Product(shape) == shape[0]
    decreases |shape|
  {
    if shape == [] {
      assert shape + more == more;
    } else {
      ProductOfAxes(shape[1..], more);
      assert (shape + more)[1..] == shape[1..] + more;
    }
  }

  /** The newest sample of every stream that has one. */
  datatype Observation = Observation(
    state: map<Key, seq<real>>,
    factr: map<string, seq<real>>,     // leader of a side, converted
    raw: map<string, seq<real>>,       // leader of a side, as read
    images: map<string, seq<int>>)

  /** One recorded frame; leaders in side order, images in camera order. */
  datatype Frame = Frame(state: seq<real>, action: seq<real>, factr: seq<seq<real>>, raw: seq<seq<real>>, images: seq<Image>, task: string)

  datatype Built = Built(frame: Frame) | Incomplete | Raised

  ghost predicate SlotShows(action: seq<real>, sample: Samples, s: Slot) {
    s.start <= s.stop < |action| && action[s.start..s.stop] == TargetOf(sample, s) && action[s.stop] == GripTarget(sample, s)
  }

  /** An action vector that holds every side's target. */
  ghost predicate Shows(action: seq<real>, sample: Samples, l: Layout) {
    |action| == l.actionDim && forall k :: 0 <= k < |l.slots| ==> SlotShows(action, sample, l.slots[k])
  }

  ghost predicate StateThere(l: Layout, o: Observation) {
    forall e :: 0 <= e < |l.state| ==> l.state[e].key in o.state
  }

  ghost predicate StateComplete(l: Layout, o: Observation) {
    forall e :: 0 <= e < |l.state| ==> SuppliesBlock(o.state, l.state[e])
  }

  ghost predicate StateHolds(state: seq<real>, l: Layout, o: Observation) {
    |state| == l.stateDim && forall e :: 0 <= e < |l.state| ==> BlockHolds(state, o.state, l.state[e])
  }

  /** The latest sample of a side has at least its joints. */
  predicate WideEnough(sample: Samples, s: Slot) { s.side in sample ==> |sample[s.side]| >= Dof(s) }

  ghost predicate AllWide(sample: Samples, slots: seq<Slot>) {
    forall k :: 0 <= k < |slots| ==> WideEnough(sample, slots[k])
  }

  predicate LeadersThere(slots: seq<Slot>, o: Observation) {
    forall k :: 0 <= k < |slots| ==> slots[k].side in o.factr && slots[k].side in o.raw
  }

  /** The newest image can be given its shape. */
  predicate ImageOk(i: ImageSpec, o: Observation) { i.stream in o.images && |o.images[i.stream]| == Product(i.shape) }

  function ImageOf(i: ImageSpec, o: Observation): Image
    requires i.stream in o.images
  {
    Image(i.shape, o.images[i.stream])
  }

  ghost predicate ImagesOk(images: seq<ImageSpec>, o: Observation) {
    forall i :: 0 <= i < |images| ==> ImageOk(images[i], o)
  }

  /** The first image that does not fit is there, but of the wrong size. */
  ghost predicate ImageFault(images: seq<ImageSpec>, o: Observation) {
    exists i :: 0 <= i < |images| && images[i].stream in o.images && !ImageOk(images[i], o) && ImagesOk(images[..i], o)
  }

  ghost predicate Recordable(l: Layout, spec: FrameSpec, o: Observation, sample: Samples) {
    StateComplete(l, o) && AllWide(sample, l.slots) && LeadersThere(l.slots, o) && ImagesOk(spec.images, o)
  }

  /** A stream of the wrong width, met before any missing stream. */
  ghost predicate Faulty(l: Layout, spec: FrameSpec, o: Observation, sample: Samples) {
    StateThere(l, o) && (!StateComplete(l, o) || !AllWide(sample, l.slots) || (LeadersThere(l.slots, o) && ImageFault(spec.images, o)))
  }

  /** What a recorded frame holds. */
  ghost predicate FrameOf(f: Frame, l: Layout, spec: FrameSpec, o: Observation, sample: Samples) {
    && Shows(f.action, sample, l) && StateHolds(f.state, l, o)
    && |f.factr| == |f.raw| == |l.slots| && |f.images| == |spec.images| && f.task == spec.task
    && (forall k :: 0 <= k < |l.slots| ==>
          l.slots[k].side in o.factr && f.factr[k] == o.factr[l.slots[k].side] && l.slots[k].side in o.raw && f.raw[k] == o.raw[l.slots[k].side])
    && (forall i :: 0 <= i < |spec.images| ==> spec.images[i].stream in o.images && f.images[i] == ImageOf(spec.images[i], o))
  }

  lemma WideIffSupplied(l: Layout, qd: map<string, seq<real>>, grip: map<string, real>, sample: Samples)
    requires SlotsTile(l.slots, l.actionDim) && forall k :: 0 <= k < |l.slots| ==> Targets(qd, grip, sample, l.slots[k])
    ensures Supplies(qd, l.slots) <==> AllWide(sample, l.slots)
  {
    forall k | 0 <= k < |l.slots| ensures SuppliesSlot(qd, l.slots[k]) <==> WideEnough(sample, l.slots[k]) {
      assert Targets(qd, grip, sample, l.slots[k]) && SlotFits(l.slots, k);
    }
  }

  lemma JoinedShowsSlot(l: Layout, qd: map<string, seq<real>>, grip: map<string, real>, sample: Samples, k: nat)
    requires SlotsTile(l.slots, l.actionDim) && Supplies(qd, l.slots) && k < |l.slots| && Targets(qd, grip, sample, l.slots[k])
    ensures SlotShows(Joined(l.slots, |l.slots|, qd, grip), sample, l.slots[k])
  {
    SlotOfJoined(l.slots, l.actionDim, k, qd, grip);
  }

  lemma JoinedShows(l: Layout, qd: map<string, seq<real>>, grip: map<string, real>, sample: Samples)
    requires SlotsTile(l.slots, l.actionDim) && Supplies(qd, l.slots) && forall k :: 0 <= k < |l.slots| ==> Targets(qd, grip, sample, l.slots[k])
    ensures Shows(Joined(l.slots, |l.slots|, qd, grip), sample, l)
  {
    JoinedLength(l.slots, l.actionDim, |l.slots|, qd, grip);
    forall k | 0 <= k < |l.slots| ensures SlotShows(Joined(l.slots, |l.slots|, qd, grip), sample, l.slots[k]) {
      JoinedShowsSlot(l, qd, grip, sample, k);
    }
  }

  method CollectImages(images: seq<ImageSpec>, o: Observation) returns (r: Option<seq<Image>>, raised: bool)
    ensures r.Some? <==> ImagesOk(images, o)
    ensures raised <==> ImageFault(images, o)
    ensures r.Some? ==> |r.value| == |images| && forall i :: 0 <= i < |images| ==> images[i].stream in o.images && r.value[i] == ImageOf(images[i], o)
  {
    var found := [];
    for i := 0 to |images|
      invariant |found| == i && forall k :: 0 <= k < i ==> ImageOk(images[k], o) && found[k] == ImageOf(images[k], o)
    {
      if !ImageOk(images[i], o) {
        raised := images[i].stream in o.images;
        return None, raised;
      }
      found := found + [Image(images[i].shape, o.images[images[i].stream])];
    }
    return Some(found), false;
  }

  /** The state and action vectors of a frame, or why there are none. */
  method BuildVectors(l: Layout, o: Observation, qd: map<string, seq<real>>, grip: map<string, real>, ghost sample: Samples)
    returns (r: Option<(seq<real>, seq<real>)>, raised: bool)
    requires LayoutOk(l) && forall k :: 0 <= k < |l.slots| ==> Targets(qd, grip, sample, l.slots[k])
    ensures r.Some? <==> StateComplete(l, o) && AllWide(sample, l.slots)
    ensures raised <==> StateThere(l, o) && r.None?
    ensures r.Some? ==> StateHolds(r.value.0, l, o) && Shows(r.value.1, sample, l)
  {
    WideIffSupplied(l, qd, grip, sample);
    if !(forall e :: 0 <= e < |l.state| ==> l.state[e].key in o.state) {
      return None, false;
    }
    var state := PackState(l, o.state);
    if state.None? {
      return None, true;
    }
    var action := PackAction(l, qd, grip);
    if action.None? {
      return None, true;
    }
    JoinedShows(l, qd, grip, sample);
    return Some((state.value, action.value)), false;
  }

  /** `FrameBuilder.build`: a frame exactly when every stream is there and fits. */
  method BuildFrame(l: Layout, spec: FrameSpec, o: Observation, qd: map<string, seq<real>>, grip: map<string, real>, ghost sample: Samples)
    returns (b: Built)
    requires LayoutOk(l) && forall k :: 0 <= k < |l.slots| ==> Targets(qd, grip, sample, l.slots[k])
    ensures b.Built? <==> Recordable(l, spec, o, sample)
    ensures b.Raised? <==> Faulty(l, spec, o, sample)
    ensures b.Built? ==> FrameOf(b.frame, l, spec, o, sample)
  {
    var vectors, raised := BuildVectors(l, o, qd, grip, sample);
    if vectors.None? {
      return if raised then Raised else Incomplete;
    }
    if !LeadersThere(l.slots, o) {
      return Incomplete;
    }
    var pictures, badImage := CollectImages(spec.images, o);
    if pictures.None? {
      return if badImage then Raised else Incomplete;
    }
    b := Built(Frame(vectors.value.0, vectors.value.1,
                     seq(|l.slots|, k requires 0 <= k < |l.slots| => o.factr[l.slots[k].side]),
                     seq(|l.slots|, k requires 0 <= k < |l.slots| => o.raw[l.slots[k].side]), pictures.value, spec.task));
  }

  // ---- Ticks ------------------------------------------------------------------------------------------------------

  /** What one tick did. */
  datatype Record = Record(sample: Samples, posts: seq<Post>, grips: seq<GripPost>, frame: Option<Frame>, failed: bool)

  /** The record is what the tick had to do: with `sample` the latest samples, exactly the sampled arms were
      commanded, and a frame was recorded exactly when every stream fitted. */
  ghost predicate Exact(r: Record, o: Observation, arms: seq<CommandArm>, l: Layout, spec: FrameSpec) {
    var wanted := Wanted(arms, |arms|, Known(r.sample, l.slots));
    && (forall p :: 0 <= p < |r.posts| ==> PostFrom(r.posts[p], r.sample, l.slots))
    && (AllPostable(wanted, r.sample, l.slots) ==> Commanded(r.posts, r.grips, arms, |arms|, Known(r.sample, l.slots), r.sample, l.slots))
    && (r.frame.Some? <==> AllPostable(wanted, r.sample, l.slots) && Recordable(l, spec, o, r.sample))
    && (r.failed <==> !AllPostable(wanted, r.sample, l.slots) || Faulty(l, spec, o, r.sample))
    && (r.frame.Some? ==> FrameOf(r.frame.value, l, spec, o, r.sample))
  }

  /** On a recording tick the action block of a commanded side is the `q_d` its setpoint carried. */
  lemma RecordedIsPosted(r: Record, o: Observation, arms: seq<CommandArm>, l: Layout, spec: FrameSpec, p: nat, k: nat, i: nat)
    requires DistinctSlots(l.slots) && Exact(r, o, arms, l, spec) && r.frame.Some? && p < |r.posts|
    requires k < |l.slots| && l.slots[k].side == r.posts[p].side
    requires var c := r.posts[p].control;
             i < |c.streamed| && c.streamed[i] == Qd && Sized(c, JointFields(TargetOf(r.sample, l.slots[k])))
    ensures var c, s := r.posts[p].control, l.slots[k];
            Sliced(r.posts[p].setpoint, Offset(c.streamed, c.command, i), Offset(c.streamed, c.command, i + 1)) == r.frame.value.action[s.start..s.stop]
  {
    var post := r.posts[p];
    assert PostFrom(post, r.sample, l.slots);
    var j :| 0 <= j < |l.slots| && l.slots[j].side == post.side && PostOn(post, r.sample, l.slots[j]);
    assert j == k;
    SliceUndoesPack(post.control, JointFields(TargetOf(r.sample, l.slots[k])), i);
    assert SlotShows(r.frame.value.action, r.sample, l.slots[k]);
  }

  /** The `dq_d` a setpoint carries is zero on every joint. */
  lemma PostedVelocityIsZero(r: Record, o: Observation, arms: seq<CommandArm>, l: Layout, spec: FrameSpec, p: nat, k: nat, i: nat, j: nat)
    requires DistinctSlots(l.slots) && Exact(r, o, arms, l, spec) && p < |r.posts|
    requires k < |l.slots| && l.slots[k].side == r.posts[p].side
    requires var c := r.posts[p].control;
             i < |c.streamed| && c.streamed[i] == DqD && Sized(c, JointFields(TargetOf(r.sample, l.slots[k])))
    ensures var c := r.posts[p].control;
            var sent := Sliced(r.posts[p].setpoint, Offset(c.streamed, c.command, i), Offset(c.streamed, c.command, i + 1));
            |sent| == |TargetOf(r.sample, l.slots[k])| && (j < |sent| ==> sent[j] == 0.0)
  {
    var post := r.posts[p];
    assert PostFrom(post, r.sample, l.slots);
    var m :| 0 <= m < |l.slots| && l.slots[m].side == post.side && PostOn(post, r.sample, l.slots[m]);
    assert m == k;
    SliceUndoesPack(post.control, JointFields(TargetOf(r.sample, l.slots[k])), i);
  }

  function FramesOf(r: Record): seq<Frame> { if r.frame.Some? then [r.frame.value] else [] }

  function AllFrames(rs: seq<Record>): seq<Frame> {
    if rs == [] then [] else AllFrames(rs[..|rs| - 1]) + FramesOf(rs[|rs| - 1])
  }

  function AllPosts(rs: seq<Record>): seq<Post> {
    if rs == [] then [] else AllPosts(rs[..|rs| - 1]) + rs[|rs| - 1].posts
  }

  function AllGrips(rs: seq<Record>): seq<GripPost> {
    if rs == [] then [] else AllGrips(rs[..|rs| - 1]) + rs[|rs| - 1].grips
  }

  lemma OneMoreRecord(rs: seq<Record>, r: Record)
    ensures AllFrames(rs + [r]) == AllFrames(rs) + FramesOf(r)
    ensures AllPosts(rs + [r]) == AllPosts(rs) + r.posts && AllGrips(rs + [r]) == AllGrips(rs) + r.grips
  {
    assert (rs + [r])[..|rs|] == rs;
  }
}
