/** Building a layout, and moving values in and out of its vectors. */
module Packing {
  import opened Wrappers
  import opened Sequences
  import opened Sides
  import opened Layout

  /** What the constructor promises for an arm map. */
  ghost predicate IsLayout(l: Layout, arms: map<string, Arm>, signals: seq<string>, actionSides: seq<string>) {
    && Ordered(l.stateSides) && (forall s :: s in l.stateSides <==> s in arms)
    && Ordered(l.sides) && (forall s :: s in l.sides <==> s in arms && s in actionSides)
    && HasSignals(arms, l.stateSides, signals) && HasActions(arms, l.sides)
    && l.blocks == BlocksOf(arms, l.stateSides, signals) && l.state == DictOf(l.blocks) && l.slots == SlotsOf(arms, l.sides)
    && Tiles(l.blocks, l.stateDim) && SlotsTile(l.slots, l.actionDim)
  }

  ghost predicate SignalsOk(arms: map<string, Arm>, signals: seq<string>) {
    forall s, j :: s in arms && 0 <= j < |signals| ==> signals[j] in arms[s].streams
  }

  ghost predicate ControlsOk(arms: map<string, Arm>, actionSides: seq<string>) {
    forall s :: s in actionSides ==> s in arms && HasAction(arms[s].control)
  }

  lemma DictStep(blocks: seq<Block>, b: Block)
    ensures DictOf(blocks + [b]) == Put(DictOf(blocks), b)
  {
    assert (blocks + [b])[..|blocks|] == blocks;
  }

  lemma WithSideStep(blocks: seq<Block>, side: string, arm: Arm, signals: seq<string>, j: nat)
    requires j < |signals| && forall k :: 0 <= k <= j ==> signals[k] in arm.streams
    ensures var before := WithSide(blocks, side, arm, signals[..j]);
            WithSide(blocks, side, arm, signals[..j + 1])
            == before + [Block(Key(side, signals[j]), End(before), End(before) + arm.streams[signals[j]])]
  {
    assert signals[..j + 1][..j] == signals[..j];
  }

  /** The inner loop of the constructor: one side's signals. */
  method AddSide(prior: seq<Block>, dict: seq<Block>, side: string, arm: Arm, signals: seq<string>) returns (r: Option<(seq<Block>, seq<Block>)>)
    requires dict == DictOf(prior)
    ensures r.Some? <==> forall j :: 0 <= j < |signals| ==> signals[j] in arm.streams
    ensures r.Some? ==> r.value.0 == WithSide(prior, side, arm, signals) && r.value.1 == DictOf(r.value.0)
  {
    var blocks, state, offset := prior, dict, End(prior);
    for j := 0 to |signals|
      invariant forall k :: 0 <= k < j ==> signals[k] in arm.streams
      invariant blocks == WithSide(prior, side, arm, signals[..j]) && offset == End(blocks)
      invariant state == DictOf(blocks)
    {
      if signals[j] !in arm.streams {
        return None;
      }
      var dim := arm.streams[signals[j]];
      var block := Block(Key(side, signals[j]), offset, offset + dim);
      WithSideStep(prior, side, arm, signals, j);
      DictStep(blocks, block);
      state := Put(state, block);
      blocks := blocks + [block];
      offset := offset + dim;
    }
    assert signals[..|signals|] == signals;
    r := Some((blocks, state));
  }

  method AddSides(arms: map<string, Arm>, sides: seq<string>, signals: seq<string>) returns (r: Option<(seq<Block>, seq<Block>)>)
    requires forall i :: 0 <= i < |sides| ==> sides[i] in arms
    ensures r.Some? <==> HasSignals(arms, sides, signals)
    ensures r.Some? ==> r.value.0 == BlocksOf(arms, sides, signals) && r.value.1 == DictOf(r.value.0)
  {
    var blocks, state := [], [];
    for i := 0 to |sides|
      invariant HasSignals(arms, sides[..i], signals)
      invariant blocks == BlocksOf(arms, sides[..i], signals) && state == DictOf(blocks)
    {
      assert sides[..i + 1][..i] == sides[..i];
      var more := AddSide(blocks, state, sides[i], arms[sides[i]], signals);
      if more.None? {
        return None;
      }
      blocks, state := more.value.0, more.value.1;
    }
    assert sides[..|sides|] == sides;
    r := Some((blocks, state));
  }

  lemma SlotsStep(arms: map<string, Arm>, sides: seq<string>, i: nat)
    requires i < |sides| && HasActions(arms, sides[..i]) && sides[i] in arms && HasAction(arms[sides[i]].control)
    ensures HasActions(arms, sides[..i + 1])
    ensures var prior, control := SlotsOf(arms, sides[..i]), arms[sides[i]].control;
            var field := ActionField(control).value;
            SlotsOf(arms, sides[..i + 1]) == prior + [Slot(sides[i], field, SlotEnd(prior), SlotEnd(prior) + control.command[field])]
  {
    assert sides[..i + 1][..i] == sides[..i];
  }

  /** The action half of the constructor. */
  method AddActions(arms: map<string, Arm>, sides: seq<string>) returns (r: Option<(seq<Slot>, nat)>)
    requires forall i :: 0 <= i < |sides| ==> sides[i] in arms
    ensures r.Some? <==> HasActions(arms, sides)
    ensures r.Some? ==> r.value.0 == SlotsOf(arms, sides) && r.value.1 == SlotEnd(r.value.0)
  {
    var slots: seq<Slot>, offset := [], 0;
    for i := 0 to |sides|
      invariant HasActions(arms, sides[..i]) && slots == SlotsOf(arms, sides[..i]) && offset == SlotEnd(slots)
    {
      var control := arms[sides[i]].control;
      var field := ActionField(control);
      if field.None? || field.value !in control.command {
        return None;
      }
      var dim := control.command[field.value];
      SlotsStep(arms, sides, i);
      slots := slots + [Slot(sides[i], field.value, offset, offset + dim)];
      offset := offset + dim + 1;
    }
    assert sides[..|sides|] == sides;
    r := Some((slots, offset));
  }

  method Selected(sides: seq<string>, wanted: seq<string>) returns (r: seq<string>)
    requires Ordered(sides)
    ensures Ordered(r) && forall s :: s in r <==> s in sides && s in wanted
  {
    r := [];
    for i := 0 to |sides|
      invariant Ordered(r) && forall s :: s in r <==> s in sides[..i] && s in wanted
      invariant forall k :: i <= k < |sides| ==> forall j :: 0 <= j < |r| ==> Before(r[j], sides[k])
    {
      assert sides[..i + 1] == sides[..i] + [sides[i]];
      if sides[i] in wanted {
        r := r + [sides[i]];
      }
    }
    assert sides[..|sides|] == sides;
  }

  /** The constructor, for an arm map whose keys are listed as `names` in any order. */
  method Build(arms: map<string, Arm>, names: seq<string>, signals: seq<string>, actionSides: seq<string>) returns (r: Option<Layout>)
    requires Distinct(names) && forall s :: s in names <==> s in arms
    ensures r.Some? <==> SignalsOk(arms, signals) && ControlsOk(arms, actionSides)
    ensures r.Some? ==> IsLayout(r.value, arms, signals, actionSides)
  {
    if exists s :: s in actionSides && s !in arms {
      return None;
    }
    var stateSides := SortedSides(names);
    var sides := Selected(stateSides, actionSides);
    var state := AddSides(arms, stateSides, signals);
    if state.None? {
      return None;
    }
    var action := AddActions(arms, sides);
    if action.None? {
      return None;
    }
    BlocksTile(arms, stateSides, signals);
    SlotsTileThem(arms, sides);
    r := Some(Layout(stateSides, sides, state.value.0, state.value.1, action.value.0, End(state.value.0), action.value.1));
  }

  /** The layout does not depend on the order in which the arm map lists its sides. */
  lemma LayoutIsUnique(l: Layout, l': Layout, arms: map<string, Arm>, signals: seq<string>, actionSides: seq<string>)
    requires IsLayout(l, arms, signals, actionSides) && IsLayout(l', arms, signals, actionSides)
    ensures l == l'
  {
    OrderIsUnique(l.stateSides, l'.stateSides);
    OrderIsUnique(l.sides, l'.sides);
  }

  // ---- The deployed bimanual contract ---------------------------------------------------------------------

  /** `bimanual_qpos`, written out. */
  const BIMANUAL := Layout(
    ["left", "right"], ["left", "right"],
    [Block(Key("left", "q"), 0, 7), Block(Key("right", "q"), 7, 14)],
    [Block(Key("left", "q"), 0, 7), Block(Key("right", "q"), 7, 14)],
    [Slot("left", Qd, 0, 7), Slot("right", Qd, 8, 15)],
    14, 16)

  /** The written-out contract is what the general constructor gives for any two seven-joint qpos arms. */
  lemma BimanualIsGeneral(l: Layout, arms: map<string, Arm>, actionSides: seq<string>)
    requires IsLayout(l, arms, ["q"], actionSides)
    requires arms.Keys == {"left", "right"} && "left" in actionSides && "right" in actionSides
    requires forall s :: s in arms ==> "q" in arms[s].streams && arms[s].streams["q"] == 7
    requires forall s :: s in arms ==> arms[s].control.kind == Qpos && Qd in arms[s].control.command && arms[s].control.command[Qd] == 7
    ensures l == BIMANUAL
  {
    var both := ["left", "right"];
    OrderIsUnique(l.stateSides, both);
    OrderIsUnique(l.sides, both);
    assert both[..1] == ["left"];
    assert ["q"][..0] == [];
    BimanualBlocks(arms);
    BimanualSlots(arms);
  }

  lemma BimanualBlocks(arms: map<string, Arm>)
    requires arms.Keys == {"left", "right"} && forall s :: s in arms ==> "q" in arms[s].streams && arms[s].streams["q"] == 7
    ensures BlocksOf(arms, ["left", "right"], ["q"]) == BIMANUAL.blocks && DictOf(BIMANUAL.blocks) == BIMANUAL.blocks
  {
    var both, one, q := ["left", "right"], ["left"], ["q"];
    assert both[..1] == one && one[..0] == [] && q[..0] == [];
    assert WithSide([], "left", arms["left"], q) == [Block(Key("left", "q"), 0, 7)];
    assert BlocksOf(arms, one, q) == [Block(Key("left", "q"), 0, 7)];
    DistinctDict(BIMANUAL.blocks);
  }

  lemma BimanualSlots(arms: map<string, Arm>)
    requires arms.Keys == {"left", "right"}
    requires forall s :: s in arms ==> arms[s].control.kind == Qpos && Qd in arms[s].control.command && arms[s].control.command[Qd] == 7
    ensures HasActions(arms, ["left", "right"]) && SlotsOf(arms, ["left", "right"]) == BIMANUAL.slots
  {
    var both, one := ["left", "right"], ["left"];
    assert both[..1] == one && one[..0] == [];
    assert SlotsOf(arms, one) == [Slot("left", Qd, 0, 7)];
  }
}
