/** Packing values into the canonical vectors and splitting them again. */
module Vectors {
  import opened Wrappers
  import opened Layout

  datatype SideAction = SideAction(side: string, field: Field, value: seq<real>, gripper: real)

  /** Per-side values have the widths of their slots. */
  predicate Supplies(primary: map<string, seq<real>>, slots: seq<Slot>) {
    forall k :: 0 <= k < |slots| ==> SuppliesSlot(primary, slots[k])
  }

  predicate SuppliesSlot(primary: map<string, seq<real>>, s: Slot) {
    s.side in primary && s.start + |primary[s.side]| == s.stop
  }

  function GripperOf(gripper: map<string, real>, side: string): real { if side in gripper then gripper[side] else 0.0 }

  /** The first `n` sides laid end to end: values, then gripper. */
  function Joined(slots: seq<Slot>, n: nat, primary: map<string, seq<real>>, gripper: map<string, real>): (v: seq<real>)
    requires n <= |slots| && Supplies(primary, slots)
  {
    if n == 0 then [] else
      assert SuppliesSlot(primary, slots[n - 1]);
      Joined(slots, n - 1, primary, gripper) + primary[slots[n - 1].side] + [GripperOf(gripper, slots[n - 1].side)]
  }

  lemma {:induction false} JoinedLength(slots: seq<Slot>, dim: nat, n: nat, primary: map<string, seq<real>>, gripper: map<string, real>)
    requires n <= |slots| && Supplies(primary, slots) && SlotsTile(slots, dim)
    ensures |Joined(slots, n, primary, gripper)| == if n == 0 then 0 else slots[n - 1].stop + 1
    decreases n
  {
    if n > 0 {
      JoinedLength(slots, dim, n - 1, primary, gripper);
      assert SlotFits(slots, n - 1) && SuppliesSlot(primary, slots[n - 1]);
    }
  }

  lemma {:induction false} JoinedGrows(slots: seq<Slot>, k: nat, n: nat, primary: map<string, seq<real>>, gripper: map<string, real>)
    requires k <= n <= |slots| && Supplies(primary, slots)
    ensures Joined(slots, k, primary, gripper) <= Joined(slots, n, primary, gripper)
    decreases n
  {
    if k < n { JoinedGrows(slots, k, n - 1, primary, gripper); }
  }

  /** numpy's `a[start : start + |value|] = value`. */
  method WriteSlice(a: array<real>, start: nat, value: seq<real>)
    requires start + |value| <= a.Length
    modifies a
    ensures forall p :: 0 <= p < a.Length ==> a[p] == if start <= p < start + |value| then value[p - start] else old(a[p])
  {
    for i := 0 to |value|
      invariant forall p :: 0 <= p < a.Length ==> a[p] == if start <= p < start + i then value[p - start] else old(a[p])
    {
      a[start + i] := value[i];
    }
  }

  /** A missing side or a wrong width is an error. */
  method PackAction(l: Layout, primary: map<string, seq<real>>, gripper: map<string, real>) returns (r: Option<seq<real>>)
    requires SlotsTile(l.slots, l.actionDim)
    ensures r.Some? <==> Supplies(primary, l.slots)
    ensures r.Some? ==> r.value == Joined(l.slots, |l.slots|, primary, gripper)
  {
    if !Supplies(primary, l.slots) {
      return None;
    }
    var action := new real[l.actionDim](_ => 0.0);
    ghost var full, done := Joined(l.slots, |l.slots|, primary, gripper), 0;
    JoinedLength(l.slots, l.actionDim, |l.slots|, primary, gripper);
    for k := 0 to |l.slots|
      invariant done == (if k == 0 then 0 else l.slots[k - 1].stop + 1) <= |full|
      invariant forall p :: 0 <= p < done ==> action[p] == full[p]
    {
      var slot := l.slots[k];
      SlotPoints(l.slots, l.actionDim, k, primary, gripper);
      WriteSlot(action, slot, primary[slot.side], GripperOf(gripper, slot.side));
      done := slot.stop + 1;
    }
    assert action[..] == full;
    r := Some(action[..]);
  }

  method WriteSlot(a: array<real>, s: Slot, value: seq<real>, gripper: real)
    requires s.start + |value| == s.stop < a.Length
    modifies a
    ensures a[s.stop] == gripper && forall p :: s.start <= p < s.stop ==> a[p] == value[p - s.start]
    ensures forall p :: 0 <= p < a.Length && (p < s.start || p > s.stop) ==> a[p] == old(a[p])
  {
    WriteSlice(a, s.start, value);
    a[s.stop] := gripper;
  }

  lemma SlotPoints(slots: seq<Slot>, dim: nat, k: nat, primary: map<string, seq<real>>, gripper: map<string, real>)
    requires k < |slots| && Supplies(primary, slots) && SlotsTile(slots, dim)
    ensures var full, s := Joined(slots, |slots|, primary, gripper), slots[k];
            && SuppliesSlot(primary, s) && s.start == (if k == 0 then 0 else slots[k - 1].stop + 1) && s.stop < |full| == dim
            && full[s.stop] == GripperOf(gripper, s.side) && forall p :: s.start <= p < s.stop ==> full[p] == primary[s.side][p - s.start]
  {
    SlotOfJoined(slots, dim, k, primary, gripper);
    var full, s := Joined(slots, |slots|, primary, gripper), slots[k];
    assert forall p :: s.start <= p < s.stop ==> full[p] == full[s.start..s.stop][p - s.start];
  }

  /** Where slot `k` sits in the packed vector, and what it holds there. */
  lemma SlotOfJoined(slots: seq<Slot>, dim: nat, k: nat, primary: map<string, seq<real>>, gripper: map<string, real>)
    requires k < |slots| && Supplies(primary, slots) && SlotsTile(slots, dim)
    ensures var full, s := Joined(slots, |slots|, primary, gripper), slots[k];
            && SlotFits(slots, k) && SuppliesSlot(primary, s) && s.stop < |full| == dim
            && full[s.start..s.stop] == primary[s.side] && full[s.stop] == GripperOf(gripper, s.side)
  {
    var full, s := Joined(slots, |slots|, primary, gripper), slots[k];
    JoinedLength(slots, dim, |slots|, primary, gripper);
    JoinedLength(slots, dim, k, primary, gripper);
    JoinedGrows(slots, k + 1, |slots|, primary, gripper);
    assert SlotFits(slots, k) && SuppliesSlot(primary, s);
    Laid(full, Joined(slots, k, primary, gripper), primary[s.side], GripperOf(gripper, s.side));
  }

  lemma Laid(full: seq<real>, before: seq<real>, value: seq<real>, last: real)
    requires before + value + [last] <= full
    ensures full[|before|..|before| + |value|] == value && full[|before| + |value|] == last
  {
    var upto := before + value + [last];
    assert full[|before|..|before| + |value|] == upto[|before|..|before| + |value|];
  }

  lemma {:induction false} SlotInside(slots: seq<Slot>, dim: nat, k: nat)
    requires k < |slots| && SlotsTile(slots, dim)
    ensures slots[k].start <= slots[k].stop < dim
    decreases |slots| - k
  {
    assert SlotFits(slots, k);
    if k + 1 < |slots| {
      SlotInside(slots, dim, k + 1);
      assert SlotFits(slots, k + 1);
    }
  }

  /** `split`: a vector of the wrong width is an error. */
  function Split(l: Layout, action: seq<real>): (r: Option<seq<SideAction>>)
    requires SlotsTile(l.slots, l.actionDim)
  {
    if |action| != l.actionDim then None else
      Some(seq(|l.slots|, k requires 0 <= k < |l.slots| =>
        var s := l.slots[k];
        SlotInside(l.slots, l.actionDim, k);
        SideAction(s.side, s.field, action[s.start..s.stop], action[s.stop])))
  }

  /** Splitting a packed action gives back every side's value and gripper. */
  lemma SplitUndoesPack(l: Layout, primary: map<string, seq<real>>, gripper: map<string, real>)
    requires SlotsTile(l.slots, l.actionDim) && Supplies(primary, l.slots)
    ensures var r := Split(l, Joined(l.slots, |l.slots|, primary, gripper));
            && r.Some? && |r.value| == |l.slots|
            && forall k :: 0 <= k < |l.slots| ==>
                 var s := l.slots[k];
                 s.side in primary && r.value[k] == SideAction(s.side, s.field, primary[s.side], if s.side in gripper then gripper[s.side] else 0.0)
  {
    JoinedLength(l.slots, l.actionDim, |l.slots|, primary, gripper);
    forall k | 0 <= k < |l.slots|
      ensures var s, full := l.slots[k], Joined(l.slots, |l.slots|, primary, gripper);
              s.side in primary && s.stop < |full| && full[s.start..s.stop] == primary[s.side] && full[s.stop] == GripperOf(gripper, s.side)
    {
      SlotOfJoined(l.slots, l.actionDim, k, primary, gripper);
    }
  }

  /** Every vector of the right width is the packing of its own split. */
  lemma PackUndoesSplit(l: Layout, action: seq<real>, primary: map<string, seq<real>>, gripper: map<string, real>)
    requires SlotsTile(l.slots, l.actionDim) && |action| == l.actionDim
    requires forall k :: 0 <= k < |l.slots| ==> Carries(Split(l, action).value[k], primary, gripper)
    ensures Supplies(primary, l.slots) && Joined(l.slots, |l.slots|, primary, gripper) == action
  {
    forall k | 0 <= k < |l.slots| ensures SuppliesSlot(primary, l.slots[k]) {
      assert Carries(Split(l, action).value[k], primary, gripper);
      SlotInside(l.slots, l.actionDim, k);
    }
    JoinedIsPrefix(l, action, |l.slots|, primary, gripper);
    JoinedLength(l.slots, l.actionDim, |l.slots|, primary, gripper);
  }

  ghost predicate Carries(a: SideAction, primary: map<string, seq<real>>, gripper: map<string, real>) {
    a.side in primary && primary[a.side] == a.value && a.side in gripper && gripper[a.side] == a.gripper
  }

  lemma PrefixGrows(action: seq<real>, before: seq<real>, stop: nat)
    requires before <= action && |before| <= stop < |action|
    ensures before + action[|before|..stop] + [action[stop]] <= action
  {
  }

  lemma {:induction false} JoinedIsPrefix(l: Layout, action: seq<real>, n: nat, primary: map<string, seq<real>>, gripper: map<string, real>)
    requires SlotsTile(l.slots, l.actionDim) && |action| == l.actionDim && n <= |l.slots| && Supplies(primary, l.slots)
    requires forall k :: 0 <= k < |l.slots| ==> Carries(Split(l, action).value[k], primary, gripper)
    ensures Joined(l.slots, n, primary, gripper) <= action
    decreases n
  {
    if n > 0 {
      var s := l.slots[n - 1];
      JoinedIsPrefix(l, action, n - 1, primary, gripper);
      JoinedLength(l.slots, l.actionDim, n - 1, primary, gripper);
      SlotInside(l.slots, l.actionDim, n - 1);
      assert SlotFits(l.slots, n - 1);
      assert Carries(Split(l, action).value[n - 1], primary, gripper);
      PrefixGrows(action, Joined(l.slots, n - 1, primary, gripper), s.stop);
    }
  }

  // ---- The state vector --------------------------------------------------------------------------------------

  lemma EntriesApart(blocks: seq<Block>, dim: nat, i: nat, j: nat)
    requires Tiles(blocks, dim) && i < |DictOf(blocks)| && j < |DictOf(blocks)| && i != j
    ensures var a, b := DictOf(blocks)[i], DictOf(blocks)[j]; a.stop <= b.start || b.stop <= a.start
  {
    var d := DictOf(blocks);
    DictKeepsLast(blocks, d[i]);
    DictKeepsLast(blocks, d[j]);
    var k :| 0 <= k < |blocks| && blocks[k] == d[i] && Final(blocks, k);
    var l :| 0 <= l < |blocks| && blocks[l] == d[j] && Final(blocks, l);
    DictDistinct(blocks);
    assert d[i].key != d[j].key;
    if k < l { TilesMonotone(blocks, dim, k, l); } else { TilesMonotone(blocks, dim, l, k); }
  }

  lemma EntryInside(blocks: seq<Block>, dim: nat, i: nat)
    requires Tiles(blocks, dim) && i < |DictOf(blocks)|
    ensures var e := DictOf(blocks)[i]; e.start <= e.stop <= dim
  {
    DictKeepsLast(blocks, DictOf(blocks)[i]);
    var k :| 0 <= k < |blocks| && blocks[k] == DictOf(blocks)[i] && Final(blocks, k);
    assert BlockFits(blocks, k) && BlockFits(blocks, |blocks| - 1);
    if k < |blocks| - 1 { TilesMonotone(blocks, dim, k, |blocks| - 1); }
  }

  ghost predicate Apart(a: Block, b: Block) { a.stop <= b.start || b.stop <= a.start }

  /** Named slices lie inside the vector and do not overlap. */
  ghost predicate EntriesOk(entries: seq<Block>, dim: nat) {
    && (forall i :: 0 <= i < |entries| ==> entries[i].start <= entries[i].stop <= dim)
    && forall i, j :: 0 <= i < j < |entries| ==> Apart(entries[i], entries[j])
  }

  lemma DictEntriesOk(blocks: seq<Block>, dim: nat)
    requires Tiles(blocks, dim)
    ensures EntriesOk(DictOf(blocks), dim)
  {
    var d := DictOf(blocks);
    forall i | 0 <= i < |d| ensures d[i].start <= d[i].stop <= dim { EntryInside(blocks, dim, i); }
    forall i, j | 0 <= i < j < |d| ensures Apart(d[i], d[j]) { EntriesApart(blocks, dim, i, j); }
  }

  predicate SuppliesBlock(values: map<Key, seq<real>>, b: Block) {
    b.key in values && b.start + |values[b.key]| == b.stop
  }

  ghost predicate BlockHolds(state: seq<real>, values: map<Key, seq<real>>, b: Block) {
    SuppliesBlock(values, b) && b.stop <= |state| && forall p :: b.start <= p < b.stop ==> state[p] == values[b.key][p - b.start]
  }

  /** `pack_state` over the dictionary of blocks. */
  method PackState(l: Layout, values: map<Key, seq<real>>) returns (r: Option<seq<real>>)
    requires EntriesOk(l.state, l.stateDim)
    ensures r.Some? <==> forall e :: 0 <= e < |l.state| ==> SuppliesBlock(values, l.state[e])
    ensures r.Some? ==> |r.value| == l.stateDim && forall e :: 0 <= e < |l.state| ==> BlockHolds(r.value, values, l.state[e])
    ensures r.Some? ==> forall p :: 0 <= p < |r.value| && !Named(l.state, p) ==> r.value[p] == 0.0
  {
    var state := new real[l.stateDim](_ => 0.0);
    for e := 0 to |l.state|
      invariant forall k :: 0 <= k < e ==> BlockHolds(state[..], values, l.state[k])
      invariant forall p :: 0 <= p < state.Length && !Named(l.state, p) ==> state[p] == 0.0
    {
      var b := l.state[e];
      if !SuppliesBlock(values, b) {
        return None;
      }
      ghost var before := state[..];
      WriteSlice(state, b.start, values[b.key]);
      forall k | 0 <= k < e ensures BlockHolds(state[..], values, l.state[k]) {
        assert BlockHolds(before, values, l.state[k]) && Apart(l.state[k], l.state[e]);
      }
    }
    r := Some(state[..]);
  }
}
