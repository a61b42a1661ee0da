/** The canonical state/action vector layout: which arm value lives where, packing and splitting. */
module Layout {
  import opened Wrappers
  import opened Sequences

  /** Control kinds and command fields; the `Other` cases are all further configured names. */
  datatype Kind = Qpos | Qvel | EndEffector | EefVel | Force | OtherKind(name: string)
  datatype Field = Qd | DqD | PoseD | TwistD | WrenchD | OtherField(name: string)

  datatype Control = Control(kind: Kind, command: map<Field, nat>, streamed: seq<Field>)
  datatype Arm = Arm(streams: map<string, nat>, control: Control)

  datatype Key = Key(side: string, signal: string)

  /** Half-open range of the state vector. */
  datatype Block = Block(key: Key, start: nat, stop: nat)

  /** One side of the action vector: its field on `start..stop`, its gripper at `stop`. */
  datatype Slot = Slot(side: string, field: Field, start: nat, stop: nat)

  datatype Layout = Layout(
    stateSides: seq<string>, sides: seq<string>,
    blocks: seq<Block>,    // every block in vector order
    state: seq<Block>,     // the (side, signal) dictionary, in insertion order
    slots: seq<Slot>,
    stateDim: nat, actionDim: nat)

  function ActionField(c: Control): Option<Field> {
    match c.kind
    case Qpos => Some(Qd)
    case Qvel => Some(DqD)
    case EndEffector => Some(PoseD)
    case EefVel => Some(TwistD)
    case Force => Some(WrenchD)
    case OtherKind(_) => None
  }

  /** A control kind with an action space whose width is configured. */
  predicate HasAction(c: Control) {
    ActionField(c).Some? && ActionField(c).value in c.command
  }

  // ---- Specification of the construction ----------------------------------------------------------------

  function End(blocks: seq<Block>): nat { if blocks == [] then 0 else blocks[|blocks| - 1].stop }

  predicate HasSignals(arms: map<string, Arm>, sides: seq<string>, signals: seq<string>) {
    && (forall i :: 0 <= i < |sides| ==> sides[i] in arms)
    && forall i, j :: 0 <= i < |sides| && 0 <= j < |signals| ==> signals[j] in arms[sides[i]].streams
  }

  predicate HasActions(arms: map<string, Arm>, sides: seq<string>) {
    forall i :: 0 <= i < |sides| ==> sides[i] in arms && HasAction(arms[sides[i]].control)
  }

  /** `blocks` continued by one side's signals. */
  function WithSide(blocks: seq<Block>, side: string, arm: Arm, signals: seq<string>): (r: seq<Block>)
    requires forall j :: 0 <= j < |signals| ==> signals[j] in arm.streams
    ensures |r| == |blocks| + |signals|
    decreases |signals|
  {
    if signals == [] then blocks else
      var last := signals[|signals| - 1];
      var prior := WithSide(blocks, side, arm, signals[..|signals| - 1]);
      prior + [Block(Key(side, last), End(prior), End(prior) + arm.streams[last])]
  }

  function BlocksOf(arms: map<string, Arm>, sides: seq<string>, signals: seq<string>): (r: seq<Block>)
    requires HasSignals(arms, sides, signals)
    decreases |sides|
  {
    if sides == [] then [] else
      var last := sides[|sides| - 1];
      WithSide(BlocksOf(arms, sides[..|sides| - 1], signals), last, arms[last], signals)
  }

  function SlotEnd(slots: seq<Slot>): nat { if slots == [] then 0 else slots[|slots| - 1].stop + 1 }

  function SlotsOf(arms: map<string, Arm>, sides: seq<string>): (r: seq<Slot>)
    requires HasActions(arms, sides)
    ensures |r| == |sides|
    decreases |sides|
  {
    if sides == [] then [] else
      var last := sides[|sides| - 1];
      var prior := SlotsOf(arms, sides[..|sides| - 1]);
      var field := ActionField(arms[last].control).value;
      prior + [Slot(last, field, SlotEnd(prior), SlotEnd(prior) + arms[last].control.command[field])]
  }

  /** Python's `d[key] = slice`: an existing key keeps its place and takes the new slice. */
  function Put(entries: seq<Block>, b: Block): (r: seq<Block>)
    decreases |entries|
  {
    if entries == [] then [b]
    else if entries[0].key == b.key then [b] + entries[1..]
    else [entries[0]] + Put(entries[1..], b)
  }

  function DictOf(blocks: seq<Block>): seq<Block>
    decreases |blocks|
  {
    if blocks == [] then [] else Put(DictOf(blocks[..|blocks| - 1]), blocks[|blocks| - 1])
  }

  // ---- Tiling ---------------------------------------------------------------------------------------------

  ghost predicate BlockFits(blocks: seq<Block>, k: nat)
    requires k < |blocks|
  {
    blocks[k].start == (if k == 0 then 0 else blocks[k - 1].stop) && blocks[k].start <= blocks[k].stop
  }

  ghost predicate SlotFits(slots: seq<Slot>, k: nat)
    requires k < |slots|
  {
    slots[k].start == (if k == 0 then 0 else slots[k - 1].stop + 1) && slots[k].start <= slots[k].stop
  }

  /** Blocks follow each other without gap or overlap from 0 to `dim`. */
  ghost predicate Tiles(blocks: seq<Block>, dim: nat) {
    && End(blocks) == dim
    && forall k :: 0 <= k < |blocks| ==> BlockFits(blocks, k)
  }

  ghost predicate SlotsTile(slots: seq<Slot>, dim: nat) {
    && SlotEnd(slots) == dim
    && forall k :: 0 <= k < |slots| ==> SlotFits(slots, k)
  }

  lemma TilesExtend(blocks: seq<Block>, key: Key, width: nat)
    requires Tiles(blocks, End(blocks))
    ensures var b := blocks + [Block(key, End(blocks), End(blocks) + width)]; Tiles(b, End(b))
  {
    var b := blocks + [Block(key, End(blocks), End(blocks) + width)];
    assert forall k :: 0 <= k < |blocks| ==> BlockFits(blocks, k) ==> BlockFits(b, k);
  }

  lemma {:induction false} WithSideTiles(blocks: seq<Block>, side: string, arm: Arm, signals: seq<string>)
    requires Tiles(blocks, End(blocks)) && forall j :: 0 <= j < |signals| ==> signals[j] in arm.streams
    ensures var r := WithSide(blocks, side, arm, signals); Tiles(r, End(r))
    decreases |signals|
  {
    if signals != [] {
      var init, last := signals[..|signals| - 1], signals[|signals| - 1];
      WithSideTiles(blocks, side, arm, init);
      TilesExtend(WithSide(blocks, side, arm, init), Key(side, last), arm.streams[last]);
    }
  }

  /** The state blocks tile the state vector. */
  lemma {:induction false} BlocksTile(arms: map<string, Arm>, sides: seq<string>, signals: seq<string>)
    requires HasSignals(arms, sides, signals)
    ensures var r := BlocksOf(arms, sides, signals); Tiles(r, End(r))
    decreases |sides|
  {
    if sides != [] {
      var init, last := sides[..|sides| - 1], sides[|sides| - 1];
      BlocksTile(arms, init, signals);
      WithSideTiles(BlocksOf(arms, init, signals), last, arms[last], signals);
    }
  }

  lemma {:induction false} SlotsTileThem(arms: map<string, Arm>, sides: seq<string>)
    requires HasActions(arms, sides)
    ensures var r := SlotsOf(arms, sides);
            SlotsTile(r, SlotEnd(r)) && forall k :: 0 <= k < |r| ==> r[k].side == sides[k]
    decreases |sides|
  {
    if sides != [] {
      var init := sides[..|sides| - 1];
      SlotsTileThem(arms, init);
      var prior, r := SlotsOf(arms, init), SlotsOf(arms, sides);
      assert forall k :: 0 <= k < |prior| ==> SlotFits(prior, k) ==> SlotFits(r, k);
    }
  }

  lemma {:induction false} TilesMonotone(blocks: seq<Block>, dim: nat, k: nat, l: nat)
    requires Tiles(blocks, dim) && k < l < |blocks|
    ensures blocks[k].stop <= blocks[l].start
    decreases l
  {
    assert BlockFits(blocks, l) && BlockFits(blocks, l - 1);
    if k < l - 1 { TilesMonotone(blocks, dim, k, l - 1); }
  }

  /** Every index of a tiled vector lies in exactly one block. */
  lemma {:induction false} TilesCover(blocks: seq<Block>, dim: nat, p: nat) returns (k: nat)
    requires Tiles(blocks, dim) && p < dim
    ensures k < |blocks| && blocks[k].start <= p < blocks[k].stop
    ensures forall l :: 0 <= l < |blocks| && blocks[l].start <= p < blocks[l].stop ==> l == k
    decreases |blocks|
  {
    var n := |blocks| - 1;
    assert BlockFits(blocks, n);
    if p >= blocks[n].start {
      k := n;
    } else {
      var init := blocks[..n];
      assert forall l :: 0 <= l < n ==> BlockFits(blocks, l) ==> BlockFits(init, l);
      k := TilesCover(init, blocks[n].start, p);
    }
    forall l | 0 <= l < |blocks| && blocks[l].start <= p < blocks[l].stop ensures l == k {
      if l < k { TilesMonotone(blocks, dim, l, k); } else if k < l { TilesMonotone(blocks, dim, k, l); }
    }
  }

  // ---- The dictionary of blocks --------------------------------------------------------------------------

  /** Block `k` is the last one with its key. */
  ghost predicate Final(blocks: seq<Block>, k: nat)
    requires k < |blocks|
  {
    forall l :: k < l < |blocks| ==> blocks[l].key != blocks[k].key
  }

  ghost predicate DistinctBlocks(blocks: seq<Block>) {
    forall i, j :: 0 <= i < j < |blocks| ==> blocks[i].key != blocks[j].key
  }

  lemma {:induction false} PutMembers(entries: seq<Block>, b: Block, e: Block)
    requires DistinctBlocks(entries)
    ensures e in Put(entries, b) <==> e == b || (e in entries && e.key != b.key)
    decreases |entries|
  {
    if entries != [] {
      var tail := entries[1..];
      PutMembers(tail, b, e);
      assert entries == [entries[0]] + tail;
    }
  }

  lemma {:induction false} PutKeepsDistinct(entries: seq<Block>, b: Block)
    requires DistinctBlocks(entries)
    ensures DistinctBlocks(Put(entries, b))
    decreases |entries|
  {
    if entries != [] && entries[0].key != b.key {
      var tail := entries[1..];
      PutKeepsDistinct(tail, b);
      forall i | 0 <= i < |Put(tail, b)| ensures Put(tail, b)[i].key != entries[0].key {
        PutMembers(tail, b, Put(tail, b)[i]);
      }
    }
  }

  lemma {:induction false} DictDistinct(blocks: seq<Block>)
    ensures DistinctBlocks(DictOf(blocks))
    decreases |blocks|
  {
    if blocks != [] {
      DictDistinct(blocks[..|blocks| - 1]);
      PutKeepsDistinct(DictOf(blocks[..|blocks| - 1]), blocks[|blocks| - 1]);
    }
  }

  lemma FinalBefore(blocks: seq<Block>, k: nat)
    requires k < |blocks| - 1
    ensures var init, last := blocks[..|blocks| - 1], blocks[|blocks| - 1];
            Final(blocks, k) <==> Final(init, k) && init[k].key != last.key
  {
    var init := blocks[..|blocks| - 1];
    if Final(blocks, k) {
      assert forall l :: k < l < |init| ==> init[l] == blocks[l];
    }
  }

  ghost predicate LastOfKey(blocks: seq<Block>, e: Block) {
    exists k :: 0 <= k < |blocks| && blocks[k] == e && Final(blocks, k)
  }

  lemma LastOfKeyStep(blocks: seq<Block>, e: Block)
    requires blocks != []
    ensures var init, last := blocks[..|blocks| - 1], blocks[|blocks| - 1];
            LastOfKey(blocks, e) <==> e == last || (LastOfKey(init, e) && e.key != last.key)
  {
    var init, last := blocks[..|blocks| - 1], blocks[|blocks| - 1];
    assert Final(blocks, |blocks| - 1);
    if k :| 0 <= k < |blocks| && blocks[k] == e && Final(blocks, k) {
      if k < |init| {
        FinalBefore(blocks, k);
        assert init[k] == e;
      }
    }
    if k :| 0 <= k < |init| && init[k] == e && Final(init, k) {
      FinalBefore(blocks, k);
      assert blocks[k] == e;
    }
  }

  /** The dictionary keeps, per key, its last block. */
  lemma {:induction false} DictKeepsLast(blocks: seq<Block>, e: Block)
    ensures e in DictOf(blocks) <==> LastOfKey(blocks, e)
    decreases |blocks|
  {
    if blocks != [] {
      var init := blocks[..|blocks| - 1];
      DictKeepsLast(init, e);
      DictDistinct(init);
      PutMembers(DictOf(init), blocks[|blocks| - 1], e);
      LastOfKeyStep(blocks, e);
    }
  }

  /** The named slices cover the whole state vector exactly when no non-empty block's key comes again. */
  lemma DictCoversIff(blocks: seq<Block>, dim: nat)
    requires Tiles(blocks, dim)
    ensures (forall p :: 0 <= p < dim ==> Named(DictOf(blocks), p)) <==>
            (forall k :: 0 <= k < |blocks| && blocks[k].start < blocks[k].stop ==> Final(blocks, k))
  {
    forall k | 0 <= k < |blocks| && blocks[k].start < blocks[k].stop
      ensures Named(DictOf(blocks), blocks[k].start) <==> Final(blocks, k)
      ensures blocks[k].start < dim
    {
      if k < |blocks| - 1 { TilesMonotone(blocks, dim, k, |blocks| - 1); }
      assert BlockFits(blocks, |blocks| - 1);
      NamedIffFinal(blocks, dim, blocks[k].start, k);
    }
    forall p | 0 <= p < dim
      ensures exists k :: 0 <= k < |blocks| && blocks[k].start <= p < blocks[k].stop && (Named(DictOf(blocks), p) <==> Final(blocks, k))
    {
      var k := TilesCover(blocks, dim, p);
      NamedIffFinal(blocks, dim, p, k);
    }
  }

  ghost predicate Named(entries: seq<Block>, p: int) {
    exists e :: 0 <= e < |entries| && entries[e].start <= p < entries[e].stop
  }

  lemma NamedIffFinal(blocks: seq<Block>, dim: nat, p: nat, k: nat)
    requires Tiles(blocks, dim) && p < dim && k < |blocks| && blocks[k].start <= p < blocks[k].stop
    ensures Named(DictOf(blocks), p) <==> Final(blocks, k)
  {
    var d := DictOf(blocks);
    var only := TilesCover(blocks, dim, p);
    if Named(d, p) {
      var e :| 0 <= e < |d| && d[e].start <= p < d[e].stop;
      DictKeepsLast(blocks, d[e]);
    }
    if Final(blocks, k) {
      DictKeepsLast(blocks, blocks[k]);
      var e :| 0 <= e < |d| && d[e] == blocks[k];
    }
  }

  lemma {:induction false} PutNew(entries: seq<Block>, b: Block)
    requires forall i :: 0 <= i < |entries| ==> entries[i].key != b.key
    ensures Put(entries, b) == entries + [b]
    decreases |entries|
  {
    if entries != [] { PutNew(entries[1..], b); }
  }

  /** With distinct keys the dictionary is the list of blocks. */
  lemma {:induction false} DistinctDict(blocks: seq<Block>)
    requires DistinctBlocks(blocks)
    ensures DictOf(blocks) == blocks
    decreases |blocks|
  {
    if blocks != [] {
      var init := blocks[..|blocks| - 1];
      DistinctDict(init);
      PutNew(init, blocks[|blocks| - 1]);
    }
  }

  lemma {:induction false} WithSideKeys(blocks: seq<Block>, side: string, arm: Arm, signals: seq<string>)
    requires forall j :: 0 <= j < |signals| ==> signals[j] in arm.streams
    ensures var r := WithSide(blocks, side, arm, signals);
            && r[..|blocks|] == blocks
            && forall j :: 0 <= j < |signals| ==> r[|blocks| + j].key == Key(side, signals[j])
    decreases |signals|
  {
    if signals != [] { WithSideKeys(blocks, side, arm, signals[..|signals| - 1]); }
  }

  /** Distinct sides and signals give distinct keys. */
  lemma {:induction false} BlocksDistinct(arms: map<string, Arm>, sides: seq<string>, signals: seq<string>)
    requires HasSignals(arms, sides, signals) && Distinct(sides) && Distinct(signals)
    ensures DistinctBlocks(BlocksOf(arms, sides, signals))
    ensures forall k :: 0 <= k < |BlocksOf(arms, sides, signals)| ==> BlocksOf(arms, sides, signals)[k].key.side in sides
    decreases |sides|
  {
    if sides != [] {
      var init, last := sides[..|sides| - 1], sides[|sides| - 1];
      BlocksDistinct(arms, init, signals);
      var prior := BlocksOf(arms, init, signals);
      var r := WithSide(prior, last, arms[last], signals);
      WithSideKeys(prior, last, arms[last], signals);
      forall k | 0 <= k < |r| ensures if k < |prior| then r[k] == prior[k] else r[k].key == Key(last, signals[k - |prior|]) {
        if k < |prior| { assert r[..|prior|][k] == prior[k]; } else { assert r[|prior| + (k - |prior|)] == r[k]; }
      }
      assert last !in init;
    }
  }

  // ---- Where every value lives -------------------------------------------------------------------------

  lemma {:induction false} WithSideWidths(blocks: seq<Block>, side: string, arm: Arm, signals: seq<string>, j: nat)
    requires (forall i :: 0 <= i < |signals| ==> signals[i] in arm.streams) && j < |signals|
    ensures var b := WithSide(blocks, side, arm, signals)[|blocks| + j];
            b.key == Key(side, signals[j]) && b.stop == b.start + arm.streams[signals[j]]
    decreases |signals|
  {
    if j < |signals| - 1 { WithSideWidths(blocks, side, arm, signals[..|signals| - 1], j); }
  }

  /** The block of a side's signal: its place follows the sides, then the signals, and its width is the stream's. */
  lemma {:induction false} BlockAt(arms: map<string, Arm>, sides: seq<string>, signals: seq<string>, i: nat, j: nat, k: nat)
    requires HasSignals(arms, sides, signals) && i < |sides| && j < |signals| && k == i * |signals| + j
    ensures var r := BlocksOf(arms, sides, signals);
            && k < |r| && r[k].key == Key(sides[i], signals[j]) && r[k].stop == r[k].start + arms[sides[i]].streams[signals[j]]
    decreases |sides|
  {
    var n := |sides| - 1;
    var init, last := sides[..n], sides[n];
    var prior := BlocksOf(arms, init, signals);
    if i < n {
      BlockAt(arms, init, signals, i, j, k);
      WithSideKeys(prior, last, arms[last], signals);
      assert WithSide(prior, last, arms[last], signals)[..|prior|][k] == prior[k];
    } else {
      BlockCount(arms, init, signals);
      WithSideWidths(prior, last, arms[last], signals, j);
    }
  }

  lemma {:induction false} BlockCount(arms: map<string, Arm>, sides: seq<string>, signals: seq<string>)
    requires HasSignals(arms, sides, signals)
    ensures |BlocksOf(arms, sides, signals)| == |sides| * |signals|
    decreases |sides|
  {
    if sides != [] {
      var n := |sides| - 1;
      BlockCount(arms, sides[..n], signals);
      OneMore(n, |signals|);
    }
  }

  /** The slot of a side: its field follows from the control kind, and its width is the configured one. */
  lemma {:induction false} SlotAt(arms: map<string, Arm>, sides: seq<string>, k: nat)
    requires HasActions(arms, sides) && k < |sides|
    ensures var s, c := SlotsOf(arms, sides)[k], arms[sides[k]].control;
            && s.side == sides[k] && s.field in c.command && s.stop == s.start + c.command[s.field]
            && (c.kind == Qpos <==> s.field == Qd) && (c.kind == Qvel <==> s.field == DqD) && (c.kind == EndEffector <==> s.field == PoseD)
            && (c.kind == EefVel <==> s.field == TwistD) && (c.kind == Force <==> s.field == WrenchD)
    decreases |sides|
  {
    if k < |sides| - 1 { SlotAt(arms, sides[..|sides| - 1], k); }
  }

  lemma OneMore(n: nat, m: nat)
    ensures (n + 1) * m == n * m + m
  {
  }
}
