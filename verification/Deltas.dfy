/** Joint targets between absolute and delta space, and the same arithmetic in the statistics script. */
module Deltas {
  import opened Wrappers
  import opened Layout
  import opened Vectors

  /** A measured joint block and the commanded block it belongs to. */
  datatype Pair = Pair(from: nat, end: nat, start: nat, stop: nat)

  /** The dictionary entry of a key, or none. */
  function Find(entries: seq<Block>, key: Key): (r: Option<Block>)
    ensures r.Some? ==> r.value in entries && r.value.key == key
    ensures r.None? ==> forall e :: 0 <= e < |entries| ==> entries[e].key != key
    decreases |entries|
  {
    if entries == [] then None
    else if entries[0].key == key then Some(entries[0])
    else Find(entries[1..], key)
  }

  /** The pair of a side whose joints are both measured and commanded. */
  function PairOf(l: Layout, s: Slot): Option<Pair> {
    var e := Find(l.state, Key(s.side, "q"));
    if e.Some? && s.field == Qd then Some(Pair(e.value.start, e.value.stop, s.start, s.stop)) else None
  }

  function PairsOf(l: Layout, n: nat): seq<Pair>
    requires n <= |l.slots|
  {
    if n == 0 then [] else
      PairsOf(l, n - 1) + (if PairOf(l, l.slots[n - 1]).Some? then [PairOf(l, l.slots[n - 1]).value] else [])
  }

  method StateToActionJointSlices(l: Layout) returns (pairs: seq<Pair>)
    ensures pairs == PairsOf(l, |l.slots|)
  {
    pairs := [];
    for k := 0 to |l.slots|
      invariant pairs == PairsOf(l, k)
    {
      var e := Find(l.state, Key(l.slots[k].side, "q"));
      if e.Some? && l.slots[k].field == Qd {
        pairs := pairs + [Pair(e.value.start, e.value.stop, l.slots[k].start, l.slots[k].stop)];
      }
    }
  }

  /** What packing and deltas rely on; every constructed layout has it. */
  ghost predicate LayoutOk(l: Layout) {
    EntriesOk(l.state, l.stateDim) && SlotsTile(l.slots, l.actionDim)
  }

  /** Both ends of every pair lie inside their vectors, and its target is a whole slot. */
  lemma {:induction false} PairsInside(l: Layout, n: nat)
    requires LayoutOk(l) && n <= |l.slots|
    ensures forall i :: 0 <= i < |PairsOf(l, n)| ==>
              var p := PairsOf(l, n)[i];
              p.from <= p.end <= l.stateDim && exists k :: 0 <= k < n && l.slots[k].start == p.start <= l.slots[k].stop == p.stop < l.actionDim
    decreases n
  {
    if n > 0 {
      PairsInside(l, n - 1);
      var s := l.slots[n - 1];
      SlotInside(l.slots, l.actionDim, n - 1);
      var e := Find(l.state, Key(s.side, "q"));
      if e.Some? {
        var i :| 0 <= i < |l.state| && l.state[i] == e.value;
      }
      assert l.slots[n - 1].start == s.start;
    }
  }

  /** numpy can add the state block to the target block: equal widths, or one value for all. */
  predicate Broadcasts(p: Pair) { p.from <= p.end && (p.end - p.from == p.stop - p.start || p.end - p.from == 1) }

  predicate Covers(p: Pair, i: int) { p.start <= i < p.stop }

  /** The measured value that target index `i` is paired with. */
  function Partner(p: Pair, i: int): int
    requires Covers(p, i)
  {
    if p.end - p.from == 1 then p.from else p.from + (i - p.start)
  }

  predicate Usable(pairs: seq<Pair>, width: nat) {
    forall k :: 0 <= k < |pairs| ==> Broadcasts(pairs[k]) && pairs[k].end <= width
  }

  /** What the first `n` pairs add up to at index `i`. */
  function Shift(pairs: seq<Pair>, n: nat, state: seq<real>, i: int): real
    requires n <= |pairs| && Usable(pairs, |state|)
  {
    if n == 0 then 0.0 else
      Shift(pairs, n - 1, state, i) + (if Covers(pairs[n - 1], i) then state[Partner(pairs[n - 1], i)] else 0.0)
  }

  function Shifted(inverse: bool, x: real, shift: real): real { if inverse then x + shift else x - shift }

  /** `OpenPIActionDeltas` on one row: absolute to delta, or back. */
  function DeltaRow(pairs: seq<Pair>, inverse: bool, state: seq<real>, row: seq<real>): (r: seq<real>)
    requires Usable(pairs, |state|)
    ensures |r| == |row| && forall i :: 0 <= i < |row| ==> r[i] == Shifted(inverse, row[i], Shift(pairs, |pairs|, state, i))
  {
    seq(|row|, i requires 0 <= i < |row| => Shifted(inverse, row[i], Shift(pairs, |pairs|, state, i)))
  }

  /** `actions[..., a] += sign * state[..., None, s]` for one pair. */
  method AddPair(a: array2<real>, pairs: seq<Pair>, k: nat, inverse: bool, state: seq<real>)
    requires k < |pairs| && Usable(pairs, |state|) && pairs[k].stop <= a.Length1
    modifies a
    ensures forall r, i :: 0 <= r < a.Length0 && 0 <= i < a.Length1 ==>
              a[r, i] == Shifted(inverse, old(a[r, i]), if Covers(pairs[k], i) then state[Partner(pairs[k], i)] else 0.0)
  {
    for row := 0 to a.Length0
      invariant forall r, i :: 0 <= r < row && 0 <= i < a.Length1 ==>
                  a[r, i] == Shifted(inverse, old(a[r, i]), if Covers(pairs[k], i) then state[Partner(pairs[k], i)] else 0.0)
      invariant forall r, i :: row <= r < a.Length0 && 0 <= i < a.Length1 ==> a[r, i] == old(a[r, i])
    {
      for col := 0 to a.Length1
        invariant forall r, i :: 0 <= r < row && 0 <= i < a.Length1 ==>
                    a[r, i] == Shifted(inverse, old(a[r, i]), if Covers(pairs[k], i) then state[Partner(pairs[k], i)] else 0.0)
        invariant forall r, i :: row <= r < a.Length0 && 0 <= i < a.Length1 ==>
                    a[r, i] == if r == row && i < col && Covers(pairs[k], i) then Shifted(inverse, old(a[r, i]), state[Partner(pairs[k], i)]) else old(a[r, i])
      {
        if Covers(pairs[k], col) {
          a[row, col] := Shifted(inverse, a[row, col], state[Partner(pairs[k], col)]);
        }
      }
    }
  }

  /** The transform on a whole chunk, in place. Vectors too narrow or blocks that cannot be paired are errors. */
  method ApplyDeltas(l: Layout, inverse: bool, state: seq<real>, a: array2<real>) returns (ok: bool)
    requires LayoutOk(l)
    modifies a
    ensures ok <==> |state| >= l.stateDim && a.Length1 >= l.actionDim && Usable(PairsOf(l, |l.slots|), |state|)
    ensures ok ==> forall r, i :: 0 <= r < a.Length0 && 0 <= i < a.Length1 ==>
              a[r, i] == Shifted(inverse, old(a[r, i]), Shift(PairsOf(l, |l.slots|), |PairsOf(l, |l.slots|)|, state, i))
  {
    if |state| < l.stateDim || a.Length1 < l.actionDim {
      return false;
    }
    var pairs := StateToActionJointSlices(l);
    PairsInside(l, |l.slots|);
    if !Usable(pairs, |state|) {
      return false;
    }
    for k := 0 to |pairs|
      invariant forall r, i :: 0 <= r < a.Length0 && 0 <= i < a.Length1 ==> a[r, i] == Shifted(inverse, old(a[r, i]), Shift(pairs, k, state, i))
    {
      AddPair(a, pairs, k, inverse, state);
    }
    ok := true;
  }

  // ---- What the transform does -----------------------------------------------------------------------------

  /** Delta and inverse delta undo each other, in either order. */
  lemma DeltaRoundTrip(pairs: seq<Pair>, inverse: bool, state: seq<real>, row: seq<real>)
    requires Usable(pairs, |state|)
    ensures DeltaRow(pairs, !inverse, state, DeltaRow(pairs, inverse, state, row)) == row
  {
    var there := DeltaRow(pairs, inverse, state, row);
    var back := DeltaRow(pairs, !inverse, state, there);
    forall i | 0 <= i < |row| ensures back[i] == row[i] {
      var s := Shift(pairs, |pairs|, state, i);
      assert there[i] == Shifted(inverse, row[i], s) && back[i] == Shifted(!inverse, there[i], s);
    }
  }

  lemma {:induction false} UncoveredStays(pairs: seq<Pair>, n: nat, state: seq<real>, i: int)
    requires n <= |pairs| && Usable(pairs, |state|) && forall k :: 0 <= k < n ==> !Covers(pairs[k], i)
    ensures Shift(pairs, n, state, i) == 0.0
    decreases n
  {
    if n > 0 { UncoveredStays(pairs, n - 1, state, i); }
  }

  lemma {:induction false} SlotsApart(slots: seq<Slot>, dim: nat, k: nat, j: nat)
    requires SlotsTile(slots, dim) && k < j < |slots|
    ensures slots[k].stop < slots[j].start
    decreases j
  {
    assert SlotFits(slots, j) && SlotFits(slots, j - 1);
    if k < j - 1 { SlotsApart(slots, dim, k, j - 1); }
  }

  /** Grippers and columns beyond the action stay absolute. */
  lemma GrippersUntouched(l: Layout, inverse: bool, state: seq<real>, row: seq<real>, i: nat)
    requires LayoutOk(l) && Usable(PairsOf(l, |l.slots|), |state|) && i < |row|
    requires i >= l.actionDim || exists k :: 0 <= k < |l.slots| && l.slots[k].stop == i
    ensures DeltaRow(PairsOf(l, |l.slots|), inverse, state, row)[i] == row[i]
  {
    var pairs := PairsOf(l, |l.slots|);
    PairsInside(l, |l.slots|);
    forall p | 0 <= p < |pairs| ensures !Covers(pairs[p], i) {
      var j :| 0 <= j < |l.slots| && l.slots[j].start == pairs[p].start <= l.slots[j].stop == pairs[p].stop < l.actionDim;
      if k :| 0 <= k < |l.slots| && l.slots[k].stop == i {
        SlotInside(l.slots, l.actionDim, k);
        if k < j { SlotsApart(l.slots, l.actionDim, k, j); } else if j < k { SlotsApart(l.slots, l.actionDim, j, k); }
      }
    }
    UncoveredStays(pairs, |pairs|, state, i);
  }

  /** Every commanded joint moves by exactly its own measured joint. */
  lemma JointsMoveByState(l: Layout, inverse: bool, state: seq<real>, row: seq<real>, k: nat, i: nat)
    requires LayoutOk(l) && Usable(PairsOf(l, |l.slots|), |state|) && k < |l.slots|
    requires PairOf(l, l.slots[k]).Some? && Covers(PairOf(l, l.slots[k]).value, i) && i < |row|
    ensures Partner(PairOf(l, l.slots[k]).value, i) < |state|
    ensures DeltaRow(PairsOf(l, |l.slots|), inverse, state, row)[i] == Shifted(inverse, row[i], state[Partner(PairOf(l, l.slots[k]).value, i)])
  {
    var pairs := PairsOf(l, |l.slots|);
    var m := PairListed(l, |l.slots|, k);
    PairsApart(l, |l.slots|);
    ShiftOfOne(pairs, |pairs|, state, m, i);
  }

  lemma {:induction false} PairListed(l: Layout, n: nat, k: nat) returns (m: nat)
    requires k < n <= |l.slots| && PairOf(l, l.slots[k]).Some?
    ensures m < |PairsOf(l, n)| && PairsOf(l, n)[m] == PairOf(l, l.slots[k]).value
    decreases n
  {
    if k < n - 1 { m := PairListed(l, n - 1, k); } else { m := |PairsOf(l, n - 1)|; }
  }

  lemma {:induction false} PairsApart(l: Layout, n: nat)
    requires LayoutOk(l) && n <= |l.slots|
    ensures forall a, b :: 0 <= a < b < |PairsOf(l, n)| ==> PairsOf(l, n)[a].stop <= PairsOf(l, n)[b].start
    decreases n
  {
    if n > 0 {
      var prior, s := PairsOf(l, n - 1), l.slots[n - 1];
      PairsApart(l, n - 1);
      PairsInside(l, n - 1);
      forall a | 0 <= a < |prior| ensures prior[a].stop <= s.start {
        var j :| 0 <= j < n - 1 && l.slots[j].start == prior[a].start <= l.slots[j].stop == prior[a].stop < l.actionDim;
        SlotsApart(l.slots, l.actionDim, j, n - 1);
      }
    }
  }

  /** At an index only pair `m` covers, the shift is that pair's measured value. */
  lemma {:induction false} ShiftOfOne(pairs: seq<Pair>, n: nat, state: seq<real>, m: nat, i: nat)
    requires m < n <= |pairs| && Usable(pairs, |state|) && Covers(pairs[m], i)
    requires forall a, b :: 0 <= a < b < |pairs| ==> pairs[a].stop <= pairs[b].start
    ensures Partner(pairs[m], i) < |state| && Shift(pairs, n, state, i) == state[Partner(pairs[m], i)]
    decreases n
  {
    if m < n - 1 {
      ShiftOfOne(pairs, n - 1, state, m, i);
    } else {
      UncoveredStays(pairs, m, state, i);
    }
  }

  // ---- The same, index by index ---------------------------------------------------------------------------

  /** The measured joints of slot `k`, if there are any. */
  ghost predicate Measures(l: Layout, k: nat, e: nat) {
    k < |l.slots| && e < |l.state| && l.state[e].key == Key(l.slots[k].side, "q")
  }

  lemma PairIs(l: Layout, k: nat, e: nat)
    requires DistinctBlocks(l.state) && Measures(l, k, e)
    ensures var b, s := l.state[e], l.slots[k];
            PairOf(l, s) == if s.field == Qd then Some(Pair(b.start, b.stop, s.start, s.stop)) else None
  {
    var found := Find(l.state, Key(l.slots[k].side, "q"));
    assert found.Some?;
    var i :| 0 <= i < |l.state| && l.state[i] == found.value;
    assert i == e;
  }

  /** A commanded joint becomes its difference to the joint measured at the same place, and back; one measured
      value serves all joints of its side. */
  lemma JointDelta(l: Layout, inverse: bool, state: seq<real>, row: seq<real>, k: nat, e: nat, i: nat)
    requires LayoutOk(l) && DistinctBlocks(l.state) && Usable(PairsOf(l, |l.slots|), |state|)
    requires Measures(l, k, e) && l.slots[k].field == Qd && l.slots[k].start <= i < l.slots[k].stop && i < |row|
    ensures var b := l.state[e];
            var m := if b.stop == b.start + 1 then b.start else b.start + (i - l.slots[k].start);
            m < |state| && DeltaRow(PairsOf(l, |l.slots|), inverse, state, row)[i] == if inverse then row[i] + state[m] else row[i] - state[m]
  {
    PairIs(l, k, e);
    JointsMoveByState(l, inverse, state, row, k, i);
  }

  /** Whatever is not a joint target with measured joints stays as it is. */
  lemma OthersStay(l: Layout, inverse: bool, state: seq<real>, row: seq<real>, k: nat, i: nat)
    requires LayoutOk(l) && DistinctBlocks(l.state) && Usable(PairsOf(l, |l.slots|), |state|)
    requires k < |l.slots| && l.slots[k].start <= i < l.slots[k].stop && i < |row|
    requires l.slots[k].field != Qd || forall e :: 0 <= e < |l.state| ==> l.state[e].key != Key(l.slots[k].side, "q")
    ensures DeltaRow(PairsOf(l, |l.slots|), inverse, state, row)[i] == row[i]
  {
    var pairs := PairsOf(l, |l.slots|);
    forall p | 0 <= p < |pairs| ensures !Covers(pairs[p], i) {
      var j := PairSource(l, |l.slots|, p);
      assert j != k;
      if k < j { SlotsApart(l.slots, l.actionDim, k, j); } else { SlotsApart(l.slots, l.actionDim, j, k); }
    }
    UncoveredStays(pairs, |pairs|, state, i);
  }

  lemma {:induction false} PairSource(l: Layout, n: nat, p: nat) returns (k: nat)
    requires n <= |l.slots| && p < |PairsOf(l, n)|
    ensures k < n && PairOf(l, l.slots[k]) == Some(PairsOf(l, n)[p])
    decreases n
  {
    if p < |PairsOf(l, n - 1)| { k := PairSource(l, n - 1, p); } else { k := n - 1; }
  }

  /** The transform applies exactly when every side with commanded and measured joints has as many of the one
      as of the other, or a single measured value. */
  lemma UsableIff(l: Layout, width: nat)
    requires LayoutOk(l) && DistinctBlocks(l.state) && width >= l.stateDim
    ensures Usable(PairsOf(l, |l.slots|), width) <==>
            forall k: nat, e: nat :: Measures(l, k, e) && l.slots[k].field == Qd ==>
              var have, want := l.state[e].stop - l.state[e].start, l.slots[k].stop - l.slots[k].start;
              have == want || have == 1
  {
    var pairs := PairsOf(l, |l.slots|);
    forall k: nat, e: nat | Measures(l, k, e) && l.slots[k].field == Qd
      ensures Pair(l.state[e].start, l.state[e].stop, l.slots[k].start, l.slots[k].stop) in pairs
    {
      PairIs(l, k, e);
      var m := PairListed(l, |l.slots|, k);
    }
    forall p | 0 <= p < |pairs|
      ensures pairs[p].from <= pairs[p].end <= width
      ensures exists k: nat, e: nat :: Measures(l, k, e) && l.slots[k].field == Qd
                && pairs[p] == Pair(l.state[e].start, l.state[e].stop, l.slots[k].start, l.slots[k].stop)
    {
      var k := PairSource(l, |l.slots|, p);
      var found := Find(l.state, Key(l.slots[k].side, "q"));
      var e :| 0 <= e < |l.state| && l.state[e] == found.value;
      assert Measures(l, k, e);
    }
  }
}
