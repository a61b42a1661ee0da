/** The bound on appends during one `Latest` call cannot be lowered: for every capacity there is an
    interleaving with exactly `4 * (capacity - 1)` completed appends after which `Latest` has failed
    but left a vector mixed from two rows, and the control loop adopts it. */
module TornRead {
  import opened Reals
  import opened Seqlock
  import opened Controller

  ghost predicate Reaches(s: System, s': System) {
    Inv(s) && exists actions :: Runs(s, actions, s')
  }

  lemma RunsCons(s: System, a: seq<Action>, b: seq<Action>, s2: System)
    requires Inv(s) && a != [] && Inv(Apply(s, a[0])) && Runs(Apply(s, a[0]), a[1..] + b, s2)
    ensures Runs(s, a + b, s2)
  {
    assert (a + b)[0] == a[0] && (a + b)[1..] == a[1..] + b;
  }

  lemma {:induction false} RunsConcat(s: System, a: seq<Action>, s1: System, b: seq<Action>, s2: System)
    requires Inv(s) && Runs(s, a, s1) && Inv(s1) && Runs(s1, b, s2)
    ensures Runs(s, a + b, s2)
    decreases |a|
  {
    if a == [] {
      assert a + b == b;
    } else {
      RunsConcat(Apply(s, a[0]), a[1..], s1, b, s2);
      RunsCons(s, a, b, s2);
    }
  }

  lemma ReachesTransitive(s: System, s1: System, s2: System)
    requires Reaches(s, s1) && Reaches(s1, s2)
    ensures Reaches(s, s2)
  {
    var a :| Runs(s, a, s1);
    var b :| Runs(s1, b, s2);
    RunsConcat(s, a, s1, b, s2);
  }

  lemma Act(s: System, a: Action) returns (s': System)
    requires Inv(s)
    ensures s' == Apply(s, a) && Inv(s') && Reaches(s, s')
  {
    ApplyKeepsInv(s, a);
    s' := Apply(s, a);
    assert [a][1..] == [];
    assert Runs(s', [], s');
    assert Runs(s, [a], s');
  }

  /** Reader 0 takes one step. */
  lemma StepReader(s: System) returns (s': System)
    requires Inv(s) && |s.readers| > 0
    ensures Reaches(s, s') && Inv(s') && s'.mem == s.mem && |s'.readers| > 0
    ensures s'.readers[0] == Read(s.mem, s.readers[0])
  {
    s' := Act(s, ReaderAct(0));
  }

  // ---- The writer, while the readers wait --------------------------------------------------

  /** Only the writer moved. */
  ghost predicate WriterOnly(s: System, s': System) {
    && Reaches(s, s') && Inv(s') && s'.readers == s.readers
    && s'.mem.capacity == s.mem.capacity && s'.mem.dim == s.mem.dim
  }

  /** The log grew by copies of `e` only. */
  ghost predicate OnlyAdds(m: Memory, m': Memory, e: Entry) {
    m.log <= m'.log && forall i :: |m.log| <= i < |m'.log| ==> m'.log[i] == e
  }

  lemma OnlyAddsTransitive(m: Memory, m1: Memory, m2: Memory, e: Entry)
    requires OnlyAdds(m, m1, e) && OnlyAdds(m1, m2, e)
    ensures OnlyAdds(m, m2, e)
  {
  }

  lemma WriterOnlyTransitive(s: System, s1: System, s2: System)
    requires WriterOnly(s, s1) && WriterOnly(s1, s2)
    ensures WriterOnly(s, s2)
  {
    ReachesTransitive(s, s1, s2);
  }

  lemma {:induction false} CopyWords(s: System, k: nat) returns (s': System)
    requires Inv(s) && s.mem.writer == Copying(k)
    ensures WriterOnly(s, s') && s'.mem.writer == Copying(s.mem.dim) && s'.mem.count == s.mem.count && s'.mem.log == s.mem.log
    decreases s.mem.dim - k
  {
    if k == s.mem.dim {
      assert Runs(s, [], s);
      s' := s;
    } else {
      var s1 := Act(s, WriterAct);
      s' := CopyWords(s1, k + 1);
      WriterOnlyTransitive(s, s1, s');
    }
  }

  /** The writer is in the middle of a row: all words copied, stamp still invalid. */
  ghost predicate MidRow(m: Memory, e: Entry) {
    MemoryInv(m) && m.writer == Copying(m.dim) && |m.log| == m.count + 1 && m.log[m.count] == e
  }

  lemma BeginRow(s: System, e: Entry) returns (s': System)
    requires Inv(s) && s.mem.writer.Resting? && |e.values| == s.mem.dim
    ensures WriterOnly(s, s') && MidRow(s'.mem, e) && s'.mem.count == s.mem.count && OnlyAdds(s.mem, s'.mem, e)
  {
    var s1 := Act(s, AppendAct(e));
    s' := CopyWords(s1, 0);
    WriterOnlyTransitive(s, s1, s');
  }

  lemma FinishRow(s: System, e: Entry) returns (s': System)
    requires Inv(s) && MidRow(s.mem, e)
    ensures WriterOnly(s, s') && s'.mem.writer.Resting? && s'.mem.count == s.mem.count + 1 && s'.mem.log == s.mem.log
  {
    var s1 := Act(s, WriterAct);
    var s2 := Act(s1, WriterAct);
    s' := Act(s2, WriterAct);
    ReachesTransitive(s, s1, s2);
    ReachesTransitive(s, s2, s');
  }

  lemma {:induction false} AppendRows(s: System, e: Entry, n: nat) returns (s': System)
    requires Inv(s) && s.mem.writer.Resting? && |e.values| == s.mem.dim
    ensures WriterOnly(s, s') && s'.mem.writer.Resting? && s'.mem.count == s.mem.count + n && OnlyAdds(s.mem, s'.mem, e)
    decreases n
  {
    if n == 0 {
      assert Runs(s, [], s);
      s' := s;
    } else {
      var s1 := BeginRow(s, e);
      var s2 := FinishRow(s1, e);
      WriterOnlyTransitive(s, s1, s2);
      s' := AppendRows(s2, e, n - 1);
      WriterOnlyTransitive(s, s2, s');
      OnlyAddsTransitive(s.mem, s2.mem, s'.mem, e);
    }
  }

  /** In mid row the slot of the row one lap back is invalid and already holds the new words. */
  lemma MidRowOverwrites(m: Memory, e: Entry, index: nat)
    requires MidRow(m, e) && m.count == index + m.capacity
    ensures m.stamps[Slot(m, index)] == -1 && m.data[Slot(m, index)] == e.values
  {
    assert Slot(m, m.count) == Slot(m, index);
    var row := m.data[Slot(m, index)];
    assert row[..m.dim] == row && e.values[..m.dim] == e.values;
  }

  // ---- The reader's bad luck ---------------------------------------------------------------

  /** Reader 0 is about to start attempt `retry` of a call that began at count `started`. */
  ghost predicate Retrying(s: System, retry: nat, started: nat, torn: seq<real>) {
    && Inv(s) && |s.readers| > 0
    && s.readers[0].job == Latest(retry, started) && s.readers[0].pc.Sample? && s.readers[0].out == torn
  }

  /** The outcome of one failed attempt. */
  ghost predicate AfterAttempt(s: System, retry: nat, started: nat, torn: seq<real>) {
    if retry < RETRIES then Retrying(s, retry, started, torn)
    else Inv(s) && |s.readers| > 0 && s.readers[0].outcome == LatestFailed(torn, started, s.mem.count)
  }

  /** The writer moves on to the middle of the row `capacity - 1` further. */
  lemma WriteOn(s: System, e: Entry) returns (s': System)
    requires Inv(s) && MidRow(s.mem, e)
    ensures WriterOnly(s, s') && MidRow(s'.mem, e) && s'.mem.count == s.mem.count + s.mem.capacity - 1
    ensures OnlyAdds(s.mem, s'.mem, e)
  {
    if s.mem.capacity == 1 {
      assert Runs(s, [], s);
      s' := s;
    } else {
      var s1 := FinishRow(s, e);
      var s2 := AppendRows(s1, e, s.mem.capacity - 2);
      s' := BeginRow(s2, e);
      WriterOnlyTransitive(s, s1, s2);
      WriterOnlyTransitive(s, s2, s');
      OnlyAddsTransitive(s.mem, s2.mem, s'.mem, e);
    }
  }

  lemma FirstCheckFails(s: System, retry: nat, started: nat, torn: seq<real>) returns (s': System)
    requires Inv(s) && |s.readers| > 0 && retry < RETRIES
    requires s.readers[0].job == Latest(retry, started) && s.readers[0].pc.First? && s.readers[0].out == torn
    requires s.readers[0].index >= 0 && s.mem.stamps[Slot(s.mem, s.readers[0].index)] == -1
    ensures Reaches(s, s') && AfterAttempt(s', retry + 1, started, torn) && s'.mem == s.mem
  {
    s' := StepReader(s);
  }

  lemma SampleAgain(s: System, retry: nat, started: nat, torn: seq<real>) returns (s': System)
    requires Retrying(s, retry, started, torn) && s.mem.count > 0
    ensures Reaches(s, s') && Inv(s') && s'.mem == s.mem && |s'.readers| > 0
    ensures s'.readers[0] == s.readers[0].(pc := First, index := s.mem.count - 1)
  {
    s' := StepReader(s);
  }

  /** An attempt whose row is recycled between sampling the count and the first stamp check. */
  lemma FailAttempt(s: System, e: Entry, retry: nat, started: nat, torn: seq<real>) returns (s': System)
    requires Retrying(s, retry, started, torn) && retry < RETRIES && MidRow(s.mem, e) && s.mem.count > 0
    ensures Reaches(s, s') && AfterAttempt(s', retry + 1, started, torn)
    ensures MidRow(s'.mem, e) && s'.mem.count == s.mem.count + s.mem.capacity - 1 && s'.mem.capacity == s.mem.capacity
    ensures OnlyAdds(s.mem, s'.mem, e)
  {
    var s1 := SampleAgain(s, retry, started, torn);
    var s2 := WriteOn(s1, e);
    MidRowOverwrites(s2.mem, e, s.mem.count - 1);
    s' := FirstCheckFails(s2, retry, started, torn);
    ReachesTransitive(s, s1, s2);
    ReachesTransitive(s, s2, s');
  }

  /** Reader 0 copies its remaining words from a slot that now holds row `e`. */
  lemma {:induction false} CopyRest(s: System, e: Entry, k: nat) returns (s': System)
    requires Inv(s) && |s.readers| > 0 && s.readers[0].pc == Copy(k) && s.readers[0].index >= 0
    requires s.mem.data[Slot(s.mem, s.readers[0].index)] == e.values
    ensures Reaches(s, s') && Inv(s') && s'.mem == s.mem && |s'.readers| > 0
    ensures s'.readers[0] == s.readers[0].(pc := Copy(s.mem.dim), out := s.readers[0].out[..k] + e.values[k..])
    decreases s.mem.dim - k
  {
    var out := s.readers[0].out;
    Splice(out, e.values, k);
    if k == s.mem.dim {
      assert Runs(s, [], s);
      s' := s;
    } else {
      var s1 := CopyOne(s, e, k);
      s' := CopyRest(s1, e, k + 1);
      ReachesTransitive(s, s1, s');
    }
  }

  lemma CopyOne(s: System, e: Entry, k: nat) returns (s': System)
    requires Inv(s) && |s.readers| > 0 && s.readers[0].pc == Copy(k) && s.readers[0].index >= 0 && k < s.mem.dim
    requires s.mem.data[Slot(s.mem, s.readers[0].index)] == e.values
    ensures Reaches(s, s') && Inv(s') && s'.mem == s.mem && |s'.readers| > 0
    ensures |s.readers[0].out| == |e.values| == s.mem.dim
    ensures s'.readers[0] == s.readers[0].(pc := Copy(k + 1), out := s.readers[0].out[k := e.values[k]])
  {
    s' := StepReader(s);
  }

  lemma Splice(out: seq<real>, row: seq<real>, k: nat)
    requires |out| == |row| && k <= |row|
    ensures k == |row| ==> out[..k] + row[k..] == out
    ensures k < |row| ==> out[k := row[k]][..k + 1] + row[k + 1..] == out[..k] + row[k..]
    ensures k == 1 ==> out[..k] == [out[0]]
  {
  }

  lemma StartCall(s: System) returns (s': System)
    requires Inv(s) && |s.readers| > 0 && s.readers[0].pc.Idle? && s.mem.count > 0
    ensures Reaches(s, s') && Inv(s') && s'.mem == s.mem && |s'.readers| > 0
    ensures var r := s'.readers[0];
            r.job == Latest(0, s.mem.count) && r.pc == First && r.index == s.mem.count - 1
  {
    var s1 := Act(s, LatestAct(0));
    assert Retrying(s1, 0, s.mem.count, []);
    s' := SampleAgain(s1, 0, s.mem.count, []);
    ReachesTransitive(s, s1, s');
  }

  lemma RetainedHolds(m: Memory, i: int)
    requires MemoryInv(m) && Retained(m, i)
    ensures m.stamps[Slot(m, i)] == i && m.data[Slot(m, i)] == m.log[i].values
  {
  }

  lemma CopyFirstWord(s: System) returns (s': System)
    requires Inv(s) && |s.readers| > 0 && s.readers[0].pc.First? && s.mem.dim >= 2
    requires Retained(s.mem, s.readers[0].index)
    ensures Reaches(s, s') && Inv(s') && s'.mem == s.mem && |s'.readers| > 0
    ensures var r := s'.readers[0];
            && r.job == s.readers[0].job && r.index == s.readers[0].index && r.pc == Copy(1)
            && |r.out| == s.mem.dim && r.out[0] == s.mem.log[r.index].values[0]
  {
    RetainedHolds(s.mem, s.readers[0].index);
    var s1 := StepReader(s);
    assert s1.mem == s.mem && s1.readers[0] == s.readers[0].(pc := Copy(0), out := Resized(s.readers[0].out, s.mem.dim));
    s' := StepReader(s1);
    ReachesTransitive(s, s1, s');
  }

  /** A `Latest` call up to and including its first word; then the writer laps the reader. */
  lemma ReadFirstWord(s: System, e: Entry) returns (s': System)
    requires Inv(s) && |s.readers| > 0 && s.readers[0].pc.Idle? && s.mem.writer.Resting?
    requires s.mem.count > 0 && s.mem.dim >= 2 && |e.values| == s.mem.dim
    ensures Reaches(s, s') && Inv(s') && MidRow(s'.mem, e) && |s'.readers| > 0
    ensures s'.mem.capacity == s.mem.capacity && s'.mem.count == s.mem.count + s.mem.capacity - 1 && OnlyAdds(s.mem, s'.mem, e)
    ensures var r := s'.readers[0];
            && r.job == Latest(0, s.mem.count) && r.pc == Copy(1) && r.index == s.mem.count - 1
            && |r.out| == s'.mem.dim && r.out[0] == s.mem.log[s.mem.count - 1].values[0]
  {
    var s1 := StartCall(s);
    var s2 := CopyFirstWord(s1);
    ReachesTransitive(s, s1, s2);
    s' := LapReader(s2, e);
    ReachesTransitive(s, s2, s');
  }

  lemma LapReader(s: System, e: Entry) returns (s': System)
    requires Inv(s) && s.mem.writer.Resting? && |e.values| == s.mem.dim
    ensures WriterOnly(s, s') && MidRow(s'.mem, e) && s'.mem.count == s.mem.count + s.mem.capacity - 1
    ensures OnlyAdds(s.mem, s'.mem, e)
  {
    var s1 := AppendRows(s, e, s.mem.capacity - 1);
    s' := BeginRow(s1, e);
    WriterOnlyTransitive(s, s1, s');
    OnlyAddsTransitive(s.mem, s1.mem, s'.mem, e);
  }

  lemma SecondCheckFails(s: System, started: nat) returns (s': System)
    requires Inv(s) && |s.readers| > 0
    requires s.readers[0].job == Latest(0, started) && s.readers[0].pc == Copy(s.mem.dim)
    requires s.readers[0].index >= 0 && s.mem.stamps[Slot(s.mem, s.readers[0].index)] == -1
    ensures Reaches(s, s') && Retrying(s', 1, started, s.readers[0].out) && s'.mem == s.mem
  {
    var s1 := StepReader(s);
    s' := StepReader(s1);
    ReachesTransitive(s, s1, s');
  }

  /** The first attempt: one word of the old row, then the whole new row arrives. */
  lemma TearAttempt(s: System, e: Entry) returns (s': System)
    requires Inv(s) && |s.readers| > 0 && s.readers[0].pc.Idle? && s.mem.writer.Resting?
    requires s.mem.count > 0 && s.mem.dim >= 2 && |e.values| == s.mem.dim
    ensures Reaches(s, s') && MidRow(s'.mem, e)
    ensures s'.mem.capacity == s.mem.capacity && s'.mem.count == s.mem.count + s.mem.capacity - 1 && OnlyAdds(s.mem, s'.mem, e)
    ensures Retrying(s', 1, s.mem.count, [s.mem.log[s.mem.count - 1].values[0]] + e.values[1..])
  {
    var s1 := ReadFirstWord(s, e);
    MidRowOverwrites(s1.mem, e, s.mem.count - 1);
    Splice(s1.readers[0].out, e.values, 1);
    var s2 := CopyRest(s1, e, 1);
    s' := SecondCheckFails(s2, s.mem.count);
    ReachesTransitive(s, s1, s2);
    ReachesTransitive(s, s2, s');
  }

  /** From any quiet state of a non-empty ring, `Latest` can fail after exactly `4 * (capacity - 1)`
      appends and hand back the first word of the old row glued to the rest of a new one, with only
      copies of the new one appended meanwhile. */
  lemma LatestCanTear(s: System, e: Entry) returns (s': System)
    requires Inv(s) && |s.readers| > 0 && s.readers[0].pc.Idle? && s.mem.writer.Resting?
    requires s.mem.count > 0 && s.mem.dim >= 2 && |e.values| == s.mem.dim
    ensures Reaches(s, s') && Inv(s') && |s'.readers| > 0
    ensures s'.mem.count - s.mem.count == 4 * (s.mem.capacity - 1) && OnlyAdds(s.mem, s'.mem, e)
    ensures s'.readers[0].outcome ==
            LatestFailed([s.mem.log[s.mem.count - 1].values[0]] + e.values[1..], s.mem.count, s'.mem.count)
  {
    var torn := [s.mem.log[s.mem.count - 1].values[0]] + e.values[1..];
    var s1 := TearAttempt(s, e);
    var s2 := FailAttempt(s1, e, 1, s.mem.count, torn);
    var s3 := FailAttempt(s2, e, 2, s.mem.count, torn);
    s' := FailAttempt(s3, e, 3, s.mem.count, torn);
    ReachesTransitive(s, s1, s2);
    ReachesTransitive(s, s2, s3);
    ReachesTransitive(s, s3, s');
    OnlyAddsTransitive(s.mem, s1.mem, s2.mem, e);
    OnlyAddsTransitive(s.mem, s2.mem, s3.mem, e);
    OnlyAddsTransitive(s.mem, s3.mem, s'.mem, e);
  }

  /** The first word of the newest row, then row `e`. */
  function Torn(m: Memory, e: Entry): seq<real>
    requires 0 < m.count <= |m.log| && |m.log[m.count - 1].values| > 0 && |e.values| > 0
  {
    [m.log[m.count - 1].values[0]] + e.values[1..]
  }

  /** The control loop adopts whatever a failed `Latest` left behind while the last good setpoint is still
      within the soft deadman; that is a posted row exactly when the mix happens to be one. */
  lemma TornVectorIsAdopted(c: Settings, s: System, e: Entry, desired: seq<real>, age: int) returns (s': System)
    requires Inv(s) && |s.readers| > 0 && s.readers[0].pc.Idle? && s.mem.writer.Resting?
    requires s.mem.count > 0 && s.mem.dim >= 2 && |e.values| == s.mem.dim
    requires c.dof == s.mem.dim && age <= c.soft
    ensures Reaches(s, s') && |s'.readers| > 0 && s'.readers[0].outcome.LatestFailed?
    ensures Adopted(c, desired, NewestOf(s'.readers[0].outcome), age) == Torn(s.mem, e)
    ensures Posted(s'.mem.log, c.dof, Torn(s.mem, e)) ==>
              Torn(s.mem, e) == e.values || exists i :: 0 <= i < |s.mem.log| && s.mem.log[i].values == Torn(s.mem, e)
  {
    s' := LatestCanTear(s, e);
    var torn := Torn(s.mem, e);
    assert torn[..c.dof] == torn;
    if i :| 0 <= i < |s'.mem.log| && |s'.mem.log[i].values| >= c.dof && s'.mem.log[i].values[..c.dof] == torn {
      assert |s'.mem.log[i].values| == c.dof;
      assert s'.mem.log[i].values == s'.mem.log[i].values[..c.dof];
      assert i < |s.mem.log| ==> s.mem.log[i] == s'.mem.log[i];
    }
  }

  // ---- First words ---------------------------------------------------------------------------

  /** `x` is the first word of some row. */
  ghost predicate FirstWord(log: seq<Entry>, x: real) {
    exists j :: 0 <= j < |log| && |log[j].values| > 0 && log[j].values[0] == x
  }

  /** A vector a reader holds between attempts: untouched, or with a first word out of the log. */
  ghost predicate OutOk(m: Memory, out: seq<real>) {
    out == [] || (|out| == m.dim && FirstWord(m.log, out[0]))
  }

  /** Every slot that was ever stamped has the first word of some row. */
  ghost predicate SlotWords(m: Memory)
    requires Shaped(m)
  {
    m.dim > 0 ==> forall i :: Seen(m, i) ==> FirstWord(m.log, m.data[Slot(m, i)][0])
  }

  ghost predicate ReaderWords(m: Memory, r: Reader) {
    && (r.pc.Sample? || r.pc.First? || r.pc.Second? || (r.pc.Copy? && r.pc.next > 0) ==> OutOk(m, r.out))
    && (r.outcome.LatestFailed? ==> OutOk(m, r.outcome.values))
  }

  ghost predicate Words(s: System)
    requires Shaped(s.mem)
  {
    SlotWords(s.mem) && forall k :: 0 <= k < |s.readers| ==> ReaderWords(s.mem, s.readers[k])
  }

  lemma FirstWordStays(log: seq<Entry>, log': seq<Entry>, x: real)
    requires log <= log' && FirstWord(log, x)
    ensures FirstWord(log', x)
  {
    var j :| 0 <= j < |log| && |log[j].values| > 0 && log[j].values[0] == x;
    assert log'[j] == log[j];
  }

  lemma WriterKeepsWords(m: Memory, m': Memory, r: Reader)
    requires m.log <= m'.log && m.dim == m'.dim && ReaderWords(m, r)
    ensures ReaderWords(m', r)
  {
    if |r.out| > 0 && OutOk(m, r.out) { FirstWordStays(m.log, m'.log, r.out[0]); }
    if r.outcome.LatestFailed? && |r.outcome.values| > 0 { FirstWordStays(m.log, m'.log, r.outcome.values[0]); }
  }

  lemma BeginKeepsSlots(m: Memory, e: Entry)
    requires MemoryInv(m) && SlotWords(m)
    ensures MemoryInv(Begin(m, e)) && SlotWords(Begin(m, e))
  {
    BeginKeepsMemory(m, e);
    var m' := Begin(m, e);
    if m.dim > 0 {
      forall i | Seen(m', i) ensures FirstWord(m'.log, m'.data[Slot(m', i)][0]) {
        assert Seen(m, i);
        FirstWordStays(m.log, m'.log, m.data[Slot(m, i)][0]);
      }
    }
  }

  lemma AdvanceKeepsSlots(m: Memory)
    requires MemoryInv(m) && SlotWords(m)
    ensures MemoryInv(Advance(m)) && SlotWords(Advance(m))
  {
    AdvanceKeepsMemory(m);
    var m' := Advance(m);
    if m.dim > 0 {
      forall i | Seen(m', i) ensures FirstWord(m'.log, m'.data[Slot(m', i)][0]) {
        AdvanceKeepsSlot(m, i);
      }
    }
  }

  lemma AdvanceKeepsSlot(m: Memory, i: int)
    requires MemoryInv(m) && SlotWords(m) && m.dim > 0 && Seen(Advance(m), i) && Shaped(Advance(m))
    ensures FirstWord(Advance(m).log, Advance(m).data[Slot(Advance(m), i)][0])
  {
    var m', s := Advance(m), Slot(m, m.count);
    if !m.writer.Resting? && Slot(m, i) == s && m'.data[s][0] == m.log[m.count].values[0] {
      assert FirstWord(m'.log, m.log[m.count].values[0]);
    } else {
      assert Seen(m, i);
    }
  }

  lemma ReadKeepsWords(m: Memory, r: Reader)
    requires MemoryInv(m) && ReaderInv(m, r) && SlotWords(m) && ReaderWords(m, r)
    ensures ReaderWords(m, Read(m, r))
  {
    if r.pc == Copy(0) && m.dim > 0 {
      assert Seen(m, r.index);
    }
  }

  lemma StartKeepsWords(m: Memory, r: Reader, index: int)
    requires ReaderWords(m, r)
    ensures ReaderWords(m, StartRead(r, index)) && ReaderWords(m, StartLatest(m, r)) && ReaderWords(m, StartPoll(r))
  {
  }

  lemma MemoryMoves(s: System, m: Memory)
    requires Shaped(s.mem) && Shaped(m) && Words(s) && s.mem.log <= m.log && s.mem.dim == m.dim && SlotWords(m)
    ensures Words(s.(mem := m))
  {
    forall k | 0 <= k < |s.readers| ensures ReaderWords(m, s.readers[k]) {
      WriterKeepsWords(s.mem, m, s.readers[k]);
    }
  }

  lemma ReaderMoves(s: System, k: nat, r: Reader)
    requires Shaped(s.mem) && Words(s) && k < |s.readers| && ReaderWords(s.mem, r)
    ensures Words(s.(readers := s.readers[k := r]))
  {
  }

  lemma StepKeepsWords(s: System, a: Action)
    requires Inv(s) && Words(s)
    ensures Shaped(Apply(s, a).mem) && Words(Apply(s, a))
  {
    match a
    case AppendAct(e) =>
      BeginKeepsSlots(s.mem, e);
      MemoryMoves(s, Begin(s.mem, e));
    case WriterAct =>
      AdvanceKeepsSlots(s.mem);
      MemoryMoves(s, Advance(s.mem));
    case ReadAct(k, i) => if k < |s.readers| {
      StartKeepsWords(s.mem, s.readers[k], i);
      ReaderMoves(s, k, StartRead(s.readers[k], i));
    }
    case LatestAct(k) => if k < |s.readers| {
      StartKeepsWords(s.mem, s.readers[k], 0);
      ReaderMoves(s, k, StartLatest(s.mem, s.readers[k]));
    }
    case PollAct(k) => if k < |s.readers| {
      StartKeepsWords(s.mem, s.readers[k], 0);
      ReaderMoves(s, k, StartPoll(s.readers[k]));
    }
    case ReaderAct(k) => if k < |s.readers| {
      ReadKeepsWords(s.mem, s.readers[k]);
      ReaderMoves(s, k, Read(s.mem, s.readers[k]));
    }
  }

  /** Over every run, what a failed call leaves behind is nothing, or begins with the first word of a row. */
  lemma {:induction false} RunKeepsWords(s: System, actions: seq<Action>, s': System)
    requires Inv(s) && Runs(s, actions, s') && (Init(s) || Words(s))
    ensures Inv(s') && Words(s')
    decreases |actions|
  {
    if actions != [] {
      ApplyKeepsInv(s, actions[0]);
      StepKeepsWords(s, actions[0]);
      RunKeepsWords(Apply(s, actions[0]), actions[1..], s');
    }
  }

  // ---- The exact threshold -------------------------------------------------------------------

  /** In every run of a ring of this shape, whatever the loop adopts from a `Latest` call with at most `n`
      appends is one whole posted row, if its target was one before. */
  ghost predicate AlwaysAdoptsPosted(c: Settings, capacity: nat, dim: nat, n: nat) {
    forall s, actions, s', who, desired, age ::
      Init(s) && s.mem.capacity == capacity && s.mem.dim == dim && Runs(s, actions, s') && 0 <= who < |s'.readers|
      && CallWithin(s'.readers[who].outcome, n) && Posted(s'.mem.log, c.dof, desired) ==>
        Posted(s'.mem.log, c.dof, Adopted(c, desired, NewestOf(s'.readers[who].outcome), age))
  }

  /** A created ring with one reader. */
  function NewRing(capacity: nat, dim: nat): System {
    System(Memory(capacity, dim, 0, seq(capacity, _ => -1), seq(capacity, _ => 0), seq(capacity, _ => Zeros(dim)), Resting, []), [FRESH_READER])
  }

  function Ones(n: nat): (z: seq<real>)
    ensures |z| == n && forall i :: 0 <= i < n ==> z[i] == 1.0
  {
    seq(n, _ => 1.0)
  }

  /** Every row is all zeros or all ones. */
  ghost predicate ZerosAndOnes(log: seq<Entry>, dim: nat) {
    forall i :: 0 <= i < |log| ==> log[i].values == Zeros(dim) || log[i].values == Ones(dim)
  }

  /** From a new ring, with rows of zeros and then of ones only: a call of exactly the bound that leaves a
      zero followed by ones, which begins no posted row. */
  lemma TornCallReachable(capacity: nat, dim: nat) returns (s': System)
    requires capacity > 0 && dim >= 2
    ensures Init(NewRing(capacity, dim)) && Reaches(NewRing(capacity, dim), s') && Inv(s') && |s'.readers| > 0
    ensures s'.readers[0].outcome.LatestFailed? && CallWithin(s'.readers[0].outcome, AppendBound(capacity))
    ensures s'.readers[0].outcome.values == [0.0] + Ones(dim)[1..]
    ensures ZerosAndOnes(s'.mem.log, dim) && |s'.mem.log| > 0 && s'.mem.log[0].values == Zeros(dim)
  {
    var s0, zeros, ones := NewRing(capacity, dim), Entry(Zeros(dim), 0), Entry(Ones(dim), 0);
    var s1 := AppendRows(s0, zeros, 1);
    assert s1.mem.log == [zeros];
    s' := LatestCanTear(s1, ones);
    ReachesTransitive(s0, s1, s');
    assert s'.mem.log[0] == s1.mem.log[0];
  }

  /** A zero followed by ones is not the beginning of a row of zeros or of ones. */
  lemma MixedIsNotPosted(log: seq<Entry>, dim: nat, dof: nat)
    requires 2 <= dof <= dim && ZerosAndOnes(log, dim)
    ensures !Posted(log, dof, ([0.0] + Ones(dim)[1..])[..dof])
  {
    var mixed := ([0.0] + Ones(dim)[1..])[..dof];
    assert mixed[0] == 0.0 && mixed[1] == 1.0;
    forall i | 0 <= i < |log| && |log[i].values| >= dof ensures log[i].values[..dof] != mixed {
      assert log[i].values[..dof][0] == log[i].values[0] && log[i].values[..dof][1] == log[i].values[1];
    }
  }

  lemma HonestCallAdoptsPosted(c: Settings, posted: seq<Entry>, desired: seq<real>, newest: Newest, age: int)
    requires Honest(posted, newest) && Posted(posted, c.dof, desired)
    ensures Posted(posted, c.dof, Adopted(c, desired, newest, age))
  {
  }

  /** When a vector of at most one word per row cannot be mixed, or rows are too narrow to be adopted, no number
      of appends does harm. */
  lemma NarrowCallAdoptsPosted(c: Settings, m: Memory, o: Outcome, desired: seq<real>, age: int)
    requires (c.dof <= 1 || c.dof > m.dim) && Posted(m.log, c.dof, desired) && (forall j :: 0 <= j < |m.log| ==> |m.log[j].values| == m.dim)
    requires o.LatestFailed? && OutOk(m, o.values)
    ensures Posted(m.log, c.dof, Adopted(c, desired, NewestOf(o), age))
  {
    if o.values != [] && c.dof == 1 {
      var j :| 0 <= j < |m.log| && |m.log[j].values| > 0 && m.log[j].values[0] == o.values[0];
      assert m.log[j].values[..1] == o.values[..1];
    }
  }

  /** Exactly when every adopted target is one whole posted row, for every ring and robot: in every run with
      at most `n` appends per call this holds if and only if `n < 4 * (capacity - 1)`, or a row has at most one
      joint to adopt, or rows are narrower than the robot. */
  lemma ThresholdIsExact(c: Settings, capacity: nat, dim: nat, n: nat)
    requires capacity > 0
    ensures AlwaysAdoptsPosted(c, capacity, dim, n) <==> n < 4 * (capacity - 1) || c.dof <= 1 || c.dof > dim
  {
    if n < 4 * (capacity - 1) || c.dof <= 1 || c.dof > dim {
      forall s, actions, s', who, desired, age |
        Init(s) && s.mem.capacity == capacity && s.mem.dim == dim && Runs(s, actions, s') && 0 <= who < |s'.readers|
        && CallWithin(s'.readers[who].outcome, n) && Posted(s'.mem.log, c.dof, desired)
        ensures Posted(s'.mem.log, c.dof, Adopted(c, desired, NewestOf(s'.readers[who].outcome), age))
      {
        AdoptionHolds(c, n, s, actions, s', who, desired, age);
      }
    } else {
      AdoptionFails(c, capacity, dim, n);
    }
  }

  lemma AdoptionHolds(c: Settings, n: nat, s: System, actions: seq<Action>, s': System, who: nat, desired: seq<real>, age: int)
    requires Init(s) && Runs(s, actions, s') && who < |s'.readers| && CallWithin(s'.readers[who].outcome, n)
    requires Posted(s'.mem.log, c.dof, desired) && (n < 4 * (s.mem.capacity - 1) || c.dof <= 1 || c.dof > s.mem.dim)
    ensures Posted(s'.mem.log, c.dof, Adopted(c, desired, NewestOf(s'.readers[who].outcome), age))
  {
    RunKeepsInv(s, actions, s');
    var o := s'.readers[who].outcome;
    if o.LatestDone? || n < 4 * (s.mem.capacity - 1) {
      CallIsHonest(s', who);
      HonestCallAdoptsPosted(c, s'.mem.log, desired, NewestOf(o), age);
    } else {
      RunKeepsWords(s, actions, s');
      NarrowCallAdoptsPosted(c, s'.mem, o, desired, age);
    }
  }

  /** From that many appends on, some run makes the loop leave a posted target for one that is none. */
  lemma AdoptionFails(c: Settings, capacity: nat, dim: nat, n: nat)
    requires capacity > 0 && 2 <= c.dof <= dim && n >= 4 * (capacity - 1)
    ensures !AlwaysAdoptsPosted(c, capacity, dim, n)
  {
    var s' := TornCallReachable(capacity, dim);
    var s := NewRing(capacity, dim);
    var actions :| Runs(s, actions, s');
    var desired := Zeros(dim)[..c.dof];
    assert s'.mem.log[0].values[..c.dof] == desired;
    MixedIsNotPosted(s'.mem.log, dim, c.dof);
    assert !Posted(s'.mem.log, c.dof, Adopted(c, desired, NewestOf(s'.readers[0].outcome), c.soft));
    assert CallWithin(s'.readers[0].outcome, n);
  }
}
