/** The lock-free ring as an interleaving of the small steps its writer and readers take.

    One writer appends rows word by word; any number of readers run `ReadAt`, `Latest` and
    `StopCommandPending` at the same time, one shared-memory access per step. Steps are
    sequentially consistent. `log` and the fields marked "history" are never read by a step:
    they only remember the past so that results can be stated about it. */
module Seqlock {
  import opened Reals
  import opened Message

  datatype Entry = Entry(values: seq<real>, time: int)

  /** Where the writer is inside `Append`; the row in flight is `log[count]`. */
  datatype Writer = Resting | Copying(next: nat) | Stamping | Publishing

  datatype Memory = Memory(
    capacity: nat,
    dim: nat,
    count: nat,            // published write count
    stamps: seq<int>,      // per-slot index, -1 while invalid
    times: seq<int>,
    data: seq<seq<real>>,
    writer: Writer,
    log: seq<Entry>)       // history: every row ever handed to Append

  /** The remainder of `index` by `capacity`, as repeated subtraction of one lap. */
  function Wrapped(capacity: nat, index: nat): (s: nat)
    requires capacity > 0
    ensures s < capacity
    decreases index
  {
    if index < capacity then index else Wrapped(capacity, index - capacity)
  }

  function Slot(m: Memory, index: int): (s: nat)
    requires m.capacity > 0 && index >= 0
    ensures s < m.capacity
  {
    Wrapped(m.capacity, index)
  }

  // ---- Invariant of the shared memory --------------------------------------------------

  ghost predicate Shaped(m: Memory) {
    && m.capacity > 0
    && |m.stamps| == |m.times| == |m.data| == m.capacity
    && (forall s :: 0 <= s < m.capacity ==> |m.data[s]| == m.dim)
    && |m.log| == m.count + (if m.writer.Resting? then 0 else 1)
    && (forall j :: 0 <= j < |m.log| ==> |m.log[j].values| == m.dim)
  }

  /** Row `i` has been stamped at some time in the past. */
  ghost predicate Seen(m: Memory, i: int) {
    0 <= i < |m.log| && (i < m.count || m.writer.Publishing?)
  }

  /** A valid stamp tells the truth about its slot. */
  ghost predicate StampsHonest(m: Memory)
    requires Shaped(m)
  {
    forall s :: 0 <= s < m.capacity && m.stamps[s] != -1 ==>
      var j := m.stamps[s];
      Seen(m, j) && Slot(m, j) == s && m.data[s] == m.log[j].values && m.times[s] == m.log[j].time
  }

  /** Row `i` is published and its slot has not been claimed again. */
  ghost predicate Retained(m: Memory, i: int) {
    0 <= i < m.count && (m.count < i + m.capacity || (m.count == i + m.capacity && m.writer.Resting?))
  }

  ghost predicate RetainedStamped(m: Memory)
    requires Shaped(m)
  {
    forall i :: Retained(m, i) ==> m.stamps[Slot(m, i)] == i
  }

  ghost predicate WriterConsistent(m: Memory)
    requires Shaped(m)
  {
    var s := Slot(m, m.count);
    match m.writer
    case Resting => true
    case Copying(k) =>
      k <= m.dim && m.stamps[s] == -1 && m.data[s][..k] == m.log[m.count].values[..k]
    case Stamping =>
      m.stamps[s] == -1 && m.data[s] == m.log[m.count].values && m.times[s] == m.log[m.count].time
    case Publishing => m.stamps[s] == m.count
  }

  ghost predicate MemoryInv(m: Memory) {
    Shaped(m) && StampsHonest(m) && RetainedStamped(m) && WriterConsistent(m)
  }

  /** A ring as `SharedRingBuffer.create` leaves it. */
  ghost predicate Created(m: Memory) {
    && Shaped(m) && m.count == 0 && m.writer.Resting?
    && forall s :: 0 <= s < m.capacity ==> m.stamps[s] == -1
  }

  // ---- The writer ------------------------------------------------------------------------

  /** First store of `Append`: invalidate the slot. A row of the wrong width is rejected. */
  function Begin(m: Memory, e: Entry): Memory
    requires m.capacity > 0 && |m.stamps| == m.capacity
  {
    if m.writer.Resting? && |e.values| == m.dim then
      m.(stamps := m.stamps[Slot(m, m.count) := -1], writer := Copying(0), log := m.log + [e])
    else m
  }

  /** The writer's next store: one payload word, the time, the stamp or the write count. */
  function Advance(m: Memory): Memory
    requires Shaped(m)
  {
    var s := Slot(m, m.count);
    match m.writer
    case Resting => m
    case Copying(k) =>
      if k < m.dim then
        m.(data := m.data[s := m.data[s][k := m.log[m.count].values[k]]], writer := Copying(k + 1))
      else
        m.(times := m.times[s := m.log[m.count].time], writer := Stamping)
    case Stamping => m.(stamps := m.stamps[s := m.count], writer := Publishing)
    case Publishing => m.(count := m.count + 1, writer := Resting)
  }

  /** Rows less than one lap apart live in different slots. */
  lemma {:induction false} SlotsDiffer(capacity: nat, i: nat, j: nat)
    requires i < j < i + capacity
    ensures Wrapped(capacity, i) != Wrapped(capacity, j)
    decreases i
  {
    if i >= capacity {
      SlotsDiffer(capacity, i - capacity, j - capacity);
    } else if j >= capacity {
      assert Wrapped(capacity, j) == j - capacity < i;
    }
  }

  lemma BeginKeepsMemory(m: Memory, e: Entry)
    requires MemoryInv(m)
    ensures MemoryInv(Begin(m, e))
  {
    var m' := Begin(m, e);
    if m' != m {
      forall i | Retained(m', i) ensures m'.stamps[Slot(m', i)] == i {
        assert Retained(m, i);
        SlotsDiffer(m.capacity, i, m.count);
      }
      forall s | 0 <= s < m'.capacity && m'.stamps[s] != -1
        ensures m'.data[s] == m'.log[m'.stamps[s]].values
      {
        assert m.stamps[s] == m'.stamps[s];
      }
    }
  }

  lemma AdvanceKeepsMemory(m: Memory)
    requires MemoryInv(m)
    ensures MemoryInv(Advance(m))
  {
    var m' := Advance(m);
    var s0 := Slot(m, m.count);
    match m.writer
    case Resting =>
    case Copying(k) =>
      assert forall i :: Retained(m', i) ==> Retained(m, i);
      if k < m.dim {
        assert m'.data[s0][..k + 1] == m.data[s0][..k] + [m.log[m.count].values[k]];
      } else {
        assert m.data[s0] == m.data[s0][..k];
      }
    case Stamping =>
      forall i | Retained(m', i) ensures m'.stamps[Slot(m', i)] == i {
        assert Retained(m, i);
        SlotsDiffer(m.capacity, i, m.count);
      }
    case Publishing =>
      forall i | Retained(m', i) ensures m'.stamps[Slot(m', i)] == i {
        if i < m.count {
          assert Retained(m, i);
        }
      }
  }

  /** What any writer step leaves intact: history only grows, and a stamp that a reader has
      seen and that is gone never comes back. */
  ghost predicate Evolves(m: Memory, m': Memory)
    requires Shaped(m) && Shaped(m')
  {
    && m'.capacity == m.capacity && m'.dim == m.dim
    && m.count <= m'.count && m.log <= m'.log
    && forall i :: Seen(m, i) ==>
         Seen(m', i) && (m'.stamps[Slot(m', i)] == i ==> m.stamps[Slot(m, i)] == i)
  }

  lemma EvolvesReflexive(m: Memory)
    requires Shaped(m)
    ensures Evolves(m, m)
  {
  }

  lemma EvolvesTransitive(m: Memory, m': Memory, m'': Memory)
    requires Shaped(m) && Shaped(m') && Shaped(m'')
    requires Evolves(m, m') && Evolves(m', m'')
    ensures Evolves(m, m'')
  {
  }

  lemma WriterEvolves(m: Memory, e: Entry)
    requires MemoryInv(m)
    ensures MemoryInv(Begin(m, e)) && Evolves(m, Begin(m, e))
    ensures MemoryInv(Advance(m)) && Evolves(m, Advance(m))
  {
    BeginKeepsMemory(m, e);
    AdvanceKeepsMemory(m);
  }

  // ---- The readers -----------------------------------------------------------------------

  const RETRIES := 4

  /** What a reader is doing; `began` is how many rows had been examined when the poll started. */
  datatype Job = Direct | Latest(retry: nat, started: nat) | StopPoll(limit: nat, began: nat)

  datatype Pc = Idle | Sample | First | Copy(next: nat) | Second(time: int)

  /** What a call returned. Histories: `started` and `finished` are write counts at its first and last step; a poll
      examined `examined[began..ended]`, left its cursor at `cursor` and read up to `limit`. */
  datatype Outcome =
    | Nothing
    | ReadDone(ok: bool, index: int, values: seq<real>, time: int, finished: nat)
    | LatestDone(index: int, values: seq<real>, time: int, started: nat, previous: int)
    | LatestFailed(values: seq<real>, started: nat, finished: nat)
    | PollDone(pending: bool, began: nat, ended: nat, cursor: nat, limit: nat, finished: nat)

  datatype Reader = Reader(
    job: Job,
    pc: Pc,
    index: int,            // row being read
    out: seq<real>,        // the caller's vector
    cursor: nat,           // StopCommandPending's cursor, kept between calls
    outcome: Outcome,      // what the last finished call returned
    best: int,             // history: index the last successful Latest returned, or -1
    examined: seq<nat>,    // history: rows StopCommandPending looked at, in order
    reported: set<nat>)    // history: rows for which it returned true

  const FRESH_READER := Reader(Direct, Idle, -1, [], 0, Nothing, -1, [], {})

  function StartRead(r: Reader, index: int): Reader {
    if r.pc.Idle? then r.(job := Direct, pc := First, index := index, out := []) else r
  }

  function StartLatest(m: Memory, r: Reader): Reader {
    if r.pc.Idle? then r.(job := Latest(0, m.count), pc := Sample, out := []) else r
  }

  function StartPoll(r: Reader): Reader {
    if r.pc.Idle? then r.(job := StopPoll(0, |r.examined|), pc := Sample, out := []) else r
  }

  /** `ReadAt` returned false. */
  function ReadFails(m: Memory, r: Reader): Reader {
    match r.job
    case Direct => r.(pc := Idle, outcome := ReadDone(false, r.index, r.out, 0, m.count))
    case Latest(retry, started) =>
      if retry + 1 < RETRIES then r.(job := Latest(retry + 1, started), pc := Sample)
      else r.(pc := Idle, outcome := LatestFailed(r.out, started, m.count))
    case StopPoll(_, _) => PollEnds(m, r, false)
  }

  /** `ReadAt` returned true with `r.out` and `time`. */
  function ReadSucceeds(m: Memory, r: Reader, time: int): Reader {
    match r.job
    case Direct => r.(pc := Idle, outcome := ReadDone(true, r.index, r.out, time, m.count))
    case Latest(_, started) =>
      r.(pc := Idle, outcome := LatestDone(r.index, r.out, time, started, r.best), best := r.index)
    case StopPoll(_, _) =>
      var r' := r.(cursor := r.cursor + 1, examined := r.examined + [r.cursor]);
      if IsStopRow(r.out) then PollEnds(m, r'.(reported := r.reported + {r.cursor}), true)
      else NextRow(m, r')
  }

  /** `StopCommandPending` returns. */
  function PollEnds(m: Memory, r: Reader, pending: bool): Reader
    requires r.job.StopPoll?
  {
    r.(pc := Idle, outcome := PollDone(pending, r.job.began, |r.examined|, r.cursor, r.job.limit, m.count))
  }

  /** Loop head of `StopCommandPending`. */
  function NextRow(m: Memory, r: Reader): Reader
    requires r.job.StopPoll?
  {
    if r.cursor < r.job.limit then r.(pc := First, index := r.cursor)
    else PollEnds(m, r, false)
  }

  function SampleCount(m: Memory, r: Reader): Reader {
    match r.job
    case Direct => r
    case Latest(_, started) =>
      if m.count <= 0 then r.(pc := Idle, outcome := LatestFailed(r.out, started, m.count))
      else r.(pc := First, index := m.count - 1)
    case StopPoll(_, began) =>
      var lapped := m.count - r.cursor > m.capacity;
      NextRow(m, r.(job := StopPoll(m.count, began), cursor := if lapped then m.count - m.capacity else r.cursor))
  }

  /** `out.resize(dim)`: keeps what fits, pads with zeros. */
  function Resized(out: seq<real>, dim: nat): (r: seq<real>)
    ensures |r| == dim
  {
    if |out| >= dim then out[..dim] else out + Zeros(dim - |out|)
  }

  /** One access of a reader to shared memory. */
  function Read(m: Memory, r: Reader): Reader
    requires Shaped(m)
    requires r.pc.Copy? ==> r.index >= 0 && |r.out| == m.dim
    requires r.pc.Second? ==> r.index >= 0
  {
    match r.pc
    case Idle => r
    case Sample => SampleCount(m, r)
    case First =>
      if r.index < 0 || m.stamps[Slot(m, r.index)] != r.index then ReadFails(m, r)
      else r.(pc := Copy(0), out := Resized(r.out, m.dim))
    case Copy(k) =>
      if k < m.dim then r.(pc := Copy(k + 1), out := r.out[k := m.data[Slot(m, r.index)][k]])
      else r.(pc := Second(m.times[Slot(m, r.index)]))
    case Second(t) =>
      if m.stamps[Slot(m, r.index)] != r.index then ReadFails(m, r) else ReadSucceeds(m, r, t)
  }

  // ---- Invariant of one reader -----------------------------------------------------------

  /** `retry` failed attempts have cost at least this many completed appends. */
  function Laps(capacity: nat, retry: nat): (n: int) {
    if retry == 0 then 0 else Laps(capacity, retry - 1) + capacity - 1
  }

  /** While the stamp still carries `index`, the words copied so far are that row's. */
  ghost predicate CopyInv(m: Memory, r: Reader)
    requires Shaped(m)
  {
    match r.pc
    case Idle => true
    case Sample => true
    case First => true
    case Copy(k) =>
      && Seen(m, r.index) && k <= m.dim && |r.out| == m.dim
      && (m.stamps[Slot(m, r.index)] == r.index ==> r.out[..k] == m.log[r.index].values[..k])
    case Second(t) =>
      && Seen(m, r.index) && |r.out| == m.dim
      && (m.stamps[Slot(m, r.index)] == r.index ==>
            r.out == m.log[r.index].values && t == m.log[r.index].time)
  }

  ghost predicate JobInv(m: Memory, r: Reader) {
    r.pc.Idle? ||
    match r.job
    case Direct => !r.pc.Sample?
    case Latest(retry, started) =>
      && retry < RETRIES && r.best < started <= m.count
      && (retry == 0 && r.pc.Sample? ==> r.out == [])
      && (retry > 0 ==> m.count > 0)
      && (if r.pc.Sample? then m.count >= started + Laps(m.capacity, retry)
          else 0 <= r.index < m.count && r.index + 1 >= started + Laps(m.capacity, retry))
    case StopPoll(limit, _) =>
      r.pc.Sample? || (r.index == r.cursor < limit <= m.count)
  }

  ghost predicate HistoryInv(m: Memory, r: Reader)
    requires Shaped(m)
  {
    && -1 <= r.best < m.count && r.cursor <= m.count
    && (forall a, b :: 0 <= a < b < |r.examined| ==> r.examined[a] < r.examined[b])
    && (forall j :: j in r.examined ==> j < r.cursor)
    && (forall j: nat :: j < r.cursor && j !in r.examined ==> j + m.capacity < m.count)
    && (forall j :: j in r.reported <==> j in r.examined && j < |m.log| && IsStopRow(m.log[j].values))
  }

  /** What the value returned by the last call means. */
  ghost predicate OutcomeInv(m: Memory, o: Outcome) {
    match o
    case Nothing => true
    case ReadDone(ok, index, values, time, finished) =>
      if ok then 0 <= index < |m.log| && m.log[index] == Entry(values, time)
      else finished <= m.count && (index < 0 || finished <= index || finished >= index + m.capacity)
    case LatestDone(index, values, time, started, previous) =>
      && 0 <= index < m.count <= |m.log| && m.log[index] == Entry(values, time)
      && started - 1 <= index && previous <= index
    case LatestFailed(values, started, finished) =>
      && started <= finished <= m.count
      && ((finished == 0 && values == []) || finished >= started + RETRIES * (m.capacity - 1))
    case PollDone(_, _, _, _, _, _) => true
  }

  ghost predicate ReaderInv(m: Memory, r: Reader)
    requires Shaped(m)
  {
    CopyInv(m, r) && JobInv(m, r) && HistoryInv(m, r) && OutcomeInv(m, r.outcome)
  }

  /** Readers do not notice writer steps. */
  lemma WriterKeepsReader(m: Memory, m': Memory, r: Reader)
    requires MemoryInv(m) && MemoryInv(m') && Evolves(m, m')
    requires ReaderInv(m, r)
    ensures ReaderInv(m', r)
  {
    assert forall j :: 0 <= j < |m.log| ==> m'.log[j] == m.log[j];
  }

  /** A published row whose stamp is missing has been lapped. */
  lemma MissingMeansLapped(m: Memory, i: int)
    requires MemoryInv(m) && 0 <= i < m.count
    requires m.stamps[Slot(m, i)] != i
    ensures m.count >= i + m.capacity
  {
    assert !Retained(m, i);
  }

  lemma FailureKeepsReader(m: Memory, r: Reader)
    requires MemoryInv(m) && ReaderInv(m, r)
    requires r.pc.First? || r.pc.Second?
    requires r.index < 0 || m.stamps[Slot(m, r.index)] != r.index
    ensures ReaderInv(m, ReadFails(m, r))
  {
    if 0 <= r.index < m.count { MissingMeansLapped(m, r.index); }
    if r.job.Latest? {
      assert m.count >= r.job.started + Laps(m.capacity, r.job.retry + 1);
      FourLaps(m.capacity);
    }
  }

  lemma SuccessKeepsReader(m: Memory, r: Reader, t: int)
    requires MemoryInv(m) && ReaderInv(m, r)
    requires r.pc == Second(t) && m.stamps[Slot(m, r.index)] == r.index
    ensures ReaderInv(m, ReadSucceeds(m, r, t))
  {
    assert m.log[r.index] == Entry(r.out, t);
    match r.job
    case Direct =>
    case Latest(retry, started) => LapsNonNegative(m.capacity, retry);
    case StopPoll(_, _) => ExaminedKeepsHistory(m, r);
  }

  /** Examining the row under the cursor keeps the history of polls. */
  lemma ExaminedKeepsHistory(m: Memory, r: Reader)
    requires Shaped(m) && HistoryInv(m, r) && r.cursor < m.count && m.log[r.cursor].values == r.out
    ensures var seen := r.(cursor := r.cursor + 1, examined := r.examined + [r.cursor]);
            HistoryInv(m, if IsStopRow(r.out) then seen.(reported := r.reported + {r.cursor}) else seen)
  {
    var examined := r.examined + [r.cursor];
    assert forall a :: 0 <= a < |r.examined| ==> r.examined[a] in r.examined;
    assert forall x :: x in examined <==> x in r.examined || x == r.cursor;
  }

  lemma FourLaps(capacity: nat)
    ensures Laps(capacity, RETRIES) == RETRIES * (capacity - 1)
  {
    assert Laps(capacity, 1) == capacity - 1;
    assert Laps(capacity, 2) == 2 * (capacity - 1);
    assert Laps(capacity, 3) == 3 * (capacity - 1);
  }

  lemma {:induction false} LapsNonNegative(capacity: nat, retry: nat)
    requires capacity > 0
    ensures Laps(capacity, retry) >= 0
  {
    if retry > 0 { LapsNonNegative(capacity, retry - 1); }
  }

  lemma SampleKeepsReader(m: Memory, r: Reader)
    requires MemoryInv(m) && ReaderInv(m, r) && r.pc.Sample?
    ensures ReaderInv(m, SampleCount(m, r))
  {
  }

  lemma CopyKeepsReader(m: Memory, r: Reader)
    requires MemoryInv(m) && ReaderInv(m, r) && r.pc.Copy?
    ensures CopyInv(m, Read(m, r))
  {
    var r', k := Read(m, r), r.pc.next;
    var row := m.log[r.index].values;
    if k < m.dim {
      assert r'.out[..k + 1] == r.out[..k] + [r'.out[k]];
      assert row[..k + 1] == row[..k] + [row[k]];
    } else {
      assert r.out[..k] == r.out && row[..k] == row;
    }
  }

  lemma ReadKeepsReader(m: Memory, r: Reader)
    requires MemoryInv(m) && ReaderInv(m, r)
    ensures ReaderInv(m, Read(m, r))
  {
    match r.pc
    case Idle =>
    case Sample => SampleKeepsReader(m, r);
    case First =>
      if r.index < 0 || m.stamps[Slot(m, r.index)] != r.index { FailureKeepsReader(m, r); }
    case Copy(k) => CopyKeepsReader(m, r);
    case Second(t) =>
      if m.stamps[Slot(m, r.index)] != r.index { FailureKeepsReader(m, r); } else { SuccessKeepsReader(m, r, t); }
  }

  // ---- The whole system ------------------------------------------------------------------

  datatype System = System(mem: Memory, readers: seq<Reader>)

  datatype Action =
    | AppendAct(e: Entry)
    | WriterAct
    | ReadAct(who: nat, index: int)
    | LatestAct(who: nat)
    | PollAct(who: nat)
    | ReaderAct(who: nat)

  ghost predicate Inv(s: System) {
    MemoryInv(s.mem) && forall k :: 0 <= k < |s.readers| ==> ReaderInv(s.mem, s.readers[k])
  }

  ghost predicate Init(s: System)
    ensures Init(s) ==> Inv(s)
  {
    Created(s.mem) && forall k :: 0 <= k < |s.readers| ==> s.readers[k] == FRESH_READER
  }

  /** One scheduling decision. */
  ghost function Apply(s: System, a: Action): (s': System)
    requires Inv(s)
  {
    match a
    case AppendAct(e) => s.(mem := Begin(s.mem, e))
    case WriterAct => s.(mem := Advance(s.mem))
    case ReadAct(k, i) => if k < |s.readers| then s.(readers := s.readers[k := StartRead(s.readers[k], i)]) else s
    case LatestAct(k) => if k < |s.readers| then s.(readers := s.readers[k := StartLatest(s.mem, s.readers[k])]) else s
    case PollAct(k) => if k < |s.readers| then s.(readers := s.readers[k := StartPoll(s.readers[k])]) else s
    case ReaderAct(k) => if k < |s.readers| then s.(readers := s.readers[k := Read(s.mem, s.readers[k])]) else s
  }

  lemma WriterKeepsInv(s: System, m': Memory)
    requires Inv(s) && MemoryInv(m') && Evolves(s.mem, m')
    ensures Inv(s.(mem := m'))
  {
    forall k | 0 <= k < |s.readers| ensures ReaderInv(m', s.readers[k]) {
      WriterKeepsReader(s.mem, m', s.readers[k]);
    }
  }

  lemma ReaderKeepsInv(s: System, k: nat, r: Reader)
    requires Inv(s) && k < |s.readers| && ReaderInv(s.mem, r)
    ensures Inv(s.(readers := s.readers[k := r]))
  {
  }

  lemma StartKeepsReader(m: Memory, r: Reader, index: int)
    requires MemoryInv(m) && ReaderInv(m, r)
    ensures ReaderInv(m, StartRead(r, index)) && ReaderInv(m, StartLatest(m, r)) && ReaderInv(m, StartPoll(r))
  {
  }

  lemma ApplyKeepsInv(s: System, a: Action)
    requires Inv(s)
    ensures Inv(Apply(s, a)) && Evolves(s.mem, Apply(s, a).mem) && |Apply(s, a).readers| == |s.readers|
  {
    match a
    case AppendAct(e) =>
      WriterEvolves(s.mem, e);
      WriterKeepsInv(s, Begin(s.mem, e));
    case WriterAct =>
      WriterEvolves(s.mem, Entry([], 0));
      WriterKeepsInv(s, Advance(s.mem));
    case ReadAct(k, i) => if k < |s.readers| { StartApplied(s, k, i); }
    case LatestAct(k) => if k < |s.readers| { StartApplied(s, k, 0); }
    case PollAct(k) => if k < |s.readers| { StartApplied(s, k, 0); }
    case ReaderAct(k) => if k < |s.readers| {
      ReadKeepsReader(s.mem, s.readers[k]);
      ReaderKeepsInv(s, k, Read(s.mem, s.readers[k]));
    }
  }

  lemma StartApplied(s: System, k: nat, index: int)
    requires Inv(s) && k < |s.readers|
    ensures Inv(s.(readers := s.readers[k := StartRead(s.readers[k], index)]))
    ensures Inv(s.(readers := s.readers[k := StartLatest(s.mem, s.readers[k])]))
    ensures Inv(s.(readers := s.readers[k := StartPoll(s.readers[k])]))
  {
    var r := s.readers[k];
    StartKeepsReader(s.mem, r, index);
    ReaderKeepsInv(s, k, StartRead(r, index));
    ReaderKeepsInv(s, k, StartLatest(s.mem, r));
    ReaderKeepsInv(s, k, StartPoll(r));
  }

  /** `s'` is reached from `s` by scheduling `actions` in order. */
  ghost predicate Runs(s: System, actions: seq<Action>, s': System)
    requires Inv(s)
    decreases |actions|
  {
    if actions == [] then s' == s
    else Inv(Apply(s, actions[0])) && Runs(Apply(s, actions[0]), actions[1..], s')
  }

  /** Every interleaving keeps the invariant, and history only grows. */
  lemma {:induction false} RunKeepsInv(s: System, actions: seq<Action>, s': System)
    requires Inv(s) && Runs(s, actions, s')
    ensures Inv(s') && Evolves(s.mem, s'.mem) && |s'.readers| == |s.readers|
    decreases |actions|
  {
    if actions == [] {
      EvolvesReflexive(s.mem);
    } else {
      var s1 := Apply(s, actions[0]);
      ApplyKeepsInv(s, actions[0]);
      RunKeepsInv(s1, actions[1..], s');
      EvolvesTransitive(s.mem, s1.mem, s'.mem);
    }
  }

  /** Seqlock correctness: under every interleaving, a `ReadAt` that returns true returned
      exactly the row appended at that index, with its own time. */
  lemma ReadsAreNeverTorn(s: System, actions: seq<Action>, s': System, who: nat)
    requires Init(s) && Runs(s, actions, s') && who < |s'.readers|
    requires s'.readers[who].outcome.ReadDone? && s'.readers[who].outcome.ok
    ensures var o := s'.readers[who].outcome;
            0 <= o.index < |s'.mem.log| && s'.mem.log[o.index] == Entry(o.values, o.time)
  {
    RunKeepsInv(s, actions, s');
  }

  /** A `ReadAt` that returned false was asked for a row that did not exist or was lapped. */
  lemma ReadFailsForCause(s: System, actions: seq<Action>, s': System, who: nat)
    requires Init(s) && Runs(s, actions, s') && who < |s'.readers|
    requires s'.readers[who].outcome.ReadDone? && !s'.readers[who].outcome.ok
    ensures var o := s'.readers[who].outcome;
            o.finished <= s'.mem.count && (o.index < 0 || o.finished <= o.index || o.finished >= o.index + s'.mem.capacity)
  {
    RunKeepsInv(s, actions, s');
  }

  /** `Latest` returns a whole row, no older than the newest one published when the call began
      and no older than any row it returned before. */
  lemma LatestIsFreshAndMonotone(s: System, actions: seq<Action>, s': System, who: nat)
    requires Init(s) && Runs(s, actions, s') && who < |s'.readers|
    requires s'.readers[who].outcome.LatestDone?
    ensures var o := s'.readers[who].outcome;
            && 0 <= o.index < s'.mem.count <= |s'.mem.log| && s'.mem.log[o.index] == Entry(o.values, o.time)
            && o.started - 1 <= o.index && o.previous <= o.index
  {
    RunKeepsInv(s, actions, s');
  }

  /** `Latest` gives up on a ring that is still empty, leaving the vector untouched, or after the writer
      completed four laps less four rows during the call. */
  lemma LatestFailureIsExpensive(s: System, actions: seq<Action>, s': System, who: nat)
    requires Init(s) && Runs(s, actions, s') && who < |s'.readers|
    requires s'.readers[who].outcome.LatestFailed?
    ensures var o := s'.readers[who].outcome;
            && o.started <= o.finished <= s'.mem.count
            && ((o.finished == 0 && o.values == []) || o.finished - o.started >= 4 * (s'.mem.capacity - 1))
  {
    RunKeepsInv(s, actions, s');
  }

  /** No schedule is excluded: every list of actions leads somewhere, and to one state only. */
  lemma {:induction false} EveryScheduleRuns(s: System, actions: seq<Action>) returns (s': System)
    requires Inv(s)
    ensures Runs(s, actions, s') && forall t :: Runs(s, actions, t) ==> t == s'
    decreases |actions|
  {
    if actions == [] {
      s' := s;
    } else {
      ApplyKeepsInv(s, actions[0]);
      s' := EveryScheduleRuns(Apply(s, actions[0]), actions[1..]);
    }
  }

  /** A reader's progress: its cursor and what it has examined, reported and returned only grow. */
  ghost predicate Advanced(r: Reader, r': Reader) {
    r.cursor <= r'.cursor && r.examined <= r'.examined && r.reported <= r'.reported
  }

  lemma ReadOnlyAdvances(m: Memory, r: Reader)
    requires Shaped(m) && (r.pc.Copy? ==> r.index >= 0 && |r.out| == m.dim) && (r.pc.Second? ==> r.index >= 0)
    ensures Advanced(r, Read(m, r))
  {
  }

  lemma StepOnlyAdvances(s: System, a: Action, who: nat)
    requires Inv(s) && who < |s.readers|
    ensures who < |Apply(s, a).readers| && Advanced(s.readers[who], Apply(s, a).readers[who])
  {
    if a.ReaderAct? && a.who < |s.readers| { ReadOnlyAdvances(s.mem, s.readers[a.who]); }
  }

  lemma {:induction false} RunOnlyAdvances(s: System, actions: seq<Action>, s': System, who: nat)
    requires Inv(s) && Runs(s, actions, s') && who < |s.readers|
    ensures who < |s'.readers| && Advanced(s.readers[who], s'.readers[who])
    decreases |actions|
  {
    if actions != [] {
      StepOnlyAdvances(s, actions[0], who);
      RunOnlyAdvances(Apply(s, actions[0]), actions[1..], s', who);
    }
  }

  /** A run can be cut after any number of steps. */
  lemma {:induction false} RunsSplit(s: System, actions: seq<Action>, n: nat, mid: System, s': System)
    requires Inv(s) && n <= |actions| && Runs(s, actions[..n], mid) && Runs(s, actions, s')
    ensures Inv(mid) && Runs(mid, actions[n..], s')
    decreases n
  {
    if n == 0 {
      assert actions[n..] == actions;
    } else {
      var s1, rest := Apply(s, actions[0]), actions[1..];
      assert Inv(s1) && Runs(s1, rest, s');
      assert Runs(s1, rest[..n - 1], mid) by {
        assert actions[..n][0] == actions[0];
        assert actions[..n][1..] == rest[..n - 1];
      }
      RunsSplit(s1, rest, n - 1, mid, s');
      assert actions[n..] == rest[n - 1..];
    }
  }
}
