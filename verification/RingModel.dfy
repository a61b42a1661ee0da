/** The native `Ring` and the reliable stop consumer, as the code runs them when no other
    thread is scheduled in between. Each store of `Append` is one writer step of `Seqlock`,
    so the class and the interleaving model share one memory and one invariant. */
module RingModel {
  import opened Reals
  import opened Message
  import opened Seqlock

  /** The writer running alone for `n` steps. */
  ghost function Advances(m: Memory, n: nat): (m': Memory)
    requires MemoryInv(m)
    ensures MemoryInv(m')
  {
    if n == 0 then m else
      AdvanceKeepsMemory(Advances(m, n - 1));
      Advance(Advances(m, n - 1))
  }

  /** All steps of one `Append`: invalidate, `dim` words, time, stamp, publish. */
  ghost function Appended(m: Memory, e: Entry): (m': Memory)
    requires MemoryInv(m) && m.writer.Resting? && |e.values| == m.dim
    ensures MemoryInv(m')
  {
    BeginKeepsMemory(m, e);
    Advances(Begin(m, e), m.dim + 3)
  }

  /** The writer is `n` words into the row that `m` began. */
  ghost predicate CopiedSoFar(m: Memory, m': Memory, n: nat) {
    m'.writer == Copying(n) && m'.count == m.count && m'.log == m.log && m'.dim == m.dim && m'.capacity == m.capacity
  }

  lemma CopyStep(m: Memory, m1: Memory, n: nat)
    requires Shaped(m1) && CopiedSoFar(m, m1, n) && n < m.dim
    ensures CopiedSoFar(m, Advance(m1), n + 1)
  {
  }

  /** State of the writer `n` steps into an append. */
  lemma {:induction false} AdvancesCopies(m: Memory, n: nat)
    requires MemoryInv(m) && m.writer == Copying(0) && n <= m.dim
    ensures CopiedSoFar(m, Advances(m, n), n)
  {
    if n > 0 {
      AdvancesCopies(m, n - 1);
      CopyStep(m, Advances(m, n - 1), n - 1);
    }
  }

  /** Left alone, `Append` publishes exactly its row and rests again. */
  lemma AppendPublishes(m: Memory, e: Entry)
    requires MemoryInv(m) && m.writer.Resting? && |e.values| == m.dim
    ensures var m' := Appended(m, e);
            m'.writer.Resting? && m'.log == m.log + [e] && m'.count == m.count + 1
  {
    BeginKeepsMemory(m, e);
    var b := Begin(m, e);
    AdvancesCopies(b, m.dim);
    assert Advances(b, m.dim + 1).writer == Stamping;
    assert Advances(b, m.dim + 2).writer == Publishing;
  }

  /** First index of a stop row in `log[from..end]`, or `end`. */
  ghost function FirstStop(log: seq<Entry>, from: nat, end: nat): (i: nat)
    requires from <= end <= |log|
    ensures from <= i <= end
    ensures i < end ==> IsStopRow(log[i].values)
    ensures forall j :: from <= j < i ==> !IsStopRow(log[j].values)
    decreases end - from
  {
    if from == end || IsStopRow(log[from].values) then from else FirstStop(log, from + 1, end)
  }

  class Ring {
    const capacity: nat
    const dim: nat
    var count: nat
    const stamps: array<int>
    const times: array<int>
    const data: array<seq<real>>
    ghost var writer: Writer
    ghost var log: seq<Entry>

    ghost function Snapshot(): Memory
      reads this, stamps, times, data
    {
      Memory(capacity, dim, count, stamps[..], times[..], data[..], writer, log)
    }

    ghost predicate Valid()
      reads this, stamps, times, data
    {
      && stamps.Length == times.Length == data.Length == capacity && stamps != times
      && MemoryInv(Snapshot()) && writer.Resting?
    }

    /** `SharedRingBuffer.create`. */
    constructor (capacity: nat, dim: nat)
      requires capacity > 0
      ensures Valid() && log == [] && this.capacity == capacity && this.dim == dim
      ensures fresh(stamps) && fresh(times) && fresh(data)
    {
      this.capacity, this.dim, count := capacity, dim, 0;
      stamps := new int[capacity](_ => -1);
      times := new int[capacity](_ => 0);
      data := new seq<real>[capacity](_ => Zeros(dim));
      writer, log := Resting, [];
    }

    method Append(values: seq<real>, timestamp: int) returns (ok: bool)
      requires Valid()
      modifies this, stamps, times, data
      ensures Valid()
      ensures ok <==> |values| == dim
      ensures ok ==> Snapshot() == Appended(old(Snapshot()), Entry(values, timestamp))
      ensures log == old(log) + (if ok then [Entry(values, timestamp)] else []) && count == |log|
    {
      if |values| != dim {
        return false;
      }
      ghost var m0, e := Snapshot(), Entry(values, timestamp);
      AppendPublishes(m0, e);
      BeginKeepsMemory(m0, e);
      ghost var b := Begin(m0, e);
      var slot := count % capacity;
      WrappedIsRemainder(capacity, count);
      stamps[slot] := -1;
      writer, log := Copying(0), log + [e];
      assert Snapshot() == b;
      CopyWords(values, slot, b);
      Publish(timestamp, slot, b);
      ok := true;
    }

    /** The payload copy of `Append`, after the slot was invalidated in `b`. */
    method CopyWords(values: seq<real>, slot: nat, ghost b: Memory)
      requires stamps.Length == times.Length == data.Length == capacity && stamps != times
      requires MemoryInv(b) && b.writer == Copying(0) && Snapshot() == b
      requires slot == Slot(b, count) && values == log[count].values
      modifies this`writer, data
      ensures Snapshot() == Advances(b, dim) && writer == Copying(dim)
    {
      for k := 0 to dim
        invariant Snapshot() == Advances(b, k) && writer == Copying(k)
      {
        data[slot] := data[slot][k := values[k]];
        writer := Copying(k + 1);
        assert Snapshot() == Advance(Advances(b, k));
      }
    }

    /** Time, stamp and write count, in that order. */
    method Publish(timestamp: int, slot: nat, ghost b: Memory)
      requires stamps.Length == times.Length == data.Length == capacity && stamps != times
      requires MemoryInv(b) && Snapshot() == Advances(b, dim) && writer == Copying(dim)
      requires slot == Slot(Snapshot(), count) && timestamp == log[count].time
      modifies this`writer, this`count, stamps, times
      ensures Snapshot() == Advances(b, dim + 3) && writer == Resting
    {
      times[slot] := timestamp;
      writer := Stamping;
      assert Snapshot() == Advances(b, dim + 1);
      stamps[slot] := count;
      writer := Publishing;
      assert Snapshot() == Advances(b, dim + 2);
      count := count + 1;
      writer := Resting;
      assert Snapshot() == Advances(b, dim + 3);
    }

    /** Undisturbed, a read succeeds exactly on the last `capacity` rows. */
    method ReadAt(index: int) returns (ok: bool, out: seq<real>, timestamp: int)
      requires Valid()
      ensures ok <==> 0 <= index < count && count - capacity <= index
      ensures ok ==> log[index] == Entry(out, timestamp)
    {
      ok, out, timestamp := false, [], 0;
      if index < 0 {
        return;
      }
      var slot := index % capacity;
      WrappedIsRemainder(capacity, index);
      assert slot == Slot(Snapshot(), index);
      if 0 <= index < count && count - capacity <= index {
        assert Retained(Snapshot(), index);
      }
      if stamps[slot] != index {
        return;
      }
      assert index < count && count - capacity <= index by {
        StampedIsRetained(Snapshot(), index);
      }
      out := data[slot];
      timestamp := times[slot];
      ok := true;
    }

    method Latest() returns (ok: bool, out: seq<real>, timestamp: int)
      requires Valid()
      ensures ok <==> count > 0
      ensures ok ==> log[count - 1] == Entry(out, timestamp)
    {
      ok, out, timestamp := false, [], 0;
      for retry := 0 to RETRIES
        invariant !ok && (retry > 0 ==> count == 0)
      {
        if count <= 0 {
          return;
        }
        ok, out, timestamp := ReadAt(count - 1);
        if ok {
          return;
        }
      }
    }

    /** With the writer idle: true exactly when a stop row lies in the unread retained window;
        the cursor then stands just behind the first one, otherwise at the write count. */
    method StopCommandPending(cursor: nat) returns (pending: bool, cursor': nat)
      requires Valid()
      ensures cursor > count ==> !pending && cursor' == cursor
      ensures cursor <= count ==>
                var start := if count - cursor > capacity then count - capacity else cursor;
                var hit := FirstStop(log, start, count);
                pending == (hit < count) && cursor' == (if pending then hit + 1 else count)
      ensures pending <==>
              exists j :: 0 <= j < count && cursor <= j && count - capacity <= j && IsStopRow(log[j].values)
    {
      var total := count;
      cursor' := cursor;
      if total - cursor' > capacity {
        cursor' := total - capacity;
      }
      ghost var start := cursor';
      pending := false;
      while cursor' < total
        invariant start <= cursor' && (cursor' <= total || cursor' == cursor)
        invariant forall j :: start <= j < cursor' ==> !IsStopRow(log[j].values)
      {
        var ok, row, _ := ReadAt(cursor');
        if !ok {
          break; // torn read: retry this row at the next call
        }
        cursor' := cursor' + 1;
        if |row| > 0 && ToInt32(LlRound(row[0])) == STOP_CODE {
          return true, cursor';
        }
      }
    }

    /** On a command ring: true exactly when an encoded STOP is among the unread retained commands. */
    method StopAmong(cursor: nat, ghost commands: seq<Command>) returns (pending: bool, cursor': nat)
      requires Valid() && |commands| == count
      requires forall j :: 0 <= j < count ==> 1 + |commands[j].args| <= dim && log[j].values == Encoded(commands[j], dim)
      ensures pending <==> exists j :: 0 <= j < count && cursor <= j && count - capacity <= j && commands[j].kind == Stop
      ensures pending ==> 0 < cursor' <= count && commands[cursor' - 1].kind == Stop
      ensures !pending && cursor <= count ==> cursor' == count
    {
      pending, cursor' := StopCommandPending(cursor);
      forall j | 0 <= j < count ensures IsStopRow(log[j].values) <==> commands[j].kind == Stop {
        StopRowIffStop(commands[j], dim);
      }
    }
  }

  /** In a resting ring a valid stamp belongs to one of the last `capacity` rows. */
  lemma StampedIsRetained(m: Memory, i: int)
    requires MemoryInv(m) && m.writer.Resting? && 0 <= i
    requires m.stamps[Slot(m, i)] == i
    ensures i < m.count <= i + m.capacity
  {
    if i + m.capacity < m.count {
      var k := NewestInSlot(m.capacity, i, m.count);
      assert Retained(m, k);
    }
  }

  lemma {:induction false} Spread(x: int, y: int, d: nat)
    requires x < y
    ensures x * d + d <= y * d
    decreases y - x
  {
    assert y * d == (y - 1) * d + d;
    if x + 1 < y { Spread(x, y - 1, d); }
  }

  lemma RemainderUnique(d: nat, q: int, r: nat, q': int, r': nat)
    requires r < d && r' < d && q * d + r == q' * d + r'
    ensures r == r'
  {
    if q < q' {
      Spread(q, q', d);
    } else if q' < q {
      Spread(q', q, d);
    }
  }

  /** `Wrapped` is the `%` of the code. */
  lemma {:induction false} WrappedIsRemainder(capacity: nat, i: nat)
    requires capacity > 0
    ensures Wrapped(capacity, i) == i % capacity
    decreases i
  {
    if i >= capacity {
      var j := i - capacity;
      WrappedIsRemainder(capacity, j);
      RemainderUnique(capacity, j / capacity + 1, j % capacity, i / capacity, i % capacity);
    }
  }

  /** The newest published row that shares row `i`'s slot. */
  ghost function NewestInSlot(capacity: nat, i: nat, count: nat): (k: nat)
    requires capacity > 0 && i < count
    ensures i <= k < count <= k + capacity && Wrapped(capacity, k) == Wrapped(capacity, i)
    decreases count - i
  {
    if i + capacity < count then NewestInSlot(capacity, i + capacity, count) else i
  }
}
