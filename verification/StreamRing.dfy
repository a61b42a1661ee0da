/** `SharedRingBuffer.last` reading while the producer keeps writing. The memory is the one of
    `Seqlock`; before every shared access of the reader the producer makes any number of moves. */
module StreamRing {
  import opened Integers
  import opened Seqlock
  import opened RingModel

  datatype Move = Post(e: Entry) | Step

  /** The producer's moves between two accesses of the reader. */
  function Produced(m: Memory, moves: seq<Move>): (m': Memory)
    requires MemoryInv(m)
    ensures MemoryInv(m') && Evolves(m, m')
  {
    if moves == [] then m else
      var prior := Produced(m, moves[..|moves| - 1]);
      var move := moves[|moves| - 1];
      WriterEvolves(prior, if move.Post? then move.e else Entry([], 0));
      match move
      case Post(e) => Begin(prior, e)
      case Step => Advance(prior)
  }

  lemma ClaimedSlot(m: Memory, k: nat)
    requires MemoryInv(m) && k + m.capacity == m.count && !m.writer.Resting?
    ensures m.stamps[Slot(m, k)] == -1 || m.stamps[Slot(m, k)] == m.count
  {
    assert Slot(m, m.count) == Slot(m, k);
  }

  /** A published row carries its stamp exactly while it is retained, and then its slot holds it. */
  lemma StampedIffRetained(m: Memory, i: nat)
    requires MemoryInv(m) && i < m.count
    ensures m.stamps[Slot(m, i)] == i <==> Retained(m, i)
    ensures Retained(m, i) ==> m.data[Slot(m, i)] == m.log[i].values && m.times[Slot(m, i)] == m.log[i].time
  {
    var k := NewestInSlot(m.capacity, i, m.count);
    if !Retained(m, k) { ClaimedSlot(m, k); }
  }

  /** What the reader may rely on while the producer moves: rows are added, and a lapped row stays lapped. */
  ghost predicate Later(m: Memory, m': Memory) {
    && m'.capacity == m.capacity && m'.dim == m.dim && m.count <= m'.count && m.log <= m'.log
    && forall i :: 0 <= i < m.count && Retained(m', i) ==> Retained(m, i)
  }

  lemma EvolvesIsLater(m: Memory, m': Memory)
    requires MemoryInv(m) && MemoryInv(m') && Evolves(m, m')
    ensures Later(m, m')
  {
    forall i | 0 <= i < m.count && Retained(m', i) ensures Retained(m, i) {
      assert Seen(m, i);
      StampedIffRetained(m, i);
      StampedIffRetained(m', i);
    }
  }

  /** Rows `first, first + 1, …` as one call returned them, and whether older ones were asked for but lost. */
  datatype Batch = Batch(first: nat, rows: seq<Entry>, overrun: bool)

  /** Every one of the first `n` rows is gone. */
  ghost predicate AllLapped(m: Memory, n: nat) {
    n <= m.count && forall j :: 0 <= j < n ==> !Retained(m, j)
  }

  /** The batch holds exact rows up to some write count not below `asked`, and among the newest `k`
      it leaves out only rows the producer has lapped. */
  ghost predicate BatchOk(m: Memory, asked: nat, k: nat, b: Batch) {
    var end := b.first + |b.rows|;
    && asked <= end <= m.count <= |m.log| && 0 < end
    && b.rows == m.log[b.first..end]
    && |b.rows| <= k
    && (b.rows != [] ==> (b.overrun <==> |b.rows| < Min(k, Min(m.capacity, end))))
    && forall j :: 0 <= j < b.first ==> j + k < end || !Retained(m, j)
  }

  /** Rows that were already published at `m` were still retained then. */
  ghost predicate TakenAfter(m: Memory, b: Batch) {
    forall i :: b.first <= i < b.first + |b.rows| && i < m.count ==> Retained(m, i)
  }

  lemma BatchPersists(m: Memory, m': Memory, asked: nat, k: nat, b: Batch)
    requires Later(m, m') && m'.count <= |m'.log|
    ensures BatchOk(m, asked, k, b) ==> BatchOk(m', asked, k, b)
    ensures AllLapped(m, asked) ==> AllLapped(m', asked)
  {
    if BatchOk(m, asked, k, b) {
      assert m.log[b.first..b.first + |b.rows|] == m'.log[b.first..b.first + |b.rows|];
    }
  }

  lemma EmptyMeansLapped(m: Memory, asked: nat, k: nat, b: Batch)
    requires k > 0 && b.rows == [] && BatchOk(m, asked, k, b)
    ensures AllLapped(m, asked) && m.count >= asked + m.capacity - 1
  {
    assert !Retained(m, b.first - 1);
  }

  /** After `retry` attempts: a batch, or proof of how far the producer ran ahead. */
  ghost predicate Retried(m: Memory, asked: nat, k: nat, retry: nat, b: Batch) {
    if b.rows != [] then BatchOk(m, asked, k, b)
    else !b.overrun && (asked > 0 ==> m.count >= asked + Laps(m.capacity, retry) && (retry > 0 ==> AllLapped(m, asked)))
  }

  lemma RetryCounted(m: Memory, m1: Memory, m': Memory, asked: nat, k: nat, retry: nat, b: Batch, newer: Batch)
    requires Later(m, m1) && Later(m1, m') && m1.count <= |m1.log| && m'.count <= |m'.log| && asked <= m.count && k > 0
    requires Retried(m, asked, k, retry, b) && BatchOk(m', m1.count, k, newer)
    ensures Retried(m', asked, k, retry + 1, if newer.rows != [] then newer else b)
  {
    BatchPersists(m, m1, asked, k, b);
    BatchPersists(m1, m', asked, k, b);
    if newer.rows == [] { EmptyMeansLapped(m', m1.count, k, newer); }
  }

  /** Stamps that matched were there at the start; stamps that did not match are gone now. */
  ghost predicate StampsHold(m: Memory, m': Memory, first: nat, stamps: seq<int>) {
    forall i :: 0 <= i < |stamps| ==> if stamps[i] == first + i then Retained(m, first + i) else !Retained(m', first + i)
  }

  /** The rows read so far are right wherever they are still retained. */
  ghost predicate RowsHold(m: Memory, first: nat, data: seq<seq<real>>) {
    first + |data| <= |m.log| && forall i :: 0 <= i < |data| && Retained(m, first + i) ==> data[i] == m.log[first + i].values
  }

  ghost predicate TimesHold(m: Memory, first: nat, times: seq<int>) {
    first + |times| <= |m.log| && forall i :: 0 <= i < |times| && Retained(m, first + i) ==> times[i] == m.log[first + i].time
  }

  /** A row whose stamp matched at the end was retained throughout, so what was read is that row. */
  lemma ReadingIsRow(m: Memory, m1: Memory, m2: Memory, m3: Memory, m': Memory, first: nat, i: nat,
                     s2: seq<int>, data: seq<seq<real>>, times: seq<int>)
    requires Later(m, m1) && Later(m1, m2) && Later(m2, m3) && Later(m3, m')
    requires first + |data| == m.count && |s2| == |times| == |data| && i < |data| && s2[i] == first + i
    requires RowsHold(m2, first, data) && TimesHold(m3, first, times) && StampsHold(m3, m', first, s2)
    ensures Retained(m, first + i) && first + i < |m'.log| && Entry(data[i], times[i]) == m'.log[first + i]
  {
    assert Retained(m3, first + i);
    assert Retained(m2, first + i);
    assert m2.log[first + i] == m3.log[first + i] == m'.log[first + i];
  }

  /** The rows of the newest validated run. */
  lemma AttemptRows(m: Memory, m1: Memory, m2: Memory, m3: Memory, m': Memory, first: nat, start: nat,
                    s2: seq<int>, data: seq<seq<real>>, times: seq<int>, b: Batch)
    requires Later(m, m1) && Later(m1, m2) && Later(m2, m3) && Later(m3, m')
    requires first + |data| == m.count && |s2| == |times| == |data|
    requires RowsHold(m2, first, data) && TimesHold(m3, first, times) && StampsHold(m3, m', first, s2)
    requires start <= |s2| && forall i :: start <= i < |s2| ==> s2[i] == first + i
    requires b.first == first + start && |b.rows| == |data| - start
    requires forall i :: 0 <= i < |b.rows| ==> b.rows[i] == Entry(data[start + i], times[start + i])
    ensures forall i :: 0 <= i < |b.rows| ==> RowTaken(m, m', b, i)
  {
    forall i | 0 <= i < |b.rows| ensures RowTaken(m, m', b, i) {
      assert s2[start + i] == first + (start + i);
      ReadingIsRow(m, m1, m2, m3, m', first, start + i, s2, data, times);
    }
  }

  /** Row `i` of the batch is a row of the log that was retained when the attempt began. */
  ghost predicate RowTaken(m: Memory, m': Memory, b: Batch, i: nat)
    requires i < |b.rows|
  {
    Retained(m, b.first + i) && b.first + i < |m'.log| && b.rows[i] == m'.log[b.first + i]
  }

  lemma BatchTaken(m: Memory, m': Memory, b: Batch)
    requires (forall i :: 0 <= i < |b.rows| ==> RowTaken(m, m', b, i)) && b.first + |b.rows| <= |m'.log|
    ensures b.rows == m'.log[b.first..b.first + |b.rows|] && TakenAfter(m, b)
  {
    var rows := m'.log[b.first..b.first + |b.rows|];
    forall i | 0 <= i < |rows| ensures rows[i] == b.rows[i] { assert RowTaken(m, m', b, i); }
    forall i | b.first <= i < b.first + |b.rows| ensures Retained(m, i) { assert RowTaken(m, m', b, i - b.first); }
  }

  /** The readings of one attempt, taken in order, add up to a batch. */
  lemma AttemptIsOk(m: Memory, m1: Memory, m2: Memory, m3: Memory, m': Memory, k: nat, first: nat, start: nat,
                    s1: seq<int>, s2: seq<int>, data: seq<seq<real>>, times: seq<int>, b: Batch)
    requires Later(m, m1) && Later(m1, m2) && Later(m2, m3) && Later(m3, m') && m'.count <= |m'.log|
    requires 0 < m.count && first + |data| == m.count && |data| == Min(k, Min(m.capacity, m.count))
    requires |s1| == |s2| == |times| == |data|
    requires StampsHold(m, m1, first, s1) && RowsHold(m2, first, data) && TimesHold(m3, first, times) && StampsHold(m3, m', first, s2)
    requires start <= |s2| && forall i :: start <= i < |s2| ==> s2[i] == first + i
    requires start > 0 ==> s1[start - 1] != first + start - 1 || s2[start - 1] != first + start - 1
    requires b.first == first + start && |b.rows| == |data| - start && b.overrun == (start > 0)
    requires forall i :: 0 <= i < |b.rows| ==> b.rows[i] == Entry(data[start + i], times[start + i])
    ensures BatchOk(m', m.count, k, b) && TakenAfter(m, b)
  {
    AttemptRows(m, m1, m2, m3, m', first, start, s2, data, times, b);
    BatchTaken(m, m', b);
    if start > 0 { FailedRowIsLapped(m, m1, m2, m3, m', first, start - 1, s1, s2); }
  }

  /** A stamp that did not match before or after the copy means the row was lapped. */
  lemma FailedRowIsLapped(m: Memory, m1: Memory, m2: Memory, m3: Memory, m': Memory, first: nat, i: nat, s1: seq<int>, s2: seq<int>)
    requires Later(m, m1) && Later(m1, m2) && Later(m2, m3) && Later(m3, m') && first + |s1| == m.count && |s1| == |s2|
    requires StampsHold(m, m1, first, s1) && StampsHold(m3, m', first, s2)
    requires i < |s1| && (s1[i] != first + i || s2[i] != first + i)
    ensures forall j :: 0 <= j <= first + i ==> !Retained(m', j)
  {
    assert !Retained(m', first + i);
  }

  class SharedRing {
    const pace: nat -> seq<Move>
    var accesses: nat
    var mem: Memory

    ghost predicate Valid()
      reads this
    {
      MemoryInv(mem)
    }

    constructor (mem: Memory, pace: nat -> seq<Move>)
      requires MemoryInv(mem)
      ensures Valid() && this.mem == mem
    {
      this.mem, this.pace, accesses := mem, pace, 0;
    }

    /** The producer runs for a while. */
    method Elapse()
      requires Valid()
      modifies this
      ensures Valid() && Later(old(mem), mem) && mem.count <= |mem.log|
    {
      mem := Produced(mem, pace(accesses));
      accesses := accesses + 1;
      EvolvesIsLater(old(mem), mem);
    }

    method ReadStamp(i: nat) returns (stamp: int)
      requires Valid() && i < mem.count
      modifies this
      ensures Valid() && Later(old(mem), mem)
      ensures stamp == i <==> Retained(mem, i)
    {
      Elapse();
      StampedIffRetained(mem, i);
      stamp := mem.stamps[Slot(mem, i)];
    }

    method ReadTime(i: nat) returns (time: int)
      requires Valid() && i < mem.count
      modifies this
      ensures Valid() && Later(old(mem), mem)
      ensures Retained(mem, i) ==> time == mem.log[i].time
    {
      Elapse();
      StampedIffRetained(mem, i);
      time := mem.times[Slot(mem, i)];
    }

    method ReadWord(i: nat, k: nat) returns (word: real)
      requires Valid() && i < mem.count && k < mem.dim
      modifies this
      ensures Valid() && Later(old(mem), mem) && |mem.log[i].values| == mem.dim
      ensures Retained(mem, i) ==> word == mem.log[i].values[k]
    {
      Elapse();
      StampedIffRetained(mem, i);
      word := mem.data[Slot(mem, i)][k];
    }

    method ReadStamps(first: nat, n: nat) returns (stamps: seq<int>)
      requires Valid() && first + n <= mem.count
      modifies this
      ensures Valid() && Later(old(mem), mem) && |stamps| == n
      ensures StampsHold(old(mem), mem, first, stamps)
    {
      stamps := [];
      for i := 0 to n
        invariant Valid() && Later(old(mem), mem) && |stamps| == i
        invariant StampsHold(old(mem), mem, first, stamps)
      {
        var stamp := ReadStamp(first + i);
        stamps := stamps + [stamp];
      }
    }

    method ReadRow(index: nat) returns (row: seq<real>)
      requires Valid() && index < mem.count
      modifies this
      ensures Valid() && Later(old(mem), mem)
      ensures Retained(mem, index) ==> row == mem.log[index].values
    {
      row := [];
      for k := 0 to mem.dim
        invariant Valid() && Later(old(mem), mem) && |row| == k
        invariant Retained(mem, index) ==> forall w :: 0 <= w < k ==> row[w] == mem.log[index].values[w]
      {
        var word := ReadWord(index, k);
        row := row + [word];
      }
    }

    method ReadRows(first: nat, n: nat) returns (data: seq<seq<real>>)
      requires Valid() && first + n <= mem.count
      modifies this
      ensures Valid() && Later(old(mem), mem) && |data| == n && RowsHold(mem, first, data)
    {
      data := [];
      for i := 0 to n
        invariant Valid() && Later(old(mem), mem) && |data| == i && RowsHold(mem, first, data)
      {
        var row := ReadRow(first + i);
        data := data + [row];
      }
    }

    method ReadTimes(first: nat, n: nat) returns (times: seq<int>)
      requires Valid() && first + n <= mem.count
      modifies this
      ensures Valid() && Later(old(mem), mem) && |times| == n && TimesHold(mem, first, times)
    {
      times := [];
      for i := 0 to n
        invariant Valid() && Later(old(mem), mem) && |times| == i && TimesHold(mem, first, times)
      {
        var time := ReadTime(first + i);
        times := times + [time];
      }
    }

    /** One attempt of `last(k)`: the newest contiguous run that validated, which may be empty. */
    method Attempt(k: nat) returns (batch: Batch, complete: bool)
      requires Valid() && k > 0 && mem.count > 0
      modifies this
      ensures Valid() && Later(old(mem), mem) && BatchOk(mem, old(mem).count, k, batch)
      ensures TakenAfter(old(mem), batch)
      ensures complete ==> batch.rows != []
    {
      ghost var m := mem;
      var wc := mem.count;
      var n := Min(k, Min(mem.capacity, wc));
      var first := wc - n;
      var s1 := ReadStamps(first, n);
      ghost var m1 := mem;
      var data := ReadRows(first, n);
      ghost var m2 := mem;
      var times := ReadTimes(first, n);
      ghost var m3 := mem;
      var s2 := ReadStamps(first, n);
      var start := NewestRun(first, s1, s2);
      complete := start == 0;
      batch := Batch(first + start, seq(n - start, i requires 0 <= i < n - start => Entry(data[start + i], times[start + i])), !complete);
      AttemptIsOk(m, m1, m2, m3, mem, k, first, start, s1, s2, data, times, batch);
    }

    /** Up to the newest `k` rows; none for `k <= 0`. Otherwise nothing comes back only from a ring that was
        empty, or after four attempts that the producer each outran by almost a lap. */
    method Last(k: int) returns (batch: Batch)
      requires Valid()
      modifies this
      ensures Valid() && Later(old(mem), mem) && mem.count <= |mem.log|
      ensures k <= 0 ==> batch.rows == [] && mem == old(mem)
      ensures batch.rows == [] ==> !batch.overrun
      ensures batch.rows != [] ==> k > 0 && BatchOk(mem, old(mem).count, k, batch)
      ensures TakenAfter(old(mem), batch)
      ensures k > 0 && batch.rows == [] && old(mem).count > 0 ==>
                AllLapped(mem, old(mem).count) && mem.count >= old(mem).count + RETRIES * (mem.capacity - 1)
    {
      if k <= 0 {
        return Batch(0, [], false);
      }
      batch := Retry(k);
      FourLaps(mem.capacity);
    }

    /** Up to four attempts; the last one that found anything counts. */
    method Retry(k: nat) returns (batch: Batch)
      requires Valid() && k > 0
      modifies this
      ensures Valid() && Later(old(mem), mem) && mem.count <= |mem.log|
      ensures Retried(mem, old(mem).count, k, RETRIES, batch) && TakenAfter(old(mem), batch)
    {
      batch := Batch(0, [], false);
      for retry := 0 to RETRIES
        invariant Valid() && Later(old(mem), mem) && Retried(mem, old(mem).count, k, retry, batch) && TakenAfter(old(mem), batch)
      {
        var done;
        batch, done := TryOnce(k, retry, batch, old(mem));
        if done {
          return;
        }
      }
    }

    /** One attempt: an empty ring or a complete batch ends the call, a partial batch is kept for the end. */
    method TryOnce(k: nat, ghost retry: nat, batch: Batch, ghost asked: Memory) returns (batch': Batch, done: bool)
      requires Valid() && k > 0 && Later(asked, mem) && Retried(mem, asked.count, k, retry, batch) && TakenAfter(asked, batch)
      modifies this
      ensures Valid() && Later(asked, mem) && mem.count <= |mem.log| && TakenAfter(asked, batch')
      ensures if done then forall n: nat :: Retried(mem, asked.count, k, n, batch') else Retried(mem, asked.count, k, retry + 1, batch')
    {
      ghost var before := mem;
      Elapse();
      if mem.count <= 0 {
        BatchPersists(before, mem, asked.count, k, batch);
        return batch, true;
      }
      ghost var started := mem;
      var newer, complete := Attempt(k);
      RetryCounted(before, started, mem, asked.count, k, retry, batch, newer);
      TakenEarlier(asked, started, newer);
      batch' := if newer.rows != [] then newer else batch;
      done := complete;
    }
  }

  lemma TakenEarlier(m: Memory, m': Memory, b: Batch)
    requires Later(m, m') && TakenAfter(m', b)
    ensures TakenAfter(m, b)
  {
  }

  /** Where the newest run of rows with both stamps intact begins. */
  method NewestRun(first: nat, s1: seq<int>, s2: seq<int>) returns (start: nat)
    requires |s1| == |s2|
    ensures start <= |s2| && forall i :: start <= i < |s2| ==> s1[i] == s2[i] == first + i
    ensures start > 0 ==> s1[start - 1] != first + start - 1 || s2[start - 1] != first + start - 1
  {
    start := |s2|;
    while start > 0 && s1[start - 1] == first + start - 1 && s2[start - 1] == first + start - 1
      invariant start <= |s2|
      invariant forall i :: start <= i < |s2| ==> s1[i] == s2[i] == first + i
    {
      start := start - 1;
    }
  }
}
