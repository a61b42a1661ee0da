/** `CommandCursor`: the arm side's in-order consumer of a discrete command ring. */
module CommandChannel {
  import opened Integers
  import opened Seqlock
  import opened StreamRing

  /** What a cursor has done so far. */
  datatype History = History(
    created: nat,          // write count when the constructor was entered
    start: nat,            // first index the fresh cursor would accept
    origin: nat,           // index from which losses are counted
    delivered: seq<int>,   // indices handed out, in order
    lost: nat)             // sum of the reported losses

  ghost predicate DeliveredInOrder(lastSeq: int, h: History) {
    && Increasing(h.delivered)
    && forall i :: 0 <= i < |h.delivered| ==> h.created <= h.delivered[i] && h.start <= h.delivered[i] <= lastSeq
  }

  /** Between its start and its position the cursor missed only lapped rows. */
  ghost predicate NothingDropped(m: Memory, lastSeq: int, h: History) {
    && (h.start < h.created ==> AllLapped(m, h.created))
    && forall j :: h.start <= j <= lastSeq && j !in h.delivered ==> !Retained(m, j)
  }

  ghost predicate LossesAdd(lastSeq: int, h: History) {
    && (h.start > 0 ==> h.origin == h.start)
    && (if lastSeq < 0 then h.delivered == [] && h.lost == 0 && h.start == 0
        else h.start <= h.origin <= lastSeq + 1 && |h.delivered| + h.lost == lastSeq + 1 - h.origin)
  }

  ghost predicate CursorOk(m: Memory, lastSeq: int, h: History) {
    && -1 <= lastSeq < m.count <= |m.log| && h.start <= lastSeq + 1
    && DeliveredInOrder(lastSeq, h) && NothingDropped(m, lastSeq, h) && LossesAdd(lastSeq, h)
  }

  lemma CursorPersists(m: Memory, m': Memory, lastSeq: int, h: History)
    requires CursorOk(m, lastSeq, h) && Later(m, m') && m'.count <= |m'.log|
    ensures CursorOk(m', lastSeq, h)
  {
  }

  /** A fresh cursor at the head, or at -1 when `latest` came back empty: either way no row posted
      before the call can ever be delivered. */
  lemma FreshCursor(m: Memory, m': Memory, head: Batch)
    requires Later(m, m') && m'.count <= |m'.log|
    requires head.rows != [] ==> BatchOk(m', m.count, 1, head)
    requires head.rows == [] && m.count > 0 ==> AllLapped(m', m.count)
    ensures var lastSeq := if head.rows == [] then -1 else head.first;
            CursorOk(m', lastSeq, History(m.count, lastSeq + 1, lastSeq + 1, [], 0))
  {
  }

  /** First index of the batch beyond the cursor. */
  function Resume(lastSeq: int, first: nat): nat { if first > lastSeq then first else (lastSeq + 1) as nat }

  /** The loss `drain_new` reports. */
  function Reported(lastSeq: int, first: nat): (n: nat) {
    if lastSeq >= 0 && first > lastSeq + 1 then first - lastSeq - 1 else 0
  }

  function Delivered(lastSeq: int, h: History, b: Batch): History
    requires lastSeq < b.first + |b.rows| && lastSeq >= -1
  {
    h.(delivered := h.delivered + Range(Resume(lastSeq, b.first), b.first + |b.rows|),
       lost := h.lost + Reported(lastSeq, b.first),
       origin := if lastSeq < 0 then b.first else h.origin)
  }

  lemma DeliveryInOrder(m: Memory, lastSeq: int, h: History, b: Batch)
    requires CursorOk(m, lastSeq, h) && TakenAfter(m, b) && b.rows != [] && m.count <= b.first + |b.rows|
    ensures DeliveredInOrder(b.first + |b.rows| - 1, Delivered(lastSeq, h, b))
  {
    var from := Resume(lastSeq, b.first);
    assert from < m.count ==> Retained(m, from);
    assert h.start >= h.created || from >= h.created;
  }

  lemma DeliveryDropsNothing(m: Memory, m': Memory, lastSeq: int, h: History, b: Batch)
    requires CursorOk(m, lastSeq, h) && Later(m, m') && BatchOk(m', m.count, m.capacity, b) && b.rows != []
    ensures NothingDropped(m', b.first + |b.rows| - 1, Delivered(lastSeq, h, b))
  {
    var h', end := Delivered(lastSeq, h, b), b.first + |b.rows|;
    forall j | h.start <= j < end && j !in h'.delivered ensures !Retained(m', j) {
      RangeMembers(Resume(lastSeq, b.first), end);
    }
  }

  /** Draining one batch keeps the cursor honest: order, freshness, losses. */
  lemma DeliveryKeepsCursor(m: Memory, m': Memory, lastSeq: int, h: History, b: Batch)
    requires CursorOk(m, lastSeq, h) && Later(m, m')
    requires b.rows != [] && BatchOk(m', m.count, m.capacity, b) && TakenAfter(m, b)
    ensures CursorOk(m', b.first + |b.rows| - 1, Delivered(lastSeq, h, b))
  {
    DeliveryInOrder(m, lastSeq, h, b);
    DeliveryDropsNothing(m, m', lastSeq, h, b);
  }

  /** The rows at the delivered indices. */
  ghost predicate Holds(rows: seq<seq<real>>, log: seq<Entry>, indices: seq<int>) {
    |rows| == |indices| && forall i :: 0 <= i < |rows| ==> 0 <= indices[i] < |log| && rows[i] == log[indices[i]].values
  }

  /** What one drain hands out, and how rows and reported losses add up. */
  lemma DeliveredRows(m': Memory, asked: nat, k: nat, lastSeq: int, h: History, b: Batch, rows: seq<seq<real>>)
    requires -1 <= lastSeq < asked && b.rows != [] && BatchOk(m', asked, k, b) && RowsAre(rows, lastSeq, b)
    ensures var h' := Delivered(lastSeq, h, b);
            && h.delivered <= h'.delivered && Holds(rows, m'.log, h'.delivered[|h.delivered|..])
            && (lastSeq >= 0 ==> |rows| + Reported(lastSeq, b.first) == b.first + |b.rows| - 1 - lastSeq)
  {
    var from, end := Resume(lastSeq, b.first), b.first + |b.rows|;
    assert Delivered(lastSeq, h, b).delivered[|h.delivered|..] == Range(from, end);
    forall i | 0 <= i < |rows| ensures rows[i] == m'.log[from + i].values {
      assert b.rows[from - b.first + i] == m'.log[b.first..end][from - b.first + i];
    }
  }

  /** `rows` are the rows of the batch beyond the cursor. */
  ghost predicate RowsAre(rows: seq<seq<real>>, lastSeq: int, b: Batch)
    requires -1 <= lastSeq < b.first + |b.rows|
  {
    var skip := Resume(lastSeq, b.first) - b.first;
    |rows| == |b.rows| - skip && forall i :: 0 <= i < |rows| ==> rows[i] == b.rows[skip + i].values
  }

  lemma HoldsMore(rows: seq<seq<real>>, more: seq<seq<real>>, log: seq<Entry>, log': seq<Entry>, indices: seq<int>, indices': seq<int>)
    requires Holds(rows, log, indices) && log <= log' && indices <= indices' && Holds(more, log', indices'[|indices|..])
    ensures Holds(rows + more, log', indices')
  {
    var all := rows + more;
    forall i | 0 <= i < |all| ensures 0 <= indices'[i] < |log'| && all[i] == log'[indices'[i]].values {
      if i < |rows| {
        assert indices'[i] == indices[i];
      } else {
        assert indices'[|indices|..][i - |rows|] == indices'[i];
      }
    }
  }

  /** The cursor has passed the first `n` rows, or the producer has lapped them all. */
  ghost predicate Passed(m: Memory, lastSeq: int, n: nat) {
    lastSeq + 1 >= n || AllLapped(m, n)
  }

  lemma PassedBefore(m: Memory, m': Memory, lastSeq: int, n: nat)
    requires n <= m.count && Passed(m', lastSeq, m.count)
    ensures Passed(m', lastSeq, n)
  {
  }

  class CommandCursor {
    const ring: SharedRing
    var lastSeq: int
    ghost var history: History

    ghost predicate Valid()
      reads this, ring
    {
      ring.Valid() && CursorOk(ring.mem, lastSeq, history)
    }

    /** Baseline at the current head. */
    constructor (ring: SharedRing)
      requires ring.Valid()
      modifies ring
      ensures Valid() && this.ring == ring && Later(old(ring.mem), ring.mem)
      ensures history.created == old(ring.mem.count) && history.delivered == [] && history.lost == 0
      ensures history.start == lastSeq + 1
    {
      this.ring := ring;
      var head := ring.Last(1);
      lastSeq := if head.rows == [] then -1 else head.first;
      history := History(old(ring.mem.count), if head.rows == [] then 0 else head.first + 1, if head.rows == [] then 0 else head.first + 1, [], 0);
      new;
      FreshCursor(old(ring.mem), ring.mem, head);
    }

    /** The rows posted since the last call, oldest first, and how many are reported lost. */
    method DrainNew() returns (rows: seq<seq<real>>, reported: nat)
      requires Valid()
      modifies this, ring
      ensures Valid() && Later(old(ring.mem), ring.mem) && lastSeq >= old(lastSeq)
      ensures history.created == old(history.created) && history.start == old(history.start)
      ensures history.lost == old(history.lost) + reported
      ensures |history.delivered| >= |old(history.delivered)| && old(history.delivered) <= history.delivered
      ensures Holds(rows, ring.mem.log, history.delivered[|old(history.delivered)|..])
      ensures old(lastSeq) >= 0 ==> |rows| + reported == lastSeq - old(lastSeq)
      ensures Passed(ring.mem, lastSeq, old(ring.mem).count)
    {
      var batch := ring.Last(ring.mem.capacity);
      rows, reported := [], 0;
      if batch.rows == [] {
        CursorPersists(old(ring.mem), ring.mem, lastSeq, history);
        return;
      }
      var first := batch.first;
      var last := first + |batch.rows| - 1;
      if lastSeq >= 0 && first > lastSeq + 1 {
        reported := first - lastSeq - 1;
      }
      rows := RowsBeyond(lastSeq, batch);
      DeliveredRows(ring.mem, old(ring.mem).count, ring.mem.capacity, lastSeq, history, batch, rows);
      DeliveryKeepsCursor(old(ring.mem), ring.mem, lastSeq, history, batch);
      history := Delivered(lastSeq, history, batch);
      lastSeq := last;
    }

    /** Any number of drains, with the producer running between and during them. */
    method Follow(drains: nat) returns (rows: seq<seq<real>>)
      requires Valid() && history.delivered == []
      modifies this, ring
      ensures Valid() && Later(old(ring.mem), ring.mem) && history.created == old(history.created)
      ensures Holds(rows, ring.mem.log, history.delivered) && Increasing(history.delivered)
      ensures forall i :: 0 <= i < |history.delivered| ==> history.delivered[i] >= history.created
      ensures drains > 0 ==> Passed(ring.mem, lastSeq, old(ring.mem).count)
    {
      rows := [];
      for d := 0 to drains
        invariant Valid() && Later(old(ring.mem), ring.mem) && history.created == old(history.created)
        invariant Holds(rows, ring.mem.log, history.delivered)
        invariant d > 0 ==> Passed(ring.mem, lastSeq, old(ring.mem).count)
      {
        var more := DrainLater(rows, old(ring.mem).count);
        rows := rows + more;
      }
    }

    /** The producer runs for a while, then one drain; `rows` were delivered before. */
    method DrainLater(ghost rows: seq<seq<real>>, ghost n: nat) returns (more: seq<seq<real>>)
      requires Valid() && Holds(rows, ring.mem.log, history.delivered) && n <= ring.mem.count
      modifies this, ring
      ensures Valid() && Later(old(ring.mem), ring.mem) && history.created == old(history.created)
      ensures Holds(rows + more, ring.mem.log, history.delivered) && Passed(ring.mem, lastSeq, n)
    {
      ring.Elapse();
      CursorPersists(old(ring.mem), ring.mem, lastSeq, history);
      ghost var waiting, delivered := ring.mem, history.delivered;
      var lost;
      more, lost := DrainNew();
      HoldsMore(rows, more, old(ring.mem).log, ring.mem.log, delivered, history.delivered);
      PassedBefore(waiting, ring.mem, lastSeq, n);
    }
  }

  /** The rows of a batch whose index is beyond the cursor. */
  method RowsBeyond(lastSeq: int, b: Batch) returns (rows: seq<seq<real>>)
    requires -1 <= lastSeq < b.first + |b.rows|
    ensures RowsAre(rows, lastSeq, b)
  {
    ghost var skip := Resume(lastSeq, b.first) - b.first;
    rows := [];
    for i := 0 to |b.rows|
      invariant |rows| == if i <= skip then 0 else i - skip
      invariant forall k :: 0 <= k < |rows| ==> rows[k] == b.rows[skip + k].values
    {
      if b.first + i > lastSeq {
        rows := rows + [b.rows[i].values];
      }
    }
  }
}
