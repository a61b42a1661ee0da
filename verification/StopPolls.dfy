/** What `StopCommandPending` returns while the writer keeps appending. */
module StopPolls {
  import opened Message
  import opened Seqlock

  /** `stop` is the native test for a stop row. */
  ghost predicate IsStopTest(stop: seq<real> -> bool) {
    forall row {:trigger IsStopRow(row)} :: stop(row) <==> IsStopRow(row)
  }

  /** None of the rows `examined[from..end]` is a stop row. */
  ghost predicate NoStopIn(stop: seq<real> -> bool, m: Memory, examined: seq<nat>, from: nat, end: nat) {
    end <= |examined| && forall a :: from <= a < end ==> examined[a] < |m.log| && !stop(m.log[examined[a]].values)
  }

  /** What the last finished poll returned: true exactly when the last row it examined is a stop row, the only one;
      otherwise it stands at the count it had read, or at a row that was lapped meanwhile. */
  ghost predicate PollInv(stop: seq<real> -> bool, m: Memory, r: Reader)
    requires Shaped(m)
  {
    r.outcome.PollDone? ==>
      var o := r.outcome;
      && o.began <= o.ended <= |r.examined| && o.limit <= o.finished <= m.count && o.cursor <= r.cursor
      && (if o.pending then
            && o.began < o.ended && r.examined[o.ended - 1] + 1 == o.cursor && o.cursor <= |m.log|
            && stop(m.log[o.cursor - 1].values) && NoStopIn(stop, m, r.examined, o.began, o.ended - 1)
          else
            && NoStopIn(stop, m, r.examined, o.began, o.ended)
            && (o.cursor == o.limit || (o.cursor < o.limit <= o.cursor + m.capacity && o.finished >= o.cursor + m.capacity)))
  }

  /** A poll under way has found no stop row and reads inside the retained window. */
  ghost predicate PollWorks(stop: seq<real> -> bool, m: Memory, r: Reader) {
    !r.pc.Idle? && r.job.StopPoll? ==>
      && r.job.began <= |r.examined| && NoStopIn(stop, m, r.examined, r.job.began, |r.examined|)
      && (r.pc.Sample? || r.job.limit <= r.cursor + m.capacity)
  }

  ghost predicate PollOk(stop: seq<real> -> bool, m: Memory, r: Reader)
    requires Shaped(m)
  {
    PollWorks(stop, m, r) && PollInv(stop, m, r)
  }

  ghost predicate Polls(stop: seq<real> -> bool, s: System)
    requires Shaped(s.mem)
  {
    forall k :: 0 <= k < |s.readers| ==> PollOk(stop, s.mem, s.readers[k])
  }

  lemma NoStopStays(stop: seq<real> -> bool, m: Memory, m': Memory, examined: seq<nat>, from: nat, end: nat)
    requires NoStopIn(stop, m, examined, from, end) && m.log <= m'.log
    ensures NoStopIn(stop, m', examined, from, end)
  {
  }

  lemma WriterKeepsPoll(stop: seq<real> -> bool, m: Memory, m': Memory, r: Reader)
    requires Shaped(m) && Shaped(m') && PollOk(stop, m, r) && m.log <= m'.log && m.count <= m'.count && m.capacity == m'.capacity
    ensures PollOk(stop, m', r)
  {
    if !r.pc.Idle? && r.job.StopPoll? { NoStopStays(stop, m, m', r.examined, r.job.began, |r.examined|); }
    if r.outcome.PollDone? {
      var o := r.outcome;
      NoStopStays(stop, m, m', r.examined, o.began, if o.pending then o.ended - 1 else o.ended);
    }
  }

  /** Examining one more row changes nothing about the polls before. */
  lemma OlderPollStays(stop: seq<real> -> bool, m: Memory, r: Reader, r': Reader, more: seq<nat>)
    requires Shaped(m) && PollInv(stop, m, r) && r'.outcome == r.outcome && r'.examined == r.examined + more && r.cursor <= r'.cursor
    ensures PollInv(stop, m, r')
  {
    assert forall a :: 0 <= a < |r.examined| ==> r'.examined[a] == r.examined[a];
  }

  lemma FailureKeepsPoll(stop: seq<real> -> bool, m: Memory, r: Reader)
    requires MemoryInv(m) && JobInv(m, r) && PollOk(stop, m, r) && (r.pc.First? || r.pc.Second?)
    requires r.index < 0 || m.stamps[Slot(m, r.index)] != r.index
    ensures PollOk(stop, m, ReadFails(m, r))
  {
    if r.job.StopPoll? { MissingMeansLapped(m, r.index); }
  }

  /** The reader after examining the row under its cursor. */
  function Examined(r: Reader): Reader { r.(cursor := r.cursor + 1, examined := r.examined + [r.cursor]) }

  lemma RowExamined(stop: seq<real> -> bool, m: Memory, r: Reader)
    requires Shaped(m) && PollOk(stop, m, r) && r.job.StopPoll? && r.pc.Second? && r.cursor < |m.log|
    ensures PollInv(stop, m, Examined(r)) && NoStopIn(stop, m, Examined(r).examined, r.job.began, |r.examined|)
    ensures !stop(m.log[r.cursor].values) ==> NoStopIn(stop, m, Examined(r).examined, r.job.began, |r.examined| + 1)
  {
    OlderPollStays(stop, m, r, Examined(r), [r.cursor]);
    assert forall a :: 0 <= a < |r.examined| ==> Examined(r).examined[a] == r.examined[a];
    assert Examined(r).examined[|r.examined|] == r.cursor;
  }

  lemma StopFound(stop: seq<real> -> bool, m: Memory, r: Reader)
    requires Shaped(m) && r.job.StopPoll? && r.job.limit <= m.count && r.job.began < |r.examined| && r.cursor <= |m.log|
    requires r.examined[|r.examined| - 1] + 1 == r.cursor && stop(m.log[r.cursor - 1].values)
    requires NoStopIn(stop, m, r.examined, r.job.began, |r.examined| - 1)
    ensures PollOk(stop, m, PollEnds(m, r, true))
  {
  }

  lemma RowPassed(stop: seq<real> -> bool, m: Memory, r: Reader)
    requires Shaped(m) && PollInv(stop, m, r) && r.job.StopPoll? && r.cursor <= r.job.limit <= m.count && r.job.began <= |r.examined|
    requires r.job.limit <= r.cursor + m.capacity && NoStopIn(stop, m, r.examined, r.job.began, |r.examined|)
    ensures PollOk(stop, m, NextRow(m, r))
  {
  }

  lemma SuccessKeepsPoll(stop: seq<real> -> bool, m: Memory, r: Reader, t: int)
    requires IsStopTest(stop)
    requires Shaped(m) && JobInv(m, r) && PollOk(stop, m, r) && r.pc == Second(t)
    requires r.job.StopPoll? ==> r.cursor < |m.log| && m.log[r.cursor].values == r.out
    ensures PollOk(stop, m, ReadSucceeds(m, r, t))
  {
    if r.job.StopPoll? {
      RowExamined(stop, m, r);
      if IsStopRow(r.out) {
        StopFound(stop, m, Examined(r).(reported := r.reported + {r.cursor}));
      } else {
        RowPassed(stop, m, Examined(r));
      }
    }
  }

  lemma CopyKeepsPoll(stop: seq<real> -> bool, m: Memory, r: Reader)
    requires Shaped(m) && PollOk(stop, m, r) && r.pc.Copy? && r.index >= 0 && |r.out| == m.dim
    ensures PollOk(stop, m, Read(m, r))
  {
  }

  /** The reader once a poll has read the write count and skipped what was lapped. */
  function Sampled(m: Memory, r: Reader): Reader
    requires r.job.StopPoll? && m.count >= 0
  {
    r.(job := StopPoll(m.count, r.job.began), cursor := if m.count - r.cursor > m.capacity then m.count - m.capacity else r.cursor)
  }

  lemma CountSampled(stop: seq<real> -> bool, m: Memory, r: Reader)
    requires Shaped(m) && PollOk(stop, m, r) && r.pc.Sample? && r.job.StopPoll? && m.count >= 0 && r.cursor <= m.count
    ensures PollInv(stop, m, Sampled(m, r)) && r.job.began <= |r.examined| && NoStopIn(stop, m, r.examined, r.job.began, |r.examined|)
  {
    OlderPollStays(stop, m, r, Sampled(m, r), []);
  }

  lemma SampleKeepsPoll(stop: seq<real> -> bool, m: Memory, r: Reader)
    requires Shaped(m) && JobInv(m, r) && HistoryInv(m, r) && PollOk(stop, m, r) && r.pc.Sample?
    ensures PollOk(stop, m, SampleCount(m, r))
  {
    if r.job.StopPoll? {
      CountSampled(stop, m, r);
      RowPassed(stop, m, Sampled(m, r));
    }
  }

  lemma ReadKeepsPoll(stop: seq<real> -> bool, m: Memory, r: Reader)
    requires IsStopTest(stop)
    requires MemoryInv(m) && ReaderInv(m, r) && PollOk(stop, m, r)
    ensures PollOk(stop, m, Read(m, r))
  {
    match r.pc
    case Idle =>
    case Sample => SampleKeepsPoll(stop, m, r);
    case First =>
      if r.index < 0 || m.stamps[Slot(m, r.index)] != r.index { FailureKeepsPoll(stop, m, r); }
    case Copy(_) => CopyKeepsPoll(stop, m, r);
    case Second(t) =>
      if m.stamps[Slot(m, r.index)] != r.index { FailureKeepsPoll(stop, m, r); } else { SuccessKeepsPoll(stop, m, r, t); }
  }

  lemma StartKeepsPoll(stop: seq<real> -> bool, m: Memory, r: Reader, index: int)
    requires Shaped(m) && PollOk(stop, m, r)
    ensures PollOk(stop, m, StartRead(r, index)) && PollOk(stop, m, StartLatest(m, r)) && PollOk(stop, m, StartPoll(r))
  {
  }

  lemma ReaderMoves(stop: seq<real> -> bool, s: System, k: nat, r: Reader)
    requires Shaped(s.mem) && Polls(stop, s) && k < |s.readers| && PollOk(stop, s.mem, r)
    ensures Polls(stop, s.(readers := s.readers[k := r]))
  {
  }

  lemma MemoryMoves(stop: seq<real> -> bool, s: System, m: Memory)
    requires Shaped(s.mem) && Shaped(m) && Polls(stop, s) && s.mem.log <= m.log && s.mem.count <= m.count && s.mem.capacity == m.capacity
    ensures Polls(stop, s.(mem := m))
  {
    forall k | 0 <= k < |s.readers| ensures PollOk(stop, m, s.readers[k]) { WriterKeepsPoll(stop, s.mem, m, s.readers[k]); }
  }

  lemma StepKeepsPolls(stop: seq<real> -> bool, s: System, a: Action)
    requires IsStopTest(stop)
    requires Inv(s) && Polls(stop, s)
    ensures Shaped(Apply(s, a).mem) && Polls(stop, Apply(s, a))
  {
    match a
    case AppendAct(e) =>
      WriterEvolves(s.mem, e);
      MemoryMoves(stop, s, Begin(s.mem, e));
    case WriterAct =>
      WriterEvolves(s.mem, Entry([], 0));
      MemoryMoves(stop, s, Advance(s.mem));
    case ReadAct(k, i) => if k < |s.readers| {
      StartKeepsPoll(stop, s.mem, s.readers[k], i);
      ReaderMoves(stop, s, k, StartRead(s.readers[k], i));
    }
    case LatestAct(k) => if k < |s.readers| {
      StartKeepsPoll(stop, s.mem, s.readers[k], 0);
      ReaderMoves(stop, s, k, StartLatest(s.mem, s.readers[k]));
    }
    case PollAct(k) => if k < |s.readers| {
      StartKeepsPoll(stop, s.mem, s.readers[k], 0);
      ReaderMoves(stop, s, k, StartPoll(s.readers[k]));
    }
    case ReaderAct(k) => if k < |s.readers| {
      ReadKeepsPoll(stop, s.mem, s.readers[k]);
      ReaderMoves(stop, s, k, Read(s.mem, s.readers[k]));
    }
  }

  lemma {:induction false} RunKeepsPolls(stop: seq<real> -> bool, s: System, actions: seq<Action>, s': System)
    requires IsStopTest(stop)
    requires Inv(s) && Runs(s, actions, s') && (Init(s) || Polls(stop, s))
    ensures Inv(s') && Polls(stop, s')
    decreases |actions|
  {
    if actions != [] {
      ApplyKeepsInv(s, actions[0]);
      StepKeepsPolls(stop, s, actions[0]);
      RunKeepsPolls(stop, Apply(s, actions[0]), actions[1..], s');
    }
  }

  /** The last finished poll returned true exactly when the last row it examined is a stop row. The rows it
      examined before are no stop rows. When it returned false it had reached the write count it read at its
      start, or a row that the writer lapped meanwhile. */
  ghost predicate PollAnswers(m: Memory, r: Reader)
    requires r.outcome.PollDone?
  {
    var o := r.outcome;
    && o.began <= o.ended <= |r.examined| && o.limit <= o.finished <= m.count
    && (forall a :: o.began <= a < o.ended ==> r.examined[a] < |m.log|)
    && (o.pending <==> o.began < o.ended && IsStopRow(m.log[r.examined[o.ended - 1]].values))
    && (forall a :: o.began <= a < o.ended - 1 ==> !IsStopRow(m.log[r.examined[a]].values))
    && (o.pending ==> o.cursor == r.examined[o.ended - 1] + 1)
    && (!o.pending ==> o.cursor == o.limit || (o.cursor < o.limit <= o.cursor + m.capacity <= o.finished))
  }

  /** So it is over every run, however writer and readers interleave. */
  lemma PollReturnsStop(s: System, actions: seq<Action>, s': System, who: nat)
    requires Init(s) && Runs(s, actions, s') && who < |s'.readers| && s'.readers[who].outcome.PollDone?
    ensures PollAnswers(s'.mem, s'.readers[who])
  {
    var stop: seq<real> -> bool := row => IsStopRow(row);
    RunKeepsPolls(stop, s, actions, s');
    PollMeans(stop, s'.mem, s'.readers[who]);
  }

  lemma PollMeans(stop: seq<real> -> bool, m: Memory, r: Reader)
    requires IsStopTest(stop) && Shaped(m) && PollOk(stop, m, r) && r.outcome.PollDone?
    ensures PollAnswers(m, r)
  {
  }

  /** The cursor stays within the write count, rows are examined in order and at most once, a row passed over without
      looking at it had been lapped, and the calls returned true for exactly the stop rows examined. */
  ghost predicate PollHistory(m: Memory, r: Reader) {
    && r.cursor <= m.count
    && (forall a, b :: 0 <= a < b < |r.examined| ==> r.examined[a] < r.examined[b] < r.cursor)
    && (forall j: nat :: j < r.cursor && j !in r.examined ==> m.count - j > m.capacity)
    && (forall j :: j in r.reported <==> j in r.examined && j < |m.log| && IsStopRow(m.log[j].values))
  }

  /** `StopCommandPending` over a whole run, seen after any `n` of its steps (`mid`) and at its end: the
      cursor stays within the write count and never decreases, rows are examined in order and at most once, a
      row it passed over without looking at had been lapped, and a call returned true for exactly the stop rows
      examined. */
  lemma StopPollIsReliable(s: System, actions: seq<Action>, n: nat, mid: System, s': System, who: nat)
    requires Init(s) && Runs(s, actions, s') && who < |s.readers|
    requires n <= |actions| && Runs(s, actions[..n], mid)
    ensures who < |mid.readers| && who < |s'.readers|
    ensures mid.readers[who].cursor <= s'.readers[who].cursor && mid.readers[who].examined <= s'.readers[who].examined
    ensures PollHistory(s'.mem, s'.readers[who])
  {
    PollsAdvance(s, actions, n, mid, s', who);
    PollsSoFar(s, actions, s', who);
  }

  lemma PollsAdvance(s: System, actions: seq<Action>, n: nat, mid: System, s': System, who: nat)
    requires Init(s) && Runs(s, actions, s') && who < |s.readers| && n <= |actions| && Runs(s, actions[..n], mid)
    ensures who < |mid.readers| && who < |s'.readers|
    ensures mid.readers[who].cursor <= s'.readers[who].cursor && mid.readers[who].examined <= s'.readers[who].examined
  {
    RunsSplit(s, actions, n, mid, s');
    RunKeepsInv(s, actions[..n], mid);
    RunOnlyAdvances(mid, actions[n..], s', who);
  }

  lemma PollsSoFar(s: System, actions: seq<Action>, s': System, who: nat)
    requires Init(s) && Runs(s, actions, s') && who < |s.readers|
    ensures who < |s'.readers|
    ensures PollHistory(s'.mem, s'.readers[who])
  {
    RunKeepsInv(s, actions, s');
    var r := s'.readers[who];
    assert forall b :: 0 <= b < |r.examined| ==> r.examined[b] in r.examined;
  }
}
