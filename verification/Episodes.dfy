/** Episodes: what the operator's events make of the recorded frames, poll by poll and over a whole run. */
module Episodes {
  import opened Wrappers
  import opened Layout
  import opened Collection
  import opened Frames

  datatype Outcome = Saved(frames: seq<Frame>) | Discarded(frames: seq<Frame>)

  /** The recorder: closed episodes and the open one. */
  datatype Tape = Tape(outcomes: seq<Outcome>, buffered: seq<Frame>)

  function Flatten(outcomes: seq<Outcome>): seq<Frame> {
    if outcomes == [] then [] else Flatten(outcomes[..|outcomes| - 1]) + outcomes[|outcomes| - 1].frames
  }

  function Saves(outcomes: seq<Outcome>): nat {
    if outcomes == [] then 0 else Saves(outcomes[..|outcomes| - 1]) + if outcomes[|outcomes| - 1].Saved? then 1 else 0
  }

  function EndEpisode(t: Tape): Tape { if t.buffered == [] then t else Tape(t.outcomes + [Saved(t.buffered)], []) }

  function DropEpisode(t: Tape): Tape { Tape(t.outcomes + [Discarded(t.buffered)], []) }

  /** Conservation: every frame ever added is in one outcome or still buffered, in order; no empty save. */
  ghost predicate Accounted(added: seq<Frame>, t: Tape, done: nat) {
    && Flatten(t.outcomes) + t.buffered == added
    && done == Saves(t.outcomes)
    && forall i :: 0 <= i < |t.outcomes| ==> t.outcomes[i].Saved? ==> t.outcomes[i].frames != []
  }

  lemma FrameAccounted(added: seq<Frame>, t: Tape, done: nat, more: seq<Frame>)
    requires Accounted(added, t, done)
    ensures Accounted(added + more, Tape(t.outcomes, t.buffered + more), done)
  {
    assert Flatten(t.outcomes) + (t.buffered + more) == Flatten(t.outcomes) + t.buffered + more;
  }

  lemma EpisodeAccounted(added: seq<Frame>, t: Tape, done: nat)
    requires Accounted(added, t, done)
    ensures Accounted(added, EndEpisode(t), if t.buffered == [] then done else done + 1) && Accounted(added, DropEpisode(t), done)
  {
    var saved, dropped := t.outcomes + [Saved(t.buffered)], t.outcomes + [Discarded(t.buffered)];
    assert saved[..|t.outcomes|] == t.outcomes && dropped[..|t.outcomes|] == t.outcomes;
    assert Flatten(saved) + [] == Flatten(saved) && Flatten(dropped) + [] == Flatten(dropped);
  }

  datatype Event = END | DISCARD | STOP

  function AfterEvent(e: Event, t: Tape): Tape {
    match e
    case END => EndEpisode(t)
    case DISCARD => DropEpisode(t)
    case STOP => t
  }

  /** What the first `n` events of a poll do to the recorder. */
  function Closed(events: seq<Event>, n: nat, t: Tape): Tape
    requires n <= |events|
  {
    if n == 0 then t else AfterEvent(events[n - 1], Closed(events, n - 1, t))
  }

  predicate Stops(events: seq<Event>, n: nat)
    requires n <= |events|
  {
    n > 0 && (Stops(events, n - 1) || events[n - 1] == STOP)
  }

  lemma {:induction false} StopsIff(events: seq<Event>, n: nat)
    requires n <= |events|
    ensures Stops(events, n) <==> STOP in events[..n]
    ensures n == |events| ==> events[..n] == events
    decreases n
  {
    if n > 0 {
      StopsIff(events, n - 1);
      assert events[..n] == events[..n - 1] + [events[n - 1]];
    }
  }

  lemma SavesOneMore(outcomes: seq<Outcome>, o: Outcome)
    ensures Saves(outcomes + [o]) == Saves(outcomes) + if o.Saved? then 1 else 0
  {
    assert (outcomes + [o])[..|outcomes|] == outcomes;
  }

  /** However many events one poll brings, at most one of them saves. */
  lemma {:induction false} ClosedSavesOnce(events: seq<Event>, n: nat, t: Tape)
    requires n <= |events|
    ensures var t' := Closed(events, n, t); Saves(t'.outcomes) <= Saves(t.outcomes) + if t'.buffered == [] then 1 else 0
    decreases n
  {
    if n > 0 {
      ClosedSavesOnce(events, n - 1, t);
      var before := Closed(events, n - 1, t);
      SavesOneMore(before.outcomes, Saved(before.buffered));
      SavesOneMore(before.outcomes, Discarded(before.buffered));
    }
  }

  // ---- What a poll does, by its first decisive event ------------------------------------------------

  /** Among the first `n` events an END comes before every DISCARD. */
  ghost predicate EndFirst(events: seq<Event>, n: nat)
    requires n <= |events|
  {
    exists i :: 0 <= i < n && events[i] == END && DISCARD !in events[..i]
  }

  ghost predicate DiscardFirst(events: seq<Event>, n: nat)
    requires n <= |events|
  {
    exists i :: 0 <= i < n && events[i] == DISCARD && END !in events[..i]
  }

  /** The open episode became outcome `o`; whatever else was closed after it was empty and not saved. */
  ghost predicate ClosedAs(t: Tape, t': Tape, o: Outcome) {
    && |t.outcomes| < |t'.outcomes| && t'.outcomes[..|t.outcomes|] == t.outcomes && t'.outcomes[|t.outcomes|] == o && t'.buffered == []
    && forall k :: |t.outcomes| < k < |t'.outcomes| ==> t'.outcomes[k] == Discarded([])
  }

  /** Nothing but empty episodes was dropped. */
  ghost predicate ClosedNothing(t: Tape, t': Tape) {
    && |t.outcomes| <= |t'.outcomes| && t'.outcomes[..|t.outcomes|] == t.outcomes && t'.buffered == []
    && forall k :: |t.outcomes| <= k < |t'.outcomes| ==> t'.outcomes[k] == Discarded([])
  }

  lemma {:induction false} EmptyPoll(events: seq<Event>, n: nat, t: Tape)
    requires n <= |events| && t.buffered == []
    ensures var t' := Closed(events, n, t);
            && ClosedNothing(t, t') && Saves(t'.outcomes) == Saves(t.outcomes)
            && (DISCARD !in events[..n] ==> t' == t)
    decreases n
  {
    if n > 0 {
      assert events[..n] == events[..n - 1] + [events[n - 1]];
      EmptyPoll(events, n - 1, t);
      SavesOneMore(Closed(events, n - 1, t).outcomes, Discarded([]));
    }
  }

  /** Which comes first, up to the next event. */
  lemma FirstOfMore(events: seq<Event>, n: nat)
    requires 0 < n <= |events|
    ensures var e, none := events[n - 1], END !in events[..n - 1] && DISCARD !in events[..n - 1];
            && (EndFirst(events, n) <==> EndFirst(events, n - 1) || (none && e == END))
            && (DiscardFirst(events, n) <==> DiscardFirst(events, n - 1) || (none && e == DISCARD))
            && (END !in events[..n] && DISCARD !in events[..n] <==> none && e == STOP)
  {
    var before, last := events[..n - 1], events[n - 1];
    assert events[..n] == before + [last];
    if END in before {
      var i :| 0 <= i < n - 1 && before[i] == END;
      FirstDecides(events, i, n - 1);
    }
    if DISCARD in before {
      var i :| 0 <= i < n - 1 && before[i] == DISCARD;
      FirstDecides(events, i, n - 1);
    }
  }

  lemma {:induction false} FirstDecides(events: seq<Event>, i: nat, n: nat)
    requires i < n <= |events| && events[i] != STOP
    ensures EndFirst(events, n) || DiscardFirst(events, n)
    decreases i
  {
    if k :| 0 <= k < i && events[k] != STOP {
      FirstDecides(events, k, n);
    } else {
      assert END !in events[..i] && DISCARD !in events[..i];
    }
  }

  /** Not both come first. */
  lemma OneFirst(events: seq<Event>, n: nat)
    requires n <= |events|
    ensures !(EndFirst(events, n) && DiscardFirst(events, n))
    ensures EndFirst(events, n) || DiscardFirst(events, n) <==> END in events[..n] || DISCARD in events[..n]
  {
    if END in events[..n] || DISCARD in events[..n] {
      var i :| 0 <= i < n && events[..n][i] != STOP;
      FirstDecides(events, i, n);
    }
  }

  lemma ClosesNow(t: Tape)
    requires t.buffered != []
    ensures ClosedAs(t, AfterEvent(END, t), Saved(t.buffered)) && Saves(AfterEvent(END, t).outcomes) == Saves(t.outcomes) + 1
    ensures ClosedAs(t, AfterEvent(DISCARD, t), Discarded(t.buffered)) && Saves(AfterEvent(DISCARD, t).outcomes) == Saves(t.outcomes)
  {
    SavesOneMore(t.outcomes, Discarded(t.buffered));
    SavesOneMore(t.outcomes, Saved(t.buffered));
  }

  lemma StaysClosed(t: Tape, before: Tape, e: Event, o: Outcome)
    requires ClosedAs(t, before, o)
    ensures ClosedAs(t, AfterEvent(e, before), o) && Saves(AfterEvent(e, before).outcomes) == Saves(before.outcomes)
  {
    SavesOneMore(before.outcomes, Discarded([]));
    var more := before.outcomes + [Discarded([])];
    assert more[..|t.outcomes|] == before.outcomes[..|t.outcomes|];
  }

  /** An open episode: an END before every DISCARD saves exactly its frames, a DISCARD before every END drops
      them unsaved, and without either event it stays open. */
  lemma {:induction false} PollDecides(events: seq<Event>, n: nat, t: Tape)
    requires n <= |events| && t.buffered != []
    ensures var t' := Closed(events, n, t);
            && (EndFirst(events, n) ==> ClosedAs(t, t', Saved(t.buffered)) && Saves(t'.outcomes) == Saves(t.outcomes) + 1)
            && (DiscardFirst(events, n) ==> ClosedAs(t, t', Discarded(t.buffered)) && Saves(t'.outcomes) == Saves(t.outcomes))
            && (END !in events[..n] && DISCARD !in events[..n] ==> t' == t)
    decreases n
  {
    if n > 0 {
      PollDecides(events, n - 1, t);
      FirstOfMore(events, n);
      OneFirst(events, n - 1);
      var before := Closed(events, n - 1, t);
      if EndFirst(events, n - 1) {
        StaysClosed(t, before, events[n - 1], Saved(t.buffered));
      } else if DiscardFirst(events, n - 1) {
        StaysClosed(t, before, events[n - 1], Discarded(t.buffered));
      } else {
        ClosesNow(t);
      }
    }
  }

  /** A poll saves exactly when frames were open and an END comes before every DISCARD. */
  lemma PollSavesIff(events: seq<Event>, t: Tape)
    ensures var t' := Closed(events, |events|, t);
            && (Saves(t'.outcomes) == Saves(t.outcomes) + 1 <==> t.buffered != [] && EndFirst(events, |events|))
            && (Saves(t'.outcomes) == Saves(t.outcomes) <==> t.buffered == [] || !EndFirst(events, |events|))
            && (END in events || DISCARD in events ==> t'.buffered == [])
            && (END !in events && DISCARD !in events ==> t' == t)
  {
    OneFirst(events, |events|);
    assert events[..|events|] == events;
    if t.buffered == [] { EmptyPoll(events, |events|, t); } else { PollDecides(events, |events|, t); }
  }

  /** The outside world during one turn of the loop. */
  datatype Turn = Turn(leaders: Samples, observation: Observation, events: seq<Event>)

  /** The latest sample of every side after `n` turns. */
  ghost function Heard(sample: Samples, turns: seq<Turn>, n: nat): Samples
    requires n <= |turns|
  {
    if n == 0 then sample else Heard(sample, turns, n - 1) + turns[n - 1].leaders
  }

  /** A side's latest sample is the one of the last turn that had one, or the one known before the run. */
  lemma {:induction false} HeardIsLatest(sample: Samples, turns: seq<Turn>, n: nat, t: nat, side: string)
    requires n <= |turns| && forall k :: t < k < n ==> side !in turns[k].leaders
    ensures t < n && side in turns[t].leaders ==> side in Heard(sample, turns, n) && Heard(sample, turns, n)[side] == turns[t].leaders[side]
    ensures (forall k :: 0 <= k < n ==> side !in turns[k].leaders) ==>
              (side in Heard(sample, turns, n) <==> side in sample) && (side in sample ==> Heard(sample, turns, n)[side] == sample[side])
    decreases n
  {
    if n > 0 { HeardIsLatest(sample, turns, n - 1, t, side); }
  }

  /** The recorder after one turn: its frame is added, then a successful tick's events act. */
  function AfterTurn(t: Tape, r: Record, turn: Turn, paced: bool): Tape {
    var fed := Tape(t.outcomes, t.buffered + FramesOf(r));
    if paced && !r.failed then Closed(turn.events, |turn.events|, fed) else fed
  }

  /** The recorder after `n` turns: each adds its frame, then a successful tick's events act. */
  ghost function Replay(records: seq<Record>, turns: seq<Turn>, n: nat, paced: bool): Tape
    requires n <= |records| && n <= |turns|
  {
    if n == 0 then Tape([], []) else
      AfterTurn(Replay(records, turns, n - 1, paced), records[n - 1], turns[n - 1], paced)
  }

  /** The end of a run: without an operator the open episode is saved, with one it is dropped. */
  function Finished(t: Tape, paced: bool): Tape {
    if !paced then EndEpisode(t) else if t.buffered == [] then t else DropEpisode(t)
  }

  // ---- What a whole run saves -------------------------------------------------------------------------

  /** The operator closed the open episode in this turn. */
  predicate Closes(r: Record, turn: Turn) { !r.failed && (END in turn.events || DISCARD in turn.events) }

  /** The turn saves `take`, if it is not empty: its tick succeeded, and an END comes before every DISCARD. */
  ghost predicate SavesTake(r: Record, turn: Turn, take: seq<Frame>) {
    !r.failed && take != [] && EndFirst(turn.events, |turn.events|)
  }

  lemma TurnOpen(t: Tape, r: Record, turn: Turn)
    ensures AfterTurn(t, r, turn, true).buffered == if Closes(r, turn) then [] else t.buffered + FramesOf(r)
  {
    PollSavesIff(turn.events, Tape(t.outcomes, t.buffered + FramesOf(r)));
  }

  lemma TurnSaves(t: Tape, r: Record, turn: Turn)
    ensures var take := t.buffered + FramesOf(r);
            SavedOnes(AfterTurn(t, r, turn, true).outcomes) == SavedOnes(t.outcomes) + if SavesTake(r, turn, take) then [take] else []
  {
    PollSaves(turn.events, Tape(t.outcomes, t.buffered + FramesOf(r)));
  }

  ghost predicate Closing(records: seq<Record>, turns: seq<Turn>, t: nat) {
    t < |records| && t < |turns| && Closes(records[t], turns[t])
  }

  /** The turn in which the episode open after `n` turns began: right after the last closing turn. */
  ghost function Opened(records: seq<Record>, turns: seq<Turn>, n: nat): (c: nat)
    requires n <= |records| && n <= |turns|
    ensures c <= n && (c == 0 || Closing(records, turns, c - 1)) && forall k: nat :: c <= k < n ==> !Closing(records, turns, k)
  {
    if n == 0 then 0 else if Closing(records, turns, n - 1) then n else Opened(records, turns, n - 1)
  }

  /** The frames recorded since the last closing turn, turn `t` included. */
  ghost function Take(records: seq<Record>, turns: seq<Turn>, t: nat): seq<Frame>
    requires t < |records| && t < |turns|
  {
    Between(records, Opened(records, turns, t), t + 1)
  }

  /** The episode saved in turn `t`: what was recorded since the last closing turn. */
  ghost function SavedIn(records: seq<Record>, turns: seq<Turn>, t: nat): Option<seq<Frame>>
    requires t < |records| && t < |turns|
  {
    if SavesTake(records[t], turns[t], Take(records, turns, t)) then Some(Take(records, turns, t)) else None
  }

  /** Turn by turn, the episodes saved in the first `n` turns. */
  ghost function Takes(records: seq<Record>, turns: seq<Turn>, n: nat): (takes: seq<Option<seq<Frame>>>)
    requires n <= |records| && n <= |turns|
    ensures |takes| == n
  {
    seq(n, t requires 0 <= t < n => SavedIn(records, turns, t))
  }

  function Listed(take: Option<seq<Frame>>): seq<seq<Frame>> { if take.Some? then [take.value] else [] }

  function AllListed(takes: seq<Option<seq<Frame>>>): seq<seq<Frame>> {
    if takes == [] then [] else AllListed(takes[..|takes| - 1]) + Listed(takes[|takes| - 1])
  }

  /** As many episodes as turns that saved one. */
  lemma {:induction false} ListedCounted(takes: seq<Option<seq<Frame>>>)
    ensures |AllListed(takes)| == |set t: nat | t < |takes| && takes[t].Some?|
  {
    if takes != [] {
      var n := |takes| - 1;
      ListedCounted(takes[..n]);
      var before, all := set t: nat | t < n && takes[..n][t].Some?, set t: nat | t < |takes| && takes[t].Some?;
      assert all == before + if takes[n].Some? then {n} else {};
    }
  }

  /** The saved ones among the outcomes. */
  function SavedOnes(outcomes: seq<Outcome>): seq<seq<Frame>> {
    if outcomes == [] then [] else
      var last := outcomes[|outcomes| - 1];
      SavedOnes(outcomes[..|outcomes| - 1]) + if last.Saved? then [last.frames] else []
  }

  lemma {:induction false} SavesAreSaved(outcomes: seq<Outcome>)
    ensures |SavedOnes(outcomes)| == Saves(outcomes)
  {
    if outcomes != [] { SavesAreSaved(outcomes[..|outcomes| - 1]); }
  }

  /** Later outcomes that are empty and dropped change nothing about what was saved. */
  lemma {:induction false} SavedOnesOfMore(before: seq<Outcome>, after: seq<Outcome>)
    requires |before| <= |after| && after[..|before|] == before && forall k :: |before| <= k < |after| ==> after[k] == Discarded([])
    ensures SavedOnes(after) == SavedOnes(before)
    decreases |after|
  {
    if |after| == |before| {
      assert after == before;
    } else {
      SavedOnesOfMore(before, after[..|after| - 1]);
    }
  }

  lemma SavedOnesClosed(t: Tape, t': Tape, o: Outcome)
    requires ClosedAs(t, t', o)
    ensures SavedOnes(t'.outcomes) == SavedOnes(t.outcomes) + if o.Saved? then [o.frames] else []
  {
    var one := t.outcomes + [o];
    assert one[..|t.outcomes|] == t.outcomes;
    assert t'.outcomes[..|one|] == one;
    SavedOnesOfMore(one, t'.outcomes);
  }

  /** The saved episodes after the events of one poll. */
  lemma PollSaves(events: seq<Event>, t: Tape)
    ensures var t' := Closed(events, |events|, t);
            SavedOnes(t'.outcomes) == SavedOnes(t.outcomes) + if t.buffered != [] && EndFirst(events, |events|) then [t.buffered] else []
  {
    var n := |events|;
    OneFirst(events, n);
    if t.buffered == [] {
      EmptyPoll(events, n, t);
      SavedOnesOfMore(t.outcomes, Closed(events, n, t).outcomes);
    } else {
      PollDecides(events, n, t);
      if EndFirst(events, n) {
        SavedOnesClosed(t, Closed(events, n, t), Saved(t.buffered));
      } else if DiscardFirst(events, n) {
        SavedOnesClosed(t, Closed(events, n, t), Discarded(t.buffered));
      }
    }
  }

  /** The frames recorded in turns `c` to `n - 1`. */
  function Between(records: seq<Record>, c: nat, n: nat): seq<Frame>
    requires n <= |records|
  {
    if n <= c then [] else Between(records, c, n - 1) + FramesOf(records[n - 1])
  }

  lemma {:induction false} BetweenAll(records: seq<Record>, n: nat)
    requires n <= |records|
    ensures Between(records, 0, n) == AllFrames(records[..n])
  {
    if n > 0 {
      BetweenAll(records, n - 1);
      assert records[..n][..n - 1] == records[..n - 1];
    }
  }

  /** What is open after `n` turns of an operator-paced run: the frames since the last closing turn. */
  lemma {:induction false} ReplayOpen(records: seq<Record>, turns: seq<Turn>, n: nat)
    requires n <= |records| && n <= |turns|
    ensures Replay(records, turns, n, true).buffered == Between(records, Opened(records, turns, n), n)
    decreases n
  {
    if n > 0 {
      ReplayOpen(records, turns, n - 1);
      TurnOpen(Replay(records, turns, n - 1, true), records[n - 1], turns[n - 1]);
    }
  }

  lemma TurnTake(records: seq<Record>, turns: seq<Turn>, n: nat, t: Tape)
    requires n < |records| && n < |turns| && t.buffered == Between(records, Opened(records, turns, n), n)
    ensures SavedOnes(AfterTurn(t, records[n], turns[n], true).outcomes) == SavedOnes(t.outcomes) + Listed(SavedIn(records, turns, n))
  {
    TurnSaves(t, records[n], turns[n]);
  }

  lemma ReplayTake(records: seq<Record>, turns: seq<Turn>, n: nat)
    requires n < |records| && n < |turns|
    ensures SavedAfter(records, turns, n + 1) == SavedAfter(records, turns, n) + Listed(SavedIn(records, turns, n))
  {
    ReplayOpen(records, turns, n);
    TurnTake(records, turns, n, Replay(records, turns, n, true));
  }

  /** Adding what each turn lists gives the list of all. */
  lemma {:induction false} ListedInOrder(saved: seq<seq<seq<Frame>>>, takes: seq<Option<seq<Frame>>>)
    requires |saved| == |takes| + 1 && saved[0] == []
    requires forall t :: 0 <= t < |takes| ==> saved[t + 1] == saved[t] + Listed(takes[t])
    ensures saved[|takes|] == AllListed(takes)
    decreases |takes|
  {
    if takes != [] {
      var n := |takes| - 1;
      ListedInOrder(saved[..n + 1], takes[..n]);
      assert saved[n + 1] == saved[n] + Listed(takes[n]);
    }
  }

  ghost function SavedAfter(records: seq<Record>, turns: seq<Turn>, n: nat): seq<seq<Frame>>
    requires n <= |records| && n <= |turns|
  {
    SavedOnes(Replay(records, turns, n, true).outcomes)
  }

  /** Over every operator-paced run, the saved episodes are exactly those of the saving turns, in order. */
  lemma ReplaySaves(records: seq<Record>, turns: seq<Turn>, n: nat)
    requires n <= |records| && n <= |turns|
    ensures SavedAfter(records, turns, n) == AllListed(Takes(records, turns, n))
  {
    var saved := seq(n + 1, t requires 0 <= t <= n => SavedAfter(records, turns, t));
    SavesInOrder(records, turns, n, saved, Takes(records, turns, n));
  }

  lemma SavesInOrder(records: seq<Record>, turns: seq<Turn>, n: nat, saved: seq<seq<seq<Frame>>>, takes: seq<Option<seq<Frame>>>)
    requires n <= |records| && n <= |turns| && |saved| == n + 1 && |takes| == n
    requires forall t :: 0 <= t <= n ==> saved[t] == SavedAfter(records, turns, t)
    requires forall t :: 0 <= t < n ==> takes[t] == SavedIn(records, turns, t)
    ensures saved[n] == AllListed(takes)
  {
    forall t | 0 <= t < n ensures saved[t + 1] == saved[t] + Listed(takes[t]) {
      ReplayTake(records, turns, t);
    }
    ListedInOrder(saved, takes);
  }

  /** Without an operator nothing is closed before the end. */
  lemma {:induction false} ReplayUnpaced(records: seq<Record>, turns: seq<Turn>, n: nat)
    requires n <= |records| && n <= |turns|
    ensures Replay(records, turns, n, false) == Tape([], Between(records, 0, n))
    decreases n
  {
    if n > 0 {
      ReplayUnpaced(records, turns, n - 1);
    }
  }

  /** What a finished run has saved: with an operator the takes of its saving turns, without one everything it
      recorded as one episode. */
  ghost predicate RunSaved(outcomes: seq<Outcome>, records: seq<Record>, turns: seq<Turn>, n: nat, paced: bool)
    requires n <= |records| && n <= |turns|
  {
    if paced then
      && SavedOnes(outcomes) == AllListed(Takes(records, turns, n))
      && Saves(outcomes) == |set t: nat | t < n && Takes(records, turns, n)[t].Some?|
    else outcomes == if AllFrames(records[..n]) == [] then [] else [Saved(AllFrames(records[..n]))]
  }

  /** Frames still open at the end of an operator-paced run are dropped, not saved. */
  ghost predicate OpenDropped(outcomes: seq<Outcome>, records: seq<Record>, turns: seq<Turn>, n: nat)
    requires n <= |records| && n <= |turns|
  {
    var open := Between(records, Opened(records, turns, n), n);
    open != [] ==> outcomes != [] && outcomes[|outcomes| - 1] == Discarded(open)
  }

  lemma FinishedSaves(records: seq<Record>, turns: seq<Turn>, n: nat, paced: bool)
    requires n <= |records| && n <= |turns|
    ensures var t := Finished(Replay(records, turns, n, paced), paced);
            RunSaved(t.outcomes, records, turns, n, paced) && (paced ==> OpenDropped(t.outcomes, records, turns, n))
  {
    var before := Replay(records, turns, n, paced);
    if paced {
      ReplaySaves(records, turns, n);
      ReplayOpen(records, turns, n);
      ListedCounted(Takes(records, turns, n));
      var t := Finished(before, true);
      if before.buffered != [] { SavedOnesClosed(before, t, Discarded(before.buffered)); }
      SavesAreSaved(t.outcomes);
    } else {
      ReplayUnpaced(records, turns, n);
      BetweenAll(records, n);
    }
  }

  /** A later record changes nothing about the turns before it. */
  lemma {:induction false} ReplayPrefix(records: seq<Record>, r: Record, turns: seq<Turn>, n: nat, paced: bool)
    requires n <= |records| && n <= |turns|
    ensures Replay(records + [r], turns, n, paced) == Replay(records, turns, n, paced)
    decreases n
  {
    if n > 0 { ReplayPrefix(records, r, turns, n - 1, paced); }
  }

  /** Does the loop go on after turn `t`? */
  ghost predicate GoesOn(records: seq<Record>, turns: seq<Turn>, t: nat, paced: bool, target: nat)
    requires t < |records| && t < |turns|
  {
    && !records[t].failed && (paced ==> STOP !in turns[t].events)
    && Saves(Replay(records, turns, t + 1, paced).outcomes) < target
  }

  /** The first `n` turns were ticked: each record is exact for the latest samples at its turn. */
  ghost predicate Ticked(records: seq<Record>, sample: Samples, turns: seq<Turn>, n: nat, arms: seq<CommandArm>, l: Layout, spec: FrameSpec) {
    && |records| == n <= |turns|
    && forall t :: 0 <= t < n ==> TickedAt(records, sample, turns, t, arms, l, spec)
  }

  ghost predicate TickedAt(records: seq<Record>, sample: Samples, turns: seq<Turn>, t: nat, arms: seq<CommandArm>, l: Layout, spec: FrameSpec) {
    && t < |records| && t < |turns| && records[t].sample == Heard(sample, turns, t + 1)
    && Exact(records[t], turns[t].observation, arms, l, spec)
  }

  lemma FinishedAccounted(added: seq<Frame>, t: Tape)
    requires Flatten(t.outcomes) + t.buffered == added && t.buffered == []
    ensures Flatten(t.outcomes) == added
  {
  }

  /** Where the recorder stands after `n` turns, and whether the loop goes on. */
  ghost predicate Tracked(records: seq<Record>, tape: Tape, turns: seq<Turn>, n: nat, paced: bool, target: nat, going: bool) {
    && n == |records| <= |turns| && tape == Replay(records, turns, n, paced)
    && (forall t :: 0 <= t < n - 1 ==> GoesOn(records, turns, t, paced, target))
    && (going <==> n == 0 || GoesOn(records, turns, n - 1, paced, target))
  }

  lemma ReplayPrefixes(records: seq<Record>, r: Record, turns: seq<Turn>, paced: bool, target: nat)
    requires |records| <= |turns|
    ensures Replay(records + [r], turns, |records|, paced) == Replay(records, turns, |records|, paced)
    ensures forall t :: 0 <= t < |records| ==> (GoesOn(records + [r], turns, t, paced, target) <==> GoesOn(records, turns, t, paced, target))
  {
    ReplayPrefix(records, r, turns, |records|, paced);
    forall t | 0 <= t < |records| ensures GoesOn(records + [r], turns, t, paced, target) <==> GoesOn(records, turns, t, paced, target) {
      ReplayPrefix(records, r, turns, t + 1, paced);
    }
  }

  lemma TrackedMore(records: seq<Record>, tape: Tape, turns: seq<Turn>, paced: bool, target: nat, r: Record, tape': Tape, going: bool)
    requires Tracked(records, tape, turns, |records|, paced, target, true) && |records| < |turns|
    requires tape' == AfterTurn(tape, r, turns[|records|], paced)
    requires going <==> !r.failed && (paced ==> STOP !in turns[|records|].events) && Saves(tape'.outcomes) < target
    ensures Tracked(records + [r], tape', turns, |records| + 1, paced, target, going)
  {
    ReplayPrefixes(records, r, turns, paced, target);
    assert tape' == Replay(records + [r], turns, |records| + 1, paced);
  }

  lemma TickedMore(records: seq<Record>, r: Record, sample0: Samples, turns: seq<Turn>, arms: seq<CommandArm>, l: Layout, spec: FrameSpec)
    requires Ticked(records, sample0, turns, |records|, arms, l, spec) && |records| < |turns|
    requires r.sample == Heard(sample0, turns, |records| + 1) && Exact(r, turns[|records|].observation, arms, l, spec)
    ensures Ticked(records + [r], sample0, turns, |records| + 1, arms, l, spec)
  {
    forall t | 0 <= t < |records| ensures TickedAt(records + [r], sample0, turns, t, arms, l, spec) {
      assert TickedAt(records, sample0, turns, t, arms, l, spec);
    }
    assert TickedAt(records + [r], sample0, turns, |records|, arms, l, spec);
  }
}
