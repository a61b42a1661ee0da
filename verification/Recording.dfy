/** Recording: the loop that commands the arms, records frames and closes episodes. */
module Recording {
  import opened Wrappers
  import opened Layout
  import opened Deltas
  import opened Collection
  import opened Frames
  import opened Episodes

  class CollectionLoop {
    const layout: Layout
    const spec: FrameSpec
    const arms: seq<CommandArm>
    const numEpisodes: nat
    const operatorPaced: bool
    var held: Held
    var posts: seq<Post>
    var grips: seq<GripPost>
    var episodesDone: nat
    var tape: Tape                   // the recorder
    ghost var sample: Samples        // latest leader sample of every side so far
    ghost var records: seq<Record>   // what every tick so far did

    ghost predicate Valid()
      reads this
    {
      && LayoutOk(layout) && DistinctSlots(layout.slots) && numEpisodes >= 1 && HeldOk(held, sample, layout.slots)
      && posts == AllPosts(records) && grips == AllGrips(records) && Accounted(AllFrames(records), tape, episodesDone)
    }

    constructor (layout: Layout, spec: FrameSpec, arms: seq<CommandArm>, episodes: int, operatorPaced: bool)
      requires LayoutOk(layout) && DistinctSlots(layout.slots)
      ensures Valid() && records == [] && tape == Tape([], []) && sample == map[]
      ensures this.layout == layout && this.spec == spec && this.arms == arms && this.operatorPaced == operatorPaced
      ensures numEpisodes == if episodes < 1 then 1 else episodes
    {
      this.layout, this.spec, this.arms, this.operatorPaced := layout, spec, arms, operatorPaced;
      numEpisodes := if episodes < 1 then 1 else episodes;
      held, posts, grips, episodesDone, tape := Held(map[], map[]), [], [], 0, Tape([], []);
      sample, records := map[], [];
    }

    /** One tick: every setpoint it posts, and the frame if it records one, come from the same latest samples. */
    method Tick(leaders: Samples, o: Observation) returns (r: Built, ghost rec: Record)
      requires Valid()
      modifies this
      ensures Valid() && sample == old(sample) + leaders && episodesDone == old(episodesDone)
      ensures records == old(records) + [rec] && rec.sample == sample && Exact(rec, o, arms, layout, spec) && rec.failed == r.Raised?
      ensures tape == Tape(old(tape).outcomes, old(tape).buffered + FramesOf(rec))
    {
      var more, gripMore;
      r, more, gripMore, rec := Perform(leaders, o);
      Commit(r, more, gripMore, rec);
    }

    /** Post the setpoints and give the frame, if any, to the recorder. */
    method Commit(r: Built, more: seq<Post>, gripMore: seq<GripPost>, ghost rec: Record)
      requires Valid() && rec.posts == more && rec.grips == gripMore && rec.frame == if r.Built? then Some(r.frame) else None
      modifies this`posts, this`grips, this`tape, this`records
      ensures Valid() && records == old(records) + [rec]
      ensures tape == Tape(old(tape).outcomes, old(tape).buffered + FramesOf(rec))
    {
      OneMoreRecord(records, rec);
      FrameAccounted(AllFrames(records), tape, episodesDone, FramesOf(rec));
      posts := posts + more;
      grips := grips + gripMore;
      tape := Tape(tape.outcomes, tape.buffered + if r.Built? then [r.frame] else []);
      records := records + [rec];
    }

    /** What a tick computes, before the recorder and the posted setpoints are updated. */
    method Perform(leaders: Samples, o: Observation) returns (r: Built, more: seq<Post>, gripMore: seq<GripPost>, ghost rec: Record)
      requires Valid()
      modifies this`held, this`sample
      ensures HeldOk(held, sample, layout.slots) && sample == old(sample) + leaders
      ensures rec == Record(sample, more, gripMore, if r.Built? then Some(r.frame) else None, r.Raised?)
      ensures Exact(rec, o, arms, layout, spec)
    {
      var held', qd, grip := Fill(layout.slots, leaders, held, sample);
      held := held';
      sample := sample + leaders;
      KnownIsHeld(held, sample, layout.slots);
      var ok;
      ok, more, gripMore := CommandAll(arms, layout.slots, held, qd, grip, sample);
      if ok {
        r := BuildFrame(layout, spec, o, qd, grip, sample);
      } else {
        r := Raised;
      }
      rec := Record(sample, more, gripMore, if r.Built? then Some(r.frame) else None, r.Raised?);
    }

    /** `_save`: an empty episode is never saved. */
    method Save()
      requires Valid()
      modifies this`tape, this`episodesDone
      ensures Valid() && tape == EndEpisode(old(tape))
      ensures episodesDone == old(episodesDone) + if old(tape).buffered == [] then 0 else 1
    {
      EpisodeAccounted(AllFrames(records), tape, episodesDone);
      if |tape.buffered| > 0 {
        tape := Tape(tape.outcomes + [Saved(tape.buffered)], []);
        episodesDone := episodesDone + 1;
      }
    }

    method Discard()
      requires Valid()
      modifies this`tape
      ensures Valid() && tape == DropEpisode(old(tape))
    {
      EpisodeAccounted(AllFrames(records), tape, episodesDone);
      tape := Tape(tape.outcomes + [Discarded(tape.buffered)], []);
    }

    /** The operator's events of one poll: they act in order, and at most one of them saves. */
    method Poll(events: seq<Event>) returns (stop: bool)
      requires Valid()
      modifies this`tape, this`episodesDone
      ensures Valid() && episodesDone <= old(episodesDone) + 1
      ensures stop <==> STOP in events
      ensures tape == Closed(events, |events|, old(tape))
      ensures episodesDone == old(episodesDone) + 1 <==> old(tape).buffered != [] && EndFirst(events, |events|)
      ensures old(tape).buffered != [] && EndFirst(events, |events|) ==> ClosedAs(old(tape), tape, Saved(old(tape).buffered))
      ensures old(tape).buffered != [] && DiscardFirst(events, |events|) ==> ClosedAs(old(tape), tape, Discarded(old(tape).buffered))
      ensures END !in events && DISCARD !in events ==> tape == old(tape)
    {
      stop := false;
      for i := 0 to |events|
        invariant Valid() && tape == Closed(events, i, old(tape)) && stop == Stops(events, i)
      {
        HandleEvent(events[i]);
        if events[i] == STOP {
          stop := true;
        }
      }
      ClosedSavesOnce(events, |events|, old(tape));
      StopsIff(events, |events|);
      PollSavesIff(events, old(tape));
      if old(tape).buffered != [] {
        PollDecides(events, |events|, old(tape));
      }
    }

    method HandleEvent(e: Event)
      requires Valid()
      modifies this`tape, this`episodesDone
      ensures Valid() && tape == AfterEvent(e, old(tape))
    {
      match e
      case END => Save();
      case DISCARD => Discard();
      case STOP =>
    }

    /** One turn of the loop: a tick and, if it did not raise, the operator's events. */
    method TakeTurn(turn: Turn) returns (stop: bool, failed: bool, ghost rec: Record)
      requires Valid()
      modifies this
      ensures Valid() && sample == old(sample) + turn.leaders && episodesDone <= old(episodesDone) + 1
      ensures !operatorPaced ==> episodesDone == old(episodesDone) && !stop
      ensures records == old(records) + [rec] && rec.sample == sample && Exact(rec, turn.observation, arms, layout, spec) && rec.failed == failed
      ensures tape == AfterTurn(old(tape), rec, turn, operatorPaced)
      ensures operatorPaced && !failed ==> (stop <==> STOP in turn.events)
    {
      var r;
      r, rec := Tick(turn.leaders, turn.observation);
      stop, failed := false, r.Raised?;
      if !failed && operatorPaced {
        stop := Poll(turn.events);
      }
    }

    /** A whole run over any turns of the world, ended by the episode count, a STOP, an error in a tick or the
        end of the turns (an external stop). */
    method Run(turns: seq<Turn>) returns (n: nat)
      requires Valid() && records == [] && tape == Tape([], []) && episodesDone == 0
      modifies this
      ensures Valid() && Ticked(records, old(sample), turns, n, arms, layout, spec)
      ensures posts == AllPosts(records) && grips == AllGrips(records)
      ensures tape == Finished(Replay(records, turns, n, operatorPaced), operatorPaced)
      ensures tape.buffered == [] && Flatten(tape.outcomes) == AllFrames(records)
      ensures episodesDone == Saves(tape.outcomes) <= numEpisodes && RunSaved(tape.outcomes, records, turns, n, operatorPaced)
      ensures operatorPaced ==> OpenDropped(tape.outcomes, records, turns, n)
      ensures forall t :: 0 <= t < n - 1 ==> GoesOn(records, turns, t, operatorPaced, numEpisodes)
      ensures 0 < n < |turns| ==> !GoesOn(records, turns, n - 1, operatorPaced, numEpisodes)
      ensures turns != [] ==> n > 0
    {
      var going;
      n, going := Turns(turns);
      Finish();
      FinishedAccounted(AllFrames(records), tape);
      FinishedSaves(records, turns, n, operatorPaced);
    }

    /** The loop of `run`. */
    method Turns(turns: seq<Turn>) returns (n: nat, going: bool)
      requires Valid() && records == [] && tape == Tape([], []) && episodesDone == 0
      modifies this
      ensures Valid() && Ticked(records, old(sample), turns, n, arms, layout, spec)
      ensures episodesDone <= numEpisodes && (!operatorPaced ==> episodesDone == 0)
      ensures Tracked(records, tape, turns, n, operatorPaced, numEpisodes, going) && (n == |turns| || !going)
    {
      n, going := 0, true;
      while n < |turns| && going
        invariant Valid() && episodesDone <= numEpisodes && (!operatorPaced ==> episodesDone == 0) && (going ==> episodesDone < numEpisodes)
        invariant Ticked(records, old(sample), turns, n, arms, layout, spec) && sample == Heard(old(sample), turns, n)
        invariant Tracked(records, tape, turns, n, operatorPaced, numEpisodes, going)
        decreases |turns| - n
      {
        going := NextTurn(turns, n, old(sample));
        n := n + 1;
      }
    }

    /** One turn and the test whether another one follows. */
    method NextTurn(turns: seq<Turn>, n: nat, ghost sample0: Samples) returns (going: bool)
      requires Valid() && episodesDone < numEpisodes && (!operatorPaced ==> episodesDone == 0) && n < |turns|
      requires Ticked(records, sample0, turns, n, arms, layout, spec) && sample == Heard(sample0, turns, n)
      requires Tracked(records, tape, turns, n, operatorPaced, numEpisodes, true)
      modifies this
      ensures Valid() && episodesDone <= numEpisodes && (!operatorPaced ==> episodesDone == 0) && (going ==> episodesDone < numEpisodes)
      ensures Ticked(records, sample0, turns, n + 1, arms, layout, spec) && sample == Heard(sample0, turns, n + 1)
      ensures Tracked(records, tape, turns, n + 1, operatorPaced, numEpisodes, going)
    {
      ghost var records0, tape0 := records, tape;
      var stop, failed;
      ghost var rec;
      stop, failed, rec := TakeTurn(turns[n]);
      going := !stop && !failed && episodesDone < numEpisodes;
      TickedMore(records0, rec, sample0, turns, arms, layout, spec);
      TrackedMore(records0, tape0, turns, operatorPaced, numEpisodes, rec, tape, going);
    }

    /** The `finally` of `run`. */
    method Finish()
      requires Valid() && (!operatorPaced ==> episodesDone == 0) && episodesDone <= numEpisodes
      modifies this`tape, this`episodesDone
      ensures Valid() && tape == Finished(old(tape), operatorPaced) && episodesDone <= numEpisodes
    {
      if !operatorPaced {
        Save();
      } else if |tape.buffered| > 0 {
        Discard();
      }
    }
  }
}
