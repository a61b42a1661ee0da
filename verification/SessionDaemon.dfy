/** The handlers and watchdogs of `SessionDaemon`, in place on the daemon's fields. */
module SessionDaemon {
  import opened Wrappers
  import opened Sequences
  import opened Session

  /** `[s for s, arm in arms if control_enabled and s in session_qs]`, narrowed to the fed sides. */
  function CommandSides(phase: Phase, cfg: RunConfig, blocked: set<Side>, queues: set<Side>, n: nat): (sides: seq<Side>)
    requires n <= |cfg.arms|
    ensures forall s :: s in sides <==> s in queues && (s, true) in cfg.arms[..n] && Commandable(s, phase, cfg, blocked, queues)
  {
    if n == 0 then [] else
      var rest := CommandSides(phase, cfg, blocked, queues, n - 1);
      var (s, enabled) := cfg.arms[n - 1];
      assert cfg.arms[..n] == cfg.arms[..n - 1] + [(s, enabled)];
      if enabled && Commandable(s, phase, cfg, blocked, queues) then rest + [s] else rest
  }

  /** Config order is a dict: sides do not repeat. */
  ghost predicate SidesDistinct(cfg: RunConfig) {
    forall i, j :: 0 <= i < j < |cfg.arms| ==> cfg.arms[i].0 != cfg.arms[j].0
  }

  lemma {:induction false} CommandSidesDistinct(phase: Phase, cfg: RunConfig, blocked: set<Side>, queues: set<Side>, n: nat)
    requires n <= |cfg.arms| && SidesDistinct(cfg)
    ensures Distinct(CommandSides(phase, cfg, blocked, queues, n))
  {
    if n > 0 {
      CommandSidesDistinct(phase, cfg, blocked, queues, n - 1);
      assert cfg.arms[n - 1].0 !in CommandSides(phase, cfg, blocked, queues, n - 1) by {
        var before := cfg.arms[..n - 1];
        assert forall i :: 0 <= i < |before| ==> before[i].0 != cfg.arms[n - 1].0;
      }
    }
  }

  /** `sides` lists exactly the sides that may be commanded, each once; a dry run commands none. */
  ghost predicate Chosen(sides: seq<Side>, phase: Phase, cfg: RunConfig, blocked: set<Side>, queues: set<Side>) {
    && Distinct(sides)
    && (forall s :: s in sides <==> Commandable(s, phase, cfg, blocked, queues))
    && (DryRun(phase, cfg, blocked) ==> sides == [])
  }

  /** Every commanded side has been seen in control, now or before. */
  ghost predicate AllSeen(r: ActiveRun, active: set<Side>) {
    r.commandSides != [] && forall s :: s in r.commandSides ==> s in active || s in r.activeSides
  }

  /** The queues after one message has been put on each of `sides`. */
  ghost predicate PutOn(queues: map<Side, seq<EnterControl>>, queues': map<Side, seq<EnterControl>>, sides: seq<Side>, m: EnterControl) {
    && queues'.Keys == queues.Keys
    && forall s :: s in queues ==> queues'[s] == queues[s] + if s in sides then [m] else []
  }

  /** Messages for sides that are not down leave every reaped arm's queue empty. */
  lemma ArmsStayOk(arms: seq<ArmUnit>, down: set<string>, queues: map<Side, seq<EnterControl>>, queues': map<Side, seq<EnterControl>>,
                   sides: seq<Side>, m: EnterControl)
    requires ArmsOk(arms, down, queues) && PutOn(queues, queues', sides, m)
    requires forall u :: u in arms && u.name in down ==> u.side !in sides
    ensures ArmsOk(arms, down, queues')
  {
    forall i | 0 <= i < |arms| ensures ReapedOk(arms[i], down, queues') {
      assert ReapedOk(arms[i], down, queues) && arms[i] in arms;
    }
  }

  /** `run` is the fresh run of `cmd`, labelled by its skill or task, and one `EnterControl` of its phase went on
      exactly the commanded sides, each commandable and listed once. */
  ghost predicate StartedAs(cmd: StartCmd, env: StartEnv, run: Option<ActiveRun>, queues: map<Side, seq<EnterControl>>, queues': map<Side, seq<EnterControl>>) {
    && WellFormed(cmd) && env.composed.Some? && run.Some?
    && run.value.phase == cmd.phase.value && run.value.title == (if cmd.phase == Some(Skill) then cmd.skill.value else cmd.task)
    && !run.value.stopping && !run.value.armed && run.value.activeSides == {}
    && PutOn(queues, queues', run.value.commandSides, EnterControl(cmd.phase.value))
    && Chosen(run.value.commandSides, cmd.phase.value, env.composed.value, env.blocked, queues.Keys)
  }

  class Daemon {
    var arms: seq<ArmUnit>
    var cameras: seq<CameraUnit>
    var queues: map<Side, seq<EnterControl>>
    var run: Option<ActiveRun>
    var pending: Option<PendingStart>
    var mode: Mode
    var view: Option<PendingView>
    var runSeq: nat
    var armsDown: set<string>
    var camerasDown: set<string>
    var clock: real
    ghost var events: seq<Event>

    ghost function Fleet(): Fleet
      reads this
    {
      Session.Fleet(arms, cameras, queues, armsDown, clock, events)
    }

    ghost predicate Valid()
      reads this
    {
      ModeOk(run, pending, mode, view) && FleetOk(Fleet())
    }

    /** `start_hardware`: every process is spawned once, before any command is read. */
    constructor (sides: seq<(string, Side, bool)>, cams: seq<string>, now: real)
      requires forall i, j :: 0 <= i < j < |sides| ==> sides[i].0 != sides[j].0 && sides[i].1 != sides[j].1
      requires forall i, j :: 0 <= i < j < |cams| ==> cams[i] != cams[j]
      ensures Valid() && mode == Viewing && run.None? && pending.None? && runSeq == 0
      ensures forall s :: s in queues <==> exists i :: 0 <= i < |sides| && sides[i].1 == s && sides[i].2
      ensures forall s :: s in queues ==> queues[s] == []
    {
      arms := seq(|sides|, i requires 0 <= i < |sides| => ArmUnit(sides[i].0, sides[i].1, true, now, false, false));
      cameras := seq(|cams|, i requires 0 <= i < |cams| => CameraUnit(cams[i], true, now, false, None));
      queues := map i | 0 <= i < |sides| && sides[i].2 :: sides[i].1 := [];
      run, pending, mode, view, runSeq := None, None, Viewing, None, 0;
      armsDown, camerasDown, clock := {}, {}, now;
      events := seq(|sides|, i requires 0 <= i < |sides| => ArmSpawn(sides[i].1, now, false, 0, false));
    }

    /** Reads the monotonic clock, `elapsed` after the last reading. */
    method Now(elapsed: Duration) returns (now: real)
      requires Valid()
      modifies this`clock
      ensures Valid() && now == clock == old(clock) + elapsed
    {
      clock := clock + elapsed;
      now := clock;
    }

    // ---- Run lifecycle -----------------------------------------------------------------------

    function DownSides(): set<Side>
      reads this`arms, this`armsDown
    {
      set u | u in arms && u.name in armsDown :: u.side
    }

    /** Does every gate of `_handle_start` let this command through? */
    ghost predicate Accepts(cmd: StartCmd, env: StartEnv)
      reads this`run, this`camerasDown, this`armsDown, this`queues, this`arms
    {
      && WellFormed(cmd) && run.None? && !env.busy
      && (cmd.phase.value != Skill ==> camerasDown == {} && armsDown == {})
      && env.composed.Some?
      && (cmd.phase.value == Eval ==> !env.unreachable)
      && (cmd.phase.value == Collection ==> !env.stale && !env.limp)
      && var cfg := env.composed.value;
         var sides := CommandSides(cmd.phase.value, cfg, env.blocked, queues.Keys, |cfg.arms|);
         (cfg.driveSides.Some? ==> sides != []) && forall s :: s in sides ==> s !in DownSides()
    }

    method SetPending(cmd: StartCmd, deadline: Option<real>)
      modifies this`pending, this`view
      ensures pending == Some(PendingStart(cmd, deadline)) && view == ViewOf(pending) == Some(PendingView(cmd.phase, cmd.task, cmd.skill))
    {
      pending := Some(PendingStart(cmd, deadline));
      view := Some(PendingView(cmd.phase, cmd.task, cmd.skill));
    }

    /** Queue a start behind the arms that are still in control. */
    method Queue(cmd: StartCmd, deadline: real)
      requires Valid() && run.None?
      modifies this`pending, this`view
      ensures Valid() && pending == Some(PendingStart(cmd, Some(deadline)))
    {
      SetPending(cmd, Some(deadline));
    }

    method ClearPending()
      modifies this`pending, this`view
      ensures pending.None? && view.None?
    {
      pending, view := None, None;
    }

    method PutEnterControl(sides: seq<Side>, m: EnterControl)
      requires Distinct(sides) && forall s :: s in sides ==> s in queues
      modifies this`queues
      ensures PutOn(old(queues), queues, sides, m)
    {
      for i := 0 to |sides|
        invariant PutOn(old(queues), queues, sides[..i], m)
      {
        assert sides[..i + 1] == sides[..i] + [sides[i]];
        assert sides[i] !in sides[..i];
        queues := queues[sides[i] := queues[sides[i]] + [m]];
      }
      assert sides[..|sides|] == sides;
    }

    /** The gates of `_handle_start`: the sides to command, or no start at all. */
    method Vet(cmd: StartCmd, env: StartEnv) returns (sides: Option<seq<Side>>)
      requires env.composed.Some? ==> SidesDistinct(env.composed.value)
      ensures sides.Some? <==> Accepts(cmd, env)
      ensures sides.Some? ==>
                && Chosen(sides.value, cmd.phase.value, env.composed.value, env.blocked, queues.Keys)
                && (forall u :: u in arms && u.name in armsDown ==> u.side !in sides.value)
    {
      if !WellFormed(cmd) { return None; }
      if run.Some? { return None; }
      var phase := cmd.phase.value;
      if env.busy { return None; }
      if camerasDown != {} && phase != Skill { return None; }
      if armsDown != {} && phase != Skill { return None; }
      if env.composed.None? { return None; }
      var cfg := env.composed.value;
      if phase == Eval && env.unreachable { return None; }
      if phase == Collection && (env.stale || env.limp) { return None; }
      var command := CommandSides(phase, cfg, env.blocked, queues.Keys, |cfg.arms|);
      CommandSidesDistinct(phase, cfg, env.blocked, queues.Keys, |cfg.arms|);
      assert cfg.arms[..|cfg.arms|] == cfg.arms;
      if cfg.driveSides.Some? && command == [] { return None; }
      if exists s :: s in command && s in DownSides() { return None; }
      assert |command| > 0 ==> command[0] in command;
      sides := Some(command);
    }

    /** Put the start message on the commanded sides, none of which is down. */
    method EnterSides(sides: seq<Side>, m: EnterControl)
      requires Valid() && Distinct(sides) && forall s :: s in sides ==> s in queues
      requires forall u :: u in arms && u.name in armsDown ==> u.side !in sides
      modifies this`queues
      ensures Valid() && PutOn(old(queues), queues, sides, m)
    {
      ghost var f0 := Fleet();
      PutEnterControl(sides, m);
      ArmsStayOk(arms, armsDown, old(queues), queues, sides, m);
      QueuesChange(f0, queues);
      assert Fleet() == f0.(queues := queues);
    }

    /** The effects of an accepted start. */
    method Launch(cmd: StartCmd, sides: seq<Side>)
      requires Valid() && WellFormed(cmd) && run.None? && Distinct(sides)
      requires forall s :: s in sides ==> s in queues
      requires forall u :: u in arms && u.name in armsDown ==> u.side !in sides
      modifies this`run, this`pending, this`mode, this`view, this`runSeq, this`queues
      ensures Valid() && pending.None? && runSeq == old(runSeq) + 1
      ensures run == Some(ActiveRun(cmd.phase.value, if cmd.phase == Some(Skill) then cmd.skill.value else cmd.task, sides, false, false, {}))
      ensures PutOn(old(queues), queues, sides, EnterControl(cmd.phase.value))
    {
      var phase := cmd.phase.value;
      EnterSides(sides, EnterControl(phase));
      run := Some(ActiveRun(phase, if phase == Skill then cmd.skill.value else cmd.task, sides, false, false, {}));
      mode := Running(phase);
      runSeq := runSeq + 1;
      ClearPending();
    }

    /** A refused start touches nothing; a queued one only the queued start; an accepted one adds one
        run and one `EnterControl` on exactly the commanded sides. */
    method HandleStart(cmd: StartCmd, env: StartEnv, elapsed: Duration) returns (o: StartOutcome)
      requires Valid() && (env.composed.Some? ==> SidesDistinct(env.composed.value))
      modifies this`run, this`pending, this`mode, this`view, this`runSeq, this`queues, this`clock
      ensures Valid() && clock == old(clock) + elapsed
      ensures o.Started? <==> old(Accepts(cmd, env))
      ensures o.Queued? <==> WellFormed(cmd) && old(run).None? && env.busy
      ensures o.Refused? ==> Untouched(old(run), old(pending), old(mode), old(runSeq), old(queues))
      ensures o.Queued? ==>
                && run == old(run) && mode == old(mode) && runSeq == old(runSeq) && queues == old(queues)
                && pending == Some(PendingStart(cmd, Some(clock + 20.0)))
      ensures o.Started? ==>
                && old(run).None? && pending.None? && runSeq == old(runSeq) + 1
                && StartedAs(cmd, env, run, old(queues), queues) && run.value.commandSides == o.sides
                && (forall u :: u in arms && u.name in armsDown ==> u.side !in o.sides)
    {
      var now := Now(elapsed);
      if WellFormed(cmd) && run.None? && env.busy {
        Queue(cmd, now + PENDING_WINDDOWN);
        return Queued;
      }
      o := StartNow(cmd, env);
    }

    /** The gates and, if they let the command through, its effects. */
    method StartNow(cmd: StartCmd, env: StartEnv) returns (o: StartOutcome)
      requires Valid() && (env.composed.Some? ==> SidesDistinct(env.composed.value))
      modifies this`run, this`pending, this`mode, this`view, this`runSeq, this`queues
      ensures Valid() && !o.Queued? && (o.Started? <==> old(Accepts(cmd, env)))
      ensures o.Refused? ==> Untouched(old(run), old(pending), old(mode), old(runSeq), old(queues))
      ensures o.Started? ==>
                && old(run).None? && pending.None? && runSeq == old(runSeq) + 1
                && StartedAs(cmd, env, run, old(queues), queues) && run.value.commandSides == o.sides
                && (forall u :: u in arms && u.name in armsDown ==> u.side !in o.sides)
    {
      var sides := Vet(cmd, env);
      if sides.None? { return Refused; }
      Launch(cmd, sides.value);
      o := Started(sides.value);
    }

    ghost predicate Untouched(run0: Option<ActiveRun>, pending0: Option<PendingStart>, mode0: Mode, seq0: nat, queues0: map<Side, seq<EnterControl>>)
      reads this`run, this`pending, this`mode, this`runSeq, this`queues
    {
      run == run0 && pending == pending0 && mode == mode0 && runSeq == seq0 && queues == queues0
    }

    method HandleStop()
      requires ModeOk(run, pending, mode, view)
      modifies this`run, this`pending, this`mode, this`view
      ensures ModeOk(run, pending, mode, view) && pending.None?
      ensures run == if old(run).None? then None else Some(old(run).value.(stopping := true))
    {
      if pending.Some? { ClearPending(); }
      if run.None? { return; }
      if !run.value.stopping {
        run := Some(run.value.(stopping := true));
        mode := Saving;
      }
    }

    /** What the queued start is after a switch: the new one, if the session had to wait; none, if it
        started at once; and the old one, untouched, exactly when the command is malformed or the session
        is free and refuses to start it at once. */
    method HandleSwitch(cmd: StartCmd, busy: bool, env: StartEnv, elapsed: Duration) returns (o: StartOutcome)
      requires Valid() && (env.composed.Some? ==> SidesDistinct(env.composed.value))
      modifies this`run, this`pending, this`mode, this`view, this`runSeq, this`queues, this`clock
      ensures Valid()
      ensures !WellFormed(cmd) ==> o.Refused?
      ensures o.Refused? ==> run == old(run) && pending == old(pending) && runSeq == old(runSeq) && queues == old(queues)
      ensures o.Queued? ==> pending.Some? && pending.value.cmd == cmd && runSeq == old(runSeq) && queues == old(queues)
      ensures o.Started? ==> pending.None? && runSeq == old(runSeq) + 1 && StartedAs(cmd, env, run, old(queues), queues)
      ensures WellFormed(cmd) && old(run).Some? ==>
                o.Queued? && pending == Some(PendingStart(cmd, None)) && run == Some(old(run).value.(stopping := true))
      ensures WellFormed(cmd) && old(run).None? && busy ==> o.Queued? && run.None?
      ensures o.Started? <==> !busy && old(Accepts(cmd, env))
      ensures o.Refused? <==> !WellFormed(cmd) || (old(run).None? && !busy && !env.busy && !old(Accepts(cmd, env)))
      ensures old(pending).Some? && old(pending).value.cmd != cmd ==>
                (o.Refused? <==> pending.Some? && pending.value.cmd == old(pending).value.cmd)
    {
      o := Refused;
      if !WellFormed(cmd) { return; }
      if run.None? && !busy {
        o := HandleStart(cmd, env, elapsed);
        return;
      }
      if run.Some? {
        HandleStop();
        SetPending(cmd, None);
      } else {
        var now := Now(elapsed);
        Queue(cmd, now + PENDING_WINDDOWN);
      }
      o := Queued;
    }

    /** A queued start waits for the run, then at most `PENDING_WINDDOWN` for the arms. It is dropped when
        that deadline passes with an arm still in control, and also when it fires and is refused. */
    method TendPending(busy: bool, env: StartEnv, elapsed: Duration, later: Duration) returns (fired: bool)
      requires Valid() && (env.composed.Some? ==> SidesDistinct(env.composed.value))
      modifies this`run, this`pending, this`mode, this`view, this`runSeq, this`queues, this`clock
      ensures Valid()
      ensures old(run).Some? || old(pending).None? ==>
                !fired && run == old(run) && pending == old(pending) && queues == old(queues) && runSeq == old(runSeq)
      ensures !fired && old(run).None? && old(pending).Some? ==>
                && busy && pending.Some? && pending.value.cmd == old(pending).value.cmd && pending.value.deadline.Some?
                && clock < pending.value.deadline.value
                && (old(pending).value.deadline.Some? ==> pending == old(pending))
                && run == old(run) && queues == old(queues)
      ensures fired && busy ==>
                && pending.None? && run.None? && queues == old(queues) && runSeq == old(runSeq)
                && old(pending).value.deadline.Some? && old(pending).value.deadline.value <= clock
      ensures fired && !busy && run.Some? ==>
                && runSeq == old(runSeq) + 1 && pending.None? && old(Accepts(pending.value.cmd, env))
                && StartedAs(old(pending).value.cmd, env, run, old(queues), queues)
      ensures fired && !busy && run.None? ==>
                Unstarted(old(pending).value.cmd, env, old(queues), old(runSeq), old(Accepts(pending.value.cmd, env)))
    {
      if pending.None? || run.Some? { return false; }
      var now := Now(elapsed);
      var p := pending.value;
      if p.deadline.None? {
        p := p.(deadline := Some(now + PENDING_WINDDOWN));
        pending := Some(p);
      }
      if busy {
        if now < p.deadline.value { return false; }
        ClearPending();
        return true;
      }
      FirePending(env, later);
      return true;
    }

    /** The queued start is handed to `_handle_start`, which may start it, queue it again or refuse it. */
    method FirePending(env: StartEnv, later: Duration)
      requires Valid() && run.None? && pending.Some? && (env.composed.Some? ==> SidesDistinct(env.composed.value))
      modifies this`run, this`pending, this`mode, this`view, this`runSeq, this`queues, this`clock
      ensures Valid()
      ensures run.Some? ==>
                && runSeq == old(runSeq) + 1 && pending.None? && old(Accepts(pending.value.cmd, env))
                && StartedAs(old(pending).value.cmd, env, run, old(queues), queues)
      ensures run.None? ==> Unstarted(old(pending).value.cmd, env, old(queues), old(runSeq), old(Accepts(pending.value.cmd, env)))
    {
      var cmd := pending.value.cmd;
      ClearPending();
      var o := HandleStart(cmd, env, later);
    }

    /** No run came of `cmd`: it was refused, or queued again behind an arm still in control. */
    ghost predicate Unstarted(cmd: StartCmd, env: StartEnv, queues0: map<Side, seq<EnterControl>>, seq0: nat, accepted: bool)
      reads this`pending, this`queues, this`runSeq
    {
      && queues == queues0 && runSeq == seq0
      && (if pending.None? then !accepted else env.busy && pending.value.cmd == cmd)
    }

    /** `_reap_consumer`. */
    method ReapConsumer(exited: bool) returns (changed: bool)
      requires Valid()
      modifies this`run, this`mode
      ensures Valid() && changed == (exited && old(run).Some?)
      ensures run == if changed then None else old(run)
    {
      if run.None? || !exited { return false; }
      mode := Viewing;
      run := None;
      changed := true;
    }

    // ---- Watchdogs that stop a run -------------------------------------------------------------

    /** The run is stopped exactly when the watchdog was armed and a commanded arm has dropped out;
        it arms once every commanded arm has been seen in control. No queued start is lost. */
    method WatchArmDropout(active: set<Side>)
      requires Valid()
      modifies this`run, this`pending, this`mode, this`view
      ensures Valid() && pending == old(pending) && run.Some? == old(run).Some?
      ensures old(run).Some? && old(run).value.stopping ==> run == old(run)
      ensures old(run).Some? && !old(run).value.stopping ==>
                && (run.value.stopping <==> old(run).value.armed && exists s :: s in old(run).value.commandSides && s !in active)
                && (run.value.armed <==> old(run).value.armed || AllSeen(old(run).value, active))
                && run.value.phase == old(run).value.phase && run.value.title == old(run).value.title
                && run.value.commandSides == old(run).value.commandSides
                && (!run.value.stopping ==> forall s :: s in run.value.activeSides <==>
                      s in old(run).value.activeSides || (s in active && s in old(run).value.commandSides))
    {
      if run.None? || run.value.stopping || |run.value.commandSides| == 0 { return; }
      var sides := run.value.commandSides;
      ghost var r0 := run.value;
      for i := 0 to |sides|
        invariant run.Some? && run.value == r0.(activeSides := run.value.activeSides) && mode == old(mode)
        invariant pending == old(pending) && view == old(view)
        invariant forall s :: s in run.value.activeSides <==> s in r0.activeSides || (s in active && s in sides[..i])
        invariant r0.armed ==> forall k :: 0 <= k < i ==> sides[k] in active
      {
        assert sides[..i + 1] == sides[..i] + [sides[i]];
        if sides[i] in active {
          run := Some(run.value.(activeSides := run.value.activeSides + {sides[i]}));
        } else if run.value.armed && sides[i] in run.value.activeSides {
          HandleStop();
          return;
        }
      }
      assert sides[..|sides|] == sides;
      if !run.value.armed && forall s :: s in sides ==> s in run.value.activeSides {
        run := Some(run.value.(armed := true));
      }
    }

    /** Disabling gravity compensation halts a collection run; eval and skill runs are left alone. */
    method HandleGravComp(enable: bool, sim: bool, servers: bool)
      requires Valid()
      modifies this`run, this`pending, this`mode, this`view
      ensures Valid() && pending == old(pending)
      ensures run == if old(run).Some? && !enable && !sim && servers && old(run).value.phase == Collection
                     then Some(old(run).value.(stopping := true)) else old(run)
    {
      if sim || !servers { return; }
      if !enable && run.Some? && run.value.phase == Collection && !run.value.stopping {
        HandleStop();
      }
    }

    // ---- Arm supervision -----------------------------------------------------------------------

    method DrainSessionQ(side: Side)
      modifies this`queues
      ensures queues == Drained(old(queues), side)
    {
      if side in queues { queues := queues[side := []]; }
    }

    method StopFor(side: Side)
      requires ModeOk(run, pending, mode, view)
      modifies this`run, this`pending, this`mode, this`view
      ensures ModeOk(run, pending, mode, view) && pending == old(pending) && run == StoppedBy(side, old(run))
    {
      if run.None? || run.value.stopping { return; }
      if side in run.value.commandSides || run.value.phase != Skill { HandleStop(); }
    }

    /** `_make_arm_unit` and the fields it refreshes; records what the session queue holds. */
    method SpawnArm(k: nat, auto: bool)
      requires k < |arms|
      modifies this`arms, this`events
      ensures Fleet() == SpawnedArm(old(Fleet()), k, auto, run.Some?)
    {
      var u := arms[k];
      events := events + [ArmSpawn(u.side, clock, auto, |QueueOf(queues, u.side)|, run.Some?)];
      arms := arms[k := u.(alive := true, spawnedAt := clock, reaped := false)];
    }

    /** One unit of `_tend_arms`. */
    method TendArm(k: nat, publishing: bool, now: real, took: Duration)
      requires k < |arms| && ModeOk(run, pending, mode, view)
      modifies this`arms, this`queues, this`run, this`pending, this`mode, this`view, this`events, this`clock
      ensures ModeOk(run, pending, mode, view) && pending == old(pending)
      ensures Fleet() == ArmStep(old(Fleet()), k, publishing, now, took, run.None?)
      ensures run == if !old(arms)[k].alive && !old(arms)[k].reaped then StoppedBy(old(arms)[k].side, old(run)) else old(run)
    {
      var u := arms[k];
      clock := clock + took;
      if u.alive {
        if publishing || now - u.spawnedAt < ARM_BOOT_GRACE {
          if publishing { arms := arms[k := u.(announced := false)]; }
        } else {
          arms := arms[k := u.(announced := true)];
        }
        return;
      }
      TendDeadArm(k, now);
    }

    /** A dead arm: reaped once, respawned when due. */
    method TendDeadArm(k: nat, now: real)
      requires k < |arms| && !arms[k].alive && ModeOk(run, pending, mode, view)
      modifies this`arms, this`queues, this`run, this`pending, this`mode, this`view, this`events
      ensures ModeOk(run, pending, mode, view) && pending == old(pending)
      ensures Fleet() == ArmStep(old(Fleet()), k, false, now, 0.0, run.None?)
      ensures run == if !old(arms)[k].reaped then StoppedBy(old(arms)[k].side, old(run)) else old(run)
    {
      var u := arms[k];
      if !u.reaped {
        arms := arms[k := u.(announced := true, reaped := true)];
        DrainSessionQ(u.side);
        StopFor(u.side);
      }
      if run.Some? || now - u.spawnedAt < ARM_RESPAWN { return; }
      SpawnArm(k, true);
    }

    /** `_tend_arms`: the fleet becomes what `ArmsPass` says, an arm is reported down exactly when it is
        dead or not publishing, and a run is stopped only by a newly dead arm it needs. A queued start
        survives. */
    method TendArms(publishing: seq<bool>, elapsed: Duration, took: seq<Duration>)
      requires Valid() && |publishing| == |took| == |arms|
      modifies this`arms, this`queues, this`run, this`pending, this`mode, this`view, this`events, this`armsDown, this`clock
      ensures Valid() && pending == old(pending)
      ensures run == RunAfter(old(run), old(arms), |old(arms)|)
      ensures var now := old(clock) + elapsed;
              Fleet() == ArmsPass(old(Fleet()).(clock := now), publishing, now, took, run.None?, |old(arms)|)
                         .(armsDown := DownArms(old(arms), publishing, |old(arms)|))
    {
      var now := Now(elapsed);
      ghost var f0 := Fleet();
      PassKeepsFleet(f0, publishing, now, took, run.None?);
      var down := ArmsLoop(publishing, now, took);
      ghost var f1 := Fleet();
      armsDown := down;
      assert Fleet() == f1.(armsDown := down);
    }

    /** The loop of `_tend_arms`; returns the names found down. */
    method ArmsLoop(publishing: seq<bool>, now: real, took: seq<Duration>) returns (down: set<string>)
      requires ModeOk(run, pending, mode, view) && |publishing| == |took| == |arms|
      modifies this`arms, this`queues, this`run, this`pending, this`mode, this`view, this`events, this`clock
      ensures ModeOk(run, pending, mode, view) && pending == old(pending)
      ensures run == RunAfter(old(run), old(arms), |old(arms)|)
      ensures Fleet() == ArmsPass(old(Fleet()), publishing, now, took, run.None?, |old(arms)|)
      ensures down == DownArms(old(arms), publishing, |old(arms)|)
    {
      ghost var f0, idle := Fleet(), run.None?;
      down := {};
      var k := 0;
      while k < |arms|
        invariant k <= |arms| == |f0.arms| && ModeOk(run, pending, mode, view) && pending == old(pending)
        invariant run.None? == idle && Fleet() == ArmsPass(f0, publishing, now, took, idle, k)
        invariant run == RunAfter(old(run), f0.arms, k)
        invariant down == DownArms(f0.arms, publishing, k)
      {
        ArmsPassUnits(f0, publishing, now, took, idle, k, k);
        if ArmIsDown(arms[k], publishing[k]) { down := down + {arms[k].name}; }
        TendArm(k, publishing[k], now, took[k]);
        k := k + 1;
      }
    }

    /** Replace an arm on demand: only with no run and nothing queued, and never one in control. */
    method HandleReconnectArm(side: Side, inControl: set<Side>, elapsed: Duration) returns (done: bool)
      requires Valid()
      modifies this`arms, this`queues, this`events, this`clock
      ensures Valid()
      ensures done <==> run.None? && pending.None? && side !in inControl && exists i :: 0 <= i < |old(arms)| && old(arms)[i].side == side
      ensures !done ==> arms == old(arms) && queues == old(queues) && events == old(events)
      ensures done ==>
                (exists k :: 0 <= k < |old(arms)| && old(arms)[k].side == side
                   && arms == old(arms)[k := old(arms)[k].(alive := true, spawnedAt := clock, reaped := false)]
                   && events == old(events) + (if old(arms)[k].alive then [ArmKill(side, clock, false)] else []) + [ArmSpawn(side, clock, false, 0, false)])
      ensures done ==> queues == if side in old(queues) then old(queues)[side := []] else old(queues)
    {
      done := false;
      var k := 0;
      while k < |arms| && arms[k].side != side
        invariant k <= |arms| && forall i :: 0 <= i < k ==> arms[i].side != side
      {
        k := k + 1;
      }
      if k == |arms| || run.Some? || pending.Some? || side in inControl { return; }
      var now := Now(elapsed);
      ghost var f0 := Fleet();
      if arms[k].alive { events := events + [ArmKill(side, now, false)]; }
      DrainSessionQ(side);
      SpawnArm(k, false);
      assert Fleet() == Reconnected(f0, k);
      ReconnectedIsOk(f0, k);
      done := true;
    }

    // ---- Camera supervision --------------------------------------------------------------------

    method SpawnCamera(k: nat, killed: real, auto: bool)
      requires k < |cameras|
      modifies this`cameras, this`events
      ensures Fleet() == SpawnedCamera(old(Fleet()), k, killed, auto)
    {
      var u := cameras[k];
      if u.alive { events := events + [CameraKill(u.name, killed, auto, killed - u.spawnedAt)]; }
      cameras := cameras[k := u.(alive := true, spawnedAt := clock, stalledSince := None)];
      events := events + [CameraSpawn(u.name, clock, auto)];
    }

    /** One unit of `_tend_cameras`. */
    method TendCamera(k: nat, producing: bool, now: real, took: Duration)
      requires k < |cameras|
      modifies this`cameras, this`events, this`clock
      ensures Fleet() == CameraStep(old(Fleet()), k, producing, now, took)
    {
      var u := cameras[k];
      clock := clock + took;
      var good := u.alive && producing;
      var grace := u.alive && now - u.spawnedAt < CAMERA_BOOT_GRACE;
      if good || grace {
        if good { cameras := cameras[k := u.(stalledSince := None, announced := false)]; }
        return;
      }
      u := u.(announced := true);
      if u.alive && u.stalledSince.None? { u := u.(stalledSince := Some(now)); }
      cameras := cameras[k := u];
      if u.alive {
        if now - u.stalledSince.value < CAMERA_RESPAWN { return; }
      } else if now - u.spawnedAt < CAMERA_RESPAWN {
        return;
      }
      SpawnCamera(k, now, true);
    }

    /** `_tend_cameras`: the fleet becomes what `CamerasPass` says, and a camera is reported down exactly
        when it is dead or not producing. */
    method TendCameras(producing: seq<bool>, elapsed: Duration, took: seq<Duration>)
      requires Valid() && |producing| == |took| == |cameras|
      modifies this`cameras, this`events, this`camerasDown, this`clock
      ensures Valid()
      ensures var now := old(clock) + elapsed;
              Fleet() == CamerasPass(old(Fleet()).(clock := now), producing, now, took, |old(cameras)|)
      ensures camerasDown == DownCameras(old(cameras), producing, |old(cameras)|)
    {
      var now := Now(elapsed);
      ghost var f1 := CamerasPass(Fleet(), producing, now, took, |cameras|);
      CamerasPassIsOk(Fleet(), producing, now, took, |cameras|);
      var down := CamerasLoop(producing, now, took);
      assert Fleet() == f1;
      camerasDown := down;
    }

    /** The loop of `_tend_cameras`; returns the names found down. */
    method CamerasLoop(producing: seq<bool>, now: real, took: seq<Duration>) returns (down: set<string>)
      requires |producing| == |took| == |cameras|
      modifies this`cameras, this`events, this`clock
      ensures Fleet() == CamerasPass(old(Fleet()), producing, now, took, |old(cameras)|)
      ensures down == DownCameras(old(cameras), producing, |old(cameras)|)
    {
      ghost var f0 := Fleet();
      down := {};
      var k := 0;
      while k < |cameras|
        invariant k <= |cameras| == |f0.cameras|
        invariant Fleet() == CamerasPass(f0, producing, now, took, k)
        invariant down == DownCameras(f0.cameras, producing, k)
      {
        CamerasPassUntouched(f0, producing, now, took, k, k);
        if CameraIsDown(cameras[k], producing[k]) { down := down + {cameras[k].name}; }
        TendCamera(k, producing[k], now, took[k]);
        k := k + 1;
      }
    }

    /** Replace a camera on demand; refused during a recording or eval run. */
    method HandleRespawnCamera(name: string, elapsed: Duration, took: Duration) returns (done: bool)
      requires Valid()
      modifies this`cameras, this`events, this`clock
      ensures Valid()
      ensures done <==> (run.None? || run.value.phase == Skill) && exists i :: 0 <= i < |old(cameras)| && old(cameras)[i].name == name
      ensures !done ==> cameras == old(cameras) && events == old(events)
      ensures done ==>
                (exists k :: 0 <= k < |old(cameras)| && old(cameras)[k].name == name
                   && cameras == old(cameras)[k := old(cameras)[k].(alive := true, spawnedAt := clock, stalledSince := None)]
                   && events == old(events)
                        + (if old(cameras)[k].alive then [CameraKill(name, old(clock) + elapsed, false, old(clock) + elapsed - old(cameras)[k].spawnedAt)] else [])
                        + [CameraSpawn(name, clock, false)])
    {
      done := false;
      var k := 0;
      while k < |cameras| && cameras[k].name != name
        invariant k <= |cameras| && forall i :: 0 <= i < k ==> cameras[i].name != name
      {
        k := k + 1;
      }
      if k == |cameras| || (run.Some? && run.value.phase != Skill) { return; }
      var killed := Now(elapsed);
      var now := Now(took);
      SpawnedCameraIsOk(Fleet(), k, killed, false);
      SpawnCamera(k, killed, false);
      done := true;
    }

    // ---- The outside world -----------------------------------------------------------------------

    /** An arm process exits. */
    method ArmExits(k: nat)
      requires Valid() && k < |arms|
      modifies this`arms
      ensures Valid() && arms == old(arms)[k := old(arms)[k].(alive := false)]
    {
      arms := arms[k := arms[k].(alive := false)];
      HistoryKept(events, old(arms), arms, cameras, cameras);
      NamesKept(old(arms), arms, cameras, cameras, -1, -1);
    }

    method CameraExits(k: nat)
      requires Valid() && k < |cameras|
      modifies this`cameras
      ensures Valid() && cameras == old(cameras)[k := old(cameras)[k].(alive := false)]
    {
      cameras := cameras[k := cameras[k].(alive := false)];
      HistoryKept(events, arms, arms, old(cameras), cameras);
      NamesKept(arms, arms, old(cameras), cameras, -1, -1);
    }

    /** A live arm takes the next message off its session queue. */
    method ArmTakes(k: nat)
      requires Valid() && k < |arms| && arms[k].alive
      modifies this`queues
      ensures Valid()
      ensures var s := arms[k].side;
              queues == if s in old(queues) && old(queues)[s] != [] then old(queues)[s := old(queues)[s][1..]] else old(queues)
    {
      var s := arms[k].side;
      if s in queues && queues[s] != [] { queues := queues[s := queues[s][1..]]; }
    }
  }

  /** A second switch does not always replace the queued start: queue a skill replay while an arm winds down,
      then switch to another one that the free session refuses; the older one is still queued. */
  method OlderStartSurvives() returns (d: Daemon, older: StartCmd, newer: StartCmd, first: StartOutcome, second: StartOutcome)
    ensures d.Valid() && WellFormed(older) && WellFormed(newer) && older != newer
    ensures first.Queued? && second.Refused?
    ensures d.pending.Some? && d.pending.value.cmd == older && d.run.None?
  {
    older := StartCmd(Some(Skill), [], Some([Alnum('a')]), None, None, None);
    newer := StartCmd(Some(Skill), [], Some([Alnum('b')]), None, None, None);
    assert older.skill.value[0] != newer.skill.value[0];
    d := new Daemon([], [], 0.0);
    first := d.HandleStart(older, StartEnv(true, None, {}, false, false, false), 0.0);
    second := d.HandleSwitch(newer, false, StartEnv(false, None, {}, false, false, false), 0.0);
  }

  datatype Step =
    | StartStep(cmd: StartCmd, env: StartEnv)
    | SwitchStep(cmd: StartCmd, busy: bool, env: StartEnv)
    | StopStep
    | ReconnectStep(side: Side, inControl: set<Side>)
    | RespawnStep(name: string)
    | GravCompStep(enable: bool, sim: bool, servers: bool)
    | ReapStep(exited: bool)
    | PendingStep(busy: bool, env: StartEnv)
    | DropoutStep(active: set<Side>)
    | CamerasStep(producing: seq<bool>, delays: seq<Duration>)
    | ArmsStep(publishing: seq<bool>, delays: seq<Duration>)
    | ArmExitStep(k: nat)
    | CameraExitStep(k: nat)
    | ArmTakeStep(k: nat)

  ghost predicate Composable(env: StartEnv) {
    env.composed.Some? ==> SidesDistinct(env.composed.value)
  }

  ghost predicate StepOk(s: Step) {
    match s
    case StartStep(_, env) => Composable(env)
    case SwitchStep(_, _, env) => Composable(env)
    case PendingStep(_, env) => Composable(env)
    case _ => true
  }

  /** One step of the supervise loop or of the outside world, `elapsed` after the last and `took` long. */
  method Perform(d: Daemon, s: Step, elapsed: Duration, took: Duration)
    requires d.Valid() && StepOk(s)
    modifies d
    ensures d.Valid() && old(d.events) <= d.events
  {
    match s
    case StartStep(cmd, env) => var _ := d.HandleStart(cmd, env, elapsed);
    case SwitchStep(cmd, busy, env) => var _ := d.HandleSwitch(cmd, busy, env, elapsed);
    case StopStep => d.HandleStop();
    case ReconnectStep(side, inControl) => var _ := d.HandleReconnectArm(side, inControl, elapsed);
    case RespawnStep(name) => var _ := d.HandleRespawnCamera(name, elapsed, took);
    case GravCompStep(enable, sim, servers) => d.HandleGravComp(enable, sim, servers);
    case ReapStep(exited) => var _ := d.ReapConsumer(exited);
    case PendingStep(busy, env) => var _ := d.TendPending(busy, env, elapsed, took);
    case DropoutStep(active) => d.WatchArmDropout(active);
    case CamerasStep(producing, delays) =>
      if |producing| == |delays| == |d.cameras| { d.TendCameras(producing, elapsed, delays); }
    case ArmsStep(publishing, delays) =>
      if |publishing| == |delays| == |d.arms| { d.TendArms(publishing, elapsed, delays); }
    case ArmExitStep(k) => if k < |d.arms| { d.ArmExits(k); }
    case CameraExitStep(k) => if k < |d.cameras| { d.CameraExits(k); }
    case ArmTakeStep(k) => if k < |d.arms| && d.arms[k].alive { d.ArmTakes(k); }
  }

  /** Every run of the daemon, for every schedule of commands, watchdogs, process deaths and delays:
      the mode tells the truth about the run and the queued start, no arm was ever spawned into a
      non-empty queue or a run, no live arm was killed by supervision, and respawns are paced. */
  method Serve(d: Daemon, steps: seq<(Step, Duration, Duration)>)
    requires d.Valid() && forall i :: 0 <= i < |steps| ==> StepOk(steps[i].0)
    modifies d
    ensures ModeOk(d.run, d.pending, d.mode, d.view)
    ensures ArmsOk(d.arms, d.armsDown, d.queues)
    ensures SpawnsSafe(d.events) && Paced(d.events) && old(d.events) <= d.events
  {
    for i := 0 to |steps|
      invariant d.Valid() && old(d.events) <= d.events
    {
      Perform(d, steps[i].0, steps[i].1, steps[i].2);
    }
  }
}
