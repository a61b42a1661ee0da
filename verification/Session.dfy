/** The session daemon: one run, one queued start, per-arm session queues, and the supervision of
    arm and camera processes. Processes, status streams, the config composer and the passage of time
    are inputs of each step; every step may be scheduled in any order. */
module Session {
  import opened Wrappers

  type Side = string
  type Duration = d: real | d >= 0.0

  const ARM_RESPAWN := 20.0
  const CAMERA_RESPAWN := 30.0
  const CAMERA_BOOT_GRACE := 20.0
  const ARM_BOOT_GRACE := 45.0
  const PENDING_WINDDOWN := 20.0

  datatype Phase = Collection | Eval | Skill

  /** `state.state`. */
  datatype Mode = Viewing | Running(phase: Phase) | Saving

  /** One character, classified as Python's `isalnum` does. */
  datatype Letter = Alnum(c: char) | Other(c: char)

  type Text = seq<Letter>

  datatype StartCmd = StartCmd(
    phase: Option<Phase>,      // None: missing or unknown
    task: Text,                // [] : missing
    skill: Option<Text>,
    port: Option<int>,
    host: Option<Text>,
    policy: Option<Text>)

  datatype ActiveRun = ActiveRun(
    phase: Phase,
    title: Text,
    commandSides: seq<Side>,
    stopping: bool,
    armed: bool,               // dropout watchdog
    activeSides: set<Side>)

  datatype PendingStart = PendingStart(cmd: StartCmd, deadline: Option<real>)

  /** `state.pending`. */
  datatype PendingView = PendingView(phase: Option<Phase>, task: Text, skill: Option<Text>)

  datatype EnterControl = EnterControl(phase: Phase)

  datatype ArmUnit = ArmUnit(name: string, side: Side, alive: bool, spawnedAt: real, announced: bool, reaped: bool)

  datatype CameraUnit = CameraUnit(name: string, alive: bool, spawnedAt: real, announced: bool, stalledSince: Option<real>)

  /** A composed run: control flag per side in config order, and the sides its consumer feeds. */
  datatype RunConfig = RunConfig(arms: seq<(Side, bool)>, driveSides: Option<set<Side>>)

  /** What `_handle_start` finds in the outside world. */
  datatype StartEnv = StartEnv(
    busy: bool,                // some arm still reports an active control session
    composed: Option<RunConfig>,
    blocked: set<Side>,        // followers that must not be commanded
    unreachable: bool,         // eval preflight
    stale: bool,               // collection: leader stream not publishing
    limp: bool)                // collection: grav comp not enabled

  datatype StartOutcome = Refused | Queued | Started(sides: seq<Side>)

  /** What supervision did, for the record. */
  datatype Event =
    | ArmSpawn(side: Side, at: real, auto: bool, queued: nat, running: bool)
    | ArmKill(side: Side, at: real, auto: bool)
    | CameraSpawn(name: string, at: real, auto: bool)
    | CameraKill(name: string, at: real, auto: bool, age: real)

  // ---- Commands ----------------------------------------------------------------------------

  predicate IsToken(s: Text) {
    |s| > 0 && forall i :: 0 <= i < |s| ==> s[i].Alnum? || s[i].c in "._-"
  }

  predicate TokenIfGiven(s: Option<Text>) { s.Some? ==> IsToken(s.value) }

  /** `_validate_start`. */
  predicate WellFormed(cmd: StartCmd) {
    && cmd.phase.Some? && (cmd.phase.value == Skill || cmd.task != [])
    && TokenIfGiven(cmd.skill) && (cmd.phase.value == Skill ==> cmd.skill.Some?)
    && (cmd.port.Some? ==> 0 < cmd.port.value < 65536)
    && TokenIfGiven(cmd.host) && TokenIfGiven(cmd.policy)
  }

  function ViewOf(p: Option<PendingStart>): Option<PendingView> {
    if p.None? then None else Some(PendingView(p.value.cmd.phase, p.value.cmd.task, p.value.cmd.skill))
  }

  /** One blocked follower makes an eval observation-only. */
  predicate DryRun(phase: Phase, cfg: RunConfig, blocked: set<Side>) {
    phase == Eval && exists i :: 0 <= i < |cfg.arms| && cfg.arms[i].1 && cfg.arms[i].0 in blocked
  }

  /** May `side` be handed a control session? */
  predicate Commandable(side: Side, phase: Phase, cfg: RunConfig, blocked: set<Side>, queues: set<Side>) {
    && (side, true) in cfg.arms && !DryRun(phase, cfg, blocked)
    && side in queues && (cfg.driveSides.Some? ==> side in cfg.driveSides.value)
  }

  // ---- Invariants ----------------------------------------------------------------------------

  /** Everything supervision owns. */
  datatype Fleet = Fleet(
    arms: seq<ArmUnit>,
    cameras: seq<CameraUnit>,
    queues: map<Side, seq<EnterControl>>,
    armsDown: set<string>,
    clock: real,
    events: seq<Event>)

  predicate ArmsDiffer(a: ArmUnit, b: ArmUnit) { a.side != b.side && a.name != b.name }

  predicate CamerasDiffer(a: CameraUnit, b: CameraUnit) { a.name != b.name }

  ghost predicate Named(arms: seq<ArmUnit>, cameras: seq<CameraUnit>) {
    && (forall i, j {:trigger ArmsDiffer(arms[i], arms[j])} :: 0 <= i < j < |arms| ==> ArmsDiffer(arms[i], arms[j]))
    && (forall i, j {:trigger CamerasDiffer(cameras[i], cameras[j])} :: 0 <= i < j < |cameras| ==> CamerasDiffer(cameras[i], cameras[j]))
  }

  /** The mode names the run, the published pending start mirrors the queued one, and a queued start
      waits behind a run only while that run is stopping. */
  ghost predicate ModeOk(run: Option<ActiveRun>, pending: Option<PendingStart>, mode: Mode, view: Option<PendingView>) {
    && (run.None? <==> mode == Viewing)
    && (run.Some? ==> mode == if run.value.stopping then Saving else Running(run.value.phase))
    && (run.Some? && run.value.armed ==> forall s :: s in run.value.commandSides ==> s in run.value.activeSides)
    && view == ViewOf(pending)
    && (run.Some? && pending.Some? ==> run.value.stopping)
  }

  /** A reaped arm is dead, reported down, and its queue is empty. */
  ghost predicate ReapedOk(u: ArmUnit, down: set<string>, queues: map<Side, seq<EnterControl>>) {
    u.reaped ==> !u.alive && u.name in down && (u.side in queues ==> queues[u.side] == [])
  }

  ghost predicate ArmsOk(arms: seq<ArmUnit>, down: set<string>, queues: map<Side, seq<EnterControl>>) {
    forall i :: 0 <= i < |arms| ==> ReapedOk(arms[i], down, queues)
  }

  ghost predicate TimesOk(arms: seq<ArmUnit>, cameras: seq<CameraUnit>, clock: real) {
    && (forall i :: 0 <= i < |arms| ==> arms[i].spawnedAt <= clock)
    && (forall i :: 0 <= i < |cameras| ==> CameraTimeOk(cameras[i], clock))
  }

  /** A stall is never dated before the end of the boot grace. */
  ghost predicate CameraTimeOk(u: CameraUnit, clock: real) {
    u.spawnedAt <= clock &&
    (u.stalledSince.Some? ==> u.spawnedAt + CAMERA_BOOT_GRACE <= u.stalledSince.value <= clock)
  }

  /** Every arm process ever spawned started with an empty queue and outside any run; automatic
      supervision never killed an arm; every camera it killed had been up at least 50 s. */
  ghost predicate EventSafe(e: Event) {
    && (e.ArmSpawn? ==> e.queued == 0 && !e.running)
    && (e.ArmKill? ==> !e.auto)
    && (e.CameraKill? && e.auto ==> e.age >= 50.0)
  }

  ghost predicate SpawnsSafe(events: seq<Event>) {
    forall i {:trigger EventSafe(events[i])} :: 0 <= i < |events| ==> EventSafe(events[i])
  }

  /** Automatic respawns of one unit keep their distance, whatever happened in between. */
  ghost predicate Paced(events: seq<Event>) {
    forall i, j {:trigger PacedPair(events[i], events[j])} :: 0 <= i < j < |events| ==> PacedPair(events[i], events[j])
  }

  ghost predicate PacedPair(a: Event, b: Event) {
    && (a.ArmSpawn? && b.ArmSpawn? && a.auto && b.auto && a.side == b.side ==> b.at - a.at >= 20.0)
    && (a.CameraSpawn? && b.CameraSpawn? && a.auto && b.auto && a.name == b.name ==> b.at - a.at >= 30.0)
  }

  ghost predicate ArmDated(e: Event, u: ArmUnit) { e.ArmSpawn? && e.side == u.side ==> e.at <= u.spawnedAt }

  ghost predicate CameraDated(e: Event, u: CameraUnit) { e.CameraSpawn? && e.name == u.name ==> e.at <= u.spawnedAt }

  /** No recorded spawn of a unit is later than the unit's own spawn time. */
  ghost predicate Dated(events: seq<Event>, arms: seq<ArmUnit>, cameras: seq<CameraUnit>) {
    && (forall i, k {:trigger ArmDated(events[i], arms[k])} :: 0 <= i < |events| && 0 <= k < |arms| ==> ArmDated(events[i], arms[k]))
    && (forall i, k {:trigger CameraDated(events[i], cameras[k])} ::
          0 <= i < |events| && 0 <= k < |cameras| ==> CameraDated(events[i], cameras[k]))
  }

  ghost predicate HistoryOk(events: seq<Event>, arms: seq<ArmUnit>, cameras: seq<CameraUnit>) {
    SpawnsSafe(events) && Paced(events) && Dated(events, arms, cameras)
  }

  /** Everything but the down set. */
  ghost predicate CoreOk(f: Fleet) {
    Named(f.arms, f.cameras) && TimesOk(f.arms, f.cameras, f.clock) && HistoryOk(f.events, f.arms, f.cameras)
  }

  ghost predicate FleetOk(f: Fleet) {
    CoreOk(f) && ArmsOk(f.arms, f.armsDown, f.queues)
  }

  // ---- Recording spawns and kills --------------------------------------------------------------

  /** `arms'` differs from `arms` in the spawn time of unit `k` at most. */
  ghost predicate ArmsAlike(arms: seq<ArmUnit>, arms': seq<ArmUnit>, k: int) {
    && |arms'| == |arms|
    && (forall i :: 0 <= i < |arms| ==> arms'[i].side == arms[i].side && arms'[i].name == arms[i].name)
    && (forall i :: 0 <= i < |arms| && i != k ==> arms'[i].spawnedAt == arms[i].spawnedAt)
  }

  ghost predicate CamerasAlike(cameras: seq<CameraUnit>, cameras': seq<CameraUnit>, k: int) {
    && |cameras'| == |cameras|
    && (forall i :: 0 <= i < |cameras| ==> cameras'[i].name == cameras[i].name)
    && (forall i :: 0 <= i < |cameras| && i != k ==> cameras'[i].spawnedAt == cameras[i].spawnedAt)
  }

  /** One more event of a kind that is safe in itself, paced against the past and dated by the units. */
  lemma EventRecorded(events: seq<Event>, arms: seq<ArmUnit>, cameras: seq<CameraUnit>, e: Event)
    requires HistoryOk(events, arms, cameras) && EventSafe(e) && forall i :: 0 <= i < |events| ==> PacedPair(events[i], e)
    requires (forall k :: 0 <= k < |arms| ==> ArmDated(e, arms[k])) && forall k :: 0 <= k < |cameras| ==> CameraDated(e, cameras[k])
    ensures HistoryOk(events + [e], arms, cameras)
  {
    var all := events + [e];
    forall i | 0 <= i < |all| ensures EventSafe(all[i]) { assert i < |events| ==> EventSafe(events[i]); }
    forall i, j | 0 <= i < j < |all| ensures PacedPair(all[i], all[j]) { assert j < |events| ==> PacedPair(events[i], events[j]); }
    forall i, k | 0 <= i < |all| && 0 <= k < |arms| ensures ArmDated(all[i], arms[k]) { assert i < |events| ==> ArmDated(events[i], arms[k]); }
    forall i, k | 0 <= i < |all| && 0 <= k < |cameras| ensures CameraDated(all[i], cameras[k]) {
      assert i < |events| ==> CameraDated(events[i], cameras[k]);
    }
  }

  /** Units whose spawn times only grow keep the record dated. */
  lemma HistoryAges(events: seq<Event>, arms: seq<ArmUnit>, arms': seq<ArmUnit>, cameras: seq<CameraUnit>, cameras': seq<CameraUnit>)
    requires HistoryOk(events, arms, cameras) && |arms'| == |arms| && |cameras'| == |cameras|
    requires forall i :: 0 <= i < |arms| ==> arms'[i].side == arms[i].side && arms[i].spawnedAt <= arms'[i].spawnedAt
    requires forall i :: 0 <= i < |cameras| ==> cameras'[i].name == cameras[i].name && cameras[i].spawnedAt <= cameras'[i].spawnedAt
    ensures HistoryOk(events, arms', cameras')
  {
    forall i, k | 0 <= i < |events| && 0 <= k < |arms| ensures ArmDated(events[i], arms'[k]) { assert ArmDated(events[i], arms[k]); }
    forall i, k | 0 <= i < |events| && 0 <= k < |cameras| ensures CameraDated(events[i], cameras'[k]) {
      assert CameraDated(events[i], cameras[k]);
    }
  }

  lemma ArmSpawnRecorded(events: seq<Event>, arms: seq<ArmUnit>, arms': seq<ArmUnit>, cameras: seq<CameraUnit>, k: nat, auto: bool)
    requires HistoryOk(events, arms, cameras) && Named(arms, cameras)
    requires k < |arms| && ArmsAlike(arms, arms', k) && arms[k].spawnedAt <= arms'[k].spawnedAt
    requires auto ==> arms'[k].spawnedAt - arms[k].spawnedAt >= ARM_RESPAWN
    ensures HistoryOk(events + [ArmSpawn(arms[k].side, arms'[k].spawnedAt, auto, 0, false)], arms', cameras)
  {
    var e := ArmSpawn(arms[k].side, arms'[k].spawnedAt, auto, 0, false);
    HistoryAges(events, arms, arms', cameras, cameras);
    forall i | 0 <= i < |events| ensures PacedPair(events[i], e) { assert ArmDated(events[i], arms[k]); }
    forall i | 0 <= i < |arms| ensures ArmDated(e, arms'[i]) {
      if i < k { assert ArmsDiffer(arms[i], arms[k]); } else if k < i { assert ArmsDiffer(arms[k], arms[i]); }
    }
    EventRecorded(events, arms', cameras, e);
  }

  lemma CameraSpawnRecorded(events: seq<Event>, arms: seq<ArmUnit>, cameras: seq<CameraUnit>, cameras': seq<CameraUnit>, k: nat, auto: bool)
    requires HistoryOk(events, arms, cameras) && Named(arms, cameras)
    requires k < |cameras| && CamerasAlike(cameras, cameras', k) && cameras[k].spawnedAt <= cameras'[k].spawnedAt
    requires auto ==> cameras'[k].spawnedAt - cameras[k].spawnedAt >= CAMERA_RESPAWN
    ensures HistoryOk(events + [CameraSpawn(cameras[k].name, cameras'[k].spawnedAt, auto)], arms, cameras')
  {
    var e := CameraSpawn(cameras[k].name, cameras'[k].spawnedAt, auto);
    HistoryAges(events, arms, arms, cameras, cameras');
    forall i | 0 <= i < |events| ensures PacedPair(events[i], e) { assert CameraDated(events[i], cameras[k]); }
    forall i | 0 <= i < |cameras| ensures CameraDated(e, cameras'[i]) {
      if i < k { assert CamerasDiffer(cameras[i], cameras[k]); } else if k < i { assert CamerasDiffer(cameras[k], cameras[i]); }
    }
    EventRecorded(events, arms, cameras', e);
  }

  lemma KillRecorded(events: seq<Event>, arms: seq<ArmUnit>, cameras: seq<CameraUnit>, e: Event)
    requires HistoryOk(events, arms, cameras) && EventSafe(e) && (e.ArmKill? || e.CameraKill?)
    ensures HistoryOk(events + [e], arms, cameras)
  {
    EventRecorded(events, arms, cameras, e);
  }

  lemma HistoryKept(events: seq<Event>, arms: seq<ArmUnit>, arms': seq<ArmUnit>, cameras: seq<CameraUnit>, cameras': seq<CameraUnit>)
    requires HistoryOk(events, arms, cameras) && ArmsAlike(arms, arms', -1) && CamerasAlike(cameras, cameras', -1)
    ensures HistoryOk(events, arms', cameras')
  {
    HistoryAges(events, arms, arms', cameras, cameras');
  }

  /** Names are kept by units that stay alike. */
  lemma NamesKept(arms: seq<ArmUnit>, arms': seq<ArmUnit>, cameras: seq<CameraUnit>, cameras': seq<CameraUnit>, k: int, l: int)
    requires Named(arms, cameras) && ArmsAlike(arms, arms', k) && CamerasAlike(cameras, cameras', l)
    ensures Named(arms', cameras')
  {
    forall i, j | 0 <= i < j < |arms| ensures ArmsDiffer(arms'[i], arms'[j]) { assert ArmsDiffer(arms[i], arms[j]); }
    forall i, j | 0 <= i < j < |cameras| ensures CamerasDiffer(cameras'[i], cameras'[j]) { assert CamerasDiffer(cameras[i], cameras[j]); }
  }

  // ---- Arm supervision ---------------------------------------------------------------------------

  function QueueOf(queues: map<Side, seq<EnterControl>>, side: Side): seq<EnterControl> {
    if side in queues then queues[side] else []
  }

  function Drained(queues: map<Side, seq<EnterControl>>, side: Side): map<Side, seq<EnterControl>> {
    if side in queues then queues[side := []] else queues
  }

  /** Only a dead process is replaced, only with no run, and at most every `ARM_RESPAWN` seconds. */
  predicate ArmDue(u: ArmUnit, now: real, idle: bool) {
    !u.alive && idle && now - u.spawnedAt >= ARM_RESPAWN
  }

  predicate ArmIsDown(u: ArmUnit, publishing: bool) { !u.alive || !publishing }

  /** The unit before any respawn: a live one is at worst announced, a dead one is reaped once. */
  function NotedArm(u: ArmUnit, publishing: bool, now: real): ArmUnit {
    if !u.alive then (if u.reaped then u else u.(announced := true, reaped := true))
    else if publishing then u.(announced := false)
    else if now - u.spawnedAt < ARM_BOOT_GRACE then u
    else u.(announced := true)
  }

  /** A fresh process for arm `k`, with what its session queue holds at that moment. */
  function SpawnedArm(f: Fleet, k: nat, auto: bool, running: bool): Fleet
    requires k < |f.arms|
  {
    var u := f.arms[k];
    f.(arms := f.arms[k := u.(alive := true, spawnedAt := f.clock, reaped := false)],
       events := f.events + [ArmSpawn(u.side, f.clock, auto, |QueueOf(f.queues, u.side)|, running)])
  }

  /** Arm `k` looked at, `took` later; a newly dead one has its session queue drained. */
  function WithArmNoted(f: Fleet, k: nat, publishing: bool, now: real, took: Duration): Fleet
    requires k < |f.arms|
  {
    var u := f.arms[k];
    f.(clock := f.clock + took, arms := f.arms[k := NotedArm(u, publishing, now)],
       queues := if !u.alive && !u.reaped then Drained(f.queues, u.side) else f.queues)
  }

  /** What `_tend_arms`, begun at `now`, makes of arm `k`, taking `took` over it. */
  function ArmStep(f: Fleet, k: nat, publishing: bool, now: real, took: Duration, idle: bool): Fleet
    requires k < |f.arms|
  {
    var f1 := WithArmNoted(f, k, publishing, now, took);
    if ArmDue(f.arms[k], now, idle) then SpawnedArm(f1, k, true, !idle) else f1
  }

  /** The pass over the first `k` arms. */
  function ArmsPass(f: Fleet, publishing: seq<bool>, now: real, took: seq<Duration>, idle: bool, k: nat): (f': Fleet)
    requires k <= |f.arms| == |publishing| == |took|
    ensures |f'.arms| == |f.arms| && f'.cameras == f.cameras && f'.armsDown == f.armsDown
    ensures f.clock <= f'.clock && f.events <= f'.events
    decreases k
  {
    if k == 0 then f else ArmStep(ArmsPass(f, publishing, now, took, idle, k - 1), k - 1, publishing[k - 1], now, took[k - 1], idle)
  }

  /** Names of the first `k` arms that are dead or not publishing. */
  function DownArms(arms: seq<ArmUnit>, publishing: seq<bool>, k: nat): (down: set<string>)
    requires k <= |arms| == |publishing|
  {
    if k == 0 then {} else
      DownArms(arms, publishing, k - 1) + if ArmIsDown(arms[k - 1], publishing[k - 1]) then {arms[k - 1].name} else {}
  }

  lemma {:induction false} DownArmsExact(arms: seq<ArmUnit>, publishing: seq<bool>, k: nat, name: string)
    requires k <= |arms| == |publishing|
    ensures name in DownArms(arms, publishing, k) <==>
            exists i :: 0 <= i < k && arms[i].name == name && ArmIsDown(arms[i], publishing[i])
  {
    if k > 0 { DownArmsExact(arms, publishing, k - 1, name); }
  }

  /** A pass that has dealt with the first `k` arms: those answer to the new down set, the rest to the old. */
  ghost predicate PassOk(arms: seq<ArmUnit>, k: nat, down: set<string>, downBefore: set<string>, queues: map<Side, seq<EnterControl>>) {
    forall i :: 0 <= i < |arms| ==> ReapedOk(arms[i], if i < k then down else downBefore, queues)
  }

  ghost predicate MidPass(f: Fleet, k: nat, down: set<string>) {
    CoreOk(f) && PassOk(f.arms, k, down, f.armsDown, f.queues)
  }

  /** A finished pass installs the new down set. */
  lemma PassEnds(f: Fleet, down: set<string>)
    requires MidPass(f, |f.arms|, down)
    ensures FleetOk(f.(armsDown := down))
  {
  }

  lemma QueuesChange(f: Fleet, queues: map<Side, seq<EnterControl>>)
    requires FleetOk(f) && ArmsOk(f.arms, f.armsDown, queues)
    ensures FleetOk(f.(queues := queues))
  {
  }

  /** A respawn of a unit whose queue is empty, outside any run, is safe to record. */
  lemma SpawnedArmIsOk(f: Fleet, k: nat, auto: bool)
    requires CoreOk(f) && k < |f.arms| && QueueOf(f.queues, f.arms[k].side) == []
    requires auto ==> f.clock - f.arms[k].spawnedAt >= ARM_RESPAWN
    ensures CoreOk(SpawnedArm(f, k, auto, false))
  {
    ArmSpawnRecorded(f.events, f.arms, SpawnedArm(f, k, auto, false).arms, f.cameras, k, auto);
    NamesKept(f.arms, SpawnedArm(f, k, auto, false).arms, f.cameras, f.cameras, k, -1);
  }

  lemma ArmNotedIsOk(f: Fleet, k: nat, publishing: bool, now: real, took: Duration)
    requires CoreOk(f) && k < |f.arms|
    ensures CoreOk(WithArmNoted(f, k, publishing, now, took))
  {
    HistoryKept(f.events, f.arms, WithArmNoted(f, k, publishing, now, took).arms, f.cameras, f.cameras);
    NamesKept(f.arms, WithArmNoted(f, k, publishing, now, took).arms, f.cameras, f.cameras, -1, -1);
  }

  lemma ArmStepIsOk(f: Fleet, k: nat, publishing: bool, now: real, took: Duration, idle: bool)
    requires CoreOk(f) && k < |f.arms| && now <= f.clock && ReapedOk(f.arms[k], f.armsDown, f.queues)
    ensures CoreOk(ArmStep(f, k, publishing, now, took, idle))
  {
    ArmNotedIsOk(f, k, publishing, now, took);
    if ArmDue(f.arms[k], now, idle) { SpawnedArmIsOk(WithArmNoted(f, k, publishing, now, took), k, true); }
  }

  lemma PassAdvances(arms: seq<ArmUnit>, k: nat, u: ArmUnit, down: set<string>, down': set<string>, downBefore: set<string>,
                     queues: map<Side, seq<EnterControl>>, queues': map<Side, seq<EnterControl>>)
    requires k < |arms| && PassOk(arms, k, down, downBefore, queues) && down <= down'
    requires ReapedOk(u, down', queues')
    requires queues' == queues || (u.side in queues && queues' == queues[u.side := []])
    ensures PassOk(arms[k := u], k + 1, down', downBefore, queues')
  {
  }

  lemma ArmStepAdvancesPass(f: Fleet, k: nat, publishing: bool, now: real, took: Duration, idle: bool, down: set<string>)
    requires MidPass(f, k, down) && k < |f.arms| && now <= f.clock
    ensures MidPass(ArmStep(f, k, publishing, now, took, idle), k + 1,
                    down + if ArmIsDown(f.arms[k], publishing) then {f.arms[k].name} else {})
  {
    var f' := ArmStep(f, k, publishing, now, took, idle);
    var down' := down + if ArmIsDown(f.arms[k], publishing) then {f.arms[k].name} else {};
    assert ReapedOk(f.arms[k], f.armsDown, f.queues);
    ArmStepIsOk(f, k, publishing, now, took, idle);
    PassAdvances(f.arms, k, f'.arms[k], down, down', f.armsDown, f.queues, f'.queues);
    assert f'.arms == f.arms[k := f'.arms[k]];
  }

  /** `_tend_arms` keeps every invariant: whatever died, no arm is spawned into a non-empty queue. */
  lemma {:induction false} ArmsPassIsOk(f: Fleet, publishing: seq<bool>, now: real, took: seq<Duration>, idle: bool, k: nat)
    requires FleetOk(f) && now <= f.clock && k <= |f.arms| == |publishing| == |took|
    ensures MidPass(ArmsPass(f, publishing, now, took, idle, k), k, DownArms(f.arms, publishing, k))
    decreases k
  {
    if k == 0 {
      assert PassOk(f.arms, 0, {}, f.armsDown, f.queues);
    } else {
      ArmsPassIsOk(f, publishing, now, took, idle, k - 1);
      ArmsPassStep(f, publishing, now, took, idle, k);
    }
  }

  lemma ArmsPassStep(f: Fleet, publishing: seq<bool>, now: real, took: seq<Duration>, idle: bool, k: nat)
    requires now <= f.clock && 0 < k <= |f.arms| == |publishing| == |took|
    requires MidPass(ArmsPass(f, publishing, now, took, idle, k - 1), k - 1, DownArms(f.arms, publishing, k - 1))
    ensures MidPass(ArmsPass(f, publishing, now, took, idle, k), k, DownArms(f.arms, publishing, k))
  {
    var f1 := ArmsPass(f, publishing, now, took, idle, k - 1);
    assert f1.arms[k - 1] == f.arms[k - 1] by { ArmsPassUnits(f, publishing, now, took, idle, k - 1, k - 1); }
    ArmStepAdvancesPass(f1, k - 1, publishing[k - 1], now, took[k - 1], idle, DownArms(f.arms, publishing, k - 1));
  }

  /** The whole pass, with the down set it installs at its end. */
  lemma PassKeepsFleet(f: Fleet, publishing: seq<bool>, now: real, took: seq<Duration>, idle: bool)
    requires FleetOk(f) && now <= f.clock && |f.arms| == |publishing| == |took|
    ensures FleetOk(ArmsPass(f, publishing, now, took, idle, |f.arms|).(armsDown := DownArms(f.arms, publishing, |f.arms|)))
  {
    ArmsPassIsOk(f, publishing, now, took, idle, |f.arms|);
    PassEnds(ArmsPass(f, publishing, now, took, idle, |f.arms|), DownArms(f.arms, publishing, |f.arms|));
  }

  /** Unit by unit: an arm is replaced exactly when it is due, at a time within the pass. */
  lemma {:induction false} ArmsPassUnits(f: Fleet, publishing: seq<bool>, now: real, took: seq<Duration>, idle: bool, k: nat, i: nat)
    requires k <= |f.arms| == |publishing| == |took| && i < |f.arms|
    ensures var f' := ArmsPass(f, publishing, now, took, idle, k);
            if i >= k then f'.arms[i] == f.arms[i]
            else if ArmDue(f.arms[i], now, idle) then
              f'.arms[i].alive && !f'.arms[i].reaped && f.clock <= f'.arms[i].spawnedAt <= f'.clock
            else f'.arms[i] == NotedArm(f.arms[i], publishing[i], now)
    decreases k
  {
    if k > 0 { ArmsPassUnits(f, publishing, now, took, idle, k - 1, i); }
  }

  /** What a pass over the first `k` arms does to arm `i`: a live process is left running; a dead one is reaped, and
      replaced exactly when no run exists and it was spawned at least 20 s ago. */
  lemma ArmsPassExact(f: Fleet, publishing: seq<bool>, now: real, took: seq<Duration>, idle: bool, k: nat, i: nat)
    requires i < k <= |f.arms| == |publishing| == |took|
    ensures var f', u := ArmsPass(f, publishing, now, took, idle, k), f.arms[i];
            var u' := f'.arms[i];
            && u'.name == u.name && u'.side == u.side
            && (u.alive ==>
                  && u'.alive && u'.spawnedAt == u.spawnedAt && u'.reaped == u.reaped
                  && (publishing[i] ==> !u'.announced) && (!publishing[i] && now - u.spawnedAt >= 45.0 ==> u'.announced))
            && (!u.alive && idle && now - u.spawnedAt >= 20.0 ==> u'.alive && !u'.reaped && f.clock <= u'.spawnedAt <= f'.clock)
            && (!u.alive && !(idle && now - u.spawnedAt >= 20.0) ==> !u'.alive && u'.reaped && u'.spawnedAt == u.spawnedAt)
  {
    ArmsPassUnits(f, publishing, now, took, idle, k, i);
    ArmsPassNames(f, publishing, now, took, idle, k, i);
  }

  lemma {:induction false} ArmsPassNames(f: Fleet, publishing: seq<bool>, now: real, took: seq<Duration>, idle: bool, k: nat, i: nat)
    requires k <= |f.arms| == |publishing| == |took| && i < |f.arms|
    ensures var u' := ArmsPass(f, publishing, now, took, idle, k).arms[i]; u'.name == f.arms[i].name && u'.side == f.arms[i].side
    decreases k
  {
    if k > 0 { ArmsPassNames(f, publishing, now, took, idle, k - 1, i); }
  }

  /** A pass empties the session queues of the newly dead arms and of no other. */
  lemma {:induction false} ArmsPassQueues(f: Fleet, publishing: seq<bool>, now: real, took: seq<Duration>, idle: bool, k: nat, side: Side)
    requires k <= |f.arms| == |publishing| == |took| && side in f.queues
    ensures var f' := ArmsPass(f, publishing, now, took, idle, k);
            && side in f'.queues
            && f'.queues[side] == if exists i :: 0 <= i < k && f.arms[i].side == side && !f.arms[i].alive && !f.arms[i].reaped then [] else f.queues[side]
    decreases k
  {
    if k > 0 {
      ArmsPassQueues(f, publishing, now, took, idle, k - 1, side);
      ArmsPassUnits(f, publishing, now, took, idle, k - 1, k - 1);
    }
  }

  /** `reconnect_arm`: a live process is killed first, the queue drained, a fresh process spawned. */
  function Reconnected(f: Fleet, k: nat): Fleet
    requires k < |f.arms|
  {
    var u := f.arms[k];
    var kill := if u.alive then [ArmKill(u.side, f.clock, false)] else [];
    SpawnedArm(f.(events := f.events + kill, queues := Drained(f.queues, u.side)), k, false, false)
  }

  lemma ReconnectedIsOk(f: Fleet, k: nat)
    requires FleetOk(f) && k < |f.arms|
    ensures FleetOk(Reconnected(f, k))
  {
    var u := f.arms[k];
    var kill := if u.alive then [ArmKill(u.side, f.clock, false)] else [];
    if u.alive {
      KillRecorded(f.events, f.arms, f.cameras, kill[0]);
    } else {
      assert f.events + kill == f.events;
    }
    var f1 := f.(events := f.events + kill, queues := Drained(f.queues, u.side));
    assert CoreOk(f1);
    SpawnedArmIsOk(f1, k, false);
  }

  // ---- Camera supervision --------------------------------------------------------------------------

  predicate CameraBooting(u: CameraUnit, now: real) { u.alive && now - u.spawnedAt < CAMERA_BOOT_GRACE }

  predicate CameraIsDown(u: CameraUnit, producing: bool) { !(u.alive && producing) }

  /** The unit before any respawn: a stall is dated when first noticed and forgotten when over. */
  function NotedCamera(u: CameraUnit, producing: bool, now: real): CameraUnit {
    if u.alive && producing then u.(stalledSince := None, announced := false)
    else if CameraBooting(u, now) then u
    else if u.alive && u.stalledSince.None? then u.(stalledSince := Some(now), announced := true)
    else u.(announced := true)
  }

  /** Is camera `u` replaced now? A dead one every `CAMERA_RESPAWN`; a live one, after it has stalled that long. */
  predicate CameraDue(u: CameraUnit, producing: bool, now: real) {
    && !(u.alive && producing) && !CameraBooting(u, now)
    && var noted := NotedCamera(u, producing, now);
       if u.alive then noted.stalledSince.Some? && now - noted.stalledSince.value >= CAMERA_RESPAWN
       else now - u.spawnedAt >= CAMERA_RESPAWN
  }

  /** Replace camera `k`; a live process is killed first, at time `killed`. */
  function SpawnedCamera(f: Fleet, k: nat, killed: real, auto: bool): Fleet
    requires k < |f.cameras|
  {
    var u := f.cameras[k];
    var kill := if u.alive then [CameraKill(u.name, killed, auto, killed - u.spawnedAt)] else [];
    f.(cameras := f.cameras[k := u.(alive := true, spawnedAt := f.clock, stalledSince := None)],
       events := f.events + kill + [CameraSpawn(u.name, f.clock, auto)])
  }

  function WithCameraNoted(f: Fleet, k: nat, producing: bool, now: real, took: Duration): Fleet
    requires k < |f.cameras|
  {
    f.(clock := f.clock + took, cameras := f.cameras[k := NotedCamera(f.cameras[k], producing, now)])
  }

  function CameraStep(f: Fleet, k: nat, producing: bool, now: real, took: Duration): Fleet
    requires k < |f.cameras|
  {
    var f1 := WithCameraNoted(f, k, producing, now, took);
    if CameraDue(f.cameras[k], producing, now) then SpawnedCamera(f1, k, now, true) else f1
  }

  function CamerasPass(f: Fleet, producing: seq<bool>, now: real, took: seq<Duration>, k: nat): (f': Fleet)
    requires k <= |f.cameras| == |producing| == |took|
    ensures |f'.cameras| == |f.cameras| && f'.arms == f.arms && f'.armsDown == f.armsDown && f'.queues == f.queues
    ensures f.clock <= f'.clock && f.events <= f'.events
    decreases k
  {
    if k == 0 then f else CameraStep(CamerasPass(f, producing, now, took, k - 1), k - 1, producing[k - 1], now, took[k - 1])
  }

  /** Names of the first `k` cameras that are dead or not producing. */
  function DownCameras(cameras: seq<CameraUnit>, producing: seq<bool>, k: nat): (down: set<string>)
    requires k <= |cameras| == |producing|
  {
    if k == 0 then {} else
      DownCameras(cameras, producing, k - 1) + if CameraIsDown(cameras[k - 1], producing[k - 1]) then {cameras[k - 1].name} else {}
  }

  lemma {:induction false} DownCamerasExact(cameras: seq<CameraUnit>, producing: seq<bool>, k: nat, name: string)
    requires k <= |cameras| == |producing|
    ensures name in DownCameras(cameras, producing, k) <==>
            exists i :: 0 <= i < k && cameras[i].name == name && CameraIsDown(cameras[i], producing[i])
  {
    if k > 0 { DownCamerasExact(cameras, producing, k - 1, name); }
  }

  lemma {:induction false} CamerasPassUntouched(f: Fleet, producing: seq<bool>, now: real, took: seq<Duration>, k: nat, i: nat)
    requires k <= i < |f.cameras| == |producing| == |took|
    ensures CamerasPass(f, producing, now, took, k).cameras[i] == f.cameras[i]
    decreases k
  {
    if k > 0 { CamerasPassUntouched(f, producing, now, took, k - 1, i); }
  }

  /** Since when a live camera that is not producing has stalled, as a look at `now` dates it. */
  function StalledFrom(u: CameraUnit, now: real): real { if u.stalledSince.Some? then u.stalledSince.value else now }

  /** What a pass over the first `k` cameras does to camera `i`: a producing one is left running and its stall
      forgotten; for its first 20 s nothing else happens to it; then it is replaced exactly after stalling for 30 s.
      A dead one is replaced exactly when it was spawned at least 30 s ago. */
  lemma {:induction false} CamerasPassExact(f: Fleet, producing: seq<bool>, now: real, took: seq<Duration>, k: nat, i: nat)
    requires i < k <= |f.cameras| == |producing| == |took|
    ensures var f', u := CamerasPass(f, producing, now, took, k), f.cameras[i];
            CameraTended(u, f'.cameras[i], producing[i], now, f.clock, f'.clock)
    decreases k
  {
    if i < k - 1 {
      CamerasPassExact(f, producing, now, took, k - 1, i);
    } else {
      CamerasPassUntouched(f, producing, now, took, k - 1, i);
    }
  }

  ghost predicate CameraTended(u: CameraUnit, u': CameraUnit, producing: bool, now: real, from: real, end: real) {
    && u'.name == u.name
    && (u.alive && producing ==> u' == u.(stalledSince := None, announced := false))
    && (u.alive && !producing && now - u.spawnedAt < 20.0 ==> u' == u)
    && (u.alive && !producing && now - u.spawnedAt >= 20.0 ==>
          if now - StalledFrom(u, now) >= 30.0 then Replaced(u', from, end)
          else u'.alive && u'.spawnedAt == u.spawnedAt && u'.stalledSince == Some(StalledFrom(u, now)))
    && (!u.alive ==> if now - u.spawnedAt >= 30.0 then Replaced(u', from, end) else !u'.alive && u'.spawnedAt == u.spawnedAt)
  }

  ghost predicate Replaced(u: CameraUnit, from: real, end: real) {
    u.alive && u.stalledSince.None? && from <= u.spawnedAt <= end
  }

  /** A live camera that is replaced is killed first, and that is recorded with its age. */
  lemma ReplacementIsRecorded(f: Fleet, k: nat, killed: real, auto: bool)
    requires k < |f.cameras|
    ensures var u := f.cameras[k];
            SpawnedCamera(f, k, killed, auto).events ==
            f.events + (if u.alive then [CameraKill(u.name, killed, auto, killed - u.spawnedAt)] else []) + [CameraSpawn(u.name, f.clock, auto)]
  {
  }

  /** A camera that is due has been up for a respawn period, and for 50 s if it is still alive. */
  lemma DueCameraIsOld(u: CameraUnit, producing: bool, now: real, clock: real)
    requires CameraTimeOk(u, clock) && CameraDue(u, producing, now)
    ensures now - u.spawnedAt >= CAMERA_RESPAWN
    ensures u.alive ==> now - u.spawnedAt >= CAMERA_BOOT_GRACE + CAMERA_RESPAWN
  {
  }

  lemma SpawnedCameraIsOk(f: Fleet, k: nat, killed: real, auto: bool)
    requires CoreOk(f) && k < |f.cameras| && killed <= f.clock
    requires auto ==> killed - f.cameras[k].spawnedAt >= CAMERA_RESPAWN
    requires auto && f.cameras[k].alive ==> killed - f.cameras[k].spawnedAt >= CAMERA_BOOT_GRACE + CAMERA_RESPAWN
    ensures CoreOk(SpawnedCamera(f, k, killed, auto))
  {
    var u := f.cameras[k];
    var f' := SpawnedCamera(f, k, killed, auto);
    NamesKept(f.arms, f.arms, f.cameras, f'.cameras, -1, k);
    if u.alive {
      var kill := CameraKill(u.name, killed, auto, killed - u.spawnedAt);
      KillRecorded(f.events, f.arms, f.cameras, kill);
      CameraSpawnRecorded(f.events + [kill], f.arms, f.cameras, f'.cameras, k, auto);
    } else {
      assert f.events + [] == f.events;
      CameraSpawnRecorded(f.events, f.arms, f.cameras, f'.cameras, k, auto);
    }
  }

  lemma CameraNotedIsOk(f: Fleet, k: nat, producing: bool, now: real, took: Duration)
    requires CoreOk(f) && k < |f.cameras| && now <= f.clock
    ensures CoreOk(WithCameraNoted(f, k, producing, now, took))
  {
    assert CameraTimeOk(f.cameras[k], f.clock);
    HistoryKept(f.events, f.arms, f.arms, f.cameras, WithCameraNoted(f, k, producing, now, took).cameras);
    NamesKept(f.arms, f.arms, f.cameras, WithCameraNoted(f, k, producing, now, took).cameras, -1, -1);
  }

  lemma CameraStepIsOk(f: Fleet, k: nat, producing: bool, now: real, took: Duration)
    requires CoreOk(f) && k < |f.cameras| && now <= f.clock
    ensures CoreOk(CameraStep(f, k, producing, now, took))
  {
    CameraNotedIsOk(f, k, producing, now, took);
    if CameraDue(f.cameras[k], producing, now) {
      DueCameraIsOld(f.cameras[k], producing, now, f.clock);
      SpawnedCameraIsOk(WithCameraNoted(f, k, producing, now, took), k, now, true);
    }
  }

  lemma CameraStepKeepsFleet(f: Fleet, k: nat, producing: bool, now: real, took: Duration)
    requires FleetOk(f) && k < |f.cameras| && now <= f.clock
    ensures FleetOk(CameraStep(f, k, producing, now, took))
  {
    CameraStepIsOk(f, k, producing, now, took);
  }

  /** `_tend_cameras` keeps every invariant. */
  lemma {:induction false} CamerasPassIsOk(f: Fleet, producing: seq<bool>, now: real, took: seq<Duration>, k: nat)
    requires FleetOk(f) && now <= f.clock && k <= |f.cameras| == |producing| == |took|
    ensures FleetOk(CamerasPass(f, producing, now, took, k))
    decreases k
  {
    if k > 0 {
      CamerasPassIsOk(f, producing, now, took, k - 1);
      CamerasPassStep(f, producing, now, took, k);
    }
  }

  lemma CamerasPassStep(f: Fleet, producing: seq<bool>, now: real, took: seq<Duration>, k: nat)
    requires now <= f.clock && 0 < k <= |f.cameras| == |producing| == |took| && FleetOk(CamerasPass(f, producing, now, took, k - 1))
    ensures FleetOk(CamerasPass(f, producing, now, took, k))
  {
    CameraStepKeepsFleet(CamerasPass(f, producing, now, took, k - 1), k - 1, producing[k - 1], now, took[k - 1]);
  }

  // ---- Runs under supervision ------------------------------------------------------------------------

  /** What a run that a dead arm was feeding, or feeding on, looks like afterwards. */
  function StoppedBy(side: Side, r: Option<ActiveRun>): Option<ActiveRun> {
    if r.Some? && (side in r.value.commandSides || r.value.phase != Skill) then Some(r.value.(stopping := true)) else r
  }

  /** A newly dead arm that ends run `r`. */
  predicate Fatal(u: ArmUnit, r: ActiveRun) {
    !u.alive && !u.reaped && (u.side in r.commandSides || r.phase != Skill)
  }

  /** The run after the newly dead among the first `k` arms have been reaped. */
  function RunAfter(r: Option<ActiveRun>, arms: seq<ArmUnit>, k: nat): (r': Option<ActiveRun>)
    requires k <= |arms|
    ensures r'.Some? == r.Some?
  {
    if k == 0 then r else
      var rest := RunAfter(r, arms, k - 1);
      if !arms[k - 1].alive && !arms[k - 1].reaped then StoppedBy(arms[k - 1].side, rest) else rest
  }

  /** Supervision changes a run in one way only: it is stopped, and exactly when an arm it needs has newly died. */
  lemma {:induction false} RunAfterExact(r: ActiveRun, arms: seq<ArmUnit>, k: nat)
    requires k <= |arms|
    ensures var r' := RunAfter(Some(r), arms, k).value;
            r' == r.(stopping := r'.stopping)
            && (r'.stopping <==> r.stopping || exists i :: 0 <= i < k && Fatal(arms[i], r))
            && forall i :: 0 <= i < k ==>
                 (Fatal(arms[i], r) <==> !arms[i].alive && !arms[i].reaped && (arms[i].side in r.commandSides || r.phase == Collection || r.phase == Eval))
  {
    if k > 0 { RunAfterExact(r, arms, k - 1); }
  }
}
