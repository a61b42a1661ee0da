# Verified model of the dual-arm control stack

A Dafny 4.11 model of the parts of a bimanual robot control stack whose correctness depends on many steps
together, with proofs about every run, every interleaving or every input of them.

| file | models |
|---|---|
| `Wrappers.dfy`, `Reals.dfy`, `Integers.dfy`, `Sequences.dfy` | options, arithmetic and list helpers |
| `Message.dfy` | discrete commands and the native test for a stop row |
| `Seqlock.dfy`, `StopPolls.dfy`, `RingModel.dfy`, `TornRead.dfy` | the lock-free ring: one writer storing word by word, any number of readers, as an interleaving machine and as the code running alone |
| `StreamRing.dfy`, `CommandChannel.dfy` | the Python reader of the same ring (`last`) while the producer runs, and the reliable command cursor on top of it |
| `Trajectory.dfy`, `Controller.dfy` | the real-time trajectory law, the deadman and the streaming loop |
| `Session.dfy`, `SessionDaemon.dfy` | the session daemon: run, queued start, session queues, arm and camera supervision |
| `Angles.dfy`, `Calibration.dfy`, `PoseErrors.dfy` | solving a leader convention from captured poses, and applying it; what errors in the poses do to it |
| `Sides.dfy`, `Layout.dfy`, `Packing.dfy`, `Vectors.dfy` | the canonical state/action layout, its construction, packing and splitting |
| `Deltas.dfy`, `Chunks.dfy` | the joint delta transform and the training statistics that must agree with it |
| `Channel.dfy`, `Collection.dfy`, `Frames.dfy`, `Episodes.dfy`, `Recording.dfy` | setpoint packing, teleoperation, frames, episodes, and the record loop |
| `Adapter.dfy` | the policy endpoint's exact-cover index projection |
| `Plots.dfy` | the bounded plot buffer and the cursor protocol of its browser pages |

Conventions used throughout:

* Reals stand for floating point. A square root is any function `s` with `s(x) >= 0` and `s(x) * s(x) == x`
  for `x >= 0`; a circular mean is any function that averages equal angles to that angle up to full turns; the results
  on pose errors also use that angles within less than 90 degrees of one direction average to within the same
  distance of it, as the direction of a sum of unit vectors does.
* The shared memory of the ring is sequentially consistent; each shared load or store is one step, and
  steps of different processes interleave freely.
* Processes, streams, clocks, operator events and config composition are inputs that may take any value at
  each step. Exceptions are error results (`None`, `Refused`, `Raised`, `false`).
* Fields named as history (`log`, `events`, `delivered`, `added`, …) are never read by an operation. They
  only let a result speak about the past.

Two things the proofs bring out about the code:

* "Every adopted target is one whole posted row" is false of the code: the adoption gate of the control loop looks
  at the vector `Latest` left behind, not at whether `Latest` succeeded. `TornRead.ThresholdIsExact` gives the
  exact condition for every ring and robot: with at most `n` appends per call it holds in all runs if and only if
  `n < 4 * (capacity - 1)`, or the robot has at most one joint, or rows are too narrow to be adopted.
  `TornRead.AdoptionFails` has the input on the other side: one row of zeros, then rows of ones, and the loop
  adopts a zero followed by ones.
* "A second switch replaces the queued one" is false of the code. `SessionDaemon.OlderStartSurvives` gives an
  input, and `SessionDaemon.Daemon.HandleSwitch` the exact condition: an older queued start stays if and only if
  the command is malformed, or no run exists, no arm is in control and the gates refuse to start it at once.

## Model

| member | source | states |
|---|---|---|
| `Message.EncodeDecode` | src/dual_flexiv_control/control/message.py:42-60 | decoding an encoded command restores kind and arguments, padded to the channel width |
| `Message.Encode` | src/dual_flexiv_control/control/message.py:42-53 | fails exactly when the arguments do not fit; otherwise kind, arguments, zeros |
| `Message.StopRowIffStop` | native/flexiv_rt_controller/main.cpp:429-433 | the native test accepts exactly the encoded STOP commands, whatever their arguments |
| `Seqlock.ApplyKeepsInv` | native/flexiv_rt_controller/main.cpp:118-171 | any single step of writer or reader keeps the memory and reader invariants, and history only grows |
| `Seqlock.RunKeepsInv` | native/flexiv_rt_controller/main.cpp:118-171 | every interleaving of word-by-word appends and any number of readers keeps the invariant |
| `Seqlock.EveryScheduleRuns` | native/flexiv_rt_controller/main.cpp:118-171 | no schedule is excluded: every list of steps leads to exactly one state |
| `Seqlock.RunOnlyAdvances` | native/flexiv_rt_controller/main.cpp:418-435 | along any run a reader's cursor, examined rows and reported rows only grow |
| `Seqlock.ReadsAreNeverTorn` | native/flexiv_rt_controller/main.cpp:118-141 | under every interleaving a ReadAt that returns true returned exactly the row appended at that index with its own time |
| `Seqlock.LatestIsFreshAndMonotone` | native/flexiv_rt_controller/main.cpp:143-155 | Latest returns a whole row, no older than the newest at call start and never older than an earlier result |
| `Seqlock.LatestFailureIsExpensive` | native/flexiv_rt_controller/main.cpp:143-155 | Latest fails only on an empty ring, with nothing in the vector, or after 4*(capacity-1) appends during the call |
| `StopPolls.StopPollIsReliable` | native/flexiv_rt_controller/main.cpp:418-435 | over every run, at any moment of it and at its end: the cursor never decreases or passes the count, rows are examined in order, once, skipped only when lapped, and true is returned for exactly the stop rows examined |
| `StopPolls.PollReturnsStop` | native/flexiv_rt_controller/main.cpp:418-435 | over every run, what one finished call returned: true if and only if the last row that call examined is a stop row; the rows before it are none; on false it had reached the count read at its start or a row lapped meanwhile |
| `StopPolls.RunKeepsPolls` | native/flexiv_rt_controller/main.cpp:418-435 | every interleaving keeps what a poll under way has found and what the last finished poll returned |
| `Seqlock.ReadFailsForCause` | native/flexiv_rt_controller/main.cpp:118-141 | a ReadAt that returns false asked for a negative, a not yet published or a lapped index |
| `RingModel.AppendPublishes` | native/flexiv_rt_controller/main.cpp:157-171 | left alone, an append publishes exactly its row and rests again |
| `RingModel.Ring.constructor` | src/dual_flexiv_control/streams/ring.py:163-196 | an empty valid ring |
| `RingModel.Ring.Append` | native/flexiv_rt_controller/main.cpp:157-171 | the in-place stores are the writer steps of the interleaving machine; the log grows by the row, or not at all for a wrong width |
| `RingModel.Ring.ReadAt` | native/flexiv_rt_controller/main.cpp:118-141 | undisturbed, a read succeeds exactly on the last `capacity` rows and returns that row |
| `RingModel.Ring.Latest` | native/flexiv_rt_controller/main.cpp:143-155 | undisturbed, returns the newest row, and fails exactly on an empty ring |
| `RingModel.Ring.StopCommandPending` | native/flexiv_rt_controller/main.cpp:418-435 | with an idle writer, true exactly when a stop row lies in the unread retained window; the cursor then stands behind the first one, else at the count |
| `RingModel.Ring.StopAmong` | native/flexiv_rt_controller/main.cpp:418-435 | on a ring of encoded commands, with an idle writer: true exactly when an encoded STOP lies in the unread retained window |
| `TornRead.LatestCanTear` | native/flexiv_rt_controller/main.cpp:129-155 | for every capacity, Latest can fail after exactly 4*(capacity-1) appends of one row and leave the first word of the old row before the rest of the new one |
| `TornRead.ThresholdIsExact` | native/flexiv_rt_controller/main.cpp:129-155 | for every ring and robot: in all runs with at most N appends per Latest call every adopted target is one whole posted row if and only if N < 4*(capacity-1), or the robot has at most one joint, or rows are narrower than the robot |
| `TornRead.AdoptionFails` | native/flexiv_rt_controller/main.cpp:610-633 | from N = 4*(capacity-1) on, a run from a new ring with rows of zeros and of ones makes the loop adopt a vector that begins no posted row |
| `TornRead.TornCallReachable` | native/flexiv_rt_controller/main.cpp:129-155 | that run exists: a failed call leaves a zero followed by ones while only rows of zeros and of ones were posted |
| `TornRead.RunKeepsWords` | native/flexiv_rt_controller/main.cpp:118-155 | over every run a failed call leaves nothing, or a vector whose first word is the first word of a row |
| `TornRead.TornVectorIsAdopted` | native/flexiv_rt_controller/main.cpp:610-633 | the loop adopts the mixed vector while the last good setpoint is within the soft deadman, and it is a posted row only if the mix equals the new row or an older one |
| `StreamRing.SharedRing.Attempt` | src/dual_flexiv_control/streams/ring.py:258-287 | one attempt of `last`, with the producer running before every access, yields exact rows up to the sampled count and omits only lapped ones |
| `StreamRing.SharedRing.Last` | src/dual_flexiv_control/streams/ring.py:246-287 | the newest contiguous exact rows, flagged as overrun exactly when fewer than asked for and retainable, none for k <= 0; otherwise nothing only from an empty ring or after 4*(capacity-1) appends that lapped every older row |
| `StreamRing.AttemptIsOk` | src/dual_flexiv_control/streams/ring.py:258-287 | stamps, data, times and stamps read at four later moments combine into a batch of true rows |
| `StreamRing.StampedIffRetained` | src/dual_flexiv_control/streams/ring.py:211-237 | a published row carries its stamp exactly while its slot has not been claimed again, and then the slot holds it |
| `CommandChannel.CommandCursor.constructor` | src/dual_flexiv_control/control/channel.py:285-288 | a fresh cursor has delivered nothing and starts at the head |
| `CommandChannel.FreshCursor` | src/dual_flexiv_control/control/channel.py:285-288 | even when `latest` comes back empty on a busy ring, no row posted before the call can be delivered |
| `CommandChannel.CommandCursor.DrainNew` | src/dual_flexiv_control/control/channel.py:290-316 | rows beyond the cursor in order; rows plus reported loss equal the cursor's advance once it is non-negative; everything published before the call is passed unless lapped |
| `CommandChannel.DeliveryKeepsCursor` | src/dual_flexiv_control/control/channel.py:290-316 | order, freshness, no drop except by lapping, and the loss account survive every drain |
| `CommandChannel.CommandCursor.Follow` | src/dual_flexiv_control/control/channel.py:273-316 | over any number of drains the rows returned are log rows at strictly increasing indices not below the creation count, and everything published before the first drain is passed unless lapped |
| `Trajectory.AdvanceTrajectory` | native/flexiv_rt_controller/main.cpp:445-468 | every joint makes one step of the law, in place, and no other entry changes |
| `Trajectory.AdvanceJoint` | native/flexiv_rt_controller/main.cpp:451-466 | the loop body on one joint is the step that the envelope lemmas speak about |
| `Trajectory.LawKeepsLimits` | native/flexiv_rt_controller/main.cpp:445-468 | a tick keeps the speed and acceleration limits for any target |
| `Trajectory.ArrivedIsPut` | native/flexiv_rt_controller/main.cpp:451-457 | a joint within 1e-7 of its target and slow enough to stop within the tick is put on it, at rest |
| `Trajectory.StepSeeksTarget` | native/flexiv_rt_controller/main.cpp:458-466 | any other joint takes, of all velocities reachable in the tick, the one nearest to the wanted velocity: towards the target, at the speed limit or at the speed it can still brake away |
| `Trajectory.LeavesRest` | native/flexiv_rt_controller/main.cpp:458-466 | from rest a joint moves towards its target |
| `Trajectory.StepIsKinematic` | native/flexiv_rt_controller/main.cpp:445-468 | streamed velocity and acceleration are those of the streamed positions, up to the final snap |
| `Trajectory.FollowingKeepsExcess` | native/flexiv_rt_controller/main.cpp:445-468 | a following step leaves a speed that can still be braked away, up to the discretisation allowance |
| `Trajectory.BrakingKeepsExcess` | native/flexiv_rt_controller/main.cpp:445-468 | a braking step lowers the kinetic excess by exactly (a dt)^2 |
| `Trajectory.ExcessBoundsPosition` | native/flexiv_rt_controller/main.cpp:445-468 | the excess invariant bounds the position by hi + vmax dt/2 + amax dt^2/8 |
| `Trajectory.StepStaysInEnvelope` | native/flexiv_rt_controller/main.cpp:445-468 | one step with a target in [lo, hi] keeps the envelope on both sides and the limits |
| `Trajectory.RunStaysInEnvelope` | native/flexiv_rt_controller/main.cpp:445-468 | for every target sequence in [lo, hi] from rest inside it, the joint stays in [lo - o, hi + o] with o = vmax dt/2 + amax dt^2/8, within its limits |
| `Trajectory.OvershootHappens` | native/flexiv_rt_controller/main.cpp:445-468 | the widening is needed: a concrete single tick passes its target |
| `Controller.LatestIsHonest` | native/flexiv_rt_controller/main.cpp:129-155 | with fewer than 4*(capacity-1) appends per call, Latest returns a whole posted row or leaves the vector empty |
| `Controller.TickIsSafe` | native/flexiv_rt_controller/main.cpp:605-655 | one streaming tick keeps the invariant and streams a fresh, bounded command |
| `Controller.TraceIsSafe` | native/flexiv_rt_controller/main.cpp:591-655 | given that each tick's Latest call was honest about one list of posted rows: every streamed command of every run is fresh, follows one whole posted row and stays inside envelope, limits and tolerance |
| `Controller.CallsAreHonest` | native/flexiv_rt_controller/main.cpp:143-155 | in any run of the ring with fewer than 4*(capacity-1) appends per Latest call, every call so far is honest about the rows posted by now |
| `Controller.RingRunIsSafe` | native/flexiv_rt_controller/main.cpp:591-655 | on a running ring with fewer than 4*(capacity-1) appends per Latest call, every streamed command follows one whole row already posted, some posted row is no older than the hard deadman, the target changes only within the soft deadman, and position, speed, acceleration and error are bounded |
| `Controller.TickFollows` | native/flexiv_rt_controller/main.cpp:605-655 | a tick whose call succeeded within the soft deadman with enough values targets exactly those values, with the age of that row; one that found nothing usable keeps its target; and a tick halts exactly on the halt flag, an age beyond the hard deadman or an error beyond tolerance |
| `Controller.TraceFollows` | native/flexiv_rt_controller/main.cpp:591-655 | the same for every command of every run, and the run ends before its inputs exactly where a tick has such a cause |
| `Controller.RingRunFollows` | native/flexiv_rt_controller/main.cpp:605-633 | on a running ring a command whose call succeeded goes for exactly the row of the index the call returned, as soon as that row is young and wide enough |
| `Controller.WorstError` | native/flexiv_rt_controller/main.cpp:634-655 | the largest joint error |
| `Controller.Loop.constructor` | native/flexiv_rt_controller/main.cpp:591-603 | at rest on the first setpoint |
| `Controller.Loop.Adopt` | native/flexiv_rt_controller/main.cpp:620-633 | the newest vector replaces the target exactly if non-empty, young enough and wide enough |
| `Controller.Loop.Tick` | native/flexiv_rt_controller/main.cpp:605-655 | one in-place tick is the transition that TickIsSafe and TickFollows speak about |
| `Controller.Run` | native/flexiv_rt_controller/main.cpp:591-655 | refused exactly for non-positive limits; otherwise streams exactly the trace that TraceIsSafe speaks about, every command following the setpoint read for it and every end of the run explained by its cause |
| `Controller.RunOnRing` | native/flexiv_rt_controller/main.cpp:591-655 | the streaming loop fed by such a ring run streams only such commands, and after a successful call goes for the row that call returned |
| `SessionDaemon.Daemon.constructor` | src/dual_flexiv_control/session.py:565-606 | viewing, nothing queued, empty session queues for the control-enabled sides |
| `SessionDaemon.Daemon.Vet` | src/dual_flexiv_control/session.py:781-1000 | the gates of a start pass exactly when stated, and choose each commandable side once and no down side |
| `SessionDaemon.Daemon.HandleStart` | src/dual_flexiv_control/session.py:820-1024 | refused or queued starts leave run, run_seq and queues alone; an accepted one adds one run, raises run_seq by one and puts one EnterControl on exactly the commanded sides; a blocked follower makes an eval command none |
| `SessionDaemon.Daemon.StartNow` | src/dual_flexiv_control/session.py:847-1024 | the gates and the effects of a start, without the waiting for busy arms |
| `SessionDaemon.Daemon.Launch` | src/dual_flexiv_control/session.py:997-1019 | the effects of an accepted start keep a reaped arm's queue empty |
| `SessionDaemon.CommandSidesDistinct` | src/dual_flexiv_control/session.py:990-1004 | no side is commanded twice |
| `SessionDaemon.Daemon.HandleStop` | src/dual_flexiv_control/session.py:1100-1114 | clears the queued start and stops the run |
| `SessionDaemon.Daemon.HandleSwitch` | src/dual_flexiv_control/session.py:1026-1057 | started, queued or refused exactly when stated; a started one is the run of that command with one EnterControl on exactly its commandable sides; behind a run the new start is queued and the run stopped; an older queued start survives exactly when the switch is refused |
| `SessionDaemon.OlderStartSurvives` | src/dual_flexiv_control/session.py:1040-1042 | a concrete sequence: a start is queued, a newer switch is refused, and the older start is still queued |
| `SessionDaemon.Daemon.TendPending` | src/dual_flexiv_control/session.py:1071-1098 | a queued start waits for the run, then for the arms until its deadline; when it fires it becomes the run of its own command, with one EnterControl on exactly its commandable sides, or is queued again behind a busy arm, or is dropped by a refusal, and nothing else changes |
| `SessionDaemon.Daemon.ReapConsumer` | src/dual_flexiv_control/session.py:1394-1418 | an exited consumer ends the run and a queued start survives |
| `SessionDaemon.Daemon.WatchArmDropout` | src/dual_flexiv_control/session.py:1446-1472 | stops exactly when armed and a commanded arm left control; arms once all were seen; no queued start is lost |
| `SessionDaemon.Daemon.HandleGravComp` | src/dual_flexiv_control/session.py:1288-1293 | disabling stops only a collection run and keeps the queued start |
| `SessionDaemon.Daemon.HandleReconnectArm` | src/dual_flexiv_control/session.py:1116-1153 | allowed exactly with no run, nothing queued and the arm not in control; that arm alone is replaced, a live one killed first, and its queue drained |
| `SessionDaemon.Daemon.HandleRespawnCamera` | src/dual_flexiv_control/session.py:1155-1183 | allowed exactly with no recording or eval run; that camera alone is replaced, a live one killed first |
| `SessionDaemon.Daemon.TendArms` | src/dual_flexiv_control/session.py:1556-1606 | the whole pass equals its specification, down arms are exactly the dead or silent ones, a run is stopped only by a newly dead arm it needs |
| `SessionDaemon.Daemon.TendArm` | src/dual_flexiv_control/session.py:1531-1606 | one unit: reaped once, its queue drained and the run it feeds stopped, respawned only with no run and 20 s after its last spawn |
| `SessionDaemon.Daemon.TendCameras` | src/dual_flexiv_control/session.py:1640-1697 | the whole pass equals its specification; down cameras are exactly the dead or silent ones |
| `SessionDaemon.Daemon.TendCamera` | src/dual_flexiv_control/session.py:1640-1697 | one unit: boot grace, stall dating, and replacement exactly when due |
| `SessionDaemon.Serve` | src/dual_flexiv_control/session.py:820-1697 | for every schedule of commands, watchdogs, deaths and delays: the mode names the run, the published pending start mirrors the queued one, a queued start sits behind a run only while it stops, every arm was spawned into an empty queue outside any run, supervision killed no live arm, cameras only after 50 s, respawns 20 s and 30 s apart |
| `Session.ArmsPassIsOk` | src/dual_flexiv_control/session.py:1531-1606 | a reaped arm stays dead, down and with an empty queue until respawned, through the whole pass |
| `Session.ArmsPassUnits` | src/dual_flexiv_control/session.py:1556-1606 | unit by unit, an arm is replaced exactly when it is due |
| `Session.CamerasPassIsOk` | src/dual_flexiv_control/session.py:1640-1697 | a stall is never dated before the end of the boot grace, through the whole pass |
| `Session.DueCameraIsOld` | src/dual_flexiv_control/session.py:1640-1697 | a camera due for replacement is 30 s old, and 50 s if alive |
| `Session.ReconnectedIsOk` | src/dual_flexiv_control/session.py:1116-1153 | a manual replacement keeps every invariant of supervision, including the spacing of automatic ones |
| `Session.SpawnedArmIsOk` | src/dual_flexiv_control/session.py:1592-1602 | a spawn into an empty queue, spaced as required, keeps the history safe |
| `Session.SpawnedCameraIsOk` | src/dual_flexiv_control/session.py:1677-1692 | killing and replacing a camera keeps the history safe and paced |
| `Session.DownArmsExact` | src/dual_flexiv_control/session.py:1556-1606 | a name is reported down exactly when its arm is dead or not publishing |
| `Session.DownCamerasExact` | src/dual_flexiv_control/session.py:1640-1697 | a camera is reported down exactly when dead or not producing |
| `Session.ArmsPassExact` | src/dual_flexiv_control/session.py:1556-1606 | what a pass does to one arm, exactly: a live one is left running; a dead one is reaped, and replaced exactly when no run exists and it was spawned at least 20 s ago |
| `Session.ArmsPassQueues` | src/dual_flexiv_control/session.py:1556-1606 | a pass empties the session queues of the newly dead arms and of no other |
| `Session.CamerasPassExact` | src/dual_flexiv_control/session.py:1640-1697 | what a pass does to one camera, exactly: a producing one is left running, one in its first 20 s too; a stalled one is replaced exactly after stalling for 30 s, a dead one exactly 30 s after its spawn |
| `Session.ReplacementIsRecorded` | src/dual_flexiv_control/session.py:1677-1692 | a live camera that is replaced is killed first, and both are recorded |
| `Session.RunAfterExact` | src/dual_flexiv_control/session.py:1531-1554 | supervision changes a run only by stopping it, exactly when an arm it needs has newly died |
| `Angles.WrapIsShortest` | src/dual_flexiv_control/dashboard/calibration.py:346-347 | the wrapped angle is the shortest representative |
| `Calibration.MeasureSign` | src/dual_flexiv_control/dashboard/calibration.py:399-403 | circular mean and RMS of the wrapped estimates of one sign |
| `Calibration.SolveFromSamples` | src/dual_flexiv_control/dashboard/calibration.py:367-425 | fails exactly on no or misshapen samples; otherwise the solution that KeepsBetterSign speaks about, with the flips in increasing order |
| `Calibration.KeepsBetterSign` | src/dual_flexiv_control/dashboard/calibration.py:404-413 | for all samples, any mean and any square root: the kept residual is at most that of either sign plus 1e-6; a joint is ambiguous exactly when the two are within 1e-6, and then keeps the configured sign; otherwise the kept sign is better by more than that |
| `Calibration.ResidualIsRms` | src/dual_flexiv_control/dashboard/calibration.py:399-403 | the residual of a sign is the root mean square of what its offset leaves between the references and the converted readings |
| `PoseErrors.PoseErrorTolerated` | src/dual_flexiv_control/dashboard/calibration.py:396-414 | samples posed with an error of up to e degrees still give the true sign, an offset within e of the true one and a residual of at most 2e, whenever two references are far enough apart: (D - 2e)^2 > 2n(2e + 1e-6)^2 |
| `PoseErrors.TwentyDegreesAreTolerated` | src/dual_flexiv_control/dashboard/calibration.py:282-318 | the six reference poses captured once, every joint up to 20 degrees off, decide all seven signs |
| `PoseErrors.PoseComesBack` | src/dual_flexiv_control/control/convention.py:28-42 | converted with that solution, every captured sample comes within 2e of its reference |
| `Calibration.TrueSignFits` | src/dual_flexiv_control/dashboard/calibration.py:399-403 | samples of one convention fit its sign without residual at a congruent offset |
| `Calibration.WrongSignMisfits` | src/dual_flexiv_control/dashboard/calibration.py:399-403 | whatever the mean returns, two references with doubled difference D leave the other sign a residual above the tie threshold once D*D > 2n threshold^2 |
| `Calibration.SolverRecovers` | src/dual_flexiv_control/dashboard/calibration.py:396-414 | such samples give back the convention: its sign, no residual, a congruent offset, no ambiguity |
| `Calibration.AmbiguousKeepsFallback` | src/dual_flexiv_control/dashboard/calibration.py:404-407 | references equal after doubling make the joint ambiguous and keep its configured sign |
| `Calibration.ConvertFactrToRizon` | src/dual_flexiv_control/control/convention.py:28-42 | in-place offset, flip and wrap equal the per-joint conversion; offsets that do not broadcast or bad indices fail |
| `Calibration.NegatedIffOdd` | src/dual_flexiv_control/control/convention.py:38-40 | a joint is negated exactly when an odd number of configured indices name it, negative ones from the back |
| `Calibration.ZeroResidualConverts` | src/dual_flexiv_control/control/convention.py:28-42 | any fit without residual maps every captured sample to its reference up to full turns |
| `Calibration.CalibrationRoundTrip` | src/dual_flexiv_control/dashboard/calibration.py:367-425 | calibrate then convert: every captured sample comes back as its reference |
| `Calibration.CalibrateThenConvert` | src/dual_flexiv_control/dashboard/calibration.py:367-425 | solving on samples of one convention whose references tell the signs apart, then converting a captured leader sample with its gripper values, returns the whole reference pose |
| `Calibration.StraightPoseIsZero` | src/dual_flexiv_control/control/convention.py:45-66 | the straight-pose offsets convert that pose to zero, flipped or not |
| `Calibration.ReferencePosesDecide` | src/dual_flexiv_control/dashboard/calibration.py:282-318 | the six reference poses separate the signs of all seven joints |
| `Sides.SortedSides` | src/dual_flexiv_control/layout.py:18-21 | the same names, left and right first, the rest in name order |
| `Sides.OrderIsUnique` | src/dual_flexiv_control/layout.py:18-21 | that order is one list only, so it is deterministic |
| `Sides.LeftThenRight` | src/dual_flexiv_control/layout.py:18-21 | left stands first, right next, the others by name |
| `Sides.NamesByFirstDifference` | src/dual_flexiv_control/layout.py:18-21 | names compare at their first different character, a proper prefix before the longer name |
| `Layout.BlocksTile` | src/dual_flexiv_control/layout.py:51-68 | the state blocks follow each other without gap or overlap up to the state width |
| `Layout.TilesCover` | src/dual_flexiv_control/layout.py:51-68 | every index of a tiled vector lies in exactly one block |
| `Layout.SlotsTileThem` | src/dual_flexiv_control/layout.py:70-81 | the action slots with their grippers tile the action vector in side order |
| `Layout.BlockAt` | src/dual_flexiv_control/layout.py:51-68 | the block of a side and signal stands at its place in side-then-signal order and has the width of that stream |
| `Layout.SlotAt` | src/dual_flexiv_control/layout.py:70-81 | the slot of a side carries the field of its control kind in the configured width |
| `Layout.DistinctDict` | src/dual_flexiv_control/layout.py:60-66 | with distinct signals the dictionary of slices is the list of blocks |
| `Layout.DictKeepsLast` | src/dual_flexiv_control/layout.py:60-66 | the dictionary keeps, per key, its last block |
| `Layout.BlocksDistinct` | src/dual_flexiv_control/layout.py:51-68 | distinct sides and signals give distinct keys |
| `Layout.DictCoversIff` | src/dual_flexiv_control/layout.py:60-66 | the named slices cover the state vector exactly when no non-empty block's signal is listed again |
| `Packing.Build` | src/dual_flexiv_control/layout.py:35-81 | fails exactly on an unknown action side, a missing signal or a control kind without action; otherwise the tiled layout |
| `Packing.LayoutIsUnique` | src/dual_flexiv_control/layout.py:35-81 | the layout does not depend on the order of the arm map |
| `Packing.BimanualIsGeneral` | src/dual_flexiv_control/layout.py:90-122 | the written-out bimanual contract is the general construction for any two seven-joint qpos arms |
| `Vectors.PackAction` | src/dual_flexiv_control/layout.py:168-180 | fails exactly on a missing side or wrong width; otherwise values and grippers end to end |
| `Vectors.PackState` | src/dual_flexiv_control/layout.py:158-166 | fails exactly on a missing block or wrong width; every named slice then holds its value and everything else is zero |
| `Vectors.DictEntriesOk` | src/dual_flexiv_control/layout.py:51-68 | the named slices of a constructed layout lie inside the vector and do not overlap |
| `Vectors.SplitUndoesPack` | src/dual_flexiv_control/layout.py:168-195 | splitting a packed action returns every side's field, value and gripper, zero for a missing gripper |
| `Vectors.PackUndoesSplit` | src/dual_flexiv_control/layout.py:168-195 | every vector of the right width is the packing of its split |
| `Deltas.StateToActionJointSlices` | src/dual_flexiv_control/layout.py:150-156 | the pairs of measured and commanded joint blocks in side order |
| `Deltas.ApplyDeltas` | deploy/openpi_dfc/dfc_policy.py:102-120 | fails exactly on narrow vectors or unpairable widths; otherwise every entry moves by its shift |
| `Deltas.DeltaRoundTrip` | deploy/openpi_dfc/dfc_policy.py:90-120 | delta then inverse delta is the identity, in either order |
| `Deltas.GrippersUntouched` | deploy/openpi_dfc/dfc_policy.py:90-120 | grippers and columns beyond the action stay absolute |
| `Deltas.JointsMoveByState` | deploy/openpi_dfc/dfc_policy.py:115-117 | every commanded joint moves by exactly its own measured joint |
| `Deltas.JointDelta` | deploy/openpi_dfc/dfc_policy.py:102-120 | entry by entry: a joint target loses, or in reverse gains, the joint of that side measured at the same place |
| `Deltas.OthersStay` | deploy/openpi_dfc/dfc_policy.py:102-120 | a target that is no joint position, or whose side has no measured joints, is not moved |
| `Deltas.UsableIff` | deploy/openpi_dfc/dfc_policy.py:102-120 | the transform applies exactly when every such side measures as many joints as it commands, or a single value |
| `Chunks.RelativeRow` | deploy/openpi_dfc/compute_norm_stats.py:60-63 | the two hard-coded slice subtractions are the forward delta of the deployed layout |
| `Chunks.BimanualPairsAre` | deploy/openpi_dfc/compute_norm_stats.py:62-63 | the deployed layout's joint pairs are those slices |
| `Chunks.RelativeActionChunks` | deploy/openpi_dfc/compute_norm_stats.py:44-65 | fails exactly on no data or a split episode; otherwise one chunk per row, by episode then position, each the forward delta of the end-clamped future |
| `Chunks.EpisodeChunks` | deploy/openpi_dfc/compute_norm_stats.py:55-64 | one episode's chunks, each row's future clamped at the episode's end |
| `Chunks.ChunkEntries` | deploy/openpi_dfc/compute_norm_stats.py:55-64 | entry by entry: row h of a chunk is the action h steps on, or the last of the episode if that comes first, less the joints measured at the start; grippers stay absolute |
| `Chunks.Bounds` | deploy/openpi_dfc/compute_norm_stats.py:52-54 | first and last row of an episode, refused exactly when its rows are not contiguous |
| `Channel.StreamedLayout` | src/dual_flexiv_control/control/channel.py:74-82 | consecutive slices in streamed order |
| `Channel.SliceUndoesPack` | src/dual_flexiv_control/control/channel.py:85-94 | the arm slices out of a setpoint what the brain packed into it |
| `Channel.SizedIsAccepted` | src/dual_flexiv_control/control/channel.py:64-71 | fields of their configured widths always make a setpoint of the ring's width |
| `Collection.Fill` | src/dual_flexiv_control/collection/loop.py:162-175 | every recorded side gets its latest real sample, or zeros before the first, and only real samples are held |
| `Collection.CommandAll` | src/dual_flexiv_control/collection/loop.py:184-192 | exactly the sampled arms are commanded, each with the joint part of its latest sample; a never-sampled side never; a field the loop cannot fill or a setpoint of another width than the arm's ring is an error |
| `Collection.JointsThenGripper` | src/dual_flexiv_control/collection/features.py:180-187 | a sample of joints followed by a gripper value gives exactly these two targets; before the first sample both are zero |
| `Collection.CommandedArms` | src/dual_flexiv_control/collection/loop.py:184-192 | an arm gets a joint setpoint exactly when it has a sample and is under joint position control, and a gripper target exactly when it has a sample |
| `Collection.JointChannelAccepts` | src/dual_flexiv_control/control/channel.py:64-71 | a ring with only q_d takes exactly targets of its width, unchanged |
| `Collection.BuiltLayoutFits` | src/dual_flexiv_control/collection/features.py:65-72 | every constructed layout meets what the loop relies on |
| `Frames.BuildFrame` | src/dual_flexiv_control/collection/features.py:191-242 | a frame exactly when every stream is there and fits, an error exactly when one has the wrong size before any is missing; the frame holds targets, state, leader samples, shaped images and the instruction |
| `Frames.RecordedIsPosted` | src/dual_flexiv_control/collection/loop.py:184-200 | on a recording tick the action block of a commanded qpos side is the q_d its setpoint carries |
| `Frames.PostedVelocityIsZero` | src/dual_flexiv_control/collection/loop.py:187-190 | the dq_d such a setpoint carries is zero on every joint |
| `Recording.CollectionLoop.constructor` | src/dual_flexiv_control/collection/loop.py:59-97 | an empty loop with at least one episode to record |
| `Recording.CollectionLoop.Tick` | src/dual_flexiv_control/collection/loop.py:159-200 | setpoints, gripper targets and frame of a tick are exactly those of the latest samples; recorded exactly when complete |
| `Recording.CollectionLoop.Save` | src/dual_flexiv_control/collection/loop.py:202-218 | saves the open episode unless empty |
| `Recording.CollectionLoop.Discard` | src/dual_flexiv_control/collection/loop.py:137-141 | closes the open episode as discarded |
| `Recording.CollectionLoop.Poll` | src/dual_flexiv_control/collection/loop.py:134-144 | an open episode is saved, exactly its frames, if and only if an END comes before every DISCARD; a DISCARD before every END drops it; without either nothing changes; stops exactly on a STOP |
| `Episodes.ClosedSavesOnce` | src/dual_flexiv_control/collection/loop.py:134-144 | however many END events one poll brings, at most one saves |
| `Episodes.PollSavesIff` | src/dual_flexiv_control/collection/loop.py:134-144 | a poll raises the number of saves by one if and only if frames were open and an END comes before every DISCARD; END or DISCARD leaves nothing open |
| `Episodes.PollDecides` | src/dual_flexiv_control/collection/loop.py:134-144 | what becomes of the open frames: exactly they are saved, or exactly they are dropped, by the first of END and DISCARD |
| `Episodes.ReplaySaves` | src/dual_flexiv_control/collection/loop.py:114-144 | over every operator-paced run the saved episodes are, in order, exactly the takes of the saving turns: the frames since the last closing turn, where the tick succeeded and an END comes first |
| `Episodes.FinishedSaves` | src/dual_flexiv_control/collection/loop.py:114-157 | a finished run: with an operator as many episodes as saving turns and the open frames dropped, without one everything recorded as one episode or none |
| `Episodes.HeardIsLatest` | src/dual_flexiv_control/collection/loop.py:162-175 | the sample a turn uses for a side is that of the last turn that had one |
| `Recording.CollectionLoop.Run` | src/dual_flexiv_control/collection/loop.py:99-157 | for every sequence of turns: each turn's setpoints and frame come from the latest samples heard by then; the saved episodes are exactly the takes of the turns in which END comes first, or one episode of everything without an operator; each frame is in exactly one save or discard, nothing is left open, no empty save; episodes_done counts the saving turns and never exceeds the target; the loop ends exactly on the target, a STOP or an error |
| `Adapter.Indices` | src/dual_flexiv_control/policy/adapter.py:58-70 | accepts exactly distinct in-range integers |
| `Adapter.ApplyPiece` | src/dual_flexiv_control/policy/adapter.py:72-87 | an item is refused only if no exact cover exists; otherwise it claims its targets and writes every row |
| `Adapter.Project` | src/dual_flexiv_control/policy/adapter.py:197-224 | a result exactly when every target is claimed exactly once by well-formed items; every claim is then honoured |
| `Adapter.ClaimantIsUnique` | src/dual_flexiv_control/policy/adapter.py:82-87 | in an exact cover a target has one claimant only |
| `Adapter.ProjectionIsDetermined` | src/dual_flexiv_control/policy/adapter.py:197-224 | the result is the pointwise map of each index's claimant |
| `Adapter.OrderIsIrrelevant` | src/dual_flexiv_control/policy/adapter.py:197-224 | permuting the items changes neither success nor result |
| `Adapter.OpenPIEndpointAdapter.EncodeRequest` | src/dual_flexiv_control/policy/adapter.py:112-179 | success exactly on an exact cover with the rest encodable; the state is remembered exactly then |
| `Adapter.OpenPIEndpointAdapter.DecodeActions` | src/dual_flexiv_control/policy/adapter.py:181-224 | success exactly on a well-shaped response and an exact cover, with a remembered state if holds are configured |
| `Adapter.RequestCarries` | src/dual_flexiv_control/policy/adapter.py:130-160 | each copied entry of a request is the measured value, each constant entry its configured number |
| `Adapter.ActionCarries` | src/dual_flexiv_control/policy/adapter.py:197-224 | each copied entry of an action is the policy's value, each held entry the measured one, each constant entry its configured number |
| `Adapter.CopiesUndo` | src/dual_flexiv_control/policy/adapter.py:130-224 | a response copy that undoes a request copy returns the measured value |
| `Adapter.SwappedConfigIsInverse` | src/dual_flexiv_control/policy/adapter.py:130-224 | swapping the request's copies gives the identity on the whole state |
| `Plots.PlotStore.Append` | src/dual_flexiv_control/plotly_dash/view.py:204-214 | accepts exactly finite vectors of the right width; the epoch's log grows by that point, timed from the first |
| `Plots.PlotStore.Attach` | src/dual_flexiv_control/plotly_dash/view.py:187-202 | a new run id starts an empty epoch; the same one changes nothing |
| `Plots.PlotStore.Detach` | src/dual_flexiv_control/plotly_dash/view.py:193-202 | starts an empty epoch unless already detached |
| `Plots.BoundedAnswersLikeLog` | src/dual_flexiv_control/plotly_dash/view.py:165-174 | for every cursor the 1024-deep deque answers as the unbounded log |
| `Plots.CatchupLosesOnlyExcess` | src/dual_flexiv_control/plotly_dash/view.py:221-225 | up to three new points are all delivered; of more, exactly the newest three |
| `Plots.PlotStore.TakeSnapshot` | src/dual_flexiv_control/plotly_dash/view.py:216-238 | for every cursor map the answer is that of the whole append log |
| `Plots.CatchupKeepsView` | src/dual_flexiv_control/plotly_dash/view.py:392-409 | what a page shows stays a strictly increasing subsequence of the log |
| `Plots.Page.UpdatePlots` | src/dual_flexiv_control/plotly_dash/view.py:360-416 | a new epoch empties the figures and starts its cursors at zero; otherwise every figure is extended and all cursors reach the newest point |
| `Plots.Serve` | src/dual_flexiv_control/plotly_dash/view.py:165-416 | over every run a page shows an increasing duplicate-free subsequence of one epoch; from a caught-up page, with at most three points per series between callbacks, it shows every one in order |

## Left out

- Weak memory ordering of the ring: steps are sequentially consistent.
- Rounding: float32 casts, radian conversion, and out-of-range arguments of `llround`.
- Convergence of the trajectory law to a constant target: near the target the discrete law can oscillate, so the envelope and the limits are stated instead.
- Robot SDK, shared-memory mapping, sockets, HTTP, multiprocessing and config composition: inputs of the model.
- Session queues are atomic sequences; a message put is visible at once.
- Session teardown, outcome classification, message texts, FACTR server supervision and orphan reaping.
- Calibration: persistence, gripper normalisation and live capture.
- Layout: the component name lists are not modelled; dictionaries keyed by side are kept in side order.
- Layout arm maps: stream and command widths are natural numbers.
- Chunks: loading the dataset and the statistics over the chunks; `OpenPIInputs` and the crop in `OpenPIOutputs`.
- Recording.CollectionLoop.Run: the recorder's own calls and the operator poll do not raise; rate limiting and log lines are left out.
- Adapter.OpenPIEndpointAdapter.EncodeRequest: images and prompt enter as one flag that says whether they could be encoded, because their mapping is a renaming of keys; the ACME adapter is left out.
- Plots: callbacks of one page do not overlap, series are named by position, and the figure's own trimming to 1024 points is not modelled.
- Policy loop, storage, dashboards, rendering and transports: thin wrappers or user interface.
