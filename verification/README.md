# kori: the write path of the daemon

A Dafny model of the daemon that owns a cooler's pump and fan, its panel and a lighting controller.
Three executors are the sole writers of three devices that can hardly be read back. Each keeps a record
of what it last put on its device, answers repeats from that record, spaces its writes and has to survive
writes that fail and may have landed all the same. Around them stand the gates of the daemon, the
configuration file, the locks between processes, the clock of the display thread, and the log with its
redacted export.

`dafny verify dfyconfig.toml` checks the whole project.

## How the model is laid out

Each component comes as a specification on values, with the properties proved of it, and as classes with
mutable fields whose methods are tied to that specification. An `Apply` on the object is the `Apply` the
lemmas speak of.

| files | component |
|---|---|
| `Profiles.dfy` | duties, curves, programs and their validation |
| `Control.dfy`, `Cooling.dfy`, `CoolingRuns.dfy` | attribute writes, the cooling transaction, runs of it |
| `Rollback.dfy` | what a rollback leaves on record |
| `Tearing.dfy` | when a curve is torn, exactly, and what may run in the worst case |
| `CoolingWriter.dfy` | the hwmon directory, the writer over it and the executor as objects |
| `Display.dfy`, `DisplayWriter.dfy` | the panel executor and its animation clock |
| `Lighting.dfy`, `LightingWriter.dfy` | the lighting executor |
| `Config.dfy`, `ConfigStore.dfy` | the document, its file, and what a start replays |
| `Daemon.dfy`, `DaemonObject.dfy` | the gates, what is remembered, requests, ticks, restarts |
| `Starting.dfy`, `Handling.dfy` | what a start, an activation, a request and a tick do to each device |
| `DaemonRecords.dfy`, `Restoring.dfy` | the lighting and panel records under the daemon, what a start leaves lit |
| `Ownership.dfy`, `DeviceLocks.dfy` | several processes, the instance lock, the socket, the device locks |
| `Ticker.dfy` | the display thread's deadline loop and its sleep |
| `Health.dfy` | the collector-health difference |
| `Redaction.dfy`, `Redactor.dfy`, `EventLog.dfy` | replacement of secrets, the bounded log, the export |

The device of a cooling channel has a mode, a stored duty, the driver's forty-point array, the curve it is
running and a count of transfers. A point written in curve mode sends the whole array; below it the array
only fills; entering curve mode sends it once. Every attribute write ends in one of three ways: it lands,
it fails and has landed, or it fails and is lost. All cooling theorems hold for every such pattern.

The environment enters as parameters: clock readings, the driver's rounding of duties, whether a mode or a
duty can be read, how each transfer ends, whether the disk takes a write, what the renderer draws.

## Where the code and its comments disagree

The model follows the code.

- `crates/daemon/src/cooling.rs:12-15` says an uncertain state stops further writes until a readback
  succeeds. `apply` does not look at the last outcome: `Cooling.AnUncertainStateDoesNotStopTheNextWrite`
  shows the next write and `Cooling.WritesExactlyWhen` says when a call writes.
- `crates/hardware-linux/src/control.rs:170-174` says a device never runs a half-updated curve. That fails
  for a channel in curve mode whose mode cannot be read: `Tearing.AHalfUpdatedCurveIsRun` is a concrete
  tear and `Tearing.CurveIsNeverTornExactlyWhen` the exact condition.
- `crates/daemon/src/display.rs:362-368` keeps the recorded brightness when a new report is refused. If the
  refused report landed, the panel and the record part: `Display.ALandedRefusalIsDeduplicatedAgainst` is the
  concrete case and `Display.SendingKeepsRecordExactlyWhen` the exact condition.
- `crates/daemon/src/display.rs:64-69` says a stream stops once a transfer failed. `apply` clears the fault and
  sets none when its own transfer fails: `Display.AFailedTransferStopsTheStreamExactlyWhen` gives the condition
  and `Display.ARefusedApplyIsRetriedByTheNextRedraw` the concrete case.
- `crates/daemon/src/state.rs:166-177` says a start puts back what the profile holds where the session has
  nothing. A profile may name a channel twice, and the cadence refuses the second command:
  `Restoring.ATwiceNamedChannelKeepsItsFirstProgram` is such a profile,
  `Restoring.StartShowsTheOverrideExactlyWhen` the exact condition for any clock readings and
  `Restoring.BurstStartShowsTheOverrideExactlyWhen` the one for a restore sent back to back.
- `crates/core/src/diagnostics.rs:391-401` says nothing that could not be swept leaves. The frame of a refused
  export, with the daemon's version, leaves unswept. That happens exactly when a secret occurs in the name of
  a variant: `EventLog.SweepRebuildsExactlyWhen`, `EventLog.ExportIsCleanExactlyWhen`.
- The pump floor has one exemption, a rollback to a duty the device reported.
  `CoolingRuns.ARollbackMayGoBelowTheFloor` shows that it is used.
- `crates/daemon/src/config/document.rs:153-169` checks profile names at load and not the channels of the
  session, so distinct session channels are kept from a file that has them, not established:
  `Config.ALoadMayRepeatAChannel`, and the last clause of `Config.ConfigurationStaysValid` both ways.
- `crates/hardware-linux/src/control.rs:61-64` says the count an operator is told has to be the number written.
  An aborted call counts the channels that had completed and nothing else:
  `CoolingRuns.TheCountIsExactExactlyWhen`, with `CoolingRuns.AnAbortedCallReportsNoWrite` as the concrete call.

## Model

| member | source | states |
|---|---|---|
| `Profiles.PercentagesRoundTrip` | crates/core/src/profile.rs:55-65 | A percentage survives the trip through a duty and back, and the conversion is strictly increasing, so no two percentages share a duty |
| `Profiles.RoundingIsClose` | crates/daemon/src/cooling.rs:46-54 | The two roundings of the driver move a duty by at most one step, leave a rounded duty as it is and keep the order of duties |
| `Profiles.TheScalesMeet` | crates/core/src/profile.rs:34-65 | The ends of the two scales meet, a percentage above the top counts as it, and the pump floor is a whole percentage |
| `Profiles.NoPointIsNearer` | crates/core/src/profile/curve.rs:144-150 | No point of a curve is nearer to a temperature than the one it names |
| `Profiles.HighestIsHighest` | crates/core/src/profile/curve.rs:160-167 | The fallback duty of a curve that never decreases is its highest |
| `Profiles.TheFirstOffenceIsNamed` | crates/core/src/profile.rs:318-346 | A refused curve is refused for its first point below the floor or below the point before it, floor first, with its own values |
| `Profiles.ValidationIsExact` | crates/core/src/profile.rs:318-346 | A curve is accepted exactly when it never decreases and no point is below the channel's floor |
| `Profiles.ValidateCurve` | crates/core/src/profile.rs:318-346 | The loop over the forty points returns the verdict of the first offending point, floor before order |
| `Profiles.ProgramValidationIsExact` | crates/core/src/profile.rs:367-379 | A program is accepted exactly when every value it carries is safe for its channel |
| `Profiles.TheRefusalIsThePumpsFirst` | crates/core/src/profile.rs:367-379 | A program is refused for its pump where that is at fault and for its fan only where it is not |
| `Control.StagePointsQuiet` | crates/hardware-linux/src/control.rs:318-321 | Below curve mode the forty point writes leave mode, duty, running curve and transfer count alone wherever they stop, and leave exactly the new points when they do not |
| `Control.StagePointsBurst` | crates/hardware-linux/src/control.rs:18-27 | Points written in curve mode: the channel stays in it, the first entry is a point written there, and a completed loop is one transfer a point, forty in all |
| `Control.StageCurveQuiet` | crates/hardware-linux/src/control.rs:310-322 | Staging never changes what the device runs and makes no transfer; completed, it is out of curve mode with the new array, and its count is what it wrote |
| `Control.CurveWriteIsAtomic` | crates/hardware-linux/src/control.rs:175-214 | At every write of a curve, wherever it fails and whatever the starting mode, the device runs the whole old or the whole new curve and no point is written in curve mode; completed, exactly one transfer and a count of 41 or 43 |
| `Control.CurveWriteIsQuietExactlyWhenModeIsSeen` | crates/hardware-linux/src/control.rs:18-27 | A curve write writes no point into curve mode if and only if the mode is readable or the channel is not in it; completed, it costs one transfer then and 41 otherwise |
| `Tearing.CurveIsNeverTornExactlyWhen` | crates/hardware-linux/src/control.rs:170-214 | The promise that the device never runs a half-updated curve holds for every pattern of failing writes if and only if the mode is seen or no array on the way differs from both curves; the run in which nothing fails already decides it |
| `Tearing.PointsRunBlends` | crates/hardware-linux/src/control.rs:310-322 | Points written unseen into curve mode, wherever they stop: the device runs its old curve or the new one up to some point and the old array from there |
| `Tearing.EveryBlendIsRun` | crates/hardware-linux/src/control.rs:310-322 | With nothing failing, the k-th of those writes leaves the device running the array torn at k |
| `Tearing.AHalfUpdatedCurveIsRun` | crates/hardware-linux/src/control.rs:170-214 | The concrete tear: sixty everywhere rewritten to a hundred everywhere runs a hundred at the first point and sixty above |
| `Tearing.ApplyRunsOnlyBlends` | crates/daemon/src/cooling.rs:195-273 | With nothing assumed readable or recorded: at every write of a call and its rollback each channel runs the curve it ran before or its array rewritten up to some point |
| `Tearing.AnUnrecordedCurveComesBackTorn` | crates/hardware-linux/src/control.rs:243-286 | The concrete case behind the record: a pump found in curve mode and never set by this process is left by a rollback on a half-written array, and the answer is Uncertain |
| `Control.CleanReadbackMeansOnTarget` | crates/hardware-linux/src/control.rs:147-214 | A write that completed with no mismatch left the channel on its target, and counted its writes |
| `Control.TargetIsAtomic` | crates/hardware-linux/src/control.rs:147-214 | Writing any target keeps the running curve one of the two known ones at every entry of the write log |
| `Control.NothingFailsTarget` | crates/hardware-linux/src/control.rs:147-214 | With nothing failing a write completes, and reads back clean exactly when the machine can show the target |
| `Control.RestoreIsSound` | crates/hardware-linux/src/control.rs:243-286 | A restore that answers yes put mode, fixed duty and running curve back, whatever failed on the way |
| `Control.RestoreIsAtomic` | crates/hardware-linux/src/control.rs:243-286 | A rollback never tears a curve either, at any of its writes |
| `Control.RestoreIsComplete` | crates/hardware-linux/src/control.rs:243-286 | With no failing write, exactly when a restore is proven |
| `Control.StagingIsFloored` | crates/hardware-linux/src/control.rs:332-342 | Every point and the duty held across a rewrite respect the channel's floor, whatever the device reports |
| `Control.RestoreIsFloored` | crates/hardware-linux/src/control.rs:243-286 | A rollback writes nothing below the floor except the snapshot's own duty |
| `Control.NeverDirectOnAnotherDuty` | crates/hardware-linux/src/control.rs:12-16 | At every write of a fixed target, a channel entering direct mode is on the duty asked for |
| `Control.TheHeldDutyIsTheRunningOne` | crates/hardware-linux/src/control.rs:324-342 | A rewrite first holds what the device reports, or what the curve commands at the reported temperature, or no less than it ever commands; never less than the floor |
| `Control.RestoreWritesOnlyWhatDiffers` | crates/hardware-linux/src/control.rs:230-286 | A restore with no curve to rewrite writes exactly the attributes that read differently, the duty before the mode |
| `Control.TheRecordOnlyFillsIn` | crates/hardware-linux/src/control.rs:92-97 | The record fills in a curve the device could not hand back and never overrides one it did |
| `Cooling.ApplyIsAllOrNothing` | crates/daemon/src/cooling.rs:195-273 | Under any failing writes, landed or not: Confirmed only with both channels on target and the count exact, NotApplied only with both behaving exactly as before, anything else Uncertain with no program on record; the record stays true of the device in every case |
| `Cooling.AConfirmedProgramIsRunning` | crates/daemon/src/cooling.rs:195-273 | Confirmed means each channel runs its own part of the program: the pump its duty or curve and the fan its own |
| `Rollback.NotAppliedKeepsTheRecord` | crates/daemon/src/cooling.rs:453-468 | A call that answers NotApplied loses nothing from the record: every target on it before is on it after |
| `Rollback.NotAppliedRecordsWhatWasFound` | crates/daemon/src/cooling.rs:453-468 | A call that wrote and answers NotApplied leaves each channel on record as it was found, dated by the call, whether or not this process had put it there |
| `Rollback.AbortRecordsWhatItProved` | crates/daemon/src/cooling.rs:442-506 | Channel by channel, an aborted call leaves on record as found exactly what its restore proved |
| `Rollback.AbortIsNotAppliedExactlyWhen` | crates/daemon/src/cooling.rs:453-497 | With nothing failing after the write that broke it, an aborted call is NotApplied exactly when each channel can be shown to be back |
| `Rollback.TheOldProgramIsStillFree` | crates/daemon/src/cooling.rs:275-301 | After a call that was not applied, the program that was running is answered with no write at any moment, even inside the floor the failed call started |
| `Rollback.ARefusedModeIsRolledBack` | crates/daemon/src/cooling.rs:442-506 | The concrete one: both channels at 128, a call for 200 whose mode write is refused, and 128 still on record |
| `Cooling.WritingIsHonest` | crates/daemon/src/cooling.rs:246-270 | The writing loop keeps the record true of every channel it finished and counts exactly what reached the device |
| `Cooling.RollbackIsHonest` | crates/daemon/src/cooling.rs:453-481 | The rollback loop leaves each channel recorded as it is running or not recorded, and is proven only if every channel behaves as its snapshot |
| `Cooling.SettlingIsHonest` | crates/daemon/src/cooling.rs:308-344 | A completed transaction is Confirmed exactly when no readback mismatched, and then both channels are on target; otherwise both leave the record |
| `Cooling.TransactIsComplete` | crates/daemon/src/cooling.rs:195-273 | With no failing write a transaction is Confirmed if and only if every channel already held its target or sits on a machine able to show it, and Uncertain otherwise |
| `Cooling.TouchingIsSpaced` | crates/daemon/src/cooling.rs:281-301 | A call reaches the device, stamps the clock and came no sooner than the floor, or leaves board and stamp exactly as they were |
| `Cooling.WritesExactlyWhen` | crates/daemon/src/cooling.rs:195-301 | A call writes if and only if it names a program, finds a device, a channel is not in place by record or device, and the last write is at least the floor ago; it is deduplicated exactly when both are in place |
| `Cooling.AnUncertainStateDoesNotStopTheNextWrite` | crates/daemon/src/cooling.rs:12-15 | After an uncertain answer the next program is written as soon as the cadence allows, whether or not anything was read back |
| `Cooling.RepeatIsFree` | crates/daemon/src/cooling.rs:414-439 | The committed program, asked for again at any moment, is Confirmed with no write and no change of stamp |
| `Cooling.AConfirmedCallAnswersTruly` | crates/daemon/src/cooling.rs:308-344 | A completed call answers with how each channel reads, pump first; a confirmed one dates what it wrote by this call and keeps the date of what was in place |
| `Cooling.AnAbortedCallAnswersForThePump` | crates/daemon/src/cooling.rs:442-506 | An aborted call answers for the channel it had completed, with the attributes that cost, and for nothing else |
| `CoolingRuns.TheCountIsExactExactlyWhen` | crates/hardware-linux/src/control.rs:58-69 | The count an operator is told is what was written if and only if no forward write failed; it is never more |
| `CoolingRuns.AnAbortedCallReportsNoWrite` | crates/daemon/src/cooling.rs:442-506 | The concrete aborted call: a duty written, the mode after it refused, and a count of nothing |
| `CoolingRuns.ApplyNeverTearsACurve` | crates/daemon/src/cooling.rs:195-273 | Through a transaction and its rollback, at every write, each channel runs its old curve or the one sent, given readable modes and a recorded curve for each channel already in curve mode; `Tearing.ApplyRunsOnlyBlends` covers the rest |
| `CoolingRuns.PumpFloorHolds` | crates/daemon/src/cooling.rs:227-273 | No value below the pump floor in a validated program's call, except a rollback to the duty reported when the call began; none at all if it is Confirmed |
| `CoolingRuns.ARollbackMayGoBelowTheFloor` | crates/hardware-linux/src/control.rs:266-270 | The exemption is real: a pump found holding less than its floor is written exactly that again by the rollback |
| `CoolingRuns.RunningTheCurveIsNeverFlagged` | crates/daemon/src/cooling.rs:529-546 | A device running the committed curve between the two neighbouring points and reporting it through percent rounding is never flagged |
| `CoolingRuns.FlaggingIsExact` | crates/daemon/src/cooling.rs:363-405 | A settled readable channel is flagged if and only if it reports more than the tolerance outside the two neighbouring points |
| `CoolingRuns.FlaggedExactlyWhen` | crates/daemon/src/cooling.rs:363-397 | For any curve: a channel is flagged if and only if it is committed to one that has settled, reads as in curve mode, and reports a duty out of reach of every near point; the flag carries channel, temperature, expected and reported |
| `CoolingRuns.EveryFlagIsReported` | crates/daemon/src/cooling.rs:372-404 | A check reports one divergence for each flagged channel and no other, pump first |
| `CoolingRuns.AReconnectionIsNeverDeduplicatedAgainst` | crates/daemon/src/cooling.rs:125-139 | After a reconnection the next program is written as the cadence allows, or there is no device to write it to; it is never deduplicated |
| `CoolingRuns.FlaggedIsWrittenAgain` | crates/daemon/src/cooling.rs:399-404 | A flagged channel, and no other, leaves the record, and the next call for that program writes unless the cadence refuses it: it is never deduplicated |
| `CoolingRuns.RecordIsAlwaysTrue` | crates/daemon/src/cooling.rs:4-10 | In every state reachable by requests, faults, disconnections and checks, a committed Fixed duty is in force and a committed Curve is exactly the one running |
| `CoolingRuns.EveryRequestIsAllOrNothing` | crates/daemon/src/cooling.rs:12-15 | The transaction contract holds for the next request of every run |
| `CoolingRuns.StampIsLastTouch` | crates/daemon/src/cooling.rs:253-255 | The stamp survives forgetting and aborts: it is the last moment the device was reached |
| `CoolingRuns.TouchesAreSpaced` | crates/daemon/src/cooling.rs:17-23 | Any two calls of any run that reach the device are at least the floor apart |
| `CoolingRuns.PumpFloorHoldsInEveryRun` | crates/core/src/profile.rs:34-40 | The floor over any run of validated requests, faults, reconnections and checks |
| `CoolingWriter.KrakenHwmon.Write` | crates/hardware-linux/src/control.rs:345-349 | One attribute write: landed, failed and landed, or failed and lost; the other channel untouched, the attempt logged |
| `CoolingWriter.CoolingControl.ApplyFixed` | crates/hardware-linux/src/control.rs:147-168 | Duty before mode, then both read back and compared |
| `CoolingWriter.CoolingControl.StagePoints` | crates/hardware-linux/src/control.rs:318-320 | The loop stops at the first refused point with everything before it written |
| `CoolingWriter.CoolingControl.LeaveCurveMode` | crates/hardware-linux/src/control.rs:312-317 | The duty to hold, then direct mode, stopping at the first refused write |
| `CoolingWriter.CoolingControl.StageCurve` | crates/hardware-linux/src/control.rs:310-322 | Leaves curve mode first when it reads, holding the transition duty |
| `CoolingWriter.CoolingControl.ApplyCurve` | crates/hardware-linux/src/control.rs:175-214 | Stages, switches, reads back; ends as the specification whose atomicity is proved |
| `CoolingWriter.CoolingControl.Restore` | crates/hardware-linux/src/control.rs:243-286 | Writes only what differs; an answer of yes means the channel behaves as the snapshot |
| `CoolingWriter.CoolingExecutor.Open` | crates/daemon/src/cooling.rs:116-123 | Starts with nothing on record |
| `CoolingWriter.CoolingExecutor.Forget` | crates/daemon/src/cooling.rs:129-132 | Drops the record and the control and keeps the stamp |
| `CoolingWriter.CoolingExecutor.Apply` | crates/daemon/src/cooling.rs:195-273 | The whole call on mutable objects; a true record stays true and the outcome is honest about the device |
| `CoolingWriter.CoolingExecutor.WriteOne` | crates/daemon/src/cooling.rs:247-269 | Takes the settled readback, or stamps, writes and commits |
| `CoolingWriter.CoolingExecutor.Transact` | crates/daemon/src/cooling.rs:243-273 | The loop over both channels with its early abort |
| `CoolingWriter.CoolingExecutor.Abort` | crates/daemon/src/cooling.rs:442-506 | The rollback loop, re-recording what each channel runs now |
| `CoolingWriter.CoolingExecutor.Settle` | crates/daemon/src/cooling.rs:308-344 | One mismatch uncommits both channels |
| `CoolingWriter.CoolingExecutor.VerifyCurves` | crates/daemon/src/cooling.rs:363-405 | Collects the divergences in channel order, then uncommits exactly those channels |
| `Display.SendingIsTransparent` | crates/daemon/src/display.rs:350-402 | One picture: the panel ends as if always sent everything, a confirmed answer means it shows this picture at this brightness, an uncertain one leaves no picture on record |
| `Display.SendingKeepsRecordExactlyWhen` | crates/daemon/src/display.rs:350-402 | The record stays true if and only if a refused brightness report over a known brightness did not land |
| `Display.ALandedRefusalIsDeduplicatedAgainst` | crates/daemon/src/display.rs:362-375 | The concrete failure: a report that landed and was called refused leaves the panel dim while a later request for bright is answered without a report |
| `Display.WalkBrackets` | crates/daemon/src/display.rs:276-285 | The walk terminates with due minus the current delay at or before now and now before due |
| `Display.WalkTurnsTheCursor` | crates/daemon/src/display.rs:276-285 | The cursor moves by the number of frames that came due, modulo the length |
| `Display.ScheduleIndependence` | crates/daemon/src/display.rs:270-285 | Advancing to t1 and then t2 leaves the cursor, the due time and the count of advancing straight to t2 |
| `Display.FramesAreConserved` | crates/daemon/src/display.rs:260-298 | Over any wake-ups and transfers, frames come due = pictures offered + frames dropped, with a counter that stops exactly at its width |
| `Display.TheFirstChangeComesExactlyWhen` | crates/daemon/src/display.rs:245-298 | After an image is applied, the first change is offered exactly once its first picture's delay is over; before that the answer is that moment, and in the second picture's time that picture is offered |
| `Display.APictureKeepsItsTime` | crates/daemon/src/display.rs:264-269 | Looked at before the next picture is due, an animation offers nothing, changes nothing and answers when it will be |
| `Display.APictureComesAtItsTime` | crates/daemon/src/display.rs:270-298 | Looked at in the k-th picture's time, however late, an animation offers that picture and answers when the next is due |
| `Display.AnAppliedImagePlaysFromItsFirstPicture` | crates/daemon/src/display.rs:225-252 | An applied image offers its first picture at once and installs a clock with the second due after its delay |
| `Display.DeduplicationIsInvisible` | crates/daemon/src/display.rs:197-402 | Over any run of applies, redraws, animation ticks and reconnections the panel shows what an always-send executor leaves, under the brightness hypothesis |
| `Display.RecordIsTrueThroughExactlyWhen` | crates/daemon/src/display.rs:197-402 | Over any run the record is true after every event if and only if no refused brightness report landed over a brightness on record |
| `Display.StepKeepsRecordExactlyWhen` | crates/daemon/src/display.rs:350-402 | The same of one event |
| `Display.AFailedTransferStopsTheStreamExactlyWhen` | crates/daemon/src/display.rs:64-69 | An event whose transfer fails leaves the stream stopped if and only if it was not an Apply |
| `Display.AFailedApplyStreamsExactlyWhen` | crates/daemon/src/display.rs:149-163 | After an Apply whose transfer failed the stream goes on exactly when the preset reads telemetry or an animation was installed |
| `Display.ARefusedApplyIsRetriedByTheNextRedraw` | crates/daemon/src/display.rs:197-217 | The concrete case: a readings preset applied over a broken link is offered again by the next redraw |
| `Display.AFaultStopsTheStream` | crates/daemon/src/display.rs:149-163 | A faulted stream offers and changes nothing until an Apply or a reconnection |
| `Display.ARepeatSendsNothing` | crates/daemon/src/display.rs:350-387 | A picture that is up at its brightness costs nothing, whatever the link would do |
| `Display.TheAnswerCountsWhatWasSent` | crates/daemon/src/display.rs:350-402 | The answer counts a brightness report and a frame exactly where one was needed and went through |
| `Display.AnApplyTakesOver` | crates/daemon/src/display.rs:197-217 | An Apply that can be drawn becomes what the panel is for, with its own animation or none and no fault; one that cannot changes nothing else |
| `Display.ARefusingRendererStopsTheStream` | crates/daemon/src/display.rs:320-326 | A preset that stopped rendering stops the stream and sends nothing |
| `Display.RedrawnExactlyWhen` | crates/daemon/src/display.rs:305-313 | A redraw happens exactly for a connected, unfaulted preset that reads telemetry and has no animation |
| `Display.AReconnectionRearms` | crates/daemon/src/display.rs:181-190 | A reconnection clears the fault and makes the next picture go out with its brightness |
| `DisplayWriter.LcdLink.SetDisplay` | crates/daemon/src/display.rs:362-375 | A brightness report, whose refusal may have landed |
| `DisplayWriter.DisplayExecutor.SendBytes` | crates/daemon/src/display.rs:350-402 | Brightness, then comparison, then transfer, on the object |
| `DisplayWriter.DisplayExecutor.StartImage` | crates/daemon/src/display.rs:225-252 | First picture on the glass; a clock only when there is more than one, whatever the transfer did |
| `DisplayWriter.DisplayExecutor.Apply` | crates/daemon/src/display.rs:197-217 | Clears fault and animation, renders, sends; a refusal of the renderer changes nothing else |
| `DisplayWriter.DisplayExecutor.WalkClock` | crates/daemon/src/display.rs:276-285 | The cursor loop in place ends where the specification walk does |
| `DisplayWriter.DisplayExecutor.AdvanceAnimation` | crates/daemon/src/display.rs:260-298 | Sends the due frame, counts the skipped ones, answers the next due time |
| `DisplayWriter.DisplayExecutor.Refresh` | crates/daemon/src/display.rs:305-327 | Redraws only a streaming preset with no animation; a failure stops the stream |
| `DisplayWriter.DisplayExecutor.Forget` | crates/daemon/src/display.rs:186-190 | Drops picture, brightness and fault, keeps the preset and the animation |
| `Lighting.DeduplicationIsInvisible` | crates/daemon/src/lighting.rs:113-170 | After any run the record is true of the controller, which shows what an always-send executor leaves |
| `Lighting.AnswersAreTrue` | crates/daemon/src/lighting.rs:113-216 | Confirmed means the channel shows the program, NotApplied that nothing moved, Uncertain that no channel is on record, deduplicated exactly that the record held it |
| `Lighting.ReportsAreSpaced` | crates/daemon/src/lighting.rs:178-199 | Any two send attempts on one channel of a run are at least the floor apart, even across failures that clear the record |
| `Lighting.SentExactlyWhen` | crates/daemon/src/lighting.rs:113-199 | By record and clock alone: answered from the record, refused inside the floor or without a controller, or sent, with the record and stamp that follow |
| `LightingWriter.LightingExecutor.Apply` | crates/daemon/src/lighting.rs:113-170 | Record, cadence, transport, in that order; a failure stamps the channel and clears every record |
| `Daemon.AReadOnlyDaemonIsSilent` | crates/daemon/src/state.rs:297-321 | Through start, requests, restores and ticks, a read-only daemon leaves every attribute and light untouched and never holds anything a tick could send |
| `Daemon.AConflictSilencesTheDaemon` | crates/daemon/src/state.rs:297-321 | While anybody else holds a device: no attribute, no report, no picture, on a start, a request or a tick |
| `Daemon.NothingWritableSilencesTheDaemon` | crates/daemon/src/state.rs:297-327 | The same where no record carries anything as writable |
| `Daemon.ProgramPassesExactlyWhen` | crates/daemon/src/state.rs:536-549 | A program passes if and only if its values are safe and it is Onboard, or the cooler is there and takes it and nobody else holds a device; each refusal names the first thing in its way |
| `Daemon.LightPassesExactlyWhen` | crates/daemon/src/state.rs:575-583 | A lighting command passes if and only if its channel answered, its values are in order, the capability is writable and nobody else holds a device |
| `Daemon.PicturePassesExactlyWhen` | crates/daemon/src/state.rs:610-620 | A preset passes if and only if it is well formed, both panel capabilities are writable and nobody else holds a device |
| `Daemon.ProfilePassesExactlyWhen` | crates/daemon/src/state.rs:738-779 | A profile may become active if and only if it is Onboard, or some device is meant, each one meant takes its program and nobody else holds a device |
| `Daemon.CoolingHoldsUnderTheDaemon` | crates/daemon/src/state.rs:536-564 | Under any requests, activations and ticks the cooling record is true, floored and its touches spaced |
| `Daemon.PumpFloorHoldsUnderTheDaemon` | crates/daemon/src/state.rs:536-564 | Every call the cooling executor ever got, from a request, an activation or a start, writes the pump nothing below its floor save that one exemption, and those calls are all it went through |
| `Daemon.OnlyConfirmedIsRemembered` | crates/daemon/src/state.rs:553-563 | A program enters the session exactly when it was Confirmed, is not Onboard and the disk took it or already held it |
| `Daemon.OnlyConfirmedLightIsRemembered` | crates/daemon/src/state.rs:590-597 | The same of a lighting command |
| `Daemon.OnlyConfirmedPictureIsRemembered` | crates/daemon/src/state.rs:625-635 | The same of a picture |
| `DaemonRecords.RecordsHoldUnderTheDaemon` | crates/daemon/src/state.rs:392-447 | Through a start and any requests the lighting and panel records stay true of their devices, as long as no refused brightness report lands |
| `Daemon.RestartReplaysTheSession` | crates/daemon/src/state.rs:178-184 | After any run and failing disk writes, a restart asks for the last confirmed and recorded program, picture and command of each channel, the profile supplying only the rest |
| `Restoring.AskedIsShownExactlyWhen` | crates/daemon/src/lighting.rs:113-199 | From nothing on record and with nothing failing, the controller shows the last program asked of each channel if and only if no last command was refused for coming too soon |
| `Restoring.BurstShowsTheFirst` | crates/daemon/src/lighting.rs:178-199 | Back to back, the first program of each channel wins |
| `Restoring.StartShowsTheOverrideExactlyWhen` | crates/daemon/src/state.rs:178-184 | A start leaves the profile under the session on the controller if and only if the cadence refused no channel its last command |
| `Restoring.SpacedStartShowsTheOverride` | crates/daemon/src/state.rs:259-275 | It does whenever the commands on one channel come at least the floor apart |
| `Restoring.BurstStartShowsTheOverrideExactlyWhen` | crates/daemon/src/state.rs:259-275 | Restored back to back, the controller shows the first program of each profile channel under the session, which is what was asked for if and only if no channel outside the session is named with two different ends |
| `Restoring.ATwiceNamedChannelKeepsItsFirstProgram` | crates/core/src/profile.rs:391-408 | The failing profile: valid, one channel named twice, left on the first program while the last is asked for |
| `Starting.AStartAsksForTheSession` | crates/daemon/src/state.rs:178-184 | A start calls the cooling executor exactly once for the session's program or else the profile's, if that writes anything and may run, offers the panel the session's picture or else the profile's, if it may be shown, and nothing else |
| `Starting.AStartPutsTheProgramBack` | crates/daemon/src/state.rs:143-146 | With a device to be found, nothing failing and both targets confirmable, a start ends with both channels on the program left running |
| `Starting.AStartShowsThePicture` | crates/daemon/src/state.rs:178-184 | With a panel, a drawing renderer and a good link, a start ends with the picture on the glass at its brightness |
| `Starting.AnActivationAsksForTheProfile` | crates/daemon/src/state.rs:751-806 | An activation that passes and reaches the disk asks each executor for the profile's own part; any other changes nothing and names the reason |
| `Starting.PuttingBackIsInOrder` | crates/daemon/src/state.rs:166-184 | What was confirmed is remembered in the order of the writes: lights, picture, program |
| `Handling.AProgramIsAskedFor` | crates/daemon/src/state.rs:429-432 | A requested program reaches the cooling executor exactly when it may run, and no other device |
| `Handling.APictureIsOffered` | crates/daemon/src/state.rs:437-440 | A requested picture reaches the panel exactly when it may be shown, and no other device |
| `Handling.APictureIsRefusedExactlyWhen` | crates/daemon/src/state.rs:610-624 | A picture is refused for what its gate says or because the renderer could not draw it, and for nothing else |
| `Handling.ALightIsCommanded` | crates/daemon/src/state.rs:433-436 | A lighting command reaches its executor exactly when it may, and no other device |
| `Handling.ProfilesTouchNoDevice` | crates/daemon/src/state.rs:425-427 | Saving puts the profile on offer, deleting takes it off, and neither reaches a device |
| `Handling.ATickChecksAndRedraws` | crates/daemon/src/state.rs:668-697 | A tick with the device there takes exactly the flagged channels off the record, redraws from this sample and writes no attribute and no light |
| `Handling.ATickShowsTheSample` | crates/daemon/src/state.rs:683-697 | Over a good link a streaming preset ends up showing the picture of this sample |
| `Handling.ATickForgetsWhatIsGone` | crates/daemon/src/state.rs:458-471 | A tick with the device gone forgets what it held, keeps the stamp and the preset, and sends nothing |
| `Daemon.EveryRunKeeps` | crates/daemon/src/state.rs:392-447 | Every reachable daemon state is a run of validated cooling events over a reloadable configuration |
| `Daemon.DisplayingKeeps` | crates/daemon/src/state.rs:668-716 | A tick or a dropped frame never sets a preset or an animation and sends nothing when neither is set |
| `DaemonObject.Daemon.Start` | crates/daemon/src/state.rs:94-149 | A fresh daemon in the state of the specification's start, which keeps everything proved of runs |
| `DaemonObject.Daemon.RestoreActiveProfile` | crates/daemon/src/state.rs:178-184 | Lighting, then display, then program, each from the session over the profile |
| `DaemonObject.Daemon.Execute` | crates/daemon/src/state.rs:536-564 | Values, device, capabilities, ownership, executor, memory, in that order, each refusal before any write; the answer is the executor's own |
| `DaemonObject.Daemon.Illuminate` | crates/daemon/src/state.rs:575-599 | The lighting gate and send, remembered only when confirmed |
| `DaemonObject.Daemon.Show` | crates/daemon/src/state.rs:610-636 | The panel gate and send, remembered only when confirmed |
| `DaemonObject.Daemon.Remember` | crates/daemon/src/state.rs:646-655 | A disk that refuses changes neither the answer nor the record |
| `DaemonObject.Daemon.ApplyLighting` | crates/daemon/src/state.rs:259-275 | A refused channel does not stop the next |
| `DaemonObject.Daemon.PutBack` | crates/daemon/src/state.rs:178-184 | The three writes in the order shared by activation and start |
| `DaemonObject.Daemon.ActivateProfile` | crates/daemon/src/state.rs:751-806 | Compatibility, then persistence, then the writes; a failed persist writes nothing |
| `DaemonObject.Daemon.Reconcile` | crates/daemon/src/state.rs:458-492 | An absent device is forgotten by both executors that own it; a present one has its curves checked |
| `DaemonObject.Daemon.Tick` | crates/daemon/src/state.rs:668-697 | Reconciles, then redraws only while the device is present |
| `DaemonObject.Daemon.TickAnimation` | crates/daemon/src/state.rs:714-716 | Advances the animation with no gate and answers when its next frame is due |
| `DaemonObject.Daemon.Handle` | crates/daemon/src/state.rs:392-447 | Any request, however it ends, keeps the object in a state some run of the specification reaches |
| `Config.LoadingIsExact` | crates/daemon/src/config/document.rs:130-172 | A file is taken exactly when its document is valid, and a load always ends valid |
| `Config.ConfigurationStaysValid` | crates/daemon/src/config.rs:125-179 | Over any run of operations and failing writes: names unique, none the safe one, the active name resolves, session channels distinct exactly if the file had them so, and the file equals memory once anything was written, else nothing changed |
| `Config.ALoadMayRepeatAChannel` | crates/daemon/src/config/document.rs:153-169 | A file whose session names a channel twice is loaded as it is |
| `Config.FailureChangesNothing` | crates/daemon/src/config.rs:295-308 | An operation that fails changes neither document nor file |
| `Config.ASavedProfileIsOnOffer` | crates/daemon/src/config.rs:125-144 | A save succeeds exactly for a valid profile of another name than the built-in one on a disk that takes it; it is then the one on offer under its name and nothing else changed |
| `Config.AnActivatedProfileIsActive` | crates/daemon/src/config.rs:147-154 | An activation succeeds exactly for a profile on offer; it is then the active one and nothing else changed |
| `Config.ADeletedProfileIsGone` | crates/daemon/src/config.rs:156-179 | A deletion succeeds exactly for a stored profile; nothing is then on offer under its name and the safe one is active if it was |
| `Config.ARecordChangesItsOwnPart` | crates/daemon/src/config.rs:239-288 | A record changes its own part of the session and nothing else |
| `Config.AWriteIsCurrent` | crates/daemon/src/config.rs:295-318 | Whatever is written is at the current version and is what the file then holds |
| `Config.ALoadSaysHowItWent` | crates/daemon/src/config.rs:58-91 | A load is from the file exactly when it is usable, from defaults exactly when there is none, and otherwise recovered with the file out of the way if it could be renamed |
| `Config.RemovingIsPiecewise` | crates/daemon/src/config.rs:171-172 | Removing keeps every other profile in its order |
| `Config.RestartLoadsTheDocument` | crates/daemon/src/config.rs:58-91 | Loading what a run left behind gives the document it ended with |
| `Config.RestoreIsAnOverride` | crates/daemon/src/config.rs:187-204 | The last programs the restore list asks for are the profile's channel map overridden by the session's, for any profile list; what the cadence lets through is in `Restoring` |
| `ConfigStore.CheckAll` | crates/daemon/src/config/document.rs:153-163 | The pass over the names seen so far gives the verdict of the specification |
| `ConfigStore.Retain` | crates/daemon/src/config.rs:163-179 | Keeps every profile but the one named, in order |
| `ConfigStore.Configuration.Load` | crates/daemon/src/config.rs:58-91 | Ends valid from any file |
| `ConfigStore.Configuration.CommitChange` | crates/daemon/src/config.rs:295-308 | Edits, persists, and takes the edit back when the write fails |
| `ConfigStore.Configuration.SaveProfile` | crates/daemon/src/config.rs:125-144 | Replaces by name or appends |
| `ConfigStore.Configuration.Activate` | crates/daemon/src/config.rs:147-154 | Only a name on offer is activated |
| `ConfigStore.Configuration.DeleteProfile` | crates/daemon/src/config.rs:163-179 | Removal and the switch to the safe profile land in one commit |
| `ConfigStore.Configuration.RecordProgram` | crates/daemon/src/config.rs:239-245 | Writes nothing when the session already holds it |
| `ConfigStore.Configuration.RecordDisplay` | crates/daemon/src/config.rs:263-269 | Writes nothing when the session already holds it |
| `ConfigStore.Configuration.RecordLighting` | crates/daemon/src/config.rs:272-288 | Replaces the channel's command in place or appends it |
| `ConfigStore.Configuration.LightingToRestore` | crates/daemon/src/config.rs:187-204 | The pushing loop, and the map its replay means |
| `Ownership.OneWriterPerDevice` | crates/daemon/src/state.rs:297-321 | In every interleaving of daemons and probes starting, crashing and exiting: of two processes that sent commands to one device, the first was gone when the second sent |
| `Ownership.TheGateIsTheLock` | crates/daemon/src/state.rs:316-321 | Whoever is past its gate holds the lock of the device |
| `Ownership.TicksNeedNoGate` | crates/daemon/src/state.rs:668-697 | A daemon holding a picture or an animation would pass the gate, so an ungated tick is safe |
| `Ownership.ConflictMeansReadOnly` | crates/daemon/src/startup.rs:136-155 | A live daemon that met any conflict over any device has sent nothing to any of them |
| `Ownership.OneInstance` | crates/daemon/src/main.rs:290-300 | At most one live daemon is past the instance lock, and until its own shutdown the socket path names its listener |
| `Ownership.LocksDieWithTheirHolders` | crates/daemon/src/ownership.rs:14-17 | A lock never names a process that is gone |
| `Ownership.EveryRunIsInOrder` | crates/daemon/src/main.rs:280-329 | Every interleaving keeps the order of lock, clear, bind, own, serve, unlink, release |
| `DeviceLocks.TakingIsFair` | crates/daemon/src/startup.rs:108-155 | Nobody loses a lock, the new ones are this daemon's, and locks and conflicts account for every device |
| `DeviceLocks.ConflictFreeExactlyWhen` | crates/daemon/src/startup.rs:117-134 | No conflict if and only if every lock file opened, none was held and no device came twice |
| `DeviceLocks.TakingIsStepping` | crates/daemon/src/startup.rs:117-134 | The loop does what the interleaved steps do when nobody else moves |
| `DeviceLocks.LockDirectory.Acquire` | crates/daemon/src/ownership.rs:62-70 | A non-blocking exclusive lock: granted exactly when the file opens and nobody has it |
| `DeviceLocks.LockDirectory.TakeOwnership` | crates/daemon/src/startup.rs:108-155 | The loop over supported devices, pushing locks and conflicts, then the observed holders |
| `DeviceLocks.AFreeInstanceIsTaken` | crates/daemon/src/main.rs:290-305 | On a free machine a launched daemon gets the instance lock and the socket and goes on to the devices |
| `DeviceLocks.AClearWayIsServed` | crates/daemon/src/startup.rs:108-155 | With the way clear it serves, holding every device it found |
| `DeviceLocks.APermittedCommandIsSent` | crates/daemon/src/state.rs:297-321 | A permitted command of a daemon that serves without a conflict is sent |
| `DeviceLocks.ATickSendsWhatIsShown` | crates/daemon/src/state.rs:683-697 | A daemon with a picture up redraws it on a tick |
| `DeviceLocks.AProbeHasItsDevice` | crates/daemon/src/main.rs:159-181 | A probe on a free device gets its lock, may command that device and no other, and gives it back |
| `DeviceLocks.AnOrderlyStopUnlinks` | crates/daemon/src/server.rs:185-205 | A daemon stopped in order takes the socket off the path before the instance is free |
| `DeviceLocks.ACrashFreesTheMachine` | crates/daemon/src/ownership.rs:14-17 | A crash leaves the instance and every device free for the next |
| `Ticker.NoFrameGoesUncounted` | crates/daemon/src/server.rs:141-158 | For any wake-ups, the boundaries somebody woke at or after are exactly the first ticks + dropped ones |
| `Ticker.AWakeRedrawsOnce` | crates/daemon/src/server.rs:147-158 | A wake-up at or past the deadline redraws once and drops exactly the whole intervals it is late; one before it does nothing |
| `Ticker.TheGridIsKept` | crates/daemon/src/server.rs:141-158 | The next deadline stays on the original grid and lies after the last wake-up |
| `Ticker.WakingKeepsTheGrid` | crates/daemon/src/server.rs:141-152 | After a wake at or past the deadline, now < next <= now + interval |
| `Ticker.SleepingOnTimeDropsNothing` | crates/daemon/src/server.rs:231-235 | A thread that sleeps exactly as long as it asks redraws within the tick floor of each boundary and drops nothing, whatever the animation asks for |
| `Ticker.TheSleepEndsAtWhatIsDueFirst` | crates/daemon/src/server.rs:160-165 | A sleep ends at the redraw or the animation's next frame, whichever is first, between the floor and the poll |
| `Ticker.DisplayTicker.Wake` | crates/daemon/src/server.rs:148-158 | The catching-up loop gives up exactly the whole intervals missed |
| `Health.FaithfulNotesRebuild` | crates/daemon/src/state.rs:494-498 | Replaying a faithful difference over the old faults gives exactly the current ones |
| `Health.AnUnchangedFaultIsSilent` | crates/daemon/src/state.rs:507-516 | No event exactly when nothing changed |
| `Health.TheLastFaultCounts` | crates/daemon/src/state.rs:500-505 | What a snapshot says of a collector is the last fault it lists for it |
| `Health.HealthLog.Record` | crates/daemon/src/state.rs:499-528 | Two passes write the faithful difference; replaying the whole log gives what is failing now |
| `Health.NoteFailures` | crates/daemon/src/state.rs:507-516 | Every new or changed fault once, and nothing else |
| `Health.NoteRecoveries` | crates/daemon/src/state.rs:518-526 | Every collector that left the failing set once, and nothing else |
| `Redaction.RedactionIsComplete` | crates/core/src/diagnostics.rs:257-265 | With secrets that hold no bracket and are no part of the placeholder's word, no replaced text holds any of them: a later replacement never recreates an earlier secret |
| `Redaction.RedactionIsCompleteExactlyWhen` | crates/core/src/diagnostics.rs:257-265 | For bracket-free secrets, redaction never leaks on any text if and only if none of them occurs in the placeholder's word |
| `Redaction.WhatStandsBesideIsKept` | crates/core/src/diagnostics.rs:257-265 | The text falls into parts at the occurrences of the secret, leftmost first; the output is the same parts, whole and in order, with one placeholder for each occurrence |
| `Redaction.TheFirstIsReplaced` | crates/core/src/diagnostics.rs:257-265 | What comes before the first occurrence is copied, the occurrence becomes one placeholder, and what follows is replaced in its turn |
| `Redaction.EveryTextSplits` | crates/core/src/diagnostics.rs:257-265 | Every text falls into such parts |
| `Redaction.PartsAreClean` | crates/core/src/diagnostics.rs:257-265 | None of the parts holds the secret |
| `Redaction.TheFirstRegisteredGoesFirst` | crates/core/src/diagnostics.rs:257-265 | Secrets are replaced in the order they were registered |
| `Redaction.SweepingKeepsTheShape` | crates/core/src/diagnostics.rs:280-300 | A sweep changes texts and nothing else: the same items, members, keys and numbers |
| `Redaction.ReplacementShows` | crates/core/src/diagnostics.rs:257-265 | A replacement changes a text exactly when it held the secret |
| `Redaction.CleanTextIsKept` | crates/core/src/diagnostics.rs:257-265 | Text holding no secret is returned as it came |
| `Redaction.TreeRedactionIsComplete` | crates/core/src/diagnostics.rs:280-300 | No string value anywhere in the swept tree holds a registered secret |
| `Redaction.CleanTreeIsKept` | crates/core/src/diagnostics.rs:280-300 | A tree holding no secret is exported unchanged |
| `RedactorObject.Redactor.AddSecret` | crates/core/src/diagnostics.rs:250-255 | Too short or repeated values are not registered |
| `RedactorObject.Redactor.ReplaceAll` | crates/core/src/diagnostics.rs:257-265 | The left-to-right scan leaves the parts beside the secret joined by placeholders |
| `RedactorObject.Redactor.Redact` | crates/core/src/diagnostics.rs:257-265 | The loop over the secrets leaves none of them |
| `RedactorObject.Redactor.RedactTree` | crates/core/src/diagnostics.rs:280-300 | The sweep of a whole tree |
| `EventLog.ExportIsCleanExactlyWhen` | crates/core/src/diagnostics.rs:368-403 | An export holds no registered secret in any string value if and only if no variant name holds one or the daemon's version does not hold this one |
| `EventLog.SweepRebuildsExactlyWhen` | crates/core/src/diagnostics.rs:274-278 | A sweep leaves an export readable exactly when no secret occurs in the name of a variant |
| `EventLog.EveryEventLeaves` | crates/core/src/diagnostics.rs:368-391 | A readable export carries every event in order, each swept and otherwise as it was |
| `EventLog.ACleanDocumentLeavesAsItIs` | crates/core/src/diagnostics.rs:368-391 | Where nothing holds a secret the export is the document itself |
| `EventLog.ARefusedExportIsItsFrame` | crates/core/src/diagnostics.rs:392-401 | What cannot be read back leaves no event and no capability |
| `EventLog.TheNewestAreKept` | crates/core/src/diagnostics.rs:335-345 | A log holds the end of its history, all of it while there is room |
| `EventLog.DiagnosticsLog.Record` | crates/core/src/diagnostics.rs:335-345 | The log holds the newest events of the whole history, at most its capacity |
| `EventLog.DiagnosticsLog.Export` | crates/core/src/diagnostics.rs:368-403 | One sweep over the document; what cannot be rebuilt leaves without events and capabilities |

## Left out

- CoolingRuns.ApplyNeverTearsACurve: assumes readable modes and a recorded curve for a channel already in curve mode; `Tearing.ApplyRunsOnlyBlends` says what may run without either, and `Tearing.AnUnrecordedCurveComesBackTorn` that the record is needed
- Display.DeduplicationIsInvisible: assumes no refused brightness report landed over a known brightness; `Display.RecordIsTrueThroughExactlyWhen` shows that this is exactly when the record stays true
- DaemonRecords.RecordsHoldUnderTheDaemon: assumes no refused brightness report lands at all, where the exact condition of `Display` needs it only over a brightness on record
- Restoring.StartShowsTheOverrideExactlyWhen: takes a connected controller, permitted commands and reports that are sent; a failed report is covered by `Lighting.AnswersAreTrue`
- Display.FramesAreConserved: the `u32` count of frames skipped in one pass is unbounded here
- CoolingRuns.RunningTheCurveIsNeverFlagged: states it for a non-decreasing curve, which is what validation admits
- Redaction.RedactionIsComplete: assumes secrets without brackets that are no part of the placeholder's word; a secret with a bracket can be recreated around a placeholder
- Ownership.OneWriterPerDevice: takes every daemon and probe to be one of this program; a foreign program is the `ok` answer of the holder scan
- Ticker.DisplayTicker.Wake: the drops are added to one counter here; the daemon's own counter saturates, and is modelled so in `Display`
- The branch for a driver whose curve points can be read back; they are write-only on the supported one.
- A firmware that discards a whole transfer it acknowledged; the curve check is the answer to it and is modelled as such.
- Writes between a device going away and the daemon's `forget` on the next tick.
- The daemon's event records and message texts, except the collector-health notes and the bounded log.
- Wall-clock stamps: one reading per call, where the source reads the clock at each commit.
- Floating-point temperatures: whole millidegrees, with an unreadable or non-finite one as absent.
- Unicode white space in profile names and non-ASCII case; a name is a sequence of characters.
- Keys of a JSON object: the sweep visits values only, and so do the claims.
- Redaction in place: the tree is rebuilt by `RedactTree`, so sharing inside one tree is not captured.
- The rename, flush and permissions of the file write: the file is replaced whole or not at all.
- The walk over other processes' open nodes: a list of observed conflicts, or one boolean in the interleavings.
- Threads behind the state mutex: each request and each tick is one step.
- HID and USB byte layouts, rendering, sysfs parsing, capability probing, JSON framing: parameters or absent.
- The client application and the operator's prompts of the write probes.
- Curve editing nodes and their interpolation, which never reach a device without validation.
