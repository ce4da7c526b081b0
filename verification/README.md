# A verified model of the soil moisture sensor's behaviour

The firmware of the XIAO soil moisture sensor keeps its decisions in `core/`: a boot
wakes, settles the press that woke it, takes one reading, talks to its protocol stack
and goes back to deep sleep. Time, button edges, the stack's state and storage are
answers of a world behind a set of ports. The same code drives the device and a
simulator. This project models that code in Dafny and proves what it keeps over whole
runs, for every world that honours the contract of the ports. Five parts:

- **One boot over a world.** `Ports.World` is a nondeterministic world: it answers
  anything the ports allow, keeps a trace of every call, and lets time pass only inside
  awaited calls. `Application.App`, with its loops, is the program over that world.
  `BootModel` says what calls a boot makes, given the answers; `App` is proved to follow
  it, and the theorems about boots are about it. `Watching` is an observer that sees the
  calls and nothing else; its lemmas say what the observer's fields mean for the trace.
  `OperationalPhase`, `BootTheorems`, `Answering`, `Progress`, `Overdue`, `WakePhase`,
  `WakingPress`, `Measured`, `Accounted` and `Cadence` hold the theorems, `Device` composes
  the phases and chains boots. `Simulator` is the simulator's own world, `Simulation` plays the application over
  it, and `SimulatedPress` is what its waking presses come to.
- **The gesture recogniser** (`Button`, `Gestures`): the machine, driven by its own
  deadlines, against a classification of presses that has no machine in it.
- **The flash read-ahead window** (`Flash`): against the bare flash, for any driver.
- **Measurement and reporting** (`Measurement`, `Reporting`): wrapping 32-bit arithmetic,
  the battery curve, and the deadbands between readings and the radio.
- **Crash-loop back-off** (`Recovery`): over sequences of boots; and the device's store of a
  calibration, with what it can lose (`FirmwareStore`).

`Machine`, `Tuning` and `Vocabulary` hold the integer widths, the constants and the
words of the ports. Where a theorem says what a person or a controller would see, it is
written with the numbers themselves and not with the functions of the model. A class method that follows a function has an `ensures` that equates
its new state with that function of the old one; what the function means is in the
lemmas.

## How a run is stated

A run of the operational phase is a sequence of laps (`BootModel.IsRun`): each holds what
the world answered during one turn of the loop and the calls that turn made. Nothing is
assumed of the answers but the contract of the ports: an awaited call ends no earlier than
it began and within the world's `Limits`, a wait ends no later than its deadline plus a
lateness, and `Deadline` is said only once the deadline has come. A waking press is a
sequence of deliveries in the same way (`BootModel.PumpLegal`).

## The main results

- A boot only sleeps when it is safe to (`BootTheorems.SleepIsSafe`), does sleep, and soon,
  when the world lets it (`Progress.SleepsSoon`), and answers every gesture once, at its
  instant (`Answering.GesturesAreAnswered`).
- The recogniser says what the presses mean (`Gestures.RecogniserIsTheClassification`): one
  asks for a sample and three for a calibration (`Gestures.ABurstSaysByItsCount`). The press
  that wakes the device is given what its own first gesture means
  (`WakingPress.GivesTheFirstGesture`, `WakePhase.OneReadingAnswersThePress`), as is every
  press the simulator is woken by, over whole runs (`SimulatedPress.RunsAnswerTheirPresses`).
- Every number that leaves the device is true (`Measured.RunIsTrue`,
  `Measured.ReportsAreOnTheLine`), everything that is read is reported
  (`Accounted.BootIsAccounted`) and when it is due (`Cadence.RunIsInTime`), the watchdog is
  fed and the reboot count is written once (`Device.BootBehaves`, `Device.ChainBehaves`).
- Every boot the simulator runs to its end is such a boot, with the deliveries and the laps
  it was given, so all that is proved of boots and of runs holds of it
  (`Simulation.BootsOfTheSimulator`, `Device.BootsBehave`, `Device.BootsAnswer`). Its boots
  come to an end and balance its books; it says why when it gives up on one, and it never
  does on boots that are left alone (`Simulation.RunUntil`). No edge is lost between them
  (`Simulation.NoEdgeIsLost`), and each sleep is over when its check-in is due
  (`Simulation.SleepsUntilTheCheckIn`).
- The flash window cannot be told from the flash (`Flash.WindowIsInvisible`,
  `Flash.ScanCost`); the battery curve is monotone and its readings are never stale by more
  than 16 points (`Measurement.ChargeIsMonotone`, `Reporting.StalenessIsBounded`); a crash
  loop backs off (`Recovery.StartsAreBounded`).

## Where the code and its comments part

- `next_deadline` says that a deadline which has passed is one the boot has finished with.
  It need not be: a button deadline can run out during a reading
  (`Overdue.AReadingPassesAPress`), or have come together with a notice, or with an edge the
  button does not heed (`Overdue.ANoticePassesAPress`), and then the wait is for something
  else, perhaps half a minute away. `Overdue.WaitPassesTheButtonExactlyWhen` says in which
  rounds of a run, and `Overdue.ServedInTime` for how long.
- The wait of the wake phase is not filtered in that way. In the simulator a notice at the
  very millisecond of the button's deadline, or an edge that a held button does not heed,
  can leave a wait for an instant that has come, and then the check for a wait nothing can
  end fails (`Overdue.NoticesCanStickAPress`, `Overdue.AnEdgeCanStickAPress`).
  `Overdue.PressIsStuckExactlyWhen` says after which deliveries, and the waits of the
  operational phase never do that (`Simulator.OperationalWaitsAreNeverStuck`).
- `FlashCell::read` serves any read of window size or less from one window. One that lies
  across two windows slices past the buffer (`Flash.AStraddlingReadPanics`);
  `Flash.OneOperation` says that exactly those panic, and reads inside one page or inside
  the NVS partition never are such. And a fill that fails after it has written to the buffer
  leaves the old window in force, which then reads wrongly (`Flash.SpoiltWindowsTell`);
  users of the NVS alone never come to that (`Flash.NvsIsNeverSpoilt`).
- `on_edge` is documented to return a gesture when one completes. It never does
  (`Button.ButtonFsm.OnEdge`), so the arms of `drain_button` that expect one are dead.
- The battery's deadband keeps the reported charge close to the estimate for every voltage
  a cell can have (`Reporting.CellsAreNeverStale`), and for none across the cast to a signed
  32-bit integer (`Reporting.StalenessIsBounded`, `Reporting.StalenessFailsAcrossTheCast`).
- A store of a calibration is documented to leave the previous one in place when it fails.
  The device writes two keys, one after the other. When the second write fails, the new dry
  reference stands beside the old wet one, too close to it or below it
  (`FirmwareStore.AStoreCanReverse`); `FirmwareStore.AllOrNothingExactlyWhen` and
  `FirmwareStore.UsableExactlyWhen` say when the promise holds.
- A press said twice, with no release between, restarts nothing: a reset is 10 020 ms after
  the first of them (`Answering.ResetWasHeldFor`).

## Model

The theorems come first, the main ones at the top; the methods that follow the program
are at the end.

| member | source | states |
|---|---|---|
| BootTheorems.SleepIsSafe | core/src/app.rs:103-140 | Whenever a run ends in `Sleep`, the stack was last read at that very instant as long-idle and idle, an unbroken run of idle readings reaches back the settle delay, the edge queue was seen empty then with nothing taken or awaited after, the last edge taken was not a press, nothing is due, and the length is the poll interval cut at the end of the idle period, at least a second |
| Gestures.RecogniserIsTheClassification | core/src/button.rs:64-145 | For every list of presses, from either kind of boot, told of the press that woke it or not, and under either tie rule, the driven machine says exactly what the classification of the presses says, at the same instants; the classification writes each gesture by its count and has nothing of the machine in it |
| Gestures.ABurstSaysByItsCount | core/src/button.rs:117-145 | In numbers: a press longer than 20 ms and shorter than the hold says exactly `SampleNow` 400 ms after its release; three with less than 400 ms between say exactly `Calibrate`, 400 ms after the last; two say nothing, nor does any other number, but for the wrap at 2^32 |
| Progress.SleepsSoon | core/src/app.rs:103-140 | From any head, through a world with no more edges that reads long-idle and idle: a boot with the button at rest has ended after at most 4 waits and one for each notice, with the button in any state after at most 9, and within the time of one round more of the longest kind; it sleeps, unless the button was down, and then it may come to a reset |
| Answering.GesturesAreAnswered | core/src/app.rs:150-208 | Over every run, from the calls alone: the button is the one that was told what the calls show it; a person was given exactly what it said, in order, once each, every answer begun at the very instant of its gesture (a shown moisture for a single press, a calibration flow for a triple one), but for the gesture a head still owes or the reset that ends the boot; and the stack was asked to stay reachable for exactly those but the reset |
| Simulation.RunUntil | sim/src/world.rs:274-291 | Terminates with no assumption on its boots, after at most (until - clock) / 1000 + 1 of them. It is past `until` or at a reset, the books balance, the records are those boots, each with the calibration the one before left, and the edges left over are still in order; each boot was woken by the button if and only if the first edge of the queue it found was a press that had come, found what the one before left, and was answered by its stack, sensors and button as that setting says; or the last boot is past the simulator's limit, or stuck in an undecided press. With no edges left and a stack that becomes long-idle in time for the limit, it always comes to `until`, by sleep after sleep |
| Flash.WindowIsInvisible | fw/src/flash.rs:106-146 | Over any sequence of reads, writes and erases that does not spoil the window, whatever the driver makes of each and whichever fail, each operation finds and leaves the contents the bare flash would and answers as it would, but for a saved read that would have failed; it panics exactly on a fill that straddles two windows |
| Device.BootBehaves | core/src/app.rs:374-433 | Both phases together: every report true, the watchdog fed within one bound from the start of the boot through the startup of the stack to its end, one reading before the stack, the count written once and in time, waits in the future, a safe sleep |
| Measured.RunIsTrue | core/src/app.rs:256-275 | Over every run: each reported moisture is the reading just made against the calibration in storage then, each moisture shown is the one just reported, each battery report is the estimate of the voltage just read, each stored calibration is the last two readings, far enough apart |
| Accounted.BootIsAccounted | core/src/app.rs:256-275 | Every boot on any world completes every reading it takes: each soil that was read is reported at once, each moisture reported is followed by a read of the cell, or first shown, each cell that was read is reported at once by its estimate, and the four are as many; each calibration begun is gone through, its pair stored if and only if it is 200 mV wide and signalled if not, or not stored; exactly one reading comes before the stack. And a boot opens with the crash signal if and only if it follows a crash, the 30 s hold if and only if a press woke it, and one load |
| Cadence.RunIsInTime | core/src/app.rs:103-175 | In every run, from the calls alone: no reading is taken before it is due, half a minute after the one before or when a press asks for it; no wait is made while one is due, or goes past it; and none is made past the minute with the reboot count unwritten |
| WakePhase.OneReadingAnswersThePress | core/src/app.rs:374-413 | A wake phase that is done reported moisture exactly once, as its last work; shown exactly when the button asked for a sample, after exactly one calibration flow exactly when it asked for that, neither when no press woke the device |
| WakingPress.GivesTheFirstGesture | core/src/app.rs:374-413 | So the person is given, by the calls of the wake phase, exactly what the first gesture of their presses means in the classification, at that instant, and nothing else |
| WakingPress.ABurstIsAnswered | core/src/button.rs:134-142 | In numbers: a device woken by one press, let go within 10 s, begins the reading it shows 400 ms after the release; by three close together, a calibration 400 ms after the last; by two, or any other number up to 2^32, neither |
| WakingPress.AsksForTheFirstGesture | core/src/app.rs:392-405 | For every list of presses that begins with the waking one, and either tie rule: a wake phase that is given them on time, with any edges besides that the button does not heed (such as the falling edge both worlds tell it of), asks for what the whole of the first gesture of the list means in the classification, at that instant, and nothing is meant before it |
| SimulatedPress.AsksInTheSimulator | sim/src/world.rs:274-291 | For every boot of the simulator that the press at the front of its queue woke, and every schedule of presses: the wake phase, if it decides, asks for what the first gesture of those presses means, in the time of the boot |
| SimulatedPress.RunsAnswerTheirPresses | sim/src/world.rs:274-291 | Over whole runs: every boot that finds a press waiting first in its queue is woken by it, and if it comes to its operational phase, its calls gave the person exactly what the first gesture of the presses means |
| Simulation.SleepsUntilTheCheckIn | sim/src/world.rs:410-427 | Every boot of a run that sleeps was awake for a second at least after its stack was started, saw it long-idle and no longer active as its last look, and wakes half an hour after the stack was last active, or in a second if that has come |
| Simulation.NoEdgeIsLost | sim/src/world.rs:491-561 | Over a run no edge is lost and none is given twice: what is left of the queue is what there was without as many as the boots were given; and the sensors' scripts go on from boot to boot |
| Overdue.WaitPassesTheButtonExactlyWhen | core/src/app.rs:215-238 | In every run: a wait passes the deadline of the button if and only if the deadline came before the due work of its round was done, and it had come before the round began if and only if the event before was a notice or an edge the button does not heed, at or after the deadline |
| Overdue.ServedInTime | core/src/app.rs:215-238 | In every run, at a wait before which no event passed the button by: the wait is over at most the due work, a sample period and the lateness after the deadline of the button, and if the deadline has come the button has moved, unless what ended the wait passed it by |
| Overdue.PressIsStuckExactlyWhen | sim/src/world.rs:523-536 | In the simulator, for every press, queue and stack: a wait of the wake phase fails its check if and only if that is so, no edge waits at or before the deadline, and the stack has told of every change |
| BootTheorems.WatchdogIsFed | fw/src/ports.rs:79-107 | From a feed before the phase to its end, no two feeds in a row are further apart than a sample period and lateness plus one reading, or one calibration hold with its readings and store |
| BootTheorems.RebootCountIsWrittenOnce | core/src/app.rs:106-139 | A wake from sleep never writes the reboot count, a cold boot writes it at most once and exactly once if it sleeps, never before 60 s unless as the last call before the sleep |
| BootTheorems.WaitsAreInTheFuture | core/src/app.rs:210-238 | Every wait of every run of the operational phase is for an instant strictly in the future |
| BootTheorems.CalibrationIsTheStoredOne | core/src/app.rs:156-162 | At every point of every run the calibration in effect is the one in durable storage |
| Measurement.ChargeIsMonotone | core/src/math.rs:21-48 | A higher voltage never reads a lower charge, across all segments and both ends |
| Measurement.ReadsTheJoiningLine | core/src/math.rs:33-47 | Inside any rising curve, vertical steps allowed, the estimate is the floor of the line that joins the one pair of points around the reading; the fallbacks are not reached and 64 bits do not overflow |
| Reporting.StalenessIsBounded | node/src/power_source.rs:124-137 | For every sequence of voltages: the charge held is within 16 points of the latest estimate unless the voltage held before is within 20 mV of the latest, on the other side of the cast to 32 signed bits; and then it is not |
| Reporting.ReportsArePaidFor | core/src/math.rs:50-60 | A deadband of `delta` holds a value less than `delta` from the latest, and `delta * (reports - 1)` plus what is still unreported is at most the total variation |
| Recovery.StartsAreBounded | core/src/recovery.rs:31-62 | In any stretch of boots with no planned end and no host reset, from any count and with any button wakes, unattended starts are at most back-offs plus 3 |
| Recovery.NeverTwiceInARow | core/src/recovery.rs:55-61 | Once the limit is reached no two unattended starts are adjacent |
| Flash.ScanCost | fw/src/flash.rs:112-121 | Users that read only the NVS cost at most one device read, and one for every write, erase or failed fill, whatever they read and in whatever order |
| BootTheorems.HeadsKnowThePin | core/src/app.rs:179-208 | At every head of the loop the button state says the level of the last edge taken, and is never waiting for the release after a reset |
| BootTheorems.ResetHoldsTheButton | core/src/app.rs:206-207 | A run ends in a factory reset only with the pin still down |
| Answering.ResetWasHeldFor | core/src/button.rs:117-133 | A run that ends in a factory reset took a press at least 10 020 ms before, and no release after it |
| OperationalPhase.DeadlineIsNext | core/src/app.rs:215-238 | The next deadline is in the future exactly when the next sample is, it is one of the candidates, and no candidate still to come is earlier |
| Overdue.AReadingPassesAPress | core/src/app.rs:218-224 | A run of a timer wake in which a press falls together with a sample: its debounce runs out during the reading, and the wait is for the next sample, half a minute on |
| Overdue.ANoticePassesAPress | core/src/app.rs:218-224 | A run in which a notice comes at the instant of the debounce: the same, with no reading and no lateness |
| Overdue.PressIsOverdueExactlyWhen | core/src/app.rs:399-400 | In every wake phase: the next wait is for an instant that has come if and only if the last delivery passed the undecided button by (or, before any, the load did) |
| Overdue.NoticesCanStickAPress | sim/src/world.rs:491-536 | A wake phase of a held press, with the deliveries the simulator makes to it, that comes to such a wait by two notices |
| Overdue.AnEdgeCanStickAPress | sim/src/world.rs:491-536 | Another, that comes to it by an edge the held button does not heed |
| OperationalPhase.RoundTracks | core/src/app.rs:422-432 | One turn of the loop, under any legal answers, keeps the application and the observer of its ports together, or ends the boot safely |
| OperationalPhase.RunTracks | core/src/app.rs:421-433 | So does every run of any length |
| Progress.EveryHeadIsReady | core/src/app.rs:421-433 | Every head of the loop that any run comes to is one the bounds hold from |
| Progress.EndsSoon | core/src/app.rs:215-238 | The measure behind it: every wait that ends at its deadline brings the boot nearer to its end, and no notice takes it further away |
| WakePhase.OnlyAResetEndsIt | core/src/app.rs:399-405 | A wake phase that ends the boot is a factory reset said to a held waking press, with nothing read, reported or stored |
| WakePhase.PressIsFollowed | core/src/app.rs:399-405 | The waking press is undecided, silent and waiting for a deadline; or decided, with the button at rest and exactly its request made; or a reset |
| WakePhase.PressIsSoonResolved | core/src/button.rs:161-167 | The waits of the phase are at most twice the edges and notices sent, and one |
| WakePhase.HandsOver | core/src/app.rs:407-413 | The operational phase begins with the button at rest, nothing asked for, the next sample one period away and the count to be written exactly on a cold boot |
| WakePhase.WakeIsFed | core/src/app.rs:374-413 | So it is through the whole wake phase, its load, calibration and reading included |
| WakingPress.FollowsTheFirstGesture | core/src/button.rs:84-145 | Until then the button is at the point of that gesture that the edges so far say |
| SimulatedPress.PressIsOnTime | sim/src/world.rs:491-521 | Everything the simulator delivers to a waking press is on time for its schedule, but the edge that caused the wake, which the button does not heed |
| Measured.WakeIsTrue | core/src/app.rs:387-410 | The same for the reading of the wake phase, against the calibration loaded or just captured |
| Measured.StorageStaysUsable | core/src/calibration.rs:45-62 | From usable references, with 16-bit readings, the references in storage stay 16 bits wide and 200 mV apart for ever |
| Measured.ReportsAreOnTheLine | core/src/math.rs:9-16 | So every moisture ever reported is the floor of the line between the two stored references, with no overflow and no reversed span |
| BootTheorems.WatchdogHasAMargin | core/src/tuning.rs:208-217 | When readings, store and lateness stay under 25 s together, the bound of one phase is below the watchdog timeout |
| Device.BootsHaveAMargin | core/src/tuning.rs:208-217 | With load, startup, and readings, store and lateness together each under 25 s, that bound is below the 120 s of the watchdog |
| Device.BootsBehave | core/src/app.rs:374-433 | Every boot, cut short in its wake phase or not, behaves so, and leaves in storage the calibration it leaves in effect |
| Device.BootsAnswer | core/src/app.rs:374-433 | Every whole boot answers its person: the waking press by its one reading, and everything the button said after it at its instant |
| Simulation.BootsOfTheSimulator | sim/src/world.rs:293-341 | Every boot the simulator runs to its end is a boot of the application on a world of its limits, with its deliveries and its laps, so all that is proved of boots and runs holds of it: it is well behaved, the watchdog is fed in time, and a sleep lasts a second at least |
| Device.ChainBehaves | core/src/app.rs:75-85 | Over a chain the reboot count is written once for every cold boot that slept, never for a wake from sleep, and every report is against the calibration then in storage |
| Simulation.NoRunWritesTheRebootCount | core/src/app.rs:75-85 | Every booked boot of such a run is a boot, and none of them writes the reboot count |
| Button.LevelIsTracked | core/src/button.rs:84-145 | Under any order of edges and deadlines, late or repeated, the state says the level of the last edge |
| Button.WakingHasADeadline | core/src/button.rs:161-167 | While the waking press is undecided there is always a deadline to wait for |
| Button.ResetNeedsTheWholeHold | core/src/button.rs:129-133 | A reset is only said after the machine has been held for 10 s with no release handled |
| Button.ResetsAreSeparated | core/src/button.rs:109-133 | Two resets are always separated by a release and then a press |
| Accounted.RunIsComplete | core/src/app.rs:256-275 | The same over every run of the operational phase |
| Accounted.WakeIsComplete | core/src/app.rs:407-413 | A wake phase that is done took exactly one reading, and completed it |
| Accounted.ChainIsComplete | core/src/app.rs:256-275 | Over a chain of boots every reading is complete, and there is one for each boot that was not cut short |
| Cadence.BootIsInTime | core/src/app.rs:407-433 | So after every wake phase: the next reading is due half a minute after its own, and a cold boot is healthy a minute after it began |
| Gestures.AHoldResets | core/src/button.rs:124-133 | One press held for 10 020 ms, or 10 000 ms if it woke the device, says exactly `FactoryReset`, then |
| Gestures.AGlitchSaysNothing | core/src/button.rs:96-103 | A press shorter than 20 ms says nothing |
| CalibrationFlow.WidePairsAreStored | core/src/calibration.rs:45-62 | From the two readings among the calls of a flow: it asks for a store if and only if dry less wet is 200 or more in 32-bit arithmetic, and of just these two; it is accepted with that pair if and only if the store came back true, and `SpanTooSmall` if and only if it asked for none |
| CalibrationFlow.SpansOf16Bits | core/src/calibration.rs:45-62 | The same for 16-bit readings, where the test is plainly dry - wet >= 200 |
| CalibrationFlow.OnlyARejectionIsSignalled | core/src/calibration.rs:33-43 | A flow signals a rejection exactly once, last, exactly when it is rejected; it stores exactly when it is accepted, and only what it captured |
| Flash.OneOperation | fw/src/flash.rs:106-146 | The same for one operation from any coherent window, which stays coherent if and only if the operation is not a failed fill that leaves in the buffer what a held window does not hold |
| Flash.StaysCoherent | fw/src/flash.rs:138-146 | After any sequence that does not spoil it the window holds what the flash holds |
| Flash.SpoiltWindowsTell | fw/src/flash.rs:119-130 | After such a fill some byte is read wrongly, with no error |
| Flash.NvsIsNeverSpoilt | fw/src/flash.rs:112-118 | Users that read only the NVS never spoil the window, whatever a failed read leaves behind |
| Flash.TidyDriversNeverSpoil | fw/src/flash.rs:119-126 | With failed reads that leave the buffer as it was, no operation ever spoils the window |
| Flash.AStraddlingReadPanics | fw/src/flash.rs:84-88 | Two bytes across the first window boundary: the bare flash answers and the window panics |
| Flash.PagesDoNotStraddle | fw/src/flash.rs:112-121 | A read inside one 4 KiB page never straddles two windows |
| Flash.NvsDoesNotStraddle | partitions.csv:5 | Every read of the NVS partition lies in the one window that begins at 0x8000 |
| Measurement.StaysWithinTheCurve | core/src/math.rs:18-32 | The estimate stays between the end values of the curve |
| Measurement.StepReadsItsTop | core/src/math.rs:33-47 | A vertical step inside the curve reads its top |
| Measurement.ChargeIsSteady | core/src/math.rs:21-48 | On any curve no steeper than `slope`, readings `d` apart read charges at most `slope * d` apart |
| Measurement.DeviceCurve | core/src/tuning.rs:88-95 | The device's curve rises, by at most 8 permille a millivolt |
| Measurement.EstimatesAreClose | core/src/app.rs:349-361 | Two estimates are ordered as their voltages and at most `(8 d + 9) / 10` points apart if and only if the voltages are on the same side of the cast, or the lower one reads as empty |
| Measurement.MoistureDoesNotWrap | core/src/math.rs:9-16 | For 16-bit readings and usable references the 32-bit arithmetic is exact and the reversed-span branch is not taken |
| Measurement.MoistureIsExact | core/src/math.rs:7-16 | Then the moisture is the floor of the line from dry to wet, 0 at dry and beyond, 100 at wet and beyond |
| Reporting.MoistureReportsArePaidFor | node/src/soil_measurement.rs:77-93 | The held moisture is within 1 of the latest sample, and 2 * (reports - 1) is at most the variation of the samples |
| Reporting.BatteryReportsArePaidFor | node/src/power_source.rs:117-137 | Within such a run the held voltage is less than 20 mV from the latest, and 20 * (reports - 1) is at most the variation |
| Reporting.NullExactlyWhenAbsent | node/src/power_source.rs:124-137 | Nothing is held exactly when the latest reading found no cell |
| Reporting.CellsAreNeverStale | node/src/power_source.rs:212-218 | For voltages below 2^31 mV the charge read is always within 16 points of the latest estimate, and null exactly when there is no cell |
| Reporting.StalenessFailsAcrossTheCast | core/src/app.rs:354-360 | Two voltages a millivolt apart, across the cast, for which a full cell is held and an empty one estimated |
| Reporting.CellsAreSeenAsTheyAre | node/src/power_source.rs:227-243 | In spite of the deadband, over every sequence of voltages: at 1145 mV or less the charge level read is critical and replacement asked for; from 1184 to 1197 mV it is a warning; from 1236 mV it is OK, and from 1184 mV no replacement is asked for, if and only if the voltage held is below 2^31 mV; with no cell it is OK with none asked for |
| Reporting.LevelOfAVoltage | node/src/power_source.rs:227-243 | The level a voltage is read as: critical to 1164 mV, a warning to 1216 mV, OK above, but critical past the cast |
| Reporting.AbsenceIsReportedOnce | node/src/power_source.rs:124-137 | However often no cell is found in a row, it is reported once if a cell was held, and not at all if none was |
| Recovery.Potential | core/src/recovery.rs:31-62 | The count, capped at 3, is the potential behind it: starts raise it by one, back-offs lower it by one, presses never lower it, and without presses the balance is exact |
| Recovery.APlannedEndForgives | fw/src/main.rs:656-666 | One planned end is followed by a start that does not claim a crash, whatever the count was |
| Recovery.BootsAreTold | core/src/recovery.rs:31-62 | Over every sequence of boots: a boot backs off if and only if no host reset and no press started it and the count is 3 or more, for half an hour; it claims a crash if and only if it is no host reset and the boot before came to no planned end |
| Recovery.AHostResetForgives | core/src/recovery.rs:32-41 | After a host reset, whatever the count was: no crash is claimed, the count it leaves is 1 (0 after a planned end), and neither that boot nor the two after it back off |
| Recovery.APressAlwaysStarts | core/src/recovery.rs:45-53 | A button wake never backs off |
| FirmwareStore.AllOrNothingExactlyWhen | fw/src/store.rs:76-96 | The device's store of two keys keeps the port's promise, and the calibration in effect stays the one in storage, if and only if it is not the second write that fails, or the dry reference was the same |
| FirmwareStore.UsableExactlyWhen | fw/src/store.rs:76-96 | From usable references a store of usable ones leaves usable ones if and only if it is not torn so, or the new dry reference is 200 mV above the old wet one |
| FirmwareStore.StoreThenLoad | fw/src/store.rs:44-96 | What is read back after a store, for every way its writes can fail |
| FirmwareStore.ReversedReadsNothing | core/src/math.rs:9-13 | A store torn so that the references are reversed makes every later moisture 0 |
| FirmwareStore.AStoreCanReverse | fw/src/store.rs:84-95 | Such a store, on a new device |
| FirmwareStore.UncalibratedIsUsable | fw/src/store.rs:49-62 | With no key that can be read the references are 1600 mV and 900 mV, and usable |
| FirmwareStore.LoadsWhatIsStoredExactlyWhen | fw/src/store.rs:49-62 | A load gives what is stored if and only if each key it cannot read holds the built-in reference anyway |
| Simulator.StuckExactlyWhen | sim/src/world.rs:523-536 | The simulator complains of a wait if and only if its deadline has passed, no edge is at or before it, and no change of the stack is unheard of |
| Simulator.OperationalWaitsAreNeverStuck | sim/src/world.rs:523-536 | No wait a boot makes in its operational phase is ever such a one, whatever the queue and the stack hold |
| Simulator.WaitKeepsTheContract | sim/src/world.rs:491-561 | Every wait the simulator does not complain about keeps the contract of the ports to the millisecond; no edge is passed, lost, reordered or early, and an unheard-of change comes first |
| Simulator.WaitIsExact | sim/src/world.rs:491-550 | A wait ends at the very instant of what ends it, before the stack is calm no later than that, and leaves a notice fewer if it brought one; once the stack is calm one notice is to come at most |
| Simulator.WaitsBringTheFirst | sim/src/world.rs:491-551 | What a wait brings, by the instants alone: a change not told of at once; else the first of the edge, the next change of the stack and the deadline, in that order at one instant; and the complaint exactly when the deadline is first and has come |
| Simulator.ChainIsItsParts | sim/src/world.rs:254-269 | Records that follow on each other add up: the end of the chain is the time awake and the time asleep |
| Application.App.Sample | core/src/app.rs:257-275 | The exact calls of a reading, in order; `Accounted.SampleIsComplete` says that they are one complete reading |
| Accounted.SampleIsComplete | core/src/app.rs:257-275 | The calls of a reading are one of each: soil read and reported at once, cell read and reported at once by its estimate |
| Application.App.StepWake | core/src/app.rs:150-176 | The loop over due work terminates and does a requested calibration first and then one reading if it is due, each at most once, with the calls, the state, the clock and the storage of that |
| Application.App.TrackIdle | core/src/app.rs:282-288 | The settle delay is measured from the first idle reading of an unbroken run |
| Application.App.DrainButton | core/src/app.rs:327-344 | Takes every waiting edge in order, at one instant, and terminates on a finite supply |
| Application.App.EndIfOver | core/src/app.rs:106-139 | Every branch of the decision to sleep, with its calls and its new state |
| Application.App.Step | core/src/app.rs:103-140 | The due work, and then the decision on the advanced clock; keeps the calibration in effect and in storage equal |
| Application.App.OnEvent | core/src/app.rs:179-208 | What each event and each gesture does to the application and asks of the ports |
| Application.ResolvePress | core/src/app.rs:399-405 | The loop over the waking press terminates for every finite supply of edges and notices, and makes the calls of `Pump` |
| Application.RunWake | core/src/app.rs:374-413 | The whole wake phase, with its calls and what it returns |
| Application.RunRound | core/src/app.rs:422-432 | The body of the operational loop is `Round` |
| Application.RunBoot | core/src/app.rs:421-433 | The operational phase is a run; it ends with its outcome, or with the waits or the clock it was followed for used up |
| Ports.World.NextEvent | core/src/ports.rs:120-122 | A wait ends at its deadline or before by an edge or a notice, which the finite supply pays for |
| Ports.World.StoreCalibration | core/src/ports.rs:153-155 | A calibration that could not be stored leaves the previous one in place |
| CalibrationFlow.Run | core/src/calibration.rs:37-43 | The calls of the whole flow, its outcome by the span and the store, and the storage after it: the accepted pair, or what it was |
| CalibrationFlow.CaptureAndStore | core/src/calibration.rs:45-62 | The same without the signal, with 32-bit wrap-around of the span |
| Button.ButtonFsm.OnEdge | core/src/button.rs:84-115 | The new state for every state and edge, with the wrapping click count; no edge ever completes a gesture |
| Button.ButtonFsm.OnDeadline | core/src/button.rs:118-145 | The new state for every state and instant, and the gesture: a sample for one press, a calibration for three, at the end of the window; a reset at the end of the hold |
| Flash.FlashCell.Erase | fw/src/flash.rs:138-141 | Drops the window, and does what the driver does this time, whether or not it succeeds |
| Flash.FlashCell.Write | fw/src/flash.rs:143-146 | Drops the window, and does what the driver does this time, whether or not it succeeds |
| Reporting.SoilMeasurementHandler.Report | node/src/soil_measurement.rs:82-93 | The handler's value, data version and signal move exactly with the deadband's reports |
| Reporting.PowerSourceHandler.Report | node/src/power_source.rs:124-150 | The handler's cell, data version and signal move exactly with the reports of a deadband that a missing cell resets |
| Simulator.SimWorld.TryNextButtonEdge | sim/src/world.rs:553-561 | Takes the first edge exactly when it is due |
| Simulator.SimWorld.RequestActive | sim/src/world.rs:586-593 | The active window is only ever extended, and the change is latched |
| Device.RunOneBoot | fw/src/main.rs:571-662 | One boot of the program on any world is a boot, with its calls, and leaves the calibration in storage that they say |
| Device.RunBoots | fw/src/main.rs:656-662 | Any boots in a row, each woken by anything and after a crash or not, are a chain: each of them such a boot, with the calibration the ones before it stored, and the world saw exactly their calls |
| Simulation.Drive | sim/src/world.rs:293-341 | Both phases of the application played over the ports of the simulator terminate: with a boot as above; or given up, and only past the limit or in a wait for an undecided press that nothing can end. A boot that no press woke and nobody disturbs sleeps |
| Simulation.PlayRound | sim/src/world.rs:480-641 | One turn of the loop over those ports is a legal round of the application, with its calls; the simulator gives up only at the end of a wait that takes the boot past its limit, never on one that nothing can end; and there is less to come after it |
| Simulation.PlayPress | core/src/app.rs:399-405 | The waking press over those ports, by the deliveries its queue makes, comes to an end in every world; it is given up only past the limit, or undecided before a wait that nothing can end |
| Simulation.PlayBoot | core/src/app.rs:421-433 | The operational phase over those ports is a run and comes to an end in every world, or past the limit; it sleeps if nobody disturbs it and there is time once the stack is calm |
| Simulation.RunNext | sim/src/world.rs:276-289 | The next boot of a run: woken by the button if and only if the first edge left is a press that has come, and by the timer otherwise; given exactly the edges it does not leave; booked |
| Simulation.BootOfARun | sim/src/world.rs:274-291 | Every booked boot of a run is one of these, and found what the one before it left |
| Simulation.RunBoot | sim/src/world.rs:243-272 | Adds one record that begins where the last ended and lasts as long as its calls, and keeps clock = awake + asleep = the sum over the records; or the boot is given up, for one of the two causes, and nothing is booked. With no edges left and a stack long-idle in time, it sleeps |
| Flash.FlashCell.Fill | fw/src/flash.rs:119-126 | The aligned window is filled; a failed fill leaves the window as it was and anything in the buffer |
| Flash.FlashCell.Read | fw/src/flash.rs:106-136 | The buffer filled and served in place is the cached step, and the caller's bytes are its answer; a failed read leaves them untouched unless it went past the window |
| Simulator.SimWorld.NextEvent | sim/src/world.rs:491-551 | A wait in the boot's own time, by the contract, with the queue cut by exactly the edge delivered; or one of the simulator's two checks fails, for the cause that check is for |
| Simulator.Script.Next | sim/src/world.rs:56-60 | Reading `n` of a script of any length is reading `n` of its list said over and over |

## Left out

- The wiring of `fw/src/main.rs`, peripherals, ADC, PWM, LEDs, deep sleep, RNG and RTC memory: hardware calls. The retained crash count is an integer that may start as anything.
- rs-matter, the ICD state machine, Thread and the key-value store's internals: foreign code, modelled as ports that answer anything. The stack's start-up between the phases is a parameter of `Device.RunOneBoot`.
- Executors, mutexes and channels: each port call is atomic, and time passes only in awaited ones.
- TLV builders, cluster metadata, constant attributes, the LED colour thresholds, the energy report, logging and the command line: no hard property.
- The firmware's store of a calibration: a boot is modelled over the port's all-or-nothing contract; `FirmwareStore` says when the device's two writes keep it and what is left in storage when not. A key whose write fails is taken to be as it was.
- `World` is nondeterministic but finite: it holds any finite supply of edges and notices, which is what the end of the wake phase rests on.
- Application.RunBoot: an operational phase need not end, as a reachable device is meant to stay awake, so it is followed for any number of waits; and while the clock is at most 2^63 ms, past which 64-bit deadlines saturate. Limits of a single call are at most 2^32 ms.
- Application.ResolvePress: a waking press is followed while the clock is at most 2^63 ms.
- Application.RunWake: so is the wake phase.
- Gestures.RecogniserIsTheClassification: the machine's own deadlines are served at their instants. For late service `Button.LevelIsTracked`, `Button.ResetNeedsTheWholeHold` and `Button.ResetsAreSeparated` hold.
- Flash.WindowIsInvisible: reads begin and end inside the flash, which its capacity asks of its users.
- Measurement.MoistureIsExact: readings and references of 16 bits, more than the converter gives. The function itself is modelled with its wrap-around (the release profile turns overflow checks off) for all inputs.
- Reporting.SoilMeasurementHandler.Report: the cell of the held moisture is a field of the handler here, and the signal a flag.
- Simulation.Drive: the application is played with the functions of `BootModel` on a value, since the class `App` is over `Ports.World` and one class cannot be over both worlds; the calls and their order are the same. The simulator is also taken to give up on a boot whose own clock passes 2^63 ms, which its 64-bit clock would not. When it gives up it panics, and what it had kept of that boot is not said.
- The simulator's LED and report logs, and the handlers inside its ports: the reports are in the trace, and the handlers are in `Reporting`. `active_until` is the larger of the 64-bit maximum and the clock while the stack has not spoken.
