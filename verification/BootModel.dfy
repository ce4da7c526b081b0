/**
 One boot of the device (`core/src/app.rs`) as a transition system over what the
 ports answer.

 The decision layer is deterministic: given the answers of the ports, a boot makes
 one sequence of calls. The functions here are that sequence: `Pump` is the
 waking press, `DueTrace` the work that is due, `Decide` the decision to sleep,
 `Round` one turn of the operational loop and `IsRun` any number of turns. The
 class `App` of module `Application` follows them; the theorems about whole boots
 are about them.
 */
module BootModel {
  import opened Machine
  import opened Vocabulary
  import opened Tuning
  import opened Measurement
  import opened Button
  import Flow = CalibrationFlow

  datatype AppState = AppState(
    calibration: Calibration,
    button: Fsm,
    nextSample: nat,
    sampleWithLed: bool,
    calibrationRequested: bool,
    rebootCountDue: nat,
    rebootCountPersisted: bool,
    idleSince: Option<nat>)

  function NewApp(boot: Boot, calibration: Calibration): AppState
  {
    AppState(calibration, Fresh(boot.wake == WakeCause.Button, boot.now), boot.now, false, false,
             SatAdd(boot.now, REBOOT_COUNT_HEALTHY_AFTER), boot.wake != WakeCause.Cold, None)
  }

  // The work that is due.

  /** What the world answers to the work that is due. Work that is not due is not
      asked for, and its answers are not used. */
  datatype DueAnswers = DueAnswers(flow: Flow.Answers, soil: Flow.Reading, battery: Flow.Reading)

  // Answers that nothing asked for.
  const NO_READING := Flow.Reading(0, 0)
  const NO_FLOW := Flow.Answers(0, NO_READING, 0, NO_READING, false, 0)
  const NOTHING_DUE := DueAnswers(NO_FLOW, NO_READING, NO_READING)

  function AfterFlow(a: AppState, f: Flow.Answers): AppState
  {
    if !a.calibrationRequested then a
    else match Flow.OutcomeOf(f)
      case Accepted(calibration) => a.(calibrationRequested := false, calibration := calibration)
      case Rejected(_) => a.(calibrationRequested := false)
  }

  function AfterFlowAt(a: AppState, at: nat, f: Flow.Answers): nat
  {
    if a.calibrationRequested then Flow.EndOf(f) else at
  }

  function FlowTrace(a: AppState, at: nat, f: Flow.Answers): seq<Entry>
  {
    if a.calibrationRequested then Flow.TraceOf(at, f) else []
  }

  predicate SampleIsDue(a: AppState, at: nat, f: Flow.Answers)
  {
    AfterFlowAt(a, at, f) >= a.nextSample
  }

  function MoistureOf(c: Calibration, mv: U32): nat
  {
    SoilMoisturePercent(AsI32(mv), c.dryMv, c.wetMv)
  }

  /** One reading of both sensors, begun at `at`. */
  function SampleTrace(c: Calibration, withLed: bool, at: nat, soil: Flow.Reading, battery: Flow.Reading): seq<Entry>
  {
    [SoilRead(at, soil.mv, soil.until), SoilReported(soil.until, MoistureOf(c, soil.mv))]
    + (if withLed then [LedSent(soil.until, ClassifyMoisture(MoistureOf(c, soil.mv)))] else [])
    + [BatteryRead(soil.until, battery.mv, battery.until), BatteryReported(battery.until, EstimateBattery(battery.mv))]
  }

  function DueDone(a: AppState, at: nat, d: DueAnswers): AppState
  {
    var b := AfterFlow(a, d.flow);
    if SampleIsDue(a, at, d.flow) then b.(sampleWithLed := false, nextSample := SatAdd(d.battery.until, SAMPLE_PERIOD)) else b
  }

  function DueAt(a: AppState, at: nat, d: DueAnswers): nat
  {
    if SampleIsDue(a, at, d.flow) then d.battery.until else AfterFlowAt(a, at, d.flow)
  }

  /** The calibration a gesture asked for, and then the reading if it is due. */
  function DueTrace(a: AppState, at: nat, d: DueAnswers): seq<Entry>
  {
    FlowTrace(a, at, d.flow)
    + if SampleIsDue(a, at, d.flow) then SampleTrace(AfterFlow(a, d.flow).calibration, a.sampleWithLed, AfterFlowAt(a, at, d.flow), d.soil, d.battery)
      else []
  }

  predicate SampleLegal(l: Limits, at: nat, soil: Flow.Reading, battery: Flow.Reading)
  {
    at <= soil.until <= at + l.soil && soil.until <= battery.until <= soil.until + l.battery
  }

  predicate DueLegal(l: Limits, a: AppState, at: nat, d: DueAnswers)
  {
    && (a.calibrationRequested ==> Flow.Legal(l, at, d.flow))
    && (SampleIsDue(a, at, d.flow) ==> SampleLegal(l, AfterFlowAt(a, at, d.flow), d.soil, d.battery))
  }

  // The decision to sleep.

  function TrackIdle(a: AppState, icd: IcdState, now: nat): AppState
  {
    if icd.powerMode != PowerMode.Idle then a.(idleSince := None)
    else if a.idleSince.None? then a.(idleSince := Some(now))
    else a
  }

  function SleepFor(a: AppState, icd: IcdState, now: nat): Option<nat>
  {
    if icd.operatingMode != Lit || icd.powerMode != PowerMode.Idle || a.button.IsActive() then None
    else if a.idleSince.None? || Since(now, a.idleSince.value) < SLEEP_SETTLE then None
    else
      var idleMs := if icd.idleUntil.Some? then Since(icd.idleUntil.value, now) else icd.pollIntervalMs;
      Some(Max(Min(icd.pollIntervalMs, idleMs), SLEEP_MIN))
  }

  /** The edges that were waiting, taken at one instant. */
  function Drained(f: Fsm, edges: seq<Edge>, now: nat): Fsm
  {
    if edges == [] then f else EdgeNext(Drained(f, edges[..|edges| - 1], now), edges[|edges| - 1], now)
  }

  function Taken(edges: seq<Edge>, now: nat): seq<Entry>
  {
    if edges == [] then [] else Taken(edges[..|edges| - 1], now) + [EdgePolled(now, Some(edges[|edges| - 1]))]
  }

  /** Where a part of a boot leaves the application, whether it ends the boot, and
      the calls it makes. */
  datatype Turn = Turn(app: AppState, outcome: Option<Outcome>, calls: seq<Entry>)

  /** What a step does once nothing is due. No time passes in it. */
  function Decide(a: AppState, now: nat, icd: IcdState, edges: seq<Edge>): Turn
  {
    if !a.rebootCountPersisted && now >= a.rebootCountDue then
      Turn(a.(rebootCountPersisted := true), None, [RebootCountPersisted(now)])
    else
      var tracked := TrackIdle(a, icd, now);
      match SleepFor(tracked, icd, now)
      case None => Turn(tracked, None, [IcdRead(now, icd)])
      case Some(forMs) =>
        var drained := tracked.(button := Drained(tracked.button, edges, now));
        var calls := [IcdRead(now, icd)] + Taken(edges, now) + [EdgePolled(now, None)];
        if drained.button.IsActive() then Turn(drained, None, calls)
        else Turn(drained.(rebootCountPersisted := true), Some(Sleep(forMs)),
                  calls + if drained.rebootCountPersisted then [] else [RebootCountPersisted(now)])
  }

  // Events and deadlines.

  function OnEvent(a: AppState, event: Event, now: nat): Turn
  {
    var (button, gesture) :=
      match event
      case Button(edge) => (EdgeNext(a.button, edge, now), None)
      case Deadline => DeadlineNext(a.button, now)
      case Icd => (a.button, None);
    var b := a.(button := button);
    match gesture
    case None => Turn(b, None, [])
    case Some(SampleNow) => Turn(b.(sampleWithLed := true, nextSample := now), None, [ActiveRequested(now, None)])
    case Some(Calibrate) => Turn(b.(calibrationRequested := true), None, [ActiveRequested(now, Some(CALIBRATION_ACTIVE_HOLD))])
    case Some(FactoryReset) => Turn(b, Some(Outcome.FactoryReset), [])
  }

  function Consider(candidate: Option<nat>, now: nat, earliest: nat): nat
  {
    if candidate.Some? && now < candidate.value < earliest then candidate.value else earliest
  }

  function RebootCandidate(a: AppState): Option<nat>
  {
    if a.rebootCountPersisted then None else Some(a.rebootCountDue)
  }

  function SettleCandidate(a: AppState): Option<nat>
  {
    if a.idleSince.Some? then Some(SatAdd(a.idleSince.value, SLEEP_SETTLE)) else None
  }

  function NextDeadline(a: AppState, now: nat): nat
  {
    Consider(SettleCandidate(a), now,
             Consider(a.button.NextDeadline(), now,
                      Consider(RebootCandidate(a), now, a.nextSample)))
  }

  // The operational phase.

  datatype Answers = Answers(due: DueAnswers, icd: IcdState, edges: seq<Edge>, event: Event, until: nat)

  /** A boot that goes on from `at`, or has ended at it. */
  datatype Config = Running(app: AppState, at: nat) | Ended(outcome: Outcome, app: AppState, at: nat)

  datatype Run = Run(config: Config, trace: seq<Entry>)

  function Decision(a: AppState, at: nat, x: Answers): Turn
  {
    Decide(DueDone(a, at, x.due), DueAt(a, at, x.due), x.icd, x.edges)
  }

  function StepTrace(a: AppState, at: nat, x: Answers): seq<Entry>
  {
    DueTrace(a, at, x.due) + Decision(a, at, x).calls
  }

  function WaitDeadline(a: AppState, at: nat, x: Answers): nat
  {
    NextDeadline(Decision(a, at, x).app, DueAt(a, at, x.due))
  }

  /** A step, and then a wait and what it delivered, unless the step ended the boot. */
  function Round(a: AppState, at: nat, x: Answers): Run
  {
    var now, decision := DueAt(a, at, x.due), Decision(a, at, x);
    match decision.outcome
    case Some(outcome) => Run(Ended(outcome, decision.app, now), StepTrace(a, at, x))
    case None =>
      var turn := OnEvent(decision.app, x.event, x.until);
      Run(if turn.outcome.Some? then Ended(turn.outcome.value, turn.app, x.until) else Running(turn.app, x.until),
          StepTrace(a, at, x) + [Waited(now, WaitDeadline(a, at, x), x.event, x.until)] + turn.calls)
  }

  /** The calls of a round, part by part, and where it leaves the application. */
  lemma RoundParts(a: AppState, at: nat, x: Answers)
    ensures var turn, now, run := Decision(a, at, x), DueAt(a, at, x.due), Round(a, at, x);
            if turn.outcome.Some? then run.trace == DueTrace(a, at, x.due) + turn.calls && run.config.app == turn.app
            else
              && run.trace == DueTrace(a, at, x.due) + turn.calls
                              + ([Waited(now, NextDeadline(turn.app, now), x.event, x.until)] + OnEvent(turn.app, x.event, x.until).calls)
              && run.config.app == OnEvent(turn.app, x.event, x.until).app
  {
    hide DueDone, DueAt, DueTrace, Decide, OnEvent, NextDeadline;
  }

  predicate RoundLegal(l: Limits, a: AppState, at: nat, x: Answers)
  {
    && at <= HORIZON
    && DueLegal(l, a, at, x.due)
    && (Decision(a, at, x).outcome.None? ==>
          WaitContract(l.late, DueAt(a, at, x.due), WaitDeadline(a, at, x), x.event, x.until))
  }

  /** One turn of the loop as it happened: where it began, what the world answered, and
      what came of it. */
  datatype Lap = Lap(app: AppState, at: nat, answers: Answers, end: Run)

  /** Where a run from `a` at `at` stands after `n` of its laps. */
  function HeadAfter(a: AppState, at: nat, laps: seq<Lap>, n: nat): Config
    requires n <= |laps|
  {
    if n == 0 then Running(a, at) else laps[n - 1].end.config
  }

  /** Lap `n` begins where the ones before it left the boot, which they have not ended;
      the world kept its contract in it; and it came to what such a round comes to. */
  ghost predicate Follows(l: Limits, a: AppState, at: nat, laps: seq<Lap>, n: nat)
    requires n < |laps|
  {
    var lap := laps[n];
    && HeadAfter(a, at, laps, n) == Running(lap.app, lap.at)
    && RoundLegal(l, lap.app, lap.at, lap.answers)
    && lap.end == Round(lap.app, lap.at, lap.answers)
  }

  /** A run of the operational phase: any number of laps, on any world. */
  ghost predicate IsRun(l: Limits, a: AppState, at: nat, laps: seq<Lap>)
  {
    forall n: nat {:trigger Follows(l, a, at, laps, n)} :: n < |laps| ==> Follows(l, a, at, laps, n)
  }

  function Calls(laps: seq<Lap>): seq<Entry>
  {
    if laps == [] then [] else Calls(laps[..|laps| - 1]) + laps[|laps| - 1].end.trace
  }

  /** Where a run stands at last, and all the calls it made. */
  function Outcomes(a: AppState, at: nat, laps: seq<Lap>): Run
  {
    Run(HeadAfter(a, at, laps, |laps|), Calls(laps))
  }

  lemma NoLaps(l: Limits, a: AppState, at: nat)
    ensures IsRun(l, a, at, []) && Outcomes(a, at, []) == Run(Running(a, at), [])
  {
  }

  /** One more lap. */
  lemma RunGrows(l: Limits, a: AppState, at: nat, laps: seq<Lap>, lap: Lap)
    requires IsRun(l, a, at, laps) && Outcomes(a, at, laps).config == Running(lap.app, lap.at)
    requires RoundLegal(l, lap.app, lap.at, lap.answers) && lap.end == Round(lap.app, lap.at, lap.answers)
    ensures IsRun(l, a, at, laps + [lap])
    ensures Outcomes(a, at, laps + [lap]) == Run(lap.end.config, Outcomes(a, at, laps).trace + lap.end.trace)
  {
    hide RoundLegal, Round;
    var more := laps + [lap];
    assert more[..|laps|] == laps;
    forall n: nat | n < |more| ensures Follows(l, a, at, more, n) {
      if n < |laps| {
        assert Follows(l, a, at, laps, n);
      }
    }
  }

  /** A run without its last lap, and that lap. */
  lemma LastLap(l: Limits, a: AppState, at: nat, laps: seq<Lap>)
    requires IsRun(l, a, at, laps) && laps != []
    ensures var most, lap := laps[..|laps| - 1], laps[|laps| - 1];
            && IsRun(l, a, at, most) && Outcomes(a, at, most).config == Running(lap.app, lap.at)
            && RoundLegal(l, lap.app, lap.at, lap.answers) && lap.end == Round(lap.app, lap.at, lap.answers)
            && Outcomes(a, at, laps) == Run(lap.end.config, Outcomes(a, at, most).trace + lap.end.trace)
  {
    hide RoundLegal, Round;
    var most := laps[..|laps| - 1];
    assert Follows(l, a, at, laps, |most|);
    forall n: nat | n < |most| ensures Follows(l, a, at, most, n) {
      assert Follows(l, a, at, laps, n);
    }
  }

  // The wake phase.

  /** What a wait of the wake phase delivered. */
  datatype Delivery = Delivery(event: Event, until: nat)

  /** The waking press: a wait for the button's own deadline, and what came. */
  function Pump(a: AppState, at: nat, ds: seq<Delivery>): Run
  {
    if ds == [] then Run(Running(a, at), [])
    else
      var before, d := Pump(a, at, ds[..|ds| - 1]), ds[|ds| - 1];
      match before.config
      case Ended(_, _, _) => before
      case Running(b, t) =>
        var turn := OnEvent(b, d.event, d.until);
        Run(if turn.outcome.Some? then Ended(turn.outcome.value, turn.app, d.until) else Running(turn.app, d.until),
            before.trace + [Waited(t, b.button.deadline, d.event, d.until)] + turn.calls)
  }

  ghost predicate PumpLegal(l: Limits, a: AppState, at: nat, ds: seq<Delivery>)
  {
    ds != [] ==>
      && PumpLegal(l, a, at, ds[..|ds| - 1])
      && Pump(a, at, ds[..|ds| - 1]).config.Running?
      && var before, d := Pump(a, at, ds[..|ds| - 1]).config, ds[|ds| - 1];
         && before.app.button.WakingPressPending() && before.at <= HORIZON
         && WaitContract(l.late, before.at, before.app.button.deadline, d.event, d.until)
  }

  /** A deadline that has come is served: each one brings an undecided press nearer
      to its end, whatever the machine does with it. */
  lemma DeadlineIsServed(a: AppState, now: nat)
    requires a.button.WakingPressPending() && a.button.deadline <= now
    ensures Rank(OnEvent(a, Deadline, now).app.button.mode) < Rank(a.button.mode)
  {
  }

  lemma PumpStarts(l: Limits, a: AppState, at: nat)
    ensures PumpLegal(l, a, at, []) && Pump(a, at, []) == Run(Running(a, at), [])
  {
  }

  /** One more delivery. */
  lemma PumpExtends(l: Limits, a: AppState, at: nat, ds: seq<Delivery>, d: Delivery)
    requires PumpLegal(l, a, at, ds) && Pump(a, at, ds).config.Running?
    requires var before := Pump(a, at, ds).config;
             && before.app.button.WakingPressPending() && before.at <= HORIZON
             && WaitContract(l.late, before.at, before.app.button.deadline, d.event, d.until)
    ensures PumpLegal(l, a, at, ds + [d])
    ensures var before := Pump(a, at, ds);
            var turn := OnEvent(before.config.app, d.event, d.until);
            Pump(a, at, ds + [d]) ==
              Run(if turn.outcome.Some? then Ended(turn.outcome.value, turn.app, d.until) else Running(turn.app, d.until),
                  before.trace + [Waited(before.config.at, before.config.app.button.deadline, d.event, d.until)] + turn.calls)
  {
    assert (ds + [d])[..|ds|] == ds;
  }

  /** What a boot says before its button is asked. */
  function Preamble(boot: Boot, at: nat, calibration: Calibration, loadedAt: nat): seq<Entry>
  {
    (if boot.afterCrash then [LedSent(at, CRASHED_LED)] else [])
    + (if boot.wake == WakeCause.Button then [ActiveRequested(at, Some(BUTTON_WAKE_HOLD))] else [])
    + [CalibrationLoaded(at, calibration, loadedAt)]
  }
}
