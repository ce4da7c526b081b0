/**
 The application of one boot (`core/src/app.rs`), as the program has it: state
 that is updated in place, and loops over the ports. Every method follows the
 functions of `BootModel`; the answers of the world are collected in ghost results.
 */
module Application {
  import opened Machine
  import opened Vocabulary
  import opened Tuning
  import opened Measurement
  import opened Ports
  import opened BootModel
  import Button
  import Flow = CalibrationFlow

  const NO_ICD := IcdState(PowerMode.Active, Sit, 0, None)

  class App {
    var calibration: Calibration
    const button: Button.ButtonFsm
    var nextSample: nat
    var sampleWithLed: bool
    var calibrationRequested: bool
    var rebootCountDue: nat
    var rebootCountPersisted: bool
    var idleSince: Option<nat>

    function View(): AppState
      reads this, button
    {
      AppState(calibration, button.View(), nextSample, sampleWithLed, calibrationRequested,
               rebootCountDue, rebootCountPersisted, idleSince)
    }

    constructor (boot: Boot, calibration: Calibration)
      ensures View() == NewApp(boot, calibration) && fresh(button)
    {
      this.calibration := calibration;
      button := new Button.ButtonFsm(boot.wake == WakeCause.Button, boot.now);
      nextSample := boot.now;
      sampleWithLed := false;
      calibrationRequested := false;
      rebootCountPersisted := boot.wake != WakeCause.Cold;
      rebootCountDue := SatAdd(boot.now, REBOOT_COUNT_HEALTHY_AFTER);
      idleSince := None;
    }

    method Sample(ports: World, withLed: bool) returns (ghost soil: Flow.Reading, ghost battery: Flow.Reading)
      modifies ports`clock, ports`trace
      ensures SampleLegal(ports.limits, old(ports.clock), soil, battery) && ports.clock == battery.until
      ensures ports.trace == old(ports.trace) + SampleTrace(calibration, withLed, old(ports.clock), soil, battery)
    {
      var soilMv := ports.ReadSoilMv();
      soil := Flow.Reading(soilMv, ports.clock);
      var percent := SoilMoisturePercent(AsI32(soilMv), calibration.dryMv, calibration.wetMv);
      ports.ReportSoil(percent);
      if withLed {
        ports.SendLed(ClassifyMoisture(percent));
      }
      var batteryMv := ports.ReadBatteryMv();
      battery := Flow.Reading(batteryMv, ports.clock);
      ports.ReportBattery(EstimateBattery(batteryMv));
    }

    /** The calibration a gesture asked for, run to completion. */
    method CalibrateNow(ports: World) returns (ghost flow: Flow.Answers)
      requires calibrationRequested
      modifies this, ports`clock, ports`durable, ports`trace
      ensures Flow.Legal(ports.limits, old(ports.clock), flow)
      ensures View() == AfterFlow(old(View()), flow) && ports.clock == AfterFlowAt(old(View()), old(ports.clock), flow)
      ensures ports.trace == old(ports.trace) + FlowTrace(old(View()), old(ports.clock), flow)
      ensures ports.durable == if Flow.OutcomeOf(flow).Accepted? then calibration else old(ports.durable)
    {
      calibrationRequested := false;
      var outcome;
      outcome, flow := Flow.Run(ports);
      if outcome.Accepted? {
        calibration := outcome.calibration;
      }
    }

    /** The reading that is due. */
    method SampleNow(ports: World) returns (ghost soil: Flow.Reading, ghost battery: Flow.Reading)
      modifies this, ports`clock, ports`trace
      ensures SampleLegal(ports.limits, old(ports.clock), soil, battery) && ports.clock == battery.until
      ensures View() == old(View()).(sampleWithLed := false, nextSample := SatAdd(battery.until, SAMPLE_PERIOD))
      ensures ports.trace == old(ports.trace) + SampleTrace(calibration, old(sampleWithLed), old(ports.clock), soil, battery)
    {
      var withLed := sampleWithLed;
      sampleWithLed := false;
      soil, battery := Sample(ports, withLed);
      var now := ports.Now();
      nextSample := SatAdd(now, SAMPLE_PERIOD);
    }

    /** A calibration first, then the reading; each at most once. */
    method StepWake(ports: World) returns (ghost due: DueAnswers)
      requires ports.clock <= HORIZON
      modifies this, ports`clock, ports`durable, ports`trace
      ensures DueLegal(ports.limits, old(View()), old(ports.clock), due)
      ensures View() == DueDone(old(View()), old(ports.clock), due)
      ensures ports.clock == DueAt(old(View()), old(ports.clock), due)
      ensures ports.trace == old(ports.trace) + DueTrace(old(View()), old(ports.clock), due)
      ensures ports.durable == if old(calibrationRequested) && Flow.OutcomeOf(due.flow).Accepted? then calibration else old(ports.durable)
    {
      ghost var start := Doing(View(), ports.clock, ports.trace, ports.durable);
      ghost var sampled := false;
      due := NOTHING_DUE;
      while true
        invariant InStep(ports.limits, start, due, sampled, Doing(View(), ports.clock, ports.trace, ports.durable))
        decreases calibrationRequested, !sampled
      {
        var now := ports.Now();
        ghost var before := Doing(View(), ports.clock, ports.trace, ports.durable);
        if calibrationRequested {
          ghost var flow := CalibrateNow(ports);
          due := due.(flow := flow);
          continue;
        }
        if now >= nextSample {
          NotTwice(ports.limits, start, due, sampled, before);
          ghost var soil, battery := SampleNow(ports);
          SampledInStep(ports.limits, start, due, before, soil, battery);
          due, sampled := due.(soil := soil, battery := battery), true;
          continue;
        }
        NothingDue(ports.limits, start, due, sampled, before);
        break;
      }
    }

    method PersistRebootCount(ports: World)
      modifies this`rebootCountPersisted, ports`trace
      ensures rebootCountPersisted && ports.trace == old(ports.trace) + [RebootCountPersisted(ports.clock)]
    {
      ports.PersistRebootCount();
      rebootCountPersisted := true;
    }

    /** Keeps the start of the unbroken run of idle readings, and forgets it at an active one. */
    method TrackIdle(icd: IcdState, now: nat)
      modifies this`idleSince
      ensures View() == BootModel.TrackIdle(old(View()), icd, now)
    {
      if icd.powerMode == PowerMode.Idle {
        if idleSince.None? {
          idleSince := Some(now);
        }
      } else {
        idleSince := None;
      }
    }

    /** Takes every edge that is waiting. No edge completes a gesture. */
    method DrainButton(ports: World) returns (ghost edges: seq<Edge>)
      modifies button, ports`supply, ports`trace
      ensures View() == old(View()).(button := Drained(old(View()).button, edges, ports.clock))
      ensures ports.trace == old(ports.trace) + Taken(edges, ports.clock) + [EdgePolled(ports.clock, None)]
      ensures ports.supply <= old(ports.supply)
    {
      edges := [];
      var edge := ports.TryNextButtonEdge();
      while edge.Some?
        invariant View() == old(View()).(button := Drained(old(View()).button, edges, ports.clock))
        invariant ports.trace == old(ports.trace) + Taken(edges, ports.clock) + [EdgePolled(ports.clock, edge)]
        invariant ports.supply <= old(ports.supply)
        decreases ports.supply, edge.Some?
      {
        var now := ports.Now();
        var gesture := button.OnEdge(edge.value, now);
        assert (edges + [edge.value])[..|edges|] == edges;
        edges := edges + [edge.value];
        edge := ports.TryNextButtonEdge();
      }
    }

    /** What a step does once nothing is due. */
    method EndIfOver(ports: World) returns (outcome: Option<Outcome>, ghost icd: IcdState, ghost edges: seq<Edge>)
      modifies this, button, ports`supply, ports`trace
      ensures var turn := Decide(old(View()), ports.clock, icd, edges);
              View() == turn.app && outcome == turn.outcome && ports.trace == old(ports.trace) + turn.calls
      ensures calibration == old(calibration)
      ensures ports.supply <= old(ports.supply)
    {
      hide SleepFor, Drained, Taken;
      icd, edges := NO_ICD, [];
      var now := ports.Now();
      if !rebootCountPersisted && now >= rebootCountDue {
        PersistRebootCount(ports);
        return None, icd, edges;
      }
      now := ports.Now();
      var state := ports.Icd();
      icd := state;
      TrackIdle(state, now);
      var forMs := SleepFor(View(), state, now);
      if forMs.None? {
        return None, icd, edges;
      }
      edges := DrainButton(ports);
      if button.View().IsActive() {
        return None, icd, edges;
      }
      if !rebootCountPersisted {
        PersistRebootCount(ports);
      }
      return Some(Sleep(forMs.value)), icd, edges;
    }

    /** One pass of the loop up to its wait: the due work, then the decision to sleep. */
    method Step(ports: World) returns (outcome: Option<Outcome>, ghost due: DueAnswers, ghost icd: IcdState, ghost edges: seq<Edge>)
      requires ports.clock <= HORIZON
      modifies this, button, ports`clock, ports`durable, ports`supply, ports`trace
      ensures DueLegal(ports.limits, old(View()), old(ports.clock), due)
      ensures ports.clock == DueAt(old(View()), old(ports.clock), due)
      ensures var turn := Decide(DueDone(old(View()), old(ports.clock), due), ports.clock, icd, edges);
              && View() == turn.app && outcome == turn.outcome
              && ports.trace == old(ports.trace) + DueTrace(old(View()), old(ports.clock), due) + turn.calls
      ensures old(calibration) == old(ports.durable) ==> calibration == ports.durable
      ensures ports.supply <= old(ports.supply)
    {
      due := StepWake(ports);
      outcome, icd, edges := EndIfOver(ports);
    }

    /** What a wait brought, passed to the button, and what its gesture asks for. */
    method OnEvent(event: Event, ports: World) returns (outcome: Option<Outcome>)
      modifies this, button, ports`trace
      ensures var turn := BootModel.OnEvent(old(View()), event, ports.clock);
              View() == turn.app && outcome == turn.outcome && ports.trace == old(ports.trace) + turn.calls
      ensures calibration == old(calibration)
    {
      var now := ports.Now();
      var gesture: Option<Button.Gesture>;
      match event {
        case Button(edge) => gesture := button.OnEdge(edge, now);
        case Deadline => gesture := button.OnDeadline(now);
        case Icd => gesture := None;
      }
      match gesture {
        case None =>
          outcome := None;
        case Some(SampleNow) =>
          ports.RequestActive(None);
          sampleWithLed := true;
          nextSample := now;
          outcome := None;
        case Some(Calibrate) =>
          ports.RequestActive(Some(CALIBRATION_ACTIVE_HOLD));
          calibrationRequested := true;
          outcome := None;
        case Some(FactoryReset) =>
          outcome := Some(Outcome.FactoryReset);
      }
    }
  }

  /** How the wake phase ends: with the application the operational phase goes on
      from, with the end of the boot, or beyond the range of the clock the model
      follows. */
  datatype WakeEnd = Ready(app: App) | Over(outcome: Outcome) | OutOfRange

  /** What a boot says first, before its button is asked. */
  method Announce(ports: World, boot: Boot) returns (calibration: Calibration, ghost loadedAt: nat)
    modifies ports`clock, ports`trace
    ensures old(ports.clock) <= ports.clock == loadedAt <= old(ports.clock) + ports.limits.load
    ensures calibration == ports.durable
    ensures ports.trace == old(ports.trace) + Preamble(boot, old(ports.clock), calibration, loadedAt)
  {
    if boot.afterCrash {
      ports.SendLed(CRASHED_LED);
    }
    if boot.wake == WakeCause.Button {
      ports.RequestActive(Some(BUTTON_WAKE_HOLD));
    }
    calibration := ports.LoadCalibration();
    loadedAt := ports.clock;
  }

  /** The waking press, until it has said what it wants. It ends for every world
      that holds a finite supply of edges and notices. */
  method ResolvePress(ports: World, app: App) returns (outcome: Option<Outcome>, ghost ds: seq<Delivery>)
    requires app.View().button.waking ==> app.View().button.NextDeadline().Some?
    modifies app, app.button, ports`clock, ports`supply, ports`trace
    ensures PumpLegal(ports.limits, old(app.View()), old(ports.clock), ds)
    ensures var run := Pump(old(app.View()), old(ports.clock), ds);
            && ports.trace == old(ports.trace) + run.trace
            && run.config == match outcome
                             case Some(o) => Ended(o, app.View(), ports.clock)
                             case None => Running(app.View(), ports.clock)
    ensures outcome.None? ==> !app.View().button.WakingPressPending() || ports.clock > HORIZON
    ensures app.calibration == old(app.calibration)
  {
    hide BootModel.OnEvent, PumpLegal, Pump;
    PumpStarts(ports.limits, app.View(), ports.clock);
    ghost var a, at := app.View(), ports.clock;
    ds := [];
    while app.button.View().WakingPressPending() && ports.clock <= HORIZON
      invariant PumpLegal(ports.limits, a, at, ds)
      invariant Pump(a, at, ds).config == Running(app.View(), ports.clock)
      invariant ports.trace == old(ports.trace) + Pump(a, at, ds).trace
      invariant app.calibration == old(app.calibration)
      decreases ports.supply, Button.Rank(app.button.mode)
    {
      ghost var before := ds;
      var event := ports.NextEvent(app.button.View().deadline);
      ds := ds + [Delivery(event, ports.clock)];
      PumpExtends(ports.limits, a, at, before, Delivery(event, ports.clock));
      if event == Deadline {
        DeadlineIsServed(app.View(), ports.clock);
      }
      outcome := app.OnEvent(event, ports);
      if outcome.Some? {
        return;
      }
    }
    outcome := None;
  }

  /** The wake phase: the waking press resolved, the one reading taken. */
  method RunWake(ports: World, boot: Boot)
    returns (end: WakeEnd, ghost loadedAt: nat, ghost ds: seq<Delivery>, ghost due: DueAnswers)
    modifies ports`clock, ports`durable, ports`supply, ports`trace
    ensures old(ports.clock) <= loadedAt <= old(ports.clock) + ports.limits.load
    ensures var a := NewApp(boot, old(ports.durable));
            var run := Pump(a, loadedAt, ds);
            var said := old(ports.trace) + Preamble(boot, old(ports.clock), old(ports.durable), loadedAt) + run.trace;
            && PumpLegal(ports.limits, a, loadedAt, ds)
            && match end
               case Over(outcome) =>
                 && run.config.Ended? && run.config.outcome == outcome && run.config.at == ports.clock
                 && ports.trace == said && ports.durable == old(ports.durable)
               case OutOfRange =>
                 run.config.Running? && run.config.at == ports.clock > HORIZON
               case Ready(app) =>
                 && run.config.Running? && !run.config.app.button.WakingPressPending()
                 && run.config.at <= HORIZON
                 && DueLegal(ports.limits, run.config.app, run.config.at, due)
                 && app.View() == DueDone(run.config.app, run.config.at, due)
                 && ports.clock == DueAt(run.config.app, run.config.at, due)
                 && ports.trace == said + DueTrace(run.config.app, run.config.at, due)
                 && app.calibration == ports.durable
                 && fresh(app) && fresh(app.button)
  {
    due := NOTHING_DUE;
    var calibration;
    calibration, loadedAt := Announce(ports, boot);
    var app := new App(boot, calibration);
    var outcome;
    outcome, ds := ResolvePress(ports, app);
    if outcome.Some? {
      return Over(outcome.value), loadedAt, ds, due;
    }
    if ports.clock > HORIZON {
      return OutOfRange, loadedAt, ds, due;
    }
    due := app.StepWake(ports);
    end := Ready(app);
  }

  /** The operational phase, for as long as `budget` waits last and the clock is in
      range. `None` is a boot that is still running then. */
  method RunBoot(ports: World, app: App, budget: nat) returns (outcome: Option<Outcome>, ghost laps: seq<Lap>)
    modifies app, app.button, ports`clock, ports`durable, ports`supply, ports`trace
    ensures IsRun(ports.limits, old(app.View()), old(ports.clock), laps)
    ensures var run := Outcomes(old(app.View()), old(ports.clock), laps);
            && ports.trace == old(ports.trace) + run.trace
            && run.config == match outcome
                             case Some(o) => Ended(o, app.View(), ports.clock)
                             case None => Running(app.View(), ports.clock)
    ensures outcome.None? ==> |laps| == budget || ports.clock > HORIZON
    ensures old(app.calibration) == old(ports.durable) ==> app.calibration == ports.durable
  {
    hide *;
    ghost var a, at := app.View(), ports.clock;
    NoLaps(ports.limits, a, at);
    var waits := 0;
    laps := [];
    while waits < budget && ports.clock <= HORIZON
      invariant waits == |laps| <= budget
      invariant IsRun(ports.limits, a, at, laps)
      invariant Outcomes(a, at, laps).config == Running(app.View(), ports.clock)
      invariant ports.trace == old(ports.trace) + Outcomes(a, at, laps).trace
      invariant old(app.calibration) == old(ports.durable) ==> app.calibration == ports.durable
    {
      ghost var lap;
      outcome, lap := RunRound(ports, app);
      RunGrows(ports.limits, a, at, laps, lap);
      laps := laps + [lap];
      waits := waits + 1;
      if outcome.Some? {
        return;
      }
    }
    outcome := None;
  }

  /** The body of the loop of the operational phase. */
  method RunRound(ports: World, app: App) returns (outcome: Option<Outcome>, ghost lap: Lap)
    requires ports.clock <= HORIZON
    modifies app, app.button, ports`clock, ports`durable, ports`supply, ports`trace
    ensures lap.app == old(app.View()) && lap.at == old(ports.clock)
    ensures RoundLegal(ports.limits, lap.app, lap.at, lap.answers) && lap.end == Round(lap.app, lap.at, lap.answers)
    ensures && ports.trace == old(ports.trace) + lap.end.trace
            && lap.end.config == match outcome
                           case Some(o) => Ended(o, app.View(), ports.clock)
                           case None => Running(app.View(), ports.clock)
    ensures old(app.calibration) == old(ports.durable) ==> app.calibration == ports.durable
  {
    hide Decide, DueDone, DueAt, DueTrace, DueLegal, BootModel.OnEvent, NextDeadline;
    ghost var a, at := app.View(), ports.clock;
    ghost var due, icd, edges;
    outcome, due, icd, edges := app.Step(ports);
    if outcome.Some? {
      ghost var x := Answers(due, icd, edges, Deadline, ports.clock);
      lap := Lap(a, at, x, Round(a, at, x));
      return;
    }
    var now := ports.Now();
    var event := ports.NextEvent(NextDeadline(app.View(), now));
    outcome := app.OnEvent(event, ports);
    ghost var x := Answers(due, icd, edges, event, ports.clock);
    lap := Lap(a, at, x, Round(a, at, x));
  }

  /** Where the work that is due has got to: the application, the instant, the
      trace and the calibration in storage. */
  datatype Doing = Doing(app: AppState, at: nat, trace: seq<Entry>, durable: Calibration)

  ghost predicate InStep(l: Limits, start: Doing, due: DueAnswers, sampled: bool, now: Doing)
  {
    var a, at := start.app, start.at;
    if now.app.calibrationRequested then now == start && !sampled && at <= HORIZON
    else
      && at <= HORIZON
      && (a.calibrationRequested ==> Flow.Legal(l, at, due.flow))
      && now.durable == (if a.calibrationRequested && Flow.OutcomeOf(due.flow).Accepted? then now.app.calibration else start.durable)
      && if sampled then
           && SampleIsDue(a, at, due.flow) && SampleLegal(l, AfterFlowAt(a, at, due.flow), due.soil, due.battery)
           && now.app == DueDone(a, at, due) && now.at == due.battery.until
           && now.trace == start.trace + DueTrace(a, at, due)
         else
           && now.app == AfterFlow(a, due.flow) && now.at == AfterFlowAt(a, at, due.flow)
           && now.trace == start.trace + FlowTrace(a, at, due.flow)
  }

  /** The flow and one reading take far less than the rest of the clock's range. */
  lemma NotTwice(l: Limits, start: Doing, due: DueAnswers, sampled: bool, now: Doing)
    requires InStep(l, start, due, sampled, now) && !now.app.calibrationRequested && now.at >= now.app.nextSample
    ensures !sampled
  {
  }

  lemma NothingDue(l: Limits, start: Doing, due: DueAnswers, sampled: bool, now: Doing)
    requires InStep(l, start, due, sampled, now) && !now.app.calibrationRequested && now.at < now.app.nextSample
    ensures DueLegal(l, start.app, start.at, due)
    ensures now.app == DueDone(start.app, start.at, due) && now.at == DueAt(start.app, start.at, due)
    ensures now.trace == start.trace + DueTrace(start.app, start.at, due)
  {
  }

  lemma SampledInStep(l: Limits, start: Doing, due: DueAnswers, before: Doing, soil: Flow.Reading, battery: Flow.Reading)
    requires InStep(l, start, due, false, before) && !before.app.calibrationRequested && before.at >= before.app.nextSample
    requires SampleLegal(l, before.at, soil, battery)
    ensures var b := before.app;
            InStep(l, start, due.(soil := soil, battery := battery), true,
                   before.(app := b.(sampleWithLed := false, nextSample := SatAdd(battery.until, SAMPLE_PERIOD)),
                           at := battery.until,
                           trace := before.trace + SampleTrace(b.calibration, b.sampleWithLed, before.at, soil, battery)))
  {
  }
}
