/**
 The simulator at work (`World::drive`, `run_boot` and `run_until` in
 `sim/src/world.rs`): the application played over the simulator's own ports.

 The methods make the calls the application makes, decision by decision, with the
 functions of `BootModel`; what they promise is that the calls are a run of it. So
 every theorem about runs holds of the boots of the simulator, which are shown to come
 to an end: each one with its outcome, or with one of the simulator's own checks.
 */
module Simulation {
  import opened Machine
  import opened Vocabulary
  import opened Tuning
  import opened BootModel
  import opened Simulator
  import Button
  import Measurement
  import Watching
  import OperationalPhase
  import BootTheorems
  import WakePhase
  import Device
  import opened Progress
  import Overdue
  import Flow = CalibrationFlow

  // One round.

  method PlayCapture(world: SimWorld, color: Color) returns (mv: int, ghost held: nat, ghost r: Flow.Reading)
    requires world.Valid()
    modifies world`clock, world`stack, world`trace, world.soil
    ensures world.Valid() && world.Passed()
    ensures mv == AsI32(r.mv) && world.Time() == r.until && Flow.HoldLegal(SIM_LIMITS, old(world.Time()), held, r)
    ensures world.trace == old(world.trace) + Flow.CaptureTrace(old(world.Time()), color, held, r)
  {
    hide SimWorld.Ahead, InStep;
    world.SendLed(Blink(color, 10, SOIL_CAL_BLINK_PERIOD));
    world.Delay(SOIL_CAL_HOLD);
    held := world.Time();
    var reading := world.ReadSoilMv();
    r := Flow.Reading(reading, world.Time());
    mv := AsI32(reading);
  }

  /** The calibration flow. This world's store never fails. */
  method PlayFlow(world: SimWorld) returns (outcome: Flow.CalibrationOutcome, ghost f: Flow.Answers)
    requires world.Valid()
    modifies world`clock, world`stack, world`trace, world`calibration, world`calibrationWrites, world.soil
    ensures world.Valid() && world.Passed()
    ensures Flow.Legal(SIM_LIMITS, old(world.Time()), f) && world.Time() == Flow.EndOf(f) && outcome == Flow.OutcomeOf(f)
    ensures world.calibration == if outcome.Accepted? then outcome.calibration else old(world.calibration)
    ensures world.trace == old(world.trace) + Flow.TraceOf(old(world.Time()), f)
  {
    hide SimWorld.Ahead, InStep, Stack.Unheard;
    var dryMv, red, dry := PlayCapture(world, Red);
    var wetMv, green, wet := PlayCapture(world, Green);
    f := Flow.Answers(red, dry, green, wet, true, wet.until);
    if WrapI32(dryMv - wetMv) < SOIL_CAL_MIN_SPAN_MV {
      outcome := Flow.Rejected(Flow.SpanTooSmall);
      world.SendLed(REJECTED_LED);
    } else {
      var stored := world.StoreCalibration(Calibration(dryMv, wetMv));
      outcome := Flow.Accepted(Calibration(dryMv, wetMv));
    }
  }

  method PlaySample(world: SimWorld, c: Calibration, withLed: bool) returns (ghost soil: Flow.Reading, ghost battery: Flow.Reading)
    requires world.Valid()
    modifies world`clock, world`stack, world`trace, world.soil, world.battery
    ensures world.Valid() && world.Passed()
    ensures SampleLegal(SIM_LIMITS, old(world.Time()), soil, battery) && world.Time() == battery.until
    ensures world.trace == old(world.trace) + SampleTrace(c, withLed, old(world.Time()), soil, battery)
  {
    hide SimWorld.Ahead, InStep, Stack.Unheard, MoistureOf, Measurement.EstimateBattery, SampleTrace;
    ghost var at, said := world.Time(), world.trace;
    var soilMv := world.ReadSoilMv();
    soil := Flow.Reading(soilMv, world.Time());
    var percent := MoistureOf(c, soilMv);
    world.ReportSoil(percent);
    if withLed {
      world.SendLed(ClassifyMoisture(percent));
    }
    var batteryMv := world.ReadBatteryMv();
    battery := Flow.Reading(batteryMv, world.Time());
    world.ReportBattery(Measurement.EstimateBattery(batteryMv));
    SampleCalls(said, c, withLed, at, soil, battery);
  }

  lemma SampleCalls(said: seq<Entry>, c: Calibration, withLed: bool, at: nat, soil: Flow.Reading, battery: Flow.Reading)
    ensures var first := said + [SoilRead(at, soil.mv, soil.until)] + [SoilReported(soil.until, MoistureOf(c, soil.mv))];
            var shown := if withLed then first + [LedSent(soil.until, ClassifyMoisture(MoistureOf(c, soil.mv)))] else first;
            said + SampleTrace(c, withLed, at, soil, battery) ==
              shown + [BatteryRead(soil.until, battery.mv, battery.until)] + [BatteryReported(battery.until, Measurement.EstimateBattery(battery.mv))]
  {
    hide MoistureOf, Measurement.EstimateBattery;
  }

  /** The work that is due. */
  method PlayDue(world: SimWorld, a: AppState) returns (b: AppState, ghost due: DueAnswers)
    requires world.Valid()
    modifies world`clock, world`stack, world`trace, world`calibration, world`calibrationWrites, world.soil, world.battery
    ensures world.Valid() && world.Passed()
    ensures DueLegal(SIM_LIMITS, a, old(world.Time()), due)
    ensures b == DueDone(a, old(world.Time()), due) && world.Time() == DueAt(a, old(world.Time()), due)
    ensures world.trace == old(world.trace) + DueTrace(a, old(world.Time()), due)
    ensures a.calibration == old(world.calibration) ==> b.calibration == world.calibration
  {
    hide SimWorld.Ahead, InStep, Stack.Unheard, Flow.Legal, Flow.TraceOf, Flow.OutcomeOf, Flow.EndOf, SampleTrace;
    b := a;
    ghost var flow, soil, battery := NO_FLOW, NO_READING, NO_READING;
    if b.calibrationRequested {
      var outcome;
      outcome, flow := PlayFlow(world);
      b := b.(calibrationRequested := false, calibration := if outcome.Accepted? then outcome.calibration else b.calibration);
    }
    ghost var flowed := world.trace;
    assert flowed == old(world.trace) + FlowTrace(a, old(world.Time()), flow) && b == AfterFlow(a, flow);
    if world.Time() >= b.nextSample {
      soil, battery := PlaySample(world, b.calibration, b.sampleWithLed);
      b := b.(sampleWithLed := false, nextSample := SatAdd(world.Time(), SAMPLE_PERIOD));
    }
    due := DueAnswers(flow, soil, battery);
  }

  lemma OneMoreEdge(f: Button.Fsm, edges: seq<Edge>, edge: Edge, now: nat, said: seq<Entry>)
    ensures Drained(f, edges + [edge], now) == Button.EdgeNext(Drained(f, edges, now), edge, now)
    ensures said + Taken(edges + [edge], now) == said + Taken(edges, now) + [EdgePolled(now, Some(edge))]
  {
    assert (edges + [edge])[..|edges|] == edges;
  }

  lemma NoEdge(f: Button.Fsm, now: nat, said: seq<Entry>)
    ensures Drained(f, [], now) == f && said + Taken([], now) == said
  {
  }

  /** The edges that are waiting. */
  method PlayDrain(world: SimWorld, f: Button.Fsm) returns (g: Button.Fsm, ghost edges: seq<Edge>)
    requires world.Valid()
    modifies world`queue, world`trace
    ensures world.Valid() && world.Kept()
    ensures g == Drained(f, edges, world.Time()) && TailOf(world.queue, old(world.queue))
    ensures old(world.queue) == [] ==> edges == []
    ensures world.trace == old(world.trace) + Taken(edges, world.Time()) + [EdgePolled(world.Time(), None)]
  {
    hide SimWorld.Ahead, InStep, Stack.Unheard, TailOf, Drained, Taken, Button.EdgeNext;
    g, edges := f, [];
    ghost var now, said, before := world.Time(), world.trace, world.trace;
    NoEdge(f, now, said);
    TailOfItself(world.queue);
    var edge := world.TryNextButtonEdge();
    TailOfFirst(world.queue, old(world.queue));
    while edge.Some?
      invariant world.Valid() && world.Kept() && world.Time() == now && TailOf(world.queue, old(world.queue))
      invariant g == Drained(f, edges, now) && before == said + Taken(edges, now)
      invariant world.trace == before + [EdgePolled(now, edge)]
      invariant old(world.queue) == [] ==> edges == [] && edge.None?
      decreases |world.queue|, edge.Some?
    {
      ghost var held := world.queue;
      g := Button.EdgeNext(g, edge.value, world.Time());
      OneMoreEdge(f, edges, edge.value, now, said);
      edges, before := edges + [edge.value], world.trace;
      edge := world.TryNextButtonEdge();
      TailOfFirst(world.queue, held);
      TailOfTail(world.queue, held, old(world.queue));
    }
  }

  /** The decision to sleep. */
  method PlayDecision(world: SimWorld, a: AppState) returns (b: AppState, outcome: Option<Outcome>, ghost icd: IcdState, ghost edges: seq<Edge>)
    requires world.Valid()
    modifies world`queue, world`trace, world`rebootCountWrites
    ensures world.Valid() && world.Kept()
    ensures TailOf(world.queue, old(world.queue))
    ensures icd == world.stack.State(world.clock, world.bootAt) && (old(world.queue) == [] ==> edges == [])
    ensures var turn := Decide(a, world.Time(), icd, edges);
            b == turn.app && outcome == turn.outcome && world.trace == old(world.trace) + turn.calls
  {
    hide SimWorld.Ahead, InStep, Stack.Unheard, TailOf, SleepFor, Taken, Drained;
    TailOfItself(world.queue);
    icd, edges, b := world.stack.State(world.clock, world.bootAt), [], a;
    if !b.rebootCountPersisted && world.Time() >= b.rebootCountDue {
      world.PersistRebootCount();
      return b.(rebootCountPersisted := true), None, icd, edges;
    }
    var state := world.Icd();
    b := TrackIdle(b, state, world.Time());
    var forMs := SleepFor(b, state, world.Time());
    if forMs.None? {
      return b, None, icd, edges;
    }
    var button;
    button, edges := PlayDrain(world, b.button);
    b := b.(button := button);
    if button.IsActive() {
      return b, None, icd, edges;
    }
    if !b.rebootCountPersisted {
      world.PersistRebootCount();
    }
    return b.(rebootCountPersisted := true), Some(Sleep(forMs.value)), icd, edges;
  }

  /** An event, and what it asks of the stack. */
  method PlayEvent(world: SimWorld, a: AppState, event: Event) returns (b: AppState, outcome: Option<Outcome>)
    requires world.Valid()
    modifies world`stack, world`trace
    ensures world.Valid() && world.stack.activeUntil >= old(world.stack.activeUntil) && world.stack.litAt == old(world.stack.litAt)
    ensures var turn := OnEvent(a, event, world.Time());
            b == turn.app && outcome == turn.outcome && world.trace == old(world.trace) + turn.calls
    ensures OnEvent(a, event, world.Time()).calls == [] ==> world.stack == old(world.stack)
    ensures event != Deadline ==> world.stack == old(world.stack)
  {
    hide SimWorld.Ahead, InStep, Stack.Unheard;
    var turn := OnEvent(a, event, world.Time());
    if turn.calls != [] {
      assert turn.calls == [ActiveRequested(world.Time(), turn.calls[0].hold)];
      world.RequestActive(turn.calls[0].hold);
    }
    return turn.app, turn.outcome;
  }

  /** Where a boot stands: it goes on, has ended, or the simulator has given up on it. */
  datatype Played = GoesOn(app: AppState) | Ends(outcome: Outcome, app: AppState) | GivesUp

  function Standing(p: Played, at: nat): Config
    requires !p.GivesUp?
  {
    match p
    case GoesOn(app) => Running(app, at)
    case Ends(outcome, app) => Ended(outcome, app, at)
  }

  /** The time a boot has left before the simulator gives up on it. */
  function Left(world: SimWorld): nat
    reads world`clock, world`bootAt
  {
    Max(0, world.bootAt + world.bootLimit + 1 - world.clock)
  }

  /** What is still to come, in a world as it is now, and as it was. */
  twostate predicate Fewer(world: SimWorld)
    reads world`clock, world`bootAt, world`queue, world`stack
  {
    LessToCome(|old(world.queue)|, old(Left(world)), old(world.Unheard()), |world.queue|, Left(world), world.Unheard())
  }

  twostate predicate NoMore(world: SimWorld)
    reads world`clock, world`bootAt, world`queue, world`stack
  {
    || |world.queue| < |old(world.queue)|
    || (|world.queue| == |old(world.queue)| && Left(world) <= old(Left(world)) && world.Unheard() <= old(world.Unheard()))
  }

  /** The due work and the decision; and if the boot goes on, its next wait is for an
      instant still to come. */
  method PlayStep(world: SimWorld, a: AppState) returns (b: AppState, outcome: Option<Outcome>, ghost x: Answers)
    requires world.Valid() && world.Time() <= HORIZON && a.nextSample <= world.Time() + SAMPLE_PERIOD
    modifies world, world.soil, world.battery
    ensures world.Valid() && world.Kept() && TailOf(world.queue, old(world.queue)) && NoMore(world)
    ensures world.stack.activeUntil == old(world.stack.activeUntil)
    ensures DueLegal(SIM_LIMITS, a, old(world.Time()), x.due) && world.Time() == DueAt(a, old(world.Time()), x.due)
    ensures var turn := Decision(a, old(world.Time()), x); b == turn.app && outcome == turn.outcome
    ensures x.icd == world.stack.State(world.clock, world.bootAt) && (old(world.queue) == [] ==> x.edges == [])
    ensures world.trace == old(world.trace) + StepTrace(a, old(world.Time()), x)
    ensures a.calibration == old(world.calibration) ==> b.calibration == world.calibration
    ensures world.Time() < NextDeadline(b, world.Time()) && x.event == Deadline && x.until == world.Time()
  {
    hide SimWorld.Ahead, InStep, Stack.Unheard, TailOf, Decide, DueDone, DueAt, DueTrace, DueLegal, NextDeadline;
    ghost var at := world.Time();
    var c;
    ghost var due, icd, edges;
    c, due := PlayDue(world, a);
    OperationalPhase.DueTakes(SIM_LIMITS, a, at, due);
    ghost var held := world.queue;
    b, outcome, icd, edges := PlayDecision(world, c);
    TailIsShorter(world.queue, held);
    Overdue.DecisionLeavesOverdue(c, world.Time(), icd, edges);
    DecisionKeepsTheCalibration(c, world.Time(), icd, edges);
    WaitIsInTheFuture(b, world.Time());
    x := Answers(due, icd, edges, Deadline, world.Time());
  }

  lemma WaitIsInTheFuture(a: AppState, now: nat)
    requires now < a.nextSample
    ensures now < NextDeadline(a, now)
  {
  }

  lemma DecisionKeepsTheCalibration(a: AppState, now: nat, icd: IcdState, edges: seq<Edge>)
    ensures Decide(a, now, icd, edges).app.calibration == a.calibration
  {
  }

  lemma EventKeepsTheCalibration(a: AppState, event: Event, now: nat)
    ensures OnEvent(a, event, now).app.calibration == a.calibration
  {
  }

  /** A wait, and what it brought; or the simulator gives up on it. */
  method PlayWait(world: SimWorld, a: AppState, deadline: nat) returns (end: Played, ghost event: Event)
    requires world.Valid()
    modifies world`clock, world`stack, world`queue, world`trace
    ensures world.Valid() && world.Kept() && TailOf(world.queue, old(world.queue))
    ensures old(world.clock < Calm(world.stack)) ==> world.clock <= old(Calm(world.stack))
    ensures end.GivesUp? ==>
              && event == Deadline && world.stack.activeUntil == old(world.stack.activeUntil)
              && GaveUp(world.bootAt, world.bootLimit, old(world.clock), old(world.queue), old(world.stack), world.clock, world.queue, world.stack, deadline)
    ensures !end.GivesUp? ==>
              var turn := OnEvent(a, event, world.Time());
              && Arrived(world.bootAt, world.bootLimit, old(world.clock), old(world.queue), world.clock, world.queue, event, deadline) && Fewer(world)
              && world.trace == old(world.trace) + [Waited(old(world.Time()), deadline, event, world.Time())] + turn.calls
              && end == (if turn.outcome.Some? then Ends(turn.outcome.value, turn.app) else GoesOn(turn.app))
              && (turn.calls == [] ==> world.stack.activeUntil == old(world.stack.activeUntil)
                                       && world.Unheard() + (if event == Icd then 1 else 0) <= old(world.Unheard()))
  {
    hide SimWorld.Ahead, InStep, Stack.Unheard, Await, OnEvent, Calm, TailOf, Arrived, GaveUp, LessToCome;
    ghost var held, from, unheard, left := world.queue, world.clock, world.Unheard(), Left(world);
    var delivered := world.NextEvent(deadline);
    if delivered.None? {
      NothingTaken(world.bootAt, world.bootLimit, from, held, old(world.stack), world.clock, world.queue, world.stack, deadline);
      return GivesUp, Deadline;
    }
    event := delivered.value;
    var b, outcome := PlayEvent(world, a, delivered.value);
    RunsOut(world.bootAt, world.bootLimit, from, held, world.clock, world.queue, event, deadline, unheard, world.Unheard());
    end := if outcome.Some? then Ends(outcome.value, b) else GoesOn(b);
  }

  lemma NothingTaken(bootAt: nat, limit: nat, from: nat, held: seq<Scheduled>, before: Stack, clock: nat, queue: seq<Scheduled>, stack: Stack,
                     deadline: nat)
    requires bootAt <= from && bootAt <= clock && GaveUp(bootAt, limit, from, held, before, clock, queue, stack, deadline)
    ensures TailOf(queue, held)
  {
    TailOfItself(queue);
  }

  lemma RunsOut(bootAt: nat, limit: nat, from: nat, held: seq<Scheduled>, clock: nat, queue: seq<Scheduled>, event: Event, deadline: nat,
                unheard: nat, now: nat)
    requires bootAt <= from <= clock && Arrived(bootAt, limit, from, held, clock, queue, event, deadline) && (event == Icd ==> now < unheard)
    ensures TailOf(queue, held)
    ensures LessToCome(|held|, Max(0, bootAt + limit + 1 - from), unheard, |queue|, Max(0, bootAt + limit + 1 - clock), now)
  {
    TailOfFirst(queue, held);
    hide TailOf;
  }

  lemma CalmIs(stack: Stack)
    ensures Calm(stack) == Max(stack.activeUntil, stack.litAt)
  {
  }

  lemma ReadsItsDeadlines(stack: Stack, clock: nat, bootAt: nat)
    requires bootAt <= stack.activeUntil
    ensures var icd := stack.State(clock, bootAt);
            && (icd.operatingMode == Lit <==> clock >= stack.litAt) && (icd.powerMode == PowerMode.Idle <==> clock >= stack.activeUntil)
            && (Calm(stack) <= clock ==> stack.Unheard(clock) <= 1)
  {
  }

  lemma OnlyTailOfNothing(tail: seq<Scheduled>, whole: seq<Scheduled>)
    requires TailOf(tail, whole)
    ensures whole == [] ==> tail == []
  {
  }

  lemma ComesToItsDeadline(at: nat, deadline: nat)
    ensures at < deadline ==> WaitContract(SIM_LIMITS.late, at, deadline, Deadline, deadline)
  {
  }

  lemma IdleSaysNothing(a: AppState, event: Event, now: nat)
    ensures a.button.mode == Button.Mode.Idle ==> OnEvent(a, event, now).calls == [] && OnEvent(a, event, now).outcome.None?
    ensures a.button.mode == Button.Mode.Idle && !event.Button? ==> OnEvent(a, event, now).app == a
  {
  }

  lemma DecisionLeavesIdle(a: AppState, at: nat, x: Answers)
    ensures a.button.mode == Button.Mode.Idle && x.edges == [] ==> Decision(a, at, x).app.button == a.button
  {
    hide SleepFor, Flow.TraceOf, SampleTrace;
  }

  /** What a round in which nobody touches the button leaves, if it was at rest: it reads the
      stack as its deadlines say; before the stack is calm it lasts no longer than until
      then, and after that there is one notice to come at most. */
  predicate Undisturbed(bootAt: nat, first: Stack, unheard: nat, lap: Lap, queue: seq<Scheduled>, stack: Stack, clock: nat)
  {
    var now, icd, notice := bootAt + DueAt(lap.app, lap.at, lap.answers.due), lap.answers.icd, if lap.answers.event == Icd then 1 else 0;
    && queue == [] && lap.answers.edges == [] && !lap.answers.event.Button?
    && stack.activeUntil == first.activeUntil && stack.litAt == first.litAt
    && (icd.operatingMode == Lit <==> now >= first.litAt) && (icd.powerMode == PowerMode.Idle <==> now >= first.activeUntil)
    && stack.Unheard(clock) + notice <= unheard
    && if now < Calm(first) then clock <= Calm(first) else Calm(first) <= clock && stack.Unheard(clock) + notice <= 1
  }

  lemma IsUndisturbed(bootAt: nat, first: Stack, unheard: nat, lap: Lap, middle: Stack, now: nat, queue: seq<Scheduled>, stack: Stack, clock: nat)
    requires queue == [] && lap.answers.edges == [] && !lap.answers.event.Button?
    requires bootAt + DueAt(lap.app, lap.at, lap.answers.due) == now && bootAt <= middle.activeUntil && lap.answers.icd == middle.State(now, bootAt)
    requires middle.activeUntil == first.activeUntil == stack.activeUntil && middle.litAt == first.litAt == stack.litAt
    requires stack.Unheard(clock) + (if lap.answers.event == Icd then 1 else 0) <= middle.Unheard(now) <= unheard
    requires now <= clock && (now < Calm(middle) ==> clock <= Calm(middle))
    ensures Undisturbed(bootAt, first, unheard, lap, queue, stack, clock)
  {
    ReadsItsDeadlines(middle, now, bootAt);
    CalmIs(middle);
    CalmIs(first);
    hide DueAt, Stack.Unheard, Stack.State, Calm;
  }

  /** One turn of the operational loop. The simulator gives up only at the end of a wait that
      takes the boot past its limit; the lap is the one there would have been. */
  method PlayRound(world: SimWorld, a: AppState) returns (end: Played, ghost lap: Lap)
    requires world.Valid() && world.Time() <= HORIZON && a.nextSample <= world.Time() + SAMPLE_PERIOD
    modifies world, world.soil, world.battery
    ensures world.Valid() && world.Kept() && TailOf(world.queue, old(world.queue))
    ensures lap.app == a && lap.at == old(world.Time()) && lap.end.config.at == world.Time()
    ensures RoundLegal(SIM_LIMITS, a, lap.at, lap.answers) && lap.end == Round(a, lap.at, lap.answers)
    ensures end.GivesUp? ==> world.Time() > world.bootLimit
    ensures !end.GivesUp? ==>
              && lap.end.config == Standing(end, world.Time()) && world.trace == old(world.trace) + lap.end.trace
              && (a.calibration == old(world.calibration) ==> end.app.calibration == world.calibration)
    ensures end.GoesOn? ==> Fewer(world)
    ensures old(world.queue) == [] && a.button.mode == Button.Mode.Idle ==>
              Undisturbed(world.bootAt, old(world.stack), old(world.Unheard()), lap, world.queue, world.stack, world.clock)
  {
    hide SimWorld.Ahead, InStep, Stack.Unheard, TailOf, Decision, StepTrace, DueAt, DueLegal, NextDeadline, Calm, WaitContract, Stack.State,
         Round, RoundLegal, Undisturbed;
    ghost var at, said, first, unheard := world.Time(), world.trace, world.stack, world.Unheard();
    var b, outcome;
    ghost var x;
    b, outcome, x := PlayStep(world, a);
    ghost var queue := world.queue;
    OnlyTailOfNothing(queue, old(world.queue));
    if outcome.Some? {
      RoundWithNoWait(a, at, x);
      lap := Lap(a, at, x, Round(a, at, x));
      if old(world.queue) == [] {
        IsUndisturbed(world.bootAt, first, unheard, lap, world.stack, world.clock, queue, world.stack, world.clock);
      }
      return Ends(outcome.value, b), lap;
    }
    end, lap := PlayRest(world, a, at, b, x, said, first, unheard);
    TailOfTail(world.queue, queue, old(world.queue));
  }

  /** The rest of a turn that goes on: its wait, and what that brings. */
  method PlayRest(world: SimWorld, ghost a: AppState, ghost at: nat, b: AppState, ghost x: Answers, ghost said: seq<Entry>, ghost first: Stack,
                  ghost unheard: nat)
    returns (end: Played, ghost lap: Lap)
    requires world.Valid() && at <= HORIZON && DueLegal(SIM_LIMITS, a, at, x.due) && world.Time() == DueAt(a, at, x.due)
    requires Decision(a, at, x).outcome.None? && Decision(a, at, x).app == b && world.trace == said + StepTrace(a, at, x)
    requires world.Time() < NextDeadline(b, world.Time()) && x.icd == world.stack.State(world.clock, world.bootAt)
    modifies world`clock, world`stack, world`queue, world`trace
    ensures world.Valid() && world.Kept() && TailOf(world.queue, old(world.queue))
    ensures lap.app == a && lap.at == at && lap.end.config.at == world.Time()
    ensures RoundLegal(SIM_LIMITS, a, at, lap.answers) && lap.end == Round(a, at, lap.answers)
    ensures end.GivesUp? ==> world.Time() > world.bootLimit
    ensures !end.GivesUp? ==>
              && lap.end.config == Standing(end, world.Time()) && world.trace == said + lap.end.trace
              && end.app.calibration == b.calibration && Fewer(world)
    ensures old(world.queue) == [] && a.button.mode == Button.Mode.Idle && x.edges == []
            && old(world.stack.activeUntil) == first.activeUntil && old(world.stack.litAt) == first.litAt && old(world.Unheard()) <= unheard ==>
              Undisturbed(world.bootAt, first, unheard, lap, world.queue, world.stack, world.clock)
  {
    hide SimWorld.Ahead, InStep, Stack.Unheard, TailOf, Decision, StepTrace, DueAt, DueLegal, OnEvent, NextDeadline, Await, Calm, WaitContract, Stack.State,
         Round, RoundLegal, Undisturbed;
    ghost var stack, clock := world.stack, world.clock;
    var now := world.Time();
    StuckExactlyWhen(world.clock, world.queue, world.stack, world.bootAt + NextDeadline(b, now));
    ghost var event;
    end, event := PlayWait(world, b, NextDeadline(b, now));
    OnlyTailOfNothing(world.queue, old(world.queue));
    EventKeepsTheCalibration(b, event, world.Time());
    ComesToItsDeadline(now, world.Time());
    RoundWithAWait(a, at, x, event, world.Time());
    ghost var y := x.(event := event, until := world.Time());
    lap := Lap(a, at, y, Round(a, at, y));
    if old(world.queue) == [] && a.button.mode == Button.Mode.Idle && x.edges == []
       && stack.activeUntil == first.activeUntil && stack.litAt == first.litAt && stack.Unheard(clock) <= unheard {
      IdleSaysNothing(b, event, world.Time());
      DecisionLeavesIdle(a, at, x);
      IsUndisturbed(world.bootAt, first, unheard, lap, stack, clock, world.queue, world.stack, world.clock);
    }
  }

  lemma RoundWithNoWait(a: AppState, at: nat, x: Answers)
    requires at <= HORIZON && DueLegal(SIM_LIMITS, a, at, x.due) && Decision(a, at, x).outcome.Some?
    ensures RoundLegal(SIM_LIMITS, a, at, x)
    ensures var turn := Decision(a, at, x);
            Round(a, at, x) == Run(Ended(turn.outcome.value, turn.app, DueAt(a, at, x.due)), StepTrace(a, at, x))
  {
    hide Decide, DueDone, DueAt, DueTrace, DueLegal;
  }

  lemma RoundWithAWait(a: AppState, at: nat, x: Answers, event: Event, until: nat)
    requires at <= HORIZON && DueLegal(SIM_LIMITS, a, at, x.due) && Decision(a, at, x).outcome.None?
    requires var now := DueAt(a, at, x.due);
             WaitContract(SIM_LIMITS.late, now, NextDeadline(Decision(a, at, x).app, now), event, until)
    ensures var y, now, b := x.(event := event, until := until), DueAt(a, at, x.due), Decision(a, at, x).app;
            var turn := OnEvent(b, event, until);
            && RoundLegal(SIM_LIMITS, a, at, y)
            && Round(a, at, y) == Run(if turn.outcome.Some? then Ended(turn.outcome.value, turn.app, until) else Running(turn.app, until),
                                      StepTrace(a, at, x) + [Waited(now, NextDeadline(b, now), event, until)] + turn.calls)
  {
    hide Decide, DueDone, DueAt, DueTrace, DueLegal, NextDeadline, OnEvent, WaitContract;
  }

  // The waking press.

  /** How many edges a press was given. */
  function EdgesOf(ds: seq<Delivery>): nat
  {
    if ds == [] then 0 else EdgesOf(ds[..|ds| - 1]) + if ds[|ds| - 1].event.Button? then 1 else 0
  }

  /** The deliveries are those of a queue of edges: every edge of it, in order, as soon as it
      and the boot are there; no deadline but at its instant, and before the next edge; and
      no notice that passes an edge by. */
  ghost predicate FedBy(queue: seq<Scheduled>, bootAt: nat, a: AppState, at: nat, ds: seq<Delivery>)
  {
    ds != [] ==>
      var most, d := ds[..|ds| - 1], ds[|ds| - 1];
      var c := Pump(a, at, most).config;
      FedBy(queue, bootAt, a, at, most) && CameFrom(queue, bootAt, EdgesOf(most), c.app.button.deadline, c.at, d)
  }

  /** One delivery to a press that waits since `t`, after `n` edges of the queue. */
  predicate CameFrom(queue: seq<Scheduled>, bootAt: nat, n: nat, deadline: nat, t: nat, d: Delivery)
  {
    Brings(queue, bootAt, n, deadline, t, d.event, d.until)
  }

  lemma FedOnce(queue: seq<Scheduled>, bootAt: nat, a: AppState, at: nat, ds: seq<Delivery>, d: Delivery)
    requires FedBy(queue, bootAt, a, at, ds)
    requires var c := Pump(a, at, ds).config; CameFrom(queue, bootAt, EdgesOf(ds), c.app.button.deadline, c.at, d)
    ensures FedBy(queue, bootAt, a, at, ds + [d]) && EdgesOf(ds + [d]) == EdgesOf(ds) + if d.event.Button? then 1 else 0
  {
    assert (ds + [d])[..|ds|] == ds;
    hide Pump, CameFrom;
  }

  /** What a wait brings to a press. */
  lemma ArrivedAtAPress(bootAt: nat, limit: nat, from: nat, held: seq<Scheduled>, clock: nat, left: seq<Scheduled>, event: Event, deadline: nat,
                        queue: seq<Scheduled>, n: nat)
    requires bootAt <= from && bootAt <= clock && Arrived(bootAt, limit, from, held, clock, left, event, deadline) && n <= |queue| && held == queue[n..]
    ensures WaitContract(SIM_LIMITS.late, from - bootAt, deadline, event, clock - bootAt)
    ensures CameFrom(queue, bootAt, n, deadline, from - bootAt, Delivery(event, clock - bootAt))
    ensures var m := n + if event.Button? then 1 else 0; m <= |queue| && left == queue[m..]
  {
    hide WaitContract;
  }

  lemma GivenUpAtAPress(bootAt: nat, limit: nat, from: nat, held: seq<Scheduled>, before: Stack, clock: nat, queue: seq<Scheduled>, stack: Stack,
                        deadline: nat)
    requires bootAt <= from && bootAt <= clock && GaveUp(bootAt, limit, from, held, before, clock, queue, stack, deadline)
    ensures clock - bootAt > limit || (clock == from && Await(clock, queue, stack, bootAt + deadline).Stuck?)
  {
    hide Await;
  }

  /** A press the simulator gave up on: the boot is past its limit; or the press is undecided
      and its next wait is one that nothing can end (`Overdue.PressIsStuckExactlyWhen`). */
  ghost predicate PressGivenUp(world: SimWorld, a: AppState, at: nat, ds: seq<Delivery>)
    requires world.Valid()
    reads world, world.soil, world.battery
  {
    || world.Time() > Min(world.bootLimit, HORIZON)
    || (var c := Pump(a, at, ds).config;
        && c.Running? && c.at == world.Time() && c.app.button.WakingPressPending()
        && Await(world.clock, world.queue, world.stack, world.bootAt + c.app.button.deadline).Stuck?)
  }

  /** The waking press. It comes to an end in every world: it is decided, or it is a reset, or
      the simulator gives up on it. */
  method PlayPress(world: SimWorld, a: AppState) returns (end: Played, ghost ds: seq<Delivery>)
    requires world.Valid() && (a.button.waking ==> a.button.NextDeadline().Some?)
    modifies world`clock, world`stack, world`queue, world`trace
    ensures world.Valid() && world.Kept() && TailOf(world.queue, old(world.queue))
    ensures PumpLegal(SIM_LIMITS, a, old(world.Time()), ds) && FedBy(old(world.queue), world.bootAt, a, old(world.Time()), ds)
    ensures !end.GivesUp? ==>
              && world.trace == old(world.trace) + Pump(a, old(world.Time()), ds).trace
              && Pump(a, old(world.Time()), ds).config == Standing(end, world.Time())
    ensures end.GoesOn? ==> !end.app.button.WakingPressPending() && world.Time() <= HORIZON
    ensures end.GivesUp? ==> PressGivenUp(world, a, old(world.Time()), ds)
    ensures !a.button.WakingPressPending() && old(world.Time()) <= HORIZON ==>
              end == GoesOn(a) && ds == [] && world.queue == old(world.queue) && world.clock == old(world.clock) && world.stack == old(world.stack)
  {
    hide SimWorld.Ahead, InStep, Stack.Unheard, TailOf, OnEvent, Pump, PumpLegal, Await, FedBy, EdgesOf, Calm, WaitContract, Arrived, GaveUp, CameFrom;
    ghost var at, queue := world.Time(), world.queue;
    PumpStarts(SIM_LIMITS, a, at);
    FedByNothing(queue, world.bootAt, a, at);
    TailOfItself(world.queue);
    ds, end := [], GoesOn(a);
    while end.GoesOn? && end.app.button.WakingPressPending() && world.Time() <= HORIZON
      invariant world.Valid() && world.Kept() && TailOf(world.queue, queue)
      invariant PumpLegal(SIM_LIMITS, a, at, ds) && FedBy(queue, world.bootAt, a, at, ds)
      invariant !end.GivesUp? ==>
                  && Pump(a, at, ds).config == Standing(end, world.Time()) && world.trace == old(world.trace) + Pump(a, at, ds).trace
                  && EdgesOf(ds) <= |queue| && world.queue == queue[EdgesOf(ds)..]
      invariant end.GivesUp? ==> PressGivenUp(world, a, at, ds)
      invariant !a.button.WakingPressPending() ==>
                  end == GoesOn(a) && ds == [] && world.queue == queue && world.clock == old(world.clock) && world.stack == old(world.stack)
      decreases end.GoesOn?, |world.queue|, Left(world), world.Unheard()
    {
      ghost var before, held, from, stack := ds, world.queue, world.clock, world.stack;
      ghost var event;
      var deadline := end.app.button.deadline;
      end, event := PlayWait(world, end.app, deadline);
      TailOfTail(world.queue, held, queue);
      if end.GivesUp? {
        GivenUpAtAPress(world.bootAt, world.bootLimit, from, held, stack, world.clock, world.queue, world.stack, deadline);
      } else {
        ghost var d := Delivery(event, world.Time());
        ArrivedAtAPress(world.bootAt, world.bootLimit, from, held, world.clock, world.queue, event, deadline, queue, EdgesOf(before));
        ds := ds + [d];
        PumpExtends(SIM_LIMITS, a, at, before, d);
        FedOnce(queue, world.bootAt, a, at, before, d);
      }
    }
    if end.GoesOn? && world.Time() > HORIZON {
      end := GivesUp;
    }
  }

  lemma FedByNothing(queue: seq<Scheduled>, bootAt: nat, a: AppState, at: nat)
    ensures FedBy(queue, bootAt, a, at, []) && EdgesOf([]) == 0
  {
  }

  // The operational phase.

  /** How long a boot takes to sleep in a world that nobody disturbs, once the stack is calm. */
  const SETTLED: nat := LapMost(SIM_LIMITS) * 6

  /** A run whose laps are quiet, from a head with the button at rest, with a notice to come at
      most: it takes no longer. */
  lemma QuietRunIsShort(b: AppState, h: nat, laps: seq<Lap>)
    requires Ready(b, h) && b.button.mode == Button.Mode.Idle && IsRun(SIM_LIMITS, b, h, laps) && Quiet(laps) && Notices(laps) <= 1
    ensures Outcomes(b, h, laps).config.at <= h + SETTLED
  {
    SleepsSoon(SIM_LIMITS, b, h, laps);
    assert MostWaits(b) == 4;
    hide Ready, IsRun, Quiet, Outcomes, LapMost;
    MoreRounds(4 + Notices(laps) + 1, 6, LapMost(SIM_LIMITS));
  }

  /** Where a boot stands that nobody disturbs: waiting for the stack to be calm, at the head
      `h`; or, since then, on its way to sleep by the laps `tail`. */
  ghost predicate LeftTo(b: AppState, h: nat, tail: seq<Lap>, calm: nat, unheard: nat, app: AppState, at: nat)
  {
    && Ready(b, h) && b.button.mode == Button.Mode.Idle && h <= calm
    && IsRun(SIM_LIMITS, b, h, tail) && Quiet(tail) && Outcomes(b, h, tail).config == Running(app, at)
    && (tail != [] ==> calm <= at && Notices(tail) + unheard <= 1)
  }

  /** A lap that nobody disturbs: it reads the stack as calm once it is. */
  predicate LapLeftAlone(lap: Lap, calm: nat, unheard: nat)
  {
    var now, notice := DueAt(lap.app, lap.at, lap.answers.due), if lap.answers.event == Icd then 1 else 0;
    && lap.answers.edges == [] && !lap.answers.event.Button?
    && if now < calm then lap.end.config.at <= calm
       else QuietRound(lap.answers) && calm <= lap.end.config.at && unheard + notice <= 1
  }

  lemma OneMoreQuietLap(tail: seq<Lap>, lap: Lap)
    requires Quiet(tail) && QuietRound(lap.answers)
    ensures Quiet(tail + [lap]) && Notices(tail + [lap]) == Notices(tail) + if lap.answers.event == Icd then 1 else 0
  {
    assert (tail + [lap])[..|tail|] == tail;
  }

  /** With the button at rest and nobody to touch it, a round ends a boot by a sleep only. */
  lemma IdleRound(a: AppState, at: nat, x: Answers)
    requires Ready(a, at) && RoundLegal(SIM_LIMITS, a, at, x) && a.button.mode == Button.Mode.Idle && x.edges == [] && !x.event.Button?
    ensures at <= DueAt(a, at, x.due)
    ensures match Round(a, at, x).config
            case Ended(o, _, _) => o.Sleep?
            case Running(b, t) => b.button.mode == Button.Mode.Idle && Ready(b, t)
  {
    DueComesNoFurther(SIM_LIMITS, a, at, x.due);
    var b, now := DueDone(a, at, x.due), DueAt(a, at, x.due);
    IdleDecision(b, now, x);
    IdleSaysNothing(Decision(a, at, x).app, x.event, x.until);
    if Decision(a, at, x).outcome.None? {
      LaterIsReady(Decision(a, at, x).app, now, x.until);
    }
    hide DueDone, DueAt, DueLegal, Decide, OnEvent, NextDeadline, Ready;
  }

  lemma IdleDecision(a: AppState, now: nat, x: Answers)
    requires Ready(a, now) && a.button.mode == Button.Mode.Idle && x.edges == []
    ensures var turn := Decide(a, now, x.icd, x.edges);
            match turn.outcome
            case Some(o) => o.Sleep?
            case None => turn.app.button.mode == Button.Mode.Idle && Ready(turn.app, now)
  {
  }

  lemma LaterIsReady(a: AppState, now: nat, until: nat)
    requires Ready(a, now) && now <= until
    ensures Ready(a, until)
  {
  }

  /** One more lap of a boot that nobody disturbs: it is in time, and on its way. */
  lemma StaysLeftTo(b: AppState, h: nat, tail: seq<Lap>, calm: nat, before: nat, lap: Lap, unheard: nat)
    returns (c: AppState, g: nat, more: seq<Lap>)
    requires LeftTo(b, h, tail, calm, before, lap.app, lap.at) && LapLeftAlone(lap, calm, unheard)
    requires RoundLegal(SIM_LIMITS, lap.app, lap.at, lap.answers) && lap.end == Round(lap.app, lap.at, lap.answers)
    requires unheard + (if lap.answers.event == Icd then 1 else 0) <= before && lap.app.button.mode == Button.Mode.Idle && Ready(lap.app, lap.at)
    ensures lap.end.config.at <= calm + SETTLED
    ensures match lap.end.config
            case Ended(o, _, _) => o.Sleep?
            case Running(app, at) => LeftTo(c, g, more, calm, unheard, app, at) && app.button.mode == Button.Mode.Idle && Ready(app, at)
  {
    IdleRound(lap.app, lap.at, lap.answers);
    hide Ready, RoundLegal, Round, IsRun, Quiet, QuietRound, Outcomes, Notices, DueAt, SETTLED;
    c, g, more := b, h, tail + [lap];
    if DueAt(lap.app, lap.at, lap.answers.due) < calm {
      assert tail == [];
      NoTime();
      if lap.end.config.Running? {
        c, g, more := lap.end.config.app, lap.end.config.at, [];
        NoLaps(SIM_LIMITS, c, g);
        NoQuietLaps();
      }
    } else {
      NoQuietLaps();
      RunGrows(SIM_LIMITS, b, h, tail, lap);
      OneMoreQuietLap(tail, lap);
      QuietRunIsShort(b, h, more);
    }
  }

  lemma NoTime()
    ensures SETTLED >= 0
  {
  }

  lemma NoQuietLaps()
    ensures Quiet([]) && Notices([]) == 0
  {
  }

  /** A boot whose operational phase begins now that nobody will disturb: no edge is left, the
      button is at rest, and there is time to sleep once the stack is calm. */
  predicate LeftAlone(world: SimWorld, a: AppState)
    requires world.Valid()
    reads world, world.soil, world.battery
  {
    world.queue == [] && a.button.mode == Button.Mode.Idle && CalmIn(world) + SETTLED <= Min(world.bootLimit, HORIZON)
  }

  /** When the stack is calm, in the time of the boot. */
  function CalmIn(world: SimWorld): nat
    requires world.bootAt <= world.clock
    reads world`clock, world`bootAt, world`stack
  {
    Max(world.Time(), Calm(world.stack) - world.bootAt)
  }

  /** The operational phase. It comes to an end in every world, too; and by a sleep, if nobody
      disturbs it. */
  method PlayBoot(world: SimWorld, a: AppState) returns (end: Played, ghost laps: seq<Lap>)
    requires world.Valid() && BootTheorems.Starts(a, world.Time())
    modifies world, world.soil, world.battery
    ensures world.Valid() && world.Kept() && TailOf(world.queue, old(world.queue))
    ensures !end.GoesOn?
    ensures end.GivesUp? ==> world.Time() > Min(world.bootLimit, HORIZON)
    ensures end.Ends? ==>
              && IsRun(SIM_LIMITS, a, old(world.Time()), laps)
              && world.trace == old(world.trace) + Outcomes(a, old(world.Time()), laps).trace
              && Outcomes(a, old(world.Time()), laps).config == Standing(end, world.Time())
              && (a.calibration == old(world.calibration) ==> end.app.calibration == world.calibration)
    ensures old(LeftAlone(world, a)) ==> end.Ends? && end.outcome.Sleep?
  {
    hide SimWorld.Ahead, InStep, Stack.Unheard, TailOf, Round, RoundLegal, Outcomes, IsRun, BootTheorems.Starts, Calm, SETTLED, Undisturbing, LeftAlone;
    ghost var at, limit, alone := world.Time(), Min(world.bootLimit, HORIZON), LeftAlone(world, a);
    ghost var way := Way(alone, Calm(world.stack), CalmIn(world), limit, a, at, []);
    NoLaps(SIM_LIMITS, a, at);
    if alone {
      BeginsAlone(world, way);
    }
    TailOfItself(world.queue);
    laps, end := [], GoesOn(a);
    while end.GoesOn? && world.Time() <= HORIZON
      invariant world.Valid() && world.Kept() && TailOf(world.queue, old(world.queue))
      invariant end.GivesUp? ==> world.Time() > limit
      invariant !end.GivesUp? ==>
                  && IsRun(SIM_LIMITS, a, at, laps) && Outcomes(a, at, laps).config == Standing(end, world.Time())
                  && world.trace == old(world.trace) + Outcomes(a, at, laps).trace
                  && (a.calibration == old(world.calibration) ==> end.app.calibration == world.calibration)
      invariant way.alone == alone && way.limit == limit && (alone ==> Undisturbing(world, way, end))
      decreases end.GoesOn?, |world.queue|, Left(world), world.Unheard()
    {
      ghost var before, held := laps, world.queue;
      HeadIsInTime(a, at, laps, end.app, world.Time());
      var app := end.app;
      ghost var lap;
      end, lap, way := PlayLap(world, app, way);
      TailOfTail(world.queue, held, old(world.queue));
      if !end.GivesUp? {
        RunGrows(SIM_LIMITS, a, at, before, lap);
        laps := before + [lap];
      }
    }
    if alone {
      StillAlone(world, way, end);
    }
    if end.GoesOn? {
      end := GivesUp;
    }
  }

  /** The way of a boot, if nobody disturbs it: when the stack makes its last change, in the
      time of the simulation and of the boot; the time there is; and how far it has come. */
  datatype Way = Way(alone: bool, last: nat, calm: nat, limit: nat, b: AppState, h: nat, tail: seq<Lap>)

  ghost predicate Undisturbing(world: SimWorld, way: Way, end: Played)
    requires world.bootAt <= world.clock
    reads world`clock, world`bootAt, world`queue, world`stack
  {
    && world.queue == [] && Calm(world.stack) == way.last && way.calm + SETTLED <= way.limit
    && way.last - world.bootAt <= way.calm && (way.calm == way.last - world.bootAt || way.calm <= world.Time())
    && OnItsWay(way.b, way.h, way.tail, way.calm, world.Unheard(), world.Time(), end)
  }

  lemma BeginsAlone(world: SimWorld, way: Way)
    requires world.Valid() && BootTheorems.Starts(way.b, world.Time()) && LeftAlone(world, way.b)
    requires way.last == Calm(world.stack) && way.calm == CalmIn(world) && way.limit == Min(world.bootLimit, HORIZON) && way.tail == [] && way.h == world.Time()
    ensures Undisturbing(world, way, GoesOn(way.b))
  {
    hide SimWorld.Ahead, InStep, Stack.Unheard, Calm, SETTLED, OnItsWay, BootTheorems.Starts;
    BeginsLeftTo(way.b, way.h, way.calm, world.Unheard());
  }

  lemma StillAlone(world: SimWorld, way: Way, end: Played)
    requires world.bootAt <= world.clock && Undisturbing(world, way, end)
    ensures world.Time() <= way.limit && !end.GivesUp? && (end.Ends? ==> end.outcome.Sleep?)
  {
    hide SimWorld.Ahead, InStep, Stack.Unheard, Calm, SETTLED, OnItsWay;
    OnItsWayIs(way.b, way.h, way.tail, way.calm, world.Unheard(), world.Time(), end);
  }

  /** One turn of the loop, and how far it brings a boot that nobody disturbs. */
  method PlayLap(world: SimWorld, a: AppState, ghost way: Way) returns (end: Played, ghost lap: Lap, ghost after: Way)
    requires world.Valid() && world.Time() <= HORIZON && a.nextSample <= world.Time() + SAMPLE_PERIOD
    requires way.limit == Min(world.bootLimit, HORIZON) && (way.alone ==> Undisturbing(world, way, GoesOn(a)))
    modifies world, world.soil, world.battery
    ensures world.Valid() && world.Kept() && TailOf(world.queue, old(world.queue))
    ensures lap.app == a && lap.at == old(world.Time())
    ensures RoundLegal(SIM_LIMITS, a, lap.at, lap.answers) && lap.end == Round(a, lap.at, lap.answers)
    ensures end.GivesUp? ==> world.Time() > way.limit
    ensures !end.GivesUp? ==>
              && lap.end.config == Standing(end, world.Time()) && world.trace == old(world.trace) + lap.end.trace
              && (a.calibration == old(world.calibration) ==> end.app.calibration == world.calibration)
    ensures end.GoesOn? ==> Fewer(world)
    ensures after.alone == way.alone && after.limit == way.limit && (way.alone ==> Undisturbing(world, after, end))
  {
    hide SimWorld.Ahead, InStep, Stack.Unheard, TailOf, Round, RoundLegal, Calm, SETTLED, OnItsWay, LapLeftAlone, DueAt;
    ghost var unheard, stack := world.Unheard(), world.stack;
    if way.alone {
      OnItsWayIs(way.b, way.h, way.tail, way.calm, unheard, world.Time(), GoesOn(a));
    }
    end, lap := PlayRound(world, a);
    after := way;
    if way.alone {
      CalmIs(stack);
      CalmIs(world.stack);
      LapGoesOn(lap);
      LapIsLeftAlone(world.bootAt, way.last, way.calm, lap, world.clock, world.Unheard());
      ghost var b, h, tail := StaysOnItsWay(way.b, way.h, way.tail, way.calm, unheard, lap, world.Unheard(), world.Time(), end, way.limit);
      after := way.(b := b, h := h, tail := tail);
    }
  }

  /** What is kept of a boot that nobody disturbs. */
  ghost predicate OnItsWay(b: AppState, h: nat, tail: seq<Lap>, calm: nat, unheard: nat, at: nat, end: Played)
  {
    && at <= calm + SETTLED
    && match end
       case GivesUp => false
       case Ends(o, _) => o.Sleep?
       case GoesOn(app) => LeftTo(b, h, tail, calm, unheard, app, at) && app.button.mode == Button.Mode.Idle && Ready(app, at)
  }

  lemma OnItsWayIs(b: AppState, h: nat, tail: seq<Lap>, calm: nat, unheard: nat, at: nat, end: Played)
    requires OnItsWay(b, h, tail, calm, unheard, at, end)
    ensures at <= calm + SETTLED && !end.GivesUp? && (end.Ends? ==> end.outcome.Sleep?)
    ensures end.GoesOn? ==> end.app.button.mode == Button.Mode.Idle
  {
    hide SETTLED, LeftTo, Ready;
  }

  lemma StaysOnItsWay(b: AppState, h: nat, tail: seq<Lap>, calm: nat, before: nat, lap: Lap, unheard: nat, at: nat, end: Played, most: nat)
    returns (c: AppState, g: nat, more: seq<Lap>)
    requires OnItsWay(b, h, tail, calm, before, lap.at, GoesOn(lap.app)) && LapLeftAlone(lap, calm, unheard)
    requires RoundLegal(SIM_LIMITS, lap.app, lap.at, lap.answers) && lap.end == Round(lap.app, lap.at, lap.answers) && lap.end.config.at == at
    requires unheard + (if lap.answers.event == Icd then 1 else 0) <= before && calm + SETTLED <= most
    requires if end.GivesUp? then at > most else lap.end.config == Standing(end, at)
    ensures OnItsWay(c, g, more, calm, unheard, at, end)
  {
    hide SETTLED, LeftTo, Ready, LapLeftAlone, RoundLegal, Round;
    c, g, more := StaysLeftTo(b, h, tail, calm, before, lap, unheard);
  }

  lemma HeadIsInTime(a: AppState, at: nat, laps: seq<Lap>, b: AppState, t: nat)
    requires BootTheorems.Starts(a, at) && IsRun(SIM_LIMITS, a, at, laps) && Outcomes(a, at, laps).config == Running(b, t)
    ensures b.nextSample <= t + SAMPLE_PERIOD
  {
    hide IsRun, Outcomes;
    BootTheorems.RunIsFollowed(SIM_LIMITS, a, at, at, laps);
  }

  lemma LapGoesOn(lap: Lap)
    requires RoundLegal(SIM_LIMITS, lap.app, lap.at, lap.answers) && lap.end == Round(lap.app, lap.at, lap.answers)
    requires lap.app.nextSample <= lap.at + SAMPLE_PERIOD
    ensures lap.at <= DueAt(lap.app, lap.at, lap.answers.due) <= lap.end.config.at
  {
    OperationalPhase.DueTakes(SIM_LIMITS, lap.app, lap.at, lap.answers.due);
    hide DueAt, DueDone, DueLegal, Decide, OnEvent, NextDeadline;
  }

  lemma BeginsLeftTo(a: AppState, at: nat, calm: nat, unheard: nat)
    requires BootTheorems.Starts(a, at) && a.button.mode == Button.Mode.Idle && at <= calm
    ensures OnItsWay(a, at, [], calm, unheard, at, GoesOn(a))
  {
    NoLaps(SIM_LIMITS, a, at);
  }

  /** What a world that nobody disturbs plays is such a lap. */
  lemma LapIsLeftAlone(bootAt: nat, last: nat, calm: nat, lap: Lap, clock: nat, unheard: nat)
    requires lap.answers.edges == [] && !lap.answers.event.Button? && lap.end.config.at == clock - bootAt
    requires lap.at <= DueAt(lap.app, lap.at, lap.answers.due) <= lap.end.config.at
    requires var now, notice := bootAt + DueAt(lap.app, lap.at, lap.answers.due), if lap.answers.event == Icd then 1 else 0;
             if now < last then clock <= last
             else
               && unheard + notice <= 1
               && lap.answers.icd.operatingMode == Lit && lap.answers.icd.powerMode == PowerMode.Idle
    requires last - bootAt <= calm && (calm == last - bootAt || calm <= lap.at)
    ensures LapLeftAlone(lap, calm, unheard)
  {
    hide DueAt;
  }

  // Whole boots.

  function EndOf(outcome: Outcome): Device.End
  {
    match outcome
    case Sleep(forMs) => Device.Slept(forMs)
    case FactoryReset => Device.Reset
  }

  /** A boot the simulator ran to its end: all that is proved of boots holds of it. */
  ghost predicate Behaves(r: Device.Record, outcome: Outcome)
  {
    Device.IsBoot(SIM_LIMITS, 0, r) && r.end == EndOf(outcome)
  }

  /** In particular it is well behaved, with the watchdog fed in time, and a sleep of it lasts
      a second at least. */
  lemma BootsOfTheSimulator(r: Device.Record, outcome: Outcome)
    requires Behaves(r, outcome)
    ensures Device.WellBehaved(r, Device.BootHunger(SIM_LIMITS, 0)) && Device.BootHunger(SIM_LIMITS, 0) < WATCHDOG_TIMEOUT
    ensures outcome.Sleep? ==> outcome.forMs >= SLEEP_MIN
    ensures Watching.StoredAfter(r.stored, r.All()) == Device.InEffect(r)
  {
    hide Device.IsBoot, Device.InEffect, Watching.StoredAfter;
    Device.BootsBehave(SIM_LIMITS, 0, r);
    Device.BootsHaveAMargin(SIM_LIMITS, 0);
  }

  /** A boot the simulator gave up on: it is past its limit; or its waking press is undecided,
      and the next wait for it is one that nothing can end. */
  ghost predicate BootGivenUp(world: SimWorld, r: Device.Record)
    requires world.Valid()
    reads world, world.soil, world.battery
  {
    || world.Time() > Min(world.bootLimit, HORIZON)
    || (r.course.Cut? && r.boot.now == 0 && PumpLegal(SIM_LIMITS, NewApp(r.boot, r.stored), 0, r.course.ds)
        && PressGivenUp(world, NewApp(r.boot, r.stored), 0, r.course.ds))
  }

  /** What a boot says first. */
  method PlayPreamble(world: SimWorld, boot: Boot) returns (calibration: Calibration)
    requires world.Valid()
    modifies world`stack, world`trace
    ensures world.Valid() && world.stack.activeUntil >= old(world.stack.activeUntil) && world.stack.litAt == old(world.stack.litAt)
    ensures calibration == world.calibration
    ensures world.trace == old(world.trace) + Preamble(boot, world.Time(), calibration, world.Time())
  {
    hide SimWorld.Ahead, InStep, Stack.Unheard;
    if boot.afterCrash {
      world.SendLed(CRASHED_LED);
    }
    if boot.wake == WakeCause.Button {
      world.RequestActive(Some(BUTTON_WAKE_HOLD));
    }
    calibration := world.LoadCalibration();
  }

  /** The protocol stack comes up: its active window opens. */
  method StartStack(world: SimWorld)
    requires world.Valid() && world.setting.started.None?
    modifies world`stack, world`setting
    ensures world.Valid() && world.stack.activeUntil == world.clock + ACTIVE_HOLD && world.stack.litAt == old(world.stack.litAt)
    ensures world.setting == old(world.setting).(started := Some(Started(|world.trace|, world.Time())))
  {
    hide InStep;
    StartsInStep(world.setting, world.trace, world.Ahead(), world.Time());
    world.stack := world.stack.(activeUntil := world.clock + ACTIVE_HOLD).Synced(world.clock);
    world.setting := world.setting.(started := Some(Started(|world.trace|, world.Time())));
  }

  /** After which of its calls, and when, the stack of a boot was started, if it was. */
  function StackOf(r: Device.Record): Option<Started>
  {
    if r.course.Whole? then Some(Started(|r.waking|, r.course.start)) else None
  }

  /** A boot that nobody will disturb, before its reading: no edge is left, and there is time
      to sleep once the stack, started after the reading, is calm. */
  predicate WillBeLeftAlone(world: SimWorld, at: nat)
    reads world
  {
    world.queue == [] && Max(at + SIM_LIMITS.soil + SIM_LIMITS.battery + ACTIVE_HOLD, world.stack.litAt - world.bootAt) + SETTLED <= Min(world.bootLimit, HORIZON)
  }

  /** A boot from where its waking press is decided: the reading, the stack, and the
      operational phase. */
  method DriveOn(world: SimWorld, boot: Boot, a: AppState, ghost c: Calibration, ghost ds: seq<Delivery>)
    returns (outcome: Option<Outcome>, ghost r: Device.Record)
    requires world.Valid() && boot.now == 0 && world.calibration == c && world.Time() <= HORIZON
    requires PumpLegal(SIM_LIMITS, NewApp(boot, c), 0, ds) && Pump(NewApp(boot, c), 0, ds).config == Running(a, world.Time())
    requires !a.button.WakingPressPending() && world.trace == WakePhase.WakeTrace(boot, 0, c, 0, ds) && world.setting.started.None?
    modifies world, world.soil, world.battery
    ensures world.Valid() && world.bootAt == old(world.bootAt) && world.boots == old(world.boots) && world.clock >= old(world.clock)
    ensures world.awakeMs == old(world.awakeMs) && world.asleepMs == old(world.asleepMs) && world.stack.litAt == old(world.stack.litAt)
    ensures TailOf(world.queue, old(world.queue)) && world.afterCrash == old(world.afterCrash)
    ensures outcome.Some? ==> world.setting == old(world.setting).(started := StackOf(r))
    ensures r.boot == boot && r.stored == c && r.course.ds == ds
    ensures outcome.Some? ==>
              && Behaves(r, outcome.value) && r.now == world.Time()
              && world.trace == r.All() && world.calibration == Device.InEffect(r)
    ensures outcome.None? ==> world.Time() > Min(world.bootLimit, HORIZON)
    ensures old(WillBeLeftAlone(world, world.Time())) && !a.calibrationRequested ==> outcome.Some? && outcome.value.Sleep?
  {
    hide SimWorld.Ahead, InStep, Stack.Unheard, TailOf, Pump, PumpLegal, Outcomes, IsRun, DueLegal, DueDone, DueAt, DueTrace, NewApp, Preamble,
         BootTheorems.Starts, WakePhase.WakeTrace, WakePhase.Decided, Device.Booted, Calm, SETTLED;
    ghost var now := world.Time();
    var b;
    ghost var due;
    b, due := PlayDue(world, a);
    ghost var start, waking := world.Time(), world.trace;
    DecidedBoot(boot, c, ds, a, now, due);
    StartStack(world);
    CalmIs(world.stack);
    var end;
    ghost var laps;
    end, laps := PlayBoot(world, b);
    ghost var course := Device.Whole(0, ds, a, now, due, start, laps);
    if end.GivesUp? {
      return None, Device.Record(boot, c, course, [], [], Device.Unfinished, 0);
    }
    Device.BootedNow(SIM_LIMITS, boot, c, ds, a, now, due, laps);
    r := Device.Record(boot, c, course, waking, Outcomes(b, start, laps).trace, EndOf(end.outcome), world.Time());
    return Some(end.outcome), r;
  }

  lemma DecidedBoot(boot: Boot, c: Calibration, ds: seq<Delivery>, a: AppState, now: nat, due: DueAnswers)
    requires boot.now == 0 && now <= HORIZON && PumpLegal(SIM_LIMITS, NewApp(boot, c), 0, ds)
    requires Pump(NewApp(boot, c), 0, ds).config == Running(a, now) && !a.button.WakingPressPending() && DueLegal(SIM_LIMITS, a, now, due)
    ensures WakePhase.Decided(SIM_LIMITS, boot, 0, c, 0, ds, a, now, due)
    ensures var b, at := DueDone(a, now, due), DueAt(a, now, due);
            && BootTheorems.Starts(b, at) && b.button.mode == Button.Mode.Idle && a.calibration == c
            && (!a.calibrationRequested ==> at <= now + SIM_LIMITS.soil + SIM_LIMITS.battery)
  {
    WakePhase.DecidedIs(SIM_LIMITS, boot, 0, c, 0, ds, a, now, due);
    OperationalPhase.DueTakes(SIM_LIMITS, a, now, due);
    WakePhase.HandsOver(SIM_LIMITS, boot, 0, c, 0, ds, a, now, due);
    hide PumpLegal, Pump, DueLegal, DueDone, DueAt;
  }

  /** One boot's two phases, with the stack coming up between them; `None` when the simulator
      gives up on it. A boot that no press woke and that nobody disturbs sleeps. */
  method Drive(world: SimWorld, wake: WakeCause) returns (outcome: Option<Outcome>, ghost r: Device.Record)
    requires world.Valid() && world.Time() == 0 && world.trace == [] && world.setting.started.None?
    modifies world, world.soil, world.battery
    ensures world.Valid() && world.bootAt == old(world.bootAt) && world.boots == old(world.boots) && world.clock >= old(world.clock)
    ensures world.awakeMs == old(world.awakeMs) && world.asleepMs == old(world.asleepMs) && world.stack.litAt == old(world.stack.litAt)
    ensures TailOf(world.queue, old(world.queue)) && !world.afterCrash
    ensures outcome.Some? ==> world.setting == old(world.setting).(started := StackOf(r))
    ensures r.boot == Boot(wake, 0, old(world.afterCrash)) && r.stored == old(world.calibration)
    ensures FedBy(old(world.queue), world.bootAt, NewApp(r.boot, r.stored), 0, r.course.ds)
    ensures outcome.Some? ==>
              && Behaves(r, outcome.value) && r.now == world.Time()
              && world.trace == r.All() && world.calibration == Device.InEffect(r)
    ensures outcome.None? ==> BootGivenUp(world, r)
    ensures old(WillBeLeftAlone(world, 0)) && wake != WakeCause.Button ==> outcome.Some? && outcome.value.Sleep?
  {
    hide SimWorld.Ahead, InStep, Stack.Unheard, TailOf, Behaves, Pump, PumpLegal, NewApp, Preamble, FedBy, SETTLED, Device.InEffect, PressGivenUp;
    var boot := Boot(wake, 0, world.afterCrash);
    world.afterCrash := false;
    ghost var c, queue := world.calibration, world.queue;
    var calibration := PlayPreamble(world, boot);
    var a := NewApp(boot, calibration);
    FreshWaits(boot, calibration);
    var end;
    ghost var ds;
    end, ds := PlayPress(world, a);
    assert !end.GivesUp? ==> world.trace == WakePhase.WakeTrace(boot, 0, c, 0, ds);
    hide WakePhase.WakeTrace;
    match end {
      case GivesUp =>
        return None, Device.Record(boot, c, Device.Cut(0, ds), [], [], Device.Unfinished, 0);
      case Ends(o, b) =>
        r := Device.Record(boot, c, Device.Cut(0, ds), WakePhase.WakeTrace(boot, 0, c, 0, ds), [], Device.Reset, world.Time());
        ResetIsOne(r, o, b);
        return Some(o), r;
      case GoesOn(b) =>
        ghost var held := world.queue;
        outcome, r := DriveOn(world, boot, b, c, ds);
        TailOfTail(world.queue, held, queue);
    }
  }

  lemma ResetIsOne(r: Device.Record, outcome: Outcome, b: AppState)
    requires r.course.Cut? && r.boot.now == 0 && r.course.loadedAt == 0 && PumpLegal(SIM_LIMITS, NewApp(r.boot, r.stored), 0, r.course.ds)
    requires Pump(NewApp(r.boot, r.stored), 0, r.course.ds).config == Ended(outcome, b, r.now)
    requires r.waking == WakePhase.WakeTrace(r.boot, 0, r.stored, 0, r.course.ds) && r.calls == [] && r.end == Device.Reset
    ensures Behaves(r, outcome) && r.All() == r.waking && Device.InEffect(r) == r.stored
  {
    WakePhase.OnlyAResetEndsIt(SIM_LIMITS, r.boot, 0, r.stored, 0, r.course.ds);
    hide Pump, PumpLegal, WakePhase.WakeTrace, NewApp;
  }

  lemma FreshWaits(boot: Boot, calibration: Calibration)
    ensures var a := NewApp(boot, calibration);
            && (a.button.waking ==> a.button.NextDeadline().Some?) && a.calibration == calibration
            && (boot.wake != WakeCause.Button ==> !a.button.WakingPressPending()) && !a.calibrationRequested
  {
  }

  /** A boot begins: its own clock, and nothing called yet. */
  method BeginBoot(world: SimWorld)
    requires world.Valid()
    modifies world`bootAt, world`stack, world`trace, world`setting
    ensures world.Valid() && world.bootAt == world.clock && world.trace == [] && world.stack.litAt == old(world.stack.litAt)
    ensures world.setting == Setting(world.queue, world.clock, world.soil.values, world.soil.taken, world.battery.values, world.battery.taken,
                                     world.stack.litAt, None)
  {
    hide InStep, Stack.Unheard;
    world.bootAt := world.clock;
    // The stack has not started yet, and counts as active until it does.
    world.stack := world.stack.(activeUntil := Max(U64_MAX, world.clock), toldActive := true, changed := false,
                                toldLit := world.stack.IsLit(world.clock));
    world.trace := [];
    world.setting := Setting(world.queue, world.bootAt, world.soil.values, world.soil.taken, world.battery.values, world.battery.taken,
                             world.stack.litAt, None);
    BeginsInStep(world.setting);
  }

  /** One boot, from the current instant to whatever ends it, and its sleep, in the books. */
  method RunBoot(world: SimWorld, wake: WakeCause) returns (outcome: Option<Outcome>, ghost r: Device.Record)
    requires world.Valid() && world.Balanced()
    modifies world, world.soil, world.battery
    ensures world.Valid() && TailOf(world.queue, old(world.queue)) && world.stack.litAt == old(world.stack.litAt)
    ensures world.clock >= old(world.clock)
    ensures r.boot == Boot(wake, 0, old(world.afterCrash)) && r.stored == old(world.calibration)
    ensures FedBy(old(world.queue), old(world.clock), NewApp(r.boot, r.stored), 0, r.course.ds)
    ensures outcome.Some? ==>
              && Behaves(r, outcome.value) && world.Balanced() && world.calibration == Device.InEffect(r)
              && Leaves(SettingOf(old(InWorld(world)), r), r.All(), world.queue, world.soil.taken, world.battery.taken) && !world.afterCrash
              && world.boots == old(world.boots) + [BootRecord(old(world.clock), wake, outcome.value, r.now)]
              && world.clock == old(world.clock) + r.now + (if outcome.value.Sleep? then outcome.value.forMs else 0)
    ensures outcome.None? ==> world.boots == old(world.boots) && BootGivenUp(world, r)
    ensures old(SleepsAlone(world)) && wake != WakeCause.Button ==> outcome.Some? && outcome.value.Sleep?
  {
    hide SimWorld.Ahead, InStep, EndOfChain, Awake, Asleep, TailOf, Behaves, Stack.Unheard, FedBy, NewApp, SETTLED, Device.InEffect;
    BeginBoot(world);
    var startedAt := world.clock;
    outcome, r := Drive(world, wake);
    if outcome.Some? {
      LeavesWhatIsAhead(world.setting, r.All(), world.Ahead());
      OutlookOf(world);
      world.Book(startedAt, wake, outcome.value);
    }
  }

  lemma OutlookOf(world: SimWorld)
    requires world.Valid()
    ensures var w := world.Ahead(); w.queue == world.queue && w.soil == world.soil.taken && w.cell == world.battery.taken
  {
    hide InStep;
  }

  /** A world that leaves its boots alone from now on: no edge is left, and the stack becomes
      long-idle in time for a boot that begins now to sleep within its limit. */
  predicate SleepsAlone(world: SimWorld)
    reads world`queue, world`stack, world`clock
  {
    AloneFrom(world.queue, world.stack.litAt, world.clock, Min(world.bootLimit, HORIZON))
  }

  predicate AloneFrom(queue: seq<Scheduled>, litAt: nat, clock: nat, limit: nat)
  {
    queue == [] && Max(SIM_LIMITS.soil + SIM_LIMITS.battery + ACTIVE_HOLD, litAt - clock) + SETTLED <= limit
  }

  lemma AloneLater(queue: seq<Scheduled>, left: seq<Scheduled>, litAt: nat, clock: nat, later: nat, limit: nat)
    requires AloneFrom(queue, litAt, clock, limit) && clock <= later && TailOf(left, queue)
    ensures AloneFrom(left, litAt, later, limit) && queue == []
  {
    hide SETTLED, TailOf;
    OnlyTailOfNothing(left, queue);
  }

  /** What a boot finds and leaves: the calibration in storage, the edges to come, the clock,
      and whether it is to be told of a crash; how many readings of each script have been said;
      and what stays, the scripts and when the device becomes long-idle. */
  datatype Between = Between(durable: Calibration, queue: seq<Scheduled>, clock: nat, afterCrash: bool, soilRead: nat, cellRead: nat,
                             soil: seq<U32>, cell: seq<U32>, litAt: nat)

  /** The setting of a boot. */
  function SettingOf(found: Between, r: Device.Record): Setting
  {
    Setting(found.queue, found.clock, found.soil, found.soilRead, found.cell, found.cellRead, found.litAt, StackOf(r))
  }

  /** What there is in a world, between its boots. */
  ghost function InWorld(world: SimWorld): Between
    reads world`calibration, world`queue, world`clock, world`afterCrash, world`stack, world.soil, world.battery
  {
    Between(world.calibration, world.queue, world.clock, world.afterCrash, world.soil.taken, world.battery.taken,
            world.soil.values, world.battery.values, world.stack.litAt)
  }

  /** A boot of a run, as it was and as it is booked. It was woken by the button exactly when
      the first edge still to come was a press that had come, and by the timer if not; it went
      by the calibration it found; its stack, its sensors and its button answered it as that
      setting says (`Simulator.Fits`), and it left exactly what it did not take. */
  ghost predicate BootBooked(found: Between, r: Device.Record, b: BootRecord, left: Between)
  {
    && Behaves(r, b.outcome)
    && r.boot == Boot(b.wake, 0, found.afterCrash) && r.stored == found.durable
    && (b.wake == WakeCause.Button <==> found.queue != [] && found.queue[0].edge == Falling && found.queue[0].at <= found.clock)
    && (b.wake == WakeCause.Button || b.wake == WakeCause.Timer)
    && b.startedAt == found.clock && b.awakeMs == r.now
    && FedBy(found.queue, found.clock, NewApp(r.boot, r.stored), 0, r.course.ds)
    && Leaves(SettingOf(found, r), r.All(), left.queue, left.soilRead, left.cellRead)
    && left.soil == found.soil && left.cell == found.cell && left.litAt == found.litAt
    && left.durable == Device.InEffect(r) && left.clock == b.startedAt + b.awakeMs + AsleepAfter(b) && !left.afterCrash
  }

  /** The boots of a run, each of which found what the one before it left, and all but the
      last of which slept. */
  ghost predicate Booked(first: Between, found: seq<Between>, records: seq<Device.Record>, booked: seq<BootRecord>, last: Between)
  {
    |found| == |booked| == |records| &&
    if records == [] then last == first
    else
      var n := |records| - 1;
      && BootBooked(found[n], records[n], booked[n], last)
      && Booked(first, found[..n], records[..n], booked[..n], found[n])
      && (n > 0 ==> booked[n - 1].outcome.Sleep?)
  }

  /** Boot `i` of a run, by itself. */
  lemma {:induction false} BootOfARun(first: Between, found: seq<Between>, records: seq<Device.Record>, booked: seq<BootRecord>, last: Between, i: nat)
    requires Booked(first, found, records, booked, last) && i < |records|
    ensures BootBooked(found[i], records[i], booked[i], if i + 1 < |found| then found[i + 1] else last)
    ensures found[0] == first && (i + 1 < |records| ==> booked[i].outcome.Sleep?)
  {
    var n := |records| - 1;
    hide BootBooked;
    if i < n {
      assert found[..n][i] == found[i] && records[..n][i] == records[i] && booked[..n][i] == booked[i];
      assert i + 1 < n ==> found[..n][i + 1] == found[i + 1];
      BootOfARun(first, found[..n], records[..n], booked[..n], found[n], i);
    } else if n > 0 {
      BootOfARun(first, found[..n], records[..n], booked[..n], found[n], 0);
    }
  }

  /** How many edges and readings the boots of a run were given. */
  function EdgesGiven(records: seq<Device.Record>): nat
  {
    if records == [] then 0 else EdgesGiven(records[..|records| - 1]) + EdgesTaken(records[|records| - 1].All())
  }

  function SoilGiven(records: seq<Device.Record>): nat
  {
    if records == [] then 0 else SoilGiven(records[..|records| - 1]) + SoilReads(records[|records| - 1].All())
  }

  function CellsGiven(records: seq<Device.Record>): nat
  {
    if records == [] then 0 else CellsGiven(records[..|records| - 1]) + CellReads(records[|records| - 1].All())
  }

  lemma GivenGrows(records: seq<Device.Record>)
    requires records != []
    ensures var most, t := records[..|records| - 1], records[|records| - 1].All();
            && EdgesGiven(records) == EdgesGiven(most) + EdgesTaken(t)
            && SoilGiven(records) == SoilGiven(most) + SoilReads(t) && CellsGiven(records) == CellsGiven(most) + CellReads(t)
  {
  }

  /** What a boot leaves is what it found without what it was given. */
  lemma BootLeaves(found: Between, r: Device.Record, b: BootRecord, left: Between)
    requires BootBooked(found, r, b, left)
    ensures EdgesTaken(r.All()) <= |found.queue| && left.queue == found.queue[EdgesTaken(r.All())..]
    ensures left.soilRead == found.soilRead + SoilReads(r.All()) && left.cellRead == found.cellRead + CellReads(r.All())
  {
    hide Behaves, FedBy, NewApp, Follow, Device.InEffect, EdgesTaken, SoilReads, CellReads;
    TakenFromTheFront(SettingOf(found, r), r.All());
  }

  lemma NothingBooked(first: Between, found: seq<Between>, records: seq<Device.Record>, booked: seq<BootRecord>, last: Between)
    requires Booked(first, found, records, booked, last) && records == []
    ensures last == first && EdgesGiven(records) == SoilGiven(records) == CellsGiven(records) == 0
  {
  }

  lemma LastBooked(first: Between, found: seq<Between>, records: seq<Device.Record>, booked: seq<BootRecord>, last: Between)
    requires Booked(first, found, records, booked, last) && records != []
    ensures var n := |records| - 1;
            && |found| == |booked| == n + 1
            && BootBooked(found[n], records[n], booked[n], last) && Booked(first, found[..n], records[..n], booked[..n], found[n])
  {
    hide BootBooked;
  }

  /** Over a run no edge is lost, and none is given twice: what is left is what there was,
      less what the boots were given. And the scripts go on from boot to boot. */
  lemma {:induction false} NoEdgeIsLost(first: Between, found: seq<Between>, records: seq<Device.Record>, booked: seq<BootRecord>, last: Between)
    requires Booked(first, found, records, booked, last)
    ensures EdgesGiven(records) <= |first.queue| && last.queue == first.queue[EdgesGiven(records)..]
    ensures last.soilRead == first.soilRead + SoilGiven(records) && last.cellRead == first.cellRead + CellsGiven(records)
  {
    hide *;
    if records == [] {
      NothingBooked(first, found, records, booked, last);
    } else {
      var n := |records| - 1;
      LastBooked(first, found, records, booked, last);
      NoEdgeIsLost(first, found[..n], records[..n], booked[..n], found[n]);
      BootLeaves(found[n], records[n], booked[n], last);
      GivenGrows(records);
      DroppedTwice(first.queue, EdgesGiven(records[..n]), EdgesTaken(records[n].All()));
    }
  }

  /** When a boot of the simulator that sleeps is to wake: it looked at the stack last, with
      its call `n`, when it was long-idle and no longer active; it was awake for a second at
      least after the stack was started; and it sleeps until half an hour after the stack was
      last active, or for a second if that has come. */
  lemma SleepsUntilTheCheckIn(found: Between, r: Device.Record, b: BootRecord, left: Between) returns (n: nat, active: nat)
    requires BootBooked(found, r, b, left) && b.outcome.Sleep?
    ensures r.course.Whole? && n < |r.All()| && r.All()[n].IcdRead?
    ensures Follow(SettingOf(found, r), r.All()[..n]).Some? && Follow(SettingOf(found, r), r.All()[..n]).value.awakeUntil == Some(active)
    ensures r.course.start + 1_000 <= active <= r.now && found.litAt <= found.clock + r.now
    ensures left.clock == found.clock + Max(active + 1_800_000, r.now + 1_000)
  {
    SleepsWhole(found, r, b, left);
    n := LooksAtTheStack(r, b.outcome);
    var s, t := SettingOf(found, r), r.All();
    assert s.started == Some(Started(|r.waking|, r.course.start)) && s.bootAt == found.clock && s.litAt == found.litAt;
    hide *;
    FitsAt(s, t, n);
    ActiveAtFirst(s, t[..n]);
    active := Follow(s, t[..n]).value.awakeUntil.value;
    SaysSo(s, Follow(s, t[..n]).value, t[n]);
    LastsSo(r.now, active, t[n].icd, b.outcome.forMs, found.clock, left.clock, found.litAt);
  }

  lemma SleepsWhole(found: Between, r: Device.Record, b: BootRecord, left: Between)
    requires BootBooked(found, r, b, left) && b.outcome.Sleep?
    ensures Behaves(r, b.outcome) && r.course.Whole? && r.end == Device.Slept(b.outcome.forMs) && Follow(SettingOf(found, r), r.All()).Some?
    ensures left.clock == found.clock + r.now + b.outcome.forMs
  {
    hide Device.Booted, Follow, FedBy, NewApp, Device.InEffect, Pump, PumpLegal, Outcomes;
  }

  lemma LooksAtTheStack(r: Device.Record, outcome: Outcome) returns (n: nat)
    requires Behaves(r, outcome) && outcome.Sleep?
    ensures |r.waking| <= n < |r.All()| && r.All()[n].IcdRead? && r.All()[n].at == r.now
    ensures var icd := r.All()[n].icd;
            && icd.operatingMode == Lit && icd.powerMode == PowerMode.Idle
            && outcome.forMs == Max(SLEEP_MIN, Min(icd.pollIntervalMs, if icd.idleUntil.Some? then Since(icd.idleUntil.value, r.now) else icd.pollIntervalMs))
  {
    hide BootTheorems.FedWithin, BootTheorems.WrittenInTime, Watching.WritesIn, WakePhase.Readings, Device.IsBoot, Device.InEffect, Device.BootHunger;
    BootsOfTheSimulator(r, outcome);
    var read: nat, since: nat, empty: nat :| BootTheorems.SleptSafely(r.calls, false, r.now, r.end.forMs, read, since, empty);
    n := |r.waking| + read;
    assert r.All() == r.waking + r.calls && r.All()[n] == r.calls[read];
  }

  lemma SaysSo(s: Setting, w: Outlook, e: Entry)
    requires Fits(s, w, e) && e.IcdRead? && w.awakeUntil.Some?
    ensures e.icd == StackSays(s.bootAt, s.litAt, w.awakeUntil.value, e.at)
  {
  }

  lemma LastsSo(now: nat, active: nat, icd: IcdState, forMs: nat, bootAt: nat, wakes: nat, litAt: nat)
    requires icd == StackSays(bootAt, litAt, active, now) && icd.operatingMode == Lit && icd.powerMode == PowerMode.Idle
    requires forMs == Max(SLEEP_MIN, Min(icd.pollIntervalMs, if icd.idleUntil.Some? then Since(icd.idleUntil.value, now) else icd.pollIntervalMs))
    requires wakes == bootAt + now + forMs
    ensures active <= now && litAt <= bootAt + now && wakes == bootAt + Max(active + 1_800_000, now + 1_000)
  {
  }

  lemma BehavesWithoutWriting(r: Device.Record, outcome: Outcome)
    requires Behaves(r, outcome) && !r.IsCold()
    ensures Watching.WritesIn(r.All()) == 0
  {
    hide Device.WellBehaved, Behaves, Device.BootHunger;
    BootsOfTheSimulator(r, outcome);
    Device.Promises(r, Device.BootHunger(SIM_LIMITS, 0));
  }

  /** Every boot of a run is a boot, and none writes the reboot count. */
  lemma NoRunWritesTheRebootCount(first: Between, found: seq<Between>, records: seq<Device.Record>, booked: seq<BootRecord>, last: Between, i: nat)
    requires Booked(first, found, records, booked, last) && i < |records|
    ensures Behaves(records[i], booked[i].outcome) && Watching.WritesIn(records[i].All()) == 0
  {
    BootOfARun(first, found, records, booked, last, i);
    hide Booked, Device.InEffect, Behaves, FedBy, NewApp, Leaves, Watching.WritesIn;
    BehavesWithoutWriting(records[i], booked[i].outcome);
  }

  lemma BookedOneMore(first: Between, found: seq<Between>, records: seq<Device.Record>, booked: seq<BootRecord>, here: Between,
                      r: Device.Record, b: BootRecord, left: Between)
    requires Booked(first, found, records, booked, here) && BootBooked(here, r, b, left)
    requires records != [] ==> booked[|booked| - 1].outcome.Sleep?
    ensures Booked(first, found + [here], records + [r], booked + [b], left)
  {
    hide BootBooked;
    assert (found + [here])[..|found|] == found && (records + [r])[..|records|] == records && (booked + [b])[..|booked|] == booked;
  }

  /** The next boot: what is waiting at its moment is what woke it. */
  method RunNext(world: SimWorld) returns (outcome: Option<Outcome>, ghost r: Device.Record, ghost b: BootRecord)
    requires world.Valid() && world.Balanced()
    modifies world, world.soil, world.battery
    ensures world.Valid() && TailOf(world.queue, old(world.queue)) && world.stack.litAt == old(world.stack.litAt)
    ensures world.clock >= old(world.clock)
    ensures outcome.Some? ==>
              && world.Balanced() && world.boots == old(world.boots) + [b] && b.outcome == outcome.value
              && BootBooked(old(InWorld(world)), r, b, InWorld(world))
              && (outcome.value.Sleep? ==> world.clock >= old(world.clock) + SLEEP_MIN)
    ensures outcome.None? ==> world.boots == old(world.boots) && BootGivenUp(world, r)
    ensures old(SleepsAlone(world)) ==> outcome.Some? && outcome.value.Sleep?
  {
    hide SimWorld.Ahead, InStep, Leaves, TailOf, Behaves, EndOfChain, Awake, Asleep, Device.InEffect, BootBooked, Stack.Unheard, FedBy, NewApp, SETTLED, BootGivenUp;
    var wake := if world.queue != [] && world.queue[0].edge.Falling? && world.queue[0].at <= world.clock then WakeCause.Button else WakeCause.Timer;
    ghost var here := InWorld(world);
    outcome, r := RunBoot(world, wake);
    if outcome.Some? {
      b := BootRecord(here.clock, wake, outcome.value, r.now);
      ThisIsBooked(here, r, b, InWorld(world));
      if outcome.value.Sleep? {
        SleptASecond(r, outcome.value);
      }
    } else {
      b := BootRecord(here.clock, wake, Outcome.FactoryReset, 0);
    }
  }

  /** Boots until the clock passes `until`, or a factory reset, or a boot the simulator gives
      up on. It terminates: after at most one boot for every second there is to go, and one.
      In a world that leaves its boots alone it comes to `until`, by sleep after sleep. */
  method RunUntil(world: SimWorld, until: nat)
    returns (ran: bool, ghost found: seq<Between>, ghost records: seq<Device.Record>, ghost last: Device.Record)
    requires world.Valid() && world.Balanced()
    modifies world, world.soil, world.battery
    ensures world.Valid() && TailOf(world.queue, old(world.queue))
    ensures |records| <= (if until > old(world.clock) then (until - old(world.clock)) / SLEEP_MIN + 1 else 0)
    ensures |world.boots| == |old(world.boots)| + |records| && world.boots[..|old(world.boots)|] == old(world.boots)
    ensures ran ==>
              && world.Balanced()
              && (world.clock >= until || (records != [] && world.boots[|world.boots| - 1].outcome.FactoryReset?))
              && Booked(old(InWorld(world)), found, records, world.boots[|old(world.boots)|..], InWorld(world))
    ensures !ran ==> BootGivenUp(world, last)
    ensures old(SleepsAlone(world)) ==> ran && world.clock >= until
  {
    hide SimWorld.Ahead, InStep, TailOf, Behaves, EndOfChain, Awake, Asleep, Device.InEffect, Booked, BootBooked, Stack.Unheard, FedBy, NewApp,
         SETTLED, BootGivenUp, AloneFrom;
    ghost var start, first, n, alone, limit := world.clock, InWorld(world), |world.boots|, SleepsAlone(world), Min(world.bootLimit, HORIZON);
    found, records, ran, last := [], [], true, Device.Record(Boot(WakeCause.Timer, 0, false), world.calibration, Device.Cut(0, []), [], [], Device.Unfinished, 0);
    TailOfItself(world.queue);
    NoneBooked(first);
    assert world.boots[n..] == [];
    while world.clock < until
      invariant world.Valid() && world.Balanced() && TailOf(world.queue, old(world.queue))
      invariant |world.boots| == n + |records| && world.boots[..n] == old(world.boots)
      invariant Booked(first, found, records, world.boots[n..], InWorld(world))
      invariant records != [] ==> world.boots[|world.boots| - 1].outcome.Sleep?
      invariant world.clock >= start + SLEEP_MIN * |records|
      invariant |records| > 0 ==> SLEEP_MIN * (|records| - 1) < until - start
      invariant alone ==> AloneFrom(world.queue, world.stack.litAt, world.clock, limit)
      decreases until - world.clock
    {
      ghost var held, before, at, here, litAt := world.queue, world.boots, world.clock, InWorld(world), world.stack.litAt;
      if alone {
        TailOfItself(held);
        AloneLater(held, held, litAt, at, at, limit);
      }
      var outcome;
      ghost var r, b;
      outcome, r, b := RunNext(world);
      TailOfTail(world.queue, held, old(world.queue));
      if outcome.None? {
        return false, found, records, r;
      }
      if alone {
        AloneLater(held, world.queue, litAt, at, world.clock, limit);
      }
      BookedOneMore(first, found, records, before[n..], here, r, b, InWorld(world));
      OneMoreRecord(before, b, n);
      found, records := found + [here], records + [r];
      if outcome.value.FactoryReset? {
        break;
      }
    }
    BootsInSeconds(|records|, until - start);
  }

  lemma OneMoreRecord(boots: seq<BootRecord>, b: BootRecord, n: nat)
    requires n <= |boots|
    ensures (boots + [b])[n..] == boots[n..] + [b] && (boots + [b])[..n] == boots[..n]
  {
  }

  lemma BootsInSeconds(boots: nat, time: int)
    requires boots > 0 ==> SLEEP_MIN * (boots - 1) < time
    ensures boots <= if time > 0 then time / SLEEP_MIN + 1 else 0
  {
  }

  lemma NoneBooked(first: Between)
    ensures Booked(first, [], [], [], first)
  {
  }

  lemma ThisIsBooked(found: Between, r: Device.Record, b: BootRecord, left: Between)
    requires Behaves(r, b.outcome) && r.boot == Boot(b.wake, 0, found.afterCrash) && r.stored == found.durable
    requires b.wake == if found.queue != [] && found.queue[0].edge.Falling? && found.queue[0].at <= found.clock then WakeCause.Button else WakeCause.Timer
    requires b.startedAt == found.clock && b.awakeMs == r.now
    requires FedBy(found.queue, found.clock, NewApp(r.boot, r.stored), 0, r.course.ds)
    requires Leaves(SettingOf(found, r), r.All(), left.queue, left.soilRead, left.cellRead)
    requires left.soil == found.soil && left.cell == found.cell && left.litAt == found.litAt
    requires left.durable == Device.InEffect(r) && left.clock == b.startedAt + b.awakeMs + AsleepAfter(b) && !left.afterCrash
    ensures BootBooked(found, r, b, left)
  {
    hide Behaves, FedBy, Leaves, Device.InEffect, NewApp;
  }

  lemma SleptASecond(r: Device.Record, outcome: Outcome)
    requires Behaves(r, outcome) && outcome.Sleep?
    ensures outcome.forMs >= SLEEP_MIN
  {
    hide Behaves;
    BootsOfTheSimulator(r, outcome);
  }
}
