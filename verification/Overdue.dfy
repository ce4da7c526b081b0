/**
 Waits that pass the button by. A deadline of the button that has come and was not
 served is overdue. The operational phase does not wait for such a one, and the wake
 phase waits for nothing else; this module says exactly when there is one.
 */
module Overdue {
  import opened Machine
  import opened Vocabulary
  import opened Tuning
  import opened BootModel
  import opened Simulator
  import Button
  import BootTheorems
  import OperationalPhase
  import WakePhase
  import Flow = CalibrationFlow

  predicate Overdue(f: Button.Fsm, t: nat)
  {
    f.NextDeadline().Some? && f.deadline <= t
  }

  /** An event that comes when the deadline of the button has, and does not move the
      button: a notice, or an edge the button does not heed. */
  predicate PassesBy(f: Button.Fsm, event: Event, until: nat)
  {
    && Overdue(f, until)
    && match event
       case Deadline => false
       case Icd => true
       case Button(edge) => Button.EdgeNext(f, edge, until) == f
  }

  /** After an event the button is overdue exactly when the event passed it by. */
  lemma EventLeavesOverdue(a: AppState, event: Event, until: nat)
    requires until <= 2 * HORIZON - BUTTON_FACTORY_RESET_HOLD - 1
    ensures Overdue(OnEvent(a, event, until).app.button, until) <==> PassesBy(a.button, event, until)
  {
  }

  // In the operational phase.

  lemma {:induction false} DrainedIsNotOverdue(f: Button.Fsm, edges: seq<Edge>, now: nat)
    requires f.mode == Button.Mode.Idle && now < U64_MAX
    ensures !Overdue(Drained(f, edges, now), now)
    ensures var g := Drained(f, edges, now); g.mode == Button.Mode.Idle || (g.mode == Button.Debounce && now < g.deadline)
  {
    if edges != [] {
      DrainedIsNotOverdue(f, edges[..|edges| - 1], now);
    }
  }

  /** No decision makes a button overdue or serves one that is. */
  lemma DecisionLeavesOverdue(a: AppState, now: nat, icd: IcdState, edges: seq<Edge>)
    requires now < U64_MAX
    ensures Overdue(Decide(a, now, icd, edges).app.button, now) <==> Overdue(a.button, now)
    ensures Decide(a, now, icd, edges).app.nextSample == a.nextSample
  {
    if a.button.mode == Button.Mode.Idle {
      DrainedIsNotOverdue(a.button, edges, now);
    }
    hide Drained, Taken;
  }

  /** In every run: a wait passes the button's deadline exactly when the deadline came
      before the due work of the round was done; and it had come before the round began
      exactly when the event before it passed the button by. */
  lemma WaitPassesTheButtonExactlyWhen(l: Limits, a: AppState, at: nat, laps: seq<Lap>, n: nat)
    requires BootTheorems.Starts(a, at) && IsRun(l, a, at, laps) && n < |laps|
    requires Decision(laps[n].app, laps[n].at, laps[n].answers).outcome.None?
    ensures var lap := laps[n];
            var button, now := Decision(lap.app, lap.at, lap.answers).app.button, DueAt(lap.app, lap.at, lap.answers.due);
            && (button.NextDeadline().Some? ==>
                  (button.deadline < WaitDeadline(lap.app, lap.at, lap.answers) <==> Overdue(lap.app.button, now)))
            && (Overdue(lap.app.button, lap.at) <==>
                  if n == 0 then Overdue(a.button, at)
                  else var before := laps[n - 1];
                       PassesBy(Decision(before.app, before.at, before.answers).app.button, before.answers.event, before.answers.until))
  {
    var lap := laps[n];
    HeadOf(l, a, at, laps, n);
    var b, now := DueDone(lap.app, lap.at, lap.answers.due), DueAt(lap.app, lap.at, lap.answers.due);
    OperationalPhase.DueTakes(l, lap.app, lap.at, lap.answers.due);
    DecisionLeavesOverdue(b, now, lap.answers.icd, lap.answers.edges);
    OperationalPhase.DeadlineIsNext(Decision(lap.app, lap.at, lap.answers).app, now);
    hide DueDone, DueAt, DueLegal, Decide, Round;
    if n > 0 {
      var before := laps[n - 1];
      HeadOf(l, a, at, laps, n - 1);
      RoundLeavesOverdue(l, before, lap.app, lap.at);
    }
  }

  /** The longest the due work of a round can take. */
  function DueMost(l: Limits): nat
  {
    2 * SOIL_CAL_HOLD + 2 * l.late + 3 * l.soil + l.store + l.battery
  }

  /** How long a deadline of the button can go unserved, in every run. At a wait before which
      no event passed the button by, the wait is over at most the due work, a sample period
      and the lateness after the deadline; and if the deadline has come by then, the button
      has moved, unless what ended the wait passed it by. */
  lemma ServedInTime(l: Limits, a: AppState, at: nat, laps: seq<Lap>, n: nat)
    requires BootTheorems.Starts(a, at) && IsRun(l, a, at, laps) && n < |laps|
    requires Decision(laps[n].app, laps[n].at, laps[n].answers).outcome.None?
    requires if n == 0 then !Overdue(a.button, at)
             else var before := laps[n - 1];
                  !PassesBy(Decision(before.app, before.at, before.answers).app.button, before.answers.event, before.answers.until)
    requires Decision(laps[n].app, laps[n].at, laps[n].answers).app.button.NextDeadline().Some?
    ensures var lap := laps[n];
            var b, event, until := Decision(lap.app, lap.at, lap.answers).app, lap.answers.event, lap.answers.until;
            && until <= b.button.deadline + DueMost(l) + SAMPLE_PERIOD + l.late
            && (b.button.deadline <= until && !PassesBy(b.button, event, until) ==> OnEvent(b, event, until).app.button.mode != b.button.mode)
  {
    var lap := laps[n];
    HeadOf(l, a, at, laps, n);
    WaitPassesTheButtonExactlyWhen(l, a, at, laps, n);
    OperationalPhase.DueTakes(l, lap.app, lap.at, lap.answers.due);
    var b, now := Decision(lap.app, lap.at, lap.answers).app, DueAt(lap.app, lap.at, lap.answers.due);
    DecisionLeavesOverdue(DueDone(lap.app, lap.at, lap.answers.due), now, lap.answers.icd, lap.answers.edges);
    NewPressesAreAhead(DueDone(lap.app, lap.at, lap.answers.due), now, lap.answers);
    OperationalPhase.DeadlineIsNext(b, now);
    assert OperationalPhase.IsCandidate(b, b.nextSample);
    if b.button.deadline <= lap.answers.until && !PassesBy(b.button, lap.answers.event, lap.answers.until) {
      MovesUnlessPassedBy(b, lap.answers.event, lap.answers.until);
    }
    hide DueDone, DueAt, DueLegal, Decide, Round, OnEvent, NextDeadline, PassesBy;
  }

  /** The deadline a decision leaves is the one it found, or one still to come. */
  lemma NewPressesAreAhead(a: AppState, now: nat, x: BootModel.Answers)
    requires now < HORIZON + 0x1000_0000_0000
    ensures var f := Decide(a, now, x.icd, x.edges).app.button; f == a.button || (f.NextDeadline().Some? ==> now < f.deadline)
  {
    if a.button.mode == Button.Mode.Idle {
      DrainedIsNotOverdue(a.button, x.edges, now);
    }
    hide Drained, Taken;
  }

  lemma MovesUnlessPassedBy(a: AppState, event: Event, until: nat)
    requires a.button.NextDeadline().Some? && a.button.deadline <= until && !PassesBy(a.button, event, until)
    ensures OnEvent(a, event, until).app.button.mode != a.button.mode
  {
  }

  /** Lap `n` is a legal round, from a head whose next sample is at most a period away. */
  lemma HeadOf(l: Limits, a: AppState, at: nat, laps: seq<Lap>, n: nat)
    requires BootTheorems.Starts(a, at) && IsRun(l, a, at, laps) && n < |laps|
    ensures var lap := laps[n];
            && RoundLegal(l, lap.app, lap.at, lap.answers) && lap.end == Round(lap.app, lap.at, lap.answers)
            && lap.app.nextSample <= lap.at + SAMPLE_PERIOD
            && (if n == 0 then lap.app == a && lap.at == at else laps[n - 1].end.config == Running(lap.app, lap.at))
  {
    var most := laps[..n];
    assert Follows(l, a, at, laps, n);
    forall i: nat | i < |most| ensures Follows(l, a, at, most, i) {
      assert Follows(l, a, at, laps, i);
    }
    assert HeadAfter(a, at, most, |most|) == HeadAfter(a, at, laps, n);
    hide RoundLegal, Round, Follows;
    BootTheorems.RunIsFollowed(l, a, at, at, most);
  }

  lemma RoundLeavesOverdue(l: Limits, lap: Lap, b: AppState, until: nat)
    requires RoundLegal(l, lap.app, lap.at, lap.answers) && lap.end == Round(lap.app, lap.at, lap.answers)
    requires lap.app.nextSample <= lap.at + SAMPLE_PERIOD
    requires lap.end.config == Running(b, until)
    ensures Overdue(b.button, until) <==>
              PassesBy(Decision(lap.app, lap.at, lap.answers).app.button, lap.answers.event, lap.answers.until)
  {
    OperationalPhase.DueTakes(l, lap.app, lap.at, lap.answers.due);
    var decision, now := Decision(lap.app, lap.at, lap.answers), DueAt(lap.app, lap.at, lap.answers.due);
    DecisionLeavesOverdue(DueDone(lap.app, lap.at, lap.answers.due), now, lap.answers.icd, lap.answers.edges);
    OperationalPhase.DeadlineIsNext(decision.app, now);
    assert OperationalPhase.IsCandidate(decision.app, decision.app.nextSample);
    EventLeavesOverdue(decision.app, lap.answers.event, lap.answers.until);
    hide DueDone, DueAt, DueLegal, Decide, OnEvent, NextDeadline, PassesBy, Overdue;
  }

  // Two runs in which a press is not believed in time.

  const QUIET_ICD := IcdState(PowerMode.Active, Sit, 15_000, None)

  function ReadingUntil(soil: nat, battery: nat): DueAnswers
  {
    DueAnswers(NO_FLOW, Flow.Reading(1_200, soil), Flow.Reading(1_250, battery))
  }

  /** The application of a timer wake whose reading took 900 ms. */
  function TimerBoot(): AppState
  {
    DueDone(NewApp(Boot(WakeCause.Timer, 0, false), DEFAULT_CALIBRATION), 0, ReadingUntil(800, 900))
  }

  function LapOf(a: AppState, at: nat, due: DueAnswers, event: Event, until: nat): Lap
  {
    var x := BootModel.Answers(due, QUIET_ICD, [], event, until);
    Lap(a, at, x, Round(a, at, x))
  }

  /** A world fast enough for the readings of these runs. */
  predicate ReadsInTime(l: Limits) { l.soil >= 800 && l.battery >= 100 }

  lemma TimerBootStarts()
    ensures TimerBoot() == AppState(DEFAULT_CALIBRATION, Button.Fresh(false, 0), 30_900, false, false, 60_000, true, None)
    ensures BootTheorems.Starts(TimerBoot(), 900)
  {
  }

  /** A press at the very instant of a sample: its debounce runs out during the reading,
      and the wait after it is for the next sample, half a minute away. */
  lemma AReadingPassesAPress(l: Limits) returns (laps: seq<Lap>)
    requires ReadsInTime(l)
    ensures BootTheorems.Starts(TimerBoot(), 900) && IsRun(l, TimerBoot(), 900, laps) && |laps| == 2
    ensures laps[0].answers.event == Event.Button(Falling) && laps[0].answers.until == 30_900
    ensures var lap := laps[1];
            && lap.app.button.mode == Button.Debounce && lap.app.button.deadline == 30_920
            && DueAt(lap.app, lap.at, lap.answers.due) == 31_800 && WaitDeadline(lap.app, lap.at, lap.answers) == 61_800
            && lap.end.config.app.button.mode == Button.Held && lap.end.config.at == 61_800
  {
    TimerBootStarts();
    var a := TimerBoot();
    var first := LapOf(a, 900, NOTHING_DUE, Event.Button(Falling), 30_900);
    var b := a.(button := Button.Begun(a.button.(clicks := 1), 30_900));
    assert first.end.config == Running(b, 30_900);
    var second := LapOf(b, 30_900, ReadingUntil(31_700, 31_800), Deadline, 61_800);
    assert RoundLegal(l, a, 900, first.answers) && RoundLegal(l, b, 30_900, second.answers);
    assert WaitDeadline(b, 30_900, second.answers) == 61_800;
    var end := second.end.config;
    assert end.app.button.mode == Button.Held && end.at == 61_800;
    NoLaps(l, a, 900);
    hide Round, RoundLegal, WaitDeadline;
    RunGrows(l, a, 900, [], first);
    RunGrows(l, a, 900, [first], second);
    laps := [first, second];
    assert [] + [first] == [first] && [first] + [second] == laps;
  }

  /** A notice at the very instant of the deadline does it with no reading at all. */
  lemma ANoticePassesAPress(l: Limits) returns (laps: seq<Lap>)
    requires ReadsInTime(l)
    ensures BootTheorems.Starts(TimerBoot(), 900) && IsRun(l, TimerBoot(), 900, laps) && |laps| == 3
    ensures laps[0].answers.event == Event.Button(Falling) && laps[0].answers.until == 5_000
    ensures laps[1].answers.event == Icd && laps[1].answers.until == 5_020
    ensures var lap := laps[2];
            && lap.app.button.mode == Button.Debounce && lap.app.button.deadline == 5_020
            && DueAt(lap.app, lap.at, lap.answers.due) == 5_020 && WaitDeadline(lap.app, lap.at, lap.answers) == 30_900
  {
    TimerBootStarts();
    var a := TimerBoot();
    var first := LapOf(a, 900, NOTHING_DUE, Event.Button(Falling), 5_000);
    var b := a.(button := Button.Begun(a.button.(clicks := 1), 5_000));
    assert first.end.config == Running(b, 5_000) && RoundLegal(l, a, 900, first.answers);
    var second := LapOf(b, 5_000, NOTHING_DUE, Icd, 5_020);
    assert second.end.config == Running(b, 5_020) && RoundLegal(l, b, 5_000, second.answers);
    var third := LapOf(b, 5_020, NOTHING_DUE, Deadline, 30_900);
    assert WaitDeadline(b, 5_020, third.answers) == 30_900 && RoundLegal(l, b, 5_020, third.answers);
    NoLaps(l, a, 900);
    hide Round, RoundLegal, WaitDeadline;
    RunGrows(l, a, 900, [], first);
    RunGrows(l, a, 900, [first], second);
    RunGrows(l, a, 900, [first, second], third);
    laps := [first, second, third];
    assert [] + [first] == [first] && [first] + [second] == [first, second] && [first, second] + [third] == laps;
  }

  // In the wake phase.

  /** While the waking press is undecided: its next wait is for an instant that has come
      exactly when the last delivery passed the button by, or the load did. */
  lemma PressIsOverdueExactlyWhen(l: Limits, a: AppState, at: nat, ds: seq<Delivery>)
    requires PumpLegal(l, a, at, ds) && at <= HORIZON && a.button.deadline <= at + BUTTON_FACTORY_RESET_HOLD
    requires Pump(a, at, ds).config.Running? && Pump(a, at, ds).config.app.button.WakingPressPending()
    ensures var c := Pump(a, at, ds).config;
            c.app.button.deadline <= c.at <==>
              if ds == [] then a.button.deadline <= at
              else PassesBy(Pump(a, at, ds[..|ds| - 1]).config.app.button, ds[|ds| - 1].event, ds[|ds| - 1].until)
  {
    if ds != [] {
      var most, d := ds[..|ds| - 1], ds[|ds| - 1];
      WakePhase.LastDelivery(l, a, at, ds);
      WakePhase.PressIsFed(l, a, at, BootTheorems.Observer(a, at), BUTTON_FACTORY_RESET_HOLD + l.late, most);
      EventLeavesOverdue(Pump(a, at, most).config.app, d.event, d.until);
      hide PassesBy, OnEvent;
    }
  }

  /** So in the simulator, for all presses, queues and stacks: a wait of the wake phase is
      one that nothing can end exactly when the delivery before it passed the button by,
      no edge is waiting from the deadline or before, and the stack has told of every
      change. */
  lemma PressIsStuckExactlyWhen(a: AppState, at: nat, ds: seq<Delivery>, bootAt: nat, queue: seq<Scheduled>, stack: Stack)
    requires PumpLegal(SIM_LIMITS, a, at, ds) && at <= HORIZON && at < a.button.deadline <= at + BUTTON_FACTORY_RESET_HOLD
    requires Pump(a, at, ds).config.Running? && Pump(a, at, ds).config.app.button.WakingPressPending()
    ensures var c := Pump(a, at, ds).config;
            var deadline := bootAt + c.app.button.deadline;
            Await(bootAt + c.at, queue, stack, deadline).Stuck? <==>
              && ds != [] && PassesBy(Pump(a, at, ds[..|ds| - 1]).config.app.button, ds[|ds| - 1].event, ds[|ds| - 1].until)
              && (queue == [] || queue[0].at > deadline) && !stack.Synced(bootAt + c.at).changed
  {
    hide *;
    PressIsOverdueExactlyWhen(SIM_LIMITS, a, at, ds);
    var c := Pump(a, at, ds).config;
    StuckExactlyWhen(bootAt + c.at, queue, stack, bootAt + c.app.button.deadline);
  }

  /** The press that woke the device, held from 0, in a world that loads at once. */
  function WokenByPress(): AppState
  {
    NewApp(Boot(WakeCause.Button, 0, false), DEFAULT_CALIBRATION)
  }

  /** A stack that becomes long-idle at the very millisecond of the button's deadline tells
      of it twice, and then the simulator is stuck, with the press undecided. */
  lemma NoticesCanStickAPress()
    ensures var ds, stack := [Delivery(Icd, 10_000), Delivery(Icd, 10_000)], Stack(10_000, U64_MAX, LIT_POLL_PERIOD_MS, true, false, false);
            var first := Await(0, [], stack, 10_000);
            && first.Delivered? && Delivery(first.event, first.clock) == ds[0]
            && var second := Await(first.clock, first.queue, first.stack, 10_000);
               && second.Delivered? && Delivery(second.event, second.clock) == ds[1]
               && PumpLegal(SIM_LIMITS, WokenByPress(), 0, ds)
               && var c := Pump(WokenByPress(), 0, ds).config;
                  && c == Running(WokenByPress(), 10_000) && c.app.button.WakingPressPending() && c.app.button.deadline == 10_000
                  && Await(second.clock, second.queue, second.stack, c.app.button.deadline).Stuck?
  {
    var a, d := WokenByPress(), Delivery(Icd, 10_000);
    assert PumpLegal(SIM_LIMITS, a, 0, []) && Pump(a, 0, []) == Run(Running(a, 0), []);
    PumpExtends(SIM_LIMITS, a, 0, [], d);
    assert [] + [d] == [d] && [d] + [d] == [d, d];
    assert Pump(a, 0, [d]).config == Running(a, 10_000);
    PumpExtends(SIM_LIMITS, a, 0, [d], d);
  }

  /** An edge that a held button does not heed does the same, when it comes then. */
  lemma AnEdgeCanStickAPress()
    ensures var ds, stack := [Delivery(Event.Button(Falling), 10_000)], Stack(0, U64_MAX, LIT_POLL_PERIOD_MS, true, true, false);
            var first := Await(0, [Scheduled(10_000, Falling)], stack, 10_000);
            && first.Delivered? && Delivery(first.event, first.clock) == ds[0]
            && PumpLegal(SIM_LIMITS, WokenByPress(), 0, ds)
            && var c := Pump(WokenByPress(), 0, ds).config;
               && c == Running(WokenByPress(), 10_000) && c.app.button.WakingPressPending() && c.app.button.deadline == 10_000
               && Await(first.clock, first.queue, first.stack, c.app.button.deadline).Stuck?
  {
    var a, d := WokenByPress(), Delivery(Event.Button(Falling), 10_000);
    assert PumpLegal(SIM_LIMITS, a, 0, []) && Pump(a, 0, []) == Run(Running(a, 0), []);
    PumpExtends(SIM_LIMITS, a, 0, [], d);
    assert [] + [d] == [d];
  }
}
