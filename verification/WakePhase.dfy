/**
 The wake phase (`run_wake` in `core/src/app.rs`): the press that woke the device
 says what it wants, and then the one reading is taken.

 That the phase ends at all, for every finite supply of edges and notices, is that
 `Application.ResolvePress` terminates; how soon is `PressIsSoonResolved` here.
 */
module WakePhase {
  import opened Machine
  import opened Vocabulary
  import opened Tuning
  import opened BootModel
  import opened Watching
  import Measurement
  import OperationalPhase
  import BootTheorems
  import Button
  import Flow = CalibrationFlow

  /** What the button was given: the edges and the deadlines, but not the notices. */
  function Inputs(ds: seq<Delivery>): seq<Button.Input>
  {
    if ds == [] then []
    else
      var before, d := Inputs(ds[..|ds| - 1]), ds[|ds| - 1];
      match d.event
      case Button(edge) => before + [Button.EdgeAt(edge, d.until)]
      case Deadline => before + [Button.DeadlineAt(d.until)]
      case Icd => before
  }

  /** What the button said to its last input. */
  function LastWord(f: Button.Fsm, inputs: seq<Button.Input>): Option<Button.Gesture>
  {
    if inputs == [] then None else Button.Says(f, inputs, |inputs| - 1)
  }

  lemma {:induction false} AfterPrefix(f: Button.Fsm, inputs: seq<Button.Input>, more: Button.Input, n: nat)
    requires n <= |inputs|
    ensures Button.After(f, inputs + [more], n) == Button.After(f, inputs, n)
  {
    if n > 0 {
      AfterPrefix(f, inputs, more, n - 1);
    }
  }

  /** The application after a gesture, or none, at `t`. */
  function Asked(a: AppState, gesture: Option<Button.Gesture>, t: nat): AppState
  {
    match gesture
    case Some(SampleNow) => a.(sampleWithLed := true, nextSample := t)
    case Some(Calibrate) => a.(calibrationRequested := true)
    case _ => a
  }

  /** What a gesture asks of the protocol stack. */
  function Request(gesture: Option<Button.Gesture>, t: nat): seq<Entry>
  {
    match gesture
    case Some(SampleNow) => [ActiveRequested(t, None)]
    case Some(Calibrate) => [ActiveRequested(t, Some(CALIBRATION_ACTIVE_HOLD))]
    case _ => []
  }

  ghost predicate AllWaits(t: seq<Entry>)
  {
    forall i {:trigger t[i]} :: 0 <= i < |t| ==> t[i].Waited?
  }

  /** How far a waking press has come: `f` is the button, fed `inputs`, which said
      `word` to the last of them. While it is undecided nothing has been asked for;
      once it is decided the button is at rest, or a reset ends the boot. */
  ghost predicate PressAt(a: AppState, ds: seq<Delivery>, run: Run)
  {
    var f, inputs := a.button, Inputs(ds);
    var button, word := Button.After(f, inputs, |inputs|), LastWord(f, inputs);
    && run.config.app.button == button
    && match run.config
       case Ended(o, b, t) =>
         && o.FactoryReset? && word == Some(Button.Gesture.FactoryReset) && b == a.(button := button)
         && AllWaits(run.trace)
       case Running(b, t) =>
         && word != Some(Button.Gesture.FactoryReset)
         && if b.button.waking then
              b == a.(button := button) && word.None? && AllWaits(run.trace) && b.button.NextDeadline().Some?
            else
              && b == Asked(a.(button := button), word, t) && button.mode == Button.Mode.Idle
              && |Request(word, t)| <= |run.trace|
              && run.trace[|run.trace| - |Request(word, t)|..] == Request(word, t)
              && AllWaits(run.trace[..|run.trace| - |Request(word, t)|])
  }

  /** A boot begins with its button undecided and held, or at rest. */
  predicate Undecided(a: AppState)
  {
    if a.button.waking then a.button.mode == Button.Held else a.button.mode == Button.Mode.Idle
  }

  /** One event, and what the button makes of it. */
  function Handled(f: Button.Fsm, d: Delivery): (Button.Fsm, Option<Button.Gesture>)
  {
    match d.event
    case Button(edge) => (Button.EdgeNext(f, edge, d.until), None)
    case Deadline => Button.DeadlineNext(f, d.until)
    case Icd => (f, None)
  }

  /** An undecided press stays undecided and silent, with a deadline to wait for; or
      it asks for its one thing and the button is at rest; or it is a reset. */
  lemma PressMoves(b: AppState, d: Delivery)
    requires b.button.WakingPressPending() && (d.event == Deadline ==> b.button.deadline <= d.until)
    ensures var (button, word) := Handled(b.button, d);
            var turn := OnEvent(b, d.event, d.until);
            && turn.app == Asked(b.(button := button), word, d.until) && turn.calls == Request(word, d.until)
            && turn.outcome == (if word == Some(Button.Gesture.FactoryReset) then Some(Outcome.FactoryReset) else None)
            && (button.waking ==> word.None? && button.NextDeadline().Some?)
            && (!button.waking && turn.outcome.None? ==> button.mode == Button.Mode.Idle)
  {
  }

  /** The button as it was fed the inputs is the button of the application. */
  lemma InputMoves(f: Button.Fsm, ds: seq<Delivery>, d: Delivery)
    ensures var inputs, more := Inputs(ds), Inputs(ds + [d]);
            var (button, word) := Handled(Button.After(f, inputs, |inputs|), d);
            && Button.After(f, more, |more|) == button
            && LastWord(f, more) == if d.event == Icd then LastWord(f, inputs) else word
  {
    var inputs := Inputs(ds);
    assert (ds + [d])[..|ds|] == ds;
    if d.event != Icd {
      var input := if d.event.Button? then Button.EdgeAt(d.event.edge, d.until) else Button.DeadlineAt(d.until);
      assert Inputs(ds + [d]) == inputs + [input];
      AfterPrefix(f, inputs, input, |inputs|);
    }
  }

  lemma DeliveryMoves(a: AppState, ds: seq<Delivery>, before: Run, d: Delivery)
    requires PressAt(a, ds, before) && before.config.Running? && before.config.app.button.WakingPressPending()
    requires d.event == Deadline ==> before.config.app.button.deadline <= d.until
    ensures var b, t := before.config.app, before.config.at;
            var turn := OnEvent(b, d.event, d.until);
            PressAt(a, ds + [d],
                    Run(if turn.outcome.Some? then Ended(turn.outcome.value, turn.app, d.until) else Running(turn.app, d.until),
                        before.trace + [Waited(t, b.button.deadline, d.event, d.until)] + turn.calls))
  {
    var b := before.config.app;
    var turn := OnEvent(b, d.event, d.until);
    InputMoves(a.button, ds, d);
    PressMoves(b, d);
    hide OnEvent, Inputs, LastWord, Handled;
    var waits := before.trace + [Waited(before.config.at, b.button.deadline, d.event, d.until)];
    assert AllWaits(waits);
    assert (waits + turn.calls)[..|waits|] == waits;
  }

  lemma {:induction false} PressIsFollowed(l: Limits, a: AppState, at: nat, ds: seq<Delivery>)
    requires Undecided(a) && PumpLegal(l, a, at, ds)
    ensures PressAt(a, ds, Pump(a, at, ds))
  {
    if ds != [] {
      var before, d := ds[..|ds| - 1], ds[|ds| - 1];
      PressIsFollowed(l, a, at, before);
      DeliveryMoves(a, before, Pump(a, at, before), d);
      assert before + [d] == ds;
    }
  }

  /** How many deliveries were not the button's own deadline. */
  function Others(ds: seq<Delivery>): nat
  {
    if ds == [] then 0 else Others(ds[..|ds| - 1]) + if ds[|ds| - 1].event == Deadline then 0 else 1
  }

  /** The waits of the phase are bounded by the edges and notices the world sends. */
  lemma {:induction false} PressIsSoonResolved(l: Limits, a: AppState, at: nat, ds: seq<Delivery>)
    requires Undecided(a) && PumpLegal(l, a, at, ds)
    ensures |ds| <= 2 * Others(ds) + 1
    ensures var c := Pump(a, at, ds).config;
            c.Running? && c.app.button.waking ==> |ds| + Button.Rank(c.app.button.mode) <= 2 * Others(ds) + 1
  {
    if ds != [] {
      var before, d := ds[..|ds| - 1], ds[|ds| - 1];
      PressIsSoonResolved(l, a, at, before);
      PressIsFollowed(l, a, at, before);
      if d.event == Deadline {
        DeadlineIsServed(Pump(a, at, before).config.app, d.until);
      }
    }
  }

  // The end of the phase.

  function Readings(t: seq<Entry>): nat
  {
    if t == [] then 0 else Readings(t[..|t| - 1]) + if t[|t| - 1].SoilReported? then 1 else 0
  }

  lemma {:induction false} ReadingsConcat(s: seq<Entry>, t: seq<Entry>)
    ensures Readings(s + t) == Readings(s) + Readings(t)
  {
    if t == [] {
      assert s + t == s;
    } else {
      ReadingsConcat(s, t[..|t| - 1]);
      assert (s + t)[..|s + t| - 1] == s + t[..|t| - 1];
    }
  }

  lemma {:induction false} NoReadings(t: seq<Entry>)
    requires forall i :: 0 <= i < |t| ==> !t[i].SoilReported?
    ensures Readings(t) == 0
  {
    if t != [] {
      NoReadings(t[..|t| - 1]);
    }
  }

  /** Everything a wake phase says before its work is due. */
  function WakeTrace(boot: Boot, at: nat, calibration: Calibration, loadedAt: nat, ds: seq<Delivery>): seq<Entry>
  {
    Preamble(boot, at, calibration, loadedAt) + Pump(NewApp(boot, calibration), loadedAt, ds).trace
  }

  /** Calls that wait, signal a crash, ask for reachability or load: nothing is read, reported
      or stored by them. */
  ghost predicate OnlyAsks(t: seq<Entry>)
  {
    forall i {:trigger t[i]} :: 0 <= i < |t| ==>
      t[i].Waited? || (t[i].LedSent? && t[i].command == CRASHED_LED) || t[i].ActiveRequested? || t[i].CalibrationLoaded?
  }

  lemma PressOnlyAsks(a: AppState, ds: seq<Delivery>, run: Run)
    requires PressAt(a, ds, run)
    ensures OnlyAsks(run.trace)
  {
    if run.config.Running? && !run.config.app.button.waking {
      var request := Request(LastWord(a.button, Inputs(ds)), run.config.at);
      var waits := run.trace[..|run.trace| - |request|];
      assert run.trace == waits + request;
      hide LastWord, Inputs;
    }
  }

  lemma WakeOnlyAsks(l: Limits, boot: Boot, at: nat, calibration: Calibration, loadedAt: nat, ds: seq<Delivery>)
    requires PumpLegal(l, NewApp(boot, calibration), loadedAt, ds)
    ensures OnlyAsks(WakeTrace(boot, at, calibration, loadedAt, ds))
  {
    PressIsFollowed(l, NewApp(boot, calibration), loadedAt, ds);
    PressOnlyAsks(NewApp(boot, calibration), ds, Pump(NewApp(boot, calibration), loadedAt, ds));
    hide PressAt, Pump, PumpLegal;
  }

  /** A wake phase that ends the boot is a factory reset, said by a button that was
      held for it, and nothing was read, reported or stored. */
  lemma OnlyAResetEndsIt(l: Limits, boot: Boot, at: nat, calibration: Calibration, loadedAt: nat, ds: seq<Delivery>)
    requires PumpLegal(l, NewApp(boot, calibration), loadedAt, ds)
    requires Pump(NewApp(boot, calibration), loadedAt, ds).config.Ended?
    ensures Pump(NewApp(boot, calibration), loadedAt, ds).config.outcome.FactoryReset?
    ensures boot.wake == WakeCause.Button
    ensures LastWord(Button.Fresh(true, boot.now), Inputs(ds)) == Some(Button.Gesture.FactoryReset)
    ensures OnlyAsks(WakeTrace(boot, at, calibration, loadedAt, ds))
  {
    var a := NewApp(boot, calibration);
    WakeOnlyAsks(l, boot, at, calibration, loadedAt, ds);
    PressIsFollowed(l, a, loadedAt, ds);
    hide OnlyAsks, WakeTrace;
    if boot.wake != WakeCause.Button {
      StaysAtRest(l, a, loadedAt, ds);
    }
  }

  /** A boot no press woke does not wait for one. */
  lemma {:induction false} StaysAtRest(l: Limits, a: AppState, at: nat, ds: seq<Delivery>)
    requires !a.button.waking && PumpLegal(l, a, at, ds)
    ensures ds == []
  {
    if ds != [] {
      StaysAtRest(l, a, at, ds[..|ds| - 1]);
    }
  }

  /** A wake phase whose press is decided, with the application `a` at `now`, and the
      work that is then due. */
  ghost predicate Decided(l: Limits, boot: Boot, at: nat, calibration: Calibration, loadedAt: nat, ds: seq<Delivery>,
                          a: AppState, now: nat, due: DueAnswers)
  {
    && boot.now <= at <= loadedAt && PumpLegal(l, NewApp(boot, calibration), loadedAt, ds)
    && Pump(NewApp(boot, calibration), loadedAt, ds).config == Running(a, now)
    && !a.button.WakingPressPending() && now <= HORIZON && DueLegal(l, a, now, due)
  }

  /** What the waking press asked for, if there was one. */
  function Wanted(boot: Boot, ds: seq<Delivery>): Option<Button.Gesture>
  {
    LastWord(Button.Fresh(boot.wake == WakeCause.Button, boot.now), Inputs(ds))
  }

  /** The application of a decided press is a new one that was asked for one thing. */
  lemma DecidedApp(l: Limits, boot: Boot, at: nat, calibration: Calibration, loadedAt: nat, ds: seq<Delivery>,
                   a: AppState, now: nat, due: DueAnswers)
    requires Decided(l, boot, at, calibration, loadedAt, ds, a, now, due)
    ensures at <= now && a.button.mode == Button.Mode.Idle && Wanted(boot, ds) != Some(Button.Gesture.FactoryReset)
    ensures a == Asked(NewApp(boot, calibration).(button := a.button), Wanted(boot, ds), now)
    ensures boot.wake != WakeCause.Button ==> Wanted(boot, ds).None? && ds == []
    ensures Readings(WakeTrace(boot, at, calibration, loadedAt, ds)) == 0
  {
    var start := NewApp(boot, calibration);
    PressIsFollowed(l, start, loadedAt, ds);
    PumpGoesOn(l, start, loadedAt, ds);
    WakeOnlyAsks(l, boot, at, calibration, loadedAt, ds);
    NoReadings(WakeTrace(boot, at, calibration, loadedAt, ds));
    hide OnlyAsks, WakeTrace;
    if boot.wake != WakeCause.Button {
      StaysAtRest(l, start, loadedAt, ds);
    }
  }

  /** A wake phase that is done has taken exactly one reading, as the last thing it
      did. The reading is shown exactly when the press asked for a sample; exactly one
      calibration came before it exactly when the press asked for that; and the boot
      of no press did neither. */
  lemma OneReadingAnswersThePress(l: Limits, boot: Boot, at: nat, calibration: Calibration, loadedAt: nat, ds: seq<Delivery>,
                                  a: AppState, now: nat, due: DueAnswers)
    requires Decided(l, boot, at, calibration, loadedAt, ds, a, now, due)
    ensures Wanted(boot, ds) != Some(Button.Gesture.FactoryReset) && (boot.wake != WakeCause.Button ==> Wanted(boot, ds).None?)
    ensures DueTrace(a, now, due) ==
            if Wanted(boot, ds) == Some(Button.Calibrate) then
              Flow.TraceOf(now, due.flow)
              + SampleTrace(DueDone(a, now, due).calibration, false, Flow.EndOf(due.flow), due.soil, due.battery)
            else
              SampleTrace(calibration, Wanted(boot, ds) == Some(Button.SampleNow), now, due.soil, due.battery)
    ensures Readings(WakeTrace(boot, at, calibration, loadedAt, ds) + DueTrace(a, now, due)) == 1
  {
    DecidedApp(l, boot, at, calibration, loadedAt, ds, a, now, due);
    hide Decided, Wanted, WakeTrace, Readings;
    assert SampleIsDue(a, now, due.flow);
    OneReadingIsDue(a, now, due);
    ReadingsConcat(WakeTrace(boot, at, calibration, loadedAt, ds), DueTrace(a, now, due));
  }

  lemma {:induction false} PumpGoesOn(l: Limits, a: AppState, at: nat, ds: seq<Delivery>)
    requires PumpLegal(l, a, at, ds)
    ensures at <= Pump(a, at, ds).config.at
  {
    if ds != [] {
      PumpGoesOn(l, a, at, ds[..|ds| - 1]);
    }
  }

  lemma OneReading(e: Entry)
    requires e.SoilReported?
    ensures Readings([e]) == 1
  {
    assert [e][..0] == [];
  }

  lemma OneReadingIsDue(a: AppState, at: nat, d: DueAnswers)
    requires SampleIsDue(a, at, d.flow)
    ensures Readings(DueTrace(a, at, d)) == 1
  {
    var flow := FlowTrace(a, at, d.flow);
    var c, asked := AfterFlow(a, d.flow).calibration, AfterFlowAt(a, at, d.flow);
    var sample := SampleTrace(c, a.sampleWithLed, asked, d.soil, d.battery);
    hide Flow.WideEnough, Flow.Captured, MoistureOf, Measurement.EstimateBattery, Readings;
    NoReadings(flow);
    ReadingsConcat(flow, sample);
    var rest := sample[2..];
    NoReadings(rest);
    assert sample == [sample[0]] + ([sample[1]] + rest);
    ReadingsConcat([sample[0]], [sample[1]] + rest);
    ReadingsConcat([sample[1]], rest);
    NoReadings([sample[0]]);
    OneReading(sample[1]);
  }

  /** What it hands over: a button at rest, the next sample a period away, nothing
      asked for, and a reboot count to write exactly on a cold boot. */
  lemma HandsOver(l: Limits, boot: Boot, at: nat, calibration: Calibration, loadedAt: nat, ds: seq<Delivery>,
                  a: AppState, now: nat, due: DueAnswers)
    requires Decided(l, boot, at, calibration, loadedAt, ds, a, now, due)
    ensures var b := DueDone(a, now, due);
            && BootTheorems.Starts(b, DueAt(a, now, due)) && b.button.mode == Button.Mode.Idle
            && !b.calibrationRequested && !b.sampleWithLed
            && b.nextSample == DueAt(a, now, due) + SAMPLE_PERIOD
            && b.rebootCountPersisted == (boot.wake != WakeCause.Cold)
            && b.rebootCountDue == SatAdd(boot.now, REBOOT_COUNT_HEALTHY_AFTER)
  {
    DecidedApp(l, boot, at, calibration, loadedAt, ds, a, now, due);
    hide PumpLegal, Pump, WakeTrace, Readings, DueLegal, DueDone, DueAt, Wanted;
    OperationalPhase.DueTakes(l, a, now, due);
    SampledDue(a, now, due);
  }

  lemma SampledDue(a: AppState, now: nat, d: DueAnswers)
    requires SampleIsDue(a, now, d.flow)
    ensures DueDone(a, now, d).nextSample == SatAdd(DueAt(a, now, d), SAMPLE_PERIOD)
  {
  }

  // The watchdog.

  lemma OneWaitFeeds(m: Monitor, g: nat, late: nat, at: nat, deadline: nat, event: Event, until: nat, calls: seq<Entry>)
    requires m.lastFeed <= at <= m.lastFeed + g && m.worstGap <= g
    requires deadline <= at + BUTTON_FACTORY_RESET_HOLD && g >= BUTTON_FACTORY_RESET_HOLD + late
    requires WaitContract(late, at, deadline, event, until)
    requires forall i {:trigger calls[i]} :: 0 <= i < |calls| ==> calls[i].ActiveRequested?
    ensures var after := Watch(m, [Waited(at, deadline, event, until)] + calls);
            after.worstGap <= g && after.lastFeed <= until <= after.lastFeed + g && after.durable == m.durable
  {
    var wait := Waited(at, deadline, event, until);
    WatchConcat(m, [wait], calls);
    WatchOne(m, wait);
    OperationalPhase.Unwatched(Watch(m, [wait]), calls);
  }

  /** Whatever comes, the next deadline of the button is at most the hold away. */
  lemma DeadlineIsNear(b: AppState, t: nat, event: Event, until: nat)
    requires b.button.deadline <= t + BUTTON_FACTORY_RESET_HOLD && t <= until
    ensures var turn := OnEvent(b, event, until);
            && turn.app.button.deadline <= until + BUTTON_FACTORY_RESET_HOLD
            && forall i {:trigger turn.calls[i]} :: 0 <= i < |turn.calls| ==> turn.calls[i].ActiveRequested?
  {
  }

  /** The last wait of a press, and what it delivered. */
  lemma LastDelivery(l: Limits, a: AppState, at: nat, ds: seq<Delivery>)
    requires ds != [] && PumpLegal(l, a, at, ds)
    ensures var before, d := Pump(a, at, ds[..|ds| - 1]), ds[|ds| - 1];
            && PumpLegal(l, a, at, ds[..|ds| - 1]) && before.config.Running?
            && var b, t := before.config.app, before.config.at;
               var turn := OnEvent(b, d.event, d.until);
               && WaitContract(l.late, t, b.button.deadline, d.event, d.until)
               && Pump(a, at, ds).trace == before.trace + ([Waited(t, b.button.deadline, d.event, d.until)] + turn.calls)
               && Pump(a, at, ds).config.app == turn.app && Pump(a, at, ds).config.at == d.until
  {
    hide OnEvent;
  }

  /** A wait of the phase is over within the hold, so the watchdog is fed that often. */
  lemma {:induction false} PressIsFed(l: Limits, a: AppState, at: nat, m: Monitor, g: nat, ds: seq<Delivery>)
    requires PumpLegal(l, a, at, ds)
    requires a.button.deadline <= at + BUTTON_FACTORY_RESET_HOLD && g >= BUTTON_FACTORY_RESET_HOLD + l.late
    requires m.lastFeed <= at <= m.lastFeed + g && m.worstGap <= g
    ensures var run := Pump(a, at, ds);
            var after := Watch(m, run.trace);
            && after.worstGap <= g && after.lastFeed <= run.config.at <= after.lastFeed + g && after.durable == m.durable
            && run.config.app.button.deadline <= run.config.at + BUTTON_FACTORY_RESET_HOLD
  {
    if ds != [] {
      LastDelivery(l, a, at, ds);
      hide Pump, PumpLegal, OnEvent, Watch;
      var was, d := Pump(a, at, ds[..|ds| - 1]), ds[|ds| - 1];
      PressIsFed(l, a, at, m, g, ds[..|ds| - 1]);
      var b, t := was.config.app, was.config.at;
      var wait, calls := Waited(t, b.button.deadline, d.event, d.until), OnEvent(b, d.event, d.until).calls;
      DeadlineIsNear(b, t, d.event, d.until);
      OneWaitFeeds(Watch(m, was.trace), g, l.late, t, b.button.deadline, d.event, d.until, calls);
      WatchConcat(m, was.trace, [wait] + calls);
    }
  }

  /** Over the whole phase, from a last feed `fed` before it, the watchdog is fed
      within the hold or the load, and what may be due after them. */
  lemma WakeIsFed(l: Limits, boot: Boot, at: nat, calibration: Calibration, loadedAt: nat, ds: seq<Delivery>,
                  a: AppState, now: nat, due: DueAnswers, fed: nat)
    requires Decided(l, boot, at, calibration, loadedAt, ds, a, now, due) && fed <= at
    ensures var g := Max(BUTTON_FACTORY_RESET_HOLD + l.late, loadedAt - fed);
            BootTheorems.FedWithin(WakeTrace(boot, at, calibration, loadedAt, ds) + DueTrace(a, now, due), fed, DueAt(a, now, due),
                                   OperationalPhase.HungerBound(l, g))
            && FedLast(WakeTrace(boot, at, calibration, loadedAt, ds) + DueTrace(a, now, due), fed) <= DueAt(a, now, due)
  {
    var g: nat := Max(BUTTON_FACTORY_RESET_HOLD + l.late, loadedAt - fed);
    assert g >= BUTTON_FACTORY_RESET_HOLD + l.late && g >= loadedAt - fed;
    var start, preamble := NewApp(boot, calibration), Preamble(boot, at, calibration, loadedAt);
    var m := BootTheorems.Observer(start, fed);
    var said, worked := WakeTrace(boot, at, calibration, loadedAt, ds), DueTrace(a, now, due);
    DecidedIs(l, boot, at, calibration, loadedAt, ds, a, now, due);
    hide *;
    PressStarts(boot, at, calibration, loadedAt, fed);
    WakeTraceIs(boot, at, calibration, loadedAt, ds);
    var press := Pump(start, loadedAt, ds);
    PressIsFed(l, start, loadedAt, m, g, ds);
    WatchConcat(m, preamble, press.trace);
    WatchConcat(m, said, worked);
    DueIsFed(l, g, a, now, Watch(m, said), due);
    FedLastIs(m, said + worked);
    BootTheorems.GapsInTrace(m, said + worked, DueAt(a, now, due), OperationalPhase.HungerBound(l, g));
  }

  /** What an observer knows when the press begins. */
  lemma PressStarts(boot: Boot, at: nat, calibration: Calibration, loadedAt: nat, fed: nat)
    requires boot.now <= at <= loadedAt && fed <= at
    ensures var start := NewApp(boot, calibration);
            var m := BootTheorems.Observer(start, fed);
            && Watch(m, Preamble(boot, at, calibration, loadedAt)) == m && start.button.deadline <= loadedAt + BUTTON_FACTORY_RESET_HOLD
            && m.lastFeed == fed && m.worstGap == 0 && m.durable == calibration
  {
    var m := BootTheorems.Observer(NewApp(boot, calibration), fed);
    OperationalPhase.Unwatched(m, Preamble(boot, at, calibration, loadedAt));
  }

  lemma WakeTraceIs(boot: Boot, at: nat, calibration: Calibration, loadedAt: nat, ds: seq<Delivery>)
    ensures WakeTrace(boot, at, calibration, loadedAt, ds) ==
            Preamble(boot, at, calibration, loadedAt) + Pump(NewApp(boot, calibration), loadedAt, ds).trace
  {
    hide Preamble, Pump, NewApp;
  }

  lemma DecidedIs(l: Limits, boot: Boot, at: nat, calibration: Calibration, loadedAt: nat, ds: seq<Delivery>,
                  a: AppState, now: nat, due: DueAnswers)
    requires Decided(l, boot, at, calibration, loadedAt, ds, a, now, due)
    ensures boot.now <= at <= loadedAt && PumpLegal(l, NewApp(boot, calibration), loadedAt, ds)
    ensures Pump(NewApp(boot, calibration), loadedAt, ds).config == Running(a, now)
    ensures now <= HORIZON && DueLegal(l, a, now, due) && a.nextSample <= now + SAMPLE_PERIOD && a.calibration == calibration
  {
    DecidedApp(l, boot, at, calibration, loadedAt, ds, a, now, due);
    hide PumpLegal, Pump, DueLegal, WakeTrace, Readings, Wanted;
  }

  /** So it is through a waking press that ends the boot. */
  lemma PressEndsFed(l: Limits, boot: Boot, at: nat, calibration: Calibration, loadedAt: nat, ds: seq<Delivery>)
    requires boot.now <= at <= loadedAt && PumpLegal(l, NewApp(boot, calibration), loadedAt, ds)
    ensures BootTheorems.FedWithin(WakeTrace(boot, at, calibration, loadedAt, ds), at, Pump(NewApp(boot, calibration), loadedAt, ds).config.at,
                                   Max(BUTTON_FACTORY_RESET_HOLD + l.late, loadedAt - at))
  {
    var g: nat := Max(BUTTON_FACTORY_RESET_HOLD + l.late, loadedAt - at);
    assert g >= BUTTON_FACTORY_RESET_HOLD + l.late && g >= loadedAt - at;
    var start, preamble := NewApp(boot, calibration), Preamble(boot, at, calibration, loadedAt);
    var m := BootTheorems.Observer(start, at);
    var press := Pump(start, loadedAt, ds);
    hide *;
    PressStarts(boot, at, calibration, loadedAt, at);
    WakeTraceIs(boot, at, calibration, loadedAt, ds);
    PressIsFed(l, start, loadedAt, m, g, ds);
    WatchConcat(m, preamble, press.trace);
    BootTheorems.GapsInTrace(m, preamble + press.trace, press.config.at, g);
  }

  lemma DueIsFed(l: Limits, g: nat, a: AppState, now: nat, m: Monitor, due: DueAnswers)
    requires now <= HORIZON && DueLegal(l, a, now, due) && a.nextSample <= now + SAMPLE_PERIOD
    requires m.worstGap <= g && m.lastFeed <= now <= m.lastFeed + g && a.calibration == m.durable
    ensures var after, bound := Watch(m, DueTrace(a, now, due)), OperationalPhase.HungerBound(l, g);
            after.worstGap <= bound && after.lastFeed <= DueAt(a, now, due) <= after.lastFeed + bound
  {
    OperationalPhase.DueTakes(l, a, now, due);
    OperationalPhase.DueWatched(a, now, m, due);
  }
}
