/**
 What every run of the operational phase keeps (`run_boot` in `core/src/app.rs`).

 `Tracks` ties the application to an observer of its ports at the head of the
 loop; `RunTracks` proves it over every run a world may answer, and says what is
 true when a run ends.
 */
module OperationalPhase {
  import opened Machine
  import opened Vocabulary
  import opened Tuning
  import opened BootModel
  import opened Watching
  import Button
  import Flow = CalibrationFlow

  // The next deadline.

  ghost predicate IsCandidate(a: AppState, d: nat)
  {
    d == a.nextSample || RebootCandidate(a) == Some(d) || a.button.NextDeadline() == Some(d) || SettleCandidate(a) == Some(d)
  }

  /** The next deadline is strictly in the future exactly when the next sample is;
      and then it is the first of all the things to come. */
  lemma DeadlineIsNext(a: AppState, now: nat)
    ensures now < NextDeadline(a, now) <==> now < a.nextSample
    ensures IsCandidate(a, NextDeadline(a, now))
    ensures now < a.nextSample ==> forall d: nat :: IsCandidate(a, d) && now < d ==> NextDeadline(a, now) <= d
  {
  }

  // The watchdog.

  /** The longest the watchdog goes hungry when it is at most `g` since it was fed
      at the head of the loop: a reading may follow a wait, and a store and a
      reading may follow the last hold of a calibration. */
  function HungerBound(l: Limits, g: nat): nat
  {
    Max(g + l.soil + l.battery, SOIL_CAL_HOLD + l.late + 2 * l.soil + l.store + l.battery)
  }

  // At the head of the loop.

  /** `counted` boots write the reboot count; the others never do. */
  ghost predicate Tracks(l: Limits, g: nat, counted: bool, a: AppState, at: nat, m: Monitor)
  {
    && a.idleSince == m.idleSince
    && a.calibration == m.durable
    && a.button.Pressed() == m.pinDown
    && a.button.mode != Button.WaitRelease
    && m.inFuture
    && m.lastFeed <= at <= m.lastFeed + g
    && m.worstGap <= HungerBound(l, g)
    && a.nextSample <= at + SAMPLE_PERIOD
    && (a.idleSince.Some? ==> a.idleSince.value <= at)
    && m.due == a.rebootCountDue
    && m.early == 0 && m.writes == (if counted && a.rebootCountPersisted then 1 else 0)
    && (!counted ==> a.rebootCountPersisted)
  }

  // The calls of each part of a round.

  lemma CaptureWatched(m: Monitor, at: nat, color: Color, held: nat, r: Flow.Reading)
    ensures Watch(m, Flow.CaptureTrace(at, color, held, r)) == Fed(m, at).(emptyAt := None)
  {
    var t := Flow.CaptureTrace(at, color, held, r);
    WatchOne(m, t[0]);
    WatchConcat(m, [t[0]], [t[1]]);
    WatchOne(m, t[1]);
    WatchConcat(m, [t[0], t[1]], [t[2]]);
    WatchOne(Watch(m, [t[0], t[1]]), t[2]);
    assert [t[0]] + [t[1]] == [t[0], t[1]] && [t[0], t[1]] + [t[2]] == t;
  }

  /** A calibration feeds the watchdog at the start of each hold, and stores what
      it accepts. */
  lemma FlowWatched(m: Monitor, at: nat, f: Flow.Answers)
    ensures Watch(m, Flow.TraceOf(at, f)) ==
            Fed(Fed(m, at), f.dry.until).(
              emptyAt := None,
              durable := match Flow.OutcomeOf(f) case Accepted(c) => c case Rejected(_) => m.durable)
  {
    var red, green := Flow.CaptureTrace(at, Red, f.red, f.dry), Flow.CaptureTrace(f.dry.until, Green, f.green, f.wet);
    var store := if Flow.WideEnough(f) then [CalibrationStored(f.wet.until, Flow.Captured(f), f.stored, f.storedAt)] else [];
    var signal := if Flow.OutcomeOf(f).Rejected? then [LedSent(Flow.EndOf(f), REJECTED_LED)] else [];
    hide Flow.WideEnough, Watch, Flow.CaptureTrace;
    CaptureWatched(m, at, Red, f.red, f.dry);
    CaptureWatched(Watch(m, red), f.dry.until, Green, f.green, f.wet);
    WatchConcat(m, red, green);
    WatchConcat(m, red + green, store);
    WatchConcat(m, red + green + store, signal);
    if store != [] { WatchOne(Watch(m, red + green), store[0]); }
    if signal != [] { WatchOne(Watch(m, red + green + store), signal[0]); }
    WatchNone(Watch(m, red + green));
    WatchNone(Watch(m, red + green + store));
  }

  /** A reading changes nothing that is watched. */
  lemma SampleWatched(m: Monitor, c: Calibration, withLed: bool, at: nat, soil: Flow.Reading, battery: Flow.Reading)
    ensures Watch(m, SampleTrace(c, withLed, at, soil, battery)) == m
  {
    var t := SampleTrace(c, withLed, at, soil, battery);
    Unwatched(m, t);
  }

  lemma {:induction false} Unwatched(m: Monitor, t: seq<Entry>)
    requires forall i {:trigger t[i]} :: 0 <= i < |t| ==>
      t[i].LedSent? || t[i].SoilRead? || t[i].BatteryRead? || t[i].SoilReported? || t[i].BatteryReported? || t[i].ActiveRequested?
      || t[i].CalibrationLoaded?
    ensures Watch(m, t) == m
  {
    if t != [] {
      Unwatched(m, t[..|t| - 1]);
    }
  }

  /** How long the work that is due takes, and what it changes: the calibration
      and the readings, and the next sample is in the future afterwards. */
  lemma DueTakes(l: Limits, a: AppState, at: nat, d: DueAnswers)
    requires at <= HORIZON && DueLegal(l, a, at, d) && a.nextSample <= at + SAMPLE_PERIOD
    ensures var b, now := DueDone(a, at, d), DueAt(a, at, d);
            && at <= now <= HORIZON + 0x10_0000_0000
            && now < b.nextSample <= now + SAMPLE_PERIOD && !b.calibrationRequested
            && b == a.(calibration := b.calibration, calibrationRequested := false, sampleWithLed := b.sampleWithLed, nextSample := b.nextSample)
            && (if a.calibrationRequested then
                  && d.flow.dry.until <= at + SOIL_CAL_HOLD + l.late + l.soil
                  && d.flow.dry.until <= now <= d.flow.dry.until + SOIL_CAL_HOLD + l.late + 2 * l.soil + l.store + l.battery
                else now <= at + l.soil + l.battery)
  {
  }

  /** What an observer sees of it: the calibration in storage is the one in effect,
      and the watchdog is fed at the start of each hold. */
  lemma DueWatched(a: AppState, at: nat, m: Monitor, d: DueAnswers)
    requires a.calibration == m.durable
    ensures var fed := if a.calibrationRequested then Fed(Fed(m, at), d.flow.dry.until).(emptyAt := None) else m;
            Watch(m, DueTrace(a, at, d)) == fed.(durable := DueDone(a, at, d).calibration)
  {
    var c, asked := AfterFlow(a, d.flow).calibration, AfterFlowAt(a, at, d.flow);
    var flow := FlowTrace(a, at, d.flow);
    var sample := if SampleIsDue(a, at, d.flow) then SampleTrace(c, a.sampleWithLed, asked, d.soil, d.battery) else [];
    WatchConcat(m, flow, sample);
    FlowWatched(m, at, d.flow);
    SampleWatched(Watch(m, flow), c, a.sampleWithLed, asked, d.soil, d.battery);
  }

  /** The edges that were waiting are taken in order. */
  lemma {:induction false} TakenWatched(m: Monitor, f: Button.Fsm, edges: seq<Edge>, now: nat)
    requires f.Pressed() == m.pinDown && f.mode != Button.WaitRelease
    ensures var after, g := Watch(m, Taken(edges, now)), Drained(f, edges, now);
            && after == m.(pinDown := g.Pressed(), emptyAt := after.emptyAt)
            && g.mode != Button.WaitRelease
  {
    if edges != [] {
      var most := edges[..|edges| - 1];
      TakenWatched(m, f, most, now);
      WatchConcat(m, Taken(most, now), [EdgePolled(now, Some(edges[|edges| - 1]))]);
      WatchOne(Watch(m, Taken(most, now)), EdgePolled(now, Some(edges[|edges| - 1])));
    }
  }

  // Through one round.

  /** What `Tracks` becomes once nothing is due. */
  ghost predicate Rested(l: Limits, g: nat, counted: bool, a: AppState, now: nat, m: Monitor)
  {
    && a.idleSince == m.idleSince
    && a.calibration == m.durable
    && a.button.Pressed() == m.pinDown
    && a.button.mode != Button.WaitRelease
    && m.inFuture
    && m.lastFeed <= now <= m.lastFeed + HungerBound(l, g)
    && m.worstGap <= HungerBound(l, g)
    && now < a.nextSample <= now + SAMPLE_PERIOD && now <= HORIZON + 0x10_0000_0000
    && !a.calibrationRequested
    && (a.idleSince.Some? ==> a.idleSince.value <= now)
    && m.due == a.rebootCountDue
    && m.early == 0 && m.writes == (if counted && a.rebootCountPersisted then 1 else 0)
    && (!counted ==> a.rebootCountPersisted)
  }

  lemma DueTracks(l: Limits, g: nat, counted: bool, a: AppState, at: nat, m: Monitor, d: DueAnswers)
    requires Tracks(l, g, counted, a, at, m) && at <= HORIZON && DueLegal(l, a, at, d)
    ensures Rested(l, g, counted, DueDone(a, at, d), DueAt(a, at, d), Watch(m, DueTrace(a, at, d)))
  {
    DueTakes(l, a, at, d);
    DueWatched(a, at, m, d);
    hide DueDone, DueAt, DueTrace, DueLegal;
  }

  /** The world allows the sleep, and nothing on the device needs it awake:
      - the stack was read at this very instant, as a long-idle device and idle,
        and has been idle at every reading for the settle delay;
      - the edge queue has just been seen empty, and the button is up and at rest;
      - no calibration and no reading is due;
      - the sleep lasts until the next poll, or the end of the idle period if that
        comes first, and at least a second. */
  ghost predicate SafeToSleep(a: AppState, now: nat, m: Monitor, forMs: nat)
  {
    && m.icd.Some? && m.icdAt == now
    && m.icd.value.operatingMode == Lit && m.icd.value.powerMode == PowerMode.Idle
    && m.idleSince.Some? && m.idleSince.value + SLEEP_SETTLE <= now
    && m.emptyAt == Some(now) && !m.pinDown && a.button.mode == Button.Mode.Idle
    && !a.calibrationRequested && now < a.nextSample
    && var poll := m.icd.value.pollIntervalMs;
       var left := if m.icd.value.idleUntil.Some? then Since(m.icd.value.idleUntil.value, now) else poll;
       forMs == Max(SLEEP_MIN, Min(poll, left))
  }

  /** A counted boot has written the count once when it sleeps, and only a write
      that is the last thing the boot does may come before its time. */
  predicate CountedAtSleep(counted: bool, m: Monitor, calls: seq<Entry>)
  {
    && m.writes == (if counted then 1 else 0)
    && (m.early == 0 || (calls != [] && calls[|calls| - 1].RebootCountPersisted?))
  }

  /** The stack read, and then the edge queue taken until it is empty. */
  function Polled(now: nat, icd: IcdState, edges: seq<Edge>): seq<Entry>
  {
    [IcdRead(now, icd)] + Taken(edges, now) + [EdgePolled(now, None)]
  }

  lemma PolledWatched(m: Monitor, f: Button.Fsm, now: nat, icd: IcdState, edges: seq<Edge>)
    requires f.Pressed() == m.pinDown && f.mode != Button.WaitRelease
    ensures Watch(m, Polled(now, icd, edges)) ==
            IcdSeen(m, now, icd).(pinDown := Drained(f, edges, now).Pressed(), emptyAt := Some(now))
    ensures Drained(f, edges, now).mode != Button.WaitRelease
  {
    var read, taken, empty := [IcdRead(now, icd)], Taken(edges, now), EdgePolled(now, None);
    WatchOne(m, read[0]);
    TakenWatched(Watch(m, read), f, edges, now);
    WatchConcat(m, read, taken);
    WatchConcat(m, read + taken, [empty]);
    WatchOne(Watch(m, read + taken), empty);
  }

  /** The length of a sleep the world allows. */
  lemma SleepLength(a: AppState, icd: IcdState, now: nat, m: Monitor, button: Button.Fsm, seen: Monitor)
    requires a.idleSince == IcdSeen(m, now, icd).idleSince && SleepFor(a, icd, now).Some?
    requires seen == IcdSeen(m, now, icd).(pinDown := button.Pressed(), emptyAt := Some(now), writes := seen.writes, early := seen.early)
    requires !button.IsActive() && !a.calibrationRequested && now < a.nextSample
    ensures SafeToSleep(a.(button := button, rebootCountPersisted := true), now, seen, SleepFor(a, icd, now).value)
  {
  }

  /** What a decision does to the application and its observer. */
  ghost predicate Decided(l: Limits, g: nat, counted: bool, now: nat, m: Monitor, turn: Turn, after: Monitor)
  {
    match turn.outcome
    case None => Rested(l, g, counted, turn.app, now, after)
    case Some(o) =>
      && o.Sleep? && SafeToSleep(turn.app, now, after, o.forMs) && CountedAtSleep(counted, after, turn.calls)
      && turn.app.calibration == after.durable && after.inFuture
      && after.lastFeed == m.lastFeed && after.worstGap == m.worstGap
  }

  /** The device may sleep as far as the world goes: the edge queue decides. */
  lemma PolledTracks(l: Limits, g: nat, counted: bool, a: AppState, now: nat, m: Monitor, icd: IcdState, edges: seq<Edge>)
    requires Rested(l, g, counted, a, now, m)
    requires (a.rebootCountPersisted || now < a.rebootCountDue) && SleepFor(TrackIdle(a, icd, now), icd, now).Some?
    ensures var turn := Decide(a, now, icd, edges); Decided(l, g, counted, now, m, turn, Watch(m, turn.calls))
  {
    var polled, tracked, button := Polled(now, icd, edges), TrackIdle(a, icd, now), Drained(a.button, edges, now);
    var forMs := SleepFor(tracked, icd, now);
    PolledWatched(m, a.button, now, icd, edges);
    var persist := if a.rebootCountPersisted then [] else [RebootCountPersisted(now)];
    WatchConcat(m, polled, persist);
    if persist != [] {
      WatchOne(Watch(m, polled), persist[0]);
    }
    assert Decide(a, now, icd, edges) ==
           if button.IsActive() then Turn(tracked.(button := button), None, polled)
           else Turn(tracked.(button := button, rebootCountPersisted := true), Some(Sleep(forMs.value)), polled + persist);
    hide Watch, Decide, Polled, SleepFor, SafeToSleep, Drained;
    if !button.IsActive() {
      SleepLength(tracked, icd, now, m, button, Watch(m, polled + persist));
    }
  }

  lemma DecideTracks(l: Limits, g: nat, counted: bool, a: AppState, now: nat, m: Monitor, icd: IcdState, edges: seq<Edge>)
    requires Rested(l, g, counted, a, now, m)
    ensures var turn := Decide(a, now, icd, edges); Decided(l, g, counted, now, m, turn, Watch(m, turn.calls))
  {
    hide Watch, Taken, Drained, SleepFor, SafeToSleep;
    if !a.rebootCountPersisted && now >= a.rebootCountDue {
      WatchOne(m, RebootCountPersisted(now));
    } else if SleepFor(TrackIdle(a, icd, now), icd, now).None? {
      WatchOne(m, IcdRead(now, icd));
    } else {
      PolledTracks(l, g, counted, a, now, m, icd, edges);
    }
  }

  /** When a boot ends by a reset the button is down, and nothing that was written
      was written early. */
  ghost predicate SafeToReset(counted: bool, a: AppState, m: Monitor)
  {
    a.button.mode == Button.WaitRelease && m.pinDown && m.early == 0 && m.writes <= (if counted then 1 else 0)
  }

  lemma WaitTracks(l: Limits, g: nat, counted: bool, a: AppState, now: nat, m: Monitor, event: Event, until: nat)
    requires Rested(l, g, counted, a, now, m) && g >= SAMPLE_PERIOD + l.late
    requires WaitContract(l.late, now, NextDeadline(a, now), event, until)
    ensures var turn := OnEvent(a, event, until);
            var after := Watch(m, [Waited(now, NextDeadline(a, now), event, until)] + turn.calls);
            match turn.outcome
            case None => Tracks(l, g, counted, turn.app, until, after)
            case Some(o) =>
              && o.FactoryReset? && SafeToReset(counted, turn.app, after)
              && turn.app.calibration == after.durable && after.inFuture
              && after.lastFeed <= until <= after.lastFeed + g && after.worstGap <= HungerBound(l, g)
  {
    hide NextDeadline, Watch;
    var d := NextDeadline(a, now);
    DeadlineIsNext(a, now);
    assert IsCandidate(a, a.nextSample);
    var turn, wait := OnEvent(a, event, until), Waited(now, d, event, until);
    WatchConcat(m, [wait], turn.calls);
    WatchOne(m, wait);
    Unwatched(Watch(m, [wait]), turn.calls);
    EventWatched(a, event, until);
  }

  /** What an event does to the application. */
  lemma EventWatched(a: AppState, event: Event, until: nat)
    requires a.button.mode != Button.WaitRelease
    ensures var turn := OnEvent(a, event, until);
            && turn.app == a.(button := turn.app.button, nextSample := turn.app.nextSample,
                              sampleWithLed := turn.app.sampleWithLed, calibrationRequested := turn.app.calibrationRequested)
            && turn.app.nextSample <= Max(a.nextSample, until)
            && turn.app.button.Pressed() == (if event.Button? then event.edge.Falling? else a.button.Pressed())
            && (turn.outcome.None? ==> turn.app.button.mode != Button.WaitRelease)
            && (turn.outcome.Some? ==> turn.outcome.value.FactoryReset? && turn.app.button.mode == Button.WaitRelease)
  {
  }

  // Through a whole run.

  /** A run that has ended, as its observer saw it. */
  ghost predicate Finished(l: Limits, g: nat, counted: bool, o: Outcome, a: AppState, now: nat, m: Monitor, t: seq<Entry>)
  {
    && m.inFuture && a.calibration == m.durable
    && m.worstGap <= HungerBound(l, g) && m.lastFeed <= now <= m.lastFeed + HungerBound(l, g)
    && match o
       case Sleep(forMs) => SafeToSleep(a, now, m, forMs) && CountedAtSleep(counted, m, t)
       case FactoryReset => SafeToReset(counted, a, m)
  }

  ghost predicate Followed(l: Limits, g: nat, counted: bool, m: Monitor, run: Run)
  {
    match run.config
    case Running(a, at) => Tracks(l, g, counted, a, at, Watch(m, run.trace))
    case Ended(o, a, at) => Finished(l, g, counted, o, a, at, Watch(m, run.trace), run.trace)
  }

  lemma RoundTracks(l: Limits, g: nat, counted: bool, a: AppState, at: nat, m: Monitor, x: Answers)
    requires Tracks(l, g, counted, a, at, m) && g >= SAMPLE_PERIOD + l.late
    requires RoundLegal(l, a, at, x)
    ensures Followed(l, g, counted, m, Round(a, at, x))
  {
    hide DueDone, DueAt, DueTrace, DueLegal, Decide, BootModel.OnEvent, NextDeadline, SafeToSleep, SafeToReset, Watch;
    var b, now, due := DueDone(a, at, x.due), DueAt(a, at, x.due), DueTrace(a, at, x.due);
    DueTracks(l, g, counted, a, at, m, x.due);
    var rested := Watch(m, due);
    var decision := Decide(b, now, x.icd, x.edges);
    DecideTracks(l, g, counted, b, now, rested, x.icd, x.edges);
    WatchConcat(m, due, decision.calls);
    if decision.outcome.None? {
      var turn := BootModel.OnEvent(decision.app, x.event, x.until);
      var wait := [Waited(now, NextDeadline(decision.app, now), x.event, x.until)];
      WaitTracks(l, g, counted, decision.app, now, Watch(rested, decision.calls), x.event, x.until);
      WatchConcat(m, due + decision.calls, wait + turn.calls);
      assert due + decision.calls + (wait + turn.calls) == due + decision.calls + wait + turn.calls;
    }
  }

  /** Every run a world may answer keeps the application and its observer together,
      round after round, and ends well if it ends. */
  lemma {:induction false} RunTracks(l: Limits, g: nat, counted: bool, a: AppState, at: nat, m: Monitor, laps: seq<Lap>)
    requires Tracks(l, g, counted, a, at, m) && g >= SAMPLE_PERIOD + l.late
    requires IsRun(l, a, at, laps)
    ensures Followed(l, g, counted, m, Outcomes(a, at, laps))
  {
    if laps == [] {
      NoLaps(l, a, at);
    } else {
      LastLap(l, a, at, laps);
      hide Round, RoundLegal, Tracks, SafeToSleep, SafeToReset, Outcomes, IsRun;
      var before, lap := Outcomes(a, at, laps[..|laps| - 1]), laps[|laps| - 1];
      RunTracks(l, g, counted, a, at, m, laps[..|laps| - 1]);
      RoundTracks(l, g, counted, lap.app, lap.at, Watch(m, before.trace), lap.answers);
      WatchConcat(m, before.trace, lap.end.trace);
    }
  }
}
