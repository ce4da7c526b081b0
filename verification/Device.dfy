/**
 The device over whole boots: the composition of `fw/src/main.rs` and of the
 simulator's `drive`, on any world. A boot is its wake phase, the startup of the
 protocol stack, and its operational phase; a boot that sleeps is followed by the
 next one. What the methods here promise is said of the calls the world saw.
 */
module Device {
  import opened Machine
  import opened Vocabulary
  import opened Ports
  import opened BootModel
  import opened Watching
  import opened Measured
  import opened BootTheorems
  import opened OperationalPhase
  import Application
  import WakePhase
  import Flow = CalibrationFlow
  import Tuning
  import Button
  import Answering

  /** How a boot ended, as far as it was followed: its waits and its clock are. */
  datatype End = Slept(forMs: nat) | Reset | Unfinished

  /** What the world answered in a boot: the load and the deliveries of its wake phase; and if
      that was not cut short, the application whose press was decided and when, its due work,
      and the laps of the operational phase, which began at `start`. */
  datatype Course =
    | Cut(loadedAt: nat, ds: seq<Delivery>)
    | Whole(loadedAt: nat, ds: seq<Delivery>, app: AppState, decidedAt: nat, due: DueAnswers, start: nat, laps: seq<Lap>)

  /** One boot: what woke it, when it began, the calibration in storage then, its course, the
      calls it made before the stack was up and after, how it ended and when. */
  datatype Record = Record(boot: Boot, stored: Calibration, course: Course, waking: seq<Entry>, calls: seq<Entry>, end: End, now: nat)
  {
    function All(): seq<Entry> { waking + calls }

    predicate IsCold() { boot.wake == WakeCause.Cold }
  }

  /** The longest the watchdog waits in the wake phase. */
  function WakeHunger(l: Limits): nat
  {
    HungerBound(l, Max(Tuning.BUTTON_FACTORY_RESET_HOLD + l.late, l.load))
  }

  /** And in a whole boot, when the stack takes up to `startup` to come up. */
  function BootHunger(l: Limits, startup: nat): nat
  {
    HungerBound(l, Max(Tuning.SAMPLE_PERIOD + l.late, WakeHunger(l) + startup))
  }

  /** With parts that take under 25 seconds each, and the readings, the store and the
      lateness together, no boot uses up the watchdog's two minutes. */
  lemma BootsHaveAMargin(l: Limits, startup: nat)
    requires l.soil + l.battery + l.store + l.late < 25_000 && l.load < 25_000 && startup < 25_000
    ensures WakeHunger(l) <= BootHunger(l, startup) < Tuning.WATCHDOG_TIMEOUT
  {
  }

  /** What is promised of the calls of every boot:
      - every number it reports is true, against the calibration then in storage;
      - the watchdog is fed within `hunger`, from the start of the boot to its end;
      - the reboot count is written by a cold boot only, once at most, and in time;
      - no wait of the operational phase is for an instant that has come;
      - a boot that sleeps took one reading before the stack was up, wrote the reboot count
        if it is a cold one, and slept safely. */
  ghost predicate WellBehaved(r: Record, hunger: nat)
  {
    && AllTrue(r.stored, r.All())
    && FedWithin(r.All(), r.boot.now, r.now, hunger)
    && WritesIn(r.All()) <= (if r.IsCold() then 1 else 0)
    && WrittenInTime(r.calls, SatAdd(r.boot.now, Tuning.REBOOT_COUNT_HEALTHY_AFTER), r.end.Slept?)
    && (forall i :: 0 <= i < |r.calls| && r.calls[i].Waited? ==> r.calls[i].at < r.calls[i].deadline)
    && (r.end.Slept? ==>
          && WakePhase.Readings(r.waking) == 1
          && WritesIn(r.All()) == (if r.IsCold() then 1 else 0)
          && exists read: nat, since: nat, empty: nat :: SleptSafely(r.calls, false, r.now, r.end.forMs, read, since, empty))
  }

  lemma {:induction false} AsksWritesNothing(t: seq<Entry>)
    requires forall i {:trigger t[i]} :: 0 <= i < |t| ==> !t[i].RebootCountPersisted?
    ensures WritesIn(t) == 0
  {
    if t != [] {
      AsksWritesNothing(t[..|t| - 1]);
    }
  }

  /** The calls of a wake phase that ends its boot. */
  lemma ResetInWake(l: Limits, boot: Boot, startup: nat, c: Calibration, loadedAt: nat, ds: seq<Delivery>, now: nat)
    requires PumpLegal(l, NewApp(boot, c), loadedAt, ds) && Pump(NewApp(boot, c), loadedAt, ds).config.Ended?
    requires Pump(NewApp(boot, c), loadedAt, ds).config.at == now && boot.now <= loadedAt <= boot.now + l.load
    ensures Pump(NewApp(boot, c), loadedAt, ds).config.outcome.FactoryReset?
    ensures var t := WakePhase.WakeTrace(boot, boot.now, c, loadedAt, ds);
            WellBehaved(Record(boot, c, Cut(loadedAt, ds), t, [], Reset, now), BootHunger(l, startup)) && StoredAfter(c, t) == c
  {
    var t := WakePhase.WakeTrace(boot, boot.now, c, loadedAt, ds);
    WakePhase.OnlyAResetEndsIt(l, boot, boot.now, c, loadedAt, ds);
    WakePhase.PressEndsFed(l, boot, boot.now, c, loadedAt, ds);
    hide Pump, PumpLegal, WakePhase.WakeTrace, FedWithin;
    FedLooser(t, boot.now, now, Max(Tuning.BUTTON_FACTORY_RESET_HOLD + l.late, loadedAt - boot.now), BootHunger(l, startup));
    AsksWritesNothing(t);
    TriviallyTrue(c, t);
    StoresNothing(c, t);
    assert t + [] == t;
  }

  function EndOf(c: Config): End
  {
    match c
    case Running(_, _) => Unfinished
    case Ended(Sleep(forMs), _, _) => Slept(forMs)
    case Ended(FactoryReset, _, _) => Reset
  }

  /** A boot that has come to its operational phase at `start`, after a wake phase whose
      press was decided at `now`. */
  ghost predicate Booted(l: Limits, boot: Boot, startup: nat, c: Calibration, loadedAt: nat, ds: seq<Delivery>,
                         a: AppState, now: nat, due: DueAnswers, start: nat, laps: seq<Lap>)
  {
    && WakePhase.Decided(l, boot, boot.now, c, loadedAt, ds, a, now, due) && loadedAt <= boot.now + l.load
    && DueAt(a, now, due) <= start <= DueAt(a, now, due) + startup
    && IsRun(l, DueDone(a, now, due), start, laps)
  }

  /** So it has where the stack comes up at once, after a load that took no time. */
  lemma BootedNow(l: Limits, boot: Boot, c: Calibration, ds: seq<Delivery>, a: AppState, now: nat, due: DueAnswers, laps: seq<Lap>)
    requires boot.now == 0 && WakePhase.Decided(l, boot, 0, c, 0, ds, a, now, due)
    requires IsRun(l, DueDone(a, now, due), DueAt(a, now, due), laps)
    ensures Booted(l, boot, 0, c, 0, ds, a, now, due, DueAt(a, now, due), laps)
  {
  }

  /** The watchdog is fed through both phases and the startup between them. */
  lemma BootIsFed(l: Limits, boot: Boot, startup: nat, c: Calibration, loadedAt: nat, ds: seq<Delivery>,
                  a: AppState, now: nat, due: DueAnswers, start: nat, laps: seq<Lap>)
    requires Booted(l, boot, startup, c, loadedAt, ds, a, now, due, start, laps)
    ensures var waking := WakePhase.WakeTrace(boot, boot.now, c, loadedAt, ds) + DueTrace(a, now, due);
            var run := Outcomes(DueDone(a, now, due), start, laps);
            FedWithin(waking + run.trace, boot.now, run.config.at, BootHunger(l, startup))
  {
    var b, run := DueDone(a, now, due), Outcomes(DueDone(a, now, due), start, laps);
    var waking := WakePhase.WakeTrace(boot, boot.now, c, loadedAt, ds) + DueTrace(a, now, due);
    var middle := DueAt(a, now, due);
    assert boot.now <= loadedAt;
    hide WakePhase.Decided, IsRun, Outcomes, FedWithin, HungerBound, BootHunger, HeadHunger, DueAt, DueDone, DueTrace, WakePhase.WakeTrace, FedLast;
    WakePhase.WakeIsFed(l, boot, boot.now, c, loadedAt, ds, a, now, due, boot.now);
    WakePhase.HandsOver(l, boot, boot.now, c, loadedAt, ds, a, now, due);
    var g := HungerBound(l, Max(Tuning.BUTTON_FACTORY_RESET_HOLD + l.late, loadedAt - boot.now));
    FedAtTheEnd(waking, boot.now, middle, g);
    var fed := FedLast(waking, boot.now);
    HungerAddsUp(l, startup, loadedAt - boot.now, start, middle, fed);
    WatchdogIsFed(l, b, start, fed, laps);
    FedLooser(waking, boot.now, middle, g, BootHunger(l, startup));
    FedLooser(run.trace, fed, run.config.at, HungerBound(l, HeadHunger(l, start, fed)), BootHunger(l, startup));
    FedOn(waking, boot.now, middle, run.trace, run.config.at, BootHunger(l, startup));
  }

  lemma HungerAddsUp(l: Limits, startup: nat, load: nat, start: nat, middle: nat, fed: nat)
    requires load <= l.load && middle <= start <= middle + startup
    requires Since(middle, fed) <= HungerBound(l, Max(Tuning.BUTTON_FACTORY_RESET_HOLD + l.late, load))
    ensures HungerBound(l, Max(Tuning.BUTTON_FACTORY_RESET_HOLD + l.late, load)) <= BootHunger(l, startup)
    ensures HungerBound(l, HeadHunger(l, start, fed)) <= BootHunger(l, startup)
  {
  }

  lemma DueWritesNothing(a: AppState, at: nat, d: DueAnswers)
    ensures WritesIn(DueTrace(a, at, d)) == 0
  {
    hide Flow.WideEnough, MoistureOf, Flow.OutcomeOf;
    AsksWritesNothing(DueTrace(a, at, d));
  }

  lemma WakingWritesNothing(l: Limits, boot: Boot, c: Calibration, loadedAt: nat, ds: seq<Delivery>, a: AppState, now: nat, due: DueAnswers)
    requires PumpLegal(l, NewApp(boot, c), loadedAt, ds)
    ensures WritesIn(WakePhase.WakeTrace(boot, boot.now, c, loadedAt, ds) + DueTrace(a, now, due)) == 0
  {
    var said, worked := WakePhase.WakeTrace(boot, boot.now, c, loadedAt, ds), DueTrace(a, now, due);
    WakePhase.WakeOnlyAsks(l, boot, boot.now, c, loadedAt, ds);
    hide WakePhase.WakeTrace, DueTrace, WritesIn, PumpLegal;
    DueWritesNothing(a, now, due);
    AsksWritesNothing(said);
    WritesConcat(said, worked);
  }

  lemma BootIsTrue(l: Limits, boot: Boot, startup: nat, c: Calibration, loadedAt: nat, ds: seq<Delivery>,
                    a: AppState, now: nat, due: DueAnswers, start: nat, laps: seq<Lap>)
    requires Booted(l, boot, startup, c, loadedAt, ds, a, now, due, start, laps)
    ensures var waking := WakePhase.WakeTrace(boot, boot.now, c, loadedAt, ds) + DueTrace(a, now, due);
            var run := Outcomes(DueDone(a, now, due), start, laps);
            AllTrue(c, waking + run.trace) && StoredAfter(c, waking + run.trace) == run.config.app.calibration
  {
    var waking := WakePhase.WakeTrace(boot, boot.now, c, loadedAt, ds) + DueTrace(a, now, due);
    var b, run := DueDone(a, now, due), Outcomes(DueDone(a, now, due), start, laps);
    hide WakePhase.WakeTrace, WakePhase.Decided, PumpLegal, Pump, DueTrace, DueDone, DueAt, Outcomes, IsRun,
         WritesIn, AllTrue, SleptSafely, WakePhase.Readings, StoredAfter, FedWithin, WrittenInTime;
    WakePhase.HandsOver(l, boot, boot.now, c, loadedAt, ds, a, now, due);
    WakeIsTrue(l, boot, boot.now, c, loadedAt, ds, a, now, due);
    RunIsTrue(l, b, start, laps);
    CalibrationIsTheStoredOne(l, b, start, laps);
    TrueConcat(c, waking, run.trace);
    StoredConcat(c, waking, run.trace);
  }

  lemma BootWrites(l: Limits, boot: Boot, startup: nat, c: Calibration, loadedAt: nat, ds: seq<Delivery>,
                    a: AppState, now: nat, due: DueAnswers, start: nat, laps: seq<Lap>)
    requires Booted(l, boot, startup, c, loadedAt, ds, a, now, due, start, laps)
    ensures var waking := WakePhase.WakeTrace(boot, boot.now, c, loadedAt, ds) + DueTrace(a, now, due);
            var run := Outcomes(DueDone(a, now, due), start, laps);
            var cold, slept := boot.wake == WakeCause.Cold, EndOf(run.config).Slept?;
            && WritesIn(waking + run.trace) <= (if cold then 1 else 0)
            && (slept ==> WritesIn(waking + run.trace) == if cold then 1 else 0)
            && WrittenInTime(run.trace, SatAdd(boot.now, Tuning.REBOOT_COUNT_HEALTHY_AFTER), slept)
            && forall i :: 0 <= i < |run.trace| && run.trace[i].Waited? ==> run.trace[i].at < run.trace[i].deadline
  {
    var waking := WakePhase.WakeTrace(boot, boot.now, c, loadedAt, ds) + DueTrace(a, now, due);
    var b, run := DueDone(a, now, due), Outcomes(DueDone(a, now, due), start, laps);
    assert PumpLegal(l, NewApp(boot, c), loadedAt, ds);
    hide WakePhase.WakeTrace, WakePhase.Decided, PumpLegal, Pump, DueTrace, DueDone, DueAt, Outcomes, IsRun,
         WritesIn, AllTrue, SleptSafely, WakePhase.Readings, StoredAfter, FedWithin, WrittenInTime;
    WakingWritesNothing(l, boot, c, loadedAt, ds, a, now, due);
    WakePhase.HandsOver(l, boot, boot.now, c, loadedAt, ds, a, now, due);
    WritesConcat(waking, run.trace);
    RebootCountIsWrittenOnce(l, b, start, laps);
    WaitsAreInTheFuture(l, b, start, laps);
  }

  lemma BootSleeps(l: Limits, boot: Boot, startup: nat, c: Calibration, loadedAt: nat, ds: seq<Delivery>,
                    a: AppState, now: nat, due: DueAnswers, start: nat, laps: seq<Lap>) returns (read: nat, since: nat, empty: nat)
    requires Booted(l, boot, startup, c, loadedAt, ds, a, now, due, start, laps)
    requires EndOf(Outcomes(DueDone(a, now, due), start, laps).config).Slept?
    ensures var waking := WakePhase.WakeTrace(boot, boot.now, c, loadedAt, ds) + DueTrace(a, now, due);
            var run := Outcomes(DueDone(a, now, due), start, laps);
            && WakePhase.Readings(waking) == 1
            && SleptSafely(run.trace, false, run.config.at, EndOf(run.config).forMs, read, since, empty)
  {
    var b, run := DueDone(a, now, due), Outcomes(DueDone(a, now, due), start, laps);
    hide WakePhase.WakeTrace, WakePhase.Decided, PumpLegal, Pump, DueTrace, DueDone, DueAt, Outcomes, IsRun,
         WritesIn, AllTrue, SleptSafely, WakePhase.Readings, StoredAfter, FedWithin, WrittenInTime;
    WakePhase.HandsOver(l, boot, boot.now, c, loadedAt, ds, a, now, due);
    WakePhase.OneReadingAnswersThePress(l, boot, boot.now, c, loadedAt, ds, a, now, due);
    var forMs := run.config.outcome.forMs;
    read, since, empty := SleepIsSafe(l, b, start, laps, run.config.app, run.config.at, forMs);
  }

  /** The calls of a boot that comes to its operational phase. */
  lemma BootBehaves(l: Limits, boot: Boot, startup: nat, c: Calibration, loadedAt: nat, ds: seq<Delivery>,
                    a: AppState, now: nat, due: DueAnswers, start: nat, laps: seq<Lap>)
    requires Booted(l, boot, startup, c, loadedAt, ds, a, now, due, start, laps)
    ensures var waking := WakePhase.WakeTrace(boot, boot.now, c, loadedAt, ds) + DueTrace(a, now, due);
            var run := Outcomes(DueDone(a, now, due), start, laps);
            var course := Whole(loadedAt, ds, a, now, due, start, laps);
            && WellBehaved(Record(boot, c, course, waking, run.trace, EndOf(run.config), run.config.at), BootHunger(l, startup))
            && StoredAfter(c, waking + run.trace) == run.config.app.calibration
  {
    hide Booted, BootHunger, WakePhase.WakeTrace, WakePhase.Decided, PumpLegal, Pump, DueTrace, DueDone, DueAt, Outcomes, IsRun,
         WritesIn, AllTrue, SleptSafely, WakePhase.Readings, StoredAfter, FedWithin, WrittenInTime;
    BootIsTrue(l, boot, startup, c, loadedAt, ds, a, now, due, start, laps);
    BootIsFed(l, boot, startup, c, loadedAt, ds, a, now, due, start, laps);
    BootWrites(l, boot, startup, c, loadedAt, ds, a, now, due, start, laps);
    if EndOf(Outcomes(DueDone(a, now, due), start, laps).config).Slept? {
      var read, since, empty := BootSleeps(l, boot, startup, c, loadedAt, ds, a, now, due, start, laps);
    }
    var waking := WakePhase.WakeTrace(boot, boot.now, c, loadedAt, ds) + DueTrace(a, now, due);
    var run := Outcomes(DueDone(a, now, due), start, laps);
    var r := Record(boot, c, Whole(loadedAt, ds, a, now, due, start, laps), waking, run.trace, EndOf(run.config), run.config.at);
    assert r.All() == waking + run.trace;
    assert AllTrue(r.stored, r.All());
    assert FedWithin(r.All(), r.boot.now, r.now, BootHunger(l, startup));
    assert WrittenInTime(r.calls, SatAdd(r.boot.now, Tuning.REBOOT_COUNT_HEALTHY_AFTER), r.end.Slept?);
    assert r.end.Slept? ==> exists read: nat, since: nat, empty: nat :: SleptSafely(r.calls, false, r.now, r.end.forMs, read, since, empty);
  }

  /** A boot, on a world of these limits, whose stack took up to `startup` to come up: its
      course is a legal one, and its calls, its end and its time are what comes of it. */
  ghost predicate IsBoot(l: Limits, startup: nat, r: Record)
  {
    match r.course
    case Cut(loadedAt, ds) =>
      && PumpLegal(l, NewApp(r.boot, r.stored), loadedAt, ds) && r.boot.now <= loadedAt <= r.boot.now + l.load
      && var c := Pump(NewApp(r.boot, r.stored), loadedAt, ds).config;
         && c.Ended? && r.end == Reset && r.now == c.at
         && r.waking == WakePhase.WakeTrace(r.boot, r.boot.now, r.stored, loadedAt, ds) && r.calls == []
    case Whole(loadedAt, ds, app, decidedAt, due, start, laps) =>
      && Booted(l, r.boot, startup, r.stored, loadedAt, ds, app, decidedAt, due, start, laps)
      && var run := Outcomes(DueDone(app, decidedAt, due), start, laps);
         && r.end == EndOf(run.config) && r.now == run.config.at
         && r.waking == WakePhase.WakeTrace(r.boot, r.boot.now, r.stored, loadedAt, ds) + DueTrace(app, decidedAt, due)
         && r.calls == run.trace
  }

  /** The calibration in effect when it ends. */
  function InEffect(r: Record): Calibration
  {
    match r.course
    case Cut(_, _) => r.stored
    case Whole(_, _, app, decidedAt, due, start, laps) => Outcomes(DueDone(app, decidedAt, due), start, laps).config.app.calibration
  }

  /** Every boot is well behaved, and leaves in storage what it leaves in effect. */
  lemma BootsBehave(l: Limits, startup: nat, r: Record)
    requires IsBoot(l, startup, r)
    ensures WellBehaved(r, BootHunger(l, startup)) && StoredAfter(r.stored, r.All()) == InEffect(r)
  {
    hide WellBehaved, Booted, Pump, PumpLegal, Outcomes, DueDone, DueTrace, WakePhase.WakeTrace, StoredAfter, BootHunger, NewApp;
    match r.course
    case Cut(loadedAt, ds) =>
      ResetInWake(l, r.boot, startup, r.stored, loadedAt, ds, r.now);
      assert r.All() == r.waking;
    case Whole(loadedAt, ds, app, decidedAt, due, start, laps) =>
      BootBehaves(l, r.boot, startup, r.stored, loadedAt, ds, app, decidedAt, due, start, laps);
  }

  /** Every boot answers its person. The waking press, if there was one, is answered by the
      one reading, shown for a single press and after a calibration for a triple one; and
      everything the button said in the operational phase, from rest, was given at its
      instant, but for the last, if the boot goes on, or the reset, if it ended so. */
  lemma BootsAnswer(l: Limits, startup: nat, r: Record)
    requires IsBoot(l, startup, r) && r.course.Whole?
    ensures var (a, now, due, start, laps) := (r.course.app, r.course.decidedAt, r.course.due, r.course.start, r.course.laps);
            var wanted, f := WakePhase.Wanted(r.boot, r.course.ds), DueDone(a, now, due).button;
            && DueTrace(a, now, due) ==
               (if wanted == Some(Button.Calibrate) then
                  Flow.TraceOf(now, due.flow) + SampleTrace(DueDone(a, now, due).calibration, false, Flow.EndOf(due.flow), due.soil, due.battery)
                else SampleTrace(r.stored, wanted == Some(Button.SampleNow), now, due.soil, due.battery))
            && f.mode == Button.Mode.Idle
            && Answering.Spoken(f, Answering.Heard(r.calls)) ==
               Answering.Given(r.calls) + Answering.Unanswered(Outcomes(DueDone(a, now, due), start, laps).config)
  {
    var (ds, a, now, due, start, laps) := (r.course.ds, r.course.app, r.course.decidedAt, r.course.due, r.course.start, r.course.laps);
    var b := DueDone(a, now, due);
    hide WakePhase.Decided, Pump, PumpLegal, Outcomes, IsRun, DueDone, DueAt, DueTrace, WakePhase.WakeTrace, NewApp, WakePhase.Wanted,
         Answering.Spoken, Answering.Heard, Answering.Given, Answering.Unanswered, Starts, WakePhase.Readings;
    WakePhase.OneReadingAnswersThePress(l, r.boot, r.boot.now, r.stored, r.course.loadedAt, ds, a, now, due);
    WakePhase.HandsOver(l, r.boot, r.boot.now, r.stored, r.course.loadedAt, ds, a, now, due);
    Answering.GesturesAreAnswered(l, b, start, laps);
    assert [] + Answering.Spoken(b.button, Answering.Heard(r.calls)) == Answering.Spoken(b.button, Answering.Heard(r.calls));
  }

  /** One boot, from whatever caused it, on any world. The stack takes up to `startup`
      to come up between the phases. */
  method RunOneBoot(ports: World, wake: WakeCause, afterCrash: bool, startup: nat, budget: nat)
    returns (end: End, ghost r: Record, ghost rounds: nat)
    modifies ports`clock, ports`durable, ports`supply, ports`trace
    ensures end.Unfinished? ==> ports.clock > HORIZON || rounds == budget
    ensures r.boot == Boot(wake, old(ports.clock), afterCrash) && r.stored == old(ports.durable) && r.end == end && r.now == ports.clock
    ensures !(end.Unfinished? && ports.clock > HORIZON) ==>
              && ports.trace == old(ports.trace) + r.All() && ports.durable == StoredAfter(r.stored, r.All())
              && IsBoot(ports.limits, startup, r)
  {
    hide WellBehaved, Pump, PumpLegal, Outcomes, IsRun, DueLegal, DueDone, DueAt, DueTrace, StoredAfter, BootHunger, Preamble, NewApp;
    var boot := Boot(wake, ports.clock, afterCrash);
    ghost var at, c := ports.clock, ports.durable;
    var woken;
    ghost var loadedAt, ds, due;
    woken, loadedAt, ds, due := Application.RunWake(ports, boot);
    ghost var said := WakePhase.WakeTrace(boot, at, c, loadedAt, ds);
    match woken {
      case OutOfRange =>
        return Unfinished, Record(boot, c, Cut(loadedAt, ds), [], [], Unfinished, ports.clock), 0;
      case Over(outcome) =>
        r := Record(boot, c, Cut(loadedAt, ds), said, [], Reset, ports.clock);
        assert r.All() == said && ports.trace == old(ports.trace) + said;
        BootsBehave(ports.limits, startup, r);
        return Reset, r, 0;
      case Ready(app) =>
        ghost var head := Pump(NewApp(boot, c), loadedAt, ds).config;
        ghost var waking := said + DueTrace(head.app, head.at, due);
        assert ports.trace == old(ports.trace) + waking;
        ports.Pass(startup);
        ghost var a, start := app.View(), ports.clock;
        var outcome;
        ghost var laps;
        outcome, laps := Application.RunBoot(ports, app, budget);
        rounds := |laps|;
        match outcome {
          case Some(Sleep(forMs)) => end := Slept(forMs);
          case Some(FactoryReset) => end := Reset;
          case None => end := Unfinished;
        }
        r := Record(boot, c, Whole(loadedAt, ds, head.app, head.at, due, start, laps), waking, Outcomes(a, start, laps).trace, end, ports.clock);
        assert Booted(ports.limits, boot, startup, c, loadedAt, ds, head.app, head.at, due, start, laps);
        BootsBehave(ports.limits, startup, r);
    }
  }

  // Boots after boots.

  /** What the device is woken by, and whether the boot before crashed. */
  datatype Wake = Wake(cause: WakeCause, afterCrash: bool)

  function ColdBoots(wakes: seq<Wake>, n: nat): nat
    requires n <= |wakes|
  {
    if n == 0 then 0 else ColdBoots(wakes, n - 1) + if wakes[n - 1].cause == WakeCause.Cold then 1 else 0
  }

  function AllCalls(history: seq<Record>): seq<Entry>
  {
    if history == [] then [] else AllCalls(history[..|history| - 1]) + history[|history| - 1].All()
  }

  /** A boot after the boots `before`, which all slept: it begins its own clock, with the
      calibration that their calls have stored. */
  ghost predicate Link(wakes: seq<Wake>, c: Calibration, before: seq<Record>, r: Record, l: Limits, startup: nat)
  {
    && |before| < |wakes| && (before != [] ==> before[|before| - 1].end.Slept?)
    && r.boot == Boot(wakes[|before|].cause, 0, wakes[|before|].afterCrash)
    && r.stored == StoredAfter(c, AllCalls(before))
    && IsBoot(l, startup, r)
  }

  ghost predicate Chain(wakes: seq<Wake>, c: Calibration, history: seq<Record>, l: Limits, startup: nat)
  {
    history != [] ==>
      var before := history[..|history| - 1];
      Chain(wakes, c, before, l, startup) && Link(wakes, c, before, history[|history| - 1], l, startup)
  }

  lemma ChainGrows(wakes: seq<Wake>, c: Calibration, history: seq<Record>, r: Record, l: Limits, startup: nat)
    requires Chain(wakes, c, history, l, startup) && Link(wakes, c, history, r, l, startup)
    ensures Chain(wakes, c, history + [r], l, startup)
    ensures AllCalls(history + [r]) == AllCalls(history) + r.All()
    ensures StoredAfter(c, AllCalls(history + [r])) == StoredAfter(r.stored, r.All())
  {
    assert (history + [r])[..|history|] == history;
    hide IsBoot, StoredAfter;
    StoredConcat(c, AllCalls(history), r.All());
  }

  /** Over the whole of a chain: every report was true against the calibration in storage at
      that moment, and the reboot count was written once for every cold boot that slept,
      never for a wake from sleep, and at most once for a last boot that did not sleep. */
  lemma {:induction false} ChainBehaves(wakes: seq<Wake>, c: Calibration, history: seq<Record>, l: Limits, startup: nat)
    requires Chain(wakes, c, history, l, startup)
    ensures |history| <= |wakes| && AllTrue(c, AllCalls(history))
    ensures var slept := if history != [] && !history[|history| - 1].end.Slept? then |history| - 1 else |history|;
            ColdBoots(wakes, slept) <= WritesIn(AllCalls(history)) <= ColdBoots(wakes, |history|)
  {
    if history == [] {
      TriviallyTrue(c, []);
    } else {
      hide IsBoot, WellBehaved, StoredAfter, AllTrue, WritesIn;
      var most, r := history[..|history| - 1], history[|history| - 1];
      assert Chain(wakes, c, most, l, startup) && Link(wakes, c, most, r, l, startup);
      assert AllCalls(history) == AllCalls(most) + r.All();
      assert ColdBoots(wakes, |history|) == ColdBoots(wakes, |most|) + if r.IsCold() then 1 else 0;
      BootsBehave(l, startup, r);
      Promises(r, BootHunger(l, startup));
      assert r.stored == StoredAfter(c, AllCalls(most)) && |most| < |wakes| && (r.IsCold() <==> wakes[|most|].cause == WakeCause.Cold);
      assert most != [] ==> most[|most| - 1].end.Slept?;
      hide *;
      ChainBehaves(wakes, c, most, l, startup);
      TrueConcat(c, AllCalls(most), r.All());
      WritesConcat(AllCalls(most), r.All());
    }
  }

  lemma Promises(r: Record, hunger: nat)
    requires WellBehaved(r, hunger)
    ensures AllTrue(r.stored, r.All()) && WritesIn(r.All()) <= (if r.IsCold() then 1 else 0)
    ensures r.end.Slept? ==> WritesIn(r.All()) == if r.IsCold() then 1 else 0
  {
    hide AllTrue, FedWithin, SleptSafely, WrittenInTime, WakePhase.Readings, WritesIn;
  }

  /** Boot after boot, for as long as each one sleeps: a chain, of which the world saw
      exactly the calls. */
  method RunBoots(ports: World, wakes: seq<Wake>, startup: nat, budget: nat) returns (slept: nat, last: End, ghost history: seq<Record>)
    modifies ports`clock, ports`durable, ports`supply, ports`trace
    ensures slept <= |wakes| && (slept < |wakes| ==> !last.Slept?)
    ensures !(last.Unfinished? && ports.clock > HORIZON) ==>
              && Chain(wakes, old(ports.durable), history, ports.limits, startup)
              && |history| == (if slept < |wakes| then slept + 1 else slept)
              && (history != [] ==> history[|history| - 1].end == last)
              && ports.trace == old(ports.trace) + AllCalls(history)
              && ports.durable == StoredAfter(old(ports.durable), AllCalls(history))
  {
    hide IsBoot, StoredAfter, AllTrue;
    ghost var c, l := ports.durable, ports.limits;
    history, slept, last := [], 0, Slept(0);
    StoresNothing(c, []);
    while slept < |wakes|
      invariant slept <= |wakes| && last.Slept? && |history| == slept
      invariant Chain(wakes, c, history, l, startup) && (history != [] ==> history[|history| - 1].end == last)
      invariant ports.trace == old(ports.trace) + AllCalls(history) && ports.durable == StoredAfter(c, AllCalls(history))
    {
      ports.Reboot();
      ghost var r, rounds;
      last, r, rounds := RunOneBoot(ports, wakes[slept].cause, wakes[slept].afterCrash, startup, budget);
      if last.Unfinished? && ports.clock > HORIZON {
        return;
      }
      ChainGrows(wakes, c, history, r, l, startup);
      assert ports.trace == old(ports.trace) + AllCalls(history + [r]);
      history := history + [r];
      if !last.Slept? {
        return;
      }
      slept := slept + 1;
    }
  }
}
