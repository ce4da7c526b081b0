/**
 Nothing is left out: what a boot's calls must go on to once something is read, delayed or
 begun, and how a boot opens. `Measured` says that every report is of a reading; here every
 reading comes to its report.

 The shapes are written out with their numbers, and are said of the calls alone.
 */
module Accounted {
  import opened Machine
  import opened Vocabulary
  import opened BootModel
  import opened Measurement
  import WakePhase
  import Device
  import Measured
  import Flow = CalibrationFlow

  // What follows what.

  /** A reading made for a calibration comes directly after a hold. */
  predicate InFlow(t: seq<Entry>, i: nat)
    requires i < |t|
  {
    i > 0 && t[i - 1].Delayed?
  }

  /** The two voltages are far enough apart, in the signed 32-bit arithmetic of the program. */
  predicate Wide(dry: U32, wet: U32)
  {
    WrapI32(AsI32(dry) - AsI32(wet)) >= 200
  }

  const BEGUN := Blink(Red, 10, 500)
  const TURNED := Blink(Green, 10, 500)
  const FAILED := Blink(Yellow, 5, 100)

  /** From the signal at `i`, the whole of a calibration: ten seconds and a reading twice over,
      the second under its own signal; then a wide pair is stored, and a pair that is not wide,
      or was not stored, is signalled. */
  predicate FlowFrom(t: seq<Entry>, i: nat)
    requires i < |t|
  {
    && i + 6 < |t|
    && t[i + 1].Delayed? && t[i + 1].at == t[i].at && t[i + 1].duration == 10_000 && t[i + 2].SoilRead?
    && t[i + 3] == LedSent(t[i + 2].until, TURNED)
    && t[i + 4].Delayed? && t[i + 4].at == t[i + 2].until && t[i + 4].duration == 10_000 && t[i + 5].SoilRead?
    && var dry, wet := t[i + 2].mv, t[i + 5].mv;
       if Wide(dry, wet) then
         && t[i + 6].CalibrationStored? && t[i + 6].at == t[i + 5].until && t[i + 6].calibration == Calibration(AsI32(dry), AsI32(wet))
         && (!t[i + 6].stored ==> i + 7 < |t| && t[i + 7] == LedSent(t[i + 6].until, FAILED))
       else t[i + 6] == LedSent(t[i + 5].until, FAILED)
  }

  /** A rejection is signalled directly after a store that failed, or a pair that is not wide. */
  predicate RejectedBefore(t: seq<Entry>, i: nat)
    requires i < |t|
  {
    || (i >= 1 && t[i - 1].CalibrationStored? && !t[i - 1].stored)
    || (i >= 4 && t[i - 1].SoilRead? && t[i - 4].SoilRead? && !Wide(t[i - 4].mv, t[i - 1].mv))
  }

  /** What entry `i` goes on to:
      - a cell that was read is reported at once, by the estimate of its voltage;
      - a soil that was read is reported at once, unless it was read for a calibration;
      - a moisture that was reported is followed at once by a read of the cell, or shown first;
      - a hold is followed at once by a read of the soil;
      - a calibration that was begun is gone through. */
  predicate FollowedAt(t: seq<Entry>, i: nat)
    requires i < |t|
  {
    match t[i]
    case BatteryRead(_, mv, until) => i + 1 < |t| && t[i + 1] == BatteryReported(until, EstimateBattery(mv))
    case SoilRead(_, _, until) => InFlow(t, i) || (i + 1 < |t| && t[i + 1].SoilReported? && t[i + 1].at == until)
    case SoilReported(at, percent) =>
      && i + 1 < |t|
      && var n := if t[i + 1] == LedSent(at, ClassifyMoisture(percent)) then i + 2 else i + 1;
         n < |t| && t[n].BatteryRead? && t[n].at == at
    case Delayed(_, _, until) => i + 1 < |t| && t[i + 1].SoilRead? && t[i + 1].at == until
    case LedSent(_, command) => (command == BEGUN ==> FlowFrom(t, i)) && (command == FAILED ==> RejectedBefore(t, i))
    case _ => true
  }

  ghost predicate AllFollowed(t: seq<Entry>)
  {
    forall i: nat {:trigger FollowedAt(t, i)} :: i < |t| ==> FollowedAt(t, i)
  }

  // Counts.

  datatype Kind = SoilRead | SoilReported | CellRead | CellReported

  /** Entry `i` is of kind `k`. A reading for a calibration is none. */
  predicate Is(k: Kind, t: seq<Entry>, i: nat)
    requires i < |t|
  {
    match k
    case SoilRead => t[i].SoilRead? && !InFlow(t, i)
    case SoilReported => t[i].SoilReported?
    case CellRead => t[i].BatteryRead?
    case CellReported => t[i].BatteryReported?
  }

  function Count(k: Kind, t: seq<Entry>): nat
  {
    if t == [] then 0 else Count(k, t[..|t| - 1]) + if Is(k, t, |t| - 1) then 1 else 0
  }

  /** The calls take `n` readings, and each of them is complete: soil read, moisture reported,
      cell read, cell reported. */
  ghost predicate Complete(t: seq<Entry>, n: nat)
  {
    AllFollowed(t) && forall k {:trigger Count(k, t)} :: Count(k, t) == n
  }

  lemma IsLater(k: Kind, s: seq<Entry>, t: seq<Entry>, i: nat)
    requires i < |t| && (s == [] || !s[|s| - 1].Delayed?)
    ensures Is(k, s + t, |s| + i) <==> Is(k, t, i)
  {
    assert (s + t)[|s| + i] == t[i] && (i > 0 ==> (s + t)[|s| + i - 1] == t[i - 1]);
  }

  lemma {:induction false} CountsAdd(k: Kind, s: seq<Entry>, t: seq<Entry>)
    requires s == [] || !s[|s| - 1].Delayed?
    ensures Count(k, s + t) == Count(k, s) + Count(k, t)
  {
    if t == [] {
      assert s + t == s;
    } else {
      var most := t[..|t| - 1];
      assert (s + t)[..|s + t| - 1] == s + most;
      IsLater(k, s, t, |t| - 1);
      hide Is;
      CountsAdd(k, s, most);
    }
  }

  lemma {:induction false} CountsNothing(k: Kind, t: seq<Entry>)
    requires forall i: nat {:trigger Is(k, t, i)} :: i < |t| ==> !Is(k, t, i)
    ensures Count(k, t) == 0
  {
    if t != [] {
      var most := t[..|t| - 1];
      forall i: nat | i < |most| ensures !Is(k, most, i) {
        assert !Is(k, t, i);
      }
      CountsNothing(k, most);
    }
  }

  lemma FollowedLater(s: seq<Entry>, t: seq<Entry>, i: nat)
    requires i < |t| && FollowedAt(t, i)
    ensures FollowedAt(s + t, |s| + i)
  {
    var both := s + t;
    assert forall j: nat {:trigger t[j]} :: j < |t| ==> both[|s| + j] == t[j];
    hide Wide, EstimateBattery;
  }

  lemma FollowedBefore(s: seq<Entry>, t: seq<Entry>, i: nat)
    requires i < |s| && FollowedAt(s, i)
    ensures FollowedAt(s + t, i)
  {
    var both := s + t;
    assert forall j: nat {:trigger s[j]} :: j < |s| ==> both[j] == s[j];
    hide Wide, EstimateBattery;
  }

  lemma FollowedConcat(s: seq<Entry>, t: seq<Entry>)
    requires AllFollowed(s) && AllFollowed(t)
    ensures AllFollowed(s + t) && (s == [] || !s[|s| - 1].Delayed?)
  {
    if s != [] {
      assert FollowedAt(s, |s| - 1);
    }
    hide FollowedAt;
    forall i: nat | i < |s + t| ensures FollowedAt(s + t, i) {
      if i < |s| {
        FollowedBefore(s, t, i);
      } else {
        FollowedLater(s, t, i - |s|);
      }
    }
  }

  lemma CompleteConcat(s: seq<Entry>, m: nat, t: seq<Entry>, n: nat)
    requires Complete(s, m) && Complete(t, n)
    ensures Complete(s + t, m + n)
  {
    hide AllFollowed, Count;
    FollowedConcat(s, t);
    forall k ensures Count(k, s + t) == m + n {
      CountsAdd(k, s, t);
    }
  }

  /** Calls that read, report, hold and begin nothing, and reject nothing. */
  predicate Plain(e: Entry)
  {
    && !e.SoilRead? && !e.SoilReported? && !e.BatteryRead? && !e.BatteryReported? && !e.Delayed?
    && !(e.LedSent? && (e.command == BEGUN || e.command == FAILED))
  }

  lemma PlainIsComplete(t: seq<Entry>)
    requires forall i {:trigger t[i]} :: 0 <= i < |t| ==> Plain(t[i])
    ensures Complete(t, 0)
  {
    forall k ensures Count(k, t) == 0 {
      CountsNothing(k, t);
    }
  }

  /** The calls of one reading are one complete reading. */
  lemma SampleIsComplete(c: Calibration, withLed: bool, at: nat, soil: Flow.Reading, battery: Flow.Reading)
    ensures Complete(SampleTrace(c, withLed, at, soil, battery), 1)
  {
    hide MoistureOf, EstimateBattery;
    var t := SampleTrace(c, withLed, at, soil, battery);
    assert t[0] == Entry.SoilRead(at, soil.mv, soil.until) && t[1].SoilReported?;
    assert t[|t| - 2].BatteryRead? && t[|t| - 1].BatteryReported?;
    forall k ensures Count(k, t) == 1 {
      OneOf(k, t, match k case SoilRead => 0 case SoilReported => 1 case CellRead => |t| - 2 case CellReported => |t| - 1);
    }
  }

  lemma {:induction false} OneOf(k: Kind, t: seq<Entry>, i: nat)
    requires i < |t| && forall j: nat {:trigger Is(k, t, j)} :: j < |t| ==> (Is(k, t, j) <==> j == i)
    ensures Count(k, t) == 1
  {
    var most := t[..|t| - 1];
    forall j: nat | j < |most| ensures Is(k, most, j) <==> j == i {
      assert Is(k, t, j) <==> j == i;
    }
    if i < |most| {
      OneOf(k, most, i);
    } else {
      CountsNothing(k, most);
    }
  }

  /** A calibration is gone through, and none of its readings is reported. */
  lemma FlowIsComplete(at: nat, f: Flow.Answers)
    ensures Complete(Flow.TraceOf(at, f), 0)
  {
    var t := Flow.TraceOf(at, f);
    forall k ensures Count(k, t) == 0 {
      CountsNothing(k, t);
    }
    FlowIsFollowed(at, f);
  }

  lemma FlowIsFollowed(at: nat, f: Flow.Answers)
    ensures AllFollowed(Flow.TraceOf(at, f))
  {
    var t := Flow.TraceOf(at, f);
    assert Flow.WideEnough(f) <==> Wide(f.dry.mv, f.wet.mv);
    hide Flow.WideEnough, Wide;
    assert t[0] == LedSent(at, BEGUN) && t[3] == LedSent(f.dry.until, TURNED);
    assert FlowFrom(t, 0);
    forall i: nat | i < |t| ensures FollowedAt(t, i) {
    }
  }

  /** The due work takes one reading if one is due, and none if not. */
  lemma DueIsComplete(a: AppState, at: nat, d: DueAnswers)
    ensures Complete(DueTrace(a, at, d), if SampleIsDue(a, at, d.flow) then 1 else 0)
  {
    var flow, c, asked := FlowTrace(a, at, d.flow), AfterFlow(a, d.flow).calibration, AfterFlowAt(a, at, d.flow);
    var sample := SampleTrace(c, a.sampleWithLed, asked, d.soil, d.battery);
    PlainIsComplete([]);
    FlowIsComplete(at, d.flow);
    SampleIsComplete(c, a.sampleWithLed, asked, d.soil, d.battery);
    hide Complete, Flow.TraceOf, SampleTrace;
    assert Complete(flow, 0);
    if SampleIsDue(a, at, d.flow) {
      CompleteConcat(flow, 0, sample, 1);
    } else {
      assert DueTrace(a, at, d) == flow;
    }
  }

  lemma {:induction false} TakenIsPlain(edges: seq<Edge>, now: nat)
    ensures forall i {:trigger Taken(edges, now)[i]} :: 0 <= i < |Taken(edges, now)| ==> Taken(edges, now)[i].EdgePolled?
  {
    if edges != [] {
      TakenIsPlain(edges[..|edges| - 1], now);
    }
  }

  /** A decision polls, and persists the reboot count at most. */
  predicate Polls(e: Entry) { e.EdgePolled? || e.IcdRead? || e.RebootCountPersisted? }

  lemma DecisionPolls(a: AppState, now: nat, icd: IcdState, edges: seq<Edge>)
    ensures var t := Decide(a, now, icd, edges).calls; forall i {:trigger t[i]} :: 0 <= i < |t| ==> Polls(t[i])
  {
    TakenIsPlain(edges, now);
    hide Taken, Drained, SleepFor;
  }

  /** What a round does after its due work. */
  predicate Asks(e: Entry) { Polls(e) || e.Waited? || ForAGesture(e) }

  /** A request for a gesture: for the usual time, or a minute for a calibration. */
  predicate ForAGesture(e: Entry) { e.ActiveRequested? && (e.hold == None || e.hold == Some(60_000)) }

  lemma EventAsks(a: AppState, event: Event, until: nat)
    ensures var t := OnEvent(a, event, until).calls; forall i {:trigger t[i]} :: 0 <= i < |t| ==> Asks(t[i])
  {
  }

  lemma RestAsks(a: AppState, at: nat, x: Answers) returns (rest: seq<Entry>)
    ensures Round(a, at, x).trace == DueTrace(a, at, x.due) + rest
    ensures forall i {:trigger rest[i]} :: 0 <= i < |rest| ==> Asks(rest[i])
  {
    var decision, due := Decision(a, at, x), DueTrace(a, at, x.due);
    RoundParts(a, at, x);
    DecisionAsks(a, at, x);
    EventAsks(decision.app, x.event, x.until);
    var wait := Waited(DueAt(a, at, x.due), NextDeadline(decision.app, DueAt(a, at, x.due)), x.event, x.until);
    assert Asks(wait);
    hide *;
    rest := decision.calls;
    if decision.outcome.None? {
      var more := [wait] + OnEvent(decision.app, x.event, x.until).calls;
      rest := decision.calls + more;
      assert due + decision.calls + more == due + rest;
    }
  }

  lemma DecisionAsks(a: AppState, at: nat, x: Answers)
    ensures var t := Decision(a, at, x).calls; forall i {:trigger t[i]} :: 0 <= i < |t| ==> Asks(t[i])
  {
    DecisionPolls(DueDone(a, at, x.due), DueAt(a, at, x.due), x.icd, x.edges);
    hide Decide, DueDone, DueAt;
  }

  lemma RoundIsComplete(a: AppState, at: nat, x: Answers) returns (n: nat)
    ensures Complete(Round(a, at, x).trace, n)
  {
    var rest := RestAsks(a, at, x);
    n := if SampleIsDue(a, at, x.due.flow) then 1 else 0;
    DueIsComplete(a, at, x.due);
    PlainIsComplete(rest);
    hide Complete, DueTrace, Round;
    CompleteConcat(DueTrace(a, at, x.due), n, rest, 0);
  }

  /** Over every run of the operational phase, whatever the world answers: everything that was
      read for a report is reported, one for one and at once. */
  lemma {:induction false} RunIsComplete(l: Limits, a: AppState, at: nat, laps: seq<Lap>) returns (n: nat)
    requires IsRun(l, a, at, laps)
    ensures Complete(Outcomes(a, at, laps).trace, n)
  {
    if laps == [] {
      NoLaps(l, a, at);
      PlainIsComplete([]);
      n := 0;
    } else {
      LastLap(l, a, at, laps);
      var most, lap := laps[..|laps| - 1], laps[|laps| - 1];
      hide Round, RoundLegal, Complete, IsRun, Outcomes;
      var before := RunIsComplete(l, a, at, most);
      var more := RoundIsComplete(lap.app, lap.at, lap.answers);
      CompleteConcat(Outcomes(a, at, most).trace, before, lap.end.trace, more);
      n := before + more;
    }
  }

  // The wake phase.

  lemma SaidIsComplete(l: Limits, boot: Boot, at: nat, c: Calibration, loadedAt: nat, ds: seq<Delivery>)
    requires PumpLegal(l, NewApp(boot, c), loadedAt, ds)
    ensures Complete(WakePhase.WakeTrace(boot, at, c, loadedAt, ds), 0)
  {
    WakePhase.WakeOnlyAsks(l, boot, at, c, loadedAt, ds);
    hide WakePhase.WakeTrace, PumpLegal;
    PlainIsComplete(WakePhase.WakeTrace(boot, at, c, loadedAt, ds));
  }

  /** A wake phase that is done took one reading, and completed it. */
  lemma WakeIsComplete(l: Limits, boot: Boot, at: nat, c: Calibration, loadedAt: nat, ds: seq<Delivery>, a: AppState, now: nat, due: DueAnswers)
    requires WakePhase.Decided(l, boot, at, c, loadedAt, ds, a, now, due)
    ensures Complete(WakePhase.WakeTrace(boot, at, c, loadedAt, ds) + DueTrace(a, now, due), 1)
  {
    SaidIsComplete(l, boot, at, c, loadedAt, ds);
    WakePhase.DecidedApp(l, boot, at, c, loadedAt, ds, a, now, due);
    hide WakePhase.Decided, WakePhase.Wanted, WakePhase.WakeTrace, WakePhase.Readings, Complete, DueTrace;
    assert SampleIsDue(a, now, due.flow);
    DueIsComplete(a, now, due);
    CompleteConcat(WakePhase.WakeTrace(boot, at, c, loadedAt, ds), 0, DueTrace(a, now, due), 1);
  }

  // How a boot opens.

  /** The three calls that only open a boot. */
  predicate OfCrash(e: Entry) { e.LedSent? && e.command == Blink(Red, 5, 100) }

  predicate OfWaking(e: Entry) { e.ActiveRequested? && e.hold == Some(30_000) }

  predicate Opening(e: Entry) { OfCrash(e) || OfWaking(e) || e.CalibrationLoaded? }

  /** After a crash, and only then, a boot signals it, first of all. Then a boot that a press
      woke, and only such a one, asks the stack to stay reachable for half a minute. Then, once,
      it loads the calibration. It does none of this again, and whatever else it asks of the stack
      is for a gesture. */
  ghost predicate Opens(boot: Boot, at: nat, c: Calibration, t: seq<Entry>)
  {
    var crash: nat, woken: nat := if boot.afterCrash then 1 else 0, if boot.wake == WakeCause.Button then 1 else 0;
    && crash + woken < |t|
    && t[crash + woken].CalibrationLoaded? && t[crash + woken].calibration == c
    && (forall i {:trigger t[i]} :: 0 <= i <= crash + woken ==> t[i].at == at)
    && (forall i {:trigger OfCrash(t[i])} :: 0 <= i < |t| ==> (OfCrash(t[i]) <==> i < crash))
    && (forall i {:trigger OfWaking(t[i])} :: 0 <= i < |t| ==> (OfWaking(t[i]) <==> crash <= i < crash + woken))
    && (forall i {:trigger t[i].CalibrationLoaded?} :: 0 <= i < |t| ==> (t[i].CalibrationLoaded? <==> i == crash + woken))
    && (forall i {:trigger t[i]} :: crash + woken < i < |t| && t[i].ActiveRequested? ==> ForAGesture(t[i]))
  }

  ghost predicate Opened(t: seq<Entry>)
  {
    forall i {:trigger t[i]} :: 0 <= i < |t| ==> !Opening(t[i]) && (t[i].ActiveRequested? ==> ForAGesture(t[i]))
  }

  lemma OpensOnce(boot: Boot, at: nat, c: Calibration, loadedAt: nat, rest: seq<Entry>)
    requires Opened(rest)
    ensures Opens(boot, at, c, Preamble(boot, at, c, loadedAt) + rest)
  {
    var first := Preamble(boot, at, c, loadedAt);
    var t := first + rest;
    var crash: nat, woken: nat := if boot.afterCrash then 1 else 0, if boot.wake == WakeCause.Button then 1 else 0;
    PreambleIs(boot, at, c, loadedAt);
    hide Preamble, Opened, OfCrash, OfWaking, ForAGesture;
    forall i: nat | i < |t|
      ensures (OfCrash(t[i]) <==> i < crash) && (OfWaking(t[i]) <==> crash <= i < crash + woken) && (t[i].CalibrationLoaded? <==> i == crash + woken)
      ensures (i <= crash + woken ==> t[i].at == at) && (i > crash + woken && t[i].ActiveRequested? ==> ForAGesture(t[i]))
    {
      if i < |first| {
        assert t[i] == first[i];
      } else {
        assert t[i] == rest[i - |first|];
        NotAnOpening(rest, i - |first|);
      }
    }
  }

  lemma NotAnOpening(t: seq<Entry>, i: nat)
    requires Opened(t) && i < |t|
    ensures !OfCrash(t[i]) && !OfWaking(t[i]) && !t[i].CalibrationLoaded? && (t[i].ActiveRequested? ==> ForAGesture(t[i]))
  {
  }

  lemma PreambleIs(boot: Boot, at: nat, c: Calibration, loadedAt: nat)
    ensures var t := Preamble(boot, at, c, loadedAt);
            var crash: nat, woken: nat := if boot.afterCrash then 1 else 0, if boot.wake == WakeCause.Button then 1 else 0;
            && |t| == crash + woken + 1 && t[crash + woken].CalibrationLoaded? && t[crash + woken].calibration == c
            && forall i {:trigger t[i]} :: 0 <= i < |t| ==>
                 && t[i].at == at && (OfCrash(t[i]) <==> i < crash) && (OfWaking(t[i]) <==> crash <= i < crash + woken)
                 && (t[i].CalibrationLoaded? <==> i == crash + woken)
  {
  }

  lemma {:induction false} PumpIsOpened(a: AppState, at: nat, ds: seq<Delivery>)
    ensures Opened(Pump(a, at, ds).trace)
  {
    if ds != [] {
      PumpIsOpened(a, at, ds[..|ds| - 1]);
    }
  }

  lemma DueIsOpened(a: AppState, at: nat, d: DueAnswers)
    ensures Opened(DueTrace(a, at, d))
  {
    hide MoistureOf, EstimateBattery, Flow.WideEnough, Flow.Captured;
  }

  lemma {:induction false} RunIsOpened(l: Limits, a: AppState, at: nat, laps: seq<Lap>)
    requires IsRun(l, a, at, laps)
    ensures Opened(Outcomes(a, at, laps).trace)
  {
    if laps == [] {
      NoLaps(l, a, at);
    } else {
      LastLap(l, a, at, laps);
      var most, lap := laps[..|laps| - 1], laps[|laps| - 1];
      hide Round, RoundLegal, IsRun, Outcomes, DueTrace;
      RunIsOpened(l, a, at, most);
      var rest := RestAsks(lap.app, lap.at, lap.answers);
      DueIsOpened(lap.app, lap.at, lap.answers.due);
    }
  }

  // Whole boots.

  /** Every boot of the program, on any world, opens so; completes every reading it takes; and
      takes exactly one before the stack is up, unless it was cut short before that. */
  lemma BootIsAccounted(l: Limits, startup: nat, r: Device.Record) returns (n: nat)
    requires Device.IsBoot(l, startup, r)
    ensures Opens(r.boot, r.boot.now, r.stored, r.All())
    ensures Complete(r.waking, if r.course.Cut? then 0 else 1) && Complete(r.All(), n) && (r.course.Whole? ==> n >= 1)
  {
    hide Complete, Opens, Opened, Pump, PumpLegal, Outcomes, IsRun, DueTrace, DueDone, DueAt, Preamble, NewApp;
    var at, c := r.boot.now, r.stored;
    match r.course
    case Cut(loadedAt, ds) =>
      SaidIsComplete(l, r.boot, at, c, loadedAt, ds);
      PumpIsOpened(NewApp(r.boot, c), loadedAt, ds);
      OpensOnce(r.boot, at, c, loadedAt, Pump(NewApp(r.boot, c), loadedAt, ds).trace);
      assert r.All() == r.waking;
      n := 0;
    case Whole(loadedAt, ds, app, decidedAt, due, start, laps) =>
      var press, work, run := Pump(NewApp(r.boot, c), loadedAt, ds).trace, DueTrace(app, decidedAt, due), Outcomes(DueDone(app, decidedAt, due), start, laps).trace;
      WakeIsComplete(l, r.boot, at, c, loadedAt, ds, app, decidedAt, due);
      var more := RunIsComplete(l, DueDone(app, decidedAt, due), start, laps);
      CompleteConcat(r.waking, 1, r.calls, more);
      PumpIsOpened(NewApp(r.boot, c), loadedAt, ds);
      DueIsOpened(app, decidedAt, due);
      RunIsOpened(l, DueDone(app, decidedAt, due), start, laps);
      AllOpened(press, work, run);
      OpensOnce(r.boot, at, c, loadedAt, press + work + run);
      assert r.All() == Preamble(r.boot, at, c, loadedAt) + (press + work + run);
      n := 1 + more;
  }

  lemma AllOpened(s: seq<Entry>, t: seq<Entry>, u: seq<Entry>)
    requires Opened(s) && Opened(t) && Opened(u)
    ensures Opened(s + t + u)
  {
  }

  /** So over a whole chain of boots: every reading is complete, and there is one at least for
      each boot, but for a last one that was cut short. */
  lemma {:induction false} ChainIsComplete(wakes: seq<Device.Wake>, c: Calibration, history: seq<Device.Record>, l: Limits, startup: nat) returns (n: nat)
    requires Device.Chain(wakes, c, history, l, startup)
    ensures Complete(Device.AllCalls(history), n)
    ensures history != [] ==> |history| <= n + if history[|history| - 1].course.Cut? then 1 else 0
  {
    if history == [] {
      PlainIsComplete([]);
      n := 0;
    } else {
      hide Complete, Opens, Device.Booted;
      var most, r := history[..|history| - 1], history[|history| - 1];
      var before := ChainIsComplete(wakes, c, most, l, startup);
      var more := BootIsAccounted(l, startup, r);
      CompleteConcat(Device.AllCalls(most), before, r.All(), more);
      n := before + more;
    }
  }
}
