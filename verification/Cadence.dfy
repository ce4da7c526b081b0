/**
 What is due is done before a boot waits, and not before it is due: the readings every half
 minute and the ones that were asked for, and the reboot count of a healthy boot after a
 minute. An observer of the calls alone keeps the two dates.
 */
module Cadence {
  import opened Machine
  import opened Vocabulary
  import opened BootModel
  import Measurement
  import Button
  import Tuning
  import OperationalPhase
  import BootTheorems
  import WakePhase
  import Flow = CalibrationFlow

  /** When the next reading is due, whether the reboot count is written, and whether the call
      before was the hold of a calibration. */
  datatype Dates = Dates(reading: nat, written: bool, holding: bool)

  /** A reading puts the next one off by half a minute; asking for one makes it due at once. */
  function Noted(d: Dates, e: Entry): Dates
  {
    Dates(match e
          case BatteryRead(_, _, until) => SatAdd(until, 30_000)
          case ActiveRequested(at, None) => at
          case _ => d.reading,
          d.written || e.RebootCountPersisted?,
          e.Delayed?)
  }

  function AllNoted(d: Dates, t: seq<Entry>): Dates
  {
    if t == [] then d else Noted(AllNoted(d, t[..|t| - 1]), t[|t| - 1])
  }

  /** A call in its time. A reading, unless it is for a calibration, is due. A wait is not made
      while one is due, and is over when the next one is; it is not made past `healthy` with
      the reboot count unwritten, and no such wait is for an instant past it. */
  predicate InTime(healthy: nat, d: Dates, e: Entry)
  {
    match e
    case SoilRead(at, _, _) => d.holding || d.reading <= at
    case Waited(at, deadline, _, _) =>
      && at < d.reading && deadline <= d.reading
      && (!d.written ==> at < healthy && deadline <= healthy)
    case _ => true
  }

  ghost predicate AllInTime(healthy: nat, d: Dates, t: seq<Entry>)
  {
    t != [] ==> AllInTime(healthy, d, t[..|t| - 1]) && InTime(healthy, AllNoted(d, t[..|t| - 1]), t[|t| - 1])
  }

  lemma {:induction false} BothInTime(healthy: nat, d: Dates, s: seq<Entry>, t: seq<Entry>)
    ensures AllNoted(d, s + t) == AllNoted(AllNoted(d, s), t)
    ensures AllInTime(healthy, d, s) && AllInTime(healthy, AllNoted(d, s), t) ==> AllInTime(healthy, d, s + t)
  {
    if t == [] {
      assert s + t == s;
    } else {
      var most := t[..|t| - 1];
      assert (s + t)[..|s + t| - 1] == s + most && (s + t)[|s + t| - 1] == t[|t| - 1];
      hide InTime, Noted;
      BothInTime(healthy, d, s, most);
    }
  }

  lemma OneInTime(healthy: nat, d: Dates, e: Entry)
    ensures AllNoted(d, [e]) == Noted(d, e) && (AllInTime(healthy, d, [e]) <==> InTime(healthy, d, e))
  {
    assert [e][..0] == [];
  }

  /** Calls that change no date and wait for nothing. */
  predicate Undated(e: Entry)
  {
    !e.SoilRead? && !e.BatteryRead? && !e.Delayed? && !e.ActiveRequested? && !e.RebootCountPersisted? && !e.Waited?
  }

  lemma {:induction false} UndatedInTime(healthy: nat, d: Dates, t: seq<Entry>)
    requires !d.holding && forall i {:trigger t[i]} :: 0 <= i < |t| ==> Undated(t[i])
    ensures AllInTime(healthy, d, t) && AllNoted(d, t) == d
  {
    if t != [] {
      UndatedInTime(healthy, d, t[..|t| - 1]);
    }
  }

  lemma CaptureInTime(healthy: nat, d: Dates, at: nat, color: Color, held: nat, r: Flow.Reading)
    requires !d.holding
    ensures AllInTime(healthy, d, Flow.CaptureTrace(at, color, held, r)) && AllNoted(d, Flow.CaptureTrace(at, color, held, r)) == d
  {
    var t := Flow.CaptureTrace(at, color, held, r);
    assert t == [t[0]] + ([t[1]] + [t[2]]);
    OneInTime(healthy, d, t[0]);
    OneInTime(healthy, d, t[1]);
    OneInTime(healthy, d.(holding := true), t[2]);
    BothInTime(healthy, d, [t[1]], [t[2]]);
    BothInTime(healthy, d, [t[0]], [t[1]] + [t[2]]);
  }

  lemma FlowInTime(healthy: nat, d: Dates, at: nat, f: Flow.Answers)
    requires !d.holding
    ensures AllInTime(healthy, d, Flow.TraceOf(at, f)) && AllNoted(d, Flow.TraceOf(at, f)) == d
  {
    var dry, wet := Flow.CaptureTrace(at, Red, f.red, f.dry), Flow.CaptureTrace(f.dry.until, Green, f.green, f.wet);
    var end := Flow.TraceOf(at, f)[|dry + wet|..];
    assert Flow.TraceOf(at, f) == (dry + wet) + end;
    assert forall i {:trigger end[i]} :: 0 <= i < |end| ==> Undated(end[i]);
    hide Flow.CaptureTrace, Flow.TraceOf, AllInTime, AllNoted;
    CaptureInTime(healthy, d, at, Red, f.red, f.dry);
    CaptureInTime(healthy, d, f.dry.until, Green, f.green, f.wet);
    BothInTime(healthy, d, dry, wet);
    UndatedInTime(healthy, d, end);
    BothInTime(healthy, d, dry + wet, end);
  }

  lemma SampleInTime(healthy: nat, d: Dates, c: Calibration, withLed: bool, at: nat, soil: Flow.Reading, battery: Flow.Reading)
    requires !d.holding && d.reading <= at
    ensures var t := SampleTrace(c, withLed, at, soil, battery);
            AllInTime(healthy, d, t) && AllNoted(d, t) == d.(reading := SatAdd(battery.until, 30_000))
  {
    var t := SampleTrace(c, withLed, at, soil, battery);
    var said, last := t[1..|t| - 2], BatteryReported(battery.until, Measurement.EstimateBattery(battery.mv));
    hide MoistureOf, Measurement.EstimateBattery, AllInTime, AllNoted;
    assert t == [t[0]] + (said + ([t[|t| - 2]] + [last]));
    assert forall i {:trigger said[i]} :: 0 <= i < |said| ==> Undated(said[i]);
    hide SampleTrace;
    var read := t[|t| - 2];
    assert read == BatteryRead(soil.until, battery.mv, battery.until);
    OneInTime(healthy, d, t[0]);
    UndatedInTime(healthy, d, said);
    OneInTime(healthy, d, read);
    OneInTime(healthy, Noted(d, read), last);
    BothInTime(healthy, d, [read], [last]);
    BothInTime(healthy, d, said, [read] + [last]);
    BothInTime(healthy, d, [t[0]], said + ([read] + [last]));
  }

  /** The dates an application goes by. */
  function DatesOf(a: AppState): Dates { Dates(a.nextSample, a.rebootCountPersisted, false) }

  lemma DueInTime(a: AppState, at: nat, d: DueAnswers)
    ensures AllInTime(a.rebootCountDue, DatesOf(a), DueTrace(a, at, d))
    ensures AllNoted(DatesOf(a), DueTrace(a, at, d)) == DatesOf(DueDone(a, at, d))
  {
    var flow, c, asked := FlowTrace(a, at, d.flow), AfterFlow(a, d.flow).calibration, AfterFlowAt(a, at, d.flow);
    var sample := SampleTrace(c, a.sampleWithLed, asked, d.soil, d.battery);
    FlowInTime(a.rebootCountDue, DatesOf(a), at, d.flow);
    assert flow != Flow.TraceOf(at, d.flow) ==> flow == [];
    hide Flow.TraceOf, Flow.OutcomeOf, Flow.EndOf, SampleTrace, AllInTime;
    UndatedInTime(a.rebootCountDue, DatesOf(a), []);
    hide AllNoted;
    if SampleIsDue(a, at, d.flow) {
      SampleInTime(a.rebootCountDue, DatesOf(a), c, a.sampleWithLed, asked, d.soil, d.battery);
      BothInTime(a.rebootCountDue, DatesOf(a), flow, sample);
    } else {
      assert DueTrace(a, at, d) == flow;
    }
  }

  lemma {:induction false} TakenInTime(healthy: nat, d: Dates, edges: seq<Edge>, now: nat)
    requires !d.holding
    ensures AllInTime(healthy, d, Taken(edges, now)) && AllNoted(d, Taken(edges, now)) == d
  {
    if edges != [] {
      var most, last := Taken(edges[..|edges| - 1], now), EdgePolled(now, Some(edges[|edges| - 1]));
      TakenInTime(healthy, d, edges[..|edges| - 1], now);
      OneInTime(healthy, d, last);
      assert Taken(edges, now) == most + [last];
      BothInTime(healthy, d, most, [last]);
    }
  }

  /** A decision leaves the reboot count written if it is due, and the dates as it says. */
  lemma DecisionInTime(a: AppState, now: nat, icd: IcdState, edges: seq<Edge>)
    ensures var turn := Decide(a, now, icd, edges);
            && AllInTime(a.rebootCountDue, DatesOf(a), turn.calls) && AllNoted(DatesOf(a), turn.calls) == DatesOf(turn.app)
            && turn.app.rebootCountDue == a.rebootCountDue && turn.app.nextSample == a.nextSample
            && (turn.outcome.None? ==> turn.app.rebootCountPersisted || now < a.rebootCountDue)
  {
    var d, healthy, t, taken := DatesOf(a), a.rebootCountDue, Decide(a, now, icd, edges).calls, Taken(edges, now);
    hide Drained, Taken, SleepFor, AllInTime, AllNoted, Button.Fsm.IsActive;
    if t == [RebootCountPersisted(now)] {
      OneInTime(healthy, d, RebootCountPersisted(now));
    } else if t == [IcdRead(now, icd)] {
      OneInTime(healthy, d, IcdRead(now, icd));
    } else {
      var read, empty, written := [IcdRead(now, icd)], [EdgePolled(now, None)], [RebootCountPersisted(now)];
      OneInTime(healthy, d, read[0]);
      OneInTime(healthy, d, empty[0]);
      OneInTime(healthy, d, written[0]);
      TakenInTime(healthy, d, edges, now);
      BothInTime(healthy, d, read, taken);
      BothInTime(healthy, d, read + taken, empty);
      BothInTime(healthy, d, read + taken + empty, written);
      assert t == read + taken + empty || t == read + taken + empty + written;
    }
  }

  /** So does an event: a wait that was due to be made, and what it asked for. */
  lemma EventInTime(a: AppState, now: nat, event: Event, until: nat)
    requires now < a.nextSample && (a.rebootCountPersisted || now < a.rebootCountDue)
    ensures var turn := OnEvent(a, event, until);
            var t := [Waited(now, NextDeadline(a, now), event, until)] + turn.calls;
            && AllInTime(a.rebootCountDue, DatesOf(a), t) && AllNoted(DatesOf(a), t) == DatesOf(turn.app)
            && turn.app.rebootCountDue == a.rebootCountDue
  {
    var wait, turn := Waited(now, NextDeadline(a, now), event, until), OnEvent(a, event, until);
    assert InTime(a.rebootCountDue, DatesOf(a), wait) && Noted(DatesOf(a), wait) == DatesOf(a);
    OneInTime(a.rebootCountDue, DatesOf(a), wait);
    assert turn.calls == [] || turn.calls == [turn.calls[0]];
    if turn.calls != [] {
      OneInTime(a.rebootCountDue, DatesOf(a), turn.calls[0]);
    }
    UndatedInTime(a.rebootCountDue, DatesOf(a), []);
    hide AllInTime, NextDeadline;
    BothInTime(a.rebootCountDue, DatesOf(a), [wait], turn.calls);
    hide AllNoted, InTime;
  }

  lemma RoundInTime(l: Limits, a: AppState, at: nat, x: Answers)
    requires RoundLegal(l, a, at, x) && a.nextSample <= at + Tuning.SAMPLE_PERIOD
    ensures var run := Round(a, at, x);
            && AllInTime(a.rebootCountDue, DatesOf(a), run.trace) && AllNoted(DatesOf(a), run.trace) == DatesOf(run.config.app)
            && run.config.app.rebootCountDue == a.rebootCountDue
  {
    var b, now, due, turn := DueDone(a, at, x.due), DueAt(a, at, x.due), DueTrace(a, at, x.due), Decision(a, at, x);
    OperationalPhase.DueTakes(l, a, at, x.due);
    assert turn == Decide(b, now, x.icd, x.edges) && b.rebootCountDue == a.rebootCountDue && now < b.nextSample;
    hide *;
    RoundParts(a, at, x);
    DueInTime(a, at, x.due);
    DecisionInTime(b, now, x.icd, x.edges);
    BothInTime(a.rebootCountDue, DatesOf(a), due, turn.calls);
    if turn.outcome.None? {
      EventInTime(turn.app, now, x.event, x.until);
      BothInTime(a.rebootCountDue, DatesOf(a), due + turn.calls,
                 [Waited(now, NextDeadline(turn.app, now), x.event, x.until)] + OnEvent(turn.app, x.event, x.until).calls);
    }
  }

  /** In every run of the operational phase: every reading is taken when it is due, half a
      minute after the one before or when a press asks for it, and none before; no wait is made
      while one is due, nor goes past it; and from `rebootCountDue` on the reboot count is
      written before the next wait. */
  lemma {:induction false} RunIsInTime(l: Limits, a: AppState, at: nat, laps: seq<Lap>)
    requires BootTheorems.Starts(a, at) && IsRun(l, a, at, laps)
    ensures var run := Outcomes(a, at, laps);
            && AllInTime(a.rebootCountDue, DatesOf(a), run.trace) && AllNoted(DatesOf(a), run.trace) == DatesOf(run.config.app)
            && run.config.app.rebootCountDue == a.rebootCountDue
  {
    if laps == [] {
      NoLaps(l, a, at);
    } else {
      LastLap(l, a, at, laps);
      var most, lap := laps[..|laps| - 1], laps[|laps| - 1];
      hide Round, RoundLegal, IsRun, Outcomes, AllInTime, AllNoted, BootTheorems.Starts;
      RunIsInTime(l, a, at, most);
      BootTheorems.RunIsFollowed(l, a, at, at, most);
      RoundInTime(l, lap.app, lap.at, lap.answers);
      BothInTime(a.rebootCountDue, DatesOf(a), Outcomes(a, at, most).trace, lap.end.trace);
    }
  }

  /** So it is after every wake phase: the first reading of the operational phase is due half a
      minute after the one of the wake phase, and a cold boot counts as healthy a minute after
      it began. */
  lemma BootIsInTime(l: Limits, boot: Boot, at: nat, c: Calibration, loadedAt: nat, ds: seq<Delivery>, a: AppState, now: nat, due: DueAnswers,
                     start: nat, laps: seq<Lap>)
    requires WakePhase.Decided(l, boot, at, c, loadedAt, ds, a, now, due) && DueAt(a, now, due) <= start
    requires IsRun(l, DueDone(a, now, due), start, laps)
    ensures AllInTime(SatAdd(boot.now, 60_000), Dates(DueAt(a, now, due) + 30_000, boot.wake != WakeCause.Cold, false),
                      Outcomes(DueDone(a, now, due), start, laps).trace)
  {
    hide WakePhase.Decided, IsRun, Outcomes, AllInTime, DueDone, DueAt;
    WakePhase.HandsOver(l, boot, at, c, loadedAt, ds, a, now, due);
    RunIsInTime(l, DueDone(a, now, due), start, laps);
  }
}
