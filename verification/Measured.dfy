/**
 Where the reported numbers come from: every percentage that leaves the device is a
 reading of that moment, put on the line between the two references then in storage.
 */
module Measured {
  import opened Machine
  import opened Vocabulary
  import opened Tuning
  import opened BootModel
  import opened Measurement
  import opened Watching
  import OperationalPhase
  import BootTheorems
  import WakePhase
  import Flow = CalibrationFlow

  /** Entry `i`, if it reports a percentage, reports the reading just made against
      the calibration that was in storage then; if it shows one, shows the one just
      reported; if it reports the battery, reports the estimate of the voltage just
      read; and if it stores a calibration, stores the last two readings, wide enough
      apart. */
  predicate TrueAt(c: Calibration, t: seq<Entry>, i: nat)
    requires i < |t|
  {
    && (t[i].SoilReported? ==>
          i >= 1 && t[i - 1].SoilRead? && t[i].percent == MoistureOf(StoredAfter(c, t[..i]), t[i - 1].mv))
    && (t[i].LedSent? && t[i].command.ClassifyMoisture? ==>
          i >= 1 && t[i - 1].SoilReported? && t[i].command.percent == t[i - 1].percent)
    && (t[i].BatteryReported? ==>
          i >= 1 && t[i - 1].BatteryRead? && t[i].reading == EstimateBattery(t[i - 1].mv))
    && (t[i].CalibrationStored? ==>
          && i >= 4 && t[i - 4].SoilRead? && t[i - 1].SoilRead?
          && t[i].calibration == Calibration(AsI32(t[i - 4].mv), AsI32(t[i - 1].mv))
          && WrapI32(t[i].calibration.dryMv - t[i].calibration.wetMv) >= SOIL_CAL_MIN_SPAN_MV)
  }

  ghost predicate AllTrue(c: Calibration, t: seq<Entry>)
  {
    forall i: nat {:trigger TrueAt(c, t, i)} :: i < |t| ==> TrueAt(c, t, i)
  }

  lemma TrueConcat(c: Calibration, s: seq<Entry>, t: seq<Entry>)
    requires AllTrue(c, s) && AllTrue(StoredAfter(c, s), t)
    ensures AllTrue(c, s + t)
  {
    forall i: nat | i < |s + t| ensures TrueAt(c, s + t, i) {
      if i < |s| {
        assert TrueAt(c, s, i);
        assert (s + t)[..i] == s[..i];
      } else {
        assert TrueAt(StoredAfter(c, s), t, i - |s|);
        StoredConcat(c, s, t[..i - |s|]);
        assert (s + t)[..i] == s + t[..i - |s|];
      }
    }
  }

  /** Calls that neither report a percentage nor store a calibration. */
  lemma TriviallyTrue(c: Calibration, t: seq<Entry>)
    requires Plain(t)
    ensures AllTrue(c, t)
  {
  }

  lemma FlowIsTrue(c: Calibration, at: nat, f: Flow.Answers)
    ensures AllTrue(c, Flow.TraceOf(at, f))
  {
    var t := Flow.TraceOf(at, f);
    forall i: nat | i < |t| ensures TrueAt(c, t, i) {
    }
  }

  lemma SampleIsTrue(c: Calibration, withLed: bool, at: nat, soil: Flow.Reading, battery: Flow.Reading)
    ensures AllTrue(c, SampleTrace(c, withLed, at, soil, battery))
  {
    var t := SampleTrace(c, withLed, at, soil, battery);
    StoresNothing(c, t[..1]);
    hide StoredAfter, MoistureOf, EstimateBattery;
    assert t[1] == SoilReported(soil.until, MoistureOf(c, soil.mv)) && t[0] == SoilRead(at, soil.mv, soil.until);
    assert t[|t| - 2] == BatteryRead(soil.until, battery.mv, battery.until);
  }

  /** A flow leaves in storage what it leaves in effect. */
  lemma FlowStores(a: AppState, at: nat, f: Flow.Answers)
    ensures StoredAfter(a.calibration, FlowTrace(a, at, f)) == AfterFlow(a, f).calibration
  {
    if a.calibrationRequested {
      var m := BootTheorems.Observer(a, at);
      OperationalPhase.FlowWatched(m, at, f);
      StoredMeans(m, Flow.TraceOf(at, f));
    }
  }

  lemma DueIsTrue(a: AppState, at: nat, d: DueAnswers)
    ensures AllTrue(a.calibration, DueTrace(a, at, d))
    ensures StoredAfter(a.calibration, DueTrace(a, at, d)) == DueDone(a, at, d).calibration
  {
    var c, flow := a.calibration, FlowTrace(a, at, d.flow);
    FlowIsTrue(c, at, d.flow);
    FlowStores(a, at, d.flow);
    var after := AfterFlow(a, d.flow).calibration;
    var sample := SampleTrace(after, a.sampleWithLed, AfterFlowAt(a, at, d.flow), d.soil, d.battery);
    SampleIsTrue(after, a.sampleWithLed, AfterFlowAt(a, at, d.flow), d.soil, d.battery);
    StoresNothing(after, sample);
    if a.calibrationRequested { assert flow == Flow.TraceOf(at, d.flow); } else { TriviallyTrue(c, flow); }
    if SampleIsDue(a, at, d.flow) {
      TrueConcat(c, flow, sample);
      StoredConcat(c, flow, sample);
      assert DueTrace(a, at, d) == flow + sample;
    } else {
      assert DueTrace(a, at, d) == flow;
    }
  }

  lemma {:induction false} StoresNothing(c: Calibration, t: seq<Entry>)
    requires forall i {:trigger t[i]} :: 0 <= i < |t| ==> !t[i].CalibrationStored?
    ensures StoredAfter(c, t) == c
  {
    if t != [] {
      StoresNothing(c, t[..|t| - 1]);
    }
  }

  ghost predicate Plain(t: seq<Entry>)
  {
    forall i {:trigger t[i]} :: 0 <= i < |t| ==>
      !t[i].SoilReported? && !t[i].CalibrationStored? && !t[i].BatteryReported? && !(t[i].LedSent? && t[i].command.ClassifyMoisture?)
  }

  lemma {:induction false} TakenIsPlain(edges: seq<Edge>, now: nat)
    ensures Plain(Taken(edges, now))
  {
    if edges != [] {
      TakenIsPlain(edges[..|edges| - 1], now);
    }
  }

  lemma DecisionIsPlain(a: AppState, now: nat, icd: IcdState, edges: seq<Edge>)
    ensures Plain(Decide(a, now, icd, edges).calls)
  {
    TakenIsPlain(edges, now);
    hide Taken, Drained, SleepFor;
  }

  lemma EventIsPlain(a: AppState, event: Event, now: nat)
    ensures Plain(OnEvent(a, event, now).calls)
  {
  }

  lemma RoundIsTrue(a: AppState, at: nat, x: Answers)
    ensures AllTrue(a.calibration, Round(a, at, x).trace)
  {
    var due, decision := DueTrace(a, at, x.due), Decision(a, at, x);
    DueIsTrue(a, at, x.due);
    DecisionIsPlain(DueDone(a, at, x.due), DueAt(a, at, x.due), x.icd, x.edges);
    EventIsPlain(decision.app, x.event, x.until);
    hide Decide, DueDone, DueAt, DueTrace, OnEvent, NextDeadline, AllTrue;
    var rest := decision.calls;
    if decision.outcome.None? {
      rest := decision.calls + [Waited(DueAt(a, at, x.due), WaitDeadline(a, at, x), x.event, x.until)] + OnEvent(decision.app, x.event, x.until).calls;
    }
    TriviallyTrue(StoredAfter(a.calibration, due), rest);
    TrueConcat(a.calibration, due, rest);
    assert Round(a, at, x).trace == due + rest;
  }

  /** Every percentage a run of the operational phase reports is the reading just made
      against the calibration in storage at that moment. */
  lemma {:induction false} RunIsTrue(l: Limits, a: AppState, at: nat, laps: seq<Lap>)
    requires BootTheorems.Starts(a, at) && IsRun(l, a, at, laps)
    ensures AllTrue(a.calibration, Outcomes(a, at, laps).trace)
  {
    if laps == [] {
      NoLaps(l, a, at);
      TriviallyTrue(a.calibration, []);
    } else {
      LastLap(l, a, at, laps);
      hide Round, RoundLegal, AllTrue, IsRun, Outcomes;
      var most, lap := laps[..|laps| - 1], laps[|laps| - 1];
      RunIsTrue(l, a, at, most);
      BootTheorems.CalibrationIsTheStoredOne(l, a, at, most);
      RoundIsTrue(lap.app, lap.at, lap.answers);
      TrueConcat(a.calibration, Outcomes(a, at, most).trace, lap.end.trace);
    }
  }

  /** So is the one a wake phase reports. */
  lemma WakeIsTrue(l: Limits, boot: Boot, at: nat, calibration: Calibration, loadedAt: nat, ds: seq<Delivery>,
                   a: AppState, now: nat, due: DueAnswers)
    requires WakePhase.Decided(l, boot, at, calibration, loadedAt, ds, a, now, due)
    ensures var t := WakePhase.WakeTrace(boot, at, calibration, loadedAt, ds) + DueTrace(a, now, due);
            AllTrue(calibration, t) && StoredAfter(calibration, t) == DueDone(a, now, due).calibration
  {
    var said := WakePhase.WakeTrace(boot, at, calibration, loadedAt, ds);
    WakePhase.DecidedApp(l, boot, at, calibration, loadedAt, ds, a, now, due);
    WakePhase.WakeOnlyAsks(l, boot, at, calibration, loadedAt, ds);
    StoresNothing(calibration, said);
    TriviallyTrue(calibration, said);
    DueIsTrue(a, now, due);
    TrueConcat(calibration, said, DueTrace(a, now, due));
    StoredConcat(calibration, said, DueTrace(a, now, due));
  }

  // Sixteen-bit readings.

  ghost predicate AllReadings16Bit(t: seq<Entry>)
  {
    forall i {:trigger t[i]} :: 0 <= i < |t| && t[i].SoilRead? ==> Is16Bit(t[i].mv)
  }

  /** From a usable calibration, with 16-bit readings, what is in storage stays
      usable: the references at least 200 mV apart, and 16 bits each. */
  lemma {:induction false} StorageStaysUsable(c: Calibration, t: seq<Entry>, n: nat)
    requires AllTrue(c, t) && AllReadings16Bit(t) && Usable(c) && n <= |t|
    ensures Usable(StoredAfter(c, t[..n]))
  {
    if n > 0 {
      StorageStaysUsable(c, t, n - 1);
      assert t[..n][..n - 1] == t[..n - 1];
      assert TrueAt(c, t, n - 1);
      if t[n - 1].CalibrationStored? {
        var stored := t[n - 1].calibration;
        WrapIsExact(t[n - 5].mv);
        WrapIsExact(t[n - 2].mv);
        WrapIsExact(stored.dryMv - stored.wetMv);
      }
    } else {
      assert t[..0] == [];
    }
  }

  /** So every percentage ever reported is on the line between the two references in
      storage, rounded down, with no overflow and no reversed span. */
  lemma ReportsAreOnTheLine(c: Calibration, t: seq<Entry>, i: nat)
    requires AllTrue(c, t) && AllReadings16Bit(t) && Usable(c)
    requires i < |t| && t[i].SoilReported?
    ensures i >= 1 && t[i - 1].SoilRead?
    ensures var stored, mv, p := StoredAfter(c, t[..i]), t[i - 1].mv, t[i].percent;
            && Usable(stored) && p <= 100
            && (mv >= stored.dryMv ==> p == 0) && (mv <= stored.wetMv ==> p == 100)
            && (stored.wetMv <= mv <= stored.dryMv ==>
                  p * (stored.dryMv - stored.wetMv) <= 100 * (stored.dryMv - mv) < (p + 1) * (stored.dryMv - stored.wetMv))
  {
    assert TrueAt(c, t, i);
    StorageStaysUsable(c, t, i);
    WrapIsExact(t[i - 1].mv);
    MoistureIsExact(t[i - 1].mv, StoredAfter(c, t[..i]));
  }
}
