/**
 The deadband between the readings and the radio (`node/src/soil_measurement.rs`,
 `node/src/power_source.rs`): a reading is held and reported only when it moved
 far enough from the last one that was.

 The data version of a cluster is a 32-bit counter that moves at every report.
 */
module Reporting {
  import opened Machine
  import opened Vocabulary
  import opened Measurement
  import opened Tuning

  // A deadband over plain values.

  /** The value held after each of `xs` was offered to a deadband of `delta`. */
  function Held(delta: nat, xs: seq<nat>): Option<nat>
  {
    if xs == [] then None
    else
      var before, x := Held(delta, xs[..|xs| - 1]), xs[|xs| - 1];
      if ShouldReport(before, x, delta) then Some(x) else before
  }

  /** How many of `xs` were reported. */
  function Reports(delta: nat, xs: seq<nat>): nat
  {
    if xs == [] then 0
    else
      var before, x := Held(delta, xs[..|xs| - 1]), xs[|xs| - 1];
      Reports(delta, xs[..|xs| - 1]) + if ShouldReport(before, x, delta) then 1 else 0
  }

  /** How far the values travelled in all. */
  function Variation(xs: seq<nat>): nat
  {
    if |xs| < 2 then 0
    else Variation(xs[..|xs| - 1]) + AbsDiff(xs[|xs| - 2], xs[|xs| - 1])
  }

  /** Reports are paid for by movement: each one after the first costs at least
      `delta` of travel, and what has not been reported yet is paid for too. The
      held value is never `delta` or more from the latest. */
  lemma {:induction false} ReportsArePaidFor(delta: nat, xs: seq<nat>)
    requires delta > 0 && xs != []
    ensures Held(delta, xs).Some? && AbsDiff(Held(delta, xs).value, xs[|xs| - 1]) < delta
    ensures Reports(delta, xs) >= 1
    ensures delta * (Reports(delta, xs) - 1) + AbsDiff(Held(delta, xs).value, xs[|xs| - 1]) <= Variation(xs)
  {
    var before, x := xs[..|xs| - 1], xs[|xs| - 1];
    if before == [] {
      assert Reports(delta, before) == 0 && Reports(delta, xs) == 1;
    } else {
      ReportsArePaidFor(delta, before);
      var last, held := before[|before| - 1], Held(delta, before).value;
      assert last == xs[|xs| - 2];
      assert AbsDiff(held, x) <= AbsDiff(held, last) + AbsDiff(last, x);
      if ShouldReport(Some(held), x, delta) {
        OneMore(delta, Reports(delta, before));
      }
    }
  }

  // Soil moisture.

  class SoilMeasurementHandler {
    var value: Option<nat>
    var dataver: U32
    var signalled: bool

    constructor (dataver: U32)
      ensures value == None && this.dataver == dataver && !signalled
    {
      value, this.dataver, signalled := None, dataver, false;
    }

    /** The handler follows the deadband: it holds what the deadband holds, and
        its data version and its signal move with the reports. */
    method Report(percent: U8, ghost before: seq<nat>)
      requires value == Held(SOIL_REPORT_DELTA_PERCENT, before)
      modifies this
      ensures value == Held(SOIL_REPORT_DELTA_PERCENT, before + [percent])
      ensures dataver == (old(dataver) + Reports(SOIL_REPORT_DELTA_PERCENT, before + [percent])
                          - Reports(SOIL_REPORT_DELTA_PERCENT, before)) % 0x1_0000_0000
      ensures signalled <==> old(signalled) || dataver != old(dataver)
    {
      assert (before + [percent])[..|before|] == before;
      var shouldReport := ShouldReport(value, percent, SOIL_REPORT_DELTA_PERCENT);
      if shouldReport {
        value := Some(percent);
        dataver := (dataver + 1) % 0x1_0000_0000;
        signalled := true;
      }
    }
  }

  /** Over any samples the held moisture is within one percent of the latest, and
      two percent of travel pays for every report but the first. */
  lemma MoistureReportsArePaidFor(xs: seq<nat>)
    requires xs != []
    ensures var d := SOIL_REPORT_DELTA_PERCENT;
            && Held(d, xs).Some? && AbsDiff(Held(d, xs).value, xs[|xs| - 1]) <= 1
            && 2 * (Reports(d, xs) - 1) <= Variation(xs)
  {
    ReportsArePaidFor(SOIL_REPORT_DELTA_PERCENT, xs);
  }

  // The battery.

  predicate BatteryMoved(held: Option<BatteryReading>, reading: Option<BatteryReading>)
  {
    match reading
    case Some(r) => ShouldReport(if held.Some? then Some(held.value.restMv) else None, r.restMv, BATTERY_REPORT_DELTA_MV)
    case None => held.Some?
  }

  /** The reading held after each of `rs` was offered. */
  function HeldBattery(rs: seq<Option<BatteryReading>>): Option<BatteryReading>
  {
    if rs == [] then None
    else
      var before, r := HeldBattery(rs[..|rs| - 1]), rs[|rs| - 1];
      if BatteryMoved(before, r) then r else before
  }

  function BatteryReports(rs: seq<Option<BatteryReading>>): nat
  {
    if rs == [] then 0
    else
      var before, r := HeldBattery(rs[..|rs| - 1]), rs[|rs| - 1];
      BatteryReports(rs[..|rs| - 1]) + if BatteryMoved(before, r) then 1 else 0
  }

  class BatteryCell {
    var percent: Option<nat>
    var restMv: Option<U32>

    constructor ()
      ensures View() == None && Valid()
    {
      percent, restMv := None, None;
    }

    ghost predicate Valid() reads this { percent.Some? <==> restMv.Some? }

    ghost function View(): Option<BatteryReading>
      reads this
    {
      if percent.Some? && restMv.Some? then Some(BatteryReading(percent.value, restMv.value)) else None
    }

    method Set(reading: Option<BatteryReading>)
      modifies this
      ensures View() == reading && Valid()
    {
      percent := if reading.Some? then Some(reading.value.percent) else None;
      restMv := if reading.Some? then Some(reading.value.restMv) else None;
    }
  }

  datatype ChargeLevel = OK | Warning | Critical

  const WARNING_BELOW_PERCENT: nat := 20
  const CRITICAL_BELOW_PERCENT: nat := 5

  function ChargeLevelOf(percent: Option<nat>): ChargeLevel
  {
    match percent
    case Some(p) => if p < CRITICAL_BELOW_PERCENT then Critical else if p < WARNING_BELOW_PERCENT then Warning else OK
    case None => OK
  }

  function ReplacementNeeded(percent: Option<nat>): bool
  {
    match percent
    case Some(p) => p < CRITICAL_BELOW_PERCENT
    case None => false
  }

  class PowerSourceHandler {
    const cell: BatteryCell
    var dataver: U32
    var signalled: bool

    constructor (dataver: U32, cell: BatteryCell)
      ensures this.dataver == dataver && this.cell == cell && !signalled
    {
      this.dataver, this.cell, signalled := dataver, cell, false;
    }

    method Report(reading: Option<BatteryReading>, ghost before: seq<Option<BatteryReading>>)
      requires cell.Valid() && cell.View() == HeldBattery(before)
      modifies this, cell
      ensures cell.Valid() && cell.View() == HeldBattery(before + [reading])
      ensures dataver == (old(dataver) + BatteryReports(before + [reading]) - BatteryReports(before)) % 0x1_0000_0000
      ensures signalled <==> old(signalled) || dataver != old(dataver)
    {
      assert (before + [reading])[..|before|] == before;
      var shouldReport: bool;
      match reading {
        case Some(r) => shouldReport := ShouldReport(cell.restMv, r.restMv, BATTERY_REPORT_DELTA_MV);
        case None => shouldReport := cell.restMv.Some?;
      }
      if shouldReport {
        cell.Set(reading);
      }
      if shouldReport {
        dataver := (dataver + 1) % 0x1_0000_0000;
        signalled := true;
      }
    }
  }

  /** The voltages of a run of readings that all found a cell. */
  function Voltages(run: seq<BatteryReading>): seq<nat>
  {
    if run == [] then [] else Voltages(run[..|run| - 1]) + [run[|run| - 1].restMv]
  }

  function Present(run: seq<BatteryReading>): seq<Option<BatteryReading>>
  {
    if run == [] then [] else Present(run[..|run| - 1]) + [Some(run[|run| - 1])]
  }

  lemma {:induction false} VoltagesOf(run: seq<BatteryReading>)
    ensures |Voltages(run)| == |Present(run)| == |run|
    ensures run != [] ==> Voltages(run)[|run| - 1] == run[|run| - 1].restMv && Voltages(run)[..|run| - 1] == Voltages(run[..|run| - 1])
  {
    if run != [] {
      VoltagesOf(run[..|run| - 1]);
    }
  }

  /** No cell is held exactly when the latest reading found none. */
  lemma {:induction false} NullExactlyWhenAbsent(rs: seq<Option<BatteryReading>>)
    requires rs != []
    ensures HeldBattery(rs).None? <==> rs[|rs| - 1].None?
  {
    if |rs| > 1 {
      NullExactlyWhenAbsent(rs[..|rs| - 1]);
    }
  }

  lemma {:induction false} RunIsADeadband(before: seq<Option<BatteryReading>>, run: seq<BatteryReading>)
    requires HeldBattery(before).None?
    ensures BatteryReports(before + Present(run)) == BatteryReports(before) + Reports(BATTERY_REPORT_DELTA_MV, Voltages(run))
    ensures var held, mv := HeldBattery(before + Present(run)), Held(BATTERY_REPORT_DELTA_MV, Voltages(run));
            && (held.Some? <==> mv.Some?) && (held.Some? ==> held.value.restMv == mv.value && held.value in run)
  {
    if run == [] {
      assert before + Present(run) == before;
    } else {
      var most := run[..|run| - 1];
      RunIsADeadband(before, most);
      VoltagesOf(run);
      assert (before + Present(run))[..|before + Present(run)| - 1] == before + Present(most);
    }
  }

  /** Within an unbroken run of readings that find a cell, the held voltage is
      less than 20 mV from the latest, and 20 mV of travel pays for every report
      of the run but the first. */
  lemma BatteryReportsArePaidFor(before: seq<Option<BatteryReading>>, run: seq<BatteryReading>)
    requires before == [] || before[|before| - 1].None?
    requires run != []
    ensures var held := HeldBattery(before + Present(run));
            && held.Some? && held.value in run && AbsDiff(held.value.restMv, run[|run| - 1].restMv) < 20
            && 20 * (BatteryReports(before + Present(run)) - BatteryReports(before) - 1) <= Variation(Voltages(run))
  {
    if before != [] {
      NullExactlyWhenAbsent(before);
    }
    RunIsADeadband(before, run);
    VoltagesOf(run);
    ReportsArePaidFor(BATTERY_REPORT_DELTA_MV, Voltages(run));
  }

  function Absent(n: nat): seq<Option<BatteryReading>>
  {
    if n == 0 then [] else Absent(n - 1) + [None]
  }

  /** That there is no cell is reported once, however often it is found, if one was reported
      before; and not at all if none was. */
  lemma {:induction false} AbsenceIsReportedOnce(before: seq<Option<BatteryReading>>, n: nat)
    requires n > 0
    ensures BatteryReports(before + Absent(n)) == BatteryReports(before) + if HeldBattery(before).Some? then 1 else 0
    ensures HeldBattery(before + Absent(n)).None?
  {
    var most := before + Absent(n - 1);
    assert (before + Absent(n))[..|before + Absent(n)| - 1] == most && (before + Absent(n))[|before + Absent(n)| - 1] == None;
    if n > 1 {
      AbsenceIsReportedOnce(before, n - 1);
    } else {
      assert most == before;
    }
  }

  // Staleness.

  /** What the boots offer: the estimate of each reading. */
  function Estimates(mvs: seq<U32>): seq<Option<BatteryReading>>
  {
    if mvs == [] then [] else Estimates(mvs[..|mvs| - 1]) + [EstimateBattery(mvs[|mvs| - 1])]
  }

  lemma {:induction false} HeldIsAnEstimate(mvs: seq<U32>)
    requires mvs != []
    ensures |Estimates(mvs)| == |mvs| && Estimates(mvs)[|mvs| - 1] == EstimateBattery(mvs[|mvs| - 1])
    ensures var held, latest := HeldBattery(Estimates(mvs)), EstimateBattery(mvs[|mvs| - 1]);
            && (held.None? <==> latest.None?)
            && (held.Some? ==> held == EstimateBattery(held.value.restMv) && held.value.restMv in mvs && AbsDiff(held.value.restMv, mvs[|mvs| - 1]) < 20)
  {
    var most := mvs[..|mvs| - 1];
    if most != [] {
      HeldIsAnEstimate(most);
    }
    assert Estimates(mvs)[..|Estimates(mvs)| - 1] == Estimates(most);
  }

  /** What a new voltage is compared with: the one held before it, if it is too close
      to that to be reported. */
  predicate HiddenBy(before: Option<BatteryReading>, mv: U32)
  {
    mv >= BATTERY_PRESENT_MIN_MV && before.Some? && AbsDiff(before.value.restMv, mv) < BATTERY_REPORT_DELTA_MV
  }

  /** The charge a controller can read is null exactly when there is no cell. It is
      within 16 points of the latest estimate, unless the voltage held before hides the
      latest and the two are on different sides of the cast to 32 signed bits; and then
      it is not. */
  lemma StalenessIsBounded(mvs: seq<U32>)
    requires mvs != []
    ensures var mv, before := mvs[|mvs| - 1], HeldBattery(Estimates(mvs[..|mvs| - 1]));
            var held, latest := HeldBattery(Estimates(mvs)), EstimateBattery(mv);
            && (held.None? <==> latest.None?)
            && (held.Some? ==>
                  (AbsDiff(held.value.percent, latest.value.percent) <= 16 <==>
                     !(HiddenBy(before, mv) && CastIsNegative(before.value.restMv) != CastIsNegative(mv))))
  {
    HeldIsAnEstimate(mvs);
    var most, mv := mvs[..|mvs| - 1], mvs[|mvs| - 1];
    assert Estimates(mvs)[..|Estimates(mvs)| - 1] == Estimates(most);
    var before := HeldBattery(Estimates(most));
    if HiddenBy(before, mv) {
      assert HeldBattery(Estimates(mvs)) == before;
      HeldIsAnEstimate(most);
      hide HeldBattery, Estimates, EstimateBattery;
      HiddenIsClose(before.value.restMv, mv);
    } else {
      assert HeldBattery(Estimates(mvs)) == EstimateBattery(mv);
    }
  }

  lemma HiddenIsClose(at: U32, mv: U32)
    requires BATTERY_PRESENT_MIN_MV <= at && BATTERY_PRESENT_MIN_MV <= mv && AbsDiff(at, mv) < BATTERY_REPORT_DELTA_MV
    ensures EstimateBattery(at).Some? && EstimateBattery(mv).Some?
    ensures AbsDiff(EstimateBattery(at).value.percent, EstimateBattery(mv).value.percent) <= 16 <==>
              CastIsNegative(at) == CastIsNegative(mv)
  {
    if CastIsNegative(at) != CastIsNegative(mv) {
      CastReads(at);
      CastReads(mv);
    } else if at <= mv {
      EstimatesAreClose(at, mv);
    } else {
      EstimatesAreClose(mv, at);
    }
  }

  /** So it is for every cell: no voltage below 2^31 mV is ever lost in the cast. */
  lemma CellsAreNeverStale(mvs: seq<U32>)
    requires mvs != [] && forall i :: 0 <= i < |mvs| ==> !CastIsNegative(mvs[i])
    ensures var held, latest := HeldBattery(Estimates(mvs)), EstimateBattery(mvs[|mvs| - 1]);
            && (held.None? <==> latest.None?)
            && (held.Some? ==> AbsDiff(held.value.percent, latest.value.percent) <= 16)
  {
    StalenessIsBounded(mvs);
    var most := mvs[..|mvs| - 1];
    if most != [] {
      HeldIsAnEstimate(most);
    }
  }

  /** The failing side of it: one millivolt across the cast, and what is held is full
      while the estimate is empty. */
  lemma StalenessFailsAcrossTheCast()
    ensures var mvs: seq<U32> := [0x7FFF_FFFF, 0x8000_0000];
            && HeldBattery(Estimates(mvs)) == Some(BatteryReading(100, 0x7FFF_FFFF))
            && EstimateBattery(mvs[1]) == Some(BatteryReading(0, 0x8000_0000))
  {
    CastReads(0x7FFF_FFFF);
    CastReads(0x8000_0000);
    var one: seq<U32>, two: seq<U32> := [0x7FFF_FFFF], [0x7FFF_FFFF, 0x8000_0000];
    assert one[..0] == [] && two[..1] == one;
    assert Estimates(one) == [EstimateBattery(0x7FFF_FFFF)];
    assert Estimates(two) == Estimates(one) + [EstimateBattery(0x8000_0000)];
    assert Estimates(two)[..1] == Estimates(one) && Estimates(one)[..0] == [];
    assert HeldBattery(Estimates(one)) == EstimateBattery(0x7FFF_FFFF);
  }

  lemma DeviceChargeAt(mv: int, k: nat)
    requires k < 5 && BATTERY_CURVE[k].mv < mv < BATTERY_CURVE[k + 1].mv
    ensures BatteryPermille(mv, BATTERY_CURVE) == OnLine(mv, BATTERY_CURVE[k], BATTERY_CURVE[k + 1])
  {
    DeviceCurve();
    OnEverySegment(mv, BATTERY_CURVE, 8, k);
  }

  lemma EstimateOnLine(mv: U32, k: nat, permille: nat)
    requires k < 5 && BATTERY_CURVE[k].mv < mv < BATTERY_CURVE[k + 1].mv
    requires OnLine(mv, BATTERY_CURVE[k], BATTERY_CURVE[k + 1]) == permille
    ensures EstimateBattery(mv) == Some(BatteryReading(permille / 10, mv))
  {
    DeviceChargeAt(mv, k);
    WrapIsExact(mv);
    hide OnLine, BatteryPermille, WrapI32;
  }

  lemma SharesOfTheCurve()
    ensures TruncDiv(300 * 16, 50) == 96 && TruncDiv(300 * 17, 50) == 102 && TruncDiv(70 * 14, 50) == 19 && TruncDiv(70 * 15, 50) == 21
  {
  }

  lemma CurvePoints()
    ensures BATTERY_CURVE[1] == Point(1150, 30) && BATTERY_CURVE[2] == Point(1200, 100) && BATTERY_CURVE[3] == Point(1250, 400)
  {
  }

  lemma LowAt1216()
    ensures EstimateBattery(1216) == Some(BatteryReading(19, 1216))
  {
    SharesOfTheCurve();
    CurvePoints();
    hide EstimateBattery, TruncDiv;
    assert OnLine(1216, Point(1200, 100), Point(1250, 400)) == 196;
    hide OnLine;
    EstimateOnLine(1216, 2, 196);
  }

  lemma LowAt1164()
    ensures EstimateBattery(1164) == Some(BatteryReading(4, 1164))
  {
    SharesOfTheCurve();
    CurvePoints();
    hide EstimateBattery, TruncDiv;
    assert OnLine(1164, Point(1150, 30), Point(1200, 100)) == 49;
    hide OnLine;
    EstimateOnLine(1164, 1, 49);
  }

  lemma LowAt1165()
    ensures EstimateBattery(1165) == Some(BatteryReading(5, 1165))
  {
    SharesOfTheCurve();
    CurvePoints();
    hide EstimateBattery, TruncDiv;
    assert OnLine(1165, Point(1150, 30), Point(1200, 100)) == 51;
    hide OnLine;
    EstimateOnLine(1165, 1, 51);
  }

  lemma FairAt1217()
    ensures EstimateBattery(1217) == Some(BatteryReading(20, 1217))
  {
    SharesOfTheCurve();
    CurvePoints();
    hide EstimateBattery, TruncDiv;
    assert OnLine(1217, Point(1200, 100), Point(1250, 400)) == 202;
    hide OnLine;
    EstimateOnLine(1217, 2, 202);
  }

  /** The charge a controller reads. */
  function ChargeRead(held: Option<BatteryReading>): Option<nat>
  {
    if held.Some? then Some(held.value.percent) else None
  }

  /** What the charge of a voltage is read as: critical to 1164 mV, and there a new cell is
      asked for; a warning to 1216 mV; and fine above, for every voltage but those past the
      cast to 32 signed bits, which read as empty. */
  lemma LevelOfAVoltage(mv: U32)
    requires 800 <= mv
    ensures var charge := ChargeRead(EstimateBattery(mv));
            && charge.Some?
            && ChargeLevelOf(charge) == (if mv <= 1164 || mv >= 0x8000_0000 then Critical else if mv <= 1216 then Warning else OK)
            && (ReplacementNeeded(charge) <==> mv <= 1164 || mv >= 0x8000_0000)
  {
    if mv >= 0x8000_0000 {
      CastReads(mv);
    } else {
      LowAt1164();
      LowAt1165();
      LowAt1216();
      FairAt1217();
      hide EstimateBattery;
      if mv <= 1164 { EstimatesAreClose(mv, 1164); } else { EstimatesAreClose(1165, mv); }
      if mv <= 1216 { EstimatesAreClose(mv, 1216); } else { EstimatesAreClose(1217, mv); }
    }
  }

  /** A cell is seen as it is in spite of the deadband, whatever voltages came before. At
      1145 mV or less what the controller reads is critical and a new cell is asked for; from
      1184 mV to 1197 mV it is a warning; from 1236 mV it is fine; and from 1184 mV no new cell
      is asked for: but for a voltage held from past the cast. With no cell there is nothing to
      warn of and nothing to replace. */
  lemma CellsAreSeenAsTheyAre(mvs: seq<U32>)
    requires mvs != []
    ensures var mv, held := mvs[|mvs| - 1], HeldBattery(Estimates(mvs));
            var charge := ChargeRead(held);
            var level, replace := ChargeLevelOf(charge), ReplacementNeeded(charge);
            && (mv < 800 ==> held.None? && level == OK && !replace)
            && (mv >= 800 ==>
                  && held.Some?
                  && (mv <= 1145 ==> level == Critical && replace)
                  && (mv <= 1197 ==> level != OK)
                  && (1184 <= mv <= 1197 ==> level == Warning && !replace)
                  && (mv >= 1184 ==> (replace <==> held.value.restMv >= 0x8000_0000))
                  && (mv >= 1236 ==> (level == OK <==> held.value.restMv < 0x8000_0000))
                  && (1236 <= mv <= 0x8000_0000 - 20 ==> level == OK && !replace))
  {
    HeldIsAnEstimate(mvs);
    var mv, held := mvs[|mvs| - 1], HeldBattery(Estimates(mvs));
    if mv >= 800 {
      var at := held.value.restMv;
      assert at >= 800;
      hide EstimateBattery, HeldBattery, Estimates, ChargeRead;
      LevelOfAVoltage(at);
    }
  }
}
