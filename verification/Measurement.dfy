/**
 From millivolts to percentages (`core/src/math.rs`) and the battery estimate
 (`estimate_battery` in `core/src/app.rs`).
 */
module Measurement {
  import opened Machine
  import opened Vocabulary
  import opened Tuning

  // Soil moisture.

  function Clamp(x: int, low: int, high: int): (r: int)
    requires low <= high
  {
    if x < low then low else if x > high then high else x
  }

  /** Linear between the wet and the dry reference, clamped. The arithmetic is
      that of signed 32-bit integers, which wrap. */
  function SoilMoisturePercent(mv: int, dryMv: int, wetMv: int): nat
  {
    var span := WrapI32(dryMv - wetMv);
    if span <= 0 then 0
    else Clamp(TruncDiv(WrapI32(100 * WrapI32(dryMv - mv)), span), 0, 100)
  }

  predicate Is16Bit(x: int) { 0 <= x < 0x1_0000 }

  /** References an accepted calibration of 16-bit readings can hold. */
  predicate Usable(c: Calibration)
  {
    && Is16Bit(c.dryMv) && Is16Bit(c.wetMv)
    && c.dryMv - c.wetMv >= SOIL_CAL_MIN_SPAN_MV
  }

  /** With usable references and a 16-bit reading nothing wraps, and the branch
      for a reversed span is not taken. */
  lemma MoistureDoesNotWrap(mv: int, c: Calibration)
    requires Is16Bit(mv) && Usable(c)
    ensures FitsI32(c.dryMv - c.wetMv) && FitsI32(c.dryMv - mv) && FitsI32(100 * (c.dryMv - mv))
    ensures SoilMoisturePercent(mv, c.dryMv, c.wetMv) ==
            Clamp(TruncDiv(100 * (c.dryMv - mv), c.dryMv - c.wetMv), 0, 100)
  {
    WrapIsExact(c.dryMv - c.wetMv);
    WrapIsExact(c.dryMv - mv);
    WrapIsExact(100 * (c.dryMv - mv));
  }

  /** Then the percentage is where the reading lies on the line from dry to wet,
      rounded down: nothing at the dry reference and beyond, all at the wet one. */
  lemma MoistureIsExact(mv: int, c: Calibration)
    requires Is16Bit(mv) && Usable(c)
    ensures var p := SoilMoisturePercent(mv, c.dryMv, c.wetMv);
            && p <= 100
            && (mv >= c.dryMv ==> p == 0)
            && (mv <= c.wetMv ==> p == 100)
            && (c.wetMv <= mv <= c.dryMv ==> p * (c.dryMv - c.wetMv) <= 100 * (c.dryMv - mv) < (p + 1) * (c.dryMv - c.wetMv))
  {
    MoistureDoesNotWrap(mv, c);
    hide SoilMoisturePercent;
    var p := ClampedShare(c.dryMv - mv, c.dryMv - c.wetMv);
    assert p == SoilMoisturePercent(mv, c.dryMv, c.wetMv);
  }

  lemma ClampedShare(wetness: int, span: nat) returns (p: nat)
    requires span > 0
    ensures p == Clamp(TruncDiv(100 * wetness, span), 0, 100)
    ensures p <= 100 && (wetness <= 0 ==> p == 0) && (wetness >= span ==> p == 100)
    ensures 0 <= wetness <= span ==> p * span <= 100 * wetness < (p + 1) * span
  {
    if wetness > 0 {
      var share := Share(wetness, span);
      p := Min(share, 100);
    } else {
      assert TruncDiv(100 * wetness, span) <= 0;
      p := 0;
    }
  }

  lemma Share(wetness: nat, span: nat) returns (share: nat)
    requires span > 0
    ensures share == 100 * wetness / span && share * span <= 100 * wetness < (share + 1) * span
    ensures wetness >= span ==> share >= 100
    ensures wetness <= span ==> share <= 100
  {
    share := 100 * wetness / span;
    DivBounds(100 * wetness, span);
    if wetness >= span && share < 100 { ProductMonotone(share + 1, 100, span); }
    if wetness <= span && share > 100 { ProductMonotone(101, share, span); }
  }

  lemma DivBounds(a: nat, b: int)
    requires b > 0
    ensures (a / b) * b <= a < (a / b + 1) * b
  {
  }

  lemma ProductMonotone(a: int, b: int, c: int)
    requires a <= b && c >= 0
    ensures a * c <= b * c
  {
  }

  // The battery curve.

  /** The first pair of neighbours, from pair `k` on, that ends above `mv`. */
  function FirstAbove(mv: int, curve: seq<Point>, k: nat): Option<nat>
    requires k < |curve|
    decreases |curve| - k
  {
    if k + 1 >= |curve| then None
    else if mv < curve[k + 1].mv then Some(k)
    else FirstAbove(mv, curve, k + 1)
  }

  /** The line from one point to the next, rounded towards zero. */
  function OnLine(mv: int, from: Point, to: Point): nat
  {
    var span := to.mv - from.mv;
    if span <= 0 then from.permille
    else
      var rise := to.permille - from.permille;
      Clamp(from.permille + TruncDiv(rise * (mv - from.mv), span), 0, U32_MAX)
  }

  function BatteryPermille(mv: int, curve: seq<Point>): nat
  {
    if curve == [] then 0
    else if mv <= curve[0].mv then curve[0].permille
    else if mv >= curve[|curve| - 1].mv then curve[|curve| - 1].permille
    else match FirstAbove(mv, curve, 0)
      case Some(k) => if k + 1 < |curve| then OnLine(mv, curve[k], curve[k + 1]) else 0
      case None => curve[|curve| - 1].permille
  }

  /** Points in rising order, with charges that do not fall. */
  ghost predicate Rising(curve: seq<Point>)
  {
    && curve != []
    && (forall i {:trigger curve[i]} :: 0 <= i < |curve| ==> FitsI32(curve[i].mv) && curve[i].permille <= 1000)
    && (forall i, j {:trigger curve[i], curve[j]} :: 0 <= i <= j < |curve| ==>
          curve[i].mv <= curve[j].mv && curve[i].permille <= curve[j].permille)
  }

  predicate Inside(mv: int, curve: seq<Point>)
    requires curve != []
  {
    curve[0].mv < mv < curve[|curve| - 1].mv
  }

  lemma {:induction false} FindsThePair(mv: int, curve: seq<Point>, k: nat) returns (found: nat)
    requires Rising(curve) && k < |curve| && curve[k].mv <= mv < curve[|curve| - 1].mv
    ensures FirstAbove(mv, curve, k) == Some(found)
    ensures k <= found && found + 1 < |curve| && curve[found].mv <= mv < curve[found + 1].mv
    decreases |curve| - k
  {
    if mv < curve[k + 1].mv {
      found := k;
    } else {
      found := FindsThePair(mv, curve, k + 1);
    }
  }

  /** `p` is the height of the line at `mv`, rounded down. */
  predicate IsFloorOfLine(p: int, mv: int, from: Point, to: Point)
  {
    var span, rise := to.mv - from.mv, to.permille - from.permille;
    (p - from.permille) * span <= rise * (mv - from.mv) < (p - from.permille + 1) * span
  }

  /** The share `rise * x / span` of a rise, for `x` out of `span`. */
  lemma ShareOf(rise: nat, x: nat, span: nat) returns (share: nat)
    requires 0 < span && x <= span
    ensures share == rise * x / span <= rise && rise * x >= 0
    ensures share * span <= rise * x < (share + 1) * span
    ensures x == 0 ==> share == 0
    ensures x == span ==> share == rise
  {
    ProductMonotone(0, rise, x);
    share := rise * x / span;
    DivBounds(rise * x, span);
    ProductMonotone(x, span, rise);
    if share > rise {
      ProductMonotone(rise + 1, share, span);
    }
    if x == span && share < rise {
      ProductMonotone(share + 1, rise, span);
    }
  }

  lemma LineIsItsFloor(mv: int, from: Point, to: Point)
    requires from.mv < to.mv && from.permille <= to.permille <= 1000 && from.mv <= mv <= to.mv
    ensures IsFloorOfLine(OnLine(mv, from, to), mv, from, to)
    ensures from.permille <= OnLine(mv, from, to) <= to.permille
    ensures mv == from.mv ==> OnLine(mv, from, to) == from.permille
    ensures mv == to.mv ==> OnLine(mv, from, to) == to.permille
  {
    var share := ShareOf(to.permille - from.permille, mv - from.mv, to.mv - from.mv);
    assert OnLine(mv, from, to) == from.permille + share;
  }

  lemma LineFitsI64(mv: int, from: Point, to: Point)
    requires from.permille <= to.permille <= 1000 && from.mv <= mv <= to.mv
    requires FitsI32(from.mv) && FitsI32(to.mv)
    ensures FitsI64((to.permille - from.permille) * (mv - from.mv))
  {
    var rise, x := to.permille - from.permille, mv - from.mv;
    ProductMonotone(0, rise, x);
    ProductMonotone(rise, 1000, x);
  }

  /** Strictly inside a rising curve there is one pair of neighbours around the
      reading, the estimate is the floor of the line that joins them, the
      fallbacks for no pair and for a pair of no width are not reached, and
      nothing overflows 64 bits. */
  lemma ReadsTheJoiningLine(mv: int, curve: seq<Point>) returns (k: nat)
    requires Rising(curve) && Inside(mv, curve)
    ensures FirstAbove(mv, curve, 0) == Some(k) && k + 1 < |curve|
    ensures curve[k].mv <= mv < curve[k + 1].mv
    ensures IsFloorOfLine(BatteryPermille(mv, curve), mv, curve[k], curve[k + 1])
    ensures curve[k].permille <= BatteryPermille(mv, curve) <= curve[k + 1].permille
    ensures FitsI64((curve[k + 1].permille - curve[k].permille) * (mv - curve[k].mv))
  {
    k := FindsThePair(mv, curve, 0);
    LineIsItsFloor(mv, curve[k], curve[k + 1]);
    LineFitsI64(mv, curve[k], curve[k + 1]);
  }

  /** The estimate never leaves the range of the curve. */
  lemma StaysWithinTheCurve(mv: int, curve: seq<Point>)
    requires Rising(curve)
    ensures curve[0].permille <= BatteryPermille(mv, curve) <= curve[|curve| - 1].permille
  {
    if Inside(mv, curve) {
      var k := ReadsTheJoiningLine(mv, curve);
    }
  }

  /** A vertical step inside the curve reads its top. */
  lemma StepReadsItsTop(curve: seq<Point>, top: nat)
    requires Rising(curve) && top + 1 < |curve|
    requires curve[0].mv < curve[top].mv < curve[top + 1].mv
    ensures BatteryPermille(curve[top].mv, curve) == curve[top].permille
  {
    var k := ReadsTheJoiningLine(curve[top].mv, curve);
    assert k == top;
  }

  /** A higher voltage never reads a lower charge, within a segment, across
      segments and beyond both ends. */
  lemma ChargeIsMonotone(low: int, high: int, curve: seq<Point>)
    requires Rising(curve) && low <= high
    ensures BatteryPermille(low, curve) <= BatteryPermille(high, curve)
  {
    StaysWithinTheCurve(low, curve);
    StaysWithinTheCurve(high, curve);
    if Inside(low, curve) && Inside(high, curve) {
      var i := ReadsTheJoiningLine(low, curve);
      var j := ReadsTheJoiningLine(high, curve);
      if i == j {
        LineIsMonotone(low, high, curve[i], curve[i + 1], BatteryPermille(low, curve), BatteryPermille(high, curve));
      } else {
        assert i < j;
      }
    }
  }

  lemma LineIsMonotone(low: int, high: int, from: Point, to: Point, p: int, q: int)
    requires from.mv < to.mv && from.permille <= to.permille && low <= high
    requires IsFloorOfLine(p, low, from, to) && IsFloorOfLine(q, high, from, to)
    ensures p <= q
  {
    var span, rise := to.mv - from.mv, to.permille - from.permille;
    ProductMonotone(low - from.mv, high - from.mv, rise);
    if q < p { ProductMonotone(q - from.permille + 1, p - from.permille, span); }
  }

  // How steep a curve is.

  /** The segment from point `k` rises by at most `slope` permille a millivolt; a
      vertical step does so only if it rises by nothing. */
  predicate Gentle(curve: seq<Point>, slope: nat, k: nat)
    requires k + 1 < |curve|
  {
    curve[k + 1].permille - curve[k].permille <= slope * (curve[k + 1].mv - curve[k].mv)
  }

  ghost predicate NoSteeperThan(curve: seq<Point>, slope: nat)
  {
    forall k: nat {:trigger Gentle(curve, slope, k)} :: k + 1 < |curve| ==> Gentle(curve, slope, k)
  }

  /** On a curve without jumps each reading lies on the segment that ends at it
      as well as on the one that begins there. */
  lemma {:induction false} LevelStretch(curve: seq<Point>, slope: nat, i: nat, j: nat)
    requires Rising(curve) && NoSteeperThan(curve, slope) && i <= j < |curve| && curve[i].mv == curve[j].mv
    ensures curve[i].permille == curve[j].permille
    decreases j - i
  {
    if i < j {
      assert curve[i + 1].mv == curve[i].mv && Gentle(curve, slope, i);
      LevelStretch(curve, slope, i + 1, j);
    }
  }

  lemma ReadsThePoint(curve: seq<Point>, slope: nat, i: nat)
    requires Rising(curve) && NoSteeperThan(curve, slope) && i < |curve|
    ensures BatteryPermille(curve[i].mv, curve) == curve[i].permille
  {
    var mv, last := curve[i].mv, |curve| - 1;
    if mv == curve[0].mv {
      LevelStretch(curve, slope, 0, i);
    } else if mv == curve[last].mv {
      LevelStretch(curve, slope, i, last);
    } else {
      var k := ReadsTheJoiningLine(mv, curve);
      assert i <= k;
      LevelStretch(curve, slope, i, k);
      StepReadsItsTop(curve, k);
    }
  }

  /** On a curve without jumps the reading lies on every segment that touches it. */
  lemma OnEverySegment(mv: int, curve: seq<Point>, slope: nat, k: nat)
    requires Rising(curve) && NoSteeperThan(curve, slope) && k + 1 < |curve|
    requires curve[k].mv < curve[k + 1].mv && curve[k].mv <= mv <= curve[k + 1].mv
    ensures BatteryPermille(mv, curve) == OnLine(mv, curve[k], curve[k + 1])
  {
    LineIsItsFloor(mv, curve[k], curve[k + 1]);
    if mv == curve[k].mv {
      ReadsThePoint(curve, slope, k);
    } else if mv == curve[k + 1].mv {
      ReadsThePoint(curve, slope, k + 1);
    } else {
      var found := FindsThePair(mv, curve, 0);
      assert found == k;
    }
  }

  /** One millivolt more reads at most `slope` permille more. */
  lemma OneMillivolt(mv: int, curve: seq<Point>, slope: nat)
    requires Rising(curve) && NoSteeperThan(curve, slope)
    ensures BatteryPermille(mv + 1, curve) <= BatteryPermille(mv, curve) + slope
  {
    if curve[0].mv <= mv < curve[|curve| - 1].mv {
      var k := FindsThePair(mv, curve, 0);
      OnEverySegment(mv, curve, slope, k);
      OnEverySegment(mv + 1, curve, slope, k);
      LineIsItsFloor(mv, curve[k], curve[k + 1]);
      LineIsItsFloor(mv + 1, curve[k], curve[k + 1]);
      assert Gentle(curve, slope, k);
      StepOnLine(mv, curve[k], curve[k + 1], slope, BatteryPermille(mv, curve), BatteryPermille(mv + 1, curve));
    } else if curve[0].mv == mv {
      LevelStretch(curve, slope, 0, |curve| - 1);
    }
  }

  lemma StepOnLine(mv: int, from: Point, to: Point, slope: nat, p: int, q: int)
    requires from.mv < to.mv && to.permille - from.permille <= slope * (to.mv - from.mv)
    requires IsFloorOfLine(p, mv, from, to) && IsFloorOfLine(q, mv + 1, from, to)
    ensures q <= p + slope
  {
    var span, rise, x := to.mv - from.mv, to.permille - from.permille, mv - from.mv;
    assert rise * (x + 1) == rise * x + rise;
    assert (p - from.permille + 1) * span + slope * span == (p + slope - from.permille + 1) * span;
    if q > p + slope { ProductMonotone(p + slope + 1 - from.permille, q - from.permille, span); }
  }

  lemma OneMore(slope: nat, d: nat)
    requires d > 0
    ensures slope * d == slope * (d - 1) + slope
  {
  }

  /** Readings `d` millivolts apart read charges at most `slope * d` apart. */
  lemma {:induction false} ChargeIsSteady(mv: int, d: nat, curve: seq<Point>, slope: nat)
    requires Rising(curve) && NoSteeperThan(curve, slope)
    ensures BatteryPermille(mv, curve) <= BatteryPermille(mv + d, curve) <= BatteryPermille(mv, curve) + slope * d
  {
    ChargeIsMonotone(mv, mv + d, curve);
    if d > 0 {
      ChargeIsSteady(mv, d - 1, curve, slope);
      OneMillivolt(mv + d - 1, curve, slope);
      OneMore(slope, d);
    }
  }

  /** A curve rises when each point rises from the one before it. */
  lemma {:induction false} RisesPointByPoint(curve: seq<Point>, i: nat, j: nat)
    requires forall k {:trigger curve[k]} :: 0 < k < |curve| ==> curve[k - 1].mv <= curve[k].mv && curve[k - 1].permille <= curve[k].permille
    requires i <= j < |curve|
    ensures curve[i].mv <= curve[j].mv && curve[i].permille <= curve[j].permille
    decreases j - i
  {
    if i < j {
      RisesPointByPoint(curve, i, j - 1);
      assert curve[j - 1].mv <= curve[j].mv;
    }
  }

  /** The device's own curve rises by at most 8 permille a millivolt. */
  lemma DeviceCurve()
    ensures Rising(BATTERY_CURVE) && NoSteeperThan(BATTERY_CURVE, 8)
  {
    var c := BATTERY_CURVE;
    assert c == [c[0], c[1], c[2], c[3], c[4], c[5]];
    forall i: nat, j: nat | i <= j < |c| ensures c[i].mv <= c[j].mv && c[i].permille <= c[j].permille {
      RisesPointByPoint(c, i, j);
    }
  }

  // The estimate.

  /** `None` for a reading too low to come from a cell; otherwise the charge in
      percent, rounded down, with the reading it came from. */
  function EstimateBattery(restMv: U32): Option<BatteryReading>
  {
    if restMv < BATTERY_PRESENT_MIN_MV then None
    else Some(BatteryReading(BatteryPermille(AsI32(restMv), BATTERY_CURVE) / 10, restMv))
  }

  lemma DeviceChargesAreClose(low: int, high: int)
    requires low <= high
    ensures 0 <= BatteryPermille(low, BATTERY_CURVE) <= BatteryPermille(high, BATTERY_CURVE) <= 1000
    ensures BatteryPermille(high, BATTERY_CURVE) <= BatteryPermille(low, BATTERY_CURVE) + 8 * (high - low)
  {
    DeviceCurve();
    ChargeIsSteady(low, high - low, BATTERY_CURVE, 8);
    StaysWithinTheCurve(high, BATTERY_CURVE);
  }

  /** A reading of 2^31 mV and more is cast to a negative voltage, and reads as empty;
      one just below it reads as full. */
  predicate CastIsNegative(restMv: U32) { restMv >= 0x8000_0000 }

  lemma CastReads(restMv: U32)
    requires restMv >= 0x7FFF_0000
    ensures EstimateBattery(restMv) == Some(BatteryReading(if CastIsNegative(restMv) then 0 else 100, restMv))
  {
    var c := BATTERY_CURVE;
    assert c[0] == Point(1100, 0) && c[5] == Point(1350, 1000);
    assert AsI32(restMv) == if CastIsNegative(restMv) then restMv - 0x1_0000_0000 else restMv;
  }

  /** A cell's charge is a percentage, and two readings of a cell, the higher no lower,
      are estimated at most `(8 d + 9) / 10` percent apart, `d` being the millivolts
      between them: exactly when they are on the same side of the cast to 32 signed
      bits, or the lower one reads as empty already. */
  lemma EstimatesAreClose(low: U32, high: U32)
    requires BATTERY_PRESENT_MIN_MV <= low <= high
    ensures EstimateBattery(low).Some? && EstimateBattery(high).Some?
    ensures var p, q := EstimateBattery(low).value.percent, EstimateBattery(high).value.percent;
            && p <= 100 && q <= 100
            && (p <= q <= p + (8 * (high - low) + 9) / 10 <==> CastIsNegative(low) == CastIsNegative(high) || p == 0)
  {
    var p, q := BatteryPermille(AsI32(low), BATTERY_CURVE), BatteryPermille(AsI32(high), BATTERY_CURVE);
    if CastIsNegative(high) {
      CastReads(high);
      if CastIsNegative(low) { CastReads(low); } else { WrapIsExact(low); DeviceChargesAreClose(low, low); }
    } else {
      WrapIsExact(low);
      WrapIsExact(high);
      DeviceChargesAreClose(low, high);
      TenthsAreClose(p, q, 8 * (high - low));
    }
  }

  lemma TenthsAreClose(p: nat, q: nat, d: nat)
    requires p <= q <= p + d
    ensures p / 10 <= q / 10 <= p / 10 + (d + 9) / 10
  {
  }

  // The deadband.

  function ShouldReport(lastReported: Option<nat>, current: nat, minDelta: nat): bool
  {
    match lastReported
    case Some(last) => AbsDiff(last, current) >= minDelta
    case None => true
  }
}
