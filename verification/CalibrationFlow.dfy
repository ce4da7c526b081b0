/**
 Capturing the two references (`core/src/calibration.rs`). What the flow does is
 written once as a function of what the ports answered, and `Run` follows it.
 */
module CalibrationFlow {
  import opened Machine
  import opened Vocabulary
  import opened Ports
  import opened Tuning

  datatype CalibrationError = SpanTooSmall | PersistFailed

  datatype CalibrationOutcome = Accepted(calibration: Calibration) | Rejected(error: CalibrationError)

  datatype Reading = Reading(mv: U32, until: nat)

  /** What the world answered: when each hold was over, each reading, and whether
      and when the store came back, if it was asked. */
  datatype Answers = Answers(red: nat, dry: Reading, green: nat, wet: Reading, stored: bool, storedAt: nat)

  function Captured(f: Answers): Calibration
  {
    Calibration(AsI32(f.dry.mv), AsI32(f.wet.mv))
  }

  predicate WideEnough(f: Answers)
  {
    WrapI32(Captured(f).dryMv - Captured(f).wetMv) >= SOIL_CAL_MIN_SPAN_MV
  }

  function OutcomeOf(f: Answers): CalibrationOutcome
  {
    if !WideEnough(f) then Rejected(SpanTooSmall)
    else if f.stored then Accepted(Captured(f))
    else Rejected(PersistFailed)
  }

  /** When the flow is over. */
  function EndOf(f: Answers): nat
  {
    if WideEnough(f) then f.storedAt else f.wet.until
  }

  function CaptureTrace(at: nat, color: Color, held: nat, r: Reading): seq<Entry>
  {
    [LedSent(at, Blink(color, 10, SOIL_CAL_BLINK_PERIOD)), Delayed(at, SOIL_CAL_HOLD, held), SoilRead(held, r.mv, r.until)]
  }

  /** Every call the flow makes, begun at `at`: the two captures, the store of a
      pair that is wide enough, and one signal for a pair that did not take. */
  function TraceOf(at: nat, f: Answers): seq<Entry>
  {
    CaptureTrace(at, Red, f.red, f.dry) + CaptureTrace(f.dry.until, Green, f.green, f.wet)
    + (if WideEnough(f) then [CalibrationStored(f.wet.until, Captured(f), f.stored, f.storedAt)] else [])
    + (if OutcomeOf(f).Rejected? then [LedSent(EndOf(f), REJECTED_LED)] else [])
  }

  predicate HoldLegal(l: Limits, at: nat, held: nat, r: Reading)
  {
    && at + SOIL_CAL_HOLD <= held <= at + SOIL_CAL_HOLD + l.late
    && held <= r.until <= held + l.soil
  }

  /** The answers keep to the contract of the ports. */
  predicate Legal(l: Limits, at: nat, f: Answers)
  {
    && HoldLegal(l, at, f.red, f.dry)
    && HoldLegal(l, f.dry.until, f.green, f.wet)
    && (WideEnough(f) ==> f.wet.until <= f.storedAt <= f.wet.until + l.store)
  }

  /** A flow that is rejected stores nothing and gives exactly one signal of it, as the
      last thing it does; an accepted one stores what it captured and gives none. */
  lemma OnlyARejectionIsSignalled(at: nat, f: Answers, i: nat)
    requires i < |TraceOf(at, f)|
    ensures var e := TraceOf(at, f)[i];
            && (e.LedSent? && e.command == REJECTED_LED <==> OutcomeOf(f).Rejected? && i == |TraceOf(at, f)| - 1)
            && (e.CalibrationStored? && e.stored <==> OutcomeOf(f).Accepted? && i == |TraceOf(at, f)| - 1)
            && (e.CalibrationStored? ==> e.calibration == Captured(f))
  {
  }

  /** What a flow makes of its two readings, as its calls show them: it asks for a store exactly
      when the dry one is 200 mV above the wet one or more, in signed 32-bit arithmetic, and of
      just these two; it is accepted exactly when that store came back true, and rejected for
      its span exactly when it asked for none. */
  lemma WidePairsAreStored(at: nat, f: Answers)
    ensures var t := TraceOf(at, f);
            && (forall i {:trigger t[i]} :: 0 <= i < |t| ==> (t[i].SoilRead? <==> i == 2 || i == 5))
            && |t| > 6
            && var dry, wet := AsI32(t[2].mv), AsI32(t[5].mv);
               && (forall i {:trigger t[i]} :: 0 <= i < |t| ==> (t[i].CalibrationStored? <==> i == 6 && WrapI32(dry - wet) >= 200))
               && match OutcomeOf(f)
                  case Accepted(c) => t[6].CalibrationStored? && t[6].stored && c == t[6].calibration == Calibration(dry, wet)
                  case Rejected(PersistFailed) => t[6].CalibrationStored? && !t[6].stored
                  case Rejected(SpanTooSmall) => !t[6].CalibrationStored?
  {
    hide WrapI32;
  }

  /** For readings of 16 bits, more than the converter gives, the test is the plain one. */
  lemma SpansOf16Bits(at: nat, f: Answers)
    requires f.dry.mv < 0x1_0000 && f.wet.mv < 0x1_0000
    ensures var t := TraceOf(at, f);
            && |t| > 6 && t[2] == SoilRead(f.red, f.dry.mv, f.dry.until) && t[5] == SoilRead(f.green, f.wet.mv, f.wet.until)
            && (t[6].CalibrationStored? <==> t[2].mv - t[5].mv >= 200)
            && (t[6].CalibrationStored? ==> t[6].calibration == Calibration(t[2].mv, t[5].mv))
            && (OutcomeOf(f).Accepted? <==> t[6].CalibrationStored? && t[6].stored)
            && (OutcomeOf(f).Accepted? ==> OutcomeOf(f).calibration == Calibration(t[2].mv, t[5].mv))
            && (OutcomeOf(f) == Rejected(SpanTooSmall) <==> t[2].mv - t[5].mv < 200)
  {
    WrapIsExact(f.dry.mv);
    WrapIsExact(f.wet.mv);
    WrapIsExact(f.dry.mv - f.wet.mv);
    hide WrapI32;
  }

  method Capture(ports: World, color: Color) returns (mv: int, ghost held: nat, ghost r: Reading)
    modifies ports`clock, ports`trace
    ensures mv == AsI32(r.mv) && ports.clock == r.until && HoldLegal(ports.limits, old(ports.clock), held, r)
    ensures ports.trace == old(ports.trace) + CaptureTrace(old(ports.clock), color, held, r)
  {
    ports.SendLed(Blink(color, 10, SOIL_CAL_BLINK_PERIOD));
    ports.Delay(SOIL_CAL_HOLD);
    held := ports.clock;
    var reading := ports.ReadSoilMv();
    r := Reading(reading, ports.clock);
    mv := AsI32(reading);
  }

  /** Everything of the flow but the signal for a rejection. */
  method CaptureAndStore(ports: World) returns (outcome: CalibrationOutcome, ghost f: Answers)
    modifies ports`clock, ports`durable, ports`trace
    ensures Legal(ports.limits, old(ports.clock), f) && ports.clock == EndOf(f) && outcome == OutcomeOf(f)
    ensures match outcome
            case Accepted(c) => c == Captured(f) && f.stored && WrapI32(c.dryMv - c.wetMv) >= 200
            case Rejected(PersistFailed) => !f.stored && WrapI32(Captured(f).dryMv - Captured(f).wetMv) >= 200
            case Rejected(SpanTooSmall) => WrapI32(Captured(f).dryMv - Captured(f).wetMv) < 200
    ensures ports.durable == if outcome.Accepted? then outcome.calibration else old(ports.durable)
    ensures ports.trace + (if outcome.Rejected? then [LedSent(EndOf(f), REJECTED_LED)] else []) ==
            old(ports.trace) + TraceOf(old(ports.clock), f)
  {
    var dryMv, red, dry := Capture(ports, Red);
    var wetMv, green, wet := Capture(ports, Green);
    f := Answers(red, dry, green, wet, false, wet.until);
    if WrapI32(dryMv - wetMv) < SOIL_CAL_MIN_SPAN_MV {
      return Rejected(SpanTooSmall), f;
    }
    var calibration := Calibration(dryMv, wetMv);
    var stored := ports.StoreCalibration(calibration);
    f := Answers(red, dry, green, wet, stored, ports.clock);
    if stored {
      outcome := Accepted(calibration);
    } else {
      outcome := Rejected(PersistFailed);
    }
  }

  /** The whole flow. The calibration in durable storage is the accepted one, or
      the one from before a rejection. */
  method Run(ports: World) returns (outcome: CalibrationOutcome, ghost f: Answers)
    modifies ports`clock, ports`durable, ports`trace
    ensures Legal(ports.limits, old(ports.clock), f) && ports.clock == EndOf(f) && outcome == OutcomeOf(f)
    ensures match outcome
            case Accepted(c) => c == Captured(f) && f.stored && WrapI32(c.dryMv - c.wetMv) >= 200
            case Rejected(PersistFailed) => !f.stored && WrapI32(Captured(f).dryMv - Captured(f).wetMv) >= 200
            case Rejected(SpanTooSmall) => WrapI32(Captured(f).dryMv - Captured(f).wetMv) < 200
    ensures ports.durable == if outcome.Accepted? then outcome.calibration else old(ports.durable)
    ensures ports.trace == old(ports.trace) + TraceOf(old(ports.clock), f)
  {
    outcome, f := CaptureAndStore(ports);
    if outcome.Rejected? {
      ports.SendLed(REJECTED_LED);
    }
  }
}
