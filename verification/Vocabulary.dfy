/**
 The words the decision layer and the world share (`core/src/ports.rs`,
 `core/src/led.rs`), and the trace a world keeps of every call made to it.
 */
module Vocabulary {
  import opened Machine
  import Tuning

  datatype Edge = Falling | Rising

  datatype WakeCause = Cold | Timer | Button

  datatype PowerMode = Active | Idle

  datatype OperatingMode = Sit | Lit

  datatype IcdState = IcdState(powerMode: PowerMode, operatingMode: OperatingMode, pollIntervalMs: U32, idleUntil: Option<nat>)

  datatype Event = Deadline | Button(edge: Edge) | Icd

  datatype Outcome = Sleep(forMs: nat) | FactoryReset

  datatype Calibration = Calibration(dryMv: int, wetMv: int)

  const DEFAULT_CALIBRATION := Calibration(Tuning.SOIL_CAL_DEFAULT_DRY_MV, Tuning.SOIL_CAL_DEFAULT_WET_MV)

  datatype BatteryReading = BatteryReading(percent: nat, restMv: U32)

  datatype Boot = Boot(wake: WakeCause, now: nat, afterCrash: bool)

  datatype Color = Red | Yellow | Green

  datatype LedCommand = Blink(color: Color, count: nat, period: nat) | ClassifyMoisture(percent: nat)

  const CRASHED_LED := Blink(Red, Tuning.ERROR_BLINK_COUNT, Tuning.ERROR_BLINK_PERIOD)
  const REJECTED_LED := Blink(Yellow, Tuning.ERROR_BLINK_COUNT, Tuning.ERROR_BLINK_PERIOD)

  /** How long the world may take over each awaited call, and how late it may be
      when a wait or a delay is over. Each stays below 2^32 ms, 49 days. */
  datatype RawLimits = RawLimits(soil: nat, battery: nat, load: nat, store: nat, late: nat)

  type Limits = l: RawLimits | l.soil <= U32_MAX && l.battery <= U32_MAX && l.load <= U32_MAX && l.store <= U32_MAX && l.late <= U32_MAX
    witness RawLimits(0, 0, 0, 0, 0)

  /** One call to the ports: when it was made, what it said, and when it came
      back if it was awaited. */
  datatype Entry =
    | Waited(at: nat, deadline: nat, event: Event, until: nat)
    | Delayed(at: nat, duration: nat, until: nat)
    | EdgePolled(at: nat, taken: Option<Edge>)
    | LedSent(at: nat, command: LedCommand)
    | SoilRead(at: nat, mv: U32, until: nat)
    | BatteryRead(at: nat, mv: U32, until: nat)
    | IcdRead(at: nat, icd: IcdState)
    | ActiveRequested(at: nat, hold: Option<nat>)
    | SoilReported(at: nat, percent: nat)
    | BatteryReported(at: nat, reading: Option<BatteryReading>)
    | CalibrationLoaded(at: nat, calibration: Calibration, until: nat)
    | CalibrationStored(at: nat, calibration: Calibration, stored: bool, until: nat)
    | RebootCountPersisted(at: nat)

  /** What `next_event` promises: it comes back no earlier than it was called
      and no later than the deadline plus the lateness; and `Deadline` is said
      only once the deadline has come. */
  predicate WaitContract(late: nat, at: nat, deadline: nat, event: Event, until: nat)
  {
    && at <= until <= Max(at, deadline) + late
    && (event == Deadline ==> deadline <= until)
  }
}
