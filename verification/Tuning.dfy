/** The numbers the device's behaviour depends on. Durations in milliseconds. */
module Tuning {

  // The soil probe.
  const SOIL_EXCITATION_SETTLE: nat := 300
  const SOIL_SAMPLE_COUNT: nat := 10
  const SOIL_SAMPLE_GAP: nat := 50
  const SOIL_CAL_DEFAULT_DRY_MV: int := 1600
  const SOIL_CAL_DEFAULT_WET_MV: int := 900
  const SOIL_CAL_MIN_SPAN_MV: int := 200
  const SOIL_CAL_HOLD: nat := 10_000
  const SOIL_CAL_BLINK_PERIOD: nat := 500
  const SOIL_REPORT_DELTA_PERCENT: nat := 2
  const ERROR_BLINK_COUNT: nat := 5
  const ERROR_BLINK_PERIOD: nat := 100

  // The cell.
  const BATTERY_SAMPLE_COUNT: nat := 5
  const BATTERY_SAMPLE_GAP: nat := 20
  const BATTERY_PRESENT_MIN_MV: nat := 800
  const BATTERY_REPORT_DELTA_MV: nat := 20

  /** One point of a battery curve. */
  datatype Point = Point(mv: int, permille: nat)

  const BATTERY_CURVE: seq<Point> :=
    [Point(1100, 0), Point(1150, 30), Point(1200, 100), Point(1250, 400), Point(1300, 800), Point(1350, 1000)]

  // The button.
  const BUTTON_DEBOUNCE: nat := 20
  const BUTTON_TRIPLE_CLICK_WINDOW: nat := 400
  const BUTTON_FACTORY_RESET_HOLD: nat := 10_000
  const BUTTON_WAKE_HOLD: nat := 30_000

  // Cadence, reachability, recovery and sleep.
  const SAMPLE_PERIOD: nat := 30_000
  const REBOOT_COUNT_HEALTHY_AFTER: nat := 60_000
  const LIT_POLL_PERIOD_MS: nat := 1_800_000
  const ACTIVE_HOLD: nat := 1_000
  const CALIBRATION_ACTIVE_HOLD: nat := 60_000
  const WATCHDOG_TIMEOUT: nat := 120_000
  const CRASH_LOOP_BOOTS: nat := 3
  const CRASH_LOOP_BACK_OFF: nat := LIT_POLL_PERIOD_MS
  const SLEEP_SETTLE: nat := 500
  const SLEEP_MIN: nat := 1_000
}
