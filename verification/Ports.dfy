/**
 The world as a boot sees it (`core/src/ports.rs`): every port call, with a world
 that may answer anything its contract allows. The world keeps a trace of the
 calls made to it, in order.

 Time passes inside the awaited calls and nowhere else. How long each may take is
 a parameter of the world, and so is the supply of edges and notices it still
 holds: any supply, but a finite one.
 */
module Ports {
  import opened Machine
  import opened Vocabulary

  class World {
    const limits: Limits
    var clock: nat
    /** The calibration in durable storage. */
    var durable: Calibration
    /** Button edges and protocol notices still to come. */
    var supply: nat
    ghost var trace: seq<Entry>

    constructor (limits: Limits, durable: Calibration, supply: nat)
      ensures clock == 0 && this.limits == limits && this.durable == durable && this.supply == supply && trace == []
    {
      clock, this.limits, this.durable, this.supply, trace := 0, limits, durable, supply, [];
    }

    method Now() returns (now: nat)
      ensures now == clock
    {
      now := clock;
    }

    /** The device is powered down and boots again: its clock counts from the boot. */
    method Reboot()
      modifies this`clock
      ensures clock == 0
    {
      clock := 0;
    }

    /** Let the clock move on by anything up to `most`. */
    method Pass(most: nat)
      modifies this`clock
      ensures old(clock) <= clock <= old(clock) + most
    {
      assert 0 <= 0 <= most;
      var d: nat :| d <= most;
      clock := clock + d;
    }

    method Delay(d: nat)
      modifies this`clock, this`trace
      ensures old(clock) + d <= clock <= old(clock) + d + limits.late
      ensures trace == old(trace) + [Delayed(old(clock), d, clock)]
    {
      var at := clock;
      clock := clock + d;
      Pass(limits.late);
      trace := trace + [Delayed(at, d, clock)];
    }

    method NextEvent(deadline: nat) returns (event: Event)
      modifies this`clock, this`supply, this`trace
      ensures WaitContract(limits.late, old(clock), deadline, event, clock)
      ensures if event == Deadline then supply == old(supply) else supply < old(supply)
      ensures trace == old(trace) + [Waited(old(clock), deadline, event, clock)]
    {
      var at := clock;
      event := *;
      if event == Deadline || supply == 0 {
        event := Deadline;
        clock := Max(clock, deadline);
        Pass(limits.late);
      } else {
        supply := supply - 1;
        Pass(Max(clock, deadline) + limits.late - clock);
      }
      trace := trace + [Waited(at, deadline, event, clock)];
    }

    method TryNextButtonEdge() returns (edge: Option<Edge>)
      modifies this`supply, this`trace
      ensures edge.Some? ==> supply < old(supply)
      ensures edge.None? ==> supply == old(supply)
      ensures trace == old(trace) + [EdgePolled(clock, edge)]
    {
      edge := *;
      if supply == 0 {
        edge := None;
      } else if edge.Some? {
        supply := supply - 1;
      }
      trace := trace + [EdgePolled(clock, edge)];
    }

    method SendLed(command: LedCommand)
      modifies this`trace
      ensures trace == old(trace) + [LedSent(clock, command)]
    {
      trace := trace + [LedSent(clock, command)];
    }

    method ReadSoilMv() returns (mv: U32)
      modifies this`clock, this`trace
      ensures old(clock) <= clock <= old(clock) + limits.soil
      ensures trace == old(trace) + [SoilRead(old(clock), mv, clock)]
    {
      var at := clock;
      Pass(limits.soil);
      mv := *;
      trace := trace + [SoilRead(at, mv, clock)];
    }

    method ReadBatteryMv() returns (mv: U32)
      modifies this`clock, this`trace
      ensures old(clock) <= clock <= old(clock) + limits.battery
      ensures trace == old(trace) + [BatteryRead(old(clock), mv, clock)]
    {
      var at := clock;
      Pass(limits.battery);
      mv := *;
      trace := trace + [BatteryRead(at, mv, clock)];
    }

    method Icd() returns (icd: IcdState)
      modifies this`trace
      ensures trace == old(trace) + [IcdRead(clock, icd)]
    {
      icd := *;
      trace := trace + [IcdRead(clock, icd)];
    }

    method RequestActive(hold: Option<nat>)
      modifies this`trace
      ensures trace == old(trace) + [ActiveRequested(clock, hold)]
    {
      trace := trace + [ActiveRequested(clock, hold)];
    }

    method ReportSoil(percent: nat)
      modifies this`trace
      ensures trace == old(trace) + [SoilReported(clock, percent)]
    {
      trace := trace + [SoilReported(clock, percent)];
    }

    method ReportBattery(reading: Option<BatteryReading>)
      modifies this`trace
      ensures trace == old(trace) + [BatteryReported(clock, reading)]
    {
      trace := trace + [BatteryReported(clock, reading)];
    }

    method LoadCalibration() returns (calibration: Calibration)
      modifies this`clock, this`trace
      ensures old(clock) <= clock <= old(clock) + limits.load
      ensures calibration == durable
      ensures trace == old(trace) + [CalibrationLoaded(old(clock), calibration, clock)]
    {
      var at := clock;
      Pass(limits.load);
      calibration := durable;
      trace := trace + [CalibrationLoaded(at, calibration, clock)];
    }

    /** All or nothing: a calibration that could not be stored leaves the previous
        one in place. */
    method StoreCalibration(calibration: Calibration) returns (stored: bool)
      modifies this`clock, this`durable, this`trace
      ensures old(clock) <= clock <= old(clock) + limits.store
      ensures durable == if stored then calibration else old(durable)
      ensures trace == old(trace) + [CalibrationStored(old(clock), calibration, stored, clock)]
    {
      var at := clock;
      Pass(limits.store);
      stored := *;
      if stored {
        durable := calibration;
      }
      trace := trace + [CalibrationStored(at, calibration, stored, clock)];
    }

    method PersistRebootCount()
      modifies this`trace
      ensures trace == old(trace) + [RebootCountPersisted(clock)]
    {
      trace := trace + [RebootCountPersisted(clock)];
    }
  }
}
