/**
 The device's store of the two references (`fw/src/store.rs`): two keys, written one after
 the other and read one by one. The port that stands for it in a boot takes a calibration
 whole or not at all; this module says when the device's does, and what is lost when not.
 A write that fails leaves its key as it was.
 */
module FirmwareStore {
  import opened Machine
  import opened Vocabulary
  import opened Measurement
  import opened Tuning

  /** What is under the two keys, if anything is. */
  datatype Keys = Keys(dryMv: Option<int>, wetMv: Option<int>)

  /** Which of two flash operations succeed, if they are made. */
  datatype Succeeds = Succeeds(dry: bool, wet: bool)

  function OrElse(stored: Option<int>, default: int): int
  {
    match stored
    case Some(mv) => mv
    case None => default
  }

  /** A reference that cannot be read is the built-in one. */
  function Load(keys: Keys, s: Succeeds): Calibration
  {
    Calibration(if s.dry then OrElse(keys.dryMv, SOIL_CAL_DEFAULT_DRY_MV) else SOIL_CAL_DEFAULT_DRY_MV,
                if s.wet then OrElse(keys.wetMv, SOIL_CAL_DEFAULT_WET_MV) else SOIL_CAL_DEFAULT_WET_MV)
  }

  const BOTH := Succeeds(true, true)

  /** What is stored, read without a failure. */
  function Durable(keys: Keys): Calibration { Load(keys, BOTH) }

  /** The wet reference is only written after the dry one, and a store is said to have
      succeeded when both were. */
  function Store(keys: Keys, c: Calibration, s: Succeeds): (Keys, bool)
  {
    if !s.dry then (keys, false)
    else
      var dried := keys.(dryMv := Some(c.dryMv));
      if s.wet then (dried.(wetMv := Some(c.wetMv)), true) else (dried, false)
  }

  /** A store that succeeds is read back. One that fails leaves what was there, except that
      one whose second write fails has replaced the dry reference. */
  lemma StoreThenLoad(keys: Keys, c: Calibration, s: Succeeds)
    ensures var (after, stored) := Store(keys, c, s);
            && (stored <==> s.dry && s.wet)
            && Durable(after) == (if stored then c else if s.dry then Durable(keys).(dryMv := c.dryMv) else Durable(keys))
  {
  }

  /** The port's promise, all or nothing, is kept by a store exactly when it is not torn: its
      second write is not the one that fails, or the dry reference was the same. Then, and
      only then, is the calibration that stays in effect the one in storage. */
  lemma AllOrNothingExactlyWhen(keys: Keys, c: Calibration, s: Succeeds)
    ensures var (after, stored) := Store(keys, c, s);
            Durable(after) == (if stored then c else Durable(keys)) <==> !(s.dry && !s.wet) || c.dryMv == Durable(keys).dryMv
  {
  }

  /** From usable references, a store of usable ones leaves usable ones exactly when it is not
      torn, or the new dry reference is far enough above the old wet one. */
  lemma UsableExactlyWhen(keys: Keys, c: Calibration, s: Succeeds)
    requires Usable(Durable(keys)) && Usable(c)
    ensures Usable(Durable(Store(keys, c, s).0)) <==>
              !(s.dry && !s.wet) || c.dryMv - Durable(keys).wetMv >= SOIL_CAL_MIN_SPAN_MV
  {
  }

  /** Torn so that the references are reversed, a store costs the device its moisture: the
      next boot reads nothing but 0, whatever the probe says. */
  lemma ReversedReadsNothing(keys: Keys, c: Calibration, mv: int)
    requires Is16Bit(c.dryMv) && Is16Bit(Durable(keys).wetMv) && c.dryMv <= Durable(keys).wetMv
    ensures var torn := Durable(Store(keys, c, Succeeds(true, false)).0);
            SoilMoisturePercent(mv, torn.dryMv, torn.wetMv) == 0
  {
    WrapIsExact(c.dryMv - Durable(keys).wetMv);
  }

  /** Such a store: on a new device, of 800 mV and 500 mV, with the second write failing. */
  lemma AStoreCanReverse()
    ensures var c, torn := Calibration(800, 500), Durable(Store(Keys(None, None), Calibration(800, 500), Succeeds(true, false)).0);
            Usable(c) && torn == Calibration(800, 900) && !Usable(torn)
  {
  }

  /** A load gives what is stored exactly when each key it cannot read holds the built-in
      reference anyway. */
  lemma LoadsWhatIsStoredExactlyWhen(keys: Keys, s: Succeeds)
    ensures Load(keys, s) == Durable(keys) <==>
              && (s.dry || Durable(keys).dryMv == SOIL_CAL_DEFAULT_DRY_MV)
              && (s.wet || Durable(keys).wetMv == SOIL_CAL_DEFAULT_WET_MV)
  {
  }

  /** A device that was never calibrated, and one whose keys cannot be read, goes by the
      built-in references, 1600 mV dry and 900 mV wet; and these are usable. */
  lemma UncalibratedIsUsable(keys: Keys, s: Succeeds)
    requires (keys.dryMv.None? || !s.dry) && (keys.wetMv.None? || !s.wet)
    ensures Load(keys, s) == Calibration(1600, 900) && Usable(Load(keys, s))
  {
  }
}
