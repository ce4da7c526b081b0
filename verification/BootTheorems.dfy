/**
 The theorems about the operational phase, said of the calls it makes. Each holds
 for every run: any answers the ports may give, any number of rounds.
 */
module BootTheorems {
  import opened Machine
  import opened Vocabulary
  import opened Tuning
  import opened BootModel
  import opened Watching
  import opened OperationalPhase
  import Button

  /** What the wake phase hands over, at whatever instant after it the operational
      phase begins (`WakePhase.HandsOver`). */
  ghost predicate Starts(a: AppState, at: nat)
  {
    a.idleSince.None? && a.button.mode != Button.WaitRelease && a.nextSample <= at + SAMPLE_PERIOD
  }

  /** The observer of an operational phase; the watchdog was last fed at `fed`. */
  function Observer(a: AppState, fed: nat): Monitor
  {
    Monitor(None, 0, None, a.calibration, a.button.Pressed(), None, fed, 0, true, a.rebootCountDue, 0, 0)
  }

  /** How long the watchdog can have gone hungry at the head of the loop. */
  function HeadHunger(l: Limits, at: nat, fed: nat): nat
  {
    Max(SAMPLE_PERIOD + l.late, Since(at, fed))
  }

  lemma RunIsFollowed(l: Limits, a: AppState, at: nat, fed: nat, laps: seq<Lap>)
    requires Starts(a, at) && fed <= at && IsRun(l, a, at, laps)
    ensures Followed(l, HeadHunger(l, at, fed), !a.rebootCountPersisted, Observer(a, fed), Outcomes(a, at, laps))
  {
    hide Outcomes, IsRun;
    RunTracks(l, HeadHunger(l, at, fed), !a.rebootCountPersisted, a, at, Observer(a, fed), laps);
  }

  /** What the calls of a boot that slept at `now` for `forMs` say:
      - `read` is the last reading of the stack, made at this very instant, and it
        said long-idle and idle;
      - an unbroken run of idle readings up to it began with `since`, at least the
        settle delay ago;
      - the edge queue was seen empty by `empty`, at this instant, and nothing was
        taken or awaited after;
      - the last edge the boot took was not a press;
      - the sleep is the poll interval, cut short at the end of the idle period, and
        never under a second. */
  ghost predicate SleptSafely(t: seq<Entry>, pinDown: bool, now: nat, forMs: nat, read: nat, since: nat, empty: nat)
  {
    && LastRead(t, read) && t[read].at == now
    && t[read].icd.operatingMode == Lit && t[read].icd.powerMode == PowerMode.Idle
    && since < |t| && IdleFrom(t, since, t[since].at) && t[since].at + SLEEP_SETTLE <= now
    && SeenEmpty(t, empty) && t[empty].at == now
    && LastEdge(t, Level(pinDown), Rising)
    && var poll := t[read].icd.pollIntervalMs;
       var left := if t[read].icd.idleUntil.Some? then Since(t[read].icd.idleUntil.value, now) else poll;
       forMs == Max(SLEEP_MIN, Min(poll, left))
  }

  /** Whenever a boot sleeps, it slept safely; the button is at rest, and neither a
      calibration nor a reading is due. */
  lemma SleepIsSafe(l: Limits, a: AppState, at: nat, laps: seq<Lap>, b: AppState, now: nat, forMs: nat)
    returns (read: nat, since: nat, empty: nat)
    requires Starts(a, at) && IsRun(l, a, at, laps)
    requires Outcomes(a, at, laps).config == Ended(Sleep(forMs), b, now)
    ensures SleptSafely(Outcomes(a, at, laps).trace, a.button.Pressed(), now, forMs, read, since, empty)
    ensures b.button.mode == Button.Mode.Idle && !b.calibrationRequested && now < b.nextSample
  {
    hide Outcomes, IsRun, Watch;
    RunIsFollowed(l, a, at, at, laps);
    read, since, empty := SafeSleepInTrace(Observer(a, at), Outcomes(a, at, laps).trace, b, now, forMs);
  }

  lemma SafeSleepInTrace(m: Monitor, t: seq<Entry>, b: AppState, now: nat, forMs: nat)
    returns (read: nat, since: nat, empty: nat)
    requires m.icd.None? && m.idleSince.None? && m.emptyAt.None?
    requires SafeToSleep(b, now, Watch(m, t), forMs)
    ensures SleptSafely(t, m.pinDown, now, forMs, read, since, empty)
  {
    hide Watch, LastEdge;
    read := LastReadMeans(m, t);
    since := IdleSinceMeans(m, t);
    empty := EmptyMeans(m, t);
    LastEdgeMeans(m, t);
  }

  /** Every wait of the operational phase is for an instant still to come, so the
      simulator's check for a wait that nothing can end never fails. */
  lemma WaitsAreInTheFuture(l: Limits, a: AppState, at: nat, laps: seq<Lap>)
    requires Starts(a, at) && IsRun(l, a, at, laps)
    ensures var t := Outcomes(a, at, laps).trace;
            forall i :: 0 <= i < |t| && t[i].Waited? ==> t[i].at < t[i].deadline
  {
    RunIsFollowed(l, a, at, at, laps);
    InFutureMeans(Observer(a, at), Outcomes(a, at, laps).trace);
  }

  /** From a feed at `fed` before the calls, and to an end at `end` after them, the
      watchdog never waits longer than `bound`. */
  ghost predicate FedWithin(t: seq<Entry>, fed: nat, end: nat, bound: nat)
  {
    && (forall i: nat, j: nat :: NextFeed(t, i, j) ==> Since(t[j].at, t[i].at) <= bound)
    && (forall j: nat :: FirstFeed(t, j) ==> Since(t[j].at, fed) <= bound)
    && (forall i: nat :: LastFeed(t, i) ==> Since(end, t[i].at) <= bound)
    && ((forall i :: 0 <= i < |t| ==> !Feeds(t[i])) ==> Since(end, fed) <= bound)
  }

  /** Calls after calls. */
  lemma FedOn(s: seq<Entry>, fed: nat, middle: nat, t: seq<Entry>, end: nat, bound: nat)
    requires FedWithin(s, fed, middle, bound) && FedWithin(t, FedLast(s, fed), end, bound)
    ensures FedWithin(s + t, fed, end, bound)
  {
    var u := s + t;
    FedLastMeans(s, fed);
    assert forall i :: 0 <= i < |s| ==> u[i] == s[i];
    assert forall i :: 0 <= i < |t| ==> u[|s| + i] == t[i];
    hide Feeds, FedLast;
    forall i: nat, j: nat | NextFeed(u, i, j) ensures Since(u[j].at, u[i].at) <= bound {
      if j < |s| {
        assert NextFeed(s, i, j);
      } else if i >= |s| {
        assert NextFeed(t, i - |s|, j - |s|);
      } else {
        assert LastFeed(s, i);
        assert FirstFeed(t, j - |s|);
      }
    }
    forall j: nat | FirstFeed(u, j) ensures Since(u[j].at, fed) <= bound {
      if j < |s| {
        assert FirstFeed(s, j);
      } else {
        assert forall k :: 0 <= k < |s| ==> !Feeds(u[k]);
        assert FirstFeed(t, j - |s|);
      }
    }
    forall i: nat | LastFeed(u, i) ensures Since(end, u[i].at) <= bound {
      if i < |s| {
        assert LastFeed(s, i);
        forall k | 0 <= k < |t| ensures !Feeds(t[k]) {
          assert !Feeds(u[|s| + k]);
        }
      } else {
        assert LastFeed(t, i - |s|);
      }
    }
    if forall i :: 0 <= i < |u| ==> !Feeds(u[i]) {
      assert forall i :: 0 <= i < |s| ==> !Feeds(u[i]);
      forall k | 0 <= k < |t| ensures !Feeds(t[k]) {
        assert !Feeds(u[|s| + k]);
      }
    }
  }

  lemma FedLooser(t: seq<Entry>, fed: nat, end: nat, bound: nat, looser: nat)
    requires FedWithin(t, fed, end, bound) && bound <= looser
    ensures FedWithin(t, fed, end, looser)
  {
  }

  /** How long ago the watchdog was fed when the calls are over. */
  lemma FedAtTheEnd(t: seq<Entry>, fed: nat, end: nat, bound: nat)
    requires FedWithin(t, fed, end, bound)
    ensures Since(end, FedLast(t, fed)) <= bound
  {
    FedLastMeans(t, fed);
  }

  /** The watchdog is fed within `HungerBound` all through a run. */
  lemma WatchdogIsFed(l: Limits, a: AppState, at: nat, fed: nat, laps: seq<Lap>)
    requires Starts(a, at) && fed <= at && IsRun(l, a, at, laps)
    ensures var run := Outcomes(a, at, laps); FedWithin(run.trace, fed, run.config.at, HungerBound(l, HeadHunger(l, at, fed)))
  {
    RunIsFollowed(l, a, at, fed, laps);
    hide Outcomes, IsRun, Watch, HungerBound;
    GapsInTrace(Observer(a, fed), Outcomes(a, at, laps).trace, Outcomes(a, at, laps).config.at, HungerBound(l, HeadHunger(l, at, fed)));
  }

  lemma GapsInTrace(m: Monitor, t: seq<Entry>, end: nat, bound: nat)
    requires Watch(m, t).worstGap <= bound && Since(end, Watch(m, t).lastFeed) <= bound
    ensures FedWithin(t, m.lastFeed, end, bound)
  {
    hide Watch;
    forall i: nat, j: nat | NextFeed(t, i, j) ensures Since(t[j].at, t[i].at) <= bound {
      WorstGapMeans(m, t, i, j);
    }
    forall j: nat | FirstFeed(t, j) ensures Since(t[j].at, m.lastFeed) <= bound {
      FirstGapMeans(m, t, j);
    }
    forall i: nat | LastFeed(t, i) ensures Since(end, t[i].at) <= bound {
      LastFeedMeans(m, t, i);
    }
    if forall i :: 0 <= i < |t| ==> !Feeds(t[i]) {
      NotFed(m, t);
    }
  }

  /** With readings, a store and a lateness that together stay under 25 seconds, and
      less than a minute since the last feed where a phase begins, the watchdog's two
      minutes are never used up: `g` is that minute, or what a wait of the phase takes. */
  lemma WatchdogHasAMargin(l: Limits, g: nat)
    requires l.soil + l.battery + l.store + l.late < 25_000 && g < 60_000
    ensures HungerBound(l, g) < WATCHDOG_TIMEOUT
    ensures HeadHunger(l, g, 0) < 60_000 && HungerBound(l, HeadHunger(l, g, 0)) < WATCHDOG_TIMEOUT
  {
  }

  /** The reboot count is written at most once in a boot and not at all by a wake
      from sleep; a counted boot that sleeps has written it exactly once; and no
      write is early but the one a boot makes as the last thing before it sleeps. */
  lemma RebootCountIsWrittenOnce(l: Limits, a: AppState, at: nat, laps: seq<Lap>)
    requires Starts(a, at) && IsRun(l, a, at, laps)
    ensures var run := Outcomes(a, at, laps);
            var slept := run.config.Ended? && run.config.outcome.Sleep?;
            && WritesIn(run.trace) <= (if a.rebootCountPersisted then 0 else 1)
            && (slept ==> WritesIn(run.trace) == if a.rebootCountPersisted then 0 else 1)
            && WrittenInTime(run.trace, a.rebootCountDue, slept)
  {
    hide Outcomes, IsRun, Watch, WritesIn;
    RunIsFollowed(l, a, at, at, laps);
    WritesInTrace(Observer(a, at), Outcomes(a, at, laps).trace);
    WritesMean(Observer(a, at), Outcomes(a, at, laps).trace);
  }

  /** No write is early, but perhaps the last call of a boot that sleeps. */
  ghost predicate WrittenInTime(t: seq<Entry>, due: nat, slept: bool)
  {
    forall i :: 0 <= i < |t| && t[i].RebootCountPersisted? ==> t[i].at >= due || (slept && i == |t| - 1)
  }

  lemma WritesInTrace(m: Monitor, t: seq<Entry>)
    requires m.early == 0 && m.writes == 0 && Watch(m, t).writes <= 1
    ensures Watch(m, t).early == 0 ==> WrittenInTime(t, m.due, false)
    ensures t != [] && t[|t| - 1].RebootCountPersisted? ==> WrittenInTime(t, m.due, true)
  {
    WritesMean(m, t);
    if t != [] && t[|t| - 1].RebootCountPersisted? {
      NoWrites(t[..|t| - 1]);
    }
  }

  lemma {:induction false} NoWrites(t: seq<Entry>)
    requires WritesIn(t) == 0
    ensures forall i :: 0 <= i < |t| ==> !t[i].RebootCountPersisted?
  {
    if t != [] {
      NoWrites(t[..|t| - 1]);
    }
  }

  /** The calibration in effect is the one in storage: what was loaded, or the last
      one that was stored since. */
  lemma CalibrationIsTheStoredOne(l: Limits, a: AppState, at: nat, laps: seq<Lap>)
    requires Starts(a, at) && IsRun(l, a, at, laps)
    ensures var run := Outcomes(a, at, laps); run.config.app.calibration == StoredAfter(a.calibration, run.trace)
  {
    RunIsFollowed(l, a, at, at, laps);
    StoredMeans(Observer(a, at), Outcomes(a, at, laps).trace);
  }

  /** At every head of the loop the button knows the level of the pin, and does not
      wait for the release that follows a reset. */
  lemma HeadsKnowThePin(l: Limits, a: AppState, at: nat, laps: seq<Lap>)
    requires Starts(a, at) && IsRun(l, a, at, laps) && Outcomes(a, at, laps).config.Running?
    ensures var button := Outcomes(a, at, laps).config.app.button;
            && LastEdge(Outcomes(a, at, laps).trace, Level(a.button.Pressed()), Level(button.Pressed()))
            && button.mode != Button.WaitRelease
  {
    RunIsFollowed(l, a, at, at, laps);
    LastEdgeMeans(Observer(a, at), Outcomes(a, at, laps).trace);
  }

  /** A boot ends in a factory reset only with the button still down. */
  lemma ResetHoldsTheButton(l: Limits, a: AppState, at: nat, laps: seq<Lap>)
    requires Starts(a, at) && IsRun(l, a, at, laps)
    requires var c := Outcomes(a, at, laps).config; c.Ended? && c.outcome.FactoryReset?
    ensures LastEdge(Outcomes(a, at, laps).trace, Level(a.button.Pressed()), Falling)
    ensures Outcomes(a, at, laps).config.app.button.mode == Button.WaitRelease
  {
    RunIsFollowed(l, a, at, at, laps);
    LastEdgeMeans(Observer(a, at), Outcomes(a, at, laps).trace);
  }
}
