/**
 A boot that the world lets go to sleep does sleep, and soon: from every head of the
 loop it comes to, within a few waits and a bounded time, whatever was due when the
 world fell quiet; unless the button is down, and then it may come to a reset.
 */
module Progress {
  import opened Machine
  import opened Vocabulary
  import opened Tuning
  import opened BootModel
  import opened OperationalPhase
  import Button
  import BootTheorems
  import Measurement

  /** No edge any more, and a stack that says long-idle and idle whenever it is read.
      Notices of the stack may still come. */
  predicate QuietRound(x: Answers)
  {
    && !x.event.Button? && x.edges == []
    && x.icd.operatingMode == Lit && x.icd.powerMode == PowerMode.Idle
  }

  ghost predicate Quiet(laps: seq<Lap>)
  {
    forall i {:trigger laps[i]} :: 0 <= i < |laps| ==> QuietRound(laps[i].answers)
  }

  function Notices(laps: seq<Lap>): nat
  {
    if laps == [] then 0 else Notices(laps[..|laps| - 1]) + if laps[|laps| - 1].answers.event == Icd then 1 else 0
  }

  /** The button waits for nothing further away than the hold. */
  predicate Near(f: Button.Fsm, at: nat)
  {
    f.NextDeadline().Some? ==> f.deadline <= at + BUTTON_FACTORY_RESET_HOLD
  }

  /** What holds at every head of the loop (`EveryHeadIsReady`). */
  ghost predicate Ready(a: AppState, at: nat)
  {
    && a.button.mode != Button.WaitRelease && Near(a.button, at)
    && a.nextSample <= at + SAMPLE_PERIOD
    && (a.idleSince.Some? ==> a.idleSince.value <= at)
  }

  /** What stands between a boot with its button at rest and its sleep: the reboot count,
      to be waited for and written, and the settle delay, to be begun and waited for, with
      one sample that may come first. */
  function Settling(a: AppState, at: nat): nat
  {
    (if a.rebootCountPersisted then 0 else if at < a.rebootCountDue then 2 else 1)
    + match a.idleSince
      case None => 2
      case Some(since) =>
        if at >= since + SLEEP_SETTLE then 0
        else if at < a.nextSample <= since + SLEEP_SETTLE then 2
        else 1
  }

  /** What stands between the button and rest, or a reset: its deadlines, and a sample that
      may come before each of them. */
  function Pressing(a: AppState, at: nat): nat
  {
    2 * Button.Rank(a.button.mode)
    + if a.button.NextDeadline().Some? && at < a.nextSample < a.button.deadline then 1 else 0
  }

  function Distance(a: AppState, at: nat): nat { Settling(a, at) + Pressing(a, at) }

  /** The most one round of the loop can take. */
  function LapMost(l: Limits): nat
  {
    2 * SOIL_CAL_HOLD + 3 * l.soil + l.store + l.battery + SAMPLE_PERIOD + 3 * l.late
  }

  lemma DueComesNoFurther(l: Limits, a: AppState, at: nat, d: DueAnswers)
    requires Ready(a, at) && at <= HORIZON && DueLegal(l, a, at, d)
    ensures var b, now := DueDone(a, at, d), DueAt(a, at, d);
            && Ready(b, now) && at <= now <= HORIZON + 0x10_0000_0000 && now < b.nextSample
            && now + SAMPLE_PERIOD + l.late <= at + LapMost(l)
            && Settling(b, now) <= Settling(a, at) && Pressing(b, now) <= Pressing(a, at) && b.button == a.button
  {
    DueTakes(l, a, at, d);
    assert SampleIsDue(a, at, d.flow) ==> DueDone(a, at, d).nextSample == SatAdd(DueAt(a, at, d), SAMPLE_PERIOD);
    hide DueLegal;
  }

  /** The decision brings a boot to its sleep, or to a wait no further from it: the reboot
      count is written, or the boot waits for its settle delay or its button. */
  lemma DecisionComesNearer(a: AppState, now: nat, x: Answers)
    requires Ready(a, now) && now <= HORIZON + 0x10_0000_0000 && now < a.nextSample && QuietRound(x)
    ensures var turn := Decide(a, now, x.icd, x.edges);
            match turn.outcome
            case Some(o) => o.Sleep?
            case None =>
              && turn.app == a.(rebootCountPersisted := turn.app.rebootCountPersisted, idleSince := turn.app.idleSince)
              && Ready(turn.app, now) && Settling(turn.app, now) <= Settling(a, now)
              && if turn.app.rebootCountPersisted != a.rebootCountPersisted then Settling(turn.app, now) < Settling(a, now)
                 else Waits(turn.app, now)
  {
  }

  /** A boot that has done what it can, and does not sleep yet. */
  predicate Waits(a: AppState, now: nat)
  {
    && a.idleSince.Some? && (a.button.IsActive() || now < a.idleSince.value + SLEEP_SETTLE)
    && (a.rebootCountPersisted || now < a.rebootCountDue)
  }

  /** A deadline of the button that has come brings it nearer, and so does a sample that
      came before it. */
  lemma ButtonComesNearer(a: AppState, now: nat, event: Event, until: nat)
    requires Ready(a, now) && now < a.nextSample && now <= until && !event.Button?
    ensures var after := OnEvent(a, event, until);
            match after.outcome
            case Some(o) => o.FactoryReset? && a.button.Pressed()
            case None =>
              && after.app == a.(button := after.app.button, nextSample := after.app.nextSample,
                                 sampleWithLed := after.app.sampleWithLed, calibrationRequested := after.app.calibrationRequested)
              && Ready(after.app, until) && (after.app.button.Pressed() ==> a.button.Pressed())
              && (after.app.nextSample == a.nextSample || after.app.nextSample == until)
              && Pressing(after.app, until) <= Pressing(a, now)
              && (a.button.NextDeadline().Some? && (if a.nextSample < a.button.deadline then a.nextSample <= until else event == Deadline && a.button.deadline <= until) ==>
                    Pressing(after.app, until) < Pressing(a, now))
  {
  }

  /** A sample that comes before the settle delay is over, the settle delay and the reboot
      count bring the sleep nearer once they have come. */
  lemma SettlingComesNearer(a: AppState, now: nat, until: nat, b: AppState)
    requires Ready(a, now) && now < a.nextSample && now <= until
    requires b.idleSince == a.idleSince && b.rebootCountPersisted == a.rebootCountPersisted && b.rebootCountDue == a.rebootCountDue
    requires b.nextSample == a.nextSample || b.nextSample == until
    ensures Settling(b, until) <= Settling(a, now)
    ensures !a.rebootCountPersisted && now < a.rebootCountDue <= until ==> Settling(b, until) < Settling(a, now)
    ensures a.idleSince.Some? && now < a.idleSince.value + SLEEP_SETTLE && Min(a.nextSample, a.idleSince.value + SLEEP_SETTLE) <= until ==>
              Settling(b, until) < Settling(a, now)
  {
  }

  /** The first of the things to come is one of these. */
  lemma FirstToCome(a: AppState, now: nat, until: nat)
    requires Ready(a, now) && now <= HORIZON + 0x10_0000_0000 && now < a.nextSample
    requires Waits(a, now) && NextDeadline(a, now) <= until
    ensures || (!a.rebootCountPersisted && now < a.rebootCountDue <= until)
            || (now < a.idleSince.value + SLEEP_SETTLE && Min(a.nextSample, a.idleSince.value + SLEEP_SETTLE) <= until)
            || (a.button.NextDeadline().Some? && (if a.nextSample < a.button.deadline then a.nextSample <= until else a.button.deadline <= until))
  {
    DeadlineIsNext(a, now);
    var settled := a.idleSince.value + SLEEP_SETTLE;
    assert SettleCandidate(a) == Some(settled) && IsCandidate(a, settled) && IsCandidate(a, a.nextSample);
    if a.button.NextDeadline().Some? {
      assert IsCandidate(a, a.button.deadline);
    }
  }

  /** Time alone, and what the button makes of it, take no boot further from its sleep; and
      the first of the things to come, once it has come, has brought it nearer. */
  lemma TimeComesNearer(a: AppState, now: nat, event: Event, until: nat)
    requires Ready(a, now) && now <= HORIZON + 0x10_0000_0000 && now < a.nextSample && now <= until
    requires !event.Button? && (event == Deadline ==> NextDeadline(a, now) <= until)
    ensures var after := OnEvent(a, event, until);
            match after.outcome
            case Some(o) => o.FactoryReset? && a.button.Pressed()
            case None =>
              && Ready(after.app, until) && Settling(after.app, until) <= Settling(a, now) && Pressing(after.app, until) <= Pressing(a, now)
              && (event == Deadline && Waits(a, now) ==> Distance(after.app, until) < Distance(a, now))
              && (after.app.button.Pressed() ==> a.button.Pressed())
  {
    var after := OnEvent(a, event, until);
    ButtonComesNearer(a, now, event, until);
    hide OnEvent, NextDeadline, Settling, Pressing, Ready;
    if after.outcome.None? {
      SettlingComesNearer(a, now, until, after.app);
      if event == Deadline && Waits(a, now) {
        FirstToCome(a, now, until);
      }
    }
  }

  /** What a round did: a boot that has ended sleeps, or was reset with the button down; one
      that goes on is as near, and nearer if its wait ended at a deadline. */
  ghost predicate Nearer(a: AppState, at: nat, event: Event, c: Config)
  {
    match c
    case Ended(o, _, _) => o.Sleep? || a.button.Pressed()
    case Running(b, t) =>
      && Ready(b, t) && Distance(b, t) + (if event == Deadline then 1 else 0) <= Distance(a, at)
      && (b.button.Pressed() ==> a.button.Pressed())
  }

  /** With nothing due, the boot sleeps or comes to a wait; a wait that ends at its deadline
      brings the sleep nearer, and no notice takes it further away. */
  lemma WaitComesNearer(l: Limits, a: AppState, now: nat, x: Answers)
    requires Ready(a, now) && now <= HORIZON + 0x10_0000_0000 && now < a.nextSample && QuietRound(x)
    requires var turn := Decide(a, now, x.icd, x.edges);
             turn.outcome.None? ==> WaitContract(l.late, now, NextDeadline(turn.app, now), x.event, x.until)
    ensures var turn := Decide(a, now, x.icd, x.edges);
            match turn.outcome
            case Some(o) => o.Sleep?
            case None =>
              var after := OnEvent(turn.app, x.event, x.until);
              && Nearer(a, now, x.event, if after.outcome.Some? then Ended(after.outcome.value, after.app, x.until) else Running(after.app, x.until))
              && x.until <= now + SAMPLE_PERIOD + l.late
  {
    var turn := Decide(a, now, x.icd, x.edges);
    DecisionComesNearer(a, now, x);
    if turn.outcome.None? {
      DeadlineIsNext(turn.app, now);
      assert IsCandidate(turn.app, turn.app.nextSample);
      assert turn.app.nextSample <= now + SAMPLE_PERIOD && Pressing(turn.app, now) == Pressing(a, now);
      hide Decide, NextDeadline, Settling, Pressing, Ready, OnEvent, Waits;
      TimeComesNearer(turn.app, now, x.event, x.until);
    }
  }

  lemma RoundComesNearer(l: Limits, a: AppState, at: nat, x: Answers)
    requires Ready(a, at) && RoundLegal(l, a, at, x) && QuietRound(x)
    ensures Nearer(a, at, x.event, Round(a, at, x).config)
    ensures Round(a, at, x).config.at <= at + LapMost(l)
  {
    hide DueDone, DueAt, DueLegal, Decide, OnEvent, NextDeadline, Settling, Pressing, Ready, LapMost;
    DueComesNoFurther(l, a, at, x.due);
    WaitComesNearer(l, DueDone(a, at, x.due), DueAt(a, at, x.due), x);
  }

  /** From a head of the loop, through a quiet world: the boot waits at most its distance
      from sleep more often than the stack sends notices, and then it has ended. It sleeps,
      or it is reset, which it is only if the button was down. */
  lemma {:induction false} EndsSoon(l: Limits, a: AppState, at: nat, laps: seq<Lap>)
    requires Ready(a, at) && IsRun(l, a, at, laps) && Quiet(laps)
    ensures match Outcomes(a, at, laps).config
            case Ended(o, _, _) => (o.Sleep? || a.button.Pressed()) && |laps| <= Distance(a, at) + Notices(laps) + 1
            case Running(b, t) =>
              && Ready(b, t) && |laps| + Distance(b, t) <= Distance(a, at) + Notices(laps) && (b.button.Pressed() ==> a.button.Pressed())
  {
    if laps != [] {
      LastLap(l, a, at, laps);
      hide Round, RoundLegal, Ready, IsRun, Distance, LapMost;
      var most, lap := laps[..|laps| - 1], laps[|laps| - 1];
      EndsSoon(l, a, at, most);
      RoundComesNearer(l, lap.app, lap.at, lap.answers);
    }
  }

  /** And every round of it is a short one. */
  lemma {:induction false} TakesNoLonger(l: Limits, a: AppState, at: nat, laps: seq<Lap>)
    requires Ready(a, at) && IsRun(l, a, at, laps) && Quiet(laps)
    ensures Outcomes(a, at, laps).config.at <= at + LapMost(l) * |laps|
  {
    if laps != [] {
      LastLap(l, a, at, laps);
      var most, lap := laps[..|laps| - 1], laps[|laps| - 1];
      EndsSoon(l, a, at, most);
      hide Round, RoundLegal, Ready, IsRun, Distance, LapMost, Notices;
      RoundComesNearer(l, lap.app, lap.at, lap.answers);
      TakesNoLonger(l, a, at, most);
      Measurement.OneMore(LapMost(l), |laps|);
    }
  }

  /** The distance is at most four waits with the button at rest, and at most nine with it
      anywhere; so the boot has ended after ten rounds and one for each notice, and within
      that many times the longest round, even with a calibration, a reading and the reboot
      count still to come. */
  lemma SleepsSoon(l: Limits, a: AppState, at: nat, laps: seq<Lap>)
    requires Ready(a, at) && IsRun(l, a, at, laps) && Quiet(laps)
    ensures var c, most := Outcomes(a, at, laps).config, MostWaits(a) + Notices(laps);
            && |laps| <= (if c.Running? then most else most + 1)
            && (c.Ended? && !a.button.Pressed() ==> c.outcome.Sleep?)
            && c.at <= at + LapMost(l) * (most + 1)
  {
    hide *;
    EndsSoon(l, a, at, laps);
    TakesNoLonger(l, a, at, laps);
    DistanceIsBounded(a, at);
    MoreRounds(|laps|, MostWaits(a) + Notices(laps) + 1, LapMost(l));
  }

  function MostWaits(a: AppState): nat { if a.button.mode == Button.Mode.Idle then 4 else 9 }

  lemma DistanceIsBounded(a: AppState, at: nat)
    ensures Distance(a, at) <= MostWaits(a)
  {
  }

  lemma MoreRounds(n: nat, most: nat, each: nat)
    requires n <= most
    ensures each * n <= each * most
  {
    Measurement.ProductMonotone(n, most, each);
  }

  // Every head is ready.

  lemma {:induction false} DrainedIsNear(f: Button.Fsm, edges: seq<Edge>, now: nat)
    requires Near(f, now)
    ensures Near(Drained(f, edges, now), now)
  {
    if edges != [] {
      DrainedIsNear(f, edges[..|edges| - 1], now);
    }
  }

  lemma RoundStaysNear(l: Limits, a: AppState, at: nat, x: Answers)
    requires Near(a.button, at) && RoundLegal(l, a, at, x) && a.nextSample <= at + SAMPLE_PERIOD
    ensures Near(Round(a, at, x).config.app.button, Round(a, at, x).config.at)
  {
    DueTakes(l, a, at, x.due);
    DrainedIsNear(a.button, x.edges, DueAt(a, at, x.due));
    DecisionButton(DueDone(a, at, x.due), DueAt(a, at, x.due), x);
    var b, now := Decision(a, at, x).app, DueAt(a, at, x.due);
    EventStaysNear(b, now, x.event, Max(now, x.until));
    hide DueDone, DueAt, DueLegal, Decide, Drained, OnEvent, NextDeadline, Near;
  }

  lemma EventStaysNear(a: AppState, now: nat, event: Event, until: nat)
    requires Near(a.button, now) && now <= until
    ensures Near(OnEvent(a, event, until).app.button, until)
  {
  }

  lemma DecisionButton(a: AppState, now: nat, x: Answers)
    ensures var button := Decide(a, now, x.icd, x.edges).app.button; button == a.button || button == Drained(a.button, x.edges, now)
  {
    hide Drained, Taken, SleepFor;
  }

  /** Every head of the loop that a run comes to, with the button in any state, is such a
      head, so from there on the bounds hold. */
  lemma {:induction false} EveryHeadIsReady(l: Limits, a: AppState, at: nat, laps: seq<Lap>)
    requires BootTheorems.Starts(a, at) && Near(a.button, at) && IsRun(l, a, at, laps)
    ensures var c := Outcomes(a, at, laps).config; Near(c.app.button, c.at) && (c.Running? ==> Ready(c.app, c.at))
  {
    BootTheorems.RunIsFollowed(l, a, at, at, laps);
    if laps != [] {
      LastLap(l, a, at, laps);
      hide Round, RoundLegal, IsRun, Near;
      var most, lap := laps[..|laps| - 1], laps[|laps| - 1];
      EveryHeadIsReady(l, a, at, most);
      RoundStaysNear(l, lap.app, lap.at, lap.answers);
    }
  }
}
