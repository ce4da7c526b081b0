/**
 The waking press in the simulator. Its world leaves the edge that caused the wake in the
 queue and gives every edge to the boot as soon as both are there, so what it delivers is
 on time for the presses of the queue, in the time of the boot; and the wake phase asks
 for what the first gesture of those presses means.
 */
module SimulatedPress {
  import opened Machine
  import opened Vocabulary
  import opened BootModel
  import opened Simulator
  import opened Gestures
  import opened Button
  import Simulation
  import WakePhase
  import BootTheorems
  import opened Watching
  import WakingPress
  import Tuning
  import Device
  import Answering

  /** The edges of a list of presses, as the simulator schedules them. */
  ghost predicate IsScheduleOf(queue: seq<Scheduled>, ps: seq<Press>)
  {
    && |queue| == 2 * |ps|
    && (forall i {:trigger ps[i]} :: 0 <= i < |ps| ==> queue[2 * i] == Scheduled(ps[i].down, Falling) && queue[2 * i + 1] == Scheduled(ps[i].up, Rising))
  }

  /** The presses as a boot hears of them; what happened before it happens as it begins. */
  function InTheBoot(ps: seq<Press>, bootAt: nat): (r: seq<Press>)
    ensures |r| == |ps|
    ensures forall i {:trigger r[i]} :: 0 <= i < |r| ==> r[i] == Press(InBoot(ps[i].down, bootAt), InBoot(ps[i].up, bootAt))
  {
    seq(|ps|, i requires 0 <= i < |ps| => Press(InBoot(ps[i].down, bootAt), InBoot(ps[i].up, bootAt)))
  }

  lemma StillInOrder(ps: seq<Press>, bootAt: nat)
    requires InOrder(ps)
    ensures InOrder(InTheBoot(ps, bootAt))
  {
    var r := InTheBoot(ps, bootAt);
    forall i | 0 < i < |r| ensures r[i - 1].up <= r[i].down {
      assert ps[i - 1].up <= ps[i].down;
    }
    forall i | 0 <= i < |r| ensures r[i].down <= r[i].up <= HORIZON {
      InOrderBounds(ps, i);
    }
  }

  /** The edges of a schedule are in order. */
  lemma EdgesInOrder(queue: seq<Scheduled>, ps: seq<Press>, n: nat)
    requires IsScheduleOf(queue, ps) && InOrder(ps) && n + 1 < |queue|
    ensures queue[n].at <= queue[n + 1].at
  {
    var i := n / 2;
    InOrderBounds(ps, i);
    if n % 2 == 0 {
      assert queue[2 * i] == queue[n] && queue[2 * i + 1] == queue[n + 1] && ps[i].down <= ps[i].up;
    } else {
      assert queue[2 * i + 1] == queue[n] && queue[2 * (i + 1)] == queue[n + 1] && ps[i].up <= ps[i + 1].down;
    }
  }

  /** Edge `n` of the queue is edge `n - 1` of a list whose first press is down already. */
  lemma EdgeAfterTheFirst(queue: seq<Scheduled>, ps: seq<Press>, bootAt: nat, n: nat)
    requires IsScheduleOf(queue, ps) && 0 < n
    ensures WakingPress.NthEdge(InTheBoot(ps, bootAt), n - 1) ==
            if n < |queue| then Some(EdgeAt(queue[n].edge, InBoot(queue[n].at, bootAt))) else None
  {
    if n < |queue| {
      var i := n / 2;
      var r := InTheBoot(ps, bootAt);
      assert r[i] == Press(InBoot(ps[i].down, bootAt), InBoot(ps[i].up, bootAt));
      if n % 2 == 1 {
        assert queue[2 * i + 1] == queue[n] && (n - 1) / 2 == i;
      } else {
        assert queue[2 * i] == queue[n] && (n - 1) / 2 + 1 == i;
      }
    }
  }

  /** Where an undecided press stands that has been given `n` edges by `t`: nothing but the
      edge that caused the wake has passed it by, and the next edge and its deadline are
      still to come. */
  predicate Standing(queue: seq<Scheduled>, bootAt: nat, n: nat, k: nat, f: Fsm, t: nat)
  {
    && t <= f.deadline && (n < |queue| ==> t <= InBoot(queue[n].at, bootAt))
    && if n == 0 then k == 0 && f == Fresh(true, 0) else k == n - 1
  }

  /** An undecided button is never left behind by what came by its deadline. */
  lemma NotLeftBehind(f: Fsm, d: Delivery)
    requires f.WakingPressPending() && d.until <= f.deadline && d.until <= HORIZON + 10_000 && (d.event == Deadline ==> d.until == f.deadline)
    ensures WakePhase.Handled(f, d).0.waking ==> d.until <= WakePhase.Handled(f, d).0.deadline
  {
  }

  /** The first delivery that is not a notice is the edge that caused the wake, and the
      button does not heed it. */
  lemma FirstDelivery(queue: seq<Scheduled>, bootAt: nat, f: Fsm, d: Delivery)
    requires queue != [] && queue[0].edge == Falling && queue[0].at <= bootAt && f == Fresh(true, 0)
    requires Simulation.CameFrom(queue, bootAt, 0, f.deadline, 0, d)
    ensures d.event != Deadline && d.until == 0
    ensures d.event != Icd ==> WakingPress.Unheeded(f, WakingPress.InputOf(d)) && WakePhase.Handled(f, d) == (f, None)
  {
  }

  /** Every other one is on time. */
  lemma LaterDelivery(queue: seq<Scheduled>, ps: seq<Press>, bootAt: nat, n: nat, k: nat, f: Fsm, t: nat, d: Delivery)
    requires IsScheduleOf(queue, ps) && 0 < n && k == n - 1 && d.event != Icd && f.WakingPressPending()
    requires Standing(queue, bootAt, n, k, f, t) && d.until <= f.deadline && Simulation.CameFrom(queue, bootAt, n, f.deadline, t, d)
    ensures WakingPress.NextInput(f, InTheBoot(ps, bootAt), EdgeFirst, k) == Some(WakingPress.InputOf(d))
  {
    EdgeAfterTheFirst(queue, ps, bootAt, n);
    hide IsScheduleOf, WakingPress.NthEdge, InTheBoot;
  }

  /** One delivery: it is on time, or not heeded, and leaves the press so. */
  lemma DeliveredOnTime(queue: seq<Scheduled>, ps: seq<Press>, bootAt: nat, n: nat, k: nat, f: Fsm, t: nat, d: Delivery)
    requires IsScheduleOf(queue, ps) && InOrder(ps) && queue != [] && queue[0].edge == Falling && queue[0].at <= bootAt
    requires Standing(queue, bootAt, n, k, f, t) && WakingPress.Waking(InTheBoot(ps, bootAt), EdgeFirst, k, f) && f.WakingPressPending()
    requires t <= d.until <= f.deadline && d.until <= HORIZON + 10_000 && Simulation.CameFrom(queue, bootAt, n, f.deadline, t, d)
    ensures d.event == Icd ==> Standing(queue, bootAt, n, k, f, d.until)
    ensures d.event != Icd ==>
              var input, g := WakingPress.InputOf(d), WakePhase.Handled(f, d).0;
              && (WakingPress.Unheeded(f, input) || WakingPress.NextInput(f, InTheBoot(ps, bootAt), EdgeFirst, k) == Some(input))
              && (g.waking ==> Standing(queue, bootAt, n + (if d.event.Button? then 1 else 0),
                                        k + (if input.EdgeAt? && !WakingPress.Unheeded(f, input) then 1 else 0), g, d.until))
  {
    NotLeftBehind(f, d);
    if n + 1 < |queue| {
      EdgesInOrder(queue, ps, n);
    }
    if n == 0 {
      FirstDelivery(queue, bootAt, f, d);
    } else if d.event != Icd {
      LaterDelivery(queue, ps, bootAt, n, k, f, t, d);
      if d.event.Button? {
        WakingPress.NextIsHeeded(InTheBoot(ps, bootAt), EdgeFirst, k, f, WakingPress.InputOf(d));
      }
    }
    hide IsScheduleOf, InOrder, InTheBoot, WakingPress.Waking, WakingPress.NextInput, WakingPress.Unheeded, WakePhase.Handled;
  }

  /** Where the wake phase of a boot at `bootAt` stands, that was given `ds` by the queue. */
  ghost predicate At(queue: seq<Scheduled>, ps: seq<Press>, bootAt: nat, f: Fsm, ds: seq<Delivery>, t: nat)
  {
    var inputs := WakePhase.Inputs(ds);
    var g := After(f, inputs, |inputs|);
    && WakingPress.OnTime(f, InTheBoot(ps, bootAt), EdgeFirst, inputs)
    && (g.waking ==> Standing(queue, bootAt, Simulation.EdgesOf(ds), WakingPress.Heeded(f, inputs), g, t))
  }

  lemma OneMore(queue: seq<Scheduled>, ps: seq<Press>, bootAt: nat, f: Fsm, most: seq<Delivery>, t: nat, d: Delivery)
    requires IsScheduleOf(queue, ps) && InOrder(ps) && queue != [] && queue[0].edge == Falling && queue[0].at <= bootAt
    requires var before := WakePhase.Inputs(most);
             var g := After(f, before, |before|);
             && At(queue, ps, bootAt, f, most, t) && g.WakingPressPending()
             && WakingPress.Waking(InTheBoot(ps, bootAt), EdgeFirst, WakingPress.Heeded(f, before), g)
             && t <= d.until <= g.deadline && d.until <= HORIZON + 10_000
             && Simulation.CameFrom(queue, bootAt, Simulation.EdgesOf(most), g.deadline, t, d)
    ensures At(queue, ps, bootAt, f, most + [d], d.until)
  {
    var before, inputs := WakePhase.Inputs(most), WakePhase.Inputs(most + [d]);
    var g, k, n := After(f, before, |before|), WakingPress.Heeded(f, before), Simulation.EdgesOf(most);
    var h := WakePhase.Handled(g, d).0;
    assert g.waking;
    hide *;
    AtIs(queue, ps, bootAt, f, most, t);
    DeliveredOnTime(queue, ps, bootAt, n, k, g, t, d);
    WakePhase.InputMoves(f, most, d);
    WakingPress.OnTimeGrows(f, InTheBoot(ps, bootAt), EdgeFirst, most, d);
    EdgesGrow(most, d);
    if d.event == Icd {
      WakingPress.Ignores(g, d);
    } else {
      EdgesAreInputs(d);
    }
    assert h.waking ==> Standing(queue, bootAt, Simulation.EdgesOf(most + [d]), WakingPress.Heeded(f, inputs), h, d.until);
    ItIsAt(queue, ps, bootAt, f, most + [d], d.until);
  }

  lemma EdgesAreInputs(d: Delivery)
    ensures d.event.Button? <==> WakingPress.InputOf(d).EdgeAt?
  {
  }

  lemma AtIs(queue: seq<Scheduled>, ps: seq<Press>, bootAt: nat, f: Fsm, ds: seq<Delivery>, t: nat)
    requires At(queue, ps, bootAt, f, ds, t)
    ensures var inputs := WakePhase.Inputs(ds);
            var g := After(f, inputs, |inputs|);
            && WakingPress.OnTime(f, InTheBoot(ps, bootAt), EdgeFirst, inputs)
            && (g.waking ==> Standing(queue, bootAt, Simulation.EdgesOf(ds), WakingPress.Heeded(f, inputs), g, t))
  {
  }

  lemma ItIsAt(queue: seq<Scheduled>, ps: seq<Press>, bootAt: nat, f: Fsm, ds: seq<Delivery>, t: nat)
    requires var inputs := WakePhase.Inputs(ds);
             var g := After(f, inputs, |inputs|);
             && WakingPress.OnTime(f, InTheBoot(ps, bootAt), EdgeFirst, inputs)
             && (g.waking ==> Standing(queue, bootAt, Simulation.EdgesOf(ds), WakingPress.Heeded(f, inputs), g, t))
    ensures At(queue, ps, bootAt, f, ds, t)
  {
  }

  lemma EdgesGrow(most: seq<Delivery>, d: Delivery)
    ensures Simulation.EdgesOf(most + [d]) == Simulation.EdgesOf(most) + if d.event.Button? then 1 else 0
  {
    assert (most + [d])[..|most|] == most;
  }

  /** Everything the simulator delivers to a waking press is on time. */
  lemma {:induction false} PressIsOnTime(queue: seq<Scheduled>, ps: seq<Press>, bootAt: nat, a: AppState, ds: seq<Delivery>)
    requires IsScheduleOf(queue, ps) && InOrder(ps) && ps != [] && ps[0].down <= bootAt
    requires a.button == Fresh(true, 0) && PumpLegal(SIM_LIMITS, a, 0, ds) && Simulation.FedBy(queue, bootAt, a, 0, ds)
    ensures At(queue, ps, bootAt, a.button, ds, Pump(a, 0, ds).config.at)
  {
    if ds == [] {
      assert WakePhase.Inputs(ds) == [] && After(a.button, [], 0) == a.button;
    } else {
      var most, d := ds[..|ds| - 1], ds[|ds| - 1];
      assert most + [d] == ds && WakePhase.Undecided(a);
      assert queue[2 * 0] == Scheduled(ps[0].down, Falling);
      FirstOf(queue, ps, bootAt, a, ds);
      hide At, IsScheduleOf, InOrder, PumpLegal, Simulation.FedBy, WakePhase.Undecided;
      PressIsOnTime(queue, ps, bootAt, a, most);
      PressWaits(queue, ps, bootAt, a, most, d);
    }
  }

  lemma FirstOf(queue: seq<Scheduled>, ps: seq<Press>, bootAt: nat, a: AppState, ds: seq<Delivery>)
    requires ds != [] && PumpLegal(SIM_LIMITS, a, 0, ds) && Simulation.FedBy(queue, bootAt, a, 0, ds)
    ensures var most := ds[..|ds| - 1]; PumpLegal(SIM_LIMITS, a, 0, most) && Simulation.FedBy(queue, bootAt, a, 0, most)
  {
  }

  /** From one delivery to the next. */
  lemma PressWaits(queue: seq<Scheduled>, ps: seq<Press>, bootAt: nat, a: AppState, most: seq<Delivery>, d: Delivery)
    requires IsScheduleOf(queue, ps) && InOrder(ps) && ps != [] && queue != [] && queue[0].edge == Falling && queue[0].at <= bootAt && ps[0].down <= bootAt
    requires a.button == Fresh(true, 0) && PumpLegal(SIM_LIMITS, a, 0, most + [d]) && Simulation.FedBy(queue, bootAt, a, 0, most + [d])
    requires At(queue, ps, bootAt, a.button, most, Pump(a, 0, most).config.at)
    ensures At(queue, ps, bootAt, a.button, most + [d], Pump(a, 0, most + [d]).config.at)
  {
    LastGiven(queue, bootAt, a, most, d);
    var c, before := Pump(a, 0, most).config, WakePhase.Inputs(most);
    var g := After(a.button, before, |before|);
    assert g.waking && Max(c.at, g.deadline) == if c.at >= g.deadline then c.at else g.deadline;
    hide *;
    AtIs(queue, ps, bootAt, a.button, most, c.at);
    GestureSoFar(ps, bootAt, a, most);
    StandsInTime(queue, bootAt, Simulation.EdgesOf(most), WakingPress.Heeded(a.button, before), g, c.at);
    OneMore(queue, ps, bootAt, a.button, most, Pump(a, 0, most).config.at, d);
  }

  lemma StandsInTime(queue: seq<Scheduled>, bootAt: nat, n: nat, k: nat, f: Fsm, t: nat)
    requires Standing(queue, bootAt, n, k, f, t)
    ensures t <= f.deadline
  {
  }

  /** What is known of the last delivery. */
  lemma LastGiven(queue: seq<Scheduled>, bootAt: nat, a: AppState, most: seq<Delivery>, d: Delivery)
    requires a.button == Fresh(true, 0) && PumpLegal(SIM_LIMITS, a, 0, most + [d]) && Simulation.FedBy(queue, bootAt, a, 0, most + [d])
    ensures var c, before := Pump(a, 0, most).config, WakePhase.Inputs(most);
            var g := After(a.button, before, |before|);
            && PumpLegal(SIM_LIMITS, a, 0, most) && g == c.app.button && g.WakingPressPending()
            && c.at <= d.until <= Max(c.at, g.deadline) && d.until <= HORIZON + 10_000
            && Simulation.CameFrom(queue, bootAt, Simulation.EdgesOf(most), g.deadline, c.at, d)
            && Pump(a, 0, most + [d]).config.at == d.until
  {
    var ds := most + [d];
    assert ds[..|most|] == most;
    WakePhase.LastDelivery(SIM_LIMITS, a, 0, ds);
    assert Pump(a, 0, most).config.app.button.WakingPressPending() && Pump(a, 0, most).config.at <= HORIZON;
    assert WakePhase.Undecided(a) && a.button.deadline <= BUTTON_HOLD;
    hide Pump, PumpLegal, WakePhase.Undecided, Simulation.FedBy, Simulation.CameFrom, Simulation.EdgesOf, WakePhase.Inputs, After, Watch;
    WakePhase.PressIsFollowed(SIM_LIMITS, a, 0, most);
    WakePhase.PressIsFed(SIM_LIMITS, a, 0, BootTheorems.Observer(a, 0), BUTTON_HOLD + SIM_LIMITS.late, most);
  }

  const BUTTON_HOLD: nat := Tuning.BUTTON_FACTORY_RESET_HOLD

  /** The gesture the press is part of. */
  lemma GestureSoFar(ps: seq<Press>, bootAt: nat, a: AppState, most: seq<Delivery>)
    requires InOrder(ps) && ps != [] && ps[0].down <= bootAt && a.button == Fresh(true, 0) && PumpLegal(SIM_LIMITS, a, 0, most)
    requires WakingPress.OnTime(a.button, InTheBoot(ps, bootAt), EdgeFirst, WakePhase.Inputs(most))
    requires After(a.button, WakePhase.Inputs(most), |WakePhase.Inputs(most)|).waking
    ensures var before := WakePhase.Inputs(most);
            WakingPress.Waking(InTheBoot(ps, bootAt), EdgeFirst, WakingPress.Heeded(a.button, before), After(a.button, before, |before|))
  {
    var r := InTheBoot(ps, bootAt);
    StillInOrder(ps, bootAt);
    assert r[0] == Press(0, InBoot(ps[0].up, bootAt));
    hide InOrder, InTheBoot, PumpLegal, WakingPress.Waking, After, WakingPress.OnTime, WakingPress.Heeded, WakePhase.Inputs;
    WakingPress.FollowsTheFirstGesture(SIM_LIMITS, a, 0, most, r, EdgeFirst);
  }

  /** A boot of the simulator that the press at the front of its queue woke, and whose wake
      phase decided: the press asks for what the first gesture of the queue's presses means,
      in the time of the boot, at the instant it means it; and nothing is meant before. */
  lemma AsksInTheSimulator(queue: seq<Scheduled>, ps: seq<Press>, bootAt: nat, boot: Boot, c: Calibration, ds: seq<Delivery>) returns (i: nat)
    requires IsScheduleOf(queue, ps) && InOrder(ps) && ps != [] && ps[0].down <= bootAt
    requires boot.wake == WakeCause.Button && boot.now == 0
    requires PumpLegal(SIM_LIMITS, NewApp(boot, c), 0, ds) && Simulation.FedBy(queue, bootAt, NewApp(boot, c), 0, ds)
    requires !Pump(NewApp(boot, c), 0, ds).config.app.button.waking
    ensures var heard := InTheBoot(ps, bootAt);
            && i < |heard| && WakingPress.First(heard, EdgeFirst, i) && Ends(heard, true, EdgeFirst, i) && Classification(heard, true, EdgeFirst, i) == []
            && Classification(heard, true, EdgeFirst, i + 1) == Emit(WakePhase.Wanted(boot, ds), Pump(NewApp(boot, c), 0, ds).config.at)
  {
    var a, heard := NewApp(boot, c), InTheBoot(ps, bootAt);
    StillInOrder(ps, bootAt);
    assert heard[0] == Press(0, InBoot(ps[0].up, bootAt)) && a.button == Fresh(true, 0);
    PressIsOnTime(queue, ps, bootAt, a, ds);
    AtIs(queue, ps, bootAt, a.button, ds, Pump(a, 0, ds).config.at);
    hide NewApp, Pump, PumpLegal, At, Simulation.FedBy, IsScheduleOf, InTheBoot, InOrder, WakingPress.OnTime, Classification;
    i := WakingPress.AsksForTheFirstGesture(SIM_LIMITS, boot, c, 0, ds, heard, EdgeFirst);
  }

  /** A boot of a run of the simulator, by what is known of it. */
  lemma WholeBoot(found: Simulation.Between, r: Device.Record, b: BootRecord, left: Simulation.Between)
    requires Simulation.BootBooked(found, r, b, left) && r.course.Whole?
    ensures r.boot == Boot(b.wake, 0, found.afterCrash) && Simulation.FedBy(found.queue, found.clock, NewApp(r.boot, r.stored), 0, r.course.ds)
    ensures r.course.loadedAt == 0
    ensures WakePhase.Decided(SIM_LIMITS, r.boot, 0, r.stored, 0, r.course.ds, r.course.app, r.course.decidedAt, r.course.due)
    ensures r.waking == WakePhase.WakeTrace(r.boot, 0, r.stored, 0, r.course.ds) + DueTrace(r.course.app, r.course.decidedAt, r.course.due)
    ensures b.wake == WakeCause.Button <==> found.queue != [] && found.queue[0].edge == Falling && found.queue[0].at <= found.clock
  {
    hide Simulation.FedBy, WakePhase.Decided, NewApp, DueTrace, DueAt, DueDone, IsRun, Outcomes, WakePhase.WakeTrace, Leaves, Device.InEffect;
  }

  /** Over whole runs of the simulator, for every boot of them that comes to its operational
      phase: if a press that had come was the first thing in the queue it found, it was woken
      by that press, and gave the person exactly what the first gesture of the presses means. */
  lemma RunsAnswerTheirPresses(first: Simulation.Between, found: seq<Simulation.Between>, records: seq<Device.Record>, booked: seq<BootRecord>,
                               last: Simulation.Between, n: nat, ps: seq<Press>) returns (i: nat)
    requires Simulation.Booked(first, found, records, booked, last) && n < |records| && records[n].course.Whole?
    requires IsScheduleOf(found[n].queue, ps) && InOrder(ps) && ps != [] && ps[0].down <= found[n].clock
    ensures booked[n].wake == WakeCause.Button
    ensures var heard := InTheBoot(ps, found[n].clock);
            && i < |heard| && WakingPress.First(heard, EdgeFirst, i) && Ends(heard, true, EdgeFirst, i)
            && Answering.Given(records[n].waking) == Classification(heard, true, EdgeFirst, i + 1)
  {
    var here, r, b, heard := found[n], records[n], booked[n], InTheBoot(ps, found[n].clock);
    var a := NewApp(r.boot, r.stored);
    assert here.queue[2 * 0] == Scheduled(ps[0].down, Falling);
    assert heard[0] == Press(InBoot(ps[0].down, here.clock), InBoot(ps[0].up, here.clock)) && InBoot(ps[0].down, here.clock) == 0;
    hide *;
    Simulation.BootOfARun(first, found, records, booked, last, n);
    WholeBoot(here, r, b, if n + 1 < |found| then found[n + 1] else last);
    StartsHeld(r.boot, r.stored);
    DecidesLegally(r.boot, r.stored, r.course.ds, r.course.app, r.course.decidedAt, r.course.due);
    StillInOrder(ps, here.clock);
    PressIsOnTime(here.queue, ps, here.clock, a, r.course.ds);
    AtIs(here.queue, ps, here.clock, a.button, r.course.ds, Pump(a, 0, r.course.ds).config.at);
    i := WakingPress.GivesTheFirstGesture(SIM_LIMITS, r.boot, r.stored, 0, r.course.ds, r.course.app, r.course.decidedAt, r.course.due, heard, EdgeFirst);
  }

  lemma StartsHeld(boot: Boot, c: Calibration)
    ensures boot.wake == WakeCause.Button ==> NewApp(boot, c).button == Fresh(true, boot.now)
  {
  }

  lemma DecidesLegally(boot: Boot, c: Calibration, ds: seq<Delivery>, a: AppState, now: nat, due: DueAnswers)
    requires WakePhase.Decided(SIM_LIMITS, boot, 0, c, 0, ds, a, now, due)
    ensures PumpLegal(SIM_LIMITS, NewApp(boot, c), 0, ds)
  {
    hide PumpLegal, Pump, DueLegal;
  }
}
