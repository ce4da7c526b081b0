/**
 What the button recogniser means.

 The machine of `Button` is driven with a list of presses of any length and with
 its own deadlines, each served at its own instant. `Classification` says, press
 by press and with no machine, which gestures come out of that list and when.
 `RecogniserIsTheClassification` proves the two equal.

 Which of a deadline and an edge comes first when both are due at one instant
 differs between the two worlds: the device's wait lists the timer first
 (`fw/src/ports.rs`), the simulator delivers the edge (`sim/src/world.rs`). The
 rule is a parameter, and the theorem holds for both.
 */
module Gestures {
  import opened Machine
  import opened Vocabulary
  import opened Button
  import Tuning

  datatype Tie = DeadlineFirst | EdgeFirst

  datatype Press = Press(down: nat, up: nat)

  datatype Emission = Emission(gesture: Gesture, at: nat)

  /** Whether a deadline is served before an edge at `t`. */
  predicate Due(deadline: nat, t: nat, tie: Tie)
  {
    deadline < t || (deadline == t && tie.DeadlineFirst?)
  }

  /** Presses in the order of time, each released before the next begins; and all
      of them well before the clock saturates. */
  ghost predicate InOrder(ps: seq<Press>)
  {
    && (forall i {:trigger ps[i]} :: 0 <= i < |ps| ==> ps[i].down <= ps[i].up <= HORIZON)
    && (forall i {:trigger ps[i]} :: 0 < i < |ps| ==> ps[i - 1].up <= ps[i].down)
  }

  lemma InOrderBounds(ps: seq<Press>, i: nat)
    requires InOrder(ps) && i < |ps|
    ensures ps[i].down <= ps[i].up <= HORIZON
  {
  }

  // The machine, driven.

  datatype Stage = Stage(fsm: Fsm, said: seq<Emission>)

  function Emit(gesture: Option<Gesture>, at: nat): seq<Emission>
  {
    match gesture
    case None => []
    case Some(g) => [Emission(g, at)]
  }

  function Serve(s: Stage): Stage
  {
    var (fsm, gesture) := DeadlineNext(s.fsm, s.fsm.deadline);
    Stage(fsm, s.said + Emit(gesture, s.fsm.deadline))
  }

  /** Serve every deadline that comes before an edge at `t`. */
  function ServeUntil(s: Stage, t: nat, tie: Tie): Stage
    decreases Rank(s.fsm.mode)
  {
    match s.fsm.NextDeadline()
    case None => s
    case Some(d) => if Due(d, t, tie) then ServeUntil(Serve(s), t, tie) else s
  }

  /** Serve every deadline there still is. */
  function ServeAll(s: Stage): Stage
    decreases Rank(s.fsm.mode)
  {
    if s.fsm.NextDeadline().Some? then ServeAll(Serve(s)) else s
  }

  function Deliver(s: Stage, edge: Edge, t: nat, tie: Tie): Stage
  {
    var ready := ServeUntil(s, t, tie);
    ready.(fsm := EdgeNext(ready.fsm, edge, t))
  }

  /** The first `n` presses. A press that woke the device is down when the boot begins;
      `told` is whether its falling edge is delivered all the same, as the device's button
      task and the simulator do. */
  function Driven(ps: seq<Press>, held: bool, told: bool, boot: nat, tie: Tie, n: nat): Stage
    requires n <= |ps|
  {
    if n == 0 then Stage(Fresh(held, boot), [])
    else
      var s := Driven(ps, held, told, boot, tie, n - 1);
      var p := ps[n - 1];
      var pressed := if held && n == 1 && !told then s else Deliver(s, Falling, p.down, tie);
      Deliver(pressed, Rising, p.up, tie)
  }

  /** Everything the machine says about a list of presses. */
  function Recognised(ps: seq<Press>, held: bool, told: bool, boot: nat, tie: Tie): seq<Emission>
  {
    ServeAll(Driven(ps, held, told, boot, tie, |ps|)).said
  }

  // The meaning of a list of presses.

  predicate SkipsDebounce(held: bool, i: nat) { held && i == 0 }

  /** Too short to be a press. */
  predicate Glitch(ps: seq<Press>, held: bool, tie: Tie, i: nat)
    requires i < |ps|
  {
    !SkipsDebounce(held, i) && !Due(ps[i].down + Tuning.BUTTON_DEBOUNCE, ps[i].up, tie)
  }

  /** When a press becomes a factory reset, if it lasts that long. */
  function ResetAt(ps: seq<Press>, held: bool, i: nat): nat
    requires i < |ps|
  {
    ps[i].down + Tuning.BUTTON_FACTORY_RESET_HOLD + (if SkipsDebounce(held, i) then 0 else Tuning.BUTTON_DEBOUNCE)
  }

  predicate LongHold(ps: seq<Press>, held: bool, tie: Tie, i: nat)
    requires i < |ps|
  {
    Due(ResetAt(ps, held, i), ps[i].up, tie)
  }

  predicate Tap(ps: seq<Press>, held: bool, tie: Tie, i: nat)
    requires i < |ps|
  {
    !Glitch(ps, held, tie, i) && !LongHold(ps, held, tie, i)
  }

  function WindowEnds(ps: seq<Press>, i: nat): nat
    requires i < |ps|
  {
    ps[i].up + Tuning.BUTTON_TRIPLE_CLICK_WINDOW
  }

  /** Press `i` belongs to the gesture of the press before it. */
  predicate Joined(ps: seq<Press>, held: bool, tie: Tie, i: nat)
    requires i < |ps|
  {
    i > 0 && Tap(ps, held, tie, i - 1) && !Due(WindowEnds(ps, i - 1), ps[i].down, tie)
  }

  /** How many presses the gesture of press `i` has, up to and including it. */
  function Clicks(ps: seq<Press>, held: bool, tie: Tie, i: nat): (n: nat)
    requires i < |ps|
    ensures 1 <= n <= i + 1
  {
    if Joined(ps, held, tie, i) then Clicks(ps, held, tie, i - 1) + 1 else 1
  }

  /** Press `i` is the last of its gesture. */
  predicate Ends(ps: seq<Press>, held: bool, tie: Tie, i: nat)
    requires i < |ps|
  {
    !(i + 1 < |ps| && Joined(ps, held, tie, i + 1))
  }

  /** What the tap that ends a gesture makes of it: one press asks for a sample,
      three for a calibration, and no other count for anything. The count is the
      machine's 32-bit one. */
  function TapSays(ps: seq<Press>, held: bool, tie: Tie, i: nat): seq<Emission>
    requires i < |ps|
  {
    match WrapU32(Clicks(ps, held, tie, i))
    case 1 => [Emission(SampleNow, WindowEnds(ps, i))]
    case 3 => [Emission(Calibrate, WindowEnds(ps, i))]
    case _ => []
  }

  function PressSays(ps: seq<Press>, held: bool, tie: Tie, i: nat): seq<Emission>
    requires i < |ps|
  {
    if LongHold(ps, held, tie, i) then [Emission(Gesture.FactoryReset, ResetAt(ps, held, i))]
    else if Tap(ps, held, tie, i) && Ends(ps, held, tie, i) then TapSays(ps, held, tie, i)
    else []
  }

  /** What the first `n` presses mean, in order. */
  function Classification(ps: seq<Press>, held: bool, tie: Tie, n: nat): seq<Emission>
    requires n <= |ps|
  {
    if n == 0 then [] else Classification(ps, held, tie, n - 1) + PressSays(ps, held, tie, n - 1)
  }

  // The machine after each press.

  /** After `n` presses a tap leaves the window open and its verdict to come;
      everything else leaves the machine idle with all of it said. */
  ghost predicate Between(ps: seq<Press>, held: bool, tie: Tie, n: nat, s: Stage)
    requires 0 < n <= |ps|
  {
    if Tap(ps, held, tie, n - 1) then
      && s.fsm.mode == Window
      && s.fsm.deadline == WindowEnds(ps, n - 1)
      && s.fsm.clicks == WrapU32(Clicks(ps, held, tie, n - 1))
      && s.said == Classification(ps, held, tie, n - 1)
    else
      s.fsm.mode == Mode.Idle && s.said == Classification(ps, held, tie, n)
  }

  /** The release of press `i`, from the press believed or still in its debounce. */
  lemma Released(ps: seq<Press>, held: bool, tie: Tie, i: nat, s: Stage)
    requires InOrder(ps) && i < |ps|
    requires s.fsm.clicks == WrapU32(Clicks(ps, held, tie, i))
    requires s.said == Classification(ps, held, tie, i)
    requires if SkipsDebounce(held, i) then s.fsm.mode == Held && s.fsm.deadline == ResetAt(ps, held, i)
             else s.fsm.mode == Debounce && s.fsm.deadline == ps[i].down + Tuning.BUTTON_DEBOUNCE
    ensures Between(ps, held, tie, i + 1, Deliver(s, Rising, ps[i].up, tie))
  {
    var believed := if SkipsDebounce(held, i) then s else Serve(s);
    if !Glitch(ps, held, tie, i) {
      assert believed.fsm.mode == Held && believed.fsm.deadline == ResetAt(ps, held, i);
      assert believed.said == s.said;
      assert ServeUntil(s, ps[i].up, tie) == ServeUntil(believed, ps[i].up, tie);
      if LongHold(ps, held, tie, i) {
        var asked := Serve(believed);
        assert asked.fsm.mode == WaitRelease;
        assert ServeUntil(believed, ps[i].up, tie) == ServeUntil(asked, ps[i].up, tie) == asked;
      }
    }
  }

  /** A 32-bit counter counts modulo 2^32. */
  lemma CountsOn(n: nat)
    ensures WrapU32(WrapU32(n) + 1) == WrapU32(n + 1)
  {
  }

  lemma OneIsOne()
    ensures WrapU32(1) == 1
  {
  }

  /** What a press finds: an open window it joins, or a machine at rest with
      everything said. */
  lemma FoundBy(ps: seq<Press>, held: bool, tie: Tie, i: nat, s: Stage)
    requires InOrder(ps) && 0 < i < |ps| && Between(ps, held, tie, i, s)
    ensures var ready := ServeUntil(s, ps[i].down, tie);
            && ready.said == Classification(ps, held, tie, i)
            && if Joined(ps, held, tie, i) then
                 ready.fsm.mode == Window && ready.fsm.clicks == WrapU32(Clicks(ps, held, tie, i - 1))
               else ready.fsm.mode == Mode.Idle
  {
    if Joined(ps, held, tie, i) {
      assert PressSays(ps, held, tie, i - 1) == [];
    } else if Tap(ps, held, tie, i - 1) {
      assert ServeUntil(s, ps[i].down, tie) == ServeUntil(Serve(s), ps[i].down, tie) == Serve(s);
    }
  }

  /** The press itself: it counts on in the window it joins, or begins from rest. */
  lemma Pressed(ps: seq<Press>, held: bool, tie: Tie, i: nat, s: Stage)
    requires InOrder(ps) && 0 < i < |ps|
    requires Between(ps, held, tie, i, s)
    ensures var p := Deliver(s, Falling, ps[i].down, tie);
            && p.fsm.mode == Debounce && p.fsm.deadline == ps[i].down + Tuning.BUTTON_DEBOUNCE
            && p.fsm.clicks == WrapU32(Clicks(ps, held, tie, i))
            && p.said == Classification(ps, held, tie, i)
  {
    FoundBy(ps, held, tie, i, s);
    var n, down := Clicks(ps, held, tie, i), ps[i].down;
    assert n == if Joined(ps, held, tie, i) then Clicks(ps, held, tie, i - 1) + 1 else 1;
    InOrderBounds(ps, i);
    hide ServeUntil, Between, Joined, Classification, Clicks, InOrder, Tap, Glitch, LongHold, WrapU32;
    if Joined(ps, held, tie, i) {
      CountsOn(n - 1);
    } else {
      assert WrapU32(1) == 1 by { OneIsOne(); }
    }
  }

  /** A held button does not heed that it was pressed. */
  lemma ToldOfAHeldPress(boot: nat, tie: Tie)
    requires boot <= HORIZON
    ensures var s := Stage(Fresh(true, boot), []); Deliver(s, Falling, boot, tie) == s
  {
  }

  lemma {:induction false} DrivenBetween(ps: seq<Press>, held: bool, told: bool, boot: nat, tie: Tie, n: nat)
    requires InOrder(ps) && 0 < n <= |ps| && (held ==> ps[0].down == boot)
    ensures Between(ps, held, tie, n, Driven(ps, held, told, boot, tie, n))
  {
    var s := Driven(ps, held, told, boot, tie, n - 1);
    if n > 1 {
      hide ServeUntil, Between, Deliver;
      DrivenBetween(ps, held, told, boot, tie, n - 1);
      Pressed(ps, held, tie, n - 1, s);
      Released(ps, held, tie, n - 1, Deliver(s, Falling, ps[n - 1].down, tie));
    } else {
      InOrderBounds(ps, 0);
      if held {
        ToldOfAHeldPress(boot, tie);
      }
      FirstPress(ps, held, boot, tie);
      hide ServeUntil, Between, Deliver;
      Released(ps, held, tie, 0, if held then s else Deliver(s, Falling, ps[0].down, tie));
    }
  }

  /** The first press, believed from the start or in its debounce. */
  lemma FirstPress(ps: seq<Press>, held: bool, boot: nat, tie: Tie)
    requires InOrder(ps) && ps != [] && (held ==> ps[0].down == boot)
    ensures var s := if held then Stage(Fresh(held, boot), []) else Deliver(Stage(Fresh(held, boot), []), Falling, ps[0].down, tie);
            && s.fsm.clicks == WrapU32(Clicks(ps, held, tie, 0)) && s.said == Classification(ps, held, tie, 0)
            && if held then s.fsm.mode == Held && s.fsm.deadline == ResetAt(ps, held, 0)
               else s.fsm.mode == Debounce && s.fsm.deadline == ps[0].down + Tuning.BUTTON_DEBOUNCE
  {
    InOrderBounds(ps, 0);
  }

  /** For every list of presses, from either kind of boot, told of the waking press or not,
      and under either rule for ties, the machine says exactly what the presses mean. */
  lemma RecogniserIsTheClassification(ps: seq<Press>, held: bool, told: bool, boot: nat, tie: Tie)
    requires InOrder(ps)
    requires held ==> ps != [] && ps[0].down == boot
    ensures Recognised(ps, held, told, boot, tie) == Classification(ps, held, tie, |ps|)
  {
    var s := Driven(ps, held, told, boot, tie, |ps|);
    if ps != [] {
      DrivenBetween(ps, held, told, boot, tie, |ps|);
      hide Driven, Between;
      AllIsSaid(ps, held, tie, s);
    }
  }

  /** Once the last window has closed, everything is said. */
  lemma AllIsSaid(ps: seq<Press>, held: bool, tie: Tie, s: Stage)
    requires ps != [] && Between(ps, held, tie, |ps|, s)
    ensures ServeAll(s).said == Classification(ps, held, tie, |ps|)
  {
    var i := |ps| - 1;
    assert Classification(ps, held, tie, |ps|) == Classification(ps, held, tie, i) + PressSays(ps, held, tie, i);
    hide Classification, Clicks;
    if Tap(ps, held, tie, i) {
      assert Serve(s).fsm.mode == Mode.Idle;
      assert ServeAll(s) == ServeAll(Serve(s)) == Serve(s);
    }
  }

  // Whole lists, by their counts and their instants.

  /** Presses that are each believed and let go before the hold, with less than the window
      from one to the next. A press that woke the device is believed from the start, and so
      its hold is shorter by the debounce. */
  ghost predicate Burst(ps: seq<Press>, held: bool, tie: Tie)
  {
    && (forall i {:trigger ps[i]} :: 0 <= i < |ps| ==>
          if held && i == 0 then !Due(ps[i].down + 10_000, ps[i].up, tie)
          else Due(ps[i].down + 20, ps[i].up, tie) && !Due(ps[i].down + 10_020, ps[i].up, tie))
    && (forall i {:trigger ps[i]} :: 0 < i < |ps| ==> !Due(ps[i - 1].up + 400, ps[i].down, tie))
  }

  /** All of them are one gesture, which none but the last ends. */
  lemma {:induction false} BurstIsOneGesture(ps: seq<Press>, held: bool, tie: Tie, n: nat)
    requires Burst(ps, held, tie) && n < |ps|
    ensures Clicks(ps, held, tie, n) == n + 1 && Tap(ps, held, tie, n) && Classification(ps, held, tie, n) == []
  {
    assert ps[n] == ps[n];
    if n > 0 {
      BurstIsOneGesture(ps, held, tie, n - 1);
      assert Joined(ps, held, tie, n);
      assert PressSays(ps, held, tie, n - 1) == [];
    }
  }

  /** What a burst of presses, and nothing else, makes the machine say: one asks for a
      sample and three for a calibration, at the end of the window after the last of them;
      two ask for nothing, nor do more than three, until 2^32 and one of them pass for one. */
  lemma ABurstSaysByItsCount(ps: seq<Press>, held: bool, told: bool, boot: nat, tie: Tie)
    requires InOrder(ps) && ps != [] && (held ==> ps[0].down == boot) && Burst(ps, held, tie)
    ensures var n, at := |ps| % 0x1_0000_0000, ps[|ps| - 1].up + 400;
            Recognised(ps, held, told, boot, tie) ==
              if n == 1 then [Emission(SampleNow, at)] else if n == 3 then [Emission(Calibrate, at)] else []
  {
    hide *;
    RecogniserIsTheClassification(ps, held, told, boot, tie);
    BurstIsOneGesture(ps, held, tie, |ps| - 1);
    LastTapSays(ps, held, tie);
  }

  lemma LastTapSays(ps: seq<Press>, held: bool, tie: Tie)
    requires ps != [] && Tap(ps, held, tie, |ps| - 1) && Clicks(ps, held, tie, |ps| - 1) == |ps| && Classification(ps, held, tie, |ps| - 1) == []
    ensures var n, at := |ps| % 0x1_0000_0000, ps[|ps| - 1].up + 400;
            Classification(ps, held, tie, |ps|) ==
              if n == 1 then [Emission(SampleNow, at)] else if n == 3 then [Emission(Calibrate, at)] else []
  {
    var i := |ps| - 1;
    assert Classification(ps, held, tie, |ps|) == Classification(ps, held, tie, i) + PressSays(ps, held, tie, i);
    assert PressSays(ps, held, tie, i) == TapSays(ps, held, tie, i);
    hide Classification, Clicks, PressSays, Tap, LongHold, Glitch;
  }

  /** One press held for 10 s, and the debounce before that unless it woke the device, asks
      for a factory reset then, and for nothing when it is let go. */
  lemma AHoldResets(p: Press, held: bool, told: bool, boot: nat, tie: Tie)
    requires p.down <= p.up <= HORIZON && (held ==> p.down == boot)
    requires Due(p.down + (if held then 10_000 else 10_020), p.up, tie)
    ensures Recognised([p], held, told, boot, tie) == [Emission(Gesture.FactoryReset, p.down + if held then 10_000 else 10_020)]
  {
    RecogniserIsTheClassification([p], held, told, boot, tie);
    assert Classification([p], held, tie, 1) == Classification([p], held, tie, 0) + PressSays([p], held, tie, 0);
  }

  /** A press too short to be believed is no press. */
  lemma AGlitchSaysNothing(p: Press, told: bool, boot: nat, tie: Tie)
    requires p.down <= p.up <= HORIZON && !Due(p.down + 20, p.up, tie)
    ensures Recognised([p], false, told, boot, tie) == []
  {
    RecogniserIsTheClassification([p], false, told, boot, tie);
    assert Classification([p], false, tie, 1) == Classification([p], false, tie, 0) + PressSays([p], false, tie, 0);
  }
}
