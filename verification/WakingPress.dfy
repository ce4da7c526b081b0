/**
 What the waking press asks for, said of the presses themselves. When the wake phase is
 given the edges of a list of presses at their times, and the button's own deadlines at
 theirs, it asks for what the first gesture of the list means (`Gestures.Classification`).

 The press that woke the device is down when the boot begins. Both worlds tell the button
 of it all the same: the device's button task publishes a falling edge for it first of all
 (`fw/src/button.rs`), and the simulator leaves the edge that caused the wake in its queue
 (`sim/src/world.rs`). A held button does not heed that edge, nor any it does not expect,
 and edges that are not heeded may come here at any time and in any number.
 */
module WakingPress {
  import opened Machine
  import opened Vocabulary
  import opened BootModel
  import opened Gestures
  import opened Button
  import WakePhase
  import Answering
  import Tuning

  // Deliveries on time.

  /** Edge `k` of a list whose first press is down already, if there is one. */
  function NthEdge(ps: seq<Press>, k: nat): Option<Input>
  {
    if k >= 2 * |ps| - 1 then None
    else if k % 2 == 0 then Some(EdgeAt(Rising, ps[k / 2].up))
    else Some(EdgeAt(Falling, ps[k / 2 + 1].down))
  }

  /** An edge that leaves the button as it is. */
  predicate Unheeded(f: Fsm, input: Input)
  {
    input.EdgeAt? && EdgeNext(f, input.edge, input.at) == f
  }

  /** How many edges the button heeded. */
  function Heeded(f: Fsm, inputs: seq<Input>): nat
  {
    if inputs == [] then 0
    else
      var most, last := inputs[..|inputs| - 1], inputs[|inputs| - 1];
      Heeded(f, most) + if last.EdgeAt? && !Unheeded(After(f, most, |most|), last) then 1 else 0
  }

  /** What comes next: the deadline of the button at its instant, or edge `k` at its own. */
  function NextInput(f: Fsm, ps: seq<Press>, tie: Tie, k: nat): Option<Input>
  {
    match (f.NextDeadline(), NthEdge(ps, k))
    case (Some(d), Some(e)) => if Due(d, e.at, tie) then Some(DeadlineAt(d)) else Some(e)
    case (Some(d), None) => Some(DeadlineAt(d))
    case (None, e) => e
  }

  /** Every input came on time, but for edges that were not heeded. */
  ghost predicate OnTime(f: Fsm, ps: seq<Press>, tie: Tie, inputs: seq<Input>)
  {
    inputs != [] ==>
      var most, last := inputs[..|inputs| - 1], inputs[|inputs| - 1];
      var g := After(f, most, |most|);
      OnTime(f, ps, tie, most) && (Unheeded(g, last) || NextInput(g, ps, tie, Heeded(f, most)) == Some(last))
  }

  // The first gesture.

  /** The presses up to `i` are of one gesture, the first; all of it if `Ends` says so too. */
  ghost predicate First(ps: seq<Press>, tie: Tie, i: nat)
    requires i < |ps|
  {
    forall j: nat {:trigger Joined(ps, true, tie, j)} :: 0 < j <= i ==> Joined(ps, true, tie, j)
  }

  /** Nothing is said before the last press of the first gesture. */
  lemma {:induction false} FirstIsSilent(ps: seq<Press>, tie: Tie, i: nat)
    requires i < |ps| && First(ps, tie, i)
    ensures Classification(ps, true, tie, i) == []
  {
    if i > 0 {
      FirstIsSilent(ps, tie, i - 1);
      assert Joined(ps, true, tie, i);
      assert PressSays(ps, true, tie, i - 1) == [];
    }
  }

  /** The undecided button, after `k` edges: press `k / 2` is down and waits to be believed
      or to become a reset, or has been released and waits for another. */
  ghost predicate Waking(ps: seq<Press>, tie: Tie, k: nat, f: Fsm)
  {
    && k / 2 < |ps| && f.waking
    && var i := k / 2;
       && First(ps, tie, i) && f.clicks == WrapU32(Clicks(ps, true, tie, i))
       && if k % 2 == 1 then f.mode == Window && f.deadline == WindowEnds(ps, i) && Tap(ps, true, tie, i)
          else if f.mode == Held then f.deadline == ResetAt(ps, true, i) && !Glitch(ps, true, tie, i)
          else i > 0 && f.mode == Debounce && f.deadline == ps[i].down + Tuning.BUTTON_DEBOUNCE
  }

  /** Press `i` ends the first gesture, which means `word` at `t`. */
  ghost predicate Decides(ps: seq<Press>, tie: Tie, i: nat, word: Option<Gesture>, t: nat)
  {
    i < |ps| && First(ps, tie, i) && Ends(ps, true, tie, i) && Emit(word, t) == PressSays(ps, true, tie, i)
  }

  /** What comes next for a press that is down: its own deadline, or its release. */
  lemma NextIsARelease(ps: seq<Press>, tie: Tie, k: nat, f: Fsm, input: Input)
    requires Waking(ps, tie, k, f) && k % 2 == 0 && NextInput(f, ps, tie, k) == Some(input)
    ensures var up := ps[k / 2].up;
            f.NextDeadline() == Some(f.deadline) && input == if Due(f.deadline, up, tie) then DeadlineAt(f.deadline) else EdgeAt(Rising, up)
  {
    hide Clicks, First, WrapU32, Glitch, ResetAt;
  }

  /** What a believed press makes of its deadline, and of a release. */
  lemma HeldHandles(f: Fsm, t: nat)
    requires f.mode == Held && t <= HORIZON
    ensures Handle(f, EdgeAt(Rising, t)) == (f.(mode := Window, deadline := t + Tuning.BUTTON_TRIPLE_CLICK_WINDOW), None)
    ensures Handle(f, DeadlineAt(f.deadline)) == (f.(waking := false, mode := WaitRelease), Some(Gesture.FactoryReset))
  {
  }

  lemma HoldsAreLong(ps: seq<Press>, tie: Tie, i: nat)
    requires i < |ps| && !Glitch(ps, true, tie, i)
    ensures if Due(ResetAt(ps, true, i), ps[i].up, tie) then
              PressSays(ps, true, tie, i) == [Emission(Gesture.FactoryReset, ResetAt(ps, true, i))] && Ends(ps, true, tie, i)
            else Tap(ps, true, tie, i)
  {
  }

  /** A press that is believed: a reset, or a release in time. */
  lemma HeldMoves(ps: seq<Press>, tie: Tie, k: nat, f: Fsm, input: Input)
    requires InOrder(ps) && Waking(ps, tie, k, f) && k % 2 == 0 && f.mode == Held && NextInput(f, ps, tie, k) == Some(input)
    ensures var (g, word) := Handle(f, input);
            if g.waking then word.None? && input.EdgeAt? && !Unheeded(f, input) && Waking(ps, tie, k + 1, g)
            else Decides(ps, tie, k / 2, word, input.at)
  {
    var i := k / 2;
    InOrderBounds(ps, i);
    NextIsARelease(ps, tie, k, f, input);
    HeldHandles(f, ps[i].up);
    HoldsAreLong(ps, tie, i);
    hide NextInput, NthEdge, Clicks, First, InOrder, WrapU32, Glitch, ResetAt, LongHold, Tap, PressSays, EdgeNext, DeadlineNext, Due, Ends;
  }

  /** A press in its debounce: believed, or a glitch. */
  lemma DebounceMoves(ps: seq<Press>, tie: Tie, k: nat, f: Fsm, input: Input)
    requires InOrder(ps) && Waking(ps, tie, k, f) && k % 2 == 0 && f.mode == Debounce && NextInput(f, ps, tie, k) == Some(input)
    ensures var (g, word) := Handle(f, input);
            if g.waking then word.None? && input.DeadlineAt? && Waking(ps, tie, k, g)
            else Decides(ps, tie, k / 2, word, input.at)
  {
    var i := k / 2;
    InOrderBounds(ps, i);
    NextIsARelease(ps, tie, k, f, input);
    if Glitch(ps, true, tie, i) { GlitchesAreShort(ps, tie, i); }
    hide NextInput, NthEdge, Clicks, First, InOrder, WrapU32, LongHold, Ends;
  }

  lemma GlitchesAreShort(ps: seq<Press>, tie: Tie, i: nat)
    requires i < |ps| && Glitch(ps, true, tie, i)
    ensures PressSays(ps, true, tie, i) == [] && Ends(ps, true, tie, i)
  {
  }

  lemma PressIsDown(ps: seq<Press>, tie: Tie, k: nat, f: Fsm, input: Input)
    requires InOrder(ps) && Waking(ps, tie, k, f) && k % 2 == 0 && NextInput(f, ps, tie, k) == Some(input)
    ensures var (g, word) := Handle(f, input);
            if g.waking then word.None? && !Unheeded(f, input) && Waking(ps, tie, k + (if input.EdgeAt? then 1 else 0), g)
            else Decides(ps, tie, k / 2, word, input.at)
  {
    if f.mode == Held {
      HeldMoves(ps, tie, k, f, input);
    } else {
      DebounceMoves(ps, tie, k, f, input);
    }
    hide *;
  }

  /** The edge that comes in time is the next press, and it joins the gesture. */
  lemma NextIsAPress(ps: seq<Press>, tie: Tie, k: nat, f: Fsm, input: Input)
    requires Waking(ps, tie, k, f) && k % 2 == 1 && NextInput(f, ps, tie, k) == Some(input) && input.EdgeAt?
    ensures var i := k / 2; i + 1 < |ps| && input == EdgeAt(Falling, ps[i + 1].down) && Joined(ps, true, tie, i + 1)
  {
    hide Clicks, First, WrapU32, Tap;
  }

  lemma GestureGrows(ps: seq<Press>, tie: Tie, i: nat)
    requires i + 1 < |ps| && First(ps, tie, i) && Joined(ps, true, tie, i + 1)
    ensures First(ps, tie, i + 1)
  {
    hide Joined;
  }

  lemma ClicksGrow(ps: seq<Press>, tie: Tie, i: nat)
    requires i + 1 < |ps| && Joined(ps, true, tie, i + 1)
    ensures WrapU32(WrapU32(Clicks(ps, true, tie, i)) + 1) == WrapU32(Clicks(ps, true, tie, i + 1))
  {
    CountsOn(Clicks(ps, true, tie, i));
    hide Joined, WrapU32;
  }

  /** What the window makes of a press. */
  lemma WindowIsJoined(f: Fsm, t: nat)
    requires f.mode == Window && t <= HORIZON
    ensures Handle(f, EdgeAt(Falling, t)) ==
            (f.(pressedAt := t, mode := Debounce, deadline := t + Tuning.BUTTON_DEBOUNCE, clicks := WrapU32(f.clicks + 1)), None)
  {
  }

  /** Another press, in time to join the gesture. */
  lemma AnotherPress(ps: seq<Press>, tie: Tie, k: nat, f: Fsm, input: Input)
    requires InOrder(ps) && Waking(ps, tie, k, f) && k % 2 == 1 && NextInput(f, ps, tie, k) == Some(input) && input.EdgeAt?
    ensures Handle(f, input).1.None? && !Unheeded(f, input) && Waking(ps, tie, k + 1, Handle(f, input).0)
  {
    var i := k / 2;
    NextIsAPress(ps, tie, k, f, input);
    GestureGrows(ps, tie, i);
    ClicksGrow(ps, tie, i);
    InOrderBounds(ps, i + 1);
    WindowIsJoined(f, ps[i + 1].down);
    hide NextInput, NthEdge, Clicks, Joined, Tap, Glitch, LongHold, WrapU32, First, InOrder, EdgeNext, DeadlineNext, WindowEnds, ResetAt;
  }

  /** No press came in time. */
  lemma NoMorePresses(ps: seq<Press>, tie: Tie, k: nat, f: Fsm, input: Input)
    requires InOrder(ps) && Waking(ps, tie, k, f) && k % 2 == 1 && NextInput(f, ps, tie, k) == Some(input) && input.DeadlineAt?
    ensures !Handle(f, input).0.waking && Decides(ps, tie, k / 2, Handle(f, input).1, input.at)
  {
    var i := k / 2;
    assert Ends(ps, true, tie, i);
    hide First, InOrder, WrapU32, Clicks, LongHold, Glitch, Ends;
  }

  function InputOf(d: Delivery): Input
  {
    if d.event.Button? then EdgeAt(d.event.edge, d.until) else DeadlineAt(d.until)
  }

  /** One more delivery, that was not heeded or came on time. */
  lemma InputsGrow(f: Fsm, ps: seq<Press>, tie: Tie, most: seq<Delivery>, d: Delivery)
    requires OnTime(f, ps, tie, WakePhase.Inputs(most + [d]))
    ensures var before, inputs, input := WakePhase.Inputs(most), WakePhase.Inputs(most + [d]), InputOf(d);
            var g := After(f, before, |before|);
            && OnTime(f, ps, tie, before)
            && (d.event == Icd ==> inputs == before)
            && (d.event != Icd ==>
                  && (Unheeded(g, input) || NextInput(g, ps, tie, Heeded(f, before)) == Some(input))
                  && Heeded(f, inputs) == Heeded(f, before) + if input.EdgeAt? && !Unheeded(g, input) then 1 else 0)
  {
    var before, inputs := WakePhase.Inputs(most), WakePhase.Inputs(most + [d]);
    assert (most + [d])[..|most|] == most;
    if d.event != Icd {
      assert inputs == before + [InputOf(d)];
      assert inputs[..|inputs| - 1] == before;
      hide NextInput, Unheeded, WakePhase.Inputs;
    }
  }

  /** The other way round. */
  lemma OnTimeGrows(f: Fsm, ps: seq<Press>, tie: Tie, most: seq<Delivery>, d: Delivery)
    requires var before := WakePhase.Inputs(most);
             var g := After(f, before, |before|);
             && OnTime(f, ps, tie, before)
             && (d.event != Icd ==> Unheeded(g, InputOf(d)) || NextInput(g, ps, tie, Heeded(f, before)) == Some(InputOf(d)))
    ensures var before, inputs, input := WakePhase.Inputs(most), WakePhase.Inputs(most + [d]), InputOf(d);
            && OnTime(f, ps, tie, inputs)
            && Heeded(f, inputs) == Heeded(f, before) + if d.event != Icd && input.EdgeAt? && !Unheeded(After(f, before, |before|), input) then 1 else 0
  {
    var before, inputs := WakePhase.Inputs(most), WakePhase.Inputs(most + [d]);
    assert (most + [d])[..|most|] == most;
    if d.event != Icd {
      assert inputs == before + [InputOf(d)];
      assert inputs[..|inputs| - 1] == before;
      hide NextInput, Unheeded, WakePhase.Inputs;
    }
  }

  lemma HandlesTheInput(f: Fsm, d: Delivery)
    requires d.event != Icd
    ensures WakePhase.Handled(f, d) == Handle(f, InputOf(d)) && InputOf(d).at == d.until
  {
  }

  lemma FirstGestureMoves(ps: seq<Press>, tie: Tie, k: nat, f: Fsm, input: Input)
    requires InOrder(ps) && Waking(ps, tie, k, f) && NextInput(f, ps, tie, k) == Some(input)
    ensures var (g, word) := Handle(f, input);
            if g.waking then word.None? && Waking(ps, tie, k + (if input.EdgeAt? && !Unheeded(f, input) then 1 else 0), g)
            else Decides(ps, tie, k / 2, word, input.at)
  {
    if k % 2 == 0 {
      PressIsDown(ps, tie, k, f, input);
    } else if input.EdgeAt? {
      AnotherPress(ps, tie, k, f, input);
    } else {
      NoMorePresses(ps, tie, k, f, input);
    }
    hide *;
  }

  /** The edge that comes in time is always heeded. */
  lemma NextIsHeeded(ps: seq<Press>, tie: Tie, k: nat, f: Fsm, input: Input)
    requires Waking(ps, tie, k, f) && NextInput(f, ps, tie, k) == Some(input) && input.EdgeAt?
    ensures !Unheeded(f, input)
  {
    if k % 2 == 0 {
      NextIsARelease(ps, tie, k, f, input);
    } else {
      NextIsAPress(ps, tie, k, f, input);
    }
    hide NextInput, NthEdge, Clicks, First, WrapU32, Glitch, ResetAt, Joined, Tap;
  }

  /** One delivery, while the press is undecided. */
  lemma OneDelivery(ps: seq<Press>, tie: Tie, k: nat, f: Fsm, d: Delivery)
    requires InOrder(ps) && Waking(ps, tie, k, f)
    requires d.event != Icd ==> Unheeded(f, InputOf(d)) || NextInput(f, ps, tie, k) == Some(InputOf(d))
    ensures var (g, word) := WakePhase.Handled(f, d);
            if g.waking then Waking(ps, tie, k + (if d.event != Icd && InputOf(d).EdgeAt? && !Unheeded(f, InputOf(d)) then 1 else 0), g)
            else d.event != Icd && Decides(ps, tie, k / 2, word, d.until)
  {
    var waking := f.waking;
    assert waking;
    hide *;
    if d.event == Icd {
      Ignores(f, d);
    } else {
      HandlesTheInput(f, d);
      if Unheeded(f, InputOf(d)) {
        HandlesNothing(f, InputOf(d));
      } else {
        FirstGestureMoves(ps, tie, k, f, InputOf(d));
      }
    }
  }

  /** What the wake phase has come to: its button is at some point of the first gesture, or
      that gesture has said what it means. */
  ghost predicate AtTheFirstGesture(f: Fsm, ps: seq<Press>, tie: Tie, ds: seq<Delivery>)
  {
    var inputs := WakePhase.Inputs(ds);
    var g, word := After(f, inputs, |inputs|), WakePhase.LastWord(f, inputs);
    if g.waking then Waking(ps, tie, Heeded(f, inputs), g)
    else ds != [] && DecidedBy(ps, tie, word, ds[|ds| - 1].until)
  }

  ghost predicate DecidedBy(ps: seq<Press>, tie: Tie, word: Option<Gesture>, t: nat)
  {
    exists i: nat :: Decides(ps, tie, i, word, t)
  }

  lemma IsDecided(ps: seq<Press>, tie: Tie, i: nat, word: Option<Gesture>, t: nat)
    requires Decides(ps, tie, i, word, t)
    ensures DecidedBy(ps, tie, word, t)
  {
    hide Decides;
  }

  /** The wake phase, fed on time, follows the first gesture. */
  lemma {:induction false} FollowsTheFirstGesture(l: Limits, a: AppState, at: nat, ds: seq<Delivery>, ps: seq<Press>, tie: Tie)
    requires InOrder(ps) && ps != [] && a.button == Fresh(true, ps[0].down) && PumpLegal(l, a, at, ds)
    requires OnTime(a.button, ps, tie, WakePhase.Inputs(ds))
    ensures AtTheFirstGesture(a.button, ps, tie, ds)
  {
    if ds == [] {
      StartsDown(ps, tie);
      assert WakePhase.Inputs(ds) == [] && Heeded(a.button, []) == 0 && After(a.button, [], 0) == a.button;
    } else {
      var most, d := ds[..|ds| - 1], ds[|ds| - 1];
      assert most + [d] == ds;
      assert WakePhase.Undecided(a);
      PendingBefore(l, a, at, ds);
      hide OnTime, PumpLegal, Waking, Decides, DecidedBy, InOrder, NextInput, Unheeded, Heeded, After, WakePhase.Inputs, WakePhase.LastWord, WakePhase.Undecided;
      InputsGrow(a.button, ps, tie, most, d);
      FollowsTheFirstGesture(l, a, at, most, ps, tie);
      OneMoreDelivery(a.button, ps, tie, most, d);
    }
  }

  lemma OneMoreDelivery(f: Fsm, ps: seq<Press>, tie: Tie, most: seq<Delivery>, d: Delivery)
    requires InOrder(ps) && AtTheFirstGesture(f, ps, tie, most) && OnTime(f, ps, tie, WakePhase.Inputs(most + [d]))
    requires var before := WakePhase.Inputs(most); After(f, before, |before|).waking
    ensures AtTheFirstGesture(f, ps, tie, most + [d])
  {
    var before := WakePhase.Inputs(most);
    var g := After(f, before, |before|);
    var k := Heeded(f, before);
    assert (most + [d])[|most|] == d;
    hide OnTime, Waking, Decides, DecidedBy, InOrder, NextInput, Unheeded, Heeded, After, WakePhase.Inputs, WakePhase.LastWord, WakePhase.Handled;
    InputsGrow(f, ps, tie, most, d);
    WakePhase.InputMoves(f, most, d);
    OneDelivery(ps, tie, k, g, d);
    var (h, word) := WakePhase.Handled(g, d);
    if !h.waking {
      IsDecided(ps, tie, k / 2, word, d.until);
    }
  }

  lemma HandlesNothing(f: Fsm, input: Input)
    requires Unheeded(f, input)
    ensures Handle(f, input) == (f, None)
  {
  }

  lemma Ignores(f: Fsm, d: Delivery)
    requires d.event == Icd
    ensures WakePhase.Handled(f, d) == (f, None)
  {
  }

  lemma StartsDown(ps: seq<Press>, tie: Tie)
    requires InOrder(ps) && ps != []
    ensures Waking(ps, tie, 0, Fresh(true, ps[0].down))
  {
    InOrderBounds(ps, 0);
    assert Clicks(ps, true, tie, 0) == 1;
  }

  lemma PendingBefore(l: Limits, a: AppState, at: nat, ds: seq<Delivery>)
    requires ds != [] && WakePhase.Undecided(a) && PumpLegal(l, a, at, ds)
    ensures var most := ds[..|ds| - 1];
            PumpLegal(l, a, at, most) && After(a.button, WakePhase.Inputs(most), |WakePhase.Inputs(most)|).waking
  {
    WakePhase.PressIsFollowed(l, a, at, ds[..|ds| - 1]);
  }

  /** For every list of presses and under either rule for ties: a wake phase that is given
      them on time, with any edges that are not heeded, and decided, asks for what the first gesture of the list means, at the
      instant it means it; and that is the first the list says of all. */
  lemma AsksForTheFirstGesture(l: Limits, boot: Boot, calibration: Calibration, loadedAt: nat, ds: seq<Delivery>, ps: seq<Press>, tie: Tie)
    returns (i: nat)
    requires boot.wake == WakeCause.Button && InOrder(ps) && ps != [] && ps[0].down == boot.now
    requires PumpLegal(l, NewApp(boot, calibration), loadedAt, ds)
    requires !Pump(NewApp(boot, calibration), loadedAt, ds).config.app.button.waking
    requires OnTime(Fresh(true, boot.now), ps, tie, WakePhase.Inputs(ds))
    ensures i < |ps| && First(ps, tie, i) && Ends(ps, true, tie, i)
    ensures Classification(ps, true, tie, i) == []
    ensures Classification(ps, true, tie, i + 1) == Emit(WakePhase.Wanted(boot, ds), Pump(NewApp(boot, calibration), loadedAt, ds).config.at)
  {
    var a := NewApp(boot, calibration);
    FollowsTheFirstGesture(l, a, loadedAt, ds, ps, tie);
    WakePhase.PressIsFollowed(l, a, loadedAt, ds);
    WakePhase.LastDelivery(l, a, loadedAt, ds);
    var word := WakePhase.LastWord(a.button, WakePhase.Inputs(ds));
    hide WakePhase.LastWord, WakePhase.Inputs, Pump, PumpLegal, Classification, PressSays, First, Ends;
    assert DecidedBy(ps, tie, word, ds[|ds| - 1].until);
    i :| Decides(ps, tie, i, word, ds[|ds| - 1].until);
    FirstIsSilent(ps, tie, i);
    ClassificationGrows(ps, tie, i);
  }

  lemma ClassificationGrows(ps: seq<Press>, tie: Tie, i: nat)
    requires i < |ps|
    ensures Classification(ps, true, tie, i + 1) == Classification(ps, true, tie, i) + PressSays(ps, true, tie, i)
  {
  }

  // What the person is given.

  lemma {:induction false} GivesNothing(t: seq<Entry>)
    requires forall i {:trigger t[i]} :: 0 <= i < |t| ==> !Answering.Shows(t[i]) && !Answering.Begins(t[i])
    ensures Answering.Given(t) == []
  {
    if t != [] {
      GivesNothing(t[..|t| - 1]);
    }
  }

  lemma SaysOnly(a: AppState, boot: Boot, calibration: Calibration, gesture: Option<Gesture>, now: nat)
    requires a == WakePhase.Asked(NewApp(boot, calibration).(button := a.button), gesture, now) && gesture != Some(Gesture.FactoryReset)
    ensures Answering.Owes(a, now) && Answering.Owed(a, now) == Emit(gesture, now)
  {
  }

  /** The calls of a wake phase that is done give what its press asked for, if it asked, as
      soon as it did; and nothing else. */
  lemma WakeGives(l: Limits, boot: Boot, at: nat, calibration: Calibration, loadedAt: nat, ds: seq<Delivery>, a: AppState, now: nat, due: DueAnswers)
    requires WakePhase.Decided(l, boot, at, calibration, loadedAt, ds, a, now, due)
    ensures Answering.Given(WakePhase.WakeTrace(boot, at, calibration, loadedAt, ds) + DueTrace(a, now, due)) == Emit(WakePhase.Wanted(boot, ds), now)
  {
    var said := WakePhase.WakeTrace(boot, at, calibration, loadedAt, ds);
    assert PumpLegal(l, NewApp(boot, calibration), loadedAt, ds);
    hide *;
    WakePhase.DecidedApp(l, boot, at, calibration, loadedAt, ds, a, now, due);
    SaysOnly(a, boot, calibration, WakePhase.Wanted(boot, ds), now);
    Answering.DueGiven(a, now, due);
    WakePhase.WakeOnlyAsks(l, boot, at, calibration, loadedAt, ds);
    AskingGivesNothing(said);
    GivenAfterNothing(said, DueTrace(a, now, due), Emit(WakePhase.Wanted(boot, ds), now));
  }

  lemma AskingGivesNothing(t: seq<Entry>)
    requires WakePhase.OnlyAsks(t)
    ensures Answering.Given(t) == []
  {
    GivesNothing(t);
  }

  lemma GivenAfterNothing(s: seq<Entry>, t: seq<Entry>, given: seq<Emission>)
    requires Answering.Given(s) == [] && Answering.Tells(t, [], given, [])
    ensures Answering.Given(s + t) == given
  {
    hide Answering.Given, Answering.Heard, Answering.Requested, Answering.ShowsItsOwn;
    Answering.GivenConcat(s, t);
  }

  lemma DecidedIsOver(l: Limits, boot: Boot, at: nat, calibration: Calibration, loadedAt: nat, ds: seq<Delivery>, a: AppState, now: nat, due: DueAnswers)
    requires WakePhase.Decided(l, boot, at, calibration, loadedAt, ds, a, now, due)
    ensures PumpLegal(l, NewApp(boot, calibration), loadedAt, ds) && Pump(NewApp(boot, calibration), loadedAt, ds).config == Running(a, now)
    ensures !a.button.waking
  {
    WakePhase.PressIsFollowed(l, NewApp(boot, calibration), loadedAt, ds);
    hide Pump, PumpLegal, DueLegal, WakePhase.LastWord, WakePhase.Inputs, After;
  }

  /** So the person who woke the device is given exactly what the first gesture of their
      presses means, by the calls of the wake phase, at the instant it means it. */
  lemma GivesTheFirstGesture(l: Limits, boot: Boot, calibration: Calibration, loadedAt: nat, ds: seq<Delivery>, a: AppState, now: nat, due: DueAnswers,
                             ps: seq<Press>, tie: Tie) returns (i: nat)
    requires boot.wake == WakeCause.Button && InOrder(ps) && ps != [] && ps[0].down == boot.now
    requires WakePhase.Decided(l, boot, boot.now, calibration, loadedAt, ds, a, now, due)
    requires OnTime(Fresh(true, boot.now), ps, tie, WakePhase.Inputs(ds))
    ensures i < |ps| && First(ps, tie, i) && Ends(ps, true, tie, i) && Classification(ps, true, tie, i) == []
    ensures Answering.Given(WakePhase.WakeTrace(boot, boot.now, calibration, loadedAt, ds) + DueTrace(a, now, due)) == Classification(ps, true, tie, i + 1)
  {
    hide *;
    DecidedIsOver(l, boot, boot.now, calibration, loadedAt, ds, a, now, due);
    i := AsksForTheFirstGesture(l, boot, calibration, loadedAt, ds, ps, tie);
    WakeGives(l, boot, boot.now, calibration, loadedAt, ds, a, now, due);
  }

  /** With no terms of the machine: a device woken by one press, let go in time, shows its
      moisture 400 ms after the press was let go; woken by three close together, it begins a
      calibration 400 ms after the last; and by two, or by any other number of them, up to
      2^32, it does neither. */
  lemma ABurstIsAnswered(l: Limits, boot: Boot, calibration: Calibration, loadedAt: nat, ds: seq<Delivery>, a: AppState, now: nat, due: DueAnswers,
                         ps: seq<Press>, tie: Tie)
    requires boot.wake == WakeCause.Button && InOrder(ps) && ps != [] && ps[0].down == boot.now && Burst(ps, true, tie)
    requires WakePhase.Decided(l, boot, boot.now, calibration, loadedAt, ds, a, now, due)
    requires OnTime(Fresh(true, boot.now), ps, tie, WakePhase.Inputs(ds))
    ensures var n, at := |ps| % 0x1_0000_0000, ps[|ps| - 1].up + 400;
            Answering.Given(WakePhase.WakeTrace(boot, boot.now, calibration, loadedAt, ds) + DueTrace(a, now, due)) ==
              if n == 1 then [Emission(SampleNow, at)] else if n == 3 then [Emission(Calibrate, at)] else []
  {
    hide *;
    var i := GivesTheFirstGesture(l, boot, calibration, loadedAt, ds, a, now, due, ps, tie);
    BurstIsOneGesture(ps, true, tie, i);
    BurstGoesOn(ps, tie, i);
    LastTapSays(ps, true, tie);
  }

  lemma BurstGoesOn(ps: seq<Press>, tie: Tie, i: nat)
    requires i < |ps| && Burst(ps, true, tie) && Tap(ps, true, tie, i) && Ends(ps, true, tie, i)
    ensures i + 1 == |ps|
  {
    hide Tap;
  }
}
