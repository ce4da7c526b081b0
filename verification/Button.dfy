/**
 The machine that recognises gestures (`core/src/button.rs`).

 `Fsm` is its state as a value, with one function per operation; the class
 `ButtonFsm` is the machine as the program has it, and follows the functions.
 The lemmas at the end hold for edges and deadlines delivered in any order, late
 or repeated.
 */
module Button {
  import opened Machine
  import opened Vocabulary
  import Tuning

  datatype Gesture = SampleNow | Calibrate | FactoryReset

  datatype Mode = Idle | Debounce | Held | WaitRelease | Window

  datatype Fsm = Fsm(mode: Mode, pressedAt: nat, deadline: nat, clicks: U32, waking: bool) {

    function NextDeadline(): Option<nat>
    {
      match mode
      case Debounce | Held | Window => Some(deadline)
      case Idle | WaitRelease => None
    }

    predicate IsActive() { mode != Mode.Idle }

    predicate WakingPressPending() { waking && NextDeadline().Some? }

    /** The machine believes the pin is down. */
    predicate Pressed() { mode.Debounce? || mode.Held? || mode.WaitRelease? }
  }

  /** How many deadlines the machine can serve before it waits for none. */
  function Rank(mode: Mode): nat
  {
    match mode
    case Debounce => 2
    case Held | Window => 1
    case Idle | WaitRelease => 0
  }

  function Fresh(heldAtBoot: bool, now: nat): Fsm
  {
    if heldAtBoot then Fsm(Held, now, SatAdd(now, Tuning.BUTTON_FACTORY_RESET_HOLD), 1, true)
    else Fsm(Mode.Idle, now, now, 0, false)
  }

  function Begun(f: Fsm, now: nat): Fsm
  {
    f.(pressedAt := now, mode := Debounce, deadline := SatAdd(now, Tuning.BUTTON_DEBOUNCE))
  }

  /** The counter is an unsigned 32-bit one, and wraps. */
  function EdgeNext(f: Fsm, edge: Edge, now: nat): Fsm
  {
    match (f.mode, edge)
    case (Idle, Falling) => Begun(f.(clicks := 1), now)
    case (Window, Falling) => Begun(f.(clicks := WrapU32(f.clicks + 1)), now)
    case (Debounce, Rising) => f.(waking := false, mode := Mode.Idle)
    case (Held, Rising) => f.(mode := Window, deadline := SatAdd(now, Tuning.BUTTON_TRIPLE_CLICK_WINDOW))
    case (WaitRelease, Rising) => f.(mode := Mode.Idle)
    case _ => f
  }

  /** What a gesture of `clicks` presses asks for. */
  function Verdict(clicks: U32): Option<Gesture>
  {
    if clicks == 1 then Some(SampleNow) else if clicks == 3 then Some(Calibrate) else None
  }

  function DeadlineNext(f: Fsm, now: nat): (Fsm, Option<Gesture>)
  {
    if now < f.deadline then (f, None)
    else match f.mode
      case Debounce => (f.(mode := Held, deadline := SatAdd(now, Tuning.BUTTON_FACTORY_RESET_HOLD)), None)
      case Held => (f.(waking := false, mode := WaitRelease), Some(Gesture.FactoryReset))
      case Window => (f.(waking := false, mode := Mode.Idle), Verdict(f.clicks))
      case _ => (f, None)
  }

  class ButtonFsm {
    var mode: Mode
    var pressedAt: nat
    var deadline: nat
    var clicks: U32
    var waking: bool

    function View(): Fsm
      reads this
    {
      Fsm(mode, pressedAt, deadline, clicks, waking)
    }

    constructor (heldAtBoot: bool, now: nat)
      ensures View() == Fresh(heldAtBoot, now)
    {
      mode := Mode.Idle;
      pressedAt := now;
      deadline := now;
      clicks := 0;
      waking := heldAtBoot;
      if heldAtBoot {
        clicks := 1;
        pressedAt := now;
        mode := Held;
        deadline := SatAdd(now, Tuning.BUTTON_FACTORY_RESET_HOLD);
      }
    }

    method BeginPress(now: nat)
      modifies this
      ensures View() == Begun(old(View()), now)
    {
      pressedAt := now;
      mode := Debounce;
      deadline := SatAdd(now, Tuning.BUTTON_DEBOUNCE);
    }

    /** An edge on its own never completes a gesture. */
    method OnEdge(edge: Edge, now: nat) returns (gesture: Option<Gesture>)
      modifies this
      ensures View() == EdgeNext(old(View()), edge, now)
      ensures gesture == None
    {
      gesture := None;
      match (mode, edge) {
        case (Idle, Falling) =>
          clicks := 1;
          BeginPress(now);
        case (Window, Falling) =>
          clicks := WrapU32(clicks + 1);
          BeginPress(now);
        case (Debounce, Rising) =>
          waking := false;
          mode := Mode.Idle;
        case (Held, Rising) =>
          mode := Window;
          deadline := SatAdd(now, Tuning.BUTTON_TRIPLE_CLICK_WINDOW);
        case (WaitRelease, Rising) =>
          mode := Mode.Idle;
        case _ =>
      }
    }

    method OnDeadline(now: nat) returns (gesture: Option<Gesture>)
      modifies this
      ensures (View(), gesture) == DeadlineNext(old(View()), now)
      ensures gesture == Some(SampleNow) <==> old(mode) == Window && old(deadline) <= now && old(clicks) == 1
      ensures gesture == Some(Calibrate) <==> old(mode) == Window && old(deadline) <= now && old(clicks) == 3
      ensures gesture == Some(Gesture.FactoryReset) <==> old(mode) == Held && old(deadline) <= now
    {
      if now < deadline {
        return None;
      }
      match mode {
        case Debounce =>
          mode := Held;
          deadline := SatAdd(now, Tuning.BUTTON_FACTORY_RESET_HOLD);
          return None;
        case Held =>
          waking := false;
          mode := WaitRelease;
          return Some(Gesture.FactoryReset);
        case Window =>
          waking := false;
          mode := Mode.Idle;
          if clicks == 1 { return Some(SampleNow); }
          if clicks == 3 { return Some(Calibrate); }
          return None;
        case _ =>
          return None;
      }
    }
  }

  // Arbitrary delivery.

  datatype Input = EdgeAt(edge: Edge, at: nat) | DeadlineAt(at: nat)

  function Handle(f: Fsm, input: Input): (Fsm, Option<Gesture>)
  {
    match input
    case EdgeAt(edge, at) => (EdgeNext(f, edge, at), None)
    case DeadlineAt(at) => DeadlineNext(f, at)
  }

  /** The machine after the first `n` inputs. */
  function After(f: Fsm, inputs: seq<Input>, n: nat): Fsm
    requires n <= |inputs|
  {
    if n == 0 then f else Handle(After(f, inputs, n - 1), inputs[n - 1]).0
  }

  /** What the machine says when it handles input `k`. */
  function Says(f: Fsm, inputs: seq<Input>, k: nat): Option<Gesture>
    requires k < |inputs|
  {
    Handle(After(f, inputs, k), inputs[k]).1
  }

  /** The level of the pin after the first `n` inputs: the last edge delivered. */
  function PinDown(atBoot: bool, inputs: seq<Input>, n: nat): bool
    requires n <= |inputs|
  {
    if n == 0 then atBoot
    else match inputs[n - 1]
      case EdgeAt(edge, _) => edge.Falling?
      case DeadlineAt(_) => PinDown(atBoot, inputs, n - 1)
  }

  /** The machine knows the level of the pin, whatever order edges and deadlines
      come in. */
  lemma {:induction false} LevelIsTracked(heldAtBoot: bool, now: nat, inputs: seq<Input>, n: nat)
    requires n <= |inputs|
    ensures After(Fresh(heldAtBoot, now), inputs, n).Pressed() <==> PinDown(heldAtBoot, inputs, n)
  {
    if n > 0 {
      LevelIsTracked(heldAtBoot, now, inputs, n - 1);
    }
  }

  /** While the waking press is undecided the machine always waits for a deadline. */
  lemma {:induction false} WakingHasADeadline(heldAtBoot: bool, now: nat, inputs: seq<Input>, n: nat)
    requires n <= |inputs|
    ensures var f := After(Fresh(heldAtBoot, now), inputs, n);
            f.waking ==> f.NextDeadline().Some? && f.WakingPressPending()
  {
    if n > 0 {
      WakingHasADeadline(heldAtBoot, now, inputs, n - 1);
    }
  }

  /** When input `j - 1` was handled; the boot itself when there is none. */
  function EnteredAt(now: nat, inputs: seq<Input>, j: nat): nat
    requires j <= |inputs|
  {
    if j == 0 then now else inputs[j - 1].at
  }

  ghost predicate HeldFrom(f: Fsm, inputs: seq<Input>, j: nat, n: nat)
    requires j <= n <= |inputs|
  {
    && (forall m {:trigger After(f, inputs, m)} :: j <= m <= n ==> After(f, inputs, m).mode == Held)
    && (forall m {:trigger inputs[m]} :: j <= m < n ==> !(inputs[m].EdgeAt? && inputs[m].edge.Rising?))
  }

  lemma {:induction false} HeldSince(heldAtBoot: bool, now: nat, inputs: seq<Input>, n: nat) returns (j: nat)
    requires n <= |inputs|
    requires After(Fresh(heldAtBoot, now), inputs, n).mode == Held
    ensures j <= n && HeldFrom(Fresh(heldAtBoot, now), inputs, j, n)
    ensures After(Fresh(heldAtBoot, now), inputs, n).deadline == SatAdd(EnteredAt(now, inputs, j), Tuning.BUTTON_FACTORY_RESET_HOLD)
  {
    var f := Fresh(heldAtBoot, now);
    if n == 0 {
      j := 0;
    } else if After(f, inputs, n - 1).mode == Held {
      j := HeldSince(heldAtBoot, now, inputs, n - 1);
    } else {
      j := n;
    }
  }

  /** A factory reset is only ever said to a button that has been held, with no
      release seen, for the whole hold. */
  lemma ResetNeedsTheWholeHold(heldAtBoot: bool, now: nat, inputs: seq<Input>, k: nat)
    requires now <= HORIZON && forall m :: 0 <= m < |inputs| ==> inputs[m].at <= HORIZON
    requires k < |inputs| && Says(Fresh(heldAtBoot, now), inputs, k) == Some(Gesture.FactoryReset)
    ensures exists j: nat :: j <= k && HeldFrom(Fresh(heldAtBoot, now), inputs, j, k)
                             && EnteredAt(now, inputs, j) + Tuning.BUTTON_FACTORY_RESET_HOLD <= inputs[k].at
  {
    var j := HeldSince(heldAtBoot, now, inputs, k);
    assert EnteredAt(now, inputs, j) <= HORIZON;
  }

  predicate IsEdge(input: Input, edge: Edge) { input.EdgeAt? && input.edge == edge }

  /** After a reset the machine waits for a release, or has seen one; and it is
      not idle again and pressed again without the press having been seen. */
  lemma {:induction false} AfterAReset(f: Fsm, inputs: seq<Input>, k: nat, n: nat) returns (r: nat, p: nat)
    requires k < n <= |inputs| && Says(f, inputs, k) == Some(Gesture.FactoryReset)
    ensures k < r <= p <= n
    ensures After(f, inputs, n).mode != WaitRelease ==> r < n && IsEdge(inputs[r], Rising)
    ensures After(f, inputs, n).mode != WaitRelease && After(f, inputs, n).mode != Mode.Idle ==>
              r < p < n && IsEdge(inputs[p], Falling)
  {
    if n == k + 1 {
      return n, n;
    }
    r, p := AfterAReset(f, inputs, k, n - 1);
    var before := After(f, inputs, n - 1).mode;
    if before == WaitRelease {
      r, p := n - 1, n;
    } else if before == Mode.Idle {
      p := n - 1;
    }
  }

  /** Two factory resets are always separated by a release and then a press. */
  lemma ResetsAreSeparated(f: Fsm, inputs: seq<Input>, k: nat, n: nat)
    requires k < n < |inputs|
    requires Says(f, inputs, k) == Some(Gesture.FactoryReset) && Says(f, inputs, n) == Some(Gesture.FactoryReset)
    ensures exists r: nat, p: nat {:trigger IsEdge(inputs[r], Rising), IsEdge(inputs[p], Falling)} ::
              k < r < p < n && IsEdge(inputs[r], Rising) && IsEdge(inputs[p], Falling)
  {
    var r, p := AfterAReset(f, inputs, k, n);
  }
}
