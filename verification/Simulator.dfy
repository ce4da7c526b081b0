/**
 The simulator's world (`sim/src/world.rs`): a clock that moves only when the code
 asks, scripts for the sensors, a queue of edges, and a model of the protocol stack
 with two deadlines. It implements the same ports as the device; each of its methods
 keeps the contract of `Ports.World`, with the limits of `SIM_LIMITS`.
 */
module Simulator {
  import opened Machine
  import opened Vocabulary
  import opened Tuning
  import opened BootModel
  import BootTheorems
  import Measurement

  const SIM_LIMITS: Limits :=
    RawLimits(SOIL_EXCITATION_SETTLE + SOIL_SAMPLE_COUNT * SOIL_SAMPLE_GAP, BATTERY_SAMPLE_COUNT * BATTERY_SAMPLE_GAP, 0, 0, 0)

  // The modelled stack.

  /** Active until one instant and long-idle from another, in virtual time; and what
      the boot has been told. `changed` latches a change it has not heard of. */
  datatype Stack = Stack(litAt: nat, activeUntil: nat, pollIntervalMs: U32, toldActive: bool, toldLit: bool, changed: bool) {

    predicate Active(clock: nat) { clock < activeUntil }

    predicate IsLit(clock: nat) { clock >= litAt }

    /** Brought up to date with the clock. */
    function Synced(clock: nat): Stack
    {
      this.(toldActive := Active(clock), toldLit := IsLit(clock),
            changed := changed || Active(clock) != toldActive || IsLit(clock) != toldLit)
    }

    /** When the stack changes next, of its two pending changes. */
    function NextChangeAt(clock: nat): Option<nat>
    {
      var active := if Active(clock) then Some(activeUntil) else None;
      var becomesLit := if IsLit(clock) then None else Some(litAt);
      match (active, becomesLit)
      case (Some(a), Some(l)) => Some(Min(a, l))
      case (Some(a), None) => Some(a)
      case (None, l) => l
    }

    /** How many notices the stack still has to give, if nobody asks it to stay active. */
    function Unheard(clock: nat): nat
    {
      (if Active(clock) then 2 else 0) + (if IsLit(clock) then 0 else 2) + (if Synced(clock).changed then 1 else 0)
    }

    function State(clock: nat, bootAt: nat): IcdState
      requires bootAt <= activeUntil
    {
      IcdState(if Active(clock) then PowerMode.Active else PowerMode.Idle,
               if IsLit(clock) then Lit else Sit,
               pollIntervalMs,
               if Active(clock) then None else Some(activeUntil + LIT_POLL_PERIOD_MS - bootAt))
    }
  }

  datatype Scheduled = Scheduled(at: nat, edge: Edge)

  // Which of the things a boot waits for comes first.

  /** What a wait delivers and leaves; or the simulator's complaint about a wait that
      nothing can end. */
  datatype Waiting = Delivered(event: Event, clock: nat, queue: seq<Scheduled>, stack: Stack) | Stuck

  /** The first of a deadline, an edge and a change of the stack. */
  function Earliest(deadline: nat, queue: seq<Scheduled>, change: Option<nat>): nat
  {
    var next := if change.Some? then Min(deadline, change.value) else deadline;
    if queue != [] then Min(queue[0].at, next) else next
  }

  function Await(clock: nat, queue: seq<Scheduled>, stack: Stack, deadline: nat): Waiting
  {
    var s := stack.Synced(clock);
    if s.changed then Delivered(Icd, clock, queue, s.(changed := false))
    else
      var first := Earliest(deadline, queue, s.NextChangeAt(clock));
      var now := Max(clock, first);
      if queue != [] && queue[0].at == first then Delivered(Event.Button(queue[0].edge), now, queue[1..], s)
      else if s.NextChangeAt(clock) == Some(first) then Delivered(Icd, now, queue, s)
      else if first > clock then Delivered(Deadline, now, queue, s)
      else Stuck
  }

  /** The simulator complains exactly about a deadline that has passed, with no edge
      waiting at or before it and no change the boot has yet to hear of. */
  lemma StuckExactlyWhen(clock: nat, queue: seq<Scheduled>, stack: Stack, deadline: nat)
    ensures Await(clock, queue, stack, deadline).Stuck? <==>
              deadline <= clock && (queue == [] || queue[0].at > deadline) && !stack.Synced(clock).changed
  {
  }

  /** No wait a boot makes in its operational phase is ever complained about, whatever
      the queue and the stack hold when it is made. */
  lemma OperationalWaitsAreNeverStuck(l: Limits, a: AppState, at: nat, laps: seq<Lap>, i: nat,
                                      bootAt: nat, queue: seq<Scheduled>, stack: Stack)
    requires BootTheorems.Starts(a, at) && IsRun(l, a, at, laps)
    requires i < |Outcomes(a, at, laps).trace| && Outcomes(a, at, laps).trace[i].Waited?
    ensures var wait := Outcomes(a, at, laps).trace[i];
            Await(bootAt + wait.at, queue, stack, bootAt + wait.deadline).Delivered?
  {
    hide Outcomes, IsRun;
    BootTheorems.WaitsAreInTheFuture(l, a, at, laps);
  }

  /** A wait the simulator does not complain about keeps the contract of the ports to
      the millisecond, whether its deadline is still to come or not. It never passes an
      edge, the queue stays in order, an edge is delivered no earlier than its time, and
      a change the boot has not heard of comes before everything. */
  lemma WaitKeepsTheContract(clock: nat, queue: seq<Scheduled>, stack: Stack, deadline: nat)
    requires Await(clock, queue, stack, deadline).Delivered?
    ensures var w := Await(clock, queue, stack, deadline);
            && WaitContract(SIM_LIMITS.late, clock, deadline, w.event, w.clock) && w.clock <= Max(clock, deadline)
            && (match w.event
                case Button(edge) => queue != [] && queue[0].edge == edge && w.queue == queue[1..] && queue[0].at <= w.clock
                case Deadline => w.queue == queue && (queue == [] || queue[0].at > w.clock)
                case Icd => w.queue == queue && (w.clock == clock || queue == [] || queue[0].at > w.clock))
            && (stack.Synced(clock).changed ==> w.event == Icd && w.clock == clock)
  {
  }

  /** When the stack has made its last change, if nobody asks it to stay active. */
  function Calm(stack: Stack): nat { Max(stack.activeUntil, stack.litAt) }

  /** A wait ends at the very instant of what ends it, and passes no edge; before the stack
      is calm it lasts no longer than until then, and after that there is one notice to come
      at most. Only asking the stack moves its deadlines. */
  lemma WaitIsExact(clock: nat, queue: seq<Scheduled>, stack: Stack, deadline: nat)
    requires Await(clock, queue, stack, deadline).Delivered?
    ensures var w := Await(clock, queue, stack, deadline);
            && w.stack.activeUntil == stack.activeUntil && w.stack.litAt == stack.litAt && w.stack.pollIntervalMs == stack.pollIntervalMs
            && (match w.event
                case Button(_) => queue != [] && w.clock == Max(clock, queue[0].at)
                case Deadline => w.clock == deadline > clock
                case Icd => clock <= w.clock && (queue == [] || w.clock <= Max(clock, queue[0].at)))
            && (clock < Calm(stack) ==> w.clock <= Calm(stack))
            && w.stack.Unheard(w.clock) + (if w.event == Icd then 1 else 0) <= stack.Unheard(clock)
            && (Calm(stack) <= clock ==> stack.Unheard(clock) <= 1)
  {
  }

  /** What a wait brings, by the instants alone. A change that the boot has not been told of
      comes at once. If there is none, the first of the edge, the next end of the active window
      or beginning of long-idle operation, and the deadline comes, at its instant or now; of two
      at one instant, in that order; and the deadline only if it is still to come. So no wait
      passes a change of the stack. */
  lemma WaitsBringTheFirst(clock: nat, queue: seq<Scheduled>, stack: Stack, deadline: nat)
    ensures var w := Await(clock, queue, stack, deadline);
            var active, lit := clock < stack.activeUntil, clock >= stack.litAt;
            var untold := stack.changed || stack.toldActive != active || stack.toldLit != lit;
            var edgeFirst := queue != [] && queue[0].at <= deadline && (active ==> queue[0].at <= stack.activeUntil) && (!lit ==> queue[0].at <= stack.litAt);
            var changeFirst := !edgeFirst && ((active && stack.activeUntil <= deadline) || (!lit && stack.litAt <= deadline));
            if untold then w == Delivered(Icd, clock, queue, stack.(toldActive := active, toldLit := lit, changed := false))
            else if edgeFirst then w == Delivered(Event.Button(queue[0].edge), Max(clock, queue[0].at), queue[1..], stack)
            else if changeFirst then
              && w.Delivered? && w.event == Icd && w.queue == queue && w.stack == stack
              && (active ==> w.clock <= stack.activeUntil) && (!lit ==> w.clock <= stack.litAt)
              && ((active && w.clock == stack.activeUntil) || (!lit && w.clock == stack.litAt))
            else w == if clock < deadline then Delivered(Deadline, deadline, queue, stack) else Stuck
  {
  }

  lemma NoChangeIsPassed(clock: nat, queue: seq<Scheduled>, stack: Stack, deadline: nat)
    requires Await(clock, queue, stack, deadline).Delivered?
    ensures var w := Await(clock, queue, stack, deadline);
            (clock < stack.activeUntil ==> w.clock <= stack.activeUntil) && (clock < stack.litAt ==> w.clock <= stack.litAt)
  {
  }

  /** A wait in a boot at `bootAt`, for `deadline`, that has ended with `event`: when, and
      what it took. */
  predicate Arrived(bootAt: nat, limit: nat, from: nat, held: seq<Scheduled>, clock: nat, queue: seq<Scheduled>, event: Event, deadline: nat)
    requires bootAt <= from && bootAt <= clock
  {
    var at, until := from - bootAt, clock - bootAt;
    && WaitContract(SIM_LIMITS.late, at, deadline, event, until) && until <= Max(at, deadline)
    && match event
       case Button(edge) => held != [] && held[0].edge == edge && queue == held[1..] && clock == Max(from, held[0].at)
       case Deadline => queue == held && (queue == [] || queue[0].at > clock) && at < until == deadline <= limit
       case Icd => queue == held && (queue == [] || clock <= Max(from, queue[0].at))
  }

  /** What a delivered wait is, in the time of the boot. */
  lemma DeliveredHasArrived(bootAt: nat, limit: nat, from: nat, held: seq<Scheduled>, stack: Stack, deadline: nat)
    requires bootAt <= from && Await(from, held, stack, bootAt + deadline).Delivered?
    ensures var w := Await(from, held, stack, bootAt + deadline);
            && bootAt <= w.clock
            && (w.event == Deadline ==> w.queue == held && from < w.clock == bootAt + deadline)
            && (!(w.event == Deadline && w.clock > bootAt + limit) ==> Arrived(bootAt, limit, from, held, w.clock, w.queue, w.event, deadline))
  {
    hide *;
    WaitKeepsTheContract(from, held, stack, bootAt + deadline);
    WaitIsExact(from, held, stack, bootAt + deadline);
    var w := Await(from, held, stack, bootAt + deadline);
    var clock, queue, event := w.clock, w.queue, w.event;
    match event {
      case Button(edge) => InTheTimeOfTheBoot(bootAt, limit, from, held, clock, queue, event, deadline);
      case Deadline => if clock <= bootAt + limit { InTheTimeOfTheBoot(bootAt, limit, from, held, clock, queue, event, deadline); }
      case Icd => InTheTimeOfTheBoot(bootAt, limit, from, held, clock, queue, event, deadline);
    }
  }

  lemma DeliveredIsNearer(clock: nat, queue: seq<Scheduled>, stack: Stack, deadline: nat)
    requires Await(clock, queue, stack, deadline).Delivered?
    ensures var w := Await(clock, queue, stack, deadline);
            && w.stack.Unheard(w.clock) + (if w.event == Icd then 1 else 0) <= stack.Unheard(clock)
            && (clock < Calm(stack) ==> w.clock <= Calm(stack))
            && w.stack.pollIntervalMs == stack.pollIntervalMs
  {
    hide *;
    WaitIsExact(clock, queue, stack, deadline);
  }

  lemma InTheTimeOfTheBoot(bootAt: nat, limit: nat, from: nat, held: seq<Scheduled>, clock: nat, queue: seq<Scheduled>, event: Event, deadline: nat)
    requires bootAt <= from && WaitContract(SIM_LIMITS.late, from, bootAt + deadline, event, clock) && clock <= Max(from, bootAt + deadline)
    requires match event
             case Button(edge) => held != [] && held[0].edge == edge && queue == held[1..] && clock == Max(from, held[0].at)
             case Deadline => queue == held && (queue == [] || queue[0].at > clock) && clock == bootAt + deadline > from && clock <= bootAt + limit
             case Icd => queue == held && from <= clock && (queue == [] || clock <= Max(from, queue[0].at))
    ensures bootAt <= clock && Arrived(bootAt, limit, from, held, clock, queue, event, deadline)
  {
  }

  /** A wait the simulator gave up on: one that nothing can end, with the world as it was; or
      one that came to its deadline with the boot past its limit. */
  predicate GaveUp(bootAt: nat, limit: nat, from: nat, held: seq<Scheduled>, before: Stack, clock: nat, queue: seq<Scheduled>, stack: Stack,
                   deadline: nat)
    requires bootAt <= from && bootAt <= clock
  {
    && queue == held
    && if Await(from, held, before, bootAt + deadline).Stuck? then clock == from && Await(clock, queue, stack, bootAt + deadline).Stuck?
       else from - bootAt < clock - bootAt == deadline && deadline > limit && stack.Unheard(clock) <= before.Unheard(from)
  }

  /** There is less to come than there was: an edge fewer, or no more edges and less time, or
      no more of either and a notice fewer. */
  predicate LessToCome(edges: nat, left: nat, notices: nat, edgesNow: nat, leftNow: nat, noticesNow: nat)
  {
    edgesNow < edges || (edgesNow == edges && (leftNow < left || (leftNow == left && noticesNow < notices)))
  }

  // The records.

  datatype BootRecord = BootRecord(startedAt: nat, wake: WakeCause, outcome: Outcome, awakeMs: nat)

  function AsleepAfter(r: BootRecord): nat
  {
    match r.outcome
    case Sleep(forMs) => forMs
    case FactoryReset => 0
  }

  /** When a chain of boots that began at 0 is over, if each began where the one before
      it ended. */
  function EndOfChain(boots: seq<BootRecord>): Option<nat>
  {
    if boots == [] then Some(0)
    else
      var before, r := EndOfChain(boots[..|boots| - 1]), boots[|boots| - 1];
      if before == Some(r.startedAt) then Some(r.startedAt + r.awakeMs + AsleepAfter(r)) else None
  }

  function Awake(boots: seq<BootRecord>): nat
  {
    if boots == [] then 0 else Awake(boots[..|boots| - 1]) + boots[|boots| - 1].awakeMs
  }

  function Asleep(boots: seq<BootRecord>): nat
  {
    if boots == [] then 0 else Asleep(boots[..|boots| - 1]) + AsleepAfter(boots[|boots| - 1])
  }

  /** A chain without gaps is exactly as long as its waking and its sleeping. */
  lemma {:induction false} ChainIsItsParts(boots: seq<BootRecord>)
    requires EndOfChain(boots).Some?
    ensures EndOfChain(boots).value == Awake(boots) + Asleep(boots)
  {
    if boots != [] {
      ChainIsItsParts(boots[..|boots| - 1]);
    }
  }

  lemma OneMoreBoot(boots: seq<BootRecord>, r: BootRecord)
    requires EndOfChain(boots) == Some(r.startedAt)
    ensures EndOfChain(boots + [r]) == Some(r.startedAt + r.awakeMs + AsleepAfter(r))
    ensures Awake(boots + [r]) == Awake(boots) + r.awakeMs && Asleep(boots + [r]) == Asleep(boots) + AsleepAfter(r)
  {
    assert (boots + [r])[..|boots|] == boots;
  }

  // The world.

  /** `tail` is what is left of `whole` after some of it was taken from the front. */
  ghost predicate TailOf(tail: seq<Scheduled>, whole: seq<Scheduled>)
  {
    exists taken: nat :: taken <= |whole| && tail == whole[taken..]
  }

  lemma TailOfTail(tail: seq<Scheduled>, middle: seq<Scheduled>, whole: seq<Scheduled>)
    requires TailOf(tail, middle) && TailOf(middle, whole)
    ensures TailOf(tail, whole)
  {
    var first: nat :| first <= |whole| && middle == whole[first..];
    var second: nat :| second <= |middle| && tail == middle[second..];
    DroppedTwice(whole, first, second);
  }

  lemma DroppedTwice(whole: seq<Scheduled>, first: nat, second: nat)
    requires first + second <= |whole|
    ensures whole[first..][second..] == whole[first + second..]
  {
  }

  lemma TailIsShorter(tail: seq<Scheduled>, whole: seq<Scheduled>)
    requires TailOf(tail, whole)
    ensures |tail| < |whole| || tail == whole
  {
    var taken: nat :| taken <= |whole| && tail == whole[taken..];
  }

  lemma TailOfFirst(tail: seq<Scheduled>, whole: seq<Scheduled>)
    requires tail == whole || (whole != [] && tail == whole[1..])
    ensures TailOf(tail, whole)
  {
    assert tail == whole[if tail == whole then 0 else 1..];
  }

  lemma TailOfItself(whole: seq<Scheduled>)
    ensures TailOf(whole, whole)
  {
    assert whole == whole[0..];
  }

  // A boot of the simulator, as its calls show it.

  /** Once the stack is started: after which of the calls of the boot, and when. */
  datatype Started = Started(after: nat, at: nat)

  /** What a boot finds, and what stays: the edges to come and the instant it begins at; the
      readings of each script and how many were said before; when the device becomes long-idle;
      and when its stack was started, if it has been. */
  datatype Setting = Setting(found: seq<Scheduled>, bootAt: nat, soil: seq<U32>, soilFrom: nat, cell: seq<U32>, cellFrom: nat, litAt: nat,
                             started: Option<Started>)

  /** An instant of the simulation, in the time of a boot; what came before it comes at once. */
  function InBoot(t: nat, bootAt: nat): nat { Max(0, t - bootAt) }

  /** What a wait since `t` may bring to a boot that has taken `n` edges of the queue it found:
      the next edge, as soon as it and the wait are there; the deadline at its instant, before
      the next edge; or a notice that does not pass the next edge by. */
  predicate Brings(found: seq<Scheduled>, bootAt: nat, n: nat, deadline: nat, t: nat, event: Event, until: nat)
  {
    match event
    case Button(edge) => n < |found| && edge == found[n].edge && until == Max(t, InBoot(found[n].at, bootAt))
    case Deadline => until == deadline && (n < |found| ==> bootAt + until < found[n].at)
    case Icd => n < |found| ==> until <= Max(t, InBoot(found[n].at, bootAt))
  }

  predicate TakesEdge(e: Entry)
  {
    match e
    case Waited(_, _, Button(_), _) => true
    case EdgePolled(_, Some(_)) => true
    case _ => false
  }

  /** What is to come in a boot: the edges, the next reading of each script, and until when the
      stack is active, if it has been started. */
  datatype Outlook = Outlook(queue: seq<Scheduled>, soil: nat, cell: nat, awakeUntil: Option<nat>)

  /** A request keeps the stack active as long as it asks for, or a second. */
  function Prolonged(until: Option<nat>, e: Entry): Option<nat>
  {
    match (until, e)
    case (Some(u), ActiveRequested(at, Some(hold))) => Some(Max(u, at + hold))
    case (Some(u), ActiveRequested(at, None)) => Some(Max(u, at + 1_000))
    case _ => until
  }

  function Onwards(w: Outlook, e: Entry): Outlook
  {
    Outlook(if TakesEdge(e) && w.queue != [] then w.queue[1..] else w.queue,
            if e.SoilRead? then w.soil + 1 else w.soil, if e.BatteryRead? then w.cell + 1 else w.cell,
            Prolonged(w.awakeUntil, e))
  }

  /** What the stack says of itself: active until an instant, a short-idle device until
      another; polled every half hour, and reachable again half an hour after it was active. */
  function StackSays(bootAt: nat, litAt: nat, awakeUntil: nat, at: nat): IcdState
  {
    IcdState(if at < awakeUntil then PowerMode.Active else PowerMode.Idle,
             if bootAt + at < litAt then Sit else Lit,
             1_800_000,
             if at < awakeUntil then None else Some(awakeUntil + 1_800_000))
  }

  /** What the world answers to a call. Waits bring what they may, and pass no change of the
      stack; a poll takes the next
      edge exactly when it is due; readings are those of the scripts, in 800 ms and in 100 ms; a
      hold is exact; and a store succeeds. */
  predicate Fits(s: Setting, w: Outlook, e: Entry)
  {
    match e
    case Waited(at, deadline, event, until) =>
      && Brings(w.queue, s.bootAt, 0, deadline, at, event, until)
      && (w.awakeUntil.Some? && at < w.awakeUntil.value ==> until <= w.awakeUntil.value)
      && (s.bootAt + at < s.litAt ==> s.bootAt + until <= s.litAt)
    case EdgePolled(at, Some(edge)) => w.queue != [] && w.queue[0].edge == edge && w.queue[0].at <= s.bootAt + at
    case EdgePolled(at, None) => w.queue != [] ==> s.bootAt + at < w.queue[0].at
    case SoilRead(at, mv, until) => s.soil != [] && mv == s.soil[w.soil % |s.soil|] && until == at + 800
    case BatteryRead(at, mv, until) => s.cell != [] && mv == s.cell[w.cell % |s.cell|] && until == at + 100
    case IcdRead(at, icd) => w.awakeUntil.Some? ==> icd == StackSays(s.bootAt, s.litAt, w.awakeUntil.value, at)
    case Delayed(at, duration, until) => until == at + duration
    case CalibrationStored(at, _, stored, until) => stored && until == at
    case _ => true
  }

  /** The stack is active for a second from its start. */
  function Begun(s: Setting, n: nat, w: Outlook): Outlook
  {
    if s.started.Some? && s.started.value.after == n then w.(awakeUntil := Some(s.started.value.at + 1_000)) else w
  }

  /** What is to come after the calls `t` of a boot, if the world answers so. */
  function Follow(s: Setting, t: seq<Entry>): Option<Outlook>
  {
    if t == [] then Some(Begun(s, 0, Outlook(s.found, s.soilFrom, s.cellFrom, None)))
    else
      var before, e := Follow(s, t[..|t| - 1]), t[|t| - 1];
      if before.Some? && Fits(s, before.value, e) then Some(Begun(s, |t|, Onwards(before.value, e))) else None
  }

  /** The calls of a boot in this setting, and what they leave. */
  ghost predicate Leaves(s: Setting, t: seq<Entry>, queue: seq<Scheduled>, soil: nat, cell: nat)
  {
    var w := Follow(s, t);
    w.Some? && w.value.queue == queue && w.value.soil == soil && w.value.cell == cell
  }

  ghost predicate InStep(s: Setting, t: seq<Entry>, w: Outlook)
  {
    Follow(s, t) == Some(w) && (s.started.Some? ==> s.started.value.after <= |t|)
  }

  lemma BeginsInStep(s: Setting)
    requires s.started.None?
    ensures InStep(s, [], Outlook(s.found, s.soilFrom, s.cellFrom, None))
  {
  }

  /** A wait that was ended so fits. */
  lemma WaitFits(s: Setting, w: Outlook, limit: nat, from: nat, clock: nat, queue: seq<Scheduled>, event: Event, deadline: nat)
    requires s.bootAt <= from && s.bootAt <= clock && Arrived(s.bootAt, limit, from, w.queue, clock, queue, event, deadline)
    requires w.awakeUntil.Some? && from < s.bootAt + w.awakeUntil.value ==> clock <= s.bootAt + w.awakeUntil.value
    requires from < s.litAt ==> clock <= s.litAt
    ensures var e := Waited(from - s.bootAt, deadline, event, clock - s.bootAt);
            Fits(s, w, e) && Onwards(w, e) == w.(queue := queue)
  {
    hide WaitContract;
  }

  /** One more call keeps in step, if it fits. */
  lemma StaysInStep(s: Setting, t: seq<Entry>, w: Outlook, e: Entry, now: Outlook)
    requires InStep(s, t, w) && Fits(s, w, e) && now == Onwards(w, e)
    ensures InStep(s, t + [e], now)
  {
    assert (t + [e])[..|t|] == t;
    hide Fits, Onwards;
  }

  lemma LeavesWhatIsAhead(s: Setting, t: seq<Entry>, w: Outlook)
    requires InStep(s, t, w)
    ensures Leaves(s, t, w.queue, w.soil, w.cell)
  {
    hide Follow;
  }

  /** A boot whose stack is started now. */
  lemma {:induction false} FollowsOn(s: Setting, t: seq<Entry>, started: Started)
    requires s.started.None? && |t| < started.after
    ensures Follow(s.(started := Some(started)), t) == Follow(s, t)
  {
    if t != [] {
      FollowsOn(s, t[..|t| - 1], started);
    }
  }

  lemma StartsInStep(s: Setting, t: seq<Entry>, w: Outlook, at: nat)
    requires InStep(s, t, w) && s.started.None?
    ensures InStep(s.(started := Some(Started(|t|, at))), t, w.(awakeUntil := Some(at + 1_000)))
  {
    if t != [] {
      FollowsOn(s, t[..|t| - 1], Started(|t|, at));
    }
    hide Fits;
  }

  /** Each call was answered so. */
  lemma {:induction false} FitsAt(s: Setting, t: seq<Entry>, n: nat)
    requires Follow(s, t).Some? && n < |t|
    ensures Follow(s, t[..n]).Some? && Fits(s, Follow(s, t[..n]).value, t[n])
  {
    var most := t[..|t| - 1];
    hide Fits, Onwards, Begun;
    if n < |most| {
      FitsAt(s, most, n);
      assert most[..n] == t[..n];
    }
  }

  /** Once it was started the stack is active until a known instant, a second after that at the
      earliest. */
  lemma {:induction false} ActiveAtFirst(s: Setting, t: seq<Entry>)
    requires Follow(s, t).Some? && s.started.Some? && s.started.value.after <= |t|
    ensures var until := Follow(s, t).value.awakeUntil; until.Some? && until.value >= s.started.value.at + 1_000
  {
    hide Fits;
    if s.started.value.after < |t| {
      ActiveAtFirst(s, t[..|t| - 1]);
    }
  }

  // What was taken.

  function EdgesTaken(t: seq<Entry>): nat
  {
    if t == [] then 0 else EdgesTaken(t[..|t| - 1]) + if TakesEdge(t[|t| - 1]) then 1 else 0
  }

  function SoilReads(t: seq<Entry>): nat
  {
    if t == [] then 0 else SoilReads(t[..|t| - 1]) + if t[|t| - 1].SoilRead? then 1 else 0
  }

  function CellReads(t: seq<Entry>): nat
  {
    if t == [] then 0 else CellReads(t[..|t| - 1]) + if t[|t| - 1].BatteryRead? then 1 else 0
  }

  /** What is left is what was found without what was taken. */
  lemma {:induction false} TakenFromTheFront(s: Setting, t: seq<Entry>)
    requires Follow(s, t).Some?
    ensures var w := Follow(s, t).value;
            && EdgesTaken(t) <= |s.found| && w.queue == s.found[EdgesTaken(t)..]
            && w.soil == s.soilFrom + SoilReads(t) && w.cell == s.cellFrom + CellReads(t)
  {
    if t != [] {
      TakenFromTheFront(s, t[..|t| - 1]);
      var w, e := Follow(s, t[..|t| - 1]).value, t[|t| - 1];
      assert Fits(s, w, e);
      assert TakesEdge(e) ==> w.queue != [];
      hide Fits;
    }
  }

  /** Readings said over and over. */
  class Script {
    const values: seq<U32>
    var index: nat
    /** How many readings have been taken. */
    ghost var taken: nat

    ghost predicate Valid() reads this { values != [] && index == taken % |values| }

    constructor (values: seq<U32>)
      requires values != []
      ensures Valid() && this.values == values && taken == 0
    {
      this.values, index, taken := values, 0, 0;
    }

    /** Reading `n` is reading `n` of the list said over and over. */
    method Next() returns (value: U32)
      requires Valid()
      modifies this
      ensures Valid() && value == values[old(taken) % |values|] && taken == old(taken) + 1
    {
      value := values[index];
      NextTurn(taken, |values|);
      index := (index + 1) % |values|;
      taken := taken + 1;
    }
  }

  lemma NextTurn(n: nat, size: nat)
    requires size > 0
    ensures (n % size + 1) % size == (n + 1) % size
  {
    var turns, rest := n / size, n % size;
    assert n == size * turns + rest;
    if rest + 1 < size {
      RestIs(n + 1, turns, rest + 1, size);
      RestIs(rest + 1, 0, rest + 1, size);
    } else {
      Measurement.OneMore(size, turns + 1);
      RestIs(n + 1, turns + 1, 0, size);
      RestIs(rest + 1, 1, 0, size);
    }
  }

  lemma RestIs(n: nat, turns: nat, rest: nat, size: nat)
    requires rest < size && n == size * turns + rest
    ensures n % size == rest
  {
    var t := n / size;
    assert n == size * t + n % size;
    if t < turns {
      Measurement.ProductMonotone(t + 1, turns, size);
    } else if turns < t {
      Measurement.ProductMonotone(turns + 1, t, size);
    }
  }

  class SimWorld {
    var clock: nat
    var bootAt: nat
    const soil: Script
    const battery: Script
    var queue: seq<Scheduled>
    var stack: Stack
    var calibration: Calibration
    var calibrationWrites: nat
    var rebootCountWrites: nat
    var boots: seq<BootRecord>
    var awakeMs: nat
    var asleepMs: nat
    var afterCrash: bool
    /** How long a boot may last before the simulator gives up on it. */
    const bootLimit: nat
    /** The calls of the current boot, in its own time. */
    ghost var trace: seq<Entry>
    ghost var setting: Setting

    ghost predicate Valid()
      reads this, soil, battery
    {
      && soil != battery && soil.Valid() && battery.Valid() && bootAt <= clock && bootAt <= stack.activeUntil
      && InStep(setting, trace, Ahead()) && bootAt == setting.bootAt
      && soil.values == setting.soil && battery.values == setting.cell && stack.litAt == setting.litAt && stack.pollIntervalMs == LIT_POLL_PERIOD_MS
    }

    /** What is to come in this boot. */
    ghost function Ahead(): Outlook
      requires bootAt <= stack.activeUntil
      reads this`setting, this`queue, this`stack, this`bootAt, soil`taken, battery`taken
    {
      Outlook(queue, soil.taken, battery.taken, if setting.started.Some? then Some(stack.activeUntil - bootAt) else None)
    }

    /** The books are kept: the clock is what the boots were awake and asleep, and no
        time is missing between them. */
    ghost predicate Balanced()
      reads this
    {
      && EndOfChain(boots) == Some(clock)
      && awakeMs == Awake(boots) && asleepMs == Asleep(boots)
    }

    constructor (soil: Script, battery: Script, presses: seq<Scheduled>, litAt: nat, bootLimit: nat)
      requires soil != battery && soil.Valid() && battery.Valid()
      ensures Valid() && Balanced() && fresh(this) && clock == 0 && boots == [] && queue == presses
      ensures this.soil == soil && this.battery == battery && calibration == DEFAULT_CALIBRATION
      ensures this.bootLimit == bootLimit
    {
      this.bootLimit := bootLimit;
      clock, bootAt, queue := 0, 0, presses;
      this.soil, this.battery := soil, battery;
      stack := Stack(litAt, 0, LIT_POLL_PERIOD_MS, true, true, false);
      calibration, calibrationWrites, rebootCountWrites := DEFAULT_CALIBRATION, 0, 0;
      boots, awakeMs, asleepMs, afterCrash, trace := [], 0, 0, false, [];
      ghost var nothing := Setting(presses, 0, soil.values, soil.taken, battery.values, battery.taken, litAt, None);
      setting := nothing;
      BeginsInStep(nothing);
    }

    function Time(): nat
      requires bootAt <= clock
      reads this`clock, this`bootAt
    {
      clock - bootAt
    }

    /** What no port call touches. */
    twostate predicate Kept()
      reads this`bootAt, this`setting, this`afterCrash, this`boots, this`awakeMs, this`asleepMs, this`clock, this`stack
    {
      && bootAt == old(bootAt) && setting == old(setting) && afterCrash == old(afterCrash) && boots == old(boots) && awakeMs == old(awakeMs) && asleepMs == old(asleepMs)
      && clock >= old(clock) && stack.activeUntil >= old(stack.activeUntil) && stack.litAt == old(stack.litAt)
    }

    method Delay(d: nat)
      requires Valid()
      modifies this`clock, this`stack, this`trace
      ensures Valid() && Passed() && Time() == old(Time()) + d
      ensures trace == old(trace) + [Delayed(old(Time()), d, Time())]
    {
      hide InStep;
      ghost var at := Time();
      clock := clock + d;
      stack := stack.Synced(clock);
      StaysInStep(setting, old(trace), old(Ahead()), Delayed(at, d, Time()), Ahead());
      trace := trace + [Delayed(at, d, Time())];
    }

    function Unheard(): nat
      reads this`clock, this`stack
    {
      stack.Unheard(clock)
    }

    /** What a call that only lets time pass does not touch. */
    twostate predicate Passed()
      reads this`bootAt, this`setting, this`afterCrash, this`boots, this`awakeMs, this`asleepMs, this`clock, this`stack, this`queue
    {
      Kept() && queue == old(queue) && Unheard() <= old(Unheard()) && stack.activeUntil == old(stack.activeUntil)
    }

    /** A wait, by the contract of the ports; or `None`, when one of the simulator's own
        checks fails. */
    method NextEvent(deadline: nat) returns (event: Option<Event>)
      requires Valid()
      modifies this`clock, this`stack, this`queue, this`trace
      ensures Valid() && clock >= old(clock) && stack.activeUntil == old(stack.activeUntil) && stack.litAt == old(stack.litAt)
      ensures old(clock < Calm(stack)) ==> clock <= old(Calm(stack))
      ensures old(Await(clock, queue, stack, bootAt + deadline).Stuck?) ==> event.None?
      ensures event.None? ==> GaveUp(bootAt, bootLimit, old(clock), old(queue), old(stack), clock, queue, stack, deadline)
      ensures event.Some? ==>
                && Arrived(bootAt, bootLimit, old(clock), old(queue), clock, queue, event.value, deadline)
                && trace == old(trace) + [Waited(old(Time()), deadline, event.value, Time())]
                && Unheard() + (if event.value == Event.Icd then 1 else 0) <= old(Unheard())
    {
      hide Await, Stack.Unheard, InStep, Fits, Onwards, Calm, Arrived;
      ghost var at := Time();
      if Await(clock, queue, stack, bootAt + deadline).Delivered? {
        DeliveredIsNearer(clock, queue, stack, bootAt + deadline);
        DeliveredHasArrived(bootAt, bootLimit, clock, queue, stack, deadline);
        NoChangeIsPassed(clock, queue, stack, bootAt + deadline);
      }
      event := Wait(bootAt + deadline);
      if event == Some(Deadline) && clock > bootAt + bootLimit {
        return None;
      }
      if event.Some? {
        WaitFits(setting, old(Ahead()), bootLimit, old(clock), clock, queue, event.value, deadline);
        StaysInStep(setting, old(trace), old(Ahead()), Waited(at, deadline, event.value, Time()), Ahead());
        trace := trace + [Waited(at, deadline, event.value, Time())];
      }
    }

    /** The wait itself, in virtual time. */
    method Wait(deadlineAt: nat) returns (event: Option<Event>)
      modifies this`clock, this`stack, this`queue
      ensures match event
              case Some(e) => Delivered(e, clock, queue, stack) == Await(old(clock), old(queue), old(stack), deadlineAt)
              case None =>
                && Await(old(clock), old(queue), old(stack), deadlineAt).Stuck? && queue == old(queue) && clock == old(clock)
                && Await(clock, queue, stack, deadlineAt).Stuck?
      ensures stack.activeUntil == old(stack.activeUntil) && stack.litAt == old(stack.litAt) && clock >= old(clock)
      ensures stack.pollIntervalMs == old(stack.pollIntervalMs)
    {
      stack := stack.Synced(clock);
      if stack.changed {
        stack := stack.(changed := false);
        return Some(Event.Icd);
      }
      var change := stack.NextChangeAt(clock);
      var next := Earliest(deadlineAt, queue, change);
      var before := clock;
      clock := Max(before, next);
      if queue != [] && queue[0].at == next {
        event := Some(Event.Button(queue[0].edge));
        queue := queue[1..];
        return;
      }
      if change == Some(next) {
        return Some(Event.Icd);
      }
      return if next > before then Some(Deadline) else None;
    }

    method TryNextButtonEdge() returns (edge: Option<Edge>)
      requires Valid()
      modifies this`queue, this`trace
      ensures Valid()
      ensures match edge
              case Some(e) => old(queue) != [] && old(queue)[0].edge == e && old(queue)[0].at <= clock && queue == old(queue)[1..]
              case None => queue == old(queue) && (queue == [] || queue[0].at > clock)
      ensures trace == old(trace) + [EdgePolled(Time(), edge)]
    {
      hide InStep;
      edge := None;
      if queue != [] && queue[0].at <= clock {
        edge := Some(queue[0].edge);
        queue := queue[1..];
      }
      StaysInStep(setting, old(trace), old(Ahead()), EdgePolled(Time(), edge), Ahead());
      trace := trace + [EdgePolled(Time(), edge)];
    }

    method ReadSoilMv() returns (mv: U32)
      requires Valid()
      modifies this`clock, this`stack, this`trace, soil
      ensures Valid() && Passed() && Time() == old(Time()) + SIM_LIMITS.soil
      ensures trace == old(trace) + [SoilRead(old(Time()), mv, Time())]
    {
      hide InStep;
      ghost var at := Time();
      clock := clock + SOIL_EXCITATION_SETTLE + SOIL_SAMPLE_COUNT * SOIL_SAMPLE_GAP;
      stack := stack.Synced(clock);
      mv := soil.Next();
      StaysInStep(setting, old(trace), old(Ahead()), SoilRead(at, mv, Time()), Ahead());
      trace := trace + [SoilRead(at, mv, Time())];
    }

    method ReadBatteryMv() returns (mv: U32)
      requires Valid()
      modifies this`clock, this`trace, battery
      ensures Valid() && Passed() && Time() == old(Time()) + SIM_LIMITS.battery
      ensures trace == old(trace) + [BatteryRead(old(Time()), mv, Time())]
    {
      hide InStep;
      ghost var at := Time();
      clock := clock + BATTERY_SAMPLE_COUNT * BATTERY_SAMPLE_GAP;
      mv := battery.Next();
      StaysInStep(setting, old(trace), old(Ahead()), BatteryRead(at, mv, Time()), Ahead());
      trace := trace + [BatteryRead(at, mv, Time())];
    }

    method Icd() returns (icd: IcdState)
      requires Valid()
      modifies this`trace
      ensures Valid() && icd == stack.State(clock, bootAt)
      ensures trace == old(trace) + [IcdRead(Time(), icd)]
    {
      hide InStep;
      icd := stack.State(clock, bootAt);
      StaysInStep(setting, old(trace), old(Ahead()), IcdRead(Time(), icd), Ahead());
      trace := trace + [IcdRead(Time(), icd)];
    }

    method RequestActive(hold: Option<nat>)
      requires Valid()
      modifies this`stack, this`trace
      ensures Valid() && Kept()
      ensures var until := clock + if hold.Some? then hold.value else ACTIVE_HOLD;
              stack == old(stack).(activeUntil := Max(old(stack.activeUntil), until)).Synced(clock)
      ensures trace == old(trace) + [ActiveRequested(Time(), hold)]
    {
      hide InStep;
      var until := clock + if hold.Some? then hold.value else ACTIVE_HOLD;
      stack := stack.(activeUntil := Max(stack.activeUntil, until)).Synced(clock);
      StaysInStep(setting, old(trace), old(Ahead()), ActiveRequested(Time(), hold), Ahead());
      trace := trace + [ActiveRequested(Time(), hold)];
    }

    method LoadCalibration() returns (loaded: Calibration)
      requires Valid()
      modifies this`trace
      ensures Valid() && loaded == calibration
      ensures trace == old(trace) + [CalibrationLoaded(Time(), loaded, Time())]
    {
      hide InStep;
      loaded := calibration;
      StaysInStep(setting, old(trace), old(Ahead()), CalibrationLoaded(Time(), loaded, Time()), Ahead());
      trace := trace + [CalibrationLoaded(Time(), loaded, Time())];
    }

    method StoreCalibration(c: Calibration) returns (stored: bool)
      requires Valid()
      modifies this`calibration, this`calibrationWrites, this`trace
      ensures Valid() && stored && calibration == c && calibrationWrites == old(calibrationWrites) + 1
      ensures trace == old(trace) + [CalibrationStored(Time(), c, stored, Time())]
    {
      hide InStep;
      calibration := c;
      calibrationWrites := calibrationWrites + 1;
      stored := true;
      StaysInStep(setting, old(trace), old(Ahead()), CalibrationStored(Time(), c, stored, Time()), Ahead());
      trace := trace + [CalibrationStored(Time(), c, stored, Time())];
    }

    method PersistRebootCount()
      requires Valid()
      modifies this`rebootCountWrites, this`trace
      ensures Valid() && rebootCountWrites == old(rebootCountWrites) + 1
      ensures trace == old(trace) + [RebootCountPersisted(Time())]
    {
      hide InStep;
      rebootCountWrites := rebootCountWrites + 1;
      StaysInStep(setting, old(trace), old(Ahead()), RebootCountPersisted(Time()), Ahead());
      trace := trace + [RebootCountPersisted(Time())];
    }

    method SendLed(command: LedCommand)
      requires Valid()
      modifies this`trace
      ensures Valid() && trace == old(trace) + [LedSent(Time(), command)]
    {
      hide InStep;
      StaysInStep(setting, old(trace), old(Ahead()), LedSent(Time(), command), Ahead());
      trace := trace + [LedSent(Time(), command)];
    }

    method ReportSoil(percent: nat)
      requires Valid()
      modifies this`trace
      ensures Valid() && trace == old(trace) + [SoilReported(Time(), percent)]
    {
      hide InStep;
      StaysInStep(setting, old(trace), old(Ahead()), SoilReported(Time(), percent), Ahead());
      trace := trace + [SoilReported(Time(), percent)];
    }

    method ReportBattery(reading: Option<BatteryReading>)
      requires Valid()
      modifies this`trace
      ensures Valid() && trace == old(trace) + [BatteryReported(Time(), reading)]
    {
      hide InStep;
      StaysInStep(setting, old(trace), old(Ahead()), BatteryReported(Time(), reading), Ahead());
      trace := trace + [BatteryReported(Time(), reading)];
    }

    /** Book a boot that began at `startedAt`, and its sleep. */
    method Book(startedAt: nat, wake: WakeCause, outcome: Outcome)
      requires EndOfChain(boots) == Some(startedAt) && startedAt <= clock
      requires awakeMs == Awake(boots) && asleepMs == Asleep(boots)
      modifies this`boots, this`awakeMs, this`asleepMs, this`clock
      ensures Balanced()
      ensures boots == old(boots) + [BootRecord(startedAt, wake, outcome, old(clock) - startedAt)]
      ensures clock == old(clock) + AsleepAfter(boots[|old(boots)|])
    {
      hide EndOfChain, Awake, Asleep;
      var awake := clock - startedAt;
      OneMoreBoot(boots, BootRecord(startedAt, wake, outcome, awake));
      awakeMs := awakeMs + awake;
      boots := boots + [BootRecord(startedAt, wake, outcome, awake)];
      if outcome.Sleep? {
        asleepMs := asleepMs + outcome.forMs;
        clock := clock + outcome.forMs;
      }
    }
  }
}
