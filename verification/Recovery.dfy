/**
 The back-off from crash loops (`core/src/recovery.rs`), over whole sequences of boots. The device keeps one count across resets
 (`fw/src/main.rs`): it stores what `Recover` says before the boot runs, and
 clears it at every planned end. It may start as any value.
 */
module Recovery {
  import opened Machine
  import opened Vocabulary
  import opened Tuning

  datatype Recovery = Recovery(backOff: Option<nat>, crashedBoots: U32, afterCrash: bool)

  function SatSucc(n: U32): U32 { if n == U32_MAX then n else n + 1 }

  function Recover(crashedBoots: U32, wake: WakeCause, hostReset: bool): Recovery
  {
    if hostReset then Recovery(None, 1, false)
    else if wake == WakeCause.Button || crashedBoots < CRASH_LOOP_BOOTS then
      Recovery(None, SatSucc(crashedBoots), crashedBoots > 0)
    else
      Recovery(Some(CRASH_LOOP_BACK_OFF), CRASH_LOOP_BOOTS - 1, crashedBoots > 0)
  }

  /** One boot: why it happened, and whether it reached a planned end. A boot that
      backs off goes to sleep before it starts and reaches no end of its own. */
  datatype Start = Start(wake: WakeCause, hostReset: bool, plannedEnd: bool)

  /** The count the next boot finds. */
  function CountAfter(count: U32, boot: Start): U32
  {
    var r := Recover(count, boot.wake, boot.hostReset);
    if r.backOff.None? && boot.plannedEnd then 0 else r.crashedBoots
  }

  /** The count before boot `n`. */
  function CountAt(count: U32, boots: seq<Start>, n: nat): U32
    requires n <= |boots|
  {
    if n == 0 then count else CountAfter(CountAt(count, boots, n - 1), boots[n - 1])
  }

  predicate BacksOff(count: U32, boots: seq<Start>, i: nat)
    requires i < |boots|
  {
    Recover(CountAt(count, boots, i), boots[i].wake, boots[i].hostReset).backOff.Some?
  }

  /** A boot that starts with no person there to ask for it. */
  predicate Unattended(count: U32, boots: seq<Start>, i: nat)
    requires i < |boots|
  {
    !BacksOff(count, boots, i) && boots[i].wake != WakeCause.Button
  }

  function UnattendedStarts(count: U32, boots: seq<Start>, n: nat): nat
    requires n <= |boots|
  {
    if n == 0 then 0
    else UnattendedStarts(count, boots, n - 1) + if Unattended(count, boots, n - 1) then 1 else 0
  }

  function BackOffs(count: U32, boots: seq<Start>, n: nat): nat
    requires n <= |boots|
  {
    if n == 0 then 0
    else BackOffs(count, boots, n - 1) + if BacksOff(count, boots, n - 1) then 1 else 0
  }

  /** A stretch of trouble: nothing planned happens, nobody flashes the device.
      Button wakes may come anywhere in it. */
  ghost predicate CrashLoop(boots: seq<Start>)
  {
    forall i {:trigger boots[i]} :: 0 <= i < |boots| ==> !boots[i].hostReset && !boots[i].plannedEnd
  }

  function Level(count: U32): nat { Min(count, CRASH_LOOP_BOOTS) }

  /** The potential: it rises with every unattended start, falls with every
      back-off, and a press never lowers it. */
  lemma {:induction false} Potential(count: U32, boots: seq<Start>, n: nat)
    requires CrashLoop(boots) && n <= |boots|
    ensures Level(count) + UnattendedStarts(count, boots, n) <= Level(CountAt(count, boots, n)) + BackOffs(count, boots, n)
    ensures (forall i {:trigger boots[i]} :: 0 <= i < n ==> boots[i].wake != WakeCause.Button) ==>
              Level(count) + UnattendedStarts(count, boots, n) == Level(CountAt(count, boots, n)) + BackOffs(count, boots, n)
  {
    if n > 0 {
      Potential(count, boots, n - 1);
      assert !boots[n - 1].hostReset && !boots[n - 1].plannedEnd;
    }
  }

  /** In a crash loop the device starts at most three times more than it backs
      off, whatever count it began with and whoever presses the button. */
  lemma StartsAreBounded(count: U32, boots: seq<Start>)
    requires CrashLoop(boots)
    ensures UnattendedStarts(count, boots, |boots|) <= BackOffs(count, boots, |boots|) + CRASH_LOOP_BOOTS
  {
    Potential(count, boots, |boots|);
  }

  lemma {:induction false} StaysAtTheLimit(count: U32, boots: seq<Start>, i: nat, n: nat)
    requires CrashLoop(boots) && i <= n <= |boots|
    requires CountAt(count, boots, i) >= CRASH_LOOP_BOOTS - 1
    ensures CountAt(count, boots, n) >= CRASH_LOOP_BOOTS - 1
  {
    if i < n {
      StaysAtTheLimit(count, boots, i, n - 1);
      assert !boots[n - 1].hostReset && !boots[n - 1].plannedEnd;
    }
  }

  /** Once a crash loop has reached the limit, no unattended start follows directly
      on another: between two there is a back-off or a person. */
  lemma NeverTwiceInARow(count: U32, boots: seq<Start>, i: nat, n: nat)
    requires CrashLoop(boots) && i <= n && n + 1 < |boots|
    requires CountAt(count, boots, i) >= CRASH_LOOP_BOOTS
    ensures !(Unattended(count, boots, n) && Unattended(count, boots, n + 1))
  {
    StaysAtTheLimit(count, boots, i, n);
    assert !boots[n].hostReset && !boots[n].plannedEnd;
    assert CountAt(count, boots, n + 1) == CountAfter(CountAt(count, boots, n), boots[n]);
  }

  /** Trouble is over as soon as one boot reaches a planned end, however long it
      lasted: the next boot starts, and is not said to follow a crash. */
  lemma APlannedEndForgives(count: U32, boot: Start, next: WakeCause)
    requires boot.plannedEnd && Recover(count, boot.wake, boot.hostReset).backOff.None?
    ensures var r := Recover(CountAfter(count, boot), next, false);
            r.backOff.None? && !r.afterCrash
  {
  }

  /** A person who presses the button is never made to wait. */
  lemma APressAlwaysStarts(count: U32, hostReset: bool)
    ensures Recover(count, WakeCause.Button, hostReset).backOff.None?
  {
  }

  /** What boot `n` is told, whatever count the device was left with. It backs off exactly when
      nobody flashed it or pressed the button and three boots before it ended badly, and then
      for the half hour of a poll. It is said to follow a crash exactly when nobody flashed it
      and the boot before came to no planned end. */
  lemma BootsAreTold(count: U32, boots: seq<Start>, n: nat)
    requires n < |boots|
    ensures var found, r := CountAt(count, boots, n), Recover(CountAt(count, boots, n), boots[n].wake, boots[n].hostReset);
            && r.backOff == (if !boots[n].hostReset && boots[n].wake != WakeCause.Button && found >= 3 then Some(1_800_000) else None)
            && (n > 0 ==> (r.afterCrash <==> !boots[n].hostReset && !(boots[n - 1].plannedEnd && !BacksOff(count, boots, n - 1))))
            && (n == 0 ==> (r.afterCrash <==> !boots[n].hostReset && count > 0))
  {
    if n > 0 {
      var before := CountAt(count, boots, n - 1);
      assert CountAt(count, boots, n) == CountAfter(before, boots[n - 1]);
      hide CountAt;
    }
  }

  /** Flashing forgives, however many boots had crashed: the boot it starts counts as the
      first, claims no crash and does not back off, and nor does either of the two after it. */
  lemma AHostResetForgives(count: U32, boots: seq<Start>, n: nat)
    requires n < |boots| && boots[n].hostReset
    ensures !Recover(CountAt(count, boots, n), boots[n].wake, true).afterCrash
    ensures CountAt(count, boots, n + 1) == if boots[n].plannedEnd then 0 else 1
    ensures forall i :: n <= i <= n + 2 && i < |boots| ==> !BacksOff(count, boots, i)
  {
    assert CountAt(count, boots, n + 1) == CountAfter(CountAt(count, boots, n), boots[n]);
    if n + 1 < |boots| {
      assert CountAt(count, boots, n + 2) == CountAfter(CountAt(count, boots, n + 1), boots[n + 1]) <= 2;
    }
  }
}
