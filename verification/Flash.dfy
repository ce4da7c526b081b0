/**
 Shared access to the NOR flash through a read-ahead window (`fw/src/flash.rs`).

 `Bare` is the flash with no window; `Cached` is the flash behind one, as a value.
 The class `FlashCell` fills a real buffer in place and follows `Cached`. The
 driver below is any driver: each write and each erase may do anything to the contents
 and fail or not, and any read it is asked for may fail and leave anything behind.
 */
module Flash {
  import opened Machine

  type Byte = x: nat | x <= 0xFF

  const FLASH_CAPACITY: nat := 0x0040_0000
  const READ_AHEAD_WINDOW: nat := 0x8000

  /** What a write or an erase leaves behind, and whether it succeeds. */
  datatype Effect = Effect(contents: seq<Byte>, ok: bool)

  /** How the device read goes that an operation makes, if it makes one. `leaves` is what
      a failed read leaves in the memory it was asked to fill, which may be anything. */
  datatype Device = Succeeds | Fails(leaves: nat -> Byte)

  /** The `len` bytes a failed read leaves. */
  function Left(len: nat, leaves: nat -> Byte): (r: seq<Byte>)
    ensures |r| == len && forall i :: 0 <= i < len ==> r[i] == leaves(i)
  {
    seq<Byte>(len, (i: nat) => leaves(i))
  }

  /** One operation of the users of the flash. `makes` is what the driver makes, this
      time, of the contents it finds. */
  datatype Op =
    | Read(offset: nat, len: nat, device: Device)
    | Write(offset: nat, bytes: seq<Byte>, makes: seq<Byte> -> Effect)
    | Erase(from: nat, to: nat, makes: seq<Byte> -> Effect)

  /** A driver never changes the size of its flash. */
  ghost predicate KeepsTheSize(makes: seq<Byte> -> Effect)
  {
    forall c {:trigger makes(c)} :: |makes(c).contents| == |c|
  }

  /** Reads stay inside the flash, as its capacity asks of its users; and writes and erases
      leave a flash of its size. */
  ghost predicate InFlash(op: Op)
  {
    match op
    case Read(offset, len, _) => offset < FLASH_CAPACITY && offset + len <= FLASH_CAPACITY
    case Write(_, _, makes) => KeepsTheSize(makes)
    case Erase(_, _, makes) => KeepsTheSize(makes)
  }

  /** What an operation answers. A panic is a slice past the end of the buffer. */
  datatype Answer = Bytes(bytes: seq<Byte>) | Done | Failed | Panicked

  // The flash with no window.

  ghost function BareStep(contents: seq<Byte>, op: Op): (seq<Byte>, Answer)
    requires |contents| == FLASH_CAPACITY && InFlash(op)
  {
    match op
    case Read(offset, len, device) => (contents, if device.Fails? then Failed else Bytes(contents[offset..offset + len]))
    case Write(_, _, makes) =>
      var e := makes(contents);
      (e.contents, if e.ok then Done else Failed)
    case Erase(_, _, makes) =>
      var e := makes(contents);
      (e.contents, if e.ok then Done else Failed)
  }

  // The flash behind a window.

  /** `deviceReads` counts the reads asked of the device. */
  datatype Cached = Cached(contents: seq<Byte>, window: Option<nat>, buf: seq<Byte>, deviceReads: nat)

  /** The window lies at a multiple of its size. */
  predicate Aligned(s: Cached)
  {
    && |s.contents| == FLASH_CAPACITY && |s.buf| == READ_AHEAD_WINDOW
    && (s.window.Some? ==> s.window.value % READ_AHEAD_WINDOW == 0 && s.window.value + READ_AHEAD_WINDOW <= FLASH_CAPACITY)
  }

  /** The window holds what the flash holds. */
  ghost predicate Coherent(s: Cached)
  {
    Aligned(s) && (s.window.Some? ==> s.buf == s.contents[s.window.value..s.window.value + READ_AHEAD_WINDOW])
  }

  predicate Covers(window: Option<nat>, offset: nat, len: nat)
  {
    window.Some? && offset >= window.value && offset - window.value + len <= READ_AHEAD_WINDOW
  }

  /** A read that a window could hold, but that lies across two windows. */
  predicate Straddles(offset: nat, len: nat)
  {
    len <= READ_AHEAD_WINDOW && offset % READ_AHEAD_WINDOW + len > READ_AHEAD_WINDOW
  }

  function WindowOf(offset: nat): nat { offset - offset % READ_AHEAD_WINDOW }

  function Filled(s: Cached, offset: nat): Cached
    requires |s.contents| == FLASH_CAPACITY && offset < FLASH_CAPACITY
  {
    var w := WindowOf(offset);
    s.(window := Some(w), buf := s.contents[w..w + READ_AHEAD_WINDOW], deviceReads := s.deviceReads + 1)
  }

  /** A failed fill: the window is still said to be held, whatever the buffer holds now. */
  function Spilt(s: Cached, leaves: nat -> Byte): Cached
  {
    s.(buf := Left(READ_AHEAD_WINDOW, leaves), deviceReads := s.deviceReads + 1)
  }

  ghost function CachedStep(s: Cached, op: Op): (Cached, Answer)
    requires |s.contents| == FLASH_CAPACITY && |s.buf| == READ_AHEAD_WINDOW && InFlash(op)
  {
    match op
    case Read(offset, len, device) =>
      if Covers(s.window, offset, len) then
        var from := offset - s.window.value;
        (s, Bytes(s.buf[from..from + len]))
      else if len <= READ_AHEAD_WINDOW then
        if device.Fails? then (Spilt(s, device.leaves), Failed)
        else
          var f := Filled(s, offset);
          var from := offset - WindowOf(offset);
          (f, if from + len <= READ_AHEAD_WINDOW then Bytes(f.buf[from..from + len]) else Panicked)
      else
        (s.(deviceReads := s.deviceReads + 1), if device.Fails? then Failed else Bytes(s.contents[offset..offset + len]))
    case Write(_, _, makes) =>
      var e := makes(s.contents);
      (s.(contents := e.contents, window := None), if e.ok then Done else Failed)
    case Erase(_, _, makes) =>
      var e := makes(s.contents);
      (s.(contents := e.contents, window := None), if e.ok then Done else Failed)
  }

  // One operation.

  /** The answers differ from the bare flash's in two ways only: a covered read
      succeeds where the device read it saves would have failed, and a read that
      straddles two windows panics. */
  ghost predicate SameAnswer(op: Op, bare: Answer, cached: Answer, contents: seq<Byte>)
    requires |contents| == FLASH_CAPACITY && InFlash(op)
  {
    || cached == bare
    || (op.Read? && op.device.Fails? && bare == Failed && cached == Bytes(contents[op.offset..op.offset + op.len]))
  }

  /** The one way to lose coherence: a fill fails while another window is held, and what
      it leaves in the buffer is not what that window holds. */
  predicate Spoils(s: Cached, op: Op)
    requires Aligned(s)
  {
    && op.Read? && op.device.Fails? && !Covers(s.window, op.offset, op.len) && op.len <= READ_AHEAD_WINDOW
    && s.window.Some?
    && Left(READ_AHEAD_WINDOW, op.device.leaves) != s.contents[s.window.value..s.window.value + READ_AHEAD_WINDOW]
  }

  /** One operation on a coherent window leaves the flash what the bare flash would be,
      leaves the window coherent exactly when it does not spoil it, and panics exactly on
      a read that straddles two windows and whose fill succeeds; any other answer is the
      bare flash's. */
  lemma OneOperation(s: Cached, op: Op)
    requires Coherent(s) && InFlash(op)
    ensures var (after, answer) := CachedStep(s, op);
            var (contents, bare) := BareStep(s.contents, op);
            && Aligned(after) && after.contents == contents
            && (Coherent(after) <==> !Spoils(s, op))
            && (answer == Panicked <==> op.Read? && Straddles(op.offset, op.len) && op.device.Succeeds?)
            && (answer != Panicked ==> SameAnswer(op, bare, answer, s.contents))
  {
    if op.Read? {
      ReadOperation(s, op);
    }
  }

  lemma ReadOperation(s: Cached, op: Op)
    requires Coherent(s) && InFlash(op) && op.Read?
    ensures var (after, answer) := CachedStep(s, op);
            && Aligned(after) && after.contents == s.contents
            && (Coherent(after) <==> !Spoils(s, op))
            && (answer == Panicked <==> Straddles(op.offset, op.len) && op.device.Succeeds?)
            && (answer != Panicked ==>
                  || answer == Bytes(s.contents[op.offset..op.offset + op.len])
                  || (answer == Failed && op.device.Fails?))
  {
    if Covers(s.window, op.offset, op.len) {
      CoveredRead(s, op);
    } else if op.len <= READ_AHEAD_WINDOW {
      FillingRead(s, op);
    } else {
      LongRead(s, op);
    }
    hide *;
  }

  lemma CoveredRead(s: Cached, op: Op)
    requires Coherent(s) && InFlash(op) && op.Read? && Covers(s.window, op.offset, op.len)
    ensures CachedStep(s, op) == (s, Bytes(s.contents[op.offset..op.offset + op.len]))
    ensures !Straddles(op.offset, op.len) && !Spoils(s, op)
  {
    NotAcross(s.window.value, op.offset, op.len);
    hide Straddles, WindowOf, Left, KeepsTheSize, Filled, Spilt;
    SliceOfSlice(s.contents, s.window.value, READ_AHEAD_WINDOW, op.offset, op.len);
  }

  lemma LongRead(s: Cached, op: Op)
    requires Coherent(s) && InFlash(op) && op.Read? && op.len > READ_AHEAD_WINDOW
    ensures var (after, answer) := CachedStep(s, op);
            && Coherent(after) && after.contents == s.contents && !Spoils(s, op)
            && answer == if op.device.Fails? then Failed else Bytes(s.contents[op.offset..op.offset + op.len])
    ensures !Straddles(op.offset, op.len)
  {
    TooLongToStraddle(op.offset, op.len);
    hide Straddles, WindowOf, Left, KeepsTheSize, Filled, Spilt;
  }

  lemma TooLongToStraddle(offset: nat, len: nat)
    requires len > READ_AHEAD_WINDOW
    ensures !Straddles(offset, len)
  {
  }

  lemma StraddlesItsWindow(offset: nat, len: nat)
    requires len <= READ_AHEAD_WINDOW
    ensures Straddles(offset, len) <==> offset - WindowOf(offset) + len > READ_AHEAD_WINDOW
  {
  }

  lemma FillingRead(s: Cached, op: Op)
    requires Coherent(s) && InFlash(op) && op.Read? && !Covers(s.window, op.offset, op.len) && op.len <= READ_AHEAD_WINDOW
    ensures var (after, answer) := CachedStep(s, op);
            && Aligned(after) && after.contents == s.contents
            && (Coherent(after) <==> !Spoils(s, op))
            && (answer == Panicked <==> Straddles(op.offset, op.len) && op.device.Succeeds?)
            && (answer != Panicked ==>
                  || answer == Bytes(s.contents[op.offset..op.offset + op.len])
                  || (answer == Failed && op.device.Fails?))
  {
    hide Straddles, WindowOf, Left, Covers, KeepsTheSize;
    var w := WindowOf(op.offset);
    WindowIsAnchored(op.offset);
    StraddlesItsWindow(op.offset, op.len);
    if op.device.Succeeds? && op.offset - w + op.len <= READ_AHEAD_WINDOW {
      SliceOfSlice(s.contents, w, READ_AHEAD_WINDOW, op.offset, op.len);
    }
  }

  /** A failed fill that leaves the buffer as it was never spoils the window, and neither
      does one with no window held. */
  lemma HarmlessFailures(s: Cached, op: Op)
    requires Coherent(s) && op.Read? && op.device.Fails?
    requires s.window.None? || Left(READ_AHEAD_WINDOW, op.device.leaves) == s.buf
    ensures !Spoils(s, op)
  {
  }

  /** So with a driver whose failed reads leave the buffer as they found it, no operation
      spoils the window. */
  lemma {:induction false} TidyDriversNeverSpoil(s: Cached, ops: seq<Op>, n: nat)
    requires Coherent(s) && AllInFlash(ops) && n <= |ops|
    requires forall i: nat {:trigger LeavesTheBuffer(s, ops, i)} :: i < n ==> LeavesTheBuffer(s, ops, i)
    ensures NoneSpoils(s, ops, n)
  {
    if n > 0 {
      TidyDriversNeverSpoil(s, ops, n - 1);
      StaysCoherent(s, ops, n - 1);
      assert LeavesTheBuffer(s, ops, n - 1);
      hide *;
      SpoilsNothing(s, ops, n - 1);
      NoneSpoilsGrows(s, ops, n - 1);
    }
  }

  /** Operation `i` does not touch the buffer if its device read fails. */
  ghost predicate LeavesTheBuffer(s: Cached, ops: seq<Op>, i: nat)
    requires Aligned(s) && AllInFlash(ops) && i < |ops|
  {
    ops[i].Read? && ops[i].device.Fails? ==> Left(READ_AHEAD_WINDOW, ops[i].device.leaves) == CachedAfter(s, ops, i).buf
  }

  lemma SpoilsNothing(s: Cached, ops: seq<Op>, i: nat)
    requires Aligned(s) && AllInFlash(ops) && i < |ops| && LeavesTheBuffer(s, ops, i) && Coherent(CachedAfter(s, ops, i))
    ensures !Spoils(CachedAfter(s, ops, i), ops[i])
  {
    hide Spoils, CachedAfter, Left, Coherent, InFlash;
    if ops[i].Read? && ops[i].device.Fails? {
      HarmlessFailures(CachedAfter(s, ops, i), ops[i]);
    } else {
      SuccessesSpoilNothing(CachedAfter(s, ops, i), ops[i]);
    }
  }

  lemma SuccessesSpoilNothing(s: Cached, op: Op)
    requires Aligned(s) && !(op.Read? && op.device.Fails?)
    ensures !Spoils(s, op)
  {
  }

  lemma NoneSpoilsGrows(s: Cached, ops: seq<Op>, n: nat)
    requires Aligned(s) && AllInFlash(ops) && n < |ops| && NoneSpoils(s, ops, n) && !Spoils(CachedAfter(s, ops, n), ops[n])
    ensures NoneSpoils(s, ops, n + 1)
  {
    hide Spoils, CachedAfter, InFlash;
  }

  /** A spoilt window tells: some byte of it is then read differently from the bare flash,
      with no device read and no error. */
  lemma SpoiltWindowsTell(s: Cached, op: Op) returns (at: nat)
    requires Coherent(s) && InFlash(op) && Spoils(s, op)
    ensures InFlash(Op.Read(at, 1, Succeeds))
    ensures var after := CachedStep(s, op).0;
            var (still, answer) := CachedStep(after, Op.Read(at, 1, Succeeds));
            still == after && answer.Bytes? && answer != BareStep(after.contents, Op.Read(at, 1, Succeeds)).1
  {
    var w, left := s.window.value, Left(READ_AHEAD_WINDOW, op.device.leaves);
    var held := s.contents[w..w + READ_AHEAD_WINDOW];
    var i: nat :| i < READ_AHEAD_WINDOW && left[i] != held[i];
    at := w + i;
    var after := CachedStep(s, op).0;
    assert after.window == Some(w) && after.buf == left && after.contents[at] == held[i];
    assert after.buf[i..i + 1] == [left[i]] && after.contents[at..at + 1] == [held[i]];
  }

  lemma SliceOfSlice(s: seq<Byte>, w: nat, size: nat, offset: nat, len: nat)
    requires w <= offset && offset + len <= w + size <= |s|
    ensures s[w..w + size][offset - w..offset - w + len] == s[offset..offset + len]
  {
    var inner, outer := s[w..w + size][offset - w..offset - w + len], s[offset..offset + len];
    forall i | 0 <= i < len ensures inner[i] == outer[i] {
    }
  }

  lemma WindowIsAnchored(offset: nat)
    requires offset < FLASH_CAPACITY
    ensures WindowOf(offset) % READ_AHEAD_WINDOW == 0
    ensures WindowOf(offset) <= offset < WindowOf(offset) + READ_AHEAD_WINDOW <= FLASH_CAPACITY
  {
  }

  lemma NotAcross(w: nat, offset: nat, len: nat)
    requires w % READ_AHEAD_WINDOW == 0 && w <= offset && offset - w + len <= READ_AHEAD_WINDOW
    ensures !Straddles(offset, len)
  {
  }

  /** Two bytes across the first boundary: the bare flash answers, the window panics. */
  lemma AStraddlingReadPanics(s: Cached)
    requires Coherent(s)
    ensures var op := Op.Read(READ_AHEAD_WINDOW - 1, 2, Succeeds);
            BareStep(s.contents, op).1.Bytes? && CachedStep(s, op).1 == Panicked
  {
  }

  // Any sequence of operations.

  ghost predicate AllInFlash(ops: seq<Op>)
  {
    forall i {:trigger ops[i]} :: 0 <= i < |ops| ==> InFlash(ops[i])
  }

  /** No read of window size or less lies across two windows. */
  ghost predicate NoneStraddles(ops: seq<Op>)
  {
    forall i {:trigger ops[i]} :: 0 <= i < |ops| && ops[i].Read? ==> !Straddles(ops[i].offset, ops[i].len)
  }

  /** None of the first `n` operations spoils the window. */
  ghost predicate NoneSpoils(s: Cached, ops: seq<Op>, n: nat)
    requires Aligned(s) && AllInFlash(ops) && n <= |ops|
  {
    forall i: nat {:trigger CachedAfter(s, ops, i)} :: i < n ==> !Spoils(CachedAfter(s, ops, i), ops[i])
  }

  ghost function BareAfter(contents: seq<Byte>, ops: seq<Op>, n: nat): (r: seq<Byte>)
    requires |contents| == FLASH_CAPACITY && AllInFlash(ops) && n <= |ops|
    ensures |r| == FLASH_CAPACITY
  {
    if n == 0 then contents else BareStep(BareAfter(contents, ops, n - 1), ops[n - 1]).0
  }

  ghost function CachedAfter(s: Cached, ops: seq<Op>, n: nat): (r: Cached)
    requires Aligned(s) && AllInFlash(ops) && n <= |ops|
    ensures Aligned(r)
  {
    if n == 0 then s
    else
      var before := CachedAfter(s, ops, n - 1);
      StaysAligned(before, ops[n - 1]);
      CachedStep(before, ops[n - 1]).0
  }

  lemma StaysAligned(s: Cached, op: Op)
    requires Aligned(s) && InFlash(op)
    ensures Aligned(CachedStep(s, op).0)
  {
  }

  lemma {:induction false} StaysCoherent(s: Cached, ops: seq<Op>, n: nat)
    requires Coherent(s) && AllInFlash(ops) && n <= |ops| && NoneSpoils(s, ops, n)
    ensures Coherent(CachedAfter(s, ops, n))
    ensures CachedAfter(s, ops, n).contents == BareAfter(s.contents, ops, n)
  {
    if n > 0 {
      StaysCoherent(s, ops, n - 1);
      OneOperation(CachedAfter(s, ops, n - 1), ops[n - 1]);
    }
  }

  /** Over any sequence of operations none of which spoils it, the window cannot be told
      from the bare flash: operation `i` finds and leaves the same contents and answers
      the same, but for a saved read that would have failed; and nothing panics, exactly
      because no read straddles two windows. */
  lemma WindowIsInvisible(s: Cached, ops: seq<Op>, i: nat)
    requires Coherent(s) && AllInFlash(ops) && i < |ops| && NoneSpoils(s, ops, i)
    ensures var before, bare := CachedAfter(s, ops, i), BareAfter(s.contents, ops, i);
            var answer := CachedStep(before, ops[i]).1;
            && before.contents == bare
            && CachedAfter(s, ops, i + 1).contents == BareAfter(s.contents, ops, i + 1)
            && (answer == Panicked <==> ops[i].Read? && Straddles(ops[i].offset, ops[i].len) && ops[i].device.Succeeds?)
            && (answer != Panicked ==> SameAnswer(ops[i], BareStep(bare, ops[i]).1, answer, bare))
    ensures NoneStraddles(ops) ==> CachedStep(CachedAfter(s, ops, i), ops[i]).1 != Panicked
  {
    StaysCoherent(s, ops, i);
    OneOperation(CachedAfter(s, ops, i), ops[i]);
  }

  // Who never straddles.

  const PAGE: nat := 0x1000
  const NVS_START: nat := 0x9000
  const NVS_END: nat := 0xF000

  /** A read inside one page of flash never straddles: a page lies in one window. */
  lemma PagesDoNotStraddle(offset: nat, len: nat)
    requires len > 0 && offset / PAGE == (offset + len - 1) / PAGE
    ensures !Straddles(offset, len)
  {
    var page := offset / PAGE;
    assert offset % READ_AHEAD_WINDOW == page % 8 * PAGE + offset % PAGE;
  }

  predicate InNvs(op: Op)
  {
    op.Read? && NVS_START <= op.offset && op.offset + op.len <= NVS_END
  }

  /** The partition of the key-value store lies in one window, and so does every
      read of it. */
  lemma NvsDoesNotStraddle(op: Op)
    requires InNvs(op)
    ensures InFlash(op) && !Straddles(op.offset, op.len) && WindowOf(op.offset) == 0x8000
    ensures Covers(Some(0x8000), op.offset, op.len)
  {
  }

  /** Users that read nothing but the key-value store only ever hold its one window, so
      no failure of the device spoils it. */
  lemma {:induction false} NvsIsNeverSpoilt(s: Cached, ops: seq<Op>, n: nat)
    requires Aligned(s) && AllInFlash(ops) && n <= |ops|
    requires s.window.None? || s.window == Some(0x8000)
    requires forall i {:trigger ops[i]} :: 0 <= i < |ops| && ops[i].Read? ==> InNvs(ops[i])
    ensures NoneSpoils(s, ops, n)
    ensures var window := CachedAfter(s, ops, n).window; window.None? || window == Some(0x8000)
  {
    if n > 0 {
      NvsIsNeverSpoilt(s, ops, n - 1);
      var before, op := CachedAfter(s, ops, n - 1), ops[n - 1];
      if op.Read? {
        NvsDoesNotStraddle(op);
      }
      assert !Spoils(before, op);
      hide Spoils, CachedAfter, InFlash;
      NoneSpoilsGrows(s, ops, n - 1);
    }
  }

  // What the reads of a scan cost.

  /** Writes and erases, and reads whose fill failed: what a window is lost to. */
  function Losses(ops: seq<Op>, n: nat): nat
    requires n <= |ops|
  {
    if n == 0 then 0 else Losses(ops, n - 1) + if ops[n - 1].Read? && ops[n - 1].device.Succeeds? then 0 else 1
  }

  /** Users that read nothing but the key-value store cost one device read for the
      first read, and one for each write, erase or failed fill, however often and
      in whatever order they read it. */
  lemma {:induction false} ScansCostOneRead(s: Cached, ops: seq<Op>, n: nat)
    requires Aligned(s) && AllInFlash(ops) && n <= |ops|
    requires forall i {:trigger ops[i]} :: 0 <= i < |ops| && ops[i].Read? ==> InNvs(ops[i])
    ensures var after := CachedAfter(s, ops, n);
            after.deviceReads - s.deviceReads <= Losses(ops, n) + if after.window == Some(0x8000) then 1 else 0
  {
    if n > 0 {
      ScansCostOneRead(s, ops, n - 1);
      if ops[n - 1].Read? {
        NvsDoesNotStraddle(ops[n - 1]);
      }
    }
  }

  lemma ScanCost(s: Cached, ops: seq<Op>)
    requires Aligned(s) && AllInFlash(ops)
    requires forall i {:trigger ops[i]} :: 0 <= i < |ops| && ops[i].Read? ==> InNvs(ops[i])
    ensures CachedAfter(s, ops, |ops|).deviceReads <= s.deviceReads + 1 + Losses(ops, |ops|)
  {
    ScansCostOneRead(s, ops, |ops|);
  }

  // The program.

  class FlashCell {
    var contents: seq<Byte>
    var window: Option<nat>
    const buf: array<Byte>
    ghost var deviceReads: nat

    ghost function View(): Cached
      reads this, buf
    {
      Cached(contents, window, buf[..], deviceReads)
    }

    ghost predicate Valid()
      reads this, buf
    {
      buf.Length == READ_AHEAD_WINDOW && Aligned(View())
    }

    constructor (contents: seq<Byte>)
      requires |contents| == FLASH_CAPACITY
      ensures Valid() && Coherent(View()) && fresh(buf)
      ensures this.contents == contents && window == None && deviceReads == 0
    {
      this.contents, window, deviceReads := contents, None, 0;
      buf := new Byte[READ_AHEAD_WINDOW](_ => 0);
    }

    method Covered(offset: nat, len: nat) returns (covered: bool)
      requires buf.Length == READ_AHEAD_WINDOW
      ensures covered == Covers(window, offset, len)
    {
      match window {
        case Some(w) => covered := offset >= w && offset - w + len <= buf.Length;
        case None => covered := false;
      }
    }

    /** Copies out of the buffer; `false` is the panic of a slice past its end. */
    method Serve(offset: nat, bytes: array<Byte>) returns (served: bool)
      requires Valid() && window.Some? && window.value <= offset && bytes != buf
      modifies bytes
      ensures served <==> offset - window.value + bytes.Length <= READ_AHEAD_WINDOW
      ensures bytes[..] == if served then buf[offset - window.value..offset - window.value + bytes.Length] else old(bytes[..])
    {
      var from := offset - window.value;
      served := from + bytes.Length <= buf.Length;
      if served {
        forall i | 0 <= i < bytes.Length {
          bytes[i] := buf[from + i];
        }
      }
    }

    /** A device read into a slice of an array. A failed one leaves anything there. */
    method DeviceRead(offset: nat, bytes: array<Byte>, device: Device) returns (ok: bool)
      requires offset + bytes.Length <= |contents|
      modifies bytes, this`deviceReads
      ensures ok == device.Succeeds? && deviceReads == old(deviceReads) + 1
      ensures bytes[..] == if ok then contents[offset..offset + bytes.Length] else Left(bytes.Length, device.leaves)
    {
      ok := device.Succeeds?;
      deviceReads := deviceReads + 1;
      forall i | 0 <= i < bytes.Length {
        bytes[i] := if ok then contents[offset + i] else device.leaves(i);
      }
    }

    /** Fill the window around `offset`, anchored at a multiple of its size. A failed
        fill leaves the window as it was, and anything in the buffer. */
    method Fill(offset: nat, device: Device) returns (ok: bool)
      requires buf.Length == READ_AHEAD_WINDOW && |contents| == FLASH_CAPACITY && offset < FLASH_CAPACITY
      modifies this`window, this`deviceReads, buf
      ensures ok == device.Succeeds?
      ensures View() == if ok then Filled(old(View()), offset) else Spilt(old(View()), device.leaves)
    {
      var w := offset - offset % READ_AHEAD_WINDOW;
      WindowIsAnchored(offset);
      assert Min(READ_AHEAD_WINDOW, FLASH_CAPACITY - w) == READ_AHEAD_WINDOW;
      ok := DeviceRead(w, buf, device);
      if ok {
        window := Some(w);
      }
    }

    /** The caller's bytes are the answer. Those of a failed read are untouched, unless it
        went past the window to the device. */
    method Read(offset: nat, bytes: array<Byte>, device: Device) returns (answer: Answer)
      requires Valid() && bytes != buf && InFlash(Op.Read(offset, bytes.Length, device))
      modifies this`window, this`deviceReads, buf, bytes
      ensures Valid()
      ensures (View(), answer) == CachedStep(old(View()), Op.Read(offset, bytes.Length, device))
      ensures match answer
              case Bytes(read) => bytes[..] == read
              case _ => bytes[..] == if bytes.Length <= READ_AHEAD_WINDOW then old(bytes[..]) else Left(bytes.Length, device.leaves)
    {
      StaysAligned(View(), Op.Read(offset, bytes.Length, device));
      hide KeepsTheSize;
      var covered := Covered(offset, bytes.Length);
      if covered {
        var served := Serve(offset, bytes);
        return Bytes(bytes[..]);
      }
      if bytes.Length <= READ_AHEAD_WINDOW {
        var ok := Fill(offset, device);
        if !ok {
          return Failed;
        }
        WindowIsAnchored(offset);
        var served := Serve(offset, bytes);
        return if served then Bytes(bytes[..]) else Panicked;
      }
      var ok := DeviceRead(offset, bytes, device);
      return if ok then Bytes(bytes[..]) else Failed;
    }

    method Erase(from: nat, to: nat, makes: seq<Byte> -> Effect) returns (answer: Answer)
      requires Valid() && InFlash(Op.Erase(from, to, makes))
      modifies this`window, this`contents
      ensures Valid()
      ensures (View(), answer) == CachedStep(old(View()), Op.Erase(from, to, makes))
    {
      window := None;
      var e := makes(contents);
      contents := e.contents;
      return if e.ok then Done else Failed;
    }

    method Write(offset: nat, bytes: seq<Byte>, makes: seq<Byte> -> Effect) returns (answer: Answer)
      requires Valid() && InFlash(Op.Write(offset, bytes, makes))
      modifies this`window, this`contents
      ensures Valid()
      ensures (View(), answer) == CachedStep(old(View()), Op.Write(offset, bytes, makes))
    {
      window := None;
      var e := makes(contents);
      contents := e.contents;
      return if e.ok then Done else Failed;
    }
  }
}
