/**
 Watching a trace: what an observer of the ports knows after any calls, and what
 that says about the calls themselves. Nothing here knows the application.
 */
module Watching {
  import opened Machine
  import opened Vocabulary
  import opened Tuning

  /**
   - `icd`, `icdAt`: the protocol stack's state as it was last read, and when;
   - `idleSince`: the first of an unbroken run of idle readings up to the last;
   - `durable`: the calibration in storage;
   - `pinDown`: the last edge taken was a press;
   - `emptyAt`: the edge queue was seen empty then, and no edge taken since;
   - `lastFeed`, `worstGap`: the watchdog, fed by every wait and every delay;
   - `inFuture`: every wait was for an instant that had not come;
   - `writes`, `early`: writes of the reboot count, and those before `due`.
   */
  datatype Monitor = Monitor(
    icd: Option<IcdState>, icdAt: nat, idleSince: Option<nat>,
    durable: Calibration,
    pinDown: bool, emptyAt: Option<nat>,
    lastFeed: nat, worstGap: nat, inFuture: bool,
    due: nat, writes: nat, early: nat)

  function Fed(m: Monitor, at: nat): Monitor
  {
    m.(lastFeed := at, worstGap := Max(m.worstGap, Since(at, m.lastFeed)))
  }

  function EdgeSeen(m: Monitor, edge: Edge): Monitor
  {
    m.(pinDown := edge.Falling?, emptyAt := None)
  }

  function IcdSeen(m: Monitor, at: nat, icd: IcdState): Monitor
  {
    m.(icd := Some(icd), icdAt := at,
       idleSince := if icd.powerMode != PowerMode.Idle then None else if m.idleSince.None? then Some(at) else m.idleSince)
  }

  function Observe(m: Monitor, e: Entry): Monitor
  {
    match e
    case Waited(at, deadline, event, _) =>
      var fed := Fed(m, at).(inFuture := m.inFuture && at < deadline, emptyAt := None);
      if event.Button? then EdgeSeen(fed, event.edge) else fed
    case Delayed(at, _, _) => Fed(m, at).(emptyAt := None)
    case EdgePolled(at, taken) => if taken.Some? then EdgeSeen(m, taken.value) else m.(emptyAt := Some(at))
    case IcdRead(at, icd) => IcdSeen(m, at, icd)
    case CalibrationStored(_, calibration, stored, _) => if stored then m.(durable := calibration) else m
    case RebootCountPersisted(at) => m.(writes := m.writes + 1, early := m.early + if at < m.due then 1 else 0)
    case _ => m
  }

  function Watch(m: Monitor, t: seq<Entry>): Monitor
  {
    if t == [] then m else Observe(Watch(m, t[..|t| - 1]), t[|t| - 1])
  }

  lemma {:induction false} WatchConcat(m: Monitor, s: seq<Entry>, t: seq<Entry>)
    ensures Watch(m, s + t) == Watch(Watch(m, s), t)
  {
    if t == [] {
      assert s + t == s;
    } else {
      WatchConcat(m, s, t[..|t| - 1]);
      assert (s + t)[..|s + t| - 1] == s + t[..|t| - 1];
    }
  }

  lemma WatchNone(m: Monitor)
    ensures Watch(m, []) == m
  {
  }

  lemma WatchOne(m: Monitor, e: Entry)
    ensures Watch(m, [e]) == Observe(m, e)
  {
    assert [e][..0] == [];
  }

  // What the monitor says about the trace.

  /** Entry `i` was an idle reading at `since`, and no reading after it was not. */
  predicate IdleFrom(t: seq<Entry>, i: nat, since: nat)
  {
    && i < |t| && t[i].IcdRead? && t[i].at == since
    && forall j :: i <= j < |t| && t[j].IcdRead? ==> t[j].icd.powerMode == PowerMode.Idle
  }

  lemma {:induction false} IdleSinceMeans(m: Monitor, t: seq<Entry>) returns (i: nat)
    requires m.idleSince.None? && Watch(m, t).idleSince.Some?
    ensures IdleFrom(t, i, Watch(m, t).idleSince.value)
  {
    var before, e := t[..|t| - 1], t[|t| - 1];
    var w := Watch(m, before);
    assert Watch(m, t) == Observe(w, e);
    assert e.IcdRead? || Observe(w, e).idleSince == w.idleSince;
    hide Watch, Observe;
    if e.IcdRead? && w.idleSince.None? {
      i := |before|;
    } else {
      i := IdleSinceMeans(m, before);
      assert forall j :: 0 <= j < |before| ==> before[j] == t[j];
    }
  }

  /** Entry `k` is the last reading of the stack. */
  predicate LastRead(t: seq<Entry>, k: nat)
  {
    k < |t| && t[k].IcdRead? && forall j :: k < j < |t| ==> !t[j].IcdRead?
  }

  lemma {:induction false} LastReadMeans(m: Monitor, t: seq<Entry>) returns (k: nat)
    requires m.icd.None? && Watch(m, t).icd.Some?
    ensures LastRead(t, k) && t[k].icd == Watch(m, t).icd.value && t[k].at == Watch(m, t).icdAt
  {
    var before, e := t[..|t| - 1], t[|t| - 1];
    var w := Watch(m, before);
    assert Watch(m, t) == Observe(w, e);
    ReadsAreSeen(w, e);
    hide Watch, Observe;
    if e.IcdRead? {
      k := |before|;
    } else {
      k := LastReadMeans(m, before);
      StillLastRead(t, k);
    }
  }

  lemma ReadsAreSeen(m: Monitor, e: Entry)
    ensures if e.IcdRead? then Observe(m, e).icd == Some(e.icd) && Observe(m, e).icdAt == e.at
            else Observe(m, e).icd == m.icd && Observe(m, e).icdAt == m.icdAt
  {
  }

  lemma StillLastRead(t: seq<Entry>, k: nat)
    requires t != [] && !t[|t| - 1].IcdRead? && LastRead(t[..|t| - 1], k)
    ensures LastRead(t, k) && t[k] == t[..|t| - 1][k]
  {
  }

  /** The edge a call took from the world, if it took one. */
  function EdgeOf(e: Entry): Option<Edge>
  {
    match e
    case Waited(_, _, event, _) => if event.Button? then Some(event.edge) else None
    case EdgePolled(_, taken) => taken
    case _ => None
  }

  /** Entry `q` found the edge queue empty, and nothing was taken or waited for
      after it. */
  predicate SeenEmpty(t: seq<Entry>, q: nat)
  {
    && q < |t| && t[q].EdgePolled? && t[q].taken.None?
    && forall j :: q < j < |t| ==> EdgeOf(t[j]).None? && !t[j].Waited? && !t[j].Delayed?
  }

  lemma {:induction false} EmptyMeans(m: Monitor, t: seq<Entry>) returns (q: nat)
    requires m.emptyAt.None? && Watch(m, t).emptyAt.Some?
    ensures SeenEmpty(t, q) && t[q].at == Watch(m, t).emptyAt.value
  {
    var before, e := t[..|t| - 1], t[|t| - 1];
    var w := Watch(m, before);
    assert Watch(m, t) == Observe(w, e);
    if e.EdgePolled? {
      q := |before|;
    } else {
      assert w.emptyAt == Watch(m, t).emptyAt && EdgeOf(e).None? && !e.Waited? && !e.Delayed?;
      hide Watch, Observe, EdgeOf;
      q := EmptyMeans(m, before);
    }
  }

  /** Entry `i` took the last edge taken. */
  predicate TookLast(t: seq<Entry>, i: nat, edge: Edge)
  {
    i < |t| && EdgeOf(t[i]) == Some(edge) && forall j :: i < j < |t| ==> EdgeOf(t[j]).None?
  }

  predicate NoEdges(t: seq<Entry>)
  {
    forall i :: 0 <= i < |t| ==> EdgeOf(t[i]).None?
  }

  /** The last edge taken was `edge`, or none was and the pin was so before. */
  ghost predicate LastEdge(t: seq<Entry>, before: Edge, edge: Edge)
  {
    (exists i: nat :: TookLast(t, i, edge)) || (NoEdges(t) && before == edge)
  }

  function Level(pinDown: bool): Edge { if pinDown then Falling else Rising }

  lemma PinFollowsEdges(m: Monitor, e: Entry)
    ensures Level(Observe(m, e).pinDown) == if EdgeOf(e).Some? then EdgeOf(e).value else Level(m.pinDown)
  {
  }

  lemma {:induction false} LastEdgeMeans(m: Monitor, t: seq<Entry>)
    ensures LastEdge(t, Level(m.pinDown), Level(Watch(m, t).pinDown))
  {
    if t != [] {
      var before, e := t[..|t| - 1], t[|t| - 1];
      LastEdgeMeans(m, before);
      PinFollowsEdges(Watch(m, before), e);
      var was, now := Level(Watch(m, before).pinDown), Level(Watch(m, t).pinDown);
      assert now == if EdgeOf(e).Some? then EdgeOf(e).value else was;
      hide Watch, Observe, EdgeOf;
      if EdgeOf(e).Some? {
        assert TookLast(t, |before|, now);
      } else if i: nat :| TookLast(before, i, was) {
        assert TookLast(t, i, now);
      }
    }
  }

  predicate Feeds(e: Entry) { e.Waited? || e.Delayed? }

  /** Entries `i` and `j` feed the watchdog, and none between them does. */
  predicate NextFeed(t: seq<Entry>, i: nat, j: nat)
  {
    && i < j < |t| && Feeds(t[i]) && Feeds(t[j])
    && forall k :: i < k < j ==> !Feeds(t[k])
  }

  predicate FirstFeed(t: seq<Entry>, j: nat)
  {
    j < |t| && Feeds(t[j]) && forall k :: 0 <= k < j ==> !Feeds(t[k])
  }

  predicate LastFeed(t: seq<Entry>, i: nat)
  {
    i < |t| && Feeds(t[i]) && forall k :: i < k < |t| ==> !Feeds(t[k])
  }

  /** When the watchdog was fed last, by `t` or at `fed` before it. */
  function FedLast(t: seq<Entry>, fed: nat): nat
  {
    if t == [] then fed else if Feeds(t[|t| - 1]) then t[|t| - 1].at else FedLast(t[..|t| - 1], fed)
  }

  lemma LastFeedBefore(t: seq<Entry>, i: nat)
    requires t != [] && !Feeds(t[|t| - 1])
    ensures LastFeed(t, i) <==> LastFeed(t[..|t| - 1], i)
  {
    var most := t[..|t| - 1];
    assert forall k {:trigger t[k]} :: 0 <= k < |most| ==> t[k] == most[k];
    hide Feeds;
  }

  lemma {:induction false} FedLastMeans(t: seq<Entry>, fed: nat)
    ensures forall i: nat :: LastFeed(t, i) ==> FedLast(t, fed) == t[i].at
    ensures (forall k :: 0 <= k < |t| ==> !Feeds(t[k])) ==> FedLast(t, fed) == fed
    ensures (exists i: nat :: LastFeed(t, i)) || forall k :: 0 <= k < |t| ==> !Feeds(t[k])
  {
    if t != [] {
      var most, e := t[..|t| - 1], t[|t| - 1];
      FedLastMeans(most, fed);
      assert FedLast(t, fed) == if Feeds(e) then e.at else FedLast(most, fed);
      hide Feeds, FedLast;
      if Feeds(e) {
        assert LastFeed(t, |most|);
      } else {
        forall i: nat ensures LastFeed(t, i) <==> LastFeed(most, i) {
          LastFeedBefore(t, i);
        }
      }
    }
  }

  lemma {:induction false} FedLastIs(m: Monitor, t: seq<Entry>)
    ensures Watch(m, t).lastFeed == FedLast(t, m.lastFeed)
  {
    if t != [] {
      FedLastIs(m, t[..|t| - 1]);
    }
  }

  lemma {:induction false} LastFeedMeans(m: Monitor, t: seq<Entry>, i: nat)
    requires LastFeed(t, i)
    ensures Watch(m, t).lastFeed == t[i].at
  {
    if i < |t| - 1 {
      LastFeedMeans(m, t[..|t| - 1], i);
    }
  }

  lemma GapsGrow(m: Monitor, e: Entry)
    ensures Observe(m, e).worstGap >= m.worstGap
    ensures Feeds(e) ==> Observe(m, e).worstGap >= Since(e.at, m.lastFeed)
  {
  }

  /** The gap between any two feeds in a row is at most the worst one. */
  lemma {:induction false} WorstGapMeans(m: Monitor, t: seq<Entry>, i: nat, j: nat)
    requires NextFeed(t, i, j)
    ensures Since(t[j].at, t[i].at) <= Watch(m, t).worstGap
  {
    var before, e := t[..|t| - 1], t[|t| - 1];
    assert Watch(m, t) == Observe(Watch(m, before), e);
    GapsGrow(Watch(m, before), e);
    hide Watch, Observe;
    if j < |t| - 1 {
      WorstGapMeans(m, before, i, j);
    } else {
      LastFeedMeans(m, before, i);
    }
  }

  /** So is the gap from the feed before the trace to the first one in it. */
  lemma {:induction false} FirstGapMeans(m: Monitor, t: seq<Entry>, j: nat)
    requires FirstFeed(t, j)
    ensures Since(t[j].at, m.lastFeed) <= Watch(m, t).worstGap
  {
    var before, e := t[..|t| - 1], t[|t| - 1];
    assert Watch(m, t) == Observe(Watch(m, before), e);
    GapsGrow(Watch(m, before), e);
    hide Watch, Observe;
    if j < |t| - 1 {
      FirstGapMeans(m, before, j);
    } else {
      NotFed(m, before);
    }
  }

  lemma {:induction false} NotFed(m: Monitor, t: seq<Entry>)
    requires forall k :: 0 <= k < |t| ==> !Feeds(t[k])
    ensures Watch(m, t).lastFeed == m.lastFeed
  {
    if t != [] {
      NotFed(m, t[..|t| - 1]);
    }
  }

  /** Every wait was for the future exactly when the monitor says so. */
  lemma {:induction false} InFutureMeans(m: Monitor, t: seq<Entry>)
    ensures Watch(m, t).inFuture <==> m.inFuture && forall i :: 0 <= i < |t| && t[i].Waited? ==> t[i].at < t[i].deadline
  {
    if t != [] {
      InFutureMeans(m, t[..|t| - 1]);
    }
  }

  /** The calibration in storage after the calls `t`, when it was `c` before them. */
  function StoredAfter(c: Calibration, t: seq<Entry>): Calibration
  {
    if t == [] then c
    else
      var e := t[|t| - 1];
      if e.CalibrationStored? && e.stored then e.calibration else StoredAfter(c, t[..|t| - 1])
  }

  lemma {:induction false} StoredConcat(c: Calibration, s: seq<Entry>, t: seq<Entry>)
    ensures StoredAfter(c, s + t) == StoredAfter(StoredAfter(c, s), t)
  {
    if t == [] {
      assert s + t == s;
    } else {
      StoredConcat(c, s, t[..|t| - 1]);
      assert (s + t)[..|s + t| - 1] == s + t[..|t| - 1];
    }
  }

  lemma {:induction false} StoredMeans(m: Monitor, t: seq<Entry>)
    ensures Watch(m, t).durable == StoredAfter(m.durable, t)
  {
    if t != [] {
      StoredMeans(m, t[..|t| - 1]);
    }
  }

  function WritesIn(t: seq<Entry>): nat
  {
    if t == [] then 0 else WritesIn(t[..|t| - 1]) + if t[|t| - 1].RebootCountPersisted? then 1 else 0
  }

  lemma {:induction false} WritesConcat(s: seq<Entry>, t: seq<Entry>)
    ensures WritesIn(s + t) == WritesIn(s) + WritesIn(t)
  {
    if t == [] {
      assert s + t == s;
    } else {
      WritesConcat(s, t[..|t| - 1]);
      assert (s + t)[..|s + t| - 1] == s + t[..|t| - 1];
    }
  }

  lemma {:induction false} WritesMean(m: Monitor, t: seq<Entry>)
    ensures Watch(m, t).writes == m.writes + WritesIn(t)
    ensures Watch(m, t).due == m.due && Watch(m, t).early >= m.early
    ensures Watch(m, t).early == m.early ==>
              forall i {:trigger t[i]} :: 0 <= i < |t| && t[i].RebootCountPersisted? ==> t[i].at >= m.due
  {
    if t != [] {
      var before, e := t[..|t| - 1], t[|t| - 1];
      WritesMean(m, before);
      var w := Watch(m, before);
      assert Watch(m, t) == Observe(w, e) && Observe(w, e).due == w.due;
      assert Observe(w, e).writes == w.writes + if e.RebootCountPersisted? then 1 else 0;
      assert Observe(w, e).early == w.early + if e.RebootCountPersisted? && e.at < w.due then 1 else 0;
      hide Watch, Observe;
      assert forall i :: 0 <= i < |before| ==> t[i] == before[i];
    }
  }
}
