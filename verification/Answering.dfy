/**
 What becomes of gestures over a whole run of the operational phase. `Heard` is
 everything the button was told, read off the calls; `Spoken` is what a button that
 was told so says; `Given` is what the boot did for a person. `GesturesAreAnswered`
 proves the last two equal, but for the one gesture a head of the loop still owes.
 */
module Answering {
  import opened Machine
  import opened Vocabulary
  import opened Tuning
  import opened BootModel
  import opened Gestures
  import Button
  import BootTheorems
  import OperationalPhase
  import Watching
  import Flow = CalibrationFlow

  // The button, as the calls show it.

  function HeardIn(e: Entry): seq<Button.Input>
  {
    match e
    case Waited(_, _, Button(edge), until) => [Button.EdgeAt(edge, until)]
    case Waited(_, _, Deadline, until) => [Button.DeadlineAt(until)]
    case EdgePolled(at, Some(edge)) => [Button.EdgeAt(edge, at)]
    case _ => []
  }

  function Heard(t: seq<Entry>): seq<Button.Input>
  {
    if t == [] then [] else Heard(t[..|t| - 1]) + HeardIn(t[|t| - 1])
  }

  function Told(f: Button.Fsm, inputs: seq<Button.Input>): Button.Fsm
  {
    if inputs == [] then f else Button.Handle(Told(f, inputs[..|inputs| - 1]), inputs[|inputs| - 1]).0
  }

  function Spoken(f: Button.Fsm, inputs: seq<Button.Input>): seq<Emission>
  {
    if inputs == [] then []
    else
      var most, last := inputs[..|inputs| - 1], inputs[|inputs| - 1];
      Spoken(f, most) + Emit(Button.Handle(Told(f, most), last).1, last.at)
  }

  lemma {:induction false} HeardConcat(s: seq<Entry>, t: seq<Entry>)
    ensures Heard(s + t) == Heard(s) + Heard(t)
  {
    if t == [] {
      assert s + t == s;
    } else {
      var most, last := t[..|t| - 1], t[|t| - 1];
      assert (s + t)[..|s + t| - 1] == s + most && (s + t)[|s + t| - 1] == last;
      assert Heard(s + t) == Heard(s + most) + HeardIn(last);
      assert Heard(t) == Heard(most) + HeardIn(last);
      hide Heard, HeardIn;
      HeardConcat(s, most);
    }
  }

  lemma {:induction false} ToldConcat(f: Button.Fsm, s: seq<Button.Input>, t: seq<Button.Input>)
    ensures Told(f, s + t) == Told(Told(f, s), t)
    ensures Spoken(f, s + t) == Spoken(f, s) + Spoken(Told(f, s), t)
  {
    if t == [] {
      assert s + t == s;
    } else {
      var most, last := t[..|t| - 1], t[|t| - 1];
      assert (s + t)[..|s + t| - 1] == s + most && (s + t)[|s + t| - 1] == last;
      hide Button.Handle, Emit;
      ToldConcat(f, s, most);
    }
  }

  lemma ToldOne(f: Button.Fsm, input: Button.Input)
    ensures Told(f, [input]) == Button.Handle(f, input).0
    ensures Spoken(f, [input]) == Emit(Button.Handle(f, input).1, input.at)
  {
    assert [input][..0] == [];
  }

  // What the boot does for a person.

  predicate Shows(e: Entry) { e.LedSent? && e.command.ClassifyMoisture? }

  /** The signal a calibration flow begins with. */
  predicate Begins(e: Entry) { e.LedSent? && e.command == Blink(Red, 10, 500) }

  /** The answer that entry `i` completes or begins, and when the answer began: a moisture
      that is shown answers a single press, and a calibration flow a triple one. */
  function GivenAt(t: seq<Entry>, i: nat): seq<Emission>
    requires i < |t|
  {
    if Shows(t[i]) then if i >= 2 && t[i - 2].SoilRead? then [Emission(Button.SampleNow, t[i - 2].at)] else []
    else if Begins(t[i]) then [Emission(Button.Calibrate, t[i].at)]
    else []
  }

  function Given(t: seq<Entry>): seq<Emission>
  {
    if t == [] then [] else Given(t[..|t| - 1]) + GivenAt(t, |t| - 1)
  }

  /** What the boot asks of the stack for a person: a minute for a calibration, and the usual
      time for a sample. */
  function RequestedIn(e: Entry): seq<Emission>
  {
    match e
    case ActiveRequested(at, None) => [Emission(Button.SampleNow, at)]
    case ActiveRequested(at, Some(hold)) => if hold == 60_000 then [Emission(Button.Calibrate, at)] else []
    case _ => []
  }

  function Requested(t: seq<Entry>): seq<Emission>
  {
    if t == [] then [] else Requested(t[..|t| - 1]) + RequestedIn(t[|t| - 1])
  }

  /** Every moisture `t` shows was read in `t`. */
  ghost predicate ShowsItsOwn(t: seq<Entry>)
  {
    forall i {:trigger t[i]} :: 0 <= i < |t| && Shows(t[i]) ==> i >= 2 && t[i - 2].SoilRead?
  }

  lemma GivenHere(s: seq<Entry>, t: seq<Entry>)
    requires ShowsItsOwn(t) && t != []
    ensures GivenAt(s + t, |s + t| - 1) == GivenAt(t, |t| - 1)
  {
    var i := |t| - 1;
    assert (s + t)[|s| + i] == t[i];
    assert i >= 2 ==> (s + t)[|s| + i - 2] == t[i - 2];
  }

  lemma GivenLast(t: seq<Entry>)
    requires t != []
    ensures Given(t) == Given(t[..|t| - 1]) + GivenAt(t, |t| - 1)
  {
  }

  lemma OwnPrefix(t: seq<Entry>)
    requires ShowsItsOwn(t) && t != []
    ensures ShowsItsOwn(t[..|t| - 1])
  {
  }

  lemma {:induction false} GivenConcat(s: seq<Entry>, t: seq<Entry>)
    requires ShowsItsOwn(t)
    ensures Given(s + t) == Given(s) + Given(t)
  {
    if t == [] {
      assert s + t == s;
    } else {
      hide *;
      var most := t[..|t| - 1];
      GivenHere(s, t);
      assert (s + t)[..|s + t| - 1] == s + most;
      GivenLast(s + t);
      GivenLast(t);
      OwnPrefix(t);
      GivenConcat(s, most);
    }
  }

  lemma {:induction false} RequestedConcat(s: seq<Entry>, t: seq<Entry>)
    ensures Requested(s + t) == Requested(s) + Requested(t)
  {
    if t == [] {
      assert s + t == s;
    } else {
      var most, last := t[..|t| - 1], t[|t| - 1];
      assert (s + t)[..|s + t| - 1] == s + most && (s + t)[|s + t| - 1] == last;
      assert Requested(s + t) == Requested(s + most) + RequestedIn(last);
      assert Requested(t) == Requested(most) + RequestedIn(last);
      hide Requested, RequestedIn;
      RequestedConcat(s, most);
    }
  }

  lemma OwnConcat(s: seq<Entry>, t: seq<Entry>)
    requires ShowsItsOwn(s) && ShowsItsOwn(t)
    ensures ShowsItsOwn(s + t)
  {
    forall i | 0 <= i < |s + t| && Shows((s + t)[i]) ensures i >= 2 && (s + t)[i - 2].SoilRead? {
      if i >= |s| {
        assert Shows(t[i - |s|]);
      } else {
        assert Shows(s[i]);
      }
    }
  }

  /** All that `t` says: what the button heard, what was given, what was asked for. */
  ghost predicate Tells(t: seq<Entry>, heard: seq<Button.Input>, given: seq<Emission>, requested: seq<Emission>)
  {
    ShowsItsOwn(t) && Heard(t) == heard && Given(t) == given && Requested(t) == requested
  }

  lemma TellsBoth(s: seq<Entry>, sh: seq<Button.Input>, sg: seq<Emission>, sr: seq<Emission>,
                  t: seq<Entry>, th: seq<Button.Input>, tg: seq<Emission>, tr: seq<Emission>)
    requires Tells(s, sh, sg, sr) && Tells(t, th, tg, tr)
    ensures Tells(s + t, sh + th, sg + tg, sr + tr)
  {
    hide Heard, Given, Requested, ShowsItsOwn;
    HeardConcat(s, t);
    GivenConcat(s, t);
    RequestedConcat(s, t);
    OwnConcat(s, t);
  }

  lemma Tellings(s: seq<Entry>, t: seq<Entry>, heard: seq<Button.Input>, given: seq<Emission>, requested: seq<Emission>)
    requires Tells(t, heard, given, requested)
    ensures Heard(s + t) == Heard(s) + heard && Given(s + t) == Given(s) + given && Requested(s + t) == Requested(s) + requested
  {
    hide Heard, Given, Requested, ShowsItsOwn;
    HeardConcat(s, t);
    GivenConcat(s, t);
    RequestedConcat(s, t);
  }

  lemma TellsOne(e: Entry)
    requires !Shows(e)
    ensures Tells([e], HeardIn(e), if Begins(e) then [Emission(Button.Calibrate, e.at)] else [], RequestedIn(e))
  {
    assert [e][..0] == [];
  }

  predicate Silent(e: Entry)
  {
    HeardIn(e) == [] && RequestedIn(e) == [] && !Shows(e) && !Begins(e)
  }

  lemma {:induction false} TellsNothing(t: seq<Entry>)
    requires forall i {:trigger t[i]} :: 0 <= i < |t| ==> Silent(t[i])
    ensures Tells(t, [], [], [])
  {
    if t != [] {
      var most := t[..|t| - 1];
      TellsNothing(most);
      assert GivenAt(t, |t| - 1) == [];
    }
  }

  // Through one round.

  /** What a head of the loop owes: the gesture of the event it was reached by. */
  function Owed(a: AppState, at: nat): seq<Emission>
  {
    if a.calibrationRequested then [Emission(Button.Calibrate, at)]
    else if a.sampleWithLed then [Emission(Button.SampleNow, at)]
    else []
  }

  /** A head owes one answer at most, and one it can give at once. */
  predicate Owes(a: AppState, at: nat)
  {
    a.sampleWithLed ==> a.nextSample <= at && !a.calibrationRequested
  }

  lemma FlowIsSilentAfterItsStart(at: nat, f: Flow.Answers, i: nat)
    requires 0 < i < |Flow.TraceOf(at, f)|
    ensures Silent(Flow.TraceOf(at, f)[i])
  {
    hide Flow.WideEnough, Flow.Captured;
  }

  lemma FlowGiven(at: nat, f: Flow.Answers)
    ensures Tells(Flow.TraceOf(at, f), [], [Emission(Button.Calibrate, at)], [])
  {
    var t := Flow.TraceOf(at, f);
    var first, rest := t[0], t[1..];
    assert t == [first] + rest && first == LedSent(at, Blink(Red, 10, SOIL_CAL_BLINK_PERIOD));
    TellsOne(first);
    assert Tells([first], [], [Emission(Button.Calibrate, at)], []);
    hide *;
    forall i | 0 <= i < |rest| ensures Silent(rest[i]) {
      FlowIsSilentAfterItsStart(at, f, i + 1);
    }
    TellsNothing(rest);
    TellsBoth([first], [], [Emission(Button.Calibrate, at)], [], rest, [], [], []);
  }

  lemma ShownGiven(at: nat, mv: U32, until: nat, percent: nat)
    ensures Tells([SoilRead(at, mv, until), SoilReported(until, percent), LedSent(until, ClassifyMoisture(percent))],
                  [], [Emission(Button.SampleNow, at)], [])
  {
    var read, led := [SoilRead(at, mv, until), SoilReported(until, percent)], LedSent(until, ClassifyMoisture(percent));
    var t := read + [led];
    TellsNothing(read);
    assert t == [SoilRead(at, mv, until), SoilReported(until, percent), led] && t[..2] == read;
    assert GivenAt(t, 2) == [Emission(Button.SampleNow, at)];
    GivenLast(t);
    assert Heard(t) == Heard(read) + HeardIn(led) && Requested(t) == Requested(read) + RequestedIn(led);
    assert Tells(t, [], [Emission(Button.SampleNow, at)], []);
  }

  lemma SampleGiven(c: Calibration, withLed: bool, at: nat, soil: Flow.Reading, battery: Flow.Reading)
    ensures Tells(SampleTrace(c, withLed, at, soil, battery), [], if withLed then [Emission(Button.SampleNow, at)] else [], [])
  {
    hide MoistureOf, Measurement.EstimateBattery, Heard, Given, Requested, ShowsItsOwn;
    var t := SampleTrace(c, withLed, at, soil, battery);
    if withLed {
      var shown, rest := t[..3], t[3..];
      assert t == shown + rest && rest == [t[3], t[4]] && Silent(t[3]) && Silent(t[4]);
      assert shown == [SoilRead(at, soil.mv, soil.until), SoilReported(soil.until, MoistureOf(c, soil.mv)),
                       LedSent(soil.until, ClassifyMoisture(MoistureOf(c, soil.mv)))];
      ShownGiven(at, soil.mv, soil.until, MoistureOf(c, soil.mv));
      TellsNothing(rest);
      TellsBoth(shown, [], [Emission(Button.SampleNow, at)], [], rest, [], [], []);
    } else {
      TellsNothing(t);
    }
  }

  /** What is owed is given, at the instant of the head. */
  lemma DueGiven(a: AppState, at: nat, d: DueAnswers)
    requires Owes(a, at)
    ensures Tells(DueTrace(a, at, d), [], Owed(a, at), [])
    ensures var b := DueDone(a, at, d); !b.calibrationRequested && !b.sampleWithLed && b.button == a.button
  {
    var flow := FlowTrace(a, at, d.flow);
    FlowGiven(at, d.flow);
    TellsNothing([]);
    hide Flow.TraceOf, Flow.EndOf, Flow.OutcomeOf, Heard, Given, Requested, ShowsItsOwn;
    if SampleIsDue(a, at, d.flow) {
      var c, asked := AfterFlow(a, d.flow).calibration, AfterFlowAt(a, at, d.flow);
      var sample := SampleTrace(c, a.sampleWithLed, asked, d.soil, d.battery);
      SampleGiven(c, a.sampleWithLed, asked, d.soil, d.battery);
      assert DueTrace(a, at, d) == flow + sample;
      hide SampleTrace;
      TellsBoth(flow, [], if a.calibrationRequested then [Emission(Button.Calibrate, at)] else [], [],
                sample, [], if a.sampleWithLed then [Emission(Button.SampleNow, asked)] else [], []);
    } else {
      assert DueTrace(a, at, d) == flow;
    }
  }

  lemma LastTaken(f: Button.Fsm, edges: seq<Edge>, now: nat)
    requires edges != []
    ensures var most, last := edges[..|edges| - 1], edges[|edges| - 1];
            && Taken(edges, now) == Taken(most, now) + [EdgePolled(now, Some(last))]
            && Button.Handle(Drained(f, most, now), Button.EdgeAt(last, now)) == (Drained(f, edges, now), None)
            && Emit(None, now) == []
  {
  }

  lemma PolledTells(edge: Edge, now: nat)
    ensures Tells([EdgePolled(now, Some(edge))], [Button.EdgeAt(edge, now)], [], [])
  {
    TellsOne(EdgePolled(now, Some(edge)));
  }

  /** The edges taken on the way to a sleep are told in order, and say nothing. */
  lemma {:induction false} TakenHeard(f: Button.Fsm, edges: seq<Edge>, now: nat) returns (heard: seq<Button.Input>)
    ensures Tells(Taken(edges, now), heard, [], [])
    ensures Told(f, heard) == Drained(f, edges, now) && Spoken(f, heard) == []
    ensures forall i :: 0 <= i < |heard| ==> heard[i].at == now
  {
    if edges == [] {
      heard := [];
    } else {
      var most, last := edges[..|edges| - 1], edges[|edges| - 1];
      var t, e, input := Taken(most, now), EdgePolled(now, Some(last)), Button.EdgeAt(last, now);
      hide Taken, Drained, Heard, Given, Requested, ShowsItsOwn, Button.EdgeNext, Button.Handle, Told, Spoken, HeardIn, RequestedIn, Emit;
      LastTaken(f, edges, now);
      PolledTells(last, now);
      var before := TakenHeard(f, most, now);
      heard := before + [input];
      TellsBoth(t, before, [], [], [e], [input], [], []);
      ToldConcat(f, before, [input]);
      ToldOne(Told(f, before), input);
    }
  }

  lemma ToldNothing(f: Button.Fsm)
    ensures Told(f, []) == f && Spoken(f, []) == []
  {
  }

  /** A decision that drains the edge queue, and one that does not. */
  lemma DecisionParts(a: AppState, now: nat, icd: IcdState, edges: seq<Edge>) returns (drains: bool, rest: seq<Entry>)
    ensures var turn := Decide(a, now, icd, edges);
            && turn.app == a.(button := turn.app.button, rebootCountPersisted := turn.app.rebootCountPersisted, idleSince := turn.app.idleSince)
            && (turn.outcome.Some? ==> turn.outcome.value.Sleep?)
            && if drains then
                 && turn.calls == [IcdRead(now, icd)] + Taken(edges, now) + rest && turn.app.button == Drained(a.button, edges, now)
                 && (forall i {:trigger rest[i]} :: 0 <= i < |rest| ==> Silent(rest[i]))
               else
                 turn.app.button == a.button && (forall i {:trigger turn.calls[i]} :: 0 <= i < |turn.calls| ==> Silent(turn.calls[i]))
    ensures Silent(IcdRead(now, icd))
  {
    hide SleepFor, Taken, Drained, Button.Fsm.IsActive;
    var t := Decide(a, now, icd, edges).calls;
    var read, taken := [IcdRead(now, icd)], Taken(edges, now);
    drains := t != [RebootCountPersisted(now)] && t != read;
    rest := [];
    if drains {
      rest := t[|read + taken|..];
      assert rest == [EdgePolled(now, None)] || rest == [EdgePolled(now, None), RebootCountPersisted(now)];
    }
  }

  lemma DecisionHeard(a: AppState, now: nat, icd: IcdState, edges: seq<Edge>) returns (heard: seq<Button.Input>)
    requires !a.calibrationRequested && !a.sampleWithLed
    ensures var turn := Decide(a, now, icd, edges);
            && Tells(turn.calls, heard, [], [])
            && Told(a.button, heard) == turn.app.button && Spoken(a.button, heard) == []
            && !turn.app.calibrationRequested && !turn.app.sampleWithLed
            && (turn.outcome.Some? ==> turn.outcome.value.Sleep?)
    ensures forall i :: 0 <= i < |heard| ==> heard[i].at == now
  {
    hide Decide, Taken, Drained, Heard, Given, Requested, ShowsItsOwn, Told, Spoken, Silent;
    var turn, read, taken := Decide(a, now, icd, edges), [IcdRead(now, icd)], Taken(edges, now);
    var drains, rest := DecisionParts(a, now, icd, edges);
    ToldNothing(a.button);
    if !drains {
      heard := [];
      TellsNothing(turn.calls);
    } else {
      TellsNothing(read);
      TellsNothing(rest);
      heard := TakenHeard(a.button, edges, now);
      TellsBoth(read, [], [], [], taken, heard, [], []);
      TellsBoth(read + taken, heard, [], [], rest, [], [], []);
    }
  }

  /** What is still to be done about the last thing the button said. */
  function Unanswered(c: Config): seq<Emission>
  {
    match c
    case Running(a, at) => Owed(a, at)
    case Ended(Sleep(_), _, _) => []
    case Ended(FactoryReset, _, at) => [Emission(Button.Gesture.FactoryReset, at)]
  }

  /** The gestures that ask the stack to stay reachable: all but a reset. */
  function Asking(c: Config, said: seq<Emission>): seq<Emission>
  {
    if c.Ended? && c.outcome.FactoryReset? && said != [] then said[..|said| - 1] else said
  }

  function Went(turn: Turn, until: nat): Config
  {
    if turn.outcome.Some? then Ended(turn.outcome.value, turn.app, until) else Running(turn.app, until)
  }

  /** What the button makes of an event, and the boot of what it says. */
  lemma EventSays(a: AppState, event: Event, until: nat)
    requires !a.calibrationRequested && !a.sampleWithLed
    ensures var turn := OnEvent(a, event, until);
            var c, inputs := Went(turn, until), HeardIn(Waited(0, 0, event, until));
            && Told(a.button, inputs) == turn.app.button && Spoken(a.button, inputs) == Unanswered(c)
            && (c.Running? ==> Owes(turn.app, until))
            && if turn.calls == [] then Asking(c, Unanswered(c)) == []
               else |turn.calls| == 1 && turn.calls[0].ActiveRequested? && Asking(c, Unanswered(c)) == RequestedIn(turn.calls[0])
  {
    match event
    case Button(edge) => ToldOne(a.button, Button.EdgeAt(edge, until));
    case Deadline => ToldOne(a.button, Button.DeadlineAt(until));
    case Icd =>
  }

  /** An event, and the requests it leads to. */
  lemma WaitHeard(a: AppState, now: nat, deadline: nat, event: Event, until: nat) returns (heard: seq<Button.Input>)
    requires !a.calibrationRequested && !a.sampleWithLed
    ensures var turn := OnEvent(a, event, until);
            var c := Went(turn, until);
            && Tells([Waited(now, deadline, event, until)] + turn.calls, heard, [], Asking(c, Unanswered(c)))
            && Told(a.button, heard) == turn.app.button && Spoken(a.button, heard) == Unanswered(c)
            && (c.Running? ==> Owes(turn.app, until))
    ensures forall i :: 0 <= i < |heard| ==> heard[i].at == until
  {
    var wait, turn := Waited(now, deadline, event, until), OnEvent(a, event, until);
    heard := HeardIn(Waited(0, 0, event, until));
    TellsOne(wait);
    assert heard == HeardIn(wait) && RequestedIn(wait) == [];
    EventSays(a, event, until);
    hide OnEvent, Heard, Given, Requested, ShowsItsOwn, Told, Spoken, Asking, Unanswered, Owes, HeardIn, Went;
    if turn.calls == [] {
      assert [wait] + turn.calls == [wait];
    } else {
      TellsOne(turn.calls[0]);
      TellsBoth([wait], heard, [], [], [turn.calls[0]], [], [], RequestedIn(turn.calls[0]));
      assert turn.calls == [turn.calls[0]];
    }
  }

  lemma RoundHeard(a: AppState, at: nat, x: Answers) returns (heard: seq<Button.Input>)
    requires Owes(a, at)
    ensures var run := Round(a, at, x);
            && Tells(run.trace, heard, Owed(a, at), Asking(run.config, Unanswered(run.config)))
            && Told(a.button, heard) == run.config.app.button && Spoken(a.button, heard) == Unanswered(run.config)
            && (run.config.Running? ==> Owes(run.config.app, run.config.at))
    ensures forall i :: 0 <= i < |heard| ==> heard[i].at <= Max(DueAt(a, at, x.due), Round(a, at, x).config.at)
  {
    hide DueDone, DueAt, DueTrace, Decide, BootModel.OnEvent, NextDeadline, Heard, Given, Requested, ShowsItsOwn, Told, Spoken, Owed, Owes;
    var b, now, due := DueDone(a, at, x.due), DueAt(a, at, x.due), DueTrace(a, at, x.due);
    DueGiven(a, at, x.due);
    var decision := Decide(b, now, x.icd, x.edges);
    var decided := DecisionHeard(b, now, x.icd, x.edges);
    TellsBoth(due, [], Owed(a, at), [], decision.calls, decided, [], []);
    if decision.outcome.None? {
      var deadline := NextDeadline(decision.app, now);
      var turn := BootModel.OnEvent(decision.app, x.event, x.until);
      var wait := [Waited(now, deadline, x.event, x.until)] + turn.calls;
      var more := WaitHeard(decision.app, now, deadline, x.event, x.until);
      var c := Round(a, at, x).config;
      heard := decided + more;
      TellsBoth(due + decision.calls, decided, Owed(a, at), [], wait, more, [], Asking(c, Unanswered(c)));
      ToldConcat(a.button, decided, more);
      assert Round(a, at, x).trace == due + decision.calls + wait;
    } else {
      heard := decided;
    }
  }

  lemma SumsUp(owed: seq<Emission>, said: seq<Emission>, given: seq<Emission>, between: seq<Emission>, c: Config, more: seq<Emission>)
    requires owed + said == given + between && more == Unanswered(c)
    ensures owed + (said + more) == (given + between) + more
    ensures said + Asking(c, more) == Asking(c, said + more)
  {
    assert owed + (said + more) == (owed + said) + more;
    if c.Ended? && c.outcome.FactoryReset? {
      assert (said + more)[..|said + more| - 1] == said + more[..|more| - 1];
    }
  }

  /** Over every run: the button of the application is a button told what the calls show.
      What it said, a person was given, each answer begun at the very instant of its
      gesture, in order, once, and nothing else was given; but for the gesture the last
      event completed, which the next round begins with, or a reset, which ends the boot.
      And each one but the reset, the stack was asked to stay reachable for. */
  lemma {:induction false} GesturesAreAnswered(l: Limits, a: AppState, at: nat, laps: seq<Lap>)
    requires Owes(a, at) && IsRun(l, a, at, laps)
    ensures var run := Outcomes(a, at, laps);
            var said := Spoken(a.button, Heard(run.trace));
            && run.config.app.button == Told(a.button, Heard(run.trace))
            && Owed(a, at) + said == Given(run.trace) + Unanswered(run.config)
            && Requested(run.trace) == Asking(run.config, said)
            && (run.config.Running? ==> Owes(run.config.app, run.config.at))
  {
    if laps == [] {
      NoLaps(l, a, at);
    } else {
      LastLap(l, a, at, laps);
      var before, lap := Outcomes(a, at, laps[..|laps| - 1]), laps[|laps| - 1];
      assert before.config == Running(lap.app, lap.at) && Unanswered(before.config) == Owed(lap.app, lap.at);
      assert Asking(before.config, Spoken(a.button, Heard(before.trace))) == Spoken(a.button, Heard(before.trace));
      hide *;
      GesturesAreAnswered(l, a, at, laps[..|laps| - 1]);
      var heard := RoundHeard(lap.app, lap.at, lap.answers);
      Tellings(before.trace, lap.end.trace, heard, Owed(lap.app, lap.at), Asking(lap.end.config, Unanswered(lap.end.config)));
      SumsUp(Owed(a, at), Spoken(a.button, Heard(before.trace)), Given(before.trace), Owed(lap.app, lap.at), lap.end.config, Unanswered(lap.end.config));
      ToldConcat(a.button, Heard(before.trace), heard);
    }
  }

  // How long a reset was held for.

  /** Instants so far from the end of the clock's range that no deadline saturates. */
  ghost predicate InRange(inputs: seq<Button.Input>)
  {
    forall i {:trigger inputs[i]} :: 0 <= i < |inputs| ==> inputs[i].at <= HORIZON + 0x1000_0000_0000
  }

  /** Input `j` is a press, and nothing after it is a release. */
  ghost predicate StillDown(inputs: seq<Button.Input>, j: nat)
  {
    && j < |inputs| && Button.IsEdge(inputs[j], Falling)
    && forall k {:trigger inputs[k]} :: j < k < |inputs| ==> !Button.IsEdge(inputs[k], Rising)
  }

  /** When a press that began at `at` can have come to the deadline it waits for. */
  function Matured(mode: Button.Mode, at: nat): nat
  {
    at + BUTTON_DEBOUNCE + if mode == Button.Held then BUTTON_FACTORY_RESET_HOLD else 0
  }

  /** A button that was up, and is believed down or in its debounce, was pressed so long
      before its deadline, and not released since. */
  lemma {:induction false} HeldFromAPress(f: Button.Fsm, inputs: seq<Button.Input>) returns (j: nat)
    requires !f.Pressed() && InRange(inputs)
    requires Told(f, inputs).mode == Button.Debounce || Told(f, inputs).mode == Button.Held
    ensures StillDown(inputs, j) && Matured(Told(f, inputs).mode, inputs[j].at) <= Told(f, inputs).deadline
  {
    var most, last := inputs[..|inputs| - 1], inputs[|inputs| - 1];
    var before := Told(f, most);
    if before.mode == Button.Debounce || before.mode == Button.Held {
      j := HeldFromAPress(f, most);
      assert most[j] == inputs[j];
    } else {
      j := |most|;
    }
  }

  /** How the machine comes to wait for the release, or still does. */
  lemma ToWaitRelease(f: Button.Fsm, input: Button.Input)
    requires Button.Handle(f, input).0.mode == Button.WaitRelease
    ensures if f.mode == Button.WaitRelease then Button.Handle(f, input).1 == None && !Button.IsEdge(input, Rising)
            else f.mode == Button.Held && input.DeadlineAt? && f.deadline <= input.at
                 && Button.Handle(f, input).1 == Some(Button.Gesture.FactoryReset)
  {
  }

  /** So was one that has asked for a reset, before it asked. */
  lemma {:induction false} ResetFromAPress(f: Button.Fsm, inputs: seq<Button.Input>, t: nat) returns (j: nat)
    requires !f.Pressed() && InRange(inputs) && Told(f, inputs).mode == Button.WaitRelease
    requires Spoken(f, inputs) != [] && Spoken(f, inputs)[|Spoken(f, inputs)| - 1] == Emission(Button.Gesture.FactoryReset, t)
    ensures StillDown(inputs, j) && Matured(Button.Held, inputs[j].at) <= t
  {
    var most, last := inputs[..|inputs| - 1], inputs[|inputs| - 1];
    var before := Told(f, most);
    ToWaitRelease(before, last);
    assert Told(f, inputs) == Button.Handle(before, last).0;
    assert Spoken(f, inputs) == Spoken(f, most) + Emit(Button.Handle(before, last).1, last.at);
    RangeOfMost(inputs);
    hide Told, Spoken, Button.Handle, InRange, StillDown;
    if before.mode == Button.WaitRelease {
      j := ResetFromAPress(f, most, t);
    } else {
      j := HeldFromAPress(f, most);
    }
    StaysDown(inputs, j);
  }

  lemma RangeOfMost(inputs: seq<Button.Input>)
    requires InRange(inputs) && inputs != []
    ensures InRange(inputs[..|inputs| - 1])
  {
  }

  lemma StaysDown(inputs: seq<Button.Input>, j: nat)
    requires inputs != [] && StillDown(inputs[..|inputs| - 1], j) && !Button.IsEdge(inputs[|inputs| - 1], Rising)
    ensures StillDown(inputs, j) && inputs[j] == inputs[..|inputs| - 1][j]
  {
  }

  /** Everything a run's button hears is heard in range. */
  lemma {:induction false} HeardInRange(l: Limits, a: AppState, at: nat, laps: seq<Lap>)
    requires BootTheorems.Starts(a, at) && Owes(a, at) && IsRun(l, a, at, laps)
    ensures InRange(Heard(Outcomes(a, at, laps).trace))
  {
    if laps == [] {
      NoLaps(l, a, at);
    } else {
      LastLap(l, a, at, laps);
      var most, lap := laps[..|laps| - 1], laps[|laps| - 1];
      var before := Outcomes(a, at, most);
      HeardInRange(l, a, at, most);
      GesturesAreAnswered(l, a, at, most);
      BootTheorems.RunIsFollowed(l, a, at, at, most);
      assert lap.app.nextSample <= lap.at + SAMPLE_PERIOD;
      RoundInRange(l, lap.app, lap.at, lap.answers);
      hide *;
      var heard := RoundHeard(lap.app, lap.at, lap.answers);
      Tellings(before.trace, lap.end.trace, heard, Owed(lap.app, lap.at), Asking(lap.end.config, Unanswered(lap.end.config)));
      InRangeBoth(Heard(before.trace), heard);
    }
  }

  lemma InRangeBoth(s: seq<Button.Input>, t: seq<Button.Input>)
    requires InRange(s) && forall i :: 0 <= i < |t| ==> t[i].at <= HORIZON + 0x1000_0000_0000
    ensures InRange(s + t)
  {
  }

  lemma RoundInRange(l: Limits, a: AppState, at: nat, x: BootModel.Answers)
    requires RoundLegal(l, a, at, x) && a.nextSample <= at + SAMPLE_PERIOD
    ensures Max(DueAt(a, at, x.due), Round(a, at, x).config.at) <= HORIZON + 0x1000_0000_0000
  {
    OperationalPhase.DueTakes(l, a, at, x.due);
    hide DueDone, DueAt, DueLegal, NextDeadline, BootModel.OnEvent;
    var decision, now := Decision(a, at, x), DueAt(a, at, x.due);
    assert decision.app.nextSample == DueDone(a, at, x.due).nextSample by {
      var drains, rest := DecisionParts(DueDone(a, at, x.due), now, x.icd, x.edges);
    }
    OperationalPhase.DeadlineIsNext(decision.app, now);
    assert OperationalPhase.IsCandidate(decision.app, decision.app.nextSample);
  }

  lemma LastOfBoth(owed: seq<Emission>, said: seq<Emission>, given: seq<Emission>, last: Emission)
    requires owed + said == given + [last] && (owed == [] || owed[|owed| - 1].gesture != last.gesture)
    ensures said != [] && said[|said| - 1] == last
  {
    assert (given + [last])[|given|] == last;
  }

  /** A run that ends in a factory reset at `t` took a press at least the debounce and the
      whole hold before `t`, and no release after it. Any later edge was a press said
      again, which the button does not heed. */
  lemma ResetWasHeldFor(l: Limits, a: AppState, at: nat, laps: seq<Lap>, b: AppState, t: nat) returns (j: nat)
    requires BootTheorems.Starts(a, at) && Owes(a, at) && !a.button.Pressed() && IsRun(l, a, at, laps)
    requires Outcomes(a, at, laps).config == Ended(FactoryReset, b, t)
    ensures var heard := Heard(Outcomes(a, at, laps).trace);
            StillDown(heard, j) && heard[j].at + BUTTON_DEBOUNCE + BUTTON_FACTORY_RESET_HOLD <= t
  {
    var run := Outcomes(a, at, laps);
    var heard, given := Heard(run.trace), Given(run.trace);
    NoResetIsOwed(a, at);
    hide Owed, Owes, Outcomes, IsRun, Heard, Given, Requested, Told, Spoken, InRange, BootTheorems.Starts, Watching.LastEdge, StillDown;
    GesturesAreAnswered(l, a, at, laps);
    HeardInRange(l, a, at, laps);
    BootTheorems.ResetHoldsTheButton(l, a, at, laps);
    LastOfBoth(Owed(a, at), Spoken(a.button, heard), given, Emission(Button.Gesture.FactoryReset, t));
    j := ResetFromAPress(a.button, heard, t);
  }

  lemma NoResetIsOwed(a: AppState, at: nat)
    ensures Owed(a, at) == [] || Owed(a, at)[|Owed(a, at)| - 1].gesture != Button.Gesture.FactoryReset
  {
  }
}
