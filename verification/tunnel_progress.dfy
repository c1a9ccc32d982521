/**
  Progress of tunnel recovery (src/remote_host.rs): whatever happened before, no call is stuck, each step brings its
  call nearer to its end, and all calls under way can still end connected. Two runs show what the gate and the
  counter are for: one rebuild serves both of two callers, and a refused open starts the Server.
 */
module TunnelProgress {
  import opened Wrappers
  import opened Tunnel

  /** How far a call is from its end at most. */
  function Rank(phase: Phase): nat {
    match phase
    case Loaded(_) => 9
    case Opening(_, _) => 8
    case AtGate(_, _, _) => 7
    case Reopening(_) => 6
    case Rebuilding(_) => 5
    case Counting => 4
    case OpeningRebuilt(_) => 3
    case Ensuring => 2
    case OpeningStarted(_) => 1
    case Done(_) => 0
  }

  predicate Unfinished(s: State, id: CallerId) {
    id in s.calls && !s.calls[id].phase.Done?
  }

  /** The step of a call in which all goes well. */
  function NextStep(phase: Phase, id: CallerId): Step
    requires !phase.Done?
  {
    match phase
    case Loaded(_) => StartOpen(id)
    case AtGate(_, _, _) => EnterGate(id)
    case Rebuilding(_) => RebuildAnswers(id, true)
    case Counting => Count(id)
    case Ensuring => EnsureAnswers(id, true)
    case _ => OpenAnswers(id, Connected)
  }

  /** A call can go on, unless it waits for the gate and another call that is under way holds it. */
  lemma GoesOnOrWaits(s: State, id: CallerId)
    requires Inv(s) && Unfinished(s, id)
    ensures Enabled(s, NextStep(s.calls[id].phase, id))
         || (s.calls[id].phase.AtGate? && s.gate.Some? && s.gate.value != id && Unfinished(s, s.gate.value)
             && !s.calls[s.gate.value].phase.AtGate?
             && Enabled(s, NextStep(s.calls[s.gate.value].phase, s.gate.value)))
  {
    assert CallInv(s, id);
    if s.gate.Some? { assert CallInv(s, s.gate.value); }
  }

  /** Whatever the answer, a step of a call brings it nearer to its end, and leaves every other call where it is. */
  lemma StepAdvances(s: State, step: Step)
    requires Enabled(s, step) && !step.Dies? && !step.Begin?
    ensures var after := Apply(s, step);
            && after.calls.Keys == s.calls.Keys && step.id in s.calls
            && Rank(after.calls[step.id].phase) < Rank(s.calls[step.id].phase)
            && forall id :: id in s.calls && id != step.id ==> after.calls[id] == s.calls[id]
  {
  }

  /** The answers that go well never end a call without a connection. */
  lemma GoodStepsConnect(s: State, id: CallerId)
    requires Inv(s) && Unfinished(s, id) && Enabled(s, NextStep(s.calls[id].phase, id))
    ensures var after := Apply(s, NextStep(s.calls[id].phase, id));
            after.calls[id].phase.Done? ==> after.calls[id].phase.connected
  {
    assert CallInv(s, id);
  }

  // ---- All calls ----

  /** The steps that the calls with numbers below `n` have to go at most. */
  function Work(calls: map<CallerId, Call>, n: nat): nat {
    if n == 0 then 0 else Work(calls, n - 1) + if n - 1 in calls then Rank(calls[n - 1].phase) else 0
  }

  lemma {:induction false} WorkFalls(before: map<CallerId, Call>, after: map<CallerId, Call>, id: CallerId, n: nat)
    requires before.Keys == after.Keys && id in before && Rank(after[id].phase) < Rank(before[id].phase)
    requires forall other :: other in before && other != id ==> after[other] == before[other]
    ensures Work(after, n) <= Work(before, n) && (id < n ==> Work(after, n) < Work(before, n))
    decreases n
  {
    if n > 0 { WorkFalls(before, after, id, n - 1); }
  }

  lemma {:induction false} AllBelow(ids: set<CallerId>) returns (n: nat)
    ensures forall id :: id in ids ==> id < n
    decreases |ids|
  {
    n := 0;
    if ids != {} {
      var id: CallerId :| id in ids;
      var rest := ids - {id};
      n := AllBelow(rest);
      n := if n <= id then id + 1 else n;
      assert forall other :: other in ids ==> other == id || other in rest;
    }
  }

  ghost predicate AllDone(s: State) {
    forall id :: id in s.calls ==> s.calls[id].phase.Done?
  }

  /** The calls that were under way have ended connected, and the others as they had. */
  ghost predicate EndedWell(before: State, after: State) {
    && after.calls.Keys == before.calls.Keys
    && forall id :: id in before.calls ==>
         if before.calls[id].phase.Done? then after.calls[id] == before.calls[id]
         else after.calls[id].phase == Done(true)
  }

  lemma {:induction false} Finish(s: State, n: nat) returns (steps: seq<Step>)
    requires Inv(s) && LogsInv(s) && forall id :: id in s.calls ==> id < n
    ensures ValidRun(s, steps) && EndedWell(s, End(s, steps))
    decreases Work(s.calls, n)
  {
    hide Inv, LogsInv, Apply, Enabled, NextStep;
    steps := [];
    if !AllDone(s) {
      var id: CallerId :| id in s.calls && Unfinished(s, id);
      GoesOnOrWaits(s, id);
      var mover := if Enabled(s, NextStep(s.calls[id].phase, id)) then id else s.gate.value;
      var step := NextStep(s.calls[mover].phase, mover);
      IsItsStep(s.calls[mover].phase, mover);
      StepAdvances(s, step);
      GoodStepsConnect(s, mover);
      ControlKept(s, step);
      LogsKept(s, step);
      WorkFalls(s.calls, Apply(s, step).calls, mover, n);
      var rest := Finish(Apply(s, step), n);
      steps := [step] + rest;
      assert steps[1..] == rest;
    }
  }

  lemma IsItsStep(phase: Phase, id: CallerId)
    requires !phase.Done?
    ensures var step := NextStep(phase, id); !step.Dies? && !step.Begin? && step.id == id
  {
  }

  /** From every state that can be reached, all calls that are under way can still end connected. */
  lemma EveryoneCanConnect(start: State, before: seq<Step>) returns (steps: seq<Step>)
    requires Init(start) && ValidRun(start, before)
    ensures ValidRun(End(start, before), steps)
    ensures EndedWell(End(start, before), End(End(start, before), steps))
  {
    RunKeeps(start, before);
    var n := AllBelow(End(start, before).calls.Keys);
    steps := Finish(End(start, before), n);
  }

  /** In every state that can be reached, a call that has not ended can go on or waits for one that can. */
  lemma NobodyIsStuck(start: State, before: seq<Step>, id: CallerId)
    requires Init(start) && ValidRun(start, before) && Unfinished(End(start, before), id)
    ensures var s := End(start, before);
            || Enabled(s, NextStep(s.calls[id].phase, id))
            || (s.calls[id].phase.AtGate? && s.gate.Some? && Unfinished(s, s.gate.value)
                && Enabled(s, NextStep(s.calls[s.gate.value].phase, s.gate.value)))
  {
    RunKeeps(start, before);
    GoesOnOrWaits(End(start, before), id);
  }

  // ---- Two runs ----

  ghost predicate Leads(s: State, steps: seq<Step>, end: State) {
    ValidRun(s, steps) && End(s, steps) == end
  }

  lemma Precede(s: State, step: Step, end: State, rest: seq<Step>) returns (steps: seq<Step>)
    requires Enabled(s, step) && Leads(Apply(s, step), rest, end)
    ensures Leads(s, steps, end)
  {
    steps := [step] + rest;
    assert steps[1..] == rest;
  }

  lemma Nothing(s: State)
    ensures Leads(s, [], s)
  {
  }

  function Started(calls: map<CallerId, Call>, alive: bool): State {
    State(0, None, calls, 0, alive, if alive then 0 else 1)
  }

  /** The session dies under two callers: one rebuilds it, and the other finds it rebuilt and only opens again. */
  lemma OneRebuildServesBoth(a: CallerId, b: CallerId) returns (s: State, steps: seq<Step>, end: State)
    requires a != b
    ensures Init(s) && Leads(s, steps, end)
    ensures end.rebuilds == end.session == end.deaths == 1 && end.alive
    ensures end.calls == map[
              a := Call(Done(true), [Open(SessionFailed), Rebuild(true), Open(Connected)]),
              b := Call(Done(true), [Open(SessionFailed), Open(Connected)])]
  {
    var rest;
    s := Started(map[], true);
    rest, end := RebuiltOnce(a, b);
    steps := BothFail(s, a, b, end, rest);
  }

  function BothFailed(a: CallerId, b: CallerId): State {
    Started(map[a := Call(AtGate(SessionFailed, 0, 0), [Open(SessionFailed)]),
                b := Call(AtGate(SessionFailed, 0, 0), [Open(SessionFailed)])], false)
  }

  lemma BothFail(s: State, a: CallerId, b: CallerId, end: State, rest: seq<Step>) returns (steps: seq<Step>)
    requires a != b && s == Started(map[], true) && Leads(BothFailed(a, b), rest, end)
    ensures Leads(s, steps, end)
  {
    var s1 := Apply(s, Begin(a));
    var s2 := Apply(s1, Begin(b));
    var s3 := Apply(s2, StartOpen(a));
    var s4 := Apply(s3, StartOpen(b));
    var s5 := Apply(s4, Dies);
    var s6 := Apply(s5, OpenAnswers(a, SessionFailed));
    var s7 := Apply(s6, OpenAnswers(b, SessionFailed));
    assert s7.calls[a].log == [Open(SessionFailed)] && s7.calls[b].log == [Open(SessionFailed)];
    assert s7.calls == BothFailed(a, b).calls;
    assert s7 == BothFailed(a, b);
    hide Leads, Apply, Enabled;
    steps := Precede(s6, OpenAnswers(b, SessionFailed), end, rest);
    steps := Precede(s5, OpenAnswers(a, SessionFailed), end, steps);
    steps := Precede(s4, Dies, end, steps);
    steps := Precede(s3, StartOpen(b), end, steps);
    steps := Precede(s2, StartOpen(a), end, steps);
    steps := Precede(s1, Begin(b), end, steps);
    steps := Precede(s, Begin(a), end, steps);
  }

  lemma RebuiltOnce(a: CallerId, b: CallerId) returns (steps: seq<Step>, end: State)
    requires a != b
    ensures Leads(BothFailed(a, b), steps, end)
    ensures end.rebuilds == end.session == end.deaths == 1 && end.alive
    ensures end.calls == map[
              a := Call(Done(true), [Open(SessionFailed), Rebuild(true), Open(Connected)]),
              b := Call(Done(true), [Open(SessionFailed), Open(Connected)])]
  {
    steps, end := SecondOpens(a, b);
    var s := BothFailed(a, b);
    var s1 := Apply(s, EnterGate(a));
    var s2 := Apply(s1, RebuildAnswers(a, true));
    var s3 := Apply(s2, Count(a));
    var s4 := Apply(s3, OpenAnswers(a, Connected));
    assert s4.calls[a].log == [Open(SessionFailed), Rebuild(true), Open(Connected)];
    assert s4.calls == FirstRebuilt(a, b).calls;
    assert s4 == FirstRebuilt(a, b);
    hide Leads, Apply, Enabled;
    steps := Precede(s3, OpenAnswers(a, Connected), end, steps);
    steps := Precede(s2, Count(a), end, steps);
    steps := Precede(s1, RebuildAnswers(a, true), end, steps);
    steps := Precede(s, EnterGate(a), end, steps);
  }

  function FirstRebuilt(a: CallerId, b: CallerId): State {
    Started(map[a := Call(Done(true), [Open(SessionFailed), Rebuild(true), Open(Connected)]),
                b := Call(AtGate(SessionFailed, 0, 0), [Open(SessionFailed)])], false)
    .(session := 1, alive := true, rebuilds := 1)
  }

  lemma SecondOpens(a: CallerId, b: CallerId) returns (steps: seq<Step>, end: State)
    requires a != b
    ensures Leads(FirstRebuilt(a, b), steps, end)
    ensures end.rebuilds == end.session == end.deaths == 1 && end.alive
    ensures end.calls == map[
              a := Call(Done(true), [Open(SessionFailed), Rebuild(true), Open(Connected)]),
              b := Call(Done(true), [Open(SessionFailed), Open(Connected)])]
  {
    var s := FirstRebuilt(a, b);
    var s1 := Apply(s, EnterGate(b));
    end := Apply(s1, OpenAnswers(b, Connected));
    assert end.calls[b].log == [Open(SessionFailed), Open(Connected)];
    assert end.calls == map[
              a := Call(Done(true), [Open(SessionFailed), Rebuild(true), Open(Connected)]),
              b := Call(Done(true), [Open(SessionFailed), Open(Connected)])];
    Nothing(end);
    assert end.rebuilds == end.session == end.deaths == 1 && end.alive;
    hide Leads, Apply, Enabled;
    steps := Precede(s1, OpenAnswers(b, Connected), end, []);
    steps := Precede(s, EnterGate(b), end, steps);
  }

  /** A refused open starts the Server once and is tried once more, on the same session. */
  lemma RefusalStartsTheServer(a: CallerId) returns (s: State, steps: seq<Step>, end: State)
    ensures Init(s) && Leads(s, steps, end)
    ensures end.rebuilds == end.session == end.deaths == 0 && end.gate == None
    ensures end.calls == map[a := Call(Done(true), [Open(Refused), Ensure(true), Open(Connected)])]
  {
    s := Started(map[], true);
    var s1 := Apply(s, Begin(a));
    var s2 := Apply(s1, StartOpen(a));
    var s3 := Apply(s2, OpenAnswers(a, Refused));
    var s4 := Apply(s3, EnterGate(a));
    var s5 := Apply(s4, EnsureAnswers(a, true));
    end := Apply(s5, OpenAnswers(a, Connected));
    assert end.calls[a].log == [Open(Refused), Ensure(true), Open(Connected)];
    assert end.calls == map[a := Call(Done(true), [Open(Refused), Ensure(true), Open(Connected)])];
    assert end.rebuilds == end.session == end.deaths == 0 && end.gate == None;
    Nothing(end);
    hide Leads, Apply, Enabled;
    steps := Precede(s5, OpenAnswers(a, Connected), end, []);
    steps := Precede(s4, EnsureAnswers(a, true), end, steps);
    steps := Precede(s3, EnterGate(a), end, steps);
    steps := Precede(s2, OpenAnswers(a, Refused), end, steps);
    steps := Precede(s1, StartOpen(a), end, steps);
    steps := Precede(s, Begin(a), end, steps);
  }
}
