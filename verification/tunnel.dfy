/**
  Recovery of the tunnel to a remote Host (`TunnelConnector` in src/remote_host.rs).

  Any number of callers share one gate and one counter of rebuilt sessions. The SSH sessions of the link
  are numbered; a session may die at any moment, and an `open` fails with `SessionFailed` only on a
  session that is dead.
 */
module Tunnel {
  import opened Wrappers

  type CallerId = nat

  datatype OpenResult = Connected | Refused | SessionFailed

  /** What a call asked of the link, with the answer it got. */
  datatype Op = Open(result: OpenResult) | Rebuild(rebuilt: bool) | Ensure(started: bool)

  /**
    Where a call stands. `seen` is the counter as it was loaded before the first open; `on` is the number of the
    session that an open or a rebuild is about.
   */
  datatype Phase =
    | Loaded(seen: nat)
    | Opening(seen: nat, on: nat)
    | AtGate(failure: OpenResult, seen: nat, on: nat)
    | Reopening(on: nat)
    | Rebuilding(on: nat)
    | Counting
    | OpeningRebuilt(on: nat)
    | Ensuring
    | OpeningStarted(on: nat)
    | Done(connected: bool)

  datatype Call = Call(phase: Phase, log: seq<Op>)

  datatype State = State(
    rebuilds: nat,
    gate: Option<CallerId>,
    calls: map<CallerId, Call>,
    session: nat,
    alive: bool,
    deaths: nat)

  datatype Step =
    | Dies
    | Begin(id: CallerId)
    | StartOpen(id: CallerId)
    | OpenAnswers(id: CallerId, result: OpenResult)
    | EnterGate(id: CallerId)
    | RebuildAnswers(id: CallerId, ok: bool)
    | Count(id: CallerId)
    | EnsureAnswers(id: CallerId, ok: bool)

  predicate IsOpening(phase: Phase) {
    phase.Opening? || phase.Reopening? || phase.OpeningRebuilt? || phase.OpeningStarted?
  }

  predicate HoldsGate(phase: Phase) {
    !phase.Loaded? && !phase.Opening? && !phase.AtGate? && !phase.Done?
  }

  predicate Dead(s: State, session: nat) {
    session < s.session || (session == s.session && !s.alive)
  }

  /** What a call does with the answer to its open. */
  function OnOpen(phase: Phase, result: OpenResult): Phase
    requires IsOpening(phase)
  {
    if result == Connected then Done(true)
    else match phase
      case Opening(seen, on) => AtGate(result, seen, on)
      case Reopening(on) => if result == Refused then Ensuring else Rebuilding(on)
      case OpeningRebuilt(on) => if result == Refused then Ensuring else Done(false)
      case _ => Done(false)
  }

  /** The first decision under the gate: a counter that moved means someone else rebuilt the session. */
  function OnGate(phase: Phase, rebuilds: nat, session: nat): Phase
    requires phase.AtGate?
  {
    if phase.failure == Refused then Ensuring
    else if rebuilds != phase.seen then Reopening(session)
    else Rebuilding(phase.on)
  }

  ghost predicate Enabled(s: State, step: Step) {
    match step
    case Dies => s.alive
    case Begin(id) => id !in s.calls
    case StartOpen(id) => id in s.calls && s.calls[id].phase.Loaded?
    case OpenAnswers(id, result) =>
      && id in s.calls && IsOpening(s.calls[id].phase)
      && (result == SessionFailed ==> Dead(s, s.calls[id].phase.on))
    case EnterGate(id) => id in s.calls && s.calls[id].phase.AtGate? && s.gate == None
    case RebuildAnswers(id, ok) => id in s.calls && s.calls[id].phase.Rebuilding?
    case Count(id) => id in s.calls && s.calls[id].phase.Counting?
    case EnsureAnswers(id, ok) => id in s.calls && s.calls[id].phase.Ensuring?
  }

  /** Moves one call on; the gate is released when the call ends while holding it. */
  function Move(s: State, id: CallerId, phase: Phase, log: seq<Op>): State
    requires id in s.calls
  {
    s.(calls := s.calls[id := Call(phase, log)],
       gate := if HoldsGate(phase) then Some(id) else if s.gate == Some(id) then None else s.gate)
  }

  function Apply(s: State, step: Step): State
    requires Enabled(s, step)
  {
    match step
    case Dies => s.(alive := false, deaths := s.deaths + 1)
    case Begin(id) => s.(calls := s.calls[id := Call(Loaded(s.rebuilds), [])])
    case StartOpen(id) => Move(s, id, Opening(s.calls[id].phase.seen, s.session), s.calls[id].log)
    case OpenAnswers(id, result) =>
      Move(s, id, OnOpen(s.calls[id].phase, result), s.calls[id].log + [Open(result)])
    case EnterGate(id) => Move(s, id, OnGate(s.calls[id].phase, s.rebuilds, s.session), s.calls[id].log)
    case RebuildAnswers(id, ok) =>
      var log := s.calls[id].log + [Rebuild(ok)];
      if ok then Move(s, id, Counting, log).(session := s.session + 1, alive := true)
      else Move(s, id, Done(false), log)
    case Count(id) => Move(s, id, OpeningRebuilt(s.session), s.calls[id].log).(rebuilds := s.rebuilds + 1)
    case EnsureAnswers(id, ok) =>
      Move(s, id, if ok then OpeningStarted(s.session) else Done(false), s.calls[id].log + [Ensure(ok)])
  }

  ghost predicate Init(s: State) {
    s.rebuilds == 0 && s.gate == None && s.calls == map[] && s.session == 0 && s.alive && s.deaths == 0
  }

  // ---- One call ----

  predicate BeforeRebuild(log: seq<Op>) {
    log == [Open(SessionFailed)] || log == [Open(SessionFailed), Open(SessionFailed)]
  }

  predicate AfterRebuild(log: seq<Op>) {
    |log| > 0 && log[|log| - 1] == Rebuild(true) && BeforeRebuild(log[..|log| - 1])
  }

  predicate BeforeEnsure(log: seq<Op>) {
    && |log| > 0 && log[|log| - 1] == Open(Refused)
    && var rest := log[..|log| - 1]; rest == [] || rest == [Open(SessionFailed)] || AfterRebuild(rest)
  }

  predicate AfterEnsure(log: seq<Op>) {
    |log| > 0 && log[|log| - 1] == Ensure(true) && BeforeEnsure(log[..|log| - 1])
  }

  /** What a call has asked of the link by the time it stands at `phase`. */
  predicate LogFits(phase: Phase, log: seq<Op>) {
    match phase
    case Loaded(_) => log == []
    case Opening(_, _) => log == []
    case AtGate(failure, _, _) => failure != Connected && log == [Open(failure)]
    case Reopening(_) => log == [Open(SessionFailed)]
    case Rebuilding(_) => BeforeRebuild(log)
    case Counting => AfterRebuild(log)
    case OpeningRebuilt(_) => AfterRebuild(log)
    case Ensuring => BeforeEnsure(log)
    case OpeningStarted(_) => AfterEnsure(log)
    case Done(connected) => Finished(log) && (connected <==> log[|log| - 1] == Open(Connected))
  }

  /** The calls that can end: what precedes the last operation allows that operation. */
  predicate Finished(log: seq<Op>) {
    && |log| > 0
    && var rest, last := log[..|log| - 1], log[|log| - 1];
       match last
       case Open(result) =>
         if result == Connected then
           rest == [] || rest == [Open(SessionFailed)] || AfterRebuild(rest) || AfterEnsure(rest)
         else if result == SessionFailed then AfterRebuild(rest) || AfterEnsure(rest)
         else AfterEnsure(rest)
       case Rebuild(rebuilt) => !rebuilt && BeforeRebuild(rest)
       case Ensure(started) => !started && BeforeEnsure(rest)
  }

  function CountOpens(log: seq<Op>): nat {
    if log == [] then 0 else CountOpens(log[..|log| - 1]) + if log[|log| - 1].Open? then 1 else 0
  }

  function CountRebuilds(log: seq<Op>): nat {
    if log == [] then 0 else CountRebuilds(log[..|log| - 1]) + if log[|log| - 1].Rebuild? then 1 else 0
  }

  function CountEnsures(log: seq<Op>): nat {
    if log == [] then 0 else CountEnsures(log[..|log| - 1]) + if log[|log| - 1].Ensure? then 1 else 0
  }

  datatype Kind = Opened | Rebuilt | Ensured

  function Kinds(log: seq<Op>): seq<Kind> {
    seq(|log|, i requires 0 <= i < |log| =>
      match log[i] case Open(_) => Opened case Rebuild(_) => Rebuilt case Ensure(_) => Ensured)
  }

  /** What is counted is how often a call asked for each. */
  lemma {:induction false} CountsAreMultiplicities(log: seq<Op>)
    ensures multiset(Kinds(log))[Opened] == CountOpens(log)
    ensures multiset(Kinds(log))[Rebuilt] == CountRebuilds(log)
    ensures multiset(Kinds(log))[Ensured] == CountEnsures(log)
  {
    if log != [] {
      var front := log[..|log| - 1];
      CountsAreMultiplicities(front);
      assert Kinds(log) == Kinds(front) + [Kinds(log)[|log| - 1]];
    }
  }

  /** The session is rebuilt only right after it failed, the Server started only right after a refusal. */
  predicate Prompted(log: seq<Op>) {
    forall i :: 0 <= i < |log| ==> PromptedAt(log, i)
  }

  predicate PromptedAt(log: seq<Op>, i: nat)
    requires i < |log|
  {
    && (log[i].Rebuild? ==> i > 0 && log[i - 1] == Open(SessionFailed))
    && (log[i].Ensure? ==> i > 0 && log[i - 1] == Open(Refused))
  }

  predicate WithinBudget(log: seq<Op>) {
    CountOpens(log) <= 4 && CountRebuilds(log) <= 1 && CountEnsures(log) <= 1
  }

  // ---- What every step keeps ----

  ghost predicate SessionsInv(s: State) {
    && s.deaths == s.session + (if s.alive then 0 else 1)
    && s.session == s.rebuilds
      + (if s.gate.Some? && s.gate.value in s.calls && s.calls[s.gate.value].phase.Counting? then 1 else 0)
  }

  ghost predicate CallInv(s: State, id: CallerId)
    requires id in s.calls
  {
    var phase := s.calls[id].phase;
    && (HoldsGate(phase) <==> s.gate == Some(id))
    && match phase
       case Loaded(seen) => seen <= s.rebuilds
       case Opening(seen, on) => seen <= on <= s.session && seen <= s.rebuilds
       case AtGate(failure, seen, on) =>
         seen <= on <= s.session && seen <= s.rebuilds && (failure == SessionFailed ==> Dead(s, on))
       case Reopening(on) => on == s.session
       case Rebuilding(on) => on == s.session && !s.alive
       case OpeningRebuilt(on) => on == s.session
       case OpeningStarted(on) => on == s.session
       case _ => true
  }

  ghost predicate Inv(s: State) {
    && SessionsInv(s)
    && (s.gate.Some? ==> s.gate.value in s.calls)
    && (forall id :: id in s.calls ==> CallInv(s, id))
    && (forall id :: id in s.calls ==> s.calls[id].phase.AtGate? ==> s.calls[id].phase.failure != Connected)
  }

  ghost predicate LogsInv(s: State) {
    forall id :: id in s.calls ==> LogFits(s.calls[id].phase, s.calls[id].log)
  }

  lemma ControlKept(s: State, step: Step)
    requires Inv(s) && Enabled(s, step)
    ensures Inv(Apply(s, step))
  {
    var s' := Apply(s, step);
    forall id | id in s'.calls ensures CallInv(s', id) {
      CallKept(s, step, id);
    }
    SessionsKept(s, step);
  }

  lemma SessionsKept(s: State, step: Step)
    requires Inv(s) && Enabled(s, step)
    ensures var s' := Apply(s, step);
            && SessionsInv(s') && (s'.gate.Some? ==> s'.gate.value in s'.calls)
            && forall id :: id in s'.calls && s'.calls[id].phase.AtGate? ==> s'.calls[id].phase.failure != Connected
  {
    if s.gate.Some? { assert CallInv(s, s.gate.value); }
    if !step.Dies? && !step.Begin? { assert CallInv(s, step.id); }
  }

  /** The steps of the sessions themselves, and those before the gate. */
  lemma EarlyStepKeepsCall(s: State, step: Step, id: CallerId)
    requires Inv(s) && Enabled(s, step) && id in Apply(s, step).calls
    requires step.Dies? || step.Begin? || step.StartOpen?
    ensures CallInv(Apply(s, step), id)
  {
    if id in s.calls { assert CallInv(s, id); }
  }

  lemma OpenAnswerKeepsCall(s: State, step: Step, id: CallerId)
    requires Inv(s) && Enabled(s, step) && step.OpenAnswers? && id in s.calls
    ensures CallInv(Apply(s, step), id)
  {
    assert CallInv(s, id) && CallInv(s, step.id);
  }

  lemma GateKeepsCall(s: State, step: Step, id: CallerId)
    requires Inv(s) && Enabled(s, step) && step.EnterGate? && id in s.calls
    ensures CallInv(Apply(s, step), id)
  {
    assert CallInv(s, id) && CallInv(s, step.id);
  }

  lemma RecoveryKeepsCall(s: State, step: Step, id: CallerId)
    requires Inv(s) && Enabled(s, step) && id in s.calls
    requires step.RebuildAnswers? || step.Count? || step.EnsureAnswers?
    ensures CallInv(Apply(s, step), id)
  {
    assert CallInv(s, id) && CallInv(s, step.id);
  }

  lemma CallKept(s: State, step: Step, id: CallerId)
    requires Inv(s) && Enabled(s, step) && id in Apply(s, step).calls
    ensures CallInv(Apply(s, step), id)
  {
    hide Inv, CallInv;
    if step.Dies? || step.Begin? || step.StartOpen? {
      EarlyStepKeepsCall(s, step, id);
    } else if step.OpenAnswers? {
      OpenAnswerKeepsCall(s, step, id);
    } else if step.EnterGate? {
      GateKeepsCall(s, step, id);
    } else {
      RecoveryKeepsCall(s, step, id);
    }
  }

  lemma OpenFits(phase: Phase, log: seq<Op>, result: OpenResult)
    requires IsOpening(phase) && LogFits(phase, log)
    ensures LogFits(OnOpen(phase, result), log + [Open(result)])
  {
    var longer := log + [Open(result)];
    assert longer[..|longer| - 1] == log && longer[|longer| - 1] == Open(result);
  }

  lemma GateFits(phase: Phase, log: seq<Op>, rebuilds: nat, session: nat)
    requires phase.AtGate? && LogFits(phase, log)
    ensures LogFits(OnGate(phase, rebuilds, session), log)
  {
    assert log[..|log| - 1] == [];
  }

  lemma RebuildFits(phase: Phase, log: seq<Op>, ok: bool)
    requires phase.Rebuilding? && LogFits(phase, log)
    ensures LogFits(if ok then Counting else Done(false), log + [Rebuild(ok)])
  {
    var longer := log + [Rebuild(ok)];
    assert longer[..|longer| - 1] == log && longer[|longer| - 1] == Rebuild(ok);
  }

  lemma EnsureFits(phase: Phase, log: seq<Op>, ok: bool, session: nat)
    requires phase.Ensuring? && LogFits(phase, log)
    ensures LogFits(if ok then OpeningStarted(session) else Done(false), log + [Ensure(ok)])
  {
    var longer := log + [Ensure(ok)];
    assert longer[..|longer| - 1] == log && longer[|longer| - 1] == Ensure(ok);
  }

  lemma LogsKept(s: State, step: Step)
    requires LogsInv(s) && Enabled(s, step)
    ensures LogsInv(Apply(s, step))
  {
    match step {
      case Dies =>
      case Begin(id) =>
      case StartOpen(id) =>
      case OpenAnswers(id, result) => OpenFits(s.calls[id].phase, s.calls[id].log, result);
      case EnterGate(id) => GateFits(s.calls[id].phase, s.calls[id].log, s.rebuilds, s.session);
      case RebuildAnswers(id, ok) => RebuildFits(s.calls[id].phase, s.calls[id].log, ok);
      case Count(id) =>
      case EnsureAnswers(id, ok) => EnsureFits(s.calls[id].phase, s.calls[id].log, ok, s.session);
    }
  }

  // ---- Whole runs ----

  ghost predicate ValidRun(s: State, steps: seq<Step>)
    decreases |steps|
  {
    steps == [] || (Enabled(s, steps[0]) && ValidRun(Apply(s, steps[0]), steps[1..]))
  }

  function End(s: State, steps: seq<Step>): State
    requires ValidRun(s, steps)
    decreases |steps|
  {
    if steps == [] then s else End(Apply(s, steps[0]), steps[1..])
  }

  lemma {:induction false} RunKeeps(s: State, steps: seq<Step>)
    requires ValidRun(s, steps) && Inv(s) && LogsInv(s)
    ensures Inv(End(s, steps)) && LogsInv(End(s, steps))
    decreases |steps|
  {
    if steps != [] {
      ControlKept(s, steps[0]);
      LogsKept(s, steps[0]);
      RunKeeps(Apply(s, steps[0]), steps[1..]);
    }
  }

  /** Rebuilds of sessions never outnumber deaths of sessions. */
  lemma RebuildsAtMostDeaths(s: State, steps: seq<Step>)
    requires Init(s) && ValidRun(s, steps)
    ensures End(s, steps).rebuilds <= End(s, steps).session <= End(s, steps).deaths
  {
    RunKeeps(s, steps);
  }

  /** A rebuild only ever replaces a dead session, one on which this very caller saw an open fail. */
  lemma RebuildReplacesDeadSession(s: State, steps: seq<Step>, id: CallerId)
    requires Init(s) && ValidRun(s, steps)
    requires id in End(s, steps).calls && End(s, steps).calls[id].phase.Rebuilding?
    ensures var end := End(s, steps);
            && end.calls[id].phase.on == end.session && !end.alive
            && BeforeRebuild(end.calls[id].log)
  {
    RunKeeps(s, steps);
    assert CallInv(End(s, steps), id);
  }

  /** At most one call at a time is rebuilding the session or starting the Server. */
  lemma RecoveryNeverOverlaps(s: State, steps: seq<Step>, a: CallerId, b: CallerId)
    requires Init(s) && ValidRun(s, steps)
    requires a in End(s, steps).calls && HoldsGate(End(s, steps).calls[a].phase)
    requires b in End(s, steps).calls && HoldsGate(End(s, steps).calls[b].phase)
    ensures a == b
  {
    RunKeeps(s, steps);
    assert CallInv(End(s, steps), a) && CallInv(End(s, steps), b);
  }

  /** Every call, finished or not, keeps to its budget and recovers only when prompted. */
  lemma EveryCallIsBounded(s: State, steps: seq<Step>, id: CallerId)
    requires Init(s) && ValidRun(s, steps) && id in End(s, steps).calls
    ensures WithinBudget(End(s, steps).calls[id].log) && Prompted(End(s, steps).calls[id].log)
  {
    RunKeeps(s, steps);
    FittingLogsAreBounded(End(s, steps).calls[id].phase, End(s, steps).calls[id].log);
  }

  lemma BeforeRebuildBounded(log: seq<Op>)
    requires BeforeRebuild(log)
    ensures CountOpens(log) == |log| <= 2 && CountRebuilds(log) == 0 && CountEnsures(log) == 0
    ensures Prompted(log) && log[|log| - 1] == Open(SessionFailed)
  {
    assert log[..|log| - 1] == [] || (log[..|log| - 1] == [Open(SessionFailed)] && log[..|log| - 1][..0] == []);
  }

  lemma AfterRebuildBounded(log: seq<Op>)
    requires AfterRebuild(log)
    ensures CountOpens(log) <= 2 && CountRebuilds(log) == 1 && CountEnsures(log) == 0
    ensures Prompted(log)
  {
    BeforeRebuildBounded(log[..|log| - 1]);
    PromptedSnoc(log);
  }

  lemma PromptedSnoc(log: seq<Op>)
    requires |log| > 0 && Prompted(log[..|log| - 1])
    requires PromptedAt(log, |log| - 1)
    ensures Prompted(log)
  {
    var rest := log[..|log| - 1];
    forall i | 0 <= i < |log| ensures PromptedAt(log, i) {
      if i < |rest| { assert PromptedAt(rest, i); }
    }
  }

  lemma BeforeEnsureBounded(log: seq<Op>)
    requires BeforeEnsure(log)
    ensures CountOpens(log) <= 3 && CountRebuilds(log) <= 1 && CountEnsures(log) == 0
    ensures Prompted(log)
  {
    var rest := log[..|log| - 1];
    if AfterRebuild(rest) {
      AfterRebuildBounded(rest);
    } else if rest != [] {
      BeforeRebuildBounded(rest);
    }
    PromptedSnoc(log);
  }

  lemma AfterEnsureBounded(log: seq<Op>)
    requires AfterEnsure(log)
    ensures CountOpens(log) <= 3 && CountRebuilds(log) <= 1 && CountEnsures(log) == 1
    ensures Prompted(log)
  {
    BeforeEnsureBounded(log[..|log| - 1]);
    PromptedSnoc(log);
  }

  lemma FinishedBounded(log: seq<Op>)
    requires Finished(log)
    ensures WithinBudget(log) && Prompted(log)
  {
    var rest := log[..|log| - 1];
    if AfterRebuild(rest) {
      AfterRebuildBounded(rest);
    } else if AfterEnsure(rest) {
      AfterEnsureBounded(rest);
    } else if BeforeEnsure(rest) {
      BeforeEnsureBounded(rest);
    } else if rest != [] {
      BeforeRebuildBounded(rest);
    }
    PromptedSnoc(log);
  }

  lemma FittingLogsAreBounded(phase: Phase, log: seq<Op>)
    requires LogFits(phase, log)
    ensures WithinBudget(log) && Prompted(log)
  {
    match phase {
      case Loaded(_) =>
      case Opening(_, _) =>
      case AtGate(_, _, _) => assert log[..0] == [];
      case Reopening(_) => BeforeRebuildBounded(log);
      case Rebuilding(_) => BeforeRebuildBounded(log);
      case Counting => AfterRebuildBounded(log);
      case OpeningRebuilt(_) => AfterRebuildBounded(log);
      case Ensuring => BeforeEnsureBounded(log);
      case OpeningStarted(_) => AfterEnsureBounded(log);
      case Done(_) => FinishedBounded(log);
    }
  }

  // ---- The straight-line code of one call ----

  /** A link with arbitrary answers that remembers what it was asked. */
  class Link {
    var log: seq<Op>

    method Open() returns (result: OpenResult)
      modifies this
      ensures log == old(log) + [Op.Open(result)]
    {
      result := *;
      log := log + [Op.Open(result)];
    }

    method Rebuild() returns (ok: bool)
      modifies this
      ensures log == old(log) + [Op.Rebuild(ok)]
    {
      ok := *;
      log := log + [Op.Rebuild(ok)];
    }

    method EnsureServer() returns (ok: bool)
      modifies this
      ensures log == old(log) + [Op.Ensure(ok)]
    {
      ok := *;
      log := log + [Op.Ensure(ok)];
    }
  }

  class TunnelConnector {
    const link: Link
    var rebuilds: nat

    constructor (link: Link)
      ensures this.link == link && rebuilds == 0
    {
      this.link := link;
      rebuilds := 0;
    }

    /** `counted` is how many rebuilds other calls counted between this call's load and its turn at the gate. */
    method ConnectTunnel(counted: nat) returns (connected: bool, asked: seq<Op>)
      modifies this, link
      ensures link.log == old(link.log) + asked
      ensures LogFits(Done(connected), asked)
      ensures asked[0] == Open(Refused) ==> |asked| > 1 && asked[1].Ensure?
      ensures asked[0] == Open(SessionFailed) ==>
              |asked| > 1 && if counted > 0 then asked[1].Open? else asked[1].Rebuild?
      ensures asked[0] == Open(Connected) ==> |asked| == 1
      ensures rebuilds == old(rebuilds) + (if asked[0] == Open(Connected) then 0 else counted)
          + (if Rebuild(true) in asked then 1 else 0)
    {
      hide LogFits, BeforeRebuild, BeforeEnsure;
      var seen := rebuilds;
      var first := link.Open();
      FirstAnswer(first);
      asked := [Op.Open(first)];
      if first == Connected {
        return true, asked;
      }
      rebuilds := rebuilds + counted;
      var rest;
      if first == Refused {
        connected, rest := StartServerAndOpen(asked);
        return connected, asked + rest;
      }
      if rebuilds == seen {
        connected, rest := RebuildAndOpen(asked);
        return connected, asked + rest;
      }
      var again := link.Open();
      SecondAnswer(again);
      asked := [Op.Open(first), Op.Open(again)];
      if again == Connected {
        return true, asked;
      }
      if again == Refused {
        connected, rest := StartServerAndOpen(asked);
      } else {
        connected, rest := RebuildAndOpen(asked);
      }
      return connected, asked + rest;
    }

    method RebuildAndOpen(before: seq<Op>) returns (connected: bool, asked: seq<Op>)
      requires BeforeRebuild(before)
      modifies this, link
      ensures link.log == old(link.log) + asked
      ensures LogFits(Done(connected), before + asked)
      ensures asked != [] && asked[0].Rebuild? && Rebuild(true) !in asked[1..]
      ensures rebuilds == old(rebuilds) + if asked[0] == Rebuild(true) then 1 else 0
    {
      hide LogFits, BeforeRebuild, AfterRebuild, BeforeEnsure;
      var ok := link.Rebuild();
      RebuildAnswered(before, ok);
      asked := [Op.Rebuild(ok)];
      if !ok {
        return false, asked;
      }
      rebuilds := rebuilds + 1;
      var last := link.Open();
      RebuiltOpened(before + asked, last);
      assert before + asked + [Op.Open(last)] == before + (asked + [Op.Open(last)]);
      asked := asked + [Op.Open(last)];
      if last == Refused {
        var rest;
        connected, rest := StartServerAndOpen(before + asked);
        assert before + asked + rest == before + (asked + rest);
        return connected, asked + rest;
      }
      return last == Connected, asked;
    }

    method StartServerAndOpen(before: seq<Op>) returns (connected: bool, asked: seq<Op>)
      requires BeforeEnsure(before)
      modifies link
      ensures link.log == old(link.log) + asked
      ensures LogFits(Done(connected), before + asked)
      ensures asked != [] && asked[0].Ensure? && Op.Rebuild(true) !in asked
    {
      var ok := link.EnsureServer();
      asked := [Ensure(ok)];
      GrowsBy(before, Ensure(ok));
      if !ok {
        return false, asked;
      }
      var last := link.Open();
      GrowsBy(before + asked, Open(last));
      assert before + asked + [Op.Open(last)] == before + (asked + [Op.Open(last)]);
      return last == Connected, asked + [Op.Open(last)];
    }
  }

  lemma RebuildAnswered(before: seq<Op>, ok: bool)
    requires BeforeRebuild(before)
    ensures if ok then AfterRebuild(before + [Rebuild(ok)]) else LogFits(Done(false), before + [Rebuild(ok)])
  {
    GrowsBy(before, Rebuild(ok));
  }

  lemma RebuiltOpened(before: seq<Op>, result: OpenResult)
    requires AfterRebuild(before)
    ensures match result
            case Connected => LogFits(Done(true), before + [Open(result)])
            case Refused => BeforeEnsure(before + [Open(result)])
            case SessionFailed => LogFits(Done(false), before + [Open(result)])
  {
    GrowsBy(before, Open(result));
  }

  lemma FirstAnswer(result: OpenResult)
    ensures match result
            case Connected => LogFits(Done(true), [Open(result)])
            case Refused => BeforeEnsure([Open(result)])
            case SessionFailed => BeforeRebuild([Open(result)])
  {
    GrowsBy([], Open(result));
  }

  lemma SecondAnswer(result: OpenResult)
    ensures var log := [Open(SessionFailed), Open(result)];
            match result
            case Connected => LogFits(Done(true), log)
            case Refused => BeforeEnsure(log)
            case SessionFailed => BeforeRebuild(log)
  {
    GrowsBy([Open(SessionFailed)], Open(result));
    assert [Open(SessionFailed)] + [Open(result)] == [Open(SessionFailed), Open(result)];
  }

  lemma GrowsBy(log: seq<Op>, op: Op)
    ensures (log + [op])[..|log|] == log && (log + [op])[|log|] == op
  {
  }
}
