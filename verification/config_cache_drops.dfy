/**
  Reading your own writes after a drop of the remote configuration cache (src/host_storage.rs): exactly which
  refreshes may still be in flight when an entry is dropped. The whole discipline of
  config_cache_protocol.dfy, with its single flight, survives only when there is none.
 */
module ConfigCacheDrops {
  import opened Wrappers
  import opened ConfigCache
  import opened ConfigCacheProtocol

  ghost predicate NotOlder(flight: Flight, version: nat) {
    flight.answer.Answered? ==> version <= flight.answer.doc.version
  }

  /**
    A refresh in flight that a drop may leave behind: it failed; or nothing can be cached before another drop; or
    it has the first generation, was not answered with something older than what was written, and the next entry
    comes from an answer to a request made before: a rename forgets the revision with which a write could begin.
   */
  ghost predicate Survives(s: State, step: Step, path: Path, flight: Flight) {
    || flight.answer.Failed?
    || (step.DropDirectory? && RenameCovers(s, path))
    || (flight.generation == 0 && NotOlder(flight, Floor(s, path)) && (step.FinishRename? || AboutToRecord(s, path)))
  }

  // ---- What survives keeps the promise ----

  /** No write or removal of `path` can be made before an answer about it is recorded. */
  ghost predicate Spared(s: State, path: Path) {
    || AboutToRecord(s, path)
    || (path !in s.client.revisions
      && !((s.task.WriteReady? || s.task.WriteSent? || s.task.RemoveSent?) && s.task.path == path))
  }

  ghost predicate Harmless(s: State, path: Path, flight: Flight) {
    || flight.answer.Failed?
    || (if path in s.client.cache then
          var generation := s.client.cache[path].generation;
          || flight.generation < generation
          || (flight.generation == generation && NotOlder(flight, Returned(s, path)))
        else
          || RenameCovers(s, path)
          || (flight.generation == 0 && NotOlder(flight, Floor(s, path)) && Spared(s, path)))
  }

  ghost predicate AllHarmless(s: State, path: Path) {
    forall i :: 0 <= i < |s.flights| && s.flights[i].path == path ==>
      s.client.remote && Harmless(s, path, s.flights[i])
  }

  ghost predicate AnswersHeld(s: State, path: Path) {
    forall i :: 0 <= i < |s.flights| && s.flights[i].path == path && s.flights[i].answer.Answered? ==>
      Held(s.host, path, s.flights[i].answer.doc)
  }

  /** A cached path has a known revision. */
  ghost predicate Known(s: State, path: Path) {
    path in s.client.cache ==> path in s.client.revisions
  }

  ghost predicate Promise(s: State, path: Path) {
    Returned(s, path) < |HistoryAt(s.host, path)| && EntryInv(s, path) && TaskInv(s, path)
  }

  ghost predicate Safe(s: State, path: Path) {
    Promise(s, path) && AllHarmless(s, path) && AnswersHeld(s, path)
  }

  lemma StaysHeld(host: Host, after: Host, path: Path, doc: Doc)
    requires Extends(host, after) && Held(host, path, doc)
    ensures Held(after, path, doc)
  {
    hide HistoryAt;
    assert HistoryAt(host, path) <= HistoryAt(after, path);
  }

  lemma HostStepSafe(s: State, step: Step, path: Path)
    requires HostStep(step) && Enabled(s, step) && Safe(s, path)
    ensures Safe(Apply(s, step), path)
  {
    var s' := Apply(s, step);
    HostStepExtends(s, step, path);
    HostStepPromises(s, s', path);
    forall i | 0 <= i < |s.flights| && s.flights[i].path == path
      ensures s'.client.remote && Harmless(s', path, s'.flights[i])
    {
      HostStepHarmless(s, step, path, s.flights[i]);
    }
    hide Apply, Enabled, Harmless, Promise, TaskInv, HostStep;
    forall i | 0 <= i < |s.flights| && s.flights[i].path == path && s.flights[i].answer.Answered?
      ensures Held(s'.host, path, s.flights[i].answer.doc)
    {
      StaysHeld(s.host, s'.host, path, s.flights[i].answer.doc);
    }
  }

  lemma HostStepPromises(s: State, s': State, path: Path)
    requires Promise(s, path) && Extends(s.host, s'.host) && TaskInv(s', path)
    requires s'.client == s.client && s'.returned == s.returned
    ensures Promise(s', path)
  {
    hide HistoryAt, TaskInv;
    assert HistoryAt(s.host, path) <= HistoryAt(s'.host, path);
  }

  lemma HostStepHarmless(s: State, step: Step, path: Path, flight: Flight)
    requires HostStep(step) && Enabled(s, step) && TaskInv(s, path) && Harmless(s, path, flight)
    ensures Harmless(Apply(s, step), path, flight)
  {
    hide HistoryAt, Extends, Put, TaskInv, Held;
  }

  lemma DirectStepSafe(s: State, step: Step, path: Path)
    requires step.FinishRead? || step.FinishWrite? || step.FinishRemove?
    requires Enabled(s, step) && Safe(s, path)
    ensures Safe(Apply(s, step), path)
  {
    var s' := Apply(s, step);
    DirectStepPromises(s, step, path);
    forall i | 0 <= i < |s.flights| && s.flights[i].path == path
      ensures s'.client.remote && Harmless(s', path, s'.flights[i])
    {
      DirectStepHarmless(s, step, path, s.flights[i]);
    }
    assert s'.flights == s.flights && s'.host == s.host;
    hide Apply, Enabled, Harmless, Promise;
  }

  lemma DirectStepPromises(s: State, step: Step, path: Path)
    requires step.FinishRead? || step.FinishWrite? || step.FinishRemove?
    requires Enabled(s, step) && Promise(s, path)
    ensures Promise(Apply(s, step), path)
  {
  }

  lemma DirectStepHarmless(s: State, step: Step, path: Path, flight: Flight)
    requires step.FinishRead? || step.FinishWrite? || step.FinishRemove?
    requires Enabled(s, step) && Promise(s, path) && s.client.remote && Harmless(s, path, flight)
    ensures Harmless(Apply(s, step), path, flight) && Apply(s, step).client.remote
  {
    hide HistoryAt;
  }

  lemma LaunchStepSafe(s: State, step: Step, path: Path)
    requires step.HitCache? || step.Notify?
    requires Enabled(s, step) && Safe(s, path)
    ensures Safe(Apply(s, step), path)
  {
    hide HistoryAt, Held;
    var s' := Apply(s, step);
    assert Promise(s', path);
    forall i | 0 <= i < |s'.flights| && s'.flights[i].path == path
      ensures s'.client.remote && Harmless(s', path, s'.flights[i])
      ensures s'.flights[i].answer.Answered? ==> i < |s.flights| && s'.flights[i] == s.flights[i]
    {
      if i < |s.flights| { assert Harmless(s, path, s.flights[i]); }
    }
    assert s'.host == s.host;
    hide Harmless, Promise, Apply;
  }

  lemma AnswerSafe(s: State, index: nat, succeeds: bool, path: Path)
    requires Enabled(s, AnswerRefresh(index, succeeds)) && Safe(s, path)
    ensures Safe(Apply(s, AnswerRefresh(index, succeeds)), path)
  {
    var s' := Apply(s, AnswerRefresh(index, succeeds));
    assert Promise(s', path);
    forall i | 0 <= i < |s.flights| && s'.flights[i].path == path
      ensures s'.client.remote && Harmless(s', path, s'.flights[i])
      ensures s'.flights[i].answer.Answered? ==> Held(s'.host, path, s'.flights[i].answer.doc)
    {
      assert Harmless(s, path, s.flights[i]);
    }
    assert |s'.flights| == |s.flights|;
    hide Harmless, Promise, Apply, Held;
  }

  lemma CompleteSafe(s: State, index: nat, path: Path)
    requires Enabled(s, CompleteRefresh(index)) && Safe(s, path)
    ensures Safe(Apply(s, CompleteRefresh(index)), path)
  {
    var s' := Apply(s, CompleteRefresh(index));
    var flight := s.flights[index];
    if flight.path == path {
      assert Harmless(s, path, flight);
    }
    CompletePromises(s, index, path);
    forall i | 0 <= i < |s'.flights| ensures s'.flights[i] == s.flights[Skip(i, index)] {}
    forall i | 0 <= i < |s'.flights| && s'.flights[i].path == path
      ensures s'.client.remote && Harmless(s', path, s'.flights[i])
    {
      CompleteHarmless(s, index, path, s'.flights[i]);
    }
    assert s'.host == s.host && |s.flights| == |s'.flights| + 1;
    hide Harmless, Promise, Apply, Held;
  }

  lemma CompleteHarmless(s: State, index: nat, path: Path, flight: Flight)
    requires Enabled(s, CompleteRefresh(index)) && s.client.remote && Harmless(s, path, flight)
    ensures Harmless(Apply(s, CompleteRefresh(index)), path, flight)
    ensures Apply(s, CompleteRefresh(index)).client.remote
  {
  }

  lemma CompletePromises(s: State, index: nat, path: Path)
    requires Enabled(s, CompleteRefresh(index)) && Promise(s, path) && AnswersHeld(s, path)
    requires s.flights[index].path == path ==> Harmless(s, path, s.flights[index])
    ensures Promise(Apply(s, CompleteRefresh(index)), path)
  {
    hide HistoryAt;
  }

  lemma DropStepSafe(s: State, step: Step, path: Path)
    requires step.DropDirectory? || step.FinishRename?
    requires Enabled(s, step) && Safe(s, path) && !DropsInFlight(s, step, path)
    ensures Safe(Apply(s, step), path)
  {
    var s' := Apply(s, step);
    assert Promise(s', path);
    forall i | 0 <= i < |s.flights| && s.flights[i].path == path
      ensures s'.client.remote && Harmless(s', path, s.flights[i])
    {
      assert Harmless(s, path, s.flights[i]);
    }
    assert s'.flights == s.flights && s'.host == s.host;
    hide Harmless, Promise, Apply, Held;
  }

  lemma StepSafe(s: State, step: Step, path: Path)
    requires Enabled(s, step) && Safe(s, path) && !DropsInFlight(s, step, path)
    ensures Safe(Apply(s, step), path)
  {
    hide Safe, Apply, Enabled, DropsInFlight;
    if step.FinishRead? || step.FinishWrite? || step.FinishRemove? {
      DirectStepSafe(s, step, path);
    } else if step.HitCache? || step.Notify? {
      LaunchStepSafe(s, step, path);
    } else if step.AnswerRefresh? {
      AnswerSafe(s, step.index, step.succeeds, path);
    } else if step.CompleteRefresh? {
      CompleteSafe(s, step.index, path);
    } else if step.DropDirectory? || step.FinishRename? {
      DropStepSafe(s, step, path);
    } else {
      HostStepSafe(s, step, path);
    }
  }

  lemma {:induction false} RunSafe(s: State, steps: seq<Step>, path: Path)
    requires ValidRun(s, steps) && CleanRun(s, steps, path) && Safe(s, path)
    ensures Safe(End(s, steps), path)
    decreases |steps|
  {
    hide Safe, Apply, Enabled, DropsInFlight;
    if steps != [] {
      StepSafe(s, steps[0], path);
      RunSafe(Apply(s, steps[0]), steps[1..], path);
    }
  }

  // ---- What does not survive can break it ----

  /**
    A write lands, at the next generation, whatever revision it is made with: other clients can bring back that
    document.
   */
  lemma WriteMadeToLand(s: State, path: Path) returns (steps: seq<Step>, end: State)
    requires s.task.Idle? && s.client.remote && path in s.client.revisions
    ensures Reaches(s, steps, path, end)
    ensures |HistoryAt(s.host, path)| <= Returned(end, path) && path in end.client.cache
    ensures end.client.cache[path].generation == NextGeneration(s.client.cache, path)
  {
    var known := BytesOf(ExpectedRevision(s.client, path));
    var after := Put(s.host, path, known);
    PutExtends(s.host, path, known);
    var moved := Apply(s, HostMoves(after));
    var begun := Apply(moved, BeginWrite(path, []));
    var sent := Apply(begun, SendWrite);
    var acked := Apply(sent, HostWrites);
    end := Apply(acked, FinishWrite);
    OneStep(s, HostMoves(after), path);
    OneStep(moved, BeginWrite(path, []), path);
    OneStep(begun, SendWrite, path);
    OneStep(sent, HostWrites, path);
    OneStep(acked, FinishWrite, path);
    assert |HistoryAt(s.host, path)| <= Returned(end, path) && path in end.client.cache
        && end.client.cache[path].generation == NextGeneration(s.client.cache, path);
    hide Apply, Enabled, Reaches, HistoryAt, Put, Returned, NextGeneration;
    ReachesTrans(s, [HostMoves(after)], moved, [BeginWrite(path, [])], begun, path);
    steps := [HostMoves(after)] + [BeginWrite(path, [])];
    ReachesTrans(s, steps, begun, [SendWrite], sent, path);
    ReachesTrans(s, steps + [SendWrite], sent, [HostWrites], acked, path);
    ReachesTrans(s, steps + [SendWrite] + [HostWrites], acked, [FinishWrite], end, path);
    steps := steps + [SendWrite] + [HostWrites] + [FinishWrite];
  }

  function BytesOf(revision: Option<Revision>): (bytes: Option<Bytes>)
    ensures RevisionOf(bytes) == revision
  {
    match revision
    case None => None
    case Some(r) => Some(r.content)
  }

  /** An answered refresh of the entry's generation that is older than what was written replaces the entry. */
  lemma OlderAnswerBreaks(s: State, path: Path, i: nat) returns (steps: seq<Step>)
    requires i < |s.flights| && s.flights[i].path == path && s.flights[i].answer.Answered?
    requires path in s.client.cache && s.client.cache[path].generation == s.flights[i].generation
    requires s.flights[i].answer.doc.version < Returned(s, path)
    ensures ValidRun(s, steps) && CleanRun(s, steps, path) && !EntryInv(End(s, steps), path)
  {
    CompletesStale(s, path, i);
    steps := [CompleteRefresh(i)];
    assert ValidRun(Apply(s, CompleteRefresh(i)), steps[1..]);
  }

  lemma BreaksLater(s: State, steps: seq<Step>, mid: State, path: Path, i: nat) returns (longer: seq<Step>)
    requires Reaches(s, steps, path, mid)
    requires i < |s.flights| && s.flights[i].path == path && s.flights[i].answer.Answered?
    requires path in mid.client.cache && mid.client.cache[path].generation == s.flights[i].generation
    requires s.flights[i].answer.doc.version < Returned(mid, path)
    ensures ValidRun(s, longer) && CleanRun(s, longer, path) && !EntryInv(End(s, longer), path)
  {
    var last := OlderAnswerBreaks(mid, path, i);
    hide EntryInv;
    CleanConcat(s, steps, last, path);
    RunConcat(s, steps, last);
    longer := steps + last;
  }

  /** `path` is not cached, and a refresh of it is in flight. */
  ghost predicate Left(s: State, path: Path, i: nat) {
    && path !in s.client.cache && s.client.remote && !RenameCovers(s, path)
    && i < |s.flights| && s.flights[i].path == path
  }

  ghost predicate LeftAnswered(s: State, path: Path, i: nat) {
    Left(s, path, i) && s.flights[i].answer.Answered? && Held(s.host, path, s.flights[i].answer.doc)
  }

  /** A later generation: reads bring the new entry to the one before, and a write follows. */
  lemma LaterGenerationBreaks(s: State, path: Path, i: nat) returns (steps: seq<Step>)
    requires LeftAnswered(s, path, i) && s.flights[i].generation >= 1
    ensures ValidRun(s, steps) && CleanRun(s, steps, path) && !EntryInv(End(s, steps), path)
  {
    var settle, idle := Settle(s, path);
    var raise, raised := Raise(idle, path, s.flights[i].generation - 1);
    var write, end := WriteMadeToLand(raised, path);
    ReachesTrans(s, settle, idle, raise, raised, path);
    ReachesTrans(s, settle + raise, raised, write, end, path);
    steps := BreaksLater(s, settle + raise + write, end, path, i);
  }

  /** The first generation, answered with something older: any new entry will do. */
  lemma OlderFirstBreaks(s: State, path: Path, i: nat) returns (steps: seq<Step>)
    requires LeftAnswered(s, path, i) && s.flights[i].generation == 0
    requires s.flights[i].answer.doc.version < Floor(s, path)
    ensures ValidRun(s, steps) && CleanRun(s, steps, path) && !EntryInv(End(s, steps), path)
  {
    var settle, idle := Settle(s, path);
    var raise, end := Raise(idle, path, 0);
    ReachesTrans(s, settle, idle, raise, end, path);
    steps := BreaksLater(s, settle + raise, end, path, i);
  }

  /** The first generation while the revision is remembered: a write makes the new entry. */
  lemma WrittenFirstBreaks(s: State, path: Path, i: nat) returns (steps: seq<Step>)
    requires LeftAnswered(s, path, i) && s.flights[i].generation == 0
    requires path in s.client.revisions && !AboutToRecord(s, path)
    ensures ValidRun(s, steps) && CleanRun(s, steps, path) && !EntryInv(End(s, steps), path)
  {
    var settle, idle := Settle(s, path);
    var write, end := WriteMadeToLand(idle, path);
    ReachesTrans(s, settle, idle, write, end, path);
    steps := BreaksLater(s, settle + write, end, path, i);
  }

  lemma AnsweredBreaks(s: State, path: Path, i: nat) returns (steps: seq<Step>)
    requires LeftAnswered(s, path, i)
    requires s.flights[i].generation >= 1 || s.flights[i].answer.doc.version < Floor(s, path)
          || (path in s.client.revisions && !AboutToRecord(s, path))
    ensures ValidRun(s, steps) && CleanRun(s, steps, path) && !EntryInv(End(s, steps), path)
  {
    hide Floor, AboutToRecord;
    if s.flights[i].generation >= 1 {
      steps := LaterGenerationBreaks(s, path, i);
    } else if s.flights[i].answer.doc.version < Floor(s, path) {
      steps := OlderFirstBreaks(s, path, i);
    } else {
      steps := WrittenFirstBreaks(s, path, i);
    }
  }

  /** One that still waits can be answered first. */
  lemma WaitingBreaks(s: State, path: Path, i: nat) returns (steps: seq<Step>)
    requires Left(s, path, i) && s.flights[i].answer.Waiting?
    requires s.flights[i].generation >= 1 || (path in s.client.revisions && !AboutToRecord(s, path))
    ensures ValidRun(s, steps) && CleanRun(s, steps, path) && !EntryInv(End(s, steps), path)
  {
    var answer := AnswerRefresh(i, true);
    var answered := Apply(s, answer);
    assert !DropsInFlight(s, answer, path);
    var rest := AnsweredBreaks(answered, path, i);
    hide Apply, Enabled, DropsInFlight, EntryInv;
    steps := [answer] + rest;
    assert steps[1..] == rest;
  }

  lemma UnsafeBreaks(s: State, step: Step, path: Path, i: nat) returns (later: seq<Step>)
    requires Inv(s, path) && Known(s, path) && AnswersHeld(s, path) && Enabled(s, step) && Drops(s, step, path)
    requires i < |s.flights| && s.flights[i].path == path && !Survives(s, step, path, s.flights[i])
    ensures var dropped := Apply(s, step);
            ValidRun(dropped, later) && CleanRun(dropped, later, path) && !EntryInv(End(dropped, later), path)
  {
    var dropped := Apply(s, step);
    assert Left(dropped, path, i) && dropped.flights[i] == s.flights[i];
    assert step.DropDirectory? ==>
        path in dropped.client.revisions && (AboutToRecord(dropped, path) <==> AboutToRecord(s, path));
    assert dropped.host == s.host;
    assert step.FinishRename? ==> Floor(dropped, path) == Floor(s, path);
    assert s.flights[i].generation >= 1 || !NotOlder(s.flights[i], Floor(dropped, path))
        || (path in dropped.client.revisions && !AboutToRecord(dropped, path));
    assert !s.flights[i].answer.Failed?;
    assert s.flights[i].answer.Answered? ==> Held(dropped.host, path, s.flights[i].answer.doc);
    hide Apply, Left, Floor, AboutToRecord, Inv, Held, Survives;
    if s.flights[i].answer.Waiting? {
      later := WaitingBreaks(dropped, path, i);
    } else {
      later := AnsweredBreaks(dropped, path, i);
    }
  }

  lemma DroppedIsSafe(s: State, step: Step, path: Path)
    requires Inv(s, path) && AnswersHeld(s, path) && Enabled(s, step) && Drops(s, step, path)
    requires forall i :: 0 <= i < |s.flights| && s.flights[i].path == path ==> Survives(s, step, path, s.flights[i])
    ensures Safe(Apply(s, step), path)
  {
    var dropped := Apply(s, step);
    assert Promise(dropped, path);
    forall i | 0 <= i < |s.flights| && s.flights[i].path == path
      ensures dropped.client.remote && Harmless(dropped, path, s.flights[i])
    {
      assert Survives(s, step, path, s.flights[i]);
    }
    assert dropped.flights == s.flights && dropped.host == s.host;
    hide Apply, Promise, Inv, Held, Harmless;
  }

  lemma DropExactly(s: State, step: Step, path: Path)
    requires Inv(s, path) && Known(s, path) && AnswersHeld(s, path) && Enabled(s, step) && Drops(s, step, path)
    ensures (forall i :: 0 <= i < |s.flights| && s.flights[i].path == path ==> Survives(s, step, path, s.flights[i]))
            <==> forall later :: ValidRun(Apply(s, step), later) && CleanRun(Apply(s, step), later, path) ==>
                   EntryInv(End(Apply(s, step), later), path)
  {
    hide Survives, Drops, Inv, Apply, Enabled;
    var dropped := Apply(s, step);
    if i :| 0 <= i < |s.flights| && s.flights[i].path == path && !Survives(s, step, path, s.flights[i]) {
      var later := UnsafeBreaks(s, step, path, i);
    } else {
      DroppedIsSafe(s, step, path);
      forall later | ValidRun(dropped, later) && CleanRun(dropped, later, path)
        ensures EntryInv(End(dropped, later), path)
      {
        RunSafe(dropped, later, path);
      }
    }
  }

  // ---- From the start ----

  lemma StepKnows(s: State, step: Step, path: Path)
    requires Enabled(s, step) && Known(s, path)
    ensures Known(Apply(s, step), path)
  {
    hide HistoryAt, Extends, Put;
  }

  lemma StepHolds(s: State, step: Step, path: Path)
    requires Enabled(s, step) && AnswersHeld(s, path)
    ensures AnswersHeld(Apply(s, step), path)
  {
    var s' := Apply(s, step);
    StepExtends(s, step);
    forall i | 0 <= i < |s'.flights| && s'.flights[i].path == path && s'.flights[i].answer.Answered?
      ensures Held(s'.host, path, s'.flights[i].answer.doc)
    {
      if step.AnswerRefresh? && i == step.index {
      } else {
        var j := if step.CompleteRefresh? then Skip(i, step.index) else i;
        assert j < |s.flights| && s'.flights[i] == s.flights[j];
        StaysHeld(s.host, s'.host, path, s.flights[j].answer.doc);
      }
    }
  }

  lemma StepExtends(s: State, step: Step)
    requires Enabled(s, step)
    ensures Extends(s.host, Apply(s, step).host)
  {
    if step.HostWrites? {
      PutExtends(s.host, s.task.path, Some(s.task.bytes));
    } else if step.HostRemoves? {
      PutExtends(s.host, s.task.path, None);
    }
    hide Put;
  }

  lemma {:induction false} RunKnows(s: State, steps: seq<Step>, path: Path)
    requires ValidRun(s, steps) && Known(s, path) && AnswersHeld(s, path)
    ensures Known(End(s, steps), path) && AnswersHeld(End(s, steps), path)
    decreases |steps|
  {
    hide Apply, Enabled, Known, AnswersHeld;
    if steps != [] {
      StepKnows(s, steps[0], path);
      StepHolds(s, steps[0], path);
      RunKnows(Apply(s, steps[0]), steps[1..], path);
    }
  }

  /**
    After an entry was dropped, in whatever state a clean run led to, the cache keeps showing a document of the
    Host at the version last written or a later one, in every later clean run, exactly when every refresh in
    flight survives the drop.
   */
  lemma ReadYourWritesSurvivesExactly(start: State, before: seq<Step>, step: Step, path: Path)
    requires Init(start) && ValidRun(start, before) && CleanRun(start, before, path)
    requires Enabled(End(start, before), step) && Drops(End(start, before), step, path)
    ensures var s := End(start, before);
            (forall i :: 0 <= i < |s.flights| && s.flights[i].path == path ==> Survives(s, step, path, s.flights[i]))
            <==> forall later :: ValidRun(Apply(s, step), later) && CleanRun(Apply(s, step), later, path) ==>
                   EntryInv(End(Apply(s, step), later), path)
  {
    assert Inv(start, path) && Known(start, path) && AnswersHeld(start, path);
    hide Inv, Known, AnswersHeld, Survives, Apply, Enabled, Drops;
    RunKeeps(start, before, path);
    RunKnows(start, before, path);
    DropExactly(End(start, before), step, path);
  }
}
