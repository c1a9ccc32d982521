/**
  The remote configuration cache as a protocol: blocking operations under the `state` lock, background
  refreshes guarded only by `generation` and `refreshing`, and a Host that other clients change too.

  The Host keeps, for every path, the whole history of the document; a version is an index into it.
  One task at most holds the `state` lock. Refreshes in flight are messages, answered and completed in
  any order. A reader that missed the cache takes the lock only later, so a direct read may find an entry again.
  `remove_directory` does not take the lock. Time is a choice of the run: a hit may or may not be old enough to
  launch a refresh.
 */
module ConfigCacheProtocol {
  import opened Wrappers
  import opened ConfigCache

  type History = seq<Option<Bytes>>
  type Host = map<Path, History>

  datatype After = ForRead | ForWrite(bytes: Bytes) | ForRemove

  /** Where the holder of the `state` lock stands. */
  datatype Task =
    | Idle
    | Reading(path: Path, after: After)
    | ReadAnswered(path: Path, after: After, doc: Doc)
    | WriteReady(path: Path, bytes: Bytes)
    | WriteSent(path: Path, bytes: Bytes, expected: Option<Revision>)
    | WriteAcked(path: Path, bytes: Bytes, version: nat)
    | RemoveSent(path: Path, revision: Revision)
    | RemoveAcked(path: Path, version: nat)
    | RenameSent(source: Path, target: Path)
    | RenameAcked(source: Path, target: Path)

  /** `returned` records the version at which the last write or removal of a path returned. */
  datatype State = State(
    host: Host,
    client: Client,
    flights: seq<Flight>,
    task: Task,
    returned: map<Path, nat>)

  datatype Step =
    | HostMoves(after: Host)
    | HitCache(path: Path, aged: bool)
    | BeginRead(path: Path)
    | BeginWrite(path: Path, bytes: Bytes)
    | BeginRemove(path: Path)
    | BeginRename(source: Path, target: Path)
    | AnswerRead
    | FailTask
    | FinishRead
    | SendWrite
    | HostWrites
    | FinishWrite
    | HostRemoves
    | FinishRemove
    | HostRenames(after: Host)
    | FinishRename
    | DropDirectory(dir: Path)
    | Notify(pending: seq<Flight>)
    | AnswerRefresh(index: nat, succeeds: bool)
    | CompleteRefresh(index: nat)

  function HistoryAt(host: Host, path: Path): (h: History)
    ensures h != []
  {
    if path in host && host[path] != [] then host[path] else [None]
  }

  function Current(host: Host, path: Path): Doc {
    var h := HistoryAt(host, path);
    Doc(|h| - 1, h[|h| - 1])
  }

  function Put(host: Host, path: Path, bytes: Option<Bytes>): Host {
    host[path := HistoryAt(host, path) + [bytes]]
  }

  ghost predicate Extends(host: Host, after: Host) {
    forall path :: HistoryAt(host, path) <= HistoryAt(after, path)
  }

  function Returned(s: State, path: Path): nat {
    if path in s.returned then s.returned[path] else 0
  }

  ghost predicate Init(s: State) {
    && s.client.revisions == map[]
    && s.client.cache == map[]
    && s.flights == []
    && s.task == Idle
    && s.returned == map[]
  }

  ghost predicate Enabled(s: State, step: Step) {
    match step
    case HostMoves(after) => Extends(s.host, after)
    case HitCache(path, aged) => s.client.remote && path in s.client.cache
    case BeginRead(path) => s.task.Idle?
    case BeginWrite(path, bytes) => s.task.Idle?
    case BeginRemove(path) => s.task.Idle?
    case BeginRename(source, target) => s.task.Idle?
    case AnswerRead => s.task.Reading?
    case FailTask => s.task.Reading? || s.task.WriteSent? || s.task.RemoveSent? || s.task.RenameSent?
    case FinishRead => s.task.ReadAnswered?
    case SendWrite => s.task.WriteReady?
    case HostWrites => s.task.WriteSent? && s.task.expected == RevisionOf(Current(s.host, s.task.path).bytes)
    case FinishWrite => s.task.WriteAcked?
    case HostRemoves => s.task.RemoveSent? && Some(s.task.revision) == RevisionOf(Current(s.host, s.task.path).bytes)
    case FinishRemove => s.task.RemoveAcked?
    case HostRenames(after) => s.task.RenameSent? && Extends(s.host, after)
    case FinishRename => s.task.RenameAcked?
    case DropDirectory(dir) => true
    case Notify(pending) => s.client.remote && ListsIdle(s.client.cache, pending)
    case AnswerRefresh(index, succeeds) => index < |s.flights| && s.flights[index].answer.Waiting?
    case CompleteRefresh(index) => index < |s.flights| && !s.flights[index].answer.Waiting?
  }

  function RemoveRequest(path: Path, known: Option<Revision>): Task {
    match known
    case None => Idle
    case Some(revision) => RemoveSent(path, revision)
  }

  function AfterRead(task: Task): Task
    requires task.ReadAnswered?
  {
    match task.after
    case ForRead => Idle
    case ForWrite(bytes) => WriteReady(task.path, bytes)
    case ForRemove => RemoveRequest(task.path, RevisionOf(task.doc.bytes))
  }

  function Apply(s: State, step: Step): State
    requires Enabled(s, step)
  {
    match step
    case HostMoves(after) => s.(host := after)
    case HitCache(path, aged) =>
      if aged && CanLaunch(s.client, path) then
        s.(client := Launch(s.client, path), flights := s.flights + [Launched(s.client, path)])
      else s
    case BeginRead(path) => s.(task := Reading(path, ForRead))
    case BeginWrite(path, bytes) =>
      s.(task := if path in s.client.revisions then WriteReady(path, bytes) else Reading(path, ForWrite(bytes)))
    case BeginRemove(path) =>
      s.(task := if path in s.client.revisions then RemoveRequest(path, s.client.revisions[path])
                 else Reading(path, ForRemove))
    case BeginRename(source, target) => s.(task := RenameSent(source, target))
    case AnswerRead => s.(task := ReadAnswered(s.task.path, s.task.after, Current(s.host, s.task.path)))
    case FailTask => s.(task := Idle)
    case FinishRead => s.(client := Record(s.client, s.task.path, s.task.doc), task := AfterRead(s.task))
    case SendWrite =>
      s.(task := WriteSent(s.task.path, s.task.bytes, ExpectedRevision(s.client, s.task.path)))
    case HostWrites =>
      s.(host := Put(s.host, s.task.path, Some(s.task.bytes)),
         task := WriteAcked(s.task.path, s.task.bytes, |HistoryAt(s.host, s.task.path)|))
    case FinishWrite =>
      s.(client := Record(s.client, s.task.path, Doc(s.task.version, Some(s.task.bytes))),
         returned := s.returned[s.task.path := s.task.version],
         task := Idle)
    case HostRemoves =>
      s.(host := Put(s.host, s.task.path, None),
         task := RemoveAcked(s.task.path, |HistoryAt(s.host, s.task.path)|))
    case FinishRemove =>
      s.(client := Record(s.client, s.task.path, Doc(s.task.version, None)),
         returned := s.returned[s.task.path := s.task.version],
         task := Idle)
    case HostRenames(after) => s.(host := after, task := RenameAcked(s.task.source, s.task.target))
    case FinishRename => s.(client := DropRenamed(s.client, s.task.source, s.task.target), task := Idle)
    case DropDirectory(dir) => s.(client := DropCached(s.client, dir))
    case Notify(pending) => s.(client := LaunchAll(s.client), flights := s.flights + pending)
    case AnswerRefresh(index, succeeds) =>
      var flight := s.flights[index];
      var answer := if succeeds then Answered(Current(s.host, flight.path)) else Failed;
      s.(flights := s.flights[index := flight.(answer := answer)])
    case CompleteRefresh(index) =>
      s.(client := Complete(s.client, s.flights[index]),
         flights := s.flights[..index] + s.flights[index + 1..])
  }

  ghost predicate ValidRun(s: State, steps: seq<Step>)
    decreases |steps|
  {
    steps == [] || (Enabled(s, steps[0]) && ValidRun(Apply(s, steps[0]), steps[1..]))
  }

  function End(s: State, steps: seq<Step>): State
    requires ValidRun(s, steps)
    decreases |steps|
  {
    if steps == [] then s else End(Apply(s, steps[0]), steps[1..])
  }

  // ---- What every step keeps ----

  /** `doc` is what the Host really held at that version. */
  ghost predicate Held(host: Host, path: Path, doc: Doc) {
    doc.version < |HistoryAt(host, path)| && HistoryAt(host, path)[doc.version] == doc.bytes
  }

  ghost predicate Fresh(s: State, path: Path, doc: Doc) {
    Held(s.host, path, doc) && Returned(s, path) <= doc.version
  }

  ghost predicate Matches(s: State, path: Path, i: int) {
    && 0 <= i < |s.flights|
    && s.flights[i].path == path
    && path in s.client.cache
    && s.flights[i].generation == s.client.cache[path].generation
  }

  ghost predicate EntryInv(s: State, path: Path) {
    path in s.client.cache ==>
      var entry := s.client.cache[path];
      && s.client.remote
      && Fresh(s, path, Doc(entry.version, entry.bytes))
      && entry.revision == RevisionOf(entry.bytes)
  }

  ghost predicate TaskInv(s: State, path: Path) {
    match s.task
    case ReadAnswered(p, _, doc) => p == path ==> Fresh(s, path, doc)
    case WriteAcked(p, bytes, version) => p == path ==> Fresh(s, path, Doc(version, Some(bytes)))
    case RemoveAcked(p, version) => p == path ==> Fresh(s, path, Doc(version, None))
    case _ => true
  }

  /** A refresh of the current generation can only bring something at least as new as the entry. */
  ghost predicate FlightInv(s: State, path: Path) {
    forall i :: 0 <= i < |s.flights| && s.flights[i].path == path ==>
      && path in s.client.cache
      && s.flights[i].generation <= s.client.cache[path].generation
      && (s.flights[i].answer.Answered? && s.flights[i].generation == s.client.cache[path].generation ==>
            && Fresh(s, path, s.flights[i].answer.doc)
            && s.client.cache[path].version <= s.flights[i].answer.doc.version)
  }

  /** `refreshing` is set exactly when one refresh of the current generation is in flight, never two. */
  ghost predicate SingleFlight(s: State, path: Path) {
    && (path in s.client.cache ==> (s.client.cache[path].refreshing <==> exists i :: Matches(s, path, i)))
    && (forall i, j :: Matches(s, path, i) && Matches(s, path, j) ==> i == j)
  }

  ghost predicate Inv(s: State, path: Path) {
    && Returned(s, path) < |HistoryAt(s.host, path)|
    && EntryInv(s, path)
    && TaskInv(s, path)
    && FlightInv(s, path)
    && SingleFlight(s, path)
  }

  /** The step drops the entry of `path` while one of its refreshes is still in flight. */
  ghost predicate DropsInFlight(s: State, step: Step, path: Path) {
    && (exists i :: 0 <= i < |s.flights| && s.flights[i].path == path)
    && match step
       case DropDirectory(dir) => Under(dir, path)
       case FinishRename => s.task.RenameAcked? && (Under(s.task.source, path) || Under(s.task.target, path))
       case _ => false
  }

  lemma InsertKeeps(s: State, s': State, path: Path, doc: Doc)
    requires Inv(s, path) && Fresh(s', path, doc)
    requires s'.client == Record(s.client, path, doc)
    requires s'.host == s.host && s'.flights == s.flights
    requires TaskInv(s', path)
    ensures Inv(s', path)
  {
    forall i ensures !Matches(s', path, i) {}
  }

  lemma LaunchKeeps(s: State, launched: Path, path: Path)
    requires Inv(s, path) && CanLaunch(s.client, launched)
    ensures Inv(s.(client := Launch(s.client, launched), flights := s.flights + [Launched(s.client, launched)]), path)
  {
    var s' := s.(client := Launch(s.client, launched), flights := s.flights + [Launched(s.client, launched)]);
    forall i ensures Matches(s', path, i) <==> Matches(s, path, i) || (launched == path && i == |s.flights|) {}
    if launched == path { assert Matches(s', path, |s.flights|); }
  }

  lemma NotifyKeeps(s: State, pending: seq<Flight>, path: Path)
    requires Inv(s, path) && ListsIdle(s.client.cache, pending)
    ensures Inv(s.(client := LaunchAll(s.client), flights := s.flights + pending), path)
  {
    var s' := s.(client := LaunchAll(s.client), flights := s.flights + pending);
    var n := |s.flights|;
    forall i ensures Matches(s', path, i) <==>
      Matches(s, path, i) || (n <= i < |s'.flights| && pending[i - n].path == path) {}
    if path in s.client.cache && !s.client.cache[path].refreshing {
      var k :| 0 <= k < |pending| && pending[k].path == path;
      assert Matches(s', path, n + k);
    }
  }

  lemma AnswerKeeps(s: State, index: nat, succeeds: bool, path: Path)
    requires Inv(s, path) && Enabled(s, AnswerRefresh(index, succeeds))
    ensures Inv(Apply(s, AnswerRefresh(index, succeeds)), path)
  {
    var s' := Apply(s, AnswerRefresh(index, succeeds));
    forall i ensures Matches(s', path, i) <==> Matches(s, path, i) {}
  }

  lemma CompleteKeeps(s: State, index: nat, path: Path)
    requires Inv(s, path) && Enabled(s, CompleteRefresh(index))
    ensures Inv(Apply(s, CompleteRefresh(index)), path)
  {
    var s' := Apply(s, CompleteRefresh(index));
    if Matches(s, path, index) {
      CompleteCurrentKeeps(s, s', index, path);
    } else {
      hide Inv, Matches;
      CompleteLeavesOthers(s, index, path);
      CompleteOtherKeeps(s, s', index, path);
    }
  }

  lemma CompleteLeavesOthers(s: State, index: nat, path: Path)
    requires Enabled(s, CompleteRefresh(index)) && !Matches(s, path, index)
    ensures var s' := Apply(s, CompleteRefresh(index));
            && s'.client.remote == s.client.remote
            && (path in s'.client.cache <==> path in s.client.cache)
            && (path in s.client.cache ==> s'.client.cache[path] == s.client.cache[path])
  {
  }

  /** The refresh that the entry waits for: there was no other, so there is none left. */
  lemma CompleteCurrentKeeps(s: State, s': State, index: nat, path: Path)
    requires Inv(s, path) && Enabled(s, CompleteRefresh(index)) && Matches(s, path, index)
    requires s' == Apply(s, CompleteRefresh(index))
    ensures Inv(s', path)
  {
    hide Held;
    forall i | 0 <= i < |s'.flights| ensures s'.flights[i] == s.flights[Skip(i, index)] {}
    forall i ensures !Matches(s', path, i) {
      assert Matches(s', path, i) ==> Matches(s, path, Skip(i, index));
    }
    assert forall i :: 0 <= i < |s'.flights| && s'.flights[i].path == path ==>
      s'.flights[i].generation == s'.client.cache[path].generation ==> Matches(s', path, i);
  }

  lemma CompleteOtherKeeps(s: State, s': State, index: nat, path: Path)
    requires Inv(s, path) && index < |s.flights| && !Matches(s, path, index)
    requires s' == s.(client := s'.client, flights := s.flights[..index] + s.flights[index + 1..])
    requires s'.client.remote == s.client.remote
    requires path in s'.client.cache <==> path in s.client.cache
    requires path in s.client.cache ==> s'.client.cache[path] == s.client.cache[path]
    ensures Inv(s', path)
  {
    forall i | 0 <= i < |s'.flights| ensures s'.flights[i] == s.flights[Skip(i, index)] {}
    forall i ensures Matches(s', path, i) <==> 0 <= i < |s'.flights| && Matches(s, path, Skip(i, index)) {}
    OthersStillSingle(s, s', index, path);
  }

  function Skip(i: int, index: nat): int {
    if i < index then i else i + 1
  }

  lemma OthersStillSingle(s: State, s': State, index: nat, path: Path)
    requires SingleFlight(s, path) && index < |s.flights| == |s'.flights| + 1 && !Matches(s, path, index)
    requires path in s'.client.cache <==> path in s.client.cache
    requires path in s.client.cache ==> s'.client.cache[path] == s.client.cache[path]
    requires forall i :: Matches(s', path, i) <==> 0 <= i < |s'.flights| && Matches(s, path, Skip(i, index))
    ensures SingleFlight(s', path)
  {
    hide Matches;
    if path in s.client.cache && s.client.cache[path].refreshing {
      var i :| Matches(s, path, i);
      MatchInRange(s, path, i);
      var j := if i < index then i else i - 1;
      assert Skip(j, index) == i;
      assert Matches(s', path, j);
    }
  }

  lemma MatchInRange(s: State, path: Path, i: int)
    requires Matches(s, path, i)
    ensures 0 <= i < |s.flights|
  {
  }

  lemma DropKeeps(s: State, s': State, path: Path)
    requires Inv(s, path)
    requires s'.host == s.host && s'.flights == s.flights && s'.returned == s.returned
    requires s'.task == s.task || s'.task == Idle
    requires s'.client.remote == s.client.remote
    requires path in s'.client.cache ==> path in s.client.cache && s'.client.cache[path] == s.client.cache[path]
    requires path !in s'.client.cache ==> forall i :: 0 <= i < |s.flights| ==> s.flights[i].path != path
    ensures Inv(s', path)
  {
    forall i ensures Matches(s', path, i) <==> Matches(s, path, i) && path in s'.client.cache {}
  }

  lemma HostKeeps(s: State, s': State, path: Path)
    requires Inv(s, path) && Extends(s.host, s'.host)
    requires s'.client == s.client && s'.flights == s.flights && s'.returned == s.returned
    requires TaskInv(s', path)
    ensures Inv(s', path)
  {
    assert HistoryAt(s.host, path) <= HistoryAt(s'.host, path);
    forall i ensures Matches(s', path, i) <==> Matches(s, path, i) {}
  }

  lemma OtherRecordKeeps(s: State, s': State, path: Path, other: Path, doc: Doc)
    requires Inv(s, path) && other != path
    requires s'.client == Record(s.client, other, doc)
    requires s'.host == s.host && s'.flights == s.flights && Returned(s', path) == Returned(s, path)
    requires TaskInv(s', path)
    ensures Inv(s', path)
  {
    forall i ensures Matches(s', path, i) <==> Matches(s, path, i) {}
  }

  /** Recording a direct answer keeps the invariant of the path it is for and of every other path. */
  lemma RecordKeeps(s: State, s': State, recorded: Path, doc: Doc, path: Path)
    requires Inv(s, path)
    requires s'.client == Record(s.client, recorded, doc)
    requires s'.host == s.host && s'.flights == s.flights && TaskInv(s', path)
    requires if path == recorded then Fresh(s', path, doc) else Returned(s', path) == Returned(s, path)
    ensures Inv(s', path)
  {
    if path == recorded { InsertKeeps(s, s', path, doc); } else { OtherRecordKeeps(s, s', path, recorded, doc); }
  }

  lemma DirectStepKeeps(s: State, step: Step, path: Path)
    requires step.FinishRead? || step.FinishWrite? || step.FinishRemove?
    requires Enabled(s, step) && Inv(s, path)
    ensures Inv(Apply(s, step), path)
  {
    var s' := Apply(s, step);
    match step {
      case FinishRead => RecordKeeps(s, s', s.task.path, s.task.doc, path);
      case FinishWrite => RecordKeeps(s, s', s.task.path, Doc(s.task.version, Some(s.task.bytes)), path);
      case FinishRemove => RecordKeeps(s, s', s.task.path, Doc(s.task.version, None), path);
    }
  }

  lemma RefreshStepKeeps(s: State, step: Step, path: Path)
    requires step.HitCache? || step.Notify? || step.AnswerRefresh? || step.CompleteRefresh?
    requires Enabled(s, step) && Inv(s, path)
    ensures Inv(Apply(s, step), path)
  {
    match step {
      case HitCache(hit, aged) =>
        if aged && CanLaunch(s.client, hit) { LaunchKeeps(s, hit, path); }
      case Notify(pending) => NotifyKeeps(s, pending, path);
      case AnswerRefresh(index, succeeds) => AnswerKeeps(s, index, succeeds, path);
      case CompleteRefresh(index) => CompleteKeeps(s, index, path);
    }
  }

  /** Every step keeps the invariant of a path, unless it drops the entry under a refresh in flight. */
  lemma StepKeeps(s: State, step: Step, path: Path)
    requires Enabled(s, step) && Inv(s, path) && !DropsInFlight(s, step, path)
    ensures Inv(Apply(s, step), path)
  {
    hide Inv, Apply, Enabled, DropsInFlight;
    if step.FinishRead? || step.FinishWrite? || step.FinishRemove? {
      DirectStepKeeps(s, step, path);
    } else if step.HitCache? || step.Notify? || step.AnswerRefresh? || step.CompleteRefresh? {
      RefreshStepKeeps(s, step, path);
    } else if step.DropDirectory? || step.FinishRename? {
      DropStepKeeps(s, step, path);
    } else {
      HostStepKeeps(s, step, path);
    }
  }

  lemma DropStepKeeps(s: State, step: Step, path: Path)
    requires step.DropDirectory? || step.FinishRename?
    requires Enabled(s, step) && Inv(s, path) && !DropsInFlight(s, step, path)
    ensures Inv(Apply(s, step), path)
  {
    DropKeeps(s, Apply(s, step), path);
  }

  ghost predicate HostStep(step: Step) {
    && !step.FinishRead? && !step.FinishWrite? && !step.FinishRemove?
    && !step.HitCache? && !step.Notify? && !step.AnswerRefresh? && !step.CompleteRefresh?
    && !step.DropDirectory? && !step.FinishRename?
  }

  /** The remaining steps change the Host or the operation under way, but neither the cache nor the refreshes. */
  lemma HostStepKeeps(s: State, step: Step, path: Path)
    requires HostStep(step) && Enabled(s, step) && Inv(s, path)
    ensures Inv(Apply(s, step), path)
  {
    HostStepExtends(s, step, path);
    hide Inv, Apply, Enabled, HostStep;
    HostKeeps(s, Apply(s, step), path);
  }

  lemma HostStepExtends(s: State, step: Step, path: Path)
    requires HostStep(step) && Enabled(s, step)
    requires Returned(s, path) < |HistoryAt(s.host, path)| && TaskInv(s, path)
    ensures var s' := Apply(s, step);
            && Extends(s.host, s'.host) && s'.client == s.client && s'.flights == s.flights && s'.returned == s.returned
            && TaskInv(s', path)
  {
    if step.HostWrites? {
      PutExtends(s.host, s.task.path, Some(s.task.bytes));
    } else if step.HostRemoves? {
      PutExtends(s.host, s.task.path, None);
    }
    hide HistoryAt, Put;
  }

  lemma PutExtends(host: Host, path: Path, bytes: Option<Bytes>)
    ensures Extends(host, Put(host, path, bytes))
    ensures HistoryAt(Put(host, path, bytes), path) == HistoryAt(host, path) + [bytes]
  {
  }

  // ---- Whole runs ----

  ghost predicate CleanRun(s: State, steps: seq<Step>, path: Path)
    requires ValidRun(s, steps)
    decreases |steps|
  {
    steps == [] || (!DropsInFlight(s, steps[0], path) && CleanRun(Apply(s, steps[0]), steps[1..], path))
  }

  lemma ReturnedGrows(s: State, step: Step, path: Path)
    requires Enabled(s, step) && Inv(s, path)
    ensures Returned(s, path) <= Returned(Apply(s, step), path)
  {
    hide EntryInv, FlightInv, SingleFlight;
  }

  lemma {:induction false} RunKeeps(s: State, steps: seq<Step>, path: Path)
    requires ValidRun(s, steps) && CleanRun(s, steps, path) && Inv(s, path)
    ensures Inv(End(s, steps), path)
    ensures Returned(s, path) <= Returned(End(s, steps), path)
    decreases |steps|
  {
    hide Apply, Enabled, DropsInFlight, Inv;
    if steps != [] {
      StepKeeps(s, steps[0], path);
      ReturnedGrows(s, steps[0], path);
      RunKeeps(Apply(s, steps[0]), steps[1..], path);
    }
  }

  lemma {:induction false} RunConcat(s: State, left: seq<Step>, right: seq<Step>)
    requires ValidRun(s, left) && ValidRun(End(s, left), right)
    ensures ValidRun(s, left + right) && End(s, left + right) == End(End(s, left), right)
    decreases |left|
  {
    hide Apply, Enabled, DropsInFlight;
    if left == [] {
      assert left + right == right;
    } else {
      RunConcat(Apply(s, left[0]), left[1..], right);
      assert (left + right)[1..] == left[1..] + right;
    }
  }

  /** A write or a removal returned in `s`: its version and what it left on the Host. */
  ghost predicate Returns(s: State, step: Step, path: Path, doc: Doc) {
    || (step.FinishWrite? && s.task.WriteAcked? && s.task.path == path
      && doc == Doc(s.task.version, Some(s.task.bytes)))
    || (step.FinishRemove? && s.task.RemoveAcked? && s.task.path == path && doc == Doc(s.task.version, None))
  }

  /**
    Read your own writes. Once a write or removal has returned, the cached entry is always a document
    the Host really held, at that version or a later one.
   */
  lemma ReadYourWrites(s: State, before: seq<Step>, step: Step, later: seq<Step>, path: Path, doc: Doc)
    requires Init(s) && ValidRun(s, before) && CleanRun(s, before, path)
    requires Enabled(End(s, before), step) && Returns(End(s, before), step, path, doc)
    requires ValidRun(Apply(End(s, before), step), later) && CleanRun(Apply(End(s, before), step), later, path)
    ensures var end := End(Apply(End(s, before), step), later);
            path in end.client.cache ==>
              && doc.version <= end.client.cache[path].version
              && Held(end.host, path, Doc(end.client.cache[path].version, end.client.cache[path].bytes))
              && end.client.cache[path].revision == RevisionOf(end.client.cache[path].bytes)
    ensures Held(End(s, before).host, path, doc)
  {
    RunKeeps(s, before, path);
    StepKeeps(End(s, before), step, path);
    RunKeeps(Apply(End(s, before), step), later, path);
  }

  /** Within one generation no step brings back an older version. */
  lemma StepForward(s: State, step: Step, path: Path)
    requires Enabled(s, step) && Inv(s, path)
    requires path in s.client.cache && path in Apply(s, step).client.cache
    requires s.client.cache[path].generation == Apply(s, step).client.cache[path].generation
    ensures s.client.cache[path].version <= Apply(s, step).client.cache[path].version
  {
    hide EntryInv, TaskInv, SingleFlight, Held, HistoryAt, Extends, ListsIdle;
  }

  /** Refreshes are single flight, and within one generation the cached version never goes back. */
  lemma SingleFlightAndForward(s: State, before: seq<Step>, step: Step, path: Path)
    requires Init(s) && ValidRun(s, before) && CleanRun(s, before, path)
    requires Enabled(End(s, before), step)
    ensures var now := End(s, before);
            var next := Apply(now, step);
            && SingleFlight(now, path)
            && (path in now.client.cache && path in next.client.cache &&
                now.client.cache[path].generation == next.client.cache[path].generation ==>
                  now.client.cache[path].version <= next.client.cache[path].version)
  {
    hide Apply, Enabled;
    RunKeeps(s, before, path);
    var now := End(s, before);
    if path in now.client.cache && path in Apply(now, step).client.cache &&
      now.client.cache[path].generation == Apply(now, step).client.cache[path].generation
    {
      StepForward(now, step, path);
    }
  }

  // ---- Dropping an entry: exactly when it is safe ----

  ghost predicate InFlight(s: State, path: Path) {
    exists i :: 0 <= i < |s.flights| && s.flights[i].path == path
  }

  ghost predicate Drops(s: State, step: Step, path: Path) {
    || (step.DropDirectory? && Under(step.dir, path))
    || (step.FinishRename? && s.task.RenameAcked? && (Under(s.task.source, path) || Under(s.task.target, path)))
  }

  /** These are the steps that take a path out of the cache, and no other does. */
  lemma OnlyDropsUncache(s: State, step: Step, path: Path)
    requires Enabled(s, step) && path in s.client.cache
    ensures path !in Apply(s, step).client.cache <==> Drops(s, step, path)
  {
    hide HistoryAt, Extends, ListsIdle;
  }

  /** What the cache promises about one path in one state. */
  ghost predicate Discipline(s: State, path: Path) {
    EntryInv(s, path) && SingleFlight(s, path)
  }

  /** `path` is absent, or cached at `generation` at most with no refresh recorded. */
  ghost predicate AtMost(s: State, path: Path, generation: nat) {
    path in s.client.cache ==> s.client.cache[path].generation <= generation && !s.client.cache[path].refreshing
  }

  ghost predicate Reaches(s: State, steps: seq<Step>, path: Path, end: State) {
    && ValidRun(s, steps) && CleanRun(s, steps, path) && End(s, steps) == end
    && end.flights == s.flights && end.client.remote == s.client.remote
  }

  lemma {:induction false} ReachesTrans(s: State, left: seq<Step>, mid: State, right: seq<Step>, end: State, path: Path)
    requires Reaches(s, left, path, mid) && Reaches(mid, right, path, end)
    ensures Reaches(s, left + right, path, end)
    decreases |left|
  {
    if left == [] {
      assert left + right == right;
    } else {
      var next := Apply(s, left[0]);
      assert Reaches(next.(flights := s.flights, client := next.client), [], path, next.(flights := s.flights));
      CleanConcat(s, left, right, path);
      RunConcat(s, left, right);
    }
  }

  lemma {:induction false} CleanConcat(s: State, left: seq<Step>, right: seq<Step>, path: Path)
    requires ValidRun(s, left) && CleanRun(s, left, path)
    requires ValidRun(End(s, left), right) && CleanRun(End(s, left), right, path)
    ensures ValidRun(s, left + right) && CleanRun(s, left + right, path)
    decreases |left|
  {
    hide Apply, Enabled, DropsInFlight;
    if left == [] {
      assert left + right == right;
    } else {
      CleanConcat(Apply(s, left[0]), left[1..], right, path);
      assert (left + right)[1..] == left[1..] + right;
    }
  }

  /** One step that neither drops the entry of `path` under a refresh nor touches the refreshes. */
  lemma OneStep(s: State, step: Step, path: Path)
    requires Enabled(s, step) && !DropsInFlight(s, step, path)
    requires Apply(s, step).flights == s.flights && Apply(s, step).client.remote == s.client.remote
    ensures Reaches(s, [step], path, Apply(s, step))
  {
    assert ValidRun(Apply(s, step), [step][1..]);
  }

  /** A rename that covers `path` has been made by the Host and will drop its entry when it finishes. */
  ghost predicate RenameCovers(s: State, path: Path) {
    s.task.RenameAcked? && (Under(s.task.source, path) || Under(s.task.target, path))
  }

  /** An answer about `path` is about to be recorded. */
  ghost predicate AboutToRecord(s: State, path: Path) {
    (s.task.ReadAnswered? || s.task.WriteAcked? || s.task.RemoveAcked?) && s.task.path == path
  }

  /** The version of the last write or removal of `path` that was made, if it returned or not. */
  ghost function Floor(s: State, path: Path): nat {
    if (s.task.WriteAcked? || s.task.RemoveAcked?) && s.task.path == path then s.task.version else Returned(s, path)
  }

  /** Whoever holds the lock can leave it, caching `path` afresh at most once. */
  lemma Settle(s: State, path: Path) returns (steps: seq<Step>, end: State)
    requires path !in s.client.cache && !RenameCovers(s, path)
    ensures Reaches(s, steps, path, end) && end.task.Idle? && AtMost(end, path, 0)
    ensures end.host == s.host && Returned(end, path) == Floor(s, path)
    ensures path in s.client.revisions && !AboutToRecord(s, path) ==>
              path in end.client.revisions && path !in end.client.cache
    ensures path in end.client.cache ==> path in end.client.revisions
  {
    var begin, mid := SettleRead(s, path);
    var sent := mid;
    steps := begin;
    hide Reaches, ValidRun, CleanRun, End;
    if mid.task.WriteReady? {
      sent := Apply(mid, SendWrite);
      OneStep(mid, SendWrite, path);
      ReachesTrans(s, begin, mid, [SendWrite], sent, path);
      steps := begin + [SendWrite];
    }
    if sent.task.Idle? {
      end := sent;
    } else {
      var last := if sent.task.WriteAcked? then FinishWrite
                  else if sent.task.RemoveAcked? then FinishRemove
                  else FailTask;
      end := Apply(sent, last);
      OneStep(sent, last, path);
      ReachesTrans(s, steps, sent, [last], end, path);
      steps := steps + [last];
    }
  }

  /** A rename and an answered read finish first. */
  lemma SettleRead(s: State, path: Path) returns (steps: seq<Step>, end: State)
    requires path !in s.client.cache && !RenameCovers(s, path)
    ensures Reaches(s, steps, path, end) && AtMost(end, path, 0)
    ensures !end.task.RenameAcked? && !end.task.ReadAnswered?
    ensures end.task.WriteAcked? || end.task.RemoveAcked? ==> path !in end.client.cache
    ensures end.host == s.host && Returned(end, path) == Returned(s, path) && Floor(end, path) == Floor(s, path)
    ensures path in s.client.revisions && !AboutToRecord(s, path) ==>
              path in end.client.revisions && path !in end.client.cache && !AboutToRecord(end, path)
    ensures path in end.client.cache ==> path in end.client.revisions
  {
    if s.task.RenameAcked? || s.task.ReadAnswered? {
      var step := if s.task.RenameAcked? then FinishRename else FinishRead;
      OneStep(s, step, path);
      steps, end := [step], Apply(s, step);
    } else {
      steps, end := [], s;
    }
  }

  /** What is cached is what the Host holds now. */
  ghost predicate Synced(s: State, path: Path) {
    && path in s.client.cache && path in s.client.revisions
    && s.client.cache[path].revision == RevisionOf(Current(s.host, path).bytes)
  }

  ghost predicate UpToDate(s: State, path: Path) {
    path in s.client.revisions && s.client.revisions[path] == RevisionOf(Current(s.host, path).bytes)
  }

  /** Each direct read raises the generation by one, up to any value. */
  lemma {:induction false} Raise(s: State, path: Path, generation: nat) returns (steps: seq<Step>, end: State)
    requires s.task.Idle? && s.client.remote && AtMost(s, path, generation)
    ensures Reaches(s, steps, path, end) && end.task.Idle?
    ensures path in end.client.cache && AtMost(end, path, generation)
    ensures end.client.cache[path].generation == generation
    ensures end.host == s.host && end.returned == s.returned
    ensures (path in s.client.cache ==> path in s.client.revisions) ==> path in end.client.revisions
    ensures path !in s.client.cache || Synced(s, path) ==> Synced(end, path)
    ensures path !in s.client.cache || UpToDate(s, path) ==> UpToDate(end, path)
    decreases if path in s.client.cache then generation - s.client.cache[path].generation else generation + 1
  {
    if path in s.client.cache && s.client.cache[path].generation == generation {
      return [], s;
    }
    var a := Apply(s, BeginRead(path));
    var b := Apply(a, AnswerRead);
    var c := Apply(b, FinishRead);
    OneStep(s, BeginRead(path), path);
    OneStep(a, AnswerRead, path);
    OneStep(b, FinishRead, path);
    ReachesTrans(s, [BeginRead(path)], a, [AnswerRead], b, path);
    ReachesTrans(s, [BeginRead(path)] + [AnswerRead], b, [FinishRead], c, path);
    var rest: seq<Step>;
    rest, end := Raise(c, path, generation);
    steps := [BeginRead(path)] + [AnswerRead] + [FinishRead];
    ReachesTrans(s, steps, c, rest, end, path);
    steps := steps + rest;
  }

  /** A refresh left in flight by a drop meets a new entry of its own generation. */
  lemma DropInFlightBreaks(s: State, path: Path) returns (steps: seq<Step>)
    requires path !in s.client.cache && s.client.remote && !RenameCovers(s, path) && InFlight(s, path)
    ensures ValidRun(s, steps) && CleanRun(s, steps, path) && !Discipline(End(s, steps), path)
  {
    var i :| 0 <= i < |s.flights| && s.flights[i].path == path;
    var settle, idle := Settle(s, path);
    var raise, end := Raise(idle, path, s.flights[i].generation);
    ReachesTrans(s, settle, idle, raise, end, path);
    steps := settle + raise;
    assert Matches(end, path, i);
  }

  /** `path` is not cached, and cannot be before a rename finishes that covers it. */
  ghost predicate Barred(s: State, path: Path) {
    RenameCovers(s, path) && path !in s.client.cache && Returned(s, path) < |HistoryAt(s.host, path)|
  }

  lemma BarredOrKept(s: State, step: Step, path: Path)
    requires Enabled(s, step) && Barred(s, path) && !DropsInFlight(s, step, path)
    ensures Barred(Apply(s, step), path) || Inv(Apply(s, step), path)
  {
    if step.FinishRename? {
      StepKeeps(s, step, path);
    } else if step.HostMoves? {
      assert HistoryAt(s.host, path) <= HistoryAt(step.after, path);
    }
  }

  lemma {:induction false} BarredRunKeeps(s: State, steps: seq<Step>, path: Path)
    requires ValidRun(s, steps) && CleanRun(s, steps, path) && Barred(s, path)
    ensures Discipline(End(s, steps), path)
    decreases |steps|
  {
    hide Apply, Enabled, DropsInFlight;
    if steps != [] {
      BarredOrKept(s, steps[0], path);
      if Barred(Apply(s, steps[0]), path) {
        BarredRunKeeps(Apply(s, steps[0]), steps[1..], path);
      } else {
        RunKeeps(Apply(s, steps[0]), steps[1..], path);
      }
    }
  }

  /**
    Dropping an entry keeps the discipline of its path for good exactly when none of its refreshes is in flight at that
    moment, or a directory is removed while a rename is about to finish that drops the entry once more: nothing can
    be cached before that, and that drop is again one to which this applies.
   */
  lemma DropIsSafeExactlyWhenQuiet(s: State, step: Step, path: Path)
    requires Inv(s, path) && Enabled(s, step) && Drops(s, step, path)
    ensures !InFlight(s, path) || (step.DropDirectory? && RenameCovers(s, path)) <==>
            forall later :: ValidRun(Apply(s, step), later) && CleanRun(Apply(s, step), later, path) ==>
              Discipline(End(Apply(s, step), later), path)
  {
    var dropped := Apply(s, step);
    if step.DropDirectory? && RenameCovers(s, path) {
      forall later | ValidRun(dropped, later) && CleanRun(dropped, later, path)
        ensures Discipline(End(dropped, later), path)
      {
        BarredRunKeeps(dropped, later, path);
      }
    } else if InFlight(s, path) {
      var steps := DropInFlightBreaks(dropped, path);
    } else {
      StepKeeps(s, step, path);
      forall later | ValidRun(dropped, later) && CleanRun(dropped, later, path)
        ensures Discipline(End(dropped, later), path)
      {
        RunKeeps(dropped, later, path);
      }
    }
  }

  lemma Append(s: State, steps: seq<Step>, step: Step) returns (longer: seq<Step>)
    requires ValidRun(s, steps) && Enabled(End(s, steps), step)
    ensures longer == steps + [step] && ValidRun(s, longer) && End(s, longer) == Apply(End(s, steps), step)
  {
    assert ValidRun(Apply(End(s, steps), step), [step][1..]);
    RunConcat(s, steps, [step]);
    longer := steps + [step];
  }

  /**
    A refresh answered before such a drop can undo a later write: reads bring the new entry to one
    generation below the refresh, the write lands on it, and the refresh then replaces what was written.
   */
  lemma DropInFlightUndoesAWrite(s: State, path: Path, i: nat, bytes: Bytes) returns (steps: seq<Step>)
    requires path !in s.client.cache && s.client.remote && s.task.Idle?
    requires i < |s.flights| && s.flights[i].path == path && s.flights[i].generation >= 1
    requires s.flights[i].answer.Answered? && Held(s.host, path, s.flights[i].answer.doc)
    ensures ValidRun(s, steps)
    ensures var end := End(s, steps);
            && path in end.client.cache
            && Current(end.host, path).bytes == Some(bytes)
            && end.client.cache[path].version < Returned(end, path) == Current(end.host, path).version
  {
    var raise, a := Raise(s, path, s.flights[i].generation - 1);
    hide ValidRun, End;
    var write, b := WriteLands(a, path, bytes);
    hide Apply, Enabled;
    RunConcat(s, raise, write);
    CompletesStale(b, path, i);
    steps := Append(s, raise + write, CompleteRefresh(i));
  }

  /** From the state the client knows, a write goes through and bumps the generation. */
  lemma WriteLands(s: State, path: Path, bytes: Bytes) returns (steps: seq<Step>, end: State)
    requires s.task.Idle? && s.client.remote && Synced(s, path)
    ensures ValidRun(s, steps) && End(s, steps) == end && end.flights == s.flights
    ensures HistoryAt(end.host, path) == HistoryAt(s.host, path) + [Some(bytes)]
    ensures Returned(end, path) == |HistoryAt(s.host, path)|
    ensures path in end.client.cache && end.client.cache[path].generation == s.client.cache[path].generation + 1
  {
    var begun := Apply(s, BeginWrite(path, bytes));
    var sent := Apply(begun, SendWrite);
    var acked := Apply(sent, HostWrites);
    end := Apply(acked, FinishWrite);
    WriteSteps(s, begun, sent, acked, end, path, bytes);
    steps := [BeginWrite(path, bytes), SendWrite, HostWrites, FinishWrite];
  }

  lemma WriteSteps(s: State, begun: State, sent: State, acked: State, end: State, path: Path, bytes: Bytes)
    requires Enabled(s, BeginWrite(path, bytes)) && begun == Apply(s, BeginWrite(path, bytes))
    requires Enabled(begun, SendWrite) && sent == Apply(begun, SendWrite)
    requires Enabled(sent, HostWrites) && acked == Apply(sent, HostWrites)
    requires Enabled(acked, FinishWrite) && end == Apply(acked, FinishWrite)
    ensures var steps := [BeginWrite(path, bytes), SendWrite, HostWrites, FinishWrite];
            ValidRun(s, steps) && End(s, steps) == end
  {
    hide Apply, Enabled;
    assert ValidRun(acked, [FinishWrite]) && End(acked, [FinishWrite]) == end by {
      assert ValidRun(end, [FinishWrite][1..]);
    }
    assert [HostWrites, FinishWrite][1..] == [FinishWrite];
    assert ValidRun(sent, [HostWrites, FinishWrite]) && End(sent, [HostWrites, FinishWrite]) == end;
    assert [SendWrite, HostWrites, FinishWrite][1..] == [HostWrites, FinishWrite];
    assert ValidRun(begun, [SendWrite, HostWrites, FinishWrite])
        && End(begun, [SendWrite, HostWrites, FinishWrite]) == end;
    assert [BeginWrite(path, bytes), SendWrite, HostWrites, FinishWrite][1..] == [SendWrite, HostWrites, FinishWrite];
  }

  lemma CompletesStale(s: State, path: Path, i: nat)
    requires i < |s.flights| && s.flights[i].path == path && s.flights[i].answer.Answered?
    requires path in s.client.cache && s.client.cache[path].generation == s.flights[i].generation
    ensures Enabled(s, CompleteRefresh(i))
    ensures var end := Apply(s, CompleteRefresh(i));
            && end.host == s.host && end.returned == s.returned && path in end.client.cache
            && end.client.cache[path].version == s.flights[i].answer.doc.version
  {
  }

  /** The hypotheses of that can come about: two readers that missed, an old entry, its refresh, and the drop. */
  lemma DropInFlightIsReachable(host: Host, path: Path) returns (s: State, steps: seq<Step>)
    ensures Init(s) && s.host == host && ValidRun(s, steps)
    ensures var end := End(s, steps);
            && path !in end.client.cache && end.client.remote && end.task.Idle? && |end.flights| == 1
            && end.flights[0].path == path && end.flights[0].generation == 1
            && end.flights[0].answer.Answered? && Held(end.host, path, end.flights[0].answer.doc)
  {
    s := State(host, Client(true, map[], map[]), [], Idle, map[]);
    var end;
    steps, end := Raise(s, path, 1);
    hide ValidRun, End;
    steps := Append(s, steps, HitCache(path, true));
    steps := Append(s, steps, AnswerRefresh(0, true));
    steps := Append(s, steps, DropDirectory(path));
  }

  /** Without the condition on drops, reading your own writes fails: a run from the start that ends with stale bytes. */
  lemma ReadYourWritesFailsAfterADrop(host: Host, path: Path, bytes: Bytes) returns (s: State, steps: seq<Step>)
    ensures Init(s) && s.host == host && ValidRun(s, steps)
    ensures var end := End(s, steps);
            && path in end.client.cache
            && Current(end.host, path).bytes == Some(bytes)
            && end.client.cache[path].version < Returned(end, path) == Current(end.host, path).version
  {
    hide ValidRun, End, Apply, Enabled;
    var first, rest;
    s, first := DropInFlightIsReachable(host, path);
    rest := DropInFlightUndoesAWrite(End(s, first), path, 0, bytes);
    RunConcat(s, first, rest);
    steps := first + rest;
  }

  // ---- Writing after a directory was removed ----

  /** The step records or forgets the revision of `path`. */
  ghost predicate Records(s: State, step: Step, path: Path) {
    || (step.FinishRead? && s.task.ReadAnswered? && s.task.path == path)
    || (step.FinishWrite? && s.task.WriteAcked? && s.task.path == path)
    || (step.FinishRemove? && s.task.RemoveAcked? && s.task.path == path)
    || (step.FinishRename? && RenameCovers(s, path))
  }

  ghost predicate Unrecorded(s: State, steps: seq<Step>, path: Path)
    requires ValidRun(s, steps)
    decreases |steps|
  {
    steps == [] || (!Records(s, steps[0], path) && Unrecorded(Apply(s, steps[0]), steps[1..], path))
  }

  ghost predicate Remembers(s: State, path: Path, known: Option<Revision>) {
    path !in s.client.cache && path in s.client.revisions && s.client.revisions[path] == known
  }

  /** A write of `path` on its way is conditional on the remembered revision. */
  ghost predicate Conditional(s: State, path: Path, known: Option<Revision>) {
    s.task.WriteSent? && s.task.path == path ==> s.task.expected == known
  }

  lemma StepRemembers(s: State, step: Step, path: Path, known: Option<Revision>)
    requires Enabled(s, step) && !Records(s, step, path) && Remembers(s, path, known)
    ensures Remembers(Apply(s, step), path, known)
    ensures Conditional(s, path, known) || step == SendWrite ==> Conditional(Apply(s, step), path, known)
  {
  }

  lemma {:induction false} RunRemembers(s: State, steps: seq<Step>, path: Path, known: Option<Revision>)
    requires ValidRun(s, steps) && Unrecorded(s, steps, path) && Remembers(s, path, known)
    ensures Remembers(End(s, steps), path, known)
    ensures Conditional(s, path, known) || SendWrite in steps ==> Conditional(End(s, steps), path, known)
    decreases |steps|
  {
    hide Apply, Enabled, Records, Remembers, Conditional;
    if steps != [] {
      StepRemembers(s, steps[0], path, known);
      RunRemembers(Apply(s, steps[0]), steps[1..], path, known);
    }
  }

  /**
    `remove_directory` forgets the cached entry but not the known revision. Until a step records or forgets the
    revision of `path`, and whatever else happens, every write sent for it after that is accepted by the Host if and
    only if the remembered revision is that of the Host's current document.
   */
  lemma WriteAfterRemoveDirectoryLandsExactly(s: State, dir: Path, later: seq<Step>, path: Path)
    requires Under(dir, path) && path in s.client.revisions
    requires var dropped := Apply(s, DropDirectory(dir)); ValidRun(dropped, later) && Unrecorded(dropped, later, path)
    ensures var end := End(Apply(s, DropDirectory(dir)), later);
            end.task.WriteSent? && end.task.path == path
            && (SendWrite in later || !(s.task.WriteSent? && s.task.path == path)) ==>
              (Enabled(end, HostWrites) <==> s.client.revisions[path] == RevisionOf(Current(end.host, path).bytes))
  {
    var dropped := Apply(s, DropDirectory(dir));
    RunRemembers(dropped, later, path, s.client.revisions[path]);
  }

  /** A run from the start to such a write that is refused: the directory was read, and is gone from the Host too. */
  lemma RemovedDirectoryBlocksAWrite(path: Path, content: Bytes, bytes: Bytes) returns (s: State, steps: seq<Step>)
    ensures Init(s) && ValidRun(s, steps)
    ensures var end := End(s, steps);
            && end.task.WriteSent? && end.task.path == path && end.task.bytes == bytes
            && Current(end.host, path).bytes == None && !Enabled(end, HostWrites)
  {
    s := State(map[path := [Some(content)]], Client(true, map[], map[]), [], Idle, map[]);
    var end;
    steps, end := Raise(s, path, 0);
    assert Current(s.host, path).bytes == Some(content);
    var gone := Apply(end, HostMoves(Put(end.host, path, None)));
    var sent := SendAfterRemoval(gone, path, bytes);
    hide ValidRun, End, Apply, Enabled;
    steps := Append(s, steps, HostMoves(Put(end.host, path, None)));
    steps := Append(s, steps, DropDirectory(path));
    steps := Append(s, steps, BeginWrite(path, bytes));
    steps := Append(s, steps, SendWrite);
  }

  lemma SendAfterRemoval(s: State, path: Path, bytes: Bytes) returns (sent: State)
    requires s.task.Idle? && path in s.client.revisions && s.client.revisions[path].Some?
    requires Current(s.host, path).bytes == None
    ensures Enabled(s, DropDirectory(path))
    ensures Enabled(Apply(s, DropDirectory(path)), BeginWrite(path, bytes))
    ensures Enabled(Apply(Apply(s, DropDirectory(path)), BeginWrite(path, bytes)), SendWrite)
    ensures sent == Apply(Apply(Apply(s, DropDirectory(path)), BeginWrite(path, bytes)), SendWrite)
    ensures sent.task.WriteSent? && sent.task.path == path && sent.task.bytes == bytes
    ensures sent.host == s.host && !Enabled(sent, HostWrites)
  {
    sent := Apply(Apply(Apply(s, DropDirectory(path)), BeginWrite(path, bytes)), SendWrite);
  }

  /** One direct read of the document makes writes land again, whatever was remembered. */
  lemma ReadLetsWritesLand(s: State, path: Path, bytes: Bytes) returns (steps: seq<Step>, end: State)
    requires s.task.Idle? && s.client.remote && path !in s.client.cache
    ensures ValidRun(s, steps) && End(s, steps) == end
    ensures HistoryAt(end.host, path) == HistoryAt(s.host, path) + [Some(bytes)]
    ensures Returned(end, path) == |HistoryAt(s.host, path)|
  {
    hide Apply, Enabled, HistoryAt;
    var read, mid := Raise(s, path, 0);
    hide ValidRun, End;
    var write;
    write, end := WriteLands(mid, path, bytes);
    RunConcat(s, read, write);
    steps := read + write;
  }
}
