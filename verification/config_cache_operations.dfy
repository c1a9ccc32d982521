/**
  The operations of the remote configuration cache one at a time (src/host_storage.rs): what the steps of
  config_cache_protocol.dfy come to when nothing comes between them. A read, a write, a removal, a rename and a
  refresh are written out here on the Host's history, the cache and the known revisions.
 */
module ConfigCacheOperations {
  import opened Wrappers
  import opened ConfigCache
  import opened ConfigCacheProtocol

  /** What is cached after a direct answer: a new generation of the entry, with no refresh in flight. */
  function Fresher(cache: map<Path, Entry>, path: Path, version: nat, bytes: Option<Bytes>): Entry {
    var revision := if bytes.Some? then Some(Sha256(bytes.value)) else None;
    Entry(bytes, revision, version, false, if path in cache then cache[path].generation + 1 else 0)
  }

  /** A client on a remote storage that has learned directly what the Host holds at a version. */
  function Learned(c: Client, path: Path, version: nat, bytes: Option<Bytes>): Client {
    Client(
      c.remote,
      c.revisions[path := if bytes.Some? then Some(Sha256(bytes.value)) else None],
      if c.remote then c.cache[path := Fresher(c.cache, path, version, bytes)] else c.cache)
  }

  lemma RecordedIsLearned(c: Client, path: Path, version: nat, bytes: Option<Bytes>)
    ensures Record(c, path, Doc(version, bytes)) == Learned(c, path, version, bytes)
  {
  }

  lemma Runs(s: State, step: Step, rest: seq<Step>)
    requires Enabled(s, step) && ValidRun(Apply(s, step), rest)
    ensures ValidRun(s, [step] + rest) && End(s, [step] + rest) == End(Apply(s, step), rest)
  {
    assert ([step] + rest)[1..] == rest;
  }

  lemma RunsOne(s: State, step: Step)
    requires Enabled(s, step)
    ensures ValidRun(s, [step]) && End(s, [step]) == Apply(s, step)
  {
    assert [step][1..] == [];
  }

  lemma RunsTwo(s: State, a: Step, b: Step)
    requires Enabled(s, a) && Enabled(Apply(s, a), b)
    ensures ValidRun(s, [a, b]) && End(s, [a, b]) == Apply(Apply(s, a), b)
  {
    hide Apply, Enabled;
    RunsOne(Apply(s, a), b);
    Runs(s, a, [b]);
    assert [a] + [b] == [a, b];
  }

  lemma RunsThree(s: State, a: Step, b: Step, c: Step)
    requires Enabled(s, a) && Enabled(Apply(s, a), b) && Enabled(Apply(Apply(s, a), b), c)
    ensures ValidRun(s, [a, b, c]) && End(s, [a, b, c]) == Apply(Apply(Apply(s, a), b), c)
  {
    hide Apply, Enabled;
    RunsTwo(Apply(s, a), b, c);
    Runs(s, a, [b, c]);
    assert [a] + [b, c] == [a, b, c];
  }

  // ---- Reading ----

  /** A direct read learns the Host's current document. */
  lemma ReadAlone(s: State, path: Path)
    requires s.task == Idle
    ensures var steps := [BeginRead(path), AnswerRead, FinishRead];
            var history := HistoryAt(s.host, path);
            && ValidRun(s, steps)
            && End(s, steps) == s.(client := Learned(s.client, path, |history| - 1, history[|history| - 1]))
  {
    var history := HistoryAt(s.host, path);
    RecordedIsLearned(s.client, path, |history| - 1, history[|history| - 1]);
    hide Record, Learned, HistoryAt;
    RunsThree(s, BeginRead(path), AnswerRead, FinishRead);
    hide ValidRun, End;
  }

  // ---- Writing ----

  /** What the Host holds after one more version of a document. */
  ghost predicate Grown(before: Host, after: Host, path: Path, bytes: Option<Bytes>) {
    && HistoryAt(after, path) == HistoryAt(before, path) + [bytes]
    && forall other :: other != path ==> HistoryAt(after, other) == HistoryAt(before, other)
  }

  lemma PutIsGrown(host: Host, path: Path, bytes: Option<Bytes>)
    ensures Grown(host, Put(host, path, bytes), path, bytes)
  {
  }

  /** The revision that a write is made with: that of the cached document, or else the one that is known. */
  function Basis(c: Client, path: Path): Option<Revision>
    requires path in c.revisions
  {
    if path in c.cache then c.cache[path].revision else c.revisions[path]
  }

  /** A write with a known revision is accepted exactly when it is made with that of the Host's current document. */
  lemma WriteIsSent(s: State, path: Path, bytes: Bytes)
    requires s.task == Idle && path in s.client.revisions
    ensures var steps := [BeginWrite(path, bytes), SendWrite];
            var current := HistoryAt(s.host, path)[|HistoryAt(s.host, path)| - 1];
            && ValidRun(s, steps)
            && End(s, steps) == s.(task := WriteSent(path, bytes, Basis(s.client, path)))
            && (Enabled(End(s, steps), HostWrites)
                <==> Basis(s.client, path) == if current.Some? then Some(Sha256(current.value)) else None)
  {
    hide HistoryAt;
    RunsTwo(s, BeginWrite(path, bytes), SendWrite);
    hide ValidRun, End;
  }

  lemma HostWritesDoes(s: State, path: Path, bytes: Bytes)
    requires s.task == WriteSent(path, bytes, RevisionOf(Current(s.host, path).bytes))
    ensures Enabled(s, HostWrites)
    ensures Apply(s, HostWrites)
         == s.(host := Put(s.host, path, Some(bytes)), task := WriteAcked(path, bytes, |HistoryAt(s.host, path)|))
  {
    hide HistoryAt, Put;
  }

  lemma FinishWriteDoes(s: State, path: Path, bytes: Bytes, n: nat)
    requires s.task == WriteAcked(path, bytes, n)
    ensures Enabled(s, FinishWrite)
    ensures Apply(s, FinishWrite)
         == s.(client := Learned(s.client, path, n, Some(bytes)), returned := s.returned[path := n], task := Idle)
  {
    RecordedIsLearned(s.client, path, n, Some(bytes));
    hide Record, Learned;
  }

  /** Then the Host has one version more, and the client has learned it. */
  lemma WriteAlone(s: State, path: Path, bytes: Bytes)
    requires s.task == WriteSent(path, bytes, RevisionOf(Current(s.host, path).bytes))
    ensures var steps := [HostWrites, FinishWrite];
            var n := |HistoryAt(s.host, path)|;
            && ValidRun(s, steps)
            && Grown(s.host, End(s, steps).host, path, Some(bytes))
            && End(s, steps) == s.(host := End(s, steps).host, client := Learned(s.client, path, n, Some(bytes)),
                                   returned := s.returned[path := n], task := Idle)
  {
    PutIsGrown(s.host, path, Some(bytes));
    HostWritesDoes(s, path, bytes);
    FinishWriteDoes(Apply(s, HostWrites), path, bytes, |HistoryAt(s.host, path)|);
    hide Apply, Enabled, Learned, HistoryAt, Put, Grown, ValidRun, End;
    RunsTwo(s, HostWrites, FinishWrite);
  }

  /** Without a known revision a write reads first; then nothing else can be in its way. */
  lemma FirstWriteReads(s: State, path: Path, bytes: Bytes)
    requires s.task == Idle && path !in s.client.revisions
    ensures var steps := [BeginWrite(path, bytes), AnswerRead, FinishRead];
            var history := HistoryAt(s.host, path);
            && ValidRun(s, steps)
            && End(s, steps) == s.(client := Learned(s.client, path, |history| - 1, history[|history| - 1]),
                                   task := WriteReady(path, bytes))
  {
    var history := HistoryAt(s.host, path);
    RecordedIsLearned(s.client, path, |history| - 1, history[|history| - 1]);
    hide Record, Learned, HistoryAt;
    RunsThree(s, BeginWrite(path, bytes), AnswerRead, FinishRead);
    hide ValidRun, End;
  }

  // ---- Removing ----

  /** A document that is known not to exist is not removed again; nothing is sent. */
  lemma NothingToRemove(s: State, path: Path)
    requires s.task == Idle && path in s.client.revisions && s.client.revisions[path] == None
    ensures ValidRun(s, [BeginRemove(path)]) && End(s, [BeginRemove(path)]) == s
  {
    RunsOne(s, BeginRemove(path));
    hide ValidRun, End;
  }

  /** A removal is made with the revision that is known, and is accepted exactly when that is the Host's. */
  lemma RemovalIsSent(s: State, path: Path)
    requires s.task == Idle && path in s.client.revisions && s.client.revisions[path].Some?
    ensures var current := HistoryAt(s.host, path)[|HistoryAt(s.host, path)| - 1];
            && ValidRun(s, [BeginRemove(path)])
            && End(s, [BeginRemove(path)]) == s.(task := RemoveSent(path, s.client.revisions[path].value))
            && (Enabled(End(s, [BeginRemove(path)]), HostRemoves)
                <==> s.client.revisions[path] == if current.Some? then Some(Sha256(current.value)) else None)
  {
    hide HistoryAt;
    RunsOne(s, BeginRemove(path));
    hide ValidRun, End;
  }

  lemma HostRemovesDoes(s: State, path: Path)
    requires s.task.RemoveSent? && s.task.path == path && Enabled(s, HostRemoves)
    ensures Apply(s, HostRemoves)
         == s.(host := Put(s.host, path, None), task := RemoveAcked(path, |HistoryAt(s.host, path)|))
  {
    hide HistoryAt, Put;
  }

  lemma FinishRemoveDoes(s: State, path: Path, n: nat)
    requires s.task == RemoveAcked(path, n)
    ensures Enabled(s, FinishRemove)
    ensures Apply(s, FinishRemove)
         == s.(client := Learned(s.client, path, n, None), returned := s.returned[path := n], task := Idle)
  {
    RecordedIsLearned(s.client, path, n, None);
    hide Record, Learned;
  }

  /** Then the Host has one version more, in which the document does not exist. */
  lemma RemoveAlone(s: State, path: Path)
    requires s.task.RemoveSent? && s.task.path == path && Enabled(s, HostRemoves)
    ensures var steps := [HostRemoves, FinishRemove];
            var n := |HistoryAt(s.host, path)|;
            && ValidRun(s, steps)
            && Grown(s.host, End(s, steps).host, path, None)
            && End(s, steps) == s.(host := End(s, steps).host, client := Learned(s.client, path, n, None),
                                   returned := s.returned[path := n], task := Idle)
  {
    PutIsGrown(s.host, path, None);
    HostRemovesDoes(s, path);
    FinishRemoveDoes(Apply(s, HostRemoves), path, |HistoryAt(s.host, path)|);
    hide Apply, Enabled, Learned, HistoryAt, Put, Grown, ValidRun, End;
    RunsTwo(s, HostRemoves, FinishRemove);
  }

  /** Without a known revision a removal reads first, and ends there when the document does not exist. */
  lemma FirstRemoveReads(s: State, path: Path)
    requires s.task == Idle && path !in s.client.revisions
    ensures var steps := [BeginRemove(path), AnswerRead, FinishRead];
            var history := HistoryAt(s.host, path);
            var current := history[|history| - 1];
            && ValidRun(s, steps)
            && End(s, steps) == s.(client := Learned(s.client, path, |history| - 1, current),
                                   task := if current.Some? then RemoveSent(path, Sha256(current.value)) else Idle)
  {
    var history := HistoryAt(s.host, path);
    RecordedIsLearned(s.client, path, |history| - 1, history[|history| - 1]);
    hide Record, Learned, HistoryAt;
    RunsThree(s, BeginRemove(path), AnswerRead, FinishRead);
    hide ValidRun, End;
  }

  // ---- Directories ----

  /** A rename changes the Host as the Host likes, and the client forgets all that is inside both names. */
  lemma RenameAlone(s: State, source: Path, target: Path, after: Host)
    requires s.task == Idle && Extends(s.host, after)
    ensures var steps := [BeginRename(source, target), HostRenames(after), FinishRename];
            && ValidRun(s, steps)
            && End(s, steps) == s.(host := after, client := End(s, steps).client)
            && End(s, steps).client == DropRenamed(s.client, source, target)
            && (forall path :: Inside(source, path) || Inside(target, path) ==>
                  path !in End(s, steps).client.cache && path !in End(s, steps).client.revisions)
  {
    RunsThree(s, BeginRename(source, target), HostRenames(after), FinishRename);
    hide ValidRun, End;
    forall path
      ensures (Under(source, path) <==> Inside(source, path)) && (Under(target, path) <==> Inside(target, path))
    {
      UnderMeansInside(source, path);
      UnderMeansInside(target, path);
    }
  }

  /** An operation whose request fails changes nothing. */
  lemma FailedAlone(s: State, step: Step)
    requires s.task == Idle && (step.BeginRead? || step.BeginRename?)
    ensures ValidRun(s, [step, FailTask]) && End(s, [step, FailTask]) == s
  {
    RunsTwo(s, step, FailTask);
    hide ValidRun, End;
  }

  // ---- Refreshing ----

  /** The entry that a refresh leaves: the Host's current document in the same generation, or what it was. */
  function Refreshed(s: State, path: Path, succeeds: bool): Entry
    requires path in s.client.cache
  {
    var history, entry := HistoryAt(s.host, path), s.client.cache[path];
    var current := history[|history| - 1];
    var revision := if current.Some? then Some(Sha256(current.value)) else None;
    if succeeds then Entry(current, revision, |history| - 1, false, entry.generation)
    else Entry(entry.bytes, entry.revision, entry.version, false, entry.generation)
  }

  lemma OldHitLaunches(s: State, path: Path)
    requires s.client.remote && path in s.client.cache && !s.client.cache[path].refreshing
    ensures Enabled(s, HitCache(path, true))
    ensures var entry := s.client.cache[path];
            Apply(s, HitCache(path, true))
            == s.(client := s.client.(cache := s.client.cache[path :=
                   Entry(entry.bytes, entry.revision, entry.version, true, entry.generation)]),
                  flights := s.flights + [Flight(path, entry.generation, Waiting)])
  {
  }

  function Reply(host: Host, path: Path, succeeds: bool): Answer {
    if succeeds then Answered(Current(host, path)) else Failed
  }

  lemma LastIsAnswered(s: State, before: seq<Flight>, path: Path, generation: nat, succeeds: bool)
    requires s.flights == before + [Flight(path, generation, Waiting)]
    ensures Enabled(s, AnswerRefresh(|before|, succeeds))
    ensures Apply(s, AnswerRefresh(|before|, succeeds))
         == s.(flights := before + [Flight(path, generation, Reply(s.host, path, succeeds))])
  {
    hide HistoryAt;
    var answered := Flight(path, generation, Reply(s.host, path, succeeds));
    assert s.flights[|before| := answered] == before + [answered];
  }

  lemma LastIsCompleted(s: State, before: seq<Flight>, path: Path, generation: nat, succeeds: bool)
    requires s.flights == before + [Flight(path, generation, Reply(s.host, path, succeeds))]
    requires path in s.client.cache && s.client.cache[path].generation == generation
    ensures Enabled(s, CompleteRefresh(|before|))
    ensures Apply(s, CompleteRefresh(|before|))
         == s.(client := s.client.(cache := s.client.cache[path := Refreshed(s, path, succeeds)]), flights := before)
  {
    hide HistoryAt;
    assert s.flights[..|before|] + s.flights[|before| + 1..] == before;
  }

  /** An old hit, its refresh and the answer change the one entry, and leave nothing in flight. */
  lemma RefreshAlone(s: State, path: Path, succeeds: bool)
    requires s.client.remote && path in s.client.cache && !s.client.cache[path].refreshing
    ensures var n := |s.flights|;
            var steps := [HitCache(path, true), AnswerRefresh(n, succeeds), CompleteRefresh(n)];
            && ValidRun(s, steps)
            && End(s, steps)
               == s.(client := s.client.(cache := s.client.cache[path := Refreshed(s, path, succeeds)]))
  {
    var n, generation := |s.flights|, s.client.cache[path].generation;
    OldHitLaunches(s, path);
    hide Apply, Enabled, ValidRun, End;
    var hit := Apply(s, HitCache(path, true));
    LastIsAnswered(hit, s.flights, path, generation, succeeds);
    var answered := Apply(hit, AnswerRefresh(n, succeeds));
    LastIsCompleted(answered, s.flights, path, generation, succeeds);
    assert Refreshed(answered, path, succeeds) == Refreshed(s, path, succeeds);
    hide Refreshed, Reply;
    RunsThree(s, HitCache(path, true), AnswerRefresh(n, succeeds), CompleteRefresh(n));
  }

  /** A hit that is not old, or whose refresh is under way, only reads. */
  lemma QuietHit(s: State, path: Path, aged: bool)
    requires s.client.remote && path in s.client.cache && (!aged || s.client.cache[path].refreshing)
    ensures Enabled(s, HitCache(path, aged)) && Apply(s, HitCache(path, aged)) == s
  {
  }

  /** A change notification marks every entry and has one refresh of its generation in flight for each that had none. */
  lemma NotifyAlone(s: State, pending: seq<Flight>)
    requires s.client.remote && ListsIdle(s.client.cache, pending)
    ensures Enabled(s, Notify(pending))
    ensures var after := Apply(s, Notify(pending));
            && after == s.(client := after.client, flights := s.flights + pending)
            && after.client.remote == s.client.remote && after.client.revisions == s.client.revisions
            && after.client.cache.Keys == s.client.cache.Keys
            && (forall path :: path in s.client.cache ==>
                  after.client.cache[path] == s.client.cache[path].(refreshing := true))
            && (forall path :: path in s.client.cache && !s.client.cache[path].refreshing ==>
                  Flight(path, s.client.cache[path].generation, Waiting) in pending)
            && (forall flight :: flight in pending ==>
                  flight.path in s.client.cache && !s.client.cache[flight.path].refreshing && flight.answer == Waiting)
  {
    forall path | path in s.client.cache && !s.client.cache[path].refreshing
      ensures Flight(path, s.client.cache[path].generation, Waiting) in pending
    {
      var i :| 0 <= i < |pending| && pending[i].path == path;
      assert pending[i] in pending;
    }
  }
}
