/**
  The remote configuration cache (src/host_storage.rs).

  The in-memory part of `HostStorage` is the class at the end of this file. Every critical section is
  one method, proved against a function on `Client` values; the protocol in config_cache_protocol.dfy
  interleaves those same functions with Host answers and background refreshes.

  `version` fields are history variables: they count the changes of a document on the Host and are
  never read by the code.
 */
module ConfigCache {
  import opened Wrappers

  /** A client path as its components, so that `starts_with` is the prefix order. */
  type Path = seq<string>
  type Bytes = seq<bv8>

  /** The Host names a document's revision by the SHA-256 of its content; collisions are not modelled. */
  datatype Revision = Sha256(content: Bytes)

  /** A document as the Host held it at one version; `None` when it did not exist. */
  datatype Doc = Doc(version: nat, bytes: Option<Bytes>)

  datatype Entry = Entry(
    bytes: Option<Bytes>,
    revision: Option<Revision>,
    version: nat,
    refreshing: bool,
    generation: nat)

  datatype Answer = Waiting | Answered(doc: Doc) | Failed

  /** A background refresh between its launch and its completion. */
  datatype Flight = Flight(path: Path, generation: nat, answer: Answer)

  datatype Client = Client(
    remote: bool,
    revisions: map<Path, Option<Revision>>,
    cache: map<Path, Entry>)

  function RevisionOf(bytes: Option<Bytes>): Option<Revision> {
    match bytes
    case None => None
    case Some(content) => Some(Sha256(content))
  }

  predicate Under(dir: Path, path: Path) {
    dir <= path
  }

  function NextGeneration(cache: map<Path, Entry>, path: Path): nat {
    if path in cache then cache[path].generation + 1 else 0
  }

  function Insert(c: Client, path: Path, doc: Doc): Client {
    if c.remote then
      c.(cache := c.cache[path :=
        Entry(doc.bytes, RevisionOf(doc.bytes), doc.version, false, NextGeneration(c.cache, path))])
    else c
  }

  /** A direct answer is recorded both as the known revision and in the cache. */
  function Record(c: Client, path: Path, doc: Doc): Client {
    Insert(c.(revisions := c.revisions[path := RevisionOf(doc.bytes)]), path, doc)
  }

  /** `write` prefers the cached revision: a background refresh may have seen a newer one. */
  function ExpectedRevision(c: Client, path: Path): Option<Revision> {
    if path in c.cache then c.cache[path].revision
    else if path in c.revisions then c.revisions[path]
    else None
  }

  predicate CanLaunch(c: Client, path: Path) {
    path in c.cache && !c.cache[path].refreshing
  }

  function Launch(c: Client, path: Path): Client
    requires path in c.cache
  {
    c.(cache := c.cache[path := c.cache[path].(refreshing := true)])
  }

  function Launched(c: Client, path: Path): Flight
    requires path in c.cache
  {
    Flight(path, c.cache[path].generation, Waiting)
  }

  function LaunchAll(c: Client): Client {
    c.(cache := map path | path in c.cache :: c.cache[path].(refreshing := true))
  }

  /** `pending` lists, once each and in any order, the refreshes a change notification launches. */
  ghost predicate ListsIdle(cache: map<Path, Entry>, pending: seq<Flight>) {
    && (forall i :: 0 <= i < |pending| ==>
          && pending[i].path in cache
          && !cache[pending[i].path].refreshing
          && pending[i] == Flight(pending[i].path, cache[pending[i].path].generation, Waiting))
    && (forall i, j :: 0 <= i < j < |pending| ==> pending[i].path != pending[j].path)
    && (forall path :: path in cache && !cache[path].refreshing ==>
          exists i :: 0 <= i < |pending| && pending[i].path == path)
  }

  /** A completed refresh is applied only to the generation it was launched for. */
  function Complete(c: Client, flight: Flight): Client {
    if flight.path !in c.cache || c.cache[flight.path].generation != flight.generation then c
    else
      var settled := c.cache[flight.path].(refreshing := false);
      match flight.answer
      case Answered(doc) =>
        c.(cache := c.cache[flight.path :=
          settled.(bytes := doc.bytes, revision := RevisionOf(doc.bytes), version := doc.version)])
      case _ => c.(cache := c.cache[flight.path := settled])
  }

  function DropCached(c: Client, dir: Path): Client {
    c.(cache := map path | path in c.cache && !Under(dir, path) :: c.cache[path])
  }

  function DropRenamed(c: Client, source: Path, target: Path): Client {
    c.(revisions := map path | path in c.revisions && !Under(source, path) && !Under(target, path) :: c.revisions[path],
       cache := map path | path in c.cache && !Under(source, path) && !Under(target, path) :: c.cache[path])
  }

  // ---- What lies in a directory ----

  /** The path is the directory's own, or begins with all of its components. */
  predicate Inside(dir: Path, path: Path) {
    |dir| <= |path| && forall i :: 0 <= i < |dir| ==> path[i] == dir[i]
  }

  lemma UnderMeansInside(dir: Path, path: Path)
    ensures Under(dir, path) <==> Inside(dir, path)
    ensures Under(dir, path) <==> exists rest: Path :: path == dir + rest
  {
    if Inside(dir, path) {
      assert path == dir + path[|dir|..];
    }
  }

  /** Removing a directory forgets what is cached at it and anywhere below it, and nothing else. */
  lemma RemovalForgetsWhatIsInside(c: Client, dir: Path)
    ensures var left := DropCached(c, dir);
            && left.remote == c.remote && left.revisions == c.revisions
            && (forall rest: Path :: dir + rest !in left.cache)
            && (forall path :: path in left.cache ==> path in c.cache && left.cache[path] == c.cache[path])
            && (forall path :: path in c.cache && !Inside(dir, path) ==> path in left.cache)
  {
    forall path ensures Under(dir, path) <==> Inside(dir, path) { UnderMeansInside(dir, path); }
    forall rest: Path ensures dir + rest !in DropCached(c, dir).cache { UnderMeansInside(dir, dir + rest); }
  }

  /** A rename forgets both under both names, cached documents and known revisions. */
  lemma RenameForgetsWhatIsInside(c: Client, source: Path, target: Path)
    ensures var left := DropRenamed(c, source, target);
            && left.remote == c.remote
            && (forall rest: Path :: source + rest !in left.cache && source + rest !in left.revisions)
            && (forall rest: Path :: target + rest !in left.cache && target + rest !in left.revisions)
            && (forall path :: path in left.cache ==> path in c.cache && left.cache[path] == c.cache[path])
            && (forall path :: path in left.revisions ==>
                  path in c.revisions && left.revisions[path] == c.revisions[path])
            && (forall path :: !Inside(source, path) && !Inside(target, path) ==>
                  (path in c.cache ==> path in left.cache) && (path in c.revisions ==> path in left.revisions))
  {
    var left := DropRenamed(c, source, target);
    forall path
      ensures (Under(source, path) <==> Inside(source, path)) && (Under(target, path) <==> Inside(target, path))
    {
      UnderMeansInside(source, path);
      UnderMeansInside(target, path);
    }
    forall rest: Path ensures source + rest !in left.cache && source + rest !in left.revisions {
      UnderMeansInside(source, source + rest);
    }
    forall rest: Path ensures target + rest !in left.cache && target + rest !in left.revisions {
      UnderMeansInside(target, target + rest);
    }
  }

  /** What holds of the cache and of the list of refreshes while `paths` are still to be visited. */
  ghost predicate Following(before: map<Path, Entry>, cache: map<Path, Entry>, paths: set<Path>, pending: seq<Flight>)
    requires paths <= before.Keys == cache.Keys
  {
    && (forall path :: path in cache ==>
          cache[path] == if path in paths then before[path] else before[path].(refreshing := true))
    && (forall i :: 0 <= i < |pending| ==>
          && pending[i].path in before
          && pending[i].path !in paths
          && !before[pending[i].path].refreshing
          && pending[i] == Flight(pending[i].path, before[pending[i].path].generation, Waiting))
    && (forall i, j :: 0 <= i < j < |pending| ==> pending[i].path != pending[j].path)
    && (forall path :: path in before && path !in paths && !before[path].refreshing ==>
          exists i :: 0 <= i < |pending| && pending[i].path == path)
  }

  lemma FollowOne(before: map<Path, Entry>, cache: map<Path, Entry>, paths: set<Path>, pending: seq<Flight>, path: Path)
    requires paths <= before.Keys == cache.Keys && path in paths && Following(before, cache, paths, pending)
    ensures if cache[path].refreshing then Following(before, cache, paths - {path}, pending)
            else Following(before, cache[path := cache[path].(refreshing := true)], paths - {path},
                           pending + [Flight(path, cache[path].generation, Waiting)])
  {
    if !cache[path].refreshing {
      var longer := pending + [Flight(path, cache[path].generation, Waiting)];
      assert longer[|pending|].path == path;
      assert forall i :: 0 <= i < |pending| ==> pending[i] == longer[i];
    }
  }

  class HostStorage {
    const remote: bool
    var configRevisions: map<Path, Option<Revision>>
    var configCache: map<Path, Entry>

    constructor (remote: bool)
      ensures View() == Client(remote, map[], map[])
    {
      this.remote := remote;
      configRevisions := map[];
      configCache := map[];
    }

    function View(): Client
      reads this
    {
      Client(remote, configRevisions, configCache)
    }

    /** `aged` stands for "fetched at least `CONFIG_REFRESH_AFTER` ago". */
    method CachedConfig(path: Path, aged: bool) returns (hit: Option<Option<Bytes>>, launched: Option<Flight>)
      modifies this`configCache
      ensures hit == if remote && path in old(configCache) then Some(old(configCache)[path].bytes) else None
      ensures if hit.Some? && aged && CanLaunch(old(View()), path)
              then launched == Some(Launched(old(View()), path)) && View() == Launch(old(View()), path)
              else launched == None && View() == old(View())
    {
      launched := None;
      if !remote || path !in configCache {
        return None, None;
      }
      var entry := configCache[path];
      if aged && !entry.refreshing {
        configCache := configCache[path := entry.(refreshing := true)];
        launched := Some(Flight(path, entry.generation, Waiting));
      }
      hit := Some(entry.bytes);
    }

    method CacheConfig(path: Path, doc: Doc)
      modifies this`configCache
      ensures View() == Insert(old(View()), path, doc)
    {
      if remote {
        var generation := 0;
        if path in configCache {
          generation := configCache[path].generation + 1;
        }
        configCache := configCache[path :=
          Entry(doc.bytes, RevisionOf(doc.bytes), doc.version, false, generation)];
      }
    }

    /** The end of `read_locked`, of a successful `write` and of a successful `remove_file`. */
    method RecordAnswer(path: Path, doc: Doc)
      modifies this
      ensures View() == Record(old(View()), path, doc)
    {
      configRevisions := configRevisions[path := RevisionOf(doc.bytes)];
      CacheConfig(path, doc);
    }

    /** One round of `follow_config_changes` after a change, a reconnect or a lag. */
    method FollowChange() returns (pending: seq<Flight>)
      modifies this`configCache
      ensures View() == LaunchAll(old(View()))
      ensures ListsIdle(old(configCache), pending)
    {
      pending := [];
      var paths := configCache.Keys;
      ghost var before := configCache;
      while paths != {}
        invariant paths <= before.Keys && configCache.Keys == before.Keys
        invariant Following(before, configCache, paths, pending)
      {
        var path :| path in paths;
        FollowOne(before, configCache, paths, pending, path);
        if !configCache[path].refreshing {
          pending := pending + [Flight(path, configCache[path].generation, Waiting)];
          configCache := configCache[path := configCache[path].(refreshing := true)];
        }
        paths := paths - {path};
      }
    }

    method CompleteRefresh(flight: Flight)
      modifies this`configCache
      ensures View() == Complete(old(View()), flight)
    {
      if flight.path !in configCache || configCache[flight.path].generation != flight.generation {
        return;
      }
      configCache := configCache[flight.path := configCache[flight.path].(refreshing := false)];
      if flight.answer.Answered? {
        var doc := flight.answer.doc;
        configCache := configCache[flight.path :=
          configCache[flight.path].(bytes := doc.bytes, revision := RevisionOf(doc.bytes), version := doc.version)];
      }
    }

    method RemoveDirectory(dir: Path)
      modifies this`configCache
      ensures View() == DropCached(old(View()), dir)
      ensures forall rest: Path :: dir + rest !in configCache
      ensures forall path :: path in old(configCache) && !Inside(dir, path) ==>
                path in configCache && configCache[path] == old(configCache)[path]
    {
      RemovalForgetsWhatIsInside(View(), dir);
      configCache := map path | path in configCache && !Under(dir, path) :: configCache[path];
    }

    method RenameDirectory(source: Path, target: Path)
      modifies this
      ensures View() == DropRenamed(old(View()), source, target)
      ensures forall rest: Path :: source + rest !in configCache && source + rest !in configRevisions
      ensures forall rest: Path :: target + rest !in configCache && target + rest !in configRevisions
      ensures forall path :: path in old(configCache) && !Inside(source, path) && !Inside(target, path) ==>
                path in configCache && configCache[path] == old(configCache)[path]
      ensures forall path :: path in old(configRevisions) && !Inside(source, path) && !Inside(target, path) ==>
                path in configRevisions && configRevisions[path] == old(configRevisions)[path]
    {
      RenameForgetsWhatIsInside(View(), source, target);
      configRevisions := map path | path in configRevisions && !Under(source, path) && !Under(target, path) ::
        configRevisions[path];
      configCache := map path | path in configCache && !Under(source, path) && !Under(target, path) ::
        configCache[path];
    }
  }
}
