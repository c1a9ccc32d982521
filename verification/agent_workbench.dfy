/**
  The workbench as a listener of agent events (src/ui/workbench/agent_process_monitor.rs): when what it shows of the
  current Host epoch ends as the Client's cache, and which steps can spoil that. Over a lag it ignores the bridge's
  reset, it accepts no report twice, and a clearing does not make it accept one again.
 */
module AgentWorkbench {
  import opened Wrappers
  import opened AgentBridge

  // ---- One epoch ----

  /** How a listener of the current epoch hears an event. */
  function Tame(event: Event, epoch: nat): Event {
    match event
    case Updated(_, stamp) => if stamp.epoch == epoch then event else Other
    case Cleared(_) => event
    case Reset(_) => Other
    case Other => Other
  }

  function TameAll(events: seq<Event>, epoch: nat): (tamed: seq<Event>)
    ensures |tamed| == |events|
    ensures forall i :: 0 <= i < |events| ==> tamed[i] == Tame(events[i], epoch)
  {
    seq(|events|, i requires 0 <= i < |events| => Tame(events[i], epoch))
  }

  predicate Within(event: Event, epoch: nat) {
    match event
    case Updated(_, stamp) => 0 < stamp.epoch <= epoch
    case Reset(other) => other <= epoch
    case _ => true
  }

  ghost predicate AllWithin(events: seq<Event>, epoch: nat) {
    forall i :: 0 <= i < |events| ==> Within(events[i], epoch)
  }

  lemma {:induction false} TamedConcat(first: seq<Event>, rest: seq<Event>, epoch: nat)
    ensures TameAll(first + rest, epoch) == TameAll(first, epoch) + TameAll(rest, epoch)
  {
  }

  lemma TamedRemovals(events: seq<Event>, epoch: nat, session: Session)
    ensures Removed(TameAll(events, epoch), session) <==> Cleared(session) in events
  {
    var tamed := TameAll(events, epoch);
    forall i | 0 <= i < |events| ensures Removes(tamed[i], session) <==> events[i] == Cleared(session) {
      assert tamed[i] == Tame(events[i], epoch);
    }
    if Removed(tamed, session) {
      var i :| 0 <= i < |tamed| && Removes(tamed[i], session);
      assert events[i] == Cleared(session);
    }
    if Cleared(session) in events {
      var i :| 0 <= i < |events| && events[i] == Cleared(session);
      assert Removes(tamed[i], session);
    }
  }

  /** The reports of one epoch. */
  function Of(view: View, epoch: nat): View {
    map session | session in view && view[session].epoch == epoch :: view[session]
  }

  /** What the workbench knows of one epoch. */
  datatype Desk = Desk(cursors: View, shown: View)

  function Project(workbench: Workbench, epoch: nat): Desk {
    Desk(Of(workbench.cursors, epoch), Of(workbench.shown, epoch))
  }

  function Note(desk: Desk, event: Event): Desk {
    match event
    case Updated(session, stamp) =>
      if session in desk.cursors && !Newer(stamp, desk.cursors[session]) then desk
      else Desk(desk.cursors[session := stamp], desk.shown[session := stamp])
    case Cleared(session) => desk.(shown := desk.shown - {session})
    case _ => desk
  }

  function NoteAll(desk: Desk, events: seq<Event>): Desk
    decreases |events|
  {
    if events == [] then desk else NoteAll(Note(desk, events[0]), events[1..])
  }

  ghost predicate AllOf(view: View, epoch: nat) {
    forall session :: session in view ==> view[session].epoch == epoch
  }

  ghost predicate AllUpTo(view: View, epoch: nat) {
    forall session :: session in view ==> 0 < view[session].epoch <= epoch
  }

  /** What holds of a workbench that knows no epoch above `hostEpoch` and no report above `epoch`. */
  ghost predicate Kept(workbench: Workbench, epoch: nat, hostEpoch: nat) {
    && workbench.epoch <= hostEpoch
    && AllOf(workbench.cursors, workbench.epoch)
    && AllUpTo(workbench.cursors, epoch)
    && AllUpTo(workbench.shown, workbench.epoch)
    && AllUpTo(workbench.shown, epoch)
  }

  ghost predicate Known(event: Event, epoch: nat, hostEpoch: nat) {
    Within(event, hostEpoch) && (event.Updated? ==> event.stamp.epoch <= epoch)
  }

  lemma HearingKeeps(workbench: Workbench, event: Event, epoch: nat, hostEpoch: nat)
    requires Kept(workbench, epoch, hostEpoch) && Known(event, epoch, hostEpoch) && epoch <= hostEpoch
    ensures Kept(HearAtWork(workbench, event), epoch, hostEpoch)
  {
  }

  lemma OfIsEmpty(view: View, last: nat, epoch: nat)
    requires AllUpTo(view, last) && last < epoch
    ensures Of(view, epoch) == map[]
  {
  }

  lemma OfUpdated(view: View, session: Session, stamp: Stamp)
    ensures Of(view[session := stamp], stamp.epoch) == Of(view, stamp.epoch)[session := stamp]
  {
  }

  lemma OfCleared(view: View, session: Session, epoch: nat)
    ensures Of(view - {session}, epoch) == Of(view, epoch) - {session}
  {
  }

  lemma OldCursors(workbench: Workbench, epoch: nat)
    requires Kept(workbench, epoch, epoch) && workbench.epoch < epoch
    ensures Project(workbench, epoch) == Desk(map[], map[])
  {
    OfIsEmpty(workbench.shown, workbench.epoch, epoch);
    assert Of(workbench.cursors, epoch) == map[];
  }

  lemma HeedingKeepsProject(workbench: Workbench, other: nat, epoch: nat)
    requires Kept(workbench, epoch, epoch) && other <= epoch
    ensures Project(Heed(workbench, other), epoch) == Project(workbench, epoch)
  {
    hide Of;
    if workbench.epoch < other {
      OldCursors(workbench, epoch);
      OfAll(map[], epoch);
    }
  }

  lemma OldUpdate(workbench: Workbench, session: Session, stamp: Stamp, epoch: nat)
    requires Kept(workbench, epoch, epoch) && 0 < stamp.epoch < epoch
    ensures Project(HearAtWork(workbench, Updated(session, stamp)), epoch) == Project(workbench, epoch)
  {
    hide Of, Project;
    var heard := HearAtWork(workbench, Updated(session, stamp));
    if stamp.epoch >= workbench.epoch {
      assert Kept(heard, epoch, epoch);
      OldCursors(workbench, epoch);
      OldCursors(heard, epoch);
    }
  }

  lemma CurrentUpdate(workbench: Workbench, session: Session, stamp: Stamp, epoch: nat)
    requires Kept(workbench, epoch, epoch) && stamp.epoch == epoch
    ensures Project(HearAtWork(workbench, Updated(session, stamp)), epoch)
            == Note(Project(workbench, epoch), Updated(session, stamp))
  {
    hide Of;
    HeedingKeepsProject(workbench, epoch, epoch);
    var heeded := Heed(workbench, epoch);
    assert heeded.epoch == epoch;
    assert Of(heeded.cursors, epoch) == heeded.cursors by { OfAll(heeded.cursors, epoch); }
    OfUpdated(heeded.cursors, session, stamp);
    OfUpdated(heeded.shown, session, stamp);
  }

  lemma OfAll(view: View, epoch: nat)
    requires AllOf(view, epoch)
    ensures Of(view, epoch) == view
  {
  }

  /** What is heard of other epochs does not matter to the current one. */
  lemma ProjectHears(workbench: Workbench, event: Event, epoch: nat)
    requires Kept(workbench, epoch, epoch) && Within(event, epoch)
    ensures Project(HearAtWork(workbench, event), epoch) == Note(Project(workbench, epoch), Tame(event, epoch))
  {
    hide Of, Kept;
    match event
    case Updated(session, stamp) =>
      if stamp.epoch == epoch {
        CurrentUpdate(workbench, session, stamp, epoch);
      } else {
        OldUpdate(workbench, session, stamp, epoch);
      }
    case Cleared(session) => OfCleared(workbench.shown, session, epoch);
    case Reset(other) => HeedingKeepsProject(workbench, other, epoch);
    case Other =>
  }

  lemma {:induction false} ProjectHearsAll(workbench: Workbench, events: seq<Event>, epoch: nat)
    requires Kept(workbench, epoch, epoch) && AllWithin(events, epoch)
    ensures Project(HearAllAtWork(workbench, events), epoch)
        == NoteAll(Project(workbench, epoch), TameAll(events, epoch))
    decreases |events|
  {
    hide HearAtWork, Kept, Project, Note, Tame;
    if events != [] {
      assert Within(events[0], epoch);
      assert AllWithin(events[1..], epoch);
      assert TameAll(events, epoch)[1..] == TameAll(events[1..], epoch);
      ProjectHears(workbench, events[0], epoch);
      KeptIsKnown(events[0], epoch);
      HearingKeeps(workbench, events[0], epoch, epoch);
      ProjectHearsAll(HearAtWork(workbench, events[0]), events[1..], epoch);
    }
  }

  lemma KeptIsKnown(event: Event, epoch: nat)
    requires Within(event, epoch)
    ensures Known(event, epoch, epoch)
  {
  }

  lemma {:induction false} NoteAllConcat(desk: Desk, first: seq<Event>, rest: seq<Event>)
    ensures NoteAll(desk, first + rest) == NoteAll(NoteAll(desk, first), rest)
    decreases |first|
  {
    hide Note;
    if first == [] {
      assert first + rest == rest;
    } else {
      assert (first + rest)[1..] == first[1..] + rest;
      NoteAllConcat(Note(desk, first[0]), first[1..], rest);
    }
  }

  // ---- One agent ----

  /** Of one agent: the newest report that was accepted, and the one that is shown. */
  datatype Spot = Spot(cursor: Option<Stamp>, shown: Option<Stamp>)

  function At(desk: Desk, session: Session): Spot {
    Spot(Get(desk.cursors, session), Get(desk.shown, session))
  }

  predicate Above(stamp: Stamp, known: Option<Stamp>) {
    known.None? || Newer(stamp, known.value)
  }

  function NoteOne(spot: Spot, session: Session, event: Event): Spot {
    match event
    case Updated(other, stamp) =>
      if other == session && Above(stamp, spot.cursor) then Spot(Some(stamp), Some(stamp)) else spot
    case Cleared(other) => if other == session then spot.(shown := None) else spot
    case _ => spot
  }

  function NoteOneAll(spot: Spot, session: Session, events: seq<Event>): Spot
    decreases |events|
  {
    if events == [] then spot else NoteOneAll(NoteOne(spot, session, events[0]), session, events[1..])
  }

  lemma {:induction false} NotedOne(desk: Desk, events: seq<Event>, session: Session)
    ensures At(NoteAll(desk, events), session) == NoteOneAll(At(desk, session), session, events)
    decreases |events|
  {
    if events != [] { NotedOne(Note(desk, events[0]), events[1..], session); }
  }

  lemma {:induction false} NoteOneAllConcat(spot: Spot, session: Session, first: seq<Event>, rest: seq<Event>)
    ensures NoteOneAll(spot, session, first + rest) == NoteOneAll(NoteOneAll(spot, session, first), session, rest)
    decreases |first|
  {
    hide NoteOne;
    if first == [] {
      assert first + rest == rest;
    } else {
      assert (first + rest)[1..] == first[1..] + rest;
      NoteOneAllConcat(NoteOne(spot, session, first[0]), session, first[1..], rest);
    }
  }

  /** A report is accepted after all if and only if it is newer than the cursor and than every report before it. */
  lemma {:induction false} AcceptedExactly(spot: Spot, session: Session, events: seq<Event>, stamp: Stamp)
    ensures Above(stamp, NoteOneAll(spot, session, events).cursor)
            <==> Above(stamp, spot.cursor) && forall e :: e in events && e.Updated? && e.session == session ==>
              Newer(stamp, e.stamp)
    decreases |events|
  {
    if events != [] {
      var first, rest := events[0], events[1..];
      assert forall e :: e in events <==> e == first || e in rest;
      AcceptedExactly(NoteOne(spot, session, first), session, rest, stamp);
    }
  }

  /** Only reports that are not above the cursor: nothing changes. */
  lemma {:induction false} AllRefused(spot: Spot, session: Session, events: seq<Event>)
    requires !Removed(events, session)
    requires forall e :: e in events && e.Updated? && e.session == session ==> !Above(e.stamp, spot.cursor)
    ensures NoteOneAll(spot, session, events) == spot
    decreases |events|
  {
    if events != [] {
      var first, rest := events[0], events[1..];
      assert first in events && !Removes(first, session);
      forall i | 0 <= i < |rest| ensures !Removes(rest[i], session) && rest[i] in events {
        assert rest[i] == events[i + 1];
      }
      AllRefused(spot, session, rest);
    }
  }

  /** The agent's cursor is at the cached report or above it, if there is one. */
  predicate Covers(cursor: Option<Stamp>, cached: Option<Stamp>) {
    cached.Some? ==> !Above(cached.value, cursor)
  }

  lemma NotNewIsRefused(cursor: Option<Stamp>, cached: Option<Stamp>, session: Session, events: seq<Event>,
      start: Option<Stamp>)
    requires !Removed(events, session) && Covers(cursor, cached)
    requires OneAll(start, session, events) == cached && (start == cached || start == None)
    ensures forall e :: e in events && e.Updated? && e.session == session ==> !Above(e.stamp, cursor)
  {
    NewestCounts(start, session, events);
    NewestIsReported(session, events);
    forall e | e in events && e.Updated? && e.session == session ensures !Above(e.stamp, cursor) {
      assert Updated(session, e.stamp) in events;
    }
  }

  lemma RemovedLater(events: seq<Event>, session: Session)
    requires Removed(events, session) && !Removes(events[0], session)
    ensures Removed(events[1..], session)
  {
    var i :| 0 <= i < |events| && Removes(events[i], session);
    assert events[1..][i - 1] == events[i];
  }

  /** A clearing that is heard after the newest report was accepted is the end of it. */
  lemma {:induction false} ClearingStays(spot: Spot, start: Option<Stamp>, cached: Option<Stamp>, session: Session,
      events: seq<Event>)
    requires Removed(events, session) && (forall i :: 0 <= i < |events| ==> !events[i].Reset?)
    requires Covers(spot.cursor, cached) && OneAll(start, session, events) == cached
    ensures NoteOneAll(spot, session, events).shown == None
    decreases |events|
  {
    var first, rest := events[0], events[1..];
    var next := NoteOne(spot, session, first);
    if !Removes(first, session) { RemovedLater(events, session); }
    if Removed(rest, session) {
      ClearingStays(next, One(start, session, first), cached, session, rest);
    } else {
      NotNewIsRefused(next.cursor, cached, session, rest, None);
      AllRefused(next, session, rest);
    }
  }

  // ---- What a replay comes to ----

  lemma {:induction false} SnapshotNoted(spot: Spot, cache: View, snapshot: seq<Event>, session: Session)
    requires forall e :: e in snapshot ==> e.Updated? && e.session in cache && e.stamp == cache[e.session]
    ensures NoteOneAll(spot, session, snapshot)
            == if (exists e :: e in snapshot && e.session == session) && Above(cache[session], spot.cursor)
               then Spot(Get(cache, session), Get(cache, session)) else spot
    decreases |snapshot|
  {
    if snapshot != [] {
      var first, rest := snapshot[0], snapshot[1..];
      assert first in snapshot;
      assert forall e :: e in snapshot <==> e == first || e in rest;
      SnapshotNoted(NoteOne(spot, session, first), cache, rest, session);
    }
  }

  /** What is shown of one agent after a snapshot of the cache and what is left. */
  lemma ReplayedOne(spot: Spot, cache: View, snapshot: seq<Event>, left: seq<Event>, session: Session)
    requires Lists(cache, snapshot) && (forall i :: 0 <= i < |left| ==> !left[i].Reset?)
    requires OneAll(Get(cache, session), session, left) == Get(cache, session)
    ensures NoteOneAll(spot, session, snapshot + left).shown
            == if Removed(left, session) then None
               else if session in cache && Above(cache[session], spot.cursor) then Some(cache[session])
               else spot.shown
  {
    hide NoteOne, OneAll;
    NoteOneAllConcat(spot, session, snapshot, left);
    SnapshotNoted(spot, cache, snapshot, session);
    var noted := NoteOneAll(spot, session, snapshot);
    if session in cache {
      assert Updated(session, cache[session]) in snapshot;
    }
    assert Covers(noted.cursor, Get(cache, session));
    if Removed(left, session) {
      ClearingStays(noted, Get(cache, session), Get(cache, session), session, left);
    } else {
      NotNewIsRefused(noted.cursor, Get(cache, session), session, left, Get(cache, session));
      AllRefused(noted, session, left);
    }
  }

  /**
    Every cached agent is not cleared by what is left, and its report is newer than the cursor or shown already; every
    agent of this epoch that is shown and not cached is cleared by what is left.
   */
  ghost predicate MadeUpFor(workbench: Workbench, cache: View, left: seq<Event>, epoch: nat) {
    && (forall session :: session in cache ==>
          && Cleared(session) !in left
          && (Above(cache[session], Get(workbench.cursors, session))
            || Get(workbench.shown, session) == Some(cache[session])))
    && (forall session :: session in workbench.shown && session !in cache && workbench.shown[session].epoch == epoch ==>
          Cleared(session) in left)
  }

  lemma AboveOlder(workbench: Workbench, epoch: nat, session: Session, stamp: Stamp)
    requires Kept(workbench, epoch, epoch) && stamp.epoch == epoch
    ensures Above(stamp, Get(Of(workbench.cursors, epoch), session)) <==> Above(stamp, Get(workbench.cursors, session))
    ensures Get(Of(workbench.shown, epoch), session) == Some(stamp) <==> Get(workbench.shown, session) == Some(stamp)
  {
  }

  lemma {:induction false} ReplayedExactly(
    workbench: Workbench, cache: View, snapshot: seq<Event>, left: seq<Event>, epoch: nat)
    requires Kept(workbench, epoch, epoch) && Lists(cache, snapshot) && AllOf(cache, epoch)
    requires HearAll(cache, TameAll(left, epoch)) == cache
    ensures NoteAll(Project(workbench, epoch), snapshot + TameAll(left, epoch)).shown == cache
            <==> MadeUpFor(workbench, cache, left, epoch)
  {
    hide NoteAll, NoteOneAll, HearAll, OneAll, Lists, Kept, MadeUpFor, Of;
    var desk, tamed := Project(workbench, epoch), TameAll(left, epoch);
    var shown := NoteAll(desk, snapshot + tamed).shown;
    forall session
      ensures Get(shown, session) == if Cleared(session) in left then None
                                     else if session in cache && Above(cache[session], Get(desk.cursors, session))
                                     then Some(cache[session]) else Get(desk.shown, session)
    {
      NotedOne(desk, snapshot + tamed, session);
      HeardOne(cache, tamed, session);
      TamedRemovals(left, epoch, session);
      ReplayedOne(At(desk, session), cache, snapshot, tamed, session);
    }
    ShownExactly(workbench, cache, left, epoch, shown);
  }

  lemma ShownExactly(workbench: Workbench, cache: View, left: seq<Event>, epoch: nat, shown: View)
    requires Kept(workbench, epoch, epoch) && AllOf(cache, epoch)
    requires var desk := Project(workbench, epoch);
             forall session :: Get(shown, session) == (if Cleared(session) in left then None
               else if session in cache && Above(cache[session], Get(desk.cursors, session))
               then Some(cache[session]) else Get(desk.shown, session))
    ensures shown == cache <==> MadeUpFor(workbench, cache, left, epoch)
  {
    hide Newer, Kept, Above;
    forall session | session in cache
      ensures Above(cache[session], Get(Project(workbench, epoch).cursors, session))
          <==> Above(cache[session], Get(workbench.cursors, session))
      ensures Get(Project(workbench, epoch).shown, session) == Some(cache[session])
          <==> Get(workbench.shown, session) == Some(cache[session])
    {
      AboveOlder(workbench, epoch, session, cache[session]);
    }
    if MadeUpFor(workbench, cache, left, epoch) {
      forall session ensures Get(shown, session) == Get(cache, session) {
      }
      SameViews(shown, cache);
    }
    if shown == cache {
      forall session | session in workbench.shown && session !in cache && workbench.shown[session].epoch == epoch
        ensures Cleared(session) in left
      {
        assert Get(shown, session) == Get(cache, session);
      }
      forall session | session in cache
        ensures Cleared(session) !in left
        ensures Above(cache[session], Get(workbench.cursors, session))
                || Get(workbench.shown, session) == Some(cache[session])
      {
        assert Get(shown, session) == Get(cache, session);
      }
    }
  }
}
