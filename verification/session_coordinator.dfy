/**
  The session coordinator (src/session_coordinator.rs): which workspaces have an open view in this Client,
  which are still to be restored, and whether every window's edits are stored.
 */
module SessionCoordinator {
  import opened Wrappers

  type Id = string

  datatype Summary = Summary(id: Id, restoreOnStartup: bool)

  datatype Sync = Sync(unsynced: bool, error: Option<string>)

  const CLEAN := Sync(false, None)

  datatype ClaimError = AlreadyOpen

  function Restorable(workspaces: seq<Summary>): seq<Id> {
    if workspaces == [] then []
    else (if workspaces[0].restoreOnStartup then [workspaces[0].id] else []) + Restorable(workspaces[1..])
  }

  /** Workspaces are restored in the order in which they are listed, each that asks for it once per listing. */
  lemma {:induction false} RestorableInOrder(first: seq<Summary>, rest: seq<Summary>)
    ensures Restorable(first + rest) == Restorable(first) + Restorable(rest)
    decreases |first|
  {
    if first == [] {
      assert first + rest == rest;
    } else {
      RestorableInOrder(first[1..], rest);
      var opening := if first[0].restoreOnStartup then [first[0].id] else [];
      assert (first + rest)[0] == first[0] && (first + rest)[1..] == first[1..] + rest;
      var later := Restorable(first[1..]);
      assert opening + (later + Restorable(rest)) == opening + later + Restorable(rest);
    }
  }

  lemma RestorableAsks(summary: Summary)
    ensures Restorable([summary]) == if summary.restoreOnStartup then [summary.id] else []
  {
    assert [summary][1..] == [];
  }

  /** The pending ids but `id`, in order. */
  function Without(ids: seq<Id>, id: Id): (rest: seq<Id>)
    ensures forall x :: x in rest <==> x in ids && x != id
  {
    if ids == [] then [] else (if ids[0] == id then [] else [ids[0]]) + Without(ids[1..], id)
  }

  /** What stays pending keeps its order and its repetitions. */
  lemma {:induction false} WithoutInOrder(first: seq<Id>, rest: seq<Id>, id: Id)
    ensures Without(first + rest, id) == Without(first, id) + Without(rest, id)
    decreases |first|
  {
    if first == [] {
      assert first + rest == rest;
    } else {
      WithoutInOrder(first[1..], rest, id);
      var opening := if first[0] == id then [] else [first[0]];
      assert (first + rest)[0] == first[0] && (first + rest)[1..] == first[1..] + rest;
      var later := Without(first[1..], id);
      assert opening + (later + Without(rest, id)) == opening + later + Without(rest, id);
    }
  }

  lemma WithoutOne(other: Id, id: Id)
    ensures Without([other], id) == if other == id then [] else [other]
  {
    assert [other][1..] == [];
  }

  /** The id that a claim gets, when it gets one: `uuid` is the id that would be made up. */
  function Claimed(available: seq<Id>, preferred: Option<Id>, restoreExisting: bool, uuid: Id): Id {
    if preferred.Some? then preferred.value
    else if restoreExisting && available != [] then available[0]
    else uuid
  }

  function StillAvailable(available: seq<Id>, preferred: Option<Id>, restoreExisting: bool): seq<Id> {
    if preferred.Some? then Without(available, preferred.value)
    else if restoreExisting && available != [] then available[1..]
    else available
  }

  predicate Refused(views: map<Id, Sync>, preferred: Option<Id>) {
    preferred.Some? && preferred.value in views
  }

  // ---- The objects ----

  class Coordinator {
    var available: seq<Id>
    var views: map<Id, Sync>
    var historyInitialized: bool

    constructor (workspaces: seq<Summary>)
      ensures available == Restorable(workspaces) && views == map[] && historyInitialized == (workspaces != [])
    {
      available := Restorable(workspaces);
      views := map[];
      historyInitialized := workspaces != [];
    }

    /** A new view of the preferred workspace, of the next one to restore, or of a new one called `uuid`. */
    method Claim(preferred: Option<Id>, restoreExisting: bool, uuid: Id) returns (lease: Result<Lease, ClaimError>)
      modifies this
      ensures lease.Err? <==> Refused(old(views), preferred)
      ensures lease.Err? ==> unchanged(this)
      ensures lease.Ok? ==>
          && lease.value.coordinator == this
          && lease.value.id == Claimed(old(available), preferred, restoreExisting, uuid)
          && available == StillAvailable(old(available), preferred, restoreExisting)
          && views == old(views)[lease.value.id := CLEAN]
          && historyInitialized
    {
      var id;
      if preferred.Some? {
        if preferred.value in views {
          return Err(AlreadyOpen);
        }
        available := Without(available, preferred.value);
        id := preferred.value;
      } else if restoreExisting {
        if available != [] {
          id := available[0];
          available := available[1..];
        } else {
          id := uuid;
        }
      } else {
        id := uuid;
      }
      views := views[id := CLEAN];
      historyInitialized := true;
      var view := new Lease(id, this);
      lease := Ok(view);
    }

    method RemovePendingWorkspace(id: Id)
      modifies this
      ensures available == Without(old(available), id) && views == old(views)
      ensures historyInitialized == old(historyInitialized)
    {
      available := Without(available, id);
    }

    /** The views are kept in no order, so any of several errors may be the one reported. */
    method DocumentsSynced() returns (synced: Result<bool, string>)
      ensures Reports(synced, views)
    {
      if id :| id in views && views[id].error.Some? {
        return Err(views[id].error.value);
      }
      synced := Ok(forall id :: id in views ==> !views[id].unsynced);
    }
  }

  class Lease {
    const id: Id
    const coordinator: Coordinator

    constructor (id: Id, coordinator: Coordinator)
      ensures this.id == id && this.coordinator == coordinator
    {
      this.id := id;
      this.coordinator := coordinator;
    }

    method ReportDocuments(unsynced: bool, error: Option<string>)
      modifies coordinator
      ensures coordinator.views == Reported(old(coordinator.views), id, Sync(unsynced, error))
      ensures coordinator.available == old(coordinator.available)
      ensures coordinator.historyInitialized == old(coordinator.historyInitialized)
    {
      if id in coordinator.views {
        coordinator.views := coordinator.views[id := Sync(unsynced, error)];
      }
    }

    /** Closing the window. */
    method Drop()
      modifies coordinator
      ensures coordinator.views == old(coordinator.views) - {id}
      ensures coordinator.available == old(coordinator.available)
      ensures coordinator.historyInitialized == old(coordinator.historyInitialized)
    {
      coordinator.views := coordinator.views - {id};
    }
  }

  function Reported(views: map<Id, Sync>, id: Id, sync: Sync): map<Id, Sync> {
    if id in views then views[id := sync] else views
  }

  /** What `documents_synced` may answer. */
  ghost predicate Reports(synced: Result<bool, string>, views: map<Id, Sync>) {
    match synced
    case Err(error) => exists id :: id in views && views[id].error == Some(error)
    case Ok(stored) =>
      && (forall id :: id in views ==> views[id].error == None)
      && (stored <==> forall id :: id in views ==> !views[id].unsynced)
  }

  // ---- Windows coming and going ----

  /** A live lease has a handle, its id and what its window last reported. `claimed` holds every id ever leased. */
  datatype Holder = Holder(id: Id, sync: Sync)

  datatype State = State(
    available: seq<Id>,
    views: map<Id, Sync>,
    leases: map<nat, Holder>,
    next: nat,
    claimed: set<Id>)

  datatype Step =
    | Claim(preferred: Option<Id>, restoreExisting: bool, uuid: Id)
    | Report(handle: nat, sync: Sync)
    | Close(handle: nat)
    | RemovePending(id: Id)

  /** Only live leases report or close, and an id that is made up is new. */
  ghost predicate Enabled(s: State, step: Step) {
    match step
    case Claim(preferred, restoreExisting, uuid) =>
      preferred.None? && !(restoreExisting && s.available != []) ==> uuid !in s.views && uuid !in s.available
    case Report(handle, sync) => handle in s.leases
    case Close(handle) => handle in s.leases
    case RemovePending(id) => true
  }

  function Apply(s: State, step: Step): State
    requires Enabled(s, step)
  {
    match step
    case Claim(preferred, restoreExisting, uuid) =>
      if Refused(s.views, preferred) then s
      else
        var id := Claimed(s.available, preferred, restoreExisting, uuid);
        State(StillAvailable(s.available, preferred, restoreExisting), s.views[id := CLEAN],
              s.leases[s.next := Holder(id, CLEAN)], s.next + 1, s.claimed + {id})
    case Report(handle, sync) =>
      var id := s.leases[handle].id;
      s.(views := Reported(s.views, id, sync), leases := s.leases[handle := Holder(id, sync)])
    case Close(handle) =>
      s.(views := s.views - {s.leases[handle].id}, leases := s.leases - {handle})
    case RemovePending(id) => s.(available := Without(s.available, id))
  }

  /** A claim of a preferred workspace opens it unless it is open, and it is no longer to be restored. */
  lemma PreferredAlone(s: State, id: Id, restoreExisting: bool, uuid: Id)
    ensures Enabled(s, Claim(Some(id), restoreExisting, uuid))
    ensures Apply(s, Claim(Some(id), restoreExisting, uuid))
         == if id in s.views then s
            else State(Without(s.available, id), s.views[id := Sync(false, None)],
                       s.leases[s.next := Holder(id, Sync(false, None))], s.next + 1, s.claimed + {id})
  {
  }

  /** A restoring claim opens the first workspace that is pending; any other, and one when none is, makes one up. */
  lemma RestoringAlone(s: State, restoreExisting: bool, uuid: Id)
    requires Enabled(s, Claim(None, restoreExisting, uuid))
    ensures var restored := restoreExisting && s.available != [];
            var id := if restored then s.available[0] else uuid;
            Apply(s, Claim(None, restoreExisting, uuid))
            == State(if restored then s.available[1..] else s.available, s.views[id := Sync(false, None)],
                     s.leases[s.next := Holder(id, Sync(false, None))], s.next + 1, s.claimed + {id})
  {
  }

  /** A report and a closing concern the window's own view only, and a removal the pending workspaces only. */
  lemma WindowAlone(s: State, handle: nat, sync: Sync, id: Id)
    requires handle in s.leases && s.leases[handle].id in s.views
    ensures var own := s.leases[handle].id;
            && Apply(s, Report(handle, sync))
               == s.(views := s.views[own := sync], leases := s.leases[handle := Holder(own, sync)])
            && Apply(s, Close(handle)) == s.(views := s.views - {own}, leases := s.leases - {handle})
            && Apply(s, RemovePending(id)) == s.(available := Apply(s, RemovePending(id)).available)
            && forall other :: other in Apply(s, RemovePending(id)).available <==> other in s.available && other != id
  {
  }

  function Start(available: seq<Id>): State {
    State(available, map[], map[], 0, {})
  }

  ghost predicate ValidRun(s: State, steps: seq<Step>)
    decreases |steps|
  {
    steps == [] || (Enabled(s, steps[0]) && ValidRun(Apply(s, steps[0]), steps[1..]))
  }

  function End(s: State, steps: seq<Step>): State
    requires ValidRun(s, steps)
    decreases |steps|
  {
    if steps == [] then s else End(Apply(s, steps[0]), steps[1..])
  }

  // ---- What every run keeps ----

  predicate Distinct(ids: seq<Id>) {
    forall i, j :: 0 <= i < j < |ids| ==> ids[i] != ids[j]
  }

  ghost predicate UniqueLeases(s: State) {
    forall h, k :: h in s.leases && k in s.leases && h != k ==> s.leases[h].id != s.leases[k].id
  }

  /** The open views are the ids of the live leases, each with what its window last reported. */
  ghost predicate ViewsAreLeases(s: State) {
    && (forall h :: h in s.leases ==> s.leases[h].id in s.views && s.views[s.leases[h].id] == s.leases[h].sync)
    && (forall id :: id in s.views ==> exists h :: h in s.leases && s.leases[h].id == id)
  }

  ghost predicate PendingIsUnclaimed(s: State) {
    && Distinct(s.available)
    && (forall id :: id in s.available ==> id !in s.claimed)
    && (forall id :: id in s.views ==> id in s.claimed)
  }

  ghost predicate Inv(s: State) {
    && UniqueLeases(s) && ViewsAreLeases(s) && PendingIsUnclaimed(s)
    && (forall h :: h in s.leases ==> h < s.next)
  }

  lemma {:induction false} WithoutKeepsDistinct(ids: seq<Id>, id: Id)
    requires Distinct(ids)
    ensures Distinct(Without(ids, id))
  {
    if ids != [] {
      WithoutKeepsDistinct(ids[1..], id);
      var rest := Without(ids[1..], id);
      forall i | 0 <= i < |rest| ensures rest[i] != ids[0] {
        assert rest[i] in rest;
      }
    }
  }

  lemma PendingAfterClaim(s: State, step: Step)
    requires step.Claim? && Enabled(s, step) && PendingIsUnclaimed(s) && !Refused(s.views, step.preferred)
    ensures PendingIsUnclaimed(Apply(s, step))
    ensures Claimed(s.available, step.preferred, step.restoreExisting, step.uuid) !in s.views
  {
    if step.preferred.Some? {
      WithoutKeepsDistinct(s.available, step.preferred.value);
    } else if step.restoreExisting && s.available != [] {
      assert s.available[0] in s.available;
      forall x | x in s.available[1..] ensures x in s.available && x != s.available[0] {
        var i :| 0 <= i < |s.available[1..]| && s.available[1..][i] == x;
        assert s.available[i + 1] == x;
      }
    }
  }

  /** A new holder of an id that no view has. */
  lemma OpenedViewHasOneLease(s: State, s': State, id: Id)
    requires UniqueLeases(s) && ViewsAreLeases(s) && id !in s.views && s.next !in s.leases
    requires s'.views == s.views[id := CLEAN] && s'.leases == s.leases[s.next := Holder(id, CLEAN)]
    ensures UniqueLeases(s') && ViewsAreLeases(s')
  {
    forall x | x in s'.views ensures exists h :: h in s'.leases && s'.leases[h].id == x {
      if x == id {
        assert s'.leases[s.next].id == x;
      } else {
        var h :| h in s.leases && s.leases[h].id == x;
        assert s'.leases[h].id == x;
      }
    }
  }

  lemma ClaimKeeps(s: State, step: Step)
    requires step.Claim? && Inv(s) && Enabled(s, step)
    ensures Inv(Apply(s, step))
  {
    hide PendingIsUnclaimed, UniqueLeases, ViewsAreLeases, Claimed, StillAvailable;
    if !Refused(s.views, step.preferred) {
      PendingAfterClaim(s, step);
      OpenedViewHasOneLease(s, Apply(s, step), Claimed(s.available, step.preferred, step.restoreExisting, step.uuid));
    }
  }

  lemma ReportKeeps(s: State, step: Step)
    requires step.Report? && Inv(s) && Enabled(s, step)
    ensures Inv(Apply(s, step))
  {
    var s' := Apply(s, step);
    assert forall h :: h in s.leases <==> h in s'.leases;
    assert forall h :: h in s.leases ==> s'.leases[h].id == s.leases[h].id;
    forall x | x in s'.views ensures exists h :: h in s'.leases && s'.leases[h].id == x {
      var h :| h in s.leases && s.leases[h].id == x;
      assert s'.leases[h].id == x;
    }
  }

  lemma CloseKeeps(s: State, step: Step)
    requires step.Close? && Inv(s) && Enabled(s, step)
    ensures Inv(Apply(s, step))
  {
    var s' := Apply(s, step);
    forall x | x in s'.views ensures exists h :: h in s'.leases && s'.leases[h].id == x {
      var h :| h in s.leases && s.leases[h].id == x;
      assert s'.leases[h].id == x;
    }
  }

  lemma StepKeeps(s: State, step: Step)
    requires Inv(s) && Enabled(s, step)
    ensures Inv(Apply(s, step))
  {
    match step {
      case Claim(_, _, _) => ClaimKeeps(s, step);
      case Report(_, _) => ReportKeeps(s, step);
      case Close(_) => CloseKeeps(s, step);
      case RemovePending(id) => WithoutKeepsDistinct(s.available, id);
    }
  }

  lemma {:induction false} RunKeeps(s: State, steps: seq<Step>)
    requires ValidRun(s, steps) && Inv(s)
    ensures Inv(End(s, steps))
    decreases |steps|
  {
    hide Inv, Apply, Enabled;
    if steps != [] {
      StepKeeps(s, steps[0]);
      RunKeeps(Apply(s, steps[0]), steps[1..]);
    }
  }

  /**
    Given distinct ids to restore, no two windows ever hold one workspace, and a claimed one is never pending
    again.
   */
  lemma LeasesAreUnique(available: seq<Id>, steps: seq<Step>)
    requires Distinct(available) && ValidRun(Start(available), steps)
    ensures UniqueLeases(End(Start(available), steps)) && ViewsAreLeases(End(Start(available), steps))
    ensures PendingIsUnclaimed(End(Start(available), steps))
  {
    RunKeeps(Start(available), steps);
  }

  ghost predicate Failing(s: State) {
    exists h :: h in s.leases && s.leases[h].sync.error.Some?
  }

  lemma ErrorsAreReported(s: State, synced: Result<bool, string>)
    requires ViewsAreLeases(s) && Reports(synced, s.views)
    ensures synced.Err? <==> Failing(s)
    ensures synced.Err? ==> exists h :: h in s.leases && s.leases[h].sync.error == Some(synced.error)
  {
    if synced.Err? {
      var id :| id in s.views && s.views[id].error == Some(synced.error);
      var h :| h in s.leases && s.leases[h].id == id;
      assert s.leases[h].sync.error == Some(synced.error);
    } else {
      forall h | h in s.leases ensures s.leases[h].sync.error == None {
        assert s.leases[h].id in s.views;
      }
    }
  }

  lemma EditsAreReported(s: State, synced: Result<bool, string>)
    requires ViewsAreLeases(s) && Reports(synced, s.views) && synced.Ok?
    ensures synced.value <==> forall h :: h in s.leases ==> !s.leases[h].sync.unsynced
  {
    if synced.value {
      forall h | h in s.leases ensures !s.leases[h].sync.unsynced {
        assert s.leases[h].id in s.views;
      }
    } else {
      var id :| id in s.views && s.views[id].unsynced;
      var h :| h in s.leases && s.leases[h].id == id;
      assert s.leases[h].sync.unsynced;
    }
  }

  ghost predicate AllStored(s: State) {
    forall h :: h in s.leases ==> s.leases[h].sync == CLEAN
  }

  lemma CleanMeansBoth(s: State)
    ensures AllStored(s) <==> !Failing(s) && forall h :: h in s.leases ==> !s.leases[h].sync.unsynced
  {
  }

  /** `Ok(true)` is answered exactly when every live window last reported stored edits and no failure. */
  lemma SyncedMeansEveryWindowIs(available: seq<Id>, steps: seq<Step>, synced: Result<bool, string>)
    requires Distinct(available) && ValidRun(Start(available), steps)
    requires Reports(synced, End(Start(available), steps).views)
    ensures synced == Ok(true) <==> AllStored(End(Start(available), steps))
    ensures synced.Err? <==> Failing(End(Start(available), steps))
    ensures var leases := End(Start(available), steps).leases;
            synced.Err? ==> exists h :: h in leases && leases[h].sync.error == Some(synced.error)
  {
    hide Failing, AllStored, ViewsAreLeases, Reports, End, ValidRun;
    var end := End(Start(available), steps);
    LeasesAreUnique(available, steps);
    ErrorsAreReported(end, synced);
    CleanMeansBoth(end);
    if synced.Ok? { EditsAreReported(end, synced); }
  }

  // ---- Without distinct ids ----

  function Restores(n: nat): seq<Step> {
    seq(n, _ => Claim(None, true, ""))
  }

  ghost predicate StillLeased(s: State, end: State) {
    forall h :: h in s.leases && h < s.next ==> h in end.leases && end.leases[h] == s.leases[h]
  }

  ghost predicate LeasedInOrder(s: State, end: State, n: nat)
    requires n <= |s.available|
  {
    forall h: nat :: s.next <= h < s.next + n ==> h in end.leases && end.leases[h].id == s.available[h - s.next]
  }

  lemma {:induction false} RestoringInOrder(s: State, n: nat)
    requires n <= |s.available|
    ensures ValidRun(s, Restores(n))
    ensures StillLeased(s, End(s, Restores(n))) && LeasedInOrder(s, End(s, Restores(n)), n)
    decreases n
  {
    if n > 0 {
      var step := Claim(None, true, "");
      assert Restores(n)[0] == step && Restores(n)[1..] == Restores(n - 1);
      assert Enabled(s, step);
      RestoringAlone(s, true, "");
      var next := Apply(s, step);
      hide Apply, Enabled;
      RestoringInOrder(next, n - 1);
      OneMoreInOrder(s, next, End(next, Restores(n - 1)), n);
    }
  }

  lemma OneMoreInOrder(s: State, next: State, end: State, n: nat)
    requires 0 < n <= |s.available| && next.available == s.available[1..] && next.next == s.next + 1
    requires next.leases == s.leases[s.next := Holder(s.available[0], Sync(false, None))]
    requires StillLeased(next, end) && LeasedInOrder(next, end, n - 1)
    ensures StillLeased(s, end) && LeasedInOrder(s, end, n)
  {
    assert s.next in next.leases && s.next in end.leases;
    forall h: nat | s.next <= h < s.next + n ensures h in end.leases && end.leases[h].id == s.available[h - s.next] {
      if h > s.next { assert next.available[h - next.next] == s.available[h - s.next]; }
    }
  }

  lemma DuplicateIsLeasedTwice(available: seq<Id>, i: nat, j: nat)
    requires i < j < |available| && available[i] == available[j]
    ensures ValidRun(Start(available), Restores(j + 1)) && !UniqueLeases(End(Start(available), Restores(j + 1)))
  {
    hide End, ValidRun;
    RestoringInOrder(Start(available), j + 1);
    var end := End(Start(available), Restores(j + 1));
    assert i in end.leases && j in end.leases;
    assert end.leases[i].id == end.leases[j].id;
  }

  ghost predicate AlwaysUnique(available: seq<Id>) {
    forall steps :: ValidRun(Start(available), steps) ==> UniqueLeases(End(Start(available), steps))
  }

  /** Leases are unique in every run exactly when the ids to restore are distinct. */
  lemma UniqueExactlyWhenDistinct(available: seq<Id>)
    ensures AlwaysUnique(available) <==> Distinct(available)
  {
    if Distinct(available) {
      forall steps | ValidRun(Start(available), steps) ensures UniqueLeases(End(Start(available), steps)) {
        LeasesAreUnique(available, steps);
      }
    } else {
      var i, j :| 0 <= i < j < |available| && available[i] == available[j];
      DuplicateIsLeasedTwice(available, i, j);
    }
  }
}
