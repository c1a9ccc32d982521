/**
  The workbench over whole runs: exactly which steps spoil what it shows of the current Host epoch. A report is
  harmless when it is newer than all that the workbench has accepted or will hear; a reading of the cache, at the start
  or after a lag, is harmless when no clearing of a cached agent is still in the ring.
 */
module AgentWorkbenchRuns {
  import opened Wrappers
  import opened AgentBridge
  import opened AgentWorkbench

  // ---- What every step keeps: bounds ----

  /** Hearing the latest events again with the current epoch changes nothing. */
  ghost predicate StableNow(s: State) {
    forall p :: 0 <= p <= |s.log| ==> HearAll(s.cache, TameAll(From(s, p), s.epoch)) == s.cache
  }

  ghost predicate Bounded(s: State) {
    && Kept(s.workbench, s.epoch, s.hostEpoch)
    && AllOf(s.cache, s.epoch)
    && (s.epoch == 0 ==> s.cache == map[])
    && AllWithin(s.log, s.epoch)
    && (s.pending.Some? ==> Within(s.pending.value, s.epoch))
  }

  ghost predicate BoundedMode(s: State) {
    match s.mode
    case Asked(epoch) => epoch <= s.hostEpoch
    case Replaying(rest) => forall i :: 0 <= i < |rest| ==> Known(rest[i], s.epoch, s.hostEpoch)
    case Unsubscribed => s.workbench == Workbench(0, map[], map[])
    case Subscribed => s.workbench.cursors == map[] == s.workbench.shown
    case _ => true
  }

  /** Kept by every step, with or without lags. */
  ghost predicate Base(s: State) {
    Sound(s) && Bounded(s) && BoundedMode(s) && StableNow(s)
  }

  lemma SoundKept(s: State, step: Step)
    requires Sound(s) && Enabled(s, step)
    ensures Sound(Apply(s, step))
  {
  }

  lemma WithinMore(events: seq<Event>, epoch: nat, more: nat)
    requires AllWithin(events, epoch) && epoch <= more
    ensures AllWithin(events, more)
  {
    forall i | 0 <= i < |events| ensures Within(events[i], more) {
      assert Within(events[i], epoch);
    }
  }

  lemma KeptMore(workbench: Workbench, epoch: nat, hostEpoch: nat, more: nat, hostMore: nat)
    requires Kept(workbench, epoch, hostEpoch) && epoch <= more && hostEpoch <= hostMore
    ensures Kept(workbench, more, hostMore)
  {
  }

  lemma BoundedKept(s: State, step: Step)
    requires Sound(s) && Bounded(s) && BoundedMode(s) && Enabled(s, step)
    ensures Bounded(Apply(s, step))
  {
    hide HearAtWork, Hear, AllWithin, From, Kept, Lists;
    var s' := Apply(s, step);
    match step
    case Announce(epoch) =>
      WithinMore(s.log, s.epoch, s'.epoch);
      KeptMore(s.workbench, s.epoch, s.hostEpoch, s'.epoch, s'.hostEpoch);
    case Renew =>
      WithinMore(s.log, s.epoch, s.hostEpoch);
      KeptMore(s.workbench, s.epoch, s.hostEpoch, s.hostEpoch, s.hostEpoch);
    case Broadcast => AppendWithin(s.log, s.pending.value, s.epoch);
    case BroadcastOther => AppendWithin(s.log, Other, s.epoch);
    case Subscribe(connected) => FreshIsKept(s'.workbench, s.epoch, s.hostEpoch);
    case Receive(connected) =>
      LoggedIsKnown(s, s.pos);
      HearingKeeps(s.workbench, s.log[s.pos], s.epoch, s.hostEpoch);
    case Replay(connected) => HearingKeeps(s.workbench, s.mode.rest[0], s.epoch, s.hostEpoch);
    case _ =>
  }

  lemma FreshIsKept(workbench: Workbench, epoch: nat, hostEpoch: nat)
    requires workbench.cursors == map[] == workbench.shown && workbench.epoch <= hostEpoch
    ensures Kept(workbench, epoch, hostEpoch)
  {
  }

  lemma AppendWithin(events: seq<Event>, event: Event, epoch: nat)
    requires AllWithin(events, epoch) && Within(event, epoch)
    ensures AllWithin(events + [event], epoch)
  {
  }

  lemma LoggedIsKnown(s: State, i: nat)
    requires Sound(s) && AllWithin(s.log, s.epoch) && i < |s.log|
    ensures Known(s.log[i], s.epoch, s.hostEpoch)
  {
    assert Within(s.log[i], s.epoch);
  }

  lemma SnapshotKnown(cache: View, snapshot: seq<Event>, epoch: nat, hostEpoch: nat)
    requires Lists(cache, snapshot) && AllOf(cache, epoch) && (epoch == 0 ==> cache == map[]) && epoch <= hostEpoch
    ensures forall i :: 0 <= i < |snapshot| ==> Known(snapshot[i], epoch, hostEpoch)
    ensures TameAll(snapshot, epoch) == snapshot
  {
    forall i | 0 <= i < |snapshot|
      ensures Known(snapshot[i], epoch, hostEpoch) && Tame(snapshot[i], epoch) == snapshot[i]
    {
      assert snapshot[i] in snapshot;
    }
  }

  lemma BoundedModeKept(s: State, step: Step)
    requires Sound(s) && Bounded(s) && BoundedMode(s) && Enabled(s, step)
    ensures BoundedMode(Apply(s, step))
  {
    hide HearAtWork, Hear, Kept, AllWithin, Lists, From;
    var s' := Apply(s, step);
    match step
    case Announce(epoch) => KnownMore(s, s'.epoch, epoch);
    case Renew => KnownMore(s, s.hostEpoch, s.hostEpoch);
    case TakeSnapshot(snapshot) => SnapshotKnown(s.cache, snapshot, s.epoch, s.hostEpoch);
    case TakeInitial(snapshot) => SnapshotKnown(s.cache, snapshot, s.epoch, s.hostEpoch);
    case _ =>
  }

  lemma KnownMore(s: State, epoch: nat, hostEpoch: nat)
    requires BoundedMode(s) && s.epoch <= epoch && s.hostEpoch <= hostEpoch
    ensures s.mode.Replaying? ==> forall i :: 0 <= i < |s.mode.rest| ==> Known(s.mode.rest[i], epoch, hostEpoch)
  {
    if s.mode.Replaying? {
      forall i | 0 <= i < |s.mode.rest| ensures Known(s.mode.rest[i], epoch, hostEpoch) {
        assert Known(s.mode.rest[i], s.epoch, s.hostEpoch);
      }
    }
  }

  // ---- What every step keeps: hearing the latest events again changes nothing ----

  /** With a new epoch, everything broadcast before is old, and the cache is empty. */
  lemma {:induction false} OldIsQuiet(events: seq<Event>, last: nat, epoch: nat)
    requires AllWithin(events, last) && last < epoch
    ensures HearAll(map[], TameAll(events, epoch)) == map[]
    decreases |events|
  {
    if events != [] {
      assert Within(events[0], last);
      assert AllWithin(events[1..], last);
      assert TameAll(events, epoch)[1..] == TameAll(events[1..], epoch);
      OldIsQuiet(events[1..], last, epoch);
    }
  }

  lemma FromWithin(s: State, p: nat)
    requires Bounded(s) && p <= |s.log|
    ensures AllWithin(From(s, p), s.epoch)
  {
  }

  lemma TamedAppend(events: seq<Event>, event: Event, epoch: nat)
    ensures TameAll(events + [event], epoch) == TameAll(events, epoch) + [Tame(event, epoch)]
  {
  }

  lemma ChangeKeepsStableNow(s: State, step: Step)
    requires Sound(s) && Bounded(s) && StableNow(s) && Enabled(s, step) && Changes(step)
    ensures StableNow(Apply(s, step))
  {
    hide HearAll, From, TameAll, Bounded;
    var s' := Apply(s, step);
    forall p | 0 <= p <= |s.log| ensures HearAll(s'.cache, TameAll(From(s', p), s'.epoch)) == s'.cache {
      ChangeAdds(s, step, p);
      TamedAppend(From(s, p), s'.pending.value, s'.epoch);
      match step {
        case Accept(session, generation, sequence) =>
          AcceptedLasts(s.cache, session, Stamp(s.epoch, generation, sequence), TameAll(From(s, p), s.epoch));
        case Clear(session) => ClearedLasts(s.cache, session, TameAll(From(s, p), s.epoch));
        case Renew =>
          FromWithin(s, p);
          OldIsQuiet(From(s, p), s.epoch, s.hostEpoch);
          HearAllConcat(map[], TameAll(From(s, p), s'.epoch), [Other]);
          HearOne(map[], Other);
      }
    }
  }

  lemma AnnounceKeepsStableNow(s: State, epoch: nat)
    requires Sound(s) && Bounded(s) && StableNow(s) && Enabled(s, Announce(epoch))
    ensures StableNow(Apply(s, Announce(epoch)))
  {
    hide HearAll, From, TameAll;
    var s' := Apply(s, Announce(epoch));
    SameFrom(s, s');
    forall p | 0 <= p <= |s.log| ensures HearAll(s'.cache, TameAll(From(s', p), s'.epoch)) == s'.cache {
      if s'.epoch != s.epoch {
        FromWithin(s, p);
        OldIsQuiet(From(s, p), s.epoch, s'.epoch);
      }
    }
  }

  lemma BroadcastKeepsStableNow(s: State)
    requires Sound(s) && StableNow(s) && Enabled(s, Broadcast)
    ensures StableNow(Apply(s, Broadcast))
  {
    hide HearAll, From;
    var s' := Apply(s, Broadcast);
    forall p | 0 <= p <= |s'.log| ensures HearAll(s'.cache, TameAll(From(s', p), s'.epoch)) == s'.cache {
      if p <= |s.log| {
        BroadcastMoves(s, p);
      } else {
        NothingFrom(s');
        NothingHeard(s.cache);
        assert TameAll([], s.epoch) == [];
      }
    }
  }

  lemma OtherIsTame(first: seq<Event>, unsent: seq<Event>, epoch: nat)
    ensures TameAll(first + [Other] + unsent, epoch) == TameAll(first, epoch) + [Other] + TameAll(unsent, epoch)
    ensures TameAll(first + unsent, epoch) == TameAll(first, epoch) + TameAll(unsent, epoch)
  {
    TamedConcat(first + [Other], unsent, epoch);
    TamedAppend(first, Other, epoch);
    TamedConcat(first, unsent, epoch);
  }

  lemma BroadcastOtherKeepsStableNow(s: State)
    requires Sound(s) && StableNow(s) && Enabled(s, BroadcastOther)
    ensures StableNow(Apply(s, BroadcastOther))
  {
    hide HearAll, Unsent, TameAll;
    var s' := Apply(s, BroadcastOther);
    SameUnsent(s);
    forall p | 0 <= p <= |s'.log| ensures HearAll(s'.cache, TameAll(From(s', p), s'.epoch)) == s'.cache {
      if p <= |s.log| {
        OtherMoves(s, p);
        OtherIsTame(s.log[p..], Unsent(s), s.epoch);
        OtherIsNotHeard(s.cache, TameAll(s.log[p..], s.epoch), TameAll(Unsent(s), s.epoch));
        assert HearAll(s.cache, TameAll(From(s, p), s.epoch)) == s.cache;
      } else {
        assert s'.log[p..] == [] && s.log[|s.log|..] == [];
        assert From(s', p) == From(s, |s.log|);
      }
    }
  }

  lemma StableNowKept(s: State, step: Step)
    requires Sound(s) && Bounded(s) && StableNow(s) && Enabled(s, step)
    ensures StableNow(Apply(s, step))
  {
    if Changes(step) {
      ChangeKeepsStableNow(s, step);
    } else if step.Announce? {
      AnnounceKeepsStableNow(s, step.epoch);
    } else if step.Broadcast? {
      BroadcastKeepsStableNow(s);
    } else if step.BroadcastOther? {
      BroadcastOtherKeepsStableNow(s);
    } else {
      SameStableNow(s, step);
    }
  }

  lemma SameStableNow(s: State, step: Step)
    requires StableNow(s) && Enabled(s, step) && !Changes(step)
    requires !step.Announce? && !step.Broadcast? && !step.BroadcastOther?
    ensures StableNow(Apply(s, step))
  {
    hide HearAll, TameAll, From;
    SameFrom(s, Apply(s, step));
  }

  lemma BaseKept(s: State, step: Step)
    requires Base(s) && Enabled(s, step)
    ensures Base(Apply(s, step))
  {
    hide Apply, Enabled, Sound, Bounded, StableNow, BoundedMode;
    SoundKept(s, step);
    BoundedKept(s, step);
    BoundedModeKept(s, step);
    StableNowKept(s, step);
  }

  lemma InitIsBase(s: State)
    requires Init(s)
    ensures Base(s)
  {
  }

  // ---- What safe steps keep: what is ahead takes the workbench to the cache ----

  /** What the workbench will know of the current epoch when it has heard all that is ahead. */
  function Final(s: State): Desk
    requires s.pos <= |s.log|
  {
    NoteAll(Project(s.workbench, s.epoch), TameAll(Ahead(s), s.epoch))
  }

  /** What is ahead will be sent: nothing of it has been dropped from the ring. */
  predicate InTouch(s: State) {
    Listening(s.mode) && |s.log| <= s.pos + s.capacity
  }

  ghost predicate Works(s: State)
    requires s.pos <= |s.log|
  {
    InTouch(s) && s.hostEpoch == s.epoch ==> Final(s).shown == s.cache
  }

  /** The report is newer than the workbench's cursor and than every report of the agent that is ahead. */
  ghost predicate Passes(s: State, session: Session, stamp: Stamp)
    requires s.pos <= |s.log|
  {
    && Above(stamp, Get(s.workbench.cursors, session))
    && forall e :: e in Ahead(s) && e.Updated? && e.session == session ==> Newer(stamp, e.stamp)
  }

  /** The cache that is read now makes up for all that the workbench missed. */
  ghost predicate ReadInTime(s: State)
    requires s.pos <= |s.log|
  {
    s.hostEpoch == s.epoch && |s.log| <= s.pos + s.capacity ==>
      MadeUpFor(s.workbench, s.cache, From(s, s.pos), s.epoch)
  }

  /** The step does not spoil what the workbench will show. */
  ghost predicate Safe(s: State, step: Step)
    requires s.pos <= |s.log|
  {
    match step
    case Accept(session, generation, sequence) =>
      InTouch(s) ==> Passes(s, session, Stamp(s.epoch, generation, sequence))
    case TakeSnapshot(_) => ReadInTime(s)
    case TakeInitial(_) => ReadInTime(s)
    case GiveUp => false
    case _ => true
  }

  lemma {:induction false} OldIsNotNoted(desk: Desk, events: seq<Event>, last: nat, epoch: nat, hostEpoch: nat)
    requires (forall i :: 0 <= i < |events| ==> Known(events[i], last, hostEpoch)) && last < epoch
    requires desk == Desk(map[], map[])
    ensures NoteAll(desk, TameAll(events, epoch)) == desk
    decreases |events|
  {
    if events != [] {
      assert Known(events[0], last, hostEpoch);
      assert TameAll(events, epoch)[1..] == TameAll(events[1..], epoch);
      assert desk.shown - {""} == desk.shown;
      NotedOld(desk, events[0], last, epoch, hostEpoch);
      OldIsNotNoted(desk, events[1..], last, epoch, hostEpoch);
    }
  }

  lemma NotedOld(desk: Desk, event: Event, last: nat, epoch: nat, hostEpoch: nat)
    requires Known(event, last, hostEpoch) && last < epoch && desk == Desk(map[], map[])
    ensures Note(desk, Tame(event, epoch)) == desk
  {
  }

  lemma AheadIsKnown(s: State)
    requires Base(s)
    ensures forall i :: 0 <= i < |Ahead(s)| ==> Known(Ahead(s)[i], s.epoch, s.hostEpoch)
  {
    hide StableNow, Kept;
    var ahead := Ahead(s);
    forall i | 0 <= i < |ahead| ensures Known(ahead[i], s.epoch, s.hostEpoch) {
      var rest := if s.mode.Replaying? then s.mode.rest else [];
      if i >= |rest| {
        FromWithin(s, s.pos);
        assert ahead[i] == From(s, s.pos)[i - |rest|];
        assert Within(ahead[i], s.epoch);
      }
    }
  }

  /** The cache of a new epoch starts empty, and so does what the workbench knows of it. */
  lemma NewEpochIsEmpty(s: State, epoch: nat, extra: seq<Event>)
    requires Base(s) && s.epoch < epoch && (extra == [] || extra == [Reset(epoch)])
    ensures NoteAll(Project(s.workbench, epoch), TameAll(Ahead(s) + extra, epoch)).shown == map[]
  {
    hide Ahead, StableNow, NoteAll, TameAll;
    AheadIsKnown(s);
    OfIsEmpty(s.workbench.cursors, s.epoch, epoch);
    OfIsEmpty(s.workbench.shown, s.epoch, epoch);
    OldIsNotNoted(Project(s.workbench, epoch), Ahead(s), s.epoch, epoch, s.hostEpoch);
    TamedConcat(Ahead(s), extra, epoch);
    NoteAllConcat(Project(s.workbench, epoch), TameAll(Ahead(s), epoch), TameAll(extra, epoch));
    NothingExtra(Project(s.workbench, epoch), extra, epoch);
  }

  lemma NothingExtra(desk: Desk, extra: seq<Event>, epoch: nat)
    requires extra == [] || extra == [Reset(epoch)]
    ensures NoteAll(desk, TameAll(extra, epoch)) == desk
  {
    if extra != [] {
      assert TameAll(extra, epoch)[0] == Other && TameAll(extra, epoch)[1..] == [];
    }
  }

  lemma ChangeIsAhead(s: State, step: Step)
    requires Sound(s) && Enabled(s, step) && Changes(step)
    ensures Apply(s, step).pending.Some? && Ahead(Apply(s, step)) == Ahead(s) + [Apply(s, step).pending.value]
  {
    hide From;
    ChangeAdds(s, step, s.pos);
  }

  lemma NoteLast(desk: Desk, events: seq<Event>, event: Event, epoch: nat)
    ensures NoteAll(desk, TameAll(events + [event], epoch))
        == Note(NoteAll(desk, TameAll(events, epoch)), Tame(event, epoch))
  {
    TamedAppend(events, event, epoch);
    NoteAllConcat(desk, TameAll(events, epoch), [Tame(event, epoch)]);
    assert [Tame(event, epoch)][1..] == [];
  }

  /** Whether a report gets through, when all that is ahead has been heard. */
  lemma PassesExactly(s: State, session: Session, stamp: Stamp)
    requires Base(s) && s.hostEpoch == s.epoch == stamp.epoch
    ensures Passes(s, session, stamp) <==> Above(stamp, Get(Final(s).cursors, session))
  {
    hide NoteAll, NoteOneAll, StableNow, Kept, Of, Ahead;
    var tamed := TameAll(Ahead(s), s.epoch);
    var desk := Project(s.workbench, s.epoch);
    NotedOne(desk, tamed, session);
    AcceptedExactly(At(desk, session), session, tamed, stamp);
    AboveOlder(s.workbench, s.epoch, session, stamp);
    AheadIsKnown(s);
    NewerThanTamed(Ahead(s), s.epoch, session, stamp, s.hostEpoch);
  }

  lemma NewerThanTamed(events: seq<Event>, epoch: nat, session: Session, stamp: Stamp, hostEpoch: nat)
    requires stamp.epoch == epoch && forall i :: 0 <= i < |events| ==> Known(events[i], epoch, hostEpoch)
    ensures (forall e :: e in events && e.Updated? && e.session == session ==> Newer(stamp, e.stamp))
        <==> (forall e :: e in TameAll(events, epoch) && e.Updated? && e.session == session ==> Newer(stamp, e.stamp))
  {
    var tamed := TameAll(events, epoch);
    if forall e :: e in events && e.Updated? && e.session == session ==> Newer(stamp, e.stamp) {
      forall e | e in tamed && e.Updated? && e.session == session ensures Newer(stamp, e.stamp) {
        var i :| 0 <= i < |tamed| && tamed[i] == e;
        assert events[i] in events;
      }
    }
    if forall e :: e in tamed && e.Updated? && e.session == session ==> Newer(stamp, e.stamp) {
      forall e | e in events && e.Updated? && e.session == session ensures Newer(stamp, e.stamp) {
        var i :| 0 <= i < |events| && events[i] == e;
        assert Known(events[i], epoch, hostEpoch);
        if e.stamp.epoch == epoch { assert tamed[i] in tamed; }
      }
    }
  }

  /** A report leaves the workbench right if and only if it passes. */
  lemma AcceptWorksExactly(s: State, session: Session, generation: nat, sequence: nat)
    requires Base(s) && Works(s) && InTouch(s) && Enabled(s, Accept(session, generation, sequence))
    ensures Base(Apply(s, Accept(session, generation, sequence)))
    ensures Works(Apply(s, Accept(session, generation, sequence)))
        <==> Passes(s, session, Stamp(s.epoch, generation, sequence))
  {
    hide NoteAll, StableNow, Kept, Of, Ahead, Passes, TameAll, Bounded, BoundedMode;
    var step := Accept(session, generation, sequence);
    var stamp := Stamp(s.epoch, generation, sequence);
    var s' := Apply(s, step);
    BaseKept(s, step);
    ChangeIsAhead(s, step);
    NoteLast(Project(s.workbench, s.epoch), Ahead(s), Updated(session, stamp), s.epoch);
    PassesExactly(s, session, stamp);
    assert Final(s') == Note(Final(s), Updated(session, stamp));
    if !Passes(s, session, stamp) {
      assert Get(Final(s').shown, session) != Some(stamp);
    }
  }

  lemma ChangeWorks(s: State, step: Step)
    requires Base(s) && Works(s) && Enabled(s, step) && (step.Renew? || step.Clear?)
    ensures Sound(Apply(s, step)) && Works(Apply(s, step))
  {
    hide NoteAll, StableNow, Kept, Of, Ahead, TameAll;
    var s' := Apply(s, step);
    SoundKept(s, step);
    ChangeIsAhead(s, step);
    if step.Renew? {
      NewEpochIsEmpty(s, s.hostEpoch, [Reset(s.hostEpoch)]);
    } else {
      NoteLast(Project(s.workbench, s.epoch), Ahead(s), Cleared(step.session), s.epoch);
    }
  }

  lemma AnnounceWorks(s: State, epoch: nat)
    requires Base(s) && Works(s) && Enabled(s, Announce(epoch))
    ensures Sound(Apply(s, Announce(epoch))) && Works(Apply(s, Announce(epoch)))
  {
    hide NoteAll, StableNow, Kept, Of, From, TameAll;
    var s' := Apply(s, Announce(epoch));
    SoundKept(s, Announce(epoch));
    SameFrom(s, s');
    if s.hostEpoch == 0 {
      NewEpochIsEmpty(s, epoch, []);
      assert Ahead(s) + [] == Ahead(s') by { assert Ahead(s) + [] == Ahead(s); }
    }
  }

  lemma OtherIsNotNoted(desk: Desk, first: seq<Event>, unsent: seq<Event>, epoch: nat)
    ensures NoteAll(desk, TameAll(first + [Other] + unsent, epoch)) == NoteAll(desk, TameAll(first + unsent, epoch))
  {
    hide TameAll, Note;
    OtherIsTame(first, unsent, epoch);
    var tamed, rest := TameAll(first, epoch), TameAll(unsent, epoch);
    NoteAllConcat(desk, tamed + [Other], rest);
    NoteAllConcat(desk, tamed, [Other]);
    NoteAllConcat(desk, tamed, rest);
    OneOther(NoteAll(desk, tamed));
  }

  lemma OneOther(desk: Desk)
    ensures NoteAll(desk, [Other]) == desk
  {
    assert [Other][1..] == [];
  }

  lemma BroadcastWorks(s: State, step: Step)
    requires Base(s) && Works(s) && Enabled(s, step) && (step.Broadcast? || step.BroadcastOther? || step.CloseSource?)
    ensures Sound(Apply(s, step)) && Works(Apply(s, step))
  {
    hide NoteAll, StableNow, Kept, Of, Unsent, TameAll;
    var s' := Apply(s, step);
    SoundKept(s, step);
    if step.Broadcast? {
      BroadcastMoves(s, s.pos);
    } else if step.BroadcastOther? {
      SameUnsent(s);
      OtherMoves(s, s.pos);
      var rest := if s.mode.Replaying? then s.mode.rest else [];
      assert Ahead(s') == (rest + s.log[s.pos..]) + [Other] + Unsent(s);
      assert Ahead(s) == (rest + s.log[s.pos..]) + Unsent(s);
      OtherIsNotNoted(Project(s.workbench, s.epoch), rest + s.log[s.pos..], Unsent(s), s.epoch);
    } else {
      SameFrom(s, s');
    }
  }

  /** Hearing what comes next does not change where it leads. */
  lemma SendingWorks(s: State, s': State, event: Event, connected: bool)
    requires Base(s) && s.hostEpoch == s.epoch && s'.pos <= |s'.log| && s'.epoch == s.epoch
    requires Ahead(s) != [] && event == Ahead(s)[0] && Ahead(s') == Ahead(s)[1..]
    requires s'.workbench == if Foreign(s, event, connected) then s.workbench else HearAtWork(s.workbench, event)
    ensures Final(s') == Final(s)
  {
    hide HearAtWork, Kept, Ahead, StableNow, Project, Note, Of;
    AheadIsKnown(s);
    assert Known(event, s.epoch, s.hostEpoch);
    ProjectHears(s.workbench, event, s.epoch);
    assert TameAll(Ahead(s), s.epoch)[1..] == TameAll(Ahead(s'), s.epoch);
    assert TameAll(Ahead(s), s.epoch)[0] == Tame(event, s.epoch);
    if Foreign(s, event, connected) { ForeignIsNotNoted(Project(s.workbench, s.epoch), event, s.epoch); }
  }

  lemma ForeignIsNotNoted(desk: Desk, event: Event, epoch: nat)
    requires event.Updated? && event.stamp.epoch != epoch
    ensures Note(desk, Tame(event, epoch)) == desk
  {
  }

  lemma ReceiveWorks(s: State, connected: bool)
    requires Base(s) && Works(s) && Enabled(s, Receive(connected))
    ensures Sound(Apply(s, Receive(connected))) && Works(Apply(s, Receive(connected)))
  {
    hide HearAtWork, Kept, Ahead, From, Final, StableNow, Bounded;
    ReceiveAdvances(s);
    var s' := Apply(s, Receive(connected));
    SoundKept(s, Receive(connected));
    assert Ahead(s') == Ahead(s)[1..] by { ReceivingAhead(s, s'); }
    if s.hostEpoch == s.epoch { SendingWorks(s, s', s.log[s.pos], connected); }
  }

  lemma ReplayWorks(s: State, connected: bool)
    requires Base(s) && Works(s) && Enabled(s, Replay(connected))
    ensures Sound(Apply(s, Replay(connected))) && Works(Apply(s, Replay(connected)))
  {
    hide HearAtWork, Kept, From, Final, StableNow, Bounded;
    var s' := Apply(s, Replay(connected));
    SoundKept(s, Replay(connected));
    SameFrom(s, s');
    assert Ahead(s)[1..] == Ahead(s') && Ahead(s)[0] == s.mode.rest[0];
    if s.hostEpoch == s.epoch { SendingWorks(s, s', s.mode.rest[0], connected); }
  }

  function Snapshot(step: Step): seq<Event>
    requires step.TakeSnapshot? || step.TakeInitial?
  {
    match step
    case TakeSnapshot(snapshot) => snapshot
    case TakeInitial(snapshot) => snapshot
  }

  /** Reading the cache leaves the workbench right if and only if it is read in time. */
  lemma ReadingWorksExactly(s: State, step: Step)
    requires Base(s) && Enabled(s, step) && (step.TakeSnapshot? || step.TakeInitial?)
    ensures Base(Apply(s, step))
    ensures Works(Apply(s, step)) <==> ReadInTime(s)
  {
    hide NoteAll, Lists, Of, HearAll, MadeUpFor, Kept, From;
    var s' := Apply(s, step);
    BaseKept(s, step);
    SameFrom(s, s');
    if s.hostEpoch == s.epoch {
      var snapshot, left := Snapshot(step), From(s, s.pos);
      SnapshotKnown(s.cache, snapshot, s.epoch, s.hostEpoch);
      assert HearAll(s.cache, TameAll(left, s.epoch)) == s.cache;
      ReplayedExactly(s.workbench, s.cache, snapshot, left, s.epoch);
      TamedConcat(snapshot, left, s.epoch);
      if step.TakeSnapshot? {
        assert Ahead(s') == [Reset(s.mode.epoch)] + (snapshot + left);
        ResetIsNotNoted(Project(s.workbench, s.epoch), s.mode.epoch, snapshot + left, s.epoch);
      } else {
        assert Ahead(s') == snapshot + left;
      }
    }
  }

  lemma ResetIsNotNoted(desk: Desk, other: nat, events: seq<Event>, epoch: nat)
    ensures NoteAll(desk, TameAll([Reset(other)] + events, epoch)) == NoteAll(desk, TameAll(events, epoch))
  {
    var all := [Reset(other)] + events;
    assert TameAll(all, epoch)[0] == Other;
    assert TameAll(all, epoch)[1..] == TameAll(events, epoch);
  }

  lemma SafeStepWorks(s: State, step: Step)
    requires Base(s) && Works(s) && Enabled(s, step) && Safe(s, step)
    ensures Base(Apply(s, step)) && Works(Apply(s, step))
  {
    hide Base, Works, ReadInTime, Passes, Final;
    BaseKept(s, step);
    match step {
      case Announce(epoch) => AnnounceWorks(s, epoch);
      case Accept(session, generation, sequence) =>
        if InTouch(s) {
          AcceptWorksExactly(s, session, generation, sequence);
        } else {
          StaysOutOfTouch(s, step);
        }
      case Receive(connected) => ReceiveWorks(s, connected);
      case Replay(connected) => ReplayWorks(s, connected);
      case TakeSnapshot(_) => ReadingWorksExactly(s, step);
      case TakeInitial(_) => ReadingWorksExactly(s, step);
      case Renew => ChangeWorks(s, step);
      case Clear(_) => ChangeWorks(s, step);
      case Broadcast => BroadcastWorks(s, step);
      case BroadcastOther => BroadcastWorks(s, step);
      case CloseSource => BroadcastWorks(s, step);
      case NoticeLag => LagWorks(s, step);
      case Ask => LagWorks(s, step);
      case Subscribe(_) => LagWorks(s, step);
      case GiveUp =>
    }
  }

  lemma LagWorks(s: State, step: Step)
    requires Base(s) && Enabled(s, step) && (step.NoticeLag? || step.Ask? || step.Subscribe?)
    ensures Sound(Apply(s, step)) && Works(Apply(s, step))
  {
    SoundKept(s, step);
  }

  lemma StaysOutOfTouch(s: State, step: Step)
    requires Base(s) && step.Accept? && Enabled(s, step) && !InTouch(s)
    ensures Sound(Apply(s, step)) && Works(Apply(s, step))
  {
    SoundKept(s, step);
  }

  // ---- Whole runs ----

  /** Every step is safe in the state it is taken in. */
  ghost predicate SafeRun(s: State, steps: seq<Step>)
    requires ValidRun(s, steps)
    decreases |steps|
  {
    s.pos <= |s.log| && (steps == [] || (Safe(s, steps[0]) && SafeRun(Apply(s, steps[0]), steps[1..])))
  }

  lemma {:induction false} SafeRunWorks(s: State, steps: seq<Step>)
    requires Base(s) && Works(s) && ValidRun(s, steps) && SafeRun(s, steps)
    ensures Base(End(s, steps)) && Works(End(s, steps))
    decreases |steps|
  {
    hide Bounded, BoundedMode, StableNow, Works, Safe, Apply, Enabled;
    if steps != [] {
      SafeStepWorks(s, steps[0]);
      SafeRunWorks(Apply(s, steps[0]), steps[1..]);
    }
  }

  /** What is shown of the current Host epoch is what the Client has; what is shown of older epochs stays as it was. */
  ghost predicate ShowsTheCache(s: State) {
    Of(s.workbench.shown, s.epoch) == s.cache
  }

  lemma EndedShows(s: State)
    requires Base(s) && Ended(s)
    ensures Works(s) <==> ShowsTheCache(s)
  {
    assert Ahead(s) == [] && TameAll([], s.epoch) == [];
  }

  /**
    When every report passes and every reading of the cache is in time, the workbench ends with exactly the Client's
    agents of the current epoch, whatever was dropped.
   */
  lemma ConvergesAtWork(s: State, steps: seq<Step>)
    requires Init(s) && ValidRun(s, steps) && SafeRun(s, steps) && Ended(End(s, steps))
    ensures ShowsTheCache(End(s, steps))
  {
    hide Bounded, BoundedMode, StableNow, ShowsTheCache, Works;
    InitIsBase(s);
    InitWorks(s);
    SafeRunWorks(s, steps);
    EndedShows(End(s, steps));
  }

  lemma InitWorks(s: State)
    requires Init(s)
    ensures s.pos <= |s.log| && Works(s)
  {
  }

  /** All that is shown is the cache if and only if nothing of an older epoch is shown. */
  lemma ShowsNothingOlderExactly(s: State)
    requires ShowsTheCache(s)
    ensures s.workbench.shown == s.cache
        <==> forall session :: session in s.workbench.shown ==> s.workbench.shown[session].epoch == s.epoch
  {
    if forall session :: session in s.workbench.shown ==> s.workbench.shown[session].epoch == s.epoch {
      OfAll(s.workbench.shown, s.epoch);
    }
    if s.workbench.shown == s.cache {
      assert forall session :: session in Of(s.workbench.shown, s.epoch) ==>
          s.workbench.shown[session].epoch == s.epoch;
    }
  }

  // ---- Exactly which steps spoil it ----

  /** From here every safe run that ends shows the cache. */
  ghost predicate RecoversAtWork(s: State) {
    forall later :: ValidRun(s, later) && SafeRun(s, later) && Ended(End(s, later)) ==> ShowsTheCache(End(s, later))
  }

  lemma {:induction false} ReplayAll(s: State) returns (steps: seq<Step>, end: State)
    requires Listening(s.mode) && (s.mode.Replaying? ==> s.mode.rest != [])
    ensures Finishes(s, steps, end)
    ensures end == s.(mode := Receiving, eager := end.eager, workbench := end.workbench)
    ensures end.workbench == HearAllAtWork(s.workbench, if s.mode.Replaying? then s.mode.rest else [])
    decreases if s.mode.Replaying? then |s.mode.rest| else 0
  {
    hide Hear, HearAtWork;
    if s.mode.Receiving? {
      steps, end := [], s;
      Nothing(s);
    } else {
      var next := Apply(s, Replay(false));
      var more;
      more, end := ReplayAll(next);
      steps := Precede(s, Replay(false), end, more);
    }
  }

  /** The source stops as it is, and the workbench hears all that is ahead. */
  lemma FinishAll(s: State) returns (steps: seq<Step>, end: State)
    requires Sound(s) && InTouch(s) && s.hostEpoch == s.epoch
    ensures Finishes(s, steps, end) && Ended(end)
    ensures end.cache == s.cache && end.epoch == s.epoch
    ensures end.workbench == HearAllAtWork(s.workbench, Ahead(s))
  {
    hide Hear, HearAtWork, Finishes, HearAllAtWork;
    var first, mid := ReplayAll(s);
    SameFrom(s, mid);
    var second;
    second, end := Finish(mid);
    Concat(s, first, mid, second, end);
    steps := first + second;
    HearAllAtWorkConcat(s.workbench, if s.mode.Replaying? then s.mode.rest else [], From(s, s.pos));
  }

  lemma {:induction false} FinishingIsSafe(s: State, steps: seq<Step>)
    requires Sound(s) && ValidRun(s, steps) && forall step :: step in steps ==> Finishing(step)
    ensures SafeRun(s, steps)
    decreases |steps|
  {
    hide Apply, Enabled;
    if steps != [] {
      assert steps[0] in steps;
      SoundKept(s, steps[0]);
      FinishingIsSafe(Apply(s, steps[0]), steps[1..]);
    }
  }

  /** What is right recovers, and what is wrong and in touch does not. */
  lemma RecoversExactly(s: State)
    requires Base(s)
    ensures RecoversAtWork(s) <==> Works(s)
  {
    hide Bounded, BoundedMode, StableNow, ShowsTheCache, HearAllAtWork, NoteAll, Finishes, Project;
    if Works(s) {
      forall later | ValidRun(s, later) && SafeRun(s, later) && Ended(End(s, later))
        ensures ShowsTheCache(End(s, later))
      {
        SafeRunWorks(s, later);
        EndedShows(End(s, later));
      }
    } else {
      var steps, end := FinishAll(s);
      FinishedIsSafe(s, steps, end);
      EndsAsFinal(s, end);
    }
  }

  lemma FinishedIsSafe(s: State, steps: seq<Step>, end: State)
    requires Sound(s) && Finishes(s, steps, end)
    ensures ValidRun(s, steps) && End(s, steps) == end && SafeRun(s, steps)
  {
    FinishingIsSafe(s, steps);
  }

  lemma EndsAsFinal(s: State, end: State)
    requires Base(s) && s.hostEpoch == s.epoch
    requires end.workbench == HearAllAtWork(s.workbench, Ahead(s)) && end.epoch == s.epoch && end.cache == s.cache
    ensures ShowsTheCache(end) <==> Final(s).shown == s.cache
  {
    hide StableNow, HearAllAtWork, NoteAll, Ahead, Kept, Of;
    AheadIsKnown(s);
    assert AllWithin(Ahead(s), s.epoch);
    ProjectHearsAll(s.workbench, Ahead(s), s.epoch);
  }

  /** Reading the cache, after a lag or at the start, is harmless if and only if it is in time. */
  lemma ReadingIsHarmlessExactly(s: State, step: Step)
    requires Base(s) && Enabled(s, step) && (step.TakeSnapshot? || step.TakeInitial?)
    ensures RecoversAtWork(Apply(s, step)) <==> ReadInTime(s)
  {
    hide Bounded, BoundedMode, StableNow, Works, ReadInTime, RecoversAtWork;
    ReadingWorksExactly(s, step);
    RecoversExactly(Apply(s, step));
  }

  /** While the workbench is right and nothing is dropped, a new report is harmless if and only if it passes. */
  lemma ReportIsHarmlessExactly(s: State, session: Session, generation: nat, sequence: nat)
    requires Base(s) && Works(s) && InTouch(s) && Enabled(s, Accept(session, generation, sequence))
    ensures var next := Apply(s, Accept(session, generation, sequence));
            RecoversAtWork(next) <==> Passes(s, session, Stamp(s.epoch, generation, sequence))
  {
    hide Bounded, BoundedMode, StableNow, Works, Passes, RecoversAtWork, InTouch;
    AcceptWorksExactly(s, session, generation, sequence);
    RecoversExactly(Apply(s, Accept(session, generation, sequence)));
  }

  /** In every run, from the start. */
  lemma {:induction false} RunIsBase(s: State, steps: seq<Step>)
    requires Base(s) && ValidRun(s, steps)
    ensures Base(End(s, steps))
    decreases |steps|
  {
    hide Base, Apply, Enabled;
    if steps != [] {
      BaseKept(s, steps[0]);
      RunIsBase(Apply(s, steps[0]), steps[1..]);
    }
  }

  /** So in whatever state a run leads to, reading the cache is harmless if and only if it is in time. */
  lemma ReachedReadingIsHarmlessExactly(start: State, before: seq<Step>, step: Step)
    requires Init(start) && ValidRun(start, before) && Enabled(End(start, before), step)
    requires step.TakeSnapshot? || step.TakeInitial?
    ensures var s := End(start, before);
            Base(s) && (RecoversAtWork(Apply(s, step)) <==> ReadInTime(s))
  {
    hide Base, Apply, Enabled, RecoversAtWork, ReadInTime;
    InitIsBase(start);
    RunIsBase(start, before);
    ReadingIsHarmlessExactly(End(start, before), step);
  }

  // ---- Runs in which it is spoiled ----

  /** The workbench shows an agent, and a ring of any size holds nothing else. */
  function Aware(capacity: nat, session: Session): State {
    var view := map[session := Stamp(1, 1, 1)];
    Opened(capacity).(cache := view, log := [Updated(session, Stamp(1, 1, 1))], pos := 1, eager := view,
                      workbench := Workbench(1, view, view))
  }

  lemma BecomesAware(capacity: nat, session: Session, end: State, rest: seq<Step>) returns (s: State, steps: seq<Step>)
    requires capacity > 0 && Leads(Aware(capacity, session), rest, end) && AlwaysAnswered(rest)
    ensures Init(s) && Leads(s, steps, end) && AlwaysAnswered(steps) && (NoticeLag in steps ==> NoticeLag in rest)
  {
    var a := Opened(capacity);
    var b := Apply(a, Accept(session, 1, 1));
    var c := Apply(b, Broadcast);
    var d := Apply(c, Receive(true));
    assert d == Aware(capacity, session);
    hide Leads, Apply, Aware, Opened, Enabled;
    steps := Precede(c, Receive(true), end, rest);
    steps := Precede(b, Broadcast, end, steps);
    steps := Precede(a, Accept(session, 1, 1), end, steps);
    s, steps := Opens(capacity, end, steps);
  }

  /** The answer is that there are no agents, and that nothing is new about the epoch. */
  lemma AnsweredInVain(s: State) returns (steps: seq<Step>, end: State)
    requires s.mode == Asked(1) && s.hostEpoch == s.epoch == s.workbench.epoch == 1 && s.capacity == 1
    requires s.cache == map[] && s.pending == None && !s.closed && s.pos < |s.log| && s.log[s.pos..] == [Other]
    ensures Leads(s, steps, end) && AlwaysAnswered(steps)
    ensures Ended(end) && end.cache == map[] && end.eager == map[] && end.workbench == s.workbench
  {
    assert s.log[s.pos] == Other && |s.log| == s.pos + 1;
    var d := Apply(s, TakeSnapshot([]));
    var e := Apply(d, Replay(true));
    var f := Apply(e, Receive(true));
    end := Apply(f, CloseSource);
    assert Ended(end) && end.cache == map[] && end.eager == map[] && end.workbench == s.workbench;
    Nothing(end);
    hide Leads, Apply, Enabled;
    steps := Precede(f, CloseSource, end, []);
    steps := Precede(e, Receive(true), end, steps);
    steps := Precede(d, Replay(true), end, steps);
    steps := Precede(s, TakeSnapshot([]), end, steps);
  }

  /** The workbench keeps an agent that is gone: every lag was answered, but the clearing was dropped. */
  lemma DroppedClearingLeavesAnAgent(session: Session) returns (s: State, steps: seq<Step>, end: State)
    ensures Init(s) && Leads(s, steps, end) && AlwaysAnswered(steps) && Ended(end)
    ensures end.cache == map[] && end.eager == map[] && end.workbench.shown == map[session := Stamp(1, 1, 1)]
  {
    var a := Aware(1, session);
    var b := Apply(a, Clear(session));
    var c := Apply(b, Broadcast);
    var d := Apply(c, BroadcastOther);
    var e := Apply(d, NoticeLag);
    var f := Apply(e, Ask);
    assert f.log[2..] == [Other] && f.workbench.shown == map[session := Stamp(1, 1, 1)];
    steps, end := AnsweredInVain(f);
    hide Leads, Apply, Enabled;
    steps := Precede(e, Ask, end, steps);
    steps := Precede(d, NoticeLag, end, steps);
    steps := Precede(c, BroadcastOther, end, steps);
    steps := Precede(b, Broadcast, end, steps);
    steps := Precede(a, Clear(session), end, steps);
    s, steps := BecomesAware(1, session, end, steps);
  }

  /** The agent was cleared and reported anew, and the ring of two events holds just that. */
  function Overtaken(session: Session): State {
    var report := Updated(session, Stamp(1, 2, 1));
    var log := [Updated(session, Stamp(1, 1, 1)), Other, Cleared(session), report];
    Aware(2, session).(cache := map[session := report.stamp], log := log)
  }

  lemma BecomesOvertaken(session: Session, end: State, rest: seq<Step>) returns (s: State, steps: seq<Step>)
    requires Leads(Overtaken(session), rest, end) && AlwaysAnswered(rest)
    ensures Init(s) && Leads(s, steps, end) && AlwaysAnswered(steps)
  {
    var a := Aware(2, session);
    var b := Apply(a, BroadcastOther);
    var c := Apply(b, Clear(session));
    var d := Apply(c, Broadcast);
    var e := Apply(d, Accept(session, 2, 1));
    var f := Apply(e, Broadcast);
    assert f == Overtaken(session);
    hide Leads, Apply, Enabled, Overtaken;
    steps := Precede(e, Broadcast, end, rest);
    steps := Precede(d, Accept(session, 2, 1), end, steps);
    steps := Precede(c, Broadcast, end, steps);
    steps := Precede(b, Clear(session), end, steps);
    steps := Precede(a, BroadcastOther, end, steps);
    s, steps := BecomesAware(2, session, end, steps);
  }

  /** The lag was answered: the new report is accepted and shown. */
  function Answered(session: Session): State {
    var view := map[session := Stamp(1, 2, 1)];
    Overtaken(session).(pos := 2, eager := view, workbench := Workbench(1, view, view))
  }

  lemma BecomesAnswered(session: Session, end: State, rest: seq<Step>) returns (steps: seq<Step>)
    requires Leads(Answered(session), rest, end) && AlwaysAnswered(rest)
    ensures Leads(Overtaken(session), steps, end) && AlwaysAnswered(steps)
  {
    var report := Updated(session, Stamp(1, 2, 1));
    var a := Overtaken(session);
    var b := Apply(a, NoticeLag);
    var c := Apply(b, Ask);
    var d := Apply(c, TakeSnapshot([report]));
    var e := Apply(d, Replay(true));
    var f := Apply(e, Replay(true));
    assert f == Answered(session);
    hide Leads, Apply, Enabled, Overtaken, Answered;
    steps := Precede(e, Replay(true), end, rest);
    steps := Precede(d, Replay(true), end, steps);
    steps := Precede(c, TakeSnapshot([report]), end, steps);
    steps := Precede(b, Ask, end, steps);
    steps := Precede(a, NoticeLag, end, steps);
  }

  /**
    The workbench loses an agent that is there: it accepts the replayed report, then hears the clearing that was left
    in the ring, and does not accept the same report again.
   */
  lemma LeftClearingLosesAnAgent(session: Session) returns (s: State, steps: seq<Step>, end: State)
    ensures Init(s) && Leads(s, steps, end) && AlwaysAnswered(steps) && Ended(end)
    ensures end.cache == end.eager == map[session := Stamp(1, 2, 1)] && end.workbench.shown == map[]
  {
    var a := Answered(session);
    var b := Apply(a, Receive(true));
    var c := Apply(b, Receive(true));
    end := Apply(c, CloseSource);
    assert Ended(end) && end.cache == map[session := Stamp(1, 2, 1)];
    assert end.eager == map[session := Stamp(1, 2, 1)] && end.workbench.shown == map[];
    Nothing(end);
    hide Leads, Apply, Enabled, Overtaken, Answered;
    steps := Precede(c, CloseSource, end, []);
    steps := Precede(b, Receive(true), end, steps);
    steps := Precede(a, Receive(true), end, steps);
    steps := BecomesAnswered(session, end, steps);
    s, steps := BecomesOvertaken(session, end, steps);
  }

  /** Without any lag, a new Host epoch leaves what was shown of the old one. */
  lemma NewEpochLeavesAnAgent(session: Session) returns (s: State, steps: seq<Step>, end: State)
    ensures Init(s) && Leads(s, steps, end) && AlwaysAnswered(steps) && NoticeLag !in steps && Ended(end)
    ensures end.epoch == 2 && end.cache == map[] && end.workbench.shown == map[session := Stamp(1, 1, 1)]
  {
    var a := Aware(1, session);
    var b := Apply(a, Announce(2));
    var c := Apply(b, Renew);
    var d := Apply(c, Broadcast);
    var e := Apply(d, Receive(true));
    end := Apply(e, CloseSource);
    assert Ended(end) && end.epoch == 2 && end.cache == map[] && end.workbench.shown == map[session := Stamp(1, 1, 1)];
    Nothing(end);
    hide Leads, Apply, Enabled, Aware;
    steps := Precede(e, CloseSource, end, []);
    steps := Precede(d, Receive(true), end, steps);
    steps := Precede(c, Broadcast, end, steps);
    steps := Precede(b, Renew, end, steps);
    steps := Precede(a, Announce(2), end, steps);
    s, steps := BecomesAware(1, session, end, steps);
  }

  /** The workbench heard that the agent is gone, and keeps its cursor. */
  function Emptied(session: Session): State {
    Aware(1, session).(cache := map[], log := [Updated(session, Stamp(1, 1, 1)), Cleared(session)], pos := 2,
                       eager := map[], workbench := Workbench(1, map[session := Stamp(1, 1, 1)], map[]))
  }

  lemma BecomesEmptied(session: Session, end: State, rest: seq<Step>) returns (s: State, steps: seq<Step>)
    requires Leads(Emptied(session), rest, end) && AlwaysAnswered(rest)
    ensures Init(s) && Leads(s, steps, end) && AlwaysAnswered(steps) && (NoticeLag in steps ==> NoticeLag in rest)
  {
    var a := Aware(1, session);
    var b := Apply(a, Clear(session));
    var c := Apply(b, Broadcast);
    var d := Apply(c, Receive(true));
    assert d == Emptied(session);
    hide Leads, Apply, Enabled, Aware, Emptied;
    steps := Precede(c, Receive(true), end, rest);
    steps := Precede(b, Broadcast, end, steps);
    steps := Precede(a, Clear(session), end, steps);
    s, steps := BecomesAware(1, session, end, steps);
  }

  /** Without any lag, an agent that is reported again as before it was cleared is not shown. */
  lemma RepeatedReportIsNotShown(session: Session) returns (s: State, steps: seq<Step>, end: State)
    ensures Init(s) && Leads(s, steps, end) && AlwaysAnswered(steps) && NoticeLag !in steps && Ended(end)
    ensures end.cache == map[session := Stamp(1, 1, 1)] && end.workbench.shown == map[]
  {
    var a := Emptied(session);
    var b := Apply(a, Accept(session, 1, 1));
    var c := Apply(b, Broadcast);
    var d := Apply(c, Receive(true));
    end := Apply(d, CloseSource);
    assert Ended(end) && end.cache == map[session := Stamp(1, 1, 1)] && end.workbench.shown == map[];
    Nothing(end);
    hide Leads, Apply, Enabled, Aware, Emptied;
    steps := Precede(d, CloseSource, end, []);
    steps := Precede(c, Receive(true), end, steps);
    steps := Precede(b, Broadcast, end, steps);
    steps := Precede(a, Accept(session, 1, 1), end, steps);
    s, steps := BecomesEmptied(session, end, steps);
  }
}
