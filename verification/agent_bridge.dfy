/**
  The agent event bridge (`forward_client_events` in src/host_runtime.rs) behind a lossy broadcast ring.

  One thread of the Client changes the cache of agents and then broadcasts the change, before it makes the
  next one; a snapshot may be read in between. The ring keeps the last `capacity` events. A receiver that fell
  further behind is told once that it lagged and continues at the oldest event kept; the bridge then sends a
  reset and the whole cache.
 */
module AgentBridge {
  import opened Wrappers

  /** An agent's pane; its address and its terminal session name each other. */
  type Session = string

  /** Which of two reports of an agent is newer is decided by Host epoch, then generation, then sequence. */
  datatype Stamp = Stamp(epoch: nat, generation: nat, sequence: nat)

  predicate Newer(a: Stamp, b: Stamp) {
    || a.epoch > b.epoch
    || (a.epoch == b.epoch &&
        (a.generation > b.generation || (a.generation == b.generation && a.sequence > b.sequence)))
  }

  type View = map<Session, Stamp>

  datatype Event = Updated(session: Session, stamp: Stamp) | Cleared(session: Session) | Reset(epoch: nat) | Other

  // ---- Listeners ----

  function Keep(view: View, session: Session, stamp: Stamp): View {
    if session in view && !Newer(stamp, view[session]) then view else view[session := stamp]
  }

  /** A listener that keeps the newest report of each agent, forgets what is cleared, and everything on a reset. */
  function Hear(view: View, event: Event): View {
    match event
    case Updated(session, stamp) => Keep(view, session, stamp)
    case Cleared(session) => view - {session}
    case Reset(_) => map[]
    case Other => view
  }

  function HearAll(view: View, events: seq<Event>): View
    decreases |events|
  {
    if events == [] then view else HearAll(Hear(view, events[0]), events[1..])
  }

  /**
    The workbench: the Host epoch it knows (0 is none), for each agent the newest report it accepted in that epoch, and
    for each pane the report it shows. A newer epoch empties the cursors and no pane; a clearing empties a pane and
    no cursor.
   */
  datatype Workbench = Workbench(epoch: nat, cursors: View, shown: View)

  function Heed(workbench: Workbench, epoch: nat): Workbench {
    if epoch <= workbench.epoch then workbench else Workbench(epoch, map[], workbench.shown)
  }

  function HearAtWork(workbench: Workbench, event: Event): Workbench {
    match event
    case Updated(session, stamp) =>
      if stamp.epoch < workbench.epoch then workbench
      else
        var heeded := Heed(workbench, stamp.epoch);
        if session in heeded.cursors && !Newer(stamp, heeded.cursors[session]) then heeded
        else heeded.(cursors := heeded.cursors[session := stamp], shown := heeded.shown[session := stamp])
    case Cleared(session) => workbench.(shown := workbench.shown - {session})
    case Reset(epoch) => Heed(workbench, epoch)
    case Other => workbench
  }

  function HearAllAtWork(workbench: Workbench, events: seq<Event>): Workbench
    decreases |events|
  {
    if events == [] then workbench else HearAllAtWork(HearAtWork(workbench, events[0]), events[1..])
  }

  // ---- Which report counts ----

  /** A report counts beside another: a later generation always, the same one when it goes on, an earlier one never. */
  predicate Outranks(generation: nat, sequence: nat, known: Stamp) {
    generation > known.generation || (generation == known.generation && sequence > known.sequence)
  }

  /** The sequence numbers start again with every generation, so they decide within one generation only. */
  lemma GenerationComesFirst(view: View, session: Session, epoch: nat, generation: nat, sequence: nat)
    requires session in view && view[session].epoch == epoch
    ensures Hear(view, Updated(session, Stamp(epoch, generation, sequence)))
         == if Outranks(generation, sequence, view[session]) then view[session := Stamp(epoch, generation, sequence)]
            else view
  {
  }

  /** Reports of an older Host epoch are never heard over newer ones, and those of a newer epoch always are. */
  lemma EpochComesFirst(view: View, session: Session, stamp: Stamp)
    requires session in view && view[session].epoch != stamp.epoch
    ensures Hear(view, Updated(session, stamp))
         == if stamp.epoch > view[session].epoch then view[session := stamp] else view
  {
  }

  /** At the workbench: what is accepted is shown, whatever was shown before. */
  lemma WorkbenchAccepts(workbench: Workbench, session: Session, epoch: nat, generation: nat, sequence: nat)
    requires epoch == workbench.epoch
    requires session in workbench.cursors ==> workbench.cursors[session].epoch == epoch
    ensures var stamp := Stamp(epoch, generation, sequence);
            HearAtWork(workbench, Updated(session, stamp))
            == if session !in workbench.cursors || Outranks(generation, sequence, workbench.cursors[session])
               then Workbench(epoch, workbench.cursors[session := stamp], workbench.shown[session := stamp])
               else workbench
  {
  }

  /** With a newer Host epoch every cursor is forgotten and the report accepted; of an older one none is. */
  lemma WorkbenchFollowsEpochs(workbench: Workbench, session: Session, stamp: Stamp)
    requires stamp.epoch != workbench.epoch
    ensures HearAtWork(workbench, Updated(session, stamp))
         == if stamp.epoch > workbench.epoch
            then Workbench(stamp.epoch, map[session := stamp], workbench.shown[session := stamp])
            else workbench
    ensures HearAtWork(workbench, Reset(stamp.epoch))
         == if stamp.epoch > workbench.epoch then Workbench(stamp.epoch, map[], workbench.shown) else workbench
  {
  }

  // ---- The protocol ----

  /**
    `Subscribed` has not read the cache that the workbench starts with; `Asked` has read the Host epoch and not yet the
    cache; `Replaying` holds what is still to be sent.
   */
  datatype Mode = Unsubscribed | Subscribed | Receiving | Lagged | Asked(epoch: nat) | Replaying(rest: seq<Event>)

  /**
    `hostEpoch` is set first when a new Host epoch is installed, and `epoch`, the epoch of the cache, when the cache
    is emptied; 0 is no epoch. `pending` is the change that is cached and not yet broadcast.
   */
  datatype State = State(
    capacity: nat,
    hostEpoch: nat,
    epoch: nat,
    cache: View,
    pending: Option<Event>,
    log: seq<Event>,
    closed: bool,
    pos: nat,
    mode: Mode,
    eager: View,
    workbench: Workbench)

  datatype Step =
    | Announce(epoch: nat)
    | Renew
    | Accept(session: Session, generation: nat, sequence: nat)
    | Clear(session: Session)
    | Broadcast
    | BroadcastOther
    | CloseSource
    | Subscribe(connected: bool)
    | TakeInitial(snapshot: seq<Event>)
    | Receive(connected: bool)
    | NoticeLag
    | GiveUp
    | Ask
    | TakeSnapshot(snapshot: seq<Event>)
    | Replay(connected: bool)

  /** A snapshot reports every cached agent once or more, as cached, in any order. */
  ghost predicate Lists(cache: View, snapshot: seq<Event>) {
    && (forall e :: e in snapshot ==> e.Updated? && e.session in cache && e.stamp == cache[e.session])
    && (forall session :: session in cache ==> Updated(session, cache[session]) in snapshot)
  }

  /** The source is between two changes. */
  predicate Settled(s: State) {
    !s.closed && s.pending == None && s.hostEpoch == s.epoch
  }

  ghost predicate Enabled(s: State, step: Step) {
    match step
    case Announce(epoch) => Settled(s) && epoch > s.hostEpoch
    case Renew => !s.closed && s.pending == None && s.hostEpoch > s.epoch
    case Accept(session, generation, sequence) =>
      Settled(s) && s.epoch > 0
      && (session in s.cache ==> Newer(Stamp(s.epoch, generation, sequence), s.cache[session]))
    case Clear(session) => Settled(s) && s.epoch > 0
    case Broadcast => !s.closed && s.pending.Some?
    case BroadcastOther => !s.closed
    case CloseSource => Settled(s)
    case Subscribe(_) => s.mode.Unsubscribed?
    case TakeInitial(snapshot) => s.mode.Subscribed? && Lists(s.cache, snapshot)
    case Receive(_) => s.mode.Receiving? && s.pos < |s.log| <= s.pos + s.capacity
    case NoticeLag => s.mode.Receiving? && s.pos + s.capacity < |s.log|
    case GiveUp => s.mode.Lagged?
    case Ask => s.mode.Lagged? && s.hostEpoch > 0
    case TakeSnapshot(snapshot) => s.mode.Asked? && Lists(s.cache, snapshot)
    case Replay(_) => s.mode.Replaying? && s.mode.rest != []
  }

  /** The Client caches a report by the same order: it must outrank the cached one of its agent, if there is one. */
  lemma ClientAcceptsExactly(s: State, session: Session, generation: nat, sequence: nat)
    requires session in s.cache ==> s.cache[session].epoch == s.epoch
    ensures Enabled(s, Accept(session, generation, sequence))
        <==> && !s.closed && s.pending == None && s.hostEpoch == s.epoch > 0
             && (session !in s.cache || Outranks(generation, sequence, s.cache[session]))
  {
  }

  function AfterReplay(rest: seq<Event>): Mode {
    if rest == [] then Receiving else Replaying(rest)
  }

  /** While the Client is connected, the workbench has no ear for reports of an epoch other than the Host's. */
  predicate Foreign(s: State, event: Event, connected: bool) {
    connected && event.Updated? && event.stamp.epoch != s.hostEpoch
  }

  function Send(s: State, event: Event, connected: bool): State {
    s.(eager := Hear(s.eager, event),
       workbench := if Foreign(s, event, connected) then s.workbench else HearAtWork(s.workbench, event))
  }

  function Apply(s: State, step: Step): State
    requires Enabled(s, step)
  {
    match step
    case Announce(epoch) => s.(hostEpoch := epoch, epoch := if s.hostEpoch == 0 then epoch else s.epoch)
    case Renew => s.(cache := map[], epoch := s.hostEpoch, pending := Some(Reset(s.hostEpoch)))
    case Accept(session, generation, sequence) =>
      var stamp := Stamp(s.epoch, generation, sequence);
      s.(cache := s.cache[session := stamp], pending := Some(Updated(session, stamp)))
    case Clear(session) => s.(cache := s.cache - {session}, pending := Some(Cleared(session)))
    case Broadcast => s.(log := s.log + [s.pending.value], pending := None)
    case BroadcastOther => s.(log := s.log + [Other])
    case CloseSource => s.(closed := true)
    case Subscribe(connected) =>
      s.(pos := |s.log|, mode := Subscribed, workbench := s.workbench.(epoch := if connected then s.hostEpoch else 0))
    case TakeInitial(snapshot) => s.(mode := AfterReplay(snapshot))
    case Receive(connected) => Send(s, s.log[s.pos], connected).(pos := s.pos + 1)
    case NoticeLag => s.(pos := |s.log| - s.capacity, mode := Lagged)
    case GiveUp => s.(mode := Receiving)
    case Ask => s.(mode := Asked(s.hostEpoch))
    case TakeSnapshot(snapshot) => s.(mode := Replaying([Reset(s.mode.epoch)] + snapshot))
    case Replay(connected) => Send(s, s.mode.rest[0], connected).(mode := AfterReplay(s.mode.rest[1..]))
  }

  /** What the ring still holds is received, and what it has dropped is noticed as a lag; never both. */
  lemma ReceivesOrLags(s: State, connected: bool)
    requires s.mode.Receiving? && s.pos < |s.log|
    ensures Enabled(s, Receive(connected)) <==> |s.log| - s.pos <= s.capacity
    ensures Enabled(s, NoticeLag) <==> |s.log| - s.pos > s.capacity
  {
  }

  /** A lag is answered only by a Client that knows a Host epoch, with a reset to it and then the whole cache. */
  lemma LagIsAnswered(s: State, snapshot: seq<Event>)
    requires s.mode.Lagged?
    ensures Enabled(s, GiveUp) && (Enabled(s, Ask) <==> s.hostEpoch > 0)
    ensures s.hostEpoch > 0 && Lists(s.cache, snapshot) ==>
              && Enabled(Apply(s, Ask), TakeSnapshot(snapshot))
              && Apply(Apply(s, Ask), TakeSnapshot(snapshot))
                 == s.(mode := Replaying([Reset(s.hostEpoch)] + snapshot))
  {
  }

  /** The bridge hears nothing that was broadcast before it subscribed, and knows the Host epoch if there is one. */
  lemma SubscribesFromNow(s: State, connected: bool, event: Event)
    requires s.mode.Unsubscribed? && s.capacity > 0 && !s.closed && s.pending == Some(event)
    ensures Enabled(s, Subscribe(connected)) && Enabled(Apply(s, Subscribe(connected)), Broadcast)
    ensures var next := Apply(Apply(s, Subscribe(connected)), Broadcast);
            && next.log[next.pos..] == [event]
            && next.workbench == s.workbench.(epoch := if connected then s.hostEpoch else 0)
  {
  }

  ghost predicate Init(s: State) {
    && s.capacity > 0 && s.hostEpoch == 0 && s.epoch == 0 && s.cache == map[] && s.pending == None
    && s.log == [] && !s.closed && s.pos == 0 && s.mode == Unsubscribed
    && s.eager == map[] && s.workbench == Workbench(0, map[], map[])
  }

  ghost predicate ValidRun(s: State, steps: seq<Step>)
    decreases |steps|
  {
    steps == [] || (Enabled(s, steps[0]) && ValidRun(Apply(s, steps[0]), steps[1..]))
  }

  function End(s: State, steps: seq<Step>): State
    requires ValidRun(s, steps)
    decreases |steps|
  {
    if steps == [] then s else End(Apply(s, steps[0]), steps[1..])
  }

  /** The cache answered every time the bridge asked for it. */
  predicate AlwaysAnswered(steps: seq<Step>) {
    GiveUp !in steps
  }

  /** The bridge has nothing left to do: the source is closed and everything kept was received. */
  predicate Ended(s: State) {
    s.closed && s.mode.Receiving? && s.pos == |s.log|
  }

  // ---- What is heard of one agent ----

  function Get(view: View, session: Session): Option<Stamp> {
    if session in view then Some(view[session]) else None
  }

  function Latest(a: Option<Stamp>, b: Option<Stamp>): Option<Stamp> {
    if a.None? then b else if b.None? then a else if Newer(b.value, a.value) then b else a
  }

  /** What is known of one agent after an event. */
  function One(known: Option<Stamp>, session: Session, event: Event): Option<Stamp> {
    match event
    case Updated(other, stamp) => if other == session then Latest(known, Some(stamp)) else known
    case Cleared(other) => if other == session then None else known
    case Reset(_) => None
    case Other => known
  }

  function OneAll(known: Option<Stamp>, session: Session, events: seq<Event>): Option<Stamp>
    decreases |events|
  {
    if events == [] then known else OneAll(One(known, session, events[0]), session, events[1..])
  }

  lemma {:induction false} HeardOne(view: View, events: seq<Event>, session: Session)
    ensures Get(HearAll(view, events), session) == OneAll(Get(view, session), session, events)
    decreases |events|
  {
    if events != [] { HeardOne(Hear(view, events[0]), events[1..], session); }
  }

  lemma SameViews(a: View, b: View)
    requires forall session :: Get(a, session) == Get(b, session)
    ensures a == b
  {
    forall session ensures session in a <==> session in b {
      assert Get(a, session) == Get(b, session);
    }
    forall session | session in a ensures a[session] == b[session] {
      assert Get(a, session) == Get(b, session);
    }
  }

  lemma {:induction false} HearAllConcat(view: View, first: seq<Event>, rest: seq<Event>)
    ensures HearAll(view, first + rest) == HearAll(HearAll(view, first), rest)
    decreases |first|
  {
    hide Hear;
    if first == [] {
      assert first + rest == rest;
    } else {
      assert (first + rest)[1..] == first[1..] + rest;
      HearAllConcat(Hear(view, first[0]), first[1..], rest);
    }
  }

  lemma {:induction false} HearAllAtWorkConcat(workbench: Workbench, first: seq<Event>, rest: seq<Event>)
    ensures HearAllAtWork(workbench, first + rest) == HearAllAtWork(HearAllAtWork(workbench, first), rest)
    decreases |first|
  {
    hide HearAtWork;
    if first == [] {
      assert first + rest == rest;
    } else {
      assert (first + rest)[1..] == first[1..] + rest;
      HearAllAtWorkConcat(HearAtWork(workbench, first[0]), first[1..], rest);
    }
  }

  lemma {:induction false} OneAllConcat(known: Option<Stamp>, session: Session, first: seq<Event>, rest: seq<Event>)
    ensures OneAll(known, session, first + rest) == OneAll(OneAll(known, session, first), session, rest)
    decreases |first|
  {
    hide One;
    if first == [] {
      assert first + rest == rest;
    } else {
      assert (first + rest)[1..] == first[1..] + rest;
      OneAllConcat(One(known, session, first[0]), session, first[1..], rest);
    }
  }

  lemma HearOne(view: View, event: Event)
    ensures HearAll(view, [event]) == Hear(view, event)
  {
    assert [event][1..] == [];
  }

  predicate Removes(event: Event, session: Session) {
    event.Reset? || event == Cleared(session)
  }

  predicate Removed(events: seq<Event>, session: Session) {
    exists i :: 0 <= i < |events| && Removes(events[i], session)
  }

  /** After a removal it does not matter what was known before. */
  lemma {:induction false} RemovalForgets(a: Option<Stamp>, b: Option<Stamp>, session: Session, events: seq<Event>)
    requires Removed(events, session)
    ensures OneAll(a, session, events) == OneAll(b, session, events)
    decreases |events|
  {
    var i :| 0 <= i < |events| && Removes(events[i], session);
    if Removes(events[0], session) {
    } else {
      assert events[1..][i - 1] == events[i];
      RemovalForgets(One(a, session, events[0]), One(b, session, events[0]), session, events[1..]);
    }
  }

  lemma LatestOfThree(a: Option<Stamp>, b: Option<Stamp>, c: Option<Stamp>)
    ensures Latest(Latest(a, b), c) == Latest(a, Latest(b, c))
  {
  }

  /** Without a removal the newest report counts. */
  lemma {:induction false} NewestCounts(known: Option<Stamp>, session: Session, events: seq<Event>)
    requires !Removed(events, session)
    ensures OneAll(known, session, events) == Latest(known, OneAll(None, session, events))
    decreases |events|
  {
    if events != [] {
      hide Latest;
      var first, rest := events[0], events[1..];
      assert !Removes(first, session);
      forall i | 0 <= i < |rest| ensures !Removes(rest[i], session) {
        assert rest[i] == events[i + 1];
      }
      NewestCounts(One(known, session, first), session, rest);
      NewestCounts(One(None, session, first), session, rest);
      LatestOfNone();
      if first.Updated? && first.session == session {
        LatestOfThree(known, Some(first.stamp), OneAll(None, session, rest));
      }
    }
  }

  lemma LatestOfNone()
    ensures forall a :: Latest(None, a) == a && Latest(a, None) == a
  {
  }

  // ---- What every step keeps ----

  function Unsent(s: State): seq<Event> {
    if s.pending.Some? then [s.pending.value] else []
  }

  /** Everything that is broadcast from place `p` on, or about to be. */
  function From(s: State, p: nat): seq<Event>
    requires p <= |s.log|
  {
    s.log[p..] + Unsent(s)
  }

  /** Hearing the latest events again on top of the cache changes nothing. */
  ghost predicate Stable(s: State) {
    forall p :: 0 <= p <= |s.log| ==> HearAll(s.cache, From(s, p)) == s.cache
  }

  function Ahead(s: State): seq<Event>
    requires s.pos <= |s.log|
  {
    (if s.mode.Replaying? then s.mode.rest else []) + From(s, s.pos)
  }

  /** What is ahead of the listener takes it to the cache; while a lag is unanswered nothing is claimed. */
  ghost predicate Follows(s: State)
    requires s.pos <= |s.log|
  {
    && (s.hostEpoch == s.epoch && Listening(s.mode) ==> HearAll(s.eager, Ahead(s)) == s.cache)
    && (s.mode.Unsubscribed? || s.mode.Subscribed? ==> s.eager == map[])
  }

  /** What is ahead will be sent as it is, unless it is dropped. */
  predicate Listening(mode: Mode) {
    mode.Receiving? || mode.Replaying?
  }

  ghost predicate Sound(s: State) {
    && s.capacity > 0 && s.pos <= |s.log|
    && s.epoch <= s.hostEpoch
    && (s.closed || s.epoch < s.hostEpoch ==> s.pending == None)
    && (s.closed ==> s.epoch == s.hostEpoch)
    && (s.mode.Replaying? ==> s.mode.rest != [])
  }

  ghost predicate Inv(s: State) {
    Sound(s) && Stable(s) && Follows(s)
  }

  /** A newly accepted report outlasts everything that is still in the ring. */
  lemma AcceptedLasts(cache: View, session: Session, stamp: Stamp, events: seq<Event>)
    requires HearAll(cache, events) == cache
    requires session in cache ==> Newer(stamp, cache[session])
    ensures HearAll(cache[session := stamp], events + [Updated(session, stamp)]) == cache[session := stamp]
  {
    hide HearAll;
    var after := cache[session := stamp];
    HearAllConcat(after, events, [Updated(session, stamp)]);
    var heard := HearAll(after, events);
    HearOne(heard, Updated(session, stamp));
    forall other ensures Get(Keep(heard, session, stamp), other) == Get(after, other) {
      HeardOne(after, events, other);
      HeardOne(cache, events, other);
      if other == session {
        if Removed(events, session) {
          RemovalForgets(Get(cache, session), Get(after, session), session, events);
        } else {
          NewestCounts(Get(cache, session), session, events);
          NewestCounts(Get(after, session), session, events);
        }
      }
    }
    SameViews(Keep(heard, session, stamp), after);
  }

  lemma ClearedLasts(cache: View, session: Session, events: seq<Event>)
    requires HearAll(cache, events) == cache
    ensures HearAll(cache - {session}, events + [Cleared(session)]) == cache - {session}
  {
    hide HearAll;
    var after := cache - {session};
    HearAllConcat(after, events, [Cleared(session)]);
    var heard := HearAll(after, events);
    HearOne(heard, Cleared(session));
    forall other ensures Get(heard - {session}, other) == Get(after, other) {
      HeardOne(after, events, other);
      HeardOne(cache, events, other);
    }
    SameViews(heard - {session}, after);
  }

  lemma ResetLasts(view: View, events: seq<Event>, epoch: nat)
    ensures HearAll(view, events + [Reset(epoch)]) == map[]
  {
    HearAllConcat(view, events, [Reset(epoch)]);
    HearOne(HearAll(view, events), Reset(epoch));
  }

  /** What a change of the source adds to the events. */
  ghost predicate Changes(step: Step) {
    step.Renew? || step.Accept? || step.Clear?
  }

  lemma ChangeAdds(s: State, step: Step, p: nat)
    requires Sound(s) && Enabled(s, step) && Changes(step) && p <= |s.log|
    ensures Apply(s, step).pending.Some?
    ensures From(Apply(s, step), p) == From(s, p) + [Apply(s, step).pending.value]
    ensures Hear(s.cache, Apply(s, step).pending.value) == Apply(s, step).cache
  {
  }

  lemma ChangeKeepsStable(s: State, step: Step)
    requires Sound(s) && Stable(s) && Enabled(s, step) && Changes(step)
    ensures Stable(Apply(s, step))
  {
    hide HearAll, From;
    var s' := Apply(s, step);
    forall p | 0 <= p <= |s.log| ensures HearAll(s'.cache, From(s', p)) == s'.cache {
      ChangeAdds(s, step, p);
      match step {
        case Accept(session, generation, sequence) =>
          AcceptedLasts(s.cache, session, Stamp(s.epoch, generation, sequence), From(s, p));
        case Clear(session) => ClearedLasts(s.cache, session, From(s, p));
        case Renew => ResetLasts(s'.cache, From(s, p), s.hostEpoch);
      }
    }
  }

  lemma ChangeKeepsFollows(s: State, step: Step)
    requires Inv(s) && Enabled(s, step) && Changes(step)
    ensures Follows(Apply(s, step))
  {
    hide HearAll, From, Stable;
    var s' := Apply(s, step);
    ChangeAdds(s, step, s.pos);
    var rest := if s.mode.Replaying? then s.mode.rest else [];
    var event := s'.pending.value;
    assert Ahead(s') == Ahead(s) + [event];
    if step.Renew? {
      ResetLasts(s.eager, Ahead(s), s.hostEpoch);
    } else {
      HearAllConcat(s.eager, Ahead(s), [event]);
      HearOne(HearAll(s.eager, Ahead(s)), event);
    }
  }

  lemma BroadcastMoves(s: State, p: nat)
    requires Sound(s) && Enabled(s, Broadcast) && p <= |s.log|
    ensures From(Apply(s, Broadcast), p) == From(s, p)
  {
  }

  lemma OtherIsNotHeard(view: View, log: seq<Event>, unsent: seq<Event>)
    ensures HearAll(view, log + [Other] + unsent) == HearAll(view, log + unsent)
  {
    HearAllConcat(view, log + [Other], unsent);
    HearAllConcat(view, log, [Other]);
    HearAllConcat(view, log, unsent);
    HearOne(HearAll(view, log), Other);
  }

  lemma BroadcastKeeps(s: State)
    requires Inv(s) && Enabled(s, Broadcast)
    ensures Inv(Apply(s, Broadcast))
  {
    hide HearAll, From;
    var s' := Apply(s, Broadcast);
    forall p | 0 <= p <= |s'.log| ensures HearAll(s'.cache, From(s', p)) == s'.cache {
      if p <= |s.log| {
        BroadcastMoves(s, p);
      } else {
        NothingFrom(s');
        NothingHeard(s.cache);
      }
    }
    BroadcastMoves(s, s.pos);
    assert Ahead(s') == Ahead(s);
  }

  lemma NothingFrom(s: State)
    requires s.pending == None
    ensures From(s, |s.log|) == []
  {
  }

  lemma OtherMoves(s: State, p: nat)
    requires Enabled(s, BroadcastOther) && p <= |s.log|
    ensures From(Apply(s, BroadcastOther), p) == s.log[p..] + [Other] + Unsent(s)
  {
    assert (s.log + [Other])[p..] == s.log[p..] + [Other];
  }

  lemma BroadcastOtherKeeps(s: State)
    requires Inv(s) && Enabled(s, BroadcastOther)
    ensures Inv(Apply(s, BroadcastOther))
  {
    hide HearAll, Unsent;
    var s' := Apply(s, BroadcastOther);
    forall p | 0 <= p <= |s'.log| ensures HearAll(s'.cache, From(s', p)) == s'.cache {
      assert Unsent(s') == Unsent(s) by { SameUnsent(s); }
      if p <= |s.log| {
        OtherMoves(s, p);
        OtherIsNotHeard(s.cache, s.log[p..], Unsent(s));
        assert HearAll(s.cache, From(s, p)) == s.cache;
      } else {
        assert s'.log[p..] == [] && s.log[|s.log|..] == [];
        assert From(s', p) == From(s, |s.log|);
        assert HearAll(s.cache, From(s, |s.log|)) == s.cache;
      }
    }
    var rest := if s.mode.Replaying? then s.mode.rest else [];
    OtherMoves(s, s.pos);
    assert Ahead(s') == (rest + s.log[s.pos..]) + [Other] + Unsent(s);
    assert Ahead(s) == (rest + s.log[s.pos..]) + Unsent(s);
    OtherIsNotHeard(s.eager, rest + s.log[s.pos..], Unsent(s));
  }

  lemma SameUnsent(s: State)
    requires Enabled(s, BroadcastOther)
    ensures Unsent(Apply(s, BroadcastOther)) == Unsent(s)
  {
  }

  lemma NothingHeard(view: View)
    ensures HearAll(view, []) == view
  {
  }

  /** A snapshot after a reset is the cache. */
  lemma SnapshotIsCache(view: View, cache: View, snapshot: seq<Event>, epoch: nat)
    requires Lists(cache, snapshot)
    ensures HearAll(view, [Reset(epoch)] + snapshot) == cache
  {
    HearAllConcat(view, [Reset(epoch)], snapshot);
    HearOne(view, Reset(epoch));
    ListedIsCache(cache, snapshot);
  }

  lemma ListedIsCache(cache: View, snapshot: seq<Event>)
    requires Lists(cache, snapshot)
    ensures HearAll(map[], snapshot) == cache
  {
    forall session ensures OneAll(None, session, snapshot) == Get(cache, session) {
      SnapshotOfOne(cache, snapshot, session, None);
      if session in cache {
        assert Updated(session, cache[session]) in snapshot;
      } else {
        assert forall e :: e in snapshot ==> e.session != session;
      }
    }
    forall session ensures Get(HearAll(map[], snapshot), session) == Get(cache, session) {
      HeardOne(map[], snapshot, session);
    }
    SameViews(HearAll(map[], snapshot), cache);
  }

  lemma {:induction false} SnapshotOfOne(cache: View, snapshot: seq<Event>, session: Session, known: Option<Stamp>)
    requires forall e :: e in snapshot ==> e.Updated? && e.session in cache && e.stamp == cache[e.session]
    requires known == None || known == Get(cache, session)
    ensures OneAll(known, session, snapshot)
            == if exists e :: e in snapshot && e.session == session then Get(cache, session) else known
    decreases |snapshot|
  {
    if snapshot != [] {
      var first, rest := snapshot[0], snapshot[1..];
      assert first in snapshot;
      assert forall e :: e in snapshot <==> e == first || e in rest;
      SnapshotOfOne(cache, rest, session, One(known, session, first));
    }
  }

  lemma TailAdvances(log: seq<Event>, pos: nat, unsent: seq<Event>)
    requires pos < |log|
    ensures (log[pos..] + unsent)[0] == log[pos] && (log[pos..] + unsent)[1..] == log[pos + 1..] + unsent
  {
  }

  lemma ReceiveAdvances(s: State)
    requires s.pos < |s.log| && s.mode.Receiving?
    ensures Ahead(s) != [] && Ahead(s)[0] == s.log[s.pos] && Ahead(s)[1..] == From(s, s.pos + 1)
  {
    hide Unsent;
    TailAdvances(s.log, s.pos, Unsent(s));
    assert [] + From(s, s.pos) == From(s, s.pos);
  }

  lemma ReceiveKeeps(s: State, connected: bool)
    requires Inv(s) && Enabled(s, Receive(connected))
    ensures Sound(Apply(s, Receive(connected))) && Follows(Apply(s, Receive(connected)))
  {
    hide Stable, Hear, HearAtWork, Ahead, From;
    ReceiveAdvances(s);
    var s' := Apply(s, Receive(connected));
    assert Ahead(s') == Ahead(s)[1..] by { ReceivingAhead(s, s'); }
    if s.hostEpoch == s.epoch {
      assert HearAll(s.eager, Ahead(s)) == HearAll(Hear(s.eager, s.log[s.pos]), Ahead(s)[1..]);
    }
  }

  lemma ReceivingAhead(s: State, s': State)
    requires s.pos < |s.log| && s.mode.Receiving? && Ahead(s)[1..] == From(s, s.pos + 1)
    requires s'.log == s.log && s'.pending == s.pending && s'.mode == s.mode && s'.pos == s.pos + 1
    ensures Ahead(s') == Ahead(s)[1..]
  {
    assert From(s', s'.pos) == From(s, s.pos + 1) && [] + From(s', s'.pos) == From(s', s'.pos);
  }

  lemma TakeSnapshotKeeps(s: State, snapshot: seq<Event>)
    requires Inv(s) && Enabled(s, TakeSnapshot(snapshot))
    ensures Sound(Apply(s, TakeSnapshot(snapshot))) && Follows(Apply(s, TakeSnapshot(snapshot)))
  {
    hide HearAll, From, Lists;
    var s' := Apply(s, TakeSnapshot(snapshot));
    var replay := [Reset(s.mode.epoch)] + snapshot;
    SnapshotIsCache(s.eager, s.cache, snapshot, s.mode.epoch);
    assert From(s', s.pos) == From(s, s.pos) by { SameFrom(s, s'); }
    HearAllConcat(s.eager, replay, From(s, s.pos));
  }

  lemma TakeInitialKeeps(s: State, snapshot: seq<Event>)
    requires Inv(s) && Enabled(s, TakeInitial(snapshot))
    ensures Sound(Apply(s, TakeInitial(snapshot))) && Follows(Apply(s, TakeInitial(snapshot)))
  {
    hide HearAll, From, Lists;
    var s' := Apply(s, TakeInitial(snapshot));
    ListedIsCache(s.cache, snapshot);
    assert From(s', s.pos) == From(s, s.pos) by { SameFrom(s, s'); }
    assert Ahead(s') == snapshot + From(s, s.pos);
    HearAllConcat(s.eager, snapshot, From(s, s.pos));
  }

  lemma SameFrom(s: State, s': State)
    requires s'.log == s.log && s'.pending == s.pending
    ensures forall p :: 0 <= p <= |s.log| ==> From(s', p) == From(s, p)
  {
  }

  lemma ReplayKeeps(s: State, connected: bool)
    requires Inv(s) && Enabled(s, Replay(connected))
    ensures Sound(Apply(s, Replay(connected))) && Follows(Apply(s, Replay(connected)))
  {
    hide Stable, Hear, From;
    var s' := Apply(s, Replay(connected));
    SameFrom(s, s');
    assert Ahead(s)[1..] == Ahead(s') && Ahead(s)[0] == s.mode.rest[0];
  }

  lemma BridgeKeepsFollows(s: State, step: Step)
    requires step.Receive? || step.NoticeLag? || step.Ask? || step.TakeSnapshot? || step.Replay? || step.Subscribe?
             || step.TakeInitial?
    requires Inv(s) && Enabled(s, step)
    ensures Sound(Apply(s, step)) && Follows(Apply(s, step))
  {
    if step.Receive? {
      ReceiveKeeps(s, step.connected);
    } else if step.TakeSnapshot? {
      TakeSnapshotKeeps(s, step.snapshot);
    } else if step.TakeInitial? {
      TakeInitialKeeps(s, step.snapshot);
    } else if step.Replay? {
      ReplayKeeps(s, step.connected);
    }
  }

  lemma StepKeeps(s: State, step: Step)
    requires Inv(s) && Enabled(s, step) && step != GiveUp
    ensures Inv(Apply(s, step))
  {
    if Changes(step) {
      ChangeKeepsStable(s, step);
      ChangeKeepsFollows(s, step);
    } else if step.Broadcast? {
      BroadcastKeeps(s);
    } else if step.BroadcastOther? {
      BroadcastOtherKeeps(s);
    } else if step.Announce? || step.CloseSource? {
      SameEvents(s, step);
    } else {
      BridgeKeepsFollows(s, step);
      SameEvents(s, step);
    }
  }

  /** Steps that touch neither the cache nor the events. */
  lemma SameEvents(s: State, step: Step)
    requires Inv(s) && Enabled(s, step) && !Changes(step) && !step.Broadcast? && !step.BroadcastOther?
    ensures Stable(Apply(s, step))
    ensures step.Announce? || step.CloseSource? ==> Inv(Apply(s, step))
  {
    hide HearAll;
    var s' := Apply(s, step);
    assert forall p :: 0 <= p <= |s.log| ==> From(s', p) == From(s, p);
    if step.Announce? || step.CloseSource? { assert Ahead(s') == Ahead(s); }
  }

  lemma {:induction false} RunKeeps(s: State, steps: seq<Step>)
    requires ValidRun(s, steps) && AlwaysAnswered(steps) && Inv(s)
    ensures Inv(End(s, steps))
    decreases |steps|
  {
    hide Inv, Apply, Enabled;
    if steps != [] {
      assert steps[0] != GiveUp;
      StepKeeps(s, steps[0]);
      RunKeeps(Apply(s, steps[0]), steps[1..]);
    }
  }

  lemma InitHolds(s: State)
    requires Init(s)
    ensures Inv(s)
  {
  }

  lemma EndedConverged(s: State)
    requires Inv(s) && Ended(s)
    ensures s.eager == s.cache
  {
    assert Ahead(s) == [];
  }

  /**
    Whatever the lags, the clearings and the Host epochs, a listener that acts on clearings and resets ends with
    exactly the agents that the Client has.
   */
  lemma ConvergesUnderLag(s: State, steps: seq<Step>)
    requires Init(s) && ValidRun(s, steps) && AlwaysAnswered(steps) && Ended(End(s, steps))
    ensures End(s, steps).eager == End(s, steps).cache
  {
    hide Inv, Init;
    InitHolds(s);
    RunKeeps(s, steps);
    EndedConverged(End(s, steps));
  }

  // ---- A lag that is not answered ----

  /** What a lag at this moment drops, and what it leaves to be heard. */
  function Dropped(s: State): seq<Event>
    requires Enabled(s, NoticeLag)
  {
    s.log[s.pos..|s.log| - s.capacity]
  }

  function Left(s: State): seq<Event>
    requires Enabled(s, NoticeLag)
  {
    From(s, |s.log| - s.capacity)
  }

  predicate AtLeast(stamp: Stamp, known: Option<Stamp>) {
    known.None? || !Newer(known.value, stamp)
  }

  /**
    For one agent, dropping events is harmless when what is left removes the agent anyway, when they would have
    changed nothing, or when a report that is left is as new as what is known with them and without them.
   */
  ghost predicate Harmless(known: Option<Stamp>, session: Session, dropped: seq<Event>, left: seq<Event>) {
    || Removed(left, session)
    || OneAll(known, session, dropped) == known
    || exists stamp :: Updated(session, stamp) in left && AtLeast(stamp, known)
         && AtLeast(stamp, OneAll(known, session, dropped))
  }

  /** Without a removal, what is heard from nothing is the newest report. */
  lemma {:induction false} NewestIsReported(session: Session, events: seq<Event>)
    requires !Removed(events, session)
    ensures var newest := OneAll(None, session, events);
            && (newest.Some? ==> Updated(session, newest.value) in events)
            && (forall stamp :: Updated(session, stamp) in events ==>
              newest.Some? && AtLeast(newest.value, Some(stamp)))
    decreases |events|
  {
    if events != [] {
      var first, rest := events[0], events[1..];
      assert !Removes(first, session);
      forall i | 0 <= i < |rest| ensures !Removes(rest[i], session) {
        assert rest[i] == events[i + 1];
      }
      NewestIsReported(session, rest);
      NewestCounts(One(None, session, first), session, rest);
      assert forall e :: e in events <==> e == first || e in rest;
    }
  }

  lemma HarmlessExactly(known: Option<Stamp>, session: Session, dropped: seq<Event>, left: seq<Event>)
    ensures Harmless(known, session, dropped, left)
        <==> OneAll(OneAll(known, session, dropped), session, left) == OneAll(known, session, left)
  {
    var other := OneAll(known, session, dropped);
    if Removed(left, session) {
      RemovalForgets(known, other, session, left);
    } else {
      NewestIsReported(session, left);
      NewestCounts(known, session, left);
      NewestCounts(other, session, left);
      var newest := OneAll(None, session, left);
      if newest.Some? && AtLeast(newest.value, known) && AtLeast(newest.value, other) {
        assert Updated(session, newest.value) in left;
      }
    }
  }

  /** The state after a lag that the bridge got no answer to. */
  function Unanswered(s: State): State
    requires Enabled(s, NoticeLag)
  {
    Apply(Apply(s, NoticeLag), GiveUp)
  }

  /** Every later run that ends, and in which every lag is answered, ends with the Client's agents. */
  ghost predicate Recovers(s: State) {
    forall later :: ValidRun(s, later) && AlwaysAnswered(later) && Ended(End(s, later)) ==>
      End(s, later).eager == End(s, later).cache
  }

  /** What is left takes the listener to the cache if and only if dropping was harmless for every agent. */
  lemma LeftSuffices(s: State)
    requires Inv(s) && Enabled(s, NoticeLag) && s.hostEpoch == s.epoch
    ensures HearAll(s.eager, Left(s)) == s.cache
        <==> forall session :: Harmless(Get(s.eager, session), session, Dropped(s), Left(s))
  {
    hide HearAll, OneAll, Stable, Harmless;
    var dropped, left := Dropped(s), Left(s);
    AheadIsDroppedAndLeft(s);
    forall session
      ensures Get(s.cache, session) == OneAll(OneAll(Get(s.eager, session), session, dropped), session, left)
      ensures Harmless(Get(s.eager, session), session, dropped, left)
          <==> Get(s.cache, session) == Get(HearAll(s.eager, left), session)
    {
      HeardOne(s.eager, dropped + left, session);
      OneAllConcat(Get(s.eager, session), session, dropped, left);
      HeardOne(s.eager, left, session);
      HarmlessExactly(Get(s.eager, session), session, dropped, left);
    }
    if forall session :: Harmless(Get(s.eager, session), session, dropped, left) {
      SameViews(HearAll(s.eager, left), s.cache);
    }
  }

  lemma AheadIsDroppedAndLeft(s: State)
    requires Sound(s) && Enabled(s, NoticeLag)
    ensures Ahead(s) == Dropped(s) + Left(s)
  {
    var p := |s.log| - s.capacity;
    assert s.log[s.pos..] == s.log[s.pos..p] + s.log[p..];
  }

  // ---- Letting the bridge finish ----

  ghost predicate Leads(s: State, steps: seq<Step>, end: State) {
    ValidRun(s, steps) && End(s, steps) == end
  }

  /** Nothing new happens: what there is is sent, and the source stops. */
  predicate Finishing(step: Step) {
    step.Receive? || step.Replay? || step.Broadcast? || step.CloseSource?
  }

  ghost predicate Finishes(s: State, steps: seq<Step>, end: State) {
    Leads(s, steps, end) && forall step :: step in steps ==> Finishing(step)
  }

  lemma Precede(s: State, step: Step, end: State, rest: seq<Step>) returns (steps: seq<Step>)
    requires Enabled(s, step) && Leads(Apply(s, step), rest, end)
    ensures steps == [step] + rest && Leads(s, steps, end)
  {
    hide Enabled, Apply;
    steps := [step] + rest;
    assert steps[1..] == rest;
  }

  lemma {:induction false} Concat(s: State, first: seq<Step>, mid: State, rest: seq<Step>, end: State)
    requires Finishes(s, first, mid) && Finishes(mid, rest, end)
    ensures Finishes(s, first + rest, end)
    decreases |first|
  {
    hide Enabled, Apply;
    if first == [] {
      assert first + rest == rest;
    } else {
      Concat(Apply(s, first[0]), first[1..], mid, rest, end);
      assert (first + rest)[1..] == first[1..] + rest;
    }
  }

  lemma Nothing(s: State)
    ensures Finishes(s, [], s) && Leads(s, [], s)
  {
  }

  /** Nothing has to be dropped any more. */
  predicate InReach(s: State) {
    s.mode.Receiving? && s.capacity > 0 && s.pos <= |s.log| <= s.pos + s.capacity
  }

  lemma {:induction false} ReceiveAll(s: State) returns (steps: seq<Step>, end: State)
    requires InReach(s)
    ensures Finishes(s, steps, end)
    ensures InReach(end) && end.pos == |end.log|
    ensures end == s.(pos := end.pos, eager := end.eager, workbench := end.workbench)
    ensures end.eager == HearAll(s.eager, s.log[s.pos..])
    ensures end.workbench == HearAllAtWork(s.workbench, s.log[s.pos..])
    decreases |s.log| - s.pos
  {
    hide Hear, HearAtWork;
    if s.pos == |s.log| {
      steps, end := [], s;
      Nothing(s);
    } else {
      var next := Apply(s, Receive(false));
      var rest;
      rest, end := ReceiveAll(next);
      steps := Precede(s, Receive(false), end, rest);
      assert s.log[s.pos..][1..] == next.log[next.pos..];
    }
  }

  /** The source stops as it is and the bridge hears all that is left. */
  lemma Finish(s: State) returns (steps: seq<Step>, end: State)
    requires Sound(s) && InReach(s) && s.hostEpoch == s.epoch
    ensures Finishes(s, steps, end) && Ended(end)
    ensures end.cache == s.cache && end.epoch == s.epoch
    ensures end.eager == HearAll(s.eager, From(s, s.pos))
    ensures end.workbench == HearAllAtWork(s.workbench, From(s, s.pos))
  {
    var first, heard := ReceiveAll(s);
    var second, third, sent, closed;
    if heard.pending.Some? {
      sent := Apply(heard, Broadcast);
      var more;
      more, closed := ReceiveAll(sent);
      second := Precede(heard, Broadcast, closed, more);
      assert sent.log[sent.pos..] == Unsent(s);
      HearAllConcat(s.eager, s.log[s.pos..], Unsent(s));
      HearAllAtWorkConcat(s.workbench, s.log[s.pos..], Unsent(s));
    } else {
      second, closed := [], heard;
      Nothing(heard);
      assert From(s, s.pos) == s.log[s.pos..];
    }
    if closed.closed {
      third, end := [], closed;
      Nothing(closed);
    } else {
      end := Apply(closed, CloseSource);
      Nothing(end);
      third := Precede(closed, CloseSource, end, []);
    }
    Concat(s, first, heard, second, closed);
    Concat(s, first + second, closed, third, end);
    steps := first + second + third;
  }

  /**
    A lag that is not answered loses nothing for good if and only if a new Host epoch is about to reset everything or
    dropping the events was harmless for every agent.
   */
  lemma UnansweredLagIsHarmlessExactly(s: State)
    requires Inv(s) && Enabled(s, NoticeLag)
    ensures Recovers(Unanswered(s))
        <==> (s.hostEpoch != s.epoch
          || forall session :: Harmless(Get(s.eager, session), session, Dropped(s), Left(s)))
  {
    hide Harmless, Dropped, HearAll;
    var t := Unanswered(s);
    UnansweredIsSound(s);
    if s.hostEpoch == s.epoch { LeftSuffices(s); }
    if s.hostEpoch != s.epoch || HearAll(s.eager, Left(s)) == s.cache {
      assert Inv(t);
      forall later | ValidRun(t, later) && AlwaysAnswered(later) && Ended(End(t, later))
        ensures End(t, later).eager == End(t, later).cache
      {
        RunKeeps(t, later);
        EndedConverged(End(t, later));
      }
    } else {
      var steps, end := Finish(t);
      assert From(t, t.pos) == Left(s);
      assert end.eager != end.cache;
    }
  }

  lemma UnansweredIsSound(s: State)
    requires Inv(s) && Enabled(s, NoticeLag)
    ensures Sound(Unanswered(s)) && InReach(Unanswered(s))
    ensures Stable(Unanswered(s))
    ensures s.hostEpoch != s.epoch || HearAll(s.eager, Left(s)) == s.cache ==> Inv(Unanswered(s))
  {
    hide HearAll;
    var t := Unanswered(s);
    SameFrom(s, t);
    assert [] + From(t, t.pos) == From(t, t.pos);
  }

  // ---- Runs from the start ----

  /** The Host has its first epoch, and the bridge and its listeners are ready. */
  function Opened(capacity: nat): State {
    State(capacity, 1, 1, map[], None, [], false, 0, Receiving, map[], Workbench(1, map[], map[]))
  }

  lemma Opens(capacity: nat, end: State, rest: seq<Step>) returns (s: State, steps: seq<Step>)
    requires capacity > 0 && Leads(Opened(capacity), rest, end)
    ensures Init(s) && Leads(s, steps, end)
    ensures AlwaysAnswered(rest) ==> AlwaysAnswered(steps)
    ensures NoticeLag in steps ==> NoticeLag in rest
  {
    s := State(capacity, 0, 0, map[], None, [], false, 0, Unsubscribed, map[], Workbench(0, map[], map[]));
    var a := Apply(s, Announce(1));
    var b := Apply(a, Subscribe(true));
    var c := Apply(b, TakeInitial([]));
    assert c == Opened(capacity);
    hide Leads, Apply, Opened, Enabled;
    steps := Precede(b, TakeInitial([]), end, rest);
    steps := Precede(a, Subscribe(true), end, steps);
    steps := Precede(s, Announce(1), end, steps);
  }

  /** An update was cached and broadcast, and the ring of one event already holds something else. */
  function Behind(session: Session): State {
    var stamp := Stamp(1, 1, 1);
    Opened(1).(cache := map[session := stamp], log := [Updated(session, stamp), Other])
  }

  lemma BehindLoses(session: Session) returns (steps: seq<Step>, end: State)
    ensures Leads(Behind(session), steps, end) && Ended(end)
    ensures end.cache == map[session := Stamp(1, 1, 1)] && end.eager == map[]
  {
    var d := Behind(session);
    var e := Apply(d, NoticeLag);
    var f := Apply(e, GiveUp);
    var g := Apply(f, Receive(false));
    end := Apply(g, CloseSource);
    assert Ended(end) && end.cache == d.cache && end.eager == map[];
    Nothing(end);
    hide Leads, Apply, Enabled;
    steps := Precede(g, CloseSource, end, []);
    steps := Precede(f, Receive(false), end, steps);
    steps := Precede(e, GiveUp, end, steps);
    steps := Precede(d, NoticeLag, end, steps);
  }

  /** Such a lag can happen: a run from the start in which the listener never hears of an agent. */
  lemma UnansweredLagLosesAnUpdate(session: Session) returns (s: State, steps: seq<Step>, end: State)
    ensures Init(s) && Leads(s, steps, end) && Ended(end)
    ensures end.cache == map[session := Stamp(1, 1, 1)] && end.eager == map[]
  {
    var a := Opened(1);
    var b := Apply(a, Accept(session, 1, 1));
    var c := Apply(b, Broadcast);
    var d := Apply(c, BroadcastOther);
    assert d == Behind(session);
    hide Leads, Apply, Enabled, Behind, Opened;
    steps, end := BehindLoses(session);
    steps := Precede(c, BroadcastOther, end, steps);
    steps := Precede(b, Broadcast, end, steps);
    steps := Precede(a, Accept(session, 1, 1), end, steps);
    s, steps := Opens(1, end, steps);
  }
}
