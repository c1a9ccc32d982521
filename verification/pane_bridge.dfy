/**
  The terminal pane bridge (`forward_pane_events` in src/host_runtime.rs): one pane's events out of a
  lossy broadcast ring, with the pane's metadata re-read whenever its terminal was updated or the bridge
  lagged.
 */
module PaneBridge {
  import opened Wrappers

  /** What makes two metadata worth telling apart; the rest of the metadata is not compared. */
  datatype Key = Key(title: Option<string>, processState: int)
  datatype Metadata = Metadata(key: Key, sequence: nat)

  /** `Pane` events concern the pane and are forwarded as they are; `Updated` says its terminal changed. */
  datatype Event = Updated | Pane(id: nat) | Other

  datatype Message = Meta(metadata: Metadata) | Client(id: nat) | Resync

  datatype Received = Got(event: Event) | GotLag

  // ---- One turn of the loop ----

  class Bridge {
    var lastMetadata: Option<Key>
    var sent: seq<Message>

    constructor ()
      ensures lastMetadata == None && sent == []
    {
      lastMetadata := None;
      sent := [];
    }

    /** The first half of a turn: what was received, and whether the metadata must be read again. */
    method Take(received: Received) returns (refresh: bool)
      modifies this
      ensures refresh == Refreshes(received)
      ensures lastMetadata == LastAfter(old(lastMetadata), received)
      ensures sent == old(sent) + Forwarded(received)
    {
      if received.GotLag? {
        sent := sent + [Resync];
        lastMetadata := None;
        return true;
      }
      if received.event.Updated? {
        return true;
      }
      if received.event.Pane? {
        sent := sent + [Client(received.event.id)];
      }
      return false;
    }

    /** The second half of a refreshing turn. */
    method Refresh(metadata: Option<Metadata>)
      modifies this
      ensures lastMetadata == if metadata.Some? then Some(metadata.value.key) else old(lastMetadata)
      ensures sent == old(sent) + News(old(lastMetadata), metadata)
    {
      if metadata.None? {
        return;
      }
      var key := metadata.value.key;
      if lastMetadata == Some(key) {
        return;
      }
      lastMetadata := Some(key);
      sent := sent + [Meta(metadata.value)];
    }
  }

  function Refreshes(received: Received): bool {
    received == GotLag || received == Got(Updated)
  }

  function LastAfter(last: Option<Key>, received: Received): Option<Key> {
    if received == GotLag then None else last
  }

  function Forwarded(received: Received): seq<Message> {
    if received.GotLag? then [Resync]
    else if received.event.Pane? then [Client(received.event.id)]
    else []
  }

  function News(last: Option<Key>, metadata: Option<Metadata>): seq<Message> {
    match metadata
    case None => []
    case Some(m) => if last == Some(m.key) then [] else [Meta(m)]
  }

  // ---- The bridge among the source, the ring and the pane ----

  /**
    `metadata` is the cached metadata of the pane, replaced before the update that announces it is
    broadcast. `dirty` records that it changed since the bridge last read it; `base` is where the ring
    stood when the bridge last lagged.
   */
  datatype State = State(
    capacity: nat,
    metadata: Option<Metadata>,
    unsent: nat,
    log: seq<Event>,
    pos: nat,
    refreshing: bool,
    last: Option<Key>,
    sent: seq<Message>,
    dirty: bool,
    read: bool,
    base: nat)

  datatype Step =
    | Change(metadata: Option<Metadata>)
    | BroadcastUpdate
    | BroadcastOther(event: Event)
    | Receive
    | NoticeLag
    | ReadMetadata

  ghost predicate Enabled(s: State, step: Step) {
    match step
    case Change(metadata) => true
    case BroadcastUpdate => s.unsent > 0
    case BroadcastOther(event) => event != Updated
    case Receive => !s.refreshing && s.pos < |s.log| <= s.pos + s.capacity
    case NoticeLag => !s.refreshing && s.pos + s.capacity < |s.log|
    case ReadMetadata => s.refreshing
  }

  function Take(s: State, received: Received): State {
    s.(last := LastAfter(s.last, received), sent := s.sent + Forwarded(received), refreshing := Refreshes(received))
  }

  function Apply(s: State, step: Step): State
    requires Enabled(s, step)
  {
    match step
    case Change(metadata) => s.(metadata := metadata, unsent := s.unsent + 1, dirty := true)
    case BroadcastUpdate => s.(log := s.log + [Updated], unsent := s.unsent - 1)
    case BroadcastOther(event) => s.(log := s.log + [event])
    case Receive => Take(s, Got(s.log[s.pos])).(pos := s.pos + 1)
    case NoticeLag => Take(s, GotLag).(pos := |s.log| - s.capacity, base := |s.log| - s.capacity)
    case ReadMetadata =>
      s.(last := if s.metadata.Some? then Some(s.metadata.value.key) else s.last,
         sent := s.sent + News(s.last, s.metadata),
         refreshing := false, dirty := false, read := true)
  }

  ghost predicate Init(s: State) {
    && s.capacity > 0 && s.log == [] && s.pos == 0 && s.unsent == 0 && !s.refreshing
    && s.last == None && s.sent == [] && !s.dirty && !s.read && s.base == 0
  }

  ghost predicate ValidRun(s: State, steps: seq<Step>)
    decreases |steps|
  {
    steps == [] || (Enabled(s, steps[0]) && ValidRun(Apply(s, steps[0]), steps[1..]))
  }

  function End(s: State, steps: seq<Step>): State
    requires ValidRun(s, steps)
    decreases |steps|
  {
    if steps == [] then s else End(Apply(s, steps[0]), steps[1..])
  }

  // ---- One event at a time ----

  /** A bridge that has received everything and sent what it had to. */
  predicate CaughtUp(s: State) {
    s.capacity > 0 && s.pos == |s.log| && !s.refreshing
  }

  /** What the ring still holds is received, and what it has dropped is noticed as a lag; never both. */
  lemma ReceivesOrLags(s: State)
    requires !s.refreshing && s.pos < |s.log|
    ensures Enabled(s, Receive) <==> |s.log| - s.pos <= s.capacity
    ensures Enabled(s, NoticeLag) <==> |s.log| - s.pos > s.capacity
  {
  }

  /** A pane event is broadcast, received and passed on as it is, and any other event is not passed on. */
  lemma EventAlone(s: State, event: Event)
    requires CaughtUp(s) && event != Updated
    ensures Enabled(s, BroadcastOther(event)) && Enabled(Apply(s, BroadcastOther(event)), Receive)
    ensures Apply(Apply(s, BroadcastOther(event)), Receive)
         == s.(log := s.log + [event], pos := s.pos + 1,
               sent := if event.Pane? then s.sent + [Client(event.id)] else s.sent)
  {
    assert s.sent + [] == s.sent;
  }

  /** New metadata is cached, announced and received, and then the bridge has it to read. */
  lemma ChangeIsNoticed(s: State, metadata: Option<Metadata>)
    requires CaughtUp(s)
    ensures Enabled(s, Change(metadata)) && Enabled(Apply(s, Change(metadata)), BroadcastUpdate)
    ensures Enabled(Apply(Apply(s, Change(metadata)), BroadcastUpdate), Receive)
    ensures Apply(Apply(Apply(s, Change(metadata)), BroadcastUpdate), Receive)
         == s.(metadata := metadata, log := s.log + [Updated], pos := s.pos + 1, refreshing := true, dirty := true)
  {
    assert s.sent + [] == s.sent;
  }

  /** The metadata that is read is sent, unless there is none or its key is the one sent last. */
  lemma ReadingAlone(s: State)
    requires s.refreshing
    ensures Enabled(s, ReadMetadata)
    ensures s.metadata == None ==>
              Apply(s, ReadMetadata) == s.(refreshing := false, dirty := false, read := true)
    ensures s.metadata.Some? && s.last == Some(s.metadata.value.key) ==>
              Apply(s, ReadMetadata) == s.(refreshing := false, dirty := false, read := true)
    ensures s.metadata.Some? && s.last != Some(s.metadata.value.key) ==>
              Apply(s, ReadMetadata)
              == s.(refreshing := false, dirty := false, read := true, last := Some(s.metadata.value.key),
                    sent := s.sent + [Meta(s.metadata.value)])
  {
    assert s.sent + [] == s.sent;
  }

  /** A lag is told at once, forgets what was sent last, and the bridge goes on with the oldest event that is kept. */
  lemma LagAlone(s: State)
    requires !s.refreshing && s.pos + s.capacity < |s.log|
    ensures Enabled(s, NoticeLag)
    ensures Apply(s, NoticeLag)
         == s.(sent := s.sent + [Resync], last := None, refreshing := true, pos := |s.log| - s.capacity,
               base := |s.log| - s.capacity)
  {
  }

  // ---- What the pane sees ----

  /** The messages after the last `Resync`. */
  function SinceResync(sent: seq<Message>): seq<Message> {
    if sent == [] then []
    else if sent[|sent| - 1] == Resync then []
    else SinceResync(sent[..|sent| - 1]) + [sent[|sent| - 1]]
  }

  function KeyAfter(last: Option<Key>, message: Message): Option<Key> {
    if message.Resync? then None else if message.Meta? then Some(message.metadata.key) else last
  }

  /** The key of the last metadata after the last `Resync`. */
  function LastKey(sent: seq<Message>): Option<Key> {
    if sent == [] then None else KeyAfter(LastKey(sent[..|sent| - 1]), sent[|sent| - 1])
  }

  function PaneId(event: Event): seq<nat> {
    if event.Pane? then [event.id] else []
  }

  function PaneIds(log: seq<Event>): seq<nat> {
    if log == [] then [] else PaneIds(log[..|log| - 1]) + PaneId(log[|log| - 1])
  }

  function ClientId(message: Message): seq<nat> {
    if message.Client? then [message.id] else []
  }

  function ClientIds(sent: seq<Message>): seq<nat> {
    if sent == [] then [] else ClientIds(sent[..|sent| - 1]) + ClientId(sent[|sent| - 1])
  }

  /** No metadata repeats the key of the metadata before it, unless a `Resync` stands between them. */
  ghost predicate NoRepeats(sent: seq<Message>) {
    forall i :: 0 <= i < |sent| && sent[i].Meta? ==> LastKey(sent[..i]) != Some(sent[i].metadata.key)
  }

  /** A change the bridge has not read is announced by something it has still to handle. */
  ghost predicate Pending(s: State) {
    s.unsent > 0 || s.refreshing || exists i :: s.pos <= i < |s.log| && s.log[i] == Updated
  }

  /** The pane got every pane event since the last lag, once each and in order. */
  ghost predicate NothingLost(s: State) {
    s.base <= s.pos <= |s.log| && ClientIds(SinceResync(s.sent)) == PaneIds(s.log[s.base..s.pos])
  }

  ghost predicate Inv(s: State) {
    && s.capacity > 0 && s.base <= s.pos <= |s.log|
    && s.last == LastKey(s.sent)
    && NoRepeats(s.sent)
    && (s.dirty ==> Pending(s))
    && (!s.dirty && s.read && !s.refreshing && s.metadata.Some? ==> s.last == Some(s.metadata.value.key))
    && NothingLost(s)
  }

  lemma Appended(sent: seq<Message>, message: Message)
    ensures var longer := sent + [message];
            && SinceResync(longer) == (if message == Resync then [] else SinceResync(sent) + [message])
            && LastKey(longer) == KeyAfter(LastKey(sent), message)
    ensures ClientIds(SinceResync(sent + [message]))
            == if message == Resync then [] else ClientIds(SinceResync(sent)) + ClientId(message)
  {
    assert (sent + [message])[..|sent|] == sent;
    var since := SinceResync(sent);
    assert (since + [message])[..|since|] == since;
  }

  lemma NoRepeatsAppended(sent: seq<Message>, message: Message)
    requires NoRepeats(sent) && (message.Meta? ==> LastKey(sent) != Some(message.metadata.key))
    ensures NoRepeats(sent + [message])
  {
    var longer := sent + [message];
    forall i | 0 <= i < |longer| && longer[i].Meta? ensures LastKey(longer[..i]) != Some(longer[i].metadata.key) {
      if i < |sent| { assert longer[..i] == sent[..i]; } else { assert longer[..i] == sent; }
    }
  }

  lemma PaneIdsNext(log: seq<Event>, base: nat, pos: nat)
    requires base <= pos < |log|
    ensures PaneIds(log[base..pos + 1]) == PaneIds(log[base..pos]) + PaneId(log[pos])
  {
    assert log[base..pos + 1][..pos - base] == log[base..pos];
  }

  lemma SourceStepKeeps(s: State, step: Step)
    requires step.Change? || step.BroadcastUpdate? || step.BroadcastOther?
    requires Inv(s) && Enabled(s, step)
    ensures Inv(Apply(s, step))
  {
    var s' := Apply(s, step);
    assert s'.log[s.base..s.pos] == s.log[s.base..s.pos];
    assert forall i :: 0 <= i < |s.log| ==> s'.log[i] == s.log[i];
    if step.BroadcastUpdate? { assert s'.log[|s.log|] == Updated; }
  }

  lemma ReceivedStaysPending(s: State)
    requires Enabled(s, Receive) && Pending(s)
    ensures Pending(Apply(s, Receive))
  {
    if s.unsent == 0 {
      var i :| s.pos <= i < |s.log| && s.log[i] == Updated;
      var s' := Apply(s, Receive);
      assert s'.log[i] == Updated;
    }
  }

  lemma ReceivedIsKept(s: State)
    requires Inv(s) && Enabled(s, Receive)
    ensures NothingLost(Apply(s, Receive)) && NoRepeats(Apply(s, Receive).sent)
    ensures LastKey(Apply(s, Receive).sent) == Apply(s, Receive).last
  {
    hide Pending, NoRepeats, PaneIds, SinceResync, ClientIds, LastKey;
    PaneIdsNext(s.log, s.base, s.pos);
    var event := s.log[s.pos];
    if event.Pane? {
      Appended(s.sent, Client(event.id));
      NoRepeatsAppended(s.sent, Client(event.id));
    } else {
      assert s.sent + [] == s.sent;
    }
  }

  lemma ReceiveKeeps(s: State)
    requires Inv(s) && Enabled(s, Receive)
    ensures Inv(Apply(s, Receive))
  {
    hide NothingLost, NoRepeats, LastKey, Pending;
    ReceivedIsKept(s);
    if s.dirty { ReceivedStaysPending(s); }
  }

  lemma NoticeLagKeeps(s: State)
    requires Inv(s) && Enabled(s, NoticeLag)
    ensures Inv(Apply(s, NoticeLag))
  {
    Appended(s.sent, Resync);
    NoRepeatsAppended(s.sent, Resync);
  }

  lemma ReadMetadataKeeps(s: State)
    requires Inv(s) && Enabled(s, ReadMetadata)
    ensures Inv(Apply(s, ReadMetadata))
  {
    if s.metadata.Some? && s.last != Some(s.metadata.value.key) {
      Appended(s.sent, Meta(s.metadata.value));
      NoRepeatsAppended(s.sent, Meta(s.metadata.value));
    } else {
      assert s.sent + [] == s.sent;
    }
  }

  lemma {:induction false} RunKeeps(s: State, steps: seq<Step>)
    requires ValidRun(s, steps) && Inv(s)
    ensures Inv(End(s, steps))
    decreases |steps|
  {
    hide Inv, Apply, Enabled;
    if steps != [] {
      match steps[0] {
        case Receive => ReceiveKeeps(s);
        case NoticeLag => NoticeLagKeeps(s);
        case ReadMetadata => ReadMetadataKeeps(s);
        case _ => SourceStepKeeps(s, steps[0]);
      }
      RunKeeps(Apply(s, steps[0]), steps[1..]);
    }
  }

  lemma InitHolds(s: State)
    requires Init(s)
    ensures Inv(s)
  {
  }

  /** Over every run, equal metadata never follow each other, and after the last `Resync` no pane event is missing. */
  lemma PaneStreamIsFaithful(s: State, steps: seq<Step>)
    requires Init(s) && ValidRun(s, steps)
    ensures NoRepeats(End(s, steps).sent)
    ensures NothingLost(End(s, steps))
  {
    InitHolds(s);
    RunKeeps(s, steps);
  }

  /** Once a change was announced and everything is handled, the pane shows the current metadata. */
  lemma NoStalePane(s: State, steps: seq<Step>)
    requires Init(s) && ValidRun(s, steps)
    requires var end := End(s, steps);
             && end.unsent == 0 && end.pos == |end.log| && !end.refreshing && (end.read || end.dirty)
    ensures var end := End(s, steps);
            !end.dirty && (end.metadata.Some? ==> LastKey(end.sent) == Some(end.metadata.value.key))
  {
    InitHolds(s);
    RunKeeps(s, steps);
  }

  // ---- After a lag ----

  /** The bridge only ever appends to what it sent. */
  lemma {:induction false} SentGrows(s: State, steps: seq<Step>)
    requires ValidRun(s, steps)
    ensures s.sent <= End(s, steps).sent
    decreases |steps|
  {
    if steps != [] {
      assert s.sent <= Apply(s, steps[0]).sent;
      SentGrows(Apply(s, steps[0]), steps[1..]);
    }
  }

  /** What the first reading of the metadata in a run finds, if there is one. */
  function FirstRead(s: State, steps: seq<Step>): Option<Option<Metadata>>
    requires ValidRun(s, steps)
    decreases |steps|
  {
    if steps == [] then None
    else if steps[0] == ReadMetadata then Some(s.metadata)
    else FirstRead(Apply(s, steps[0]), steps[1..])
  }

  lemma {:induction false} NextIsTheMetadata(s: State, steps: seq<Step>)
    requires ValidRun(s, steps) && s.refreshing && s.last == None
    ensures FirstRead(s, steps).None? ==> End(s, steps).sent == s.sent && End(s, steps).refreshing
    ensures FirstRead(s, steps).Some? ==> s.sent + News(None, FirstRead(s, steps).value) <= End(s, steps).sent
    decreases |steps|
  {
    if steps != [] {
      var next := Apply(s, steps[0]);
      if steps[0] == ReadMetadata {
        SentGrows(next, steps[1..]);
      } else {
        NextIsTheMetadata(next, steps[1..]);
      }
    }
  }

  /**
    In every run after a lag `Resync` comes first, and right behind it the metadata that the bridge reads next,
    even when its key is the one sent before the lag; until that is read, nothing else is sent.
   */
  lemma LagResyncsThenRefreshes(s: State, steps: seq<Step>)
    requires Enabled(s, NoticeLag) && ValidRun(Apply(s, NoticeLag), steps)
    ensures var lagged := Apply(s, NoticeLag);
            var sent, read := End(lagged, steps).sent, FirstRead(lagged, steps);
            && (read == None ==> sent == s.sent + [Resync])
            && (read == Some(None) ==> s.sent + [Resync] <= sent)
            && (read.Some? && read.value.Some? ==> s.sent + [Resync] + [Meta(read.value.value)] <= sent)
  {
    NextIsTheMetadata(Apply(s, NoticeLag), steps);
  }
}
