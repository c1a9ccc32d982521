/**
  The layout signal (`workspace_layout_changes` in src/host_runtime.rs): a bridge that turns layout
  events out of a lossy broadcast ring into one coalescing signal, whose receiver reads the layout itself.
 */
module LayoutSignal {
  import opened Wrappers

  datatype Event = LayoutChanged(workspace: nat) | Other

  datatype Received = Got(event: Event) | GotLag

  /** A layout change of the watched workspace is signalled, and so is a lag, which may have hidden one. */
  predicate Signals(received: Received, watched: nat) {
    received.GotLag? || received.event == LayoutChanged(watched)
  }

  class SignalBridge {
    const watched: nat
    /** Whether the channel, which holds one signal, is full. */
    var pending: bool

    constructor (watched: nat)
      ensures this.watched == watched && !pending
    {
      this.watched := watched;
      pending := false;
    }

    /** One turn of the bridge: `try_send` into a full channel leaves it full. */
    method Take(received: Received)
      modifies this
      ensures pending == (old(pending) || Signals(received, watched))
    {
      if received.Got? {
        if received.event.Other? || received.event.workspace != watched {
          return;
        }
      }
      pending := true;
    }
  }

  // ---- The bridge between the Client's cache and the reader ----

  /** Revisions start anew whenever the Client forgets the layout; `epoch` counts how often it did. */
  datatype Layout = Layout(epoch: nat, revision: nat)

  predicate AtLeast(a: Layout, b: Layout) {
    a.epoch > b.epoch || (a.epoch == b.epoch && a.revision >= b.revision)
  }

  /**
    `held` is the layout the Client holds, replaced before `LayoutChanged` is broadcast; `unsent` counts the changes
    whose event is still to be broadcast. The reader takes the signal (`taken`) and then reads, which sets `seen`.
   */
  datatype State = State(
    watched: nat,
    capacity: nat,
    epoch: nat,
    held: Option<Layout>,
    unsent: nat,
    log: seq<Event>,
    pos: nat,
    pending: bool,
    taken: bool,
    seen: Option<Layout>)

  /** `Forget` is a new Host epoch, or a workspace that the Host no longer has: neither broadcasts a layout event. */
  datatype Step =
    | Offer(revision: nat)
    | Forget
    | Broadcast
    | BroadcastOther(event: Event)
    | Receive
    | NoticeLag
    | TakeSignal
    | Read

  ghost predicate Enabled(s: State, step: Step) {
    match step
    case Offer(revision) => true
    case Forget => true
    case Broadcast => s.unsent > 0
    case BroadcastOther(event) => event != LayoutChanged(s.watched)
    case Receive => s.pos < |s.log| <= s.pos + s.capacity
    case NoticeLag => s.pos + s.capacity < |s.log|
    case TakeSignal => s.pending
    case Read => true
  }

  predicate Newer(held: Option<Layout>, revision: nat) {
    held.None? || held.value.revision < revision
  }

  function Apply(s: State, step: Step): State
    requires Enabled(s, step)
  {
    match step
    case Offer(revision) =>
      if Newer(s.held, revision) then s.(held := Some(Layout(s.epoch, revision)), unsent := s.unsent + 1) else s
    case Forget => s.(held := None, epoch := s.epoch + 1)
    case Broadcast => s.(log := s.log + [LayoutChanged(s.watched)], unsent := s.unsent - 1)
    case BroadcastOther(event) => s.(log := s.log + [event])
    case Receive => s.(pending := s.pending || Signals(Got(s.log[s.pos]), s.watched), pos := s.pos + 1)
    case NoticeLag => s.(pending := s.pending || Signals(GotLag, s.watched), pos := |s.log| - s.capacity)
    case TakeSignal => s.(pending := false, taken := true)
    case Read => s.(taken := false, seen := s.held)
  }

  ghost predicate ValidRun(s: State, steps: seq<Step>)
    decreases |steps|
  {
    steps == [] || (Enabled(s, steps[0]) && ValidRun(Apply(s, steps[0]), steps[1..]))
  }

  function End(s: State, steps: seq<Step>): State
    requires ValidRun(s, steps)
    decreases |steps|
  {
    if steps == [] then s else End(Apply(s, steps[0]), steps[1..])
  }

  // ---- One event at a time ----

  /** What the ring still holds is received, and what it has dropped is noticed as a lag; never both. */
  lemma ReceivesOrLags(s: State)
    requires s.pos < |s.log|
    ensures Enabled(s, Receive) <==> |s.log| - s.pos <= s.capacity
    ensures Enabled(s, NoticeLag) <==> |s.log| - s.pos > s.capacity
  {
  }

  /** Whatever the bridge missed, a lag fills the channel, and the bridge goes on with the oldest event that is kept. */
  lemma LagAlone(s: State)
    requires s.pos + s.capacity < |s.log|
    ensures Enabled(s, NoticeLag)
    ensures Apply(s, NoticeLag) == s.(pending := true, pos := |s.log| - s.capacity)
    ensures s.capacity > 0 ==> Enabled(Apply(s, NoticeLag), Receive)
  {
  }

  /** A change of the layout, announced and received, fills the channel; another event leaves it as it was. */
  lemma EventAlone(s: State, event: Event)
    requires s.capacity > 0 && s.pos == |s.log| && (event == LayoutChanged(s.watched) ==> s.unsent > 0)
    ensures var own := event == LayoutChanged(s.watched);
            var step := if own then Broadcast else BroadcastOther(event);
            && Enabled(s, step) && Enabled(Apply(s, step), Receive)
            && Apply(Apply(s, step), Receive)
               == s.(log := s.log + [event], pos := s.pos + 1, pending := s.pending || own,
                     unsent := if own then s.unsent - 1 else s.unsent)
  {
  }

  /** A revision replaces what is held when it is newer, in the epoch of the Client, and is otherwise not heard of. */
  lemma OfferAlone(s: State, revision: nat)
    ensures Apply(s, Offer(revision))
         == if s.held.Some? && revision <= s.held.value.revision then s
            else s.(held := Some(Layout(s.epoch, revision)), unsent := s.unsent + 1)
  {
  }

  /** The reader that takes the signal sees what is held when it reads, and the channel is empty again. */
  lemma ReadAlone(s: State)
    requires s.pending
    ensures Enabled(s, TakeSignal) && Enabled(Apply(s, TakeSignal), Read)
    ensures Apply(Apply(s, TakeSignal), Read) == s.(pending := false, taken := false, seen := s.held)
  {
  }

  ghost predicate OfThisEpoch(s: State) {
    s.held.Some? ==> s.held.value.epoch == s.epoch
  }

  ghost predicate Init(s: State) {
    && s.capacity > 0 && s.log == [] && s.pos == 0 && s.unsent == 0 && !s.pending && !s.taken
    && s.seen == s.held && OfThisEpoch(s)
  }

  /** Something still to happen will make the reader read. */
  ghost predicate Announced(s: State) {
    s.unsent > 0 || s.pending || s.taken || exists i :: s.pos <= i < |s.log| && s.log[i] == LayoutChanged(s.watched)
  }

  ghost predicate Inv(s: State) {
    && s.capacity > 0 && s.pos <= |s.log| && OfThisEpoch(s)
    && (s.held.Some? && s.seen != s.held ==> Announced(s))
  }

  lemma StepKeeps(s: State, step: Step)
    requires Inv(s) && Enabled(s, step)
    ensures Inv(Apply(s, step))
  {
    var s' := Apply(s, step);
    if s'.held.Some? && s'.seen != s'.held && s.held.Some? && s.seen != s.held && !s.pending && !s.taken {
      if s.unsent == 0 {
        var i :| s.pos <= i < |s.log| && s.log[i] == LayoutChanged(s.watched);
        assert s'.log[i] == s.log[i];
      } else if step.Broadcast? {
        assert s'.log[|s.log|] == LayoutChanged(s.watched);
      }
    }
  }

  lemma {:induction false} RunKeeps(s: State, steps: seq<Step>)
    requires ValidRun(s, steps) && Inv(s)
    ensures Inv(End(s, steps))
    decreases |steps|
  {
    hide Inv, Apply, Enabled;
    if steps != [] {
      StepKeeps(s, steps[0]);
      RunKeeps(Apply(s, steps[0]), steps[1..]);
    }
  }

  /** Everything is broadcast and drained, and no signal is pending or in the reader's hands. */
  predicate AtRest(s: State) {
    s.unsent == 0 && s.pos == |s.log| && !s.pending && !s.taken
  }

  /**
    No lost wakeup: once every change is broadcast and the bridge has drained its events, a reader with no signal
    pending or in its hands is up to date, unless the Client has forgotten the layout that the reader saw and holds
    no other yet.
   */
  lemma NoLostWakeup(s: State, steps: seq<Step>)
    requires Init(s) && ValidRun(s, steps) && AtRest(End(s, steps))
    ensures End(s, steps).seen == End(s, steps).held <==> End(s, steps).held.Some? || End(s, steps).seen.None?
  {
    RunKeeps(s, steps);
  }

  /** The exception is real: the reader keeps what it saw of a Host that is gone, and nothing wakes it. */
  lemma ForgettingIsNotSignalled(watched: nat, revision: nat) returns (s: State, steps: seq<Step>)
    ensures Init(s) && s.watched == watched && ValidRun(s, steps) && AtRest(End(s, steps))
    ensures End(s, steps).held == None && End(s, steps).seen == Some(Layout(0, revision))
  {
    s := State(watched, 1, 0, None, 0, [], 0, false, false, None);
    var a := Apply(s, Offer(revision));
    var b := Apply(a, Broadcast);
    var c := Apply(b, Receive);
    var d := Apply(c, TakeSignal);
    var e := Apply(d, Read);
    var f := Apply(e, Forget);
    assert AtRest(f) && f.held == None && f.seen == Some(Layout(0, revision));
    hide ValidRun, End, Apply;
    steps := NoSteps(f);
    steps := Precede(e, Forget, f, steps);
    steps := Precede(d, Read, f, steps);
    steps := Precede(c, TakeSignal, f, steps);
    steps := Precede(b, Receive, f, steps);
    steps := Precede(a, Broadcast, f, steps);
    steps := Precede(s, Offer(revision), f, steps);
  }

  lemma NoSteps(s: State) returns (steps: seq<Step>)
    ensures ValidRun(s, steps) && End(s, steps) == s
  {
    steps := [];
  }

  lemma Precede(s: State, step: Step, end: State, rest: seq<Step>) returns (steps: seq<Step>)
    requires Enabled(s, step) && ValidRun(Apply(s, step), rest) && End(Apply(s, step), rest) == end
    ensures ValidRun(s, steps) && End(s, steps) == end
  {
    steps := [step] + rest;
    assert steps[1..] == rest;
  }

  // ---- Coalescing cannot lose the last revision ----

  /** What is held never goes back, and is only lost by being forgotten. */
  lemma {:induction false} HeldNeverGoesBack(s: State, steps: seq<Step>, layout: Layout)
    requires ValidRun(s, steps) && OfThisEpoch(s)
    requires layout.epoch < s.epoch || (s.held.Some? && AtLeast(s.held.value, layout))
    ensures var end := End(s, steps);
            end.held.Some? ==> AtLeast(end.held.value, layout)
    ensures s.held.Some? && Forget !in steps ==> End(s, steps).held.Some?
    decreases |steps|
  {
    if steps != [] { HeldNeverGoesBack(Apply(s, steps[0]), steps[1..], layout); }
  }

  lemma {:induction false} RunConcat(s: State, first: seq<Step>, rest: seq<Step>)
    requires ValidRun(s, first + rest)
    ensures ValidRun(s, first) && ValidRun(End(s, first), rest)
    ensures End(s, first + rest) == End(End(s, first), rest)
    decreases |first|
  {
    hide Enabled, Apply;
    if first == [] {
      assert first + rest == rest;
    } else {
      assert (first + rest)[1..] == first[1..] + rest;
      RunConcat(Apply(s, first[0]), first[1..], rest);
    }
  }

  /**
    At rest, a reader whose Client holds a layout has seen every revision ever offered, or a newer one, or one of a
    later epoch; and a Client that was offered a revision holds a layout unless it forgot it since.
   */
  lemma QuiescentReaderSawEveryOffer(s: State, before: seq<Step>, revision: nat, after: seq<Step>)
    requires Init(s) && ValidRun(s, before + [Offer(revision)] + after)
    requires AtRest(End(s, before + [Offer(revision)] + after))
    ensures ValidRun(s, before)
    ensures var end := End(s, before + [Offer(revision)] + after);
            && (end.held.Some? ==>
              end.seen == end.held && AtLeast(end.seen.value, Layout(End(s, before).epoch, revision)))
            && (Forget !in after ==> end.held.Some?)
  {
    hide ValidRun, End, AtRest, Init;
    var all := before + [Offer(revision)] + after;
    NoLostWakeup(s, all);
    assert all == before + ([Offer(revision)] + after);
    RunConcat(s, before, [Offer(revision)] + after);
    var mid := End(s, before);
    RunConcat(mid, [Offer(revision)], after);
    InitHolds(s);
    RunKeeps(s, before);
    OneStep(mid, Offer(revision));
    HeldNeverGoesBack(Apply(mid, Offer(revision)), after, Layout(mid.epoch, revision));
  }

  lemma InitHolds(s: State)
    requires Init(s)
    ensures Inv(s)
  {
  }

  lemma OneStep(s: State, step: Step)
    requires ValidRun(s, [step])
    ensures Enabled(s, step) && End(s, [step]) == Apply(s, step)
  {
    assert [step][1..] == [];
  }
}
