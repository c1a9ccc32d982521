/**
  Saving settings (`save_scoped_settings_to_paths` in src/config/scope.rs): one save, and many saves by
  processes that share the Device file through its lock.
 */
module SettingsSave {
  import opened Wrappers

  /** The parts of the settings that are stored apart. */
  datatype Settings = Settings(device: int, host: int, bars: int)

  /** How the Device file is read: the parts of a missing file, and the correction of invalid values. */
  datatype Rules = Rules(defaults: int, validate: int -> int)

  datatype Stores = Stores(device: Option<int>, host: int, bars: int)

  datatype Error = MixedScopeChange | HostWriteDenied | HostConflict | DeviceConflict | Io

  datatype Save = Save(candidate: Settings, confirmed: Settings, canWriteHost: bool)

  predicate DeviceChanged(save: Save) { save.candidate.device != save.confirmed.device }
  predicate BarsChanged(save: Save) { save.candidate.bars != save.confirmed.bars }
  predicate HostChanged(save: Save) { save.candidate.host != save.confirmed.host }

  /** What a reader finds in the Device file. */
  function Current(rules: Rules, device: Option<int>): int {
    if device.Some? then rules.validate(device.value) else rules.defaults
  }

  // ---- One save, undisturbed ----

  /** Why a save is refused before anything is written, if it is. */
  function Refusal(rules: Rules, stores: Stores, save: Save): Option<Error> {
    if (DeviceChanged(save) || BarsChanged(save)) && HostChanged(save) then Some(MixedScopeChange)
    else if HostChanged(save) && !save.canWriteHost then Some(HostWriteDenied)
    else if HostChanged(save) && stores.host != save.confirmed.host then Some(HostConflict)
    else if DeviceChanged(save) && Current(rules, stores.device) != save.confirmed.device then Some(DeviceConflict)
    else None
  }

  /**
    The stores after a save that is not refused: the changed parts are the candidate's, the others are as they
    were.
   */
  function Written(stores: Stores, save: Save): Stores {
    Stores(if DeviceChanged(save) then Some(save.candidate.device) else stores.device,
           if HostChanged(save) then save.candidate.host else stores.host,
           if BarsChanged(save) then save.candidate.bars else stores.bars)
  }

  /**
    A save of Device settings alone is refused exactly when its baseline is not what a reader would find: the
    file's settings corrected, or the defaults while there is no file.
   */
  lemma DeviceConflictExactly(rules: Rules, stores: Stores, save: Save)
    requires save.candidate.device != save.confirmed.device && save.candidate.host == save.confirmed.host
    ensures stores.device == None ==>
              Refusal(rules, stores, save)
              == if rules.defaults == save.confirmed.device then None else Some(DeviceConflict)
    ensures stores.device.Some? ==>
              Refusal(rules, stores, save)
              == if rules.validate(stores.device.value) == save.confirmed.device then None else Some(DeviceConflict)
  {
  }

  class SettingsFiles {
    const rules: Rules
    var device: Option<int>
    var host: int
    var bars: int

    constructor (rules: Rules, stores: Stores)
      ensures this.rules == rules && View() == stores
    {
      this.rules := rules;
      device, host, bars := stores.device, stores.host, stores.bars;
    }

    function View(): Stores
      reads this
    {
      Stores(device, host, bars)
    }

    method SaveScopedSettings(save: Save) returns (refused: Option<Error>)
      modifies this
      ensures refused == Refusal(rules, old(View()), save)
      ensures View() == if refused == None then Written(old(View()), save) else old(View())
    {
      var deviceChanged, barsChanged, hostChanged := DeviceChanged(save), BarsChanged(save), HostChanged(save);
      if (deviceChanged || barsChanged) && hostChanged {
        return Some(MixedScopeChange);
      }
      if hostChanged && !save.canWriteHost {
        return Some(HostWriteDenied);
      }
      if hostChanged {
        if host != save.confirmed.host {
          return Some(HostConflict);
        }
      }
      if deviceChanged {
        var current := if device.Some? then rules.validate(device.value) else rules.defaults;
        if current != save.confirmed.device {
          return Some(DeviceConflict);
        }
        device := Some(save.candidate.device);
      }
      if barsChanged {
        bars := save.candidate.bars;
      }
      if hostChanged {
        host := save.candidate.host;
      }
      refused := None;
    }
  }

  // ---- Many saves ----

  datatype Phase =
    | Start
    | CheckHost
    | NeedLock
    | Locked
    | Confirmed
    | Unlocking
    | SaveBars
    | WriteHost
    | Done(error: Option<Error>)

  datatype Saver = Saver(save: Save, phase: Phase)

  /** A Device file written by one saver. */
  datatype Commit = Commit(saver: nat, confirmed: int, candidate: int)

  /** `commits` lists the Device files written, in order, and `wrote` the savers that wrote anything at all. */
  datatype State = State(
    rules: Rules,
    initial: Option<int>,
    stores: Stores,
    lock: Option<nat>,
    savers: seq<Saver>,
    commits: seq<Commit>,
    wrote: set<nat>)

  /** `Fail` stands for any failing file operation; what has been written stays and the lock is released. */
  datatype Action = Check | LoadHost | Lock | ReadDevice | WriteDevice | Unlock | PutBars | PutHost | Fail

  datatype Step = Step(saver: nat, action: Action)

  predicate Enabled(s: State, step: Step) {
    step.saver < |s.savers|
    && var phase := s.savers[step.saver].phase;
    match step.action
    case Check => phase == Start
    case LoadHost => phase == CheckHost
    case Lock => phase == NeedLock && s.lock == None
    case ReadDevice => phase == Locked
    case WriteDevice => phase == Confirmed
    case Unlock => phase == Unlocking
    case PutBars => phase == SaveBars
    case PutHost => phase == WriteHost
    case Fail => phase != Start && !phase.Done?
  }

  /** Where a save goes once it is known which parts changed. */
  function AfterCheck(save: Save): Phase {
    if (DeviceChanged(save) || BarsChanged(save)) && HostChanged(save) then Done(Some(MixedScopeChange))
    else if HostChanged(save) && !save.canWriteHost then Done(Some(HostWriteDenied))
    else if HostChanged(save) then CheckHost
    else if DeviceChanged(save) then NeedLock
    else AfterDevice(save)
  }

  function AfterDevice(save: Save): Phase {
    if BarsChanged(save) then SaveBars else Done(None)
  }

  predicate Holds(phase: Phase) {
    phase == Locked || phase == Confirmed || phase == Unlocking
  }

  function Move(s: State, i: nat, phase: Phase): State
    requires i < |s.savers|
  {
    s.(savers := s.savers[i := s.savers[i].(phase := phase)])
  }

  function Apply(s: State, step: Step): State
    requires Enabled(s, step)
  {
    var i := step.saver;
    var save := s.savers[i].save;
    match step.action
    case Check => Move(s, i, AfterCheck(save))
    case LoadHost => Move(s, i, if s.stores.host != save.confirmed.host then Done(Some(HostConflict)) else WriteHost)
    case Lock => Move(s, i, Locked).(lock := Some(i))
    case ReadDevice =>
      if Current(s.rules, s.stores.device) != save.confirmed.device then
        Move(s, i, Done(Some(DeviceConflict))).(lock := None)
      else Move(s, i, Confirmed)
    case WriteDevice =>
      Move(s, i, Unlocking).(
        stores := s.stores.(device := Some(save.candidate.device)),
        commits := s.commits + [Commit(i, save.confirmed.device, save.candidate.device)],
        wrote := s.wrote + {i})
    case Unlock => Move(s, i, AfterDevice(save)).(lock := None)
    case PutBars => Move(s, i, Done(None)).(stores := s.stores.(bars := save.candidate.bars), wrote := s.wrote + {i})
    case PutHost => Move(s, i, Done(None)).(stores := s.stores.(host := save.candidate.host), wrote := s.wrote + {i})
    case Fail =>
      Move(s, i, Done(Some(Io))).(lock := if Holds(s.savers[i].phase) then None else s.lock)
  }

  /** Whatever a save is about to do with a file may fail; then it ends with that error and lets go of the lock. */
  lemma AnyFileOperationMayFail(s: State, i: nat)
    requires i < |s.savers| && s.savers[i].phase != Start && !s.savers[i].phase.Done?
    ensures Enabled(s, Step(i, Fail))
    ensures var after := Apply(s, Step(i, Fail));
            && after.stores == s.stores && after.commits == s.commits
            && after.savers == s.savers[i := Saver(s.savers[i].save, Done(Some(Io)))]
            && after.lock == if s.savers[i].phase in {Locked, Confirmed, Unlocking} then None else s.lock
  {
  }

  /** Whoever changes a store is among those who wrote, and nobody else is added. */
  lemma WritersAreNoted(s: State, step: Step)
    requires Enabled(s, step)
    ensures Apply(s, step).stores != s.stores ==> step.saver in Apply(s, step).wrote
    ensures s.wrote <= Apply(s, step).wrote <= s.wrote + {step.saver}
    ensures step.saver in Apply(s, step).wrote && step.saver !in s.wrote ==>
              step.action in {WriteDevice, PutBars, PutHost}
  {
  }

  ghost predicate ValidRun(s: State, steps: seq<Step>)
    decreases |steps|
  {
    steps == [] || (Enabled(s, steps[0]) && ValidRun(Apply(s, steps[0]), steps[1..]))
  }

  function End(s: State, steps: seq<Step>): State
    requires ValidRun(s, steps)
    decreases |steps|
  {
    if steps == [] then s else End(Apply(s, steps[0]), steps[1..])
  }

  ghost predicate Init(s: State) {
    && s.initial == s.stores.device && s.lock == None && s.commits == [] && s.wrote == {}
    && forall i :: 0 <= i < |s.savers| ==> s.savers[i].phase == Start
  }

  // ---- The chain ----

  /** The save has Device settings to write and none of the Host's, which would make it mixed. */
  predicate SavesDevice(save: Save) {
    DeviceChanged(save) && !HostChanged(save)
  }

  /** The Device file that commit `k` found. */
  function Found(initial: Option<int>, commits: seq<Commit>, k: nat): Option<int>
    requires k <= |commits|
  {
    if k == 0 then initial else Some(commits[k - 1].candidate)
  }

  /** Every commit found in the file exactly the settings that its own draft was based on, and changed them. */
  ghost predicate Chain(rules: Rules, initial: Option<int>, commits: seq<Commit>) {
    forall k :: 0 <= k < |commits| ==> Links(rules, initial, commits, k)
  }

  ghost predicate Links(rules: Rules, initial: Option<int>, commits: seq<Commit>, k: nat)
    requires k < |commits|
  {
    && Current(rules, Found(initial, commits, k)) == commits[k].confirmed
    && commits[k].candidate != commits[k].confirmed
  }

  ghost predicate LockHeldByHolder(s: State) {
    forall i :: 0 <= i < |s.savers| ==> (Holds(s.savers[i].phase) <==> s.lock == Some(i))
  }

  ghost predicate SaverKeeps(s: State, i: nat)
    requires i < |s.savers|
  {
    var saver := s.savers[i];
    && (saver.phase == Confirmed ==> Current(s.rules, s.stores.device) == saver.save.confirmed.device)
    && (saver.phase == NeedLock || saver.phase == Locked || saver.phase == Confirmed ==> DeviceChanged(saver.save))
    && (saver.phase == CheckHost || saver.phase == WriteHost ==>
          HostChanged(saver.save) && !DeviceChanged(saver.save) && !BarsChanged(saver.save) && saver.save.canWriteHost)
    && (i in s.wrote ==> saver.phase in {Unlocking, SaveBars, Done(None), Done(Some(Io))})
    && (saver.phase == SaveBars ==> BarsChanged(saver.save) && !HostChanged(saver.save))
    && (saver.phase == Done(None) && DeviceChanged(saver.save) ==> i in s.wrote)
    && (saver.phase == Unlocking ==> i in s.wrote && !HostChanged(saver.save))
    && (saver.phase == SaveBars && DeviceChanged(saver.save) ==> i in s.wrote)
    && (saver.phase == NeedLock || saver.phase == Locked || saver.phase == Confirmed ==> !HostChanged(saver.save))
  }

  /** The commits are the Device parts of saves that got past writing them. */
  ghost predicate CommitsAreSaves(s: State) {
    forall k :: 0 <= k < |s.commits| ==> CommitIsSave(s, s.commits[k])
  }

  ghost predicate CommitIsSave(s: State, commit: Commit) {
    && commit.saver < |s.savers|
    && var saver := s.savers[commit.saver];
    && commit.confirmed == saver.save.confirmed.device
    && commit.candidate == saver.save.candidate.device
    && SavesDevice(saver.save)
    && (saver.phase in {Unlocking, SaveBars, Done(None), Done(Some(Io))})
  }

  /** No save is committed twice. */
  ghost predicate CommitsAreApart(s: State) {
    forall j, k :: 0 <= j < k < |s.commits| ==> s.commits[j].saver != s.commits[k].saver
  }

  ghost predicate HasCommit(s: State, i: nat) {
    exists k :: 0 <= k < |s.commits| && s.commits[k].saver == i
  }

  /** A save of Device settings that got past writing them is among the commits. */
  ghost predicate SavesAreCommits(s: State) {
    forall i :: 0 <= i < |s.savers| ==>
      DeviceChanged(s.savers[i].save) && s.savers[i].phase in {Unlocking, SaveBars, Done(None)} ==> HasCommit(s, i)
  }

  ghost predicate Inv(s: State) {
    && LockHeldByHolder(s)
    && CommitsAreSaves(s) && CommitsAreApart(s) && SavesAreCommits(s)
    && (forall i :: 0 <= i < |s.savers| ==> SaverKeeps(s, i))
    && Chain(s.rules, s.initial, s.commits)
    && s.stores.device == Found(s.initial, s.commits, |s.commits|)
  }

  lemma LockKeeps(s: State, step: Step)
    requires Inv(s) && Enabled(s, step)
    ensures LockHeldByHolder(Apply(s, step))
  {
    hide SaverKeeps, Chain, Found, Current, CommitsAreSaves, SavesAreCommits;
  }

  lemma SaversKeep(s: State, step: Step, i: nat)
    requires Inv(s) && Enabled(s, step) && i < |s.savers|
    ensures SaverKeeps(Apply(s, step), i)
  {
    hide Chain, Found, CommitsAreSaves, SavesAreCommits;
    assert SaverKeeps(s, i) && SaverKeeps(s, step.saver);
    assert Holds(s.savers[i].phase) <==> s.lock == Some(i);
    assert Holds(s.savers[step.saver].phase) <==> s.lock == Some(step.saver);
  }

  lemma ChainKeeps(s: State, step: Step)
    requires Inv(s) && Enabled(s, step)
    ensures var s' := Apply(s, step);
            Chain(s'.rules, s'.initial, s'.commits) && s'.stores.device == Found(s'.initial, s'.commits, |s'.commits|)
  {
    hide CommitsAreSaves, SavesAreCommits, LockHeldByHolder;
    assert SaverKeeps(s, step.saver);
    var s' := Apply(s, step);
    if step.action == WriteDevice {
      forall k | 0 <= k < |s'.commits| ensures Links(s'.rules, s'.initial, s'.commits, k) {
        assert Found(s'.initial, s'.commits, k) == Found(s.initial, s.commits, k);
        if k < |s.commits| { assert Links(s.rules, s.initial, s.commits, k); }
      }
    }
  }

  lemma CommitsKeep(s: State, step: Step)
    requires Inv(s) && Enabled(s, step)
    ensures CommitsAreSaves(Apply(s, step))
  {
    hide Chain, Found, Current, LockHeldByHolder, SavesAreCommits;
    assert SaverKeeps(s, step.saver);
    var s' := Apply(s, step);
    forall k | 0 <= k < |s'.commits| ensures CommitIsSave(s', s'.commits[k]) {
      if k < |s.commits| { assert CommitIsSave(s, s.commits[k]); }
    }
  }

  lemma CommitsStayApart(s: State, step: Step)
    requires Inv(s) && Enabled(s, step)
    ensures CommitsAreApart(Apply(s, step))
  {
    hide Chain, Found, Current, LockHeldByHolder, SavesAreCommits, SaverKeeps, SavesDevice;
    if step.action == WriteDevice {
      forall k | 0 <= k < |s.commits| ensures s.commits[k].saver != step.saver {
        assert CommitIsSave(s, s.commits[k]);
      }
    }
  }

  lemma SavesKeep(s: State, step: Step)
    requires Inv(s) && Enabled(s, step)
    ensures SavesAreCommits(Apply(s, step))
  {
    hide Chain, Found, Current, LockHeldByHolder, CommitsAreSaves;
    assert SaverKeeps(s, step.saver);
    var s' := Apply(s, step);
    forall i | 0 <= i < |s.savers| && HasCommit(s, i) ensures HasCommit(s', i) {
      var k :| 0 <= k < |s.commits| && s.commits[k].saver == i;
      assert s'.commits[k].saver == i;
    }
    if step.action == WriteDevice {
      assert s'.commits[|s.commits|].saver == step.saver;
    }
  }

  lemma SameSavers(s: State, step: Step)
    requires Enabled(s, step)
    ensures var s' := Apply(s, step);
            && s'.rules == s.rules && s'.initial == s.initial && |s'.savers| == |s.savers|
            && forall i :: 0 <= i < |s.savers| ==> s'.savers[i].save == s.savers[i].save
  {
  }

  lemma StepKeeps(s: State, step: Step)
    requires Inv(s) && Enabled(s, step)
    ensures Inv(Apply(s, step))
  {
    LockKeeps(s, step);
    ChainKeeps(s, step);
    CommitsKeep(s, step);
    CommitsStayApart(s, step);
    SavesKeep(s, step);
    SameSavers(s, step);
    hide Enabled, Chain, LockHeldByHolder, SaverKeeps, Found, CommitsAreSaves, CommitsAreApart, SavesAreCommits, Apply;
    forall i | 0 <= i < |s.savers| ensures SaverKeeps(Apply(s, step), i) {
      SaversKeep(s, step, i);
    }
  }

  lemma {:induction false} RunKeeps(s: State, steps: seq<Step>)
    requires ValidRun(s, steps) && Inv(s)
    ensures Inv(End(s, steps)) && End(s, steps).rules == s.rules && End(s, steps).initial == s.initial
    ensures |End(s, steps).savers| == |s.savers|
    ensures forall i :: 0 <= i < |s.savers| ==> End(s, steps).savers[i].save == s.savers[i].save
    decreases |steps|
  {
    hide Inv, Enabled, Apply;
    if steps != [] {
      StepKeeps(s, steps[0]);
      SameSavers(s, steps[0]);
      RunKeeps(Apply(s, steps[0]), steps[1..]);
    }
  }

  /** In every interleaving of savers, the Device files written form a chain: no save overwrites one it did not see. */
  lemma DeviceSavesFormAChain(s: State, steps: seq<Step>)
    requires Init(s) && ValidRun(s, steps)
    ensures var end := End(s, steps);
            && Chain(end.rules, end.initial, end.commits)
            && end.stores.device == Found(end.initial, end.commits, |end.commits|)
  {
    RunKeeps(s, steps);
  }

  /** A save refused as mixed, denied or conflicting has written nothing. */
  lemma RefusedSavesWriteNothing(s: State, steps: seq<Step>, i: nat)
    requires Init(s) && ValidRun(s, steps) && i < |End(s, steps).savers|
    requires End(s, steps).savers[i].phase.Done?
    requires End(s, steps).savers[i].phase.error in
               {Some(MixedScopeChange), Some(HostWriteDenied), Some(HostConflict), Some(DeviceConflict)}
    ensures i !in End(s, steps).wrote
  {
    RunKeeps(s, steps);
    assert SaverKeeps(End(s, steps), i);
  }

  /** A save that reports success put its Device settings into the chain, in place of the ones it was based on. */
  lemma SuccessMeansCommitted(s: State, steps: seq<Step>, i: nat) returns (k: nat)
    requires Init(s) && ValidRun(s, steps) && i < |End(s, steps).savers|
    requires End(s, steps).savers[i].phase == Done(None) && DeviceChanged(End(s, steps).savers[i].save)
    ensures var end := End(s, steps);
            && k < |end.commits|
            && end.commits[k] == Commit(i, end.savers[i].save.confirmed.device, end.savers[i].save.candidate.device)
            && Links(end.rules, end.initial, end.commits, k)
  {
    RunKeeps(s, steps);
    var end := End(s, steps);
    assert HasCommit(end, i);
    k :| 0 <= k < |end.commits| && end.commits[k].saver == i;
    assert CommitIsSave(end, end.commits[k]);
  }

  /**
    Two saves that were written started from the same Device settings if and only if the file that the later one
    replaced, which is the earlier save's or a later one, reads as those settings again.
   */
  lemma SharedBaselineExactly(s: State, steps: seq<Step>, i: nat, j: nat)
    requires Init(s) && ValidRun(s, steps)
    requires i < j < |End(s, steps).commits|
    ensures var end := End(s, steps);
            end.commits[i].confirmed == end.commits[j].confirmed
            <==> end.rules.validate(end.commits[j - 1].candidate) == end.commits[i].confirmed
  {
    RunKeeps(s, steps);
    var end := End(s, steps);
    assert Links(end.rules, end.initial, end.commits, j);
  }

  /** Hence, when no save writes settings that read as the baseline, at most one save based on it is written. */
  lemma AtMostOneCommitPerBaseline(s: State, steps: seq<Step>, baseline: int, i: nat, j: nat)
    requires Init(s) && ValidRun(s, steps)
    requires forall k :: 0 <= k < |s.savers| && SavesDevice(s.savers[k].save) ==>
               s.rules.validate(s.savers[k].save.candidate.device) != baseline
    requires i < |End(s, steps).commits| && j < |End(s, steps).commits|
    requires End(s, steps).commits[i].confirmed == baseline == End(s, steps).commits[j].confirmed
    ensures i == j
  {
    RunKeeps(s, steps);
    var end := End(s, steps);
    forall k | 0 <= k < |end.commits| ensures end.rules.validate(end.commits[k].candidate) != baseline {
      assert CommitIsSave(end, end.commits[k]);
      assert SavesDevice(s.savers[end.commits[k].saver].save);
    }
    if i < j { SharedBaselineExactly(s, steps, i, j); }
    if j < i { SharedBaselineExactly(s, steps, j, i); }
  }

  // ---- A save that meets no other ----

  /** What is left to happen to a save that nobody disturbs: the final stores and the error it reports. */
  datatype Outcome = Outcome(stores: Stores, error: Option<Error>)

  function BarsOutcome(stores: Stores, save: Save): Outcome {
    Outcome(if BarsChanged(save) then stores.(bars := save.candidate.bars) else stores, None)
  }

  function Ahead(rules: Rules, stores: Stores, saver: Saver): Outcome {
    var save := saver.save;
    match saver.phase
    case Start =>
      var refusal := Refusal(rules, stores, save);
      Outcome(if refusal == None then Written(stores, save) else stores, refusal)
    case CheckHost =>
      if stores.host != save.confirmed.host then Outcome(stores, Some(HostConflict))
      else Outcome(stores.(host := save.candidate.host), None)
    case WriteHost => Outcome(stores.(host := save.candidate.host), None)
    case NeedLock => AheadOfReading(rules, stores, save)
    case Locked => AheadOfReading(rules, stores, save)
    case Confirmed => BarsOutcome(stores.(device := Some(save.candidate.device)), save)
    case Unlocking => BarsOutcome(stores, save)
    case SaveBars => Outcome(stores.(bars := save.candidate.bars), None)
    case Done(error) => Outcome(stores, error)
  }

  /** The commits that such a save has still to make. */
  function CommitsAhead(rules: Rules, stores: Stores, saver: Saver, i: nat): seq<Commit> {
    var save := saver.save;
    var committed := match saver.phase
      case Start => Refusal(rules, stores, save) == None && DeviceChanged(save)
      case NeedLock => Current(rules, stores.device) == save.confirmed.device
      case Locked => Current(rules, stores.device) == save.confirmed.device
      case Confirmed => true
      case _ => false;
    if committed then [CommitOf(saver, i)] else []
  }

  function CommitOf(saver: Saver, i: nat): Commit {
    Commit(i, saver.save.confirmed.device, saver.save.candidate.device)
  }

  function AheadOfReading(rules: Rules, stores: Stores, save: Save): Outcome {
    if Current(rules, stores.device) != save.confirmed.device then Outcome(stores, Some(DeviceConflict))
    else BarsOutcome(stores.(device := Some(save.candidate.device)), save)
  }

  function NextAction(phase: Phase): Action {
    match phase
    case Start => Check
    case CheckHost => LoadHost
    case NeedLock => Lock
    case Locked => ReadDevice
    case Confirmed => WriteDevice
    case Unlocking => Unlock
    case SaveBars => PutBars
    case WriteHost => PutHost
    case Done(_) => Fail
  }

  function StepsLeft(phase: Phase): nat {
    match phase
    case Start => 7
    case CheckHost => 2
    case NeedLock => 5
    case Locked => 4
    case Confirmed => 3
    case Unlocking => 2
    case SaveBars => 1
    case WriteHost => 1
    case Done(_) => 0
  }

  ghost predicate Undisturbed(s: State, i: nat) {
    i < |s.savers| && s.lock == if Holds(s.savers[i].phase) then Some(i) else None
  }

  lemma StepAlone(s: State, i: nat)
    requires Undisturbed(s, i) && !s.savers[i].phase.Done?
    ensures var step := Step(i, NextAction(s.savers[i].phase));
            && Enabled(s, step)
            && Undisturbed(Apply(s, step), i)
            && StepsLeft(Apply(s, step).savers[i].phase) < StepsLeft(s.savers[i].phase)
  {
  }

  lemma StepAloneStays(s: State, i: nat)
    requires Undisturbed(s, i) && !s.savers[i].phase.Done?
    requires Enabled(s, Step(i, NextAction(s.savers[i].phase)))
    ensures var s' := Apply(s, Step(i, NextAction(s.savers[i].phase)));
            && Ahead(s'.rules, s'.stores, s'.savers[i]) == Ahead(s.rules, s.stores, s.savers[i])
            && s'.rules == s.rules && |s'.savers| == |s.savers| && s'.savers[i].save == s.savers[i].save
            && forall j :: 0 <= j < |s.savers| && j != i ==> s'.savers[j] == s.savers[j]
  {
  }

  lemma StepAloneCommits(s: State, i: nat)
    requires Undisturbed(s, i) && !s.savers[i].phase.Done?
    requires Enabled(s, Step(i, NextAction(s.savers[i].phase)))
    ensures var s' := Apply(s, Step(i, NextAction(s.savers[i].phase)));
            && |s'.savers| == |s.savers| && s'.initial == s.initial
            && s'.commits + CommitsAhead(s'.rules, s'.stores, s'.savers[i], i)
               == s.commits + CommitsAhead(s.rules, s.stores, s.savers[i], i)
  {
  }

  /** The interleaved steps of one save, when no other save comes between, are exactly the save as a whole. */
  lemma {:induction false} RunAlone(s: State, i: nat) returns (steps: seq<Step>)
    requires Undisturbed(s, i)
    ensures ValidRun(s, steps)
    ensures var end := End(s, steps);
            && end.lock == None && end.rules == s.rules && |end.savers| == |s.savers|
            && end.savers[i].phase.Done? && end.savers[i].save == s.savers[i].save
            && Outcome(end.stores, end.savers[i].phase.error) == Ahead(s.rules, s.stores, s.savers[i])
            && end.initial == s.initial && end.commits == s.commits + CommitsAhead(s.rules, s.stores, s.savers[i], i)
            && forall j :: 0 <= j < |s.savers| && j != i ==> end.savers[j] == s.savers[j]
    decreases StepsLeft(s.savers[i].phase)
  {
    hide Enabled, Apply;
    if s.savers[i].phase.Done? {
      steps := [];
    } else {
      var step := Step(i, NextAction(s.savers[i].phase));
      StepAlone(s, i);
      StepAloneStays(s, i);
      StepAloneCommits(s, i);
      var rest := RunAlone(Apply(s, step), i);
      steps := [step] + rest;
      assert steps[1..] == rest;
    }
  }

  lemma {:induction false} RunConcat(s: State, first: seq<Step>, rest: seq<Step>)
    requires ValidRun(s, first) && ValidRun(End(s, first), rest)
    ensures ValidRun(s, first + rest) && End(s, first + rest) == End(End(s, first), rest)
    decreases |first|
  {
    hide Enabled, Apply;
    if first == [] {
      assert first + rest == rest;
    } else {
      assert (first + rest)[1..] == first[1..] + rest;
      RunConcat(Apply(s, first[0]), first[1..], rest);
    }
  }

  // ---- Exactly which savers can commit, and in which order ----

  function CommitsOf(savers: seq<Saver>, order: seq<nat>): seq<Commit>
    requires forall k :: 0 <= k < |order| ==> order[k] < |savers|
  {
    seq(|order|, k requires 0 <= k < |order| => CommitOf(savers[order[k]], order[k]))
  }

  function Committers(commits: seq<Commit>): seq<nat> {
    seq(|commits|, k requires 0 <= k < |commits| => commits[k].saver)
  }

  /** Different savers with Device settings to write, each based on what the one before leaves to be read. */
  ghost predicate Possible(s: State, order: seq<nat>) {
    && (forall k :: 0 <= k < |order| ==> order[k] < |s.savers| && SavesDevice(s.savers[order[k]].save))
    && (forall j, k :: 0 <= j < k < |order| ==> order[j] != order[k])
    && Chain(s.rules, s.initial, CommitsOf(s.savers, order))
  }

  lemma ReachedIsPossible(s: State, steps: seq<Step>)
    requires Init(s) && ValidRun(s, steps)
    ensures Possible(s, Committers(End(s, steps).commits))
  {
    RunKeeps(s, steps);
    hide ValidRun, LockHeldByHolder, SaverKeeps, SavesAreCommits, Chain, SavesDevice;
    var end := End(s, steps);
    var order := Committers(end.commits);
    forall k | 0 <= k < |order|
      ensures order[k] < |s.savers| && SavesDevice(s.savers[order[k]].save)
      ensures end.commits[k] == CommitOf(s.savers[order[k]], order[k])
    {
      assert CommitIsSave(end, end.commits[k]);
    }
    assert CommitsOf(s.savers, order) == end.commits;
  }

  lemma PrefixIsPossible(s: State, order: seq<nat>)
    requires order != [] && Possible(s, order)
    ensures Possible(s, order[..|order| - 1])
    ensures CommitsOf(s.savers, order[..|order| - 1]) == CommitsOf(s.savers, order)[..|order| - 1]
  {
    var front := order[..|order| - 1];
    var commits := CommitsOf(s.savers, order);
    assert CommitsOf(s.savers, front) == commits[..|front|];
    forall k | 0 <= k < |front| ensures Links(s.rules, s.initial, commits[..|front|], k) {
      assert Links(s.rules, s.initial, commits, k);
    }
  }

  /** A save whose turn it is in such an order commits when it runs undisturbed. */
  lemma CommitsInTurn(s: State, i: nat)
    requires i < |s.savers| && s.savers[i].phase == Start && SavesDevice(s.savers[i].save)
    requires Current(s.rules, s.stores.device) == s.savers[i].save.confirmed.device
    ensures CommitsAhead(s.rules, s.stores, s.savers[i], i) == [CommitOf(s.savers[i], i)]
    ensures Ahead(s.rules, s.stores, s.savers[i]).stores.device == Some(s.savers[i].save.candidate.device)
  {
  }

  lemma {:induction false} PossibleIsReached(s: State, order: seq<nat>) returns (steps: seq<Step>)
    requires Init(s) && Possible(s, order)
    ensures ValidRun(s, steps)
    ensures var end := End(s, steps);
            && end.commits == CommitsOf(s.savers, order)
            && end.lock == None && end.rules == s.rules && end.initial == s.initial
            && end.stores.device == Found(s.initial, end.commits, |order|)
            && |end.savers| == |s.savers|
            && forall j :: 0 <= j < |s.savers| && j !in order ==> end.savers[j] == s.savers[j]
    decreases |order|
  {
    if order == [] {
      steps := [];
    } else {
      var n := |order| - 1;
      var i := order[n];
      PrefixIsPossible(s, order);
      var first := PossibleIsReached(s, order[..n]);
      var mid := End(s, first);
      assert i !in order[..n];
      assert mid.savers[i] == s.savers[i];
      TurnOf(s, order, mid);
      hide ValidRun, End, Chain, CommitsAhead, Ahead;
      var rest := RunAlone(mid, i);
      RunConcat(s, first, rest);
      steps := first + rest;
      OneMoreCommit(s, order);
    }
  }

  lemma TurnOf(s: State, order: seq<nat>, mid: State)
    requires Init(s) && order != [] && Possible(s, order)
    requires var n := |order| - 1;
             && mid.commits == CommitsOf(s.savers, order)[..n] && mid.rules == s.rules
             && mid.stores.device == Found(s.initial, mid.commits, n)
             && |mid.savers| == |s.savers| && mid.savers[order[n]] == s.savers[order[n]]
    ensures var i := order[|order| - 1];
            && CommitsAhead(mid.rules, mid.stores, mid.savers[i], i) == [CommitOf(s.savers[i], i)]
            && Ahead(mid.rules, mid.stores, mid.savers[i]).stores.device == Some(s.savers[i].save.candidate.device)
  {
    var n := |order| - 1;
    var commits := CommitsOf(s.savers, order);
    assert Links(s.rules, s.initial, commits, n);
    assert Found(s.initial, commits, n) == Found(s.initial, mid.commits, n);
    CommitsInTurn(mid, order[n]);
  }

  lemma OneMoreCommit(s: State, order: seq<nat>)
    requires order != [] && forall k :: 0 <= k < |order| ==> order[k] < |s.savers|
    ensures var n := |order| - 1;
            var commits := CommitsOf(s.savers, order);
            && commits == commits[..n] + [CommitOf(s.savers[order[n]], order[n])]
            && Found(s.initial, commits, |order|) == Some(s.savers[order[n]].save.candidate.device)
  {
  }

  /** The savers commit in this order in some run. */
  ghost predicate CommitIn(s: State, steps: seq<Step>, order: seq<nat>) {
    ValidRun(s, steps) && Committers(End(s, steps).commits) == order
  }

  /**
    Some run commits exactly these saves in exactly this order if and only if they are different saves of Device
    settings that form a chain from the initial file: an exact answer from the savers as they start.
   */
  lemma CommitOrdersExactly(s: State, order: seq<nat>)
    requires Init(s)
    ensures (exists steps :: CommitIn(s, steps, order)) <==> Possible(s, order)
  {
    hide Possible, ValidRun, Init;
    if steps :| CommitIn(s, steps, order) {
      ReachedIsPossible(s, steps);
    }
    if Possible(s, order) {
      PossibleInRange(s, order);
      var steps := PossibleIsReached(s, order);
      assert Committers(CommitsOf(s.savers, order)) == order;
      assert CommitIn(s, steps, order);
    }
  }

  lemma PossibleInRange(s: State, order: seq<nat>)
    requires Possible(s, order)
    ensures forall k :: 0 <= k < |order| ==> order[k] < |s.savers|
  {
  }

  lemma AheadOfDeviceSave(rules: Rules, stores: Stores, save: Save)
    requires DeviceChanged(save) && !HostChanged(save) && !BarsChanged(save)
    requires Current(rules, stores.device) == save.confirmed.device
    ensures Ahead(rules, stores, Saver(save, Start)) == Outcome(stores.(device := Some(save.candidate.device)), None)
  {
  }

  /** The exception is real: a save that puts the baseline back lets a stale save through. */
  lemma RestoringLetsAStaleSaveThrough(rules: Rules, a: int, x: int, y: int, host: int, bars: int)
    returns (s: State, steps: seq<Step>)
    requires a != x && a != y && rules.validate(a) == a && rules.validate(x) == x
    ensures Init(s) && ValidRun(s, steps) && |s.savers| == 3 == |End(s, steps).savers|
    ensures s.stores == Stores(Some(a), host, bars) && End(s, steps).stores == Stores(Some(y), host, bars)
    ensures s.savers[0].save.confirmed == s.savers[2].save.confirmed == Settings(a, host, bars)
    ensures forall i :: 0 <= i < 3 ==> End(s, steps).savers[i].phase == Done(None)
  {
    var A, X, Y := Settings(a, host, bars), Settings(x, host, bars), Settings(y, host, bars);
    var saves := [Save(X, A, false), Save(A, X, false), Save(Y, A, false)];
    s := State(rules, Some(a), Stores(Some(a), host, bars), None,
      [Saver(saves[0], Start), Saver(saves[1], Start), Saver(saves[2], Start)], [], {});
    hide ValidRun, End, Ahead;
    AheadOfDeviceSave(rules, s.stores, saves[0]);
    var first := RunAlone(s, 0);
    var s1 := End(s, first);
    AheadOfDeviceSave(rules, s1.stores, saves[1]);
    var second := RunAlone(s1, 1);
    var s2 := End(s1, second);
    AheadOfDeviceSave(rules, s2.stores, saves[2]);
    var third := RunAlone(s2, 2);
    RunConcat(s, first, second);
    RunConcat(s, first + second, third);
    steps := first + second + third;
  }
}
