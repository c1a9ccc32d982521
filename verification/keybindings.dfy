/**
  Key bindings (src/config/keybindings.rs): the migration from a file that lists every binding to one that lists
  only the differences from the defaults, against the two ways in which src/ui/interaction/actions.rs compiles
  bindings: `compile_keybinding_layers` for the keys that the application installs, and
  `compile_assigned_keybinding_specs` for the listing in the settings.
 */
module Keybindings {
  import opened Wrappers
  import opened Text

  datatype Keybinding = Keybinding(keys: string, command: string, context: Option<string>, unbind: bool)

  // ---- Normal forms ----

  function NormalizeKeys(keys: string): string {
    ToAsciiLowercase(Trim(keys))
  }

  function NormalizeContext(context: Option<string>): Option<string> {
    if context.None? || Trim(context.value) == "" then None else Some(Trim(context.value))
  }

  predicate SameAssignment(left: Keybinding, right: Keybinding) {
    && NormalizeKeys(left.keys) == NormalizeKeys(right.keys)
    && NormalizeContext(left.context) == NormalizeContext(right.context)
    && Trim(left.command) == Trim(right.command)
  }

  /** Where the first white space is, or the length. */
  function WordEnd(s: string): (end: nat)
    ensures end <= |s| && (forall i :: 0 <= i < end ==> !IsWhitespace(s[i])) && (end < |s| ==> IsWhitespace(s[end]))
  {
    if s == "" || IsWhitespace(s[0]) then 0 else 1 + WordEnd(s[1..])
  }

  /** The words between white space. */
  function SplitWhitespace(s: string): (words: seq<string>)
    ensures forall word :: word in words ==> word != ""
    decreases |s|
  {
    if s == "" then []
    else if IsWhitespace(s[0]) then SplitWhitespace(s[1..])
    else [s[..WordEnd(s)]] + SplitWhitespace(s[WordEnd(s)..])
  }

  /** The resolved sequence with one more word. */
  function Push(resolved: string, word: string, leader: string): string {
    (if resolved == "" then "" else resolved + " ") + if EqIgnoreAsciiCase(word, "<leader>") then leader else word
  }

  function PushAll(resolved: string, words: seq<string>, leader: string): string
    decreases |words|
  {
    if words == [] then resolved else PushAll(Push(resolved, words[0], leader), words[1..], leader)
  }

  function Resolved(keys: string, leader: string): string {
    PushAll("", SplitWhitespace(NormalizeKeys(keys)), NormalizeKeys(leader))
  }

  method ResolveKeybindingSequence(keys: string, leader: string) returns (resolved: string)
    ensures resolved == Resolved(keys, leader)
  {
    var words := SplitWhitespace(NormalizeKeys(keys));
    var normalLeader := NormalizeKeys(leader);
    resolved := "";
    for k := 0 to |words|
      invariant PushAll(resolved, words[k..], normalLeader) == Resolved(keys, leader)
    {
      assert words[k..][1..] == words[k + 1..];
      ghost var before := resolved;
      if resolved != "" {
        resolved := resolved + " ";
      }
      if EqIgnoreAsciiCase(words[k], "<leader>") {
        resolved := resolved + normalLeader;
      } else {
        resolved := resolved + words[k];
      }
      assert resolved == Push(before, words[k], normalLeader);
    }
  }

  // ---- How a binding takes effect ----

  /** Installed keys run one command in a context; the settings list every command that was given the keys. */
  datatype Compilation = Installed | Listed

  /** What the surroundings decide: the leader, which keystrokes, contexts and commands exist, and the compilation. */
  datatype Rules = Rules(
    compilation: Compilation,
    leader: string,
    validKeystroke: string -> bool,
    validContext: string -> bool,
    bindable: string -> bool,
    registered: string -> bool)

  /** A key sequence in a context, assigned to a command. */
  datatype Assignment = Assignment(context: Option<string>, keys: string, command: string)

  /** What an entry does: nothing when it is invalid, and an `Unbind` without a command clears the keys. */
  datatype Action = Ignored | Bind(command: string) | Unbind(which: Option<string>)

  predicate ValidPlace(rules: Rules, keys: string, context: Option<string>) {
    && keys != ""
    && (forall word :: word in SplitWhitespace(keys) ==> rules.validKeystroke(word))
    && (context.Some? ==> rules.validContext(context.value))
  }

  function ActionOf(rules: Rules, binding: Keybinding): Action {
    var keys := Resolved(binding.keys, rules.leader);
    var command := Trim(binding.command);
    if !ValidPlace(rules, keys, NormalizeContext(binding.context)) then Ignored
    else if command == "" then if binding.unbind then Unbind(None) else Ignored
    else if !rules.bindable(command) then Ignored
    else if binding.unbind then Unbind(if rules.registered(command) then Some(command) else None)
    else if rules.registered(command) then Bind(command)
    else Ignored
  }

  /** The assignment that an entry is about. */
  function Target(rules: Rules, binding: Keybinding): Assignment {
    Assignment(NormalizeContext(binding.context), Resolved(binding.keys, rules.leader), Trim(binding.command))
  }

  datatype Place = Place(context: Option<string>, keys: string)

  function PlaceOf(a: Assignment): Place {
    Place(a.context, a.keys)
  }

  predicate SamePlace(a: Assignment, b: Assignment) {
    PlaceOf(a) == PlaceOf(b)
  }

  predicate Binds(rules: Rules, binding: Keybinding, a: Assignment) {
    ActionOf(rules, binding).Bind? && Target(rules, binding) == a
  }

  /** The entry takes the assignment out of effect: it unbinds it, or its keys get another command. */
  predicate Clears(rules: Rules, binding: Keybinding, a: Assignment) {
    var action := ActionOf(rules, binding);
    var target := Target(rules, binding);
    && SamePlace(target, a)
    && match action
       case Ignored => false
       case Unbind(which) => which.None? || target.command == a.command
       case Bind(_) => rules.compilation == Installed && target.command != a.command
  }

  /** What an entry leaves of the assignments in effect; one that is bound again moves to the end. */
  function Remaining(rules: Rules, list: seq<Assignment>, binding: Keybinding): seq<Assignment> {
    if list == [] then []
    else
      var last := list[|list| - 1];
      Remaining(rules, list[..|list| - 1], binding)
      + if Clears(rules, binding, last) || Binds(rules, binding, last) then [] else [last]
  }

  function Enter(rules: Rules, list: seq<Assignment>, binding: Keybinding): seq<Assignment> {
    Remaining(rules, list, binding) + if ActionOf(rules, binding).Bind? then [Target(rules, binding)] else []
  }

  /** The assignments in effect after all entries, in the order in which they were bound last. */
  function Compiled(rules: Rules, bindings: seq<Keybinding>): seq<Assignment> {
    if bindings == [] then []
    else Enter(rules, Compiled(rules, bindings[..|bindings| - 1]), bindings[|bindings| - 1])
  }

  function Assigned(rules: Rules, bindings: seq<Keybinding>): set<Assignment> {
    set a | a in Compiled(rules, bindings)
  }

  /** The command of the last assignment at a place that answers to what is pressed in the active contexts. */
  function Runs(list: seq<Assignment>, answers: Place -> bool): Option<string> {
    if list == [] then None
    else
      var last := list[|list| - 1];
      if answers(PlaceOf(last)) then Some(last.command) else Runs(list[..|list| - 1], answers)
  }

  /**
    The places that answer to a keystroke in the contexts that are active; `matches` compares keys as they are
    parsed.
   */
  function Pressing(matches: (string, string) -> bool, active: Option<string> -> bool, stroke: string): Place -> bool {
    (place: Place) => active(place.context) && matches(place.keys, stroke)
  }

  /** The contexts of the window as a whole. */
  const WINDOW: Option<string> -> bool := context => context == None || context == Some("Workspace")

  /** `runtime_command_for_keystroke`. */
  function RuntimeCommand(matches: (string, string) -> bool, list: seq<Assignment>, stroke: string): Option<string> {
    Runs(list, Pressing(matches, WINDOW, stroke))
  }

  // ---- The migration ----

  predicate IsDefault(defaults: seq<Keybinding>, binding: Keybinding) {
    exists i :: 0 <= i < |defaults| && SameAssignment(defaults[i], binding)
  }

  /** Whether an authoritative list binds what a default binds. */
  predicate Keeps(authoritative: seq<Keybinding>, binding: Keybinding) {
    exists i :: 0 <= i < |authoritative| && !authoritative[i].unbind && SameAssignment(authoritative[i], binding)
  }

  function Removals(defaults: seq<Keybinding>, authoritative: seq<Keybinding>): seq<Keybinding> {
    if defaults == [] then []
    else
      var last := defaults[|defaults| - 1];
      Removals(defaults[..|defaults| - 1], authoritative)
      + if Keeps(authoritative, last) then [] else [last.(unbind := true)]
  }

  /** The entries that the defaults do not already stand for. */
  function Additions(defaults: seq<Keybinding>, authoritative: seq<Keybinding>): seq<Keybinding> {
    if authoritative == [] then []
    else
      var last := authoritative[|authoritative| - 1];
      Additions(defaults, authoritative[..|authoritative| - 1])
      + if last.unbind || !IsDefault(defaults, last) then [last] else []
  }

  function Sparse(defaults: seq<Keybinding>, authoritative: seq<Keybinding>): seq<Keybinding> {
    Removals(defaults, authoritative) + Additions(defaults, authoritative)
  }

  method SparseOverrides(defaults: seq<Keybinding>, authoritative: seq<Keybinding>) returns (overrides: seq<Keybinding>)
    ensures overrides == Sparse(defaults, authoritative)
  {
    hide SameAssignment;
    overrides := [];
    for k := 0 to |defaults|
      invariant overrides == Removals(defaults[..k], authoritative)
    {
      assert defaults[..k + 1][..k] == defaults[..k];
      var kept := false;
      for i := 0 to |authoritative|
        invariant kept == Keeps(authoritative[..i], defaults[k])
      {
        assert forall j :: 0 <= j < i ==> authoritative[..i + 1][j] == authoritative[..i][j];
        assert authoritative[..i + 1][i] == authoritative[i];
        if !authoritative[i].unbind && SameAssignment(authoritative[i], defaults[k]) {
          kept := true;
        }
      }
      assert authoritative[..|authoritative|] == authoritative;
      if !kept {
        overrides := overrides + [defaults[k].(unbind := true)];
      }
    }
    assert defaults[..|defaults|] == defaults;
    for k := 0 to |authoritative|
      invariant overrides == Removals(defaults, authoritative) + Additions(defaults, authoritative[..k])
    {
      assert authoritative[..k + 1][..k] == authoritative[..k];
      if authoritative[k].unbind || !IsDefault(defaults, authoritative[k]) {
        overrides := overrides + [authoritative[k]];
      }
    }
    assert authoritative[..|authoritative|] == authoritative;
  }
}
