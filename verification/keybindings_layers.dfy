/**
  How the installed keys are compiled (`compile_keybinding_layers` in src/ui/interaction/actions.rs): in one pass, with
  an index from each place to what is assigned there, and holes where something was replaced. Proved here: it comes to
  the assignments in effect, in order.
 */
module KeybindingsLayers {
  import opened Wrappers
  import opened Text
  import opened Keybindings

  /** A compiled entry; unbind entries are kept for the UI toolkit. */
  datatype Spec = Spec(place: Place, action: Action)

  /** What an entry is filed under at its place: the command it is about, if it is about one. */
  function KeyOf(action: Action): Option<string> {
    match action
    case Bind(command) => Some(command)
    case Unbind(which) => which
    case Ignored => None
  }

  type Index = map<Option<string>, nat>

  predicate IsBind(entry: Option<Spec>) {
    entry.Some? && entry.value.action.Bind?
  }

  function AssignmentOf(spec: Spec): Assignment
    requires spec.action.Bind?
  {
    Assignment(spec.place.context, spec.place.keys, spec.action.command)
  }

  /** The assignments among the entries that are left. */
  function Live(entries: seq<Option<Spec>>): seq<Assignment> {
    if entries == [] then []
    else
      var last := entries[|entries| - 1];
      Live(entries[..|entries| - 1]) + if IsBind(last) then [AssignmentOf(last.value)] else []
  }

  function Flatten(entries: seq<Option<Spec>>): seq<Spec> {
    if entries == [] then []
    else
      var last := entries[|entries| - 1];
      Flatten(entries[..|entries| - 1]) + if last.Some? then [last.value] else []
  }

  /** The entries that bind, as assignments. */
  function Bound(specs: seq<Spec>): seq<Assignment> {
    if specs == [] then []
    else
      var last := specs[|specs| - 1];
      Bound(specs[..|specs| - 1]) + if last.action.Bind? then [AssignmentOf(last)] else []
  }

  lemma {:induction false} FlattenKeepsLive(entries: seq<Option<Spec>>)
    ensures Bound(Flatten(entries)) == Live(entries)
  {
    if entries != [] {
      var front, last := entries[..|entries| - 1], entries[|entries| - 1];
      FlattenKeepsLive(front);
      if last.Some? {
        assert Flatten(entries)[..|Flatten(entries)| - 1] == Flatten(front);
      } else {
        assert Flatten(entries) == Flatten(front);
      }
    }
  }

  // ---- The index ----

  predicate Filed(entries: seq<Option<Spec>>, place: Place, key: Option<string>, i: nat) {
    && i < |entries| && entries[i].Some?
    && entries[i].value.place == place && KeyOf(entries[i].value.action) == key && !entries[i].value.action.Ignored?
  }

  /** The index holds exactly the entries that are left. */
  ghost predicate Indexed(index: map<Place, Index>, entries: seq<Option<Spec>>) {
    && (forall place, key :: place in index && key in index[place] ==> Filed(entries, place, key, index[place][key]))
    && (forall i :: 0 <= i < |entries| && entries[i].Some? ==>
          var spec := entries[i].value;
          && spec.place in index && KeyOf(spec.action) in index[spec.place]
            && index[spec.place][KeyOf(spec.action)] == i)
  }

  function At(index: map<Place, Index>, place: Place): Index {
    if place in index then index[place] else map[]
  }

  /** What an entry replaces among the entries at its place. */
  predicate Replaces(action: Action, entry: Option<Spec>) {
    match action
    case Bind(command) => entry.Some? && (entry.value.action.Bind? || KeyOf(entry.value.action) == Some(command))
    case Unbind(which) => entry.Some? && (which.None? || KeyOf(entry.value.action) == which)
    case Ignored => false
  }

  /**
    A binding replaces any other at its place and the entry that unbinds its own command; an entry that unbinds a
    command replaces what binds or unbinds that one, and an entry that unbinds everything replaces all.
   */
  lemma WhatIsReplaced(command: string, spec: Spec)
    requires !spec.action.Ignored?
    ensures Replaces(Bind(command), Some(spec)) <==> spec.action.Bind? || spec.action == Unbind(Some(command))
    ensures Replaces(Unbind(Some(command)), Some(spec))
        <==> spec.action == Bind(command) || spec.action == Unbind(Some(command))
    ensures Replaces(Unbind(None), Some(spec))
  {
  }

  /** The entries with what `action` replaces at `place` taken out. */
  ghost predicate TakenOut(before: seq<Option<Spec>>, after: seq<Option<Spec>>, place: Place, action: Action) {
    && |after| == |before|
    && forall i :: 0 <= i < |before| ==>
         after[i] == if before[i].Some? && before[i].value.place == place && Replaces(action, before[i]) then None
                     else before[i]
  }

  ghost predicate Kept(before: Index, after: Index, entries: seq<Option<Spec>>, action: Action) {
    && (forall key :: key in after <==>
          key in before && before[key] < |entries| && !Replaces(action, entries[before[key]]))
    && (forall key :: key in after ==> after[key] == before[key])
  }

  lemma {:induction false} TakenOutRemains(
    rules: Rules, before: seq<Option<Spec>>, after: seq<Option<Spec>>, binding: Keybinding)
    requires rules.compilation == Installed && !ActionOf(rules, binding).Ignored?
    requires TakenOut(before, after, PlaceOf(Target(rules, binding)), ActionOf(rules, binding))
    ensures Live(after) == Remaining(rules, Live(before), binding)
    decreases |before|
  {
    hide ActionOf, Target, Clears, Binds, Replaces;
    if before != [] {
      var place, action := PlaceOf(Target(rules, binding)), ActionOf(rules, binding);
      var n := |before| - 1;
      TakenOutRemains(rules, before[..n], after[..n], binding);
      var last := before[n];
      if IsBind(last) {
        ReplacedExactly(rules, binding, last.value);
        assert before[n] == Some(last.value);
        var front, a := Live(before[..n]), AssignmentOf(last.value);
        assert Live(before) == front + [a] && (front + [a])[..|front|] == front;
      } else {
        assert Live(before) == Live(before[..n]) && Live(after) == Live(after[..n]);
      }
    }
  }

  /** A bound entry is replaced at its place exactly when the new one clears or repeats its assignment. */
  lemma ReplacedExactly(rules: Rules, binding: Keybinding, spec: Spec)
    requires rules.compilation == Installed && !ActionOf(rules, binding).Ignored? && spec.action.Bind?
    ensures (spec.place == PlaceOf(Target(rules, binding)) && Replaces(ActionOf(rules, binding), Some(spec)))
        <==> Clears(rules, binding, AssignmentOf(spec)) || Binds(rules, binding, AssignmentOf(spec))
  {
    hide Resolved, NormalizeContext, Trim, ValidPlace;
  }

  /** One entry of the pass. */
  lemma EntryPasses(
    rules: Rules, binding: Keybinding, index: map<Place, Index>, before: seq<Option<Spec>>, after: seq<Option<Spec>>,
    kept: Index)
    requires rules.compilation == Installed && !ActionOf(rules, binding).Ignored? && Indexed(index, before)
    requires var place, action := PlaceOf(Target(rules, binding)), ActionOf(rules, binding);
             Kept(At(index, place), kept, before, action) && TakenOut(before, after, place, action)
    ensures var place, action := PlaceOf(Target(rules, binding)), ActionOf(rules, binding);
            && Live(after + [Some(Spec(place, action))]) == Enter(rules, Live(before), binding)
            && Indexed(index[place := kept[KeyOf(action) := |before|]], after + [Some(Spec(place, action))])
  {
    hide ActionOf, Target, Remaining, Live, Indexed, TakenOut, Kept;
    var place, action := PlaceOf(Target(rules, binding)), ActionOf(rules, binding);
    TakenOutRemains(rules, before, after, binding);
    IndexKept(index, before, after, place, action, kept);
    LivePush(after, Spec(place, action));
    if action.Bind? { BindIsTarget(rules, binding); }
  }

  predicate FiledIn(assignments: Index, entry: Option<Spec>, i: nat) {
    entry.Some? && KeyOf(entry.value.action) in assignments && assignments[KeyOf(entry.value.action)] == i
  }

  /** The index finds all that is to be replaced. */
  lemma TakenOutByIndex(
    index: map<Place, Index>, before: seq<Option<Spec>>, after: seq<Option<Spec>>, place: Place, action: Action)
    requires Indexed(index, before) && |after| == |before|
    requires forall i :: 0 <= i < |before| ==>
               after[i] == if FiledIn(At(index, place), before[i], i) && Replaces(action, before[i]) then None
                           else before[i]
    ensures TakenOut(before, after, place, action)
  {
    hide Replaces;
    forall i | 0 <= i < |before|
      ensures FiledIn(At(index, place), before[i], i) <==> before[i].Some? && before[i].value.place == place
    {
      if FiledIn(At(index, place), before[i], i) {
        assert Filed(before, place, KeyOf(before[i].value.action), i);
      }
    }
    NothingReplaced(action);
  }

  lemma NothingReplaced(action: Action)
    ensures !Replaces(action, None)
  {
  }

  /** A binding entry is compiled to its target. */
  lemma BindIsTarget(rules: Rules, binding: Keybinding)
    requires ActionOf(rules, binding).Bind?
    ensures AssignmentOf(Spec(PlaceOf(Target(rules, binding)), ActionOf(rules, binding))) == Target(rules, binding)
  {
    hide Resolved, NormalizeContext, Trim, ValidPlace;
  }

  lemma IgnoredKeeps(rules: Rules, list: seq<Assignment>, binding: Keybinding)
    requires ActionOf(rules, binding).Ignored?
    ensures Enter(rules, list, binding) == list
    decreases |list|
  {
    hide ActionOf, Target;
    if list != [] { IgnoredKeeps(rules, list[..|list| - 1], binding); }
  }

  lemma LivePush(entries: seq<Option<Spec>>, spec: Spec)
    ensures Live(entries + [Some(spec)]) == Live(entries) + if spec.action.Bind? then [AssignmentOf(spec)] else []
  {
    assert (entries + [Some(spec)])[..|entries|] == entries;
  }

  /** Taking out what is replaced and filing the new entry keeps the index. */
  lemma IndexKept(
    index: map<Place, Index>, before: seq<Option<Spec>>, after: seq<Option<Spec>>,
    place: Place, action: Action, kept: Index)
    requires Indexed(index, before) && !action.Ignored? && TakenOut(before, after, place, action)
    requires Kept(At(index, place), kept, before, action)
    ensures Indexed(index[place := kept[KeyOf(action) := |before|]], after + [Some(Spec(place, action))])
  {
    var all := after + [Some(Spec(place, action))];
    var filed := kept[KeyOf(action) := |before|];
    var next := index[place := filed];
    forall p, key | p in next && key in next[p] ensures Filed(all, p, key, next[p][key]) {
      if p == place {
        if key != KeyOf(action) {
          assert key in At(index, place) && Filed(before, place, key, index[place][key]);
        }
      } else {
        assert Filed(before, p, key, index[p][key]);
      }
    }
    forall i | 0 <= i < |all| && all[i].Some?
      ensures var spec := all[i].value;
              spec.place in next && KeyOf(spec.action) in next[spec.place] && next[spec.place][KeyOf(spec.action)] == i
    {
      if i < |before| {
        OldEntryFiled(index, before, after, place, action, kept, i);
      }
    }
  }

  lemma OldEntryFiled(
    index: map<Place, Index>, before: seq<Option<Spec>>, after: seq<Option<Spec>>, place: Place, action: Action,
    kept: Index, i: nat)
    requires Indexed(index, before) && !action.Ignored? && TakenOut(before, after, place, action)
    requires Kept(At(index, place), kept, before, action) && i < |before| && after[i].Some?
    ensures var spec := after[i].value;
            && spec.place in index && KeyOf(spec.action) in index[spec.place]
              && index[spec.place][KeyOf(spec.action)] == i
            && (spec.place == place ==> KeyOf(spec.action) in kept && KeyOf(spec.action) != KeyOf(action))
  {
    var spec := after[i].value;
    assert before[i] == after[i];
    if spec.place == place {
      assert Filed(before, place, KeyOf(spec.action), i);
      assert !Replaces(action, before[i]);
    }
  }

  // ---- The pass ----

  /** `retain` and `drain`: what is replaced leaves the entries and the place's part of the index. */
  method TakeOut(before: seq<Option<Spec>>, place: Place, assignments: Index, action: Action)
    returns (entries: seq<Option<Spec>>, kept: Index)
    requires forall key :: key in assignments ==> Filed(before, place, key, assignments[key])
    ensures |entries| == |before|
    ensures forall i :: 0 <= i < |before| ==>
              entries[i] == if FiledIn(assignments, before[i], i) && Replaces(action, before[i]) then None
                            else before[i]
    ensures Kept(assignments, kept, before, action)
  {
    hide Replaces, KeyOf;
    entries := before;
    kept := map[];
    var keys := assignments.Keys;
    while keys != {}
      invariant keys <= assignments.Keys && |entries| == |before|
      invariant forall i :: 0 <= i < |before| ==>
        entries[i] == if FiledIn(assignments, before[i], i) && KeyOf(before[i].value.action) !in keys
                         && Replaces(action, before[i]) then None else before[i]
      invariant forall key ::
          key in kept <==> key in assignments && key !in keys && !Replaces(action, before[assignments[key]])
      invariant forall key :: key in kept ==> kept[key] == assignments[key]
    {
      var key :| key in keys;
      keys := keys - {key};
      var previous := assignments[key];
      assert Filed(before, place, key, previous) && entries[previous] == before[previous];
      if Replaces(action, entries[previous]) {
        entries := entries[previous := None];
      } else {
        kept := kept[key := previous];
      }
    }
  }

  method CompileKeybindingLayers(rules: Rules, bindings: seq<Keybinding>) returns (layers: seq<Spec>)
    requires rules.compilation == Installed
    ensures Bound(layers) == Compiled(rules, bindings)
  {
    hide ActionOf, Target, Replaces, Enter, KeyOf;
    assert Live([]) == [] && bindings[..0] == [];
    hide Live;
    var effective: seq<Option<Spec>> := [];
    var byKey: map<Place, Index> := map[];
    for k := 0 to |bindings|
      invariant Live(effective) == Compiled(rules, bindings[..k])
      invariant Indexed(byKey, effective)
    {
      assert bindings[..k + 1][..k] == bindings[..k];
      var action := ActionOf(rules, bindings[k]);
      if action.Ignored? {
        IgnoredKeeps(rules, Compiled(rules, bindings[..k]), bindings[k]);
        continue;
      }
      var place := PlaceOf(Target(rules, bindings[k]));
      var assignments := At(byKey, place);
      var entries, kept := TakeOut(effective, place, assignments, action);
      TakenOutByIndex(byKey, effective, entries, place, action);
      EntryPasses(rules, bindings[k], byKey, effective, entries, kept);
      byKey := byKey[place := kept[KeyOf(action) := |effective|]];
      effective := entries + [Some(Spec(place, action))];
    }
    assert bindings[..|bindings|] == bindings;
    FlattenKeepsLive(effective);
    layers := Flatten(effective);
  }
}
