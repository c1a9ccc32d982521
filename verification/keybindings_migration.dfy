/** What the migration to sparse key bindings preserves, and exactly when it does. */
module KeybindingsMigration {
  import opened Wrappers
  import opened Text
  import opened Keybindings

  // ---- Sameness ----

  /** Entries that are the same assignment take effect alike, whatever the leader and the commands. */
  lemma SameAssignmentActsAlike(rules: Rules, a: Keybinding, b: Keybinding)
    requires SameAssignment(a, b) && a.unbind == b.unbind
    ensures ActionOf(rules, a) == ActionOf(rules, b) && Target(rules, a) == Target(rules, b)
  {
    hide NormalizeKeys, NormalizeContext, Trim, SplitWhitespace, PushAll;
  }

  /**
    Defaults are real bindings of a single keystroke, without the leader, and give no keys two commands in one
    context.
   */
  ghost predicate WellMade(rules: Rules, defaults: seq<Keybinding>) {
    && (forall i :: 0 <= i < |defaults| ==>
         !defaults[i].unbind && ActionOf(rules, defaults[i]).Bind? && SingleKeystroke(defaults[i].keys))
    && (forall i, j :: 0 <= i < j < |defaults| && SamePlace(Target(rules, defaults[i]), Target(rules, defaults[j])) ==>
         Target(rules, defaults[i]) == Target(rules, defaults[j]))
  }

  predicate SingleKeystroke(keys: string) {
    var normal := NormalizeKeys(keys);
    SplitWhitespace(normal) == [normal] && !EqIgnoreAsciiCase(normal, "<leader>")
  }

  lemma SingleKeystrokeResolvesToItself(keys: string, leader: string)
    requires SingleKeystroke(keys)
    ensures Resolved(keys, leader) == NormalizeKeys(keys)
  {
    hide SplitWhitespace, NormalizeKeys, EqIgnoreAsciiCase;
    var normal := NormalizeKeys(keys);
    assert [normal][1..] == [];
    assert PushAll(Push("", normal, NormalizeKeys(leader)), [], NormalizeKeys(leader)) == normal;
  }

  /** Defaults with one target are one assignment. */
  lemma TargetTellsDefaultsApart(rules: Rules, defaults: seq<Keybinding>, i: nat, j: nat)
    requires WellMade(rules, defaults) && i < |defaults| && j < |defaults|
    requires Target(rules, defaults[i]) == Target(rules, defaults[j])
    ensures SameAssignment(defaults[i], defaults[j])
  {
    hide NormalizeKeys, NormalizeContext, Trim, Resolved, SingleKeystroke;
    SingleKeystrokeResolvesToItself(defaults[i].keys, rules.leader);
    SingleKeystrokeResolvesToItself(defaults[j].keys, rules.leader);
  }

  // ---- Effects on one assignment ----

  datatype Effect = Sets | Unsets | Skips

  function EffectOn(rules: Rules, binding: Keybinding, a: Assignment): Effect {
    if Binds(rules, binding, a) then Sets else if Clears(rules, binding, a) then Unsets else Skips
  }

  function Effects(rules: Rules, bindings: seq<Keybinding>, a: Assignment): seq<Effect> {
    seq(|bindings|, i requires 0 <= i < |bindings| => EffectOn(rules, bindings[i], a))
  }

  /** Whether the assignment is in effect in the end. */
  function After(start: bool, effects: seq<Effect>): bool {
    if effects == [] then start
    else
      match effects[|effects| - 1]
      case Sets => true
      case Unsets => false
      case Skips => After(start, effects[..|effects| - 1])
  }

  lemma {:induction false} AfterConcat(start: bool, first: seq<Effect>, rest: seq<Effect>)
    ensures After(start, first + rest) == After(After(start, first), rest)
    decreases |rest|
  {
    if rest == [] {
      assert first + rest == first;
    } else {
      assert (first + rest)[..|first + rest| - 1] == first + rest[..|rest| - 1];
      AfterConcat(start, first, rest[..|rest| - 1]);
    }
  }

  lemma EffectsConcat(rules: Rules, first: seq<Keybinding>, rest: seq<Keybinding>, a: Assignment)
    ensures Effects(rules, first + rest, a) == Effects(rules, first, a) + Effects(rules, rest, a)
  {
    hide EffectOn;
  }

  lemma {:induction false} RemainingIs(rules: Rules, list: seq<Assignment>, binding: Keybinding, a: Assignment)
    ensures a in Remaining(rules, list, binding)
        <==> a in list && !Clears(rules, binding, a) && !Binds(rules, binding, a)
  {
    hide Clears, Binds;
    if list != [] {
      var front, last := list[..|list| - 1], list[|list| - 1];
      RemainingIs(rules, front, binding, a);
      assert a in list <==> a in front || a == last;
    }
  }

  lemma EnterIs(rules: Rules, list: seq<Assignment>, binding: Keybinding, a: Assignment)
    ensures a in Enter(rules, list, binding)
        <==> Binds(rules, binding, a) || (a in list && !Clears(rules, binding, a))
  {
    hide Clears, Remaining, ActionOf, Target;
    RemainingIs(rules, list, binding, a);
  }

  lemma {:induction false} AssignedIsAfter(rules: Rules, bindings: seq<Keybinding>, a: Assignment)
    ensures a in Assigned(rules, bindings) <==> After(false, Effects(rules, bindings, a))
    decreases |bindings|
  {
    hide Binds, Clears, Enter;
    if bindings != [] {
      var front := bindings[..|bindings| - 1];
      AssignedIsAfter(rules, front, a);
      EnterIs(rules, Compiled(rules, front), bindings[|bindings| - 1], a);
      assert Effects(rules, bindings, a)[..|front|] == Effects(rules, front, a);
    }
  }

  /** The last entry that does anything decides. */
  lemma {:induction false} LastEffectDecides(start: bool, effects: seq<Effect>, k: nat)
    requires k < |effects| && effects[k] != Skips && forall i :: k < i < |effects| ==> effects[i] == Skips
    ensures After(start, effects) <==> effects[k] == Sets
    decreases |effects|
  {
    if k < |effects| - 1 {
      LastEffectDecides(start, effects[..|effects| - 1], k);
    }
  }

  lemma {:induction false} LastEffect(start: bool, effects: seq<Effect>) returns (k: nat)
    requires exists i :: 0 <= i < |effects| && effects[i] != Skips
    ensures k < |effects| && effects[k] != Skips && forall i :: k < i < |effects| ==> effects[i] == Skips
    ensures After(start, effects) <==> effects[k] == Sets
    decreases |effects|
  {
    if effects[|effects| - 1] != Skips {
      k := |effects| - 1;
    } else {
      var front := effects[..|effects| - 1];
      assert exists i :: 0 <= i < |front| && front[i] != Skips;
      k := LastEffect(start, front);
    }
  }

  lemma {:induction false} NoEffect(start: bool, effects: seq<Effect>)
    requires forall i :: 0 <= i < |effects| ==> effects[i] == Skips
    ensures After(start, effects) == start
  {
    if effects != [] { NoEffect(start, effects[..|effects| - 1]); }
  }

  /** With nothing later to the contrary, an effect lasts. */
  lemma {:induction false} EffectLasts(start: bool, effects: seq<Effect>, k: nat)
    requires k < |effects| && effects[k] != Skips
    requires forall i :: k < i < |effects| ==> effects[i] == Skips || effects[i] == effects[k]
    ensures After(start, effects) <==> effects[k] == Sets
    decreases |effects|
  {
    if k < |effects| - 1 && effects[|effects| - 1] == Skips {
      EffectLasts(start, effects[..|effects| - 1], k);
    }
  }

  // ---- The defaults and their removals ----

  /** The assignment is a default that the authoritative list binds too. */
  ghost predicate KeptDefault(rules: Rules, defaults: seq<Keybinding>, authoritative: seq<Keybinding>, a: Assignment) {
    exists i :: 0 <= i < |defaults| && Target(rules, defaults[i]) == a && Keeps(authoritative, defaults[i])
  }

  lemma {:induction false} DefaultsSet(rules: Rules, defaults: seq<Keybinding>, a: Assignment)
    requires WellMade(rules, defaults)
    ensures After(false, Effects(rules, defaults, a))
        <==> exists i :: 0 <= i < |defaults| && Target(rules, defaults[i]) == a
  {
    hide ActionOf, Target, SingleKeystroke;
    if defaults != [] {
      var front := defaults[..|defaults| - 1];
      DefaultsSet(rules, front, a);
      assert Effects(rules, defaults, a)[..|front|] == Effects(rules, front, a);
      if After(false, Effects(rules, front, a)) {
        var i :| 0 <= i < |front| && Target(rules, front[i]) == a;
        assert Target(rules, defaults[i]) == a;
      }
    }
  }

  lemma RemovalUnsets(rules: Rules, binding: Keybinding, a: Assignment)
    requires ActionOf(rules, binding).Bind?
    ensures EffectOn(rules, binding.(unbind := true), a) == if Target(rules, binding) == a then Unsets else Skips
  {
    hide ValidPlace, Resolved, NormalizeContext, Trim;
  }

  lemma {:induction false} RemovalsUnset(
    rules: Rules, defaults: seq<Keybinding>, authoritative: seq<Keybinding>, a: Assignment, start: bool)
    requires WellMade(rules, defaults)
    ensures After(start, Effects(rules, Removals(defaults, authoritative), a))
        <==> (start
          && forall i :: 0 <= i < |defaults| && Target(rules, defaults[i]) == a ==> Keeps(authoritative, defaults[i]))
    decreases |defaults|
  {
    hide ActionOf, Target, Keeps, SingleKeystroke, EffectOn;
    if defaults != [] {
      var front, last := defaults[..|defaults| - 1], defaults[|defaults| - 1];
      RemovalsUnset(rules, front, authoritative, a, start);
      assert forall i :: 0 <= i < |front| ==> front[i] == defaults[i];
      if !Keeps(authoritative, last) {
        var removal := last.(unbind := true);
        RemovalUnsets(rules, last, a);
        EffectsConcat(rules, Removals(front, authoritative), [removal], a);
        AfterConcat(start, Effects(rules, Removals(front, authoritative), a), Effects(rules, [removal], a));
        assert Effects(rules, [removal], a) == [EffectOn(rules, removal, a)];
        OneEffect(After(start, Effects(rules, Removals(front, authoritative), a)), EffectOn(rules, removal, a));
      } else {
        assert Removals(front, authoritative) + [] == Removals(front, authoritative);
      }
    }
  }

  lemma OneEffect(start: bool, effect: Effect)
    ensures After(start, [effect]) == if effect == Skips then start else effect == Sets
  {
    assert [effect][..0] == [];
  }

  lemma KeepsRespectsSameness(authoritative: seq<Keybinding>, a: Keybinding, b: Keybinding)
    requires SameAssignment(a, b) && Keeps(authoritative, a)
    ensures Keeps(authoritative, b)
  {
    hide NormalizeKeys, NormalizeContext, Trim;
    var i :| 0 <= i < |authoritative| && !authoritative[i].unbind && SameAssignment(authoritative[i], a);
    assert SameAssignment(authoritative[i], b);
  }

  /** What is in effect before the additions: the defaults that the authoritative list also binds. */
  lemma DefaultsLessRemovals(rules: Rules, defaults: seq<Keybinding>, authoritative: seq<Keybinding>, a: Assignment)
    requires WellMade(rules, defaults)
    ensures After(false, Effects(rules, defaults + Removals(defaults, authoritative), a))
        <==> KeptDefault(rules, defaults, authoritative, a)
  {
    hide ActionOf, Target, Keeps, SingleKeystroke, SameAssignment, Removals;
    var removals := Removals(defaults, authoritative);
    EffectsConcat(rules, defaults, removals, a);
    AfterConcat(false, Effects(rules, defaults, a), Effects(rules, removals, a));
    DefaultsSet(rules, defaults, a);
    RemovalsUnset(rules, defaults, authoritative, a, After(false, Effects(rules, defaults, a)));
    if KeptDefault(rules, defaults, authoritative, a) {
      var k :| 0 <= k < |defaults| && Target(rules, defaults[k]) == a && Keeps(authoritative, defaults[k]);
      forall i | 0 <= i < |defaults| && Target(rules, defaults[i]) == a ensures Keeps(authoritative, defaults[i]) {
        TargetTellsDefaultsApart(rules, defaults, k, i);
        KeepsRespectsSameness(authoritative, defaults[k], defaults[i]);
      }
    }
  }

  // ---- The additions ----

  predicate RepeatsDefault(defaults: seq<Keybinding>, binding: Keybinding) {
    !binding.unbind && IsDefault(defaults, binding)
  }

  function AdditionEffect(rules: Rules, defaults: seq<Keybinding>, binding: Keybinding, a: Assignment): Effect {
    if RepeatsDefault(defaults, binding) then Skips else EffectOn(rules, binding, a)
  }

  function AdditionEffects(
    rules: Rules, defaults: seq<Keybinding>, authoritative: seq<Keybinding>, a: Assignment): seq<Effect>
  {
    seq(|authoritative|, i requires 0 <= i < |authoritative| => AdditionEffect(rules, defaults, authoritative[i], a))
  }

  lemma {:induction false} AdditionsSkipDefaults(
    rules: Rules, defaults: seq<Keybinding>, authoritative: seq<Keybinding>, a: Assignment, start: bool)
    ensures After(start, Effects(rules, Additions(defaults, authoritative), a))
            == After(start, AdditionEffects(rules, defaults, authoritative, a))
    decreases |authoritative|
  {
    hide IsDefault, EffectOn;
    if authoritative != [] {
      var front, last := authoritative[..|authoritative| - 1], authoritative[|authoritative| - 1];
      AdditionsSkipDefaults(rules, defaults, front, a, start);
      assert AdditionEffects(rules, defaults, authoritative, a)[..|front|]
          == AdditionEffects(rules, defaults, front, a);
      var before := Additions(defaults, front);
      if RepeatsDefault(defaults, last) {
        assert before + [] == before;
      } else {
        EffectsConcat(rules, before, [last], a);
        assert Effects(rules, [last], a) == [EffectOn(rules, last, a)];
        AfterConcat(start, Effects(rules, before, a), [EffectOn(rules, last, a)]);
        OneEffect(After(start, Effects(rules, before, a)), EffectOn(rules, last, a));
      }
    }
  }

  /** A default is kept exactly when some entry repeats it, and such an entry binds its target. */
  lemma KeptMeansRepeated(rules: Rules, defaults: seq<Keybinding>, authoritative: seq<Keybinding>, a: Assignment)
    requires WellMade(rules, defaults)
    ensures KeptDefault(rules, defaults, authoritative, a)
        <==> exists j ::
          0 <= j < |authoritative| && RepeatsDefault(defaults, authoritative[j]) && Binds(rules, authoritative[j], a)
  {
    hide ActionOf, Target, SingleKeystroke, SameAssignment;
    if KeptDefault(rules, defaults, authoritative, a) {
      var i :| 0 <= i < |defaults| && Target(rules, defaults[i]) == a && Keeps(authoritative, defaults[i]);
      var j :| 0 <= j < |authoritative| && !authoritative[j].unbind && SameAssignment(authoritative[j], defaults[i]);
      Swap(authoritative[j], defaults[i]);
      SameAssignmentActsAlike(rules, authoritative[j], defaults[i]);
      assert RepeatsDefault(defaults, authoritative[j]) && Binds(rules, authoritative[j], a);
    }
    if j :|
      0 <= j < |authoritative| && RepeatsDefault(defaults, authoritative[j]) && Binds(rules, authoritative[j], a)
    {
      var i :| 0 <= i < |defaults| && SameAssignment(defaults[i], authoritative[j]);
      Swap(defaults[i], authoritative[j]);
      SameAssignmentActsAlike(rules, defaults[i], authoritative[j]);
      assert Keeps(authoritative, defaults[i]);
    }
  }

  lemma Swap(a: Keybinding, b: Keybinding)
    requires SameAssignment(a, b)
    ensures SameAssignment(b, a)
  {
  }

  // ---- When the migration preserves the bindings ----

  predicate Adds(defaults: seq<Keybinding>, authoritative: seq<Keybinding>, k: nat)
    requires k < |authoritative|
  {
    !RepeatsDefault(defaults, authoritative[k])
  }

  /**
    A default is lost: entry `j` only repeats it, for good, after entry `i` cleared it. The migration drops `j` and
    keeps `i`.
   */
  ghost predicate Loses(rules: Rules, defaults: seq<Keybinding>, authoritative: seq<Keybinding>, i: nat, j: nat) {
    && i < j < |authoritative|
    && RepeatsDefault(defaults, authoritative[j]) && ActionOf(rules, authoritative[j]).Bind?
    && var a := Target(rules, authoritative[j]);
    && Adds(defaults, authoritative, i) && Clears(rules, authoritative[i], a)
    && (forall k :: j < k < |authoritative| ==> !Clears(rules, authoritative[k], a))
    && (forall k :: i < k < |authoritative| && Adds(defaults, authoritative, k) ==> !Binds(rules, authoritative[k], a))
  }

  /**
    A binding comes back: entry `i` bound it and entry `j`, which only repeats a default, cleared it for good. The
    migration keeps `i` and drops `j`.
   */
  ghost predicate Resurfaces(rules: Rules, defaults: seq<Keybinding>, authoritative: seq<Keybinding>, i: nat, j: nat) {
    && i < j < |authoritative|
    && Adds(defaults, authoritative, i) && ActionOf(rules, authoritative[i]).Bind?
    && var a := Target(rules, authoritative[i]);
    && RepeatsDefault(defaults, authoritative[j]) && Clears(rules, authoritative[j], a)
    && (forall k :: j < k < |authoritative| ==> !Binds(rules, authoritative[k], a))
    && (forall k :: i < k < |authoritative| && Adds(defaults, authoritative, k) ==> !Clears(rules, authoritative[k], a))
  }

  lemma LostDiffers(
    rules: Rules, defaults: seq<Keybinding>, authoritative: seq<Keybinding>, i: nat, j: nat, start: bool)
    requires Loses(rules, defaults, authoritative, i, j)
    ensures var a := Target(rules, authoritative[j]);
            && After(false, Effects(rules, authoritative, a))
            && !After(start, AdditionEffects(rules, defaults, authoritative, a))
  {
    hide ActionOf, Target, IsDefault;
    var a := Target(rules, authoritative[j]);
    var all := Effects(rules, authoritative, a);
    assert all[j] == Sets;
    forall k | j < k < |all| ensures all[k] != Unsets {
      assert !Clears(rules, authoritative[k], a);
    }
    EffectLasts(false, all, j);
    ClearingDoesNotBind(rules, authoritative[i], a);
    var added := AdditionEffects(rules, defaults, authoritative, a);
    assert added[i] == Unsets;
    forall k | i < k < |added| ensures added[k] != Sets {
      assert Adds(defaults, authoritative, k) ==> !Binds(rules, authoritative[k], a);
    }
    EffectLasts(start, added, i);
  }

  lemma ResurfacedDiffers(
    rules: Rules, defaults: seq<Keybinding>, authoritative: seq<Keybinding>, i: nat, j: nat, start: bool)
    requires Resurfaces(rules, defaults, authoritative, i, j)
    ensures var a := Target(rules, authoritative[i]);
            && !After(false, Effects(rules, authoritative, a))
            && After(start, AdditionEffects(rules, defaults, authoritative, a))
  {
    hide ActionOf, Target, IsDefault;
    var a := Target(rules, authoritative[i]);
    var all := Effects(rules, authoritative, a);
    ClearingDoesNotBind(rules, authoritative[j], a);
    assert all[j] == Unsets;
    forall k | j < k < |all| ensures all[k] != Sets {
      assert !Binds(rules, authoritative[k], a);
    }
    EffectLasts(false, all, j);
    var added := AdditionEffects(rules, defaults, authoritative, a);
    assert added[i] == Sets;
    forall k | i < k < |added| ensures added[k] != Unsets {
      assert Adds(defaults, authoritative, k) ==> !Clears(rules, authoritative[k], a);
    }
    EffectLasts(start, added, i);
  }

  lemma ClearingDoesNotBind(rules: Rules, binding: Keybinding, a: Assignment)
    requires Clears(rules, binding, a)
    ensures !Binds(rules, binding, a)
  {
  }

  /** An entry that repeats a default leaves every kept default in effect. */
  lemma RepeatClearsNoKeptDefault(
    rules: Rules, defaults: seq<Keybinding>, authoritative: seq<Keybinding>, binding: Keybinding, a: Assignment)
    requires WellMade(rules, defaults) && RepeatsDefault(defaults, binding)
    requires KeptDefault(rules, defaults, authoritative, a)
    ensures !Clears(rules, binding, a)
  {
    hide ActionOf, Target, SingleKeystroke, SameAssignment, Keeps;
    var i :| 0 <= i < |defaults| && SameAssignment(defaults[i], binding);
    var k :| 0 <= k < |defaults| && Target(rules, defaults[k]) == a && Keeps(authoritative, defaults[k]);
    SameAssignmentActsAlike(rules, defaults[i], binding);
    OneCommandPerPlace(rules, defaults, i, k);
  }

  lemma OneCommandPerPlace(rules: Rules, defaults: seq<Keybinding>, i: nat, j: nat)
    requires WellMade(rules, defaults) && i < |defaults| && j < |defaults|
    ensures SamePlace(Target(rules, defaults[i]), Target(rules, defaults[j])) ==>
              Target(rules, defaults[i]) == Target(rules, defaults[j])
  {
    hide ActionOf, Target, SingleKeystroke;
  }

  lemma EffectsDiffer(
    rules: Rules, defaults: seq<Keybinding>, authoritative: seq<Keybinding>, a: Assignment, k: nat)
    requires k < |authoritative|
    ensures AdditionEffects(rules, defaults, authoritative, a)[k]
            == if Adds(defaults, authoritative, k) then Effects(rules, authoritative, a)[k] else Skips
  {
    hide EffectOn, IsDefault;
  }

  lemma LastOfKept(rules: Rules, defaults: seq<Keybinding>, authoritative: seq<Keybinding>, a: Assignment)
    returns (i: nat, j: nat)
    requires WellMade(rules, defaults) && KeptDefault(rules, defaults, authoritative, a)
    requires After(false, Effects(rules, authoritative, a))
          != After(true, AdditionEffects(rules, defaults, authoritative, a))
    ensures Loses(rules, defaults, authoritative, i, j)
  {
    hide ActionOf, Target, IsDefault, KeptDefault, After, WellMade;
    var all, added := Effects(rules, authoritative, a), AdditionEffects(rules, defaults, authoritative, a);
    KeptMeansRepeated(rules, defaults, authoritative, a);
    var r :| 0 <= r < |authoritative| && RepeatsDefault(defaults, authoritative[r])
      && Binds(rules, authoritative[r], a);
    assert all[r] == Sets;
    j := LastEffect(false, all);
    EffectsDiffer(rules, defaults, authoritative, a, j);
    forall k | 0 <= k < |all| ensures added[k] == if Adds(defaults, authoritative, k) then all[k] else Skips {
      EffectsDiffer(rules, defaults, authoritative, a, k);
    }
    if Adds(defaults, authoritative, j) {
      LastEffectDecides(true, added, j);
    }
    assert RepeatsDefault(defaults, authoritative[j]);
    RepeatClearsNoKeptDefault(rules, defaults, authoritative, authoritative[j], a);
    assert all[j] == Sets;
    if forall k :: 0 <= k < |added| ==> added[k] == Skips { NoEffect(true, added); }
    i := LastEffect(true, added);
    assert added[i] == Unsets && all[i] == Unsets && Adds(defaults, authoritative, i);
    assert i < j;
    assert Binds(rules, authoritative[j], a) && Clears(rules, authoritative[i], a);
    forall k | j < k < |authoritative| ensures !Clears(rules, authoritative[k], a) {
      assert all[k] == EffectOn(rules, authoritative[k], a) == Skips;
    }
    forall k | i < k < |authoritative| && Adds(defaults, authoritative, k) ensures !Binds(rules, authoritative[k], a) {
      assert added[k] == Skips && all[k] == EffectOn(rules, authoritative[k], a);
    }
  }

  lemma LastOfOther(rules: Rules, defaults: seq<Keybinding>, authoritative: seq<Keybinding>, a: Assignment)
    returns (i: nat, j: nat)
    requires WellMade(rules, defaults) && !KeptDefault(rules, defaults, authoritative, a)
    requires After(false, Effects(rules, authoritative, a))
          != After(false, AdditionEffects(rules, defaults, authoritative, a))
    ensures Resurfaces(rules, defaults, authoritative, i, j)
  {
    hide ActionOf, Target, IsDefault, KeptDefault, After, WellMade;
    var all, added := Effects(rules, authoritative, a), AdditionEffects(rules, defaults, authoritative, a);
    KeptMeansRepeated(rules, defaults, authoritative, a);
    forall k | 0 <= k < |all| ensures added[k] == if Adds(defaults, authoritative, k) then all[k] else Skips {
      EffectsDiffer(rules, defaults, authoritative, a, k);
    }
    if forall k :: 0 <= k < |all| ==> all[k] == Skips {
      NoEffect(false, all);
      NoEffect(false, added);
    }
    j := LastEffect(false, all);
    if Adds(defaults, authoritative, j) { LastEffectDecides(false, added, j); }
    assert RepeatsDefault(defaults, authoritative[j]);
    assert !Binds(rules, authoritative[j], a);
    assert all[j] == Unsets;
    if forall k :: 0 <= k < |added| ==> added[k] == Skips { NoEffect(false, added); }
    i := LastEffect(false, added);
    assert added[i] == Sets && all[i] == Sets && Adds(defaults, authoritative, i);
    assert i < j;
    assert Binds(rules, authoritative[i], a) && Clears(rules, authoritative[j], a);
    forall k | j < k < |authoritative| ensures !Binds(rules, authoritative[k], a) {
      assert all[k] == EffectOn(rules, authoritative[k], a) == Skips;
    }
    forall k | i < k < |authoritative| && Adds(defaults, authoritative, k) ensures !Clears(rules, authoritative[k], a) {
      assert added[k] == Skips && all[k] == EffectOn(rules, authoritative[k], a);
    }
  }

  lemma MigratedIs(rules: Rules, defaults: seq<Keybinding>, authoritative: seq<Keybinding>, a: Assignment)
    requires WellMade(rules, defaults)
    ensures a in Assigned(rules, defaults + Sparse(defaults, authoritative))
        <==> After(KeptDefault(rules, defaults, authoritative, a), AdditionEffects(rules, defaults, authoritative, a))
  {
    hide EffectOn, KeptDefault, Removals, Additions, After, Assigned, AdditionEffects;
    var removals, additions := Removals(defaults, authoritative), Additions(defaults, authoritative);
    var all := defaults + Sparse(defaults, authoritative);
    assert all == (defaults + removals) + additions;
    AssignedIsAfter(rules, all, a);
    EffectsConcat(rules, defaults + removals, additions, a);
    AfterConcat(false, Effects(rules, defaults + removals, a), Effects(rules, additions, a));
    DefaultsLessRemovals(rules, defaults, authoritative, a);
    AdditionsSkipDefaults(rules, defaults, authoritative, a, KeptDefault(rules, defaults, authoritative, a));
  }

  ghost predicate Preserved(rules: Rules, defaults: seq<Keybinding>, authoritative: seq<Keybinding>) {
    Assigned(rules, defaults + Sparse(defaults, authoritative)) == Assigned(rules, authoritative)
  }

  lemma DifferenceHasReason(rules: Rules, defaults: seq<Keybinding>, authoritative: seq<Keybinding>)
    returns (i: nat, j: nat)
    requires WellMade(rules, defaults) && !Preserved(rules, defaults, authoritative)
    ensures Loses(rules, defaults, authoritative, i, j) || Resurfaces(rules, defaults, authoritative, i, j)
  {
    hide WellMade, KeptDefault, Assigned, Loses, Resurfaces, After, Effects, AdditionEffects, Sparse;
    var migrated := Assigned(rules, defaults + Sparse(defaults, authoritative));
    var original := Assigned(rules, authoritative);
    SetsDiffer(migrated, original);
    var a :| (a in migrated) != (a in original);
    MigratedIs(rules, defaults, authoritative, a);
    AssignedIsAfter(rules, authoritative, a);
    if KeptDefault(rules, defaults, authoritative, a) {
      i, j := LastOfKept(rules, defaults, authoritative, a);
    } else {
      i, j := LastOfOther(rules, defaults, authoritative, a);
    }
  }

  lemma ReasonMakesDifference(rules: Rules, defaults: seq<Keybinding>, authoritative: seq<Keybinding>, i: nat, j: nat)
    requires WellMade(rules, defaults)
    requires Loses(rules, defaults, authoritative, i, j) || Resurfaces(rules, defaults, authoritative, i, j)
    ensures !Preserved(rules, defaults, authoritative)
  {
    hide WellMade, Assigned, Loses, Resurfaces, After, Effects, AdditionEffects, Sparse, KeptDefault;
    InRange(rules, defaults, authoritative, i, j);
    var a := Target(rules, authoritative[if Loses(rules, defaults, authoritative, i, j) then j else i]);
    var start := KeptDefault(rules, defaults, authoritative, a);
    MigratedIs(rules, defaults, authoritative, a);
    AssignedIsAfter(rules, authoritative, a);
    if Loses(rules, defaults, authoritative, i, j) {
      LostDiffers(rules, defaults, authoritative, i, j, start);
    } else {
      ResurfacedDiffers(rules, defaults, authoritative, i, j, start);
    }
  }

  /**
    The defaults with the sparse overrides put into effect exactly what the authoritative list did, unless that list
    repeats a default after it was cleared, or to clear another binding: the migration drops such an entry.
   */
  lemma MigrationPreservesBindings(rules: Rules, defaults: seq<Keybinding>, authoritative: seq<Keybinding>)
    requires WellMade(rules, defaults)
    ensures Preserved(rules, defaults, authoritative)
        <==> forall i, j ::
          !Loses(rules, defaults, authoritative, i, j) && !Resurfaces(rules, defaults, authoritative, i, j)
  {
    hide WellMade, Loses, Resurfaces, Preserved;
    if Preserved(rules, defaults, authoritative) {
      forall i, j
        ensures !Loses(rules, defaults, authoritative, i, j) && !Resurfaces(rules, defaults, authoritative, i, j)
      {
        if Loses(rules, defaults, authoritative, i, j) || Resurfaces(rules, defaults, authoritative, i, j) {
          ReasonMakesDifference(rules, defaults, authoritative, i, j);
          assert false;
        }
      }
    } else {
      var i, j := DifferenceHasReason(rules, defaults, authoritative);
    }
  }

  lemma SetsDiffer(a: set<Assignment>, b: set<Assignment>)
    requires a != b
    ensures exists x :: (x in a) != (x in b)
  {
  }

  lemma InRange(rules: Rules, defaults: seq<Keybinding>, authoritative: seq<Keybinding>, i: nat, j: nat)
    requires Loses(rules, defaults, authoritative, i, j) || Resurfaces(rules, defaults, authoritative, i, j)
    ensures i < j < |authoritative|
  {
  }

  // ---- Lists that keep their meaning ----

  /** No two entries give the same keys different commands in the same context. */
  ghost predicate NoConflicts(rules: Rules, bindings: seq<Keybinding>) {
    forall i, j :: 0 <= i < j < |bindings| && SamePlace(Target(rules, bindings[i]), Target(rules, bindings[j])) ==>
      Target(rules, bindings[i]) == Target(rules, bindings[j])
  }

  lemma BindClearsOnlyConflicts(rules: Rules, binding: Keybinding, a: Assignment)
    requires !binding.unbind && Clears(rules, binding, a)
    ensures rules.compilation == Installed && SamePlace(Target(rules, binding), a) && Target(rules, binding) != a
  {
    hide Resolved, NormalizeContext, Trim, ValidPlace;
  }

  /** Without unbind entries only a conflict can make the migration lose a binding or bring one back. */
  lemma ReasonIsConflict(rules: Rules, defaults: seq<Keybinding>, authoritative: seq<Keybinding>, i: nat, j: nat)
    requires Loses(rules, defaults, authoritative, i, j) || Resurfaces(rules, defaults, authoritative, i, j)
    requires !authoritative[i].unbind && !authoritative[j].unbind
    ensures rules.compilation == Installed
    ensures SamePlace(Target(rules, authoritative[i]), Target(rules, authoritative[j]))
    ensures Target(rules, authoritative[i]) != Target(rules, authoritative[j])
  {
    hide ActionOf, Target, IsDefault, Clears;
    if Loses(rules, defaults, authoritative, i, j) {
      BindClearsOnlyConflicts(rules, authoritative[i], Target(rules, authoritative[j]));
    } else {
      BindClearsOnlyConflicts(rules, authoritative[j], Target(rules, authoritative[i]));
    }
  }

  /**
    Without unbind entries a list keeps its meaning in the settings listing, and in every compilation when it has no
    conflicts.
   */
  lemma ListsWithoutUnbindsArePreserved(rules: Rules, defaults: seq<Keybinding>, authoritative: seq<Keybinding>)
    requires WellMade(rules, defaults)
    requires forall i :: 0 <= i < |authoritative| ==> !authoritative[i].unbind
    requires rules.compilation == Listed || NoConflicts(rules, authoritative)
    ensures Preserved(rules, defaults, authoritative)
  {
    hide WellMade, Target, Loses, Resurfaces, Preserved, IsDefault;
    if !Preserved(rules, defaults, authoritative) {
      var i, j := DifferenceHasReason(rules, defaults, authoritative);
      InRange(rules, defaults, authoritative, i, j);
      ReasonIsConflict(rules, defaults, authoritative, i, j);
    }
  }

  // ---- Lists that do not ----

  /** In every compilation: a list that unbinds a default and binds it again loses it. */
  lemma RebindingADefaultIsLost(rules: Rules, binding: Keybinding)
    requires WellMade(rules, [binding])
    ensures var authoritative := [binding.(unbind := true), binding];
            && !Preserved(rules, [binding], authoritative)
            && Target(rules, binding) in Assigned(rules, authoritative)
  {
    hide Assigned, Preserved, Sparse, SingleKeystroke, Resolved, NormalizeContext, Trim, After;
    var authoritative := [binding.(unbind := true), binding];
    var a := Target(rules, binding);
    assert [binding][0] == binding;
    RemovalUnsets(rules, binding, a);
    assert SameAssignment([binding][0], binding);
    assert RepeatsDefault([binding], authoritative[1]);
    assert Adds([binding], authoritative, 0);
    assert Clears(rules, authoritative[0], a);
    assert Loses(rules, [binding], authoritative, 0, 1);
    ReasonMakesDifference(rules, [binding], authoritative, 0, 1);
    LostDiffers(rules, [binding], authoritative, 0, 1, true);
    AssignedIsAfter(rules, authoritative, a);
  }

  /**
    Among the installed keys: a list that gives a default's keys another command and then the default again runs the
    default before the migration and the other command after it.
   */
  lemma OverriddenDefaultIsLost(rules: Rules, binding: Keybinding, other: Keybinding)
    requires rules.compilation == Installed && WellMade(rules, [binding])
    requires ActionOf(rules, other).Bind? && SamePlace(Target(rules, other), Target(rules, binding))
    requires Trim(other.command) != Trim(binding.command)
    ensures var authoritative := [other, binding];
            && Compiled(rules, authoritative) == [Target(rules, binding)]
            && Compiled(rules, [binding] + Sparse([binding], authoritative)) == [Target(rules, other)]
  {
    hide SingleKeystroke, Resolved, NormalizeContext, NormalizeKeys, Trim, ValidPlace;
    var authoritative := [other, binding];
    assert [binding][0] == binding;
    assert !SameAssignment(binding, other) && SameAssignment(binding, binding);
    assert Keeps(authoritative, binding) by { assert SameAssignment(authoritative[1], binding); }
    assert IsDefault([binding], binding) && !IsDefault([binding], other);
    UnbindIsNoBind(rules, other);
    assert authoritative[..1] == [other] && [other][..0] == [] && [binding][..0] == [];
    assert Additions([binding], [other]) == [other];
    assert Additions([binding], authoritative) == [other];
    assert Removals([binding], authoritative) == [];
    assert [binding] + Sparse([binding], authoritative) == [binding, other];
    LastBindWins(rules, other, binding);
    LastBindWins(rules, binding, other);
  }

  lemma UnbindIsNoBind(rules: Rules, binding: Keybinding)
    requires ActionOf(rules, binding).Bind?
    ensures !binding.unbind
  {
  }

  lemma LastBindWins(rules: Rules, first: Keybinding, last: Keybinding)
    requires rules.compilation == Installed && ActionOf(rules, first).Bind? && ActionOf(rules, last).Bind?
    requires SamePlace(Target(rules, first), Target(rules, last))
    ensures Compiled(rules, [first, last]) == [Target(rules, last)]
  {
    hide ActionOf, Target;
    OneBind(rules, first);
    assert [first, last][..1] == [first];
    var a, b := Target(rules, first), Target(rules, last);
    assert Clears(rules, last, a) || Binds(rules, last, a);
    assert [a][..0] == [];
    assert Remaining(rules, [a], last) == [];
  }

  lemma OneBind(rules: Rules, binding: Keybinding)
    requires ActionOf(rules, binding).Bind?
    ensures Compiled(rules, [binding]) == [Target(rules, binding)]
  {
    hide ActionOf, Target;
    assert [binding][..0] == [];
    assert Compiled(rules, []) == [];
  }
}
