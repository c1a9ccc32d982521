/**
  Which command a key runs (`runtime_command_for_keystroke` in src/ui/interaction/actions.rs): the last installed
  binding that answers. The migration keeps what is bound only if it also keeps the order of bindings that can answer
  to one key, in two contexts or in two spellings. Proved here: exactly when it does.
 */
module KeybindingsDispatch {
  import opened Wrappers
  import opened Text
  import opened Keybindings
  import opened KeybindingsMigration

  // ---- The order of a list ----

  ghost predicate Distinct(list: seq<Assignment>) {
    forall p, q :: 0 <= p < q < |list| ==> list[p] != list[q]
  }

  ghost predicate Before(list: seq<Assignment>, a: Assignment, b: Assignment) {
    exists p, q :: 0 <= p < q < |list| && list[p] == a && list[q] == b
  }

  lemma BeforeOneWay(list: seq<Assignment>, a: Assignment, b: Assignment)
    requires Distinct(list) && Before(list, a, b)
    ensures !Before(list, b, a)
  {
  }

  lemma BeforeAppend(list: seq<Assignment>, rest: seq<Assignment>, a: Assignment, b: Assignment)
    requires Before(list, a, b)
    ensures Before(list + rest, a, b)
  {
    var p, q :| 0 <= p < q < |list| && list[p] == a && list[q] == b;
    assert (list + rest)[p] == a && (list + rest)[q] == b;
  }

  lemma BeforeLast(list: seq<Assignment>, a: Assignment, b: Assignment)
    requires a in list
    ensures Before(list + [b], a, b)
  {
    var p :| 0 <= p < |list| && list[p] == a;
    assert (list + [b])[p] == a && (list + [b])[|list|] == b;
  }

  lemma BeforeInFront(list: seq<Assignment>, a: Assignment, b: Assignment)
    requires Before(list, a, b)
    ensures a in list[..|list| - 1]
    ensures list[|list| - 1] == b || Before(list[..|list| - 1], a, b)
  {
    var front := list[..|list| - 1];
    var p, q :| 0 <= p < q < |list| && list[p] == a && list[q] == b;
    assert front[p] == a;
    if q < |front| { assert front[q] == b; }
  }

  lemma DistinctAppend(list: seq<Assignment>, a: Assignment)
    requires Distinct(list) && a !in list
    ensures Distinct(list + [a])
  {
  }

  lemma DistinctFront(list: seq<Assignment>)
    requires list != [] && Distinct(list)
    ensures Distinct(list[..|list| - 1]) && list[|list| - 1] !in list[..|list| - 1]
  {
  }

  lemma {:induction false} RemainingIsDistinct(rules: Rules, list: seq<Assignment>, binding: Keybinding)
    requires Distinct(list)
    ensures Distinct(Remaining(rules, list, binding))
    decreases |list|
  {
    hide Clears, Binds, Distinct;
    if list == [] {
      NoneIsDistinct();
    } else {
      var front, last := list[..|list| - 1], list[|list| - 1];
      DistinctFront(list);
      RemainingIsDistinct(rules, front, binding);
      RemainingIs(rules, front, binding, last);
      DistinctAppend(Remaining(rules, front, binding), last);
      assert Remaining(rules, front, binding) + [] == Remaining(rules, front, binding);
    }
  }

  lemma NoneIsDistinct()
    ensures Distinct([])
  {
  }

  /** What remains keeps its order. */
  lemma {:induction false} RemainingKeepsOrder(
    rules: Rules, list: seq<Assignment>, binding: Keybinding, a: Assignment, b: Assignment)
    requires Distinct(list) && Before(list, a, b)
    requires a in Remaining(rules, list, binding) && b in Remaining(rules, list, binding)
    ensures Before(Remaining(rules, list, binding), a, b)
    decreases |list|
  {
    hide Clears, Binds, Before, Distinct;
    assert list != [] by { assert a in list by { RemainingIs(rules, list, binding, a); } }
    var front, last := list[..|list| - 1], list[|list| - 1];
    var kept := Remaining(rules, front, binding);
    RemainingIs(rules, list, binding, a);
    RemainingIs(rules, list, binding, b);
    BeforeInFront(list, a, b);
    DistinctFront(list);
    RemainingIs(rules, front, binding, a);
    if last == b {
      BeforeLast(kept, a, b);
    } else {
      assert b in front;
      RemainingIs(rules, front, binding, b);
      RemainingKeepsOrder(rules, front, binding, a, b);
      BeforeAppend(kept, if Clears(rules, binding, last) || Binds(rules, binding, last) then [] else [last], a, b);
    }
  }

  /** An entry leaves the order of what it does not bind. */
  lemma EnterKeepsOrder(rules: Rules, list: seq<Assignment>, binding: Keybinding, a: Assignment, b: Assignment)
    requires Distinct(list) && Before(list, a, b) && !Binds(rules, binding, a) && !Binds(rules, binding, b)
    requires a in Enter(rules, list, binding) && b in Enter(rules, list, binding)
    ensures Before(Enter(rules, list, binding), a, b)
  {
    hide Clears, Remaining, Binds, Before, Distinct, ActionOf, Target;
    EnterIs(rules, list, binding, a);
    EnterIs(rules, list, binding, b);
    RemainingIs(rules, list, binding, a);
    RemainingIs(rules, list, binding, b);
    RemainingKeepsOrder(rules, list, binding, a, b);
    BeforeAppend(
      Remaining(rules, list, binding), if ActionOf(rules, binding).Bind? then [Target(rules, binding)] else [], a, b);
  }

  /** What an entry binds stands last. */
  lemma EnterPutsLast(rules: Rules, list: seq<Assignment>, binding: Keybinding, a: Assignment, b: Assignment)
    requires Binds(rules, binding, b) && a != b && a in Enter(rules, list, binding)
    ensures Before(Enter(rules, list, binding), a, b)
  {
    hide Clears, Remaining, Before, ActionOf, Target;
    EnterIs(rules, list, binding, a);
    RemainingIs(rules, list, binding, a);
    BeforeLast(Remaining(rules, list, binding), a, b);
  }

  lemma EnterIsDistinct(rules: Rules, list: seq<Assignment>, binding: Keybinding)
    requires Distinct(list)
    ensures Distinct(Enter(rules, list, binding))
  {
    hide Clears, Remaining, Distinct, ActionOf, Target;
    var target := Target(rules, binding);
    RemainingIsDistinct(rules, list, binding);
    RemainingIs(rules, list, binding, target);
    if ActionOf(rules, binding).Bind? {
      DistinctAppend(Remaining(rules, list, binding), target);
    } else {
      assert Remaining(rules, list, binding) + [] == Remaining(rules, list, binding);
    }
  }

  // ---- Compiling, with entries left out ----

  /** Compiles the first `n` entries, of those that are taken, on top of a list. */
  ghost function Upto(
      rules: Rules, start: seq<Assignment>, bindings: seq<Keybinding>, taken: nat -> bool, n: nat): seq<Assignment>
    requires n <= |bindings|
  {
    if n == 0 then start
    else
      var before := Upto(rules, start, bindings, taken, n - 1);
      if taken(n - 1) then Enter(rules, before, bindings[n - 1]) else before
  }

  /** An entry binds `b` after the last one that binds `a`. */
  ghost predicate BoundLater(rules: Rules, bindings: seq<Keybinding>, taken: nat -> bool, n: nat, a: Assignment,
      b: Assignment)
    requires n <= |bindings|
  {
    exists k: nat :: k < n && taken(k) && Binds(rules, bindings[k], b)
      && forall m: nat :: k <= m < n && taken(m) ==> !Binds(rules, bindings[m], a)
  }

  ghost predicate NeverBound(rules: Rules, bindings: seq<Keybinding>, taken: nat -> bool, n: nat, a: Assignment)
    requires n <= |bindings|
  {
    forall k: nat :: k < n && taken(k) ==> !Binds(rules, bindings[k], a)
  }

  lemma {:induction false} UptoIsDistinct(rules: Rules, start: seq<Assignment>, bindings: seq<Keybinding>,
      taken: nat -> bool, n: nat)
    requires n <= |bindings| && Distinct(start)
    ensures Distinct(Upto(rules, start, bindings, taken, n))
  {
    hide Enter, Distinct;
    if n > 0 {
      UptoIsDistinct(rules, start, bindings, taken, n - 1);
      if taken(n - 1) { EnterIsDistinct(rules, Upto(rules, start, bindings, taken, n - 1), bindings[n - 1]); }
    }
  }

  lemma BoundEarlier(rules: Rules, bindings: seq<Keybinding>, taken: nat -> bool, n: nat, a: Assignment, b: Assignment)
    requires 0 < n <= |bindings| && a != b && BoundLater(rules, bindings, taken, n, a, b)
    ensures taken(n - 1) ==> !Binds(rules, bindings[n - 1], a)
    ensures (taken(n - 1) && Binds(rules, bindings[n - 1], b)) || BoundLater(rules, bindings, taken, n - 1, a, b)
  {
    hide ActionOf, Target;
    var k: nat :| k < n && taken(k) && Binds(rules, bindings[k], b)
      && forall m: nat :: k <= m < n && taken(m) ==> !Binds(rules, bindings[m], a);
  }

  /** What is bound later stands later. */
  lemma {:induction false} UptoOrder(
    rules: Rules, start: seq<Assignment>, bindings: seq<Keybinding>, taken: nat -> bool, n: nat,
    a: Assignment, b: Assignment)
    requires n <= |bindings| && Distinct(start) && a != b && BoundLater(rules, bindings, taken, n, a, b)
    requires a in Upto(rules, start, bindings, taken, n) && b in Upto(rules, start, bindings, taken, n)
    ensures Before(Upto(rules, start, bindings, taken, n), a, b)
    decreases n
  {
    hide Enter, Binds, Before, Distinct, BoundLater;
    SomeBound(rules, bindings, taken, n, a, b);
    BoundEarlier(rules, bindings, taken, n, a, b);
    var before := Upto(rules, start, bindings, taken, n - 1);
    if taken(n - 1) {
      var last := bindings[n - 1];
      if Binds(rules, last, b) {
        EnterPutsLast(rules, before, last, a, b);
      } else {
        EnterIs(rules, before, last, a);
        EnterIs(rules, before, last, b);
        UptoOrder(rules, start, bindings, taken, n - 1, a, b);
        UptoIsDistinct(rules, start, bindings, taken, n - 1);
        EnterKeepsOrder(rules, before, last, a, b);
      }
    } else {
      UptoOrder(rules, start, bindings, taken, n - 1, a, b);
    }
  }

  lemma SomeBound(rules: Rules, bindings: seq<Keybinding>, taken: nat -> bool, n: nat, a: Assignment, b: Assignment)
    requires n <= |bindings| && BoundLater(rules, bindings, taken, n, a, b)
    ensures n > 0
  {
  }

  lemma BoundNeither(rules: Rules, bindings: seq<Keybinding>, taken: nat -> bool, n: nat, a: Assignment)
    requires 0 < n <= |bindings| && NeverBound(rules, bindings, taken, n, a)
    ensures NeverBound(rules, bindings, taken, n - 1, a) && (taken(n - 1) ==> !Binds(rules, bindings[n - 1], a))
  {
  }

  /** What is not bound again stands as at the start. */
  lemma {:induction false} UptoKeepsOrder(
    rules: Rules, start: seq<Assignment>, bindings: seq<Keybinding>, taken: nat -> bool, n: nat,
    a: Assignment, b: Assignment)
    requires n <= |bindings| && Distinct(start) && Before(start, a, b)
    requires NeverBound(rules, bindings, taken, n, a) && NeverBound(rules, bindings, taken, n, b)
    requires a in Upto(rules, start, bindings, taken, n) && b in Upto(rules, start, bindings, taken, n)
    ensures Before(Upto(rules, start, bindings, taken, n), a, b)
    decreases n
  {
    hide Enter, Binds, Before, Distinct, Clears;
    if n > 0 {
      var before := Upto(rules, start, bindings, taken, n - 1);
      BoundNeither(rules, bindings, taken, n, a);
      BoundNeither(rules, bindings, taken, n, b);
      hide NeverBound;
      if taken(n - 1) {
        EnterIs(rules, before, bindings[n - 1], a);
        EnterIs(rules, before, bindings[n - 1], b);
        UptoKeepsOrder(rules, start, bindings, taken, n - 1, a, b);
        UptoIsDistinct(rules, start, bindings, taken, n - 1);
        EnterKeepsOrder(rules, before, bindings[n - 1], a, b);
      } else {
        UptoKeepsOrder(rules, start, bindings, taken, n - 1, a, b);
      }
    }
  }

  const ALL: nat -> bool := _ => true

  lemma {:induction false} CompiledIsUpto(rules: Rules, bindings: seq<Keybinding>, n: nat)
    requires n <= |bindings|
    ensures Compiled(rules, bindings[..n]) == Upto(rules, [], bindings, ALL, n)
  {
    hide Enter;
    if n > 0 {
      CompiledIsUpto(rules, bindings, n - 1);
      assert bindings[..n][..n - 1] == bindings[..n - 1];
    }
  }

  ghost function Added(defaults: seq<Keybinding>, authoritative: seq<Keybinding>): nat -> bool {
    (k: nat) => k < |authoritative| && Adds(defaults, authoritative, k)
  }

  /** The migrated list compiles as the authoritative one on top of the defaults, less the entries that repeat them. */
  lemma {:induction false} MigratedIsUpto(
    rules: Rules, first: seq<Keybinding>, defaults: seq<Keybinding>, authoritative: seq<Keybinding>, n: nat)
    requires n <= |authoritative|
    ensures Compiled(rules, first + Additions(defaults, authoritative[..n]))
            == Upto(rules, Compiled(rules, first), authoritative, Added(defaults, authoritative), n)
    decreases n
  {
    hide Enter, IsDefault;
    if n == 0 {
      assert first + Additions(defaults, authoritative[..0]) == first;
    } else {
      MigratedIsUpto(rules, first, defaults, authoritative, n - 1);
      assert authoritative[..n][..n - 1] == authoritative[..n - 1];
      var before := first + Additions(defaults, authoritative[..n - 1]);
      if Adds(defaults, authoritative, n - 1) {
        var all := first + Additions(defaults, authoritative[..n]);
        assert all == before + [authoritative[n - 1]];
        assert all[..|all| - 1] == before;
      } else {
        assert first + Additions(defaults, authoritative[..n]) == before;
      }
    }
  }

  function Migrated(defaults: seq<Keybinding>, authoritative: seq<Keybinding>): seq<Keybinding> {
    defaults + Sparse(defaults, authoritative)
  }

  /** What the migrated list starts from: the defaults that are not removed. */
  ghost function Start(rules: Rules, defaults: seq<Keybinding>, authoritative: seq<Keybinding>): seq<Assignment> {
    Compiled(rules, defaults + Removals(defaults, authoritative))
  }

  lemma MigratedCompiles(rules: Rules, defaults: seq<Keybinding>, authoritative: seq<Keybinding>)
    ensures Compiled(rules, Migrated(defaults, authoritative))
            == Upto(rules, Start(rules, defaults, authoritative), authoritative, Added(defaults, authoritative),
              |authoritative|)
  {
    hide Compiled, Upto, Removals, Additions;
    var first := defaults + Removals(defaults, authoritative);
    MigratedIsUpto(rules, first, defaults, authoritative, |authoritative|);
    assert authoritative[..|authoritative|] == authoritative;
    assert Migrated(defaults, authoritative) == first + Additions(defaults, authoritative);
  }

  lemma CompiledIsDistinct(rules: Rules, bindings: seq<Keybinding>)
    ensures Distinct(Compiled(rules, bindings))
  {
    hide Compiled, Upto;
    CompiledIsUpto(rules, bindings, |bindings|);
    assert bindings[..|bindings|] == bindings;
    UptoIsDistinct(rules, [], bindings, ALL, |bindings|);
  }

  /** In one list, what an entry binds last stands last. */
  lemma CompiledOrder(rules: Rules, bindings: seq<Keybinding>, a: Assignment, b: Assignment)
    requires a != b && BoundLater(rules, bindings, ALL, |bindings|, a, b)
    requires a in Compiled(rules, bindings) && b in Compiled(rules, bindings)
    ensures Before(Compiled(rules, bindings), a, b)
  {
    hide Compiled, Upto, BoundLater, Before;
    CompiledIsUpto(rules, bindings, |bindings|);
    assert bindings[..|bindings|] == bindings;
    UptoOrder(rules, [], bindings, ALL, |bindings|, a, b);
  }

  // ---- What runs ----

  /** The last assignment that answers. */
  ghost predicate Wins(list: seq<Assignment>, answers: Place -> bool, a: Assignment) {
    && a in list && answers(PlaceOf(a))
    && forall b :: b in list && b != a && answers(PlaceOf(b)) ==> Before(list, b, a)
  }

  lemma {:induction false} Winner(list: seq<Assignment>, answers: Place -> bool) returns (a: Assignment)
    requires exists b :: b in list && answers(PlaceOf(b))
    ensures Wins(list, answers, a) && Runs(list, answers) == Some(a.command)
    decreases |list|
  {
    var front, last := list[..|list| - 1], list[|list| - 1];
    if answers(PlaceOf(last)) {
      a := last;
      forall b | b in list && b != a && answers(PlaceOf(b)) ensures Before(list, b, a) {
        var p :| 0 <= p < |list| && list[p] == b;
        assert list[|list| - 1] == a;
      }
    } else {
      assert forall b :: b in list <==> b in front || b == last;
      a := Winner(front, answers);
      forall b | b in list && b != a && answers(PlaceOf(b)) ensures Before(list, b, a) {
        assert Before(front, b, a);
        var p, q :| 0 <= p < q < |front| && front[p] == b && front[q] == a;
        assert list[p] == b && list[q] == a;
      }
    }
  }

  lemma WinnerRuns(list: seq<Assignment>, answers: Place -> bool, a: Assignment)
    requires Distinct(list) && Wins(list, answers, a)
    ensures Runs(list, answers) == Some(a.command)
  {
    var b := Winner(list, answers);
    if a != b { BeforeOneWay(list, a, b); }
  }

  lemma {:induction false} NobodyRuns(list: seq<Assignment>, answers: Place -> bool)
    requires forall b :: b in list ==> !answers(PlaceOf(b))
    ensures Runs(list, answers) == None
    decreases |list|
  {
    if list != [] {
      assert list[|list| - 1] in list;
      assert forall b :: b in list[..|list| - 1] ==> b in list;
      NobodyRuns(list[..|list| - 1], answers);
    }
  }

  /** Whatever key is pressed, in whatever contexts, the same command runs. */
  ghost predicate RunsAlike(
    matches: (string, string) -> bool, rules: Rules, defaults: seq<Keybinding>, authoritative: seq<Keybinding>)
  {
    forall active: Option<string> -> bool, stroke: string ::
      Runs(Compiled(rules, Migrated(defaults, authoritative)), Pressing(matches, active, stroke))
      == Runs(Compiled(rules, authoritative), Pressing(matches, active, stroke))
  }

  /** The entry binds its target for good. */
  ghost predicate Lasts(rules: Rules, bindings: seq<Keybinding>, k: nat) {
    && k < |bindings| && ActionOf(rules, bindings[k]).Bind?
    && var a := Target(rules, bindings[k]);
       forall m :: k < m < |bindings| ==> !Clears(rules, bindings[m], a) && !Binds(rules, bindings[m], a)
  }

  /** After the migration `b` stands behind `a`: it is added later, or both are defaults and it is the later one. */
  ghost predicate PutBehind(
    rules: Rules, defaults: seq<Keybinding>, authoritative: seq<Keybinding>, a: Assignment, b: Assignment)
  {
    var added, n := Added(defaults, authoritative), |authoritative|;
    || BoundLater(rules, authoritative, added, n, a, b)
    || (NeverBound(rules, authoritative, added, n, a) && NeverBound(rules, authoritative, added, n, b)
        && BoundLater(rules, defaults, ALL, |defaults|, a, b))
  }

  /** An entry that binds for good keys that the keystroke matches, in an active context. */
  ghost predicate Rival(
    matches: (string, string) -> bool, rules: Rules, bindings: seq<Keybinding>, k: nat,
    active: Option<string> -> bool, stroke: string)
  {
    Lasts(rules, bindings, k) && Pressing(matches, active, stroke)(PlaceOf(Target(rules, bindings[k])))
  }

  function Either(first: Option<string>, second: Option<string>): Option<string> -> bool {
    context => context == first || context == second
  }

  /**
    Two entries that one keystroke matches change places. Of all that answer to it in the active contexts, `j` is
    the last one and has another command than `i`; after the migration `i` stands behind all of them. So it is
    with an addition before an entry that repeats a default, and with defaults that are listed in another order.
   */
  ghost predicate OvertakesIn(
    matches: (string, string) -> bool, rules: Rules, defaults: seq<Keybinding>, authoritative: seq<Keybinding>,
    active: Option<string> -> bool, stroke: string, i: nat, j: nat)
  {
    && i < j
    && Rival(matches, rules, authoritative, i, active, stroke)
    && Rival(matches, rules, authoritative, j, active, stroke)
    && var a, b := Target(rules, authoritative[i]), Target(rules, authoritative[j]);
    && a.command != b.command
    && forall k: nat :: Rival(matches, rules, authoritative, k, active, stroke) ==>
         k <= j && (k != i ==> PutBehind(rules, defaults, authoritative, Target(rules, authoritative[k]), a))
  }

  /** They do in their own two contexts. */
  ghost predicate Overtakes(
    matches: (string, string) -> bool, rules: Rules, defaults: seq<Keybinding>, authoritative: seq<Keybinding>,
    stroke: string, i: nat, j: nat)
  {
    && Lasts(rules, authoritative, i) && Lasts(rules, authoritative, j)
    && var active := Either(Target(rules, authoritative[i]).context, Target(rules, authoritative[j]).context);
       OvertakesIn(matches, rules, defaults, authoritative, active, stroke, i, j)
  }

  // ---- Exactly when the migration keeps what runs ----

  lemma PutBehindOrder(rules: Rules, defaults: seq<Keybinding>, authoritative: seq<Keybinding>, a: Assignment,
      b: Assignment)
    requires WellMade(rules, defaults) && a != b && PutBehind(rules, defaults, authoritative, a, b)
    requires a in Compiled(rules, Migrated(defaults, authoritative))
        && b in Compiled(rules, Migrated(defaults, authoritative))
    ensures Before(Compiled(rules, Migrated(defaults, authoritative)), a, b)
  {
    hide Compiled, Upto, BoundLater, NeverBound, Before, WellMade, Distinct, Removals;
    var start := Start(rules, defaults, authoritative);
    var added, n := Added(defaults, authoritative), |authoritative|;
    MigratedCompiles(rules, defaults, authoritative);
    CompiledIsDistinct(rules, defaults + Removals(defaults, authoritative));
    if BoundLater(rules, authoritative, added, n, a, b) {
      UptoOrder(rules, start, authoritative, added, n, a, b);
    } else {
      UnboundIsFromStart(rules, start, authoritative, added, n, a);
      UnboundIsFromStart(rules, start, authoritative, added, n, b);
      StartOrder(rules, defaults, authoritative, a, b);
      UptoKeepsOrder(rules, start, authoritative, added, n, a, b);
    }
  }

  lemma {:induction false} UnboundIsFromStart(
    rules: Rules, start: seq<Assignment>, bindings: seq<Keybinding>, taken: nat -> bool, n: nat, a: Assignment)
    requires n <= |bindings| && NeverBound(rules, bindings, taken, n, a) && a in Upto(rules, start, bindings, taken, n)
    ensures a in start
    decreases n
  {
    hide Enter, Binds, Clears;
    if n > 0 {
      BoundNeither(rules, bindings, taken, n, a);
      hide NeverBound;
      if taken(n - 1) {
        EnterIs(rules, Upto(rules, start, bindings, taken, n - 1), bindings[n - 1], a);
      }
      UnboundIsFromStart(rules, start, bindings, taken, n - 1, a);
    }
  }

  lemma {:induction false} RemovalsOnlyUnbind(rules: Rules, defaults: seq<Keybinding>,
      authoritative: seq<Keybinding>, k: nat)
    requires k < |Removals(defaults, authoritative)|
    ensures Removals(defaults, authoritative)[k].unbind
    decreases |defaults|
  {
    hide Keeps;
    var front := defaults[..|defaults| - 1];
    if k < |Removals(front, authoritative)| { RemovalsOnlyUnbind(rules, front, authoritative, k); }
  }

  lemma StartOrder(rules: Rules, defaults: seq<Keybinding>, authoritative: seq<Keybinding>, a: Assignment,
      b: Assignment)
    requires a != b && BoundLater(rules, defaults, ALL, |defaults|, a, b)
    requires a in Start(rules, defaults, authoritative) && b in Start(rules, defaults, authoritative)
    ensures Before(Start(rules, defaults, authoritative), a, b)
  {
    hide Compiled, Removals, Before, Binds;
    var all := defaults + Removals(defaults, authoritative);
    var k: nat :| k < |defaults| && Binds(rules, defaults[k], b)
      && forall m: nat :: k <= m < |defaults| ==> !Binds(rules, defaults[m], a);
    forall m: nat | k <= m < |all| ensures !Binds(rules, all[m], a) {
      if m >= |defaults| {
        RemovalsOnlyUnbind(rules, defaults, authoritative, m - |defaults|);
        UnbindDoesNotBind(rules, all[m], a);
      }
    }
    assert Binds(rules, all[k], b);
    CompiledOrder(rules, all, a, b);
  }

  lemma UnbindDoesNotBind(rules: Rules, binding: Keybinding, a: Assignment)
    requires binding.unbind
    ensures !Binds(rules, binding, a)
  {
    hide Resolved, NormalizeContext, Trim, ValidPlace;
  }

  lemma {:induction false} LastBound(rules: Rules, bindings: seq<Keybinding>, taken: nat -> bool, n: nat,
      a: Assignment) returns (k: nat)
    requires n <= |bindings| && !NeverBound(rules, bindings, taken, n, a)
    ensures k < n && taken(k) && Binds(rules, bindings[k], a)
    ensures forall m: nat :: k < m < n && taken(m) ==> !Binds(rules, bindings[m], a)
    decreases n
  {
    hide Binds;
    if taken(n - 1) && Binds(rules, bindings[n - 1], a) {
      k := n - 1;
    } else {
      k := LastBound(rules, bindings, taken, n - 1, a);
    }
  }

  lemma BindsOne(rules: Rules, binding: Keybinding, a: Assignment, b: Assignment)
    requires Binds(rules, binding, a) && a != b
    ensures !Binds(rules, binding, b)
  {
  }

  /** Of two bindings, if any entry binds one, one of the two is bound later. */
  lemma OneIsLater(rules: Rules, bindings: seq<Keybinding>, taken: nat -> bool, n: nat, a: Assignment, b: Assignment)
    requires n <= |bindings| && a != b
    requires !NeverBound(rules, bindings, taken, n, a) || !NeverBound(rules, bindings, taken, n, b)
    ensures BoundLater(rules, bindings, taken, n, a, b) || BoundLater(rules, bindings, taken, n, b, a)
  {
    hide Binds;
    if NeverBound(rules, bindings, taken, n, a) {
      var k := LastBound(rules, bindings, taken, n, b);
      assert BoundLater(rules, bindings, taken, n, a, b);
    } else if NeverBound(rules, bindings, taken, n, b) {
      var k := LastBound(rules, bindings, taken, n, a);
      assert BoundLater(rules, bindings, taken, n, b, a);
    } else {
      var i := LastBound(rules, bindings, taken, n, a);
      var j := LastBound(rules, bindings, taken, n, b);
      BindsOne(rules, bindings[j], b, a);
      BindsOne(rules, bindings[i], a, b);
      if i < j {
        assert BoundLater(rules, bindings, taken, n, a, b);
      } else {
        assert BoundLater(rules, bindings, taken, n, b, a);
      }
    }
  }

  /** What is in effect was bound for good by some entry. */
  lemma InEffectLasts(rules: Rules, bindings: seq<Keybinding>, a: Assignment) returns (k: nat)
    requires a in Compiled(rules, bindings)
    ensures Lasts(rules, bindings, k) && Target(rules, bindings[k]) == a
  {
    hide ActionOf, Target, Compiled, After, Clears;
    AssignedIsAfter(rules, bindings, a);
    var effects := Effects(rules, bindings, a);
    if forall i :: 0 <= i < |effects| ==> effects[i] == Skips { NoEffect(false, effects); }
    k := LastEffect(false, effects);
    assert effects[k] == EffectOn(rules, bindings[k], a) == Sets;
    forall m | k < m < |bindings| ensures !Clears(rules, bindings[m], a) && !Binds(rules, bindings[m], a) {
      assert effects[m] == EffectOn(rules, bindings[m], a) == Skips;
    }
  }

  lemma LastsIsInEffect(rules: Rules, bindings: seq<Keybinding>, k: nat)
    requires Lasts(rules, bindings, k)
    ensures Target(rules, bindings[k]) in Compiled(rules, bindings)
  {
    hide ActionOf, Target, Compiled, After, Clears;
    var a := Target(rules, bindings[k]);
    AssignedIsAfter(rules, bindings, a);
    var effects := Effects(rules, bindings, a);
    assert effects[k] == Sets;
    forall m | k < m < |effects| ensures effects[m] == Skips {
      assert effects[m] == EffectOn(rules, bindings[m], a);
    }
    LastEffectDecides(false, effects, k);
  }

  /** Of two entries that bind for good, the later one stands later. */
  lemma LastingOrder(rules: Rules, bindings: seq<Keybinding>, i: nat, j: nat)
    requires i < j && Lasts(rules, bindings, i) && Lasts(rules, bindings, j)
    ensures Target(rules, bindings[i]) != Target(rules, bindings[j])
    ensures Before(Compiled(rules, bindings), Target(rules, bindings[i]), Target(rules, bindings[j]))
  {
    hide ActionOf, Target, Compiled, Clears, Before;
    var a, b := Target(rules, bindings[i]), Target(rules, bindings[j]);
    assert Binds(rules, bindings[j], b) && !Binds(rules, bindings[j], a);
    assert BoundLater(rules, bindings, ALL, |bindings|, a, b);
    LastsIsInEffect(rules, bindings, i);
    LastsIsInEffect(rules, bindings, j);
    CompiledOrder(rules, bindings, a, b);
  }

  /** What the migrated list keeps is added by it or comes from the defaults. */
  lemma MigratedOrder(rules: Rules, defaults: seq<Keybinding>, authoritative: seq<Keybinding>, a: Assignment,
      b: Assignment)
    requires WellMade(rules, defaults) && a != b
    requires a in Compiled(rules, Migrated(defaults, authoritative))
        && b in Compiled(rules, Migrated(defaults, authoritative))
    ensures PutBehind(rules, defaults, authoritative, a, b) || PutBehind(rules, defaults, authoritative, b, a)
  {
    hide Compiled, Upto, Before, WellMade, Removals, BoundLater, Binds, NeverBound;
    var start := Start(rules, defaults, authoritative);
    var added, n := Added(defaults, authoritative), |authoritative|;
    if NeverBound(rules, authoritative, added, n, a) && NeverBound(rules, authoritative, added, n, b) {
      MigratedCompiles(rules, defaults, authoritative);
      UnboundIsFromStart(rules, start, authoritative, added, n, a);
      UnboundIsFromStart(rules, start, authoritative, added, n, b);
      StartIsDefault(rules, defaults, authoritative, a);
      OneIsLater(rules, defaults, ALL, |defaults|, a, b);
    } else {
      OneIsLater(rules, authoritative, added, n, a, b);
    }
  }

  lemma StartIsDefault(rules: Rules, defaults: seq<Keybinding>, authoritative: seq<Keybinding>, a: Assignment)
    requires a in Start(rules, defaults, authoritative)
    ensures !NeverBound(rules, defaults, ALL, |defaults|, a)
  {
    hide ActionOf, Target, Compiled, Clears, Removals;
    var all := defaults + Removals(defaults, authoritative);
    var k := InEffectLasts(rules, all, a);
    if k >= |defaults| {
      RemovalsOnlyUnbind(rules, defaults, authoritative, k - |defaults|);
      UnbindDoesNotBind(rules, all[k], a);
    }
    assert Binds(rules, defaults[k], a);
  }

  /** When the same bindings are in effect, a key that runs another command has an overtaken one. */
  lemma DifferenceIsOvertaking(
    matches: (string, string) -> bool, rules: Rules, defaults: seq<Keybinding>, authoritative: seq<Keybinding>,
    active: Option<string> -> bool, stroke: string)
    returns (i: nat, j: nat)
    requires WellMade(rules, defaults) && Preserved(rules, defaults, authoritative)
    requires Runs(Compiled(rules, Migrated(defaults, authoritative)), Pressing(matches, active, stroke))
             != Runs(Compiled(rules, authoritative), Pressing(matches, active, stroke))
    ensures OvertakesIn(matches, rules, defaults, authoritative, active, stroke, i, j)
  {
    hide Compiled, WellMade, Before, PutBehind, Lasts, Runs, Target, Distinct, Preserved;
    var direct, migrated := Compiled(rules, authoritative), Compiled(rules, Migrated(defaults, authoritative));
    var answers := Pressing(matches, active, stroke);
    SameMembers(rules, defaults, authoritative);
    if forall c :: c in direct ==> !answers(PlaceOf(c)) {
      NobodyRuns(direct, answers);
      NobodyRuns(migrated, answers);
    }
    var b := Winner(direct, answers);
    var a := Winner(migrated, answers);
    assert a != b && a in direct && b in direct;
    i := InEffectLasts(rules, authoritative, a);
    j := InEffectLasts(rules, authoritative, b);
    InListRange(rules, authoritative, i);
    InListRange(rules, authoritative, j);
    BeforeMeansEarlier(rules, authoritative, i, j);
    forall k: nat | Rival(matches, rules, authoritative, k, active, stroke)
      ensures k <= j && (k != i ==> PutBehind(rules, defaults, authoritative, Target(rules, authoritative[k]), a))
    {
      RivalStands(matches, rules, defaults, authoritative, active, stroke, i, j, k);
    }
  }

  /** Two entries that change places do so in their own two contexts. */
  lemma OvertakesAnyway(
    matches: (string, string) -> bool, rules: Rules, defaults: seq<Keybinding>, authoritative: seq<Keybinding>,
    active: Option<string> -> bool, stroke: string, i: nat, j: nat)
    requires OvertakesIn(matches, rules, defaults, authoritative, active, stroke, i, j)
    ensures Overtakes(matches, rules, defaults, authoritative, stroke, i, j)
  {
    hide Lasts, PutBehind, Target;
    InListRange(rules, authoritative, i);
    InListRange(rules, authoritative, j);
    var own := Either(Target(rules, authoritative[i]).context, Target(rules, authoritative[j]).context);
    forall k: nat | Rival(matches, rules, authoritative, k, own, stroke)
      ensures Rival(matches, rules, authoritative, k, active, stroke)
    {
      InListRange(rules, authoritative, k);
    }
  }

  lemma BeforeMeansEarlier(rules: Rules, bindings: seq<Keybinding>, i: nat, j: nat)
    requires Lasts(rules, bindings, i) && Lasts(rules, bindings, j)
    requires Before(Compiled(rules, bindings), Target(rules, bindings[i]), Target(rules, bindings[j]))
    ensures i < j
  {
    hide Compiled, Before, Distinct, Target;
    CompiledIsDistinct(rules, bindings);
    BeforeOneWay(Compiled(rules, bindings), Target(rules, bindings[i]), Target(rules, bindings[j]));
    if j < i { LastingOrder(rules, bindings, j, i); }
  }

  lemma BeforeMeansBehind(rules: Rules, defaults: seq<Keybinding>, authoritative: seq<Keybinding>, a: Assignment,
      b: Assignment)
    requires WellMade(rules, defaults) && Before(Compiled(rules, Migrated(defaults, authoritative)), a, b)
    ensures PutBehind(rules, defaults, authoritative, a, b)
  {
    hide Compiled, Before, Distinct, PutBehind, WellMade;
    var migrated := Compiled(rules, Migrated(defaults, authoritative));
    CompiledIsDistinct(rules, Migrated(defaults, authoritative));
    BeforeOneWay(migrated, a, b);
    BeforeIsIn(migrated, a, b);
    MigratedOrder(rules, defaults, authoritative, a, b);
    if PutBehind(rules, defaults, authoritative, b, a) { PutBehindOrder(rules, defaults, authoritative, b, a); }
  }

  lemma RivalStands(
    matches: (string, string) -> bool, rules: Rules, defaults: seq<Keybinding>, authoritative: seq<Keybinding>,
    active: Option<string> -> bool, stroke: string, i: nat, j: nat, k: nat)
    requires WellMade(rules, defaults) && Lasts(rules, authoritative, i) && Lasts(rules, authoritative, j)
    requires forall a ::
        a in Compiled(rules, Migrated(defaults, authoritative)) <==> a in Compiled(rules, authoritative)
    requires var a, b := Target(rules, authoritative[i]), Target(rules, authoritative[j]);
             && Wins(Compiled(rules, Migrated(defaults, authoritative)), Pressing(matches, active, stroke), a)
             && Wins(Compiled(rules, authoritative), Pressing(matches, active, stroke), b)
             && Rival(matches, rules, authoritative, k, active, stroke)
    ensures k <= j
    ensures k != i ==>
              PutBehind(rules, defaults, authoritative, Target(rules, authoritative[k]),
                Target(rules, authoritative[i]))
  {
    hide Compiled, Before, Distinct, PutBehind, WellMade, Target, Lasts;
    InListRange(rules, authoritative, i);
    InListRange(rules, authoritative, j);
    InListRange(rules, authoritative, k);
    var a, b, c := Target(rules, authoritative[i]), Target(rules, authoritative[j]), Target(rules, authoritative[k]);
    LastsIsInEffect(rules, authoritative, k);
    assert Pressing(matches, active, stroke)(PlaceOf(c));
    if k > j {
      LastingOrder(rules, authoritative, j, k);
      BeforeMeansEarlier(rules, authoritative, k, j);
    }
    if k != i {
      LastsTells(rules, authoritative, i, k);
      BeforeMeansBehind(rules, defaults, authoritative, c, a);
    }
  }

  lemma LastsTells(rules: Rules, bindings: seq<Keybinding>, i: nat, k: nat)
    requires Lasts(rules, bindings, i) && Lasts(rules, bindings, k) && i != k
    ensures Target(rules, bindings[i]) != Target(rules, bindings[k])
  {
    hide Compiled, Before, Target;
    if i < k { LastingOrder(rules, bindings, i, k); } else { LastingOrder(rules, bindings, k, i); }
  }

  lemma SameMembers(rules: Rules, defaults: seq<Keybinding>, authoritative: seq<Keybinding>)
    requires Preserved(rules, defaults, authoritative)
    ensures forall a :: a in Compiled(rules, Migrated(defaults, authoritative)) <==> a in Compiled(rules, authoritative)
  {
    hide Compiled;
    forall a ensures a in Compiled(rules, Migrated(defaults, authoritative)) <==> a in Compiled(rules, authoritative) {
      assert a in Assigned(rules, Migrated(defaults, authoritative)) <==> a in Assigned(rules, authoritative);
    }
  }

  lemma BeforeIsIn(list: seq<Assignment>, a: Assignment, b: Assignment)
    requires Before(list, a, b)
    ensures a in list && b in list
  {
  }

  lemma InListRange(rules: Rules, bindings: seq<Keybinding>, k: nat)
    requires Lasts(rules, bindings, k)
    ensures k < |bindings|
  {
  }

  lemma OvertakingRunsAnother(
    matches: (string, string) -> bool, rules: Rules, defaults: seq<Keybinding>, authoritative: seq<Keybinding>,
    active: Option<string> -> bool, stroke: string, i: nat, j: nat)
    requires WellMade(rules, defaults) && Preserved(rules, defaults, authoritative)
    requires OvertakesIn(matches, rules, defaults, authoritative, active, stroke, i, j)
    ensures Runs(Compiled(rules, Migrated(defaults, authoritative)), Pressing(matches, active, stroke))
         != Runs(Compiled(rules, authoritative), Pressing(matches, active, stroke))
  {
    hide Compiled, Distinct, Runs, Before, PutBehind, WellMade, Lasts, Target, Preserved;
    var direct, migrated := Compiled(rules, authoritative), Compiled(rules, Migrated(defaults, authoritative));
    InListRange(rules, authoritative, i);
    InListRange(rules, authoritative, j);
    var a, b := Target(rules, authoritative[i]), Target(rules, authoritative[j]);
    SameMembers(rules, defaults, authoritative);
    LastsIsInEffect(rules, authoritative, i);
    LastsIsInEffect(rules, authoritative, j);
    CompiledIsDistinct(rules, authoritative);
    CompiledIsDistinct(rules, Migrated(defaults, authoritative));
    forall c | c in direct && Pressing(matches, active, stroke)(PlaceOf(c))
      ensures c != b ==> Before(direct, c, b)
      ensures c != a ==> Before(migrated, c, a)
    {
      var k := InEffectLasts(rules, authoritative, c);
      InListRange(rules, authoritative, k);
      assert Rival(matches, rules, authoritative, k, active, stroke);
      if c != b { LastingOrder(rules, authoritative, k, j); }
      if c != a { PutBehindOrder(rules, defaults, authoritative, c, a); }
    }
    assert Wins(direct, Pressing(matches, active, stroke), b);
    assert Wins(migrated, Pressing(matches, active, stroke), a);
    WinnerRuns(direct, Pressing(matches, active, stroke), b);
    WinnerRuns(migrated, Pressing(matches, active, stroke), a);
  }

  /** In given active contexts a key runs what it ran before if and only if no two entries that answer change places. */
  lemma KeyRunsAlikeExactly(
    matches: (string, string) -> bool, rules: Rules, defaults: seq<Keybinding>, authoritative: seq<Keybinding>,
    active: Option<string> -> bool, stroke: string)
    requires WellMade(rules, defaults) && Preserved(rules, defaults, authoritative)
    ensures Runs(Compiled(rules, Migrated(defaults, authoritative)), Pressing(matches, active, stroke))
         == Runs(Compiled(rules, authoritative), Pressing(matches, active, stroke))
        <==> forall i, j :: !OvertakesIn(matches, rules, defaults, authoritative, active, stroke, i, j)
  {
    hide WellMade, Preserved, OvertakesIn, Compiled, Runs;
    if Runs(Compiled(rules, Migrated(defaults, authoritative)), Pressing(matches, active, stroke))
       == Runs(Compiled(rules, authoritative), Pressing(matches, active, stroke))
    {
      forall i, j ensures !OvertakesIn(matches, rules, defaults, authoritative, active, stroke, i, j) {
        if OvertakesIn(matches, rules, defaults, authoritative, active, stroke, i, j) {
          OvertakingRunsAnother(matches, rules, defaults, authoritative, active, stroke, i, j);
          assert false;
        }
      }
    } else {
      var i, j := DifferenceIsOvertaking(matches, rules, defaults, authoritative, active, stroke);
    }
  }

  /** So with the contexts in which `runtime_command_for_keystroke` looks. */
  lemma RuntimeCommandIsKeptExactly(
    matches: (string, string) -> bool, rules: Rules, defaults: seq<Keybinding>, authoritative: seq<Keybinding>,
    stroke: string)
    requires WellMade(rules, defaults) && Preserved(rules, defaults, authoritative)
    ensures RuntimeCommand(matches, Compiled(rules, Migrated(defaults, authoritative)), stroke)
         == RuntimeCommand(matches, Compiled(rules, authoritative), stroke)
        <==> forall i, j :: !OvertakesIn(matches, rules, defaults, authoritative, WINDOW, stroke, i, j)
  {
    hide WellMade, Preserved, OvertakesIn, Compiled, Runs, Pressing;
    KeyRunsAlikeExactly(matches, rules, defaults, authoritative, WINDOW, stroke);
  }

  /**
    The migration keeps all bindings and what every key runs in every context if and only if no default is lost, no
    binding comes back, and no two bindings that one key answers to change places.
   */
  lemma MigrationPreservesDispatch(
    matches: (string, string) -> bool, rules: Rules, defaults: seq<Keybinding>, authoritative: seq<Keybinding>)
    requires WellMade(rules, defaults)
    ensures Preserved(rules, defaults, authoritative) && RunsAlike(matches, rules, defaults, authoritative)
        <==> ((forall i, j ::
                 !Loses(rules, defaults, authoritative, i, j) && !Resurfaces(rules, defaults, authoritative, i, j))
              && forall i, j, stroke :: !Overtakes(matches, rules, defaults, authoritative, stroke, i, j))
  {
    hide WellMade, Loses, Resurfaces, Preserved, Overtakes, Compiled, Runs;
    MigrationPreservesBindings(rules, defaults, authoritative);
    if Preserved(rules, defaults, authoritative) {
      RunsAlikeExactly(matches, rules, defaults, authoritative);
    }
  }

  lemma OvertakingInItsContexts(
    matches: (string, string) -> bool, rules: Rules, defaults: seq<Keybinding>, authoritative: seq<Keybinding>,
    stroke: string, i: nat, j: nat)
    requires WellMade(rules, defaults) && Preserved(rules, defaults, authoritative)
    requires Overtakes(matches, rules, defaults, authoritative, stroke, i, j)
    ensures !RunsAlike(matches, rules, defaults, authoritative)
  {
    hide Compiled, Runs, OvertakesIn, WellMade, Target, Preserved;
    InListRange(rules, authoritative, i);
    InListRange(rules, authoritative, j);
    var active := Either(Target(rules, authoritative[i]).context, Target(rules, authoritative[j]).context);
    OvertakingRunsAnother(matches, rules, defaults, authoritative, active, stroke, i, j);
  }

  lemma RunsAlikeExactly(
    matches: (string, string) -> bool, rules: Rules, defaults: seq<Keybinding>, authoritative: seq<Keybinding>)
    requires WellMade(rules, defaults) && Preserved(rules, defaults, authoritative)
    ensures RunsAlike(matches, rules, defaults, authoritative)
        <==> forall i, j, stroke :: !Overtakes(matches, rules, defaults, authoritative, stroke, i, j)
  {
    hide WellMade, Preserved, Overtakes, Compiled, Runs;
    if RunsAlike(matches, rules, defaults, authoritative) {
      forall i, j, stroke ensures !Overtakes(matches, rules, defaults, authoritative, stroke, i, j) {
        if Overtakes(matches, rules, defaults, authoritative, stroke, i, j) {
          OvertakingInItsContexts(matches, rules, defaults, authoritative, stroke, i, j);
          assert false;
        }
      }
    } else {
      var active: Option<string> -> bool, stroke: string :|
        Runs(Compiled(rules, Migrated(defaults, authoritative)), Pressing(matches, active, stroke))
        != Runs(Compiled(rules, authoritative), Pressing(matches, active, stroke));
      var i, j := DifferenceIsOvertaking(matches, rules, defaults, authoritative, active, stroke);
      OvertakesAnyway(matches, rules, defaults, authoritative, active, stroke, i, j);
    }
  }

  /** Without unbind entries and conflicts, only overtaking can make a key run another command. */
  lemma ListsWithoutUnbindsRunAlikeExactly(
    matches: (string, string) -> bool, rules: Rules, defaults: seq<Keybinding>, authoritative: seq<Keybinding>)
    requires WellMade(rules, defaults) && NoConflicts(rules, authoritative)
    requires forall i :: 0 <= i < |authoritative| ==> !authoritative[i].unbind
    ensures RunsAlike(matches, rules, defaults, authoritative)
        <==> forall i, j, stroke :: !Overtakes(matches, rules, defaults, authoritative, stroke, i, j)
  {
    hide WellMade, Preserved, Overtakes, RunsAlike, NoConflicts;
    ListsWithoutUnbindsArePreserved(rules, defaults, authoritative);
    RunsAlikeExactly(matches, rules, defaults, authoritative);
  }

  /**
    A list with a default's keys in another context or spelling before the default: a key that both answer to runs the
    default before the migration and the other command after it, though both stay bound.
   */
  lemma OvertakenDefaultRunsAnother(rules: Rules, binding: Keybinding, other: Keybinding, answers: Place -> bool)
    requires WellMade(rules, [binding]) && ActionOf(rules, other).Bind?
    requires !SamePlace(Target(rules, other), Target(rules, binding)) && !SameAssignment(binding, other)
    requires answers(PlaceOf(Target(rules, binding))) && answers(PlaceOf(Target(rules, other)))
    ensures var authoritative := [other, binding];
            && Preserved(rules, [binding], authoritative)
            && Runs(Compiled(rules, authoritative), answers) == Some(Target(rules, binding).command)
            && Runs(Compiled(rules, Migrated([binding], authoritative)), answers) == Some(Target(rules, other).command)
  {
    hide SingleKeystroke, SameAssignment, Runs, Compiled, Sparse, ActionOf, Target, Clears, Binds;
    var authoritative := [other, binding];
    assert [binding][0] == binding;
    MigratesToPair(rules, binding, other);
    TwoBinds(rules, other, binding);
    TwoBinds(rules, binding, other);
    var a, b := Target(rules, other), Target(rules, binding);
    LastAnswers([a, b], answers);
    LastAnswers([b, a], answers);
    assert Assigned(rules, authoritative) == {a, b} == Assigned(rules, [binding, other]);
  }

  lemma LastAnswers(list: seq<Assignment>, answers: Place -> bool)
    requires list != [] && answers(PlaceOf(list[|list| - 1]))
    ensures Runs(list, answers) == Some(list[|list| - 1].command)
  {
  }

  lemma MigratesToPair(rules: Rules, binding: Keybinding, other: Keybinding)
    requires ActionOf(rules, other).Bind? && ActionOf(rules, binding).Bind? && !SameAssignment(binding, other)
    ensures Migrated([binding], [other, binding]) == [binding, other]
  {
    hide ActionOf, NormalizeKeys, NormalizeContext, Trim;
    var authoritative := [other, binding];
    assert [binding][0] == binding && SameAssignment(authoritative[1], binding) && SameAssignment(binding, binding);
    UnbindIsNoBind(rules, other);
    UnbindIsNoBind(rules, binding);
    assert authoritative[1] == binding;
    assert Keeps(authoritative, binding);
    assert IsDefault([binding], binding) && !IsDefault([binding], other);
    assert authoritative[..1] == [other] && [other][..0] == [] && [binding][..0] == [];
    assert Additions([binding], [other]) == [other];
    assert Additions([binding], authoritative) == [other];
    assert Removals([binding], authoritative) == [];
  }

  lemma TwoBinds(rules: Rules, first: Keybinding, last: Keybinding)
    requires ActionOf(rules, first).Bind? && ActionOf(rules, last).Bind?
    requires !SamePlace(Target(rules, first), Target(rules, last))
    ensures Compiled(rules, [first, last]) == [Target(rules, first), Target(rules, last)]
  {
    hide ActionOf, Target;
    OneBind(rules, first);
    assert [first, last][..1] == [first];
    var a := Target(rules, first);
    assert !Clears(rules, last, a) && !Binds(rules, last, a);
    assert [a][..0] == [];
    assert Remaining(rules, [a], last) == [a];
  }

  /**
    So with a default of the window and the same keys in no context, the first example: the key changes its
    command.
   */
  lemma WindowKeyRunsAnother(matches: (string, string) -> bool, rules: Rules, binding: Keybinding, other: Keybinding,
      stroke: string)
    requires WellMade(rules, [binding]) && ActionOf(rules, other).Bind? && !SameAssignment(binding, other)
    requires Target(rules, binding).context == Some("Workspace") && Target(rules, other).context == None
    requires matches(Target(rules, binding).keys, stroke) && matches(Target(rules, other).keys, stroke)
    ensures var authoritative := [other, binding];
            && RuntimeCommand(matches, Compiled(rules, authoritative), stroke) == Some(Target(rules, binding).command)
            && RuntimeCommand(matches, Compiled(rules, Migrated([binding], authoritative)), stroke)
               == Some(Target(rules, other).command)
  {
    hide SingleKeystroke, SameAssignment, Runs, Compiled, Sparse, ActionOf, Target;
    OvertakenDefaultRunsAnother(rules, binding, other,
      Pressing(matches, WINDOW, stroke));
  }
}
