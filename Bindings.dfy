/**
 * The binding registry seen by the rebinding screen, as a value: the actions
 * of the action map in declaration order, each with its bindings in index
 * order. Each binding has a default path and an optional override; the
 * effective path is the override when there is one, else the default. An
 * override of "" means "explicitly unbound"; no override means "use the
 * default".
 */
module Bindings {
  import opened Wrappers
  import opened ControlPath

  datatype Binding = Binding(defaultPath: string, override: Option<string>)

  /** `effectivePath`: the override if present, otherwise the default path. */
  function EffectivePath(b: Binding): string {
    match b.override
    case Some(p) => p
    case None => b.defaultPath
  }

  /** Actions in declaration order, each holding its bindings in index order. */
  type Registry = seq<seq<Binding>>

  /** Two registries have the same actions, binding counts and default paths. */
  predicate SameLayout(r1: Registry, r2: Registry) {
    && |r1| == |r2|
    && (forall a :: 0 <= a < |r1| ==> |r1[a]| == |r2[a]|)
    && (forall a, i :: 0 <= a < |r1| && 0 <= i < |r1[a]| ==> r1[a][i].defaultPath == r2[a][i].defaultPath)
  }

  /*
   * Resolving a key mapping to an action and a binding index.
   */

  /** The path looked up for a mapping whose button path is empty. */
  const KeyboardNone: string := "<Keyboard>/None"

  /**
   * A key mapping of the screen: a reference to an action (an index into the
   * registry, `None` for a missing reference) and the default path of the
   * binding it edits.
   */
  datatype KeyMapping = KeyMapping(action: Option<nat>, buttonPath: string)

  /** The mapping's action reference, when present, names an action of `reg`. */
  predicate RefersInto(m: KeyMapping, reg: Registry) {
    m.action.Some? ==> m.action.value < |reg|
  }

  /** The default path a mapping's binding is looked up by. */
  function LookupPath(m: KeyMapping): string {
    if m.buttonPath == "" then KeyboardNone else m.buttonPath
  }

  /** `bindings.IndexOf(x => x.path == path)`: the first index with that default path, or -1. */
  function IndexOfDefault(row: seq<Binding>, path: string): (r: int)
    ensures -1 <= r < |row|
    ensures r >= 0 ==> row[r].defaultPath == path
    ensures r >= 0 ==> forall j :: 0 <= j < r ==> row[j].defaultPath != path
    ensures r == -1 ==> forall j :: 0 <= j < |row| ==> row[j].defaultPath != path
  {
    if row == [] then -1
    else if row[0].defaultPath == path then 0
    else
      var r := IndexOfDefault(row[1..], path);
      if r == -1 then -1 else r + 1
  }

  /** The two out-parameters of `ResolveActionAndBinding` with its return value. */
  datatype Resolution = Resolution(found: bool, bindingIndex: int)

  /**
   * `ResolveActionAndBinding`: succeeds with the first binding of the
   * mapping's action whose default path is the mapping's lookup path; fails
   * with index -1 when the action is missing or no binding has that path.
   */
  function ResolveActionAndBinding(reg: Registry, m: KeyMapping): (r: Resolution)
    requires RefersInto(m, reg)
    ensures r.found <==> r.bindingIndex != -1
    ensures r.found ==>
      && m.action.Some?
      && 0 <= r.bindingIndex < |reg[m.action.value]|
      && reg[m.action.value][r.bindingIndex].defaultPath == LookupPath(m)
      && forall j :: 0 <= j < r.bindingIndex ==> reg[m.action.value][j].defaultPath != LookupPath(m)
    ensures !r.found ==>
      || m.action.None?
      || forall j :: 0 <= j < |reg[m.action.value]| ==> reg[m.action.value][j].defaultPath != LookupPath(m)
  {
    if m.action.None? then
      Resolution(false, -1)
    else
      var i := IndexOfDefault(reg[m.action.value], LookupPath(m));
      Resolution(i != -1, i)
  }

  /** Resolution reads only the layout, so it is the same in registries of the same layout. */
  lemma ResolutionDependsOnLayout(r1: Registry, r2: Registry, m: KeyMapping)
    requires SameLayout(r1, r2) && RefersInto(m, r1)
    ensures ResolveActionAndBinding(r1, m) == ResolveActionAndBinding(r2, m)
  {
  }

  /*
   * Conflict clearing.
   */

  /**
   * A binding conflicts with the standardised input path when its effective
   * path is not empty, resolves to a control of the capturing device
   * (`resolves`, standing for `InputControlPath.TryFindControl`) and that
   * control matches the input (`matches`, standing for `InputControlPath.Matches`).
   */
  predicate Conflicts(b: Binding, standardized: string,
                      resolves: string -> bool, matches: (string, string) -> bool)
  {
    var p := EffectivePath(b);
    p != "" && resolves(p) && matches(standardized, p)
  }

  /** The binding after the clearing step: unbound (override "") if it conflicts, else as it was. */
  function ClearBinding(b: Binding, standardized: string,
                        resolves: string -> bool, matches: (string, string) -> bool): Binding
  {
    if Conflicts(b, standardized, resolves, matches) then Binding(b.defaultPath, Some("")) else b
  }

  /** The bindings of one action after the clearing step. */
  function ClearedRow(row: seq<Binding>, standardized: string,
                      resolves: string -> bool, matches: (string, string) -> bool): (r: seq<Binding>)
    ensures |r| == |row|
    ensures forall i :: 0 <= i < |row| ==> r[i] == ClearBinding(row[i], standardized, resolves, matches)
  {
    seq(|row|, i requires 0 <= i < |row| => ClearBinding(row[i], standardized, resolves, matches))
  }

  /**
   * The registry after the conflict-clearing loop: every binding of every
   * action, the target binding included, that conflicts with the input is
   * explicitly unbound; every other binding is left as it was. Afterwards no
   * binding conflicts with the input.
   */
  function ClearedConflicts(reg: Registry, standardized: string,
                            resolves: string -> bool, matches: (string, string) -> bool): (r: Registry)
    ensures SameLayout(reg, r)
    ensures forall a, i :: 0 <= a < |reg| && 0 <= i < |reg[a]| ==>
      if Conflicts(reg[a][i], standardized, resolves, matches)
      then r[a][i] == Binding(reg[a][i].defaultPath, Some(""))
      else r[a][i] == reg[a][i]
    ensures forall a, i :: 0 <= a < |r| && 0 <= i < |r[a]| ==>
      !Conflicts(r[a][i], standardized, resolves, matches)
  {
    seq(|reg|, a requires 0 <= a < |reg| => ClearedRow(reg[a], standardized, resolves, matches))
  }

  /** Clearing a second time with the same input changes nothing. */
  lemma ClearedConflictsIdempotent(reg: Registry, standardized: string,
                                   resolves: string -> bool, matches: (string, string) -> bool)
    ensures var once := ClearedConflicts(reg, standardized, resolves, matches);
      ClearedConflicts(once, standardized, resolves, matches) == once
  {
    var once := ClearedConflicts(reg, standardized, resolves, matches);
    var twice := ClearedConflicts(once, standardized, resolves, matches);
    forall a | 0 <= a < |once|
      ensures twice[a] == once[a]
    {
      assert |twice[a]| == |once[a]|;
    }
  }

  /**
   * The operation's own last step: the target binding gets the captured path
   * as its override.
   */
  function Commit(reg: Registry, a: nat, i: nat, path: string): (r: Registry)
    requires a < |reg| && i < |reg[a]|
    ensures SameLayout(reg, r)
    ensures r[a][i].override == Some(path) && EffectivePath(r[a][i]) == path
    ensures forall b, j :: 0 <= b < |reg| && 0 <= j < |reg[b]| && (b, j) != (a, i) ==> r[b][j] == reg[b][j]
  {
    reg[a := reg[a][i := Binding(reg[a][i].defaultPath, Some(path))]]
  }

  /**
   * When the committed path itself conflicts with the input (as the captured
   * control's path does), clearing and then committing leaves exactly one
   * binding of the map conflicting with the input: the target.
   */
  lemma OneOwnerAfterCommit(reg: Registry, standardized: string,
                            resolves: string -> bool, matches: (string, string) -> bool,
                            a: nat, i: nat, path: string)
    requires a < |reg| && i < |reg[a]|
    requires path != "" && resolves(path) && matches(standardized, path)
    ensures var r := Commit(ClearedConflicts(reg, standardized, resolves, matches), a, i, path);
      forall b, j :: 0 <= b < |r| && 0 <= j < |r[b]| ==>
        (Conflicts(r[b][j], standardized, resolves, matches) <==> b == a && j == i)
  {
    var cleared := ClearedConflicts(reg, standardized, resolves, matches);
    var r := Commit(cleared, a, i, path);
    forall b, j | 0 <= b < |r| && 0 <= j < |r[b]|
      ensures Conflicts(r[b][j], standardized, resolves, matches) <==> b == a && j == i
    {
      if b != a || j != i {
        assert r[b][j] == cleared[b][j];
      }
    }
  }

  /** Every path resolves: a device on which every bound control is present. */
  function AnyPathResolves(path: string): bool {
    true
  }

  /** A concrete choice of matcher: the path standardises to the standardised input. */
  function SameStandardPath(standardized: string, path: string): bool {
    StandardizeControlPath(path) == standardized
  }

  /*
   * Resetting to the defaults.
   */

  /** Every mapping of `ms` refers into `reg`. */
  predicate AllReferInto(ms: seq<KeyMapping>, reg: Registry) {
    forall k :: 0 <= k < |ms| ==> RefersInto(ms[k], reg)
  }

  /** `RemoveBindingOverride` on the slot a mapping resolves to; a mapping that does not resolve is skipped. */
  function ResetMapping(reg: Registry, m: KeyMapping): (r: Registry)
    requires RefersInto(m, reg)
    ensures SameLayout(reg, r)
  {
    var res := ResolveActionAndBinding(reg, m);
    if !res.found then reg
    else
      var a, i := m.action.value, res.bindingIndex;
      reg[a := reg[a][i := Binding(reg[a][i].defaultPath, None)]]
  }

  /** The registry after the `ResetToDefault` loop has handled the mappings `ms` in order. */
  function ResetAll(reg: Registry, ms: seq<KeyMapping>): (r: Registry)
    requires AllReferInto(ms, reg)
    ensures SameLayout(reg, r)
    decreases |ms|
  {
    if ms == [] then reg
    else
      var before := ResetAll(reg, ms[..|ms| - 1]);
      ResetMapping(before, ms[|ms| - 1])
  }

  /** Mapping `m` resolves to binding `i` of action `a`. */
  predicate Targets(reg: Registry, m: KeyMapping, a: nat, i: nat) {
    && RefersInto(m, reg)
    && m.action == Some(a)
    && ResolveActionAndBinding(reg, m) == Resolution(true, i)
  }

  /** Some mapping of `ms` resolves to binding `i` of action `a`. */
  predicate TargetedBy(reg: Registry, ms: seq<KeyMapping>, a: nat, i: nat) {
    exists k :: 0 <= k < |ms| && Targets(reg, ms[k], a, i)
  }

  /**
   * What `ResetToDefault` does, slot by slot: a binding some mapping resolves
   * to loses its override; every other binding is left as it was.
   */
  lemma {:induction false} ResetAllSlots(reg: Registry, ms: seq<KeyMapping>)
    requires AllReferInto(ms, reg)
    ensures forall a, i :: 0 <= a < |reg| && 0 <= i < |reg[a]| ==>
      ResetAll(reg, ms)[a][i] ==
        if TargetedBy(reg, ms, a, i) then Binding(reg[a][i].defaultPath, None) else reg[a][i]
    decreases |ms|
  {
    if ms != [] {
      var init, m := ms[..|ms| - 1], ms[|ms| - 1];
      ResetAllSlots(reg, init);
      var before := ResetAll(reg, init);
      ResolutionDependsOnLayout(reg, before, m);
      forall a, i | 0 <= a < |reg| && 0 <= i < |reg[a]|
        ensures ResetAll(reg, ms)[a][i] ==
          if TargetedBy(reg, ms, a, i) then Binding(reg[a][i].defaultPath, None) else reg[a][i]
      {
        if Targets(reg, m, a, i) {
          assert Targets(reg, ms[|ms| - 1], a, i);
        } else if TargetedBy(reg, init, a, i) {
          var k :| 0 <= k < |init| && Targets(reg, init[k], a, i);
          assert Targets(reg, ms[k], a, i);
        } else {
          forall k | 0 <= k < |ms|
            ensures !Targets(reg, ms[k], a, i)
          {
            if k < |init| {
              assert ms[k] == init[k];
            }
          }
        }
      }
    }
  }

  /** After the reset, every binding a mapping resolves to has its default path as its effective path. */
  lemma ResetRestoresDefaults(reg: Registry, ms: seq<KeyMapping>, k: nat)
    requires AllReferInto(ms, reg) && k < |ms|
    requires ResolveActionAndBinding(reg, ms[k]).found
    ensures var a, i := ms[k].action.value, ResolveActionAndBinding(reg, ms[k]).bindingIndex;
      && ResetAll(reg, ms)[a][i].override == None
      && EffectivePath(ResetAll(reg, ms)[a][i]) == reg[a][i].defaultPath
  {
    ResetAllSlots(reg, ms);
    var a, i := ms[k].action.value, ResolveActionAndBinding(reg, ms[k]).bindingIndex;
    assert Targets(reg, ms[k], a, i);
  }

  /** Running the reset twice gives the same registry as running it once. */
  lemma ResetAllIdempotent(reg: Registry, ms: seq<KeyMapping>)
    requires AllReferInto(ms, reg)
    ensures AllReferInto(ms, ResetAll(reg, ms))
    ensures ResetAll(ResetAll(reg, ms), ms) == ResetAll(reg, ms)
  {
    var once := ResetAll(reg, ms);
    var twice := ResetAll(once, ms);
    ResetAllSlots(reg, ms);
    ResetAllSlots(once, ms);
    forall k | 0 <= k < |ms|
      ensures ResolveActionAndBinding(once, ms[k]) == ResolveActionAndBinding(reg, ms[k])
    {
      ResolutionDependsOnLayout(reg, once, ms[k]);
    }
    forall a | 0 <= a < |once|
      ensures twice[a] == once[a]
    {
      forall i | 0 <= i < |once[a]|
        ensures twice[a][i] == once[a][i]
      {
        if TargetedBy(once, ms, a, i) {
          var k :| 0 <= k < |ms| && Targets(once, ms[k], a, i);
          assert Targets(reg, ms[k], a, i);
        }
      }
    }
  }
}
