/**
 * The state of the rebinding screen: the bindings of the action map, which
 * actions are enabled, the interactive rebinding operation in progress (if
 * any) and the "settings changed" flag, with the operations that change them.
 */
module Rebinding {
  import opened Wrappers
  import opened Classifier
  import opened Bindings
  import opened ControlPath
  import Strings

  /** An interactive rebinding operation in progress: the action it rebinds and the target binding. */
  datatype Operation = Operation(action: nat, bindingIndex: nat)

  /** The enabled flags after cancelling `op`, whose clean-up enables its own action. */
  function AfterCancel(enabled: seq<bool>, op: Option<Operation>): (r: seq<bool>)
    requires op.Some? ==> op.value.action < |enabled|
    ensures |r| == |enabled|
    ensures op.Some? ==> r[op.value.action]
    ensures forall b :: 0 <= b < |enabled| && (op.None? || b != op.value.action) ==> r[b] == enabled[b]
  {
    if op.Some? then enabled[op.value.action := true] else enabled
  }

  class RebindingUI {
    /** The actions of the action map, in declaration order; each array holds that action's bindings. */
    const actions: seq<array<Binding>>
    /** `KeyMappings`: the rows of the screen. */
    const keyMappings: seq<KeyMapping>
    /** Whether each action is enabled. */
    var enabled: seq<bool>
    /** `_rebindingOperation`; `None` stands for null. */
    var operation: Option<Operation>
    /** `_isChanged`. */
    var isChanged: bool
    /** The bindings, as a value. */
    ghost var Registry: Registry

    ghost function Rows(): set<array<Binding>> {
      set r | r in actions
    }

    ghost predicate Valid()
      reads this, Rows()
    {
      && |enabled| == |actions|
      && |Registry| == |actions|
      && (forall a, b :: 0 <= a < b < |actions| ==> actions[a] != actions[b])
      && (forall a :: 0 <= a < |actions| ==> actions[a][..] == Registry[a])
      && AllReferInto(keyMappings, Registry)
      // while a rebind is in progress, its action is disabled
      && (operation.Some? ==>
            && operation.value.action < |actions|
            && operation.value.bindingIndex < |Registry[operation.value.action]|
            && !enabled[operation.value.action])
    }

    constructor (rows: seq<array<Binding>>, mappings: seq<KeyMapping>, initiallyEnabled: seq<bool>)
      requires forall a, b :: 0 <= a < b < |rows| ==> rows[a] != rows[b]
      requires |initiallyEnabled| == |rows|
      requires forall k :: 0 <= k < |mappings| && mappings[k].action.Some? ==> mappings[k].action.value < |rows|
      ensures Valid()
      ensures actions == rows && keyMappings == mappings && enabled == initiallyEnabled
      ensures forall a :: 0 <= a < |rows| ==> Registry[a] == rows[a][..]
      ensures operation == None && !isChanged
    {
      actions, keyMappings, enabled := rows, mappings, initiallyEnabled;
      operation, isChanged := None, false;
      Registry := seq(|rows|, a requires 0 <= a < |rows| reads set r | r in rows => rows[a][..]);
    }

    /** `ResolveActionAndBinding`, on the arrays. */
    method Resolve(m: KeyMapping) returns (found: bool, bindingIndex: int)
      requires Valid() && RefersInto(m, Registry)
      ensures Resolution(found, bindingIndex) == ResolveActionAndBinding(Registry, m)
    {
      if m.action.None? {
        return false, -1;
      }
      bindingIndex := IndexOfDefault(actions[m.action.value][..], LookupPath(m));
      found := bindingIndex != -1;
    }

    /**
     * `CleanUp`: disposes of the operation, clears the field and re-enables
     * the action the operation was started for.
     */
    method CleanUp(action: nat)
      requires Valid() && action < |actions|
      modifies this
      ensures Valid()
      ensures operation == None && enabled == old(enabled)[action := true]
      ensures Registry == old(Registry) && isChanged == old(isChanged)
    {
      if operation.Some? {
        operation := None;
      }
      enabled := enabled[action := true];
    }

    /** Cancelling the operation in progress runs its cancel callback, which is `CleanUp`. */
    method Cancel()
      requires Valid() && operation.Some?
      modifies this
      ensures Valid()
      ensures operation == None && enabled == old(enabled)[old(operation).value.action := true]
      ensures Registry == old(Registry) && isChanged == old(isChanged)
    {
      CleanUp(operation.value.action);
    }

    /**
     * `PerformInteractiveRebind`: cancels the operation in progress, if any
     * (its clean-up re-enables its own action), and asks the input system for
     * a new operation on the target binding. The input system refuses to
     * rebind an action that is enabled (it throws, and the exception ends the
     * caller too), so no operation is stored when the cancelled operation has
     * just re-enabled the target action.
     */
    method PerformInteractiveRebind(action: nat, bindingIndex: nat) returns (performed: bool)
      requires Valid() && action < |actions| && bindingIndex < actions[action].Length
      modifies this
      ensures Valid()
      ensures enabled == AfterCancel(old(enabled), old(operation))
      ensures performed <==> !enabled[action]
      ensures operation == if performed then Some(Operation(action, bindingIndex)) else None
      ensures Registry == old(Registry) && isChanged == old(isChanged)
    {
      if operation.Some? {
        Cancel();
      }
      if enabled[action] {
        return false;
      }
      operation := Some(Operation(action, bindingIndex));
      performed := true;
    }

    /**
     * `StartInteractiveRebind`: a null mapping or one that does not resolve
     * changes nothing. Otherwise the action is disabled and the rebind is
     * performed. Since the action is disabled before the previous operation is
     * cancelled, restarting on the action of the operation in progress
     * re-enables that action, the input system refuses it, and no operation
     * is left in progress.
     */
    method StartInteractiveRebind(keyMapping: Option<KeyMapping>) returns (started: bool)
      requires Valid()
      requires keyMapping.Some? ==> RefersInto(keyMapping.value, Registry)
      modifies this
      ensures Valid()
      ensures Registry == old(Registry) && isChanged == old(isChanged)
      ensures keyMapping.None? || !ResolveActionAndBinding(Registry, keyMapping.value).found ==>
        !started && enabled == old(enabled) && operation == old(operation)
      ensures keyMapping.Some? && ResolveActionAndBinding(Registry, keyMapping.value).found ==>
        var a := keyMapping.value.action.value;
        var previous := old(operation);
        var restart := previous.Some? && previous.value.action == a;
        && (started <==> !restart)
        && enabled == AfterCancel(old(enabled)[a := false], previous)
        && operation ==
             if restart then None
             else Some(Operation(a, ResolveActionAndBinding(Registry, keyMapping.value).bindingIndex))
    {
      if keyMapping.None? {
        return false;
      }
      var m := keyMapping.value;
      var found, bindingIndex := Resolve(m);
      if !found {
        return false;
      }
      var a := m.action.value;
      enabled := enabled[a := false];
      started := PerformInteractiveRebind(a, bindingIndex);
    }

    /**
     * The conflict-clearing loop: every binding of every action of the map,
     * the target binding included, whose effective path is not empty, resolves
     * and matches the standardised input, is given the override "".
     */
    method ClearConflicts(standardized: string, resolves: string -> bool, matches: (string, string) -> bool)
      requires Valid()
      modifies this`Registry, Rows()
      ensures Valid()
      ensures Registry == ClearedConflicts(old(Registry), standardized, resolves, matches)
    {
      ghost var target := ClearedConflicts(Registry, standardized, resolves, matches);
      for a := 0 to |actions|
        invariant Valid()
        invariant forall b :: 0 <= b < a ==> Registry[b] == target[b]
        invariant forall b :: a <= b < |actions| ==> Registry[b] == old(Registry)[b]
      {
        ClearActionConflicts(a, standardized, resolves, matches);
      }
      assert Registry == target;
    }

    /** The inner loop of the conflict clearing, over the bindings of one action. */
    method ClearActionConflicts(a: nat, standardized: string,
                                resolves: string -> bool, matches: (string, string) -> bool)
      requires Valid() && a < |actions|
      modifies this`Registry, actions[a]
      ensures Valid()
      ensures Registry == old(Registry)[a := ClearedRow(old(Registry)[a], standardized, resolves, matches)]
    {
      var row := actions[a];
      ghost var cleared := ClearedRow(Registry[a], standardized, resolves, matches);
      for i := 0 to row.Length
        modifies row
        invariant forall j :: 0 <= j < i ==> row[j] == cleared[j]
        invariant forall j :: i <= j < row.Length ==> row[j] == old(row[j])
      {
        var binding := row[i];
        var path := EffectivePath(binding);
        if path == "" {
          continue;
        }
        if !resolves(path) {
          continue;
        }
        if matches(standardized, path) {
          row[i] := Binding(binding.defaultPath, Some(""));
        }
      }
      assert row[..] == cleared;
      Registry := Registry[a := row[..]];
    }

    /**
     * The potential-match callback: a cancel marker cancels the operation, a
     * special key or control cancels it (and the notice is shown); in both
     * cases no binding changes. Otherwise the conflicts with the standardised
     * path are cleared and the operation stays in progress.
     */
    method OnPotentialMatch(control: CapturedControl, resolves: string -> bool, matches: (string, string) -> bool)
      returns (verdict: Verdict)
      requires Valid() && operation.Some?
      modifies this, Rows()
      ensures Valid()
      ensures verdict == Classify(control)
      ensures isChanged == old(isChanged)
      ensures !verdict.Proceed? ==>
        && Registry == old(Registry)
        && operation == None
        && enabled == old(enabled)[old(operation).value.action := true]
      ensures verdict.Proceed? ==>
        && Registry == ClearedConflicts(old(Registry), verdict.standardized, resolves, matches)
        && operation == old(operation)
        && enabled == old(enabled)
    {
      verdict := Classify(control);
      match verdict
      case CancelSilently =>
        Cancel();
      case CancelWithNotice =>
        Cancel();
      case Proceed(standardized) =>
        ClearConflicts(standardized, resolves, matches);
    }

    /**
     * Completion: the operation has set the target binding's override to the
     * captured path; the completion callback marks the settings changed and
     * runs `CleanUp`.
     */
    method OnComplete(capturedPath: string)
      requires Valid() && operation.Some?
      modifies this, Rows()
      ensures Valid()
      ensures var op := old(operation).value;
        && Registry == Commit(old(Registry), op.action, op.bindingIndex, capturedPath)
        && enabled == old(enabled)[op.action := true]
      ensures operation == None && isChanged
    {
      var op := operation.value;
      var row := actions[op.action];
      row[op.bindingIndex] := Binding(row[op.bindingIndex].defaultPath, Some(capturedPath));
      Registry := Registry[op.action := Registry[op.action][op.bindingIndex := row[op.bindingIndex]]];
      isChanged := true;
      CleanUp(op.action);
    }

    /** One step of the reset: `RemoveBindingOverride` on the binding the mapping resolves to, if any. */
    method ResetOne(m: KeyMapping)
      requires Valid() && RefersInto(m, Registry)
      modifies this`Registry, Rows()
      ensures Valid()
      ensures Registry == ResetMapping(old(Registry), m)
    {
      var found, bindingIndex := Resolve(m);
      if !found {
        return;
      }
      var row := actions[m.action.value];
      row[bindingIndex] := Binding(row[bindingIndex].defaultPath, None);
      Registry := Registry[m.action.value := Registry[m.action.value][bindingIndex := row[bindingIndex]]];
    }

    /**
     * `ResetToDefault`: removes the override of the binding every mapping
     * resolves to, skipping mappings that do not resolve, and marks the
     * settings changed.
     */
    method ResetToDefault()
      requires Valid()
      modifies this, Rows()
      ensures Valid()
      ensures Registry == ResetAll(old(Registry), keyMappings)
      ensures isChanged && operation == old(operation) && enabled == old(enabled)
    {
      for k := 0 to |keyMappings|
        invariant Valid()
        invariant operation == old(operation) && enabled == old(enabled)
        invariant SameLayout(old(Registry), Registry)
        invariant Registry == ResetAll(old(Registry), keyMappings[..k])
      {
        ghost var before := Registry;
        ResetOne(keyMappings[k]);
        assert keyMappings[..k + 1][..k] == keyMappings[..k];
        assert Registry == ResetMapping(before, keyMappings[k]);
      }
      assert keyMappings[..|keyMappings|] == keyMappings;
      isChanged := true;
    }
  }

  /*
   * Client scenarios: what a caller can derive from the specifications alone.
   */

  /**
   * Jump is bound to the south face button; the player rebinds Interact and
   * presses that button on a DualShock pad. Jump's binding is cleared to "",
   * Interact gets the captured path, and Interact is enabled again.
   */
  method SharedButtonMovesToNewAction() {
    var jump := new Binding[1](_ => Binding("<Gamepad>/buttonSouth", None));
    var interact := new Binding[1](_ => Binding("<Keyboard>/e", None));
    var mappings := [KeyMapping(Some(0), "<Gamepad>/buttonSouth"), KeyMapping(Some(1), "<Keyboard>/e")];
    assert jump[..] == [Binding("<Gamepad>/buttonSouth", None)];
    assert interact[..] == [Binding("<Keyboard>/e", None)];
    var ui := new RebindingUI([jump, interact], mappings, [true, true]);
    assert ui.Registry == [[Binding("<Gamepad>/buttonSouth", None)], [Binding("<Keyboard>/e", None)]];

    var started := ui.StartInteractiveRebind(Some(mappings[1]));
    assert started && ui.operation == Some(Operation(1, 0)) && !ui.enabled[1];

    var control := CapturedControl("/DualShock4GamepadHID/buttonSouth", None);
    DualShockSouthButtonIsAccepted();
    var verdict := ui.OnPotentialMatch(control, AnyPathResolves, SameStandardPath);
    assert verdict == Proceed("<Gamepad>/buttonSouth");
    SouthButtonClearsJump();
    assert ui.Registry == [[Binding("<Gamepad>/buttonSouth", Some(""))], [Binding("<Keyboard>/e", None)]];

    assert ui.operation == Some(Operation(1, 0)) && ui.enabled == [true, false];
    ghost var cleared := ui.Registry;
    ui.OnComplete("<Gamepad>/buttonSouth");
    assert ui.Registry == Commit(cleared, 1, 0, "<Gamepad>/buttonSouth");
    assert ui.Registry[0] == cleared[0];
    assert ui.Registry[1] == [Binding("<Keyboard>/e", Some("<Gamepad>/buttonSouth"))];
    assert ui.Registry == [[Binding("<Gamepad>/buttonSouth", Some(""))],
                           [Binding("<Keyboard>/e", Some("<Gamepad>/buttonSouth"))]];
    assert ui.operation == None && ui.enabled == [true, true] && ui.isChanged;
  }

  /**
   * The bindings are cleared inside the potential-match callback, before the
   * operation completes: when the player presses Escape after the south
   * button, the operation is cancelled, Jump stays unbound and Interact
   * keeps its old binding.
   */
  method ClearedBindingsSurviveCancel() {
    var jump := new Binding[1](_ => Binding("<Gamepad>/buttonSouth", None));
    var interact := new Binding[1](_ => Binding("<Keyboard>/e", None));
    var mappings := [KeyMapping(Some(0), "<Gamepad>/buttonSouth"), KeyMapping(Some(1), "<Keyboard>/e")];
    assert jump[..] == [Binding("<Gamepad>/buttonSouth", None)];
    assert interact[..] == [Binding("<Keyboard>/e", None)];
    var ui := new RebindingUI([jump, interact], mappings, [true, true]);
    assert ui.Registry == [[Binding("<Gamepad>/buttonSouth", None)], [Binding("<Keyboard>/e", None)]];

    var started := ui.StartInteractiveRebind(Some(mappings[1]));
    assert started && ui.operation == Some(Operation(1, 0));

    DualShockSouthButtonIsAccepted();
    var verdict := ui.OnPotentialMatch(CapturedControl("/DualShock4GamepadHID/buttonSouth", None),
                                       AnyPathResolves, SameStandardPath);
    assert verdict == Proceed("<Gamepad>/buttonSouth");
    SouthButtonClearsJump();
    assert ui.operation == Some(Operation(1, 0)) && ui.enabled == [true, false];

    EscapeKeyCancelsSilently();
    var cancel := ui.OnPotentialMatch(CapturedControl("<Keyboard>/escape", Some(Escape)),
                                      AnyPathResolves, SameStandardPath);
    assert cancel == CancelSilently;
    assert ui.Registry == [[Binding("<Gamepad>/buttonSouth", Some(""))], [Binding("<Keyboard>/e", None)]];
    assert ui.operation == None && ui.enabled == [true, true] && !ui.isChanged;
  }

  /**
   * With the south face button as input, clearing unbinds Jump's south-button
   * binding and leaves Interact's keyboard binding alone.
   */
  lemma SouthButtonClearsJump()
    ensures ClearedConflicts([[Binding("<Gamepad>/buttonSouth", None)], [Binding("<Keyboard>/e", None)]],
                             "<Gamepad>/buttonSouth", AnyPathResolves, SameStandardPath)
         == [[Binding("<Gamepad>/buttonSouth", Some(""))], [Binding("<Keyboard>/e", None)]]
  {
    var reg := [[Binding("<Gamepad>/buttonSouth", None)], [Binding("<Keyboard>/e", None)]];
    var std := "<Gamepad>/buttonSouth";
    var r := ClearedConflicts(reg, std, AnyPathResolves, SameStandardPath);
    CanonicalIsFixpoint(0);
    assert Conflicts(reg[0][0], std, AnyPathResolves, SameStandardPath);
    Strings.MissingChar("<Keyboard>/e", "buttonSouth", 'S');
    StandardizeIsFirstMatch("<Keyboard>/e");
    assert !Conflicts(reg[1][0], std, AnyPathResolves, SameStandardPath);
    assert r[0] == [Binding("<Gamepad>/buttonSouth", Some(""))];
    assert r[1] == [Binding("<Keyboard>/e", None)];
  }

  /**
   * Restarting a rebind on the action whose rebind is still in progress: the
   * new start disables the action, then cancelling the old operation enables
   * it again, so the input system refuses the new rebind and the action is
   * left enabled with no operation in progress.
   */
  method RestartOnSameActionIsRefused() {
    var move := new Binding[2](k => if k == 0 then Binding("<Keyboard>/w", None) else Binding("<Keyboard>/upArrow", None));
    var mappings := [KeyMapping(Some(0), "<Keyboard>/w"), KeyMapping(Some(0), "<Keyboard>/upArrow")];
    assert move[..] == [Binding("<Keyboard>/w", None), Binding("<Keyboard>/upArrow", None)];
    var ui := new RebindingUI([move], mappings, [true]);
    assert ui.Registry[0] == move[..];
    var first := ui.StartInteractiveRebind(Some(mappings[0]));
    assert first && !ui.enabled[0];
    assert ui.Registry[0] == move[..];
    assert LookupPath(mappings[1]) == "<Keyboard>/upArrow";
    assert ui.Registry[0][1].defaultPath == LookupPath(mappings[1]);
    assert |ui.Registry[0][0].defaultPath| != |LookupPath(mappings[1])|;
    assert IndexOfDefault(ui.Registry[0], LookupPath(mappings[1])) == 1;
    assert ResolveActionAndBinding(ui.Registry, mappings[1]) == Resolution(true, 1);
    var second := ui.StartInteractiveRebind(Some(mappings[1]));
    assert !second && ui.operation == None;
    assert ui.enabled[0];
  }
}
