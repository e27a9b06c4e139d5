# Key rebinding engine of the settings screen

This project models the part of `RebindingUI` that decides what happens to the
game's input bindings when the player rebinds a key or resets the bindings.
`RebindingUI` is a settings screen that remaps input bindings at runtime for a
Unity game. The model covers:

- **Control-path standardisation** (`ControlPath`). A raw control path is
  mapped to the canonical `<Gamepad>/...` path of the first of ten control
  families whose name occurs in it, or else returned unchanged. The names are
  buttonSouth, buttonNorth, buttonEast, buttonWest, leftStick, rightStick,
  dpad, leftTrigger, rightTrigger and start, tested in that order. Substring
  tests are ordinal and case-sensitive, as .NET's `string.Contains(string)`
  is.
- **Capture classification** (`Classifier`). When the input system reports a
  potential match, the callback decides in this order:
  1. A path containing "escape" or "start" cancels silently.
  2. A path containing "leftstick" or "dPad", or a key on the deny-list, is
     cancelled with the "special key" notice. The deny-list is Enter, Escape,
     Tab, CapsLock and F1 to F12.
  3. Otherwise the path is standardised and conflict clearing follows.
- **Binding registry** (`Bindings`). This is the value model of the action
  map's bindings: each has a default path and an optional override. It holds:
  - the lookup of a key mapping's binding (`ResolveActionAndBinding`);
  - the conflict-clearing pass, which unbinds, with the override "", every
    binding that resolves on the device and matches the standardised input;
  - the commit of the captured path to the target binding;
  - the reset that removes the overrides.
- **Screen state** (`Rebinding`). The class `RebindingUI` holds:
  - the bindings, as one array per action;
  - which actions are enabled;
  - the rebinding operation in progress;
  - the "changed" flag.

  Its methods follow the lifecycle of an interactive rebind: start, the cancel
  of the previous operation, the potential-match callback, cancel, complete
  and clean-up. It also has the reset to defaults.

The input system's device lookup (`InputControlPath.TryFindControl`) and path
matcher (`InputControlPath.Matches`) are taken as parameters: `resolves` and
`matches`. Every property about conflict clearing therefore holds for any
device and any matcher. `AnyPathResolves` and `SameStandardPath` are one
concrete choice, used in the client scenario `SharedButtonMovesToNewAction`.

## Behaviour of the code worth noting

- **The target binding is not excluded.** The conflict loop runs over every
  binding of every action of the map, the target binding included. A target
  binding that already matches the input is cleared as well. The operation's
  commit then gives it the captured path (`OneOwnerAfterCommit`).
- **The deny check never fires for the canonical names.** The gamepad deny
  check tests "leftstick" and "dPad". The input system and the standardiser
  spell these "leftStick" and "dpad", and the test is case-sensitive. So
  `<Gamepad>/leftStick` and `<Gamepad>/dpad` are accepted and standardise to
  themselves (`CamelCaseStickAndDpadAreAccepted`). Only paths spelled exactly
  as the check expects are refused (`DenyCheckSpellingIsRefused`).
- **The "start" family cannot be reached.** A path containing "start" is
  cancelled before standardisation. So an accepted control never standardises
  to `<Gamepad>/start` (`AcceptedNeverStandardizesToStart`).
- **Restarting on the same action is refused.** Starting a rebind disables
  the action first. Only then is the previous operation cancelled, and its
  clean-up enables that operation's action. The input system's
  `PerformInteractiveRebinding` refuses an enabled action: it throws, and the
  exception ends `StartInteractiveRebind` before it marks the popup open. So
  starting a new rebind on the action of the operation still in progress
  leaves that action enabled and no operation in progress
  (`Rebinding.RebindingUI.StartInteractiveRebind`,
  `RestartOnSameActionIsRefused`). On every other path, an operation in
  progress has its action disabled; this is part of `RebindingUI.Valid`.
- **Cleared bindings are not restored on cancel.** Conflicts are cleared
  inside the potential-match callback, before the operation completes. If the
  operation is then cancelled — by a later match on "escape" or "start", by a
  refused control, or by a new start — the cleared bindings keep the override
  "" and the target is never committed (`RebindingUI.OnPotentialMatch`,
  `ClearedBindingsSurviveCancel`).
- **The reset works through the key mappings.** `ResetToDefault` removes the
  override only of bindings that some key mapping resolves to. Other bindings
  of the map keep their overrides (`ResetAllSlots`).

## Model

| member | source | states |
|---|---|---|
| ControlPath.StandardizeControlPath | RebindingUI.cs:308-324 | The result is either the path itself or one of the ten canonical `<Gamepad>/` paths |
| ControlPath.FirstFamilyFrom | RebindingUI.cs:312-321 | Reference first-match rule: the index found is a family the path contains, and no family tested earlier occurs in it; `None` means no family from `k` on occurs |
| ControlPath.StandardizeIsFirstMatch | RebindingUI.cs:308-324 | The standardiser returns the canonical path of the first family whose name the path contains, and the path unchanged when it contains none |
| ControlPath.DpadNotInGamepadPath | RebindingUI.cs:318 | "dpad" does not occur in `<Gamepad>/x` when `x` has no `d`, so an earlier canonical path never falls into the dpad test |
| ControlPath.NoEarlierFamilyInButtonNorth | RebindingUI.cs:312-313 | The canonical buttonNorth path contains no family name tested before it |
| ControlPath.NoEarlierFamilyInButtonEast | RebindingUI.cs:312-314 | The canonical buttonEast path contains no family name tested before it |
| ControlPath.NoEarlierFamilyInButtonWest | RebindingUI.cs:312-315 | The canonical buttonWest path contains no family name tested before it |
| ControlPath.NoEarlierFamilyInLeftStick | RebindingUI.cs:312-316 | The canonical leftStick path contains no family name tested before it |
| ControlPath.NoEarlierFamilyInRightStick | RebindingUI.cs:312-317 | The canonical rightStick path contains no family name tested before it |
| ControlPath.NoEarlierFamilyInDpad | RebindingUI.cs:312-318 | The canonical dpad path contains no family name tested before it |
| ControlPath.NoEarlierFamilyInLeftTrigger | RebindingUI.cs:312-319 | The canonical leftTrigger path contains no family name tested before it |
| ControlPath.NoEarlierFamilyInRightTrigger | RebindingUI.cs:312-320 | The canonical rightTrigger path contains no family name tested before it |
| ControlPath.NoEarlierFamilyInStart | RebindingUI.cs:312-321 | The canonical start path contains no family name tested before it |
| ControlPath.EarlierFamiliesAbsent | RebindingUI.cs:312-321 | For every family `k`, no family tested before `k` occurs in the canonical path of `k` |
| ControlPath.CanonicalIsFixpoint | RebindingUI.cs:312-321 | Every canonical path standardises to itself |
| ControlPath.StandardizeIdempotent | RebindingUI.cs:308-324 | Standardising twice gives the same path as standardising once |
| Classifier.IsSpecialKey | RebindingUI.cs:340-343 | A key is special iff it is in the deny-list `specialKeys`; `SpecialKeysAreExactly` lists those keys |
| Classifier.IsSpecialGamdpadKey | RebindingUI.cs:345-351 | True iff the path contains "leftstick" or "dPad", compared ordinally and case-sensitively |
| Classifier.IsCancelPath | RebindingUI.cs:238 | True iff the path contains "escape" or "start" |
| Classifier.IsRefused | RebindingUI.cs:244-258 | True iff the path trips the gamepad deny check, or the control is a key control whose key is special |
| Classifier.SpecialKeysAreExactly | RebindingUI.cs:82-89 | A key is special exactly when it is Enter, Escape, Tab, CapsLock or one of F1 to F12 |
| Classifier.Classify | RebindingUI.cs:233-261 | Cancel silently iff the path contains "escape" or "start"; otherwise cancel with the notice iff the path trips the gamepad deny check or the key is special; otherwise proceed with the standardised path |
| Classifier.AcceptedNeverStandardizesToStart | RebindingUI.cs:238-242 | A control that proceeds never standardises to `<Gamepad>/start` |
| Classifier.PassesDenyCheck | RebindingUI.cs:345-351 | A path with no capital `P` and missing some character of "leftstick" passes the gamepad deny check |
| Classifier.DenyCheckRefusesNoCanonicalPath | RebindingUI.cs:345-351 | None of the ten canonical `<Gamepad>/` paths is refused by the gamepad deny check |
| Classifier.CancelMarkersInCanonicalPaths | RebindingUI.cs:238 | No canonical path contains "escape", and exactly the start path contains "start" |
| Classifier.CanonicalPathClassification | RebindingUI.cs:238-261 | A captured canonical path of a non-key control proceeds and standardises to itself, except `<Gamepad>/start`, which cancels silently |
| Classifier.CamelCaseStickAndDpadAreAccepted | RebindingUI.cs:345-351 | `<Gamepad>/leftStick` and `<Gamepad>/dpad` are not refused by the case-sensitive deny check; they proceed and standardise to themselves |
| Classifier.DenyCheckSpellingIsRefused | RebindingUI.cs:244-250 | Every control whose path contains "leftstick" or "dPad" and no cancel marker is cancelled with the notice, whatever its key |
| Classifier.JoystickDenySpellingsAreRefused | RebindingUI.cs:244-250 | The example paths `<Joystick>/leftstick` and `<Joystick>/dPad` are cancelled with the notice |
| Classifier.EscapeKeyCancelsSilently | RebindingUI.cs:238-242 | The Escape key, whose path contains "escape", cancels silently, before the key deny-list is consulted |
| Classifier.FunctionKeyIsRefused | RebindingUI.cs:252-258 | Every key control with one of F1 to F12 as its key and no cancel marker in its path is cancelled with the notice |
| Classifier.F5IsRefused | RebindingUI.cs:252-258 | The example F5 key at `<Keyboard>/f5` is cancelled with the notice |
| Classifier.AcceptedStandardizesToFirstFamily | RebindingUI.cs:260-261 | Every accepted control proceeds with the canonical path of the first family its path contains, or with its own path when it contains none |
| Classifier.DualShockSouthButtonIsAccepted | RebindingUI.cs:312 | The example path `/DualShock4GamepadHID/buttonSouth` proceeds with `<Gamepad>/buttonSouth` |
| Bindings.EffectivePath | RebindingUI.cs:269 | A binding's effective path is its override when it has one, and its default path otherwise |
| Bindings.LookupPath | RebindingUI.cs:168-181 | The path a mapping is looked up by is "<Keyboard>/None" when its button path is empty, and its button path otherwise |
| Bindings.IndexOfDefault | RebindingUI.cs:170-180 | `IndexOf`: the first index whose default path equals the path, or -1 when none does |
| Bindings.ResolveActionAndBinding | RebindingUI.cs:159-191 | Found iff the action exists and one of its bindings has the lookup path, which is "<Keyboard>/None" for an empty button path; the index is the first such binding, and -1 on failure |
| Bindings.ResolutionDependsOnLayout | RebindingUI.cs:159-191 | Resolution reads only the default paths, so overrides never change which binding a mapping resolves to |
| Bindings.Conflicts | RebindingUI.cs:269-277 | A binding conflicts iff its effective path is not empty, resolves on the device, and matches the standardised input |
| Bindings.ClearBinding | RebindingUI.cs:269-284 | A conflicting binding gets the override "" and keeps its default path; any other binding is left as it was |
| Bindings.ClearedRow | RebindingUI.cs:266-285 | The bindings of one action after clearing: same length, each binding cleared on its own |
| Bindings.ClearedConflicts | RebindingUI.cs:264-286 | The layout is kept; every binding that conflicts gets the override "", every other binding is unchanged, and afterwards no binding conflicts with the input |
| Bindings.ClearedConflictsIdempotent | RebindingUI.cs:264-286 | Clearing again with the same input changes nothing |
| Bindings.Commit | RebindingUI.cs:293-302 | The target binding's effective path becomes the captured path; every other binding is unchanged |
| Bindings.OneOwnerAfterCommit | RebindingUI.cs:264-286 | When the captured path conflicts with the input, after clearing and committing, exactly the target binding conflicts with the input |
| Bindings.ResetMapping | RebindingUI.cs:330-333 | Removing the override of one mapping's binding keeps the registry's layout |
| Bindings.ResetAll | RebindingUI.cs:328-334 | The reset over the mappings in order keeps the registry's layout |
| Bindings.ResetAllSlots | RebindingUI.cs:326-338 | After the reset, a binding some mapping resolves to has no override; every other binding is unchanged |
| Bindings.ResetRestoresDefaults | RebindingUI.cs:326-338 | After the reset, each resolved binding's effective path is its default path |
| Bindings.ResetAllIdempotent | RebindingUI.cs:326-338 | Resetting twice gives the same bindings as resetting once |
| Rebinding.RebindingUI.constructor | RebindingUI.cs:57-74 | The screen starts with no operation, not changed, its bindings taken from the arrays, and every key mapping referring to an existing action |
| Rebinding.RebindingUI.Resolve | RebindingUI.cs:159-191 | The lookup on the arrays agrees with `ResolveActionAndBinding` on the bindings |
| Rebinding.RebindingUI.CleanUp | RebindingUI.cs:219-228 | The operation is disposed and cleared and the action is enabled; the bindings are untouched |
| Rebinding.RebindingUI.Cancel | RebindingUI.cs:288-292 | Cancelling runs `CleanUp` for the operation's own action |
| Rebinding.AfterCancel | RebindingUI.cs:217-226 | Cancelling an operation enables exactly its own action and leaves the other flags unchanged |
| Rebinding.RebindingUI.PerformInteractiveRebind | RebindingUI.cs:214-231 | The previous operation, if any, is cancelled, which enables its action. A new operation on the given binding is stored iff the target action is then disabled; otherwise the input system refuses it and no operation remains |
| Rebinding.RebindingUI.StartInteractiveRebind | RebindingUI.cs:193-212 | A missing or unresolved mapping changes nothing. Otherwise the action is disabled and the previous operation cancelled. The rebind starts, on the resolved binding, iff the previous operation was not on the same action; a restart on the same action leaves no operation and the action enabled |
| Rebinding.RebindingUI.ClearConflicts | RebindingUI.cs:264-286 | The loop over all actions leaves the bindings equal to `ClearedConflicts` of the old bindings |
| Rebinding.RebindingUI.ClearActionConflicts | RebindingUI.cs:266-285 | The loop over one action's bindings replaces exactly that action's bindings by their cleared row |
| Rebinding.RebindingUI.OnPotentialMatch | RebindingUI.cs:233-287 | The verdict is `Classify`. A cancel leaves the bindings unchanged, clears the operation and enables its action. Proceeding clears the conflicts with the standardised path and keeps the operation in progress |
| Rebinding.RebindingUI.OnComplete | RebindingUI.cs:293-302 | The target binding is committed to the captured path, the settings are marked changed, and `CleanUp` runs |
| Rebinding.RebindingUI.ResetOne | RebindingUI.cs:330-333 | One pass of the reset loop leaves the bindings equal to `ResetMapping` of the old bindings: a mapping that does not resolve is skipped, otherwise its binding loses its override |
| Rebinding.RebindingUI.ResetToDefault | RebindingUI.cs:326-338 | The bindings become `ResetAll` of the old bindings over the key mappings; the settings are marked changed |
| Rebinding.SouthButtonClearsJump | RebindingUI.cs:264-286 | In the Jump/Interact example registry, with any path resolving and the standardised-path matcher, clearing on `<Gamepad>/buttonSouth` unbinds Jump's south-button binding and leaves Interact's `<Keyboard>/e` binding alone |

The methods `Rebinding.SharedButtonMovesToNewAction`,
`Rebinding.ClearedBindingsSurviveCancel` and
`Rebinding.RestartOnSameActionIsRefused` are client scenarios without a
contract of their own. The first is a Jump and Interact example: the south
button is taken from Jump, given to Interact, and both actions end up
enabled. The second presses Escape after the south button: the operation is
cancelled, but Jump stays unbound. The third shows that restarting on the same
action is refused and leaves the action enabled.

## Left out

- Display and UI: info bar, changed bar, button captions, display names,
  `UpdateBindingDisplay`, `OpenInfoBar`, `OpenChangedBar`, its timing and its
  cancellation tokens. They change no binding state.
- `SettingUIHandler.IsPopup` and the other static flags of the settings UI.
  They belong to the surrounding screen handler, not to the rebinding engine.
- Persistence (`Init`, `SaveData`, `LoadSaveData`, the JSON of overrides).
  It is outside the rebinding flow.
- `OnMatchWaitForAnother(0.1f)`: the operation waits 0.1 s for a better
  candidate before reporting a match. The model has no clock, so the callback
  is modelled as called with the chosen control.
- The Unity rebinding operation's own write of the captured path is modelled
  as `Commit` in `OnComplete`: the operation sets the override before it calls
  the completion callback. The rest of the operation's internals are out of
  scope.
- The input system's refusal to rebind an enabled action is modelled as
  `PerformInteractiveRebind` storing no operation. The exception itself and
  where it is reported are not modelled.
- `InputControlPath.TryFindControl` and `InputControlPath.Matches` are
  library code. They are parameters (`resolves`, `matches`) and are not
  defined here.
- Only one action map is modelled: the map of the action being rebound,
  which is the only one the conflict loop visits. `ResetToDefault` and
  `StartInteractiveRebind` follow the key mappings into any map of the
  `Actions` asset. The constructor's precondition that every mapping refers to
  an action of the modelled map rules out mappings into other maps.
- The Unity `Key` enumeration is reduced to the keys the deny-list names, a
  few ordinary keys, and `OtherKey` for the rest.
- Logging (`Debug.LogError`, `Debug.LogWarning`) has no effect on state.
- Classifier.SpecialKeysAreExactly: the deny-list's size (16 keys) is not
  stated as a cardinality, only as membership.
- Rebinding.RebindingUI.OnComplete: the display name of the captured control
  is not modelled, since it only feeds the changed bar.
