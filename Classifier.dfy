/**
 * The capture classifier of the rebinding screen: the decision taken when the
 * interactive rebinding reports a potential match, before any binding is
 * touched.
 */
module Classifier {
  import opened Wrappers
  import opened Strings
  import opened ControlPath

  /**
   * The keyboard keys the classifier distinguishes. `OtherKey` stands for any
   * other member of the input system's key enumeration.
   */
  datatype Key =
    | Enter | Escape | Tab | CapsLock
    | F1 | F2 | F3 | F4 | F5 | F6 | F7 | F8 | F9 | F10 | F11 | F12
    | Space | Backspace | LeftShift | LeftCtrl | UpArrow | DownArrow | LeftArrow | RightArrow
    | OtherKey(id: nat)

  /** `specialKeys`: the keys that may never be bound. */
  const SpecialKeys: set<Key> :=
    {Enter, Escape, Tab, CapsLock, F1, F2, F3, F4, F5, F6, F7, F8, F9, F10, F11, F12}

  /** The function-row keys F1 to F12. */
  predicate IsFunctionKey(k: Key) {
    k.F1? || k.F2? || k.F3? || k.F4? || k.F5? || k.F6? ||
    k.F7? || k.F8? || k.F9? || k.F10? || k.F11? || k.F12?
  }

  /** `IsSpecialKey`: membership in the deny-list of keys. */
  predicate IsSpecialKey(k: Key) {
    k in SpecialKeys
  }

  /**
   * `IsSpecialGamdpadKey` (spelled as in the source): the path contains
   * "leftstick" or "dPad", compared case-sensitively.
   */
  predicate IsSpecialGamdpadKey(controlPath: string) {
    Contains(controlPath, "leftstick") || Contains(controlPath, "dPad")
  }

  /** The control being captured: its path and, for a key control, its key code. */
  datatype CapturedControl = CapturedControl(path: string, keyCode: Option<Key>)

  /** What the potential-match callback decides. */
  datatype Verdict =
    | CancelSilently               // cancel marker: the operation is cancelled, nothing is shown
    | CancelWithNotice             // special key or control: cancelled, the "special key" notice is shown
    | Proceed(standardized: string) // go on to conflict clearing with the standardised path

  /** The path carries a cancel marker. */
  predicate IsCancelPath(path: string) {
    Contains(path, "escape") || Contains(path, "start")
  }

  /** The control is one the screen refuses to bind. */
  predicate IsRefused(c: CapturedControl) {
    IsSpecialGamdpadKey(c.path) || (c.keyCode.Some? && IsSpecialKey(c.keyCode.value))
  }

  /** The decision sequence of the potential-match callback, in the source's order. */
  function Classify(c: CapturedControl): (v: Verdict)
    ensures v.CancelSilently? <==> IsCancelPath(c.path)
    ensures v.CancelWithNotice? <==> !IsCancelPath(c.path) && IsRefused(c)
    ensures v.Proceed? <==> !IsCancelPath(c.path) && !IsRefused(c)
    ensures v.Proceed? ==> v.standardized == StandardizeControlPath(c.path)
  {
    if Contains(c.path, "escape") || Contains(c.path, "start") then
      CancelSilently
    else if IsSpecialGamdpadKey(c.path) then
      CancelWithNotice
    else if c.keyCode.Some? && IsSpecialKey(c.keyCode.value) then
      CancelWithNotice
    else
      Proceed(StandardizeControlPath(c.path))
  }

  /**
   * The deny-list holds exactly Enter, Escape, Tab, CapsLock and the twelve
   * function keys.
   */
  lemma SpecialKeysAreExactly(k: Key)
    ensures IsSpecialKey(k) <==>
      k == Enter || k == Escape || k == Tab || k == CapsLock || IsFunctionKey(k)
  {
  }

  /**
   * A control accepted by the classifier never standardises to the
   * `<Gamepad>/start` family: every path containing "start" is cancelled first.
   */
  lemma AcceptedNeverStandardizesToStart(c: CapturedControl)
    requires Classify(c).Proceed?
    ensures Classify(c).standardized != "<Gamepad>/start"
  {
    StandardizeIsFirstMatch(c.path);
    var r := FirstFamily(c.path);
    if r.None? {
      if c.path == "<Gamepad>/start" {
        assert OccursAt(c.path, "start", 10);
      }
    } else {
      assert r.value != 9;
    }
  }

  /** A path without the capital `P` and without some character of "leftstick" passes the deny check. */
  lemma PassesDenyCheck(s: string, c: char)
    requires 'P' !in s && c in "leftstick" && c !in s
    ensures !IsSpecialGamdpadKey(s)
  {
    MissingChar(s, "dPad", 'P');
    MissingChar(s, "leftstick", c);
  }

  /**
   * The deny check refuses none of the ten canonical paths: each lacks a
   * character of "leftstick", and none has the capital `P` of "dPad".
   */
  lemma DenyCheckRefusesNoCanonicalPath(k: nat)
    requires k < |Families|
    ensures !IsSpecialGamdpadKey(CanonicalPaths[k])
  {
    if k == 0 {
      PassesDenyCheck("<Gamepad>/buttonSouth", 's');
    } else if k == 1 {
      PassesDenyCheck("<Gamepad>/buttonNorth", 's');
    } else if k == 2 {
      PassesDenyCheck("<Gamepad>/buttonEast", 'k');
    } else if k == 3 {
      PassesDenyCheck("<Gamepad>/buttonWest", 'k');
    } else if k == 4 {
      PassesDenyCheck("<Gamepad>/leftStick", 's');
    } else if k == 5 {
      PassesDenyCheck("<Gamepad>/rightStick", 's');
    } else if k == 6 {
      PassesDenyCheck("<Gamepad>/dpad", 's');
    } else if k == 7 {
      PassesDenyCheck("<Gamepad>/leftTrigger", 's');
    } else if k == 8 {
      PassesDenyCheck("<Gamepad>/rightTrigger", 's');
    } else {
      PassesDenyCheck("<Gamepad>/start", 'l');
    }
  }

  /**
   * No canonical path carries the "escape" marker, and only the start path
   * carries the "start" marker.
   */
  lemma CancelMarkersInCanonicalPaths(k: nat)
    requires k < |Families|
    ensures !Contains(CanonicalPaths[k], "escape")
    ensures Contains(CanonicalPaths[k], "start") <==> k == 9
  {
    var s := CanonicalPaths[k];
    MissingChar(s, "escape", if k == 4 || k == 5 then 's' else 'c');
    if k == 9 {
      assert OccursAt(s, "start", 10);
    } else {
      MissingChar(s, "start", if k == 2 || k == 3 then 'r' else 's');
    }
  }

  /**
   * A captured canonical path (of a control that is not a key) is accepted and
   * standardises to itself, except the start path, which cancels silently.
   */
  lemma CanonicalPathClassification(k: nat)
    requires k < |Families|
    ensures k < 9 ==> Classify(CapturedControl(CanonicalPaths[k], None)) == Proceed(CanonicalPaths[k])
    ensures k == 9 ==> Classify(CapturedControl(CanonicalPaths[k], None)) == CancelSilently
  {
    CancelMarkersInCanonicalPaths(k);
    DenyCheckRefusesNoCanonicalPath(k);
    CanonicalIsFixpoint(k);
  }

  /**
   * The gamepad deny check tests "leftstick" and "dPad", while the input
   * system names these controls "leftStick" and "dpad": the canonical left
   * stick and directional-pad paths are therefore not refused but accepted,
   * and standardise to themselves.
   */
  lemma CamelCaseStickAndDpadAreAccepted()
    ensures Classify(CapturedControl("<Gamepad>/leftStick", None)) == Proceed("<Gamepad>/leftStick")
    ensures Classify(CapturedControl("<Gamepad>/dpad", None)) == Proceed("<Gamepad>/dpad")
  {
    CanonicalPathClassification(4);
    CanonicalPathClassification(6);
  }

  /** A path naming "leftstick" or "dPad" and no cancel marker is refused with the notice, whatever its key. */
  lemma DenyCheckSpellingIsRefused(c: CapturedControl)
    requires Contains(c.path, "leftstick") || Contains(c.path, "dPad")
    requires !IsCancelPath(c.path)
    ensures Classify(c) == CancelWithNotice
  {
  }

  /** Two joystick paths spelled as the deny check expects are refused with the notice. */
  lemma JoystickDenySpellingsAreRefused()
    ensures Classify(CapturedControl("<Joystick>/leftstick", None)) == CancelWithNotice
    ensures Classify(CapturedControl("<Joystick>/dPad", None)) == CancelWithNotice
  {
    var stick, pad := "<Joystick>/leftstick", "<Joystick>/dPad";
    MissingChar(stick, "escape", 'a');
    MissingChar(stick, "start", 'a');
    assert OccursAt(stick, "leftstick", 11);
    DenyCheckSpellingIsRefused(CapturedControl(stick, None));
    MissingChar(pad, "escape", 'e');
    MissingChar(pad, "start", 'r');
    assert OccursAt(pad, "dPad", 11);
    DenyCheckSpellingIsRefused(CapturedControl(pad, None));
  }

  /**
   * The Escape key cancels silently through its path, before the deny-list
   * of keys (which also holds Escape) is consulted.
   */
  lemma EscapeKeyCancelsSilently()
    ensures Classify(CapturedControl("<Keyboard>/escape", Some(Escape))) == CancelSilently
  {
    assert OccursAt("<Keyboard>/escape", "escape", 11);
  }

  /** A function-row key whose path has no cancel marker is refused with the notice. */
  lemma FunctionKeyIsRefused(c: CapturedControl)
    requires c.keyCode.Some? && IsFunctionKey(c.keyCode.value)
    requires !IsCancelPath(c.path)
    ensures Classify(c) == CancelWithNotice
  {
  }

  /** F5, captured as "<Keyboard>/f5", is refused with the notice. */
  lemma F5IsRefused()
    ensures Classify(CapturedControl("<Keyboard>/f5", Some(F5))) == CancelWithNotice
  {
    var p := "<Keyboard>/f5";
    MissingChar(p, "escape", 's');
    MissingChar(p, "start", 's');
    FunctionKeyIsRefused(CapturedControl(p, Some(F5)));
  }

  /**
   * An accepted control standardises to the canonical path of the first family
   * whose name its path contains, and keeps its path when it contains none.
   */
  lemma AcceptedStandardizesToFirstFamily(c: CapturedControl)
    requires !IsCancelPath(c.path) && !IsRefused(c)
    ensures FirstFamily(c.path).Some? ==> Classify(c) == Proceed(CanonicalPaths[FirstFamily(c.path).value])
    ensures FirstFamily(c.path).None? ==> Classify(c) == Proceed(c.path)
  {
    StandardizeIsFirstMatch(c.path);
  }

  /** A device-specific south-button path is accepted and standardised to its family. */
  lemma DualShockSouthButtonIsAccepted()
    ensures Classify(CapturedControl("/DualShock4GamepadHID/buttonSouth", None))
         == Proceed("<Gamepad>/buttonSouth")
  {
    var p := "/DualShock4GamepadHID/buttonSouth";
    MissingChar(p, "escape", 's');
    MissingChar(p, "start", 's');
    MissingChar(p, "leftstick", 's');
    MissingChar(p, "dPad", 'P');
    assert OccursAt(p, Families[0], 22);
    AcceptedStandardizesToFirstFamily(CapturedControl(p, None));
  }
}
