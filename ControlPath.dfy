/**
 * The control-path standardiser of the rebinding screen: a raw control path
 * is mapped to the canonical `<Gamepad>/...` path of the first control family
 * whose name it contains, or returned unchanged.
 */
module ControlPath {
  import opened Wrappers
  import opened Strings

  const GamepadPrefix: string := "<Gamepad>/"

  /** The family names, in the order in which the standardiser tests them. */
  const Families: seq<string> := [
    "buttonSouth", "buttonNorth", "buttonEast", "buttonWest", "leftStick",
    "rightStick", "dpad", "leftTrigger", "rightTrigger", "start"
  ]

  /** The canonical path of each family, in the same order. */
  const CanonicalPaths: seq<string> := [
    "<Gamepad>/buttonSouth", "<Gamepad>/buttonNorth", "<Gamepad>/buttonEast",
    "<Gamepad>/buttonWest", "<Gamepad>/leftStick", "<Gamepad>/rightStick",
    "<Gamepad>/dpad", "<Gamepad>/leftTrigger", "<Gamepad>/rightTrigger",
    "<Gamepad>/start"
  ]

  /** `StandardizeControlPath`: the ordered chain of substring tests of the source. */
  function StandardizeControlPath(path: string): (r: string)
    ensures r == path || r in CanonicalPaths
  {
    if Contains(path, "buttonSouth") then "<Gamepad>/buttonSouth"      // A / Cross
    else if Contains(path, "buttonNorth") then "<Gamepad>/buttonNorth" // Y / Triangle
    else if Contains(path, "buttonEast") then "<Gamepad>/buttonEast"   // B / Circle
    else if Contains(path, "buttonWest") then "<Gamepad>/buttonWest"   // X / Square
    else if Contains(path, "leftStick") then "<Gamepad>/leftStick"
    else if Contains(path, "rightStick") then "<Gamepad>/rightStick"
    else if Contains(path, "dpad") then "<Gamepad>/dpad"
    else if Contains(path, "leftTrigger") then "<Gamepad>/leftTrigger"
    else if Contains(path, "rightTrigger") then "<Gamepad>/rightTrigger"
    else if Contains(path, "start") then "<Gamepad>/start"
    else path
  }

  /**
   * Reference definition of the first-match rule: the index of the first
   * family, from `k` on, whose name occurs in `path`.
   */
  function FirstFamilyFrom(path: string, k: nat): (r: Option<nat>)
    requires k <= |Families|
    ensures r.Some? ==> k <= r.value < |Families| && Contains(path, Families[r.value])
    ensures forall j :: k <= j < |Families| && (r.None? || j < r.value) ==> !Contains(path, Families[j])
    decreases |Families| - k
  {
    if k == |Families| then None
    else if Contains(path, Families[k]) then Some(k)
    else FirstFamilyFrom(path, k + 1)
  }

  /** The first family whose name occurs in `path`, if any. */
  function FirstFamily(path: string): Option<nat> {
    FirstFamilyFrom(path, 0)
  }

  /**
   * The standardiser returns the canonical path of the first family whose name
   * the path contains, and the path itself when it contains none of them.
   */
  lemma StandardizeIsFirstMatch(path: string)
    ensures FirstFamily(path).None? ==> StandardizeControlPath(path) == path
    ensures FirstFamily(path).Some? ==>
      StandardizeControlPath(path) == CanonicalPaths[FirstFamily(path).value]
  {
    assert FirstFamilyFrom(path, 0) == if Contains(path, "buttonSouth") then Some(0) else FirstFamilyFrom(path, 1);
    assert FirstFamilyFrom(path, 1) == if Contains(path, "buttonNorth") then Some(1) else FirstFamilyFrom(path, 2);
    assert FirstFamilyFrom(path, 2) == if Contains(path, "buttonEast") then Some(2) else FirstFamilyFrom(path, 3);
    assert FirstFamilyFrom(path, 3) == if Contains(path, "buttonWest") then Some(3) else FirstFamilyFrom(path, 4);
    assert FirstFamilyFrom(path, 4) == if Contains(path, "leftStick") then Some(4) else FirstFamilyFrom(path, 5);
    assert FirstFamilyFrom(path, 5) == if Contains(path, "rightStick") then Some(5) else FirstFamilyFrom(path, 6);
    assert FirstFamilyFrom(path, 6) == if Contains(path, "dpad") then Some(6) else FirstFamilyFrom(path, 7);
    assert FirstFamilyFrom(path, 7) == if Contains(path, "leftTrigger") then Some(7) else FirstFamilyFrom(path, 8);
    assert FirstFamilyFrom(path, 8) == if Contains(path, "rightTrigger") then Some(8) else FirstFamilyFrom(path, 9);
    assert FirstFamilyFrom(path, 9) == if Contains(path, "start") then Some(9) else FirstFamilyFrom(path, 10);
  }

  /** "dpad" does not occur in `<Gamepad>/x` when `x` has no `d`. */
  lemma DpadNotInGamepadPath(x: string)
    requires 'd' !in x
    ensures !Contains("<Gamepad>/" + x, "dpad")
  {
    var s := "<Gamepad>/" + x;
    forall k: nat | k + 4 <= |s|
      ensures !OccursAt(s, "dpad", k)
    {
      if k >= 10 {
        assert s[k..k + 4][0] == s[k] == x[k - 10] != 'd';
      } else if k == 7 {
        assert s[k..k + 4][1] == s[k + 1] == '>';
      } else {
        assert s[k..k + 4][0] == s[k] != 'd';
      }
    }
  }

  /*
   * No family tested before family `k` occurs in the canonical path of `k`.
   * Each earlier family is told apart by a character it has and the path
   * lacks, except "dpad", which needs the position-wise argument above.
   */

  lemma NoEarlierFamilyInButtonNorth()
    ensures forall j :: 0 <= j < 1 ==> !Contains(CanonicalPaths[1], Families[j])
  {
    var s := CanonicalPaths[1];
    forall j | 0 <= j < 1
      ensures !Contains(s, Families[j])
    {
      MissingChar(s, Families[j], 'S');
    }
  }

  lemma NoEarlierFamilyInButtonEast()
    ensures forall j :: 0 <= j < 2 ==> !Contains(CanonicalPaths[2], Families[j])
  {
    var s := CanonicalPaths[2];
    forall j | 0 <= j < 2
      ensures !Contains(s, Families[j])
    {
      MissingChar(s, Families[j], if j == 0 then 'S' else 'N');
    }
  }

  lemma NoEarlierFamilyInButtonWest()
    ensures forall j :: 0 <= j < 3 ==> !Contains(CanonicalPaths[3], Families[j])
  {
    var s := CanonicalPaths[3];
    forall j | 0 <= j < 3
      ensures !Contains(s, Families[j])
    {
      MissingChar(s, Families[j], if j == 0 then 'S' else if j == 1 then 'N' else 'E');
    }
  }

  lemma NoEarlierFamilyInLeftStick()
    ensures forall j :: 0 <= j < 4 ==> !Contains(CanonicalPaths[4], Families[j])
  {
    var s := CanonicalPaths[4];
    forall j | 0 <= j < 4
      ensures !Contains(s, Families[j])
    {
      MissingChar(s, Families[j], 'b');
    }
  }

  lemma NoEarlierFamilyInRightStick()
    ensures forall j :: 0 <= j < 5 ==> !Contains(CanonicalPaths[5], Families[j])
  {
    var s := CanonicalPaths[5];
    forall j | 0 <= j < 5
      ensures !Contains(s, Families[j])
    {
      MissingChar(s, Families[j], if j < 4 then 'b' else 'l');
    }
  }

  lemma NoEarlierFamilyInDpad()
    ensures forall j :: 0 <= j < 6 ==> !Contains(CanonicalPaths[6], Families[j])
  {
    var s := CanonicalPaths[6];
    forall j | 0 <= j < 6
      ensures !Contains(s, Families[j])
    {
      MissingChar(s, Families[j], if j < 4 then 'b' else if j == 4 then 'l' else 'r');
    }
  }

  lemma NoEarlierFamilyInLeftTrigger()
    ensures forall j :: 0 <= j < 7 ==> !Contains(CanonicalPaths[7], Families[j])
  {
    var s := CanonicalPaths[7];
    forall j | 0 <= j < 7
      ensures !Contains(s, Families[j])
    {
      if j < 6 {
        MissingChar(s, Families[j], if j < 4 then 'b' else if j == 4 then 'S' else 'h');
      } else {
        DpadNotInGamepadPath("leftTrigger");
        assert s == "<Gamepad>/" + "leftTrigger";
      }
    }
  }

  lemma NoEarlierFamilyInRightTrigger()
    ensures forall j :: 0 <= j < 8 ==> !Contains(CanonicalPaths[8], Families[j])
  {
    var s := CanonicalPaths[8];
    forall j | 0 <= j < 8
      ensures !Contains(s, Families[j])
    {
      if j == 6 {
        DpadNotInGamepadPath("rightTrigger");
        assert s == "<Gamepad>/" + "rightTrigger";
      } else {
        MissingChar(s, Families[j], if j < 4 then 'b' else if j == 5 then 'S' else 'l');
      }
    }
  }

  lemma NoEarlierFamilyInStart()
    ensures forall j :: 0 <= j < 9 ==> !Contains(CanonicalPaths[9], Families[j])
  {
    var s := CanonicalPaths[9];
    forall j | 0 <= j < 9
      ensures !Contains(s, Families[j])
    {
      if j == 6 {
        DpadNotInGamepadPath("start");
        assert s == "<Gamepad>/" + "start";
      } else {
        MissingChar(s, Families[j], if j < 4 then 'b' else if j == 4 || j == 7 then 'l' else 'i');
      }
    }
  }

  /** No family tested before family `k` occurs in the canonical path of `k`. */
  lemma EarlierFamiliesAbsent(k: nat)
    requires k < |Families|
    ensures forall j :: 0 <= j < k ==> !Contains(CanonicalPaths[k], Families[j])
  {
    if k == 1 {
      NoEarlierFamilyInButtonNorth();
    } else if k == 2 {
      NoEarlierFamilyInButtonEast();
    } else if k == 3 {
      NoEarlierFamilyInButtonWest();
    } else if k == 4 {
      NoEarlierFamilyInLeftStick();
    } else if k == 5 {
      NoEarlierFamilyInRightStick();
    } else if k == 6 {
      NoEarlierFamilyInDpad();
    } else if k == 7 {
      NoEarlierFamilyInLeftTrigger();
    } else if k == 8 {
      NoEarlierFamilyInRightTrigger();
    } else if k == 9 {
      NoEarlierFamilyInStart();
    }
  }

  /** Each canonical path is the gamepad prefix followed by the family name. */
  lemma CanonicalPathIsPrefixed(k: nat)
    requires k < |Families|
    ensures CanonicalPaths[k] == GamepadPrefix + Families[k]
  {
  }

  /** Every canonical path standardises to itself. */
  lemma CanonicalIsFixpoint(k: nat)
    requires k < |Families|
    ensures StandardizeControlPath(CanonicalPaths[k]) == CanonicalPaths[k]
  {
    var s := CanonicalPaths[k];
    EarlierFamiliesAbsent(k);
    CanonicalPathIsPrefixed(k);
    assert s[|GamepadPrefix|..|GamepadPrefix| + |Families[k]|] == Families[k];
    assert OccursAt(s, Families[k], |GamepadPrefix|);
    StandardizeIsFirstMatch(s);
  }

  /** Standardising twice gives the same path as standardising once. */
  lemma StandardizeIdempotent(path: string)
    ensures StandardizeControlPath(StandardizeControlPath(path)) == StandardizeControlPath(path)
  {
    StandardizeIsFirstMatch(path);
    var r := FirstFamily(path);
    if r.Some? {
      CanonicalIsFixpoint(r.value);
    }
  }
}
