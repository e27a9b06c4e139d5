/**
 * Ordinal, case-sensitive substring search on strings, as done by
 * `string.Contains(string)` of the .NET base library.
 */
module Strings {

  /** `sub` occurs in `s` at position `k`. */
  predicate OccursAt(s: string, sub: string, k: nat) {
    k + |sub| <= |s| && s[k..k + |sub|] == sub
  }

  /** `sub` occurs somewhere in `s` (the empty string occurs everywhere). */
  predicate Contains(s: string, sub: string) {
    exists k: nat | k <= |s| :: OccursAt(s, sub, k)
  }

  /** If some character of `sub` does not occur in `s`, then `sub` does not occur in `s`. */
  lemma MissingChar(s: string, sub: string, c: char)
    requires c in sub && c !in s
    ensures !Contains(s, sub)
  {
    var j :| 0 <= j < |sub| && sub[j] == c;
    forall k: nat | k + |sub| <= |s|
      ensures !OccursAt(s, sub, k)
    {
      assert s[k..k + |sub|][j] == s[k + j] != c;
    }
  }
}
