/** The few `String.prototype` operations the server relies on:
    `startsWith`, `indexOf`, `replace` with a string pattern, and `includes`. */
module Text {

  /** `s.startsWith(p)`, which holds exactly when `s.indexOf(p)` is 0. */
  function StartsWith(s: string, p: string): (r: bool)
    ensures r <==> IndexOf(s, p) == 0
  {
    |p| <= |s| && s[..|p|] == p
  }

  /** `p` occurs in `s` at position `i`. */
  predicate OccursAt(s: string, p: string, i: int) {
    0 <= i && i + |p| <= |s| && s[i..i + |p|] == p
  }

  /** First position at or after `k` where `p` occurs in `s`, or -1. */
  function IndexFrom(s: string, p: string, k: nat): (r: int)
    decreases |s| - k
    ensures r == -1 || (k <= r && OccursAt(s, p, r))
    ensures forall i :: k <= i && (r == -1 || i < r) ==> !OccursAt(s, p, i)
  {
    if k + |p| > |s| then -1
    else if s[k..k + |p|] == p then k
    else IndexFrom(s, p, k + 1)
  }

  /** `s.indexOf(p)`: the first occurrence of `p` in `s`, or -1. */
  function IndexOf(s: string, p: string): (r: int)
    ensures r == -1 <==> forall i :: !OccursAt(s, p, i)
    ensures r != -1 ==> OccursAt(s, p, r) && forall i :: 0 <= i < r ==> !OccursAt(s, p, i)
  {
    IndexFrom(s, p, 0)
  }

  /** `s.includes(p)`. */
  predicate Includes(s: string, p: string) {
    IndexOf(s, p) != -1
  }

  /** `s.replace(p, q)` for a string `p`: only the first occurrence is replaced. */
  function ReplaceFirst(s: string, p: string, q: string): (r: string)
    ensures (forall i :: !OccursAt(s, p, i)) ==> r == s
    ensures forall i :: OccursAt(s, p, i) && (forall j :: 0 <= j < i ==> !OccursAt(s, p, j)) ==>
              r == s[..i] + q + s[i + |p|..]
  {
    var i := IndexOf(s, p);
    if i == -1 then s else s[..i] + q + s[i + |p|..]
  }

  /** `includes` holds exactly when the pattern occurs somewhere. */
  lemma IncludesIffOccurs(s: string, p: string)
    ensures Includes(s, p) <==> exists i :: OccursAt(s, p, i)
  {
  }

  /** Removing a prefix with `replace` leaves exactly the rest of the string:
      the first occurrence of a prefix is at position 0. */
  lemma ReplacePrefix(s: string, p: string)
    requires StartsWith(s, p)
    ensures ReplaceFirst(s, p, "") == s[|p|..]
  {
    assert OccursAt(s, p, 0);
  }

  /** A string built from a prefix starts with it, and removing it gives back the rest. */
  lemma PrefixRoundTrip(p: string, t: string)
    ensures StartsWith(p + t, p)
    ensures ReplaceFirst(p + t, p, "") == t
  {
    assert (p + t)[..|p|] == p;
    ReplacePrefix(p + t, p);
    assert (p + t)[|p|..] == t;
  }
}
