/** The left-to-right "running maximum" scans of the aggregator: `Array.prototype.reduce`
    keeping the current best, and lodash `maxBy`. Both replace the running best only
    when a strictly greater score arrives, so the first maximal element wins. */
module Extremum {
  import opened Wrappers

  /** `s[i]` has the greatest score in `s`, and every earlier element scores strictly less. */
  predicate IsFirstMax<T>(s: seq<T>, score: T -> int, i: int) {
    && 0 <= i < |s|
    && (forall j :: 0 <= j < |s| ==> score(s[j]) <= score(s[i]))
    && (forall j :: 0 <= j < i ==> score(s[j]) < score(s[i]))
  }

  /** One step of the scan: `score(x) > score(best) ? x : best`. */
  function Keep<T>(best: T, x: T, score: T -> int): T {
    if score(x) > score(best) then x else best
  }

  /** Folds Keep over `rest`, starting from `best`. */
  function Scan<T>(best: T, rest: seq<T>, score: T -> int): T
    decreases |rest|
  {
    if |rest| == 0 then best else Scan(Keep(best, rest[0], score), rest[1..], score)
  }

  /** If `s[m]` is the first maximum of the prefix `s[..k]`, scanning the rest of `s`
      from `s[m]` ends at the first maximum of all of `s`. */
  lemma {:induction false} ScanFindsFirstMax<T>(s: seq<T>, score: T -> int, m: int, k: int)
    requires 0 <= m < |s| && 0 <= k <= |s|
    requires forall j :: 0 <= j < k ==> score(s[j]) <= score(s[m])
    requires forall j :: 0 <= j < m ==> score(s[j]) < score(s[m])
    ensures exists i :: IsFirstMax(s, score, i) && Scan(s[m], s[k..], score) == s[i]
    decreases |s| - k
  {
    if k == |s| {
      assert IsFirstMax(s, score, m);
    } else {
      assert s[k..][1..] == s[k + 1..];
      if score(s[k]) > score(s[m]) {
        ScanFindsFirstMax(s, score, k, k + 1);
      } else {
        ScanFindsFirstMax(s, score, m, k + 1);
      }
    }
  }

  /** There is only one first maximum. */
  lemma FirstMaxUnique<T>(s: seq<T>, score: T -> int, i: int, j: int)
    requires IsFirstMax(s, score, i) && IsFirstMax(s, score, j)
    ensures i == j
  {
    // Both are maxima, so they score the same; neither can be strictly
    // greater than the other, which rules out i < j and j < i.
    assert score(s[i]) <= score(s[j]) && score(s[j]) <= score(s[i]);
  }

  /** lodash `maxBy`: the first element with the greatest score, or none for an empty input. */
  function MaxBy<T>(s: seq<T>, score: T -> int): (r: Option<T>)
    ensures r.None? <==> |s| == 0
    ensures r.Some? ==> exists i :: IsFirstMax(s, score, i) && r.value == s[i]
  {
    if |s| == 0 then None
    else
      ScanFindsFirstMax(s, score, 0, 1);
      Some(Scan(s[0], s[1..], score))
  }
}
