/**
 * Go's `strings.Trim(s, "\n ")`: remove every leading and every trailing
 * character that belongs to the cut set {'\n', ' '}, and nothing else.
 * The command dispatcher and the STRING handler both normalise their lines
 * with it (main.go:115 and main.go:134).
 */
module Trimming {

  /** The cut set "\n ": newline and space, and no other character. */
  predicate IsCut(c: char) {
    c == '\n' || c == ' '
  }

  /** `i..j` delimits the kept part of `s`: everything outside it is in the cut
      set and, when it is not empty, it starts and ends outside the cut set. */
  ghost predicate TrimmedAt(s: string, i: int, j: int) {
    && 0 <= i <= j <= |s|
    && (forall k :: 0 <= k < i ==> IsCut(s[k]))
    && (forall k :: j <= k < |s| ==> IsCut(s[k]))
    && (i < j ==> !IsCut(s[i]) && !IsCut(s[j - 1]))
  }

  /** Number of cut characters at the front of `s` (the scan of `TrimLeft`). */
  function LeadingCut(s: string): (n: nat)
    ensures n <= |s|
    ensures forall k :: 0 <= k < n ==> IsCut(s[k])
    ensures n < |s| ==> !IsCut(s[n])
  {
    if |s| == 0 || !IsCut(s[0]) then 0 else 1 + LeadingCut(s[1..])
  }

  /** Number of cut characters at the back of `s` (the scan of `TrimRight`). */
  function TrailingCut(s: string): (n: nat)
    ensures n <= |s|
    ensures forall k :: |s| - n <= k < |s| ==> IsCut(s[k])
    ensures n < |s| ==> !IsCut(s[|s| - n - 1])
  {
    if |s| == 0 || !IsCut(s[|s| - 1]) then 0 else 1 + TrailingCut(s[..|s| - 1])
  }

  function TrimLeft(s: string): (r: string)
    ensures |r| <= |s| && r == s[|s| - |r|..]
    ensures forall k :: 0 <= k < |s| - |r| ==> IsCut(s[k])
    ensures r == [] || !IsCut(r[0])
  {
    s[LeadingCut(s)..]
  }

  function TrimRight(s: string): (r: string)
    ensures |r| <= |s| && r == s[..|r|]
    ensures forall k :: |r| <= k < |s| ==> IsCut(s[k])
    ensures r == [] || !IsCut(r[|r| - 1])
  {
    s[..|s| - TrailingCut(s)]
  }

  /** `strings.Trim(s, "\n ")`: trim both ends. The
      result is the slice of `s` that `TrimmedAt` describes. */
  function Trim(s: string): (r: string)
    ensures TrimmedAt(s, LeadingCut(s), LeadingCut(s) + |r|)
    ensures r == s[LeadingCut(s)..LeadingCut(s) + |r|]
  {
    TrimRight(TrimLeft(s))
  }

  /** Nothing but the cut characters at the two ends is removed: any slice
      `s[i..j]` that `TrimmedAt` describes is exactly what `Trim` returns. */
  lemma TrimUnique(s: string, i: int, j: int)
    requires TrimmedAt(s, i, j)
    ensures Trim(s) == s[i..j]
  {
    var n := LeadingCut(s);
    var m := n + |Trim(s)|;
    assert TrimmedAt(s, n, m);
    if i < j {
      // the first and the last kept characters pin both ends of the slice
      assert !IsCut(s[i]) && !IsCut(s[j - 1]);
      assert n == i;
      assert m == j;
    } else {
      // every character of s is cut, so nothing is kept
      assert forall k :: 0 <= k < |s| ==> IsCut(s[k]);
      assert m == n;
    }
  }

  /** Trimming a trimmed string changes nothing. */
  lemma TrimIdempotent(s: string)
    ensures Trim(Trim(s)) == Trim(s)
  {
    var r := Trim(s);
    assert TrimmedAt(r, 0, |r|);
    TrimUnique(r, 0, |r|);
  }
}
