/** The Kotlin string operations the scanner uses, on `seq<char>`.
    Case conversion covers ASCII letters only. */
module Text {
  import opened Wrappers

  function LowerChar(c: char): char {
    if 'A' <= c <= 'Z' then (c as int + 32) as char else c
  }

  /** `lowercase()` restricted to ASCII letters. */
  function Lowercase(s: string): (r: string)
    ensures |r| == |s|
    ensures forall i :: 0 <= i < |s| ==> r[i] == LowerChar(s[i])
  {
    seq(|s|, i requires 0 <= i < |s| => LowerChar(s[i]))
  }

  /** ASCII case folding: no upper-case ASCII letter is left, an upper-case letter becomes
      its lower-case letter, every other character is unchanged, and folding twice is
      folding once. */
  lemma LowercaseFacts(s: string)
    ensures forall i :: 0 <= i < |s| ==> !('A' <= Lowercase(s)[i] <= 'Z')
    ensures forall i :: 0 <= i < |s| && 'A' <= s[i] <= 'Z' ==>
              'a' <= Lowercase(s)[i] <= 'z' && Lowercase(s)[i] as int - s[i] as int == 32
    ensures forall i :: 0 <= i < |s| && !('A' <= s[i] <= 'Z') ==> Lowercase(s)[i] == s[i]
    ensures Lowercase(Lowercase(s)) == Lowercase(s)
  {
  }

  /** `d` occurs in `s` starting at index `i`. */
  predicate OccursAt(s: string, d: string, i: nat) {
    i + |d| <= |s| && s[i..i + |d|] == d
  }

  /** `indexOf(d)`: the first occurrence of `d` at or after `from`, `None` for -1. */
  function IndexOfFrom(s: string, d: string, from: nat): (r: Option<nat>)
    ensures r.Some? ==> from <= r.value && OccursAt(s, d, r.value)
    ensures r.Some? ==> forall j :: from <= j < r.value ==> !OccursAt(s, d, j)
    ensures r.None? ==> forall j :: from <= j ==> !OccursAt(s, d, j)
    decreases |s| - from
  {
    if from + |d| > |s| then None
    else if s[from..from + |d|] == d then Some(from)
    else IndexOfFrom(s, d, from + 1)
  }

  /** `substringAfter(d)`: the text after the first occurrence of `d`, or all of `s`
      when `d` does not occur. */
  function SubstringAfter(s: string, d: string): (r: string)
    ensures (forall j: nat :: !OccursAt(s, d, j)) ==> r == s
    ensures forall i: nat :: OccursAt(s, d, i) && (forall j: nat :: j < i ==> !OccursAt(s, d, j)) ==>
              r == s[i + |d|..]
  {
    match IndexOfFrom(s, d, 0)
    case Some(i) => s[i + |d|..]
    case None => s
  }

  /** When `s` starts with `d`, the first occurrence is the one at the start. */
  lemma SubstringAfterPrefix(d: string, rest: string)
    ensures SubstringAfter(d + rest, d) == rest
  {
    assert OccursAt(d + rest, d, 0);
  }

  /** `lastIndexOf(c)`, `None` for -1. */
  function LastIndexOf(s: string, c: char): (r: Option<nat>)
    ensures r.Some? ==> r.value < |s| && s[r.value] == c && c !in s[r.value + 1..]
    ensures r.None? <==> c !in s
  {
    if s == [] then None
    else if s[|s| - 1] == c then Some(|s| - 1)
    else
      var r := LastIndexOf(s[..|s| - 1], c);
      assert s == s[..|s| - 1] + [s[|s| - 1]];
      if r.Some? then assert s[r.value + 1..] == s[..|s| - 1][r.value + 1..] + [s[|s| - 1]]; r
      else r
  }

  /** `d` occurs in `s` at index `i` when both are compared ignoring ASCII case. */
  predicate OccursIgnoreCaseAt(s: string, d: string, i: nat) {
    i + |d| <= |s| && forall k :: 0 <= k < |d| ==> LowerChar(s[i + k]) == LowerChar(d[k])
  }

  /** An occurrence past the first index of `s` is an occurrence in `s[1..]`. */
  lemma OccursIgnoreCaseShift(s: string, d: string, i: nat)
    requires |s| > 0
    ensures OccursIgnoreCaseAt(s, d, i + 1) <==> OccursIgnoreCaseAt(s[1..], d, i)
  {
    var t := s[1..];
    assert forall k :: 0 <= k < |t| ==> t[k] == s[k + 1];
  }

  /** `contains(d, ignoreCase = true)`. */
  function ContainsIgnoreCase(s: string, d: string): (r: bool)
    ensures r <==> exists i: nat :: OccursIgnoreCaseAt(s, d, i)
    decreases |s|
  {
    if |s| < |d| then
      false
    else if OccursIgnoreCaseAt(s, d, 0) then
      true
    else
      var r := ContainsIgnoreCase(s[1..], d);
      if r then
        var i: nat :| OccursIgnoreCaseAt(s[1..], d, i);
        OccursIgnoreCaseShift(s, d, i);
        true
      else
        forall i: nat ensures !OccursIgnoreCaseAt(s, d, i) {
          if i > 0 {
            OccursIgnoreCaseShift(s, d, i - 1);
          }
        }
        false
  }
}
