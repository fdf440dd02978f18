/**
 * The Python string operations the hangout backend relies on: `startswith`,
 * `find` (through `replace(old, new, 1)` and `in`) and `lower`.
 */
module Strings {
  import opened Wrappers

  /** `p` occurs in `s` starting at index `j`. */
  predicate OccursAt(s: string, p: string, j: int) {
    0 <= j && j + |p| <= |s| && s[j..j + |p|] == p
  }

  /** `s.startswith(p)` */
  predicate StartsWith(s: string, p: string)
    ensures StartsWith(s, p) <==> |p| <= |s| && forall k :: 0 <= k < |p| ==> s[k] == p[k]
  {
    OccursAt(s, p, 0)
  }

  lemma OccursShift(s: string, p: string, j: int)
    requires |s| > 0 && 0 <= j
    ensures OccursAt(s, p, j + 1) <==> OccursAt(s[1..], p, j)
  {
  }

  /** `s.find(p)`: the index of the first occurrence of `p` in `s`, if any. */
  function FindFirst(s: string, p: string): (r: Option<nat>)
    ensures r.Some? ==> OccursAt(s, p, r.value)
    ensures r.Some? ==> forall j :: 0 <= j < r.value ==> !OccursAt(s, p, j)
    ensures r.None? <==> forall j :: !OccursAt(s, p, j)
    decreases |s|
  {
    if StartsWith(s, p) then Some(0)
    else if |s| <= |p| then None
    else
      var rest := FindFirst(s[1..], p);
      assert forall j :: 0 <= j ==> (OccursAt(s, p, j + 1) <==> OccursAt(s[1..], p, j)) by {
        forall j | 0 <= j ensures OccursAt(s, p, j + 1) <==> OccursAt(s[1..], p, j) {
          OccursShift(s, p, j);
        }
      }
      assert forall j :: OccursAt(s, p, j) ==> j == 0 || OccursAt(s[1..], p, j - 1);
      if rest.None? then None else Some(rest.value + 1)
  }

  /** `p in s` */
  predicate Contains(s: string, p: string)
    ensures Contains(s, p) <==> exists j :: OccursAt(s, p, j)
  {
    FindFirst(s, p).Some?
  }

  /** `s.replace(p, q, 1)`: the first occurrence of `p` replaced by `q`. */
  function ReplaceFirst(s: string, p: string, q: string): (r: string)
    ensures FindFirst(s, p).None? ==> r == s
    ensures FindFirst(s, p).Some? ==>
      var i := FindFirst(s, p).value;
      |r| == |s| - |p| + |q| && r[..i] == s[..i] && r[i..i + |q|] == q && r[i + |q|..] == s[i + |p|..]
  {
    match FindFirst(s, p)
    case None => s
    case Some(i) => s[..i] + q + s[i + |p|..]
  }

  /** When `s` starts with `p`, the first occurrence is the prefix itself. */
  lemma ReplaceFirstAtPrefix(s: string, p: string, q: string)
    requires StartsWith(s, p)
    ensures ReplaceFirst(s, p, q) == q + s[|p|..]
  {
  }

  /** Lower-casing of one character, restricted to the ASCII letters. */
  function LowerChar(c: char): char {
    if 'A' <= c <= 'Z' then (c as int + 32) as char else c
  }

  /** `s.lower()`, on the ASCII letters. */
  function ToLower(s: string): (r: string)
    ensures |r| == |s|
    ensures forall i :: 0 <= i < |s| ==> r[i] == LowerChar(s[i])
  {
    seq(|s|, i requires 0 <= i < |s| => LowerChar(s[i]))
  }

  /** Lower-casing commutes with concatenation. */
  lemma ToLowerAppend(a: string, b: string)
    ensures ToLower(a + b) == ToLower(a) + ToLower(b)
  {
  }

  /** Lower-casing twice is lower-casing once. */
  lemma ToLowerIdempotent(s: string)
    ensures ToLower(ToLower(s)) == ToLower(s)
  {
  }
}
