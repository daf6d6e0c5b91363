/**
 * The `str` operations the pipeline relies on (`starts_with`, `ends_with`, `find`,
 * `rfind`, `trim_start_matches`), stated on sequences. Strings are `seq<char>`, so offsets
 * count characters where Rust counts bytes. The two differ once a non-ASCII character
 * precedes a match, but the patterns are ASCII, so the prefixes and suffixes cut at a match
 * are the same text either way.
 */
module Strings {
  import opened Wrappers

  predicate StartsWith<T(==)>(s: seq<T>, p: seq<T>) {
    |p| <= |s| && s[..|p|] == p
  }

  predicate EndsWith<T(==)>(s: seq<T>, p: seq<T>) {
    |p| <= |s| && s[|s| - |p|..] == p
  }

  /** `p` occurs in `s` starting at index `i`. */
  predicate OccursAt<T(==)>(s: seq<T>, p: seq<T>, i: nat) {
    i + |p| <= |s| && s[i..i + |p|] == p
  }

  predicate Contains<T(==)>(s: seq<T>, p: seq<T>) {
    exists i: nat :: i <= |s| && OccursAt(s, p, i)
  }

  /** The first occurrence of `p` in `s` at or after `from`. */
  function FindFrom<T(==)>(s: seq<T>, p: seq<T>, from: nat): (r: Option<nat>)
    requires from <= |s|
    ensures r.Some? ==> from <= r.value && OccursAt(s, p, r.value)
    ensures r.Some? ==> forall j: nat :: from <= j < r.value ==> !OccursAt(s, p, j)
    ensures r.None? ==> forall j: nat :: from <= j ==> !OccursAt(s, p, j)
    decreases |s| - from
  {
    if from + |p| > |s| then None
    else if s[from..from + |p|] == p then Some(from)
    else FindFrom(s, p, from + 1)
  }

  /** `str::find`: the index of the first occurrence of `p`, if any. */
  function Find<T(==)>(s: seq<T>, p: seq<T>): (r: Option<nat>)
    ensures r.Some? <==> Contains(s, p)
    ensures r.Some? ==> OccursAt(s, p, r.value) && forall j: nat :: j < r.value ==> !OccursAt(s, p, j)
  {
    FindFrom(s, p, 0)
  }

  /** The last occurrence of `p` in `s` starting strictly below `bound`. */
  function RFindBelow<T(==)>(s: seq<T>, p: seq<T>, bound: nat): (r: Option<nat>)
    ensures r.Some? ==> r.value < bound && OccursAt(s, p, r.value)
    ensures r.Some? ==> forall j: nat :: r.value < j < bound ==> !OccursAt(s, p, j)
    ensures r.None? ==> forall j: nat :: j < bound ==> !OccursAt(s, p, j)
  {
    if bound == 0 then None
    else if OccursAt(s, p, bound - 1) then Some(bound - 1)
    else RFindBelow(s, p, bound - 1)
  }

  /** `str::rfind`: the index of the last occurrence of `p`, if any. */
  function RFind<T(==)>(s: seq<T>, p: seq<T>): (r: Option<nat>)
    ensures r.Some? <==> Contains(s, p)
    ensures r.Some? ==> OccursAt(s, p, r.value) && forall j: nat :: r.value < j ==> !OccursAt(s, p, j)
  {
    RFindBelow(s, p, |s| + 1)
  }

  /** `str::trim_start_matches` with a fixed pattern: strips every leading repetition of `p`. */
  function TrimStartMatches<T(==)>(s: seq<T>, p: seq<T>): (r: seq<T>)
    ensures EndsWith(s, r)
    ensures |p| > 0 ==> !StartsWith(r, p)
    decreases |s|
  {
    if |p| > 0 && StartsWith(s, p) then TrimStartMatches(s[|p|..], p) else s
  }

  /** `n` copies of `p` laid end to end. */
  function Repeat<T>(p: seq<T>, n: nat): seq<T> {
    if n == 0 then [] else p + Repeat(p, n - 1)
  }

  /** How many leading copies of `p` `trim_start_matches` strips from `s`. */
  function TrimCount<T(==)>(s: seq<T>, p: seq<T>): nat
    decreases |s|
  {
    if |p| > 0 && StartsWith(s, p) then 1 + TrimCount(s[|p|..], p) else 0
  }

  /** What `trim_start_matches` removes is a whole number of copies of the pattern. */
  lemma {:induction false} TrimStartMatchesRemovesCopies<T>(s: seq<T>, p: seq<T>)
    ensures s == Repeat(p, TrimCount(s, p)) + TrimStartMatches(s, p)
    decreases |s|
  {
    if |p| > 0 && StartsWith(s, p) {
      var rest := s[|p|..];
      TrimStartMatchesRemovesCopies(rest, p);
      SplitAfterPrefix(s, p);
      AppendAssoc(p, Repeat(p, TrimCount(rest, p)), TrimStartMatches(rest, p));
    }
  }

  lemma SplitAfterPrefix<T>(s: seq<T>, p: seq<T>)
    requires StartsWith(s, p)
    ensures s == p + s[|p|..]
  {
    assert s == s[..|p|] + s[|p|..];
  }

  lemma AppendAssoc<T>(a: seq<T>, b: seq<T>, c: seq<T>)
    ensures a + (b + c) == (a + b) + c
  {
  }

  /** Trimming a string that does not start with the pattern changes nothing. */
  lemma TrimStartMatchesIdempotent<T>(s: seq<T>, p: seq<T>)
    ensures TrimStartMatches(TrimStartMatches(s, p), p) == TrimStartMatches(s, p)
  {
  }
}
