/**
 * The two JavaScript string operations the routing code relies on:
 * `String.prototype.replace` with a string pattern, which replaces only the
 * first occurrence found by `indexOf`, and splitting a path at its first '/'.
 */
module Strings {
  import opened Options

  /** `pat` occurs in `s` starting at index `i`. */
  predicate OccursAt(s: string, pat: string, i: nat) {
    i + |pat| <= |s| && s[i..i + |pat|] == pat
  }

  /** `pat` occurs somewhere in `s`. */
  ghost predicate Contains(s: string, pat: string) {
    exists i: nat :: OccursAt(s, pat, i)
  }

  /** `i` is the leftmost occurrence of `pat` in `s`. */
  ghost predicate FirstOccurrence(s: string, pat: string, i: nat) {
    OccursAt(s, pat, i) && forall j: nat :: j < i ==> !OccursAt(s, pat, j)
  }

  /**
   * `s.indexOf(pat, from)` for `from <= |s|`: the leftmost occurrence of
   * `pat` at or after `from`, if any. (JavaScript clamps a larger `from` to
   * `|s|`; only `from == 0` is searched from outside this module.)
   */
  function IndexFrom(s: string, pat: string, from: nat): (r: Option<nat>)
    ensures r.Some? ==> from <= r.value && OccursAt(s, pat, r.value)
    ensures r.Some? ==> forall j: nat :: from <= j < r.value ==> !OccursAt(s, pat, j)
    ensures r.None? ==> forall j: nat :: from <= j ==> !OccursAt(s, pat, j)
    decreases |s| - from
  {
    if from + |pat| > |s| then None
    else if s[from..from + |pat|] == pat then Some(from)
    else IndexFrom(s, pat, from + 1)
  }

  /** `s.indexOf(pat)`: the first occurrence of `pat`, or None exactly when `s` does not contain it. */
  function IndexOf(s: string, pat: string): (r: Option<nat>)
    ensures r.None? <==> !Contains(s, pat)
    ensures r.Some? ==> FirstOccurrence(s, pat, r.value)
  {
    IndexFrom(s, pat, 0)
  }

  /** `s.replace(pat, rep)` for a string `pat` and a `rep` free of `$` patterns. */
  function ReplaceFirst(s: string, pat: string, rep: string): (r: string)
    ensures !Contains(s, pat) ==> r == s
    ensures forall i: nat :: FirstOccurrence(s, pat, i) ==> r == s[..i] + rep + s[i + |pat|..]
  {
    match IndexOf(s, pat)
    case None => s
    case Some(i) =>
      assert forall k: nat :: FirstOccurrence(s, pat, k) ==> k == i;
      s[..i] + rep + s[i + |pat|..]
  }

  /** A string beginning with `pat` has its first occurrence at the very start. */
  lemma PrefixIsFirstOccurrence(s: string, pat: string)
    requires |pat| <= |s| && s[..|pat|] == pat
    ensures FirstOccurrence(s, pat, 0)
  {
    assert s[0..0 + |pat|] == s[..|pat|];
  }

  /** When `s` begins with `pat`, the replacement swaps that prefix and keeps the rest. */
  lemma {:induction false} ReplaceAtPrefix(s: string, pat: string, rep: string)
    requires |pat| <= |s| && s[..|pat|] == pat
    ensures ReplaceFirst(s, pat, rep) == rep + s[|pat|..]
  {
    PrefixIsFirstOccurrence(s, pat);
    assert s[..0] == [];
  }

  /** Replacing a pattern by itself changes nothing. */
  lemma ReplaceBySelf(s: string, pat: string)
    ensures ReplaceFirst(s, pat, pat) == s
  {
    match IndexOf(s, pat)
    case None =>
    case Some(i) =>
      assert s == s[..i] + s[i..i + |pat|] + s[i + |pat|..];
  }

  /** Replacing a leading `a` by `b`, and then `b` by `a`, restores the string. */
  lemma ReplaceBackAtPrefix(s: string, a: string, b: string)
    requires |a| <= |s| && s[..|a|] == a
    ensures ReplaceFirst(ReplaceFirst(s, a, b), b, a) == s
  {
    ReplaceAtPrefix(s, a, b);
    var t := b + s[|a|..];
    assert t[..|b|] == b;
    ReplaceAtPrefix(t, b, a);
    assert t[|b|..] == s[|a|..];
    assert s == s[..|a|] + s[|a|..];
  }

  /** The path part of a URL reference: everything before its first '?' (query) or '#' (fragment). */
  function PathPart(url: string): (p: string)
    ensures |p| <= |url| && p == url[..|p|]
    ensures '?' !in p && '#' !in p
    ensures |p| < |url| ==> url[|p|] == '?' || url[|p|] == '#'
  {
    if url == [] || url[0] == '?' || url[0] == '#' then [] else [url[0]] + PathPart(url[1..])
  }

  /** A reference with neither query nor fragment is all path. */
  lemma PathPartOfPlain(s: string)
    requires '?' !in s && '#' !in s
    ensures PathPart(s) == s
  {
  }

  /** A leading '/' is kept in front of the path part of what follows it. */
  lemma PathPartAfterSlash(s: string)
    ensures PathPart("/" + s) == "/" + PathPart(s)
  {
    assert ("/" + s)[1..] == s;
  }

  /** The characters of `s` before its first '/' (all of `s` when it has none). */
  function Segment(s: string): (r: string)
    ensures |r| <= |s| && r == s[..|r|]
    ensures '/' !in r
    ensures |r| < |s| ==> s[|r|] == '/'
  {
    if s == [] || s[0] == '/' then [] else [s[0]] + Segment(s[1..])
  }

  /** A '/'-free head followed by nothing or by a '/' is exactly the segment read back. */
  lemma {:induction false} SegmentOfHead(head: string, rest: string)
    requires '/' !in head
    requires rest == [] || rest[0] == '/'
    ensures Segment(head + rest) == head
  {
    if head != [] {
      assert (head + rest)[0] == head[0];
      assert (head + rest)[1..] == head[1..] + rest;
      SegmentOfHead(head[1..], rest);
    }
  }
}
