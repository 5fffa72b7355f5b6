/**
 * String helpers with the meaning of the Python string operations the
 * automator uses: `sub in s`, `any(p in s for p in ps)`, `str.lower`,
 * `str.strip`, `str.split(c)` and "up to the first c".
 */
module Text {

  /** `sub` occurs in `s` starting at index `i`. */
  predicate OccursAt(s: string, sub: string, i: nat) {
    i + |sub| <= |s| && s[i..i + |sub|] == sub
  }

  /** Python's `sub in s`. */
  predicate Contains(s: string, sub: string) {
    exists i: nat | i <= |s| :: OccursAt(s, sub, i)
  }

  /** Python's `any(p in s for p in phrases)`. */
  predicate MentionsAny(s: string, phrases: seq<string>) {
    exists k | 0 <= k < |phrases| :: Contains(s, phrases[k])
  }

  function LowerChar(c: char): char {
    if 'A' <= c <= 'Z' then (c as int + 32) as char else c
  }

  /** `str.lower`, restricted to the ASCII letters. */
  function Lower(s: string): (r: string)
    ensures |r| == |s|
    ensures forall i :: 0 <= i < |s| ==> r[i] == LowerChar(s[i])
    ensures forall i :: 0 <= i < |r| ==> !('A' <= r[i] <= 'Z')
  {
    seq(|s|, i requires 0 <= i < |s| => LowerChar(s[i]))
  }

  predicate IsSpace(c: char) {
    c == ' ' || 9 <= c as int <= 13 || 28 <= c as int <= 31
  }

  /** `not s.strip()`: the string holds nothing but whitespace. */
  predicate IsBlank(s: string) {
    forall i :: 0 <= i < |s| ==> IsSpace(s[i])
  }

  /** Index of the first `c` in `s`, or `|s|` when there is none. */
  function Find(s: string, c: char): (i: nat)
    ensures i <= |s|
    ensures i < |s| ==> s[i] == c
    ensures forall j :: 0 <= j < i ==> s[j] != c
  {
    if s == [] then 0
    else if s[0] == c then 0
    else 1 + Find(s[1..], c)
  }

  /** The prefix of `s` before its first `c` (all of `s` when there is none). */
  function TakeUntil(s: string, c: char): (r: string)
    ensures c !in r
    ensures r <= s
    ensures |r| < |s| ==> s[|r|] == c
  {
    s[..Find(s, c)]
  }

  /** Python's `s.split(c)` for a one-character separator. */
  function Split(s: string, c: char): (parts: seq<string>)
    ensures |parts| > 0
    ensures forall k :: 0 <= k < |parts| ==> c !in parts[k]
    decreases |s|
  {
    var i := Find(s, c);
    if i == |s| then [s] else [s[..i]] + Split(s[i + 1..], c)
  }

  lemma FindAfter(a: string, b: string, c: char)
    requires c !in a
    ensures Find(a + [c] + b, c) == |a|
  {
    assert (a + [c] + b)[|a|] == c;
    assert forall j :: 0 <= j < |a| ==> (a + [c] + b)[j] == a[j];
  }

  /** Taking up to `c` stops at the end of a `c`-free `a` when `c` or nothing follows it. */
  lemma TakeUntilStops(a: string, rest: string, c: char)
    requires c !in a
    requires rest == [] || rest[0] == c
    ensures TakeUntil(a + rest, c) == a
  {
    var s := a + rest;
    var i := Find(s, c);
    assert forall j :: 0 <= j < |a| ==> s[j] == a[j];
    if rest != [] {
      assert s[|a|] == c;
    }
    assert i == |a|;
    assert s[..|a|] == a;
  }

  /** Splitting `a + c + b` on `c`, when `a` holds no `c`, yields `a` first. */
  lemma SplitJoin(a: string, b: string, c: char)
    requires c !in a
    ensures Split(a + [c] + b, c) == [a] + Split(b, c)
  {
    var s := a + [c] + b;
    FindAfter(a, b, c);
    assert s[..|a|] == a;
    assert s[|a| + 1..] == b;
  }

  /** An occurrence of `sub` in `s` carries every character of `sub` into `s`. */
  lemma CharsOfOccurrence(s: string, sub: string, x: char)
    requires Contains(s, sub)
    requires x in sub
    ensures x in s
  {
    var i: nat :| i <= |s| && OccursAt(s, sub, i);
    var k :| 0 <= k < |sub| && sub[k] == x;
    assert s[i..i + |sub|][k] == s[i + k];
  }

  /** A witness for `Contains`. */
  lemma ContainsAt(s: string, sub: string, i: nat)
    requires OccursAt(s, sub, i)
    ensures Contains(s, sub)
  {
  }

  /** An occurrence in `a` is an occurrence in any extension of `a`. */
  lemma ContainsInPrefix(a: string, b: string, sub: string)
    requires Contains(a, sub)
    ensures Contains(a + b, sub)
  {
    var i: nat :| i <= |a| && OccursAt(a, sub, i);
    assert (a + b)[i..i + |sub|] == a[i..i + |sub|];
    assert OccursAt(a + b, sub, i);
  }
}
