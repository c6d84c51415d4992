/** Text primitives over `string` (= `seq<char>`), with Python's `str`
    methods read over ASCII: `lower`, `strip`, `in`, `startswith`, `endswith`. */
module Strings {

  predicate IsDigit(c: char) { '0' <= c <= '9' }

  predicate IsUpper(c: char) { 'A' <= c <= 'Z' }

  /** `\w` over ASCII: letters, digits and underscore. */
  predicate IsWordChar(c: char) { 'a' <= c <= 'z' || IsUpper(c) || IsDigit(c) || c == '_' }

  /** `str.isspace` restricted to ASCII: tab, line feed, vertical tab, form
      feed, carriage return, the separators 0x1C-0x1F, and space. */
  predicate IsSpace(c: char) { 9 <= c as int <= 13 || 28 <= c as int <= 32 }

  /** `str.lower` on one ASCII character: the result is never an upper-case
      letter, and anything but an upper-case letter is left as it is (so an
      upper-case letter is always changed). */
  function LowerChar(c: char): (d: char)
    ensures !IsUpper(d)
    ensures !IsUpper(c) ==> d == c
  {
    if IsUpper(c) then (c as int + 32) as char else c
  }

  /** `str.lower` over ASCII. */
  function Lower(s: string): (r: string)
    ensures |r| == |s|
    ensures forall i :: 0 <= i < |s| ==> r[i] == LowerChar(s[i])
    decreases |s|
  {
    if s == [] then [] else [LowerChar(s[0])] + Lower(s[1..])
  }

  /** Lower-casing commutes with concatenation. */
  lemma LowerAppend(a: string, b: string)
    ensures Lower(a + b) == Lower(a) + Lower(b)
  {
    forall i | 0 <= i < |a + b|
      ensures Lower(a + b)[i] == (Lower(a) + Lower(b))[i]
    {
      if i < |a| {
        assert (a + b)[i] == a[i];
      } else {
        assert (a + b)[i] == b[i - |a|];
      }
    }
  }

  /** Lower-casing twice is lower-casing once. */
  lemma LowerIdempotent(s: string)
    ensures Lower(Lower(s)) == Lower(s)
  {
    assert forall i :: 0 <= i < |s| ==> Lower(Lower(s))[i] == Lower(s)[i];
  }

  /** A string without upper-case letters is its own lower case. */
  lemma LowerOfLower(s: string)
    requires forall i :: 0 <= i < |s| ==> !IsUpper(s[i])
    ensures Lower(s) == s
  {
  }

  /** `s.startswith(p)` is Dafny's prefix relation `p <= s`;
      `s.endswith(p)`: */
  predicate EndsWith(s: string, p: string) {
    |p| <= |s| && s[|s| - |p|..] == p
  }

  /** `sub in s` for strings: `sub` occurs somewhere in `s`. */
  function Contains(s: string, sub: string): (b: bool)
    ensures b <==> exists i :: 0 <= i <= |s| - |sub| && sub <= s[i..]
    decreases |s|
  {
    if |s| < |sub| then false
    else if sub <= s then
      assert s[0..] == s;
      true
    else
      var b := Contains(s[1..], sub);
      assert forall i :: 1 <= i <= |s| ==> s[1..][i - 1..] == s[i..];
      b
  }

  /** A substring of a substring is a substring. */
  lemma ContainsTransitive(s: string, t: string, u: string)
    requires Contains(s, t) && Contains(t, u)
    ensures Contains(s, u)
  {
    var i :| 0 <= i <= |s| - |t| && t <= s[i..];
    var j :| 0 <= j <= |t| - |u| && u <= t[j..];
    assert u <= s[i + j..] by {
      forall k | 0 <= k < |u|
        ensures s[i + j..][k] == u[k]
      {
        assert u[k] == t[j + k] == s[i..][j + k];
      }
    }
  }

  /** A string cannot contain a text holding a character it lacks. */
  lemma MissingCharNotContained(s: string, sub: string, k: nat)
    requires k < |sub|
    requires forall i :: 0 <= i < |s| ==> s[i] != sub[k]
    ensures !Contains(s, sub)
  {
  }

  /** `any(k in s for k in keywords)`. */
  predicate ContainsAny(s: string, keywords: seq<string>) {
    exists i :: 0 <= i < |keywords| && Contains(s, keywords[i])
  }

  /** Drops leading whitespace (the left half of `str.strip`). */
  function TrimStart(s: string): (r: string)
    ensures |r| <= |s|
    decreases |s|
  {
    if s != [] && IsSpace(s[0]) then TrimStart(s[1..]) else s
  }

  /** `TrimStart` removes a run of whitespace and stops at the first other
      character. */
  lemma {:induction false} TrimStartFacts(s: string)
    ensures TrimStart(s) == s[|s| - |TrimStart(s)|..]
    ensures forall i :: 0 <= i < |s| - |TrimStart(s)| ==> IsSpace(s[i])
    ensures TrimStart(s) == [] || !IsSpace(TrimStart(s)[0])
    decreases |s|
  {
    if s != [] && IsSpace(s[0]) {
      TrimStartFacts(s[1..]);
      assert forall i :: 1 <= i < |s| ==> s[i] == s[1..][i - 1];
    }
  }

  /** Drops trailing whitespace (the right half of `str.strip`). */
  function TrimEnd(s: string): (r: string)
    ensures |r| <= |s|
    decreases |s|
  {
    if s != [] && IsSpace(s[|s| - 1]) then TrimEnd(s[..|s| - 1]) else s
  }

  /** `TrimEnd` removes a run of whitespace from the end and stops at the
      last other character. */
  lemma {:induction false} TrimEndFacts(s: string)
    ensures TrimEnd(s) <= s
    ensures forall i :: |TrimEnd(s)| <= i < |s| ==> IsSpace(s[i])
    ensures TrimEnd(s) == [] || !IsSpace(TrimEnd(s)[|TrimEnd(s)| - 1])
    decreases |s|
  {
    if s != [] && IsSpace(s[|s| - 1]) {
      TrimEndFacts(s[..|s| - 1]);
    }
  }

  /** `str.strip()` with no argument. */
  function Strip(s: string): string {
    TrimEnd(TrimStart(s))
  }

  /** A prefix of a suffix of `s` is a slice of `s`, and what follows it in
      the suffix follows it in `s`. */
  lemma PrefixOfSuffix(s: string, a: string, t: string, i: nat)
    requires i <= |s| && a == s[i..] && t <= a
    requires forall k :: |t| <= k < |a| ==> IsSpace(a[k])
    ensures i + |t| <= |s| && t == s[i..i + |t|]
    ensures forall k :: i + |t| <= k < |s| ==> IsSpace(s[k])
  {
    forall k | i + |t| <= k < |s|
      ensures IsSpace(s[k])
    {
      assert s[k] == a[k - i];
    }
  }

  /** `Strip(s)` is the slice `t` of `s` between its leading and trailing
      runs of whitespace; `i` is where it starts. */
  lemma StripSlice(s: string) returns (i: nat, t: string)
    ensures t == Strip(s)
    ensures i + |t| <= |s| && t == s[i..i + |t|]
    ensures forall k :: 0 <= k < i ==> IsSpace(s[k])
    ensures forall k :: i + |t| <= k < |s| ==> IsSpace(s[k])
    ensures t == [] || (!IsSpace(t[0]) && !IsSpace(t[|t| - 1]))
  {
    var a := TrimStart(s);
    t := TrimEnd(a);
    i := |s| - |a|;
    TrimStartFacts(s);
    TrimEndFacts(a);
    PrefixOfSuffix(s, a, t, i);
    if t != [] {
      assert t[0] == a[0] && !IsSpace(a[0]);
      assert !IsSpace(t[|t| - 1]);
    }
  }

  /** Text that neither starts nor ends with whitespace is its own strip. */
  lemma StripUnspaced(s: string)
    requires s == [] || (!IsSpace(s[0]) && !IsSpace(s[|s| - 1]))
    ensures Strip(s) == s
  {
    assert TrimStart(s) == s;
  }
}
