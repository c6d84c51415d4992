/** The version token extracted from `codex --version` output or a release
    tag, and the equality gate that decides whether an update runs. */
module Version {
  import opened Wrappers
  import opened Strings

  /** A character of the class `[-\w.]`, with `\w` read as ASCII. */
  predicate IsTokenChar(c: char) { IsWordChar(c) || c == '-' || c == '.' }

  predicate HasDigit(s: string) {
    exists k :: 0 <= k < |s| && IsDigit(s[k])
  }

  /** `[d, e)` is the maximal run of token characters of `s` that starts at
      its first digit. */
  ghost predicate IsTokenRun(s: string, d: nat, e: nat) {
    && d < e <= |s|
    && IsDigit(s[d])
    && (forall k :: 0 <= k < d ==> !IsDigit(s[k]))
    && (forall k :: d <= k < e ==> IsTokenChar(s[k]))
    && (e == |s| || !IsTokenChar(s[e]))
  }

  /** Index of the first digit of `s`, or `|s|` when it has none. */
  function FirstDigit(s: string): (d: nat)
    ensures d <= |s|
    decreases |s|
  {
    if s == [] || IsDigit(s[0]) then 0 else 1 + FirstDigit(s[1..])
  }

  /** `FirstDigit` finds the first digit, and only it. */
  lemma {:induction false} FirstDigitFacts(s: string)
    ensures FirstDigit(s) < |s| ==> IsDigit(s[FirstDigit(s)])
    ensures forall k :: 0 <= k < FirstDigit(s) ==> !IsDigit(s[k])
    decreases |s|
  {
    if s != [] && !IsDigit(s[0]) {
      FirstDigitFacts(s[1..]);
      assert forall k :: 1 <= k < |s| ==> s[k] == s[1..][k - 1];
    }
  }

  /** The longest prefix of `s` made of token characters. */
  function TokenPrefix(s: string): (r: string)
    ensures |r| <= |s|
    decreases |s|
  {
    if s == [] || !IsTokenChar(s[0]) then [] else [s[0]] + TokenPrefix(s[1..])
  }

  /** `TokenPrefix` is a prefix of token characters that cannot be extended. */
  lemma {:induction false} TokenPrefixFacts(s: string)
    ensures TokenPrefix(s) == s[..|TokenPrefix(s)|]
    ensures forall k :: 0 <= k < |TokenPrefix(s)| ==> IsTokenChar(s[k])
    ensures |TokenPrefix(s)| < |s| ==> !IsTokenChar(s[|TokenPrefix(s)|])
    decreases |s|
  {
    if s != [] && IsTokenChar(s[0]) {
      TokenPrefixFacts(s[1..]);
      assert forall k :: 1 <= k < |s| ==> s[k] == s[1..][k - 1];
    }
  }

  /** Group 0 of `re.search(r"v?(\d+(?:\.\d+)*([\-\w.]+)?)", t, re.IGNORECASE)`.
      The leftmost match starts at the first digit, or one character earlier
      when that character is `v` or `V`; the greedy tail then runs to the end
      of the token run, because every digit and `.` is itself in `[-\w.]`. */
  function SearchVersion(t: string): (m: Option<string>)
    ensures m.Some? ==> |m.value| <= |t|
  {
    var d := FirstDigit(t);
    if d == |t| then None
    else
      var start := if d > 0 && LowerChar(t[d - 1]) == 'v' then d - 1 else d;
      Some(t[start..d] + TokenPrefix(t[d..]))
  }

  /** The search fails exactly on texts without a digit. */
  lemma SearchFailsWithoutDigit(t: string)
    ensures SearchVersion(t).None? <==> !HasDigit(t)
  {
    FirstDigitFacts(t);
  }

  /** `v[1:] if v.lower().startswith("v") else v`. */
  function DropLeadingV(v: string): (r: string)
    ensures |r| <= |v|
  {
    if v != [] && LowerChar(v[0]) == 'v' then v[1..] else v
  }

  /** The token of an already stripped text: the search match, or the whole
      text when nothing matches, less one leading `v`. */
  function TokenOf(t: string): (r: string)
    ensures |r| <= |t|
  {
    var version := if SearchVersion(t).Some? then SearchVersion(t).value else t;
    DropLeadingV(version)
  }

  /** normalize_version: `None` models Python's `None`. The falsiness test
      comes before `strip()`, so a whitespace-only string is not falsy. */
  function NormalizeVersion(raw: Option<string>): (r: Option<string>)
    ensures r.None? <==> raw.None? || raw.value == []
    ensures r.Some? ==> |r.value| <= |raw.value|
  {
    if raw.None? || raw.value == [] then None
    else Some(TokenOf(Strip(raw.value)))
  }

  /** Every string with a digit has a token run, starting at `FirstDigit`. */
  lemma TokenRunExists(s: string)
    requires HasDigit(s)
    ensures FirstDigit(s) < |s|
    ensures IsTokenRun(s, FirstDigit(s), FirstDigit(s) + |TokenPrefix(s[FirstDigit(s)..])|)
  {
    FirstDigitFacts(s);
    var d := FirstDigit(s);
    var r := TokenPrefix(s[d..]);
    TokenPrefixFacts(s[d..]);
    assert IsTokenChar(s[d]);
    assert r != [];
    forall k | d <= k < d + |r|
      ensures IsTokenChar(s[k])
    {
      assert s[k] == s[d..][k - d];
    }
    assert d + |r| < |s| ==> s[d + |r|] == s[d..][|r|];
  }

  /** The token run at the first digit is unique: `FirstDigit` and
      `TokenPrefix` find exactly it. */
  lemma TokenRunUnique(s: string, d: nat, e: nat)
    requires IsTokenRun(s, d, e)
    ensures FirstDigit(s) == d
    ensures TokenPrefix(s[d..]) == s[d..e]
  {
    FirstDigitFacts(s);
    var u := s[d..];
    TokenPrefixFacts(u);
    var n := |TokenPrefix(u)|;
    assert forall k :: 0 <= k < |u| ==> u[k] == s[d + k];
    assert n == e - d;
  }

  /** Two adjacent slices make one. */
  lemma SliceJoin(t: string, a: nat, b: nat, c: nat)
    requires a <= b <= c <= |t|
    ensures t[a..b] + t[b..c] == t[a..c]
  {
  }

  /** The search on a text with a token run preceded by `v` or `V`. */
  lemma SearchAfterV(t: string, d: nat, e: nat)
    requires IsTokenRun(t, d, e)
    requires d > 0 && LowerChar(t[d - 1]) == 'v'
    ensures SearchVersion(t) == Some(t[d - 1..e])
  {
    TokenRunUnique(t, d, e);
    SliceJoin(t, d - 1, d, e);
  }

  /** The search on a text with a token run not preceded by `v` or `V`. */
  lemma SearchWithoutV(t: string, d: nat, e: nat)
    requires IsTokenRun(t, d, e)
    requires !(d > 0 && LowerChar(t[d - 1]) == 'v')
    ensures SearchVersion(t) == Some(t[d..e])
  {
    TokenRunUnique(t, d, e);
    SliceJoin(t, d, d, e);
  }

  /** On a text with a token run, the regular-expression search followed by
      dropping one leading `v` yields exactly that run. */
  lemma SearchFindsTokenRun(t: string, d: nat, e: nat)
    requires IsTokenRun(t, d, e)
    ensures TokenOf(t) == t[d..e]
  {
    if d > 0 && LowerChar(t[d - 1]) == 'v' {
      SearchAfterV(t, d, e);
      assert t[d - 1..e][1..] == t[d..e];
    } else {
      SearchWithoutV(t, d, e);
      var c := t[d..e][0];
      assert IsDigit(c) && LowerChar(c) == c;
    }
  }

  /** The token run of a text lies inside the slice that stripping keeps. */
  lemma TokenRunInStripped(s: string, t: string, i: nat, d: nat, e: nat) returns (d': nat, e': nat)
    requires i + |t| <= |s| && t == s[i..i + |t|]
    requires forall k :: 0 <= k < i ==> IsSpace(s[k])
    requires forall k :: i + |t| <= k < |s| ==> IsSpace(s[k])
    requires IsTokenRun(s, d, e)
    ensures d' == d - i && e' == e - i
    ensures IsTokenRun(t, d', e') && t[d'..e'] == s[d..e]
  {
    assert !IsSpace(s[d]) && !IsSpace(s[e - 1]);
    d', e' := d - i, e - i;
    assert forall k :: 0 <= k < |t| ==> t[k] == s[i + k];
    assert e - i < |t| ==> t[e - i] == s[e];
  }

  /** Cutting whitespace off both ends of a text keeps its token run, shifted
      by the number of characters cut at the front. */
  lemma TokenRunInSlice(s: string, t: string, i: nat, d: nat, e: nat)
    requires i + |t| <= |s| && t == s[i..i + |t|]
    requires forall k :: 0 <= k < i ==> IsSpace(s[k])
    requires forall k :: i + |t| <= k < |s| ==> IsSpace(s[k])
    requires IsTokenRun(s, d, e)
    ensures TokenOf(t) == s[d..e]
  {
    var d', e' := TokenRunInStripped(s, t, i, d, e);
    SearchFindsTokenRun(t, d', e');
  }

  /** The digit case of normalize_version: the result is the maximal run of
      `[-\w.]` characters that starts at the first digit of the raw text.
      Stripping never matters here, and neither does a `v` in front. */
  lemma NormalizeVersionDigitCase(raw: string, d: nat, e: nat)
    requires IsTokenRun(raw, d, e)
    ensures NormalizeVersion(Some(raw)) == Some(raw[d..e])
  {
    var i, t := StripSlice(raw);
    TokenRunInSlice(raw, t, i, d, e);
  }

  /** Without a digit the search fails and the whole text is the token, less
      one leading `v`. */
  lemma TokenOfWithoutDigit(t: string)
    requires !HasDigit(t)
    ensures TokenOf(t) == DropLeadingV(t)
  {
    SearchFailsWithoutDigit(t);
  }

  /** The fallback of normalize_version: without any digit the stripped text
      is the token, less one leading `v` or `V`. */
  lemma NormalizeVersionFallback(raw: string)
    requires raw != []
    requires !HasDigit(raw)
    ensures var t := Strip(raw);
            NormalizeVersion(Some(raw))
            == Some(if t != [] && (t[0] == 'v' || t[0] == 'V') then t[1..] else t)
  {
    var i, t := StripSlice(raw);
    assert !HasDigit(t) by {
      forall k | 0 <= k < |t| ensures !IsDigit(t[k]) { assert t[k] == raw[i + k]; }
    }
    TokenOfWithoutDigit(t);
  }

  /** A non-empty whitespace-only input yields the empty token, not `None`. */
  lemma WhitespaceOnlyGivesEmptyToken(raw: string)
    requires raw != []
    requires forall k :: 0 <= k < |raw| ==> IsSpace(raw[k])
    ensures NormalizeVersion(Some(raw)) == Some([])
  {
    var _, _ := StripSlice(raw);
    NormalizeVersionFallback(raw);
  }

  /** Putting a non-digit in front of a text shifts its token run by one. */
  lemma TokenRunAfterNonDigit(c: char, s: string, d: nat, e: nat)
    requires !IsDigit(c)
    requires IsTokenRun(s, d, e)
    ensures IsTokenRun([c] + s, d + 1, e + 1)
    ensures ([c] + s)[d + 1..e + 1] == s[d..e]
  {
    var cs := [c] + s;
    assert forall k :: 0 < k < |cs| ==> cs[k] == s[k - 1];
  }

  /** A non-digit in front of a text with a token run leaves its token alone. */
  lemma NonDigitPrefixKeepsToken(c: char, s: string, d: nat, e: nat)
    requires !IsDigit(c)
    requires IsTokenRun(s, d, e)
    ensures NormalizeVersion(Some([c] + s)) == Some(s[d..e])
  {
    var cs := [c] + s;
    TokenRunAfterNonDigit(c, s, d, e);
    NormalizeVersionDigitCase(cs, d + 1, e + 1);
    assert cs[d + 1..e + 1] == s[d..e];
  }

  /** A leading `v` or `V` in front of a versioned text changes nothing. */
  lemma LeadingVIrrelevant(s: string)
    requires HasDigit(s)
    ensures NormalizeVersion(Some("v" + s)) == NormalizeVersion(Some(s))
    ensures NormalizeVersion(Some("V" + s)) == NormalizeVersion(Some(s))
  {
    TokenRunExists(s);
    var d := FirstDigit(s);
    var e := d + |TokenPrefix(s[d..])|;
    NormalizeVersionDigitCase(s, d, e);
    NonDigitPrefixKeepsToken('v', s, d, e);
    NonDigitPrefixKeepsToken('V', s, d, e);
  }

  /** The empty and the absent input give no token. */
  lemma NormalizeVersionNone()
    ensures NormalizeVersion(None) == None
    ensures NormalizeVersion(Some("")) == None
  {
  }

  /** A bare version is its own token. */
  lemma PlainVersionToken(s: string)
    requires s == "1.2.3"
    ensures NormalizeVersion(Some(s)) == Some(s)
  {
    assert IsTokenRun(s, 0, |s|);
    NormalizeVersionDigitCase(s, 0, |s|);
    assert s[0..|s|] == s;
  }

  /** A release tag loses its `v`: `v1.2.3` gives `1.2.3`. */
  lemma TagVersionToken(s: string)
    requires s == "v1.2.3"
    ensures NormalizeVersion(Some(s)) == Some("1.2.3")
  {
    assert IsTokenRun(s, 1, |s|);
    NormalizeVersionDigitCase(s, 1, |s|);
    assert s[1..|s|] == "1.2.3";
  }

  /** Digit-free text is kept whole. */
  lemma GarbageKeptWhole(s: string)
    requires s == "garbage"
    ensures NormalizeVersion(Some(s)) == Some(s)
  {
    StripUnspaced(s);
    NormalizeVersionFallback(s);
  }

  /** Digit-free text still loses one leading `v`: `version` gives `ersion`. */
  lemma VersionWordLosesV(s: string)
    requires s == "version"
    ensures NormalizeVersion(Some(s)) == Some("ersion")
  {
    StripUnspaced(s);
    NormalizeVersionFallback(s);
    assert s[1..] == "ersion";
  }

  /** Whitespace-only text is not falsy, so it yields the empty token. */
  lemma NormalizeVersionBlank(s: string)
    requires s == "   "
    ensures NormalizeVersion(Some(s)) == Some("")
  {
    WhitespaceOnlyGivesEmptyToken(s);
  }

  /** What `main` does once both versions are known, or one lookup raised. */
  datatype MainAction = ReportFailure | StartCodex | RunUpdate

  /** The gate in `main`: a lookup error exits with status 1; equal tokens
      start Codex; any other pair runs the update. `None` models a raised
      CodexUError from the corresponding lookup. */
  function UpdateGate(installed: Option<string>, latest: Option<string>): (a: MainAction)
    ensures a == ReportFailure <==> installed.None? || latest.None?
    ensures a == RunUpdate ==> installed.value != latest.value
    ensures installed.Some? && latest.Some? && installed.value == latest.value ==> a == StartCodex
    ensures installed.Some? && latest.Some? ==> (a == RunUpdate <==> installed.value != latest.value)
  {
    if installed.None? || latest.None? then ReportFailure
    else if installed.value == latest.value then StartCodex
    else RunUpdate
  }

  /** Tokens are compared by equality only: a tag that names the installed
      release with a leading `v` never triggers an update, while an installed
      version newer than the latest release still does. */
  lemma GateComparesTokensOnly(s: string)
    requires HasDigit(s)
    ensures UpdateGate(NormalizeVersion(Some(s)), NormalizeVersion(Some("v" + s))) == StartCodex
    ensures UpdateGate(Some("2.0.0"), Some("1.0.0")) == RunUpdate
  {
    LeadingVIrrelevant(s);
    TokenRunExists(s);
  }
}
