/** Sequence helpers that mirror Python list comprehensions and early-return
    `for` loops, together with the facts the model needs about them. */
module Seqs {

  /** The elements of `s` satisfying `p`, in their original order
      (`[x for x in s if p(x)]`). */
  function Filter<T(!new)>(p: T -> bool, s: seq<T>): (r: seq<T>)
    ensures |r| <= |s|
    ensures forall x :: x in r <==> x in s && p(x)
    decreases |s|
  {
    if s == [] then []
    else
      assert s == [s[0]] + s[1..];
      (if p(s[0]) then [s[0]] else []) + Filter(p, s[1..])
  }

  /** Index of the first element of `s` satisfying `p`, or `|s|` when there is
      none (a `for` loop that returns on the first hit). */
  function FirstIndex<T>(p: T -> bool, s: seq<T>): (i: nat)
    ensures i <= |s|
    ensures i < |s| ==> p(s[i])
    ensures forall j :: 0 <= j < i ==> !p(s[j])
    decreases |s|
  {
    if s == [] then 0
    else if p(s[0]) then 0
    else 1 + FirstIndex(p, s[1..])
  }

  /** Index of the first maximum of a non-empty list, computed the way
      Python's `max` walks it: a left fold that moves to a later element only
      when it is strictly greater. */
  function FirstArgMax(xs: seq<int>): (i: nat)
    requires xs != []
    ensures i < |xs|
    ensures forall j :: 0 <= j < |xs| ==> xs[j] <= xs[i]
    ensures forall j :: 0 <= j < i ==> xs[j] < xs[i]
    decreases |xs|
  {
    if |xs| == 1 then 0
    else
      var b := FirstArgMax(xs[..|xs| - 1]);
      if xs[|xs| - 1] > xs[b] then |xs| - 1 else b
  }

  /** Filtering with two pointwise-equal predicates gives the same list. */
  lemma {:induction false} FilterExt<T(!new)>(p: T -> bool, q: T -> bool, s: seq<T>)
    requires forall x :: p(x) == q(x)
    ensures Filter(p, s) == Filter(q, s)
    decreases |s|
  {
    if s != [] {
      FilterExt(p, q, s[1..]);
    }
  }

  /** Filtering twice is filtering once by the conjunction, order included. */
  lemma {:induction false} FilterFilter<T(!new)>(p: T -> bool, q: T -> bool, pq: T -> bool, s: seq<T>)
    requires forall x :: pq(x) == (q(x) && p(x))
    ensures Filter(p, Filter(q, s)) == Filter(pq, s)
    decreases |s|
  {
    if s != [] {
      FilterFilter(p, q, pq, s[1..]);
      var tail := Filter(q, s[1..]);
      if q(s[0]) {
        var kept := [s[0]] + tail;
        assert Filter(q, s) == kept;
        assert kept[0] == s[0] && kept[1..] == tail;
        assert Filter(p, kept) == (if p(s[0]) then [s[0]] else []) + Filter(p, tail);
        assert pq(s[0]) == p(s[0]);
      } else {
        assert Filter(q, s) == tail;
        assert !pq(s[0]);
      }
      assert Filter(pq, s) == (if pq(s[0]) then [s[0]] else []) + Filter(pq, s[1..]);
    }
  }

  /** A predicate that holds throughout `s` keeps every element. */
  lemma {:induction false} FilterKeepsAll<T(!new)>(p: T -> bool, s: seq<T>)
    requires forall i :: 0 <= i < |s| ==> p(s[i])
    ensures Filter(p, s) == s
    decreases |s|
  {
    if s != [] {
      var rest := s[1..];
      assert forall i :: 0 <= i < |rest| ==> rest[i] == s[i + 1];
      FilterKeepsAll(p, rest);
      assert s == [s[0]] + rest;
    }
  }

  /** A predicate that fails throughout `s` keeps nothing. */
  lemma {:induction false} FilterDropsAll<T(!new)>(p: T -> bool, s: seq<T>)
    requires forall i :: 0 <= i < |s| ==> !p(s[i])
    ensures Filter(p, s) == []
    decreases |s|
  {
    if s != [] {
      FilterDropsAll(p, s[1..]);
    }
  }

  /** The head of a filtered list is the first element of the original list
      that satisfies the predicate. */
  lemma {:induction false} FilterHead<T(!new)>(p: T -> bool, s: seq<T>)
    requires Filter(p, s) != []
    ensures FirstIndex(p, s) < |s|
    ensures Filter(p, s)[0] == s[FirstIndex(p, s)]
    decreases |s|
  {
    if !p(s[0]) {
      FilterHead(p, s[1..]);
    }
  }

  /** Searching a filtered list for `p` finds the first element of the
      original list satisfying both the filter `q` and `p`. */
  lemma {:induction false} FirstIndexOfFilter<T(!new)>(p: T -> bool, q: T -> bool, pq: T -> bool, s: seq<T>)
    requires forall x :: pq(x) == (q(x) && p(x))
    ensures FirstIndex(p, Filter(q, s)) < |Filter(q, s)| <==> FirstIndex(pq, s) < |s|
    ensures FirstIndex(pq, s) < |s| ==>
              Filter(q, s)[FirstIndex(p, Filter(q, s))] == s[FirstIndex(pq, s)]
    decreases |s|
  {
    if s != [] {
      var tail := Filter(q, s[1..]);
      FirstIndexOfFilter(p, q, pq, s[1..]);
      if q(s[0]) {
        var kept := [s[0]] + tail;
        assert Filter(q, s) == kept;
        assert kept[0] == s[0] && kept[1..] == tail;
        if !p(s[0]) {
          assert FirstIndex(p, kept) == 1 + FirstIndex(p, tail);
        }
      } else {
        assert Filter(q, s) == tail;
      }
      if !pq(s[0]) {
        var j := FirstIndex(pq, s[1..]);
        assert FirstIndex(pq, s) == 1 + j;
        assert j < |s[1..]| ==> s[1 + j] == s[1..][j];
      }
    }
  }

  /** Where an element of a filtered list came from: position `i` of
      `Filter(p, s)` is some position `m` of `s`, and every element before
      `m` that `p` keeps is already among the first `i` filtered ones. */
  lemma {:induction false} FilterOrigin<T(!new)>(p: T -> bool, s: seq<T>, i: nat) returns (m: nat)
    requires i < |Filter(p, s)|
    ensures m < |s| && s[m] == Filter(p, s)[i]
    ensures forall j :: 0 <= j < m && p(s[j]) ==> s[j] in Filter(p, s)[..i]
    decreases |s|
  {
    var f := Filter(p, s);
    var rest := s[1..];
    var tail := Filter(p, rest);
    var i' := if p(s[0]) then i - 1 else i;
    if p(s[0]) && i == 0 {
      assert f == [s[0]] + tail;
      return 0;
    }
    var m' := FilterOrigin(p, rest, i');
    m := m' + 1;
    assert f[..i] == (if p(s[0]) then [s[0]] else []) + tail[..i'] by {
      assert f == (if p(s[0]) then [s[0]] else []) + tail;
    }
    forall j | 0 <= j < m && p(s[j])
      ensures s[j] in f[..i]
    {
      if j > 0 {
        assert s[j] == rest[j - 1];
        assert s[j] in tail[..i'];
      }
    }
  }

  /** An element of a filtered list that beats every earlier filtered
      element under `score` beats every earlier element of the original
      list that the filter keeps. */
  lemma FilterFirstBest<T(!new)>(p: T -> bool, score: T -> int, s: seq<T>, i: nat) returns (m: nat)
    requires i < |Filter(p, s)|
    requires forall j :: 0 <= j < i ==> score(Filter(p, s)[j]) < score(Filter(p, s)[i])
    ensures m < |s| && s[m] == Filter(p, s)[i]
    ensures forall j :: 0 <= j < m && p(s[j]) ==> score(s[j]) < score(s[m])
  {
    var f := Filter(p, s);
    m := FilterOrigin(p, s, i);
    forall j | 0 <= j < m && p(s[j])
      ensures score(s[j]) < score(s[m])
    {
      var j' :| 0 <= j' < i && f[..i][j'] == s[j];
      assert f[j'] == s[j];
    }
  }
}
