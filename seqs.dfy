/** The array operations the portal uses with a callback: `find`/`findIndex`,
    `filter`, `some`/`every` (as quantifiers) and `sort` with a comparator. */
module Seqs {
  import opened Strings

  // ---------------------------------------------------------------------------
  // findIndex / find

  /** `s.findIndex(p)`: the first position whose element satisfies p, if any. */
  function FirstIndex<T>(s: seq<T>, p: T -> bool): (r: Option<nat>)
    ensures r.Some? ==> r.value < |s| && p(s[r.value])
    ensures r.Some? ==> forall j :: 0 <= j < r.value ==> !p(s[j])
    ensures r.None? ==> forall j :: 0 <= j < |s| ==> !p(s[j])
  {
    if s == [] then None
    else if p(s[0]) then Some(0)
    else match FirstIndex(s[1..], p)
      case None => None
      case Some(i) => Some(i + 1)
  }

  /** `s.find(p)`: the first element satisfying p, if any. */
  function Find<T>(s: seq<T>, p: T -> bool): (r: Option<T>)
    ensures r.Some? <==> exists j :: 0 <= j < |s| && p(s[j])
    ensures r.Some? ==> exists i :: 0 <= i < |s| && s[i] == r.value && p(s[i]) && forall j :: 0 <= j < i ==> !p(s[j])
  {
    match FirstIndex(s, p)
    case None => None
    case Some(i) => Some(s[i])
  }

  /** The first present value of a list of optional values: what a loop that
      returns at its first hit reports. */
  function FirstSome<T>(xs: seq<Option<T>>): (r: Option<T>)
    ensures r.None? <==> forall i :: 0 <= i < |xs| ==> xs[i].None?
    ensures forall i :: 0 <= i < |xs| && xs[i].Some? && (forall j :: 0 <= j < i ==> xs[j].None?) ==> r == xs[i]
  {
    if xs == [] then None
    else if xs[0].Some? then xs[0]
    else
      var r := FirstSome(xs[1..]);
      assert forall i :: 1 <= i < |xs| ==> xs[1..][i - 1] == xs[i];
      r
  }

  /** f yields nothing on any element of xs; stated from the end of the list,
      the way a loop that has passed those elements knows it. */
  predicate NoneUpTo<T, U>(xs: seq<T>, f: T -> Option<U>)
  {
    xs == [] || (NoneUpTo(xs[..|xs| - 1], f) && f(xs[|xs| - 1]).None?)
  }

  lemma {:induction false} NoneUpToMeans<T, U>(xs: seq<T>, f: T -> Option<U>)
    ensures NoneUpTo(xs, f) <==> forall j :: 0 <= j < |xs| ==> f(xs[j]).None?
  {
    if xs != [] {
      var init := xs[..|xs| - 1];
      NoneUpToMeans(init, f);
      assert forall j :: 0 <= j < |init| ==> init[j] == xs[j];
    }
  }

  lemma NoneUpToExtend<T, U>(xs: seq<T>, i: nat, f: T -> Option<U>)
    requires i < |xs| && NoneUpTo(xs[..i], f) && f(xs[i]).None?
    ensures NoneUpTo(xs[..i + 1], f)
  {
    assert xs[..i + 1][..i] == xs[..i];
  }

  // ---------------------------------------------------------------------------
  // filter

  /** r can be read off s left to right, skipping elements: r keeps the
      relative order it has in s. Checked greedily, which decides it. */
  predicate Subsequence<T(==)>(r: seq<T>, s: seq<T>)
    decreases |s|
  {
    r == [] || (s != [] && if r[0] == s[0] then Subsequence(r[1..], s[1..]) else Subsequence(r, s[1..]))
  }

  /** `s.filter(p)`: the elements satisfying p, in their original order. */
  function Filter<T(==)>(s: seq<T>, p: T -> bool): (r: seq<T>)
    ensures |r| <= |s|
    ensures forall i :: 0 <= i < |r| ==> p(r[i])
    ensures forall i :: 0 <= i < |r| ==> r[i] in s
    ensures forall i :: 0 <= i < |s| && p(s[i]) ==> s[i] in r
    ensures Subsequence(r, s)
  {
    if s == [] then []
    else if p(s[0]) then [s[0]] + Filter(s[1..], p)
    else Filter(s[1..], p)
  }

  /** Filtering keeps every satisfying element exactly as often as it occurs. */
  lemma {:induction false} FilterMultiplicity<T>(s: seq<T>, p: T -> bool, x: T)
    ensures multiset(Filter(s, p))[x] == if p(x) then multiset(s)[x] else 0
  {
    if s != [] {
      FilterMultiplicity(s[1..], p, x);
      assert s == [s[0]] + s[1..];
    }
  }

  /** Filtering a list extended at the end filters the old list and then
      the new element. */
  lemma {:induction false} FilterAppend<T>(s: seq<T>, x: T, p: T -> bool)
    ensures Filter(s + [x], p) == Filter(s, p) + (if p(x) then [x] else [])
  {
    if s != [] {
      FilterAppend(s[1..], x, p);
      assert (s + [x])[1..] == s[1..] + [x];
    }
  }

  /** The positions of s whose element satisfies p. */
  ghost function Passing<T>(s: seq<T>, p: T -> bool): set<nat>
  {
    set i: nat | i < |s| && p(s[i])
  }

  /** `filter(p).length` is the number of positions whose element satisfies p. */
  lemma {:induction false} FilterSize<T>(s: seq<T>, p: T -> bool)
    ensures |Filter(s, p)| == |Passing(s, p)|
    decreases |s|
  {
    if s != [] {
      var init := s[..|s| - 1];
      var x := s[|s| - 1];
      assert s == init + [x];
      FilterAppend(init, x, p);
      FilterSize(init, p);
      var n := |s| - 1;
      if p(x) {
        assert Passing(s, p) == Passing(init, p) + {n};
      } else {
        assert Passing(s, p) == Passing(init, p);
      }
    }
  }

  /** Filtering by a predicate every element satisfies changes nothing. */
  lemma {:induction false} FilterAll<T>(s: seq<T>, p: T -> bool)
    requires forall i :: 0 <= i < |s| ==> p(s[i])
    ensures Filter(s, p) == s
  {
    if s != [] {
      FilterAll(s[1..], p);
      assert s == [s[0]] + s[1..];
    }
  }

  /** Filtering by two predicates that agree on every element gives the
      same list. */
  lemma {:induction false} FilterAgree<T>(s: seq<T>, p: T -> bool, q: T -> bool)
    requires forall i :: 0 <= i < |s| ==> p(s[i]) == q(s[i])
    ensures Filter(s, p) == Filter(s, q)
  {
    if s != [] {
      FilterAgree(s[1..], p, q);
    }
  }

  // ---------------------------------------------------------------------------
  // sort

  /** The comparator `le` (a <= b) orders every pair and is transitive, as the
      comparators handed to `sort` in the portal are. */
  ghost predicate TotalPreorder<T(!new)>(le: (T, T) -> bool)
  {
    && (forall a, b :: le(a, b) || le(b, a))
    && (forall a, b, c :: le(a, b) && le(b, c) ==> le(a, c))
  }

  /** Two rearrangements of each other hold the same elements. */
  lemma SameMembers<T>(a: seq<T>, b: seq<T>)
    requires multiset(a) == multiset(b)
    ensures forall i :: 0 <= i < |a| ==> a[i] in b
    ensures forall i :: 0 <= i < |b| ==> b[i] in a
  {
    assert forall i :: 0 <= i < |a| ==> a[i] in multiset(b);
    assert forall i :: 0 <= i < |b| ==> b[i] in multiset(a);
  }

  predicate SortedBy<T>(s: seq<T>, le: (T, T) -> bool)
  {
    forall i, j :: 0 <= i < j < |s| ==> le(s[i], s[j])
  }

  /** A list stays sorted under a new head that comes before each of its
      elements. */
  lemma PrependSorted<T>(h: T, s: seq<T>, le: (T, T) -> bool)
    requires SortedBy(s, le)
    requires forall k :: 0 <= k < |s| ==> le(h, s[k])
    ensures SortedBy([h] + s, le)
  {
    var r := [h] + s;
    forall i, j | 0 <= i < j < |r|
      ensures le(r[i], r[j])
    {
      assert r[j] == s[j - 1];
      if i > 0 {
        assert r[i] == s[i - 1];
      }
    }
  }

  function Insert<T(!new)>(x: T, s: seq<T>, le: (T, T) -> bool): (r: seq<T>)
    requires TotalPreorder(le) && SortedBy(s, le)
    ensures multiset(r) == multiset(s) + multiset{x}
    ensures SortedBy(r, le)
  {
    if s == [] then [x]
    else if le(x, s[0]) then
      assert forall k :: 0 <= k < |s| ==> le(s[0], s[k]) || k == 0;
      PrependSorted(x, s, le);
      [x] + s
    else
      var tail := s[1..];
      var rest := Insert(x, tail, le);
      assert s == [s[0]] + tail;
      HeadBeforeInserted(x, s, rest, le);
      PrependSorted(s[0], rest, le);
      [s[0]] + rest
  }

  /** When x goes after the head, the head comes before everything in the
      tail with x inserted. */
  lemma HeadBeforeInserted<T(!new)>(x: T, s: seq<T>, rest: seq<T>, le: (T, T) -> bool)
    requires TotalPreorder(le) && SortedBy(s, le) && s != [] && !le(x, s[0])
    requires multiset(rest) == multiset(s[1..]) + multiset{x}
    ensures forall k :: 0 <= k < |rest| ==> le(s[0], rest[k])
  {
    forall k | 0 <= k < |rest|
      ensures le(s[0], rest[k])
    {
      var y := rest[k];
      assert y in multiset(rest);
      if y != x {
        assert y in multiset(s[1..]);
        var j :| 0 <= j < |s[1..]| && s[1..][j] == y;
        assert s[j + 1] == y;
      }
    }
  }

  /** `s.sort(cmp)` with `le(a, b)` meaning `cmp(a, b) <= 0`: a sorted
      rearrangement of s. */
  function SortBy<T(!new)>(s: seq<T>, le: (T, T) -> bool): (r: seq<T>)
    requires TotalPreorder(le)
    ensures multiset(r) == multiset(s)
    ensures |r| == |s|
    ensures SortedBy(r, le)
  {
    if s == [] then []
    else
      assert s == [s[0]] + s[1..];
      Insert(s[0], SortBy(s[1..], le), le)
  }
}
