/** Selecting from an ordered sequence, and the fact that order plus membership determine a sequence. */
module Ordering {

  /** The elements of xs that satisfy p, in order. */
  function Filter<T(!new)>(xs: seq<T>, p: T -> bool): (ys: seq<T>)
    ensures |ys| <= |xs|
    ensures forall y :: y in ys <==> y in xs && p(y)
  {
    if |xs| == 0 then []
    else
      var n := |xs| - 1;
      assert xs == xs[..n] + [xs[n]];
      Filter(xs[..n], p) + if p(xs[n]) then [xs[n]] else []
  }

  function Range(n: nat): (r: seq<nat>)
    ensures |r| == n && forall i :: 0 <= i < n ==> r[i] == i
  {
    seq(n, i => i)
  }

  predicate Increasing(ss: seq<nat>) {
    forall i, j :: 0 <= i < j < |ss| ==> ss[i] < ss[j]
  }

  ghost predicate Distinct<T(!new)>(xs: seq<T>) {
    forall i, j :: 0 <= i < j < |xs| ==> xs[i] != xs[j]
  }

  /** rank gives each element of order its position. */
  ghost predicate Ranks<T(!new)>(order: seq<T>, rank: map<T, nat>) {
    forall i :: 0 <= i < |order| ==> order[i] in rank && rank[order[i]] == i
  }

  /** xs lists elements of rank in strictly increasing rank. */
  ghost predicate Ascends<T(!new)>(xs: seq<T>, rank: map<T, nat>) {
    && (forall i :: 0 <= i < |xs| ==> xs[i] in rank)
    && forall i, j :: 0 <= i < j < |xs| ==> rank[xs[i]] < rank[xs[j]]
  }

  /** The highest-ranked element stands last in an ascending list. */
  lemma HighestIsLast<T(!new)>(xs: seq<T>, rank: map<T, nat>, last: T)
    requires Ascends(xs, rank) && last in xs
    requires forall x :: x in xs ==> x in rank && rank[x] <= rank[last]
    ensures |xs| > 0 && xs == xs[..|xs| - 1] + [last] && last !in xs[..|xs| - 1]
  {
    var j :| 0 <= j < |xs| && xs[j] == last;
    EndsAreMembers(xs);
    PrefixMember(xs, |xs| - 1, last);
  }

  lemma PrefixMember<T(!new)>(xs: seq<T>, n: nat, x: T)
    requires n <= |xs|
    ensures x in xs[..n] ==> exists i :: 0 <= i < n && xs[i] == x
  {
  }

  lemma EndsAreMembers<T(!new)>(xs: seq<T>)
    ensures |xs| > 0 ==> xs[0] in xs && xs[|xs| - 1] in xs
  {
  }

  lemma RanksBelow<T(!new)>(order: seq<T>, rank: map<T, nat>, x: T)
    requires Ranks(order, rank) && x in order
    ensures x in rank && rank[x] < |order|
    ensures |order| > 0 && (x in order[..|order| - 1] <==> rank[x] < |order| - 1)
  {
    var i :| 0 <= i < |order| && order[i] == x;
    var n := |order| - 1;
    if x in order[..n] {
      var j :| 0 <= j < n && order[..n][j] == x;
      assert order[j] == x;
    }
    if i < n {
      assert order[..n][i] == x;
    }
  }

  lemma AscendingInit<T(!new)>(order: seq<T>, rank: map<T, nat>, xs: seq<T>, p: T -> bool)
    requires |order| > 0 && Ranks(order, rank) && Ascends(xs, rank)
    requires forall x :: x in xs <==> x in order && p(x)
    ensures var n := |order| - 1;
            && Ranks(order[..n], rank) && order == order[..n] + [order[n]]
            && if p(order[n]) then
                 && |xs| > 0 && xs == xs[..|xs| - 1] + [order[n]] && Ascends(xs[..|xs| - 1], rank)
                 && forall x :: x in xs[..|xs| - 1] <==> x in order[..n] && p(x)
               else
                 forall x :: x in xs <==> x in order[..n] && p(x)
  {
    var n := |order| - 1;
    var last := order[n];
    assert order == order[..n] + [last];
    forall x | x in order
      ensures x in rank && (x in order[..n] <==> rank[x] < n) && rank[x] <= n
    {
      RanksBelow(order, rank, x);
    }
    if p(last) {
      HighestIsLast(xs, rank, last);
    }
  }

  /** A strictly ascending list of exactly the elements that satisfy p is the filtered order. */
  lemma {:induction false} AscendingIsFilter<T(!new)>(order: seq<T>, rank: map<T, nat>, xs: seq<T>, p: T -> bool)
    requires Ranks(order, rank) && Ascends(xs, rank)
    requires forall x :: x in xs <==> x in order && p(x)
    ensures xs == Filter(order, p)
    decreases |order|
  {
    if |order| == 0 {
      EndsAreMembers(xs);
    } else {
      AscendingInit(order, rank, xs, p);
      var n := |order| - 1;
      AscendingIsFilter(order[..n], rank, if p(order[n]) then xs[..|xs| - 1] else xs, p);
    }
  }

  lemma {:induction false} FilterAgree<T(!new)>(xs: seq<T>, p: T -> bool, q: T -> bool)
    requires forall x :: x in xs ==> p(x) == q(x)
    ensures Filter(xs, p) == Filter(xs, q)
  {
    if |xs| > 0 {
      var n := |xs| - 1;
      assert xs == xs[..n] + [xs[n]];
      FilterAgree(xs[..n], p, q);
    }
  }

  lemma {:induction false} FilterAscends<T(!new)>(order: seq<T>, rank: map<T, nat>, p: T -> bool)
    requires Ranks(order, rank)
    ensures Ascends(Filter(order, p), rank)
    ensures forall x :: x in Filter(order, p) ==> rank[x] < |order|
  {
    if |order| > 0 {
      var n := |order| - 1;
      assert order == order[..n] + [order[n]];
      FilterAscends(order[..n], rank, p);
    }
  }

  lemma AscendsDistinct<T(!new)>(xs: seq<T>, rank: map<T, nat>)
    requires Ascends(xs, rank)
    ensures Distinct(xs)
  {
  }

  /** Insertion into a list sorted by distinct keys. */
  method Insert<T(!new)>(s: seq<T>, x: T, key: T -> nat) returns (r: seq<T>)
    requires forall i, j :: 0 <= i < j < |s| ==> key(s[i]) < key(s[j])
    requires forall i :: 0 <= i < |s| ==> key(s[i]) != key(x)
    ensures forall i, j :: 0 <= i < j < |r| ==> key(r[i]) < key(r[j])
    ensures forall y :: y in r <==> y in s || y == x
    ensures |r| == |s| + 1
  {
    var p := 0;
    while p < |s| && key(s[p]) < key(x)
      invariant p <= |s|
      invariant forall i :: 0 <= i < p ==> key(s[i]) < key(x)
    {
      p := p + 1;
    }
    assert s == s[..p] + s[p..];
    r := s[..p] + [x] + s[p..];
  }

  /** Sorts a list whose keys are pairwise different. */
  method SortBy<T(!new)>(s: seq<T>, key: T -> nat) returns (r: seq<T>)
    requires forall i, j :: 0 <= i < j < |s| ==> key(s[i]) != key(s[j])
    ensures forall i, j :: 0 <= i < j < |r| ==> key(r[i]) < key(r[j])
    ensures forall y :: y in r <==> y in s
    ensures |r| == |s|
  {
    r := [];
    for n := 0 to |s|
      invariant |r| == n
      invariant forall i, j :: 0 <= i < j < |r| ==> key(r[i]) < key(r[j])
      invariant forall y :: y in r <==> y in s[..n]
    {
      assert s[..n + 1] == s[..n] + [s[n]];
      assert forall i :: 0 <= i < |r| ==> key(r[i]) != key(s[n]) by {
        forall i | 0 <= i < |r| ensures key(r[i]) != key(s[n]) {
          assert r[i] in s[..n];
        }
      }
      r := Insert(r, s[n], key);
    }
    assert s[..|s|] == s;
  }
}
