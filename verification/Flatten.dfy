/** Flattening a collection of half-open ranges into disjoint ones, by a sweep over the sorted left
    and right ends. */
module Flatten {
  import opened Order
  import Quick = QuickSort

  // ---- Counting

  /** How many elements of `s` are at most `x`. */
  ghost function Count(s: seq<int>, x: int): nat {
    if s == [] then 0 else Count(s[1..], x) + if s[0] <= x then 1 else 0
  }

  lemma {:induction false} CountConcat(s: seq<int>, t: seq<int>, x: int)
    ensures Count(s + t, x) == Count(s, x) + Count(t, x)
  {
    if s == [] {
      assert s + t == t;
    } else {
      assert (s + t)[1..] == s[1..] + t;
      CountConcat(s[1..], t, x);
    }
  }

  lemma CountRemoved(t: seq<int>, j: nat, x: int)
    requires j < |t|
    ensures Count(t, x) == Count(t[..j] + t[j + 1..], x) + if t[j] <= x then 1 else 0
  {
    assert t == t[..j] + t[j..];
    assert t[j..][1..] == t[j + 1..];
    CountConcat(t[..j], t[j..], x);
    CountConcat(t[..j], t[j + 1..], x);
  }

  lemma ElementRemoved(t: seq<int>, j: nat)
    requires j < |t|
    ensures multiset(t) == multiset(t[..j] + t[j + 1..]) + multiset{t[j]}
  {
    assert t == (t[..j] + [t[j]]) + t[j + 1..];
  }

  /** The same element can be taken out of a permutation. */
  lemma FirstRemoved(s: seq<int>, t: seq<int>) returns (j: nat)
    requires s != [] && multiset(s) == multiset(t)
    ensures j < |t| && t[j] == s[0] && multiset(s[1..]) == multiset(t[..j] + t[j + 1..])
  {
    ElementRemoved(s, 0);
    assert s[..0] + s[1..] == s[1..];
    assert s[0] in multiset(t);
    j :| j < |t| && t[j] == s[0];
    ElementRemoved(t, j);
    var p, q := multiset(s[1..]), multiset(t[..j] + t[j + 1..]);
    assert p + multiset{s[0]} == q + multiset{s[0]};
    assert p == (p + multiset{s[0]}) - multiset{s[0]} == (q + multiset{s[0]}) - multiset{s[0]} == q;
  }

  /** The count does not depend on the order. */
  lemma {:induction false} CountPermuted(s: seq<int>, t: seq<int>, x: int)
    requires multiset(s) == multiset(t)
    ensures Count(s, x) == Count(t, x)
  {
    if s == [] {
      assert |multiset(t)| == 0;
    } else {
      var j := FirstRemoved(s, t);
      CountPermuted(s[1..], t[..j] + t[j + 1..], x);
      CountRemoved(t, j, x);
    }
  }

  lemma {:induction false} CountAll(s: seq<int>, x: int)
    ensures (forall i :: 0 <= i < |s| ==> s[i] <= x) ==> Count(s, x) == |s|
    ensures (forall i :: 0 <= i < |s| ==> s[i] > x) ==> Count(s, x) == 0
    ensures Count(s, x) <= |s|
  {
    if s != [] {
      CountAll(s[1..], x);
    }
  }

  function Id(x: int): int { x }

  ghost predicate Ascending(s: seq<int>) {
    Quick.Sorted(Id, s)
  }

  /** In a sorted sequence, the elements up to `x` come first. */
  lemma CountSorted(s: seq<int>, a: nat, x: int)
    requires Ascending(s) && a <= |s|
    ensures (a > 0 ==> s[a - 1] <= x) ==> Count(s, x) >= a
    ensures (a < |s| ==> s[a] > x) ==> Count(s, x) <= a
  {
    assert s == s[..a] + s[a..];
    CountConcat(s[..a], s[a..], x);
    CountAll(s[..a], x);
    CountAll(s[a..], x);
    if a > 0 { FrontUpTo(s, a, x); }
    if a < |s| { BackFrom(s, a, x); }
  }

  lemma FrontUpTo(s: seq<int>, a: nat, x: int)
    requires Ascending(s) && 0 < a <= |s|
    ensures s[a - 1] <= x ==> forall i :: 0 <= i < a ==> s[..a][i] <= x
  {
    forall i | 0 <= i < a && s[a - 1] <= x ensures s[..a][i] <= x {
      assert i < a - 1 ==> Id(s[i]) <= Id(s[a - 1]);
    }
  }

  lemma BackFrom(s: seq<int>, a: nat, x: int)
    requires Ascending(s) && a < |s|
    ensures s[a] > x ==> forall i :: 0 <= i < |s| - a ==> s[a..][i] > x
  {
    forall i | 0 <= i < |s| - a && s[a] > x ensures s[a..][i] > x {
      assert i > 0 ==> Id(s[a]) <= Id(s[a + i]);
    }
  }

  // ---- Ranges

  ghost predicate Covered(l: seq<int>, r: seq<int>, x: int)
    requires |l| == |r|
  {
    exists i :: 0 <= i < |l| && l[i] <= x < r[i]
  }

  ghost predicate Ranges(l: seq<int>, r: seq<int>) {
    |l| == |r| && forall i :: 0 <= i < |l| ==> l[i] <= r[i]
  }

  /** A point is covered if more ranges begin than end up to there. */
  lemma {:induction false} CoveredCount(l: seq<int>, r: seq<int>, x: int)
    requires Ranges(l, r)
    ensures Count(l, x) >= Count(r, x)
    ensures Covered(l, r, x) <==> Count(l, x) > Count(r, x)
  {
    if l != [] {
      CoveredCount(l[1..], r[1..], x);
      if Covered(l[1..], r[1..], x) {
        var i :| 0 <= i < |l[1..]| && l[1..][i] <= x < r[1..][i];
        assert l[i + 1] <= x < r[i + 1];
      }
      if Covered(l, r, x) {
        var i :| 0 <= i < |l| && l[i] <= x < r[i];
        assert i > 0 ==> l[1..][i - 1] <= x < r[1..][i - 1];
      }
    }
  }

  /** Sorting both ends separately leaves each left end below the right end at its place. */
  ghost predicate Dominated(l: seq<int>, r: seq<int>) {
    |l| == |r| && Ascending(l) && Ascending(r) && forall k :: 0 <= k < |l| ==> l[k] <= r[k]
  }

  lemma SortedEnds(l0: seq<int>, r0: seq<int>, l: seq<int>, r: seq<int>)
    requires Ranges(l0, r0) && Ascending(l) && Ascending(r)
    requires multiset(l) == multiset(l0) && multiset(r) == multiset(r0)
    ensures Dominated(l, r)
    ensures forall x :: Covered(l0, r0, x) <==> Count(l, x) > Count(r, x)
  {
    assert |l| == |multiset(l)| == |l0| && |r| == |multiset(r)| == |r0|;
    forall x ensures Count(l, x) >= Count(r, x) && (Covered(l0, r0, x) <==> Count(l, x) > Count(r, x)) {
      CoveredCount(l0, r0, x);
      CountPermuted(l, l0, x);
      CountPermuted(r, r0, x);
    }
    forall k | 0 <= k < |l| ensures l[k] <= r[k] {
      CountSorted(r, k + 1, r[k]);
      CountSorted(l, k, r[k]);
      assert Count(l, r[k]) >= Count(r, r[k]);
    }
  }

  // ---- The sweep

  ghost predicate InOutput(res: seq<Pair>, out: nat, x: int) {
    exists k :: 0 <= k < out <= |res| && res[k].first <= x < res[k].second
  }

  /** The ranges are not empty, do not touch, and increase. */
  ghost predicate Flat(res: seq<Pair>, out: nat) {
    && out <= |res|
    && (forall k :: 0 <= k < out ==> res[k].first < res[k].second)
    && (forall k :: 0 <= k < out - 1 ==> res[k].second < res[k + 1].first)
  }

  /** `x` is before the next left and right ends. */
  predicate Before(l: seq<int>, r: seq<int>, a: nat, b: nat, x: int) {
    (a < |l| ==> x < l[a]) && (b < |r| ==> x < r[b])
  }

  /** The sweep has passed `a` left and `b` right ends, and written `out` ranges; while more ranges
      have begun than ended, the next one is open. */
  ghost predicate Swept(l: seq<int>, r: seq<int>, res: seq<Pair>, out: nat, a: nat, b: nat) {
    && |l| == |r| <= |res| && out <= b <= a <= |l|
    && Passed(l, r, a, b) && Flat(res, out)
    && (forall k :: 0 <= k < out ==> (a < |l| ==> res[k].second <= l[a]) && (b < |r| ==> res[k].second <= r[b]))
    && (a == b && a < |l| && 0 < out ==> res[out - 1].second < l[a])
    && (a > b ==> res[out].first < r[b] && (a < |l| ==> res[out].first <= l[a]) && (0 < out ==> res[out - 1].second < res[out].first))
    && Accounted(l, r, res, out, a, b)
  }

  ghost predicate Passed(l: seq<int>, r: seq<int>, a: nat, b: nat)
    requires a <= |l| && b <= |r|
  {
    && (0 < a && b < |r| ==> l[a - 1] <= r[b])
    && (0 < b && a < |l| ==> r[b - 1] <= l[a])
  }

  /** Before the next end, the output and the open range cover what the input covers. */
  ghost predicate Accounted(l: seq<int>, r: seq<int>, res: seq<Pair>, out: nat, a: nat, b: nat)
    requires b < a ==> out < |res|
  {
    forall x :: Before(l, r, a, b, x) ==> (Count(l, x) > Count(r, x) <==> Written(res, out, a > b, x))
  }

  ghost predicate Written(res: seq<Pair>, out: nat, open: bool, x: int)
    requires open ==> out < |res|
  {
    InOutput(res, out, x) || (open && res[out].first <= x)
  }

  /** Between two events the counts are those of the ends passed. */
  lemma CountsPassed(l: seq<int>, r: seq<int>, a: nat, b: nat, x: int)
    requires Ascending(l) && Ascending(r) && |l| == |r| && a <= |l| && b <= |r| && Before(l, r, a, b, x)
    requires (a > 0 ==> l[a - 1] <= x) && (b > 0 ==> r[b - 1] <= x)
    ensures Count(l, x) == a && Count(r, x) == b
  {
    CountSorted(l, a, x);
    CountSorted(r, b, x);
  }

  lemma NextEnds(l: seq<int>, r: seq<int>, a: nat, b: nat)
    requires Dominated(l, r) && a <= |l| && b <= |r|
    ensures a + 1 < |l| ==> l[a] <= l[a + 1]
    ensures b + 1 < |r| ==> r[b] <= r[b + 1]
    ensures a == b < |l| ==> l[a] <= r[b]
  {
    assert a + 1 < |l| ==> Id(l[a]) <= Id(l[a + 1]);
    assert b + 1 < |r| ==> Id(r[b]) <= Id(r[b + 1]);
  }

  /** The three kinds of events leave the accounts in order.  `v` is the end that is passed. */
  lemma Accounts(l: seq<int>, r: seq<int>, res: seq<Pair>, out: nat, a: nat, b: nat, v: int,
                 res': seq<Pair>, out': nat, a': nat, b': nat, open: bool, open': bool)
    requires open == (a > b) && open' == (a' > b')
    requires Dominated(l, r) && Swept(l, r, res, out, a, b) && a' <= |l| && b' <= |r| && (b' < a' ==> out' < |res'|)
    requires forall x :: x < v ==> Before(l, r, a, b, x)
    requires forall x :: Before(l, r, a', b', x) && x >= v ==> (a' > 0 ==> l[a' - 1] <= x) && (b' > 0 ==> r[b' - 1] <= x)
    requires forall x :: x < v ==> (Written(res', out', open', x) <==> Written(res, out, open, x))
    requires forall x :: x >= v ==> (Written(res', out', open', x) <==> open')
    ensures Accounted(l, r, res', out', a', b')
  {
    forall x | Before(l, r, a', b', x)
      ensures Count(l, x) > Count(r, x) <==> Written(res', out', a' > b', x)
    {
      if x < v {
        assert Before(l, r, a, b, x);
      } else {
        CountsPassed(l, r, a', b', x);
      }
    }
  }

  lemma SweepOpen(l: seq<int>, r: seq<int>, res: seq<Pair>, out: nat, a: nat, b: nat, res': seq<Pair>)
    requires Dominated(l, r) && Swept(l, r, res, out, a, b) && a < |l| && b < |r| && l[a] < r[b]
    requires res' == if a == b then res[out := res[out].(first := l[a])] else res
    ensures Swept(l, r, res', out, a + 1, b)
  {
    hide Dominated, Count;
    NextEnds(l, r, a, b);
    Accounts(l, r, res, out, a, b, l[a], res', out, a + 1, b, a > b, a + 1 > b);
  }

  lemma SweepClose(l: seq<int>, r: seq<int>, res: seq<Pair>, out: nat, a: nat, b: nat, res': seq<Pair>, out': nat)
    requires Dominated(l, r) && Swept(l, r, res, out, a, b) && b < |r| && (a < |l| ==> l[a] > r[b])
    requires res' == if a == b + 1 then res[out := res[out].(second := r[b])] else res
    requires out' == if a == b + 1 then out + 1 else out
    ensures a > b && Swept(l, r, res', out', a, b + 1)
  {
    hide Dominated, Count, InOutput;
    NextEnds(l, r, a, b);
    var open, open' := a > b, a > b + 1;
    forall x
      ensures x < r[b] ==> (Written(res', out', open', x) <==> Written(res, out, open, x))
      ensures x >= r[b] ==> (Written(res', out', open', x) <==> open')
    {
      if x >= r[b] { OutputBefore(res, out, r[b], x); }
      if a == b + 1 { OutputClosed(res, out, r[b], x); }
    }
    Accounts(l, r, res, out, a, b, r[b], res', out', a, b + 1, a > b, a > b + 1);
  }

  lemma OutputClosed(res: seq<Pair>, out: nat, v: int, x: int)
    requires out < |res|
    ensures InOutput(res[out := res[out].(second := v)], out + 1, x) <==> InOutput(res, out, x) || res[out].first <= x < v
  {
    var res' := res[out := res[out].(second := v)];
    if InOutput(res, out, x) {
      var k :| 0 <= k < out && res[k].first <= x < res[k].second;
      assert res'[k] == res[k];
    }
    assert res'[out].second == v;
  }

  lemma OutputBefore(res: seq<Pair>, out: nat, v: int, x: int)
    requires out <= |res| && (forall k :: 0 <= k < out ==> res[k].second <= v) && x >= v
    ensures !InOutput(res, out, x)
  {}

  lemma SweepBoth(l: seq<int>, r: seq<int>, res: seq<Pair>, out: nat, a: nat, b: nat)
    requires Dominated(l, r) && Swept(l, r, res, out, a, b) && a < |l| && b < |r| && l[a] == r[b]
    ensures Swept(l, r, res, out, a + 1, b + 1)
  {
    hide Dominated, Count;
    NextEnds(l, r, a, b);
    Accounts(l, r, res, out, a, b, l[a], res, out, a + 1, b + 1, a > b, a + 1 > b + 1);
  }

  /** `flatten_ranges`: the ranges written are disjoint, and cover exactly what the input covers. */
  method FlattenRanges(l: array<int>, r: array<int>, res: array<Pair>) returns (out: nat)
    requires l != r && l.Length == r.Length <= res.Length && Ranges(l[..], r[..])
    modifies l, r, res
    ensures out <= l.Length && Flat(res[..], out)
    ensures forall x :: InOutput(res[..], out, x) <==> Covered(old(l[..]), old(r[..]), x)
  {
    var n := l.Length;
    Quick.QuickSort(l, Id);
    Quick.QuickSort(r, Id);
    SortedEnds(old(l[..]), old(r[..]), l[..], r[..]);
    ghost var ls, rs := l[..], r[..];
    hide *;
    var depth := 0;
    out := 0;
    var a: nat, b: nat := 0, 0;
    SweepStarts(ls, rs, res[..]);
    for i := 0 to n * 2
      invariant l[..] == ls && r[..] == rs && n == l.Length == r.Length <= res.Length
      invariant a <= n && depth == a - b && i <= a + b && (b > n ==> a == n)
      invariant Swept(ls, rs, res[..], out, a, if b <= n then b else n)
    {
      if b == n { SweptBounds(ls, rs, res[..], out, a, b); }
      if b < n {
        a, b, depth, out := Sweep(l, r, res, a, b, depth, out);
      } else {
        // Ends that were passed in pairs leave iterations over: the depth goes below zero, and
        // nothing more is read or written.
        depth, b := depth - 1, b + 1;
        assert depth < 0;
      }
    }
    SweepEnds(ls, rs, res[..], out);
  }

  /** The next event. */
  method Sweep(l: array<int>, r: array<int>, res: array<Pair>, a0: nat, b0: nat, depth0: int, out0: nat)
      returns (a: nat, b: nat, depth: int, out: nat)
    requires l.Length == r.Length <= res.Length && a0 <= l.Length && b0 < r.Length && depth0 == a0 - b0
    requires Dominated(l[..], r[..]) && Swept(l[..], r[..], res[..], out0, a0, b0)
    modifies res
    ensures l[..] == old(l[..]) && r[..] == old(r[..])
    ensures b0 <= b <= r.Length && a0 <= a <= l.Length && a + b > a0 + b0 && depth == a - b
    ensures Swept(l[..], r[..], res[..], out, a, b)
  {
    hide *;
    a, b, depth, out := a0, b0, depth0, out0;
    ghost var before := res[..];
    SweptBounds(l[..], r[..], before, out, a, b);
    if a >= l.Length || l[a] > r[b] {
      depth := depth - 1;
      if depth == 0 {
        res[out] := res[out].(second := r[b]);
        out := out + 1;
      }
      SweepClose(l[..], r[..], before, out0, a, b, res[..], out);
      b := b + 1;
    } else if l[a] < r[b] {
      if depth == 0 {
        res[out] := res[out].(first := l[a]);
      }
      SweepOpen(l[..], r[..], before, out, a, b, res[..]);
      depth := depth + 1;
      a := a + 1;
    } else {
      SweepBoth(l[..], r[..], before, out, a, b);
      a := a + 1;
      b := b + 1;
    }
  }

  lemma SweepStarts(l: seq<int>, r: seq<int>, res: seq<Pair>)
    requires Dominated(l, r) && |r| <= |res|
    ensures Swept(l, r, res, 0, 0, 0)
  {
    forall x | Before(l, r, 0, 0, x) ensures Count(l, x) == Count(r, x) == 0 {
      CountsPassed(l, r, 0, 0, x);
    }
  }

  lemma SweptBounds(l: seq<int>, r: seq<int>, res: seq<Pair>, out: nat, a: nat, b: nat)
    requires Swept(l, r, res, out, a, b)
    ensures out <= b <= a && (b < a ==> out < |res|)
  {}

  lemma SweepEnds(l: seq<int>, r: seq<int>, res: seq<Pair>, out: nat)
    requires |l| == |r| && Swept(l, r, res, out, |l|, |l|)
    ensures Flat(res, out) && forall x :: InOutput(res, out, x) <==> Count(l, x) > Count(r, x)
  {
    forall x ensures InOutput(res, out, x) <==> Count(l, x) > Count(r, x) {
      assert Before(l, r, |l|, |l|, x);
    }
  }
}
