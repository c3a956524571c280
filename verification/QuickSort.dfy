/** Quicksort in place, with an explicit stack of the ranges still to be sorted. */
module QuickSort {

  datatype Frame = Frame(lo: nat, hi: nat)

  ghost predicate Sorted<T>(key: T -> int, s: seq<T>) {
    forall p, q :: 0 <= p < q < |s| ==> key(s[p]) <= key(s[q])
  }

  function Median(x: int, y: int, z: int): int {
    if x <= y <= z || z <= y <= x then y
    else if y <= x <= z || z <= x <= y then x
    else z
  }

  method Median3<T>(a: array<T>, key: T -> int, lo: nat, hi: nat) returns (m: nat)
    requires lo <= hi < a.Length
    ensures m == lo || m == lo + (hi - lo) / 2 || m == hi
    ensures lo <= m <= hi
    ensures key(a[m]) == Median(key(a[lo]), key(a[lo + (hi - lo) / 2]), key(a[hi]))
  {
    var mid := lo + (hi - lo) / 2;
    var x, y, z := key(a[lo]), key(a[mid]), key(a[hi]);
    if x < y {
      if x < z {
        return if y < z then mid else hi;
      } else {
        return lo;
      }
    } else {
      if x < z {
        return lo;
      } else {
        return if y < z then hi else mid;
      }
    }
  }

  // ---- Partition

  /** `t` is `s` with the elements of `[lo, hi]` permuted. */
  ghost predicate PermutedWithin<T>(s: seq<T>, t: seq<T>, lo: nat, hi: nat) {
    && |t| == |s| && lo <= hi < |s|
    && (forall p :: 0 <= p < |s| && !(lo <= p <= hi) ==> t[p] == s[p])
    && multiset(t[lo..hi + 1]) == multiset(s[lo..hi + 1])
  }

  /** Keys below the pivot's are on the left of `f`, the others on the right. */
  ghost predicate Split<T>(key: T -> int, s: seq<T>, lo: nat, hi: nat, f: nat) {
    && lo <= f <= hi < |s|
    && (forall p :: lo <= p < f ==> key(s[p]) < key(s[f]))
    && (forall p :: f < p <= hi ==> key(s[p]) >= key(s[f]))
  }

  /** One round of the loop: the pivot's slot is filled from the right end, and the range is split. */
  method Partition<T>(a: array<T>, key: T -> int, lo: nat, hi: nat) returns (f: nat)
    requires lo <= hi < a.Length
    modifies a
    ensures Split(key, a[..], lo, hi, f)
    ensures PermutedWithin(old(a[..]), a[..], lo, hi)
  {
    hide Median, Split, Scanned, PermutedWithin;
    ghost var s := a[..];
    var m := Median3(a, key, lo, hi);
    var pivot := a[m];
    a[m] := a[hi];
    PivotOut(s, lo, hi, m);
    assert a[..] == s[m := s[hi]];
    f := lo;
    var i := lo;
    ScanStarts(key, a[..], lo, pivot);
    while i < hi
      invariant lo <= f <= i <= hi && Scanned(key, a[..], lo, f, i, pivot)
      invariant PermutedWithin(s, a[..][hi := pivot], lo, hi)
    {
      ghost var t := a[..];
      if key(a[i]) < key(pivot) {
        a[i], a[f] := a[f], a[i];
        assert a[..] == t[i := t[f]][f := t[i]];
        ScannedLow(key, t, lo, f, i, hi, pivot);
        SwapWithin(s, t[hi := pivot], lo, hi, f, i);
        assert a[..][hi := pivot] == t[hi := pivot][i := t[f]][f := t[i]];
        f := f + 1;
      } else {
        ScannedHigh(key, t, lo, f, i, pivot);
      }
      i := i + 1;
    }
    ghost var t := a[..];
    a[hi] := a[f];
    a[f] := pivot;
    assert a[..] == t[hi := pivot][hi := t[hi := pivot][f]][f := pivot];
    SwapWithin(s, t[hi := pivot], lo, hi, f, hi);
    PivotIn(key, t, lo, f, hi, pivot);
  }

  ghost predicate Scanned<T>(key: T -> int, s: seq<T>, lo: nat, f: nat, i: nat, pivot: T) {
    && lo <= f <= i <= |s|
    && (forall p :: lo <= p < f ==> key(s[p]) < key(pivot))
    && (forall p :: f <= p < i ==> key(s[p]) >= key(pivot))
  }

  lemma ScanStarts<T>(key: T -> int, s: seq<T>, lo: nat, pivot: T)
    requires lo <= |s|
    ensures Scanned(key, s, lo, lo, lo, pivot)
  {}

  lemma ScannedLow<T>(key: T -> int, s: seq<T>, lo: nat, f: nat, i: nat, hi: nat, pivot: T)
    requires Scanned(key, s, lo, f, i, pivot) && i < hi < |s| && key(s[i]) < key(pivot)
    ensures Scanned(key, s[i := s[f]][f := s[i]], lo, f + 1, i + 1, pivot)
  {}

  lemma ScannedHigh<T>(key: T -> int, s: seq<T>, lo: nat, f: nat, i: nat, pivot: T)
    requires Scanned(key, s, lo, f, i, pivot) && i < |s| && key(s[i]) >= key(pivot)
    ensures Scanned(key, s, lo, f, i + 1, pivot)
  {}

  lemma PivotIn<T>(key: T -> int, s: seq<T>, lo: nat, f: nat, hi: nat, pivot: T)
    requires Scanned(key, s, lo, f, hi, pivot) && hi < |s|
    ensures Split(key, s[hi := pivot][hi := s[hi := pivot][f]][f := pivot], lo, hi, f)
  {}

  lemma PivotOut<T>(s: seq<T>, lo: nat, hi: nat, m: nat)
    requires lo <= m <= hi < |s|
    ensures PermutedWithin(s, s[m := s[hi]][hi := s[m]], lo, hi)
  {
    hide *;
    NotPermuted(s, lo, hi);
    SwapWithin(s, s, lo, hi, hi, m);
  }

  lemma NotPermuted<T>(s: seq<T>, lo: nat, hi: nat)
    requires lo <= hi < |s|
    ensures PermutedWithin(s, s, lo, hi)
  {}

  lemma SwapWithin<T>(s: seq<T>, t: seq<T>, lo: nat, hi: nat, i: nat, j: nat)
    requires lo <= i <= hi && lo <= j <= hi < |s| && PermutedWithin(s, t, lo, hi)
    ensures |t| == |s| && PermutedWithin(s, t[j := t[i]][i := t[j]], lo, hi)
  {
    hide *;
    PermutedLength(s, t, lo, hi);
    SwapSlice(t, lo, hi + 1, i, j);
    SwapPermutes(t[lo..hi + 1], i - lo, j - lo);
    PermutedFurther(s, t, t[j := t[i]][i := t[j]], lo, hi);
  }

  lemma PermutedLength<T>(s: seq<T>, t: seq<T>, lo: nat, hi: nat)
    requires PermutedWithin(s, t, lo, hi)
    ensures |t| == |s|
  {}

  lemma PermutedFurther<T>(s: seq<T>, t: seq<T>, u: seq<T>, lo: nat, hi: nat)
    requires PermutedWithin(s, t, lo, hi) && |u| == |t|
    requires forall p :: 0 <= p < |t| && !(lo <= p <= hi) ==> u[p] == t[p]
    requires multiset(u[lo..hi + 1]) == multiset(t[lo..hi + 1])
    ensures PermutedWithin(s, u, lo, hi)
  {}

  lemma SwapSlice<T>(t: seq<T>, lo: nat, end: nat, i: nat, j: nat)
    requires lo <= i < end && lo <= j < end <= |t|
    ensures var x := t[lo..end];
            t[j := t[i]][i := t[j]][lo..end] == x[j - lo := x[i - lo]][i - lo := x[j - lo]]
  {}

  lemma SwapPermutes<T>(x: seq<T>, i: nat, j: nat)
    requires i < |x| && j < |x|
    ensures multiset(x[j := x[i]][i := x[j]]) == multiset(x)
  {}

  // ---- Pending ranges

  ghost predicate Together(fs: seq<Frame>, p: int, q: int) {
    exists t :: 0 <= t < |fs| && fs[t].lo <= p && q <= fs[t].hi
  }

  /** Only pairs of elements within one pending range may be out of order. */
  ghost predicate NearlySorted<T>(key: T -> int, s: seq<T>, fs: seq<Frame>) {
    forall p, q :: 0 <= p < q < |s| ==> key(s[p]) <= key(s[q]) || Together(fs, p, q)
  }

  /** The pending ranges have two elements or more, and lie apart, from right to left. */
  ghost predicate Stacked(fs: seq<Frame>, size: nat) {
    && (forall t :: 0 <= t < |fs| ==> fs[t].lo < fs[t].hi < size - t)
    && (forall t, u :: 0 <= t < u < |fs| ==> fs[u].hi < fs[t].lo)
  }

  /** The elements in pending ranges. */
  ghost function Pending(fs: seq<Frame>): nat {
    if fs == [] then 0
    else var last := fs[|fs| - 1]; Pending(fs[..|fs| - 1]) + if last.lo < last.hi then last.hi - last.lo + 1 else 0
  }

  /** The ranges left by a partition around `f`. */
  ghost function Parts(cur: Frame, f: nat): seq<Frame> {
    (if cur.hi > f + 1 then [Frame(f + 1, cur.hi)] else []) + (if f > cur.lo + 1 then [Frame(cur.lo, f - 1)] else [])
  }

  lemma PendingPush(fs: seq<Frame>, g: Frame)
    ensures Pending(fs + [g]) == Pending(fs) + if g.lo < g.hi then g.hi - g.lo + 1 else 0
  {
    assert (fs + [g])[..|fs|] == fs;
  }

  lemma PendingParts(fs: seq<Frame>, cur: Frame, f: nat)
    requires cur.lo <= f <= cur.hi && cur.lo < cur.hi
    ensures Pending(fs + Parts(cur, f)) < Pending(fs + [cur])
  {
    var right, left := Frame(f + 1, cur.hi), Frame(cur.lo, if f > 0 then f - 1 else 0);
    PendingPush(fs, cur);
    PendingPush(fs, right);
    PendingPush(fs, left);
    PendingPush(fs + [right], left);
    assert fs + [] == fs;
    assert [right] + [] == [right] && [] + [left] == [left] && fs + ([right] + [left]) == fs + [right] + [left];
  }

  lemma StackedParts(fs: seq<Frame>, cur: Frame, f: nat, size: nat)
    requires Stacked(fs + [cur], size) && cur.lo <= f <= cur.hi
    ensures Stacked(fs + Parts(cur, f), size)
  {
    var all := fs + [cur];
    assert all[|fs|] == cur;
    forall t | 0 <= t < |fs| ensures all[t] == fs[t] {}
  }

  /** An element of a permuted range was somewhere in it before. */
  lemma WasWithin<T>(s: seq<T>, t: seq<T>, lo: nat, hi: nat, p: nat) returns (q: nat)
    requires PermutedWithin(s, t, lo, hi) && lo <= p <= hi
    ensures lo <= q <= hi && s[q] == t[p]
  {
    assert t[lo..hi + 1][p - lo] == t[p];
    assert t[p] in multiset(t[lo..hi + 1]);
    assert t[p] in s[lo..hi + 1];
    q :| lo <= q <= hi && s[q] == t[p];
  }

  lemma PartitionSorts<T>(key: T -> int, s: seq<T>, t: seq<T>, fs: seq<Frame>, cur: Frame, f: nat)
    requires NearlySorted(key, s, fs + [cur]) && Stacked(fs + [cur], |s|)
    requires PermutedWithin(s, t, cur.lo, cur.hi) && Split(key, t, cur.lo, cur.hi, f)
    ensures NearlySorted(key, t, fs + Parts(cur, f))
  {
    forall p, q | 0 <= p < q < |t| ensures key(t[p]) <= key(t[q]) || Together(fs + Parts(cur, f), p, q) {
      PairAfter(key, s, t, fs, cur, f, p, q);
    }
  }

  lemma PairAfter<T>(key: T -> int, s: seq<T>, t: seq<T>, fs: seq<Frame>, cur: Frame, f: nat, p: nat, q: nat)
    requires NearlySorted(key, s, fs + [cur]) && Stacked(fs + [cur], |s|)
    requires PermutedWithin(s, t, cur.lo, cur.hi) && Split(key, t, cur.lo, cur.hi, f) && p < q < |t|
    ensures key(t[p]) <= key(t[q]) || Together(fs + Parts(cur, f), p, q)
  {
    if cur.lo <= p && q <= cur.hi {
      if q < f || f < p { WithinParts(fs, cur, f, p, q); }
    } else {
      var p', q' := p, q;
      if cur.lo <= p <= cur.hi { p' := WasWithin(s, t, cur.lo, cur.hi, p); }
      if cur.lo <= q <= cur.hi { q' := WasWithin(s, t, cur.lo, cur.hi, q); }
      assert key(s[p']) <= key(s[q']) || Together(fs + [cur], p', q');
      if Together(fs + [cur], p', q') {
        OutsideParts(fs, cur, f, |s|, p, q, p', q');
      }
    }
  }

  lemma WithinParts(fs: seq<Frame>, cur: Frame, f: nat, p: nat, q: nat)
    requires cur.lo <= p < q <= cur.hi && (q < f || f < p)
    ensures Together(fs + Parts(cur, f), p, q)
  {
    var all := fs + Parts(cur, f);
    if q < f {
      assert all[|all| - 1] == Frame(cur.lo, f - 1);
    } else {
      assert all[|fs|] == Frame(f + 1, cur.hi);
    }
  }

  lemma OutsideParts(fs: seq<Frame>, cur: Frame, f: nat, size: nat, p: nat, q: nat, p': nat, q': nat)
    requires Stacked(fs + [cur], size) && Together(fs + [cur], p', q') && !(cur.lo <= p && q <= cur.hi) && p < q
    requires if cur.lo <= p <= cur.hi then cur.lo <= p' <= cur.hi else p' == p
    requires if cur.lo <= q <= cur.hi then cur.lo <= q' <= cur.hi else q' == q
    ensures Together(fs + Parts(cur, f), p, q)
  {
    var all := fs + [cur];
    var t :| 0 <= t < |all| && all[t].lo <= p' && q' <= all[t].hi;
    assert all[|fs|] == cur;
    assert t < |fs| && (fs + Parts(cur, f))[t] == fs[t] == all[t];
  }

  lemma PermutedWhole<T>(s: seq<T>, t: seq<T>, lo: nat, hi: nat)
    requires PermutedWithin(s, t, lo, hi)
    ensures |t| == |s| && multiset(t) == multiset(s)
  {
    assert s == s[..lo] + s[lo..hi + 1] + s[hi + 1..];
    assert t == s[..lo] + t[lo..hi + 1] + s[hi + 1..];
  }

  /** A partition of the current range, and what it leaves pending. */
  lemma Partitioned<T>(key: T -> int, s: seq<T>, t: seq<T>, fs: seq<Frame>, cur: Frame, f: nat)
    requires NearlySorted(key, s, fs + [cur]) && Stacked(fs + [cur], |s|)
    requires PermutedWithin(s, t, cur.lo, cur.hi) && Split(key, t, cur.lo, cur.hi, f)
    ensures cur.lo <= f <= cur.hi < |s| - |fs| && |t| == |s| && multiset(t) == multiset(s)
    ensures NearlySorted(key, t, fs + Parts(cur, f)) && Stacked(fs + Parts(cur, f), |t|)
    ensures Pending(fs + Parts(cur, f)) < Pending(fs + [cur])
  {
    assert (fs + [cur])[|fs|] == cur;
    PartitionSorts(key, s, t, fs, cur, f);
    StackedParts(fs, cur, f, |s|);
    PendingParts(fs, cur, f);
    PermutedWhole(s, t, cur.lo, cur.hi);
  }

  lemma NothingPending<T>(key: T -> int, s: seq<T>)
    requires NearlySorted(key, s, [])
    ensures Sorted(key, s)
  {}

  lemma AllPending<T>(key: T -> int, s: seq<T>, fs: seq<Frame>)
    requires |s| > 1 && fs == [Frame(0, |s| - 1)]
    ensures NearlySorted(key, s, fs) && Stacked(fs, |s|)
  {
    forall p, q | 0 <= p < q < |s| ensures Together(fs, p, q) {
      assert fs[0].lo <= p && q <= fs[0].hi;
    }
  }

  /** After a partition: stack the right part, and go on with the left one or else with the top of
      the stack. */
  method NextRange(stack: array<Frame>, top: nat, lo: nat, hi: nat, f: nat)
      returns (done: bool, lo': nat, hi': nat, top': nat)
    requires lo <= f <= hi && top + hi <= stack.Length
    modifies stack
    ensures top' <= stack.Length
    ensures done ==> old(stack[..top]) + Parts(Frame(lo, hi), f) == []
    ensures !done ==> stack[..top'] + [Frame(lo', hi')] == old(stack[..top]) + Parts(Frame(lo, hi), f)
  {
    lo', hi', top' := lo, hi, top;
    ghost var fs := stack[..top];
    if hi > f + 1 {
      stack[top'] := Frame(f + 1, hi);
      top' := top' + 1;
    }
    assert stack[..top'] == fs + if hi > f + 1 then [Frame(f + 1, hi)] else [];
    if f > lo + 1 {
      hi' := f - 1;
    } else if top' > 0 {
      top' := top' - 1;
      lo', hi' := stack[top'].lo, stack[top'].hi;
    } else {
      return true, lo', hi', top';
    }
    done := false;
  }

  method QuickSort<T>(a: array<T>, key: T -> int)
    modifies a
    ensures Sorted(key, a[..]) && multiset(a[..]) == multiset(old(a[..]))
  {
    if a.Length <= 1 {
      return;
    }
    hide *;
    var lo: nat, hi: nat := 0, a.Length - 1;
    var stack := new Frame[a.Length - 1](_ => Frame(0, 0));
    var top: nat := 0;
    AllPending(key, a[..], stack[..top] + [Frame(lo, hi)]);
    Refold(key, a[..], stack[..], stack[..top] + [Frame(lo, hi)], top, lo, hi);
    var done := false;
    while !done
      invariant fresh(stack) && multiset(a[..]) == multiset(old(a[..]))
      invariant if done then NearlySorted(key, a[..], []) else Ready(key, a[..], stack[..], top, lo, hi)
      decreases if done then 0 else 1, PendingIn(stack[..], top, lo, hi)
    {
      done, lo, hi, top := Round(a, key, stack, top, lo, hi);
    }
    NothingPending(key, a[..]);
  }

  /** Partition the current range, and find the next one. */
  method Round<T>(a: array<T>, key: T -> int, stack: array<Frame>, top: nat, lo: nat, hi: nat)
      returns (done: bool, lo': nat, hi': nat, top': nat)
    requires Ready(key, a[..], stack[..], top, lo, hi)
    modifies a, stack
    ensures multiset(a[..]) == multiset(old(a[..]))
    ensures done ==> NearlySorted(key, a[..], [])
    ensures !done ==> Ready(key, a[..], stack[..], top', lo', hi')
    ensures !done ==> PendingIn(stack[..], top', lo', hi') < old(PendingIn(stack[..], top, lo, hi))
  {
    hide *;
    IsReady(key, a[..], stack[..], top, lo, hi);
    ghost var s, fs := a[..], stack[..top];
    assert stack[..][..top] == fs;
    var f := Partition(a, key, lo, hi);
    Partitioned(key, s, a[..], fs, Frame(lo, hi), f);
    done, lo', hi', top' := NextRange(stack, top, lo, hi, f);
    if !done {
      Refold(key, a[..], stack[..], fs + Parts(Frame(lo, hi), f), top', lo', hi');
    }
  }

  lemma IsReady<T>(key: T -> int, s: seq<T>, stack: seq<Frame>, top: nat, lo: nat, hi: nat)
    requires Ready(key, s, stack, top, lo, hi)
    ensures top <= |stack| && |stack| + 1 == |s| && lo < hi && top + hi <= |stack|
    ensures NearlySorted(key, s, stack[..top] + [Frame(lo, hi)]) && Stacked(stack[..top] + [Frame(lo, hi)], |s|)
    ensures PendingIn(stack, top, lo, hi) == Pending(stack[..top] + [Frame(lo, hi)])
  {
    assert (stack[..top] + [Frame(lo, hi)])[top] == Frame(lo, hi);
  }

  lemma Refold<T>(key: T -> int, s: seq<T>, stack: seq<Frame>, fs: seq<Frame>, top: nat, lo: nat, hi: nat)
    requires top <= |stack| && |stack| + 1 == |s| && fs == stack[..top] + [Frame(lo, hi)]
    requires NearlySorted(key, s, fs) && Stacked(fs, |s|)
    ensures Ready(key, s, stack, top, lo, hi) && PendingIn(stack, top, lo, hi) == Pending(fs)
  {}

  ghost predicate Ready<T>(key: T -> int, s: seq<T>, stack: seq<Frame>, top: nat, lo: nat, hi: nat) {
    && top <= |stack| && |stack| + 1 == |s|
    && NearlySorted(key, s, stack[..top] + [Frame(lo, hi)]) && Stacked(stack[..top] + [Frame(lo, hi)], |s|)
  }

  ghost function PendingIn(stack: seq<Frame>, top: nat, lo: nat, hi: nat): nat {
    if top <= |stack| then Pending(stack[..top] + [Frame(lo, hi)]) else 0
  }
}
