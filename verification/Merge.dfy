/** The in-place merge of two adjacent sorted runs.

    While it runs, the array holds

        |== output ==|== rest of a ==|== queue ==|== rest of b ==|
        lo           a               q     h     b               hi

    The queue keeps the pairs of the left run that were displaced by pairs of the right run.
    It is a rotated run: it starts at `h`, continues to `b` and wraps around to `q`. */
module Merge {
  import opened Order
  import opened Blocks

  /** The pairs of the queue, in queue order. */
  function Queue(s: seq<Pair>, q: nat, h: nat, b: nat): seq<Pair>
    requires q <= h <= b <= |s|
  {
    s[h..b] + s[q..h]
  }

  /** What is left of the left run: first the queue, then the pairs that never moved. */
  function LeftRest(s: seq<Pair>, a: nat, q: nat, h: nat, b: nat): seq<Pair>
    requires a <= q <= h <= b <= |s|
  {
    Queue(s, q, h, b) + s[a..q]
  }

  ghost predicate Bounds(s: seq<Pair>, lo: nat, a: nat, q: nat, h: nat, b: nat, hi: nat) {
    && lo <= a <= q <= h <= b <= hi <= |s|
    && (if q == b then h == q else h < b)
  }

  /** The output so far, followed by the stable merge of what is left, is `target`. */
  ghost predicate Merging(rank: Rank, s: seq<Pair>, lo: nat, a: nat, q: nat, h: nat, b: nat, hi: nat, target: seq<Pair>) {
    && Bounds(s, lo, a, q, h, b, hi)
    && Sorted(rank, LeftRest(s, a, q, h, b))
    && Sorted(rank, s[b..hi])
    && s[lo..a] + StableMerge(rank, LeftRest(s, a, q, h, b), s[b..hi]) == target
  }

  // ---- Taking a stretch of `b` into the output

  /** From `s` to `t` the queue grew by the `r` pairs behind it, and its head moved to `h'`. */
  ghost predicate Appended(s: seq<Pair>, t: seq<Pair>, q: nat, h: nat, b: nat, r: nat, h': nat) {
    && q <= h <= b && b + r <= |s|
    && SameOutside(s, t, q, b + r)
    && q <= h' < b + r
    && Queue(t, q, h', b + r) == Queue(s, q, h, b) + s[b..b + r]
  }

  lemma RunTaken(rank: Rank, s: seq<Pair>, lo: nat, a: nat, q: nat, h: nat, b: nat, hi: nat, target: seq<Pair>,
                 r: nat, s1: seq<Pair>, s2: seq<Pair>, h2: nat)
    requires Merging(rank, s, lo, a, q, h, b, hi, target) && q < b
    requires 0 < r <= q - a && b + r <= hi
    requires forall i :: b <= i < b + r ==> Less(rank, s[i], s[h])
    requires BlocksSwapped(s, s1, a, b, r)
    requires Appended(s1, s2, q, h, b, r, h2)
    ensures Merging(rank, s2, lo, a + r, q, h2, b + r, hi, target)
    ensures SameOutside(s, s2, lo, hi)
  {
    hide Sorted, StableMerge;
    var x, run, y := LeftRest(s, a, q, h, b), s[b..b + r], s[b + r..hi];
    RunTakenParts(s, lo, a, q, h, b, hi, r, s1, s2, h2);
    assert s[b..hi] == run + y;
    assert x[0] == s[h];
    StableMergeRun(rank, x, run, y);
    SortedConcat(rank, run, y);
    Associative(s[lo..a], run, StableMerge(rank, x, y));
  }

  lemma RunTakenParts(s: seq<Pair>, lo: nat, a: nat, q: nat, h: nat, b: nat, hi: nat, r: nat,
                      s1: seq<Pair>, s2: seq<Pair>, h2: nat)
    requires Bounds(s, lo, a, q, h, b, hi) && r <= q - a && b + r <= hi
    requires BlocksSwapped(s, s1, a, b, r)
    requires Appended(s1, s2, q, h, b, r, h2)
    ensures s2[lo..a + r] == s[lo..a] + s[b..b + r]
    ensures LeftRest(s2, a + r, q, h2, b + r) == LeftRest(s, a, q, h, b)
    ensures s2[b + r..hi] == s[b + r..hi] && SameOutside(s, s2, lo, hi)
  {
    hide BlocksSwapped, Appended;
    SwappedSlices(s, s1, lo, a, q, h, b, hi, r);
    AppendedSlices(s1, s2, lo, q, h, b, hi, r, h2);
    Joined(s2, lo, q, hi);
    KeptSlice(s1, s2, q, b + r, lo, a + r);
    KeptSlice(s1, s2, q, b + r, a + r, q);
    Joined(s, a, a + r, q);
    Associative(Queue(s, q, h, b), s[a..a + r], s[a + r..q]);
  }

  lemma SwappedSlices(s: seq<Pair>, t: seq<Pair>, lo: nat, a: nat, q: nat, h: nat, b: nat, hi: nat, r: nat)
    requires Bounds(s, lo, a, q, h, b, hi) && r <= q - a && b + r <= hi && BlocksSwapped(s, t, a, b, r)
    ensures |t| == |s| && Queue(t, q, h, b) == Queue(s, q, h, b) && t[b..b + r] == s[a..a + r]
    ensures t[lo..a + r] == s[lo..a] + s[b..b + r] && t[a + r..q] == s[a + r..q]
    ensures t[b + r..hi] == s[b + r..hi] && SameOutside(s, t, lo, hi)
  {
    hide BlocksSwapped, SameOutside;
    SwappedBlocks(s, t, a, b, r);
    BlocksKeep(s, t, a, b, r, h, b);
    BlocksKeep(s, t, a, b, r, q, h);
    BlocksKeep(s, t, a, b, r, lo, a);
    BlocksKeep(s, t, a, b, r, a + r, q);
    BlocksKeep(s, t, a, b, r, b + r, hi);
    BlocksInside(s, t, a, b, r, lo, hi);
    Joined(t, lo, a, a + r);
  }

  lemma AppendedSlices(s: seq<Pair>, t: seq<Pair>, lo: nat, q: nat, h: nat, b: nat, hi: nat, r: nat, h': nat)
    requires Appended(s, t, q, h, b, r, h') && lo <= q && b + r <= hi <= |s|
    ensures |t| == |s| && h' <= b + r && Queue(t, q, h', b + r) == Queue(s, q, h, b) + s[b..b + r]
    ensures SameOutside(s, t, q, b + r) && SameOutside(s, t, lo, hi) && t[b + r..hi] == s[b + r..hi]
  {}

  // ---- The steps that move one pair

  /** The head of the queue goes out and the next pair of `a` takes its place as the queue's last. */
  lemma HeadTaken(rank: Rank, s: seq<Pair>, lo: nat, a: nat, q: nat, h: nat, b: nat, hi: nat, target: seq<Pair>, s': seq<Pair>)
    requires Merging(rank, s, lo, a, q, h, b, hi, target) && a < q < b
    requires b == hi || !Less(rank, s[b], s[h])
    requires s' == s[a := s[h]][h := s[a]]
    ensures Merging(rank, s', lo, a + 1, q, if h + 1 >= b then q else h + 1, b, hi, target)
    ensures SameOutside(s, s', lo, hi)
  {
    hide Sorted, StableMerge;
    var h' := if h + 1 >= b then q else h + 1;
    HeadTakenParts(s, a, q, h, b, s');
    assert s'[lo..a + 1] == s[lo..a] + [s[h]];
    assert s'[b..hi] == s[b..hi];
    LeftGoesOut(rank, s[lo..a], s[h], LeftRest(s', a + 1, q, h', b), s[b..hi]);
  }

  lemma HeadTakenParts(s: seq<Pair>, a: nat, q: nat, h: nat, b: nat, s': seq<Pair>)
    requires a < q <= h < b <= |s| && s' == s[a := s[h]][h := s[a]]
    ensures LeftRest(s, a, q, h, b) == [s[h]] + LeftRest(s', a + 1, q, if h + 1 >= b then q else h + 1, b)
  {
    QueueMoved(s, a, q, h, b, s');
    FirstOf(s, h, b);
    FirstOf(s, a, q);
    SwapKeeps(s, a, h, a + 1, q);
    Regrouped([s[h]], s[h + 1..b], s[q..h], [s[a]], s[a + 1..q]);
  }

  /** The queue without its head, with the next pair of `a` behind it. */
  lemma QueueMoved(s: seq<Pair>, a: nat, q: nat, h: nat, b: nat, s': seq<Pair>)
    requires a < q <= h < b <= |s| && s' == s[a := s[h]][h := s[a]]
    ensures Queue(s', q, if h + 1 >= b then q else h + 1, b) == s[h + 1..b] + (s[q..h] + [s[a]])
  {
    SwapKeeps(s, a, h, h + 1, b);
    SwapKeeps(s, a, h, q, h);
    LastOf(s', q, h);
  }

  lemma Regrouped(p: seq<Pair>, u: seq<Pair>, v: seq<Pair>, x: seq<Pair>, w: seq<Pair>)
    ensures ((p + u) + v) + (x + w) == p + ((u + (v + x)) + w)
  {}

  /** With an empty queue the next pair of `a` stays where it is. */
  lemma PairKept(rank: Rank, s: seq<Pair>, lo: nat, a: nat, b: nat, hi: nat, target: seq<Pair>)
    requires Merging(rank, s, lo, a, b, b, b, hi, target) && a < b
    requires b == hi || !Less(rank, s[b], s[a])
    ensures Merging(rank, s, lo, a + 1, b, b, b, hi, target)
    ensures SameOutside(s, s, lo, hi)
  {
    hide Sorted, StableMerge;
    assert LeftRest(s, a, b, b, b) == [s[a]] + LeftRest(s, a + 1, b, b, b);
    assert s[lo..a + 1] == s[lo..a] + [s[a]];
    LeftGoesOut(rank, s[lo..a], s[a], LeftRest(s, a + 1, b, b, b), s[b..hi]);
  }

  /** With an empty queue, a smaller pair of `b` trades places with the next pair of `a`,
      which becomes the queue. */
  lemma QueueStarted(rank: Rank, s: seq<Pair>, lo: nat, a: nat, b: nat, hi: nat, target: seq<Pair>, s': seq<Pair>)
    requires Merging(rank, s, lo, a, b, b, b, hi, target) && a < b < hi
    requires Less(rank, s[b], s[a])
    requires s' == s[a := s[b]][b := s[a]]
    ensures Merging(rank, s', lo, a + 1, b, b, b + 1, hi, target)
    ensures SameOutside(s, s', lo, hi)
  {
    hide Sorted, StableMerge;
    var x, y := LeftRest(s, a, b, b, b), s[b + 1..hi];
    assert x == [s[a]] + s[a + 1..b] && x[0] == s[a];
    assert s'[b..b + 1] == [s[a]] && LeftRest(s', a + 1, b, b, b + 1) == x;
    assert s'[b + 1..hi] == y && s[b..hi] == [s[b]] + y;
    assert s'[lo..a + 1] == s[lo..a] + [s[b]];
    RightGoesOut(rank, s[lo..a], x, s[b], y);
  }

  /** When `a` runs into the queue, the queue, put in order, becomes the new `a`. */
  lemma QueueStolen(rank: Rank, s: seq<Pair>, lo: nat, a: nat, q: nat, h: nat, b: nat, hi: nat, target: seq<Pair>, s': seq<Pair>)
    requires Merging(rank, s, lo, a, q, h, b, hi, target) && a >= q
    requires Rotated(s, s', q, h, b)
    ensures Merging(rank, s', lo, q, b, b, b, hi, target)
    ensures SameOutside(s, s', lo, hi)
  {
    hide Sorted, StableMerge;
    RotatedQueue(s, q, h, b, hi, s');
    assert LeftRest(s', q, b, b, b) == LeftRest(s, q, q, h, b);
    assert s'[lo..q] == s[lo..q];
  }

  // ---- Re-balancing

  /** The queue, put in order, is a sorted run. */
  lemma QueueInOrder(rank: Rank, s: seq<Pair>, lo: nat, a: nat, q: nat, h: nat, b: nat, hi: nat, target: seq<Pair>,
                     s1: seq<Pair>)
    requires Merging(rank, s, lo, a, q, h, b, hi, target) && Rotated(s, s1, q, h, b)
    ensures Sorted(rank, s1[q..b]) && Sorted(rank, s1[b..hi])
  {
    hide StableMerge;
    SortedConcat(rank, Queue(s, q, h, b), s[a..q]);
    RotatedQueue(s, q, h, b, hi, s1);
  }

  /** Merging the queue with the rest of `b` first leaves another sorted result to aim for. */
  lemma Rebalanced(rank: Rank, s: seq<Pair>, lo: nat, a: nat, q: nat, h: nat, b: nat, hi: nat, target: seq<Pair>,
                   s1: seq<Pair>, s2: seq<Pair>)
    returns (target': seq<Pair>)
    requires Merging(rank, s, lo, a, q, h, b, hi, target) && Sorted(rank, target)
    requires Rotated(s, s1, q, h, b)
    requires SameOutside(s1, s2, q, hi) && Sorted(rank, s2[q..hi]) && Permutation(s2[q..hi], s1[q..hi])
    ensures Merging(rank, s2, lo, a, q, q, q, hi, target')
    ensures Sorted(rank, target') && Permutation(target', target)
    ensures SameOutside(s, s2, lo, hi)
  {
    hide Sorted, StableMerge;
    var out, x, y := s[lo..a], LeftRest(s, a, q, h, b), s[b..hi];
    var x', y' := s2[a..q], s2[q..hi];
    RebalancedParts(s, lo, a, q, h, b, hi, s1, s2);
    SortedConcat(rank, Queue(s, q, h, b), s[a..q]);
    var m, m' := StableMerge(rank, x, y), StableMerge(rank, x', y');
    StableMergePermutes(rank, x, y);
    StableMergePermutes(rank, x', y');
    StableMergeSorted(rank, x', y');
    SortedConcat(rank, out, m);
    BelowPermutation(rank, out, m, m');
    target' := out + m';
    SortedConcat(rank, out, m');
    assert LeftRest(s2, a, q, q, q) == x';
  }

  lemma RebalancedParts(s: seq<Pair>, lo: nat, a: nat, q: nat, h: nat, b: nat, hi: nat, s1: seq<Pair>, s2: seq<Pair>)
    requires Bounds(s, lo, a, q, h, b, hi) && Rotated(s, s1, q, h, b)
    requires SameOutside(s1, s2, q, hi) && Permutation(s2[q..hi], s1[q..hi])
    ensures s2[lo..a] == s[lo..a] && s2[a..q] == s[a..q] && SameOutside(s, s2, lo, hi)
    ensures multiset(s2[a..q]) + multiset(s2[q..hi]) == multiset(LeftRest(s, a, q, h, b)) + multiset(s[b..hi])
  {
    SameOutsideWider(s, s1, q, b, lo, hi);
    SameOutsideWider(s1, s2, q, hi, lo, hi);
    RotatedQueue(s, q, h, b, hi, s1);
    assert s2[a..q] == s[a..q] && s2[lo..a] == s[lo..a];
  }

  lemma RotatedQueue(s: seq<Pair>, q: nat, h: nat, b: nat, hi: nat, s1: seq<Pair>)
    requires q <= h <= b <= hi <= |s| && Rotated(s, s1, q, h, b)
    ensures s1[q..b] == Queue(s, q, h, b) && s1[b..hi] == s[b..hi]
    ensures s1[q..hi] == Queue(s, q, h, b) + s[b..hi]
  {
    RotatedSlices(s, s1, q, h, b);
    KeptSlice(s, s1, q, b, b, hi);
    Joined(s1, q, b, hi);
  }

  // ---- The procedures

  /** Count the pairs from `start` that come before `key`. */
  method Scan(rank: Rank, arr: array<Pair>, start: nat, end: nat, key: Pair) returns (cnt: nat)
    requires start <= end <= arr.Length
    ensures start + cnt <= end
    ensures forall i :: start <= i < start + cnt ==> Less(rank, arr[i], key)
    ensures start + cnt < end ==> !Less(rank, arr[start + cnt], key)
  {
    cnt := 0;
    var x := start;
    while x < end && Less(rank, arr[x], key)
      invariant x == start + cnt <= end
      invariant forall i :: start <= i < x ==> Less(rank, arr[i], key)
    {
      cnt := cnt + 1;
      x := x + 1;
    }
  }

  /** Append the `r` pairs that follow the queue to it, with the least copying.
      `swaps` is the number of pairs that were touched. */
  method AppendToQueue(arr: array<Pair>, q: nat, h: nat, b: nat, r: nat) returns (h': nat, swaps: nat)
    requires q <= h < b && 0 < r && b + r <= arr.Length
    modifies arr
    ensures Appended(old(arr[..]), arr[..], q, h, b, r, h')
    ensures swaps <= b + r - q
  {
    hide *;
    ghost var s := arr[..];
    if r >= (if b - h <= h - q then b - h else h - q) {
      // rotate h back to q and leave the new pairs on the end
      Rotate(arr, q, h, b);
      h', swaps := q, b - q;
      AppendedInOrder(s, q, h, b, r, arr[..]);
    } else if b - h < h - q {
      // rotate h over the new pairs
      Rotate(arr, h, b, b + r);
      h', swaps := h + r, r + (b - h);
      AppendedMovingRight(s, q, h, b, r, arr[..]);
    } else {
      // swap the new pairs into the left part
      SwapBlock(arr, q, b, r);
      ghost var s1 := arr[..];
      Rotate(arr, q, q + r, h);
      h', swaps := h, r + (h - q);
      AppendedSwappingLeft(s, q, h, b, r, s1, arr[..]);
    }
  }

  lemma AppendedInOrder(s: seq<Pair>, q: nat, h: nat, b: nat, r: nat, t: seq<Pair>)
    requires q <= h < b && 0 < r && b + r <= |s| && Rotated(s, t, q, h, b)
    ensures Appended(s, t, q, h, b, r, q)
  {
    assert t[q..b] == Queue(s, q, h, b);
    assert t[q..b + r] == t[q..b] + s[b..b + r];
  }

  lemma AppendedMovingRight(s: seq<Pair>, q: nat, h: nat, b: nat, r: nat, t: seq<Pair>)
    requires q <= h < b && b + r <= |s| && Rotated(s, t, h, b, b + r)
    ensures Appended(s, t, q, h, b, r, h + r)
  {
    assert t[h + r..b + r] == s[h..b];
    assert t[q..h + r] == s[q..h] + s[b..b + r];
  }

  lemma AppendedSwappingLeft(s: seq<Pair>, q: nat, h: nat, b: nat, r: nat, s1: seq<Pair>, t: seq<Pair>)
    requires q + r <= h < b && b + r <= |s|
    requires BlocksSwapped(s, s1, q, b, r) && Rotated(s1, t, q, q + r, h)
    ensures Appended(s, t, q, h, b, r, h)
  {
    hide BlocksSwapped, Rotated;
    SwappedBlocks(s, s1, q, b, r);
    BlocksKeep(s, s1, q, b, r, q + r, h);
    BlocksKeep(s, s1, q, b, r, h, b);
    BlocksInside(s, s1, q, b, r, q, b + r);
    RotatedSlices(s1, t, q, q + r, h);
    RotatedInside(s1, t, q, q + r, h, b + r);
    KeptSlice(s1, t, q, h, h, b);
    KeptSlice(s1, t, q, h, b, b + r);
    Joined(t, h, b, b + r);
    Joined(s, q, q + r, h);
    Middle(s[h..b], s[q..q + r], s[q + r..h], s[b..b + r]);
  }

  lemma RotatedInside(s: seq<Pair>, t: seq<Pair>, x: nat, y: nat, z: nat, hi: nat)
    requires Rotated(s, t, x, y, z) && z <= hi <= |s|
    ensures SameOutside(s, t, x, z) && SameOutside(s, t, x, hi)
  {}

  lemma Middle(u: seq<Pair>, v: seq<Pair>, x: seq<Pair>, y: seq<Pair>)
    ensures (u + v) + (x + y) == (u + (v + x)) + y
  {}

  /** Approximate square root, by four Newton steps. */
  function Isqrt(x: nat): nat {
    if x < 2 then x
    else NewtonStep(x, NewtonStep(x, NewtonStep(x, NewtonStep(x, x / 2))))
  }

  function NewtonStep(x: nat, a: nat): (r: nat)
    requires 1 <= a <= x
    ensures 1 <= r <= x
  {
    QuotientBounds(x, a);
    (a + x / a) / 2
  }

  lemma QuotientBounds(x: nat, a: nat)
    requires 1 <= a <= x
    ensures 1 <= x / a <= x
  {}

  /** What a merge of `s[lo..mid]` and `s[mid..hi]` into `t[lo..hi]` owes its callers.
      A run of at most 128 pairs is too short for the re-balancing to set in, and then the merge is
      stable. */
  ghost predicate Merged(rank: Rank, s: seq<Pair>, t: seq<Pair>, lo: nat, mid: nat, hi: nat)
    requires lo <= mid <= hi <= |s|
  {
    && SameOutside(s, t, lo, hi)
    && Sorted(rank, t[lo..hi])
    && Permutation(t[lo..hi], s[lo..hi])
    && (mid - lo <= 128 || hi - mid <= 128 ==> t[lo..hi] == StableMerge(rank, s[lo..mid], s[mid..hi]))
  }

  /** The loop invariant of `Merge`: merging towards some sorted arrangement of the input, which is
      the stable one as long as there was no re-balancing. */
  ghost predicate InProgress(rank: Rank, s0: seq<Pair>, s: seq<Pair>, lo: nat, mid: nat, hi: nat,
                             a: nat, q: nat, h: nat, b: nat, target: seq<Pair>, rebalanced: bool)
    requires lo <= mid <= hi <= |s0|
  {
    && SameOutside(s0, s, lo, hi)
    && Merging(rank, s, lo, a, q, h, b, hi, target)
    && Sorted(rank, target) && Permutation(target, s0[lo..hi])
    && b - a <= mid - lo && mid <= q
    && (rebalanced ==> mid - lo > 128 && hi - mid > 128)
    && (!rebalanced ==> target == StableMerge(rank, s0[lo..mid], s0[mid..hi]))
  }

  lemma MergeStarts(rank: Rank, s: seq<Pair>, lo: nat, mid: nat, hi: nat)
    requires lo <= mid <= hi <= |s| && Sorted(rank, s[lo..mid]) && Sorted(rank, s[mid..hi])
    ensures InProgress(rank, s, s, lo, mid, hi, lo, mid, mid, mid, StableMerge(rank, s[lo..mid], s[mid..hi]), false)
  {
    hide StableMerge, Sorted;
    var x, y := s[lo..mid], s[mid..hi];
    StableMergeSorted(rank, x, y);
    StableMergePermutes(rank, x, y);
    assert s[lo..hi] == x + y;
    assert LeftRest(s, lo, mid, mid, mid) == x;
    assert s[lo..lo] + StableMerge(rank, x, y) == StableMerge(rank, x, y);
  }

  lemma ProgressSoFar(rank: Rank, s0: seq<Pair>, s: seq<Pair>, lo: nat, mid: nat, hi: nat,
                      a: nat, q: nat, h: nat, b: nat, target: seq<Pair>, rebalanced: bool)
    requires lo <= mid <= hi <= |s0| && InProgress(rank, s0, s, lo, mid, hi, a, q, h, b, target, rebalanced)
    ensures |s| == |s0| && Bounds(s, lo, a, q, h, b, hi) && b - a <= mid - lo && mid <= q
    ensures lo <= a <= q <= h <= b <= hi <= |s| && (if q == b then h == q else h < b)
    ensures Merging(rank, s, lo, a, q, h, b, hi, target) && Sorted(rank, target)
  {}

  lemma StillInProgress(rank: Rank, s0: seq<Pair>, s: seq<Pair>, s': seq<Pair>, lo: nat, mid: nat, hi: nat,
                        a: nat, q: nat, h: nat, b: nat, target: seq<Pair>,
                        a': nat, q': nat, h': nat, b': nat, target': seq<Pair>, rebalanced: bool, rebalanced': bool)
    requires lo <= mid <= hi <= |s0| && InProgress(rank, s0, s, lo, mid, hi, a, q, h, b, target, rebalanced)
    requires SameOutside(s, s', lo, hi) && Merging(rank, s', lo, a', q', h', b', hi, target')
    requires Sorted(rank, target') && Permutation(target', target) && b' - a' <= b - a && q <= q'
    requires if rebalanced' == rebalanced then rebalanced || target' == target
             else rebalanced' && mid - lo > 128 && hi - mid > 128
    ensures InProgress(rank, s0, s', lo, mid, hi, a', q', h', b', target', rebalanced')
  {
    hide Merging, Sorted, StableMerge;
  }

  lemma MergeEnds(rank: Rank, s0: seq<Pair>, s: seq<Pair>, lo: nat, mid: nat, hi: nat,
                  a: nat, q: nat, h: nat, b: nat, target: seq<Pair>, rebalanced: bool)
    requires lo <= mid <= hi <= |s0| && InProgress(rank, s0, s, lo, mid, hi, a, q, h, b, target, rebalanced) && a >= b
    ensures Merged(rank, s0, s, lo, mid, hi) && (rebalanced ==> mid - lo > 128 && hi - mid > 128)
    ensures !rebalanced ==> s[lo..hi] == StableMerge(rank, s0[lo..mid], s0[mid..hi])
  {
    hide Sorted;
    assert LeftRest(s, a, q, h, b) == [];
    assert s[lo..hi] == s[lo..b] + s[b..hi] == target;
  }

  /** Merge two adjacent sorted runs into one.  The merge is stable unless there was a re-balancing, which
      takes two runs of more than 128 pairs. */
  method Merge(rank: Rank, arr: array<Pair>, lo: nat, mid: nat, hi: nat) returns (ghost rebalanced: bool)
    requires lo <= mid <= hi <= arr.Length
    requires Sorted(rank, arr[lo..mid]) && Sorted(rank, arr[mid..hi])
    modifies arr
    ensures Merged(rank, old(arr[..]), arr[..], lo, mid, hi)
    ensures !rebalanced ==> arr[lo..hi] == StableMerge(rank, old(arr[lo..mid]), old(arr[mid..hi]))
    ensures rebalanced ==> mid - lo > 128 && hi - mid > 128
    decreases hi - lo
  {
    hide InProgress, Merging, Merged, StableMerge, Sorted, Rotated, SameOutside;
    ghost var s0 := arr[..];
    var a, q, h, b := lo, mid, mid, mid;
    ghost var target := StableMerge(rank, s0[lo..mid], s0[mid..hi]);
    assert arr[lo..mid] == s0[lo..mid] && arr[mid..hi] == s0[mid..hi];
    MergeStarts(rank, s0, lo, mid, hi);
    rebalanced := false;
    while a < b
      invariant InProgress(rank, s0, arr[..], lo, mid, hi, a, q, h, b, target, rebalanced)
      invariant a < q || a == b
      decreases hi - a
    {
      a, q, h, b, target, rebalanced := Step(rank, arr, lo, mid, hi, a, q, h, b, s0, target, rebalanced);
      if a >= q {
        ghost var s := arr[..];
        ProgressSoFar(rank, s0, s, lo, mid, hi, a, q, h, b, target, rebalanced);
        Rotate(arr, q, h, b);
        QueueStolen(rank, s, lo, a, q, h, b, hi, target, arr[..]);
        StillInProgress(rank, s0, s, arr[..], lo, mid, hi, a, q, h, b, target, q, b, b, b, target, rebalanced, rebalanced);
        a, q := q, b;
        h := q;
      }
    }
    MergeEnds(rank, s0, arr[..], lo, mid, hi, a, q, h, b, target, rebalanced);
  }

  /** One iteration of the merge, up to the check whether `a` ran into the queue: `a` advances. */
  method Step(rank: Rank, arr: array<Pair>, lo: nat, mid: nat, hi: nat, a: nat, q: nat, h: nat, b: nat,
              ghost s0: seq<Pair>, ghost target: seq<Pair>, ghost rebalanced: bool)
    returns (a': nat, q': nat, h': nat, b': nat, ghost target': seq<Pair>, ghost rebalanced': bool)
    requires lo <= mid <= hi <= |s0| == arr.Length
    requires InProgress(rank, s0, arr[..], lo, mid, hi, a, q, h, b, target, rebalanced) && a < q
    modifies arr
    ensures InProgress(rank, s0, arr[..], lo, mid, hi, a', q', h', b', target', rebalanced')
    ensures a < a' <= q' <= hi
    decreases hi - lo, 2
  {
    hide *;
    ghost var s := arr[..];
    ProgressSoFar(rank, s0, s, lo, mid, hi, a, q, h, b, target, rebalanced);
    a', q', h', b', target', rebalanced' := a + 1, q, h, b, target, rebalanced;
    if q < b {
      var r := Scan(rank, arr, b, if b + (q - a) <= hi then b + (q - a) else hi, arr[h]);
      if r > 0 {
        h', b', target', rebalanced' := TakeRun(rank, arr, lo, mid, hi, a, q, h, b, r, s0, target, rebalanced);
        a' := a + r;
      } else {
        h' := TakeHead(rank, arr, lo, mid, hi, a, q, h, b, s0, target, rebalanced);
      }
    } else if b < hi && Less(rank, arr[b], arr[a]) {
      StartQueue(rank, arr, lo, mid, hi, a, h, b, s0, target, rebalanced);
      b' := b + 1;
    } else {
      PairKept(rank, s, lo, a, b, hi, target);
      SamePermutation(target);
      StillInProgress(rank, s0, s, s, lo, mid, hi, a, q, h, b, target, a', q', h', b', target', rebalanced, rebalanced');
    }
  }

  /** The head of the queue goes out, and the next pair of `a` joins the queue. */
  method TakeHead(rank: Rank, arr: array<Pair>, lo: nat, mid: nat, hi: nat, a: nat, q: nat, h: nat, b: nat,
                  ghost s0: seq<Pair>, ghost target: seq<Pair>, ghost rebalanced: bool)
    returns (h': nat)
    requires lo <= mid <= hi <= |s0| == arr.Length
    requires InProgress(rank, s0, arr[..], lo, mid, hi, a, q, h, b, target, rebalanced) && a < q <= h < b <= hi
    requires b == hi || !Less(rank, arr[b], arr[h])
    modifies arr
    ensures InProgress(rank, s0, arr[..], lo, mid, hi, a + 1, q, h', b, target, rebalanced)
  {
    hide *;
    ghost var s := arr[..];
    ProgressSoFar(rank, s0, s, lo, mid, hi, a, q, h, b, target, rebalanced);
    SamePermutation(target);
    Swap(arr, a, h);
    HeadTaken(rank, s, lo, a, q, h, b, hi, target, arr[..]);
    h' := if h + 1 >= b then q else h + 1;
    StillInProgress(rank, s0, s, arr[..], lo, mid, hi, a, q, h, b, target, a + 1, q, h', b, target, rebalanced, rebalanced);
  }

  /** The next pairs of `a` and `b` trade places. */
  method StartQueue(rank: Rank, arr: array<Pair>, lo: nat, mid: nat, hi: nat, a: nat, h: nat, b: nat,
                    ghost s0: seq<Pair>, ghost target: seq<Pair>, ghost rebalanced: bool)
    requires lo <= mid <= hi <= |s0| == arr.Length
    requires InProgress(rank, s0, arr[..], lo, mid, hi, a, b, h, b, target, rebalanced) && a < b < hi && Less(rank, arr[b], arr[a])
    modifies arr
    ensures InProgress(rank, s0, arr[..], lo, mid, hi, a + 1, b, h, b + 1, target, rebalanced)
  {
    hide *;
    ghost var s := arr[..];
    ProgressSoFar(rank, s0, s, lo, mid, hi, a, b, h, b, target, rebalanced);
    SamePermutation(target);
    Swap(arr, a, b);
    QueueStarted(rank, s, lo, a, b, hi, target, arr[..]);
    StillInProgress(rank, s0, s, arr[..], lo, mid, hi, a, b, h, b, target, a + 1, b, h, b + 1, target, rebalanced, rebalanced);
  }

  /** Take `r` pairs of `b` into the output, in place of pairs of `a` which join the queue.
      If that was costly, merge the queue with the rest of `b`. */
  method TakeRun(rank: Rank, arr: array<Pair>, lo: nat, mid: nat, hi: nat, a: nat, q: nat, h: nat, b: nat, r: nat,
                 ghost s0: seq<Pair>, ghost target: seq<Pair>, ghost rebalanced: bool)
    returns (h': nat, b': nat, ghost target': seq<Pair>, ghost rebalanced': bool)
    requires lo <= mid <= hi <= |s0| == arr.Length
    requires InProgress(rank, s0, arr[..], lo, mid, hi, a, q, h, b, target, rebalanced) && q < b
    requires 0 < r <= q - a && b + r <= hi
    requires forall i :: b <= i < b + r ==> Less(rank, arr[i], arr[h])
    modifies arr
    ensures InProgress(rank, s0, arr[..], lo, mid, hi, a + r, q, h', b', target', rebalanced')
    decreases hi - lo, 1
  {
    hide InProgress, Merging, StableMerge, Sorted, Isqrt, SameOutside, BlocksSwapped, Appended;
    ghost var s := arr[..];
    ProgressSoFar(rank, s0, s, lo, mid, hi, a, q, h, b, target, rebalanced);
    SwapBlock(arr, a, b, r);
    ghost var s1 := arr[..];
    var swaps;
    h', swaps := AppendToQueue(arr, q, h, b, r);
    ghost var s2 := arr[..];
    RunTaken(rank, s, lo, a, q, h, b, hi, target, r, s1, s2, h');
    b', target', rebalanced' := b + r, target, rebalanced;
    StillInProgress(rank, s0, s, s2, lo, mid, hi, a, q, h, b, target, a + r, q, h', b', target', rebalanced, rebalanced);
    if swaps > 128 && swaps > Isqrt(b' - q) / 2 {
      target' := Rebalance(rank, arr, lo, a + r, q, h', b', hi, target);
      StillInProgress(rank, s0, s2, arr[..], lo, mid, hi, a + r, q, h', b', target, a + r, q, q, q, target', rebalanced, true);
      h', b', rebalanced' := q, q, true;
    }
  }

  /** Put the queue in order and merge it with the rest of `b`, leaving the queue empty. */
  method Rebalance(rank: Rank, arr: array<Pair>, lo: nat, a: nat, q: nat, h: nat, b: nat, hi: nat, ghost target: seq<Pair>)
    returns (ghost target': seq<Pair>)
    requires hi <= arr.Length && Merging(rank, arr[..], lo, a, q, h, b, hi, target)
    requires Sorted(rank, target) && lo < q
    modifies arr
    ensures SameOutside(old(arr[..]), arr[..], lo, hi)
    ensures Merging(rank, arr[..], lo, a, q, q, q, hi, target')
    ensures Sorted(rank, target') && Permutation(target', target)
    decreases hi - lo, 0
  {
    hide StableMerge, Sorted, LeftRest, Rotated, SameOutside;
    ghost var s := arr[..];
    Rotate(arr, q, h, b);
    ghost var s1 := arr[..];
    QueueInOrder(rank, s, lo, a, q, h, b, hi, target, s1);
    assert arr[q..b] == s1[q..b] && arr[b..hi] == s1[b..hi];
    ghost var _ := Merge(rank, arr, q, b, hi);
    target' := Rebalanced(rank, s, lo, a, q, h, b, hi, target, s1, arr[..]);
  }
}
