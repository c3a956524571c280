/** Merging two adjacent sorted runs with the help of a buffer as long as the shorter run.

    While pairs of the left run remain, the array holds

        |== output ==|== rest of a ==|== vacated ==|== rest of b ==|
        lo           i               mid           b               hi

    and the buffer holds, as a circular queue that starts at `t`, the pairs of the left run
    that were displaced: as many as pairs of the right run have gone out.

    `merge_with_buffer` swaps pairs in and out, which preserves the buffer's contents;
    `merge_with_buffer_fast` copies them.  The steps of both are covered by the same lemmas,
    which say nothing about the vacated slots. */
module BufferMerge {
  import opened Order
  import opened Blocks

  // ---- The circular queue in the buffer

  function Next(buf: nat, end: nat, x: nat): nat {
    if x + 1 < end then x + 1 else buf
  }

  /** The slot behind the last of `n` queued pairs. */
  function Behind(buf: nat, end: nat, t: nat, n: nat): int {
    if t + n < end then t + n else t + n - (end - buf)
  }

  /** The `n` queued pairs. */
  function Ring(s: seq<Pair>, buf: nat, end: nat, t: nat, n: nat): (r: seq<Pair>)
    requires n == 0 || (buf <= t < end <= |s| && n <= end - buf)
    ensures |r| == n && forall k :: 0 <= k < n ==> r[k] == s[Behind(buf, end, t, k)]
  {
    seq(n, k requires 0 <= k < n => s[Behind(buf, end, t, k)])
  }

  lemma RingPush(s: seq<Pair>, s': seq<Pair>, buf: nat, end: nat, t: nat, n: nat)
    requires buf <= t < end <= |s| == |s'| && n < end - buf
    requires forall k :: buf <= k < end && k != Behind(buf, end, t, n) ==> s'[k] == s[k]
    ensures Ring(s', buf, end, t, n + 1) == Ring(s, buf, end, t, n) + [s'[Behind(buf, end, t, n)]]
    ensures buf <= Behind(buf, end, t, n) < end
    ensures Behind(buf, end, t, n + 1) == Next(buf, end, Behind(buf, end, t, n))
  {}

  lemma RingPop(s: seq<Pair>, s': seq<Pair>, buf: nat, end: nat, t: nat, n: nat)
    requires buf <= t < end <= |s| == |s'| && 0 < n <= end - buf
    requires forall k :: buf <= k < end && k != t ==> s'[k] == s[k]
    ensures Ring(s, buf, end, t, n) == [s[t]] + Ring(s', buf, end, Next(buf, end, t), n - 1)
    ensures Behind(buf, end, Next(buf, end, t), n - 1) == Behind(buf, end, t, n)
  {
    var t' := Next(buf, end, t);
    var r, r' := Ring(s, buf, end, t, n), Ring(s', buf, end, t', n - 1);
    forall k | 1 <= k < n ensures r[k] == r'[k - 1] {
      assert Behind(buf, end, t, k) == Behind(buf, end, t', k - 1);
    }
    assert r[0] == s[t];
  }

  lemma RingTurn(s: seq<Pair>, s': seq<Pair>, buf: nat, end: nat, t: nat, n: nat)
    requires buf <= t < end <= |s| == |s'| && 0 < n <= end - buf
    requires forall k :: buf <= k < end && k != Behind(buf, end, t, n) && k != t ==> s'[k] == s[k]
    ensures Ring(s, buf, end, t, n) + [s'[Behind(buf, end, t, n)]] == [s[t]] + Ring(s', buf, end, Next(buf, end, t), n)
    ensures buf <= Behind(buf, end, t, n) < end
    ensures Behind(buf, end, Next(buf, end, t), n) == Next(buf, end, Behind(buf, end, t, n))
  {
    var t' := Next(buf, end, t);
    var r, r' := Ring(s, buf, end, t, n), Ring(s', buf, end, t', n);
    forall k | 1 <= k < n ensures r[k] == r'[k - 1] {
      assert Behind(buf, end, t, k) == Behind(buf, end, t', k - 1);
    }
    assert r[0] == s[t] && r'[n - 1] == s'[Behind(buf, end, t, n)];
  }

  lemma BehindInside(buf: nat, end: nat, t: nat, n: nat)
    requires buf <= t < end && n <= end - buf
    ensures buf <= Behind(buf, end, t, n) < end
  {}

  lemma NextInside(buf: nat, end: nat, t: nat)
    requires buf <= t < end
    ensures buf <= Next(buf, end, t) < end
  {}

  lemma RingKept(s: seq<Pair>, s': seq<Pair>, buf: nat, end: nat, t: nat, n: nat)
    requires n == 0 || (buf <= t < end <= |s| == |s'| && n <= end - buf)
    requires |s'| == |s| && end <= |s| && forall k :: buf <= k < end ==> s'[k] == s[k]
    ensures Ring(s', buf, end, t, n) == Ring(s, buf, end, t, n)
  {}

  lemma RingHead(s: seq<Pair>, buf: nat, end: nat, t: nat, n: nat)
    requires buf <= t < end <= |s| && n <= end - buf
    ensures |Ring(s, buf, end, t, n)| == n && (n > 0 ==> Ring(s, buf, end, t, n)[0] == s[t])
  {}

  // ---- The merge

  /** The two runs `[lo..mid]`, `[mid..hi]` and the buffer slots `[buf..end]`. */
  datatype Area = Area(lo: nat, mid: nat, hi: nat, buf: nat, end: nat) {
    /** The buffer is as long as the shorter run and lies outside of both. */
    predicate Fits(len: nat) {
      && lo <= mid <= hi <= len && buf <= end <= len
      && end - buf == (if mid - lo <= hi - mid then mid - lo else hi - mid)
      && (end <= lo || hi <= buf)
    }
  }

  function AreaOf(lo: nat, mid: nat, hi: nat, buf: nat): Area
    requires lo <= mid <= hi
  {
    Area(lo, mid, hi, buf, buf + if mid - lo <= hi - mid then mid - lo else hi - mid)
  }

  ghost predicate SameElsewhere(s: seq<Pair>, s': seq<Pair>, f: Area) {
    |s| == |s'| && forall k :: 0 <= k < |s| && !(f.lo <= k < f.hi) && !(f.buf <= k < f.end) ==> s'[k] == s[k]
  }

  /** `s` and `s'` agree outside of the slots `x`, `y` and `z`. */
  ghost predicate Touched(s: seq<Pair>, s': seq<Pair>, x: nat, y: nat, z: nat) {
    |s| == |s'| && forall k :: 0 <= k < |s| && k != x && k != y && k != z ==> s'[k] == s[k]
  }

  lemma TouchedKeeps(s: seq<Pair>, s': seq<Pair>, x: nat, y: nat, z: nat, i: nat, j: nat)
    requires Touched(s, s', x, y, z) && i <= j <= |s| && !(i <= x < j) && !(i <= y < j) && !(i <= z < j)
    ensures |s'| == |s| && s'[i..j] == s[i..j]
  {}

  lemma TouchedBuffer(s: seq<Pair>, s': seq<Pair>, f: Area, i: nat, h: nat, b: nat)
    requires f.Fits(|s|) && Touched(s, s', i, h, b) && f.lo <= i < f.hi && f.lo <= b < f.hi && f.buf <= h < f.end
    ensures |s'| == |s| && forall k :: f.buf <= k < f.end && k != h ==> s'[k] == s[k]
    ensures SameElsewhere(s, s', f)
  {}

  lemma TouchedTurn(s: seq<Pair>, s': seq<Pair>, f: Area, i: nat, h: nat, t: nat)
    requires f.Fits(|s|) && Touched(s, s', i, h, t) && f.lo <= i < f.hi && f.buf <= h < f.end && f.buf <= t < f.end
    ensures |s'| == |s| && forall k :: f.buf <= k < f.end && k != h && k != t ==> s'[k] == s[k]
    ensures SameElsewhere(s, s', f)
  {}

  ghost predicate FillingBounds(len: nat, f: Area, i: nat, b: nat, t: nat) {
    && f.Fits(len) && f.lo <= i <= f.mid <= b <= f.hi
    && f.buf <= t && (f.buf < f.end ==> t < f.end)
    && b - f.mid <= i - f.lo
    && b - f.mid <= f.end - f.buf
  }

  /** What is left of the left run while some of it is still in place. */
  function LeftRest(s: seq<Pair>, f: Area, i: nat, b: nat, t: nat): seq<Pair>
    requires FillingBounds(|s|, f, i, b, t)
  {
    Ring(s, f.buf, f.end, t, b - f.mid) + s[i..f.mid]
  }

  /** The output so far, followed by the stable merge of what is left, is `target`. */
  ghost predicate Filling(rank: Rank, s: seq<Pair>, f: Area, i: nat, b: nat, t: nat, target: seq<Pair>) {
    && FillingBounds(|s|, f, i, b, t)
    && Sorted(rank, LeftRest(s, f, i, b, t))
    && Sorted(rank, s[b..f.hi])
    && s[f.lo..i] + StableMerge(rank, LeftRest(s, f, i, b, t), s[b..f.hi]) == target
  }

  /** The next pair of `b` goes out and the pair of `a` in its place is queued. */
  lemma Displaced(rank: Rank, s: seq<Pair>, f: Area, i: nat, b: nat, t: nat, target: seq<Pair>, h: nat, s': seq<Pair>)
    requires Filling(rank, s, f, i, b, t, target) && i < f.mid && b < f.hi && b - f.mid < f.end - f.buf
    requires Less(rank, s[b], s[i]) && (b == f.mid || Less(rank, s[b], s[t]))
    requires h == Behind(f.buf, f.end, t, b - f.mid)
    requires Touched(s, s', i, h, b) && s'[i] == s[b] && s'[h] == s[i]
    ensures Filling(rank, s', f, i + 1, b + 1, t, target)
    ensures Next(f.buf, f.end, h) == Behind(f.buf, f.end, t, b + 1 - f.mid)
    ensures SameElsewhere(s, s', f)
  {
    hide Sorted, StableMerge;
    DisplacedParts(s, f, i, b, t, h, s');
    assert LeftRest(s, f, i, b, t)[0] == if b == f.mid then s[i] else s[t];
    RightGoesOut(rank, s[f.lo..i], LeftRest(s, f, i, b, t), s[b], s[b + 1..f.hi]);
  }

  lemma DisplacedParts(s: seq<Pair>, f: Area, i: nat, b: nat, t: nat, h: nat, s': seq<Pair>)
    requires FillingBounds(|s|, f, i, b, t) && i < f.mid && b < f.hi && b - f.mid < f.end - f.buf
    requires h == Behind(f.buf, f.end, t, b - f.mid)
    requires Touched(s, s', i, h, b) && s'[i] == s[b] && s'[h] == s[i]
    ensures Next(f.buf, f.end, h) == Behind(f.buf, f.end, t, b + 1 - f.mid)
    ensures LeftRest(s', f, i + 1, b + 1, t) == LeftRest(s, f, i, b, t)
    ensures s[b..f.hi] == [s[b]] + s'[b + 1..f.hi] && s'[b + 1..f.hi] == s[b + 1..f.hi]
    ensures s'[f.lo..i + 1] == s[f.lo..i] + [s[b]]
  {
    hide Ring, Behind, Next, Touched, LeftRest;
    BehindInside(f.buf, f.end, t, b - f.mid);
    DisplacedQueue(s, f, i, b, t, h, s');
    MovedOut(s, s', f, i, h, b);
    FirstOf(s, b, f.hi);
    TouchedKeeps(s, s', i, h, b, b + 1, f.hi);
  }

  lemma DisplacedQueue(s: seq<Pair>, f: Area, i: nat, b: nat, t: nat, h: nat, s': seq<Pair>)
    requires FillingBounds(|s|, f, i, b, t) && i < f.mid && b < f.hi && b - f.mid < f.end - f.buf
    requires h == Behind(f.buf, f.end, t, b - f.mid)
    requires Touched(s, s', i, h, b) && s'[i] == s[b] && s'[h] == s[i]
    ensures Next(f.buf, f.end, h) == Behind(f.buf, f.end, t, b + 1 - f.mid)
    ensures LeftRest(s', f, i + 1, b + 1, t) == LeftRest(s, f, i, b, t)
  {
    hide Ring, Behind, Next, Touched;
    var n := b - f.mid;
    BehindInside(f.buf, f.end, t, n);
    TouchedBuffer(s, s', f, i, h, b);
    RingPush(s, s', f.buf, f.end, t, n);
    FirstOf(s, i, f.mid);
    TouchedKeeps(s, s', i, h, b, i + 1, f.mid);
    Associative(Ring(s, f.buf, f.end, t, n), [s[i]], s[i + 1..f.mid]);
  }

  /** A pair goes out to the slot `i`. */
  lemma MovedOut(s: seq<Pair>, s': seq<Pair>, f: Area, i: nat, y: nat, z: nat)
    requires Touched(s, s', i, y, z) && f.lo <= i < |s| && !(f.lo <= y < i) && !(f.lo <= z < i) && z < |s| && s'[i] == s[z]
    ensures |s'| == |s| && s'[f.lo..i + 1] == s[f.lo..i] + [s[z]]
  {
    TouchedKeeps(s, s', i, y, z, f.lo, i);
    LastOf(s', f.lo, i);
  }

  /** Nothing is queued and the next pair of `a` stays in place. */
  lemma Kept(rank: Rank, s: seq<Pair>, f: Area, i: nat, b: nat, t: nat, target: seq<Pair>)
    requires Filling(rank, s, f, i, b, t, target) && i < f.mid && b == f.mid
    requires b == f.hi || !Less(rank, s[b], s[i])
    ensures Filling(rank, s, f, i + 1, b, t, target)
  {
    hide Sorted, StableMerge;
    assert LeftRest(s, f, i, b, t) == [s[i]] + LeftRest(s, f, i + 1, b, t);
    assert s[f.lo..i + 1] == s[f.lo..i] + [s[i]];
    LeftGoesOut(rank, s[f.lo..i], s[i], LeftRest(s, f, i + 1, b, t), s[b..f.hi]);
  }

  /** The first queued pair goes out and the pair of `a` in its place is queued. */
  lemma Turned(rank: Rank, s: seq<Pair>, f: Area, i: nat, b: nat, t: nat, target: seq<Pair>, h: nat, s': seq<Pair>)
    requires Filling(rank, s, f, i, b, t, target) && i < f.mid < b
    requires b == f.hi || !Less(rank, s[b], s[t])
    requires h == Behind(f.buf, f.end, t, b - f.mid)
    requires Touched(s, s', i, h, t) && s'[i] == s[t] && s'[h] == s[i]
    ensures Filling(rank, s', f, i + 1, b, Next(f.buf, f.end, t), target)
    ensures Next(f.buf, f.end, h) == Behind(f.buf, f.end, Next(f.buf, f.end, t), b - f.mid)
    ensures SameElsewhere(s, s', f)
  {
    hide Sorted, StableMerge;
    var t' := Next(f.buf, f.end, t);
    TurnedParts(s, f, i, b, t, h, s');
    LeftGoesOut(rank, s[f.lo..i], s[t], LeftRest(s', f, i + 1, b, t'), s[b..f.hi]);
  }

  lemma TurnedParts(s: seq<Pair>, f: Area, i: nat, b: nat, t: nat, h: nat, s': seq<Pair>)
    requires FillingBounds(|s|, f, i, b, t) && i < f.mid < b
    requires h == Behind(f.buf, f.end, t, b - f.mid)
    requires Touched(s, s', i, h, t) && s'[i] == s[t] && s'[h] == s[i]
    ensures Next(f.buf, f.end, h) == Behind(f.buf, f.end, Next(f.buf, f.end, t), b - f.mid)
    ensures LeftRest(s, f, i, b, t) == [s[t]] + LeftRest(s', f, i + 1, b, Next(f.buf, f.end, t))
    ensures s'[b..f.hi] == s[b..f.hi]
    ensures s'[f.lo..i + 1] == s[f.lo..i] + [s[t]]
  {
    hide Ring, Behind, Next, Touched, LeftRest;
    BehindInside(f.buf, f.end, t, b - f.mid);
    NextInside(f.buf, f.end, t);
    TurnedQueue(s, f, i, b, t, h, s');
    MovedOut(s, s', f, i, h, t);
    TouchedKeeps(s, s', i, h, t, b, f.hi);
  }

  lemma TurnedQueue(s: seq<Pair>, f: Area, i: nat, b: nat, t: nat, h: nat, s': seq<Pair>)
    requires FillingBounds(|s|, f, i, b, t) && i < f.mid < b
    requires h == Behind(f.buf, f.end, t, b - f.mid)
    requires Touched(s, s', i, h, t) && s'[i] == s[t] && s'[h] == s[i]
    ensures Next(f.buf, f.end, h) == Behind(f.buf, f.end, Next(f.buf, f.end, t), b - f.mid)
    ensures FillingBounds(|s'|, f, i + 1, b, Next(f.buf, f.end, t))
    ensures LeftRest(s, f, i, b, t) == [s[t]] + LeftRest(s', f, i + 1, b, Next(f.buf, f.end, t))
  {
    hide Ring, Behind, Next, Touched;
    var n, t' := b - f.mid, Next(f.buf, f.end, t);
    BehindInside(f.buf, f.end, t, n);
    NextInside(f.buf, f.end, t);
    TouchedTurn(s, s', f, i, h, t);
    RingTurn(s, s', f.buf, f.end, t, n);
    FirstOf(s, i, f.mid);
    TouchedKeeps(s, s', i, h, t, i + 1, f.mid);
    Associative(Ring(s, f.buf, f.end, t, n), [s[i]], s[i + 1..f.mid]);
    Associative([s[t]], Ring(s', f.buf, f.end, t', n), s[i + 1..f.mid]);
  }

  /** The last pair of `b` goes out and the pair of `a` in its place takes its slot: from now on
      that pair is the right run.  Pairs that tie with it may now go out before it. */
  lemma LastSwapped(rank: Rank, s: seq<Pair>, f: Area, i: nat, b: nat, t: nat, target: seq<Pair>, s': seq<Pair>)
    returns (target': seq<Pair>)
    requires Filling(rank, s, f, i, b, t, target) && Sorted(rank, target) && i < f.mid && b + 1 == f.hi
    requires Less(rank, s[b], s[i]) && (b == f.mid || Less(rank, s[b], s[t]))
    requires s' == s[i := s[b]][b := s[i]]
    ensures Filling(rank, s', f, i + 1, b, t, target')
    ensures Sorted(rank, target') && Permutation(target', target)
    ensures i + 1 == f.mid ==> target' == target
    ensures SameElsewhere(s, s', f)
  {
    hide Sorted, StableMerge, Permutation, Ring;
    var out, ring, rest := s[f.lo..i], Ring(s, f.buf, f.end, t, b - f.mid), s[i + 1..f.mid];
    var x := ring + ([s[i]] + rest);
    LastSwappedParts(s, f, i, b, t, s');
    LastRightOut(rank, out, x, s[b]);
    PutBack(rank, out + [s[b]], ring, s[i], rest);
    target' := out + [s[b]] + StableMerge(rank, ring + rest, [s[i]]);
  }

  lemma LastRightOut(rank: Rank, out: seq<Pair>, x: seq<Pair>, p: Pair)
    requires x != [] && Less(rank, p, x[0])
    ensures out + StableMerge(rank, x, [p]) == out + [p] + x
  {
    assert [p] + [] == [p];
    StableMergeRightFirst(rank, x, p, []);
    StableMergeNil(rank, x);
  }

  /** Taking one pair out of a sorted run and merging it back in from the right. */
  lemma PutBack(rank: Rank, out: seq<Pair>, u: seq<Pair>, p: Pair, v: seq<Pair>)
    requires Sorted(rank, out + (u + ([p] + v)))
    ensures Sorted(rank, u + v) && Sorted(rank, [p])
    ensures Sorted(rank, out + StableMerge(rank, u + v, [p]))
    ensures Permutation(out + StableMerge(rank, u + v, [p]), out + (u + ([p] + v)))
    ensures v == [] ==> StableMerge(rank, u + v, [p]) == u + ([p] + v)
  {
    hide Sorted, StableMerge, Below;
    var x, m := u + ([p] + v), StableMerge(rank, u + v, [p]);
    SortedConcat(rank, out, x);
    SortedWithout(rank, u, p, v);
    StableMergePermutes(rank, u + v, [p]);
    StableMergeSorted(rank, u + v, [p]);
    BelowPermutation(rank, out, x, m);
    SortedConcat(rank, out, m);
    if v == [] {
      assert u + v == u && [p] + v == [p];
      StableMergeOrdered(rank, u, [p]);
    }
  }

  lemma LastSwappedParts(s: seq<Pair>, f: Area, i: nat, b: nat, t: nat, s': seq<Pair>)
    requires FillingBounds(|s|, f, i, b, t) && i < f.mid && b + 1 == f.hi
    requires s' == s[i := s[b]][b := s[i]]
    ensures LeftRest(s, f, i, b, t) == Ring(s, f.buf, f.end, t, b - f.mid) + ([s[i]] + s[i + 1..f.mid])
    ensures LeftRest(s', f, i + 1, b, t) == Ring(s, f.buf, f.end, t, b - f.mid) + s[i + 1..f.mid]
    ensures LeftRest(s, f, i, b, t)[0] == if b == f.mid then s[i] else s[t]
    ensures s[b..f.hi] == [s[b]] && s'[b..f.hi] == [s[i]]
    ensures s'[f.lo..i + 1] == s[f.lo..i] + [s[b]]
  {
    hide Ring;
    var n := b - f.mid;
    RingKept(s, s', f.buf, f.end, t, n);
    FirstOf(s, i, f.mid);
    SwapKeeps(s, i, b, i + 1, f.mid);
    SwapKeeps(s, i, b, f.lo, i);
    LastOf(s', f.lo, i);
    RingHead(s, f.buf, f.end, t, n);
  }

  lemma SortedWithout(rank: Rank, u: seq<Pair>, p: Pair, v: seq<Pair>)
    requires Sorted(rank, u + ([p] + v))
    ensures Sorted(rank, u + v) && Sorted(rank, [p]) && Below(rank, u, [p])
  {
    SortedConcat(rank, u, [p] + v);
    SortedConcat(rank, [p], v);
    assert forall i :: 0 <= i < |v| ==> ([p] + v)[i + 1] == v[i];
    assert ([p] + v)[0] == p;
    SortedConcat(rank, u, v);
  }

  // ---- Once the left run is gone from its place

  ghost predicate DrainingBounds(len: nat, f: Area, i: nat, b: nat, t: nat) {
    && f.Fits(len) && f.mid <= i <= b <= f.hi
    && f.buf <= t && (f.buf < f.end ==> t < f.end)
    && b - i <= f.end - f.buf
  }

  ghost predicate Draining(rank: Rank, s: seq<Pair>, f: Area, i: nat, b: nat, t: nat, target: seq<Pair>) {
    && DrainingBounds(|s|, f, i, b, t)
    && Sorted(rank, Ring(s, f.buf, f.end, t, b - i))
    && Sorted(rank, s[b..f.hi])
    && s[f.lo..i] + StableMerge(rank, Ring(s, f.buf, f.end, t, b - i), s[b..f.hi]) == target
  }

  lemma FillingEnds(rank: Rank, s: seq<Pair>, f: Area, b: nat, t: nat, target: seq<Pair>)
    requires Filling(rank, s, f, f.mid, b, t, target)
    ensures Draining(rank, s, f, f.mid, b, t, target)
  {
    assert LeftRest(s, f, f.mid, b, t) == Ring(s, f.buf, f.end, t, b - f.mid);
  }

  /** The first queued pair goes out. */
  lemma Popped(rank: Rank, s: seq<Pair>, f: Area, i: nat, b: nat, t: nat, target: seq<Pair>, s': seq<Pair>)
    requires Draining(rank, s, f, i, b, t, target) && i < b
    requires b == f.hi || !Less(rank, s[b], s[t])
    requires Touched(s, s', i, t, t) && s'[i] == s[t]
    ensures Draining(rank, s', f, i + 1, b, Next(f.buf, f.end, t), target)
    ensures Behind(f.buf, f.end, Next(f.buf, f.end, t), b - (i + 1)) == Behind(f.buf, f.end, t, b - i)
    ensures SameElsewhere(s, s', f)
  {
    hide Sorted, StableMerge, Ring, Touched, SameElsewhere, Behind, Next;
    TouchedPop(s, s', f, i, t);
    NextInside(f.buf, f.end, t);
    RingPop(s, s', f.buf, f.end, t, b - i);
    TouchedKeeps(s, s', i, t, t, b, f.hi);
    MovedOut(s, s', f, i, t, t);
    LeftGoesOut(rank, s[f.lo..i], s[t], Ring(s', f.buf, f.end, Next(f.buf, f.end, t), b - (i + 1)), s[b..f.hi]);
  }

  lemma TouchedPop(s: seq<Pair>, s': seq<Pair>, f: Area, i: nat, t: nat)
    requires f.Fits(|s|) && Touched(s, s', i, t, t) && f.lo <= i < f.hi && f.buf <= t < f.end
    ensures |s'| == |s| && forall k :: f.buf <= k < f.end && k != t ==> s'[k] == s[k]
    ensures SameElsewhere(s, s', f)
  {}

  lemma TouchedRun(s: seq<Pair>, s': seq<Pair>, f: Area, i: nat, b: nat)
    requires f.Fits(|s|) && Touched(s, s', i, b, b) && f.lo <= i <= b < f.hi
    ensures |s'| == |s| && forall k :: f.buf <= k < f.end ==> s'[k] == s[k]
    ensures SameElsewhere(s, s', f)
  {}

  /** The next pair of `b` goes out. */
  lemma Copied(rank: Rank, s: seq<Pair>, f: Area, i: nat, b: nat, t: nat, target: seq<Pair>, s': seq<Pair>)
    requires Draining(rank, s, f, i, b, t, target) && b < f.hi
    requires i == b || Less(rank, s[b], s[t])
    requires Touched(s, s', i, b, b) && s'[i] == s[b]
    ensures Draining(rank, s', f, i + 1, b + 1, t, target)
    ensures SameElsewhere(s, s', f)
  {
    hide Sorted, StableMerge, Ring, Touched, SameElsewhere;
    var ring, y := Ring(s, f.buf, f.end, t, b - i), s[b + 1..f.hi];
    TouchedRun(s, s', f, i, b);
    RingKept(s, s', f.buf, f.end, t, b - i);
    FirstOf(s, b, f.hi);
    TouchedKeeps(s, s', i, b, b, b + 1, f.hi);
    MovedOut(s, s', f, i, b, b);
    if i == b {
      assert ring == [];
      StableMergeNil(rank, [s[b]] + y);
      StableMergeNil(rank, y);
      SortedConcat(rank, [s[b]], y);
      Associative(s[f.lo..i], [s[b]], y);
    } else {
      RingHead(s, f.buf, f.end, t, b - i);
      RightGoesOut(rank, s[f.lo..i], ring, s[b], y);
    }
  }

  // ---- Merging towards a sorted arrangement of both runs

  /** `target` is a sorted arrangement of both runs, and the stable one if the left run is not the longer one. */
  ghost predicate Aims(rank: Rank, s0: seq<Pair>, f: Area, target: seq<Pair>)
    requires f.Fits(|s0|)
  {
    && Sorted(rank, target) && Permutation(target, s0[f.lo..f.hi])
    && (f.mid - f.lo <= f.hi - f.mid ==> target == StableMerge(rank, s0[f.lo..f.mid], s0[f.mid..f.hi]))
  }

  ghost predicate FillingTo(rank: Rank, s0: seq<Pair>, s: seq<Pair>, f: Area, i: nat, b: nat, t: nat, target: seq<Pair>) {
    && f.Fits(|s0|) && SameElsewhere(s0, s, f)
    && Filling(rank, s, f, i, b, t, target)
    && Aims(rank, s0, f, target)
  }

  ghost predicate DrainingTo(rank: Rank, s0: seq<Pair>, s: seq<Pair>, f: Area, i: nat, b: nat, t: nat, target: seq<Pair>) {
    && f.Fits(|s0|) && SameElsewhere(s0, s, f)
    && Draining(rank, s, f, i, b, t, target)
    && Aims(rank, s0, f, target)
  }

  lemma FillingStarts(rank: Rank, s: seq<Pair>, f: Area)
    requires f.Fits(|s|) && Sorted(rank, s[f.lo..f.mid]) && Sorted(rank, s[f.mid..f.hi])
    ensures FillingTo(rank, s, s, f, f.lo, f.mid, f.buf, StableMerge(rank, s[f.lo..f.mid], s[f.mid..f.hi]))
  {
    hide StableMerge, Sorted;
    var x, y := s[f.lo..f.mid], s[f.mid..f.hi];
    StableMergeSorted(rank, x, y);
    StableMergePermutes(rank, x, y);
    assert s[f.lo..f.hi] == x + y;
    assert LeftRest(s, f, f.lo, f.mid, f.buf) == x;
    assert s[f.lo..f.lo] + StableMerge(rank, x, y) == StableMerge(rank, x, y);
  }

  lemma FillingSoFar(rank: Rank, s0: seq<Pair>, s: seq<Pair>, f: Area, i: nat, b: nat, t: nat, target: seq<Pair>)
    requires FillingTo(rank, s0, s, f, i, b, t, target)
    ensures FillingBounds(|s|, f, i, b, t) && |s| == |s0|
    ensures f.lo <= i <= f.mid <= b <= f.hi <= |s| && f.buf <= f.end <= |s| && b - f.mid <= i - f.lo
    ensures i < f.mid && b < f.hi ==> f.buf <= t < f.end && (f.end <= f.lo || f.hi <= f.buf)
    ensures b + 1 < f.hi ==> b - f.mid < f.end - f.buf || i == f.mid
    ensures Filling(rank, s, f, i, b, t, target) && Sorted(rank, target)
    ensures f.mid < b && i < f.mid ==> !Less(rank, s[i], s[t])
    ensures f.buf < f.end ==> f.buf <= Behind(f.buf, f.end, t, b - f.mid) < f.end
  {
    var x := LeftRest(s, f, i, b, t);
    if f.mid < b && i < f.mid {
      assert x[0] == s[t] && x[b - f.mid] == s[i];
    }
  }

  lemma StillFilling(rank: Rank, s0: seq<Pair>, s: seq<Pair>, s': seq<Pair>, f: Area,
                     i: nat, b: nat, t: nat, target: seq<Pair>, i': nat, b': nat, t': nat, target': seq<Pair>)
    requires FillingTo(rank, s0, s, f, i, b, t, target)
    requires SameElsewhere(s, s', f) && Filling(rank, s', f, i', b', t', target')
    requires Sorted(rank, target') && Permutation(target', target)
    requires f.mid - f.lo <= f.hi - f.mid ==> target' == target
    ensures FillingTo(rank, s0, s', f, i', b', t', target')
  {
    hide Filling, Sorted, StableMerge;
  }

  lemma FillingDone(rank: Rank, s0: seq<Pair>, s: seq<Pair>, f: Area, i: nat, b: nat, t: nat, target: seq<Pair>)
    requires FillingTo(rank, s0, s, f, i, b, t, target) && i == f.mid
    ensures DrainingTo(rank, s0, s, f, i, b, t, target)
  {
    FillingEnds(rank, s, f, b, t, target);
  }

  lemma DrainingSoFar(rank: Rank, s0: seq<Pair>, s: seq<Pair>, f: Area, i: nat, b: nat, t: nat, target: seq<Pair>)
    requires DrainingTo(rank, s0, s, f, i, b, t, target)
    ensures DrainingBounds(|s|, f, i, b, t) && |s| == |s0|
    ensures Draining(rank, s, f, i, b, t, target)
  {}

  lemma StillDraining(rank: Rank, s0: seq<Pair>, s: seq<Pair>, s': seq<Pair>, f: Area,
                      i: nat, b: nat, t: nat, target: seq<Pair>, i': nat, b': nat, t': nat)
    requires DrainingTo(rank, s0, s, f, i, b, t, target)
    requires SameElsewhere(s, s', f) && Draining(rank, s', f, i', b', t', target)
    ensures DrainingTo(rank, s0, s', f, i', b', t', target)
  {
    hide Draining, Aims;
  }

  /** What a merge by way of a buffer owes its callers. */
  ghost predicate Merged(rank: Rank, s0: seq<Pair>, s: seq<Pair>, f: Area) {
    && f.Fits(|s0|) && SameElsewhere(s0, s, f)
    && Aims(rank, s0, f, s[f.lo..f.hi])
  }

  lemma DrainingDone(rank: Rank, s0: seq<Pair>, s: seq<Pair>, f: Area, b: nat, t: nat, target: seq<Pair>)
    requires DrainingTo(rank, s0, s, f, f.hi, b, t, target)
    ensures Merged(rank, s0, s, f)
  {
    assert s[f.lo..f.hi] == target by {
      assert Ring(s, f.buf, f.end, t, b - f.hi) == [] && s[b..f.hi] == [];
    }
  }

  // ---- merge_with_buffer: preserves, but scrambles, the buffer

  /** Merge two adjacent sorted runs of any lengths. */
  method MergeWithBuffer(rank: Rank, arr: array<Pair>, lo: nat, mid: nat, hi: nat, buf: nat)
    requires lo <= mid <= hi && AreaOf(lo, mid, hi, buf).Fits(arr.Length)
    requires Sorted(rank, arr[lo..mid]) && Sorted(rank, arr[mid..hi])
    modifies arr
    ensures Merged(rank, old(arr[..]), arr[..], AreaOf(lo, mid, hi, buf))
    ensures Permutation(arr[..], old(arr[..]))
  {
    hide FillingTo, DrainingTo, Merged, Sorted, StableMerge, Behind, SameElsewhere, Filling, Draining, FillingBounds, LeftRest, Ring;
    var f := AreaOf(lo, mid, hi, buf);
    ghost var s0 := arr[..];
    ghost var target := StableMerge(rank, s0[lo..mid], s0[mid..hi]);
    assert arr[lo..mid] == s0[lo..mid] && arr[mid..hi] == s0[mid..hi];
    FillingStarts(rank, s0, f);
    var i: nat, b: nat, t: nat, h: nat, n: nat := lo, mid, buf, buf, 0;
    NothingBehind(f.buf, f.end);
    while i < mid && b < hi
      invariant FillingTo(rank, s0, arr[..], f, i, b, t, target)
      invariant n == b - mid && (f.buf < f.end ==> h == Behind(f.buf, f.end, t, n))
      invariant Permutation(arr[..], s0)
      invariant i <= mid <= b <= hi && (b < hi || b == mid)
    {
      b, t, h, n, target := SwapStep(rank, arr, f, i, b, t, h, n, s0, target);
      i := i + 1;
    }
    while i < mid
      invariant FillingTo(rank, s0, arr[..], f, i, b, t, target)
      invariant Permutation(arr[..], s0)
      invariant i <= mid && (i < mid ==> b == mid == hi)
    {
      // the right run is empty, and so is the queue
      FillingSoFar(rank, s0, arr[..], f, i, b, t, target);
      Kept(rank, arr[..], f, i, b, t, target);
      SameElsewhereSame(arr[..], f);
      StillFilling(rank, s0, arr[..], arr[..], f, i, b, t, target, i + 1, b, t, target);
      i := i + 1;
    }
    FillingDone(rank, s0, arr[..], f, i, b, t, target);
    DrainSwapping(rank, arr, f, i, b, t, n, s0, target);
  }

  lemma NothingBehind(buf: nat, end: nat)
    ensures buf < end ==> Behind(buf, end, buf, 0) == buf
  {}

  method SwapStep(rank: Rank, arr: array<Pair>, f: Area, i: nat, b: nat, t: nat, h: nat, n: nat,
                  ghost s0: seq<Pair>, ghost target: seq<Pair>)
    returns (b': nat, t': nat, h': nat, n': nat, ghost target': seq<Pair>)
    requires FillingTo(rank, s0, arr[..], f, i, b, t, target) && i < f.mid && b < f.hi
    requires n == b - f.mid && h == Behind(f.buf, f.end, t, n)
    modifies arr
    ensures FillingTo(rank, s0, arr[..], f, i + 1, b', t', target')
    ensures f.mid <= b' < f.hi && n' == b' - f.mid && h' == Behind(f.buf, f.end, t', n')
    ensures Permutation(arr[..], old(arr[..]))
  {
    hide *;
    ghost var s := arr[..];
    FillingSoFar(rank, s0, s, f, i, b, t, target);
    b', t', h', n', target' := b, t, h, n, target;
    if n == 0 || Less(rank, arr[b], arr[t]) {
      if Less(rank, arr[b], arr[i]) {
        b', h', n', target' := SwapOut(rank, arr, f, i, b, t, h, n, s0, target);
      } else {
        if n > 0 { NotBelow(rank, arr[b], arr[t], arr[i]); }
        Kept(rank, s, f, i, b, t, target);
        SameElsewhereSame(s, f);
        SamePermutation(target);
        SamePermutation(s);
        StillFilling(rank, s0, s, s, f, i, b, t, target, i + 1, b, t, target);
      }
    } else {
      if !Less(rank, arr[i], arr[t]) {
        h', t' := SwapThrough(rank, arr, f, i, b, t, h, n, s0, target);
      }
    }
  }

  lemma NotBelow(rank: Rank, x: Pair, y: Pair, z: Pair)
    requires Less(rank, x, y) && !Less(rank, z, y)
    ensures Less(rank, x, z)
  {}

  lemma PermutedTwice(s: seq<Pair>, t: seq<Pair>, u: seq<Pair>)
    requires Permutation(t, s) && Permutation(u, t)
    ensures Permutation(u, s)
  {}

  /** The first queued pair goes out, and the pair that was there to the end of the queue. */
  method SwapThrough(rank: Rank, arr: array<Pair>, f: Area, i: nat, b: nat, t: nat, h: nat, n: nat,
                     ghost s0: seq<Pair>, ghost target: seq<Pair>)
    returns (h': nat, t': nat)
    requires FillingTo(rank, s0, arr[..], f, i, b, t, target) && i < f.mid < b < f.hi <= arr.Length && t < arr.Length
    requires n == b - f.mid && h == Behind(f.buf, f.end, t, n) && !Less(rank, arr[b], arr[t])
    modifies arr
    ensures FillingTo(rank, s0, arr[..], f, i + 1, b, t', target) && h' == Behind(f.buf, f.end, t', n)
    ensures Permutation(arr[..], old(arr[..]))
  {
    hide *;
    ghost var s := arr[..];
    FillingSoFar(rank, s0, s, f, i, b, t, target);
    TwoSwaps(arr, i, t, h);
    Turned(rank, s, f, i, b, t, target, h, arr[..]);
    h', t' := Next(f.buf, f.end, h), Next(f.buf, f.end, t);
    SamePermutation(target);
    StillFilling(rank, s0, s, arr[..], f, i, b, t, target, i + 1, b, t', target);
  }

  method TwoSwaps(arr: array<Pair>, i: nat, t: nat, h: nat)
    requires i < arr.Length && t < arr.Length && h < arr.Length && h != i && t != i
    modifies arr
    ensures Touched(old(arr[..]), arr[..], i, h, t) && arr[i] == old(arr[t]) && arr[h] == old(arr[i])
    ensures Permutation(arr[..], old(arr[..]))
  {
    Swap(arr, i, t);
    Swap(arr, h, t);
  }

  method SwapOut(rank: Rank, arr: array<Pair>, f: Area, i: nat, b: nat, t: nat, h: nat, n: nat,
                 ghost s0: seq<Pair>, ghost target: seq<Pair>)
    returns (b': nat, h': nat, n': nat, ghost target': seq<Pair>)
    requires FillingTo(rank, s0, arr[..], f, i, b, t, target) && i < f.mid && b < f.hi <= arr.Length
    requires n == b - f.mid && h == Behind(f.buf, f.end, t, n) && t < arr.Length
    requires Less(rank, arr[b], arr[i]) && (n == 0 || Less(rank, arr[b], arr[t]))
    modifies arr
    ensures FillingTo(rank, s0, arr[..], f, i + 1, b', t, target')
    ensures f.mid <= b' < f.hi && n' == b' - f.mid && h' == Behind(f.buf, f.end, t, n')
    ensures Permutation(arr[..], old(arr[..]))
  {
    hide *;
    ghost var s := arr[..];
    FillingSoFar(rank, s0, s, f, i, b, t, target);
    b', h', n', target' := b, h, n, target;
    Swap(arr, i, b);
    if b < f.hi - 1 {
      ghost var s1 := arr[..];
      SwapIn(arr, i, b, h, s);
      PermutedTwice(s, s1, arr[..]);
      Displaced(rank, s, f, i, b, t, target, h, arr[..]);
      SamePermutation(target);
      b', h', n' := b + 1, Next(f.buf, f.end, h), n + 1;
    } else {
      target' := LastSwapped(rank, s, f, i, b, t, target, arr[..]);
    }
    StillFilling(rank, s0, s, arr[..], f, i, b, t, target, i + 1, b', t, target');
  }

  /** The displaced pair moves on from the slot of `b` into the buffer. */
  method SwapIn(arr: array<Pair>, i: nat, b: nat, h: nat, ghost s: seq<Pair>)
    requires i < b < arr.Length && h < arr.Length && h != i && h != b
    requires |s| == arr.Length && arr[..] == s[i := s[b]][b := s[i]]
    modifies arr
    ensures Touched(s, arr[..], i, h, b) && arr[i] == s[b] && arr[h] == s[i]
    ensures Permutation(arr[..], old(arr[..]))
  {
    Swap(arr, b, h);
  }

  lemma SameElsewhereSame(s: seq<Pair>, f: Area)
    ensures SameElsewhere(s, s, f)
  {}

  method DrainSwapping(rank: Rank, arr: array<Pair>, f: Area, i0: nat, b0: nat, t0: nat, n0: nat,
                       ghost s0: seq<Pair>, ghost target: seq<Pair>)
    requires DrainingTo(rank, s0, arr[..], f, i0, b0, t0, target) && n0 == b0 - i0
    modifies arr
    ensures Merged(rank, s0, arr[..], f)
    ensures Permutation(arr[..], old(arr[..]))
  {
    hide DrainingTo, Draining, Merged, Sorted, StableMerge, SameElsewhere, Next;
    var i: nat, b: nat, t: nat, n: nat := i0, b0, t0, n0;
    DrainingSoFar(rank, s0, arr[..], f, i, b, t, target);
    while b < f.hi
      invariant DrainingTo(rank, s0, arr[..], f, i, b, t, target)
      invariant i <= b <= f.hi && n == b - i
      invariant Permutation(arr[..], old(arr[..]))
      decreases f.hi - i
    {
      DrainingSoFar(rank, s0, arr[..], f, i, b, t, target);
      if n > 0 && !Less(rank, arr[b], arr[t]) {
        PopSwapping(rank, arr, f, i, b, t, s0, target);
        t, n := Next(f.buf, f.end, t), n - 1;
      } else {
        CopySwapping(rank, arr, f, i, b, t, s0, target);
        b := b + 1;
      }
      i := i + 1;
    }
    while n > 0
      invariant DrainingTo(rank, s0, arr[..], f, i, b, t, target)
      invariant i <= b == f.hi && n == b - i
      invariant Permutation(arr[..], old(arr[..]))
    {
      PopSwapping(rank, arr, f, i, b, t, s0, target);
      i, t, n := i + 1, Next(f.buf, f.end, t), n - 1;
    }
    DrainingDone(rank, s0, arr[..], f, b, t, target);
  }

  method PopSwapping(rank: Rank, arr: array<Pair>, f: Area, i: nat, b: nat, t: nat, ghost s0: seq<Pair>, ghost target: seq<Pair>)
    requires DrainingTo(rank, s0, arr[..], f, i, b, t, target) && i < b
    requires b == f.hi || (b < f.hi && t < |s0| == arr.Length && f.hi <= |s0| && !Less(rank, arr[b], arr[t]))
    modifies arr
    ensures DrainingTo(rank, s0, arr[..], f, i + 1, b, Next(f.buf, f.end, t), target)
    ensures Permutation(arr[..], old(arr[..]))
  {
    hide DrainingTo, Draining, Sorted, StableMerge, SameElsewhere, Next;
    ghost var s := arr[..];
    DrainingSoFar(rank, s0, s, f, i, b, t, target);
    Swap(arr, i, t);
    Popped(rank, s, f, i, b, t, target, arr[..]);
    StillDraining(rank, s0, s, arr[..], f, i, b, t, target, i + 1, b, Next(f.buf, f.end, t));
  }

  method CopySwapping(rank: Rank, arr: array<Pair>, f: Area, i: nat, b: nat, t: nat, ghost s0: seq<Pair>, ghost target: seq<Pair>)
    requires DrainingTo(rank, s0, arr[..], f, i, b, t, target) && b < f.hi
    requires i == b || (t < |s0| == arr.Length && f.hi <= |s0| && Less(rank, arr[b], arr[t]))
    modifies arr
    ensures DrainingTo(rank, s0, arr[..], f, i + 1, b + 1, t, target)
    ensures Permutation(arr[..], old(arr[..]))
  {
    hide DrainingTo, Draining, Sorted, StableMerge, SameElsewhere, Next;
    ghost var s := arr[..];
    DrainingSoFar(rank, s0, s, f, i, b, t, target);
    Swap(arr, i, b);
    Copied(rank, s, f, i, b, t, target, arr[..]);
    StillDraining(rank, s0, s, arr[..], f, i, b, t, target, i + 1, b + 1, t);
  }

  /** The buffer is left with the pairs it had. */
  lemma BufferPreserved(rank: Rank, s: seq<Pair>, s': seq<Pair>, f: Area)
    requires Merged(rank, s, s', f) && Permutation(s', s)
    ensures Permutation(s'[f.buf..f.end], s[f.buf..f.end])
  {
    hide Sorted, StableMerge;
    if f.end <= f.lo {
      TwoStretches(s, s', f.buf, f.end, f.lo, f.hi);
    } else {
      TwoStretches(s, s', f.lo, f.hi, f.buf, f.end);
    }
  }

  /** Rearranging a sequence within two stretches, a rearrangement of one makes a rearrangement of the other. */
  lemma TwoStretches(s: seq<Pair>, s': seq<Pair>, i: nat, j: nat, k: nat, l: nat)
    requires i <= j <= k <= l <= |s| == |s'| && multiset(s') == multiset(s)
    requires s'[..i] == s[..i] && s'[j..k] == s[j..k] && s'[l..] == s[l..]
    ensures multiset(s'[i..j]) == multiset(s[i..j]) <==> multiset(s'[k..l]) == multiset(s[k..l])
  {
    FiveParts(s, i, j, k, l);
    FiveParts(s', i, j, k, l);
    var m := multiset(s[..i]) + multiset(s[j..k]) + multiset(s[l..]);
    var x, y, x', y' := multiset(s[i..j]), multiset(s[k..l]), multiset(s'[i..j]), multiset(s'[k..l]);
    assert m + (x + y) == multiset(s) == multiset(s') == m + (x' + y');
    CancelLeft(m, x + y, x' + y');
    CancelLeft(x, y, y');
    CancelLeft(y, x, x');
    assert y + x == x + y && y + x' == x' + y;
  }

  lemma CancelLeft(m: multiset<Pair>, x: multiset<Pair>, y: multiset<Pair>)
    ensures m + x == m + y <==> x == y
  {
    if m + x == m + y {
      forall p ensures x[p] == y[p] {
        assert (m + x)[p] == (m + y)[p];
      }
    }
  }

  lemma FiveParts(s: seq<Pair>, i: nat, j: nat, k: nat, l: nat)
    requires i <= j <= k <= l <= |s|
    ensures multiset(s) == multiset(s[..i]) + multiset(s[i..j]) + multiset(s[j..k]) + multiset(s[k..l]) + multiset(s[l..])
  {
    assert s == s[..i] + s[i..j] + s[j..k] + s[k..l] + s[l..];
  }
}
