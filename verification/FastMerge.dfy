/** `merge_with_buffer_fast`: the buffered merge that copies pairs instead of swapping them.

    It keeps no count of the queued pairs and takes `h == t` to mean that nothing is queued.
    A full queue looks the same.  The queue can only fill up while the left run is the shorter one
    and every one of its pairs is displaced; then the left run is lost. */
module FastMerge {
  import opened Order
  import opened Blocks
  import opened BufferMerge

  /** The left run `x` is shorter than `y` and as many pairs of `y` precede all of it. */
  ghost predicate Overflows(rank: Rank, x: seq<Pair>, y: seq<Pair>) {
    0 < |x| < |y| && Less(rank, y[|x| - 1], x[0])
  }

  /** What the merge owes its callers, for any two sorted runs. */
  ghost predicate FastMerged(rank: Rank, s0: seq<Pair>, s: seq<Pair>, f: Area) {
    && f.Fits(|s0|) && |s| == |s0| && SameElsewhere(s0, s, f)
    && var x, y := s0[f.lo..f.mid], s0[f.mid..f.hi];
       if Overflows(rank, x, y) then s[f.lo..f.hi] == y + y[|y| - |x|..]
       else Aims(rank, s0, f, s[f.lo..f.hi])
  }

  // ---- Will the queue fill up?

  /** Every pair of the left run so far has been displaced. */
  ghost predicate OnlyDisplaced(rank: Rank, s0: seq<Pair>, s: seq<Pair>, f: Area, i: nat, b: nat, t: nat)
    requires f.Fits(|s0|) && FillingBounds(|s|, f, i, b, t) && |s| == |s0|
  {
    && LeftRest(s, f, i, b, t) == s0[f.lo..f.mid]
    && s[f.lo..i] == s0[f.mid..b]
    && s[f.mid..f.hi] == s0[f.mid..f.hi]
    && (f.mid < b && f.lo < f.mid ==> Less(rank, s0[b - 1], s0[f.lo]))
  }

  ghost predicate Watched(rank: Rank, s0: seq<Pair>, s: seq<Pair>, f: Area, i: nat, b: nat, t: nat) {
    && f.Fits(|s0|) && FillingBounds(|s|, f, i, b, t) && |s| == |s0|
    && Sorted(rank, s0[f.mid..f.hi])
    && if b - f.mid == i - f.lo then OnlyDisplaced(rank, s0, s, f, i, b, t)
       else !Overflows(rank, s0[f.lo..f.mid], s0[f.mid..f.hi])
  }

  lemma WatchStarts(rank: Rank, s: seq<Pair>, f: Area)
    requires f.Fits(|s|) && Sorted(rank, s[f.mid..f.hi])
    ensures Watched(rank, s, s, f, f.lo, f.mid, f.buf)
  {
    assert LeftRest(s, f, f.lo, f.mid, f.buf) == s[f.lo..f.mid];
  }

  lemma WatchDisplaced(rank: Rank, s0: seq<Pair>, s: seq<Pair>, f: Area, i: nat, b: nat, t: nat, h: nat, s': seq<Pair>)
    requires Watched(rank, s0, s, f, i, b, t) && i < f.mid && b < f.hi && b - f.mid < f.end - f.buf
    requires b == f.mid || Less(rank, s[b], s[t])
    requires Less(rank, s[b], s[i])
    requires h == Behind(f.buf, f.end, t, b - f.mid)
    requires Touched(s, s', i, h, h) && s'[i] == s[b] && s'[h] == s[i]
    ensures Watched(rank, s0, s', f, i + 1, b + 1, t)
  {
    hide Sorted, Ring, LeftRest, Touched, Behind;
    TouchedTwo(s, s', i, h, b);
    if b - f.mid == i - f.lo {
      DisplacedParts(s, f, i, b, t, h, s');
      HeadOfLeft(s, f, i, b, t);
      RightRun(s0, s, f, b);
      LastOf(s0, f.mid, b);
      BehindInside(f.buf, f.end, t, b - f.mid);
      TouchedKeeps(s, s', i, h, h, f.mid, f.hi);
    }
  }

  lemma TouchedTwo(s: seq<Pair>, s': seq<Pair>, x: nat, y: nat, z: nat)
    requires Touched(s, s', x, y, y)
    ensures |s'| == |s| && Touched(s, s', x, y, z)
  {}

  lemma RightRun(s0: seq<Pair>, s: seq<Pair>, f: Area, b: nat)
    requires f.Fits(|s0|) && |s| == |s0| && s[f.mid..f.hi] == s0[f.mid..f.hi] && f.mid <= b < f.hi
    ensures s[b] == s0[b]
  {
    assert s[b] == s[f.mid..f.hi][b - f.mid];
  }

  lemma HeadOfLeft(s: seq<Pair>, f: Area, i: nat, b: nat, t: nat)
    requires FillingBounds(|s|, f, i, b, t) && i < f.mid
    ensures LeftRest(s, f, i, b, t)[0] == if b == f.mid then s[i] else s[t]
  {}

  /** Once a pair of the left run goes out, or stays in place, the queue cannot fill up any more. */
  lemma WatchOver(rank: Rank, s0: seq<Pair>, s: seq<Pair>, f: Area, i: nat, b: nat, t: nat, s': seq<Pair>, t': nat)
    requires Watched(rank, s0, s, f, i, b, t) && i < f.mid && b < f.hi
    requires b + 1 == f.hi || !Less(rank, s[b], if b == f.mid then s[i] else s[t])
    requires FillingBounds(|s'|, f, i + 1, b, t') && |s'| == |s|
    ensures Watched(rank, s0, s', f, i + 1, b, t')
  {
    var x, y, k := s0[f.lo..f.mid], s0[f.mid..f.hi], i - f.lo;
    if b - f.mid == k && |x| < |y| {
      HeadOfLeft(s, f, i, b, t);
      assert s[b] == s[f.mid..f.hi][b - f.mid] == y[k];
      assert !Less(rank, y[|x| - 1], y[k]);
    }
  }

  lemma QueueFull(rank: Rank, s0: seq<Pair>, s: seq<Pair>, f: Area, b: nat, t: nat)
    requires Watched(rank, s0, s, f, f.mid, b, t) && (b < f.hi || b == f.mid)
    ensures Overflows(rank, s0[f.lo..f.mid], s0[f.mid..f.hi]) <==> b - f.mid == f.end - f.buf > 0
    ensures b - f.mid == f.mid - f.lo ==> OnlyDisplaced(rank, s0, s, f, f.mid, b, t)
  {}

  // ---- Filling the queue

  ghost predicate FastFilling(rank: Rank, s0: seq<Pair>, s: seq<Pair>, f: Area, i: nat, b: nat, t: nat, h: nat, target: seq<Pair>) {
    && FillingTo(rank, s0, s, f, i, b, t, target)
    && Watched(rank, s0, s, f, i, b, t)
    && (b < f.hi || b == f.mid)
    && h == (if f.buf < f.end then Behind(f.buf, f.end, t, b - f.mid) else t)
  }

  lemma FastFillingSoFar(rank: Rank, s0: seq<Pair>, s: seq<Pair>, f: Area, i: nat, b: nat, t: nat, h: nat, target: seq<Pair>)
    requires FastFilling(rank, s0, s, f, i, b, t, h, target) && i < f.mid && b < f.hi
    ensures f.lo <= i && FillingBounds(|s|, f, i, b, t) && |s| == |s0|
    ensures f.mid <= b && f.hi <= |s| && f.buf <= t < f.end <= |s| && (f.end <= f.lo || f.hi <= f.buf)
    ensures b - f.mid < f.end - f.buf && f.buf <= h < f.end
    ensures FillingTo(rank, s0, s, f, i, b, t, target)
    ensures Filling(rank, s, f, i, b, t, target) && Sorted(rank, target)
    ensures Watched(rank, s0, s, f, i, b, t)
    ensures h == Behind(f.buf, f.end, t, b - f.mid)
    ensures h == t <==> b == f.mid
    ensures h != t ==> !Less(rank, s[i], s[t])
  {
    FillingSoFar(rank, s0, s, f, i, b, t, target);
  }

  lemma StillFastFilling(rank: Rank, s0: seq<Pair>, s: seq<Pair>, s': seq<Pair>, f: Area,
                         i: nat, b: nat, t: nat, target: seq<Pair>,
                         i': nat, b': nat, t': nat, h': nat, target': seq<Pair>)
    requires FillingTo(rank, s0, s, f, i, b, t, target)
    requires SameElsewhere(s, s', f) && Filling(rank, s', f, i', b', t', target')
    requires Sorted(rank, target') && Permutation(target', target)
    requires f.mid - f.lo <= f.hi - f.mid ==> target' == target
    requires Watched(rank, s0, s', f, i', b', t')
    requires b' < f.hi && f.buf < f.end && h' == Behind(f.buf, f.end, t', b' - f.mid)
    ensures FastFilling(rank, s0, s', f, i', b', t', h', target')
  {
    hide FillingTo, Watched;
    StillFilling(rank, s0, s, s', f, i, b, t, target, i', b', t', target');
  }

  method FastFillStep(rank: Rank, arr: array<Pair>, f: Area, i: nat, b: nat, t: nat, h: nat,
                      ghost s0: seq<Pair>, ghost target: seq<Pair>)
    returns (b': nat, t': nat, h': nat, ghost target': seq<Pair>)
    requires FastFilling(rank, s0, arr[..], f, i, b, t, h, target) && i < f.mid && b < f.hi
    modifies arr
    ensures FastFilling(rank, s0, arr[..], f, i + 1, b', t', h', target') && f.mid <= b' < f.hi
  {
    hide *;
    ghost var s := arr[..];
    FastFillingSoFar(rank, s0, s, f, i, b, t, h, target);
    b', t', h', target' := b, t, h, target;
    if h == t || Less(rank, arr[b], arr[t]) {
      if Less(rank, arr[b], arr[i]) {
        b', h', target' := FastOut(rank, arr, f, i, b, t, h, s0, target);
      } else {
        FastStays(rank, s0, s, f, i, b, t, h, target);
      }
    } else {
      if !Less(rank, arr[i], arr[t]) {
        h', t' := FastThrough(rank, arr, f, i, b, t, h, s0, target);
      }
    }
  }

  lemma FastStays(rank: Rank, s0: seq<Pair>, s: seq<Pair>, f: Area, i: nat, b: nat, t: nat, h: nat, target: seq<Pair>)
    requires FastFilling(rank, s0, s, f, i, b, t, h, target) && i < f.mid && b < f.hi <= |s| && t < |s|
    requires !Less(rank, s[b], s[i]) && (h == t || Less(rank, s[b], s[t]))
    ensures FastFilling(rank, s0, s, f, i + 1, b, t, h, target)
  {
    hide FastFilling, FillingTo, Filling, Sorted, StableMerge, SameElsewhere, LeftRest, Behind, Watched;
    FastFillingSoFar(rank, s0, s, f, i, b, t, h, target);
    Kept(rank, s, f, i, b, t, target);
    SameElsewhereSame(s, f);
    FillingWithin(rank, s, f, i + 1, b, t, target);
    WatchOver(rank, s0, s, f, i, b, t, s, t);
    StillFastFilling(rank, s0, s, s, f, i, b, t, target, i + 1, b, t, h, target);
  }

  /** The first queued pair goes out, and the pair that was there to the end of the queue. */
  method FastThrough(rank: Rank, arr: array<Pair>, f: Area, i: nat, b: nat, t: nat, h: nat,
                     ghost s0: seq<Pair>, ghost target: seq<Pair>)
    returns (h': nat, t': nat)
    requires FastFilling(rank, s0, arr[..], f, i, b, t, h, target) && i < f.mid && b < f.hi <= arr.Length && t < arr.Length
    requires h != t && !Less(rank, arr[b], arr[t])
    modifies arr
    ensures FastFilling(rank, s0, arr[..], f, i + 1, b, t', h', target)
  {
    hide *;
    ghost var s := arr[..];
    FastFillingSoFar(rank, s0, s, f, i, b, t, h, target);
    arr[h] := arr[i];
    arr[i] := arr[t];
    h', t' := Next(f.buf, f.end, h), Next(f.buf, f.end, t);
    TurnedFast(s, arr[..], i, h, t);
    FastTurned(rank, s0, s, f, i, b, t, h, target, arr[..], t', h');
  }

  lemma FastTurned(rank: Rank, s0: seq<Pair>, s: seq<Pair>, f: Area, i: nat, b: nat, t: nat, h: nat, target: seq<Pair>,
                   s': seq<Pair>, t': nat, h': nat)
    requires FastFilling(rank, s0, s, f, i, b, t, h, target) && i < f.mid && b < f.hi <= |s| && t < |s| && h < |s|
    requires h != t && !Less(rank, s[b], s[t])
    requires Touched(s, s', i, h, t) && s'[i] == s[t] && s'[h] == s[i]
    requires h' == Next(f.buf, f.end, h) && t' == Next(f.buf, f.end, t)
    ensures FastFilling(rank, s0, s', f, i + 1, b, t', h', target)
  {
    hide FastFilling, FillingTo, Filling, Sorted, StableMerge, SameElsewhere, LeftRest, Behind, Next, Watched;
    FastFillingSoFar(rank, s0, s, f, i, b, t, h, target);
    Turned(rank, s, f, i, b, t, target, h, s');
    FillingWithin(rank, s', f, i + 1, b, t', target);
    WatchOver(rank, s0, s, f, i, b, t, s', t');
    StillFastFilling(rank, s0, s, s', f, i, b, t, target, i + 1, b, t', h', target);
  }

  lemma TurnedFast(s: seq<Pair>, s': seq<Pair>, i: nat, h: nat, t: nat)
    requires i < |s| && h < |s| && t < |s| && i != h && h != t && s' == s[h := s[i]][i := s[t]]
    ensures Touched(s, s', i, h, t) && s'[i] == s[t] && s'[h] == s[i]
  {}

  lemma FillingWithin(rank: Rank, s: seq<Pair>, f: Area, i: nat, b: nat, t: nat, target: seq<Pair>)
    requires Filling(rank, s, f, i, b, t, target)
    ensures FillingBounds(|s|, f, i, b, t)
  {}

  method FastOut(rank: Rank, arr: array<Pair>, f: Area, i: nat, b: nat, t: nat, h: nat,
                 ghost s0: seq<Pair>, ghost target: seq<Pair>)
    returns (b': nat, h': nat, ghost target': seq<Pair>)
    requires FastFilling(rank, s0, arr[..], f, i, b, t, h, target) && i < f.mid && b < f.hi <= arr.Length && t < arr.Length
    requires Less(rank, arr[b], arr[i]) && (h == t || Less(rank, arr[b], arr[t]))
    modifies arr
    ensures FastFilling(rank, s0, arr[..], f, i + 1, b', t, h', target') && f.mid <= b' < f.hi
  {
    hide *;
    ghost var s := arr[..];
    FastFillingSoFar(rank, s0, s, f, i, b, t, h, target);
    b', h', target' := b, h, target;
    if b < f.hi - 1 {
      arr[h] := arr[i];
      arr[i] := arr[b];
      b', h' := b + 1, Next(f.buf, f.end, h);
      MovedFast(s, arr[..], i, h, b);
      FastDisplaced(rank, s0, s, f, i, b, t, h, target, arr[..], h');
    } else {
      Swap(arr, i, b);
      target' := FastLast(rank, s0, s, f, i, b, t, h, target, arr[..]);
    }
  }

  lemma MovedFast(s: seq<Pair>, s': seq<Pair>, i: nat, h: nat, b: nat)
    requires i < |s| && h < |s| && b < |s| && i != h && h != b && s' == s[h := s[i]][i := s[b]]
    ensures Touched(s, s', i, h, h) && s'[i] == s[b] && s'[h] == s[i]
  {}

  lemma FastDisplaced(rank: Rank, s0: seq<Pair>, s: seq<Pair>, f: Area, i: nat, b: nat, t: nat, h: nat, target: seq<Pair>,
                      s': seq<Pair>, h': nat)
    requires FastFilling(rank, s0, s, f, i, b, t, h, target) && i < f.mid && b + 1 < f.hi <= |s| && t < |s| && h < |s|
    requires Less(rank, s[b], s[i]) && (h == t || Less(rank, s[b], s[t]))
    requires Touched(s, s', i, h, h) && s'[i] == s[b] && s'[h] == s[i] && h' == Next(f.buf, f.end, h)
    ensures FastFilling(rank, s0, s', f, i + 1, b + 1, t, h', target)
  {
    hide FastFilling, FillingTo, Filling, Sorted, StableMerge, SameElsewhere, LeftRest, Behind, Next, Watched, Touched;
    FastFillingSoFar(rank, s0, s, f, i, b, t, h, target);
    TouchedTwo(s, s', i, h, b);
    Displaced(rank, s, f, i, b, t, target, h, s');
    WatchDisplaced(rank, s0, s, f, i, b, t, h, s');
    StillFastFilling(rank, s0, s, s', f, i, b, t, target, i + 1, b + 1, t, h', target);
  }

  lemma FastLast(rank: Rank, s0: seq<Pair>, s: seq<Pair>, f: Area, i: nat, b: nat, t: nat, h: nat, target: seq<Pair>, s': seq<Pair>)
    returns (target': seq<Pair>)
    requires FastFilling(rank, s0, s, f, i, b, t, h, target) && i < f.mid && b + 1 == f.hi <= |s| && t < |s|
    requires Less(rank, s[b], s[i]) && (h == t || Less(rank, s[b], s[t]))
    requires s' == s[i := s[b]][b := s[i]]
    ensures FastFilling(rank, s0, s', f, i + 1, b, t, h, target')
  {
    hide FastFilling, FillingTo, Filling, Sorted, StableMerge, SameElsewhere, LeftRest, Behind, Watched;
    FastFillingSoFar(rank, s0, s, f, i, b, t, h, target);
    target' := LastSwapped(rank, s, f, i, b, t, target, s');
    FillingWithin(rank, s', f, i + 1, b, t, target');
    WatchOver(rank, s0, s, f, i, b, t, s', t);
    StillFastFilling(rank, s0, s, s', f, i, b, t, target, i + 1, b, t, h, target');
  }

  // ---- Draining the queue, or losing it

  /** After an overflow the pairs of `b` just move down to `i`. */
  ghost predicate Losing(s0: seq<Pair>, s: seq<Pair>, f: Area, i: nat, b: nat) {
    && f.Fits(|s0|) && SameElsewhere(s0, s, f)
    && f.mid <= i <= b <= f.hi && b - f.mid == i - f.lo
    && s[f.lo..i] == s0[f.mid..b] && s[i..f.hi] == s0[i..f.hi]
  }

  ghost predicate FastDraining(rank: Rank, s0: seq<Pair>, s: seq<Pair>, f: Area, i: nat, b: nat, t: nat, h: nat, target: seq<Pair>) {
    && f.Fits(|s0|) && |s| == |s0| && f.mid <= i <= b <= f.hi && (f.buf < f.end ==> t < f.end)
    && if Overflows(rank, s0[f.lo..f.mid], s0[f.mid..f.hi]) then h == t && Losing(s0, s, f, i, b)
       else && DrainingTo(rank, s0, s, f, i, b, t, target)
            && (b - i < f.end - f.buf || b == i)
            && h == (if f.buf < f.end then Behind(f.buf, f.end, t, b - i) else t)
  }

  lemma FastDrainingStarts(rank: Rank, s0: seq<Pair>, s: seq<Pair>, f: Area, b: nat, t: nat, h: nat, target: seq<Pair>)
    requires FastFilling(rank, s0, s, f, f.mid, b, t, h, target)
    ensures FastDraining(rank, s0, s, f, f.mid, b, t, h, target)
  {
    QueueFull(rank, s0, s, f, b, t);
    if Overflows(rank, s0[f.lo..f.mid], s0[f.mid..f.hi]) {
      assert Losing(s0, s, f, f.mid, b);
    } else {
      FillingDone(rank, s0, s, f, f.mid, b, t, target);
    }
  }

  method FastDrainStep(rank: Rank, arr: array<Pair>, f: Area, i: nat, b: nat, t: nat, h: nat,
                       ghost s0: seq<Pair>, ghost target: seq<Pair>)
    returns (b': nat, t': nat)
    requires FastDraining(rank, s0, arr[..], f, i, b, t, h, target) && b < f.hi
    modifies arr
    ensures FastDraining(rank, s0, arr[..], f, i + 1, b', t', h, target) && b' <= f.hi
  {
    hide DrainingTo, Draining, Losing, Overflows, Sorted, StableMerge, SameElsewhere, Next;
    ghost var s := arr[..];
    if h != t && !Less(rank, arr[b], arr[t]) {
      DrainingSoFar(rank, s0, s, f, i, b, t, target);
      arr[i] := arr[t];
      Popped(rank, s, f, i, b, t, target, arr[..]);
      b', t' := b, Next(f.buf, f.end, t);
      StillDraining(rank, s0, s, arr[..], f, i, b, t, target, i + 1, b, t');
      DrainingSoFar(rank, s0, arr[..], f, i + 1, b, t', target);
    } else {
      arr[i] := arr[b];
      b', t' := b + 1, t;
      CopiedFast(rank, s0, s, f, i, b, t, h, target, arr[..]);
    }
  }

  lemma CopiedFast(rank: Rank, s0: seq<Pair>, s: seq<Pair>, f: Area, i: nat, b: nat, t: nat, h: nat, target: seq<Pair>, s': seq<Pair>)
    requires FastDraining(rank, s0, s, f, i, b, t, h, target) && b < f.hi
    requires h == t || Less(rank, s[b], s[t])
    requires s' == s[i := s[b]]
    ensures FastDraining(rank, s0, s', f, i + 1, b + 1, t, h, target)
  {
    hide DrainingTo, Draining, Losing, Sorted, StableMerge;
    if Overflows(rank, s0[f.lo..f.mid], s0[f.mid..f.hi]) {
      MovedDown(s0, s, f, i, b, s');
    } else {
      DrainingSoFar(rank, s0, s, f, i, b, t, target);
      Copied(rank, s, f, i, b, t, target, s');
      StillDraining(rank, s0, s, s', f, i, b, t, target, i + 1, b + 1, t);
    }
  }

  lemma MovedDown(s0: seq<Pair>, s: seq<Pair>, f: Area, i: nat, b: nat, s': seq<Pair>)
    requires Losing(s0, s, f, i, b) && b < f.hi && s' == s[i := s[b]]
    ensures Losing(s0, s', f, i + 1, b + 1)
  {
    assert s[b] == s[i..f.hi][b - i] == s0[i..f.hi][b - i];
    assert s'[f.lo..i + 1] == s[f.lo..i] + [s0[b]];
    assert s0[f.mid..b + 1] == s0[f.mid..b] + [s0[b]];
    assert s'[i + 1..f.hi] == s[i..f.hi][1..];
    assert s0[i + 1..f.hi] == s0[i..f.hi][1..];
  }

  lemma FastDrainingDone(rank: Rank, s0: seq<Pair>, s: seq<Pair>, f: Area, i: nat, t: nat, target: seq<Pair>)
    requires FastDraining(rank, s0, s, f, i, f.hi, t, t, target)
    ensures FastMerged(rank, s0, s, f)
  {
    var x, y := s0[f.lo..f.mid], s0[f.mid..f.hi];
    if Overflows(rank, x, y) {
      assert s[f.lo..f.hi] == s[f.lo..i] + s[i..f.hi];
      assert s0[i..f.hi] == y[|y| - |x|..];
    } else {
      DrainingSoFar(rank, s0, s, f, i, f.hi, t, target);
      assert i == f.hi;
      DrainingDone(rank, s0, s, f, f.hi, t, target);
    }
  }

  /** Merge two adjacent sorted runs, overwriting the buffer. */
  method MergeWithBufferFast(rank: Rank, arr: array<Pair>, lo: nat, mid: nat, hi: nat, buf: nat)
    requires lo <= mid <= hi && AreaOf(lo, mid, hi, buf).Fits(arr.Length)
    requires Sorted(rank, arr[lo..mid]) && Sorted(rank, arr[mid..hi])
    modifies arr
    ensures FastMerged(rank, old(arr[..]), arr[..], AreaOf(lo, mid, hi, buf))
  {
    hide FillingTo, FastFilling, FastDraining, FastMerged, Sorted, StableMerge, Behind;
    var f := AreaOf(lo, mid, hi, buf);
    ghost var s0 := arr[..];
    ghost var target := StableMerge(rank, s0[lo..mid], s0[mid..hi]);
    assert arr[lo..mid] == s0[lo..mid] && arr[mid..hi] == s0[mid..hi];
    FastFillingStarts(rank, s0, f);
    var i: nat, b: nat, t: nat, h: nat := lo, mid, buf, buf;
    while i < mid && b < hi
      invariant FastFilling(rank, s0, arr[..], f, i, b, t, h, target)
      invariant i <= mid <= b <= hi && (b < hi || b == mid)
    {
      b, t, h, target := FastFillStep(rank, arr, f, i, b, t, h, s0, target);
      i := i + 1;
    }
    while i < mid
      invariant FastFilling(rank, s0, arr[..], f, i, b, t, h, target)
      invariant i <= mid && (i < mid ==> b == mid == hi)
    {
      // the right run is empty, and so is the queue
      FastKept(rank, s0, arr[..], f, i, b, t, h, target);
      i := i + 1;
    }
    FastDrainingStarts(rank, s0, arr[..], f, b, t, h, target);
    FastDrain(rank, arr, f, i, b, t, h, s0, target);
  }

  lemma FastFillingStarts(rank: Rank, s: seq<Pair>, f: Area)
    requires f.Fits(|s|) && Sorted(rank, s[f.lo..f.mid]) && Sorted(rank, s[f.mid..f.hi])
    ensures FastFilling(rank, s, s, f, f.lo, f.mid, f.buf, f.buf, StableMerge(rank, s[f.lo..f.mid], s[f.mid..f.hi]))
  {
    FillingStarts(rank, s, f);
    WatchStarts(rank, s, f);
  }

  lemma FastKept(rank: Rank, s0: seq<Pair>, s: seq<Pair>, f: Area, i: nat, b: nat, t: nat, h: nat, target: seq<Pair>)
    requires FastFilling(rank, s0, s, f, i, b, t, h, target) && i < f.mid && b == f.mid == f.hi
    ensures FastFilling(rank, s0, s, f, i + 1, b, t, h, target)
  {
    Kept(rank, s, f, i, b, t, target);
    StillFilling(rank, s0, s, s, f, i, b, t, target, i + 1, b, t, target);
  }

  method FastDrain(rank: Rank, arr: array<Pair>, f: Area, i0: nat, b0: nat, t0: nat, h: nat,
                   ghost s0: seq<Pair>, ghost target: seq<Pair>)
    requires FastDraining(rank, s0, arr[..], f, i0, b0, t0, h, target) && b0 <= f.hi
    modifies arr
    ensures FastMerged(rank, s0, arr[..], f)
  {
    hide FastDraining, FastMerged;
    var i: nat, b: nat, t: nat := i0, b0, t0;
    while b < f.hi
      invariant FastDraining(rank, s0, arr[..], f, i, b, t, h, target)
      invariant b <= f.hi
      decreases f.hi - i
    {
      assert i <= b by { FastDrainingBounds(rank, s0, arr[..], f, i, b, t, h, target); }
      b, t := FastDrainStep(rank, arr, f, i, b, t, h, s0, target);
      i := i + 1;
    }
    while t != h
      invariant FastDraining(rank, s0, arr[..], f, i, b, t, h, target)
      invariant b == f.hi
      decreases f.hi - i
    {
      t := FastPop(rank, arr, f, i, t, h, s0, target);
      i := i + 1;
    }
    FastDrainingDone(rank, s0, arr[..], f, i, t, target);
  }

  lemma FastDrainingBounds(rank: Rank, s0: seq<Pair>, s: seq<Pair>, f: Area, i: nat, b: nat, t: nat, h: nat, target: seq<Pair>)
    requires FastDraining(rank, s0, s, f, i, b, t, h, target)
    ensures f.Fits(|s0|) && |s| == |s0| && f.mid <= i <= b <= f.hi
  {}

  method FastPop(rank: Rank, arr: array<Pair>, f: Area, i: nat, t: nat, h: nat, ghost s0: seq<Pair>, ghost target: seq<Pair>)
    returns (t': nat)
    requires FastDraining(rank, s0, arr[..], f, i, f.hi, t, h, target) && t != h
    modifies arr
    ensures FastDraining(rank, s0, arr[..], f, i + 1, f.hi, t', h, target) && i < f.hi
  {
    hide DrainingTo, Draining, Losing, Overflows, Sorted, StableMerge, SameElsewhere, Next;
    ghost var s := arr[..];
    DrainingSoFar(rank, s0, s, f, i, f.hi, t, target);
    arr[i] := arr[t];
    Popped(rank, s, f, i, f.hi, t, target, arr[..]);
    t' := Next(f.buf, f.end, t);
    StillDraining(rank, s0, s, arr[..], f, i, f.hi, t, target, i + 1, f.hi, t');
    DrainingSoFar(rank, s0, arr[..], f, i + 1, f.hi, t', target);
  }

  // ---- When the result is right

  /** A left run at least as long as the right one is never lost. */
  lemma FastMergeSafe(rank: Rank, s0: seq<Pair>, s: seq<Pair>, f: Area)
    requires FastMerged(rank, s0, s, f) && f.hi - f.mid <= f.mid - f.lo
    ensures |s| == |s0| && f.Fits(|s0|)
    ensures f.hi <= f.buf ==> forall k :: 0 <= k < f.lo ==> s[k] == s0[k]
    ensures Sorted(rank, s[f.lo..f.hi]) && Permutation(s[f.lo..f.hi], s0[f.lo..f.hi])
    ensures f.hi - f.mid == f.mid - f.lo ==> s[f.lo..f.hi] == StableMerge(rank, s0[f.lo..f.mid], s0[f.mid..f.hi])
  {}

  /** Exactly when the output is a sorted arrangement of the input: the queue does not overflow, or the
      pairs that are lost happen to be equal to the ones written twice, and those all rank the same. */
  lemma FastMergeExact(rank: Rank, s0: seq<Pair>, s: seq<Pair>, f: Area)
    requires FastMerged(rank, s0, s, f) && Sorted(rank, s0[f.mid..f.hi])
    ensures var x, y := s0[f.lo..f.mid], s0[f.mid..f.hi];
            Sorted(rank, s[f.lo..f.hi]) && Permutation(s[f.lo..f.hi], s0[f.lo..f.hi]) <==>
              !Overflows(rank, x, y) ||
              (Permutation(x, y[|y| - |x|..]) && !Less(rank, y[|y| - |x|], y[|y| - 1]))
  {
    hide Sorted, StableMerge, SameElsewhere, Permutation;
    var x, y := s0[f.lo..f.mid], s0[f.mid..f.hi];
    if Overflows(rank, x, y) {
      var z := y[|y| - |x|..];
      WrittenTwice(rank, y, |y| - |x|);
      assert s0[f.lo..f.hi] == x + y;
      SamePairs(x, y, z);
    }
  }

  lemma SamePairs(x: seq<Pair>, y: seq<Pair>, z: seq<Pair>)
    ensures Permutation(y + z, x + y) <==> Permutation(x, z)
  {
    CancelLeft(multiset(y), multiset(z), multiset(x));
  }

  lemma WrittenTwice(rank: Rank, y: seq<Pair>, k: nat)
    requires k < |y| && Sorted(rank, y)
    ensures Sorted(rank, y + y[k..]) <==> !Less(rank, y[k], y[|y| - 1])
  {
    var z := y[k..];
    SortedConcat(rank, y, z);
    SortedSlice(rank, y, k, |y|);
    if Below(rank, y, z) {
      assert !Less(rank, z[0], y[|y| - 1]);
    }
  }

  /** One pair merged with two smaller ones is lost. */
  lemma FastMergeLosesPair(s: seq<Pair>)
    requires FastMerged(KeyRank, [Pair(5, 0), Pair(1, 0), Pair(2, 0), Pair(0, 0)], s, AreaOf(0, 1, 3, 3))
    ensures s[..3] == [Pair(1, 0), Pair(2, 0), Pair(2, 0)]
  {
    var s0 := [Pair(5, 0), Pair(1, 0), Pair(2, 0), Pair(0, 0)];
    assert s0[0..1] == [Pair(5, 0)] && s0[1..3] == [Pair(1, 0), Pair(2, 0)];
  }
}
