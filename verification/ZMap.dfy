/** The zero-overhead map.  A map is one array of pairs: slot 0 holds the capacity and the count,
    the entries follow in the runs given by the binary digits of the count, and the unused slots
    behind them serve as the merge buffer. */
module ZMap {
  import opened Order
  import opened Arith
  import opened BinaryRuns
  import Merge
  import BufferMerge
  import FastMerge

  /** The header is consistent with the array.  The source shifts a signed 32-bit 1 by bit positions
      of the count, so capacities end below 2^31. */
  ghost predicate IsMap(s: seq<Pair>) {
    && 1 <= |s| <= 0x8000_0000
    && s[0].first == |s| - 1
    && 0 <= s[0].second <= s[0].first
  }

  ghost function Elems(s: seq<Pair>): seq<Pair>
    requires IsMap(s)
  {
    s[1..1 + s[0].second]
  }

  /** The map's invariant: every binary digit of the count stands for a sorted run, which is the stable
      arrangement of the pairs that `log` says were inserted there. */
  ghost predicate Valid(rank: Rank, s: seq<Pair>, log: Log) {
    IsMap(s) && log.Fits(|Elems(s)|) && Runs(rank, Elems(s), log, 1, |Elems(s)|)
  }

  /** Are all merges that a count of `cnt` may bring about stable?  Runs of up to 128 pairs always are,
      longer ones when the buffer is large enough. */
  predicate StableAt(cnt: nat, size: nat) {
    cnt < 512 || 3 * cnt <= 2 * size
  }

  // ---- Merging the last two runs

  /** Merge the entries from `y` to `x` with those from `x` to the end. */
  method MergeRuns(rank: Rank, m: array<Pair>, y: nat, x: nat)
    requires IsMap(m[..]) && y < x < m[0].second && m[0].second - x <= x - y
    requires Sorted(rank, Elems(m[..])[y..x]) && Sorted(rank, Elems(m[..])[x..])
    modifies m
    ensures IsMap(m[..]) && m[0] == old(m[0])
    ensures LastRunsMerged(rank, Elems(old(m[..])), Elems(m[..]), y, x, old(m[0].first))
  {
    hide Sorted, StableMerge, LastRunsMerged, Merge.Merged, FastMerge.FastMerged;
    ghost var s := m[..];
    var size, cnt := m[0].first, m[0].second;
    ElemsOf(s, s, y, x);
    assert m[1 + y..1 + x] == s[1 + y..1 + x] && m[1 + x..1 + cnt] == s[1 + x..1 + cnt];
    if cnt - x <= size - cnt {
      FastMerge.MergeWithBufferFast(rank, m, 1 + y, 1 + x, 1 + cnt, 1 + cnt);
      MergedFast(rank, s, m[..], y, x);
    } else {
      ghost var _ := Merge.Merge(rank, m, 1 + y, 1 + x, 1 + cnt);
      MergedInPlace(rank, s, m[..], y, x);
    }
  }

  /** The entries from `y` on are merged into one run; entries before it do not move.
      The merge is stable if the two runs are of the same length and that is at most 128
      or fits the buffer. */
  ghost predicate LastRunsMerged(rank: Rank, e: seq<Pair>, e': seq<Pair>, y: nat, x: nat, size: nat) {
    && y < x < |e| == |e'|
    && e'[..y] == e[..y]
    && Sorted(rank, e'[y..]) && Permutation(e'[y..], e[y..])
    && (|e| - x == x - y && (x - y <= 128 || x - y <= size - |e|) ==>
          e'[y..] == StableMerge(rank, e[y..x], e[x..]))
  }

  lemma MergedFast(rank: Rank, s: seq<Pair>, t: seq<Pair>, y: nat, x: nat)
    requires IsMap(s) && y < x < s[0].second && s[0].second - x <= x - y && s[0].second - x <= s[0].first - s[0].second
    requires FastMerge.FastMerged(rank, s, t, BufferMerge.AreaOf(1 + y, 1 + x, 1 + s[0].second, 1 + s[0].second))
    ensures IsMap(t) && t[0] == s[0]
    ensures LastRunsMerged(rank, Elems(s), Elems(t), y, x, s[0].first)
  {
    hide Sorted, StableMerge, Permutation, FastMerge.FastMerged;
    var cnt := s[0].second;
    FastMerge.FastMergeSafe(rank, s, t, BufferMerge.AreaOf(1 + y, 1 + x, 1 + cnt, 1 + cnt));
    assert |t| == |s| && forall k :: 0 <= k < 1 + y ==> t[k] == s[k];
    ElemsOf(s, t, y, x);
  }

  lemma MergedInPlace(rank: Rank, s: seq<Pair>, t: seq<Pair>, y: nat, x: nat)
    requires IsMap(s) && y < x < s[0].second && s[0].second - x <= x - y && s[0].second - x > s[0].first - s[0].second
    requires Merge.Merged(rank, s, t, 1 + y, 1 + x, 1 + s[0].second)
    ensures IsMap(t) && t[0] == s[0]
    ensures LastRunsMerged(rank, Elems(s), Elems(t), y, x, s[0].first)
  {
    hide Sorted, StableMerge;
    var cnt := s[0].second;
    assert |t| == |s| && forall k :: 0 <= k < 1 + y ==> t[k] == s[k];
    ElemsOf(s, t, y, x);
    var e, e' := Elems(s), Elems(t);
    assert |e| == cnt == |e'|;
    assert Sorted(rank, e'[y..]);
    assert Permutation(e'[y..], e[y..]);
  }

  lemma ElemsOf(s: seq<Pair>, t: seq<Pair>, y: nat, x: nat)
    requires IsMap(s) && y <= x <= s[0].second && |t| == |s|
    requires forall k :: 0 <= k < 1 + y ==> t[k] == s[k]
    ensures IsMap(t) && t[0] == s[0] && Elems(t)[..y] == Elems(s)[..y]
    ensures Elems(s)[y..x] == s[1 + y..1 + x] && Elems(s)[x..] == s[1 + x..1 + s[0].second]
    ensures Elems(s)[y..] == s[1 + y..1 + s[0].second] && Elems(t)[y..] == t[1 + y..1 + s[0].second]
  {
    var cnt := s[0].second;
    SliceOfSlice(s, 1 + cnt, y, x);
    SliceOfSlice(s, 1 + cnt, x, cnt);
    SliceOfSlice(s, 1 + cnt, y, cnt);
    SliceOfSlice(t, 1 + cnt, y, cnt);
  }

  lemma SliceOfSlice(s: seq<Pair>, n: nat, y: nat, x: nat)
    requires 1 <= n <= |s| && y <= x <= n - 1
    ensures s[1..n][y..x] == s[1 + y..1 + x]
    ensures x == n - 1 ==> s[1..n][y..] == s[1 + y..1 + x]
  {
    var e := s[1..n];
    assert forall k :: 0 <= k < n - 1 ==> e[k] == s[1 + k];
  }

  // ---- Carrying

  /** Called after an insertion: carry the last `bit` entries into the runs before them. */
  method MapSort(rank: Rank, m: array<Pair>, bit: nat, ghost log: Log, ghost p0: nat)
    requires IsMap(m[..]) && PowerOfTwo(bit)
    requires Carry(rank, Elems(m[..]), log, bit, p0)
    requires m[0].second % 2 == 1 ==> bit == 1
    requires log.Logged? ==> StableAt(m[0].second, m[0].first)
    modifies m
    ensures m[0] == old(m[0]) && Valid(rank, m[..], log)
    ensures Permutation(Elems(m[..]), Elems(old(m[..])))
  {
    hide Carry, Valid, PowerOfTwo, Elems;
    var cnt := m[0].second;
    ghost var e0 := Elems(m[..]);
    ElemsLength(m[..]);
    CarryBounds(rank, e0, log, bit, p0);
    CarryStarts(cnt, bit, p0);
    if cnt % 2 == 1 {
      CarryDone(rank, m[..], log, bit, p0);
      return;
    }
    var x: nat, w: nat := cnt - 1 - (cnt - 1) % bit, bit;
    ghost var p: nat := p0;
    while HasBit(x, w)
      invariant IsMap(m[..]) && m[0] == old(m[0]) && x + w == cnt && w > 0
      invariant PowerOfTwo(w) && x == p * w && Carry(rank, Elems(m[..]), log, w, p)
      invariant Permutation(Elems(m[..]), e0)
      decreases x
    {
      QuotientOf(p, 0, w);
      CarryOnce(rank, m, x, w, log, p);
      x := x - w;
      w := 2 * w;
      p := p / 2;
    }
    QuotientOf(p, 0, w);
    CarryDone(rank, m[..], log, w, p);
  }

  /** Merge the last run with the run of the same length that ends at `x`. */
  method CarryOnce(rank: Rank, m: array<Pair>, x: nat, w: nat, ghost log: Log, ghost p: nat)
    requires IsMap(m[..]) && PowerOfTwo(w) && Carry(rank, Elems(m[..]), log, w, p) && p % 2 == 1
    requires x + w == m[0].second
    requires log.Logged? ==> StableAt(m[0].second, m[0].first)
    modifies m
    ensures IsMap(m[..]) && m[0] == old(m[0])
    ensures 0 < w <= x && x - w == (p / 2) * (2 * w) && PowerOfTwo(2 * w)
    ensures Carry(rank, Elems(m[..]), log, 2 * w, p / 2)
    ensures Permutation(Elems(m[..]), old(Elems(m[..])))
  {
    hide Carry, Runs, Sorted, Settled, LastRunsMerged, Elems;
    ghost var e := Elems(m[..]);
    ElemsLength(m[..]);
    CarryParts(rank, e, log, w, p);
    MergeRuns(rank, m, x - w, x);
    CarryMerged(rank, e, log, w, p, Elems(m[..]), m[0].first);
  }

  lemma CarryStarts(cnt: nat, bit: nat, p: nat)
    requires PowerOfTwo(bit) && cnt == p * bit + bit && (cnt % 2 == 1 ==> bit == 1)
    ensures bit > 0 && cnt > 0 && cnt - 1 - (cnt - 1) % bit == p * bit
    ensures cnt % 2 == 1 ==> p % 2 == 0
  {
    hide PowerOfTwo;
    PowerOfTwoPositive(bit);
    QuotientOf(p, bit - 1, bit);
    assert bit == 1 ==> p * bit == p;
  }

  lemma ElemsLength(s: seq<Pair>)
    requires IsMap(s)
    ensures |Elems(s)| == s[0].second
  {}

  lemma CarryBounds(rank: Rank, e: seq<Pair>, log: Log, w: nat, p: nat)
    requires Carry(rank, e, log, w, p)
    ensures |e| == p * w + w
  {}

  lemma CarryDone(rank: Rank, s: seq<Pair>, log: Log, w: nat, p: nat)
    requires IsMap(s) && PowerOfTwo(w) && Carry(rank, Elems(s), log, w, p)
    requires p % 2 == 0
    ensures Valid(rank, s, log)
  {
    hide Runs;
    CarryEnds(rank, Elems(s), log, w, p);
    RunsWidth(rank, Elems(s), log, w, p + 1);
  }

  lemma CarryMerged(rank: Rank, e: seq<Pair>, log: Log, w: nat, p: nat, e': seq<Pair>, size: nat)
    requires Carry(rank, e, log, w, p) && p % 2 == 1 && PowerOfTwo(w) && 2 * w <= |e|
    requires log.Logged? ==> StableAt(|e|, size)
    requires LastRunsMerged(rank, e, e', |e| - 2 * w, |e| - w, size)
    ensures Carry(rank, e', log, 2 * w, p / 2) && PowerOfTwo(2 * w)
    ensures Permutation(e', e)
  {
    hide Carry, Sorted, StableMerge;
    var y := |e| - 2 * w;
    if w > 128 {
      PowersApart(w, 128);
    }
    CarryStep(rank, e, log, w, p, e');
    assert e' == e'[..y] + e'[y..] && e == e[..y] + e[y..];
  }

  // ---- Inserting

  /** Insert an entry, unless the map is full. */
  method Insert(rank: Rank, m: array<Pair>, x: Pair, ghost log: Log) returns (ok: bool)
    requires Valid(rank, m[..], log)
    requires log.Logged? && m[0].second < m[0].first ==> StableAt(m[0].second + 1, m[0].first)
    modifies m
    ensures ok <==> old(m[0].second) < old(m[0].first)
    ensures !ok ==> m[..] == old(m[..])
    ensures ok ==> m[0] == Pair(old(m[0].first), old(m[0].second) + 1)
    ensures ok ==> Valid(rank, m[..], log.Push(x))
    ensures ok ==> Permutation(Elems(m[..]), Elems(old(m[..])) + [x])
  {
    hide Valid, Runs;
    ValidMap(rank, m[..], log);
    var size, cnt := m[0].first, m[0].second;
    if cnt >= size {
      return false;
    }
    ghost var s := m[..];
    m[0] := Pair(size, cnt + 1);
    m[cnt + 1] := x;
    Appended(rank, s, log, x, m[..]);
    MapSort(rank, m, 1, log.Push(x), cnt);
    return true;
  }

  lemma ValidMap(rank: Rank, s: seq<Pair>, log: Log)
    requires Valid(rank, s, log)
    ensures IsMap(s) && |Elems(s)| == s[0].second && log.Fits(s[0].second)
    ensures Runs(rank, Elems(s), log, 1, |Elems(s)|)
  {}

  lemma Appended(rank: Rank, s: seq<Pair>, log: Log, x: Pair, s': seq<Pair>)
    requires Valid(rank, s, log) && s[0].second < s[0].first
    requires s' == s[0 := Pair(s[0].first, s[0].second + 1)][s[0].second + 1 := x]
    ensures IsMap(s') && Elems(s') == Elems(s) + [x]
    ensures Carry(rank, Elems(s'), log.Push(x), 1, s[0].second)
  {
    hide Runs;
    var e, e' := Elems(s), Elems(s');
    assert e' == e + [x];
    assert e'[|e'| - 1..] == [x] && e'[..|e'| - 1] == e;
    if log.Logged? {
      var l := log.pairs + [x];
      assert l[|l| - 1..] == [x] && l[..|l| - 1] == log.pairs;
    }
  }

  // ---- Inserting sorted blocks

  /** Copy a block of pairs behind the entries and count them. */
  method AppendBlock(m: array<Pair>, block: seq<Pair>)
    requires IsMap(m[..]) && m[0].second + |block| <= m[0].first
    modifies m
    ensures IsMap(m[..]) && m[0] == Pair(old(m[0].first), old(m[0].second) + |block|)
    ensures Elems(m[..]) == Elems(old(m[..])) + block
  {
    ghost var s := m[..];
    var cnt := m[0].second;
    forall i | 0 <= i < |block| {
      m[1 + cnt + i] := block[i];
    }
    m[0] := Pair(m[0].first, cnt + |block|);
    BlockAppended(s, m[..], block);
  }

  lemma BlockAppended(s: seq<Pair>, s': seq<Pair>, block: seq<Pair>)
    requires IsMap(s) && s[0].second + |block| <= s[0].first && |s'| == |s|
    requires s'[0] == Pair(s[0].first, s[0].second + |block|)
    requires forall k :: 1 <= k < 1 + s[0].second ==> s'[k] == s[k]
    requires forall i :: 0 <= i < |block| ==> s'[1 + s[0].second + i] == block[i]
    ensures IsMap(s') && Elems(s') == Elems(s) + block
  {
    var e' := Elems(s');
    forall k | 0 <= k < |e'| ensures e'[k] == (Elems(s) + block)[k] {
      if k >= s[0].second {
        assert s'[1 + s[0].second + (k - s[0].second)] == block[k - s[0].second];
      }
    }
  }

  /** Insert the sorted block `x`, unless the map has no room for all of it.  Its pairs count as inserted
      after those that were there before. */
  method MergeBlock(rank: Rank, m: array<Pair>, x: seq<Pair>, ghost log: Log) returns (ok: bool)
    requires Valid(rank, m[..], log) && Sorted(rank, x)
    requires log.Logged? && m[0].second + |x| <= m[0].first ==> StableAt(m[0].second + |x|, m[0].first)
    modifies m
    ensures ok <==> x == [] || old(m[0].second) + |x| <= old(m[0].first)
    ensures !ok ==> m[..] == old(m[..])
    ensures ok ==> m[0] == Pair(old(m[0].first), old(m[0].second) + |x|)
    ensures Valid(rank, m[..], if ok then log.Add(x) else log)
    ensures ok ==> Permutation(Elems(m[..]), Elems(old(m[..])) + x)
  {
    hide Valid, Sorted, Elems, PowerOfTwo, LowBit, StableAt;
    ValidMap(rank, m[..], log);
    ghost var e0 := Elems(m[..]);
    assert e0 + [] == e0;
    if x == [] {
      AddNothing(log);
      return true;
    }
    var size, cnt := m[0].first, m[0].second;
    if cnt + |x| > size {
      return false;
    }
    if cnt == 0 {
      AppendBlock(m, x);
      FirstBlock(rank, m[..], e0, log, x);
      return true;
    }
    MergeChunks(rank, m, x, log);
    return true;
  }

  method MergeChunks(rank: Rank, m: array<Pair>, x: seq<Pair>, ghost log: Log)
    requires Valid(rank, m[..], log) && Sorted(rank, x)
    requires IsMap(m[..]) && 0 < m[0].second && m[0].second + |x| <= m[0].first
    requires log.Logged? ==> StableAt(m[0].second + |x|, m[0].first)
    modifies m
    ensures m[0] == Pair(old(m[0].first), old(m[0].second) + |x|)
    ensures Valid(rank, m[..], log.Add(x))
    ensures Permutation(Elems(m[..]), Elems(old(m[..])) + x)
  {
    hide Valid, Sorted, Elems, PowerOfTwo, LowBit, Permutation, StableAt;
    ghost var e0 := Elems(m[..]);
    var size, cnt := m[0].first, m[0].second;
    var bit: nat, rest: seq<Pair> := 1, x;
    OnePower(cnt);
    ghost var done: seq<Pair> := [];
    NothingDone(e0, x);
    AddNothing(log);
    while rest != []
      invariant IsMap(m[..]) && m[0] == Pair(size, cnt + |done|)
      invariant done + rest == x && Sorted(rank, rest)
      invariant Valid(rank, m[..], log.Add(done))
      invariant rest == [] || (PowerOfTwo(bit) && bit <= LowBit(m[0].second))
      invariant Permutation(Elems(m[..]), e0 + done)
      decreases |rest|
    {
      ghost var e := Elems(m[..]);
      var n;
      n, bit := MergeChunk(rank, m, rest, bit, log.Add(done));
      MoreDone(rank, Elems(m[..]), e, e0, done, rest, n);
      AddTwice(log, done, rest[..n]);
      done, rest := done + rest[..n], rest[n..];
    }
    assert done == x;
  }

  lemma NothingDone(e: seq<Pair>, x: seq<Pair>)
    ensures Permutation(e, e + []) && [] + x == x
  {
    assert e + [] == e;
  }

  lemma MoreDone(rank: Rank, e': seq<Pair>, e: seq<Pair>, e0: seq<Pair>, done: seq<Pair>, rest: seq<Pair>, n: nat)
    requires n <= |rest| && Sorted(rank, rest)
    requires Permutation(e', e + rest[..n]) && Permutation(e, e0 + done)
    ensures Permutation(e', e0 + (done + rest[..n]))
    ensures done + rest[..n] + rest[n..] == done + rest && Sorted(rank, rest[n..])
  {
    hide Sorted;
    SortedTail(rank, rest, n);
    PermutationGrows(e', e, rest[..n], e0 + done);
    Associative(e0, done, rest[..n]);
    Associative(done, rest[..n], rest[n..]);
    assert rest[..n] + rest[n..] == rest;
  }

  lemma OnePower(n: nat)
    requires n > 0
    ensures PowerOfTwo(1) && 1 <= LowBit(n)
  {}

  lemma FirstBlock(rank: Rank, s: seq<Pair>, e0: seq<Pair>, log: Log, block: seq<Pair>)
    requires IsMap(s) && Elems(s) == e0 + block && |e0| == 0 && Sorted(rank, block) && log.Fits(0)
    ensures Valid(rank, s, log.Add(block))
  {
    RunsOfSorted(rank, block, log);
    assert e0 + block == block;
  }

  lemma StableBefore(cnt: nat, cnt': nat, size: nat)
    requires StableAt(cnt, size) && cnt' <= cnt
    ensures StableAt(cnt', size)
  {}

  /** Append as many pairs of `x` as the last run has, and carry; or append all of `x` if it is shorter. */
  method MergeChunk(rank: Rank, m: array<Pair>, x: seq<Pair>, bit: nat, ghost log: Log) returns (n: nat, bit': nat)
    requires Valid(rank, m[..], log) && Sorted(rank, x) && x != []
    requires IsMap(m[..]) && 0 < m[0].second && m[0].second + |x| <= m[0].first
    requires PowerOfTwo(bit) && bit <= LowBit(m[0].second)
    requires log.Logged? ==> StableAt(m[0].second + |x|, m[0].first)
    modifies m
    ensures IsMap(m[..]) && 0 < n <= |x|
    ensures m[0] == Pair(old(m[0].first), old(m[0].second) + n)
    ensures Valid(rank, m[..], log.Add(x[..n]))
    ensures n == |x| || (PowerOfTwo(bit') && bit' <= LowBit(m[0].second))
    ensures Permutation(Elems(m[..]), Elems(old(m[..])) + x[..n])
  {
    hide Valid, Sorted, Elems, PowerOfTwo, Runs, Carry, LowBit, StableAt;
    ValidMap(rank, m[..], log);
    var cnt := m[0].second;
    var w := LowBit(cnt);
    ghost var e := Elems(m[..]);
    PowerOfTwoPositive(w);
    if w > |x| {
      n, bit' := |x|, bit;
      assert x[..n] == x;
      AppendBlock(m, x);
      ShortBlock(rank, m[..], e, log, x, cnt);
    } else {
      n, bit' := w, w;
      SortedSlice(rank, x, 0, w);
      AppendBlock(m, x[..w]);
      ghost var p := LongBlock(rank, m[..], e, log, x[..w], cnt, bit);
      if log.Logged? {
        StableBefore(cnt + |x|, cnt + w, m[0].first);
      }
      MapSort(rank, m, bit, log.Add(x[..w]), p);
    }
  }

  lemma PermutationGrows(t: seq<Pair>, e: seq<Pair>, block: seq<Pair>, u: seq<Pair>)
    requires Permutation(t, e + block) && Permutation(e, u)
    ensures Permutation(t, u + block)
  {}

  lemma ShortBlock(rank: Rank, s: seq<Pair>, e: seq<Pair>, log: Log, block: seq<Pair>, cnt: nat)
    requires IsMap(s) && Elems(s) == e + block && |e| == cnt > 0 && log.Fits(|e|)
    requires Runs(rank, e, log, 1, |e|) && Sorted(rank, block) && |block| < LowBit(cnt)
    ensures Valid(rank, s, log.Add(block))
  {
    hide Runs, Sorted, LowBit;
    var k := LowBitOdd(cnt);
    RunsAppended(rank, e, log, block, 1, k, |block|, LowBit(cnt));
  }

  /** A block as long as the last run is to be carried, in steps that may start at any lower power of two. */
  lemma LongBlock(rank: Rank, s: seq<Pair>, e: seq<Pair>, log: Log, block: seq<Pair>, cnt: nat, bit: nat) returns (p: nat)
    requires IsMap(s) && Elems(s) == e + block && |e| == cnt > 0 && log.Fits(|e|)
    requires Runs(rank, e, log, 1, |e|) && Sorted(rank, block) && |block| == LowBit(cnt)
    requires PowerOfTwo(bit) && bit <= LowBit(cnt)
    ensures Carry(rank, Elems(s), log.Add(block), bit, p)
    ensures (cnt + |block|) % 2 == 1 ==> bit == 1
    ensures LowBit(cnt + |block|) >= |block|
  {
    hide Runs, Sorted, LowBit, PowerOfTwo, Settled, Elems, Carry, IsMap;
    var w := LowBit(cnt);
    var k := LowBitOdd(cnt);
    var j := PowersDivide(bit, w);
    p := k * j + j - 1;
    LongBlockSizes(cnt, w, bit, k, j);
    RunsWidth(rank, e, log, bit, k * j);
    SortedSlice(rank, block, 0, w - bit);
    RunsAppended(rank, e, log, block[..w - bit], bit, k, j - 1, j);
    LastSteps(rank, e, log, block, bit, p, w - bit);
  }

  /** The last steps of a block are the run to be carried, the others have become runs. */
  lemma LastSteps(rank: Rank, e: seq<Pair>, log: Log, block: seq<Pair>, bit: nat, p: nat, n: nat)
    requires log.Fits(|e|) && n + bit == |block| && |e + block[..n]| == p * bit
    requires log.Add(block[..n]).Fits(|e + block[..n]|)
    requires Runs(rank, e + block[..n], log.Add(block[..n]), bit, p) && Sorted(rank, block)
    ensures Carry(rank, e + block, log.Add(block), bit, p)
  {
    hide Runs, Sorted, Settled;
    SortedTail(rank, block, n);
    AddedParts(log, block, |e|, n);
    SettledBlock(rank, block[n..], log.Add(block).Back(|e| + n));
    assert (e + block)[..|e| + n] == e + block[..n];
    assert (e + block)[|e| + n..] == block[n..];
  }

  lemma LongBlockSizes(cnt: nat, w: nat, bit: nat, k: nat, j: nat)
    requires cnt == k * w && w == j * bit && k % 2 == 1 && PowerOfTwo(bit) && PowerOfTwo(j)
    ensures j > 0 && bit > 0 && w >= bit && (j - 1) * bit == w - bit
    ensures (k * j) * bit == cnt
    ensures (k * j + j - 1) * bit == cnt + w - bit
    ensures (cnt + w) % 2 == 0
  {
    hide *;
    PowerOfTwoPositive(j);
    PowerOfTwoPositive(bit);
    Distribute(j, 1, bit);
    AtLeast(j, bit);
    Sum(k * j, j - 1, bit);
    Regroup(k, j, bit);
    Sum(k, 1, w);
    EvenMultiple(k + 1, w);
  }

  lemma EvenMultiple(k: nat, w: nat)
    requires k % 2 == 0
    ensures (k * w) % 2 == 0
  {
    Double(k / 2, w);
  }

  // ---- Inserting another map

  /** Insert all entries of `b`, run by run from its longest, unless `a` has no room for all of them.
      They count as inserted after those of `a`, in the order in which they stand in `b`. */
  method Union(rank: Rank, a: array<Pair>, b: array<Pair>, ghost log: Log) returns (ok: bool)
    requires a != b && Valid(rank, a[..], log) && Valid(rank, b[..], Unlogged)
    requires log.Logged? && a[0].second + b[0].second <= a[0].first ==> StableAt(a[0].second + b[0].second, a[0].first)
    modifies a
    ensures ok <==> old(a[0].second) + b[0].second <= old(a[0].first) || b[0].second == 0
    ensures !ok ==> a[..] == old(a[..])
    ensures ok ==> a[0] == Pair(old(a[0].first), old(a[0].second) + b[0].second)
    ensures Valid(rank, a[..], if ok then log.Add(Elems(b[..])) else log)
    ensures ok ==> Permutation(Elems(a[..]), Elems(old(a[..])) + Elems(b[..]))
  {
    hide Valid, Elems, PowerOfTwo, HasBit, RoundUp, StableAt;
    ValidMap(rank, a[..], log);
    ValidMap(rank, b[..], Unlogged);
    var na, nb, size := a[0].second, b[0].second, a[0].first;
    ghost var e0, eb := Elems(a[..]), Elems(b[..]);
    if nb == 0 {
      assert eb == [] && e0 + eb == e0;
      AddNothing(log);
      return true;
    }
    if na + nb > size {
      return false;
    }
    UnionRuns(rank, a, b, log);
    return true;
  }

  method UnionRuns(rank: Rank, a: array<Pair>, b: array<Pair>, ghost log: Log)
    requires a != b && Valid(rank, a[..], log) && Valid(rank, b[..], Unlogged)
    requires IsMap(a[..]) && IsMap(b[..]) && a[0].second + b[0].second <= a[0].first
    requires log.Logged? ==> StableAt(a[0].second + b[0].second, a[0].first)
    modifies a
    ensures a[0] == Pair(old(a[0].first), old(a[0].second) + b[0].second)
    ensures Valid(rank, a[..], log.Add(Elems(b[..])))
    ensures Permutation(Elems(a[..]), Elems(old(a[..])) + Elems(b[..]))
  {
    hide Valid, Elems, PowerOfTwo, HasBit, RoundUp, Permutation, StableAt;
    var na, nb, size := a[0].second, b[0].second, a[0].first;
    ghost var e0, eb := Elems(a[..]), Elems(b[..]);
    ElemsLength(b[..]);
    NothingDone(e0, eb);
    var bit: nat, x: nat, off: nat := RoundUp(nb + 1), nb, 0;
    ghost var c: nat := 0;
    assert eb[..0] == [] && eb[..nb] == eb;
    AddNothing(log);
    while x > 0
      invariant off + x == nb && (x > 0 ==> x < 2 * bit && PowerOfTwo(bit) && off == c * (2 * bit))
      invariant IsMap(a[..]) && a[0] == Pair(size, na + off) && Valid(rank, a[..], log.Add(eb[..off]))
      invariant Permutation(Elems(a[..]), e0 + eb[..off])
      decreases bit
    {
      PowerOfTwoPositive(bit);
      DigitOf(x, bit);
      NextDigit(x, bit, c, off);
      if HasBit(x, bit) {
        if log.Logged? {
          StableBefore(na + nb, na + off + bit, size);
        }
        AddRun(rank, a, b, off, bit, c, e0, log);
        off, x := off + bit, x - bit;
        c := 2 * c + 1;
      } else {
        c := 2 * c;
      }
      bit := bit / 2;
    }
  }

  method AddRun(rank: Rank, a: array<Pair>, b: array<Pair>, off: nat, bit: nat, ghost c: nat, ghost e0: seq<Pair>, ghost log: Log)
    requires a != b && Valid(rank, b[..], Unlogged)
    requires IsMap(a[..]) && IsMap(b[..])
    requires PowerOfTwo(bit) && off == c * (2 * bit) && off + bit <= b[0].second < off + 2 * bit
    requires a[0].second + bit <= a[0].first
    requires log.Logged? ==> StableAt(a[0].second + bit, a[0].first)
    requires |Elems(b[..])| >= off && Valid(rank, a[..], log.Add(Elems(b[..])[..off]))
    requires Permutation(Elems(a[..]), e0 + Elems(b[..])[..off])
    modifies a
    ensures IsMap(a[..]) && a[0] == Pair(old(a[0].first), old(a[0].second) + bit)
    ensures |Elems(b[..])| >= off + bit && Valid(rank, a[..], log.Add(Elems(b[..])[..off + bit]))
    ensures Permutation(Elems(a[..]), e0 + Elems(b[..])[..off + bit])
  {
    hide Valid, Elems, PowerOfTwo, Sorted, StableAt, Permutation;
    ghost var e, eb := Elems(a[..]), Elems(b[..]);
    RunToAdd(rank, b[..], off, bit, c);
    var block := b[..][1 + off..1 + off + bit];
    var ok := MergeBlock(rank, a, block, log.Add(eb[..off]));
    ValidMap(rank, a[..], log.Add(eb[..off]).Add(block));
    AddTwice(log, eb[..off], block);
    RunAdded(Elems(a[..]), e, e0, eb, off, bit, block);
  }

  lemma RunToAdd(rank: Rank, s: seq<Pair>, off: nat, bit: nat, c: nat)
    requires IsMap(s) && Valid(rank, s, Unlogged)
    requires PowerOfTwo(bit) && off == c * (2 * bit) && off + bit <= s[0].second < off + 2 * bit
    ensures 0 < bit && off + bit <= |Elems(s)| && 1 + off + bit <= |s|
    ensures s[1 + off..1 + off + bit] == Elems(s)[off..off + bit] && Sorted(rank, s[1 + off..1 + off + bit])
    ensures |s[1 + off..1 + off + bit]| == bit
  {
    hide Valid, Elems, PowerOfTwo, Sorted;
    ValidMap(rank, s, Unlogged);
    PowerOfTwoPositive(bit);
    RunAt(rank, Elems(s), off, c, bit);
    ElemsOf(s, s, off, off + bit);
  }

  lemma RunAdded(t: seq<Pair>, e: seq<Pair>, e0: seq<Pair>, eb: seq<Pair>, off: nat, bit: nat, block: seq<Pair>)
    requires off + bit <= |eb| && block == eb[off..off + bit]
    requires Permutation(t, e + block) && Permutation(e, e0 + eb[..off])
    ensures Permutation(t, e0 + eb[..off + bit]) && eb[..off] + block == eb[..off + bit]
  {
    PermutationGrows(t, e, block, e0 + eb[..off]);
    assert e0 + eb[..off + bit] == e0 + eb[..off] + block;
  }

  /** The pairs of each rank stand in the order of insertion. */
  lemma EntriesInOrder(rank: Rank, s: seq<Pair>, log: Log, r: int)
    requires Valid(rank, s, log) && log.Logged?
    ensures Only(rank, Elems(s), r) == Only(rank, log.pairs, r)
  {
    hide Only, Runs, Elems;
    RunsOnly(rank, Elems(s), log, 1, |Elems(s)|, r);
  }

  // ---- Sorting fully

  /** Merge all runs into one. */
  method SortFull(rank: Rank, m: array<Pair>)
    requires Valid(rank, m[..], Unlogged) && m[0].second > 0
    modifies m
    ensures IsMap(m[..]) && m[0] == old(m[0])
    ensures Sorted(rank, Elems(m[..])) && Permutation(Elems(m[..]), Elems(old(m[..])))
  {
    hide Valid, Elems, Sorted, Runs, LowBit;
    ValidMap(rank, m[..], Unlogged);
    var cnt := m[0].second;
    var x: nat := cnt - LowBit(cnt);
    ghost var e0 := Elems(m[..]);
    SortFullStarts(rank, e0);
    while x > 0
      invariant IsMap(m[..]) && m[0] == old(m[0])
      invariant FullySortedFrom(rank, Elems(m[..]), x)
      invariant Permutation(Elems(m[..]), e0)
    {
      ghost var e := Elems(m[..]);
      ElemsLength(m[..]);
      SortFullRun(rank, e, x);
      var y := x - LowBit(x);
      MergeRuns(rank, m, y, x);
      SortFullStep(rank, e, Elems(m[..]), x, m[0].first);
      x := y;
    }
    assert Elems(m[..])[0..] == Elems(m[..]);
  }

  /** The entries from `x` on are one run, shorter than each of the runs before it. */
  ghost predicate FullySortedFrom(rank: Rank, e: seq<Pair>, x: nat) {
    && x < |e| && Sorted(rank, e[x..])
    && Runs(rank, e[..x], Unlogged, 1, x)
    && (x > 0 ==> |e| - x < LowBit(x))
  }

  lemma SortFullStarts(rank: Rank, e: seq<Pair>)
    requires |e| > 0 && Runs(rank, e, Unlogged, 1, |e|)
    ensures FullySortedFrom(rank, e, |e| - LowBit(|e|))
  {
    hide Runs, Sorted, LowBit, PowerOfTwo;
    var w := LowBit(|e|);
    var k := LowBitOdd(|e|);
    PowerOfTwoPositive(w);
    RunsWidth(rank, e, Unlogged, w, k);
    LastRun(rank, e, Unlogged, w, k);
    PowerDoubled(w);
    RunsWidth(rank, e[..|e| - w], Unlogged, 2 * w, k / 2);
  }

  lemma SortFullRun(rank: Rank, e: seq<Pair>, x: nat)
    requires FullySortedFrom(rank, e, x) && x > 0
    ensures 0 < LowBit(x) <= x && |e| - x < LowBit(x)
    ensures Sorted(rank, e[x - LowBit(x)..x]) && Sorted(rank, e[x..])
    ensures Runs(rank, e[..x - LowBit(x)], Unlogged, 1, x - LowBit(x))
    ensures x > LowBit(x) ==> LowBit(x - LowBit(x)) >= 2 * LowBit(x)
  {
    hide Runs, Sorted, LowBit, PowerOfTwo;
    var w := LowBit(x);
    var k := LowBitOdd(x);
    PowerOfTwoPositive(w);
    RunsWidth(rank, e[..x], Unlogged, w, k);
    LastRun(rank, e[..x], Unlogged, w, k);
    assert e[..x][x - w..] == e[x - w..x] && e[..x][..x - w] == e[..x - w];
    PowerDoubled(w);
    RunsWidth(rank, e[..x - w], Unlogged, 2 * w, k / 2);
  }

  lemma SortFullStep(rank: Rank, e: seq<Pair>, e': seq<Pair>, x: nat, size: nat)
    requires FullySortedFrom(rank, e, x) && x > 0
    requires LowBit(x) <= x && LastRunsMerged(rank, e, e', x - LowBit(x), x, size)
    ensures FullySortedFrom(rank, e', x - LowBit(x))
    ensures Permutation(e', e)
  {
    hide Runs, Sorted, LowBit, PowerOfTwo, StableMerge;
    SortFullRun(rank, e, x);
    var y := x - LowBit(x);
    assert e' == e'[..y] + e'[y..] && e == e[..y] + e[y..];
  }
}
