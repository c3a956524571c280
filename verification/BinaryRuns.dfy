/** How the binary digits of a map's count cut its array into sorted runs. */
module BinaryRuns {
  import opened Order
  import opened Arith

  // ---- Powers of two and binary digits

  predicate PowerOfTwo(w: nat) {
    w == 1 || (w > 1 && w % 2 == 0 && PowerOfTwo(w / 2))
  }

  /** `x & bit`, for a power of two. */
  predicate HasBit(x: nat, bit: nat)
    requires bit > 0
  {
    (x / bit) % 2 == 1
  }

  /** `1 << ctz(n)` */
  function LowBit(n: nat): (w: nat)
    requires n > 0
    ensures PowerOfTwo(w) && w <= n
  {
    if n % 2 == 1 then 1 else 2 * LowBit(n / 2)
  }

  /** `1 << int_log2(n)`: the smallest power of two that is not less than `n`. */
  function RoundUp(n: nat): (w: nat)
    ensures PowerOfTwo(w) && n <= w && (n > 1 ==> w < 2 * n)
  {
    if n <= 1 then 1 else 2 * RoundUp((n + 1) / 2)
  }

  lemma PowerOfTwoEven(m: nat)
    requires PowerOfTwo(m) && m > 1
    ensures m % 2 == 0 && PowerOfTwo(m / 2)
  {}

  lemma PowerOfTwoPositive(w: nat)
    requires PowerOfTwo(w)
    ensures w > 0
  {}

  lemma PowerDoubled(w: nat)
    requires PowerOfTwo(w)
    ensures PowerOfTwo(2 * w)
  {}

  /** Different powers of two are a factor of two apart. */
  lemma {:induction false} PowersApart(w: nat, v: nat)
    requires PowerOfTwo(w) && PowerOfTwo(v) && w > v
    ensures w >= 2 * v
  {
    if v > 1 {
      PowersApart(w / 2, v / 2);
    }
  }

  /** The smaller of two powers of two divides the other, and the quotient is one too. */
  lemma {:induction false} PowersDivide(v: nat, w: nat) returns (j: nat)
    requires PowerOfTwo(v) && PowerOfTwo(w) && v <= w
    ensures w == j * v && PowerOfTwo(j)
  {
    if v == 1 {
      j := w;
    } else {
      j := PowersDivide(v / 2, w / 2);
      Double(j, v / 2);
    }
  }

  lemma {:induction false} LargerPower(n: nat) returns (w: nat)
    ensures PowerOfTwo(w) && n < w
  {
    if n == 0 {
      w := 1;
    } else {
      var v := LargerPower(n / 2);
      w := 2 * v;
    }
  }

  /** A number is an odd multiple of its lowest bit; without that bit the lowest bit is higher. */
  lemma {:induction false} LowBitOdd(n: nat) returns (k: nat)
    requires n > 0
    ensures n == k * LowBit(n) && k % 2 == 1
    ensures n > LowBit(n) ==> LowBit(n - LowBit(n)) >= 2 * LowBit(n)
    ensures LowBit(n + LowBit(n)) >= 2 * LowBit(n)
  {
    if n % 2 == 1 {
      k := n;
    } else {
      k := LowBitOdd(n / 2);
      Double(k, LowBit(n / 2));
    }
  }

  // ---- A record of the insertions

  /** The order in which the pairs of a map were inserted, where that is known. */
  datatype Log = Unlogged | Logged(pairs: seq<Pair>) {
    predicate Fits(n: nat) { Logged? ==> |pairs| == n }

    function Front(n: nat): (l: Log)
      requires Logged? ==> n <= |pairs|
    {
      if Logged? then Logged(pairs[..n]) else Unlogged
    }

    function Push(x: Pair): (l: Log) {
      if Logged? then Logged(pairs + [x]) else Unlogged
    }

    function Add(x: seq<Pair>): (l: Log) {
      if Logged? then Logged(pairs + x) else Unlogged
    }

    function Back(n: nat): (l: Log)
      requires Logged? ==> n <= |pairs|
    {
      if Logged? then Logged(pairs[n..]) else Unlogged
    }
  }

  /** The pairs of `s` whose key has rank `r`, in order. */
  ghost function Only(rank: Rank, s: seq<Pair>, r: int): seq<Pair> {
    if s == [] then []
    else Only(rank, s[..|s| - 1], r) + if rank(s[|s| - 1].first) == r then [s[|s| - 1]] else []
  }

  /** A run is sorted, and if the log is known it is the stable arrangement of the log. */
  ghost predicate Settled(rank: Rank, run: seq<Pair>, log: Log) {
    Sorted(rank, run) && (log.Logged? ==> forall r :: Only(rank, run, r) == Only(rank, log.pairs, r))
  }

  /** `e` consists of runs of `w`, `2w`, `4w`... pairs from the right, one for each binary digit of `q` that is set. */
  ghost predicate Runs(rank: Rank, e: seq<Pair>, log: Log, w: nat, q: nat)
    requires |e| == q * w && log.Fits(|e|)
    decreases q
  {
    if q == 0 then true
    else if q % 2 == 1 then
      RunSplit(w, q);
      var n := |e| - w;
      Settled(rank, e[n..], log.Back(n)) && Runs(rank, e[..n], log.Front(n), 2 * w, q / 2)
    else
      RunSplit(w, q);
      Runs(rank, e, log, 2 * w, q / 2)
  }

  lemma RunSplit(w: nat, q: nat)
    ensures q % 2 == 1 ==> (q / 2) * (2 * w) + w == q * w
    ensures q % 2 == 0 ==> (q / 2) * (2 * w) == q * w
  {
    if q % 2 == 1 {
      assert q == 2 * (q / 2) + 1;
    } else {
      assert q == 2 * (q / 2);
    }
  }

  // ---- Carrying, as a binary counter does

  /** The last `w` pairs are a run of their own, which may have to be carried into the `p * w` pairs before it. */
  ghost predicate Carry(rank: Rank, e: seq<Pair>, log: Log, w: nat, p: nat) {
    && |e| == p * w + w && log.Fits(|e|)
    && Settled(rank, e[|e| - w..], log.Back(|e| - w))
    && Runs(rank, e[..|e| - w], log.Front(|e| - w), w, p)
  }

  /** With an even number of `w`s before it, the run stands for a digit of its own. */
  lemma CarryEnds(rank: Rank, e: seq<Pair>, log: Log, w: nat, p: nat)
    requires Carry(rank, e, log, w, p) && p % 2 == 0
    ensures (p + 1) * w == |e| && Runs(rank, e, log, w, p + 1)
  {
    RunSplit(w, p);
    RunSplit(w, p + 1);
    assert (p + 1) / 2 == p / 2;
    if p == 0 {
      assert Runs(rank, e[..|e| - w], log.Front(|e| - w), 2 * w, 0);
    }
  }

  /** With an odd number, it is merged with the run of the same length before it. */
  lemma CarryStep(rank: Rank, e: seq<Pair>, log: Log, w: nat, p: nat, e': seq<Pair>)
    requires Carry(rank, e, log, w, p) && p % 2 == 1 && 2 * w <= |e|
    requires |e'| == |e| && e'[..|e| - 2 * w] == e[..|e| - 2 * w]
    requires Sorted(rank, e'[|e| - 2 * w..])
    requires log.Logged? ==>
      e'[|e| - 2 * w..] == StableMerge(rank, e[|e| - 2 * w..|e| - w], e[|e| - w..])
    ensures Carry(rank, e', log, 2 * w, p / 2)
  {
    hide Runs, Sorted, StableMerge;
    var x, y := |e| - w, |e| - 2 * w;
    CarryParts(rank, e, log, w, p);
    if log.Logged? {
      assert log.pairs[y..] == log.pairs[y..x] + log.pairs[x..];
      SettledMerge(rank, e[y..x], Logged(log.pairs[y..x]), e[x..], Logged(log.pairs[x..]));
    }
  }

  /** What `Runs` says about the run that is carried into. */
  lemma CarryParts(rank: Rank, e: seq<Pair>, log: Log, w: nat, p: nat)
    requires Carry(rank, e, log, w, p) && p % 2 == 1
    ensures 2 * w <= |e| && (p / 2) * (2 * w) == |e| - 2 * w
    ensures Sorted(rank, e[|e| - 2 * w..|e| - w]) && Sorted(rank, e[|e| - w..])
    ensures log.Logged? ==> Settled(rank, e[|e| - 2 * w..|e| - w], Logged(log.pairs[|e| - 2 * w..|e| - w]))
    ensures Runs(rank, e[..|e| - 2 * w], log.Front(|e| - 2 * w), 2 * w, p / 2)
  {
    hide Sorted;
    RunSplit(w, p);
    var x, y := |e| - w, |e| - 2 * w;
    assert 0 <= y by { CarryRoom(w, p); }
    assert e[..x][y..] == e[y..x] && e[..x][..y] == e[..y];
    if log.Logged? {
      assert log.pairs[..x][y..] == log.pairs[y..x] && log.pairs[..x][..y] == log.pairs[..y];
    }
  }

  lemma CarryRoom(w: nat, p: nat)
    requires p % 2 == 1
    ensures p * w >= w
  {
    if w > 0 {
      AtLeast(p, w);
    }
  }

  lemma SettledMerge(rank: Rank, x: seq<Pair>, lx: Log, y: seq<Pair>, ly: Log)
    requires lx.Logged? && ly.Logged? && Settled(rank, x, lx) && Settled(rank, y, ly)
    ensures Settled(rank, StableMerge(rank, x, y), Logged(lx.pairs + ly.pairs))
  {
    StableMergeSorted(rank, x, y);
    forall r ensures Only(rank, StableMerge(rank, x, y), r) == Only(rank, lx.pairs + ly.pairs, r) {
      OnlyMerge(rank, x, y, r);
      OnlyConcat(rank, lx.pairs, ly.pairs, r);
    }
  }

  lemma {:induction false} OnlyConcat(rank: Rank, x: seq<Pair>, y: seq<Pair>, r: int)
    ensures Only(rank, x + y, r) == Only(rank, x, r) + Only(rank, y, r)
  {
    hide Only;
    if y == [] {
      assert x + y == x;
      OnlyNone(rank, y, r);
    } else {
      var y' := y[..|y| - 1];
      OnlyConcat(rank, x, y', r);
      assert (x + y)[..|x + y| - 1] == x + y';
      OnlyLast(rank, x + y, r);
      OnlyLast(rank, y, r);
      Associative(Only(rank, x, r), Only(rank, y', r), if rank(y[|y| - 1].first) == r then [y[|y| - 1]] else []);
    }
  }

  lemma OnlyLast(rank: Rank, s: seq<Pair>, r: int)
    requires s != []
    ensures Only(rank, s, r) ==
            Only(rank, s[..|s| - 1], r) + if rank(s[|s| - 1].first) == r then [s[|s| - 1]] else []
  {}

  /** Merging sorted runs stably keeps the pairs of each rank in order: those of the left run first. */
  lemma {:induction false} OnlyMerge(rank: Rank, x: seq<Pair>, y: seq<Pair>, r: int)
    requires Sorted(rank, x)
    ensures Only(rank, StableMerge(rank, x, y), r) == Only(rank, x, r) + Only(rank, y, r)
  {
    hide StableMerge, Only, Sorted;
    if x == [] || y == [] {
      StableMergeNil(rank, x);
      StableMergeNil(rank, y);
      OnlyNone(rank, [], r);
      assert Only(rank, x, r) + [] == Only(rank, x, r) && [] + Only(rank, y, r) == Only(rank, y, r);
    } else {
      if Less(rank, y[0], x[0]) {
        var y' := y[1..];
        assert y == [y[0]] + y';
        StableMergeRightFirst(rank, x, y[0], y');
        OnlyMerge(rank, x, y', r);
        OnlyConcat(rank, [y[0]], y', r);
        OnlyConcat(rank, [y[0]], StableMerge(rank, x, y'), r);
        OnlyLarger(rank, x, y[0], r);
        Exchange(Only(rank, [y[0]], r), Only(rank, x, r), Only(rank, y', r));
      } else {
        var x' := x[1..];
        assert x == [x[0]] + x';
        StableMergeFirst(rank, x, y);
        SortedTail(rank, x, 1);
        OnlyMerge(rank, x', y, r);
        OnlyConcat(rank, [x[0]], x', r);
        OnlyConcat(rank, [x[0]], StableMerge(rank, x', y), r);
        Associative(Only(rank, [x[0]], r), Only(rank, x', r), Only(rank, y, r));
      }
    }
  }

  lemma Exchange(u: seq<Pair>, v: seq<Pair>, w: seq<Pair>)
    requires u == [] || v == []
    ensures u + (v + w) == v + (u + w)
  {}

  /** A pair that precedes a sorted run has a rank that does not occur in it. */
  lemma OnlyLarger(rank: Rank, x: seq<Pair>, p: Pair, r: int)
    requires x != [] && Sorted(rank, x) && Less(rank, p, x[0])
    ensures Only(rank, [p], r) == [] || Only(rank, x, r) == []
  {
    if rank(p.first) == r {
      OnlyNone(rank, x, r);
    } else {
      OnlyNone(rank, [p], r);
    }
  }

  lemma {:induction false} OnlyNone(rank: Rank, s: seq<Pair>, r: int)
    requires forall i :: 0 <= i < |s| ==> rank(s[i].first) != r
    ensures Only(rank, s, r) == []
  {
    if s != [] {
      OnlyNone(rank, s[..|s| - 1], r);
    }
  }

  // ---- The same runs, counted in wider units

  lemma {:induction false} RunsWidth(rank: Rank, e: seq<Pair>, log: Log, w: nat, q: nat)
    requires |e| == q * w && log.Fits(|e|) && PowerOfTwo(w)
    ensures Runs(rank, e, log, w, q) <==> Runs(rank, e, log, 1, |e|)
    decreases w
  {
    hide Runs;
    if w > 1 {
      var v := w / 2;
      RunSplit(v, 2 * q);
      RunsWidth(rank, e, log, v, 2 * q);
      RunsHalved(rank, e, log, v, q);
    } else {
      assert w == 1 && q == |e|;
    }
  }

  lemma RunsHalved(rank: Rank, e: seq<Pair>, log: Log, v: nat, q: nat)
    requires |e| == (2 * q) * v == q * (2 * v) && log.Fits(|e|)
    ensures Runs(rank, e, log, v, 2 * q) <==> Runs(rank, e, log, 2 * v, q)
  {
    assert (2 * q) / 2 == q;
  }

  // ---- Digit by digit, from the highest

  /** Below `2 * bit`, the digit of weight `bit` is set for the numbers from `bit` on. */
  lemma DigitOf(x: nat, bit: nat)
    requires 0 < bit && x < 2 * bit
    ensures HasBit(x, bit) <==> bit <= x
  {
    if bit <= x {
      QuotientOf(1, x - bit, bit);
    } else {
      QuotientOf(0, x, bit);
    }
  }

  /** Moving on to the next lower digit. */
  lemma NextDigit(x: nat, bit: nat, c: nat, off: nat)
    requires PowerOfTwo(bit) && 0 < x < 2 * bit && off == c * (2 * bit)
    ensures var rest := if bit <= x then x - bit else x;
            bit / 2 < bit && rest <= 2 * (bit / 2) && (rest > 0 ==> rest < 2 * (bit / 2) && PowerOfTwo(bit / 2))
    ensures bit > 1 ==> off == (2 * c) * (2 * (bit / 2)) && off + bit == (2 * c + 1) * (2 * (bit / 2))
  {
    if bit > 1 {
      PowerOfTwoEven(bit);
      hide PowerOfTwo;
      Double(c, bit);
      Sum(2 * c, 1, bit);
    }
  }

  // ---- Where the runs of a count lie

  /** The digit of weight `w` is set, and its run starts at `lo`: the higher digits are to the left. */
  predicate IsRun(cnt: nat, w: nat, lo: nat) {
    PowerOfTwo(w) && w > 0 && HasBit(cnt, w) && lo == cnt / (2 * w) * (2 * w)
  }

  /** The digit that the digits to its left have made the next one. */
  lemma NextIsRun(cnt: nat, x: nat, bit: nat, a: nat, c: nat)
    requires a + x == cnt && PowerOfTwo(bit) && bit <= x < 2 * bit && a == c * (2 * bit)
    ensures IsRun(cnt, bit, a)
  {
    hide PowerOfTwo;
    QuotientOf(c, x, 2 * bit);
    Double(c, bit);
    Sum(2 * c, 1, bit);
    QuotientOf(2 * c + 1, x - bit, bit);
  }

  /** Longer runs come first, and runs do not overlap. */
  lemma RunsInOrder(cnt: nat, w: nat, lo: nat, w': nat, lo': nat)
    requires IsRun(cnt, w, lo) && IsRun(cnt, w', lo') && w' < w
    ensures lo + w <= lo' && lo' + w' <= cnt
  {
    hide PowerOfTwo;
    RunFits(cnt, w, lo);
    RunFits(cnt, w', lo');
    PowersApart(w, w');
    DoublePower(w');
    var j := PowersDivide(2 * w', w);
    var k := cnt / w;
    Regroup(k, j, 2 * w');
    Whole(cnt, k * j, 2 * w');
  }

  lemma DoublePower(w: nat)
    requires PowerOfTwo(w)
    ensures PowerOfTwo(2 * w)
  {}

  /** A multiple of `v` up to `n` is at most the largest one. */
  lemma Whole(n: nat, p: nat, v: nat)
    requires v > 0 && p * v <= n
    ensures p * v <= n / v * v
  {
    QuotientRemainder(n, v);
    Distribute(n / v, p, v);
    AtLeast(n / v - p, v);
  }

  lemma RunFits(cnt: nat, w: nat, lo: nat)
    requires IsRun(cnt, w, lo)
    ensures lo + w == cnt / w * w <= cnt
  {
    hide PowerOfTwo;
    var k, c := cnt / w, cnt / (2 * w);
    QuotientRemainder(cnt, w);
    QuotientRemainder(cnt, 2 * w);
    var h := k / 2;
    assert k == 2 * h + 1;
    Double(h, w);
    Sum(2 * h, 1, w);
    QuotientUnique(c, cnt % (2 * w), h, w + cnt % w, 2 * w);
  }

  /** So a position lies in one run at most. */
  lemma OneRun(cnt: nat, w: nat, lo: nat, w': nat, lo': nat, i: nat)
    requires IsRun(cnt, w, lo) && IsRun(cnt, w', lo') && lo <= i < lo + w && lo' <= i < lo' + w'
    ensures w == w' && lo == lo'
  {
    hide IsRun;
    if w < w' {
      RunsInOrder(cnt, w', lo', w, lo);
    } else if w' < w {
      RunsInOrder(cnt, w, lo, w', lo');
    } else {
      SameStart(cnt, w, lo, lo');
    }
  }

  lemma SameStart(cnt: nat, w: nat, lo: nat, lo': nat)
    requires IsRun(cnt, w, lo) && IsRun(cnt, w, lo')
    ensures lo == lo'
  {}

  // ---- Appending a sorted block

  /** A sorted block that is shorter than the last run falls into sorted runs of its own, and counts as
      inserted after all others. */
  lemma {:induction false} RunsAppended(rank: Rank, e: seq<Pair>, log: Log, block: seq<Pair>, w: nat, k: nat, r: nat, m: nat)
    requires |e| == (k * m) * w && |block| == r * w && r < m && PowerOfTwo(m) && log.Fits(|e|)
    requires Runs(rank, e, log, w, k * m) && Sorted(rank, block)
    ensures |e + block| == (k * m + r) * w && Runs(rank, e + block, log.Add(block), w, k * m + r)
    decreases m
  {
    hide Sorted, Runs;
    AppendedSizes(w, k, r, m);
    if m == 1 {
      assert e + block == e && block == [];
      AddNothing(log);
    } else {
      var n := (r / 2) * (2 * w);
      RunsHalved(rank, e, log, w, k * (m / 2));
      SortedSlice(rank, block, 0, n);
      RunsAppended(rank, e, log, block[..n], 2 * w, k, r / 2, m / 2);
      RunsJoined(rank, e, log, block, w, k * m, r);
    }
  }

  lemma AddNothing(log: Log)
    ensures log.Add([]) == log
  {
    assert log.Logged? ==> log.pairs + [] == log.pairs;
  }

  lemma AddTwice(log: Log, x: seq<Pair>, y: seq<Pair>)
    ensures log.Add(x).Add(y) == log.Add(x + y)
  {
    if log.Logged? {
      Associative(log.pairs, x, y);
    }
  }

  /** The log of a block is the block. */
  lemma AddedParts(log: Log, block: seq<Pair>, n: nat, k: nat)
    requires log.Fits(n) && k <= |block|
    ensures log.Add(block).Fits(n + |block|)
    ensures log.Add(block).Front(n + k) == log.Add(block[..k])
    ensures log.Logged? ==> log.Add(block).Back(n + k) == Logged(block[k..])
  {}

  lemma SettledBlock(rank: Rank, block: seq<Pair>, log: Log)
    requires Sorted(rank, block) && (log.Logged? ==> log.pairs == block)
    ensures Settled(rank, block, log)
  {}

  lemma AppendedSizes(w: nat, k: nat, r: nat, m: nat)
    requires PowerOfTwo(m) && r < m
    ensures (k * m + r) * w == (k * m) * w + r * w
    ensures m == 1 ==> r * w == 0
    ensures m > 1 ==> k * m == 2 * (k * (m / 2)) && r / 2 < m / 2 && (r / 2) * (2 * w) <= r * w
    ensures m > 1 ==> (2 * (k * (m / 2))) * w == (k * (m / 2)) * (2 * w)
    ensures m > 1 ==> (k * (m / 2) + r / 2) * (2 * w) == (k * (m / 2)) * (2 * w) + (r / 2) * (2 * w)
    ensures m > 1 ==> (k * m) / 2 == k * (m / 2)
  {
    hide *;
    RunSplit(w, r);
    Sum(k * m, r, w);
    if m > 1 {
      var h, g := m / 2, r / 2;
      assert m == 2 * h by { PowerOfTwoEven(m); }
      Double(h, k);
      Double(k * h, w);
      Double(g, w);
      Sum(k * h, g, 2 * w);
    }
  }

  lemma RunsJoined(rank: Rank, e: seq<Pair>, log: Log, block: seq<Pair>, w: nat, q: nat, r: nat)
    requires q % 2 == 0 && |e| == q * w && |block| == r * w && Sorted(rank, block) && log.Fits(|e|)
    requires (r / 2) * (2 * w) <= |block|
    requires var u, l := e + block[..(r / 2) * (2 * w)], log.Add(block[..(r / 2) * (2 * w)]);
             |u| == (q / 2 + r / 2) * (2 * w) && l.Fits(|u|) && Runs(rank, u, l, 2 * w, q / 2 + r / 2)
    ensures |e + block| == (q + r) * w && Runs(rank, e + block, log.Add(block), w, q + r)
  {
    hide Sorted, Settled;
    assert (q + r) * w == q * w + r * w;
    assert (q + r) / 2 == q / 2 + r / 2;
    RunSplit(w, r);
    RunSplit(w, q + r);
    var n := (r / 2) * (2 * w);
    AddedParts(log, block, |e|, n);
    if r % 2 == 1 {
      SortedTail(rank, block, n);
      SettledBlock(rank, block[n..], log.Add(block).Back(|e| + n));
      assert (e + block)[..|e| + n] == e + block[..n] && (e + block)[|e| + n..] == block[n..];
    } else {
      assert block[..n] == block;
    }
  }

  /** A sorted sequence is cut into sorted runs. */
  lemma RunsOfSorted(rank: Rank, block: seq<Pair>, log: Log)
    requires Sorted(rank, block) && log.Fits(0)
    ensures Runs(rank, block, log.Add(block), 1, |block|)
  {
    hide Runs, Sorted;
    var m := LargerPower(|block|);
    assert 0 * m == 0;
    NoRuns(rank, log, 1);
    RunsAppended(rank, [], log, block, 1, 0, |block|, m);
    assert [] + block == block;
  }

  lemma NoRuns(rank: Rank, log: Log, w: nat)
    requires log.Fits(0)
    ensures Runs(rank, [], log, w, 0)
  {}

  // ---- Single runs

  /** Without the runs for the digits below `v`, the rest consists of runs counted in units of `v`. */
  lemma {:induction false} RunsTruncated(rank: Rank, e: seq<Pair>, log: Log, c: nat, v: nat, b: nat)
    requires |e| == c * v + b && b < v && PowerOfTwo(v) && log.Fits(|e|)
    requires Runs(rank, e, log, 1, |e|)
    ensures c * v <= |e| && Runs(rank, e[..c * v], log.Front(c * v), v, c)
    decreases v
  {
    hide Runs, PowerOfTwo;
    if v == 1 {
      assert e[..c * v] == e && log.Front(c * v) == log by { WholeLog(log, |e|); }
    } else {
      PowerOfTwoEven(v);
      var u := v / 2;
      var d := if b >= u then 1 else 0;
      Double(c, u);
      Sum(2 * c, d, u);
      assert d * u == if b >= u then u else 0;
      RunsTruncated(rank, e, log, 2 * c + d, u, b - d * u);
      LastRunOff(rank, e, log, c, u, d);
    }
  }

  lemma WholeLog(log: Log, n: nat)
    requires log.Fits(n)
    ensures log.Front(n) == log
  {}

  lemma LastRunOff(rank: Rank, e: seq<Pair>, log: Log, c: nat, u: nat, d: nat)
    requires d <= 1 && log.Fits(|e|)
    requires (2 * c + d) * u == c * (2 * u) + d * u && c * (2 * u) <= (2 * c + d) * u <= |e|
    requires Runs(rank, e[..(2 * c + d) * u], log.Front((2 * c + d) * u), u, 2 * c + d)
    ensures Runs(rank, e[..c * (2 * u)], log.Front(c * (2 * u)), 2 * u, c)
  {
    var n, m := (2 * c + d) * u, c * (2 * u);
    assert (2 * c + d) / 2 == c && (2 * c + d) % 2 == d;
    if d == 1 {
      assert n - u == m;
      assert e[..n][..m] == e[..m];
      assert log.Logged? ==> log.pairs[..n][..m] == log.pairs[..m];
    } else {
      assert n == m;
    }
  }

  /** The run that stands for the digit of weight `v`, where `off` pairs are to its left. */
  lemma RunAt(rank: Rank, e: seq<Pair>, off: nat, a: nat, v: nat)
    requires PowerOfTwo(v) && off == a * (2 * v) && off + v <= |e| < off + 2 * v
    requires Runs(rank, e, Unlogged, 1, |e|)
    ensures Sorted(rank, e[off..off + v])
  {
    hide Sorted, Runs, PowerOfTwo;
    PowerOfTwoPositive(v);
    Double(a, v);
    Sum(2 * a, 1, v);
    RunsTruncated(rank, e, Unlogged, 2 * a + 1, v, |e| - (off + v));
    LastRun(rank, e[..off + v], Unlogged, v, 2 * a + 1);
    assert e[..off + v][off..] == e[off..off + v];
  }

  lemma LastRun(rank: Rank, e: seq<Pair>, log: Log, w: nat, q: nat)
    requires |e| == q * w && log.Fits(|e|) && q % 2 == 1 && Runs(rank, e, log, w, q)
    ensures w <= |e| && Settled(rank, e[|e| - w..], log.Back(|e| - w))
    ensures (q / 2) * (2 * w) == |e| - w && Runs(rank, e[..|e| - w], log.Front(|e| - w), 2 * w, q / 2)
  {
    RunSplit(w, q);
  }

  // ---- Forgetting the log

  lemma SettledUnlogged(rank: Rank, run: seq<Pair>, log: Log, n: nat)
    requires log.Fits(n + |run|) && Settled(rank, run, log.Back(n))
    ensures Settled(rank, run, Unlogged)
  {}

  lemma {:induction false} RunsUnlogged(rank: Rank, e: seq<Pair>, log: Log, w: nat, q: nat)
    requires |e| == q * w && log.Fits(|e|) && Runs(rank, e, log, w, q)
    ensures Runs(rank, e, Unlogged, w, q)
    decreases q
  {
    hide Settled;
    RunSplit(w, q);
    if q % 2 == 1 {
      SettledUnlogged(rank, e[|e| - w..], log, |e| - w);
      RunsUnlogged(rank, e[..|e| - w], log.Front(|e| - w), 2 * w, q / 2);
    } else if q > 0 {
      RunsUnlogged(rank, e, log, 2 * w, q / 2);
    }
  }

  /** Whatever the runs, the pairs of each rank stand in the order of insertion. */
  lemma {:induction false} RunsOnly(rank: Rank, e: seq<Pair>, log: Log, w: nat, q: nat, r: int)
    requires |e| == q * w && log.Logged? && log.Fits(|e|) && Runs(rank, e, log, w, q)
    ensures Only(rank, e, r) == Only(rank, log.pairs, r)
    decreases q
  {
    hide Only, Sorted;
    RunSplit(w, q);
    if q == 0 {
      assert e == [] && log.pairs == [];
    } else if q % 2 == 1 {
      var n := |e| - w;
      RunsOnly(rank, e[..n], log.Front(n), 2 * w, q / 2, r);
      OnlyConcat(rank, e[..n], e[n..], r);
      OnlyConcat(rank, log.pairs[..n], log.pairs[n..], r);
      assert e == e[..n] + e[n..] && log.pairs == log.pairs[..n] + log.pairs[n..];
    } else {
      RunsOnly(rank, e, log, 2 * w, q / 2, r);
    }
  }
}
