/** Looking entries up: binary search in one run, and the searches that go from run to run. */
module Search {
  import opened Options
  import opened Order
  import opened Arith
  import opened BinaryRuns
  import opened ZMap

  /** The last entry of a run whose key has rank `r`, if there is one. */
  ghost predicate IsLastMatch(rank: Rank, run: seq<Pair>, r: int, k: Option<nat>) {
    match k
    case None => forall i :: 0 <= i < |run| ==> rank(run[i].first) != r
    case Some(i) => i < |run| && rank(run[i].first) == r && forall j :: i < j < |run| ==> rank(run[j].first) != r
  }

  /** Between the bounds of a binary search for the last entry of rank `r` or less. */
  ghost predicate Narrowed(rank: Rank, run: seq<Pair>, r: int, low: nat, high: nat) {
    && low <= high <= |run| && low < |run|
    && (low > 0 ==> rank(run[low].first) <= r)
    && (forall i :: high <= i < |run| ==> rank(run[i].first) > r)
  }

  lemma SearchNarrows(rank: Rank, run: seq<Pair>, r: int, low: nat, high: nat, pivot: nat)
    requires Sorted(rank, run) && Narrowed(rank, run, r, low, high) && low <= pivot < high
    ensures rank(run[pivot].first) <= r ==> Narrowed(rank, run, r, pivot, high)
    ensures rank(run[pivot].first) > r ==> Narrowed(rank, run, r, low, pivot)
  {
    if rank(run[pivot].first) > r {
      forall i | pivot <= i < |run| ensures rank(run[i].first) > r {
        assert i == pivot || !Less(rank, run[i], run[pivot]);
      }
    }
  }

  lemma SearchEnds(rank: Rank, run: seq<Pair>, r: int, low: nat, high: nat)
    requires Sorted(rank, run) && Narrowed(rank, run, r, low, high) && high <= low + 1
    ensures IsLastMatch(rank, run, r, if rank(run[low].first) == r then Some(low) else None)
  {
    forall i | 0 <= i < low ensures !Less(rank, run[low], run[i]) {
    }
  }

  /** Binary search for the last entry with the key; the first pivot is the estimate `est`, if given.
      `est'` is where the search ended. */
  method FindLast(arr: array<Pair>, off: nat, size: nat, key: int, est: Option<nat>) returns (found: Option<nat>, est': nat)
    requires 0 < size && off + size <= arr.Length && Sorted(KeyRank, arr[off..off + size])
    requires est.Some? ==> est.value < size
    ensures IsLastMatch(KeyRank, arr[off..off + size], key, found)
    ensures est' < size
  {
    ghost var run := arr[off..off + size];
    var low, high := 0, size;
    var pivot := if est.Some? then est.value else low + (high - low + 1) / 2;
    while high > low + 1
      invariant Narrowed(KeyRank, run, key, low, high)
      invariant high > low + 1 ==> low <= pivot < high
      decreases high - low, if pivot == low then 1 else 0
    {
      SearchNarrows(KeyRank, run, key, low, high, pivot);
      var pivotKey := arr[off + pivot].first;
      assert run[pivot] == arr[off + pivot];
      if pivotKey <= key {
        low := pivot;
      } else {
        high := pivot;
      }
      pivot := low + (high - low + 1) / 2;
    }
    SearchEnds(KeyRank, run, key, low, high);
    est' := low;
    found := if arr[off + low].first == key then Some(low) else None;
  }

  /** The same with string keys, which rank by the strings they point to. */
  method FindLastString(rank: Rank, arr: array<Pair>, off: nat, size: nat, key: int) returns (found: Option<nat>)
    requires 0 < size && off + size <= arr.Length && Sorted(rank, arr[off..off + size])
    ensures IsLastMatch(rank, arr[off..off + size], rank(key), found)
  {
    ghost var run := arr[off..off + size];
    var low, high := 0, size;
    while high > low + 1
      invariant Narrowed(rank, run, rank(key), low, high)
    {
      var pivot := low + (high - low + 1) / 2;
      SearchNarrows(rank, run, rank(key), low, high, pivot);
      assert run[pivot] == arr[off + pivot];
      if rank(arr[off + pivot].first) <= rank(key) {
        low := pivot;
      } else {
        high := pivot;
      }
    }
    SearchEnds(rank, run, rank(key), low, high);
    assert run[low] == arr[off + low];
    found := if rank(arr[off + low].first) == rank(key) then Some(low) else None;
  }

  /** There is one right answer, whatever estimate the search starts from. */
  lemma LastMatchUnique(rank: Rank, run: seq<Pair>, r: int, k: Option<nat>, k': Option<nat>)
    requires IsLastMatch(rank, run, r, k) && IsLastMatch(rank, run, r, k')
    ensures k == k'
  {}

  // ---- Integer keys: from the longest run to the shortest

  /** `map_iterator`: the entries before `a` have been searched, `x` are left, and `bit` is the weight of
      the next digit.  `est` is where in a run of that length the key is expected. */
  class MapIterator {
    const m: array<Pair>
    const key: int
    var x: nat
    var bit: nat
    var a: nat
    var est: nat
    ghost var c: nat

    ghost predicate Valid()
      reads this, m
    {
      && ZMap.Valid(KeyRank, m[..], Unlogged)
      && AtDigit(m[0].second, x, bit, a, est, c)
    }

    /** `map_iterator_begin` */
    constructor (entries: array<Pair>, k: int)
      requires ZMap.Valid(KeyRank, entries[..], Unlogged)
      ensures Valid() && m == entries && key == k && a == 0
    {
      ValidMap(KeyRank, entries[..], Unlogged);
      m, key := entries, k;
      x := entries[0].second;
      bit := RoundUp(entries[0].second);
      a, c := 0, 0;
      est := RoundUp(entries[0].second) / 2;
      new;
      hide *;
      FirstDigit(m[0].second);
      Refolded();
    }

    /** `map_find_iter`: search the remaining runs until one has the key.  The search ends behind the first
        run that does; `w` is the length of that run. */
    method Find() returns (found: Option<nat>, ghost w: nat)
      requires Valid()
      modifies this
      ensures Valid()
      ensures old(a) <= a <= |Elems(m[..])|
      ensures found.None? ==> x == 0 && forall i :: old(a) <= i < |Elems(m[..])| ==> Elems(m[..])[i].first != key
      ensures found.Some? ==> FirstMatch(Elems(m[..]), key, old(a), w, a, found.value)
    {
      hide HasBit, Elems, ZMap.Valid, AtDigit, FirstMatch;
      ValidMap(KeyRank, m[..], Unlogged);
      ghost var e := Elems(m[..]);
      AtDigitBounds(|e|, x, bit, a, est, c);
      found, w := None, 0;
      while x > 0 && found.None?
        invariant Valid() && old(a) <= a && a + x == |e|
        invariant found.None? ==> forall i :: old(a) <= i < a ==> e[i].first != key
        invariant found.Some? ==> FirstMatch(e, key, old(a), w, a, found.value)
        decreases if x > 0 then bit else 0
      {
        AtDigitBounds(|e|, x, bit, a, est, c);
        if HasBit(x, bit) {
          w := bit;
          found := SearchRun();
          if found.Some? {
            MatchAfter(e, key, old(a), w, a, found.value);
          }
        } else {
          AtNextDigit(|e|, x, bit, a, est, c);
          c := 2 * c;
          est := est / 2;
          bit := bit / 2;
        }
        AtDigitBounds(|e|, x, bit, a, est, c);
      }
    }

    /** Search the run for the current digit and move on to the next. */
    method SearchRun() returns (found: Option<nat>)
      requires Valid() && x > 0 && bit > 0 && HasBit(x, bit)
      modifies this
      ensures Valid() && bit == old(bit) / 2 && a == old(a) + old(bit) && a + x == |Elems(m[..])|
      ensures found.None? ==> forall i :: old(a) <= i < a ==> Elems(m[..])[i].first != key
      ensures found.Some? ==> RunMatch(Elems(m[..]), key, old(bit), old(a), found.value)
    {
      hide *;
      DigitRun();
      ghost var e, a0: nat, bit0: nat, x0: nat, c0: nat := Elems(m[..]), a, bit, x, c;
      var k, est' := FindLast(m, 1 + a, bit, key, Some(est));
      MatchInRun(e, a0, bit0, key, k);
      found := if k.Some? then Some(a + k.value) else None;
      if k.Some? {
        RunMatchIs(e, key, bit, a, k.value);
      }
      x := x - bit;
      a := a + bit;
      c := 2 * c + 1;
      est := est' / 2;
      bit := bit / 2;
      assert AtDigit(a + x, x0 - bit0, bit0 / 2, a0 + bit0, est' / 2, 2 * c0 + 1);
      Refolded();
    }

    /** The run for the current digit is sorted, and the next digit is found behind it. */
    lemma DigitRun()
      requires Valid() && x > 0 && bit > 0 && HasBit(x, bit)
      ensures IsMap(m[..]) && a + x == |Elems(m[..])| && 0 < bit <= x && est < bit && 1 + a + bit <= m.Length && m.Length > 0
      ensures m[1 + a..1 + a + bit] == Elems(m[..])[a..a + bit] && Sorted(KeyRank, m[1 + a..1 + a + bit])
      ensures ZMap.Valid(KeyRank, m[..], Unlogged) && m[0].second == a + x && IsRun(a + x, bit, a)
      ensures forall est': nat :: est' < bit ==> AtDigit(m[0].second, x - bit, bit / 2, a + bit, est' / 2, 2 * c + 1)
    {
      hide HasBit, Elems, ZMap.Valid, Sorted, PowerOfTwo, Runs, IsRun;
      ValidMap(KeyRank, m[..], Unlogged);
      ghost var e := Elems(m[..]);
      DigitOf(x, bit);
      AtNextDigit(|e|, x, bit, a, est, c);
      NextIsRun(|e|, x, bit, a, c);
      RunAt(KeyRank, e, a, c, bit);
      ElemsOf(m[..], m[..], a, a + bit);
      assert m[1 + a..1 + a + bit] == e[a..a + bit];
    }

    lemma Refolded()
      requires m.Length > 0 && ZMap.Valid(KeyRank, m[..], Unlogged) && AtDigit(m[0].second, x, bit, a, est, c)
      ensures Valid()
    {}
  }

  /** With `x` of `cnt` entries left, starting at `a`, the digits from `bit` down are still to come;
      the estimate lies inside a run of `bit` entries. */
  ghost predicate AtDigit(cnt: nat, x: nat, bit: nat, a: nat, est: nat, c: nat) {
    a + x == cnt && (x > 0 ==> PowerOfTwo(bit) && x < 2 * bit && a == c * (2 * bit) && est < bit)
  }

  lemma FirstDigit(cnt: nat)
    ensures AtDigit(cnt, cnt, RoundUp(cnt), 0, RoundUp(cnt) / 2, 0)
  {}

  lemma AtDigitBounds(cnt: nat, x: nat, bit: nat, a: nat, est: nat, c: nat)
    requires AtDigit(cnt, x, bit, a, est, c)
    ensures a + x == cnt && (x > 0 ==> bit > 0 && est < bit && bit / 2 < bit)
  {}

  /** Wherever in the run the search ends, half of that is an estimate inside the next run. */
  lemma AtNextDigit(cnt: nat, x: nat, bit: nat, a: nat, est: nat, c: nat)
    requires AtDigit(cnt, x, bit, a, est, c) && x > 0
    ensures if bit <= x then forall est' | 0 <= est' < bit :: AtDigit(cnt, x - bit, bit / 2, a + bit, est' / 2, 2 * c + 1)
            else AtDigit(cnt, x, bit / 2, a, est / 2, 2 * c)
    ensures HasBit(x, bit) <==> bit <= x
  {
    NextDigit(x, bit, c, a);
    DigitOf(x, bit);
  }

  lemma MatchInRun(e: seq<Pair>, a: nat, size: nat, key: int, k: Option<nat>)
    requires a + size <= |e| && IsLastMatch(KeyRank, e[a..a + size], key, k)
    ensures k.None? ==> forall i :: a <= i < a + size ==> e[i].first != key
    ensures k.Some? ==> k.value < size && e[a + k.value].first == key
  {
    if k.None? {
      forall i | a <= i < a + size ensures e[i].first != key {
        assert e[i] == e[a..a + size][i - a];
      }
    }
  }

  /** `p` is the last match in the run of `w` entries at `lo`. */
  ghost predicate RunMatch(e: seq<Pair>, key: int, w: nat, lo: nat, p: nat) {
    && IsRun(|e|, w, lo) && lo <= p < lo + w <= |e|
    && IsLastMatch(KeyRank, e[lo..lo + w], key, Some(p - lo))
  }

  lemma RunMatchIs(e: seq<Pair>, key: int, w: nat, lo: nat, k: nat)
    requires IsRun(|e|, w, lo) && lo + w <= |e| && IsLastMatch(KeyRank, e[lo..lo + w], key, Some(k))
    ensures RunMatch(e, key, w, lo, lo + k)
  {}

  /** `p` is the last match in the run of `w` entries that ends at `end`, and there is none between `from`
      and that run. */
  ghost predicate FirstMatch(e: seq<Pair>, key: int, from: nat, w: nat, end: nat, p: nat) {
    && from + w <= end && RunMatch(e, key, w, end - w, p)
    && forall i :: from <= i < end - w ==> e[i].first != key
  }

  lemma MatchAfter(e: seq<Pair>, key: int, from: nat, w: nat, end: nat, p: nat)
    requires from + w <= end && RunMatch(e, key, w, end - w, p)
    requires forall i :: from <= i < end - w ==> e[i].first != key
    ensures FirstMatch(e, key, from, w, end, p)
  {}

  /** `map_find`: the last entry with the key in the longest run that has one, unless there is none. */
  method MapFind(m: array<Pair>, key: int) returns (found: Option<nat>, ghost w: nat, ghost end: nat)
    requires ZMap.Valid(KeyRank, m[..], Unlogged)
    ensures found.None? ==> forall i :: 0 <= i < |Elems(m[..])| ==> Elems(m[..])[i].first != key
    ensures found.Some? ==> FirstMatch(Elems(m[..]), key, 0, w, end, found.value)
    ensures found.Some? ==> found.value < |Elems(m[..])| && Elems(m[..])[found.value].first == key
  {
    hide *;
    ValidMap(KeyRank, m[..], Unlogged);
    var it := new MapIterator(m, key);
    found, w := it.Find();
    end := it.a;
    if found.Some? {
      MatchHasKey(Elems(m[..]), key, 0, w, end, found.value);
    }
  }

  lemma MatchHasKey(e: seq<Pair>, key: int, from: nat, w: nat, end: nat, p: nat)
    requires FirstMatch(e, key, from, w, end, p)
    ensures p < end <= |e| && e[p].first == key && forall i :: p < i < end ==> e[i].first != key
  {
    forall i | p < i < end ensures e[i].first != key {
      assert e[i] == e[end - w..end][i - (end - w)];
    }
  }

  /** All that the iterator reports in repeated calls: in order, the last match of each run that has one. */
  method FindAll(m: array<Pair>, key: int) returns (found: seq<nat>)
    requires ZMap.Valid(KeyRank, m[..], Unlogged)
    ensures AllFound(Elems(m[..]), key, found, |Elems(m[..])|)
  {
    hide ZMap.Valid, AllFound, FirstMatch;
    ValidMap(KeyRank, m[..], Unlogged);
    ghost var e := Elems(m[..]);
    var it := new MapIterator(m, key);
    found := [];
    NothingFound(e, key);
    var more := true;
    while more
      invariant fresh(it) && it.Valid() && it.m == m && it.key == key && it.a <= |e|
      invariant AllFound(e, key, found, if more then it.a else |e|)
      decreases if more then 1 + |e| - it.a else 0
    {
      ghost var from := it.a;
      var p;
      ghost var w;
      p, w := it.Find();
      if p.Some? {
        MoreFound(e, key, found, from, w, it.a, p.value);
        found := found + [p.value];
      } else {
        NoMoreFound(e, key, found, from);
        more := false;
      }
    }
  }

  /** `found` are the last matches of runs, in order, and no run with a match before `upto` is missed. */
  ghost predicate AllFound(e: seq<Pair>, key: int, found: seq<nat>, upto: nat) {
    && upto <= |e| && (forall i, j :: 0 <= i < j < |found| ==> found[i] < found[j])
    && (forall j :: 0 <= j < |found| ==> found[j] < upto && IsRunMatch(e, key, found[j]))
    && (forall w: nat, lo: nat, i: nat :: Matches(e, key, w, lo, i) && i < upto ==> Reported(found, w, lo))
  }

  ghost predicate IsRunMatch(e: seq<Pair>, key: int, p: nat) {
    exists w: nat, lo: nat :: RunMatch(e, key, w, lo, p)
  }

  /** Entry `i`, in the run of `w` entries at `lo`, has the key. */
  ghost predicate Matches(e: seq<Pair>, key: int, w: nat, lo: nat, i: nat) {
    IsRun(|e|, w, lo) && lo <= i < lo + w && i < |e| && e[i].first == key
  }

  ghost predicate Reported(found: seq<nat>, w: nat, lo: nat) {
    exists p :: p in found && lo <= p < lo + w
  }

  lemma NothingFound(e: seq<Pair>, key: int)
    ensures AllFound(e, key, [], 0)
  {}

  lemma MoreFound(e: seq<Pair>, key: int, found: seq<nat>, from: nat, w: nat, end: nat, p: nat)
    requires AllFound(e, key, found, from) && FirstMatch(e, key, from, w, end, p)
    ensures from < end && AllFound(e, key, found + [p], end)
  {
    hide IsRun, IsLastMatch;
    var found' := found + [p];
    assert RunMatch(e, key, w, end - w, p) && IsRunMatch(e, key, p);
    forall w': nat, lo: nat, i: nat | Matches(e, key, w', lo, i) && i < end ensures Reported(found', w', lo) {
      if i < from {
        assert Reported(found, w', lo);
        var q :| q in found && lo <= q < lo + w';
        assert q in found';
      } else {
        OneRun(|e|, w, end - w, w', lo, i);
        assert p in found';
      }
    }
  }

  lemma NoMoreFound(e: seq<Pair>, key: int, found: seq<nat>, from: nat)
    requires AllFound(e, key, found, from) && from <= |e| && forall i :: from <= i < |e| ==> e[i].first != key
    ensures AllFound(e, key, found, |e|)
  {
    hide IsRun, RunMatch, Reported, IsRunMatch;
    forall w: nat, lo: nat, i: nat | Matches(e, key, w, lo, i) && i < |e| ensures Reported(found, w, lo) {
      assert i < from;
    }
  }

  // ---- String keys: from the newest run to the oldest

  /** The most recently inserted pair whose key has rank `r`. */
  ghost function Newest(rank: Rank, inserted: seq<Pair>, r: int): Option<Pair> {
    if inserted == [] then None
    else
      var last := inserted[|inserted| - 1];
      if rank(last.first) == r then Some(last) else Newest(rank, inserted[..|inserted| - 1], r)
  }

  lemma {:induction false} NewestOnly(rank: Rank, s: seq<Pair>, r: int)
    ensures Newest(rank, s, r) == var o := Only(rank, s, r); if o == [] then None else Some(o[|o| - 1])
  {
    if s != [] {
      NewestOnly(rank, s[..|s| - 1], r);
    }
  }

  lemma {:induction false} NewestConcat(rank: Rank, x: seq<Pair>, y: seq<Pair>, r: int)
    ensures Newest(rank, x + y, r) == if Newest(rank, y, r).Some? then Newest(rank, y, r) else Newest(rank, x, r)
  {
    if y == [] {
      assert x + y == x;
    } else {
      assert (x + y)[..|x + y| - 1] == x + y[..|y| - 1];
      NewestConcat(rank, x, y[..|y| - 1], r);
    }
  }

  lemma {:induction false} NewestMatch(rank: Rank, run: seq<Pair>, r: int, k: Option<nat>)
    requires IsLastMatch(rank, run, r, k)
    ensures Newest(rank, run, r) == if k.None? then None else Some(run[k.value])
  {
    if run != [] {
      var last, rest := |run| - 1, run[..|run| - 1];
      if k != Some(last) {
        assert rank(run[last].first) != r;
        assert IsLastMatch(rank, rest, r, k);
        NewestMatch(rank, rest, r, k);
      }
    }
  }

  /** Searching the newest runs first finds the newest pair. */
  lemma NewestInRun(rank: Rank, e: seq<Pair>, log: Log, w: nat, q: nat, r: int, k: Option<nat>)
    requires |e| == q * w && log.Fits(|e|) && q % 2 == 1 && Runs(rank, e, log, w, q)
    requires w <= |e| && IsLastMatch(rank, e[|e| - w..], r, k)
    ensures log.Logged? ==>
      Newest(rank, log.pairs, r) ==
        if k.Some? then Some(e[|e| - w + k.value]) else Newest(rank, log.pairs[..|e| - w], r)
  {
    hide Runs;
    LastRun(rank, e, log, w, q);
    assert k.Some? ==> e[|e| - w..][k.value] == e[|e| - w + k.value];
    if log.Logged? {
      var x, run := |e| - w, e[|e| - w..];
      NewestOnly(rank, run, r);
      NewestOnly(rank, log.pairs[x..], r);
      assert log.Back(x).pairs == log.pairs[x..] && Only(rank, run, r) == Only(rank, log.Back(x).pairs, r);
      NewestMatch(rank, run, r, k);
      NewestConcat(rank, log.pairs[..x], log.pairs[x..], r);
      assert log.pairs[..x] + log.pairs[x..] == log.pairs;
    }
  }

  /** What a look-up owes its callers: an entry with the key if there is one, and if the log is known
      the one that was inserted last. */
  ghost predicate LookedUp(rank: Rank, e: seq<Pair>, log: Log, r: int, found: Option<nat>) {
    && (found.None? ==> forall i :: 0 <= i < |e| ==> rank(e[i].first) != r)
    && (found.Some? ==> found.value < |e| && rank(e[found.value].first) == r)
    && (log.Logged? ==> Newest(rank, log.pairs, r) == if found.None? then None else Some(e[found.value]))
  }

  /** `string_map_find` */
  method StringMapFind(rank: Rank, m: array<Pair>, key: int, ghost log: Log) returns (found: Option<nat>)
    requires ZMap.Valid(rank, m[..], log)
    ensures LookedUp(rank, Elems(m[..]), log, rank(key), found)
  {
    hide ZMap.Valid, Elems, Runs, HasBit, NotFoundFrom, LookedUp;
    ValidMap(rank, m[..], log);
    ghost var e := Elems(m[..]);
    var x: nat, bit: nat := m[0].second, 1;
    ghost var q: nat := x;
    found := None;
    AllLeft(rank, e, log, rank(key));
    while x > 0
      invariant bit > 0 && x == q * bit && x <= |e| && log.Fits(|e|)
      invariant Runs(rank, e[..x], log.Front(x), bit, q)
      invariant found.None? && NotFoundFrom(rank, e, log, rank(key), x)
      decreases q
    {
      QuotientOf(q, 0, bit);
      RunSplit(bit, q);
      assert HasBit(x, bit) <==> q % 2 == 1 by { DigitParity(x, bit, q); }
      if HasBit(x, bit) {
        x := x - bit;
        found := SearchLastRun(rank, m, x, bit, key, log, q);
        if found.Some? {
          return;
        }
      } else {
        RunsDoubled(rank, e[..x], log.Front(x), bit, q);
      }
      bit := 2 * bit;
      q := q / 2;
    }
    NoneLeft(rank, e, log, rank(key));
  }

  /** Nothing from `x` on has rank `r`. */
  ghost predicate NotFoundFrom(rank: Rank, e: seq<Pair>, log: Log, r: int, x: nat) {
    && x <= |e| && log.Fits(|e|)
    && (forall i :: x <= i < |e| ==> rank(e[i].first) != r)
    && (log.Logged? ==> Newest(rank, log.pairs, r) == Newest(rank, log.pairs[..x], r))
  }

  lemma AllLeft(rank: Rank, e: seq<Pair>, log: Log, r: int)
    requires log.Fits(|e|)
    ensures NotFoundFrom(rank, e, log, r, |e|) && e[..|e|] == e && log.Front(|e|) == log
  {
    if log.Logged? {
      assert log.pairs[..|e|] == log.pairs;
    }
  }

  lemma NoneLeft(rank: Rank, e: seq<Pair>, log: Log, r: int)
    requires NotFoundFrom(rank, e, log, r, 0)
    ensures LookedUp(rank, e, log, r, None)
  {}

  lemma DigitParity(x: nat, bit: nat, q: nat)
    requires bit > 0 && x == q * bit && x / bit == q
    ensures HasBit(x, bit) <==> q % 2 == 1
  {}

  lemma RunsDoubled(rank: Rank, e: seq<Pair>, log: Log, w: nat, q: nat)
    requires |e| == q * w && log.Fits(|e|) && q % 2 == 0 && Runs(rank, e, log, w, q)
    ensures (q / 2) * (2 * w) == |e| && Runs(rank, e, log, 2 * w, q / 2)
  {
    RunSplit(w, q);
  }

  /** Search the run that starts at `x`, the last one that has not been searched. */
  method SearchLastRun(rank: Rank, m: array<Pair>, x: nat, bit: nat, key: int, ghost log: Log, ghost q: nat)
    returns (found: Option<nat>)
    requires ZMap.Valid(rank, m[..], log)
    requires bit > 0 && x + bit == q * bit <= |Elems(m[..])| && q % 2 == 1
    requires NotFoundFrom(rank, Elems(m[..]), log, rank(key), x + bit)
    requires Runs(rank, Elems(m[..])[..x + bit], log.Front(x + bit), bit, q)
    ensures found.Some? ==> LookedUp(rank, Elems(m[..]), log, rank(key), found)
    ensures found.None? ==> NotFoundFrom(rank, Elems(m[..]), log, rank(key), x)
    ensures x == (q / 2) * (2 * bit) && log.Fits(|Elems(m[..])|) && x <= |Elems(m[..])|
    ensures Runs(rank, Elems(m[..])[..x], log.Front(x), 2 * bit, q / 2)
  {
    hide ZMap.Valid, Elems, Runs, Sorted, NotFoundFrom, LookedUp, IsLastMatch;
    ValidMap(rank, m[..], log);
    ghost var e := Elems(m[..]);
    RunsPrefix(rank, e, log, bit, q, x);
    ElemsOf(m[..], m[..], x, x + bit);
    assert m[1 + x..1 + x + bit] == e[x..x + bit];
    var k := FindLastString(rank, m, 1 + x, bit, key);
    found := if k.Some? then Some(x + k.value) else None;
    SearchedRun(rank, e, log, bit, q, x, rank(key), k);
  }

  lemma RunsPrefix(rank: Rank, e: seq<Pair>, log: Log, w: nat, q: nat, x: nat)
    requires x + w == q * w <= |e| && log.Fits(|e|) && q % 2 == 1
    requires Runs(rank, e[..x + w], log.Front(x + w), w, q)
    ensures Sorted(rank, e[x..x + w])
    ensures x == (q / 2) * (2 * w) && Runs(rank, e[..x], log.Front(x), 2 * w, q / 2)
  {
    hide Runs, Sorted;
    LastRun(rank, e[..x + w], log.Front(x + w), w, q);
    assert e[..x + w][x..] == e[x..x + w] && e[..x + w][..x] == e[..x];
    assert log.Logged? ==> log.pairs[..x + w][..x] == log.pairs[..x];
  }

  lemma SearchedRun(rank: Rank, e: seq<Pair>, log: Log, w: nat, q: nat, x: nat, r: int, k: Option<nat>)
    requires x + w == q * w && q % 2 == 1 && NotFoundFrom(rank, e, log, r, x + w)
    requires Runs(rank, e[..x + w], log.Front(x + w), w, q)
    requires IsLastMatch(rank, e[x..x + w], r, k)
    ensures k.Some? ==> LookedUp(rank, e, log, r, Some(x + k.value))
    ensures k.None? ==> NotFoundFrom(rank, e, log, r, x)
  {
    hide Runs;
    assert e[..x + w][x..] == e[x..x + w];
    NewestInRun(rank, e[..x + w], log.Front(x + w), w, q, r, k);
    if log.Logged? {
      assert log.pairs[..x + w][..x] == log.pairs[..x];
    }
    if k.None? {
      forall i | x <= i < |e| ensures rank(e[i].first) != r {
        assert i < x + w ==> e[i] == e[x..x + w][i - x];
      }
    }
  }
}
