/** What the map means to its users: a dictionary, or a record in which the newest entry wins. */
module Dictionary {
  import opened Options
  import opened Order
  import opened BinaryRuns
  import opened ZMap
  import opened Search

  // ---- Unique keys

  ghost function Items(d: map<int, int>): (items: set<Pair>)
    ensures forall p :: p in items <==> p.first in d && d[p.first] == p.second
  {
    set k | k in d :: Pair(k, d[k])
  }

  /** The entries are exactly the items of the dictionary `d`, each key occurring once. */
  ghost predicate Represents(e: seq<Pair>, d: map<int, int>) {
    multiset(e) == multiset(Items(d))
  }

  /** No key occurs twice. */
  lemma KeysDistinct(e: seq<Pair>, d: map<int, int>, i: nat, j: nat)
    requires Represents(e, d) && i < j < |e|
    ensures e[i].first != e[j].first
  {
    EntryOf(e, d, i);
    EntryOf(e, d, j);
    assert multiset(Items(d))[e[i]] <= 1;
    if e[i] == e[j] {
      OccursTwice(e, i, j);
    }
  }

  lemma OccursTwice(e: seq<Pair>, i: nat, j: nat)
    requires i < j < |e| && e[i] == e[j]
    ensures multiset(e)[e[i]] >= 2
  {
    assert e == e[..i] + [e[i]] + e[i + 1..j] + [e[j]] + e[j + 1..];
  }

  lemma EntryOf(e: seq<Pair>, d: map<int, int>, i: nat)
    requires Represents(e, d) && i < |e|
    ensures e[i].first in d && d[e[i].first] == e[i].second
  {
    assert e[i] in multiset(e);
    assert e[i] in Items(d);
  }

  lemma KeyMissing(e: seq<Pair>, d: map<int, int>, key: int)
    requires Represents(e, d) && forall i :: 0 <= i < |e| ==> e[i].first != key
    ensures key !in d
  {
    if key in d {
      var k := Occurrence(e, Pair(key, d[key]));
    }
  }

  lemma Occurrence(e: seq<Pair>, x: Pair) returns (i: nat)
    requires x in multiset(e)
    ensures i < |e| && e[i] == x
  {
    i :| i < |e| && e[i] == x;
  }

  lemma CountOf(e: seq<Pair>, d: map<int, int>)
    requires Represents(e, d)
    ensures |e| == |d|
  {
    assert |multiset(e)| == |e| && |multiset(Items(d))| == |Items(d)|;
    ItemCount(d, d.Keys);
    assert Items(d) == set k | k in d.Keys :: Pair(k, d[k]);
  }

  lemma {:induction false} ItemCount(d: map<int, int>, keys: set<int>)
    requires keys <= d.Keys
    ensures |set k | k in keys :: Pair(k, d[k])| == |keys|
  {
    if keys != {} {
      var key := Pick(keys);
      var rest := keys - {key};
      ItemCount(d, rest);
      assert (set k | k in keys :: Pair(k, d[k])) == (set k | k in rest :: Pair(k, d[k])) + {Pair(key, d[key])};
    }
  }

  lemma Pick<T>(s: set<T>) returns (x: T)
    requires s != {}
    ensures x in s
  {
    x :| x in s;
  }

  lemma NewItem(e: seq<Pair>, d: map<int, int>, x: Pair, e': seq<Pair>)
    requires Represents(e, d) && x.first !in d && Permutation(e', e + [x])
    ensures Represents(e', d[x.first := x.second])
  {
    var d' := d[x.first := x.second];
    assert Items(d') == Items(d) + {x};
    assert x !in Items(d);
    assert multiset(Items(d) + {x}) == multiset(Items(d)) + multiset{x};
  }

  lemma ReplacedItem(e: seq<Pair>, d: map<int, int>, i: nat, v: int)
    requires Represents(e, d) && i < |e|
    ensures Represents(e[i := Pair(e[i].first, v)], d[e[i].first := v])
  {
    EntryOf(e, d, i);
    var k, old' := e[i].first, e[i];
    var d' := d[k := v];
    var rest := Items(d) - {old'};
    assert Items(d') == rest + {Pair(k, v)};
    assert Items(d) == rest + {old'};
    assert Pair(k, v) !in rest;
    assert multiset(rest + {Pair(k, v)}) == multiset(rest) + multiset{Pair(k, v)};
    assert multiset(rest + {old'}) == multiset(rest) + multiset{old'};
    assert multiset(e[i := Pair(k, v)]) == multiset(e) - multiset{old'} + multiset{Pair(k, v)};
  }

  /** `map_replace_insert`: write a value for a key; a new key needs room. */
  method ReplaceInsert(m: array<Pair>, x: Pair, ghost d: map<int, int>) returns (ok: bool)
    requires Valid(KeyRank, m[..], Unlogged) && Represents(Elems(m[..]), d)
    modifies m
    ensures ok <==> x.first in d || |d| < old(m[0].first)
    ensures Valid(KeyRank, m[..], Unlogged) && m[0].first == old(m[0].first)
    ensures Represents(Elems(m[..]), if ok then d[x.first := x.second] else d)
  {
    hide Valid, Represents, Elems;
    ValidMap(KeyRank, m[..], Unlogged);
    ghost var s := m[..];
    ghost var e := Elems(s);
    var p, _, _ := MapFind(m, x.first);
    CountOf(e, d);
    if p.Some? {
      EntryOf(e, d, p.value);
      m[1 + p.value] := Pair(m[1 + p.value].first, x.second);
      ValueReplaced(s, p.value, x.second, m[..]);
      ReplacedItem(e, d, p.value, x.second);
      ok := true;
    } else {
      KeyMissing(e, d, x.first);
      ok := Insert(KeyRank, m, x, Unlogged);
      if ok {
        ValidMap(KeyRank, m[..], Unlogged);
        NewItem(e, d, x, Elems(m[..]));
      }
    }
  }

  /** Runs stay sorted when only a value changes. */
  lemma ValueReplaced(s: seq<Pair>, i: nat, v: int, s': seq<Pair>)
    requires Valid(KeyRank, s, Unlogged) && i < |Elems(s)|
    requires s' == s[1 + i := Pair(s[1 + i].first, v)]
    ensures Valid(KeyRank, s', Unlogged) && s'[0] == s[0]
    ensures Elems(s') == Elems(s)[i := Pair(Elems(s)[i].first, v)]
  {
    hide Runs;
    var e, e' := Elems(s), Elems(s');
    assert e' == e[i := Pair(e[i].first, v)];
    RunsSameKeys(KeyRank, e, e', 1, |e|);
  }

  lemma {:induction false} RunsSameKeys(rank: Rank, e: seq<Pair>, e': seq<Pair>, w: nat, q: nat)
    requires |e| == |e'| == q * w && Runs(rank, e, Unlogged, w, q)
    requires forall k :: 0 <= k < |e| ==> e'[k].first == e[k].first
    ensures Runs(rank, e', Unlogged, w, q)
    decreases q
  {
    RunSplit(w, q);
    if q % 2 == 1 {
      RunsSameKeys(rank, e[..|e| - w], e'[..|e| - w], 2 * w, q / 2);
    } else if q > 0 {
      RunsSameKeys(rank, e, e', 2 * w, q / 2);
    }
  }

  // ---- Whole runs

  /** An array with an empty map of the given capacity: the `MAP` macro. */
  method NewMap(capacity: nat) returns (m: array<Pair>)
    requires capacity < 0x8000_0000
    ensures fresh(m) && m[..] != [] && m[0] == Pair(capacity, 0)
    ensures IsMap(m[..]) && Elems(m[..]) == []
    ensures forall rank, log: Log :: log == Unlogged || log == Logged([]) ==> Valid(rank, m[..], log)
  {
    m := new Pair[capacity + 1](_ => Pair(0, 0));
    m[0] := Pair(capacity, 0);
  }

  /** The dictionary after a series of writes to an empty map: new keys are refused when it is full. */
  ghost function Written(capacity: nat, writes: seq<Pair>): map<int, int> {
    if writes == [] then map[]
    else
      var d, x := Written(capacity, writes[..|writes| - 1]), writes[|writes| - 1];
      if x.first in d || |d| < capacity then d[x.first := x.second] else d
  }

  /** After any series of writes, a look-up returns the last value written for the key, or nothing. */
  method WriteAllThenFind(capacity: nat, writes: seq<Pair>, key: int) returns (value: Option<int>)
    requires capacity < 0x8000_0000
    ensures value == if key in Written(capacity, writes) then Some(Written(capacity, writes)[key]) else None
  {
    hide Valid, Represents, Elems;
    var m := NewMap(capacity);
    ghost var d: map<int, int> := map[];
    NothingWritten(Elems(m[..]));
    assert writes[..0] == [];
    for i := 0 to |writes|
      invariant IsMap(m[..]) && Valid(KeyRank, m[..], Unlogged) && m[0].first == capacity
      invariant d == Written(capacity, writes[..i]) && Represents(Elems(m[..]), d)
    {
      var ok := ReplaceInsert(m, writes[i], d);
      ValidMap(KeyRank, m[..], Unlogged);
      assert writes[..i + 1][..i] == writes[..i];
      d := if ok then d[writes[i].first := writes[i].second] else d;
    }
    assert writes[..|writes|] == writes;
    var p, _, _ := MapFind(m, key);
    ValidMap(KeyRank, m[..], Unlogged);
    if p.Some? {
      EntryOf(Elems(m[..]), d, p.value);
      assert Elems(m[..])[p.value] == m[1 + p.value] by { EntryAt(m[..], p.value); }
      value := Some(m[1 + p.value].second);
    } else {
      KeyMissing(Elems(m[..]), d, key);
      value := None;
    }
  }

  lemma NothingWritten(e: seq<Pair>)
    requires e == []
    ensures Represents(e, map[])
  {
    assert Items(map[]) == {};
  }

  lemma EntryAt(s: seq<Pair>, i: nat)
    requires IsMap(s) && i < |Elems(s)|
    ensures Elems(s)[i] == s[1 + i]
  {}

  /** The entries that a map has room for. */
  function Kept(capacity: nat, entries: seq<Pair>): seq<Pair> {
    entries[..if |entries| <= capacity then |entries| else capacity]
  }

  /** String maps keep every entry, and a look-up returns one with an equal key if there is any.  It is
      the newest, as long as no insertion merges runs of 256 entries or more without a buffer. */
  method InsertAllThenFind(rank: Rank, capacity: nat, entries: seq<Pair>, key: int) returns (found: Option<Pair>)
    requires capacity < 0x8000_0000
    ensures found.None? <==> forall p :: p in Kept(capacity, entries) ==> rank(p.first) != rank(key)
    ensures found.Some? ==> found.value in Kept(capacity, entries) && rank(found.value.first) == rank(key)
    ensures StableAt(|Kept(capacity, entries)|, capacity) ==> found == Newest(rank, Kept(capacity, entries), rank(key))
  {
    hide Valid, Elems, LookedUp, Newest, Permutation;
    ghost var stable := StableAt(|Kept(capacity, entries)|, capacity);
    var m := InsertAll(rank, capacity, entries, stable);
    ghost var kept, log := Kept(capacity, entries), if stable then Logged(Kept(capacity, entries)) else Unlogged;
    var p := StringMapFind(rank, m, key, log);
    ValidMap(rank, m[..], log);
    FoundAmong(rank, Elems(m[..]), log, key, p, kept);
    if p.Some? {
      EntryAt(m[..], p.value);
      found := Some(m[1 + p.value]);
    } else {
      found := None;
    }
  }

  method InsertAll(rank: Rank, capacity: nat, entries: seq<Pair>, ghost stable: bool) returns (m: array<Pair>)
    requires capacity < 0x8000_0000 && (stable ==> StableAt(|Kept(capacity, entries)|, capacity))
    ensures Valid(rank, m[..], if stable then Logged(Kept(capacity, entries)) else Unlogged)
    ensures fresh(m) && IsMap(m[..]) && Permutation(Elems(m[..]), Kept(capacity, entries))
  {
    hide Valid, Elems;
    m := NewMap(capacity);
    ghost var log: Log := if stable then Logged([]) else Unlogged;
    ValidMap(rank, m[..], Unlogged);
    StartLog(rank, m[..]);
    for i := 0 to |entries|
      invariant fresh(m) && IsMap(m[..]) && Valid(rank, m[..], log)
      invariant m[0] == Pair(capacity, |Kept(capacity, entries[..i])|)
      invariant log == if stable then Logged(Kept(capacity, entries[..i])) else Unlogged
      invariant Permutation(Elems(m[..]), Kept(capacity, entries[..i]))
    {
      KeptOne(capacity, entries, i);
      var ok := Insert(rank, m, entries[i], log);
      if ok {
        log := log.Push(entries[i]);
      }
      ValidMap(rank, m[..], log);
    }
    assert entries[..|entries|] == entries;
  }

  lemma KeptOne(capacity: nat, entries: seq<Pair>, i: nat)
    requires i < |entries|
    ensures var kept := Kept(capacity, entries[..i]);
            && |kept| <= capacity && |kept| <= |Kept(capacity, entries)|
            && (|kept| < capacity ==> |kept| < |Kept(capacity, entries)|)
            && Kept(capacity, entries[..i + 1]) == if |kept| < capacity then kept + [entries[i]] else kept
  {}

  lemma StartLog(rank: Rank, s: seq<Pair>)
    requires IsMap(s) && Valid(rank, s, Unlogged) && s[0].second == 0
    ensures Elems(s) == [] && Valid(rank, s, Logged([]))
  {}

  lemma FoundAmong(rank: Rank, e: seq<Pair>, log: Log, key: int, p: Option<nat>, kept: seq<Pair>)
    requires LookedUp(rank, e, log, rank(key), p) && Permutation(e, kept) && (log.Logged? ==> log.pairs == kept)
    ensures p.None? <==> forall x :: x in kept ==> rank(x.first) != rank(key)
    ensures p.Some? ==> p.value < |e| && e[p.value] in kept && rank(e[p.value].first) == rank(key)
    ensures log.Logged? ==> Newest(rank, kept, rank(key)) == if p.Some? then Some(e[p.value]) else None
  {
    hide Newest;
    assert forall x :: x in kept <==> x in multiset(kept);
    assert forall x :: x in e <==> x in multiset(e);
  }

  // ---- Any mix of insertions

  datatype Operation =
    | InsertPair(x: Pair)
    | MergeSorted(block: seq<Pair>)
    | UniteWith(entries: seq<Pair>, spare: nat)  // a map filled one entry at a time, with room for some more

  ghost predicate Sensible(rank: Rank, op: Operation) {
    match op
    case InsertPair(x) => true
    case MergeSorted(block) => Sorted(rank, block)
    case UniteWith(entries, spare) => |entries| + spare < 0x8000_0000
  }

  function Offered(op: Operation): seq<Pair> {
    match op
    case InsertPair(x) => [x]
    case MergeSorted(block) => block
    case UniteWith(entries, _) => entries
  }

  /** What the map holds after the operations: all that was offered, except what it had no room for. */
  ghost function Accepted(capacity: nat, ops: seq<Operation>): seq<Pair> {
    if ops == [] then []
    else
      var e, x := Accepted(capacity, ops[..|ops| - 1]), Offered(ops[|ops| - 1]);
      if |e| + |x| <= capacity then e + x else e
  }

  /** No insertion can re-balance, into this map or into one that is united with it. */
  ghost predicate StableRun(capacity: nat, ops: seq<Operation>) {
    StableAt(|Accepted(capacity, ops)|, capacity) && forall i :: 0 <= i < |ops| ==> StableOperation(ops[i])
  }

  predicate StableOperation(op: Operation) {
    op.UniteWith? ==> StableAt(|op.entries|, |op.entries| + op.spare)
  }

  lemma StableStep(capacity: nat, ops: seq<Operation>, i: nat)
    requires StableRun(capacity, ops) && i < |ops|
    ensures StableOperation(ops[i])
    ensures var n := |Accepted(capacity, ops[..i])| + |Offered(ops[i])|; n <= capacity ==> StableAt(n, capacity)
  {
    AcceptedNext(capacity, ops, i);
    AcceptedGrows(capacity, ops, i + 1);
    StableBefore(|Accepted(capacity, ops)|, |Accepted(capacity, ops[..i + 1])|, capacity);
  }

  /** After any mix of insertions every binary digit of the count stands for a sorted run and nothing
      accepted is lost; sorting fully then leaves one run with the same entries. */
  method ApplyAllThenSort(rank: Rank, capacity: nat, ops: seq<Operation>) returns (m: array<Pair>)
    requires capacity < 0x8000_0000
    requires forall i :: 0 <= i < |ops| ==> Sensible(rank, ops[i])
    ensures IsMap(m[..]) && Sorted(rank, Elems(m[..]))
    ensures Permutation(Elems(m[..]), Accepted(capacity, ops))
  {
    hide Valid, Elems, Sorted;
    ghost var log;
    m, log := ApplyAll(rank, capacity, ops, false);
    if m[0].second > 0 {
      SortFull(rank, m);
    } else {
      EmptySorted(rank, m[..]);
    }
  }

  /** After any mix of insertions a look-up returns an accepted entry with an equal key, if there is one.
      It is the newest, if no insertion merges long runs without a buffer: in a block or a map that is
      united, the entries count as inserted in the order in which they stand there. */
  method ApplyAllThenFind(rank: Rank, capacity: nat, ops: seq<Operation>, key: int) returns (found: Option<Pair>)
    requires capacity < 0x8000_0000
    requires forall i :: 0 <= i < |ops| ==> Sensible(rank, ops[i])
    ensures found.None? <==> forall p :: p in Accepted(capacity, ops) ==> rank(p.first) != rank(key)
    ensures found.Some? ==> found.value in Accepted(capacity, ops) && rank(found.value.first) == rank(key)
    ensures StableRun(capacity, ops) ==> found == Newest(rank, Accepted(capacity, ops), rank(key))
  {
    hide Valid, Elems, LookedUp, Newest, Permutation, Accepted, Sensible, StableRun;
    ghost var stable := StableRun(capacity, ops);
    var m;
    ghost var log;
    m, log := ApplyAll(rank, capacity, ops, stable);
    var p := StringMapFind(rank, m, key, log);
    ValidMap(rank, m[..], log);
    AppliedFound(rank, Elems(m[..]), log, key, p, Accepted(capacity, ops));
    if p.Some? {
      EntryAt(m[..], p.value);
      found := Some(m[1 + p.value]);
    } else {
      found := None;
    }
  }

  /** The log names the pairs of each rank in the order in which they were accepted. */
  ghost predicate SameOrder(rank: Rank, log: Log, accepted: seq<Pair>) {
    log.Logged? ==> |log.pairs| == |accepted| && forall r :: Only(rank, log.pairs, r) == Only(rank, accepted, r)
  }

  lemma AppliedFound(rank: Rank, e: seq<Pair>, log: Log, key: int, p: Option<nat>, accepted: seq<Pair>)
    requires LookedUp(rank, e, log, rank(key), p) && Permutation(e, accepted) && SameOrder(rank, log, accepted)
    ensures p.None? <==> forall x :: x in accepted ==> rank(x.first) != rank(key)
    ensures p.Some? ==> p.value < |e| && e[p.value] in accepted && rank(e[p.value].first) == rank(key)
    ensures log.Logged? ==> Newest(rank, accepted, rank(key)) == if p.Some? then Some(e[p.value]) else None
  {
    hide Newest, Only;
    assert forall x :: x in accepted <==> x in multiset(accepted);
    assert forall x :: x in e <==> x in multiset(e);
    if log.Logged? {
      NewestOnly(rank, log.pairs, rank(key));
      NewestOnly(rank, accepted, rank(key));
    }
  }

  method ApplyAll(rank: Rank, capacity: nat, ops: seq<Operation>, ghost stable: bool) returns (m: array<Pair>, ghost log: Log)
    requires capacity < 0x8000_0000
    requires forall i :: 0 <= i < |ops| ==> Sensible(rank, ops[i])
    requires stable ==> StableRun(capacity, ops)
    ensures fresh(m) && IsMap(m[..]) && Valid(rank, m[..], log) && log.Logged? == stable
    ensures Permutation(Elems(m[..]), Accepted(capacity, ops)) && SameOrder(rank, log, Accepted(capacity, ops))
  {
    hide Valid, Elems, Sorted, SameOrder, StableAt, StableOperation, StableRun, Accepted, Permutation, Sensible, Offered, IsMap;
    m := NewMap(capacity);
    ValidMap(rank, m[..], Unlogged);
    StartLog(rank, m[..]);
    log := if stable then Logged([]) else Unlogged;
    NothingApplied(rank, log, capacity, ops, Elems(m[..]));
    for i := 0 to |ops|
      invariant fresh(m) && IsMap(m[..]) && Valid(rank, m[..], log) && m[0].first == capacity && log.Logged? == stable
      invariant Permutation(Elems(m[..]), Accepted(capacity, ops[..i])) && SameOrder(rank, log, Accepted(capacity, ops[..i]))
    {
      ghost var e := Accepted(capacity, ops[..i]);
      AcceptedNext(capacity, ops, i);
      ValidMap(rank, m[..], log);
      PermutationLength(Elems(m[..]), e);
      if stable {
        StableStep(capacity, ops, i);
      }
      log := Apply(rank, m, ops[i], e, log);
    }
    assert ops[..|ops|] == ops;
  }

  lemma NothingApplied(rank: Rank, log: Log, capacity: nat, ops: seq<Operation>, e: seq<Pair>)
    requires (log.Logged? ==> log.pairs == []) && e == []
    ensures SameOrder(rank, log, Accepted(capacity, ops[..0])) && Permutation(e, Accepted(capacity, ops[..0]))
  {}

  lemma AcceptedNext(capacity: nat, ops: seq<Operation>, i: nat)
    requires i < |ops|
    ensures Accepted(capacity, ops[..i + 1]) ==
            var e, x := Accepted(capacity, ops[..i]), Offered(ops[i]); if |e| + |x| <= capacity then e + x else e
  {
    assert ops[..i + 1][..i] == ops[..i];
  }

  lemma {:induction false} AcceptedGrows(capacity: nat, ops: seq<Operation>, i: nat)
    requires i <= |ops|
    ensures |Accepted(capacity, ops[..i])| <= |Accepted(capacity, ops)|
    decreases |ops| - i
  {
    if i == |ops| {
      assert ops[..i] == ops;
    } else {
      AcceptedNext(capacity, ops, i);
      AcceptedGrows(capacity, ops, i + 1);
    }
  }

  lemma EmptySorted(rank: Rank, s: seq<Pair>)
    requires IsMap(s) && s[0].second == 0
    ensures Sorted(rank, Elems(s))
  {}

  method Apply(rank: Rank, m: array<Pair>, op: Operation, ghost e: seq<Pair>, ghost log: Log) returns (ghost log': Log)
    requires Valid(rank, m[..], log) && IsMap(m[..]) && Sensible(rank, op)
    requires Permutation(Elems(m[..]), e) && SameOrder(rank, log, e) && |e| == m[0].second
    requires log.Logged? && |e| + |Offered(op)| <= m[0].first ==> StableAt(|e| + |Offered(op)|, m[0].first)
    requires log.Logged? ==> StableOperation(op)
    modifies m
    ensures IsMap(m[..]) && Valid(rank, m[..], log') && m[0].first == old(m[0].first) && log'.Logged? == log.Logged?
    ensures var accepted := if |e| + |Offered(op)| <= m[0].first then e + Offered(op) else e;
            Permutation(Elems(m[..]), accepted) && SameOrder(rank, log', accepted)
  {
    hide Valid, Elems, Sorted, Permutation, SameOrder, StableAt;
    ghost var e0 := Elems(m[..]);
    ghost var x := Offered(op);
    SamePermutation(x);
    var ok;
    match op {
      case InsertPair(p) =>
        ok := Insert(rank, m, p, log);
        log' := if ok then log.Push(p) else log;
        Pushed(log, p);
        assert x == [p];
      case MergeSorted(block) =>
        ok := MergeBlock(rank, m, block, log);
        log' := if ok then log.Add(block) else log;
      case UniteWith(entries, spare) =>
        ghost var other;
        ok, log', other := Unite(rank, m, entries, spare, log);
        x := other;
    }
    ValidMap(rank, m[..], log');
    if ok {
      OrderGrows(rank, Elems(m[..]), e0, e, log, x, Offered(op));
    }
  }

  lemma Pushed(log: Log, p: Pair)
    ensures log.Push(p) == log.Add([p])
  {}

  /** After the pairs `x`, which are those offered, in the same order within each rank. */
  lemma OrderGrows(rank: Rank, t: seq<Pair>, e0: seq<Pair>, e: seq<Pair>, log: Log, x: seq<Pair>, offered: seq<Pair>)
    requires Permutation(t, e0 + x) && Permutation(e0, e) && Permutation(x, offered)
    requires SameOrder(rank, log, e) && (log.Logged? ==> forall r :: Only(rank, x, r) == Only(rank, offered, r))
    ensures Permutation(t, e + offered) && SameOrder(rank, log.Add(x), e + offered)
  {
    hide Only;
    PermutationLength(x, offered);
    if log.Logged? {
      forall r ensures Only(rank, log.pairs + x, r) == Only(rank, e + offered, r) {
        OnlyConcat(rank, log.pairs, x, r);
        OnlyConcat(rank, e, offered, r);
      }
    }
  }

  /** Unite with a map that was filled one entry at a time; `other` is how its entries stand there. */
  method Unite(rank: Rank, m: array<Pair>, entries: seq<Pair>, spare: nat, ghost log: Log)
    returns (ok: bool, ghost log': Log, ghost other: seq<Pair>)
    requires Valid(rank, m[..], log) && IsMap(m[..]) && |entries| + spare < 0x8000_0000
    requires log.Logged? && m[0].second + |entries| <= m[0].first ==> StableAt(m[0].second + |entries|, m[0].first)
    requires log.Logged? ==> StableAt(|entries|, |entries| + spare)
    modifies m
    ensures IsMap(m[..]) && Valid(rank, m[..], log') && m[0].first == old(m[0].first) && log'.Logged? == log.Logged?
    ensures ok <==> old(m[0].second) + |entries| <= m[0].first || entries == []
    ensures log' == if ok then log.Add(other) else log
    ensures if ok then Permutation(Elems(m[..]), Elems(old(m[..])) + other) else m[..] == old(m[..])
    ensures Permutation(other, entries) && (log.Logged? ==> forall r :: Only(rank, other, r) == Only(rank, entries, r))
  {
    hide Valid, Elems, Sorted, StableAt, Only;
    var b := FilledMap(rank, entries, spare, log.Logged?);
    other := Elems(b[..]);
    FilledOrder(rank, b[..], entries, log.Logged?);
    ok := Union(rank, m, b, log);
    log' := if ok then log.Add(other) else log;
    ValidMap(rank, m[..], log');
  }

  lemma FilledOrder(rank: Rank, s: seq<Pair>, entries: seq<Pair>, stable: bool)
    requires Valid(rank, s, if stable then Logged(entries) else Unlogged)
    ensures IsMap(s) && |Elems(s)| == s[0].second && Valid(rank, s, Unlogged)
    ensures stable ==> forall r :: Only(rank, Elems(s), r) == Only(rank, entries, r)
  {
    hide Only, Runs, Elems;
    ValidMap(rank, s, if stable then Logged(entries) else Unlogged);
    if stable {
      forall r ensures Only(rank, Elems(s), r) == Only(rank, entries, r) {
        EntriesInOrder(rank, s, Logged(entries), r);
      }
      RunsUnlogged(rank, Elems(s), Logged(entries), 1, |Elems(s)|);
    }
  }

  /** A map with room for the entries and some more, filled with them. */
  method FilledMap(rank: Rank, entries: seq<Pair>, spare: nat, ghost stable: bool) returns (m: array<Pair>)
    requires |entries| + spare < 0x8000_0000 && (stable ==> StableAt(|entries|, |entries| + spare))
    ensures fresh(m) && IsMap(m[..]) && m[0].second == |entries|
    ensures Valid(rank, m[..], if stable then Logged(entries) else Unlogged)
    ensures Permutation(Elems(m[..]), entries)
  {
    m := InsertAll(rank, |entries| + spare, entries, stable);
    KeptAll(|entries| + spare, entries);
    ValidMap(rank, m[..], if stable then Logged(entries) else Unlogged);
    PermutationLength(Elems(m[..]), entries);
  }

  lemma KeptAll(capacity: nat, entries: seq<Pair>)
    requires |entries| <= capacity
    ensures Kept(capacity, entries) == entries
  {}
}
