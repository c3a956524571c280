/** Reference counts of cells.  A live cell's `n` is one less than the number of references to it,
    from other live cells and from outside. */
module RefCount {
  import opened Options
  import opened CellStore
  import opened FreeRing

  type Ref = Option<nat>  // a cell, or nothing

  /** References to `c` from the live cells below `i`. */
  ghost function RefsBelow(kids: seq<seq<Ref>>, live: set<nat>, i: nat, c: nat): (r: nat)
    requires i <= |kids|
  {
    if i == 0 then 0
    else RefsBelow(kids, live, i - 1, c) + if i - 1 in live then multiset(kids[i - 1])[Some(c)] else 0
  }

  ghost function Refs(kids: seq<seq<Ref>>, live: set<nat>, c: nat): nat {
    RefsBelow(kids, live, |kids|, c)
  }

  /** Every reference is counted, and no reference dangles. */
  ghost predicate Counted(n: seq<nat>, kids: seq<seq<Ref>>, live: set<nat>, outside: multiset<Ref>) {
    && |n| == |kids|
    && (forall c :: c in live ==> c < |n| && n[c] + 1 == Refs(kids, live, c) + outside[Some(c)])
    && (forall c :: c in live ==> ClosedUnder(kids[c], live))
    && (forall r :: r in outside && r.Some? ==> r.value in live)
  }

  ghost predicate ClosedUnder(refs: seq<Ref>, live: set<nat>) {
    forall i :: 0 <= i < |refs| && refs[i].Some? ==> refs[i].value in live
  }

  /** Each cell of `s` has a reference from outside, or from a cell of `s`. */
  ghost predicate Supported(kids: seq<seq<Ref>>, s: set<nat>, outside: multiset<Ref>) {
    forall c :: c in s ==> Some(c) in outside || exists p :: p in s && p < |kids| && Some(c) in kids[p]
  }

  // ---- Counting

  lemma {:induction false} RefsWithout(kids: seq<seq<Ref>>, live: set<nat>, i: nat, c: nat, x: nat)
    requires i <= |kids| && c in live && c < |kids|
    ensures RefsBelow(kids, live, i, x) == RefsBelow(kids, live - {c}, i, x) + if c < i then multiset(kids[c])[Some(x)] else 0
  {
    if i > 0 {
      RefsWithout(kids, live, i - 1, c, x);
    }
  }

  /** A counted reference comes from somewhere, and a cell that holds one is counted. */
  lemma {:induction false} RefsFrom(kids: seq<seq<Ref>>, live: set<nat>, i: nat, c: nat)
    requires i <= |kids|
    ensures RefsBelow(kids, live, i, c) > 0 <==> exists p: nat :: p in live && p < i && Some(c) in kids[p]
  {
    if i > 0 {
      RefsFrom(kids, live, i - 1, c);
      assert multiset(kids[i - 1])[Some(c)] > 0 <==> Some(c) in kids[i - 1];
    }
  }

  /** A cell that is only referenced from outside can leave, once its own references are taken over. */
  lemma CellLeaves(n: seq<nat>, kids: seq<seq<Ref>>, live: set<nat>, outside: multiset<Ref>, c: nat)
    requires Counted(n, kids, live, outside) && c in live && outside[Some(c)] == n[c] + 1
    ensures Counted(n, kids, live - {c}, outside[Some(c) := 0] + multiset(kids[c]))
  {
    var live', outside' := live - {c}, outside[Some(c) := 0] + multiset(kids[c]);
    RefsFrom(kids, live, |kids|, c);
    assert Refs(kids, live, c) == 0;
    forall x | x in live' ensures n[x] + 1 == Refs(kids, live', x) + outside'[Some(x)] {
      RefsWithout(kids, live, |kids|, c, x);
    }
    forall x | x in live' ensures ClosedUnder(kids[x], live') {
      assert ClosedUnder(kids[x], live);
      assert Some(c) !in kids[x];
    }
    forall r | r in outside' && r.Some? ensures r.value in live' {
      if r in outside && r != Some(c) {
      } else {
        assert r in kids[c];
        assert ClosedUnder(kids[c], live);
      }
    }
  }

  /** The cells that are kept are the largest set whose cells all have a reference. */
  lemma LiveSupported(n: seq<nat>, kids: seq<seq<Ref>>, live: set<nat>, outside: multiset<Ref>)
    requires Counted(n, kids, live, outside)
    ensures Supported(kids, live, outside)
  {
    forall c | c in live ensures Some(c) in outside || exists p :: p in live && p < |kids| && Some(c) in kids[p] {
      RefsFrom(kids, live, |kids|, c);
    }
  }

  lemma NotSupported(n: seq<nat>, kids: seq<seq<Ref>>, live: set<nat>, outside: multiset<Ref>, c: nat, s: set<nat>)
    requires Counted(n, kids, live, outside) && c in live && outside[Some(c)] == n[c] + 1
    requires s <= live && Supported(kids, s, outside[Some(c) := 0])
    ensures s <= live - {c}
  {
    RefsFrom(kids, live, |kids|, c);
    assert Refs(kids, live, c) == 0;
  }

  // ---- Entering

  lemma {:induction false} RefsUpdated(kids: seq<seq<Ref>>, live: set<nat>, i: nat, c: nat, refs: seq<Ref>, x: nat)
    requires i <= |kids| && c < |kids| && c !in live
    ensures RefsBelow(kids[c := refs], live, i, x) == RefsBelow(kids, live, i, x)
  {
    if i > 0 {
      RefsUpdated(kids, live, i - 1, c, refs, x);
    }
  }

  lemma CellEnters(n: seq<nat>, kids: seq<seq<Ref>>, live: set<nat>, outside: multiset<Ref>, c: nat, refs: seq<Ref>)
    requires Counted(n, kids, live, outside) && c < |n| && c !in live && multiset(refs) <= outside
    ensures Counted(n[c := 0], kids[c := refs], live + {c}, outside - multiset(refs) + multiset{Some(c)})
  {
    var kids', live', outside' := kids[c := refs], live + {c}, outside - multiset(refs) + multiset{Some(c)};
    assert live' - {c} == live;
    assert Some(c) !in outside;
    forall x | x in live' ensures n[c := 0][x] + 1 == Refs(kids', live', x) + outside'[Some(x)] {
      RefsWithout(kids', live', |kids|, c, x);
      RefsUpdated(kids, live, |kids|, c, refs, x);
      if x == c {
        RefsFrom(kids, live, |kids|, c);
        forall p | p in live ensures Some(c) !in kids[p] {
          assert ClosedUnder(kids[p], live);
        }
        assert Some(c) !in refs;
      }
    }
    forall x | x in live' ensures ClosedUnder(kids'[x], live') {
      if x == c {
        forall i | 0 <= i < |refs| && refs[i].Some? ensures refs[i].value in live' {
          assert refs[i] in multiset(refs);
        }
      } else {
        assert ClosedUnder(kids[x], live);
      }
    }
  }

  // ---- Reachability

  /** `path` leads from an outside reference along references of live cells. */
  ghost predicate IsPath(kids: seq<seq<Ref>>, outside: multiset<Ref>, path: seq<nat>) {
    && |path| > 0 && Some(path[0]) in outside
    && forall i :: 0 <= i < |path| - 1 ==> path[i] < |kids| && Some(path[i + 1]) in kids[path[i]]
  }

  /** Live cells are older than those that refer to them, so there are no cycles. */
  ghost predicate Ordered(kids: seq<seq<Ref>>, live: set<nat>, age: seq<nat>, clock: nat) {
    && |age| == |kids|
    && (forall p :: p in live && p < |kids| ==> age[p] < clock && Older(kids[p], age, age[p]))
  }

  ghost predicate Older(refs: seq<Ref>, age: seq<nat>, limit: nat) {
    forall i :: 0 <= i < |refs| && refs[i].Some? && refs[i].value < |age| ==> age[refs[i].value] < limit
  }

  lemma {:induction false} ReachableLives(n: seq<nat>, kids: seq<seq<Ref>>, live: set<nat>, outside: multiset<Ref>, path: seq<nat>)
    requires Counted(n, kids, live, outside) && IsPath(kids, outside, path)
    ensures path[|path| - 1] in live
  {
    if |path| > 1 {
      var shorter := path[..|path| - 1];
      ReachableLives(n, kids, live, outside, shorter);
      assert ClosedUnder(kids[shorter[|shorter| - 1]], live);
      assert Some(path[|path| - 1]) in kids[path[|path| - 2]];
    }
  }

  /** Without cycles, exactly the reachable cells are live. */
  lemma {:induction false} LiveReachable(n: seq<nat>, kids: seq<seq<Ref>>, live: set<nat>, outside: multiset<Ref>,
                                         age: seq<nat>, clock: nat, c: nat)
      returns (path: seq<nat>)
    requires Counted(n, kids, live, outside) && Ordered(kids, live, age, clock) && c in live
    ensures IsPath(kids, outside, path) && path[|path| - 1] == c
    decreases if c < |age| then clock - age[c] else 0
  {
    if Some(c) in outside {
      return [c];
    }
    LiveSupported(n, kids, live, outside);
    var p :| p in live && p < |kids| && Some(c) in kids[p];
    assert Older(kids[p], age, age[p]);
    path := LiveReachable(n, kids, live, outside, age, clock, p);
    path := path + [c];
  }

  /** A new cell is the youngest. */
  lemma YoungestEnters(kids: seq<seq<Ref>>, live: set<nat>, age: seq<nat>, clock: nat, c: nat, refs: seq<Ref>)
    requires Ordered(kids, live, age, clock) && c < |kids| && c !in live
    requires forall i :: 0 <= i < |refs| && refs[i].Some? ==> refs[i].value in live
    requires forall p :: p in live ==> p < |kids| && ClosedUnder(kids[p], live)
    ensures Ordered(kids[c := refs], live + {c}, age[c := clock], clock + 1)
  {
    var kids', age' := kids[c := refs], age[c := clock];
    forall p | p in live + {c} && p < |kids'| ensures age'[p] < clock + 1 && Older(kids'[p], age', age'[p]) {
      if p != c {
        assert ClosedUnder(kids[p], live) && Older(kids[p], age, age[p]);
      }
    }
  }

  lemma RefsLive(n: seq<nat>, kids: seq<seq<Ref>>, live: set<nat>, outside: multiset<Ref>, refs: seq<Ref>)
    requires Counted(n, kids, live, outside) && multiset(refs) <= outside
    ensures forall i :: 0 <= i < |refs| && refs[i].Some? ==> refs[i].value in live
    ensures forall p :: p in live ==> p < |kids| && ClosedUnder(kids[p], live)
  {
    forall i | 0 <= i < |refs| && refs[i].Some? ensures refs[i].value in live {
      assert refs[i] in multiset(refs);
    }
  }

  lemma FewerOrdered(kids: seq<seq<Ref>>, live: set<nat>, live': set<nat>, age: seq<nat>, clock: nat)
    requires Ordered(kids, live, age, clock) && live' <= live
    ensures Ordered(kids, live', age, clock)
  {}

  // ---- Dropping

  lemma LiveCell(n: seq<nat>, kids: seq<seq<Ref>>, live: set<nat>, outside: multiset<Ref>, c: nat)
    requires Counted(n, kids, live, outside) && c in live
    ensures c < |n| == |kids|
  {}

  lemma NoCell(n: seq<nat>, kids: seq<seq<Ref>>, live: set<nat>, outside: multiset<Ref>, k: nat)
    requires Counted(n, kids, live, outside)
    ensures Counted(n, kids, live, outside[None := k])
  {}

  lemma MoreRefs(n: seq<nat>, kids: seq<seq<Ref>>, live: set<nat>, outside: multiset<Ref>, c: nat, k: nat)
    requires Counted(n, kids, live, outside) && c in live
    ensures c < |n| && Counted(n[c := n[c] + k], kids, live, outside[Some(c) := outside[Some(c)] + k])
  {}

  lemma OnlyOutside(n: seq<nat>, kids: seq<seq<Ref>>, live: set<nat>, outside: multiset<Ref>, c: nat, k: nat)
    requires Counted(n, kids, live, outside) && c in live && outside[Some(c)] >= k > n[c]
    ensures outside[Some(c)] == n[c] + 1 == k
  {}

  lemma FewerRefs(n: seq<nat>, kids: seq<seq<Ref>>, live: set<nat>, outside: multiset<Ref>, c: nat, k: nat)
    requires Counted(n, kids, live, outside) && c in live && outside[Some(c)] >= k && n[c] >= k
    ensures Counted(n[c := n[c] - k], kids, live, outside[Some(c) := outside[Some(c)] - k])
  {}

  /** The next of the references that are dropped one by one. */
  lemma FirstOfKids(n: seq<nat>, kids: seq<seq<Ref>>, live: set<nat>, outside: multiset<Ref>, final: multiset<Ref>, refs: seq<Ref>, i: nat)
    requires Counted(n, kids, live, outside) && i < |refs| && outside == final + multiset(refs[i..])
    ensures outside[refs[i]] >= 1 && (refs[i].Some? ==> refs[i].value in live)
    ensures outside[refs[i] := outside[refs[i]] - 1] == final + multiset(refs[i + 1..])
  {
    assert refs[i..] == [refs[i]] + refs[i + 1..];
  }

  // ---- What giving up references comes to

  /** The counts and the live cells afterwards, and the cells that were freed, in that order. */
  datatype Drop = Drop(n: seq<nat>, live: set<nat>, freed: seq<nat>)

  ghost function DropRef(kids: seq<seq<Ref>>, n: seq<nat>, live: set<nat>, c: Ref, k: nat): (d: Drop)
    ensures |d.n| == |n| && d.live <= live
    decreases live, 0
  {
    if c.None? || c.value !in live || c.value >= |n| || c.value >= |kids| then Drop(n, live, [])
    else if k > n[c.value] then
      var d := DropRefs(kids, n, live - {c.value}, kids[c.value]);
      Drop(d.n, d.live, d.freed + [c.value])
    else
      Drop(n[c.value := n[c.value] - k], live, [])
  }

  ghost function DropRefs(kids: seq<seq<Ref>>, n: seq<nat>, live: set<nat>, refs: seq<Ref>): (d: Drop)
    ensures |d.n| == |n| && d.live <= live
    decreases live, |refs|
  {
    if refs == [] then Drop(n, live, [])
    else
      var d := DropRef(kids, n, live, refs[0], 1);
      Then(d.freed, DropRefs(kids, d.n, d.live, refs[1..]))
  }

  ghost function Then(freed: seq<nat>, d: Drop): Drop {
    Drop(d.n, d.live, freed + d.freed)
  }

  /** `kept` is the largest part of `live` whose cells are referenced from outside or from within. */
  ghost predicate LargestSupported(kids: seq<seq<Ref>>, live: set<nat>, outside: multiset<Ref>, kept: set<nat>) {
    && kept <= live && Supported(kids, kept, outside)
    && forall s: set<nat> :: s <= live && Supported(kids, s, outside) ==> s <= kept
  }

  /** Exactly the cells that are no longer live were freed, and each once. */
  ghost predicate FreedAre(freed: seq<nat>, live: set<nat>, kept: set<nat>) {
    Distinct(freed) && forall h: nat :: h in freed <==> h in live && h !in kept
  }

  lemma NoneFreed(live: set<nat>)
    ensures FreedAre([], live, live)
  {}

  lemma FreedTogether(a: seq<nat>, b: seq<nat>, live: set<nat>, mid: set<nat>, kept: set<nat>)
    requires FreedAre(a, live, mid) && FreedAre(b, mid, kept) && kept <= mid <= live
    ensures FreedAre(a + b, live, kept)
  {
    var s := a + b;
    forall i, j | 0 <= i < j < |s| ensures s[i] != s[j] {
      assert i < |a| <= j ==> s[i] in a && s[j] in b;
    }
  }

  lemma FreedLast(a: seq<nat>, live: set<nat>, x: nat, kept: set<nat>)
    requires FreedAre(a, live - {x}, kept) && x in live && kept <= live - {x}
    ensures FreedAre(a + [x], live, kept)
  {}

  /** After a reference is given up the counts are right again; what stays is the largest set of cells
      that support each other, and the others were freed. */
  lemma {:induction false} DropKeeps(n: seq<nat>, kids: seq<seq<Ref>>, live: set<nat>, outside: multiset<Ref>, c: Ref, k: nat)
    requires Counted(n, kids, live, outside) && outside[c] >= k && (c.Some? ==> c.value in live)
    ensures var d, final := DropRef(kids, n, live, c, k), outside[c := outside[c] - k];
            && Counted(d.n, kids, d.live, final) && LargestSupported(kids, live, final, d.live)
            && FreedAre(d.freed, live, d.live)
    decreases live, 0
  {
    hide Counted, Supported, ClosedUnder, FreedAre;
    var d, final := DropRef(kids, n, live, c, k), outside[c := outside[c] - k];
    NoneFreed(live);
    if c.None? {
      NoCell(n, kids, live, outside, outside[None] - k);
    } else {
      var x := c.value;
      LiveCell(n, kids, live, outside, x);
      if k > n[x] {
        OnlyOutside(n, kids, live, outside, x, k);
        CellLeaves(n, kids, live, outside, x);
        DropsKeep(n, kids, live - {x}, outside[c := 0] + multiset(kids[x]), final, kids[x]);
        FreedLast(DropRefs(kids, n, live - {x}, kids[x]).freed, live, x, d.live);
        forall s: set<nat> | s <= live && Supported(kids, s, final) ensures s <= d.live {
          NotSupported(n, kids, live, outside, x, s);
        }
      } else {
        FewerRefs(n, kids, live, outside, x, k);
      }
    }
    LiveSupported(d.n, kids, d.live, final);
  }

  lemma {:induction false} DropsKeep(n: seq<nat>, kids: seq<seq<Ref>>, live: set<nat>, outside: multiset<Ref>,
                                     final: multiset<Ref>, refs: seq<Ref>)
    requires Counted(n, kids, live, outside) && outside == final + multiset(refs)
    ensures var d := DropRefs(kids, n, live, refs);
            && Counted(d.n, kids, d.live, final) && LargestSupported(kids, live, final, d.live)
            && FreedAre(d.freed, live, d.live)
    decreases live, |refs|
  {
    hide Counted, Supported, ClosedUnder, FreedAre;
    if refs == [] {
      assert outside == final;
      LiveSupported(n, kids, live, outside);
      NoneFreed(live);
    } else {
      assert refs[0..] == refs;
      FirstOfKids(n, kids, live, outside, final, refs, 0);
      var d, rest := DropRef(kids, n, live, refs[0], 1), final + multiset(refs[1..]);
      DropKeeps(n, kids, live, outside, refs[0], 1);
      DropsKeep(d.n, kids, d.live, rest, final, refs[1..]);
      FreedTogether(d.freed, DropRefs(kids, d.n, d.live, refs[1..]).freed, live, d.live, DropRefs(kids, n, live, refs).live);
      forall s: set<nat> | s <= live && Supported(kids, s, final) ensures s <= d.live {
        MoreSupport(kids, s, final, rest);
      }
    }
  }

  /** Children first: each cell is freed before a cell that refers to it, or else it is one of `refs`. */
  ghost predicate ChildrenFirst(kids: seq<seq<Ref>>, freed: seq<nat>, refs: seq<Ref>) {
    forall j :: 0 <= j < |freed| ==> Some(freed[j]) in refs || ReferredLater(kids, freed, j)
  }

  ghost predicate ReferredLater(kids: seq<seq<Ref>>, freed: seq<nat>, j: nat)
    requires j < |freed|
  {
    exists k :: j < k < |freed| && freed[k] < |kids| && Some(freed[j]) in kids[freed[k]]
  }

  /** A cell that is freed comes last; before it those that it leaves without references, children first. */
  lemma {:induction false} DropOrder(kids: seq<seq<Ref>>, n: seq<nat>, live: set<nat>, c: Ref, k: nat)
    ensures var freed := DropRef(kids, n, live, c, k).freed;
            freed != [] ==> c == Some(freed[|freed| - 1]) && ChildrenFirst(kids, freed, [c])
    decreases live, 0
  {
    if c.Some? && c.value in live && c.value < |n| && c.value < |kids| && k > n[c.value] {
      var x := c.value;
      var d := DropRefs(kids, n, live - {x}, kids[x]);
      DropsOrder(kids, n, live - {x}, kids[x]);
      var freed := d.freed + [x];
      forall j | 0 <= j < |d.freed| ensures ReferredLater(kids, freed, j) {
        if Some(d.freed[j]) in kids[x] {
          assert freed[|d.freed|] == x;
        } else {
          LaterStill(kids, d.freed, [x], j);
        }
      }
    }
  }

  lemma {:induction false} DropsOrder(kids: seq<seq<Ref>>, n: seq<nat>, live: set<nat>, refs: seq<Ref>)
    ensures ChildrenFirst(kids, DropRefs(kids, n, live, refs).freed, refs)
    decreases live, |refs|
  {
    if refs != [] {
      var d := DropRef(kids, n, live, refs[0], 1);
      var rest := DropRefs(kids, d.n, d.live, refs[1..]);
      DropOrder(kids, n, live, refs[0], 1);
      DropsOrder(kids, d.n, d.live, refs[1..]);
      var freed := d.freed + rest.freed;
      forall j | 0 <= j < |freed| ensures Some(freed[j]) in refs || ReferredLater(kids, freed, j) {
        if j < |d.freed| {
          if Some(d.freed[j]) !in [refs[0]] { LaterStill(kids, d.freed, rest.freed, j); }
        } else {
          var i := j - |d.freed|;
          assert freed[j] == rest.freed[i];
          if Some(rest.freed[i]) !in refs[1..] { LaterBehind(kids, d.freed, rest.freed, i); }
        }
      }
    }
  }

  lemma LaterStill(kids: seq<seq<Ref>>, a: seq<nat>, b: seq<nat>, j: nat)
    requires j < |a| && ReferredLater(kids, a, j)
    ensures ReferredLater(kids, a + b, j)
  {
    var k :| j < k < |a| && a[k] < |kids| && Some(a[j]) in kids[a[k]];
    assert (a + b)[k] == a[k];
  }

  lemma LaterBehind(kids: seq<seq<Ref>>, a: seq<nat>, b: seq<nat>, j: nat)
    requires j < |b| && ReferredLater(kids, b, j)
    ensures ReferredLater(kids, a + b, |a| + j)
  {
    var k :| j < k < |b| && b[k] < |kids| && Some(b[j]) in kids[b[k]];
    assert (a + b)[|a| + k] == b[k] && (a + b)[|a| + j] == b[j];
  }

  /** References are given up in the order in which they stand. */
  lemma {:induction false} DropsInOrder(kids: seq<seq<Ref>>, n: seq<nat>, live: set<nat>, a: seq<Ref>, b: seq<Ref>)
    ensures var d := DropRefs(kids, n, live, a);
            DropRefs(kids, n, live, a + b) == Then(d.freed, DropRefs(kids, d.n, d.live, b))
    decreases |a|
  {
    if a == [] {
      assert a + b == b;
      ThenAgain([], [], DropRefs(kids, n, live, b));
    } else {
      var d := DropRef(kids, n, live, a[0], 1);
      assert (a + b)[1..] == a[1..] + b;
      DropsInOrder(kids, d.n, d.live, a[1..], b);
      var e := DropRefs(kids, d.n, d.live, a[1..]);
      ThenAgain(d.freed, e.freed, DropRefs(kids, e.n, e.live, b));
    }
  }

  lemma DropsFirst(kids: seq<seq<Ref>>, n: seq<nat>, live: set<nat>, refs: seq<Ref>, i: nat)
    requires i < |refs|
    ensures var d := DropRef(kids, n, live, refs[i], 1);
            DropRefs(kids, n, live, refs[i..]) == Then(d.freed, DropRefs(kids, d.n, d.live, refs[i + 1..]))
  {
    assert refs[i..][1..] == refs[i + 1..];
  }

  lemma DropRefIs(kids: seq<seq<Ref>>, n: seq<nat>, live: set<nat>, c: Ref, k: nat)
    requires c.Some? ==> c.value in live && c.value < |n| == |kids|
    ensures DropRef(kids, n, live, c, k) ==
            if c.None? then Drop(n, live, [])
            else if k > n[c.value] then
              var d := DropRefs(kids, n, live - {c.value}, kids[c.value]);
              Drop(d.n, d.live, d.freed + [c.value])
            else Drop(n[c.value := n[c.value] - k], live, [])
  {}

  lemma DropsNone(kids: seq<seq<Ref>>, n: seq<nat>, live: set<nat>, refs: seq<Ref>)
    ensures forall freed :: Then(freed, DropRefs(kids, n, live, refs[|refs|..])) == Drop(n, live, freed)
  {}

  lemma ThenAgain(a: seq<nat>, b: seq<nat>, d: Drop)
    ensures Then(a, Then(b, d)) == Then(a + b, d) && Then([], d) == d
  {}

  lemma MoreSupport(kids: seq<seq<Ref>>, s: set<nat>, outside: multiset<Ref>, outside': multiset<Ref>)
    requires Supported(kids, s, outside) && outside <= outside'
    ensures Supported(kids, s, outside')
  {}

  /** The cells in use: chunks of the store, with their counts and references. */
  class Cells {
    const store: Store
    const n: array<nat>
    const kids: array<seq<Ref>>  // `alt`, the inputs and the elements of a list, in that order
    const cells: array<nat>      // the length of the chunk, from the cell's `size`
    ghost var live: set<nat>
    ghost var outside: multiset<Ref>  // references held by anything but a live cell
    ghost var age: seq<nat>  // when each cell was built
    ghost var clock: nat

    ghost predicate Valid()
      reads this, n, kids, cells, store, store.op, store.next, store.prev
    {
      && Apart() && store.Valid() && store.Filled()
      && Counted(n[..], kids[..], live, outside)
      && Housed(store.live, cells[..], live)
    }

    ghost predicate Acyclic()
      reads this, kids
    {
      Ordered(kids[..], live, age, clock)
    }

    ghost predicate Apart()
      reads this
    {
      && n.Length == kids.Length == cells.Length == store.size
      && n != cells && n != store.next && n != store.prev && cells != store.next && cells != store.prev
    }

    constructor (size: nat)
      requires size >= 3
      ensures Valid() && Acyclic() && live == {} && outside == multiset{} && store.live == map[] && store.size == size
      ensures store.Laid() == NewLayout(size)
      ensures kids[..] == seq(size, _ => []) && n[..] == seq(size, _ => 0)
      ensures fresh(store) && fresh(store.op) && fresh(store.next) && fresh(store.prev)
      ensures fresh(n) && fresh(kids) && fresh(cells)
    {
      store := new Store(size);
      n, kids, cells := new nat[size](_ => 0), new seq<Ref>[size](_ => []), new nat[size](_ => 0);
      live, outside := {}, multiset{};
      age, clock := seq(size, _ => 0), 0;
      new;
      hide Counted, Housed, Ordered, Store.Valid, Store.Filled, Store.Laid, NewLayout;
      NothingYet(n[..], kids[..], cells[..], age, size);
    }

    /** The node builders: a new cell of `size` cells takes over the caller's references to its
        arguments, and the caller gets the only reference to it. */
    method Build(size: nat, refs: seq<Ref>) returns (r: AllocResult)
      requires Valid() && size > 0 && multiset(refs) <= outside
      modifies this, n, kids, cells, store, store.op, store.next, store.prev
      ensures r == old(store.Expected(size))
      ensures r.Allocated? ==> Valid() && r.cell !in old(live) && live == old(live) + {r.cell} && r.cell < kids.Length
      ensures r.Allocated? ==> store.live == old(store.live)[r.cell := size]
      ensures r.Allocated? ==> store.Laid() == Granted(old(store.Laid()), store.size, r.cell, size)
      ensures r.Allocated? ==> n.Length == kids.Length && n[..] == old(n[..])[r.cell := 0]
      ensures r.Allocated? ==> outside == old(outside) - multiset(refs) + multiset{Some(r.cell)}
      ensures r.Failed? ==> live == old(live) && outside == old(outside) && store.live == old(store.live)
      ensures r.Failed? && r.error !in {LastCell, NeverLinked} ==> Valid()
      ensures r.Allocated? ==> kids[..] == old(kids[..])[r.cell := refs] && (old(Acyclic()) ==> Acyclic())
    {
      hide Counted, Housed, Ordered, Store.Valid, Store.Filled, Outcome;
      ghost var chunks := store.live;
      r := NewChunk(size);
      if r.Allocated? {
        ApartFacts();
        Enter(r.cell, size, refs, chunks);
      }
    }

    method Enter(c: nat, size: nat, refs: seq<Ref>, ghost chunks: map<nat, nat>)
      requires n.Length == kids.Length == cells.Length && n != cells && c < n.Length
      requires Counted(n[..], kids[..], live, outside) && multiset(refs) <= outside
      requires Housed(chunks, cells[..], live) && c !in chunks
      modifies this, n, kids, cells
      ensures c !in old(live) && live == old(live) + {c} && kids[..] == old(kids[..])[c := refs]
      ensures n[..] == old(n[..])[c := 0]
      ensures outside == old(outside) - multiset(refs) + multiset{Some(c)}
      ensures Counted(n[..], kids[..], live, outside) && Housed(chunks[c := size], cells[..], live)
      ensures old(Acyclic()) ==> Acyclic()
    {
      hide *;
      EnterFacts(c, size, refs, chunks);
      WriteCell(c, size, refs);
      Admit(c, refs, n[..], kids[..], old(Acyclic()));
    }

    /** The new cell counts as live, held from outside only. */
    ghost method Admit(c: nat, refs: seq<Ref>, n1: seq<nat>, kids1: seq<seq<Ref>>, acyclic: bool)
      requires n1 == n[..] && kids1 == kids[..]
      requires Counted(n1, kids1, live + {c}, outside - multiset(refs) + multiset{Some(c)})
      requires acyclic ==> c < |age| && Ordered(kids1, live + {c}, age[c := clock], clock + 1)
      modifies this
      ensures live == old(live) + {c} && outside == old(outside) - multiset(refs) + multiset{Some(c)}
      ensures Counted(n1, kids1, live, outside) && (acyclic ==> Acyclic())
    {
      hide Counted, Ordered;
      live, outside := live + {c}, outside - multiset(refs) + multiset{Some(c)};
      if c < |age| { age := age[c := clock]; }
      clock := clock + 1;
    }

    lemma ApartFacts()
      requires Apart()
      ensures n.Length == kids.Length == cells.Length == store.size
      ensures n != cells && n != store.next && n != store.prev && cells != store.next && cells != store.prev
    {}

    lemma EnterFacts(c: nat, size: nat, refs: seq<Ref>, chunks: map<nat, nat>)
      requires n.Length == kids.Length == cells.Length && c < n.Length
      requires Counted(n[..], kids[..], live, outside) && multiset(refs) <= outside
      requires Housed(chunks, cells[..], live) && c !in chunks
      ensures c !in live && Housed(chunks[c := size], cells[..][c := size], live + {c})
      ensures Counted(n[..][c := 0], kids[..][c := refs], live + {c}, outside - multiset(refs) + multiset{Some(c)})
      ensures Acyclic() ==> c < |age| && Ordered(kids[..][c := refs], live + {c}, age[c := clock], clock + 1)
    {
      hide *;
      NewlyHoused(chunks, cells[..], live, c, size);
      CellEnters(n[..], kids[..], live, outside, c, refs);
      RefsLive(n[..], kids[..], live, outside, refs);
      if Acyclic() { NewlyOrdered(c, refs); }
    }

    lemma NewlyOrdered(c: nat, refs: seq<Ref>)
      requires Acyclic() && c < kids.Length && c !in live
      requires forall i :: 0 <= i < |refs| && refs[i].Some? ==> refs[i].value in live
      requires forall p :: p in live ==> p < kids.Length && ClosedUnder(kids[p], live)
      ensures c < |age| && Ordered(kids[..][c := refs], live + {c}, age[c := clock], clock + 1)
    {
      YoungestEnters(kids[..], live, age, clock, c, refs);
    }

    method WriteCell(c: nat, size: nat, refs: seq<Ref>)
      requires c < n.Length == kids.Length == cells.Length && n != cells
      modifies n, kids, cells
      ensures n[..] == old(n[..])[c := 0] && kids[..] == old(kids[..])[c := refs] && cells[..] == old(cells[..])[c := size]
    {
      n[c], kids[c], cells[c] := 0, refs, size;
    }

    /** Allocate a chunk, and fill in its first cell. */
    method NewChunk(size: nat) returns (r: AllocResult)
      requires Apart() && store.Valid() && store.Filled() && size > 0
      modifies store, store.op, store.next, store.prev
      ensures r == old(store.Expected(size))
      ensures r.Allocated? ==> store.Valid() && store.Filled() && r.cell < store.size
      ensures r.Allocated? ==> r.cell !in old(store.live) && store.live == old(store.live)[r.cell := size]
      ensures r.Allocated? ==> store.Laid() == Granted(old(store.Laid()), store.size, r.cell, size)
      ensures r.Failed? ==> store.live == old(store.live)
      ensures r.Failed? && r.error !in {LastCell, NeverLinked} ==> store.Valid() && store.Filled()
    {
      hide IsRing, Partition, Blank, Outcome, RingAfter;
      r := store.Alloc(size);
      if r.Allocated? {
        store.Fill(r.cell);
        store.LiveBelow(r.cell);
      }
    }

    /** `refn` */
    method Refn(c: Ref, k: nat)
      requires Valid() && (c.Some? ==> c.value in live)
      modifies this`outside, n
      ensures Valid() && outside == old(outside)[c := old(outside)[c] + k]
      ensures n[..] == MoreFor(old(n[..]), c, k)
    {
      hide Counted, Housed, Store.Valid, Store.Filled;
      if c.Some? {
        LiveCell(n[..], kids[..], live, outside, c.value);
        MoreRefs(n[..], kids[..], live, outside, c.value, k);
        n[c.value] := n[c.value] + k;
      } else {
        NoCell(n[..], kids[..], live, outside, outside[None] + k);
      }
      outside := outside[c := outside[c] + k];
    }

    /** `_dropn`: the caller gives up `k` of its references to `c`.

        A cell without references is freed, and gives up its own.  What stays live is the largest
        set of cells that each have a reference from outside or from the set; exactly the chunks of
        the other cells are free again. */
    method Dropn(c: Ref, k: nat)
      requires Valid() && outside[c] >= k && (c.Some? ==> c.value in live)
      modifies this`live, this`outside, n, store`ring, store`owner, store`live, store`cnt, store.op, store.next, store.prev
      ensures Valid() && outside == old(outside)[c := old(outside)[c] - k]
      ensures live <= old(live) && Returned(old(store.live), old(live), store.live, live)
      ensures LargestSupported(kids[..], old(live), outside, live)
      ensures Dropped(old(DropRef(kids[..], n[..], live, c, k)), old(store.Laid()))
      decreases live, 0
    {
      hide Counted, Supported, ClosedUnder, Housed, Returned, LargestSupported, FreedAre, Dropped, DropRef, DropRefs, FreedAll;
      hide Store.Valid, Store.Filled, Store.Laid;
      ghost var final, chunks, live0, l0 := outside[c := outside[c] - k], store.live, live, store.Laid();
      ghost var n0 := n[..];
      NoneReturned(chunks, live);
      FreedNext(l0, [], 0);
      DropKeeps(n0, kids[..], live, outside, c, k);
      if c.None? {
        DropRefIs(kids[..], n0, live, c, k);
        NoCell(n[..], kids[..], live, outside, outside[None] - k);
        outside := final;
        DroppedNow(n0, live, [], l0);
        return;
      }
      var x := c.value;
      LiveCell(n[..], kids[..], live, outside, x);
      DropRefIs(kids[..], n0, live, c, k);
      if k > n[x] {
        OnlyOutside(n[..], kids[..], live, outside, x, k);
        CellLeaves(n[..], kids[..], live, outside, x);
        StillHoused(store.live, cells[..], live, x);
        live, outside := live - {x}, final + multiset(kids[x]);
        DropWithKids(x, final, live0);
        DroppedParts(DropRef(kids[..], n0, live0, c, k), l0);
      } else {
        FewerRefs(n[..], kids[..], live, outside, x, k);
        n[x] := n[x] - k;
        outside := final;
        DroppedNow(n[..], live, [], l0);
      }
    }

    /** A cell that is live no more gives up its references, and is freed. */
    method DropWithKids(x: nat, ghost final: multiset<Ref>, ghost live0: set<nat>)
      requires Valid() && x < kids.Length && outside == final + multiset(kids[x])
      requires x !in live && x in live0 && live == live0 - {x} && x in store.live
      modifies this`live, this`outside, n, store`ring, store`owner, store`live, store`cnt, store.op, store.next, store.prev
      ensures Valid() && outside == final && live <= old(live)
      ensures Returned(old(store.live), live0, store.live, live)
      ensures var d := old(DropRefs(kids[..], n[..], live, kids[x]));
              Dropped(Drop(d.n, d.live, d.freed + [x]), old(store.Laid()))
      decreases live, 2
    {
      hide *;
      ghost var chunks, l0, d := store.live, store.Laid(), DropRefs(kids[..], n[..], live, kids[x]);
      DropKids(x, final);
      Free(x, chunks, live0, d, l0);
    }

    /** Counts, live cells and the store are as `d` says. */
    ghost predicate Dropped(d: Drop, l0: Layout)
      reads this, n, store
    {
      n[..] == d.n && live == d.live && store.Laid() == FreedAll(l0, d.freed)
    }

    lemma DroppedNow(n1: seq<nat>, live1: set<nat>, freed: seq<nat>, l0: Layout)
      requires n[..] == n1 && live == live1 && store.Laid() == FreedAll(l0, freed)
      ensures Dropped(Drop(n1, live1, freed), l0)
    {}

    lemma ValidParts()
      requires Valid()
      ensures n.Length == kids.Length == cells.Length == store.size && n != cells && n != store.next && n != store.prev
      ensures Counted(n[..], kids[..], live, outside) && Housed(store.live, cells[..], live)
      ensures Apart() && store.Valid() && store.Filled()
    {}

    lemma Refold()
      requires Apart() && store.Valid() && store.Filled()
      requires Counted(n[..], kids[..], live, outside) && Housed(store.live, cells[..], live)
      ensures Valid()
    {}

    /** `closure_free` gives the whole chunk back. */
    method Free(x: nat, ghost chunks: map<nat, nat>, ghost live0: set<nat>, ghost d: Drop, ghost l0: Layout)
      requires Valid() && x !in live && x in live0 && x in chunks
      requires Returned(chunks, live0 - {x}, store.live, live) && Dropped(d, l0)
      modifies store`ring, store`owner, store`live, store`cnt, store.op, store.next, store.prev
      ensures Valid() && Returned(chunks, live0, store.live, live)
      ensures Dropped(Drop(d.n, d.live, d.freed + [x]), l0)
    {
      hide Counted, Store.Valid, FreedAll;
      store.LiveBelow(x);
      ghost var l := store.Laid();
      store.Shrink(x, cells[x], 0);
      FreedNext(l0, d.freed, x);
    }

    /** `refmove`: the caller's `k` references to `src` become references to `dst`. */
    method Refmove(src: Ref, dst: Ref, k: nat)
      requires Valid() && outside[src] >= k
      requires (src.Some? ==> src.value in live) && (dst.Some? ==> dst.value in live)
      modifies this`live, this`outside, n, store`ring, store`owner, store`live, store`cnt, store.op, store.next, store.prev
      ensures Valid() && outside + multiset{}[src := k] == old(outside) + multiset{}[dst := k]
      ensures live <= old(live) && Returned(old(store.live), old(live), store.live, live)
      ensures LargestSupported(kids[..], old(live), outside, live)
    {
      hide Counted, Supported, ClosedUnder, Housed, Returned, LargestSupported, Dropped, Store.Valid, Store.Filled;
      Refn(dst, k);
      Dropn(src, k);
    }

    /** The loop of `_dropn` over the references of a cell that is going away. */
    method DropKids(x: nat, ghost final: multiset<Ref>)
      requires Valid() && x < kids.Length && outside == final + multiset(kids[x]) && x !in live
      modifies this`live, this`outside, n, store`ring, store`owner, store`live, store`cnt, store.op, store.next, store.prev
      ensures Valid() && outside == final
      ensures live <= old(live) && Returned(old(store.live), old(live), store.live, live)
      ensures LargestSupported(kids[..], old(live), final, live)
      ensures Dropped(old(DropRefs(kids[..], n[..], live, kids[x])), old(store.Laid()))
      decreases live, 1
    {
      hide *;
      ghost var chunks, live0, l0 := store.live, live, store.Laid();
      ghost var d0 := DropRefs(kids[..], n[..], live, kids[x]);
      ghost var freed: seq<nat> := [];
      var i: nat := 0;
      assert kids[x][0..] == kids[x];
      ValidParts();
      NoneReturned(chunks, live0);
      DropsKeep(n[..], kids[..], live, outside, final, kids[x]);
      FreedNext(l0, [], 0);
      ThenAgain([], [], d0);
      while i < |kids[x]|
        invariant 0 <= i <= |kids[x]| && Valid() && outside == final + multiset(kids[x][i..])
        invariant live <= live0 && Returned(chunks, live0, store.live, live)
        invariant d0 == Then(freed, DropRefs(kids[..], n[..], live, kids[x][i..]))
        invariant store.Laid() == FreedAll(l0, freed)
      {
        ValidParts();
        FirstOfKids(n[..], kids[..], live, outside, final, kids[x], i);
        DropsFirst(kids[..], n[..], live, kids[x], i);
        ghost var chunks1, live1, l1 := store.live, live, store.Laid();
        ghost var d := DropRef(kids[..], n[..], live, kids[x][i], 1);
        Dropn(kids[x][i], 1);
        DroppedParts(d, l1);
        MoreReturned(chunks, live0, chunks1, live1, store.live, live);
        FreedConcat(l0, freed, d.freed);
        ThenAgain(freed, d.freed, DropRefs(kids[..], d.n, d.live, kids[x][i + 1..]));
        freed := freed + d.freed;
        i := i + 1;
      }
      DropsNone(kids[..], n[..], live, kids[x]);
      assert kids[x][|kids[x]|..] == [];
      DroppedNow(n[..], live, freed, l0);
    }

    lemma DroppedParts(d: Drop, l0: Layout)
      requires Dropped(d, l0)
      ensures n[..] == d.n && live == d.live && store.Laid() == FreedAll(l0, d.freed)
    {}
  }

  /** A heap without cycles that nothing refers to is empty: every cell that was built is free again. */
  lemma NothingLeft(heap: Cells)
    requires heap.Valid() && heap.Acyclic() && heap.outside == multiset{} && heap.store.live.Keys == heap.live
    ensures heap.live == {} && heap.store.cnt == 0
  {
    hide Counted, Ordered, Housed;
    if heap.live != {} {
      var c := AnyOf(heap.live);
      var path := LiveReachable(heap.n[..], heap.kids[..], heap.live, heap.outside, heap.age, heap.clock, c);
    }
    heap.store.NothingLive();
  }

  lemma AnyOf(s: set<nat>) returns (c: nat)
    requires s != {}
    ensures c in s
  {
    c :| c in s;
  }

  /** The counts with `k` more references to `c`. */
  function MoreFor(n: seq<nat>, c: Ref, k: nat): seq<nat> {
    if c.Some? && c.value < |n| then n[c.value := n[c.value] + k] else n
  }

  lemma NothingYet(n: seq<nat>, kids: seq<seq<Ref>>, cells: seq<nat>, age: seq<nat>, size: nat)
    requires |n| == |kids| == |age| == size
    ensures Counted(n, kids, {}, multiset{}) && Housed(map[], cells, {}) && Ordered(kids, {}, age, 0)
  {}

  /** Each live cell is the head of a chunk, and chunk lengths are on record. */
  ghost predicate Housed(chunks: map<nat, nat>, cells: seq<nat>, live: set<nat>) {
    (forall c :: c in live ==> c in chunks) && (forall h :: h in chunks ==> h < |cells| && cells[h] == chunks[h])
  }

  lemma NewlyHoused(chunks: map<nat, nat>, cells: seq<nat>, live: set<nat>, c: nat, size: nat)
    requires Housed(chunks, cells, live) && c < |cells| && c !in chunks
    ensures Housed(chunks[c := size], cells[c := size], live + {c}) && c !in live
  {}

  lemma StillHoused(chunks: map<nat, nat>, cells: seq<nat>, live: set<nat>, c: nat)
    requires Housed(chunks, cells, live) && c in live
    ensures Housed(chunks, cells, live - {c}) && c in chunks
  {}

  /** From `chunks` to `chunks'`, exactly the chunks of cells that are no longer live were given back. */
  ghost predicate Returned(chunks: map<nat, nat>, live: set<nat>, chunks': map<nat, nat>, live': set<nat>) {
    && (forall h :: h in chunks' <==> h in chunks && (h in live ==> h in live'))
    && (forall h :: h in chunks' ==> chunks'[h] == chunks[h])
  }

  lemma NoneReturned(chunks: map<nat, nat>, live: set<nat>)
    ensures Returned(chunks, live, chunks, live)
  {}

  lemma MoreReturned(chunks0: map<nat, nat>, live0: set<nat>, chunks1: map<nat, nat>, live1: set<nat>,
                     chunks2: map<nat, nat>, live2: set<nat>)
    requires Returned(chunks0, live0, chunks1, live1) && Returned(chunks1, live1, chunks2, live2) && live2 <= live1 <= live0
    ensures Returned(chunks0, live0, chunks2, live2)
  {}
}
