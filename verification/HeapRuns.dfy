/** Whole runs of a program over the cell heap: it builds cells, shares references and gives them up.

    The state after a run is a function of its actions, down to the order of the free cells, which
    decides what later requests come to.  In every state the live cells are exactly those that can be
    reached from the references held. */
module HeapRuns {
  import opened Options
  import opened FreeRing
  import opened CellStore
  import opened RefCount

  /** What a program does with the references it holds, the last one first. */
  datatype Action =
    | Make(size: nat, args: nat)  // build a cell from the last references, and hold it instead
    | Share(i: nat)               // hold one reference once more
    | Release                     // give up the last reference

  /** The store, the heap in it, and the references held. */
  datatype State = State(layout: Layout, kids: seq<seq<Ref>>, n: seq<nat>, live: set<nat>, held: seq<Ref>)

  function Initial(size: nat): State {
    State(NewLayout(size), seq(size, _ => []), seq(size, _ => 0), {}, [])
  }

  /** A cell of `n` cells at `c` takes the place of the last `args` references. */
  ghost function Made(s: State, size: nat, n: nat, args: nat, c: nat): State
    requires args <= |s.held|
  {
    if c >= |s.kids| || c >= |s.n| then s
    else State(Granted(s.layout, size, c, n), s.kids[c := s.held[|s.held| - args..]], s.n[c := 0],
               s.live + {c}, s.held[..|s.held| - args] + [Some(c)])
  }

  ghost function Shared(s: State, i: nat): State
    requires i < |s.held|
  {
    s.(n := MoreFor(s.n, s.held[i], 1), held := s.held + [s.held[i]])
  }

  ghost function Released(s: State): State
    requires s.held != []
  {
    var d := DropRef(s.kids, s.n, s.live, s.held[|s.held| - 1], 1);
    State(FreedAll(s.layout, d.freed), s.kids, d.n, d.live, s.held[..|s.held| - 1])
  }

  ghost function Answer(s: State, size: nat, n: nat): AllocResult {
    Outcome(s.layout.ring, s.layout.bump, size, s.layout.cnt, n)
  }

  /** The state after an action, unless the action is refused: because it names references that are not
      held, or no cells, or because its allocation fails. */
  ghost function Next(s: State, size: nat, action: Action): Option<State> {
    match action
    case Make(n, args) =>
      if n == 0 || args > |s.held| || Answer(s, size, n).Failed? then None
      else Some(Made(s, size, n, args, Answer(s, size, n).cell))
    case Share(i) => if i >= |s.held| then None else Some(Shared(s, i))
    case Release => if s.held == [] then None else Some(Released(s))
  }

  /** The state after the actions, if none is refused. */
  ghost function After(size: nat, actions: seq<Action>): Option<State> {
    if actions == [] then Some(Initial(size))
    else
      match After(size, actions[..|actions| - 1])
      case None => None
      case Some(s) => Next(s, size, actions[|actions| - 1])
  }

  lemma AfterNext(size: nat, actions: seq<Action>, action: Action)
    ensures After(size, actions + [action]) ==
            match After(size, actions) case None => None case Some(s) => Next(s, size, action)
  {
    assert (actions + [action])[..|actions|] == actions;
  }

  // ---- What holds in every state

  /** The store is whole, every reference is counted, each chunk is that of a live cell, and live cells
      are older than those that refer to them. */
  ghost predicate Good(s: State, size: nat, age: seq<nat>, clock: nat) {
    && Whole(s.layout, size) && |s.n| == size && s.layout.chunks.Keys == s.live
    && Counted(s.n, s.kids, s.live, multiset(s.held))
    && Ordered(s.kids, s.live, age, clock)
  }

  lemma StartsGood(size: nat)
    requires size >= 3
    ensures Good(Initial(size), size, seq(size, _ => 0), 0)
  {}

  lemma MadeGood(s: State, size: nat, n: nat, args: nat, age: seq<nat>, clock: nat) returns (age': seq<nat>)
    requires Good(s, size, age, clock) && n > 0 && args <= |s.held| && Answer(s, size, n).Allocated?
    ensures Good(Made(s, size, n, args, Answer(s, size, n).cell), size, age', clock + 1)
  {
    hide Counted, Ordered, Whole, ClosedUnder, Outcome, RingAfter;
    var c, refs := Answer(s, size, n).cell, s.held[|s.held| - args..];
    GrantedWhole(s.layout, size, c, n);
    SameLength(s.n, s.kids, s.live, multiset(s.held));
    OrderedLength(s.kids, s.live, age, clock);
    Taking(s.held, args);
    TakenOver(s.held, args, Some(c));
    CellEnters(s.n, s.kids, s.live, multiset(s.held), c, refs);
    RefsLive(s.n, s.kids, s.live, multiset(s.held), refs);
    YoungestEnters(s.kids, s.live, age, clock, c, refs);
    GrantedChunks(s.layout, size, c, n);
    age' := age[c := clock];
  }

  lemma GrantedChunks(l: Layout, size: nat, c: nat, n: nat)
    requires Whole(l, size) && c + n <= size
    ensures Granted(l, size, c, n).chunks == l.chunks[c := n]
  {}

  lemma SameLength(n: seq<nat>, kids: seq<seq<Ref>>, live: set<nat>, outside: multiset<Ref>)
    requires Counted(n, kids, live, outside)
    ensures |kids| == |n|
  {}

  lemma OrderedLength(kids: seq<seq<Ref>>, live: set<nat>, age: seq<nat>, clock: nat)
    requires Ordered(kids, live, age, clock)
    ensures |age| == |kids|
  {}

  lemma Taking(held: seq<Ref>, args: nat)
    requires args <= |held|
    ensures multiset(held[|held| - args..]) <= multiset(held)
  {
    assert held == held[..|held| - args] + held[|held| - args..];
  }

  lemma TakenOver(held: seq<Ref>, args: nat, r: Ref)
    requires args <= |held|
    ensures multiset(held) - multiset(held[|held| - args..]) + multiset{r} == multiset(held[..|held| - args] + [r])
  {
    assert held == held[..|held| - args] + held[|held| - args..];
  }

  lemma SharedGood(s: State, size: nat, i: nat, age: seq<nat>, clock: nat)
    requires Good(s, size, age, clock) && i < |s.held|
    ensures Good(Shared(s, i), size, age, clock)
  {
    hide Ordered, Whole, Counted;
    var r, outside := s.held[i], multiset(s.held);
    assert multiset(s.held + [r]) == outside[r := outside[r] + 1];
    if r.Some? {
      HeldLives(s.n, s.kids, s.live, s.held, i);
      MoreRefs(s.n, s.kids, s.live, outside, r.value, 1);
    } else {
      NoCell(s.n, s.kids, s.live, outside, outside[None] + 1);
    }
  }

  lemma HeldLives(n: seq<nat>, kids: seq<seq<Ref>>, live: set<nat>, held: seq<Ref>, i: nat)
    requires Counted(n, kids, live, multiset(held)) && i < |held|
    ensures held[i].Some? ==> held[i].value in live
  {
    assert held[i] in multiset(held);
  }

  lemma LastGone(held: seq<Ref>)
    requires held != []
    ensures var r := held[|held| - 1];
            multiset(held)[r] >= 1 && multiset(held)[r := multiset(held)[r] - 1] == multiset(held[..|held| - 1])
  {
    assert held == held[..|held| - 1] + [held[|held| - 1]];
  }

  lemma ReleasedGood(s: State, size: nat, age: seq<nat>, clock: nat)
    requires Good(s, size, age, clock) && s.held != []
    ensures Good(Released(s), size, age, clock)
    ensures LargestSupported(s.kids, s.live, multiset(Released(s).held), Released(s).live)
  {
    hide Counted, Ordered, Whole, LargestSupported, Distinct, DropRef, FreedAll;
    var r := s.held[|s.held| - 1];
    var d := DropRef(s.kids, s.n, s.live, r, 1);
    LastGone(s.held);
    HeldLives(s.n, s.kids, s.live, s.held, |s.held| - 1);
    DropKeeps(s.n, s.kids, s.live, multiset(s.held), r, 1);
    FewerOrdered(s.kids, s.live, d.live, age, clock);
    FreedAllWhole(s.layout, size, d.freed);
  }

  lemma {:induction false} AfterGood(size: nat, actions: seq<Action>, s: State) returns (age: seq<nat>, clock: nat)
    requires size >= 3 && After(size, actions) == Some(s)
    ensures Good(s, size, age, clock)
  {
    hide Good, Made, Shared, Released, Outcome;
    if actions == [] {
      StartsGood(size);
      age, clock := seq(size, _ => 0), 0;
    } else {
      var before, last := After(size, actions[..|actions| - 1]).value, actions[|actions| - 1];
      age, clock := AfterGood(size, actions[..|actions| - 1], before);
      match last {
        case Make(n, args) =>
          age := MadeGood(before, size, n, args, age, clock);
          clock := clock + 1;
        case Share(i) => SharedGood(before, size, i, age, clock);
        case Release => ReleasedGood(before, size, age, clock);
      }
    }
  }

  ghost predicate InChunk(chunks: map<nat, nat>, c: nat) {
    exists h :: h in chunks && h <= c < h + chunks[h]
  }

  /** `c` can be reached from a reference that is held. */
  ghost predicate Reachable(s: State, c: nat) {
    exists path :: IsPath(s.kids, multiset(s.held), path) && path[|path| - 1] == c
  }

  /** In every state a run leads to, the live cells are exactly the reachable ones, and the chunks in use
      are exactly theirs. */
  lemma ExactlyReachable(size: nat, actions: seq<Action>, s: State)
    requires size >= 3 && After(size, actions) == Some(s)
    ensures forall c: nat :: c in s.live <==> Reachable(s, c)
    ensures s.layout.chunks.Keys == s.live
  {
    var age, clock := AfterGood(size, actions, s);
    hide Counted, Ordered, Whole, After, IsPath;
    forall c: nat ensures c in s.live <==> Reachable(s, c) {
      if c in s.live {
        var path := LiveReachable(s.n, s.kids, s.live, multiset(s.held), age, clock, c);
      }
      if Reachable(s, c) {
        var path :| IsPath(s.kids, multiset(s.held), path) && path[|path| - 1] == c;
        ReachableLives(s.n, s.kids, s.live, multiset(s.held), path);
      }
    }
  }

  /** In every state a run leads to, a used cell is either in the ring, once, or in exactly one chunk, and
      the counter says how many are not in the ring. */
  lemma NoCellLost(size: nat, actions: seq<Action>, s: State)
    requires size >= 3 && After(size, actions) == Some(s)
    ensures var l := s.layout;
            && l.bump <= size && Distinct(l.ring) && l.cnt + |l.ring| == l.bump
            && (forall c: nat :: c in l.ring <==> c < l.bump && !InChunk(l.chunks, c))
            && (forall h, h' :: h in l.chunks && h' in l.chunks && h < h' ==> h + l.chunks[h] <= h')
            && (forall h :: h in l.chunks ==> 0 < l.chunks[h] && h + l.chunks[h] <= l.bump)
  {
    var age, clock := AfterGood(size, actions, s);
    hide Counted, Ordered, After;
    var l := s.layout;
    StoreSane(l.ring, l.owner, l.chunks, l.bump, size);
  }

  lemma StoreSane(ring: seq<nat>, owner: seq<Option<nat>>, live: map<nat, nat>, bump: nat, size: nat)
    requires Partition(ring, owner, live, bump) && |owner| == size
    ensures forall c: nat :: c in ring <==> c < bump && !InChunk(live, c)
    ensures forall h, h' :: h in live && h' in live && h < h' ==> h + live[h] <= h'
    ensures forall h :: h in live ==> 0 < live[h] && h + live[h] <= bump
  {
    forall c: nat ensures c in ring <==> c < bump && !InChunk(live, c) {
      if InChunk(live, c) {
        var h :| h in live && h <= c < h + live[h];
        assert HeldBy(owner, h, live[h]);
      }
    }
    forall h, h' | h in live && h' in live && h < h' ensures h + live[h] <= h' {
      ChunksDisjoint(ring, owner, live, bump, h, h');
    }
  }

  /** Whenever nothing is held, every cell that was used is free again. */
  lemma NothingHeld(size: nat, actions: seq<Action>, s: State)
    requires size >= 3 && After(size, actions) == Some(s) && s.held == []
    ensures s.live == {} && s.layout.chunks == map[] && s.layout.cnt == 0
    ensures forall c: nat :: c in s.layout.ring <==> c < s.layout.bump
  {
    hide After;
    ExactlyReachable(size, actions, s);
    NoCellLost(size, actions, s);
    NoneReachable(s);
    assert s.layout.chunks.Keys == {};
    DistinctBelow(s.layout.ring, s.layout.bump);
  }

  lemma NoneReachable(s: State)
    requires s.held == []
    ensures forall c: nat :: !Reachable(s, c)
  {
    assert forall path :: !IsPath(s.kids, multiset(s.held), path);
  }

  function Releases(k: nat): seq<Action> {
    seq(k, _ => Release)
  }

  /** Giving up all references that are held is never refused, and frees every cell. */
  lemma {:induction false} AllGivenUp(size: nat, actions: seq<Action>, s: State)
    requires size >= 3 && After(size, actions) == Some(s)
    ensures var t := After(size, actions + Releases(|s.held|));
            t.Some? && t.value.live == {} && t.value.layout.chunks == map[] && t.value.layout.cnt == 0
    decreases |s.held|
  {
    hide After, DropRef, FreedAll;
    if s.held == [] {
      assert actions + Releases(0) == actions;
      NothingHeld(size, actions, s);
    } else {
      AfterNext(size, actions, Release);
      AllGivenUp(size, actions + [Release], Released(s));
      assert actions + Releases(|s.held|) == (actions + [Release]) + Releases(|s.held| - 1);
    }
  }

  // ---- The heap of a program

  ghost function StateOf(heap: Cells, held: seq<Ref>): State
    reads heap, heap.kids, heap.n, heap.store
  {
    State(heap.store.Laid(), heap.kids[..], heap.n[..], heap.live, held)
  }

  /** The heap of a program that holds `held`. */
  ghost predicate Tidy(heap: Cells, held: seq<Ref>)
    reads heap, heap.n, heap.kids, heap.cells, heap.store, heap.store.op, heap.store.next, heap.store.prev
  {
    heap.Valid() && heap.outside == multiset(held)
  }

  /** The heap goes through the states of the run, exactly as far as no action is refused. */
  method Perform(size: nat, actions: seq<Action>) returns (heap: Cells, held: seq<Ref>, done: nat)
    requires size >= 3
    ensures done <= |actions| && After(size, actions[..done]).Some?
    ensures done < |actions| ==> After(size, actions[..done + 1]).None?
    ensures done == |actions| ==> Tidy(heap, held) && After(size, actions) == Some(StateOf(heap, held))
    ensures fresh(heap) && fresh(heap.n) && fresh(heap.store)
  {
    hide *;
    heap := new Cells(size);
    held := [];
    TidyStart(heap, size, actions);
    done := 0;
    while done < |actions|
      invariant done <= |actions| && After(size, actions[..done]) == Some(StateOf(heap, held))
      invariant Tidy(heap, held) && heap.store.size == size
      invariant fresh(heap) && fresh(heap.n) && fresh(heap.kids) && fresh(heap.cells)
      invariant fresh(heap.store) && fresh(heap.store.op) && fresh(heap.store.next) && fresh(heap.store.prev)
    {
      var ok;
      assert actions[..done + 1] == actions[..done] + [actions[done]];
      AfterNext(size, actions[..done], actions[done]);
      ok, held := Act(heap, held, actions[done]);
      if !ok {
        return;
      }
      done := done + 1;
    }
    assert actions[..done] == actions;
  }

  lemma TidyStart(heap: Cells, size: nat, actions: seq<Action>)
    requires heap.Valid() && heap.live == {} && heap.outside == multiset{}
    requires heap.store.Laid() == NewLayout(size) && heap.kids[..] == seq(size, _ => []) && heap.n[..] == seq(size, _ => 0)
    ensures Tidy(heap, []) && StateOf(heap, []) == Initial(size) && After(size, actions[..0]) == Some(Initial(size))
  {
    hide Cells.Valid;
  }

  method Act(heap: Cells, held: seq<Ref>, action: Action) returns (ok: bool, held': seq<Ref>)
    requires Tidy(heap, held)
    modifies heap, heap.n, heap.kids, heap.cells, heap.store, heap.store.op, heap.store.next, heap.store.prev
    ensures ok <==> old(Next(StateOf(heap, held), heap.store.size, action)).Some?
    ensures ok ==> Tidy(heap, held')
    ensures ok ==> old(Next(StateOf(heap, held), heap.store.size, action)) == Some(StateOf(heap, held'))
  {
    hide Tidy, Outcome, Made, Shared, Released;
    match action {
      case Make(size, args) =>
        if size == 0 || args > |held| {
          return false, held;
        }
        ok, held' := MakeCell(heap, held, size, args, StateOf(heap, held));
      case Share(i) =>
        if i >= |held| {
          return false, held;
        }
        held' := ShareRef(heap, held, i);
        ok := true;
      case Release =>
        if held == [] {
          return false, held;
        }
        held' := GiveUp(heap, held);
        ok := true;
    }
  }

  lemma TidyParts(heap: Cells, held: seq<Ref>)
    requires Tidy(heap, held)
    ensures heap.Valid() && heap.outside == multiset(held)
    ensures Counted(heap.n[..], heap.kids[..], heap.live, multiset(held))
    ensures StateOf(heap, held) == State(heap.store.Laid(), heap.kids[..], heap.n[..], heap.live, held)
  {}

  lemma AnswerIs(heap: Cells, held: seq<Ref>, n: nat)
    ensures Answer(StateOf(heap, held), heap.store.size, n) == heap.store.Expected(n)
  {}

  lemma StillTidy(heap: Cells, held: seq<Ref>)
    requires heap.Valid() && heap.outside == multiset(held)
    ensures Tidy(heap, held)
  {
    hide Cells.Valid;
  }

  method MakeCell(heap: Cells, held: seq<Ref>, size: nat, args: nat, ghost s: State) returns (ok: bool, held': seq<Ref>)
    requires Tidy(heap, held) && s == StateOf(heap, held) && size > 0 && args <= |held|
    modifies heap, heap.n, heap.kids, heap.cells, heap.store, heap.store.op, heap.store.next, heap.store.prev
    ensures ok <==> Answer(s, heap.store.size, size).Allocated?
    ensures ok ==> Tidy(heap, held') && args <= |s.held|
    ensures ok ==> StateOf(heap, held') == Made(s, heap.store.size, size, args, Answer(s, heap.store.size, size).cell)
  {
    hide *;
    TidyParts(heap, held);
    Taking(held, args);
    AnswerIs(heap, held, size);
    ghost var outside := heap.outside;
    var r := BuildFrom(heap, size, held[|held| - args..], s);
    ok, held' := r.Allocated?, held;
    if ok {
      held' := held[..|held| - args] + [Some(r.cell)];
      BuiltTidy(s, heap, held, size, args, r.cell, outside);
      BuiltState(s, heap, held', size, args, r.cell, outside);
    }
  }

  method BuildFrom(heap: Cells, size: nat, refs: seq<Ref>, ghost s: State) returns (r: AllocResult)
    requires heap.Valid() && size > 0 && multiset(refs) <= heap.outside
    requires s == State(heap.store.Laid(), heap.kids[..], heap.n[..], heap.live, s.held)
    modifies heap, heap.n, heap.kids, heap.cells, heap.store, heap.store.op, heap.store.next, heap.store.prev
    ensures r == old(heap.store.Expected(size))
    ensures r.Allocated? ==> heap.Valid() && IsBuilt(s, heap, size, refs, r.cell, old(heap.outside))
  {
    hide Counted, Housed, Store.Valid, Store.Filled, Store.Laid, Granted, Outcome;
    r := heap.Build(size, refs);
  }

  /** The heap after a cell was built that took over the references `refs`. */
  ghost predicate IsBuilt(s: State, heap: Cells, n: nat, refs: seq<Ref>, c: nat, outside: multiset<Ref>)
    reads heap, heap.kids, heap.n, heap.store
  {
    && c < |s.kids| && |s.n| == heap.n.Length && c < heap.n.Length
    && heap.outside == outside - multiset(refs) + multiset{Some(c)}
    && heap.live == s.live + {c} && heap.store.Laid() == Granted(s.layout, heap.store.size, c, n)
    && heap.kids[..] == s.kids[c := refs] && heap.n[..] == s.n[c := 0]
  }

  lemma BuiltTidy(s: State, heap: Cells, held: seq<Ref>, n: nat, args: nat, c: nat, outside: multiset<Ref>)
    requires args <= |held| && heap.Valid() && outside == multiset(held)
    requires IsBuilt(s, heap, n, held[|held| - args..], c, outside)
    ensures Tidy(heap, held[..|held| - args] + [Some(c)])
  {
    hide Cells.Valid;
    TakenOver(held, args, Some(c));
  }

  lemma BuiltState(s: State, heap: Cells, held: seq<Ref>, n: nat, args: nat, c: nat, outside: multiset<Ref>)
    requires args <= |s.held| && IsBuilt(s, heap, n, s.held[|s.held| - args..], c, outside)
    requires held == s.held[..|s.held| - args] + [Some(c)]
    ensures StateOf(heap, held) == Made(s, heap.store.size, n, args, c)
  {
    hide Granted, Store.Laid;
  }

  method ShareRef(heap: Cells, held: seq<Ref>, i: nat) returns (held': seq<Ref>)
    requires Tidy(heap, held) && i < |held|
    modifies heap`outside, heap.n
    ensures Tidy(heap, held') && StateOf(heap, held') == old(Shared(StateOf(heap, held), i))
  {
    hide *;
    TidyParts(heap, held);
    HeldLives(heap.n[..], heap.kids[..], heap.live, held, i);
    ghost var s := StateOf(heap, held);
    heap.Refn(held[i], 1);
    held' := held + [held[i]];
    SharedTidy(s, heap, held', i);
  }

  lemma SharedTidy(s: State, heap: Cells, held: seq<Ref>, i: nat)
    requires i < |s.held| && held == s.held + [s.held[i]] && heap.Valid()
    requires heap.outside == multiset(s.held)[s.held[i] := multiset(s.held)[s.held[i]] + 1]
    requires s == State(heap.store.Laid(), heap.kids[..], s.n, heap.live, s.held) && heap.n[..] == MoreFor(s.n, s.held[i], 1)
    ensures Tidy(heap, held) && StateOf(heap, held) == Shared(s, i)
  {
    hide Cells.Valid;
    assert multiset(held) == multiset(s.held) + multiset{s.held[i]};
  }

  method GiveUp(heap: Cells, held: seq<Ref>) returns (held': seq<Ref>)
    requires Tidy(heap, held) && held != []
    modifies heap`live, heap`outside, heap.n
    modifies heap.store`ring, heap.store`owner, heap.store`live, heap.store`cnt, heap.store.op, heap.store.next, heap.store.prev
    ensures Tidy(heap, held') && StateOf(heap, held') == old(Released(StateOf(heap, held)))
  {
    hide *;
    held' := held[..|held| - 1];
    TidyParts(heap, held);
    LastGone(held);
    HeldLives(heap.n[..], heap.kids[..], heap.live, held, |held| - 1);
    ghost var s := StateOf(heap, held);
    heap.Dropn(held[|held| - 1], 1);
    heap.DroppedParts(DropRef(s.kids, s.n, s.live, held[|held| - 1], 1), s.layout);
    StillTidy(heap, held');
    ReleasedState(s, heap, held');
  }

  lemma ReleasedState(s: State, heap: Cells, held: seq<Ref>)
    requires s.held != [] && held == s.held[..|s.held| - 1] && heap.kids[..] == s.kids
    requires var d := DropRef(s.kids, s.n, s.live, s.held[|s.held| - 1], 1);
             heap.n[..] == d.n && heap.live == d.live && heap.store.Laid() == FreedAll(s.layout, d.freed)
    ensures StateOf(heap, held) == Released(s)
  {
    hide DropRef, FreedAll, Store.Laid;
  }
}
