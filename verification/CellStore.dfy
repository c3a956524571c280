/** The cell store: a fixed array of cells, handed out in chunks of consecutive cells.

    Cells from `bump` on have never been used: they are all zero, and their links lead nowhere.  Free
    cells below it form a doubly linked ring that is entered at `ptr`.  All other cells belong to live
    chunks, whose first cell is marked by a nonzero `op` once the owner has filled it in. */
module CellStore {
  import opened Options
  import opened FreeRing

  const MAX_ALLOC_SIZE: nat := 1024

  datatype AllocError =
    | TooLarge    // the request exceeds MAX_ALLOC_SIZE
    | OutOfCells  // fewer cells are left than requested
    | NotFound    // no run of that many free or unused cells starts in the ring
    | LastCell    // the free cells of the run found are the whole ring
    | NeverLinked // the run found goes on into cells that were never used

  /** What becomes of a cell that is to be taken out of the ring. */
  datatype Unlinking = Taken | Last | NoLink

  datatype AllocResult = Allocated(cell: nat) | Failed(error: AllocError)

  // ---- Who owns which cell

  /** Every cell below `bump` is either in the ring or in exactly one live chunk; `owner` gives the
      first cell of its chunk, if any. */
  ghost predicate Partition(ring: seq<nat>, owner: seq<Option<nat>>, live: map<nat, nat>, bump: nat) {
    && bump <= |owner|
    && (forall c :: c in ring ==> c < bump && owner[c].None?)
    && (forall c :: 0 <= c < bump && owner[c].None? ==> c in ring)
    && (forall c :: bump <= c < |owner| ==> owner[c].None?)
    && (forall c :: 0 <= c < |owner| && owner[c].Some? ==>
          var h := owner[c].value; h in live && h <= c < h + live[h])
    && (forall h :: h in live ==> 0 < live[h] && h + live[h] <= bump)
    && (forall h :: h in live ==> HeldBy(owner, h, live[h]))
  }

  ghost predicate HeldBy(owner: seq<Option<nat>>, h: nat, n: nat) {
    h + n <= |owner| && forall c :: h <= c < h + n ==> owner[c] == Some(h)
  }

  /** All `n` cells from `c` on are in the ring. */
  ghost predicate FreeChunk(ring: seq<nat>, c: nat, n: nat) {
    forall k :: c <= k < c + n ==> k in ring
  }

  /** All `n` cells from `c` on are in the ring, or were never used. */
  ghost predicate OpenRun(ring: seq<nat>, bump: nat, size: nat, c: nat, n: nat) {
    c + n <= size && forall k :: c <= k < c + n ==> k in ring || k >= bump
  }

  /** The first cell from the `i`th of the ring on where such a run starts. */
  ghost function FirstStart(ring: seq<nat>, bump: nat, size: nat, n: nat, i: nat): Option<nat>
    requires i <= |ring|
    decreases |ring| - i
  {
    if i == |ring| then None
    else if OpenRun(ring, bump, size, ring[i], n) then Some(ring[i])
    else FirstStart(ring, bump, size, n, i + 1)
  }

  /** How many cells of the run are in the ring. */
  function FreePart(bump: nat, c: nat, n: nat): nat {
    if c + n <= bump then n else if c <= bump then bump - c else 0
  }

  /** What a request comes to. */
  ghost function Outcome(ring: seq<nat>, bump: nat, size: nat, cnt: int, n: nat): AllocResult {
    if n > MAX_ALLOC_SIZE then Failed(TooLarge)
    else if cnt + n > size then Failed(OutOfCells)
    else if bump + n <= size then Allocated(bump)
    else
      FromRing(ring, bump, size, n)
  }

  ghost function FromRing(ring: seq<nat>, bump: nat, size: nat, n: nat): AllocResult {
    match FirstStart(ring, bump, size, n, 0)
    case None => Failed(NotFound)
    case Some(c) =>
      if |ring| == FreePart(bump, c, n) then Failed(LastCell)
      else if c + n > bump then Failed(NeverLinked)
      else Allocated(c)
  }

  /** The ring after `n` cells from `c` on were taken: the search leaves it entered behind `c`. */
  function RingAfter(ring: seq<nat>, bump: nat, size: nat, c: nat, n: nat): seq<nat> {
    if bump + n <= size || c !in ring then ring else Except(EnteredBehind(ring, c), c, n)
  }

  lemma RingAfterIs(ring: seq<nat>, bump: nat, size: nat, c: nat, n: nat)
    ensures bump + n <= size ==> RingAfter(ring, bump, size, c, n) == ring
    ensures bump + n > size && c in ring ==> RingAfter(ring, bump, size, c, n) == Except(EnteredBehind(ring, c), c, n)
  {}

  lemma {:induction false} FirstStartIs(ring: seq<nat>, bump: nat, size: nat, n: nat, i: nat)
    requires i <= |ring|
    ensures var f := FirstStart(ring, bump, size, n, i);
            match f
            case None => forall c :: c in ring[i..] ==> !OpenRun(ring, bump, size, c, n)
            case Some(c) => c in ring[i..] && OpenRun(ring, bump, size, c, n) && FirstAt(ring, bump, size, n, i, c)
    decreases |ring| - i
  {
    if i < |ring| {
      FirstStartIs(ring, bump, size, n, i + 1);
      assert ring[i..] == [ring[i]] + ring[i + 1..];
      var f := FirstStart(ring, bump, size, n, i);
      if f.Some? && f.value != ring[i] {
        var j :| i + 1 <= j < |ring| && ring[j] == f.value
          && forall k :: i + 1 <= k < j ==> !OpenRun(ring, bump, size, ring[k], n);
      }
    }
  }

  /** The cell is in the ring from its `i`th cell on, and no run starts between there and the cell. */
  ghost predicate FirstAt(ring: seq<nat>, bump: nat, size: nat, n: nat, i: nat, c: nat) {
    exists j :: i <= j < |ring| && ring[j] == c && forall k :: i <= k < j ==> !OpenRun(ring, bump, size, ring[k], n)
  }

  /** What the failures mean.  Where cells are left but not enough, the request fails exactly when no
      run starts in the ring, or the first one takes the whole ring, or goes on into unused cells; and
      that cannot happen while the free cells keep clear of the unused ones. */
  lemma OutcomeMeans(ring: seq<nat>, bump: nat, size: nat, cnt: int, n: nat)
    requires n > 0 && bump <= size && forall c :: c in ring ==> c < bump
    requires n <= MAX_ALLOC_SIZE && cnt + n <= size < bump + n
    ensures Outcome(ring, bump, size, cnt, n) == Failed(NotFound) <==>
              forall c :: c in ring ==> !OpenRun(ring, bump, size, c, n)
    ensures Outcome(ring, bump, size, cnt, n) == Failed(NeverLinked) ==>
              exists c: nat :: c in ring && OpenRun(ring, bump, size, c, n) && c + n > bump && |ring| != bump - c
    ensures bump == size || bump == 0 || bump - 1 !in ring ==>
              Outcome(ring, bump, size, cnt, n) != Failed(NeverLinked)
    ensures Outcome(ring, bump, size, cnt, n).Allocated? ==>
              var c := Outcome(ring, bump, size, cnt, n).cell;
              c in ring && FreeChunk(ring, c, n) && n != |ring|
  {
    FirstStartIs(ring, bump, size, n, 0);
    assert ring[0..] == ring;
    var f := FirstStart(ring, bump, size, n, 0);
    if f.Some? && f.value + n > bump {
      assert bump - 1 in ring || bump - 1 >= bump;
    }
  }

  /** The `n` cells from `c` on. */
  function Span(c: nat, n: nat): (r: seq<nat>)
    ensures |r| == n && forall i :: 0 <= i < n ==> r[i] == c + i
  {
    seq(n, i requires 0 <= i < n => c + i)
  }

  /** `owner` with the `n` cells from `c` on given to `h`. */
  ghost function Given(owner: seq<Option<nat>>, c: nat, n: nat, h: Option<nat>): (o: seq<Option<nat>>)
    requires c + n <= |owner|
    ensures |o| == |owner|
    ensures forall k :: 0 <= k < |owner| ==> o[k] == if c <= k < c + n then h else owner[k]
  {
    seq(|owner|, k requires 0 <= k < |owner| => if c <= k < c + n then h else owner[k])
  }

  /** All that the store records, but for the links. */
  datatype Layout = Layout(ring: seq<nat>, owner: seq<Option<nat>>, chunks: map<nat, nat>, bump: nat, cnt: int)

  /** Two free cells, and the others unused. */
  function NewLayout(size: nat): Layout {
    Layout([0, 1], seq(size, _ => None), map[], 2, 0)
  }

  /** The layout after a request for `n` cells was met with those from `c` on. */
  ghost function Granted(l: Layout, size: nat, c: nat, n: nat): Layout {
    if c + n > |l.owner| then l
    else Layout(RingAfter(l.ring, l.bump, size, c, n), Given(l.owner, c, n, Some(c)), l.chunks[c := n],
                BumpAfter(l.bump, n, size), l.cnt + n)
  }

  /** Where the cells never used begin after a request was met. */
  function BumpAfter(bump: nat, n: nat, size: nat): nat {
    if bump + n <= size then bump + n else bump
  }

  /** The layout after the chunk at `h` was freed. */
  ghost function FreedOne(l: Layout, h: nat): Layout {
    if h !in l.chunks || h + l.chunks[h] > |l.owner| then l
    else Layout(l.ring + Span(h, l.chunks[h]), Given(l.owner, h, l.chunks[h], None), l.chunks - {h},
                l.bump, l.cnt - l.chunks[h])
  }

  /** The chunks at `hs` freed one after the other. */
  ghost function FreedAll(l: Layout, hs: seq<nat>): Layout {
    if hs == [] then l else FreedOne(FreedAll(l, hs[..|hs| - 1]), hs[|hs| - 1])
  }

  lemma {:induction false} FreedConcat(l: Layout, hs: seq<nat>, hs': seq<nat>)
    ensures FreedAll(l, hs + hs') == FreedAll(FreedAll(l, hs), hs')
  {
    if hs' == [] {
      assert hs + hs' == hs;
    } else {
      assert (hs + hs')[..|hs + hs'| - 1] == hs + hs'[..|hs'| - 1];
      FreedConcat(l, hs, hs'[..|hs'| - 1]);
    }
  }

  lemma FreedNext(l: Layout, hs: seq<nat>, h: nat)
    ensures FreedAll(l, []) == l && FreedAll(l, hs + [h]) == FreedOne(FreedAll(l, hs), h)
  {
    assert (hs + [h])[..|hs|] == hs;
  }

  /** Live chunks do not overlap. */
  lemma ChunksDisjoint(ring: seq<nat>, owner: seq<Option<nat>>, live: map<nat, nat>, bump: nat, h: nat, h': nat)
    requires Partition(ring, owner, live, bump) && h in live && h' in live && h < h'
    ensures h + live[h] <= h'
  {
    assert HeldBy(owner, h, live[h]) && HeldBy(owner, h', live[h']) && owner[h'] == Some(h');
  }

  /** A cell behind a free cell is free, or the first cell of a live chunk, or was never used. */
  lemma BehindFree(ring: seq<nat>, owner: seq<Option<nat>>, live: map<nat, nat>, bump: nat, c: nat)
    requires Partition(ring, owner, live, bump) && c in ring
    ensures c + 1 in ring || c + 1 in live || c + 1 >= bump
  {
    if c + 1 < bump && owner[c + 1].Some? {
      var h := owner[c + 1].value;
      assert HeldBy(owner, h, live[h]);
    }
  }

  /** Taking a free chunk out of the ring. */
  lemma ChunkTaken(ring: seq<nat>, owner: seq<Option<nat>>, live: map<nat, nat>, bump: nat, c: nat, n: nat, ring': seq<nat>)
    requires Partition(ring, owner, live, bump) && FreeChunk(ring, c, n) && 0 < n
    requires forall k :: k in ring' <==> k in ring && !(c <= k < c + n)
    ensures c + n <= bump && Partition(ring', Given(owner, c, n, Some(c)), live[c := n], bump)
    ensures c !in live && forall k :: c <= k < c + n ==> owner[k].None?
  {
    assert c + n - 1 in ring;
    assert c in ring && owner[c].None?;
    var owner', live' := Given(owner, c, n, Some(c)), live[c := n];
    forall h | h in live' ensures HeldBy(owner', h, live'[h]) {
      if h != c {
        assert HeldBy(owner, h, live[h]);
        forall k | h <= k < h + live[h] ensures owner'[k] == Some(h) {
          assert owner[k] == Some(h) && k !in ring;
        }
      }
    }
  }

  /** Taking a chunk from the cells that were never used. */
  lemma ChunkBumped(ring: seq<nat>, owner: seq<Option<nat>>, live: map<nat, nat>, bump: nat, n: nat)
    requires Partition(ring, owner, live, bump) && bump + n <= |owner| && 0 < n
    ensures Partition(ring, Given(owner, bump, n, Some(bump)), live[bump := n], bump + n)
    ensures bump !in live
  {}

  /** Giving back all but the first `s` cells of a chunk. */
  lemma ChunkShrunk(ring: seq<nat>, owner: seq<Option<nat>>, live: map<nat, nat>, bump: nat, h: nat, s: nat, ring': seq<nat>)
    requires Partition(ring, owner, live, bump) && h in live && s < live[h]
    requires forall k :: k in ring' <==> k in ring || h + s <= k < h + live[h]
    ensures Partition(ring', Given(owner, h + s, live[h] - s, None), if s == 0 then live - {h} else live[h := s], bump)
  {
    var live' := if s == 0 then live - {h} else live[h := s];
    var owner' := Given(owner, h + s, live[h] - s, None);
    assert HeldBy(owner, h, live[h]);
    forall h' | h' in live' ensures HeldBy(owner', h', live'[h']) {
      assert HeldBy(owner, h', live[h']);
      forall k | h' <= k < h' + live'[h'] ensures owner'[k] == Some(h') {
        assert owner[k] == Some(h');
        assert h <= k < h + live[h] ==> owner[k] == Some(h);
      }
    }
  }

  // ---- What every layout keeps

  /** Every cell is unused, or in the ring, or in one live chunk, and the counter counts the latter. */
  ghost predicate Whole(l: Layout, size: nat) {
    && |l.owner| == size && Partition(l.ring, l.owner, l.chunks, l.bump)
    && Distinct(l.ring) && l.cnt + |l.ring| == l.bump
  }

  /** A chunk that is granted lies in the store and is no live one, and the layout stays whole. */
  lemma GrantedWhole(l: Layout, size: nat, c: nat, n: nat)
    requires Whole(l, size) && n > 0 && Outcome(l.ring, l.bump, size, l.cnt, n) == Allocated(c)
    ensures c + n <= size && c !in l.chunks && Whole(Granted(l, size, c, n), size)
  {
    hide Partition, Except, EnteredBehind;
    if l.bump + n <= size {
      ChunkBumped(l.ring, l.owner, l.chunks, l.bump, n);
    } else {
      RunGranted(l, size, c, n);
      var ring' := Except(EnteredBehind(l.ring, c), c, n);
      RunExcepted(l.ring, c, n);
      ChunkTaken(l.ring, l.owner, l.chunks, l.bump, c, n, ring');
      BumpWithin(l, size);
    }
  }

  lemma BumpWithin(l: Layout, size: nat)
    requires Whole(l, size)
    ensures l.bump <= size
  {}

  lemma RunGranted(l: Layout, size: nat, c: nat, n: nat)
    requires Whole(l, size) && n > 0 && Outcome(l.ring, l.bump, size, l.cnt, n) == Allocated(c) && l.bump + n > size
    ensures c in l.ring && FreeChunk(l.ring, c, n) && c + n <= l.bump
  {
    hide Partition, OpenRun, FirstStart;
    FirstStartIs(l.ring, l.bump, size, n, 0);
    assert l.ring[0..] == l.ring;
    FreeRun(l.ring, l.bump, size, c, n);
  }

  lemma RunExcepted(r: seq<nat>, c: nat, n: nat)
    requires Distinct(r) && c in r && FreeChunk(r, c, n)
    ensures var s := Except(EnteredBehind(r, c), c, n);
            && Distinct(s) && |s| == |r| - n && forall k :: k in s <==> k in r && !(c <= k < c + n)
  {
    hide Except, Distinct;
    var t := EnteredBehind(r, c);
    RotatedMembers(r, Position(r, c) + 1);
    RotatedDistinct(r, Position(r, c) + 1);
    ExceptMembers(t, c, n);
    ExceptLength(t, c, n);
  }

  lemma FreedWhole(l: Layout, size: nat, h: nat)
    requires Whole(l, size) && h in l.chunks
    ensures Whole(FreedOne(l, h), size) && FreedOne(l, h).chunks == l.chunks - {h}
  {
    hide Partition, Distinct;
    ChunkOwned(l.ring, l.owner, l.chunks, l.bump, h);
    SpanAdded(l.ring, h, l.chunks[h]);
    ChunkShrunk(l.ring, l.owner, l.chunks, l.bump, h, 0, l.ring + Span(h, l.chunks[h]));
  }

  lemma ChunkOwned(ring: seq<nat>, owner: seq<Option<nat>>, live: map<nat, nat>, bump: nat, h: nat)
    requires Partition(ring, owner, live, bump) && h in live
    ensures 0 < live[h] && h + live[h] <= |owner| && forall k :: h <= k < h + live[h] ==> k !in ring
  {
    assert HeldBy(owner, h, live[h]);
  }

  lemma SpanAdded(r: seq<nat>, h: nat, n: nat)
    requires Distinct(r) && forall k :: h <= k < h + n ==> k !in r
    ensures Distinct(r + Span(h, n)) && forall k :: k in r + Span(h, n) <==> k in r || h <= k < h + n
  {
    var s, t := Span(h, n), r + Span(h, n);
    forall k | h <= k < h + n ensures k in s {
      assert s[k - h] == k;
    }
    forall i, j | 0 <= i < j < |t| ensures t[i] != t[j] {
      assert j >= |r| ==> t[j] == s[j - |r|];
      assert i < |r| ==> t[i] in r;
    }
  }

  lemma {:induction false} FreedAllWhole(l: Layout, size: nat, hs: seq<nat>)
    requires Whole(l, size) && Distinct(hs) && forall h :: h in hs ==> h in l.chunks
    ensures Whole(FreedAll(l, hs), size)
    ensures forall h :: h in FreedAll(l, hs).chunks <==> h in l.chunks && h !in hs
  {
    if hs != [] {
      var front, last := hs[..|hs| - 1], hs[|hs| - 1];
      assert hs == front + [last];
      assert last !in front;
      FreedAllWhole(l, size, front);
      FreedWhole(FreedAll(l, front), size, last);
    }
  }

  /** From `b` on no `op` is set, and links lead to no cell. */
  ghost predicate Blank(op: seq<bool>, prev: seq<nat>, b: nat) {
    |op| == |prev| && forall c :: b <= c < |op| ==> !op[c] && prev[c] >= |op|
  }

  /** Only links of cells in `r` have changed. */
  ghost predicate KeptOutside(r: seq<nat>, prev: seq<nat>, prev': seq<nat>) {
    |prev| == |prev'| && forall k :: 0 <= k < |prev| && k !in r ==> prev'[k] == prev[k]
  }

  ghost predicate InUse(r: seq<nat>, b: nat) {
    forall c :: c in r ==> c < b
  }

  /** The first two cells, linked to each other; nothing is live. */
  lemma TwoCells(next: seq<nat>, prev: seq<nat>, owner: seq<Option<nat>>)
    requires |next| == |prev| == |owner| >= 2
    requires next[0] == prev[0] == 1 && next[1] == prev[1] == 0
    requires forall c :: 0 <= c < |owner| ==> owner[c].None?
    ensures IsRing([0, 1], next, prev) && Partition([0, 1], owner, map[], 2)
  {}

  class Store {
    const size: nat
    const op: array<bool>  // is the cell's `op` nonzero?
    const next: array<nat>
    const prev: array<nat>
    var ptr: nat
    var bump: Option<nat>
    var cnt: int  // cells in live chunks
    ghost var ring: seq<nat>
    ghost var owner: seq<Option<nat>>
    ghost var live: map<nat, nat>  // the first cells of the live chunks, with their lengths

    ghost function BumpStart(): nat
      reads this`bump
    {
      if bump.Some? then bump.value else size
    }

    /** The free cells form a doubly linked ring. */
    ghost predicate Linked()
      reads this, next, prev
    {
      && next != prev && next.Length == prev.Length == op.Length == size
      && IsRing(ring, next[..], prev[..]) && ring[0] == ptr
    }

    ghost predicate Valid()
      reads this, op, next, prev
    {
      && Linked()
      && |owner| == size && Partition(ring, owner, live, BumpStart())
      && (forall c :: c in ring ==> c < size && !op[c])
      && cnt + |ring| + (size - BumpStart()) == size
      && Untouched()
    }

    /** The cells that were never used are blank. */
    ghost predicate Untouched()
      reads this`bump, op, prev
    {
      op.Length == prev.Length == size && Blank(op[..], prev[..], BumpStart())
    }

    ghost function Laid(): Layout
      reads this
    {
      Layout(ring, owner, live, BumpStart(), cnt)
    }

    /** What `Alloc` will come to. */
    ghost function Expected(n: nat): AllocResult
      reads this
    {
      Outcome(ring, BumpStart(), size, cnt, n)
    }

    /** The owners of the live chunks have set `op` in their first cells. */
    ghost predicate Filled()
      reads this`live, op
    {
      forall h :: h in live ==> h < op.Length && op[h]
    }

    /** `cells_init` */
    constructor (cells: nat)
      requires cells >= 3
      ensures Valid() && Filled() && size == cells && live == map[] && cnt == 0
      ensures ring == [0, 1] && bump == Some(2) && Laid() == NewLayout(cells)
      ensures fresh(op) && fresh(next) && fresh(prev)
    {
      size := cells;
      op := new bool[cells](_ => false);
      next := new nat[cells](i => if i == 0 then 1 else if i == 1 then 0 else cells);
      prev := new nat[cells](i => if i == 0 then 1 else if i == 1 then 0 else cells);
      ptr := 0;
      bump := Some(2);
      cnt := 0;
      ring := [0, 1];
      owner := seq(cells, _ => None);
      live := map[];
      new;
      hide IsRing, Partition;
      TwoCells(next[..], prev[..], owner);
    }

    /** `cells_next` */
    method CellsNext() returns (p: nat)
      requires Linked()
      modifies this`ptr, this`ring
      ensures p == old(ptr) && Linked() && ring == Turned(old(ring))
    {
      p := ptr;
      TurnedRing(ring, next[..], prev[..]);
      ptr := next[ptr];
      ring := Turned(ring);
    }

    /** `cell_alloc`: take one cell out of the ring, unless it is the last, or was never linked. */
    method CellAlloc(c: nat) returns (r: Unlinking)
      requires Linked() && (c in ring || (c < size && prev[c] >= size))
      modifies this`ptr, this`ring, next, prev
      ensures Linked() && KeptOutside(old(ring), old(prev[..]), prev[..])
      ensures r == NoLink <==> c !in old(ring)
      ensures r == Last <==> old(ring) == [c]
      ensures r != Taken ==> ring == old(ring)
      ensures r == Taken ==> |ring| == |old(ring)| - 1 && forall k :: k in ring <==> k in old(ring) && k != c
      ensures r == Taken ==> ring == Except(old(ring), c, 1)
    {
      hide IsRing, Except;
      if c in ring {
        Neighbours(ring, next[..], prev[..], c);
      }
      var before := prev[c];
      if before >= size {
        return NoLink;
      }
      var after := next[c];
      if ptr == c {
        TurnedMembers(ring, c);
        TurnedExcept(ring);
        var p := CellsNext();
      }
      if c == before || c == after {
        return Last;
      }
      Unlink(c, before, after);
      return Taken;
    }

    /** Link the neighbours of `c` to each other. */
    method Unlink(c: nat, before: nat, after: nat)
      requires Linked() && c in ring && c != ptr && c < size && prev[c] == before < size && next[c] == after < size
      requires before in ring && after in ring && Distinct(ring)
      modifies this`ring, next, prev
      ensures Linked() && KeptOutside(old(ring), old(prev[..]), prev[..])
      ensures |ring| == |old(ring)| - 1 && forall k :: k in ring <==> k in old(ring) && k != c
      ensures ring == Except(old(ring), c, 1)
    {
      hide IsRing, Except, Distinct;
      ghost var j := IndexOf(ring, c);
      ghost var next0, prev0 := next[..], prev[..];
      next[before] := after;
      prev[after] := before;
      Unlinked(ring, next0, prev0, j, next[..], prev[..]);
      ExceptOne(ring, j);
      ring := Without(ring, j);
    }

    /** What the search relies on: the free cells are `r`, those from `b` on were never used, and all
        others have an owner. */
    ghost predicate Searchable(r: seq<nat>, b: nat)
      reads this`owner, this`live, op
    {
      && |owner| == size == op.Length && Partition(r, owner, live, b) && Filled()
      && Distinct(r) && (forall c :: c in r ==> c < b && !op[c]) && forall c :: b <= c < size ==> !op[c]
    }

    /** The search of `closure_alloc_cells`: walk the ring, and from each cell count the cells without
        `op`.  It ends at the first cell in ring order where an open run starts. */
    method Search(n: nat) returns (found: Option<nat>)
      requires Valid() && Filled() && n > 0
      modifies this`ptr, this`ring
      ensures Linked() && |ring| == |old(ring)| && forall k :: k in ring <==> k in old(ring)
      ensures found == FirstStart(old(ring), BumpStart(), size, n, 0)
      ensures found.Some? ==> found.value in old(ring) && ring == EnteredBehind(old(ring), found.value)
      ensures found.None? ==> old(ring) != [] && ring == Turned(old(ring))
    {
      hide *;
      ghost var r, b := ring, BumpStart();
      SearchStarts(n);
      var p := CellsNext();
      var mark, count: nat, c := p, 0, p;
      ghost var k: nat := 1;
      while count < n
        invariant Linked() && op.Length == size && 1 <= k <= |r| && ring == Rotated(r, k) && b == BumpStart()
        invariant count <= n && p == c + count && c == r[k - 1] && OpenRun(r, b, size, c, count)
        invariant FirstStart(r, b, size, n, 0) == FirstStart(r, b, size, n, k - 1) && Searchable(r, b) && Distinct(r)
        decreases |r| - k, n - count
      {
        if p < size && !op[p] {
          FreeOrHead(r, b, c, count);
          count, p := count + 1, p + 1;
        } else {
          NoLonger(r, b, k - 1, n, count);
          count := 0;
          p := NextStart(r, b, k);
          c := p;
          if c == mark {
            NoneLeft(r, b, size, k, n);
            return None;
          }
          k := k + 1;
        }
      }
      RotatedMembers(r, k);
      StartFound(r, b, size, k - 1, n);
      PositionIs(r, k - 1);
      return Some(c);
    }

    lemma SearchStarts(n: nat)
      requires Valid() && Filled()
      ensures Linked() && |ring| > 0 && ptr == ring[0] && Searchable(ring, BumpStart()) && Distinct(ring) && op.Length == size
      ensures Turned(ring) == Rotated(ring, 1) && OpenRun(ring, BumpStart(), size, ring[0], 0)
    {}

    method NextStart(ghost r: seq<nat>, ghost b: nat, ghost k: nat) returns (p: nat)
      requires Linked() && 1 <= k <= |r| && ring == Rotated(r, k) && Distinct(r) && Searchable(r, b)
      modifies this`ptr, this`ring
      ensures p == r[if k < |r| then k else 0] && Linked() && OpenRun(r, b, size, p, 0)
      ensures k < |r| ==> ring == Rotated(r, k + 1) && p != r[0]
      ensures k == |r| ==> |ring| == |r| && ring == Turned(r) && forall c :: c in ring <==> c in r
    {
      hide IsRing, Turned, Partition, Store.Filled;
      assert Rotated(r, k)[0] == r[if k < |r| then k else 0];
      TurnedMembers(Rotated(r, k), ptr);
      RotatedMembers(r, k);
      InsideStore(r, b, r[if k < |r| then k else 0]);
      assert k == |r| ==> Rotated(r, k) == r;
      p := CellsNext();
      if k < |r| { RotatedOnce(r, k); }
    }

    lemma InsideStore(r: seq<nat>, b: nat, c: nat)
      requires Searchable(r, b) && c in r
      ensures c < b <= size
    {}

    /** Behind an open run there is an open cell, or one with `op` set. */
    lemma FreeOrHead(r: seq<nat>, b: nat, c: nat, count: nat)
      requires Searchable(r, b) && c in r && OpenRun(r, b, size, c, count) && c + count < size && !op[c + count]
      ensures OpenRun(r, b, size, c, count + 1)
    {
      if count > 0 && c + count - 1 in r {
        BehindFree(r, owner, live, b, c + count - 1);
      }
    }

    lemma NoLonger(r: seq<nat>, b: nat, i: nat, n: nat, count: nat)
      requires Searchable(r, b) && i < |r| && count < n
      requires r[i] + count >= size || op[r[i] + count]
      ensures FirstStart(r, b, size, n, i) == FirstStart(r, b, size, n, i + 1)
    {
      assert !OpenRun(r, b, size, r[i], n) by {
        if r[i] + n <= size { assert r[i] + count !in r && r[i] + count < b; }
      }
    }

    /** Take the run that was found out of the ring, cell by cell, as far as possible: the last cell of
        the ring stays, and a cell that was never linked cannot be taken out. */
    method Remove(c: nat, n: nat) returns (r: Unlinking)
      requires Linked() && Untouched() && InUse(ring, BumpStart())
      requires n > 0 && c in ring && OpenRun(ring, BumpStart(), size, c, n)
      modifies this`ptr, this`ring, next, prev
      ensures Linked() && KeptOutside(old(ring), old(prev[..]), prev[..])
      ensures r == Last <==> |old(ring)| == FreePart(BumpStart(), c, n)
      ensures r == NoLink <==> |old(ring)| != FreePart(BumpStart(), c, n) && c + n > BumpStart()
      ensures r == Last ==> ring == [c + FreePart(BumpStart(), c, n) - 1]
      ensures r != Last ==> |ring| == |old(ring)| - FreePart(BumpStart(), c, n)
      ensures r != Last ==> forall k :: k in ring <==> k in old(ring) && !(c <= k < c + n)
      ensures r != Last ==> ring == Except(old(ring), c, FreePart(BumpStart(), c, n))
    {
      hide *;
      ghost var rs, b, prev0 := ring, BumpStart(), prev[..];
      var i: nat := 0;
      ExceptNone(ring, c, 0);
      RemoveStarts(c);
      while i < n
        invariant Linked() && op.Length == prev.Length == size && b == BumpStart()
        invariant 0 <= i <= n && |ring| == |rs| - i && Removing(rs, ring, b, size, c, n, i)
        invariant KeptOutside(rs, prev0, prev[..]) && Blank(op[..], prev[..], b) && ring == Except(rs, c, i)
      {
        ghost var before, prev1 := ring, prev[..];
        NextToTake(rs, before, b, size, c, n, i, op[..], prev1);
        r := CellAlloc(c + i);
        Retained(rs, before, prev0, prev1, prev[..], op[..], b, size, c, n, i);
        if r != Taken {
          Stopped(rs, before, b, size, c, n, i);
          return;
        }
        OneTaken(rs, before, ring, b, size, c, n, i);
        ExceptOneMore(rs, c, i);
        i := i + 1;
      }
      r := Taken;
      AllTaken(rs, ring, b, size, c, n);
    }

    lemma RemoveStarts(c: nat)
      requires Linked() && Untouched() && InUse(ring, BumpStart()) && c in ring
      ensures op.Length == prev.Length == size && Blank(op[..], prev[..], BumpStart())
      ensures KeptOutside(ring, prev[..], prev[..])
      ensures forall n :: n > 0 && OpenRun(ring, BumpStart(), size, c, n) ==> Removing(ring, ring, BumpStart(), size, c, n, 0)
    {}

    /** `closure_alloc_cells` */
    method Alloc(n: nat) returns (r: AllocResult)
      requires Valid() && Filled() && n > 0
      modifies this, next, prev
      ensures r == old(Expected(n)) && BumpStart() <= size
      ensures r.Allocated? ==> Valid() && Took(old(owner), old(live), old(cnt), r.cell, n)
      ensures r.Allocated? ==> BumpStart() == if old(BumpStart()) + n <= size then old(BumpStart()) + n else old(BumpStart())
      ensures r.Allocated? ==> ring == RingAfter(old(ring), old(BumpStart()), size, r.cell, n)
      ensures r.Failed? ==> live == old(live) && owner == old(owner) && cnt == old(cnt) && BumpStart() == old(BumpStart())
      ensures r.Failed? && r.error !in {LastCell, NeverLinked} ==> Valid() && old(ring) != []
      ensures r.Failed? && r.error !in {LastCell, NeverLinked} ==>
                ring == if r.error == NotFound then Turned(old(ring)) else old(ring)
      ensures r.Failed? && r.error in {LastCell, NeverLinked} ==> Linked() && LeftBehind(old(ring), n, r.error)
    {
      hide *;
      BumpInside();
      ExpectedIs(n);
      if n > MAX_ALLOC_SIZE {
        return Failed(TooLarge);
      }
      if cnt + n > size {
        return Failed(OutOfCells);
      }
      if bump.Some? && bump.value + n <= size {
        var c := TakeUnused(n);
        RingAfterIs(ring, c, size, c, n);
        return Allocated(c);
      }
      ForgetUnused(n == 1);
      ghost var ring0 := ring;
      r := TakeFree(n);
      if r.Allocated? {
        RingAfterIs(ring0, BumpStart(), size, r.cell, n);
      }
    }

    /** The ring that an allocation leaves behind that failed on a cell of the run it found: the last cell
        of the run, which was the whole ring; or the ring without the free cells of the run, which was
        the last one before the cells that were never linked. */
    ghost predicate LeftBehind(ring0: seq<nat>, n: nat, error: AllocError)
      reads this
    {
      var f := FirstStart(ring0, BumpStart(), size, n, 0);
      && f.Some? && f.value in ring0
      && var c, k := f.value, FreePart(BumpStart(), f.value, n);
         if error == LastCell then ring == [c + k - 1]
         else ring == Except(EnteredBehind(ring0, c), c, k) && forall i :: i in ring <==> i in ring0 && i < c
    }

    /** The chunk of `n` cells from `c` on was free or unused, and is live now; all else is as it was. */
    ghost predicate Took(owner0: seq<Option<nat>>, live0: map<nat, nat>, cnt0: int, c: nat, n: nat)
      reads this
    {
      && c !in live0 && live == live0[c := n] && cnt == cnt0 + n
      && c + n <= |owner0| && (forall k :: c <= k < c + n ==> owner0[k].None?)
      && owner == Given(owner0, c, n, Some(c))
    }

    lemma BumpInside()
      requires Valid()
      ensures BumpStart() <= size && ring != []
    {}

    lemma ExpectedIs(n: nat)
      requires n > 0
      ensures Expected(n) ==
              if n > MAX_ALLOC_SIZE then Failed(TooLarge)
              else if cnt + n > size then Failed(OutOfCells)
              else if bump.Some? && bump.value + n <= size then Allocated(bump.value)
              else FromRing(ring, BumpStart(), size, n)
      ensures bump.Some? && bump.value + n <= size ==> BumpStart() + n <= size && BumpStart() == bump.value
      ensures !(bump.Some? && bump.value + n <= size) ==> BumpStart() + n > size
    {}

    lemma UnusedLeft()
      requires cnt < size && BumpStart() < size
      ensures Expected(1) == Allocated(BumpStart())
    {}

    lemma ExpectedOutcome(n: nat)
      ensures Expected(n) == Outcome(ring, BumpStart(), size, cnt, n)
    {}

    /** Once the unused cells are gone, the allocator stops looking for them. */
    method ForgetUnused(forget: bool)
      requires Valid() && Filled() && (forget ==> BumpStart() + 1 > size)
      modifies this`bump
      ensures Valid() && Filled() && BumpStart() == old(BumpStart())
    {
      hide IsRing, Partition;
      BumpInside();
      if forget { bump := None; }
    }

    /** Allocate from the cells that were never used. */
    method TakeUnused(n: nat) returns (c: nat)
      requires Valid() && n > 0 && bump.Some? && bump.value + n <= size
      modifies this`bump, this`cnt, this`owner, this`live
      ensures Valid() && Took(old(owner), old(live), old(cnt), c, n)
      ensures c == old(BumpStart()) && BumpStart() == c + n
    {
      hide IsRing;
      c := bump.value;
      ChunkBumped(ring, owner, live, c, n);
      bump := Some(c + n);
      cnt := cnt + n;
      owner, live := Given(owner, c, n, Some(c)), live[c := n];
    }

    /** Allocate from the ring. */
    method TakeFree(n: nat) returns (r: AllocResult)
      requires Valid() && Filled() && n > 0
      modifies this`ptr, this`ring, this`cnt, this`owner, this`live, next, prev
      ensures r == FromRing(old(ring), BumpStart(), size, n)
      ensures r.Allocated? ==> Valid() && Took(old(owner), old(live), old(cnt), r.cell, n)
      ensures r.Allocated? ==> r.cell in old(ring) && ring == Except(EnteredBehind(old(ring), r.cell), r.cell, n)
      ensures r.Failed? ==> live == old(live) && owner == old(owner) && cnt == old(cnt)
      ensures r == Failed(NotFound) ==> Valid() && old(ring) != [] && ring == Turned(old(ring))
      ensures r.Failed? && r.error in {LastCell, NeverLinked} ==> Linked() && LeftBehind(old(ring), n, r.error)
      ensures r.Failed? ==> r.error in {NotFound, LastCell, NeverLinked}
    {
      hide IsRing, Partition, OpenRun, FirstStart, KeptOutside, Blank, Except, EnteredBehind, RingAfter, FreeChunk;
      ghost var r0, b, prev0 := ring, BumpStart(), prev[..];
      StartsInUse();
      var found := Search(n);
      FirstStartIs(r0, b, size, n, 0);
      assert r0[0..] == r0;
      if found.None? {
        SamePartition(r0, ring, owner, live, b);
        return Failed(NotFound);
      }
      var c := found.value;
      SameOpen(r0, ring, b, size, c, n);
      ghost var r1 := ring;
      var res := Remove(c, n);
      if res == Last {
        return Failed(LastCell);
      }
      if res == NoLink {
        BeyondRun(r0, ring, b, c, n);
        return Failed(NeverLinked);
      }
      FreeRun(r0, b, size, c, n);
      ChunkTaken(r0, owner, live, b, c, n, ring);
      BlankKept(op[..], prev0, prev[..], b, r1);
      cnt := cnt + n;
      owner, live := Given(owner, c, n, Some(c)), live[c := n];
      return Allocated(c);
    }

    lemma StartsInUse()
      requires Valid()
      ensures InUse(ring, BumpStart()) && op.Length == prev.Length == size && Blank(op[..], prev[..], BumpStart())
      ensures prev.Length == size
    {}

    /** With no live chunk, no cell is counted as used. */
    lemma NothingLive()
      requires Valid() && live == map[]
      ensures cnt == 0
    {
      var b := BumpStart();
      forall c | 0 <= c < b ensures c in ring {
        assert owner[c].None?;
      }
      DistinctBelow(ring, b);
    }

    lemma FreeCount()
      requires Valid()
      ensures cnt + |ring| == BumpStart() <= size && |owner| == size
      ensures Partition(ring, owner, live, BumpStart()) && (bump.None? ==> BumpStart() == size)
      ensures bump.Some? ==> BumpStart() == bump.value
    {}

    lemma RingInUse()
      requires Valid()
      ensures ring != [] && forall c :: c in ring ==> c < size
    {}

    lemma LiveBelow(h: nat)
      requires Valid() && h in live
      ensures h < size && 0 < live[h] && h + live[h] <= |owner|
    {}

    /** The owner of the chunk at `h` fills in its first cell. */
    method Fill(h: nat)
      requires Valid() && h in live
      modifies op
      ensures Valid() && op[h] && forall k :: 0 <= k < size && k != h ==> op[k] == old(op[k])
    {
      assert HeldBy(owner, h, live[h]) && owner[h] == Some(h);
      op[h] := true;
    }

    /** `closure_shrink`: all but the first `s` cells of a live chunk go back to the ring; `n` is the
        chunk's length, which the cell's own `size` field gives. */
    method Shrink(h: nat, n: nat, s: nat)
      requires Valid() && h in live && live[h] == n && (s < n ==> op[h])
      modifies this`ring, this`owner, this`live, this`cnt, op, next, prev
      ensures Valid()
      ensures s >= n ==> live == old(live) && owner == old(owner) && ring == old(ring) && cnt == old(cnt)
      ensures s < n ==>
                && live == (if s == 0 then old(live) - {h} else old(live)[h := s])
                && owner == Given(old(owner), h + s, n - s, None)
                && cnt == old(cnt) - (n - s)
                && |ring| == |old(ring)| + n - s
                && ring == old(ring) + Span(h + s, n - s)
                && forall k :: k in ring <==> k in old(ring) || h + s <= k < h + n
      ensures forall k :: 0 <= k < size && !(h + s <= k < h + n) ==> op[k] == old(op[k])
      ensures old(Filled()) ==> Filled()
    {
      hide IsRing, Partition, KeptOutside, Blank;
      if s < n {
        ghost var r, op0, prev0 := ring, op[..], prev[..];
        ChunkOutside(h);
        StartsInUse();
        SpliceBack(h + s, h + n);
        BlankAfter(op0, op[..], prev0, prev[..], BumpStart(), r, ring, h + s, h + n);
        ChunkShrunk(r, owner, live, BumpStart(), h, s, ring);
        owner := Given(owner, h + s, n - s, None);
        live := if s == 0 then live - {h} else live[h := s];
        cnt := cnt - (n - s);
      }
    }

    lemma ChunkOutside(h: nat)
      requires Valid() && h in live
      ensures h + live[h] <= BumpStart() <= size
      ensures forall k :: h <= k < h + live[h] ==> k !in ring && (k in live ==> k == h)
    {
      assert HeldBy(owner, h, live[h]);
      forall k | k in live ensures owner[k] == Some(k) {
        assert HeldBy(owner, k, live[k]);
      }
    }

    /** The loop of `closure_shrink`: link the cells of `[from, to)` in before the entry of the ring. */
    method SpliceBack(from: nat, to: nat)
      requires Linked() && from <= to <= size && forall k :: from <= k < to ==> k !in ring
      modifies this`ring, op, next, prev
      ensures Linked() && |ring| == |old(ring)| + (to - from) && ring == old(ring) + Span(from, to - from)
      ensures forall k :: k in ring <==> k in old(ring) || from <= k < to
      ensures forall k :: 0 <= k < size ==> op[k] == (old(op[k]) && !(from <= k < to))
      ensures KeptOutside(ring, old(prev[..]), prev[..])
    {
      hide *;
      ghost var r, op0, prev0 := ring, op[..], prev[..];
      ChainStarts();
      var last := prev[ptr];
      var i := from;
      while i < to
        invariant from <= i <= to && next != prev && next.Length == prev.Length == op.Length == size
        invariant IsChain(ring, next[..], prev[..]) && |ring| > 0 && ring[|ring| - 1] == last && ring[0] == ptr
        invariant Added(r, ring, from, i) && Cleared(op0, op[..], from, i) && KeptOutside(ring, prev0, prev[..])
      {
        ghost var ring1, prev1 := ring, prev[..];
        AddedOne(r, ring, from, i, to);
        ClearedOne(op0, op[..], from, i);
        Append(last, i);
        KeptAfter(ring1, ring, prev0, prev1, prev[..], i, last);
        last := i;
        i := i + 1;
      }
      ghost var prev1 := prev[..];
      Close(last);
      KeptAfter(ring, ring, prev0, prev1, prev[..], ptr, last);
      AddedAll(r, ring, from, to, op0, op[..]);
    }

    lemma ChainStarts()
      requires Linked()
      ensures next != prev && next.Length == prev.Length == op.Length == size && |ring| > 0 && ptr < size
      ensures IsChain(ring, next[..], prev[..]) && ring[|ring| - 1] == prev[ptr] && ring[0] == ptr
      ensures forall from: nat :: Added(ring, ring, from, from) && Cleared(op[..], op[..], from, from)
      ensures KeptOutside(ring, prev[..], prev[..])
    {}

    method Append(last: nat, i: nat)
      requires next != prev && next.Length == prev.Length == op.Length == size
      requires IsChain(ring, next[..], prev[..]) && |ring| > 0 && ring[|ring| - 1] == last && i < size && i !in ring
      modifies this`ring, op, next, prev
      ensures IsChain(ring, next[..], prev[..]) && ring == old(ring) + [i] && op[..] == old(op[..])[i := false]
      ensures prev[..] == old(prev[..])[i := last]
    {
      ghost var next0, prev0 := next[..], prev[..];
      op[i] := false;
      prev[i] := last;
      next[last] := i;
      LinkedBehind(ring, next0, prev0, i, next[..], prev[..]);
      ring := ring + [i];
    }

    method Close(last: nat)
      requires next != prev && next.Length == prev.Length == op.Length == size
      requires IsChain(ring, next[..], prev[..]) && |ring| > 0 && ring[|ring| - 1] == last && ring[0] == ptr
      modifies next, prev
      ensures Linked() && ptr in ring && ptr < prev.Length && prev[..] == old(prev[..])[ptr := last]
    {
      ghost var next0, prev0 := next[..], prev[..];
      prev[ptr] := last;
      next[last] := ptr;
      Closed(ring, next0, prev0, next[..], prev[..]);
    }
  }

  /** A request can run into unused cells: of seven cells, 2, 3 and 4 are handed out one by one, and 4 comes
      back.  If three are asked for now, cell 4 is free, and behind it there are only 5 and 6, which were
      never linked. */
  method RunsIntoUnused() returns (store: Store)
    ensures fresh(store) && fresh(store.op) && fresh(store.next) && fresh(store.prev)
    ensures store.Valid() && store.Filled() && store.size == 7 && store.live == map[2 := 1, 3 := 1]
    ensures store.Expected(3) == Failed(NeverLinked)
  {
    hide *;
    store := new Store(7);
    store.FreeCount();
    store.UnusedLeft();
    var a := OneCell(store);
    store.UnusedLeft();
    var b := OneCell(store);
    store.UnusedLeft();
    var c := OneCell(store);
    store.Shrink(c, 1, 0);
    store.FreeCount();
    SevenCells(store.ring, store.owner, store.live);
    store.ExpectedOutcome(3);
  }

  /** A request can be for the last cell of the ring: of three cells, one is handed out that was never used,
      and one that was free.  There is a third, and as many are counted as left, but it cannot be had. */
  method WantsLastCell() returns (store: Store)
    ensures fresh(store) && fresh(store.op) && fresh(store.next) && fresh(store.prev)
    ensures store.Valid() && store.Filled() && store.size == 3 && store.live == map[2 := 1, 0 := 1] && store.cnt == 2
    ensures store.Expected(1) == Failed(LastCell)
  {
    hide *;
    store := new Store(3);
    store.FreeCount();
    store.UnusedLeft();
    var a := OneCell(store);
    store.FreeCount();
    store.ExpectedOutcome(1);
    NoneUnused(store.ring, 3, store.cnt);
    var b := OneCell(store);
    store.FreeCount();
    store.ExpectedOutcome(1);
    store.RingInUse();
    NoneUnused(store.ring, 3, store.cnt);
  }

  /** Where no cell is left unused, a request for one is met with the first cell of the ring, unless it is
      the last. */
  lemma NoneUnused(ring: seq<nat>, size: nat, cnt: int)
    requires ring != [] && cnt + 1 <= size && forall c :: c in ring ==> c < size
    ensures Outcome(ring, size, size, cnt, 1) == if |ring| == 1 then Failed(LastCell) else Allocated(ring[0])
  {
    assert ring[0] in ring;
    assert OpenRun(ring, size, size, ring[0], 1);
  }

  method OneCell(store: Store) returns (c: nat)
    requires store.Valid() && store.Filled() && store.Expected(1).Allocated?
    modifies store, store.op, store.next, store.prev
    ensures store.Valid() && store.Filled() && c == old(store.Expected(1)).cell
    ensures store.live == old(store.live)[c := 1] && store.cnt == old(store.cnt) + 1 && c in store.live
    ensures c < store.op.Length && store.op[c]
    ensures old(store.BumpStart()) < store.size ==>
              store.BumpStart() == old(store.BumpStart()) + 1 && store.ring == old(store.ring)
    ensures old(store.BumpStart()) >= store.size ==> store.BumpStart() == old(store.BumpStart())
  {
    hide IsRing, Partition, Outcome;
    var r := store.Alloc(1);
    c := r.cell;
    store.Fill(c);
  }

  lemma SevenCells(ring: seq<nat>, owner: seq<Option<nat>>, live: map<nat, nat>)
    requires Partition(ring, owner, live, 5) && |owner| == 7 && live == map[2 := 1, 3 := 1] && |ring| == 3
    ensures Outcome(ring, 5, 7, 2, 3) == Failed(NeverLinked)
  {
    assert 2 in live && 3 in live;
    assert HeldBy(owner, 2, live[2]) && HeldBy(owner, 3, live[3]) && owner[2] == Some(2) && owner[3] == Some(3);
    assert owner[4].None?;
    assert 4 in ring && OpenRun(ring, 5, 7, 4, 3);
    forall c | c in ring && c != 4 ensures !OpenRun(ring, 5, 7, c, 3) {
      assert c == 0 || c == 1;
      assert 2 !in ring;
    }
    FirstStartIs(ring, 5, 7, 3, 0);
    assert ring[0..] == ring;
  }

  /** Freeing a chunk undoes its allocation: the same chunks are live, and as many cells are free. */
  method FreeUndoesAlloc(store: Store, n: nat) returns (r: AllocResult)
    requires store.Valid() && store.Filled() && n > 0
    modifies store, store.op, store.next, store.prev
    ensures r == old(store.Expected(n))
    ensures r.Allocated? ==> store.Valid() && store.Filled()
    ensures store.live == old(store.live) && store.owner == old(store.owner) && store.cnt == old(store.cnt)
  {
    hide IsRing, Partition, Outcome, Blank, RingAfter, Except, EnteredBehind;
    r := store.Alloc(n);
    if r.Allocated? {
      store.Fill(r.cell);
      store.Shrink(r.cell, n, 0);
    }
  }

  /** `s` is `r` followed by the cells of `[from, to)`. */
  ghost predicate Added(r: seq<nat>, s: seq<nat>, from: nat, to: nat) {
    from <= to && |s| == |r| + to - from && s == r + Span(from, to - from) && forall k :: k in s <==> k in r || from <= k < to
  }

  ghost predicate Cleared(op: seq<bool>, op': seq<bool>, from: nat, to: nat) {
    |op'| == |op| && forall k :: 0 <= k < |op| ==> op'[k] == (op[k] && !(from <= k < to))
  }

  lemma AddedOne(r: seq<nat>, s: seq<nat>, from: nat, i: nat, to: nat)
    requires Added(r, s, from, i) && i < to && forall k :: from <= k < to ==> k !in r
    ensures i !in s && Added(r, s + [i], from, i + 1)
  {}

  lemma ClearedOne(op: seq<bool>, op': seq<bool>, from: nat, i: nat)
    requires Cleared(op, op', from, i) && from <= i < |op|
    ensures |op'| == |op| && Cleared(op, op'[i := false], from, i + 1)
  {}

  lemma AddedAll(r: seq<nat>, s: seq<nat>, from: nat, to: nat, op: seq<bool>, op': seq<bool>)
    requires Added(r, s, from, to) && Cleared(op, op', from, to)
    ensures |s| == |r| + to - from && forall k :: k in s <==> k in r || from <= k < to
    ensures s == r + Span(from, to - from)
    ensures |op'| == |op| && forall k :: 0 <= k < |op| ==> op'[k] == (op[k] && !(from <= k < to))
  {}

  // ---- Taking a run out of the ring

  lemma SameOpen(r: seq<nat>, s: seq<nat>, b: nat, size: nat, c: nat, n: nat)
    requires OpenRun(r, b, size, c, n) && c in r && InUse(r, b) && forall k :: k in s <==> k in r
    ensures OpenRun(s, b, size, c, n) && c in s && InUse(s, b)
  {}

  /** Behind a run that goes on into unused cells nothing is free. */
  lemma BeyondRun(r: seq<nat>, s: seq<nat>, b: nat, c: nat, n: nat)
    requires InUse(r, b) && c + n > b && forall k :: k in s <==> k in r && !(c <= k < c + n)
    ensures forall k :: k in s <==> k in r && k < c
  {}

  lemma FreeRun(r: seq<nat>, b: nat, size: nat, c: nat, n: nat)
    requires OpenRun(r, b, size, c, n) && c + n <= b
    ensures FreeChunk(r, c, n) && FreePart(b, c, n) == n
  {}

  lemma BlankKept(op: seq<bool>, prev: seq<nat>, prev': seq<nat>, b: nat, r: seq<nat>)
    requires Blank(op, prev, b) && KeptOutside(r, prev, prev') && InUse(r, b)
    ensures Blank(op, prev', b)
  {}

  lemma BlankAfter(op: seq<bool>, op': seq<bool>, prev: seq<nat>, prev': seq<nat>, b: nat, r: seq<nat>, s: seq<nat>, from: nat, to: nat)
    requires Blank(op, prev, b) && KeptOutside(s, prev, prev') && InUse(r, b) && to <= b
    requires forall k :: k in s <==> k in r || from <= k < to
    requires |op'| == |op| && forall k :: 0 <= k < |op| ==> op'[k] == (op[k] && !(from <= k < to))
    ensures Blank(op', prev', b)
  {}

  lemma KeptAfter(r: seq<nat>, s: seq<nat>, prev0: seq<nat>, prev1: seq<nat>, prev2: seq<nat>, i: nat, last: nat)
    requires KeptOutside(r, prev0, prev1) && i < |prev1| && prev2 == prev1[i := last]
    requires s == r + [i] || (s == r && i in r)
    ensures KeptOutside(s, prev0, prev2)
  {}

  /** The first `i` cells of the run have been taken out of `r`, which leaves `s`. */
  ghost predicate Removing(r: seq<nat>, s: seq<nat>, b: nat, size: nat, c: nat, n: nat, i: nat) {
    && InUse(r, b) && c in r && n > 0 && OpenRun(r, b, size, c, n)
    && i <= FreePart(b, c, n) && |s| > 0 && Rest(r, s, c, i)
  }

  lemma NextToTake(r: seq<nat>, s: seq<nat>, b: nat, size: nat, c: nat, n: nat, i: nat, op: seq<bool>, prev: seq<nat>)
    requires Removing(r, s, b, size, c, n, i) && i < n && Blank(op, prev, b) && |op| == size
    ensures c + i < size && |prev| == size
    ensures c + i in s <==> i < FreePart(b, c, n)
    ensures c + i !in s ==> prev[c + i] >= size
  {}

  lemma Retained(r: seq<nat>, s: seq<nat>, prev0: seq<nat>, prev1: seq<nat>, prev2: seq<nat>, op: seq<bool>,
                 b: nat, size: nat, c: nat, n: nat, i: nat)
    requires Removing(r, s, b, size, c, n, i) && KeptOutside(r, prev0, prev1) && KeptOutside(s, prev1, prev2)
    requires Blank(op, prev1, b)
    ensures KeptOutside(r, prev0, prev2) && Blank(op, prev2, b)
  {}

  /** Where the removal stops, with the ring as it was before the cell that could not be taken. */
  lemma Stopped(r: seq<nat>, s: seq<nat>, b: nat, size: nat, c: nat, n: nat, i: nat)
    requires Removing(r, s, b, size, c, n, i) && i < n && |s| == |r| - i
    ensures s == [c + i] ==> |r| == FreePart(b, c, n) == i + 1
    ensures c + i !in s ==> i == FreePart(b, c, n) < |r| && c + n > b
    ensures c + i !in s ==> forall k :: k in s <==> k in r && !(c <= k < c + n)
  {
    if s == [c + i] {
      assert c + i in s && i < FreePart(b, c, n);
      assert c + FreePart(b, c, n) - 1 in s;
    }
  }

  lemma OneTaken(r: seq<nat>, s: seq<nat>, s': seq<nat>, b: nat, size: nat, c: nat, n: nat, i: nat)
    requires Removing(r, s, b, size, c, n, i) && i < n && c + i in s && |s| > 1
    requires |s'| == |s| - 1 && forall k :: k in s' <==> k in s && k != c + i
    ensures Removing(r, s', b, size, c, n, i + 1)
  {}

  lemma AllTaken(r: seq<nat>, s: seq<nat>, b: nat, size: nat, c: nat, n: nat)
    requires Removing(r, s, b, size, c, n, n) && |s| == |r| - n
    ensures c + n <= b && FreePart(b, c, n) == n < |r|
    ensures forall k :: k in s <==> k in r && !(c <= k < c + n)
  {}

  lemma StartFound(r: seq<nat>, b: nat, size: nat, i: nat, n: nat)
    requires i < |r| && OpenRun(r, b, size, r[i], n)
    ensures FirstStart(r, b, size, n, i) == Some(r[i])
  {}

  lemma NoneLeft(r: seq<nat>, b: nat, size: nat, i: nat, n: nat)
    requires i == |r|
    ensures FirstStart(r, b, size, n, i) == None
  {}

  lemma SamePartition(r: seq<nat>, s: seq<nat>, owner: seq<Option<nat>>, live: map<nat, nat>, bump: nat)
    requires Partition(r, owner, live, bump) && forall k :: k in s <==> k in r
    ensures Partition(s, owner, live, bump)
  {}

  function Members(r: seq<nat>): set<nat> {
    set c | c in r
  }

  function UpTo(b: nat): (s: set<nat>)
    ensures |s| == b && forall c: nat :: c in s <==> c < b
  {
    if b == 0 then {} else UpTo(b - 1) + {b - 1}
  }

  /** A ring that holds exactly the cells below `b` has `b` cells. */
  lemma DistinctBelow(r: seq<nat>, b: nat)
    requires Distinct(r) && forall c: nat :: c in r <==> c < b
    ensures |r| == b
  {
    DistinctCount(r);
    assert Members(r) == UpTo(b);
  }

  lemma {:induction false} DistinctCount(r: seq<nat>)
    requires Distinct(r)
    ensures |Members(r)| == |r|
  {
    if r != [] {
      var front, last := r[..|r| - 1], r[|r| - 1];
      DistinctCount(front);
      assert Members(r) == Members(front) + {last};
      assert last !in Members(front);
    }
  }

  /** `s` is `r` without the `n` cells from `c` on. */
  ghost predicate Rest(r: seq<nat>, s: seq<nat>, c: nat, n: nat) {
    forall k :: k in s <==> k in r && !(c <= k < c + n)
  }

  lemma TurnedMembers(r: seq<nat>, c: nat)
    requires |r| > 0 && c == r[0]
    ensures |Turned(r)| == |r| && forall k :: k in Turned(r) <==> k in r
    ensures |r| == 1 ==> Turned(r) == r
    ensures |r| > 1 && Distinct(r) ==> Turned(r)[0] != c
  {
    assert r == [r[0]] + r[1..];
  }

  lemma IndexOf(r: seq<nat>, c: nat) returns (j: nat)
    requires c in r
    ensures j < |r| && r[j] == c
  {
    j :| j < |r| && r[j] == c;
  }
}
