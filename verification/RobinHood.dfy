/** A set of nonzero keys, in a table with Robin Hood hashing: a key that is further from its home
    slot takes the slot of one that is nearer to its own. */
module RobinHood {

  // ---- Slots, counted around the table

  /** The slot `e` steps behind `h`. */
  function Slot(h: nat, e: nat, n: nat): (p: nat)
    requires h < n && e <= n
    ensures p < n
  {
    if h + e < n then h + e else h + e - n
  }

  /** The steps from `h` to `p`. */
  function Gap(h: nat, p: nat, n: nat): (e: nat)
    requires h < n && p < n
    ensures e < n && Slot(h, e, n) == p
  {
    if p >= h then p - h else n + p - h
  }

  function Home(k: nat, n: nat): (h: nat)
    requires n > 0
    ensures h < n
  {
    k % n
  }

  lemma Wrap(x: nat, n: nat)
    requires n > 0 && x < 2 * n
    ensures x % n == if x < n then x else x - n
  {}

  lemma GapOfSlot(h: nat, e: nat, n: nat)
    requires h < n && e < n
    ensures Gap(h, Slot(h, e, n), n) == e && Slot(Slot(h, e, n), 1, n) == Slot(h, e + 1, n)
  {}

  /** How far the key in slot `p` is from home; -1 for an empty slot. */
  function Away(s: seq<nat>, p: nat): (d: int)
    requires p < |s|
    ensures -1 <= d < |s| && (d == -1 <==> s[p] == 0)
  {
    if s[p] == 0 then -1 else Gap(Home(s[p], |s|), p, |s|)
  }

  ghost predicate Unique(s: seq<nat>) {
    forall p, q :: 0 <= p < q < |s| && s[p] == s[q] ==> s[p] == 0
  }

  /** From one slot to the next, distances grow by at most one. */
  ghost predicate Gradual(s: seq<nat>) {
    forall p: nat :: p < |s| ==> Away(s, Slot(p, 1, |s|)) <= Away(s, p) + 1
  }

  ghost predicate Valid(s: seq<nat>) {
    |s| > 0 && Unique(s) && Gradual(s)
  }

  /** Every slot between a key's home and its position holds a key at least as far from home. */
  lemma {:induction false} Displaced(s: seq<nat>, q: nat, e: nat)
    requires Valid(s) && q < |s| && s[q] != 0 && e <= Away(s, q)
    ensures Away(s, Slot(Home(s[q], |s|), e, |s|)) >= e
    decreases Away(s, q) - e
  {
    var h := Home(s[q], |s|);
    if e < Away(s, q) {
      Displaced(s, q, e + 1);
      GapOfSlot(h, e, |s|);
      assert Away(s, Slot(Slot(h, e, |s|), 1, |s|)) <= Away(s, Slot(h, e, |s|)) + 1;
    }
  }

  // ---- Insertion

  datatype Inserted = Present | Added | Full

  /** `s` holds the keys of `s0` and `x`, but for `y`. */
  ghost predicate Carries(s0: seq<nat>, x: nat, s: seq<nat>, y: nat) {
    && |s| == |s0| && y != 0
    && (forall k :: k != 0 ==> ((k in s || k == y) <==> (k in s0 || k == x)))
    && (forall p :: 0 <= p < |s| ==> (s[p] == 0 <==> s0[p] == 0))
  }

  /** The key `y` arrives at slot `j`, `d` steps from home, and may stay there. */
  ghost predicate Arrives(s: seq<nat>, y: nat, j: nat, d: nat) {
    && j < |s| && d < |s| && Slot(Home(y, |s|), d, |s|) == j
    && forall p: nat :: p < |s| && Slot(p, 1, |s|) == j ==> d <= Away(s, p) + 1
  }

  /** If a slot is nearer to home than `y` would be there, `y` is not further on. */
  lemma NotAhead(s: seq<nat>, y: nat, j: nat, d: nat)
    requires Valid(s) && y != 0 && d < |s| && Slot(Home(y, |s|), d, |s|) == j && Away(s, j) < d
    requires forall e :: 0 <= e < d ==> s[Slot(Home(y, |s|), e, |s|)] != y
    ensures y !in s
  {
    var h := Home(y, |s|);
    forall q: nat | q < |s| ensures s[q] != y {
      if s[q] != 0 && Home(s[q], |s|) == h && d <= Away(s, q) {
        Displaced(s, q, d);
      }
    }
  }

  /** Putting `y` where it arrives keeps the table valid. */
  lemma PutStays(s: seq<nat>, y: nat, j: nat, d: nat)
    requires Valid(s) && Arrives(s, y, j, d) && y !in s && y != 0 && Away(s, j) < d
    ensures Valid(s[j := y]) && Away(s[j := y], j) == d
  {
    var n, t := |s|, s[j := y];
    GapOfSlot(Home(y, n), d, n);
    assert Away(t, j) == d;
    forall p: nat | p < n ensures Away(t, Slot(p, 1, n)) <= Away(t, p) + 1 {
      assert p != j ==> Away(t, p) == Away(s, p);
      assert Slot(p, 1, n) != j ==> Away(t, Slot(p, 1, n)) == Away(s, Slot(p, 1, n));
    }
  }

  /** Going on to the next slot with the key that is further on. */
  lemma GoesOn(s: seq<nat>, y: nat, j: nat, d: nat)
    requires Valid(s) && j < |s| && d + 1 < |s| && Slot(Home(y, |s|), d, |s|) == j && d <= Away(s, j)
    ensures Arrives(s, y, Slot(j, 1, |s|), d + 1)
  {
    GapOfSlot(Home(y, |s|), d, |s|);
  }

  /** Exchanging the carried key for the one in slot `j`. */
  lemma Exchanged(s0: seq<nat>, x: nat, s: seq<nat>, y: nat, j: nat)
    requires Carries(s0, x, s, y) && j < |s| && s[j] != 0 && Unique(s) && y !in s
    ensures Carries(s0, x, s[j := y], s[j]) && s[j] !in s[j := y]
  {
    var t := s[j := y];
    forall k | k != 0 ensures (k in t || k == s[j]) <==> (k in s || k == y) {
      Replaced(s, j, y, k);
    }
  }

  lemma Replaced(s: seq<nat>, j: nat, y: nat, k: nat)
    requires j < |s|
    ensures (k in s[j := y] || k == s[j]) <==> (k in s || k == y)
  {
    var t := s[j := y];
    assert t[j] == y;
    if k in s && k != s[j] {
      var p: nat :| p < |s| && s[p] == k;
      assert t[p] == k;
    }
  }

  /** The first `i` slots from the home of `x` are taken. */
  ghost predicate Taken(s: seq<nat>, x: nat, i: nat) {
    |s| > 0 && i <= |s| && forall e :: 0 <= e < i ==> s[Slot(Home(x, |s|), e, |s|)] != 0
  }

  ghost predicate Missed(s: seq<nat>, x: nat, i: nat) {
    |s| > 0 && i <= |s| && forall e :: 0 <= e < i ==> s[Slot(Home(x, |s|), e, |s|)] != x
  }

  lemma AllSeen(s: seq<nat>, x: nat)
    ensures Taken(s, x, |s|) ==> 0 !in s
    ensures Missed(s, x, |s|) ==> x !in s
  {
    forall p: nat | p < |s| ensures Taken(s, x, |s|) ==> s[p] != 0
    ensures Missed(s, x, |s|) ==> s[p] != x
    {
      assert p == Slot(Home(x, |s|), Gap(Home(x, |s|), p, |s|), |s|);
    }
  }

  /** After `i` steps from the home of `x`, the key `y` is carried; once a key has `moved`, it is
      not `x` but one that `x` has driven out, directly or not. */
  ghost predicate Inserting(s0: seq<nat>, x: nat, s: seq<nat>, y: nat, j: nat, d: nat, i: nat, moved: bool) {
    && Valid(s) && |s| == |s0| && Carries(s0, x, s, y)
    && d <= i <= |s| && j == Slot(Home(x, |s|), i, |s|)
    && (i < |s| ==> Arrives(s, y, j, d))
    && Taken(s, x, i)
    && (if moved then y !in s && x !in s0 else s == s0 && y == x && d == i && Missed(s, x, i))
  }

  lemma CarriedIsNew(s0: seq<nat>, x: nat, s: seq<nat>, y: nat, j: nat, d: nat, i: nat, moved: bool)
    requires Inserting(s0, x, s, y, j, d, i, moved) && i < |s| && Away(s, j) < d
    ensures y !in s && x !in s0
  {
    if !moved {
      NotAhead(s, y, j, d);
    }
  }

  lemma StepKeep(s0: seq<nat>, x: nat, s: seq<nat>, y: nat, j: nat, d: nat, i: nat, moved: bool)
    requires Inserting(s0, x, s, y, j, d, i, moved) && i < |s| && s[j] != y && d <= Away(s, j)
    ensures Inserting(s0, x, s, y, Slot(j, 1, |s|), d + 1, i + 1, moved)
  {
    hide Gradual, Unique, Arrives, Carries;
    GapOfSlot(Home(x, |s|), i, |s|);
    ArrivesAt(s, y, j, d);
    if i + 1 < |s| { GoesOn(s, y, j, d); }
  }

  lemma ArrivesAt(s: seq<nat>, y: nat, j: nat, d: nat)
    requires Arrives(s, y, j, d)
    ensures j < |s| && d < |s| && Slot(Home(y, |s|), d, |s|) == j
  {}

  lemma StepSwap(s0: seq<nat>, x: nat, s: seq<nat>, y: nat, j: nat, d: nat, i: nat, moved: bool)
    requires Inserting(s0, x, s, y, j, d, i, moved) && i < |s| && s[j] != 0 && Away(s, j) < d
    ensures Inserting(s0, x, s[j := y], s[j], Slot(j, 1, |s|), Away(s, j) + 1, i + 1, true)
  {
    hide Gradual, Unique, Arrives;
    CarriedIsNew(s0, x, s, y, j, d, i, moved);
    PutStays(s, y, j, d);
    Exchanged(s0, x, s, y, j);
    GapOfSlot(Home(x, |s|), i, |s|);
    if i + 1 < |s| { GoesOn(s[j := y], s[j], j, Away(s, j)); }
  }

  /** Into an empty slot. */
  lemma StepPut(s0: seq<nat>, x: nat, s: seq<nat>, y: nat, j: nat, d: nat, i: nat, moved: bool)
    requires Inserting(s0, x, s, y, j, d, i, moved) && i < |s| && s[j] == 0
    ensures Valid(s[j := y]) && x !in s0 && 0 in s0
    ensures forall k :: k != 0 ==> (k in s[j := y] <==> k in s0 || k == x)
  {
    CarriedIsNew(s0, x, s, y, j, d, i, moved);
    PutStays(s, y, j, d);
    forall k | k != 0 ensures k in s[j := y] <==> k in s0 || k == x {
      Replaced(s, j, y, k);
    }
  }

  lemma StepFound(s0: seq<nat>, x: nat, s: seq<nat>, y: nat, j: nat, d: nat, i: nat, moved: bool)
    requires Inserting(s0, x, s, y, j, d, i, moved) && i < |s| && s[j] == y
    ensures s == s0 && x in s0
  {}

  lemma StepFull(s0: seq<nat>, x: nat, s: seq<nat>, y: nat, j: nat, d: nat, moved: bool)
    requires Inserting(s0, x, s, y, j, d, |s|, moved) && x != 0
    ensures x !in s0 && 0 !in s0 && 0 !in s && y !in s && Valid(s)
    ensures forall k :: (k in s || k == y) <==> k in s0 || k == x
  {
    AllSeen(s, x);
    forall p | 0 <= p < |s0| ensures s0[p] != 0 {
      assert s[p] != 0;
    }
  }

  lemma Begins(s: seq<nat>, x: nat)
    requires Valid(s) && x != 0
    ensures Inserting(s, x, s, x, Home(x, |s|), 0, 0, false)
  {}

  /** `set_insert`.  In a full table the key that is carried at the end is lost. */
  method SetInsert(key: nat, table: array<nat>) returns (r: Inserted, ghost lost: nat)
    requires key != 0 && Valid(table[..])
    modifies table
    ensures Valid(table[..])
    ensures r == Present <==> key in old(table[..])
    ensures r == Present ==> table[..] == old(table[..])
    ensures r == Added ==> forall k :: k != 0 ==> (k in table[..] <==> k in old(table[..]) || k == key)
    ensures r == Full <==> key !in old(table[..]) && 0 !in old(table[..])
    ensures r == Full ==> lost !in table[..] && forall k :: (k in table[..] || k == lost) <==> k in old(table[..]) || k == key
  {
    hide *;
    ghost var s0 := table[..];
    NotEmpty(s0);
    var n := table.Length;
    var x: nat := key;
    var j: nat := HomeOf(x, n);
    var d: nat := 0;
    var i := 0;
    ghost var moved := false;
    Begins(s0, key);
    while i < n
      invariant 0 <= i <= n && Inserting(s0, key, table[..], x, j, d, i, moved)
    {
      ghost var s := table[..];
      Within(s0, key, s, x, j, d, i, moved);
      if table[j] == x {
        StepFound(s0, key, s, x, j, d, i, moved);
        return Present, 0;
      }
      if table[j] != 0 {
        var dx := Distance(table, j);
        if dx < d {
          StepSwap(s0, key, s, x, j, d, i, moved);
          ghost var y := x;
          d := dx;
          x, table[j] := table[j], x;
          moved := true;
          assert table[..] == s[j := y];
        } else {
          StepKeep(s0, key, s, x, j, d, i, moved);
        }
      } else {
        StepPut(s0, key, s, x, j, d, i, moved);
        table[j] := x;
        return Added, 0;
      }
      d := d + 1;
      j := NextSlot(j, n);
      i := i + 1;
    }
    StepFull(s0, key, table[..], x, j, d, moved);
    return Full, x;
  }

  lemma NotEmpty(s: seq<nat>)
    requires Valid(s)
    ensures |s| > 0
  {}

  lemma Within(s0: seq<nat>, x: nat, s: seq<nat>, y: nat, j: nat, d: nat, i: nat, moved: bool)
    requires Inserting(s0, x, s, y, j, d, i, moved)
    ensures j < |s|
  {}

  method HomeOf(x: nat, n: nat) returns (h: nat)
    requires n > 0
    ensures h == Home(x, n)
  {
    h := x % n;
  }

  method NextSlot(j: nat, n: nat) returns (p: nat)
    requires j < n
    ensures p == Slot(j, 1, n)
  {
    Wrap(j + 1, n);
    p := (j + 1) % n;
  }

  method Distance(table: array<nat>, j: nat) returns (d: nat)
    requires j < table.Length && table[j] != 0
    ensures d == Away(table[..], j)
  {
    var n := table.Length;
    Wrap(n + j - table[j] % n, n);
    d := (n + j - table[j] % n) % n;
  }

  /** `set_member` */
  method SetMember(x: nat, table: array<nat>) returns (found: bool)
    requires table.Length > 0
    ensures found <==> x != 0 && x in table[..]
  {
    if x == 0 {
      return false;
    }
    var n := table.Length;
    var offset := x % n;
    var i := 0;
    while i < n
      invariant 0 <= i <= n && offset == Home(x, n) && Missed(table[..], x, i)
    {
      Wrap(i + offset, n);
      if table[(i + offset) % n] == x {
        return true;
      }
      i := i + 1;
    }
    AllSeen(table[..], x);
    return false;
  }

  // ---- Runs of insertions

  function Elements(s: seq<nat>): set<nat> {
    set k | k in s
  }

  lemma {:induction false} UniqueCount(s: seq<nat>)
    requires Unique(s) && 0 !in s
    ensures |Elements(s)| == |s|
  {
    if |s| > 0 {
      var front, last := s[..|s| - 1], s[|s| - 1];
      UniqueCount(front);
      assert Elements(s) == Elements(front) + {last};
    }
  }

  /** A table of `n` slots takes any sequence of keys of which at most `n` are different, and then
      holds exactly those. */
  method InsertAll(keys: seq<nat>, table: array<nat>) returns (full: bool)
    requires table.Length > 0 && (forall p :: 0 <= p < table.Length ==> table[p] == 0)
    requires forall i :: 0 <= i < |keys| ==> keys[i] != 0
    modifies table
    ensures Valid(table[..])
    ensures full <==> |Elements(keys)| > table.Length
    ensures !full ==> forall k :: k != 0 ==> (k in table[..] <==> k in keys)
  {
    hide Unique, Gradual;
    NoneInserted(table[..]);
    var i := 0;
    while i < |keys|
      invariant 0 <= i <= |keys| && Valid(table[..])
      invariant forall k :: k != 0 ==> (k in table[..] <==> k in keys[..i])
    {
      ghost var s := table[..];
      var r, lost := SetInsert(keys[i], table);
      assert keys[..i + 1] == keys[..i] + [keys[i]];
      if r == Full {
        TooMany(s, keys, i);
        return true;
      }
      i := i + 1;
    }
    assert keys[..i] == keys;
    EnoughRoom(table[..], keys);
    return false;
  }

  lemma NoneInserted(s: seq<nat>)
    requires |s| > 0 && forall p :: 0 <= p < |s| ==> s[p] == 0
    ensures Valid(s) && forall k :: k in s ==> k == 0
  {}

  lemma TooMany(s: seq<nat>, keys: seq<nat>, i: nat)
    requires Valid(s) && i < |keys| && 0 !in s && keys[i] !in s
    requires forall k :: k != 0 ==> (k in s <==> k in keys[..i])
    ensures |Elements(keys)| > |s|
  {
    UniqueCount(s);
    Subset(Elements(s) + {keys[i]}, Elements(keys));
  }

  lemma EnoughRoom(s: seq<nat>, keys: seq<nat>)
    requires forall k :: k != 0 && k in keys ==> k in s
    requires forall i :: 0 <= i < |keys| ==> keys[i] != 0
    ensures |Elements(keys)| <= |s|
  {
    assert Elements(keys) <= Elements(s);
    Subset(Elements(keys), Elements(s));
    ElementsBelow(s);
  }

  lemma {:induction false} ElementsBelow(s: seq<nat>)
    ensures |Elements(s)| <= |s|
  {
    if |s| > 0 {
      var front, last := s[..|s| - 1], s[|s| - 1];
      ElementsBelow(front);
      assert Elements(s) == Elements(front) + {last};
    }
  }

  lemma {:induction false} Subset(a: set<nat>, b: set<nat>)
    requires a <= b
    ensures |a| <= |b|
    decreases a
  {
    if a != {} {
      var k :| k in a;
      Subset(a - {k}, b - {k});
    }
  }
}
