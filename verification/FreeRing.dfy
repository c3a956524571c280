/** Doubly linked rings of cell indices, linked through two tables. */
module FreeRing {

  ghost predicate Distinct(r: seq<nat>) {
    forall i, j :: 0 <= i < j < |r| ==> r[i] != r[j]
  }

  /** Consecutive cells of `r` are linked both ways. */
  ghost predicate IsChain(r: seq<nat>, next: seq<nat>, prev: seq<nat>) {
    && |r| > 0 && |next| == |prev|
    && (forall i :: 0 <= i < |r| ==> r[i] < |next|)
    && (forall i :: 0 <= i < |r| - 1 ==> next[r[i]] == r[i + 1])
    && (forall i :: 0 < i < |r| ==> prev[r[i]] == r[i - 1])
    && Distinct(r)
  }

  /** The last cell is linked to the first as well. */
  ghost predicate IsRing(r: seq<nat>, next: seq<nat>, prev: seq<nat>) {
    && IsChain(r, next, prev)
    && next[r[|r| - 1]] == r[0] && prev[r[0]] == r[|r| - 1]
  }

  /** The ring, seen from the next cell. */
  function Turned(r: seq<nat>): (t: seq<nat>)
    requires |r| > 0
  {
    r[1..] + [r[0]]
  }

  lemma TurnedRing(r: seq<nat>, next: seq<nat>, prev: seq<nat>)
    requires IsRing(r, next, prev)
    ensures IsRing(Turned(r), next, prev)
    ensures forall c :: c in Turned(r) <==> c in r
  {
    var t := Turned(r);
    forall i | 0 <= i < |t| - 1 ensures next[t[i]] == t[i + 1] {
      assert t[i] == r[i + 1];
    }
  }

  /** Only a cell that is alone is its own neighbour. */
  lemma Neighbours(r: seq<nat>, next: seq<nat>, prev: seq<nat>, c: nat)
    requires IsRing(r, next, prev) && c in r
    ensures c < |next| && next[c] in r && prev[c] in r && next[c] < |next| && prev[c] < |next|
    ensures next[c] == c || prev[c] == c <==> |r| == 1
    ensures |r| == 1 ==> r == [c]
    ensures Distinct(r)
  {
    var j :| 0 <= j < |r| && r[j] == c;
    var before, after := if j > 0 then r[j - 1] else r[|r| - 1], if j + 1 < |r| then r[j + 1] else r[0];
    assert prev[c] == before && next[c] == after;
  }

  /** Taking a cell other than the first out of the ring. */
  function Without(r: seq<nat>, j: nat): seq<nat>
    requires j < |r|
  {
    r[..j] + r[j + 1..]
  }

  lemma Unlinked(r: seq<nat>, next: seq<nat>, prev: seq<nat>, j: nat, next': seq<nat>, prev': seq<nat>)
    requires IsRing(r, next, prev) && 0 < j < |r|
    requires prev[r[j]] < |next| && next' == next[prev[r[j]] := next[r[j]]]
    requires next[r[j]] < |prev| && prev' == prev[next[r[j]] := prev[r[j]]]
    ensures IsRing(Without(r, j), next', prev')
    ensures forall c :: c in Without(r, j) <==> c in r && c != r[j]
  {
    var t, c := Without(r, j), r[j];
    var before, after := r[j - 1], if j + 1 < |r| then r[j + 1] else r[0];
    assert prev[c] == before && next[c] == after;
    UnlinkedMembers(r, j);
    UnlinkedNext(r, next, j, after);
    UnlinkedPrev(r, prev, j, if j + 1 < |r| then j + 1 else 0);
    assert forall i :: 0 <= i < |t| ==> t[i] in r;
  }

  lemma UnlinkedNext(r: seq<nat>, next: seq<nat>, j: nat, after: nat)
    requires Distinct(r) && 0 < j < |r| && after == (if j + 1 < |r| then r[j + 1] else r[0])
    requires forall i :: 0 <= i < |r| ==> r[i] < |next|
    requires forall i :: 0 <= i < |r| - 1 ==> next[r[i]] == r[i + 1]
    requires next[r[|r| - 1]] == r[0]
    ensures var t, next' := Without(r, j), next[r[j - 1] := after];
            |t| == |r| - 1 && (forall i :: 0 <= i < |t| - 1 ==> next'[t[i]] == t[i + 1]) && next'[t[|t| - 1]] == t[0]
  {
    WithoutAt(r, j);
    var t, next' := Without(r, j), next[r[j - 1] := after];
    forall i | 0 <= i < |t| - 1 ensures next'[t[i]] == t[i + 1] {
      assert t[i] == r[j - 1] <==> i == j - 1;
    }
  }

  lemma UnlinkedPrev(r: seq<nat>, prev: seq<nat>, j: nat, k: nat)
    requires Distinct(r) && 0 < j < |r| && k == if j + 1 < |r| then j + 1 else 0
    requires forall i :: 0 <= i < |r| ==> r[i] < |prev|
    requires forall i :: 0 < i < |r| ==> prev[r[i]] == r[i - 1]
    requires prev[r[0]] == r[|r| - 1]
    ensures var t, prev' := Without(r, j), prev[r[k] := r[j - 1]];
            |t| == |r| - 1 && (forall i :: 0 < i < |t| ==> prev'[t[i]] == t[i - 1]) && prev'[t[0]] == t[|t| - 1]
  {
    WithoutAt(r, j);
    var t, prev' := Without(r, j), prev[r[k] := r[j - 1]];
    forall i | 0 < i < |t| ensures prev'[t[i]] == t[i - 1] {
      assert t[i] == r[k] <==> i == j;
    }
  }

  lemma WithoutAt(r: seq<nat>, j: nat)
    requires j < |r|
    ensures |Without(r, j)| == |r| - 1
    ensures forall i :: 0 <= i < |r| - 1 ==> Without(r, j)[i] == if i < j then r[i] else r[i + 1]
  {}

  lemma UnlinkedMembers(r: seq<nat>, j: nat)
    requires j < |r| && Distinct(r)
    ensures forall c :: c in Without(r, j) <==> c in r && c != r[j]
    ensures Distinct(Without(r, j))
  {
    var t := Without(r, j);
    assert r == r[..j] + [r[j]] + r[j + 1..];
    forall c | c in r && c != r[j] ensures c in t {
      assert c in r[..j] || c in r[j + 1..];
    }
  }

  /** Linking a new cell behind the last of a chain. */
  lemma LinkedBehind(r: seq<nat>, next: seq<nat>, prev: seq<nat>, c: nat, next': seq<nat>, prev': seq<nat>)
    requires IsChain(r, next, prev) && c < |next| && c !in r
    requires next' == next[r[|r| - 1] := c] && prev' == prev[c := r[|r| - 1]]
    ensures IsChain(r + [c], next', prev')
  {}

  lemma Closed(r: seq<nat>, next: seq<nat>, prev: seq<nat>, next': seq<nat>, prev': seq<nat>)
    requires IsChain(r, next, prev)
    requires next' == next[r[|r| - 1] := r[0]] && prev' == prev[r[0] := r[|r| - 1]]
    ensures IsRing(r, next', prev')
  {}

  /** The ring, seen from its `k`th cell. */
  function Rotated(r: seq<nat>, k: nat): seq<nat>
    requires k <= |r|
  {
    r[k..] + r[..k]
  }

  lemma RotatedOnce(r: seq<nat>, k: nat)
    requires k < |r|
    ensures Rotated(r, k)[0] == r[k] && Turned(Rotated(r, k)) == Rotated(r, k + 1)
  {}

  lemma RotatedMembers(r: seq<nat>, k: nat)
    requires k <= |r|
    ensures |Rotated(r, k)| == |r| && forall c :: c in Rotated(r, k) <==> c in r
  {
    assert r == r[..k] + r[k..];
  }

  lemma RotatedDistinct(r: seq<nat>, k: nat)
    requires k <= |r| && Distinct(r)
    ensures Distinct(Rotated(r, k))
  {
    var t := Rotated(r, k);
    forall i, j | 0 <= i < j < |t| ensures t[i] != t[j] {
      assert t[i] == r[if i < |r| - k then k + i else i - (|r| - k)];
      assert t[j] == r[if j < |r| - k then k + j else j - (|r| - k)];
    }
  }

  // ---- The order of the cells

  /** Where in the ring the cell is. */
  function Position(r: seq<nat>, c: nat): (i: nat)
    requires c in r
    ensures i < |r| && r[i] == c
  {
    if r[0] == c then 0 else 1 + Position(r[1..], c)
  }

  lemma PositionIs(r: seq<nat>, i: nat)
    requires Distinct(r) && i < |r|
    ensures r[i] in r && EnteredBehind(r, r[i]) == Rotated(r, i + 1)
  {}

  /** The ring, entered behind `c`. */
  function EnteredBehind(r: seq<nat>, c: nat): seq<nat>
    requires c in r
  {
    Rotated(r, Position(r, c) + 1)
  }

  /** The cells of `r` that are not among the `n` from `c` on, in the same order. */
  function Except(r: seq<nat>, c: nat, n: nat): seq<nat> {
    if r == [] then []
    else Except(r[..|r| - 1], c, n) + if c <= r[|r| - 1] < c + n then [] else [r[|r| - 1]]
  }

  lemma {:induction false} ExceptConcat(r: seq<nat>, s: seq<nat>, c: nat, n: nat)
    ensures Except(r + s, c, n) == Except(r, c, n) + Except(s, c, n)
  {
    if s == [] {
      assert r + s == r;
    } else {
      assert (r + s)[..|r + s| - 1] == r + s[..|s| - 1];
      ExceptConcat(r, s[..|s| - 1], c, n);
    }
  }

  lemma {:induction false} ExceptNone(r: seq<nat>, c: nat, n: nat)
    requires forall i :: 0 <= i < |r| ==> !(c <= r[i] < c + n)
    ensures Except(r, c, n) == r
  {
    if r != [] {
      ExceptNone(r[..|r| - 1], c, n);
      assert r == r[..|r| - 1] + [r[|r| - 1]];
    }
  }

  lemma {:induction false} ExceptMembers(r: seq<nat>, c: nat, n: nat)
    ensures forall k :: k in Except(r, c, n) <==> k in r && !(c <= k < c + n)
    ensures Distinct(r) ==> Distinct(Except(r, c, n))
  {
    if r != [] {
      var front := r[..|r| - 1];
      ExceptMembers(front, c, n);
      assert r == front + [r[|r| - 1]];
      assert Distinct(r) ==> r[|r| - 1] !in front;
    }
  }

  /** Taking out one cell more. */
  lemma {:induction false} ExceptOneMore(r: seq<nat>, c: nat, n: nat)
    ensures Except(Except(r, c, n), c + n, 1) == Except(r, c, n + 1)
  {
    if r != [] {
      var front, last := r[..|r| - 1], r[|r| - 1];
      ExceptOneMore(front, c, n);
      ExceptConcat(Except(front, c, n), if c <= last < c + n then [] else [last], c + n, 1);
    }
  }

  /** The cells that are left keep their order. */
  lemma {:induction false} ExceptInOrder(r: seq<nat>, c: nat, n: nat, i: nat, j: nat) returns (p: nat, q: nat)
    requires i < j < |Except(r, c, n)|
    ensures p < q < |r| && r[p] == Except(r, c, n)[i] && r[q] == Except(r, c, n)[j]
  {
    var front := r[..|r| - 1];
    if j < |Except(front, c, n)| {
      p, q := ExceptInOrder(front, c, n, i, j);
    } else {
      q := |r| - 1;
      p := ExceptAt(front, c, n, i);
    }
  }

  lemma {:induction false} ExceptAt(r: seq<nat>, c: nat, n: nat, i: nat) returns (p: nat)
    requires i < |Except(r, c, n)|
    ensures p < |r| && r[p] == Except(r, c, n)[i]
  {
    var front := r[..|r| - 1];
    if i < |Except(front, c, n)| {
      p := ExceptAt(front, c, n, i);
    } else {
      p := |r| - 1;
    }
  }

  lemma ExceptOne(r: seq<nat>, j: nat)
    requires Distinct(r) && j < |r|
    ensures Except(r, r[j], 1) == Without(r, j)
  {
    hide Except, Distinct;
    UnlinkedDistinct(r, j);
    assert r == r[..j] + ([r[j]] + r[j + 1..]);
    ExceptAround(r[..j], r[j], r[j + 1..]);
  }

  lemma UnlinkedDistinct(r: seq<nat>, j: nat)
    requires Distinct(r) && j < |r|
    ensures r[j] !in r[..j] && r[j] !in r[j + 1..]
  {}

  lemma ExceptAround(x: seq<nat>, c: nat, y: seq<nat>)
    requires c !in x && c !in y
    ensures Except(x + ([c] + y), c, 1) == x + y
  {
    hide Except;
    ExceptConcat(x, [c] + y, c, 1);
    ExceptConcat([c], y, c, 1);
    ExceptNone(x, c, 1);
    ExceptNone(y, c, 1);
    ExceptItself(c);
    assert [] + y == y;
  }

  lemma ExceptItself(c: nat)
    ensures Except([c], c, 1) == []
  {}

  /** It makes no difference whether the ring was entered one cell later. */
  lemma TurnedExcept(r: seq<nat>)
    requires r != []
    ensures Except(Turned(r), r[0], 1) == Except(r, r[0], 1)
  {
    ExceptConcat(r[1..], [r[0]], r[0], 1);
    ExceptConcat([r[0]], r[1..], r[0], 1);
    assert r == [r[0]] + r[1..];
  }

  lemma {:induction false} ExceptLength(r: seq<nat>, c: nat, n: nat)
    requires Distinct(r) && forall k :: c <= k < c + n ==> k in r
    ensures |Except(r, c, n)| == |r| - n
  {
    if n == 0 {
      ExceptNone(r, c, 0);
    } else {
      ExceptLength(r, c, n - 1);
      ExceptMembers(r, c, n - 1);
      ExceptOneMore(r, c, n - 1);
      var s := Except(r, c, n - 1);
      ExceptOne(s, Position(s, c + n - 1));
    }
  }
}
