/** Moving blocks of pairs inside an array: swapping, reversing and rotating in place. */
module Blocks {
  import opened Order

  // ---- What the operations do: where each pair of the new contents `t` comes from in `s`

  /** Two contents that differ at most between `lo` and `hi`. */
  ghost predicate SameOutside(s: seq<Pair>, t: seq<Pair>, lo: nat, hi: nat) {
    lo <= hi <= |s| == |t| && forall i :: 0 <= i < lo || hi <= i < |s| ==> t[i] == s[i]
  }

  /** The stretch `s[x..z]` is turned around. */
  ghost predicate Reversed(s: seq<Pair>, t: seq<Pair>, x: nat, z: nat) {
    SameOutside(s, t, x, z) && forall i :: x <= i < z ==> t[i] == s[x + z - 1 - i]
  }

  /** The adjacent blocks `s[x..y]` and `s[y..z]` are exchanged. */
  ghost predicate Rotated(s: seq<Pair>, t: seq<Pair>, x: nat, y: nat, z: nat) {
    && SameOutside(s, t, x, z) && x <= y <= z
    && (forall i :: x <= i < x + (z - y) ==> t[i] == s[i + (y - x)])
    && (forall i :: x + (z - y) <= i < z ==> t[i] == s[i - (z - y)])
  }

  /** The blocks of `n` pairs at `x` and at `y` are exchanged. */
  ghost predicate BlocksSwapped(s: seq<Pair>, t: seq<Pair>, x: nat, y: nat, n: nat) {
    && x + n <= y && y + n <= |s| == |t|
    && (forall i :: x <= i < x + n ==> t[i] == s[i + (y - x)])
    && (forall i :: y <= i < y + n ==> t[i] == s[i - (y - x)])
    && (forall i :: 0 <= i < |s| && !(x <= i < x + n) && !(y <= i < y + n) ==> t[i] == s[i])
  }

  lemma SameOutsideWider(s: seq<Pair>, t: seq<Pair>, lo: nat, hi: nat, lo': nat, hi': nat)
    requires SameOutside(s, t, lo, hi) && lo' <= lo && hi <= hi' <= |s|
    ensures SameOutside(s, t, lo', hi')
  {}

  // ---- Slices

  lemma Joined(s: seq<Pair>, i: nat, j: nat, k: nat)
    requires i <= j <= k <= |s|
    ensures s[i..k] == s[i..j] + s[j..k]
  {}

  lemma FirstOf(s: seq<Pair>, i: nat, j: nat)
    requires i < j <= |s|
    ensures s[i..j] == [s[i]] + s[i + 1..j]
  {}

  lemma LastOf(s: seq<Pair>, i: nat, j: nat)
    requires i <= j < |s|
    ensures s[i..j + 1] == s[i..j] + [s[j]]
  {}

  lemma KeptSlice(s: seq<Pair>, t: seq<Pair>, lo: nat, hi: nat, i: nat, j: nat)
    requires SameOutside(s, t, lo, hi) && i <= j <= |s| && (j <= lo || hi <= i)
    ensures |t| == |s| && t[i..j] == s[i..j]
  {}

  lemma RotatedSlices(s: seq<Pair>, t: seq<Pair>, x: nat, y: nat, z: nat)
    requires Rotated(s, t, x, y, z)
    ensures |t| == |s| && x <= y <= z <= |s| && t[x..z] == s[y..z] + s[x..y]
  {}

  lemma SwappedBlocks(s: seq<Pair>, t: seq<Pair>, x: nat, y: nat, n: nat)
    requires BlocksSwapped(s, t, x, y, n)
    ensures |t| == |s| && x + n <= y && y + n <= |s|
    ensures t[x..x + n] == s[y..y + n] && t[y..y + n] == s[x..x + n]
  {}

  lemma BlocksKeep(s: seq<Pair>, t: seq<Pair>, x: nat, y: nat, n: nat, i: nat, j: nat)
    requires BlocksSwapped(s, t, x, y, n) && i <= j <= |s| && (j <= x || x + n <= i) && (j <= y || y + n <= i)
    ensures |t| == |s| && t[i..j] == s[i..j]
  {}

  lemma BlocksInside(s: seq<Pair>, t: seq<Pair>, x: nat, y: nat, n: nat, lo: nat, hi: nat)
    requires BlocksSwapped(s, t, x, y, n) && lo <= x && y + n <= hi <= |s|
    ensures SameOutside(s, t, lo, hi)
  {}

  /** Swapping two pairs changes no slice that holds neither. */
  lemma SwapKeeps(s: seq<Pair>, x: nat, y: nat, i: nat, j: nat)
    requires x < |s| && y < |s| && i <= j <= |s| && !(i <= x < j) && !(i <= y < j)
    ensures var t := s[x := s[y]][y := s[x]]; t[i..j] == s[i..j]
  {}

  // ---- The procedures

  method Swap(a: array<Pair>, x: nat, y: nat)
    requires x < a.Length && y < a.Length
    modifies a
    ensures a[..] == old(a[..])[x := old(a[y])][y := old(a[x])]
    ensures Permutation(a[..], old(a[..]))
  {
    var tmp := a[x];
    a[x] := a[y];
    a[y] := tmp;
  }

  /** Swap two non-overlapping blocks of `n` pairs, the first one before the second. */
  method SwapBlock(a: array<Pair>, x: nat, y: nat, n: nat)
    requires x + n <= y && y + n <= a.Length
    modifies a
    ensures BlocksSwapped(old(a[..]), a[..], x, y, n)
  {
    ghost var s := a[..];
    var i := 0;
    while i < n
      invariant 0 <= i <= n
      invariant BlocksSwapped(s, a[..], x, y, i)
    {
      Swap(a, x + i, y + i);
      i := i + 1;
    }
  }

  /** Reverse the pairs from `x` up to `z`. */
  method Reverse(a: array<Pair>, x: nat, z: nat)
    requires x <= z <= a.Length
    modifies a
    ensures Reversed(old(a[..]), a[..], x, z)
  {
    hide *;
    ghost var s := a[..];
    var n := z - x;
    var m := n / 2;
    var i, j := x, z;
    EndsStart(s, x, z);
    while m > 0
      invariant 0 <= m <= n / 2 && i == x + (n / 2 - m) && j == z - (n / 2 - m)
      invariant EndsReversed(s, a[..], x, z, i - x)
    {
      ghost var t := a[..];
      j := j - 1;
      Swap(a, i, j);
      EndReversed(s, t, x, z, i - x);
      i := i + 1;
      m := m - 1;
    }
    EndsMeet(s, a[..], x, z);
  }

  /** The first and the last `d` pairs of the stretch have been exchanged. */
  ghost predicate EndsReversed(s: seq<Pair>, t: seq<Pair>, x: nat, z: nat, d: nat) {
    && x + d <= z - d && z <= |s| == |t|
    && (forall k :: x <= k < x + d || z - d <= k < z ==> t[k] == s[x + z - 1 - k])
    && (forall k :: 0 <= k < |s| && !(x <= k < x + d) && !(z - d <= k < z) ==> t[k] == s[k])
  }

  lemma EndsStart(s: seq<Pair>, x: nat, z: nat)
    requires x <= z <= |s|
    ensures EndsReversed(s, s, x, z, 0)
  {}

  lemma EndsMeet(s: seq<Pair>, t: seq<Pair>, x: nat, z: nat)
    requires x <= z && EndsReversed(s, t, x, z, (z - x) / 2)
    ensures Reversed(s, t, x, z)
  {}

  lemma EndReversed(s: seq<Pair>, t: seq<Pair>, x: nat, z: nat, d: nat)
    requires EndsReversed(s, t, x, z, d) && x + d < z - d - 1
    ensures EndsReversed(s, t[x + d := t[z - d - 1]][z - d - 1 := t[x + d]], x, z, d + 1)
  {}

  /** Rotate the `z - x` pairs at `x` so that the block at `y` comes first. */
  method Rotate(a: array<Pair>, x: nat, y: nat, z: nat)
    requires x <= y <= z <= a.Length
    modifies a
    ensures Rotated(old(a[..]), a[..], x, y, z)
  {
    ghost var s := a[..];
    if x != y {
      Reverse(a, x, y);
      ghost var s1 := a[..];
      Reverse(a, y, z);
      ghost var s2 := a[..];
      Reverse(a, x, z);
      ReversedThrice(s, x, y, z, s1, s2, a[..]);
    }
  }

  lemma ReversedThrice(s: seq<Pair>, x: nat, y: nat, z: nat, s1: seq<Pair>, s2: seq<Pair>, s3: seq<Pair>)
    requires x <= y <= z <= |s|
    requires Reversed(s, s1, x, y) && Reversed(s1, s2, y, z) && Reversed(s2, s3, x, z)
    ensures Rotated(s, s3, x, y, z)
  {
    forall i | x <= i < x + (z - y) ensures s3[i] == s[i + (y - x)] {
      assert s3[i] == s2[x + z - 1 - i] == s1[i + (y - x)];
    }
    forall i | x + (z - y) <= i < z ensures s3[i] == s[i - (z - y)] {
      assert s3[i] == s2[x + z - 1 - i] == s1[x + z - 1 - i];
    }
  }
}
