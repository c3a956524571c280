/** Key-value pairs, the key orders a map can be built on, and sorted runs of pairs.

    A comparison function `cmp` of the source is modelled by the rank it gives to each key:
    `cmp(a, b)` is `rank(a) < rank(b)`.  `key_cmp` is the identity rank; `string_cmp` ranks
    each key word by the string it points to, so different words may share a rank.
    `RankOfStrictWeakOrder` shows that every strict weak order on finitely many words
    arises this way. */
module Order {

  /** `pair_t`: two machine words. */
  datatype Pair = Pair(first: int, second: int)

  type Rank = int -> int

  /** `cmp(x->first, y->first)` */
  predicate Less(rank: Rank, x: Pair, y: Pair) {
    rank(x.first) < rank(y.first)
  }

  /** The rank of `key_cmp`, which compares the key words themselves. */
  function KeyRank(k: int): int { k }

  ghost predicate Sorted(rank: Rank, s: seq<Pair>) {
    forall i, j :: 0 <= i < j < |s| ==> !Less(rank, s[j], s[i])
  }

  /** Every pair of `x` may stand before every pair of `y`. */
  ghost predicate Below(rank: Rank, x: seq<Pair>, y: seq<Pair>) {
    forall i, j :: 0 <= i < |x| && 0 <= j < |y| ==> !Less(rank, y[j], x[i])
  }

  ghost predicate Permutation(s: seq<Pair>, t: seq<Pair>) {
    multiset(s) == multiset(t)
  }

  // ---- Comparison functions and ranks

  ghost predicate StrictWeakOrder(cmp: (int, int) -> bool, words: set<int>) {
    && (forall x | x in words :: !cmp(x, x))
    && (forall x, y, z | x in words && y in words && z in words :: cmp(x, y) && cmp(y, z) ==> cmp(x, z))
    && (forall x, y, z | x in words && y in words && z in words :: cmp(x, z) ==> cmp(x, y) || cmp(y, z))
  }

  /** How many of the words come before `x`. */
  ghost function Predecessors(cmp: (int, int) -> bool, words: set<int>, x: int): nat {
    |set y | y in words && cmp(y, x)|
  }

  lemma SubsetSize<T>(a: set<T>, b: set<T>)
    requires a <= b
    ensures |a| <= |b|
    ensures a != b ==> |a| < |b|
  {
    assert b == a + (b - a);
  }

  lemma RankOfStrictWeakOrder(cmp: (int, int) -> bool, words: set<int>, x: int, y: int)
    requires StrictWeakOrder(cmp, words)
    requires x in words && y in words
    ensures cmp(x, y) <==> Predecessors(cmp, words, x) < Predecessors(cmp, words, y)
  {
    var before := set z | z in words && cmp(z, x);
    var before' := set z | z in words && cmp(z, y);
    if cmp(x, y) {
      assert before <= before' by {
        forall z | z in before ensures z in before' {
          assert cmp(z, x) && cmp(x, y);
        }
      }
      assert x in before' && x !in before;
      SubsetSize(before, before');
    } else {
      assert before' <= before by {
        forall z | z in before' ensures z in before {
          assert cmp(z, x) || cmp(x, y);
        }
      }
      SubsetSize(before', before);
    }
  }

  // ---- Sorted runs

  lemma SortedConcat(rank: Rank, x: seq<Pair>, y: seq<Pair>)
    ensures Sorted(rank, x + y) <==> Sorted(rank, x) && Sorted(rank, y) && Below(rank, x, y)
  {
    var s := x + y;
    if Sorted(rank, s) {
      assert forall i :: 0 <= i < |x| ==> x[i] == s[i];
      assert forall j :: 0 <= j < |y| ==> y[j] == s[|x| + j];
    }
  }

  lemma SortedSlice(rank: Rank, s: seq<Pair>, i: nat, j: nat)
    requires i <= j <= |s| && Sorted(rank, s)
    ensures Sorted(rank, s[i..j])
  {}

  lemma SortedTail(rank: Rank, s: seq<Pair>, i: nat)
    requires i <= |s| && Sorted(rank, s)
    ensures Sorted(rank, s[i..])
  {}

  /** `Below` only depends on which pairs occur. */
  lemma BelowPermutation(rank: Rank, x: seq<Pair>, y: seq<Pair>, y': seq<Pair>)
    requires Below(rank, x, y) && Permutation(y, y')
    ensures Below(rank, x, y')
  {
    forall i, j | 0 <= i < |x| && 0 <= j < |y'|
      ensures !Less(rank, y'[j], x[i])
    {
      assert y'[j] in multiset(y');
      assert y'[j] in multiset(y);
      var k :| 0 <= k < |y| && y[k] == y'[j];
    }
  }

  lemma SamePermutation(s: seq<Pair>)
    ensures Permutation(s, s)
  {}

  lemma PermutationLength(s: seq<Pair>, t: seq<Pair>)
    requires Permutation(s, t)
    ensures |s| == |t|
  {
    assert |multiset(s)| == |s| && |multiset(t)| == |t|;
  }

  // ---- The stable merge of two sorted runs: the meaning of every merge procedure

  /** On ties the pair of the left run comes first. */
  function StableMerge(rank: Rank, x: seq<Pair>, y: seq<Pair>): (s: seq<Pair>)
    ensures |s| == |x| + |y|
  {
    if x == [] then y
    else if y == [] then x
    else if Less(rank, y[0], x[0]) then [y[0]] + StableMerge(rank, x, y[1..])
    else [x[0]] + StableMerge(rank, x[1..], y)
  }

  lemma {:induction false} StableMergePermutes(rank: Rank, x: seq<Pair>, y: seq<Pair>)
    ensures multiset(StableMerge(rank, x, y)) == multiset(x) + multiset(y)
  {
    if x == [] || y == [] {
      StableMergeNil(rank, x);
      StableMergeNil(rank, y);
    } else {
      hide StableMerge;
      assert x == [x[0]] + x[1..] && y == [y[0]] + y[1..];
      if Less(rank, y[0], x[0]) {
        StableMergeRightFirst(rank, x, y[0], y[1..]);
        StableMergePermutes(rank, x, y[1..]);
      } else {
        StableMergeFirst(rank, x, y);
        StableMergePermutes(rank, x[1..], y);
      }
    }
  }

  lemma {:induction false} StableMergeSorted(rank: Rank, x: seq<Pair>, y: seq<Pair>)
    requires Sorted(rank, x) && Sorted(rank, y)
    ensures Sorted(rank, StableMerge(rank, x, y))
  {
    if x != [] && y != [] {
      if Less(rank, y[0], x[0]) {
        StableMergeSorted(rank, x, y[1..]);
        StableMergeBelow(rank, [y[0]], x, y[1..]);
        SortedConcat(rank, [y[0]], StableMerge(rank, x, y[1..]));
      } else {
        StableMergeSorted(rank, x[1..], y);
        StableMergeBelow(rank, [x[0]], x[1..], y);
        SortedConcat(rank, [x[0]], StableMerge(rank, x[1..], y));
      }
    }
  }

  lemma StableMergeBelow(rank: Rank, w: seq<Pair>, x: seq<Pair>, y: seq<Pair>)
    requires Below(rank, w, x) && Below(rank, w, y)
    ensures Below(rank, w, StableMerge(rank, x, y))
  {
    StableMergePermutes(rank, x, y);
    assert multiset(x + y) == multiset(StableMerge(rank, x, y));
    BelowPermutation(rank, w, x + y, StableMerge(rank, x, y));
  }

  lemma StableMergeNil(rank: Rank, x: seq<Pair>)
    ensures StableMerge(rank, x, []) == x && StableMerge(rank, [], x) == x
  {}

  lemma StableMergeFirst(rank: Rank, x: seq<Pair>, y: seq<Pair>)
    requires x != [] && (y == [] || !Less(rank, y[0], x[0]))
    ensures StableMerge(rank, x, y) == [x[0]] + StableMerge(rank, x[1..], y)
  {
    if y == [] {
      assert StableMerge(rank, x[1..], y) == x[1..];
    }
  }

  /** A stretch of the right run that precedes all of the left run can be moved to the front at once. */
  lemma {:induction false} StableMergeRun(rank: Rank, x: seq<Pair>, run: seq<Pair>, y: seq<Pair>)
    requires x != []
    requires forall i :: 0 <= i < |run| ==> Less(rank, run[i], x[0])
    ensures StableMerge(rank, x, run + y) == run + StableMerge(rank, x, y)
  {
    hide StableMerge;
    if run == [] {
      assert run + y == y && run + StableMerge(rank, x, y) == StableMerge(rank, x, y);
    } else {
      var run' := run[1..];
      StableMergeRun(rank, x, run', y);
      assert run + y == [run[0]] + (run' + y) && run == [run[0]] + run';
      StableMergeRightFirst(rank, x, run[0], run' + y);
      Associative([run[0]], run', StableMerge(rank, x, y));
    }
  }

  lemma StableMergeRightFirst(rank: Rank, x: seq<Pair>, p: Pair, y: seq<Pair>)
    requires x != [] && Less(rank, p, x[0])
    ensures StableMerge(rank, x, [p] + y) == [p] + StableMerge(rank, x, y)
  {
    assert ([p] + y)[1..] == y;
  }

  lemma Associative(u: seq<Pair>, v: seq<Pair>, w: seq<Pair>)
    ensures u + (v + w) == (u + v) + w
  {}

  /** The first pair of the left run is the next to go out. */
  lemma LeftGoesOut(rank: Rank, out: seq<Pair>, p: Pair, x: seq<Pair>, y: seq<Pair>)
    requires Sorted(rank, [p] + x)
    requires y == [] || !Less(rank, y[0], p)
    ensures Sorted(rank, x)
    ensures out + StableMerge(rank, [p] + x, y) == out + [p] + StableMerge(rank, x, y)
  {
    SortedConcat(rank, [p], x);
    StableMergeFirst(rank, [p] + x, y);
    assert ([p] + x)[1..] == x;
    Associative(out, [p], StableMerge(rank, x, y));
  }

  /** A pair of the right run that precedes all of the left run is the next to go out. */
  lemma RightGoesOut(rank: Rank, out: seq<Pair>, x: seq<Pair>, p: Pair, y: seq<Pair>)
    requires x != [] && Less(rank, p, x[0]) && Sorted(rank, [p] + y)
    ensures Sorted(rank, y)
    ensures out + StableMerge(rank, x, [p] + y) == out + [p] + StableMerge(rank, x, y)
  {
    SortedConcat(rank, [p], y);
    StableMergeRightFirst(rank, x, p, y);
    Associative(out, [p], StableMerge(rank, x, y));
  }

  lemma {:induction false} StableMergeOrdered(rank: Rank, x: seq<Pair>, y: seq<Pair>)
    requires Below(rank, x, y)
    ensures StableMerge(rank, x, y) == x + y
  {
    if x == [] || y == [] {
      StableMergeNil(rank, x + y);
      assert x + y == if x == [] then y else x;
    } else {
      hide StableMerge;
      StableMergeFirst(rank, x, y);
      StableMergeOrdered(rank, x[1..], y);
      assert x == [x[0]] + x[1..];
      Associative([x[0]], x[1..], y);
    }
  }
}
