/** Alternative sets.  The machine word holds two bits for each of 32 ids: the branch with bit 0 and
    the branch with bit 1.  A set in which both bits of an id are set is in conflict, so no
    computation may combine the two branches. */
module AltSets {
  import opened Options
  import opened Arith
  import opened Powers

  const WORD: nat := 64
  const AS_SIZE: nat := 32

  /** A machine word, least significant bit first. */
  type Word = w: seq<bool> | |w| == 64 witness Zeros()

  function Zeros(): (w: seq<bool>)
    ensures |w| == 64 && forall i :: 0 <= i < 64 ==> !w[i]
  {
    seq(64, _ => false)
  }

  function Zero(): (w: Word)
    ensures forall i :: 0 <= i < WORD ==> !w[i]
  {
    Zeros()
  }

  /** 0x5555_5555_5555_5555 */
  function AsMask(): (w: Word)
    ensures forall i :: 0 <= i < WORD ==> w[i] == (i % 2 == 0)
  {
    seq(64, i => i % 2 == 0)
  }

  function Or(a: Word, b: Word): Word {
    seq(WORD, i requires 0 <= i < WORD => a[i] || b[i])
  }

  function And(a: Word, b: Word): Word {
    seq(WORD, i requires 0 <= i < WORD => a[i] && b[i])
  }

  function Not(a: Word): Word {
    seq(WORD, i requires 0 <= i < WORD => !a[i])
  }

  /** `a >> 1` */
  function Right(a: Word): Word {
    seq(WORD, i requires 0 <= i < WORD => i + 1 < WORD && a[i + 1])
  }

  /** `a << 1` */
  function Left(a: Word): Word {
    seq(WORD, i requires 0 <= i < WORD => i > 0 && a[i - 1])
  }

  /** `1 << p` */
  function OneBit(p: nat): Word
    requires p < WORD
  {
    seq(WORD, i => i == p)
  }

  // ---- The operations

  function Single(k: nat, v: nat): Word
    requires k < AS_SIZE
  {
    OneBit(2 * k + v % 2)
  }

  function Union(a: Word, b: Word): Word {
    Or(a, b)
  }

  function Conflict(a: Word): Word {
    And(And(a, Right(a)), AsMask())
  }

  function Mask(a: Word): Word {
    And(Or(a, Right(a)), AsMask())
  }

  predicate IsMask(a: Word) {
    And(a, Not(AsMask())) == Zero()
  }

  function FromMask(mask: Word, x: Word): Word
    requires IsMask(mask) && IsMask(x)
  {
    Or(And(Not(x), mask), Left(And(x, mask)))
  }

  /** The set chooses branch `b` of id `j`. */
  predicate Chooses(a: Word, j: nat, b: nat)
    requires j < AS_SIZE && b < 2
  {
    a[2 * j + b]
  }

  predicate Conflicts(a: Word) {
    Conflict(a) != Zero()
  }

  /** A conflict is an id of which both branches are chosen. */
  lemma ConflictIsBoth(a: Word)
    ensures Conflicts(a) <==> exists j: nat :: j < AS_SIZE && Chooses(a, j, 0) && Chooses(a, j, 1)
  {
    if Conflicts(a) {
      var i :| 0 <= i < WORD && Conflict(a)[i] != Zero()[i];
      assert i == 2 * (i / 2) && Chooses(a, i / 2, 0) && Chooses(a, i / 2, 1);
    }
    forall j: nat | j < AS_SIZE && Chooses(a, j, 0) && Chooses(a, j, 1) ensures Conflict(a)[2 * j] {
      assert AsMask()[2 * j];
    }
  }

  /** `as_mask` keeps the ids that have a branch. */
  lemma MaskIsIds(a: Word, j: nat)
    requires j < AS_SIZE
    ensures IsMask(Mask(a))
    ensures Chooses(Mask(a), j, 0) <==> Chooses(a, j, 0) || Chooses(a, j, 1)
  {
    assert AsMask()[2 * j];
    assert And(Mask(a), Not(AsMask())) == Zero();
  }

  /** A set is its ids and the branches with bit 1. */
  lemma FromMaskInverse(a: Word)
    requires !Conflicts(a)
    ensures var ones := And(Right(a), AsMask());
            IsMask(Mask(a)) && IsMask(ones) && FromMask(Mask(a), ones) == a
  {
    var ones := And(Right(a), AsMask());
    MaskIsIds(a, 0);
    assert And(ones, Not(AsMask())) == Zero();
    var f := FromMask(Mask(a), ones);
    forall i | 0 <= i < WORD ensures f[i] == a[i] {
      assert Conflict(a)[i] == Zero()[i] && (i > 0 ==> Conflict(a)[i - 1] == Zero()[i - 1]);
    }
  }

  // ---- Several ids

  /** `v >> i` */
  function Shift(v: nat, i: nat): nat {
    if i == 0 then v else Shift(v, i - 1) / 2
  }

  /** The `i`th bit of `v`. */
  function Digit(v: nat, i: nat): (d: nat)
    ensures d < 2
  {
    Shift(v, i) % 2
  }

  lemma {:induction false} ShiftHalf(v: nat, i: nat)
    ensures Shift(v, i + 1) == Shift(v / 2, i) && Digit(v, i + 1) == Digit(v / 2, i)
  {
    if i > 0 {
      ShiftHalf(v, i - 1);
    }
  }

  /** The set that chooses, for each of the `n` ids from `k` on, the branch that the bits of `v` name. */
  ghost predicate IsMulti(a: Word, k: nat, n: nat, v: nat) {
    forall j: nat, b: nat :: j < AS_SIZE && b < 2 ==>
      (Chooses(a, j, b) <==> k <= j < k + n && Digit(v, j - k) == b)
  }

  /** `as_multi`, which fails if it needs more ids than there are. */
  method Multi(k0: nat, n0: nat, v0: nat) returns (r: Option<Word>)
    ensures r.None? <==> n0 > 0 && k0 + n0 > AS_SIZE
    ensures r.Some? ==> IsMulti(r.value, k0, n0, v0)
  {
    if n0 == 0 {
      return Some(Zero());
    }
    var k: nat, n: nat, v: nat := k0, n0, v0;
    var a := Zero();
    while n > 0
      invariant k + n == k0 + n0 && k0 <= k && (k <= AS_SIZE || n == n0)
      invariant IsMulti(a, k0, k - k0, v0) && v == Shift(v0, k - k0)
    {
      n := n - 1;
      if k >= AS_SIZE {
        return None;
      }
      MultiStep(a, k0, k - k0, v0);
      a := Union(a, Single(k, v));
      k := k + 1;
      v := v / 2;
    }
    return Some(a);
  }

  lemma MultiStep(a: Word, k: nat, n: nat, v: nat)
    requires IsMulti(a, k, n, v) && k + n < AS_SIZE
    ensures IsMulti(Union(a, Single(k + n, Shift(v, n))), k, n + 1, v)
  {
    var s := Single(k + n, Shift(v, n));
    forall j: nat, b: nat | j < AS_SIZE && b < 2
      ensures Chooses(Union(a, s), j, b) <==> k <= j < k + n + 1 && Digit(v, j - k) == b
    {
      assert Chooses(s, j, b) <==> j == k + n && Digit(v, n) == b;
      assert Chooses(Union(a, s), j, b) <==> Chooses(a, j, b) || Chooses(s, j, b);
    }
  }

  // ---- Exclusion

  /** Two values agree in their low `n` bits exactly if they agree modulo the power of two. */
  lemma {:induction false} LowBits(v: nat, w: nat, n: nat)
    ensures v % Pow2(n) == w % Pow2(n) <==> forall i :: 0 <= i < n ==> Digit(v, i) == Digit(w, i)
    decreases n
  {
    if n > 0 {
      LowBits(v / 2, w / 2, n - 1);
      HalfMod(v, Pow2(n - 1));
      HalfMod(w, Pow2(n - 1));
      forall i | 0 <= i < n - 1 ensures Digit(v, i + 1) == Digit(v / 2, i) && Digit(w, i + 1) == Digit(w / 2, i) {
        ShiftHalf(v, i);
        ShiftHalf(w, i);
      }
      if forall i :: 0 <= i < n ==> Digit(v, i) == Digit(w, i) {
        forall i | 0 <= i < n - 1 ensures Digit(v / 2, i) == Digit(w / 2, i) {
          assert Digit(v, i + 1) == Digit(w, i + 1);
        }
      }
      assert Digit(v, 0) == v % 2 && Digit(w, 0) == w % 2;
      if (forall i :: 0 <= i < n - 1 ==> Digit(v / 2, i) == Digit(w / 2, i)) && v % 2 == w % 2 {
        forall i | 0 <= i < n ensures Digit(v, i) == Digit(w, i) {
          if i > 0 {
            assert Digit(v, (i - 1) + 1) == Digit(v / 2, i - 1);
          }
        }
      }
    }
  }

  lemma HalfMod(v: nat, p: int)
    requires p > 0
    ensures v % (2 * p) == 2 * ((v / 2) % p) + v % 2
  {
    var q, r := (v / 2) / p, (v / 2) % p;
    QuotientRemainder(v / 2, p);
    Double(q, p);
    QuotientOf(q, 2 * r + v % 2, 2 * p);
  }

  /** The branches `v` and `w` over the same ids conflict exactly if they differ in a bit. */
  lemma MultiConflict(a: Word, b: Word, k: nat, n: nat, v: nat, w: nat)
    requires k + n <= AS_SIZE && IsMulti(a, k, n, v) && IsMulti(b, k, n, w)
    ensures Conflicts(Union(a, b)) <==> v % Pow2(n) != w % Pow2(n)
  {
    var u := Union(a, b);
    ConflictIsBoth(u);
    LowBits(v, w, n);
    forall j: nat | j < AS_SIZE
      ensures Chooses(u, j, 0) && Chooses(u, j, 1) <==> k <= j < k + n && Digit(v, j - k) != Digit(w, j - k)
    {
      assert Chooses(u, j, 0) <==> Chooses(a, j, 0) || Chooses(b, j, 0);
      assert Chooses(u, j, 1) <==> Chooses(a, j, 1) || Chooses(b, j, 1);
    }
    if v % Pow2(n) != w % Pow2(n) {
      var i: nat :| i < n && Digit(v, i) != Digit(w, i);
      assert Chooses(u, k + i, 0) && Chooses(u, k + i, 1);
    }
  }

  /** Branches over different ids never conflict. */
  lemma ApartNoConflict(a: Word, b: Word, k: nat, n: nat, v: nat, k': nat, n': nat, w: nat)
    requires k + n <= k' && IsMulti(a, k, n, v) && IsMulti(b, k', n', w)
    ensures !Conflicts(Union(a, b))
  {
    var u := Union(a, b);
    ConflictIsBoth(u);
    forall j: nat | j < AS_SIZE ensures !(Chooses(u, j, 0) && Chooses(u, j, 1)) {
      assert Chooses(u, j, 0) <==> Chooses(a, j, 0) || Chooses(b, j, 0);
      assert Chooses(u, j, 1) <==> Chooses(a, j, 1) || Chooses(b, j, 1);
    }
  }

  // ---- Branches of a call

  /** The number of bits up to the highest set bit. */
  function BitLength(x: nat): (n: nat)
    ensures x < Pow2(n) && (x > 0 ==> n > 0 && Pow2(n - 1) <= x)
  {
    if x == 0 then 0 else BitLength(x / 2) + 1
  }

  /** `__builtin_clz` */
  function LeadingZeros(x: nat): nat
    requires 0 < x < Pow2(32)
  {
    Pow2Monotone(32, BitLength(x) - 1);
    32 - BitLength(x)
  }

  /** `int_log2`: the least number of bits that tell `x` values apart. */
  function IntLog2(x: nat): (n: nat)
    requires x < Pow2(32)
    ensures x <= Pow2(n) && (n > 0 ==> Pow2(n - 1) < x)
  {
    if x <= 1 then 0 else 32 - LeadingZeros(x - 1)
  }

  /** Of the branches of one expanded call, any two conflict, and none with itself. */
  lemma BranchesExclude(alts: nat, k: nat, v: nat, w: nat, a: Word, b: Word)
    requires v < alts && w < alts < Pow2(32) && k + IntLog2(alts) <= AS_SIZE
    requires IsMulti(a, k, IntLog2(alts), v) && IsMulti(b, k, IntLog2(alts), w)
    ensures Conflicts(Union(a, b)) <==> v != w
  {
    hide *;
    var n := IntLog2(alts);
    MultiConflict(a, b, k, n, v, w);
    QuotientOf(0, v, Pow2(n));
    QuotientOf(0, w, Pow2(n));
  }
}
