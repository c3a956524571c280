/** Powers of two. */
module Powers {
  import opened Arith

  function Pow2(k: nat): (p: int)
    ensures p > 0
  {
    if k == 0 then 1 else 2 * Pow2(k - 1)
  }

  lemma {:induction false} Pow2Sum(j: nat, k: nat)
    ensures Pow2(j + k) == Pow2(j) * Pow2(k)
  {
    if j > 0 {
      Pow2Sum(j - 1, k);
      Regroup(2, Pow2(j - 1), Pow2(k));
    }
  }

  lemma {:induction false} Pow2Monotone(j: nat, k: int)
    ensures k >= j ==> k >= 0 && Pow2(k) >= Pow2(j)
    decreases k - j
  {
    if k > j {
      Pow2Monotone(j, k - 1);
    }
  }

  lemma Pow2Three()
    ensures Pow2(3) == 8
  {}
}
