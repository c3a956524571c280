/** Facts about products and quotients. */
module Arith {
  lemma AtLeast(a: int, w: int)
    requires w > 0
    ensures a >= 1 ==> a * w >= w
    ensures a <= -1 ==> a * w <= -w
  {
    if a >= 1 {
      assert (a - 1) * w >= 0;
    }
    if a <= -1 {
      assert (-a - 1) * w >= 0;
    }
  }

  lemma QuotientRemainder(n: int, w: int)
    requires w > 0
    ensures n == (n / w) * w + n % w && 0 <= n % w < w
  {}

  lemma Distribute(p: int, q: int, w: int)
    ensures (p - q) * w == p * w - q * w
  {}

  lemma Sum(p: int, q: int, w: int)
    ensures (p + q) * w == p * w + q * w
  {}

  lemma Regroup(p: int, q: int, w: int)
    ensures (p * q) * w == p * (q * w)
  {}

  lemma Double(p: int, w: int)
    ensures (2 * p) * w == 2 * (p * w) == p * (2 * w)
  {}

  lemma QuotientUnique(p: int, r: int, q: int, s: int, w: int)
    requires w > 0 && 0 <= r < w && 0 <= s < w && p * w + r == q * w + s
    ensures p == q && r == s
  {
    Distribute(p, q, w);
    AtLeast(p - q, w);
  }

  lemma QuotientOf(p: int, r: int, w: int)
    requires w > 0 && 0 <= r < w
    ensures (p * w + r) / w == p && (p * w + r) % w == r
  {
    var n := p * w + r;
    QuotientRemainder(n, w);
    QuotientUnique(n / w, n % w, p, r, w);
  }
}
