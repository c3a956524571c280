/** Saturating arithmetic on machine integers.

    MAX and MIN double as infinities in the variants with a trailing `I`, which keep an infinite
    operand infinite. */
module SatInt {
  import opened Arith

  const MAX: int := 0x7fff_ffff_ffff_ffff
  const MIN: int := -0x8000_0000_0000_0000

  type Word = x: int | MIN <= x <= MAX

  function Clamp(x: int): Word {
    if x < MIN then MIN else if x > MAX then MAX else x
  }

  predicate Fits(x: int) {
    MIN <= x <= MAX
  }

  function Abs(x: int): nat {
    if x < 0 then -x else x
  }

  // ---- Division that truncates toward zero

  function Quot(n: int, d: int): int
    requires d != 0
  {
    var q := Abs(n) / Abs(d);
    if (n < 0) == (d < 0) then q else -q
  }

  function Rem(n: int, d: int): int
    requires d != 0
  {
    n - Quot(n, d) * d
  }

  lemma QuotNat(m: nat, e: nat, y: int)
    requires e > 0
    ensures y * e <= m <==> y <= m / e
    ensures m / e <= m && (e > 1 && m > 0 ==> m / e < m)
  {
    QuotientRemainder(m, e);
    Distribute(y, m / e, e);
    AtLeast(y - m / e, e);
    AtLeast(m / e - m, e);
    QuotLess(m, m / e, e);
  }

  lemma QuotLess(m: nat, q: int, e: nat)
    ensures e > 1 && m > 0 && q >= m ==> q * e > m
  {
    if e > 1 && m > 0 && q >= m {
      AtLeast(q, e - 1);
      Sum(e - 1, 1, q);
      AtLeast(e - 1, q);
    }
  }

  lemma Signs(y: int, d: int)
    ensures (-y) * d == -(y * d) == y * (-d) && (-y) * (-d) == y * d
  {}

  /** The quotient by a positive number is rounded down above zero and up below. */
  lemma QuotBounds(n: int, d: int, y: int)
    requires d != 0
    ensures n >= 0 && d > 0 ==> (y * d <= n <==> y <= Quot(n, d))
    ensures n <= 0 && d > 0 ==> (y * d >= n <==> y >= Quot(n, d))
    ensures n >= 0 && d < 0 ==> (y * d <= n <==> y >= Quot(n, d))
    ensures n <= 0 && d < 0 ==> (y * d >= n <==> y <= Quot(n, d))
  {
    QuotNat(Abs(n), Abs(d), y);
    QuotNat(Abs(n), Abs(d), -y);
    Signs(y, d);
  }

  lemma QuotFits(n: Word, d: Word)
    requires d != 0
    ensures Fits(Quot(n, d)) <==> !(n == MIN && d == -1)
    ensures Abs(Quot(n, d)) <= Abs(n) && (Abs(d) > 1 && n != 0 ==> Abs(Quot(n, d)) < Abs(n))
  {
    QuotNat(Abs(n), Abs(d), 0);
  }

  /** The remainder is small, and has the sign of `n`. */
  lemma QuotRem(n: int, d: int)
    requires d != 0
    ensures n == Quot(n, d) * d + Rem(n, d) && Abs(Rem(n, d)) < Abs(d) && Abs(Rem(n, d)) <= Abs(n)
    ensures n >= 0 ==> Rem(n, d) >= 0
    ensures n <= 0 ==> Rem(n, d) <= 0
  {
    QuotientRemainder(Abs(n), Abs(d));
    QuotNat(Abs(n), Abs(d), 0);
    Signs(Abs(n) / Abs(d), d);
  }

  /** Machine division.  The one quotient that does not fit is undefined behaviour in C. */
  function Div(n: Word, d: Word): Word
    requires d != 0 && !(n == MIN && d == -1)
  {
    QuotFits(n, d);
    Quot(n, d)
  }

  function Sign(x: Word): Word {
    if x < 0 then -1 else if x > 0 then 1 else 0
  }

  // ---- Rounding down and up

  /** `y` is at most the exact quotient of `n` by `d`. */
  predicate Under(y: int, n: int, d: int)
    requires d != 0
  {
    if d > 0 then y * d <= n else y * d >= n
  }

  predicate Over(y: int, n: int, d: int)
    requires d != 0
  {
    if d > 0 then y * d >= n else y * d <= n
  }

  function Max(a: int, b: int): int {
    if a < b then b else a
  }

  /** Rounding `n / d` down by lowering `n` first, but not beyond `limit`. */
  lemma RoundDown(n: int, d: int, limit: int, y: int)
    requires n <= 0 < d && limit <= n
    ensures var r := Quot(Max(limit, n - (d - 1)), d);
            (y * d <= n ==> y <= r) && (r * d <= n <==> Quot(limit, d) * d <= n) && (r - 1) * d <= n
  {
    var m := Max(limit, n - (d - 1));
    var r, q := Quot(m, d), Quot(limit, d);
    QuotBounds(m, d, r);
    QuotBounds(m, d, r - 1);
    QuotBounds(limit, d, r);
    Next(r, y, d);
    Next(q, r, d);
  }

  lemma Next(r: int, y: int, d: int)
    requires d > 0
    ensures y > r ==> y * d >= r * d + d
    ensures y >= r ==> y * d >= r * d
    ensures (r - 1) * d == r * d - d
  {
    Distribute(y, r, d);
    AtLeast(y - r, d);
    Distribute(r, 1, d);
  }

  lemma QuotSigns(n: int, d: int)
    requires d != 0
    ensures Quot(-n, -d) == Quot(n, d) && Quot(-n, d) == Quot(n, -d) == -Quot(n, d)
  {}

  /** `div_min` is the floor or one more, and is the floor exactly when some multiple of `d` on the near
      side of `n` is a machine integer. */
  lemma DivMinFloor(n: Word, d: Word, y: int)
    requires d != 0 && !(n == MIN && d == -1)
    ensures Under(y, n, d) ==> y <= DivMin(n, d)
    ensures Under(DivMin(n, d), n, d) <==> Under(Quot(if d > 0 then MIN else MAX, d), n, d)
    ensures Under(DivMin(n, d) - 1, n, d)
  {
    hide Quot;
    var q, r: int := Quot(if d > 0 then MIN else MAX, d), DivMin(n, d);
    if (n < 0) == (d < 0) {
      assert r == Quot(n, d);
      QuotBounds(n, d, y);
      QuotBounds(n, d, r);
      QuotBounds(n, d, r - 1);
      NearZero(n, d, q);
    } else if d > 0 {
      assert r == Quot(Max(MIN, n - (d - 1)), d);
      RoundDown(n, d, MIN, y);
    } else {
      assert r == Quot(-Max(-MAX, d + 1 - n), d);
      RoundUpNegative(n, d, MAX, y);
    }
  }

  /** The mirror images of `RoundDown`. */
  lemma RoundUpNegative(n: int, d: int, limit: int, y: int)
    requires d < 0 <= n <= limit
    ensures var r := Quot(-Max(-limit, d + 1 - n), d);
            (y * d >= n ==> y <= r) && (r * d >= n <==> Quot(limit, d) * d >= n) && (r - 1) * d >= n
  {
    hide Quot;
    RoundDown(-n, -d, -limit, y);
    var m := Max(-limit, d + 1 - n);
    var r := Quot(m, -d);
    QuotSigns(m, -d);
    QuotSigns(limit, d);
    Signs(y, d);
    Signs(r, d);
    Signs(r - 1, d);
    Signs(r + 1, d);
    Signs(Quot(limit, d), d);
  }

  lemma NearZero(n: int, d: int, q: int)
    requires d != 0 && (n < 0) == (d < 0)
    requires q == Quot(if d > 0 then MIN else MAX, d)
    ensures Under(q, n, d)
  {
    QuotBounds(0, d, q);
  }

  lemma RoundUpPositive(n: int, d: int, limit: int, y: int)
    requires 0 <= n <= limit && 0 < d
    ensures var r := Quot(-Max(-limit, 1 - d - n), d);
            (y * d >= n ==> y >= r) && (r * d >= n <==> Quot(limit, d) * d >= n) && (r + 1) * d >= n
  {
    hide Quot;
    RoundDown(-n, d, -limit, -y);
    var m := Max(-limit, 1 - d - n);
    var r := Quot(m, d);
    QuotSigns(m, d);
    QuotSigns(limit, d);
    QuotSigns(m, -d);
    Signs(y, d);
    Signs(r, d);
    Signs(r - 1, d);
    Signs(r + 1, d);
    Signs(Quot(limit, d), d);
  }

  lemma RoundDownNegative(n: int, d: int, limit: int, y: int)
    requires limit <= n <= 0 && d < 0
    ensures var r := Quot(Max(limit, n + d + 1), d);
            (y * d <= n ==> y >= r) && (r * d <= n <==> Quot(limit, d) * d <= n) && (r + 1) * d <= n
  {
    hide Quot;
    RoundDown(n, -d, limit, -y);
    var m := Max(limit, n + d + 1);
    var r := Quot(m, -d);
    QuotSigns(m, -d);
    QuotSigns(limit, -d);
    Signs(y, d);
    Signs(r, d);
    Signs(r - 1, d);
    Signs(r + 1, d);
    Signs(Quot(limit, d), d);
  }

  /** `div_max` is the ceiling or one less, and is the ceiling exactly when some multiple of `d` on the far
      side of `n` is a machine integer. */
  lemma DivMaxCeiling(n: Word, d: Word, y: int)
    requires d != 0 && !(n == MIN && d == -1)
    ensures Over(y, n, d) ==> y >= DivMax(n, d)
    ensures Over(DivMax(n, d), n, d) <==> Over(Quot(if d > 0 then MAX else MIN, d), n, d)
    ensures Over(DivMax(n, d) + 1, n, d)
  {
    hide Quot;
    var q, r: int := Quot(if d > 0 then MAX else MIN, d), DivMax(n, d);
    if (n < 0) != (d < 0) {
      assert r == Quot(n, d);
      QuotBounds(n, d, y);
      QuotBounds(n, d, r);
      QuotBounds(n, d, r + 1);
      AcrossZero(n, d, q);
    } else if d > 0 {
      assert r == Quot(-Max(-MAX, 1 - d - n), d);
      RoundUpPositive(n, d, MAX, y);
    } else {
      assert r == Quot(Max(MIN, n + d + 1), d);
      RoundDownNegative(n, d, MIN, y);
    }
  }

  lemma AcrossZero(n: int, d: int, q: int)
    requires d != 0 && (n < 0) != (d < 0)
    requires q == Quot(if d > 0 then MAX else MIN, d)
    ensures Over(q, n, d)
  {
    QuotBounds(0, d, q);
  }

  // ---- Addition, subtraction and multiplication

  function SatAdd(x: Word, y: Word): (r: Word)
    ensures r == Clamp(x + y)
  {
    if x >= 0 then
      if y > MAX - x then MAX else x + y
    else
      if y < MIN - x then MIN else x + y
  }

  function SatSub(x: Word, y: Word): (r: Word)
    ensures r == Clamp(x - y)
  {
    if x >= 0 then
      if y < x - MAX then MAX else x - y
    else
      if y > x - MIN then MIN else x - y
  }

  function SatAddI(x: Word, y: Word): Word {
    if x == MAX || y == MAX then MAX
    else if x == MIN || y == MIN then MIN
    else SatAdd(x, y)
  }

  function SatSubI(x: Word, y: Word): Word {
    if x == MAX || y == MIN then MAX
    else if x == MIN || y == MAX then MIN
    else SatSub(x, y)
  }

  function SatAbs(x: Word): Word {
    if x == MIN then MAX else Abs(x)
  }

  function SatNegI(x: Word): Word {
    if x == MIN then MAX else if x == MAX then MIN else -x
  }

  function DivMin(n: Word, d: Word): Word
    requires d != 0 && !(n == MIN && d == -1)
  {
    if (n < 0) == (d < 0) then Div(n, d) else Div(SatSub(n, d - Sign(d)), d)
  }

  function DivMax(n: Word, d: Word): Word
    requires d != 0 && !(n == MIN && d == -1)
  {
    if (n < 0) != (d < 0) then Div(n, d) else Div(SatAdd(n, d - Sign(d)), d)
  }

  /** Is the machine quotient defined? */
  predicate CanDivide(n: Word, d: Word) {
    d != 0 && !(n == MIN && d == -1)
  }

  /** Are the divisions of `sat_mul` that are reached defined? */
  predicate MulDefined(x: Word, y: Word) {
    || x == 0 || y == 0
    || var low, high := if x > 0 then MIN else MAX, if x > 0 then MAX else MIN;
       CanDivide(low, x) && (y < DivMax(low, x) || CanDivide(high, x))
  }

  lemma CanMulExact(x: Word, y: Word)
    ensures CanMul(x, y) <==> MulDefined(x, y)
  {}

  /** `sat_mul` is undefined in C only when it would divide MIN by -1. */
  predicate CanMul(x: Word, y: Word) {
    x == -1 ==> y == 0 || y == MIN
  }

  function SatMul(x: Word, y: Word): Word
    requires CanMul(x, y)
  {
    if x == 0 || y == 0 then 0 else
    var lowLimit := if x > 0 then MIN else MAX;
    var highLimit := if x > 0 then MAX else MIN;
    var minY := DivMax(lowLimit, x);
    if y < minY then lowLimit else
    SatMulCase(x, y);
    var maxY := DivMin(highLimit, x);
    if y > maxY then highLimit else
    SatMulFits(x, y);
    x * y
  }

  lemma SatMulCase(x: Word, y: Word)
    requires CanMul(x, y) && x != 0 && y != 0 && y >= Div(if x > 0 then MIN else MAX, x)
    ensures x != -1
  {}

  lemma SatMulFits(x: Word, y: Word)
    requires x != 0 && x != -1
    ensures Fits(x * y) <==> Div(if x > 0 then MIN else MAX, x) <= y <= Div(if x > 0 then MAX else MIN, x)
  {
    QuotBounds(MIN, x, y);
    QuotBounds(MAX, x, y);
  }

  /** The product, clamped to the machine range. */
  lemma SatMulClamps(x: Word, y: Word)
    requires CanMul(x, y)
    ensures SatMul(x, y) == Clamp(x * y)
  {
    if x != 0 && y != 0 {
      QuotBounds(MIN, x, y);
      QuotBounds(MAX, x, y);
    }
  }

  predicate CanMulI(x: Word, y: Word) {
    x == MIN || x == MAX || CanMul(x, y)
  }

  function SatMulI(x: Word, y: Word): Word
    requires CanMulI(x, y)
  {
    if x == 0 || y == 0 then 0
    else if x == MIN || x == MAX then if (x > 0) == (y > 0) then MAX else MIN
    else SatMul(x, y)
  }
}
