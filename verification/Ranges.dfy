/** Integer ranges, and the forward inference of the range of a result from those of the operands.

    A range holds the machine integers between its ends, which are included. */
module Ranges {
  import opened Arith
  import opened Powers
  import opened SatInt

  datatype Range = Range(min: Word, max: Word)

  const ALL := Range(MIN, MAX)
  const NONE := Range(MAX, MIN)

  predicate Has(r: Range, x: int) {
    r.min <= x <= r.max
  }

  predicate Empty(r: Range) {
    r.min > r.max
  }

  predicate Singleton(r: Range) {
    r.min == r.max
  }

  predicate Bounded(r: Range) {
    r.min != MIN && r.max != MAX
  }

  /** The ends that stand for infinity are on their own sides. */
  predicate ProperEnds(r: Range) {
    r.min != MAX && r.max != MIN
  }

  /** Is the number in the range, where MIN and MAX as ends stand for no end at all? */
  predicate HasI(r: Range, x: int) {
    (r.min == MIN || r.min <= x) && (r.max == MAX || x <= r.max)
  }

  function LeastOf(a: Word, b: Word): Word {
    if a < b then a else b
  }

  function GreatestOf(a: Word, b: Word): Word {
    if a > b then a else b
  }

  function Intersect(a: Range, b: Range): Range {
    Range(GreatestOf(a.min, b.min), LeastOf(a.max, b.max))
  }

  function Union(a: Range, b: Range): Range {
    if Empty(b) then a
    else if Empty(a) then b
    else Range(LeastOf(a.min, b.min), GreatestOf(a.max, b.max))
  }

  lemma IntersectExact(a: Range, b: Range, x: int)
    ensures Has(Intersect(a, b), x) <==> Has(a, x) && Has(b, x)
  {}

  /** The union is the smallest range that holds both. */
  lemma UnionSmallest(a: Range, b: Range, r: Range)
    requires !Empty(r)
    ensures (forall x :: Has(Union(a, b), x) ==> Has(r, x)) <==> forall x :: Has(a, x) || Has(b, x) ==> Has(r, x)
  {
    if Empty(a) {
    } else if Empty(b) {
    } else {
      assert Has(a, a.min) && Has(a, a.max) && Has(b, b.min) && Has(b, b.max);
      assert Has(Union(a, b), Union(a, b).min) && Has(Union(a, b), Union(a, b).max);
    }
  }

  /** `range_span` adds one to a saturated difference, which may overflow. */
  predicate CanSpan(r: Range) {
    r.min <= r.max ==> SatSubI(r.max, r.min) < MAX
  }

  /** The overflow, which C leaves undefined, is taken to wrap around. */
  function Span(r: Range): Word {
    if r.max < r.min then 0
    else if SatSubI(r.max, r.min) == MAX then MIN
    else SatSubI(r.max, r.min) + 1
  }

  /** The number of members; or no number, if there are too many or an end is an infinity. */
  lemma SpanCounts(r: Range)
    requires !Empty(r)
    ensures CanSpan(r) <==> r.min != MIN && r.max != MAX && r.max - r.min < MAX
    ensures Span(r) == if CanSpan(r) then r.max - r.min + 1 else MIN
  {}

  // ---- Addition

  function AddRange(a: Range, b: Range): Range {
    Range(SatAddI(a.min, b.min), SatAddI(a.max, b.max))
  }

  /** Every sum of members that does not overflow is in the computed range. */
  ghost predicate AddSound(a: Range, b: Range) {
    forall u, v :: Has(a, u) && Has(b, v) && Fits(u + v) ==> Has(AddRange(a, b), u + v)
  }

  lemma AddRangeSound(a: Range, b: Range)
    requires !Empty(a) && !Empty(b)
    ensures AddSound(a, b) <==>
              && (a.min == MAX ==> b.min >= 0) && (b.min == MAX ==> a.min >= 0)
              && (a.max == MIN && b.max != MAX ==> b.max <= 0) && (b.max == MIN && a.max != MAX ==> a.max <= 0)
    ensures ProperEnds(a) && ProperEnds(b) ==> AddSound(a, b)
  {
    assert Has(a, a.min) && Has(a, a.max) && Has(b, b.min) && Has(b, b.max);
  }

  /** It holds nothing else, unless all sums overflow: an end that is a number is a sum of numbers, and
      where there is no end there is none to one of the operands. */
  lemma AddRangeExact(a: Range, b: Range, x: Word) returns (u: int, v: int)
    requires !Empty(a) && !Empty(b) && ProperEnds(a) && ProperEnds(b)
    requires a.min != MIN && b.min != MIN ==> a.min + b.min <= MAX
    requires a.max != MAX && b.max != MAX ==> a.max + b.max >= MIN
    ensures Has(AddRange(a, b), x) ==> HasI(a, u) && HasI(b, v) && u + v == x
    ensures Bounded(a) && Bounded(b) && Has(AddRange(a, b), x) ==> Has(a, u) && Has(b, v)
  {
    if a.max != MAX || b.min != MIN {
      v := if a.max == MAX then b.min else if b.min == MIN || x - a.max > b.min then x - a.max else b.min;
    } else if a.min != MIN || b.max != MAX {
      v := if a.min == MIN then b.max else if b.max == MAX || x - a.min < b.max then x - a.min else b.max;
    } else {
      v := 0;
    }
    u := x - v;
  }

  // ---- Subtraction

  function SubRange(a: Range, b: Range): Range {
    Range(SatSubI(a.min, b.max), SatSubI(a.max, b.min))
  }

  ghost predicate SubSound(a: Range, b: Range) {
    forall u, v :: Has(a, u) && Has(b, v) && Fits(u - v) ==> Has(SubRange(a, b), u - v)
  }

  lemma SubRangeSound(a: Range, b: Range)
    requires !Empty(a) && !Empty(b)
    ensures SubSound(a, b) <==>
              && (a.min == MAX ==> b.max <= 0) && (b.max == MIN ==> a.min >= -1)
              && (a.max == MIN && b.min != MIN ==> b.min >= 0) && (b.min == MAX && a.max != MAX ==> a.max <= -1)
    ensures ProperEnds(a) && ProperEnds(b) ==> SubSound(a, b)
  {
    assert Has(a, a.min) && Has(a, a.max) && Has(b, b.min) && Has(b, b.max);
  }

  lemma SubRangeExact(a: Range, b: Range, x: Word) returns (u: int, v: int)
    requires !Empty(a) && !Empty(b) && ProperEnds(a) && ProperEnds(b)
    requires a.min != MIN && b.max != MAX ==> a.min - b.max <= MAX
    requires a.max != MAX && b.min != MIN ==> a.max - b.min >= MIN
    ensures Has(SubRange(a, b), x) ==> HasI(a, u) && HasI(b, v) && u - v == x
    ensures Bounded(a) && Bounded(b) && Has(SubRange(a, b), x) ==> Has(a, u) && Has(b, v)
  {
    if a.min != MIN || b.min != MIN {
      v := if a.min == MIN then b.min else if b.min == MIN || a.min - x > b.min then a.min - x else b.min;
    } else if a.max != MAX || b.max != MAX {
      v := if a.max == MAX then b.max else if b.max == MAX || a.max - x < b.max then a.max - x else b.max;
    } else {
      v := 0;
    }
    u := x + v;
  }

  // ---- Multiplication

  predicate CanMulRange(x: Range, y: Range) {
    && CanMulI(x.min, y.min) && CanMulI(x.min, y.max)
    && CanMulI(x.max, y.min) && CanMulI(x.max, y.max)
  }

  /** The range of a product is undefined in C exactly when the left operand ends at -1 and the right
      one at a number that is neither 0 nor MIN: the least integer is divided by -1. */
  lemma MulRangeDefined(x: Range, y: Range)
    ensures CanMulRange(x, y) <==> ((x.min == -1 || x.max == -1) ==> y.min in {0, MIN} && y.max in {0, MIN})
  {}

  function MulRange(x: Range, y: Range): Range
    requires CanMulRange(x, y)
  {
    var a, b := SatMulI(x.min, y.min), SatMulI(x.min, y.max);
    var c, d := SatMulI(x.max, y.min), SatMulI(x.max, y.max);
    Range(LeastOf(LeastOf(a, b), LeastOf(c, d)), GreatestOf(GreatestOf(a, b), GreatestOf(c, d)))
  }

  ghost predicate MulSound(x: Range, y: Range)
    requires CanMulRange(x, y)
  {
    forall u, v :: Has(x, u) && Has(y, v) && Fits(u * v) ==> Has(MulRange(x, y), u * v)
  }

  lemma SatMulISign(x: Word, y: Word)
    requires CanMulI(x, y)
    ensures (x != MIN && x != MAX) || y == 0 ==> SatMulI(x, y) == Clamp(x * y)
    ensures (x == MAX && y > 0) || (x == MIN && y < 0) ==> SatMulI(x, y) == MAX
    ensures (x == MIN && y > 0) || (x == MAX && y < 0) ==> SatMulI(x, y) == MIN
  {
    if x != MIN && x != MAX && x != 0 && y != 0 {
      SatMulClamps(x, y);
    }
  }

  /** Would the product be defined in C if both factors were compared with the infinities? */
  predicate CanMulEither(x: Word, y: Word) {
    x == 0 || y == 0 || x in {MIN, MAX} || y in {MIN, MAX} || CanMul(x, y)
  }

  /** Only the left factor is.  The other comparison is missed for -1 times the positive infinity, which
      divides the least integer by -1, and for nothing else. */
  lemma RightTestMissed(x: Word, y: Word)
    ensures CanMulEither(x, y) && !CanMulI(x, y) <==> x == -1 && y == MAX
    ensures CanMulI(x, y) ==> CanMulEither(x, y)
    ensures CanMulI(x, y) && x != 0 && y in {MIN, MAX} ==> SatMulI(x, y) == if (x > 0) == (y > 0) then MAX else MIN
  {
    if CanMulI(x, y) && x != 0 && y in {MIN, MAX} {
      SatMulISign(x, y);
      Beyond(x, y);
    }
  }

  lemma Beyond(x: Word, y: Word)
    requires x != 0 && y in {MIN, MAX}
    ensures Clamp(x * y) == if (x > 0) == (y > 0) then MAX else if x == -1 && y == MAX then MIN + 1 else MIN
  {}

  /** A product lies below the one with the larger factors. */
  lemma MulCorners(xmin: int, xmax: int, ymin: int, ymax: int, u: int, v: int)
    requires xmin <= u <= xmax && ymin <= v <= ymax
    ensures v >= 0 ==> xmin * v <= u * v <= xmax * v
    ensures v <= 0 ==> xmax * v <= u * v <= xmin * v
    ensures xmin * ymin <= xmin * v <= xmin * ymax || xmin * ymax <= xmin * v <= xmin * ymin
    ensures xmax * ymin <= xmax * v <= xmax * ymax || xmax * ymax <= xmax * v <= xmax * ymin
  {
    Scale(xmin, u, v);
    Scale(u, xmax, v);
    Scale(ymin, v, xmin);
    Scale(v, ymax, xmin);
    Scale(ymin, v, xmax);
    Scale(v, ymax, xmax);
  }

  lemma Scale(a: int, b: int, k: int)
    requires a <= b
    ensures k >= 0 ==> a * k <= b * k && k * a <= k * b
    ensures k <= 0 ==> b * k <= a * k && k * b <= k * a
  {
    if k >= 0 {
      assert (b - a) * k >= 0;
    } else {
      assert (b - a) * (-k) >= 0;
    }
  }

  lemma MulRangeSound(x: Range, y: Range)
    requires !Empty(x) && !Empty(y) && CanMulRange(x, y)
    ensures MulSound(x, y) <==> !(x.min == MAX && y.max == -1)
    ensures ProperEnds(x) ==> MulSound(x, y)
  {
    if x.min == MAX && y.max == -1 {
      assert Has(x, MAX) && Has(y, -1);
    } else {
      forall u, v | Has(x, u) && Has(y, v) && Fits(u * v) ensures Has(MulRange(x, y), u * v) {
        MulMember(x, y, u, v);
      }
    }
  }

  lemma MulMember(x: Range, y: Range, u: int, v: int)
    requires CanMulRange(x, y) && Has(x, u) && Has(y, v) && Fits(u * v)
    requires !(x.min == MAX && y.max == -1)
    ensures Has(MulRange(x, y), u * v)
  {
    MulCorners(x.min, x.max, y.min, y.max, u, v);
    SatMulISign(x.min, y.min);
    SatMulISign(x.min, y.max);
    SatMulISign(x.max, y.min);
    SatMulISign(x.max, y.max);
  }

  /** The product, where an infinite factor makes it infinite unless the other one is zero. */
  function Product(x: Word, y: Word): int {
    if x == 0 || y == 0 then 0
    else if x in {MIN, MAX} || y in {MIN, MAX} then if (x > 0) == (y > 0) then MAX else MIN
    else x * y
  }

  lemma ProductIs(x: Word, y: Word)
    requires CanMulI(x, y)
    ensures SatMulI(x, y) == Clamp(Product(x, y))
  {
    SatMulISign(x, y);
    RightTestMissed(x, y);
  }

  /** Both ends are products of ends, clamped: an end is missing only where a product has none or is too
      large. */
  lemma MulRangeTight(x: Range, y: Range) returns (lo: (Word, Word), hi: (Word, Word))
    requires CanMulRange(x, y)
    ensures lo.0 in {x.min, x.max} && lo.1 in {y.min, y.max} && MulRange(x, y).min == Clamp(Product(lo.0, lo.1))
    ensures hi.0 in {x.min, x.max} && hi.1 in {y.min, y.max} && MulRange(x, y).max == Clamp(Product(hi.0, hi.1))
    ensures forall u, v :: u in {x.min, x.max} && v in {y.min, y.max} ==>
              Has(MulRange(x, y), Clamp(Product(u, v)))
  {
    hide SatMulI, Product;
    ProductIs(x.min, y.min);
    ProductIs(x.min, y.max);
    ProductIs(x.max, y.min);
    ProductIs(x.max, y.max);
    var r := MulRange(x, y);
    lo := if r.min == SatMulI(x.min, y.min) then (x.min, y.min)
          else if r.min == SatMulI(x.min, y.max) then (x.min, y.max)
          else if r.min == SatMulI(x.max, y.min) then (x.max, y.min) else (x.max, y.max);
    hi := if r.max == SatMulI(x.min, y.min) then (x.min, y.min)
          else if r.max == SatMulI(x.min, y.max) then (x.min, y.max)
          else if r.max == SatMulI(x.max, y.min) then (x.max, y.min) else (x.max, y.max);
  }

  // ---- Remainder

  predicate Finite(d: Range) {
    Singleton(d) && d.min != MAX && d.min != MIN
  }

  function ModRange(n: Range, d: Range): Range {
    var da := GreatestOf(SatAbs(d.min), SatAbs(d.max));
    if Finite(d) && (Span(n) == 0 || da == 0) then NONE
    else if Finite(d) && SameSpan(n, da) then
      Range(RemWord(n.min, da), RemWord(n.max, da))
    else
      Range(GreatestOf(LeastOf(n.min, 0), SatNegI(SatSubI(da, 1))),
            LeastOf(GreatestOf(n.max, 0), SatSubI(da, 1)))
  }

  function RemWord(n: Word, d: Word): (r: Word)
    requires d > 0
  {
    QuotRem(n, d);
    Rem(n, d)
  }

  /** Do the remainders of the ends span as much as the ends? */
  predicate SameSpan(n: Range, d: Word)
    requires d > 0
  {
    !Empty(n) && Span(n) == Span(Range(RemWord(n.min, d), RemWord(n.max, d)))
  }

  lemma QuotMonotone(n: int, m: int, d: int)
    requires n <= m && d > 0
    ensures Quot(n, d) <= Quot(m, d)
  {
    QuotBounds(m, d, Quot(n, d));
    QuotBounds(n, d, Quot(n, d));
    QuotBounds(n, d, Quot(m, d));
    QuotBounds(m, d, Quot(m, d));
  }

  /** Between two numbers whose remainders are as far apart as they are, remainders do not wrap. */
  lemma RemBetween(lo: int, hi: int, d: int, u: int)
    requires d > 0 && lo <= u <= hi && hi - lo == Rem(hi, d) - Rem(lo, d)
    ensures Rem(lo, d) <= Rem(u, d) <= Rem(hi, d)
  {
    Distribute(Quot(hi, d), Quot(lo, d), d);
    AtLeast(Quot(hi, d) - Quot(lo, d), d);
    QuotMonotone(lo, u, d);
    QuotMonotone(u, hi, d);
  }

  ghost predicate ModSound(n: Range, d: Range) {
    forall u, v :: Has(n, u) && Has(d, v) && v != 0 ==> Has(ModRange(n, d), Rem(u, v))
  }

  /** The one kind of operands for which both spans overflow and yet remainders wrap. */
  predicate BothOverflow(n: Range, d: Range) {
    Finite(d) && Abs(d.min) > 0x4000_0000_0000_0000 && n == Range(MIN, Abs(d.min) - 1)
  }

  /** Every remainder is in the range, but for those operands. */
  lemma ModRangeSound(n: Range, d: Range)
    ensures ModSound(n, d) <==> !BothOverflow(n, d)
    ensures !Empty(n) && CanSpan(n) ==> ModSound(n, d)
  {
    if BothOverflow(n, d) {
      ModUnsound(n, d);
    } else {
      forall u, v | Has(n, u) && Has(d, v) && v != 0 ensures Has(ModRange(n, d), Rem(u, v)) {
        var da := GreatestOf(SatAbs(d.min), SatAbs(d.max));
        if Finite(d) && SameSpan(n, da) {
          RemNegative(u, v);
          ModSameSpan(n, da, u);
        } else {
          ModMember(n, d, u, v);
        }
      }
    }
  }

  lemma ModSameSpan(n: Range, d: Word, u: int)
    requires d > 0 && SameSpan(n, d) && Has(n, u) && !(d > 0x4000_0000_0000_0000 && n == Range(MIN, d - 1))
    ensures Rem(n.min, d) <= Rem(u, d) <= Rem(n.max, d)
  {
    hide Quot, Rem;
    var r := Range(RemWord(n.min, d), RemWord(n.max, d));
    QuotRem(n.min, d);
    QuotRem(n.max, d);
    SpanCounts(n);
    if !Empty(r) { SpanCounts(r); }
    if CanSpan(n) {
      RemBetween(n.min, n.max, d, u);
    } else {
      FarRemainders(n.min, n.max, d);
      QuotRem(u, d);
    }
  }

  /** Remainders are only this far apart if they are the numbers themselves, or in one other case. */
  lemma FarRemainders(lo: Word, hi: Word, d: Word)
    requires d > 0 && lo <= hi && Rem(hi, d) - Rem(lo, d) >= MAX
    ensures (Rem(lo, d) == lo <= 0 && Rem(hi, d) == hi >= 0) || (lo == MIN && hi == d - 1 && d > 0x4000_0000_0000_0000)
  {
    hide Quot;
    QuotRem(lo, d);
    QuotRem(hi, d);
    QuotBounds(hi, d, 1);
    QuotBounds(hi, d, 2);
    QuotBounds(lo, d, -1);
    QuotBounds(lo, d, -2);
    QuotBounds(lo, d, 0);
    QuotBounds(hi, d, 0);
    Steps(d, Quot(hi, d));
    Steps(d, Quot(lo, d));
  }

  lemma Steps(d: int, q: int)
    ensures q == 0 ==> q * d == 0
    ensures q == 1 ==> q * d == d
    ensures q == -1 ==> q * d == -d
  {}

  lemma ModUnsound(n: Range, d: Range)
    requires BothOverflow(n, d)
    ensures !ModSound(n, d)
  {
    hide Quot, Rem;
    var da: int := Abs(d.min);
    var u := 1 - da;
    SmallRem(da - 1, da, 0);
    SmallRem(u, da, 0);
    SmallRem(MIN, da, -1);
    RemNegative(u, d.min);
    assert Has(n, u) && Has(d, d.min);
    var r := Range(RemWord(n.min, da), RemWord(n.max, da));
    assert r == Range(MIN + da, da - 1);
    SpanCounts(n);
    SpanCounts(r);
    assert SameSpan(n, da);
  }

  lemma SmallRem(n: int, d: int, q: int)
    requires d > 0 && (q == 0 || q == -1)
    requires if q == 0 then -d < n < d else -2 * d < n <= -d
    ensures Rem(n, d) == n - q * d == if q == 0 then n else n + d
  {
    hide Quot;
    QuotBounds(n, d, 0);
    QuotBounds(n, d, 1);
    QuotBounds(n, d, -1);
    QuotBounds(n, d, -2);
    Steps(d, q);
  }

  lemma ModMember(n: Range, d: Range, u: int, v: int)
    requires Has(n, u) && Has(d, v) && v != 0
    requires !(Finite(d) && SameSpan(n, GreatestOf(SatAbs(d.min), SatAbs(d.max))))
    ensures Has(ModRange(n, d), Rem(u, v))
  {
    hide *;
    var da := GreatestOf(SatAbs(d.min), SatAbs(d.max));
    ModRangeOther(n, d, u, v, da);
    QuotRem(u, v);
    RemLimits(n, d, u, v, Rem(u, v), da);
  }

  lemma ModRangeOther(n: Range, d: Range, u: int, v: int, da: Word)
    requires da == GreatestOf(SatAbs(d.min), SatAbs(d.max))
    requires Has(n, u) && Has(d, v) && v != 0 && !(Finite(d) && SameSpan(n, da))
    ensures ModRange(n, d) == Range(GreatestOf(LeastOf(n.min, 0), SatNegI(SatSubI(da, 1))),
                                    LeastOf(GreatestOf(n.max, 0), SatSubI(da, 1)))
  {
    hide SameSpan, RemWord;
  }

  lemma RemLimits(n: Range, d: Range, u: int, v: int, r: int, da: Word)
    requires Has(n, u) && Has(d, v) && v != 0 && da == GreatestOf(SatAbs(d.min), SatAbs(d.max))
    requires Abs(r) < Abs(v) && Abs(r) <= Abs(u) && (u >= 0 ==> r >= 0) && (u <= 0 ==> r <= 0)
    ensures Has(Range(GreatestOf(LeastOf(n.min, 0), SatNegI(SatSubI(da, 1))),
                      LeastOf(GreatestOf(n.max, 0), SatSubI(da, 1))), r)
  {}

  /** The range of a remainder goes no further from zero than the dividends do, and not as far as the
      largest divisor, unless that is an infinity. */
  lemma ModRangeNarrow(n: Range, d: Range, r: int)
    requires Has(ModRange(n, d), r)
    ensures r > 0 ==> r <= n.max && (r < Abs(d.min) || r < Abs(d.max) || Abs(d.min) >= MAX || Abs(d.max) >= MAX)
    ensures r < 0 ==> r >= n.min && (-r < Abs(d.min) || -r < Abs(d.max) || Abs(d.min) >= MAX || Abs(d.max) >= MAX)
  {
    var da := GreatestOf(SatAbs(d.min), SatAbs(d.max));
    if da > 0 {
      QuotRem(n.min, da);
      QuotRem(n.max, da);
    }
  }

  /** By a constant, both ends are remainders of dividends, so that no smaller range would do.  The one
      exception is a constant whose magnitude is mistaken for an infinity. */
  lemma ModRangeTight(n: Range, d: Range) returns (u: int, v: int)
    requires Finite(d) && d.min != 0 && !Empty(n) && CanSpan(n) && !FarthestConstant(n, d)
    ensures Has(n, u) && Has(n, v) && ModRange(n, d).min == Rem(u, d.min) && ModRange(n, d).max == Rem(v, d.min)
  {
    hide Quot, Rem, SameSpan, RemWord, ModRange;
    var da: Word := Abs(d.min);
    ModRangeIs(n, d, da);
    if SameSpan(n, da) {
      u, v := n.min, n.max;
    } else if n.min < 0 < n.max {
      u, v := GreatestOf(n.min, 1 - da), LeastOf(n.max, da - 1);
      SmallRem(u, da, 0);
      SmallRem(v, da, 0);
    } else {
      RemWraps(n, da);
      u, v := Turns(n, da);
    }
    RemNegative(u, d.min);
    RemNegative(v, d.min);
  }

  predicate FarthestConstant(n: Range, d: Range) {
    d.min == -MAX == n.min && n.max > n.min
  }

  /** Then the lower end is no remainder. */
  lemma ModRangeLoose(n: Range, d: Range, u: int)
    requires Singleton(d) && CanSpan(n) && FarthestConstant(n, d)
    ensures ModRange(n, d).min == -MAX && Rem(u, d.min) > -MAX
  {
    hide Quot;
    QuotRem(u, d.min);
    SpanCounts(n);
    SmallRem(0, MAX, 0);
    MultipleRem(-1, MAX, 0);
    QuotRem(n.max, MAX);
  }

  lemma ModRangeIs(n: Range, d: Range, da: Word)
    requires Finite(d) && d.min != 0 && !Empty(n) && CanSpan(n) && da == Abs(d.min)
    ensures da > 0
    ensures SameSpan(n, da) ==> ModRange(n, d).min == Rem(n.min, da) && ModRange(n, d).max == Rem(n.max, da)
    ensures !SameSpan(n, da) && n.min > -MAX ==>
              ModRange(n, d) == Range(GreatestOf(LeastOf(n.min, 0), 1 - da), LeastOf(GreatestOf(n.max, 0), da - 1))
    ensures !SameSpan(n, da) && da < MAX ==>
              ModRange(n, d) == Range(GreatestOf(LeastOf(n.min, 0), 1 - da), LeastOf(GreatestOf(n.max, 0), da - 1))
    ensures da == MAX && n.min == n.max ==> SameSpan(n, da)
  {
    hide Rem;
    SpanCounts(n);
    QuotRem(n.min, da);
    SpanCounts(Range(RemWord(n.min, da), RemWord(n.min, da)));
  }

  /** If the ends and their remainders are not equally far apart, the quotients of the ends differ. */
  lemma RemWraps(n: Range, d: Word)
    requires d > 0 && !Empty(n) && CanSpan(n) && !SameSpan(n, d)
    ensures Quot(n.min, d) < Quot(n.max, d)
  {
    hide Quot;
    QuotMonotone(n.min, n.max, d);
    QuotRem(n.min, d);
    QuotRem(n.max, d);
    SpanCounts(n);
    if Quot(n.min, d) == Quot(n.max, d) {
      var r := Range(RemWord(n.min, d), RemWord(n.max, d));
      assert r.max - r.min == n.max - n.min;
      SpanCounts(r);
    }
  }

  /** The dividends next to a multiple of the divisor, on both sides of it. */
  lemma Turns(n: Range, d: Word) returns (u: int, v: int)
    requires d > 0 && !Empty(n) && Quot(n.min, d) < Quot(n.max, d) && (n.min >= 0 || n.max <= 0)
    ensures Has(n, u) && Has(n, v)
    ensures n.min >= 0 ==> Rem(u, d) == 0 && Rem(v, d) == d - 1 && n.max >= d
    ensures n.min < 0 ==> Rem(u, d) == 1 - d && Rem(v, d) == 0 && n.min <= -d
  {
    hide Quot, Rem;
    if n.min >= 0 {
      u, v := TurnsUp(n.min, n.max, d);
    } else {
      u, v := TurnsDown(n.min, n.max, d);
    }
  }

  lemma TurnsUp(lo: int, hi: int, d: int) returns (u: int, v: int)
    requires d > 0 && 0 <= lo <= hi && Quot(lo, d) < Quot(hi, d)
    ensures lo <= u <= hi && lo <= v <= hi && Rem(u, d) == 0 && Rem(v, d) == d - 1 && hi >= d
  {
    hide *;
    var p, q := Quot(lo, d), Quot(hi, d);
    var a := q * d;
    QuotBounds(lo, d, 0);
    QuotBounds(lo, d, p + 1);
    QuotBounds(hi, d, q);
    QuotBounds(lo, d, q);
    MultipleSteps(q, d, a);
    u, v := a, a - 1;
    MultipleRem(q, d, 0);
    MultipleRem(q - 1, d, d - 1);
  }

  lemma TurnsDown(lo: int, hi: int, d: int) returns (u: int, v: int)
    requires d > 0 && lo <= hi <= 0 && Quot(lo, d) < Quot(hi, d)
    ensures lo <= u <= hi && lo <= v <= hi && Rem(u, d) == 1 - d && Rem(v, d) == 0 && lo <= -d
  {
    hide *;
    var p, q := Quot(lo, d), Quot(hi, d);
    var a := p * d;
    QuotBounds(hi, d, 0);
    QuotBounds(lo, d, p);
    QuotBounds(hi, d, p);
    MultipleSteps(p, d, a);
    u, v := a + 1, a;
    MultipleRem(p, d, 0);
    MultipleRem(p + 1, d, 1 - d);
  }

  lemma MultipleRem(q: int, d: int, r: int)
    requires d > 0 && -d < r < d && (q > 0 ==> r >= 0) && (q < 0 ==> r <= 0)
    ensures Rem(q * d + r, d) == r
  {
    hide Quot;
    var a := q * d;
    MultipleSteps(q, d, a);
    QuotBounds(a + r, d, q);
    QuotBounds(a + r, d, q + 1);
    QuotBounds(a + r, d, q - 1);
  }

  lemma MultipleSteps(q: int, d: int, a: int)
    requires a == q * d && d > 0
    ensures (q + 1) * d == a + d && (q - 1) * d == a - d
    ensures (q > 0 ==> a >= d) && (q < 0 ==> a <= -d) && (q == 0 ==> a == 0)
  {
    hide *;
    Sum(q, 1, d);
    Distribute(q, 1, d);
    if q > 0 { Scale(1, q, d); }
    if q < 0 { Scale(q, -1, d); }
  }

  /** Otherwise the range holds exactly the numbers from the dividends to zero that are smaller than
      the largest divisor, or all of them if that is an infinity. */
  lemma ModRangeElse(n: Range, d: Range, r: Word)
    requires !Empty(n) && !(Finite(d) && (d.min == 0 || SameSpan(n, GreatestOf(SatAbs(d.min), SatAbs(d.max)))))
    ensures Has(ModRange(n, d), r) <==>
              && LeastOf(n.min, 0) <= r <= GreatestOf(n.max, 0)
              && (Abs(r) < Abs(d.min) || Abs(r) < Abs(d.max) || Abs(d.min) >= MAX || Abs(d.max) >= MAX)
  {
    hide Rem, SameSpan;
    SpanCounts(n);
  }

  lemma RemNegative(n: int, d: int)
    requires d != 0
    ensures Rem(n, -d) == Rem(n, d)
  {
    QuotSigns(n, d);
    Signs(Quot(n, d), d);
  }

  // ---- Bitwise conjunction

  /** The `i`th bit of a number in two's complement. */
  function Bit(x: int, i: nat): int
    decreases i
  {
    if i == 0 then x % 2 else Bit(x / 2, i - 1)
  }

  function And(x: int, y: int): int
    decreases Abs(x) + Abs(y)
  {
    if x == 0 || y == 0 then 0
    else if x == -1 then y
    else if y == -1 then x
    else 2 * And(x / 2, y / 2) + (x % 2) * (y % 2)
  }

  lemma {:induction false} BitsOfSame(x: int, i: nat)
    requires x == 0 || x == -1
    ensures Bit(x, i) == -x
    decreases i
  {
    if i > 0 {
      BitsOfSame(x / 2, i - 1);
    }
  }

  lemma {:induction false} BitIsBit(x: int, i: nat)
    ensures Bit(x, i) == 0 || Bit(x, i) == 1
    decreases i
  {
    if i > 0 {
      BitIsBit(x / 2, i - 1);
    }
  }

  /** `And` is the bitwise conjunction. */
  lemma {:induction false} AndBits(x: int, y: int, i: nat)
    ensures Bit(And(x, y), i) == 1 <==> Bit(x, i) == 1 && Bit(y, i) == 1
    decreases i
  {
    BitIsBit(x, i);
    BitIsBit(y, i);
    if x == 0 || x == -1 {
      BitsOfSame(x, i);
      BitsOfSame(0, i);
    } else if y == 0 || y == -1 {
      BitsOfSame(y, i);
      BitsOfSame(0, i);
    } else if i > 0 {
      AndHalf(x, y);
      AndBits(x / 2, y / 2, i - 1);
    } else {
      AndHalf(x, y);
    }
  }

  lemma AndHalf(x: int, y: int)
    requires x != 0 && x != -1 && y != 0 && y != -1
    ensures And(x, y) / 2 == And(x / 2, y / 2) && And(x, y) % 2 == (x % 2) * (y % 2)
    ensures And(x, y) % 2 <= x % 2 && And(x, y) % 2 <= y % 2
  {
    assert x % 2 == 0 || x % 2 == 1;
    assert y % 2 == 0 || y % 2 == 1;
  }

  lemma AndEnds(x: int, y: int)
    ensures x == 0 || y == 0 ==> And(x, y) == 0
    ensures x == -1 ==> And(x, y) == y
    ensures y == -1 ==> And(x, y) == x
  {}

  lemma {:induction false} AndBelow(x: int, y: int)
    ensures x >= 0 ==> 0 <= And(x, y) <= x
    ensures y >= 0 ==> 0 <= And(x, y) <= y
    ensures x < 0 && y < 0 ==> And(x, y) <= x && And(x, y) <= y
    decreases Abs(x) + Abs(y)
  {
    hide And;
    AndEnds(x, y);
    if x != 0 && x != -1 && y != 0 && y != -1 {
      AndBelow(x / 2, y / 2);
      AndHalf(x, y);
    }
  }

  lemma WordSize()
    ensures Pow2(63) == -MIN
  {
    hide Pow2;
    Pow2Three();
    Pow2Sum(3, 3);
    Pow2Sum(6, 6);
    Pow2Sum(12, 12);
    Pow2Sum(24, 24);
    Pow2Sum(48, 12);
    Pow2Sum(60, 3);
  }

  lemma {:induction false} AndFits(x: int, y: int, k: nat)
    requires x >= -Pow2(k) && y >= -Pow2(k)
    ensures And(x, y) >= -Pow2(k)
    decreases Abs(x) + Abs(y)
  {
    if x != 0 && x != -1 && y != 0 && y != -1 && k > 0 {
      AndFits(x / 2, y / 2, k - 1);
      AndHalf(x, y);
    }
    AndBelow(x, y);
  }

  function AndRange(a: Range, b: Range): Range {
    if a.min < 0 then
      if b.min < 0 then ALL else Range(0, b.max)
    else
      Range(0, if b.min < 0 then a.max else LeastOf(a.max, b.max))
  }

  lemma AndRangeSound(a: Range, b: Range, u: int, v: int)
    requires Has(a, u) && Has(b, v)
    ensures Has(AndRange(a, b), And(u, v))
  {
    AndBelow(u, v);
    WordSize();
    AndFits(u, v, 63);
  }

  /** The range of a conjunction holds exactly what an operand that is not negative leaves of it. */
  lemma AndRangeNarrow(a: Range, b: Range, r: Word)
    ensures Has(AndRange(a, b), r) <==> (a.min >= 0 ==> 0 <= r <= a.max) && (b.min >= 0 ==> 0 <= r <= b.max)
  {}
}
