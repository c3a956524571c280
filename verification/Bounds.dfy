/** Backward inference: from the range requested of a result and one constant operand, the range
    that the other operand has to be in. */
module Bounds {
  import opened Options
  import opened Arith
  import opened SatInt
  import opened Ranges

  datatype Op = Add | Sub | Mul | Div | Lt | Lte | Gt | Gte | Eq | Neq | EqS | NeqS | Other

  function DivMinI(n: Word, d: Word): Word
    requires d != 0
  {
    if n == MAX || n == MIN then n else DivMin(n, d)
  }

  function DivMaxI(n: Word, d: Word): Word
    requires d != 0
  {
    if n == MAX || n == MIN then n else DivMax(n, d)
  }

  // ---- The bounds

  /** The range of `y` for `y + k`, and for `k + y`. */
  function AddBound(bound: Range, k: Word): Range {
    Range(SatSubI(bound.min, k), SatSubI(bound.max, k))
  }

  /** The range of `y` for `k - y`. */
  function SubFromBound(bound: Range, k: Word): Range {
    Range(SatSubI(k, bound.max), SatSubI(k, bound.min))
  }

  /** The range of `y` for `y - k`. */
  function SubBound(bound: Range, k: Word): Range {
    Range(SatAddI(bound.min, k), SatAddI(bound.max, k))
  }

  /** The range of `y` for `y * k`, and for `k * y`. */
  function MulBound(bound: Range, k: Word): Range {
    if k > 0 then Range(DivMaxI(bound.min, k), DivMinI(bound.max, k))
    else if k < 0 then Range(DivMaxI(bound.max, k), DivMinI(bound.min, k))
    else ALL
  }

  predicate CanDivBound(bound: Range, k: Word) {
    CanMulI(bound.min, k) && CanMulI(bound.max, k)
  }

  /** The range of `y` for `y / k`. */
  function DivBound(bound: Range, k: Word): Range
    requires k != 0 && CanDivBound(bound, k)
  {
    if k > 0 then Range(SatMulI(bound.min, k), SatMulI(bound.max, k))
    else Range(SatMulI(bound.max, k), SatMulI(bound.min, k))
  }

  // ---- Addition and subtraction

  /** No operand `y` whose sum `p` with `k` is requested is excluded. */
  ghost predicate AddBoundSound(bound: Range, k: Word) {
    forall p :: Has(bound, p) && Fits(p - k) ==> Has(AddBound(bound, k), p - k)
  }

  ghost predicate SubFromBoundSound(bound: Range, k: Word) {
    forall p :: Has(bound, p) && Fits(k - p) ==> Has(SubFromBound(bound, k), k - p)
  }

  ghost predicate SubBoundSound(bound: Range, k: Word) {
    forall p :: Has(bound, p) && Fits(p + k) ==> Has(SubBound(bound, k), p + k)
  }

  lemma AddBackward(bound: Range, k: Word)
    requires !Empty(bound)
    ensures AddBoundSound(bound, k) <==>
              && (k == MIN ==> bound.min >= -1) && (k == MAX && bound.max != MAX ==> bound.max <= -1)
              && (bound.min == MAX ==> k <= 0) && (bound.max == MIN && k != MIN ==> k >= 0)
    ensures ProperEnds(bound) && k != MIN && k != MAX ==> AddBoundSound(bound, k)
  {
    assert Has(bound, bound.min) && Has(bound, bound.max);
  }

  lemma SubFromBackward(bound: Range, k: Word)
    requires !Empty(bound)
    ensures SubFromBoundSound(bound, k) <==>
              && (k == MAX ==> bound.max <= 0) && (k == MIN && bound.min != MIN ==> bound.min >= 0)
              && (bound.max == MIN ==> k >= -1) && (bound.min == MAX && k != MAX ==> k <= -1)
    ensures ProperEnds(bound) && k != MIN && k != MAX ==> SubFromBoundSound(bound, k)
  {
    assert Has(bound, bound.min) && Has(bound, bound.max);
  }

  lemma SubBackward(bound: Range, k: Word)
    requires !Empty(bound)
    ensures SubBoundSound(bound, k) <==>
              && (k == MAX ==> bound.min >= 0) && (k == MIN && bound.max != MAX ==> bound.max <= 0)
              && (bound.min == MAX ==> k >= 0) && (bound.max == MIN && k != MAX ==> k <= 0)
    ensures ProperEnds(bound) && k != MIN && k != MAX ==> SubBoundSound(bound, k)
  {
    assert Has(bound, bound.min) && Has(bound, bound.max);
  }

  /** The bounds of sums and differences admit nothing else, unless no operand would do. */
  lemma SumsExact(bound: Range, k: Word, y: Word)
    requires ProperEnds(bound) && k != MIN && k != MAX
    ensures Fits(k + y) && bound.min - k <= MAX && bound.max - k >= MIN ==>
              (Has(AddBound(bound, k), y) <==> Has(bound, k + y))
    ensures Fits(k - y) && k - bound.max <= MAX && k - bound.min >= MIN ==>
              (Has(SubFromBound(bound, k), y) <==> Has(bound, k - y))
    ensures Fits(y - k) && bound.min + k <= MAX && bound.max + k >= MIN ==>
              (Has(SubBound(bound, k), y) <==> Has(bound, y - k))
  {}

  // ---- Multiplication

  ghost predicate MulBoundSound(bound: Range, k: Word) {
    forall y: Word :: Multiplies(bound, k, y) ==> Has(MulBound(bound, k), y)
  }

  predicate Multiplies(bound: Range, k: Word, y: int) {
    Has(bound, y * k)
  }

  /** By a positive constant: sound, but for a single requested product that is an infinity. */
  lemma MulBackward(bound: Range, k: Word)
    requires !Empty(bound) && k > 0
    ensures MulBoundSound(bound, k) <==>
              && (bound.min == MAX ==> k == 1 || Quot(MAX, k) * k != MAX)
              && (bound.max == MIN ==> k == 1 || Quot(MIN, k) * k != MIN)
    ensures ProperEnds(bound) ==> MulBoundSound(bound, k)
  {
    hide Quot, MulBound;
    if ProperEnds(bound) {
      forall y: Word | Multiplies(bound, k, y) ensures Has(MulBound(bound, k), y) {
        MulBoundMember(bound, k, y);
      }
    } else {
      var n := if bound.min == MAX then MAX else MIN;
      MulBoundAt(bound, n, k);
      forall y: Word | Multiplies(bound, k, y) ensures y == Quot(n, k) {
        Divisor(n, k, y);
      }
      QuotFits(n, k);
      assert Quot(n, k) * k == n ==> Multiplies(bound, k, Quot(n, k));
      QuotOfOne(n);
    }
  }

  /** A single infinity is never taken for a number. */
  lemma MulBoundAt(bound: Range, n: Word, k: Word)
    requires k > 0 && bound == Range(n, n) && (n == MIN || n == MAX)
    ensures MulBound(bound, k) == bound
  {}

  lemma QuotOfOne(n: int)
    ensures Quot(n, 1) == n
  {
    QuotientOf(Abs(n), 0, 1);
  }

  lemma Divisor(n: int, k: int, y: int)
    requires k != 0 && y * k == n
    ensures y == Quot(n, k)
  {
    hide Quot;
    var q := Quot(n, k);
    QuotBounds(n, k, y);
    QuotBounds(n, k, q);
    Distribute(y, q, k);
    Signs(y - q, k);
    AtLeast(y - q, Abs(k));
  }

  lemma MulBoundMember(bound: Range, k: Word, y: Word)
    requires k > 0 && ProperEnds(bound) && Multiplies(bound, k, y)
    ensures Has(MulBound(bound, k), y)
  {
    hide Quot;
    DivMaxCeiling(bound.min, k, y);
    DivMinFloor(bound.max, k, y);
  }

  /** The operand whose product with the negative `k` is the least that fits. */
  function Furthest(k: Word): (y: Word)
    requires k < 0
  {
    QuotFits(MIN, k);
    if k == -1 then MAX else Quot(MIN, k)
  }

  lemma Products(k: Word, y: Word)
    requires k < 0
    ensures Fits(Quot(MAX, k)) && Quot(MAX, k) <= 0 && 0 <= Quot(MAX, k) * k <= MAX
    ensures Furthest(k) >= 0 && MIN <= Furthest(k) * k <= 0
    ensures y * k <= MAX ==> y * k <= Quot(MAX, k) * k
    ensures y * k >= MIN ==> y * k >= Furthest(k) * k
  {
    hide Quot;
    var q, f := Quot(MAX, k), Furthest(k);
    QuotFits(MAX, k);
    QuotBounds(MAX, k, y);
    QuotBounds(MAX, k, q);
    QuotBounds(MAX, k, 0);
    QuotBounds(MIN, k, y);
    QuotBounds(MIN, k, f);
    QuotBounds(MIN, k, 0);
    if y >= q { Scale(q, y, k); }
    if y <= f { Scale(y, f, k); }
    Scale(q, 0, k);
    Scale(0, f, k);
  }

  /** By a negative constant: sound unless the requested range reaches to an infinity and some
      product is in it. */
  lemma MulBackwardNegative(bound: Range, k: Word)
    requires !Empty(bound) && k < 0
    ensures MulBoundSound(bound, k) <==>
              && (bound.max == MAX ==> Quot(MAX, k) * k < bound.min)
              && (bound.min == MIN ==> Furthest(k) * k > bound.max)
    ensures Bounded(bound) ==> MulBoundSound(bound, k)
  {
    hide Quot, Furthest;
    Products(k, 0);
    if Bounded(bound) {
      forall y: Word | Multiplies(bound, k, y) ensures Has(MulBound(bound, k), y) {
        DivMaxCeiling(bound.max, k, y);
        DivMinFloor(bound.min, k, y);
      }
    } else {
      forall y: Word | Multiplies(bound, k, y)
        ensures bound.max == MAX ==> Quot(MAX, k) * k >= bound.min
        ensures bound.min == MIN ==> Furthest(k) * k <= bound.max
      {
        Products(k, y);
      }
      if bound.max == MAX && Quot(MAX, k) * k >= bound.min {
        assert Multiplies(bound, k, Quot(MAX, k));
      } else if bound.min == MIN && Furthest(k) * k <= bound.max {
        assert Multiplies(bound, k, Furthest(k));
      }
    }
  }

  /** By zero: every operand gives zero, and none is excluded. */
  lemma MulBackwardZero(bound: Range, y: Word)
    ensures MulBoundSound(bound, 0)
    ensures Has(bound, 0) ==> (Has(MulBound(bound, 0), y) <==> Multiplies(bound, 0, y))
  {}

  /** Neither quotient of an end is rounded to a number beyond the machine range; and by a negative
      constant, both ends are numbers. */
  predicate NoneSaturates(bound: Range, k: Word)
    requires k != 0
  {
    var least, greatest := if k > 0 then bound.min else bound.max, if k > 0 then bound.max else bound.min;
    && (least != MIN ==> Over(Quot(if k > 0 then MAX else MIN, k), least, k))
    && (greatest != MAX ==> Under(Quot(if k > 0 then MIN else MAX, k), greatest, k))
    && (k < 0 ==> Bounded(bound))
  }

  /** Where neither rounding saturates, the bound of a product admits nothing else, and where the request
      has no end, neither has the bound. */
  lemma MulBoundExact(bound: Range, k: Word, y: Word)
    requires k != 0 && ProperEnds(bound) && NoneSaturates(bound, k)
    ensures Has(MulBound(bound, k), y) <==> HasI(bound, y * k)
  {
    hide Quot;
    var r := MulBound(bound, k);
    var least, greatest := if k > 0 then bound.min else bound.max, if k > 0 then bound.max else bound.min;
    if least != MIN { DivMaxCeiling(least, k, y); }
    if greatest != MAX { DivMinFloor(greatest, k, y); }
    if r.min <= y { Scale(r.min, y, k); }
    if y <= r.max { Scale(y, r.max, k); }
  }

  // ---- Division

  ghost predicate DivBoundSound(bound: Range, k: Word)
    requires k != 0 && CanDivBound(bound, k)
  {
    forall y: Word :: Divides(bound, k, y) ==> Has(DivBound(bound, k), y)
  }

  predicate Divides(bound: Range, k: Word, y: int)
    requires k != 0
  {
    Has(bound, Quot(y, k))
  }

  /** Numbers that are rounded toward an end at or across zero are missed, unless the product of
      that end has saturated. */
  predicate DivRounds(bound: Range, k: Word)
    requires k != 0
  {
    if k == 1 then false
    else if k == -1 then bound.min == MAX
    else if k > 0 then (bound.min <= 0 && bound.min * k > MIN) || (bound.max >= 0 && bound.max * k < MAX)
    else (bound.min <= 0 && bound.min * k < MAX) || (bound.max >= 0 && bound.max * k > MIN)
  }

  lemma DivBackward(bound: Range, k: Word)
    requires !Empty(bound) && k != 0 && CanDivBound(bound, k)
    ensures DivBoundSound(bound, k) <==> !DivRounds(bound, k)
  {
    hide Quot, DivBound;
    if DivRounds(bound, k) {
      var y := DivMissed(bound, k);
    } else {
      forall y: Word | Divides(bound, k, y) ensures Has(DivBound(bound, k), y) {
        DivBoundMember(bound, k, y);
      }
    }
  }

  /** Every requested quotient is reached: the number whose quotient it is without rounding is not excluded. */
  lemma DivProducts(bound: Range, k: Word, p: int)
    requires k != 0 && CanDivBound(bound, k) && ProperEnds(bound) && Has(bound, p) && Fits(p * k)
    ensures Quot(p * k, k) == p && Has(DivBound(bound, k), p * k)
  {
    hide Quot, SatMulI;
    Divisor(p * k, k, p);
    if k > 0 {
      Scale(bound.min, p, k);
      Scale(p, bound.max, k);
    } else {
      Scale(bound.min, p, k);
      Scale(p, bound.max, k);
    }
    MulIEnds(bound.min, k, p * k);
    MulIEnds(bound.max, k, p * k);
  }

  /** Requested between infinities that are used as such, the bound of a dividend admits nothing that has
      another quotient: nothing beyond the products of the ends, where these are numbers. */
  lemma DivBoundExact(bound: Range, k: Word, y: Word)
    requires k != 0 && CanDivBound(bound, k) && ProperEnds(bound) && Has(DivBound(bound, k), y) && Fits(Quot(y, k))
    requires bound.min != MIN ==> Fits(bound.min * k)
    requires bound.max != MAX ==> Fits(bound.max * k)
    ensures Divides(bound, k, y)
  {
    hide Quot;
    SatMulISign(bound.min, k);
    SatMulISign(bound.max, k);
    if bound.min != MIN { QuotAtLeast(bound.min, k, y); }
    if bound.max != MAX { QuotAtMost(bound.max, k, y); }
  }

  lemma QuotAtLeast(x: Word, k: Word, y: Word)
    requires k != 0 && if k > 0 then x * k <= y else x * k >= y
    ensures x <= Quot(y, k)
  {
    hide Quot;
    Divisor(x * k, k, x);
    if k > 0 { QuotMonotone(x * k, y, k); } else { QuotAntitone(y, x * k, k); }
  }

  lemma QuotAtMost(x: Word, k: Word, y: Word)
    requires k != 0 && if k > 0 then y <= x * k else y >= x * k
    ensures Quot(y, k) <= x
  {
    hide Quot;
    Divisor(x * k, k, x);
    if k > 0 { QuotMonotone(y, x * k, k); } else { QuotAntitone(x * k, y, k); }
  }

  lemma QuotAntitone(n: int, m: int, d: int)
    requires n <= m && d < 0
    ensures Quot(m, d) <= Quot(n, d)
  {
    hide Quot;
    QuotSigns(n, d);
    QuotSigns(m, d);
    QuotMonotone(n, m, -d);
  }

  lemma MulIEnds(x: Word, k: Word, y: Word)
    requires CanMulI(x, k) && k != 0
    ensures x * k <= y ==> SatMulI(x, k) <= y
    ensures x * k >= y && !(x == MAX && k == -1) ==> SatMulI(x, k) >= y
  {
    SatMulISign(x, k);
    if k > 1 { Scale(2, k, MAX); Scale(2, k, MIN); }
    if k < -1 { Scale(k, -2, MAX); Scale(k, -2, MIN); }
  }

  /** Quotients beyond zero come from numbers beyond the product. */
  lemma QuotSide(y: int, k: int, x: int)
    requires k != 0
    ensures 0 < x <= Quot(y, k) ==> if k > 0 then x * k <= y else x * k >= y
    ensures 0 > x >= Quot(y, k) ==> if k > 0 then x * k >= y else x * k <= y
    ensures k == 1 || k == -1 ==> Quot(y, k) == y * k
  {
    hide Quot;
    QuotBounds(y, k, x);
    QuotBounds(y, k, 0);
    if k == 1 || k == -1 { Divisor(y, k, y * k); }
  }

  lemma DivBoundMember(bound: Range, k: Word, y: Word)
    requires k != 0 && CanDivBound(bound, k) && Divides(bound, k, y) && !DivRounds(bound, k)
    ensures Has(DivBound(bound, k), y)
  {
    hide Quot, SatMulI;
    QuotSide(y, k, bound.min);
    QuotSide(y, k, bound.max);
    MulIEnds(bound.min, k, y);
    MulIEnds(bound.max, k, y);
  }

  /** One step beyond a product, away from zero. */
  lemma QuotAway(x: int, k: Word, y: int)
    requires k > 1 || k < -1
    requires (x >= 0 && y == x * k + Sign(k)) || (x <= 0 && y == x * k - Sign(k))
    ensures Quot(y, k) == x
  {
    hide Quot;
    if x >= 0 { Scale(0, x, k); } else { Scale(x, 0, k); }
    Sum(x, 1, k);
    Distribute(x, 1, k);
    QuotBounds(y, k, x);
    QuotBounds(y, k, x - 1);
    QuotBounds(y, k, x + 1);
  }

  lemma MissedBelow(bound: Range, k: Word) returns (y: Word)
    requires !Empty(bound) && (k > 1 || k < -1) && CanDivBound(bound, k) && bound.min <= 0
    requires if k > 0 then bound.min * k > MIN else bound.min * k < MAX
    ensures Divides(bound, k, y) && !Has(DivBound(bound, k), y)
  {
    hide Quot, SatMulI;
    Scale(bound.min, 0, k);
    Scale(MIN, -1, k);
    SatMulISign(bound.min, k);
    y := bound.min * k - Sign(k);
    QuotAway(bound.min, k, y);
  }

  lemma MissedAbove(bound: Range, k: Word) returns (y: Word)
    requires !Empty(bound) && (k > 1 || k < -1) && CanDivBound(bound, k) && bound.max >= 0
    requires if k > 0 then bound.max * k < MAX else bound.max * k > MIN
    ensures Divides(bound, k, y) && !Has(DivBound(bound, k), y)
  {
    hide Quot, SatMulI;
    Scale(0, bound.max, k);
    Scale(1, MAX, k);
    SatMulISign(bound.max, k);
    y := bound.max * k + Sign(k);
    QuotAway(bound.max, k, y);
  }

  /** The next number beyond the product of an end is rounded toward it. */
  lemma DivMissed(bound: Range, k: Word) returns (y: Word)
    requires !Empty(bound) && k != 0 && CanDivBound(bound, k) && DivRounds(bound, k)
    ensures Divides(bound, k, y) && !Has(DivBound(bound, k), y)
  {
    hide Quot;
    if k == -1 {
      y := -MAX;
      QuotSide(y, k, 0);
    } else if bound.min <= 0 && if k > 0 then bound.min * k > MIN else bound.min * k < MAX {
      y := MissedBelow(bound, k);
    } else {
      y := MissedAbove(bound, k);
    }
  }

  // ---- Arithmetic

  predicate IsArith(op: Op, left: bool) {
    op in {Add, Sub, Mul} || (op == Div && !left)
  }

  /** The result of the operation on the constant `k`, which may be on the left, and `y`. */
  function Result(op: Op, left: bool, k: int, y: int): int
    requires IsArith(op, left) && (op == Div ==> k != 0)
  {
    if op == Add then y + k
    else if op == Sub then if left then k - y else y - k
    else if op == Mul then y * k
    else Quot(y, k)
  }

  /** The bound of the other operand. */
  function BoundOf(op: Op, left: bool, k: Word, bound: Range): Range
    requires IsArith(op, left) && (op == Div ==> k != 0 && CanDivBound(bound, k))
  {
    if op == Add then AddBound(bound, k)
    else if op == Sub then if left then SubFromBound(bound, k) else SubBound(bound, k)
    else if op == Mul then MulBound(bound, k)
    else DivBound(bound, k)
  }

  /** Constants and requests for which no good operand may be lost: infinities are used as such, a product
      with a negative constant is requested within bounds, and a quotient where no rounding matters. */
  predicate Reliable(op: Op, k: Word, bound: Range) {
    && ProperEnds(bound)
    && (op in {Add, Sub} ==> k != MIN && k != MAX)
    && (op == Mul && k < 0 ==> Bounded(bound))
    && (op == Div ==> k != 0 && !DivRounds(bound, k))
  }

  lemma ArithBackward(op: Op, left: bool, k: Word, bound: Range, y: Word)
    requires IsArith(op, left) && Reliable(op, k, bound) && (op == Div ==> CanDivBound(bound, k))
    requires Has(bound, Result(op, left, k, y))
    ensures Has(BoundOf(op, left, k, bound), y)
  {
    hide Quot, MulBound, DivBound, DivRounds;
    if op == Add {
      AddBackward(bound, k);
      assert Fits((y + k) - k);
    } else if op == Sub {
      SubFromBackward(bound, k);
      SubBackward(bound, k);
      assert if left then Fits(k - (k - y)) else Fits((y - k) + k);
    } else if op == Mul {
      assert Multiplies(bound, k, y);
      if k > 0 {
        MulBackward(bound, k);
      } else if k < 0 {
        MulBackwardNegative(bound, k);
      } else {
        MulBackwardZero(bound, y);
      }
    } else {
      DivBackward(bound, k);
      assert Divides(bound, k, y);
    }
  }

  /** Constants and requests for which nothing else is admitted: no bound is clamped. */
  predicate Unclamped(op: Op, left: bool, k: Word, bound: Range) {
    && ProperEnds(bound) && IsArith(op, left)
    && (op in {Add, Sub} ==> k != MIN && k != MAX)
    && (op == Add ==> bound.min - k <= MAX && bound.max - k >= MIN)
    && (op == Sub && left ==> k - bound.max <= MAX && k - bound.min >= MIN)
    && (op == Sub && !left ==> bound.min + k <= MAX && bound.max + k >= MIN)
    && (op == Mul ==> k != 0 && NoneSaturates(bound, k))
    && (op == Div ==> k != 0 && (bound.min != MIN ==> Fits(bound.min * k)) && (bound.max != MAX ==> Fits(bound.max * k)))
  }

  lemma ArithExact(op: Op, left: bool, k: Word, bound: Range, y: Word)
    requires Unclamped(op, left, k, bound) && (op == Div ==> CanDivBound(bound, k))
    requires Has(BoundOf(op, left, k, bound), y) && Fits(Result(op, left, k, y))
    ensures Has(bound, Result(op, left, k, y))
  {
    hide Quot, MulBound, DivBound;
    if op in {Add, Sub} {
      SumsExact(bound, k, y);
    } else if op == Mul {
      MulBoundExact(bound, k, y);
    } else {
      DivBoundExact(bound, k, y);
    }
  }

  /** `bound_contexts_arith`: `args` holds the bounds of the two operands' contexts, and `lhs` and
      `rhs` the values of the operands that are constants.  Without a current trace entry nothing
      is inferred, and a constant left operand takes precedence.  No operand that gives a requested
      result is excluded, where that can be relied on; and no other is admitted, where nothing is
      clamped.  Of the dividends, no exact multiple is excluded in any case. */
  method BoundContextsArith(tracing: bool, op: Op, lhs: Option<Word>, rhs: Option<Word>,
                            bound: Range, args: array<Range>)
      returns (inferred: bool)
    requires args.Length == 2
    requires op == Div && lhs.None? && rhs.Some? && rhs.value != 0 ==> CanDivBound(bound, rhs.value)
    modifies args
    ensures inferred <==> tracing && (lhs.Some? || rhs.Some?) && IsArith(op, lhs.Some?)
    ensures !inferred || (op == Div && rhs.value == 0) ==> args[..] == old(args[..])
    ensures inferred ==> args[if lhs.Some? then 0 else 1] == old(args[if lhs.Some? then 0 else 1])
    ensures inferred && !(op == Div && rhs.value == 0) ==>
              var left := lhs.Some?;
              var k, other := if left then lhs.value else rhs.value, args[if left then 1 else 0];
              && other == BoundOf(op, left, k, bound)
              && (Reliable(op, k, bound) ==> forall y: Word :: Has(bound, Result(op, left, k, y)) ==> Has(other, y))
              && (Unclamped(op, left, k, bound) ==>
                    forall y: Word :: Has(other, y) && Fits(Result(op, left, k, y)) ==> Has(bound, Result(op, left, k, y)))
              && (op == Div && ProperEnds(bound) ==> forall p :: Has(bound, p) && Fits(p * k) ==> Has(other, p * k))
  {
    inferred := InferArith(tracing, op, lhs, rhs, bound, args);
    if inferred && !(op == Div && rhs.value == 0) {
      ghost var left := lhs.Some?;
      ghost var k := if left then lhs.value else rhs.value;
      forall y: Word | Reliable(op, k, bound) && Has(bound, Result(op, left, k, y))
        ensures Has(BoundOf(op, left, k, bound), y)
      {
        ArithBackward(op, left, k, bound, y);
      }
      forall y: Word | Unclamped(op, left, k, bound) && Has(BoundOf(op, left, k, bound), y) && Fits(Result(op, left, k, y))
        ensures Has(bound, Result(op, left, k, y))
      {
        ArithExact(op, left, k, bound, y);
      }
      forall p | op == Div && ProperEnds(bound) && Has(bound, p) && Fits(p * k)
        ensures Has(BoundOf(op, left, k, bound), p * k)
      {
        DivProducts(bound, k, p);
      }
    }
  }

  /** The branches of `bound_contexts_arith`. */
  method InferArith(tracing: bool, op: Op, lhs: Option<Word>, rhs: Option<Word>, bound: Range, args: array<Range>)
      returns (inferred: bool)
    requires args.Length == 2
    requires op == Div && lhs.None? && rhs.Some? && rhs.value != 0 ==> CanDivBound(bound, rhs.value)
    modifies args
    ensures inferred <==> tracing && (lhs.Some? || rhs.Some?) && IsArith(op, lhs.Some?)
    ensures !inferred || (op == Div && rhs.value == 0) ==> args[..] == old(args[..])
    ensures inferred ==> args[if lhs.Some? then 0 else 1] == old(args[if lhs.Some? then 0 else 1])
    ensures inferred && !(op == Div && rhs.value == 0) ==>
              args[if lhs.Some? then 1 else 0] == BoundOf(op, lhs.Some?, if lhs.Some? then lhs.value else rhs.value, bound)
  {
    hide DivMaxI, DivMinI;
    if !tracing {
      return false;
    }
    if lhs.Some? {
      var k := lhs.value;
      match op {
        case Add =>
          args[1] := Range(SatSubI(bound.min, k), SatSubI(bound.max, k));
        case Sub =>
          args[1] := Range(SatSubI(k, bound.max), SatSubI(k, bound.min));
        case Mul =>
          if k > 0 {
            args[1] := Range(DivMaxI(bound.min, k), DivMinI(bound.max, k));
          } else if k < 0 {
            args[1] := Range(DivMaxI(bound.max, k), DivMinI(bound.min, k));
          } else {
            args[1] := ALL;
          }
        case _ =>
          return false;
      }
      return true;
    } else if rhs.Some? {
      var k := rhs.value;
      match op {
        case Add =>
          args[0] := Range(SatSubI(bound.min, k), SatSubI(bound.max, k));
        case Sub =>
          args[0] := Range(SatAddI(bound.min, k), SatAddI(bound.max, k));
        case Mul =>
          if k > 0 {
            args[0] := Range(DivMaxI(bound.min, k), DivMinI(bound.max, k));
          } else if k < 0 {
            args[0] := Range(DivMaxI(bound.max, k), DivMinI(bound.min, k));
          } else {
            args[0] := ALL;
          }
        case Div =>
          if k > 0 {
            args[0] := Range(SatMulI(bound.min, k), SatMulI(bound.max, k));
          } else if k < 0 {
            args[0] := Range(SatMulI(bound.max, k), SatMulI(bound.min, k));
          }
        case _ =>
          return false;
      }
      return true;
    } else {
      return false;
    }
  }

  // ---- Comparisons

  const FALSE: Word := 0

  predicate Compare(op: Op, x: int, y: int)
    requires op in COMPARISONS
  {
    match op
    case Lt => x < y
    case Lte => x <= y
    case Gt => x > y
    case Gte => x >= y
    case Eq => x == y
    case EqS => x == y
    case Neq => x != y
    case NeqS => x != y
  }

  const COMPARISONS := {Lt, Lte, Gt, Gte, Eq, EqS, Neq, NeqS}

  /** The comparison with its operands exchanged. */
  function Reversed(op: Op): (r: Op)
    ensures op in COMPARISONS ==> r in COMPARISONS && forall x, y :: Compare(r, x, y) <==> Compare(op, y, x)
  {
    match op
    case Lt => Gt
    case Lte => Gte
    case Gt => Lt
    case Gte => Lte
    case _ => op
  }

  /** The comparison with the opposite result. */
  function Negated(op: Op): (r: Op)
    ensures op in COMPARISONS ==> r in COMPARISONS && forall x, y :: Compare(r, x, y) <==> !Compare(op, x, y)
  {
    match op
    case Lt => Gte
    case Lte => Gt
    case Gt => Lte
    case Gte => Lt
    case Eq => Neq
    case Neq => Eq
    case EqS => NeqS
    case NeqS => EqS
    case _ => op
  }

  /** Does the other operand `y` make the comparison with the constant come out as requested? */
  predicate Yields(op: Op, lhs: Option<Word>, rhs: Option<Word>, y: int, wanted: bool)
    requires op in COMPARISONS && (lhs.Some? || rhs.Some?)
  {
    (if lhs.Some? then Compare(op, lhs.value, y) else Compare(op, y, rhs.value)) == wanted
  }

  /** The numbers that compare with `k` as wanted; a strict comparison with an infinity takes the
      infinity in. */
  method Compared(op: Op, k: Word) returns (bound: Range)
    requires op in COMPARISONS && op !in {Neq, NeqS}
    ensures forall y: Word :: Compare(op, y, k) ==> Has(bound, y)
    ensures forall y: Word :: Has(bound, y) && !(y == k && (k == MIN || k == MAX)) ==> Compare(op, y, k)
  {
    bound := ALL;
    match op {
      case Lt => bound := bound.(max := SatSubI(k, 1));
      case Lte => bound := bound.(max := k);
      case Gt => bound := bound.(min := SatAddI(k, 1));
      case Gte => bound := bound.(min := k);
      case _ => bound := Range(k, k);
    }
  }

  /** `bound_contexts_cmp`.  Only the bound of the other operand is written, and it admits exactly
      the numbers that yield the requested truth value; but a strict comparison with an infinity,
      which none may satisfy, admits that infinity too. */
  method BoundContextsCmp(tracing: bool, op: Op, lhs: Option<Word>, rhs: Option<Word>,
                          requested: Option<Range>, args: array<Range>)
      returns (inferred: bool)
    requires args.Length == 2 && op in COMPARISONS
    modifies args
    ensures inferred ==> tracing && requested.Some? && Singleton(requested.value) && (lhs.Some? || rhs.Some?)
    ensures !inferred && tracing && requested.Some? && Singleton(requested.value) && (lhs.Some? || rhs.Some?) ==>
              op in (if requested.value.min == FALSE then {Eq, EqS} else {Neq, NeqS})
    ensures !inferred ==> args[..] == old(args[..])
    ensures inferred && lhs.Some? ==> args[0] == old(args[0])
    ensures inferred && lhs.None? ==> args[1] == old(args[1])
    ensures inferred ==> forall y: Word {:trigger Yields(op, lhs, rhs, y, requested.value.min != FALSE)} ::
              Yields(op, lhs, rhs, y, requested.value.min != FALSE) ==> Has(args[if lhs.Some? then 1 else 0], y)
    ensures inferred ==> forall y: Word {:trigger Yields(op, lhs, rhs, y, requested.value.min != FALSE)} ::
              Has(args[if lhs.Some? then 1 else 0], y) && (y == MIN || y == MAX ==> lhs != Some(y) && (lhs.Some? || rhs != Some(y)))
              ==> Yields(op, lhs, rhs, y, requested.value.min != FALSE)
  {
    if !tracing || requested.None? || !Singleton(requested.value) {
      return false;
    }
    var effective, k, other := op, 0, 0;
    if lhs.Some? {
      k, other, effective := lhs.value, 1, Reversed(op);
    } else if rhs.Some? {
      k := rhs.value;
    } else {
      return false;
    }
    if requested.value.min == FALSE {
      effective := Negated(effective);
    }
    if effective in {Neq, NeqS} {
      return false;
    }
    assert forall y: Word :: Yields(op, lhs, rhs, y, requested.value.min != FALSE) <==> Compare(effective, y, k);
    var bound := Compared(effective, k);
    args[other] := bound;
    return true;
  }
}
