/** Spearman's rank correlation over tie-averaged ranks. */
module Spearman {
  import opened Reals
  import opened Ranks

  function Mean(x: seq<real>): real
    requires x != []
  {
    Sum(x) / |x| as real
  }

  /** Each entry's deviation from the mean. */
  function Centered(x: seq<real>): (r: seq<real>)
    requires x != []
    ensures |r| == |x|
  {
    seq(|x|, i requires 0 <= i < |x| => x[i] - Mean(x))
  }

  function Dot(a: seq<real>, b: seq<real>): real
    requires |a| == |b|
  {
    if a == [] then 0.0 else Times(a[0], b[0]) + Dot(a[1..], b[1..])
  }

  function Deviations(scores: seq<real>): (r: seq<real>)
    requires scores != []
    ensures |r| == |scores|
  {
    Centered(RanksOf(scores))
  }

  function Quotient(n: real, r: real, s: real): real
    requires r != 0.0 && s != 0.0
  {
    n / (r * s)
  }

  /** Pearson's formula on two lists of deviations; 0 when one of them is all zeros. */
  function Ratio(x: seq<real>, y: seq<real>, sqrt: real -> real): real
    requires |x| == |y|
  {
    var xDen, yDen := sqrt(Dot(x, x)), sqrt(Dot(y, y));
    if xDen != 0.0 && yDen != 0.0 then Quotient(Dot(x, y), xDen, yDen) else 0.0
  }

  function Correlation(predicted: seq<real>, gold: seq<real>, sqrt: real -> real): real {
    if |predicted| != |gold| || |predicted| < 2 then 0.0
    else Ratio(Deviations(predicted), Deviations(gold), sqrt)
  }

  method SpearmanRankCorrelation(predicted: seq<real>, gold: seq<real>, sqrt: real -> real) returns (r: real)
    ensures r == Correlation(predicted, gold, sqrt)
  {
    if |predicted| != |gold| || |predicted| < 2 { return 0.0; }
    var x := ComputeRanks(predicted);
    var y := ComputeRanks(gold);
    r := Ratio(Centered(x[..]), Centered(y[..]), sqrt);
  }

  predicate IsRoot(root: real, v: real) {
    root >= 0.0 && root * root == v
  }

  predicate HasRoot(x: seq<real>, sqrt: real -> real) {
    IsRoot(sqrt(Dot(x, x)), Dot(x, x))
  }

  /** The two square roots that the formula takes are exact. */
  predicate IsExact(predicted: seq<real>, gold: seq<real>, sqrt: real -> real) {
    |predicted| == |gold| >= 2 ==> HasRoot(Deviations(predicted), sqrt) && HasRoot(Deviations(gold), sqrt)
  }

  // ------------------------------------------------------------ Cauchy-Schwarz

  lemma {:induction false} DotCommutes(a: seq<real>, b: seq<real>)
    requires |a| == |b|
    ensures Dot(a, b) == Dot(b, a)
  {
    if a != [] { DotCommutes(a[1..], b[1..]); }
  }

  lemma SquareSign(v: real)
    ensures if v == 0.0 then Times(v, v) == 0.0 else Times(v, v) > 0.0
  {
    if v < 0.0 {
      PositiveProduct(-v, -v);
      assert Times(v, v) == Times(-v, -v);
    } else if v > 0.0 {
      PositiveProduct(v, v);
    }
  }

  ghost predicate AllZero(a: seq<real>) {
    forall i | 0 <= i < |a| :: a[i] == 0.0
  }

  /** A sum of squares is zero for zeros and positive otherwise. */
  lemma {:induction false} SquaresAddUp(a: seq<real>)
    ensures if AllZero(a) then Dot(a, a) == 0.0 else Dot(a, a) > 0.0
  {
    if a != [] {
      SquaresAddUp(a[1..]);
      SquareSign(a[0]);
      assert a == [a[0]] + a[1..];
      assert AllZero(a) <==> a[0] == 0.0 && AllZero(a[1..]);
    }
  }

  lemma {:induction false} ZeroDot(a: seq<real>, b: seq<real>)
    requires |a| == |b| && AllZero(a)
    ensures Dot(a, b) == 0.0
  {
    if a != [] { ZeroDot(a[1..], b[1..]); }
  }

  /** The sum of the squares of `p * b - q * a`, from the sums of products. */
  function Form(p: real, q: real, aa: real, ab: real, bb: real): real {
    p * p * bb - 2.0 * p * q * ab + q * q * aa
  }

  lemma FormStep(p: real, q: real, a: real, b: real, aa: real, ab: real, bb: real)
    ensures Form(p, q, Times(a, a) + aa, Times(a, b) + ab, Times(b, b) + bb)
      == Times(p * b - q * a, p * b - q * a) + Form(p, q, aa, ab, bb)
  {
  }

  /** `p * b - q * a`, entry by entry. */
  function Combine(a: seq<real>, b: seq<real>, p: real, q: real): (r: seq<real>)
    requires |a| == |b|
    ensures |r| == |a|
  {
    if a == [] then [] else [p * b[0] - q * a[0]] + Combine(a[1..], b[1..], p, q)
  }

  lemma {:induction false} CombineAt(a: seq<real>, b: seq<real>, p: real, q: real, i: nat)
    requires i < |a| == |b|
    ensures Combine(a, b, p, q)[i] == p * b[i] - q * a[i]
  {
    if i > 0 { CombineAt(a[1..], b[1..], p, q, i - 1); }
  }

  lemma {:induction false} CombineSquared(a: seq<real>, b: seq<real>, p: real, q: real)
    requires |a| == |b|
    ensures Dot(Combine(a, b, p, q), Combine(a, b, p, q)) == Form(p, q, Dot(a, a), Dot(a, b), Dot(b, b))
  {
    if a != [] {
      CombineSquared(a[1..], b[1..], p, q);
      assert Combine(a, b, p, q)[1..] == Combine(a[1..], b[1..], p, q);
      FormStep(p, q, a[0], b[0], Dot(a[1..], a[1..]), Dot(a[1..], b[1..]), Dot(b[1..], b[1..]));
    }
  }

  lemma FormGap(aa: real, ab: real, bb: real)
    ensures Form(aa, ab, aa, ab, bb) == aa * (aa * bb - ab * ab)
  {
  }

  lemma GapSign(aa: real, ab: real, bb: real)
    requires aa > 0.0 && Form(aa, ab, aa, ab, bb) >= 0.0
    ensures ab * ab <= aa * bb
  {
    FormGap(aa, ab, bb);
    if aa * bb < ab * ab {
      PositiveProduct(aa, ab * ab - aa * bb);
      assert false;
    }
  }

  lemma CauchySchwarz(a: seq<real>, b: seq<real>)
    requires |a| == |b|
    ensures Dot(a, b) * Dot(a, b) <= Dot(a, a) * Dot(b, b)
  {
    SquaresAddUp(a);
    if Dot(a, a) == 0.0 {
      ZeroDot(a, b);
    } else {
      CombineSquared(a, b, Dot(a, a), Dot(a, b));
      SquaresAddUp(Combine(a, b, Dot(a, a), Dot(a, b)));
      GapSign(Dot(a, a), Dot(a, b), Dot(b, b));
    }
  }

  lemma DifferenceOfSquares(n: real, d: real)
    ensures n * n - d * d == (n - d) * (n - d) + 2.0 * (d * (n - d))
  {
  }

  lemma RootsBound(n: real, d: real)
    requires n * n <= d * d && d >= 0.0
    ensures n <= d
  {
    if n > d {
      PositiveProduct(n - d, n - d);
      NonNegativeProduct(d, n - d);
      DifferenceOfSquares(n, d);
      assert false;
    }
  }

  lemma ProductOfRoots(r: real, s: real, v: real, w: real)
    requires IsRoot(r, v) && IsRoot(s, w)
    ensures r * s >= 0.0 && (r * s) * (r * s) == v * w
    ensures r != 0.0 && s != 0.0 <==> r * s > 0.0
  {
    assert (r * s) * (r * s) == (r * r) * (s * s);
  }

  lemma ScaleCompares(q: real, d: real)
    requires d > 0.0
    ensures q <= 1.0 <==> q * d <= d
  {
    if q > 1.0 { PositiveProduct(q - 1.0, d); } else if q < 1.0 { PositiveProduct(1.0 - q, d); }
    assert (q - 1.0) * d == q * d - d;
    assert q == 1.0 ==> q * d == d;
  }

  lemma DivisionCompares(n: real, d: real)
    requires d > 0.0
    ensures n / d <= 1.0 <==> n <= d
  {
    assert (n / d) * d == n;
    ScaleCompares(n / d, d);
  }

  lemma DivisionNegates(n: real, d: real)
    requires d > 0.0
    ensures (-n) / d == -(n / d)
  {
    assert (-(n / d)) * d == -n;
  }

  lemma QuotientIsBounded(n: real, r: real, s: real, v: real, w: real)
    requires IsRoot(r, v) && IsRoot(s, w) && r != 0.0 && s != 0.0 && n * n <= v * w
    ensures -1.0 <= Quotient(n, r, s) <= 1.0
  {
    ProductOfRoots(r, s, v, w);
    RootsBound(n, r * s);
    assert n * n == (-n) * (-n);
    RootsBound(-n, r * s);
    DivisionCompares(n, r * s);
    DivisionCompares(-n, r * s);
    DivisionNegates(n, r * s);
  }

  /** The ratio is at most one in size. */
  lemma RatioInRange(x: seq<real>, y: seq<real>, sqrt: real -> real)
    requires |x| == |y| && HasRoot(x, sqrt) && HasRoot(y, sqrt)
    ensures -1.0 <= Ratio(x, y, sqrt) <= 1.0
  {
    var xDen, yDen := sqrt(Dot(x, x)), sqrt(Dot(y, y));
    if xDen != 0.0 && yDen != 0.0 {
      CauchySchwarz(x, y);
      QuotientIsBounded(Dot(x, y), xDen, yDen, Dot(x, x), Dot(y, y));
    }
  }

  lemma CorrelationIsBounded(predicted: seq<real>, gold: seq<real>, sqrt: real -> real)
    requires IsExact(predicted, gold, sqrt)
    ensures -1.0 <= Correlation(predicted, gold, sqrt) <= 1.0
  {
    if |predicted| == |gold| >= 2 { RatioInRange(Deviations(predicted), Deviations(gold), sqrt); }
  }

  // ------------------------------------------------------------ order only

  ghost predicate SameOrder(xs: seq<real>, ys: seq<real>) {
    |xs| == |ys| && forall i, j | 0 <= i < |xs| && 0 <= j < |xs| :: xs[i] < xs[j] <==> ys[i] < ys[j]
  }

  ghost predicate ReverseOrder(xs: seq<real>, ys: seq<real>) {
    |xs| == |ys| && forall i, j | 0 <= i < |xs| && 0 <= j < |xs| :: xs[i] < xs[j] <==> ys[j] < ys[i]
  }

  ghost predicate Constant(xs: seq<real>) {
    forall i, j | 0 <= i < |xs| && 0 <= j < |xs| :: xs[i] == xs[j]
  }

  lemma {:induction false} CountsAgree(xs: seq<real>, ys: seq<real>, v: real, w: real)
    requires |xs| == |ys|
    requires forall k | 0 <= k < |xs| :: (xs[k] < v <==> ys[k] < w) && (v < xs[k] <==> w < ys[k])
    ensures Smaller(xs, v) == Smaller(ys, w) && Equal(xs, v) == Equal(ys, w)
  {
    if xs != [] { CountsAgree(xs[1..], ys[1..], v, w); }
  }

  lemma {:induction false} CountsMirror(xs: seq<real>, ys: seq<real>, v: real, w: real)
    requires |xs| == |ys|
    requires forall k | 0 <= k < |xs| :: (xs[k] < v <==> w < ys[k]) && (v < xs[k] <==> ys[k] < w)
    ensures Smaller(xs, v) + Equal(xs, v) + Smaller(ys, w) == |xs| && Equal(xs, v) == Equal(ys, w)
  {
    if xs != [] { CountsMirror(xs[1..], ys[1..], v, w); }
  }

  lemma SameOrderSameRanks(xs: seq<real>, ys: seq<real>)
    requires SameOrder(xs, ys)
    ensures RanksOf(xs) == RanksOf(ys)
  {
    forall i | 0 <= i < |xs| ensures Rank(xs, xs[i]) == Rank(ys, ys[i]) {
      CountsAgree(xs, ys, xs[i], ys[i]);
    }
  }

  lemma MeanRank(values: seq<real>)
    requires values != []
    ensures Mean(RanksOf(values)) == (|values| + 1) as real / 2.0
  {
    RanksAddUp(values);
    var n := |values|;
    assert (n * (n + 1)) as real == n as real * (n + 1) as real;
  }

  lemma ReverseOrderNegates(xs: seq<real>, ys: seq<real>, i: nat)
    requires ReverseOrder(xs, ys) && i < |xs|
    ensures Deviations(ys)[i] == -Deviations(xs)[i]
  {
    CountsMirror(xs, ys, xs[i], ys[i]);
    MeanRank(xs);
    MeanRank(ys);
  }

  lemma {:induction false} NegatedDot(a: seq<real>, b: seq<real>, c: seq<real>)
    requires |a| == |b| == |c| && forall i | 0 <= i < |a| :: c[i] == -b[i]
    ensures Dot(a, c) == -Dot(a, b)
  {
    if a != [] {
      NegatedDot(a[1..], b[1..], c[1..]);
      assert Times(a[0], -b[0]) == -Times(a[0], b[0]);
    }
  }

  lemma NegatedSquare(y: seq<real>, z: seq<real>)
    requires |y| == |z| && forall i | 0 <= i < |y| :: z[i] == -y[i]
    ensures Dot(z, z) == Dot(y, y)
  {
    NegatedDot(z, y, z);
    NegatedDot(y, y, z);
    DotCommutes(z, y);
  }

  lemma QuotientFlips(n: real, r: real, s: real, v: real, w: real)
    requires IsRoot(r, v) && IsRoot(s, w) && r != 0.0 && s != 0.0
    ensures Quotient(-n, r, s) == -Quotient(n, r, s)
  {
    ProductOfRoots(r, s, v, w);
    DivisionNegates(n, r * s);
  }

  lemma RatioFlips(x: seq<real>, y: seq<real>, z: seq<real>, sqrt: real -> real)
    requires |x| == |y| == |z| && (forall i | 0 <= i < |y| :: z[i] == -y[i])
    requires HasRoot(x, sqrt) && HasRoot(y, sqrt)
    ensures HasRoot(z, sqrt) && Ratio(x, z, sqrt) == -Ratio(x, y, sqrt)
  {
    NegatedSquare(y, z);
    NegatedDot(x, y, z);
    var xDen, yDen := sqrt(Dot(x, x)), sqrt(Dot(y, y));
    if xDen != 0.0 && yDen != 0.0 { QuotientFlips(Dot(x, y), xDen, yDen, Dot(x, x), Dot(y, y)); }
  }

  /** Ranking the gold scores the other way round flips the sign of the correlation. */
  lemma ReversalFlipsSign(predicted: seq<real>, gold: seq<real>, reversed: seq<real>, sqrt: real -> real)
    requires ReverseOrder(gold, reversed) && IsExact(predicted, gold, sqrt)
    ensures IsExact(predicted, reversed, sqrt)
    ensures Correlation(predicted, reversed, sqrt) == -Correlation(predicted, gold, sqrt)
  {
    if |predicted| == |gold| >= 2 {
      forall i | 0 <= i < |gold| ensures Deviations(reversed)[i] == -Deviations(gold)[i] {
        ReverseOrderNegates(gold, reversed, i);
      }
      RatioFlips(Deviations(predicted), Deviations(gold), Deviations(reversed), sqrt);
    }
  }

  lemma DeviationsVanishIff(scores: seq<real>)
    requires scores != []
    ensures AllZero(Deviations(scores)) <==> Constant(scores)
  {
    var x, ranks := Deviations(scores), RanksOf(scores);
    forall i, j | 0 <= i < |scores| && 0 <= j < |scores|
      ensures x[i] == x[j] <==> scores[i] == scores[j]
    {
      RanksKeepOrder(scores, i, j);
    }
    if Constant(scores) { CenteredConstant(ranks); }
  }

  lemma CenteredConstant(x: seq<real>)
    requires x != [] && Constant(x)
    ensures AllZero(Centered(x))
  {
    ConstantSum(x, x[0]);
    assert Mean(x) == x[0];
  }

  lemma {:induction false} ConstantSum(x: seq<real>, c: real)
    requires forall i | 0 <= i < |x| :: x[i] == c
    ensures Sum(x) == |x| as real * c
  {
    if x != [] { ConstantSum(x[1..], c); }
  }

  // ------------------------------------------------------------ the extreme values

  lemma QuotientIsOne(n: real, r: real, s: real, v: real, w: real)
    requires IsRoot(r, v) && IsRoot(s, w) && r != 0.0 && s != 0.0
    ensures Quotient(n, r, s) == 1.0 <==> n == r * s
  {
    ProductOfRoots(r, s, v, w);
    assert (n / (r * s)) * (r * s) == n;
  }

  lemma OneLeavesNoGap(ab: real, r: real, s: real, aa: real, bb: real)
    requires IsRoot(r, aa) && IsRoot(s, bb) && r != 0.0 && s != 0.0 && Quotient(ab, r, s) == 1.0
    ensures ab > 0.0 && aa > 0.0
    ensures Form(aa, ab, aa, ab, bb) == 0.0
  {
    QuotientIsOne(ab, r, s, aa, bb);
    ProductOfRoots(r, s, aa, bb);
    PositiveProduct(r, r);
    FormGap(aa, ab, bb);
  }

  /** A ratio of one leaves no gap in the Cauchy-Schwarz inequality. */
  lemma OneMeansProportional(x: seq<real>, y: seq<real>, sqrt: real -> real)
    requires |x| == |y| && HasRoot(x, sqrt) && HasRoot(y, sqrt) && Ratio(x, y, sqrt) == 1.0
    ensures Dot(x, x) > 0.0 && Dot(x, y) > 0.0
    ensures AllZero(Combine(x, y, Dot(x, x), Dot(x, y)))
  {
    OneLeavesNoGap(Dot(x, y), sqrt(Dot(x, x)), sqrt(Dot(y, y)), Dot(x, x), Dot(y, y));
    CombineSquared(x, y, Dot(x, x), Dot(x, y));
    SquaresAddUp(Combine(x, y, Dot(x, x), Dot(x, y)));
  }

  lemma ProportionOrders(p: real, q: real, a1: real, a2: real, b1: real, b2: real)
    requires p > 0.0 && q > 0.0 && p * b1 - q * a1 == 0.0 && p * b2 - q * a2 == 0.0
    ensures a1 < a2 <==> b1 < b2
  {
    assert p * (b2 - b1) == q * (a2 - a1);
    if a1 < a2 { PositiveProduct(q, a2 - a1); NonNegativeProduct(p, if b1 < b2 then 0.0 else b1 - b2); }
    if b1 < b2 { PositiveProduct(p, b2 - b1); NonNegativeProduct(q, if a1 < a2 then 0.0 else a1 - a2); }
  }

  lemma NonZeroRoot(r: real, v: real)
    requires IsRoot(r, v) && v > 0.0
    ensures r != 0.0
  {
  }

  lemma EqualListsGiveOne(x: seq<real>, sqrt: real -> real)
    requires HasRoot(x, sqrt) && !AllZero(x)
    ensures Ratio(x, x, sqrt) == 1.0
  {
    var den := sqrt(Dot(x, x));
    SquaresAddUp(x);
    NonZeroRoot(den, Dot(x, x));
    QuotientIsOne(Dot(x, x), den, den, Dot(x, x), Dot(x, x));
  }

  lemma ProportionalSameOrder(x: seq<real>, y: seq<real>, p: real, q: real, i: nat, j: nat)
    requires |x| == |y| && i < |x| && j < |x| && p > 0.0 && q > 0.0 && AllZero(Combine(x, y, p, q))
    ensures x[i] < x[j] <==> y[i] < y[j]
  {
    CombineAt(x, y, p, q, i);
    CombineAt(x, y, p, q, j);
    ProportionOrders(p, q, x[i], x[j], y[i], y[j]);
  }

  lemma ProportionalDeviations(predicted: seq<real>, gold: seq<real>, p: real, q: real)
    requires |predicted| == |gold| > 0 && p > 0.0 && q > 0.0
    requires AllZero(Combine(Deviations(predicted), Deviations(gold), p, q))
    ensures SameOrder(predicted, gold)
  {
    forall i, j | 0 <= i < |predicted| && 0 <= j < |predicted|
      ensures predicted[i] < predicted[j] <==> gold[i] < gold[j]
    {
      ProportionalSameOrder(Deviations(predicted), Deviations(gold), p, q, i, j);
      RanksKeepOrder(predicted, i, j);
      RanksKeepOrder(gold, i, j);
    }
  }

  /**
   The correlation is 1 exactly when the scores are not all equal and both lists
   put the files in the same order, ties included.
   */
  lemma PerfectIffSameOrder(predicted: seq<real>, gold: seq<real>, sqrt: real -> real)
    requires |predicted| == |gold| >= 2 && IsExact(predicted, gold, sqrt)
    ensures Correlation(predicted, gold, sqrt) == 1.0 <==> SameOrder(predicted, gold) && !Constant(predicted)
  {
    var x, y := Deviations(predicted), Deviations(gold);
    DeviationsVanishIff(predicted);
    if SameOrder(predicted, gold) && !Constant(predicted) {
      SameOrderSameRanks(predicted, gold);
      EqualListsGiveOne(x, sqrt);
    }
    if Ratio(x, y, sqrt) == 1.0 {
      OneMeansProportional(x, y, sqrt);
      SquaresAddUp(x);
      ProportionalDeviations(predicted, gold, Dot(x, x), Dot(x, y));
    }
  }

  function Negated(scores: seq<real>): (r: seq<real>)
    ensures |r| == |scores| && forall i | 0 <= i < |r| :: r[i] == -scores[i]
  {
    seq(|scores|, i requires 0 <= i < |scores| => -scores[i])
  }

  /** The correlation is -1 exactly when the scores are not all equal and the orders are opposite. */
  lemma OppositeIffReverseOrder(predicted: seq<real>, gold: seq<real>, sqrt: real -> real)
    requires |predicted| == |gold| >= 2 && IsExact(predicted, gold, sqrt)
    ensures Correlation(predicted, gold, sqrt) == -1.0 <==> ReverseOrder(predicted, gold) && !Constant(predicted)
  {
    ReversalFlipsSign(predicted, gold, Negated(gold), sqrt);
    PerfectIffSameOrder(predicted, Negated(gold), sqrt);
    assert SameOrder(predicted, Negated(gold)) <==> ReverseOrder(predicted, gold);
  }

  // ------------------------------------------------------------ the formula on rank differences

  /** How far apart the two lists rank each file. */
  function RankDifferences(predicted: seq<real>, gold: seq<real>): (r: seq<real>)
    requires |predicted| == |gold|
    ensures |r| == |gold|
    ensures forall i | 0 <= i < |r| :: r[i] == RanksOf(gold)[i] - RanksOf(predicted)[i]
  {
    seq(|gold|, i requires 0 <= i < |gold| => RanksOf(gold)[i] - RanksOf(predicted)[i])
  }

  lemma DifferencesOfDeviations(predicted: seq<real>, gold: seq<real>)
    requires |predicted| == |gold| > 0
    ensures RankDifferences(predicted, gold) == Combine(Deviations(predicted), Deviations(gold), 1.0, 1.0)
  {
    MeanRank(predicted);
    MeanRank(gold);
    var combined := Combine(Deviations(predicted), Deviations(gold), 1.0, 1.0);
    forall i | 0 <= i < |gold| ensures combined[i] == RankDifferences(predicted, gold)[i] {
      CombineAt(Deviations(predicted), Deviations(gold), 1.0, 1.0, i);
    }
  }

  lemma QuotientTimesRoots(n: real, r: real, s: real)
    requires r != 0.0 && s != 0.0
    ensures Quotient(n, r, s) * (r * s) == n
  {
  }

  /**
   The textbook formula, ties included: twice the correlation times the two roots is
   the sum of both lists' squared deviations less that of the squared rank differences.
   */
  lemma RankDifferenceFormula(predicted: seq<real>, gold: seq<real>, sqrt: real -> real)
    requires |predicted| == |gold| >= 2 && IsExact(predicted, gold, sqrt) && !Constant(predicted) && !Constant(gold)
    ensures var (x, y, d) := (Deviations(predicted), Deviations(gold), RankDifferences(predicted, gold));
      2.0 * (Correlation(predicted, gold, sqrt) * (sqrt(Dot(x, x)) * sqrt(Dot(y, y)))) == Dot(x, x) + Dot(y, y) - Dot(d, d)
  {
    var x, y := Deviations(predicted), Deviations(gold);
    DeviationsVanishIff(predicted);
    DeviationsVanishIff(gold);
    SquaresAddUp(x);
    SquaresAddUp(y);
    NonZeroRoot(sqrt(Dot(x, x)), Dot(x, x));
    NonZeroRoot(sqrt(Dot(y, y)), Dot(y, y));
    QuotientTimesRoots(Dot(x, y), sqrt(Dot(x, x)), sqrt(Dot(y, y)));
    DifferencesOfDeviations(predicted, gold);
    CombineSquared(x, y, 1.0, 1.0);
  }

  lemma RootOfZero(r: real, v: real)
    requires IsRoot(r, v)
    ensures v == 0.0 ==> r == 0.0
  {
    if r > 0.0 { PositiveProduct(r, r); }
  }

  /** There is no correlation to speak of without two lists of one length, at least two files and some variation in both. */
  lemma NothingToCorrelate(predicted: seq<real>, gold: seq<real>, sqrt: real -> real)
    requires IsExact(predicted, gold, sqrt)
    requires |predicted| != |gold| || |predicted| < 2 || Constant(predicted) || Constant(gold)
    ensures Correlation(predicted, gold, sqrt) == 0.0
  {
    if |predicted| == |gold| >= 2 {
      DeviationsVanishIff(predicted);
      DeviationsVanishIff(gold);
      var x, y := Deviations(predicted), Deviations(gold);
      SquaresAddUp(x);
      SquaresAddUp(y);
      RootOfZero(sqrt(Dot(x, x)), Dot(x, x));
      RootOfZero(sqrt(Dot(y, y)), Dot(y, y));
    }
  }
}
