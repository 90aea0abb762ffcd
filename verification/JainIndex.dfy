/** Jain's fairness index of the users' rates, as the dashboard and its analysis script compute it. */
module JainIndex {

  ghost function Sq(x: real): real
  {
    x * x
  }

  ghost function Sum(r: seq<real>): real
  {
    if r == [] then 0.0 else r[0] + Sum(r[1..])
  }

  ghost function SumSq(r: seq<real>): real
  {
    if r == [] then 0.0 else Sq(r[0]) + SumSq(r[1..])
  }

  /** What the square of the sum is divided by. */
  ghost function Den(rates: seq<real>): real
  {
    |rates| as real * SumSq(rates)
  }

  datatype Fairness = Index(j: real) | ZeroDivisionError | NotANumber

  /** The `/metrics` route: no users are served before the division. */
  ghost function Metrics(rates: seq<real>): Fairness
  {
    if rates == [] then Index(0.0)
    else if Den(rates) == 0.0 then ZeroDivisionError
    else Index(Sq(Sum(rates)) / Den(rates))
  }

  /** The analysis script. */
  ghost function JainFairness(rates: seq<real>): Fairness
  {
    if Den(rates) == 0.0 then NotANumber else Index(Sq(Sum(rates)) / Den(rates))
  }

  ghost predicate Nonnegative(r: seq<real>)
  {
    forall k :: 0 <= k < |r| ==> 0.0 <= r[k]
  }

  ghost predicate AllAre(r: seq<real>, x: real)
  {
    forall k :: 0 <= k < |r| ==> r[k] == x
  }

  ghost predicate AllEqual(r: seq<real>)
  {
    forall j, k :: 0 <= j < |r| && 0 <= k < |r| ==> r[j] == r[k]
  }

  /** At most one user has a rate at all. */
  ghost predicate OneServed(r: seq<real>)
  {
    forall j, k :: 0 <= j < k < |r| ==> r[j] == 0.0 || r[k] == 0.0
  }

  lemma Scaled(n: real, x: real, y: real)
    requires 0.0 < n
    ensures n * x <= n * y <==> x <= y
    ensures n * x == n * y <==> x == y
  {
  }

  lemma Positive(x: real, y: real, product: real)
    requires 0.0 < x && 0.0 < y && product == x * y
    ensures 0.0 < product
  {
    Scaled(x, 0.0, y);
  }

  lemma Square(x: real)
    ensures 0.0 <= Sq(x)
    ensures Sq(x) == 0.0 <==> x == 0.0
  {
    if x > 0.0 {
      Positive(x, x, Sq(x));
    } else if x < 0.0 {
      Positive(-x, -x, Sq(x));
    }
  }

  lemma {:induction false} SumSqZero(r: seq<real>)
    ensures 0.0 <= SumSq(r) && (SumSq(r) == 0.0 <==> AllAre(r, 0.0))
  {
    if r != [] {
      SumSqZero(r[1..]);
      Square(r[0]);
      assert AllAre(r, 0.0) <==> r[0] == 0.0 && AllAre(r[1..], 0.0) by {
        assert forall k :: 1 <= k < |r| ==> r[k] == r[1..][k - 1];
      }
    }
  }

  /** The squared distances from `x`, added up. */
  ghost function Spread(r: seq<real>, x: real): real
  {
    SumSq(r) - 2.0 * Sum(r) * x + |r| as real * x * x
  }

  lemma SpreadStep(r: seq<real>, x: real)
    requires r != []
    ensures Spread(r, x) == Spread(r[1..], x) + Sq(r[0] - x)
  {
    var n := |r[1..]| as real;
    assert |r| as real == n + 1.0;
    SpreadArithmetic(r[0], x, Sum(r[1..]), SumSq(r[1..]), n);
  }

  lemma SpreadArithmetic(y: real, x: real, s: real, q: real, n: real)
    ensures Sq(y) + q - 2.0 * (y + s) * x + (n + 1.0) * x * x
         == q - 2.0 * s * x + n * x * x + Sq(y - x)
  {
  }

  lemma {:induction false} SpreadZero(r: seq<real>, x: real)
    ensures 0.0 <= Spread(r, x) && (Spread(r, x) == 0.0 <==> AllAre(r, x))
    decreases r
  {
    if r != [] {
      SpreadZero(r[1..], x);
      SpreadStep(r, x);
      Square(r[0] - x);
      assert AllAre(r, x) <==> r[0] == x && AllAre(r[1..], x) by {
        assert forall k :: 1 <= k < |r| ==> r[k] == r[1..][k - 1];
      }
    }
  }

  ghost function Gap(r: seq<real>): real
  {
    Den(r) - Sq(Sum(r))
  }

  lemma GapArithmetic(x: real, s: real, q: real, n: real)
    ensures (n + 1.0) * (Sq(x) + q) - Sq(x + s) == n * q - Sq(s) + (q - 2.0 * s * x + n * x * x)
  {
  }

  lemma GapStep(r: seq<real>)
    requires r != []
    ensures Gap(r) == Gap(r[1..]) + Spread(r[1..], r[0])
  {
    var t := r[1..];
    assert |r| as real == |t| as real + 1.0;
    GapArithmetic(r[0], Sum(t), SumSq(t), |t| as real);
  }

  lemma EqualToHead(r: seq<real>)
    requires r != []
    ensures AllEqual(r) <==> AllAre(r[1..], r[0])
    ensures AllAre(r[1..], r[0]) ==> AllEqual(r[1..])
  {
    assert forall k :: 1 <= k < |r| ==> r[k] == r[1..][k - 1];
  }

  /** Cauchy-Schwarz, and when it is an equality. */
  lemma {:induction false} GapZero(r: seq<real>)
    ensures 0.0 <= Gap(r) && (Gap(r) == 0.0 <==> AllEqual(r))
  {
    if r != [] {
      GapZero(r[1..]);
      SpreadZero(r[1..], r[0]);
      GapStep(r);
      EqualToHead(r);
    }
  }

  lemma {:induction false} SumNonnegative(r: seq<real>)
    requires Nonnegative(r)
    ensures 0.0 <= Sum(r) && (Sum(r) == 0.0 <==> AllAre(r, 0.0))
  {
    if r != [] {
      SumNonnegative(r[1..]);
      assert AllAre(r, 0.0) <==> r[0] == 0.0 && AllAre(r[1..], 0.0) by {
        assert forall k :: 1 <= k < |r| ==> r[k] == r[1..][k - 1];
      }
    }
  }

  lemma CrossTerm(x: real, s: real, q: real)
    requires 0.0 <= x && 0.0 <= s && q <= Sq(s)
    ensures Sq(x) + q <= Sq(x + s)
    ensures Sq(x) + q == Sq(x + s) <==> q == Sq(s) && (x == 0.0 || s == 0.0)
  {
    assert Sq(x + s) == Sq(x) + Sq(s) + 2.0 * (x * s);
    if x > 0.0 {
      Scaled(x, 0.0, s);
    }
  }

  /** Without negative rates the square of the sum has the squares among its terms. */
  lemma {:induction false} SumOfSquares(r: seq<real>)
    requires Nonnegative(r)
    ensures SumSq(r) <= Sq(Sum(r))
    ensures SumSq(r) == Sq(Sum(r)) <==> OneServed(r)
  {
    if r != [] {
      var t := r[1..];
      SumOfSquares(t);
      SumNonnegative(t);
      CrossTerm(r[0], Sum(t), SumSq(t));
      assert OneServed(r) <==> OneServed(t) && (r[0] == 0.0 || AllAre(t, 0.0)) by {
        assert forall k :: 1 <= k < |r| ==> r[k] == t[k - 1];
      }
    }
  }

  lemma Quotient(num: real, den: real)
    requires 0.0 < den
    ensures num / den <= 1.0 <==> num <= den
    ensures num / den == 1.0 <==> num == den
  {
  }

  lemma LowerQuotient(n: real, x: real, y: real, den: real)
    requires 0.0 < n && 0.0 < den == n * x
    ensures 1.0 / n <= y / den <==> x <= y
    ensures y / den == 1.0 / n <==> x == y
  {
    var j := y / den;
    assert j * den == y;
    Scaled(den, 1.0 / n, j);
    assert den * (1.0 / n) == x;
  }

  lemma Ratio(n: real, q: real, square: real, den: real)
    requires 0.0 < n && 0.0 < den == n * q && q <= square <= den
    ensures 1.0 / n <= square / den <= 1.0
    ensures square / den == 1.0 <==> den - square == 0.0
    ensures square / den == 1.0 / n <==> q == square
  {
    Quotient(square, den);
    LowerQuotient(n, q, square, den);
  }

  lemma SomeRate(rates: seq<real>)
    requires Nonnegative(rates) && !AllAre(rates, 0.0)
    ensures 0.0 < SumSq(rates) && 0.0 < Den(rates)
  {
    SumSqZero(rates);
    Positive(|rates| as real, SumSq(rates), Den(rates));
  }

  /** The index lies between 1/n and 1. It is 1 exactly when all rates are equal, and 1/n exactly when one
      user has all the rate. */
  lemma IndexBounds(rates: seq<real>)
    requires Nonnegative(rates) && !AllAre(rates, 0.0)
    ensures Metrics(rates).Index? && JainFairness(rates) == Metrics(rates)
    ensures 1.0 / |rates| as real <= Metrics(rates).j <= 1.0
    ensures Metrics(rates).j == 1.0 <==> AllEqual(rates)
    ensures Metrics(rates).j == 1.0 / |rates| as real <==> OneServed(rates)
  {
    SomeRate(rates);
    GapZero(rates);
    SumOfSquares(rates);
    Ratio(|rates| as real, SumSq(rates), Sq(Sum(rates)), Den(rates));
  }

  /** The two programs differ where nobody has a rate: the route fails, unless there are no users at all,
      and the script has no number. */
  lemma NoIndexIffNoRate(rates: seq<real>)
    ensures Metrics(rates) == ZeroDivisionError <==> rates != [] && AllAre(rates, 0.0)
    ensures JainFairness(rates) == NotANumber <==> AllAre(rates, 0.0)
  {
    SumSqZero(rates);
    if rates != [] && !AllAre(rates, 0.0) {
      Positive(|rates| as real, SumSq(rates), Den(rates));
    }
  }

  // What the index measures

  /** The squared distances from `m`, one by one. */
  ghost function Deviations(r: seq<real>, m: real): real
  {
    if r == [] then 0.0 else (r[0] - m) * (r[0] - m) + Deviations(r[1..], m)
  }

  lemma {:induction false} SpreadIsDeviations(r: seq<real>, m: real)
    ensures Spread(r, m) == Deviations(r, m)
    decreases r
  {
    if r != [] {
      SpreadIsDeviations(r[1..], m);
      SpreadStep(r, m);
    }
  }

  lemma IndexOf(rates: seq<real>) returns (n: real, s: real, q: real, j: real)
    requires Nonnegative(rates) && !AllAre(rates, 0.0)
    ensures n == |rates| as real && s == Sum(rates) && q == SumSq(rates)
    ensures 0.0 < n && 0.0 < n * q && j == s * s / (n * q) && Metrics(rates) == Index(j)
  {
    SomeRate(rates);
    n, s, q, j := |rates| as real, Sum(rates), SumSq(rates), Metrics(rates).j;
  }

  lemma MeanSquares(n: real, s: real, q: real, m: real, spread: real)
    requires 0.0 < n && m == s / n && spread == q - 2.0 * s * m + n * m * m
    ensures m * m + spread / n == q / n
  {
    assert s == n * m;
    assert s * m == n * (m * m);
    assert spread == q - n * (m * m);
    assert (n * (m * m)) / n == m * m;
  }

  lemma RatioOfMeans(n: real, s: real, q: real, m: real, j: real)
    requires 0.0 < n && 0.0 < n * q && m == s / n && j == s * s / (n * q)
    ensures j * (q / n) == m * m
  {
    var d := n * q;
    assert j * d == s * s;
    assert s == n * m;
    assert s * s == n * n * (m * m);
    assert n * n * (q / n) == d;
    assert n * n * (j * (q / n)) == n * n * (m * m);
    Positive(n, n, n * n);
    Scaled(n * n, j * (q / n), m * m);
  }

  lemma MeanAndIndex(n: real, s: real, q: real, m: real, spread: real, j: real)
    requires 0.0 < n && 0.0 < n * q && m == s / n && j == s * s / (n * q)
    requires spread == q - 2.0 * s * m + n * m * m
    ensures j * (m * m + spread / n) == m * m
  {
    MeanSquares(n, s, q, m, spread);
    RatioOfMeans(n, s, q, m, j);
  }

  ghost function Mean(rates: seq<real>): real
    requires rates != []
  {
    Sum(rates) / |rates| as real
  }

  ghost function Variance(rates: seq<real>): real
    requires rates != []
  {
    Deviations(rates, Mean(rates)) / |rates| as real
  }

  lemma SpreadOf(rates: seq<real>) returns (n: real, s: real, q: real, mean: real, spread: real, j: real)
    requires Nonnegative(rates) && !AllAre(rates, 0.0)
    ensures 0.0 < n && 0.0 < n * q && j == s * s / (n * q) && Metrics(rates) == Index(j)
    ensures mean == s / n && mean == Mean(rates) && spread / n == Variance(rates)
    ensures spread == q - 2.0 * s * mean + n * mean * mean
  {
    n, s, q, j := IndexOf(rates);
    mean := Mean(rates);
    spread := Deviations(rates, mean);
    SpreadIsDeviations(rates, mean);
  }

  /** The index is what the square of the mean is of itself and the variance together. */
  lemma IndexIsMeanOverVariance(rates: seq<real>)
    requires Nonnegative(rates) && !AllAre(rates, 0.0)
    ensures var mean, variance := Mean(rates), Variance(rates);
            Metrics(rates).Index? && Metrics(rates).j * (mean * mean + variance) == mean * mean
  {
    var n, s, q, mean, spread, j := SpreadOf(rates);
    MeanAndIndex(n, s, q, mean, spread, j);
  }

  function Served(r: seq<real>): nat
  {
    if r == [] then 0 else (if r[0] == 0.0 then 0 else 1) + Served(r[1..])
  }

  ghost predicate EqualShares(r: seq<real>, share: real)
  {
    forall i :: 0 <= i < |r| ==> r[i] == 0.0 || r[i] == share
  }

  lemma {:induction false} SumsOfShares(r: seq<real>, share: real)
    requires EqualShares(r, share) && share != 0.0
    ensures Sum(r) == Served(r) as real * share && SumSq(r) == Served(r) as real * (share * share)
  {
    if r != [] {
      var t, k := r[1..], Served(r[1..]) as real;
      SumsOfShares(t, share);
      assert Served(r) as real == k + if r[0] == 0.0 then 0.0 else 1.0;
      assert (k + 1.0) * share == k * share + share;
      assert (k + 1.0) * (share * share) == k * (share * share) + share * share;
    }
  }

  lemma ShareRatio(n: real, k: real, share: real, s: real, q: real, j: real)
    requires 0.0 < n && 0.0 < n * q && s == k * share && q == k * (share * share) && j == s * s / (n * q)
    ensures j == k / n
  {
    assert s * s == k * q;
    assert k / n * (n * q) == k * q by {
      assert k / n * n == k;
    }
  }

  lemma SharesOf(rates: seq<real>, share: real, s: real, q: real) returns (k: real)
    requires EqualShares(rates, share) && share != 0.0 && s == Sum(rates) && q == SumSq(rates)
    ensures k == Served(rates) as real && s == k * share && q == k * (share * share)
  {
    k := Served(rates) as real;
    SumsOfShares(rates, share);
  }

  lemma SharedIndex(rates: seq<real>, share: real) returns (n: real, k: real, j: real)
    requires Nonnegative(rates) && !AllAre(rates, 0.0) && EqualShares(rates, share) && share != 0.0
    ensures n == |rates| as real && k == Served(rates) as real && 0.0 < n && Metrics(rates) == Index(j) && j == k / n
  {
    var s, q;
    n, s, q, j := IndexOf(rates);
    k := SharesOf(rates, share, s, q);
    ShareRatio(n, k, share, s, q, j);
  }

  /** If k of n users share equally and the others have nothing, the index is k/n. */
  lemma EqualSharesGiveTheirPart(rates: seq<real>, share: real)
    requires Nonnegative(rates) && !AllAre(rates, 0.0) && EqualShares(rates, share)
    ensures Metrics(rates) == Index(Served(rates) as real / |rates| as real)
  {
    assert share != 0.0;
    var n, k, j := SharedIndex(rates, share);
  }
}
