/** The standalone z-score variant of the anomaly check and the 30-day projection
    (frontend/verify_analytics.js), and why the z-score test cannot fire on five values. */
module VerifyAnalytics {
  import opened Wrappers
  import opened CivilDate
  import opened Records
  import opened Numbers
  import Analytics

  /** `expenses`: the expense-type transactions with their amounts made absolute. */
  function Expenses(txs: seq<Transaction>): (r: seq<Transaction>)
    ensures |r| <= |txs|
    ensures forall i :: 0 <= i < |r| ==> r[i].amount >= 0
  {
    if txs == [] then []
    else (if Analytics.IsExpense(txs[0]) then [txs[0].(amount := Abs(txs[0].amount))] else [])
         + Expenses(txs[1..])
  }

  /** `allAmounts`. */
  function Amounts(es: seq<Transaction>): seq<int> {
    seq(|es|, i requires 0 <= i < |es| => es[i].amount)
  }

  /** `expenses` holds exactly the expense-type transactions, each with its amount replaced by
      its magnitude, so its amount list is the dashboard's list of expense magnitudes. */
  lemma {:induction false} ExpensesExact(txs: seq<Transaction>)
    ensures Amounts(Expenses(txs)) == Analytics.ExpenseMagnitudes(txs)
    ensures forall t :: t in Expenses(txs) <==>
      exists u :: u in txs && Analytics.IsExpense(u) && t == u.(amount := Abs(u.amount))
  {
    if txs != [] {
      ExpensesExact(txs[1..]);
      assert txs == [txs[0]] + txs[1..];
      var head := if Analytics.IsExpense(txs[0]) then [txs[0].(amount := Abs(txs[0].amount))] else [];
      assert Expenses(txs) == head + Expenses(txs[1..]);
      assert Amounts(head + Expenses(txs[1..])) == Amounts(head) + Amounts(Expenses(txs[1..]));
    }
  }

  function Square(x: real): real {
    x * x
  }

  /** The sum of squared deviations from c. */
  function SqDev(xs: seq<int>, c: real): (r: real)
    ensures r >= 0.0
  {
    if xs == [] then 0.0 else Square(xs[0] as real - c) + SqDev(xs[1..], c)
  }

  /** `calculateMean(sqDiffs)`: the population variance, (sum of squared deviations)/n. */
  function Variance(xs: seq<int>): (v: real)
    ensures v >= 0.0
  {
    if xs == [] then 0.0 else SqDev(xs, Mean(xs)) / |xs| as real
  }

  /** `zScore > 2.0` without the square root. With a zero standard deviation the divisor is 1;
      otherwise (a - mean) / sqrt(v) > 2 holds exactly when a lies above the mean by more than
      twice the standard deviation. */
  predicate ZAbove2(a: int, mean: real, variance: real) {
    if variance == 0.0 then a as real - mean > 2.0
    else a as real > mean && Square(a as real - mean) > 4.0 * variance
  }

  function FirstZ(es: seq<Transaction>, mean: real, variance: real): (r: Option<nat>)
    ensures r.Some? ==> r.value < |es| && ZAbove2(es[r.value].amount, mean, variance)
    ensures r.Some? ==> forall j :: 0 <= j < r.value ==> !ZAbove2(es[j].amount, mean, variance)
    ensures r.None? <==> forall j :: 0 <= j < |es| ==> !ZAbove2(es[j].amount, mean, variance)
  {
    if es == [] then None
    else if ZAbove2(es[0].amount, mean, variance) then Some(0)
    else match FirstZ(es[1..], mean, variance)
      case None => None
      case Some(i) => Some(i + 1)
  }

  /** `mean` and the variance behind `stdDev`, over the expense magnitudes. */
  function ExpenseMean(txs: seq<Transaction>): real {
    Mean(Amounts(Expenses(txs)))
  }

  function ExpenseVariance(txs: seq<Transaction>): real {
    Variance(Amounts(Expenses(txs)))
  }

  /** `detectAnomaliesTest`: the names pushed, at most one, the first expense whose magnitude
      has a z-score above 2 among all expense magnitudes. */
  function DetectAnomaliesTest(txs: seq<Transaction>): (r: seq<Option<string>>)
    ensures |r| <= 1
    ensures |txs| < 5 ==> r == []
    ensures |txs| >= 5 && r == [] ==>
      forall j :: 0 <= j < |Expenses(txs)| ==> !ZAbove2(Expenses(txs)[j].amount, ExpenseMean(txs), ExpenseVariance(txs))
    ensures r != [] ==>
      exists i :: 0 <= i < |Expenses(txs)| && r == [Expenses(txs)[i].name]
        && ZAbove2(Expenses(txs)[i].amount, ExpenseMean(txs), ExpenseVariance(txs))
        && forall j :: 0 <= j < i ==> !ZAbove2(Expenses(txs)[j].amount, ExpenseMean(txs), ExpenseVariance(txs))
  {
    if |txs| < 5 then []
    else
      match FirstZ(Expenses(txs), ExpenseMean(txs), ExpenseVariance(txs))
      case None => []
      case Some(i) => [Expenses(txs)[i].name]
  }

  lemma {:induction false} SqDevAppend(a: seq<int>, b: seq<int>, c: real)
    ensures SqDev(a + b, c) == SqDev(a, c) + SqDev(b, c)
  {
    if a == [] {
      assert a + b == b;
    } else {
      assert (a + b)[1..] == a[1..] + b;
      SqDevAppend(a[1..], b, c);
    }
  }

  /** sum (x - c)^2 - 2h (S - n c) + n h^2, the squared deviations after moving the centre
      by h, in terms of those around c. */
  function Shifted(q: real, s: real, n: real, c: real, h: real): real {
    q - 2.0 * h * (s - n * c) + n * h * h
  }

  lemma ShiftAlgebra(x: real, c: real, h: real, q: real, s: real, n: real)
    ensures Square(x - (c + h)) + Shifted(q, s, n, c, h) == Shifted(Square(x - c) + q, x + s, n + 1.0, c, h)
  {
  }

  /** Moving the centre by h: sum (x - c - h)^2 = sum (x - c)^2 - 2h (S - n c) + n h^2. */
  lemma {:induction false} SqDevShift(xs: seq<int>, c: real, h: real)
    ensures SqDev(xs, c + h) == Shifted(SqDev(xs, c), Sum(xs) as real, |xs| as real, c, h)
  {
    if xs != [] {
      var x, rest := xs[0] as real, xs[1..];
      SqDevShift(rest, c, h);
      ShiftAlgebra(x, c, h, SqDev(rest, c), Sum(rest) as real, |rest| as real);
      assert Sum(xs) as real == x + Sum(rest) as real;
      assert |xs| as real == |rest| as real + 1.0;
    }
  }

  lemma CauchySchwarzAlgebra(q: real, t: real, n: real, c: real, s: real, h: real)
    requires n > 0.0 && t == s - n * c && h * n == t
    requires Shifted(q, s, n, c, h) >= 0.0
    ensures Square(t) <= n * q
  {
    assert Shifted(q, s, n, c, h) == q - n * h * h;
    assert n * q - Square(t) == n * (q - n * h * h);
  }

  lemma MulZero(a: real, b: real)
    requires a == 0.0
    ensures a * b == 0.0
  {
  }

  lemma SquareZero(a: real)
    requires a == 0.0
    ensures Square(a) == 0.0
  {
  }

  /** Cauchy-Schwarz for deviations: (S - n c)^2 <= n * sum (x - c)^2. */
  lemma CauchySchwarz(xs: seq<int>, c: real)
    ensures Square(Sum(xs) as real - |xs| as real * c) <= |xs| as real * SqDev(xs, c)
  {
    if xs == [] {
      CauchySchwarzEmpty(xs, c);
    } else {
      CauchySchwarzNonEmpty(xs, c);
    }
  }

  lemma CauchySchwarzEmpty(xs: seq<int>, c: real)
    requires xs == []
    ensures Square(Sum(xs) as real - |xs| as real * c) <= |xs| as real * SqDev(xs, c)
  {
    var n := |xs| as real;
    MulZero(n, c);
    MulZero(n, SqDev(xs, c));
    SquareZero(Sum(xs) as real - n * c);
  }

  lemma CauchySchwarzNonEmpty(xs: seq<int>, c: real)
    requires xs != []
    ensures Square(Sum(xs) as real - |xs| as real * c) <= |xs| as real * SqDev(xs, c)
  {
    var q, s, n := SqDev(xs, c), Sum(xs) as real, |xs| as real;
    var t := s - n * c;
    var h := t / n;
    DivMul(t, n);
    SqDevShift(xs, c, h);
    CauchySchwarzAlgebra(q, t, n, c, s, h);
  }

  /** The algebra behind Samuelson's inequality: x is one of n values with sum s and mean m,
      the other n - 1 = nr values sum to sr and have squared deviations r around m, all n
      have squared deviations q, and v is their variance. */
  lemma SamuelsonAlgebra(s: real, x: real, n: real, m: real, sr: real, nr: real, r: real, q: real, v: real)
    requires n >= 1.0 && nr == n - 1.0
    requires m * n == s && sr == s - x
    requires v * n == q && q == r + Square(x - m)
    requires Square(sr - nr * m) <= nr * r
    ensures Square(x - m) <= nr * v
  {
    assert sr - nr * m == -(x - m);
    var dd := Square(x - m);
    assert Square(-(x - m)) == dd;
    assert dd <= nr * r;
    assert n * (nr * v - dd) == nr * r - dd;
  }

  lemma DivMul(a: real, n: real)
    requires n != 0.0
    ensures (a / n) * n == a
  {
  }

  /** The mean and variance of a nonempty list, with the divisions multiplied out. */
  lemma Stats(xs: seq<int>) returns (m: real, v: real)
    requires xs != []
    ensures m == Mean(xs) && v == Variance(xs)
    ensures m * |xs| as real == Sum(xs) as real
    ensures v * |xs| as real == SqDev(xs, m)
  {
    var n := |xs| as real;
    m := Sum(xs) as real / n;
    DivMul(Sum(xs) as real, n);
    var q := SqDev(xs, m);
    v := q / n;
    DivMul(q, n);
  }

  /** Taking out the k-th value removes it from the sum and its square from the deviations. */
  lemma RemoveOne(xs: seq<int>, k: nat, c: real)
    requires k < |xs|
    ensures Sum(xs[..k] + xs[k + 1..]) == Sum(xs) - xs[k]
    ensures SqDev(xs, c) == SqDev(xs[..k] + xs[k + 1..], c) + Square(xs[k] as real - c)
    ensures |xs[..k] + xs[k + 1..]| == |xs| - 1
  {
    var a, b := xs[..k], xs[k + 1..];
    assert xs == a + ([xs[k]] + b);
    SumAppend(a, [xs[k]] + b);
    SumAppend(a, b);
    SqDevAppend(a, [xs[k]] + b, c);
    SqDevAppend(a, b, c);
  }

  /** Samuelson's inequality: no value lies further from the mean than sqrt(n - 1) standard
      deviations, (x_k - mean)^2 <= (n - 1) * variance. */
  lemma Samuelson(xs: seq<int>, k: nat)
    requires k < |xs|
    ensures Square(xs[k] as real - Mean(xs)) <= (|xs| - 1) as real * Variance(xs)
  {
    var m, v := Stats(xs);
    var s, q, sr, r := OthersStats(xs, k, m);
    SamuelsonAt(xs, k, m, v, s, q, sr, r);
  }

  /** Samuelson's inequality for x_k among values with sum s and squared deviations q around
      their mean m, where the others sum to sr with squared deviations r around m. */
  lemma SamuelsonAt(xs: seq<int>, k: nat, m: real, v: real, s: real, q: real, sr: real, r: real)
    requires k < |xs|
    requires m * |xs| as real == s && v * |xs| as real == q
    requires sr == s - xs[k] as real && q == r + Square(xs[k] as real - m)
    requires Square(sr - (|xs| - 1) as real * m) <= (|xs| - 1) as real * r
    ensures Square(xs[k] as real - m) <= (|xs| - 1) as real * v
  {
    SamuelsonAlgebra(s, xs[k] as real, |xs| as real, m, sr, (|xs| - 1) as real, r, q, v);
  }

  /** The sum s and squared deviations q of all values, and those of the values other than
      x_k, which satisfy Cauchy-Schwarz. */
  lemma OthersStats(xs: seq<int>, k: nat, c: real) returns (s: real, q: real, sr: real, r: real)
    requires k < |xs|
    ensures s == Sum(xs) as real && q == SqDev(xs, c)
    ensures sr == s - xs[k] as real && q == r + Square(xs[k] as real - c)
    ensures Square(sr - (|xs| - 1) as real * c) <= (|xs| - 1) as real * r
  {
    var rest := xs[..k] + xs[k + 1..];
    RemoveOne(xs, k, c);
    CauchySchwarz(rest, c);
    s, q := Sum(xs) as real, SqDev(xs, c);
    sr, r := Sum(rest) as real, SqDev(rest, c);
  }

  lemma NoZAboveFew(xs: seq<int>, k: nat)
    requires k < |xs| <= 5
    ensures !ZAbove2(xs[k], Mean(xs), Variance(xs))
  {
    Samuelson(xs, k);
    var v := Variance(xs);
    assert (|xs| - 1) as real * v <= 4.0 * v;
    if v == 0.0 {
      var d := xs[k] as real - Mean(xs);
      assert d * d <= 0.0;
      assert d <= 2.0;
    }
  }

  /** With at most five expenses, the z-score test never reports anything. */
  lemma FiveOrFewerNeverFlagged(txs: seq<Transaction>)
    requires |Expenses(txs)| <= 5
    ensures DetectAnomaliesTest(txs) == []
  {
    var xs := Amounts(Expenses(txs));
    forall j | 0 <= j < |xs| ensures !ZAbove2(Expenses(txs)[j].amount, ExpenseMean(txs), ExpenseVariance(txs)) {
      NoZAboveFew(xs, j);
    }
  }

  /** The script's mock data: five expenses, the last one marked as the anomaly. */
  const MockTransactions: seq<Transaction> := [
    Transaction(0, 0, Some("Coffee"), -50, "Food", Expense, Date(2025, 0, 1, 0)),
    Transaction(0, 0, Some("Lunch"), -150, "Food", Expense, Date(2025, 0, 1, 0)),
    Transaction(0, 0, Some("Dinner"), -200, "Food", Expense, Date(2025, 0, 1, 0)),
    Transaction(0, 0, Some("Groceries"), -500, "Shopping", Expense, Date(2025, 0, 1, 0)),
    Transaction(0, 0, Some("New Laptop"), -5000, "Shopping", Expense, Date(2025, 0, 1, 0))
  ]

  /** The marked laptop is not found: nothing is reported on the mock data. */
  lemma MockLaptopNotFound()
    ensures DetectAnomaliesTest(MockTransactions) == []
  {
    FiveOrFewerNeverFlagged(MockTransactions);
  }

  /** `predictMonthEndTest`: the sum of all magnitudes, of every type and date, scaled from the
      day of the month to a 30-day month. */
  function PredictMonthEndTest(today: Date, txs: seq<Transaction>): int
    requires ValidDate(today)
  {
    Analytics.Project(SumOfMagnitudes(txs), today.day, 30)
  }

  /** `reduce((sum, t) => sum + Math.abs(t.amount), 0)`. */
  function SumOfMagnitudes(txs: seq<Transaction>): (r: int)
    ensures r >= 0
  {
    if txs == [] then 0 else Abs(txs[0].amount) + SumOfMagnitudes(txs[1..])
  }

  /** Only the amounts matter: two lists with the same amounts predict the same, whatever
      their types, categories and dates. */
  lemma {:induction false} OnlyAmountsMatter(a: seq<Transaction>, b: seq<Transaction>)
    requires |a| == |b| && forall i :: 0 <= i < |a| ==> a[i].amount == b[i].amount
    ensures SumOfMagnitudes(a) == SumOfMagnitudes(b)
  {
    if a != [] {
      OnlyAmountsMatter(a[1..], b[1..]);
    }
  }

  /** The projection is never negative, and up to day 30 it is at least the sum so far. */
  lemma PredictMonthEndTestBounds(today: Date, txs: seq<Transaction>)
    requires ValidDate(today)
    ensures PredictMonthEndTest(today, txs) >= 0
    ensures today.day <= 30 ==> PredictMonthEndTest(today, txs) >= SumOfMagnitudes(txs)
    ensures today.day == 30 ==> PredictMonthEndTest(today, txs) == SumOfMagnitudes(txs)
  {
    var s := SumOfMagnitudes(txs);
    if today.day <= 30 {
      Analytics.ProjectBounds(s, today.day, 30);
    } else {
      var q := s as real / today.day as real;
      assert q >= 0.0;
    }
  }
}
