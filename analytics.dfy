/** The dashboard's insight heuristics (frontend/src/utils/analytics.ts): a high-spending
    alert, a month-over-month spending trend and a month-end projection. `now` is a
    parameter; transactions are the records the server returns. */
module Analytics {
  import opened Wrappers
  import opened CivilDate
  import opened Records
  import opened Numbers

  predicate IsExpense(t: Transaction) {
    t.kind == Expense
  }

  /** `filter(t => t.type === 'expense').map(t => Number(t.amount))`. */
  function ExpenseAmounts(txs: seq<Transaction>): (r: seq<int>)
    ensures |r| <= |txs|
    ensures (forall i :: 0 <= i < |txs| ==> !IsExpense(txs[i])) <==> r == []
  {
    if txs == [] then []
    else (if IsExpense(txs[0]) then [txs[0].amount] else []) + ExpenseAmounts(txs[1..])
  }

  /** If every expense is negative, so is every expense amount collected. */
  lemma {:induction false} ExpenseAmountsNegative(txs: seq<Transaction>)
    requires forall i :: 0 <= i < |txs| && IsExpense(txs[i]) ==> txs[i].amount < 0
    ensures forall i :: 0 <= i < |ExpenseAmounts(txs)| ==> ExpenseAmounts(txs)[i] < 0
  {
    if txs != [] {
      ExpenseAmountsNegative(txs[1..]);
    }
  }

  /** Every collected amount belongs to some expense of the list. */
  lemma {:induction false} ExpenseAmountsFrom(txs: seq<Transaction>, k: nat)
    requires k < |ExpenseAmounts(txs)|
    ensures exists i :: 0 <= i < |txs| && IsExpense(txs[i]) && txs[i].amount == ExpenseAmounts(txs)[k]
  {
    if IsExpense(txs[0]) && k == 0 {
      assert IsExpense(txs[0]) && txs[0].amount == ExpenseAmounts(txs)[k];
    } else {
      var k' := if IsExpense(txs[0]) then k - 1 else k;
      ExpenseAmountsFrom(txs[1..], k');
      var i :| 0 <= i < |txs[1..]| && IsExpense(txs[1..][i]) && txs[1..][i].amount == ExpenseAmounts(txs[1..])[k'];
      assert IsExpense(txs[i + 1]) && txs[i + 1].amount == ExpenseAmounts(txs)[k];
    }
  }

  /** `avgExpense`: the mean of the signed expense amounts, 0 when there are none. */
  function AverageExpense(txs: seq<Transaction>): real {
    Mean(ExpenseAmounts(txs))
  }

  /** The `find` predicate: an expense above the threshold. */
  predicate High(t: Transaction, threshold: real) {
    IsExpense(t) && t.amount as real > threshold
  }

  /** Position of the first transaction above the threshold, as `find` scans. */
  function FirstHigh(txs: seq<Transaction>, threshold: real): (r: Option<nat>)
    ensures r.Some? ==> r.value < |txs| && High(txs[r.value], threshold)
    ensures r.Some? ==> forall j :: 0 <= j < r.value ==> !High(txs[j], threshold)
    ensures r.None? <==> forall j :: 0 <= j < |txs| ==> !High(txs[j], threshold)
  {
    if txs == [] then None
    else if High(txs[0], threshold) then Some(0)
    else match FirstHigh(txs[1..], threshold)
      case None => None
      case Some(i) => Some(i + 1)
  }

  /** The transactions `detectAnomalies` reports (one message each): none for fewer than five
      transactions, otherwise at most one, the first expense above three times the average. */
  function Anomalies(txs: seq<Transaction>): (r: seq<Transaction>)
    ensures |r| <= 1
    ensures |txs| < 5 ==> r == []
    ensures |txs| >= 5 && r == [] ==> forall j :: 0 <= j < |txs| ==> !High(txs[j], 3.0 * AverageExpense(txs))
    ensures r != [] ==> |txs| >= 5
    ensures r != [] ==>
      exists i :: 0 <= i < |txs| && r == [txs[i]]
        && High(txs[i], 3.0 * AverageExpense(txs))
        && forall j :: 0 <= j < i ==> !High(txs[j], 3.0 * AverageExpense(txs))
  {
    if |txs| < 5 then []
    else match FirstHigh(txs, 3.0 * AverageExpense(txs))
      case None => []
      case Some(i) => [txs[i]]
  }

  /** The expense amounts of category c, in list order. */
  function AmountsIn(txs: seq<Transaction>, c: string): seq<int> {
    if txs == [] then []
    else
      var t := txs[|txs| - 1];
      AmountsIn(txs[..|txs| - 1], c) + (if IsExpense(t) && t.category == c then [t.amount] else [])
  }

  /** The names a plain object `{}` inherits from `Object.prototype`. Reading one of them from
      `categoryGroups` yields a function, or the prototype object itself, which is truthy and
      has no `push`. */
  const InheritedKeys: set<string> := {
    "__proto__", "constructor", "toString", "toLocaleString", "valueOf", "hasOwnProperty",
    "isPrototypeOf", "propertyIsEnumerable", "__defineGetter__", "__defineSetter__",
    "__lookupGetter__", "__lookupSetter__"
  }

  /** An expense whose category is an inherited name: `categoryGroups[t.category].push` throws a
      TypeError on it. */
  predicate BreaksGrouping(t: Transaction) {
    IsExpense(t) && t.category in InheritedKeys
  }

  predicate GroupingThrows(txs: seq<Transaction>) {
    exists i :: 0 <= i < |txs| && BreaksGrouping(txs[i])
  }

  /** `categoryGroups` after the `forEach` over the first |txs| transactions, or None when the
      `forEach` has thrown. */
  function CategoryGroups(txs: seq<Transaction>): Option<map<string, seq<int>>> {
    if txs == [] then Some(map[])
    else
      match CategoryGroups(txs[..|txs| - 1])
      case None => None
      case Some(g) =>
        var t := txs[|txs| - 1];
        if !IsExpense(t) then Some(g)
        else if BreaksGrouping(t) then None
        else Some(g[t.category := (if t.category in g then g[t.category] else []) + [t.amount]])
  }

  /** The grouping throws exactly when some expense has an inherited category name. */
  lemma {:induction false} CategoryGroupsThrow(txs: seq<Transaction>)
    ensures CategoryGroups(txs).None? <==> GroupingThrows(txs)
  {
    if txs != [] {
      var p := txs[..|txs| - 1];
      CategoryGroupsThrow(p);
      if GroupingThrows(p) {
        var i :| 0 <= i < |p| && BreaksGrouping(p[i]);
        assert BreaksGrouping(txs[i]);
      }
      if GroupingThrows(txs) && !BreaksGrouping(txs[|txs| - 1]) {
        var i :| 0 <= i < |txs| && BreaksGrouping(txs[i]);
        assert BreaksGrouping(p[i]);
      }
    }
  }

  /** When the grouping completes, it has one key per category holding an expense, mapped to
      exactly that category's expense amounts in list order. */
  lemma {:induction false} CategoryGroupsExact(txs: seq<Transaction>, c: string)
    requires CategoryGroups(txs).Some?
    ensures c in CategoryGroups(txs).value <==> AmountsIn(txs, c) != []
    ensures c in CategoryGroups(txs).value ==> CategoryGroups(txs).value[c] == AmountsIn(txs, c)
  {
    if txs != [] {
      CategoryGroupsExact(txs[..|txs| - 1], c);
    }
  }

  /** The `forEach` that fills `categoryGroups`; None when it throws. */
  method GroupExpensesByCategory(txs: seq<Transaction>) returns (groups: Option<map<string, seq<int>>>)
    ensures groups == CategoryGroups(txs)
  {
    var g: map<string, seq<int>> := map[];
    var i := 0;
    while i < |txs|
      invariant 0 <= i <= |txs|
      invariant CategoryGroups(txs[..i]) == Some(g)
    {
      var t := txs[i];
      assert txs[..i + 1][..i] == txs[..i];
      assert txs[..i + 1][i] == t;
      if IsExpense(t) {
        if BreaksGrouping(t) {
          CategoryGroupsThrow(txs);
          assert BreaksGrouping(txs[i]);
          return None;
        }
        ghost var next := g[t.category := (if t.category in g then g[t.category] else []) + [t.amount]];
        assert CategoryGroups(txs[..i + 1]) == Some(next);
        if t.category !in g {
          g := g[t.category := []];
        }
        g := g[t.category := g[t.category] + [t.amount]];
        assert g == next;
      } else {
        assert CategoryGroups(txs[..i + 1]) == Some(g);
      }
      i := i + 1;
    }
    assert txs[..i] == txs;
    return Some(g);
  }

  /** How a call of `detectAnomalies` ends: with its alerts (one per reported transaction), or
      with the TypeError the grouping throws. */
  datatype Outcome = Returned(alerts: seq<Transaction>) | ThrewTypeError

  /** `detectAnomalies`: it throws exactly when there are at least five transactions and some
      expense has an inherited category name; otherwise the grouping is built and then not
      used, so the result is the heuristic alone. */
  method DetectAnomalies(txs: seq<Transaction>) returns (r: Outcome)
    ensures r.ThrewTypeError? <==> |txs| >= 5 && GroupingThrows(txs)
    ensures r.Returned? ==> r.alerts == Anomalies(txs)
  {
    if |txs| < 5 {
      return Returned([]);
    }
    var categoryGroups := GroupExpensesByCategory(txs);
    CategoryGroupsThrow(txs);
    if categoryGroups.None? {
      return ThrewTypeError;
    }
    var anomalies: seq<Transaction> := [];
    var avgExpense := AverageExpense(txs);
    var recentHigh := FirstHigh(txs, avgExpense * 3.0);
    if recentHigh.Some? {
      anomalies := anomalies + [txs[recentHigh.value]];
    }
    assert anomalies == Anomalies(txs);
    r := Returned(anomalies);
  }

  /** With expenses stored negative, the alert always fires: some expense is at least the
      negative average, which exceeds three times it. */
  lemma AlwaysFlagsNegativeExpenses(txs: seq<Transaction>)
    requires |txs| >= 5
    requires exists i :: 0 <= i < |txs| && IsExpense(txs[i])
    requires forall i :: 0 <= i < |txs| && IsExpense(txs[i]) ==> txs[i].amount < 0
    ensures |Anomalies(txs)| == 1
  {
    var xs := ExpenseAmounts(txs);
    ExpenseAmountsNegative(txs);
    NegativeMean(xs);
    SomeAtLeastMean(xs);
    var k :| 0 <= k < |xs| && xs[k] as real >= Mean(xs);
    ExpenseAmountsFrom(txs, k);
    var i :| 0 <= i < |txs| && IsExpense(txs[i]) && txs[i].amount == xs[k];
    assert High(txs[i], 3.0 * AverageExpense(txs));
  }

  /** Five identical expenses of -100 (ordinary spending) raise an alert on the first. */
  lemma UniformSpendingFlagged()
    ensures var t := Transaction(0, 0, Some("Coffee"), -100, "Food", Expense, Date(2025, 0, 1, 0));
      Anomalies([t, t, t, t, t]) == [t]
  {
    var t := Transaction(0, 0, Some("Coffee"), -100, "Food", Expense, Date(2025, 0, 1, 0));
    var txs := [t, t, t, t, t];
    assert IsExpense(txs[0]);
    AlwaysFlagsNegativeExpenses(txs);
  }

  /** The expense magnitudes, as the dashboard totals them. */
  function ExpenseMagnitudes(txs: seq<Transaction>): (r: seq<int>)
    ensures |r| <= |txs|
    ensures forall i :: 0 <= i < |r| ==> r[i] >= 0
    ensures (forall i :: 0 <= i < |txs| ==> !IsExpense(txs[i])) <==> r == []
  {
    if txs == [] then []
    else (if IsExpense(txs[0]) then [Abs(txs[0].amount)] else []) + ExpenseMagnitudes(txs[1..])
  }

  /** The comparison on magnitudes, as the alert's wording intends. */
  predicate HighSpend(t: Transaction, threshold: real) {
    IsExpense(t) && Abs(t.amount) as real > threshold
  }

  function FirstHighSpend(txs: seq<Transaction>, threshold: real): (r: Option<nat>)
    ensures r.Some? ==> r.value < |txs| && HighSpend(txs[r.value], threshold)
    ensures r.Some? ==> forall j :: 0 <= j < r.value ==> !HighSpend(txs[j], threshold)
    ensures r.None? <==> forall j :: 0 <= j < |txs| ==> !HighSpend(txs[j], threshold)
  {
    if txs == [] then None
    else if HighSpend(txs[0], threshold) then Some(0)
    else match FirstHighSpend(txs[1..], threshold)
      case None => None
      case Some(i) => Some(i + 1)
  }

  /** The alert with magnitudes in place of signed amounts: the first expense spending more than
      three times the average expense. */
  function AnomaliesByMagnitude(txs: seq<Transaction>): (r: seq<Transaction>)
    ensures |r| <= 1
    ensures |txs| < 5 ==> r == []
    ensures |txs| >= 5 && r == [] ==> forall j :: 0 <= j < |txs| ==> !HighSpend(txs[j], 3.0 * Mean(ExpenseMagnitudes(txs)))
    ensures r != [] ==>
      exists i :: 0 <= i < |txs| && r == [txs[i]]
        && HighSpend(txs[i], 3.0 * Mean(ExpenseMagnitudes(txs)))
        && forall j :: 0 <= j < i ==> !HighSpend(txs[j], 3.0 * Mean(ExpenseMagnitudes(txs)))
  {
    if |txs| < 5 then []
    else match FirstHighSpend(txs, 3.0 * Mean(ExpenseMagnitudes(txs)))
      case None => []
      case Some(i) => [txs[i]]
  }

  lemma {:induction false} MagnitudeInSum(txs: seq<Transaction>, i: nat)
    requires i < |txs| && IsExpense(txs[i])
    ensures Abs(txs[i].amount) <= Sum(ExpenseMagnitudes(txs))
  {
    NonNegativeSum(ExpenseMagnitudes(txs[1..]));
    var rest := ExpenseMagnitudes(txs[1..]);
    if i > 0 {
      assert txs[1..][i - 1] == txs[i];
      MagnitudeInSum(txs[1..], i - 1);
    }
    if IsExpense(txs[0]) {
      assert ([Abs(txs[0].amount)] + rest)[1..] == rest;
    } else {
      assert [] + rest == rest;
    }
  }

  lemma {:induction false} NonNegativeSum(xs: seq<int>)
    requires forall i :: 0 <= i < |xs| ==> xs[i] >= 0
    ensures Sum(xs) >= 0
  {
    if xs != [] {
      NonNegativeSum(xs[1..]);
    }
  }

  lemma TripleMeanAtLeastSum(s: int, n: int)
    requires 1 <= n <= 3 && s >= 0
    ensures 3.0 * (s as real / n as real) >= s as real
  {
    if n == 2 {
      assert s as real / 2.0 * 2.0 == s as real;
    } else if n == 3 {
      assert s as real / 3.0 * 3.0 == s as real;
    }
  }

  /** With magnitudes, no expense can exceed three times the mean of at most three expenses,
      so ordinary short histories raise no alert. */
  lemma FewExpensesNotFlagged(txs: seq<Transaction>)
    requires |ExpenseMagnitudes(txs)| <= 3
    ensures AnomaliesByMagnitude(txs) == []
  {
    var ms := ExpenseMagnitudes(txs);
    var th := 3.0 * Mean(ms);
    forall j | 0 <= j < |txs| ensures !HighSpend(txs[j], th) {
      if IsExpense(txs[j]) {
        MagnitudeInSum(txs, j);
        NonNegativeSum(ms);
        TripleMeanAtLeastSum(Sum(ms), |ms|);
      }
    }
  }

  /** When every expense spends the same m, each collected magnitude is m. */
  lemma {:induction false} UniformMagnitudes(txs: seq<Transaction>, m: nat)
    requires forall i :: 0 <= i < |txs| && IsExpense(txs[i]) ==> Abs(txs[i].amount) == m
    ensures forall k :: 0 <= k < |ExpenseMagnitudes(txs)| ==> ExpenseMagnitudes(txs)[k] == m
  {
    if txs != [] {
      UniformMagnitudes(txs[1..], m);
    }
  }

  /** Identical spending is never remarkable on magnitudes. */
  lemma UniformSpendingNeverFlagged(txs: seq<Transaction>, m: nat)
    requires forall i :: 0 <= i < |txs| && IsExpense(txs[i]) ==> Abs(txs[i].amount) == m
    ensures AnomaliesByMagnitude(txs) == []
  {
    var ms := ExpenseMagnitudes(txs);
    UniformMagnitudes(txs, m);
    if ms != [] {
      UniformSum(ms, m);
      assert Mean(ms) == m as real;
    }
  }

  lemma {:induction false} UniformSum(xs: seq<int>, m: int)
    requires forall k :: 0 <= k < |xs| ==> xs[k] == m
    ensures Sum(xs) == |xs| * m
  {
    if xs != [] {
      UniformSum(xs[1..], m);
    }
  }

  /** Magnitudes make identical spending unremarkable: five equal expenses raise no alert. */
  lemma UniformSpendingNotFlagged()
    ensures var t := Transaction(0, 0, Some("Coffee"), -100, "Food", Expense, Date(2025, 0, 1, 0));
      AnomaliesByMagnitude([t, t, t, t, t]) == []
  {
    var t := Transaction(0, 0, Some("Coffee"), -100, "Food", Expense, Date(2025, 0, 1, 0));
    UniformSpendingNeverFlagged([t, t, t, t, t], 100);
  }

  /** `d.getMonth() === m && d.getFullYear() === y`, for a stored (normalised) date. */
  predicate InMonth(d: Date, y: int, m: int) {
    d.year == y && d.month == m
  }

  /** The signed sum of the expense amounts dated in month m of year y. */
  function MonthExpenseSum(txs: seq<Transaction>, y: int, m: int): int {
    if txs == [] then 0
    else (if IsExpense(txs[0]) && InMonth(txs[0].date, y, m) then txs[0].amount else 0)
         + MonthExpenseSum(txs[1..], y, m)
  }

  /** The trend message, up to its text: still gathering, or up or down by a percentage. */
  datatype Trend = Gathering | Up(percent: real) | Down(percent: real)

  /** `calculateTrends` at time now: this month's expense sum against the previous calendar
      month's, with January compared to December of the year before. */
  function CalculateTrends(now: Date, txs: seq<Transaction>): Trend
    requires 0 <= now.month < 12
  {
    var (py, pm) := PrevMonth(now.year, now.month);
    TrendOf(MonthExpenseSum(txs, now.year, now.month), MonthExpenseSum(txs, py, pm))
  }

  /** The trend between this month's sum cur and last month's sum last. */
  function TrendOf(cur: int, last: int): Trend {
    if last == 0 then Gathering
    else
      var diff := cur - last;
      var percent := diff as real / last as real * 100.0;
      if diff > 0 then Up(percent) else Down(RealAbs(percent))
  }

  /** The trend's cases: gathering exactly when last month sums to 0, up exactly when the signed
      sum grew, and the percentage recovers this month's sum from last month's. A change of 0
      reads as down by 0. */
  lemma TrendCases(cur: int, last: int)
    ensures var r := TrendOf(cur, last);
      && (r.Gathering? <==> last == 0)
      && (r.Up? <==> last != 0 && cur > last)
      && (r.Up? ==> cur as real == last as real * (1.0 + r.percent / 100.0))
      && (r.Down? ==> r.percent >= 0.0 && RealAbs(cur as real - last as real) == RealAbs(last as real) * r.percent / 100.0)
      && (last != 0 && cur == last ==> r == Down(0.0))
  {
    if last != 0 {
      var d, l := (cur - last) as real, last as real;
      PercentOf(d, l);
      if cur > last {
        UpRecovers(cur as real, l, d / l * 100.0);
      } else {
        AbsScaled(d / l * 100.0, l, d);
      }
    }
  }

  lemma PercentOf(d: real, l: real)
    requires l != 0.0
    ensures (d / l * 100.0) * l == d * 100.0
  {
  }

  lemma UpRecovers(c: real, l: real, p: real)
    requires p * l == (c - l) * 100.0
    ensures c == l * (1.0 + p / 100.0)
  {
  }

  lemma AbsScaled(p: real, l: real, d: real)
    requires p * l == d * 100.0
    ensures RealAbs(d) == RealAbs(l) * RealAbs(p) / 100.0
  {
    if p < 0.0 && l < 0.0 {
      assert (-p) * (-l) == p * l;
    } else if p < 0.0 {
      assert (-p) * l == -(p * l);
    } else if l < 0.0 {
      assert p * (-l) == -(p * l);
    }
  }

  /** The trend of the current and the previous calendar month's expense sums. */
  lemma CalculateTrendsCases(now: Date, txs: seq<Transaction>)
    requires 0 <= now.month < 12
    ensures var (py, pm) := PrevMonth(now.year, now.month);
      var cur, last := MonthExpenseSum(txs, now.year, now.month), MonthExpenseSum(txs, py, pm);
      var r := CalculateTrends(now, txs);
      && (r.Gathering? <==> last == 0)
      && (r.Up? <==> last != 0 && cur > last)
  {
    var (py, pm) := PrevMonth(now.year, now.month);
    TrendCases(MonthExpenseSum(txs, now.year, now.month), MonthExpenseSum(txs, py, pm));
  }

  /** With expenses stored negative, "up" means the spending magnitude fell. */
  lemma TrendUpWhenSpendingFalls(now: Date, txs: seq<Transaction>)
    requires 0 <= now.month < 12
    requires var (py, pm) := PrevMonth(now.year, now.month);
      MonthExpenseSum(txs, now.year, now.month) <= 0 && MonthExpenseSum(txs, py, pm) < 0
    ensures var (py, pm) := PrevMonth(now.year, now.month);
      CalculateTrends(now, txs).Up? <==>
        Abs(MonthExpenseSum(txs, now.year, now.month)) < Abs(MonthExpenseSum(txs, py, pm))
  {
    CalculateTrendsCases(now, txs);
  }

  /** `new Date(year, month + 1, 0).getDate()`: the length of the current month. */
  function DaysThisMonth(now: Date): (n: int)
    requires 0 <= now.month < 12
    ensures n == DaysInMonth(now.year, now.month)
  {
    DayZeroIsLastDay(now.year, now.month, 0);
    Normalize(now.year, now.month + 1, 0, 0).day
  }

  /** `predictMonthEnd` at time now: this month's expense sum scaled from the days elapsed to
      the whole month, rounded. */
  function PredictMonthEnd(now: Date, txs: seq<Transaction>): int
    requires ValidDate(now)
  {
    var total := MonthExpenseSum(txs, now.year, now.month);
    if now.day == 0 then total
    else Project(total, now.day, DaysThisMonth(now))
  }

  /** `Math.round(total / day * days)`. */
  function Project(total: int, day: int, days: int): int
    requires day >= 1
  {
    Round(total as real / day as real * days as real)
  }

  /** Scaling up from day to days stays on the sign side of total and grows its magnitude;
      scaling by 1 keeps it. */
  lemma ProjectBounds(total: int, day: int, days: int)
    requires 1 <= day <= days
    ensures var r := Project(total, day, days);
      && (total >= 0 ==> total <= r)
      && (total <= 0 ==> r <= total)
      && (day == days ==> r == total)
  {
    var q := total as real / day as real;
    assert q * day as real == total as real;
    if total >= 0 {
      ScaleUp(q, day as real, days as real);
    } else {
      ScaleUp(-q, day as real, days as real);
    }
  }

  /** The projection never shrinks the month's sum: it stays on the same side of it, moving
      away from 0 by the month's remaining share, and equals it on the month's last day. The
      `day === 0` guard is never taken. */
  lemma PredictMonthEndBounds(now: Date, txs: seq<Transaction>)
    requires ValidDate(now)
    ensures now.day != 0
    ensures var total, r := MonthExpenseSum(txs, now.year, now.month), PredictMonthEnd(now, txs);
      && (total >= 0 ==> total <= r)
      && (total <= 0 ==> r <= total)
      && (now.day == DaysInMonth(now.year, now.month) ==> r == total)
  {
    ProjectBounds(MonthExpenseSum(txs, now.year, now.month), now.day, DaysThisMonth(now));
  }

  lemma ScaleUp(q: real, a: real, b: real)
    requires q >= 0.0 && a <= b
    ensures q * a <= q * b
  {
  }

  /** Day 10 of a 30-day month with -100 spent so far projects -300. */
  lemma PredictMonthEndExample()
    ensures PredictMonthEnd(Date(2025, 3, 10, 0), [Transaction(0, 0, None, -100, "Food", Expense, Date(2025, 3, 2, 0))]) == -300
  {
    assert DaysThisMonth(Date(2025, 3, 10, 0)) == 30;
  }
}
