/** The figures the dashboard derives from the transactions the server returned
    (frontend/src/pages/dashboard.tsx): the summary totals and savings rate, the monthly
    income/expense series, the expense breakdown by category, and the change from the
    previous month. */
module DashboardStats {
  import opened Wrappers
  import opened CivilDate
  import opened Records
  import opened Numbers

  /** The two columns the dashboard totals: income adds its signed amount, every other
      transaction adds the magnitude of its amount. */
  datatype Column = IncomeColumn | ExpenseColumn

  /** What one transaction contributes to a column. */
  function Share(t: Transaction, c: Column): int {
    match c
    case IncomeColumn => if t.kind == Income then t.amount else 0
    case ExpenseColumn => if t.kind == Income then 0 else Abs(t.amount)
  }

  /** `transactions.reduce(...)` over one column, left to right. */
  function Total(txs: seq<Transaction>, c: Column): int {
    if txs == [] then 0
    else Total(txs[..|txs| - 1], c) + Share(txs[|txs| - 1], c)
  }

  function TotalIncome(txs: seq<Transaction>): int {
    Total(txs, IncomeColumn)
  }

  function TotalExpenses(txs: seq<Transaction>): int {
    Total(txs, ExpenseColumn)
  }

  function Balance(txs: seq<Transaction>): int {
    TotalIncome(txs) - TotalExpenses(txs)
  }

  /** `balance / totalIncome * 100` when income is positive, otherwise 0. */
  function SavingsRate(txs: seq<Transaction>): real {
    var income := TotalIncome(txs);
    if income > 0 then Balance(txs) as real / income as real * 100.0 else 0.0
  }

  /** A column total splits over concatenation. */
  lemma {:induction false} TotalAppend(a: seq<Transaction>, b: seq<Transaction>, c: Column)
    ensures Total(a + b, c) == Total(a, c) + Total(b, c)
    decreases |b|
  {
    if b != [] {
      var b' := b[..|b| - 1];
      assert (a + b)[..|a + b| - 1] == a + b' && (a + b)[|a + b| - 1] == b[|b| - 1];
      TotalAppend(a, b', c);
    } else {
      assert a + b == a;
    }
  }

  /** The expense total is a sum of magnitudes, so it is never negative. */
  lemma {:induction false} ExpensesNonNegative(txs: seq<Transaction>)
    ensures TotalExpenses(txs) >= 0
  {
    if txs != [] {
      ExpensesNonNegative(txs[..|txs| - 1]);
    }
  }

  /** The savings rate is 0 without positive income; with positive income it is at most
      100, exactly 100 when nothing was spent, and negative exactly when the balance is. */
  lemma SavingsRateBounds(txs: seq<Transaction>)
    ensures TotalIncome(txs) <= 0 ==> SavingsRate(txs) == 0.0
    ensures TotalIncome(txs) > 0 ==>
      && SavingsRate(txs) <= 100.0
      && (SavingsRate(txs) == 100.0 <==> TotalExpenses(txs) == 0)
      && (SavingsRate(txs) < 0.0 <==> Balance(txs) < 0)
  {
    ExpensesNonNegative(txs);
    var i, e := TotalIncome(txs), TotalExpenses(txs);
    if i > 0 {
      RateBounds(i as real, e as real);
    }
  }

  lemma RateBounds(i: real, e: real)
    requires i > 0.0 && e >= 0.0
    ensures (i - e) / i * 100.0 <= 100.0
    ensures (i - e) / i * 100.0 == 100.0 <==> e == 0.0
    ensures (i - e) / i * 100.0 < 0.0 <==> i - e < 0.0
  {
    var q := (i - e) / i;
    assert q * i == i - e;
    assert (1.0 - q) * i == e;
    if e == 0.0 {
      assert q == 1.0;
    }
    if q < 0.0 {
      assert q * i < 0.0;
    }
    if i - e < 0.0 {
      assert q < 0.0;
    }
  }

  // ---- The monthly series (monthlyDataMap) ----

  const MonthNames: seq<string> :=
    ["Jan", "Feb", "Mar", "Apr", "May", "Jun", "Jul", "Aug", "Sep", "Oct", "Nov", "Dec"]

  lemma MonthNamesDistinct()
    ensures |MonthNames| == 12
    ensures forall j, k :: 0 <= j < k < 12 ==> MonthNames[j] != MonthNames[k]
  {
  }

  /** Every date `getMonth()` can report: months 0..11. */
  predicate WellDated(txs: seq<Transaction>) {
    forall i :: 0 <= i < |txs| ==> 0 <= txs[i].date.month < 12
  }

  predicate HasMonth(txs: seq<Transaction>, k: int) {
    exists i :: 0 <= i < |txs| && txs[i].date.month == k
  }

  /** The column total over the transactions of month k, in any year. */
  function MonthTotal(txs: seq<Transaction>, k: int, c: Column): int {
    if txs == [] then 0
    else
      var last := txs[|txs| - 1];
      MonthTotal(txs[..|txs| - 1], k, c) + (if last.date.month == k then Share(last, c) else 0)
  }

  /** One point of the chart, with the bucket's `index` stripped. */
  datatype MonthPoint = MonthPoint(month: string, income: int, expenses: int)

  function PointOf(txs: seq<Transaction>, k: int): MonthPoint
    requires 0 <= k < 12
  {
    MonthPoint(MonthNames[k], MonthTotal(txs, k, IncomeColumn), MonthTotal(txs, k, ExpenseColumn))
  }

  /** The months below k that some transaction falls in, in calendar order. */
  function MonthsBelow(txs: seq<Transaction>, k: nat): (r: seq<int>)
    requires k <= 12
    ensures forall i :: 0 <= i < |r| ==> 0 <= r[i] < k
    ensures forall i, j :: 0 <= i < j < |r| ==> r[i] < r[j]
    ensures forall m :: m in r <==> 0 <= m < k && HasMonth(txs, m)
  {
    if k == 0 then []
    else MonthsBelow(txs, k - 1) + (if HasMonth(txs, k - 1) then [k - 1] else [])
  }

  /** The points of the months below k that have transactions, in calendar order. */
  function SeriesBelow(txs: seq<Transaction>, k: nat): seq<MonthPoint>
    requires k <= 12
  {
    if k == 0 then []
    else SeriesBelow(txs, k - 1) + (if HasMonth(txs, k - 1) then [PointOf(txs, k - 1)] else [])
  }

  /** `monthlyData`: one point per month that has transactions, in calendar order. */
  function MonthlySeries(txs: seq<Transaction>): seq<MonthPoint> {
    SeriesBelow(txs, 12)
  }

  /** One entry of `monthlyDataMap`. */
  datatype Bucket = Bucket(month: string, income: int, expenses: int, index: int)

  /** Builds `monthlyDataMap` with one `forEach` pass, then lists the buckets by month index
      and strips the index. */
  method MonthlyData(txs: seq<Transaction>) returns (points: seq<MonthPoint>)
    requires WellDated(txs)
    ensures points == MonthlySeries(txs)
  {
    MonthNamesDistinct();
    var buckets: map<string, Bucket> := map[];
    for i := 0 to |txs|
      invariant forall k :: 0 <= k < 12 ==> (MonthNames[k] in buckets <==> HasMonth(txs[..i], k))
      invariant forall k :: 0 <= k < 12 && MonthNames[k] in buckets ==>
        buckets[MonthNames[k]] == Bucket(MonthNames[k], MonthTotal(txs[..i], k, IncomeColumn), MonthTotal(txs[..i], k, ExpenseColumn), k)
    {
      var t := txs[i];
      var k := t.date.month;
      var name := MonthNames[k];
      if name !in buckets {
        AbsentMonthIsZero(txs[..i], k, IncomeColumn);
        AbsentMonthIsZero(txs[..i], k, ExpenseColumn);
        buckets := buckets[name := Bucket(name, 0, 0, k)];
      }
      var b := buckets[name];
      if t.kind == Income {
        b := b.(income := b.income + t.amount);
      } else {
        b := b.(expenses := b.expenses + Abs(t.amount));
      }
      buckets := buckets[name := b];
      MonthStep(txs, i);
    }
    assert txs[..|txs|] == txs;
    points := [];
    for k := 0 to 12
      invariant points == SeriesBelow(txs, k)
    {
      if MonthNames[k] in buckets {
        var b := buckets[MonthNames[k]];
        points := points + [MonthPoint(b.month, b.income, b.expenses)];
      }
    }
  }

  /** Extending the prefix by transaction i changes only the bucket of its month. */
  lemma MonthStep(txs: seq<Transaction>, i: nat)
    requires i < |txs|
    ensures forall k :: HasMonth(txs[..i + 1], k) <==> HasMonth(txs[..i], k) || txs[i].date.month == k
    ensures forall k, c ::
      MonthTotal(txs[..i + 1], k, c) == MonthTotal(txs[..i], k, c) + (if txs[i].date.month == k then Share(txs[i], c) else 0)
  {
    assert txs[..i + 1][..i] == txs[..i];
    forall k ensures HasMonth(txs[..i + 1], k) <==> HasMonth(txs[..i], k) || txs[i].date.month == k {
      if HasMonth(txs[..i], k) {
        var j :| 0 <= j < i && txs[..i][j].date.month == k;
        assert txs[..i + 1][j] == txs[..i][j];
      }
      if HasMonth(txs[..i + 1], k) && txs[i].date.month != k {
        var j :| 0 <= j < i + 1 && txs[..i + 1][j].date.month == k;
        assert txs[..i][j] == txs[..i + 1][j];
      }
      if txs[i].date.month == k {
        assert txs[..i + 1][i] == txs[i];
      }
    }
  }

  /** The points below k are the points of the months below k, one each. */
  lemma {:induction false} SeriesBelowMonths(txs: seq<Transaction>, k: nat)
    requires k <= 12
    ensures |SeriesBelow(txs, k)| == |MonthsBelow(txs, k)|
    ensures forall i :: 0 <= i < |SeriesBelow(txs, k)| ==> SeriesBelow(txs, k)[i] == PointOf(txs, MonthsBelow(txs, k)[i])
  {
    if k > 0 {
      SeriesBelowMonths(txs, k - 1);
    }
  }

  /** No month name repeats, and the points follow the calendar. */
  lemma MonthlySeriesShape(txs: seq<Transaction>)
    ensures var s, ks := MonthlySeries(txs), MonthsBelow(txs, 12);
      && |s| == |ks|
      && (forall i :: 0 <= i < |s| ==> s[i] == PointOf(txs, ks[i]))
      && (forall i, j :: 0 <= i < j < |s| ==> ks[i] < ks[j] && s[i].month != s[j].month)
      && (forall k :: 0 <= k < 12 ==> (k in ks <==> HasMonth(txs, k)))
  {
    MonthNamesDistinct();
    SeriesBelowMonths(txs, 12);
  }

  /** The sum of one column over the chart's points. */
  function PointsTotal(ps: seq<MonthPoint>, c: Column): int {
    if ps == [] then 0
    else
      var p := ps[|ps| - 1];
      PointsTotal(ps[..|ps| - 1], c) + (if c == IncomeColumn then p.income else p.expenses)
  }

  lemma PointsTotalSnoc(ps: seq<MonthPoint>, p: MonthPoint, c: Column)
    ensures PointsTotal(ps + [p], c) == PointsTotal(ps, c) + (if c == IncomeColumn then p.income else p.expenses)
  {
    assert (ps + [p])[..|ps|] == ps;
  }

  /** The column summed over the months below k. */
  function ColumnBelow(txs: seq<Transaction>, k: nat, c: Column): int
    requires k <= 12
  {
    if k == 0 then 0 else ColumnBelow(txs, k - 1, c) + MonthTotal(txs, k - 1, c)
  }

  lemma {:induction false} AbsentMonthIsZero(txs: seq<Transaction>, k: int, c: Column)
    requires !HasMonth(txs, k)
    ensures MonthTotal(txs, k, c) == 0
  {
    if txs != [] {
      AbsentMonthIsZero(txs[..|txs| - 1], k, c);
    }
  }

  lemma {:induction false} SeriesColumn(txs: seq<Transaction>, k: nat, c: Column)
    requires k <= 12
    ensures PointsTotal(SeriesBelow(txs, k), c) == ColumnBelow(txs, k, c)
  {
    if k > 0 {
      SeriesColumn(txs, k - 1, c);
      var s0 := SeriesBelow(txs, k - 1);
      if HasMonth(txs, k - 1) {
        PointsTotalSnoc(s0, PointOf(txs, k - 1), c);
      } else {
        assert s0 + [] == s0;
        AbsentMonthIsZero(txs, k - 1, c);
      }
    }
  }

  lemma {:induction false} ColumnBelowEmpty(k: nat, c: Column)
    requires k <= 12
    ensures ColumnBelow([], k, c) == 0
  {
    if k > 0 {
      ColumnBelowEmpty(k - 1, c);
    }
  }

  /** Adding one dated transaction adds its share to exactly the months from its own on. */
  lemma {:induction false} ColumnBelowSnoc(txs: seq<Transaction>, k: nat, c: Column)
    requires txs != [] && k <= 12
    ensures var last := txs[|txs| - 1];
      ColumnBelow(txs, k, c) == ColumnBelow(txs[..|txs| - 1], k, c) + (if 0 <= last.date.month < k then Share(last, c) else 0)
  {
    if k > 0 {
      ColumnBelowSnoc(txs, k - 1, c);
    }
  }

  lemma {:induction false} ColumnBelowAll(txs: seq<Transaction>, c: Column)
    requires WellDated(txs)
    ensures ColumnBelow(txs, 12, c) == Total(txs, c)
  {
    if txs == [] {
      ColumnBelowEmpty(12, c);
    } else {
      var init := txs[..|txs| - 1];
      assert WellDated(init) by {
        forall i | 0 <= i < |init| ensures 0 <= init[i].date.month < 12 {
          assert init[i] == txs[i];
        }
      }
      ColumnBelowAll(init, c);
      ColumnBelowSnoc(txs, 12, c);
      assert 0 <= txs[|txs| - 1].date.month < 12;
    }
  }

  /** The monthly points add up to the summary totals: the months partition the
      transactions, whatever their years. */
  lemma MonthlySeriesTotals(txs: seq<Transaction>)
    requires WellDated(txs)
    ensures PointsTotal(MonthlySeries(txs), IncomeColumn) == TotalIncome(txs)
    ensures PointsTotal(MonthlySeries(txs), ExpenseColumn) == TotalExpenses(txs)
  {
    SeriesColumn(txs, 12, IncomeColumn);
    SeriesColumn(txs, 12, ExpenseColumn);
    ColumnBelowAll(txs, IncomeColumn);
    ColumnBelowAll(txs, ExpenseColumn);
  }

  // ---- The category breakdown (categoryDataMap) ----

  /** The distinct elements of s, each at its first occurrence. */
  function FirstOccurrences<T(==)>(s: seq<T>): seq<T> {
    if s == [] then []
    else
      var r0 := FirstOccurrences(s[..|s| - 1]);
      if s[|s| - 1] in r0 then r0 else r0 + [s[|s| - 1]]
  }

  /** The first occurrences hold every element of s, each once. */
  lemma {:induction false} FirstOccurrencesFacts<T(!new)>(s: seq<T>)
    ensures forall x :: x in FirstOccurrences(s) <==> x in s
    ensures forall i, j :: 0 <= i < j < |FirstOccurrences(s)| ==> FirstOccurrences(s)[i] != FirstOccurrences(s)[j]
  {
    if s != [] {
      FirstOccurrencesFacts(s[..|s| - 1]);
      assert s == s[..|s| - 1] + [s[|s| - 1]];
    }
  }

  /** The categories of the expenses, in input order. */
  function ExpenseCategories(txs: seq<Transaction>): seq<string> {
    if txs == [] then []
    else
      var last := txs[|txs| - 1];
      ExpenseCategories(txs[..|txs| - 1]) + (if last.kind == Expense then [last.category] else [])
  }

  /** The spending of category c: the sum of |amount| over its expenses. */
  function CategorySpend(txs: seq<Transaction>, c: string): int {
    if txs == [] then 0
    else
      var last := txs[|txs| - 1];
      CategorySpend(txs[..|txs| - 1], c) + (if last.kind == Expense && last.category == c then Abs(last.amount) else 0)
  }

  /** `categoryColors`. */
  const CategoryColors: map<string, string> := map[
    "Food" := "#8b5cf6", "Transport" := "#06b6d4", "Entertainment" := "#f59e0b", "Bills" := "#ef4444",
    "Shopping" := "#10b981", "Healthcare" := "#ec4899", "Education" := "#3b82f6", "Other" := "#6b7280"]

  /** The palette colour of a category; None stands for the random colour. */
  function ColorOf(c: string): Option<string> {
    if c in CategoryColors then Some(CategoryColors[c]) else None
  }

  /** The palette has a colour for exactly the categories a new user starts with. */
  lemma PaletteCoversDefaults()
    ensures forall c :: c in CategoryColors <==> c in DefaultCategories
  {
  }

  /** One entry of `categoryData`. */
  datatype Slice = Slice(name: string, value: int, color: Option<string>)

  function SlicesOf(txs: seq<Transaction>, cs: seq<string>): (r: seq<Slice>)
    ensures |r| == |cs|
  {
    seq(|cs|, i requires 0 <= i < |cs| => Slice(cs[i], CategorySpend(txs, cs[i]), ColorOf(cs[i])))
  }

  /** `categoryData`: one slice per distinct expense category, in first-occurrence order. */
  function CategoryBreakdown(txs: seq<Transaction>): seq<Slice> {
    SlicesOf(txs, FirstOccurrences(ExpenseCategories(txs)))
  }

  /** The position of the entry named c in an insertion-ordered Map held as a sequence. */
  function SliceIndex(slices: seq<Slice>, c: string): (r: Option<nat>)
    ensures r.Some? ==> r.value < |slices| && slices[r.value].name == c
    ensures r.None? ==> forall i :: 0 <= i < |slices| ==> slices[i].name != c
  {
    if slices == [] then None
    else if slices[|slices| - 1].name == c then Some(|slices| - 1)
    else SliceIndex(slices[..|slices| - 1], c)
  }

  /** Builds `categoryDataMap` with one pass over the expenses: a new category enters at
      value 0 with its colour, then every expense adds its magnitude to its category. */
  method CategoryData(txs: seq<Transaction>) returns (slices: seq<Slice>)
    ensures slices == CategoryBreakdown(txs)
  {
    slices := [];
    for i := 0 to |txs|
      invariant slices == CategoryBreakdown(txs[..i])
    {
      var t := txs[i];
      assert txs[..i + 1] == txs[..i] + [t];
      if t.kind == Expense {
        var j := SliceIndex(slices, t.category);
        if j.None? {
          ghost var before := slices;
          slices := slices + [Slice(t.category, 0, ColorOf(t.category))];
          j := Some(|slices| - 1);
          slices := slices[j.value := slices[j.value].(value := slices[j.value].value + Abs(t.amount))];
          assert slices == before + [Slice(t.category, Abs(t.amount), ColorOf(t.category))];
          AddNewSlice(txs[..i], t);
        } else {
          AddToSlice(txs[..i], t, j.value);
          slices := slices[j.value := slices[j.value].(value := slices[j.value].value + Abs(t.amount))];
        }
      } else {
        NonExpenseKeepsSlices(txs[..i], t);
      }
    }
    assert txs[..|txs|] == txs;
  }

  /** Appending one transaction extends the expense categories and the spending by it alone. */
  lemma Snoc(p: seq<Transaction>, t: Transaction)
    ensures ExpenseCategories(p + [t]) == ExpenseCategories(p) + (if t.kind == Expense then [t.category] else [])
    ensures forall c :: CategorySpend(p + [t], c) == CategorySpend(p, c) + (if t.kind == Expense && t.category == c then Abs(t.amount) else 0)
  {
    assert (p + [t])[..|p|] == p;
  }

  /** A transaction that is not an expense leaves the breakdown as it was. */
  lemma NonExpenseKeepsSlices(p: seq<Transaction>, t: Transaction)
    requires t.kind != Expense
    ensures CategoryBreakdown(p + [t]) == CategoryBreakdown(p)
  {
    Snoc(p, t);
    assert ExpenseCategories(p + [t]) == ExpenseCategories(p) + [] == ExpenseCategories(p);
  }

  /** An expense of a category already in the breakdown adds its magnitude to that slice. */
  lemma AddToSlice(p: seq<Transaction>, t: Transaction, j: nat)
    requires t.kind == Expense
    requires j < |CategoryBreakdown(p)| && CategoryBreakdown(p)[j].name == t.category
    ensures var s := CategoryBreakdown(p);
      s[j := s[j].(value := s[j].value + Abs(t.amount))] == CategoryBreakdown(p + [t])
  {
    Snoc(p, t);
    var e := ExpenseCategories(p);
    var cs := FirstOccurrences(e);
    assert (e + [t.category])[..|e|] == e;
    assert cs[j] == t.category;
    assert FirstOccurrences(e + [t.category]) == cs;
    FirstOccurrencesFacts(e);
    assert forall q :: 0 <= q < |cs| && q != j ==> cs[q] != t.category;
  }

  /** An expense of a new category adds a slice at the end holding its magnitude. */
  lemma AddNewSlice(p: seq<Transaction>, t: Transaction)
    requires t.kind == Expense
    requires forall i :: 0 <= i < |CategoryBreakdown(p)| ==> CategoryBreakdown(p)[i].name != t.category
    ensures CategoryBreakdown(p) + [Slice(t.category, Abs(t.amount), ColorOf(t.category))] == CategoryBreakdown(p + [t])
  {
    Snoc(p, t);
    var e := ExpenseCategories(p);
    var cs := FirstOccurrences(e);
    assert (e + [t.category])[..|e|] == e;
    FirstOccurrencesFacts(e);
    assert forall i :: 0 <= i < |cs| ==> cs[i] == CategoryBreakdown(p)[i].name;
    assert t.category !in cs;
    assert t.category !in e;
    UnseenCategoryIsZero(p, t.category);
    assert FirstOccurrences(e + [t.category]) == cs + [t.category];
  }

  function SliceTotal(slices: seq<Slice>): int {
    if slices == [] then 0 else SliceTotal(slices[..|slices| - 1]) + slices[|slices| - 1].value
  }

  /** Without an expense of category c, its spending is 0. */
  lemma {:induction false} UnseenCategoryIsZero(txs: seq<Transaction>, c: string)
    requires c !in ExpenseCategories(txs)
    ensures CategorySpend(txs, c) == 0
  {
    if txs != [] {
      UnseenCategoryIsZero(txs[..|txs| - 1], c);
    }
  }

  /** The category values add up to the expense total. */
  lemma {:induction false} CategoryBreakdownTotal(txs: seq<Transaction>)
    ensures SliceTotal(CategoryBreakdown(txs)) == TotalExpenses(txs)
  {
    if txs != [] {
      var init, t := txs[..|txs| - 1], txs[|txs| - 1];
      CategoryBreakdownTotal(init);
      assert txs == init + [t];
      var s0 := CategoryBreakdown(init);
      if t.kind != Expense {
        NonExpenseKeepsSlices(init, t);
      } else {
        var j := SliceIndex(s0, t.category);
        if j.Some? {
          AddToSlice(init, t, j.value);
          SliceTotalUpdate(s0, j.value, Abs(t.amount));
        } else {
          AddNewSlice(init, t);
          var x := Slice(t.category, Abs(t.amount), ColorOf(t.category));
          assert (s0 + [x])[..|s0|] == s0;
        }
      }
    }
  }

  /** Raising one slice's value raises the sum by as much. */
  lemma {:induction false} SliceTotalUpdate(s: seq<Slice>, j: nat, v: int)
    requires j < |s|
    ensures SliceTotal(s[j := s[j].(value := s[j].value + v)]) == SliceTotal(s) + v
    decreases |s|
  {
    var u := s[j := s[j].(value := s[j].value + v)];
    assert u[..|u| - 1] == if j == |s| - 1 then s[..|s| - 1] else s[..|s| - 1][j := s[j].(value := s[j].value + v)];
    if j < |s| - 1 {
      SliceTotalUpdate(s[..|s| - 1], j, v);
    }
  }

  /** Each slice names a distinct expense category, carries its total spending and its
      palette colour, and every expense category has a slice. */
  lemma CategoryBreakdownExact(txs: seq<Transaction>)
    ensures var s := CategoryBreakdown(txs);
      && (forall i :: 0 <= i < |s| ==> s[i].value == CategorySpend(txs, s[i].name) && s[i].color == ColorOf(s[i].name))
      && (forall i, j :: 0 <= i < j < |s| ==> s[i].name != s[j].name)
      && (forall c :: (exists i :: 0 <= i < |s| && s[i].name == c) <==> c in ExpenseCategories(txs))
  {
    var cs := FirstOccurrences(ExpenseCategories(txs));
    var s := CategoryBreakdown(txs);
    FirstOccurrencesFacts(ExpenseCategories(txs));
    forall c ensures (exists i :: 0 <= i < |s| && s[i].name == c) <==> c in ExpenseCategories(txs) {
      if c in cs {
        var i :| 0 <= i < |cs| && cs[i] == c;
        assert s[i].name == c;
      }
    }
  }

  // ---- The month comparison ----

  /** The transactions dated in month m of year y. */
  function MonthTransactions(txs: seq<Transaction>, y: int, m: int): (r: seq<Transaction>)
    ensures forall t :: t in r <==> t in txs && t.date.year == y && t.date.month == m
  {
    if txs == [] then []
    else
      var last := txs[|txs| - 1];
      assert txs == txs[..|txs| - 1] + [last];
      MonthTransactions(txs[..|txs| - 1], y, m) + (if last.date.year == y && last.date.month == m then [last] else [])
  }

  /** `calculateChange`: the percent change from previous to current; from 0 it is 100
      for a rise and 0 otherwise. */
  function CalculateChange(current: int, previous: int): real {
    if previous == 0 then (if current > 0 then 100.0 else 0.0)
    else (current - previous) as real / previous as real * 100.0
  }

  /** From a non-zero previous value the change recovers the current one, and for a positive
      previous value it is positive exactly when the figure rose. */
  lemma CalculateChangeMeaning(current: int, previous: int)
    ensures previous == 0 ==> (CalculateChange(current, previous) == 100.0 <==> current > 0)
    ensures previous == 0 ==> (CalculateChange(current, previous) == 0.0 <==> current <= 0)
    ensures previous != 0 ==>
      current as real == previous as real + previous as real * CalculateChange(current, previous) / 100.0
    ensures previous > 0 ==> (CalculateChange(current, previous) > 0.0 <==> current > previous)
    ensures previous > 0 ==> (CalculateChange(current, previous) == 0.0 <==> current == previous)
  {
    if previous != 0 {
      ChangeRecovers((current - previous) as real, previous as real);
    }
  }

  lemma ChangeRecovers(d: real, p: real)
    requires p != 0.0
    ensures p * (d / p * 100.0) / 100.0 == d
    ensures p > 0.0 ==> (d / p * 100.0 > 0.0 <==> d > 0.0) && (d / p * 100.0 == 0.0 <==> d == 0.0)
  {
    assert p * (d / p) == d;
  }

  /** `prevMonthDate.setMonth(prevMonthDate.getMonth() - 1)` on today's date, as written:
      the day of the month is kept, so a day the previous month lacks rolls forward. */
  function PrevMonthAsWritten(today: Date): (int, int) {
    var d := AddMonths(today, -1);
    (d.year, d.month)
  }

  /** As written, the "previous month" is the calendar's previous month only on days that
      month has; on the other days it is the current month again. */
  lemma PrevMonthAsWrittenCases(today: Date)
    requires ValidDate(today)
    ensures var (py, pm) := PrevMonth(today.year, today.month);
      && (today.day <= DaysInMonth(py, pm) ==> PrevMonthAsWritten(today) == (py, pm))
      && (today.day > DaysInMonth(py, pm) ==> PrevMonthAsWritten(today) == (today.year, today.month))
  {
    var (py, pm) := PrevMonth(today.year, today.month);
    var m := today.month - 1;
    assert (today.year + m / 12, m % 12) == (py, pm);
    var d := today.day;
    if d > DaysInMonth(py, pm) {
      assert NormalizeDay(py, pm, d, today.time) == NormalizeDay(today.year, today.month, d - DaysInMonth(py, pm), today.time);
    }
  }

  /** On 31 May the comparison month is May itself. */
  lemma PrevMonthOn31May(y: int, t: int)
    requires 0 <= t < MsPerDay
    ensures PrevMonthAsWritten(Date(y, 4, 31, t)) == (y, 4)
  {
    PrevMonthAsWrittenCases(Date(y, 4, 31, t));
  }

  /** On 30 March the comparison month is March itself, in leap years too. */
  lemma PrevMonthOn30March(y: int, t: int)
    requires 0 <= t < MsPerDay
    ensures PrevMonthAsWritten(Date(y, 2, 30, t)) == (y, 2)
  {
    PrevMonthAsWrittenCases(Date(y, 2, 30, t));
  }

  /** The income and expense changes shown on the cards for a given comparison month. */
  function ChangesAgainst(txs: seq<Transaction>, today: Date, prev: (int, int)): (real, real) {
    var cur := MonthTransactions(txs, today.year, today.month);
    var before := MonthTransactions(txs, prev.0, prev.1);
    (CalculateChange(TotalIncome(cur), TotalIncome(before)), CalculateChange(TotalExpenses(cur), TotalExpenses(before)))
  }

  /** As written, on those days both cards report a change of 0% whatever was spent. */
  lemma ChangesAsWrittenVanish(txs: seq<Transaction>, today: Date)
    requires ValidDate(today)
    requires today.day > DaysInMonth(PrevMonth(today.year, today.month).0, PrevMonth(today.year, today.month).1)
    ensures ChangesAgainst(txs, today, PrevMonthAsWritten(today)) == (0.0, 0.0)
  {
    PrevMonthAsWrittenCases(today);
    var cur := MonthTransactions(txs, today.year, today.month);
    SelfChangeIsZero(TotalIncome(cur));
    SelfChangeIsZero(TotalExpenses(cur));
  }

  lemma SelfChangeIsZero(x: int)
    ensures CalculateChange(x, x) == 0.0
  {
  }

  /** The comparison month as intended: the calendar month before today's, which is never
      today's month and always immediately precedes it. */
  function ComparisonMonth(today: Date): (r: (int, int))
    requires 0 <= today.month < 12
    ensures r != (today.year, today.month)
    ensures 0 <= r.1 < 12 && NextMonth(r.0, r.1) == (today.year, today.month)
  {
    PrevMonth(today.year, today.month)
  }

  /** The four stat cards' figures: balance, savings rate, totals, the two month-over-month
      changes, and this month's expenses and income. */
  datatype Summary = Summary(
    balance: int, savingsRate: real, totalIncome: int, totalExpenses: int,
    incomeChange: real, expenseChange: real, monthExpenses: int, monthIncome: int)

  function SummaryOf(txs: seq<Transaction>, today: Date): (s: Summary)
    requires 0 <= today.month < 12
    ensures s.balance == s.totalIncome - s.totalExpenses
    ensures s.totalIncome == TotalIncome(txs) && s.totalExpenses == TotalExpenses(txs)
    ensures s.savingsRate == SavingsRate(txs)
    ensures (s.incomeChange, s.expenseChange) == ChangesAgainst(txs, today, ComparisonMonth(today))
    ensures s.monthExpenses == TotalExpenses(MonthTransactions(txs, today.year, today.month))
    ensures s.monthIncome == TotalIncome(MonthTransactions(txs, today.year, today.month))
  {
    var cur := MonthTransactions(txs, today.year, today.month);
    var changes := ChangesAgainst(txs, today, ComparisonMonth(today));
    Summary(Balance(txs), SavingsRate(txs), TotalIncome(txs), TotalExpenses(txs),
            changes.0, changes.1, TotalExpenses(cur), TotalIncome(cur))
  }
}
