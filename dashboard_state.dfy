/** The dashboard page's own state: the month filter and the pagination of the transaction
    list, the category list edited in the settings dialog, and the transaction form with its
    submission and the delete button. The server is represented by what its replies decide. */
module DashboardState {
  import opened Wrappers
  import opened CivilDate
  import opened Records
  import opened Numbers
  import Text
  import Keyed
  import TransactionController
  import DashboardStats

  // ---- The month filter ----

  /** The `selectedMonth` choice: "all", or one "<month name> <year>" label, which names
      exactly one (year, month) pair. */
  datatype MonthChoice = AllMonths | MonthOf(year: int, month: int)

  predicate Matches(sel: MonthChoice, t: Transaction) {
    sel.AllMonths? || (t.date.year == sel.year && t.date.month == sel.month)
  }

  /** `filteredTransactionsList`: the transactions of the selected month, in list order. */
  function Filtered(txs: seq<Transaction>, sel: MonthChoice): (r: seq<Transaction>)
    ensures |r| <= |txs|
    ensures forall t :: t in r <==> t in txs && Matches(sel, t)
  {
    match sel
    case AllMonths => txs
    case MonthOf(y, m) => FilteredLength(txs, y, m); DashboardStats.MonthTransactions(txs, y, m)
  }

  lemma {:induction false} FilteredLength(txs: seq<Transaction>, y: int, m: int)
    ensures |DashboardStats.MonthTransactions(txs, y, m)| <= |txs|
  {
    if txs != [] {
      FilteredLength(txs[..|txs| - 1], y, m);
    }
  }

  /** The label of a transaction's month. */
  function MonthKey(t: Transaction): (int, int) {
    (t.date.year, t.date.month)
  }

  /** `availableMonths`: the distinct month labels of the transactions, in first-occurrence order. */
  function AvailableMonths(txs: seq<Transaction>): seq<(int, int)> {
    DashboardStats.FirstOccurrences(seq(|txs|, i requires 0 <= i < |txs| => MonthKey(txs[i])))
  }

  /** Every option of the month selector is listed once, names a month that some transaction
      has, and then selects a non-empty list. */
  lemma AvailableMonthsExact(txs: seq<Transaction>)
    ensures var ms := AvailableMonths(txs);
      && (forall i, j :: 0 <= i < j < |ms| ==> ms[i] != ms[j])
      && (forall y, m :: (y, m) in ms <==> exists t :: t in txs && MonthKey(t) == (y, m))
      && (forall y, m :: (y, m) in ms ==> Filtered(txs, MonthOf(y, m)) != [])
  {
    var keys := seq(|txs|, i requires 0 <= i < |txs| => MonthKey(txs[i]));
    DashboardStats.FirstOccurrencesFacts(keys);
    forall y, m ensures (y, m) in keys <==> exists t :: t in txs && MonthKey(t) == (y, m) {
      if (y, m) in keys {
        var i :| 0 <= i < |keys| && keys[i] == (y, m);
        assert txs[i] in txs;
      }
      if exists t :: t in txs && MonthKey(t) == (y, m) {
        var t :| t in txs && MonthKey(t) == (y, m);
        var j :| 0 <= j < |txs| && txs[j] == t;
        assert keys[j] == (y, m);
      }
    }
    forall y, m | (y, m) in keys ensures Filtered(txs, MonthOf(y, m)) != [] {
      var t :| t in txs && MonthKey(t) == (y, m);
      assert t in Filtered(txs, MonthOf(y, m));
    }
  }

  // ---- Pagination ----

  const ItemsPerPage := 5

  /** `Math.ceil(n / itemsPerPage)`. */
  function TotalPages(n: nat): (r: nat)
    ensures r * ItemsPerPage >= n
    ensures r > 0 ==> (r - 1) * ItemsPerPage < n
  {
    (n + ItemsPerPage - 1) / ItemsPerPage
  }

  /** `Array.prototype.slice(start, end)` for non-negative bounds: both are clamped to the
      length, and an end at or before the start gives the empty list. */
  function JsSlice<T>(s: seq<T>, start: nat, end: nat): (r: seq<T>)
    ensures |r| <= |s|
    ensures start < end <= |s| ==> r == s[start..end]
    ensures |s| <= start ==> r == []
  {
    var lo := if start < |s| then start else |s|;
    var hi := if end < |s| then end else |s|;
    if hi <= lo then [] else s[lo..hi]
  }

  /** `paginatedTransactions` for page p: the items from (p-1)*5 up to p*5. */
  function Page<T>(list: seq<T>, p: nat): seq<T>
    requires p >= 1
  {
    JsSlice(list, (p - 1) * ItemsPerPage, p * ItemsPerPage)
  }

  /** Item i of the list is item i % 5 of page i / 5 + 1, and that page exists; a page holds
      at most 5 items, and pages past the last are empty. */
  lemma PagePositions<T>(list: seq<T>, i: nat, p: nat)
    requires p >= 1
    ensures |Page(list, p)| <= ItemsPerPage
    ensures p > TotalPages(|list|) ==> Page(list, p) == []
    ensures i < |list| ==> (
      && i / ItemsPerPage + 1 <= TotalPages(|list|)
      && i % ItemsPerPage < |Page(list, i / ItemsPerPage + 1)|
      && Page(list, i / ItemsPerPage + 1)[i % ItemsPerPage] == list[i])
  {
    if i < |list| {
      var q := i / ItemsPerPage + 1;
      var lo, hi := (q - 1) * ItemsPerPage, q * ItemsPerPage;
      assert lo <= i < hi;
      assert Page(list, q) == list[lo..Min(hi, |list|)];
    }
  }

  /** Pages 1 to k laid end to end. */
  function Pages<T>(list: seq<T>, k: nat): seq<T> {
    if k == 0 then [] else Pages(list, k - 1) + Page(list, k)
  }

  lemma {:induction false} PagesPrefix<T>(list: seq<T>, k: nat)
    ensures Pages(list, k) == list[..Min(k * ItemsPerPage, |list|)]
  {
    if k > 0 {
      PagesPrefix(list, k - 1);
      var lo, hi := (k - 1) * ItemsPerPage, k * ItemsPerPage;
      if lo < |list| {
        assert list[..lo] + list[lo..Min(hi, |list|)] == list[..Min(hi, |list|)];
      }
    }
  }

  /** Paging through 1..totalPages shows the filtered list exactly once, in order. */
  lemma PagesConcatenate<T>(list: seq<T>)
    ensures Pages(list, TotalPages(|list|)) == list
  {
    PagesPrefix(list, TotalPages(|list|));
  }

  /** The "previous" button: `Math.max(1, p - 1)`. */
  function PageBefore(p: int): (r: int)
    ensures r >= 1
    ensures p > 1 ==> r == p - 1
    ensures p <= 1 ==> r == 1
  {
    Max(1, p - 1)
  }

  /** The "next" button: `Math.min(totalPages, p + 1)`; from a page past the last (the list
      shrank under it) it jumps back to the last page. */
  function PageAfter(p: int, total: int): (r: int)
    ensures r <= total
    ensures p < total ==> r == p + 1
    ensures p >= total ==> r == total
  {
    Min(total, p + 1)
  }

  // ---- The category list ----

  /** `categories.filter((_, i) => i !== index)`. */
  function DropIndex<T>(s: seq<T>, index: int): seq<T>
    decreases |s|
  {
    if s == [] then []
    else (if index == 0 then [] else [s[0]]) + DropIndex(s[1..], index - 1)
  }

  /** Deleting removes only the entry at the index and keeps the rest in order; an index
      outside the list changes nothing. */
  lemma {:induction false} DropIndexExact<T>(s: seq<T>, index: int)
    ensures 0 <= index < |s| ==> DropIndex(s, index) == s[..index] + s[index + 1..]
    ensures !(0 <= index < |s|) ==> DropIndex(s, index) == s
    decreases |s|
  {
    if s != [] {
      DropIndexExact(s[1..], index - 1);
      if index == 0 {
        assert s[..0] + s[1..] == s[1..];
      } else if 0 < index < |s| {
        assert [s[0]] + (s[1..][..index - 1] + s[1..][index..]) == s[..index] + s[index + 1..];
      } else {
        assert [s[0]] + s[1..] == s;
      }
    }
  }

  /** `updated[index] = value`: a write inside the list replaces that entry, a write just
      past the end appends. */
  function WriteAt<T>(s: seq<T>, index: nat, value: T): (r: seq<T>)
    requires index <= |s|
    ensures |r| == if index < |s| then |s| else |s| + 1
    ensures r[index] == value
    ensures forall i :: 0 <= i < |s| && i != index ==> r[i] == s[i]
  {
    if index < |s| then s[index := value] else s + [value]
  }

  /** The category being renamed: its position and the text typed so far. */
  datatype Edit = Edit(index: nat, value: string)

  // ---- The transaction form ----

  /** `formData`. The amount is what `parseFloat` makes of the typed text (None for NaN);
      the date is None while the date field is empty. */
  datatype Form = Form(name: string, amount: Option<int>, category: string, kind: Kind, date: Option<Date>)

  /** `handleSubmit` returns early: the amount is NaN or the category or the date is empty. */
  predicate SubmitRefused(f: Form) {
    f.amount.None? || f.category == [] || f.date.None?
  }

  /** The amount sent for a typed amount a: `-Math.abs(a)` for an expense, `Math.abs(a)` for income. */
  function SignedAmount(kind: Kind, a: int): (r: int)
    ensures Abs(r) == Abs(a)
    ensures kind == Expense ==> r <= 0
    ensures kind == Income ==> r >= 0
  {
    if kind == Expense then -(Abs(a) as int) else Abs(a)
  }

  /** The JSON body POSTed by the form; an empty name is sent as "Untitled". */
  function RequestBody(f: Form): (b: TransactionController.TransactionBody)
    requires !SubmitRefused(f)
    ensures b.name.Some? && b.name.value != []
    ensures f.name != [] ==> b.name == Some(f.name)
    ensures b.amount == Some(SignedAmount(f.kind, f.amount.value))
    ensures b.category == Some(f.category) && b.kind == Some(KindName(f.kind)) && b.date == f.date
  {
    TransactionController.TransactionBody(
      Some(if f.name == [] then "Untitled" else f.name),
      Some(SignedAmount(f.kind, f.amount.value)),
      Some(f.category), Some(KindName(f.kind)), f.date)
  }

  /** A form the client lets through is refused by the server exactly when its amount is 0;
      otherwise it passes every schema check and is stored with the sign of its kind. */
  lemma SubmitMeetsServer(f: Form, user: UserId)
    requires !SubmitRefused(f)
    ensures TransactionController.MissingRequired(RequestBody(f)) <==> f.amount.value == 0
    ensures f.amount.value != 0 ==>
      TransactionErrors(TransactionController.DraftOf(user, RequestBody(f))) == {}
  {
    var b := RequestBody(f);
    assert |KindName(f.kind)| > 0 by {
      match f.kind
      case Income =>
      case Expense =>
    }
    if f.amount.value != 0 {
      TransactionController.GuardLeavesOnlyEnum(user, b);
      KindNameParses(f.kind);
    }
  }

  lemma KindNameParses(k: Kind)
    ensures ParseKind(KindName(k)) == Some(k)
  {
    match k
    case Income =>
    case Expense =>
  }

  /** A stored submission moves the totals by its magnitude: an income raises the income,
      an expense the expenses, each by |a|. */
  lemma SubmissionMovesTotals(f: Form, t: Transaction, txs: seq<Transaction>)
    requires !SubmitRefused(f) && t.kind == f.kind && t.amount == SignedAmount(f.kind, f.amount.value)
    ensures f.kind == Income ==>
      DashboardStats.TotalIncome([t] + txs) == DashboardStats.TotalIncome(txs) + Abs(f.amount.value)
    ensures f.kind == Expense ==>
      DashboardStats.TotalExpenses([t] + txs) == DashboardStats.TotalExpenses(txs) + Abs(f.amount.value)
  {
    DashboardStats.TotalAppend([t], txs, DashboardStats.IncomeColumn);
    DashboardStats.TotalAppend([t], txs, DashboardStats.ExpenseColumn);
    assert [t][..0] == [];
  }

  // ---- The page component ----

  class Dashboard {
    var categories: seq<string>
    var transactions: seq<Transaction>
    var newCategory: string
    var editing: Option<Edit>
    var form: Form
    var currentPage: int
    var selectedMonth: MonthChoice

    predicate Valid()
      reads this
    {
      currentPage >= 1
    }

    /** The list shown under the filter. */
    function Listed(): seq<Transaction>
      reads this
    {
      Filtered(transactions, selectedMonth)
    }

    /** `paginatedTransactions`. */
    function Visible(): (r: seq<Transaction>)
      reads this
      requires Valid()
      ensures |r| <= ItemsPerPage
      ensures forall t :: t in r ==> t in transactions && Matches(selectedMonth, t)
    {
      var r := Page(Listed(), currentPage);
      PagePositions(Listed(), 0, currentPage);
      assert forall t :: t in r ==> t in Listed();
      r
    }

    /** The initial state: nothing loaded, page 1, all months, an expense form dated today. */
    constructor (today: Date)
      ensures Valid()
      ensures categories == [] && transactions == [] && newCategory == [] && editing.None?
      ensures form == Form([], None, [], Expense, Some(today))
      ensures currentPage == 1 && selectedMonth == AllMonths
    {
      categories, transactions, newCategory, editing := [], [], [], None;
      form := Form([], None, [], Expense, Some(today));
      currentPage, selectedMonth := 1, AllMonths;
    }

    /** The data fetched on mount. When the user request fails (`userOk` false) the page
        redirects to the login page and fetches nothing more, so the state is left as it was;
        otherwise the categories become the user's own (`|| []`), and the transactions the
        fetched list when that second request succeeded. */
    method Load(userOk: bool, userCategories: Option<seq<string>>, fetched: Option<seq<Transaction>>)
      requires Valid()
      modifies this
      ensures Valid()
      ensures !userOk ==> categories == old(categories) && transactions == old(transactions)
      ensures userOk ==> categories == (if userCategories.Some? then userCategories.value else [])
      ensures userOk ==> transactions == (if fetched.Some? then fetched.value else old(transactions))
      ensures newCategory == old(newCategory) && editing == old(editing) && form == old(form)
      ensures currentPage == old(currentPage) && selectedMonth == old(selectedMonth)
    {
      if !userOk {
        return;
      }
      categories := if userCategories.Some? then userCategories.value else [];
      if fetched.Some? {
        transactions := fetched.value;
      }
    }

    /** `handleAddCategory`: a non-blank input is appended trimmed once the PUT went out
        (`delivered`), and the input box is cleared; a blank input changes nothing. */
    method AddCategory(delivered: bool)
      requires Valid()
      modifies this
      ensures Valid()
      ensures Text.IsBlank(old(newCategory)) ==> categories == old(categories) && newCategory == old(newCategory)
      ensures !Text.IsBlank(old(newCategory)) ==> (
        && newCategory == []
        && categories == old(categories) + (if delivered then [Text.Trim(old(newCategory))] else []))
      ensures !Text.IsBlank(old(newCategory)) && delivered ==>
        var c := categories[|categories| - 1]; c != [] && !Text.IsSpace(c[0]) && !Text.IsSpace(c[|c| - 1])
      ensures transactions == old(transactions) && editing == old(editing) && form == old(form)
      ensures currentPage == old(currentPage) && selectedMonth == old(selectedMonth)
    {
      Text.TrimEmptyIffBlank(newCategory);
      var trimmed := Text.Trim(newCategory);
      if trimmed != [] {
        if delivered {
          categories := categories + [trimmed];
        }
        newCategory := [];
      }
    }

    /** `handleDeleteCategory(index)`: once the PUT went out the entry at the index is
        removed and the others keep their order. */
    method DeleteCategory(index: int, delivered: bool)
      requires Valid()
      modifies this
      ensures Valid()
      ensures delivered && 0 <= index < |old(categories)| ==>
        categories == old(categories)[..index] + old(categories)[index + 1..]
      ensures !delivered || !(0 <= index < |old(categories)|) ==> categories == old(categories)
      ensures transactions == old(transactions) && newCategory == old(newCategory) && editing == old(editing)
      ensures form == old(form) && currentPage == old(currentPage) && selectedMonth == old(selectedMonth)
    {
      DropIndexExact(categories, index);
      if delivered {
        categories := DropIndex(categories, index);
      }
    }

    /** `startEditing(index, value)`. */
    method StartEditing(index: nat, value: string)
      requires Valid()
      modifies this
      ensures Valid()
      ensures editing == Some(Edit(index, value))
      ensures categories == old(categories) && transactions == old(transactions) && newCategory == old(newCategory)
      ensures form == old(form) && currentPage == old(currentPage) && selectedMonth == old(selectedMonth)
    {
      editing := Some(Edit(index, value));
    }

    /** Typing in the edit box replaces the edited text. */
    method TypeEdit(value: string)
      requires Valid() && editing.Some?
      modifies this
      ensures Valid()
      ensures editing == Some(old(editing).value.(value := value))
      ensures categories == old(categories) && transactions == old(transactions) && newCategory == old(newCategory)
      ensures form == old(form) && currentPage == old(currentPage) && selectedMonth == old(selectedMonth)
    {
      editing := Some(editing.value.(value := value));
    }

    /** The cancel button of an edit. */
    method CancelEdit()
      requires Valid()
      modifies this
      ensures Valid()
      ensures editing.None?
      ensures categories == old(categories) && transactions == old(transactions) && newCategory == old(newCategory)
      ensures form == old(form) && currentPage == old(currentPage) && selectedMonth == old(selectedMonth)
    {
      editing := None;
    }

    /** `saveCategoryEdit`: a non-blank edit writes its trimmed text at its index once the
        PUT went out and closes the edit; no edit or a blank one changes nothing. An index
        left one past the end by deletions made meanwhile appends. */
    method SaveCategoryEdit(delivered: bool)
      requires Valid()
      requires editing.Some? && !Text.IsBlank(editing.value.value) ==> editing.value.index <= |categories|
      modifies this
      ensures Valid()
      ensures old(editing).None? || Text.IsBlank(old(editing).value.value) ==>
        categories == old(categories) && editing == old(editing)
      ensures old(editing).Some? && !Text.IsBlank(old(editing).value.value) ==> (
        && editing.None?
        && categories == (if delivered then WriteAt(old(categories), old(editing).value.index, Text.Trim(old(editing).value.value)) else old(categories)))
      ensures transactions == old(transactions) && newCategory == old(newCategory)
      ensures form == old(form) && currentPage == old(currentPage) && selectedMonth == old(selectedMonth)
    {
      if editing.Some? {
        Text.TrimEmptyIffBlank(editing.value.value);
        var trimmed := Text.Trim(editing.value.value);
        if trimmed != [] {
          if delivered {
            categories := WriteAt(categories, editing.value.index, trimmed);
          }
          editing := None;
        }
      }
    }

    /** `handleSubmit`. A refused form changes nothing. Otherwise `stored` is the server's
        reply: when the POST succeeded the returned transaction is put first and the name and
        amount are cleared, keeping category, type and date. */
    method Submit(stored: Option<Transaction>)
      requires Valid()
      modifies this
      ensures Valid()
      ensures SubmitRefused(old(form)) || stored.None? ==>
        transactions == old(transactions) && form == old(form)
      ensures !SubmitRefused(old(form)) && stored.Some? ==>
        transactions == [stored.value] + old(transactions) && form == old(form).(name := [], amount := None)
      ensures categories == old(categories) && newCategory == old(newCategory) && editing == old(editing)
      ensures currentPage == old(currentPage) && selectedMonth == old(selectedMonth)
    {
      if SubmitRefused(form) {
        return;
      }
      if stored.Some? {
        transactions := [stored.value] + transactions;
        form := form.(name := [], amount := None);
      }
    }

    /** `handleDeleteTransaction(id)`: once the DELETE request completed, whatever its
        status, every transaction with that id leaves the list and the rest keep their order. */
    method DeleteTransaction(id: Id, completed: bool)
      requires Valid()
      modifies this
      ensures Valid()
      ensures !completed ==> transactions == old(transactions)
      ensures completed ==> transactions == Keyed.Without(old(transactions), TransactionId, id)
      ensures completed ==> forall i :: 0 <= i < |transactions| ==> transactions[i] in old(transactions) && transactions[i].id != id
      ensures completed ==> forall i :: 0 <= i < |old(transactions)| && old(transactions)[i].id != id ==> old(transactions)[i] in transactions
      ensures categories == old(categories) && newCategory == old(newCategory) && editing == old(editing)
      ensures form == old(form) && currentPage == old(currentPage) && selectedMonth == old(selectedMonth)
    {
      if completed {
        Keyed.WithoutMembers(transactions, TransactionId, id);
        transactions := Keyed.Without(transactions, TransactionId, id);
      }
    }

    /** Choosing a month in the selector filters the list and goes back to page 1. */
    method SelectMonth(sel: MonthChoice)
      requires Valid()
      modifies this
      ensures Valid()
      ensures selectedMonth == sel && currentPage == 1
      ensures Visible() == Page(Filtered(transactions, sel), 1)
      ensures categories == old(categories) && transactions == old(transactions) && newCategory == old(newCategory)
      ensures editing == old(editing) && form == old(form)
    {
      selectedMonth, currentPage := sel, 1;
    }

    /** The "previous" button; the pagination controls exist only with more than one page. */
    method PreviousPage()
      requires Valid() && TotalPages(|Listed()|) > 1
      modifies this
      ensures Valid()
      ensures currentPage == PageBefore(old(currentPage))
      ensures categories == old(categories) && transactions == old(transactions) && newCategory == old(newCategory)
      ensures editing == old(editing) && form == old(form) && selectedMonth == old(selectedMonth)
    {
      currentPage := PageBefore(currentPage);
    }

    /** The "next" button; it never leaves [1, totalPages]. */
    method NextPage()
      requires Valid() && TotalPages(|Listed()|) > 1
      modifies this
      ensures Valid()
      ensures currentPage == PageAfter(old(currentPage), TotalPages(|Listed()|))
      ensures 1 <= currentPage <= TotalPages(|Listed()|)
      ensures categories == old(categories) && transactions == old(transactions) && newCategory == old(newCategory)
      ensures editing == old(editing) && form == old(form) && selectedMonth == old(selectedMonth)
    {
      currentPage := PageAfter(currentPage, TotalPages(|Listed()|));
    }
  }
}
