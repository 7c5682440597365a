/** The two persisted record types and their schema validation: a transaction
    (backend/src/models/Transaction.js) and a recurring rule
    (backend/src/models/RecurringTransaction.js). */
module Records {
  import opened Wrappers
  import opened CivilDate
  import Text

  /** A document id (a Mongo ObjectId); ids are handed out by the store. */
  type Id = nat
  type UserId = nat

  datatype Kind = Income | Expense
  datatype Frequency = Daily | Weekly | Monthly | Yearly

  function KindName(k: Kind): string {
    match k
    case Income => "income"
    case Expense => "expense"
  }

  function FrequencyName(f: Frequency): string {
    match f
    case Daily => "daily"
    case Weekly => "weekly"
    case Monthly => "monthly"
    case Yearly => "yearly"
  }

  /** The `enum: ['income', 'expense']` check: inverse of KindName on its range. */
  function ParseKind(s: string): (r: Option<Kind>)
    ensures r.Some? ==> KindName(r.value) == s
    ensures r.None? ==> s != KindName(Income) && s != KindName(Expense)
  {
    if s == "income" then Some(Income) else if s == "expense" then Some(Expense) else None
  }

  /** The `enum: ['daily', 'weekly', 'monthly', 'yearly']` check: inverse of FrequencyName. */
  function ParseFrequency(s: string): (r: Option<Frequency>)
    ensures r.Some? ==> FrequencyName(r.value) == s
    ensures r.None? ==> forall f: Frequency :: FrequencyName(f) != s
  {
    if s == "daily" then Some(Daily) else if s == "weekly" then Some(Weekly)
    else if s == "monthly" then Some(Monthly) else if s == "yearly" then Some(Yearly)
    else None
  }

  /** A stored transaction. `name` is optional and has no schema default; `amount` is a
      signed number whose sign the schema does not tie to `kind`. */
  datatype Transaction = Transaction(
    id: Id, user: UserId, name: Option<string>, amount: int,
    category: string, kind: Kind, date: Date)

  /** A stored recurring rule. */
  datatype Rule = Rule(
    id: Id, user: UserId, name: string, amount: int, category: string, kind: Kind,
    frequency: Frequency, startDate: Date, nextDueDate: Date, isActive: bool)

  function TransactionId(t: Transaction): Id { t.id }
  function RuleId(r: Rule): Id { r.id }
  function TransactionUser(t: Transaction): UserId { t.user }
  function RuleUser(r: Rule): UserId { r.user }

  /** The schema paths a validation error can name. */
  datatype Field = UserField | AmountField | CategoryField | KindField | FrequencyField
                 | NextDueDateField | DateField

  /** Mongoose's `required` check on a String path: present and not empty. */
  predicate HasString(s: Option<string>) {
    s.Some? && |s.value| > 0
  }

  /** A String path with an enum: an absent value passes the enum check (only `required`
      rejects it), a present one must be a listed value. */
  predicate KindOk(s: Option<string>) {
    HasString(s) && ParseKind(s.value).Some?
  }

  predicate FrequencyOk(s: Option<string>) {
    HasString(s) && ParseFrequency(s.value).Some?
  }

  /** The fields handed to `Transaction.create` / `insertMany`; absent ones are None. */
  datatype TransactionDraft = TransactionDraft(
    user: Option<UserId>, name: Option<string>, amount: Option<int>,
    category: Option<string>, kind: Option<string>, date: Option<Date>)

  /** The paths of a transaction draft that fail validation. */
  function TransactionErrors(d: TransactionDraft): (e: set<Field>)
    ensures e == {} <==> d.user.Some? && d.amount.Some? && HasString(d.category) && KindOk(d.kind) && d.date.Some?
  {
    (if d.user.None? then {UserField} else {})
    + (if d.amount.None? then {AmountField} else {})
    + (if !HasString(d.category) then {CategoryField} else {})
    + (if !KindOk(d.kind) then {KindField} else {})
    + (if d.date.None? then {DateField} else {})
  }

  /** Validation and construction of a transaction document with the given id. A valid draft
      becomes a record holding exactly its fields; `name` stays absent when not given. */
  function NewTransaction(id: Id, d: TransactionDraft): (r: Result<Transaction, set<Field>>)
    ensures r.Err? <==> TransactionErrors(d) != {}
    ensures r.Err? ==> r.error == TransactionErrors(d)
    ensures r.Ok? ==> var t := r.value;
      t.id == id && Some(t.user) == d.user && t.name == d.name && Some(t.amount) == d.amount
      && Some(t.category) == d.category && Some(KindName(t.kind)) == d.kind && Some(t.date) == d.date
  {
    if TransactionErrors(d) != {} then Err(TransactionErrors(d))
    else Ok(Transaction(id, d.user.value, d.name, d.amount.value, d.category.value,
                        ParseKind(d.kind.value).value, d.date.value))
  }

  /** The fields handed to `RecurringTransaction.create`; absent ones are None. */
  datatype RuleDraft = RuleDraft(
    user: Option<UserId>, name: Option<string>, amount: Option<int>, category: Option<string>,
    kind: Option<string>, frequency: Option<string>, startDate: Option<Date>,
    nextDueDate: Option<Date>, isActive: Option<bool>)

  const DefaultRuleName: string := "Recurring Transaction"

  /** The paths of a rule draft that fail validation; `name`, `startDate` and `isActive`
      have defaults and never fail. */
  function RuleErrors(d: RuleDraft): (e: set<Field>)
    ensures e == {} <==> d.user.Some? && d.amount.Some? && HasString(d.category)
                         && KindOk(d.kind) && FrequencyOk(d.frequency) && d.nextDueDate.Some?
  {
    (if d.user.None? then {UserField} else {})
    + (if d.amount.None? then {AmountField} else {})
    + (if !HasString(d.category) then {CategoryField} else {})
    + (if !KindOk(d.kind) then {KindField} else {})
    + (if !FrequencyOk(d.frequency) then {FrequencyField} else {})
    + (if d.nextDueDate.None? then {NextDueDateField} else {})
  }

  /** Validation and construction of a rule document with the given id, applying the schema
      defaults: name "Recurring Transaction" when absent and trimmed when given, isActive true,
      startDate now. */
  function NewRule(id: Id, d: RuleDraft, now: Date): (r: Result<Rule, set<Field>>)
    ensures r.Err? <==> RuleErrors(d) != {}
    ensures r.Err? ==> r.error == RuleErrors(d)
    ensures r.Ok? ==> var q := r.value;
      q.id == id && Some(q.user) == d.user && Some(q.amount) == d.amount
      && Some(q.category) == d.category && Some(KindName(q.kind)) == d.kind
      && Some(FrequencyName(q.frequency)) == d.frequency && Some(q.nextDueDate) == d.nextDueDate
      && q.name == (if d.name.Some? then Text.Trim(d.name.value) else DefaultRuleName)
      && q.isActive == (d.isActive != Some(false))
      && q.startDate == (if d.startDate.Some? then d.startDate.value else now)
  {
    if RuleErrors(d) != {} then Err(RuleErrors(d))
    else
      Ok(Rule(id, d.user.value,
              if d.name.Some? then Text.Trim(d.name.value) else DefaultRuleName,
              d.amount.value, d.category.value, ParseKind(d.kind.value).value,
              ParseFrequency(d.frequency.value).value,
              if d.startDate.Some? then d.startDate.value else now,
              d.nextDueDate.value,
              if d.isActive.Some? then d.isActive.value else true))
  }

  /** The category list a new user starts with (backend/src/models/User.js). */
  const DefaultCategories: seq<string> :=
    ["Food", "Transport", "Entertainment", "Bills", "Shopping", "Healthcare", "Education", "Other"]
}
