/** processRecurringTransactions (backend/src/utils/recurringProcessor.js): for one user,
    every active rule whose nextDueDate has arrived emits one transaction dated at that
    due date and has its nextDueDate advanced by exactly one period. */
module RecurringProcessor {
  import opened Wrappers
  import opened CivilDate
  import opened Records
  import opened Db

  /** The `find` filter: the user's active rules with `nextDueDate <= now`. */
  predicate IsDue(r: Rule, user: UserId, now: Date) {
    r.user == user && r.isActive && Le(r.nextDueDate, now)
  }

  /** The due date one period after d, by `setDate`, `setMonth` or `setFullYear`. */
  function NextDueDate(d: Date, f: Frequency): (r: Date)
    ensures r.time == d.time && 0 <= r.month < 12
  {
    match f
    case Daily => AddDays(d, 1)
    case Weekly => AddDays(d, 7)
    case Monthly => AddMonths(d, 1)
    case Yearly => AddYears(d, 1)
  }

  /** Each advance is exactly one period: one day, seven days, the length of the current
      month, or 365 or 366 days, so the new due date is strictly later. */
  lemma NextDueDateIsOnePeriod(d: Date, f: Frequency)
    requires 0 <= d.month < 12
    ensures f == Daily ==> DayNumber(NextDueDate(d, f)) == DayNumber(d) + 1
    ensures f == Weekly ==> DayNumber(NextDueDate(d, f)) == DayNumber(d) + 7
    ensures f == Monthly ==> DayNumber(NextDueDate(d, f)) == DayNumber(d) + DaysInMonth(d.year, d.month)
    ensures f == Yearly ==> 365 <= DayNumber(NextDueDate(d, f)) - DayNumber(d) <= 366
    ensures Lt(d, NextDueDate(d, f))
    ensures 0 <= d.time < MsPerDay ==> ValidDate(NextDueDate(d, f))
  {
    match f
    case Daily => AddDaysLength(d, 1);
    case Weekly => AddDaysLength(d, 7);
    case Monthly => AddOneMonthLength(d);
    case Yearly => AddOneYearLength(d);
  }

  /** The object pushed onto `newTransactions` for a due rule; its id is assigned on insert. */
  function EmissionOf(r: Rule, user: UserId): Transaction {
    Transaction(0, user, Some(r.name), r.amount, r.category, r.kind, r.nextDueDate)
  }

  function Advance(r: Rule): Rule {
    r.(nextDueDate := NextDueDate(r.nextDueDate, r.frequency))
  }

  /** What one run does to one stored rule. */
  function Step(r: Rule, user: UserId, now: Date): Rule {
    if IsDue(r, user, now) then Advance(r) else r
  }

  function Processed(rules: seq<Rule>, user: UserId, now: Date): (r: seq<Rule>)
    ensures |r| == |rules|
  {
    seq(|rules|, i requires 0 <= i < |rules| => Step(rules[i], user, now))
  }

  /** The rules the query returns, in store order. */
  function DueRules(rules: seq<Rule>, user: UserId, now: Date): seq<Rule> {
    if rules == [] then []
    else
      var last := rules[|rules| - 1];
      DueRules(rules[..|rules| - 1], user, now) + (if IsDue(last, user, now) then [last] else [])
  }

  /** The `newTransactions` array after the loop. */
  function Emitted(rules: seq<Rule>, user: UserId, now: Date): seq<Transaction> {
    if rules == [] then []
    else
      var last := rules[|rules| - 1];
      Emitted(rules[..|rules| - 1], user, now) + (if IsDue(last, user, now) then [EmissionOf(last, user)] else [])
  }

  /** One run over the store: rules are replaced by their stepped versions, and the emitted
      transactions are inserted after the existing ones under fresh ids. */
  method ProcessRecurring(db: Store, user: UserId, now: Date)
    requires db.Valid()
    modifies db
    ensures db.Valid()
    ensures db.rules == Processed(old(db.rules), user, now)
    ensures db.transactions == old(db.transactions) + WithIds(Emitted(old(db.rules), user, now), old(db.nextId))
    ensures db.nextId == old(db.nextId) + |Emitted(old(db.rules), user, now)|
  {
    var newTransactions := AdvanceDueRules(db, user, now);
    if |newTransactions| > 0 {
      db.InsertTransactions(newTransactions);
    }
  }

  /** The loop over the found rules: each due rule's emission is collected and the rule is
      saved with its due date advanced. */
  method AdvanceDueRules(db: Store, user: UserId, now: Date) returns (newTransactions: seq<Transaction>)
    requires db.Valid()
    modifies db
    ensures db.Valid()
    ensures db.rules == Processed(old(db.rules), user, now)
    ensures newTransactions == Emitted(old(db.rules), user, now)
    ensures db.transactions == old(db.transactions) && db.nextId == old(db.nextId)
  {
    ghost var rules0 := db.rules;
    newTransactions := [];
    var i := 0;
    while i < |db.rules|
      invariant 0 <= i <= |db.rules| == |rules0|
      invariant db.Valid()
      invariant forall k :: 0 <= k < i ==> db.rules[k] == Step(rules0[k], user, now)
      invariant forall k :: i <= k < |rules0| ==> db.rules[k] == rules0[k]
      invariant newTransactions == Emitted(rules0[..i], user, now)
      invariant db.transactions == old(db.transactions) && db.nextId == old(db.nextId)
    {
      var rule := db.rules[i];
      EmittedExtend(rules0, i, user, now);
      if IsDue(rule, user, now) {
        newTransactions := newTransactions + [EmissionOf(rule, user)];
        db.SaveRule(i, Advance(rule));
        assert db.rules[i] == Step(rules0[i], user, now);
      } else {
        assert db.rules[i] == Step(rules0[i], user, now);
      }
      i := i + 1;
    }
    assert rules0[..i] == rules0;
    assert db.rules == Processed(rules0, user, now);
  }

  lemma EmittedExtend(rules: seq<Rule>, i: nat, user: UserId, now: Date)
    requires i < |rules|
    ensures Emitted(rules[..i + 1], user, now) == Emitted(rules[..i], user, now)
      + (if IsDue(rules[i], user, now) then [EmissionOf(rules[i], user)] else [])
  {
    assert rules[..i + 1][..i] == rules[..i];
  }

  /** The emitted transactions are the due rules' emissions, one each, in store order. */
  lemma {:induction false} EmittedAreDueRules(rules: seq<Rule>, user: UserId, now: Date)
    ensures |Emitted(rules, user, now)| == |DueRules(rules, user, now)|
    ensures forall k :: 0 <= k < |Emitted(rules, user, now)| ==>
      Emitted(rules, user, now)[k] == EmissionOf(DueRules(rules, user, now)[k], user)
  {
    if rules != [] {
      EmittedAreDueRules(rules[..|rules| - 1], user, now);
    }
  }

  /** The query returns exactly the due rules of the store. */
  lemma {:induction false} DueRulesExact(rules: seq<Rule>, user: UserId, now: Date)
    ensures forall r :: r in DueRules(rules, user, now) <==> r in rules && IsDue(r, user, now)
  {
    if rules != [] {
      var init := rules[..|rules| - 1];
      DueRulesExact(init, user, now);
      assert rules == init + [rules[|rules| - 1]];
    }
  }

  /** Each emitted transaction copies a due rule's name, amount, category and type, belongs to
      the user and is dated at the rule's due date before the advance; that rule's stored
      due date moves strictly later. */
  lemma EmissionContents(rules: seq<Rule>, user: UserId, now: Date, k: nat)
    requires k < |DueRules(rules, user, now)|
    requires forall i :: 0 <= i < |rules| ==> ValidDate(rules[i].nextDueDate)
    ensures |Emitted(rules, user, now)| == |DueRules(rules, user, now)|
    ensures var t, r := Emitted(rules, user, now)[k], DueRules(rules, user, now)[k];
      && r in rules && IsDue(r, user, now)
      && t.user == user && t.name == Some(r.name) && t.amount == r.amount
      && t.category == r.category && t.kind == r.kind && t.date == r.nextDueDate
      && Le(t.date, now) && Lt(t.date, Advance(r).nextDueDate)
  {
    EmittedAreDueRules(rules, user, now);
    DueRulesExact(rules, user, now);
    var r := DueRules(rules, user, now)[k];
    assert r in DueRules(rules, user, now);
    NextDueDateIsOnePeriod(r.nextDueDate, r.frequency);
  }

  /** Rules of other users, inactive rules and rules not yet due are left exactly as they
      were; a due rule changes only in its nextDueDate. */
  lemma ProcessedChangesOnlyDue(rules: seq<Rule>, user: UserId, now: Date, i: nat)
    requires i < |rules|
    ensures !IsDue(rules[i], user, now) ==> Processed(rules, user, now)[i] == rules[i]
    ensures IsDue(rules[i], user, now) ==>
      Processed(rules, user, now)[i] == rules[i].(nextDueDate := NextDueDate(rules[i].nextDueDate, rules[i].frequency))
  {
  }

  /** When nothing is due, a run inserts nothing and changes no rule. */
  lemma {:induction false} NothingDueIsNoop(rules: seq<Rule>, user: UserId, now: Date)
    requires forall i :: 0 <= i < |rules| ==> !IsDue(rules[i], user, now)
    ensures Emitted(rules, user, now) == []
    ensures Processed(rules, user, now) == rules
  {
    if rules != [] {
      NothingDueIsNoop(rules[..|rules| - 1], user, now);
    }
  }

  /** The due date after k single-period advances. */
  function AdvanceBy(d: Date, f: Frequency, k: nat): Date
    decreases k
  {
    if k == 0 then d else AdvanceBy(NextDueDate(d, f), f, k - 1)
  }

  /** The due dates one rule emits over a sequence of runs at the given times. */
  function EmissionDates(r: Rule, user: UserId, nows: seq<Date>): seq<Date>
    decreases |nows|
  {
    if nows == [] then []
    else (if IsDue(r, user, nows[0]) then [r.nextDueDate] else [])
         + EmissionDates(Step(r, user, nows[0]), user, nows[1..])
  }

  /** A run emits at most one transaction per rule, however overdue the rule is. */
  lemma SingleStep(r: Rule, user: UserId, now: Date)
    ensures |EmissionDates(r, user, [now])| == (if IsDue(r, user, now) then 1 else 0)
    ensures IsDue(r, user, now) ==> Step(r, user, now).nextDueDate == NextDueDate(r.nextDueDate, r.frequency)
  {
    assert EmissionDates(Step(r, user, now), user, [now][1..]) == [];
  }

  /** A second run at the same time emits again exactly when the advanced date is still due. */
  lemma RunAgainSameTime(r: Rule, user: UserId, now: Date)
    requires IsDue(r, user, now)
    ensures IsDue(Step(r, user, now), user, now) <==> Le(NextDueDate(r.nextDueDate, r.frequency), now)
  {
  }

  /** Across any sequence of runs, the dates one rule emits strictly increase and never
      precede its current due date: no period is emitted twice. */
  lemma {:induction false} EmissionDatesIncrease(r: Rule, user: UserId, nows: seq<Date>)
    requires 0 <= r.nextDueDate.month < 12
    ensures forall i :: 0 <= i < |EmissionDates(r, user, nows)| ==> Le(r.nextDueDate, EmissionDates(r, user, nows)[i])
    ensures forall i, j :: 0 <= i < j < |EmissionDates(r, user, nows)| ==>
      Lt(EmissionDates(r, user, nows)[i], EmissionDates(r, user, nows)[j])
    decreases |nows|
  {
    if nows != [] {
      var r' := Step(r, user, nows[0]);
      EmissionDatesIncrease(r', user, nows[1..]);
      NextDueDateIsOnePeriod(r.nextDueDate, r.frequency);
      assert Le(r.nextDueDate, r'.nextDueDate);
    }
  }

  function Repeat(now: Date, k: nat): (s: seq<Date>)
    ensures |s| == k && forall i :: 0 <= i < k ==> s[i] == now
  {
    seq(k, _ => now)
  }

  lemma {:induction false} AdvanceByMonotone(d: Date, f: Frequency, i: nat, j: nat)
    requires 0 <= d.month < 12 && i <= j
    ensures 0 <= AdvanceBy(d, f, j).month < 12
    ensures Le(AdvanceBy(d, f, i), AdvanceBy(d, f, j))
    decreases j
  {
    if j > 0 {
      var d' := NextDueDate(d, f);
      NextDueDateIsOnePeriod(d, f);
      AdvanceByMonotone(d', f, if i == 0 then 0 else i - 1, j - 1);
    }
  }

  /** The k consecutive due dates starting at d. */
  function Schedule(d: Date, f: Frequency, k: nat): (s: seq<Date>)
    ensures |s| == k
    decreases k
  {
    if k == 0 then [] else [d] + Schedule(NextDueDate(d, f), f, k - 1)
  }

  /** The i-th scheduled date is the date i periods after the first. */
  lemma {:induction false} ScheduleAt(d: Date, f: Frequency, k: nat, i: nat)
    requires i < k
    ensures Schedule(d, f, k)[i] == AdvanceBy(d, f, i)
    decreases k
  {
    if i > 0 {
      ScheduleAt(NextDueDate(d, f), f, k - 1, i - 1);
    }
  }

  /** Catching up takes one run per elapsed period: if k periods have elapsed for an active
      rule (its k-th due date is not after now), k runs at the same time emit exactly k
      transactions, at the k consecutive due dates. */
  lemma {:induction false} CatchUpTakesKRuns(r: Rule, user: UserId, now: Date, k: nat)
    requires r.user == user && r.isActive && 0 <= r.nextDueDate.month < 12
    requires k > 0 ==> Le(AdvanceBy(r.nextDueDate, r.frequency, k - 1), now)
    ensures EmissionDates(r, user, Repeat(now, k)) == Schedule(r.nextDueDate, r.frequency, k)
    decreases k
  {
    if k > 0 {
      AdvanceByMonotone(r.nextDueDate, r.frequency, 0, k - 1);
      assert IsDue(r, user, now);
      var r' := Step(r, user, now);
      assert r'.nextDueDate == NextDueDate(r.nextDueDate, r.frequency);
      if k >= 2 {
        assert AdvanceBy(r'.nextDueDate, r.frequency, k - 2) == AdvanceBy(r.nextDueDate, r.frequency, k - 1);
      }
      CatchUpTakesKRuns(r', user, now, k - 1);
      assert Repeat(now, k)[1..] == Repeat(now, k - 1);
    }
  }

  /** A monthly rule due on 31 January next falls due on 3 March, or on 2 March in a leap
      year: the days February lacks overflow into March. */
  lemma MonthlyOverflowsShortMonth(y: int, t: int)
    requires 0 <= t < MsPerDay
    ensures NextDueDate(Date(y, 0, 31, t), Monthly) == Date(y, 2, if IsLeapYear(y) then 2 else 3, t)
  {
    AddOneMonthExact(Date(y, 0, 31, t));
  }

  /** A yearly rule due on 29 February next falls due on 1 March of the following year. */
  lemma YearlyLeapDayOverflows(y: int, t: int)
    requires IsLeapYear(y) && 0 <= t < MsPerDay
    ensures NextDueDate(Date(y, 1, 29, t), Yearly) == Date(y + 1, 2, 1, t)
  {
    AddOneYearExact(Date(y, 1, 29, t));
  }

  /** A monthly schedule on a day every month has (at most 28) keeps that day for good: each
      advance lands on the same day of the next month. */
  lemma {:induction false} MonthlyDayKept(d: Date, k: nat)
    requires ValidDate(d) && d.day <= 28
    ensures ValidDate(AdvanceBy(d, Monthly, k)) && AdvanceBy(d, Monthly, k).day == d.day
    decreases k
  {
    if k > 0 {
      AddOneMonthExact(d);
      MonthlyDayKept(NextDueDate(d, Monthly), k - 1);
    }
  }

  /** The shifted day is kept by all the advances that follow: a rule moved to 3 March by the
      overflow stays on the 3rd, first moving to 3 April, then on every later month. */
  lemma MonthlyDriftPersists(y: int, t: int, k: nat)
    requires 0 <= t < MsPerDay
    ensures NextDueDate(Date(y, 2, 3, t), Monthly) == Date(y, 3, 3, t)
    ensures AdvanceBy(Date(y, 2, 3, t), Monthly, k).day == 3
  {
    AddOneMonthExact(Date(y, 2, 3, t));
    MonthlyDayKept(Date(y, 2, 3, t), k);
  }
}
