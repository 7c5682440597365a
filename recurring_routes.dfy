/** The recurring-rule routes (backend/src/routes/recurring.js): list (process first),
    create (then process) and delete, as operations on the store for an authenticated user. */
module RecurringRoutes {
  import opened Wrappers
  import opened CivilDate
  import opened Records
  import opened Db
  import opened RecurringProcessor
  import opened Http
  import Keyed

  lemma ProcessedTail(rules: seq<Rule>, user: UserId, now: Date)
    requires rules != []
    ensures Processed(rules, user, now) == [Step(rules[0], user, now)] + Processed(rules[1..], user, now)
  {
  }

  /** Listing after processing returns the processed versions of exactly the rules the user
      had: processing neither adds, removes nor reorders the user's rules. */
  lemma {:induction false} ListAfterProcess(rules: seq<Rule>, user: UserId, now: Date)
    ensures Keyed.Owned(Processed(rules, user, now), RuleUser, user) == Processed(Keyed.Owned(rules, RuleUser, user), user, now)
  {
    if rules != [] {
      ProcessedTail(rules, user, now);
      assert Processed(rules, user, now)[1..] == Processed(rules[1..], user, now);
      ListAfterProcess(rules[1..], user, now);
      if rules[0].user == user {
        ProcessedTail(Keyed.Owned(rules, RuleUser, user), user, now);
      }
    }
  }

  /** GET /: runs the processor for the user, then returns all of the user's rules. */
  method ListRules(db: Store, user: UserId, now: Date) returns (rs: seq<Rule>)
    requires db.Valid()
    modifies db
    ensures db.Valid()
    ensures db.rules == Processed(old(db.rules), user, now)
    ensures db.transactions == old(db.transactions) + WithIds(Emitted(old(db.rules), user, now), old(db.nextId))
    ensures db.nextId == old(db.nextId) + |Emitted(old(db.rules), user, now)|
    ensures rs == Processed(Keyed.Owned(old(db.rules), RuleUser, user), user, now)
  {
    ProcessRecurring(db, user, now);
    rs := Keyed.Owned(db.rules, RuleUser, user);
    ListAfterProcess(old(db.rules), user, now);
  }

  /** The fields of a POST / body; `startDate` is None when it is absent or empty. */
  datatype RuleBody = RuleBody(
    name: Option<string>, amount: Option<int>, category: Option<string>,
    kind: Option<string>, frequency: Option<string>, startDate: Option<Date>)

  /** The supplied start date, or now. */
  function StartOf(body: RuleBody, now: Date): Date {
    if body.startDate.Some? then body.startDate.value else now
  }

  /** The document handed to `create`: the requester as owner and the due date at the start. */
  function CreateDraft(user: UserId, body: RuleBody, now: Date): (d: RuleDraft)
    ensures d.user == Some(user) && d.isActive.None?
    ensures d.startDate == Some(StartOf(body, now)) && d.nextDueDate == d.startDate
    ensures d.name == body.name && d.amount == body.amount && d.category == body.category
    ensures d.kind == body.kind && d.frequency == body.frequency
  {
    var start := StartOf(body, now);
    RuleDraft(Some(user), body.name, body.amount, body.category, body.kind, body.frequency,
              Some(start), Some(start), None)
  }

  /** A new rule always starts active, owned by the requester, due at its start date. */
  lemma CreatedRuleShape(id: Id, user: UserId, body: RuleBody, now: Date)
    requires NewRule(id, CreateDraft(user, body, now), now).Ok?
    ensures var q := NewRule(id, CreateDraft(user, body, now), now).value;
      q.user == user && q.isActive && q.startDate == StartOf(body, now) && q.nextDueDate == q.startDate
  {
  }

  /** Appending a rule and processing: the rules already stored are processed as before, the
      new rule is stepped, and its emission (if due) comes after the others'. */
  lemma AppendThenProcess(rules: seq<Rule>, q: Rule, user: UserId, now: Date)
    ensures Processed(rules + [q], user, now) == Processed(rules, user, now) + [Step(q, user, now)]
    ensures Emitted(rules + [q], user, now)
      == Emitted(rules, user, now) + (if IsDue(q, user, now) then [EmissionOf(q, user)] else [])
  {
    assert (rules + [q])[..|rules|] == rules;
  }

  /** POST /: validation errors give 400 and change nothing; otherwise the rule is stored, the
      processor runs for the user, and the rule as created (before processing) is returned. */
  method CreateRule(db: Store, user: UserId, body: RuleBody, now: Date) returns (status: Status, rule: Option<Rule>)
    requires db.Valid()
    modifies db
    ensures db.Valid()
    ensures status == BadRequest400 || status == Created201
    ensures status == BadRequest400 <==> RuleErrors(CreateDraft(user, body, now)) != {}
    ensures status == BadRequest400 ==>
      rule.None? && db.rules == old(db.rules) && db.transactions == old(db.transactions) && db.nextId == old(db.nextId)
    ensures status == Created201 ==> rule.Some? && rule.value == NewRule(old(db.nextId), CreateDraft(user, body, now), now).value
    ensures status == Created201 ==>
      db.rules == Processed(old(db.rules), user, now) + [Step(rule.value, user, now)]
      && db.transactions == old(db.transactions) + WithIds(Emitted(old(db.rules) + [rule.value], user, now), old(db.nextId) + 1)
    ensures status == Created201 && Le(StartOf(body, now), now) ==>
      |db.transactions| > 0 && db.nextId > 0 && db.transactions[|db.transactions| - 1] == EmissionOf(rule.value, user).(id := db.nextId - 1)
      && db.rules[|db.rules| - 1] == Advance(rule.value)
    ensures status == Created201 && !Le(StartOf(body, now), now) ==>
      db.transactions == old(db.transactions) + WithIds(Emitted(old(db.rules), user, now), old(db.nextId) + 1)
      && db.rules[|db.rules| - 1] == rule.value
  {
    var res := db.CreateRule(CreateDraft(user, body, now), now);
    if res.Err? {
      return BadRequest400, None;
    }
    var q := res.value;
    CreatedRuleShape(old(db.nextId), user, body, now);
    ghost var rules0, txs0, n0 := db.rules[..|db.rules| - 1], db.transactions, db.nextId - 1;
    assert rules0 == old(db.rules) && rules0 + [q] == db.rules;
    ProcessRecurring(db, user, now);
    ProcessAfterCreate(rules0, txs0, n0, q, user, now, db.rules, db.transactions, db.nextId);
    status, rule := Created201, Some(q);
  }

  /** The store after appending q under id n0 and processing: the old rules are processed as
      before and q is stepped last; when q is due its emission is the newest transaction and
      takes the last id, otherwise only the old rules emit. */
  lemma ProcessAfterCreate(rules0: seq<Rule>, txs0: seq<Transaction>, n0: nat, q: Rule, user: UserId, now: Date,
                           rules1: seq<Rule>, txs1: seq<Transaction>, n1: nat)
    requires rules1 == Processed(rules0 + [q], user, now)
    requires txs1 == txs0 + WithIds(Emitted(rules0 + [q], user, now), n0 + 1)
    requires n1 == n0 + 1 + |Emitted(rules0 + [q], user, now)|
    ensures rules1 == Processed(rules0, user, now) + [Step(q, user, now)]
    ensures IsDue(q, user, now) ==>
      |txs1| > 0 && n1 > 0 && txs1[|txs1| - 1] == EmissionOf(q, user).(id := n1 - 1) && rules1[|rules1| - 1] == Advance(q)
    ensures !IsDue(q, user, now) ==>
      txs1 == txs0 + WithIds(Emitted(rules0, user, now), n0 + 1) && rules1[|rules1| - 1] == q
  {
    AppendThenProcess(rules0, q, user, now);
    var e := Emitted(rules0, user, now);
    if IsDue(q, user, now) {
      assert WithIds(e + [EmissionOf(q, user)], n0 + 1)[|e|] == EmissionOf(q, user).(id := n0 + 1 + |e|);
    }
  }

  /** DELETE /:id: 404 when no rule has the id, 401 when it belongs to someone else (both
      change nothing); otherwise exactly that rule is removed. */
  method DeleteRule(db: Store, user: UserId, id: Id) returns (status: Status)
    requires db.Valid()
    modifies db
    ensures db.Valid()
    ensures db.transactions == old(db.transactions) && db.nextId == old(db.nextId)
    ensures status in {Ok200, NotFound404, Unauthorized401}
    ensures status == NotFound404 <==> forall i :: 0 <= i < |old(db.rules)| ==> old(db.rules)[i].id != id
    ensures status == Unauthorized401 <==>
      exists i :: 0 <= i < |old(db.rules)| && old(db.rules)[i].id == id && old(db.rules)[i].user != user
    ensures status != Ok200 ==> db.rules == old(db.rules)
    ensures status == Ok200 ==>
      exists k :: 0 <= k < |old(db.rules)| && old(db.rules)[k].id == id
        && old(db.rules)[k].user == user && db.rules == old(db.rules)[..k] + old(db.rules)[k + 1..]
  {
    var found := db.FindRule(id);
    if found.None? {
      return NotFound404;
    }
    var k := found.value;
    if db.rules[k].user != user {
      assert forall i :: 0 <= i < |db.rules| && db.rules[i].id == id ==> i == k;
      return Unauthorized401;
    }
    assert forall i :: 0 <= i < |db.rules| && db.rules[i].id == id ==> i == k;
    Keyed.WithoutAt(db.rules, RuleId, k);
    db.DeleteRule(id);
    status := Ok200;
  }
}
