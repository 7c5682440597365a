/** The two Mongoose collections the backend uses, held in memory: recurring rules and
    transactions, each a sequence of documents in insertion order, and the id generator
    that gives each new document a fresh id. */
module Db {
  import opened Wrappers
  import opened CivilDate
  import opened Records
  import Keyed

  /** The documents `insertMany` stores for `docs`, in order: each keeps its fields and gets
      the next fresh id, so the new ids are distinct and fill [first, first + |docs|). */
  function WithIds(docs: seq<Transaction>, first: Id): (r: seq<Transaction>)
    ensures |r| == |docs|
    ensures forall i :: 0 <= i < |r| ==> r[i].(id := docs[i].id) == docs[i]
    ensures forall i :: 0 <= i < |r| ==> r[i].id == first + i
    ensures forall i, j :: 0 <= i < j < |r| ==> r[i].id < r[j].id
    ensures forall i :: 0 <= i < |r| ==> first <= r[i].id < first + |docs|
  {
    seq(|docs|, i requires 0 <= i < |docs| => docs[i].(id := first + i))
  }

  class Store {
    var rules: seq<Rule>
    var transactions: seq<Transaction>
    var nextId: nat

    /** Every stored id was handed out by the generator, and ids are unique. */
    ghost predicate Valid()
      reads this
    {
      (forall i :: 0 <= i < |rules| ==> rules[i].id < nextId)
      && (forall i :: 0 <= i < |transactions| ==> transactions[i].id < nextId)
      && Keyed.DistinctKeys(rules, RuleId)
      && Keyed.DistinctKeys(transactions, TransactionId)
    }

    constructor ()
      ensures Valid() && rules == [] && transactions == []
    {
      rules, transactions, nextId := [], [], 0;
    }

    /** `RecurringTransaction.findById(id)`. */
    function FindRule(id: Id): (r: Option<nat>)
      reads this
      ensures r.Some? ==> r.value < |rules| && rules[r.value].id == id
      ensures r.None? <==> forall i :: 0 <= i < |rules| ==> rules[i].id != id
    {
      Keyed.IndexOf(rules, RuleId, id)
    }

    /** `Transaction.findById(id)`. */
    function FindTransaction(id: Id): (r: Option<nat>)
      reads this
      ensures r.Some? ==> r.value < |transactions| && transactions[r.value].id == id
      ensures r.None? <==> forall i :: 0 <= i < |transactions| ==> transactions[i].id != id
    {
      Keyed.IndexOf(transactions, TransactionId, id)
    }

    /** `RecurringTransaction.create(fields)`: validates, then appends under a fresh id. */
    method CreateRule(d: RuleDraft, now: Date) returns (res: Result<Rule, set<Field>>)
      requires Valid()
      modifies this
      ensures Valid()
      ensures res == NewRule(old(nextId), d, now)
      ensures res.Ok? ==> rules == old(rules) + [res.value] && nextId == old(nextId) + 1
      ensures res.Err? ==> rules == old(rules) && nextId == old(nextId)
      ensures transactions == old(transactions)
    {
      res := NewRule(nextId, d, now);
      if res.Ok? {
        rules := rules + [res.value];
        nextId := nextId + 1;
      }
    }

    /** `Transaction.create(fields)`: validates, then appends under a fresh id. */
    method CreateTransaction(d: TransactionDraft) returns (res: Result<Transaction, set<Field>>)
      requires Valid()
      modifies this
      ensures Valid()
      ensures res == NewTransaction(old(nextId), d)
      ensures res.Ok? ==> transactions == old(transactions) + [res.value] && nextId == old(nextId) + 1
      ensures res.Err? ==> transactions == old(transactions) && nextId == old(nextId)
      ensures rules == old(rules)
    {
      res := NewTransaction(nextId, d);
      if res.Ok? {
        transactions := transactions + [res.value];
        nextId := nextId + 1;
      }
    }

    /** `Transaction.insertMany(docs)` for documents built from stored records. */
    method InsertTransactions(docs: seq<Transaction>)
      requires Valid()
      modifies this
      ensures Valid()
      ensures transactions == old(transactions) + WithIds(docs, old(nextId))
      ensures nextId == old(nextId) + |docs|
      ensures rules == old(rules)
    {
      var added := WithIds(docs, nextId);
      transactions := transactions + added;
      nextId := nextId + |docs|;
    }

    /** `rule.save()` for the rule stored at position i. */
    method SaveRule(i: nat, r: Rule)
      requires Valid() && i < |rules| && r.id == rules[i].id
      modifies this
      ensures Valid()
      ensures rules == old(rules)[i := r]
      ensures transactions == old(transactions) && nextId == old(nextId)
    {
      rules := rules[i := r];
    }

    /** `rule.deleteOne()`. */
    method DeleteRule(id: Id)
      requires Valid()
      modifies this
      ensures Valid()
      ensures rules == Keyed.Without(old(rules), RuleId, id)
      ensures transactions == old(transactions) && nextId == old(nextId)
    {
      rules := Keyed.Without(rules, RuleId, id);
      Keyed.WithoutDistinct(old(rules), RuleId, id);
      Keyed.WithoutMembers(old(rules), RuleId, id);
      forall i | 0 <= i < |rules| ensures rules[i].id < nextId {
        assert rules[i] in old(rules);
      }
    }

    /** `transaction.deleteOne()`. */
    method DeleteTransaction(id: Id)
      requires Valid()
      modifies this
      ensures Valid()
      ensures transactions == Keyed.Without(old(transactions), TransactionId, id)
      ensures rules == old(rules) && nextId == old(nextId)
    {
      transactions := Keyed.Without(transactions, TransactionId, id);
      Keyed.WithoutDistinct(old(transactions), TransactionId, id);
      Keyed.WithoutMembers(old(transactions), TransactionId, id);
      forall i | 0 <= i < |transactions| ensures transactions[i].id < nextId {
        assert transactions[i] in old(transactions);
      }
    }
  }
}
