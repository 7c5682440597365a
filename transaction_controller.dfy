/** The transaction handlers (backend/src/controllers/transactionController.js): list the
    requester's transactions newest first, add one after the required-field check, and delete
    one after the existence and ownership checks. */
module TransactionController {
  import opened Wrappers
  import opened CivilDate
  import opened Records
  import opened Db
  import opened Http
  import Keyed

  /** The instant a transaction is dated at, the key of `sort({ date: -1 })`. */
  function DateKey(t: Transaction): int {
    Instant(t.date)
  }

  /** Descending by key. */
  predicate Descending<T>(s: seq<T>, key: T -> int) {
    forall i, j :: 0 <= i < j < |s| ==> key(s[j]) <= key(s[i])
  }

  /** Newest first: each transaction is dated no later than the ones before it. */
  predicate NewestFirst(ts: seq<Transaction>) {
    forall i, j :: 0 <= i < j < |ts| ==> Le(ts[j].date, ts[i].date)
  }

  lemma DescendingIsNewestFirst(ts: seq<Transaction>)
    requires Descending(ts, DateKey)
    ensures NewestFirst(ts)
  {
    forall i, j | 0 <= i < j < |ts| ensures Le(ts[j].date, ts[i].date) {
      assert DateKey(ts[j]) <= DateKey(ts[i]);
    }
  }

  /** Places x before the first element whose key is not greater than its own. */
  function InsertByKey<T>(x: T, s: seq<T>, key: T -> int): (r: seq<T>)
    ensures multiset(r) == multiset(s) + multiset{x}
    ensures Descending(s, key) ==> Descending(r, key)
  {
    if s == [] || key(s[0]) <= key(x) then [x] + s
    else
      var rest := InsertByKey(x, s[1..], key);
      ConsBehind(x, s, rest, key);
      [s[0]] + rest
  }

  /** Putting the head of s back in front of x inserted into the tail: still a permutation,
      and still descending because the head's key is the largest. */
  lemma ConsBehind<T>(x: T, s: seq<T>, rest: seq<T>, key: T -> int)
    requires s != [] && key(x) < key(s[0])
    requires multiset(rest) == multiset(s[1..]) + multiset{x}
    requires Descending(s, key) ==> Descending(rest, key)
    ensures multiset([s[0]] + rest) == multiset(s) + multiset{x}
    ensures Descending(s, key) ==> Descending([s[0]] + rest, key)
  {
    assert s == [s[0]] + s[1..];
    if Descending(s, key) {
      forall i | 0 <= i < |rest| ensures key(rest[i]) <= key(s[0]) {
        assert rest[i] in multiset(rest);
        assert rest[i] in multiset(s[1..]) || rest[i] == x;
      }
      ConsDescending(s[0], rest, key);
    }
  }

  lemma ConsDescending<T>(h: T, rest: seq<T>, key: T -> int)
    requires Descending(rest, key)
    requires forall i :: 0 <= i < |rest| ==> key(rest[i]) <= key(h)
    ensures Descending([h] + rest, key)
  {
    var r := [h] + rest;
    forall i, j | 0 <= i < j < |r| ensures key(r[j]) <= key(r[i]) {
      assert r[j] == rest[j - 1];
      if i > 0 {
        assert r[i] == rest[i - 1];
      }
    }
  }

  /** Insertion sort, largest key first. */
  function SortByKey<T>(s: seq<T>, key: T -> int): (r: seq<T>)
    ensures multiset(r) == multiset(s)
    ensures Descending(r, key)
  {
    if s == [] then []
    else
      assert s == [s[0]] + s[1..];
      InsertByKey(s[0], SortByKey(s[1..], key), key)
  }

  /** GET /api/transactions: exactly the requester's transactions, each as often as stored,
      newest first; the store is not changed. */
  method GetTransactions(db: Store, user: UserId) returns (ts: seq<Transaction>)
    ensures multiset(ts) == multiset(Keyed.Owned(db.transactions, TransactionUser, user))
    ensures forall t :: t in ts <==> t in db.transactions && t.user == user
    ensures NewestFirst(ts)
  {
    ts := SortByKey(Keyed.Owned(db.transactions, TransactionUser, user), DateKey);
    DescendingIsNewestFirst(ts);
    forall t ensures t in ts <==> t in Keyed.Owned(db.transactions, TransactionUser, user) {
      assert t in ts <==> t in multiset(ts);
    }
  }

  /** The fields of a POST body; parsing strings into numbers and dates is not modelled. */
  datatype TransactionBody = TransactionBody(
    name: Option<string>, amount: Option<int>, category: Option<string>,
    kind: Option<string>, date: Option<Date>)

  /** `!amount || !category || !type || !date`: absent, 0 or empty. */
  predicate MissingRequired(b: TransactionBody) {
    b.amount.None? || b.amount == Some(0) || !HasString(b.category) || !HasString(b.kind) || b.date.None?
  }

  /** The document handed to `create`, owned by the requester. */
  function DraftOf(user: UserId, b: TransactionBody): TransactionDraft {
    TransactionDraft(Some(user), b.name, b.amount, b.category, b.kind, b.date)
  }

  /** Past the guard, the only schema check that can still fail is the `type` enum. */
  lemma GuardLeavesOnlyEnum(user: UserId, b: TransactionBody)
    requires !MissingRequired(b)
    ensures TransactionErrors(DraftOf(user, b)) == {} <==> ParseKind(b.kind.value).Some?
    ensures TransactionErrors(DraftOf(user, b)) <= {KindField}
  {
  }

  /** POST /api/transactions: 400 with nothing stored when a required field is falsy; a `type`
      outside the enum makes `create` reject unhandled, storing nothing; otherwise the record
      is stored under a fresh id and returned with 201. */
  method AddTransaction(db: Store, user: UserId, b: TransactionBody) returns (status: Status, t: Option<Transaction>)
    requires db.Valid()
    modifies db
    ensures db.Valid() && db.rules == old(db.rules)
    ensures status == BadRequest400 <==> MissingRequired(b)
    ensures status == Unhandled <==> !MissingRequired(b) && ParseKind(b.kind.value).None?
    ensures status in {BadRequest400, Unhandled, Created201}
    ensures status != Created201 ==>
      t.None? && db.transactions == old(db.transactions) && db.nextId == old(db.nextId)
    ensures status == Created201 ==>
      t.Some? && db.transactions == old(db.transactions) + [t.value]
      && t.value.id == old(db.nextId) && t.value.user == user && t.value.name == b.name
      && Some(t.value.amount) == b.amount && t.value.amount != 0 && Some(t.value.category) == b.category
      && Some(KindName(t.value.kind)) == b.kind && Some(t.value.date) == b.date
  {
    if MissingRequired(b) {
      return BadRequest400, None;
    }
    GuardLeavesOnlyEnum(user, b);
    var res := db.CreateTransaction(DraftOf(user, b));
    if res.Err? {
      return Unhandled, None;
    }
    status, t := Created201, Some(res.value);
  }

  /** An amount of 0 is refused by the guard, whatever the other fields. */
  lemma ZeroAmountRejected(b: TransactionBody)
    requires b.amount == Some(0)
    ensures MissingRequired(b)
  {
  }

  /** DELETE /api/transactions/:id. The id is looked up first (404), then the user is checked
      (401 when there is none, 401 when it is not the owner); stores are unchanged on every
      refusal. Success removes exactly that transaction and echoes the id. */
  method DeleteTransaction(db: Store, user: Option<UserId>, id: Id) returns (status: Status, echoed: Option<Id>)
    requires db.Valid()
    modifies db
    ensures db.Valid()
    ensures db.rules == old(db.rules) && db.nextId == old(db.nextId)
    ensures status in {Ok200, NotFound404, Unauthorized401}
    ensures status == NotFound404 <==> forall i :: 0 <= i < |old(db.transactions)| ==> old(db.transactions)[i].id != id
    ensures status == Unauthorized401 <==>
      exists i :: 0 <= i < |old(db.transactions)| && old(db.transactions)[i].id == id
        && (user.None? || old(db.transactions)[i].user != user.value)
    ensures status != Ok200 ==> db.transactions == old(db.transactions) && echoed.None?
    ensures status == Ok200 ==> echoed == Some(id) && user.Some?
    ensures status == Ok200 ==>
      exists k :: 0 <= k < |old(db.transactions)| && old(db.transactions)[k].id == id
        && old(db.transactions)[k].user == user.value
        && db.transactions == old(db.transactions)[..k] + old(db.transactions)[k + 1..]
  {
    var found := db.FindTransaction(id);
    if found.None? {
      return NotFound404, None;
    }
    var k := found.value;
    assert forall i :: 0 <= i < |db.transactions| && db.transactions[i].id == id ==> i == k;
    if user.None? {
      return Unauthorized401, None;
    }
    if db.transactions[k].user != user.value {
      return Unauthorized401, None;
    }
    Keyed.WithoutAt(db.transactions, TransactionId, k);
    db.DeleteTransaction(id);
    status, echoed := Ok200, Some(id);
  }
}
