/** Sequences of documents addressed by id: `findById` and `deleteOne` over an in-memory
    collection. */
module Keyed {
  import opened Wrappers

  predicate DistinctKeys<T>(s: seq<T>, key: T -> nat) {
    forall i, j :: 0 <= i < j < |s| ==> key(s[i]) != key(s[j])
  }

  /** The documents `find({ user })` matches: those whose owner is user, in collection order. */
  function Owned<T(!new)>(s: seq<T>, owner: T -> nat, user: nat): (r: seq<T>)
    ensures |r| <= |s|
    ensures forall x :: x in r <==> x in s && owner(x) == user
  {
    if s == [] then []
    else (if owner(s[0]) == user then [s[0]] else []) + Owned(s[1..], owner, user)
  }

  /** Position of the first document with id k. */
  function IndexOf<T>(s: seq<T>, key: T -> nat, k: nat): (r: Option<nat>)
    ensures r.Some? ==> r.value < |s| && key(s[r.value]) == k
    ensures r.Some? ==> forall i :: 0 <= i < r.value ==> key(s[i]) != k
    ensures r.None? <==> forall i :: 0 <= i < |s| ==> key(s[i]) != k
  {
    if s == [] then None
    else if key(s[0]) == k then Some(0)
    else match IndexOf(s[1..], key, k)
      case None => None
      case Some(i) => Some(i + 1)
  }

  /** The collection after deleting every document with id k, others kept in order. */
  function Without<T>(s: seq<T>, key: T -> nat, k: nat): (r: seq<T>)
    ensures |r| <= |s|
  {
    if s == [] then []
    else if key(s[0]) == k then Without(s[1..], key, k)
    else [s[0]] + Without(s[1..], key, k)
  }

  /** Exactly the documents whose id is not k are kept. */
  lemma {:induction false} WithoutMembers<T>(s: seq<T>, key: T -> nat, k: nat)
    ensures forall i :: 0 <= i < |Without(s, key, k)| ==> Without(s, key, k)[i] in s && key(Without(s, key, k)[i]) != k
    ensures forall i :: 0 <= i < |s| && key(s[i]) != k ==> s[i] in Without(s, key, k)
  {
    if s != [] {
      WithoutMembers(s[1..], key, k);
      assert s == [s[0]] + s[1..];
    }
  }

  /** With distinct ids, deleting the id found at position i removes exactly that document. */
  lemma {:induction false} WithoutAt<T>(s: seq<T>, key: T -> nat, i: nat)
    requires DistinctKeys(s, key) && i < |s|
    ensures Without(s, key, key(s[i])) == s[..i] + s[i + 1..]
  {
    if i == 0 {
      WithoutAbsent(s[1..], key, key(s[0]));
      assert s[..0] + s[1..] == s[1..];
    } else {
      assert DistinctKeys(s[1..], key);
      WithoutAt(s[1..], key, i - 1);
      assert key(s[0]) != key(s[i]);
      assert s[1..][i - 1] == s[i];
      assert [s[0]] + (s[1..][..i - 1] + s[1..][i..]) == s[..i] + s[i + 1..];
    }
  }

  lemma {:induction false} WithoutAbsent<T>(s: seq<T>, key: T -> nat, k: nat)
    requires forall i :: 0 <= i < |s| ==> key(s[i]) != k
    ensures Without(s, key, k) == s
  {
    if s != [] {
      WithoutAbsent(s[1..], key, k);
    }
  }

  /** Deleting keeps ids distinct. */
  lemma {:induction false} WithoutDistinct<T>(s: seq<T>, key: T -> nat, k: nat)
    requires DistinctKeys(s, key)
    ensures DistinctKeys(Without(s, key, k), key)
  {
    if s != [] {
      WithoutDistinct(s[1..], key, k);
      if key(s[0]) != k {
        var w := Without(s[1..], key, k);
        HeadKeyFresh(s, key, k);
        forall i, j | 0 <= i < j < |[s[0]] + w| ensures key(([s[0]] + w)[i]) != key(([s[0]] + w)[j]) {
          assert ([s[0]] + w)[j] == w[j - 1];
          if i > 0 {
            assert ([s[0]] + w)[i] == w[i - 1];
          }
        }
      }
    }
  }

  /** With distinct ids, no document kept from the tail shares the head's id. */
  lemma HeadKeyFresh<T>(s: seq<T>, key: T -> nat, k: nat)
    requires DistinctKeys(s, key) && s != []
    ensures forall i :: 0 <= i < |Without(s[1..], key, k)| ==> key(Without(s[1..], key, k)[i]) != key(s[0])
  {
    var w := Without(s[1..], key, k);
    WithoutMembers(s[1..], key, k);
    forall i | 0 <= i < |w| ensures key(w[i]) != key(s[0]) {
      var m :| 0 <= m < |s[1..]| && s[1..][m] == w[i];
      assert s[m + 1] == w[i];
    }
  }
}
