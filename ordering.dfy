/** Ordering query results by a timestamp, as the store's `sort` does: an
    insertion sort of document ids by a key each id maps to. */
module Ordering {
  import opened Base

  /** Every id of `s` has a key. */
  predicate Keyed(s: seq<Id>, key: map<Id, int>) {
    forall i :: 0 <= i < |s| ==> s[i] in key
  }

  /** `s` is in ascending key order. */
  predicate SortedBy(s: seq<Id>, key: map<Id, int>)
    requires Keyed(s, key)
  {
    forall i, j :: 0 <= i < j < |s| ==> key[s[i]] <= key[s[j]]
  }

  /** Places `x` before the first element whose key is not smaller. */
  function Insert(x: Id, s: seq<Id>, key: map<Id, int>): (r: seq<Id>)
    requires x in key && Keyed(s, key)
    ensures Keyed(r, key) && |r| == |s| + 1
  {
    if s == [] || key[x] <= key[s[0]] then [x] + s
    else [s[0]] + Insert(x, s[1..], key)
  }

  /** Inserting adds `x` and loses nothing. */
  lemma {:induction false} InsertPermutes(x: Id, s: seq<Id>, key: map<Id, int>)
    requires x in key && Keyed(s, key)
    ensures multiset(Insert(x, s, key)) == multiset(s) + multiset{x}
  {
    if s != [] && key[x] > key[s[0]] {
      InsertPermutes(x, s[1..], key);
      assert s == [s[0]] + s[1..];
    }
  }

  /** Inserting into a sorted sequence keeps it sorted. */
  lemma {:induction false} InsertSorted(x: Id, s: seq<Id>, key: map<Id, int>)
    requires x in key && Keyed(s, key) && SortedBy(s, key)
    ensures SortedBy(Insert(x, s, key), key)
  {
    if s != [] && key[x] > key[s[0]] {
      var t := Insert(x, s[1..], key);
      InsertSorted(x, s[1..], key);
      InsertPermutes(x, s[1..], key);
      assert s == [s[0]] + s[1..];
      forall k | 0 <= k < |t| ensures key[s[0]] <= key[t[k]] {
        assert t[k] in multiset(s[1..]) + multiset{x};
        if t[k] in multiset(s[1..]) {
          var m :| 0 <= m < |s[1..]| && s[1..][m] == t[k];
          assert s[m + 1] == t[k];
        }
      }
    }
  }

  /** The ids of `s` in ascending key order (`SortBySorted`, `SortByPermutes`);
      ids with equal keys keep the order they have in `s` (`SortSorted`). */
  function SortBy(s: seq<Id>, key: map<Id, int>): (r: seq<Id>)
    requires Keyed(s, key)
    ensures Keyed(r, key) && |r| == |s|
  {
    if s == [] then []
    else Insert(s[0], SortBy(s[1..], key), key)
  }

  /** Sorting rearranges the ids and nothing more. */
  lemma {:induction false} SortByPermutes(s: seq<Id>, key: map<Id, int>)
    requires Keyed(s, key)
    ensures multiset(SortBy(s, key)) == multiset(s)
  {
    if s != [] {
      SortByPermutes(s[1..], key);
      InsertPermutes(s[0], SortBy(s[1..], key), key);
      assert s == [s[0]] + s[1..];
    }
  }

  /** The sorted ids are in ascending key order. */
  lemma {:induction false} SortBySorted(s: seq<Id>, key: map<Id, int>)
    requires Keyed(s, key)
    ensures SortedBy(SortBy(s, key), key)
  {
    if s != [] {
      SortBySorted(s[1..], key);
      InsertSorted(s[0], SortBy(s[1..], key), key);
    }
  }

  /** Sorting does not change which ids are present. */
  lemma SortByElements(s: seq<Id>, key: map<Id, int>)
    requires Keyed(s, key)
    ensures Elements(SortBy(s, key)) == Elements(s)
  {
    var r := SortBy(s, key);
    SortByPermutes(s, key);
    forall x ensures x in r <==> x in s {
      assert x in r <==> x in multiset(r);
      assert x in s <==> x in multiset(s);
    }
  }

  /** A sequence already in order is left as it is, so sorting is idempotent
      and equal keys keep their order. */
  lemma {:induction false} SortSorted(s: seq<Id>, key: map<Id, int>)
    requires Keyed(s, key) && SortedBy(s, key)
    ensures SortBy(s, key) == s
  {
    if s != [] {
      SortSorted(s[1..], key);
      assert SortBy(s[1..], key) == s[1..];
      assert s == [s[0]] + s[1..];
    }
  }

  lemma SortIdempotent(s: seq<Id>, key: map<Id, int>)
    requires Keyed(s, key)
    ensures SortBy(SortBy(s, key), key) == SortBy(s, key)
  {
    SortBySorted(s, key);
    SortSorted(SortBy(s, key), key);
  }

  /** Keys negated: sorting by these puts the largest original key first. */
  function Negated(key: map<Id, int>): (r: map<Id, int>)
    ensures r.Keys == key.Keys
    ensures forall k :: k in r ==> r[k] == -key[k]
  {
    map k | k in key :: -key[k]
  }

  /** `sort({ createdAt: -1 })`: newest first. */
  lemma NewestFirst(s: seq<Id>, key: map<Id, int>)
    requires Keyed(s, key)
    ensures Keyed(SortBy(s, Negated(key)), key)
    ensures var r := SortBy(s, Negated(key));
      forall i, j :: 0 <= i < j < |r| ==> key[r[i]] >= key[r[j]]
  {
    var r := SortBy(s, Negated(key));
    SortBySorted(s, Negated(key));
    assert forall i :: 0 <= i < |r| ==> r[i] in key;
  }
}
