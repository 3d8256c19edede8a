/**
 sort.Slice on a list that is sorted by a string key: the order of the indices.

 The list itself is put in this order afterwards, so that one sort serves lists of any type.
 */
module Sorting {
  import opened Strings

  predicate Distinct(s: seq<string>)
  {
    forall i, j :: 0 <= i < j < |s| ==> s[i] != s[j]
  }

  /** order holds the first n indices once each. */
  ghost predicate Permutes(n: nat, order: seq<nat>)
  {
    && |order| == n
    && (forall i :: 0 <= i < n ==> order[i] < n)
    && (forall k: nat :: k < n ==> k in order)
    && (forall i, j :: 0 <= i < j < n ==> order[i] != order[j])
  }

  /** The keys ascend along order. */
  ghost predicate IsOrder(keys: seq<string>, n: nat, order: seq<nat>)
  {
    && n <= |keys| && Permutes(n, order)
    && (forall i, j :: 0 <= i < j < n ==> !Less(keys[order[j]], keys[order[i]]))
  }

  method Order(keys: seq<string>) returns (order: seq<nat>)
    ensures IsOrder(keys, |keys|, order)
  {
    order := [];
    for n := 0 to |keys|
      invariant IsOrder(keys, n, order)
    {
      order := InsertKey(keys, n, order);
    }
  }

  method InsertKey(keys: seq<string>, n: nat, order: seq<nat>) returns (r: seq<nat>)
    requires n < |keys| && IsOrder(keys, n, order)
    ensures IsOrder(keys, n + 1, r)
  {
    var k := 0;
    while k < n && !Less(keys[n], keys[order[k]])
      invariant 0 <= k <= n
      invariant forall i :: 0 <= i < k ==> !Less(keys[n], keys[order[i]])
    {
      k := k + 1;
    }
    r := order[..k] + [n] + order[k..];
    InsertedInOrder(keys, n, order, k, r);
  }

  lemma {:induction false} InsertedPermutes(n: nat, order: seq<nat>, k: nat, r: seq<nat>)
    requires Permutes(n, order) && k <= n && r == order[..k] + [n] + order[k..]
    ensures Permutes(n + 1, r)
  {
    forall x: nat | x < n + 1 ensures x in r {
      assert x in order || x == n;
      assert order == order[..k] + order[k..];
    }
  }

  lemma {:induction false} InsertedInOrder(keys: seq<string>, n: nat, order: seq<nat>, k: nat, r: seq<nat>)
    requires n < |keys| && IsOrder(keys, n, order) && k <= n
    requires forall i :: 0 <= i < k ==> !Less(keys[n], keys[order[i]])
    requires k < n ==> Less(keys[n], keys[order[k]])
    requires r == order[..k] + [n] + order[k..]
    ensures IsOrder(keys, n + 1, r)
  {
    InsertedPermutes(n, order, k, r);
    forall i, j | 0 <= i < j < n + 1 ensures !Less(keys[r[j]], keys[r[i]]) {
      if i == k {
        NotBefore(keys, n, order, k, j - 1);
        assert r[j] == order[j - 1] && r[i] == n;
      } else if j == k {
        assert r[j] == n && r[i] == order[i];
      } else {
        assert r[i] == order[if i < k then i else i - 1] && r[j] == order[if j < k then j else j - 1];
      }
    }
  }

  lemma {:induction false} NotBefore(keys: seq<string>, n: nat, order: seq<nat>, k: nat, j: nat)
    requires n < |keys| && IsOrder(keys, n, order) && k <= j < n && Less(keys[n], keys[order[k]])
    ensures !Less(keys[order[j]], keys[n])
  {
    assert k < j ==> !Less(keys[order[j]], keys[order[k]]);
    LessIrreflexive(keys[order[j]]);
    if Less(keys[order[j]], keys[n]) {
      LessTransitive(keys[order[j]], keys[n], keys[order[k]]);
    }
  }

  function Picked(keys: seq<string>, order: seq<nat>): (r: seq<string>)
    requires forall i :: 0 <= i < |order| ==> order[i] < |keys|
    ensures |r| == |order| && forall i :: 0 <= i < |r| ==> r[i] == keys[order[i]]
  {
    seq(|order|, i requires 0 <= i < |order| => keys[order[i]])
  }

  /** Distinct keys end up in strictly ascending order. */
  lemma {:induction false} PickedAscend(keys: seq<string>, order: seq<nat>)
    requires IsOrder(keys, |keys|, order) && Distinct(keys)
    ensures Ascend(Picked(keys, order))
  {
    forall i, j | 0 <= i < j < |keys| ensures Less(keys[order[i]], keys[order[j]]) {
      LessTotal(keys[order[i]], keys[order[j]]);
      assert order[i] != order[j];
    }
  }
}
