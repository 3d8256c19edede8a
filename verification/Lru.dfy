/** The least recently used cache: a map from keys to list elements beside a list in order of recency. */
module Lru {
  import opened Options

  // Keys and values are opaque: nothing but the equality of keys matters.
  type Key = int
  type Value = int

  /** A cache entry; the contents of a cache are its entries, the most recently used one first. */
  datatype Entry = Entry(key: Key, val: Value)

  function Keys(c: seq<Entry>): (r: seq<Key>)
    ensures |r| == |c| && forall i :: 0 <= i < |c| ==> r[i] == c[i].key
  {
    seq(|c|, i requires 0 <= i < |c| => c[i].key)
  }

  ghost predicate NoDuplicates(c: seq<Entry>)
  {
    forall i, j :: 0 <= i < j < |c| ==> c[i].key != c[j].key
  }

  /** The contents without a key. */
  function Without(c: seq<Entry>, k: Key): (r: seq<Entry>)
    ensures |r| <= |c|
  {
    if c == [] then []
    else if c[0].key == k then Without(c[1..], k)
    else [c[0]] + Without(c[1..], k)
  }

  function Lookup(c: seq<Entry>, k: Key): Option<Value>
  {
    if c == [] then None
    else if c[0].key == k then Some(c[0].val)
    else Lookup(c[1..], k)
  }

  datatype Op = Set(key: Key, val: Value) | Get(key: Key) | Delete(key: Key)

  /** The contents after one call on a cache with this limit. */
  function Apply(c: seq<Entry>, limit: nat, op: Op): seq<Entry>
    requires limit > 0
  {
    match op
    case Set(k, v) =>
      if Lookup(c, k).Some? || |c| < limit then [Entry(k, v)] + Without(c, k)
      else [Entry(k, v)] + c[..|c| - 1]
    case Get(k) =>
      (match Lookup(c, k)
       case Some(v) => [Entry(k, v)] + Without(c, k)
       case None => c)
    case Delete(k) => Without(c, k)
  }

  // ----- Facts about contents

  lemma {:induction false} HitMoves(c: seq<Entry>, limit: nat, i: nat)
    requires limit > 0 && i < |c| && Lookup(c, c[i].key) == Some(c[i].val)
    requires Without(c, c[i].key) == c[..i] + c[i + 1..]
    ensures Apply(c, limit, Get(c[i].key)) == [c[i]] + c[..i] + c[i + 1..]
  {
  }

  lemma {:induction false} LookupAt(c: seq<Entry>, i: nat)
    requires NoDuplicates(c) && i < |c|
    ensures Lookup(c, c[i].key) == Some(c[i].val)
  {
    if i > 0 {
      assert c[0].key != c[i].key;
      LookupAt(c[1..], i - 1);
    }
  }

  lemma {:induction false} LookupWhere(c: seq<Entry>, k: Key) returns (i: nat)
    requires Lookup(c, k).Some?
    ensures i < |c| && c[i] == Entry(k, Lookup(c, k).value)
  {
    if c[0].key == k {
      i := 0;
    } else {
      var j := LookupWhere(c[1..], k);
      i := j + 1;
    }
  }

  lemma {:induction false} LookupMiss(c: seq<Entry>, k: Key)
    requires forall i :: 0 <= i < |c| ==> c[i].key != k
    ensures Lookup(c, k) == None && Without(c, k) == c
  {
    if c != [] { LookupMiss(c[1..], k); }
  }

  lemma {:induction false} WithoutAt(c: seq<Entry>, i: nat)
    requires NoDuplicates(c) && i < |c|
    ensures Without(c, c[i].key) == c[..i] + c[i + 1..]
  {
    if i == 0 {
      LookupMiss(c[1..], c[0].key);
    } else {
      assert c[0].key != c[i].key;
      WithoutAt(c[1..], i - 1);
    }
  }

  lemma {:induction false} WithoutFrom(c: seq<Entry>, k: Key, i: nat) returns (j: nat)
    requires i < |Without(c, k)|
    ensures i <= j < |c| && c[j] == Without(c, k)[i] && c[j].key != k
  {
    if c[0].key == k {
      var l := WithoutFrom(c[1..], k, i);
      j := l + 1;
    } else if i == 0 {
      j := 0;
    } else {
      var l := WithoutFrom(c[1..], k, i - 1);
      j := l + 1;
    }
  }

  lemma {:induction false} WithoutKeeps(c: seq<Entry>, k: Key)
    requires NoDuplicates(c)
    ensures NoDuplicates(Without(c, k))
  {
    if c != [] {
      WithoutKeeps(c[1..], k);
      var r := Without(c[1..], k);
      forall i | 0 <= i < |r|
        ensures r[i].key != c[0].key
      {
        var j := WithoutFrom(c[1..], k, i);
      }
    }
  }

  lemma {:induction false} ConsWithout(c: seq<Entry>, k: Key, v: Value)
    requires NoDuplicates(c)
    ensures NoDuplicates([Entry(k, v)] + Without(c, k))
    ensures |Without(c, k)| == |c| - if Lookup(c, k).Some? then 1 else 0
  {
    WithoutKeeps(c, k);
    var r := Without(c, k);
    forall i | 0 <= i < |r|
      ensures r[i].key != k
    {
      var j := WithoutFrom(c, k, i);
    }
    if Lookup(c, k).Some? {
      var i := LookupWhere(c, k);
      WithoutAt(c, i);
    } else {
      MissMeansAbsent(c, k);
      LookupMiss(c, k);
    }
  }

  lemma {:induction false} MissMeansAbsent(c: seq<Entry>, k: Key)
    requires Lookup(c, k) == None
    ensures forall i :: 0 <= i < |c| ==> c[i].key != k
  {
    if c != [] { MissMeansAbsent(c[1..], k); }
  }

  /** Every call keeps the keys distinct and the size within the limit. */
  lemma {:induction false} ApplyKeeps(c: seq<Entry>, limit: nat, op: Op)
    requires limit > 0 && NoDuplicates(c) && |c| <= limit
    ensures NoDuplicates(Apply(c, limit, op)) && |Apply(c, limit, op)| <= limit
  {
    match op
    case Set(k, v) =>
      ConsWithout(c, k, v);
      if Lookup(c, k).None? { MissMeansAbsent(c, k); }
    case Get(k) => if Lookup(c, k).Some? { ConsWithout(c, k, Lookup(c, k).value); }
    case Delete(k) => WithoutKeeps(c, k);
  }

  // ----- The data structure

  /** An element of the linked list; its value can be replaced in place. */
  class Element {
    var item: Entry

    constructor (item: Entry)
      ensures this.item == item
    {
      this.item := item;
    }
  }

  /** The order of the linked list is held as a sequence of its elements. */
  class Cache {
    const limit: nat
    var cache: map<Key, Element>
    var list: seq<Element>

    constructor (limit: nat)
      requires limit > 0
      ensures Valid() && this.limit == limit && Contents() == []
    {
      this.limit := limit;
      cache, list := map[], [];
    }

    /** The map and the list hold the same elements, each filed under the key of its item, and at most limit. */
    ghost predicate Valid()
      reads this, list
    {
      && 0 < limit && |list| <= limit && Apart(list)
      && (forall e :: e in list ==> e.item.key in cache && cache[e.item.key] == e)
      && (forall k :: k in cache ==> cache[k] in list && cache[k].item.key == k)
    }

    ghost predicate Apart(es: seq<Element>)
    {
      forall i, j :: 0 <= i < j < |es| ==> es[i] != es[j]
    }

    ghost function Contents(): (r: seq<Entry>)
      reads this, list
      ensures |r| == |list| && forall i :: 0 <= i < |list| ==> r[i] == list[i].item
    {
      Items(list)
    }

    static ghost function Items(es: seq<Element>): (r: seq<Entry>)
      reads es
      ensures |r| == |es| && forall i :: 0 <= i < |es| ==> r[i] == es[i].item
    {
      seq(|es|, i requires 0 <= i < |es| reads es => es[i].item)
    }

    lemma KeysDiffer()
      requires Valid()
      ensures NoDuplicates(Contents())
      ensures forall k :: k in cache <==> Lookup(Contents(), k).Some?
    {
      forall i, j | 0 <= i < j < |list|
        ensures list[i].item.key != list[j].item.key
      {
        assert list[i] in list && list[j] in list;
      }
      forall k
        ensures k in cache <==> Lookup(Contents(), k).Some?
      {
        if k in cache {
          var i :| 0 <= i < |list| && list[i] == cache[k];
          LookupAt(Contents(), i);
        }
        if Lookup(Contents(), k).Some? {
          var i := LookupWhere(Contents(), k);
          assert list[i] in list;
        }
      }
    }

    /** Where the element of a key stands in the list. */
    method Position(key: Key) returns (i: nat)
      requires Valid() && key in cache
      ensures i < |list| && list[i] == cache[key]
      ensures Without(Contents(), key) == Contents()[..i] + Contents()[i + 1..]
      ensures Lookup(Contents(), key) == Some(cache[key].item.val)
    {
      i :| 0 <= i < |list| && list[i] == cache[key];
      KeysDiffer();
      WithoutAt(Contents(), i);
      LookupAt(Contents(), i);
    }

    method Set(key: Key, val: Value)
      requires Valid()
      modifies this, list
      ensures Valid() && Contents() == Apply(old(Contents()), limit, Op.Set(key, val))
    {
      KeysDiffer();
      if key in cache {
        Update(key, val);
      } else {
        MissMeansAbsent(Contents(), key);
        LookupMiss(Contents(), key);
        Insert(key, val);
      }
    }

    method MoveToFront(i: nat)
      requires Valid() && i < |list|
      modifies this`list
      ensures Valid() && Contents() == [old(Contents())[i]] + old(Contents())[..i] + old(Contents())[i + 1..]
    {
      MovedApart(list, i);
      MovedItems(list, i);
      list := [list[i]] + list[..i] + list[i + 1..];
    }

    lemma MovedItems(es: seq<Element>, i: nat)
      requires i < |es|
      ensures Items([es[i]] + es[..i] + es[i + 1..]) == [Items(es)[i]] + Items(es)[..i] + Items(es)[i + 1..]
    {
    }

    lemma MovedApart(es: seq<Element>, i: nat)
      requires Apart(es) && i < |es|
      ensures var r := [es[i]] + es[..i] + es[i + 1..];
              Apart(r) && forall e :: e in r <==> e in es
    {
      var r := [es[i]] + es[..i] + es[i + 1..];
      assert es == es[..i] + [es[i]] + es[i + 1..];
      assert forall j :: 0 < j < |r| ==> r[j] == es[if j <= i then j - 1 else j];
    }

    method SetValue(e: Element, val: Value, ghost i: nat)
      requires Valid() && i < |list| && list[i] == e
      modifies e
      ensures Valid() && Contents() == old(Contents())[i := Entry(old(e.item.key), val)]
    {
      e.item := Entry(e.item.key, val);
    }

    method Remove(i: nat)
      requires i < |list| && Apart(list)
      modifies this`list
      ensures list == old(list)[..i] + old(list)[i + 1..] && Apart(list)
      ensures forall e :: e in list <==> e in old(list) && e != old(list)[i]
    {
      list := list[..i] + list[i + 1..];
      assert old(list) == old(list)[..i] + [old(list)[i]] + old(list)[i + 1..];
    }

    method Update(key: Key, val: Value)
      requires Valid() && key in cache
      modifies this`list, list
      ensures Valid() && Contents() == [Entry(key, val)] + Without(old(Contents()), key)
    {
      var i := Position(key);
      SetValue(cache[key], val, i);
      MoveToFront(i);
    }

    method Insert(key: Key, val: Value)
      requires Valid() && key !in cache
      modifies this
      ensures Valid()
      ensures Contents() == [Entry(key, val)] + if |old(list)| < limit then old(Contents()) else old(Contents())[..|old(list)| - 1]
    {
      if |list| >= limit {
        Evict();
      }
      Push(key, val);
    }

    /** The least recently used element goes. */
    method Evict()
      requires Valid() && list != []
      modifies this
      ensures Valid() && Contents() == old(Contents())[..|old(list)| - 1]
      ensures cache.Keys <= old(cache).Keys
    {
      var last := list[|list| - 1];
      assert last in list;
      cache := cache - {last.item.key};
      list := list[..|list| - 1];
    }

    method Push(key: Key, val: Value)
      requires Valid() && key !in cache && |list| < limit
      modifies this
      ensures Valid() && Contents() == [Entry(key, val)] + old(Contents())
    {
      var latest := new Element(Entry(key, val));
      list := [latest] + list;
      cache := cache[key := latest];
    }

    method Get(key: Key) returns (r: Option<Value>)
      requires Valid()
      modifies this`list
      ensures Valid() && Contents() == Apply(old(Contents()), limit, Op.Get(key))
      ensures r == Lookup(old(Contents()), key)
    {
      KeysDiffer();
      if key !in cache {
        return None;
      }
      var i := Position(key);
      r := Some(cache[key].item.val);
      HitMoves(Contents(), limit, i);
      MoveToFront(i);
    }

    method Delete(key: Key)
      requires Valid()
      modifies this
      ensures Valid() && Contents() == Apply(old(Contents()), limit, Op.Delete(key))
    {
      KeysDiffer();
      if key !in cache {
        MissMeansAbsent(Contents(), key);
        LookupMiss(Contents(), key);
        return;
      }
      var i := Position(key);
      RemoveAt(i);
    }

    method RemoveAt(i: nat)
      requires Valid() && i < |list|
      modifies this`list, this`cache
      ensures Valid() && Contents() == old(Contents())[..i] + old(Contents())[i + 1..]
    {
      var e := list[i];
      assert e in list;
      Remove(i);
      cache := cache - {e.item.key};
    }
  }
}
