/** Whole runs of the cache: a smaller cache is contained in a larger one, and what decides a hit. */
module LruRuns {
  import opened Options
  import opened Lru

  ghost function After(limit: nat, ops: seq<Op>): (c: seq<Entry>)
    requires limit > 0
  {
    if ops == [] then [] else Apply(After(limit, ops[..|ops| - 1]), limit, ops[|ops| - 1])
  }

  lemma {:induction false} AfterKeeps(limit: nat, ops: seq<Op>)
    requires limit > 0
    ensures NoDuplicates(After(limit, ops)) && |After(limit, ops)| <= limit
  {
    if ops != [] {
      AfterKeeps(limit, ops[..|ops| - 1]);
      ApplyKeeps(After(limit, ops[..|ops| - 1]), limit, ops[|ops| - 1]);
    }
  }

  // ----- Inclusion

  /** s is l with some entries left out. */
  ghost predicate Within(s: seq<Entry>, l: seq<Entry>)
  {
    s == [] || (l != [] && if s[0] == l[0] then Within(s[1..], l[1..]) else Within(s, l[1..]))
  }

  lemma {:induction false} WithinTail(s: seq<Entry>, l: seq<Entry>)
    requires s != [] && Within(s, l)
    ensures l != [] && Within(s[1..], l[1..]) && Within(s[1..], l)
    decreases |l|, 0
  {
    if s[0] == l[0] {
      WithinCons(s[1..], l[1..], l[0]);
    } else {
      WithinTail(s, l[1..]);
      WithinCons(s[1..], l[1..], l[0]);
    }
    assert [l[0]] + l[1..] == l;
  }

  lemma {:induction false} WithinCons(s: seq<Entry>, l: seq<Entry>, x: Entry)
    requires Within(s, l)
    ensures Within(s, [x] + l)
    decreases |l|, 1
  {
    if s != [] && s[0] == x {
      WithinTail(s, l);
    }
    assert ([x] + l)[1..] == l;
  }

  lemma {:induction false} WithinBoth(s: seq<Entry>, l: seq<Entry>, x: Entry)
    requires Within(s, l)
    ensures Within([x] + s, [x] + l)
  {
    assert ([x] + s)[1..] == s && ([x] + l)[1..] == l;
  }

  lemma {:induction false} WithinWithout(s: seq<Entry>, l: seq<Entry>, k: Key)
    requires Within(s, l)
    ensures Within(Without(s, k), Without(l, k))
    decreases |l|
  {
    if s != [] {
      if s[0] == l[0] {
        WithinWithout(s[1..], l[1..], k);
        if s[0].key != k { WithinBoth(Without(s[1..], k), Without(l[1..], k), s[0]); }
      } else {
        WithinWithout(s, l[1..], k);
        if l[0].key != k { WithinCons(Without(s, k), Without(l[1..], k), l[0]); }
      }
    }
  }

  /** Leaving out the last entry of both lists, or of the smaller alone. */
  lemma {:induction false} WithinInit(s: seq<Entry>, l: seq<Entry>)
    requires s != [] && Within(s, l)
    ensures l != [] && Within(s[..|s| - 1], l[..|l| - 1]) && Within(s[..|s| - 1], l)
    decreases |l|
  {
    var s', l' := s[..|s| - 1], l[..|l| - 1];
    if s[0] == l[0] {
      if |s| > 1 {
        WithinInit(s[1..], l[1..]);
        assert s'[1..] == s[1..][..|s| - 2] && l'[1..] == l[1..][..|l| - 2];
      }
    } else {
      WithinInit(s, l[1..]);
      assert l' == [l[0]] + l[1..][..|l| - 2] && l == [l[0]] + l[1..];
      WithinCons(s', l[1..][..|l| - 2], l[0]);
      WithinCons(s', l[1..], l[0]);
    }
  }

  lemma {:induction false} WithinLookup(s: seq<Entry>, l: seq<Entry>, k: Key)
    requires Within(s, l) && NoDuplicates(l) && Lookup(s, k).Some?
    ensures Lookup(l, k) == Lookup(s, k)
    decreases |l|
  {
    if s[0] == l[0] {
      if s[0].key != k { WithinLookup(s[1..], l[1..], k); }
    } else {
      WithinLookup(s, l[1..], k);
      var i := LookupWhere(l[1..], k);
      assert l[1..][i] == l[i + 1];
    }
  }

  lemma {:induction false} WithinSize(s: seq<Entry>, l: seq<Entry>)
    requires Within(s, l)
    ensures |s| <= |l|
    decreases |l|
  {
    if s != [] {
      if s[0] == l[0] { WithinSize(s[1..], l[1..]); } else { WithinSize(s, l[1..]); }
    }
  }

  /** The larger cache holds everything the smaller one does, in the same order, and it is never ahead by more
      entries than its limit is. */
  ghost predicate Contained(s: seq<Entry>, small: nat, l: seq<Entry>, large: nat)
  {
    && NoDuplicates(s) && |s| <= small
    && NoDuplicates(l) && |l| <= large
    && Within(s, l)
    && |l| - |s| <= large - small
  }

  lemma {:induction false} ToFront(s: seq<Entry>, l: seq<Entry>, k: Key, v: Value)
    requires Within(s, l) && NoDuplicates(s) && NoDuplicates(l)
    ensures Within([Entry(k, v)] + Without(s, k), [Entry(k, v)] + Without(l, k))
    ensures |Without(s, k)| == |s| - (if Lookup(s, k).Some? then 1 else 0)
    ensures |Without(l, k)| == |l| - if Lookup(l, k).Some? then 1 else 0
    ensures Lookup(s, k).Some? ==> Lookup(l, k) == Lookup(s, k)
  {
    WithinWithout(s, l, k);
    WithinBoth(Without(s, k), Without(l, k), Entry(k, v));
    ConsWithout(s, k, v);
    ConsWithout(l, k, v);
    if Lookup(s, k).Some? { WithinLookup(s, l, k); }
  }

  lemma {:induction false} SetContained(s: seq<Entry>, small: nat, l: seq<Entry>, large: nat, k: Key, v: Value)
    requires 0 < small <= large && Contained(s, small, l, large)
    ensures Contained(Apply(s, small, Set(k, v)), small, Apply(l, large, Set(k, v)), large)
  {
    ApplyKeeps(s, small, Set(k, v));
    ApplyKeeps(l, large, Set(k, v));
    ToFront(s, l, k, v);
    if Lookup(s, k).None? && |s| >= small {
      MissMeansAbsent(s, k);
      LookupMiss(s, k);
      WithinInit(s, l);
      WithinBoth(s[..|s| - 1], l[..|l| - 1], Entry(k, v));
      if Lookup(l, k).Some? || |l| < large {
        // only the smaller cache evicts
        var s' := s[..|s| - 1];
        WithinWithout(s', l, k);
        MissMeansAbsent(s, k);
        LookupMiss(s', k);
        WithinBoth(s', Without(l, k), Entry(k, v));
      }
    }
  }

  lemma {:induction false} StepContained(s: seq<Entry>, small: nat, l: seq<Entry>, large: nat, op: Op)
    requires 0 < small <= large && Contained(s, small, l, large)
    ensures Contained(Apply(s, small, op), small, Apply(l, large, op), large)
  {
    match op
    case Set(k, v) => SetContained(s, small, l, large, k, v);
    case Get(k) =>
      ApplyKeeps(s, small, op);
      ApplyKeeps(l, large, op);
      if Lookup(l, k).Some? {
        ToFront(s, l, k, Lookup(l, k).value);
        if Lookup(s, k).None? {
          // a miss in the smaller cache leaves it alone, while the larger one moves the entry to the front
          MissMeansAbsent(s, k);
          LookupMiss(s, k);
          WithinWithout(s, l, k);
          WithinCons(s, Without(l, k), Entry(k, Lookup(l, k).value));
        }
      } else if Lookup(s, k).Some? {
        WithinLookup(s, l, k);
      }
    case Delete(k) =>
      ApplyKeeps(s, small, op);
      ApplyKeeps(l, large, op);
      WithinWithout(s, l, k);
      if Lookup(s, k).Some? {
        ToFront(s, l, k, Lookup(s, k).value);
      } else {
        MissMeansAbsent(s, k);
        LookupMiss(s, k);
        if Lookup(l, k).Some? {
          ConsWithout(l, k, Lookup(l, k).value);
        } else {
          MissMeansAbsent(l, k);
          LookupMiss(l, k);
        }
      }
  }

  lemma {:induction false} RunContained(small: nat, large: nat, ops: seq<Op>)
    requires 0 < small <= large
    ensures Contained(After(small, ops), small, After(large, ops), large)
  {
    if ops != [] {
      RunContained(small, large, ops[..|ops| - 1]);
      StepContained(After(small, ops[..|ops| - 1]), small, After(large, ops[..|ops| - 1]), large, ops[|ops| - 1]);
    }
  }

  /** Fed the same calls, a larger cache answers every hit of a smaller one in the same way. */
  lemma {:induction false} LargerCacheHitsToo(small: nat, large: nat, ops: seq<Op>, k: Key)
    requires 0 < small <= large
    ensures Lookup(After(small, ops), k).Some? ==> Lookup(After(large, ops), k) == Lookup(After(small, ops), k)
  {
    RunContained(small, large, ops);
    if Lookup(After(small, ops), k).Some? {
      WithinLookup(After(small, ops), After(large, ops), k);
    }
  }

  // ----- Values

  /** The value of the last Set of a key, unless it was deleted after that. */
  function LastSet(ops: seq<Op>, k: Key): Option<Value>
  {
    if ops == [] then None
    else
      match ops[|ops| - 1]
      case Set(k', v) => if k' == k then Some(v) else LastSet(ops[..|ops| - 1], k)
      case Get(_) => LastSet(ops[..|ops| - 1], k)
      case Delete(k') => if k' == k then None else LastSet(ops[..|ops| - 1], k)
  }

  lemma {:induction false} LookupCons(c: seq<Entry>, k: Key, v: Value, k': Key)
    ensures Lookup([Entry(k, v)] + c, k') == if k' == k then Some(v) else Lookup(c, k')
  {
    assert ([Entry(k, v)] + c)[1..] == c;
  }

  lemma {:induction false} LookupWithout(c: seq<Entry>, k: Key, k': Key)
    ensures Lookup(Without(c, k), k') == if k' == k then None else Lookup(c, k')
  {
    if c != [] {
      LookupWithout(c[1..], k, k');
      if c[0].key != k { LookupCons(Without(c[1..], k), c[0].key, c[0].val, k'); }
    }
  }

  lemma {:induction false} LookupInit(c: seq<Entry>, k: Key)
    requires c != []
    ensures Lookup(c[..|c| - 1], k).Some? ==> Lookup(c, k) == Lookup(c[..|c| - 1], k)
  {
    if |c| > 1 && c[0].key != k {
      LookupInit(c[1..], k);
      assert c[..|c| - 1][1..] == c[1..][..|c| - 2];
    }
  }

  lemma {:induction false} ApplyLookup(c: seq<Entry>, limit: nat, op: Op, k: Key)
    requires limit > 0 && Lookup(Apply(c, limit, op), k).Some?
    ensures !(op.Delete? && op.key == k)
    ensures Lookup(Apply(c, limit, op), k) == if op.Set? && op.key == k then Some(op.val) else Lookup(c, k)
  {
    match op
    case Set(k', v) =>
      LookupWithout(c, k', k);
      LookupCons(Without(c, k'), k', v, k);
      if c != [] {
        LookupInit(c, k);
        LookupCons(c[..|c| - 1], k', v, k);
      }
    case Get(k') =>
      LookupWithout(c, k', k);
      if Lookup(c, k').Some? { LookupCons(Without(c, k'), k', Lookup(c, k').value, k); }
    case Delete(k') => LookupWithout(c, k', k);
  }

  /** A hit returns the value last set for the key, which was set after its last deletion. */
  lemma {:induction false} HitIsLastSet(limit: nat, ops: seq<Op>, k: Key)
    requires limit > 0 && Lookup(After(limit, ops), k).Some?
    ensures Lookup(After(limit, ops), k) == LastSet(ops, k)
  {
    if ops != [] {
      ApplyLookup(After(limit, ops[..|ops| - 1]), limit, ops[|ops| - 1], k);
      if !(ops[|ops| - 1].Set? && ops[|ops| - 1].key == k) {
        HitIsLastSet(limit, ops[..|ops| - 1], k);
      }
    }
  }

  /** After its deletion a key is not found; every other one is found as before, and the order of the others stays. */
  lemma {:induction false} DeletedIsGone(limit: nat, ops: seq<Op>, k: Key)
    requires limit > 0
    ensures var c, d := After(limit, ops), After(limit, ops + [Delete(k)]);
            && Lookup(d, k) == None
            && (forall l :: l != k ==> Lookup(d, l) == Lookup(c, l))
            && (Lookup(c, k) == None ==> d == c)
            && (forall i :: 0 <= i < |c| && c[i].key == k ==> d == c[..i] + c[i + 1..])
  {
    var c := After(limit, ops);
    assert (ops + [Delete(k)])[..|ops|] == ops;
    AfterKeeps(limit, ops);
    forall l ensures Lookup(Without(c, k), l) == if l == k then None else Lookup(c, l) { LookupWithout(c, k, l); }
    if Lookup(c, k) == None {
      MissMeansAbsent(c, k);
      LookupMiss(c, k);
    }
    forall i | 0 <= i < |c| && c[i].key == k ensures Without(c, k) == c[..i] + c[i + 1..] { WithoutAt(c, i); }
  }

  // ----- What decides a hit

  predicate DeleteFree(ops: seq<Op>)
  {
    forall i :: 0 <= i < |ops| ==> !ops[i].Delete?
  }

  /** The touches of a run, newest first: every Set, and every Get that finds its key. */
  ghost function Touches(limit: nat, ops: seq<Op>): seq<Entry>
    requires limit > 0
  {
    if ops == [] then []
    else
      var before := ops[..|ops| - 1];
      match ops[|ops| - 1]
      case Set(k, v) => [Entry(k, v)] + Touches(limit, before)
      case Get(k) =>
        (match Lookup(After(limit, before), k)
         case Some(v) => [Entry(k, v)] + Touches(limit, before)
         case None => Touches(limit, before))
      case Delete(_) => Touches(limit, before)
  }

  /** All keys ever touched, in order of their last touch. */
  ghost function Recency(log: seq<Entry>): (r: seq<Entry>)
  {
    if log == [] then [] else [log[0]] + Without(Recency(log[1..]), log[0].key)
  }

  lemma {:induction false} RecencyDistinct(log: seq<Entry>)
    ensures NoDuplicates(Recency(log))
  {
    if log != [] {
      RecencyDistinct(log[1..]);
      ConsWithout(Recency(log[1..]), log[0].key, log[0].val);
    }
  }

  function Take<T>(n: nat, s: seq<T>): seq<T>
  {
    if |s| <= n then s else s[..n]
  }

  /** Removing a key from the first n entries leaves the first n - 1 of the rest. */
  lemma {:induction false} TakeWithout(n: nat, c: seq<Entry>, k: Key)
    requires n > 0 && NoDuplicates(c) && Lookup(Take(n, c), k).Some?
    ensures Take(n - 1, Without(c, k)) == Without(Take(n, c), k)
  {
    var i := LookupWhere(Take(n, c), k);
    WithoutAt(c, i);
    WithoutAt(Take(n, c), i);
    assert c[..i] + c[i + 1..] == Without(c, k);
    assert Take(n, c)[..i] == c[..i];
  }

  lemma {:induction false} TakeMiss(n: nat, c: seq<Entry>, k: Key)
    requires n > 0 && Lookup(Take(n, c), k).None?
    ensures Take(n - 1, Without(c, k)) == Take(n - 1, c)
  {
    if |c| <= n {
      MissMeansAbsent(c, k);
      LookupMiss(c, k);
    } else {
      MissMeansAbsent(c[..n], k);
      PrefixWithout(c, n, k);
    }
  }

  lemma {:induction false} PrefixWithout(c: seq<Entry>, n: nat, k: Key)
    requires n <= |c| && forall i :: 0 <= i < n ==> c[i].key != k
    ensures n <= |Without(c, k)| && Without(c, k)[..n] == c[..n]
  {
    if n > 0 {
      PrefixWithout(c[1..], n - 1, k);
      assert c[..n] == [c[0]] + c[1..][..n - 1];
    }
  }

  lemma {:induction false} TakeCons<T>(n: nat, x: T, s: seq<T>)
    requires n > 0
    ensures Take(n, [x] + s) == [x] + Take(n - 1, s)
  {
  }

  /** Without deletions the cache holds the limit most recently touched keys. */
  lemma {:induction false} HoldsMostRecent(limit: nat, ops: seq<Op>)
    requires limit > 0 && DeleteFree(ops)
    ensures After(limit, ops) == Take(limit, Recency(Touches(limit, ops)))
  {
    if ops != [] {
      var before, op := ops[..|ops| - 1], ops[|ops| - 1];
      HoldsMostRecent(limit, before);
      assert op == ops[|ops| - 1] && !op.Delete?;
      var c, r := After(limit, before), Recency(Touches(limit, before));
      RecencyDistinct(Touches(limit, before));
      var k := op.key;
      if op.Set? || Lookup(c, k).Some? {
        var e := Touches(limit, ops)[0];
        assert Touches(limit, ops)[1..] == Touches(limit, before);
        TakeCons(limit, e, Without(r, k));
        if Lookup(c, k).Some? {
          TakeWithout(limit, r, k);
        } else {
          TakeMiss(limit, r, k);
          if |c| < limit {
            MissMeansAbsent(c, k);
            LookupMiss(c, k);
          }
        }
      }
    }
  }

  /** The touches since the last one of k; all of them if there is none. */
  ghost function Since(log: seq<Entry>, k: Key): seq<Entry>
  {
    if log == [] || log[0].key == k then [] else [log[0]] + Since(log[1..], k)
  }

  ghost function KeySet(log: seq<Entry>): set<Key>
  {
    set i | 0 <= i < |log| :: log[i].key
  }

  lemma {:induction false} KeySetCons(x: Entry, log: seq<Entry>)
    ensures KeySet([x] + log) == {x.key} + KeySet(log)
  {
    var l := [x] + log;
    forall k | k in KeySet(log)
      ensures k in KeySet(l)
    {
      var i :| 0 <= i < |log| && log[i].key == k;
      assert l[i + 1].key == k;
    }
    assert l[0].key == x.key;
  }

  lemma {:induction false} SinceWithout(c: seq<Entry>, x: Key, k: Key)
    requires x != k
    ensures Since(Without(c, x), k) == Without(Since(c, k), x)
  {
    if c != [] {
      SinceWithout(c[1..], x, k);
      if c[0].key != x {
        assert ([c[0]] + Without(c[1..], x))[1..] == Without(c[1..], x);
      }
      if c[0].key != k {
        assert ([c[0]] + Since(c[1..], k))[1..] == Since(c[1..], k);
      }
    }
  }

  lemma {:induction false} KeySetWithout(c: seq<Entry>, x: Key)
    ensures KeySet(Without(c, x)) == KeySet(c) - {x}
  {
    if c != [] {
      KeySetWithout(c[1..], x);
      assert c == [c[0]] + c[1..];
      KeySetCons(c[0], c[1..]);
      KeySetCons(c[0], Without(c[1..], x));
    }
  }

  lemma {:induction false} SinceInRecency(log: seq<Entry>, k: Key)
    ensures KeySet(Since(Recency(log), k)) == KeySet(Since(log, k))
  {
    if log != [] && log[0].key != k {
      SinceInRecency(log[1..], k);
      var r := Without(Recency(log[1..]), log[0].key);
      assert ([log[0]] + r)[1..] == r;
      SinceWithout(Recency(log[1..]), log[0].key, k);
      KeySetWithout(Since(Recency(log[1..]), k), log[0].key);
      KeySetCons(log[0], Since(r, k));
      KeySetCons(log[0], Since(log[1..], k));
    }
  }

  lemma {:induction false} SizeOfDistinct(c: seq<Entry>)
    requires NoDuplicates(c)
    ensures |KeySet(c)| == |c|
  {
    if c != [] {
      SizeOfDistinct(c[1..]);
      assert c == [c[0]] + c[1..];
      KeySetCons(c[0], c[1..]);
      assert c[0].key !in KeySet(c[1..]);
    }
  }

  lemma {:induction false} SinceIsPrefix(c: seq<Entry>, k: Key)
    ensures Since(c, k) <= c
    ensures Lookup(c, k).Some? <==> |Since(c, k)| < |c|
    ensures Lookup(c, k).Some? ==> c[|Since(c, k)|].key == k
    ensures forall i :: 0 <= i < |Since(c, k)| ==> c[i].key != k
  {
    if c != [] && c[0].key != k {
      SinceIsPrefix(c[1..], k);
    }
  }

  lemma {:induction false} TouchedInRecency(log: seq<Entry>, k: Key)
    ensures Lookup(Recency(log), k).Some? <==> k in KeySet(log)
  {
    if log != [] {
      TouchedInRecency(log[1..], k);
      assert log == [log[0]] + log[1..];
      KeySetCons(log[0], log[1..]);
      LookupWithout(Recency(log[1..]), log[0].key, k);
      LookupCons(Without(Recency(log[1..]), log[0].key), log[0].key, log[0].val, k);
    }
  }

  /** Without deletions a Get finds its key exactly if the key was touched before and fewer than limit other keys
      were touched since. */
  lemma {:induction false} RecentIsHit(limit: nat, ops: seq<Op>, k: Key)
    requires limit > 0 && DeleteFree(ops)
    ensures var log := Touches(limit, ops);
            Lookup(After(limit, ops), k).Some? <==> k in KeySet(log) && |KeySet(Since(log, k))| < limit
  {
    var log := Touches(limit, ops);
    var r := Recency(log);
    HoldsMostRecent(limit, ops);
    RecencyDistinct(log);
    SinceInRecency(log, k);
    SinceIsPrefix(r, k);
    TouchedInRecency(log, k);
    SizeOfDistinct(Since(r, k));
    var c := Take(limit, r);
    SinceIsPrefix(c, k);
    if |Since(r, k)| < limit && |Since(r, k)| < |r| {
      assert c[|Since(r, k)|].key == k;
      LookupAt(c, |Since(r, k)|);
    }
  }

  // ----- What decides a hit when there are deletions

  /** The keys that were touched after the last touch of k, and not deleted again. */
  ghost function Newer(limit: nat, ops: seq<Op>, k: Key): set<Key>
    requires limit > 0
  {
    if ops == [] then {}
    else
      var before, op := ops[..|ops| - 1], ops[|ops| - 1];
      var newer := Newer(limit, before, k);
      if op.Delete? then newer - {op.key}
      else if op.Get? && Lookup(After(limit, before), op.key).None? then newer
      else if op.key == k then {}
      else newer + {op.key}
  }

  /** The keys in front of k. */
  ghost function Ahead(c: seq<Entry>, k: Key): set<Key>
  {
    KeySet(Since(c, k))
  }

  lemma {:induction false} AheadCons(c: seq<Entry>, x: Entry, k: Key)
    ensures Ahead([x] + c, k) == if x.key == k then {} else Ahead(c, k) + {x.key}
  {
    assert ([x] + c)[1..] == c;
    KeySetCons(x, Since(c, k));
  }

  lemma {:induction false} AheadWithout(c: seq<Entry>, x: Key, k: Key)
    requires x != k
    ensures Ahead(Without(c, x), k) == Ahead(c, k) - {x}
  {
    SinceWithout(c, x, k);
    KeySetWithout(Since(c, k), x);
  }

  lemma {:induction false} SinceInit(c: seq<Entry>, k: Key)
    requires c != [] && Lookup(c[..|c| - 1], k).Some?
    ensures Since(c[..|c| - 1], k) == Since(c, k)
  {
    if c[0].key != k {
      assert c[..|c| - 1][1..] == c[1..][..|c| - 2];
      SinceInit(c[1..], k);
    }
  }

  /** The number of keys in front of a key that is there is its place. */
  lemma {:induction false} PlaceOf(c: seq<Entry>, k: Key) returns (i: nat)
    requires NoDuplicates(c) && Lookup(c, k).Some?
    ensures i < |c| && c[i].key == k && |Ahead(c, k)| == i
  {
    SinceIsPrefix(c, k);
    i := |Since(c, k)|;
    assert Since(c, k) == c[..i];
    SizeOfDistinct(Since(c, k));
  }

  lemma {:induction false} SetAhead(c: seq<Entry>, limit: nat, x: Key, v: Value, k: Key)
    requires limit > 0 && Lookup(c, k).Some? && Lookup(Apply(c, limit, Set(x, v)), k).Some? && x != k
    ensures Ahead(Apply(c, limit, Set(x, v)), k) == Ahead(c, k) + {x}
  {
    AheadWithout(c, x, k);
    AheadCons(Without(c, x), Entry(x, v), k);
    if !(Lookup(c, x).Some? || |c| < limit) {
      LookupCons(c[..|c| - 1], x, v, k);
      SinceInit(c, k);
      AheadCons(c[..|c| - 1], Entry(x, v), k);
    }
  }

  lemma {:induction false} StepAhead(c: seq<Entry>, limit: nat, op: Op, k: Key, newer: set<Key>)
    requires limit > 0 && Lookup(c, k).Some? && Lookup(Apply(c, limit, op), k).Some? && newer == Ahead(c, k)
    ensures Ahead(Apply(c, limit, op), k) ==
            if op.Delete? then newer - {op.key}
            else if op.Get? && Lookup(c, op.key).None? then newer
            else if op.key == k then {} else newer + {op.key}
  {
    match op
    case Set(x, v) => if x == k { SetToFront(c, limit, k, v); } else { SetAhead(c, limit, x, v, k); }
    case Get(x) =>
      if Lookup(c, x).Some? {
        AheadCons(Without(c, x), Entry(x, Lookup(c, x).value), k);
        if x != k { AheadWithout(c, x, k); }
      }
    case Delete(x) =>
      LookupWithout(c, x, k);
      if x != k { AheadWithout(c, x, k); }
  }

  lemma {:induction false} SetToFront(c: seq<Entry>, limit: nat, k: Key, v: Value)
    requires limit > 0
    ensures Lookup(Apply(c, limit, Set(k, v)), k) == Some(v) && Ahead(Apply(c, limit, Set(k, v)), k) == {}
  {
  }

  /** As long as a key is in the cache, the keys in front of it are those touched after it and not deleted. */
  lemma {:induction false} NewerIsAhead(limit: nat, ops: seq<Op>, k: Key)
    requires limit > 0 && Lookup(After(limit, ops), k).Some?
    ensures Newer(limit, ops, k) == Ahead(After(limit, ops), k)
  {
    if ops != [] {
      var before, op := ops[..|ops| - 1], ops[|ops| - 1];
      var c := After(limit, before);
      if op.Set? && op.key == k {
        SetToFront(c, limit, k, op.val);
      } else {
        ApplyLookup(c, limit, op, k);
        NewerIsAhead(limit, before, k);
        StepAhead(c, limit, op, k, Newer(limit, before, k));
      }
    }
  }

  /** A key in the cache stays exactly if the call does not delete it and fewer than limit keys are in front after it. */
  lemma {:induction false} StaysIff(limit: nat, before: seq<Op>, op: Op, k: Key)
    requires limit > 0 && Lookup(After(limit, before), k).Some? && !(op.Set? && op.key == k)
    ensures Lookup(After(limit, before + [op]), k).Some?
            <==> op != Delete(k) && |Newer(limit, before + [op], k)| < limit
  {
    var c, ops := After(limit, before), before + [op];
    assert ops[..|ops| - 1] == before;
    AfterKeeps(limit, before);
    AfterKeeps(limit, ops);
    NewerIsAhead(limit, before, k);
    var i := PlaceOf(c, k);
    if Lookup(After(limit, ops), k).Some? {
      ApplyLookup(c, limit, op, k);
      NewerIsAhead(limit, ops, k);
      var j := PlaceOf(After(limit, ops), k);
    } else {
      LeavesByFullness(c, limit, op, k);
    }
  }

  /** A key that leaves without being deleted was the last one of a full cache, in front of which a new one is set. */
  lemma {:induction false} LeavesByFullness(c: seq<Entry>, limit: nat, op: Op, k: Key)
    requires limit > 0 && NoDuplicates(c) && |c| <= limit && Lookup(c, k).Some? && Lookup(Apply(c, limit, op), k).None?
    ensures op == Delete(k) || (op.Set? && op.key != k && |Ahead(c, k) + {op.key}| == limit)
  {
    match op
    case Set(x, v) =>
      if x == k {
        SetToFront(c, limit, k, v);
      } else {
        LookupWithout(c, x, k);
        LookupCons(Without(c, x), x, v, k);
        var i := PlaceOf(c, k);
        LookupCons(c[..|c| - 1], x, v, k);
        if i < |c| - 1 {
          LookupAt(c[..|c| - 1], i);
        }
        NewIsNotAhead(c, x, k);
      }
    case Get(x) =>
      LookupWithout(c, x, k);
      if Lookup(c, x).Some? { LookupCons(Without(c, x), x, Lookup(c, x).value, k); }
    case Delete(x) => LookupWithout(c, x, k);
  }

  lemma {:induction false} NewIsNotAhead(c: seq<Entry>, x: Key, k: Key)
    ensures Lookup(c, x).None? ==> x !in Ahead(c, k)
  {
    if Lookup(c, x).None? {
      MissMeansAbsent(c, x);
      SinceIsPrefix(c, k);
    }
  }

  /** The key was set by call n, has not been deleted since, and at no time since were limit newer keys there. */
  ghost predicate KeptSince(limit: nat, ops: seq<Op>, n: nat, k: Key)
    requires limit > 0
  {
    && n < |ops| && ops[n].Set? && ops[n].key == k
    && (forall m :: n < m < |ops| ==> ops[m] != Delete(k))
    && (forall m :: n < m <= |ops| ==> |Newer(limit, ops[..m], k)| < limit)
  }

  lemma {:induction false} KeptIsHit(limit: nat, ops: seq<Op>, n: nat, k: Key)
    requires limit > 0 && KeptSince(limit, ops, n, k)
    ensures Lookup(After(limit, ops), k).Some?
  {
    var before, op := ops[..|ops| - 1], ops[|ops| - 1];
    assert before + [op] == ops;
    if op.Set? && op.key == k {
      SetToFront(After(limit, before), limit, k, op.val);
    } else {
      assert forall m :: n < m <= |before| ==> before[..m] == ops[..m];
      KeptIsHit(limit, before, n, k);
      assert ops[..|ops|] == ops;
      StaysIff(limit, before, op, k);
    }
  }

  lemma {:induction false} HitIsKept(limit: nat, ops: seq<Op>, k: Key) returns (n: nat)
    requires limit > 0 && Lookup(After(limit, ops), k).Some?
    ensures KeptSince(limit, ops, n, k)
  {
    var before, op := ops[..|ops| - 1], ops[|ops| - 1];
    assert before + [op] == ops && ops[..|ops|] == ops;
    if op.Set? && op.key == k {
      n := |ops| - 1;
    } else {
      ApplyLookup(After(limit, before), limit, op, k);
      n := HitIsKept(limit, before, k);
      StaysIff(limit, before, op, k);
      forall m | n < m <= |ops| ensures |Newer(limit, ops[..m], k)| < limit {
        if m < |ops| { assert ops[..m] == before[..m]; }
      }
    }
  }

  /**
   With deletions or without: a Get finds its key exactly if it was set, has not been deleted since, and at every
   moment since fewer than limit other keys had been touched after its last touch and not deleted again.
   */
  lemma {:induction false} HitIff(limit: nat, ops: seq<Op>, k: Key)
    requires limit > 0
    ensures Lookup(After(limit, ops), k).Some? <==> exists n :: KeptSince(limit, ops, n, k)
  {
    if Lookup(After(limit, ops), k).Some? { var n := HitIsKept(limit, ops, k); }
    if n: nat :| KeptSince(limit, ops, n, k) { KeptIsHit(limit, ops, n, k); }
  }
}
