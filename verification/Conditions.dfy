/**
 The list of conditions in the status of a resource. Kubernetes wants a list where a map from condition type to
 condition is meant: SetConditions is map update, and Equal compares the maps.
 */
module Conditions {
  import opened Strings

  datatype ConditionStatus = True | False | Unknown

  const TYPE_READY := "Ready"

  /** Times are opaque; only their equality matters. */
  datatype Condition = Condition(ctype: string, status: ConditionStatus, reason: string, message: string,
                                 lastTransitionTime: int, lastSuccessfulTime: int)

  /** At most one condition of each type. */
  predicate OnePerType(cs: seq<Condition>)
  {
    forall i, j :: 0 <= i < j < |cs| ==> cs[i].ctype != cs[j].ctype
  }

  /** The first condition of a type; unknown if there is none. */
  function GetCondition(cs: seq<Condition>, ct: string): (r: Condition)
    ensures r.ctype == ct
  {
    if cs == [] then Condition(ct, Unknown, "", "", 0, 0)
    else if cs[0].ctype == ct then cs[0]
    else GetCondition(cs[1..], ct)
  }

  predicate IsReady(cs: seq<Condition>)
  {
    GetCondition(cs, TYPE_READY).status == True
  }

  /** The map that the list stands for; of several conditions with one type the first counts. */
  ghost function AsMap(cs: seq<Condition>): map<string, Condition>
  {
    if cs == [] then map[] else AsMap(cs[1..])[cs[0].ctype := cs[0]]
  }

  /** GetCondition is lookup in the map. */
  lemma {:induction false} GetIsLookup(cs: seq<Condition>, ct: string)
    ensures GetCondition(cs, ct) == if ct in AsMap(cs) then AsMap(cs)[ct] else Condition(ct, Unknown, "", "", 0, 0)
  {
    if cs != [] { GetIsLookup(cs[1..], ct); }
  }

  lemma {:induction false} InAsMap(cs: seq<Condition>, i: nat)
    requires OnePerType(cs) && i < |cs|
    ensures cs[i].ctype in AsMap(cs) && AsMap(cs)[cs[i].ctype] == cs[i]
  {
    if i > 0 { InAsMap(cs[1..], i - 1); }
  }

  lemma {:induction false} AsMapKeys(cs: seq<Condition>, ct: string)
    ensures ct in AsMap(cs) <==> exists i :: 0 <= i < |cs| && cs[i].ctype == ct
  {
    if cs != [] {
      AsMapKeys(cs[1..], ct);
      if ct in AsMap(cs[1..]) {
        var i :| 0 <= i < |cs[1..]| && cs[1..][i].ctype == ct;
        assert cs[i + 1].ctype == ct;
      }
      if i :| 0 <= i < |cs| && cs[i].ctype == ct {
        if i > 0 { assert cs[1..][i - 1].ctype == ct; }
      }
    }
  }

  /** Ready is what a condition of that type says, and nothing else is. */
  lemma {:induction false} IsReadyIff(cs: seq<Condition>)
    requires OnePerType(cs)
    ensures IsReady(cs) <==> exists i :: 0 <= i < |cs| && cs[i].ctype == "Ready" && cs[i].status == True
  {
    GetIsLookup(cs, "Ready");
    AsMapKeys(cs, "Ready");
    if i :| 0 <= i < |cs| && cs[i].ctype == "Ready" { InAsMap(cs, i); }
  }

  // ----- SetConditions

  /** Every condition of the type is replaced; a new type goes to the end. */
  function SetOne(cs: seq<Condition>, c: Condition): seq<Condition>
  {
    if exists i :: 0 <= i < |cs| && cs[i].ctype == c.ctype
    then seq(|cs|, i requires 0 <= i < |cs| => if cs[i].ctype == c.ctype then c else cs[i])
    else cs + [c]
  }

  function SetAll(cs: seq<Condition>, news: seq<Condition>): seq<Condition>
  {
    if news == [] then cs else SetOne(SetAll(cs, news[..|news| - 1]), news[|news| - 1])
  }

  class ConditionedStatus {
    var conditions: seq<Condition>

    constructor ()
      ensures conditions == []
    {
      conditions := [];
    }

    /** An equal condition is left in place, which is the same as writing it again. */
    method SetConditions(news: seq<Condition>)
      modifies this
      ensures conditions == SetAll(old(conditions), news)
    {
      for k := 0 to |news|
        invariant conditions == SetAll(old(conditions), news[..k])
      {
        assert news[..k + 1][..k] == news[..k];
        SetCondition(news[k]);
      }
      assert news[..|news|] == news;
    }

    method SetCondition(c: Condition)
      modifies this
      ensures conditions == SetOne(old(conditions), c)
    {
      var found := false;
      for i := 0 to |conditions|
        invariant |conditions| == |old(conditions)|
        invariant found <==> exists j :: 0 <= j < i && old(conditions)[j].ctype == c.ctype
        invariant forall j :: 0 <= j < |conditions| ==>
                    conditions[j] == if j < i && old(conditions)[j].ctype == c.ctype then c else old(conditions)[j]
      {
        if conditions[i].ctype == c.ctype {
          if conditions[i] != c {
            conditions := conditions[i := c];
          }
          found := true;
        }
      }
      if !found {
        conditions := conditions + [c];
      }
    }
  }

  ghost function PutAll(m: map<string, Condition>, news: seq<Condition>): map<string, Condition>
  {
    if news == [] then m
    else PutAll(m, news[..|news| - 1])[news[|news| - 1].ctype := news[|news| - 1]]
  }

  lemma {:induction false} SetOneIsPut(cs: seq<Condition>, c: Condition)
    requires OnePerType(cs)
    ensures OnePerType(SetOne(cs, c)) && AsMap(SetOne(cs, c)) == AsMap(cs)[c.ctype := c]
  {
    var r := SetOne(cs, c);
    forall ct
      ensures ct in AsMap(r) <==> ct in AsMap(cs) || ct == c.ctype
      ensures ct in AsMap(r) ==> AsMap(r)[ct] == if ct == c.ctype then c else AsMap(cs)[ct]
    {
      AsMapKeys(r, ct);
      AsMapKeys(cs, ct);
      if ct in AsMap(cs) {
        var i :| 0 <= i < |cs| && cs[i].ctype == ct;
        assert r[i].ctype == ct;
        InAsMap(r, i);
        InAsMap(cs, i);
      }
      if ct == c.ctype && ct !in AsMap(cs) {
        assert r[|cs|] == c;
        InAsMap(r, |cs|);
      }
    }
  }

  /** SetConditions keeps at most one condition per type and is map update, the last write to a type winning. */
  lemma {:induction false} SetAllIsPutAll(cs: seq<Condition>, news: seq<Condition>)
    requires OnePerType(cs)
    ensures OnePerType(SetAll(cs, news)) && AsMap(SetAll(cs, news)) == PutAll(AsMap(cs), news)
  {
    if news != [] {
      SetAllIsPutAll(cs, news[..|news| - 1]);
      SetOneIsPut(SetAll(cs, news[..|news| - 1]), news[|news| - 1]);
    }
  }

  // ----- Equal

  ghost predicate SortedByType(cs: seq<Condition>)
  {
    forall i, j :: 0 <= i < j < |cs| ==> !Less(cs[j].ctype, cs[i].ctype)
  }

  /** What sort.Slice may return: the same conditions in ascending order of type, equal types in any order. */
  ghost predicate IsSortOf(s: seq<Condition>, cs: seq<Condition>)
  {
    multiset(s) == multiset(cs) && SortedByType(s)
  }

  method SortByType(cs: seq<Condition>) returns (s: seq<Condition>)
    ensures IsSortOf(s, cs)
  {
    s := [];
    for k := 0 to |cs|
      invariant IsSortOf(s, cs[..k])
    {
      assert cs[..k + 1] == cs[..k] + [cs[k]];
      s := InsertByType(s, cs[k]);
    }
    assert cs[..|cs|] == cs;
  }

  method InsertByType(s: seq<Condition>, c: Condition) returns (r: seq<Condition>)
    requires SortedByType(s)
    ensures SortedByType(r) && multiset(r) == multiset(s) + multiset{c}
  {
    var i := |s|;
    while i > 0 && Less(c.ctype, s[i - 1].ctype)
      invariant 0 <= i <= |s|
      invariant forall j :: i <= j < |s| ==> Less(c.ctype, s[j].ctype)
    {
      i := i - 1;
    }
    r := s[..i] + [c] + s[i..];
    assert s == s[..i] + s[i..];
    InsertedSorted(s, c, i, r);
  }

  lemma {:induction false} InsertedSorted(s: seq<Condition>, c: Condition, i: nat, r: seq<Condition>)
    requires SortedByType(s) && i <= |s| && r == s[..i] + [c] + s[i..]
    requires forall j :: i <= j < |s| ==> Less(c.ctype, s[j].ctype)
    requires i > 0 ==> !Less(c.ctype, s[i - 1].ctype)
    ensures SortedByType(r)
  {
    forall a, b | 0 <= a < b < |r| ensures !Less(r[b].ctype, r[a].ctype) {
      if b == i {
        NotAbove(s, c, i, a);
      } else if a == i {
        LessAsymmetric(c.ctype, s[b - 1].ctype);
      } else {
        assert r[a] == s[if a < i then a else a - 1] && r[b] == s[if b < i then b else b - 1];
      }
    }
  }

  lemma {:induction false} NotAbove(s: seq<Condition>, c: Condition, i: nat, a: nat)
    requires SortedByType(s) && a < i <= |s| && !Less(c.ctype, s[i - 1].ctype)
    ensures !Less(c.ctype, s[a].ctype)
  {
    LessTotal(s[a].ctype, s[i - 1].ctype);
    if Less(c.ctype, s[a].ctype) && Less(s[a].ctype, s[i - 1].ctype) {
      LessTransitive(c.ctype, s[a].ctype, s[i - 1].ctype);
    }
  }

  /** Equal sorts copies of both lists and compares them entry by entry. */
  method Equal(cs: seq<Condition>, other: seq<Condition>) returns (equal: bool)
    ensures OnePerType(cs) && OnePerType(other) ==> (equal <==> AsMap(cs) == AsMap(other))
  {
    if |other| != |cs| {
      if OnePerType(cs) && OnePerType(other) { AsMapSize(cs); AsMapSize(other); }
      return false;
    }
    var sc := SortByType(cs);
    var oc := SortByType(other);
    assert |sc| == |multiset(sc)| && |oc| == |multiset(oc)| && |cs| == |multiset(cs)| && |other| == |multiset(other)|;
    equal := true;
    for i := 0 to |sc|
      invariant sc[..i] == oc[..i]
    {
      if sc[i] != oc[i] {
        if OnePerType(cs) && OnePerType(other) { SortedListsOfOneMap(cs, other, sc, oc); }
        return false;
      }
    }
    assert sc == sc[..|sc|] && oc == oc[..|oc|];
    if OnePerType(cs) && OnePerType(other) { SortedListsOfOneMap(cs, other, sc, oc); }
  }

  lemma {:induction false} AsMapSize(cs: seq<Condition>)
    requires OnePerType(cs)
    ensures |AsMap(cs)| == |cs|
  {
    if cs != [] {
      AsMapSize(cs[1..]);
      AsMapKeys(cs[1..], cs[0].ctype);
      assert AsMap(cs).Keys == AsMap(cs[1..]).Keys + {cs[0].ctype};
    }
  }

  lemma {:induction false} PermutedOnePerType(s: seq<Condition>, cs: seq<Condition>)
    requires multiset(s) == multiset(cs) && OnePerType(cs)
    ensures OnePerType(s) && AsMap(s) == AsMap(cs)
  {
    forall i, j | 0 <= i < j < |s|
      ensures s[i].ctype != s[j].ctype
    {
      if s[i].ctype == s[j].ctype {
        assert s[i] in multiset(cs) && s[j] in multiset(cs);
        var a :| 0 <= a < |cs| && cs[a] == s[i];
        var b :| 0 <= b < |cs| && cs[b] == s[j];
        assert a == b;
        TwiceInMultiset(s, i, j);
        OnceInMultiset(cs, a);
      }
    }
    forall ct
      ensures ct in AsMap(s) <==> ct in AsMap(cs)
      ensures ct in AsMap(s) && ct in AsMap(cs) ==> AsMap(s)[ct] == AsMap(cs)[ct]
    {
      AsMapKeys(s, ct);
      AsMapKeys(cs, ct);
      if i :| 0 <= i < |s| && s[i].ctype == ct {
        assert s[i] in multiset(cs);
        var a :| 0 <= a < |cs| && cs[a] == s[i];
        InAsMap(s, i);
        InAsMap(cs, a);
      }
      if a :| 0 <= a < |cs| && cs[a].ctype == ct {
        assert cs[a] in multiset(s);
      }
    }
  }

  lemma {:induction false} TwiceInMultiset(s: seq<Condition>, i: nat, j: nat)
    requires i < j < |s| && s[i] == s[j]
    ensures multiset(s)[s[i]] >= 2
  {
    assert s == s[..j] + [s[j]] + s[j + 1..];
    assert s[..j][i] == s[i];
  }

  lemma {:induction false} OnceInMultiset(cs: seq<Condition>, a: nat)
    requires OnePerType(cs) && a < |cs|
    ensures multiset(cs)[cs[a]] == 1
  {
    assert cs == cs[..a] + [cs[a]] + cs[a + 1..];
    assert cs[a] !in cs[..a] && cs[a] !in cs[a + 1..];
  }

  /** Of the lists that stand for one map only one is sorted. */
  lemma {:induction false} SortedIsCanonical(s: seq<Condition>, t: seq<Condition>)
    requires OnePerType(s) && OnePerType(t) && SortedByType(s) && SortedByType(t) && AsMap(s) == AsMap(t)
    ensures s == t
  {
    AsMapSize(s);
    AsMapSize(t);
    if s != [] {
      FirstIsLeast(s, t);
      FirstIsLeast(t, s);
      LessTotal(s[0].ctype, t[0].ctype);
      InAsMap(s, 0);
      InAsMap(t, 0);
      assert AsMap(s[1..]) == AsMap(s) - {s[0].ctype} by { AsMapKeys(s[1..], s[0].ctype); }
      assert AsMap(t[1..]) == AsMap(t) - {t[0].ctype} by { AsMapKeys(t[1..], t[0].ctype); }
      SortedIsCanonical(s[1..], t[1..]);
    }
  }

  lemma {:induction false} FirstIsLeast(s: seq<Condition>, t: seq<Condition>)
    requires s != [] && t != [] && SortedByType(s) && AsMap(s) == AsMap(t)
    ensures !Less(t[0].ctype, s[0].ctype)
  {
    AsMapKeys(t, t[0].ctype);
    AsMapKeys(s, t[0].ctype);
    var i :| 0 <= i < |s| && s[i].ctype == t[0].ctype;
    LessIrreflexive(s[0].ctype);
  }

  /** Whatever order sort.Slice gives, the sorted lists agree exactly when the lists stand for the same map. */
  lemma {:induction false} SortedListsOfOneMap(cs: seq<Condition>, other: seq<Condition>,
                                               sc: seq<Condition>, oc: seq<Condition>)
    requires OnePerType(cs) && OnePerType(other) && IsSortOf(sc, cs) && IsSortOf(oc, other)
    ensures sc == oc <==> AsMap(cs) == AsMap(other)
  {
    PermutedOnePerType(sc, cs);
    PermutedOnePerType(oc, other);
    if AsMap(cs) == AsMap(other) {
      SortedIsCanonical(sc, oc);
    }
  }

  // ----- What the comments promise: transition times do not count

  /** Equal in everything but the time of the last transition. */
  predicate Alike(a: Condition, b: Condition)
  {
    a.(lastTransitionTime := b.lastTransitionTime) == b
  }

  /** The documented comparison of two lists: the same types, and alike conditions for each of them. */
  ghost predicate EqualButTimes(cs: seq<Condition>, other: seq<Condition>)
  {
    && AsMap(cs).Keys == AsMap(other).Keys
    && forall ct <- AsMap(cs) :: Alike(AsMap(cs)[ct], AsMap(other)[ct])
  }

  /** For some type the two lists know different transition times. */
  ghost predicate TimesDiffer(cs: seq<Condition>, other: seq<Condition>)
  {
    exists ct :: ct in AsMap(cs) && ct in AsMap(other)
                 && AsMap(cs)[ct].lastTransitionTime != AsMap(other)[ct].lastTransitionTime
  }

  /**
   Equal, which decides whether the maps are equal, departs from the documented comparison exactly on lists that this
   comparison takes for equal and that know different transition times for some type.
   */
  lemma {:induction false} DepartsFromCommentIff(cs: seq<Condition>, other: seq<Condition>)
    ensures (AsMap(cs) == AsMap(other)) != EqualButTimes(cs, other)
            <==> EqualButTimes(cs, other) && TimesDiffer(cs, other)
  {
    if EqualButTimes(cs, other) && !TimesDiffer(cs, other) {
      assert forall ct <- AsMap(cs) :: AsMap(cs)[ct] == AsMap(other)[ct];
      assert AsMap(cs) == AsMap(other);
    }
  }

  const EARLIER := [Condition(TYPE_READY, True, "", "", 1, 0)]
  const LATER := [Condition(TYPE_READY, True, "", "", 2, 0)]

  /** Two such lists. */
  lemma {:induction false} TimesCount()
    ensures OnePerType(EARLIER) && OnePerType(LATER)
    ensures EqualButTimes(EARLIER, LATER) && AsMap(EARLIER) != AsMap(LATER)
  {
    InAsMap(EARLIER, 0);
    InAsMap(LATER, 0);
  }

  /**
   Setting a condition changes nothing exactly if this very condition is there, its transition time included; an alike
   one is replaced, although the comment promises that it is not.
   */
  lemma {:induction false} SetChangesNothingIff(cs: seq<Condition>, c: Condition)
    requires OnePerType(cs)
    ensures SetOne(cs, c) == cs <==> c in cs
  {
    if i :| 0 <= i < |cs| && cs[i].ctype == c.ctype {
      assert SetOne(cs, c)[i] == c;
      if c in cs {
        var j :| 0 <= j < |cs| && cs[j] == c;
        assert i == j;
        assert SetOne(cs, c) == cs;
      }
    } else {
      assert |SetOne(cs, c)| == |cs| + 1;
    }
  }
}
