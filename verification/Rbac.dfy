/**
 The subjects of the cluster role binding: a list kept in ascending order by binary search, to which the service
 account of a namespace is added and from which it is removed again.
 */
module Rbac {
  import opened Strings
  import opened BinarySearch

  const SERVICE_ACCOUNT := "ServiceAccount"

  datatype Subject = Subject(kind: string, name: string, namespace: string)

  /** Ascending by namespace, then by name. */
  predicate Before(a: Subject, b: Subject)
  {
    Less(a.namespace, b.namespace) || (a.namespace == b.namespace && Less(a.name, b.name))
  }

  ghost predicate Ascending(s: seq<Subject>)
  {
    forall i, j :: 0 <= i < j < |s| ==> Before(s[i], s[j])
  }

  predicate Same(a: Subject, namespace: string, name: string)
  {
    a.namespace == namespace && a.name == name
  }

  function Account(namespace: string, name: string): Subject
  {
    Subject(SERVICE_ACCOUNT, name, namespace)
  }

  /** The condition that the source searches for. */
  predicate AtOrAfter(s: Subject, namespace: string, name: string)
  {
    if s.namespace == namespace then !Less(s.name, name) else Less(namespace, s.namespace)
  }

  lemma {:induction false} BeforeTransitive(a: Subject, b: Subject, c: Subject)
    requires Before(a, b) && Before(b, c)
    ensures Before(a, c)
  {
    if Less(a.namespace, b.namespace) && Less(b.namespace, c.namespace) {
      LessTransitive(a.namespace, b.namespace, c.namespace);
    }
    if Less(a.name, b.name) && Less(b.name, c.name) { LessTransitive(a.name, b.name, c.name); }
  }

  /** The search condition is: not before the account. */
  lemma {:induction false} AtOrAfterIsNotBefore(s: Subject, namespace: string, name: string)
    ensures AtOrAfter(s, namespace, name) <==> !Before(s, Account(namespace, name))
    ensures Same(s, namespace, name) ==> AtOrAfter(s, namespace, name)
    ensures AtOrAfter(s, namespace, name) && !Same(s, namespace, name) ==> Before(Account(namespace, name), s)
    ensures Before(Account(namespace, name), s) ==> !Before(s, Account(namespace, name))
  {
    LessTotal(s.namespace, namespace);
    LessTotal(s.name, name);
    LessIrreflexive(namespace);
    LessIrreflexive(name);
    if Less(s.namespace, namespace) { LessAsymmetric(s.namespace, namespace); }
    if Less(namespace, s.namespace) { LessAsymmetric(namespace, s.namespace); }
    if Less(s.name, name) { LessAsymmetric(s.name, name); }
    if Less(name, s.name) { LessAsymmetric(name, s.name); }
  }

  function Condition(s: seq<Subject>, namespace: string, name: string): (truth: seq<bool>)
  {
    seq(|s|, i requires 0 <= i < |s| => AtOrAfter(s[i], namespace, name))
  }

  lemma {:induction false} ConditionIsMonotone(s: seq<Subject>, namespace: string, name: string)
    requires Ascending(s)
    ensures Monotone(Condition(s, namespace, name))
  {
    forall i, j | 0 <= i < j < |s| && AtOrAfter(s[i], namespace, name)
      ensures AtOrAfter(s[j], namespace, name)
    {
      AtOrAfterIsNotBefore(s[i], namespace, name);
      AtOrAfterIsNotBefore(s[j], namespace, name);
      if Before(s[j], Account(namespace, name)) { BeforeTransitive(s[i], s[j], Account(namespace, name)); }
    }
  }

  /** Where the account stands or belongs. */
  function Place(s: seq<Subject>, namespace: string, name: string): (i: nat)
    ensures i <= |s|
    ensures forall j :: 0 <= j < i ==> !AtOrAfter(s[j], namespace, name)
    ensures i < |s| ==> AtOrAfter(s[i], namespace, name)
  {
    if s == [] || AtOrAfter(s[0], namespace, name) then 0 else 1 + Place(s[1..], namespace, name)
  }

  lemma {:induction false} PlaceIs(s: seq<Subject>, namespace: string, name: string, i: nat)
    requires i <= |s| && (forall j :: 0 <= j < i ==> !AtOrAfter(s[j], namespace, name))
    requires i < |s| ==> AtOrAfter(s[i], namespace, name)
    ensures Place(s, namespace, name) == i
  {
  }

  function Ensured(s: seq<Subject>, namespace: string, name: string): seq<Subject>
  {
    var i := Place(s, namespace, name);
    if i < |s| && Same(s[i], namespace, name) then s else s[..i] + [Account(namespace, name)] + s[i..]
  }

  /** Removal takes out whatever stands at the place, without looking at it. */
  function Removed(s: seq<Subject>, namespace: string, name: string): seq<Subject>
  {
    var i := Place(s, namespace, name);
    if i == |s| then s else s[..i] + s[i + 1..]
  }

  predicate Present(s: seq<Subject>, namespace: string, name: string)
  {
    exists i :: 0 <= i < |s| && Same(s[i], namespace, name)
  }

  class ClusterRoleBinding {
    var subjects: seq<Subject>

    constructor ()
      ensures subjects == []
    {
      subjects := [];
    }

    method Find(namespace: string, name: string) returns (i: nat)
      ensures i <= |subjects|
      ensures Ascending(subjects) ==> i == Place(subjects, namespace, name)
    {
      i := Search(Condition(subjects, namespace, name));
      if Ascending(subjects) {
        ConditionIsMonotone(subjects, namespace, name);
        forall j | 0 <= j < |subjects|
          ensures AtOrAfter(subjects[j], namespace, name) <==> i <= j
        {
          assert Condition(subjects, namespace, name)[j] == AtOrAfter(subjects[j], namespace, name);
        }
        PlaceIs(subjects, namespace, name, i);
      }
    }

    method EnsureRagRBAC(namespace: string, name: string)
      modifies this
      ensures Ascending(old(subjects)) ==> subjects == Ensured(old(subjects), namespace, name)
    {
      var idx := Find(namespace, name);
      if idx < |subjects| && Same(subjects[idx], namespace, name) {
        return;
      }
      subjects := subjects[..idx] + [Account(namespace, name)] + subjects[idx..];
    }

    method RemoveRagRBAC(namespace: string, name: string)
      modifies this
      ensures Ascending(old(subjects)) ==> subjects == Removed(old(subjects), namespace, name)
    {
      var idx := Find(namespace, name);
      if idx == |subjects| {
        return;
      }
      subjects := subjects[..idx] + subjects[idx + 1..];
    }
  }

  // ----- The list enumerates the live accounts

  /** Around the place, everything is strictly before or strictly after the account, except the account itself. */
  lemma {:induction false} PlaceSplits(s: seq<Subject>, namespace: string, name: string)
    requires Ascending(s)
    ensures var i := Place(s, namespace, name);
            var a := Account(namespace, name);
            && (forall j :: 0 <= j < i ==> Before(s[j], a) && !Same(s[j], namespace, name))
            && (forall j :: i < j < |s| ==> Before(a, s[j]) && !Same(s[j], namespace, name))
            && (i < |s| && !Same(s[i], namespace, name) ==> Before(a, s[i]))
            && (Present(s, namespace, name) <==> i < |s| && Same(s[i], namespace, name))
  {
    var i, a := Place(s, namespace, name), Account(namespace, name);
    ConditionIsMonotone(s, namespace, name);
    forall j | 0 <= j < |s|
      ensures j < i ==> Before(s[j], a) && !Same(s[j], namespace, name)
      ensures j > i ==> Before(a, s[j]) && !Same(s[j], namespace, name)
    {
      AtOrAfterIsNotBefore(s[j], namespace, name);
      assert Condition(s, namespace, name)[j] == AtOrAfter(s[j], namespace, name);
      if i < j {
        assert Condition(s, namespace, name)[i];
        AtOrAfterIsNotBefore(s[i], namespace, name);
      }
    }
    if i < |s| { AtOrAfterIsNotBefore(s[i], namespace, name); }
  }

  lemma {:induction false} InsertKeepsOrder(s: seq<Subject>, i: nat, a: Subject)
    requires Ascending(s) && i <= |s|
    requires forall j :: 0 <= j < i ==> Before(s[j], a)
    requires forall j :: i <= j < |s| ==> Before(a, s[j])
    ensures Ascending(s[..i] + [a] + s[i..])
  {
    var r := s[..i] + [a] + s[i..];
    assert forall j :: 0 <= j < i ==> r[j] == s[j];
    assert forall j :: i < j < |r| ==> r[j] == s[j - 1];
  }

  lemma {:induction false} InsertAddsOne(s: seq<Subject>, i: nat, a: Subject)
    requires i <= |s|
    ensures forall x :: x in s[..i] + [a] + s[i..] <==> x in s || x == a
  {
    assert s == s[..i] + s[i..];
  }

  lemma {:induction false} EnsuredKeepsOrder(s: seq<Subject>, namespace: string, name: string)
    requires Ascending(s)
    ensures Ascending(Ensured(s, namespace, name)) && Present(Ensured(s, namespace, name), namespace, name)
    ensures forall x :: x in Ensured(s, namespace, name) <==>
              x in s || (x == Subject("ServiceAccount", name, namespace) && !Present(s, namespace, name))
  {
    PlaceSplits(s, namespace, name);
    var i, r := Place(s, namespace, name), Ensured(s, namespace, name);
    assert i < |r| && Same(r[i], namespace, name);
    if !Present(s, namespace, name) {
      InsertKeepsOrder(s, i, Account(namespace, name));
      InsertAddsOne(s, i, Account(namespace, name));
    }
  }

  /** A second ensure changes nothing. */
  lemma {:induction false} EnsureTwice(s: seq<Subject>, namespace: string, name: string)
    requires Ascending(s)
    ensures Ensured(Ensured(s, namespace, name), namespace, name) == Ensured(s, namespace, name)
  {
    EnsuredKeepsOrder(s, namespace, name);
    PlaceSplits(Ensured(s, namespace, name), namespace, name);
  }

  lemma {:induction false} PlaceOfInserted(s: seq<Subject>, namespace: string, name: string, i: nat)
    requires i <= |s| && forall j :: 0 <= j < i ==> !AtOrAfter(s[j], namespace, name)
    ensures Place(s[..i] + [Account(namespace, name)] + s[i..], namespace, name) == i
  {
    var r := s[..i] + [Account(namespace, name)] + s[i..];
    AtOrAfterIsNotBefore(r[i], namespace, name);
    assert forall j :: 0 <= j < i ==> r[j] == s[j];
    PlaceIs(r, namespace, name, i);
  }

  lemma {:induction false} InsertedTakenOut(s: seq<Subject>, i: nat, a: Subject)
    requires i <= |s|
    ensures var r := s[..i] + [a] + s[i..]; r[..i] + r[i + 1..] == s
  {
  }

  /** Removing an account that was not there before it was ensured restores the list. */
  lemma {:induction false} RemoveUndoesEnsure(s: seq<Subject>, namespace: string, name: string)
    requires !Present(s, namespace, name)
    ensures Removed(Ensured(s, namespace, name), namespace, name) == s
  {
    var i := Place(s, namespace, name);
    PlaceOfInserted(s, namespace, name, i);
    InsertedTakenOut(s, i, Account(namespace, name));
  }

  /** Exactly when removal takes out the account and nothing else: the account is there, or it would belong at the
      very end. Otherwise the next subject in the list loses its permission. */
  lemma {:induction false} RemovesOnlyTheAccountIff(s: seq<Subject>, namespace: string, name: string)
    requires Ascending(s)
    ensures (forall x :: x in Removed(s, namespace, name) <==> x in s && !Same(x, namespace, name)) <==>
            Present(s, namespace, name) || (forall x :: x in s ==> Before(x, Account(namespace, name)))
  {
    PlaceSplits(s, namespace, name);
    var i, r := Place(s, namespace, name), Removed(s, namespace, name);
    if i == |s| {
      assert r == s;
    } else {
      assert s == s[..i] + [s[i]] + s[i + 1..];
      AtOrAfterIsNotBefore(s[i], namespace, name);
      assert s[i] in s;
      forall j | 0 <= j < |r|
        ensures r[j] in s && r[j] != s[i]
      {
        if j < i {
          assert r[j] == s[j] && Before(s[j], s[i]);
          BeforeIrreflexive(s[i]);
        } else {
          assert r[j] == s[j + 1] && Before(s[i], s[j + 1]);
          BeforeIrreflexive(s[i]);
        }
      }
      assert s[i] !in r;
    }
  }

  const OTHER := [Account("b", "default")]

  /** Such a list: the removal of an account that has no permission leaves the only other one without. */
  lemma {:induction false} RemovalCanHitAnother()
    ensures Ascending(OTHER) && !Present(OTHER, "a", "default") && Removed(OTHER, "a", "default") == []
  {
    assert Less("a", "b");
    PlaceIs(OTHER, "a", "default", 0);
  }

  lemma {:induction false} BeforeIrreflexive(a: Subject)
    ensures !Before(a, a)
  {
    LessIrreflexive(a.namespace);
    LessIrreflexive(a.name);
  }

  datatype Change = Ensure(namespace: string) | Remove(namespace: string)

  ghost predicate Holds(live: set<Subject>, namespace: string, name: string)
  {
    exists x :: x in live && Same(x, namespace, name)
  }

  /** The subjects that should be bound after some changes. One account name is used for all namespaces. */
  ghost function Live(start: seq<Subject>, changes: seq<Change>, name: string): set<Subject>
  {
    if changes == [] then set x | x in start
    else
      var live := Live(start, changes[..|changes| - 1], name);
      match changes[|changes| - 1]
      case Ensure(ns) => if Holds(live, ns, name) then live else live + {Account(ns, name)}
      case Remove(ns) => set x | x in live && !Same(x, ns, name)
  }

  ghost function Subjects(start: seq<Subject>, changes: seq<Change>, name: string): seq<Subject>
  {
    if changes == [] then start
    else
      match changes[|changes| - 1]
      case Ensure(ns) => Ensured(Subjects(start, changes[..|changes| - 1], name), ns, name)
      case Remove(ns) => Removed(Subjects(start, changes[..|changes| - 1], name), ns, name)
  }

  /** Only accounts that are live are removed. */
  ghost predicate RemovesLive(start: seq<Subject>, changes: seq<Change>, name: string)
  {
    changes == [] ||
    (RemovesLive(start, changes[..|changes| - 1], name) &&
     (changes[|changes| - 1].Remove? ==>
        Holds(Live(start, changes[..|changes| - 1], name), changes[|changes| - 1].namespace, name)))
  }

  /** After any changes the list is the ascending enumeration of the live subjects. */
  lemma {:induction false} ListIsLiveSet(start: seq<Subject>, changes: seq<Change>, name: string)
    requires Ascending(start) && RemovesLive(start, changes, name)
    ensures Ascending(Subjects(start, changes, name))
    ensures forall x :: x in Subjects(start, changes, name) <==> x in Live(start, changes, name)
  {
    if changes != [] {
      var before, ns := changes[..|changes| - 1], changes[|changes| - 1].namespace;
      ListIsLiveSet(start, before, name);
      var s, live := Subjects(start, before, name), Live(start, before, name);
      assert Present(s, ns, name) <==> Holds(live, ns, name) by {
        if Present(s, ns, name) {
          var i :| 0 <= i < |s| && Same(s[i], ns, name);
          assert s[i] in live;
        }
        if Holds(live, ns, name) {
          var x :| x in live && Same(x, ns, name);
          assert x in s;
        }
      }
      match changes[|changes| - 1]
      case Ensure(_) => EnsuredKeepsOrder(s, ns, name);
      case Remove(_) => RemovesOnlyTheAccountIff(s, ns, name);
    }
  }
}
