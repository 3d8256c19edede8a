/** What becomes of the single entries when the status is brought in line with the specification. */
module KnowledgeBaseEntries {
  import opened Options
  import opened FilePhases
  import opened KnowledgeBase

  lemma {:induction false} FindFileAt(ds: seq<Detail>, j: nat)
    requires j < |ds| && forall a, b :: 0 <= a < b < |ds| ==> ds[a].path != ds[b].path
    ensures FindFile(ds, ds[j].path) == Some(ds[j])
  {
    if j < |ds| - 1 {
      assert ds[..|ds| - 1][j] == ds[j];
      FindFileAt(ds[..|ds| - 1], j);
    }
  }

  lemma {:induction false} FindAt(details: seq<GroupDetail>, ns: string, i: nat, j: nat)
    requires i < |details| && j < |details[i].files|
    requires forall a, b :: 0 <= a < b < |details| ==> KeyOf(details[a].source, ns) != KeyOf(details[b].source, ns)
    requires forall a, b :: 0 <= a < b < |details[i].files| ==> details[i].files[a].path != details[i].files[b].path
    ensures Find(details, ns, KeyOf(details[i].source, ns), details[i].files[j].path) == Some(details[i].files[j])
  {
    if i == |details| - 1 {
      FindFileAt(details[i].files, j);
    } else {
      FindAt(details[..|details| - 1], ns, i, j);
    }
  }

  /** The namespace of a source: its own, or that of the knowledge base. */
  predicate LiesIn(s: Source, ns: string, namespace: string)
  {
    s.namespace == Some(namespace) || (s.namespace == None && namespace == ns)
  }

  /** Two sources are one exactly if their kinds, their names and their namespaces are. */
  lemma {:induction false} SameSourceIff(a: Source, b: Source, ns: string)
    ensures KeyOf(a, ns) == KeyOf(b, ns)
            <==> a.kind == b.kind && a.name == b.name && exists n :: LiesIn(a, ns, n) && LiesIn(b, ns, n)
  {
    var n := if a.namespace.Some? then a.namespace.value else ns;
    assert LiesIn(a, ns, n);
  }

  /** No two groups of the status have one source, and none has two entries for one path. */
  ghost predicate DistinctStatus(was: seq<GroupDetail>, ns: string)
  {
    && (forall a, b :: 0 <= a < b < |was| ==> KeyOf(was[a].source, ns) != KeyOf(was[b].source, ns))
    && (forall i, a, b :: 0 <= i < |was| && 0 <= a < b < |was[i].files| ==> was[i].files[a].path != was[i].files[b].path)
  }

  /** The status has the entry d for this path under this source. */
  ghost predicate Knows(was: seq<GroupDetail>, ns: string, key: Key, path: string, d: Detail)
  {
    exists k, l :: 0 <= k < |was| && 0 <= l < |was[k].files|
                   && KeyOf(was[k].source, ns) == key && was[k].files[l] == d && d.path == path
  }

  /** Known at the version asked for: untouched. Known at another one: to be processed again, with what is known. */
  ghost predicate CarriesKnown(f: FileSpec, d: Detail, e: Detail)
  {
    if d.version == f.version then e == d
    else
      && e.phase == Processing && e.version == f.version
      && e == Detail(d.path, d.ftype, d.count, d.size, d.checksum, d.timeCost, e.phase, d.errMessage, e.version)
  }

  predicate IsNew(f: FileSpec, e: Detail)
  {
    e == Detail(f.path, "", "", "", "", 0, Pending, "", f.version)
  }

  ghost predicate CarriesFile(was: seq<GroupDetail>, ns: string, key: Key, f: FileSpec, e: Detail)
  {
    && (forall d :: Knows(was, ns, key, f.path, d) ==> CarriesKnown(f, d, e))
    && ((forall d :: !Knows(was, ns, key, f.path, d)) ==> IsNew(f, e))
  }

  /** The list has the groups and files of the specification, in order, each with what the status knows of it. */
  ghost predicate Carries(groups: seq<Group>, ns: string, was: seq<GroupDetail>, details: seq<GroupDetail>)
  {
    var gs := Sourced(groups);
    && |details| == |gs|
    && (forall i :: 0 <= i < |gs| ==> gs[i].source == Some(details[i].source) && |details[i].files| == |gs[i].files|)
    && (forall i, j :: 0 <= i < |gs| && 0 <= j < |gs[i].files| ==>
          CarriesFile(was, ns, GroupKey(gs[i], ns), gs[i].files[j], details[i].files[j]))
  }

  lemma {:induction false} EntryCarries(was: seq<GroupDetail>, ns: string, key: Key, f: FileSpec)
    requires DistinctStatus(was, ns)
    ensures CarriesFile(was, ns, key, f, Entry(f, Find(was, ns, key, f.path)))
  {
    var found := Find(was, ns, key, f.path);
    forall d | Knows(was, ns, key, f.path, d) ensures found == Some(d) {
      var k, l :| 0 <= k < |was| && 0 <= l < |was[k].files|
                  && KeyOf(was[k].source, ns) == key && was[k].files[l] == d && d.path == f.path;
      FindAt(was, ns, k, l);
    }
    if found.Some? {
      var g :| g in was && KeyOf(g.source, ns) == key && found.value in g.files && found.value.path == f.path;
      var k :| 0 <= k < |was| && was[k] == g;
      var l :| 0 <= l < |was[k].files| && was[k].files[l] == found.value;
      assert Knows(was, ns, key, f.path, found.value);
    }
  }

  lemma {:induction false} RebuildCarries(groups: seq<Group>, ns: string, was: seq<GroupDetail>)
    requires DistinctStatus(was, ns)
    ensures Carries(groups, ns, was, Rebuild(groups, ns, was))
  {
    var gs, r := Sourced(groups), Rebuild(groups, ns, was);
    forall i, j | 0 <= i < |gs| && 0 <= j < |gs[i].files|
      ensures CarriesFile(was, ns, GroupKey(gs[i], ns), gs[i].files[j], r[i].files[j]) {
      EntryCarries(was, ns, GroupKey(gs[i], ns), gs[i].files[j]);
    }
  }
}
