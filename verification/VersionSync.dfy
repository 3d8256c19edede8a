/**
 The synchronisation of a dataset version as it is carried out.

 The wanted files are gathered in a map from sources to paths, and an item is made for each source in the order in
 which the map is iterated. Each item is then merged with what is known of its files; what is left of the known files
 is to be deleted. The lemmas show that after any number of items the lists built so far stand for the overlay of the
 new files with the known ones, and for what is gone, for the sources so far.
 */
module VersionSync {
  import opened Strings
  import opened Sorting
  import opened FileStatuses
  import opened VersionFiles

  // Lists and views one step longer

  lemma {:induction false} EnumeratesOneMore(fs: seq<Detail>, m: Files, d: Detail)
    requires Enumerates(fs, m) && d.path !in m
    ensures Enumerates(fs + [d], m[d.path := d])
  {
    var r, n := fs + [d], m[d.path := d];
    forall p | p in n ensures exists i :: 0 <= i < |r| && r[i].path == p {
      if p != d.path {
        var i :| 0 <= i < |fs| && fs[i].path == p;
        assert r[i].path == p;
      } else {
        assert r[|fs|].path == p;
      }
    }
  }

  lemma {:induction false} ListsOneMore(ss: seq<FileStatus>, v: View, x: FileStatus, m: Files)
    requires Lists(ss, v) && x.source !in v && Enumerates(x.files, m)
    ensures Lists(ss + [x], v[x.source := m])
  {
    var r, n := ss + [x], v[x.source := m];
    forall s | s in n ensures exists i :: 0 <= i < |r| && r[i].source == s {
      if s != x.source {
        var i :| 0 <= i < |ss| && ss[i].source == s;
        assert r[i].source == s;
      } else {
        assert r[|ss|].source == s;
      }
    }
  }

  ghost predicate Keyed(m: Files)
  {
    forall p <- m :: m[p].path == p
  }

  ghost predicate KeyedView(v: View)
  {
    forall s <- v :: Keyed(v[s])
  }

  lemma {:induction false} ViewIsKeyed(ss: seq<FileStatus>)
    ensures KeyedView(ViewOf(ss))
  {
    if ss != [] {
      var n := |ss| - 1;
      ViewIsKeyed(ss[..n]);
      forall p ensures p in Entries(ss[n].files) ==> Entries(ss[n].files)[p].path == p {
        EntriesAreListed(ss[n].files, p);
      }
    }
  }

  // The files that the specification names

  ghost predicate Grouped(groups: seq<Group>, fileGroup: map<Source, seq<string>>)
  {
    && fileGroup.Keys == SourcesOf(groups)
    && (forall s <- fileGroup :: fileGroup[s] == PathsOf(groups, s))
  }

  method GroupPaths(groups: seq<Group>) returns (fileGroup: map<Source, seq<string>>)
    ensures Grouped(groups, fileGroup)
  {
    fileGroup := map[];
    for n := 0 to |groups|
      invariant Grouped(groups[..n], fileGroup)
    {
      var key := groups[n].source;
      var paths := AppendPaths(if key in fileGroup then fileGroup[key] else [], groups[n].paths);
      OneMoreGroup(groups[..n], groups[n], fileGroup);
      assert groups[..n + 1] == groups[..n] + [groups[n]];
      fileGroup := fileGroup[key := paths];
    }
    assert groups[..|groups|] == groups;
  }

  method AppendPaths(before: seq<string>, added: seq<string>) returns (paths: seq<string>)
    ensures paths == before + added
  {
    paths := before;
    for i := 0 to |added|
      invariant paths == before + added[..i]
    {
      paths := paths + [added[i]];
    }
    assert added[..|added|] == added;
  }

  lemma {:induction false} OneMoreGroup(groups: seq<Group>, g: Group, fileGroup: map<Source, seq<string>>)
    requires Grouped(groups, fileGroup)
    ensures Grouped(groups + [g], fileGroup[g.source :=
              (if g.source in fileGroup then fileGroup[g.source] else []) + g.paths])
  {
    NoPaths(groups, g.source);
    assert (groups + [g])[..|groups|] == groups;
    assert SourcesOf(groups + [g]) == SourcesOf(groups) + {g.source};
  }

  lemma {:induction false} NoPaths(groups: seq<Group>, s: Source)
    ensures s !in SourcesOf(groups) ==> PathsOf(groups, s) == []
  {
    if groups != [] {
      var n := |groups| - 1;
      NoPaths(groups[..n], s);
      assert groups[n] in groups;
      assert forall g <- groups[..n] :: g in groups;
    }
  }

  /** sort.Slice by path. */
  method SortByPath(fs: seq<Detail>) returns (r: seq<Detail>)
    ensures DistinctPaths(fs) ==> Enumerates(r, Entries(fs)) && Ascend(Paths(r))
  {
    var order := Order(Paths(fs));
    r := seq(|fs|, i requires 0 <= i < |fs| && |order| == |fs| && order[i] < |fs| => fs[order[i]]);
    if DistinctPaths(fs) { SortedByPath(fs, order, r); }
  }

  lemma {:induction false} SortedByPath(fs: seq<Detail>, order: seq<nat>, r: seq<Detail>)
    requires DistinctPaths(fs) && IsOrder(Paths(fs), |fs|, order)
    requires |r| == |fs| && forall i :: 0 <= i < |r| ==> r[i] == fs[order[i]]
    ensures Enumerates(r, Entries(fs)) && Ascend(Paths(r))
  {
    PickedAscend(Paths(fs), order);
    assert Paths(r) == Picked(Paths(fs), order);
    forall i, j | 0 <= i < j < |r| ensures r[i].path != r[j].path { assert order[i] != order[j]; }
    forall i | 0 <= i < |r| ensures r[i].path in Entries(fs) && Entries(fs)[r[i].path] == r[i] { EntryAt(fs, order[i]); }
    forall p | p in Entries(fs) ensures exists i :: 0 <= i < |r| && r[i].path == p {
      EntriesAreListed(fs, p);
      var k :| 0 <= k < |fs| && fs[k].path == p;
      assert k in order;
      var i :| 0 <= i < |order| && order[i] == k;
      assert r[i].path == p;
    }
  }

  lemma {:induction false} DistinctFresh(paths: seq<string>)
    requires Distinct(paths)
    ensures DistinctPaths(Fresh(paths))
  {
  }

  function InNamespace(items: seq<FileStatus>, namespace: string): (r: seq<FileStatus>)
    ensures |r| == |items|
    ensures forall i :: 0 <= i < |r| ==> r[i].source.namespace == namespace
  {
    seq(|items|, i requires 0 <= i < |items| => items[i].(source := Source(namespace, items[i].source.name)))
  }

  /**
   All sources of the result share one namespace variable, so each ends up with the namespace that was stored last.
   */
  method GenerateDatasourceFileStatus(groups: seq<Group>) returns (items: seq<FileStatus>)
    ensures forall i, j :: 0 <= i < j < |items| ==> items[i].source.namespace == items[j].source.namespace
    ensures WellNamed(groups) ==> exists namespace :: Gathered(groups, SourcesOf(groups), namespace, items)
  {
    var fileGroup := GroupPaths(groups);
    var rest, namespace := fileGroup.Keys, "";
    ghost var done := {};
    items := [];
    while rest != {}
      invariant rest !! done && rest + done == SourcesOf(groups) == fileGroup.Keys
      invariant WellNamed(groups) ==> Gathered(groups, done, namespace, items)
    {
      var s :| s in rest;
      var files := SortByPath(Fresh(fileGroup[s]));
      OneMoreItem(groups, done, namespace, items, s, files);
      namespace := s.namespace;
      items := items + [FileStatus(DATASOURCE, s, files)];
      rest, done := rest - {s}, done + {s};
    }
    AlreadyInNamespace(groups, done, namespace, items);
    items := InNamespace(items, namespace);
  }

  lemma {:induction false} AlreadyInNamespace(groups: seq<Group>, sources: set<Source>, namespace: string,
                                              items: seq<FileStatus>)
    ensures Gathered(groups, sources, namespace, items) ==> InNamespace(items, namespace) == items
  {
  }

  function ViewOn(groups: seq<Group>, sources: set<Source>): View
  {
    map s | s in sources :: Entries(Fresh(PathsOf(groups, s)))
  }

  /** The items of the sources so far. */
  ghost predicate Gathered(groups: seq<Group>, sources: set<Source>, namespace: string, items: seq<FileStatus>)
  {
    && Lists(items, ViewOn(groups, sources))
    && (forall i :: 0 <= i < |items| ==>
          items[i].source.namespace == namespace && items[i].kind == DATASOURCE && Ascend(Paths(items[i].files)))
  }

  lemma {:induction false} OneMoreItem(groups: seq<Group>, sources: set<Source>, namespace: string,
                                       items: seq<FileStatus>, s: Source, files: seq<Detail>)
    requires s in SourcesOf(groups) && sources <= SourcesOf(groups) && s !in sources
    requires DistinctPaths(Fresh(PathsOf(groups, s))) ==>
               Enumerates(files, Entries(Fresh(PathsOf(groups, s)))) && Ascend(Paths(files))
    ensures WellNamed(groups) && Gathered(groups, sources, namespace, items) ==>
              Gathered(groups, sources + {s}, s.namespace, items + [FileStatus(DATASOURCE, s, files)])
  {
    if WellNamed(groups) && Gathered(groups, sources, namespace, items) {
      var v := ViewOn(groups, sources);
      SourceFits(groups, s, PathsOf(groups, s));
      ListsOneMore(items, v, FileStatus(DATASOURCE, s, files), Entries(Fresh(PathsOf(groups, s))));
      SameNamespace(groups, items, v, s);
      assert v[s := Entries(Fresh(PathsOf(groups, s)))] == ViewOn(groups, sources + {s});
    }
  }

  lemma {:induction false} SourceFits(groups: seq<Group>, s: Source, paths: seq<string>)
    requires WellNamed(groups) && s in SourcesOf(groups) && paths == PathsOf(groups, s)
    ensures DistinctPaths(Fresh(paths))
  {
    var g :| g in groups && g.source == s;
    DistinctFresh(paths);
  }

  lemma {:induction false} SameNamespace(groups: seq<Group>, ss: seq<FileStatus>, v: View, s: Source)
    requires WellNamed(groups) && s in SourcesOf(groups) && v.Keys <= SourcesOf(groups) && Lists(ss, v)
    ensures forall i :: 0 <= i < |ss| ==> ss[i].source.namespace == s.namespace
  {
    var g :| g in groups && g.source == s;
    forall i | 0 <= i < |ss| ensures ss[i].source.namespace == s.namespace {
      var h :| h in groups && h.source == ss[i].source;
    }
  }

  /** The objects are sorted by their full keys and then cut. */
  method GenerateInheritedFileStatus(spec: VersionSpec, listing: seq<string>) returns (item: FileStatus)
    ensures item.source == InheritedSource(spec) && item.kind == VERSIONED_DATASET
    ensures IsListing(spec, listing) ==>
              Enumerates(item.files, Entries(Fresh(InheritedPaths(spec, listing)))) && Ascend(Paths(item.files))
  {
    var files := [];
    if spec.inheritedFrom != "" {
      var order := Order(listing);
      var keys := Picked(listing, order);
      files := Fresh(Trimmed(keys, VersionPrefix(spec.dataset, spec.inheritedFrom)));
      if IsListing(spec, listing) { TrimmedInOrder(spec, listing, order, files); }
    }
    item := FileStatus(VERSIONED_DATASET, InheritedSource(spec), files);
  }

  lemma {:induction false} TrimmedAscend(keys: seq<string>, prefix: string, i: nat, j: nat)
    requires i < |keys| && j < |keys| && HasPrefix(keys[i], prefix) && HasPrefix(keys[j], prefix)
    ensures Less(TrimPrefix(keys[i], prefix), TrimPrefix(keys[j], prefix)) <==> Less(keys[i], keys[j])
    ensures TrimPrefix(keys[i], prefix) == TrimPrefix(keys[j], prefix) <==> keys[i] == keys[j]
  {
    assert keys[i] == prefix + TrimPrefix(keys[i], prefix) && keys[j] == prefix + TrimPrefix(keys[j], prefix);
    LessAfterPrefix(prefix, TrimPrefix(keys[i], prefix), TrimPrefix(keys[j], prefix));
  }

  lemma {:induction false} TrimmedInOrder(spec: VersionSpec, listing: seq<string>, order: seq<nat>, files: seq<Detail>)
    requires IsListing(spec, listing) && spec.inheritedFrom != "" && IsOrder(listing, |listing|, order)
    requires files == Fresh(Trimmed(Picked(listing, order), VersionPrefix(spec.dataset, spec.inheritedFrom)))
    ensures Enumerates(files, Entries(Fresh(InheritedPaths(spec, listing)))) && Ascend(Paths(files))
  {
    var prefix := VersionPrefix(spec.dataset, spec.inheritedFrom);
    var fs := Fresh(InheritedPaths(spec, listing));
    forall i, j | 0 <= i < |listing| && 0 <= j < |listing|
      ensures Less(fs[i].path, fs[j].path) <==> Less(listing[i], listing[j])
      ensures fs[i].path == fs[j].path <==> listing[i] == listing[j] {
      TrimmedAscend(listing, prefix, i, j);
    }
    SortedByPath(fs, order, files);
  }

  // Old against new

  /** The files of one source so far: what is known of them, and what is left over. */
  ghost predicate Replaced(fs: seq<Detail>, n: nat, known: Files, r: seq<Detail>, rest: Files, added: bool)
  {
    && n <= |fs| && |r| == n
    && (forall j :: 0 <= j < n ==> r[j] == if fs[j].path in known then known[fs[j].path] else fs[j])
    && rest == known - Entries(fs[..n]).Keys
    && (added <==> AddsFiles(Entries(fs[..n]), known))
  }

  method MergeFiles(fs: seq<Detail>, known: Files) returns (r: seq<Detail>, rest: Files, added: bool)
    ensures DistinctPaths(fs) ==> Replaced(fs, |fs|, known, r, rest, added)
  {
    r, rest, added := [], known, false;
    for i := 0 to |fs|
      invariant DistinctPaths(fs) ==> Replaced(fs, i, known, r, rest, added)
    {
      ReplaceOne(fs, i, known, r, rest, added);
      var path := fs[i].path;
      if path in rest {
        r := r + [rest[path]];
        rest := rest - {path};
      } else {
        added := true;
        r := r + [fs[i]];
      }
    }
  }

  lemma {:induction false} ReplaceOne(fs: seq<Detail>, i: nat, known: Files, r: seq<Detail>, rest: Files, added: bool)
    requires i < |fs|
    ensures DistinctPaths(fs) && Replaced(fs, i, known, r, rest, added) ==>
              var path := fs[i].path;
              if path in rest then Replaced(fs, i + 1, known, r + [rest[path]], rest - {path}, added)
              else Replaced(fs, i + 1, known, r + [fs[i]], rest, true)
  {
    if DistinctPaths(fs) && Replaced(fs, i, known, r, rest, added) {
      assert fs[..i + 1][..i] == fs[..i];
      EntriesAreListed(fs[..i], fs[i].path);
      assert fs[i].path !in Entries(fs[..i]);
      assert Entries(fs[..i + 1]).Keys == Entries(fs[..i]).Keys + {fs[i].path};
      AddsOneMore(Entries(fs[..i]), known, fs[i]);
    }
  }

  lemma {:induction false} AddsOneMore(target: Files, known: Files, d: Detail)
    ensures AddsFiles(target[d.path := d], known) <==> AddsFiles(target, known) || d.path !in known
  {
    if p :| p in target && p !in known { assert p in target[d.path := d]; }
    if d.path !in known { assert d.path in target[d.path := d]; }
  }

  /** All files of a source: the overlay, in the order of the target, and what is gone. */
  lemma {:induction false} ReplacedAll(fs: seq<Detail>, known: Files, r: seq<Detail>, rest: Files, added: bool)
    requires DistinctPaths(fs) && Replaced(fs, |fs|, known, r, rest, added) && Keyed(known)
    ensures Enumerates(r, OverlayFiles(Entries(fs), known)) && Paths(r) == Paths(fs)
    ensures rest == GoneFiles(Entries(fs), known) && (added <==> AddsFiles(Entries(fs), known))
  {
    assert fs[..|fs|] == fs;
    forall i | 0 <= i < |fs| ensures fs[i].path in Entries(fs) && Entries(fs)[fs[i].path] == fs[i] { EntryAt(fs, i); }
    assert forall i :: 0 <= i < |fs| ==> r[i].path == fs[i].path;
    forall p | p in Entries(fs) ensures exists i :: 0 <= i < |r| && r[i].path == p {
      EntriesAreListed(fs, p);
      var i :| 0 <= i < |fs| && fs[i].path == p;
      assert r[i].path == p;
    }
  }

  /** The values of a map in the order of its iteration. */
  method Values(m: Files) returns (fs: seq<Detail>)
    ensures Keyed(m) ==> Enumerates(fs, m)
  {
    fs := [];
    var rest := m.Keys;
    ghost var done: Files := map[];
    while rest != {}
      invariant rest !! done.Keys && rest + done.Keys == m.Keys
      invariant forall p <- done :: done[p] == m[p]
      invariant Keyed(m) ==> Enumerates(fs, done)
    {
      var p :| p in rest;
      if Keyed(m) { EnumeratesOneMore(fs, done, m[p]); }
      fs := fs + [m[p]];
      done := done[p := m[p]];
      rest := rest - {p};
    }
    assert done == m;
  }

  // All sources

  ghost predicate WellFormed(items: seq<FileStatus>, known: View)
  {
    && DistinctSources(items)
    && (forall i :: 0 <= i < |items| ==> DistinctPaths(items[i].files))
    && KeyedView(known)
  }

  /** Sources, kinds and order of files are those of the items. */
  ghost predicate SameShape(r: seq<FileStatus>, items: seq<FileStatus>)
  {
    && |r| == |items|
    && (forall j :: 0 <= j < |r| ==>
          r[j].source == items[j].source && r[j].kind == items[j].kind && Paths(r[j].files) == Paths(items[j].files))
  }

  datatype Merge = Merge(files: seq<FileStatus>, rest: View, update: bool, deleted: seq<FileStatus>)

  /** The items before n are merged. */
  ghost predicate Merged(items: seq<FileStatus>, n: nat, known: View, m: Merge)
  {
    && n <= |items|
    && SameShape(m.files, items[..n])
    && Lists(m.files, Overlay(ViewOf(items[..n]), known))
    && m.rest == known - ViewOf(items[..n]).Keys
    && (m.update <==> Adds(ViewOf(items[..n]), known))
    && Lists(m.deleted, GoneInside(ViewOf(items[..n]), known))
  }

  method MergeSources(items: seq<FileStatus>, known: View) returns (m: Merge)
    ensures WellFormed(items, known) ==> Merged(items, |items|, known, m)
  {
    m := Merge([], known, false, []);
    for i := 0 to |items|
      invariant WellFormed(items, known) ==> Merged(items, i, known, m)
    {
      m := MergeSource(items, i, known, m);
    }
  }

  method MergeSource(items: seq<FileStatus>, i: nat, ghost known: View, m: Merge) returns (r: Merge)
    requires i < |items|
    ensures WellFormed(items, known) && Merged(items, i, known, m) ==> Merged(items, i + 1, known, r)
  {
    var item := items[i];
    if item.source !in m.rest {
      r := m.(files := m.files + [item], update := true);
      MergedNew(items, i, known, m);
    } else {
      var files, left, added := MergeFiles(item.files, m.rest[item.source]);
      var deleted := m.deleted;
      if left != map[] {
        var gone := Values(left);
        deleted := deleted + [FileStatus(item.kind, item.source, gone)];
      }
      r := Merge(m.files + [item.(files := files)], m.rest - {item.source}, m.update || added, deleted);
      MergedKnown(items, i, known, m, files, left, added, r);
    }
  }

  lemma {:induction false} NextView(items: seq<FileStatus>, i: nat)
    requires DistinctSources(items) && i < |items|
    ensures items[i].source !in ViewOf(items[..i])
    ensures ViewOf(items[..i + 1]) == ViewOf(items[..i])[items[i].source := Entries(items[i].files)]
  {
    ViewIsListed(items[..i], items[i].source);
    assert items[..i + 1][..i] == items[..i];
    assert map[] + Entries(items[i].files) == Entries(items[i].files);
  }

  lemma {:induction false} NextOverlay(t: View, known: View, s: Source, e: Files)
    requires s !in t
    ensures Overlay(t[s := e], known)
         == Overlay(t, known)[s := if s in known then OverlayFiles(e, known[s]) else e]
  {
  }

  lemma {:induction false} NextAdds(t: View, known: View, s: Source, e: Files)
    requires s !in t
    ensures Adds(t[s := e], known) <==> Adds(t, known) || s !in known || AddsFiles(e, known[s])
  {
    var u := t[s := e];
    if Adds(t, known) {
      var x :| x in t && (x !in known || AddsFiles(t[x], known[x]));
      assert x in u && u[x] == t[x];
    }
    assert s in u && u[s] == e;
  }

  lemma {:induction false} NextGone(t: View, known: View, s: Source, e: Files)
    requires s !in t
    ensures GoneInside(t[s := e], known)
         == if s in known && GoneFiles(e, known[s]) != map[] then GoneInside(t, known)[s := GoneFiles(e, known[s])]
            else GoneInside(t, known)
  {
  }

  lemma {:induction false} EnumeratesOwn(fs: seq<Detail>)
    requires DistinctPaths(fs)
    ensures Enumerates(fs, Entries(fs))
  {
    forall i | 0 <= i < |fs| ensures fs[i].path in Entries(fs) && Entries(fs)[fs[i].path] == fs[i] { EntryAt(fs, i); }
    forall p | p in Entries(fs) ensures exists i :: 0 <= i < |fs| && fs[i].path == p { EntriesAreListed(fs, p); }
  }

  lemma {:induction false} ShapeOneMore(r: seq<FileStatus>, items: seq<FileStatus>, i: nat, x: FileStatus)
    requires i < |items| && SameShape(r, items[..i])
    requires x.source == items[i].source && x.kind == items[i].kind && Paths(x.files) == Paths(items[i].files)
    ensures SameShape(r + [x], items[..i + 1])
  {
    assert forall j :: 0 <= j < i ==> items[..i][j] == items[..i + 1][j];
  }

  lemma {:induction false} MergedNew(items: seq<FileStatus>, i: nat, known: View, m: Merge)
    requires i < |items| && items[i].source !in m.rest
    ensures WellFormed(items, known) && Merged(items, i, known, m) ==>
              Merged(items, i + 1, known, m.(files := m.files + [items[i]], update := true))
  {
    if WellFormed(items, known) && Merged(items, i, known, m) {
      var t, s, e := ViewOf(items[..i]), items[i].source, Entries(items[i].files);
      NextView(items, i);
      NextOverlay(t, known, s, e);
      NextAdds(t, known, s, e);
      NextGone(t, known, s, e);
      EnumeratesOwn(items[i].files);
      ListsOneMore(m.files, Overlay(t, known), items[i], e);
      ShapeOneMore(m.files, items, i, items[i]);
    }
  }

  lemma {:induction false} MergedKnown(items: seq<FileStatus>, i: nat, known: View, m: Merge, files: seq<Detail>,
                                       left: Files, added: bool, r: Merge)
    requires i < |items| && items[i].source in m.rest
    requires DistinctPaths(items[i].files) ==>
               Replaced(items[i].files, |items[i].files|, m.rest[items[i].source], files, left, added)
    requires r.files == m.files + [items[i].(files := files)]
    requires r.rest == m.rest - {items[i].source} && r.update == (m.update || added)
    requires if left == map[] then r.deleted == m.deleted
             else exists gone :: (Keyed(left) ==> Enumerates(gone, left))
                                 && r.deleted == m.deleted + [FileStatus(items[i].kind, items[i].source, gone)]
    ensures WellFormed(items, known) && Merged(items, i, known, m) ==> Merged(items, i + 1, known, r)
  {
    if WellFormed(items, known) && Merged(items, i, known, m) {
      var t, x, e := ViewOf(items[..i]), items[i], Entries(items[i].files);
      assert m.rest[x.source] == known[x.source] && Keyed(known[x.source]);
      ReplacedAll(x.files, known[x.source], files, left, added);
      NextView(items, i);
      MergedOneMore(t, known, m, x, e, files, left, added, r);
      ShapeOneMore(m.files, items, i, x.(files := files));
    }
  }

  lemma {:induction false} MergedOneMore(t: View, known: View, m: Merge, x: FileStatus, e: Files, files: seq<Detail>,
                                         left: Files, added: bool, r: Merge)
    requires x.source !in t && x.source in known && Keyed(known[x.source])
    requires Lists(m.files, Overlay(t, known)) && Lists(m.deleted, GoneInside(t, known))
    requires m.rest == known - t.Keys && (m.update <==> Adds(t, known))
    requires Enumerates(files, OverlayFiles(e, known[x.source]))
    requires left == GoneFiles(e, known[x.source]) && (added <==> AddsFiles(e, known[x.source]))
    requires r.files == m.files + [x.(files := files)]
    requires r.rest == m.rest - {x.source} && r.update == (m.update || added)
    requires if left == map[] then r.deleted == m.deleted
             else exists gone :: (Keyed(left) ==> Enumerates(gone, left))
                                 && r.deleted == m.deleted + [FileStatus(x.kind, x.source, gone)]
    ensures Lists(r.files, Overlay(t[x.source := e], known))
    ensures Lists(r.deleted, GoneInside(t[x.source := e], known))
    ensures r.rest == known - t[x.source := e].Keys && (r.update <==> Adds(t[x.source := e], known))
  {
    FilesOneMore(m.files, t, known, x.(files := files), e);
    DeletedOneMore(m.deleted, t, known, x, e, r.deleted);
    NextAdds(t, known, x.source, e);
  }

  lemma {:induction false} FilesOneMore(ss: seq<FileStatus>, t: View, known: View, x: FileStatus, e: Files)
    requires x.source !in t && x.source in known && Lists(ss, Overlay(t, known))
    requires Enumerates(x.files, OverlayFiles(e, known[x.source]))
    ensures Lists(ss + [x], Overlay(t[x.source := e], known))
  {
    NextOverlay(t, known, x.source, e);
    ListsOneMore(ss, Overlay(t, known), x, OverlayFiles(e, known[x.source]));
  }

  lemma {:induction false} DeletedOneMore(deleted: seq<FileStatus>, t: View, known: View, item: FileStatus, e: Files,
                                          r: seq<FileStatus>)
    requires item.source !in t && item.source in known && Keyed(known[item.source])
    requires Lists(deleted, GoneInside(t, known))
    requires var left := GoneFiles(e, known[item.source]);
             if left == map[] then r == deleted
             else exists gone :: (Keyed(left) ==> Enumerates(gone, left))
                                 && r == deleted + [FileStatus(item.kind, item.source, gone)]
    ensures Lists(r, GoneInside(t[item.source := e], known))
  {
    var left := GoneFiles(e, known[item.source]);
    NextGone(t, known, item.source, e);
    if left != map[] {
      var gone :| (Keyed(left) ==> Enumerates(gone, left)) && r == deleted + [FileStatus(item.kind, item.source, gone)];
      ListsOneMore(deleted, GoneInside(t, known), FileStatus(item.kind, item.source, gone), left);
    }
  }

  /** Sources that the target does not name at all are deleted whole. */
  method AddLeftovers(deleted: seq<FileStatus>, rest: View, ghost v: View) returns (r: seq<FileStatus>)
    ensures Lists(deleted, v) && rest.Keys !! v.Keys && KeyedView(rest) ==> Lists(r, v + rest)
  {
    r := deleted;
    var left := rest;
    ghost var done := v;
    assert KeyedView(rest) && rest.Keys !! v.Keys ==> Leftover(done, left, v + rest);
    while left != map[]
      invariant Lists(deleted, v) && rest.Keys !! v.Keys && KeyedView(rest) ==>
                  Lists(r, done) && Leftover(done, left, v + rest)
      decreases left.Keys
    {
      var s :| s in left;
      var gone := Values(left[s]);
      LeftoverOne(r, done, left, v + rest, s, gone);
      r := r + [FileStatus("", s, gone)];
      done := done[s := left[s]];
      left := left - {s};
    }
  }

  ghost predicate Leftover(done: View, left: View, all: View)
  {
    done.Keys !! left.Keys && done + left == all && KeyedView(left)
  }

  lemma {:induction false} LeftoverOne(r: seq<FileStatus>, done: View, left: View, all: View, s: Source,
                                       gone: seq<Detail>)
    requires s in left && (Keyed(left[s]) ==> Enumerates(gone, left[s]))
    ensures Lists(r, done) && Leftover(done, left, all) ==>
              Lists(r + [FileStatus("", s, gone)], done[s := left[s]])
              && Leftover(done[s := left[s]], left - {s}, all)
  {
    if Lists(r, done) && Leftover(done, left, all) {
      ListsOneMore(r, done, FileStatus("", s, gone), left[s]);
      assert done[s := left[s]] + (left - {s}) == done + left;
    }
  }

  // The synchronisation of the status

  /** sort.Slice by the name of the source. */
  method SortByName(ss: seq<FileStatus>, ghost v: View) returns (r: seq<FileStatus>)
    ensures Lists(ss, v) && Distinct(Names(ss)) ==> Lists(r, v) && Ascend(Names(r)) && (forall x <- r :: x in ss)
  {
    var order := Order(Names(ss));
    r := seq(|ss|, i requires 0 <= i < |ss| && |order| == |ss| && order[i] < |ss| => ss[order[i]]);
    if Lists(ss, v) && Distinct(Names(ss)) { SortedByName(ss, v, order, r); }
  }

  lemma {:induction false} SortedByName(ss: seq<FileStatus>, v: View, order: seq<nat>, r: seq<FileStatus>)
    requires Lists(ss, v) && Distinct(Names(ss)) && IsOrder(Names(ss), |ss|, order)
    requires |r| == |ss| && forall i :: 0 <= i < |r| ==> r[i] == ss[order[i]]
    ensures Lists(r, v) && Ascend(Names(r)) && (forall x <- r :: x in ss)
  {
    PickedAscend(Names(ss), order);
    assert Names(r) == Picked(Names(ss), order);
    SortedLists(ss, v, order, r);
  }

  lemma {:induction false} SortedLists(ss: seq<FileStatus>, v: View, order: seq<nat>, r: seq<FileStatus>)
    requires Lists(ss, v) && Distinct(Names(ss)) && IsOrder(Names(ss), |ss|, order)
    requires |r| == |ss| && forall i :: 0 <= i < |r| ==> r[i] == ss[order[i]]
    ensures Lists(r, v)
  {
    forall i, j | 0 <= i < j < |r| ensures r[i].source != r[j].source { assert Names(ss)[order[i]] != Names(ss)[order[j]]; }
    forall s | s in v ensures exists i :: 0 <= i < |r| && r[i].source == s {
      var k := PlaceOf(ss, v, s);
      assert k in order;
      var i :| 0 <= i < |order| && order[i] == k;
      assert r[i].source == s;
    }
  }
}
