/** The VersionedDataset object: its specification, the status of its files and its conditions. */
module VersionedDatasets {
  import opened FilePhases
  import opened Strings
  import opened Sorting
  import opened FileStatuses
  import opened VersionFiles
  import opened VersionSync
  import C = Conditions
  import BinarySearch

  const FILE_SYNCING := "FileSyncing"

  /** A ready condition that is not true; only the first one counts. */
  predicate NotReady(cs: seq<C.Condition>)
  {
    cs != [] && if cs[0].ctype == C.TYPE_READY then cs[0].status != C.True else NotReady(cs[1..])
  }

  function SyncCondition(again: bool, now: int): C.Condition
  {
    C.Condition(C.TYPE_READY, C.False, FILE_SYNCING, if again then "file synchronization failed, try again" else "sync files.",
                now, 0)
  }

  /** The conditions when a synchronisation starts. */
  function Resync(cs: seq<C.Condition>, now: int): seq<C.Condition>
  {
    if cs == [] || NotReady(cs) then C.SetOne(cs, SyncCondition(NotReady(cs), now)) else cs
  }

  // Slots

  /** The first place at which x or a greater string stands. */
  function Place(s: seq<string>, x: string): (i: nat)
    ensures i <= |s|
  {
    if s == [] || !Less(s[0], x) then 0 else 1 + Place(s[1..], x)
  }

  lemma {:induction false} PlaceIs(s: seq<string>, x: string, i: nat)
    requires i <= |s|
    requires forall j :: 0 <= j < i ==> Less(s[j], x)
    requires i < |s| ==> !Less(s[i], x)
    ensures Place(s, x) == i
  {
    if i > 0 {
      assert Less(s[0], x);
      PlaceIs(s[1..], x, i - 1);
    }
  }

  /** Where x stands, the search finds it. */
  lemma {:induction false} PlaceOfElement(s: seq<string>, i: nat)
    requires Ascend(s) && i < |s|
    ensures Place(s, s[i]) == i
  {
    LessIrreflexive(s[i]);
    PlaceIs(s, s[i], i);
  }

  method Search(s: seq<string>, x: string) returns (i: nat)
    ensures i <= |s| && (Ascend(s) ==> i == Place(s, x))
  {
    var truth := seq(|s|, k requires 0 <= k < |s| => !Less(s[k], x));
    i := BinarySearch.Search(truth);
    if Ascend(s) {
      AscendMonotone(s, x, truth);
      assert forall j :: 0 <= j < |s| ==> truth[j] == !Less(s[j], x);
      PlaceIs(s, x, i);
    }
  }

  lemma {:induction false} AscendMonotone(s: seq<string>, x: string, truth: seq<bool>)
    requires Ascend(s) && |truth| == |s| && forall k :: 0 <= k < |s| ==> truth[k] == !Less(s[k], x)
    ensures BinarySearch.Monotone(truth)
  {
    forall i, j | 0 <= i < j < |s| && !Less(s[i], x) ensures !Less(s[j], x) {
      if Less(s[j], x) { LessTransitive(s[i], s[j], x); }
    }
  }

  // The result of one file

  datatype UpdateError = NoError | NoSource | NoFile | WrongState(from: FilePhase)

  datatype Updated = Updated(files: seq<FileStatus>, error: UpdateError)

  function Mark(d: Detail, phase: FilePhase, message: string): Detail
  {
    d.(phase := phase, error := if phase == Failed then message else d.error)
  }

  function SetAt(files: seq<FileStatus>, i: nat, k: nat, d: Detail): (r: seq<FileStatus>)
    requires i < |files| && k < |files[i].files|
    ensures |r| == |files|
  {
    files[i := files[i].(files := files[i].files[k := d])]
  }

  /** Only a file in process takes a result. */
  function UpdateAt(files: seq<FileStatus>, i: nat, k: nat, phase: FilePhase, message: string): Updated
    requires i < |files| && k < |files[i].files|
  {
    var d := files[i].files[k];
    if d.phase == Processing && (phase == Succeeded || phase == Failed) then
      Updated(SetAt(files, i, k, Mark(d, phase, message)), NoError)
    else
      Updated(files, WrongState(d.phase))
  }

  function Update(files: seq<FileStatus>, name: string, path: string, phase: FilePhase, message: string): Updated
  {
    var i := Place(Names(files), name);
    if i == |files| then Updated(files, NoSource)
    else
      var k := Place(Paths(files[i].files), path);
      if k == |files[i].files| then Updated(files, NoFile)
      else UpdateAt(files, i, k, phase, message)
  }

  /** A file that the status names is the one that is updated. */
  lemma {:induction false} UpdateHitsNamed(files: seq<FileStatus>, i: nat, k: nat, phase: FilePhase, message: string)
    requires Sorted(files) && i < |files| && k < |files[i].files|
    ensures Update(files, files[i].source.name, files[i].files[k].path, phase, message)
         == UpdateAt(files, i, k, phase, message)
  {
    PlaceOfElement(Names(files), i);
    PlaceOfElement(Paths(files[i].files), k);
  }

  lemma {:induction false} UpdateKeepsSorted(files: seq<FileStatus>, name: string, path: string, phase: FilePhase,
                                             message: string)
    requires Sorted(files)
    ensures Sorted(Update(files, name, path, phase, message).files)
  {
    var r := Update(files, name, path, phase, message).files;
    assert |r| == |files|;
    assert forall i :: 0 <= i < |files| ==> Names(r)[i] == Names(files)[i];
    assert Names(r) == Names(files);
    forall i | 0 <= i < |files| ensures Paths(r[i].files) == Paths(files[i].files) {
      assert |r[i].files| == |files[i].files|;
    }
  }

  ghost predicate Present(files: seq<FileStatus>, name: string, path: string)
  {
    exists i, k :: 0 <= i < |files| && 0 <= k < |files[i].files|
                   && files[i].source.name == name && files[i].files[k].path == path
  }

  /** The two searches end at a file of that name, and not at some other one or at none, exactly if there is one. */
  lemma {:induction false} FindsItIff(files: seq<FileStatus>, name: string, path: string)
    requires Sorted(files)
    ensures var i := Place(Names(files), name);
            (i < |files| && files[i].source.name == name
             && var k := Place(Paths(files[i].files), path);
                k < |files[i].files| && files[i].files[k].path == path)
            <==> Present(files, name, path)
  {
    if Present(files, name, path) {
      var i, k :| 0 <= i < |files| && 0 <= k < |files[i].files|
                  && files[i].source.name == name && files[i].files[k].path == path;
      PlaceOfElement(Names(files), i);
      PlaceOfElement(Paths(files[i].files), k);
    }
  }

  // The object

  lemma {:induction false} TargetIsListed(spec: VersionSpec, listing: seq<string>, items: seq<FileStatus>,
                                          inherited: FileStatus, all: seq<FileStatus>)
    requires WellNamed(spec.groups) && IsListing(spec, listing)
    requires exists namespace :: Gathered(spec.groups, SourcesOf(spec.groups), namespace, items)
    requires inherited.source == InheritedSource(spec) && inherited.kind == VERSIONED_DATASET
    requires Enumerates(inherited.files, Entries(Fresh(InheritedPaths(spec, listing))))
    requires Ascend(Paths(inherited.files)) && all == items + [inherited]
    ensures Lists(all, Target(spec, listing)) && HasKinds(spec, all) && Distinct(Names(all))
    ensures forall i :: 0 <= i < |all| ==> Ascend(Paths(all[i].files))
  {
    var namespace :| Gathered(spec.groups, SourcesOf(spec.groups), namespace, items);
    var v := ViewOn(spec.groups, SourcesOf(spec.groups));
    NoInheritedName(spec, items, v);
    ListsOneMore(items, v, inherited, Entries(Fresh(InheritedPaths(spec, listing))));
    ShapeOfItems(spec, items, namespace, inherited);
  }

  lemma {:induction false} ShapeOfItems(spec: VersionSpec, items: seq<FileStatus>, namespace: string,
                                        inherited: FileStatus)
    requires Gathered(spec.groups, SourcesOf(spec.groups), namespace, items)
    requires forall i :: 0 <= i < |items| ==> items[i].source.name != InheritedSource(spec).name
    requires inherited.source == InheritedSource(spec) && inherited.kind == VERSIONED_DATASET
    requires Ascend(Paths(inherited.files))
    ensures HasKinds(spec, items + [inherited]) && Distinct(Names(items + [inherited]))
    ensures forall i :: 0 <= i < |items + [inherited]| ==> Ascend(Paths((items + [inherited])[i].files))
  {
    DistinctNames(items, namespace, inherited);
    KindsOfItems(spec, items, inherited);
  }

  lemma {:induction false} KindsOfItems(spec: VersionSpec, items: seq<FileStatus>, inherited: FileStatus)
    requires forall i :: 0 <= i < |items| ==>
               items[i].kind == DATASOURCE && items[i].source.name != InheritedSource(spec).name
    requires inherited.source == InheritedSource(spec) && inherited.kind == VERSIONED_DATASET
    ensures HasKinds(spec, items + [inherited])
  {
  }

  lemma {:induction false} NoInheritedName(spec: VersionSpec, items: seq<FileStatus>, v: View)
    requires WellNamed(spec.groups) && Lists(items, v) && v.Keys == SourcesOf(spec.groups)
    ensures InheritedSource(spec) !in v
    ensures forall i :: 0 <= i < |items| ==> items[i].source.name != InheritedSource(spec).name
  {
    assert HasPrefix(InheritedSource(spec).name, INHERITED_FROM);
    forall s | s in v ensures s.name != InheritedSource(spec).name {
      var g :| g in spec.groups && g.source == s;
    }
  }

  lemma {:induction false} DistinctNames(items: seq<FileStatus>, namespace: string, last: FileStatus)
    requires DistinctSources(items) && forall i :: 0 <= i < |items| ==> items[i].source.namespace == namespace
    requires forall i :: 0 <= i < |items| ==> items[i].source.name != last.source.name
    ensures Distinct(Names(items + [last]))
  {
  }

  lemma {:induction false} SyncedByMerge(spec: VersionSpec, listing: seq<string>, before: seq<FileStatus>,
                                         items: seq<FileStatus>, m: Merge, after: seq<FileStatus>,
                                         deleted: seq<FileStatus>)
    requires Lists(items, Target(spec, listing)) && HasKinds(spec, items) && Distinct(Names(items))
    requires forall i :: 0 <= i < |items| ==> Ascend(Paths(items[i].files))
    requires Merged(items, |items|, ViewOf(before), m)
    requires var o := Overlay(Target(spec, listing), ViewOf(before));
             Lists(m.files, o) && Distinct(Names(m.files)) ==>
               Lists(after, o) && Ascend(Names(after)) && (forall x <- after :: x in m.files)
    requires var g := GoneInside(Target(spec, listing), ViewOf(before));
             Lists(m.deleted, g) && m.rest.Keys !! g.Keys && KeyedView(m.rest) ==> Lists(deleted, g + m.rest)
    ensures Synced(spec, listing, before, after, m.update, deleted)
  {
    MergedWhole(items, Target(spec, listing), ViewOf(before), m);
    AfterMerge(spec, items, Overlay(Target(spec, listing), ViewOf(before)), m, after);
    DeletedByMerge(Target(spec, listing), before, m, deleted);
  }

  lemma {:induction false} MergedWhole(items: seq<FileStatus>, target: View, known: View, m: Merge)
    requires Lists(items, target) && Merged(items, |items|, known, m)
    ensures SameShape(m.files, items) && Lists(m.files, Overlay(target, known)) && m.rest == known - target.Keys
    ensures (m.update <==> Adds(target, known)) && Lists(m.deleted, GoneInside(target, known))
  {
    assert items[..|items|] == items;
    ViewOfList(items, target);
  }

  lemma {:induction false} AfterMerge(spec: VersionSpec, items: seq<FileStatus>, o: View, m: Merge,
                                      after: seq<FileStatus>)
    requires HasKinds(spec, items) && Distinct(Names(items)) && SameShape(m.files, items) && Lists(m.files, o)
    requires forall i :: 0 <= i < |items| ==> Ascend(Paths(items[i].files))
    requires Distinct(Names(m.files)) ==>
               Lists(after, o) && Ascend(Names(after)) && (forall x <- after :: x in m.files)
    ensures Lists(after, o) && Sorted(after) && HasKinds(spec, after)
  {
    SameNames(m.files, items);
    ShapeKept(spec, items, m.files, after);
  }

  lemma {:induction false} DeletedByMerge(target: View, before: seq<FileStatus>, m: Merge, deleted: seq<FileStatus>)
    requires m.rest == ViewOf(before) - target.Keys && Lists(m.deleted, GoneInside(target, ViewOf(before)))
    requires var g := GoneInside(target, ViewOf(before));
             Lists(m.deleted, g) && m.rest.Keys !! g.Keys && KeyedView(m.rest) ==> Lists(deleted, g + m.rest)
    ensures Lists(deleted, Gone(target, ViewOf(before)))
  {
    ViewIsKeyed(before);
  }

  lemma {:induction false} SameNames(r: seq<FileStatus>, items: seq<FileStatus>)
    requires SameShape(r, items)
    ensures Names(r) == Names(items)
  {
  }

  lemma {:induction false} ShapeKept(spec: VersionSpec, items: seq<FileStatus>, r: seq<FileStatus>,
                                     after: seq<FileStatus>)
    requires SameShape(r, items) && HasKinds(spec, items) && forall x <- after :: x in r
    requires forall i :: 0 <= i < |items| ==> Ascend(Paths(items[i].files))
    ensures HasKinds(spec, after) && forall i :: 0 <= i < |after| ==> Ascend(Paths(after[i].files))
  {
    forall i | 0 <= i < |after|
      ensures after[i].kind == if after[i].source == InheritedSource(spec) then VERSIONED_DATASET else DATASOURCE
      ensures Ascend(Paths(after[i].files)) {
      assert after[i] in r;
    }
  }

  /** The status as it is stored, by source and path. */
  method KnownFiles(files: seq<FileStatus>) returns (known: View)
    ensures known == ViewOf(files)
  {
    known := map[];
    for n := 0 to |files|
      invariant known == ViewOf(files[..n])
    {
      assert files[..n + 1][..n] == files[..n];
      var s := files[n].source;
      var before := if s in known then known[s] else map[];
      var entries := before;
      for k := 0 to |files[n].files|
        invariant entries == before + Entries(files[n].files[..k])
      {
        assert files[n].files[..k + 1][..k] == files[n].files[..k];
        entries := entries[files[n].files[k].path := files[n].files[k]];
      }
      assert files[n].files[..|files[n].files|] == files[n].files;
      known := known[s := entries];
    }
    assert files[..|files|] == files;
  }

  class VersionedDataset {
    const spec: VersionSpec
    var deleting: bool
    var files: seq<FileStatus>
    var conditions: seq<C.Condition>

    constructor (spec: VersionSpec)
      ensures this.spec == spec && !deleting && files == [] && conditions == []
    {
      this.spec := spec;
      deleting, files, conditions := false, [], [];
    }

    /** Brings the status in line with the specification; deleted holds the files to remove from the store. */
    method CopiedFileGroup2Status(listing: seq<string>, now: int) returns (update: bool, deleted: seq<FileStatus>)
      modifies `files, `conditions
      ensures deleting ==> files == [] && !update && deleted == old(files) && conditions == old(conditions)
      ensures !deleting ==> conditions == Resync(old(conditions), now)
      ensures !deleting && WellNamed(spec.groups) && IsListing(spec, listing) ==>
                Synced(spec, listing, old(files), files, update, deleted)
    {
      if deleting {
        update, deleted := false, files;
        files := [];
      } else {
        var after;
        after, update, deleted := SyncFiles(spec, listing, files);
        StartSync(now);
        files := after;
      }
    }

    method StartSync(now: int)
      modifies `conditions
      ensures conditions == Resync(old(conditions), now)
    {
      var again := false;
      var idx := 0;
      while idx < |conditions| && conditions[idx].ctype != C.TYPE_READY
        invariant 0 <= idx <= |conditions| && conditions == old(conditions)
        invariant NotReady(conditions) == NotReady(conditions[idx..])
      {
        idx := idx + 1;
      }
      if idx < |conditions| && conditions[idx].status != C.True { again := true; }
      if conditions == [] || again { conditions := C.SetOne(conditions, SyncCondition(again, now)); }
    }

    /** Two binary searches, neither of which looks whether the place it finds bears the name. */
    method UpdateFileStatus(datasource: string, srcPath: string, syncStatus: FilePhase, message: string)
      returns (error: UpdateError)
      modifies `files
      ensures Sorted(old(files)) ==>
                Updated(files, error) == Update(old(files), datasource, srcPath, syncStatus, message)
    {
      error := NoError;
      var i := Search(Names(files), datasource);
      if i == |files| { return NoSource; }
      var k := Search(Paths(files[i].files), srcPath);
      if k == |files[i].files| { return NoFile; }
      var d := files[i].files[k];
      if d.phase == Processing && (syncStatus == Succeeded || syncStatus == Failed) {
        d := d.(phase := syncStatus);
        if syncStatus == Failed { d := d.(error := message); }
        files := SetAt(files, i, k, d);
      } else {
        error := WrongState(d.phase);
      }
    }
  }

  method SyncFiles(spec: VersionSpec, listing: seq<string>, before: seq<FileStatus>)
    returns (after: seq<FileStatus>, update: bool, deleted: seq<FileStatus>)
    ensures WellNamed(spec.groups) && IsListing(spec, listing) ==>
              Synced(spec, listing, before, after, update, deleted)
  {
    var known := KnownFiles(before);
    var sources := GenerateDatasourceFileStatus(spec.groups);
    var inherited := GenerateInheritedFileStatus(spec, listing);
    var items := sources + [inherited];
    var m := MergeSources(items, known);
    update := m.update;
    deleted := AddLeftovers(m.deleted, m.rest, GoneInside(Target(spec, listing), known));
    after := SortByName(m.files, Overlay(Target(spec, listing), known));
    if WellNamed(spec.groups) && IsListing(spec, listing) {
      TargetIsListed(spec, listing, sources, inherited, items);
      WellFormedItems(items, Target(spec, listing), before);
      SyncedByMerge(spec, listing, before, items, m, after, deleted);
    }
  }

  lemma {:induction false} WellFormedItems(items: seq<FileStatus>, v: View, before: seq<FileStatus>)
    requires Lists(items, v)
    ensures WellFormed(items, ViewOf(before))
  {
    ViewIsKeyed(before);
  }
}
