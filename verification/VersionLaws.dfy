/** What a synchronisation makes of the files that a version asks for, source by source and path by path. */
module VersionLaws {
  import opened FilePhases
  import opened Strings
  import opened Sorting
  import opened FileStatuses
  import opened VersionFiles
  import opened VersionedDatasets
  import opened Executor
  import opened CopyRuns
  import opened CopyJobs
  import C = Conditions

  predicate Has(v: View, s: Source, p: string)
  {
    s in v && p in v[s]
  }

  /** A group of the specification asks for the file. */
  ghost predicate AsksFor(spec: VersionSpec, s: Source, p: string)
  {
    exists g :: g in spec.groups && g.source == s && p in g.paths
  }

  /** The file lies in the version inherited from, and goes under the name of that version. */
  ghost predicate Inherits(spec: VersionSpec, listing: seq<string>, s: Source, p: string)
  {
    && spec.inheritedFrom != ""
    && s == Source(spec.namespace, "inheritfrom-" + spec.inheritedFrom)
    && exists key :: key in listing && key == "dataset/" + spec.dataset + "/" + spec.inheritedFrom + "/" + p
  }

  lemma {:induction false} PathsOfIff(groups: seq<Group>, s: Source, p: string)
    ensures p in PathsOf(groups, s) <==> exists g :: g in groups && g.source == s && p in g.paths
  {
    if groups != [] {
      var n := |groups| - 1;
      PathsOfIff(groups[..n], s, p);
      assert groups == groups[..n] + [groups[n]];
    }
  }

  lemma {:induction false} FreshHas(paths: seq<string>, p: string)
    ensures p in Entries(Fresh(paths)) <==> p in paths
  {
    EntriesAreListed(Fresh(paths), p);
    if p in paths {
      var i :| 0 <= i < |paths| && paths[i] == p;
      assert Fresh(paths)[i].path == p;
    }
  }

  lemma {:induction false} InheritedIff(spec: VersionSpec, listing: seq<string>, p: string)
    requires IsListing(spec, listing)
    ensures p in InheritedPaths(spec, listing) <==> Inherits(spec, listing, InheritedSource(spec), p)
  {
    if spec.inheritedFrom != "" {
      var prefix := VersionPrefix(spec.dataset, spec.inheritedFrom);
      assert prefix + p == "dataset/" + spec.dataset + "/" + spec.inheritedFrom + "/" + p;
      if p in InheritedPaths(spec, listing) {
        var i :| 0 <= i < |listing| && InheritedPaths(spec, listing)[i] == p;
        assert listing[i] in listing && listing[i] == prefix + p;
      }
      if prefix + p in listing {
        var i :| 0 <= i < |listing| && listing[i] == prefix + p;
        assert InheritedPaths(spec, listing)[i] == p;
      }
    }
  }

  lemma {:induction false} TargetIff(spec: VersionSpec, listing: seq<string>, s: Source, p: string)
    requires WellNamed(spec.groups) && IsListing(spec, listing)
    ensures Has(Target(spec, listing), s, p) <==> AsksFor(spec, s, p) || Inherits(spec, listing, s, p)
  {
    PathsOfIff(spec.groups, s, p);
    FreshHas(PathsOf(spec.groups, s), p);
    FreshHas(InheritedPaths(spec, listing), p);
    InheritedIff(spec, listing, p);
    assert HasPrefix(InheritedSource(spec).name, INHERITED_FROM);
  }

  /**
   After a synchronisation the status has exactly the files that a group asks for or that are inherited; the files to
   delete are exactly the known ones that are neither.
   */
  lemma {:induction false} SyncedFilesIff(spec: VersionSpec, listing: seq<string>, before: seq<FileStatus>,
                                          after: seq<FileStatus>, update: bool, deleted: seq<FileStatus>,
                                          s: Source, p: string)
    requires Synced(spec, listing, before, after, update, deleted)
    requires WellNamed(spec.groups) && IsListing(spec, listing)
    ensures Has(ViewOf(after), s, p) <==> AsksFor(spec, s, p) || Inherits(spec, listing, s, p)
    ensures Has(ViewOf(deleted), s, p)
            <==> Has(ViewOf(before), s, p) && !AsksFor(spec, s, p) && !Inherits(spec, listing, s, p)
  {
    ViewOfList(after, Overlay(Target(spec, listing), ViewOf(before)));
    ViewOfList(deleted, Gone(Target(spec, listing), ViewOf(before)));
    TargetIff(spec, listing, s, p);
    SplitsKnown(Target(spec, listing), ViewOf(before), s, p);
  }

  lemma {:induction false} SplitsKnown(target: View, known: View, s: Source, p: string)
    ensures Has(Overlay(target, known), s, p) <==> Has(target, s, p)
    ensures Has(Gone(target, known), s, p) <==> Has(known, s, p) && !Has(target, s, p)
  {
    if s in target && s in known {
      assert p in GoneFiles(target[s], known[s]) <==> p in known[s] && p !in target[s];
    }
  }

  /** The update is reported exactly if the status got a source or a file that it did not have. */
  lemma {:induction false} UpdateIff(spec: VersionSpec, listing: seq<string>, before: seq<FileStatus>,
                                     after: seq<FileStatus>, update: bool, deleted: seq<FileStatus>)
    requires Synced(spec, listing, before, after, update, deleted)
    ensures update <==> exists s :: s in ViewOf(after)
                                    && (s !in ViewOf(before) || exists p :: p in ViewOf(after)[s] && p !in ViewOf(before)[s])
  {
    var t := Target(spec, listing);
    ViewOfList(after, Overlay(t, ViewOf(before)));
    assert forall s :: s in t && s in ViewOf(before) ==> Overlay(t, ViewOf(before))[s].Keys == t[s].Keys;
  }

  // The entry of one result

  /** The path of a file that the status has takes success or failure while it is in process, and refuses all else. */
  lemma {:induction false} ResultIsTakenIff(files: seq<FileStatus>, i: nat, k: nat, phase: FilePhase, message: string)
    requires Sorted(files) && i < |files| && k < |files[i].files|
    ensures var d := files[i].files[k];
            var r := Update(files, files[i].source.name, d.path, phase, message);
            if d.phase == Processing && phase == Succeeded then
              r == Updated(SetAt(files, i, k, Detail(d.path, Succeeded, d.error)), NoError)
            else if d.phase == Processing && phase == Failed then
              r == Updated(SetAt(files, i, k, Detail(d.path, Failed, message)), NoError)
            else r == Updated(files, WrongState(d.phase))
  {
    UpdateHitsNamed(files, i, k, phase, message);
  }

  /** The source is not found exactly if all names are smaller, and the file exactly if all paths of the source found are. */
  lemma {:induction false} NotFoundIff(files: seq<FileStatus>, name: string, path: string, phase: FilePhase, message: string)
    requires Sorted(files)
    ensures var r := Update(files, name, path, phase, message);
            && (r.error == NoSource <==> forall i :: 0 <= i < |files| ==> Less(files[i].source.name, name))
            && (r.error == NoFile <==>
                  exists i :: 0 <= i < |files| && !Less(files[i].source.name, name)
                              && (forall j :: 0 <= j < i ==> Less(files[j].source.name, name))
                              && (forall k :: 0 <= k < |files[i].files| ==> Less(files[i].files[k].path, path)))
            && (r.error == NoSource || r.error == NoFile ==> r.files == files)
  {
    SourcePlaceIff(files, name, Place(Names(files), name));
    if Place(Names(files), name) < |files| {
      FilePlaceIff(files[Place(Names(files), name)].files, path);
    }
  }

  lemma {:induction false} SourcePlaceIff(files: seq<FileStatus>, name: string, p: nat)
    requires p == Place(Names(files), name)
    ensures p <= |files| && forall j :: 0 <= j < p ==> Less(files[j].source.name, name)
    ensures p < |files| ==> !Less(files[p].source.name, name)
  {
    PlaceBounds(Names(files), name);
    assert forall j :: 0 <= j < |files| ==> Names(files)[j] == files[j].source.name;
  }

  lemma {:induction false} FilePlaceIff(fs: seq<Detail>, path: string)
    ensures Place(Paths(fs), path) == |fs| <==> forall k :: 0 <= k < |fs| ==> Less(fs[k].path, path)
  {
    PlaceBounds(Paths(fs), path);
    assert forall k :: 0 <= k < |fs| ==> Paths(fs)[k] == fs[k].path;
  }

  // The condition of a synchronisation

  ghost predicate IsUnready(cs: seq<C.Condition>)
  {
    exists i :: 0 <= i < |cs| && cs[i].ctype == "Ready" && cs[i].status != C.True
  }

  lemma {:induction false} NotReadyIff(cs: seq<C.Condition>)
    requires C.OnePerType(cs)
    ensures NotReady(cs) <==> IsUnready(cs)
  {
    if cs != [] {
      if cs[0].ctype == "Ready" {
        assert cs[0].status != C.True ==> IsUnready(cs);
      } else {
        NotReadyIff(cs[1..]);
        if i :| 0 <= i < |cs| && cs[i].ctype == "Ready" && cs[i].status != C.True { assert cs[1..][i - 1] == cs[i]; }
        if IsUnready(cs[1..]) {
          var i :| 0 <= i < |cs[1..]| && cs[1..][i].ctype == "Ready" && cs[1..][i].status != C.True;
          assert cs[i + 1] == cs[1..][i];
        }
      }
    }
  }

  function Retrying(now: int): C.Condition
  {
    C.Condition("Ready", C.False, "FileSyncing", "file synchronization failed, try again", now, 0)
  }

  /**
   A synchronisation is announced as such on a status without conditions, and as another try on one that is not ready.
   Otherwise, and in all conditions of other types, nothing changes; whether the version is ready never does.
   */
  lemma {:induction false} SyncIsAnnounced(cs: seq<C.Condition>, now: int, t: string)
    requires C.OnePerType(cs)
    ensures var r := Resync(cs, now);
            && C.OnePerType(r) && (C.IsReady(r) <==> C.IsReady(cs))
            && (cs == [] ==> r == [C.Condition("Ready", C.False, "FileSyncing", "sync files.", now, 0)])
            && (IsUnready(cs) ==> C.GetCondition(r, "Ready") == Retrying(now))
            && (cs != [] && !IsUnready(cs) ==> r == cs)
            && (t != "Ready" ==> C.GetCondition(r, t) == C.GetCondition(cs, t))
  {
    NotReadyIff(cs);
    if IsUnready(cs) {
      var i :| 0 <= i < |cs| && cs[i].ctype == "Ready" && cs[i].status != C.True;
      C.InAsMap(cs, i);
    }
    C.SetOneIsPut(cs, SyncCondition(NotReady(cs), now));
    C.GetIsLookup(cs, "Ready");
    C.GetIsLookup(cs, t);
    C.GetIsLookup(Resync(cs, now), "Ready");
    C.GetIsLookup(Resync(cs, now), t);
  }

  // A removal that hits a file that is kept

  const KEPT := Source("ns", "d2")
  const DROPPED := Source("ns", "d1")
  const COPIED := [Detail("a", Succeeded, "")]

  /** A version of one dataset, from which the first of two sources has been taken, both with a file of one name. */
  const NARROWED := VersionSpec("ns", "ds", "v", "", [Group(KEPT, ["a"])])
  const WIDE := [FileStatus(DATASOURCE, DROPPED, COPIED), FileStatus(DATASOURCE, KEPT, COPIED)]
  const NARROW := [FileStatus(DATASOURCE, KEPT, COPIED), FileStatus(VERSIONED_DATASET, Source("ns", "inheritfrom-v"), [])]
  const TO_DELETE := [FileStatus("", DROPPED, COPIED)]

  const INHERITED := Source("ns", "inheritfrom-v")

  lemma {:induction false} ThreeSources()
    ensures KEPT != DROPPED && KEPT != INHERITED && DROPPED != INHERITED && InheritedSource(NARROWED) == INHERITED
  {
    assert "d1"[1] != "d2"[1] && |"d2"| != |"inheritfrom-v"| && |"d1"| != |"inheritfrom-v"|;
  }

  lemma {:induction false} OneFile(d: Detail)
    ensures Entries([d]) == map[d.path := d] && Enumerates([d], map[d.path := d])
  {
    assert [d][..0] == [];
  }

  lemma {:induction false} ViewOfTwo(a: FileStatus, b: FileStatus)
    requires a.source != b.source
    ensures ViewOf([a, b]) == map[a.source := Entries(a.files), b.source := Entries(b.files)]
  {
    assert [a, b][..1] == [a] && [a][..0] == [];
    var none: Files := map[];
    assert none + Entries(a.files) == Entries(a.files) && none + Entries(b.files) == Entries(b.files);
    assert ViewOf([]) == map[];
    assert ViewOf([a]) == map[a.source := Entries(a.files)];
  }

  lemma {:induction false} ListsTwo(a: FileStatus, b: FileStatus, v: View)
    requires a.source != b.source && v.Keys == {a.source, b.source}
    requires Enumerates(a.files, v[a.source]) && Enumerates(b.files, v[b.source])
    ensures Lists([a, b], v)
  {
    assert [a, b][0].source == a.source && [a, b][1].source == b.source;
  }

  lemma {:induction false} ListsOne(a: FileStatus, v: View)
    requires v.Keys == {a.source} && Enumerates(a.files, v[a.source])
    ensures Lists([a], v)
  {
    assert [a][0].source == a.source;
  }

  lemma {:induction false} NarrowedTarget()
    ensures Target(NARROWED, []) == map[KEPT := map["a" := Detail("a", Processing, "")], INHERITED := map[]]
  {
    ThreeSources();
    assert Fresh(["a"]) == [Detail("a", Processing, "")];
    OneFile(Detail("a", Processing, ""));
    assert NARROWED.groups[..0] == [];
    assert PathsOf(NARROWED.groups, KEPT) == ["a"];
    assert SourcesOf(NARROWED.groups) == {KEPT};
    assert Fresh([]) == [];
  }

  lemma {:induction false} NarrowedOverlay(copied: Files, target: View, known: View)
    requires target == map[KEPT := map["a" := Detail("a", Processing, "")], INHERITED := map[]]
    requires known == map[DROPPED := copied, KEPT := copied] && copied == map["a" := Detail("a", Succeeded, "")]
    ensures Overlay(target, known) == map[KEPT := copied, INHERITED := map[]]
    ensures Gone(target, known) == map[DROPPED := copied]
    ensures Adds(target, known)
  {
    ThreeSources();
    assert OverlayFiles(target[KEPT], copied) == copied;
    assert GoneFiles(target[KEPT], copied) == map[];
    assert GoneInside(target, known) == map[];
    assert known - target.Keys == map[DROPPED := copied];
    assert INHERITED in target && INHERITED !in known;
  }

  lemma {:induction false} NarrowIsSorted()
    ensures Sorted(NARROW) && HasKinds(NARROWED, NARROW)
  {
    ThreeSources();
    assert Less("d2", "inheritfrom-v");
    assert Names(NARROW) == ["d2", "inheritfrom-v"];
  }

  lemma {:induction false} NarrowedIsSynced()
    ensures Synced(NARROWED, [], WIDE, NARROW, true, TO_DELETE)
  {
    ThreeSources();
    NarrowedTarget();
    OneFile(Detail("a", Succeeded, ""));
    ViewOfTwo(WIDE[0], WIDE[1]);
    NarrowedOverlay(Entries(COPIED), Target(NARROWED, []), ViewOf(WIDE));
    NarrowedLists(Entries(COPIED));
    NarrowIsSorted();
  }

  lemma {:induction false} NarrowedLists(copied: Files)
    requires Enumerates(COPIED, copied)
    ensures Lists(NARROW, map[KEPT := copied, INHERITED := map[]]) && Lists(TO_DELETE, map[DROPPED := copied])
  {
    ThreeSources();
    ListsTwo(NARROW[0], NARROW[1], map[KEPT := copied, INHERITED := map[]]);
    ListsOne(TO_DELETE[0], map[DROPPED := copied]);
  }

  /**
   The destination of a job does not tell the sources apart. So a synchronisation can hand out a file whose removal
   deletes the object of a file that is kept as succeeded, and is not copied again.
   */
  lemma {:induction false} RemovalCanHitKept()
    ensures WellNamed(NARROWED.groups) && Synced(NARROWED, [], WIDE, NARROW, true, TO_DELETE)
    ensures JobAt(NARROWED, TO_DELETE, Slot(0, 0), true).dst == JobAt(NARROWED, NARROW, Slot(0, 0), false).dst
    ensures DetailAt(NARROW, Slot(0, 0)).phase == Succeeded && !GetsJob(NARROW, Slot(0, 0), false)
  {
    NarrowedIsSynced();
    NarrowedIsNamed();
    RemovesCopyIff(NARROWED, TO_DELETE, Slot(0, 0), NARROW, Slot(0, 0));
  }

  lemma {:induction false} NarrowedIsNamed()
    ensures WellNamed(NARROWED.groups)
  {
    assert NARROWED.groups[..0] == [];
    assert PathsOf(NARROWED.groups, KEPT) == ["a"];
    assert |KEPT.name| < |INHERITED_FROM|;
  }

  /**
   When no file handed out and no file kept stand for one object, no removal hits a file that is kept, and only then:
   that is, exactly if no path of a dropped file, without its leading slash, is that of a kept one.
   */
  lemma {:induction false} RemovalsSpareKeptIff(spec: VersionSpec, after: seq<FileStatus>, deleted: seq<FileStatus>)
    ensures (forall slot, kept :: IsSlot(deleted, slot) && IsSlot(after, kept) ==>
               JobAt(spec, deleted, slot, true).dst != JobAt(spec, after, kept, false).dst)
            <==> (forall slot, kept :: IsSlot(deleted, slot) && IsSlot(after, kept) ==>
               Cut(DetailAt(deleted, slot).path) != Cut(DetailAt(after, kept).path))
  {
    forall slot, kept | IsSlot(deleted, slot) && IsSlot(after, kept)
      ensures JobAt(spec, deleted, slot, true).dst == JobAt(spec, after, kept, false).dst
              <==> Cut(DetailAt(deleted, slot).path) == Cut(DetailAt(after, kept).path) {
      RemovesCopyIff(spec, deleted, slot, after, kept);
    }
  }
}
