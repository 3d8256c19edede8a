/** The files of a version of a dataset, as the specification asks for them and as the status has them. */
module VersionFiles {
  import opened FilePhases
  import opened Strings
  import opened Sorting
  import opened FileStatuses

  const INHERITED_FROM := "inheritfrom-"
  const DATASOURCE := "Datasource"
  const VERSIONED_DATASET := "VersionedDataset"

  /** The files of one entry of the specification; the namespace of the source is filled in. */
  datatype Group = Group(source: Source, paths: seq<string>)

  datatype VersionSpec = VersionSpec(namespace: string, dataset: string, version: string, inheritedFrom: string,
                                     groups: seq<Group>)

  /** Where the objects of a version lie. */
  function VersionPrefix(dataset: string, version: string): string
  {
    "dataset/" + dataset + "/" + version + "/"
  }

  function InheritedSource(spec: VersionSpec): Source
  {
    Source(spec.namespace, INHERITED_FROM + if spec.inheritedFrom == "" then spec.version else spec.inheritedFrom)
  }

  // What the specification asks for

  function Fresh(paths: seq<string>): (r: seq<Detail>)
    ensures |r| == |paths| && forall i :: 0 <= i < |r| ==> r[i] == Detail(paths[i], Processing, "")
  {
    seq(|paths|, i requires 0 <= i < |paths| => Detail(paths[i], Processing, ""))
  }

  function SourcesOf(groups: seq<Group>): set<Source>
  {
    set g | g in groups :: g.source
  }

  /** All paths of a source, through all its groups. */
  function PathsOf(groups: seq<Group>, s: Source): seq<string>
  {
    if groups == [] then []
    else
      var n := |groups| - 1;
      PathsOf(groups[..n], s) + if groups[n].source == s then groups[n].paths else []
  }

  function Trimmed(keys: seq<string>, prefix: string): (r: seq<string>)
    ensures |r| == |keys| && forall i :: 0 <= i < |r| ==> r[i] == TrimPrefix(keys[i], prefix)
  {
    seq(|keys|, i requires 0 <= i < |keys| => TrimPrefix(keys[i], prefix))
  }

  /** listing holds the objects of the inherited version. */
  function InheritedPaths(spec: VersionSpec, listing: seq<string>): seq<string>
  {
    if spec.inheritedFrom == "" then []
    else Trimmed(listing, VersionPrefix(spec.dataset, spec.inheritedFrom))
  }

  function GroupsTarget(groups: seq<Group>): View
  {
    map s | s in SourcesOf(groups) :: Entries(Fresh(PathsOf(groups, s)))
  }

  function Target(spec: VersionSpec, listing: seq<string>): View
  {
    GroupsTarget(spec.groups)[InheritedSource(spec) := Entries(Fresh(InheritedPaths(spec, listing)))]
  }

  /** The sources are of one namespace, none looks like an inherited version, and no source names a file twice. */
  ghost predicate WellNamed(groups: seq<Group>)
  {
    && (forall g, h :: g in groups && h in groups ==> g.source.namespace == h.source.namespace)
    && (forall g :: g in groups ==> !HasPrefix(g.source.name, INHERITED_FROM))
    && (forall g :: g in groups ==> Distinct(PathsOf(groups, g.source)))
  }

  /** What an object store lists under the prefix of the inherited version, if there is one. */
  ghost predicate IsListing(spec: VersionSpec, listing: seq<string>)
  {
    spec.inheritedFrom != "" ==>
    && Distinct(listing)
    && (forall key <- listing :: HasPrefix(key, VersionPrefix(spec.dataset, spec.inheritedFrom)))
  }

  // Old and new

  function OverlayFiles(target: Files, known: Files): Files
  {
    map p | p in target :: if p in known then known[p] else target[p]
  }

  function GoneFiles(target: Files, known: Files): Files
  {
    known - target.Keys
  }

  ghost predicate AddsFiles(target: Files, known: Files)
  {
    exists p :: p in target && p !in known
  }

  /** The target, with what is known of its files. */
  function Overlay(target: View, known: View): View
  {
    map s | s in target :: if s in known then OverlayFiles(target[s], known[s]) else target[s]
  }

  /** The known files of target sources that are not in the target. */
  function GoneInside(target: View, known: View): View
  {
    map s | s in target && s in known && GoneFiles(target[s], known[s]) != map[] :: GoneFiles(target[s], known[s])
  }

  /** All known files that are not in the target. */
  function Gone(target: View, known: View): View
  {
    GoneInside(target, known) + (known - target.Keys)
  }

  ghost predicate Adds(target: View, known: View)
  {
    exists s :: s in target && (s !in known || AddsFiles(target[s], known[s]))
  }

  ghost predicate HasKinds(spec: VersionSpec, ss: seq<FileStatus>)
  {
    forall i :: 0 <= i < |ss| ==>
      ss[i].kind == if ss[i].source == InheritedSource(spec) then VERSIONED_DATASET else DATASOURCE
  }

  /**
   One synchronisation turned the status before into after: what is known of a file stays, and files that are named no
   more are handed out for deletion.
   */
  ghost predicate Synced(spec: VersionSpec, listing: seq<string>, before: seq<FileStatus>, after: seq<FileStatus>,
                         update: bool, deleted: seq<FileStatus>)
  {
    && Lists(after, Overlay(Target(spec, listing), ViewOf(before)))
    && Sorted(after)
    && HasKinds(spec, after)
    && (update <==> Adds(Target(spec, listing), ViewOf(before)))
    && Lists(deleted, Gone(Target(spec, listing), ViewOf(before)))
  }

  // Properties of a synchronisation

  /** Every known file is either carried over as it was or handed out for deletion as it was, and never both. */
  lemma {:induction false} FilesAreConserved(spec: VersionSpec, listing: seq<string>, before: seq<FileStatus>,
                                             after: seq<FileStatus>, update: bool, deleted: seq<FileStatus>,
                                             s: Source, p: string)
    requires Synced(spec, listing, before, after, update, deleted)
    requires s in ViewOf(before) && p in ViewOf(before)[s]
    ensures (s in ViewOf(after) && p in ViewOf(after)[s] && ViewOf(after)[s][p] == ViewOf(before)[s][p])
            <==> !(s in ViewOf(deleted) && p in ViewOf(deleted)[s])
    ensures s in ViewOf(deleted) && p in ViewOf(deleted)[s] ==> ViewOf(deleted)[s][p] == ViewOf(before)[s][p]
  {
    ViewOfList(after, Overlay(Target(spec, listing), ViewOf(before)));
    ViewOfList(deleted, Gone(Target(spec, listing), ViewOf(before)));
  }

  /** Nothing is deleted that was not known; a file that is new starts as being processed. */
  lemma {:induction false} NewFilesAreProcessing(spec: VersionSpec, listing: seq<string>, before: seq<FileStatus>,
                                                 after: seq<FileStatus>, update: bool, deleted: seq<FileStatus>,
                                                 s: Source, p: string)
    requires Synced(spec, listing, before, after, update, deleted)
    requires !(s in ViewOf(before) && p in ViewOf(before)[s])
    ensures !(s in ViewOf(deleted) && p in ViewOf(deleted)[s])
    ensures s in ViewOf(after) && p in ViewOf(after)[s] ==>
              ViewOf(after)[s][p] == Detail(p, Processing, "") && update
  {
    var t := Target(spec, listing);
    ViewOfList(after, Overlay(t, ViewOf(before)));
    ViewOfList(deleted, Gone(t, ViewOf(before)));
    if s in t && p in t[s] {
      FreshEntry(PathsOf(spec.groups, s), p);
      FreshEntry(InheritedPaths(spec, listing), p);
    }
  }

  lemma {:induction false} FreshEntry(paths: seq<string>, p: string)
    ensures p in Entries(Fresh(paths)) ==> Entries(Fresh(paths))[p] == Detail(p, Processing, "")
  {
    if paths != [] {
      var n := |paths| - 1;
      assert Fresh(paths)[..n] == Fresh(paths[..n]);
      FreshEntry(paths[..n], p);
    }
  }

  /** The same synchronisation again reports nothing and changes nothing. */
  lemma {:induction false} SyncedTwice(spec: VersionSpec, listing: seq<string>, before: seq<FileStatus>,
                                       after: seq<FileStatus>, update: bool, deleted: seq<FileStatus>,
                                       again: seq<FileStatus>, updateAgain: bool, deletedAgain: seq<FileStatus>)
    requires Synced(spec, listing, before, after, update, deleted)
    requires Synced(spec, listing, after, again, updateAgain, deletedAgain)
    ensures again == after && !updateAgain && deletedAgain == []
  {
    var t := Target(spec, listing);
    var o := Overlay(t, ViewOf(before));
    ViewOfList(after, o);
    OverlaySettles(t, ViewOf(before));
    SameStatus(spec, after, again, o);
    ListedSource(deletedAgain, Gone(t, o));
  }

  lemma {:induction false} SameStatus(spec: VersionSpec, a: seq<FileStatus>, b: seq<FileStatus>, v: View)
    requires Lists(a, v) && Sorted(a) && Lists(b, v) && Sorted(b)
    requires HasKinds(spec, a) && HasKinds(spec, b)
    ensures a == b
  {
    OneList(a, b, v);
    assert forall i :: 0 <= i < |a| ==> a[i] == b[i];
  }

  lemma {:induction false} ListedSource(ss: seq<FileStatus>, v: View)
    requires Lists(ss, v)
    ensures |ss| == 0 || ss[0].source in v
  {
  }

  lemma {:induction false} OverlaySettles(t: View, v: View)
    ensures Overlay(t, Overlay(t, v)) == Overlay(t, v)
    ensures !Adds(t, Overlay(t, v)) && Gone(t, Overlay(t, v)) == map[]
  {
    forall s | s in t ensures Overlay(t, Overlay(t, v))[s] == Overlay(t, v)[s] && !AddsFiles(t[s], Overlay(t, v)[s])
                              && GoneFiles(t[s], Overlay(t, v)[s]) == map[] {
    }
  }
}
