/** Which objects the jobs of a version read, write and remove. */
module CopyJobs {
  import opened FilePhases
  import opened Strings
  import opened Sorting
  import opened FileStatuses
  import opened VersionFiles
  import opened VersionedDatasets
  import opened Executor
  import opened CopyRuns

  /** A path without its leading slash. */
  function Cut(path: string): string
  {
    if path != "" && path[0] == '/' then path[1..] else path
  }

  lemma {:induction false} TrimIsCut(path: string)
    ensures TrimPrefix(path, "/") == Cut(path)
  {
    if path != "" && path[0] == '/' { assert "/" <= path; }
  }

  /** The object of a version that a path stands for. */
  function ObjectAt(dataset: string, version: string, path: string): string
  {
    "dataset/" + dataset + "/" + version + "/" + Cut(path)
  }

  lemma {:induction false} PrefixOfObject(dataset: string, version: string, path: string)
    ensures VersionPrefix(dataset, version) + Cut(path) == ObjectAt(dataset, version, path)
    ensures HasPrefix(ObjectAt(dataset, version, path), VersionPrefix(dataset, version))
    ensures TrimPrefix(ObjectAt(dataset, version, path), VersionPrefix(dataset, version)) == Cut(path)
  {
  }

  predicate IsDirectory(path: string)
  {
    path != "" && path[|path| - 1] == '/'
  }

  /** The job of a file: from the datasource or from the version inherited from, to this version. */
  ghost predicate IsJobOf(spec: VersionSpec, fs: FileStatus, d: Detail, remove: bool, job: Job)
  {
    && job.dst == ObjectAt(spec.dataset, spec.version, d.path)
    && job.sourceName == fs.source.name && job.remove == remove
    && (remove || fs.kind == "Datasource" ==> job.src == Cut(d.path))
    && (forall v :: !remove && fs.kind == "VersionedDataset" && fs.source.name == "inheritfrom-" + v ==>
          job.src == ObjectAt(spec.dataset, v, d.path))
  }

  lemma {:induction false} JobIsOfFile(spec: VersionSpec, ss: seq<FileStatus>, slot: Slot, remove: bool)
    requires IsSlot(ss, slot)
    ensures IsJobOf(spec, ss[slot.source], DetailAt(ss, slot), remove, JobAt(spec, ss, slot, remove))
  {
    var fs, path := ss[slot.source], DetailAt(ss, slot).path;
    TrimIsCut(path);
    PrefixOfObject(spec.dataset, spec.version, path);
    assert "" + Cut(path) == Cut(path);
    forall v | fs.source.name == "inheritfrom-" + v ensures InheritedVersion(fs.source.name) == v {
      assert INHERITED_FROM == "inheritfrom-" && fs.source.name[|INHERITED_FROM|..] == v;
    }
    forall v ensures VersionPrefix(spec.dataset, v) + Cut(path) == ObjectAt(spec.dataset, v, path) {
      PrefixOfObject(spec.dataset, v, path);
    }
  }

  /** Every generated job is that of the file it is made for, and these are all files due and no others. */
  lemma {:induction false} JobsOfFiles(spec: VersionSpec, ss: seq<FileStatus>, slots: seq<Slot>, remove: bool)
    ensures var picks := Picks(ss, slots, remove);
            var jobs := Payloads(spec, ss, picks, remove);
            && |jobs| == |picks|
            && (forall i :: 0 <= i < |jobs| ==>
                  IsJobOf(spec, ss[picks[i].source], DetailAt(ss, picks[i]), remove, jobs[i]))
            && (forall slot :: slot in picks <==>
                  slot in slots && IsSlot(ss, slot) && !IsDirectory(DetailAt(ss, slot).path)
                  && (remove || (DetailAt(ss, slot).phase == Processing
                                 && (ss[slot.source].kind == "Datasource" || ss[slot.source].kind == "VersionedDataset"))))
  {
    var picks := Picks(ss, slots, remove);
    forall i | 0 <= i < |picks| ensures IsJobOf(spec, ss[picks[i].source], DetailAt(ss, picks[i]), remove,
                                                Payloads(spec, ss, picks, remove)[i]) {
      JobIsOfFile(spec, ss, picks[i], remove);
    }
    forall slot ensures slot in picks <==> slot in slots && GetsJob(ss, slot, remove) { PicksHas(ss, slots, slot, remove); }
    forall slot | IsSlot(ss, slot) ensures HasSuffix(DetailAt(ss, slot).path, "/") <==> IsDirectory(DetailAt(ss, slot).path) {
      var path := DetailAt(ss, slot).path;
      if path != "" { assert path[|path| - 1..] == [path[|path| - 1]]; }
    }
  }

  /** The result of a removal is entered nowhere. */
  lemma {:induction false} RemovalsEnterNothing(spec: VersionSpec, ss: seq<FileStatus>, slot: Slot, tt: seq<FileStatus>,
                                                outcome: Outcome)
    requires IsSlot(tt, slot)
    ensures Finish(spec, ss, JobAt(spec, tt, slot, true), outcome) == ss
  {
  }

  lemma {:induction false} PicksHas(ss: seq<FileStatus>, slots: seq<Slot>, slot: Slot, remove: bool)
    ensures slot in Picks(ss, slots, remove) <==> slot in slots && GetsJob(ss, slot, remove)
  {
    if slots != [] {
      var n := |slots| - 1;
      PicksHas(ss, slots[..n], slot, remove);
      assert slots == slots[..n] + [slots[n]];
    }
  }

  /** A removal deletes what a copy wrote exactly if both are for the same path, up to a leading slash, and whatever
      the sources are. */
  lemma {:induction false} RemovesCopyIff(spec: VersionSpec, ss: seq<FileStatus>, slot: Slot, tt: seq<FileStatus>, other: Slot)
    requires IsSlot(ss, slot) && IsSlot(tt, other)
    ensures JobAt(spec, ss, slot, true).dst == JobAt(spec, tt, other, false).dst
            <==> Cut(DetailAt(ss, slot).path) == Cut(DetailAt(tt, other).path)
  {
    JobIsOfFile(spec, ss, slot, true);
    JobIsOfFile(spec, tt, other, false);
    PrefixOfObject(spec.dataset, spec.version, DetailAt(ss, slot).path);
    PrefixOfObject(spec.dataset, spec.version, DetailAt(tt, other).path);
  }

  /** What a run leaves of a file: the outcome of its job, with the message if that broke, and nothing else changed. */
  lemma {:induction false} OutcomeShows(spec: VersionSpec, ss: seq<FileStatus>, es: seq<Event>, slot: Slot)
    requires Addressable(spec, ss) && AllFindThemselves(ss) && Legal(spec, Start(ss), es) && IsSlot(ss, slot)
    ensures var s := After(spec, Start(ss), es);
            && IsSlot(s.files, slot)
            && var d, e := DetailAt(ss, slot), DetailAt(s.files, slot);
               if slot !in s.results then e == d
               else if s.results[slot] == Done then e == Detail(d.path, Succeeded, d.error)
               else e == Detail(d.path, Failed, s.results[slot].message)
  {
    ResultsStandAtTheirFiles(spec, ss, es, slot);
  }

  // What an heir of the version sees

  /** The objects that the successful jobs of a run have written. */
  ghost predicate IsWritten(s: State, key: string)
  {
    exists slot :: slot in s.results && slot in s.sent && s.results[slot] == Done && key == s.sent[slot].dst
  }

  /** The file was in process before the run and is copied after it. */
  ghost predicate IsCopied(before: seq<FileStatus>, after: seq<FileStatus>, slot: Slot)
  {
    && IsSlot(before, slot) && DetailAt(before, slot).phase == Processing
    && IsSlot(after, slot) && DetailAt(after, slot).phase == Succeeded
  }

  lemma {:induction false} CopiedIff(spec: VersionSpec, ss: seq<FileStatus>, es: seq<Event>, slot: Slot)
    requires Addressable(spec, ss) && AllFindThemselves(ss) && Legal(spec, Start(ss), es)
    ensures var s := After(spec, Start(ss), es);
            IsCopied(ss, s.files, slot) <==> slot in s.results && s.results[slot] == Done
    ensures var s := After(spec, Start(ss), es);
            slot in s.results ==> slot in s.sent && IsSlot(ss, slot)
                                  && s.sent[slot].dst == ObjectAt(spec.dataset, spec.version, DetailAt(ss, slot).path)
  {
    var s := After(spec, Start(ss), es);
    RunFromStart(spec, ss, es);
    if IsSlot(ss, slot) {
      ResultsStandAtTheirFiles(spec, ss, es, slot);
      JobIsOfFile(spec, ss, slot, false);
    } else if IsSlot(s.files, slot) {
      assert |s.files[slot.source].files| == |ss[slot.source].files|;
    }
  }

  /** After every run, the objects written are exactly those of the files that it has copied. */
  lemma {:induction false} WrittenIff(spec: VersionSpec, ss: seq<FileStatus>, es: seq<Event>, key: string)
    requires Addressable(spec, ss) && AllFindThemselves(ss) && Legal(spec, Start(ss), es)
    ensures var s := After(spec, Start(ss), es);
            IsWritten(s, key) <==> exists slot :: IsCopied(ss, s.files, slot)
                                                  && key == ObjectAt(spec.dataset, spec.version, DetailAt(ss, slot).path)
  {
    var s := After(spec, Start(ss), es);
    if IsWritten(s, key) {
      var slot :| slot in s.results && slot in s.sent && s.results[slot] == Done && key == s.sent[slot].dst;
      CopiedIff(spec, ss, es, slot);
    }
    if slot :| IsCopied(ss, s.files, slot) && key == ObjectAt(spec.dataset, spec.version, DetailAt(ss, slot).path) {
      CopiedIff(spec, ss, es, slot);
      assert slot in s.sent && key == s.sent[slot].dst;
    }
  }

  /**
   A version that inherits from this one, and lists what a run of this one has written, gets exactly the files that the
   run has copied, under their paths without leading slashes.
   */
  lemma {:induction false} HeirSeesCopies(spec: VersionSpec, ss: seq<FileStatus>, es: seq<Event>, heir: VersionSpec,
                                          listing: seq<string>, path: string)
    requires Addressable(spec, ss) && AllFindThemselves(ss) && Legal(spec, Start(ss), es)
    requires heir.dataset == spec.dataset && heir.inheritedFrom == spec.version != "" && Distinct(listing)
    requires forall key :: key in listing <==> IsWritten(After(spec, Start(ss), es), key)
    ensures IsListing(heir, listing)
    ensures var s := After(spec, Start(ss), es);
            path in InheritedPaths(heir, listing)
            <==> exists slot :: IsCopied(ss, s.files, slot) && path == Cut(DetailAt(ss, slot).path)
  {
    var s := After(spec, Start(ss), es);
    forall key | key in listing
      ensures HasPrefix(key, VersionPrefix(spec.dataset, spec.version)) {
      WrittenIff(spec, ss, es, key);
      var slot :| IsCopied(ss, s.files, slot) && key == ObjectAt(spec.dataset, spec.version, DetailAt(ss, slot).path);
      PrefixOfObject(spec.dataset, spec.version, DetailAt(ss, slot).path);
    }
    if path in InheritedPaths(heir, listing) {
      var i :| 0 <= i < |listing| && path == TrimPrefix(listing[i], VersionPrefix(spec.dataset, spec.version));
      WrittenIff(spec, ss, es, listing[i]);
      var slot :| IsCopied(ss, s.files, slot) && listing[i] == ObjectAt(spec.dataset, spec.version, DetailAt(ss, slot).path);
      PrefixOfObject(spec.dataset, spec.version, DetailAt(ss, slot).path);
    }
    if slot :| IsCopied(ss, s.files, slot) && path == Cut(DetailAt(ss, slot).path) {
      CopiedIsInherited(spec, ss, es, heir, listing, slot);
    }
  }

  lemma {:induction false} CopiedIsInherited(spec: VersionSpec, ss: seq<FileStatus>, es: seq<Event>, heir: VersionSpec,
                                             listing: seq<string>, slot: Slot)
    requires Addressable(spec, ss) && AllFindThemselves(ss) && Legal(spec, Start(ss), es)
    requires heir.dataset == spec.dataset && heir.inheritedFrom == spec.version != ""
    requires forall key :: key in listing <==> IsWritten(After(spec, Start(ss), es), key)
    requires IsCopied(ss, After(spec, Start(ss), es).files, slot)
    ensures Cut(DetailAt(ss, slot).path) in InheritedPaths(heir, listing)
  {
    var key := ObjectAt(spec.dataset, spec.version, DetailAt(ss, slot).path);
    WrittenIff(spec, ss, es, key);
    PrefixOfObject(spec.dataset, spec.version, DetailAt(ss, slot).path);
    var i :| 0 <= i < |listing| && listing[i] == key;
    assert InheritedPaths(heir, listing)[i] == Cut(DetailAt(ss, slot).path);
  }
}
