/** The copying of the files of a version: a job for each file in process, and the way back of its result. */
module Executor {
  import opened FilePhases
  import opened Strings
  import opened FileStatuses
  import opened VersionFiles
  import opened VersionedDatasets

  /** The place of a file in the status. */
  datatype Slot = Slot(source: nat, file: nat)

  datatype Job = Job(sourceName: string, src: string, dst: string, remove: bool)

  datatype Outcome = Done | Broken(message: string)

  predicate IsSlot(ss: seq<FileStatus>, slot: Slot)
  {
    slot.source < |ss| && slot.file < |ss[slot.source].files|
  }

  function DetailAt(ss: seq<FileStatus>, slot: Slot): Detail
    requires IsSlot(ss, slot)
  {
    ss[slot.source].files[slot.file]
  }

  predicate KnownKind(fs: FileStatus)
  {
    fs.kind == DATASOURCE || fs.kind == VERSIONED_DATASET
  }

  /** The file gets a job: it is in process, or to be removed, and its path can be that of an object. */
  predicate GetsJob(ss: seq<FileStatus>, slot: Slot, remove: bool)
  {
    && IsSlot(ss, slot)
    && (remove || (KnownKind(ss[slot.source]) && DetailAt(ss, slot).phase == Processing))
    && !HasSuffix(DetailAt(ss, slot).path, "/")
  }

  function InheritedVersion(name: string): string
  {
    if |name| < |INHERITED_FROM| then "" else name[|INHERITED_FROM|..]
  }

  function SrcPrefix(spec: VersionSpec, fs: FileStatus, remove: bool): string
  {
    if !remove && fs.kind == VERSIONED_DATASET then VersionPrefix(spec.dataset, InheritedVersion(fs.source.name)) else ""
  }

  function JobAt(spec: VersionSpec, ss: seq<FileStatus>, slot: Slot, remove: bool): Job
    requires IsSlot(ss, slot)
  {
    var target := TrimPrefix(DetailAt(ss, slot).path, "/");
    Job(ss[slot.source].source.name, SrcPrefix(spec, ss[slot.source], remove) + target,
        VersionPrefix(spec.dataset, spec.version) + target, remove)
  }

  // All files, source by source

  function Row(i: nat, n: nat): (r: seq<Slot>)
    ensures |r| == n && forall k :: 0 <= k < n ==> r[k] == Slot(i, k)
  {
    seq(n, k requires 0 <= k < n => Slot(i, k))
  }

  function SlotsUpTo(ss: seq<FileStatus>, n: nat): seq<Slot>
    requires n <= |ss|
  {
    if n == 0 then [] else SlotsUpTo(ss, n - 1) + Row(n - 1, |ss[n - 1].files|)
  }

  function AllSlots(ss: seq<FileStatus>): seq<Slot>
  {
    SlotsUpTo(ss, |ss|)
  }

  /** Those of the slots that get a job. */
  function Picks(ss: seq<FileStatus>, slots: seq<Slot>, remove: bool): (r: seq<Slot>)
    ensures forall i :: 0 <= i < |r| ==> GetsJob(ss, r[i], remove)
  {
    if slots == [] then []
    else
      var n := |slots| - 1;
      Picks(ss, slots[..n], remove) + if GetsJob(ss, slots[n], remove) then [slots[n]] else []
  }

  function Payloads(spec: VersionSpec, ss: seq<FileStatus>, picks: seq<Slot>, remove: bool): seq<Job>
    requires forall i :: 0 <= i < |picks| ==> IsSlot(ss, picks[i])
  {
    seq(|picks|, i requires 0 <= i < |picks| => JobAt(spec, ss, picks[i], remove))
  }

  lemma {:induction false} SlotsInOrder(ss: seq<FileStatus>, n: nat)
    requires n <= |ss|
    ensures forall i :: 0 <= i < |SlotsUpTo(ss, n)| ==>
              IsSlot(ss, SlotsUpTo(ss, n)[i]) && SlotsUpTo(ss, n)[i].source < n
    ensures forall i, j :: 0 <= i < j < |SlotsUpTo(ss, n)| ==> SlotsUpTo(ss, n)[i] != SlotsUpTo(ss, n)[j]
    ensures forall slot :: IsSlot(ss, slot) && slot.source < n ==> slot in SlotsUpTo(ss, n)
  {
    if n > 0 {
      SlotsInOrder(ss, n - 1);
      var before, row := SlotsUpTo(ss, n - 1), Row(n - 1, |ss[n - 1].files|);
      forall slot | IsSlot(ss, slot) && slot.source < n ensures slot in before + row {
        if slot.source == n - 1 { assert row[slot.file] == slot; }
      }
    }
  }

  // The way back

  /** The path under which the result of a job is entered. */
  function ResultPath(spec: VersionSpec, job: Job): string
  {
    if HasPrefix(job.sourceName, INHERITED_FROM) then
      TrimPrefix(job.src, VersionPrefix(spec.dataset, spec.inheritedFrom))
    else job.src
  }

  function PhaseOf(outcome: Outcome): FilePhase
  {
    if outcome.Done? then Succeeded else Failed
  }

  function MessageOf(outcome: Outcome): string
  {
    if outcome.Done? then "" else outcome.message
  }

  /** The status after the result of a job came in; the removal of a file leaves no trace. */
  function Finish(spec: VersionSpec, ss: seq<FileStatus>, job: Job, outcome: Outcome): seq<FileStatus>
  {
    if job.remove then ss
    else Update(ss, job.sourceName, ResultPath(spec, job), PhaseOf(outcome), MessageOf(outcome)).files
  }

  /** The status is one that a synchronisation makes: sorted, and the names tell the kinds of the sources. */
  ghost predicate Addressable(spec: VersionSpec, ss: seq<FileStatus>)
  {
    && Sorted(ss)
    && (forall i :: 0 <= i < |ss| && ss[i].kind == DATASOURCE ==> !HasPrefix(ss[i].source.name, INHERITED_FROM))
    && (forall i :: 0 <= i < |ss| && ss[i].kind == VERSIONED_DATASET && ss[i].files != [] ==>
          ss[i].source.name == INHERITED_FROM + spec.inheritedFrom)
  }

  /** The path that a job brings back is that of the file without its leading slash. */
  lemma {:induction false} PathComesBack(spec: VersionSpec, ss: seq<FileStatus>, slot: Slot)
    requires Addressable(spec, ss) && GetsJob(ss, slot, false)
    ensures ResultPath(spec, JobAt(spec, ss, slot, false)) == TrimPrefix(DetailAt(ss, slot).path, "/")
  {
    var fs, target := ss[slot.source], TrimPrefix(DetailAt(ss, slot).path, "/");
    if fs.kind == VERSIONED_DATASET {
      assert InheritedVersion(fs.source.name) == spec.inheritedFrom;
      assert TrimPrefix(VersionPrefix(spec.dataset, spec.inheritedFrom) + target,
                        VersionPrefix(spec.dataset, spec.inheritedFrom)) == target;
    } else {
      assert "" + target == target;
    }
  }

  /** The search for the path that the job of the file brings back ends at the file. */
  predicate FindsItself(ss: seq<FileStatus>, slot: Slot)
  {
    IsSlot(ss, slot) &&
    Place(Paths(ss[slot.source].files), TrimPrefix(DetailAt(ss, slot).path, "/")) == slot.file
  }

  lemma {:induction false} PlaceBounds(s: seq<string>, x: string)
    ensures forall j :: 0 <= j < Place(s, x) ==> Less(s[j], x)
    ensures Place(s, x) < |s| ==> !Less(s[Place(s, x)], x)
  {
    if s != [] && Less(s[0], x) {
      PlaceBounds(s[1..], x);
      forall j | 0 <= j < Place(s, x) ensures Less(s[j], x) {
        if j > 0 { assert s[1..][j - 1] == s[j]; }
      }
    }
  }

  /**
   A file finds itself exactly if its path has no leading slash, or if the path without the slash still falls between
   the path before it and its own.
   */
  lemma {:induction false} FindsItselfIff(ss: seq<FileStatus>, slot: Slot)
    requires Sorted(ss) && IsSlot(ss, slot)
    ensures var path := DetailAt(ss, slot).path;
            var cut := TrimPrefix(path, "/");
            FindsItself(ss, slot) <==>
              !HasPrefix(path, "/")
              || (!Less(path, cut)
                  && (slot.file > 0 ==> Less(ss[slot.source].files[slot.file - 1].path, cut)))
  {
    var paths, k := Paths(ss[slot.source].files), slot.file;
    var path := paths[k];
    var cut := TrimPrefix(path, "/");
    if !HasPrefix(path, "/") {
      PlaceOfElement(paths, k);
    } else {
      PlaceBounds(paths, cut);
      if !Less(path, cut) && (k > 0 ==> Less(paths[k - 1], cut)) {
        forall j | 0 <= j < k ensures Less(paths[j], cut) {
          if j < k - 1 { LessTransitive(paths[j], paths[k - 1], cut); }
        }
        PlaceIs(paths, cut, k);
      }
    }
  }

  /** The status with the result entered at the slot, and nowhere else. */
  function Entered(ss: seq<FileStatus>, slot: Slot, outcome: Outcome): seq<FileStatus>
    requires IsSlot(ss, slot)
  {
    SetAt(ss, slot.source, slot.file, Mark(DetailAt(ss, slot), PhaseOf(outcome), MessageOf(outcome)))
  }

  /** The result of a job is entered at its file exactly if the file finds itself. */
  lemma {:induction false} ResultFindsFile(spec: VersionSpec, ss: seq<FileStatus>, slot: Slot, outcome: Outcome)
    requires Addressable(spec, ss) && GetsJob(ss, slot, false)
    ensures Finish(spec, ss, JobAt(spec, ss, slot, false), outcome) == Entered(ss, slot, outcome)
            <==> FindsItself(ss, slot)
  {
    PathComesBack(spec, ss, slot);
    PlaceOfElement(Names(ss), slot.source);
    if !FindsItself(ss, slot) {
      MissesFile(spec, ss, slot, outcome);
      assert DetailAt(Entered(ss, slot, outcome), slot).phase != Processing;
    }
  }

  /** The result of a file that does not find itself leaves the file in process. */
  lemma {:induction false} MissesFile(spec: VersionSpec, ss: seq<FileStatus>, slot: Slot, outcome: Outcome)
    requires Addressable(spec, ss) && GetsJob(ss, slot, false) && !FindsItself(ss, slot)
    ensures var after := Finish(spec, ss, JobAt(spec, ss, slot, false), outcome);
            IsSlot(after, slot) && DetailAt(after, slot).phase == Processing
  {
    PathComesBack(spec, ss, slot);
    PlaceOfElement(Names(ss), slot.source);
  }

  /** A result is entered at its own file and nowhere else exactly under the condition of FindsItselfIff. */
  lemma {:induction false} EnteredAtItsFileIff(spec: VersionSpec, ss: seq<FileStatus>, slot: Slot, outcome: Outcome)
    requires Addressable(spec, ss) && GetsJob(ss, slot, false)
    ensures var path := DetailAt(ss, slot).path;
            var cut := TrimPrefix(path, "/");
            Finish(spec, ss, JobAt(spec, ss, slot, false), outcome) == Entered(ss, slot, outcome)
            <==> !HasPrefix(path, "/")
                 || (!Less(path, cut)
                     && (slot.file > 0 ==> Less(ss[slot.source].files[slot.file - 1].path, cut)))
  {
    ResultFindsFile(spec, ss, slot, outcome);
    FindsItselfIff(ss, slot);
  }

  const SLASHED := [FileStatus(DATASOURCE, Source("ns", "d"), [Detail("/a", Processing, ""), Detail("b", Processing, "")])]

  /** A leading slash can lead astray: the copy of /a is entered for b, whose own result is then refused. */
  lemma {:induction false} SlashLeadsAstray(spec: VersionSpec)
    ensures Addressable(spec, SLASHED) && GetsJob(SLASHED, Slot(0, 0), false)
    ensures Finish(spec, SLASHED, JobAt(spec, SLASHED, Slot(0, 0), false), Done)
         == SetAt(SLASHED, 0, 1, Detail("b", Succeeded, ""))
  {
    assert Less("/a", "b") && Less("/a", "a") && !Less("b", "a");
    assert Paths(SLASHED[0].files) == ["/a", "b"];
    assert Names(SLASHED) == ["d"];
    PathComesBack(spec, SLASHED, Slot(0, 0));
    assert TrimPrefix("/a", "/") == "a";
    PlaceIs(["/a", "b"], "a", 1);
    PlaceOfElement(["d"], 0);
  }

  // The executor

  class CopyExecutor {
    const instance: VersionedDataset
    const remove: bool

    constructor (instance: VersionedDataset, remove: bool)
      ensures this.instance == instance && this.remove == remove
    {
      this.instance, this.remove := instance, remove;
    }

    /**
     All jobs of the files; broken holds the sources at which the store or the datasource cannot be reached, and
     cancelled the files at which the cancellation of the run is seen. Either ends the generation, after the sources
     before stop and the first k files of it.
     */
    method GenerateJob(datasourceFiles: seq<FileStatus>, broken: set<nat>, cancelled: set<Slot>)
      returns (jobs: seq<Job>, stop: nat, k: nat)
      ensures EndsAt(datasourceFiles, broken, cancelled, stop, k)
      ensures jobs == Payloads(instance.spec, datasourceFiles,
                               Picks(datasourceFiles, SlotsUpTo(datasourceFiles, stop) + Row(stop, k), remove), remove)
    {
      jobs, stop, k := [], 0, 0;
      var ended := false;
      assert SlotsUpTo(datasourceFiles, 0) + Row(0, 0) == [];
      while stop < |datasourceFiles| && !ended
        invariant stop <= |datasourceFiles| && (!ended ==> k == 0)
        invariant ended ==> EndsAt(datasourceFiles, broken, cancelled, stop, k)
        invariant jobs == Payloads(instance.spec, datasourceFiles,
                                   Picks(datasourceFiles, SlotsUpTo(datasourceFiles, stop) + Row(stop, k), remove), remove)
        decreases |datasourceFiles| - stop, !ended
      {
        if (remove || KnownKind(datasourceFiles[stop])) && stop in broken {
          ended := true;
        } else {
          jobs, k := GenerateSource(datasourceFiles, stop, cancelled, jobs);
          if k < |datasourceFiles[stop].files| {
            ended := true;
          } else {
            RowIsDone(datasourceFiles, stop);
            stop, k := stop + 1, 0;
          }
        }
      }
    }

    /** Everything is generated, or there is a reason to end here. */
    ghost predicate EndsAt(ss: seq<FileStatus>, broken: set<nat>, cancelled: set<Slot>, stop: nat, k: nat)
    {
      if stop < |ss| then k <= |ss[stop].files| && ((k == 0 && stop in broken) || Slot(stop, k) in cancelled)
      else stop == |ss| && k == 0
    }

    lemma RowIsDone(ss: seq<FileStatus>, i: nat)
      requires i < |ss|
      ensures SlotsUpTo(ss, i) + Row(i, |ss[i].files|) == SlotsUpTo(ss, i + 1) + Row(i + 1, 0)
    {
    }

    method GenerateSource(ss: seq<FileStatus>, i: nat, cancelled: set<Slot>, jobs: seq<Job>) returns (r: seq<Job>, k: nat)
      requires i < |ss|
      requires jobs == Payloads(instance.spec, ss, Picks(ss, SlotsUpTo(ss, i) + Row(i, 0), remove), remove)
      ensures k <= |ss[i].files| && (k < |ss[i].files| ==> Slot(i, k) in cancelled)
      ensures r == Payloads(instance.spec, ss, Picks(ss, SlotsUpTo(ss, i) + Row(i, k), remove), remove)
    {
      r, k := jobs, 0;
      while k < |ss[i].files| && Slot(i, k) !in cancelled
        invariant k <= |ss[i].files|
        invariant r == Payloads(instance.spec, ss, Picks(ss, SlotsUpTo(ss, i) + Row(i, k), remove), remove)
      {
        var fp := ss[i].files[k];
        PickOne(instance.spec, ss, SlotsUpTo(ss, i), i, k, remove);
        if (remove || (KnownKind(ss[i]) && fp.phase == Processing)) && !HasSuffix(fp.path, "/") {
          r := r + [JobAt(instance.spec, ss, Slot(i, k), remove)];
        }
        k := k + 1;
      }
    }

    method OnFinish(job: Job, outcome: Outcome)
      modifies instance`files
      ensures Sorted(old(instance.files)) ==>
                instance.files == Finish(instance.spec, old(instance.files), job, outcome)
    {
      if !job.remove {
        var src := job.src;
        if HasPrefix(job.sourceName, INHERITED_FROM) {
          src := TrimPrefix(src, VersionPrefix(instance.spec.dataset, instance.spec.inheritedFrom));
        }
        var _ := instance.UpdateFileStatus(job.sourceName, src, PhaseOf(outcome), MessageOf(outcome));
      }
    }
  }

  lemma {:induction false} PickOne(spec: VersionSpec, ss: seq<FileStatus>, before: seq<Slot>, i: nat, k: nat,
                                   remove: bool)
    ensures var picks := Picks(ss, before + Row(i, k), remove);
            Payloads(spec, ss, Picks(ss, before + Row(i, k + 1), remove), remove)
            == if GetsJob(ss, Slot(i, k), remove)
               then Payloads(spec, ss, picks, remove) + [JobAt(spec, ss, Slot(i, k), remove)]
               else Payloads(spec, ss, picks, remove)
  {
    var slots := before + Row(i, k + 1);
    assert slots[..|slots| - 1] == before + Row(i, k);
    assert slots[|slots| - 1] == Slot(i, k);
  }
}
