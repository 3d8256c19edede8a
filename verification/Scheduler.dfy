/** What the scheduler concludes from the files when the copying has ended: the ready condition of the version. */
module Scheduler {
  import opened FilePhases
  import opened FileStatuses
  import opened VersionFiles
  import opened VersionedDatasets
  import opened Executor
  import opened CopyRuns

  const FILE_SYNC_SUCCESS := "FileSyncSuccess"
  const FILE_SYNC_FAILED := "FileSyncFailed"

  predicate IsSuccess(c: C.Condition)
  {
    c.ctype == C.TYPE_READY && c.status == C.True && c.reason == FILE_SYNC_SUCCESS
  }

  /** A success has been recorded, now or at some time before. */
  predicate SyncDone(cs: seq<C.Condition>)
  {
    exists i :: 0 <= i < |cs| && IsSuccess(cs[i])
  }

  predicate Good(fs: seq<Detail>)
  {
    forall k :: 0 <= k < |fs| ==> fs[k].phase == Succeeded
  }

  predicate AllGood(ss: seq<FileStatus>)
  {
    forall i :: 0 <= i < |ss| ==> Good(ss[i].files)
  }

  function Success(now: int): C.Condition
  {
    C.Condition(C.TYPE_READY, C.True, FILE_SYNC_SUCCESS, "", now, 0)
  }

  function Failure(d: Detail, now: int): C.Condition
  {
    C.Condition(C.TYPE_READY, C.False, FILE_SYNC_FAILED, d.path + " sync failed, " + d.error, now, 0)
  }

  /** The last of the files of a source that did not succeed decides. */
  function SourceVerdict(fs: seq<Detail>, now: int): C.Condition
  {
    if fs == [] then Success(now)
    else
      var n := |fs| - 1;
      if fs[n].phase != Succeeded then Failure(fs[n], now) else SourceVerdict(fs[..n], now)
  }

  /** The first source with such a file decides. */
  function Verdict(ss: seq<FileStatus>, now: int): C.Condition
  {
    if ss == [] then Success(now)
    else if Good(ss[0].files) then Verdict(ss[1..], now)
    else SourceVerdict(ss[0].files, now)
  }

  /** The conditions after the copying; a success on record is not looked at again. */
  function Concluded(cs: seq<C.Condition>, ss: seq<FileStatus>, now: int): seq<C.Condition>
  {
    if SyncDone(cs) then cs else C.SetOne(cs, Verdict(ss, now))
  }

  /** The object in the store; version is its resource version. */
  datatype Stored = Stored(deleting: bool, version: int, finalizers: bool, files: seq<FileStatus>,
                           conditions: seq<C.Condition>)

  /** Errors of the run, of reading the object after it, and of writing it back. */
  datatype Faults = Faults(run: bool, get: bool, write: bool)

  class FileScheduler {
    const ds: VersionedDataset
    const version: int
    const remove: bool

    constructor (ds: VersionedDataset, version: int, remove: bool)
      ensures this.ds == ds && this.version == version && this.remove == remove
    {
      this.ds, this.version, this.remove := ds, version, remove;
    }

    /** After the run; latest is the object as it is stored then. */
    method Start(faults: Faults, latest: Stored, now: int) returns (ok: bool, r: Stored)
      ensures ok <==> !faults.run && !faults.get && (Writes(latest) ==> !faults.write)
      ensures r == if ok then Concludes(latest, ds.files, now) else latest
      ensures Leaves(latest, r, ok, now)
    {
      ok, r := true, latest;
      if faults.run || faults.get {
        ok := false;
      } else if latest.deleting {
        if faults.write { ok := false; } else { r := latest.(finalizers := false); }
      } else if !remove && latest.version == version {
        var conditions := Conclude(latest.conditions, ds.files, now);
        if faults.write { ok := false; } else { r := latest.(files := ds.files, conditions := conditions); }
        OnRecordIff(latest.conditions);
        if C.OnePerType(latest.conditions) { StoresFiles(latest.conditions, ds.files, now); }
      }
    }

    /**
     What a run may do to the object in the store: nothing after an error, or if the object has changed or the run was one
     of removals; let it go if it is being deleted; else store the files of this run and say whether they are all there.
     */
    ghost predicate Leaves(latest: Stored, r: Stored, ok: bool, now: int)
      reads ds
    {
      if !ok then r == latest
      else if latest.deleting then r == latest.(finalizers := false)
      else if remove || latest.version != version then r == latest
      else
        && r == latest.(files := r.files, conditions := r.conditions) && r.files == ds.files
        && (OnRecord(latest.conditions) ==> r.conditions == latest.conditions)
        && (C.OnePerType(latest.conditions) && !OnRecord(latest.conditions) ==>
              Says(r.files, C.GetCondition(r.conditions, "Ready"), now))
        && (C.OnePerType(latest.conditions) ==>
              forall t :: t != "Ready" ==> C.GetCondition(r.conditions, t) == C.GetCondition(latest.conditions, t))
    }

    predicate Writes(latest: Stored)
    {
      latest.deleting || (!remove && latest.version == version)
    }

    /** What a run leaves in the store: a deleted object may go; an object that has changed meanwhile is left alone. */
    function Concludes(latest: Stored, files: seq<FileStatus>, now: int): Stored
    {
      if latest.deleting then latest.(finalizers := false)
      else if Writes(latest) then latest.(files := files, conditions := Concluded(latest.conditions, files, now))
      else latest
    }
  }

  /** The success of a copying has been recorded. */
  ghost predicate OnRecord(cs: seq<C.Condition>)
  {
    exists c :: c in cs && c.ctype == "Ready" && c.status == C.True && c.reason == "FileSyncSuccess"
  }

  lemma {:induction false} OnRecordIff(cs: seq<C.Condition>)
    ensures OnRecord(cs) <==> SyncDone(cs)
  {
    if OnRecord(cs) {
      var c :| c in cs && c.ctype == "Ready" && c.status == C.True && c.reason == "FileSyncSuccess";
      var i :| 0 <= i < |cs| && cs[i] == c;
      assert IsSuccess(cs[i]);
    }
    if SyncDone(cs) {
      var i :| 0 <= i < |cs| && IsSuccess(cs[i]);
      assert cs[i] in cs;
    }
  }

  /** The condition says that all files are there, or which one is not: the last such file of the first such source. */
  ghost predicate Says(ss: seq<FileStatus>, c: C.Condition, now: int)
  {
    || (AllGood(ss) && c == C.Condition("Ready", C.True, "FileSyncSuccess", "", now, 0))
    || exists i, k :: 0 <= i < |ss| && 0 <= k < |ss[i].files| && IsToBlame(ss, i, k)
                      && c == C.Condition("Ready", C.False, "FileSyncFailed",
                                          ss[i].files[k].path + " sync failed, " + ss[i].files[k].error, now, 0)
  }

  ghost predicate IsToBlame(ss: seq<FileStatus>, i: nat, k: nat)
    requires i < |ss| && k < |ss[i].files|
  {
    && ss[i].files[k].phase != Succeeded
    && (forall l :: k < l < |ss[i].files| ==> ss[i].files[l].phase == Succeeded)
    && (forall j :: 0 <= j < i ==> Good(ss[j].files))
  }

  lemma {:induction false} SourceBlames(fs: seq<Detail>, now: int) returns (k: nat)
    requires !Good(fs)
    ensures k < |fs| && fs[k].phase != Succeeded && SourceVerdict(fs, now) == Failure(fs[k], now)
    ensures forall l :: k < l < |fs| ==> fs[l].phase == Succeeded
  {
    k := |fs| - 1;
    if fs[k].phase == Succeeded {
      GoodOneMore(fs, k);
      assert fs[..k + 1] == fs;
      k := SourceBlames(fs[..k], now);
    }
  }

  lemma {:induction false} VerdictSays(ss: seq<FileStatus>, now: int)
    ensures Says(ss, Verdict(ss, now), now)
  {
    VerdictIff(ss, now);
    if !AllGood(ss) {
      var i, k := VerdictBlames(ss, now);
    } else {
      GoodVerdict(ss, now);
    }
  }

  lemma {:induction false} GoodVerdict(ss: seq<FileStatus>, now: int)
    requires AllGood(ss)
    ensures Verdict(ss, now) == Success(now)
  {
    if ss != [] { GoodVerdict(ss[1..], now); }
  }

  lemma {:induction false} VerdictBlames(ss: seq<FileStatus>, now: int) returns (i: nat, k: nat)
    requires !AllGood(ss)
    ensures i < |ss| && k < |ss[i].files| && IsToBlame(ss, i, k) && Verdict(ss, now) == Failure(ss[i].files[k], now)
  {
    if Good(ss[0].files) {
      i, k := VerdictBlames(ss[1..], now);
      assert forall j :: 0 < j < |ss| ==> ss[1..][j - 1] == ss[j];
      i := i + 1;
    } else {
      i := 0;
      k := SourceBlames(ss[0].files, now);
    }
  }

  lemma {:induction false} StoresFiles(cs: seq<C.Condition>, ss: seq<FileStatus>, now: int)
    requires C.OnePerType(cs)
    ensures !SyncDone(cs) ==> Says(ss, C.GetCondition(Concluded(cs, ss, now), "Ready"), now)
    ensures forall t :: t != "Ready" ==> C.GetCondition(Concluded(cs, ss, now), t) == C.GetCondition(cs, t)
  {
    if !SyncDone(cs) {
      var c := Verdict(ss, now);
      VerdictSays(ss, now);
      VerdictIff(ss, now);
      C.SetOneIsPut(cs, c);
      C.GetIsLookup(C.SetOne(cs, c), "Ready");
      forall t ensures t != "Ready" ==> C.GetCondition(C.SetOne(cs, c), t) == C.GetCondition(cs, t) {
        C.GetIsLookup(C.SetOne(cs, c), t);
        C.GetIsLookup(cs, t);
      }
    }
  }

  method Conclude(cs: seq<C.Condition>, ss: seq<FileStatus>, now: int) returns (r: seq<C.Condition>)
    ensures r == Concluded(cs, ss, now)
  {
    var done := false;
    for i := 0 to |cs|
      invariant done == exists j :: 0 <= j < i && IsSuccess(cs[j])
    {
      if IsSuccess(cs[i]) { done := true; }
    }
    r := cs;
    if !done {
      var condition := CheckFiles(ss, now);
      r := C.SetOne(cs, condition);
    }
  }

  method CheckFiles(ss: seq<FileStatus>, now: int) returns (condition: C.Condition)
    ensures condition == Verdict(ss, now)
  {
    condition := Success(now);
    var i, stop := 0, false;
    while i < |ss| && !stop
      invariant i <= |ss|
      invariant if stop then condition == Verdict(ss, now)
                else condition == Success(now) && Verdict(ss, now) == Verdict(ss[i..], now)
      decreases |ss| - i, !stop
    {
      assert ss[i..][0] == ss[i] && ss[i..][1..] == ss[i + 1..];
      condition, stop := CheckSource(ss[i].files, now);
      if !stop { i := i + 1; }
    }
  }

  method CheckSource(fs: seq<Detail>, now: int) returns (condition: C.Condition, stop: bool)
    ensures condition == SourceVerdict(fs, now) && stop == !Good(fs)
    ensures !stop ==> condition == Success(now)
  {
    condition, stop := Success(now), false;
    for k := 0 to |fs|
      invariant condition == SourceVerdict(fs[..k], now)
      invariant stop == !Good(fs[..k]) && (!stop ==> condition == Success(now))
    {
      assert fs[..k + 1][..k] == fs[..k];
      GoodOneMore(fs, k);
      if fs[k].phase != Succeeded {
        condition, stop := Failure(fs[k], now), true;
      }
    }
    assert fs[..|fs|] == fs;
  }

  lemma {:induction false} GoodOneMore(fs: seq<Detail>, k: nat)
    requires k < |fs|
    ensures Good(fs[..k + 1]) <==> Good(fs[..k]) && fs[k].phase == Succeeded
  {
    if Good(fs[..k + 1]) {
      assert fs[..k + 1][k] == fs[k];
      assert forall j :: 0 <= j < k ==> fs[..k + 1][j] == fs[..k][j];
    }
  }

  // When a version is ready

  lemma {:induction false} SourceVerdictIff(fs: seq<Detail>, now: int)
    ensures SourceVerdict(fs, now).ctype == C.TYPE_READY
    ensures SourceVerdict(fs, now).status == C.True <==> Good(fs)
  {
    if fs != [] {
      var n := |fs| - 1;
      SourceVerdictIff(fs[..n], now);
      GoodOneMore(fs, n);
      assert fs[..n + 1] == fs;
    }
  }

  lemma {:induction false} VerdictIff(ss: seq<FileStatus>, now: int)
    ensures Verdict(ss, now).ctype == C.TYPE_READY
    ensures Verdict(ss, now).status == C.True <==> AllGood(ss)
  {
    if ss != [] {
      VerdictIff(ss[1..], now);
      SourceVerdictIff(ss[0].files, now);
      assert forall i :: 0 < i < |ss| ==> ss[1..][i - 1] == ss[i];
    }
  }

  lemma {:induction false} ReadyAt(cs: seq<C.Condition>, i: nat)
    requires C.OnePerType(cs) && i < |cs| && cs[i].ctype == C.TYPE_READY
    ensures C.GetCondition(cs, C.TYPE_READY) == cs[i]
  {
    C.GetIsLookup(cs, C.TYPE_READY);
    C.InAsMap(cs, i);
  }

  /** After the copying a version is ready exactly if all files succeeded, or if a success was recorded before. */
  lemma {:induction false} ReadyIff(cs: seq<C.Condition>, ss: seq<FileStatus>, now: int)
    requires C.OnePerType(cs)
    ensures C.IsReady(Concluded(cs, ss, now)) <==> SyncDone(cs) || AllGood(ss)
  {
    if SyncDone(cs) {
      var i :| 0 <= i < |cs| && IsSuccess(cs[i]);
      ReadyAt(cs, i);
    } else {
      var c := Verdict(ss, now);
      VerdictIff(ss, now);
      C.SetOneIsPut(cs, c);
      C.GetIsLookup(C.SetOne(cs, c), C.TYPE_READY);
    }
  }

  /** A version that was ready once stays ready through later synchronisations, whatever becomes of its new files. */
  lemma {:induction false} OnceReadyStaysReady(cs: seq<C.Condition>, ss: seq<FileStatus>, syncTime: int, now: int)
    requires C.OnePerType(cs) && SyncDone(cs)
    ensures C.IsReady(Concluded(Resync(cs, syncTime), ss, now))
  {
    var i :| 0 <= i < |cs| && IsSuccess(cs[i]);
    FirstReady(cs, i);
    ReadyIff(cs, ss, now);
  }

  const COPIED := [FileStatus(DATASOURCE, Source("ns", "d"), [Detail("a", Succeeded, "")])]
  const ONE_MORE := [FileStatus(DATASOURCE, Source("ns", "d"), [Detail("a", Succeeded, ""), Detail("b", Failed, "no space")])]

  lemma {:induction false} ReplacesOnly(c: C.Condition, d: C.Condition)
    requires c.ctype == d.ctype
    ensures C.SetOne([c], d) == [d]
  {
    assert [c][0].ctype == d.ctype;
  }

  /** Such a version: its first file is copied, a second one is added and fails, and it stays ready. */
  lemma {:induction false} ReadyDespiteFailure(t1: int, t2: int, t3: int, t4: int)
    ensures var first := Concluded(Resync([], t1), COPIED, t2);
            var second := Concluded(Resync(first, t3), ONE_MORE, t4);
            C.IsReady(first) && C.IsReady(second) && !AllGood(ONE_MORE)
  {
    var syncing := Resync([], t1);
    assert syncing == [SyncCondition(false, t1)];
    assert Verdict(COPIED, t2) == Success(t2);
    assert !IsSuccess(syncing[0]);
    ReplacesOnly(SyncCondition(false, t1), Success(t2));
    var first := Concluded(syncing, COPIED, t2);
    assert first == [Success(t2)] && IsSuccess(first[0]);
    OnceReadyStaysReady(first, ONE_MORE, t3, t4);
    assert !Good(ONE_MORE[0].files) by { assert ONE_MORE[0].files[1].phase == Failed; }
  }

  lemma {:induction false} FirstReady(cs: seq<C.Condition>, i: nat)
    requires C.OnePerType(cs) && i < |cs| && IsSuccess(cs[i])
    ensures !NotReady(cs)
  {
    if i > 0 {
      assert cs[0].ctype != cs[i].ctype;
      FirstReady(cs[1..], i - 1);
    }
  }

  /**
   A version that was never ready is ready after a complete run exactly if every file had succeeded before or has a
   job that succeeded.
   */
  lemma {:induction false} ReadyAfterCopyingIff(spec: VersionSpec, ss: seq<FileStatus>, es: seq<Event>,
                                                cs: seq<C.Condition>, now: int)
    requires Addressable(spec, ss) && AllFindThemselves(ss) && Legal(spec, CopyRuns.Start(ss), es)
    requires Complete(After(spec, CopyRuns.Start(ss), es)) && C.OnePerType(cs) && !SyncDone(cs)
    ensures var s := After(spec, CopyRuns.Start(ss), es);
            C.IsReady(Concluded(cs, s.files, now)) <==>
              forall slot :: IsSlot(ss, slot) ==>
                if GetsJob(ss, slot, false) then slot in s.results && s.results[slot] == Done
                else DetailAt(ss, slot).phase == Succeeded
  {
    var s := After(spec, CopyRuns.Start(ss), es);
    ReadyIff(cs, s.files, now);
    RunFromStart(spec, ss, es);
    GoodSlots(s.files);
    forall slot ensures IsSlot(ss, slot) <==> IsSlot(s.files, slot) {
      if slot.source < |ss| { assert |s.files[slot.source].files| == |ss[slot.source].files|; }
    }
    forall slot | IsSlot(ss, slot)
      ensures DetailAt(s.files, slot).phase == Succeeded <==>
                if GetsJob(ss, slot, false) then slot in s.results && s.results[slot] == Done
                else DetailAt(ss, slot).phase == Succeeded {
      SucceededIff(spec, ss, es, slot);
    }
  }

  lemma {:induction false} SucceededIff(spec: VersionSpec, ss: seq<FileStatus>, es: seq<Event>, slot: Slot)
    requires Addressable(spec, ss) && AllFindThemselves(ss) && Legal(spec, CopyRuns.Start(ss), es)
    requires Complete(After(spec, CopyRuns.Start(ss), es)) && IsSlot(ss, slot)
    ensures var s := After(spec, CopyRuns.Start(ss), es);
            IsSlot(s.files, slot)
            && (DetailAt(s.files, slot).phase == Succeeded <==>
                  if GetsJob(ss, slot, false) then slot in s.results && s.results[slot] == Done
                  else DetailAt(ss, slot).phase == Succeeded)
  {
    OneJobEach(spec, ss, es);
    ResultsStandAtTheirFiles(spec, ss, es, slot);
  }

  lemma {:induction false} GoodSlots(ss: seq<FileStatus>)
    ensures AllGood(ss) <==> forall slot :: IsSlot(ss, slot) ==> DetailAt(ss, slot).phase == Succeeded
  {
    if forall slot :: IsSlot(ss, slot) ==> DetailAt(ss, slot).phase == Succeeded {
      forall i, k | 0 <= i < |ss| && 0 <= k < |ss[i].files| ensures ss[i].files[k].phase == Succeeded {
        assert IsSlot(ss, Slot(i, k)) && DetailAt(ss, Slot(i, k)) == ss[i].files[k];
      }
    }
  }
}
