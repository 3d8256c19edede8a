/** The reconciler itself: it changes the stored object and its note of readiness in place. */
module KnowledgeBaseController {
  import opened FilePhases
  import opened Conditions
  import opened KnowledgeBase
  import opened KnowledgeBaseSync

  class Reconciler {
    const uid: string
    const ns: string
    var generation: int
    var spec: Spec
    var annotation: string
    var status: Status
    var readyMap: map<string, bool>

    constructor (uid: string, ns: string, spec: Spec)
      ensures this.uid == uid && View() == State(ns, 1, spec, "", Status(0, [], []), false)
    {
      this.uid, this.ns, this.generation, this.spec := uid, ns, 1, spec;
      annotation, status, readyMap := "", Status(0, [], []), map[];
    }

    predicate Noted()
      reads this`readyMap
    {
      uid in readyMap && readyMap[uid]
    }

    ghost function View(): State
      reads this
    {
      State(ns, generation, spec, annotation, status, Noted())
    }

    // ready, unready, setCondition and patchStatus

    method SetCondition(draft: Status, c: Condition) returns (r: Status)
      modifies this`readyMap
      ensures r == draft.(conditions := SetOne(draft.conditions, c))
      ensures Noted() == (c.ctype == TYPE_READY && c.status == True)
    {
      if c.ctype == TYPE_READY && c.status == True {
        readyMap := readyMap[uid := true];
      } else {
        readyMap := readyMap - {uid};
      }
      r := draft.(conditions := SetOne(draft.conditions, c));
    }

    method PatchStatus(draft: Status, saved: bool)
      modifies this`status
      ensures View() == Patch(old(View()), draft, saved)
    {
      if draft == status {
        return;
      }
      if Noted() && !IsReady(draft.conditions) {
        return;
      }
      if saved {
        status := draft;
      }
    }

    method ConcludeWith(draft: Status, c: Condition, saved: bool)
      requires c.ctype == TYPE_READY
      modifies this`readyMap, this`status
      ensures View() == Conclude(old(View()), draft, c, saved)
    {
      var r := SetCondition(draft, c);
      PatchStatus(r, saved);
    }

    method Reconcile(env: Env)
      modifies this
      ensures DistinctSpec(old(spec.groups), ns) ==> View() == KnowledgeBase.Reconcile(old(View()), env)
    {
      if status.conditions == [] {
        ConcludeWith(status, PendingCondition(""), env.saved);
        return;
      }
      if status.observed != generation {
        ConcludeWith(status.(observed := generation), InitCondition(), env.saved);
        return;
      }
      if annotation != "" {
        ManualUpdate(env.saved);
        return;
      }
      var changed, details := SyncStatus(spec.groups, ns, status.details);
      if changed {
        if env.saved {
          status := status.(details := details);
        }
        return;
      }
      ReconcileGroups(env);
    }

    method ManualUpdate(saved: bool)
      requires annotation != ""
      modifies this
      ensures View() == HandleAnnotation(old(View()), saved)
    {
      if annotation != RETRY_FOR_FAILED && status.details != [] {
        ConcludeWith(status.(details := []), InitCondition(), saved);
        return;
      }
      if annotation == RETRY_FOR_FAILED {
        var found, details := RetryFailed(status.details);
        if found {
          ConcludeWith(status.(details := details), InitCondition(), saved);
          return;
        }
      }
      if saved {
        annotation := "";
      }
    }

    method ReconcileGroups(env: Env)
      modifies this
      ensures View() == ReconcileFiles(old(View()), env)
    {
      if !spec.hasEmbedder || !spec.hasVectorStore || spec.groups == [] {
        ConcludeWith(status, PendingCondition("embedder or vectorstore or filegroups is not setting"), env.saved);
        return;
      }
      match DependencyProblem(env.embedder, "embedder is not found", "embedder is not ready") {
        case Some(c) => ConcludeWith(status, c, env.saved); return;
        case None =>
      }
      match DependencyProblem(env.vectorStore, "vectorStore is not found", "vectorstore is not ready") {
        case Some(c) => ConcludeWith(status, c, env.saved); return;
        case None =>
      }
      if IsReady(status.conditions) || Noted() {
        return;
      }
      WalkFiles(env);
    }

    /** The nested loops over groups and files: the first open entry ends the turn. */
    method WalkFiles(env: Env)
      modifies this
      ensures View() == WorkOnFiles(old(View()), env)
    {
      var haveFailed := false;
      for i := 0 to |status.details|
        invariant View() == old(View())
        invariant FirstOpen(status.details, 0) == FirstOpen(status.details, i)
        invariant haveFailed <==> HasPhase(status.details[..i], Failed)
      {
        var j, failed := ScanFiles(status.details[i].files);
        if j < |status.details[i].files| {
          var d := Advance(status.details[i].files[j], env.fetch);
          PatchStatus(status.(details := SetDetail(status.details, i, j, d)), env.saved);
          return;
        }
        HasPhaseSnoc(status.details, i, Failed);
        haveFailed := haveFailed || failed;
      }
      assert status.details[..|status.details|] == status.details;
      if haveFailed {
        ConcludeWith(status, ErrorCondition("some files failed to process."), env.saved);
        return;
      }
      if status.conditions != [] && status.conditions[0].status != True {
        ConcludeWith(status, ReadyCondition(), env.saved);
        return;
      }
      PatchStatus(status, env.saved);
    }
  }

  ghost predicate FileHasPhase(ds: seq<Detail>, phase: FilePhase)
  {
    exists j :: 0 <= j < |ds| && ds[j].phase == phase
  }

  lemma {:induction false} HasPhaseSnoc(details: seq<GroupDetail>, i: nat, phase: FilePhase)
    requires i < |details|
    ensures HasPhase(details[..i + 1], phase) <==> HasPhase(details[..i], phase) || FileHasPhase(details[i].files, phase)
  {
    var a, b := details[..i], details[..i + 1];
    if HasPhase(a, phase) {
      var k, j :| 0 <= k < |a| && 0 <= j < |a[k].files| && a[k].files[j].phase == phase;
      assert b[k].files[j].phase == phase;
    }
    if FileHasPhase(details[i].files, phase) {
      var j :| 0 <= j < |details[i].files| && details[i].files[j].phase == phase;
      assert b[i].files[j].phase == phase;
    }
    if HasPhase(b, phase) {
      var k, j :| 0 <= k < |b| && 0 <= j < |b[k].files| && b[k].files[j].phase == phase;
      if k < i { assert a[k].files[j].phase == phase; }
    }
  }

  /** Skipped, failed and succeeded files are passed over; failures are remembered. */
  method ScanFiles(ds: seq<Detail>) returns (j: nat, failed: bool)
    ensures j == FirstOpenFile(ds, 0)
    ensures j == |ds| ==> (failed <==> FileHasPhase(ds, Failed))
  {
    j, failed := 0, false;
    while j < |ds| && !Open(ds[j])
      invariant 0 <= j <= |ds| && FirstOpenFile(ds, 0) == FirstOpenFile(ds, j)
      invariant failed <==> exists k :: 0 <= k < j && ds[k].phase == Failed
    {
      if ds[j].phase == Failed {
        failed := true;
      }
      j := j + 1;
    }
  }

  /** The nested loops that put failed entries back to Processing. */
  method RetryFailed(details: seq<GroupDetail>) returns (found: bool, r: seq<GroupDetail>)
    ensures found <==> HasPhase(details, Failed)
    ensures r == Retry(details)
  {
    found, r := false, [];
    for i := 0 to |details|
      invariant found <==> HasPhase(details[..i], Failed)
      invariant r == Retry(details[..i])
    {
      var ds: seq<Detail> := [];
      var here := false;
      for j := 0 to |details[i].files|
        invariant here <==> exists k :: 0 <= k < j && details[i].files[k].phase == Failed
        invariant ds == RetryFiles(details[i].files[..j])
      {
        if details[i].files[j].phase == Failed {
          here := true;
        }
        ds := ds + [RetryDetail(details[i].files[j])];
      }
      assert details[i].files[..|details[i].files|] == details[i].files;
      HasPhaseSnoc(details, i, Failed);
      found := found || here;
      r := r + [details[i].(files := ds)];
      assert Retry(details[..i + 1]) == Retry(details[..i]) + [details[i].(files := RetryFiles(details[i].files))];
    }
    assert details[..|details|] == details;
  }
}
