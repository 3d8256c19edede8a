/** The evaluation of a RAG application: the reconciler and the watchers of jobs, claim and specification. */
module Rag {
  import opened Options

  /** The reconciler moves the status from phase to phase, unset being the empty string. */
  datatype Phase = Unset | InitPvc | Download | Generate | Judge | Upload | Complete

  function Rank(p: Phase): nat
  {
    match p
    case Unset => 0
    case InitPvc => 1
    case Download => 2
    case Generate => 3
    case Judge => 4
    case Upload => 5
    case Complete => 6
  }

  /** The phase that the handler opens after p. */
  function Next(p: Phase): Phase
  {
    match p
    case Unset => InitPvc
    case InitPvc => Download
    case Download => Generate
    case Generate => Judge
    case Judge => Upload
    case Upload => Complete
    case Complete => Complete
  }

  /** The phases that are carried out by a job. */
  predicate HasJob(p: Phase)
  {
    p == Download || p == Generate || p == Judge || p == Upload
  }

  datatype Kind = JobComplete | JobFailed | JobSuspended

  datatype Note = NeedPvc | PvcFailed | PvcCreated | PvcReady | NextOpened | Finished | JobCreated | JobNotCreated
                | FromJob(text: string)

  /** A condition of a job, or one in the same form that the reconciler writes itself. */
  datatype Condition = Condition(kind: Kind, holds: bool, note: Note, time: nat)

  predicate IsCompletion(c: Condition)
  {
    c.kind == JobComplete && c.holds
  }

  /** After such a condition a job changes no more. */
  predicate IsTerminal(c: Condition)
  {
    c.kind != JobSuspended && c.holds
  }

  predicate Done(conditions: seq<Condition>)
  {
    exists i :: 0 <= i < |conditions| && IsCompletion(conditions[i])
  }

  datatype Status = Status(phase: Phase, conditions: seq<Condition>)

  /** Phase and conditions of a status patch apply separately: a field that equals the one read is not in the patch. */
  datatype Patch = Patch(base: Status, next: Status) {
    function Apply(live: Status): Status
    {
      Status(if next.phase == base.phase then live.phase else next.phase,
             if next.conditions == base.conditions then live.conditions else next.conditions)
    }
  }

  /**
   A job that exists. speaks: it has not told a terminal condition yet. current: it was created since the evaluation was
   last reset, and does not stay behind from before.
   */
  datatype Job = Job(speaks: bool, current: bool, deleting: bool)

  const CREATED := Job(true, true, false)

  datatype Claim = ClaimUnreadable | ClaimMissing(created: bool) | ClaimThere(deleting: bool)

  /** Whether an existing job is suspended and complete, and whether the specification wants it suspended. */
  datatype Suspension = Suspension(suspended: bool, complete: bool, wanted: bool)

  /** What the cluster answers to one reconcile. */
  datatype Answers = Answers(claim: Claim, jobReadable: bool, jobBuilt: bool, jobCreated: bool, suspension: Suspension,
                             now: nat)

  /** How far the removal of jobs, claim and status after a change of the specification comes. */
  datatype Removal = JobsRefused | ClaimRefused | StatusRefused | Removed

  datatype Handled = Handled(patch: Option<Patch>, jobs: map<Phase, Job>)

  function Unfinished(note: Note, time: nat): seq<Condition>
  {
    [Condition(JobComplete, false, note, time)]
  }

  /** The phase of the volume claim. */
  function HandlePvc(s: Status, a: Answers): Option<Patch>
  {
    if Done(s.conditions) then Some(Patch(s, Status(Download, Unfinished(PvcReady, 0))))
    else match a.claim
      case ClaimUnreadable => None
      case ClaimMissing(created) =>
        if created then Some(Patch(s, s.(conditions := [Condition(JobComplete, true, PvcCreated, a.now)])))
        else Some(Patch(s, s.(conditions := [Condition(JobFailed, true, PvcFailed, a.now)])))
      case ClaimThere(deleting) =>
        if deleting then None
        else Some(Patch(s, s.(conditions := [Condition(JobComplete, true, PvcCreated, a.now)])))
  }

  function Opened(p: Phase, now: nat): Status
  {
    if Next(p) == Complete then Status(Complete, [Condition(JobComplete, true, Finished, now)])
    else Status(Next(p), Unfinished(NextOpened, now))
  }

  /** A phase with a job: open the next phase, or see that the job exists. */
  function HandleJob(s: Status, jobs: map<Phase, Job>, a: Answers): Handled
  {
    if Done(s.conditions) then Handled(Some(Patch(s, Opened(s.phase, a.now))), jobs)
    else if !a.jobReadable || s.phase in jobs || !a.jobBuilt then Handled(None, jobs)
    else if !a.jobCreated then
      Handled(Some(Patch(s, s.(conditions := [Condition(JobFailed, true, JobNotCreated, a.now)]))), jobs)
    else
      Handled(Some(Patch(s, s.(conditions := Unfinished(JobCreated, a.now)))), jobs[s.phase := CREATED])
  }

  /** The update of the job's suspend flag, for a job that exists, is not being deleted and has not completed. */
  function SwitchSuspend(s: Status, jobs: map<Phase, Job>, a: Answers): Option<bool>
  {
    if !HasJob(s.phase) || Done(s.conditions) || !a.jobReadable || s.phase !in jobs || jobs[s.phase].deleting then None
    else if a.suspension.suspended != a.suspension.wanted && !a.suspension.complete then Some(a.suspension.wanted)
    else None
  }

  /** One reconcile up to its status patch. */
  function Handle(s: Status, jobs: map<Phase, Job>, a: Answers): Handled
  {
    if s.phase == Unset then Handled(Some(Patch(s, Status(InitPvc, Unfinished(NeedPvc, 0)))), jobs)
    else if s.phase == InitPvc then Handled(HandlePvc(s, a), jobs)
    else if HasJob(s.phase) then HandleJob(s, jobs, a)
    else Handled(None, jobs)
  }

  /** c is the first of the latest conditions. */
  predicate IsLatest(conditions: seq<Condition>, k: int)
  {
    && 0 <= k < |conditions|
    && (forall i :: 0 <= i < k ==> conditions[i].time < conditions[k].time)
    && (forall i :: k <= i < |conditions| ==> conditions[i].time <= conditions[k].time)
  }

  function LatestAt(conditions: seq<Condition>): (k: nat)
    requires conditions != []
    ensures IsLatest(conditions, k)
  {
    if |conditions| == 1 then 0
    else
      var n := |conditions| - 1;
      var k := LatestAt(conditions[..n]);
      assert forall i :: 0 <= i < n ==> conditions[..n][i] == conditions[i];
      if conditions[k].time < conditions[n].time then n else k
  }

  lemma {:induction false} LatestIsOne(conditions: seq<Condition>, j: int, k: int)
    requires IsLatest(conditions, j) && IsLatest(conditions, k)
    ensures j == k
  {
    assert conditions[j].time <= conditions[k].time && conditions[k].time <= conditions[j].time;
  }

  function Latest(conditions: seq<Condition>): Condition
    requires conditions != []
  {
    conditions[LatestAt(conditions)]
  }

  predicate ReportsEnd(conditions: seq<Condition>)
  {
    exists i :: 0 <= i < |conditions| && IsTerminal(conditions[i])
  }

  predicate ReportsCompletion(conditions: seq<Condition>)
  {
    conditions != [] && IsCompletion(Latest(conditions))
  }

  /** The status after a job's conditions changed; saved says whether the patch succeeds. */
  function Reported(s: Status, conditions: seq<Condition>, saved: bool): Status
  {
    if saved && conditions != [] then s.(conditions := [Latest(conditions)]) else s
  }

  function Fresh(): Status
  {
    Status(Unset, [])
  }

  function LeftBehind(jobs: map<Phase, Job>): map<Phase, Job>
  {
    map p | p in jobs :: jobs[p].(current := false)
  }

  function AllDeleting(jobs: map<Phase, Job>): map<Phase, Job>
  {
    map p | p in jobs :: jobs[p].(deleting := true)
  }

  /** The jobs after the removal of jobs, claim and status, however far it comes. */
  function JobsAfter(jobs: map<Phase, Job>, removal: Removal): map<Phase, Job>
  {
    match removal
    case JobsRefused => jobs
    case ClaimRefused => AllDeleting(jobs)
    case StatusRefused => AllDeleting(jobs)
    case Removed => LeftBehind(AllDeleting(jobs))
  }

  /** The stored RAG object and its jobs, as the controller reads and patches them. */
  class RAGReconciler {
    var status: Status
    var jobs: map<Phase, Job>

    constructor ()
      ensures status == Fresh() && jobs == map[]
    {
      status, jobs := Fresh(), map[];
    }

    static method FindCompletion(conditions: seq<Condition>) returns (found: bool)
      ensures found == Done(conditions)
    {
      found := false;
      for i := 0 to |conditions|
        invariant found == exists j :: 0 <= j < i && IsCompletion(conditions[j])
      {
        if IsCompletion(conditions[i]) { found := true; }
      }
    }

    /** One reconcile up to its status patch, which the caller sends later. */
    method PhaseHandler(a: Answers) returns (patch: Option<Patch>, suspend: Option<bool>)
      modifies `jobs
      ensures Handled(patch, jobs) == Handle(old(status), old(jobs), a)
      ensures suspend == SwitchSuspend(old(status), old(jobs), a)
    {
      patch, suspend := None, None;
      if status.phase == Unset {
        patch := Some(Patch(status, Status(InitPvc, Unfinished(NeedPvc, 0))));
      } else if status.phase == InitPvc {
        patch := InitPVC(a);
      } else if HasJob(status.phase) {
        patch, suspend := JobGenerator(a);
      }
    }

    method InitPVC(a: Answers) returns (patch: Option<Patch>)
      ensures patch == HandlePvc(status, a)
    {
      var ready := FindCompletion(status.conditions);
      if ready {
        return Some(Patch(status, Status(Download, Unfinished(PvcReady, 0))));
      }
      if a.claim.ClaimUnreadable? { return None; }
      if a.claim.ClaimMissing? && !a.claim.created {
        return Some(Patch(status, status.(conditions := [Condition(JobFailed, true, PvcFailed, a.now)])));
      }
      if a.claim.ClaimThere? && a.claim.deleting { return None; }
      return Some(Patch(status, status.(conditions := [Condition(JobComplete, true, PvcCreated, a.now)])));
    }

    /** suspend is the value that the suspend flag of the existing job is set to, if it is. */
    method JobGenerator(a: Answers) returns (patch: Option<Patch>, suspend: Option<bool>)
      requires HasJob(status.phase)
      modifies `jobs
      ensures Handled(patch, jobs) == HandleJob(old(status), old(jobs), a)
      ensures suspend == SwitchSuspend(old(status), old(jobs), a)
    {
      patch, suspend := None, None;
      var finished := FindCompletion(status.conditions);
      if finished {
        var d := Condition(JobComplete, false, NextOpened, a.now);
        if Next(status.phase) == Complete { d := Condition(JobComplete, true, Finished, a.now); }
        patch := Some(Patch(status, Status(Next(status.phase), [d])));
      } else if a.jobReadable {
        if status.phase !in jobs {
          patch := CreateJob(a);
        } else if !jobs[status.phase].deleting && a.suspension.suspended != a.suspension.wanted {
          if !a.suspension.complete { suspend := Some(a.suspension.wanted); }
        }
      }
    }

    method CreateJob(a: Answers) returns (patch: Option<Patch>)
      requires !Done(status.conditions) && a.jobReadable && status.phase !in jobs
      modifies `jobs
      ensures Handled(patch, jobs) == HandleJob(old(status), old(jobs), a)
    {
      patch := None;
      if a.jobBuilt {
        if a.jobCreated {
          jobs := jobs[status.phase := CREATED];
          patch := Some(Patch(status, status.(conditions := Unfinished(JobCreated, a.now))));
        } else {
          patch := Some(Patch(status, status.(conditions := [Condition(JobFailed, true, JobNotCreated, a.now)])));
        }
      }
    }

    /** The patch of a reconcile reaches the stored object. */
    method SendPatch(patch: Patch)
      modifies `status
      ensures status == patch.Apply(old(status))
    {
      if patch.next.phase != patch.base.phase { status := status.(phase := patch.next.phase); }
      if patch.next.conditions != patch.base.conditions { status := status.(conditions := patch.next.conditions); }
    }

    static method FindLatest(conditions: seq<Condition>) returns (c: Condition)
      requires conditions != []
      ensures c == Latest(conditions)
    {
      c := conditions[0];
      ghost var k := 0;
      for i := 1 to |conditions|
        invariant 0 <= k < i && c == conditions[k]
        invariant forall j :: 0 <= j < k ==> conditions[j].time < c.time
        invariant forall j :: k <= j < i ==> conditions[j].time <= c.time
      {
        if c.time < conditions[i].time {
          c := conditions[i];
          k := i;
        }
      }
      LatestIsOne(conditions, k, LatestAt(conditions));
    }

    method WhenJobChanged(conditions: seq<Condition>, saved: bool)
      modifies `status
      ensures status == Reported(old(status), conditions, saved)
    {
      if conditions == [] { return; }
      var c := FindLatest(conditions);
      if saved { status := status.(conditions := [c]); }
    }

    /** The jobs stay; they count as left behind from now on. */
    method WhenPVCDeleted(saved: bool)
      modifies this
      ensures status == (if saved then Fresh() else old(status))
      ensures jobs == (if saved then LeftBehind(old(jobs)) else old(jobs))
    {
      if saved { status, jobs := Fresh(), LeftBehind(jobs); }
    }

    method DeleteJobsAndPvc(removal: Removal)
      modifies this
      ensures status == (if removal == Removed then Fresh() else old(status))
      ensures jobs == JobsAfter(old(jobs), removal)
    {
      if removal == JobsRefused { return; }
      jobs := AllDeleting(jobs);
      if removal == ClaimRefused || removal == StatusRefused { return; }
      status, jobs := Fresh(), LeftBehind(jobs);
    }
  }
}
