/** Runs of the evaluation protocol, with jobs, claim and specification changing between reading and patching. */
module RagRuns {
  import opened Options
  import opened Rag

  /**
   A reconcile reads the status and creates its job in one step and patches the status in a later one.
   flight: the patch of the reconcile under way. reported: the phases whose job was created and told its completion
   since the last reset.
   made: the jobs created since jobs were last deleted or the evaluation was last reset. claimed: since the last reset a
   reconcile has found the claim in place, or created it.
   */
  datatype State = State(status: Status, jobs: map<Phase, Job>, flight: Option<Patch>, reported: set<Phase>,
                         made: multiset<Phase>, claimed: bool)

  datatype Event = Begin(answers: Answers)
                 | Commit(accepted: bool)
                 | JobChanged(job: Phase, conditions: seq<Condition>, saved: bool)
                 | JobGone(gone: Phase)
                 | PvcDeleted(reset: bool)
                 | SpecChanged(removal: Removal)

  function Start(): State
  {
    State(Fresh(), map[], None, {}, multiset{}, false)
  }

  /**
   One worker reconciles the object. A job speaks until its terminal condition, whatever has been reset meanwhile, and
   in its own words.
   */
  predicate Enabled(s: State, e: Event)
  {
    match e
    case Begin(_) => s.flight == None
    case Commit(_) => s.flight.Some?
    case JobChanged(p, conditions, _) => p in s.jobs && s.jobs[p].speaks && OwnWords(conditions)
    case JobGone(p) => p in s.jobs && s.jobs[p].deleting
    case PvcDeleted(_) => true
    case SpecChanged(_) => true
  }

  predicate OwnWords(conditions: seq<Condition>)
  {
    forall i :: 0 <= i < |conditions| ==> conditions[i].note.FromJob?
  }

  /** The reconcile looks for the claim, and finds it in place or creates it. */
  predicate FindsClaim(s: Status, a: Answers)
  {
    s.phase == InitPvc && !Done(s.conditions) && (a.claim == ClaimThere(false) || a.claim == ClaimMissing(true))
  }

  function Began(s: State, a: Answers): State
  {
    var h := Handle(s.status, s.jobs, a);
    s.(jobs := h.jobs, flight := h.patch,
       made := if h.jobs == s.jobs then s.made else s.made + multiset{s.status.phase},
       claimed := s.claimed || FindsClaim(s.status, a))
  }

  function Committed(s: State, accepted: bool): State
  {
    if s.flight.Some? && accepted then s.(status := s.flight.value.Apply(s.status), flight := None)
    else s.(flight := None)
  }

  function Changed(s: State, p: Phase, conditions: seq<Condition>, saved: bool): State
  {
    if p !in s.jobs then s
    else s.(
      status := Reported(s.status, conditions, saved),
      jobs := if ReportsEnd(conditions) then s.jobs[p := s.jobs[p].(speaks := false)] else s.jobs,
      reported := if ReportsCompletion(conditions) && s.jobs[p].current then s.reported + {p} else s.reported)
  }

  function Lost(s: State, reset: bool): State
  {
    if reset then
      s.(status := Fresh(), jobs := LeftBehind(s.jobs), reported := {}, made := multiset{}, claimed := false)
    else s
  }

  function Respecified(s: State, removal: Removal): State
  {
    s.(status := if removal == Removed then Fresh() else s.status,
       jobs := JobsAfter(s.jobs, removal),
       reported := if removal == Removed then {} else s.reported,
       made := if removal == JobsRefused then s.made else multiset{},
       claimed := removal != Removed && s.claimed)
  }

  function Step(s: State, e: Event): State
  {
    match e
    case Begin(a) => Began(s, a)
    case Commit(accepted) => Committed(s, accepted)
    case JobChanged(p, conditions, saved) => Changed(s, p, conditions, saved)
    case JobGone(p) => s.(jobs := s.jobs - {p})
    case PvcDeleted(reset) => Lost(s, reset)
    case SpecChanged(removal) => Respecified(s, removal)
  }

  predicate Legal(s: State, es: seq<Event>)
    decreases |es|
  {
    es == [] || (Enabled(s, es[0]) && Legal(Step(s, es[0]), es[1..]))
  }

  function After(s: State, es: seq<Event>): State
    decreases |es|
  {
    if es == [] then s else After(Step(s, es[0]), es[1..])
  }

  /** The step sends a patch that moves the phase although a reset came after the reconcile had read the status. */
  predicate Overtaken(s: State, e: Event)
  {
    && e == Commit(true)
    && s.flight.Some?
    && s.flight.value.next.phase != s.flight.value.base.phase
    && s.flight.value.base.phase != s.status.phase
  }

  /** The move overtaken is one that opens the phase after a job's phase. */
  predicate Skips(s: State, e: Event)
  {
    Overtaken(s, e) && HasJob(s.flight.value.base.phase)
  }

  /** A completion is entered for a phase whose job has told none: that of another job, or of one from before a reset. */
  predicate Misleads(s: State, e: Event)
  {
    && e.JobChanged? && e.saved && ReportsCompletion(e.conditions)
    && HasJob(s.status.phase) && s.status.phase !in s.reported
    && !(e.job == s.status.phase && e.job in s.jobs && s.jobs[e.job].current)
  }

  predicate Harmful(s: State, e: Event)
  {
    Skips(s, e) || Misleads(s, e)
  }

  predicate Harmless(s: State, es: seq<Event>)
    decreases |es|
  {
    es == [] || (Enabled(s, es[0]) && !Harmful(s, es[0]) && Harmless(Step(s, es[0]), es[1..]))
  }

  // What every run keeps

  /** A patch keeps its phase or moves it one link, and the live phase is the one it read, or reset. */
  predicate FlightFits(s: State)
  {
    s.flight.Some? ==>
      var f := s.flight.value;
      && (s.status.phase == f.base.phase || s.status.phase == Unset)
      && (f.next.phase == f.base.phase || (f.base.phase != Complete && f.next.phase == Next(f.base.phase)))
  }

  predicate MadeExist(s: State)
  {
    forall p <- s.made :: s.made[p] == 1 && p in s.jobs && !s.jobs[p].deleting
  }

  lemma {:induction false} BeginKeepsMade(s: State, a: Answers)
    requires MadeExist(s)
    ensures MadeExist(Began(s, a))
  {
    var t := Began(s, a);
    if t.jobs != s.jobs { assert s.status.phase !in s.made; }
  }

  lemma {:induction false} StepKeepsMade(s: State, e: Event)
    requires MadeExist(s) && Enabled(s, e)
    ensures MadeExist(Step(s, e))
  {
    if e.Begin? { BeginKeepsMade(s, e.answers); }
    if e.JobGone? { assert e.gone !in s.made; }
  }

  lemma {:induction false} RunKeepsMade(s: State, es: seq<Event>)
    requires MadeExist(s) && Legal(s, es)
    ensures MadeExist(After(s, es))
    decreases |es|
  {
    if es != [] {
      StepKeepsMade(s, es[0]);
      RunKeepsMade(Step(s, es[0]), es[1..]);
    }
  }

  /** Whatever overtakes whatever: between two resets no phase gets a second job. */
  lemma {:induction false} OneJobPerPhase(es: seq<Event>, p: Phase)
    requires Legal(Start(), es)
    ensures After(Start(), es).made[p] <= 1
  {
    RunKeepsMade(Start(), es);
    if After(Start(), es).made[p] > 0 { assert p in After(Start(), es).made; }
  }

  lemma {:induction false} StepKeepsFlight(s: State, e: Event)
    requires FlightFits(s) && Enabled(s, e)
    ensures FlightFits(Step(s, e))
  {
  }

  /** The phase stays, goes one link on, or is reset. */
  predicate OneLink(p: Phase, q: Phase)
  {
    q == p || q == Unset || (p != Complete && q == Next(p))
  }

  lemma {:induction false} StepMovesOneLinkIff(s: State, e: Event)
    requires FlightFits(s) && Enabled(s, e)
    ensures OneLink(s.status.phase, Step(s, e).status.phase) <==> !Overtaken(s, e)
  {
  }

  lemma {:induction false} RunKeepsFlight(s: State, es: seq<Event>)
    requires FlightFits(s) && Legal(s, es)
    ensures FlightFits(After(s, es))
    decreases |es|
  {
    if es != [] {
      StepKeepsFlight(s, es[0]);
      RunKeepsFlight(Step(s, es[0]), es[1..]);
    }
  }

  /** A step of a run breaks the chain of phases exactly when it sends a phase move that a reset has overtaken. */
  lemma {:induction false} MovesOneLinkIff(es: seq<Event>, e: Event)
    requires Legal(Start(), es) && Enabled(After(Start(), es), e)
    ensures OneLink(After(Start(), es).status.phase, Step(After(Start(), es), e).status.phase)
            <==> !Overtaken(After(Start(), es), e)
  {
    RunKeepsFlight(Start(), es);
    StepMovesOneLinkIff(After(Start(), es), e);
  }

  // Runs from the start, one event after the other

  const WILLING := Answers(ClaimThere(false), true, true, true, Suspension(false, false, false), 0)

  lemma {:induction false} Append(s: State, es: seq<Event>, e: Event)
    ensures After(s, es + [e]) == Step(After(s, es), e)
    ensures Legal(s, es + [e]) <==> Legal(s, es) && Enabled(After(s, es), e)
    decreases |es|
  {
    if es == [] {
      assert [] + [e] == [e] && [e][1..] == [];
    } else {
      Append(Step(s, es[0]), es[1..], e);
      assert (es + [e])[0] == es[0] && (es + [e])[1..] == es[1..] + [e];
    }
  }

  predicate Leads(es: seq<Event>, s: State)
  {
    Legal(Start(), es) && After(Start(), es) == s
  }

  lemma {:induction false} LeadsOn(es: seq<Event>, s: State, e: Event)
    requires Leads(es, s) && Enabled(s, e)
    ensures Leads(es + [e], Step(s, e))
  {
    Append(Start(), es, e);
  }

  /** One reconcile and its patch, with nothing in between. */
  const RECONCILE := [Begin(WILLING), Commit(true)]

  function Reconciled(s: State): State
  {
    Step(Step(s, Begin(WILLING)), Commit(true))
  }

  lemma {:induction false} LeadsOnBy(es: seq<Event>, s: State)
    requires Leads(es, s) && s.flight == None && Handle(s.status, s.jobs, WILLING).patch.Some?
    ensures Leads(es + RECONCILE, Reconciled(s))
  {
    LeadsOn(es, s, Begin(WILLING));
    LeadsOn(es + [Begin(WILLING)], Step(s, Begin(WILLING)), Commit(true));
    assert es + [Begin(WILLING)] + [Commit(true)] == es + RECONCILE;
  }

  function ClaimOpen(): Status
  {
    Status(InitPvc, Unfinished(NeedPvc, 0))
  }

  function ClaimMade(): Status
  {
    Status(InitPvc, [Condition(JobComplete, true, PvcCreated, 0)])
  }

  function DownloadOpen(): Status
  {
    Status(Download, Unfinished(PvcReady, 0))
  }

  lemma {:induction false} OpensClaim(s: State)
    requires s.status == Fresh() && s.flight == None
    ensures Handle(s.status, s.jobs, WILLING).patch.Some? && Reconciled(s) == s.(status := ClaimOpen())
  {
  }

  lemma {:induction false} MakesClaim(s: State)
    requires s.status == ClaimOpen() && s.flight == None
    ensures Handle(s.status, s.jobs, WILLING).patch.Some? && Reconciled(s) == s.(status := ClaimMade(), claimed := true)
  {
    assert !Done(s.status.conditions);
  }

  lemma {:induction false} OpensDownload(s: State)
    requires s.status == ClaimMade() && s.flight == None
    ensures Handle(s.status, s.jobs, WILLING).patch.Some? && Reconciled(s) == s.(status := DownloadOpen())
    ensures !Done(DownloadOpen().conditions)
  {
    assert IsCompletion(s.status.conditions[0]);
  }

  lemma {:induction false} CreatesDownload(s: State)
    requires s.status == DownloadOpen() && s.flight == None && Download !in s.jobs
    ensures Step(s, Begin(WILLING)).jobs == s.jobs[Download := CREATED] && Step(s, Begin(WILLING)).status == s.status
    ensures Handle(s.status, s.jobs, WILLING).patch == Some(Patch(s.status, Status(Download, Unfinished(JobCreated, 0))))
  {
    assert !Done(s.status.conditions);
  }

  /** The reconciles that open the claim phase and end it. */
  const CLAIMING := [] + RECONCILE + RECONCILE
  const CLAIMED := State(ClaimMade(), map[], None, {}, multiset{}, true)

  lemma {:induction false} Claims()
    ensures Leads(CLAIMING, CLAIMED)
  {
    assert Leads([], Start());
    OpensClaim(Start());
    LeadsOnBy([], Start());
    MakesClaim(Reconciled(Start()));
    LeadsOnBy([] + RECONCILE, Reconciled(Start()));
  }

  /** The claim is lost between the reading of its phase and the patch that ends the phase. */
  const OVERTAKING := CLAIMING + [Begin(WILLING)] + [PvcDeleted(true)]

  /** Such a run exists: the phase jumps from unset to download. */
  lemma {:induction false} ResetCanBeOvertaken()
    ensures Legal(Start(), OVERTAKING) && Enabled(After(Start(), OVERTAKING), Commit(true))
    ensures After(Start(), OVERTAKING).status.phase == Unset
    ensures Step(After(Start(), OVERTAKING), Commit(true)).status.phase == Download
  {
    Claims();
    assert IsCompletion(CLAIMED.status.conditions[0]);
    LeadsOn(CLAIMING, CLAIMED, Begin(WILLING));
    LeadsOn(CLAIMING + [Begin(WILLING)], Step(CLAIMED, Begin(WILLING)), PvcDeleted(true));
  }

  /** The download phase is open and its job does not exist yet. */
  const OPENING := CLAIMING + RECONCILE
  const OPENED := State(DownloadOpen(), map[], None, {}, multiset{}, true)

  lemma {:induction false} Opens()
    ensures Leads(OPENING, OPENED)
  {
    Claims();
    OpensDownload(CLAIMED);
    LeadsOnBy(CLAIMING, CLAIMED);
  }

  const COMPLETED := [Condition(JobComplete, true, FromJob("Completed"), 0)]

  /** The download job runs, and has told its completion. */
  const DOWNLOADING := OPENING + RECONCILE
  const DOWNLOADED := DOWNLOADING + [JobChanged(Download, COMPLETED, true)]

  function Downloading(): State
  {
    State(Status(Download, Unfinished(JobCreated, 0)), map[Download := CREATED], None, {}, multiset{Download}, true)
  }

  function Downloaded(): State
  {
    State(Status(Download, COMPLETED), map[Download := CREATED.(speaks := false)], None, {Download}, multiset{Download},
          true)
  }

  lemma {:induction false} Downloads()
    ensures Leads(DOWNLOADING, Downloading()) && Leads(DOWNLOADED, Downloaded())
  {
    Opens();
    CreatesDownload(OPENED);
    LeadsOnBy(OPENING, OPENED);
    assert IsTerminal(COMPLETED[0]);
    LeadsOn(DOWNLOADING, Downloading(), JobChanged(Download, COMPLETED, true));
  }

  // Reaching a phase means that every job before it reported completion

  predicate Before(p: Phase, q: Phase)
  {
    HasJob(p) && Rank(p) < Rank(q)
  }

  /** Every job before the phase told its completion since the last reset. */
  predicate AllReported(s: State)
  {
    forall p :: Before(p, s.status.phase) ==> p in s.reported
  }

  /** And so did the job of the phase itself, if a completion is entered. */
  predicate Honest(s: State)
  {
    AllReported(s) && (HasJob(s.status.phase) && Done(s.status.conditions) ==> s.status.phase in s.reported)
  }

  /** A patch that opens the phase after a job's phase was made on a completion, and writes none itself. */
  predicate FlightSound(s: State, f: Patch)
  {
    if f.next.phase == f.base.phase then
      HasJob(f.base.phase) ==> !Done(f.next.conditions)
    else
      && (f.base.phase == s.status.phase && HasJob(f.base.phase) ==> f.base.phase in s.reported)
      && (f.base.phase != Unset ==> Done(f.base.conditions))
      && (HasJob(f.next.phase) ==> !Done(f.next.conditions))
  }

  /** While a patch is in flight that was made before a reset, all jobs are from before it and none is reported. */
  predicate Quiet(s: State)
  {
    s.flight.Some? && s.flight.value.base.phase != s.status.phase ==>
      s.reported == {} && forall p <- s.jobs :: !s.jobs[p].current
  }

  predicate Sound(s: State)
  {
    FlightFits(s) && Honest(s) && Quiet(s) && (s.flight.Some? ==> FlightSound(s, s.flight.value))
  }

  lemma {:induction false} CommitKeepsSound(s: State, accepted: bool)
    requires Sound(s) && Enabled(s, Commit(accepted)) && !Skips(s, Commit(accepted))
    ensures Sound(Committed(s, accepted))
  {
  }

  lemma {:induction false} BeginKeepsSound(s: State, a: Answers)
    requires Sound(s) && s.flight == None
    ensures Sound(Began(s, a))
  {
  }

  lemma {:induction false} ChangeKeepsSound(s: State, e: Event)
    requires Sound(s) && e.JobChanged? && Enabled(s, e) && !Misleads(s, e)
    ensures Sound(Step(s, e))
  {
  }

  lemma {:induction false} StepKeepsSound(s: State, e: Event)
    requires Sound(s) && Enabled(s, e) && !Harmful(s, e)
    ensures Sound(Step(s, e))
  {
    match e
    case Begin(a) => BeginKeepsSound(s, a);
    case Commit(accepted) => CommitKeepsSound(s, accepted);
    case JobChanged(_, _, _) => ChangeKeepsSound(s, e);
    case JobGone(_) =>
    case PvcDeleted(_) =>
    case SpecChanged(_) =>
  }

  lemma {:induction false} RunKeepsSound(s: State, es: seq<Event>)
    requires Sound(s) && Harmless(s, es)
    ensures Sound(After(s, es))
    decreases |es|
  {
    if es != [] {
      StepKeepsSound(s, es[0]);
      RunKeepsSound(Step(s, es[0]), es[1..]);
    }
  }

  /** In a run without harmful steps, a phase is only reached over the completion of every job before it. */
  lemma {:induction false} ReachedMeansReported(es: seq<Event>)
    requires Harmless(Start(), es)
    ensures AllReported(After(Start(), es))
  {
    RunKeepsSound(Start(), es);
  }

  /** The first harmful step is exactly the one with which this, or the trust in the completion entered, ends. */
  lemma {:induction false} HonestUpToHarm(es: seq<Event>, e: Event)
    requires Harmless(Start(), es) && Enabled(After(Start(), es), e)
    ensures Honest(Step(After(Start(), es), e)) <==> !Harmful(After(Start(), es), e)
    ensures AllReported(Step(After(Start(), es), e)) <==> !Skips(After(Start(), es), e)
  {
    RunKeepsSound(Start(), es);
    var s := After(Start(), es);
    if Skips(s, e) {
      assert Before(s.flight.value.base.phase, Step(s, e).status.phase);
    } else if Misleads(s, e) {
      assert IsCompletion(Step(s, e).status.conditions[0]);
    } else {
      StepKeepsSound(s, e);
    }
  }

  /** The claim is lost between the reading of the completed download and the patch that opens the next phase. */
  const HARMING := DOWNLOADED + [Begin(WILLING)] + [PvcDeleted(true)]

  /** Such a run exists: the phase jumps to the generation although no download has been reported. */
  lemma {:induction false} ResetCanHarm()
    ensures Legal(Start(), HARMING) && Skips(After(Start(), HARMING), Commit(true))
    ensures Step(After(Start(), HARMING), Commit(true)).status.phase == Generate
    ensures Step(After(Start(), HARMING), Commit(true)).reported == {}
  {
    Downloads();
    assert IsCompletion(COMPLETED[0]);
    LeadsOn(DOWNLOADED, Downloaded(), Begin(WILLING));
    LeadsOn(DOWNLOADED + [Begin(WILLING)], Step(Downloaded(), Begin(WILLING)), PvcDeleted(true));
  }

  // When an evaluation can still move on

  predicate IsReset(e: Event)
  {
    e.PvcDeleted? || e.SpecChanged?
  }

  predicate Undisturbed(s: State, es: seq<Event>)
    decreases |es|
  {
    es == [] || (Enabled(s, es[0]) && !IsReset(es[0]) && Undisturbed(Step(s, es[0]), es[1..]))
  }

  predicate Speaks(s: State)
  {
    exists p :: p in s.jobs && s.jobs[p].speaks
  }

  /** The job of the phase stays, no job will speak again, and no completion is entered. */
  predicate Stranded(s: State)
  {
    && s.flight == None
    && s.status.phase in s.jobs && !s.jobs[s.status.phase].deleting
    && !Speaks(s)
    && !Done(s.status.conditions)
  }

  lemma {:induction false} StrandedStays(s: State, e: Event)
    requires HasJob(s.status.phase) && Stranded(s) && Enabled(s, e) && !IsReset(e)
    ensures Stranded(Step(s, e)) && Step(s, e).status == s.status
  {
  }

  lemma {:induction false} StrandedForever(s: State, es: seq<Event>)
    requires HasJob(s.status.phase) && Stranded(s) && Undisturbed(s, es)
    ensures After(s, es).status == s.status
    decreases |es|
  {
    if es != [] {
      StrandedStays(s, es[0]);
      StrandedForever(Step(s, es[0]), es[1..]);
    }
  }

  /** Without a reset the phase p can be reached. */
  ghost predicate CanReach(s: State, p: Phase)
  {
    exists es :: Undisturbed(s, es) && After(s, es).status.phase == p
  }

  lemma {:induction false} CanReachNow(s: State, p: Phase)
    requires s.status.phase == p
    ensures CanReach(s, p)
  {
    assert Undisturbed(s, []) && After(s, []).status.phase == p;
  }

  lemma {:induction false} CanReachBy(s: State, e: Event, p: Phase)
    requires Enabled(s, e) && !IsReset(e) && CanReach(Step(s, e), p)
    ensures CanReach(s, p)
  {
    var es :| Undisturbed(Step(s, e), es) && After(Step(s, e), es).status.phase == p;
    var all := [e] + es;
    assert all[0] == e && all[1..] == es;
    assert Undisturbed(s, all) && After(s, all).status.phase == p;
  }

  /** A recorded completion opens the next phase. */
  lemma {:induction false} DoneMovesOn(s: State)
    requires HasJob(s.status.phase) && s.flight == None && Done(s.status.conditions)
    ensures CanReach(s, Next(s.status.phase))
  {
    var t := Step(s, Begin(WILLING));
    CanReachNow(Step(t, Commit(true)), Next(s.status.phase));
    CanReachBy(t, Commit(true), Next(s.status.phase));
    CanReachBy(s, Begin(WILLING), Next(s.status.phase));
  }

  /** WhenJobChanged does not ask whose completion it is: that of any job opens the next phase. */
  lemma {:induction false} SpeakingMovesOn(s: State)
    requires HasJob(s.status.phase) && s.flight == None && Speaks(s)
    ensures CanReach(s, Next(s.status.phase))
  {
    var p :| p in s.jobs && s.jobs[p].speaks;
    var e := JobChanged(p, COMPLETED, true);
    assert IsCompletion(Step(s, e).status.conditions[0]);
    DoneMovesOn(Step(s, e));
    CanReachBy(s, e, Next(s.status.phase));
  }

  lemma {:induction false} AbsentMovesOn(s: State)
    requires HasJob(s.status.phase) && s.flight == None && s.status.phase !in s.jobs && !Done(s.status.conditions)
    ensures CanReach(s, Next(s.status.phase))
  {
    var t := Step(s, Begin(WILLING));
    assert Step(t, Commit(true)).jobs[s.status.phase].speaks;
    SpeakingMovesOn(Step(t, Commit(true)));
    CanReachBy(t, Commit(true), Next(s.status.phase));
    CanReachBy(s, Begin(WILLING), Next(s.status.phase));
  }

  lemma {:induction false} DeletingMovesOn(s: State)
    requires HasJob(s.status.phase) && s.flight == None && !Done(s.status.conditions)
    requires s.status.phase in s.jobs && s.jobs[s.status.phase].deleting
    ensures CanReach(s, Next(s.status.phase))
  {
    AbsentMovesOn(Step(s, JobGone(s.status.phase)));
    CanReachBy(s, JobGone(s.status.phase), Next(s.status.phase));
  }

  lemma {:induction false} StrandedCannotReach(s: State, p: Phase)
    requires HasJob(s.status.phase) && Stranded(s) && p != s.status.phase
    ensures !CanReach(s, p)
  {
    forall es | Undisturbed(s, es) ensures After(s, es).status.phase != p { StrandedForever(s, es); }
  }

  /** Between two reconciles, a phase with a job can move on without a reset exactly if it is not stranded. */
  lemma {:induction false} MovesOnIff(s: State)
    requires HasJob(s.status.phase) && s.flight == None
    ensures CanReach(s, Next(s.status.phase)) <==> !Stranded(s)
  {
    if Stranded(s) {
      StrandedCannotReach(s, Next(s.status.phase));
    } else if Done(s.status.conditions) {
      DoneMovesOn(s);
    } else if Speaks(s) {
      SpeakingMovesOn(s);
    } else if s.status.phase in s.jobs {
      DeletingMovesOn(s);
    } else {
      AbsentMovesOn(s);
    }
  }

  // A job that is faster than the patch after its creation

  /** The states after the creation of the job, its completion, and the patch that follows the creation. */
  function Outrun(s: State, a: Answers, conditions: seq<Condition>): State
  {
    Step(Step(Step(s, Begin(a)), JobChanged(s.status.phase, conditions, true)), Commit(true))
  }

  /** The same steps with the patch before the completion. */
  function InOrder(s: State, a: Answers, conditions: seq<Condition>): State
  {
    Step(Step(Step(s, Begin(a)), Commit(true)), JobChanged(s.status.phase, conditions, true))
  }

  predicate CreatesJob(s: State, a: Answers)
  {
    && HasJob(s.status.phase) && s.flight == None && !Done(s.status.conditions) && s.status.phase !in s.jobs
    && a.jobReadable && a.jobBuilt && a.jobCreated
  }

  /**
   A completion that is told before the patch is overwritten by it, and the phase is stranded, unless the status
   already read as the patch would make it or another job still speaks; a completion told after the patch opens the
   next phase.
   */
  lemma {:induction false} FastCompletionIsLostIff(s: State, a: Answers, conditions: seq<Condition>)
    requires CreatesJob(s, a) && ReportsCompletion(conditions)
    ensures Stranded(Outrun(s, a, conditions)) <==> s.status.conditions != Unfinished(JobCreated, a.now) && !Speaks(s)
    ensures CanReach(InOrder(s, a, conditions), Next(s.status.phase))
  {
    var t := InOrder(s, a, conditions);
    assert IsCompletion(t.status.conditions[0]);
    DoneMovesOn(t);
    OutrunIs(s, a, conditions);
    OutrunSilences(s, a, conditions);
  }

  lemma {:induction false} OutrunSilences(s: State, a: Answers, conditions: seq<Condition>)
    requires CreatesJob(s, a) && Outrun(s, a, conditions).jobs == s.jobs[s.status.phase := Job(false, true, false)]
    ensures Speaks(Outrun(s, a, conditions)) <==> Speaks(s)
  {
    if Speaks(s) {
      var p :| p in s.jobs && s.jobs[p].speaks;
      assert p in Outrun(s, a, conditions).jobs;
    }
  }

  lemma {:induction false} OutrunIs(s: State, a: Answers, conditions: seq<Condition>)
    requires CreatesJob(s, a) && ReportsCompletion(conditions)
    ensures var u := Outrun(s, a, conditions);
            && u.flight == None && u.status.phase == s.status.phase
            && u.jobs == s.jobs[s.status.phase := Job(false, true, false)]
            && u.status.conditions ==
               (if s.status.conditions != Unfinished(JobCreated, a.now) then Unfinished(JobCreated, a.now)
                else [Latest(conditions)])
            && (Done(u.status.conditions) <==> s.status.conditions == Unfinished(JobCreated, a.now))
  {
    assert IsTerminal(conditions[LatestAt(conditions)]);
    assert IsCompletion([Latest(conditions)][0]);
  }

  /** The first job of a run can already be too fast: the evaluation is stranded in the download phase. */
  const OUTRUNNING := OPENING + [Begin(WILLING)] + [JobChanged(Download, COMPLETED, true)] + [Commit(true)]

  lemma {:induction false} FastCompletionCanBeLost()
    ensures Legal(Start(), OUTRUNNING) && Stranded(After(Start(), OUTRUNNING))
    ensures After(Start(), OUTRUNNING).status.phase == Download && Download in After(Start(), OUTRUNNING).reported
    ensures !CanReach(After(Start(), OUTRUNNING), Generate)
  {
    Outruns();
    CreatesDownload(OPENED);
    FastCompletionIsLostIff(OPENED, WILLING, COMPLETED);
    StrandedCannotReach(Outrun(OPENED, WILLING, COMPLETED), Generate);
  }

  lemma {:induction false} Outruns()
    ensures Leads(OUTRUNNING, Outrun(OPENED, WILLING, COMPLETED))
  {
    Opens();
    CreatesDownload(OPENED);
    var s1 := Step(OPENED, Begin(WILLING));
    var s2 := Step(s1, JobChanged(Download, COMPLETED, true));
    LeadsOn(OPENING, OPENED, Begin(WILLING));
    LeadsOn(OPENING + [Begin(WILLING)], s1, JobChanged(Download, COMPLETED, true));
    LeadsOn(OPENING + [Begin(WILLING)] + [JobChanged(Download, COMPLETED, true)], s2, Commit(true));
  }

  // The loss of the volume claim

  /** No job speaks, and the job of the download stays. */
  predicate Blocked(s: State)
  {
    && Silenced(s)
    && Rank(s.status.phase) <= Rank(Download)
    && (s.status.phase == Download ==> !Done(s.status.conditions))
    && FlightFits(s)
    && (s.flight.Some? ==> FlightBlocked(s.flight.value))
  }

  predicate Silenced(s: State)
  {
    Download in s.jobs && !s.jobs[Download].deleting && !Speaks(s)
  }

  predicate FlightBlocked(f: Patch)
  {
    && Rank(f.next.phase) <= Rank(Download)
    && (f.next.phase == Download ==> !Done(f.next.conditions))
    && (f.next.phase == Download && f.base.phase == InitPvc ==> Done(f.base.conditions))
  }

  lemma {:induction false} StepKeepsBlocked(s: State, e: Event)
    requires Blocked(s) && Enabled(s, e) && !e.SpecChanged?
    ensures Blocked(Step(s, e))
  {
  }

  lemma {:induction false} RunKeepsBlocked(s: State, es: seq<Event>)
    requires Blocked(s) && Legal(s, es) && (forall e <- es :: !e.SpecChanged?)
    ensures Blocked(After(s, es))
    decreases |es|
  {
    if es != [] {
      StepKeepsBlocked(s, es[0]);
      RunKeepsBlocked(Step(s, es[0]), es[1..]);
    }
  }

  /**
   The loss of the claim resets the evaluation so that it runs again, but leaves the jobs: once the download job has
   ended, and unless another job still speaks, the new round does not get beyond the download until the specification
   changes.
   */
  lemma {:induction false} LostClaimBlocks(s: State, es: seq<Event>)
    requires Silenced(s) && s.flight == None
    requires Legal(Lost(s, true), es) && (forall e <- es :: !e.SpecChanged?)
    ensures Rank(After(Lost(s, true), es).status.phase) <= Rank(Download)
  {
    RunKeepsBlocked(Lost(s, true), es);
  }

  lemma {:induction false} UndisturbedIsLegal(s: State, es: seq<Event>)
    requires Undisturbed(s, es)
    ensures Legal(s, es) && forall e <- es :: !e.SpecChanged?
    decreases |es|
  {
    if es != [] {
      UndisturbedIsLegal(Step(s, es[0]), es[1..]);
      assert es == [es[0]] + es[1..];
    }
  }

  lemma {:induction false} CanReachByReconcile(s: State, p: Phase)
    requires s.flight == None && Handle(s.status, s.jobs, WILLING).patch.Some?
    requires CanReach(Reconciled(s), p)
    ensures CanReach(s, p)
  {
    CanReachBy(Step(s, Begin(WILLING)), Commit(true), p);
    CanReachBy(s, Begin(WILLING), p);
  }

  /** Unless it is blocked, the new round gets through the download. */
  lemma {:induction false} FreshRoundMovesOn(s: State)
    requires s.status == Fresh() && s.flight == None && !Silenced(s)
    ensures CanReach(s, Generate)
  {
    var t := s.(claimed := true);
    OpensClaim(s);
    MakesClaim(s.(status := ClaimOpen()));
    OpensDownload(t.(status := ClaimMade()));
    MovesOnIff(t.(status := DownloadOpen()));
    CanReachByReconcile(t.(status := ClaimMade()), Generate);
    CanReachByReconcile(s.(status := ClaimOpen()), Generate);
    CanReachByReconcile(s, Generate);
  }

  lemma {:induction false} LossKeepsVoices(s: State)
    ensures Silenced(Lost(s, true)) <==> Silenced(s)
  {
    if Speaks(s) {
      var p :| p in s.jobs && s.jobs[p].speaks;
      assert Lost(s, true).jobs[p].speaks;
    }
  }

  /**
   After the loss of the claim the download can be left again exactly if its job is gone or about to be, or some job,
   be it of the download or of a later phase, has not told its end before the loss.
   */
  lemma {:induction false} LostClaimBlocksIff(s: State)
    requires s.flight == None
    ensures CanReach(Lost(s, true), Generate) <==>
            !(Download in s.jobs && !s.jobs[Download].deleting && forall p <- s.jobs :: !s.jobs[p].speaks)
  {
    LossKeepsVoices(s);
    if Silenced(s) {
      forall es | Undisturbed(Lost(s, true), es) ensures After(Lost(s, true), es).status.phase != Generate {
        UndisturbedIsLegal(Lost(s, true), es);
        LostClaimBlocks(s, es);
      }
    } else {
      FreshRoundMovesOn(Lost(s, true));
    }
  }

  const AGAIN := [PvcDeleted(true)] + RECONCILE + RECONCILE + RECONCILE

  lemma {:induction false} GoesThroughAgain(es: seq<Event>, s: State)
    requires Leads(es, s) && s.flight == None
    ensures Leads(es + AGAIN, Lost(s, true).(status := DownloadOpen(), claimed := true))
  {
    var t := Lost(s, true);
    var fs := es + [PvcDeleted(true)];
    LeadsOn(es, s, PvcDeleted(true));
    OpensClaim(t);
    LeadsOnBy(fs, t);
    MakesClaim(t.(status := ClaimOpen()));
    LeadsOnBy(fs + RECONCILE, t.(status := ClaimOpen()));
    OpensDownload(t.(status := ClaimMade(), claimed := true));
    LeadsOnBy(fs + RECONCILE + RECONCILE, t.(status := ClaimMade(), claimed := true));
    assert fs + RECONCILE + RECONCILE + RECONCILE == es + AGAIN;
  }

  /** The claim is lost after the download: the run ends in the download phase, which nothing but a reset leaves. */
  lemma {:induction false} LostClaimCanBlock()
    ensures Legal(Start(), DOWNLOADED + AGAIN) && Stranded(After(Start(), DOWNLOADED + AGAIN))
    ensures After(Start(), DOWNLOADED + AGAIN).status.phase == Download
    ensures !CanReach(After(Start(), DOWNLOADED + AGAIN), Generate)
  {
    Downloads();
    GoesThroughAgain(DOWNLOADED, Downloaded());
    assert !Done(DownloadOpen().conditions);
    StrandedCannotReach(After(Start(), DOWNLOADED + AGAIN), Generate);
  }

  /**
   The claim is lost during the download, and the job ends in the new round: its completion is taken for one of that
   round, and the generation opens although no download job of that round exists.
   */
  lemma {:induction false} LateReportCanMislead()
    ensures var late := JobChanged(Download, COMPLETED, true);
            && Legal(Start(), DOWNLOADING + AGAIN + [late] + RECONCILE)
            && Misleads(After(Start(), DOWNLOADING + AGAIN), late)
            && After(Start(), DOWNLOADING + AGAIN + [late] + RECONCILE).status.phase == Generate
            && After(Start(), DOWNLOADING + AGAIN + [late] + RECONCILE).reported == {}
  {
    Downloads();
    GoesThroughAgain(DOWNLOADING, Downloading());
    var s := Lost(Downloading(), true).(status := DownloadOpen(), claimed := true);
    LeadsOn(DOWNLOADING + AGAIN, s, JobChanged(Download, COMPLETED, true));
    var t := Step(s, JobChanged(Download, COMPLETED, true));
    assert IsCompletion(t.status.conditions[0]);
    LeadsOnBy(DOWNLOADING + AGAIN + [JobChanged(Download, COMPLETED, true)], t);
  }
}
