/** Whole rounds of an evaluation, and what single reconciles show of failures, suspension and completion. */
module RagRounds {
  import opened Options
  import opened Rag
  import opened RagRuns

  // After a change of the specification everything can be done again

  /** Of the phases from p on, no job is there that is not about to go. */
  predicate Cleared(s: State, p: Phase)
  {
    forall q <- s.jobs :: Rank(q) >= Rank(p) ==> s.jobs[q].deleting
  }

  function Without(s: State, p: Phase): State
  {
    s.(jobs := s.jobs - {p})
  }

  /** The job of the phase is created, tells its completion, and the next phase opens. */
  function Worked(s: State): State
  {
    Reconciled(Step(Reconciled(s), JobChanged(s.status.phase, COMPLETED, true)))
  }

  lemma {:induction false} CreatesJobOf(s: State)
    requires HasJob(s.status.phase) && s.flight == None && !Done(s.status.conditions) && s.status.phase !in s.jobs
    ensures var t := Reconciled(s);
            && t.status == Status(s.status.phase, Unfinished(JobCreated, 0)) && t.flight == None
            && t.jobs == s.jobs[s.status.phase := CREATED]
    ensures Handle(s.status, s.jobs, WILLING).patch.Some?
  {
  }

  lemma {:induction false} OpensNextOf(s: State)
    requires HasJob(s.status.phase) && s.flight == None && Done(s.status.conditions)
    ensures Reconciled(s).status == Opened(s.status.phase, 0) && Reconciled(s).flight == None && Reconciled(s).jobs == s.jobs
    ensures Handle(s.status, s.jobs, WILLING).patch.Some?
  {
    if Next(s.status.phase) != Complete { assert !Done(Unfinished(NextOpened, 0)); }
  }

  lemma {:induction false} TellsCompletion(s: State)
    requires s.status.phase in s.jobs && s.jobs[s.status.phase] == CREATED
    ensures var e := JobChanged(s.status.phase, COMPLETED, true);
            && Enabled(s, e)
            && Step(s, e).status == Status(s.status.phase, COMPLETED) && Step(s, e).flight == s.flight
            && Step(s, e).jobs == s.jobs[s.status.phase := Job(false, true, false)] && Done(COMPLETED)
  {
    assert IsTerminal(COMPLETED[0]) && IsCompletion(COMPLETED[0]);
  }

  predicate Idle(s: State)
  {
    && (s.status.phase == Complete || HasJob(s.status.phase))
    && s.flight == None && (HasJob(s.status.phase) ==> !Done(s.status.conditions)) && Cleared(s, s.status.phase)
  }

  lemma {:induction false} WorkedIs(s: State)
    requires HasJob(s.status.phase) && Idle(s) && s.status.phase !in s.jobs
    ensures Worked(s).status == Opened(s.status.phase, 0) && Worked(s).flight == None
    ensures Worked(s).jobs == s.jobs[s.status.phase := Job(false, true, false)]
  {
    CreatesJobOf(s);
    TellsCompletion(Reconciled(s));
    OpensNextOf(Step(Reconciled(s), JobChanged(s.status.phase, COMPLETED, true)));
  }

  lemma {:induction false} OpenedIsIdle(s: State, t: State)
    requires HasJob(s.status.phase) && Cleared(s, s.status.phase) && t.flight == None
    requires t.status == Opened(s.status.phase, 0) && t.jobs == s.jobs[s.status.phase := Job(false, true, false)]
    ensures Idle(t) && t.status.phase == Next(s.status.phase)
  {
    assert !Done(Unfinished(NextOpened, 0));
  }

  lemma {:induction false} PhaseWorks(s: State)
    requires HasJob(s.status.phase) && Idle(s) && s.status.phase !in s.jobs
    ensures Worked(s).status.phase == Next(s.status.phase) && Idle(Worked(s))
  {
    WorkedIs(s);
    OpenedIsIdle(s, Worked(s));
  }

  lemma {:induction false} WorksTowards(s: State, p: Phase)
    requires HasJob(s.status.phase) && Idle(s) && s.status.phase !in s.jobs && CanReach(Worked(s), p)
    ensures CanReach(s, p)
  {
    var e := JobChanged(s.status.phase, COMPLETED, true);
    CreatesJobOf(s);
    TellsCompletion(Reconciled(s));
    OpensNextOf(Step(Reconciled(s), e));
    CanReachByReconcile(Step(Reconciled(s), e), p);
    CanReachBy(Reconciled(s), e, p);
    CanReachByReconcile(s, p);
  }

  /** One phase on: an idle state behind it from which everything can be reached that can be reached from here. */
  lemma {:induction false} PhaseOn(s: State) returns (t: State)
    requires HasJob(s.status.phase) && Idle(s) && s.status.phase !in s.jobs
    ensures t.status.phase == Next(s.status.phase) && Idle(t) && (CanReach(t, Complete) ==> CanReach(s, Complete))
  {
    PhaseWorks(s);
    t := Worked(s);
    if CanReach(t, Complete) { WorksTowards(s, Complete); }
  }

  lemma {:induction false} DeletedGoes(s: State) returns (t: State)
    requires HasJob(s.status.phase) && Idle(s) && s.status.phase in s.jobs
    ensures t.status.phase == s.status.phase && Idle(t) && t.status.phase !in t.jobs
    ensures CanReach(t, Complete) ==> CanReach(s, Complete)
  {
    t := Without(s, s.status.phase);
    if CanReach(t, Complete) { CanReachBy(s, JobGone(s.status.phase), Complete); }
  }

  lemma {:induction false} PhasesEnd(s: State)
    requires Idle(s)
    ensures CanReach(s, Complete)
    decreases Rank(Complete) - Rank(s.status.phase)
  {
    if s.status.phase == Complete {
      CanReachNow(s, Complete);
    } else {
      var t := s;
      if s.status.phase in s.jobs { t := DeletedGoes(s); }
      var u := PhaseOn(t);
      PhasesEnd(u);
    }
  }

  lemma {:induction false} RoundEnds(s: State)
    requires s.status == Fresh() && s.flight == None && Cleared(s, Unset)
    ensures CanReach(s, Complete)
  {
    var t := s.(claimed := true);
    OpensClaim(s);
    MakesClaim(s.(status := ClaimOpen()));
    OpensDownload(t.(status := ClaimMade()));
    PhasesEnd(t.(status := DownloadOpen()));
    CanReachByReconcile(t.(status := ClaimMade()), Complete);
    CanReachByReconcile(s.(status := ClaimOpen()), Complete);
    CanReachByReconcile(s, Complete);
  }

  /** Unlike the loss of the claim, the removal of jobs, claim and status lets the evaluation come to its end again. */
  lemma {:induction false} RemovalLeavesNoTrace(s: State)
    requires s.flight == None
    ensures CanReach(Respecified(s, Removed), Complete)
  {
    RoundEnds(Respecified(s, Removed));
  }

  /** A new evaluation can come to its end. */
  lemma {:induction false} EvaluationCanEnd()
    ensures CanReach(Start(), Complete)
  {
    RoundEnds(Start());
  }

  /**
   How far a removal comes: a refusal for the jobs leaves everything; once the jobs are accepted, no job stays for good;
   only if all is accepted the evaluation starts over, and forgets which jobs are its own.
   */
  lemma {:induction false} RemovalGoesInOrder(s: State, removal: Removal)
    ensures var t := Respecified(s, removal);
            && (removal == JobsRefused ==> t == s)
            && (removal != JobsRefused ==> t.jobs.Keys == s.jobs.Keys && forall p <- t.jobs :: t.jobs[p].deleting)
            && (removal != Removed ==> t.status == s.status && t.reported == s.reported)
            && (removal == Removed ==> t.status == Status(Unset, []) && forall p <- t.jobs :: !t.jobs[p].current)
            && (forall p <- t.jobs :: t.jobs[p].speaks == s.jobs[p].speaks)
  {
  }

  /** A job has its say until it tells that it is complete or has failed; suspended, it goes on. */
  lemma {:induction false} SpeaksOnIff(s: State, p: Phase, conditions: seq<Condition>, saved: bool)
    requires Enabled(s, JobChanged(p, conditions, saved))
    ensures var t := Step(s, JobChanged(p, conditions, saved));
            && t.jobs.Keys == s.jobs.Keys
            && (t.jobs[p].speaks <==>
                  forall c <- conditions :: c.holds ==> c.kind == JobSuspended)
  {
    if i :| 0 <= i < |conditions| && IsTerminal(conditions[i]) { assert conditions[i] in conditions; }
  }

  // What is shown

  /** The completion of the last phase completes the evaluation, and nothing happens any more. */
  lemma {:induction false} CompletionIsShown(s: State, a: Answers)
    requires s.status.phase == Upload && s.flight == None && Done(s.status.conditions)
    ensures var t := Step(Step(s, Begin(a)), Commit(true));
            t.status.phase == Complete && Done(t.status.conditions) && t.jobs == s.jobs && forall b :: Step(t, Begin(b)) == t
  {
    var t := Step(Step(s, Begin(a)), Commit(true));
    if t.status.conditions != s.status.conditions { assert IsCompletion(t.status.conditions[0]); }
    CompleteStays(t);
  }

  lemma {:induction false} CompleteStays(s: State)
    requires s.status.phase == Complete && s.flight == None
    ensures forall a :: Step(s, Begin(a)) == s
  {
  }

  predicate ShowsFailure(conditions: seq<Condition>, note: Note)
  {
    |conditions| == 1 && conditions[0].kind == JobFailed && conditions[0].holds && conditions[0].note == note
  }

  /** A claim or a job that cannot be created is shown as a failure; the phase stays, and is tried again. */
  lemma {:induction false} FailureIsShown(s: State, a: Answers)
    requires s.flight == None && !Done(s.status.conditions)
    ensures var t := Step(Step(s, Begin(a)), Commit(true));
            && (s.status.phase == InitPvc && a.claim == ClaimMissing(false) ==>
                  t.status.phase == InitPvc && ShowsFailure(t.status.conditions, PvcFailed) && t.jobs == s.jobs
                  && t.claimed == s.claimed)
            && (HasJob(s.status.phase) && s.status.phase !in s.jobs && a.jobReadable && a.jobBuilt && !a.jobCreated ==>
                  t.status.phase == s.status.phase && ShowsFailure(t.status.conditions, JobNotCreated) && t.jobs == s.jobs
                  && CanReach(t, Next(s.status.phase)))
  {
    var t := Step(Step(s, Begin(a)), Commit(true));
    if HasJob(s.status.phase) && s.status.phase !in s.jobs && a.jobReadable && a.jobBuilt && !a.jobCreated {
      MovesOnIff(t);
    }
  }

  /** What cannot be read, is about to go, or cannot be built leaves the status and the jobs alone. */
  lemma {:induction false} NothingIsShown(s: State, a: Answers)
    requires s.flight == None && !Done(s.status.conditions)
    requires if s.status.phase == InitPvc then a.claim == ClaimUnreadable || a.claim == ClaimThere(true)
             else HasJob(s.status.phase) && (!a.jobReadable || s.status.phase in s.jobs || !a.jobBuilt)
    ensures Step(s, Begin(a)) == s
  {
  }

  /**
   The suspend flag of a job is set only to what the specification wants, together with no patch and no new job; and it
   is set exactly if the job of the phase is there, stays, has not completed, and reads otherwise.
   */
  lemma {:induction false} SuspensionFollows(s: Status, jobs: map<Phase, Job>, a: Answers)
    ensures var switch := SwitchSuspend(s, jobs, a);
            && (switch.Some? ==> switch == Some(a.suspension.wanted) && Handle(s, jobs, a) == Handled(None, jobs))
            && (switch.Some? <==> HasJob(s.phase) && !Done(s.conditions) && a.jobReadable
                                  && s.phase in jobs && !jobs[s.phase].deleting
                                  && !a.suspension.complete && a.suspension.suspended != a.suspension.wanted)
            && (switch.Some? ==> SwitchSuspend(s, jobs, a.(suspension := a.suspension.(suspended := switch.value))) == None)
  {
  }
}
