/** The volume claim in runs of an evaluation. */
module RagClaims {
  import opened Options
  import opened Rag
  import opened RagRuns

  /** From the download on, and once the claim phase reads as complete, a claim was in place or was created. */
  predicate Claimed(s: State)
  {
    && (Rank(s.status.phase) >= Rank(Download) ==> s.claimed)
    && (s.status.phase == InitPvc && Done(s.status.conditions) ==> s.claimed)
  }

  /** The step sends a move that a reset has overtaken, or takes a job's completion for that of the claim phase. */
  predicate SkipsClaim(s: State, e: Event)
  {
    || Overtaken(s, e)
    || (e.JobChanged? && e.saved && ReportsCompletion(e.conditions) && s.status.phase == InitPvc && !s.claimed)
  }

  predicate KeepsClaim(s: State, es: seq<Event>)
    decreases |es|
  {
    es == [] || (Enabled(s, es[0]) && !SkipsClaim(s, es[0]) && KeepsClaim(Step(s, es[0]), es[1..]))
  }

  predicate ClaimFlight(s: State, f: Patch)
  {
    if f.next.phase == f.base.phase then
      && f.next.conditions != Unfinished(NeedPvc, 0)
      && (f.base.phase == InitPvc && s.status.phase == InitPvc && Done(f.next.conditions) ==> s.claimed)
    else
      && (f.base.phase == Unset ==> !Done(f.next.conditions) && f.base.conditions != f.next.conditions)
      && (f.base.phase == InitPvc && s.status.phase == InitPvc ==> s.claimed)
  }

  /** While a patch is in flight that was made before a reset, no claim has been seen. */
  predicate ClaimSound(s: State)
  {
    && FlightFits(s) && Claimed(s)
    && (s.status.phase == Unset ==> s.status.conditions != Unfinished(NeedPvc, 0))
    && (s.flight.Some? && s.flight.value.base.phase != s.status.phase ==> !s.claimed)
    && (s.flight.Some? ==> ClaimFlight(s, s.flight.value))
  }

  lemma {:induction false} CommitKeepsClaim(s: State, accepted: bool)
    requires ClaimSound(s) && s.flight.Some? && !Overtaken(s, Commit(accepted))
    ensures ClaimSound(Committed(s, accepted))
  {
  }

  lemma {:induction false} BeginKeepsClaim(s: State, a: Answers)
    requires ClaimSound(s) && s.flight == None
    ensures ClaimSound(Began(s, a))
  {
  }

  lemma {:induction false} ChangeKeepsClaim(s: State, e: Event)
    requires ClaimSound(s) && e.JobChanged? && Enabled(s, e) && !SkipsClaim(s, e)
    ensures ClaimSound(Step(s, e))
  {
    if e.conditions != [] { assert Latest(e.conditions).note.FromJob?; }
  }

  lemma {:induction false} StepKeepsClaim(s: State, e: Event)
    requires ClaimSound(s) && Enabled(s, e) && !SkipsClaim(s, e)
    ensures ClaimSound(Step(s, e))
  {
    StepKeepsFlight(s, e);
    match e
    case Begin(a) => BeginKeepsClaim(s, a);
    case Commit(accepted) => CommitKeepsClaim(s, accepted);
    case JobChanged(_, _, _) => ChangeKeepsClaim(s, e);
    case JobGone(_) =>
    case PvcDeleted(_) =>
    case SpecChanged(_) =>
  }

  lemma {:induction false} RunKeepsClaim(s: State, es: seq<Event>)
    requires ClaimSound(s) && KeepsClaim(s, es)
    ensures ClaimSound(After(s, es))
    decreases |es|
  {
    if es != [] {
      StepKeepsClaim(s, es[0]);
      RunKeepsClaim(Step(s, es[0]), es[1..]);
    }
  }

  /**
   The download and all later phases are only reached over a claim that was in place or was created since the last
   reset, in every run up to the first step that skips it; and this step is exactly the one with which that ends.
   */
  lemma {:induction false} ClaimedUpToSkip(es: seq<Event>, e: Event)
    requires KeepsClaim(Start(), es) && Enabled(After(Start(), es), e)
    ensures Claimed(After(Start(), es))
    ensures Claimed(Step(After(Start(), es), e)) <==> !SkipsClaim(After(Start(), es), e)
  {
    RunKeepsClaim(Start(), es);
    var s := After(Start(), es);
    if !SkipsClaim(s, e) {
      StepKeepsClaim(s, e);
    } else if e.JobChanged? {
      assert IsCompletion(Step(s, e).status.conditions[0]);
    }
  }

  /** The claim is lost during the download, and the job ends before the new round has looked for a claim. */
  const UNCLAIMED := DOWNLOADING + [PvcDeleted(true)] + RECONCILE

  /** Such a run exists: the download opens again although nobody has looked for a claim. */
  lemma {:induction false} ClaimCanBeSkipped()
    ensures var late := JobChanged(Download, COMPLETED, true);
            && Legal(Start(), UNCLAIMED + [late] + RECONCILE)
            && SkipsClaim(After(Start(), UNCLAIMED), late)
            && After(Start(), UNCLAIMED + [late] + RECONCILE).status.phase == Download
            && !After(Start(), UNCLAIMED + [late] + RECONCILE).claimed
  {
    Downloads();
    var late := JobChanged(Download, COMPLETED, true);
    var s := Lost(Downloading(), true);
    LeadsOn(DOWNLOADING, Downloading(), PvcDeleted(true));
    OpensClaim(s);
    LeadsOnBy(DOWNLOADING + [PvcDeleted(true)], s);
    LeadsOn(UNCLAIMED, Reconciled(s), late);
    var t := Step(Reconciled(s), late);
    assert IsCompletion(t.status.conditions[0]);
    LeadsOnBy(UNCLAIMED + [late], t);
  }
}
