/** syncStatus is idempotent, and from a rebuilt status the reconciler finishes in a known number of turns. */
module KnowledgeBaseProgress {
  import opened Options
  import opened FilePhases
  import opened Conditions
  import opened KnowledgeBase
  import opened KnowledgeBaseRuns
  import opened KnowledgeBaseEntries

  // ----- Rebuilding twice changes nothing

  /** The details have the sources, paths and versions of these groups, in the same order. */
  ghost predicate Shaped(gs: seq<Group>, details: seq<GroupDetail>)
  {
    && |details| == |gs|
    && forall i :: 0 <= i < |gs| ==> ShapedGroup(gs[i], details[i])
  }

  ghost predicate ShapedGroup(g: Group, gd: GroupDetail)
  {
    && g.source == Some(gd.source)
    && |gd.files| == |g.files|
    && forall j :: 0 <= j < |g.files| ==> gd.files[j].path == g.files[j].path && gd.files[j].version == g.files[j].version
  }

  lemma {:induction false} RebuildIsShaped(groups: seq<Group>, ns: string, was: seq<GroupDetail>)
    ensures Shaped(Sourced(groups), Rebuild(groups, ns, was))
  {
  }

  /** A list of the right shape is what it is rebuilt to. */
  lemma {:induction false} ShapedIsFixed(groups: seq<Group>, ns: string, details: seq<GroupDetail>)
    requires DistinctSpec(groups, ns) && Shaped(Sourced(groups), details)
    ensures Rebuild(groups, ns, details) == details
  {
    var gs, r := Sourced(groups), Rebuild(groups, ns, details);
    forall i | 0 <= i < |gs|
      ensures r[i] == details[i]
    {
      assert ShapedGroup(gs[i], details[i]);
      forall j | 0 <= j < |gs[i].files|
        ensures r[i].files[j] == details[i].files[j]
      {
        forall a, b | 0 <= a < b < |details|
          ensures KeyOf(details[a].source, ns) != KeyOf(details[b].source, ns)
        {
          assert ShapedGroup(gs[a], details[a]) && ShapedGroup(gs[b], details[b]);
          assert GroupKey(gs[a], ns) != GroupKey(gs[b], ns);
        }
        assert DistinctPaths(gs[i].files);
        FindAt(details, ns, i, j);
      }
      assert r[i].files == details[i].files;
    }
  }

  /** syncStatus is idempotent. */
  lemma {:induction false} RebuildTwice(groups: seq<Group>, ns: string, was: seq<GroupDetail>)
    requires DistinctSpec(groups, ns)
    ensures Rebuild(groups, ns, Rebuild(groups, ns, was)) == Rebuild(groups, ns, was)
  {
    RebuildIsShaped(groups, ns, was);
    ShapedIsFixed(groups, ns, Rebuild(groups, ns, was));
  }

  // ----- The work that is left

  function Effort(d: Detail): nat
  {
    match d.phase case Pending => 2 case Processing => 1 case _ => 0
  }

  function FileWork(ds: seq<Detail>): nat
  {
    if ds == [] then 0 else FileWork(ds[..|ds| - 1]) + Effort(ds[|ds| - 1])
  }

  /** Two turns for every pending file and one for every file being processed. */
  function Work(details: seq<GroupDetail>): nat
  {
    if details == [] then 0 else Work(details[..|details| - 1]) + FileWork(details[|details| - 1].files)
  }

  lemma {:induction false} FileWorkUpdate(ds: seq<Detail>, j: nat, d: Detail)
    requires j < |ds|
    ensures FileWork(ds[j := d]) == FileWork(ds) - Effort(ds[j]) + Effort(d)
  {
    var r := ds[j := d];
    if j < |ds| - 1 {
      assert r[..|ds| - 1] == ds[..|ds| - 1][j := d];
      FileWorkUpdate(ds[..|ds| - 1], j, d);
    } else {
      assert r[..|ds| - 1] == ds[..|ds| - 1];
    }
  }

  lemma {:induction false} WorkUpdate(details: seq<GroupDetail>, i: nat, j: nat, d: Detail)
    requires i < |details| && j < |details[i].files|
    ensures Work(SetDetail(details, i, j, d)) == Work(details) - Effort(details[i].files[j]) + Effort(d)
  {
    var r := SetDetail(details, i, j, d);
    if i < |details| - 1 {
      assert r[..|details| - 1] == SetDetail(details[..|details| - 1], i, j, d);
      WorkUpdate(details[..|details| - 1], i, j, d);
    } else {
      assert r[..|details| - 1] == details[..|details| - 1];
      FileWorkUpdate(details[i].files, j, d);
    }
  }

  lemma {:induction false} NoFileWork(ds: seq<Detail>)
    ensures FileWork(ds) == 0 <==> forall j :: 0 <= j < |ds| ==> !Open(ds[j])
  {
    if ds != [] { NoFileWork(ds[..|ds| - 1]); }
  }

  lemma {:induction false} NoWork(details: seq<GroupDetail>)
    ensures Work(details) == 0 <==> forall i, j :: 0 <= i < |details| && 0 <= j < |details[i].files| ==> !Open(details[i].files[j])
  {
    if details != [] {
      NoWork(details[..|details| - 1]);
      NoFileWork(details[|details| - 1].files);
    }
  }

  // ----- Progress

  /** The status has been rebuilt from the current specification and does not show readiness. */
  ghost predicate Current(s: State)
  {
    && s.status.conditions != [] && OnlyReady(s.status.conditions) && !IsReady(s.status.conditions)
    && s.status.observed == s.generation && s.annotation == ""
    && DistinctSpec(s.spec.groups, s.ns) && Shaped(Sourced(s.spec.groups), s.status.details)
  }

  ghost predicate Settled(s: State)
  {
    Current(s) && !s.noted
  }

  /** Everything the reconciler depends on is there, and the source of the file can be used. */
  predicate Able(spec: Spec, env: Env)
  {
    Problem(spec, env) == None && env.fetch != NoSource
  }

  /** Besides, the write succeeds. */
  predicate Favourable(s: State, env: Env)
  {
    Able(s.spec, env) && env.saved
  }

  lemma {:induction false} SetDetailShaped(gs: seq<Group>, details: seq<GroupDetail>, i: nat, j: nat, d: Detail)
    requires Shaped(gs, details) && i < |details| && j < |details[i].files|
    requires d.path == details[i].files[j].path && d.version == details[i].files[j].version
    ensures Shaped(gs, SetDetail(details, i, j, d))
  {
    var r := SetDetail(details, i, j, d);
    forall k | 0 <= k < |gs|
      ensures ShapedGroup(gs[k], r[k])
    {
      assert ShapedGroup(gs[k], details[k]);
    }
  }

  function Moved(s: State, i: nat, j: nat, fetch: Fetch): State
    requires i < |s.status.details| && j < |s.status.details[i].files|
  {
    s.(status := s.status.(details := SetDetail(s.status.details, i, j, Advance(s.status.details[i].files[j], fetch))))
  }

  lemma {:induction false} TurnAdvances(s: State, env: Env, i: nat, j: nat)
    requires Settled(s) && Favourable(s, env) && FirstOpen(s.status.details, 0) == At(i, j)
    ensures Reconcile(s, env) == Moved(s, i, j, env.fetch)
  {
    ShapedIsFixed(s.spec.groups, s.ns, s.status.details);
    assert Reconcile(s, env) == WorkOnFiles(s, env);
  }

  lemma {:induction false} MovedIsSettled(s: State, i: nat, j: nat, fetch: Fetch)
    requires Settled(s) && i < |s.status.details| && j < |s.status.details[i].files|
    requires Open(s.status.details[i].files[j]) && fetch != NoSource
    ensures Settled(Moved(s, i, j, fetch)) && Work(Moved(s, i, j, fetch).status.details) == Work(s.status.details) - 1
  {
    var details := s.status.details;
    var d := Advance(details[i].files[j], fetch);
    WorkUpdate(details, i, j, d);
    SetDetailShaped(Sourced(s.spec.groups), details, i, j, d);
  }

  /** With work left one turn moves exactly one entry one phase on. */
  lemma {:induction false} TurnDoesWork(s: State, env: Env) returns (i: nat, j: nat)
    requires Settled(s) && Favourable(s, env) && Work(s.status.details) > 0
    ensures i < |s.status.details| && j < |s.status.details[i].files| && Open(s.status.details[i].files[j])
    ensures Reconcile(s, env) == Moved(s, i, j, env.fetch) && Settled(Reconcile(s, env))
    ensures Work(Reconcile(s, env).status.details) == Work(s.status.details) - 1
  {
    NoWork(s.status.details);
    i, j := FirstOpen(s.status.details, 0).group, FirstOpen(s.status.details, 0).file;
    TurnAdvances(s, env, i, j);
    MovedIsSettled(s, i, j, env.fetch);
  }

  /** A turn whose write is refused while there is work changes nothing. */
  lemma {:induction false} RefusedWork(s: State, env: Env)
    requires Settled(s) && Able(s.spec, env) && !env.saved && Work(s.status.details) > 0
    ensures Reconcile(s, env) == s
  {
    NoWork(s.status.details);
    ShapedIsFixed(s.spec.groups, s.ns, s.status.details);
    assert Reconcile(s, env) == WorkOnFiles(s, env);
  }

  /** With no work left a turn does nothing but conclude. */
  lemma {:induction false} TurnConcludes(s: State, env: Env)
    requires Settled(s) && Able(s.spec, env) && Work(s.status.details) == 0
    ensures Reconcile(s, env) == Conclude(s, s.status,
              if HasPhase(s.status.details, Failed) then ErrorCondition("some files failed to process.")
              else ReadyCondition(), env.saved)
  {
    NoWork(s.status.details);
    ShapedIsFixed(s.spec.groups, s.ns, s.status.details);
    SetReadyCondition(s.status.conditions, s.status.conditions[0]);
    assert Reconcile(s, env) == WorkOnFiles(s, env);
  }

  /** With no work left one turn announces the outcome: ready if and only if no file has failed. */
  lemma {:induction false} TurnAnnounces(s: State, env: Env)
    requires Settled(s) && Favourable(s, env) && Work(s.status.details) == 0
    ensures var t := Reconcile(s, env);
            && t.status.details == s.status.details
            && (ShownReady(t) <==> !HasPhase(s.status.details, Failed))
            && t.status.conditions ==
               if HasPhase(s.status.details, Failed)
               then [Condition("Ready", False, "Error", "some files failed to process.", 0, 0)]
               else [Condition("Ready", True, "", "Success", 0, 0)]
  {
    TurnConcludes(s, env);
    SetReadyCondition(s.status.conditions, ReadyCondition());
    SetReadyCondition(s.status.conditions, ErrorCondition("some files failed to process."));
  }

  // ----- The announcement

  /** Nothing is left to do, no file failed, and all that is missing is that the status shows it. */
  ghost predicate Announceable(s: State)
  {
    Current(s) && Work(s.status.details) == 0 && !HasPhase(s.status.details, Failed)
  }

  /** A favourable turn announces readiness exactly if the reconciler has not noted it before. */
  lemma {:induction false} AnnouncesIff(s: State, env: Env)
    requires Announceable(s) && Favourable(s, env)
    ensures ShownReady(Reconcile(s, env)) <==> !s.noted
  {
    if s.noted { NotedIsStuck(s, env); } else { TurnAnnounces(s, env); }
  }

  /** Readiness that was noted without being shown is never shown by any turn that finds its dependencies. */
  lemma {:induction false} NotedIsStuck(s: State, env: Env)
    requires Current(s) && s.noted && Problem(s.spec, env) == None
    ensures Reconcile(s, env) == s
  {
    ShapedIsFixed(s.spec.groups, s.ns, s.status.details);
  }

  /** The turn that announces readiness, if its write is refused, leaves the note and nothing else. */
  lemma {:induction false} RefusedAnnouncement(s: State, env: Env)
    requires Announceable(s) && !s.noted && Able(s.spec, env) && !env.saved
    ensures Reconcile(s, env) == s.(noted := true)
  {
    TurnConcludes(s, env);
  }

  // ----- Whole runs of turns, with refused writes

  ghost function Turns(s: State, envs: seq<Env>): State
    decreases |envs|
  {
    if envs == [] then s else Turns(Reconcile(s, envs[0]), envs[1..])
  }

  ghost predicate AllAble(spec: Spec, envs: seq<Env>)
  {
    forall k :: 0 <= k < |envs| ==> Able(spec, envs[k])
  }

  /** The number of the turn that finds no work left, if each turn whose write is accepted takes one piece off. */
  function Announcing(work: nat, envs: seq<Env>): (n: nat)
    ensures n <= |envs|
  {
    if work == 0 || envs == [] then 0
    else 1 + Announcing(if envs[0].saved then work - 1 else work, envs[1..])
  }

  /** The outcome is shown, or cannot be shown any more, and no turn changes that. */
  ghost predicate Closed(s: State, shown: bool)
  {
    && Work(s.status.details) == 0
    && DistinctSpec(s.spec.groups, s.ns) && Shaped(Sourced(s.spec.groups), s.status.details)
    && s.status.conditions != [] && OnlyReady(s.status.conditions)
    && s.status.observed == s.generation && s.annotation == ""
    && (ShownReady(s) <==> shown)
    && (!shown ==> s.noted || HasPhase(s.status.details, Failed))
  }

  lemma {:induction false} ClosedStays(s: State, env: Env, shown: bool)
    requires Closed(s, shown) && Able(s.spec, env)
    ensures Closed(Reconcile(s, env), shown) && Reconcile(s, env).status.details == s.status.details
    ensures Reconcile(s, env).spec == s.spec
  {
    if shown {
      ShapedIsFixed(s.spec.groups, s.ns, s.status.details);
    } else if s.noted {
      NotedIsStuck(s, env);
    } else {
      TurnConcludes(s, env);
      SetReadyCondition(s.status.conditions, ErrorCondition("some files failed to process."));
    }
  }

  lemma {:induction false} ClosedForGood(s: State, envs: seq<Env>, shown: bool)
    requires Closed(s, shown) && AllAble(s.spec, envs)
    ensures Closed(Turns(s, envs), shown) && Turns(s, envs).status.details == s.status.details
    decreases |envs|
  {
    if envs != [] {
      ClosedStays(s, envs[0], shown);
      ClosedForGood(Reconcile(s, envs[0]), envs[1..], shown);
    }
  }

  lemma {:induction false} AnnouncingCloses(s: State, env: Env)
    requires Settled(s) && Able(s.spec, env) && Work(s.status.details) == 0
    ensures Reconcile(s, env).status.details == s.status.details && Reconcile(s, env).spec == s.spec
    ensures Closed(Reconcile(s, env), !HasPhase(s.status.details, Failed) && env.saved)
  {
    TurnConcludes(s, env);
    SetReadyCondition(s.status.conditions, ReadyCondition());
    SetReadyCondition(s.status.conditions, ErrorCondition("some files failed to process."));
  }

  lemma {:induction false} WorkingTurn(s: State, env: Env)
    requires Settled(s) && Able(s.spec, env) && Work(s.status.details) > 0
    ensures var t := Reconcile(s, env);
            Settled(t) && t.spec == s.spec && Work(t.status.details) == Work(s.status.details) - if env.saved then 1 else 0
  {
    if env.saved { var i, j := TurnDoesWork(s, env); } else { RefusedWork(s, env); }
  }

  ghost predicate Finished(s: State, announced: bool)
  {
    Work(s.status.details) == 0 && (ShownReady(s) <==> !HasPhase(s.status.details, Failed) && announced)
  }

  lemma {:induction false} ClosedIsFinished(s: State, details: seq<GroupDetail>, announced: bool)
    requires Closed(s, !HasPhase(details, Failed) && announced) && s.status.details == details
    ensures Finished(s, announced)
  {
  }

  lemma {:induction false} Announces(s: State, envs: seq<Env>)
    requires Settled(s) && AllAble(s.spec, envs) && envs != [] && Work(s.status.details) == 0
    ensures Finished(Turns(s, envs), envs[0].saved)
  {
    AnnouncingCloses(s, envs[0]);
    ClosedForGood(Reconcile(s, envs[0]), envs[1..], !HasPhase(s.status.details, Failed) && envs[0].saved);
    ClosedIsFinished(Turns(s, envs), s.status.details, envs[0].saved);
  }

  lemma {:induction false} TurnsInTwo(s: State, envs: seq<Env>, n: nat)
    requires n <= |envs|
    ensures Turns(s, envs) == Turns(Turns(s, envs[..n]), envs[n..])
    decreases n
  {
    if n > 0 {
      TurnsInTwo(Reconcile(s, envs[0]), envs[1..], n - 1);
      assert envs[..n][1..] == envs[1..][..n - 1] && envs[1..][n - 1..] == envs[n..];
    }
  }

  ghost predicate HasWork(s: State, spec: Spec, w: nat)
  {
    Settled(s) && s.spec == spec && Work(s.status.details) == w
  }

  lemma {:induction false} WorkingTurnIs(s: State, env: Env, spec: Spec, w: nat)
    requires HasWork(s, spec, w) && Able(spec, env) && w > 0
    ensures HasWork(Reconcile(s, env), spec, if env.saved then w - 1 else w)
  {
    WorkingTurn(s, env);
  }

  /** As many accepted writes as there is work, and refused ones in between, leave no work. */
  lemma {:induction false} WorksOff(s: State, envs: seq<Env>, n: nat, spec: Spec, w: nat)
    requires HasWork(s, spec, w) && AllAble(spec, envs) && n == Announcing(w, envs) < |envs|
    ensures HasWork(Turns(s, envs[..n]), spec, 0)
    decreases |envs|
  {
    if w > 0 {
      WorkingTurnIs(s, envs[0], spec, w);
      WorksOff(Reconcile(s, envs[0]), envs[1..], n - 1, spec, if envs[0].saved then w - 1 else w);
      TurnsNext(s, envs, n);
    }
  }

  lemma {:induction false} TurnsNext(s: State, envs: seq<Env>, n: nat)
    requires 0 < n <= |envs|
    ensures Turns(s, envs[..n]) == Turns(Reconcile(s, envs[0]), envs[1..][..n - 1])
  {
    assert envs[..n][1..] == envs[1..][..n - 1];
  }

  /**
   From a rebuilt status, and whatever the single files meet with, exactly as many accepted writes as there is work
   finish every file. The next turn decides: without failed files readiness is shown from then on if its write is
   accepted, and never if it is refused, however many favourable turns follow.
   */
  lemma {:induction false} Converges(s: State, envs: seq<Env>)
    requires Settled(s) && AllAble(s.spec, envs) && Announcing(Work(s.status.details), envs) < |envs|
    ensures Finished(Turns(s, envs), envs[Announcing(Work(s.status.details), envs)].saved)
  {
    var n := Announcing(Work(s.status.details), envs);
    WorksOff(s, envs, n, s.spec, Work(s.status.details));
    TurnsInTwo(s, envs, n);
    assert envs[n..][0] == envs[n];
    Announces(Turns(s, envs[..n]), envs[n..]);
  }

  /** Readiness that was noted but not shown stays so through all turns that find their dependencies. */
  lemma {:induction false} NotedForGood(s: State, envs: seq<Env>)
    requires Announceable(s) && s.noted && AllAble(s.spec, envs)
    ensures !ShownReady(Turns(s, envs))
  {
    assert Closed(s, false);
    ClosedForGood(s, envs, false);
  }
}
