/** When the reconciler takes a file for embedded that never was. */
module KnowledgeBaseEmbedding {
  import opened FilePhases
  import opened Conditions
  import opened KnowledgeBase
  import opened KnowledgeBaseRuns

  /** A succeeded entry is one of the contents. */
  predicate Backed(source: Source, d: Detail, ns: string, contents: set<Content>)
  {
    d.phase == Succeeded ==> ContentOf(source, d, ns) in contents
  }

  predicate AllBacked(details: seq<GroupDetail>, ns: string, contents: set<Content>)
  {
    forall i, j :: 0 <= i < |details| && 0 <= j < |details[i].files| ==>
      Backed(details[i].source, details[i].files[j], ns, contents)
  }

  /** Every succeeded file was embedded, with the checksum that its entry shows. */
  predicate SuccessesEmbedded(v: World)
  {
    AllBacked(v.state.status.details, v.state.ns, v.embedded)
  }

  /** The store reports the checksum on record for an entry in process whose content was never embedded. */
  predicate KnownButNotEmbedded(source: Source, d: Detail, ns: string, fetch: Fetch, embedded: set<Content>)
  {
    d.phase == Processing && fetch.Stat? && fetch.etag == d.checksum && ContentOf(source, d, ns) !in embedded
  }

  /** The turn works on such an entry, and its write is accepted. */
  predicate Misjudges(v: World, e: Event)
  {
    e.Turn? && e.env.saved &&
    match WorkPlace(v.state, e.env)
    case Nowhere => false
    case At(i, j) =>
      var g := v.state.status.details[i];
      KnownButNotEmbedded(g.source, g.files[j], v.state.ns, e.env.fetch, v.embedded)
  }

  // One turn

  lemma {:induction false} AdvanceBackedIff(source: Source, d: Detail, ns: string, fetch: Fetch, contents: set<Content>)
    requires Open(d)
    ensures Backed(source, Advance(d, fetch), ns, contents + NewContents(source, d, ns, fetch))
            <==> !KnownButNotEmbedded(source, d, ns, fetch, contents)
  {
  }

  lemma {:induction false} MoreBacked(details: seq<GroupDetail>, ns: string, a: set<Content>, b: set<Content>)
    requires AllBacked(details, ns, a) && a <= b
    ensures AllBacked(details, ns, b)
  {
    forall i, j | 0 <= i < |details| && 0 <= j < |details[i].files|
      ensures Backed(details[i].source, details[i].files[j], ns, b)
    {
      assert Backed(details[i].source, details[i].files[j], ns, a);
    }
  }

  lemma {:induction false} SetDetailBackedIff(details: seq<GroupDetail>, ns: string, i: nat, j: nat, d: Detail,
                                              contents: set<Content>)
    requires i < |details| && j < |details[i].files| && AllBacked(details, ns, contents)
    ensures AllBacked(SetDetail(details, i, j, d), ns, contents) <==> Backed(details[i].source, d, ns, contents)
  {
    var t := SetDetail(details, i, j, d);
    assert t[i].files[j] == d && t[i].source == details[i].source;
    forall k, l | 0 <= k < |t| && 0 <= l < |t[k].files| && (k != i || l != j)
      ensures Backed(t[k].source, t[k].files[l], ns, contents)
    {
      assert Backed(details[k].source, details[k].files[l], ns, contents);
    }
  }

  lemma {:induction false} RetryBacked(details: seq<GroupDetail>, ns: string, contents: set<Content>)
    requires AllBacked(details, ns, contents)
    ensures AllBacked(Retry(details), ns, contents)
  {
    forall i, j | 0 <= i < |details| && 0 <= j < |details[i].files|
      ensures Backed(details[i].source, RetryDetail(details[i].files[j]), ns, contents)
    {
      assert Backed(details[i].source, details[i].files[j], ns, contents);
    }
  }

  lemma {:induction false} RebuildBacked(groups: seq<Group>, ns: string, was: seq<GroupDetail>, contents: set<Content>)
    requires AllBacked(was, ns, contents)
    ensures AllBacked(Rebuild(groups, ns, was), ns, contents)
  {
    var gs, r := Sourced(groups), Rebuild(groups, ns, was);
    forall i, j | 0 <= i < |r| && 0 <= j < |r[i].files|
      ensures Backed(r[i].source, r[i].files[j], ns, contents)
    {
      EntryBacked(gs[i], gs[i].files[j], ns, was, contents);
    }
  }

  lemma {:induction false} EntryBacked(g: Group, f: FileSpec, ns: string, was: seq<GroupDetail>, contents: set<Content>)
    requires AllBacked(was, ns, contents) && g.source.Some?
    ensures Backed(g.source.value, Entry(f, Find(was, ns, GroupKey(g, ns), f.path)), ns, contents)
  {
    var found := Find(was, ns, GroupKey(g, ns), f.path);
    if found.Some? {
      var d := found.value;
      var h :| h in was && KeyOf(h.source, ns) == GroupKey(g, ns) && d in h.files && d.path == f.path;
      var k :| 0 <= k < |was| && was[k] == h;
      var l :| 0 <= l < |was[k].files| && was[k].files[l] == d;
      assert Backed(was[k].source, was[k].files[l], ns, contents);
    }
  }

  lemma {:induction false} UnsavedConclusion(s: State, status: Status, c: Condition)
    ensures Conclude(s, status, c, false).status == s.status
  {
  }

  lemma {:induction false} UnsavedKeeps(s: State, env: Env)
    requires !env.saved
    ensures Reconcile(s, env).status == s.status
  {
    if s.status.conditions == [] {
      UnsavedConclusion(s, s.status, PendingCondition(""));
    } else if s.status.observed != s.generation {
      UnsavedConclusion(s, s.status.(observed := s.generation), InitCondition());
    } else if s.annotation != "" {
      UnsavedConclusion(s, s.status.(details := []), InitCondition());
      UnsavedConclusion(s, s.status.(details := Retry(s.status.details)), InitCondition());
    } else if SameFiles(Rebuild(s.spec.groups, s.ns, s.status.details), s.status.details) {
      match Problem(s.spec, env)
      case Some(c) => UnsavedConclusion(s, s.status, c);
      case None => UnsavedWork(s, env);
    }
  }

  lemma {:induction false} UnsavedWork(s: State, env: Env)
    requires !env.saved
    ensures WorkOnFiles(s, env).status == s.status
  {
    UnsavedConclusion(s, s.status, ErrorCondition("some files failed to process."));
    UnsavedConclusion(s, s.status, ReadyCondition());
  }

  lemma {:induction false} WorkIsDone(s: State, env: Env)
    requires WorkPlace(s, env).At? && env.saved
    ensures var At(i, j) := WorkPlace(s, env);
            var d := Advance(s.status.details[i].files[j], env.fetch);
            Reconcile(s, env) == s.(status := s.status.(details := SetDetail(s.status.details, i, j, d)))
  {
    assert Reconcile(s, env) == WorkOnFiles(s, env);
  }

  lemma {:induction false} WorkedBackedIff(v: World, env: Env, t: seq<GroupDetail>)
    requires SuccessesEmbedded(v) && env.saved && Worked(v.state, env, t)
    ensures AllBacked(t, v.state.ns, v.embedded + EmbeddedBy(v.state, env)) <==> !Misjudges(v, Turn(env))
  {
    var s := v.state;
    var At(i, j) := WorkPlace(s, env);
    var g := s.status.details[i];
    AdvanceBackedIff(g.source, g.files[j], s.ns, env.fetch, v.embedded);
    MoreBacked(s.status.details, s.ns, v.embedded, v.embedded + EmbeddedBy(s, env));
    SetDetailBackedIff(s.status.details, s.ns, i, j, Advance(g.files[j], env.fetch), v.embedded + EmbeddedBy(s, env));
  }

  lemma {:induction false} TurnBacked(v: World, env: Env)
    requires SuccessesEmbedded(v) && !Misjudges(v, Turn(env))
    ensures SuccessesEmbedded(ApplyWorld(v, Turn(env)))
  {
    var s, t := v.state, Reconcile(v.state, env);
    var contents := v.embedded + EmbeddedBy(s, env);
    TurnCases(s, env);
    MoreBacked(s.status.details, s.ns, v.embedded, contents);
    RetryBacked(s.status.details, s.ns, contents);
    RebuildBacked(s.spec.groups, s.ns, s.status.details, contents);
    if !env.saved {
      UnsavedKeeps(s, env);
    } else if Worked(s, env, t.status.details) {
      WorkedBackedIff(v, env, t.status.details);
    }
  }

  lemma {:induction false} MisjudgedIsNotBacked(v: World, env: Env)
    requires SuccessesEmbedded(v) && Misjudges(v, Turn(env))
    ensures !SuccessesEmbedded(ApplyWorld(v, Turn(env)))
  {
    var t := WorkShows(v, env);
    WorkedBackedIff(v, env, t);
    TurnShows(v, env, t);
    ShownIsBackedIff(ApplyWorld(v, Turn(env)), t, v.state.ns, v.embedded + EmbeddedBy(v.state, env));
  }

  lemma {:induction false} ShownIsBackedIff(w: World, t: seq<GroupDetail>, ns: string, contents: set<Content>)
    requires w.state.status.details == t && w.state.ns == ns && w.embedded == contents
    ensures SuccessesEmbedded(w) <==> AllBacked(t, ns, contents)
  {
  }

  lemma {:induction false} TurnShows(v: World, env: Env, t: seq<GroupDetail>)
    requires Reconcile(v.state, env) == v.state.(status := v.state.status.(details := t))
    ensures var w := ApplyWorld(v, Turn(env));
            && w.state.status.details == t && w.state.ns == v.state.ns
            && w.embedded == v.embedded + EmbeddedBy(v.state, env)
  {
    TurnIsReconcile(v, env);
  }

  lemma {:induction false} TurnIsReconcile(v: World, env: Env)
    ensures ApplyWorld(v, Turn(env)).state == Reconcile(v.state, env)
    ensures ApplyWorld(v, Turn(env)).embedded == v.embedded + EmbeddedBy(v.state, env)
  {
  }

  /** The file details after a turn that works on an entry. */
  lemma {:induction false} WorkShows(v: World, env: Env) returns (t: seq<GroupDetail>)
    requires WorkPlace(v.state, env).At? && env.saved
    ensures Worked(v.state, env, t)
    ensures Reconcile(v.state, env) == v.state.(status := v.state.status.(details := t))
  {
    var At(i, j) := WorkPlace(v.state, env);
    WorkIsDone(v.state, env);
    t := SetDetail(v.state.status.details, i, j, Advance(v.state.status.details[i].files[j], env.fetch));
  }

  lemma {:induction false} OthersBacked(v: World, e: Event)
    requires SuccessesEmbedded(v) && !e.Turn?
    ensures SuccessesEmbedded(ApplyWorld(v, e))
  {
    assert Apply(v.state, e).status.details == v.state.status.details;
  }

  /** One step ends the agreement of successes and embeddings exactly if it misjudges an entry. */
  lemma {:induction false} StepBackedIff(v: World, e: Event)
    requires SuccessesEmbedded(v)
    ensures SuccessesEmbedded(ApplyWorld(v, e)) <==> !Misjudges(v, e)
  {
    if !e.Turn? {
      OthersBacked(v, e);
    } else if Misjudges(v, e) {
      MisjudgedIsNotBacked(v, e.env);
    } else {
      TurnBacked(v, e.env);
    }
  }

  // All runs

  ghost predicate NeverMisjudges(w: World, run: seq<Event>)
  {
    run == [] ||
    (NeverMisjudges(w, run[..|run| - 1]) && !Misjudges(AfterWorld(w, run[..|run| - 1]), run[|run| - 1]))
  }

  lemma {:induction false} RunBacked(w: World, run: seq<Event>)
    requires Initial(w.state) && NeverMisjudges(w, run)
    ensures SuccessesEmbedded(AfterWorld(w, run))
  {
    if run != [] {
      RunBacked(w, run[..|run| - 1]);
      StepBackedIff(AfterWorld(w, run[..|run| - 1]), run[|run| - 1]);
    }
  }

  /**
   In every run, the first step after which some succeeded file was not embedded is the first one that takes the
   checksum on record of a file never embedded for a sign that it was.
   */
  lemma {:induction false} SucceedsUnembeddedIff(w: World, run: seq<Event>, e: Event)
    requires Initial(w.state) && NeverMisjudges(w, run)
    ensures SuccessesEmbedded(AfterWorld(w, run))
    ensures SuccessesEmbedded(ApplyWorld(AfterWorld(w, run), e)) <==> !Misjudges(AfterWorld(w, run), e)
  {
    RunBacked(w, run);
    StepBackedIff(AfterWorld(w, run), e);
  }
}
