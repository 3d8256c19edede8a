/** What holds over all runs of the knowledge base reconciler, with edits, annotations and restarts in between. */
module KnowledgeBaseRuns {
  import opened Options
  import opened FilePhases
  import opened Conditions
  import opened KnowledgeBase

  datatype Event = Edit(spec: Spec) | Annotate(value: string) | Restart | Turn(env: Env)

  function Apply(s: State, e: Event): State
  {
    match e
    case Edit(spec) => if spec == s.spec then s else s.(spec := spec, generation := s.generation + 1)
    case Annotate(value) => s.(annotation := value)
    case Restart => s.(noted := false)
    case Turn(env) => Reconcile(s, env)
  }

  ghost predicate Initial(s: State)
  {
    s.status == Status(0, [], []) && s.generation > 0 && !s.noted
  }

  ghost function After(s: State, run: seq<Event>): State
  {
    if run == [] then s else Apply(After(s, run[..|run| - 1]), run[|run| - 1])
  }

  // ----- Ready is safe

  predicate Done(d: Detail)
  {
    d.phase == Succeeded || d.phase == Skipped
  }

  ghost predicate AllDone(details: seq<GroupDetail>)
  {
    forall i, j :: 0 <= i < |details| && 0 <= j < |details[i].files| ==> Done(details[i].files[j])
  }

  ghost predicate ShownReady(s: State)
  {
    IsReady(s.status.conditions) && s.status.observed == s.generation
  }

  ghost predicate InSync(s: State)
  {
    SameFiles(Rebuild(s.spec.groups, s.ns, s.status.details), s.status.details)
  }

  ghost predicate OnlyReady(cs: seq<Condition>)
  {
    cs == [] || (|cs| == 1 && cs[0].ctype == TYPE_READY)
  }

  ghost predicate SafeState(s: State)
  {
    && s.status.observed <= s.generation
    && OnlyReady(s.status.conditions)
    && (ShownReady(s) ==> InSync(s) && AllDone(s.status.details))
  }

  lemma {:induction false} SetReadyCondition(cs: seq<Condition>, c: Condition)
    requires OnlyReady(cs) && c.ctype == TYPE_READY
    ensures SetOne(cs, c) == [c] && IsReady([c]) == (c.status == True)
  {
    if cs != [] { assert cs == [cs[0]]; }
  }

  lemma {:induction false} ConcludeSafe(s: State, status: Status, c: Condition, saved: bool)
    requires SafeState(s) && c.ctype == TYPE_READY && status.conditions == s.status.conditions
    requires status.observed <= s.generation
    requires c.status == True ==> status == s.status && InSync(s) && AllDone(status.details)
    ensures SafeState(Conclude(s, status, c, saved))
  {
    SetReadyCondition(status.conditions, c);
  }

  lemma {:induction false} WorkOnFilesSafe(s: State, env: Env)
    requires SafeState(s) && !IsReady(s.status.conditions) && InSync(s)
    ensures SafeState(WorkOnFiles(s, env))
  {
    var details := s.status.details;
    match FirstOpen(details, 0)
    case At(i, j) =>
    case Nowhere =>
      if HasPhase(details, Failed) {
        ConcludeSafe(s, s.status, ErrorCondition("some files failed to process."), env.saved);
      } else {
        forall i, j | 0 <= i < |details| && 0 <= j < |details[i].files|
          ensures Done(details[i].files[j])
        {
          assert !Open(details[i].files[j]);
        }
        if s.status.conditions != [] && s.status.conditions[0].status != True {
          ConcludeSafe(s, s.status, ReadyCondition(), env.saved);
        }
      }
  }

  lemma {:induction false} AnnotationSafe(s: State, saved: bool)
    requires SafeState(s)
    ensures SafeState(HandleAnnotation(s, saved))
  {
    if s.annotation != RETRY_FOR_FAILED && s.status.details != [] {
      ConcludeSafe(s, s.status.(details := []), InitCondition(), saved);
    } else if s.annotation == RETRY_FOR_FAILED && HasPhase(s.status.details, Failed) {
      ConcludeSafe(s, s.status.(details := Retry(s.status.details)), InitCondition(), saved);
    }
  }

  lemma {:induction false} ProblemIsUnready(spec: Spec, env: Env)
    ensures match Problem(spec, env)
            case Some(c) => c.ctype == TYPE_READY && c.status == False
            case None => true
  {
  }

  lemma {:induction false} FilesSafe(s: State, env: Env)
    requires SafeState(s) && InSync(s)
    ensures SafeState(ReconcileFiles(s, env))
  {
    ProblemIsUnready(s.spec, env);
    match Problem(s.spec, env)
    case Some(c) =>
      ConcludeSafe(s, s.status, c, env.saved);
      assert ReconcileFiles(s, env) == Conclude(s, s.status, c, env.saved);
    case None =>
      if !IsReady(s.status.conditions) && !s.noted { WorkOnFilesSafe(s, env); }
  }

  /** A status that is out of line does not show readiness, before it is rebuilt and after. */
  lemma {:induction false} RebuiltSafe(s: State)
    requires SafeState(s) && !InSync(s)
    ensures SafeState(s.(status := s.status.(details := Rebuild(s.spec.groups, s.ns, s.status.details))))
  {
  }

  lemma {:induction false} ReconcileSafe(s: State, env: Env)
    requires SafeState(s)
    ensures SafeState(Reconcile(s, env))
  {
    if s.status.conditions == [] {
      ConcludeSafe(s, s.status, PendingCondition(""), env.saved);
    } else if s.status.observed != s.generation {
      ConcludeSafe(s, s.status.(observed := s.generation), InitCondition(), env.saved);
    } else if s.annotation != "" {
      AnnotationSafe(s, env.saved);
    } else if InSync(s) {
      FilesSafe(s, env);
    } else {
      RebuiltSafe(s);
    }
  }

  lemma {:induction false} RunsAreSafe(s: State, run: seq<Event>)
    requires Initial(s)
    ensures SafeState(After(s, run))
  {
    if run != [] {
      RunsAreSafe(s, run[..|run| - 1]);
      var e := run[|run| - 1];
      if e.Turn? { ReconcileSafe(After(s, run[..|run| - 1]), e.env); }
    }
  }

  /** Every file of every sourced group has an entry, under the same source, at the version asked for, that is done. */
  ghost predicate Covered(s: State)
  {
    forall g, f :: g in s.spec.groups && g.source.Some? && f in g.files ==> HasDoneEntry(s, GroupKey(g, s.ns), f)
  }

  ghost predicate HasDoneEntry(s: State, key: Key, f: FileSpec)
  {
    exists gd, d :: gd in s.status.details && KeyOf(gd.source, s.ns) == key && d in gd.files &&
                    d.path == f.path && d.version == f.version && Done(d)
  }

  /** In every reachable state that shows Ready for the current generation all files asked for are done, although
      syncStatus never compares sources: a done entry can only have been carried over from its own source. */
  lemma {:induction false} ReadyMeansCovered(s: State, run: seq<Event>)
    requires Initial(s) && ShownReady(After(s, run))
    ensures Covered(After(s, run))
  {
    RunsAreSafe(s, run);
    var t := After(s, run);
    var gs := Sourced(t.spec.groups);
    forall g, f | g in t.spec.groups && g.source.Some? && f in g.files
      ensures HasDoneEntry(t, GroupKey(g, t.ns), f)
    {
      var i :| 0 <= i < |gs| && gs[i] == g;
      var j :| 0 <= j < |g.files| && g.files[j] == f;
      var found := Find(t.status.details, t.ns, GroupKey(g, t.ns), f.path);
      assert t.status.details[i].files[j] == Entry(f, found);
      assert Done(t.status.details[i].files[j]);
    }
  }

  // ----- Where a success comes from

  /** A file at a source with a checksum. */
  datatype Content = Content(key: Key, path: string, checksum: string)

  /** A state with its history: the contents that were embedded, and those of entries that were put back to
      Processing after they had failed or been skipped. */
  datatype World = World(state: State, embedded: set<Content>, requeued: set<Content>)

  function ContentOf(source: Source, d: Detail, ns: string): Content
  {
    Content(KeyOf(source, ns), d.path, d.checksum)
  }

  /** The entry that this turn works on, if it gets that far. */
  function WorkPlace(s: State, env: Env): (r: Place)
    ensures r.At? ==> r.group < |s.status.details| && r.file < |s.status.details[r.group].files|
  {
    if s.status.conditions != [] && s.status.observed == s.generation && s.annotation == ""
       && SameFiles(Rebuild(s.spec.groups, s.ns, s.status.details), s.status.details)
       && Problem(s.spec, env) == None && !IsReady(s.status.conditions) && !s.noted
    then FirstOpen(s.status.details, 0)
    else Nowhere
  }

  function EmbeddedBy(s: State, env: Env): set<Content>
  {
    match WorkPlace(s, env)
    case Nowhere => {}
    case At(i, j) => NewContents(s.status.details[i].source, s.status.details[i].files[j], s.ns, env.fetch)
  }

  /** A content of s with some phase. */
  ghost predicate HasContent(s: State, c: Content, phase: FilePhase)
  {
    exists i, j :: 0 <= i < |s.status.details| && 0 <= j < |s.status.details[i].files|
      && s.status.details[i].files[j].phase == phase
      && ContentOf(s.status.details[i].source, s.status.details[i].files[j], s.ns) == c
  }

  /** Contents of failed or skipped entries of s that are being processed in t. */
  ghost function RequeuedBy(s: State, t: State): set<Content>
  {
    set i, j | 0 <= i < |s.status.details| && 0 <= j < |s.status.details[i].files|
               && (s.status.details[i].files[j].phase == Failed || s.status.details[i].files[j].phase == Skipped)
               && HasContent(t, ContentOf(s.status.details[i].source, s.status.details[i].files[j], s.ns), Processing)
      :: ContentOf(s.status.details[i].source, s.status.details[i].files[j], s.ns)
  }

  ghost function ApplyWorld(w: World, e: Event): World
  {
    var t := Apply(w.state, e);
    World(t, w.embedded + (if e.Turn? then EmbeddedBy(w.state, e.env) else {}), w.requeued + RequeuedBy(w.state, t))
  }

  ghost function AfterWorld(w: World, run: seq<Event>): World
  {
    if run == [] then w else ApplyWorld(AfterWorld(w, run[..|run| - 1]), run[|run| - 1])
  }

  /** A checksum in an entry that is done or on its way is that of an embedded or requeued content; the case of an
      entry on its way is needed because the checksum is recorded before the file is embedded. */
  ghost predicate Accounted(source: Source, d: Detail, ns: string, contents: set<Content>)
  {
    && (d.phase == Pending ==> d.checksum == "")
    && ((d.phase == Processing || d.phase == Succeeded) && d.checksum != "" ==> ContentOf(source, d, ns) in contents)
  }

  ghost predicate AllAccounted(details: seq<GroupDetail>, ns: string, contents: set<Content>)
  {
    forall i, j :: 0 <= i < |details| && 0 <= j < |details[i].files| ==>
      Accounted(details[i].source, details[i].files[j], ns, contents)
  }

  ghost predicate Worked(s: State, env: Env, t: seq<GroupDetail>)
  {
    match WorkPlace(s, env)
    case Nowhere => false
    case At(i, j) => t == SetDetail(s.status.details, i, j, Advance(s.status.details[i].files[j], env.fetch))
  }

  lemma {:induction false} ConcludeCases(s: State, status: Status, c: Condition, saved: bool)
    ensures var t := Conclude(s, status, c, saved);
            t.ns == s.ns && (t.status.details == s.status.details || t.status.details == status.details)
  {
  }

  /** The ways in which one turn can change the file details. */
  lemma {:induction false} TurnCases(s: State, env: Env)
    ensures Reconcile(s, env).ns == s.ns
    ensures var t := Reconcile(s, env).status.details;
            || t == s.status.details
            || t == []
            || t == Retry(s.status.details)
            || t == Rebuild(s.spec.groups, s.ns, s.status.details)
            || Worked(s, env, t)
  {
    if s.status.conditions == [] {
      ConcludeCases(s, s.status, PendingCondition(""), env.saved);
    } else if s.status.observed != s.generation {
      ConcludeCases(s, s.status.(observed := s.generation), InitCondition(), env.saved);
    } else if s.annotation != "" {
      AnnotationCases(s, env.saved);
    } else if SameFiles(Rebuild(s.spec.groups, s.ns, s.status.details), s.status.details) {
      match Problem(s.spec, env)
      case Some(c) => ConcludeCases(s, s.status, c, env.saved);
      case None => WorkCases(s, env);
    }
  }

  lemma {:induction false} AnnotationCases(s: State, saved: bool)
    ensures var t := HandleAnnotation(s, saved);
            && t.ns == s.ns
            && (t.status.details == s.status.details || t.status.details == []
                || t.status.details == Retry(s.status.details))
  {
    ConcludeCases(s, s.status.(details := []), InitCondition(), saved);
    ConcludeCases(s, s.status.(details := Retry(s.status.details)), InitCondition(), saved);
  }

  lemma {:induction false} WorkCases(s: State, env: Env)
    ensures var t := WorkOnFiles(s, env);
            && t.ns == s.ns
            && (t.status.details == s.status.details ||
                match FirstOpen(s.status.details, 0)
                case Nowhere => false
                case At(i, j) =>
                  t.status.details == SetDetail(s.status.details, i, j, Advance(s.status.details[i].files[j], env.fetch)))
  {
    ConcludeCases(s, s.status, ErrorCondition("some files failed to process."), env.saved);
    ConcludeCases(s, s.status, ReadyCondition(), env.saved);
  }

  lemma {:induction false} RetryAccounted(s: State, t: State, contents: set<Content>)
    requires AllAccounted(s.status.details, s.ns, contents)
    requires t.ns == s.ns && t.status.details == Retry(s.status.details)
    ensures AllAccounted(t.status.details, t.ns, contents + RequeuedBy(s, t))
  {
    var details := s.status.details;
    forall i, j | 0 <= i < |details| && 0 <= j < |details[i].files|
      ensures Accounted(details[i].source, RetryDetail(details[i].files[j]), s.ns, contents + RequeuedBy(s, t))
    {
      var d := details[i].files[j];
      assert Accounted(details[i].source, d, s.ns, contents);
      if d.phase == Failed {
        assert t.status.details[i].files[j] == RetryDetail(d);
        assert HasContent(t, ContentOf(details[i].source, d, s.ns), Processing);
      }
    }
  }

  lemma {:induction false} CarriedAccounted(s: State, t: State, contents: set<Content>, i: nat, j: nat)
    requires AllAccounted(s.status.details, s.ns, contents) && t.ns == s.ns
    requires t.status.details == Rebuild(s.spec.groups, s.ns, s.status.details)
    requires i < |t.status.details| && j < |t.status.details[i].files|
    ensures Accounted(t.status.details[i].source, t.status.details[i].files[j], t.ns, contents + RequeuedBy(s, t))
  {
    var was, ns, gs := s.status.details, s.ns, Sourced(s.spec.groups);
    var found := Find(was, ns, GroupKey(gs[i], ns), gs[i].files[j].path);
    var source', d' := t.status.details[i].source, t.status.details[i].files[j];
    assert d' == Entry(gs[i].files[j], found);
    if found.Some? {
      var d := found.value;
      var g :| g in was && KeyOf(g.source, ns) == GroupKey(gs[i], ns) && d in g.files && d.path == gs[i].files[j].path;
      var k :| 0 <= k < |was| && was[k] == g;
      var l :| 0 <= l < |was[k].files| && was[k].files[l] == d;
      assert Accounted(was[k].source, was[k].files[l], ns, contents);
      assert ContentOf(source', d', ns) == ContentOf(was[k].source, d, ns);
      if d'.phase == Processing && (d.phase == Failed || d.phase == Skipped) {
        assert HasContent(t, ContentOf(was[k].source, was[k].files[l], ns), Processing);
      }
    }
  }

  function NewContents(source: Source, d: Detail, ns: string, fetch: Fetch): set<Content>
  {
    if d.phase == Processing && Embeds(d, fetch) then {Content(KeyOf(source, ns), d.path, fetch.etag)} else {}
  }

  lemma {:induction false} AdvanceAccounted(source: Source, d: Detail, ns: string, fetch: Fetch, contents: set<Content>)
    requires Open(d) && Accounted(source, d, ns, contents)
    ensures Accounted(source, Advance(d, fetch), ns, contents + NewContents(source, d, ns, fetch))
  {
  }

  lemma {:induction false} SetDetailAccounted(details: seq<GroupDetail>, ns: string, i: nat, j: nat, d: Detail,
                                              contents: set<Content>)
    requires i < |details| && j < |details[i].files|
    requires AllAccounted(details, ns, contents) && Accounted(details[i].source, d, ns, contents)
    ensures AllAccounted(SetDetail(details, i, j, d), ns, contents)
  {
    var t := SetDetail(details, i, j, d);
    forall k, l | 0 <= k < |t| && 0 <= l < |t[k].files|
      ensures Accounted(t[k].source, t[k].files[l], ns, contents)
    {
      if k != i || l != j {
        assert Accounted(details[k].source, details[k].files[l], ns, contents);
      }
    }
  }

  lemma {:induction false} WorkAccounted(s: State, env: Env, contents: set<Content>, t: seq<GroupDetail>)
    requires AllAccounted(s.status.details, s.ns, contents) && Worked(s, env, t)
    ensures AllAccounted(t, s.ns, contents + EmbeddedBy(s, env))
  {
    var At(i, j) := WorkPlace(s, env);
    var g, d := s.status.details[i], s.status.details[i].files[j];
    assert Accounted(g.source, d, s.ns, contents);
    AdvanceAccounted(g.source, d, s.ns, env.fetch, contents);
    MoreContents(s.status.details, s.ns, contents, contents + EmbeddedBy(s, env));
    SetDetailAccounted(s.status.details, s.ns, i, j, Advance(d, env.fetch), contents + EmbeddedBy(s, env));
  }

  ghost predicate Explained(w: World)
  {
    AllAccounted(w.state.status.details, w.state.ns, w.embedded + w.requeued)
  }

  lemma {:induction false} MoreContents(details: seq<GroupDetail>, ns: string, a: set<Content>, b: set<Content>)
    requires AllAccounted(details, ns, a) && a <= b
    ensures AllAccounted(details, ns, b)
  {
    forall i, j | 0 <= i < |details| && 0 <= j < |details[i].files|
      ensures Accounted(details[i].source, details[i].files[j], ns, b)
    {
      assert Accounted(details[i].source, details[i].files[j], ns, a);
    }
  }

  lemma {:induction false} RebuildAccounted(s: State, t: State, contents: set<Content>)
    requires AllAccounted(s.status.details, s.ns, contents) && t.ns == s.ns
    requires t.status.details == Rebuild(s.spec.groups, s.ns, s.status.details)
    ensures AllAccounted(t.status.details, t.ns, contents + RequeuedBy(s, t))
  {
    forall i, j | 0 <= i < |t.status.details| && 0 <= j < |t.status.details[i].files|
      ensures Accounted(t.status.details[i].source, t.status.details[i].files[j], t.ns, contents + RequeuedBy(s, t))
    {
      CarriedAccounted(s, t, contents, i, j);
    }
  }

  lemma {:induction false} ChangeExplained(s: State, env: Env, t: State, contents: set<Content>, all: set<Content>)
    requires AllAccounted(s.status.details, s.ns, contents) && t.ns == s.ns
    requires var d := t.status.details;
             || d == s.status.details
             || d == []
             || d == Retry(s.status.details)
             || d == Rebuild(s.spec.groups, s.ns, s.status.details)
             || Worked(s, env, d)
    requires contents <= all && contents + RequeuedBy(s, t) <= all && contents + EmbeddedBy(s, env) <= all
    ensures AllAccounted(t.status.details, t.ns, all)
  {
    var d := t.status.details;
    if d == s.status.details {
      MoreContents(d, t.ns, contents, all);
    } else if d == Retry(s.status.details) {
      RetryAccounted(s, t, contents);
      MoreContents(d, t.ns, contents + RequeuedBy(s, t), all);
    } else if d == Rebuild(s.spec.groups, s.ns, s.status.details) {
      RebuildAccounted(s, t, contents);
      MoreContents(d, t.ns, contents + RequeuedBy(s, t), all);
    } else if d != [] {
      WorkAccounted(s, env, contents, d);
      MoreContents(d, t.ns, contents + EmbeddedBy(s, env), all);
    }
  }

  lemma {:induction false} EventExplained(w: World, e: Event)
    requires Explained(w)
    ensures Explained(ApplyWorld(w, e))
  {
    var s, t, contents := w.state, Apply(w.state, e), w.embedded + w.requeued;
    var all := ApplyWorld(w, e).embedded + ApplyWorld(w, e).requeued;
    if e.Turn? {
      TurnCases(s, e.env);
      ChangeExplained(s, e.env, t, contents, all);
    } else {
      MoreContents(s.status.details, s.ns, contents, all);
    }
  }

  lemma {:induction false} RunsAreExplained(w: World, run: seq<Event>)
    requires Initial(w.state)
    ensures Explained(AfterWorld(w, run))
  {
    if run != [] {
      RunsAreExplained(w, run[..|run| - 1]);
      EventExplained(AfterWorld(w, run[..|run| - 1]), run[|run| - 1]);
    }
  }

  /** In every run a succeeded file with a recorded checksum was embedded with that checksum, or its entry was put
      back to Processing with that checksum after it had failed or been skipped. */
  lemma {:induction false} SuccessWasEmbedded(w: World, run: seq<Event>, i: nat, j: nat)
    requires Initial(w.state)
    requires var details := AfterWorld(w, run).state.status.details; i < |details| && j < |details[i].files|
    ensures var v := AfterWorld(w, run);
            var g := v.state.status.details[i];
            g.files[j].phase == Succeeded && g.files[j].checksum != ""
            ==> ContentOf(g.source, g.files[j], v.state.ns) in v.embedded + v.requeued
  {
    RunsAreExplained(w, run);
    var v := AfterWorld(w, run);
    assert Accounted(v.state.status.details[i].source, v.state.status.details[i].files[j], v.state.ns, v.embedded + v.requeued);
  }
}
