/** What edits and update annotations bring about in the turns that follow. */
module KnowledgeBaseEdits {
  import opened Options
  import opened FilePhases
  import opened Conditions
  import opened KnowledgeBase
  import opened KnowledgeBaseEntries
  import opened KnowledgeBaseRuns
  import opened KnowledgeBaseProgress
  import opened KnowledgeBaseEmbedding
  import opened KnowledgeBaseOutcomes

  ghost predicate AllFavourable(spec: Spec, envs: seq<Env>)
  {
    forall k :: 0 <= k < |envs| ==> Able(spec, envs[k]) && envs[k].saved
  }

  /** The store is asked for the file at this place by the next turn, whatever becomes of it. */
  ghost predicate Checks(s: State, env: Env, i: nat, j: nat, source: Source, f: FileSpec)
  {
    && WorkPlace(s, env) == Place.At(i, j)
    && s.status.details[i].source == source
    && s.status.details[i].files[j].path == f.path && s.status.details[i].files[j].version == f.version
    && s.status.details[i].files[j].phase == Processing
    && env.fetch != NoSource
    && |Reconcile(s, env).status.details| == |s.status.details|
    && |Reconcile(s, env).status.details[i].files| == |s.status.details[i].files|
    && Settles(s.status.details[i].files[j], env.fetch, Reconcile(s, env).status.details[i].files[j])
  }

  /** One of these turns asks the store for the file. */
  ghost predicate Reaches(s: State, envs: seq<Env>, i: nat, j: nat, source: Source, f: FileSpec)
  {
    exists n: nat :: n < |envs| && Checks(Turns(s, envs[..n]), envs[n], i, j, source, f)
  }

  lemma {:induction false} ReachesAfter(s: State, envs: seq<Env>, i: nat, j: nat, source: Source, f: FileSpec)
    requires envs != [] && Reaches(Reconcile(s, envs[0]), envs[1..], i, j, source, f)
    ensures Reaches(s, envs, i, j, source, f)
  {
    var m: nat :| m < |envs| - 1 && Checks(Turns(Reconcile(s, envs[0]), envs[1..][..m]), envs[1..][m], i, j, source, f);
    TurnsNext(s, envs, m + 1);
    assert Checks(Turns(s, envs[..m + 1]), envs[m + 1], i, j, source, f);
  }

  lemma {:induction false} ReachesNow(s: State, envs: seq<Env>, i: nat, j: nat, source: Source, f: FileSpec)
    requires envs != [] && Checks(s, envs[0], i, j, source, f)
    ensures Reaches(s, envs, i, j, source, f)
  {
    assert envs[..0] == [];
  }

  lemma {:induction false} WorkIsAt(s: State, env: Env)
    requires Settled(s) && Able(s.spec, env)
    ensures WorkPlace(s, env) == FirstOpen(s.status.details, 0)
  {
    ShapedIsFixed(s.spec.groups, s.ns, s.status.details);
  }

  /** An entry that another turn works on, or only takes up, is still open after it. */
  lemma {:induction false} StaysOpen(s: State, env: Env, i: nat, j: nat)
    requires Settled(s) && Favourable(s, env)
    requires i < |s.status.details| && j < |s.status.details[i].files| && Open(s.status.details[i].files[j])
    requires FirstOpen(s.status.details, 0) == Place.At(i, j) ==> s.status.details[i].files[j].phase == Pending
    ensures var t := Reconcile(s, env);
            && Settled(t) && t.spec == s.spec && Work(t.status.details) == Work(s.status.details) - 1
            && i < |t.status.details| && j < |t.status.details[i].files| && Open(t.status.details[i].files[j])
            && t.status.details[i].source == s.status.details[i].source
            && t.status.details[i].files[j].path == s.status.details[i].files[j].path
            && t.status.details[i].files[j].version == s.status.details[i].files[j].version
  {
    var At(k, l) := FirstOpen(s.status.details, 0);
    TurnAdvances(s, env, k, l);
    MovedIsSettled(s, k, l, env.fetch);
    MovedKeepsOthers(s.status.details, k, l, Advance(s.status.details[k].files[l], env.fetch), i, j);
  }

  lemma {:induction false} MovedKeepsOthers(was: seq<GroupDetail>, k: nat, l: nat, d: Detail, i: nat, j: nat)
    requires k < |was| && l < |was[k].files| && i < |was| && j < |was[i].files|
    ensures var r := SetDetail(was, k, l, d);
            && |r| == |was| && |r[i].files| == |was[i].files| && r[i].source == was[i].source
            && r[i].files[j] == if k == i && l == j then d else was[i].files[j]
  {
  }

  lemma {:induction false} FirstIsChecked(s: State, envs: seq<Env>, i: nat, j: nat)
    requires Settled(s) && envs != [] && Favourable(s, envs[0]) && FirstOpen(s.status.details, 0) == Place.At(i, j)
    requires s.status.details[i].files[j].phase == Processing
    ensures var d := s.status.details[i].files[j];
            Reaches(s, envs, i, j, s.status.details[i].source, FileSpec(d.path, d.version))
  {
    var d := s.status.details[i].files[j];
    WorkIsAt(s, envs[0]);
    TurnSettles(s, envs[0], i, j);
    ReachesNow(s, envs, i, j, s.status.details[i].source, FileSpec(d.path, d.version));
  }

  /** The rebuilt status has w pieces of work, and file f of this source, at place i, j, is one of them. */
  ghost predicate OpenAt(s: State, spec: Spec, w: nat, i: nat, j: nat, source: Source, f: FileSpec)
  {
    && Settled(s) && s.spec == spec && Work(s.status.details) == w
    && i < |s.status.details| && j < |s.status.details[i].files| && Open(s.status.details[i].files[j])
    && s.status.details[i].source == source
    && s.status.details[i].files[j].path == f.path && s.status.details[i].files[j].version == f.version
  }

  ghost predicate IsNext(s: State, i: nat, j: nat)
    requires i < |s.status.details| && j < |s.status.details[i].files|
  {
    FirstOpen(s.status.details, 0) == Place.At(i, j) && s.status.details[i].files[j].phase == Processing
  }

  lemma {:induction false} OpenAtAfter(s: State, env: Env, spec: Spec, w: nat, i: nat, j: nat, source: Source, f: FileSpec)
    requires OpenAt(s, spec, w, i, j, source, f) && !IsNext(s, i, j) && Able(spec, env) && env.saved
    ensures w > 0 && OpenAt(Reconcile(s, env), spec, w - 1, i, j, source, f)
  {
    NoWork(s.status.details);
    StaysOpen(s, env, i, j);
  }

  lemma {:induction false} OpenMeansWork(s: State, spec: Spec, w: nat, i: nat, j: nat, source: Source, f: FileSpec)
    requires OpenAt(s, spec, w, i, j, source, f)
    ensures w > 0
  {
    NoWork(s.status.details);
  }

  lemma {:induction false} NextIsChecked(s: State, envs: seq<Env>, spec: Spec, w: nat, i: nat, j: nat, source: Source,
                                         f: FileSpec)
    requires OpenAt(s, spec, w, i, j, source, f) && IsNext(s, i, j)
    requires envs != [] && Able(spec, envs[0]) && envs[0].saved
    ensures Reaches(s, envs, i, j, source, f)
  {
    FirstIsChecked(s, envs, i, j);
  }

  /** From a rebuilt status every open entry is checked before the work runs out. */
  lemma {:induction false} OpenIsChecked(s: State, envs: seq<Env>, spec: Spec, w: nat, i: nat, j: nat, source: Source,
                                         f: FileSpec)
    requires OpenAt(s, spec, w, i, j, source, f) && AllFavourable(spec, envs) && |envs| >= w
    ensures Reaches(s, envs, i, j, source, f)
    decreases |envs|
  {
    OpenMeansWork(s, spec, w, i, j, source, f);
    if IsNext(s, i, j) {
      NextIsChecked(s, envs, spec, w, i, j, source, f);
    } else {
      OpenAtAfter(s, envs[0], spec, w, i, j, source, f);
      OpenIsChecked(Reconcile(s, envs[0]), envs[1..], spec, w - 1, i, j, source, f);
      ReachesAfter(s, envs, i, j, source, f);
    }
  }

  // After an edit, before the status is rebuilt

  /** The current specification has been seen; the status may still be that of an older one. */
  ghost predicate Seen(s: State)
  {
    && s.status.conditions != [] && OnlyReady(s.status.conditions) && !IsReady(s.status.conditions)
    && s.status.observed == s.generation && s.annotation == "" && !s.noted
    && DistinctSpec(s.spec.groups, s.ns)
  }

  /** The status knows file j of group i at another version than the one asked for. */
  ghost predicate Stale(s: State, i: nat, j: nat)
  {
    var gs := Sourced(s.spec.groups);
    && i < |gs| && j < |gs[i].files|
    && DistinctStatus(s.status.details, s.ns)
    && exists d :: Knows(s.status.details, s.ns, GroupKey(gs[i], s.ns), gs[i].files[j].path, d)
                   && d.version != gs[i].files[j].version
  }

  /** The entry of file j of group i is being processed, at the version asked for. */
  ghost predicate InProcess(s: State, i: nat, j: nat)
  {
    var gs := Sourced(s.spec.groups);
    && i < |gs| && j < |gs[i].files|
    && i < |s.status.details| && j < |s.status.details[i].files|
    && gs[i].source == Some(s.status.details[i].source)
    && s.status.details[i].files[j].path == gs[i].files[j].path
    && s.status.details[i].files[j].version == gs[i].files[j].version
    && s.status.details[i].files[j].phase == Processing
  }

  lemma {:induction false} StaleIsProcessed(s: State, i: nat, j: nat)
    requires Stale(s, i, j)
    ensures var r := Rebuild(s.spec.groups, s.ns, s.status.details);
            InProcess(s.(status := s.status.(details := r)), i, j)
  {
    var gs, r := Sourced(s.spec.groups), Rebuild(s.spec.groups, s.ns, s.status.details);
    RebuildCarries(s.spec.groups, s.ns, s.status.details);
    RebuildIsShaped(s.spec.groups, s.ns, s.status.details);
    assert CarriesFile(s.status.details, s.ns, GroupKey(gs[i], s.ns), gs[i].files[j], r[i].files[j]);
    assert ShapedGroup(gs[i], r[i]);
  }

  /** The comparison takes the status for current, but there is work: it finds an open entry and works on it. */
  lemma {:induction false} StaleWorks(s: State, env: Env, i: nat, j: nat) returns (k: nat, l: nat)
    requires Seen(s) && Stale(s, i, j) && InSync(s) && Favourable(s, env)
    ensures k < |s.status.details| && l < |s.status.details[k].files| && Open(s.status.details[k].files[l])
    ensures Reconcile(s, env) == Moved(s, k, l, env.fetch)
  {
    StaleIsProcessed(s, i, j);
    assert Rebuild(s.spec.groups, s.ns, s.status.details)[i].files == s.status.details[i].files;
    assert Open(s.status.details[i].files[j]);
    var At(g, f) := FirstOpen(s.status.details, 0);
    k, l := g, f;
    WorkIsDone(s, env);
  }

  lemma {:induction false} StaleStays(s: State, i: nat, j: nat, k: nat, l: nat, fetch: Fetch)
    requires Stale(s, i, j) && k < |s.status.details| && l < |s.status.details[k].files|
    ensures Stale(Moved(s, k, l, fetch), i, j)
  {
    var g := Sourced(s.spec.groups)[i];
    var e := Advance(s.status.details[k].files[l], fetch);
    AdvanceKeepsName(s.status.details[k].files[l], fetch);
    MovedKnows(s.status.details, s.ns, GroupKey(g, s.ns), g.files[j], k, l, e);
    MovedIsDistinct(s.status.details, s.ns, k, l, e);
  }

  lemma {:induction false} AdvanceKeepsName(d: Detail, fetch: Fetch)
    ensures Advance(d, fetch).path == d.path && Advance(d, fetch).version == d.version
  {
  }

  lemma {:induction false} MovedKnows(was: seq<GroupDetail>, ns: string, key: Key, f: FileSpec, k: nat, l: nat, e: Detail)
    requires k < |was| && l < |was[k].files| && e.path == was[k].files[l].path && e.version == was[k].files[l].version
    requires exists d :: Knows(was, ns, key, f.path, d) && d.version != f.version
    ensures exists d :: Knows(SetDetail(was, k, l, e), ns, key, f.path, d) && d.version != f.version
  {
    var r := SetDetail(was, k, l, e);
    var d :| Knows(was, ns, key, f.path, d) && d.version != f.version;
    var a, b :| 0 <= a < |was| && 0 <= b < |was[a].files|
                && KeyOf(was[a].source, ns) == key && was[a].files[b] == d && d.path == f.path;
    MovedKeepsOthers(was, k, l, e, a, b);
    assert Knows(r, ns, key, f.path, r[a].files[b]);
  }

  lemma {:induction false} MovedIsDistinct(was: seq<GroupDetail>, ns: string, k: nat, l: nat, d: Detail)
    requires DistinctStatus(was, ns) && k < |was| && l < |was[k].files| && d.path == was[k].files[l].path
    ensures DistinctStatus(SetDetail(was, k, l, d), ns)
  {
    var r := SetDetail(was, k, l, d);
    forall i, a, b | 0 <= i < |r| && 0 <= a < b < |r[i].files| ensures r[i].files[a].path != r[i].files[b].path {
      assert r[i].files[a].path == was[i].files[a].path && r[i].files[b].path == was[i].files[b].path;
    }
  }

  /** A favourable turn either takes one piece of work off the status ... */
  lemma {:induction false} StaleWorkTurn(s: State, env: Env, i: nat, j: nat)
    requires Seen(s) && Stale(s, i, j) && Favourable(s, env) && InSync(s)
    ensures var t := Reconcile(s, env);
            && t.spec == s.spec && t.ns == s.ns && Seen(t) && Stale(t, i, j)
            && Work(s.status.details) > 0 && Work(t.status.details) == Work(s.status.details) - 1
  {
    var k, l := StaleWorks(s, env, i, j);
    StaleStays(s, i, j, k, l, env.fetch);
    MovedWork(s.status.details, k, l, env.fetch);
  }

  lemma {:induction false} MovedWork(was: seq<GroupDetail>, k: nat, l: nat, fetch: Fetch)
    requires k < |was| && l < |was[k].files| && Open(was[k].files[l]) && fetch != NoSource
    ensures Work(was) > 0 && Work(SetDetail(was, k, l, Advance(was[k].files[l], fetch))) == Work(was) - 1
  {
    NoWork(was);
    WorkUpdate(was, k, l, Advance(was[k].files[l], fetch));
  }

  /** ... or rebuilds it. */
  lemma {:induction false} StaleRebuildTurn(s: State, env: Env, i: nat, j: nat)
    requires Seen(s) && Stale(s, i, j) && Favourable(s, env) && !InSync(s)
    ensures var t := Reconcile(s, env);
            && t == s.(status := s.status.(details := Rebuild(s.spec.groups, s.ns, s.status.details)))
            && Settled(t) && InProcess(t, i, j)
  {
    StaleIsProcessed(s, i, j);
    RebuildIsShaped(s.spec.groups, s.ns, s.status.details);
    OutOfSyncTurn(s, env);
  }

  lemma {:induction false} OutOfSyncTurn(s: State, env: Env)
    requires Seen(s) && env.saved && !InSync(s)
    ensures Reconcile(s, env) == s.(status := s.status.(details := Rebuild(s.spec.groups, s.ns, s.status.details)))
  {
  }

  // The number of turns that suffice

  function Size(details: seq<GroupDetail>): nat
  {
    if details == [] then 0 else Size(details[..|details| - 1]) + |details[|details| - 1].files|
  }

  lemma {:induction false} FileWorkBound(ds: seq<Detail>)
    ensures FileWork(ds) <= 2 * |ds|
  {
    if ds != [] { FileWorkBound(ds[..|ds| - 1]); }
  }

  lemma {:induction false} WorkBound(details: seq<GroupDetail>)
    ensures Work(details) <= 2 * Size(details)
  {
    if details != [] {
      WorkBound(details[..|details| - 1]);
      FileWorkBound(details[|details| - 1].files);
    }
  }

  lemma {:induction false} SameSize(a: seq<GroupDetail>, b: seq<GroupDetail>)
    requires |a| == |b| && forall i :: 0 <= i < |a| ==> |a[i].files| == |b[i].files|
    ensures Size(a) == Size(b)
  {
    if a != [] { SameSize(a[..|a| - 1], b[..|b| - 1]); }
  }

  /** Two turns for each file of the specification. */
  function Enough(spec: Spec, ns: string): nat
  {
    2 * Size(Rebuild(spec.groups, ns, []))
  }

  lemma {:induction false} RebuiltWork(spec: Spec, ns: string, was: seq<GroupDetail>)
    ensures Work(Rebuild(spec.groups, ns, was)) <= Enough(spec, ns)
  {
    WorkBound(Rebuild(spec.groups, ns, was));
    SameSize(Rebuild(spec.groups, ns, was), Rebuild(spec.groups, ns, []));
  }

  /** The status has w pieces of work and knows file j of group i of this specification at another version. */
  ghost predicate StaleAt(s: State, spec: Spec, ns: string, w: nat, i: nat, j: nat)
  {
    Seen(s) && Stale(s, i, j) && s.spec == spec && s.ns == ns && Work(s.status.details) == w
  }

  lemma {:induction false} StaleAtAfter(s: State, env: Env, spec: Spec, ns: string, w: nat, i: nat, j: nat)
    requires StaleAt(s, spec, ns, w, i, j) && Able(spec, env) && env.saved && InSync(s)
    ensures w > 0 && StaleAt(Reconcile(s, env), spec, ns, w - 1, i, j)
  {
    StaleWorkTurn(s, env, i, j);
  }

  /** A known file whose version has changed is checked, also while the comparison takes the status for current. */
  lemma {:induction false} StaleIsChecked(s: State, envs: seq<Env>, spec: Spec, ns: string, w: nat, i: nat, j: nat,
                                          source: Source, f: FileSpec)
    requires StaleAt(s, spec, ns, w, i, j) && AllFavourable(spec, envs) && |envs| > w + Enough(spec, ns)
    requires var g := Sourced(spec.groups)[i]; g.source == Some(source) && g.files[j] == f
    ensures Reaches(s, envs, i, j, source, f)
    decreases |envs|
  {
    if InSync(s) {
      StaleAtAfter(s, envs[0], spec, ns, w, i, j);
      StaleIsChecked(Reconcile(s, envs[0]), envs[1..], spec, ns, w - 1, i, j, source, f);
      ReachesAfter(s, envs, i, j, source, f);
    } else {
      RebuiltIsChecked(s, envs, i, j);
    }
  }

  lemma {:induction false} RebuiltIsChecked(s: State, envs: seq<Env>, i: nat, j: nat)
    requires Seen(s) && Stale(s, i, j) && !InSync(s) && AllFavourable(s.spec, envs)
    requires |envs| > Enough(s.spec, s.ns)
    ensures var g := Sourced(s.spec.groups)[i]; Reaches(s, envs, i, j, g.source.value, g.files[j])
  {
    var g := Sourced(s.spec.groups)[i];
    StaleRebuildTurn(s, envs[0], i, j);
    ProcessedIsChecked(Reconcile(s, envs[0]), envs[1..], i, j, s.status.details);
    ReachesAfter(s, envs, i, j, g.source.value, g.files[j]);
  }

  lemma {:induction false} ProcessedIsChecked(s: State, envs: seq<Env>, i: nat, j: nat, was: seq<GroupDetail>)
    requires Settled(s) && InProcess(s, i, j) && AllFavourable(s.spec, envs) && |envs| >= Enough(s.spec, s.ns)
    requires s.status.details == Rebuild(s.spec.groups, s.ns, was)
    ensures var g := Sourced(s.spec.groups)[i]; Reaches(s, envs, i, j, g.source.value, g.files[j])
  {
    RebuiltWork(s.spec, s.ns, was);
    var g := Sourced(s.spec.groups)[i];
    OpenIsChecked(s, envs, s.spec, Work(s.status.details), i, j, g.source.value, g.files[j]);
  }

  /** The base shows that it is being brought up to date. */
  predicate InProgress(s: State)
  {
    s.status.conditions == [Condition("Ready", Unknown, "Init", "KnowledgeBase - embedding in progress", 0, 0)]
  }

  lemma {:induction false} EditIsSeen(s: State, spec: Spec, env: Env)
    requires s.status.conditions != [] && OnlyReady(s.status.conditions) && s.status.observed <= s.generation
    requires s.annotation == "" && spec != s.spec && DistinctSpec(spec.groups, s.ns) && env.saved
    ensures var t := Reconcile(Apply(s, Edit(spec)), env);
            Seen(t) && t.spec == spec && t.ns == s.ns && t.status.details == s.status.details && InProgress(t)
  {
    SetReadyCondition(s.status.conditions, InitCondition());
  }

  /**
   An edit asks for another version of a file that the status knows. Then, whatever else was edited and whether the
   base was ready before, the store is asked for that file within a number of favourable turns, and what it answers
   decides what the entry comes to.
   */
  lemma {:induction false} NewVersionIsChecked(s: State, spec: Spec, envs: seq<Env>, i: nat, j: nat)
    requires s.status.conditions != [] && OnlyReady(s.status.conditions) && s.status.observed <= s.generation
    requires s.annotation == "" && spec != s.spec && DistinctSpec(spec.groups, s.ns)
    requires Stale(Apply(s, Edit(spec)), i, j) && AllFavourable(spec, envs)
    requires |envs| > 1 + Work(s.status.details) + Enough(spec, s.ns)
    ensures var g := Sourced(spec.groups)[i]; Reaches(Apply(s, Edit(spec)), envs, i, j, g.source.value, g.files[j])
  {
    EditIsSeen(s, spec, envs[0]);
    var g := Sourced(spec.groups)[i];
    StaleIsChecked(Reconcile(Apply(s, Edit(spec)), envs[0]), envs[1..], spec, s.ns, Work(s.status.details), i, j,
                   g.source.value, g.files[j]);
    ReachesAfter(Apply(s, Edit(spec)), envs, i, j, g.source.value, g.files[j]);
  }

  /** A status that was rebuilt once meets the hypotheses on statuses again. */
  lemma {:induction false} ShapedIsDistinct(groups: seq<Group>, ns: string, details: seq<GroupDetail>)
    requires DistinctSpec(groups, ns) && Shaped(Sourced(groups), details)
    ensures DistinctStatus(details, ns)
  {
    var gs := Sourced(groups);
    forall a, b | 0 <= a < b < |details| ensures KeyOf(details[a].source, ns) != KeyOf(details[b].source, ns) {
      assert ShapedGroup(gs[a], details[a]) && ShapedGroup(gs[b], details[b]);
      assert GroupKey(gs[a], ns) != GroupKey(gs[b], ns);
    }
    forall i, a, b | 0 <= i < |details| && 0 <= a < b < |details[i].files|
      ensures details[i].files[a].path != details[i].files[b].path {
      assert ShapedGroup(gs[i], details[i]) && DistinctPaths(gs[i].files);
    }
  }

  // The update annotation

  /** An update is asked for, of a base whose specification has been seen. */
  ghost predicate Annotated(s: State, value: string)
  {
    && s.annotation == value && value != ""
    && s.status.conditions != [] && OnlyReady(s.status.conditions) && s.status.observed == s.generation
  }

  /** Three accepted writes after any annotation but the one for failed files, every file is new again. */
  lemma {:induction false} UpdateStartsOver(s: State, value: string, a: Env, b: Env, c: Env)
    requires Annotated(s, value) && value != "for-failed" && s.status.details != [] && a.saved && b.saved && c.saved
    ensures var s1 := Reconcile(s, a);
            s1.status.details == [] && !ShownReady(s1) && InProgress(s1) && !s1.noted && s1.annotation == value
    ensures var s2 := Turns(s, [a, b]); s2 == Reconcile(s, a).(annotation := "")
    ensures var s3 := Turns(s, [a, b, c]); s3.annotation == "" && Carries(s.spec.groups, s.ns, [], s3.status.details)
  {
    SetReadyCondition(s.status.conditions, InitCondition());
    TurnsOfThree(s, a, b, c);
    IdleAnnotation(Reconcile(s, a), value, b);
    StartsFromNothing(Reconcile(Reconcile(s, a), b), c);
  }

  lemma {:induction false} TurnsOfThree(s: State, a: Env, b: Env, c: Env)
    ensures Turns(s, [a, b]) == Reconcile(Reconcile(s, a), b)
    ensures Turns(s, [a, b, c]) == Reconcile(Reconcile(Reconcile(s, a), b), c)
  {
    assert [a, b, c][1..] == [b, c] && [b, c][1..] == [c] && [c][1..] == [] && [a, b][1..] == [b] && [b][1..] == [];
    assert forall t, e :: Turns(t, [e]) == Reconcile(t, e) by {
      forall t, e ensures Turns(t, [e]) == Reconcile(t, e) { assert [e][1..] == []; }
    }
  }

  lemma {:induction false} StartsFromNothing(s: State, c: Env)
    requires s.status.conditions != [] && s.status.observed == s.generation && s.annotation == "" && s.status.details == []
    requires c.saved
    ensures var t := Reconcile(s, c); t.annotation == "" && Carries(s.spec.groups, s.ns, [], t.status.details)
  {
    var r := Rebuild(s.spec.groups, s.ns, []);
    RebuildCarries(s.spec.groups, s.ns, []);
    if r == [] {
      assert SameFiles(r, []);
      NothingToDo(s, c);
    } else {
      assert !SameFiles(r, []);
    }
  }

  lemma {:induction false} NothingToDo(s: State, env: Env)
    requires s.status.details == []
    ensures ReconcileFiles(s, env).status.details == [] && ReconcileFiles(s, env).annotation == s.annotation
  {
    assert FirstOpen([], 0) == Nowhere;
  }

  /** The entry after a retry: a failed one is processed again, without its message, and every other one stays. */
  predicate Retried(d: Detail, e: Detail)
  {
    if d.phase == Failed then e.phase == Processing && e.errMessage == "" && d == e.(phase := Failed, errMessage := d.errMessage)
    else e == d
  }

  /** The annotation for failed files puts these back and leaves all others; the next turn takes it away. */
  lemma {:induction false} RetryPutsBack(s: State, a: Env, b: Env)
    requires Annotated(s, "for-failed") && HasPhase(s.status.details, Failed) && a.saved && b.saved
    ensures var t := Reconcile(s, a);
            && |t.status.details| == |s.status.details| && !ShownReady(t) && InProgress(t) && !t.noted
            && (forall i :: 0 <= i < |t.status.details| ==>
                  t.status.details[i].source == s.status.details[i].source
                  && |t.status.details[i].files| == |s.status.details[i].files|)
            && (forall i, j :: 0 <= i < |t.status.details| && 0 <= j < |t.status.details[i].files| ==>
                  Retried(s.status.details[i].files[j], t.status.details[i].files[j]))
    ensures Turns(s, [a, b]) == Reconcile(s, a).(annotation := "")
  {
    SetReadyCondition(s.status.conditions, InitCondition());
    var t := Reconcile(s, a);
    assert t.status.details == Retry(s.status.details);
    assert !HasPhase(t.status.details, Failed);
    TurnsOfThree(s, a, b, b);
    IdleAnnotation(t, "for-failed", b);
  }

  /** The first turn of a new base shows that it is pending, and does nothing else. */
  lemma {:induction false} NewBaseIsPending(s: State, env: Env)
    requires s.status.conditions == [] && env.saved
    ensures Reconcile(s, env) == s.(noted := false,
              status := s.status.(conditions := [Condition("Ready", False, "Pending", "", 0, 0)]))
  {
  }

  /** A status that differs is written exactly if the write is accepted and it does not hide a noted readiness. */
  lemma {:induction false} WrittenIff(s: State, status: Status, saved: bool)
    requires status != s.status
    ensures Patch(s, status, saved) == s || Patch(s, status, saved) == s.(status := status)
    ensures Patch(s, status, saved) != s <==> saved && (s.noted ==> GetCondition(status.conditions, "Ready").status == True)
  {
  }

  /** Without failed files, or without files, an annotation is only taken away. */
  lemma {:induction false} IdleAnnotation(s: State, value: string, env: Env)
    requires Annotated(s, value) && env.saved
    requires if value == "for-failed" then !HasPhase(s.status.details, Failed) else s.status.details == []
    ensures Reconcile(s, env) == s.(annotation := "")
  {
  }
}
