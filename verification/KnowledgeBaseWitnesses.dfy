/** Runs of the reconciler in which it errs, from a new knowledge base with one file. */
module KnowledgeBaseWitnesses {
  import opened Options
  import opened FilePhases
  import opened Conditions
  import opened KnowledgeBase
  import opened KnowledgeBaseRuns
  import opened KnowledgeBaseProgress
  import opened KnowledgeBaseEmbedding

  const SOURCE := Source("Datasource", None, "d")
  const FILE := FileSpec("a", "")
  const SPEC := Spec(true, true, [Group(Some(SOURCE), [FILE])])

  /** The store answers, but not for the tags of the file. */
  const NO_TAGS := Turn(Env(Available, Available, Stat("e", TagsFailed("no tags")), true))

  /** The knowledge base with its one file. */
  function One(d: Detail, c: Condition, annotation: string): State
  {
    State("ns", 1, SPEC, annotation, Status(1, [GroupDetail(SOURCE, [d])], [c]), false)
  }

  function Empty(observed: int, conditions: seq<Condition>): State
  {
    State("ns", 1, SPEC, "", Status(observed, [], conditions), false)
  }

  function FileWith(phase: FilePhase, checksum: string, message: string): Detail
  {
    Detail("a", "", "", "", checksum, 0, phase, message, "")
  }

  lemma {:induction false} SpecIsDistinct()
    ensures Sourced(SPEC.groups) == SPEC.groups && DistinctSpec(SPEC.groups, "ns")
  {
    assert SPEC.groups[..0] == [];
  }

  lemma {:induction false} InitIsNotReady()
    ensures OnlyReady([InitCondition()]) && !IsReady([InitCondition()])
  {
  }

  lemma {:induction false} OneIsShaped(d: Detail)
    requires d.path == "a" && d.version == ""
    ensures Shaped(Sourced(SPEC.groups), [GroupDetail(SOURCE, [d])])
    ensures Rebuild(SPEC.groups, "ns", [GroupDetail(SOURCE, [d])]) == [GroupDetail(SOURCE, [d])]
  {
    SpecIsDistinct();
    assert ShapedGroup(SPEC.groups[0], GroupDetail(SOURCE, [d]));
    ShapedIsFixed(SPEC.groups, "ns", [GroupDetail(SOURCE, [d])]);
  }

  lemma {:induction false} FromNothing()
    ensures Rebuild(SPEC.groups, "ns", []) == [GroupDetail(SOURCE, [FileWith(Pending, "", "")])]
  {
    SpecIsDistinct();
    assert Entries([FILE], [], "ns", GroupKey(SPEC.groups[0], "ns")) == [NewDetail(FILE)];
  }

  /** The run leads to a state with nothing embedded. */
  ghost predicate Leads(run: seq<Event>, s: State)
  {
    var v := AfterWorld(World(Empty(0, []), {}, {}), run);
    v.state == s && v.embedded == {}
  }

  lemma {:induction false} LeadsOn(run: seq<Event>, s: State, e: Event, t: State)
    requires Leads(run, s) && Apply(s, e) == t && (e.Turn? ==> EmbeddedBy(s, e.env) == {})
    ensures Leads(run + [e], t)
  {
    assert (run + [e])[..|run|] == run;
  }

  lemma {:induction false} Starts()
    ensures Leads([NO_TAGS, NO_TAGS, NO_TAGS], One(FileWith(Pending, "", ""), InitCondition(), ""))
  {
    var c := PendingCondition("");
    assert Leads([], Empty(0, []));
    LeadsOn([], Empty(0, []), NO_TAGS, Empty(0, [c]));
    SetReadyCondition([c], InitCondition());
    LeadsOn([] + [NO_TAGS], Empty(0, [c]), NO_TAGS, Empty(1, [InitCondition()]));
    FromNothing();
    LeadsOn([] + [NO_TAGS] + [NO_TAGS], Empty(1, [InitCondition()]), NO_TAGS, One(FileWith(Pending, "", ""), InitCondition(), ""));
    assert [] + [NO_TAGS] + [NO_TAGS] + [NO_TAGS] == [NO_TAGS, NO_TAGS, NO_TAGS];
  }

  /** A turn with all dependencies and an accepted write that embeds nothing into d. */
  predicate WorksWithoutEmbedding(d: Detail, env: Env)
  {
    env.embedder == Available && env.vectorStore == Available && env.saved && NewContents(SOURCE, d, "ns", env.fetch) == {}
  }

  lemma {:induction false} WorksOnOne(d: Detail, env: Env)
    requires Open(d) && d.path == "a" && d.version == "" && WorksWithoutEmbedding(d, env)
    ensures WorkPlace(One(d, InitCondition(), ""), env) == Place.At(0, 0)
  {
    OneIsShaped(d);
    InitIsNotReady();
    assert FirstOpenFile([d], 0) == 0;
  }

  lemma {:induction false} AdvancesOne(d: Detail, env: Env)
    requires Open(d) && d.path == "a" && d.version == "" && WorksWithoutEmbedding(d, env)
    ensures var s := One(d, InitCondition(), "");
            Reconcile(s, env) == One(Advance(d, env.fetch), InitCondition(), "") && EmbeddedBy(s, env) == {}
  {
    var s := One(d, InitCondition(), "");
    WorksOnOne(d, env);
    WorkIsDone(s, env);
    var e := Advance(d, env.fetch);
    assert [d][0 := e] == [e];
    assert SetDetail(s.status.details, 0, 0, e) == [GroupDetail(SOURCE, [e])];
  }

  lemma {:induction false} Advances(run: seq<Event>, d: Detail, env: Env)
    requires Leads(run, One(d, InitCondition(), "")) && Open(d) && d.path == "a" && d.version == ""
    requires WorksWithoutEmbedding(d, env)
    ensures Leads(run + [Turn(env)], One(Advance(d, env.fetch), InitCondition(), ""))
  {
    AdvancesOne(d, env);
    LeadsOn(run, One(d, InitCondition(), ""), Turn(env), One(Advance(d, env.fetch), InitCondition(), ""));
  }

  lemma {:induction false} Annotates(run: seq<Event>, d: Detail)
    requires Leads(run, One(d, InitCondition(), ""))
    ensures Leads(run + [Annotate(RETRY_FOR_FAILED)], One(d, InitCondition(), RETRY_FOR_FAILED))
  {
    LeadsOn(run, One(d, InitCondition(), ""), Annotate(RETRY_FOR_FAILED), One(d, InitCondition(), RETRY_FOR_FAILED));
  }

  lemma {:induction false} Retries(run: seq<Event>, d: Detail)
    requires Leads(run, One(d, InitCondition(), RETRY_FOR_FAILED)) && d.phase == Failed
    ensures Leads(run + [NO_TAGS] + [NO_TAGS], One(RetryDetail(d), InitCondition(), ""))
  {
    var s2 := One(RetryDetail(d), InitCondition(), RETRY_FOR_FAILED);
    PutsBack(d);
    LeadsOn(run, One(d, InitCondition(), RETRY_FOR_FAILED), NO_TAGS, s2);
    LeadsOn(run + [NO_TAGS], s2, NO_TAGS, One(RetryDetail(d), InitCondition(), ""));
  }

  /** One turn puts the failed file back, the next one takes the annotation away. */
  lemma {:induction false} PutsBack(d: Detail)
    requires d.phase == Failed
    ensures var s1 := One(d, InitCondition(), RETRY_FOR_FAILED);
            var s2 := One(RetryDetail(d), InitCondition(), RETRY_FOR_FAILED);
            Reconcile(s1, NO_TAGS.env) == s2
            && Reconcile(s2, NO_TAGS.env) == One(RetryDetail(d), InitCondition(), "")
  {
    var s1 := One(d, InitCondition(), RETRY_FOR_FAILED);
    var s2 := One(RetryDetail(d), InitCondition(), RETRY_FOR_FAILED);
    assert s1.status.details[0].files[0].phase == Failed;
    SetReadyCondition([InitCondition()], InitCondition());
    assert RetryFiles([d]) == [RetryDetail(d)];
    assert Retry(s1.status.details) == s2.status.details;
    assert !HasPhase(s2.status.details, Failed);
    assert RETRY_FOR_FAILED != "";
  }

  /** The tags of the file cannot be read, not even after the failed file was put back by hand. */
  const FAILING := [NO_TAGS, NO_TAGS, NO_TAGS] + [NO_TAGS] + [NO_TAGS]
  const RETRYING := FAILING + [Annotate(RETRY_FOR_FAILED)] + [NO_TAGS] + [NO_TAGS] + [NO_TAGS]

  /** From a new knowledge base this run leads to a file that succeeded, while nothing was embedded at all. */
  lemma {:induction false} RetriedWithoutEmbedding()
    ensures Initial(Empty(0, []))
    ensures var v := AfterWorld(World(Empty(0, []), {}, {}), RETRYING);
            v.state.status.details == [GroupDetail(SOURCE, [FileWith(Succeeded, "e", "")])] && v.embedded == {}
  {
    Processes();
    Advances([NO_TAGS, NO_TAGS, NO_TAGS] + [NO_TAGS], FileWith(Processing, "", ""), NO_TAGS.env);
    Annotates(FAILING, FileWith(Failed, "e", "no tags"));
    Retries(FAILING + [Annotate(RETRY_FOR_FAILED)], FileWith(Failed, "e", "no tags"));
    Advances(FAILING + [Annotate(RETRY_FOR_FAILED)] + [NO_TAGS] + [NO_TAGS], FileWith(Processing, "e", ""), NO_TAGS.env);
  }

  // A run after which readiness is not shown

  const SKIP := Stat("e", Tags("1", "1", Read(HandlingSkipped("not supported"))))
  const SKIPPING := Env(Available, Available, SKIP, true)
  const REFUSED := Env(Available, Available, SKIP, false)

  function SkippedFile(): Detail
  {
    Detail("a", "1", "1", "1", "e", 0, Skipped, "not supported", "")
  }

  /** The file is skipped, and the write that is to show readiness is refused. */
  const REFUSING := [NO_TAGS, NO_TAGS, NO_TAGS] + [NO_TAGS] + [Turn(SKIPPING)] + [Turn(REFUSED)]

  lemma {:induction false} SkippedIsCurrent()
    ensures Current(One(SkippedFile(), InitCondition(), ""))
  {
    InitIsNotReady();
    SpecIsDistinct();
    OneIsShaped(SkippedFile());
  }

  lemma {:induction false} SkippedIsDone()
    ensures Work([GroupDetail(SOURCE, [SkippedFile()])]) == 0
    ensures !HasPhase([GroupDetail(SOURCE, [SkippedFile()])], Failed)
  {
    assert FileWork([SkippedFile()]) == 0;
  }

  lemma {:induction false} Processes()
    ensures Leads([NO_TAGS, NO_TAGS, NO_TAGS] + [NO_TAGS], One(FileWith(Processing, "", ""), InitCondition(), ""))
  {
    Starts();
    Advances([NO_TAGS, NO_TAGS, NO_TAGS], FileWith(Pending, "", ""), NO_TAGS.env);
  }

  lemma {:induction false} SkipsFile()
    ensures Advance(FileWith(Processing, "", ""), SKIP) == SkippedFile()
    ensures WorksWithoutEmbedding(FileWith(Processing, "", ""), SKIPPING)
  {
  }

  /** The run up to the refused write, and the write itself. */
  lemma {:induction false} Refuses()
    ensures Leads(REFUSING, One(SkippedFile(), InitCondition(), "").(noted := true))
  {
    Processes();
    SkipsFile();
    Advances([NO_TAGS, NO_TAGS, NO_TAGS] + [NO_TAGS], FileWith(Processing, "", ""), SKIPPING);
    LeadsToNote([NO_TAGS, NO_TAGS, NO_TAGS] + [NO_TAGS] + [Turn(SKIPPING)], One(SkippedFile(), InitCondition(), ""));
  }

  lemma {:induction false} LeadsToNote(run: seq<Event>, s: State)
    requires Leads(run, s) && s == One(SkippedFile(), InitCondition(), "")
    ensures Leads(run + [Turn(REFUSED)], s.(noted := true))
  {
    SkippedIsCurrent();
    SkippedIsDone();
    RefusedAnnouncement(s, REFUSED);
    NoNewContents(s, REFUSED);
    LeadsOn(run, s, Turn(REFUSED), s.(noted := true));
  }

  lemma {:induction false} NoNewContents(s: State, env: Env)
    requires forall i, j :: 0 <= i < |s.status.details| && 0 <= j < |s.status.details[i].files| ==>
               s.status.details[i].files[j].phase != Processing
    ensures EmbeddedBy(s, env) == {}
  {
  }

  /** From a new knowledge base this run leads to one without work or failures that no favourable turn shows ready. */
  lemma {:induction false} ReadinessCanBeLost(envs: seq<Env>)
    requires AllAble(SPEC, envs)
    ensures Initial(Empty(0, []))
    ensures var v := AfterWorld(World(Empty(0, []), {}, {}), REFUSING).state;
            v.spec == SPEC && Announceable(v) && v.noted && !ShownReady(Turns(v, envs))
  {
    Refuses();
    SkippedIsCurrent();
    SkippedIsDone();
    NotedForGood(One(SkippedFile(), InitCondition(), "").(noted := true), envs);
  }
}
