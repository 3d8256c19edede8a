/** What one file comes to in one turn, and what a shown readiness says of every file. */
module KnowledgeBaseOutcomes {
  import opened Options
  import opened FilePhases
  import opened Conditions
  import opened KnowledgeBase
  import opened KnowledgeBaseRuns
  import opened KnowledgeBaseEmbedding

  // The answers of the store and of the handling for a file with this checksum on record

  predicate FailsWith(fetch: Fetch, checksum: string, msg: string)
  {
    || fetch == StatFailed(msg)
    || (&& fetch.Stat? && fetch.etag != checksum
        && (|| fetch.tags == TagsFailed(msg)
            || (&& fetch.tags.Tags?
                && (fetch.tags.reading == ReadFailed(msg) || fetch.tags.reading == Read(HandlingFailed(msg))))))
  }

  predicate SkipsWith(fetch: Fetch, checksum: string, msg: string)
  {
    fetch.Stat? && fetch.etag != checksum && fetch.tags.Tags? && fetch.tags.reading == Read(HandlingSkipped(msg))
  }

  predicate EmbedsIn(fetch: Fetch, checksum: string, cost: int)
  {
    fetch.Stat? && fetch.etag != checksum && fetch.tags.Tags? && fetch.tags.reading == Read(Embedded(cost))
  }

  /** e is what the entry d, which was being processed, comes to. */
  ghost predicate Settles(d: Detail, fetch: Fetch, e: Detail)
  {
    && (e.phase == Failed <==> exists msg :: FailsWith(fetch, d.checksum, msg))
    && (e.phase == Skipped <==> exists msg :: SkipsWith(fetch, d.checksum, msg))
    && (e.phase == Succeeded <==> (fetch.Stat? && fetch.etag == d.checksum) || exists n :: EmbedsIn(fetch, d.checksum, n))
    && (e.phase == Processing <==> fetch == NoSource)
    && (forall msg :: FailsWith(fetch, d.checksum, msg) || SkipsWith(fetch, d.checksum, msg) ==> e.errMessage == msg)
    && (forall n :: EmbedsIn(fetch, d.checksum, n) ==> e.errMessage == "" && e.timeCost == n)
    && (fetch == NoSource || (fetch.Stat? && fetch.etag == d.checksum) ==> e == d.(phase := e.phase))
    && e.checksum == (if fetch.Stat? then fetch.etag else d.checksum)
    && e.path == d.path && e.version == d.version
    && (forall count, size :: ReadsTags(fetch, d.checksum, count, size) ==>
          e.count == count && e.size == size && e.ftype == count)
    && ((forall count, size :: !ReadsTags(fetch, d.checksum, count, size)) ==>
          e.count == d.count && e.size == d.size && e.ftype == d.ftype)
  }

  predicate ReadsTags(fetch: Fetch, checksum: string, count: string, size: string)
  {
    fetch.Stat? && fetch.etag != checksum && fetch.tags.Tags? && fetch.tags.count == count && fetch.tags.size == size
  }

  /** The turn handles the entry that was first in line and no other, and tells all outcomes apart. */
  lemma {:induction false} TurnSettles(s: State, env: Env, i: nat, j: nat)
    requires WorkPlace(s, env) == Place.At(i, j) && env.saved && s.status.details[i].files[j].phase == Processing
    ensures var t := Reconcile(s, env);
            && |t.status.details| == |s.status.details| && |t.status.details[i].files| == |s.status.details[i].files|
            && var e := t.status.details[i].files[j];
               Settles(s.status.details[i].files[j], env.fetch, e)
               && t == s.(status := s.status.(details := SetDetail(s.status.details, i, j, e)))
  {
    WorkIsDone(s, env);
    SettlesByCase(s.status.details[i].files[j], env.fetch);
  }

  lemma {:induction false} SettlesByCase(d: Detail, fetch: Fetch)
    requires d.phase == Processing
    ensures Settles(d, fetch, Advance(d, fetch))
  {
    var e := Advance(d, fetch);
    if fetch.Stat? && fetch.tags.Tags? && fetch.etag != d.checksum {
      assert ReadsTags(fetch, d.checksum, fetch.tags.count, fetch.tags.size);
    }
    if fetch.StatFailed? {
      assert FailsWith(fetch, d.checksum, fetch.msg);
    } else if fetch.Stat? && fetch.etag != d.checksum {
      if fetch.tags.TagsFailed? {
        assert FailsWith(fetch, d.checksum, fetch.tags.msg);
      } else if fetch.tags.reading.ReadFailed? {
        assert FailsWith(fetch, d.checksum, fetch.tags.reading.msg);
      } else {
        match fetch.tags.reading.handling
        case HandlingFailed(msg) => assert FailsWith(fetch, d.checksum, msg);
        case HandlingSkipped(msg) => assert SkipsWith(fetch, d.checksum, msg);
        case Embedded(cost) => assert EmbedsIn(fetch, d.checksum, cost);
      }
    }
  }

  /** A pending entry only becomes one being processed; nothing of the store's answers shows. */
  lemma {:induction false} TurnTakesUp(s: State, env: Env, i: nat, j: nat)
    requires WorkPlace(s, env) == Place.At(i, j) && env.saved && s.status.details[i].files[j].phase == Pending
    ensures var d := s.status.details[i].files[j];
            Reconcile(s, env) == s.(status := s.status.(details :=
              SetDetail(s.status.details, i, j, d.(phase := Processing))))
  {
    WorkIsDone(s, env);
  }

  // Skipped files over runs

  /** The content that this turn reports as skipped. */
  ghost function SkippedBy(s: State, env: Env): set<Content>
  {
    match WorkPlace(s, env)
    case Nowhere => {}
    case At(i, j) =>
      var d := s.status.details[i].files[j];
      if d.phase == Processing && exists msg :: SkipsWith(env.fetch, d.checksum, msg)
      then {Content(KeyOf(s.status.details[i].source, s.ns), d.path, env.fetch.etag)} else {}
  }

  ghost function SkippedIn(w: World, run: seq<Event>): set<Content>
  {
    if run == [] then {}
    else
      var before, e := run[..|run| - 1], run[|run| - 1];
      SkippedIn(w, before) + ToldBy(AfterWorld(w, before).state, e)
  }

  ghost function ToldBy(s: State, e: Event): set<Content>
  {
    if e.Turn? then SkippedBy(s, e.env) else {}
  }

  predicate Told(source: Source, d: Detail, ns: string, skipped: set<Content>)
  {
    d.phase == Skipped ==> ContentOf(source, d, ns) in skipped
  }

  predicate AllTold(details: seq<GroupDetail>, ns: string, skipped: set<Content>)
  {
    forall i, j :: 0 <= i < |details| && 0 <= j < |details[i].files| ==>
      Told(details[i].source, details[i].files[j], ns, skipped)
  }

  lemma {:induction false} MoreTold(details: seq<GroupDetail>, ns: string, a: set<Content>, b: set<Content>)
    requires AllTold(details, ns, a) && a <= b
    ensures AllTold(details, ns, b)
  {
    forall i, j | 0 <= i < |details| && 0 <= j < |details[i].files|
      ensures Told(details[i].source, details[i].files[j], ns, b) {
      assert Told(details[i].source, details[i].files[j], ns, a);
    }
  }

  lemma {:induction false} RetryTold(details: seq<GroupDetail>, ns: string, skipped: set<Content>)
    requires AllTold(details, ns, skipped)
    ensures AllTold(Retry(details), ns, skipped)
  {
    forall i, j | 0 <= i < |details| && 0 <= j < |details[i].files|
      ensures Told(details[i].source, RetryDetail(details[i].files[j]), ns, skipped) {
      assert Told(details[i].source, details[i].files[j], ns, skipped);
    }
  }

  lemma {:induction false} RebuildTold(groups: seq<Group>, ns: string, was: seq<GroupDetail>, skipped: set<Content>)
    requires AllTold(was, ns, skipped)
    ensures AllTold(Rebuild(groups, ns, was), ns, skipped)
  {
    var gs, r := Sourced(groups), Rebuild(groups, ns, was);
    forall i, j | 0 <= i < |r| && 0 <= j < |r[i].files| ensures Told(r[i].source, r[i].files[j], ns, skipped) {
      EntryTold(gs[i], gs[i].files[j], ns, was, skipped);
    }
  }

  lemma {:induction false} EntryTold(g: Group, f: FileSpec, ns: string, was: seq<GroupDetail>, skipped: set<Content>)
    requires AllTold(was, ns, skipped) && g.source.Some?
    ensures Told(g.source.value, Entry(f, Find(was, ns, GroupKey(g, ns), f.path)), ns, skipped)
  {
    var found := Find(was, ns, GroupKey(g, ns), f.path);
    if found.Some? {
      var d := found.value;
      var h :| h in was && KeyOf(h.source, ns) == GroupKey(g, ns) && d in h.files && d.path == f.path;
      var k :| 0 <= k < |was| && was[k] == h;
      var l :| 0 <= l < |was[k].files| && was[k].files[l] == d;
      assert Told(was[k].source, was[k].files[l], ns, skipped);
    }
  }

  lemma {:induction false} SetDetailTold(details: seq<GroupDetail>, ns: string, i: nat, j: nat, d: Detail,
                                         skipped: set<Content>)
    requires i < |details| && j < |details[i].files|
    requires AllTold(details, ns, skipped) && Told(details[i].source, d, ns, skipped)
    ensures AllTold(SetDetail(details, i, j, d), ns, skipped)
  {
    var t := SetDetail(details, i, j, d);
    forall k, l | 0 <= k < |t| && 0 <= l < |t[k].files| ensures Told(t[k].source, t[k].files[l], ns, skipped) {
      if k != i || l != j { assert Told(details[k].source, details[k].files[l], ns, skipped); }
    }
  }

  lemma {:induction false} WorkTold(s: State, env: Env, skipped: set<Content>, t: seq<GroupDetail>)
    requires AllTold(s.status.details, s.ns, skipped) && Worked(s, env, t)
    ensures AllTold(t, s.ns, skipped + SkippedBy(s, env))
  {
    var At(i, j) := WorkPlace(s, env);
    var d := s.status.details[i].files[j];
    if d.phase == Processing { SettlesByCase(d, env.fetch); }
    MoreTold(s.status.details, s.ns, skipped, skipped + SkippedBy(s, env));
    SetDetailTold(s.status.details, s.ns, i, j, Advance(d, env.fetch), skipped + SkippedBy(s, env));
  }

  lemma {:induction false} TurnTold(s: State, env: Env, skipped: set<Content>)
    requires AllTold(s.status.details, s.ns, skipped)
    ensures AllTold(Reconcile(s, env).status.details, s.ns, skipped + SkippedBy(s, env))
    ensures Reconcile(s, env).ns == s.ns
  {
    var t, all := Reconcile(s, env).status.details, skipped + SkippedBy(s, env);
    TurnCases(s, env);
    MoreTold(s.status.details, s.ns, skipped, all);
    RetryTold(s.status.details, s.ns, all);
    RebuildTold(s.spec.groups, s.ns, s.status.details, all);
    if Worked(s, env, t) { WorkTold(s, env, skipped, t); }
  }

  lemma {:induction false} EventTold(s: State, e: Event, skipped: set<Content>)
    requires AllTold(s.status.details, s.ns, skipped)
    ensures AllTold(Apply(s, e).status.details, Apply(s, e).ns, skipped + ToldBy(s, e))
  {
    if e.Turn? { TurnTold(s, e.env, skipped); } else { OthersTell(s, e, skipped); }
  }

  lemma {:induction false} OthersTell(s: State, e: Event, skipped: set<Content>)
    requires AllTold(s.status.details, s.ns, skipped) && !e.Turn?
    ensures AllTold(Apply(s, e).status.details, Apply(s, e).ns, skipped + ToldBy(s, e))
  {
    assert skipped + {} == skipped;
    assert Apply(s, e).status.details == s.status.details;
  }

  /** In every run a skipped file was reported skipped, with the checksum on record. */
  lemma {:induction false} SkipsAreTold(w: World, run: seq<Event>)
    requires Initial(w.state)
    ensures AllTold(AfterWorld(w, run).state.status.details, AfterWorld(w, run).state.ns, SkippedIn(w, run))
  {
    if run != [] {
      SkipsAreTold(w, run[..|run| - 1]);
      EventTold(AfterWorld(w, run[..|run| - 1]).state, run[|run| - 1], SkippedIn(w, run[..|run| - 1]));
    }
  }

  lemma {:induction false} WorldIsRun(w: World, run: seq<Event>)
    ensures AfterWorld(w, run).state == After(w.state, run)
  {
    if run != [] { WorldIsRun(w, run[..|run| - 1]); }
  }

  // Readiness

  /** The file has an entry that stands for a content embedded, put back, or reported skipped. */
  ghost predicate Justified(v: World, skipped: set<Content>, key: Key, f: FileSpec)
  {
    exists i, j :: 0 <= i < |v.state.status.details| && 0 <= j < |v.state.status.details[i].files|
                   && JustifiedBy(v, skipped, key, f, v.state.status.details[i].source, v.state.status.details[i].files[j])
  }

  ghost predicate JustifiedBy(v: World, skipped: set<Content>, key: Key, f: FileSpec, source: Source, d: Detail)
  {
    && KeyOf(source, v.state.ns) == key && d.path == f.path && d.version == f.version
    && if d.phase == Succeeded then d.checksum != "" ==> ContentOf(source, d, v.state.ns) in v.embedded + v.requeued
       else d.phase == Skipped && ContentOf(source, d, v.state.ns) in skipped
  }

  /**
   In every run, and whatever was edited, retried or refused: when the base is shown ready, every file asked for is at
   the version asked for and was embedded, put back by hand after a failure, or reported skipped.
   */
  lemma {:induction false} ReadyMeansJustified(w: World, run: seq<Event>, g: Group, f: FileSpec)
    requires Initial(w.state) && ShownReady(AfterWorld(w, run).state)
    requires g in AfterWorld(w, run).state.spec.groups && g.source.Some? && f in g.files
    ensures var v := AfterWorld(w, run); Justified(v, SkippedIn(w, run), GroupKey(g, v.state.ns), f)
  {
    var v := AfterWorld(w, run);
    WorldIsRun(w, run);
    ReadyMeansCovered(w.state, run);
    assert HasDoneEntry(v.state, GroupKey(g, v.state.ns), f);
    var gd, d :| gd in v.state.status.details && KeyOf(gd.source, v.state.ns) == GroupKey(g, v.state.ns) && d in gd.files
                 && d.path == f.path && d.version == f.version && Done(d);
    var i :| 0 <= i < |v.state.status.details| && v.state.status.details[i] == gd;
    var j :| 0 <= j < |gd.files| && gd.files[j] == d;
    SuccessWasEmbedded(w, run, i, j);
    SkipsAreTold(w, run);
    assert Told(gd.source, gd.files[j], v.state.ns, SkippedIn(w, run));
    assert JustifiedBy(v, SkippedIn(w, run), GroupKey(g, v.state.ns), f, gd.source, gd.files[j]);
  }

  // Without dependencies

  predicate Provided(spec: Spec, env: Env)
  {
    && spec.hasEmbedder && spec.hasVectorStore && spec.groups != []
    && env.embedder == Available && env.vectorStore == Available
  }

  lemma {:induction false} ProvidedIff(spec: Spec, env: Env)
    ensures Problem(spec, env) == None <==> Provided(spec, env)
  {
  }

  /** Without embedder, vector store or files no file is worked on: the store is not asked and nothing is embedded. */
  lemma {:induction false} NoWorkUnprovided(s: State, env: Env, fetch: Fetch)
    requires !Provided(s.spec, env)
    ensures Reconcile(s, env.(fetch := fetch)) == Reconcile(s, env)
    ensures EmbeddedBy(s, env) == {} && SkippedBy(s, env) == {}
  {
    ProvidedIff(s.spec, env);
    ProvidedIff(s.spec, env.(fetch := fetch));
    assert Problem(s.spec, env.(fetch := fetch)) == Problem(s.spec, env);
  }

  /** Something is not set, or the first thing that is not available is not there at all. */
  predicate IsMissing(spec: Spec, env: Env)
  {
    || !spec.hasEmbedder || !spec.hasVectorStore || spec.groups == []
    || env.embedder == Missing || (env.embedder == Available && env.vectorStore == Missing)
  }

  function Complaint(spec: Spec, env: Env): string
  {
    if !spec.hasEmbedder || !spec.hasVectorStore || spec.groups == []
    then "embedder or vectorstore or filegroups is not setting"
    else if env.embedder == Missing then "embedder is not found"
    else if env.embedder.Unreadable? then env.embedder.msg
    else if env.embedder == NotReady then "embedder is not ready"
    else if env.vectorStore == Missing then "vectorStore is not found"
    else if env.vectorStore.Unreadable? then env.vectorStore.msg
    else "vectorstore is not ready"
  }

  /**
   The base shows it, even if it was ready before: pending if something is missing, an error if something cannot be
   read or is not ready. The entries stay as they are.
   */
  lemma {:induction false} ShowsUnprovided(s: State, env: Env)
    requires s.status.conditions != [] && OnlyReady(s.status.conditions) && s.status.observed == s.generation
    requires s.annotation == "" && InSync(s) && !Provided(s.spec, env) && env.saved
    ensures var t := Reconcile(s, env);
            && t.status.details == s.status.details && !ShownReady(t) && !t.noted && |t.status.conditions| == 1
            && t.status.conditions[0].status == False
            && t.status.conditions[0].reason == (if IsMissing(s.spec, env) then "Pending" else "Error")
            && t.status.conditions[0].message == Complaint(s.spec, env)
  {
    ProvidedIff(s.spec, env);
    var c := Problem(s.spec, env).value;
    SetReadyCondition(s.status.conditions, c);
    assert Reconcile(s, env) == Conclude(s, s.status, c, env.saved);
  }
}
