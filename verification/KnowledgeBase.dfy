/**
 The knowledge base reconciler as a state machine. The file details in the status are rebuilt from the
 specification by Rebuild; every reconcile then takes one small step and writes the status back.
 */
module KnowledgeBase {
  import opened Options
  import opened FilePhases
  import opened Conditions

  datatype Source = Source(kind: string, namespace: Option<string>, name: string)
  datatype FileSpec = FileSpec(path: string, version: string)
  datatype Group = Group(source: Option<Source>, files: seq<FileSpec>)

  datatype Detail = Detail(path: string, ftype: string, count: string, size: string, checksum: string,
                           timeCost: int, phase: FilePhase, errMessage: string, version: string)
  datatype GroupDetail = GroupDetail(source: Source, files: seq<Detail>)

  /** A source is identified by kind, namespace and name; the namespace defaults to that of the knowledge base. */
  datatype Key = Key(kind: string, namespace: string, name: string)

  function KeyOf(s: Source, ns: string): Key
  {
    Key(s.kind, if s.namespace.Some? then s.namespace.value else ns, s.name)
  }

  // ----- syncStatus

  function NewDetail(f: FileSpec): Detail
  {
    Detail(f.path, "", "", "", "", 0, Pending, "", f.version)
  }

  /** An old entry is carried over; if the version changed it is processed again. */
  function CarryOver(version: string, d: Detail): Detail
  {
    if d.version != version then d.(version := version, phase := Processing) else d
  }

  /** The groups that name a source; the others are ignored. */
  function Sourced(groups: seq<Group>): (r: seq<Group>)
    ensures forall g :: g in r <==> g in groups && g.source.Some?
  {
    if groups == [] then []
    else Sourced(groups[..|groups| - 1]) + if groups[|groups| - 1].source.Some? then [groups[|groups| - 1]] else []
  }

  function GroupKey(g: Group, ns: string): Key
    requires g.source.Some?
  {
    KeyOf(g.source.value, ns)
  }

  ghost predicate DistinctPaths(fs: seq<FileSpec>)
  {
    forall i, j :: 0 <= i < j < |fs| ==> fs[i].path != fs[j].path
  }

  /** All sourced groups have different sources and no group names a path twice. */
  ghost predicate DistinctSpec(groups: seq<Group>, ns: string)
  {
    var gs := Sourced(groups);
    && (forall i, j :: 0 <= i < j < |gs| ==> GroupKey(gs[i], ns) != GroupKey(gs[j], ns))
    && (forall i :: 0 <= i < |gs| ==> DistinctPaths(gs[i].files))
  }

  /** The last entry with this path. */
  function FindFile(ds: seq<Detail>, path: string): (r: Option<Detail>)
    ensures r.Some? ==> r.value in ds && r.value.path == path
  {
    if ds == [] then None
    else if ds[|ds| - 1].path == path then Some(ds[|ds| - 1])
    else FindFile(ds[..|ds| - 1], path)
  }

  /** The last entry with this path in a group with this source. */
  function Find(details: seq<GroupDetail>, ns: string, key: Key, path: string): (r: Option<Detail>)
    ensures r.Some? ==> exists g :: g in details && KeyOf(g.source, ns) == key && r.value in g.files && r.value.path == path
  {
    if details == [] then None
    else
      var g := details[|details| - 1];
      if KeyOf(g.source, ns) == key && FindFile(g.files, path).Some? then FindFile(g.files, path)
      else Find(details[..|details| - 1], ns, key, path)
  }

  /** The entry of a file: new, or carried over from the old entry with the same source and path. */
  function Entry(f: FileSpec, known: Option<Detail>): Detail
  {
    match known
    case None => NewDetail(f)
    case Some(d) => CarryOver(f.version, d)
  }

  function Entries(fs: seq<FileSpec>, was: seq<GroupDetail>, ns: string, key: Key): seq<Detail>
  {
    seq(|fs|, i requires 0 <= i < |fs| => Entry(fs[i], Find(was, ns, key, fs[i].path)))
  }

  function RebuildGroups(gs: seq<Group>, ns: string, was: seq<GroupDetail>): seq<GroupDetail>
    requires forall g :: g in gs ==> g.source.Some?
  {
    seq(|gs|, i requires 0 <= i < |gs| =>
      GroupDetail(gs[i].source.value, Entries(gs[i].files, was, ns, GroupKey(gs[i], ns))))
  }

  /** One group for each sourced group of the specification, one entry for each of its files, in the same order. */
  function Rebuild(groups: seq<Group>, ns: string, was: seq<GroupDetail>): seq<GroupDetail>
  {
    RebuildGroups(Sourced(groups), ns, was)
  }

  /** The comparison looks at the files of the groups, not at their sources. */
  predicate SameFiles(a: seq<GroupDetail>, b: seq<GroupDetail>)
  {
    |a| == |b| && forall i :: 0 <= i < |a| ==> a[i].files == b[i].files
  }

  // ----- The environment of one reconcile

  datatype Dependency = Missing | Unreadable(msg: string) | NotReady | Available

  datatype Handling = Embedded(cost: int) | HandlingSkipped(msg: string) | HandlingFailed(msg: string)
  datatype Reading = ReadFailed(msg: string) | Read(handling: Handling)
  datatype Tags = TagsFailed(msg: string) | Tags(count: string, size: string, reading: Reading)
  /** What happens to the file that this reconcile picks: its source cannot be used, or the answers of the store. */
  datatype Fetch = NoSource | StatFailed(msg: string) | Stat(etag: string, tags: Tags)

  /** saved: whether the API server accepts the write of this reconcile. */
  datatype Env = Env(embedder: Dependency, vectorStore: Dependency, fetch: Fetch, saved: bool)

  /** reconcileFileGroup on one entry. The checksum is recorded before the file is embedded. */
  function ProcessFile(d: Detail, fetch: Fetch): Detail
  {
    match fetch
    case NoSource => d
    case StatFailed(msg) => d.(phase := Failed, errMessage := msg)
    case Stat(etag, tags) =>
      if etag == d.checksum then d.(phase := Succeeded)
      else
        var d1 := d.(checksum := etag);
        match tags
        case TagsFailed(msg) => d1.(phase := Failed, errMessage := msg)
        case Tags(count, size, reading) =>
          // the type is taken from the tag that holds the count
          var d2 := d1.(size := size, ftype := count, count := count);
          match reading
          case ReadFailed(msg) => d2.(phase := Failed, errMessage := msg)
          case Read(HandlingSkipped(msg)) => d2.(phase := Skipped, errMessage := msg)
          case Read(HandlingFailed(msg)) => d2.(phase := Failed, errMessage := msg)
          case Read(Embedded(cost)) => d2.(timeCost := cost, phase := Succeeded, errMessage := "")
  }

  /** handleFile succeeded for the content with this checksum. */
  predicate Embeds(d: Detail, fetch: Fetch)
  {
    fetch.Stat? && fetch.etag != d.checksum && fetch.tags.Tags? && fetch.tags.reading.Read? &&
    fetch.tags.reading.handling.Embedded?
  }

  // ----- The object and the reconciler

  const RETRY_FOR_FAILED := "for-failed"

  datatype Spec = Spec(hasEmbedder: bool, hasVectorStore: bool, groups: seq<Group>)
  datatype Status = Status(observed: int, details: seq<GroupDetail>, conditions: seq<Condition>)

  /** The stored object, and the reconciler's own note that it has set it ready. */
  datatype State = State(ns: string, generation: int, spec: Spec, annotation: string, status: Status, noted: bool)

  function ReadyCond(status: ConditionStatus, reason: string, message: string): Condition
  {
    Condition(TYPE_READY, status, reason, message, 0, 0)
  }

  function InitCondition(): Condition { ReadyCond(Unknown, "Init", "KnowledgeBase - embedding in progress") }
  function PendingCondition(msg: string): Condition { ReadyCond(False, "Pending", msg) }
  function ErrorCondition(msg: string): Condition { ReadyCond(False, "Error", msg) }
  function ReadyCondition(): Condition { ReadyCond(True, "", "Success") }

  /** patchStatus: nothing is written when the reconciler has noted readiness and the new status does not show it. */
  function Patch(s: State, status: Status, saved: bool): State
  {
    if s.noted && !IsReady(status.conditions) then s
    else if saved then s.(status := status)
    else s
  }

  /** setCondition followed by patchStatus: the note is changed at once, the status if it can be saved. */
  function Conclude(s: State, status: Status, c: Condition, saved: bool): State
  {
    Patch(s.(noted := c.status == True), status.(conditions := SetOne(status.conditions, c)), saved)
  }

  function RetryDetail(d: Detail): Detail
  {
    if d.phase == Failed then d.(phase := Processing, errMessage := "") else d
  }

  function RetryFiles(ds: seq<Detail>): seq<Detail>
  {
    seq(|ds|, j requires 0 <= j < |ds| => RetryDetail(ds[j]))
  }

  /** Every failed entry is put back to Processing. */
  function Retry(details: seq<GroupDetail>): seq<GroupDetail>
  {
    seq(|details|, i requires 0 <= i < |details| => details[i].(files := RetryFiles(details[i].files)))
  }

  predicate HasPhase(details: seq<GroupDetail>, phase: FilePhase)
  {
    exists i, j :: 0 <= i < |details| && 0 <= j < |details[i].files| && details[i].files[j].phase == phase
  }

  /** The place of the first entry, in the order of the lists, that is pending or being processed. */
  datatype Place = Nowhere | At(group: nat, file: nat)

  predicate Open(d: Detail)
  {
    d.phase == Pending || d.phase == Processing
  }

  function FirstOpenFile(ds: seq<Detail>, j: nat): (r: nat)
    requires j <= |ds|
    ensures j <= r <= |ds| && (r < |ds| ==> Open(ds[r]))
    ensures forall k :: j <= k < r ==> !Open(ds[k])
    decreases |ds| - j
  {
    if j == |ds| || Open(ds[j]) then j else FirstOpenFile(ds, j + 1)
  }

  function FirstOpen(details: seq<GroupDetail>, i: nat): (r: Place)
    requires i <= |details|
    ensures r.At? ==> i <= r.group < |details| && r.file < |details[r.group].files| && Open(details[r.group].files[r.file])
    ensures r.At? ==> forall k, j :: i <= k < r.group && 0 <= j < |details[k].files| ==> !Open(details[k].files[j])
    ensures r.At? ==> forall j :: 0 <= j < r.file ==> !Open(details[r.group].files[j])
    ensures r.Nowhere? ==> forall k, j :: i <= k < |details| && 0 <= j < |details[k].files| ==> !Open(details[k].files[j])
    decreases |details| - i
  {
    if i == |details| then Nowhere
    else
      var j := FirstOpenFile(details[i].files, 0);
      if j < |details[i].files| then At(i, j) else FirstOpen(details, i + 1)
  }

  function SetDetail(details: seq<GroupDetail>, i: nat, j: nat, d: Detail): seq<GroupDetail>
    requires i < |details| && j < |details[i].files|
  {
    details[i := details[i].(files := details[i].files[j := d])]
  }

  /** One entry moves on: a pending one becomes Processing, one being processed is handled. */
  function Advance(d: Detail, fetch: Fetch): Detail
  {
    if d.phase == Pending then d.(phase := Processing) else ProcessFile(d, fetch)
  }

  /** The loop over the files in reconcile. */
  function WorkOnFiles(s: State, env: Env): State
  {
    var details := s.status.details;
    match FirstOpen(details, 0)
    case At(i, j) =>
      Patch(s, s.status.(details := SetDetail(details, i, j, Advance(details[i].files[j], env.fetch))), env.saved)
    case Nowhere =>
      if HasPhase(details, Failed) then Conclude(s, s.status, ErrorCondition("some files failed to process."), env.saved)
      else if s.status.conditions != [] && s.status.conditions[0].status != True
      then Conclude(s, s.status, ReadyCondition(), env.saved)
      else Patch(s, s.status, env.saved)
  }

  function DependencyProblem(d: Dependency, missing: string, notReady: string): Option<Condition>
  {
    match d
    case Missing => Some(PendingCondition(missing))
    case Unreadable(msg) => Some(ErrorCondition(msg))
    case NotReady => Some(ErrorCondition(notReady))
    case Available => None
  }

  /** What keeps the reconciler from working on the files, in the order of its checks. */
  function Problem(spec: Spec, env: Env): Option<Condition>
  {
    if !spec.hasEmbedder || !spec.hasVectorStore || spec.groups == []
    then Some(PendingCondition("embedder or vectorstore or filegroups is not setting"))
    else
      match DependencyProblem(env.embedder, "embedder is not found", "embedder is not ready")
      case Some(c) => Some(c)
      case None => DependencyProblem(env.vectorStore, "vectorStore is not found", "vectorstore is not ready")
  }

  function ReconcileFiles(s: State, env: Env): State
  {
    match Problem(s.spec, env)
    case Some(c) => Conclude(s, s.status, c, env.saved)
    case None => if IsReady(s.status.conditions) || s.noted then s else WorkOnFiles(s, env)
  }

  function HandleAnnotation(s: State, saved: bool): State
  {
    var details := s.status.details;
    if s.annotation != RETRY_FOR_FAILED && details != []
    then Conclude(s, s.status.(details := []), InitCondition(), saved)
    else if s.annotation == RETRY_FOR_FAILED && HasPhase(details, Failed)
    then Conclude(s, s.status.(details := Retry(details)), InitCondition(), saved)
    else if saved then s.(annotation := "")
    else s
  }

  /** One Reconcile, as far as it concerns the knowledge base object itself. */
  function Reconcile(s: State, env: Env): State
  {
    if s.status.conditions == [] then Conclude(s, s.status, PendingCondition(""), env.saved)
    else if s.status.observed != s.generation
    then Conclude(s, s.status.(observed := s.generation), InitCondition(), env.saved)
    else if s.annotation != "" then HandleAnnotation(s, env.saved)
    else
      var rebuilt := Rebuild(s.spec.groups, s.ns, s.status.details);
      if SameFiles(rebuilt, s.status.details) then ReconcileFiles(s, env)
      else if env.saved then s.(status := s.status.(details := rebuilt))
      else s
  }
}
