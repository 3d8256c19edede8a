/** Runs of the copying: jobs are sent and finish in any order, while the generator still reads the status. */
module CopyRuns {
  import opened FilePhases
  import opened Strings
  import opened FileStatuses
  import opened VersionFiles
  import opened VersionedDatasets
  import opened Executor

  /** jobs: the slots of the jobs sent so far; sent: what the jobs carry; results: the outcomes that came in. */
  datatype State = State(files: seq<FileStatus>, slots: seq<Slot>, pos: nat, jobs: seq<Slot>, sent: map<Slot, Job>,
                         results: map<Slot, Outcome>)

  datatype Event = Look | Finished(slot: Slot, outcome: Outcome)

  function Start(files: seq<FileStatus>): State
  {
    State(files, AllSlots(files), 0, [], map[], map[])
  }

  predicate Enabled(s: State, e: Event)
  {
    match e
    case Look => s.pos < |s.slots| && IsSlot(s.files, s.slots[s.pos])
    case Finished(slot, _) => slot in s.sent && slot !in s.results
  }

  /** The generator passes one file. */
  function Looked(spec: VersionSpec, s: State, slot: Slot): State
    requires IsSlot(s.files, slot)
  {
    if GetsJob(s.files, slot, false) then
      s.(pos := s.pos + 1, jobs := s.jobs + [slot], sent := s.sent[slot := JobAt(spec, s.files, slot, false)])
    else s.(pos := s.pos + 1)
  }

  function Took(spec: VersionSpec, s: State, slot: Slot, outcome: Outcome): State
    requires slot in s.sent
  {
    s.(files := Finish(spec, s.files, s.sent[slot], outcome), results := s.results[slot := outcome])
  }

  function Step(spec: VersionSpec, s: State, e: Event): State
    requires Enabled(s, e)
  {
    match e
    case Look => Looked(spec, s, s.slots[s.pos])
    case Finished(slot, outcome) => Took(spec, s, slot, outcome)
  }

  ghost predicate Legal(spec: VersionSpec, s: State, es: seq<Event>)
    decreases |es|
  {
    es == [] || (Enabled(s, es[0]) && Legal(spec, Step(spec, s, es[0]), es[1..]))
  }

  ghost function After(spec: VersionSpec, s: State, es: seq<Event>): State
    requires Legal(spec, s, es)
    decreases |es|
  {
    if es == [] then s else After(spec, Step(spec, s, es[0]), es[1..])
  }

  // The status as a function of the results

  function Result(d: Detail, slot: Slot, results: map<Slot, Outcome>): Detail
  {
    if slot in results then Mark(d, PhaseOf(results[slot]), MessageOf(results[slot])) else d
  }

  function ResultRow(i: nat, fs: seq<Detail>, results: map<Slot, Outcome>): (r: seq<Detail>)
    ensures |r| == |fs| && forall k :: 0 <= k < |r| ==> r[k] == Result(fs[k], Slot(i, k), results)
  {
    seq(|fs|, k requires 0 <= k < |fs| => Result(fs[k], Slot(i, k), results))
  }

  /** The files with each result entered at its own slot. */
  function WithResults(ss: seq<FileStatus>, results: map<Slot, Outcome>): (r: seq<FileStatus>)
    ensures |r| == |ss|
    ensures forall i :: 0 <= i < |r| ==> r[i] == ss[i].(files := ResultRow(i, ss[i].files, results))
  {
    seq(|ss|, i requires 0 <= i < |ss| => ss[i].(files := ResultRow(i, ss[i].files, results)))
  }

  lemma {:induction false} SameNamesAndPaths(ss: seq<FileStatus>, results: map<Slot, Outcome>)
    ensures Names(WithResults(ss, results)) == Names(ss)
    ensures forall i :: 0 <= i < |ss| ==> Paths(WithResults(ss, results)[i].files) == Paths(ss[i].files)
  {
  }

  lemma {:induction false} StaysAddressable(spec: VersionSpec, ss: seq<FileStatus>, results: map<Slot, Outcome>)
    requires Addressable(spec, ss)
    ensures Addressable(spec, WithResults(ss, results))
  {
    SameNamesAndPaths(ss, results);
    forall i | 0 <= i < |ss| ensures |WithResults(ss, results)[i].files| == |ss[i].files| {}
  }

  /** Every file that gets a job finds itself. */
  ghost predicate AllFindThemselves(ss: seq<FileStatus>)
  {
    forall slot :: GetsJob(ss, slot, false) ==> FindsItself(ss, slot)
  }

  lemma {:induction false} OneMoreResult(spec: VersionSpec, ss: seq<FileStatus>, results: map<Slot, Outcome>,
                                         slot: Slot, outcome: Outcome)
    requires Addressable(spec, ss) && GetsJob(ss, slot, false) && FindsItself(ss, slot) && slot !in results
    ensures Finish(spec, WithResults(ss, results), JobAt(spec, ss, slot, false), outcome)
         == WithResults(ss, results[slot := outcome])
  {
    var r := WithResults(ss, results);
    StaysAddressable(spec, ss, results);
    SameNamesAndPaths(ss, results);
    UntouchedSlot(spec, ss, results, slot);
    ResultFindsFile(spec, r, slot, outcome);
    EnteredAt(ss, results, slot, outcome);
  }

  lemma {:induction false} EnteredAt(ss: seq<FileStatus>, results: map<Slot, Outcome>, slot: Slot, outcome: Outcome)
    requires IsSlot(ss, slot) && slot !in results && IsSlot(WithResults(ss, results), slot)
    ensures var r := WithResults(ss, results);
            Entered(r, slot, outcome) == WithResults(ss, results[slot := outcome])
  {
    var r, q := WithResults(ss, results), WithResults(ss, results[slot := outcome]);
    var entered := Entered(r, slot, outcome);
    forall i | 0 <= i < |ss| ensures entered[i] == q[i] {
      assert entered[i].files == q[i].files;
    }
  }

  // What every run keeps

  ghost predicate Carried(spec: VersionSpec, ss: seq<FileStatus>, jobs: seq<Slot>, sent: map<Slot, Job>)
  {
    && (forall slot :: slot in sent <==> slot in jobs)
    && (forall slot <- sent :: GetsJob(ss, slot, false) && sent[slot] == JobAt(spec, ss, slot, false))
  }

  lemma {:induction false} CarriedOneMore(spec: VersionSpec, ss: seq<FileStatus>, jobs: seq<Slot>,
                                          sent: map<Slot, Job>, slot: Slot)
    requires Carried(spec, ss, jobs, sent) && GetsJob(ss, slot, false)
    ensures Carried(spec, ss, jobs + [slot], sent[slot := JobAt(spec, ss, slot, false)])
  {
  }

  ghost predicate Inv(spec: VersionSpec, ss: seq<FileStatus>, s: State)
  {
    && s.slots == AllSlots(ss) && s.pos <= |s.slots|
    && s.jobs == Picks(ss, s.slots[..s.pos], false)
    && Carried(spec, ss, s.jobs, s.sent)
    && (forall slot <- s.results :: slot in s.sent)
    && s.files == WithResults(ss, s.results)
  }

  lemma {:induction false} PicksAmong(ss: seq<FileStatus>, slots: seq<Slot>, slot: Slot)
    ensures slot in Picks(ss, slots, false) <==> slot in slots && GetsJob(ss, slot, false)
  {
    if slots != [] {
      var n := |slots| - 1;
      PicksAmong(ss, slots[..n], slot);
      assert slots == slots[..n] + [slots[n]];
    }
  }

  lemma {:induction false} NotYetSent(ss: seq<FileStatus>, pos: nat)
    requires pos < |AllSlots(ss)|
    ensures AllSlots(ss)[pos] !in Picks(ss, AllSlots(ss)[..pos], false) && IsSlot(ss, AllSlots(ss)[pos])
  {
    SlotsInOrder(ss, |ss|);
    PicksAmong(ss, AllSlots(ss)[..pos], AllSlots(ss)[pos]);
  }

  lemma {:induction false} SendKeeps(spec: VersionSpec, ss: seq<FileStatus>, s: State, slot: Slot)
    requires Inv(spec, ss, s) && s.pos < |s.slots| && slot == s.slots[s.pos] && GetsJob(ss, slot, false)
    ensures Inv(spec, ss, s.(pos := s.pos + 1, jobs := s.jobs + [slot],
                             sent := s.sent[slot := JobAt(spec, ss, slot, false)]))
  {
    CarriedOneMore(spec, ss, s.jobs, s.sent, slot);
    PickNext(ss, s.slots, s.pos);
  }

  lemma {:induction false} PassKeeps(spec: VersionSpec, ss: seq<FileStatus>, s: State, slot: Slot)
    requires Inv(spec, ss, s) && s.pos < |s.slots| && slot == s.slots[s.pos] && !GetsJob(ss, slot, false)
    ensures Inv(spec, ss, s.(pos := s.pos + 1))
  {
    PickNext(ss, s.slots, s.pos);
  }

  lemma {:induction false} LookKeeps(spec: VersionSpec, ss: seq<FileStatus>, s: State)
    requires Inv(spec, ss, s) && Enabled(s, Look)
    ensures Inv(spec, ss, Step(spec, s, Look))
  {
    var slot := s.slots[s.pos];
    NotYetSent(ss, s.pos);
    UntouchedSlot(spec, ss, s.results, slot);
    if GetsJob(ss, slot, false) { SendKeeps(spec, ss, s, slot); } else { PassKeeps(spec, ss, s, slot); }
  }

  lemma {:induction false} PickNext(ss: seq<FileStatus>, slots: seq<Slot>, pos: nat)
    requires pos < |slots|
    ensures Picks(ss, slots[..pos + 1], false)
         == Picks(ss, slots[..pos], false) + if GetsJob(ss, slots[pos], false) then [slots[pos]] else []
  {
    assert slots[..pos + 1][..pos] == slots[..pos];
  }

  lemma {:induction false} UntouchedSlot(spec: VersionSpec, ss: seq<FileStatus>, results: map<Slot, Outcome>,
                                         slot: Slot)
    requires IsSlot(ss, slot) && slot !in results
    ensures IsSlot(WithResults(ss, results), slot)
    ensures GetsJob(WithResults(ss, results), slot, false) == GetsJob(ss, slot, false)
    ensures JobAt(spec, WithResults(ss, results), slot, false) == JobAt(spec, ss, slot, false)
  {
    assert DetailAt(WithResults(ss, results), slot) == DetailAt(ss, slot);
  }

  lemma {:induction false} FinishKeeps(spec: VersionSpec, ss: seq<FileStatus>, s: State, slot: Slot, outcome: Outcome)
    requires Addressable(spec, ss) && AllFindThemselves(ss)
    requires Inv(spec, ss, s) && Enabled(s, Finished(slot, outcome))
    ensures Inv(spec, ss, Step(spec, s, Finished(slot, outcome)))
  {
    assert FindsItself(ss, slot);
    OneMoreResult(spec, ss, s.results, slot, outcome);
  }

  lemma {:induction false} RunKeeps(spec: VersionSpec, ss: seq<FileStatus>, s: State, es: seq<Event>)
    requires Addressable(spec, ss) && AllFindThemselves(ss) && Inv(spec, ss, s) && Legal(spec, s, es)
    ensures Inv(spec, ss, After(spec, s, es))
    decreases |es|
  {
    if es != [] {
      if es[0].Look? { LookKeeps(spec, ss, s); } else { FinishKeeps(spec, ss, s, es[0].slot, es[0].outcome); }
      RunKeeps(spec, ss, Step(spec, s, es[0]), es[1..]);
    }
  }

  lemma {:induction false} RunFromStart(spec: VersionSpec, ss: seq<FileStatus>, es: seq<Event>)
    requires Addressable(spec, ss) && AllFindThemselves(ss) && Legal(spec, Start(ss), es)
    ensures Inv(spec, ss, After(spec, Start(ss), es))
  {
    SameFiles(ss);
    RunKeeps(spec, ss, Start(ss), es);
  }

  lemma {:induction false} SameFiles(ss: seq<FileStatus>)
    ensures WithResults(ss, map[]) == ss
  {
    forall i | 0 <= i < |ss| ensures WithResults(ss, map[])[i] == ss[i] {
      assert ResultRow(i, ss[i].files, map[]) == ss[i].files;
    }
  }

  /** A run that sends the job of a file which does not find itself, and enters its result. */
  lemma {:induction false} MisplacingRun(spec: VersionSpec, ss: seq<FileStatus>, s: State, slot: Slot)
    returns (es: seq<Event>)
    requires Addressable(spec, ss) && GetsJob(ss, slot, false) && !FindsItself(ss, slot)
    requires Inv(spec, ss, s) && s.results == map[]
    ensures Legal(spec, s, es) && After(spec, s, es).files != WithResults(ss, After(spec, s, es).results)
    decreases |s.slots| - s.pos
  {
    if slot in s.sent {
      es := [Finished(slot, Done)];
      assert es[1..] == [];
      ResultMisplaced(spec, ss, s, slot);
    } else {
      AnotherLook(spec, ss, s, slot);
      LookKeeps(spec, ss, s);
      var more := MisplacingRun(spec, ss, Step(spec, s, Look), slot);
      es := [Look] + more;
      assert es[1..] == more;
    }
  }

  lemma {:induction false} ResultMisplaced(spec: VersionSpec, ss: seq<FileStatus>, s: State, slot: Slot)
    requires Addressable(spec, ss) && GetsJob(ss, slot, false) && !FindsItself(ss, slot)
    requires Inv(spec, ss, s) && s.results == map[] && slot in s.sent
    ensures var t := Step(spec, s, Finished(slot, Done)); t.files != WithResults(ss, t.results)
  {
    SameFiles(ss);
    ResultFindsFile(spec, ss, slot, Done);
    EnteredAt(ss, map[], slot, Done);
  }

  lemma {:induction false} AnotherLook(spec: VersionSpec, ss: seq<FileStatus>, s: State, slot: Slot)
    requires Inv(spec, ss, s) && s.results == map[] && GetsJob(ss, slot, false) && slot !in s.sent
    ensures Enabled(s, Look)
  {
    SameFiles(ss);
    SlotsInOrder(ss, |ss|);
    PicksAmong(ss, s.slots[..s.pos], slot);
  }

  /** All runs enter all results at their own files exactly if every file that gets a job finds itself. */
  lemma {:induction false} RunsAreRightIff(spec: VersionSpec, ss: seq<FileStatus>)
    requires Addressable(spec, ss)
    ensures AllFindThemselves(ss) <==>
            forall es :: Legal(spec, Start(ss), es) ==>
              After(spec, Start(ss), es).files == WithResults(ss, After(spec, Start(ss), es).results)
  {
    SameFiles(ss);
    if AllFindThemselves(ss) {
      forall es | Legal(spec, Start(ss), es)
        ensures After(spec, Start(ss), es).files == WithResults(ss, After(spec, Start(ss), es).results) {
        RunFromStart(spec, ss, es);
      }
    } else {
      var slot :| GetsJob(ss, slot, false) && !FindsItself(ss, slot);
      var es := MisplacingRun(spec, ss, Start(ss), slot);
    }
  }

  predicate Complete(s: State)
  {
    s.pos == |s.slots| && forall slot <- s.jobs :: slot in s.results
  }

  /** In whatever order jobs are sent and finish: each result so far stands at its own file and nowhere else. */
  lemma {:induction false} ResultsStandAtTheirFiles(spec: VersionSpec, ss: seq<FileStatus>, es: seq<Event>, slot: Slot)
    requires Addressable(spec, ss) && AllFindThemselves(ss) && Legal(spec, Start(ss), es) && IsSlot(ss, slot)
    ensures var s := After(spec, Start(ss), es);
            IsSlot(s.files, slot)
            && DetailAt(s.files, slot) == Result(DetailAt(ss, slot), slot, s.results)
            && (slot in s.results ==> GetsJob(ss, slot, false))
  {
    RunFromStart(spec, ss, es);
  }

  /** A complete run has sent one job for each file that gets one, and no other, in the order of the status. */
  lemma {:induction false} OneJobEach(spec: VersionSpec, ss: seq<FileStatus>, es: seq<Event>)
    requires Addressable(spec, ss) && AllFindThemselves(ss) && Legal(spec, Start(ss), es)
    requires Complete(After(spec, Start(ss), es))
    ensures var s := After(spec, Start(ss), es);
            s.jobs == Picks(ss, AllSlots(ss), false)
            && (forall i, j :: 0 <= i < j < |s.jobs| ==> s.jobs[i] != s.jobs[j])
            && (forall slot :: GetsJob(ss, slot, false) <==> slot in s.results)
  {
    RunFromStart(spec, ss, es);
    var s := After(spec, Start(ss), es);
    assert s.slots[..s.pos] == AllSlots(ss);
    SlotsInOrder(ss, |ss|);
    DistinctPicks(ss, AllSlots(ss));
    forall slot ensures GetsJob(ss, slot, false) <==> slot in s.results { PicksAmong(ss, AllSlots(ss), slot); }
  }

  lemma {:induction false} DistinctPicks(ss: seq<FileStatus>, slots: seq<Slot>)
    requires forall i, j :: 0 <= i < j < |slots| ==> slots[i] != slots[j]
    ensures var r := Picks(ss, slots, false); forall i, j :: 0 <= i < j < |r| ==> r[i] != r[j]
  {
    if slots != [] {
      var n := |slots| - 1;
      DistinctPicks(ss, slots[..n]);
      PicksAmong(ss, slots[..n], slots[n]);
    }
  }

  /** The final status depends on the outcomes of the jobs, not on the order in which they finish. */
  lemma {:induction false} OrderDoesNotMatter(spec: VersionSpec, ss: seq<FileStatus>, es: seq<Event>, fs: seq<Event>)
    requires Addressable(spec, ss) && AllFindThemselves(ss)
    requires Legal(spec, Start(ss), es) && Complete(After(spec, Start(ss), es))
    requires Legal(spec, Start(ss), fs) && Complete(After(spec, Start(ss), fs))
    requires var r, q := After(spec, Start(ss), es).results, After(spec, Start(ss), fs).results;
             forall slot :: slot in r && slot in q ==> r[slot] == q[slot]
    ensures After(spec, Start(ss), es).files == After(spec, Start(ss), fs).files
  {
    OneJobEach(spec, ss, es);
    OneJobEach(spec, ss, fs);
    assert After(spec, Start(ss), es).results == After(spec, Start(ss), fs).results;
    RunFromStart(spec, ss, es);
    RunFromStart(spec, ss, fs);
  }

  /** After a complete run a file is still in process exactly if it was and its path is that of a directory. */
  lemma {:induction false} LeftInProcessIff(spec: VersionSpec, ss: seq<FileStatus>, es: seq<Event>, slot: Slot)
    requires Addressable(spec, ss) && AllFindThemselves(ss) && Legal(spec, Start(ss), es)
    requires Complete(After(spec, Start(ss), es))
    requires IsSlot(ss, slot) && KnownKind(ss[slot.source])
    ensures var s := After(spec, Start(ss), es);
            IsSlot(s.files, slot)
            && (DetailAt(s.files, slot).phase == Processing
                <==> DetailAt(ss, slot).phase == Processing && HasSuffix(DetailAt(ss, slot).path, "/"))
  {
    OneJobEach(spec, ss, es);
    ResultsStandAtTheirFiles(spec, ss, es, slot);
  }

  /** The status that a synchronisation makes can be copied from. */
  lemma {:induction false} SyncedIsAddressable(spec: VersionSpec, listing: seq<string>, before: seq<FileStatus>,
                                               after: seq<FileStatus>, update: bool, deleted: seq<FileStatus>)
    requires Synced(spec, listing, before, after, update, deleted) && WellNamed(spec.groups)
    ensures Addressable(spec, after)
  {
    var v := Overlay(Target(spec, listing), ViewOf(before));
    forall i | 0 <= i < |after| && after[i].kind == DATASOURCE
      ensures !HasPrefix(after[i].source.name, INHERITED_FROM) {
      assert after[i].source in v;
      var g :| g in spec.groups && g.source == after[i].source;
    }
    forall i | 0 <= i < |after| && after[i].kind == VERSIONED_DATASET && after[i].files != []
      ensures after[i].source.name == INHERITED_FROM + spec.inheritedFrom {
      assert after[i].source == InheritedSource(spec);
      assert after[i].files[0].path in v[after[i].source];
    }
  }

  /** Without leading slashes every file finds itself. */
  lemma {:induction false} PlainPathsFindThemselves(ss: seq<FileStatus>)
    requires Sorted(ss)
    requires forall slot :: GetsJob(ss, slot, false) ==> !HasPrefix(DetailAt(ss, slot).path, "/")
    ensures AllFindThemselves(ss)
  {
    forall slot | GetsJob(ss, slot, false) ensures FindsItself(ss, slot) { FindsItselfIff(ss, slot); }
  }
}
