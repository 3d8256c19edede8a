/**
 syncStatus as the program computes it.

 A list of new entries is built for the files of the specification, and the slot of each source and path in the list
 is recorded. Then the old entries are gone through, and each is copied to its slot if it has one. The lemmas show
 that after any part of the old status the list is what it would be rebuilt to from that part.
 */
module KnowledgeBaseSync {
  import opened Options
  import opened KnowledgeBase
  import opened KnowledgeBaseEntries

  datatype Slot = Slot(group: nat, file: nat)
  type Slots = map<Key, map<string, Slot>>

  predicate InRange(details: seq<GroupDetail>, s: Slot)
  {
    s.group < |details| && s.file < |details[s.group].files|
  }

  /** Every recorded slot exists. This holds for any specification. */
  ghost predicate SlotsInRange(slots: Slots, details: seq<GroupDetail>)
  {
    && (slots != map[] ==> details != [])
    && (forall k, p :: k in slots && p in slots[k] ==> InRange(details, slots[k][p]))
  }

  /** The slot of every file is its position, and there are no other slots. */
  ghost predicate SlotsOf(slots: Slots, gs: seq<Group>, ns: string)
  {
    && (forall i :: 0 <= i < |gs| ==> gs[i].source.Some? && GroupKey(gs[i], ns) in slots)
    && (forall i, j :: 0 <= i < |gs| && 0 <= j < |gs[i].files| ==>
          gs[i].files[j].path in slots[GroupKey(gs[i], ns)]
          && slots[GroupKey(gs[i], ns)][gs[i].files[j].path] == Slot(i, j))
    && (forall k :: k in slots ==> exists i :: 0 <= i < |gs| && GroupKey(gs[i], ns) == k)
    && (forall k, p :: k in slots && p in slots[k] ==>
          var s := slots[k][p];
          s.group < |gs| && s.file < |gs[s.group].files|
          && GroupKey(gs[s.group], ns) == k && gs[s.group].files[s.file].path == p)
  }

  lemma {:induction false} SourcedSnoc(groups: seq<Group>, i: nat)
    requires i < |groups|
    ensures Sourced(groups[..i + 1]) == Sourced(groups[..i]) + if groups[i].source.Some? then [groups[i]] else []
  {
    assert groups[..i + 1][..i] == groups[..i];
  }

  lemma {:induction false} SourcedPrefix(groups: seq<Group>, i: nat)
    requires i <= |groups|
    ensures Sourced(groups[..i]) <= Sourced(groups)
    decreases |groups| - i
  {
    if i == |groups| {
      assert groups[..i] == groups;
    } else {
      SourcedSnoc(groups, i);
      SourcedPrefix(groups, i + 1);
    }
  }

  /** The files of one group are appended to the last group of the list. The position within the own file list is
      recorded, which is the position in the list only if no other group went to the same place. */
  method AddFiles(details: seq<GroupDetail>, slots: Slots, key: Key, files: seq<FileSpec>)
    returns (details': seq<GroupDetail>, slots': Slots)
    requires details != [] && key in slots && SlotsInRange(slots, details)
    ensures SlotsInRange(slots', details') && |details'| == |details| && slots'.Keys == slots.Keys
    ensures var last := |details| - 1;
            && details'[..last] == details[..last]
            && details'[last] == details[last].(files := details[last].files + seq(|files|, i requires 0 <= i < |files| => NewDetail(files[i])))
    ensures forall k :: k in slots && k != key ==> slots'[k] == slots[k]
    ensures slots[key] == map[] && DistinctPaths(files) ==> FileSlots(slots'[key], |details| - 1, files)
  {
    details', slots' := details, slots;
    var index := |details| - 1;
    for i := 0 to |files|
      invariant SlotsInRange(slots', details') && |details'| == |details| && slots'.Keys == slots.Keys
      invariant details'[..index] == details[..index]
      invariant details'[index] == details[index].(files := details[index].files + seq(i, k requires 0 <= k < i => NewDetail(files[k])))
      invariant forall k :: k in slots && k != key ==> slots'[k] == slots[k]
      invariant slots[key] == map[] && DistinctPaths(files) ==> FileSlots(slots'[key], index, files[..i])
    {
      ghost var before := slots';
      details' := details'[index := details'[index].(files := details'[index].files + [NewDetail(files[i])])];
      slots' := slots'[key := slots'[key][files[i].path := Slot(index, i)]];
    }
    assert files[..|files|] == files;
  }

  ghost predicate FileSlots(m: map<string, Slot>, group: nat, files: seq<FileSpec>)
  {
    && (forall j :: 0 <= j < |files| ==> files[j].path in m && m[files[j].path] == Slot(group, j))
    && (forall p :: p in m ==> m[p].group == group && m[p].file < |files| && files[m[p].file].path == p)
  }

  /** The list has the new entries of these groups. */
  ghost predicate Lists(details: seq<GroupDetail>, slots: Slots, gs: seq<Group>, ns: string)
  {
    SlotsOf(slots, gs, ns) && details == RebuildGroups(gs, ns, [])
  }

  /** The list of new entries, a group for every source met first here. */
  method BuildList(groups: seq<Group>, ns: string) returns (details: seq<GroupDetail>, slots: Slots)
    ensures SlotsInRange(slots, details)
    ensures DistinctSpec(groups, ns) ==> Lists(details, slots, Sourced(groups), ns)
  {
    details, slots := [], map[];
    for i := 0 to |groups|
      invariant SlotsInRange(slots, details)
      invariant DistinctSpec(groups, ns) ==> Lists(details, slots, Sourced(groups[..i]), ns)
    {
      details, slots := AddGroup(details, slots, groups, i, ns);
    }
    assert groups[..|groups|] == groups;
  }

  method AddGroup(details: seq<GroupDetail>, slots: Slots, groups: seq<Group>, i: nat, ns: string)
    returns (details': seq<GroupDetail>, slots': Slots)
    requires i < |groups| && SlotsInRange(slots, details)
    ensures SlotsInRange(slots', details')
    ensures DistinctSpec(groups, ns) && Lists(details, slots, Sourced(groups[..i]), ns)
            ==> Lists(details', slots', Sourced(groups[..i + 1]), ns)
  {
    details', slots' := details, slots;
    if groups[i].source.Some? {
      details', slots' := AddSourced(details, slots, groups[i], ns, Sourced(groups[..i]));
    }
    GroupAdded(details, slots, groups, i, ns, details', slots');
  }

  lemma {:induction false} GroupAdded(details: seq<GroupDetail>, slots: Slots, groups: seq<Group>, i: nat, ns: string,
                                      details': seq<GroupDetail>, slots': Slots)
    requires i < |groups|
    requires if groups[i].source.Some? then
               (Lists(details, slots, Sourced(groups[..i]), ns) && GroupKey(groups[i], ns) !in slots
                && DistinctPaths(groups[i].files)) ==> Lists(details', slots', Sourced(groups[..i]) + [groups[i]], ns)
             else details' == details && slots' == slots
    ensures DistinctSpec(groups, ns) && Lists(details, slots, Sourced(groups[..i]), ns)
            ==> Lists(details', slots', Sourced(groups[..i + 1]), ns)
  {
    if DistinctSpec(groups, ns) && Lists(details, slots, Sourced(groups[..i]), ns) {
      if groups[i].source.Some? {
        ListsSlots(details, slots, Sourced(groups[..i]), ns);
        NewKey(groups, i, ns, slots);
      }
      SourcedSnoc(groups, i);
    }
  }

  lemma {:induction false} ListsSlots(details: seq<GroupDetail>, slots: Slots, gs: seq<Group>, ns: string)
    requires Lists(details, slots, gs, ns)
    ensures SlotsOf(slots, gs, ns)
  {
  }

  method AddSourced(details: seq<GroupDetail>, slots: Slots, g: Group, ns: string, ghost gs: seq<Group>)
    returns (details': seq<GroupDetail>, slots': Slots)
    requires g.source.Some? && SlotsInRange(slots, details)
    ensures SlotsInRange(slots', details')
    ensures Lists(details, slots, gs, ns) && GroupKey(g, ns) !in slots && DistinctPaths(g.files)
            ==> Lists(details', slots', gs + [g], ns)
  {
    var key := GroupKey(g, ns);
    details', slots' := details, slots;
    if key !in slots {
      slots' := slots[key := map[]];
      details' := details + [GroupDetail(g.source.value, [])];
    }
    details', slots' := AddFiles(details', slots', key, g.files);
    if Lists(details, slots, gs, ns) && key !in slots && DistinctPaths(g.files) {
      OneMoreGroup(gs, g, ns, details, slots, details', slots');
    }
  }

  lemma {:induction false} NewKey(groups: seq<Group>, i: nat, ns: string, slots: Slots)
    requires i < |groups| && groups[i].source.Some?
    ensures DistinctSpec(groups, ns) && SlotsOf(slots, Sourced(groups[..i]), ns) ==>
              GroupKey(groups[i], ns) !in slots && DistinctPaths(groups[i].files)
  {
    if DistinctSpec(groups, ns) && SlotsOf(slots, Sourced(groups[..i]), ns) {
      var gs, all := Sourced(groups[..i]), Sourced(groups);
      SourcedSnoc(groups, i);
      SourcedPrefix(groups, i + 1);
      assert all[|gs|] == (gs + [groups[i]])[|gs|];
      forall k | 0 <= k < |gs|
        ensures GroupKey(gs[k], ns) != GroupKey(groups[i], ns)
      {
        assert gs[k] == (gs + [groups[i]])[k] == all[k];
      }
    }
  }

  lemma {:induction false} OneMoreGroup(gs: seq<Group>, g: Group, ns: string, details: seq<GroupDetail>, slots: Slots,
                                        details': seq<GroupDetail>, slots': Slots)
    requires SlotsOf(slots, gs, ns) && g.source.Some? && GroupKey(g, ns) !in slots
    requires details == RebuildGroups(gs, ns, [])
    requires |details'| == |gs| + 1 && details'[..|gs|] == details
    requires details'[|gs|] == GroupDetail(g.source.value, seq(|g.files|, i requires 0 <= i < |g.files| => NewDetail(g.files[i])))
    requires slots'.Keys == slots.Keys + {GroupKey(g, ns)} && forall k :: k in slots ==> slots'[k] == slots[k]
    requires FileSlots(slots'[GroupKey(g, ns)], |gs|, g.files)
    ensures details' == RebuildGroups(gs + [g], ns, []) && SlotsOf(slots', gs + [g], ns)
  {
    assert details'[|gs|].files == Entries(g.files, [], ns, GroupKey(g, ns));
    forall i | 0 <= i < |gs| + 1
      ensures details'[i] == RebuildGroups(gs + [g], ns, [])[i]
    {
      if i < |gs| { assert details'[i] == details'[..|gs|][i]; }
    }
    OneMoreKey(gs, g, ns, slots, slots');
  }

  lemma {:induction false} OneMoreKey(gs: seq<Group>, g: Group, ns: string, slots: Slots, slots': Slots)
    requires SlotsOf(slots, gs, ns) && g.source.Some? && GroupKey(g, ns) !in slots
    requires slots'.Keys == slots.Keys + {GroupKey(g, ns)} && forall k :: k in slots ==> slots'[k] == slots[k]
    requires FileSlots(slots'[GroupKey(g, ns)], |gs|, g.files)
    ensures SlotsOf(slots', gs + [g], ns)
  {
    var hs := gs + [g];
    forall k, p | k in slots' && p in slots'[k]
      ensures var s := slots'[k][p];
              s.group < |hs| && s.file < |hs[s.group].files|
              && GroupKey(hs[s.group], ns) == k && hs[s.group].files[s.file].path == p
    {
      if k in slots { assert p in slots[k]; }
    }
    forall k | k in slots'
      ensures exists i :: 0 <= i < |hs| && GroupKey(hs[i], ns) == k
    {
      if k in slots {
        var i :| 0 <= i < |gs| && GroupKey(gs[i], ns) == k;
        assert GroupKey(hs[i], ns) == k;
      } else {
        assert GroupKey(hs[|gs|], ns) == k;
      }
    }
  }

  // ----- Copying over what the old status knows

  lemma {:induction false} FindSnoc(was: seq<GroupDetail>, source: Source, fs: seq<Detail>, d: Detail, ns: string, k: Key, p: string)
    ensures Find(was + [GroupDetail(source, fs + [d])], ns, k, p) ==
            if k == KeyOf(source, ns) && p == d.path then Some(d) else Find(was + [GroupDetail(source, fs)], ns, k, p)
  {
    assert (was + [GroupDetail(source, fs + [d])])[..|was|] == was && (was + [GroupDetail(source, fs)])[..|was|] == was;
    assert (fs + [d])[..|fs|] == fs;
  }

  lemma {:induction false} FindNoFiles(was: seq<GroupDetail>, source: Source, ns: string, k: Key, p: string)
    ensures Find(was + [GroupDetail(source, [])], ns, k, p) == Find(was, ns, k, p)
  {
    assert (was + [GroupDetail(source, [])])[..|was|] == was;
  }

  predicate HasSlot(slots: Slots, key: Key, path: string)
  {
    key in slots && path in slots[key]
  }

  /** before and after differ at most in the entries for the path of d under the key of source. */
  ghost predicate OneEntryMore(gs: seq<Group>, ns: string, source: Source, d: Detail, before: seq<GroupDetail>,
                               after: seq<GroupDetail>)
    requires forall g :: g in gs ==> g.source.Some?
  {
    && |before| == |after| == |gs|
    && (forall i :: 0 <= i < |gs| ==> before[i].source == after[i].source
                                      && |before[i].files| == |after[i].files| == |gs[i].files|)
    && (forall i, j :: 0 <= i < |gs| && 0 <= j < |gs[i].files| ==>
          after[i].files[j] == if GroupKey(gs[i], ns) == KeyOf(source, ns) && gs[i].files[j].path == d.path
                               then CarryOver(gs[i].files[j].version, d) else before[i].files[j])
  }

  lemma {:induction false} EntriesStep(gs: seq<Group>, ns: string, was: seq<GroupDetail>, source: Source,
                                       fs: seq<Detail>, d: Detail, i: nat, j: nat)
    requires (forall g :: g in gs ==> g.source.Some?) && i < |gs| && j < |gs[i].files|
    ensures RebuildGroups(gs, ns, was + [GroupDetail(source, fs + [d])])[i].files[j]
         == if GroupKey(gs[i], ns) == KeyOf(source, ns) && gs[i].files[j].path == d.path
            then CarryOver(gs[i].files[j].version, d)
            else RebuildGroups(gs, ns, was + [GroupDetail(source, fs)])[i].files[j]
  {
    FindSnoc(was, source, fs, d, ns, GroupKey(gs[i], ns), gs[i].files[j].path);
  }

  lemma {:induction false} EntriesDiffer(gs: seq<Group>, ns: string, was: seq<GroupDetail>, source: Source,
                                         fs: seq<Detail>, d: Detail)
    requires forall g :: g in gs ==> g.source.Some?
    ensures OneEntryMore(gs, ns, source, d, RebuildGroups(gs, ns, was + [GroupDetail(source, fs)]),
                         RebuildGroups(gs, ns, was + [GroupDetail(source, fs + [d])]))
  {
    forall i, j | 0 <= i < |gs| && 0 <= j < |gs[i].files|
      ensures RebuildGroups(gs, ns, was + [GroupDetail(source, fs + [d])])[i].files[j]
           == if GroupKey(gs[i], ns) == KeyOf(source, ns) && gs[i].files[j].path == d.path
              then CarryOver(gs[i].files[j].version, d)
              else RebuildGroups(gs, ns, was + [GroupDetail(source, fs)])[i].files[j]
    {
      EntriesStep(gs, ns, was, source, fs, d, i, j);
    }
  }

  lemma {:induction false} MergeHit(gs: seq<Group>, ns: string, slots: Slots, source: Source, d: Detail,
                                    before: seq<GroupDetail>, after: seq<GroupDetail>)
    requires SlotsOf(slots, gs, ns) && HasSlot(slots, KeyOf(source, ns), d.path)
    requires OneEntryMore(gs, ns, source, d, before, after)
    ensures var s := slots[KeyOf(source, ns)][d.path];
            InRange(before, s)
            && after == SetDetail(before, s.group, s.file, CarryOver(gs[s.group].files[s.file].version, d))
  {
    var s := slots[KeyOf(source, ns)][d.path];
    var r := SetDetail(before, s.group, s.file, CarryOver(gs[s.group].files[s.file].version, d));
    forall i | 0 <= i < |gs|
      ensures after[i] == r[i]
    {
      forall j | 0 <= j < |gs[i].files|
        ensures after[i].files[j] == r[i].files[j]
      {
        if GroupKey(gs[i], ns) == KeyOf(source, ns) && gs[i].files[j].path == d.path {
          assert slots[GroupKey(gs[i], ns)][gs[i].files[j].path] == Slot(i, j);
        }
      }
      assert after[i].files == r[i].files;
    }
  }

  lemma {:induction false} MergeMiss(gs: seq<Group>, ns: string, slots: Slots, source: Source, d: Detail,
                                     before: seq<GroupDetail>, after: seq<GroupDetail>)
    requires SlotsOf(slots, gs, ns) && !HasSlot(slots, KeyOf(source, ns), d.path)
    requires OneEntryMore(gs, ns, source, d, before, after)
    ensures after == before
  {
    forall i | 0 <= i < |gs|
      ensures after[i] == before[i]
    {
      assert after[i].files == before[i].files;
    }
  }

  /** One more old entry changes exactly the entry in its slot. */
  lemma {:induction false} MergeStep(gs: seq<Group>, ns: string, slots: Slots, was: seq<GroupDetail>, source: Source,
                                     fs: seq<Detail>, d: Detail)
    requires SlotsOf(slots, gs, ns)
    ensures var before := RebuildGroups(gs, ns, was + [GroupDetail(source, fs)]);
            var after := RebuildGroups(gs, ns, was + [GroupDetail(source, fs + [d])]);
            if HasSlot(slots, KeyOf(source, ns), d.path) then
              var s := slots[KeyOf(source, ns)][d.path];
              InRange(before, s)
              && after == SetDetail(before, s.group, s.file, CarryOver(before[s.group].files[s.file].version, d))
            else after == before
  {
    var before := RebuildGroups(gs, ns, was + [GroupDetail(source, fs)]);
    var after := RebuildGroups(gs, ns, was + [GroupDetail(source, fs + [d])]);
    EntriesDiffer(gs, ns, was, source, fs, d);
    if HasSlot(slots, KeyOf(source, ns), d.path) {
      MergeHit(gs, ns, slots, source, d, before, after);
      var s := slots[KeyOf(source, ns)][d.path];
      assert before[s.group].files[s.file].version == gs[s.group].files[s.file].version;
    } else {
      MergeMiss(gs, ns, slots, source, d, before, after);
    }
  }

  lemma {:induction false} MergeNoFiles(gs: seq<Group>, ns: string, was: seq<GroupDetail>, source: Source)
    requires forall g :: g in gs ==> g.source.Some?
    ensures RebuildGroups(gs, ns, was + [GroupDetail(source, [])]) == RebuildGroups(gs, ns, was)
  {
    forall i | 0 <= i < |gs|
      ensures Entries(gs[i].files, was + [GroupDetail(source, [])], ns, GroupKey(gs[i], ns)) ==
              Entries(gs[i].files, was, ns, GroupKey(gs[i], ns))
    {
      forall j | 0 <= j < |gs[i].files|
      {
        FindNoFiles(was, source, ns, GroupKey(gs[i], ns), gs[i].files[j].path);
      }
    }
  }

  /** The entries of one old group. */
  method MergeGroup(details: seq<GroupDetail>, slots: Slots, g: GroupDetail, ns: string,
                    ghost gs: seq<Group>, ghost was: seq<GroupDetail>)
    returns (details': seq<GroupDetail>)
    requires SlotsInRange(slots, details)
    ensures SlotsInRange(slots, details')
    ensures SlotsOf(slots, gs, ns) && details == RebuildGroups(gs, ns, was)
            ==> details' == RebuildGroups(gs, ns, was + [g])
  {
    details' := details;
    ghost var exact := SlotsOf(slots, gs, ns) && details == RebuildGroups(gs, ns, was);
    if exact { MergeNoFiles(gs, ns, was, g.source); }
    var key := KeyOf(g.source, ns);
    for j := 0 to |g.files|
      invariant SlotsInRange(slots, details')
      invariant exact ==> details' == RebuildGroups(gs, ns, was + [GroupDetail(g.source, g.files[..j])])
    {
      var f := g.files[j];
      if exact {
        assert g.files[..j + 1] == g.files[..j] + [f];
        MergeStep(gs, ns, slots, was, g.source, g.files[..j], f);
      }
      if HasSlot(slots, key, f.path) {
        var v := slots[key][f.path];
        details' := SetDetail(details', v.group, v.file, CarryOver(details'[v.group].files[v.file].version, f));
      }
    }
    assert g == GroupDetail(g.source, g.files[..|g.files|]);
  }

  /** syncStatus: whether the status has to be written, and the details to write. */
  method SyncStatus(groups: seq<Group>, ns: string, was: seq<GroupDetail>) returns (changed: bool, details: seq<GroupDetail>)
    ensures DistinctSpec(groups, ns) ==> details == Rebuild(groups, ns, was)
    ensures DistinctSpec(groups, ns) && DistinctStatus(was, ns) ==> Carries(groups, ns, was, details)
    ensures changed == !SameFiles(details, was)
  {
    var slots;
    details, slots := BuildList(groups, ns);
    for i := 0 to |was|
      invariant SlotsInRange(slots, details)
      invariant DistinctSpec(groups, ns) ==> details == Rebuild(groups, ns, was[..i])
    {
      assert was[..i + 1] == was[..i] + [was[i]];
      details := MergeGroup(details, slots, was[i], ns, Sourced(groups), was[..i]);
    }
    assert was[..|was|] == was;
    if DistinctSpec(groups, ns) && DistinctStatus(was, ns) { RebuildCarries(groups, ns, was); }
    changed := Differ(details, was);
  }

  /** The field by field comparison of the two lists. */
  method Differ(a: seq<GroupDetail>, b: seq<GroupDetail>) returns (differ: bool)
    ensures differ == !SameFiles(a, b)
  {
    if |a| != |b| {
      return true;
    }
    for i := 0 to |a|
      invariant forall k :: 0 <= k < i ==> a[k].files == b[k].files
    {
      if |a[i].files| != |b[i].files| {
        return true;
      }
      for j := 0 to |a[i].files|
        invariant a[i].files[..j] == b[i].files[..j]
      {
        if a[i].files[j] != b[i].files[j] {
          return true;
        }
      }
      assert a[i].files == a[i].files[..|a[i].files|] && b[i].files == b[i].files[..|b[i].files|];
    }
    return false;
  }
}
