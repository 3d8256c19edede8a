/** The files of a dataset version by source, as the lists that the status holds and as the maps they stand for. */
module FileStatuses {
  import opened FilePhases
  import opened Strings

  datatype Detail = Detail(path: string, phase: FilePhase, error: string)

  datatype Source = Source(namespace: string, name: string)

  datatype FileStatus = FileStatus(kind: string, source: Source, files: seq<Detail>)

  type Files = map<string, Detail>
  type View = map<Source, Files>

  // One source

  function Paths(fs: seq<Detail>): (r: seq<string>)
    ensures |r| == |fs| && forall i :: 0 <= i < |fs| ==> r[i] == fs[i].path
  {
    seq(|fs|, i requires 0 <= i < |fs| => fs[i].path)
  }

  predicate DistinctPaths(fs: seq<Detail>)
  {
    forall i, j :: 0 <= i < j < |fs| ==> fs[i].path != fs[j].path
  }

  /** fs is the map m in some order. */
  ghost predicate Enumerates(fs: seq<Detail>, m: Files)
  {
    && DistinctPaths(fs)
    && (forall i :: 0 <= i < |fs| ==> fs[i].path in m && m[fs[i].path] == fs[i])
    && (forall p <- m :: exists i :: 0 <= i < |fs| && fs[i].path == p)
  }

  /** The later of two entries for one path counts. */
  function Entries(fs: seq<Detail>): Files
  {
    if fs == [] then map[]
    else
      var n := |fs| - 1;
      Entries(fs[..n])[fs[n].path := fs[n]]
  }

  lemma {:induction false} EntriesAreListed(fs: seq<Detail>, p: string)
    ensures p in Entries(fs) <==> exists i :: 0 <= i < |fs| && fs[i].path == p
    ensures p in Entries(fs) ==> Entries(fs)[p].path == p
  {
    if fs != [] {
      var n := |fs| - 1;
      EntriesAreListed(fs[..n], p);
      if i :| 0 <= i < |fs| && fs[i].path == p {
        if i < n { assert fs[..n][i].path == p; }
      }
    }
  }

  lemma {:induction false} EntryAt(fs: seq<Detail>, i: nat)
    requires DistinctPaths(fs) && i < |fs|
    ensures fs[i].path in Entries(fs) && Entries(fs)[fs[i].path] == fs[i]
  {
    var n := |fs| - 1;
    if i < n {
      assert fs[..n][i] == fs[i];
      EntryAt(fs[..n], i);
    }
  }

  lemma {:induction false} EntriesOf(fs: seq<Detail>, m: Files)
    requires Enumerates(fs, m)
    ensures Entries(fs) == m
  {
    forall p ensures p in Entries(fs) <==> p in m { EntriesAreListed(fs, p); }
    forall p | p in m ensures p in Entries(fs) && Entries(fs)[p] == m[p] {
      var i :| 0 <= i < |fs| && fs[i].path == p;
      EntryAt(fs, i);
    }
  }

  /** Sorted by path, a map has one list. */
  lemma {:induction false} OneEnumeration(a: seq<Detail>, b: seq<Detail>, m: Files)
    requires Enumerates(a, m) && Ascend(Paths(a)) && Enumerates(b, m) && Ascend(Paths(b))
    ensures a == b
  {
    EnumeratesPaths(a, m);
    EnumeratesPaths(b, m);
    AscendUnique(Paths(a), Paths(b));
    forall i | 0 <= i < |a| ensures |Paths(a)| == |Paths(b)| && a[i] == b[i] {
      assert Paths(a)[i] == Paths(b)[i];
    }
    assert |a| == |Paths(a)| == |Paths(b)| == |b|;
  }

  lemma {:induction false} EnumeratesPaths(fs: seq<Detail>, m: Files)
    requires Enumerates(fs, m)
    ensures forall p :: p in Paths(fs) <==> p in m
  {
    forall p | p in m ensures p in Paths(fs) {
      var i :| 0 <= i < |fs| && fs[i].path == p;
      assert Paths(fs)[i] == p;
    }
  }

  // All sources

  function Names(ss: seq<FileStatus>): (r: seq<string>)
    ensures |r| == |ss| && forall i :: 0 <= i < |ss| ==> r[i] == ss[i].source.name
  {
    seq(|ss|, i requires 0 <= i < |ss| => ss[i].source.name)
  }

  predicate DistinctSources(ss: seq<FileStatus>)
  {
    forall i, j :: 0 <= i < j < |ss| ==> ss[i].source != ss[j].source
  }

  /** ss is the view v in some order, each source in some order. */
  ghost predicate Lists(ss: seq<FileStatus>, v: View)
  {
    && DistinctSources(ss)
    && (forall i :: 0 <= i < |ss| ==> ss[i].source in v && Enumerates(ss[i].files, v[ss[i].source]))
    && (forall s <- v :: exists i :: 0 <= i < |ss| && ss[i].source == s)
  }

  /** Sources by name, files by path. */
  ghost predicate Sorted(ss: seq<FileStatus>)
  {
    && Ascend(Names(ss))
    && (forall i :: 0 <= i < |ss| ==> Ascend(Paths(ss[i].files)))
  }

  /** What the status says: entries of one source are put together, and the later of two entries counts. */
  function ViewOf(ss: seq<FileStatus>): View
  {
    if ss == [] then map[]
    else
      var n := |ss| - 1;
      var v := ViewOf(ss[..n]);
      var s := ss[n].source;
      v[s := (if s in v then v[s] else map[]) + Entries(ss[n].files)]
  }

  lemma {:induction false} ViewIsListed(ss: seq<FileStatus>, s: Source)
    ensures s in ViewOf(ss) <==> exists i :: 0 <= i < |ss| && ss[i].source == s
  {
    if ss != [] {
      var n := |ss| - 1;
      ViewIsListed(ss[..n], s);
      if i :| 0 <= i < |ss| && ss[i].source == s {
        if i < n { assert ss[..n][i].source == s; }
      }
    }
  }

  lemma {:induction false} ViewAt(ss: seq<FileStatus>, i: nat)
    requires DistinctSources(ss) && i < |ss|
    ensures ss[i].source in ViewOf(ss) && ViewOf(ss)[ss[i].source] == Entries(ss[i].files)
  {
    var n := |ss| - 1;
    if i < n {
      assert ss[..n][i] == ss[i];
      ViewAt(ss[..n], i);
    } else {
      ViewIsListed(ss[..n], ss[n].source);
      assert ss[n].source !in ViewOf(ss[..n]);
    }
  }

  /** The status that lists v says v. */
  lemma {:induction false} ViewOfList(ss: seq<FileStatus>, v: View)
    requires Lists(ss, v)
    ensures ViewOf(ss) == v
  {
    forall s ensures s in ViewOf(ss) <==> s in v { ViewIsListed(ss, s); }
    forall s | s in v ensures s in ViewOf(ss) && ViewOf(ss)[s] == v[s] {
      var i :| 0 <= i < |ss| && ss[i].source == s;
      ViewAt(ss, i);
      EntriesOf(ss[i].files, v[s]);
    }
  }

  lemma {:induction false} ListedNames(a: seq<FileStatus>, b: seq<FileStatus>, v: View)
    requires Lists(a, v) && Lists(b, v)
    ensures forall x <- Names(a) :: x in Names(b)
  {
    forall x | x in Names(a) ensures x in Names(b) {
      var i :| 0 <= i < |a| && Names(a)[i] == x;
      var j :| 0 <= j < |b| && b[j].source == a[i].source;
      assert Names(b)[j] == x;
    }
  }

  lemma {:induction false} PlaceOf(ss: seq<FileStatus>, v: View, s: Source) returns (i: nat)
    requires Lists(ss, v) && s in v
    ensures i < |ss| && ss[i].source == s
  {
    i :| 0 <= i < |ss| && ss[i].source == s;
  }

  lemma {:induction false} SameSource(a: seq<FileStatus>, b: seq<FileStatus>, v: View, i: nat)
    requires Lists(a, v) && Lists(b, v)
    requires Ascend(Names(a)) && Names(a) == Names(b) && |a| == |b| && i < |a|
    ensures a[i].source == b[i].source && a[i].source in v
  {
    var j := PlaceOf(a, v, b[i].source);
    assert Names(a)[j] == Names(b)[i];
    SameName(Names(a), i, j);
  }

  /** Sorted, a view has one list, up to the kinds of the sources. */
  lemma {:induction false} OneList(a: seq<FileStatus>, b: seq<FileStatus>, v: View)
    requires Lists(a, v) && Sorted(a) && Lists(b, v) && Sorted(b)
    ensures |a| == |b| && forall i :: 0 <= i < |a| ==> a[i].source == b[i].source && a[i].files == b[i].files
  {
    ListedNames(a, b, v);
    ListedNames(b, a, v);
    AscendUnique(Names(a), Names(b));
    assert |a| == |Names(a)| == |Names(b)| == |b|;
    forall i | 0 <= i < |a| ensures a[i].source == b[i].source && a[i].files == b[i].files {
      SameSource(a, b, v, i);
      OneEnumeration(a[i].files, b[i].files, v[a[i].source]);
    }
  }

  lemma {:induction false} SameName(s: seq<string>, i: nat, j: nat)
    requires Ascend(s) && i < |s| && j < |s| && s[i] == s[j]
    ensures i == j
  {
    assert i < j ==> Less(s[i], s[j]);
    assert j < i ==> Less(s[j], s[i]);
    LessIrreflexive(s[i]);
  }
}
