/** De-duplication before documents are added to a vector store: queries in windows of 100, early exits, a filter. */
module PgVector {
  import opened Options

  /** Metadata are compared as a whole. */
  datatype Doc = Doc(content: string, meta: string)

  const STEP: nat := 100

  type Table = seq<Doc>

  ghost predicate Stored(table: Table, content: string)
  {
    exists r :: r in table && r.content == content
  }

  function Contents(docs: seq<Doc>): (cs: set<string>)
    ensures forall c :: c in cs <==> exists d :: d in docs && d.content == c
  {
    set d | d in docs :: d.content
  }

  ghost function Found(table: Table, docs: seq<Doc>): set<string>
  {
    set c | c in Contents(docs) && Stored(table, c)
  }

  predicate Keeps(res: map<string, Doc>, d: Doc)
  {
    d.content !in res || res[d.content].meta != d.meta
  }

  function Filter(docs: seq<Doc>, res: map<string, Doc>): (left: seq<Doc>)
    ensures forall d :: d in left <==> d in docs && Keeps(res, d)
  {
    if docs == [] then []
    else Filter(docs[..|docs| - 1], res) + if Keeps(res, docs[|docs| - 1]) then [docs[|docs| - 1]] else []
  }

  /** None of the documents in the first query is stored. */
  ghost predicate FirstWindowEmpty(table: Table, docs: seq<Doc>)
  {
    docs != [] && forall i :: 0 <= i < |docs| && i < STEP ==> !Stored(table, docs[i].content)
  }

  /** The query for the documents from start on is sent, unless an earlier one fails. */
  ghost predicate Sent(table: Table, docs: seq<Doc>, start: nat)
  {
    start < |docs| && start % STEP == 0 && (start == 0 || !FirstWindowEmpty(table, docs))
  }

  /** None of the queries that are sent fails; broken holds the starts of those that would. */
  ghost predicate Answered(table: Table, docs: seq<Doc>, broken: set<nat>)
  {
    forall start <- broken :: !Sent(table, docs, start)
  }

  /** What RemoveExist may leave over. For every content that was found, res holds one of the rows with that content;
      which one depends on the order in which the database returns them. */
  ghost predicate Outcome(table: Table, docs: seq<Doc>, left: seq<Doc>, res: map<string, Doc>)
  {
    if FirstWindowEmpty(table, docs) then left == docs
    else
      && res.Keys == Found(table, docs)
      && (forall c :: c in res ==> res[c] in table && res[c].content == c)
      && left == if |res| == |docs| then [] else Filter(docs, res)
  }

  /** The rows whose content is among those asked for. */
  method Query(table: Table, window: seq<string>) returns (rows: seq<Doc>)
    ensures forall r :: r in rows <==> r in table && r.content in window
  {
    rows := [];
    for i := 0 to |table|
      invariant forall r :: r in rows <==> r in table[..i] && r.content in window
    {
      if table[i].content in window {
        rows := rows + [table[i]];
      }
    }
    assert table[..|table|] == table;
  }

  /** Each row is filed under its content; a later row replaces an earlier one. */
  method Collect(res: map<string, Doc>, rows: seq<Doc>) returns (res': map<string, Doc>)
    requires forall c :: c in res ==> res[c].content == c
    ensures forall c :: c in res' <==> c in res || exists r :: r in rows && r.content == c
    ensures forall c :: c in res' ==> res'[c].content == c && ((c in res && res'[c] == res[c]) || res'[c] in rows)
  {
    res' := res;
    for i := 0 to |rows|
      invariant forall c :: c in res' <==> c in res || exists r :: r in rows[..i] && r.content == c
      invariant forall c :: c in res' ==> res'[c].content == c && ((c in res && res'[c] == res[c]) || res'[c] in rows)
    {
      assert rows[..i + 1] == rows[..i] + [rows[i]];
      res' := res'[rows[i].content := rows[i]];
    }
    assert rows[..|rows|] == rows;
  }

  ghost predicate Scanned(table: Table, docs: seq<Doc>, n: nat, res: map<string, Doc>)
    requires n <= |docs|
  {
    && res.Keys == Found(table, docs[..n])
    && (forall c :: c in res ==> res[c] in table && res[c].content == c)
  }

  lemma {:induction false} ScanWindow(table: Table, docs: seq<Doc>, start: nat, end: nat, window: seq<string>,
                                      res: map<string, Doc>, rows: seq<Doc>, res': map<string, Doc>)
    requires start <= end <= |docs| && Scanned(table, docs, start, res)
    requires |window| == end - start && forall i :: 0 <= i < |window| ==> window[i] == docs[start + i].content
    requires forall r :: r in rows <==> r in table && r.content in window
    requires forall c :: c in res' <==> c in res || exists r :: r in rows && r.content == c
    requires forall c :: c in res' ==> res'[c].content == c && ((c in res && res'[c] == res[c]) || res'[c] in rows)
    ensures Scanned(table, docs, end, res')
  {
    forall c
      ensures c in res' <==> c in Found(table, docs[..end])
    {
      if c in res' {
        if c in res {
          var d :| d in docs[..start] && d.content == c;
          assert d in docs[..end];
        } else {
          var r :| r in rows && r.content == c;
          var i :| 0 <= i < |window| && window[i] == c;
          assert docs[start + i] in docs[..end];
        }
      }
      if c in Found(table, docs[..end]) {
        var d :| d in docs[..end] && d.content == c;
        var j :| 0 <= j < end && docs[j] == d;
        if j < start {
          assert docs[j] in docs[..start];
        } else {
          assert window[j - start] == c;
          var r :| r in table && r.content == c;
          assert r in rows;
        }
      }
    }
  }

  class PGVectorStore {
    /** The rows of the collection, if there is one. */
    var collection: Option<Table>

    constructor (collection: Option<Table>)
      ensures this.collection == collection
    {
      this.collection := collection;
    }

    /** A missing collection is an error of the first query; broken tells which of the later queries would fail. */
    method RemoveExist(docs: seq<Doc>, broken: set<nat>) returns (ok: bool, left: seq<Doc>, ghost res: map<string, Doc>)
      ensures ok <==> collection.Some? && Answered(collection.value, docs, broken)
      ensures ok ==> Outcome(collection.value, docs, left, res)
    {
      res := map[];
      if collection.None? {
        return false, docs, res;
      }
      ok, left, res := RemoveStored(collection.value, docs, broken);
    }

    method RemoveStored(table: Table, docs: seq<Doc>, broken: set<nat>)
      returns (ok: bool, left: seq<Doc>, ghost rows: map<string, Doc>)
      ensures ok <==> Answered(table, docs, broken)
      ensures ok ==> Outcome(table, docs, left, rows)
    {
      var res, none, failed := QueryWindows(table, docs, broken);
      ok, rows := !failed, res;
      assert docs[..|docs|] == docs;
      if failed {
        left := [];
      } else if none {
        left := docs;
      } else if |res| == |docs| {
        left := [];
      } else {
        left := FilterOut(docs, res);
      }
    }

    /** One query for every 100 documents; the loop is left when the first one finds nothing, or when one fails. */
    method QueryWindows(table: Table, docs: seq<Doc>, broken: set<nat>)
      returns (res: map<string, Doc>, none: bool, failed: bool)
      ensures failed <==> !Answered(table, docs, broken)
      ensures !failed ==> (none <==> FirstWindowEmpty(table, docs))
      ensures !failed && !none ==> Scanned(table, docs, |docs|, res)
    {
      var contents := seq(|docs|, i requires 0 <= i < |docs| => docs[i].content);
      var start := 0;
      res, none, failed := map[], false, false;
      assert docs[..0] == [];
      while start < |contents| && !none && !failed
        invariant Windows(table, docs, broken, start, res, none, failed)
        decreases |docs| - start, !none && !failed
      {
        var end := if start + STEP > |contents| then |contents| else start + STEP;
        if start in broken {
          failed := true;
        } else {
          res := QueryWindow(table, docs, start, end, contents[start..end], res, broken);
          if |res| == 0 { none := true; } else { start := end; }
        }
      }
      AllAnswered(table, docs, broken, start, res, none, failed);
    }

    /** The queries up to start are answered, or the first one found nothing, or the one at start failed. */
    ghost predicate Windows(table: Table, docs: seq<Doc>, broken: set<nat>, start: nat, res: map<string, Doc>, none: bool,
                            failed: bool)
    {
      && start <= |docs| && (start < |docs| ==> start % STEP == 0)
      && (failed ==> !none && start in broken && Sent(table, docs, start))
      && if none then FirstWindowEmpty(table, docs) && 0 !in broken
         else
           && Scanned(table, docs, start, res) && Passed(docs, broken, start)
           && if start == 0 then res == map[] else res != map[] && !FirstWindowEmpty(table, docs)
    }

    lemma AllAnswered(table: Table, docs: seq<Doc>, broken: set<nat>, start: nat, res: map<string, Doc>, none: bool,
                      failed: bool)
      requires Windows(table, docs, broken, start, res, none, failed) && (start == |docs| || none || failed)
      ensures failed <==> !Answered(table, docs, broken)
      ensures !failed ==> (none <==> FirstWindowEmpty(table, docs))
    {
    }

    /** No query up to here was broken. */
    ghost predicate Passed(docs: seq<Doc>, broken: set<nat>, n: nat)
    {
      forall start <- broken :: start < n && start < |docs| ==> start % STEP != 0
    }

    lemma OneMorePassed(docs: seq<Doc>, broken: set<nat>, start: nat, end: nat)
      requires start % STEP == 0 && start < end <= |docs| && end <= start + STEP
      requires start !in broken && Passed(docs, broken, start)
      ensures Passed(docs, broken, end)
    {
    }

    method QueryWindow(table: Table, ghost docs: seq<Doc>, ghost start: nat, ghost end: nat, window: seq<string>,
                       res: map<string, Doc>, ghost broken: set<nat>) returns (res': map<string, Doc>)
      requires start < |docs| && Windows(table, docs, broken, start, res, false, false) && start !in broken
      requires end == if start + STEP > |docs| then |docs| else start + STEP
      requires |window| == end - start && forall i :: 0 <= i < |window| ==> window[i] == docs[start + i].content
      ensures if |res'| == 0 then Windows(table, docs, broken, start, res', true, false)
              else Windows(table, docs, broken, end, res', false, false)
    {
      res' := ScanOne(table, docs, start, end, window, res);
      OneMorePassed(docs, broken, start, end);
      WindowDone(table, docs, broken, start, end, res, res');
    }

    method ScanOne(table: Table, ghost docs: seq<Doc>, ghost start: nat, ghost end: nat, window: seq<string>,
                   res: map<string, Doc>) returns (res': map<string, Doc>)
      requires start <= end <= |docs| && Scanned(table, docs, start, res)
      requires |window| == end - start && forall i :: 0 <= i < |window| ==> window[i] == docs[start + i].content
      ensures Scanned(table, docs, end, res') && (res != map[] ==> res' != map[])
    {
      var found := Query(table, window);
      res' := Collect(res, found);
      ScanWindow(table, docs, start, end, window, res, found, res');
      assert forall c :: c in res ==> c in res';
    }

    lemma WindowDone(table: Table, docs: seq<Doc>, broken: set<nat>, start: nat, end: nat, res: map<string, Doc>,
                     res': map<string, Doc>)
      requires start < |docs| && Windows(table, docs, broken, start, res, false, false) && start !in broken
      requires end == if start + STEP > |docs| then |docs| else start + STEP
      requires Scanned(table, docs, end, res') && (res != map[] ==> res' != map[]) && Passed(docs, broken, end)
      ensures if |res'| == 0 then Windows(table, docs, broken, start, res', true, false)
              else Windows(table, docs, broken, end, res', false, false)
    {
      if |res'| == 0 {
        NothingFound(table, docs, end, res');
      } else if start == 0 {
        AnythingFound(table, docs, end, res');
      }
    }

    method FilterOut(docs: seq<Doc>, res: map<string, Doc>) returns (left: seq<Doc>)
      ensures left == Filter(docs, res)
    {
      left := [];
      for i := 0 to |docs|
        invariant left == Filter(docs[..i], res)
      {
        assert docs[..i + 1][..i] == docs[..i];
        if docs[i].content in res && res[docs[i].content].meta == docs[i].meta {
          continue;
        }
        left := left + [docs[i]];
      }
      assert docs[..|docs|] == docs;
    }

    /** failure is the number of documents after which the insertion fails, if it does. */
    method AddDocuments(docs: seq<Doc>, broken: set<nat>, failure: Option<nat>)
      returns (ok: bool, ghost left: seq<Doc>, ghost res: map<string, Doc>)
      modifies this
      ensures var known := old(collection).Some? && Answered(old(collection).value, docs, broken);
              && (ok <==> known && failure == None)
              && (known ==> Outcome(old(collection).value, docs, left, res)
                            && collection == Some(old(collection).value + Taken(left, failure)))
              && (!known ==> collection == old(collection))
    {
      var rest;
      ok, rest, res := RemoveExist(docs, broken);
      left := rest;
      if ok {
        collection := Some(collection.value + Taken(rest, failure));
        ok := failure == None;
      }
    }
  }

  /** The documents that reach the store. */
  function Taken(docs: seq<Doc>, failure: Option<nat>): seq<Doc>
  {
    if failure.None? || failure.value >= |docs| then docs else docs[..failure.value]
  }

  lemma {:induction false} TakenIsPrefix(docs: seq<Doc>, failure: Option<nat>)
    ensures Taken(docs, failure) <= docs
    ensures |Taken(docs, failure)| == if failure.Some? && failure.value < |docs| then failure.value else |docs|
  {
  }

  lemma {:induction false} NothingFound(table: Table, docs: seq<Doc>, end: nat, res: map<string, Doc>)
    requires 0 < end <= |docs| && (end == STEP || end == |docs|) && Scanned(table, docs, end, res) && res == map[]
    ensures FirstWindowEmpty(table, docs)
  {
    forall i | 0 <= i < |docs| && i < STEP
      ensures !Stored(table, docs[i].content)
    {
      assert i < end && docs[i] in docs[..end];
      assert docs[i].content in Contents(docs[..end]) && docs[i].content !in Found(table, docs[..end]);
    }
  }

  lemma {:induction false} AnythingFound(table: Table, docs: seq<Doc>, end: nat, res: map<string, Doc>)
    requires 0 < end <= |docs| && end <= STEP && Scanned(table, docs, end, res) && res != map[]
    ensures !FirstWindowEmpty(table, docs)
  {
    var c :| c in res;
    assert c in Found(table, docs[..end]);
    var d :| d in docs[..end] && d.content == c;
    var i :| 0 <= i < end && docs[i] == d;
    assert Stored(table, docs[i].content);
  }

  // ----- What is left over

  /** The documents at the places marked true. */
  function Marked(docs: seq<Doc>, keep: seq<bool>): seq<Doc>
    requires |keep| == |docs|
  {
    if docs == [] then []
    else Marked(docs[..|docs| - 1], keep[..|docs| - 1]) + if keep[|docs| - 1] then [docs[|docs| - 1]] else []
  }

  function Marks(docs: seq<Doc>, res: map<string, Doc>): seq<bool>
  {
    seq(|docs|, i requires 0 <= i < |docs| => Keeps(res, docs[i]))
  }

  lemma {:induction false} FilterIsMarked(docs: seq<Doc>, res: map<string, Doc>)
    ensures Filter(docs, res) == Marked(docs, Marks(docs, res))
  {
    if docs != [] {
      FilterIsMarked(docs[..|docs| - 1], res);
      assert Marks(docs, res)[..|docs| - 1] == Marks(docs[..|docs| - 1], res);
    }
  }

  lemma {:induction false} FilterNothing(docs: seq<Doc>, res: map<string, Doc>)
    requires forall d :: d in docs ==> !Keeps(res, d)
    ensures Filter(docs, res) == []
  {
    if docs != [] { FilterNothing(docs[..|docs| - 1], res); }
  }

  lemma {:induction false} MarkedAll(docs: seq<Doc>, b: bool)
    ensures Marked(docs, seq(|docs|, i => b)) == if b then docs else []
  {
    if docs != [] {
      MarkedAll(docs[..|docs| - 1], b);
      assert seq(|docs|, i => b)[..|docs| - 1] == seq(|docs| - 1, i => b);
    }
  }

  lemma {:induction false} ContentsSnoc(docs: seq<Doc>)
    requires docs != []
    ensures Contents(docs) == Contents(docs[..|docs| - 1]) + {docs[|docs| - 1].content}
  {
    assert docs == docs[..|docs| - 1] + [docs[|docs| - 1]];
  }

  ghost predicate DistinctContents(docs: seq<Doc>)
  {
    forall i, j :: 0 <= i < j < |docs| ==> docs[i].content != docs[j].content
  }

  /** The last content is new exactly if no earlier document has it. */
  lemma {:induction false} LastIsNew(docs: seq<Doc>)
    requires docs != []
    ensures docs[|docs| - 1].content in Contents(docs[..|docs| - 1]) <==>
            exists i :: 0 <= i < |docs| - 1 && docs[i].content == docs[|docs| - 1].content
  {
    var before, c := docs[..|docs| - 1], docs[|docs| - 1].content;
    if c in Contents(before) {
      var d :| d in before && d.content == c;
      var i :| 0 <= i < |before| && before[i] == d;
      assert docs[i].content == c;
    }
    if i :| 0 <= i < |docs| - 1 && docs[i].content == c {
      assert before[i] in before;
    }
  }

  lemma {:induction false} DistinctSnoc(docs: seq<Doc>)
    requires docs != []
    ensures DistinctContents(docs) <==>
            DistinctContents(docs[..|docs| - 1]) && docs[|docs| - 1].content !in Contents(docs[..|docs| - 1])
  {
    LastIsNew(docs);
    var before := docs[..|docs| - 1];
    assert forall i :: 0 <= i < |before| ==> before[i] == docs[i];
  }

  /** There are as many contents as documents exactly if no content comes twice. */
  lemma {:induction false} ContentsCount(docs: seq<Doc>)
    ensures |Contents(docs)| <= |docs|
    ensures |Contents(docs)| == |docs| <==> DistinctContents(docs)
  {
    if docs != [] {
      ContentsCount(docs[..|docs| - 1]);
      ContentsSnoc(docs);
      DistinctSnoc(docs);
      assert docs[|docs| - 1].content in Contents(docs[..|docs| - 1]) ==> Contents(docs) == Contents(docs[..|docs| - 1]);
    }
  }

  lemma {:induction false} SubsetOfSameSize(a: set<string>, b: set<string>)
    requires a <= b && |a| >= |b|
    ensures a == b
  {
    if x :| x in b && x !in a {
      SubsetSize(a, b - {x});
    }
  }

  lemma {:induction false} SubsetSize(a: set<string>, b: set<string>)
    requires a <= b
    ensures |a| <= |b|
  {
    if a != {} {
      var x :| x in a;
      SubsetSize(a - {x}, b - {x});
    }
  }

  /** When as many contents were found as there are documents, every document is stored and no content comes twice. */
  lemma {:induction false} AllFound(table: Table, docs: seq<Doc>)
    requires |Found(table, docs)| == |docs|
    ensures Found(table, docs) == Contents(docs) && DistinctContents(docs)
  {
    ContentsCount(docs);
    SubsetSize(Found(table, docs), Contents(docs));
    SubsetOfSameSize(Found(table, docs), Contents(docs));
  }

  /** What is left over is the input with some documents left out, and each of those has its content stored. */
  lemma {:induction false} DroppedAreStored(table: Table, docs: seq<Doc>, left: seq<Doc>, res: map<string, Doc>)
    returns (keep: seq<bool>)
    requires Outcome(table, docs, left, res)
    ensures |keep| == |docs| && left == Marked(docs, keep)
    ensures forall i :: 0 <= i < |docs| && !keep[i] ==> Stored(table, docs[i].content)
  {
    if FirstWindowEmpty(table, docs) {
      keep := seq(|docs|, i => true);
      MarkedAll(docs, true);
    } else if |res| == |docs| {
      keep := seq(|docs|, i => false);
      MarkedAll(docs, false);
      assert |res.Keys| == |res|;
      AllFound(table, docs);
      forall i | 0 <= i < |docs|
        ensures Stored(table, docs[i].content)
      {
        assert docs[i].content in Contents(docs);
      }
    } else {
      keep := Marks(docs, res);
      FilterIsMarked(docs, res);
      forall i | 0 <= i < |docs| && !keep[i]
        ensures Stored(table, docs[i].content)
      {
        assert docs[i].content in res.Keys;
      }
    }
  }

  // ----- Adding the same documents again

  ghost predicate AllStored(table: Table, docs: seq<Doc>)
  {
    forall d :: d in docs ==> Stored(table, d.content)
  }

  lemma {:induction false} MarkedHas(docs: seq<Doc>, keep: seq<bool>, i: nat)
    requires |keep| == |docs| && i < |docs| && keep[i]
    ensures docs[i] in Marked(docs, keep)
  {
    if i < |docs| - 1 {
      MarkedHas(docs[..|docs| - 1], keep[..|docs| - 1], i);
    }
  }

  /** After a list has been added all its contents are stored. */
  lemma {:induction false} AddedAreStored(table: Table, docs: seq<Doc>, left: seq<Doc>, res: map<string, Doc>)
    requires Outcome(table, docs, left, res)
    ensures AllStored(table + left, docs)
  {
    var keep := DroppedAreStored(table, docs, left, res);
    forall d | d in docs
      ensures Stored(table + left, d.content)
    {
      var i :| 0 <= i < |docs| && docs[i] == d;
      if keep[i] {
        MarkedHas(docs, keep, i);
        assert d in table + left;
      } else {
        var r :| r in table && r.content == d.content;
        assert r in table + left;
      }
    }
  }

  lemma {:induction false} StoredOutcome(table: Table, docs: seq<Doc>, left: seq<Doc>, res: map<string, Doc>)
    requires AllStored(table, docs)
    ensures !FirstWindowEmpty(table, docs) && Found(table, docs) == Contents(docs)
    ensures Outcome(table, docs, left, res) && DistinctContents(docs) ==> left == []
  {
    if docs != [] { assert docs[0] in docs; }
    forall c | c in Contents(docs)
      ensures Stored(table, c)
    {
      var d :| d in docs && d.content == c;
    }
    assert |res.Keys| == |res|;
    ContentsCount(docs);
  }

  /**
   If one of the first hundred documents has its content stored, then every document of which all stored rows with its
   content have its metadata, and there is one, is dropped.
   */
  lemma {:induction false} KnownIsDropped(table: Table, docs: seq<Doc>, left: seq<Doc>, res: map<string, Doc>, d: Doc, i: nat)
    requires Outcome(table, docs, left, res)
    requires i < |docs| && i < 100 && Stored(table, docs[i].content)
    requires d in docs && Stored(table, d.content) && forall r :: r in table && r.content == d.content ==> r.meta == d.meta
    ensures d !in left
  {
    assert d.content in Found(table, docs);
  }

  /** If none of them has, everything is left over, also what is stored. */
  lemma {:induction false} NothingIsDropped(table: Table, docs: seq<Doc>, left: seq<Doc>, res: map<string, Doc>)
    requires Outcome(table, docs, left, res) && docs != []
    requires forall i :: 0 <= i < |docs| && i < 100 ==> !Stored(table, docs[i].content)
    ensures left == docs
  {
    assert forall i :: 0 <= i < |docs| && i < STEP ==> !Stored(table, docs[i].content);
  }

  /** For documents with distinct contents, in any number, a second AddDocuments of the same list adds nothing. */
  lemma {:induction false} SecondAddIsEmpty(table: Table, docs: seq<Doc>, left: seq<Doc>, res: map<string, Doc>,
                                            left': seq<Doc>, res': map<string, Doc>)
    requires DistinctContents(docs)
    requires Outcome(table, docs, left, res) && Outcome(table + left, docs, left', res')
    ensures left' == []
  {
    AddedAreStored(table, docs, left, res);
    StoredOutcome(table + left, docs, left', res');
  }

  /** All stored rows with the content of a document have its metadata. */
  ghost predicate Uniform(table: Table, docs: seq<Doc>)
  {
    forall d, r :: d in docs && r in table && r.content == d.content ==> r.meta == d.meta
  }

  /** Without distinct contents a repeated add can go on adding. Exactly when it adds nothing whatever order the
      database returns the rows in: the contents are distinct or the stored metadata agree with the documents. */
  lemma {:induction false} AddsNothingIff(table: Table, docs: seq<Doc>)
    requires AllStored(table, docs)
    ensures (forall left, res :: Outcome(table, docs, left, res) ==> left == []) <==>
            DistinctContents(docs) || Uniform(table, docs)
  {
    if DistinctContents(docs) || Uniform(table, docs) {
      forall left, res | Outcome(table, docs, left, res)
        ensures left == []
      {
        StoredOutcome(table, docs, left, res);
        if !DistinctContents(docs) {
          forall d | d in docs
            ensures !Keeps(res, d)
          {
            assert d.content in Contents(docs);
          }
          FilterNothing(docs, res);
        }
      }
    } else {
      var d, r :| d in docs && r in table && r.content == d.content && r.meta != d.meta;
      var res := RowsWith(table, docs, r);
      var left := Filter(docs, res);
      StoredOutcome(table, docs, left, res);
      ContentsCount(docs);
      assert |res.Keys| == |res|;
      assert Outcome(table, docs, left, res);
      assert d in left;
    }
  }

  /** A choice of rows that prefers r for its content. */
  lemma {:induction false} RowsWith(table: Table, docs: seq<Doc>, r: Doc) returns (res: map<string, Doc>)
    requires AllStored(table, docs) && r in table && r.content in Contents(docs)
    ensures res.Keys == Contents(docs) && res[r.content] == r
    ensures forall c :: c in res ==> res[c] in table && res[c].content == c
  {
    res := map c | c in Contents(docs) :: if c == r.content then r else RowFor(table, docs, c);
  }

  ghost function RowFor(table: Table, docs: seq<Doc>, c: string): (r: Doc)
    requires AllStored(table, docs) && c in Contents(docs)
    ensures r in table && r.content == c
  {
    var d :| d in docs && d.content == c;
    assert Stored(table, d.content);
    var r :| r in table && r.content == c; r
  }
}
