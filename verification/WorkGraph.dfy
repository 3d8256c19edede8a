/** The worklist that Application.Run and validateNodes share, as a transition system over node names. */
module WorkGraph {

  // An entry is taken from the front of the list. An unvisited entry with an unvisited predecessor goes back to the
  // end; every other entry is visited (once) and all its successors are appended, visited or not. Nothing in the
  // program excludes cycles, so whether the list ever empties is a theorem here, not an assumption.

  type Name = string

  /** The graph that Application.Init leaves behind: both edge lists of every node and the starting nodes. */
  datatype Graph = Graph(nodes: set<Name>, next: map<Name, seq<Name>>, prev: map<Name, seq<Name>>, starting: seq<Name>)

  function Next(g: Graph, a: Name): seq<Name>
  {
    if a in g.next then g.next[a] else []
  }

  function Prev(g: Graph, b: Name): seq<Name>
  {
    if b in g.prev then g.prev[b] else []
  }

  ghost predicate Edge(g: Graph, a: Name, b: Name)
  {
    b in Next(g, a)
  }

  /** What Init guarantees: edges stay inside the graph, prev is the converse of next, and every node
      without predecessors is a starting node. */
  ghost predicate WellFormed(g: Graph)
  {
    && g.next.Keys == g.nodes
    && g.prev.Keys == g.nodes
    && (forall a, b :: Edge(g, a, b) ==> b in g.nodes && a in Prev(g, b))
    && (forall a, b :: a in Prev(g, b) ==> Edge(g, a, b))
    && (forall s :: s in g.starting ==> s in g.nodes)
    && (forall n :: n in g.nodes && Prev(g, n) == [] ==> n in g.starting)
  }

  // ----- Paths, reachability and cycles

  ghost predicate IsPath(g: Graph, p: seq<Name>)
  {
    && 0 < |p|
    && p[0] in g.nodes
    && forall i :: 0 <= i < |p| - 1 ==> Edge(g, p[i], p[i + 1])
  }

  ghost predicate Reachable(g: Graph, v: Name)
  {
    exists p :: IsPath(g, p) && p[0] in g.starting && p[|p| - 1] == v
  }

  /** The path starts by going round a directed cycle and then leads to its last node. */
  ghost predicate CyclesFirst(g: Graph, p: seq<Name>, k: int)
  {
    IsPath(g, p) && 0 < k < |p| && p[0] == p[k]
  }

  /** v lies on a directed cycle or downstream of one. */
  ghost predicate Tangled(g: Graph, v: Name)
  {
    exists p, k :: CyclesFirst(g, p, k) && p[|p| - 1] == v
  }

  /** No node that can be reached from the starting nodes lies on, or downstream of, a directed cycle. */
  ghost predicate Unobstructed(g: Graph)
  {
    forall v :: Reachable(g, v) ==> !Tangled(g, v)
  }

  // ----- The worklist

  /** queue: the entries not yet taken; visited: the visited nodes in the order in which they were run. */
  datatype Work = Work(queue: seq<Name>, visited: seq<Name>)

  function Begin(g: Graph): Work
  {
    Work(g.starting, [])
  }

  predicate Ready(g: Graph, w: Work, e: Name)
  {
    forall p :: p in Prev(g, e) ==> p in w.visited
  }

  ghost predicate InGraph(g: Graph, w: Work)
  {
    && (forall e :: e in w.queue ==> e in g.nodes)
    && (forall e :: e in w.visited ==> e in g.nodes)
  }

  function Step(g: Graph, w: Work): Work
    requires w.queue != []
  {
    var e := w.queue[0];
    if e in w.visited then Work(w.queue[1..] + Next(g, e), w.visited)
    else if !Ready(g, w, e) then Work(w.queue[1..] + [e], w.visited)
    else Work(w.queue[1..] + Next(g, e), w.visited + [e])
  }

  ghost predicate Distinct(s: seq<Name>)
  {
    forall i, j :: 0 <= i < j < |s| ==> s[i] != s[j]
  }

  /** Every visited node was visited after all its predecessors. */
  ghost predicate Topological(g: Graph, log: seq<Name>)
  {
    forall i, p :: 0 <= i < |log| && p in Prev(g, log[i]) ==> p in log[..i]
  }

  /** No obligation is lost: starting nodes and successors of visited nodes are visited or queued. */
  ghost predicate Frontier(g: Graph, w: Work)
  {
    && (forall s :: s in g.starting ==> s in w.visited || s in w.queue)
    && (forall a, b :: a in w.visited && Edge(g, a, b) ==> b in w.visited || b in w.queue)
  }

  ghost predicate Inv(g: Graph, w: Work)
  {
    && WellFormed(g)
    && InGraph(g, w)
    && Distinct(w.visited)
    && Topological(g, w.visited)
    && Frontier(g, w)
    && (forall e :: e in w.queue || e in w.visited ==> Reachable(g, e))
  }

  lemma {:induction false} BeginInv(g: Graph)
    requires WellFormed(g)
    ensures Inv(g, Begin(g))
  {
    forall e | e in g.starting
      ensures Reachable(g, e)
    {
      assert IsPath(g, [e]);
    }
  }

  lemma {:induction false} ReachableNext(g: Graph, a: Name, b: Name)
    requires WellFormed(g) && Reachable(g, a) && Edge(g, a, b)
    ensures Reachable(g, b)
  {
    var p :| IsPath(g, p) && p[0] in g.starting && p[|p| - 1] == a;
    assert IsPath(g, p + [b]);
  }

  lemma {:induction false} StepInv(g: Graph, w: Work)
    requires Inv(g, w) && w.queue != []
    ensures Inv(g, Step(g, w))
  {
    var e := w.queue[0];
    var v := Step(g, w);
    assert forall x :: x in w.queue <==> x == e || x in w.queue[1..];
    forall b | b in Next(g, e)
      ensures Reachable(g, b) && b in g.nodes
    {
      assert Edge(g, e, b);
      ReachableNext(g, e, b);
    }
    if v.visited != w.visited {
      assert v.visited[..|w.visited|] == w.visited;
      forall i, p | 0 <= i < |v.visited| && p in Prev(g, v.visited[i])
        ensures p in v.visited[..i]
      {
        if i < |w.visited| {
          assert v.visited[..i] == w.visited[..i];
        }
      }
    }
  }

  /** The state after n turns of the loop; an empty list stays empty. */
  ghost function At(g: Graph, n: nat): Work
  {
    if n == 0 then Begin(g)
    else
      var w := At(g, n - 1);
      if w.queue == [] then w else Step(g, w)
  }

  lemma {:induction false} AtInv(g: Graph, n: nat)
    requires WellFormed(g)
    ensures Inv(g, At(g, n))
  {
    if n == 0 {
      BeginInv(g);
    } else {
      AtInv(g, n - 1);
      if At(g, n - 1).queue != [] {
        StepInv(g, At(g, n - 1));
      }
    }
  }

  /** The loop ends: some number of turns empties the list. */
  ghost predicate Drains(g: Graph)
  {
    exists n: nat :: At(g, n).queue == []
  }

  // ----- A visited node is never tangled

  lemma {:induction false} PathBackThroughLog(g: Graph, w: Work, p: seq<Name>, i: nat) returns (m: nat)
    requires Inv(g, w) && IsPath(g, p)
    requires i < |w.visited| && w.visited[i] == p[|p| - 1]
    ensures m <= i - (|p| - 1) && w.visited[m] == p[0]
    decreases |p|
  {
    if |p| == 1 {
      m := i;
    } else {
      var q := p[..|p| - 1];
      assert Edge(g, q[|q| - 1], p[|p| - 1]);
      assert q[|q| - 1] in w.visited[..i];
      var j :| 0 <= j < i && w.visited[j] == q[|q| - 1];
      m := PathBackThroughLog(g, w, q, j);
    }
  }

  lemma {:induction false} VisitedUntangled(g: Graph, w: Work, v: Name)
    requires Inv(g, w) && v in w.visited
    ensures !Tangled(g, v)
  {
    if Tangled(g, v) {
      var p, k :| CyclesFirst(g, p, k) && p[|p| - 1] == v;
      var i :| 0 <= i < |w.visited| && w.visited[i] == v;
      var tail := p[k..];
      assert IsPath(g, tail) by {
        if k < |p| - 1 { assert Edge(g, p[k], p[k + 1]); }
      }
      var m := PathBackThroughLog(g, w, tail, i);
      var around := p[..k + 1];
      assert IsPath(g, around);
      var m' := PathBackThroughLog(g, w, around, m);
    }
  }

  // ----- An unvisited node that is not tangled has a ready entry in the list

  lemma {:induction false} DistinctFits(s: seq<Name>, nodes: set<Name>)
    requires Distinct(s) && forall x :: x in s ==> x in nodes
    ensures |s| <= |nodes|
    decreases |s|
  {
    if s != [] {
      var x := s[|s| - 1];
      var t := s[..|s| - 1];
      forall y | y in t
        ensures y in nodes - {x}
      {
      }
      DistinctFits(t, nodes - {x});
    }
  }

  lemma {:induction false} PathInNodes(g: Graph, p: seq<Name>)
    requires WellFormed(g) && IsPath(g, p)
    ensures forall x :: x in p ==> x in g.nodes
  {
    forall i | 0 <= i < |p|
      ensures p[i] in g.nodes
    {
      if i > 0 {
        assert Edge(g, p[i - 1], p[(i - 1) + 1]);
      }
    }
  }

  lemma {:induction false} PathExtends(g: Graph, q: Name, p: seq<Name>)
    requires WellFormed(g) && IsPath(g, p) && Edge(g, q, p[0])
    ensures IsPath(g, [q] + p)
  {
    var p' := [q] + p;
    forall i | 0 <= i < |p'| - 1
      ensures Edge(g, p'[i], p'[i + 1])
    {
      if i > 0 { assert Edge(g, p[i - 1], p[(i - 1) + 1]); }
    }
  }

  /** Going backwards to a node of the path again closes a cycle. */
  lemma {:induction false} BackwardsCloses(g: Graph, q: Name, p: seq<Name>)
    requires WellFormed(g) && IsPath(g, p) && Edge(g, q, p[0]) && q in p
    ensures Tangled(g, p[|p| - 1])
  {
    PathExtends(g, q, p);
    var k :| 0 <= k < |p| && p[k] == q;
    assert CyclesFirst(g, [q] + p, k + 1);
  }

  /** Going back from an untangled node extends the path by a new node. */
  lemma {:induction false} BackwardsIsNew(g: Graph, q: Name, p: seq<Name>)
    requires WellFormed(g) && IsPath(g, p) && Distinct(p) && Edge(g, q, p[0])
    requires !Tangled(g, p[|p| - 1])
    ensures IsPath(g, [q] + p) && Distinct([q] + p) && |p| < |g.nodes|
  {
    if q in p {
      BackwardsCloses(g, q, p);
    }
    PathExtends(g, q, p);
    PathInNodes(g, [q] + p);
    DistinctFits([q] + p, g.nodes);
  }

  /** A ready unvisited node is queued: a starting node is, and so is a successor of a visited node. */
  lemma {:induction false} ReadyIsQueued(g: Graph, w: Work, v: Name)
    requires Inv(g, w) && v in g.nodes && v !in w.visited && Ready(g, w, v)
    ensures v in w.queue
  {
    if Prev(g, v) != [] {
      var q := Prev(g, v)[0];
      assert q in w.visited && Edge(g, q, v);
    }
  }

  /** Walk backwards over unvisited predecessors; the walk cannot repeat a node, so it meets a ready one. */
  lemma {:induction false} WalkBack(g: Graph, w: Work, p: seq<Name>) returns (r: Name)
    requires WellFormed(g) && IsPath(g, p) && Distinct(p)
    requires p[0] !in w.visited && !Tangled(g, p[|p| - 1])
    ensures r in g.nodes && r !in w.visited && Ready(g, w, r)
    decreases |g.nodes| - |p|
  {
    if Ready(g, w, p[0]) {
      r := p[0];
    } else {
      var q :| q in Prev(g, p[0]) && q !in w.visited;
      assert Edge(g, q, p[0]);
      BackwardsIsNew(g, q, p);
      r := WalkBack(g, w, [q] + p);
    }
  }

  lemma {:induction false} FindReady(g: Graph, w: Work, v: Name) returns (r: Name)
    requires Inv(g, w) && v in g.nodes && v !in w.visited && !Tangled(g, v)
    ensures r in w.queue && r !in w.visited && Ready(g, w, r)
  {
    assert IsPath(g, [v]);
    r := WalkBack(g, w, [v]);
    ReadyIsQueued(g, w, r);
  }

  // ----- Termination measure

  ghost predicate IsReadyEntry(g: Graph, w: Work, i: int)
  {
    0 <= i < |w.queue| && w.queue[i] !in w.visited && Ready(g, w, w.queue[i])
  }

  ghost predicate HasReady(g: Graph, w: Work)
  {
    exists i :: IsReadyEntry(g, w, i)
  }

  ghost function FirstReadyFrom(g: Graph, w: Work, i: nat): (r: nat)
    requires i <= |w.queue|
    ensures r <= |w.queue|
    ensures (exists j :: i <= j && IsReadyEntry(g, w, j)) ==> i <= r && IsReadyEntry(g, w, r)
    ensures forall j :: i <= j && IsReadyEntry(g, w, j) ==> r <= j
    decreases |w.queue| - i
  {
    if i == |w.queue| || IsReadyEntry(g, w, i) then i else FirstReadyFrom(g, w, i + 1)
  }

  /** An unready entry is rotated away, or a visited one replaced: the first ready entry moves one forward. */
  lemma {:induction false} FirstReadyMoves(g: Graph, w: Work)
    requires Inv(g, w) && HasReady(g, w) && !IsReadyEntry(g, w, 0)
    ensures w.queue != [] && HasReady(g, Step(g, w))
    ensures FirstReadyFrom(g, Step(g, w), 0) < FirstReadyFrom(g, w, 0)
  {
    var r := FirstReadyFrom(g, w, 0);
    var v := Step(g, w);
    assert v.visited == w.visited;
    assert v.queue[r - 1] == w.queue[r];
    assert IsReadyEntry(g, v, r - 1);
  }

  ghost predicate InLogAfter(log: seq<Name>, b: Name, i: int)
  {
    exists j :: 0 <= j < |log| && i < j && log[j] == b
  }

  /** All successors of a logged node are logged behind it. */
  ghost predicate Closed(g: Graph, log: seq<Name>)
  {
    forall i, b :: 0 <= i < |log| && Edge(g, log[i], b) ==> InLogAfter(log, b, i)
  }

  ghost function PosAfter(log: seq<Name>, b: Name, i: int): (j: nat)
    requires InLogAfter(log, b, i)
    ensures i < j && j < |log| && log[j] == b
  {
    var j :| 0 <= j < |log| && i < j && log[j] == b; j
  }

  /** The number of list entries that a visited entry still gives rise to: one for each path that starts at it. */
  ghost function Weight(g: Graph, log: seq<Name>, i: nat): nat
    requires Closed(g, log) && i < |log|
    decreases |log| - i, 1, 0
  {
    assert forall b :: b in Next(g, log[i]) ==> Edge(g, log[i], b);
    1 + TotalWeight(g, log, Next(g, log[i]), i)
  }

  ghost function TotalWeight(g: Graph, log: seq<Name>, bs: seq<Name>, i: int): nat
    requires Closed(g, log) && -1 <= i
    requires forall b :: b in bs ==> InLogAfter(log, b, i)
    decreases |log| - i, 0, |bs|
  {
    if bs == [] then 0
    else Weight(g, log, PosAfter(log, bs[0], i)) + TotalWeight(g, log, bs[1..], i)
  }

  lemma {:induction false} TotalWeightConcat(g: Graph, log: seq<Name>, front: seq<Name>, bs: seq<Name>, i: int)
    requires Closed(g, log) && -1 <= i
    requires forall b :: b in front || b in bs ==> InLogAfter(log, b, i)
    ensures TotalWeight(g, log, front + bs, i) == TotalWeight(g, log, front, i) + TotalWeight(g, log, bs, i)
    decreases |front|
  {
    if front == [] {
      assert front + bs == bs;
    } else {
      assert (front + bs)[1..] == front[1..] + bs;
      TotalWeightConcat(g, log, front[1..], bs, i);
    }
  }

  /** In a log without repetitions the position of a name does not depend on where the search starts. */
  lemma {:induction false} TotalWeightShift(g: Graph, log: seq<Name>, bs: seq<Name>, i: int)
    requires Closed(g, log) && Distinct(log) && -1 <= i
    requires forall b :: b in bs ==> InLogAfter(log, b, i)
    ensures forall b :: b in bs ==> InLogAfter(log, b, -1)
    ensures TotalWeight(g, log, bs, -1) == TotalWeight(g, log, bs, i)
    decreases |bs|
  {
    forall b | b in bs
      ensures InLogAfter(log, b, -1)
    {
      assert InLogAfter(log, b, i);
    }
    if bs != [] {
      assert InLogAfter(log, bs[0], i);
      assert PosAfter(log, bs[0], i) == PosAfter(log, bs[0], -1);
      TotalWeightShift(g, log, bs[1..], i);
    }
  }

  ghost predicate Settled(g: Graph, w: Work)
  {
    Inv(g, w) && forall e :: e in w.queue ==> e in w.visited
  }

  lemma {:induction false} SettledClosed(g: Graph, w: Work)
    requires Settled(g, w)
    ensures Closed(g, w.visited)
    ensures forall e :: e in w.queue ==> InLogAfter(w.visited, e, -1)
  {
    forall i, b | 0 <= i < |w.visited| && Edge(g, w.visited[i], b)
      ensures InLogAfter(w.visited, b, i)
    {
      assert b in w.visited;
      var j :| 0 <= j < |w.visited| && w.visited[j] == b;
      assert w.visited[i] in Prev(g, w.visited[j]);
      assert w.visited[i] in w.visited[..j];
    }
    forall e | e in w.queue
      ensures InLogAfter(w.visited, e, -1)
    {
      assert e in w.visited;
    }
  }

  lemma {:induction false} SettledStep(g: Graph, w: Work)
    requires Settled(g, w) && w.queue != []
    ensures Settled(g, Step(g, w))
    ensures Step(g, w) == Work(w.queue[1..] + Next(g, w.queue[0]), w.visited)
  {
    var e := w.queue[0];
    assert e in w.queue;
    StepInv(g, w);
    SettledClosed(g, w);
    forall b | b in Next(g, e)
      ensures b in w.visited
    {
      assert Edge(g, e, b);
      var i :| 0 <= i < |w.visited| && w.visited[i] == e;
      assert InLogAfter(w.visited, b, i);
    }
    assert forall x :: x in w.queue[1..] ==> x in w.queue;
  }

  /** An entry weighs more than its successors together. */
  lemma {:induction false} WeightDrops(g: Graph, log: seq<Name>, e: Name, rest: seq<Name>)
    requires Closed(g, log) && Distinct(log) && InLogAfter(log, e, -1)
    requires forall b :: b in rest || b in Next(g, e) ==> InLogAfter(log, b, -1)
    ensures TotalWeight(g, log, rest + Next(g, e), -1) < TotalWeight(g, log, [e] + rest, -1)
  {
    TotalWeightConcat(g, log, rest, Next(g, e), -1);
    var i := PosAfter(log, e, -1);
    assert forall b :: b in Next(g, e) ==> Edge(g, log[i], b);
    TotalWeightShift(g, log, Next(g, e), i);
    assert ([e] + rest)[1..] == rest;
  }

  /** Once every queued node is visited, each turn takes one entry's worth of weight off the list. */
  lemma {:induction false} WeightFalls(g: Graph, w: Work)
    requires Settled(g, w) && w.queue != []
    ensures Settled(g, Step(g, w))
    ensures Closed(g, w.visited) && Step(g, w).visited == w.visited
    ensures forall e :: e in w.queue || e in Step(g, w).queue ==> InLogAfter(w.visited, e, -1)
    ensures TotalWeight(g, w.visited, Step(g, w).queue, -1) < TotalWeight(g, w.visited, w.queue, -1)
  {
    var e, rest := w.queue[0], w.queue[1..];
    SettledStep(g, w);
    SettledClosed(g, w);
    SettledClosed(g, Step(g, w));
    assert w.queue == [e] + rest;
    WeightDrops(g, w.visited, e, rest);
  }

  ghost function Later(g: Graph, w: Work): nat
  {
    if HasReady(g, w) then FirstReadyFrom(g, w, 0)
    else if Settled(g, w) then
      SettledClosed(g, w);
      TotalWeight(g, w.visited, w.queue, -1)
    else 0
  }

  ghost function VisitedSet(w: Work): set<Name>
  {
    set e | e in w.visited
  }

  /** With no ready entry in the list and nothing reachable tangled, everything queued is visited already. */
  lemma {:induction false} NoReadyMeansSettled(g: Graph, w: Work)
    requires Inv(g, w) && !HasReady(g, w) && Unobstructed(g)
    ensures Settled(g, w)
  {
    forall e | e in w.queue
      ensures e in w.visited
    {
      if e !in w.visited {
        var r := FindReady(g, w, e);
        var i :| 0 <= i < |w.queue| && w.queue[i] == r;
        assert IsReadyEntry(g, w, i);
      }
    }
  }

  lemma {:induction false} SettledHasNoReady(g: Graph, w: Work)
    requires Settled(g, w)
    ensures !HasReady(g, w)
  {
    forall i
      ensures !IsReadyEntry(g, w, i)
    {
      if 0 <= i < |w.queue| { assert w.queue[i] in w.queue; }
    }
  }

  ghost function Unvisited(g: Graph, w: Work): nat
  {
    |g.nodes - VisitedSet(w)|
  }

  /** The lexicographic measure: unvisited nodes, then the place of the first ready entry, and once
      everything queued is visited the total weight of the list. */
  lemma {:induction false} MeasureFalls(g: Graph, w: Work)
    requires Inv(g, w) && w.queue != [] && Unobstructed(g)
    ensures Inv(g, Step(g, w))
    ensures var (left, left') := (Unvisited(g, w), Unvisited(g, Step(g, w)));
            left' < left || (left' == left && Later(g, Step(g, w)) < Later(g, w))
  {
    StepInv(g, w);
    if IsReadyEntry(g, w, 0) {
      assert g.nodes - VisitedSet(Step(g, w)) == g.nodes - VisitedSet(w) - {w.queue[0]};
      assert w.queue[0] in g.nodes - VisitedSet(w);
    } else if HasReady(g, w) {
      FirstReadyMoves(g, w);
    } else {
      NoReadyMeansSettled(g, w);
      WeightFalls(g, w);
      SettledHasNoReady(g, Step(g, w));
    }
  }

  lemma {:induction false} MeasureFallsAt(g: Graph, n: nat)
    requires WellFormed(g) && Unobstructed(g) && At(g, n).queue != []
    ensures Unvisited(g, At(g, n + 1)) < Unvisited(g, At(g, n))
            || (Unvisited(g, At(g, n + 1)) == Unvisited(g, At(g, n)) && Later(g, At(g, n + 1)) < Later(g, At(g, n)))
  {
    AtInv(g, n);
    MeasureFalls(g, At(g, n));
  }

  /** If nothing reachable is tangled the list empties; n is the number of turns. */
  lemma {:induction false} EventuallyEmpty(g: Graph, k: nat) returns (n: nat)
    requires WellFormed(g) && Unobstructed(g)
    ensures At(g, n).queue == []
    decreases Unvisited(g, At(g, k)), Later(g, At(g, k))
  {
    if At(g, k).queue == [] {
      n := k;
    } else {
      MeasureFallsAt(g, k);
      n := EventuallyEmpty(g, k + 1);
    }
  }

  /** At the empty list the visited nodes are exactly the reachable ones, none is tangled, and no untangled
      node of the whole graph is missing. */
  lemma {:induction false} EmptyMeansDone(g: Graph, w: Work)
    requires Inv(g, w) && w.queue == []
    ensures forall v :: v in w.visited <==> Reachable(g, v)
    ensures forall v :: v in w.visited <==> v in g.nodes && !Tangled(g, v)
  {
    forall v | Reachable(g, v)
      ensures v in w.visited
    {
      var p :| IsPath(g, p) && p[0] in g.starting && p[|p| - 1] == v;
      var i := 0;
      while i < |p| - 1
        invariant 0 <= i < |p| && p[i] in w.visited
      {
        assert Edge(g, p[i], p[i + 1]);
        i := i + 1;
      }
    }
    forall v | v in w.visited
      ensures !Tangled(g, v)
    {
      VisitedUntangled(g, w, v);
    }
    forall v | v in g.nodes && !Tangled(g, v)
      ensures v in w.visited
    {
      if v !in w.visited {
        var r := FindReady(g, w, v);
      }
    }
  }

  // ----- Main results

  /** The exact termination condition: the list empties if and only if no node that is reachable from the
      starting nodes lies on, or downstream of, a directed cycle. */
  lemma {:induction false} DrainsIffUnobstructed(g: Graph)
    requires WellFormed(g)
    ensures Drains(g) <==> Unobstructed(g)
  {
    if Unobstructed(g) {
      var n := EventuallyEmpty(g, 0);
    }
    if Drains(g) {
      var n: nat :| At(g, n).queue == [];
      AtInv(g, n);
      EmptyMeansDone(g, At(g, n));
    }
  }

  /** One tangled node that can be reached keeps the list non-empty in every reachable state, even when the
      cycle itself is not reachable from the starting nodes. */
  lemma {:induction false} TangledNeverEmpties(g: Graph, v: Name, n: nat)
    requires WellFormed(g) && Reachable(g, v) && Tangled(g, v)
    ensures At(g, n).queue != []
  {
    AtInv(g, n);
    if At(g, n).queue == [] {
      EmptyMeansDone(g, At(g, n));
    }
  }

  /** In every reachable state the visited nodes have been run once each, after all their predecessors. */
  lemma {:induction false} RunsInOrder(g: Graph, n: nat)
    requires WellFormed(g)
    ensures Distinct(At(g, n).visited) && Topological(g, At(g, n).visited)
    ensures forall v :: v in At(g, n).visited ==> Reachable(g, v) && !Tangled(g, v)
  {
    AtInv(g, n);
    forall v | v in At(g, n).visited
      ensures !Tangled(g, v)
    {
      VisitedUntangled(g, At(g, n), v);
    }
  }

  /** On an acyclic graph the loop ends having run every node exactly once, each after all its predecessors. */
  lemma {:induction false} AcyclicRunsEveryNodeOnce(g: Graph) returns (n: nat)
    requires WellFormed(g) && forall v :: v in g.nodes ==> !Tangled(g, v)
    ensures At(g, n).queue == []
    ensures multiset(At(g, n).visited) == multiset(g.nodes)
    ensures Topological(g, At(g, n).visited)
  {
    forall v | Reachable(g, v)
      ensures v in g.nodes
    {
      var p :| IsPath(g, p) && p[0] in g.starting && p[|p| - 1] == v;
      PathInNodes(g, p);
    }
    n := EventuallyEmpty(g, 0);
    AtInv(g, n);
    EmptyMeansDone(g, At(g, n));
    DistinctMultiset(At(g, n).visited, g.nodes);
  }

  lemma {:induction false} DistinctMultiset(s: seq<Name>, nodes: set<Name>)
    requires Distinct(s) && forall x :: x in s <==> x in nodes
    ensures multiset(s) == multiset(nodes)
    decreases |s|
  {
    if s == [] {
      assert nodes == {};
    } else {
      var x, t := s[|s| - 1], s[..|s| - 1];
      assert s == t + [x];
      forall y
        ensures y in t <==> y in nodes - {x}
      {
      }
      DistinctMultiset(t, nodes - {x});
      assert nodes == (nodes - {x}) + {x};
    }
  }

  // ----- What an obstructed graph still achieves

  lemma {:induction false} VisitedStays(g: Graph, n: nat, m: nat)
    requires n <= m
    ensures forall v :: v in At(g, n).visited ==> v in At(g, m).visited
    decreases m - n
  {
    if n < m { VisitedStays(g, n, m - 1); }
  }

  /** With an untangled node unvisited, a turn visits a node or brings the first ready entry forward. */
  lemma {:induction false} UntangledMakesProgress(g: Graph, w: Work, v: Name)
    requires Inv(g, w) && v in g.nodes && v !in w.visited && !Tangled(g, v)
    ensures w.queue != [] && HasReady(g, w)
    ensures var (left, left') := (Unvisited(g, w), Unvisited(g, Step(g, w)));
            left' < left || (left' == left && HasReady(g, Step(g, w))
                             && FirstReadyFrom(g, Step(g, w), 0) < FirstReadyFrom(g, w, 0))
  {
    var r := FindReady(g, w, v);
    var i :| 0 <= i < |w.queue| && w.queue[i] == r;
    assert IsReadyEntry(g, w, i);
    if IsReadyEntry(g, w, 0) {
      assert g.nodes - VisitedSet(Step(g, w)) == g.nodes - VisitedSet(w) - {w.queue[0]};
      assert w.queue[0] in g.nodes - VisitedSet(w);
    } else {
      FirstReadyMoves(g, w);
    }
  }

  /** Cycles elsewhere do not keep a node from being visited; n is the number of turns. */
  lemma {:induction false} UntangledIsVisited(g: Graph, v: Name, k: nat) returns (n: nat)
    requires WellFormed(g) && v in g.nodes && !Tangled(g, v)
    ensures v in At(g, n).visited
    decreases Unvisited(g, At(g, k)), FirstReadyFrom(g, At(g, k), 0)
  {
    AtInv(g, k);
    if v in At(g, k).visited {
      n := k;
    } else {
      UntangledMakesProgress(g, At(g, k), v);
      n := UntangledIsVisited(g, v, k + 1);
    }
  }

  /** On every graph exactly the nodes that neither lie on a cycle nor behind one are visited sooner or later. */
  lemma {:induction false} VisitedIff(g: Graph, v: Name)
    requires WellFormed(g)
    ensures (exists n :: v in At(g, n).visited) <==> v in g.nodes && !Tangled(g, v)
  {
    if n: nat :| v in At(g, n).visited {
      AtInv(g, n);
      VisitedUntangled(g, At(g, n), v);
    }
    if v in g.nodes && !Tangled(g, v) {
      var n := UntangledIsVisited(g, v, 0);
    }
  }
}
