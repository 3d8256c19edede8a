/** The application graph runtime: Init builds the node graph from the specification, Run executes it. */
module AppRuntime {
  import opened Options
  import opened WorkGraph

  // ----- The arguments that nodes pass along

  datatype Value = Text(text: string) | References(refs: seq<string>) | Opaque
  type Args = map<string, Value>

  const OUTPUT_ANSWER_KEY := "_answer"
  const REFERENCES_KEY := "_references"

  datatype Output = Output(answer: string, references: seq<string>)

  datatype NodeError = NullDoc(msg: string) | OtherError(msg: string)
  datatype NodeResult = NodeResult(args: Args, error: Option<NodeError>)

  /** What a node does with the arguments it is given. */
  type Behaviour = (Name, Args) -> NodeResult

  datatype Leave = EarlyAnswer(msg: string) | NodeFailed(node: Name, msg: string)

  datatype RunResult =
    | Answered(output: Output)
    | FailedNode(node: Name, msg: string)
    | NoAnswer
    | StillRunning

  predicate HasAnswer(args: Args)
  {
    OUTPUT_ANSWER_KEY in args && args[OUTPUT_ANSWER_KEY].Text? && args[OUTPUT_ANSWER_KEY].text != ""
  }

  /** What the loop does after calling a node: go on with the new arguments, or leave the method. */
  datatype Verdict = Go(args: Args) | Halt(reason: Leave)

  /** A missing document ends the run with its message, unless an answer exists already; other errors end it. */
  function AfterNode(node: Name, r: NodeResult): Verdict
  {
    match r.error
    case None => Go(r.args)
    case Some(NullDoc(msg)) => if HasAnswer(r.args) then Go(r.args) else Halt(EarlyAnswer(msg))
    case Some(OtherError(msg)) => Halt(NodeFailed(node, msg))
  }

  function Collect(args: Args): Output
  {
    Output(if HasAnswer(args) then args[OUTPUT_ANSWER_KEY].text else "",
           if REFERENCES_KEY in args && args[REFERENCES_KEY].References? then args[REFERENCES_KEY].refs else [])
  }

  function Finish(args: Args, streaming: bool): RunResult
  {
    var output := Collect(args);
    if output.answer == "" && !streaming then NoAnswer else Answered(output)
  }

  // ----- Running nodes while walking the list

  /** One execution of the loop: the list, the arguments passed along, the nodes started so far and why it left. */
  datatype Exec = Exec(work: Work, out: Args, started: seq<Name>, halt: Option<Leave>)

  function ExecTurn(g: Graph, behaviour: Behaviour, x: Exec): Exec
  {
    if x.halt.Some? || x.work.queue == [] then x else
    var e := x.work.queue[0];
    if e in x.work.visited || !Ready(g, x.work, e) then x.(work := Step(g, x.work))
    else
      match AfterNode(e, behaviour(e, x.out))
      case Go(o) => Exec(Step(g, x.work), o, x.started + [e], None)
      case Halt(r) => x.(started := x.started + [e], halt := Some(r))
  }

  ghost function ExecAt(g: Graph, behaviour: Behaviour, out: Args, n: nat): Exec
  {
    if n == 0 then Exec(Begin(g), out, [], None)
    else ExecTurn(g, behaviour, ExecAt(g, behaviour, out, n - 1))
  }

  /** The arguments after running these nodes one after another, or the reason of the first node that halts. */
  ghost function Fold(behaviour: Behaviour, nodes: seq<Name>, out: Args): Verdict
  {
    if nodes == [] then Go(out)
    else
      match Fold(behaviour, nodes[..|nodes| - 1], out)
      case Go(o) => AfterNode(nodes[|nodes| - 1], behaviour(nodes[|nodes| - 1], o))
      case Halt(r) => Halt(r)
  }

  lemma {:induction false} FoldSnoc(behaviour: Behaviour, nodes: seq<Name>, e: Name, out: Args)
    ensures Fold(behaviour, nodes + [e], out) == match Fold(behaviour, nodes, out)
                                           case Go(o) => AfterNode(e, behaviour(e, o))
                                           case Halt(r) => Halt(r)
  {
    assert (nodes + [e])[..|nodes|] == nodes;
  }

  /** started is visited, followed by the halting node if there is one; the arguments are those of Fold. */
  ghost predicate Faithful(g: Graph, behaviour: Behaviour, args: Args, x: Exec)
  {
    && Distinct(x.started) && Topological(g, x.started)
    && Fold(behaviour, x.work.visited, args) == Go(x.out)
    && match x.halt
       case None => x.started == x.work.visited
       case Some(r) =>
         && x.started != [] && x.started[..|x.started| - 1] == x.work.visited
         && Fold(behaviour, x.started, args) == Halt(r)
  }

  lemma {:induction false} ExecTurnFaithful(g: Graph, behaviour: Behaviour, args: Args, x: Exec)
    requires Faithful(g, behaviour, args, x)
    ensures Faithful(g, behaviour, args, ExecTurn(g, behaviour, x))
  {
    if x.halt.None? && x.work.queue != [] {
      var e := x.work.queue[0];
      if e !in x.work.visited && Ready(g, x.work, e) {
        FoldSnoc(behaviour, x.started, e, args);
        TopologicalSnoc(g, x.work, e);
        assert (x.started + [e])[..|x.started|] == x.started;
      }
    }
  }

  lemma {:induction false} ExecFaithful(g: Graph, behaviour: Behaviour, args: Args, n: nat)
    ensures Faithful(g, behaviour, args, ExecAt(g, behaviour, args, n))
  {
    if n > 0 {
      ExecFaithful(g, behaviour, args, n - 1);
      ExecTurnFaithful(g, behaviour, args, ExecAt(g, behaviour, args, n - 1));
    }
  }

  /** Node errors only cut the walk short: up to the halt it is the walk of the bare list, and the arguments
      are the composition of the nodes run so far, each of them started exactly once and after its predecessors. */
  lemma {:induction false} ExecFollowsList(g: Graph, behaviour: Behaviour, args: Args, n: nat) returns (k: nat)
    ensures k <= n && ExecAt(g, behaviour, args, n).work == At(g, k)
    ensures ExecAt(g, behaviour, args, n).halt.None? ==> k == n
  {
    if n == 0 {
      k := 0;
    } else {
      k := ExecFollowsList(g, behaviour, args, n - 1);
      ExecNext(g, behaviour, args, n - 1);
      if ExecAt(g, behaviour, args, n).halt.None? {
        k := n;
      }
    }
  }

  lemma {:induction false} TopologicalSnoc(g: Graph, w: Work, e: Name)
    requires Distinct(w.visited) && Topological(g, w.visited) && e !in w.visited && Ready(g, w, e)
    ensures Distinct(w.visited + [e]) && Topological(g, w.visited + [e])
  {
    var log := w.visited + [e];
    forall i, p | 0 <= i < |log| && p in Prev(g, log[i])
      ensures p in log[..i]
    {
      assert log[..i] == w.visited[..i];
      assert w.visited[..|w.visited|] == w.visited;
    }
  }

  /** If no node halts, an unobstructed graph is run to the end: all its reachable nodes, each exactly once. */
  lemma {:induction false} RunsToTheEnd(g: Graph, behaviour: Behaviour, out: Args) returns (n: nat)
    requires WellFormed(g) && Unobstructed(g)
    ensures var x := ExecAt(g, behaviour, out, n);
            x.halt.Some? || (x.work.queue == [] && forall v :: v in x.started <==> Reachable(g, v))
  {
    n := EventuallyEmpty(g, 0);
    var k := ExecFollowsList(g, behaviour, out, n);
    ExecFaithful(g, behaviour, out, n);
    AtInv(g, n);
    EmptyMeansDone(g, At(g, n));
  }

  /** The loop is left: a node halts it, or the list runs empty. */
  ghost predicate Ends(g: Graph, behaviour: Behaviour, out: Args)
  {
    exists n :: ExecAt(g, behaviour, out, n).halt.Some? || ExecAt(g, behaviour, out, n).work.queue == []
  }

  /** Some node fails or answers early if the nodes are run one after another as the bare walk visits them. */
  ghost predicate Halts(g: Graph, behaviour: Behaviour, out: Args)
  {
    exists n :: Fold(behaviour, At(g, n).visited, out).Halt?
  }

  lemma {:induction false} HaltIsOnTheWalk(g: Graph, behaviour: Behaviour, out: Args, n: nat)
    requires ExecAt(g, behaviour, out, n).halt.Some?
    ensures Halts(g, behaviour, out)
  {
    var x := ExecAt(g, behaviour, out, n - 1);
    if x.halt.Some? {
      HaltIsOnTheWalk(g, behaviour, out, n - 1);
    } else {
      var k := ExecFollowsList(g, behaviour, out, n - 1);
      ExecFaithful(g, behaviour, out, n - 1);
      FoldSnoc(behaviour, x.started, x.work.queue[0], out);
      assert At(g, n).visited == x.started + [x.work.queue[0]];
    }
  }

  /** The loop is left at a node exactly if the bare walk, which knows no exits, comes to one that halts. */
  lemma {:induction false} HaltsIff(g: Graph, behaviour: Behaviour, out: Args)
    ensures Halts(g, behaviour, out) <==> exists n :: ExecAt(g, behaviour, out, n).halt.Some?
  {
    if n: nat :| ExecAt(g, behaviour, out, n).halt.Some? { HaltIsOnTheWalk(g, behaviour, out, n); }
    if n: nat :| Fold(behaviour, At(g, n).visited, out).Halt? {
      var k := ExecFollowsList(g, behaviour, out, n);
      ExecFaithful(g, behaviour, out, n);
      assert ExecAt(g, behaviour, out, n).halt.Some?;
    }
  }

  /** The exact condition under which a run ends: nothing reachable is tangled, or the bare walk comes to a node that
      halts. */
  lemma {:induction false} EndsIff(g: Graph, behaviour: Behaviour, out: Args)
    requires WellFormed(g)
    ensures Ends(g, behaviour, out) <==> Unobstructed(g) || Halts(g, behaviour, out)
  {
    HaltsIff(g, behaviour, out);
    if Unobstructed(g) { var n := RunsToTheEnd(g, behaviour, out); }
    if Halts(g, behaviour, out) {
      var n: nat :| ExecAt(g, behaviour, out, n).halt.Some?;
    } else if n: nat :| ExecAt(g, behaviour, out, n).halt.Some? || ExecAt(g, behaviour, out, n).work.queue == [] {
      var k := ExecFollowsList(g, behaviour, out, n);
      AtInv(g, n);
      EmptyMeansDone(g, At(g, n));
    }
  }

  function Reverse(s: seq<Name>): (r: seq<Name>)
  {
    if s == [] then [] else [s[|s| - 1]] + Reverse(s[..|s| - 1])
  }

  /** Cleanup in reverse start order touches every started node exactly once. */
  lemma {:induction false} ReverseIsMirror(s: seq<Name>)
    ensures |Reverse(s)| == |s| && multiset(Reverse(s)) == multiset(s)
    ensures forall i :: 0 <= i < |s| ==> Reverse(s)[i] == s[|s| - 1 - i]
  {
    if s != [] {
      ReverseIsMirror(s[..|s| - 1]);
      assert s == s[..|s| - 1] + [s[|s| - 1]];
    }
  }

  function Conclude(x: Exec, streaming: bool): RunResult
  {
    match x.halt
    case Some(EarlyAnswer(msg)) => Answered(Output(msg, []))
    case Some(NodeFailed(node, msg)) => FailedNode(node, msg)
    case None => if x.work.queue == [] then Finish(x.out, streaming) else StillRunning
  }

  // ----- The specification of an application

  const INPUT_NODE := "Input"
  const OUTPUT_NODE := "Output"

  /** A node as the user writes it: its name, the kind and API group it refers to, and the nodes it points to. */
  datatype NodeSpec = NodeSpec(name: Name, kind: string, group: Option<string>, next: seq<Name>)

  predicate UniqueNames(spec: seq<NodeSpec>)
  {
    forall i, j :: 0 <= i < j < |spec| ==> spec[i].name != spec[j].name
  }

  /** The name of the last node of a kind; the empty string if there is none. */
  function LastOfKind(spec: seq<NodeSpec>, kind: string): (r: Name)
    ensures (exists i :: 0 <= i < |spec| && spec[i].kind == kind)
            ==> exists i :: 0 <= i < |spec| && spec[i].kind == kind && spec[i].name == r
  {
    if spec == [] then ""
    else if spec[|spec| - 1].kind == kind then spec[|spec| - 1].name
    else LastOfKind(spec[..|spec| - 1], kind)
  }

  function Declared(spec: seq<NodeSpec>): (r: set<Name>)
    ensures forall i :: 0 <= i < |spec| ==> spec[i].name in r
    ensures forall n :: n in r ==> exists i :: 0 <= i < |spec| && spec[i].name == n
  {
    set i | 0 <= i < |spec| :: spec[i].name
  }

  /** All nodes that some node points to. */
  function Targets(spec: seq<NodeSpec>): (r: set<Name>)
    ensures forall n :: n in r ==> exists i :: 0 <= i < |spec| && n in spec[i].next
  {
    set i, n | 0 <= i < |spec| && n in spec[i].next :: n
  }

  lemma {:induction false} TargetsHas(spec: seq<NodeSpec>, i: nat)
    requires i < |spec|
    ensures forall n :: n in spec[i].next ==> n in Targets(spec)
  {
  }

  lemma {:induction false} DeclaredSnoc(spec: seq<NodeSpec>, i: nat)
    requires i < |spec|
    ensures Declared(spec[..i + 1]) == Declared(spec[..i]) + {spec[i].name}
  {
    assert spec[..i + 1] == spec[..i] + [spec[i]];
    forall n | n in Declared(spec[..i])
      ensures n in Declared(spec[..i + 1])
    {
      var j :| 0 <= j < i && spec[..i][j].name == n;
      assert spec[..i + 1][j].name == n;
    }
  }

  lemma {:induction false} UniqueIsNew(spec: seq<NodeSpec>, i: nat)
    requires UniqueNames(spec) && i < |spec|
    ensures spec[i].name !in Declared(spec[..i])
  {
  }

  /** The graph has the nodes of the specification, the same successors in the same order, and prev holds each edge
      as often as next does. */
  ghost predicate EdgesOf(spec: seq<NodeSpec>, g: Graph)
  {
    match g
    case Graph(nodes, next, prev, _) =>
      && nodes == Declared(spec)
      && next.Keys == nodes && prev.Keys == nodes
      && (forall i :: 0 <= i < |spec| ==> Next(g, spec[i].name) == spec[i].next)
      && (forall a, b :: a in nodes && b in nodes ==> Count(Prev(g, b), a) == Count(Next(g, a), b))
      && (forall a, b :: a in Prev(g, b) ==> a in nodes)
  }

  /** The starting nodes are, without repetition, the input node and every node without predecessors. */
  ghost predicate StartsOf(spec: seq<NodeSpec>, g: Graph)
  {
    match g
    case Graph(nodes, _, _, starting) =>
      && Distinct(starting)
      && (forall n :: n in starting <==> n in nodes && (n == LastOfKind(spec, INPUT_NODE) || Prev(g, n) == []))
  }

  /** The last node in the specification, other than the input, that points to the output. */
  ghost function LastPointing(spec: seq<NodeSpec>, input: Name, output: Name): Option<Name>
  {
    if spec == [] then None
    else
      var n := spec[|spec| - 1];
      if n.name != input && output in n.next then Some(n.name) else LastPointing(spec[..|spec| - 1], input, output)
  }

  ghost predicate EndsAt(spec: seq<NodeSpec>, ending: Option<Name>)
  {
    ending == LastPointing(spec, LastOfKind(spec, INPUT_NODE), LastOfKind(spec, OUTPUT_NODE))
  }

  lemma {:induction false} LastPointingSnoc(spec: seq<NodeSpec>, i: nat, input: Name, output: Name)
    requires i < |spec|
    ensures LastPointing(spec[..i + 1], input, output) ==
            if spec[i].name != input && output in spec[i].next then Some(spec[i].name)
            else LastPointing(spec[..i], input, output)
  {
    assert spec[..i + 1][..i] == spec[..i];
  }

  /** The graph of a specification whose edges are all declared is well formed, so all results on the list apply. */
  lemma {:induction false} InitIsWellFormed(spec: seq<NodeSpec>, g: Graph)
    requires EdgesOf(spec, g) && StartsOf(spec, g)
    requires Targets(spec) <= Declared(spec)
    ensures WellFormed(g)
  {
    forall a, b | Edge(g, a, b)
      ensures b in g.nodes && a in Prev(g, b)
    {
      var i :| 0 <= i < |spec| && spec[i].name == a;
      TargetsHas(spec, i);
      assert Count(Prev(g, b), a) == Count(Next(g, a), b);
    }
    forall a, b | a in Prev(g, b)
      ensures Edge(g, a, b)
    {
      assert Count(Prev(g, b), a) == Count(Next(g, a), b);
    }
  }

  datatype InitError = NodeInit(node: Name) | NextNotFound(node: Name)

  /** How often a name occurs in a list. */
  function Count(s: seq<Name>, n: Name): (c: nat)
    ensures c > 0 <==> n in s
  {
    multiset(s)[n]
  }

  lemma {:induction false} CountSnoc(s: seq<Name>, x: Name, n: Name)
    ensures Count(s + [x], n) == Count(s, n) + if n == x then 1 else 0
  {
  }

  /** A node of the runtime. Neighbours are held by name: names are unique, so a name stands for the node object. */
  class Node {
    const name: Name
    var prev: seq<Name>
    var next: seq<Name>

    constructor (name: Name)
      ensures this.name == name && prev == [] && next == []
    {
      this.name := name;
      prev, next := [], [];
    }

    method SetNextNode(n: Name)
      modifies this`next
      ensures next == old(next) + [n]
    {
      next := next + [n];
    }

    method SetPrevNode(n: Name)
      modifies this`prev
      ensures prev == old(prev) + [n]
    {
      prev := prev + [n];
    }
  }

  class Application {
    const spec: seq<NodeSpec>
    var nodes: map<Name, Node>
    var startingNodes: seq<Name>
    var endingNode: Option<Name>
    var cleanups: seq<Name>  // the nodes cleaned up so far, in order

    constructor (spec: seq<NodeSpec>)
      ensures this.spec == spec && nodes == map[] && startingNodes == [] && endingNode == None && cleanups == []
    {
      this.spec := spec;
      nodes, startingNodes, endingNode, cleanups := map[], [], None, [];
    }

    /** Every node is filed under its own name. */
    ghost predicate Named()
      reads this`nodes
    {
      forall k :: k in nodes ==> nodes[k].name == k
    }

    ghost predicate Valid()
      reads this`nodes, this`startingNodes, nodes.Values
    {
      && Named()
      && (forall n :: n in startingNodes ==> n in nodes)
      && (forall k, n :: k in nodes && (n in nodes[k].next || n in nodes[k].prev) ==> n in nodes)
    }

    ghost function View(): Graph
      reads this`nodes, this`startingNodes, nodes.Values
    {
      Graph(nodes.Keys, map k | k in nodes :: nodes[k].next, map k | k in nodes :: nodes[k].prev, startingNodes)
    }

    // ----- Init

    /** The first i nodes of the specification exist, without edges. */
    ghost predicate Created(i: nat, input: Name, output: Name)
      requires i <= |spec|
      reads this`nodes, this`startingNodes, this`endingNode, nodes.Values
    {
      && Named() && nodes.Keys == Declared(spec[..i])
      && (forall k :: k in nodes ==> nodes[k].next == [] && nodes[k].prev == [])
      && startingNodes == (if input in nodes then [input] else [])
      && endingNode == LastPointing(spec[..i], input, output)
    }

    method CreateNodes(broken: set<Name>, input: Name, output: Name) returns (error: Option<InitError>)
      requires UniqueNames(spec) && Created(0, input, output)
      modifies this`nodes, this`startingNodes, this`endingNode
      ensures error.None? <==> Declared(spec) !! broken
      ensures error.None? ==> Created(|spec|, input, output)
      ensures fresh(nodes.Values - old(nodes.Values))
    {
      for i := 0 to |spec|
        invariant Created(i, input, output)
        invariant forall j :: 0 <= j < i ==> spec[j].name !in broken
        invariant fresh(nodes.Values - old(nodes.Values))
      {
        if spec[i].name in broken {
          assert spec[i].name in Declared(spec);
          return Some(NodeInit(spec[i].name));
        }
        AddNext(i, input, output);
      }
      return None;
    }

    method AddNext(i: nat, input: Name, output: Name)
      requires UniqueNames(spec) && i < |spec| && Created(i, input, output)
      modifies this`nodes, this`startingNodes, this`endingNode
      ensures Created(i + 1, input, output)
      ensures fresh(nodes.Values - old(nodes.Values))
    {
      DeclaredSnoc(spec, i);
      UniqueIsNew(spec, i);
      LastPointingSnoc(spec, i, input, output);
      AddNode(spec[i], input, output);
    }

    method AddNode(node: NodeSpec, input: Name, output: Name)
      modifies this`nodes, this`startingNodes, this`endingNode
      ensures node.name in nodes && nodes == old(nodes)[node.name := nodes[node.name]]
      ensures nodes.Keys == old(nodes).Keys + {node.name}
      ensures fresh(nodes[node.name]) && nodes[node.name].name == node.name
      ensures nodes[node.name].next == [] && nodes[node.name].prev == []
      ensures startingNodes == old(startingNodes) + if node.name == input then [input] else []
      ensures endingNode == if node.name != input && output in node.next then Some(node.name) else old(endingNode)
    {
      var n := new Node(node.name);
      nodes := nodes[node.name := n];
      if node.name == input {
        startingNodes := startingNodes + [node.name];
      } else if output in node.next {
        endingNode := Some(node.name);
      }
    }

    /** The first i nodes of the specification have their successors, the others none. */
    ghost predicate Linked(i: nat)
      requires i <= |spec|
      reads this`nodes, nodes.Values
    {
      && Named() && nodes.Keys == Declared(spec)
      && (forall j :: 0 <= j < |spec| ==> nodes[spec[j].name].next == if j < i then spec[j].next else [])
      && (forall k :: k in nodes ==> nodes[k].prev == [])
    }

    lemma CreatedIsLinked(input: Name, output: Name)
      requires Created(|spec|, input, output)
      ensures Linked(0) && endingNode == LastPointing(spec, input, output)
    {
      assert spec[..|spec|] == spec;
    }

    method LinkNext() returns (error: Option<InitError>)
      requires UniqueNames(spec) && Linked(0)
      modifies nodes.Values
      ensures error.None? <==> Targets(spec) <= Declared(spec)
      ensures error.None? ==> Linked(|spec|)
    {
      for i := 0 to |spec|
        invariant Linked(i)
        invariant forall j :: 0 <= j < i ==> forall n :: n in spec[j].next ==> n in Declared(spec)
      {
        error := LinkNode(i, nodes[spec[i].name]);
        if error.Some? {
          assert !(Targets(spec) <= Declared(spec)) by { TargetsHas(spec, i); }
          return;
        }
      }
      return None;
    }

    method LinkNode(i: nat, current: Node) returns (error: Option<InitError>)
      requires UniqueNames(spec) && i < |spec| && Linked(i) && current == nodes[spec[i].name]
      modifies current`next
      ensures error.None? <==> forall n :: n in spec[i].next ==> n in Declared(spec)
      ensures error.None? ==> Linked(i + 1)
    {
      assert forall j :: 0 <= j < |spec| && j != i ==> nodes[spec[j].name] != current;
      error := SetNextNodes(current, spec[i].next);
    }

    method SetNextNodes(current: Node, next: seq<Name>) returns (error: Option<InitError>)
      requires current.next == []
      modifies current`next
      ensures error.None? <==> forall n :: n in next ==> n in nodes
      ensures error.None? ==> current.next == next
    {
      for j := 0 to |next|
        invariant forall l :: 0 <= l < j ==> next[l] in nodes
        invariant current.next == next[..j]
      {
        if next[j] !in nodes {
          return Some(NextNotFound(next[j]));
        }
        current.SetNextNode(next[j]);
      }
      return None;
    }

    /** Exactly the edges that leave the nodes in done, and those from name listed in sent, are known at their targets. */
    ghost predicate Mirrored(done: set<Name>, name: Name, sent: seq<Name>)
      reads this`nodes, nodes.Values
    {
      && Named()
      && (forall k, n :: k in nodes && n in nodes[k].next ==> n in nodes)
      && done <= nodes.Keys
      && (forall k, m :: k in nodes ==>
            Count(nodes[k].prev, m) ==
            if m in done then Count(nodes[m].next, k) else if m == name then Count(sent, k) else 0)
    }

    /** The map of nodes is traversed in an arbitrary order. */
    method LinkPrev()
      requires Mirrored({}, "", [])
      modifies nodes.Values
      ensures Mirrored(nodes.Keys, "", [])
      ensures forall k :: k in nodes ==> nodes[k].next == old(nodes[k].next)
    {
      var todo := nodes.Keys;
      assert nodes.Keys - todo == {};
      while todo != {}
        invariant todo <= nodes.Keys && Mirrored(nodes.Keys - todo, "", [])
        invariant forall k :: k in nodes ==> nodes[k].next == old(nodes[k].next)
        decreases |todo|
      {
        var name :| name in todo;
        ghost var done := nodes.Keys - todo;
        AnnounceNode(name, done);
        todo := todo - {name};
        assert nodes.Keys - todo == done + {name};
      }
    }

    /** One node announces itself to its successors, once per edge. */
    method AnnounceNode(name: Name, ghost done: set<Name>)
      requires name in nodes && name !in done && Mirrored(done, "", [])
      modifies nodes.Values
      ensures Mirrored(done + {name}, "", [])
      ensures forall k :: k in nodes ==> nodes[k].next == old(nodes[k].next)
    {
      var next := nodes[name].next;
      for j := 0 to |next|
        invariant Mirrored(done, name, next[..j])
        invariant forall k :: k in nodes ==> nodes[k].next == old(nodes[k].next)
      {
        AnnounceEdge(name, nodes[next[j]], done, next[..j]);
        assert next[..j + 1] == next[..j] + [next[j]];
      }
      assert next[..|next|] == next;
      AllSent(name, done);
    }

    lemma AllSent(name: Name, done: set<Name>)
      requires name in nodes && name !in done && Mirrored(done, name, nodes[name].next)
      ensures Mirrored(done + {name}, "", [])
    {
    }

    method AnnounceEdge(name: Name, target: Node, ghost done: set<Name>, ghost sent: seq<Name>)
      requires name in nodes && name !in done && Mirrored(done, name, sent)
      requires target.name in nodes && nodes[target.name] == target
      modifies target`prev
      ensures Mirrored(done, name, sent + [target.name])
    {
      ghost var prev := target.prev;
      target.SetPrevNode(name);
      assert forall k :: k in nodes && k != target.name ==> nodes[k].prev == old(nodes[k].prev);
      forall k, m | k in nodes
        ensures Count(nodes[k].prev, m) ==
                if m in done then Count(nodes[m].next, k) else if m == name then Count(sent + [target.name], k) else 0
      {
        CountSnoc(prev, name, m);
        CountSnoc(sent, target.name, k);
      }
    }

    /** Both edge lists are as the specification says. */
    ghost predicate Wired()
      reads this`nodes, nodes.Values
    {
      && nodes.Keys == Declared(spec) && Mirrored(nodes.Keys, "", [])
      && (forall j :: 0 <= j < |spec| ==> nodes[spec[j].name].next == spec[j].next)
    }

    method LinkBoth() returns (error: Option<InitError>)
      requires UniqueNames(spec) && Linked(0)
      modifies nodes.Values
      ensures error.None? <==> Targets(spec) <= Declared(spec)
      ensures error.None? ==> Wired()
    {
      error := LinkNext();
      if error.None? {
        LinkPrev();
      }
    }

    ghost predicate Starts(input: Name)
      reads this`nodes, this`startingNodes, nodes.Values
    {
      && Distinct(startingNodes)
      && (forall n :: n in startingNodes <==> n in nodes && (n == input || nodes[n].prev == []))
    }

    /** Besides the input node, every node without predecessors starts; the map is traversed in an arbitrary order. */
    method CollectStarting(input: Name)
      requires Named() && startingNodes == if input in nodes then [input] else []
      modifies this`startingNodes
      ensures Starts(input)
    {
      var todo := nodes.Keys;
      while todo != {}
        invariant todo <= nodes.Keys && Distinct(startingNodes)
        invariant forall n :: n in startingNodes <==> n in nodes && (n == input || (n !in todo && nodes[n].prev == []))
        decreases |todo|
      {
        var name :| name in todo;
        todo := todo - {name};
        if nodes[name].prev == [] && name != input {
          startingNodes := startingNodes + [name];
        }
      }
    }

    lemma ViewEdges(n: Name)
      requires n in nodes
      ensures Next(View(), n) == nodes[n].next && Prev(View(), n) == nodes[n].prev
    {
    }

    lemma ViewNext()
      requires Wired()
      ensures forall i :: 0 <= i < |spec| ==> Next(View(), spec[i].name) == spec[i].next
    {
      forall i | 0 <= i < |spec|
        ensures Next(View(), spec[i].name) == spec[i].next
      {
        ViewEdges(spec[i].name);
      }
    }

    lemma ViewPrev(a: Name, b: Name)
      requires Wired()
      ensures a in nodes && b in nodes ==> Count(Prev(View(), b), a) == Count(Next(View(), a), b)
      ensures a in Prev(View(), b) ==> a in nodes
    {
      if b in nodes {
        ViewEdges(b);
        assert Count(nodes[b].prev, a) > 0 ==> a in nodes;
        if a in nodes { ViewEdges(a); }
      }
    }

    lemma WiredIsValid(input: Name)
      requires Wired() && Starts(input)
      ensures Valid()
    {
      forall k, n | k in nodes && n in nodes[k].prev
        ensures n in nodes
      {
        assert Count(nodes[k].prev, n) > 0;
      }
    }

    lemma WiredEdges()
      requires Wired()
      ensures EdgesOf(spec, View())
    {
      ViewNext();
      forall a, b
        ensures a in nodes && b in nodes ==> Count(Prev(View(), b), a) == Count(Next(View(), a), b)
        ensures a in Prev(View(), b) ==> a in nodes
      {
        ViewPrev(a, b);
      }
    }

    lemma WiredStarts(input: Name)
      requires Starts(input) && input == LastOfKind(spec, INPUT_NODE)
      ensures StartsOf(spec, View())
    {
      forall n | n in nodes
        ensures Prev(View(), n) == nodes[n].prev
      {
        ViewEdges(n);
      }
    }

    method LinkAndCollect(input: Name) returns (error: Option<InitError>)
      requires UniqueNames(spec) && Linked(0) && input == LastOfKind(spec, INPUT_NODE)
      requires startingNodes == if input in nodes then [input] else []
      modifies this`startingNodes, nodes.Values
      ensures error.None? <==> Targets(spec) <= Declared(spec)
      ensures error.None? ==> Wired() && Starts(input)
    {
      error := LinkBoth();
      if error.None? {
        CollectStarting(input);
      }
    }

    method Assemble(input: Name) returns (error: Option<InitError>)
      requires UniqueNames(spec) && Linked(0) && input == LastOfKind(spec, INPUT_NODE)
      requires startingNodes == if input in nodes then [input] else []
      modifies this`startingNodes, nodes.Values
      ensures error.None? <==> Targets(spec) <= Declared(spec)
      ensures error.None? ==> Valid() && EdgesOf(spec, View()) && StartsOf(spec, View())
    {
      error := LinkAndCollect(input);
      if error.None? {
        WiredIsValid(input);
        WiredEdges();
        WiredStarts(input);
      }
    }

    method Wire(input: Name, output: Name) returns (error: Option<InitError>)
      requires UniqueNames(spec) && Created(|spec|, input, output)
      requires input == LastOfKind(spec, INPUT_NODE) && output == LastOfKind(spec, OUTPUT_NODE)
      modifies this`startingNodes, nodes.Values
      ensures error.None? <==> Targets(spec) <= Declared(spec)
      ensures error.None? ==> Valid() && EdgesOf(spec, View()) && StartsOf(spec, View()) && EndsAt(spec, endingNode)
    {
      CreatedIsLinked(input, output);
      error := Assemble(input);
    }

    /** Init creates the nodes, links them forwards, then backwards, and collects the starting nodes.
        A fresh application is built from a specification with unique names, which validateNodes checks first. */
    method Init(broken: set<Name>) returns (error: Option<InitError>)
      requires UniqueNames(spec) && nodes == map[] && startingNodes == [] && endingNode == None
      modifies this`nodes, this`startingNodes, this`endingNode
      ensures error.None? <==> Declared(spec) !! broken && Targets(spec) <= Declared(spec)
      ensures error.None? ==> Valid() && EdgesOf(spec, View()) && StartsOf(spec, View()) && EndsAt(spec, endingNode)
    {
      var inputNodeName, outputNodeName := LastOfKind(spec, INPUT_NODE), LastOfKind(spec, OUTPUT_NODE);
      error := CreateNodes(broken, inputNodeName, outputNodeName);
      if error.None? {
        error := Wire(inputNodeName, outputNodeName);
      }
    }

    // ----- Run

    /** An entry waits while one of its predecessors has not been visited. */
    method MustWait(e: Node, visited: set<Name>) returns (reWait: bool)
      ensures reWait <==> exists p :: p in e.prev && p !in visited
    {
      for j := 0 to |e.prev|
        invariant forall i :: 0 <= i < j ==> e.prev[i] in visited
      {
        if e.prev[j] !in visited {
          return true;
        }
      }
      return false;
    }

    /** The loop may go on for ever, so turns says how much of it to follow. */
    method Run(behaviour: Behaviour, args: Args, streaming: bool, turns: nat) returns (result: RunResult)
      requires Valid()
      modifies this`cleanups
      ensures var x := ExecAt(View(), behaviour, args, turns);
              && result == Conclude(x, streaming)
              && cleanups == old(cleanups) + if result.StillRunning? then [] else Reverse(x.started)
    {
      var out, leave, deferred, ended := Walk(behaviour, args, turns);
      if !ended {
        return StillRunning;
      }
      Cleanup(deferred);
      assert View() == old(View());
      match leave {
        case Some(EarlyAnswer(msg)) => return Answered(Output(msg, []));
        case Some(NodeFailed(node, msg)) => return FailedNode(node, msg);
        case None => return Finish(out, streaming);
      }
    }

    /** The loop variables stand for the abstract run x; list is the part of the list from the cursor on. */
    ghost predicate Tracks(x: Exec, list: seq<Name>, visited: set<Name>, out: Args, deferred: seq<Name>)
      reads this`nodes
    {
      && (forall n :: n in list ==> n in nodes)
      && x.halt == None
      && x.work.queue == list
      && x.started == deferred
      && x.out == out
      && (forall n :: n in visited <==> n in x.work.visited)
    }

    /** The loop of Run; it leaves early when a node halts. */
    method Walk(behaviour: Behaviour, args: Args, turns: nat)
      returns (out: Args, leave: Option<Leave>, deferred: seq<Name>, ended: bool)
      requires Valid()
      ensures var x := ExecAt(View(), behaviour, args, turns);
              && out == x.out && leave == x.halt && deferred == x.started
              && (ended <==> x.halt.Some? || x.work.queue == [])
    {
      out, leave, deferred := args, None, [];
      var visited: set<Name> := {};
      var list := startingNodes;
      ghost var g := View();
      ghost var x := ExecAt(g, behaviour, args, 0);
      var turn := 0;
      while list != [] && leave.None? && turn < turns
        invariant turn <= turns
        invariant x == ExecAt(g, behaviour, args, turn)
        invariant leave == x.halt && out == x.out && deferred == x.started
        invariant leave.None? ==> Tracks(x, list, visited, out, deferred)
        decreases turns - turn
      {
        ExecNext(g, behaviour, args, turn);
        list, visited, out, leave, deferred := Turn(behaviour, list, visited, out, deferred, x);
        x := ExecTurn(g, behaviour, x);
        turn := turn + 1;
      }
      ended := leave.Some? || list == [];
      ExecStays(g, behaviour, args, turn, turns);
    }

    /** One turn of the loop, for the entry at the cursor. */
    method Turn(behaviour: Behaviour, list: seq<Name>, visited: set<Name>, out: Args, deferred: seq<Name>, ghost x: Exec)
      returns (list': seq<Name>, visited': set<Name>, out': Args, leave: Option<Leave>, deferred': seq<Name>)
      requires Valid() && list != [] && Tracks(x, list, visited, out, deferred)
      ensures var y := ExecTurn(View(), behaviour, x);
              && leave == y.halt && out' == y.out && deferred' == y.started
              && (leave.None? ==> Tracks(y, list', visited', out', deferred'))
    {
      var e, rest := nodes[list[0]], list[1..];
      list', visited', out', leave, deferred' := rest, visited, out, None, deferred;
      if e.name !in visited {
        var reWait := MustWait(e, visited);
        if reWait {
          list' := rest + [e.name];
          return;
        }
        deferred' := deferred + [e.name];
        match AfterNode(e.name, behaviour(e.name, out)) {
          case Halt(reason) =>
            leave := Some(reason);
            return;
          case Go(o) =>
            out' := o;
        }
        visited' := visited + {e.name};
      }
      list' := rest + e.next;
    }

    /** The deferred calls, last one first. */
    method Cleanup(deferred: seq<Name>)
      modifies this`cleanups
      ensures cleanups == old(cleanups) + Reverse(deferred)
    {
      var i := |deferred|;
      assert deferred[..i] == deferred;
      while i > 0
        invariant 0 <= i <= |deferred|
        invariant cleanups + Reverse(deferred[..i]) == old(cleanups) + Reverse(deferred)
      {
        i := i - 1;
        assert deferred[..i + 1][..i] == deferred[..i];
        cleanups := cleanups + [deferred[i]];
      }
    }
  }

  lemma {:induction false} ExecNext(g: Graph, behaviour: Behaviour, args: Args, n: nat)
    ensures ExecAt(g, behaviour, args, n + 1) == ExecTurn(g, behaviour, ExecAt(g, behaviour, args, n))
  {
  }

  lemma {:induction false} ExecStays(g: Graph, behaviour: Behaviour, out: Args, n: nat, m: nat)
    requires n <= m
    requires n == m || ExecAt(g, behaviour, out, n).halt.Some? || ExecAt(g, behaviour, out, n).work.queue == []
    ensures ExecAt(g, behaviour, out, m) == ExecAt(g, behaviour, out, n)
    decreases m
  {
    if n < m {
      ExecStays(g, behaviour, out, n, m - 1);
    }
  }
}
