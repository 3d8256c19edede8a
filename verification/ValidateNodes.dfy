/** The checks of an application before it is declared ready: structural rules and the readiness of its nodes. */
module ValidateNodes {
  import opened Options
  import opened WorkGraph
  import opened AppRuntime

  const CHAIN_GROUP := "chain.arcadia.kubeagi.k8s.com.cn"
  const AGENT_GROUP := "arcadia.kubeagi.k8s.com.cn"
  const AGENT_KIND := "agent"

  datatype Verdict =
    | Ready
    | DuplicateName | InputNeedsNext | OutputHasNext | NeedOneInput | NeedOneOutput
    | NoGroup | BadEnding | NeedOneEnding | EndingNotOnlyToOutput
    | InitFailed(error: InitError)
    | NodeNotReady(node: Name)
    | StillChecking

  function CountKind(spec: seq<NodeSpec>, kind: string): nat
  {
    if spec == [] then 0
    else CountKind(spec[..|spec| - 1], kind) + if spec[|spec| - 1].kind == kind then 1 else 0
  }

  /** The number of edges that point to a node. */
  function CountEdges(spec: seq<NodeSpec>, target: Name): nat
  {
    if spec == [] then 0
    else CountEdges(spec[..|spec| - 1], target) + Count(spec[|spec| - 1].next, target)
  }

  /** The number of successors of the last node that has any. */
  function LastFanOut(spec: seq<NodeSpec>): nat
  {
    if spec == [] then 0
    else if spec[|spec| - 1].next != [] then |spec[|spec| - 1].next|
    else LastFanOut(spec[..|spec| - 1])
  }

  predicate NodeShape(n: NodeSpec)
  {
    && (n.kind == INPUT_NODE ==> n.next != [])
    && (n.kind == OUTPUT_NODE ==> n.next == [])
  }

  predicate MayEnd(n: NodeSpec)
  {
    n.group.Some? && (n.group.value == CHAIN_GROUP || n.group.value == AGENT_GROUP || n.kind == AGENT_KIND)
  }

  /** Rules 1 to 4 and 8: names are unique, there is one input and it points somewhere, and one output that does not. */
  ghost predicate Shape(spec: seq<NodeSpec>)
  {
    && UniqueNames(spec)
    && (forall i :: 0 <= i < |spec| ==> NodeShape(spec[i]))
    && CountKind(spec, INPUT_NODE) == 1 && CountKind(spec, OUTPUT_NODE) == 1
  }

  /** Rule 5: exactly one edge points to the output, and it comes from a chain or an agent. Rule 6 as implemented:
      it is the last node with successors, whichever that is, that must have a single one. */
  ghost predicate Ending(spec: seq<NodeSpec>, output: Name)
  {
    && (forall i :: 0 <= i < |spec| && output in spec[i].next ==> MayEnd(spec[i]))
    && CountEdges(spec, output) == 1
    && LastFanOut(spec) == 1
  }

  /** What is wrong with the next node, given the names seen before it. */
  function Fault(n: NodeSpec, seen: set<Name>): Verdict
  {
    if n.name in seen then DuplicateName
    else if n.kind == INPUT_NODE && n.next == [] then InputNeedsNext
    else if n.kind == OUTPUT_NODE && n.next != [] then OutputHasNext
    else Ready
  }

  /** The first i nodes have passed. */
  ghost predicate Passed(spec: seq<NodeSpec>, i: nat)
    requires i <= |spec|
  {
    forall j :: 0 <= j < i ==> Fault(spec[j], Declared(spec[..j])) == Ready
  }

  lemma {:induction false} PassedOneMore(spec: seq<NodeSpec>, i: nat)
    requires i < |spec| && Passed(spec, i)
    ensures if Fault(spec[i], Declared(spec[..i])) == Ready then Passed(spec, i + 1) else !Passed(spec, |spec|)
  {
  }

  lemma {:induction false} PassedIsShape(spec: seq<NodeSpec>)
    ensures Passed(spec, |spec|) <==> UniqueNames(spec) && forall i :: 0 <= i < |spec| ==> NodeShape(spec[i])
  {
    forall j | 0 <= j < |spec| && UniqueNames(spec)
      ensures spec[j].name !in Declared(spec[..j])
    {
      UniqueIsNew(spec, j);
    }
    if Passed(spec, |spec|) {
      forall i, j | 0 <= i < j < |spec|
        ensures spec[i].name != spec[j].name
      {
        assert spec[..j][i].name in Declared(spec[..j]);
        assert Fault(spec[j], Declared(spec[..j])) == Ready;
      }
      forall i | 0 <= i < |spec|
        ensures NodeShape(spec[i])
      {
        assert Fault(spec[i], Declared(spec[..i])) == Ready;
      }
    }
  }

  /** The reported verdict names something that is wrong; output is the name of the output node. */
  ghost predicate IsReason(spec: seq<NodeSpec>, output: Name, verdict: Verdict)
  {
    match verdict
    case DuplicateName => exists i, j :: 0 <= i < j < |spec| && spec[i].name == spec[j].name
    case InputNeedsNext => exists i :: 0 <= i < |spec| && spec[i].kind == "Input" && spec[i].next == []
    case OutputHasNext => exists i :: 0 <= i < |spec| && spec[i].kind == "Output" && spec[i].next != []
    case NeedOneInput => forall i :: !IsOnly(spec, "Input", i)
    case NeedOneOutput => forall i :: !IsOnly(spec, "Output", i)
    case NoGroup => exists i :: 0 <= i < |spec| && output in spec[i].next && spec[i].group == None
    case BadEnding =>
      exists i :: 0 <= i < |spec| && output in spec[i].next && spec[i].group.Some? && !IsChainOrAgent(spec[i])
    case NeedOneEnding => CountEdges(spec, output) != 1
    case EndingNotOnlyToOutput => LastFanOut(spec) != 1
    case _ => false
  }

  predicate IsOnly(spec: seq<NodeSpec>, kind: string, i: int)
  {
    0 <= i < |spec| && spec[i].kind == kind && forall k :: 0 <= k < |spec| && k != i ==> spec[k].kind != kind
  }

  /** The node is of the group of chains, of that of agents, or an agent by its kind. */
  predicate IsChainOrAgent(n: NodeSpec)
  {
    n.group == Some("chain.arcadia.kubeagi.k8s.com.cn") || n.group == Some("arcadia.kubeagi.k8s.com.cn") || n.kind == "agent"
  }

  lemma {:induction false} CountNone(spec: seq<NodeSpec>, kind: string)
    ensures CountKind(spec, kind) == 0 <==> forall i :: 0 <= i < |spec| ==> spec[i].kind != kind
  {
    if spec != [] { CountNone(spec[..|spec| - 1], kind); }
  }

  lemma {:induction false} CountOne(spec: seq<NodeSpec>, kind: string)
    ensures CountKind(spec, kind) == 1 <==> exists i :: IsOnly(spec, kind, i)
  {
    if spec != [] {
      var n := |spec| - 1;
      CountNone(spec[..n], kind);
      CountOne(spec[..n], kind);
      if spec[n].kind == kind {
        if CountKind(spec, kind) == 1 { assert IsOnly(spec, kind, n); }
      } else {
        if i :| IsOnly(spec[..n], kind, i) { assert IsOnly(spec, kind, i); }
        if i :| IsOnly(spec, kind, i) { assert IsOnly(spec[..n], kind, i); }
      }
    }
  }

  lemma {:induction false} LastIsOnly(spec: seq<NodeSpec>, kind: string, i: nat)
    requires IsOnly(spec, kind, i)
    ensures LastOfKind(spec, kind) == spec[i].name
  {
    if i < |spec| - 1 { LastIsOnly(spec[..|spec| - 1], kind, i); }
  }

  /** The node is the input, and points somewhere. */
  predicate IsInput(spec: seq<NodeSpec>, i: int)
  {
    IsOnly(spec, "Input", i) && spec[i].next != []
  }

  predicate IsOutput(spec: seq<NodeSpec>, i: int)
  {
    IsOnly(spec, "Output", i) && spec[i].next == []
  }

  /** The first rules: names differ, there is one input, which points somewhere, and one output, which does not. */
  lemma {:induction false} ShapeIff(spec: seq<NodeSpec>)
    ensures Shape(spec) <==>
            && (forall i, j :: 0 <= i < j < |spec| ==> spec[i].name != spec[j].name)
            && (exists i :: IsInput(spec, i)) && (exists i :: IsOutput(spec, i))
    ensures forall i :: Shape(spec) && IsOutput(spec, i) ==> LastOfKind(spec, "Output") == spec[i].name
  {
    CountOne(spec, "Input");
    CountOne(spec, "Output");
    if Shape(spec) {
      var i :| IsOnly(spec, "Input", i);
      var j :| IsOnly(spec, "Output", j);
      assert NodeShape(spec[i]) && NodeShape(spec[j]);
      assert IsInput(spec, i) && IsOutput(spec, j);
    }
    forall i | IsOutput(spec, i) ensures LastOfKind(spec, "Output") == spec[i].name { LastIsOnly(spec, "Output", i); }
    if i, j :| IsInput(spec, i) && IsOutput(spec, j) {
      forall k | 0 <= k < |spec| ensures NodeShape(spec[k]) {
        if spec[k].kind == "Input" { assert k == i; }
        if spec[k].kind == "Output" { assert k == j; }
      }
    }
  }

  /** The starting nodes of the graph are the input and the nodes that no node points to. */
  lemma {:induction false} StartsIff(spec: seq<NodeSpec>, g: Graph, n: Name)
    requires Shape(spec) && EdgesOf(spec, g) && StartsOf(spec, g) && Targets(spec) <= Declared(spec)
    ensures n in g.starting <==>
            exists i :: 0 <= i < |spec| && spec[i].name == n
                        && (spec[i].kind == "Input" || forall j :: 0 <= j < |spec| ==> n !in spec[j].next)
  {
    ShapeIff(spec);
    var a :| IsInput(spec, a);
    LastIsOnly(spec, INPUT_NODE, a);
    if n in g.nodes { UnpointedIff(spec, g, n); }
  }

  lemma {:induction false} UnpointedIff(spec: seq<NodeSpec>, g: Graph, n: Name)
    requires EdgesOf(spec, g) && n in g.nodes
    ensures Prev(g, n) == [] <==> forall j :: 0 <= j < |spec| ==> n !in spec[j].next
  {
    if Prev(g, n) != [] {
      var a := Prev(g, n)[0];
      assert Count(Prev(g, n), a) == Count(Next(g, a), n);
      var j :| 0 <= j < |spec| && spec[j].name == a;
      assert n in spec[j].next;
    }
    forall j | 0 <= j < |spec| && n in spec[j].next ensures Prev(g, n) != [] {
      assert spec[j].name in Declared(spec);
      assert Count(Prev(g, n), spec[j].name) == Count(Next(g, spec[j].name), n);
    }
  }

  /** Who may end an application: a single edge points to the output, from a chain or an agent whose group is set. */
  lemma {:induction false} EndingIff(spec: seq<NodeSpec>, output: Name)
    ensures Ending(spec, output) <==>
            && CountEdges(spec, output) == 1 && LastFanOut(spec) == 1
            && (forall i :: 0 <= i < |spec| && output in spec[i].next ==> spec[i].group.Some? && IsChainOrAgent(spec[i]))
  {
    forall i | 0 <= i < |spec| ensures MayEnd(spec[i]) <==> spec[i].group.Some? && IsChainOrAgent(spec[i]) {}
  }

  method CheckShape(spec: seq<NodeSpec>) returns (verdict: Verdict, output: Name)
    ensures verdict != StillChecking && (verdict == Ready <==> Shape(spec))
    ensures verdict != Ready ==> IsReason(spec, "", verdict)
    ensures verdict == Ready ==> output == LastOfKind(spec, OUTPUT_NODE)
  {
    var inputs, outputs;
    verdict, inputs, outputs, output := ScanNodes(spec);
    PassedIsShape(spec);
    CountOne(spec, INPUT_NODE);
    CountOne(spec, OUTPUT_NODE);
    if verdict == Ready {
      verdict := if inputs != 1 then NeedOneInput else if outputs != 1 then NeedOneOutput else Ready;
    }
  }

  method ScanNodes(spec: seq<NodeSpec>) returns (verdict: Verdict, inputs: nat, outputs: nat, output: Name)
    ensures verdict != StillChecking && (verdict == Ready <==> Passed(spec, |spec|))
    ensures verdict != Ready ==> IsReason(spec, "", verdict)
    ensures verdict == Ready ==> Tallied(spec, inputs, outputs, output)
  {
    verdict, inputs, outputs, output := Ready, 0, 0, "";
    var nodeName: set<Name> := {};
    var i := 0;
    while i < |spec| && verdict == Ready
      invariant i <= |spec|
      invariant verdict == Ready ==> Scanned(spec, i, nodeName, inputs, outputs, output)
      invariant verdict != Ready ==> verdict != StillChecking && !Passed(spec, |spec|) && IsReason(spec, "", verdict)
      decreases |spec| - i, verdict == Ready
    {
      verdict := Fault(spec[i], nodeName);
      FaultIsReason(spec, i);
      ScanOne(spec, i, nodeName, inputs, outputs, output);
      if verdict == Ready {
        nodeName := nodeName + {spec[i].name};
        if spec[i].kind == INPUT_NODE {
          inputs := inputs + 1;
        }
        if spec[i].kind == OUTPUT_NODE {
          outputs, output := outputs + 1, spec[i].name;
        }
        i := i + 1;
      }
    }
    assert spec[..|spec|] == spec;
  }

  lemma {:induction false} FaultIsReason(spec: seq<NodeSpec>, i: nat)
    requires i < |spec|
    ensures Fault(spec[i], Declared(spec[..i])) == Ready || IsReason(spec, "", Fault(spec[i], Declared(spec[..i])))
  {
    if spec[i].name in Declared(spec[..i]) {
      var j :| 0 <= j < i && spec[..i][j].name == spec[i].name;
      assert spec[j].name == spec[i].name;
    }
  }

  /** The first i nodes have passed and are counted. */
  ghost predicate Scanned(spec: seq<NodeSpec>, i: nat, names: set<Name>, inputs: nat, outputs: nat, output: Name)
  {
    i <= |spec| && names == Declared(spec[..i]) && Passed(spec, i) && Tallied(spec[..i], inputs, outputs, output)
  }

  lemma {:induction false} ScanOne(spec: seq<NodeSpec>, i: nat, names: set<Name>, inputs: nat, outputs: nat,
                                   output: Name)
    requires i < |spec| && Scanned(spec, i, names, inputs, outputs, output)
    ensures var n := spec[i];
            if Fault(n, names) == Ready then
              Scanned(spec, i + 1, names + {n.name}, if n.kind == INPUT_NODE then inputs + 1 else inputs,
                      if n.kind == OUTPUT_NODE then outputs + 1 else outputs,
                      if n.kind == OUTPUT_NODE then n.name else output)
            else !Passed(spec, |spec|) && Fault(n, names) != StillChecking
  {
    DeclaredSnoc(spec, i);
    PassedOneMore(spec, i);
    TalliedSnoc(spec, i, inputs, outputs, output);
  }

  ghost predicate Tallied(spec: seq<NodeSpec>, inputs: nat, outputs: nat, output: Name)
  {
    && inputs == CountKind(spec, INPUT_NODE) && outputs == CountKind(spec, OUTPUT_NODE)
    && output == LastOfKind(spec, OUTPUT_NODE)
  }

  lemma {:induction false} TalliedSnoc(spec: seq<NodeSpec>, i: nat, inputs: nat, outputs: nat, output: Name)
    requires i < |spec| && Tallied(spec[..i], inputs, outputs, output)
    ensures Tallied(spec[..i + 1],
                    if spec[i].kind == INPUT_NODE then inputs + 1 else inputs,
                    if spec[i].kind == OUTPUT_NODE then outputs + 1 else outputs,
                    if spec[i].kind == OUTPUT_NODE then spec[i].name else output)
  {
    assert spec[..i + 1][..i] == spec[..i];
  }

  /** What is wrong with a node that points to the output. */
  function EndingFault(n: NodeSpec): Verdict
  {
    if n.group.None? then NoGroup
    else if n.group.value != CHAIN_GROUP && n.group.value != AGENT_GROUP && n.kind != AGENT_KIND then BadEnding
    else Ready
  }

  method CheckEnding(spec: seq<NodeSpec>, output: Name) returns (verdict: Verdict)
    ensures verdict != StillChecking && (verdict == Ready <==> Ending(spec, output))
    ensures verdict != Ready ==> IsReason(spec, output, verdict)
  {
    var toOutput, toOutputNodeNext := 0, 0;
    for i := 0 to |spec|
      invariant forall j :: 0 <= j < i && output in spec[j].next ==> MayEnd(spec[j])
      invariant toOutput == CountEdges(spec[..i], output)
      invariant toOutputNodeNext == LastFanOut(spec[..i])
    {
      assert spec[..i + 1][..i] == spec[..i];
      var edges;
      verdict, edges := CheckEdges(spec[i], output);
      if verdict != Ready {
        return;
      }
      toOutput := toOutput + edges;
      toOutputNodeNext := if spec[i].next == [] then toOutputNodeNext else |spec[i].next|;
    }
    assert spec[..|spec|] == spec;
    verdict := if toOutput != 1 then NeedOneEnding else if toOutputNodeNext != 1 then EndingNotOnlyToOutput else Ready;
  }

  /** The inner loop: the edges of one node to the output. */
  method CheckEdges(node: NodeSpec, output: Name) returns (verdict: Verdict, edges: nat)
    ensures verdict == if output in node.next then EndingFault(node) else Ready
    ensures verdict == Ready ==> edges == Count(node.next, output)
  {
    edges := 0;
    for j := 0 to |node.next|
      invariant edges == Count(node.next[..j], output)
      invariant edges > 0 ==> EndingFault(node) == Ready
    {
      assert node.next[..j + 1] == node.next[..j] + [node.next[j]];
      CountSnoc(node.next[..j], node.next[j], output);
      if node.next[j] == output {
        edges := edges + 1;
        verdict := EndingFault(node);
        if verdict != Ready {
          return;
        }
      }
    }
    assert node.next[..|node.next|] == node.next;
    verdict := Ready;
  }

  /** A readiness check is a node run that leaves the arguments alone and fails if the node is not ready. */
  function Readiness(unready: set<Name>): Behaviour
  {
    (node, args) => NodeResult(args, if node in unready then Some(OtherError("")) else None)
  }

  /** The specification keeps the rules and this is its graph. */
  ghost predicate Prepared(spec: seq<NodeSpec>, g: Graph)
  {
    && Shape(spec) && Ending(spec, LastOfKind(spec, OUTPUT_NODE))
    && Targets(spec) <= Declared(spec) && EdgesOf(spec, g) && StartsOf(spec, g)
  }

  ghost predicate Validated(spec: seq<NodeSpec>, g: Graph, unready: set<Name>, turns: nat)
  {
    Prepared(spec, g) && Checked(g, unready, turns)
  }

  /** The rules are kept, every node can be made and every edge is declared. */
  ghost predicate Admissible(spec: seq<NodeSpec>, broken: set<Name>)
  {
    && Shape(spec) && Ending(spec, LastOfKind(spec, OUTPUT_NODE))
    && Declared(spec) !! broken && Targets(spec) <= Declared(spec)
  }

  /** turns bounds the part of the worklist loop that is followed; the loop itself has no bound.
      g is the graph that Init built from the specification. */
  method Validate(spec: seq<NodeSpec>, broken: set<Name>, unready: set<Name>, turns: nat)
    returns (verdict: Verdict, ghost g: Graph)
    ensures Admissible(spec, broken) ==> Prepared(spec, g) && (verdict == Ready <==> Checked(g, unready, turns))
    ensures Admissible(spec, broken) && verdict == StillChecking ==> At(g, turns).queue != []
    ensures !Admissible(spec, broken) ==> IsObjection(spec, verdict)
    ensures Admissible(spec, broken) ==>
              verdict.Ready? || verdict.StillChecking? || (verdict.NodeNotReady? && verdict.node in unready)
  {
    var app := new Application(spec);
    verdict, g := Prepare(app, broken);
    if verdict == Ready {
      verdict := CheckNodes(app, unready, turns);
    }
  }

  /** What is wrong with the rules, or, if nothing is, the graph cannot be built. */
  ghost predicate IsObjection(spec: seq<NodeSpec>, verdict: Verdict)
  {
    var output := LastOfKind(spec, OUTPUT_NODE);
    if Shape(spec) && Ending(spec, output) then verdict.InitFailed?
    else IsReason(spec, if Shape(spec) then output else "", verdict)
  }

  method Prepare(app: Application, broken: set<Name>) returns (verdict: Verdict, ghost g: Graph)
    requires app.nodes == map[] && app.startingNodes == [] && app.endingNode == None
    modifies app
    ensures verdict == Ready <==> Admissible(app.spec, broken)
    ensures verdict == Ready ==> app.Valid() && g == app.View() && Prepared(app.spec, g)
    ensures verdict == Ready || IsObjection(app.spec, verdict)
  {
    verdict := CheckRules(app.spec);
    if verdict == Ready {
      verdict := Build(app, broken);
    }
    g := app.View();
  }

  method CheckRules(spec: seq<NodeSpec>) returns (verdict: Verdict)
    ensures verdict == Ready <==> Shape(spec) && Ending(spec, LastOfKind(spec, OUTPUT_NODE))
    ensures verdict != StillChecking
    ensures verdict != Ready ==> IsReason(spec, if Shape(spec) then LastOfKind(spec, OUTPUT_NODE) else "", verdict)
  {
    var output;
    verdict, output := CheckShape(spec);
    if verdict == Ready {
      verdict := CheckEnding(spec, output);
    }
  }

  method Build(app: Application, broken: set<Name>) returns (verdict: Verdict)
    requires UniqueNames(app.spec) && app.nodes == map[] && app.startingNodes == [] && app.endingNode == None
    modifies app
    ensures verdict == Ready <==> Declared(app.spec) !! broken && Targets(app.spec) <= Declared(app.spec)
    ensures verdict == Ready ==> app.Valid() && EdgesOf(app.spec, app.View()) && StartsOf(app.spec, app.View())
    ensures verdict == Ready || verdict.InitFailed?
  {
    var error := app.Init(broken);
    if error.Some? {
      return InitFailed(error.value);
    }
    verdict := Ready;
  }

  /** The list ran empty within the given turns and no node it visited was unready. */
  ghost predicate Checked(g: Graph, unready: set<Name>, turns: nat)
  {
    At(g, turns).queue == [] && forall v :: v in At(g, turns).visited ==> v !in unready
  }

  method CheckNodes(app: Application, unready: set<Name>, turns: nat) returns (verdict: Verdict)
    requires app.Valid()
    ensures verdict == Ready <==> Checked(app.View(), unready, turns)
    ensures verdict == StillChecking ==> At(app.View(), turns).queue != []
    ensures verdict.Ready? || verdict.StillChecking? || (verdict.NodeNotReady? && verdict.node in unready)
  {
    var out, leave, deferred, ended := app.Walk(Readiness(unready), map[], turns);
    ReadinessWalk(app.View(), unready, turns);
    HaltIsUnready(app.View(), unready, turns);
    verdict := match leave
      case Some(EarlyAnswer(_)) => NodeNotReady("")
      case Some(NodeFailed(node, _)) => NodeNotReady(node)
      case None => if ended then Ready else StillChecking;
  }

  lemma {:induction false} HaltIsUnready(g: Graph, unready: set<Name>, n: nat)
    ensures var x := ExecAt(g, Readiness(unready), map[], n);
            forall v, msg :: x.halt == Some(NodeFailed(v, msg)) ==> v in unready
  {
    if n > 0 { HaltIsUnready(g, unready, n - 1); }
  }

  /** Checking readiness visits the same nodes in the same order as running them would, up to the first unready one. */
  lemma {:induction false} ReadinessWalk(g: Graph, unready: set<Name>, n: nat)
    ensures var x := ExecAt(g, Readiness(unready), map[], n);
            && (x.halt.None? ==> x.work == At(g, n) && forall v :: v in At(g, n).visited ==> v !in unready)
            && (x.halt.Some? ==> exists v :: v in At(g, n).visited && v in unready)
            && (forall r :: x.halt == Some(r) ==> r.NodeFailed?)
  {
    if n > 0 {
      ReadinessWalk(g, unready, n - 1);
      var x := ExecAt(g, Readiness(unready), map[], n - 1);
      if x.halt.None? && x.work.queue != [] { ReadinessTurn(g, unready, x); }
    }
  }

  lemma {:induction false} ReadinessTurn(g: Graph, unready: set<Name>, x: Exec)
    requires x.halt.None? && x.work.queue != [] && forall v :: v in x.work.visited ==> v !in unready
    ensures var y := ExecTurn(g, Readiness(unready), x);
            && (y.halt.None? ==>
                  y.work == Step(g, x.work) && forall v :: v in Step(g, x.work).visited ==> v !in unready)
            && (y.halt.Some? ==>
                  y.halt.value.NodeFailed? && exists v :: v in Step(g, x.work).visited && v in unready)
  {
    if ExecTurn(g, Readiness(unready), x).halt.Some? {
      assert x.work.queue[0] in Step(g, x.work).visited;
    }
  }

  /** An application that passed validation never loops: whatever its nodes do later, every Run of it leaves the
      worklist, at a node that halts or after running every reachable node exactly once. */
  lemma {:induction false} ValidatedRunsEnd(spec: seq<NodeSpec>, g: Graph, unready: set<Name>, turns: nat,
                                            behaviour: Behaviour, args: Args)
    returns (n: nat)
    requires Validated(spec, g, unready, turns)
    ensures var x := ExecAt(g, behaviour, args, n);
            && Distinct(x.started) && Topological(g, x.started)
            && (x.halt.Some? || (x.work.queue == [] && forall v :: v in x.started <==> Reachable(g, v)))
    ensures forall v :: Reachable(g, v) ==> v !in unready && !Tangled(g, v)
  {
    InitIsWellFormed(spec, g);
    AtInv(g, turns);
    EmptyMeansDone(g, At(g, turns));
    n := RunsToTheEnd(g, behaviour, args);
    ExecFaithful(g, behaviour, args, n);
  }

  /** With enough turns the check says ready exactly if nothing reachable is tangled or unready. */
  lemma {:induction false} ReadyIff(g: Graph, unready: set<Name>)
    requires WellFormed(g)
    ensures (exists n :: Checked(g, unready, n)) <==> Unobstructed(g) && forall v :: Reachable(g, v) ==> v !in unready
  {
    if n: nat :| Checked(g, unready, n) {
      AtInv(g, n);
      EmptyMeansDone(g, At(g, n));
    }
    if Unobstructed(g) && forall v :: Reachable(g, v) ==> v !in unready {
      var n := EventuallyEmpty(g, 0);
      AtInv(g, n);
      EmptyMeansDone(g, At(g, n));
      assert Checked(g, unready, n);
    }
  }

  /** A node is reported exactly if some unready node neither lies on a cycle nor behind one. */
  lemma {:induction false} ReportsIff(g: Graph, unready: set<Name>)
    requires WellFormed(g)
    ensures Halts(g, Readiness(unready), map[]) <==> exists v :: v in g.nodes && !Tangled(g, v) && v in unready
  {
    HaltsIff(g, Readiness(unready), map[]);
    if n: nat :| ExecAt(g, Readiness(unready), map[], n).halt.Some? {
      ReadinessWalk(g, unready, n);
      var v :| v in At(g, n).visited && v in unready;
      AtInv(g, n);
      VisitedUntangled(g, At(g, n), v);
    }
    if v :| v in g.nodes && !Tangled(g, v) && v in unready {
      var n := UntangledIsVisited(g, v, 0);
      ReadinessWalk(g, unready, n);
    }
  }

  /** The check of a graph with an obstruction ends only if it finds an unready node that is not tangled; without one,
      the obstruction is never reported, because the check does not end. */
  lemma {:induction false} CycleIsNotReported(g: Graph, unready: set<Name>, v: Name)
    requires WellFormed(g) && Reachable(g, v) && Tangled(g, v)
    ensures Ends(g, Readiness(unready), map[]) <==> exists u :: u in g.nodes && !Tangled(g, u) && u in unready
    ensures forall n :: !Checked(g, unready, n)
  {
    EndsIff(g, Readiness(unready), map[]);
    ReportsIff(g, unready);
    forall n ensures !Checked(g, unready, n) { TangledNeverEmpties(g, v, n); }
  }

  const TO_LOOP := NodeSpec("in", INPUT_NODE, None, ["loop"])
  const LOOP := NodeSpec("loop", "LLM", None, ["loop", "llm"])
  const TO_OUT := NodeSpec("llm", "LLMChain", Some(CHAIN_GROUP), ["out"])
  const CYCLIC := [TO_LOOP, LOOP, TO_OUT, OUT]

  /** A specification with a cycle that passes all rules, and whose check does not end even if all nodes are ready. */
  lemma {:induction false} CyclePasses(g: Graph)
    ensures Shape(CYCLIC) && Ending(CYCLIC, "out") && LastOfKind(CYCLIC, OUTPUT_NODE) == "out"
    ensures Targets(CYCLIC) <= Declared(CYCLIC)
    ensures EdgesOf(CYCLIC, g) && StartsOf(CYCLIC, g) ==> !Ends(g, Readiness({}), map[])
  {
    CyclicKeepsRules();
    if EdgesOf(CYCLIC, g) && StartsOf(CYCLIC, g) {
      InitIsWellFormed(CYCLIC, g);
      CyclicIsTangled(g);
      CycleIsNotReported(g, {}, "loop");
    }
  }

  lemma {:induction false} CyclicIsTangled(g: Graph)
    requires EdgesOf(CYCLIC, g) && StartsOf(CYCLIC, g)
    ensures Reachable(g, "loop") && Tangled(g, "loop")
  {
    assert CYCLIC[0] == TO_LOOP && CYCLIC[1] == LOOP;
    assert TO_LOOP.name in Declared(CYCLIC) && LOOP.name in Declared(CYCLIC);
    assert Next(g, "in") == ["loop"] && Next(g, "loop") == ["loop", "llm"];
    CyclicInput();
    LoopIsTangled(g, "in", "loop");
  }

  lemma {:induction false} LoopIsTangled(g: Graph, a: Name, b: Name)
    requires a in g.nodes && b in g.nodes && a in g.starting && Edge(g, a, b) && Edge(g, b, b)
    ensures Reachable(g, b) && Tangled(g, b)
  {
    assert IsPath(g, [a, b]);
    assert CyclesFirst(g, [b, b], 1);
  }

  lemma {:induction false} CyclicInput()
    ensures LastOfKind(CYCLIC, INPUT_NODE) == "in" && LastOfKind(CYCLIC, OUTPUT_NODE) == "out"
  {
    LastOfFour(TO_LOOP, LOOP, TO_OUT, OUT, INPUT_NODE);
    assert |INPUT_NODE| != |OUTPUT_NODE| && |INPUT_NODE| != |"LLM"| && |INPUT_NODE| != |"LLMChain"|;
  }

  lemma {:induction false} LastOfFour(a: NodeSpec, b: NodeSpec, c: NodeSpec, d: NodeSpec, kind: string)
    ensures LastOfKind([a, b, c, d], kind)
         == if d.kind == kind then d.name else if c.kind == kind then c.name
            else if b.kind == kind then b.name else if a.kind == kind then a.name else ""
  {
    assert [a, b, c, d][..3] == [a, b, c] && [a, b, c][..2] == [a, b] && [a, b][..1] == [a];
    assert LastOfKind([a], kind) == if a.kind == kind then a.name else "";
    assert LastOfKind([a, b, c], kind) == if c.kind == kind then c.name else LastOfKind([a, b], kind);
  }

  lemma {:induction false} CyclicKeepsRules()
    ensures Shape(CYCLIC) && Ending(CYCLIC, "out") && LastOfKind(CYCLIC, OUTPUT_NODE) == "out"
    ensures Targets(CYCLIC) <= Declared(CYCLIC)
  {
    CyclicInput();
    FourCounts(TO_LOOP, LOOP, TO_OUT, OUT, INPUT_NODE, "out");
    FourCounts(TO_LOOP, LOOP, TO_OUT, OUT, OUTPUT_NODE, "out");
    assert |"loop"| != |"out"| && |"in"| != |"out"| && "llm"[0] != "out"[0] && |"loop"| != |"llm"| && |"in"| != |"llm"|;
    assert Count(LOOP.next, "out") == 0 by { assert LOOP.next[..1] == ["loop"]; }
    assert Count(TO_LOOP.next, "out") == 0 && Count(TO_OUT.next, "out") == 1;
    assert CYCLIC[..3] == [TO_LOOP, LOOP, TO_OUT];
    assert LastFanOut(CYCLIC) == LastFanOut([TO_LOOP, LOOP, TO_OUT]) == 1;
    assert CYCLIC[0].name == "in" && CYCLIC[1].name == "loop" && CYCLIC[2].name == "llm" && CYCLIC[3].name == "out";
  }

  lemma {:induction false} CountsSnoc(spec: seq<NodeSpec>, n: NodeSpec, kind: string, target: Name)
    ensures CountKind(spec + [n], kind) == CountKind(spec, kind) + if n.kind == kind then 1 else 0
    ensures CountEdges(spec + [n], target) == CountEdges(spec, target) + Count(n.next, target)
  {
    assert (spec + [n])[..|spec|] == spec;
  }

  /** No later node has successors. */
  predicate IsLastWithNext(spec: seq<NodeSpec>, i: nat)
  {
    forall j :: i < j < |spec| ==> spec[j].next == []
  }

  lemma {:induction false} FanOutOfLast(spec: seq<NodeSpec>, i: nat)
    requires i < |spec| && spec[i].next != [] && IsLastWithNext(spec, i)
    ensures LastFanOut(spec) == |spec[i].next|
  {
    if i < |spec| - 1 { FanOutOfLast(spec[..|spec| - 1], i); }
  }

  /** A node with a later one that has successors can change without being noticed. */
  lemma {:induction false} FanOutElsewhere(spec: seq<NodeSpec>, i: nat, n: NodeSpec)
    requires i < |spec| && !IsLastWithNext(spec, i)
    ensures LastFanOut(spec[i := n]) == LastFanOut(spec)
  {
    var m := |spec| - 1;
    assert i < m && spec[i := n][..m] == spec[..m][i := n];
    if spec[m].next == [] {
      assert !IsLastWithNext(spec[..m], i);
      FanOutElsewhere(spec[..m], i, n);
    }
  }

  /** An edge more to another node changes no edge to the target. */
  lemma {:induction false} CountOtherEdge(spec: seq<NodeSpec>, i: nat, x: Name, target: Name)
    requires i < |spec| && x != target
    ensures CountEdges(spec[i := spec[i].(next := spec[i].next + [x])], target) == CountEdges(spec, target)
  {
    var m := |spec| - 1;
    var r := spec[i := spec[i].(next := spec[i].next + [x])];
    if i < m {
      assert r[..m] == spec[..m][i := spec[i].(next := spec[i].next + [x])];
      CountOtherEdge(spec[..m], i, x, target);
    } else {
      assert r[..m] == spec[..m];
      CountSnoc(spec[i].next, x, target);
    }
  }

  /** Rule 6 is met if no later node than the ending node has successors. */
  lemma {:induction false} LastPointsOnlyToOutput(spec: seq<NodeSpec>, output: Name, i: nat)
    requires Ending(spec, output) && i < |spec| && output in spec[i].next && IsLastWithNext(spec, i)
    ensures spec[i].next == [output]
  {
    FanOutOfLast(spec, i);
    assert spec[i].next == [spec[i].next[0]];
  }

  function Forked(spec: seq<NodeSpec>, i: nat, x: Name): seq<NodeSpec>
    requires i < |spec|
  {
    spec[i := spec[i].(next := spec[i].next + [x])]
  }

  /** If a later node has successors, the ending node may have any successor besides the output. */
  lemma {:induction false} ForkPasses(spec: seq<NodeSpec>, output: Name, i: nat, x: Name)
    requires Ending(spec, output) && i < |spec| && output in spec[i].next && !IsLastWithNext(spec, i) && x != output
    ensures Ending(Forked(spec, i, x), output)
  {
    FanOutElsewhere(spec, i, spec[i].(next := spec[i].next + [x]));
    CountOtherEdge(spec, i, x, output);
  }

  /**
   The exact reach of rule 6 as implemented: for a specification that passes, a second successor of the ending node is
   refused, whichever it is, if and only if no later node has successors.
   */
  lemma {:induction false} ForkRefusedIff(spec: seq<NodeSpec>, output: Name, i: nat, x: Name)
    requires Ending(spec, output) && i < |spec| && output in spec[i].next && x != output
    ensures !Ending(Forked(spec, i, x), output) <==> IsLastWithNext(spec, i)
  {
    if IsLastWithNext(spec, i) {
      FanOutOfLast(spec, i);
      FanOutOfLast(Forked(spec, i, x), i);
    } else {
      ForkPasses(spec, output, i, x);
    }
  }

  ghost predicate RuleFive(spec: seq<NodeSpec>, output: Name)
  {
    CountEdges(spec, output) == 1 && forall i :: 0 <= i < |spec| && output in spec[i].next ==> MayEnd(spec[i])
  }

  /** Rule 6 as the message of the check puts it: a node that points to the output can only point to the output. */
  predicate RuleSix(spec: seq<NodeSpec>, output: Name)
  {
    forall i :: 0 <= i < |spec| && output in spec[i].next ==> spec[i].next == [output]
  }

  lemma {:induction false} EdgesOfOne(spec: seq<NodeSpec>, target: Name, i: nat)
    requires i < |spec|
    ensures CountEdges(spec, target) >= Count(spec[i].next, target)
  {
    if i < |spec| - 1 { EdgesOfOne(spec[..|spec| - 1], target, i); }
  }

  lemma {:induction false} EdgesOfTwo(spec: seq<NodeSpec>, target: Name, i: nat, k: nat)
    requires i < k < |spec|
    ensures CountEdges(spec, target) >= Count(spec[i].next, target) + Count(spec[k].next, target)
  {
    if k < |spec| - 1 { EdgesOfTwo(spec[..|spec| - 1], target, i, k); } else { EdgesOfOne(spec[..k], target, i); }
  }

  lemma {:induction false} RuleSixIsFanOut(spec: seq<NodeSpec>, output: Name, i: nat)
    requires RuleFive(spec, output) && i < |spec| && output in spec[i].next
    ensures RuleSix(spec, output) <==> |spec[i].next| == 1
  {
    forall k | 0 <= k < |spec| && output in spec[k].next ensures k == i {
      if k != i { EdgesOfTwo(spec, output, if i < k then i else k, if i < k then k else i); }
    }
    if |spec[i].next| == 1 { assert spec[i].next == [spec[i].next[0]]; }
  }

  /**
   How the rule as implemented parts from the rule as put, in both ways: i is the ending node and j the last node with
   successors. It refuses what keeps the rule exactly if only j has several, and lets pass what breaks it exactly if
   only i has.
   */
  lemma {:induction false} RuleSixPartsIff(spec: seq<NodeSpec>, output: Name, i: nat, j: nat)
    requires RuleFive(spec, output) && i < |spec| && output in spec[i].next
    requires j < |spec| && spec[j].next != [] && IsLastWithNext(spec, j)
    ensures RuleSix(spec, output) && !Ending(spec, output) <==> |spec[i].next| == 1 && |spec[j].next| > 1
    ensures Ending(spec, output) && !RuleSix(spec, output) <==> |spec[i].next| > 1 && |spec[j].next| == 1
  {
    RuleSixIsFanOut(spec, output, i);
    FanOutOfLast(spec, j);
  }

  const TO_TWO := NodeSpec("in", INPUT_NODE, None, ["llm", "tail"])

  /** It is refused: "llm" points to the output only, but "in", which comes later, has two successors. */
  lemma {:induction false} KeptRuleCanBeRefused()
    ensures var spec := [TO_OUT, OUT, TAIL, TO_TWO];
            Shape(spec) && RuleFive(spec, "out") && RuleSix(spec, "out") && !Ending(spec, "out")
  {
    var spec := [TO_OUT, OUT, TAIL, TO_TWO];
    assert |"tail"| != |"out"| && |"in"| != |"out"| && "llm"[0] != "out"[0] && "llm"[0] != "i"[0];
    assert Count(TO_OUT.next, "out") == 1 && Count(TO_TWO.next, "out") == 0;
    FourCounts(TO_OUT, OUT, TAIL, TO_TWO, INPUT_NODE, "out");
    FourCounts(TO_OUT, OUT, TAIL, TO_TWO, OUTPUT_NODE, "out");
    RuleSixPartsIff(spec, "out", 0, 3);
  }

  const FORKED := NodeSpec("llm", "LLMChain", Some(CHAIN_GROUP), ["out", "tail"])
  const OUT := NodeSpec("out", OUTPUT_NODE, None, [])
  const TAIL := NodeSpec("tail", "LLM", None, [])
  const IN := NodeSpec("in", INPUT_NODE, None, ["llm"])

  lemma {:induction false} FourCounts(a: NodeSpec, b: NodeSpec, c: NodeSpec, d: NodeSpec, kind: string, target: Name)
    ensures CountKind([a, b, c, d], kind)
         == (if a.kind == kind then 1 else 0) + (if b.kind == kind then 1 else 0)
            + (if c.kind == kind then 1 else 0) + (if d.kind == kind then 1 else 0)
    ensures CountEdges([a, b, c, d], target)
         == Count(a.next, target) + Count(b.next, target) + Count(c.next, target) + Count(d.next, target)
  {
    CountsSnoc([], a, kind, target);
    CountsSnoc([a], b, kind, target);
    CountsSnoc([a, b], c, kind, target);
    CountsSnoc([a, b, c], d, kind, target);
    assert [] + [a] == [a] && [a] + [b] == [a, b];
    assert [a, b] + [c] == [a, b, c] && [a, b, c] + [d] == [a, b, c, d];
  }

  /** Such a specification: "llm" points to the output and to "tail", and it passes because "in" comes later. */
  lemma {:induction false} EndingMayPointElsewhere()
    ensures var spec := [FORKED, OUT, TAIL, IN];
            Shape(spec) && Ending(spec, "out") && spec[0].next == ["out", "tail"]
  {
    assert |"tail"| != |"out"| && |"in"| != |"out"| && "llm"[0] != "out"[0] && "llm"[0] != "i"[0];
    assert Count(FORKED.next, "out") == 1 && Count(IN.next, "out") == 0;
    FourCounts(FORKED, OUT, TAIL, IN, INPUT_NODE, "out");
    FourCounts(FORKED, OUT, TAIL, IN, OUTPUT_NODE, "out");
  }
}
