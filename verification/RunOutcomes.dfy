/** How a run of an application ends, in terms of what its nodes are given and what they return. */
module RunOutcomes {
  import opened Options
  import opened WorkGraph
  import opened AppRuntime

  /** The arguments that the k-th started node is given: the first one those of the run, each other one what the node
      before it returned. */
  ghost function Given(behaviour: Behaviour, nodes: seq<Name>, args: Args, k: nat): Args
    requires k <= |nodes|
  {
    if k == 0 then args else behaviour(nodes[k - 1], Given(behaviour, nodes, args, k - 1)).args
  }

  ghost function Returned(behaviour: Behaviour, nodes: seq<Name>, args: Args, k: nat): NodeResult
    requires k < |nodes|
  {
    behaviour(nodes[k], Given(behaviour, nodes, args, k))
  }

  /** The arguments hold a text as the answer, and it is not empty. */
  ghost predicate Answers(args: Args, text: string)
  {
    text != "" && "_answer" in args && args["_answer"] == Text(text)
  }

  ghost predicate Unanswered(args: Args)
  {
    forall text :: !Answers(args, text)
  }

  predicate Fails(r: NodeResult, msg: string)
  {
    r.error == Some(OtherError(msg))
  }

  /** A document is missing, and nothing has been answered yet. */
  ghost predicate FindsNothing(r: NodeResult, msg: string)
  {
    r.error == Some(NullDoc(msg)) && Unanswered(r.args)
  }

  ghost predicate LetsGoOn(r: NodeResult)
  {
    forall msg :: !Fails(r, msg) && !FindsNothing(r, msg)
  }

  lemma {:induction false} AnswersIff(args: Args)
    ensures HasAnswer(args) <==> exists text :: Answers(args, text)
  {
    if HasAnswer(args) { assert Answers(args, args["_answer"].text); }
  }

  /** One node: what decides whether the run goes on. */
  lemma {:induction false} AfterOneNode(node: Name, r: NodeResult)
    ensures AfterNode(node, r) == Go(r.args) <==> LetsGoOn(r)
    ensures forall msg :: Fails(r, msg) <==> AfterNode(node, r) == Halt(NodeFailed(node, msg))
    ensures forall msg :: FindsNothing(r, msg) <==> AfterNode(node, r) == Halt(EarlyAnswer(msg))
  {
    AnswersIff(r.args);
    if r.error.Some? { assert Fails(r, r.error.value.msg) <==> r.error.value.OtherError?; }
    if LetsGoOn(r) && r.error.Some? { assert !FindsNothing(r, r.error.value.msg); }
  }

  lemma {:induction false} SameGiven(behaviour: Behaviour, a: seq<Name>, b: seq<Name>, args: Args, k: nat)
    requires k <= |a| <= |b| && a == b[..|a|]
    ensures Given(behaviour, a, args, k) == Given(behaviour, b, args, k)
  {
    if k > 0 {
      SameGiven(behaviour, a, b, args, k - 1);
      assert a[k - 1] == b[k - 1];
    }
  }

  /** Nodes that all let the run go on hand their arguments through. */
  lemma {:induction false} GoneThrough(behaviour: Behaviour, nodes: seq<Name>, args: Args)
    requires Fold(behaviour, nodes, args).Go?
    ensures Fold(behaviour, nodes, args) == Go(Given(behaviour, nodes, args, |nodes|))
    ensures forall k :: 0 <= k < |nodes| ==> LetsGoOn(Returned(behaviour, nodes, args, k))
  {
    if nodes != [] {
      var n := |nodes| - 1;
      GoneThrough(behaviour, nodes[..n], args);
      SameGiven(behaviour, nodes[..n], nodes, args, n);
      AfterOneNode(nodes[n], Returned(behaviour, nodes, args, n));
      forall k | 0 <= k < |nodes| ensures LetsGoOn(Returned(behaviour, nodes, args, k)) {
        if k < n {
          assert LetsGoOn(Returned(behaviour, nodes[..n], args, k));
          SameGiven(behaviour, nodes[..n], nodes, args, k);
        }
      }
    }
  }

  /** What the started nodes of a run return decides whether and how it was halted, and where its arguments stand. */
  lemma {:induction false} HaltedByLast(g: Graph, behaviour: Behaviour, args: Args, n: nat)
    ensures var x := ExecAt(g, behaviour, args, n);
            var last := |x.started| - 1;
            && (forall k :: 0 <= k < last ==> LetsGoOn(Returned(behaviour, x.started, args, k)))
            && (x.halt.None? <==> x.started == [] || LetsGoOn(Returned(behaviour, x.started, args, last)))
            && (x.halt.None? ==> x.out == Given(behaviour, x.started, args, |x.started|))
            && (forall v, msg :: x.halt == Some(NodeFailed(v, msg)) <==>
                  x.started != [] && x.started[last] == v && Fails(Returned(behaviour, x.started, args, last), msg))
            && (forall msg :: x.halt == Some(EarlyAnswer(msg)) <==>
                  x.started != [] && FindsNothing(Returned(behaviour, x.started, args, last), msg))
  {
    var x := ExecAt(g, behaviour, args, n);
    ExecFaithful(g, behaviour, args, n);
    GoneThrough(behaviour, x.work.visited, args);
    if x.started != [] { AfterOneNode(x.started[|x.started| - 1], Returned(behaviour, x.started, args, |x.started| - 1)); }
    if x.halt.Some? {
      SameGiven(behaviour, x.work.visited, x.started, args, |x.started| - 1);
      forall k | 0 <= k < |x.started| - 1 ensures LetsGoOn(Returned(behaviour, x.started, args, k)) {
        assert LetsGoOn(Returned(behaviour, x.work.visited, args, k));
        SameGiven(behaviour, x.work.visited, x.started, args, k);
      }
    }
  }

  /**
   How a run ends. All started nodes but the last let it go on. It fails with a node exactly if the last one does, and
   answers with the message of the last one exactly if that misses a document while nothing has been answered.
   */
  lemma {:induction false} RunEndsByNode(g: Graph, behaviour: Behaviour, args: Args, n: nat, streaming: bool)
    ensures var x := ExecAt(g, behaviour, args, n);
            var r, last := Conclude(x, streaming), |x.started| - 1;
            && (forall k :: 0 <= k < last ==> LetsGoOn(Returned(behaviour, x.started, args, k)))
            && (forall v, msg :: r == FailedNode(v, msg) <==>
                  x.started != [] && x.started[last] == v && Fails(Returned(behaviour, x.started, args, last), msg))
            && (forall msg :: x.started != [] && FindsNothing(Returned(behaviour, x.started, args, last), msg) ==>
                  r == Answered(Output(msg, [])))
            && (r == StillRunning <==>
                  x.work.queue != [] && (x.started == [] || LetsGoOn(Returned(behaviour, x.started, args, last))))
  {
    HaltedByLast(g, behaviour, args, n);
  }

  /**
   The outcome of a run that comes to the end of the list: no answer exactly if the last arguments hold none and the
   answer is not streamed; else their answer, which may be empty when it is streamed, and their references.
   */
  lemma {:induction false} RunAnswers(g: Graph, behaviour: Behaviour, args: Args, n: nat, streaming: bool)
    ensures var x := ExecAt(g, behaviour, args, n);
            var r, end := Conclude(x, streaming), Given(behaviour, x.started, args, |x.started|);
            x.work.queue == [] && (x.started == [] || LetsGoOn(Returned(behaviour, x.started, args, |x.started| - 1)))
            ==> && (r == NoAnswer <==> !streaming && Unanswered(end))
                && (r == NoAnswer || r.Answered?)
                && (r.Answered? ==>
                      && (forall text :: text != "" ==> (r.output.answer == text <==> Answers(end, text)))
                      && (forall refs :: refs != [] ==> (r.output.references == refs <==>
                            "_references" in end && end["_references"] == References(refs))))
  {
    HaltedByLast(g, behaviour, args, n);
    AnswersIff(Given(behaviour, ExecAt(g, behaviour, args, n).started, args, |ExecAt(g, behaviour, args, n).started|));
  }
}
