/**
 * The on-the-fly tableau builder: a name counter and a registry of fully
 * expanded nodes, updated in place by a recursive expansion driver. Every
 * method of the driver (`CreateGraph`, `Expand`, `ProcessFullyExpandedNode`,
 * `ProcessNode`, `ProcessLiteral`, `SplitNode`, `ExpandConjunction`,
 * `ExpandNext`) is proved to leave the builder in the state, and to report
 * the outcome, that the function of `TableauSpec` of the same name describes.
 */
module TableauBuilder {
  import opened LtlFormula
  import opened TableauNode
  import opened Registry
  import Spec = TableauSpec
  import Props = TableauProperties

  class OnTheFlyLtl {
    var counter: nat
    const nodeSet: NodeSet

    /** The builder state as a value. */
    function State(): Spec.Builder
      reads this, nodeSet
    {
      Spec.Builder(counter, nodeSet.nodes)
    }

    constructor ()
      ensures counter == 0 && nodeSet.nodes == map[] && fresh(nodeSet)
    {
      counter := 0;
      nodeSet := new NodeSet();
    }

    /** Issues the next node name: one more than the previous one. */
    method GenerateNewNodeName() returns (name: nat)
      modifies this
      ensures counter == old(counter) + 1 && name == counter
    {
      counter := counter + 1;
      name := counter;
    }

    /**
     * Builds the tableau of `f` from scratch: the registry is cleared and the
     * counter restarted, so the result depends on `f` and `fuel` only. The
     * registry then satisfies the invariants of `TableauProperties.RegistryValid`,
     * and a formula in negation normal form never stops on a bad negation.
     */
    method CreateGraph(f: Ltl, fuel: nat) returns (outcome: Spec.Outcome)
      modifies this, nodeSet
      ensures Spec.Run(outcome, State()) == Spec.CreateGraph(f, fuel)
      ensures Props.RegistryValid(f, State())
      ensures InNormalForm(f) ==> outcome != Spec.NotNormalForm
    {
      nodeSet.Clear();
      counter := 0;
      var name := GenerateNewNodeName();
      var node := InitFormula(name, f);
      outcome := Expand(node, fuel);
      Props.CreateGraphValid(f, fuel);
    }

    method Expand(node: Node, fuel: nat) returns (outcome: Spec.Outcome)
      modifies this, nodeSet
      ensures Spec.Run(outcome, State()) == Spec.Expand(old(State()), node, fuel)
      decreases fuel, 0
    {
      if fuel == 0 {
        return Spec.OutOfFuel;
      }
      if IsFullyExpanded(node) {
        outcome := ProcessFullyExpandedNode(node, fuel - 1);
      } else {
        outcome := ProcessNode(node, fuel - 1);
      }
    }

    method ProcessFullyExpandedNode(node: Node, fuel: nat) returns (outcome: Spec.Outcome)
      modifies this, nodeSet
      ensures Spec.Run(outcome, State()) == Spec.ProcessFullyExpandedNode(old(State()), node, fuel)
      decreases fuel, 1
    {
      var found := nodeSet.ExtendIncoming(KeyOf(node), node.incoming);
      if found {
        return Spec.Completed;
      }
      var newName := GenerateNewNodeName();
      var added := nodeSet.Add(node);
      outcome := Expand(Seed(node, newName), fuel);
    }

    method ProcessNode(node: Node, fuel: nat) returns (outcome: Spec.Outcome)
      requires !IsFullyExpanded(node)
      modifies this, nodeSet
      ensures Spec.Run(outcome, State()) == Spec.ProcessNode(old(State()), node, fuel)
      decreases fuel, 3
    {
      var (f, rest) := PopNewFormula(node);
      if f.Not? && !IsLiteral(f.operand) {
        outcome := Spec.NotNormalForm;
      } else if IsLiteral(f) {
        outcome := ProcessLiteral(rest, f, fuel);
      } else if IsSplitFormula(f) {
        outcome := SplitNode(rest, f, fuel);
      } else if f.And? {
        outcome := ExpandConjunction(rest, f, fuel);
      } else {
        outcome := ExpandNext(rest, f, fuel);
      }
    }

    method ProcessLiteral(node: Node, lit: Ltl, fuel: nat) returns (outcome: Spec.Outcome)
      modifies this, nodeSet
      ensures Spec.Run(outcome, State()) == Spec.ProcessLiteral(old(State()), node, lit, fuel)
      decreases fuel, 1
    {
      if lit == Bottom || ContainsProcessedFormula(node, Not(lit)) {
        return Spec.Completed;
      }
      var name := GenerateNewNodeName();
      outcome := Expand(CommitLiteral(node, lit, name), fuel);
    }

    method SplitNode(node: Node, f: Ltl, fuel: nat) returns (outcome: Spec.Outcome)
      requires IsSplitFormula(f)
      modifies this, nodeSet
      ensures Spec.Run(outcome, State()) == Spec.SplitNode(old(State()), node, f, fuel)
      decreases fuel, 2
    {
      ghost var before := State();
      var new1 := New1(f);
      var pending1 := node.pending;
      if new1 !in node.committed {
        pending1 := pending1 + [new1];
      }
      var name1 := GenerateNewNodeName();
      var node1 := Node(name1, node.name, node.incoming, node.committed + [f], node.next + Next1(f), pending1);
      assert node1 == Branch1(node, f, before.counter + 1) by {
        AbsentSingle(new1, node.committed);
      }

      var pending2 := AppendAbsent(node.pending, New2(f), node.committed);
      var name2 := GenerateNewNodeName();
      var node2 := Node(name2, node.name, node.incoming, node.committed + [f], node.next, pending2);
      assert node2 == Branch2(node, f, before.counter + 2);
      assert State() == before.(counter := before.counter + 2);

      outcome := Expand(node1, fuel);
      if outcome == Spec.Completed {
        outcome := Expand(node2, fuel);
      }
      Spec.SplitNodeUnfold(before, node, f, fuel);
      Spec.ExpandSiblingsUnfold(before.(counter := before.counter + 2), node1, node2, fuel);
    }

    /** Appends, in order, the members of `xs` that are not in `committed`. */
    static method AppendAbsent(pending: seq<Ltl>, xs: seq<Ltl>, committed: seq<Ltl>) returns (r: seq<Ltl>)
      ensures r == pending + Absent(xs, committed)
    {
      r := pending;
      var i := 0;
      while i < |xs|
        invariant 0 <= i <= |xs|
        invariant r == pending + Absent(xs[..i], committed)
      {
        assert xs[..i + 1][..i] == xs[..i];
        if xs[i] !in committed {
          r := r + [xs[i]];
        }
        i := i + 1;
      }
      assert xs[..i] == xs;
    }

    method ExpandConjunction(node: Node, f: Ltl, fuel: nat) returns (outcome: Spec.Outcome)
      requires f.And?
      modifies this, nodeSet
      ensures Spec.Run(outcome, State()) == Spec.ExpandConjunction(old(State()), node, f, fuel)
      decreases fuel, 1
    {
      var pending := node.pending;
      if f.left !in pending {
        pending := pending + [f.left];
      }
      if f.right !in pending {
        pending := pending + [f.right];
      }
      var newNode := node.(pending := pending, committed := node.committed + [f]);
      assert newNode == Conjoin(node, f);
      outcome := Expand(newNode, fuel);
    }

    method ExpandNext(node: Node, f: Ltl, fuel: nat) returns (outcome: Spec.Outcome)
      requires f.Next?
      modifies this, nodeSet
      ensures Spec.Run(outcome, State()) == Spec.ExpandNext(old(State()), node, f, fuel)
      decreases fuel, 1
    {
      outcome := Expand(DeferNext(node, f), fuel);
    }
  }

  /**
   * The example driver of the repository: a new builder constructs "always p",
   * `Release(Bottom, Atom(1))`; the result is the one state of the worked
   * construction `TableauProperties.AlwaysScenario`.
   */
  method BuildAlwaysExample() returns (outcome: Spec.Outcome, registry: map<Key, Node>)
    ensures var p: Ltl := Atom(1); var R: Ltl := Release(Bottom, p);
      && outcome == Spec.Completed
      && registry == map[([R, p], [R]) := Node(4, 1, [Init, Named(4)], [R, p], [R], [])]
  {
    var builder := new OnTheFlyLtl();
    outcome := builder.CreateGraph(Release(Bottom, Atom(1)), 10);
    registry := builder.nodeSet.nodes;
    Props.AlwaysScenario();
  }
}
