/**
 * A functional description of the recursive tableau driver: each function
 * takes the builder state (name counter and registry) before a call and
 * returns the outcome and the builder state after it. The methods of the
 * recursive driver of `OnTheFlyLtl` are proved to compute exactly these
 * results.
 *
 * The source recursion is not proved to terminate; `fuel` bounds the depth
 * of `Expand` calls and `OutOfFuel` reports that the bound was reached.
 */
module TableauSpec {
  import opened LtlFormula
  import opened TableauNode

  /** How a construction ended: normally, on a negation of a non-literal, or at the fuel bound. */
  datatype Outcome = Completed | NotNormalForm | OutOfFuel

  /** The state of the builder: the last name issued and the registry. */
  datatype Builder = Builder(counter: nat, registry: map<Key, Node>)

  datatype Run = Run(outcome: Outcome, builder: Builder)

  /** `t` is `s` with possibly more entries appended to its incoming list. */
  ghost predicate ExtendsIncoming(s: Node, t: Node) {
    t == s.(incoming := t.incoming) && s.incoming <= t.incoming
  }

  /**
   * The builder only moves forward: the counter never decreases, no key is
   * removed, and a registered node changes only by gaining incoming entries.
   */
  ghost predicate Grows(b: Builder, c: Builder) {
    && b.counter <= c.counter
    && b.registry.Keys <= c.registry.Keys
    && forall k | k in b.registry :: ExtendsIncoming(b.registry[k], c.registry[k])
  }

  lemma GrowsTransitive(a: Builder, b: Builder, c: Builder)
    requires Grows(a, b) && Grows(b, c)
    ensures Grows(a, c)
  {
    forall k | k in a.registry
      ensures ExtendsIncoming(a.registry[k], c.registry[k])
    {
      var s, t, u := a.registry[k], b.registry[k], c.registry[k];
      assert s.incoming <= t.incoming <= u.incoming;
    }
  }

  /** Dispatches a node to the fully-expanded path or to one expansion step. */
  function Expand(b: Builder, node: Node, fuel: nat): (r: Run)
    ensures Grows(b, r.builder)
    decreases fuel, 0
  {
    if fuel == 0 then Run(OutOfFuel, b)
    else if IsFullyExpanded(node) then ProcessFullyExpandedNode(b, node, fuel - 1)
    else ProcessNode(b, node, fuel - 1)
  }

  /**
   * Merges the node into the registered node with the same key, or registers
   * it and expands the seed of its successor under a fresh name.
   */
  function ProcessFullyExpandedNode(b: Builder, node: Node, fuel: nat): (r: Run)
    ensures Grows(b, r.builder)
    decreases fuel, 1
  {
    var key := KeyOf(node);
    if key in b.registry then
      var state := b.registry[key];
      Run(Completed, b.(registry := b.registry[key := state.(incoming := state.incoming + node.incoming)]))
    else
      var name := b.counter + 1;
      var b' := Builder(name, b.registry[key := node]);
      var r := Expand(b', Seed(node, name), fuel);
      GrowsTransitive(b, b', r.builder);
      r
  }

  /** Pops the top pending formula and applies the rule for its shape. */
  function ProcessNode(b: Builder, node: Node, fuel: nat): (r: Run)
    requires !IsFullyExpanded(node)
    ensures Grows(b, r.builder)
    decreases fuel, 3
  {
    var (f, rest) := PopNewFormula(node);
    if f.Not? && !IsLiteral(f.operand) then Run(NotNormalForm, b)
    else if IsLiteral(f) then ProcessLiteral(b, rest, f, fuel)
    else if IsSplitFormula(f) then SplitNode(b, rest, f, fuel)
    else if f.And? then ExpandConjunction(b, rest, f, fuel)
    else ExpandNext(b, rest, f, fuel)
  }

  /** Drops the node, or commits the literal under a fresh name and goes on. */
  function ProcessLiteral(b: Builder, node: Node, lit: Ltl, fuel: nat): (r: Run)
    ensures Grows(b, r.builder)
    decreases fuel, 1
  {
    if LiteralPruned(node, lit) then Run(Completed, b)
    else
      var name := b.counter + 1;
      var b' := b.(counter := name);
      var r := Expand(b', CommitLiteral(node, lit, name), fuel);
      GrowsTransitive(b, b', r.builder);
      r
  }

  /** Names both branches, then expands branch 1 and, if it completed, branch 2. */
  function SplitNode(b: Builder, node: Node, f: Ltl, fuel: nat): (r: Run)
    requires IsSplitFormula(f)
    ensures Grows(b, r.builder)
    decreases fuel, 2
  {
    var r := ExpandSiblings(b.(counter := b.counter + 2), Branch1(node, f, b.counter + 1), Branch2(node, f, b.counter + 2), fuel);
    GrowsTransitive(b, b.(counter := b.counter + 2), r.builder);
    r
  }

  /** Expands `node1`, then `node2` from the state it left unless `node1` did not complete. */
  function ExpandSiblings(b: Builder, node1: Node, node2: Node, fuel: nat): (r: Run)
    ensures Grows(b, r.builder)
    decreases fuel, 1
  {
    var r1 := Expand(b, node1, fuel);
    if r1.outcome != Completed then r1
    else
      var r2 := Expand(r1.builder, node2, fuel);
      GrowsTransitive(b, r1.builder, r2.builder);
      r2
  }

  /** `SplitNode` hands the two named branches to `ExpandSiblings`. */
  lemma SplitNodeUnfold(b: Builder, node: Node, f: Ltl, fuel: nat)
    requires IsSplitFormula(f)
    ensures SplitNode(b, node, f, fuel) ==
      ExpandSiblings(b.(counter := b.counter + 2), Branch1(node, f, b.counter + 1), Branch2(node, f, b.counter + 2), fuel)
  {
  }

  /** `ExpandSiblings` spelled out in terms of the run of the first sibling. */
  lemma ExpandSiblingsUnfold(b: Builder, node1: Node, node2: Node, fuel: nat)
    ensures var r1 := Expand(b, node1, fuel);
      ExpandSiblings(b, node1, node2, fuel) == if r1.outcome != Completed then r1 else Expand(r1.builder, node2, fuel)
  {
  }

  function ExpandConjunction(b: Builder, node: Node, f: Ltl, fuel: nat): (r: Run)
    requires f.And?
    ensures Grows(b, r.builder)
    decreases fuel, 1
  {
    Expand(b, Conjoin(node, f), fuel)
  }

  function ExpandNext(b: Builder, node: Node, f: Ltl, fuel: nat): (r: Run)
    requires f.Next?
    ensures Grows(b, r.builder)
    decreases fuel, 1
  {
    Expand(b, DeferNext(node, f), fuel)
  }

  /** A whole construction: empty registry, counter restarted, first node named 1. */
  function CreateGraph(f: Ltl, fuel: nat): Run {
    Expand(Builder(1, map[]), InitFormula(1, f), fuel)
  }
}
