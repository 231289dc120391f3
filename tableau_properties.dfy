/**
 * Properties of the tableau construction described by `TableauSpec`:
 * invariants of the registry that every expansion preserves, and worked
 * constructions for small formulas.
 */
module TableauProperties {
  import opened LtlFormula
  import opened TableauNode
  import opened TableauSpec

  /** Every formula of `s` is a sub-formula of `phi`. */
  ghost predicate InClosure(phi: Ltl, s: seq<Ltl>) {
    forall g | g in s :: Sub(g, phi)
  }

  /**
   * What the literal rule guarantees about a committed list: Bottom never
   * occurs, and a literal is only committed when its negation `Not(lit)` was
   * not committed before it. The check is one-directional: `p` may precede
   * `Not(p)`, because committing `Not(p)` only looks for `Not(Not(p))`.
   */
  ghost predicate PruneSafe(committed: seq<Ltl>) {
    && Bottom !in committed
    && forall j | 0 <= j < |committed| && IsLiteral(committed[j]) :: Not(committed[j]) !in committed[..j]
  }

  /** Every named incoming entry refers to a name already issued. */
  ghost predicate SourcesIssued(incoming: seq<Source>, counter: nat) {
    forall s | s in incoming && s.Named? :: s.id <= counter
  }

  /** The invariant of one registered state. */
  ghost predicate StateValid(phi: Ltl, b: Builder, k: Key)
    requires k in b.registry
  {
    var s := b.registry[k];
    && IsFullyExpanded(s)
    && KeyOf(s) == k
    && s.name <= b.counter && s.father <= b.counter
    && SourcesIssued(s.incoming, b.counter)
    && InClosure(phi, s.committed) && InClosure(phi, s.next)
    && PruneSafe(s.committed)
  }

  /** No two registered states share a name. */
  ghost predicate DistinctNames(registry: map<Key, Node>) {
    forall k1, k2 | k1 in registry && k2 in registry && k1 != k2 :: registry[k1].name != registry[k2].name
  }

  /**
   * The registry invariant of a construction of `phi`: every registered
   * state is fully expanded, is stored under its own `(committed, next)`
   * key, uses only issued names, holds only sub-formulas of `phi`, passed
   * the literal checks, and has a name of its own.
   */
  ghost predicate RegistryValid(phi: Ltl, b: Builder) {
    && (forall k | k in b.registry :: StateValid(phi, b, k))
    && DistinctNames(b.registry)
  }

  /** The formulas of a node under expansion: all from the closure of `phi`, committed ones checked. */
  ghost predicate ContentValid(phi: Ltl, n: Node) {
    && InClosure(phi, n.committed) && InClosure(phi, n.next) && InClosure(phi, n.pending)
    && PruneSafe(n.committed)
  }

  /** The invariant of a node under expansion. */
  ghost predicate NodeValid(phi: Ltl, b: Builder, n: Node) {
    && n.name <= b.counter && n.father <= b.counter
    && SourcesIssued(n.incoming, b.counter)
    && ContentValid(phi, n)
    && forall k | k in b.registry :: b.registry[k].name != n.name
  }

  /** States registered between `b` and `c` carry the name of `n` or a name issued after `b`. */
  ghost predicate NewNamesAbove(b: Builder, c: Builder, n: Node) {
    forall k | k in c.registry && k !in b.registry :: c.registry[k].name == n.name || c.registry[k].name > b.counter
  }

  /** What an expansion of `n` from builder `b` guarantees about its run `r`. */
  ghost predicate Sound(phi: Ltl, b: Builder, n: Node, r: Run) {
    && RegistryValid(phi, r.builder)
    && NewNamesAbove(b, r.builder, n)
    && (InNormalForm(phi) ==> r.outcome != NotNormalForm)
  }

  // ---------------------------------------------------------------------
  // Helper facts

  lemma PruneSafeAppend(committed: seq<Ltl>, x: Ltl)
    requires PruneSafe(committed)
    requires x != Bottom
    requires IsLiteral(x) ==> Not(x) !in committed
    ensures PruneSafe(committed + [x])
  {
    var c := committed + [x];
    forall j | 0 <= j < |c| && IsLiteral(c[j])
      ensures Not(c[j]) !in c[..j]
    {
      if j < |committed| {
        assert c[j] == committed[j];
        assert c[..j] == committed[..j];
      } else {
        assert c[..j] == committed;
      }
    }
  }

  lemma RaiseCounter(phi: Ltl, b: Builder, counter: nat)
    requires RegistryValid(phi, b) && b.counter <= counter
    ensures RegistryValid(phi, b.(counter := counter))
  {
    var b' := b.(counter := counter);
    forall k | k in b'.registry
      ensures StateValid(phi, b', k)
    {
      assert StateValid(phi, b, k);
    }
  }

  // ---------------------------------------------------------------------
  // Preservation, one lemma per function of TableauSpec

  lemma {:induction false} ExpandSound(phi: Ltl, b: Builder, node: Node, fuel: nat)
    requires RegistryValid(phi, b) && NodeValid(phi, b, node)
    ensures Sound(phi, b, node, Expand(b, node, fuel))
    decreases fuel, 0
  {
    if fuel > 0 {
      if IsFullyExpanded(node) {
        FullyExpandedSound(phi, b, node, fuel - 1);
      } else {
        ProcessNodeSound(phi, b, node, fuel - 1);
      }
    }
  }

  /** Merging a node into the registered state with its key keeps the registry valid. */
  lemma MergeValid(phi: Ltl, b: Builder, node: Node)
    requires RegistryValid(phi, b) && NodeValid(phi, b, node) && KeyOf(node) in b.registry
    ensures var state := b.registry[KeyOf(node)];
      RegistryValid(phi, b.(registry := b.registry[KeyOf(node) := state.(incoming := state.incoming + node.incoming)]))
  {
    var key := KeyOf(node);
    var state := b.registry[key];
    var c := b.(registry := b.registry[key := state.(incoming := state.incoming + node.incoming)]);
    forall k | k in c.registry
      ensures StateValid(phi, c, k)
    {
      assert StateValid(phi, b, k);
    }
    forall k1, k2 | k1 in c.registry && k2 in c.registry && k1 != k2
      ensures c.registry[k1].name != c.registry[k2].name
    {
      assert c.registry[k1].name == b.registry[k1].name;
      assert c.registry[k2].name == b.registry[k2].name;
    }
  }

  /** Registering a new fully expanded node keeps the registry valid, and its seed is a valid node. */
  lemma RegisterValid(phi: Ltl, b: Builder, node: Node)
    requires RegistryValid(phi, b) && NodeValid(phi, b, node)
    requires IsFullyExpanded(node) && KeyOf(node) !in b.registry
    ensures var b' := Builder(b.counter + 1, b.registry[KeyOf(node) := node]);
      RegistryValid(phi, b') && NodeValid(phi, b', Seed(node, b.counter + 1))
  {
    var key := KeyOf(node);
    var name := b.counter + 1;
    var b' := Builder(name, b.registry[key := node]);
    RaiseCounter(phi, b, name);
    forall k | k in b'.registry
      ensures StateValid(phi, b', k)
    {
      if k != key {
        assert StateValid(phi, b.(counter := name), k);
      }
    }
    forall k | k in b'.registry
      ensures b'.registry[k].name != name
    {
      if k != key {
        assert StateValid(phi, b, k);
      }
    }
  }

  lemma {:induction false} FullyExpandedSound(phi: Ltl, b: Builder, node: Node, fuel: nat)
    requires RegistryValid(phi, b) && NodeValid(phi, b, node) && IsFullyExpanded(node)
    ensures Sound(phi, b, node, ProcessFullyExpandedNode(b, node, fuel))
    decreases fuel, 1
  {
    var key := KeyOf(node);
    if key in b.registry {
      MergeValid(phi, b, node);
    } else {
      var name := b.counter + 1;
      var b' := Builder(name, b.registry[key := node]);
      var seed := Seed(node, name);
      RegisterValid(phi, b, node);
      ExpandSound(phi, b', seed, fuel);
      var r := Expand(b', seed, fuel);
      assert ProcessFullyExpandedNode(b, node, fuel) == r;
      forall k | k in r.builder.registry && k !in b.registry
        ensures r.builder.registry[k].name == node.name || r.builder.registry[k].name > b.counter
      {
        if k == key {
          assert ExtendsIncoming(b'.registry[k], r.builder.registry[k]);
        }
      }
    }
  }

  lemma {:induction false} ProcessNodeSound(phi: Ltl, b: Builder, node: Node, fuel: nat)
    requires RegistryValid(phi, b) && NodeValid(phi, b, node) && !IsFullyExpanded(node)
    ensures Sound(phi, b, node, ProcessNode(b, node, fuel))
    decreases fuel, 4
  {
    var (f, rest) := PopNewFormula(node);
    assert f in node.pending;
    assert Sub(f, phi);
    assert NodeValid(phi, b, rest);
    if f.Not? && !IsLiteral(f.operand) {
      if InNormalForm(phi) {
        NormalFormClosed(f, phi);
        assert false;
      }
    } else if IsLiteral(f) {
      ProcessLiteralSound(phi, b, rest, f, fuel);
    } else if IsSplitFormula(f) {
      SplitNodeSound(phi, b, rest, f, fuel);
    } else if f.And? {
      ConjunctionSound(phi, b, rest, f, fuel);
    } else {
      NextSound(phi, b, rest, f, fuel);
    }
  }

  lemma {:induction false} ProcessLiteralSound(phi: Ltl, b: Builder, node: Node, lit: Ltl, fuel: nat)
    requires RegistryValid(phi, b) && NodeValid(phi, b, node)
    requires Sub(lit, phi) && IsLiteral(lit)
    ensures Sound(phi, b, node, ProcessLiteral(b, node, lit, fuel))
    decreases fuel, 1
  {
    if !LiteralPruned(node, lit) {
      var name := b.counter + 1;
      var b' := b.(counter := name);
      var n' := CommitLiteral(node, lit, name);
      RaiseCounter(phi, b, name);
      PruneSafeAppend(node.committed, lit);
      forall k | k in b'.registry
        ensures b'.registry[k].name != name
      {
        assert StateValid(phi, b, k);
      }
      assert NodeValid(phi, b', n');
      ExpandSound(phi, b', n', fuel);
    }
  }

  /** Both branches of a split hold only formulas of the closure and pass the literal checks. */
  lemma SplitContentValid(phi: Ltl, node: Node, f: Ltl, name1: nat, name2: nat)
    requires ContentValid(phi, node) && Sub(f, phi) && IsSplitFormula(f)
    ensures ContentValid(phi, Branch1(node, f, name1))
    ensures ContentValid(phi, Branch2(node, f, name2))
  {
    SplitObligations(f);
    BranchesCover(node, f, name1, name2);
    PruneSafeAppend(node.committed, f);
    SubTransitive(New1(f), f, phi);
    forall g | g in New2(f)
      ensures Sub(g, phi)
    {
      SubTransitive(g, f, phi);
    }
  }

  /** Branch 1 of a split is a valid node once both branch names are issued. */
  lemma Branch1Valid(phi: Ltl, b: Builder, node: Node, f: Ltl)
    requires RegistryValid(phi, b) && NodeValid(phi, b, node)
    requires Sub(f, phi) && IsSplitFormula(f)
    ensures RegistryValid(phi, b.(counter := b.counter + 2))
    ensures NodeValid(phi, b.(counter := b.counter + 2), Branch1(node, f, b.counter + 1))
  {
    var b' := b.(counter := b.counter + 2);
    RaiseCounter(phi, b, b.counter + 2);
    SplitContentValid(phi, node, f, b.counter + 1, b.counter + 2);
    forall k | k in b'.registry
      ensures b'.registry[k].name <= b.counter
    {
      assert StateValid(phi, b, k);
    }
  }

  /**
   * Branch 2 of a split is a valid node for any valid builder `c` reached by
   * expanding branch 1: branch 1 only registered its own name or later ones.
   */
  lemma Branch2Valid(phi: Ltl, b: Builder, c: Builder, node: Node, f: Ltl)
    requires RegistryValid(phi, b) && NodeValid(phi, b, node)
    requires Sub(f, phi) && IsSplitFormula(f)
    requires Grows(b.(counter := b.counter + 2), c)
    requires NewNamesAbove(b.(counter := b.counter + 2), c, Branch1(node, f, b.counter + 1))
    ensures NodeValid(phi, c, Branch2(node, f, b.counter + 2))
  {
    var name := b.counter + 2;
    SplitContentValid(phi, node, f, b.counter + 1, name);
    forall k | k in c.registry
      ensures c.registry[k].name != name
    {
      if k in b.registry {
        assert StateValid(phi, b, k);
        assert ExtendsIncoming(b.registry[k], c.registry[k]);
      }
    }
  }

  /** An expansion from a node named after `b` registers only names issued after `b`. */
  lemma NewNamesWiden(b: Builder, counter: nat, c: Builder, n1: Node)
    requires b.counter <= counter && n1.name > b.counter
    requires NewNamesAbove(b.(counter := counter), c, n1)
    ensures forall k | k in c.registry && k !in b.registry :: c.registry[k].name > b.counter
  {
  }

  /** A run that is sound for a child named after `b` is sound for its parent from `b`. */
  lemma SoundWiden(phi: Ltl, b: Builder, counter: nat, node: Node, child: Node, r: Run)
    requires b.counter <= counter && child.name > b.counter
    requires Sound(phi, b.(counter := counter), child, r)
    ensures Sound(phi, b, node, r)
  {
    NewNamesWiden(b, counter, r.builder, child);
  }

  /** Two expansions in a row, both from nodes named after `b`, register only names issued after `b`. */
  lemma NewNamesCompose(b: Builder, counter: nat, m: Builder, c: Builder, n1: Node, n2: Node)
    requires b.counter <= counter && n1.name > b.counter && n2.name > b.counter
    requires NewNamesAbove(b.(counter := counter), m, n1)
    requires Grows(m, c) && NewNamesAbove(m, c, n2) && counter <= m.counter
    ensures forall k | k in c.registry && k !in b.registry :: c.registry[k].name > b.counter
  {
    forall k | k in c.registry && k !in b.registry
      ensures c.registry[k].name > b.counter
    {
      if k in m.registry {
        assert ExtendsIncoming(m.registry[k], c.registry[k]);
      }
    }
  }

  lemma {:induction false} SplitNodeSound(phi: Ltl, b: Builder, node: Node, f: Ltl, fuel: nat)
    requires RegistryValid(phi, b) && NodeValid(phi, b, node)
    requires Sub(f, phi) && IsSplitFormula(f)
    ensures Sound(phi, b, node, SplitNode(b, node, f, fuel))
    decreases fuel, 3
  {
    var b' := b.(counter := b.counter + 2);
    SplitNodeUnfold(b, node, f, fuel);
    ExpandSiblingsUnfold(b', Branch1(node, f, b.counter + 1), Branch2(node, f, b.counter + 2), fuel);
    SplitBranchesSound(phi, b, node, f, fuel);
  }

  /** Both branches of a split, spelled out: branch 2 runs only when branch 1 completed. */
  lemma {:induction false} SplitBranchesSound(phi: Ltl, b: Builder, node: Node, f: Ltl, fuel: nat)
    requires RegistryValid(phi, b) && NodeValid(phi, b, node)
    requires Sub(f, phi) && IsSplitFormula(f)
    ensures var r1 := Expand(b.(counter := b.counter + 2), Branch1(node, f, b.counter + 1), fuel);
      r1.outcome != Completed ==> Sound(phi, b, node, r1)
    ensures var r1 := Expand(b.(counter := b.counter + 2), Branch1(node, f, b.counter + 1), fuel);
      r1.outcome == Completed ==> Sound(phi, b, node, Expand(r1.builder, Branch2(node, f, b.counter + 2), fuel))
    decreases fuel, 2
  {
    var c := b.counter;
    var node1 := Branch1(node, f, c + 1);
    var r1 := Expand(b.(counter := c + 2), node1, fuel);
    SplitFirstSound(phi, b, node, f, fuel);
    if r1.outcome != Completed {
      SoundWiden(phi, b, c + 2, node, node1, r1);
    } else {
      SplitSecondSound(phi, b, node, f, fuel, r1.builder);
    }
  }

  /** Branch 1 of a split, expanded from the builder with both branch names issued. */
  lemma {:induction false} SplitFirstSound(phi: Ltl, b: Builder, node: Node, f: Ltl, fuel: nat)
    requires RegistryValid(phi, b) && NodeValid(phi, b, node)
    requires Sub(f, phi) && IsSplitFormula(f)
    ensures var b' := b.(counter := b.counter + 2); var node1 := Branch1(node, f, b.counter + 1);
      Sound(phi, b', node1, Expand(b', node1, fuel))
    decreases fuel, 1
  {
    Branch1Valid(phi, b, node, f);
    ExpandSound(phi, b.(counter := b.counter + 2), Branch1(node, f, b.counter + 1), fuel);
  }

  /** Branch 2 of a split, expanded from the builder state `m` that branch 1 left. */
  lemma {:induction false} SplitSecondSound(phi: Ltl, b: Builder, node: Node, f: Ltl, fuel: nat, m: Builder)
    requires RegistryValid(phi, b) && NodeValid(phi, b, node)
    requires Sub(f, phi) && IsSplitFormula(f)
    requires Grows(b.(counter := b.counter + 2), m) && RegistryValid(phi, m)
    requires NewNamesAbove(b.(counter := b.counter + 2), m, Branch1(node, f, b.counter + 1))
    ensures Sound(phi, b, node, Expand(m, Branch2(node, f, b.counter + 2), fuel))
    decreases fuel, 1
  {
    var node2 := Branch2(node, f, b.counter + 2);
    Branch2Valid(phi, b, m, node, f);
    ExpandSound(phi, m, node2, fuel);
    NewNamesCompose(b, b.counter + 2, m, Expand(m, node2, fuel).builder, Branch1(node, f, b.counter + 1), node2);
  }

  lemma {:induction false} ConjunctionSound(phi: Ltl, b: Builder, node: Node, f: Ltl, fuel: nat)
    requires RegistryValid(phi, b) && NodeValid(phi, b, node)
    requires Sub(f, phi) && f.And?
    ensures Sound(phi, b, node, ExpandConjunction(b, node, f, fuel))
    decreases fuel, 1
  {
    SubTransitive(f.left, f, phi);
    SubTransitive(f.right, f, phi);
    PruneSafeAppend(node.committed, f);
    assert NodeValid(phi, b, Conjoin(node, f));
    ExpandSound(phi, b, Conjoin(node, f), fuel);
  }

  lemma {:induction false} NextSound(phi: Ltl, b: Builder, node: Node, f: Ltl, fuel: nat)
    requires RegistryValid(phi, b) && NodeValid(phi, b, node)
    requires Sub(f, phi) && f.Next?
    ensures Sound(phi, b, node, ExpandNext(b, node, f, fuel))
    decreases fuel, 1
  {
    SubTransitive(f.operand, f, phi);
    PruneSafeAppend(node.committed, f);
    assert NodeValid(phi, b, DeferNext(node, f));
    ExpandSound(phi, b, DeferNext(node, f), fuel);
  }

  /**
   * Whatever the fuel, a construction of `phi` leaves a valid registry, and a
   * formula in negation normal form never stops on a bad negation.
   */
  lemma CreateGraphValid(phi: Ltl, fuel: nat)
    ensures RegistryValid(phi, CreateGraph(phi, fuel).builder)
    ensures InNormalForm(phi) ==> CreateGraph(phi, fuel).outcome != NotNormalForm
  {
    var b := Builder(1, map[]);
    var node := InitFormula(1, phi);
    assert NodeValid(phi, b, node);
    ExpandSound(phi, b, node, fuel);
  }

  // ---------------------------------------------------------------------
  // Single steps of a construction, for the worked examples below

  /** A node whose only pending formula is a literal that is not pruned: it is committed under a fresh name. */
  lemma LiteralStep(b: Builder, n: Node, lit: Ltl, fuel: nat)
    requires fuel >= 2 && n.pending == []
    requires IsLiteral(lit) && lit != Bottom && Not(lit) !in n.committed
    ensures Expand(b, n.(pending := [lit]), fuel) ==
      Expand(b.(counter := b.counter + 1), n.(name := b.counter + 1, committed := n.committed + [lit]), fuel - 1)
  {
    var m := n.(pending := [lit]);
    var b' := b.(counter := b.counter + 1);
    var committed := n.(name := b.counter + 1, committed := n.committed + [lit]);
    assert PopNewFormula(m) == (lit, n);
    assert !(lit.Not? && !IsLiteral(lit.operand)) by {
      if lit.Not? {
        assert IsLiteral(lit.operand);
      }
    }
    assert ProcessNode(b, m, fuel - 1) == ProcessLiteral(b, n, lit, fuel - 1);
    assert !LiteralPruned(n, lit);
    assert CommitLiteral(n, lit, b.counter + 1) == committed;
    assert ProcessLiteral(b, n, lit, fuel - 1) == Expand(b', committed, fuel - 1);
  }

  /** A node whose only pending formula is a split formula: both branches are named, then expanded in turn. */
  lemma SplitStep(b: Builder, n: Node, f: Ltl, fuel: nat)
    requires fuel >= 1 && n.pending == [] && IsSplitFormula(f)
    ensures Expand(b, n.(pending := [f]), fuel) ==
      ExpandSiblings(b.(counter := b.counter + 2), Branch1(n, f, b.counter + 1), Branch2(n, f, b.counter + 2), fuel - 1)
  {
    assert PopNewFormula(n.(pending := [f])) == (f, n);
    SplitNodeUnfold(b, n, f, fuel - 1);
  }

  /** A fully expanded node whose key is registered: only that state's incoming list grows. */
  lemma MergeStep(b: Builder, n: Node, fuel: nat)
    requires fuel >= 1 && IsFullyExpanded(n) && KeyOf(n) in b.registry
    ensures var s := b.registry[KeyOf(n)];
      Expand(b, n, fuel) == Run(Completed, b.(registry := b.registry[KeyOf(n) := s.(incoming := s.incoming + n.incoming)]))
  {
  }

  /** A fully expanded node with a new key: it is registered and the seed of its successor is expanded. */
  lemma RegisterStep(b: Builder, n: Node, fuel: nat)
    requires fuel >= 1 && IsFullyExpanded(n) && KeyOf(n) !in b.registry
    ensures Expand(b, n, fuel) == Expand(Builder(b.counter + 1, b.registry[KeyOf(n) := n]), Seed(n, b.counter + 1), fuel - 1)
  {
  }

  // ---------------------------------------------------------------------
  // A worked construction: "always p", written Release(Bottom, Atom(1))

  /** Branch 1 of the seed's split commits `p` and merges into the registered state. */
  lemma AlwaysSeedBranch1(S: Node)
    requires var p: Ltl := Atom(1); var R: Ltl := Release(Bottom, p);
      S == Node(4, 1, [Init], [R, p], [R], [])
    ensures var p: Ltl := Atom(1); var R: Ltl := Release(Bottom, p);
      Expand(Builder(7, map[KeyOf(S) := S]), Node(6, 5, [Named(4)], [R], [R], [p]), 6) ==
        Run(Completed, Builder(8, map[KeyOf(S) := S.(incoming := [Init, Named(4)])]))
  {
    var p: Ltl := Atom(1);
    var R: Ltl := Release(Bottom, p);
    var reg := map[KeyOf(S) := S];
    var done := Builder(8, map[KeyOf(S) := S.(incoming := [Init, Named(4)])]);
    var n8 := Node(8, 5, [Named(4)], [R, p], [R], []);
    assert KeyOf(n8) == KeyOf(S) && KeyOf(S) in reg;
    assert S.incoming + n8.incoming == [Init, Named(4)];
    assert reg[KeyOf(S) := S.(incoming := [Init, Named(4)])] == done.registry;
    assert ProcessFullyExpandedNode(Builder(8, reg), n8, 4) == Run(Completed, done);
    assert Expand(Builder(8, reg), n8, 5) == Run(Completed, done);
    assert !LiteralPruned(Node(6, 5, [Named(4)], [R], [R], []), p);
    assert CommitLiteral(Node(6, 5, [Named(4)], [R], [R], []), p, 8) == n8;
    assert ProcessLiteral(Builder(7, reg), Node(6, 5, [Named(4)], [R], [R], []), p, 5) == Run(Completed, done);
    assert PopNewFormula(Node(6, 5, [Named(4)], [R], [R], [p])) == (p, Node(6, 5, [Named(4)], [R], [R], []));
    assert ProcessNode(Builder(7, reg), Node(6, 5, [Named(4)], [R], [R], [p]), 5) == Run(Completed, done);
  }

  /**
   * A branch that has to satisfy Bottom: it commits `p` under a fresh name
   * and is then pruned; only the counter moves.
   */
  lemma AlwaysBottomBranch(b: Builder, n: Node, fuel: nat)
    requires fuel >= 2
    requires var p: Ltl := Atom(1); var R: Ltl := Release(Bottom, p);
      n.committed == [R] && n.next == [] && n.pending == [Bottom, p]
    ensures Expand(b, n, fuel) == Run(Completed, b.(counter := b.counter + 1))
  {
    var p: Ltl := Atom(1);
    var R: Ltl := Release(Bottom, p);
    var b' := b.(counter := b.counter + 1);
    var rest := n.(pending := [Bottom]);
    var committed := CommitLiteral(rest, p, b.counter + 1);
    assert PopNewFormula(committed) == (Bottom, committed.(pending := []));
    assert ProcessNode(b', committed, fuel - 2) == Run(Completed, b');
    assert Expand(b', committed, fuel - 1) == Run(Completed, b');
    assert !LiteralPruned(rest, p);
    assert ProcessLiteral(b, rest, p, fuel - 1) == Run(Completed, b');
    assert n.pending[..1] == [Bottom];
    assert PopNewFormula(n) == (p, rest);
  }

  /** Both branches of a split of `Release(Bottom, p)` in a node with nothing committed. */
  lemma AlwaysSplitBranches(n: Node, name: nat)
    requires n.committed == [] && n.next == [] && n.pending == []
    ensures var p: Ltl := Atom(1); var R: Ltl := Release(Bottom, p);
      && Branch1(n, R, name) == Node(name, n.name, n.incoming, [R], [R], [p])
      && Branch2(n, R, name) == Node(name, n.name, n.incoming, [R], [], [Bottom, p])
  {
    var p: Ltl := Atom(1);
    var R: Ltl := Release(Bottom, p);
    AbsentSingle(p, []);
    assert [Bottom, p][..1] == [Bottom];
    AbsentSingle(Bottom, []);
  }

  /** The split of the seed: branch 1 merges into the state, branch 2 is pruned. */
  lemma AlwaysSeedSplit(S: Node)
    requires var p: Ltl := Atom(1); var R: Ltl := Release(Bottom, p);
      S == Node(4, 1, [Init], [R, p], [R], [])
    ensures var p: Ltl := Atom(1); var R: Ltl := Release(Bottom, p);
      SplitNode(Builder(5, map[KeyOf(S) := S]), Node(5, 5, [Named(4)], [], [], []), R, 6) ==
        Run(Completed, Builder(9, map[KeyOf(S) := S.(incoming := [Init, Named(4)])]))
  {
    var p: Ltl := Atom(1);
    var R: Ltl := Release(Bottom, p);
    var reg := map[KeyOf(S) := S];
    var done := Builder(9, map[KeyOf(S) := S.(incoming := [Init, Named(4)])]);
    var rest := Node(5, 5, [Named(4)], [], [], []);
    AlwaysSplitBranches(rest, 6);
    AlwaysSplitBranches(rest, 7);
    AlwaysSeedBranch1(S);
    var n6 := Node(6, 5, [Named(4)], [R], [R], [p]);
    var n7 := Node(7, 5, [Named(4)], [R], [], [Bottom, p]);
    AlwaysBottomBranch(done.(counter := 8), n7, 6);
    SplitNodeUnfold(Builder(5, reg), rest, R, 6);
    ExpandSiblingsUnfold(Builder(7, reg), n6, n7, 6);
  }

  /** The successor of the registered state loops back to it. */
  lemma AlwaysSeed(S: Node)
    requires var p: Ltl := Atom(1); var R: Ltl := Release(Bottom, p);
      S == Node(4, 1, [Init], [R, p], [R], [])
    ensures Expand(Builder(4, map[]), S, 8) ==
      Run(Completed, Builder(9, map[KeyOf(S) := S.(incoming := [Init, Named(4)])]))
  {
    var p: Ltl := Atom(1);
    var R: Ltl := Release(Bottom, p);
    var reg := map[KeyOf(S) := S];
    var done := Builder(9, map[KeyOf(S) := S.(incoming := [Init, Named(4)])]);
    var seed := Seed(S, 5);
    var rest := Node(5, 5, [Named(4)], [], [], []);
    assert PopNewFormula(seed) == (R, rest);
    AlwaysSeedSplit(S);
    assert ProcessNode(Builder(5, reg), seed, 6) == Run(Completed, done);
    assert Expand(Builder(5, reg), seed, 7) == Run(Completed, done);
    assert ProcessFullyExpandedNode(Builder(4, map[]), S, 7) == Run(Completed, done);
  }

  /** Branch 1 of the first split commits `p` under name 4 and registers the state. */
  lemma AlwaysFirstBranch1(S: Node)
    requires var p: Ltl := Atom(1); var R: Ltl := Release(Bottom, p);
      S == Node(4, 1, [Init], [R, p], [R], [])
    ensures var p: Ltl := Atom(1); var R: Ltl := Release(Bottom, p);
      Expand(Builder(3, map[]), Node(2, 1, [Init], [R], [R], [p]), 9) ==
        Run(Completed, Builder(9, map[KeyOf(S) := S.(incoming := [Init, Named(4)])]))
  {
    var p: Ltl := Atom(1);
    var R: Ltl := Release(Bottom, p);
    var done := Builder(9, map[KeyOf(S) := S.(incoming := [Init, Named(4)])]);
    var n2 := Node(2, 1, [Init], [R], [R], []);
    AlwaysSeed(S);
    assert !LiteralPruned(n2, p);
    assert CommitLiteral(n2, p, 4) == S;
    assert ProcessLiteral(Builder(3, map[]), n2, p, 8) == Run(Completed, done);
    assert PopNewFormula(n2.(pending := [p])) == (p, n2);
  }

  /**
   * "Always p", `Release(Bottom, Atom(1))`, yields one state: it has committed
   * the release and `p`, re-obligates the release, and is entered from INIT
   * and from itself. The Bottom branch of every split is pruned.
   */
  lemma AlwaysScenario()
    ensures var p: Ltl := Atom(1); var R: Ltl := Release(Bottom, p);
      CreateGraph(R, 10) ==
        Run(Completed, Builder(10, map[([R, p], [R]) := Node(4, 1, [Init, Named(4)], [R, p], [R], [])]))
  {
    var p: Ltl := Atom(1);
    var R: Ltl := Release(Bottom, p);
    var S := Node(4, 1, [Init], [R, p], [R], []);
    var done := Builder(9, map[KeyOf(S) := S.(incoming := [Init, Named(4)])]);
    var init := InitFormula(1, R);
    var rest := Node(1, 1, [Init], [], [], []);
    AlwaysFirstBranch1(S);
    AlwaysSplitBranches(rest, 2);
    AlwaysSplitBranches(rest, 3);
    var n2 := Node(2, 1, [Init], [R], [R], [p]);
    var n3 := Node(3, 1, [Init], [R], [], [Bottom, p]);
    AlwaysBottomBranch(done, n3, 9);
    SplitNodeUnfold(Builder(1, map[]), rest, R, 9);
    ExpandSiblingsUnfold(Builder(3, map[]), n2, n3, 9);
    assert SplitNode(Builder(1, map[]), rest, R, 9) == Run(Completed, done.(counter := 10));
    assert PopNewFormula(init) == (R, rest);
    assert ProcessNode(Builder(1, map[]), init, 9) == Run(Completed, done.(counter := 10));
  }

  // ---------------------------------------------------------------------
  // Rejection of formulas outside negation normal form

  /** A negated non-literal at the root stops the construction before anything is registered. */
  lemma NegatedNonLiteralRejected(g: Ltl, fuel: nat)
    requires !IsLiteral(g) && fuel >= 1
    ensures CreateGraph(Not(g), fuel) == Run(NotNormalForm, Builder(1, map[]))
  {
    var init := InitFormula(1, Not(g));
    assert PopNewFormula(init).0 == Not(g);
    assert ProcessNode(Builder(1, map[]), init, fuel - 1) == Run(NotNormalForm, Builder(1, map[]));
  }

  // ---------------------------------------------------------------------
  // A worked construction: And(Not(p), p)

  /** Registering the contradictory state, then the empty state, whose seed merges into it. */
  lemma ContradictionStates(S: Node)
    requires var p: Ltl := Atom(1); var A: Ltl := And(Not(p), p);
      S == Node(3, 1, [Init], [A, p, Not(p)], [], [])
    ensures ProcessFullyExpandedNode(Builder(3, map[]), S, 2) ==
      Run(Completed, Builder(5, map[KeyOf(S) := S, ([], []) := Node(4, 4, [Named(3), Named(4)], [], [], [])]))
  {
    var E := Node(4, 4, [Named(3)], [], [], []);
    var reg1 := map[KeyOf(S) := S];
    var reg2 := reg1[KeyOf(E) := E];
    var final := reg1[KeyOf(E) := E.(incoming := [Named(3), Named(4)])];
    assert Seed(E, 5) == Node(5, 5, [Named(4)], [], [], []);
    assert KeyOf(Seed(E, 5)) == KeyOf(E) && KeyOf(E) in reg2;
    assert E.incoming + [Named(4)] == [Named(3), Named(4)];
    assert reg2[KeyOf(E) := E.(incoming := [Named(3), Named(4)])] == final;
    assert ProcessFullyExpandedNode(Builder(5, reg2), Seed(E, 5), 0) == Run(Completed, Builder(5, final));
    assert Expand(Builder(5, reg2), Seed(E, 5), 1) == Run(Completed, Builder(5, final));
    assert Expand(Builder(4, reg1), E, 2) == Run(Completed, Builder(5, final));
    assert Seed(S, 4) == E;
  }

  /** The second literal, `Not(p)`: `Not(Not(p))` is not committed, so it is not pruned. */
  lemma ContradictionSecondLiteral(S: Node, final: Builder)
    requires var p: Ltl := Atom(1); var A: Ltl := And(Not(p), p);
      S == Node(3, 1, [Init], [A, p, Not(p)], [], [])
    requires ProcessFullyExpandedNode(Builder(3, map[]), S, 2) == Run(Completed, final)
    ensures var p: Ltl := Atom(1); var A: Ltl := And(Not(p), p);
      Expand(Builder(2, map[]), Node(2, 1, [Init], [A, p], [], [Not(p)]), 4) == Run(Completed, final)
  {
    var p: Ltl := Atom(1);
    var A: Ltl := And(Not(p), p);
    var n2 := Node(2, 1, [Init], [A, p], [], []);
    assert !LiteralPruned(n2, Not(p));
    assert CommitLiteral(n2, Not(p), 3) == S;
    assert ProcessLiteral(Builder(2, map[]), n2, Not(p), 3) == Run(Completed, final);
    assert PopNewFormula(n2.(pending := [Not(p)])) == (Not(p), n2);
  }

  /** The first literal, `p`: `Not(p)` is not committed yet, so it is not pruned. */
  lemma ContradictionFirstLiteral(S: Node, final: Builder)
    requires var p: Ltl := Atom(1); var A: Ltl := And(Not(p), p);
      S == Node(3, 1, [Init], [A, p, Not(p)], [], [])
    requires ProcessFullyExpandedNode(Builder(3, map[]), S, 2) == Run(Completed, final)
    ensures var p: Ltl := Atom(1); var A: Ltl := And(Not(p), p);
      Expand(Builder(1, map[]), Node(1, 1, [Init], [A], [], [Not(p), p]), 5) == Run(Completed, final)
  {
    var p: Ltl := Atom(1);
    var A: Ltl := And(Not(p), p);
    ContradictionSecondLiteral(S, final);
    var n1 := Node(1, 1, [Init], [A], [], [Not(p)]);
    assert !LiteralPruned(n1, p);
    assert CommitLiteral(n1, p, 2) == Node(2, 1, [Init], [A, p], [], [Not(p)]);
    assert ProcessLiteral(Builder(1, map[]), n1, p, 4) == Run(Completed, final);
    assert [Not(p), p][..1] == [Not(p)];
    assert PopNewFormula(n1.(pending := [Not(p), p])) == (p, n1);
  }

  /** The conjunction at the root pushes `Not(p)`, then `p`. */
  lemma ContradictionConjunction(final: Builder)
    requires var p: Ltl := Atom(1); var A: Ltl := And(Not(p), p);
      Expand(Builder(1, map[]), Node(1, 1, [Init], [A], [], [Not(p), p]), 5) == Run(Completed, final)
    ensures CreateGraph(And(Not(Atom(1)), Atom(1)), 6) == Run(Completed, final)
  {
    var p: Ltl := Atom(1);
    var A: Ltl := And(Not(p), p);
    assert Conjoin(Node(1, 1, [Init], [], [], []), A) == Node(1, 1, [Init], [A], [], [Not(p), p]);
    assert PopNewFormula(InitFormula(1, A)) == (A, Node(1, 1, [Init], [], [], []));
  }

  /**
   * The literal rule only looks for `Not(lit)` among the committed formulas.
   * In `And(Not(p), p)` the operand `p` is processed first (it is the top of
   * `pending`), and when `Not(p)` comes it looks for `Not(Not(p))`, which is
   * not there: the construction registers a state that has committed both
   * `p` and `Not(p)`, followed by the empty state looping on itself.
   */
  lemma ContradictionScenario()
    ensures var p: Ltl := Atom(1); var A: Ltl := And(Not(p), p);
      CreateGraph(A, 6) ==
        Run(Completed, Builder(5, map[
          ([A, p, Not(p)], []) := Node(3, 1, [Init], [A, p, Not(p)], [], []),
          ([], []) := Node(4, 4, [Named(3), Named(4)], [], [], [])]))
  {
    var p: Ltl := Atom(1);
    var A: Ltl := And(Not(p), p);
    var S := Node(3, 1, [Init], [A, p, Not(p)], [], []);
    var final := Builder(5, map[KeyOf(S) := S, ([], []) := Node(4, 4, [Named(3), Named(4)], [], [], [])]);
    ContradictionStates(S);
    ContradictionFirstLiteral(S, final);
    ContradictionConjunction(final);
  }

  // ---------------------------------------------------------------------
  // A worked construction: "p until q", written Until(Atom(1), Atom(2))

  /** Branch 1 of a split of `Until(p, q)` in a node with nothing committed: `p` now, the until again next. */
  lemma UntilBranch1(n: Node, name: nat)
    requires n.committed == [] && n.next == [] && n.pending == []
    ensures var p: Ltl := Atom(1); var U: Ltl := Until(p, Atom(2));
      Branch1(n, U, name) == Node(name, n.name, n.incoming, [U], [U], [p])
  {
    AbsentSingle(Atom(1), []);
  }

  /** Branch 2 of a split of `Until(p, q)` in a node with nothing committed: `q` now. */
  lemma UntilBranch2(n: Node, name: nat)
    requires n.committed == [] && n.next == [] && n.pending == []
    ensures var q: Ltl := Atom(2); var U: Ltl := Until(Atom(1), q);
      Branch2(n, U, name) == Node(name, n.name, n.incoming, [U], [], [q])
  {
    AbsentSingle(Atom(2), []);
  }

  /**
   * Branch 2 of the seed's split commits `q` as state 9, which is registered;
   * its successor, the empty state 10, is registered and loops on itself.
   */
  lemma UntilSeedBranch2(S4: Node, S9: Node, E10: Node)
    requires var p: Ltl := Atom(1); var q: Ltl := Atom(2); var U: Ltl := Until(p, q);
      && S4 == Node(4, 1, [Init, Named(4)], [U, p], [U], [])
      && S9 == Node(9, 5, [Named(4)], [U, q], [], [])
      && E10 == Node(10, 10, [Named(9)], [], [], [])
    ensures var p: Ltl := Atom(1); var q: Ltl := Atom(2); var U: Ltl := Until(p, q);
      Expand(Builder(8, map[KeyOf(S4) := S4]), Node(7, 5, [Named(4)], [U], [], [q]), 6) ==
        Run(Completed, Builder(11, map[KeyOf(S4) := S4, KeyOf(S9) := S9, KeyOf(E10) := E10.(incoming := [Named(9), Named(10)])]))
  {
    var q: Ltl := Atom(2);
    var U: Ltl := Until(Atom(1), q);
    var reg1 := map[KeyOf(S4) := S4];
    var reg2 := reg1[KeyOf(S9) := S9];
    var reg3 := reg2[KeyOf(E10) := E10];
    LiteralStep(Builder(8, reg1), Node(7, 5, [Named(4)], [U], [], []), q, 6);
    assert Node(7, 5, [Named(4)], [U], [], []).(name := 9, committed := [U] + [q]) == S9;
    assert KeyOf(S9) != KeyOf(S4);
    RegisterStep(Builder(9, reg1), S9, 5);
    assert Seed(S9, 10) == E10;
    assert KeyOf(E10) !in reg2;
    RegisterStep(Builder(10, reg2), E10, 4);
    var E11 := Seed(E10, 11);
    assert KeyOf(E11) == KeyOf(E10) && KeyOf(E10) in reg3;
    MergeStep(Builder(11, reg3), E11, 3);
    assert E10.incoming + E11.incoming == [Named(9), Named(10)];
  }

  /** Branch 1 of the seed's split commits `p` and merges into state 4. */
  lemma UntilSeedBranch1(S4: Node)
    requires var p: Ltl := Atom(1); var q: Ltl := Atom(2); var U: Ltl := Until(p, q);
      S4 == Node(4, 1, [Init], [U, p], [U], [])
    ensures var p: Ltl := Atom(1); var q: Ltl := Atom(2); var U: Ltl := Until(p, q);
      Expand(Builder(7, map[KeyOf(S4) := S4]), Node(6, 5, [Named(4)], [U], [U], [p]), 6) ==
        Run(Completed, Builder(8, map[KeyOf(S4) := S4.(incoming := [Init, Named(4)])]))
  {
    var p: Ltl := Atom(1);
    var U: Ltl := Until(p, Atom(2));
    var reg1 := map[KeyOf(S4) := S4];
    var n6 := Node(6, 5, [Named(4)], [U], [U], []);
    LiteralStep(Builder(7, reg1), n6, p, 6);
    var n8 := Node(8, 5, [Named(4)], [U, p], [U], []);
    assert n6.(name := 8, committed := [U] + [p]) == n8;
    assert KeyOf(n8) == KeyOf(S4) && KeyOf(S4) in reg1;
    MergeStep(Builder(8, reg1), n8, 5);
    assert S4.incoming + n8.incoming == [Init, Named(4)];
    assert reg1[KeyOf(S4) := S4.(incoming := [Init, Named(4)])] == map[KeyOf(S4) := S4.(incoming := [Init, Named(4)])];
  }

  /** The split of the seed of state 4: branch 1 merges into it, branch 2 registers states 9 and 10. */
  lemma UntilSeedSplit(S4: Node, S9: Node, E10: Node)
    requires var p: Ltl := Atom(1); var q: Ltl := Atom(2); var U: Ltl := Until(p, q);
      && S4 == Node(4, 1, [Init], [U, p], [U], [])
      && S9 == Node(9, 5, [Named(4)], [U, q], [], [])
      && E10 == Node(10, 10, [Named(9)], [], [], [])
    ensures var p: Ltl := Atom(1); var q: Ltl := Atom(2); var U: Ltl := Until(p, q);
      ExpandSiblings(Builder(7, map[KeyOf(S4) := S4]), Node(6, 5, [Named(4)], [U], [U], [p]), Node(7, 5, [Named(4)], [U], [], [q]), 6) ==
        Run(Completed, Builder(11, map[KeyOf(S4) := S4.(incoming := [Init, Named(4)]), KeyOf(S9) := S9, KeyOf(E10) := E10.(incoming := [Named(9), Named(10)])]))
  {
    var p: Ltl := Atom(1);
    var q: Ltl := Atom(2);
    var U: Ltl := Until(p, q);
    var n6 := Node(6, 5, [Named(4)], [U], [U], [p]);
    var n7 := Node(7, 5, [Named(4)], [U], [], [q]);
    ExpandSiblingsUnfold(Builder(7, map[KeyOf(S4) := S4]), n6, n7, 6);
    UntilSeedBranch1(S4);
    var S4' := S4.(incoming := [Init, Named(4)]);
    assert KeyOf(S4') == KeyOf(S4);
    UntilSeedBranch2(S4', S9, E10);
  }

  /** State 4 is registered and the seed of its successor splits `Until(p, q)` again. */
  lemma UntilSeed(S4: Node, S9: Node, E10: Node)
    requires var p: Ltl := Atom(1); var q: Ltl := Atom(2); var U: Ltl := Until(p, q);
      && S4 == Node(4, 1, [Init], [U, p], [U], [])
      && S9 == Node(9, 5, [Named(4)], [U, q], [], [])
      && E10 == Node(10, 10, [Named(9)], [], [], [])
    ensures Expand(Builder(4, map[]), S4, 8) ==
      Run(Completed, Builder(11, map[KeyOf(S4) := S4.(incoming := [Init, Named(4)]), KeyOf(S9) := S9, KeyOf(E10) := E10.(incoming := [Named(9), Named(10)])]))
  {
    var U: Ltl := Until(Atom(1), Atom(2));
    var reg1 := map[KeyOf(S4) := S4];
    RegisterStep(Builder(4, map[]), S4, 8);
    assert map[][KeyOf(S4) := S4] == reg1;
    var rest := Node(5, 5, [Named(4)], [], [], []);
    assert Seed(S4, 5) == rest.(pending := [U]);
    SplitStep(Builder(5, reg1), rest, U, 7);
    UntilBranch1(rest, 6);
    UntilBranch2(rest, 7);
    UntilSeedSplit(S4, S9, E10);
  }

  /** Branch 1 of the first split commits `p` as state 4, and everything after it. */
  lemma UntilFirstBranch1(S4: Node, S9: Node, E10: Node)
    requires var p: Ltl := Atom(1); var q: Ltl := Atom(2); var U: Ltl := Until(p, q);
      && S4 == Node(4, 1, [Init], [U, p], [U], [])
      && S9 == Node(9, 5, [Named(4)], [U, q], [], [])
      && E10 == Node(10, 10, [Named(9)], [], [], [])
    ensures var p: Ltl := Atom(1); var q: Ltl := Atom(2); var U: Ltl := Until(p, q);
      Expand(Builder(3, map[]), Node(2, 1, [Init], [U], [U], [p]), 9) ==
        Run(Completed, Builder(11, map[KeyOf(S4) := S4.(incoming := [Init, Named(4)]), KeyOf(S9) := S9, KeyOf(E10) := E10.(incoming := [Named(9), Named(10)])]))
  {
    var p: Ltl := Atom(1);
    var U: Ltl := Until(p, Atom(2));
    var n2 := Node(2, 1, [Init], [U], [U], []);
    LiteralStep(Builder(3, map[]), n2, p, 9);
    assert n2.(name := 4, committed := [U] + [p]) == S4;
    UntilSeed(S4, S9, E10);
  }

  /** Branch 2 of the first split commits `q` and merges into state 9. */
  lemma UntilFirstBranch2(reg: map<Key, Node>, S9: Node)
    requires var p: Ltl := Atom(1); var q: Ltl := Atom(2); var U: Ltl := Until(p, q);
      S9 == Node(9, 5, [Named(4)], [U, q], [], []) && KeyOf(S9) in reg && reg[KeyOf(S9)] == S9
    ensures var p: Ltl := Atom(1); var q: Ltl := Atom(2); var U: Ltl := Until(p, q);
      Expand(Builder(11, reg), Node(3, 1, [Init], [U], [], [q]), 9) ==
        Run(Completed, Builder(12, reg[KeyOf(S9) := S9.(incoming := [Named(4), Init])]))
  {
    var q: Ltl := Atom(2);
    var U: Ltl := Until(Atom(1), q);
    var n3 := Node(3, 1, [Init], [U], [], []);
    LiteralStep(Builder(11, reg), n3, q, 9);
    var n12 := Node(12, 1, [Init], [U, q], [], []);
    assert n3.(name := 12, committed := [U] + [q]) == n12;
    assert KeyOf(n12) == KeyOf(S9);
    MergeStep(Builder(12, reg), n12, 8);
    assert S9.incoming + n12.incoming == [Named(4), Init];
  }

  /** The registry after the merge into state 9, written out. */
  lemma UntilFinalRegistry(S4: Node, S9: Node, E10: Node)
    requires var p: Ltl := Atom(1); var q: Ltl := Atom(2); var U: Ltl := Until(p, q);
      && S4 == Node(4, 1, [Init], [U, p], [U], [])
      && S9 == Node(9, 5, [Named(4)], [U, q], [], [])
      && E10 == Node(10, 10, [Named(9)], [], [], [])
    ensures var p: Ltl := Atom(1); var q: Ltl := Atom(2); var U: Ltl := Until(p, q);
      map[KeyOf(S4) := S4.(incoming := [Init, Named(4)]), KeyOf(S9) := S9, KeyOf(E10) := E10.(incoming := [Named(9), Named(10)])]
        [KeyOf(S9) := S9.(incoming := [Named(4), Init])] ==
      map[
        ([U, p], [U]) := Node(4, 1, [Init, Named(4)], [U, p], [U], []),
        ([U, q], []) := Node(9, 5, [Named(4), Init], [U, q], [], []),
        ([], []) := Node(10, 10, [Named(9), Named(10)], [], [], [])]
  {
  }

  /** The two branches of the first split: branch 1 builds states 4, 9 and 10, branch 2 merges into state 9. */
  lemma UntilFirstSplit()
    ensures var p: Ltl := Atom(1); var q: Ltl := Atom(2); var U: Ltl := Until(p, q);
      ExpandSiblings(Builder(3, map[]), Node(2, 1, [Init], [U], [U], [p]), Node(3, 1, [Init], [U], [], [q]), 9) ==
        Run(Completed, Builder(12, map[
          ([U, p], [U]) := Node(4, 1, [Init, Named(4)], [U, p], [U], []),
          ([U, q], []) := Node(9, 5, [Named(4), Init], [U, q], [], []),
          ([], []) := Node(10, 10, [Named(9), Named(10)], [], [], [])]))
  {
    var p: Ltl := Atom(1);
    var q: Ltl := Atom(2);
    var U: Ltl := Until(p, q);
    var S4 := Node(4, 1, [Init], [U, p], [U], []);
    var S9 := Node(9, 5, [Named(4)], [U, q], [], []);
    var E10 := Node(10, 10, [Named(9)], [], [], []);
    var reg := map[KeyOf(S4) := S4.(incoming := [Init, Named(4)]), KeyOf(S9) := S9, KeyOf(E10) := E10.(incoming := [Named(9), Named(10)])];
    var n2 := Node(2, 1, [Init], [U], [U], [p]);
    var n3 := Node(3, 1, [Init], [U], [], [q]);
    ExpandSiblingsUnfold(Builder(3, map[]), n2, n3, 9);
    UntilFirstBranch1(S4, S9, E10);
    assert Expand(Builder(3, map[]), n2, 9) == Run(Completed, Builder(11, reg));
    UntilFirstBranch2(reg, S9);
    UntilFinalRegistry(S4, S9, E10);
  }

  /**
   * "p until q", `Until(Atom(1), Atom(2))`, yields three states: state 4 has
   * committed `p` and defers the until to `next`; state 9 has committed `q`
   * and is entered from state 4 and from INIT; the empty
   * state 10 follows state 9 and loops on itself.
   */
  lemma UntilScenario()
    ensures var p: Ltl := Atom(1); var q: Ltl := Atom(2); var U: Ltl := Until(p, q);
      CreateGraph(U, 10) ==
        Run(Completed, Builder(12, map[
          ([U, p], [U]) := Node(4, 1, [Init, Named(4)], [U, p], [U], []),
          ([U, q], []) := Node(9, 5, [Named(4), Init], [U, q], [], []),
          ([], []) := Node(10, 10, [Named(9), Named(10)], [], [], [])]))
  {
    var U: Ltl := Until(Atom(1), Atom(2));
    var rest := Node(1, 1, [Init], [], [], []);
    assert InitFormula(1, U) == rest.(pending := [U]);
    SplitStep(Builder(1, map[]), rest, U, 10);
    UntilBranch1(rest, 2);
    UntilBranch2(rest, 3);
    UntilFirstSplit();
  }
}
