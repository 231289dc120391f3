/**
 * Tableau nodes of the on-the-fly LTL-to-Büchi construction and the
 * expansion rules, each written as a function from a node (and the fresh
 * names it consumes) to its successor node(s).
 */
module TableauNode {
  import opened LtlFormula

  /** Atomic propositions of the builder are unsigned bytes. */
  type U8 = x: int | 0 <= x < 256

  type Ltl = Formula<U8>

  /** An entry of a node's incoming list: the initial marker or a node name. */
  datatype Source = Init | Named(id: nat)

  /**
   * A tableau node. `committed` holds the formulas already processed and
   * `pending` those still to process; the source calls these lists `old` and
   * `new`, both reserved words here. `pending` is used as a stack whose top
   * is its last element.
   */
  datatype Node = Node(
    name: nat,
    father: nat,
    incoming: seq<Source>,
    committed: seq<Ltl>,
    next: seq<Ltl>,
    pending: seq<Ltl>)

  /** Registry key of a fully expanded node: its `(committed, next)` pair (the source hashes `(old, next)`). */
  type Key = (seq<Ltl>, seq<Ltl>)

  // The rules below carry no postconditions: the recursive driver in
  // TableauSpec unfolds them at every step, so their properties are stated
  // as lemmas that proofs call where they need them.

  /** The node built for the input formula of a construction. */
  function InitFormula(name: nat, f: Ltl): Node {
    Node(name, name, [Init], [], [], [f])
  }

  predicate IsFullyExpanded(n: Node) {
    n.pending == []
  }

  /** Removes the top (last element) of `pending`. */
  function PopNewFormula(n: Node): (Ltl, Node)
    requires !IsFullyExpanded(n)
  {
    (n.pending[|n.pending| - 1], n.(pending := n.pending[..|n.pending| - 1]))
  }

  /** Popping splits `pending` into the rest and its top; every other field is kept. */
  lemma PopNewFormulaSplits(n: Node)
    requires !IsFullyExpanded(n)
    ensures var (f, rest) := PopNewFormula(n);
      && rest.pending + [f] == n.pending
      && rest.name == n.name && rest.father == n.father && rest.incoming == n.incoming
      && rest.committed == n.committed && rest.next == n.next
  {
    var (f, rest) := PopNewFormula(n);
    assert rest.pending + [f] == n.pending;
  }

  predicate ContainsProcessedFormula(n: Node, f: Ltl) {
    f in n.committed
  }

  /** Identity of a fully expanded node: name, father, incoming and pending play no part. */
  function KeyOf(n: Node): Key {
    (n.committed, n.next)
  }

  // ---------------------------------------------------------------------
  // Literal rule

  /** The literal rule drops the node on Bottom or when Not(lit) was already committed. */
  predicate LiteralPruned(n: Node, lit: Ltl) {
    lit == Bottom || ContainsProcessedFormula(n, Not(lit))
  }

  /** The successor of a literal that is not pruned: the literal is committed under a fresh name. */
  function CommitLiteral(n: Node, lit: Ltl, name: nat): Node {
    n.(name := name, committed := n.committed + [lit])
  }

  // ---------------------------------------------------------------------
  // Conjunction and next rules

  /** Appends `x` unless it is already present. */
  function PushAbsent(s: seq<Ltl>, x: Ltl): seq<Ltl> {
    if x in s then s else s + [x]
  }

  /** `PushAbsent` extends `s` by at most one element, and only by `x`, which it always holds afterwards. */
  lemma PushAbsentMembers(s: seq<Ltl>, x: Ltl)
    ensures forall g :: g in PushAbsent(s, x) <==> g in s || g == x
    ensures s <= PushAbsent(s, x) && |PushAbsent(s, x)| <= |s| + 1
  {
  }

  /** The node after processing `And(l, r)`: both operands join `pending` (once), the conjunction joins `committed`. */
  function Conjoin(n: Node, f: Ltl): Node
    requires f.And?
  {
    n.(pending := PushAbsent(PushAbsent(n.pending, f.left), f.right), committed := n.committed + [f])
  }

  /** The conjunction rule adds exactly the two operands to `pending`, keeping what was there. */
  lemma ConjoinMembers(n: Node, f: Ltl)
    requires f.And?
    ensures forall g :: g in Conjoin(n, f).pending <==> g in n.pending || g == f.left || g == f.right
    ensures n.pending <= Conjoin(n, f).pending && |Conjoin(n, f).pending| <= |n.pending| + 2
  {
    PushAbsentMembers(n.pending, f.left);
    PushAbsentMembers(PushAbsent(n.pending, f.left), f.right);
  }

  /** The node after processing `Next(g)`: the formula joins `committed`, `g` is deferred to `next`. */
  function DeferNext(n: Node, f: Ltl): Node
    requires f.Next?
  {
    n.(committed := n.committed + [f], next := n.next + [f.operand])
  }

  // ---------------------------------------------------------------------
  // Splitting rule for Or, Until and Release

  predicate IsSplitFormula(f: Ltl) {
    f.Or? || f.Until? || f.Release?
  }

  /** The formula branch 1 must satisfy now: the right operand of a release, the left one otherwise. */
  function New1(f: Ltl): Ltl
    requires IsSplitFormula(f)
  {
    match f
    case Until(l, _) => l
    case Release(_, r) => r
    case Or(l, _) => l
  }

  /** The formulas branch 2 must satisfy now: both operands of a release, the right one otherwise. */
  function New2(f: Ltl): seq<Ltl>
    requires IsSplitFormula(f)
  {
    match f
    case Until(_, r) => [r]
    case Release(l, r) => [l, r]
    case Or(_, r) => [r]
  }

  /** The formulas branch 1 defers to the successor state: Until and Release re-obligate themselves. */
  function Next1(f: Ltl): seq<Ltl>
    requires IsSplitFormula(f)
  {
    match f
    case Until(l, r) => [Until(l, r)]
    case Release(l, r) => [Release(l, r)]
    case Or(_, _) => []
  }

  /** A split only ever asks for strict sub-formulas of the split formula, now or in the successor. */
  lemma SplitObligations(f: Ltl)
    requires IsSplitFormula(f)
    ensures Sub(New1(f), f) && Size(New1(f)) < Size(f)
    ensures forall g | g in New2(f) :: Sub(g, f) && Size(g) < Size(f)
    ensures Next1(f) == if f.Or? then [] else [f]
  {
  }

  /** The members of `xs`, in order, that do not occur in `committed`. */
  function Absent(xs: seq<Ltl>, committed: seq<Ltl>): seq<Ltl> {
    if xs == [] then []
    else
      var last := xs[|xs| - 1];
      Absent(xs[..|xs| - 1], committed) + (if last in committed then [] else [last])
  }

  /** `Absent` keeps exactly the members of `xs` that are not committed, and never grows. */
  lemma {:induction false} AbsentMembers(xs: seq<Ltl>, committed: seq<Ltl>)
    ensures forall g :: g in Absent(xs, committed) <==> g in xs && g !in committed
    ensures |Absent(xs, committed)| <= |xs|
    decreases |xs|
  {
    if xs != [] {
      var init := xs[..|xs| - 1];
      AbsentMembers(init, committed);
      assert xs == init + [xs[|xs| - 1]];
    }
  }

  lemma AbsentSingle(x: Ltl, committed: seq<Ltl>)
    ensures Absent([x], committed) == if x in committed then [] else [x]
  {
    assert [x][..0] == [];
  }

  /** Branch 1 of a split: `New1(f)` joins `pending` unless already committed, `Next1(f)` joins `next`. */
  function Branch1(n: Node, f: Ltl, name: nat): Node
    requires IsSplitFormula(f)
  {
    Node(name, n.name, n.incoming, n.committed + [f], n.next + Next1(f), n.pending + Absent([New1(f)], n.committed))
  }

  /** Branch 2 of a split: the members of `New2(f)` not yet committed join `pending`; `next` is kept. */
  function Branch2(n: Node, f: Ltl, name: nat): Node
    requires IsSplitFormula(f)
  {
    Node(name, n.name, n.incoming, n.committed + [f], n.next, n.pending + Absent(New2(f), n.committed))
  }

  /**
   * Both branches commit the split formula and are children of `n`; each
   * keeps the pending list of `n` as a prefix, holds the obligations of its
   * side, in `pending` or already committed, and adds nothing else to
   * `pending`.
   */
  lemma BranchesCover(n: Node, f: Ltl, name1: nat, name2: nat)
    requires IsSplitFormula(f)
    ensures var b1 := Branch1(n, f, name1);
      && b1.committed == n.committed + [f] && b1.next == n.next + Next1(f)
      && b1.name == name1 && b1.father == n.name && b1.incoming == n.incoming
      && n.pending <= b1.pending
      && (New1(f) in b1.pending || New1(f) in n.committed)
      && forall g | g in b1.pending :: g in n.pending || g == New1(f)
    ensures var b2 := Branch2(n, f, name2);
      && b2.committed == n.committed + [f] && b2.next == n.next
      && b2.name == name2 && b2.father == n.name && b2.incoming == n.incoming
      && n.pending <= b2.pending
      && (forall g | g in New2(f) :: g in b2.pending || g in n.committed)
      && forall g | g in b2.pending :: g in n.pending || g in New2(f)
  {
    AbsentMembers([New1(f)], n.committed);
    AbsentMembers(New2(f), n.committed);
  }

  // ---------------------------------------------------------------------
  // Fully expanded nodes

  /** The node that starts the successor of a newly registered state. */
  function Seed(state: Node, name: nat): Node {
    Node(name, name, [Named(state.name)], [], [], state.next)
  }

  // ---------------------------------------------------------------------
  // The expansion measure

  /** Total size of a list of formulas. */
  function SumSize(s: seq<Ltl>): nat {
    if s == [] then 0 else SumSize(s[..|s| - 1]) + Size(s[|s| - 1])
  }

  lemma {:induction false} SumSizeAppend(a: seq<Ltl>, b: seq<Ltl>)
    ensures SumSize(a + b) == SumSize(a) + SumSize(b)
    decreases |b|
  {
    if b == [] {
      assert a + b == a;
    } else {
      assert (a + b)[..|a + b| - 1] == a + b[..|b| - 1];
      SumSizeAppend(a, b[..|b| - 1]);
    }
  }

  lemma {:induction false} SumSizeAbsent(xs: seq<Ltl>, committed: seq<Ltl>)
    ensures SumSize(Absent(xs, committed)) <= SumSize(xs)
    decreases |xs|
  {
    if xs != [] {
      var last := xs[|xs| - 1];
      SumSizeAbsent(xs[..|xs| - 1], committed);
      SumSizeAppend(Absent(xs[..|xs| - 1], committed), if last in committed then [] else [last]);
      assert SumSize([last]) == Size(last) by {
        assert [last][..0] == [];
      }
    }
  }

  lemma SumSizeSingle(x: Ltl)
    ensures SumSize([x]) == Size(x)
  {
    assert [x][..0] == [];
  }

  lemma SumSizePair(x: Ltl, y: Ltl)
    ensures SumSize([x, y]) == Size(x) + Size(y)
  {
    assert [x, y][..1] == [x];
    SumSizeSingle(x);
  }

  lemma {:induction false} SumSizePushAbsent(s: seq<Ltl>, x: Ltl)
    ensures SumSize(PushAbsent(s, x)) <= SumSize(s) + Size(x)
  {
    if x !in s {
      SumSizeAppend(s, [x]);
      SumSizeSingle(x);
    }
  }

  /**
   * Within one node every rule strictly shrinks the total size of `pending`:
   * the processed formula leaves it and only strict sub-formulas of it enter.
   */
  lemma {:induction false} ExpansionShrinksPending(n: Node, name: nat)
    requires !IsFullyExpanded(n)
    ensures var (f, rest) := PopNewFormula(n);
      && SumSize(CommitLiteral(rest, f, name).pending) < SumSize(n.pending)
      && (f.And? ==> SumSize(Conjoin(rest, f).pending) < SumSize(n.pending))
      && (f.Next? ==> SumSize(DeferNext(rest, f).pending) < SumSize(n.pending))
      && (IsSplitFormula(f) ==> SumSize(Branch1(rest, f, name).pending) < SumSize(n.pending))
      && (IsSplitFormula(f) ==> SumSize(Branch2(rest, f, name).pending) < SumSize(n.pending))
  {
    var (f, rest) := PopNewFormula(n);
    SumSizeAppend(rest.pending, [f]);
    SumSizeSingle(f);
    if f.And? {
      SumSizePushAbsent(rest.pending, f.left);
      SumSizePushAbsent(PushAbsent(rest.pending, f.left), f.right);
    }
    if IsSplitFormula(f) {
      SumSizeAppend(rest.pending, Absent([New1(f)], rest.committed));
      SumSizeAbsent([New1(f)], rest.committed);
      SumSizeSingle(New1(f));
      SumSizeAppend(rest.pending, Absent(New2(f), rest.committed));
      SumSizeAbsent(New2(f), rest.committed);
      if f.Release? {
        SumSizePair(f.left, f.right);
      } else {
        SumSizeSingle(f.right);
      }
    }
  }
}
