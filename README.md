# On-the-fly LTL to Büchi tableau

This project models the core of `rust-model-checking`. That core is the on-the-fly tableau construction of Gerth, Peled, Vardi and Wolper: it turns an LTL formula in negation normal form into the states of a generalised Büchi automaton. It has two parts.

- **The formula type** `LtlFormula<AP>` (module `LtlFormula`):
  - atoms, negation, disjunction, conjunction, next, until, release, Top and Bottom;
  - one smart constructor per connective;
  - the literal test that decides which expansion rule applies.
- **The builder** `OnTheFlyLtl` (modules `TableauNode`, `Registry`, `TableauSpec`, `TableauBuilder`, `TableauProperties`). It holds a node-name counter and a registry (`NodeSet`) of fully expanded nodes, keyed by their `(old, next)` lists.
  - Starting from the node for the input formula, `expand` repeatedly pops the last pending formula of a node and applies one rule: literal, conjunction, next, or the two-way split for `Or`/`Until`/`Release`.
  - A node with no pending formula is either merged into the registered state with the same key, which gains its incoming entries, or registered. A newly registered state is followed by the seed of its successor, whose pending formulas are the state's `next` list.

The source calls a node's three formula lists `old`, `next` and `new`. Here they are `committed`, `next` and `pending`, because `old` and `new` are reserved words in Dafny.

How the model is laid out:

- The rules are pure functions from a node, plus the fresh names they consume, to the successor nodes (`TableauNode`).
- The recursive driver is described twice:
  - as functions from the builder state before a call to the outcome and the state after it (`TableauSpec`);
  - as the methods of the class `OnTheFlyLtl`, which update a counter field and a `NodeSet` object in place (`TableauBuilder`). Each method of the recursive driver (`CreateGraph`, `Expand`, `ProcessFullyExpandedNode`, `ProcessNode`, `ProcessLiteral`, `SplitNode`, `ExpandConjunction`, `ExpandNext`) is proved to compute exactly what the `TableauSpec` function of the same name says. `GenerateNewNodeName` and `AppendAbsent` are specified directly.
- `TableauProperties` proves the registry invariant that every step preserves, and traces four small constructions completely.

One reading of the construction is that no state holds both `p` and `¬p`. The literal check in `process_literal` (src/ltl_buchi.rs:92) only looks for `Not(literal)` among the committed formulas, so committing `¬p` after `p` is not pruned. The model follows the code. `TableauProperties.PruneSafe` states the one-directional guarantee the code does give. `TableauProperties.ContradictionScenario` shows `And(Not(p), p)` registering a state that has committed both `p` and `Not(p)`.

## Model

| member | source | states |
|---|---|---|
| LtlFormula.MakeAtom | src/ltl_formula.rs:17-19 | the result is the atom holding the given proposition |
| LtlFormula.MakeNot | src/ltl_formula.rs:21-23 | the result is a negation whose operand is the argument |
| LtlFormula.MakeOr | src/ltl_formula.rs:25-27 | the result is a disjunction of the two arguments, in order |
| LtlFormula.MakeAnd | src/ltl_formula.rs:29-31 | the result is a conjunction of the two arguments, in order |
| LtlFormula.MakeNext | src/ltl_formula.rs:33-35 | the result is a next formula over the argument |
| LtlFormula.MakeUntil | src/ltl_formula.rs:37-39 | the result is an until formula with the arguments as left and right operands |
| LtlFormula.MakeRelease | src/ltl_formula.rs:41-43 | the result is a release formula with the arguments as left and right operands |
| LtlFormula.StructuralEquality | src/ltl_formula.rs:3-43 | two formulas built by the same constructor are equal exactly when their operands are equal; formulas built by any two different constructors are never equal, whatever their operands |
| LtlFormula.IsLiteral | src/ltl_formula.rs:45-51 | the literal test as the source writes it: an atom, Top or Bottom, or a negation of a literal; its meaning is stated by `LtlFormula.LiteralIffNegatedBase` |
| LtlFormula.LiteralIffNegatedBase | src/ltl_formula.rs:45-51 | a formula is a literal exactly when removing its leading negations leaves an atom, Top or Bottom; so binary and temporal connectives are never literals |
| LtlFormula.NegationsPreserveLiteral | src/ltl_formula.rs:48 | wrapping a formula in any number of negations does not change whether it is a literal |
| LtlFormula.LiteralInNormalForm | src/ltl_formula.rs:45-51 | every literal, including nested negations of atoms, is in negation normal form |
| LtlFormula.NormalFormClosed | src/ltl_buchi.rs:67-68 | every sub-formula of a formula in negation normal form is in negation normal form, so no sub-formula triggers the normal-form error |
| TableauNode.InitFormula | src/ltl_buchi.rs:231-240 | the first node of a construction: its name is also its father, its incoming list is INIT alone, the input formula is its only pending formula, and nothing is committed or deferred |
| TableauNode.IsFullyExpanded | src/ltl_buchi.rs:242-244 | a node is fully expanded exactly when it has no pending formula |
| TableauNode.PopNewFormula | src/ltl_buchi.rs:246-248 | takes the last pending formula of a node that has one; its properties are stated by `TableauNode.PopNewFormulaSplits` |
| TableauNode.ContainsProcessedFormula | src/ltl_buchi.rs:250-252 | a formula is processed exactly when it is in the committed list |
| TableauNode.KeyOf | src/ltl_buchi.rs:254-266 | the registry key of a node is its `(committed, next)` pair; name, father, incoming and pending play no part |
| TableauNode.LiteralPruned | src/ltl_buchi.rs:92-94 | the literal rule drops the node exactly when the literal is Bottom or its negation `Not(literal)` is committed |
| TableauNode.CommitLiteral | src/ltl_buchi.rs:96-98 | the successor of a literal that is not dropped: the literal is appended to the committed list under the fresh name, all other fields kept |
| TableauNode.PushAbsent | src/ltl_buchi.rs:177-182 | the conditional push of the conjunction rule; its properties are stated by `TableauNode.PushAbsentMembers` |
| TableauNode.Conjoin | src/ltl_buchi.rs:176-194 | the conjunction rule's successor: the two operands pushed onto pending unless already there, the conjunction committed, name, father, incoming and next kept; its properties are stated by `TableauNode.ConjoinMembers` |
| TableauNode.DeferNext | src/ltl_buchi.rs:200-212 | the next rule's successor: `X A` committed, `A` appended to next, all other fields kept |
| TableauNode.IsSplitFormula | src/ltl_buchi.rs:75-77 | the split rule applies exactly to disjunctions, until and release formulas |
| TableauNode.New1 | src/ltl_buchi.rs:142-149 | what branch 1 must satisfy now: the left operand of an until or a disjunction, the right operand of a release; its properties are stated by `TableauNode.SplitObligations` |
| TableauNode.New2 | src/ltl_buchi.rs:151-158 | what branch 2 must satisfy now: the right operand of an until or a disjunction, both operands of a release, in order |
| TableauNode.Next1 | src/ltl_buchi.rs:160-167 | what branch 1 defers: the until or release formula itself, nothing for a disjunction |
| TableauNode.Absent | src/ltl_buchi.rs:122-126 | the members of a list, in order, that are not committed; its properties are stated by `TableauNode.AbsentMembers` |
| TableauNode.Branch1 | src/ltl_buchi.rs:103-119 | branch 1 of a split; its properties are stated by `TableauNode.BranchesCover` |
| TableauNode.Branch2 | src/ltl_buchi.rs:121-136 | branch 2 of a split; its properties are stated by `TableauNode.BranchesCover` |
| TableauNode.Seed | src/ltl_buchi.rs:50-58 | the successor seed of a registered state: one fresh name as both name and father, entered from the state, pending formulas the state's next list, nothing committed or deferred |
| TableauNode.PopNewFormulaSplits | src/ltl_buchi.rs:246-248 | popping takes the last pending formula: the rest followed by it is the old pending list, and every other field is unchanged |
| TableauNode.PushAbsentMembers | src/ltl_buchi.rs:177-182 | a conditional push keeps the old list as a prefix, adds at most one element, and afterwards the list holds exactly the old members and the pushed formula |
| TableauNode.ConjoinMembers | src/ltl_buchi.rs:169-197 | after the conjunction rule the pending list keeps its old contents as a prefix, gains at most two formulas, and its members are exactly the old ones plus the two operands |
| TableauNode.SplitObligations | src/ltl_buchi.rs:142-167 | the formulas a split asks for now are strict sub-formulas of the split formula; branch 1 re-obligates an until or release formula itself in `next` and defers nothing for a disjunction |
| TableauNode.AbsentMembers | src/ltl_buchi.rs:121-126 | the filtered list holds exactly the members of the input that are not committed, and is no longer than the input |
| TableauNode.AbsentSingle | src/ltl_buchi.rs:105-107 | filtering one formula against the committed list keeps it exactly when it is not committed |
| TableauNode.BranchesCover | src/ltl_buchi.rs:102-136 | both branches commit the split formula, are children of the split node, keep its incoming list and take their given names; each keeps the split node's pending list as a prefix; branch 1 extends `next` by `next_1`, branch 2 keeps it; each branch holds every formula of its side in pending or already committed, and adds nothing else to pending |
| TableauNode.ExpansionShrinksPending | src/ltl_buchi.rs:63-215 | every rule applied to a node strictly shrinks the total size of its pending formulas, so expansion within one node ends |
| Registry.NodeSet.constructor | src/ltl_buchi.rs:274-278 | a new registry is empty |
| Registry.NodeSet.Clear | src/ltl_buchi.rs:280-282 | clearing leaves the registry empty |
| Registry.NodeSet.Contains | src/ltl_buchi.rs:295-298 | a node is registered exactly when its `(committed, next)` key is |
| Registry.NodeSet.Add | src/ltl_buchi.rs:284-298 | the node is inserted under its `(old, next)` key and true returned exactly when that key was absent; otherwise nothing changes and false is returned |
| Registry.NodeSet.ExtendIncoming | src/ltl_buchi.rs:42-43 | when the key is registered, exactly that entry's incoming list is extended by the given entries; otherwise nothing changes; the result says which happened |
| TableauSpec.CreateGraph | src/ltl_buchi.rs:20-25 | a construction starts from counter 1, an empty registry and the initial node named 1 |
| TableauSpec.Expand | src/ltl_buchi.rs:32-38 | an expansion never lowers the counter, never removes a registered key, and changes a registered state only by appending to its incoming list |
| TableauSpec.ProcessFullyExpandedNode | src/ltl_buchi.rs:40-61 | merging or registering a fully expanded node only lets the builder grow as above |
| TableauSpec.ProcessNode | src/ltl_buchi.rs:63-89 | one expansion step only lets the builder grow as above |
| TableauSpec.ProcessLiteral | src/ltl_buchi.rs:91-100 | the literal rule only lets the builder grow as above |
| TableauSpec.SplitNode | src/ltl_buchi.rs:102-140 | the split rule only lets the builder grow as above |
| TableauSpec.ExpandSiblings | src/ltl_buchi.rs:138-139 | expanding the two branches in turn only lets the builder grow as above |
| TableauSpec.ExpandConjunction | src/ltl_buchi.rs:169-197 | the conjunction rule only lets the builder grow as above |
| TableauSpec.ExpandNext | src/ltl_buchi.rs:199-215 | the next rule only lets the builder grow as above |
| TableauBuilder.OnTheFlyLtl.constructor | src/ltl_buchi.rs:13-18 | a new builder has counter 0 and an empty registry of its own, newly allocated |
| TableauBuilder.OnTheFlyLtl.GenerateNewNodeName | src/ltl_buchi.rs:27-30 | each fresh name is the previous counter plus one, and the counter becomes that name |
| TableauBuilder.OnTheFlyLtl.CreateGraph | src/ltl_buchi.rs:20-25 | the construction starts from an empty registry with the first node named 1, so its outcome and final state are those of `TableauSpec.CreateGraph` on the formula alone; the final registry satisfies the registry invariant, and a formula in negation normal form never hits the normal-form error |
| TableauBuilder.OnTheFlyLtl.Expand | src/ltl_buchi.rs:32-38 | the outcome and the new counter and registry are those of `TableauSpec.Expand` from the old state |
| TableauBuilder.OnTheFlyLtl.ProcessFullyExpandedNode | src/ltl_buchi.rs:40-61 | the in-place merge or insertion and the expansion of the successor seed leave exactly the state of `TableauSpec.ProcessFullyExpandedNode` |
| TableauBuilder.OnTheFlyLtl.ProcessNode | src/ltl_buchi.rs:63-89 | the dispatch on the popped formula leaves exactly the state of `TableauSpec.ProcessNode` |
| TableauBuilder.OnTheFlyLtl.ProcessLiteral | src/ltl_buchi.rs:91-100 | the literal rule leaves exactly the state of `TableauSpec.ProcessLiteral` |
| TableauBuilder.OnTheFlyLtl.SplitNode | src/ltl_buchi.rs:102-140 | the two branches built step by step are the rule's branches 1 and 2, named in that order, and their expansion leaves exactly the state of `TableauSpec.SplitNode` |
| TableauBuilder.OnTheFlyLtl.AppendAbsent | src/ltl_buchi.rs:121-126 | the loop appends, in order, exactly the formulas of the list that are not committed |
| TableauBuilder.OnTheFlyLtl.ExpandConjunction | src/ltl_buchi.rs:169-197 | the node built by conditional pushes is the conjunction rule's successor, and its expansion leaves exactly the state of `TableauSpec.ExpandConjunction` |
| TableauBuilder.OnTheFlyLtl.ExpandNext | src/ltl_buchi.rs:199-215 | the next rule leaves exactly the state of `TableauSpec.ExpandNext` |
| TableauBuilder.BuildAlwaysExample | src/main.rs:3-8 | a new builder constructing "always p" completes with exactly the one state of `TableauProperties.AlwaysScenario` in its registry |
| TableauProperties.PruneSafeAppend | src/ltl_buchi.rs:92-98 | committing a literal that is not Bottom and whose negation is not committed keeps the committed list free of Bottom and of a literal preceded by its negation |
| TableauProperties.MergeValid | src/ltl_buchi.rs:42-43 | appending a node's incoming entries to the registered state with its key keeps the registry invariant |
| TableauProperties.RegisterValid | src/ltl_buchi.rs:44-59 | registering a new fully expanded node under a fresh counter keeps the registry invariant, and the successor seed is a valid node |
| TableauProperties.ExpandSound | src/ltl_buchi.rs:32-38 | from a valid registry and a valid node, an expansion leaves a valid registry, names every state it registers with the node's name or a name issued later, and never hits the normal-form error on a normal-form input |
| TableauProperties.FullyExpandedSound | src/ltl_buchi.rs:40-61 | the same for a fully expanded node |
| TableauProperties.ProcessNodeSound | src/ltl_buchi.rs:63-89 | the same for one expansion step of a node with pending formulas |
| TableauProperties.ProcessLiteralSound | src/ltl_buchi.rs:91-100 | the same for the literal rule |
| TableauProperties.SplitContentValid | src/ltl_buchi.rs:102-136 | both split branches hold only sub-formulas of the input and keep the committed list free of pruned literals |
| TableauProperties.Branch1Valid | src/ltl_buchi.rs:103-119 | branch 1, named with the first of the two fresh names, is a valid node |
| TableauProperties.Branch2Valid | src/ltl_buchi.rs:121-136 | branch 2, named with the second fresh name, is still a valid node after branch 1 has been expanded |
| TableauProperties.SplitNodeSound | src/ltl_buchi.rs:102-140 | the soundness property for the split rule |
| TableauProperties.SplitBranchesSound | src/ltl_buchi.rs:138-139 | the soundness property for the expansion of both branches, whether or not branch 1 completes |
| TableauProperties.SplitFirstSound | src/ltl_buchi.rs:138 | the soundness property for the expansion of branch 1 |
| TableauProperties.SplitSecondSound | src/ltl_buchi.rs:139 | the soundness property for the expansion of branch 2 from the state branch 1 left |
| TableauProperties.ConjunctionSound | src/ltl_buchi.rs:169-197 | the soundness property for the conjunction rule |
| TableauProperties.NextSound | src/ltl_buchi.rs:199-215 | the soundness property for the next rule |
| TableauProperties.CreateGraphValid | src/ltl_buchi.rs:20-25 | whatever the formula, a construction leaves every registered state fully expanded, stored under its own key, holding only sub-formulas of the input, passed by the literal checks and uniquely named; a normal-form input never hits the normal-form error |
| TableauProperties.LiteralStep | src/ltl_buchi.rs:91-100 | a node whose only pending formula is a literal that is not dropped continues as the node with the literal committed under the next name |
| TableauProperties.SplitStep | src/ltl_buchi.rs:102-140 | a node whose only pending formula is split continues as branch 1 under the next name and branch 2 under the one after, expanded in that order |
| TableauProperties.MergeStep | src/ltl_buchi.rs:40-43 | a fully expanded node whose key is registered completes with only that state's incoming list extended by its own |
| TableauProperties.RegisterStep | src/ltl_buchi.rs:44-59 | a fully expanded node with a new key is registered under it, and the seed of its successor is expanded under the next name |
| TableauProperties.AlwaysScenario | src/main.rs:5 | "always p", `Release(Bottom, Atom(1))`, yields exactly one state: it has committed the release and `p`, re-obligates the release in `next`, and is entered from INIT and from itself |
| TableauProperties.NegatedNonLiteralRejected | src/ltl_buchi.rs:63-68 | a negated non-literal input stops the construction with the normal-form error before anything is registered |
| TableauProperties.UntilScenario | src/main.rs:6 | "p until q", `Until(Atom(1), Atom(2))`, yields three states: one that has committed `p` and defers the until, entered from INIT and from itself; one that has committed `q`, entered from the first and from INIT; and the empty state after it, looping on itself |
| TableauProperties.ContradictionScenario | src/ltl_buchi.rs:91-100 | `And(Not(p), p)` registers a state that has committed both `p` and `Not(p)`, followed by the empty state looping on itself, because the literal check only looks for `Not(literal)` |

## Left out

- Integer width of names: the source keeps the counter as a `u8` and turns it into a `String`. Names here are unbounded naturals. Past 255 names, the source panics in a debug build and reuses names in a release build.
- TableauBuilder.OnTheFlyLtl.GenerateNewNodeName: does not model the `u8` overflow, for the reason above.
- Registry key: the source keys the registry by the 64-bit `DefaultHasher` digest of `(old, next)`. Here the key is the pair itself, so hash collisions, which would merge unrelated states, are not modelled.
- Global termination: it is not proved. The keys are order-sensitive lists that may hold duplicates, so no simple bound on the registry exists. The recursion carries a `fuel` bound instead, and reaching it ends the run with the outcome `OutOfFuel`. Expansion within one node is proved to shrink (`TableauNode.ExpansionShrinksPending`).
- Order of split expansions: the source expands branch 2 right after branch 1. Here branch 2 is expanded only when branch 1 completed, because a panic in branch 1 aborts the whole construction and `OutOfFuel` is an outcome of the model only.
- Panics:
  - The panic on a negated non-literal is the outcome `NotNormalForm`, which ends the construction.
  - The default panic arm of `process_node` and the panicking arms of `new_1`, `new_2` and `next_1` are unreachable. The model rules them out with the precondition `IsSplitFormula`, and the dispatch proves it covers every formula.
  - The `expect` on the pop is never reached, since `process_node` only runs on nodes with pending formulas. The model states this as a precondition.
- `NodeSet::get_mut` is folded into `Registry.NodeSet.ExtendIncoming`, which does the lookup and the in-place extension together. `NodeSet::contains` is the predicate `Registry.NodeSet.Contains`.
- `src/main.rs` builds one formula and prints the builder. The printing is not modelled. The construction is `TableauBuilder.BuildAlwaysExample`, and its commented-out alternative formula is the worked example `TableauProperties.UntilScenario`.
- `HashMap` capacity, `Box` allocation and the `Clone`/`Debug`/`Hash` derives are library plumbing with no behaviour to model.
