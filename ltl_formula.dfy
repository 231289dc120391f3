/**
 * LTL formulas in negation normal form, their smart constructors and the
 * literal test used by the tableau construction to pick an expansion rule.
 */
module LtlFormula {

  /** An LTL formula over atomic propositions of type AP; equality is structural. */
  datatype Formula<AP> =
    | Atom(ap: AP)
    | Not(operand: Formula<AP>)
    | Or(left: Formula<AP>, right: Formula<AP>)
    | And(left: Formula<AP>, right: Formula<AP>)
    | Next(operand: Formula<AP>)
    | Until(left: Formula<AP>, right: Formula<AP>)
    | Release(left: Formula<AP>, right: Formula<AP>)
    | Top
    | Bottom

  /** A literal is an atom, Top or Bottom under any number of negations. */
  predicate IsLiteral<AP>(f: Formula<AP>) {
    match f
    case Atom(_) | Top | Bottom => true
    case Not(g) => IsLiteral(g)
    case _ => false
  }

  // Smart constructors: each builds the matching variant around its operands.

  function MakeAtom<AP>(value: AP): (r: Formula<AP>)
    ensures r.Atom? && r.ap == value
    ensures IsLiteral(r)
  {
    Atom(value)
  }

  function MakeNot<AP>(f: Formula<AP>): (r: Formula<AP>)
    ensures r.Not? && r.operand == f
    ensures IsLiteral(r) <==> IsLiteral(f)
  {
    Not(f)
  }

  function MakeOr<AP>(l: Formula<AP>, r: Formula<AP>): (f: Formula<AP>)
    ensures f.Or? && f.left == l && f.right == r
    ensures !IsLiteral(f)
  {
    Or(l, r)
  }

  function MakeAnd<AP>(l: Formula<AP>, r: Formula<AP>): (f: Formula<AP>)
    ensures f.And? && f.left == l && f.right == r
    ensures !IsLiteral(f)
  {
    And(l, r)
  }

  function MakeNext<AP>(g: Formula<AP>): (f: Formula<AP>)
    ensures f.Next? && f.operand == g
    ensures !IsLiteral(f)
  {
    Next(g)
  }

  function MakeUntil<AP>(l: Formula<AP>, r: Formula<AP>): (f: Formula<AP>)
    ensures f.Until? && f.left == l && f.right == r
    ensures !IsLiteral(f)
  {
    Until(l, r)
  }

  function MakeRelease<AP>(l: Formula<AP>, r: Formula<AP>): (f: Formula<AP>)
    ensures f.Release? && f.left == l && f.right == r
    ensures !IsLiteral(f)
  {
    Release(l, r)
  }

  /**
   * Structural equality: a constructor is injective in its operands, and
   * formulas built by two different constructors are never equal.
   */
  lemma StructuralEquality<AP>(x: AP, y: AP, a: Formula<AP>, b: Formula<AP>, c: Formula<AP>, d: Formula<AP>)
    ensures MakeAtom(x) == MakeAtom(y) <==> x == y
    ensures MakeNot(a) == MakeNot(c) <==> a == c
    ensures MakeNext(a) == MakeNext(c) <==> a == c
    ensures MakeOr(a, b) == MakeOr(c, d) <==> a == c && b == d
    ensures MakeAnd(a, b) == MakeAnd(c, d) <==> a == c && b == d
    ensures MakeUntil(a, b) == MakeUntil(c, d) <==> a == c && b == d
    ensures MakeRelease(a, b) == MakeRelease(c, d) <==> a == c && b == d
    ensures var fs := [MakeAtom(x), MakeNot(a), MakeOr(a, b), MakeAnd(a, b), MakeNext(a), MakeUntil(a, b), MakeRelease(a, b), Top, Bottom];
      var gs := [MakeAtom(y), MakeNot(c), MakeOr(c, d), MakeAnd(c, d), MakeNext(c), MakeUntil(c, d), MakeRelease(c, d), Top, Bottom];
      forall i, j | 0 <= i < |fs| && 0 <= j < |gs| && i != j :: fs[i] != gs[j]
  {
  }

  /** The base shapes a literal is built on. */
  predicate IsBase<AP>(f: Formula<AP>) {
    f.Atom? || f.Top? || f.Bottom?
  }

  /** Removes all leading negations. */
  function StripNegations<AP>(f: Formula<AP>): (r: Formula<AP>)
    ensures !r.Not?
  {
    if f.Not? then StripNegations(f.operand) else f
  }

  /** `f` wrapped in `k` negations. */
  function Negate<AP>(f: Formula<AP>, k: nat): Formula<AP> {
    if k == 0 then f else Not(Negate(f, k - 1))
  }

  /** Literals are exactly the formulas that are a base shape once their negations are removed. */
  lemma {:induction false} LiteralIffNegatedBase<AP>(f: Formula<AP>)
    ensures IsLiteral(f) <==> IsBase(StripNegations(f))
  {
    if f.Not? {
      LiteralIffNegatedBase(f.operand);
    }
  }

  /** Any number of negations around a formula leaves its literal status unchanged. */
  lemma {:induction false} NegationsPreserveLiteral<AP>(f: Formula<AP>, k: nat)
    ensures IsLiteral(Negate(f, k)) <==> IsLiteral(f)
  {
    if k > 0 {
      NegationsPreserveLiteral(f, k - 1);
    }
  }

  /** Number of constructors in a formula. */
  function Size<AP>(f: Formula<AP>): (n: nat)
    ensures n >= 1
  {
    match f
    case Atom(_) | Top | Bottom => 1
    case Not(g) => 1 + Size(g)
    case Next(g) => 1 + Size(g)
    case Or(l, r) => 1 + Size(l) + Size(r)
    case And(l, r) => 1 + Size(l) + Size(r)
    case Until(l, r) => 1 + Size(l) + Size(r)
    case Release(l, r) => 1 + Size(l) + Size(r)
  }

  /** `g` occurs in `f` (reflexive sub-formula relation). */
  predicate Sub<AP(==)>(g: Formula<AP>, f: Formula<AP>)
    decreases f
  {
    g == f ||
    match f
    case Atom(_) | Top | Bottom => false
    case Not(h) => Sub(g, h)
    case Next(h) => Sub(g, h)
    case Or(l, r) => Sub(g, l) || Sub(g, r)
    case And(l, r) => Sub(g, l) || Sub(g, r)
    case Until(l, r) => Sub(g, l) || Sub(g, r)
    case Release(l, r) => Sub(g, l) || Sub(g, r)
  }

  lemma {:induction false} SubTransitive<AP>(a: Formula<AP>, b: Formula<AP>, c: Formula<AP>)
    requires Sub(a, b) && Sub(b, c)
    ensures Sub(a, c)
    decreases c
  {
    if b != c {
      match c
      case Not(h) => SubTransitive(a, b, h);
      case Next(h) => SubTransitive(a, b, h);
      case Or(l, r) => if Sub(b, l) { SubTransitive(a, b, l); } else { SubTransitive(a, b, r); }
      case And(l, r) => if Sub(b, l) { SubTransitive(a, b, l); } else { SubTransitive(a, b, r); }
      case Until(l, r) => if Sub(b, l) { SubTransitive(a, b, l); } else { SubTransitive(a, b, r); }
      case Release(l, r) => if Sub(b, l) { SubTransitive(a, b, l); } else { SubTransitive(a, b, r); }
    }
  }

  /** Negation normal form: every negation applies to a literal. */
  predicate InNormalForm<AP>(f: Formula<AP>) {
    match f
    case Atom(_) | Top | Bottom => true
    case Not(g) => IsLiteral(g)
    case Next(g) => InNormalForm(g)
    case Or(l, r) => InNormalForm(l) && InNormalForm(r)
    case And(l, r) => InNormalForm(l) && InNormalForm(r)
    case Until(l, r) => InNormalForm(l) && InNormalForm(r)
    case Release(l, r) => InNormalForm(l) && InNormalForm(r)
  }

  lemma {:induction false} LiteralInNormalForm<AP>(f: Formula<AP>)
    requires IsLiteral(f)
    ensures InNormalForm(f)
  {
    if f.Not? {
      LiteralInNormalForm(f.operand);
    }
  }

  /** Every sub-formula of a formula in negation normal form is in negation normal form. */
  lemma {:induction false} NormalFormClosed<AP>(g: Formula<AP>, f: Formula<AP>)
    requires Sub(g, f) && InNormalForm(f)
    ensures InNormalForm(g)
    decreases f
  {
    if g != f {
      match f
      case Not(h) =>
        LiteralInNormalForm(h);
        NormalFormClosed(g, h);
      case Next(h) => NormalFormClosed(g, h);
      case Or(l, r) => if Sub(g, l) { NormalFormClosed(g, l); } else { NormalFormClosed(g, r); }
      case And(l, r) => if Sub(g, l) { NormalFormClosed(g, l); } else { NormalFormClosed(g, r); }
      case Until(l, r) => if Sub(g, l) { NormalFormClosed(g, l); } else { NormalFormClosed(g, r); }
      case Release(l, r) => if Sub(g, l) { NormalFormClosed(g, l); } else { NormalFormClosed(g, r); }
    }
  }
}
