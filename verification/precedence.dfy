/** Binding strength of the operators the Pratt parser knows, from weakest to
    strongest. */
module Precedences {
  datatype Precedence =
    | Unknown | Ternary | Or | And | Equality | Comparison | Sum | Product | Unary | Call

  /** The levels in declaration order. */
  const Levels: seq<Precedence> :=
    [Unknown, Ternary, Or, And, Equality, Comparison, Sum, Product, Unary, Call]

  /** The integer each level carries: numbered from 1 in declaration order. */
  function Rank(p: Precedence): (n: nat)
    ensures 1 <= n <= |Levels| && Levels[n - 1] == p
  {
    match p
    case Unknown => 1
    case Ternary => 2
    case Or => 3
    case And => 4
    case Equality => 5
    case Comparison => 6
    case Sum => 7
    case Product => 8
    case Unary => 9
    case Call => 10
  }

  predicate Weaker(a: Precedence, b: Precedence) { Rank(a) < Rank(b) }

  /** Ranks strictly increase along the declaration order, so comparing two
      levels is comparing their positions in it. */
  lemma RankFollowsDeclarationOrder(i: nat, j: nat)
    requires i < j < |Levels|
    ensures Weaker(Levels[i], Levels[j])
  {
  }

  /** Distinct levels have distinct ranks. */
  lemma RankInjective(a: Precedence, b: Precedence)
    requires Rank(a) == Rank(b)
    ensures a == b
  {
  }

  /** The ternary operator is the weakest real operator, directly above the
      parse-anything level; the binary levels then tighten from `or` to call. */
  lemma OperatorLevels()
    ensures Rank(Ternary) == Rank(Unknown) + 1
    ensures forall p: Precedence :: p != Unknown ==> Rank(Ternary) <= Rank(p)
    ensures Weaker(Or, And) && Weaker(And, Equality) && Weaker(Equality, Comparison)
    ensures Weaker(Comparison, Sum) && Weaker(Sum, Product) && Weaker(Product, Unary)
    ensures Weaker(Unary, Call)
  {
  }
}
