/** What two expressions share, and what is left of them when it is taken out (scripts/kconfig/expr.c:
    expr_eliminate_eq, expr_extract_eq): the operands that both have up to order and grouping, each as often as in the
    side that has fewer. */
module KconfigShared {
  import opened Wrappers
  import opened KconfigExpr
  import opened KconfigEq
  import opened KconfigEqExact

  ghost predicate Extracted(op: Op, acc: Option<Expr>, e1: Expr, e2: Expr, x: Extraction) {
    && LeavesForms(op, e1, Forms(op, e2), x.e1)
    && LeavesForms(op, e2, Forms(op, e1), x.e2)
    && (x.common.None? ==> acc.None? && x.e1 == e1 && x.e2 == e2)
  }

  /** Extraction takes from each side what it shares with the other. */
  lemma {:induction false} ExtractForms(op: Op, acc: Option<Expr>, e1: Expr, e2: Expr)
    requires RegularOperands(op, e1) && RegularOperands(op, e2) && !(HasDominant(op, e1) && HasDominant(op, e2))
    ensures Extracted(op, acc, e1, e2, ExtractEq(op, acc, e1, e2))
    decreases Size(e1) + Size(e2)
  {
    hide FormOf, Forms, HasDominant, Regular, RegularOperands, Foldable, Eq;
    if IsBin(e1, op) {
      var x := ExtractEq(op, acc, e1.l, e2);
      var y := ExtractEq(op, x.common, e1.r, x.e2);
      ChainCases(op, e1);
      ChainCases(op, Bin(op, x.e1, y.e1));
      ExtractForms(op, acc, e1.l, e2);
      ExtractForms(op, x.common, e1.r, x.e2);
      TakeTwice(Forms(op, e1.l), Forms(op, e1.r), Forms(op, e2));
    } else if IsBin(e2, op) {
      var x := ExtractEq(op, acc, e1, e2.l);
      var y := ExtractEq(op, x.common, x.e1, e2.r);
      ChainCases(op, e2);
      ChainCases(op, Bin(op, x.e2, y.e2));
      ExtractForms(op, acc, e1, e2.l);
      ExtractForms(op, x.common, x.e1, e2.r);
      TakeTwice(Forms(op, e2.l), Forms(op, e2.r), Forms(op, e1));
    } else {
      ExtractedOperands(op, acc, e1, e2);
    }
  }

  lemma ExtractedOperands(op: Op, acc: Option<Expr>, e1: Expr, e2: Expr)
    requires !IsBin(e1, op) && !IsBin(e2, op) && RegularOperands(op, e1) && RegularOperands(op, e2)
    requires !(HasDominant(op, e1) && HasDominant(op, e2))
    ensures Extracted(op, acc, e1, e2, ExtractEq(op, acc, e1, e2))
  {
    hide FormOf, Forms, Regular, RegularOperands, Foldable, Eq;
    OperandCases(op, e1);
    OperandCases(op, e2);
    EqExact(e1, e2);
    LiteralForms(e1, e2);
    ExtractedPair(op, e1, e2);
    ExtractedPair(op, e2, e1);
  }

  lemma ExtractedPair(op: Op, e1: Expr, e2: Expr)
    requires !IsBin(e1, op) && !IsBin(e2, op) && RegularOperands(op, e1)
    ensures FormOf(e1) == FormOf(e2) && e1 != Dominant(op) ==> LeavesForms(op, e1, Forms(op, e2), Neutral(op))
    ensures FormOf(e1) != FormOf(e2) ==> LeavesForms(op, e1, Forms(op, e2), e1)
  {
    hide FormOf, Forms, HasDominant, Regular, RegularOperands, Foldable, Eq, Dominant, Neutral, IsYn;
    LiteralForms(e1, e2);
    if FormOf(e1) != FormOf(e2) {
      OtherPair(op, e1, e2);
    } else if IsYn(e1) {
      Literals(op, e1);
      OtherPair(op, e1, e2);
    } else if !IsYn(e2) {
      EqualPair(op, e1, e2);
    }
  }

  /** Whether the operands of one chain are all among those of another. */
  ghost predicate AllAmong(op: Op, e1: Expr, e2: Expr) {
    !HasDominant(op, e1) && Forms(op, e1) <= Forms(op, e2)
  }

  lemma TakenAll(a: multiset<Form>, b: multiset<Form>)
    ensures a - b == multiset{} <==> a <= b
  {
    if a - b == multiset{} {
      forall f ensures a[f] <= b[f] { assert (a - b)[f] == 0; }
    }
  }

  lemma FoldedAway(op: Op, e: Expr, taken: multiset<Form>, r: Expr)
    requires LeavesForms(op, e, taken, r)
    ensures EliminateYn(r) == Neutral(op) <==> !HasDominant(op, e) && Forms(op, e) <= taken
  {
    hide FormOf, Forms, HasDominant, Regular, RegularOperands, Foldable, Dominant, Neutral, IsYn, EliminateYn;
    FoldForms(op, r);
    FoldedNeutral(op, r, EliminateYn(r));
    TakenAll(Forms(op, e), taken);
    assert Forms(op, r) == multiset{} <==> Forms(op, e) <= taken;
  }

  lemma FoldedNeutral(op: Op, e: Expr, r: Expr)
    requires Folds(op, e, r)
    ensures r == Neutral(op) <==> !HasDominant(op, e) && Forms(op, e) == multiset{}
  {
    hide FormOf, Forms, HasDominant, Dominant, Neutral, IsYn;
    Literals(op, r);
  }

  /** Taking the common part out of two chains leaves nothing of the first exactly when all its operands are among
      those of the second. */
  lemma ExtractExact(op: Op, e1: Expr, e2: Expr)
    requires RegularOperands(op, e1) && RegularOperands(op, e2) && !(HasDominant(op, e1) && HasDominant(op, e2))
    requires Forms(op, e1) != multiset{}
    ensures ExtractCommon(op, e1, e2).e1 == Neutral(op) <==> AllAmong(op, e1, e2)
  {
    hide FormOf, Forms, HasDominant, Regular, RegularOperands, Foldable, Dominant, Neutral, ExtractEq, EliminateYn;
    var x := ExtractEq(op, None, e1, e2);
    ExtractForms(op, None, e1, e2);
    FoldedAway(op, e1, Forms(op, e2), x.e1);
    NeutralCases(op);
    if x.common.None? && Forms(op, e1) <= Forms(op, e2) {
      TakenAll(Forms(op, e1), Forms(op, e2));
    }
  }

  /** When they share nothing, both stay as they are, with the literals in them. */
  lemma NothingExtracted(op: Op, e1: Expr, e2: Expr)
    requires RegularOperands(op, e1) && RegularOperands(op, e2) && !(HasDominant(op, e1) && HasDominant(op, e2))
    requires ExtractCommon(op, e1, e2).common.None?
    ensures ExtractCommon(op, e1, e2) == Extraction(None, e1, e2)
  {
    hide RegularOperands, HasDominant, LeavesForms;
    ExtractForms(op, None, e1, e2);
  }

  /** expr_eliminate_eq reduces the second of two expressions to the neutral literal exactly when all its operands are
      among those of the first. It does not when the first is a chain of the other operator, and when neither is a
      chain it does nothing. */
  lemma EliminateEqExact(op: Op, e1: Expr, e2: Expr)
    requires RegularOperands(op, e1) && RegularOperands(op, e2)
    requires IsBin(e1, op) || (!e1.Bin? && e2.Bin?)
    ensures EliminateEq(e1, e2).1 == Neutral(op) <==> AllAmong(op, e2, e1)
  {
    hide FormOf, Forms, HasDominant, Regular, RegularOperands, Foldable, Dominant, Neutral, EliminateYn, EliminatePairs;
    var (a1, a2) := EliminatePairs(op, e1, e2);
    PairsForms(op, e1, e2);
    FoldedAway(op, e2, Forms(op, e1), a2);
    if IsBin(e1, op) && a2.Bin? && a2.op != op {
      LeftWhole(op, e1, e2);
      NotFoldedAway(op, e2, a1);
    } else if !e1.Bin? && e2.op != op {
      UnlikeChain(op, e1, e2);
      NotFoldedAway(op, e2, e1);
    }
  }

  /** A chain of the other operator that was not matched is left as it is. */
  lemma LeftWhole(op: Op, e1: Expr, e2: Expr)
    requires RegularOperands(op, e1) && RegularOperands(op, e2)
    requires var r := EliminatePairs(op, e1, e2).1; r.Bin? && r.op != op
    ensures EliminatePairs(op, e1, e2).1 == e2 && !AllAmong(op, e2, e1)
  {
    hide FormOf, HasDominant, Regular, RegularOperands, Foldable, EliminatePairs;
    var r := EliminatePairs(op, e1, e2).1;
    PairsForms(op, e1, e2);
    EliminatePairsOperands(op, e1, e2);
    assert r in Operands(op, r);
    assert !IsBin(e2, op);
    assert e2 == r;
    TakenAll(Forms(op, e2), Forms(op, e1));
  }

  lemma UnlikeChain(op: Op, e1: Expr, e2: Expr)
    requires !e1.Bin? && IsBin(e2, Dual(op))
    ensures !AllAmong(op, e2, e1)
  {
    assert FormOf(e1) != FormOf(e2);
    assert FormOf(e2) in Forms(op, e2);
  }

  /** Under the other operator a chain is never reduced to the neutral literal of this one. */
  lemma NotFoldedAway(op: Op, e: Expr, other: Expr)
    requires IsBin(e, Dual(op)) && RegularOperands(op, e)
    ensures EliminateYn(EliminatePairs(Dual(op), other, e).1) != Neutral(op)
  {
    hide FormOf, Forms, Foldable, EliminateYn, EliminatePairs;
    var r := EliminatePairs(Dual(op), other, e).1;
    EliminatePairsOperands(Dual(op), other, e);
    OperandsSummary(Dual(op), e);
    OperandsSummary(Dual(op), r);
    NeutralCases(Dual(op));
    Undecided(Dual(op), e);
    FoldForms(Dual(op), r);
  }

  lemma {:induction false} Undecided(op: Op, e: Expr)
    requires IsBin(e, op) && !Foldable(e)
    ensures !HasDominant(op, e)
  {
    if IsBin(e.l, op) { Undecided(op, e.l); }
    if IsBin(e.r, op) { Undecided(op, e.r); }
  }
}
