/** Exactly when expr_eq takes two expressions for equal: AND and OR chains are compared up to the order and the
    grouping of their operands, at every level (scripts/kconfig/expr.c: __expr_eliminate_eq, expr_eliminate_eq,
    expr_eq). */
module KconfigEqExact {
  import opened KconfigExpr
  import opened KconfigEq

  /** An expression without the order and the grouping of its chains. A chain with its dominant literal is decided,
      and the neutral literal counts for nothing. */
  datatype Form =
    | Atom(e: Expr)
    | Negation(form: Form)
    | Decided(op: Op)
    | Chain(op: Op, forms: multiset<Form>)

  function FormOf(e: Expr): Form
    decreases e, 1
  {
    match e
    case Not(a) => Negation(FormOf(a))
    case Bin(op, l, r) =>
      if HasDominant(op, e) then Decided(op) else Chain(op, Forms(op, l) + Forms(op, r))
    case _ => Atom(e)
  }

  /** The operands of a chain, the literals 'y' and 'n' aside. */
  function Forms(op: Op, e: Expr): multiset<Form>
    decreases e, 2
  {
    if IsBin(e, op) then Forms(op, e.l) + Forms(op, e.r)
    else if IsYn(e) then multiset{}
    else multiset{FormOf(e)}
  }

  predicate HasDominant(op: Op, e: Expr)
    decreases e, 0
  {
    if IsBin(e, op) then HasDominant(op, e.l) || HasDominant(op, e.r) else e == Dominant(op)
  }

  /** No operand of a chain is itself an AND or OR with a 'y' or 'n' to fold, at any level. */
  predicate Regular(e: Expr)
    decreases e, 0
  {
    match e
    case Not(a) => Regular(a)
    case Bin(op, l, r) => RegularOperands(op, l) && RegularOperands(op, r)
    case _ => true
  }

  predicate RegularOperands(op: Op, e: Expr)
    decreases e, 1
  {
    if IsBin(e, op) then RegularOperands(op, e.l) && RegularOperands(op, e.r) else Regular(e) && !Foldable(e)
  }

  lemma {:induction false} ChainCases(op: Op, e: Expr)
    requires IsBin(e, op)
    ensures Forms(op, e) == Forms(op, e.l) + Forms(op, e.r)
    ensures HasDominant(op, e) <==> HasDominant(op, e.l) || HasDominant(op, e.r)
    ensures RegularOperands(op, e) <==> RegularOperands(op, e.l) && RegularOperands(op, e.r)
    ensures Regular(e) <==> RegularOperands(op, e)
    ensures FormOf(e) == if HasDominant(op, e) then Decided(op) else Chain(op, Forms(op, e))
  {
  }

  lemma {:induction false} OperandCases(op: Op, e: Expr)
    requires !IsBin(e, op)
    ensures Forms(op, e) == if IsYn(e) then multiset{} else multiset{FormOf(e)}
    ensures HasDominant(op, e) <==> e == Dominant(op)
    ensures RegularOperands(op, e) <==> Regular(e) && !Foldable(e)
  {
  }

  /** Folding a chain leaves its decision, the neutral literal, the only operand or a chain. */
  ghost predicate Folds(op: Op, e: Expr, r: Expr) {
    if HasDominant(op, e) then r == Dominant(op)
    else if Forms(op, e) == multiset{} then r == Neutral(op)
    else !IsYn(r) && (IsBin(r, op) || Forms(op, e) == multiset{FormOf(r)})
  }

  lemma {:induction false} FoldForms(op: Op, e: Expr)
    requires RegularOperands(op, e)
    ensures Folds(op, e, EliminateYn(e))
  {
    hide FormOf, Forms, HasDominant, Regular, RegularOperands, Foldable;
    if IsBin(e, op) {
      ChainCases(op, e);
      FoldForms(op, e.l);
      FoldForms(op, e.r);
      FoldsBoth(op, e, EliminateYn(e.l), EliminateYn(e.r));
    } else {
      OperandCases(op, e);
      EliminateYnComplete(e);
    }
  }

  lemma FoldsBoth(op: Op, e: Expr, l: Expr, r: Expr)
    requires IsBin(e, op) && Folds(op, e.l, l) && Folds(op, e.r, r)
    ensures Folds(op, e, if l == Dominant(op) then l
                         else if l == Neutral(op) then r
                         else if r == Dominant(op) then r
                         else if r == Neutral(op) then l
                         else Bin(op, l, r))
  {
    hide FormOf, Forms, HasDominant, RegularOperands, Dominant, Neutral, IsYn;
    ChainCases(op, e);
    Literals(op, l);
    Literals(op, r);
    Literals(op, Bin(op, l, r));
    NothingAdded(Forms(op, e.l), Forms(op, e.r));
  }

  lemma Literals(op: Op, e: Expr)
    ensures Dominant(op) != Neutral(op) && Dominant(op).Sym? && Neutral(op).Sym?
    ensures IsYn(e) <==> e == Dominant(op) || e == Neutral(op)
  {
  }

  lemma NothingAdded(a: multiset<Form>, b: multiset<Form>)
    ensures a + b == multiset{} <==> a == multiset{} && b == multiset{}
    ensures a == multiset{} ==> a + b == b
    ensures b == multiset{} ==> a + b == a
  {
    if a + b == multiset{} { assert |a + b| == |a| + |b|; }
  }

  /** Taking from each other in two steps. */
  lemma TakeTwice(a: multiset<Form>, b: multiset<Form>, c: multiset<Form>)
    ensures (a - c) + (b - (c - a)) == (a + b) - c
    ensures (c - a) - b == c - (a + b)
  {
  }

  lemma TakeOne(a: Form, b: Form)
    ensures multiset{a} - multiset{b} == if a == b then multiset{} else multiset{a}
    ensures multiset{a} - multiset{} == multiset{a}
    ensures multiset{} - multiset{b} == multiset{}
  {
  }

  /** What elimination leaves of a chain that shares `common` with the other. */
  ghost predicate LeavesForms(op: Op, e: Expr, taken: multiset<Form>, r: Expr) {
    RegularOperands(op, r) && Forms(op, r) == Forms(op, e) - taken && (HasDominant(op, r) <==> HasDominant(op, e))
  }

  /** Elimination takes from each side what it shares with the other. */
  lemma {:induction false} PairsForms(op: Op, e1: Expr, e2: Expr)
    requires RegularOperands(op, e1) && RegularOperands(op, e2)
    ensures LeavesForms(op, e1, Forms(op, e2), EliminatePairs(op, e1, e2).0)
    ensures LeavesForms(op, e2, Forms(op, e1), EliminatePairs(op, e1, e2).1)
    decreases Size(e1) + Size(e2), if IsBin(e1, op) || IsBin(e2, op) then 0 else 3
  {
    hide FormOf, Forms, HasDominant, Regular, RegularOperands, Foldable, Eq;
    if IsBin(e1, op) {
      var (l, e2') := EliminatePairs(op, e1.l, e2);
      var (r, e2'') := EliminatePairs(op, e1.r, e2');
      ChainCases(op, e1);
      ChainCases(op, Bin(op, l, r));
      PairsForms(op, e1.l, e2);
      PairsForms(op, e1.r, e2');
      TakeTwice(Forms(op, e1.l), Forms(op, e1.r), Forms(op, e2));
    } else if IsBin(e2, op) {
      var (e1', l) := EliminatePairs(op, e1, e2.l);
      var (e1'', r) := EliminatePairs(op, e1', e2.r);
      ChainCases(op, e2);
      ChainCases(op, Bin(op, l, r));
      PairsForms(op, e1, e2.l);
      PairsForms(op, e1', e2.r);
      TakeTwice(Forms(op, e2.l), Forms(op, e2.r), Forms(op, e1));
    } else {
      OperandCases(op, e1);
      OperandCases(op, e2);
      EqExact(e1, e2);
      OperandPair(op, e1, e2);
    }
  }

  lemma OperandPair(op: Op, e1: Expr, e2: Expr)
    requires !IsBin(e1, op) && !IsBin(e2, op) && RegularOperands(op, e1) && RegularOperands(op, e2)
    requires Eq(e1, e2) <==> FormOf(e1) == FormOf(e2)
    ensures LeavesForms(op, e1, Forms(op, e2), EliminatePairs(op, e1, e2).0)
    ensures LeavesForms(op, e2, Forms(op, e1), EliminatePairs(op, e1, e2).1)
  {
    hide FormOf, Forms, HasDominant, Regular, RegularOperands, Foldable, Eq, Dominant, Neutral, IsYn, EliminatePairs;
    PairCases(op, e1, e2);
    LiteralForms(e1, e2);
    if Eq(e1, e2) && !(e1 == e2 && IsYn(e1)) {
      EqualPair(op, e1, e2);
      EqualPair(op, e2, e1);
    } else {
      OtherPair(op, e1, e2);
      OtherPair(op, e2, e1);
    }
  }

  lemma EqualPair(op: Op, e1: Expr, e2: Expr)
    requires !IsBin(e1, op) && !IsBin(e2, op) && FormOf(e1) == FormOf(e2) && !IsYn(e1) && !IsYn(e2)
    ensures LeavesForms(op, e1, Forms(op, e2), Neutral(op))
  {
    hide FormOf, Forms, HasDominant, RegularOperands, Dominant, Neutral, IsYn;
    OperandCases(op, e1);
    OperandCases(op, e2);
    Literals(op, e1);
    NeutralCases(op);
    TakeOne(FormOf(e1), FormOf(e2));
  }

  lemma OtherPair(op: Op, e1: Expr, e2: Expr)
    requires !IsBin(e1, op) && !IsBin(e2, op) && RegularOperands(op, e1)
    requires FormOf(e1) != FormOf(e2) || IsYn(e1)
    ensures LeavesForms(op, e1, Forms(op, e2), e1)
  {
    hide FormOf, HasDominant, RegularOperands;
    TakeOne(FormOf(e1), FormOf(e2));
  }

  lemma PairCases(op: Op, e1: Expr, e2: Expr)
    requires !IsBin(e1, op) && !IsBin(e2, op)
    ensures EliminatePairs(op, e1, e2)
         == if Eq(e1, e2) && !(e1 == e2 && IsYn(e1)) then (Neutral(op), Neutral(op)) else (e1, e2)
  {
    hide Eq;
  }

  lemma NeutralCases(op: Op)
    ensures RegularOperands(op, Neutral(op)) && Forms(op, Neutral(op)) == multiset{} && !HasDominant(op, Neutral(op))
  {
  }

  /** A literal is like nothing but itself. */
  lemma LiteralForms(e1: Expr, e2: Expr)
    ensures FormOf(e1) == FormOf(e2) && (IsYn(e1) || IsYn(e2)) ==> e1 == e2
  {
  }

  /** expr_eq on regular expressions: equal exactly up to order and grouping. */
  lemma {:induction false} EqExact(e1: Expr, e2: Expr)
    requires Regular(e1) && Regular(e2)
    ensures Eq(e1, e2) <==> FormOf(e1) == FormOf(e2)
    decreases Size(e1) + Size(e2), 2
  {
    if e1.Not? && e2.Not? {
      EqExact(e1.arg, e2.arg);
    } else if e1.Bin? && e2.Bin? && e1.op == e2.op {
      ChainEqExact(e1.op, e1, e2);
    }
  }

  lemma {:induction false} ChainEqExact(op: Op, e1: Expr, e2: Expr)
    requires IsBin(e1, op) && IsBin(e2, op) && Regular(e1) && Regular(e2)
    ensures Eq(e1, e2) <==> FormOf(e1) == FormOf(e2)
    decreases Size(e1) + Size(e2), 1
  {
    hide FormOf, Forms, HasDominant, Regular, RegularOperands, EliminatePairs, EliminateYn;
    var (r1, r2) := EliminatePairs(op, e1, e2);
    ChainCases(op, e1);
    ChainCases(op, e2);
    PairsForms(op, e1, e2);
    FoldForms(op, r1);
    FoldForms(op, r2);
    OneLeft(Forms(op, e1), Forms(op, e2));
    assert Eq(e1, e2) <==> EliminateYn(r1).Sym? && EliminateYn(r1) == EliminateYn(r2);
  }

  lemma OneLeft(a: multiset<Form>, b: multiset<Form>)
    ensures a == b <==> a - b == multiset{} && b - a == multiset{}
    ensures forall f :: a - b == multiset{f} ==> b - a != multiset{f}
  {
  }

  // ----- operands in another order -----

  function FormsIn(s: seq<Expr>): multiset<Form> {
    if s == [] then multiset{} else FormsIn(s[..|s| - 1]) + Share(s[|s| - 1])
  }

  function Share(e: Expr): multiset<Form> { if IsYn(e) then multiset{} else multiset{FormOf(e)} }

  lemma {:induction false} FormsInAppend(a: seq<Expr>, b: seq<Expr>)
    ensures FormsIn(a + b) == FormsIn(a) + FormsIn(b)
  {
    hide Share;
    if b == [] {
      assert a + b == a;
    } else {
      assert (a + b)[..|a + b| - 1] == a + b[..|b| - 1];
      FormsInAppend(a, b[..|b| - 1]);
    }
  }

  lemma {:induction false} OperandsSummary(op: Op, e: Expr)
    ensures Forms(op, e) == FormsIn(Operands(op, e))
    ensures HasDominant(op, e) <==> Dominant(op) in Operands(op, e)
    ensures RegularOperands(op, e) <==> forall x :: x in Operands(op, e) ==> Regular(x) && !Foldable(x)
  {
    hide FormOf, Regular, Foldable;
    if IsBin(e, op) {
      OperandsSummary(op, e.l);
      OperandsSummary(op, e.r);
      FormsInAppend(Operands(op, e.l), Operands(op, e.r));
    } else {
      OperandCases(op, e);
      assert Operands(op, e) == [e];
      assert [e][..0] == [] && FormsIn([]) == multiset{};
    }
  }

  lemma {:induction false} FormsInOrder(s: seq<Expr>, t: seq<Expr>)
    requires multiset(s) == multiset(t)
    ensures FormsIn(s) == FormsIn(t)
    decreases |s|
  {
    hide Share;
    if s == [] {
      assert |multiset(t)| == 0;
    } else {
      var n := |s| - 1;
      var u := WithoutOne(s, t);
      FormsInOrder(s[..n], u);
    }
  }

  /** The last of `s` taken out of `t`. */
  lemma WithoutOne(s: seq<Expr>, t: seq<Expr>) returns (u: seq<Expr>)
    requires s != [] && multiset(s) == multiset(t)
    ensures multiset(u) == multiset(s[..|s| - 1])
    ensures FormsIn(t) == FormsIn(u) + Share(s[|s| - 1])
  {
    hide Share;
    var n := |s| - 1;
    assert s[n] in multiset(t);
    var i :| 0 <= i < |t| && t[i] == s[n];
    u := t[..i] + t[i + 1..];
    OneOut(t[..i], s[n], t[i + 1..]);
    OneOut(s[..n], s[n], []);
    assert t == t[..i] + [s[n]] + t[i + 1..];
    assert s == s[..n] + [s[n]] + [] && s[..n] + [] == s[..n];
    SameWithout(multiset(u), multiset(s[..n]), s[n]);
    InsertOne(t[..i], s[n], t[i + 1..]);
  }

  lemma OneOut(head: seq<Expr>, e: Expr, tail: seq<Expr>)
    ensures multiset(head + [e] + tail) == multiset(head + tail) + multiset{e}
  {
  }

  lemma SameWithout(a: multiset<Expr>, b: multiset<Expr>, e: Expr)
    requires a + multiset{e} == b + multiset{e}
    ensures a == b
  {
    assert a == (a + multiset{e}) - multiset{e};
    assert b == (b + multiset{e}) - multiset{e};
  }

  lemma InsertOne(head: seq<Expr>, e: Expr, tail: seq<Expr>)
    ensures FormsIn(head + [e] + tail) == FormsIn(head + tail) + Share(e)
  {
    hide Share;
    FormsInAppend(head, tail);
    FormsInAppend(head + [e], tail);
    assert (head + [e])[..|head|] == head;
  }

  /** Chains with the same operands are equal for expr_eq, whatever the order and the grouping. */
  lemma EqUpToOrder(op: Op, e1: Expr, e2: Expr)
    requires multiset(Operands(op, e1)) == multiset(Operands(op, e2))
    requires forall x :: x in Operands(op, e1) ==> Regular(x) && !Foldable(x)
    ensures Eq(e1, e2)
  {
    hide FormOf, Forms, HasDominant, Regular, RegularOperands, Foldable, Operands, Eq, FormsIn;
    assert forall x :: x in Operands(op, e2) ==> x in multiset(Operands(op, e1));
    FormsInOrder(Operands(op, e1), Operands(op, e2));
    OperandsSummary(op, e1);
    OperandsSummary(op, e2);
    assert Dominant(op) in Operands(op, e1) <==> Dominant(op) in multiset(Operands(op, e2));
    SameForms(op, e1, e2);
    EqExact(e1, e2);
  }

  lemma SameForms(op: Op, e1: Expr, e2: Expr)
    requires multiset(Operands(op, e1)) == multiset(Operands(op, e2))
    requires Forms(op, e1) == Forms(op, e2) && (HasDominant(op, e1) <==> HasDominant(op, e2))
    requires RegularOperands(op, e1) && RegularOperands(op, e2)
    ensures FormOf(e1) == FormOf(e2) && Regular(e1) && Regular(e2)
  {
    assert |Operands(op, e1)| == |multiset(Operands(op, e1))| == |Operands(op, e2)|;
    if IsBin(e1, op) {
      ChainCases(op, e1);
      assert IsBin(e2, op);
      ChainCases(op, e2);
    } else {
      assert Operands(op, e1)[0] in multiset(Operands(op, e2));
    }
  }

  predicate PlainSymbols(s: Expr, t: Expr) { s.Sym? && t.Sym? && s != t && !IsYn(s) && !IsYn(t) }

  /** A symbol with an 'n' to fold. */
  function Folding(s: Expr): Expr { Bin(OrOp, s, NO) }

  /** One operand against a chain of two. */
  lemma AgainstTwo(op: Op, e: Expr, l: Expr, r: Expr, l': Expr, r': Expr, e': Expr, e'': Expr)
    requires !IsBin(e, op) && !IsBin(l, op) && !IsBin(r, op) && !IsBin(e', op)
    requires EliminatePairs(op, e, l) == (e', l') && EliminatePairs(op, e', r) == (e'', r')
    ensures EliminatePairs(op, e, Bin(op, l, r)) == (e'', Bin(op, l', r'))
  {
  }

  lemma Unlike(op: Op, e1: Expr, e2: Expr)
    requires !IsBin(e1, op) && !IsBin(e2, op) && !Eq(e1, e2)
    ensures EliminatePairs(op, e1, e2) == (e1, e2)
  {
  }

  lemma EqChains(op: Op, e1: Expr, e2: Expr, r1: Expr, r2: Expr)
    requires IsBin(e1, op) && IsBin(e2, op) && EliminatePairs(op, e1, e2) == (r1, r2)
    ensures Eq(e1, e2) <==> EliminateYn(r1).Sym? && EliminateYn(r1) == EliminateYn(r2)
  {
    hide EliminateYn, EliminatePairs;
  }

  lemma TwoAgainst(op: Op, l: Expr, r: Expr, e: Expr, l': Expr, r': Expr, e': Expr, e'': Expr)
    requires EliminatePairs(op, l, e) == (l', e') && EliminatePairs(op, r, e') == (r', e'')
    ensures EliminatePairs(op, Bin(op, l, r), e) == (Bin(op, l', r'), e'')
  {
  }

  lemma FoldOne(s: Expr, t: Expr)
    requires PlainSymbols(s, t)
    ensures EliminateYn(s) == s && EliminateYn(Folding(s)) == s
    ensures EliminateYn(Bin(AndOp, s, YES)) == EliminateYn(Bin(AndOp, Folding(s), YES)) == s
    ensures EliminateYn(Bin(AndOp, YES, s)) == EliminateYn(Bin(AndOp, YES, Folding(s))) == s
    ensures EliminateYn(Bin(AndOp, Folding(s), t)) == EliminateYn(Bin(AndOp, s, Folding(t))) == Bin(AndOp, s, t)
  {
    FoldOut(s);
    FoldOut(t);
  }

  lemma FoldOut(s: Expr)
    requires s.Sym? && !IsYn(s)
    ensures EliminateYn(s) == s && EliminateYn(Folding(s)) == s
  {
  }

  lemma SymbolsUnlike(s: Expr, t: Expr)
    requires PlainSymbols(s, t)
    ensures !Eq(s, t) && !Eq(t, s)
    ensures !Eq(Folding(s), s) && !Eq(Folding(s), t) && !Eq(s, Folding(t)) && !Eq(t, Folding(t))
    ensures forall op :: EliminatePairs(op, s, s) == (Neutral(op), Neutral(op))
    ensures !Eq(s, YES) && !Eq(YES, s) && !Eq(s, NO) && !Eq(NO, s) && !Eq(t, NO) && !Eq(t, YES)
  {
  }

  lemma YesUnlike(e: Expr)
    requires e.Bin?
    ensures !Eq(YES, e)
  {
  }

  lemma DifferentFoldings(s: Expr, t: Expr)
    requires PlainSymbols(s, t)
    ensures !Eq(Folding(s), Folding(t))
  {
    hide Eq, EliminatePairs, EliminateYn;
    SymbolsUnlike(s, t);
    SymbolsUnlike(t, s);
    Unlike(OrOp, s, t);
    Unlike(OrOp, s, NO);
    Unlike(OrOp, NO, t);
    PairCases(OrOp, NO, NO);
    AgainstTwo(OrOp, s, t, NO, t, NO, s, s);
    AgainstTwo(OrOp, NO, t, NO, t, NO, NO, NO);
    TwoAgainst(OrOp, s, NO, Folding(t), s, NO, Folding(t), Folding(t));
    EqChains(OrOp, Folding(s), Folding(t), Folding(s), Folding(t));
    FoldOne(s, t);
    FoldOne(t, s);
  }

  /** With a literal to fold inside operands expr_eq is not transitive: it folds only after its search for pairs. */
  lemma FoldsLate(s: Expr, t: Expr)
    requires PlainSymbols(s, t)
    ensures Eq(Bin(AndOp, Folding(s), t), Bin(AndOp, s, t)) && Eq(Bin(AndOp, s, t), Bin(AndOp, s, Folding(t)))
    ensures !Eq(Bin(AndOp, Folding(s), t), Bin(AndOp, s, Folding(t)))
  {
    FoldedFirst(s, t);
    FoldedLast(s, t);
    FoldedBoth(s, t);
  }

  lemma FoldedFirst(s: Expr, t: Expr)
    requires PlainSymbols(s, t)
    ensures Eq(Bin(AndOp, Folding(s), t), Bin(AndOp, s, t))
  {
    hide Eq, EliminatePairs, EliminateYn;
    var a, b, fs := Bin(AndOp, Folding(s), t), Bin(AndOp, s, t), Folding(s);
    SymbolsUnlike(s, t);
    SymbolsUnlike(t, s);
    Unlike(AndOp, fs, s);
    Unlike(AndOp, fs, t);
    Unlike(AndOp, t, s);
    AgainstTwo(AndOp, fs, s, t, s, t, fs, fs);
    AgainstTwo(AndOp, t, s, t, s, YES, t, YES);
    TwoAgainst(AndOp, fs, t, b, fs, YES, b, Bin(AndOp, s, YES));
    EqChains(AndOp, a, b, Bin(AndOp, fs, YES), Bin(AndOp, s, YES));
    FoldOne(s, t);
  }

  lemma FoldedLast(s: Expr, t: Expr)
    requires PlainSymbols(s, t)
    ensures Eq(Bin(AndOp, s, t), Bin(AndOp, s, Folding(t)))
  {
    hide Eq, EliminatePairs, EliminateYn;
    var b, c, ft := Bin(AndOp, s, t), Bin(AndOp, s, Folding(t)), Folding(t);
    SymbolsUnlike(s, t);
    SymbolsUnlike(t, s);
    assert !Eq(YES, ft) by { YesUnlike(ft); }
    Unlike(AndOp, YES, ft);
    Unlike(AndOp, t, YES);
    Unlike(AndOp, t, ft);
    AgainstTwo(AndOp, s, s, ft, YES, ft, YES, YES);
    AgainstTwo(AndOp, t, YES, ft, YES, ft, t, t);
    TwoAgainst(AndOp, s, t, c, YES, t, Bin(AndOp, YES, ft), Bin(AndOp, YES, ft));
    EqChains(AndOp, b, c, Bin(AndOp, YES, t), Bin(AndOp, YES, ft));
    FoldOne(t, s);
  }

  lemma FoldedBoth(s: Expr, t: Expr)
    requires PlainSymbols(s, t)
    ensures var a, c := Bin(AndOp, Folding(s), t), Bin(AndOp, s, Folding(t)); !Eq(a, c) && !Eq(c, a)
  {
    hide Eq, EliminatePairs, EliminateYn;
    var a, c, fs, ft := Bin(AndOp, Folding(s), t), Bin(AndOp, s, Folding(t)), Folding(s), Folding(t);
    SymbolsUnlike(s, t);
    SymbolsUnlike(t, s);
    DifferentFoldings(s, t);
    DifferentFoldings(t, s);
    NoneAlike(fs, t, s, ft);
    NoneAlike(s, ft, fs, t);
    EqChains(AndOp, a, c, a, c);
    EqChains(AndOp, c, a, c, a);
    FoldOne(s, t);
    FoldOne(t, s);
  }

  lemma NoneAlike(a: Expr, b: Expr, c: Expr, d: Expr)
    requires !IsBin(a, AndOp) && !IsBin(b, AndOp) && !IsBin(c, AndOp) && !IsBin(d, AndOp)
    requires !Eq(a, c) && !Eq(a, d) && !Eq(b, c) && !Eq(b, d)
    ensures EliminatePairs(AndOp, Bin(AndOp, a, b), Bin(AndOp, c, d)) == (Bin(AndOp, a, b), Bin(AndOp, c, d))
  {
    hide Eq;
    AgainstTwo(AndOp, a, c, d, c, d, a, a);
    AgainstTwo(AndOp, b, c, d, c, d, b, b);
    TwoAgainst(AndOp, a, b, Bin(AndOp, c, d), a, b, Bin(AndOp, c, d), Bin(AndOp, c, d));
  }

  /** So with such operands the order can matter: the first of one chain takes the second's partner in the other, and
      in the end the third finds none. */
  lemma OrderMatters(s: Expr, t: Expr)
    requires PlainSymbols(s, t)
    ensures var a, b, c := Bin(AndOp, Folding(s), t), Bin(AndOp, s, t), Bin(AndOp, s, Folding(t));
            var e1, e2 := Bin(OrOp, a, Bin(OrOp, b, c)), Bin(OrOp, b, Bin(OrOp, c, a));
            multiset(Operands(OrOp, e1)) == multiset(Operands(OrOp, e2)) && !Eq(e1, e2)
  {
    hide Eq, EliminatePairs, EliminateYn, Operands;
    var a, b, c := Bin(AndOp, Folding(s), t), Bin(AndOp, s, t), Bin(AndOp, s, Folding(t));
    var e1, e2 := Bin(OrOp, a, Bin(OrOp, b, c)), Bin(OrOp, b, Bin(OrOp, c, a));
    ThreeOperands(a, b, c);
    ThreeOperands(b, c, a);
    assert multiset{a, b, c} == multiset{b, c, a};
    FoldsLate(s, t);
    FoldedBoth(s, t);
    EliminatedInTurn(a, b, c);
    EqChains(OrOp, e1, e2, Bin(OrOp, NO, Bin(OrOp, NO, c)), Bin(OrOp, NO, Bin(OrOp, NO, a)));
    FoldOne(s, t);
    BehindNos(c);
  }

  lemma ThreeOperands(a: Expr, b: Expr, c: Expr)
    requires !IsBin(a, OrOp) && !IsBin(b, OrOp) && !IsBin(c, OrOp)
    ensures Operands(OrOp, Bin(OrOp, a, Bin(OrOp, b, c))) == [a, b, c]
  {
    assert Operands(OrOp, Bin(OrOp, b, c)) == [b, c];
  }

  lemma BehindNos(e: Expr)
    ensures EliminateYn(Bin(OrOp, NO, Bin(OrOp, NO, e))) == EliminateYn(e)
  {
    assert EliminateYn(Bin(OrOp, NO, e)) == EliminateYn(e);
  }

  lemma Alike(op: Op, e1: Expr, e2: Expr)
    requires IsBin(e1, Dual(op)) && IsBin(e2, Dual(op)) && Eq(e1, e2)
    ensures EliminatePairs(op, e1, e2) == (Neutral(op), Neutral(op))
  {
  }

  lemma NothingLike(op: Op, e: Expr)
    requires IsBin(e, Dual(op))
    ensures !Eq(NO, e) && !Eq(e, NO) && EliminatePairs(op, NO, e) == (NO, e) && EliminatePairs(op, e, NO) == (e, NO)
    ensures EliminatePairs(op, NO, NO) == (NO, NO)
  {
  }

  /** One operand against a chain of three. */
  lemma AgainstThree(e: Expr, a: Expr, b: Expr, c: Expr, a': Expr, b': Expr, c': Expr, e1: Expr, e2: Expr, e3: Expr)
    requires !IsBin(e, OrOp) && !IsBin(e1, OrOp) && !IsBin(e2, OrOp)
    requires EliminatePairs(OrOp, e, a) == (e1, a') && EliminatePairs(OrOp, e1, b) == (e2, b')
    requires EliminatePairs(OrOp, e2, c) == (e3, c')
    ensures EliminatePairs(OrOp, e, Bin(OrOp, a, Bin(OrOp, b, c))) == (e3, Bin(OrOp, a', Bin(OrOp, b', c')))
  {
    assert EliminatePairs(OrOp, e1, Bin(OrOp, b, c)) == (e3, Bin(OrOp, b', c'));
  }

  lemma EliminatedInTurn(a: Expr, b: Expr, c: Expr)
    requires IsBin(a, AndOp) && IsBin(b, AndOp) && IsBin(c, AndOp)
    requires Eq(a, b) && Eq(b, c) && !Eq(c, a)
    ensures EliminatePairs(OrOp, Bin(OrOp, a, Bin(OrOp, b, c)), Bin(OrOp, b, Bin(OrOp, c, a)))
         == (Bin(OrOp, NO, Bin(OrOp, NO, c)), Bin(OrOp, NO, Bin(OrOp, NO, a)))
  {
    hide Eq, EliminatePairs;
    NothingLike(OrOp, a);
    NothingLike(OrOp, b);
    NothingLike(OrOp, c);
    Alike(OrOp, a, b);
    Alike(OrOp, b, c);
    Unlike(OrOp, c, a);
    var e2, e3, e4 := Bin(OrOp, b, Bin(OrOp, c, a)), Bin(OrOp, NO, Bin(OrOp, c, a)), Bin(OrOp, NO, Bin(OrOp, NO, a));
    AgainstThree(a, b, c, a, NO, c, a, NO, NO, NO);
    AgainstThree(b, NO, c, a, NO, NO, a, b, NO, NO);
    AgainstThree(c, NO, NO, a, NO, NO, a, c, c, c);
    TwoAgainst(OrOp, b, c, e3, NO, c, e4, e4);
    TwoAgainst(OrOp, a, Bin(OrOp, b, c), e2, NO, Bin(OrOp, NO, c), e3, e4);
  }
}
