/** What menu_finalize (scripts/kconfig/menu.c) takes by elimination: the entries whose dependency has all that the
    prompt in front of it depends on. */
module KconfigCovers {
  import opened Wrappers
  import opened KconfigExpr
  import opened KconfigEq
  import opened KconfigEqExact
  import opened KconfigShared
  import opened KconfigSlots
  import opened KconfigTransform
  import opened KconfigDups
  import opened KconfigPasses
  import opened KconfigJoins
  import opened KconfigContradictions
  import opened KconfigMenu

  /** Nothing is left to do for expr_transform and expr_eliminate_dups, and the symbols are boolean. */
  ghost predicate Settled(e: Expr) {
    Normal(e) && BooleanOperands(e) && Joinless(e) && Consistent(e)
  }

  /** The comparison with 'n' disappears again. */
  lemma SettledComparison(e: Expr)
    requires Settled(e)
    ensures Simplified(NonNo(Some(e))) == e
  {
    hide Joinless, Consistent, Deduplicated, Transform, Compare;
    ComparisonUndone(e, IsNot, false);
    NormalFixed(e);
  }

  /** With settled dependencies a prompt's is covered exactly when all its AND operands are among the entry's. */
  lemma CoversExact(parent: Entry, child: Entry)
    requires child.Dependency().Some? && parent.PromptDependency().Some?
    requires var e, b := child.Dependency().value, parent.PromptDependency().value;
             && Settled(e) && RegularOperands(AndOp, e) && Settled(b) && RegularOperands(AndOp, b)
             && (IsBin(e, AndOp) || (!e.Bin? && b.Bin?))
    ensures Covers(parent, child) <==> AllAmong(AndOp, parent.PromptDependency().value, child.Dependency().value)
  {
    hide Settled, Simplified, AllAmong, RegularOperands, NonNo, EliminateEq;
    var e, b := child.Dependency().value, parent.PromptDependency().value;
    SettledComparison(e);
    SettledComparison(b);
    EliminateEqExact(AndOp, e, b);
  }

  lemma {:induction false} YesKept(op: Op, e: Expr)
    ensures EliminatePairs(op, e, YES).1 == YES
    decreases e
  {
    if IsBin(e, op) {
      YesKept(op, e.l);
      YesKept(op, e.r);
    }
  }

  /** A prompt without a condition, or none at all, is covered by anything. */
  lemma CoversUnconditional(parent: Entry, child: Entry)
    requires parent.prompt == None || parent.prompt == Some(None)
    ensures Covers(parent, child)
  {
    assert Transform(Not(NO)) == YES && Deduplicated(YES) == YES;
    var e := Simplified(NonNo(child.Dependency()));
    hide Simplified, NonNo;
    if e.Bin? { YesKept(e.op, e); }
  }

  /** An entry with a prompt is taken by what the prompt depends on, whatever its own dependency is, and one without by
      its own dependency; that names the symbol of its taker. */
  lemma TakenByOwn(parent: Entry, child: Entry, other: Option<Expr>)
    ensures child.prompt.Some? ==> Takes(parent, child.(dep := other)) == Takes(parent, child)
    ensures var own := if child.prompt.Some? then child.prompt.value else child.dep;
            Takes(parent, child) ==> own.Some? && parent.sym.Some? && parent.sym.value in SymbolsOf(own.value)
  {
    hide Depends, EliminateEq, Simplified;
    if Takes(parent, child) { ContainsExact(child.Dependency().value, parent.sym.value); }
  }

  /** An entry that depends on X && (FOO || BAR) is taken by FOO, the prompt of which depends on X. */
  lemma TakenByPrompt(x: Symbol, foo: Symbol, bar: Symbol, parent: Entry, child: Entry)
    requires x.Type().Boolean? && foo.Type().Boolean? && bar.Type().Boolean? && foo != bar
    requires parent.sym == Some(foo) && !parent.block && parent.PromptDependency() == Some(Sym(x))
    requires child.Dependency() == Some(Bin(AndOp, Sym(x), Bin(OrOp, Sym(foo), Sym(bar))))
    ensures Takes(parent, child) && (x != foo ==> !Depends(child.Dependency().value, foo))
  {
    hide Covers, Settled, RegularOperands, AllAmong;
    var either := Either(AndOp, Sym(foo), Sym(bar));
    assert Contains(either, foo) && !Depends(either, foo);
    SharedSettled(Sym(x), Sym(foo), Sym(bar));
    CoversExact(parent, child);
  }

  lemma SharedSettled(x: Expr, foo: Expr, bar: Expr)
    requires TwoSymbols(foo, bar) && x.Sym? && BooleanOperands(x) && BooleanOperands(foo) && BooleanOperands(bar)
    ensures var e := Bin(AndOp, x, Either(AndOp, foo, bar));
            Settled(e) && RegularOperands(AndOp, e) && AllAmong(AndOp, x, e)
    ensures Settled(x) && RegularOperands(AndOp, x)
  {
    hide Joinless, Consistent, RegularOperands, Forms, HasDominant, FormOf;
    BesideJoinless(x, foo, bar);
    BesideConsistent(x, foo, bar);
    BesideRegular(x, foo, bar);
    SymbolSettled(x);
    assert Normal(Either(AndOp, foo, bar)) && BooleanOperands(Either(AndOp, foo, bar));
  }

  lemma SymbolSettled(x: Expr)
    requires x.Sym?
    ensures Normal(x) && Joinless(x) && Consistent(x)
  {
  }

  lemma BesideRegular(x: Expr, foo: Expr, bar: Expr)
    requires x.Sym? && foo.Sym? && bar.Sym? && !IsYn(x) && !IsYn(foo) && !IsYn(bar)
    ensures RegularOperands(AndOp, x) && !HasDominant(AndOp, x) && Forms(AndOp, x) == multiset{Atom(x)}
    ensures var either := Either(AndOp, foo, bar);
            && RegularOperands(AndOp, Bin(AndOp, x, either))
            && RegularOperands(AndOp, either) && Forms(AndOp, either) == multiset{FormOf(either)}
            && Forms(AndOp, Bin(AndOp, x, either)) == multiset{Atom(x), FormOf(either)}
    ensures FormOf(Either(AndOp, foo, bar)).Chain?
  {
    var either := Either(AndOp, foo, bar);
    ChainCases(AndOp, Bin(AndOp, x, either));
    OperandCases(AndOp, either);
    OperandCases(AndOp, x);
    assert FormOf(x) == Atom(x);
    assert RegularOperands(OrOp, foo) && RegularOperands(OrOp, bar);
    ChainCases(OrOp, either);
    OperandCases(OrOp, foo);
    OperandCases(OrOp, bar);
  }

  lemma SlotsBeside(x: Expr, foo: Expr, bar: Expr, p: Path)
    requires x.Sym?
    ensures var e := Bin(AndOp, x, Either(AndOp, foo, bar));
            && IsTip(AndOp, e, Left(Here)) && IsTip(AndOp, e, Right(Here))
            && (IsTip(AndOp, e, p) ==> p == Left(Here) || p == Right(Here))
            && (IsSlot(AndOp, e, p) ==> p == Here || p == Left(Here) || p == Right(Here))
  {
    var e := Bin(AndOp, x, Either(AndOp, foo, bar));
    assert ShapeOf(AndOp, e) == Fork(Tip, Tip);
    if IsSlot(AndOp, e, p) {
      match p
      case Here =>
      case Left(p') => TipIsLast(AndOp, x, Here, p');
      case Right(p') => TipIsLast(AndOp, e.r, Here, p');
    }
  }

  lemma BesideJoinless(x: Expr, foo: Expr, bar: Expr)
    requires TwoSymbols(foo, bar) && x.Sym?
    ensures Joinless(Bin(AndOp, x, Either(AndOp, foo, bar)))
  {
    hide JoinOperands, ShapeOf;
    var e := Bin(AndOp, x, Either(AndOp, foo, bar));
    forall p, q | IsTip(AndOp, e, p) && IsTip(AndOp, e, q) && p != q
      ensures JoinOperands(AndOp, Get(e, p), Get(e, q)).None?
    {
      SlotsBeside(x, foo, bar, p);
      SlotsBeside(x, foo, bar, q);
      JoinsExactly(AndOp, Get(e, p), Get(e, q));
    }
    TwoJoinless(OrOp, foo, bar);
    assert Joinless(x);
    assert JoinlessOperands(AndOp, e.l) && JoinlessOperands(AndOp, e.r);
  }

  lemma BesideConsistent(x: Expr, foo: Expr, bar: Expr)
    requires TwoSymbols(foo, bar) && x.Sym? && !IsYn(x)
    ensures Consistent(Bin(AndOp, x, Either(AndOp, foo, bar)))
  {
    hide Contradicts, ShapeOf, Forms, FormOf, RegularOperands;
    var either := Either(AndOp, foo, bar);
    var e := Bin(AndOp, x, either);
    BesideRegular(x, foo, bar);
    forall p, q | IsTip(AndOp, e, p) && Get(e, p).Bin? && IsSlot(AndOp, e, q) && p != q
      ensures !Contradicts(AndOp, Get(e, p), Get(e, q))
    {
      SlotsBeside(x, foo, bar, p);
      SlotsBeside(x, foo, bar, q);
      assert Get(e, q) == if q == Here then e else if q == Left(Here) then x else either;
      EitherContradicts(AndOp, foo, bar, Get(e, q));
    }
    TwoConsistent(OrOp, either);
    assert Consistent(x);
    assert ConsistentOperands(AndOp, e.l) && ConsistentOperands(AndOp, e.r);
  }
}
