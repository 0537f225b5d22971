/** Contradictions between an operand and the rest of its chain (scripts/kconfig/expr.c: expr_eliminate_dups2): when
    one is seen, and what becomes of the chain. */
module KconfigContradictions {
  import opened Wrappers
  import opened KconfigExpr
  import opened KconfigEq
  import opened KconfigEqExact
  import opened KconfigShared
  import opened KconfigSlots
  import opened KconfigTransform
  import opened KconfigDups
  import opened KconfigPasses
  import opened KconfigJoins

  /** An operand contradicts a part of its chain exactly when all that its negation consists of is found there, in any
      order and grouping. */
  lemma ContradictsExact(op: Op, e1: Expr, e2: Expr)
    requires var no := Pushed(e1, true);
             && RegularOperands(op, no) && RegularOperands(op, e2)
             && !(HasDominant(op, no) && HasDominant(op, e2)) && Forms(op, no) != multiset{}
    ensures Contradicts(op, e1, e2) <==> AllAmong(op, Pushed(e1, true), e2)
  {
    hide Transform, ExtractCommon, AllAmong, RegularOperands, HasDominant, Forms;
    TransformPushes(Not(e1));
    ExtractExact(op, Pushed(e1, true), e2);
  }

  // ----- a contradiction decides the chain -----

  lemma {:induction false} DominantPut(op: Op, e: Expr, p: Path)
    requires IsTip(op, e, p)
    ensures HasDominant(op, Put(e, p, Dominant(op)))
  {
    match p
    case Here =>
    case Left(p') => DominantPut(op, e.l, p');
    case Right(p') => DominantPut(op, e.r, p');
  }

  lemma {:induction false} ConsistentPut(op: Op, e: Expr, p: Path)
    requires IsTip(op, e, p) && ConsistentOperands(op, e)
    ensures ConsistentOperands(op, Put(e, p, Dominant(op)))
  {
    match p
    case Here =>
    case Left(p') => ConsistentPut(op, e.l, p');
    case Right(p') => ConsistentPut(op, e.r, p');
  }

  lemma {:induction false} DominantFolds(op: Op, e: Expr)
    requires HasDominant(op, e)
    ensures EliminateYn(e) == Dominant(op)
  {
    if IsBin(e, op) {
      if HasDominant(op, e.l) { DominantFolds(op, e.l); } else { DominantFolds(op, e.r); }
    }
  }

  /** A pass that resolves anything leaves a chain with its dominant literal. */
  ghost predicate Decides(op: Op, e: Expr, r: Pass) {
    ConsistentOperands(op, r.e) && (HasDominant(op, e) || r.count > 0 ==> HasDominant(op, r.e))
  }

  lemma {:induction false} ResolvePassDecides(op: Op, e: Expr, p: Path, q: Path)
    requires InChain(op, e, p, q) && ConsistentOperands(op, e)
    ensures Decides(op, e, ResolvePass(op, e, p, q))
    decreases Leaves(e), 1 + 2 * Pairs(ShapeOf(op, e), p, q)
  {
    hide Contradicts, Consistent, ConsistentOperands, HasDominant, PairsConsistent, Foldable;
    ShapeSlot(op, e, p);
    ShapeSlot(op, e, q);
    if IsBin(Get(e, p), op) {
      HalvesFall(ShapeOf(op, e), p);
      ResolveHalvesDecide(op, e, Append(p, Left(Here)), q, Append(p, Right(Here)), q, Pairs(ShapeOf(op, e), p, q));
    } else if p != q {
      var split := ResolveSplit(op, e, p, q);
      ResolveSplitDecides(op, e, p, q);
      StillTip(op, e, split.e, p);
      ShapeSlot(op, split.e, q);
      ResolveOperandDecides(op, split.e, p, q);
    }
  }

  lemma {:induction false} ResolveHalvesDecide(op: Op, e: Expr, p: Path, q: Path, p': Path, q': Path, bound: nat)
    requires InChain(op, e, p, q) && InChain(op, e, p', q') && ConsistentOperands(op, e)
    requires Pairs(ShapeOf(op, e), p, q) < bound && Pairs(ShapeOf(op, e), p', q') < bound
    ensures Decides(op, e, ResolveHalves(op, e, p, q, p', q', bound))
    decreases Leaves(e), 2 * bound, 0
  {
    hide Contradicts, Consistent, ConsistentOperands, HasDominant, PairsConsistent, Foldable;
    ResolvePassDecides(op, e, p, q);
    ResolvePassDecides(op, ResolvePass(op, e, p, q).e, p', q');
  }

  lemma {:induction false} ResolveSplitDecides(op: Op, e: Expr, p: Path, q: Path)
    requires InChain(op, e, p, q) && ConsistentOperands(op, e)
    ensures Decides(op, e, ResolveSplit(op, e, p, q))
    decreases Leaves(e), 2 * Pairs(ShapeOf(op, e), p, q), 1
  {
    hide Contradicts, Consistent, ConsistentOperands, HasDominant, PairsConsistent, Foldable;
    ShapeSlot(op, e, q);
    if IsBin(Get(e, q), op) {
      HalvesFall(ShapeOf(op, e), q);
      ResolveHalvesDecide(op, e, p, Append(q, Left(Here)), p, Append(q, Right(Here)), Pairs(ShapeOf(op, e), p, q));
    }
  }

  lemma ResolveOperandDecides(op: Op, e: Expr, p: Path, q: Path)
    requires IsBin(e, op) && IsTip(op, e, p) && IsSlot(op, e, q) && p != q && ConsistentOperands(op, e)
    ensures Decides(op, e, ResolveOperand(op, e, p, q))
  {
    hide Contradicts, Consistent, ConsistentOperands, HasDominant, PairsConsistent, Foldable;
    OperandConsistent(op, e, p);
    assert ResolveBelow(op, e, p) == Pass(e, 0);
    ConsistentPut(op, e, p);
    DominantPut(op, e, p);
  }

  /** A chain with a contradiction in it, but nothing to join and nothing to do inside its operands, is decided. */
  lemma ContradictionDecides(op: Op, e: Expr)
    requires IsBin(e, op) && Joinless(e) && ConsistentOperands(op, e) && !Consistent(e)
    ensures Deduplicated(e) == Dominant(op)
  {
    hide Contradicts, Consistent, ConsistentOperands, HasDominant, ResolvePass, JoinPass, Joinless, Foldable;
    ChainJoinless(op, e);
    ChainConsistent(op, e);
    DeduplicatedStep(op, e);
    ResolvePassDecides(op, e, Here, Here);
    DominantFolds(op, ResolvePass(op, e, Here, Here).e);
  }

  // ----- either and neither -----

  /** Two symbols that are no literals. */
  predicate TwoSymbols(foo: Expr, bar: Expr) {
    foo.Sym? && bar.Sym? && foo != bar && !IsTristateConstant(foo.sym) && !IsTristateConstant(bar.sym)
  }

  function Either(op: Op, foo: Expr, bar: Expr): Expr { Bin(Dual(op), foo, bar) }

  function Neither(op: Op, foo: Expr, bar: Expr): Expr { Bin(op, Not(foo), Not(bar)) }

  /** FOO || BAR contradicts any AND of which !FOO and !BAR are operands, and FOO && BAR any such OR. */
  lemma EitherContradicts(op: Op, foo: Expr, bar: Expr, e: Expr)
    requires TwoSymbols(foo, bar) && RegularOperands(op, e)
    ensures Contradicts(op, Either(op, foo, bar), e)
       <==> Negation(Atom(foo)) in Forms(op, e) && Negation(Atom(bar)) in Forms(op, e)
  {
    hide Contradicts, RegularOperands, Forms, HasDominant;
    NeitherForms(op, foo, bar);
    assert Pushed(Either(op, foo, bar), true) == Neither(op, foo, bar);
    ContradictsExact(op, Either(op, foo, bar), e);
  }

  lemma NeitherForms(op: Op, foo: Expr, bar: Expr)
    requires TwoSymbols(foo, bar)
    ensures var e := Neither(op, foo, bar);
            && RegularOperands(op, e) && !HasDominant(op, e)
            && Forms(op, e) == multiset{Negation(Atom(foo)), Negation(Atom(bar))}
  {
    NegatedForm(op, foo);
    NegatedForm(op, bar);
    ChainCases(op, Neither(op, foo, bar));
  }

  lemma NegatedForm(op: Op, s: Expr)
    requires s.Sym?
    ensures RegularOperands(op, Not(s)) && !HasDominant(op, Not(s))
    ensures Forms(op, Not(s)) == multiset{Negation(Atom(s))}
  {
    assert FormOf(s) == Atom(s);
    OperandCases(op, Not(s));
  }

  /** The examples in the source: (FOO || BAR) && (!FOO && !BAR) becomes 'n', and (FOO && BAR) || (!FOO || !BAR) becomes
      'y'. */
  lemma EitherAndNeither(op: Op, foo: Expr, bar: Expr)
    requires TwoSymbols(foo, bar)
    ensures Deduplicated(Bin(op, Either(op, foo, bar), Neither(op, foo, bar))) == Dominant(op)
  {
    hide Contradicts, Joinless, Deduplicated, RegularOperands, Forms;
    var e := Bin(op, Either(op, foo, bar), Neither(op, foo, bar));
    NeitherForms(op, foo, bar);
    EitherContradicts(op, foo, bar, Neither(op, foo, bar));
    EitherSlots(op, foo, bar);
    assert !Consistent(e);
    EitherJoinless(op, foo, bar);
    EitherConsistent(op, foo, bar);
    ContradictionDecides(op, e);
  }

  lemma EitherSlots(op: Op, foo: Expr, bar: Expr)
    requires foo.Sym? && bar.Sym?
    ensures var e := Bin(op, Either(op, foo, bar), Neither(op, foo, bar));
            && IsTip(op, e, Left(Here)) && Get(e, Left(Here)) == Either(op, foo, bar)
            && IsSlot(op, e, Right(Here)) && Get(e, Right(Here)) == Neither(op, foo, bar)
            && IsTip(op, e, Right(Left(Here))) && Get(e, Right(Left(Here))) == Not(foo)
            && IsTip(op, e, Right(Right(Here))) && Get(e, Right(Right(Here))) == Not(bar)
            && (forall p :: IsTip(op, e, p) ==> p == Left(Here) || p == Right(Left(Here)) || p == Right(Right(Here)))
  {
    var e := Bin(op, Either(op, foo, bar), Neither(op, foo, bar));
    SlotsOfTwo(op, e.r);
    assert ShapeOf(op, e.l) == Tip && ShapeOf(op, e.r) == Fork(Tip, Tip);
    assert ShapeOf(op, e) == Fork(Tip, Fork(Tip, Tip));
    assert HasSlot(e, Right(Left(Here))) && HasSlot(e, Right(Right(Here)));
    forall p | IsTip(op, e, p) ensures p == Left(Here) || p == Right(Left(Here)) || p == Right(Right(Here)) {
      TipDown(op, e, p);
      if p.Left? { TipDown(op, e.l, p.next); } else { TipsOfTwo(op, e.r, p.next); }
    }
  }

  lemma EitherJoinless(op: Op, foo: Expr, bar: Expr)
    requires TwoSymbols(foo, bar)
    ensures Joinless(Bin(op, Either(op, foo, bar), Neither(op, foo, bar)))
  {
    hide JoinOperands, IsTip, Get;
    var e := Bin(op, Either(op, foo, bar), Neither(op, foo, bar));
    EitherSlots(op, foo, bar);
    OperandsUnlike(op, foo, bar);
    forall p, q | IsTip(op, e, p) && IsTip(op, e, q) && p != q ensures JoinOperands(op, Get(e, p), Get(e, q)).None? {
      JoinsExactly(op, Get(e, p), Get(e, q));
    }
    TwoJoinless(Dual(op), foo, bar);
    assert Joinless(Not(foo)) && Joinless(Not(bar));
    assert JoinlessOperands(op, e.l) && JoinlessOperands(op, e.r);
  }

  lemma TwoJoinless(op: Op, foo: Expr, bar: Expr)
    requires TwoSymbols(foo, bar)
    ensures Joinless(Bin(op, foo, bar))
  {
    hide JoinOperands;
    var e := Bin(op, foo, bar);
    SlotsOfTwo(op, e);
    forall p, q | IsTip(op, e, p) && IsTip(op, e, q) && p != q ensures JoinOperands(op, Get(e, p), Get(e, q)).None? {
      TipsOfTwo(op, e, p);
      TipsOfTwo(op, e, q);
      JoinsExactly(op, Get(e, p), Get(e, q));
    }
    assert Joinless(foo) && Joinless(bar);
    assert JoinlessOperands(op, foo) && JoinlessOperands(op, bar);
  }

  lemma OperandsUnlike(op: Op, foo: Expr, bar: Expr)
    requires TwoSymbols(foo, bar)
    ensures var either := Either(op, foo, bar);
            && !Eq(either, Not(foo)) && !Eq(either, Not(bar)) && !Eq(Not(foo), either) && !Eq(Not(bar), either)
            && !Eq(Not(foo), Not(bar)) && !Eq(Not(bar), Not(foo))
            && !RulePair(op, either, Not(foo)) && !RulePair(op, either, Not(bar)) && !RulePair(op, Not(foo), Not(bar))
  {
    assert !Eq(foo, bar) && !Eq(bar, foo);
  }

  lemma EitherConsistent(op: Op, foo: Expr, bar: Expr)
    requires TwoSymbols(foo, bar)
    ensures ConsistentOperands(op, Bin(op, Either(op, foo, bar), Neither(op, foo, bar)))
  {
    hide Contradicts;
    TwoConsistent(Dual(op), Either(op, foo, bar));
    assert Consistent(Not(foo)) && Consistent(Not(bar));
    assert ConsistentOperands(op, Not(foo));
    assert ConsistentOperands(op, Not(bar));
    assert ConsistentOperands(op, Neither(op, foo, bar));
  }

  /** With FOO = BAR = m the rule is wrong: both examples are 'm', and it makes them 'n' and 'y'. */
  lemma ContradictionAtMod(env: Env, op: Op, foo: Expr, bar: Expr)
    requires foo == Sym(Config("FOO", Tristate)) && bar == Sym(Config("BAR", Tristate))
    requires ValidEnv(env) && Value(env, foo) == 1 && Value(env, bar) == 1
    ensures var e := Bin(op, Either(op, foo, bar), Neither(op, foo, bar));
            Value(env, e) == 1 && Value(env, Deduplicated(e)) != 1
  {
    hide Deduplicated;
    assert "FOO" != "BAR";
    EitherAndNeither(op, foo, bar);
  }
}
