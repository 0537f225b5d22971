/** What expr_eliminate_dups makes of the operands of a chain (scripts/kconfig/expr.c: expr_join_or, expr_join_and,
    expr_eliminate_dups1, expr_eliminate_dups2, expr_eliminate_dups), said by the operands alone. */
module KconfigJoins {
  import opened Wrappers
  import opened KconfigExpr
  import opened KconfigEq
  import opened KconfigSlots
  import opened KconfigTransform
  import opened KconfigDups
  import opened KconfigPasses

  // ----- the pairs there is a rule for -----

  predicate Bistate(s: Symbol) { s.Type().Boolean? || s.Type().Tristate? }

  /** Two operands about one symbol that one operand can stand for, in this order. */
  predicate OrderedPair(op: Op, x: Expr, y: Expr) {
    match (op, x, y)
    case (OrOp, Sym(s), Not(Sym(t))) => s == t && s.Type().Boolean?
    case (OrOp, Equal(s, a), Equal(t, b)) =>
      s == t && s.Type().Tristate? && a != b && IsTristateConstant(a) && IsTristateConstant(b)
    case (AndOp, Sym(s), Equal(t, a)) => s == t && Bistate(s) && a == SYMBOL_YES
    case (AndOp, Sym(s), Unequal(t, a)) => s == t && Bistate(s) && (a == SYMBOL_NO || a == SYMBOL_MOD)
    case (AndOp, Equal(s, a), Unequal(t, b)) => s == t && s.Type().Tristate? && a.Const? && b.Const?
    case (AndOp, Unequal(s, a), Unequal(t, b)) =>
      s == t && s.Type().Tristate? && a != b && IsTristateConstant(a) && IsTristateConstant(b)
    case _ => false
  }

  predicate RulePair(op: Op, x: Expr, y: Expr) { OrderedPair(op, x, y) || OrderedPair(op, y, x) }

  /** There is a rule for these pairs and for equal operands, and for no others. */
  lemma JoinsExactly(op: Op, x: Expr, y: Expr)
    ensures JoinOperands(op, x, y).Some? <==> Eq(x, y) || RulePair(op, x, y)
  {
    hide Eq;
  }

  /** No two operands left are equal or have a rule, in any chain at any depth above a NOT. */
  ghost predicate NoPairLeft(e: Expr) {
    forall t: Path, p: Path, q: Path ::
      HasSlot(e, t) && Get(e, t).Bin? && IsTip(Get(e, t).op, Get(e, t), p) && IsTip(Get(e, t).op, Get(e, t), q) &&
      p != q
      ==> !Eq(Get(Get(e, t), p), Get(Get(e, t), q)) && !RulePair(Get(e, t).op, Get(Get(e, t), p), Get(Get(e, t), q))
  }

  lemma {:induction false} JoinlessSides(op: Op, e: Expr)
    requires IsBin(e, op) && Joinless(e)
    ensures Joinless(e.l) && Joinless(e.r)
  {
    hide JoinOperands;
    assert JoinlessOperands(op, e.l) && JoinlessOperands(op, e.r);
    forall p, q | IsBin(e.l, op) && IsTip(op, e.l, p) && IsTip(op, e.l, q) && p != q
      ensures JoinOperands(op, Get(e.l, p), Get(e.l, q)).None?
    {
      assert IsTip(op, e, Left(p)) && IsTip(op, e, Left(q));
    }
    forall p, q | IsBin(e.r, op) && IsTip(op, e.r, p) && IsTip(op, e.r, q) && p != q
      ensures JoinOperands(op, Get(e.r, p), Get(e.r, q)).None?
    {
      assert IsTip(op, e, Right(p)) && IsTip(op, e, Right(q));
    }
  }

  lemma {:induction false} JoinlessInside(e: Expr, t: Path)
    requires Joinless(e) && HasSlot(e, t)
    ensures Joinless(Get(e, t))
  {
    match t
    case Here =>
    case Left(t') => JoinlessSides(e.op, e); JoinlessInside(e.l, t');
    case Right(t') => JoinlessSides(e.op, e); JoinlessInside(e.r, t');
  }

  /** After expr_eliminate_dups no two operands of a chain are left that are equal or have a rule. */
  lemma DeduplicatedLeavesNoPair(e: Expr)
    ensures NoPairLeft(Deduplicated(e))
  {
    hide Deduplicated, Eq, RulePair, JoinOperands;
    var r := Deduplicated(e);
    forall t, p, q |
      HasSlot(r, t) && Get(r, t).Bin? && IsTip(Get(r, t).op, Get(r, t), p) && IsTip(Get(r, t).op, Get(r, t), q) &&
      p != q
      ensures !Eq(Get(Get(r, t), p), Get(Get(r, t), q)) && !RulePair(Get(r, t).op, Get(Get(r, t), p), Get(Get(r, t), q))
    {
      JoinlessInside(r, t);
      JoinsExactly(Get(r, t).op, Get(Get(r, t), p), Get(Get(r, t), q));
    }
  }

  /** What is settled stays as it is, so a second expr_eliminate_dups changes nothing. */
  lemma DeduplicatedIdempotent(e: Expr)
    ensures Deduplicated(Deduplicated(e)) == Deduplicated(e)
  {
    hide *;
    var r := Deduplicated(e);
    assert Deduplicated(r) == r;
  }

  // ----- what becomes of two operands -----

  /** A chain of two operands that are no chains. */
  predicate IsTwo(op: Op, e: Expr) { IsBin(e, op) && !e.l.Bin? && !e.r.Bin? }

  lemma SlotsOfTwo(op: Op, e: Expr)
    requires IsTwo(op, e)
    ensures IsTip(op, e, Left(Here)) && IsTip(op, e, Right(Here))
    ensures Get(e, Left(Here)) == e.l && Get(e, Right(Here)) == e.r
    ensures forall x :: Put(e, Left(Here), x) == Bin(op, x, e.r) && Put(e, Right(Here), x) == Bin(op, e.l, x)
    ensures Append(Here, Left(Here)) == Left(Here) && Append(Here, Right(Here)) == Right(Here)
  {
  }

  /** An operand against both, and the whole chain against itself: the pass over one half, then over the other. */
  lemma HalvesInTurn(op: Op, e: Expr, p: Path)
    requires IsTwo(op, e) && (p == Left(Here) || p == Right(Here))
    ensures InChain(op, e, p, Left(Here)) && InChain(op, JoinPass(op, e, p, Left(Here)).e, p, Right(Here))
    ensures JoinPass(op, e, p, Here).e == JoinPass(op, JoinPass(op, e, p, Left(Here)).e, p, Right(Here)).e
  {
    SlotsOfTwo(op, e);
  }

  lemma WholeInTurn(op: Op, e: Expr)
    requires IsTwo(op, e)
    ensures InChain(op, e, Left(Here), Here) && InChain(op, JoinPass(op, e, Left(Here), Here).e, Right(Here), Here)
    ensures JoinPass(op, e, Here, Here).e == JoinPass(op, JoinPass(op, e, Left(Here), Here).e, Right(Here), Here).e
  {
    SlotsOfTwo(op, e);
  }

  lemma OperandsInTurn(op: Op, e: Expr, p: Path, q: Path)
    requires IsTwo(op, e) && (p == Left(Here) || p == Right(Here)) && (q == Left(Here) || q == Right(Here))
    ensures InChain(op, e, p, q)
    ensures p == q ==> JoinPass(op, e, p, q) == Pass(e, 0)
    ensures p != q ==> IsTip(op, e, p) && IsTip(op, e, q) && JoinPass(op, e, p, q) == JoinPair(op, e, p, q)
  {
    SlotsOfTwo(op, e);
    hide JoinPair;
  }

  lemma PairJoined(op: Op, e: Expr, z: Expr)
    requires IsTwo(op, e) && !z.Bin? && JoinOperands(op, e.l, e.r) == Some(z)
    requires JoinOperands(op, z, Neutral(op)).None?
    ensures JoinPass(op, e, Here, Here).e == Bin(op, Neutral(op), z) && !Joinless(e)
  {
    hide JoinPass, JoinOperands;
    var e' := Bin(op, Neutral(op), z);
    SlotsOfTwo(op, e);
    SlotsOfTwo(op, e');
    WholeInTurn(op, e);
    HalvesInTurn(op, e, Left(Here));
    OperandsInTurn(op, e, Left(Here), Left(Here));
    OperandsInTurn(op, e, Left(Here), Right(Here));
    HalvesInTurn(op, e', Right(Here));
    OperandsInTurn(op, e', Right(Here), Left(Here));
    OperandsInTurn(op, e', Right(Here), Right(Here));
    assert JoinPair(op, e, Left(Here), Right(Here)).e == e';
    assert JoinPair(op, e', Right(Here), Left(Here)).e == e';
  }

  lemma TipDown(op: Op, e: Expr, p: Path)
    requires IsTip(op, e, p)
    ensures !IsBin(e, op) ==> p == Here
    ensures IsBin(e, op) ==> p != Here
    ensures p.Left? ==> IsTip(op, e.l, p.next)
    ensures p.Right? ==> IsTip(op, e.r, p.next)
  {
  }

  lemma TipsOfTwo(op: Op, e: Expr, p: Path)
    requires IsTwo(op, e) && IsTip(op, e, p)
    ensures p == Left(Here) || p == Right(Here)
  {
    TipDown(op, e, p);
    if p.Left? { TipDown(op, e.l, p.next); } else { TipDown(op, e.r, p.next); }
  }

  lemma TwoConsistent(op: Op, e: Expr)
    requires IsTwo(op, e)
    ensures Consistent(e)
  {
    hide Contradicts;
    forall p | IsTip(op, e, p) ensures !Get(e, p).Bin? { TipsOfTwo(op, e, p); }
    assert ConsistentOperands(op, e.l) && ConsistentOperands(op, e.r);
    assert ConsistentOperands(op, e);
  }

  lemma NothingToResolve(op: Op, e: Expr)
    requires IsTwo(op, e)
    ensures ResolvePass(op, e, Here, Here) == Pass(e, 0)
  {
    hide Consistent, ResolvePass;
    TwoConsistent(op, e);
    ChainConsistent(op, e);
  }

  lemma {:induction false} DeduplicatedStep(op: Op, e: Expr)
    requires IsBin(e, op) && !(Joinless(e) && Consistent(e))
    ensures InChain(op, e, Here, Here) && InChain(op, JoinPass(op, e, Here, Here).e, Here, Here)
    ensures Deduplicated(e) == Deduplicated(EliminateYn(ResolvePass(op, JoinPass(op, e, Here, Here).e, Here, Here).e))
  {
    hide JoinPass, ResolvePass, EliminateYn, Joinless, Consistent;
    ChainJoinless(op, e);
    ChainConsistent(op, e);
  }

  /** Two operands become the one they are joined to. */
  lemma PairDeduplicated(op: Op, x: Expr, y: Expr, z: Expr)
    requires !x.Bin? && !y.Bin? && !z.Bin? && JoinOperands(op, x, y) == Some(z)
    requires JoinOperands(op, z, Neutral(op)).None?
    ensures Deduplicated(Bin(op, x, y)) == z
  {
    hide JoinPass, ResolvePass, JoinOperands, Joinless, Consistent;
    var e := Bin(op, x, y);
    PairJoined(op, e, z);
    NothingToResolve(op, Bin(op, Neutral(op), z));
    DeduplicatedStep(op, e);
    assert EliminateYn(z) == z;
  }

  // ----- the rules -----

  /** Of two equal operands the text of the first is kept. */
  lemma EqualOperands(op: Op, x: Expr, y: Expr)
    requires !x.Bin? && !y.Bin? && Eq(x, y) && !IsYn(x)
    ensures Deduplicated(Bin(op, x, y)) == x
  {
    hide Eq, Deduplicated;
    LiteralPair(op, x);
    JoinsExactly(op, x, Neutral(op));
    assert JoinOperands(op, x, y) == Some(x);
    PairDeduplicated(op, x, y, x);
  }

  lemma LiteralPair(op: Op, x: Expr)
    requires !x.Bin? && !IsYn(x)
    ensures !Eq(x, Neutral(op)) && !RulePair(op, x, Neutral(op))
  {
  }

  /** The three literals in some order. */
  predicate Three(a: Symbol, b: Symbol, c: Symbol) {
    IsTristateConstant(a) && IsTristateConstant(b) && IsTristateConstant(c) && a != b && a != c && b != c
  }

  ghost predicate Becomes(op: Op, x: Expr, y: Expr, z: Expr) {
    Deduplicated(Bin(op, x, y)) == z && Deduplicated(Bin(op, y, x)) == z
  }

  lemma BothOrders(op: Op, x: Expr, y: Expr, z: Expr)
    requires !x.Bin? && !y.Bin? && !z.Bin? && JoinOperands(op, x, y) == JoinOperands(op, y, x) == Some(z)
    requires JoinOperands(op, z, Neutral(op)).None?
    ensures Becomes(op, x, y, z)
  {
    PairDeduplicated(op, x, y, z);
    PairDeduplicated(op, y, x, z);
  }

  /** A boolean symbol or its negation is 'y'. */
  lemma SymbolOrNegation(s: Symbol)
    requires s.Type().Boolean?
    ensures Becomes(OrOp, Sym(s), Not(Sym(s)), YES)
  {
    hide Becomes;
    BothOrders(OrOp, Sym(s), Not(Sym(s)), YES);
  }

  /** Comparisons of a tristate symbol with different literals. */
  lemma TwoComparisons(s: Symbol, a: Symbol, b: Symbol, c: Symbol)
    requires s.Type().Tristate? && Three(a, b, c)
    ensures Becomes(OrOp, Equal(s, a), Equal(s, b), Unequal(s, c))
    ensures Becomes(AndOp, Unequal(s, a), Unequal(s, b), Equal(s, c))
  {
    hide Becomes;
    BothOrders(OrOp, Equal(s, a), Equal(s, b), Unequal(s, c));
    BothOrders(AndOp, Unequal(s, a), Unequal(s, b), Equal(s, c));
  }

  /** One constant it equals and one that it does not: the same one is a contradiction. */
  lemma EqualAndUnequal(s: Symbol, a: Symbol, b: Symbol)
    requires s.Type().Tristate? && a.Const? && b.Const?
    ensures Becomes(AndOp, Equal(s, a), Unequal(s, b), if a == b then NO else Equal(s, a))
  {
    hide Becomes;
    BothOrders(AndOp, Equal(s, a), Unequal(s, b), if a == b then NO else Equal(s, a));
  }

  /** A symbol beside a comparison of it. */
  lemma SymbolAndComparison(s: Symbol)
    requires Bistate(s)
    ensures Becomes(AndOp, Sym(s), Equal(s, SYMBOL_YES), Equal(s, SYMBOL_YES))
    ensures Becomes(AndOp, Sym(s), Unequal(s, SYMBOL_NO), Sym(s))
    ensures Becomes(AndOp, Sym(s), Unequal(s, SYMBOL_MOD), Equal(s, SYMBOL_YES))
  {
    hide Becomes;
    BothOrders(AndOp, Sym(s), Equal(s, SYMBOL_YES), Equal(s, SYMBOL_YES));
    BothOrders(AndOp, Sym(s), Unequal(s, SYMBOL_NO), Sym(s));
    BothOrders(AndOp, Sym(s), Unequal(s, SYMBOL_MOD), Equal(s, SYMBOL_YES));
  }
}
