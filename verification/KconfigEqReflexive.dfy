/** expr_eq recognises a copy of an expression: elimination of an expression against itself pairs
    every operand with its own copy, from left to right, and leaves only literals. */
module KconfigEqReflexive {
  import opened KconfigExpr
  import opened KconfigEq
  import opened KconfigSlots

  /** The chain with every operand but the literals 'y' and 'n' replaced by the neutral literal. */
  function Blank(op: Op, e: Expr): Expr {
    if IsBin(e, op) then Bin(op, Blank(op, e.l), Blank(op, e.r))
    else if IsYn(e) then e
    else Neutral(op)
  }

  /** The chain with everything to the left of slot `p` blanked, and slot `p` too if `through`. */
  function BlankUpTo(op: Op, e: Expr, p: Path, through: bool): Expr
    requires InShape(ShapeOf(op, e), p)
  {
    match p
    case Here => if through then Blank(op, e) else e
    case Left(p') => Bin(op, BlankUpTo(op, e.l, p', through), e.r)
    case Right(p') => Bin(op, Blank(op, e.l), BlankUpTo(op, e.r, p', through))
  }

  lemma {:induction false} LiteralInert(op: Op, x: Expr, e: Expr)
    requires IsYn(x)
    ensures EliminatePairs(op, x, e) == (x, e)
    decreases e
  {
    if IsBin(e, op) {
      LiteralInert(op, x, e.l);
      LiteralInert(op, x, e.r);
    }
  }

  lemma {:induction false} BlankInert(op: Op, a: Expr, e: Expr)
    requires !IsBin(a, op) && !IsYn(a)
    ensures EliminatePairs(op, a, Blank(op, e)) == (a, Blank(op, e))
    decreases e
  {
    if IsBin(e, op) {
      BlankInert(op, a, e.l);
      BlankInert(op, a, e.r);
    }
  }

  /** One operand against the chain it sits in, when everything before it has been matched. */
  lemma {:induction false} OperandMatched(op: Op, e: Expr, p: Path)
    requires IsTip(op, e, p) && Eq(Get(e, p), Get(e, p))
    ensures EliminatePairs(op, Get(e, p), BlankUpTo(op, e, p, false)) ==
            (Blank(op, Get(e, p)), BlankUpTo(op, e, p, true))
    decreases p
  {
    var a := Get(e, p);
    match p
    case Here =>
    case Left(p') =>
      OperandMatched(op, e.l, p');
      LiteralInert(op, Blank(op, a), e.r);
    case Right(p') =>
      if IsYn(a) { LiteralInert(op, a, Blank(op, e.l)); } else { BlankInert(op, a, e.l); }
      OperandMatched(op, e.r, p');
  }

  lemma {:induction false} BlankSteps(op: Op, e: Expr, p: Path)
    requires InShape(ShapeOf(op, e), p) && ShapeAt(ShapeOf(op, e), p).Fork?
    ensures InShape(ShapeOf(op, e), Append(p, Left(Here))) && InShape(ShapeOf(op, e), Append(p, Right(Here)))
    ensures BlankUpTo(op, e, Append(p, Left(Here)), false) == BlankUpTo(op, e, p, false)
    ensures BlankUpTo(op, e, Append(p, Left(Here)), true) == BlankUpTo(op, e, Append(p, Right(Here)), false)
    ensures BlankUpTo(op, e, Append(p, Right(Here)), true) == BlankUpTo(op, e, p, true)
  {
    match p
    case Here =>
    case Left(p') => BlankSteps(op, e.l, p');
    case Right(p') => BlankSteps(op, e.r, p');
  }

  lemma {:induction false} ChainMatched(op: Op, e: Expr, p: Path)
    requires InShape(ShapeOf(op, e), p)
    requires forall q :: IsTip(op, e, q) ==> Eq(Get(e, q), Get(e, q))
    ensures HasSlot(e, p)
    ensures EliminatePairs(op, Get(e, p), BlankUpTo(op, e, p, false)) ==
            (Blank(op, Get(e, p)), BlankUpTo(op, e, p, true))
    decreases Forks(ShapeAt(ShapeOf(op, e), p))
  {
    ShapeSlot(op, e, p);
    if IsBin(Get(e, p), op) {
      var shape := ShapeOf(op, e);
      BlankSteps(op, e, p);
      ShapeAppend(shape, p, Left(Here));
      ShapeAppend(shape, p, Right(Here));
      GetAppend(e, p, Left(Here));
      GetAppend(e, p, Right(Here));
      ChainMatched(op, e, Append(p, Left(Here)));
      ChainMatched(op, e, Append(p, Right(Here)));
    } else {
      OperandMatched(op, e, p);
    }
  }

  lemma BlankFolds(op: Op, e: Expr)
    ensures IsYn(EliminateYn(Blank(op, e)))
  {
  }

  lemma {:induction false} EqReflexive(e: Expr)
    ensures Eq(e, e)
    decreases Size(e)
  {
    match e
    case Not(a) => EqReflexive(a);
    case Bin(op, _, _) =>
      forall q | IsTip(op, e, q) ensures Eq(Get(e, q), Get(e, q)) {
        SlotSize(e, q);
        EqReflexive(Get(e, q));
      }
      ChainMatched(op, e, Here);
      BlankFolds(op, e);
    case _ =>
  }

  lemma SlotSize(e: Expr, p: Path)
    requires HasSlot(e, p)
    ensures Size(Get(e, p)) <= Size(e)
    ensures p != Here ==> Size(Get(e, p)) < Size(e)
  {
  }
}
