/** Duplicate elimination (scripts/kconfig/expr.c: expr_join_or, expr_join_and, expr_eliminate_dups1,
    expr_eliminate_dups2, expr_eliminate_dups). The tree is rewritten in place through two slots that
    may be the same slot or lie one inside the other. */
module KconfigDups {
  import opened Wrappers
  import opened KconfigExpr
  import opened KconfigEq
  import opened KconfigSlots
  import opened KconfigTransform

  // ----- joining two operands -----

  /** The symbol an operand is about. A first operand may be a negated comparison, a second may not. */
  function Subject(e: Expr, first: bool): Option<Symbol> {
    match e
    case Sym(s) => Some(s)
    case Equal(s, _) => Some(s)
    case Unequal(s, _) => Some(s)
    case Not(Sym(s)) => Some(s)
    case Not(Equal(s, _)) => if first then Some(s) else None
    case Not(Unequal(s, _)) => if first then Some(s) else None
    case _ => None
  }

  /** Both orders of a pair of right-hand symbols. */
  predicate IsPair(x: Symbol, y: Symbol, a: Symbol, b: Symbol) {
    (x == a && y == b) || (x == b && y == a)
  }

  /** e1 || e2 */
  function JoinOr(e1: Expr, e2: Expr): Option<Expr> {
    if Eq(e1, e2) then Some(e1)
    else if Subject(e1, true) == None || Subject(e1, true) != Subject(e2, false) then None
    else
      var s := Subject(e1, true).value;
      if s.Type().Tristate? && e1.Equal? && e2.Equal? then
        if IsPair(e1.right, e2.right, SYMBOL_YES, SYMBOL_MOD) then Some(Unequal(s, SYMBOL_NO))
        else if IsPair(e1.right, e2.right, SYMBOL_YES, SYMBOL_NO) then Some(Unequal(s, SYMBOL_MOD))
        else if IsPair(e1.right, e2.right, SYMBOL_MOD, SYMBOL_NO) then Some(Unequal(s, SYMBOL_YES))
        else None
      else if s.Type().Boolean? && ((e1.Not? && e1.arg.Sym? && e2.Sym?) || (e2.Not? && e2.arg.Sym? && e1.Sym?)) then
        Some(YES)
      else None
  }

  /** A plain symbol next to `symbol != c` (or `symbol = c`), in either order. */
  predicate SymbolAndUnequal(e1: Expr, e2: Expr, c: Symbol) {
    (e1.Sym? && e2.Unequal? && e2.right == c) || (e2.Sym? && e1.Unequal? && e1.right == c)
  }

  predicate SymbolAndEqual(e1: Expr, e2: Expr, c: Symbol) {
    (e1.Sym? && e2.Equal? && e2.right == c) || (e2.Sym? && e1.Equal? && e1.right == c)
  }

  /** e1 && e2 */
  function JoinAnd(e1: Expr, e2: Expr): Option<Expr> {
    if Eq(e1, e2) then Some(e1)
    else if Subject(e1, true) == None || Subject(e1, true) != Subject(e2, false) then None
    else
      var s := Subject(e1, true).value;
      if !s.Type().Boolean? && !s.Type().Tristate? then None
      else if SymbolAndEqual(e1, e2, SYMBOL_YES) then Some(Equal(s, SYMBOL_YES))
      else if SymbolAndUnequal(e1, e2, SYMBOL_NO) then Some(Sym(s))
      else if SymbolAndUnequal(e1, e2, SYMBOL_MOD) then Some(Equal(s, SYMBOL_YES))
      else if s.Type().Boolean? then None
      else if e1.Equal? && e2.Unequal? && e2.right.Const? && e1.right.Const? then
        Some(if e1.right != e2.right then Equal(s, e1.right) else NO)
      else if e1.Unequal? && e2.Equal? && e1.right.Const? && e2.right.Const? then
        Some(if e2.right != e1.right then Equal(s, e2.right) else NO)
      else if e1.Unequal? && e2.Unequal? then
        if IsPair(e1.right, e2.right, SYMBOL_YES, SYMBOL_NO) then Some(Equal(s, SYMBOL_MOD))
        else if IsPair(e1.right, e2.right, SYMBOL_YES, SYMBOL_MOD) then Some(Equal(s, SYMBOL_NO))
        else if IsPair(e1.right, e2.right, SYMBOL_MOD, SYMBOL_NO) then Some(Equal(s, SYMBOL_YES))
        else None
      else None
  }

  function JoinOperands(op: Op, e1: Expr, e2: Expr): Option<Expr> {
    if op == OrOp then JoinOr(e1, e2) else JoinAnd(e1, e2)
  }

  lemma JoinOrValue(env: Env, e1: Expr, e2: Expr)
    requires ValidEnv(env) && JoinOr(e1, e2).Some? && !Eq(e1, e2)
    ensures Value(env, JoinOr(e1, e2).value) == Apply(OrOp, Value(env, e1), Value(env, e2))
  {
    assert env(SYMBOL_NO).text == "n" && env(SYMBOL_MOD).text == "m" && env(SYMBOL_YES).text == "y";
    var s := Subject(e1, true).value;
    assert env(s).text in {"n", "m", "y"};
    hide Eq, SYMBOL_NO, SYMBOL_MOD, SYMBOL_YES;
  }

  lemma JoinAndValue(env: Env, e1: Expr, e2: Expr)
    requires ValidEnv(env) && JoinAnd(e1, e2).Some? && !Eq(e1, e2)
    ensures Value(env, JoinAnd(e1, e2).value) == Apply(AndOp, Value(env, e1), Value(env, e2))
  {
    assert env(SYMBOL_NO).text == "n" && env(SYMBOL_MOD).text == "m" && env(SYMBOL_YES).text == "y";
    assert env(Subject(e1, true).value).text in {"n", "m", "y"};
  }

  /** The joined operand has the three-valued meaning of the two it replaces. */
  lemma {:induction false} JoinValue(env: Env, op: Op, e1: Expr, e2: Expr)
    requires ValidEnv(env) && JoinOperands(op, e1, e2).Some?
    ensures Value(env, JoinOperands(op, e1, e2).value) == Apply(op, Value(env, e1), Value(env, e2))
  {
    if Eq(e1, e2) {
      EqValue(env, e1, e2);
    } else if op == OrOp {
      JoinOrValue(env, e1, e2);
    } else {
      JoinAndValue(env, e1, e2);
    }
  }

  lemma JoinSize(op: Op, e1: Expr, e2: Expr)
    requires JoinOperands(op, e1, e2).Some? && !IsBin(e1, op)
    ensures Leaves(JoinOperands(op, e1, e2).value) <= Leaves(e1)
    ensures !IsBin(JoinOperands(op, e1, e2).value, op)
  {
  }

  // ----- contradictions -----

  /** The negation of `e1` is one of, or is contained in, the operands of `e2`: everything the negated
      first operand is made of is found in the second. */
  predicate Contradicts(op: Op, e1: Expr, e2: Expr) {
    ExtractCommon(op, Transform(Not(e1)), e2).e1 == Neutral(op)
  }

  lemma {:induction false} ContradictsValue(env: Env, op: Op, e1: Expr, e2: Expr)
    requires ValidEnv(env) && Contradicts(op, e1, e2)
    ensures Apply(op, Value(env, e2), 2 - Value(env, e1)) == Value(env, e2)
  {
    TransformValue(env, Not(e1));
    ExtractCommonValue(env, op, Transform(Not(e1)), e2);
  }

  /** A chain holding a contradiction is decided, or is 'm'; after the rewrite it is decided. So the
      rewrite keeps the value exactly when the chain was not 'm'. */
  lemma {:induction false} ContradictionExact(env: Env, op: Op, e: Expr, p: Path, q: Path)
    requires ValidEnv(env) && InShape(ShapeOf(op, e), p) && InShape(ShapeOf(op, e), q)
    requires HasSlot(e, p) && HasSlot(e, q) && Contradicts(op, Get(e, p), Get(e, q))
    ensures Value(env, Put(e, p, Dominant(op))) == Value(env, Dominant(op))
    ensures Value(env, Put(e, p, Dominant(op))) == Value(env, e) <==> Value(env, e) != 1
  {
    ChainAbsorbs(env, op, e, p);
    ChainAbsorbs(env, op, e, q);
    ContradictsValue(env, op, Get(e, p), Get(e, q));
    RestSplits(env, op, e, p, Dominant(op));
  }

  // ----- what one pass over a chain may do to it -----

  ghost predicate Shrunk(op: Op, e: Expr, e': Expr, changed: bool) {
    && ShapeOf(op, e') == ShapeOf(op, e)
    && Leaves(e') <= Leaves(e)
    && (changed ==> Foldable(e'))
    && (!changed ==> e' == e)
  }

  ghost predicate Joined(op: Op, e: Expr, e': Expr, changed: bool) {
    SameMeaning(e, e') && Shrunk(op, e, e', changed)
  }

  ghost predicate Resolved(op: Op, e: Expr, e': Expr, changed: bool) {
    Sharpens(e, e') && Shrunk(op, e, e', changed)
  }

  lemma ShrunkBelow(op: Op, e: Expr, p: Path, x: Expr, changed: bool)
    requires InShape(ShapeOf(op, e), p) && HasSlot(e, p)
    requires Get(e, p).Bin? && Get(e, p).op != op && Shrunk(Get(e, p).op, Get(e, p), x, changed)
    ensures Shrunk(op, e, Put(e, p, x), changed)
  {
    ShapeSlot(op, e, p);
    TipShape(op, Get(e, p));
    TipShape(Get(e, p).op, x);
    TipShape(op, x);
    PutShape(op, e, p, x);
    PutLeaves(e, p, x);
    PutPut(e, p, x, x);
    if changed { SlotFoldable(Put(e, p, x), p); }
  }

  lemma JoinedPair(op: Op, e: Expr, p: Path, q: Path)
    requires IsBin(e, op) && InShape(ShapeOf(op, e), p) && InShape(ShapeOf(op, e), q) && p != q
    requires HasSlot(e, p) && HasSlot(e, q) && !IsBin(Get(e, p), op) && !IsBin(Get(e, q), op)
    requires JoinOperands(op, Get(e, p), Get(e, q)).Some?
    ensures HasSlot(Put(e, p, Neutral(op)), q)
    ensures Joined(op, e, Put(Put(e, p, Neutral(op)), q, JoinOperands(op, Get(e, p), Get(e, q)).value), true)
  {
    var x := JoinOperands(op, Get(e, p), Get(e, q)).value;
    var e1 := Put(e, p, Neutral(op));
    ShapeSlot(op, e, p);
    ShapeSlot(op, e, q);
    TipsDisjoint(ShapeOf(op, e), p, q);
    DisjointSymmetric(p, q);
    PutDisjoint(e, p, q, Neutral(op));
    PutDisjoint(e1, q, p, x);
    JoinSize(op, Get(e, p), Get(e, q));
    PutShape(op, e, p, Neutral(op));
    PutShape(op, e1, q, x);
    PutLeaves(e, p, Neutral(op));
    PutLeaves(e1, q, x);
    PutFoldable(Put(e1, q, x), p, Neutral(op));
    PutPut(Put(e1, q, x), p, Neutral(op), Neutral(op));
    forall env: Env | ValidEnv(env) ensures Value(env, e) == Value(env, Put(e1, q, x)) {
      JoinValue(env, op, Get(e, p), Get(e, q));
      MergeValue(env, op, e, p, q, x);
    }
  }

  lemma SlotsAfterJoin(op: Op, e: Expr, p: Path, q: Path, x: Expr)
    requires IsTip(op, e, p) && IsTip(op, e, q) && p != q
    ensures var e1 := Put(e, p, Neutral(op));
            && HasSlot(e1, q) && HasSlot(Put(e1, q, x), p)
            && Get(Put(e1, q, x), p) == Neutral(op)
  {
    ShapeSlot(op, e, p);
    ShapeSlot(op, e, q);
    TipsDisjoint(ShapeOf(op, e), p, q);
    DisjointSymmetric(p, q);
    PutDisjoint(e, p, q, Neutral(op));
    PutDisjoint(Put(e, p, Neutral(op)), q, p, x);
  }

  lemma ResolvedPair(op: Op, e: Expr, p: Path, q: Path)
    requires IsBin(e, op) && InShape(ShapeOf(op, e), p) && InShape(ShapeOf(op, e), q)
    requires HasSlot(e, p) && HasSlot(e, q) && !IsBin(Get(e, p), op)
    requires Contradicts(op, Get(e, p), Get(e, q))
    ensures Resolved(op, e, Put(e, p, Dominant(op)), true)
  {
    ShapeSlot(op, e, p);
    PutShape(op, e, p, Dominant(op));
    PutLeaves(e, p, Dominant(op));
    PutFoldable(e, p, Dominant(op));
    forall env: Env | ValidEnv(env) ensures Value(env, e) == 1 || Value(env, e) == Value(env, Put(e, p, Dominant(op))) {
      ContradictionExact(env, op, e, p, q);
    }
  }

  // ----- nothing left to do -----

  /** No two operands of any chain of `e` above its NOTs can be joined. */
  ghost predicate Joinless(e: Expr)
    decreases Size(e), 1
  {
    e.Bin? ==>
      && (forall p, q :: IsTip(e.op, e, p) && IsTip(e.op, e, q) && p != q ==>
                           JoinOperands(e.op, Get(e, p), Get(e, q)).None?)
      && JoinlessOperands(e.op, e)
  }

  ghost predicate JoinlessOperands(op: Op, e: Expr)
    decreases Size(e), if IsBin(e, op) then 0 else 2
  {
    if IsBin(e, op) then JoinlessOperands(op, e.l) && JoinlessOperands(op, e.r) else Joinless(e)
  }

  /** No operand is contradicted by another part of its chain. */
  ghost predicate Consistent(e: Expr)
    decreases Size(e), 1
  {
    e.Bin? ==>
      && (forall p, q :: IsTip(e.op, e, p) && Get(e, p).Bin? && InShape(ShapeOf(e.op, e), q) && HasSlot(e, q) && p != q
                         ==> !Contradicts(e.op, Get(e, p), Get(e, q)))
      && ConsistentOperands(e.op, e)
  }

  ghost predicate ConsistentOperands(op: Op, e: Expr)
    decreases Size(e), if IsBin(e, op) then 0 else 2
  {
    if IsBin(e, op) then ConsistentOperands(op, e.l) && ConsistentOperands(op, e.r) else Consistent(e)
  }

  /** The pairs of operands below slots `p` and `q` are done. */
  ghost predicate PairsJoinless(op: Op, e: Expr, p: Path, q: Path) {
    forall a, b :: IsTip(op, e, Append(p, a)) && IsTip(op, e, Append(q, b)) && Append(p, a) != Append(q, b) ==>
                     && JoinOperands(op, Get(e, Append(p, a)), Get(e, Append(q, b))).None?
                     && Joinless(Get(e, Append(p, a)))
  }

  lemma PairsSplitLeft(op: Op, e: Expr, p: Path, q: Path)
    requires InShape(ShapeOf(op, e), p) && ShapeAt(ShapeOf(op, e), p).Fork?
    ensures PairsJoinless(op, e, p, q)
       <==> PairsJoinless(op, e, Append(p, Left(Here)), q) && PairsJoinless(op, e, Append(p, Right(Here)), q)
  {
    AppendAssociative(q, Here, Here);
    if PairsJoinless(op, e, p, q) {
      PairsBelow(op, e, p, q, Left(Here), Here);
      PairsBelow(op, e, p, q, Right(Here), Here);
    }
    if PairsJoinless(op, e, Append(p, Left(Here)), q) && PairsJoinless(op, e, Append(p, Right(Here)), q) {
      PairsJoinLeft(op, e, p, q);
    }
  }

  /** Further down there are only fewer pairs. */
  lemma PairsBelow(op: Op, e: Expr, p: Path, q: Path, a: Path, b: Path)
    requires PairsJoinless(op, e, p, q)
    ensures PairsJoinless(op, e, Append(p, a), Append(q, b))
  {
    hide JoinOperands, Joinless;
    forall a', b' | IsTip(op, e, Append(Append(p, a), a')) && IsTip(op, e, Append(Append(q, b), b')) &&
                    Append(Append(p, a), a') != Append(Append(q, b), b')
      ensures JoinOperands(op, Get(e, Append(Append(p, a), a')), Get(e, Append(Append(q, b), b'))).None?
      ensures Joinless(Get(e, Append(Append(p, a), a')))
    {
      AppendAssociative(p, a, a');
      AppendAssociative(q, b, b');
    }
  }

  lemma PairsJoinLeft(op: Op, e: Expr, p: Path, q: Path)
    requires InShape(ShapeOf(op, e), p) && ShapeAt(ShapeOf(op, e), p).Fork?
    requires PairsJoinless(op, e, Append(p, Left(Here)), q) && PairsJoinless(op, e, Append(p, Right(Here)), q)
    ensures PairsJoinless(op, e, p, q)
  {
    forall a, b | IsTip(op, e, Append(p, a)) && IsTip(op, e, Append(q, b)) && Append(p, a) != Append(q, b)
      ensures JoinOperands(op, Get(e, Append(p, a)), Get(e, Append(q, b))).None? && Joinless(Get(e, Append(p, a)))
    {
      TipBelow(op, e, p, a);
    }
  }

  lemma PairsSplitRight(op: Op, e: Expr, p: Path, q: Path)
    requires InShape(ShapeOf(op, e), q) && ShapeAt(ShapeOf(op, e), q).Fork?
    ensures PairsJoinless(op, e, p, q)
       <==> PairsJoinless(op, e, p, Append(q, Left(Here))) && PairsJoinless(op, e, p, Append(q, Right(Here)))
  {
    AppendAssociative(p, Here, Here);
    if PairsJoinless(op, e, p, q) {
      PairsBelow(op, e, p, q, Here, Left(Here));
      PairsBelow(op, e, p, q, Here, Right(Here));
    }
    if PairsJoinless(op, e, p, Append(q, Left(Here))) && PairsJoinless(op, e, p, Append(q, Right(Here))) {
      PairsJoinRight(op, e, p, q);
    }
  }

  lemma PairsJoinRight(op: Op, e: Expr, p: Path, q: Path)
    requires InShape(ShapeOf(op, e), q) && ShapeAt(ShapeOf(op, e), q).Fork?
    requires PairsJoinless(op, e, p, Append(q, Left(Here))) && PairsJoinless(op, e, p, Append(q, Right(Here)))
    ensures PairsJoinless(op, e, p, q)
  {
    forall a, b | IsTip(op, e, Append(p, a)) && IsTip(op, e, Append(q, b)) && Append(p, a) != Append(q, b)
      ensures JoinOperands(op, Get(e, Append(p, a)), Get(e, Append(q, b))).None? && Joinless(Get(e, Append(p, a)))
    {
      TipBelow(op, e, q, b);
    }
  }

  /** Below a fork every operand is reached by going left or right first. */
  lemma TipBelow(op: Op, e: Expr, p: Path, a: Path)
    requires InShape(ShapeOf(op, e), p) && ShapeAt(ShapeOf(op, e), p).Fork? && IsTip(op, e, Append(p, a))
    ensures a != Here
    ensures a.Left? ==> Append(p, a) == Append(Append(p, Left(Here)), a.next)
    ensures a.Right? ==> Append(p, a) == Append(Append(p, Right(Here)), a.next)
  {
    ShapeSlot(op, e, p);
    AppendAssociative(p, Left(Here), if a.Here? then a else a.next);
    AppendAssociative(p, Right(Here), if a.Here? then a else a.next);
  }

  ghost predicate IsSlot(op: Op, e: Expr, p: Path) {
    InShape(ShapeOf(op, e), p) && HasSlot(e, p)
  }

  ghost predicate PairsConsistent(op: Op, e: Expr, p: Path, q: Path) {
    forall a, b :: IsTip(op, e, Append(p, a)) && IsSlot(op, e, Append(q, b)) && Append(p, a) != Append(q, b) &&
                   Get(e, Append(p, a)).Bin? ==>
                     && !Contradicts(op, Get(e, Append(p, a)), Get(e, Append(q, b)))
                     && Consistent(Get(e, Append(p, a)))
  }

  lemma ConsistentSplitLeft(op: Op, e: Expr, p: Path, q: Path)
    requires InShape(ShapeOf(op, e), p) && ShapeAt(ShapeOf(op, e), p).Fork?
    ensures PairsConsistent(op, e, p, q)
       <==> PairsConsistent(op, e, Append(p, Left(Here)), q) && PairsConsistent(op, e, Append(p, Right(Here)), q)
  {
    AppendAssociative(q, Here, Here);
    if PairsConsistent(op, e, p, q) {
      ConsistentBelow(op, e, p, q, Left(Here), Here);
      ConsistentBelow(op, e, p, q, Right(Here), Here);
    }
    if PairsConsistent(op, e, Append(p, Left(Here)), q) && PairsConsistent(op, e, Append(p, Right(Here)), q) {
      ConsistentJoinLeft(op, e, p, q);
    }
  }

  lemma ConsistentBelow(op: Op, e: Expr, p: Path, q: Path, a: Path, b: Path)
    requires PairsConsistent(op, e, p, q)
    ensures PairsConsistent(op, e, Append(p, a), Append(q, b))
  {
    hide Contradicts, Consistent;
    forall a', b' | IsTip(op, e, Append(Append(p, a), a')) && IsSlot(op, e, Append(Append(q, b), b')) &&
                    Append(Append(p, a), a') != Append(Append(q, b), b') && Get(e, Append(Append(p, a), a')).Bin?
      ensures !Contradicts(op, Get(e, Append(Append(p, a), a')), Get(e, Append(Append(q, b), b')))
      ensures Consistent(Get(e, Append(Append(p, a), a')))
    {
      AppendAssociative(p, a, a');
      AppendAssociative(q, b, b');
    }
  }

  lemma ConsistentJoinLeft(op: Op, e: Expr, p: Path, q: Path)
    requires InShape(ShapeOf(op, e), p) && ShapeAt(ShapeOf(op, e), p).Fork?
    requires PairsConsistent(op, e, Append(p, Left(Here)), q) && PairsConsistent(op, e, Append(p, Right(Here)), q)
    ensures PairsConsistent(op, e, p, q)
  {
    forall a, b | IsTip(op, e, Append(p, a)) && IsSlot(op, e, Append(q, b)) && Append(p, a) != Append(q, b) &&
                  Get(e, Append(p, a)).Bin?
      ensures !Contradicts(op, Get(e, Append(p, a)), Get(e, Append(q, b))) && Consistent(Get(e, Append(p, a)))
    {
      TipBelow(op, e, p, a);
    }
  }

  lemma SlotBelow(op: Op, e: Expr, q: Path, b: Path)
    ensures Append(q, Here) == q
    ensures b.Left? ==> Append(q, b) == Append(Append(q, Left(Here)), b.next)
    ensures b.Right? ==> Append(q, b) == Append(Append(q, Right(Here)), b.next)
  {
    AppendAssociative(q, Left(Here), if b.Here? then b else b.next);
    AppendAssociative(q, Right(Here), if b.Here? then b else b.next);
  }

  /** The chain node `q` itself is compared after its two halves. */
  lemma ConsistentSplitRight(op: Op, e: Expr, p: Path, q: Path)
    requires IsTip(op, e, p) && IsSlot(op, e, q) && p != q
    ensures PairsConsistent(op, e, p, q)
       <==> && (ShapeAt(ShapeOf(op, e), q).Fork? ==>
                  PairsConsistent(op, e, p, Append(q, Left(Here))) && PairsConsistent(op, e, p, Append(q, Right(Here))))
            && (Get(e, p).Bin? ==> !Contradicts(op, Get(e, p), Get(e, q)) && Consistent(Get(e, p)))
  {
    AppendAssociative(p, Here, Here);
    AppendAssociative(q, Here, Here);
    if PairsConsistent(op, e, p, q) {
      ConsistentBelow(op, e, p, q, Here, Left(Here));
      ConsistentBelow(op, e, p, q, Here, Right(Here));
      if Get(e, p).Bin? { assert IsTip(op, e, Append(p, Here)) && IsSlot(op, e, Append(q, Here)); }
    } else if
      && (ShapeAt(ShapeOf(op, e), q).Fork? ==>
            PairsConsistent(op, e, p, Append(q, Left(Here))) && PairsConsistent(op, e, p, Append(q, Right(Here))))
      && (Get(e, p).Bin? ==> !Contradicts(op, Get(e, p), Get(e, q)) && Consistent(Get(e, p))) {
      ConsistentJoinRight(op, e, p, q);
    }
  }

  lemma ConsistentJoinRight(op: Op, e: Expr, p: Path, q: Path)
    requires IsTip(op, e, p) && IsSlot(op, e, q) && p != q
    requires ShapeAt(ShapeOf(op, e), q).Fork? ==>
               PairsConsistent(op, e, p, Append(q, Left(Here))) && PairsConsistent(op, e, p, Append(q, Right(Here)))
    requires Get(e, p).Bin? ==> !Contradicts(op, Get(e, p), Get(e, q)) && Consistent(Get(e, p))
    ensures PairsConsistent(op, e, p, q)
  {
    forall a, b | IsTip(op, e, Append(p, a)) && IsSlot(op, e, Append(q, b)) && Append(p, a) != Append(q, b) &&
                  Get(e, Append(p, a)).Bin?
      ensures !Contradicts(op, Get(e, Append(p, a)), Get(e, Append(q, b))) && Consistent(Get(e, Append(p, a)))
    {
      TipIsLast(op, e, p, a);
      SlotBelow(op, e, q, b);
      ShapeAppend(ShapeOf(op, e), q, b);
    }
  }

  lemma SameTipConsistent(op: Op, e: Expr, p: Path)
    requires IsTip(op, e, p)
    ensures PairsConsistent(op, e, p, p)
  {
    forall a, b | IsTip(op, e, Append(p, a)) && IsSlot(op, e, Append(p, b)) && Append(p, a) != Append(p, b)
      ensures false
    {
      TipIsLast(op, e, p, a);
      TipIsLast(op, e, p, b);
    }
  }

  lemma {:induction false} OperandConsistent(op: Op, e: Expr, a: Path)
    requires ConsistentOperands(op, e) && IsTip(op, e, a)
    ensures Consistent(Get(e, a))
  {
    match a
    case Here =>
    case Left(a') => OperandConsistent(op, e.l, a');
    case Right(a') => OperandConsistent(op, e.r, a');
  }

  lemma {:induction false} OperandsConsistent(op: Op, e: Expr)
    requires forall a :: IsTip(op, e, a) ==> Consistent(Get(e, a))
    ensures ConsistentOperands(op, e)
    decreases e
  {
    if IsBin(e, op) {
      forall a | IsTip(op, e.l, a) ensures Consistent(Get(e.l, a)) { assert IsTip(op, e, Left(a)); }
      forall a | IsTip(op, e.r, a) ensures Consistent(Get(e.r, a)) { assert IsTip(op, e, Right(a)); }
      OperandsConsistent(op, e.l);
      OperandsConsistent(op, e.r);
    } else {
      assert IsTip(op, e, Here);
    }
  }

  lemma ChainConsistent(op: Op, e: Expr)
    requires IsBin(e, op)
    ensures PairsConsistent(op, e, Here, Here) <==> Consistent(e)
  {
    if PairsConsistent(op, e, Here, Here) { ConsistentChain(op, e); }
    if Consistent(e) {
      forall a, b | IsTip(op, e, Append(Here, a)) && IsSlot(op, e, Append(Here, b)) &&
                    Append(Here, a) != Append(Here, b) && Get(e, Append(Here, a)).Bin?
        ensures !Contradicts(op, Get(e, Append(Here, a)), Get(e, Append(Here, b)))
        ensures Consistent(Get(e, Append(Here, a)))
      {
        OperandConsistent(op, e, a);
      }
    }
  }

  lemma ConsistentChain(op: Op, e: Expr)
    requires IsBin(e, op) && PairsConsistent(op, e, Here, Here)
    ensures Consistent(e)
  {
    forall p, q | IsTip(op, e, p) && Get(e, p).Bin? && IsSlot(op, e, q) && p != q
      ensures !Contradicts(op, Get(e, p), Get(e, q))
    {
      assert Append(Here, p) == p && Append(Here, q) == q;
    }
    forall p | IsTip(op, e, p) ensures Consistent(Get(e, p)) {
      var q := OtherTip(op, e, p);
      assert Append(Here, p) == p && Append(Here, q) == q;
      assert IsSlot(op, e, q);
    }
    OperandsConsistent(op, e);
  }

  /** Nothing of the chain lies below an operand. */
  lemma TipIsLast(op: Op, e: Expr, p: Path, a: Path)
    requires IsTip(op, e, p) && InShape(ShapeOf(op, e), Append(p, a))
    ensures a == Here && Append(p, a) == p
  {
    ShapeSlot(op, e, p);
    ShapeAppend(ShapeOf(op, e), p, a);
    AppendAssociative(p, Here, Here);
  }

  lemma StillTip(op: Op, e: Expr, e': Expr, p: Path)
    requires IsTip(op, e, p) && ShapeOf(op, e') == ShapeOf(op, e)
    ensures IsTip(op, e', p)
  {
    ShapeSlot(op, e, p);
    ShapeSlot(op, e', p);
  }

  lemma TipsJoinless(op: Op, e: Expr, p: Path, q: Path)
    requires IsTip(op, e, p) && IsTip(op, e, q)
    ensures PairsJoinless(op, e, p, q)
       <==> p == q || (JoinOperands(op, Get(e, p), Get(e, q)).None? && Joinless(Get(e, p)))
  {
    AppendAssociative(p, Here, Here);
    AppendAssociative(q, Here, Here);
    if PairsJoinless(op, e, p, q) && p != q {
      assert IsTip(op, e, Append(p, Here)) && IsTip(op, e, Append(q, Here));
    } else if p == q || (JoinOperands(op, Get(e, p), Get(e, q)).None? && Joinless(Get(e, p))) {
      TipPair(op, e, p, q);
    }
  }

  lemma TipPair(op: Op, e: Expr, p: Path, q: Path)
    requires IsTip(op, e, p) && IsTip(op, e, q)
    requires p != q ==> JoinOperands(op, Get(e, p), Get(e, q)).None? && Joinless(Get(e, p))
    ensures PairsJoinless(op, e, p, q)
  {
    forall a, b | IsTip(op, e, Append(p, a)) && IsTip(op, e, Append(q, b)) && Append(p, a) != Append(q, b)
      ensures JoinOperands(op, Get(e, Append(p, a)), Get(e, Append(q, b))).None? && Joinless(Get(e, Append(p, a)))
    {
      TipIsLast(op, e, p, a);
      TipIsLast(op, e, q, b);
    }
  }

  function FirstTip(op: Op, e: Expr): (p: Path)
    ensures IsTip(op, e, p)
  {
    if IsBin(e, op) then Left(FirstTip(op, e.l)) else Here
  }

  /** In a chain of at least two operands every operand has another one beside it. */
  lemma OtherTip(op: Op, e: Expr, p: Path) returns (q: Path)
    requires IsBin(e, op) && IsTip(op, e, p)
    ensures IsTip(op, e, q) && q != p
  {
    q := if p.Left? then Right(FirstTip(op, e.r)) else Left(FirstTip(op, e.l));
  }

  lemma {:induction false} OperandJoinless(op: Op, e: Expr, a: Path)
    requires JoinlessOperands(op, e) && IsTip(op, e, a)
    ensures Joinless(Get(e, a))
  {
    match a
    case Here =>
    case Left(a') => OperandJoinless(op, e.l, a');
    case Right(a') => OperandJoinless(op, e.r, a');
  }

  lemma {:induction false} OperandsJoinless(op: Op, e: Expr)
    requires forall a :: IsTip(op, e, a) ==> Joinless(Get(e, a))
    ensures JoinlessOperands(op, e)
    decreases e
  {
    if IsBin(e, op) {
      forall a | IsTip(op, e.l, a) ensures Joinless(Get(e.l, a)) { assert IsTip(op, e, Left(a)); }
      forall a | IsTip(op, e.r, a) ensures Joinless(Get(e.r, a)) { assert IsTip(op, e, Right(a)); }
      OperandsJoinless(op, e.l);
      OperandsJoinless(op, e.r);
    } else {
      assert IsTip(op, e, Here);
    }
  }

  lemma ChainJoinless(op: Op, e: Expr)
    requires IsBin(e, op)
    ensures PairsJoinless(op, e, Here, Here) <==> Joinless(e)
  {
    if PairsJoinless(op, e, Here, Here) { JoinlessChain(op, e); }
    if Joinless(e) {
      forall a, b | IsTip(op, e, Append(Here, a)) && IsTip(op, e, Append(Here, b)) && Append(Here, a) != Append(Here, b)
        ensures JoinOperands(op, Get(e, Append(Here, a)), Get(e, Append(Here, b))).None?
        ensures Joinless(Get(e, Append(Here, a)))
      {
        OperandJoinless(op, e, a);
      }
    }
  }

  lemma JoinlessChain(op: Op, e: Expr)
    requires IsBin(e, op) && PairsJoinless(op, e, Here, Here)
    ensures Joinless(e)
  {
    forall p, q | IsTip(op, e, p) && IsTip(op, e, q) && p != q
      ensures JoinOperands(op, Get(e, p), Get(e, q)).None?
    {
      assert Append(Here, p) == p && Append(Here, q) == q;
    }
    forall p | IsTip(op, e, p) ensures Joinless(Get(e, p)) {
      var q := OtherTip(op, e, p);
      assert Append(Here, p) == p && Append(Here, q) == q;
    }
    OperandsJoinless(op, e);
  }

  // ----- measures -----

  /** How far two slots still are from single operands. */
  ghost function Pairs(s: Shape, p: Path, q: Path): nat
    requires InShape(s, p) && InShape(s, q)
  {
    Forks(ShapeAt(s, p)) + Forks(ShapeAt(s, q))
  }

  lemma HalvesFall(s: Shape, p: Path)
    requires InShape(s, p) && ShapeAt(s, p).Fork?
    ensures InShape(s, Append(p, Left(Here))) && InShape(s, Append(p, Right(Here)))
    ensures Forks(ShapeAt(s, Append(p, Left(Here)))) < Forks(ShapeAt(s, p))
    ensures Forks(ShapeAt(s, Append(p, Right(Here)))) < Forks(ShapeAt(s, p))
  {
    ShapeAppend(s, p, Left(Here));
    ShapeAppend(s, p, Right(Here));
  }

  /** A slot of the chain at `t`, seen from the chain and from the root. */
  lemma ChainSlot(op: Op, t: Path, p: Path, r: Expr)
    requires HasSlot(r, t) && InShape(ShapeOf(op, Get(r, t)), p)
    ensures HasSlot(Get(r, t), p) && HasSlot(r, Append(t, p))
    ensures Get(r, Append(t, p)) == Get(Get(r, t), p)
    ensures ShapeAt(ShapeOf(op, Get(r, t)), p) == ShapeOf(op, Get(r, Append(t, p)))
  {
    ShapeSlot(op, Get(r, t), p);
    GetAppend(r, t, p);
  }

  /** Over symbols that are never 'm', sharpening is equality of value. */
  lemma SharpensCrisp(env: Env, e: Expr, e': Expr)
    requires ValidEnv(env) && Sharpens(e, e') && Crisp(env, e)
    ensures Value(env, e') == Value(env, e)
  {
    CrispIsDefinite(env, e);
  }
}
