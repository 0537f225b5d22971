/** Structural equality of Kconfig expressions by common-operand elimination, and extraction of the
    common operands (scripts/kconfig/expr.c: expr_eq, __expr_eliminate_eq, expr_eliminate_eq,
    expr_extract_eq). */
module KconfigEq {
  import opened Wrappers
  import opened KconfigExpr

  // ----- the mutually recursive pair -----

  /** expr_eq: AND and OR trees are equal when elimination leaves the same symbol on both sides. */
  predicate Eq(e1: Expr, e2: Expr)
    decreases Size(e1) + Size(e2), 2
  {
    match (e1, e2)
    case (Equal(a1, b1), Equal(a2, b2)) => a1 == a2 && b1 == b2
    case (Unequal(a1, b1), Unequal(a2, b2)) => a1 == a2 && b1 == b2
    case (Sym(s1), Sym(s2)) => s1 == s2
    case (Not(a1), Not(a2)) => Eq(a1, a2)
    case (Bin(op1, _, _), Bin(op2, _, _)) =>
      op1 == op2 &&
      var (r1, r2) := EliminateEq(e1, e2);
      r1.Sym? && r2.Sym? && r1.sym == r2.sym
    case _ => false
  }

  /** __expr_eliminate_eq: every pair of equal operands of the two `op` trees becomes neutral. */
  function EliminatePairs(op: Op, e1: Expr, e2: Expr): (r: (Expr, Expr))
    ensures Size(r.0) <= Size(e1) && Size(r.1) <= Size(e2)
    ensures e1.Bin? && IsBin(e1, op) ==> IsBin(r.0, op)
    ensures e2.Bin? && IsBin(e2, op) ==> IsBin(r.1, op)
    decreases Size(e1) + Size(e2), if IsBin(e1, op) || IsBin(e2, op) then 0 else 3
  {
    if IsBin(e1, op) then
      var (l, e2') := EliminatePairs(op, e1.l, e2);
      var (r, e2'') := EliminatePairs(op, e1.r, e2');
      (Bin(op, l, r), e2'')
    else if IsBin(e2, op) then
      var (e1', l) := EliminatePairs(op, e1, e2.l);
      var (e1'', r) := EliminatePairs(op, e1', e2.r);
      (e1'', Bin(op, l, r))
    else if e1 == e2 && IsYn(e1) then (e1, e2)
    else if Eq(e1, e2) then (Neutral(op), Neutral(op))
    else (e1, e2)
  }

  /** expr_eliminate_eq: eliminate under the first operator, then under the second's if it differs. */
  function EliminateEq(e1: Expr, e2: Expr): (r: (Expr, Expr))
    ensures Size(r.0) <= Size(e1) && Size(r.1) <= Size(e2)
    decreases Size(e1) + Size(e2), 1
  {
    var (a1, a2) := if e1.Bin? then EliminatePairs(e1.op, e1, e2) else (e1, e2);
    var (b1, b2) := if a2.Bin? && !IsBin(a1, a2.op) then EliminatePairs(a2.op, a1, a2) else (a1, a2);
    EliminateYnLeaves(b1);
    EliminateYnLeaves(b2);
    (EliminateYn(b1), EliminateYn(b2))
  }

  // ----- soundness: residues and one common part -----

  /** Two eliminations in a row, against the two operands of `split`, remove one combined value. */
  lemma Combine(env: Env, op: Op, split: Expr, halves: (Expr, Expr), e: Expr, e': Expr, e'': Expr, c1: Tri, c2: Tri)
    returns (c: Tri)
    requires IsBin(split, op)
    requires Value(env, split.l) == Apply(op, Value(env, halves.0), c1)
    requires Value(env, split.r) == Apply(op, Value(env, halves.1), c2)
    requires Value(env, e) == Apply(op, Value(env, e'), c1)
    requires Value(env, e') == Apply(op, Value(env, e''), c2)
    ensures c == Apply(op, c1, c2)
    ensures Value(env, split) == Apply(op, Value(env, Bin(op, halves.0, halves.1)), c)
    ensures Value(env, e) == Apply(op, Value(env, e''), c)
  {
    c := Apply(op, c1, c2);
    var a, b := Value(env, halves.0), Value(env, halves.1);
    ApplyInterchange(op, a, c1, b, c2);
    ApplyAssociative(op, Value(env, e''), c2, c1);
    ApplyAssociative(op, c2, c1, c1);
  }

  /** What was removed from the two sides is one common value `c`. */
  lemma {:induction false} EliminatePairsResidue(env: Env, op: Op, e1: Expr, e2: Expr) returns (c: Tri)
    requires ValidEnv(env)
    ensures Value(env, e1) == Apply(op, Value(env, EliminatePairs(op, e1, e2).0), c)
    ensures Value(env, e2) == Apply(op, Value(env, EliminatePairs(op, e1, e2).1), c)
    decreases Size(e1) + Size(e2), if IsBin(e1, op) || IsBin(e2, op) then 0 else 3
  {
    c := Value(env, Neutral(op));
    if IsBin(e1, op) {
      var (l, e2') := EliminatePairs(op, e1.l, e2);
      var (r, e2'') := EliminatePairs(op, e1.r, e2');
      var c1 := EliminatePairsResidue(env, op, e1.l, e2);
      var c2 := EliminatePairsResidue(env, op, e1.r, e2');
      c := Combine(env, op, e1, (l, r), e2, e2', e2'', c1, c2);
    } else if IsBin(e2, op) {
      var (e1', l) := EliminatePairs(op, e1, e2.l);
      var (e1'', r) := EliminatePairs(op, e1', e2.r);
      var c1 := EliminatePairsResidue(env, op, e1, e2.l);
      var c2 := EliminatePairsResidue(env, op, e1', e2.r);
      c := Combine(env, op, e2, (l, r), e1, e1', e1'', c1, c2);
    } else if !(e1 == e2 && IsYn(e1)) && Eq(e1, e2) {
      EqValue(env, e1, e2);
      c := Value(env, e1);
    }
  }

  /** expr_eq never confuses two expressions of different value, in any tristate environment. */
  lemma {:induction false} EqValue(env: Env, e1: Expr, e2: Expr)
    requires ValidEnv(env) && Eq(e1, e2)
    ensures Value(env, e1) == Value(env, e2)
    decreases Size(e1) + Size(e2), 2
  {
    match e1
    case Not(a1) => EqValue(env, a1, e2.arg);
    case Bin(op, _, _) =>
      var r := EliminatePairs(op, e1, e2);
      var c := EliminatePairsResidue(env, op, e1, e2);
      EliminateYnValue(env, r.0);
      EliminateYnValue(env, r.1);
    case _ =>
  }

  lemma EqMeaning(e1: Expr, e2: Expr)
    requires Eq(e1, e2)
    ensures SameMeaning(e1, e2)
  {
    forall env: Env | ValidEnv(env) ensures Value(env, e1) == Value(env, e2) {
      EqValue(env, e1, e2);
    }
  }

  /** expr_eliminate_eq on any two expressions: if the second is reduced to 'y' by removing what it
      shares with the first, the first is at most the second. */
  lemma {:induction false} EliminateEqImplies(env: Env, e1: Expr, e2: Expr)
    requires ValidEnv(env)
    requires EliminateEq(e1, e2).1 == YES
    requires Value(env, e1) != 0
    ensures Value(env, e2) != 0
  {
    var (a1, a2) := if e1.Bin? then EliminatePairs(e1.op, e1, e2) else (e1, e2);
    var (b1, b2) := if a2.Bin? && !IsBin(a1, a2.op) then EliminatePairs(a2.op, a1, a2) else (a1, a2);
    EliminateYnValue(env, b2);
    assert Value(env, b2) == 2;
    if a2.Bin? && !IsBin(a1, a2.op) {
      var c := EliminatePairsResidue(env, a2.op, a1, a2);
    }
    if e1.Bin? {
      var c := EliminatePairsResidue(env, e1.op, e1, e2);
    }
  }

  // ----- completeness: no equal pair is left -----

  /** The operands of an `op` tree. */
  function Operands(op: Op, e: Expr): (s: seq<Expr>)
    ensures |s| >= 1
  {
    if IsBin(e, op) then Operands(op, e.l) + Operands(op, e.r) else [e]
  }

  /** No operand of `e1` equals an operand of `e2`, the literals 'y' and 'n' aside. */
  ghost predicate NoCommonOperand(op: Op, e1: Expr, e2: Expr) {
    forall x, y :: x in Operands(op, e1) && y in Operands(op, e2) && Eq(x, y) ==> IsYn(x)
  }

  /** Elimination only ever replaces operands by the neutral literal. */
  lemma {:induction false} EliminatePairsOperands(op: Op, e1: Expr, e2: Expr)
    ensures forall x :: x in Operands(op, EliminatePairs(op, e1, e2).0) ==> x in Operands(op, e1) || x == Neutral(op)
    ensures forall x :: x in Operands(op, EliminatePairs(op, e1, e2).1) ==> x in Operands(op, e2) || x == Neutral(op)
    decreases Size(e1) + Size(e2)
  {
    if IsBin(e1, op) {
      EliminatePairsOperands(op, e1.l, e2);
      EliminatePairsOperands(op, e1.r, EliminatePairs(op, e1.l, e2).1);
    } else if IsBin(e2, op) {
      EliminatePairsOperands(op, e1, e2.l);
      EliminatePairsOperands(op, EliminatePairs(op, e1, e2.l).0, e2.r);
    }
  }

  /** After elimination the two sides share no operand. */
  lemma {:induction false} EliminatePairsComplete(op: Op, e1: Expr, e2: Expr)
    ensures NoCommonOperand(op, EliminatePairs(op, e1, e2).0, EliminatePairs(op, e1, e2).1)
    decreases Size(e1) + Size(e2)
  {
    if IsBin(e1, op) {
      EliminatePairsComplete(op, e1.l, e2);
      EliminatePairsComplete(op, e1.r, EliminatePairs(op, e1.l, e2).1);
      EliminatePairsOperands(op, e1.r, EliminatePairs(op, e1.l, e2).1);
    } else if IsBin(e2, op) {
      EliminatePairsComplete(op, e1, e2.l);
      EliminatePairsComplete(op, EliminatePairs(op, e1, e2.l).0, e2.r);
      EliminatePairsOperands(op, EliminatePairs(op, e1, e2.l).0, e2.r);
    }
  }

  // ----- extraction of the common part (expr_extract_eq) -----

  datatype Extraction = Extraction(common: Option<Expr>, e1: Expr, e2: Expr)

  function Join(op: Op, acc: Option<Expr>, e: Expr): Expr {
    if acc.Some? then Bin(op, acc.value, e) else e
  }

  /** Moves every pair of equal operands into the accumulator. */
  function ExtractEq(op: Op, acc: Option<Expr>, e1: Expr, e2: Expr): (x: Extraction)
    ensures Size(x.e1) <= Size(e1) && Size(x.e2) <= Size(e2)
    decreases Size(e1) + Size(e2)
  {
    if IsBin(e1, op) then
      var x := ExtractEq(op, acc, e1.l, e2);
      var y := ExtractEq(op, x.common, e1.r, x.e2);
      Extraction(y.common, Bin(op, x.e1, y.e1), y.e2)
    else if IsBin(e2, op) then
      var x := ExtractEq(op, acc, e1, e2.l);
      var y := ExtractEq(op, x.common, x.e1, e2.r);
      Extraction(y.common, y.e1, Bin(op, x.e2, y.e2))
    else if Eq(e1, e2) then Extraction(Some(Join(op, acc, e1)), Neutral(op), Neutral(op))
    else Extraction(acc, e1, e2)
  }

  /** expr_extract_eq_and, expr_extract_eq_or */
  function ExtractCommon(op: Op, e1: Expr, e2: Expr): Extraction {
    var x := ExtractEq(op, None, e1, e2);
    if x.common.Some? then Extraction(x.common, EliminateYn(x.e1), EliminateYn(x.e2)) else x
  }

  function CommonValue(env: Env, op: Op, acc: Option<Expr>): Tri
    requires ValidEnv(env)
  {
    if acc.Some? then Value(env, acc.value) else Value(env, Neutral(op))
  }

  /** The accumulator grows by exactly the common value removed from both sides. */
  lemma {:induction false} ExtractEqValue(env: Env, op: Op, acc: Option<Expr>, e1: Expr, e2: Expr) returns (c: Tri)
    requires ValidEnv(env)
    ensures Value(env, e1) == Apply(op, Value(env, ExtractEq(op, acc, e1, e2).e1), c)
    ensures Value(env, e2) == Apply(op, Value(env, ExtractEq(op, acc, e1, e2).e2), c)
    ensures CommonValue(env, op, ExtractEq(op, acc, e1, e2).common) == Apply(op, CommonValue(env, op, acc), c)
    decreases Size(e1) + Size(e2)
  {
    c := Value(env, Neutral(op));
    if IsBin(e1, op) {
      var x := ExtractEq(op, acc, e1.l, e2);
      var y := ExtractEq(op, x.common, e1.r, x.e2);
      var c1 := ExtractEqValue(env, op, acc, e1.l, e2);
      var c2 := ExtractEqValue(env, op, x.common, e1.r, x.e2);
      c := Combine(env, op, e1, (x.e1, y.e1), e2, x.e2, y.e2, c1, c2);
      ApplyAssociative(op, CommonValue(env, op, acc), c1, c2);
    } else if IsBin(e2, op) {
      var x := ExtractEq(op, acc, e1, e2.l);
      var y := ExtractEq(op, x.common, x.e1, e2.r);
      var c1 := ExtractEqValue(env, op, acc, e1, e2.l);
      var c2 := ExtractEqValue(env, op, x.common, x.e1, e2.r);
      c := Combine(env, op, e2, (x.e2, y.e2), e1, x.e1, y.e1, c1, c2);
      ApplyAssociative(op, CommonValue(env, op, acc), c1, c2);
    } else if Eq(e1, e2) {
      EqValue(env, e1, e2);
      c := Value(env, e1);
    }
  }

  /** Taking the common part out of two expressions keeps both: each equals its residue combined
      with the common part. */
  lemma {:induction false} ExtractCommonValue(env: Env, op: Op, e1: Expr, e2: Expr)
    requires ValidEnv(env)
    ensures var x := ExtractCommon(op, e1, e2);
            && Value(env, e1) == Apply(op, Value(env, x.e1), CommonValue(env, op, x.common))
            && Value(env, e2) == Apply(op, Value(env, x.e2), CommonValue(env, op, x.common))
  {
    var x := ExtractEq(op, None, e1, e2);
    var c := ExtractEqValue(env, op, None, e1, e2);
    EliminateYnValue(env, x.e1);
    EliminateYnValue(env, x.e2);
  }
}
