/** Negation pushing and boolean-comparison simplification (scripts/kconfig/expr.c: expr_transform),
    and comparison of a whole expression with 'y' or 'n' (expr_trans_compare). */
module KconfigTransform {
  import opened KconfigExpr

  /** De Morgan doubles the NOTs and transforms operands that were transformed before, so neither
      depth nor size falls; a NOT that doubles its operand's weight pays for both. */
  function Weight(e: Expr): (n: nat)
    ensures n >= 1
  {
    match e
    case Sym(_) => 1
    case Equal(_, _) => 2
    case Unequal(_, _) => 2
    case Not(a) => 2 * Weight(a)
    case Bin(_, l, r) => 1 + Weight(l) + Weight(r)
  }

  lemma DeMorganWeight(op: Op, l: Expr, r: Expr)
    ensures Weight(Bin(Dual(op), Not(l), Not(r))) < 2 * Weight(Bin(op, l, r))
  {
    assert Weight(Not(l)) == 2 * Weight(l) && Weight(Not(r)) == 2 * Weight(r);
  }

  predicate IsTristateConstant(s: Symbol) {
    s == SYMBOL_YES || s == SYMBOL_MOD || s == SYMBOL_NO
  }

  function Transform(e: Expr): (r: Expr)
    ensures Weight(r) <= Weight(e)
    decreases Weight(e)
  {
    match e
    case Sym(_) => e
    case Equal(s1, s2) =>
      if !s1.Type().Boolean? then e
      else if s2 == SYMBOL_NO then Not(Sym(s1))
      else if s2 == SYMBOL_MOD then NO
      else if s2 == SYMBOL_YES then Sym(s1)
      else e
    case Unequal(s1, s2) =>
      if !s1.Type().Boolean? then e
      else if s2 == SYMBOL_NO then Sym(s1)
      else if s2 == SYMBOL_MOD then YES
      else if s2 == SYMBOL_YES then Not(Sym(s1))
      else e
    case Bin(op, l, r) => Bin(op, Transform(l), Transform(r))
    case Not(a) =>
      match Transform(a)
      case Not(x) => Transform(x)
      case Equal(s1, s2) => Unequal(s1, s2)
      case Unequal(s1, s2) => Equal(s1, s2)
      case Bin(op, l, r) =>
        DeMorganWeight(op, l, r);
        Transform(Bin(Dual(op), Not(l), Not(r)))
      case Sym(s) =>
        if s == SYMBOL_YES then NO
        else if s == SYMBOL_MOD then Sym(SYMBOL_MOD)
        else if s == SYMBOL_NO then YES
        else Not(Sym(s))
  }

  /** NOT only directly above a symbol that is not 'y', 'm' or 'n', and no boolean compared with them. */
  predicate Normal(e: Expr) {
    match e
    case Sym(_) => true
    case Equal(s1, s2) => s1.Type().Boolean? ==> !IsTristateConstant(s2)
    case Unequal(s1, s2) => s1.Type().Boolean? ==> !IsTristateConstant(s2)
    case Not(a) => a.Sym? && !IsTristateConstant(a.sym)
    case Bin(_, l, r) => Normal(l) && Normal(r)
  }

  lemma {:induction false} TransformValue(env: Env, e: Expr)
    requires ValidEnv(env)
    ensures Value(env, Transform(e)) == Value(env, e)
    decreases Weight(e)
  {
    match e
    case Sym(_) =>
    case Equal(s1, s2) =>
      assert env(SYMBOL_NO).text == "n" && env(SYMBOL_MOD).text == "m" && env(SYMBOL_YES).text == "y";
    case Unequal(s1, s2) =>
      assert env(SYMBOL_NO).text == "n" && env(SYMBOL_MOD).text == "m" && env(SYMBOL_YES).text == "y";
    case Bin(_, l, r) => TransformValue(env, l); TransformValue(env, r);
    case Not(a) =>
      TransformValue(env, a);
      match Transform(a)
      case Not(x) => TransformValue(env, x);
      case Bin(op, l, r) =>
        DeMorganWeight(op, l, r);
        TransformValue(env, Bin(Dual(op), Not(l), Not(r)));
      case _ =>
  }

  lemma TransformMeaning(e: Expr)
    ensures SameMeaning(e, Transform(e))
  {
    forall env: Env | ValidEnv(env) ensures Value(env, e) == Value(env, Transform(e)) {
      TransformValue(env, e);
    }
  }

  lemma {:induction false} TransformNormal(e: Expr)
    ensures Normal(Transform(e))
    decreases Weight(e)
  {
    match e
    case Sym(_) =>
    case Equal(_, _) =>
    case Unequal(_, _) =>
    case Bin(_, l, r) => TransformNormal(l); TransformNormal(r);
    case Not(a) =>
      TransformNormal(a);
      match Transform(a)
      case Not(x) => TransformNormal(x);
      case Bin(op, l, r) =>
        DeMorganWeight(op, l, r);
        TransformNormal(Bin(Dual(op), Not(l), Not(r)));
      case _ =>
  }

  lemma {:induction false} NormalFixed(e: Expr)
    requires Normal(e)
    ensures Transform(e) == e
  {
    match e
    case Bin(_, l, r) => NormalFixed(l); NormalFixed(r);
    case _ =>
  }

  /** A second expr_transform never changes anything. */
  lemma TransformIdempotent(e: Expr)
    ensures Transform(Transform(e)) == Transform(e)
  {
    TransformNormal(e);
    NormalFixed(Transform(e));
  }

  /** The same in one walk: NOTs are counted on the way down, and a comparison of a boolean with 'y', 'm' or 'n' is
      read off the symbol. */
  function Pushed(e: Expr, negated: bool): Expr {
    match e
    case Sym(s) => Signed(s, negated)
    case Equal(s1, s2) => Tested(s1, s2, negated)
    case Unequal(s1, s2) => Tested(s1, s2, !negated)
    case Not(a) => Pushed(a, !negated)
    case Bin(op, l, r) => Bin(if negated then Dual(op) else op, Pushed(l, negated), Pushed(r, negated))
  }

  function Signed(s: Symbol, negated: bool): Expr {
    if !negated then Sym(s)
    else if s == SYMBOL_YES then NO
    else if s == SYMBOL_NO then YES
    else if s == SYMBOL_MOD then Sym(s)
    else Not(Sym(s))
  }

  /** s1 = s2, or s1 != s2 */
  function Tested(s1: Symbol, s2: Symbol, differs: bool): Expr {
    if !s1.Type().Boolean? || !IsTristateConstant(s2) then if differs then Unequal(s1, s2) else Equal(s1, s2)
    else if s2 == SYMBOL_MOD then Signed(SYMBOL_NO, differs)
    else Signed(s1, (s2 == SYMBOL_NO) != differs)
  }

  /** expr_transform, which rewrites and transforms again until nothing changes, is this walk. */
  lemma {:induction false} TransformPushes(e: Expr)
    ensures Transform(e) == Pushed(e, false)
    decreases e
  {
    match e
    case Bin(_, l, r) => TransformPushes(l); TransformPushes(r);
    case Not(a) =>
      TransformPushes(a);
      PushedNormal(a, false);
      NormalFixed(Transform(a));
      SameNegation(a, Transform(a));
      Negates(Transform(a));
      PushedTwice(a, false);
    case _ =>
  }

  lemma SameNegation(a: Expr, b: Expr)
    requires Transform(a) == Transform(b)
    ensures Transform(Not(a)) == Transform(Not(b))
  {
  }

  lemma {:induction false} PushedNormal(e: Expr, negated: bool)
    ensures Normal(Pushed(e, negated))
  {
    match e
    case Not(a) => PushedNormal(a, !negated);
    case Bin(_, l, r) => PushedNormal(l, negated); PushedNormal(r, negated);
    case _ =>
  }

  /** Negating a normal expression. */
  lemma {:induction false} Negates(e: Expr)
    requires Normal(e)
    ensures Transform(Not(e)) == Pushed(e, true)
  {
    NormalFixed(e);
    match e
    case Bin(op, l, r) =>
      Negates(l);
      Negates(r);
      DeMorganWeight(op, l, r);
    case _ =>
  }

  /** A walk over what a walk has made. */
  lemma {:induction false} PushedTwice(e: Expr, negated: bool)
    ensures Pushed(Pushed(e, negated), true) == Pushed(e, !negated)
  {
    match e
    case Not(a) => PushedTwice(a, !negated);
    case Bin(_, l, r) => PushedTwice(l, negated); PushedTwice(r, negated);
    case _ =>
  }

  // ----- expr_trans_compare against 'y' and 'n' -----

  datatype Comparison = Is | IsNot

  /** `e = sym` or `e != sym` pushed down to the symbols, for sym 'y' (yes) or 'n' (!yes). */
  function Compare(e: Expr, cmp: Comparison, yes: bool): Expr {
    var sym := if yes then SYMBOL_YES else SYMBOL_NO;
    match e
    case Bin(op, l, r) =>
      var both := Bin(if yes then op else Dual(op), Compare(l, Is, yes), Compare(r, Is, yes));
      if cmp == IsNot then Not(both) else both
    case Not(a) => Compare(a, if cmp == Is then IsNot else Is, yes)
    case Sym(s) => if cmp == Is then Equal(s, sym) else Unequal(s, sym)
    case _ => if (cmp == Is) == yes then e else Not(e)
  }

  /** What `e = sym`, `e != sym` should say of a value. */
  function Holds(v: Tri, cmp: Comparison, yes: bool): Tri {
    if (v == if yes then 2 else 0) == (cmp == Is) then 2 else 0
  }

  /** Every operand that is a plain symbol is a boolean one. */
  predicate BooleanOperands(e: Expr) {
    match e
    case Sym(s) => s.Type().Boolean?
    case Not(a) => BooleanOperands(a)
    case Bin(_, l, r) => BooleanOperands(l) && BooleanOperands(r)
    case _ => true
  }

  lemma {:induction false} ComparedPushes(e: Expr, cmp: Comparison, yes: bool, negated: bool)
    requires BooleanOperands(e)
    ensures Pushed(Compare(e, cmp, yes), negated) == Pushed(e, ((cmp == Is) == yes) == negated)
  {
    match e
    case Not(a) => ComparedPushes(a, if cmp == Is then IsNot else Is, yes, negated);
    case Bin(_, l, r) =>
      ComparedPushes(l, Is, yes, negated != (cmp == IsNot));
      ComparedPushes(r, Is, yes, negated != (cmp == IsNot));
    case _ =>
  }

  /** Over booleans a comparison disappears again in expr_transform: `e = y` and `e != n` become e, `e = n` and `e != y`
      its negation. */
  lemma ComparisonUndone(e: Expr, cmp: Comparison, yes: bool)
    requires BooleanOperands(e)
    ensures Transform(Compare(e, cmp, yes)) == Transform(if (cmp == Is) == yes then e else Not(e))
  {
    TransformPushes(Compare(e, cmp, yes));
    TransformPushes(if (cmp == Is) == yes then e else Not(e));
    ComparedPushes(e, cmp, yes, false);
  }

  /** Every symbol read as an operand prints as its tristate value. */
  ghost predicate TristateOperands(e: Expr) {
    match e
    case Sym(s) => s.Type().Boolean? || s.Type().Tristate? || s == SYMBOL_YES || s == SYMBOL_NO || s == SYMBOL_MOD
    case Equal(_, _) => true
    case Unequal(_, _) => true
    case Not(a) => TristateOperands(a)
    case Bin(_, l, r) => TristateOperands(l) && TristateOperands(r)
  }

  /** No NOT stands above an AND, OR or symbol. */
  predicate Positive(e: Expr) {
    match e
    case Not(a) => a.Equal? || a.Unequal?
    case Bin(_, l, r) => Positive(l) && Positive(r)
    case _ => true
  }

  /** The comparison is right wherever the expression itself is definite... */
  lemma {:induction false} CompareDefinite(env: Env, e: Expr, cmp: Comparison, yes: bool)
    requires ValidEnv(env) && TristateOperands(e)
    requires Value(env, e) != 1
    ensures Value(env, Compare(e, cmp, yes)) == Holds(Value(env, e), cmp, yes)
  {
    CompareBinary(env, e, cmp, yes);
    match e
    case Bin(op, l, r) =>
      CompareBinary(env, l, Is, yes);
      CompareBinary(env, r, Is, yes);
      if Value(env, l) != 1 { CompareDefinite(env, l, Is, yes); }
      if Value(env, r) != 1 { CompareDefinite(env, r, Is, yes); }
    case Not(a) => CompareDefinite(env, a, if cmp == Is then IsNot else Is, yes);
    case Sym(s) => assert env(SYMBOL_NO).text == "n" && env(SYMBOL_MOD).text == "m" && env(SYMBOL_YES).text == "y";
    case _ =>
  }

  lemma CompareBinary(env: Env, e: Expr, cmp: Comparison, yes: bool)
    requires ValidEnv(env)
    ensures Value(env, Compare(e, cmp, yes)) != 1
  {
  }

  /** ... and without a NOT above operands it is right at 'm' as well. */
  lemma {:induction false} ComparePositive(env: Env, e: Expr, cmp: Comparison, yes: bool)
    requires ValidEnv(env) && TristateOperands(e) && Positive(e)
    ensures Value(env, Compare(e, cmp, yes)) == Holds(Value(env, e), cmp, yes)
  {
    match e
    case Bin(op, l, r) => ComparePositive(env, l, Is, yes); ComparePositive(env, r, Is, yes);
    case Sym(s) => assert env(SYMBOL_NO).text == "n" && env(SYMBOL_MOD).text == "m" && env(SYMBOL_YES).text == "y";
    case _ =>
  }

  ghost predicate ComparesRight(env: Env, e: Expr, cmp: Comparison, yes: bool) {
    Value(env, Compare(e, cmp, yes)) == Holds(Value(env, e), cmp, yes)
  }

  /** The NOT rule: it is right where the expression below is definite, and at 'm' exactly where the comparison
      of that expression is wrong. So one NOT above a rightly compared 'm' goes wrong, and a second NOT puts it
      right again. */
  lemma CompareNotExact(env: Env, a: Expr, cmp: Comparison, yes: bool)
    requires ValidEnv(env) && TristateOperands(a)
    ensures ComparesRight(env, Not(a), cmp, yes)
       <==> Value(env, a) != 1 || !ComparesRight(env, a, if cmp == Is then IsNot else Is, yes)
  {
    CompareBinary(env, a, if cmp == Is then IsNot else Is, yes);
    if Value(env, a) != 1 { CompareDefinite(env, Not(a), cmp, yes); }
  }

  /** The two-valued reading in which every operand that is 'm' counts as 'y' (up) or as 'n'. */
  function Rounded(env: Env, e: Expr, up: bool): Tri {
    match e
    case Sym(s) => if env(s).tri == 1 then (if up then 2 else 0) else env(s).tri
    case Not(a) => 2 - Rounded(env, a, up)
    case Bin(op, l, r) => Apply(op, Rounded(env, l, up), Rounded(env, r, up))
    case _ => Value(env, e)
  }

  /** What expr_trans_compare really asks: a comparison with 'n' takes every 'm' for 'y', one with 'y' takes it
      for 'n'. */
  lemma {:induction false} CompareRounds(env: Env, e: Expr, cmp: Comparison, yes: bool)
    requires ValidEnv(env) && TristateOperands(e)
    ensures Value(env, Compare(e, cmp, yes)) == Holds(Rounded(env, e, !yes), cmp, yes)
    ensures Rounded(env, e, !yes) != 1
  {
    match e
    case Bin(op, l, r) =>
      CompareRounds(env, l, Is, yes);
      CompareRounds(env, r, Is, yes);
    case Not(a) => CompareRounds(env, a, if cmp == Is then IsNot else Is, yes);
    case Sym(s) => assert env(SYMBOL_NO).text == "n" && env(SYMBOL_MOD).text == "m" && env(SYMBOL_YES).text == "y";
    case _ =>
  }

  /** The exact condition, for every expression: the comparison is wrong only of an expression that is 'm' and that this
      reading takes for the value compared with. */
  lemma CompareExact(env: Env, e: Expr, cmp: Comparison, yes: bool)
    requires ValidEnv(env) && TristateOperands(e)
    ensures ComparesRight(env, e, cmp, yes) <==> Value(env, e) != 1 || Rounded(env, e, !yes) != if yes then 2 else 0
  {
    CompareRounds(env, e, cmp, yes);
    if Value(env, e) != 1 { CompareDefinite(env, e, cmp, yes); }
  }
}
