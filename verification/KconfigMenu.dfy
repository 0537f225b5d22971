/** When menu_finalize (scripts/kconfig/menu.c) pulls an entry under the symbol in front of it, and what that means
    (scripts/kconfig/expr.c: expr_contains_symbol, expr_depends_symbol). */
module KconfigMenu {
  import opened Wrappers
  import opened KconfigExpr
  import opened KconfigEq
  import opened KconfigTransform
  import opened KconfigDups
  import opened KconfigPasses
  import opened KconfigRewriter

  /** `dep` and a prompt's visibility may be absent, which means 'y'. Both are as propagation into the enclosing block
      left them. A block is an entry that the parser gave a list of its own, and nothing is pulled under it. */
  datatype Entry = Entry(sym: Option<Symbol>, block: bool, prompt: Option<Option<Expr>>, dep: Option<Expr>) {
    function Dependency(): Option<Expr> {
      if prompt.Some? then prompt.value else dep
    }

    function PromptDependency(): Option<Expr> {
      if prompt.Some? then prompt.value else None
    }
  }

  function ValueOf(env: Env, e: Option<Expr>): Tri {
    if e.Some? then Value(env, e.value) else 2
  }

  predicate Contains(e: Expr, s: Symbol) {
    match e
    case Sym(x) => x == s
    case Equal(x, y) => x == s || y == s
    case Unequal(x, y) => x == s || y == s
    case Not(a) => Contains(a, s)
    case Bin(_, l, r) => Contains(l, s) || Contains(r, s)
  }

  predicate Depends(e: Expr, s: Symbol) {
    match e
    case Bin(AndOp, l, r) => Depends(l, s) || Depends(r, s)
    case Sym(x) => x == s
    case Equal(x, y) => x == s && (y == SYMBOL_YES || y == SYMBOL_MOD)
    case Unequal(x, y) => x == s && y == SYMBOL_NO
    case _ => false
  }

  /** An expression contains the symbols that occur in it. */
  lemma {:induction false} ContainsExact(e: Expr, s: Symbol)
    ensures Contains(e, s) <==> s in SymbolsOf(e)
  {
    match e
    case Not(a) => ContainsExact(a, s);
    case Bin(_, l, r) => ContainsExact(l, s); ContainsExact(r, s);
    case _ =>
  }

  /** The ways to say of a symbol alone that it is not 'n'. */
  predicate IsSet(x: Expr, s: Symbol) {
    x == Sym(s) || x == Equal(s, SYMBOL_YES) || x == Equal(s, SYMBOL_MOD) || x == Unequal(s, SYMBOL_NO)
  }

  /** It depends on those of which one of its AND operands says so. */
  lemma {:induction false} DependsExact(e: Expr, s: Symbol)
    ensures Depends(e, s) <==> exists x :: x in Operands(AndOp, e) && IsSet(x, s)
  {
    if IsBin(e, AndOp) {
      DependsExact(e.l, s);
      DependsExact(e.r, s);
      var a, b := Operands(AndOp, e.l), Operands(AndOp, e.r);
      assert Operands(AndOp, e) == a + b;
      assert forall x :: x in a + b <==> x in a || x in b;
    } else {
      assert e in Operands(AndOp, e);
    }
  }

  lemma {:induction false} DependsContains(e: Expr, s: Symbol)
    ensures Depends(e, s) ==> Contains(e, s)
  {
    if e.Bin? {
      DependsContains(e.l, s);
      DependsContains(e.r, s);
    }
  }

  lemma {:induction false} DependsImplies(env: Env, e: Expr, s: Symbol)
    requires ValidEnv(env) && (s.Type().Boolean? || s.Type().Tristate?)
    requires Depends(e, s) && Value(env, e) != 0
    ensures env(s).tri != 0
  {
    assert env(SYMBOL_NO).text == "n" && env(SYMBOL_MOD).text == "m" && env(SYMBOL_YES).text == "y";
    if e.Bin? {
      if Depends(e.l, s) { DependsImplies(env, e.l, s); } else { DependsImplies(env, e.r, s); }
    }
  }

  /** The expression `e != n`; an absent expression is compared as the literal 'n' would be, negated. */
  function NonNo(e: Option<Expr>): Expr {
    if e.Some? then Compare(e.value, IsNot, false) else Not(NO)
  }

  /** What expr_eliminate_dups makes of an expression after expr_transform. */
  function Simplified(e: Expr): (r: Expr)
    ensures Sharpens(e, r) && Joinless(r) && Consistent(r)
  {
    TransformMeaning(e);
    Deduplicated(Transform(e))
  }

  method Simplify(e: Expr) returns (r: Expr)
    ensures r == Simplified(e)
  {
    var rewriter := new Rewriter(Transform(e));
    rewriter.EliminateDups();
    r := rewriter.root;
  }

  /** What the environment has to satisfy for a comparison with 'n' not to miss an entry that can show: reading
      every 'm' as 'y' does not hide it. Without a NOT above operands, or without an operand that is 'm', that is
      always so. */
  ghost predicate Comparable(env: Env, e: Option<Expr>) {
    e.Some? ==> TristateOperands(e.value) && (Value(env, e.value) != 0 ==> Rounded(env, e.value, true) != 0)
  }

  lemma OftenComparable(env: Env, e: Expr)
    requires ValidEnv(env) && TristateOperands(e) && (Positive(e) || Crisp(env, e))
    ensures Comparable(env, Some(e))
  {
    CompareRounds(env, e, IsNot, false);
    if Positive(e) {
      ComparePositive(env, e, IsNot, false);
    } else {
      CrispIsDefinite(env, e);
      CompareDefinite(env, e, IsNot, false);
    }
  }

  /** An entry that can show implies that the symbol it hangs under is set. */
  ghost predicate ImpliesSymbol(parent: Entry, child: Entry) {
    && parent.sym.Some?
    && forall env: Env |
         ValidEnv(env) && (parent.sym.value.Type().Boolean? || parent.sym.value.Type().Tristate?) &&
         ValueOf(env, child.Dependency()) != 0 :: env(parent.sym.value).tri != 0
  }

  /** An entry that can show implies that the prompt of the symbol it hangs under can show. */
  ghost predicate ImpliesPrompt(parent: Entry, child: Entry) {
    forall env: Env |
      ValidEnv(env) && Comparable(env, child.Dependency()) &&
      (parent.PromptDependency().Some? ==> TristateOperands(parent.PromptDependency().value)) &&
      ValueOf(env, child.Dependency()) != 0 :: ValueOf(env, parent.PromptDependency()) != 0
  }

  ghost predicate Justified(parent: Entry, child: Entry) {
    ImpliesSymbol(parent, child) || ImpliesPrompt(parent, child)
  }

  /** The two reasons for which an entry is pulled under a symbol. */
  predicate Takes(parent: Entry, child: Entry) {
    && parent.sym.Some? && !parent.block && child.Dependency().Some?
    && Contains(child.Dependency().value, parent.sym.value)
    && (Depends(child.Dependency().value, parent.sym.value) || Covers(parent, child))
  }

  /** The parent's simplified prompt dependency is reduced to 'y' by what it shares with the child's. */
  predicate Covers(parent: Entry, child: Entry) {
    EliminateEq(Simplified(NonNo(child.Dependency())), Simplified(NonNo(parent.PromptDependency()))).1 == YES
  }

  lemma JustifiedByDepends(parent: Entry, child: Entry)
    requires parent.sym.Some? && child.Dependency().Some? && Depends(child.Dependency().value, parent.sym.value)
    ensures ImpliesSymbol(parent, child)
  {
    var s, e := parent.sym.value, child.Dependency().value;
    forall env: Env | ValidEnv(env) && (s.Type().Boolean? || s.Type().Tristate?) && Value(env, e) != 0
      ensures env(s).tri != 0
    {
      DependsImplies(env, e, s);
    }
  }

  lemma JustifiedByElimination(parent: Entry, child: Entry)
    requires child.Dependency().Some? && Covers(parent, child)
    ensures ImpliesPrompt(parent, child)
  {
    var dep, base := Simplified(NonNo(child.Dependency())), Simplified(NonNo(parent.PromptDependency()));
    forall env: Env |
      ValidEnv(env) && Comparable(env, child.Dependency()) && ValueOf(env, child.Dependency()) != 0 &&
      (parent.PromptDependency().Some? ==> TristateOperands(parent.PromptDependency().value))
      ensures ValueOf(env, parent.PromptDependency()) != 0
    {
      var e, b := child.Dependency().value, parent.PromptDependency();
      CompareRounds(env, e, IsNot, false);
      EliminateEqImplies(env, dep, base);
      if b.Some? && Value(env, b.value) != 1 {
        CompareDefinite(env, b.value, IsNot, false);
      }
      if b.Some? { CompareBinary(env, b.value, IsNot, false); }
    }
  }

  lemma TakenIsJustified(parent: Entry, child: Entry)
    requires Takes(parent, child)
    ensures Justified(parent, child)
  {
    if Depends(child.Dependency().value, parent.sym.value) {
      JustifiedByDepends(parent, child);
    } else {
      JustifiedByElimination(parent, child);
    }
  }

  /** One turn of the loop, up to the point where the entry is pulled or the loop ends. */
  method CanTake(parent: Entry, child: Entry, base: Expr) returns (take: bool)
    requires parent.sym.Some? && !parent.block && base == Simplified(NonNo(parent.PromptDependency()))
    ensures take == Takes(parent, child)
  {
    var dep, sym := child.Dependency(), parent.sym.value;
    if dep.None? || !Contains(dep.value, sym) { return false; }
    if Depends(dep.value, sym) { return true; }
    var simple := Simplify(NonNo(dep));
    take := IsYes(EliminateEq(simple, base).1);
  }
}
