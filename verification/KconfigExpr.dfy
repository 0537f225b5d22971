/** Kconfig dependency expressions, their tristate values and the environments they are read in
    (scripts/kconfig/expr.h, scripts/kconfig/expr.c, scripts/kconfig/symbol.c). */
module KconfigExpr {

  /** no = 0, mod = 1, yes = 2 */
  type Tri = x: int | 0 <= x <= 2

  datatype SymbolType = Unknown | Boolean | Tristate | Number | Text

  /** Constants ('y', 'm', 'n', "text") are interned by name, so equal names mean the same symbol. */
  datatype Symbol = Const(name: string) | Config(name: string, declared: SymbolType) {
    function Type(): SymbolType {
      if Const? then Unknown else declared
    }
  }

  const SYMBOL_YES := Const("y")
  const SYMBOL_MOD := Const("m")
  const SYMBOL_NO := Const("n")

  datatype Op = AndOp | OrOp

  datatype Expr =
    | Sym(sym: Symbol)
    | Equal(left: Symbol, right: Symbol)
    | Unequal(left: Symbol, right: Symbol)
    | Not(arg: Expr)
    | Bin(op: Op, l: Expr, r: Expr)

  const YES := Sym(SYMBOL_YES)
  const NO := Sym(SYMBOL_NO)

  predicate IsYes(e: Expr) { e == YES }

  predicate IsBin(e: Expr, op: Op) { e.Bin? && e.op == op }

  /** The operand that changes nothing: 'y' for AND, 'n' for OR. */
  function Neutral(op: Op): Expr { if op == AndOp then YES else NO }

  /** The operand that decides the result: 'n' for AND, 'y' for OR. */
  function Dominant(op: Op): Expr { if op == AndOp then NO else YES }

  function Dual(op: Op): Op { if op == AndOp then OrOp else AndOp }

  // ----- meaning -----

  datatype SymbolValue = SymbolValue(tri: Tri, text: string)

  type Env = Symbol -> SymbolValue

  function TriName(t: Tri): string {
    if t == 0 then "n" else if t == 1 then "m" else "y"
  }

  /** What symbol evaluation guarantees: the three constants have their own values, every constant
      prints as its name, a boolean is never 'm', and a boolean or tristate prints as its value. */
  ghost predicate ValidEnv(env: Env) {
    && env(SYMBOL_YES).tri == 2
    && env(SYMBOL_MOD).tri == 1
    && env(SYMBOL_NO).tri == 0
    && (forall s: Symbol :: s.Const? ==> env(s).text == s.name)
    && (forall s: Symbol :: s.Type().Boolean? ==> env(s).tri != 1)
    && (forall s: Symbol :: s.Type().Boolean? || s.Type().Tristate? ==> env(s).text == TriName(env(s).tri))
  }

  function Apply(op: Op, a: Tri, b: Tri): Tri {
    match op
    case AndOp => if a < b then a else b
    case OrOp => if a > b then a else b
  }

  lemma ApplyInterchange(op: Op, a: Tri, b: Tri, c: Tri, d: Tri)
    ensures Apply(op, Apply(op, a, b), Apply(op, c, d)) == Apply(op, Apply(op, a, c), Apply(op, b, d))
  {
  }

  lemma ApplyAssociative(op: Op, a: Tri, b: Tri, c: Tri)
    ensures Apply(op, Apply(op, a, b), c) == Apply(op, a, Apply(op, b, c))
    ensures Apply(op, a, b) == Apply(op, b, a)
  {
  }

  function Value(env: Env, e: Expr): Tri {
    match e
    case Sym(s) => env(s).tri
    case Equal(s1, s2) => if env(s1).text == env(s2).text then 2 else 0
    case Unequal(s1, s2) => if env(s1).text == env(s2).text then 0 else 2
    case Not(a) => 2 - Value(env, a)
    case Bin(op, l, r) => Apply(op, Value(env, l), Value(env, r))
  }

  /** Equal value under every tristate assignment. */
  ghost predicate SameMeaning(e: Expr, e': Expr) {
    forall env: Env :: ValidEnv(env) ==> Value(env, e) == Value(env, e')
  }

  /** Every definite value is kept; only an 'm' may have become 'n' or 'y'. */
  ghost predicate Sharpens(e: Expr, e': Expr) {
    forall env: Env :: ValidEnv(env) ==> Value(env, e) == 1 || Value(env, e) == Value(env, e')
  }

  /** No symbol read as an operand is 'm'; comparisons are always definite. */
  predicate Crisp(env: Env, e: Expr) {
    match e
    case Sym(s) => env(s).tri != 1
    case Equal(_, _) => true
    case Unequal(_, _) => true
    case Not(a) => Crisp(env, a)
    case Bin(_, l, r) => Crisp(env, l) && Crisp(env, r)
  }

  lemma {:induction false} CrispIsDefinite(env: Env, e: Expr)
    requires Crisp(env, e)
    ensures Value(env, e) != 1
  {
    match e
    case Not(a) => CrispIsDefinite(env, a);
    case Bin(_, l, r) =>
      CrispIsDefinite(env, l);
      CrispIsDefinite(env, r);
    case _ =>
  }

  // ----- symbols and sizes -----

  function SymbolsOf(e: Expr): set<Symbol> {
    match e
    case Sym(s) => {s}
    case Equal(s1, s2) => {s1, s2}
    case Unequal(s1, s2) => {s1, s2}
    case Not(a) => SymbolsOf(a)
    case Bin(_, l, r) => SymbolsOf(l) + SymbolsOf(r)
  }

  function Size(e: Expr): (n: nat)
    ensures n >= 1
  {
    match e
    case Not(a) => 1 + Size(a)
    case Bin(_, l, r) => 1 + Size(l) + Size(r)
    case _ => 1
  }

  function Leaves(e: Expr): (n: nat)
    ensures n >= 1
  {
    match e
    case Not(a) => Leaves(a)
    case Bin(_, l, r) => Leaves(l) + Leaves(r)
    case _ => 1
  }

  // ----- constant folding (expr_eliminate_yn) -----

  function EliminateYn(e: Expr): Expr {
    match e
    case Bin(op, l, r) =>
      var l', r' := EliminateYn(l), EliminateYn(r);
      if l' == Dominant(op) then Dominant(op)
      else if l' == Neutral(op) then r'
      else if r' == Dominant(op) then Dominant(op)
      else if r' == Neutral(op) then l'
      else Bin(op, l', r')
    case _ => e
  }

  lemma {:induction false} EliminateYnValue(env: Env, e: Expr)
    requires ValidEnv(env)
    ensures Value(env, EliminateYn(e)) == Value(env, e)
  {
    if e.Bin? {
      EliminateYnValue(env, e.l);
      EliminateYnValue(env, e.r);
    }
  }

  lemma {:induction false} EliminateYnMeaning(e: Expr)
    ensures SameMeaning(e, EliminateYn(e))
  {
    forall env: Env | ValidEnv(env) ensures Value(env, e) == Value(env, EliminateYn(e)) {
      EliminateYnValue(env, e);
    }
  }

  predicate IsYn(e: Expr) { e == YES || e == NO }

  /** Some AND or OR above every NOT has a literal 'y' or 'n' operand. */
  predicate Foldable(e: Expr) {
    e.Bin? && (IsYn(e.l) || IsYn(e.r) || Foldable(e.l) || Foldable(e.r))
  }

  lemma {:induction false} EliminateYnLeaves(e: Expr)
    ensures Leaves(EliminateYn(e)) <= Leaves(e)
    ensures Foldable(e) ==> Leaves(EliminateYn(e)) < Leaves(e)
    ensures Size(EliminateYn(e)) <= Size(e)
  {
    if e.Bin? {
      EliminateYnLeaves(e.l);
      EliminateYnLeaves(e.r);
    }
  }

  /** Folding is complete: no 'y' or 'n' operand is left, and a folded expression folds to itself. */
  lemma {:induction false} EliminateYnComplete(e: Expr)
    ensures !Foldable(EliminateYn(e))
    ensures !Foldable(e) ==> EliminateYn(e) == e
  {
    if e.Bin? {
      EliminateYnComplete(e.l);
      EliminateYnComplete(e.r);
    }
  }

  lemma {:induction false} EliminateYnIdempotent(e: Expr)
    ensures EliminateYn(EliminateYn(e)) == EliminateYn(e)
  {
    EliminateYnComplete(e);
    EliminateYnComplete(EliminateYn(e));
  }
}
