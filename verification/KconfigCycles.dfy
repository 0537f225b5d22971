/** Detection of recursive dependencies (scripts/kconfig/symbol.c: sym_check_expr_deps,
    sym_check_sym_deps, sym_check_deps) for configurations without choice groups. */
module KconfigCycles {
  import opened Wrappers
  import opened KconfigExpr

  datatype PropertyKind = Prompt | Default | Select | ChoiceProperty | OtherProperty

  datatype Property = Property(kind: PropertyKind, visible: Option<Expr>, expr: Option<Expr>)

  datatype Definition = Definition(revDep: Option<Expr>, props: seq<Property>)

  // ----- the dependency graph -----

  function SymbolsOfOption(e: Option<Expr>): set<Symbol> {
    if e.Some? then SymbolsOf(e.value) else {}
  }

  /** Visibility conditions count for everything but selects and choices; values only for defaults. */
  function SymbolsOfProperty(p: Property): set<Symbol> {
    if p.kind.ChoiceProperty? || p.kind.Select? then {}
    else SymbolsOfOption(p.visible) + if p.kind.Default? then SymbolsOfOption(p.expr) else {}
  }

  function SymbolsOfProperties(ps: seq<Property>): set<Symbol> {
    if ps == [] then {} else SymbolsOfProperty(ps[0]) + SymbolsOfProperties(ps[1..])
  }

  function Members(s: seq<Symbol>): set<Symbol> {
    set x | x in s
  }

  type Graph = map<Symbol, Definition>

  /** The graph holds every symbol that is depended on, the constants y, m and n included. */
  ghost predicate Closed(g: Graph) {
    forall s :: s in g ==> DependenciesOf(g[s]) <= g.Keys
  }

  function DependenciesOf(d: Definition): set<Symbol> {
    SymbolsOfOption(d.revDep) + SymbolsOfProperties(d.props)
  }

  /** The condition of a property, or the value of a default, names the symbol; choices and selects do not count. */
  predicate Uses(p: Property, t: Symbol) {
    && p.kind != ChoiceProperty && p.kind != Select
    && (t in SymbolsOfOption(p.visible) || (p.kind == Default && t in SymbolsOfOption(p.expr)))
  }

  /** A symbol depends on what its reverse dependency or one of its properties names. */
  lemma {:induction false} DependsOn(d: Definition, t: Symbol)
    ensures t in DependenciesOf(d)
       <==> (d.revDep.Some? && t in SymbolsOf(d.revDep.value)) || exists p :: p in d.props && Uses(p, t)
  {
    UsedIn(d.props, t);
  }

  lemma {:induction false} UsedIn(ps: seq<Property>, t: Symbol)
    ensures t in SymbolsOfProperties(ps) <==> exists p :: p in ps && Uses(p, t)
  {
    if ps != [] {
      UsedIn(ps[1..], t);
      assert t in SymbolsOfProperty(ps[0]) <==> Uses(ps[0], t);
      assert ps[0] in ps && forall p :: p in ps[1..] ==> p in ps;
      if p :| p in ps && Uses(p, t) { assert p == ps[0] || p in ps[1..]; }
    }
  }

  predicate Edge(g: Graph, s: Symbol, t: Symbol) {
    s in g && t in DependenciesOf(g[s])
  }

  /** Each symbol of the path depends on the next. */
  ghost predicate IsPath(g: Graph, p: seq<Symbol>) {
    forall i, j :: 0 <= i < j < |p| && j == i + 1 ==> Edge(g, p[i], p[j])
  }

  ghost predicate IsCycle(g: Graph, p: seq<Symbol>) {
    |p| >= 2 && p[0] == p[|p| - 1] && IsPath(g, p)
  }

  ghost predicate HasCycle(g: Graph) {
    exists p :: IsCycle(g, p)
  }

  /** Every symbol of the order depends only on earlier ones. */
  ghost predicate IsOrder(g: Graph, order: seq<Symbol>) {
    forall i :: 0 <= i < |order| ==> order[i] in g && DependenciesOf(g[order[i]]) <= Members(order[..i])
  }

  lemma OrderSnoc(g: Graph, order: seq<Symbol>, s: Symbol)
    requires IsOrder(g, order) && s in g && DependenciesOf(g[s]) <= Members(order)
    ensures IsOrder(g, order + [s])
  {
    forall i | 0 <= i < |order + [s]|
      ensures DependenciesOf(g[(order + [s])[i]]) <= Members((order + [s])[..i])
    {
      assert (order + [s])[..i] == order[..i];
      assert order[..|order|] == order;
    }
  }

  /** First position of a symbol in the order. */
  function Position(order: seq<Symbol>, s: Symbol): (i: nat)
    requires s in order
    ensures i < |order| && order[i] == s && s !in order[..i]
  {
    if order[0] == s then 0 else 1 + Position(order[1..], s)
  }

  lemma PositionFirst(order: seq<Symbol>, s: Symbol, j: nat)
    requires j < |order| && order[j] == s
    ensures s in order && Position(order, s) <= j
  {
    if order[0] != s { PositionFirst(order[1..], s, j - 1); }
  }

  lemma {:induction false} PathDescends(g: Graph, order: seq<Symbol>, p: seq<Symbol>, k: nat)
    requires IsOrder(g, order) && IsPath(g, p) && k < |p| && p[0] in order
    ensures p[k] in order && Position(order, p[k]) + k <= Position(order, p[0])
  {
    if k > 0 {
      PathDescends(g, order, p, k - 1);
      var i := Position(order, p[k - 1]);
      assert Edge(g, p[k - 1], p[k]);
      assert p[k] in order[..i];
      var j :| 0 <= j < i && order[j] == p[k];
      PositionFirst(order, p[k], j);
    }
  }

  /** Symbols with a place in an order lie on no cycle, and neither do symbols that depend on nothing. */
  lemma OrderHasNoCycle(g: Graph, order: seq<Symbol>)
    requires IsOrder(g, order) && forall s :: s in g && DependenciesOf(g[s]) != {} ==> s in order
    ensures !HasCycle(g)
  {
    if p :| IsCycle(g, p) {
      assert Edge(g, p[0], p[1]);
      PathDescends(g, order, p, |p| - 1);
    }
  }

  // ----- the depth-first check -----

  /** The flags as the sets of symbols that have SYMBOL_CHECK and SYMBOL_CHECKED, the error count, the
      symbols being checked (outermost first) and the symbols finished so far. */
  datatype State = State(check: set<Symbol>, checked: set<Symbol>, errors: nat,
                         stack: seq<Symbol>, order: seq<Symbol>) {

    /** The CHECK flags are exactly the symbols being checked, and those form a path. */
    ghost predicate Valid(g: Graph) {
      && check <= checked <= g.Keys
      && check == Members(stack)
      && IsPath(g, stack)
    }

    /** As long as nothing went wrong, finished symbols are in an order that respects dependencies. */
    ghost predicate Clean(g: Graph) {
      && IsOrder(g, order)
      && Members(order) == checked - check
    }

    ghost predicate IsDone(ss: set<Symbol>) {
      ss <= Members(order)
    }

    /** These are symbols the innermost symbol being checked depends on. */
    ghost predicate Pending(g: Graph, ss: set<Symbol>) {
      ss <= g.Keys && (stack != [] ==> forall t :: t in ss ==> Edge(g, stack[|stack| - 1], t))
    }
  }

  /** Common outcome of the checks: CHECK flags restored, a returned symbol is still being checked,
      trouble means a cycle, and no trouble means everything asked for is finished. */
  ghost predicate Outcome(g: Graph, st: State, st': State, r: Option<Symbol>, asked: set<Symbol>) {
    && st'.Valid(g) && st'.check == st.check && st'.stack == st.stack
    && st.checked <= st'.checked && st'.errors >= st.errors
    && (r.Some? ==> r.value in st.check)
    && (r.Some? || st'.errors > st.errors ==> HasCycle(g))
    && (st.Clean(g) && r.None? && st'.errors == st.errors ==>
          st'.Clean(g) && st.order <= st'.order && st'.IsDone(asked))
  }

  lemma OutcomeThen(g: Graph, st: State, st': State, st'': State, r: Option<Symbol>,
                    first: set<Symbol>, second: set<Symbol>)
    requires Outcome(g, st, st', None, first) && Outcome(g, st', st'', r, second)
    ensures Outcome(g, st, st'', r, first + second)
  {
  }

  /** A check that returns a symbol says nothing about what is finished. */
  lemma OutcomeMore(g: Graph, st: State, st': State, r: Option<Symbol>, done: set<Symbol>, all: set<Symbol>)
    requires Outcome(g, st, st', r, done) && r.Some?
    ensures Outcome(g, st, st', r, all)
  {
  }

  /** After a check the ones still to be made can be made. */
  lemma OutcomeKeeps(g: Graph, st: State, st': State, r: Option<Symbol>, done: set<Symbol>, all: set<Symbol>,
                     next: set<Symbol>)
    requires Outcome(g, st, st', r, done) && st.Pending(g, all) && next <= all
    ensures st'.Valid(g) && st'.Pending(g, next) && st.checked <= st'.checked
  {
  }

  lemma PendingPart(g: Graph, st: State, all: set<Symbol>, part: set<Symbol>)
    requires st.Pending(g, all) && part <= all
    ensures st.Pending(g, part)
  {
  }

  lemma CycleOnStack(g: Graph, st: State, s: Symbol)
    requires st.Valid(g) && st.Pending(g, {s}) && s in st.check
    ensures HasCycle(g)
  {
    var stack := st.stack;
    var k :| 0 <= k < |stack| && stack[k] == s;
    var p := stack[k..] + [s];
    forall i, j | 0 <= i < j < |p| && j == i + 1 ensures Edge(g, p[i], p[j]) {
      if k + j < |stack| { assert Edge(g, stack[k + i], stack[k + j]); }
    }
    assert IsCycle(g, p);
  }

  lemma PathSnoc(g: Graph, p: seq<Symbol>, s: Symbol)
    requires IsPath(g, p) && (p != [] ==> Edge(g, p[|p| - 1], s))
    ensures IsPath(g, p + [s])
  {
    var q := p + [s];
    forall i, j | 0 <= i < j < |q| && j == i + 1 ensures Edge(g, q[i], q[j]) {
      if j < |p| { assert Edge(g, p[i], p[j]); }
    }
  }

  lemma DependenciesPending(g: Graph, st: State, s: Symbol)
    requires Closed(g) && s in g && st.stack != [] && st.stack[|st.stack| - 1] == s
    ensures st.Pending(g, DependenciesOf(g[s]))
  {
    var ds := DependenciesOf(g[s]);
    assert ds <= g.Keys;
    forall t | t in ds ensures Edge(g, s, t) {
    }
  }

  lemma MembersSnoc(p: seq<Symbol>, s: Symbol)
    ensures Members(p + [s]) == Members(p) + {s}
  {
  }

  /** Setting the flags of a symbol that is not being checked. */
  lemma Pushed(g: Graph, st: State, st': State, s: Symbol)
    requires Closed(g) && st.Valid(g) && st.Pending(g, {s}) && s !in st.checked
    requires st' == st.(check := st.check + {s}, checked := st.checked + {s}, stack := st.stack + [s])
    ensures st'.Valid(g) && (st.Clean(g) ==> st'.Clean(g))
    ensures s in g && st'.Pending(g, DependenciesOf(g[s]))
  {
    assert s in {s};
    PathSnoc(g, st.stack, s);
    MembersSnoc(st.stack, s);
    assert st'.checked - st'.check == st.checked - st.check;
    DependenciesPending(g, st', s);
  }

  /** Clearing CHECK again: the symbol is finished if nothing went wrong, and if it was the one a
      recursion was reported for, the report ends here. */
  lemma Popped(g: Graph, st: State, mid: State, st': State, s: Symbol, r: Option<Symbol>, clean: bool)
    requires Closed(g) && st.Valid(g) && st.Pending(g, {s}) && s !in st.checked
    requires var up := st.(check := st.check + {s}, checked := st.checked + {s}, stack := st.stack + [s]);
             Outcome(g, up, mid, r, DependenciesOf(g[s]))
    requires clean == (st.Clean(g) && r.None? && mid.errors == st.errors)
    requires st' == mid.(check := mid.check - {s}, stack := st.stack,
                         errors := if r == Some(s) then mid.errors + 1 else mid.errors,
                         order := if clean then mid.order + [s] else mid.order)
    ensures Outcome(g, st, st', if r == Some(s) then None else r, {s})
  {
    var up := st.(check := st.check + {s}, checked := st.checked + {s}, stack := st.stack + [s]);
    Pushed(g, st, up, s);
    assert st'.check == st.check;
    if clean {
      OrderSnoc(g, mid.order, s);
      assert st'.checked - st'.check == (mid.checked - mid.check) + {s};
      assert Members(st'.order) == Members(mid.order) + {s};
    }
  }

  class Checker {
    const graph: Graph
    var check: set<Symbol>    // symbols with SYMBOL_CHECK set
    var checked: set<Symbol>  // symbols with SYMBOL_CHECKED set
    var errors: nat           // zconfnerrs
    ghost var stack: seq<Symbol>
    ghost var order: seq<Symbol>

    constructor (g: Graph)
      ensures graph == g && Now() == State({}, {}, 0, [], [])
    {
      graph := g;
      check, checked, errors := {}, {}, 0;
      stack, order := [], [];
    }

    ghost function Now(): State
      reads this
    {
      State(check, checked, errors, stack, order)
    }

    method CheckExprDeps(e: Expr) returns (r: Option<Symbol>)
      requires Closed(graph) && Now().Valid(graph) && Now().Pending(graph, SymbolsOf(e))
      modifies this
      ensures Outcome(graph, old(Now()), Now(), r, SymbolsOf(e))
      decreases graph.Keys - checked, 2, e
    {
      hide Closed, Outcome, State.Valid, State.Pending;
      match e {
        case Bin(_, left, right) =>
          PendingPart(graph, Now(), SymbolsOf(e), SymbolsOf(left));
          r := CheckExprDeps(left);
          if r.Some? {
            OutcomeMore(graph, old(Now()), Now(), r, SymbolsOf(left), SymbolsOf(e));
            return;
          }
          ghost var mid := Now();
          OutcomeKeeps(graph, old(Now()), mid, r, SymbolsOf(left), SymbolsOf(e), SymbolsOf(right));
          r := CheckExprDeps(right);
          OutcomeThen(graph, old(Now()), mid, Now(), r, SymbolsOf(left), SymbolsOf(right));
        case Not(a) =>
          r := CheckExprDeps(a);
        case Equal(s1, s2) =>
          r := CheckTwoDeps(s1, s2);
        case Unequal(s1, s2) =>
          r := CheckTwoDeps(s1, s2);
        case Sym(s) =>
          r := CheckDeps(s);
      }
    }

    method CheckTwoDeps(s1: Symbol, s2: Symbol) returns (r: Option<Symbol>)
      requires Closed(graph) && Now().Valid(graph) && Now().Pending(graph, {s1, s2})
      modifies this
      ensures Outcome(graph, old(Now()), Now(), r, {s1, s2})
      decreases graph.Keys - checked, 1
    {
      hide Closed, Outcome, State.Valid, State.Pending;
      PendingPart(graph, Now(), {s1, s2}, {s1});
      r := CheckDeps(s1);
      if r.Some? {
        OutcomeMore(graph, old(Now()), Now(), r, {s1}, {s1, s2});
        return;
      }
      ghost var mid := Now();
      OutcomeKeeps(graph, old(Now()), mid, r, {s1}, {s1, s2}, {s2});
      r := CheckDeps(s2);
      OutcomeThen(graph, old(Now()), mid, Now(), r, {s1}, {s2});
      assert {s1} + {s2} == {s1, s2};
    }

    method CheckOptionDeps(e: Option<Expr>) returns (r: Option<Symbol>)
      requires Closed(graph) && Now().Valid(graph) && Now().Pending(graph, SymbolsOfOption(e))
      modifies this
      ensures Outcome(graph, old(Now()), Now(), r, SymbolsOfOption(e))
      decreases graph.Keys - checked, 3
    {
      r := None;
      if e.Some? { r := CheckExprDeps(e.value); }
    }

    method CheckPropertyDeps(p: Property) returns (r: Option<Symbol>)
      requires Closed(graph) && Now().Valid(graph) && Now().Pending(graph, SymbolsOfProperty(p))
      modifies this
      ensures Outcome(graph, old(Now()), Now(), r, SymbolsOfProperty(p))
      decreases graph.Keys - checked, 4
    {
      if p.kind.ChoiceProperty? || p.kind.Select? { return None; }
      r := CheckOptionDeps(p.visible);
      if r.Some? || !p.kind.Default? { return; }
      ghost var mid := Now();
      r := CheckOptionDeps(p.expr);
      OutcomeThen(graph, old(Now()), mid, Now(), r, SymbolsOfOption(p.visible), SymbolsOfOption(p.expr));
    }

    method CheckPropertiesDeps(props: seq<Property>) returns (r: Option<Symbol>)
      requires Closed(graph) && Now().Valid(graph) && Now().Pending(graph, SymbolsOfProperties(props))
      modifies this
      ensures Outcome(graph, old(Now()), Now(), r, SymbolsOfProperties(props))
      decreases graph.Keys - checked, 5
    {
      r := None;
      var rest := props;
      ghost var start, done := Now(), {};
      while rest != []
        invariant r.None? && Outcome(graph, start, Now(), r, done)
        invariant done + SymbolsOfProperties(rest) == SymbolsOfProperties(props)
        decreases |rest|
      {
        ghost var mid := Now();
        r := CheckPropertyDeps(rest[0]);
        OutcomeThen(graph, start, mid, Now(), r, done, SymbolsOfProperty(rest[0]));
        done := done + SymbolsOfProperty(rest[0]);
        if r.Some? { return; }
        rest := rest[1..];
      }
    }

    method CheckSymDeps(s: Symbol) returns (r: Option<Symbol>)
      requires Closed(graph) && Now().Valid(graph) && s in graph && Now().Pending(graph, DependenciesOf(graph[s]))
      modifies this
      ensures Outcome(graph, old(Now()), Now(), r, DependenciesOf(graph[s]))
      decreases graph.Keys - checked, 6
    {
      r := CheckOptionDeps(graph[s].revDep);
      if r.Some? { return; }
      ghost var mid := Now();
      r := CheckPropertiesDeps(graph[s].props);
      OutcomeThen(graph, old(Now()), mid, Now(), r,
                  SymbolsOfOption(graph[s].revDep), SymbolsOfProperties(graph[s].props));
    }

    method CheckDeps(s: Symbol) returns (r: Option<Symbol>)
      requires Closed(graph) && Now().Valid(graph) && Now().Pending(graph, {s})
      modifies this
      ensures Outcome(graph, old(Now()), Now(), r, {s}) && s in checked
      decreases graph.Keys - checked, 0
    {
      if s in check {
        CycleOnStack(graph, Now(), s);
        return Some(s);
      }
      if s in checked {
        return None;
      }
      check, checked := check + {s}, checked + {s};
      stack := stack + [s];
      Pushed(graph, old(Now()), Now(), s);
      r := CheckSymDeps(s);
      ghost var mid := Now();
      ghost var r0 := r;
      ghost var clean := old(Now()).Clean(graph) && r.None? && errors == old(errors);
      check := check - {s};
      stack := old(stack);
      if clean { order := order + [s]; }
      if r == Some(s) {
        errors := errors + 1;
        r := None;
      }
      Popped(graph, old(Now()), mid, Now(), s, r0, clean);
    }

    /** The loop over all symbols after parsing: the error count is unchanged exactly when the
        dependency graph has no cycle. The constants y, m and n are depended on without being in the symbol
        table the loop walks; they depend on nothing. */
    method CheckAll(symbols: seq<Symbol>)
      requires Closed(graph) && Now() == State({}, {}, errors, [], [])
      requires Members(symbols) <= graph.Keys
      requires forall s :: s in graph && s !in symbols ==> DependenciesOf(graph[s]) == {}
      modifies this
      ensures check == {} && Members(symbols) <= checked <= graph.Keys
      ensures errors == old(errors) <==> !HasCycle(graph)
      ensures errors >= old(errors)
    {
      var i := 0;
      while i < |symbols|
        invariant 0 <= i <= |symbols|
        invariant Outcome(graph, old(Now()), Now(), None, Members(symbols[..i]))
        invariant Members(symbols[..i]) <= checked
      {
        ghost var mid := Now();
        assert symbols[i] in Members(symbols) && symbols[i] in graph.Keys;
        var r := CheckDeps(symbols[i]);
        OutcomeThen(graph, old(Now()), mid, Now(), r, Members(symbols[..i]), {symbols[i]});
        assert Members(symbols[..i]) + {symbols[i]} == Members(symbols[..i + 1]);
        // the caller would count a returned symbol as an error too, but with no check in progress
        // there is none to return
        assert r.None?;
        i := i + 1;
      }
      assert symbols[..i] == symbols;
      assert forall s :: s in symbols ==> s in Members(symbols);
      if errors == old(errors) { OrderHasNoCycle(graph, order); }
    }
  }
}
