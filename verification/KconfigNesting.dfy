/** The shape that menu_finalize gives a menu (scripts/kconfig/menu.c), as functions on nested values: entries are
    pulled under the symbols they depend on, and then raised out of entries without a prompt. */
module KconfigNesting {
  import opened Wrappers
  import opened KconfigExpr
  import opened KconfigMenu

  datatype Menu = Menu(entry: Entry, list: seq<Menu>)

  function Count(m: Menu): (n: nat)
    ensures n > 0
  {
    1 + CountAll(m.list)
  }

  function CountAll(ms: seq<Menu>): (n: nat)
    ensures n == 0 <==> |ms| == 0
  {
    if ms == [] then 0 else Count(ms[0]) + CountAll(ms[1..])
  }

  /** The entries in the order of the file. */
  function Flatten(m: Menu): seq<Entry> {
    [m.entry] + FlattenAll(m.list)
  }

  function FlattenAll(ms: seq<Menu>): seq<Entry> {
    if ms == [] then [] else Flatten(ms[0]) + FlattenAll(ms[1..])
  }

  /** The flag says which entries have a list before anything is pulled. */
  predicate Built(m: Menu) {
    (m.entry.block <==> m.list != []) && BuiltAll(m.list)
  }

  predicate BuiltAll(ms: seq<Menu>) {
    ms == [] || (Built(ms[0]) && BuiltAll(ms[1..]))
  }

  lemma {:induction false} CountAppend(a: seq<Menu>, b: seq<Menu>)
    ensures CountAll(a + b) == CountAll(a) + CountAll(b)
  {
    if a == [] {
      assert a + b == b;
    } else {
      assert (a + b)[1..] == a[1..] + b;
      CountAppend(a[1..], b);
    }
  }

  lemma {:induction false} CountCons(m: Menu, ms: seq<Menu>)
    ensures CountAll([m] + ms) == Count(m) + CountAll(ms)
  {
    assert ([m] + ms)[1..] == ms;
  }

  lemma {:induction false} CountFalls(ms: seq<Menu>)
    requires ms != []
    ensures CountAll(ms[0].list + ms[1..]) == CountAll(ms) - 1 && CountAll(ms[1..]) < CountAll(ms)
  {
    CountAppend(ms[0].list, ms[1..]);
  }

  lemma {:induction false} FlattenAppend(a: seq<Menu>, b: seq<Menu>)
    ensures FlattenAll(a + b) == FlattenAll(a) + FlattenAll(b)
  {
    if a == [] {
      assert a + b == b;
    } else {
      assert (a + b)[1..] == a[1..] + b;
      FlattenAppend(a[1..], b);
    }
  }

  lemma {:induction false} FlattenCons(m: Menu, ms: seq<Menu>)
    ensures FlattenAll([m] + ms) == Flatten(m) + FlattenAll(ms)
  {
    assert ([m] + ms)[1..] == ms;
  }

  lemma Regroup(a: seq<Entry>, b: seq<Entry>, c: seq<Entry>)
    ensures a + b + c == a + (b + c)
  {
  }

  // ----- pulling -----

  /** A menu, and what is left of the entries that stood behind it. */
  datatype Pulled = Pulled(m: Menu, rest: seq<Menu>)

  /** The menus pulled under an entry, and what is left. */
  datatype Taken = Taken(list: seq<Menu>, rest: seq<Menu>)

  /** An entry with a list of its own has that nested; another one takes what it can of the entries behind it. */
  function Nest(m: Menu, rest: seq<Menu>): (r: Pulled)
    ensures Count(r.m) + CountAll(r.rest) == Count(m) + CountAll(rest)
    decreases Count(m) + CountAll(rest), 0
  {
    if m.list != [] then Pulled(Menu(m.entry, NestAll(m.list)), rest)
    else if m.entry.sym.Some? then
      var t := TakeAll(m.entry, rest);
      Pulled(Menu(m.entry, t.list), t.rest)
    else Pulled(m, rest)
  }

  function NestAll(ms: seq<Menu>): (r: seq<Menu>)
    ensures CountAll(r) == CountAll(ms)
    decreases CountAll(ms), 1
  {
    if ms == [] then []
    else
      var p := Nest(ms[0], ms[1..]);
      [p.m] + NestAll(p.rest)
  }

  function TakeAll(parent: Entry, ms: seq<Menu>): (t: Taken)
    ensures CountAll(t.list) + CountAll(t.rest) == CountAll(ms)
    decreases CountAll(ms), 1
  {
    if ms == [] || !Takes(parent, ms[0].entry) then Taken([], ms)
    else
      var p := Nest(ms[0], ms[1..]);
      var t := TakeAll(parent, p.rest);
      Taken([p.m] + t.list, t.rest)
  }

  /** The dependency of an entry names the symbol. */
  predicate Mentions(child: Entry, s: Option<Symbol>) {
    s.Some? && child.Dependency().Some? && s.value in SymbolsOf(child.Dependency().value)
  }

  /** The reason for which an entry hangs under another: it is in its block, or it was taken, names its symbol and
      implies the symbol or its prompt. */
  ghost predicate Holds(parent: Entry, child: Entry) {
    parent.block || (Takes(parent, child) && Mentions(child, parent.sym) && Justified(parent, child))
  }

  lemma TakerHolds(parent: Entry, child: Entry)
    requires Takes(parent, child)
    ensures Holds(parent, child)
  {
    hide Covers, Justified;
    ContainsExact(child.Dependency().value, parent.sym.value);
    TakenIsJustified(parent, child);
  }

  /** At every level an entry hangs under another for such a reason. */
  ghost predicate HeldUnder(parent: Entry, list: seq<Menu>)
    decreases list
  {
    list != [] ==>
      && Holds(parent, list[0].entry)
      && HeldUnder(list[0].entry, list[0].list)
      && HeldUnder(parent, list[1..])
  }

  /** At every level nothing that could be taken was left behind: `next` is the entry beside m. */
  predicate Greedy(m: Menu, next: Option<Entry>) {
    && (next.Some? ==> !Takes(m.entry, next.value))
    && AllGreedy(m.list, if m.entry.block then None else next)
  }

  predicate AllGreedy(list: seq<Menu>, next: Option<Entry>) {
    list != [] ==> Greedy(list[0], FirstOf(list[1..], next)) && AllGreedy(list[1..], next)
  }

  function FirstOf(list: seq<Menu>, next: Option<Entry>): Option<Entry> {
    if list == [] then next else Some(list[0].entry)
  }

  // ----- what pulling keeps -----

  lemma {:induction false} NestCases(m: Menu, rest: seq<Menu>)
    ensures m.list != [] ==> Nest(m, rest) == Pulled(Menu(m.entry, NestAll(m.list)), rest)
    ensures m.list == [] && m.entry.sym.Some? ==>
              var t := TakeAll(m.entry, rest); Nest(m, rest) == Pulled(Menu(m.entry, t.list), t.rest)
    ensures m.list == [] && m.entry.sym.None? ==> Nest(m, rest) == Pulled(m, rest)
  {
  }

  /** No entry is lost and the order is kept. */
  lemma {:induction false} NestKeeps(m: Menu, rest: seq<Menu>)
    ensures var r := Nest(m, rest);
            r.m.entry == m.entry && Flatten(r.m) + FlattenAll(r.rest) == Flatten(m) + FlattenAll(rest)
    decreases Count(m) + CountAll(rest), 0
  {
    hide Takes, Nest, NestAll, TakeAll;
    NestCases(m, rest);
    if m.list != [] {
      NestAllKeeps(m.list);
    } else if m.entry.sym.Some? {
      var t := TakeAll(m.entry, rest);
      TakeAllKeeps(m.entry, rest);
      Regroup([m.entry], FlattenAll(t.list), FlattenAll(t.rest));
    }
  }

  lemma {:induction false} NestAllKeeps(ms: seq<Menu>)
    ensures FlattenAll(NestAll(ms)) == FlattenAll(ms)
    decreases CountAll(ms), 1
  {
    if ms != [] {
      var p := Nest(ms[0], ms[1..]);
      NestKeeps(ms[0], ms[1..]);
      NestAllKeeps(p.rest);
      FlattenCons(p.m, NestAll(p.rest));
    }
  }

  lemma {:induction false} TakeAllKeeps(parent: Entry, ms: seq<Menu>)
    ensures var t := TakeAll(parent, ms); FlattenAll(t.list) + FlattenAll(t.rest) == FlattenAll(ms)
    decreases CountAll(ms), 1
  {
    hide Flatten, Takes, Nest;
    if ms != [] && Takes(parent, ms[0].entry) {
      var p := Nest(ms[0], ms[1..]);
      var t := TakeAll(parent, p.rest);
      NestKeeps(ms[0], ms[1..]);
      TakeAllKeeps(parent, p.rest);
      FlattenCons(p.m, t.list);
      Regroup(Flatten(p.m), FlattenAll(t.list), FlattenAll(t.rest));
    }
  }

  /** Whatever hangs under an entry is in its block or was taken by it. */
  lemma {:induction false} NestHeld(m: Menu, rest: seq<Menu>)
    requires Built(m) && BuiltAll(rest)
    ensures var r := Nest(m, rest); HeldUnder(r.m.entry, r.m.list) && BuiltAll(r.rest)
    decreases Count(m) + CountAll(rest), 0
  {
    hide Takes;
    if m.list != [] {
      NestAllHeld(m.entry, m.list);
    } else if m.entry.sym.Some? {
      TakeAllHeld(m.entry, rest);
    }
  }

  lemma {:induction false} NestAllHeld(parent: Entry, ms: seq<Menu>)
    requires BuiltAll(ms) && parent.block
    ensures HeldUnder(parent, NestAll(ms))
    decreases CountAll(ms), 1
  {
    hide Takes, Nest;
    if ms != [] {
      var p := Nest(ms[0], ms[1..]);
      NestHeld(ms[0], ms[1..]);
      NestAllHeld(parent, p.rest);
      HeldCons(parent, p.m, NestAll(p.rest));
    }
  }

  lemma {:induction false} TakeAllHeld(parent: Entry, ms: seq<Menu>)
    requires BuiltAll(ms)
    ensures var t := TakeAll(parent, ms); HeldUnder(parent, t.list) && BuiltAll(t.rest)
    decreases CountAll(ms), 1
  {
    hide Takes, Nest, Mentions, Justified;
    if ms != [] && Takes(parent, ms[0].entry) {
      var p := Nest(ms[0], ms[1..]);
      NestEntry(ms[0], ms[1..]);
      NestHeld(ms[0], ms[1..]);
      TakeAllHeld(parent, p.rest);
      TakerHolds(parent, ms[0].entry);
      HeldCons(parent, p.m, TakeAll(parent, p.rest).list);
    }
  }

  lemma {:induction false} HeldCons(parent: Entry, m: Menu, list: seq<Menu>)
    requires Holds(parent, m.entry) && HeldUnder(m.entry, m.list) && HeldUnder(parent, list)
    ensures HeldUnder(parent, [m] + list)
  {
    assert ([m] + list)[1..] == list;
  }

  lemma {:induction false} NestEntry(m: Menu, rest: seq<Menu>)
    ensures Nest(m, rest).m.entry == m.entry
  {
  }

  /** Nothing that could be taken was left behind. */
  lemma {:induction false} NestGreedy(m: Menu, rest: seq<Menu>)
    requires Built(m) && BuiltAll(rest)
    ensures var r := Nest(m, rest); Greedy(r.m, FirstOf(r.rest, None))
    decreases Count(m) + CountAll(rest), 0
  {
    if m.list != [] {
      NestAllGreedy(m.list);
      hide Nest, NestAll, TakeAll;
    } else if m.entry.sym.Some? {
      TakeAllGreedy(m.entry, rest);
    }
  }

  lemma {:induction false} NestAllGreedy(ms: seq<Menu>)
    requires BuiltAll(ms)
    ensures AllGreedy(NestAll(ms), None) && FirstOf(NestAll(ms), None) == FirstOf(ms, None)
    decreases CountAll(ms), 1
  {
    hide Takes, Nest;
    if ms != [] {
      var p := Nest(ms[0], ms[1..]);
      NestEntry(ms[0], ms[1..]);
      NestHeld(ms[0], ms[1..]);
      NestGreedy(ms[0], ms[1..]);
      NestAllGreedy(p.rest);
      GreedyCons(p.m, NestAll(p.rest), None);
    }
  }

  lemma {:induction false} TakeAllGreedy(parent: Entry, ms: seq<Menu>)
    requires BuiltAll(ms)
    ensures var t := TakeAll(parent, ms);
            && AllGreedy(t.list, FirstOf(t.rest, None)) && (t.rest == [] || !Takes(parent, t.rest[0].entry))
            && FirstOf(t.list, FirstOf(t.rest, None)) == FirstOf(ms, None)
    decreases CountAll(ms), 1
  {
    hide Takes, Nest;
    if ms != [] && Takes(parent, ms[0].entry) {
      var p := Nest(ms[0], ms[1..]);
      var t := TakeAll(parent, p.rest);
      NestEntry(ms[0], ms[1..]);
      NestHeld(ms[0], ms[1..]);
      NestGreedy(ms[0], ms[1..]);
      TakeAllGreedy(parent, p.rest);
      GreedyCons(p.m, t.list, FirstOf(t.rest, None));
    }
  }

  lemma {:induction false} GreedyCons(m: Menu, list: seq<Menu>, next: Option<Entry>)
    requires Greedy(m, FirstOf(list, next)) && AllGreedy(list, next)
    ensures AllGreedy([m] + list, next)
  {
    assert ([m] + list)[1..] == list;
  }

  // ----- raising -----

  /** Entries that hang under one without a prompt are moved up, to stand behind it. */
  function Raise(list: seq<Menu>): (r: seq<Menu>)
    ensures CountAll(r) == CountAll(list)
    decreases CountAll(list)
  {
    if list == [] then []
    else if list[0].list != [] && list[0].entry.prompt.None? then
      CountFalls(list);
      var r := Raise(list[0].list + list[1..]);
      CountCons(Menu(list[0].entry, []), r);
      [Menu(list[0].entry, [])] + r
    else [list[0]] + Raise(list[1..])
  }

  /** The same at every level, from the bottom up. */
  function Raised(m: Menu): (r: Menu)
    ensures r.entry == m.entry && Count(r) == Count(m)
  {
    Menu(m.entry, Raise(RaisedAll(m.list)))
  }

  function RaisedAll(list: seq<Menu>): (r: seq<Menu>)
    ensures CountAll(r) == CountAll(list)
  {
    if list == [] then [] else [Raised(list[0])] + RaisedAll(list[1..])
  }

  lemma {:induction false} RaiseKeeps(list: seq<Menu>)
    ensures FlattenAll(Raise(list)) == FlattenAll(list)
    decreases CountAll(list)
  {
    if list != [] {
      var c, rest := list[0], list[1..];
      if c.list != [] && c.entry.prompt.None? {
        CountFalls(list);
        RaiseKeeps(c.list + rest);
        FlattenAppend(c.list, rest);
        FlattenCons(Menu(c.entry, []), Raise(c.list + rest));
        Regroup([c.entry], FlattenAll(c.list), FlattenAll(rest));
      } else {
        CountFalls(list);
        RaiseKeeps(rest);
        FlattenCons(c, Raise(rest));
      }
    }
  }

  /** Raising keeps every entry and the order. */
  lemma {:induction false} RaisedKeeps(m: Menu)
    ensures Flatten(Raised(m)) == Flatten(m)
  {
    RaisedAllKeeps(m.list);
    RaiseKeeps(RaisedAll(m.list));
  }

  lemma {:induction false} RaisedAllKeeps(list: seq<Menu>)
    ensures FlattenAll(RaisedAll(list)) == FlattenAll(list)
  {
    if list != [] {
      RaisedKeeps(list[0]);
      RaisedAllKeeps(list[1..]);
      FlattenCons(Raised(list[0]), RaisedAll(list[1..]));
    }
  }

  /** At every level only entries with a prompt have anything under them. */
  predicate Prompted(list: seq<Menu>)
    decreases list
  {
    list != [] ==>
      && (list[0].list != [] ==> list[0].entry.prompt.Some?)
      && Prompted(list[0].list)
      && Prompted(list[1..])
  }

  /** The same from the second level on. */
  predicate PromptedBelow(list: seq<Menu>) {
    list != [] ==> Prompted(list[0].list) && PromptedBelow(list[1..])
  }

  lemma {:induction false} PromptedIsBelow(a: seq<Menu>, b: seq<Menu>)
    requires Prompted(a) && PromptedBelow(b)
    ensures PromptedBelow(a + b)
  {
    if a == [] {
      assert a + b == b;
    } else {
      assert (a + b)[1..] == a[1..] + b;
      PromptedIsBelow(a[1..], b);
    }
  }

  lemma {:induction false} RaisePrompted(list: seq<Menu>)
    requires PromptedBelow(list)
    ensures Prompted(Raise(list))
    decreases CountAll(list)
  {
    if list != [] {
      var c, rest := list[0], list[1..];
      CountFalls(list);
      if c.list != [] && c.entry.prompt.None? {
        PromptedIsBelow(c.list, rest);
        RaisePrompted(c.list + rest);
        assert Raise(list)[1..] == Raise(c.list + rest);
      } else {
        RaisePrompted(rest);
        assert Raise(list)[1..] == Raise(rest);
      }
    }
  }

  /** After raising nothing hangs under an entry without a prompt. */
  lemma {:induction false} RaisedPrompted(m: Menu)
    ensures Prompted(Raised(m).list)
  {
    RaisedAllPrompted(m.list);
    RaisePrompted(RaisedAll(m.list));
  }

  lemma {:induction false} RaisedAllPrompted(list: seq<Menu>)
    ensures PromptedBelow(RaisedAll(list))
  {
    if list != [] {
      RaisedPrompted(list[0]);
      RaisedAllPrompted(list[1..]);
      assert RaisedAll(list)[1..] == RaisedAll(list[1..]);
    }
  }

  lemma {:induction false} RaiseNothing(list: seq<Menu>)
    requires Prompted(list)
    ensures Raise(list) == list && RaisedAll(list) == list
    decreases list
  {
    if list != [] {
      RaiseNothing(list[0].list);
      RaiseNothing(list[1..]);
      assert Raised(list[0]) == list[0];
    }
  }

  /** Raising changes nothing exactly when nothing hung under an entry without a prompt. */
  lemma {:induction false} RaisedExact(m: Menu)
    ensures Raised(m) == m <==> Prompted(m.list)
  {
    RaisedPrompted(m);
    if Prompted(m.list) { RaiseNothing(m.list); }
  }

  // ----- which entries are raised -----

  /** The entry, if it has no prompt, is neither a block nor takes the entry beside it. */
  predicate Calm(m: Menu, next: Option<Entry>) {
    m.entry.prompt.None? ==> m.list == [] && !(next.Some? && Takes(m.entry, next.value))
  }

  /** So are the first n of these entries and all entries in their blocks. */
  predicate Quiet(ms: seq<Menu>, n: nat)
    requires n <= |ms|
    decreases ms
  {
    n > 0 ==>
      && Calm(ms[0], FirstOf(ms[1..], None))
      && Quiet(ms[0].list, |ms[0].list|)
      && Quiet(ms[1..], n - 1)
  }

  lemma {:induction false} QuietSplit(ms: seq<Menu>, a: nat, b: nat)
    requires a + b <= |ms|
    ensures Quiet(ms, a + b) <==> Quiet(ms, a) && Quiet(ms[a..], b)
  {
    hide Calm;
    if a == 0 {
      assert ms[0..] == ms;
    } else {
      QuietSplit(ms[1..], a - 1, b);
      assert ms[1..][a - 1..] == ms[a..];
    }
  }

  /** How many of the entries behind it an entry takes away. */
  function Gone(before: seq<Menu>, after: seq<Menu>): int { |before| - |after| }

  lemma {:induction false} NestRest(m: Menu, rest: seq<Menu>)
    ensures var n := Gone(rest, Nest(m, rest).rest); 0 <= n <= |rest| && Nest(m, rest).rest == rest[n..]
    decreases Count(m) + CountAll(rest), 0
  {
    hide Takes;
    if m.list == [] && m.entry.sym.Some? { TakeAllRest(m.entry, rest); }
  }

  lemma {:induction false} TakeAllRest(parent: Entry, ms: seq<Menu>)
    ensures var n := Gone(ms, TakeAll(parent, ms).rest); 0 <= n <= |ms| && TakeAll(parent, ms).rest == ms[n..]
    decreases CountAll(ms), 1
  {
    hide Takes, Nest;
    if ms != [] && Takes(parent, ms[0].entry) {
      var p := Nest(ms[0], ms[1..]);
      NestRest(ms[0], ms[1..]);
      TakeAllRest(parent, p.rest);
    }
  }

  lemma TakesNothing(parent: Entry, child: Entry)
    requires parent.sym.None? || parent.block
    ensures !Takes(parent, child)
  {
  }

  lemma {:induction false} BuiltInside(m: Menu)
    requires Built(m)
    ensures BuiltAll(m.list)
  {
  }

  lemma {:induction false} NoneQuiet(ms: seq<Menu>)
    ensures Quiet(ms, 0) && Quiet([], 0) && Prompted([])
  {
  }

  lemma {:induction false} NestAllSome(ms: seq<Menu>)
    requires ms != []
    ensures NestAll(ms) != []
  {
  }

  lemma {:induction false} TakesFirst(parent: Entry, ms: seq<Menu>)
    ensures TakeAll(parent, ms).list != [] <==> ms != [] && Takes(parent, ms[0].entry)
  {
  }

  lemma {:induction false} NestQuiet(m: Menu, rest: seq<Menu>)
    requires Built(m) && BuiltAll(rest)
    ensures var r := Nest(m, rest);
            var n := Gone(rest, r.rest);
            && 0 <= n <= |rest| && r.rest == rest[n..]
            && (Prompted(r.m.list) <==> Quiet(m.list, |m.list|) && Quiet(rest, n))
            && (r.m.list == [] || r.m.entry.prompt.Some? <==> Calm(m, FirstOf(rest, None)))
    decreases Count(m) + CountAll(rest), 0
  {
    hide Takes, Nest, NestAll, TakeAll, Quiet, Prompted, Built, BuiltAll;
    NestCases(m, rest);
    BuiltInside(m);
    NestRest(m, rest);
    NoneQuiet(rest);
    if m.list != [] {
      NestAllQuiet(m.list);
      NestAllSome(m.list);
    } else if m.entry.sym.Some? {
      TakeAllQuiet(m.entry, rest);
      TakesFirst(m.entry, rest);
    } else if rest != [] {
      TakesNothing(m.entry, rest[0].entry);
    }
  }

  lemma {:induction false} NestAllQuiet(ms: seq<Menu>)
    requires BuiltAll(ms)
    ensures Prompted(NestAll(ms)) <==> Quiet(ms, |ms|)
    decreases CountAll(ms), 1
  {
    hide Takes, Nest, Calm, Built, HeldUnder;
    if ms != [] {
      var p := Nest(ms[0], ms[1..]);
      var n := Gone(ms[1..], p.rest);
      NestQuiet(ms[0], ms[1..]);
      NestHeld(ms[0], ms[1..]);
      NestAllQuiet(p.rest);
      QuietSplit(ms[1..], n, |p.rest|);
      PromptedCons(p.m, NestAll(p.rest));
    }
  }

  lemma {:induction false} TakeAllQuiet(parent: Entry, ms: seq<Menu>)
    requires BuiltAll(ms)
    ensures var t := TakeAll(parent, ms);
            var n := Gone(ms, t.rest);
            && 0 <= n <= |ms| && t.rest == ms[n..] && (t.list == [] <==> n == 0)
            && (Prompted(t.list) <==> Quiet(ms, n))
    decreases CountAll(ms), 1
  {
    hide Takes, Nest, Calm, Built, HeldUnder;
    TakeAllRest(parent, ms);
    if ms != [] && Takes(parent, ms[0].entry) {
      var p := Nest(ms[0], ms[1..]);
      var n := Gone(ms[1..], p.rest);
      var t := TakeAll(parent, p.rest);
      NestQuiet(ms[0], ms[1..]);
      NestHeld(ms[0], ms[1..]);
      TakeAllQuiet(parent, p.rest);
      QuietSplit(ms[1..], n, Gone(p.rest, t.rest));
      PromptedCons(p.m, t.list);
    }
  }

  lemma {:induction false} PromptedCons(m: Menu, list: seq<Menu>)
    ensures Prompted([m] + list)
       <==> (m.list == [] || m.entry.prompt.Some?) && Prompted(m.list) && Prompted(list)
  {
    assert ([m] + list)[1..] == list;
  }

  // ----- who holds an entry that was raised -----

  /** At every level each entry is held by what it hangs under or by one of the entries without a prompt that stand
      in front of it beside it. */
  ghost predicate Accounted(holders: set<Entry>, list: seq<Menu>)
    decreases list
  {
    list != [] ==>
      && (exists h <- holders :: Holds(h, list[0].entry))
      && Accounted({list[0].entry}, list[0].list)
      && Accounted(With(holders, list[0].entry), list[1..])
  }

  function With(holders: set<Entry>, e: Entry): set<Entry> {
    if e.prompt.None? then holders + {e} else holders
  }

  lemma {:induction false} MoreHolders(a: set<Entry>, b: set<Entry>, list: seq<Menu>)
    requires Accounted(a, list) && a <= b
    ensures Accounted(b, list)
    decreases list
  {
    hide Holds;
    if list != [] {
      var h :| h in a && Holds(h, list[0].entry);
      assert h in b;
      MoreHolders(With(a, list[0].entry), With(b, list[0].entry), list[1..]);
    }
  }

  lemma {:induction false} AccountedAppend(holders: set<Entry>, a: seq<Menu>, b: seq<Menu>)
    requires Accounted(holders, a) && Accounted(holders, b)
    ensures Accounted(holders, a + b)
    decreases a
  {
    hide Holds;
    if a == [] {
      assert a + b == b;
    } else {
      assert (a + b)[1..] == a[1..] + b;
      MoreHolders(holders, With(holders, a[0].entry), b);
      AccountedAppend(With(holders, a[0].entry), a[1..], b);
    }
  }

  lemma {:induction false} AccountedCons(holders: set<Entry>, m: Menu, list: seq<Menu>)
    requires (exists h <- holders :: Holds(h, m.entry)) && Accounted({m.entry}, m.list)
    requires Accounted(With(holders, m.entry), list)
    ensures Accounted(holders, [m] + list)
  {
    hide Holds;
    assert ([m] + list)[1..] == list;
  }

  lemma {:induction false} RaiseAccounted(holders: set<Entry>, list: seq<Menu>)
    requires Accounted(holders, list)
    ensures Accounted(holders, Raise(list))
    decreases CountAll(list)
  {
    hide Holds;
    if list != [] {
      var c, rest := list[0], list[1..];
      CountFalls(list);
      if c.list != [] && c.entry.prompt.None? {
        var all := With(holders, c.entry);
        MoreHolders({c.entry}, all, c.list);
        AccountedAppend(all, c.list, rest);
        RaiseAccounted(all, c.list + rest);
        AccountedCons(holders, Menu(c.entry, []), Raise(c.list + rest));
      } else {
        RaiseAccounted(With(holders, c.entry), rest);
        AccountedCons(holders, c, Raise(rest));
      }
    }
  }

  /** Raising leaves every entry with a holder. */
  lemma {:induction false} RaisedAccounted(m: Menu)
    requires HeldUnder(m.entry, m.list)
    ensures Accounted({m.entry}, Raised(m).list)
    decreases m
  {
    RaisedAllAccounted(m.entry, m.list);
    RaiseAccounted({m.entry}, RaisedAll(m.list));
  }

  lemma {:induction false} RaisedAllAccounted(parent: Entry, list: seq<Menu>)
    requires HeldUnder(parent, list)
    ensures Accounted({parent}, RaisedAll(list))
    decreases list
  {
    hide Holds;
    if list != [] {
      RaisedAccounted(list[0]);
      RaisedAllAccounted(parent, list[1..]);
      MoreHolders({parent}, With({parent}, list[0].entry), RaisedAll(list[1..]));
      AccountedCons({parent}, Raised(list[0]), RaisedAll(list[1..]));
    }
  }

  /** Spelled out for the i-th entry under one that is no block: if that did not take it, an entry without a prompt did
      that stands in front of it, or has it in its block; and what was taken names its taker and implies it in the sense
      of Justified. */
  lemma {:induction false} HolderOf(holders: set<Entry>, list: seq<Menu>, i: nat) returns (h: Entry)
    requires Accounted(holders, list) && i < |list|
    ensures h.block || (Takes(h, list[i].entry) && Mentions(list[i].entry, h.sym) && Justified(h, list[i].entry))
    ensures h in holders || exists j :: 0 <= j < i && list[j].entry == h && h.prompt.None?
    decreases i
  {
    if i == 0 {
      h :| h in holders && Holds(h, list[0].entry);
    } else {
      h := HolderOf(With(holders, list[0].entry), list[1..], i - 1);
      if h !in holders && h != list[0].entry {
        var j :| 0 <= j < i - 1 && list[1..][j].entry == h && h.prompt.None?;
        assert list[j + 1].entry == h;
      }
    }
  }

  // ----- the whole -----

  /** What menu_finalize makes of an entry and those beside it: every entry stays, in order; before anything is raised
      an entry hangs under another exactly for a reason, and nothing that could be taken was left behind; after it
      nothing hangs under an entry without a prompt, and each entry still has a holder. The two shapes are the same if
      and only if, among the entries taken and those in blocks, none without a prompt is a block or takes the one beside
      it. */
  lemma {:induction false} FinalShape(m: Menu, rest: seq<Menu>)
    requires Built(m) && BuiltAll(rest)
    ensures var r := Nest(m, rest);
            var n := Gone(rest, r.rest);
            && Flatten(Raised(r.m)) + FlattenAll(r.rest) == Flatten(m) + FlattenAll(rest)
            && HeldUnder(r.m.entry, r.m.list) && Greedy(r.m, FirstOf(r.rest, None))
            && Prompted(Raised(r.m).list) && Accounted({m.entry}, Raised(r.m).list)
            && 0 <= n <= |rest| && r.rest == rest[n..]
            && (Raised(r.m) == r.m <==> Quiet(m.list, |m.list|) && Quiet(rest, n))
  {
    var r := Nest(m, rest);
    NestKeeps(m, rest);
    NestHeld(m, rest);
    NestGreedy(m, rest);
    NestQuiet(m, rest);
    hide Nest, Raised, Holds, Quiet, Greedy, HeldUnder, Accounted, Prompted, Flatten, FlattenAll, Built, BuiltAll;
    RaisedKeeps(r.m);
    RaisedPrompted(r.m);
    RaisedAccounted(r.m);
    RaisedExact(r.m);
  }

  const X := Config("X", Boolean)
  const A := Config("A", Boolean)
  const B := Config("B", Boolean)
  const C := Config("C", Boolean)
  const ENTRY_A := Entry(Some(A), false, Some(Some(Sym(X))), Some(Sym(X)))
  const ENTRY_B := Entry(Some(B), false, None, Some(Sym(A)))
  const ENTRY_C := Entry(Some(C), false, Some(Some(Sym(B))), Some(Sym(B)))

  /** B set and the other symbols not. */
  function OnlyB(s: Symbol): SymbolValue {
    match s
    case Const(name) => SymbolValue(if name == "y" then 2 else if name == "m" then 1 else 0, name)
    case _ => if s == B then SymbolValue(2, "y") else SymbolValue(0, "n")
  }

  lemma NotJustifiedByA()
    ensures !Justified(ENTRY_A, ENTRY_C)
  {
    var e := ENTRY_C.Dependency();
    assert ValidEnv(OnlyB);
    assert ValueOf(OnlyB, e) == 2 && Comparable(OnlyB, e);
    assert OnlyB(A).tri == 0 && ValueOf(OnlyB, ENTRY_A.PromptDependency()) == 0;
  }

  lemma TakenInTurn()
    ensures Takes(ENTRY_A, ENTRY_B) && Takes(ENTRY_B, ENTRY_C) && !Takes(ENTRY_A, ENTRY_C)
  {
    assert A != B;
    hide Covers;
  }

  lemma NestedInTurn()
    ensures Nest(Menu(ENTRY_A, []), [Menu(ENTRY_B, []), Menu(ENTRY_C, [])])
         == Pulled(Menu(ENTRY_A, [Menu(ENTRY_B, [Menu(ENTRY_C, [])])]), [])
  {
    TakenInTurn();
    hide Takes;
    var b, c := Menu(ENTRY_B, []), Menu(ENTRY_C, []);
    assert TakeAll(ENTRY_C, []) == Taken([], []);
    assert Nest(c, []) == Pulled(c, []);
    assert [c][1..] == [];
    assert TakeAll(ENTRY_B, [c]) == Taken([c], []);
    assert Nest(b, [c]) == Pulled(Menu(ENTRY_B, [c]), []);
    assert [b, c][1..] == [c];
    assert TakeAll(ENTRY_A, [b, c]) == Taken([Menu(ENTRY_B, [c])], []);
  }

  lemma RaisedInTurn()
    ensures Raised(Menu(ENTRY_A, [Menu(ENTRY_B, [Menu(ENTRY_C, [])])]))
         == Menu(ENTRY_A, [Menu(ENTRY_B, []), Menu(ENTRY_C, [])])
  {
    var c := Menu(ENTRY_C, []);
    RaiseNothing([]);
    RaiseNothing([c]);
    assert RaisedAll([c]) == [c] && Raise([c]) == [c];
    assert Raised(Menu(ENTRY_B, [c])) == Menu(ENTRY_B, [c]);
    assert RaisedAll([Menu(ENTRY_B, [c])]) == [Menu(ENTRY_B, [c])];
    assert [c] + [] == [c];
    assert Raise([Menu(ENTRY_B, [c])]) == [Menu(ENTRY_B, [])] + Raise([c]);
  }

  /** B without a prompt depends on A, and C on B: C ends up under A, which did not take it and which it does not
      imply. */
  lemma RaisedFromB()
    ensures Takes(ENTRY_A, ENTRY_B) && Takes(ENTRY_B, ENTRY_C)
    ensures !Takes(ENTRY_A, ENTRY_C) && !Justified(ENTRY_A, ENTRY_C)
    ensures var nested := Nest(Menu(ENTRY_A, []), [Menu(ENTRY_B, []), Menu(ENTRY_C, [])]);
            && nested == Pulled(Menu(ENTRY_A, [Menu(ENTRY_B, [Menu(ENTRY_C, [])])]), [])
            && Raised(nested.m) == Menu(ENTRY_A, [Menu(ENTRY_B, []), Menu(ENTRY_C, [])])
  {
    TakenInTurn();
    NotJustifiedByA();
    NestedInTurn();
    RaisedInTurn();
  }
}
