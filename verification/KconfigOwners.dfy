/** Where each entry ends up in the menu that menu_finalize makes (scripts/kconfig/menu.c): it stays in its block, and
    raising brings it under the nearest entry with a prompt. */
module KconfigOwners {
  import opened Wrappers
  import opened KconfigExpr
  import opened KconfigMenu
  import opened KconfigNesting

  /** For each entry, in the order of the file, the nearest one around it of the kind asked for, or `top`. */
  function Owners(kind: Entry -> bool, top: Entry, list: seq<Menu>): seq<Entry>
    decreases list
  {
    if list == [] then []
    else [top] + Owners(kind, Inner(kind, top, list[0].entry), list[0].list) + Owners(kind, top, list[1..])
  }

  function Inner(kind: Entry -> bool, top: Entry, e: Entry): Entry { if kind(e) then e else top }

  const ANY: Entry -> bool := (e: Entry) => true
  const BLOCK: Entry -> bool := (e: Entry) => e.block
  const PROMPT: Entry -> bool := (e: Entry) => e.prompt.Some?

  lemma {:induction false} OwnersAppend(kind: Entry -> bool, top: Entry, a: seq<Menu>, b: seq<Menu>)
    ensures Owners(kind, top, a + b) == Owners(kind, top, a) + Owners(kind, top, b)
  {
    if a == [] {
      assert a + b == b;
    } else {
      assert (a + b)[1..] == a[1..] + b;
      OwnersAppend(kind, top, a[1..], b);
    }
  }

  lemma {:induction false} OwnersCons(kind: Entry -> bool, top: Entry, m: Menu, list: seq<Menu>)
    ensures Owners(kind, top, [m] + list)
         == [top] + Owners(kind, Inner(kind, top, m.entry), m.list) + Owners(kind, top, list)
  {
    assert ([m] + list)[1..] == list;
  }

  // ----- pulling keeps blocks -----

  /** Pulling moves no entry into a block or out of one. */
  lemma {:induction false} NestOwners(top: Entry, m: Menu, rest: seq<Menu>)
    requires Built(m) && BuiltAll(rest)
    ensures var r := Nest(m, rest); Owners(BLOCK, top, [r.m] + r.rest) == Owners(BLOCK, top, [m] + rest)
    decreases Count(m) + CountAll(rest), 0
  {
    hide Takes, Owners, Nest, NestAll, TakeAll, Flatten;
    var r := Nest(m, rest);
    NestCases(m, rest);
    OwnersCons(BLOCK, top, m, rest);
    OwnersCons(BLOCK, top, r.m, r.rest);
    if m.list != [] {
      NestAllOwners(m.entry, m.list);
    } else if m.entry.sym.Some? {
      TakeAllOwners(top, m.entry, rest);
      NoOwners(BLOCK, top);
      Join([top], Owners(BLOCK, top, r.m.list), Owners(BLOCK, top, r.rest));
    }
  }

  lemma NoOwners(kind: Entry -> bool, top: Entry)
    ensures Owners(kind, top, []) == []
  {
  }

  lemma Join(a: seq<Entry>, b: seq<Entry>, c: seq<Entry>)
    ensures a + b + c == a + (b + c) && a + [] == a
  {
  }

  lemma {:induction false} NestAllOwners(top: Entry, ms: seq<Menu>)
    requires BuiltAll(ms)
    ensures Owners(BLOCK, top, NestAll(ms)) == Owners(BLOCK, top, ms)
    decreases CountAll(ms), 1
  {
    hide Takes, Nest, Owners;
    if ms != [] {
      var p := Nest(ms[0], ms[1..]);
      NestOwners(top, ms[0], ms[1..]);
      NestHeld(ms[0], ms[1..]);
      NestAllOwners(top, p.rest);
      OwnersCons(BLOCK, top, p.m, NestAll(p.rest));
      OwnersCons(BLOCK, top, p.m, p.rest);
      assert [ms[0]] + ms[1..] == ms;
    }
  }

  lemma {:induction false} TakeAllOwners(top: Entry, parent: Entry, ms: seq<Menu>)
    requires BuiltAll(ms)
    ensures var t := TakeAll(parent, ms);
            Owners(BLOCK, top, t.list) + Owners(BLOCK, top, t.rest) == Owners(BLOCK, top, ms)
    decreases CountAll(ms), 1
  {
    hide Takes, Nest, Owners;
    if ms != [] && Takes(parent, ms[0].entry) {
      var p := Nest(ms[0], ms[1..]);
      var t := TakeAll(parent, p.rest);
      NestOwners(top, ms[0], ms[1..]);
      NestHeld(ms[0], ms[1..]);
      TakeAllOwners(top, parent, p.rest);
      OwnersCons(BLOCK, top, p.m, t.list);
      OwnersCons(BLOCK, top, p.m, p.rest);
      assert [ms[0]] + ms[1..] == ms;
    } else {
      NoOwners(BLOCK, top);
      Join([], [], Owners(BLOCK, top, ms));
    }
  }

  // ----- raising -----

  /** Where only entries with a prompt have anything under them, each entry hangs under the nearest of these. */
  lemma {:induction false} PromptedOwners(top: Entry, list: seq<Menu>)
    requires Prompted(list)
    ensures Owners(ANY, top, list) == Owners(PROMPT, top, list)
    decreases list
  {
    if list != [] {
      PromptedOwners(list[0].entry, list[0].list);
      PromptedOwners(top, list[1..]);
    }
  }

  lemma {:induction false} RaiseOwners(top: Entry, list: seq<Menu>)
    requires PromptedBelow(list)
    ensures Owners(ANY, top, Raise(list)) == Owners(PROMPT, top, list)
    decreases CountAll(list)
  {
    hide Owners, Flatten;
    if list == [] {
      NoOwners(ANY, top);
      NoOwners(PROMPT, top);
    } else {
      var c, rest := list[0], list[1..];
      assert [c] + rest == list;
      OwnersCons(PROMPT, top, c, rest);
      CountFalls(list);
      if c.list != [] && c.entry.prompt.None? {
        PromptedIsBelow(c.list, rest);
        RaiseOwners(top, c.list + rest);
        OwnersCons(ANY, top, Menu(c.entry, []), Raise(c.list + rest));
        NoOwners(ANY, c.entry);
        OwnersAppend(PROMPT, top, c.list, rest);
        Join([top], Owners(PROMPT, top, c.list), Owners(PROMPT, top, rest));
      } else {
        RaiseOwners(top, rest);
        OwnersCons(ANY, top, c, Raise(rest));
        PromptedOwners(c.entry, c.list);
        if c.list == [] { NoOwners(PROMPT, top); NoOwners(PROMPT, c.entry); }
      }
    }
  }

  /** After raising each entry hangs under the nearest entry with a prompt of those around it before. */
  lemma {:induction false} RaisedOwners(top: Entry, m: Menu)
    ensures Owners(ANY, top, Raised(m).list) == Owners(PROMPT, top, m.list)
    ensures Owners(PROMPT, top, Raised(m).list) == Owners(PROMPT, top, m.list)
    decreases m
  {
    RaisedAllOwners(top, m.list);
    RaisedAllPrompted(m.list);
    RaiseOwners(top, RaisedAll(m.list));
    RaisedPrompted(m);
    PromptedOwners(top, Raised(m).list);
  }

  lemma {:induction false} RaisedAllOwners(top: Entry, list: seq<Menu>)
    ensures Owners(PROMPT, top, RaisedAll(list)) == Owners(PROMPT, top, list)
    decreases list
  {
    hide Owners, Raised;
    if list != [] {
      RaisedOwners(Inner(PROMPT, top, list[0].entry), list[0]);
      RaisedAllOwners(top, list[1..]);
      OwnersCons(PROMPT, top, list[0], list[1..]);
      OwnersCons(PROMPT, top, Raised(list[0]), RaisedAll(list[1..]));
      assert [list[0]] + list[1..] == list;
    }
  }

  /** What menu_finalize makes of an entry and those beside it: every entry stays in its block, and in the end it hangs
      under the nearest entry with a prompt among those it was nested in. */
  lemma FinalOwners(top: Entry, m: Menu, rest: seq<Menu>)
    requires Built(m) && BuiltAll(rest)
    ensures var r := Nest(m, rest);
            && Owners(BLOCK, top, [r.m] + r.rest) == Owners(BLOCK, top, [m] + rest)
            && Owners(ANY, m.entry, Raised(r.m).list) == Owners(PROMPT, m.entry, r.m.list)
  {
    hide Owners, Nest, Raised, Built, BuiltAll;
    NestOwners(top, m, rest);
    RaisedOwners(m.entry, Nest(m, rest).m);
  }
}
