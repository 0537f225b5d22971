/** The linked menu entries that menu_finalize rearranges in place (scripts/kconfig/menu.c). */
module KconfigLinks {
  import opened KconfigMenu
  import opened KconfigNesting

  /** A menu entry with the links to the entry it hangs under, the first one that hangs under it and the next one
      beside it. */
  class Node {
    const entry: Entry
    var parent: Node?
    var list: Node?
    var next: Node?

    constructor (entry: Entry)
      ensures this.entry == entry && parent == null && list == null && next == null
    {
      this.entry := entry;
      parent, list, next := null, null, null;
    }

    method SetParent(p: Node?, ghost nodes: seq<Node>, ghost k: nat)
      requires Distinct(nodes) && k < |nodes| && nodes[k] == this
      modifies this`parent
      ensures parent == p
      ensures var s := old(LinksOf(nodes)); LinksOf(nodes) == s[k := s[k].(parent := p)]
    {
      forall i | 0 <= i < |nodes| ensures LinksOf(nodes)[i] == LinkOf(nodes[i]) { LinkAt(nodes, i); }
      hide LinksOf;
      parent := p;
      forall i | 0 <= i < |nodes| ensures LinksOf(nodes)[i] == LinkOf(nodes[i]) { LinkAt(nodes, i); }
    }

    method SetList(first: Node?, ghost nodes: seq<Node>, ghost k: nat)
      requires Distinct(nodes) && k < |nodes| && nodes[k] == this
      modifies this`list
      ensures list == first
      ensures var s := old(LinksOf(nodes)); LinksOf(nodes) == s[k := s[k].(list := first)]
    {
      forall i | 0 <= i < |nodes| ensures LinksOf(nodes)[i] == LinkOf(nodes[i]) { LinkAt(nodes, i); }
      hide LinksOf;
      list := first;
      forall i | 0 <= i < |nodes| ensures LinksOf(nodes)[i] == LinkOf(nodes[i]) { LinkAt(nodes, i); }
    }

    method SetNext(other: Node?, ghost nodes: seq<Node>, ghost k: nat)
      requires Distinct(nodes) && k < |nodes| && nodes[k] == this
      modifies this`next
      ensures next == other
      ensures var s := old(LinksOf(nodes)); LinksOf(nodes) == s[k := s[k].(next := other)]
    {
      forall i | 0 <= i < |nodes| ensures LinksOf(nodes)[i] == LinkOf(nodes[i]) { LinkAt(nodes, i); }
      hide LinksOf;
      next := other;
      forall i | 0 <= i < |nodes| ensures LinksOf(nodes)[i] == LinkOf(nodes[i]) { LinkAt(nodes, i); }
    }
  }

  // ----- what the links say -----

  /** The links of one node, as a value. */
  datatype Link = Link(parent: Node?, list: Node?, next: Node?)

  type Links = seq<Link>

  ghost function LinkOf(n: Node): Link
    reads n
  {
    Link(n.parent, n.list, n.next)
  }

  /** The nodes are numbered in the order of the file, which never changes. */
  ghost predicate Distinct(nodes: seq<Node>) {
    forall i, j :: 0 <= i < j < |nodes| ==> nodes[i] != nodes[j]
  }

  ghost function LinksOf(nodes: seq<Node>): (s: Links)
    reads nodes
    ensures |s| == |nodes|
  {
    if nodes == [] then []
    else
      LinksOf(nodes[..|nodes| - 1]) + [LinkOf(nodes[|nodes| - 1])]
  }

  lemma {:induction false} LinkAt(nodes: seq<Node>, i: nat)
    requires i < |nodes|
    ensures LinksOf(nodes)[i] == LinkOf(nodes[i])
  {
    if i < |nodes| - 1 { LinkAt(nodes[..|nodes| - 1], i); }
  }

  /** What hangs under node i is menu m, made of the nodes that follow it. */
  ghost predicate Shows(nodes: seq<Node>, s: Links, i: nat, m: Menu)
    requires |s| == |nodes|
    decreases m
  {
    && i + Count(m) <= |nodes| && nodes[i].entry == m.entry
    && ShowsAll(nodes, s, i + 1, s[i].list, m.list, nodes[i], null)
  }

  /** From `first` on the menus of `list` stand beside each other under `parent`, followed by `after`; they are made of
      the nodes from i on. */
  ghost predicate ShowsAll(nodes: seq<Node>, s: Links, i: nat, first: Node?, list: seq<Menu>, parent: Node?,
                           after: Node?)
    requires |s| == |nodes|
    decreases list
  {
    && i + CountAll(list) <= |nodes|
    && if list == [] then first == after
       else
         && first == nodes[i] && s[i].parent == parent && Shows(nodes, s, i, list[0])
         && ShowsAll(nodes, s, i + Count(list[0]), s[i].next, list[1..], parent, after)
  }

  /** The links of the nodes from a to b were not changed. */
  ghost predicate Same(s: Links, s': Links, a: nat, b: nat)
    requires b <= |s| == |s'|
    decreases b - a
  {
    a < b ==> s[a] == s'[a] && Same(s, s', a + 1, b)
  }

  /** Only the links of the nodes from a to b were changed. */
  ghost predicate Within(s: Links, s': Links, a: nat, b: nat) {
    && a <= b <= |s| == |s'|
    && Same(s, s', 0, a) && Same(s, s', b, |s|)
  }

  lemma {:induction false} SameAt(s: Links, s': Links, a: nat, b: nat)
    requires b <= |s| == |s'|
    ensures Same(s, s', a, b) <==> forall i :: a <= i < b ==> s[i] == s'[i]
    decreases b - a
  {
    if a < b { SameAt(s, s', a + 1, b); }
  }

  lemma {:induction false} SamePart(s: Links, s': Links, a: nat, b: nat, i: nat, j: nat)
    requires b <= |s| == |s'| && Same(s, s', a, b) && a <= i && j <= b
    ensures Same(s, s', i, j)
  {
    SameAt(s, s', a, b);
    SameAt(s, s', i, j);
  }

  lemma {:induction false} OneChanged(s: Links, j: nat, x: Link, a: nat, b: nat)
    requires j < |s| && b <= |s| && (j < a || b <= j)
    ensures Same(s, s[j := x], a, b)
  {
    SameAt(s, s[j := x], a, b);
  }

  lemma {:induction false} WithinStep(s0: Links, s: Links, a: nat, b: nat, j: nat, x: Link)
    requires Within(s0, s, a, b) && a <= j < b
    ensures Within(s0, s[j := x], a, b)
  {
    SameAt(s0, s, 0, a);
    SameAt(s0, s, b, |s|);
    SameAt(s0, s[j := x], 0, a);
    SameAt(s0, s[j := x], b, |s|);
  }

  lemma {:induction false} WithinItself(s: Links, a: nat, b: nat)
    requires a <= b <= |s|
    ensures Within(s, s, a, b)
  {
    SameAt(s, s, 0, a);
    SameAt(s, s, b, |s|);
  }

  lemma {:induction false} ShowsKept(nodes: seq<Node>, s: Links, s': Links, i: nat, m: Menu)
    requires |s| == |nodes| == |s'| && Shows(nodes, s, i, m)
    requires s'[i].list == s[i].list && Same(s, s', i + 1, i + Count(m))
    ensures Shows(nodes, s', i, m)
    decreases m
  {
    ShowsAllKept(nodes, s, s', i + 1, s[i].list, m.list, nodes[i], null);
  }

  lemma {:induction false} ShowsAllKept(nodes: seq<Node>, s: Links, s': Links, i: nat, first: Node?, list: seq<Menu>,
                                        parent: Node?, after: Node?)
    requires |s| == |nodes| == |s'| && ShowsAll(nodes, s, i, first, list, parent, after)
    requires Same(s, s', i, i + CountAll(list))
    ensures ShowsAll(nodes, s', i, first, list, parent, after)
    decreases list
  {
    if list != [] {
      var j := i + CountAll(list);
      SamePart(s, s', i, j, i + 1, i + Count(list[0]));
      SamePart(s, s', i, j, i + Count(list[0]), j);
      ShowsKept(nodes, s, s', i, list[0]);
      ShowsAllKept(nodes, s, s', i + Count(list[0]), s[i].next, list[1..], parent, after);
    }
  }

  lemma {:induction false} ShowsHead(nodes: seq<Node>, s: Links, i: nat, first: Node?, list: seq<Menu>, parent: Node?,
                                     after: Node?)
    requires |s| == |nodes| && ShowsAll(nodes, s, i, first, list, parent, after)
    ensures i + CountAll(list) <= |nodes| && (list == [] ==> first == after)
    ensures list != [] ==>
              && i < |nodes| && first == nodes[i] && s[i].parent == parent && Shows(nodes, s, i, list[0])
              && CountAll(list) == Count(list[0]) + CountAll(list[1..])
              && ShowsAll(nodes, s, i + Count(list[0]), s[i].next, list[1..], parent, after)
  {
  }

  lemma {:induction false} ShowsAppend(nodes: seq<Node>, s: Links, i: nat, first: Node?, a: seq<Menu>, mid: Node?,
                                       b: seq<Menu>, parent: Node?, after: Node?)
    requires |s| == |nodes| && ShowsAll(nodes, s, i, first, a, parent, mid)
    requires ShowsAll(nodes, s, i + CountAll(a), mid, b, parent, after)
    ensures ShowsAll(nodes, s, i, first, a + b, parent, after)
    decreases a
  {
    CountAppend(a, b);
    if a == [] {
      assert a + b == b;
    } else {
      assert (a + b)[1..] == a[1..] + b;
      ShowsAppend(nodes, s, i + Count(a[0]), s[i].next, a[1..], mid, b, parent, after);
    }
  }

  /** The menus of `list` and then m stand beside each other under `parent`; m starts at node k. */
  ghost predicate Row(nodes: seq<Node>, s: Links, i: nat, first: Node?, list: seq<Menu>, m: Menu, parent: Node?, k: nat,
                      after: Node?)
    requires |s| == |nodes|
  {
    && k == i + CountAll(list) < |nodes|
    && ShowsAll(nodes, s, i, first, list, parent, nodes[k])
    && Shows(nodes, s, k, m) && s[k].parent == parent && s[k].next == after
  }

  lemma {:induction false} RowShows(nodes: seq<Node>, s: Links, i: nat, first: Node?, list: seq<Menu>, m: Menu,
                                    parent: Node?, k: nat, after: Node?)
    requires |s| == |nodes| && Row(nodes, s, i, first, list, m, parent, k, after)
    ensures CountAll(list + [m]) == CountAll(list) + Count(m)
    ensures ShowsAll(nodes, s, i, first, list + [m], parent, after)
  {
    CountAppend(list, [m]);
    assert [m][1..] == [];
    assert ShowsAll(nodes, s, k, nodes[k], [m], parent, after);
    ShowsAppend(nodes, s, i, first, list, nodes[k], [m], parent, after);
  }

  // ----- raising -----

  /** Of a row of menus those in front already have the parent `node`, and those from node j on still `menu`. */
  ghost predicate Midway(nodes: seq<Node>, s: Links, k: nat, first: Node?, front: seq<Menu>, node: Node, j: nat,
                         todo: seq<Menu>, menu: Node)
    requires |s| == |nodes|
  {
    && todo != [] && j == k + CountAll(front) < |nodes|
    && ShowsAll(nodes, s, k, first, front, node, nodes[j])
    && ShowsAll(nodes, s, j, nodes[j], todo, menu, null)
  }

  lemma {:induction false} AtStart(nodes: seq<Node>, s: Links, k: nat, first: Node?, node: Node, todo: seq<Menu>,
                                   menu: Node)
    requires |s| == |nodes| && todo != [] && ShowsAll(nodes, s, k, first, todo, menu, null)
    ensures k < |nodes| && first == nodes[k] && Midway(nodes, s, k, first, [], node, k, todo, menu)
    ensures CountAll([]) == 0 && [] + todo == todo && k + CountAll(todo) <= |nodes|
  {
    ShowsHead(nodes, s, k, first, todo, menu, null);
  }

  /** The menu at node j gets its new parent. */
  lemma {:induction false} Adopted(nodes: seq<Node>, s: Links, s': Links, k: nat, first: Node?, front: seq<Menu>,
                                   node: Node, j: nat, todo: seq<Menu>, menu: Node)
    requires |s| == |nodes| && Midway(nodes, s, k, first, front, node, j, todo, menu)
    requires s' == s[j := s[j].(parent := node)]
    ensures CountAll(front + [todo[0]]) + CountAll(todo[1..]) == CountAll(front) + CountAll(todo)
    ensures front + [todo[0]] + todo[1..] == front + todo
    ensures j == k + CountAll(front) < k + CountAll(front) + CountAll(todo)
    ensures s'[j].next == null ==> todo == [todo[0]] && Row(nodes, s', k, first, front, todo[0], node, j, null)
    ensures s'[j].next != null ==>
              var j' := j + Count(todo[0]);
              && j' < |nodes| && s'[j].next == nodes[j'] && todo[1..] != []
              && Midway(nodes, s', k, first, front + [todo[0]], node, j', todo[1..], menu)
  {
    hide ShowsAll, Shows, CountAll, Count, Same;
    var m, rest := todo[0], todo[1..];
    ShowsHead(nodes, s, j, nodes[j], todo, menu, null);
    ShowsHead(nodes, s, j + Count(m), s[j].next, rest, menu, null);
    var x := s[j].(parent := node);
    OneChanged(s, j, x, k, j);
    OneChanged(s, j, x, j + 1, j + Count(m));
    OneChanged(s, j, x, j + Count(m), j + Count(m) + CountAll(rest));
    ShowsAllKept(nodes, s, s', k, first, front, node, nodes[j]);
    ShowsKept(nodes, s, s', j, m);
    ShowsAllKept(nodes, s, s', j + Count(m), s[j].next, rest, menu, null);
    RowShows(nodes, s', k, first, front, m, node, j, s[j].next);
  }

  method AdoptOne(node: Node, last: Node, ghost nodes: seq<Node>, ghost k: nat, ghost first: Node?,
                  ghost front: seq<Menu>, ghost j: nat, ghost todo: seq<Menu>, ghost menu: Node, ghost s: Links)
    requires Distinct(nodes) && Midway(nodes, LinksOf(nodes), k, first, front, node, j, todo, menu) && last == nodes[j]
    requires Within(s, LinksOf(nodes), k, k + CountAll(front) + CountAll(todo))
    modifies last`parent
    ensures CountAll(front + [todo[0]]) + CountAll(todo[1..]) == CountAll(front) + CountAll(todo)
    ensures front + [todo[0]] + todo[1..] == front + todo
    ensures last.next == null ==>
              todo == [todo[0]] && Row(nodes, LinksOf(nodes), k, first, front, todo[0], node, j, null)
    ensures last.next != null ==>
              var j' := j + Count(todo[0]);
              && j' < |nodes| && last.next == nodes[j'] && todo[1..] != []
              && Midway(nodes, LinksOf(nodes), k, first, front + [todo[0]], node, j', todo[1..], menu)
    ensures Within(s, LinksOf(nodes), k, k + CountAll(front) + CountAll(todo))
  {
    hide ShowsAll, CountAll, Count, Row, Same, Distinct, LinksOf;
    ghost var s1 := LinksOf(nodes);
    last.SetParent(node, nodes, j);
    LinkAt(nodes, j);
    Adopted(nodes, s1, LinksOf(nodes), k, first, front, node, j, todo, menu);
    hide Midway;
    WithinStep(s, s1, k, k + CountAll(front) + CountAll(todo), j, s1[j].(parent := node));
  }

  /** Every entry that hangs under `menu` gets `node` as its parent; `last` is the last of them. */
  method Adopt(node: Node, menu: Node, ghost nodes: seq<Node>, ghost k: nat, ghost list: seq<Menu>)
      returns (last: Node, ghost front: seq<Menu>, ghost m: Menu, ghost j: nat)
    requires Distinct(nodes) && list != [] && ShowsAll(nodes, LinksOf(nodes), k, menu.list, list, menu, null)
    modifies nodes`parent
    ensures Within(old(LinksOf(nodes)), LinksOf(nodes), k, k + CountAll(list))
    ensures front + [m] == list && Row(nodes, LinksOf(nodes), k, menu.list, front, m, node, j, null) && last == nodes[j]
  {
    hide ShowsAll, CountAll, Count, Midway, Row, Same, Within, Distinct, LinksOf;
    ghost var s := LinksOf(nodes);
    AtStart(nodes, s, k, menu.list, node, list, menu);
    WithinItself(s, k, k + CountAll(list));
    last := menu.list;
    ghost var todo := list;
    front, j := [], k;
    while true
      invariant j < |nodes| && last == nodes[j] && todo != [] && front + todo == list
      invariant CountAll(front) + CountAll(todo) == CountAll(list)
      invariant Midway(nodes, LinksOf(nodes), k, menu.list, front, node, j, todo, menu)
      invariant Within(s, LinksOf(nodes), k, k + CountAll(list))
      decreases |todo|
    {
      AdoptOne(node, last, nodes, k, menu.list, front, j, todo, menu, s);
      m := todo[0];
      if last.next == null { break; }
      last := last.next;
      front, todo, j := front + [m], todo[1..], j + Count(m);
    }
  }

  /** The three assignments that move a row of entries up to stand behind node k. */
  lemma {:induction false} Relinked(nodes: seq<Node>, s: Links, s': Links, k: nat, node: Node, front: seq<Menu>,
                                    m: Menu, j: nat, rest: seq<Menu>)
    requires k < |nodes| == |s| && k < j && Row(nodes, s, k + 1, s[k].list, front, m, node, j, null)
    requires ShowsAll(nodes, s, j + Count(m), s[k].next, rest, node, null)
    requires s' == s[j := s[j].(next := s[k].next)][k := s[k].(next := s[k].list, list := null)]
    ensures ShowsAll(nodes, s', k + 1, s'[k].next, front + [m] + rest, node, null)
    ensures k + 1 + CountAll(front + [m]) == j + Count(m)
  {
    hide ShowsAll, CountAll, Same;
    TwoChanged(s, s', k, j, k + 1, j);
    TwoChanged(s, s', k, j, j + 1, j + Count(m));
    ShowsHead(nodes, s, j + Count(m), s[k].next, rest, node, null);
    TwoChanged(s, s', k, j, j + Count(m), j + Count(m) + CountAll(rest));
    ShowsAllKept(nodes, s, s', k + 1, s[k].list, front, node, nodes[j]);
    ShowsKept(nodes, s, s', j, m);
    ShowsAllKept(nodes, s, s', j + Count(m), s[k].next, rest, node, null);
    hide Shows, Count;
    RowShows(nodes, s', k + 1, s'[k].next, front, m, node, j, s'[j].next);
    ShowsAppend(nodes, s', k + 1, s'[k].next, front + [m], s'[j].next, rest, node, null);
  }

  lemma {:induction false} TwoChanged(s: Links, s': Links, k: nat, j: nat, a: nat, b: nat)
    requires b <= |s| == |s'| && forall i :: 0 <= i < |s| && i != k && i != j ==> s[i] == s'[i]
    requires (k < a || b <= k) && (j < a || b <= j)
    ensures Same(s, s', a, b)
  {
    SameAt(s, s', a, b);
  }

  /** At node k the menus in `done` have been looked at and hang under `node`; those in `todo` have not. */
  ghost predicate Between(nodes: seq<Node>, s: Links, i: nat, first: Node?, done: seq<Menu>, node: Node, k: nat,
                          menu: Node?, todo: seq<Menu>, above: Node?)
    requires |s| == |nodes|
  {
    && k == i + CountAll(done)
    && ShowsAll(nodes, s, i, first, done, node, menu)
    && ShowsAll(nodes, s, k, menu, todo, above, null)
  }

  method Relink(menu: Node, last: Node, ghost nodes: seq<Node>, ghost k: nat, ghost j: nat)
    requires Distinct(nodes) && k < j < |nodes| && nodes[k] == menu && nodes[j] == last
    modifies menu, last
    ensures var s := old(LinksOf(nodes));
            LinksOf(nodes) == s[j := s[j].(next := s[k].next)][k := s[k].(next := s[k].list, list := null)]
  {
    LinkAt(nodes, k);
    hide LinksOf;
    last.SetNext(menu.next, nodes, j);
    LinkAt(nodes, k);
    menu.SetNext(menu.list, nodes, k);
    menu.SetList(null, nodes, k);
  }

  /** The entries that hang under one without a prompt are moved up to stand behind it. */
  method RaiseOne(node: Node, menu: Node, ghost nodes: seq<Node>, ghost k: nat, ghost c: Menu, ghost rest: seq<Menu>)
    requires Distinct(nodes) && c.list != [] && ShowsAll(nodes, LinksOf(nodes), k, menu, [c] + rest, node, null)
    modifies nodes
    ensures Within(old(LinksOf(nodes)), LinksOf(nodes), k, k + Count(c))
    ensures ShowsAll(nodes, LinksOf(nodes), k, menu, [Menu(c.entry, [])] + (c.list + rest), node, null)
  {
    hide ShowsAll, CountAll, Count, Shows, Row, Same, Within, Distinct, LinksOf;
    ghost var s := LinksOf(nodes);
    FirstShows(nodes, s, k, menu, c, rest, node);
    LinkAt(nodes, k);
    ghost var front, m, j;
    var last;
    last, front, m, j := Adopt(node, menu, nodes, k + 1, c.list);
    ghost var s1 := LinksOf(nodes);
    LinkAt(nodes, k);
    RowIndex(nodes, s1, k + 1, menu.list, front, m, node, j);
    Relink(menu, last, nodes, k, j);
    RaisedFirst(nodes, s, s1, LinksOf(nodes), k, node, c, rest, front, m, j);
  }

  lemma {:induction false} RowIndex(nodes: seq<Node>, s: Links, i: nat, first: Node?, list: seq<Menu>, m: Menu,
                                    parent: Node?, k: nat)
    requires |s| == |nodes| && Row(nodes, s, i, first, list, m, parent, k, null)
    ensures i <= k < |nodes|
  {
  }

  lemma {:induction false} RaisedFirst(nodes: seq<Node>, s: Links, s1: Links, s2: Links, k: nat, node: Node, c: Menu,
                                       rest: seq<Menu>, front: seq<Menu>, m: Menu, j: nat)
    requires k < |nodes| == |s| && ShowsAll(nodes, s, k, nodes[k], [c] + rest, node, null)
    requires Within(s, s1, k + 1, k + 1 + CountAll(c.list)) && front + [m] == c.list && k < j
    requires Row(nodes, s1, k + 1, s1[k].list, front, m, node, j, null)
    requires s2 == s1[j := s1[j].(next := s1[k].next)][k := s1[k].(next := s1[k].list, list := null)]
    ensures Within(s, s2, k, k + Count(c))
    ensures ShowsAll(nodes, s2, k, nodes[k], [Menu(c.entry, [])] + (c.list + rest), node, null)
  {
    FirstShows(nodes, s, k, nodes[k], c, rest, node);
    var e := k + Count(c);
    hide ShowsAll, CountAll, Count, Shows;
    WithinSame(s, s1, k + 1, e, e, e + CountAll(rest));
    WithinSame(s, s1, k + 1, e, k, k + 1);
    ShowsAllKept(nodes, s, s1, e, s[k].next, rest, node, null);
    RowEnd(nodes, s1, k + 1, front, m, node, j, s1[k].list);
    Relinked(nodes, s1, s2, k, node, front, m, j, rest);
    WithinMore(s, s1, k + 1, k, e);
    WithinStep(s, s1, k, e, j, s2[j]);
    WithinStep(s, s1[j := s2[j]], k, e, k, s2[k]);
    ConsShows(nodes, s2, k, c.entry, c.list + rest, node);
  }
  lemma {:induction false} RowEnd(nodes: seq<Node>, s: Links, i: nat, front: seq<Menu>, m: Menu, node: Node, j: nat,
                                  first: Node?)
    requires |s| == |nodes| && Row(nodes, s, i, first, front, m, node, j, null)
    ensures j + Count(m) == i + CountAll(front + [m]) <= |nodes|
  {
    RowShows(nodes, s, i, first, front, m, node, j, null);
    ShowsHead(nodes, s, i, first, front + [m], node, null);
  }

  lemma {:induction false} ConsShows(nodes: seq<Node>, s: Links, k: nat, e: Entry, list: seq<Menu>, node: Node)
    requires k < |nodes| == |s| && nodes[k].entry == e && s[k].list == null && s[k].parent == node
    requires ShowsAll(nodes, s, k + 1, s[k].next, list, node, null)
    ensures ShowsAll(nodes, s, k, nodes[k], [Menu(e, [])] + list, node, null)
  {
    assert ([Menu(e, [])] + list)[1..] == list;
    CountCons(Menu(e, []), list);
    assert Count(Menu(e, [])) == 1;
    assert Shows(nodes, s, k, Menu(e, []));
  }

  lemma {:induction false} WithinSame(s: Links, s': Links, a: nat, b: nat, i: nat, j: nat)
    requires Within(s, s', a, b) && j <= |s| && (j <= a || b <= i)
    ensures Same(s, s', i, j) && forall x :: i <= x < j ==> s[x] == s'[x]
  {
    if j <= a { SamePart(s, s', 0, a, i, j); } else { SamePart(s, s', b, |s|, i, j); }
    SameAt(s, s', i, j);
  }

  lemma {:induction false} WithinMore(s: Links, s': Links, a: nat, a': nat, b: nat)
    requires Within(s, s', a, b) && a' <= a
    ensures Within(s, s', a', b)
  {
    SamePart(s, s', 0, a, 0, a');
  }

  lemma {:induction false} FirstShows(nodes: seq<Node>, s: Links, k: nat, menu: Node?, c: Menu, rest: seq<Menu>,
                                      node: Node?)
    requires |s| == |nodes| && ShowsAll(nodes, s, k, menu, [c] + rest, node, null)
    ensures k + Count(c) <= |nodes| && menu == nodes[k] && s[k].parent == node && nodes[k].entry == c.entry
    ensures Shows(nodes, s, k, c) && ShowsAll(nodes, s, k + 1, s[k].list, c.list, nodes[k], null)
    ensures ShowsAll(nodes, s, k + Count(c), s[k].next, rest, node, null)
    ensures CountAll([c] + rest) == Count(c) + CountAll(rest) && Count(c) == 1 + CountAll(c.list)
  {
    assert ([c] + rest)[1..] == rest;
    CountCons(c, rest);
  }

  /** The last loop of menu_finalize, over the entries under `node`. */
  method RaiseAll(node: Node, ghost nodes: seq<Node>, ghost i: nat, ghost m: Menu)
    requires Distinct(nodes) && i < |nodes| && nodes[i] == node && Shows(nodes, LinksOf(nodes), i, m)
    modifies nodes
    ensures Shows(nodes, LinksOf(nodes), i, Menu(m.entry, Raise(m.list)))
    ensures Within(old(LinksOf(nodes)), LinksOf(nodes), i + 1, i + Count(m))
  {
    hide ShowsAll, CountAll, Count, Shows, Same, Within, Distinct, LinksOf, Between, Raise;
    ghost var s, first := LinksOf(nodes), node.list;
    LinkAt(nodes, i);
    NoneLooked(nodes, s, i, m);
    var menu := node.list;
    ghost var done, todo, k: nat := [], m.list, i + 1;
    while menu != null
      invariant Between(nodes, LinksOf(nodes), i + 1, first, done, node, k, menu, todo, node)
      invariant Within(s, LinksOf(nodes), i + 1, i + Count(m))
      invariant CountAll(done) + CountAll(todo) == CountAll(m.list) && done + Raise(todo) == Raise(m.list)
      decreases CountAll(todo)
    {
      done, todo, k := RaiseTurn(node, menu, nodes, i + 1, i + Count(m), first, done, k, todo, s);
      menu := menu.next;
    }
    AllLooked(nodes, s, LinksOf(nodes), i, m, done, todo, k);
  }

  lemma {:induction false} NoneLooked(nodes: seq<Node>, s: Links, i: nat, m: Menu)
    requires i < |nodes| == |s| && Shows(nodes, s, i, m)
    ensures Between(nodes, s, i + 1, s[i].list, [], nodes[i], i + 1, s[i].list, m.list, nodes[i])
    ensures CountAll([]) == 0 && [] + Raise(m.list) == Raise(m.list) && nodes[i].entry == m.entry
    ensures Count(m) == 1 + CountAll(m.list) && i + Count(m) <= |nodes|
    ensures Within(s, s, i + 1, i + Count(m))
  {
    WithinItself(s, i + 1, i + Count(m));
    ShowsHead(nodes, s, i + 1, s[i].list, m.list, nodes[i], null);
  }

  lemma {:induction false} AllLooked(nodes: seq<Node>, s: Links, s': Links, i: nat, m: Menu, done: seq<Menu>,
                                     todo: seq<Menu>, k: nat)
    requires i < |nodes| == |s| && Within(s, s', i + 1, i + Count(m)) && nodes[i].entry == m.entry
    requires Between(nodes, s', i + 1, s[i].list, done, nodes[i], k, null, todo, nodes[i])
    requires done + Raise(todo) == Raise(m.list)
    ensures Shows(nodes, s', i, Menu(m.entry, Raise(m.list)))
  {
    WithinSame(s, s', i + 1, i + Count(m), i, i + 1);
    ShowsHead(nodes, s', k, null, todo, nodes[i], null);
    assert done + [] == done;
  }

  /** One turn of it. */
  method RaiseTurn(node: Node, menu: Node, ghost nodes: seq<Node>, ghost a: nat, ghost b: nat, ghost first: Node?,
                   ghost done: seq<Menu>, ghost k: nat, ghost todo: seq<Menu>, ghost s: Links)
      returns (ghost done': seq<Menu>, ghost todo': seq<Menu>, ghost k': nat)
    requires Distinct(nodes) && Between(nodes, LinksOf(nodes), a, first, done, node, k, menu, todo, node)
    requires Within(s, LinksOf(nodes), a, b) && b == a + CountAll(done) + CountAll(todo)
    modifies nodes
    ensures Between(nodes, LinksOf(nodes), a, first, done', node, k', menu.next, todo', node)
    ensures Within(s, LinksOf(nodes), a, b)
    ensures CountAll(done') + CountAll(todo') == CountAll(done) + CountAll(todo) && CountAll(todo') < CountAll(todo)
    ensures done' + Raise(todo') == done + Raise(todo)
  {
    hide ShowsAll, CountAll, Count, Shows, Same, Within, Distinct, LinksOf, Between, Raise;
    ghost var s1 := LinksOf(nodes);
    ToLookAt(nodes, s1, a, first, done, node, k, menu, todo, node);
    ToRaise(todo);
    LinkAt(nodes, k);
    ghost var c, rest := todo[0], todo[1..];
    if menu.list != null && menu.entry.prompt.None? {
      RaiseOne(node, menu, nodes, k, c, rest);
      Alone(nodes, LinksOf(nodes), k, Menu(c.entry, []), c.list + rest, node);
      Moved(nodes, s, s1, LinksOf(nodes), a, b, first, done, node, k, c, rest);
      LinkAt(nodes, k);
      Looked(nodes, LinksOf(nodes), a, first, done, node, k, Menu(c.entry, []), c.list + rest, node);
      OneCount(c.entry);
      Regroup(done, [Menu(c.entry, [])], Raise(c.list + rest));
      done', todo', k' := done + [Menu(c.entry, [])], c.list + rest, k + 1;
    } else {
      Alone(nodes, s1, k, c, rest, node);
      Looked(nodes, s1, a, first, done, node, k, c, rest, node);
      Regroup(done, [c], Raise(rest));
      done', todo', k' := done + [c], rest, k + Count(c);
    }
  }

  lemma {:induction false} ToLookAt(nodes: seq<Node>, s: Links, a: nat, first: Node?, done: seq<Menu>, node: Node,
                                    k: nat, menu: Node, todo: seq<Menu>, above: Node?)
    requires |s| == |nodes| && Between(nodes, s, a, first, done, node, k, menu, todo, above)
    ensures todo != [] && k == a + CountAll(done) < |nodes| && menu == nodes[k]
    ensures ShowsAll(nodes, s, a, first, done, node, menu)
    ensures var c, rest := todo[0], todo[1..];
            && todo == [c] + rest && k + Count(c) <= |nodes| && CountAll(todo) == Count(c) + CountAll(rest)
            && ShowsAll(nodes, s, k, menu, [c] + rest, above, null)
            && menu.entry == c.entry && (s[k].list != null <==> c.list != [])
  {
    ShowsHead(nodes, s, k, menu, todo, above, null);
    ShowsHead(nodes, s, k + 1, s[k].list, todo[0].list, menu, null);
    assert [todo[0]] + todo[1..] == todo;
  }

  lemma {:induction false} ToRaise(todo: seq<Menu>)
    requires todo != []
    ensures var c, rest := todo[0], todo[1..];
            && CountAll(c.list + rest) == CountAll(todo) - 1
            && CountAll(rest) < CountAll(todo)
            && Raise(todo) == if c.list != [] && c.entry.prompt.None?
                              then [Menu(c.entry, [])] + Raise(c.list + rest) else [c] + Raise(rest)
  {
    CountFalls(todo);
  }

  lemma {:induction false} Looked(nodes: seq<Node>, s: Links, a: nat, first: Node?, done: seq<Menu>, node: Node, k: nat,
                                  c: Menu, rest: seq<Menu>, above: Node?)
    requires k == a + CountAll(done) < |nodes| == |s| && ShowsAll(nodes, s, a, first, done, node, nodes[k])
    requires ShowsAll(nodes, s, k, nodes[k], [c], node, s[k].next)
    requires ShowsAll(nodes, s, k + Count(c), s[k].next, rest, above, null)
    ensures Between(nodes, s, a, first, done + [c], node, k + Count(c), s[k].next, rest, above)
    ensures CountAll(done + [c]) == CountAll(done) + Count(c)
  {
    hide ShowsAll, Shows, CountAll;
    CountAppend(done, [c]);
    JustOne(c);
    ShowsAppend(nodes, s, a, first, done, nodes[k], [c], node, s[k].next);
  }

  lemma {:induction false} JustOne(c: Menu)
    ensures CountAll([c]) == Count(c)
  {
    CountCons(c, []);
    assert [c] + [] == [c];
  }

  lemma Regroup(a: seq<Menu>, b: seq<Menu>, c: seq<Menu>)
    ensures a + (b + c) == a + b + c
  {
  }

  lemma {:induction false} Alone(nodes: seq<Node>, s: Links, k: nat, c: Menu, rest: seq<Menu>, node: Node?)
    requires k < |nodes| == |s| && ShowsAll(nodes, s, k, nodes[k], [c] + rest, node, null)
    ensures ShowsAll(nodes, s, k, nodes[k], [c], node, s[k].next)
    ensures ShowsAll(nodes, s, k + Count(c), s[k].next, rest, node, null)
  {
    FirstShows(nodes, s, k, nodes[k], c, rest, node);
    JustOne(c);
    assert [c][1..] == [];
  }

  lemma {:induction false} OneCount(e: Entry)
    ensures Count(Menu(e, [])) == 1
  {
  }

  lemma {:induction false} WithinThen(s: Links, s1: Links, s2: Links, a: nat, b: nat, i: nat, j: nat)
    requires Within(s, s1, a, b) && Within(s1, s2, i, j) && a <= i && j <= b
    ensures Within(s, s2, a, b)
  {
    SameAt(s, s1, 0, a);
    SameAt(s, s1, b, |s|);
    SameAt(s1, s2, 0, i);
    SameAt(s1, s2, j, |s|);
    SameAt(s, s2, 0, a);
    SameAt(s, s2, b, |s|);
  }

  lemma {:induction false} Moved(nodes: seq<Node>, s: Links, s1: Links, s2: Links, a: nat, b: nat, first: Node?,
                                 done: seq<Menu>, node: Node, k: nat, c: Menu, rest: seq<Menu>)
    requires |s1| == |nodes| && k == a + CountAll(done) && b == k + Count(c) + CountAll(rest) && k < |nodes|
    requires ShowsAll(nodes, s1, a, first, done, node, nodes[k])
    requires Within(s, s1, a, b) && Within(s1, s2, k, k + Count(c))
    ensures Within(s, s2, a, b) && ShowsAll(nodes, s2, a, first, done, node, nodes[k])
  {
    hide ShowsAll, CountAll, Count, Same;
    WithinThen(s, s1, s2, a, b, k, k + Count(c));
    WithinSame(s1, s2, k, k + Count(c), a, k);
    ShowsAllKept(nodes, s1, s2, a, first, done, node, nodes[k]);
  }

  // ----- menu_finalize -----

  /** Node i shows menu m, with the menus of `rest` beside it under `above`; compared with s, only the links of the
      nodes that make up m were changed, and not the parent of node i. */
  ghost predicate Placed(nodes: seq<Node>, s: Links, s': Links, i: nat, m: Menu, rest: seq<Menu>, above: Node?) {
    && i < |nodes| == |s| == |s'| && s'[i].parent == s[i].parent
    && Shows(nodes, s', i, m) && ShowsAll(nodes, s', i + Count(m), s'[i].next, rest, above, null)
    && Within(s, s', i, i + Count(m))
  }

  lemma {:induction false} PlacedFirst(nodes: seq<Node>, s: Links, k: nat, menu: Node, c: Menu, rest: seq<Menu>,
                                       above: Node?)
    requires |s| == |nodes| && ShowsAll(nodes, s, k, menu, [c] + rest, above, null)
    ensures Placed(nodes, s, s, k, c, rest, above) && menu == nodes[k] && menu.entry == c.entry
    ensures s[k].parent == above && CountAll([c] + rest) == Count(c) + CountAll(rest)
  {
    FirstShows(nodes, s, k, menu, c, rest, above);
    WithinItself(s, k, k + Count(c));
  }

  /** menu_finalize: the entries beside the node that it can take are moved under it, each with the ones that it takes
      itself, and those under entries without a prompt are moved up. */
  method Finalize(node: Node, ghost nodes: seq<Node>, ghost i: nat, ghost m: Menu, ghost rest: seq<Menu>,
                  ghost above: Node?)
    requires Distinct(nodes) && i < |nodes| && nodes[i] == node && Built(m) && BuiltAll(rest)
    requires Placed(nodes, LinksOf(nodes), LinksOf(nodes), i, m, rest, above)
    modifies nodes
    ensures var r := Nest(m, rest); Placed(nodes, old(LinksOf(nodes)), LinksOf(nodes), i, Raised(r.m), r.rest, above)
    decreases Count(m) + CountAll(rest), 2
  {
    hide ShowsAll, CountAll, Count, Shows, Same, Within, Distinct, LinksOf, Placed, Raise, Built, BuiltAll, Takes;
    ghost var s := LinksOf(nodes);
    LinkAt(nodes, i);
    IsPlaced(nodes, s, i, m, rest, above);
    if node.list != null {
      FinalizeBlock(node, nodes, i, m, rest, above);
    } else if node.entry.sym.Some? {
      PullAll(node, nodes, i, m, rest, above);
    } else {
      NothingUnder(m);
    }
    ghost var s1, r := LinksOf(nodes), Nest(m, rest);
    NestCases(m, rest);
    PlacedShows(nodes, s, s1, i, Menu(m.entry, RaisedAll(r.m.list)), r.rest, above);
    RaiseAll(node, nodes, i, Menu(m.entry, RaisedAll(r.m.list)));
    StillPlaced(nodes, s, s1, LinksOf(nodes), i, m.entry, RaisedAll(r.m.list), r.rest, above);
  }

  lemma {:induction false} IsPlaced(nodes: seq<Node>, s: Links, i: nat, m: Menu, rest: seq<Menu>, above: Node?)
    requires Placed(nodes, s, s, i, m, rest, above)
    ensures i < |nodes| && nodes[i].entry == m.entry && (s[i].list != null <==> m.list != [])
  {
    ShowsHead(nodes, s, i + 1, s[i].list, m.list, nodes[i], null);
  }

  lemma {:induction false} NothingUnder(m: Menu)
    requires m.list == []
    ensures Menu(m.entry, RaisedAll(m.list)) == m
  {
  }

  lemma {:induction false} PlacedShows(nodes: seq<Node>, s: Links, s': Links, i: nat, m: Menu, rest: seq<Menu>,
                                       above: Node?)
    requires Placed(nodes, s, s', i, m, rest, above)
    ensures Shows(nodes, s', i, m)
  {
  }

  lemma {:induction false} StillPlaced(nodes: seq<Node>, s: Links, s1: Links, s2: Links, i: nat, e: Entry,
                                       list: seq<Menu>, rest: seq<Menu>, above: Node?)
    requires |s2| == |nodes| && Placed(nodes, s, s1, i, Menu(e, list), rest, above)
    requires Shows(nodes, s2, i, Menu(e, Raise(list)))
    requires Within(s1, s2, i + 1, i + Count(Menu(e, list)))
    ensures Placed(nodes, s, s2, i, Menu(e, Raise(list)), rest, above)
  {
    hide ShowsAll, CountAll, Count, Shows, Same, Raise;
    var k := i + Count(Menu(e, list));
    RaiseCounts(e, list);
    WithinSame(s1, s2, i + 1, k, i, i + 1);
    WithinThen(s, s1, s2, i, k, i + 1, k);
    ShowsHead(nodes, s1, k, s1[i].next, rest, above, null);
    WithinSame(s1, s2, i + 1, k, k, k + CountAll(rest));
    ShowsAllKept(nodes, s1, s2, k, s1[i].next, rest, above, null);
  }

  lemma {:induction false} RaiseCounts(e: Entry, list: seq<Menu>)
    ensures Count(Menu(e, Raise(list))) == Count(Menu(e, list))
  {
  }

  /** The entries in a block, one after the other. */
  method FinalizeBlock(node: Node, ghost nodes: seq<Node>, ghost i: nat, ghost m: Menu, ghost rest: seq<Menu>,
                       ghost above: Node?)
    requires Distinct(nodes) && i < |nodes| && nodes[i] == node && Built(m) && m.list != []
    requires Placed(nodes, LinksOf(nodes), LinksOf(nodes), i, m, rest, above)
    modifies nodes
    ensures var list := RaisedAll(NestAll(m.list));
            Placed(nodes, old(LinksOf(nodes)), LinksOf(nodes), i, Menu(m.entry, list), rest, above)
    decreases Count(m) + CountAll(rest), 1
  {
    hide ShowsAll, CountAll, Count, Shows, Same, Within, Distinct, LinksOf, Placed, Between, Built, BuiltAll;
    hide NestAll, RaisedAll;
    ghost var s, first := LinksOf(nodes), node.list;
    LinkAt(nodes, i);
    PlacedShows(nodes, s, s, i, m, rest, above);
    NoneLooked(nodes, s, i, m);
    BuiltInside(m);
    NoneDone(NestAll(m.list));
    var menu := node.list;
    ghost var done, todo, k: nat := [], m.list, i + 1;
    while menu != null
      invariant Between(nodes, LinksOf(nodes), i + 1, first, done, node, k, menu, todo, node)
      invariant Within(s, LinksOf(nodes), i + 1, i + Count(m)) && BuiltAll(todo)
      invariant CountAll(done) + CountAll(todo) == CountAll(m.list)
      invariant done + RaisedAll(NestAll(todo)) == RaisedAll(NestAll(m.list))
      decreases CountAll(todo)
    {
      done, todo, k := BlockTurn(node, menu, nodes, i + 1, i + Count(m), first, done, k, todo, s);
      menu := menu.next;
    }
    BlockDone(nodes, s, LinksOf(nodes), i, m, rest, above, done, todo, k);
  }

  lemma {:induction false} NoneDone(list: seq<Menu>)
    ensures [] + RaisedAll(list) == RaisedAll(list)
  {
  }

  method BlockTurn(node: Node, menu: Node, ghost nodes: seq<Node>, ghost a: nat, ghost b: nat, ghost first: Node?,
                   ghost done: seq<Menu>, ghost k: nat, ghost todo: seq<Menu>, ghost s: Links)
      returns (ghost done': seq<Menu>, ghost todo': seq<Menu>, ghost k': nat)
    requires Distinct(nodes) && Between(nodes, LinksOf(nodes), a, first, done, node, k, menu, todo, node)
    requires Within(s, LinksOf(nodes), a, b) && b == a + CountAll(done) + CountAll(todo) && BuiltAll(todo)
    modifies nodes
    ensures Between(nodes, LinksOf(nodes), a, first, done', node, k', menu.next, todo', node)
    ensures Within(s, LinksOf(nodes), a, b) && BuiltAll(todo')
    ensures CountAll(done') + CountAll(todo') == CountAll(done) + CountAll(todo) && CountAll(todo') < CountAll(todo)
    ensures done' + RaisedAll(NestAll(todo')) == done + RaisedAll(NestAll(todo))
    decreases CountAll(todo), 3
  {
    hide ShowsAll, CountAll, Count, Shows, Same, Within, Distinct, LinksOf, Between, Placed, Built, BuiltAll, Nest;
    hide NestAll, Raised, RaisedAll;
    ghost var s1 := LinksOf(nodes);
    ToLookAt(nodes, s1, a, first, done, node, k, menu, todo, node);
    ghost var c, rest := todo[0], todo[1..];
    PlacedFirst(nodes, s1, k, menu, c, rest, node);
    ToNest(todo);
    Finalize(menu, nodes, k, c, rest, node);
    ghost var r := Nest(c, rest);
    LinkAt(nodes, k);
    Finished(nodes, s, s1, LinksOf(nodes), a, b, first, done, node, k, Raised(r.m), r.rest, node);
    done', todo', k' := done + [Raised(r.m)], r.rest, k + Count(Raised(r.m));
    Regroup(done, [Raised(r.m)], RaisedAll(NestAll(r.rest)));
  }

  lemma {:induction false} ToNest(todo: seq<Menu>)
    requires todo != [] && BuiltAll(todo)
    ensures Built(todo[0]) && BuiltAll(todo[1..])
    ensures var r := Nest(todo[0], todo[1..]);
            && BuiltAll(r.rest) && Count(Raised(r.m)) + CountAll(r.rest) == CountAll(todo)
            && Count(todo[0]) + CountAll(todo[1..]) == CountAll(todo)
            && CountAll(r.rest) < CountAll(todo)
            && RaisedAll(NestAll(todo)) == [Raised(r.m)] + RaisedAll(NestAll(r.rest))
  {
    var r := Nest(todo[0], todo[1..]);
    NestHeld(todo[0], todo[1..]);
    assert NestAll(todo) == [r.m] + NestAll(r.rest);
    assert NestAll(todo)[1..] == NestAll(r.rest);
  }

  /** A menu that was finalized at node k, where its parent is known, belongs to those that are done. */
  lemma {:induction false} Finished(nodes: seq<Node>, s: Links, s1: Links, s2: Links, a: nat, b: nat, first: Node?,
                                    done: seq<Menu>, node: Node, k: nat, c: Menu, rest: seq<Menu>, above: Node?)
    requires |s1| == |nodes| && k == a + CountAll(done) && b >= k + Count(c) && k < |nodes|
    requires ShowsAll(nodes, s1, a, first, done, node, nodes[k]) && s1[k].parent == node
    requires Within(s, s1, a, b) && Placed(nodes, s1, s2, k, c, rest, above)
    ensures Within(s, s2, a, b) && Between(nodes, s2, a, first, done + [c], node, k + Count(c), s2[k].next, rest, above)
    ensures CountAll(done + [c]) == CountAll(done) + Count(c)
  {
    assert ShowsAll(nodes, s2, k, nodes[k], [c], node, s2[k].next) by {
      JustOne(c);
      assert [c][1..] == [];
    }
    hide ShowsAll, CountAll, Count, Same;
    WithinThen(s, s1, s2, a, b, k, k + Count(c));
    WithinSame(s1, s2, k, k + Count(c), a, k);
    ShowsAllKept(nodes, s1, s2, a, first, done, node, nodes[k]);
    Looked(nodes, s2, a, first, done, node, k, c, rest, above);
  }

  lemma {:induction false} BlockDone(nodes: seq<Node>, s: Links, s': Links, i: nat, m: Menu, rest: seq<Menu>,
                                     above: Node?, done: seq<Menu>, todo: seq<Menu>, k: nat)
    requires Placed(nodes, s, s, i, m, rest, above) && Within(s, s', i + 1, i + Count(m))
    requires Between(nodes, s', i + 1, s[i].list, done, nodes[i], k, null, todo, nodes[i])
    requires done + RaisedAll(NestAll(todo)) == RaisedAll(NestAll(m.list))
    ensures Placed(nodes, s, s', i, Menu(m.entry, RaisedAll(NestAll(m.list))), rest, above)
  {
    hide ShowsAll, Shows, CountAll, Count, Same, NestAll, RaisedAll;
    IsPlaced(nodes, s, i, m, rest, above);
    BlockEnd(nodes, s', i + 1, s[i].list, done, nodes[i], k, todo, m.list);
    WithinSame(s, s', i + 1, i + Count(m), i, i + 1);
    var e := i + Count(m);
    ShowsHead(nodes, s, e, s[i].next, rest, above, null);
    WithinSame(s, s', i + 1, e, e, e + CountAll(rest));
    ShowsAllKept(nodes, s, s', e, s[i].next, rest, above, null);
    WithinMore(s, s', i + 1, i, e);
    NowShows(nodes, s', i, m.entry, done);
    CountsKept(m);
  }

  lemma {:induction false} BlockEnd(nodes: seq<Node>, s: Links, a: nat, first: Node?, done: seq<Menu>, node: Node,
                                    k: nat, todo: seq<Menu>, list: seq<Menu>)
    requires |s| == |nodes| && Between(nodes, s, a, first, done, node, k, null, todo, node)
    requires done + RaisedAll(NestAll(todo)) == RaisedAll(NestAll(list))
    ensures done == RaisedAll(NestAll(list)) && ShowsAll(nodes, s, a, first, done, node, null)
  {
    ShowsHead(nodes, s, k, null, todo, node, null);
    assert done + [] == done;
  }

  lemma {:induction false} CountsKept(m: Menu)
    ensures Count(Menu(m.entry, RaisedAll(NestAll(m.list)))) == Count(m)
  {
  }

  lemma {:induction false} NowShows(nodes: seq<Node>, s: Links, i: nat, e: Entry, list: seq<Menu>)
    requires i < |nodes| == |s| && nodes[i].entry == e
    requires ShowsAll(nodes, s, i + 1, s[i].list, list, nodes[i], null)
    ensures Shows(nodes, s, i, Menu(e, list)) && Count(Menu(e, list)) == 1 + CountAll(list)
  {
    ShowsHead(nodes, s, i + 1, s[i].list, list, nodes[i], null);
  }

  /** How far the loop that pulls has come: `done` are the menus taken, already raised. */
  ghost predicate Pulling(parent: Entry, rest: seq<Menu>, done: seq<Menu>, todo: seq<Menu>) {
    && BuiltAll(todo) && CountAll(done) + CountAll(todo) == CountAll(rest)
    && done + RaisedAll(TakeAll(parent, todo).list) == RaisedAll(TakeAll(parent, rest).list)
    && TakeAll(parent, todo).rest == TakeAll(parent, rest).rest
  }

  /** Node j is the last of those pulled, if there is one. */
  ghost predicate Last(nodes: seq<Node>, s: Links, a: nat, first: Node?, done: seq<Menu>, node: Node, last: Node?,
                       j: nat, menu: Node?)
    requires |s| == |nodes|
  {
    if done == [] then last == null
    else
      var n := |done| - 1;
      Row(nodes, s, a, first, done[..n], done[n], node, j, menu) && last == nodes[j]
  }

  /** The loop of menu_finalize that pulls entries, and the assignments behind it. */
  method PullAll(node: Node, ghost nodes: seq<Node>, ghost i: nat, ghost m: Menu, ghost rest: seq<Menu>,
                 ghost above: Node?)
    requires Distinct(nodes) && i < |nodes| && nodes[i] == node && Built(m) && BuiltAll(rest)
    requires m.list == [] && m.entry.sym.Some?
    requires Placed(nodes, LinksOf(nodes), LinksOf(nodes), i, m, rest, above)
    modifies nodes
    ensures var t := TakeAll(m.entry, rest);
            Placed(nodes, old(LinksOf(nodes)), LinksOf(nodes), i, Menu(m.entry, RaisedAll(t.list)), t.rest, above)
    decreases Count(m) + CountAll(rest), 1
  {
    hide ShowsAll, CountAll, Count, Shows, Same, Within, Distinct, LinksOf, Placed, Between, BuiltAll, Takes, Last;
    hide Pulling, TakeAll, RaisedAll, Simplified;
    ghost var s, first := LinksOf(nodes), node.next;
    LinkAt(nodes, i);
    IsPlaced(nodes, s, i, m, rest, above);
    NonePulled(nodes, s, i, m, rest, above);
    var base := Simplify(NonNo(node.entry.PromptDependency()));
    var menu, last: Node? := node.next, null;
    ghost var done, todo, k: nat, j: nat := [], rest, i + 1, 0;
    while menu != null
      invariant Between(nodes, LinksOf(nodes), i + 1, first, done, node, k, menu, todo, above)
      invariant Last(nodes, LinksOf(nodes), i + 1, first, done, node, last, j, menu)
      invariant Within(s, LinksOf(nodes), i + 1, k) && Pulling(node.entry, rest, done, todo)
      decreases CountAll(todo)
    {
      ToLookAt(nodes, LinksOf(nodes), i + 1, first, done, node, k, menu, todo, above);
      var take := CanTake(node.entry, menu.entry, base);
      if !take { break; }
      last, j := menu, k;
      done, todo, k := PullTurn(node, menu, nodes, i + 1, first, rest, done, k, todo, s, above);
      menu := menu.next;
    }
    PulledAll(nodes, LinksOf(nodes), i + 1, first, node.entry, rest, done, node, k, menu, todo, above);
    ghost var s1 := LinksOf(nodes);
    if last != null {
      LastAt(nodes, s1, i + 1, first, done, node, last, j, menu);
      Hang(node, last, nodes, i, j);
    }
    Hung(nodes, s, s1, LinksOf(nodes), i, m, rest, above, first, done, last, j, k, menu, todo);
  }

  lemma {:induction false} NonePulled(nodes: seq<Node>, s: Links, i: nat, m: Menu, rest: seq<Menu>, above: Node?)
    requires Placed(nodes, s, s, i, m, rest, above) && m.list == [] && BuiltAll(rest)
    ensures Between(nodes, s, i + 1, s[i].next, [], nodes[i], i + 1, s[i].next, rest, above)
    ensures Within(s, s, i + 1, i + 1) && Pulling(m.entry, rest, [], rest)
    ensures Last(nodes, s, i + 1, s[i].next, [], nodes[i], null, 0, s[i].next)
  {
    OneCount(m.entry);
    assert m == Menu(m.entry, []);
    WithinItself(s, i + 1, i + 1);
  }

  lemma {:induction false} PulledAll(nodes: seq<Node>, s: Links, a: nat, first: Node?, parent: Entry, rest: seq<Menu>,
                                     done: seq<Menu>, node: Node, k: nat, menu: Node?, todo: seq<Menu>, above: Node?)
    requires |s| == |nodes| && Between(nodes, s, a, first, done, node, k, menu, todo, above)
    requires Pulling(parent, rest, done, todo) && (menu != null ==> !Takes(parent, menu.entry))
    ensures done == RaisedAll(TakeAll(parent, rest).list) && todo == TakeAll(parent, rest).rest
  {
    hide ShowsAll, Takes;
    ShowsHead(nodes, s, k, menu, todo, above, null);
    if todo != [] { ToLookAt(nodes, s, a, first, done, node, k, menu, todo, above); }
    assert TakeAll(parent, todo) == Taken([], todo);
    assert done + [] == done;
  }

  lemma {:induction false} LastAt(nodes: seq<Node>, s: Links, a: nat, first: Node?, done: seq<Menu>, node: Node,
                                  last: Node, j: nat, menu: Node?)
    requires |s| == |nodes| && Last(nodes, s, a, first, done, node, last, j, menu)
    ensures a <= j < |nodes| && last == nodes[j]
  {
  }

  method PullTurn(node: Node, menu: Node, ghost nodes: seq<Node>, ghost a: nat, ghost first: Node?,
                  ghost all: seq<Menu>, ghost done: seq<Menu>, ghost k: nat, ghost todo: seq<Menu>, ghost s: Links,
                  ghost above: Node?)
      returns (ghost done': seq<Menu>, ghost todo': seq<Menu>, ghost k': nat)
    requires Distinct(nodes) && Between(nodes, LinksOf(nodes), a, first, done, node, k, menu, todo, above)
    requires Within(s, LinksOf(nodes), a, k) && Pulling(node.entry, all, done, todo) && Takes(node.entry, menu.entry)
    modifies nodes
    ensures Between(nodes, LinksOf(nodes), a, first, done', node, k', menu.next, todo', above)
    ensures Last(nodes, LinksOf(nodes), a, first, done', node, menu, k, menu.next)
    ensures Within(s, LinksOf(nodes), a, k') && Pulling(node.entry, all, done', todo')
    ensures CountAll(todo') < CountAll(todo)
    decreases CountAll(todo), 3
  {
    hide ShowsAll, CountAll, Count, Shows, Same, Within, Distinct, LinksOf, Between, Placed, Built, BuiltAll, Nest;
    hide TakeAll, Raised, RaisedAll, Last, Pulling, Takes;
    ghost var s1 := LinksOf(nodes);
    ToLookAt(nodes, s1, a, first, done, node, k, menu, todo, above);
    ghost var c, rest := todo[0], todo[1..];
    PlacedFirst(nodes, s1, k, menu, c, rest, above);
    ToTake(node.entry, all, done, todo);
    Finalize(menu, nodes, k, c, rest, above);
    ghost var s2, r := LinksOf(nodes), Nest(c, rest);
    menu.SetParent(node, nodes, k);
    LinkAt(nodes, k);
    NowUnder(nodes, s, s1, s2, LinksOf(nodes), a, first, done, node, k, Raised(r.m), r.rest, above);
    done', todo', k' := done + [Raised(r.m)], r.rest, k + Count(Raised(r.m));
  }

  lemma {:induction false} ToTake(parent: Entry, all: seq<Menu>, done: seq<Menu>, todo: seq<Menu>)
    requires todo != [] && Pulling(parent, all, done, todo) && Takes(parent, todo[0].entry)
    ensures Built(todo[0]) && BuiltAll(todo[1..])
    ensures var r := Nest(todo[0], todo[1..]);
            && Pulling(parent, all, done + [Raised(r.m)], r.rest) && CountAll(r.rest) < CountAll(todo)
            && Count(todo[0]) + CountAll(todo[1..]) == CountAll(todo)
  {
    hide Takes, Nest, Built;
    var r := Nest(todo[0], todo[1..]);
    var t := TakeAll(parent, r.rest);
    NestHeld(todo[0], todo[1..]);
    assert TakeAll(parent, todo) == Taken([r.m] + t.list, t.rest);
    assert ([r.m] + t.list)[1..] == t.list;
    Regroup(done, [Raised(r.m)], RaisedAll(t.list));
    CountAppend(done, [Raised(r.m)]);
    JustOne(Raised(r.m));
  }

  lemma {:induction false} NowUnder(nodes: seq<Node>, s: Links, s1: Links, s2: Links, s3: Links, a: nat, first: Node?,
                                    done: seq<Menu>, node: Node, k: nat, c: Menu, rest: seq<Menu>, above: Node?)
    requires |s1| == |nodes| && k == a + CountAll(done) && k < |nodes|
    requires ShowsAll(nodes, s1, a, first, done, node, nodes[k])
    requires Within(s, s1, a, k) && Placed(nodes, s1, s2, k, c, rest, above)
    requires s3 == s2[k := s2[k].(parent := node)]
    ensures Within(s, s3, a, k + Count(c))
    ensures Between(nodes, s3, a, first, done + [c], node, k + Count(c), s3[k].next, rest, above)
    ensures Last(nodes, s3, a, first, done + [c], node, nodes[k], k, s3[k].next)
  {
    hide ShowsAll, CountAll, Same, Shows;
    var e, x := k + Count(c), s2[k].(parent := node);
    PlacedWithin(nodes, s1, s2, k, c, rest, above);
    WithinUp(s, s1, a, k, e);
    WithinThen(s, s1, s2, a, e, k, e);
    WithinStep(s, s2, a, e, k, x);
    WithinStep(s1, s2, k, e, k, x);
    WithinSame(s1, s3, k, e, a, k);
    ShowsAllKept(nodes, s1, s3, a, first, done, node, nodes[k]);
    OneChanged(s2, k, x, k + 1, e);
    ShowsKept(nodes, s2, s3, k, c);
    OneChanged(s2, k, x, e, e + CountAll(rest));
    ShowsAllKept(nodes, s2, s3, e, s2[k].next, rest, above, null);
    assert Row(nodes, s3, a, first, done, c, node, k, s3[k].next);
    RowShows(nodes, s3, a, first, done, c, node, k, s3[k].next);
    assert (done + [c])[..|done|] == done;
  }

  lemma {:induction false} PlacedWithin(nodes: seq<Node>, s: Links, s': Links, i: nat, m: Menu, rest: seq<Menu>,
                                        above: Node?)
    requires Placed(nodes, s, s', i, m, rest, above)
    ensures i + Count(m) + CountAll(rest) <= |nodes| && Within(s, s', i, i + Count(m)) && Count(m) > 0
    ensures Shows(nodes, s', i, m) && ShowsAll(nodes, s', i + Count(m), s'[i].next, rest, above, null)
  {
    ShowsHead(nodes, s', i + Count(m), s'[i].next, rest, above, null);
  }

  lemma {:induction false} WithinUp(s: Links, s': Links, a: nat, b: nat, b': nat)
    requires Within(s, s', a, b) && b <= b' <= |s|
    ensures Within(s, s', a, b')
  {
    SamePart(s, s', b, |s|, b', |s|);
  }

  /** The entries pulled, which still stand beside their parent, are moved under it. */
  method Hang(node: Node, last: Node, ghost nodes: seq<Node>, ghost i: nat, ghost j: nat)
    requires Distinct(nodes) && i < j < |nodes| && nodes[i] == node && nodes[j] == last
    modifies node, last
    ensures var s := old(LinksOf(nodes));
            LinksOf(nodes) == s[i := s[i].(list := s[i].next, next := s[j].next)][j := s[j].(next := null)]
  {
    LinkAt(nodes, i);
    LinkAt(nodes, j);
    hide LinksOf;
    node.SetList(node.next, nodes, i);
    node.SetNext(last.next, nodes, i);
    last.SetNext(null, nodes, j);
  }

  lemma {:induction false} Hung(nodes: seq<Node>, s: Links, s1: Links, s2: Links, i: nat, m: Menu, rest: seq<Menu>,
                                above: Node?, first: Node?, done: seq<Menu>, last: Node?, j: nat, k: nat, menu: Node?,
                                todo: seq<Menu>)
    requires Placed(nodes, s, s, i, m, rest, above) && m.list == [] && first == s[i].next
    requires Within(s, s1, i + 1, k) && Between(nodes, s1, i + 1, first, done, nodes[i], k, menu, todo, above)
    requires Last(nodes, s1, i + 1, first, done, nodes[i], last, j, menu)
    requires if last == null then s2 == s1
             else
               && i < j < |nodes|
               && s2 == s1[i := s1[i].(list := s1[i].next, next := s1[j].next)][j := s1[j].(next := null)]
    ensures Placed(nodes, s, s2, i, Menu(m.entry, done), todo, above)
  {
    if last == null {
      hide Shows;
      WithinSame(s, s1, i + 1, k, i, i + 1);
      WithinMore(s, s1, i + 1, i, k);
      OneCount(m.entry);
      IsPlaced(nodes, s, i, m, rest, above);
      EmptyShows(nodes, s1, i, m.entry);
    } else {
      HungRow(nodes, s, s1, s2, i, m, rest, above, first, done, j, k, menu, todo);
    }
  }

  lemma {:induction false} EmptyShows(nodes: seq<Node>, s: Links, i: nat, e: Entry)
    requires i < |nodes| == |s| && nodes[i].entry == e && s[i].list == null
    ensures Shows(nodes, s, i, Menu(e, []))
  {
    OneCount(e);
  }

  lemma {:induction false} HungRow(nodes: seq<Node>, s: Links, s1: Links, s2: Links, i: nat, m: Menu, rest: seq<Menu>,
                                   above: Node?, first: Node?, done: seq<Menu>, j: nat, k: nat, menu: Node?,
                                   todo: seq<Menu>)
    requires Placed(nodes, s, s, i, m, rest, above) && m.list == [] && first == s[i].next && done != []
    requires Within(s, s1, i + 1, k) && Between(nodes, s1, i + 1, first, done, nodes[i], k, menu, todo, above)
    requires Row(nodes, s1, i + 1, first, done[..|done| - 1], done[|done| - 1], nodes[i], j, menu) && i < j
    requires s2 == s1[i := s1[i].(list := s1[i].next, next := s1[j].next)][j := s1[j].(next := null)]
    ensures Placed(nodes, s, s2, i, Menu(m.entry, done), todo, above)
  {
    hide ShowsAll, Shows, CountAll, Count, Same;
    var front, c := done[..|done| - 1], done[|done| - 1];
    assert front + [c] == done;
    RowShows(nodes, s1, i + 1, first, front, c, nodes[i], j, menu);
    IsPlaced(nodes, s, i, m, rest, above);
    WithinSame(s, s1, i + 1, k, i, i + 1);
    TwoChanged(s1, s2, i, j, i + 1, j);
    ShowsAllKept(nodes, s1, s2, i + 1, first, front, nodes[i], nodes[j]);
    TwoChanged(s1, s2, i, j, j + 1, j + Count(c));
    ShowsKept(nodes, s1, s2, j, c);
    assert Row(nodes, s2, i + 1, first, front, c, nodes[i], j, null);
    RowShows(nodes, s2, i + 1, first, front, c, nodes[i], j, null);
    ShowsHead(nodes, s1, k, menu, todo, above, null);
    TwoChanged(s1, s2, i, j, k, k + CountAll(todo));
    ShowsAllKept(nodes, s1, s2, k, menu, todo, above, null);
    WithinMore(s, s1, i + 1, i, k);
    WithinStep(s, s1, i, k, i, s2[i]);
    WithinStep(s, s1[i := s2[i]], i, k, j, s2[j]);
    NowShows(nodes, s2, i, m.entry, done);
  }
}
