/** Duplicate elimination in place (scripts/kconfig/expr.c: expr_eliminate_dups1, expr_eliminate_dups2,
    expr_eliminate_dups). The tree is rewritten through two slots that may be the same slot or lie one inside the
    other. */
module KconfigRewriter {
  import opened KconfigExpr
  import opened KconfigSlots
  import opened KconfigDups
  import opened KconfigPasses

  /** The chain at slot `t` became what a pass makes of it; nothing else of the tree changed. */
  ghost predicate Wrote(t: Path, before: Expr, after: Expr, e: Expr) {
    HasSlot(before, t) && after == Put(before, t, e)
  }

  lemma WroteTwice(t: Path, r: Expr, r': Expr, r'': Expr, e: Expr, e': Expr)
    requires Wrote(t, r, r', e) && Wrote(t, r', r'', e')
    ensures Wrote(t, r, r'', e')
  {
    PutPut(r, t, e, e');
  }

  /** Writing a slot of the chain at `t`. */
  lemma WroteInside(op: Op, t: Path, p: Path, r: Expr, r': Expr, x: Expr)
    requires HasSlot(r, t) && InShape(ShapeOf(op, Get(r, t)), p)
    requires Wrote(Append(t, p), r, r', x)
    ensures HasSlot(Get(r, t), p) && Wrote(t, r, r', Put(Get(r, t), p, x))
  {
    ChainSlot(op, t, p, r);
    PutAppend(r, t, p, x);
  }

  /** The tree being simplified and the global count of rewrites. `t` is the slot of the chain being
      worked on; `p` and `q` are the two slots of that chain, relative to `t`. */
  class Rewriter {
    var root: Expr
    var transCount: nat

    constructor (e: Expr)
      ensures root == e && transCount == 0
    {
      root, transCount := e, 0;
    }

    /** What both passes need: a chain of `op` at `t`, and two of its slots. */
    ghost predicate Ready(op: Op, t: Path, p: Path, q: Path)
      reads this
    {
      HasSlot(root, t) && InChain(op, Get(root, t), p, q)
    }

    method EliminateDups1(op: Op, t: Path, p: Path, q: Path)
      requires Ready(op, t, p, q)
      modifies this
      ensures var pass := JoinPass(op, Get(old(root), t), p, q);
              Wrote(t, old(root), root, pass.e) && transCount == old(transCount) + pass.count
      decreases Leaves(Get(root, t)), 1 + 2 * Pairs(ShapeOf(op, Get(root, t)), p, q)
    {
      hide SameMeaning, Sharpens, Foldable, Joinless, Consistent, PairsJoinless, PairsConsistent;
      ghost var shape, r0 := ShapeOf(op, Get(root, t)), root;
      ChainSlot(op, t, p, root);
      ChainSlot(op, t, q, root);
      if IsBin(Get(root, Append(t, p)), op) {
        HalvesFall(shape, p);
        Halves1(op, t, Append(p, Left(Here)), q, Append(p, Right(Here)), q, Pairs(shape, p, q));
        return;
      }
      if IsBin(Get(root, Append(t, q)), op) {
        HalvesFall(shape, q);
        Halves1(op, t, p, Append(q, Left(Here)), p, Append(q, Right(Here)), Pairs(shape, p, q));
        return;
      }
      PutPut(root, t, root, root);
      if p == q { return; }
      JoinBoth(op, t, p, q);
    }

    /** The two halves of a split, one after the other. */
    method Halves1(op: Op, t: Path, p: Path, q: Path, p': Path, q': Path, ghost bound: nat)
      requires Ready(op, t, p, q) && Ready(op, t, p', q')
      requires Pairs(ShapeOf(op, Get(root, t)), p, q) < bound && Pairs(ShapeOf(op, Get(root, t)), p', q') < bound
      modifies this
      ensures var pass := JoinHalves(op, Get(old(root), t), p, q, p', q', bound);
              Wrote(t, old(root), root, pass.e) && transCount == old(transCount) + pass.count
      decreases Leaves(Get(root, t)), 2 * bound
    {
      hide SameMeaning, Sharpens, Foldable, Joinless, Consistent, PairsJoinless, PairsConsistent;
      ghost var r0 := root;
      EliminateDups1(op, t, p, q);
      ghost var r1 := root;
      EliminateDups1(op, t, p', q');
      WroteTwice(t, r0, r1, root, Get(r1, t), Get(root, t));
    }

    /** One operand against another: first inside the operand, then the two. */
    method JoinBoth(op: Op, t: Path, p: Path, q: Path)
      requires Ready(op, t, p, q) && p != q && IsTip(op, Get(root, t), p) && IsTip(op, Get(root, t), q)
      modifies this
      ensures var pass := JoinOperand(op, Get(old(root), t), p, q);
              Wrote(t, old(root), root, pass.e) && transCount == old(transCount) + pass.count
      decreases Leaves(Get(root, t)), 0, 1
    {
      hide SameMeaning, Sharpens, Foldable, Joinless;
      ghost var r0 := root;
      JoinInside(op, t, p);
      ghost var r1 := root;
      StillTip(op, Get(r0, t), Get(root, t), p);
      StillTip(op, Get(r0, t), Get(root, t), q);
      JoinSlots(op, t, p, q);
      WroteTwice(t, r0, r1, root, Get(r1, t), Get(root, t));
    }

    /** The part of the pass that works inside operand `p`. */
    method JoinInside(op: Op, t: Path, p: Path)
      requires Ready(op, t, p, p) && IsTip(op, Get(root, t), p)
      modifies this
      ensures var pass := JoinBelow(op, Get(old(root), t), p);
              Wrote(t, old(root), root, pass.e) && transCount == old(transCount) + pass.count
      decreases Leaves(Get(root, t)), 0, 0
    {
      ChainSlot(op, t, p, root);
      PutPut(root, t, root, root);
      var e1 := Get(root, Append(t, p));
      if e1.Bin? {
        PutLeaves(Get(root, t), p, e1);
        ghost var r0 := root;
        EliminateDups1(e1.op, Append(t, p), Here, Here);
        WroteInside(op, t, p, r0, root, JoinPass(e1.op, e1, Here, Here).e);
      }
    }

    /** The last part of the pass: join operand `p` into operand `q`. */
    method JoinSlots(op: Op, t: Path, p: Path, q: Path)
      requires Ready(op, t, p, q) && p != q && IsTip(op, Get(root, t), p) && IsTip(op, Get(root, t), q)
      modifies this
      ensures var pass := JoinPair(op, Get(old(root), t), p, q);
              Wrote(t, old(root), root, pass.e) && transCount == old(transCount) + pass.count
    {
      ghost var chain, r0 := Get(root, t), root;
      ChainSlot(op, t, p, root);
      ChainSlot(op, t, q, root);
      PutPut(root, t, root, root);
      var joined := JoinOperands(op, Get(root, Append(t, p)), Get(root, Append(t, q)));
      if joined.Some? {
        JoinedPair(op, chain, p, q);
        ghost var half := Put(chain, p, Neutral(op));
        PutAppend(root, t, p, Neutral(op));
        root := Put(root, Append(t, p), Neutral(op));
        PutPut(r0, t, half, Put(half, q, joined.value));
        PutAppend(root, t, q, joined.value);
        root := Put(root, Append(t, q), joined.value);
        transCount := transCount + 1;
      }
    }

    method EliminateDups2(op: Op, t: Path, p: Path, q: Path)
      requires Ready(op, t, p, q)
      modifies this
      ensures var pass := ResolvePass(op, Get(old(root), t), p, q);
              Wrote(t, old(root), root, pass.e) && transCount == old(transCount) + pass.count
      decreases Leaves(Get(root, t)), 1 + 2 * Pairs(ShapeOf(op, Get(root, t)), p, q)
    {
      hide SameMeaning, Sharpens, Foldable, Joinless, Consistent, PairsJoinless, PairsConsistent;
      ghost var shape, r0 := ShapeOf(op, Get(root, t)), root;
      ChainSlot(op, t, p, root);
      ChainSlot(op, t, q, root);
      if IsBin(Get(root, Append(t, p)), op) {
        HalvesFall(shape, p);
        Halves2(op, t, Append(p, Left(Here)), q, Append(p, Right(Here)), q, Pairs(shape, p, q));
        return;
      }
      PutPut(root, t, root, root);
      ghost var chain := Get(root, t);
      SplitSecond(op, t, p, q);
      if p == q { return; }
      StillTip(op, chain, Get(root, t), p);
      ShapeSlot(op, Get(root, t), q);
      ghost var r1 := root;
      ResolveBoth(op, t, p, q);
      WroteTwice(t, r0, r1, root, Get(r1, t), Get(root, t));
    }

    /** The two halves of a split, one after the other. */
    method Halves2(op: Op, t: Path, p: Path, q: Path, p': Path, q': Path, ghost bound: nat)
      requires Ready(op, t, p, q) && Ready(op, t, p', q')
      requires Pairs(ShapeOf(op, Get(root, t)), p, q) < bound && Pairs(ShapeOf(op, Get(root, t)), p', q') < bound
      modifies this
      ensures var pass := ResolveHalves(op, Get(old(root), t), p, q, p', q', bound);
              Wrote(t, old(root), root, pass.e) && transCount == old(transCount) + pass.count
      decreases Leaves(Get(root, t)), 2 * bound, 0
    {
      hide SameMeaning, Sharpens, Foldable, Joinless, Consistent, PairsJoinless, PairsConsistent;
      ghost var r0 := root;
      EliminateDups2(op, t, p, q);
      ghost var r1 := root;
      EliminateDups2(op, t, p', q');
      WroteTwice(t, r0, r1, root, Get(r1, t), Get(root, t));
    }

    /** The halves of slot `q`, if it is a node of the chain. */
    method SplitSecond(op: Op, t: Path, p: Path, q: Path)
      requires Ready(op, t, p, q)
      modifies this
      ensures var pass := ResolveSplit(op, Get(old(root), t), p, q);
              Wrote(t, old(root), root, pass.e) && transCount == old(transCount) + pass.count
      decreases Leaves(Get(root, t)), 2 * Pairs(ShapeOf(op, Get(root, t)), p, q), 1
    {
      hide SameMeaning, Sharpens, Foldable, Consistent, PairsConsistent;
      ChainSlot(op, t, q, root);
      PutPut(root, t, root, root);
      if IsBin(Get(root, Append(t, q)), op) {
        ghost var shape := ShapeOf(op, Get(root, t));
        HalvesFall(shape, q);
        Halves2(op, t, p, Append(q, Left(Here)), p, Append(q, Right(Here)), Pairs(shape, p, q));
      }
    }

    /** One operand against one slot of its chain: first inside the operand, then the two. */
    method ResolveBoth(op: Op, t: Path, p: Path, q: Path)
      requires Ready(op, t, p, q) && p != q && IsTip(op, Get(root, t), p) && IsSlot(op, Get(root, t), q)
      modifies this
      ensures var pass := ResolveOperand(op, Get(old(root), t), p, q);
              Wrote(t, old(root), root, pass.e) && transCount == old(transCount) + pass.count
      decreases Leaves(Get(root, t)), 0, 1
    {
      hide SameMeaning, Sharpens, Foldable, Consistent, Contradicts;
      ghost var r0 := root;
      ResolveInside(op, t, p);
      ghost var r1 := root;
      StillTip(op, Get(r0, t), Get(root, t), p);
      ShapeSlot(op, Get(root, t), q);
      ResolveSlots(op, t, p, q);
      WroteTwice(t, r0, r1, root, Get(r1, t), Get(root, t));
    }

    /** The part of the pass that works inside operand `p`. */
    method ResolveInside(op: Op, t: Path, p: Path)
      requires Ready(op, t, p, p) && IsTip(op, Get(root, t), p)
      modifies this
      ensures var pass := ResolveBelow(op, Get(old(root), t), p);
              Wrote(t, old(root), root, pass.e) && transCount == old(transCount) + pass.count
      decreases Leaves(Get(root, t)), 0, 0
    {
      ChainSlot(op, t, p, root);
      PutPut(root, t, root, root);
      var e1 := Get(root, Append(t, p));
      if e1.Bin? {
        PutLeaves(Get(root, t), p, e1);
        ghost var r0 := root;
        EliminateDups2(e1.op, Append(t, p), Here, Here);
        WroteInside(op, t, p, r0, root, ResolvePass(e1.op, e1, Here, Here).e);
      }
    }

    /** The last part of the pass: look for the negation of operand `p` in `q`. */
    method ResolveSlots(op: Op, t: Path, p: Path, q: Path)
      requires Ready(op, t, p, q) && p != q && IsTip(op, Get(root, t), p) && IsSlot(op, Get(root, t), q)
      modifies this
      ensures var pass := ResolvePair(op, Get(old(root), t), p, q);
              Wrote(t, old(root), root, pass.e) && transCount == old(transCount) + pass.count
    {
      ChainSlot(op, t, p, root);
      ChainSlot(op, t, q, root);
      PutPut(root, t, root, root);
      var e1 := Get(root, Append(t, p));
      if e1.Bin? && Contradicts(op, e1, Get(root, Append(t, q))) {
        PutAppend(root, t, p, Dominant(op));
        root := Put(root, Append(t, p), Dominant(op));
        transCount := transCount + 1;
      }
    }

    /** expr_eliminate_dups: passes over the top chain until one changes nothing. */
    method EliminateDups()
      modifies this
      ensures root == Deduplicated(old(root))
      ensures Sharpens(old(root), root) && Leaves(root) <= Leaves(old(root))
      ensures Joinless(root) && Consistent(root)
      ensures transCount == old(transCount)
    {
      var oldCount := transCount;
      while true
        invariant Deduplicated(root) == Deduplicated(old(root))
        decreases Leaves(root)
      {
        transCount := 0;
        if root.Bin? {
          var op := root.op;
          EliminateDups1(op, Here, Here, Here);
          EliminateDups2(op, Here, Here, Here);
        }
        if transCount == 0 { break; }
        EliminateYnLeaves(root);
        root := EliminateYn(root);
      }
      transCount := oldCount;
    }
  }
}
