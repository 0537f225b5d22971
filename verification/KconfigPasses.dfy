/** What the passes of expr_eliminate_dups compute (scripts/kconfig/expr.c: expr_eliminate_dups1,
    expr_eliminate_dups2, expr_eliminate_dups), as functions of the chain they work on and two of its slots. */
module KconfigPasses {
  import opened Wrappers
  import opened KconfigExpr
  import opened KconfigSlots
  import opened KconfigDups

  /** A chain after some rewrites, and how many there were. */
  datatype Pass = Pass(e: Expr, count: nat)

  /** The two slots lie in the chain of `op`. */
  predicate InChain(op: Op, e: Expr, p: Path, q: Path) {
    IsBin(e, op) && InShape(ShapeOf(op, e), p) && InShape(ShapeOf(op, e), q)
  }

  // ----- expr_eliminate_dups1 -----

  /** Joins the operands below slot `p` with those below slot `q`, three-valued meaning kept; when nothing was
      joined, no two of them can be. */
  function JoinPass(op: Op, e: Expr, p: Path, q: Path): (r: Pass)
    requires InChain(op, e, p, q)
    ensures Joined(op, e, r.e, r.count > 0)
    ensures r.count == 0 <==> PairsJoinless(op, e, p, q)
    decreases Leaves(e), 1 + 2 * Pairs(ShapeOf(op, e), p, q)
  {
    ShapeSlot(op, e, p);
    ShapeSlot(op, e, q);
    if IsBin(Get(e, p), op) then
      HalvesFall(ShapeOf(op, e), p);
      var r := JoinHalves(op, e, Append(p, Left(Here)), q, Append(p, Right(Here)), q, Pairs(ShapeOf(op, e), p, q));
      PairsSplitLeft(op, e, p, q);
      r
    else if IsBin(Get(e, q), op) then
      HalvesFall(ShapeOf(op, e), q);
      var r := JoinHalves(op, e, p, Append(q, Left(Here)), p, Append(q, Right(Here)), Pairs(ShapeOf(op, e), p, q));
      PairsSplitRight(op, e, p, q);
      r
    else if p == q then
      TipsJoinless(op, e, p, q);
      Pass(e, 0)
    else
      var r := JoinOperand(op, e, p, q);
      TipsJoinless(op, e, p, q);
      r
  }

  /** The two halves of a split, one after the other. */
  function JoinHalves(op: Op, e: Expr, p: Path, q: Path, p': Path, q': Path, ghost bound: nat): (r: Pass)
    requires InChain(op, e, p, q) && InChain(op, e, p', q')
    requires Pairs(ShapeOf(op, e), p, q) < bound && Pairs(ShapeOf(op, e), p', q') < bound
    ensures Joined(op, e, r.e, r.count > 0)
    ensures r.count == 0 <==> PairsJoinless(op, e, p, q) && PairsJoinless(op, e, p', q')
    decreases Leaves(e), 2 * bound
  {
    var first := JoinPass(op, e, p, q);
    var second := JoinPass(op, first.e, p', q');
    Pass(second.e, first.count + second.count)
  }

  /** One operand against another: first inside the operand, then the two. */
  function JoinOperand(op: Op, e: Expr, p: Path, q: Path): (r: Pass)
    requires IsBin(e, op) && IsTip(op, e, p) && IsTip(op, e, q) && p != q
    ensures Joined(op, e, r.e, r.count > 0)
    ensures r.count == 0 <==> JoinOperands(op, Get(e, p), Get(e, q)).None? && Joinless(Get(e, p))
    decreases Leaves(e), 0, 1
  {
    var below := JoinBelow(op, e, p);
    StillTip(op, e, below.e, p);
    StillTip(op, e, below.e, q);
    var pair := JoinPair(op, below.e, p, q);
    Pass(pair.e, below.count + pair.count)
  }

  /** The pass inside operand `p`. */
  function JoinBelow(op: Op, e: Expr, p: Path): (r: Pass)
    requires IsBin(e, op) && IsTip(op, e, p)
    ensures Joined(op, e, r.e, r.count > 0)
    ensures r.count == 0 <==> Joinless(Get(e, p))
    decreases Leaves(e), 0, 0
  {
    var x := Get(e, p);
    PutLeaves(e, p, x);
    if !x.Bin? then Pass(e, 0)
    else
      var r := JoinPass(x.op, x, Here, Here);
      ShrunkBelow(op, e, p, r.e, r.count > 0);
      PutMeaning(e, p, r.e);
      ChainJoinless(x.op, x);
      Pass(Put(e, p, r.e), r.count)
  }

  /** Operand `p` joined into operand `q`, if there is a rule for the two. */
  function JoinPair(op: Op, e: Expr, p: Path, q: Path): (r: Pass)
    requires IsBin(e, op) && IsTip(op, e, p) && IsTip(op, e, q) && p != q
    ensures Joined(op, e, r.e, r.count > 0)
    ensures r.count == 0 <==> JoinOperands(op, Get(e, p), Get(e, q)).None?
    ensures r.count <= 1
    ensures r.count > 0 ==> HasSlot(r.e, p) && HasSlot(r.e, q) && Get(r.e, p) == Neutral(op)
    ensures r.count > 0 ==> Some(Get(r.e, q)) == JoinOperands(op, Get(e, p), Get(e, q))
  {
    var joined := JoinOperands(op, Get(e, p), Get(e, q));
    if joined.None? then Pass(e, 0)
    else
      JoinedPair(op, e, p, q);
      SlotsAfterJoin(op, e, p, q, joined.value);
      Pass(Put(Put(e, p, Neutral(op)), q, joined.value), 1)
  }

  // ----- expr_eliminate_dups2 -----

  /** Resolves contradictions of the operands below slot `p` with the parts of the chain below slot `q`, the value
      kept unless it was 'm'; when nothing was resolved, there is no contradiction. A chain node at `q` is compared
      itself too, after its halves. */
  function ResolvePass(op: Op, e: Expr, p: Path, q: Path): (r: Pass)
    requires InChain(op, e, p, q)
    ensures Resolved(op, e, r.e, r.count > 0)
    ensures r.count == 0 <==> PairsConsistent(op, e, p, q)
    decreases Leaves(e), 1 + 2 * Pairs(ShapeOf(op, e), p, q)
  {
    ShapeSlot(op, e, p);
    ShapeSlot(op, e, q);
    if IsBin(Get(e, p), op) then
      HalvesFall(ShapeOf(op, e), p);
      var r := ResolveHalves(op, e, Append(p, Left(Here)), q, Append(p, Right(Here)), q, Pairs(ShapeOf(op, e), p, q));
      ConsistentSplitLeft(op, e, p, q);
      r
    else if p == q then
      SameTipConsistent(op, e, p);
      Pass(e, 0)
    else
      var split := ResolveSplit(op, e, p, q);
      StillTip(op, e, split.e, p);
      ShapeSlot(op, split.e, q);
      var pair := ResolveOperand(op, split.e, p, q);
      ConsistentSplitRight(op, e, p, q);
      Pass(pair.e, split.count + pair.count)
  }

  /** The two halves of a split, one after the other. */
  function ResolveHalves(op: Op, e: Expr, p: Path, q: Path, p': Path, q': Path, ghost bound: nat): (r: Pass)
    requires InChain(op, e, p, q) && InChain(op, e, p', q')
    requires Pairs(ShapeOf(op, e), p, q) < bound && Pairs(ShapeOf(op, e), p', q') < bound
    ensures Resolved(op, e, r.e, r.count > 0)
    ensures r.count == 0 <==> PairsConsistent(op, e, p, q) && PairsConsistent(op, e, p', q')
    decreases Leaves(e), 2 * bound, 0
  {
    var first := ResolvePass(op, e, p, q);
    var second := ResolvePass(op, first.e, p', q');
    Pass(second.e, first.count + second.count)
  }

  /** The halves of slot `q`, if it is a node of the chain. */
  function ResolveSplit(op: Op, e: Expr, p: Path, q: Path): (r: Pass)
    requires InChain(op, e, p, q)
    ensures Resolved(op, e, r.e, r.count > 0)
    ensures ShapeAt(ShapeOf(op, e), q).Fork? ==>
              InShape(ShapeOf(op, e), Append(q, Left(Here))) && InShape(ShapeOf(op, e), Append(q, Right(Here)))
    ensures r.count == 0
       <==> (ShapeAt(ShapeOf(op, e), q).Fork? ==>
               PairsConsistent(op, e, p, Append(q, Left(Here))) && PairsConsistent(op, e, p, Append(q, Right(Here))))
    decreases Leaves(e), 2 * Pairs(ShapeOf(op, e), p, q), 1
  {
    ShapeSlot(op, e, q);
    if !IsBin(Get(e, q), op) then Pass(e, 0)
    else
      HalvesFall(ShapeOf(op, e), q);
      ResolveHalves(op, e, p, Append(q, Left(Here)), p, Append(q, Right(Here)), Pairs(ShapeOf(op, e), p, q))
  }

  /** One operand against one slot of its chain: first inside the operand, then the two. */
  function ResolveOperand(op: Op, e: Expr, p: Path, q: Path): (r: Pass)
    requires IsBin(e, op) && IsTip(op, e, p) && IsSlot(op, e, q) && p != q
    ensures Resolved(op, e, r.e, r.count > 0)
    ensures r.count == 0 <==> (Get(e, p).Bin? ==> !Contradicts(op, Get(e, p), Get(e, q)) && Consistent(Get(e, p)))
    decreases Leaves(e), 0, 1
  {
    var below := ResolveBelow(op, e, p);
    StillTip(op, e, below.e, p);
    ShapeSlot(op, below.e, q);
    var pair := ResolvePair(op, below.e, p, q);
    Pass(pair.e, below.count + pair.count)
  }

  /** The pass inside operand `p`. */
  function ResolveBelow(op: Op, e: Expr, p: Path): (r: Pass)
    requires IsBin(e, op) && IsTip(op, e, p)
    ensures Resolved(op, e, r.e, r.count > 0)
    ensures r.count == 0 <==> Consistent(Get(e, p))
    decreases Leaves(e), 0, 0
  {
    var x := Get(e, p);
    PutLeaves(e, p, x);
    if !x.Bin? then Pass(e, 0)
    else
      var r := ResolvePass(x.op, x, Here, Here);
      ShrunkBelow(op, e, p, r.e, r.count > 0);
      PutSharpens(e, p, r.e);
      ChainConsistent(x.op, x);
      Pass(Put(e, p, r.e), r.count)
  }

  /** Operand `p` decides the chain if its negation is found in `q`. */
  function ResolvePair(op: Op, e: Expr, p: Path, q: Path): (r: Pass)
    requires IsBin(e, op) && IsTip(op, e, p) && IsSlot(op, e, q) && p != q
    ensures Resolved(op, e, r.e, r.count > 0)
    ensures r.count == 0 <==> !(Get(e, p).Bin? && Contradicts(op, Get(e, p), Get(e, q)))
    ensures r.count <= 1 && (r.count > 0 ==> HasSlot(e, p) && r.e == Put(e, p, Dominant(op)))
  {
    if Get(e, p).Bin? && Contradicts(op, Get(e, p), Get(e, q)) then
      ResolvedPair(op, e, p, q);
      Pass(Put(e, p, Dominant(op)), 1)
    else Pass(e, 0)
  }

  // ----- expr_eliminate_dups -----

  /** Passes over the top chain until one changes nothing. The value is kept unless it was 'm', no leaf is added,
      and no pair is left that joins or contradicts. */
  function Deduplicated(e: Expr): (r: Expr)
    ensures Sharpens(e, r) && Leaves(r) <= Leaves(e)
    ensures Joinless(r) && Consistent(r)
    ensures Joinless(e) && Consistent(e) ==> r == e
    decreases Leaves(e)
  {
    if !e.Bin? then e
    else
      ChainJoinless(e.op, e);
      ChainConsistent(e.op, e);
      var joined := JoinPass(e.op, e, Here, Here);
      var resolved := ResolvePass(e.op, joined.e, Here, Here);
      if joined.count + resolved.count == 0 then resolved.e
      else
        EliminateYnLeaves(resolved.e);
        EliminateYnMeaning(resolved.e);
        Deduplicated(EliminateYn(resolved.e))
  }
}
