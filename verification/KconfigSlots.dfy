/** Slots of an expression tree. The C code passes `struct expr **`, the address of a place in a tree;
    here a slot is the path of left and right turns from the root to that place, so two pointers are
    equal exactly when their paths are. */
module KconfigSlots {
  import opened KconfigExpr

  datatype Path = Here | Left(next: Path) | Right(next: Path)

  function Append(p: Path, q: Path): Path {
    match p
    case Here => q
    case Left(p') => Left(Append(p', q))
    case Right(p') => Right(Append(p', q))
  }

  lemma AppendAssociative(p: Path, q: Path, r: Path)
    ensures Append(Append(p, q), r) == Append(p, Append(q, r))
    ensures Append(p, Here) == p
  {
  }

  predicate HasSlot(e: Expr, p: Path) {
    match p
    case Here => true
    case Left(p') => e.Bin? && HasSlot(e.l, p')
    case Right(p') => e.Bin? && HasSlot(e.r, p')
  }

  function Get(e: Expr, p: Path): Expr
    requires HasSlot(e, p)
  {
    match p
    case Here => e
    case Left(p') => Get(e.l, p')
    case Right(p') => Get(e.r, p')
  }

  function Put(e: Expr, p: Path, x: Expr): (e': Expr)
    requires HasSlot(e, p)
    ensures HasSlot(e', p) && Get(e', p) == x
  {
    match p
    case Here => x
    case Left(p') => Bin(e.op, Put(e.l, p', x), e.r)
    case Right(p') => Bin(e.op, e.l, Put(e.r, p', x))
  }

  lemma GetAppend(e: Expr, p: Path, q: Path)
    requires HasSlot(e, p)
    ensures HasSlot(e, Append(p, q)) <==> HasSlot(Get(e, p), q)
    ensures HasSlot(e, Append(p, q)) ==> Get(e, Append(p, q)) == Get(Get(e, p), q)
  {
  }

  lemma {:induction false} PutAppend(e: Expr, p: Path, q: Path, x: Expr)
    requires HasSlot(e, p) && HasSlot(Get(e, p), q)
    ensures HasSlot(e, Append(p, q))
    ensures Put(e, Append(p, q), x) == Put(e, p, Put(Get(e, p), q, x))
  {
    match p
    case Here =>
    case Left(p') => PutAppend(e.l, p', q, x);
    case Right(p') => PutAppend(e.r, p', q, x);
  }

  lemma PutPut(e: Expr, p: Path, x: Expr, y: Expr)
    requires HasSlot(e, p)
    ensures Put(Put(e, p, x), p, y) == Put(e, p, y)
    ensures Put(e, p, Get(e, p)) == e
  {
  }

  /** Only the slot matters: replacing its content by something of the same value keeps the value. */
  lemma PutValue(env: Env, e: Expr, p: Path, x: Expr)
    requires ValidEnv(env) && HasSlot(e, p)
    requires Value(env, Get(e, p)) == Value(env, x)
    ensures Value(env, Put(e, p, x)) == Value(env, e)
  {
  }

  lemma PutMeaning(e: Expr, p: Path, x: Expr)
    requires HasSlot(e, p) && SameMeaning(Get(e, p), x)
    ensures SameMeaning(e, Put(e, p, x))
  {
    forall env: Env | ValidEnv(env) ensures Value(env, e) == Value(env, Put(e, p, x)) {
      PutValue(env, e, p, x);
    }
  }

  /** AND, OR and NOT are monotone in the information order, so sharpening a slot sharpens the whole. */
  lemma {:induction false} PutSharpValue(env: Env, e: Expr, p: Path, x: Expr)
    requires ValidEnv(env) && HasSlot(e, p)
    requires Value(env, Get(e, p)) == 1 || Value(env, Get(e, p)) == Value(env, x)
    ensures Value(env, e) == 1 || Value(env, e) == Value(env, Put(e, p, x))
  {
    match p
    case Here =>
    case Left(p') => PutSharpValue(env, e.l, p', x);
    case Right(p') => PutSharpValue(env, e.r, p', x);
  }

  lemma {:induction false} PutSharpens(e: Expr, p: Path, x: Expr)
    requires HasSlot(e, p) && Sharpens(Get(e, p), x)
    ensures Sharpens(e, Put(e, p, x))
  {
    forall env: Env | ValidEnv(env) ensures Value(env, e) == 1 || Value(env, e) == Value(env, Put(e, p, x)) {
      PutSharpValue(env, e, p, x);
    }
  }

  lemma PutLeaves(e: Expr, p: Path, x: Expr)
    requires HasSlot(e, p)
    ensures Leaves(Put(e, p, x)) == Leaves(e) - Leaves(Get(e, p)) + Leaves(x)
    ensures Leaves(Get(e, p)) <= Leaves(e)
    ensures p != Here ==> Leaves(Get(e, p)) < Leaves(e)
  {
  }

  lemma PutFoldable(e: Expr, p: Path, x: Expr)
    requires HasSlot(e, p) && p != Here && IsYn(x)
    ensures Foldable(Put(e, p, x))
  {
  }

  lemma SlotFoldable(e: Expr, p: Path)
    requires HasSlot(e, p) && Foldable(Get(e, p))
    ensures Foldable(e)
  {
  }

  // ----- the operand chain of one operator -----

  /** The nodes of one operator at the top of an expression, without what hangs below them. */
  datatype Shape = Tip | Fork(l: Shape, r: Shape)

  function ShapeOf(op: Op, e: Expr): Shape {
    if IsBin(e, op) then Fork(ShapeOf(op, e.l), ShapeOf(op, e.r)) else Tip
  }

  predicate InShape(s: Shape, p: Path) {
    match p
    case Here => true
    case Left(p') => s.Fork? && InShape(s.l, p')
    case Right(p') => s.Fork? && InShape(s.r, p')
  }

  function ShapeAt(s: Shape, p: Path): Shape
    requires InShape(s, p)
  {
    match p
    case Here => s
    case Left(p') => ShapeAt(s.l, p')
    case Right(p') => ShapeAt(s.r, p')
  }

  function Forks(s: Shape): nat {
    match s
    case Tip => 0
    case Fork(l, r) => 1 + Forks(l) + Forks(r)
  }

  lemma {:induction false} ShapeSlot(op: Op, e: Expr, p: Path)
    requires InShape(ShapeOf(op, e), p)
    ensures HasSlot(e, p)
    ensures ShapeAt(ShapeOf(op, e), p) == ShapeOf(op, Get(e, p))
  {
    match p
    case Here =>
    case Left(p') => ShapeSlot(op, e.l, p');
    case Right(p') => ShapeSlot(op, e.r, p');
  }

  lemma ShapeAppend(s: Shape, p: Path, q: Path)
    requires InShape(s, p)
    ensures InShape(s, Append(p, q)) <==> InShape(ShapeAt(s, p), q)
    ensures InShape(s, Append(p, q)) ==> ShapeAt(s, Append(p, q)) == ShapeAt(ShapeAt(s, p), q)
  {
  }

  /** A slot holding an operand of the chain. */
  predicate IsTip(op: Op, e: Expr, p: Path) {
    InShape(ShapeOf(op, e), p) && HasSlot(e, p) && !IsBin(Get(e, p), op)
  }

  /** Overwriting an operand by something that is not an `op` node keeps the chain. */
  lemma {:induction false} PutShape(op: Op, e: Expr, p: Path, x: Expr)
    requires InShape(ShapeOf(op, e), p) && ShapeAt(ShapeOf(op, e), p) == ShapeOf(op, x)
    ensures HasSlot(e, p) && ShapeOf(op, Put(e, p, x)) == ShapeOf(op, e)
  {
    match p
    case Here =>
    case Left(p') => PutShape(op, e.l, p', x);
    case Right(p') => PutShape(op, e.r, p', x);
  }

  lemma TipShape(op: Op, x: Expr)
    ensures ShapeOf(op, x) == Tip <==> !IsBin(x, op)
  {
  }

  /** A chain is at most (AND) or at least (OR) each of its members. */
  lemma {:induction false} ChainAbsorbs(env: Env, op: Op, e: Expr, p: Path)
    requires ValidEnv(env) && InShape(ShapeOf(op, e), p)
    ensures HasSlot(e, p) && Apply(op, Value(env, e), Value(env, Get(e, p))) == Value(env, e)
  {
    match p
    case Here =>
    case Left(p') => ChainAbsorbs(env, op, e.l, p');
    case Right(p') => ChainAbsorbs(env, op, e.r, p');
  }

  /** Value of the chain with the operand at `p` left out. */
  function Rest(env: Env, op: Op, e: Expr, p: Path): Tri
    requires ValidEnv(env) && InShape(ShapeOf(op, e), p)
  {
    match p
    case Here => Value(env, Neutral(op))
    case Left(p') => Apply(op, Rest(env, op, e.l, p'), Value(env, e.r))
    case Right(p') => Apply(op, Value(env, e.l), Rest(env, op, e.r, p'))
  }

  lemma {:induction false} RestSplits(env: Env, op: Op, e: Expr, p: Path, x: Expr)
    requires ValidEnv(env) && InShape(ShapeOf(op, e), p)
    ensures HasSlot(e, p) && Value(env, Put(e, p, x)) == Apply(op, Value(env, x), Rest(env, op, e, p))
  {
    match p
    case Here =>
    case Left(p') =>
      RestSplits(env, op, e.l, p', x);
      ApplyAssociative(op, Value(env, x), Rest(env, op, e.l, p'), Value(env, e.r));
    case Right(p') =>
      RestSplits(env, op, e.r, p', x);
      ApplyAssociative(op, Value(env, e.l), Value(env, x), Rest(env, op, e.r, p'));
      ApplyAssociative(op, Value(env, x), Value(env, e.l), Rest(env, op, e.r, p'));
  }

  /** Neither slot lies inside the other. */
  predicate Disjoint(p: Path, q: Path) {
    match (p, q)
    case (Left(p'), Left(q')) => Disjoint(p', q')
    case (Right(p'), Right(q')) => Disjoint(p', q')
    case (Left(_), Right(_)) => true
    case (Right(_), Left(_)) => true
    case _ => false
  }

  lemma TipsDisjoint(s: Shape, p: Path, q: Path)
    requires InShape(s, p) && InShape(s, q) && ShapeAt(s, p) == Tip && ShapeAt(s, q) == Tip && p != q
    ensures Disjoint(p, q) && p != Here && q != Here
  {
  }

  lemma DisjointSymmetric(p: Path, q: Path)
    ensures Disjoint(p, q) == Disjoint(q, p)
  {
  }

  lemma PutDisjoint(e: Expr, p: Path, q: Path, x: Expr)
    requires HasSlot(e, p) && HasSlot(e, q) && Disjoint(p, q)
    ensures HasSlot(Put(e, p, x), q) && Get(Put(e, p, x), q) == Get(e, q)
  {
  }

  /** What is left beside one operand still absorbs every other operand. */
  lemma {:induction false} RestAbsorbs(env: Env, op: Op, e: Expr, p: Path, q: Path)
    requires ValidEnv(env) && InShape(ShapeOf(op, e), p) && InShape(ShapeOf(op, e), q) && Disjoint(p, q)
    ensures HasSlot(e, q) && Apply(op, Rest(env, op, e, p), Value(env, Get(e, q))) == Rest(env, op, e, p)
  {
    match (p, q)
    case (Left(p'), Left(q')) => RestAbsorbs(env, op, e.l, p', q');
    case (Right(p'), Right(q')) => RestAbsorbs(env, op, e.r, p', q');
    case (Left(_), Right(q')) => ChainAbsorbs(env, op, e.r, q');
    case (Right(_), Left(q')) => ChainAbsorbs(env, op, e.l, q');
  }

  /** Merging operand `p` into operand `q`: the chain keeps its value when `q` becomes the
      combination of both and `p` becomes neutral. */
  lemma {:induction false} MergeValue(env: Env, op: Op, e: Expr, p: Path, q: Path, merged: Expr)
    requires ValidEnv(env) && InShape(ShapeOf(op, e), p) && InShape(ShapeOf(op, e), q) && Disjoint(p, q)
    requires HasSlot(e, p) && HasSlot(e, q)
    requires ShapeAt(ShapeOf(op, e), p) == Tip
    requires Value(env, merged) == Apply(op, Value(env, Get(e, p)), Value(env, Get(e, q)))
    ensures var e1 := Put(e, p, Neutral(op));
            HasSlot(e1, q) && Value(env, Put(e1, q, merged)) == Value(env, e)
  {
    var e1 := Put(e, p, Neutral(op));
    PutDisjoint(e, p, q, Neutral(op));
    TipShape(op, Neutral(op));
    PutShape(op, e, p, Neutral(op));
    var v, w := Value(env, Get(e, p)), Value(env, Get(e, q));
    RestSplits(env, op, e, p, Neutral(op));
    RestSplits(env, op, e, p, Get(e, p));
    PutPut(e, p, Get(e, p), Get(e, p));
    assert Value(env, e) == Apply(op, v, Rest(env, op, e, p));
    assert Value(env, e1) == Rest(env, op, e, p);
    RestSplits(env, op, e1, q, merged);
    RestSplits(env, op, e1, q, Get(e, q));
    PutPut(e1, q, Get(e, q), Get(e, q));
    ApplyAssociative(op, v, w, Rest(env, op, e1, q));
  }
}
