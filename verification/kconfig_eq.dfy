/**
 Constant elimination and equality modulo order (nemu/tools/kconfig/expr.c:142-397).
 */
module KconfigEq {
  import opened Common
  import opened KconfigExpr

  /* ---- expr_eliminate_yn ---- */

  function EliminateYN(e: Expr): Expr {
    if !e.Bin? then e
    else
      var l, r := EliminateYN(e.l), EliminateYN(e.r);
      if e.op.And? then
        if l == Sym(No) then Sym(No)
        else if l == Sym(Yes) then r
        else if r == Sym(No) then Sym(No)
        else if r == Sym(Yes) then l
        else Bin(And, l, r)
      else
        if l == Sym(No) then r
        else if l == Sym(Yes) then Sym(Yes)
        else if r == Sym(No) then l
        else if r == Sym(Yes) then Sym(Yes)
        else Bin(Or, l, r)
  }

  /** Some operand of the && / || tree is the constant y or n. */
  predicate HasYN(e: Expr) {
    if e.Bin? then HasYN(e.l) || HasYN(e.r) else IsYN(e)
  }

  /** Eliminating y and n keeps the value; what is left is y, n or a tree without them, and it is
      smaller exactly when a constant was an operand. */
  lemma {:induction false} EliminateYNCorrect(e: Expr, v: Valuation)
    ensures Eval(EliminateYN(e), v) == Eval(e, v)
    ensures HasYN(EliminateYN(e)) ==> IsYN(EliminateYN(e))
    ensures LeafCount(EliminateYN(e)) <= LeafCount(e)
    ensures e.Bin? ==> (LeafCount(EliminateYN(e)) < LeafCount(e) <==> HasYN(e))
    ensures !HasYN(e) ==> EliminateYN(e) == e
  {
    if e.Bin? {
      EliminateYNCorrect(e.l, v);
      EliminateYNCorrect(e.r, v);
      LeafCountPositive(e.l);
      LeafCountPositive(e.r);
    }
  }

  // c is an operand at the level of t at the top of e.
  predicate HasOperand(t: Op, e: Expr, c: Expr) {
    if IsType(t, e) then HasOperand(t, e.l, c) || HasOperand(t, e.r, c) else e == c
  }

  /* ---- __expr_eliminate_eq, expr_eliminate_eq, expr_eq ---- */

  /** __expr_eliminate_eq: walk the operands of both trees, and where two are equal store the unit of
      `t` in both slots. */
  function EliminateEqLevel(t: Op, e1: Expr, e2: Expr): (r: (Expr, Expr))
    ensures Size(r.0) <= Size(e1) && Size(r.1) <= Size(e2)
    decreases Size(e1) + Size(e2), if IsType(t, e1) || IsType(t, e2) then 0 else 4
  {
    if IsType(t, e1) then
      var a := EliminateEqLevel(t, e1.l, e2);
      var b := EliminateEqLevel(t, e1.r, a.1);
      (Bin(t, a.0, b.0), b.1)
    else if IsType(t, e2) then
      var a := EliminateEqLevel(t, e1, e2.l);
      var b := EliminateEqLevel(t, a.0, e2.r);
      (b.0, Bin(t, a.1, b.1))
    else if e1 == e2 && IsYN(e1) then (e1, e2)
    else if !ExprEq(e1, e2) then (e1, e2)
    else (Unit(t), Unit(t))
  }

  /** expr_eliminate_eq before it removes the constants it stored. */
  function EliminateEqRaw(e1: Expr, e2: Expr): (r: (Expr, Expr))
    ensures Size(r.0) <= Size(e1) && Size(r.1) <= Size(e2)
    decreases Size(e1) + Size(e2), 1
  {
    var a := if e1.Bin? then EliminateEqLevel(e1.op, e1, e2) else (e1, e2);
    if a.1.Bin? && !IsType(a.1.op, a.0) then EliminateEqLevel(a.1.op, a.0, a.1) else a
  }

  /** expr_eliminate_eq */
  function EliminateEq(e1: Expr, e2: Expr): (r: (Expr, Expr))
    decreases Size(e1) + Size(e2), 2
  {
    var a := EliminateEqRaw(e1, e2);
    (EliminateYN(a.0), EliminateYN(a.1))
  }

  /** expr_eq on trees that are not NULL. */
  function ExprEq(e1: Expr, e2: Expr): bool
    decreases Size(e1) + Size(e2), 3
  {
    match e1
    case Cmp(rel, a, b) => e2 == e1
    case Sym(s) => e2 == e1
    case Not(x) => e2.Not? && ExprEq(x, e2.e)
    case Bin(op, _, _) =>
      IsType(op, e2) &&
      var r := EliminateEq(e1, e2);
      r.0.Sym? && r.0 == r.1
  }

  /** expr_eq, where NULL is another way to write y. */
  function ExprEqOpt(e1: Option<Expr>, e2: Option<Expr>): bool {
    if e1.None? || e2.None? then
      (e1.None? || e1.value == Sym(Yes)) && (e2.None? || e2.value == Sym(Yes))
    else ExprEq(e1.value, e2.value)
  }

  /** NULL is nothing but another way to write y. */
  lemma NullIsYes(e1: Option<Expr>, e2: Option<Expr>)
    ensures ExprEqOpt(e1, e2) <==>
            ExprEq(if e1.None? then Sym(Yes) else e1.value, if e2.None? then Sym(Yes) else e2.value)
  {
  }

  /** What a round of elimination at one level means: both trees lost the same part. */
  ghost predicate SplitOff(t: Op, p: Tri, e1: Expr, e2: Expr, r: (Expr, Expr), v: Valuation) {
    Eval(e1, v) == Apply(t, p, Eval(r.0, v)) && Eval(e2, v) == Apply(t, p, Eval(r.1, v))
  }

  lemma Regroup(t: Op, p: Tri, q: Tri, x: Tri, y: Tri)
    ensures Apply(t, Apply(t, p, x), Apply(t, q, y)) == Apply(t, Apply(t, p, q), Apply(t, x, y))
    ensures Apply(t, p, Apply(t, q, x)) == Apply(t, Apply(t, p, q), x)
  {
  }

  lemma {:induction false} EliminateEqLevelSplits(t: Op, e1: Expr, e2: Expr, v: Valuation) returns (p: Tri)
    ensures SplitOff(t, p, e1, e2, EliminateEqLevel(t, e1, e2), v)
    decreases Size(e1) + Size(e2), if IsType(t, e1) || IsType(t, e2) then 0 else 4
  {
    if IsType(t, e1) {
      var a := EliminateEqLevel(t, e1.l, e2);
      var p1 := EliminateEqLevelSplits(t, e1.l, e2, v);
      var p2 := EliminateEqLevelSplits(t, e1.r, a.1, v);
      var b := EliminateEqLevel(t, e1.r, a.1);
      Regroup(t, p1, p2, Eval(a.0, v), Eval(b.0, v));
      Regroup(t, p1, p2, Eval(b.1, v), 0);
      p := Apply(t, p1, p2);
    } else if IsType(t, e2) {
      var a := EliminateEqLevel(t, e1, e2.l);
      var p1 := EliminateEqLevelSplits(t, e1, e2.l, v);
      var p2 := EliminateEqLevelSplits(t, a.0, e2.r, v);
      var b := EliminateEqLevel(t, a.0, e2.r);
      Regroup(t, p1, p2, Eval(a.1, v), Eval(b.1, v));
      Regroup(t, p1, p2, Eval(b.0, v), 0);
      p := Apply(t, p1, p2);
    } else if (e1 == e2 && IsYN(e1)) || !ExprEq(e1, e2) {
      p := Eval(Unit(t), v);
    } else {
      ExprEqSound(e1, e2, v);
      p := Eval(e1, v);
    }
  }

  /** Both rounds of expr_eliminate_eq: the two trees lose p under the first operator, then q under
      the second. */
  lemma {:induction false} EliminateEqRawSplits(e1: Expr, e2: Expr, v: Valuation)
    returns (s: Op, p: Tri, t: Op, q: Tri)
    ensures var r := EliminateEqRaw(e1, e2);
            && Eval(e1, v) == Apply(s, p, Apply(t, q, Eval(r.0, v)))
            && Eval(e2, v) == Apply(s, p, Apply(t, q, Eval(r.1, v)))
    decreases Size(e1) + Size(e2), 1
  {
    s, p, t, q := And, 2, And, 2;
    if e1.Bin? {
      s := e1.op;
      p := EliminateEqLevelSplits(s, e1, e2, v);
    }
    var a := if e1.Bin? then EliminateEqLevel(e1.op, e1, e2) else (e1, e2);
    if a.1.Bin? && !IsType(a.1.op, a.0) {
      t := a.1.op;
      q := EliminateEqLevelSplits(t, a.0, a.1, v);
    }
  }

  /** expr_eq is sound: equal trees have the same value under every valuation. */
  lemma {:induction false} ExprEqSound(e1: Expr, e2: Expr, v: Valuation)
    requires ExprEq(e1, e2)
    ensures Eval(e1, v) == Eval(e2, v)
    decreases Size(e1) + Size(e2), 3
  {
    if e1.Not? {
      ExprEqSound(e1.e, e2.e, v);
    } else if e1.Bin? {
      var r := EliminateEqRaw(e1, e2);
      var s, p, t, q := EliminateEqRawSplits(e1, e2, v);
      EliminateYNCorrect(r.0, v);
      EliminateYNCorrect(r.1, v);
    }
  }

  lemma ExprEqOptSound(e1: Option<Expr>, e2: Option<Expr>, v: Valuation)
    requires ExprEqOpt(e1, e2)
    ensures EvalOpt(e1, v) == EvalOpt(e2, v)
  {
    if e1.Some? && e2.Some? {
      ExprEqSound(e1.value, e2.value, v);
    }
  }

  /* ---- reflexivity ---- */

  // Every operand at level t is y or n already.
  predicate Spent(t: Op, e: Expr) {
    if IsType(t, e) then Spent(t, e.l) && Spent(t, e.r) else IsYN(e)
  }

  // Everything before slot p is spent.
  predicate SpentBefore(t: Op, e: Expr, p: Path)
    requires Within(ShapeOf(t, e), p)
    decreases |p|
  {
    p == [] ||
    (if p[0] then Spent(t, e.l) && SpentBefore(t, e.r, p[1..]) else SpentBefore(t, e.l, p[1..]))
  }

  // What a tree is left as once each operand has met its own copy.
  function Spend(t: Op, e: Expr): Expr {
    if IsType(t, e) then Bin(t, Spend(t, e.l), Spend(t, e.r))
    else if IsYN(e) then e else Unit(t)
  }

  lemma {:induction false} SpendSpent(t: Op, e: Expr)
    ensures Spent(t, Spend(t, e)) && ShapeOf(t, Spend(t, e)) == ShapeOf(t, e)
  {
    if IsType(t, e) {
      SpendSpent(t, e.l);
      SpendSpent(t, e.r);
    }
  }

  lemma {:induction false} SpentFoldsToConstant(t: Op, e: Expr)
    requires Spent(t, e)
    ensures IsYN(EliminateYN(e))
  {
    if IsType(t, e) {
      SpentFoldsToConstant(t, e.l);
      SpentFoldsToConstant(t, e.r);
    }
  }

  /** Constants meet nothing but constants, and those are left alone. */
  lemma {:induction false} SpentIsInert(t: Op, e1: Expr, e2: Expr)
    requires Spent(t, e1) || Spent(t, e2)
    ensures EliminateEqLevel(t, e1, e2) == (e1, e2)
    decreases Size(e1) + Size(e2)
  {
    if IsType(t, e1) {
      SpentIsInert(t, e1.l, e2);
      SpentIsInert(t, e1.r, e2);
    } else if IsType(t, e2) {
      SpentIsInert(t, e1, e2.l);
      SpentIsInert(t, e1, e2.r);
    }
  }

  /** Walking x against a tree that holds a copy of x in slot p, after everything before p is spent,
      spends both copies. */
  lemma {:induction false} MeetsItsCopy(t: Op, x: Expr, e: Expr, p: Path)
    requires Within(ShapeOf(t, e), p) && SpentBefore(t, e, p) && At(t, e, p) == x
    ensures EliminateEqLevel(t, x, e) == (Spend(t, x), Put(t, e, p, Spend(t, x)))
    decreases Size(x), if IsType(t, x) then 0 else 3, |p|
  {
    if IsType(t, x) {
      WithinExtend(ShapeOf(t, e), p, false);
      WithinExtend(ShapeOf(t, e), p, true);
      SpendSpent(t, x.l);
      SlotParts(t, e, p, Spend(t, x.l));
      MeetsItsCopy(t, x.l, e, p + [false]);
      var e' := Put(t, e, p + [false], Spend(t, x.l));
      MeetsItsCopy(t, x.r, e', p + [true]);
      SlotWhole(t, e, p, Spend(t, x.l), Spend(t, x.r));
    } else if p == [] {
      if !IsYN(x) {
        ExprEqReflexive(x);
      }
    } else if p[0] {
      SpentIsInert(t, x, e.l);
      MeetsItsCopy(t, x, e.r, p[1..]);
    } else {
      MeetsItsCopy(t, x, e.l, p[1..]);
      SpendSpent(t, x);
      SpentIsInert(t, Spend(t, x), e.r);
    }
  }

  // The halves of a slot are slots, and the right one comes after the left one.
  lemma {:induction false} SlotParts(t: Op, e: Expr, p: Path, y: Expr)
    requires Within(ShapeOf(t, e), p) && SpentBefore(t, e, p) && IsType(t, At(t, e, p))
    requires Spent(t, y) && ShapeOf(t, y) == ShapeOf(t, At(t, e, p).l)
    ensures Within(ShapeOf(t, e), p + [false]) && Within(ShapeOf(t, e), p + [true])
    ensures SpentBefore(t, e, p + [false]) && At(t, e, p + [false]) == At(t, e, p).l
    ensures var e' := Put(t, e, p + [false], y);
            && Within(ShapeOf(t, e'), p + [true]) && SpentBefore(t, e', p + [true])
            && At(t, e', p + [true]) == At(t, e, p).r
    decreases |p|
  {
    WithinExtend(ShapeOf(t, e), p, false);
    WithinExtend(ShapeOf(t, e), p, true);
    if p != [] {
      SlotParts(t, if p[0] then e.r else e.l, p[1..], y);
      assert (p + [false])[1..] == p[1..] + [false];
      assert (p + [true])[1..] == p[1..] + [true];
    }
  }

  lemma {:induction false} SlotWhole(t: Op, e: Expr, p: Path, y: Expr, z: Expr)
    requires Within(ShapeOf(t, e), p) && IsType(t, At(t, e, p))
    requires Within(ShapeOf(t, e), p + [false])
    requires ShapeOf(t, y) == ShapeOf(t, At(t, e, p).l)
    ensures var e' := Put(t, e, p + [false], y);
            && Within(ShapeOf(t, e'), p + [true])
            && Put(t, e', p + [true], z) == Put(t, e, p, Bin(t, y, z))
    decreases |p|
  {
    if p != [] {
      assert (p + [false])[1..] == p[1..] + [false];
      assert (p + [true])[1..] == p[1..] + [true];
      SlotWhole(t, if p[0] then e.r else e.l, p[1..], y, z);
    }
  }

  /** expr_eq finds every tree equal to its copy. */
  lemma {:induction false} ExprEqReflexive(e: Expr)
    ensures ExprEq(e, e)
    decreases Size(e), 2
  {
    if e.Not? {
      ExprEqReflexive(e.e);
    } else if e.Bin? {
      MeetsItsCopy(e.op, e, e, []);
      SpendSpent(e.op, e);
      SpentFoldsToConstant(e.op, Spend(e.op, e));
    }
  }
}
