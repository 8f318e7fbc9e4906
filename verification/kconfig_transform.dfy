/**
 Negation normal form (nemu/tools/kconfig/expr.c:688-849).
 */
module KconfigTransform {
  import opened KconfigExpr

  function Negate(rel: Rel): Rel {
    match rel
    case Equal => Unequal
    case Unequal => Equal
    case Lth => Geq
    case Leq => Gth
    case Gth => Leq
    case Geq => Lth
  }

  // A bool symbol tested for being, or not being, y, m or n.
  predicate BoolTest(e: Expr) {
    e.Cmp? && (e.rel.Equal? || e.rel.Unequal?) && e.a.Var? && e.a.ty.Boolean? && IsYmn(e.b)
  }

  /** The symbol a bool test comes down to. */
  function SimplifyBoolTest(e: Expr): Expr
    requires BoolTest(e)
  {
    if e.rel.Equal? then
      if e.b.No? then Not(Sym(e.a)) else if e.b.Mod? then Sym(No) else Sym(e.a)
    else
      if e.b.No? then Sym(e.a) else if e.b.Mod? then Sym(Yes) else Not(Sym(e.a))
  }

  /** Strictly falls when a negation moves inwards, although De Morgan makes the tree bigger. */
  function Weight(e: Expr): nat {
    match e
    case Sym(_) => 1
    case Cmp(_, _, _) => 3
    case Not(x) => 3 * Weight(x)
    case Bin(_, l, r) => 1 + Weight(l) + Weight(r)
  }

  lemma WeightPositive(e: Expr)
    ensures Weight(e) >= 1
  {
  }

  // !(l op r) before and after De Morgan
  function PushNot(op: Op, l: Expr, r: Expr): (e: Expr)
    ensures Weight(e) < 3 * Weight(Bin(op, l, r))
  {
    var e := Bin(if op.Or? then And else Or, Not(l), Not(r));
    assert Weight(e) == 1 + 3 * Weight(l) + 3 * Weight(r);
    e
  }

  /** expr_transform on a tree that is not NULL. */
  function Transform(e: Expr): (r: Expr)
    ensures Weight(r) <= Weight(e)
    decreases Weight(e)
  {
    match e
    case Sym(_) => e
    case Cmp(_, _, _) => if BoolTest(e) then SimplifyBoolTest(e) else e
    case Bin(op, l, r) => Bin(op, Transform(l), Transform(r))
    case Not(x) =>
      WeightPositive(x);
      var y := Transform(x);
      match y
      case Not(z) => WeightPositive(z); Transform(z)
      case Cmp(rel, a, b) => Cmp(Negate(rel), a, b)
      case Bin(op, l, r) => Transform(PushNot(op, l, r))
      case Sym(s) =>
        if s.Yes? then Sym(No) else if s.Mod? then Sym(Mod) else if s.No? then Sym(Yes) else Not(y)
  }

  /** Every negation sits on a symbol that is not y, m or n, and no bool symbol is tested for y, m or n. */
  predicate Normal(e: Expr) {
    match e
    case Sym(_) => true
    case Cmp(_, _, _) => !BoolTest(e)
    case Not(x) => x.Sym? && !IsYmn(x.s)
    case Bin(_, l, r) => Normal(l) && Normal(r)
  }

  /** expr_transform keeps the value. */
  lemma {:induction false} TransformCorrect(e: Expr, v: Valuation)
    ensures Eval(Transform(e), v) == Eval(e, v)
    decreases Weight(e)
  {
    match e {
      case Sym(_) =>
      case Cmp(_, _, _) =>
      case Bin(_, l, r) =>
        TransformCorrect(l, v);
        TransformCorrect(r, v);
      case Not(x) =>
        WeightPositive(x);
        TransformCorrect(x, v);
        match Transform(x) {
          case Not(z) =>
            WeightPositive(z);
            TransformCorrect(z, v);
          case Bin(op, l, r) =>
            TransformCorrect(PushNot(op, l, r), v);
          case _ =>
        }
    }
  }

  /** expr_transform always reaches the normal form. */
  lemma {:induction false} TransformNormal(e: Expr)
    ensures Normal(Transform(e))
    decreases Weight(e)
  {
    match e {
      case Sym(_) =>
      case Cmp(_, _, _) =>
      case Bin(_, l, r) =>
        TransformNormal(l);
        TransformNormal(r);
      case Not(x) =>
        WeightPositive(x);
        TransformNormal(x);
        match Transform(x) {
          case Not(z) =>
            WeightPositive(z);
            TransformNormal(z);
          case Bin(op, l, r) =>
            TransformNormal(PushNot(op, l, r));
          case _ =>
        }
    }
  }

  /** The normal forms are exactly the trees expr_transform leaves alone. */
  lemma {:induction false} TransformFixesNormal(e: Expr)
    ensures Normal(e) <==> Transform(e) == e
  {
    if Transform(e) == e {
      TransformNormal(e);
    }
    if Normal(e) && e.Bin? {
      TransformFixesNormal(e.l);
      TransformFixesNormal(e.r);
    }
  }

  lemma TransformIdempotent(e: Expr)
    ensures Transform(Transform(e)) == Transform(e)
  {
    TransformNormal(e);
    TransformFixesNormal(Transform(e));
  }
}
