/**
 Which operands expr_eliminate_dups joins (nemu/tools/kconfig/expr.c:428-613): every pair of a short list of rules, in
 either order, and no other.
 */
module KconfigJoins {
  import opened Common
  import opened KconfigExpr
  import opened KconfigEq
  import opened KconfigClash
  import opened KconfigDups

  // x compares s with something.
  predicate Tests(x: Expr, rel: Rel, s: Symbol) { x.Cmp? && x.rel == rel && x.a == s }

  // b, c and d are y, m and n in some order.
  predicate Three(b: Symbol, c: Symbol, d: Symbol) { IsYmn(b) && IsYmn(c) && IsYmn(d) && b != c && c != d && d != b }

  /** x || y is z: for a bool s || !s is y; for a tristate two of the three values leave out the third. */
  predicate OrRule(s: Symbol, x: Expr, y: Expr, z: Expr) {
    s.Var? &&
    ((s.ty.Boolean? && x == Sym(s) && y == Not(Sym(s)) && z == Sym(Yes)) ||
     (s.ty.Tristate? && Tests(x, Equal, s) && Tests(y, Equal, s) && Tests(z, Unequal, s) && Three(x.b, y.b, z.b)))
  }

  /** x && y is z: a bool or tristate symbol next to a test that it is y, is not n, or is not m; for a tristate the test
      for one constant next to the test against another, and two of the three values ruled out. */
  predicate AndRule(s: Symbol, x: Expr, y: Expr, z: Expr) {
    IsTri(s) &&
    ((x == Sym(s) && y == Cmp(Equal, s, Yes) && z == y) ||
     (x == Sym(s) && y == Cmp(Unequal, s, No) && z == x) ||
     (x == Sym(s) && y == Cmp(Unequal, s, Mod) && z == Cmp(Equal, s, Yes)) ||
     (s.ty.Tristate? && Tests(x, Equal, s) && Tests(y, Unequal, s) && IsConst(x.b) && IsConst(y.b) &&
      z == if x.b == y.b then Sym(No) else x) ||
     (s.ty.Tristate? && Tests(x, Unequal, s) && Tests(y, Unequal, s) && Tests(z, Equal, s) && Three(x.b, y.b, z.b)))
  }

  predicate Rule(t: Op, s: Symbol, x: Expr, y: Expr, z: Expr) {
    if t.Or? then OrRule(s, x, y, z) || OrRule(s, y, x, z) else AndRule(s, x, y, z) || AndRule(s, y, x, z)
  }

  // What the rules are about.
  predicate Leaf(x: Expr) { x.Sym? || x.Cmp? || (x.Not? && x.e.Sym?) }

  lemma LeafEq(x: Expr, y: Expr)
    requires Leaf(x)
    ensures ExprEq(x, y) <==> x == y
  {
  }

  lemma RuleLeaves(t: Op, s: Symbol, x: Expr, y: Expr, z: Expr)
    requires Rule(t, s, x, y, z)
    ensures Leaf(x) && Leaf(y) && Leaf(z) && x != y
  {
  }

  lemma OrMade(s: Symbol, x: Expr, y: Expr, z: Expr)
    requires OrRule(s, x, y, z) && !ExprEq(x, y) && !ExprEq(y, x)
    ensures JoinOr(x, y) == Some(z) == JoinOr(y, x)
  {
    hide ExprEq;
  }

  lemma AndMade(s: Symbol, x: Expr, y: Expr, z: Expr)
    requires AndRule(s, x, y, z) && !ExprEq(x, y) && !ExprEq(y, x)
    ensures JoinAnd(x, y) == Some(z) == JoinAnd(y, x)
  {
    hide ExprEq;
  }

  lemma OrOnly(x: Expr, y: Expr)
    requires JoinOr(x, y).Some? && !ExprEq(x, y)
    ensures exists s :: Rule(Or, s, x, y, JoinOr(x, y).value)
  {
    hide ExprEq;
    var s := FirstSymbol(x).value;
    assert Rule(Or, s, x, y, JoinOr(x, y).value);
  }

  lemma AndOnly(x: Expr, y: Expr)
    requires JoinAnd(x, y).Some? && !ExprEq(x, y)
    ensures exists s :: Rule(And, s, x, y, JoinAnd(x, y).value)
  {
    hide ExprEq;
    var s := FirstSymbol(x).value;
    assert Rule(And, s, x, y, JoinAnd(x, y).value);
  }

  /** Two operands are joined into z exactly when they are equal and z is the first, or a rule says so. */
  lemma JoinIs(t: Op, x: Expr, y: Expr, z: Expr)
    ensures Join(t, x, y) == Some(z) <==> (ExprEq(x, y) && z == x) || exists s :: Rule(t, s, x, y, z)
  {
    if ExprEq(x, y) {
      forall s | Rule(t, s, x, y, z) ensures false {
        RuleLeaves(t, s, x, y, z);
        LeafEq(x, y);
      }
    } else {
      if Join(t, x, y) == Some(z) {
        if t.Or? {
          OrOnly(x, y);
        } else {
          AndOnly(x, y);
        }
      }
      forall s | Rule(t, s, x, y, z) ensures Join(t, x, y) == Some(z) {
        RuleMade(t, s, x, y, z);
      }
    }
    hide ExprEq, JoinOr, JoinAnd, OrRule, AndRule;
  }

  lemma RuleMade(t: Op, s: Symbol, x: Expr, y: Expr, z: Expr)
    requires Rule(t, s, x, y, z)
    ensures Join(t, x, y) == Some(z)
  {
    RuleLeaves(t, s, x, y, z);
    LeafEq(x, y);
    LeafEq(y, x);
    if t.Or? {
      if OrRule(s, x, y, z) {
        OrMade(s, x, y, z);
      } else {
        OrMade(s, y, x, z);
      }
    } else if AndRule(s, x, y, z) {
      AndMade(s, x, y, z);
    } else {
      AndMade(s, y, x, z);
    }
    hide ExprEq, JoinOr, JoinAnd, OrRule, AndRule;
  }

  /** Two such operands become one. */
  lemma PairJoined(t: Op, s: Symbol, x: Expr, y: Expr, z: Expr)
    requires Rule(t, s, x, y, z)
    ensures EliminateDups(Bin(t, x, y)) == z
  {
    RuleLeaves(t, s, x, y, z);
    RuleMade(t, s, x, y, z);
    PairDups(t, x, y);
  }

  /** And nothing expr_eliminate_dups returns has two operands in one level that are equal or that a rule would join. */
  lemma NoRuleLeft(e: Expr, q1: Path, q2: Path, s: Symbol, z: Expr)
    requires var r := EliminateDups(e);
             r.Bin? && OperandSlot(r.op, r, q1) && OperandSlot(r.op, r, q2) && q1 != q2
    ensures var r := EliminateDups(e); var x, y := At(r.op, r, q1), At(r.op, r, q2);
            !ExprEq(x, y) && !Rule(r.op, s, x, y, z)
  {
    var r := EliminateDups(e);
    var x, y := At(r.op, r, q1), At(r.op, r, q2);
    EliminateDupsComplete(e);
    assert Join(r.op, x, y).None?;
    JoinIs(r.op, x, y, x);
    JoinIs(r.op, x, y, z);
    hide *;
  }
}
