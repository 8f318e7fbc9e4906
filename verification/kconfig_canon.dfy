/**
 When expr_eq succeeds (nemu/tools/kconfig/expr.c:142-303).  Its comment promises equality up to the order of
 operands.  On expressions without the constants y and n among their operands that is a canonical form; with
 such operands expr_eq is not even transitive.
 */
module KconfigCanon {
  import opened Common
  import opened KconfigExpr
  import opened KconfigEq
  import opened KconfigTransform

  /** An expression up to the order and grouping of the operands at each level. */
  datatype Canon = CSym(s: Symbol) | CCmp(rel: Rel, a: Symbol, b: Symbol) | CNot(c: Canon)
                 | COp(op: Op, operands: multiset<Canon>)

  function CanonOf(e: Expr): Canon
    decreases e, 1
  {
    match e
    case Sym(s) => CSym(s)
    case Cmp(rel, a, b) => CCmp(rel, a, b)
    case Not(x) => CNot(CanonOf(x))
    case Bin(op, _, _) => COp(op, Operands(op, e))
  }

  function Operands(t: Op, e: Expr): multiset<Canon>
    decreases e, if IsType(t, e) then 0 else 2
  {
    if IsType(t, e) then Operands(t, e.l) + Operands(t, e.r) else multiset{CanonOf(e)}
  }

  /** No && and no || has y or n as an operand. */
  predicate Clean(e: Expr) {
    match e
    case Not(x) => Clean(x)
    case Bin(_, l, r) => !IsYN(l) && !IsYN(r) && Clean(l) && Clean(r)
    case _ => true
  }

  // The operand that decides: n under &&, y under ||.
  function Zero(op: Op): Expr { if op.And? then Sym(No) else Sym(Yes) }

  // The operands at level t may be y and n, but nothing below them has such operands.
  predicate Tidy(t: Op, e: Expr) {
    if IsType(t, e) then Tidy(t, e.l) && Tidy(t, e.r) else Clean(e)
  }

  // The operands other than y and n.
  function Real(t: Op, e: Expr): multiset<Canon> {
    if IsType(t, e) then Real(t, e.l) + Real(t, e.r)
    else if IsYN(e) then multiset{} else multiset{CanonOf(e)}
  }

  lemma {:induction false} CleanLevel(t: Op, e: Expr)
    requires Clean(e) && !IsYN(e)
    ensures Tidy(t, e) && Real(t, e) == Operands(t, e) && !HasOperand(t, e, Zero(t))
  {
    if IsType(t, e) {
      CleanLevel(t, e.l);
      CleanLevel(t, e.r);
    }
  }

  lemma {:induction false} CleanHasNoYN(e: Expr)
    requires Clean(e) && !IsYN(e)
    ensures !HasYN(e)
  {
    if e.Bin? {
      CleanHasNoYN(e.l);
      CleanHasNoYN(e.r);
    }
  }

  /* ---- elimination is a difference of multisets ---- */

  lemma TakenApart(l: multiset<Canon>, r: multiset<Canon>, d: multiset<Canon>)
    ensures (l - d) + (r - (d - l)) == (l + r) - d && (d - l) - r == d - (l + r)
  {
  }

  // What is left of the two levels e1 and e2 in r.
  ghost predicate Difference(t: Op, e1: Expr, e2: Expr, r: (Expr, Expr)) {
    && Tidy(t, r.0) && Real(t, r.0) == Real(t, e1) - Real(t, e2)
    && Tidy(t, r.1) && Real(t, r.1) == Real(t, e2) - Real(t, e1)
  }

  /** __expr_eliminate_eq takes out of each level what the other has, operand by operand. */
  lemma {:induction false} LevelDifference(t: Op, e1: Expr, e2: Expr)
    requires Tidy(t, e1) && Tidy(t, e2)
    ensures Difference(t, e1, e2, EliminateEqLevel(t, e1, e2))
    decreases Size(e1) + Size(e2), if IsType(t, e1) || IsType(t, e2) then 0 else 5
  {
    if IsType(t, e1) {
      var a := EliminateEqLevel(t, e1.l, e2);
      var b := EliminateEqLevel(t, e1.r, a.1);
      LevelDifference(t, e1.l, e2);
      LevelDifference(t, e1.r, a.1);
      assert EliminateEqLevel(t, e1, e2) == (Bin(t, a.0, b.0), b.1);
      TakenApart(Real(t, e1.l), Real(t, e1.r), Real(t, e2));
    } else if IsType(t, e2) {
      var a := EliminateEqLevel(t, e1, e2.l);
      var b := EliminateEqLevel(t, a.0, e2.r);
      LevelDifference(t, e1, e2.l);
      LevelDifference(t, a.0, e2.r);
      assert EliminateEqLevel(t, e1, e2) == (b.0, Bin(t, a.1, b.1));
      TakenApart(Real(t, e2.l), Real(t, e2.r), Real(t, e1));
    } else {
      LeafDifference(t, e1, e2);
    }
  }

  lemma LeafDifference(t: Op, x: Expr, y: Expr)
    requires !IsType(t, x) && !IsType(t, y) && Clean(x) && Clean(y)
    ensures Difference(t, x, y, EliminateEqLevel(t, x, y))
    decreases Size(x) + Size(y), 4
  {
    if IsYN(x) || IsYN(y) {
      LeafOfConstant(t, x, y);
    } else {
      ExprEqExact(x, y);
      RealOperand(t, x);
      RealOperand(t, y);
      LevelOfTwo(t, x, y);
      OneFromOne(CanonOf(x), CanonOf(y));
      OneFromOne(CanonOf(y), CanonOf(x));
      hide *;
    }
  }

  lemma OneFromOne(c: Canon, d: Canon)
    ensures multiset{c} - multiset{d} == if c == d then multiset{} else multiset{c}
  {
  }

  lemma LevelOfTwo(t: Op, x: Expr, y: Expr)
    requires !IsType(t, x) && !IsType(t, y) && !IsYN(x) && !IsYN(y)
    ensures EliminateEqLevel(t, x, y) == if ExprEq(x, y) then (Unit(t), Unit(t)) else (x, y)
    ensures Tidy(t, Unit(t)) && Real(t, Unit(t)) == multiset{}
  {
    hide ExprEq;
  }

  lemma RealOperand(t: Op, x: Expr)
    requires !IsType(t, x) && Clean(x) && !IsYN(x)
    ensures Tidy(t, x) && Real(t, x) == multiset{CanonOf(x)}
  {
  }

  lemma LeafOfConstant(t: Op, x: Expr, y: Expr)
    requires !IsType(t, x) && !IsType(t, y) && Clean(x) && Clean(y) && (IsYN(x) || IsYN(y))
    ensures Difference(t, x, y, EliminateEqLevel(t, x, y))
  {
    assert EliminateEqLevel(t, x, y) == (x, y);
    hide ExprEq, CanonOf;
  }

  // What a level with these operands folds to.
  predicate FoldsTo(t: Op, decided: bool, rest: multiset<Canon>, g: Expr) {
    if decided then g == Zero(t)
    else if rest == multiset{} then g == Unit(t)
    else !IsYN(g) && (IsType(t, g) || rest == multiset{CanonOf(g)})
  }

  /** The constants y and n decide or drop out, and one remaining operand stands alone. */
  lemma {:induction false} Folded(t: Op, f: Expr)
    requires Tidy(t, f)
    ensures FoldsTo(t, HasOperand(t, f, Zero(t)), Real(t, f), EliminateYN(f))
  {
    if IsType(t, f) {
      Folded(t, f.l);
      Folded(t, f.r);
      FoldStep(t, f);
      hide EliminateYN;
      FoldedPair(t, HasOperand(t, f.l, Zero(t)), Real(t, f.l), EliminateYN(f.l),
                 HasOperand(t, f.r, Zero(t)), Real(t, f.r), EliminateYN(f.r));
    } else if !IsYN(f) {
      CleanHasNoYN(f);
      EliminateYNCorrect(f, Valuation((s: Symbol) => 0, (a: Symbol, x: Tri, b: Symbol, y: Tri) => 0));
    }
  }

  lemma FoldStep(t: Op, f: Expr)
    requires IsType(t, f)
    ensures var x, y := EliminateYN(f.l), EliminateYN(f.r);
            EliminateYN(f) == if x == Zero(t) || y == Zero(t) then Zero(t) else if x == Unit(t) then y
                              else if y == Unit(t) then x else Bin(t, x, y)
  {
  }

  lemma FoldedPair(t: Op, d: bool, r: multiset<Canon>, x: Expr, d': bool, r': multiset<Canon>, y: Expr)
    requires FoldsTo(t, d, r, x) && FoldsTo(t, d', r', y)
    ensures FoldsTo(t, d || d', r + r',
              if x == Zero(t) || y == Zero(t) then Zero(t) else if x == Unit(t) then y
              else if y == Unit(t) then x else Bin(t, x, y))
  {
    hide CanonOf;
    assert r == multiset{} ==> r + r' == r';
    assert r' == multiset{} ==> r + r' == r;
  }

  lemma RawOfLevels(t: Op, e1: Expr, e2: Expr)
    requires IsType(t, e1) && IsType(t, e2)
    ensures EliminateEqRaw(e1, e2) == EliminateEqLevel(t, e1, e2)
  {
    ZeroSurvives(t, e1, e2);
  }

  /** expr_eq of two && (or two ||) whose own operands may be y and n: if one has the deciding constant, the
      other must have it; otherwise the remaining operands must be the same, each as often. */
  lemma {:induction false} ExprEqOfLevels(t: Op, e1: Expr, e2: Expr)
    requires IsType(t, e1) && IsType(t, e2) && Tidy(t, e1) && Tidy(t, e2)
    ensures ExprEq(e1, e2) <==>
            if HasOperand(t, e1, Zero(t)) || HasOperand(t, e2, Zero(t))
            then HasOperand(t, e1, Zero(t)) && HasOperand(t, e2, Zero(t))
            else Real(t, e1) == Real(t, e2)
    decreases Size(e1) + Size(e2), 1
  {
    var f := EliminateEqLevel(t, e1, e2);
    LevelDifference(t, e1, e2);
    ZeroSurvives(t, e1, e2);
    RawOfLevels(t, e1, e2);
    Folded(t, f.0);
    Folded(t, f.1);
    SameWhenNothingIsLeft(Real(t, e1), Real(t, e2));
    OneSided(Real(t, e1), Real(t, e2), CanonOf(EliminateYN(f.0)));
  }

  lemma SameWhenNothingIsLeft(a: multiset<Canon>, b: multiset<Canon>)
    ensures a == b <==> a - b == multiset{} == b - a
  {
    if a - b == multiset{} == b - a {
      forall c ensures a[c] == b[c] {
        assert (a - b)[c] == 0 && (b - a)[c] == 0;
      }
    }
  }

  lemma OneSided(a: multiset<Canon>, b: multiset<Canon>, c: Canon)
    ensures !(c in a - b && c in b - a)
  {
  }

  lemma {:induction false} ZeroSurvives(t: Op, e1: Expr, e2: Expr)
    ensures var r := EliminateEqLevel(t, e1, e2);
            && HasOperand(t, r.0, Zero(t)) == HasOperand(t, e1, Zero(t)) && IsType(t, r.0) == IsType(t, e1)
            && HasOperand(t, r.1, Zero(t)) == HasOperand(t, e2, Zero(t)) && IsType(t, r.1) == IsType(t, e2)
    decreases Size(e1) + Size(e2)
  {
    if IsType(t, e1) {
      ZeroSurvives(t, e1.l, e2);
      ZeroSurvives(t, e1.r, EliminateEqLevel(t, e1.l, e2).1);
    } else if IsType(t, e2) {
      ZeroSurvives(t, e1, e2.l);
      ZeroSurvives(t, EliminateEqLevel(t, e1, e2.l).0, e2.r);
    }
  }

  /* ---- the exact theorem ---- */

  /** Without y and n among the operands, expr_eq decides equality up to order and grouping. */
  lemma {:induction false} ExprEqExact(e1: Expr, e2: Expr)
    requires Clean(e1) && Clean(e2)
    ensures ExprEq(e1, e2) <==> CanonOf(e1) == CanonOf(e2)
    decreases Size(e1) + Size(e2), 3
  {
    if e1.Not? && e2.Not? {
      ExprEqExact(e1.e, e2.e);
    } else if e1.Bin? && IsType(e1.op, e2) {
      CleanLevel(e1.op, e1);
      CleanLevel(e1.op, e2);
      ExprEqOfLevels(e1.op, e1, e2);
    }
  }

  /** Transforming an expression and eliminating y and n brings it there. */
  lemma CleanAfterTransform(e: Expr)
    ensures Clean(EliminateYN(Transform(e)))
  {
    TransformNormal(e);
    NormalFoldsClean(Transform(e));
  }

  lemma {:induction false} NormalFoldsClean(e: Expr)
    requires Normal(e)
    ensures Clean(EliminateYN(e))
  {
    if e.Bin? {
      NormalFoldsClean(e.l);
      NormalFoldsClean(e.r);
    }
  }

  /** So it is symmetric and transitive there. */
  lemma ExprEqIsEquivalence(e1: Expr, e2: Expr, e3: Expr)
    requires Clean(e1) && Clean(e2) && Clean(e3)
    ensures ExprEq(e1, e2) == ExprEq(e2, e1)
    ensures ExprEq(e1, e2) && ExprEq(e2, e3) ==> ExprEq(e1, e3)
  {
    ExprEqExact(e1, e2);
    ExprEqExact(e2, e1);
    ExprEqExact(e2, e3);
    ExprEqExact(e1, e3);
  }

  /* ---- what the comment promises ---- */

  // Every operand of e1 equals some operand of e2.
  ghost predicate Covered(t: Op, e1: Expr, e2: Expr) {
    forall x :: HasOperand(t, e1, x) ==> exists y :: HasOperand(t, e2, y) && ExprEq(x, y)
  }

  ghost predicate NoneTwice(m: multiset<Canon>) { forall c :: m[c] <= 1 }

  ghost predicate Inside(a: multiset<Canon>, b: multiset<Canon>) { forall c :: c in a ==> c in b }

  lemma {:induction false} OperandIs(t: Op, e: Expr, x: Expr)
    requires HasOperand(t, e, x)
    ensures CanonOf(x) in Operands(t, e) && (Clean(e) ==> Clean(x))
  {
    if IsType(t, e) {
      OperandIs(t, if HasOperand(t, e.l, x) then e.l else e.r, x);
    }
  }

  lemma {:induction false} OperandOf(t: Op, e: Expr, c: Canon) returns (x: Expr)
    requires c in Operands(t, e)
    ensures HasOperand(t, e, x) && CanonOf(x) == c
  {
    if IsType(t, e) {
      x := OperandOf(t, if c in Operands(t, e.l) then e.l else e.r, c);
    } else {
      x := e;
    }
  }

  lemma CoveredIs(t: Op, e1: Expr, e2: Expr)
    requires Clean(e1) && Clean(e2)
    ensures Covered(t, e1, e2) <==> Inside(Operands(t, e1), Operands(t, e2))
  {
    if Covered(t, e1, e2) {
      forall c | c in Operands(t, e1) ensures c in Operands(t, e2) {
        var x := OperandOf(t, e1, c);
        var y :| HasOperand(t, e2, y) && ExprEq(x, y);
        OperandIs(t, e1, x);
        OperandIs(t, e2, y);
        ExprEqExact(x, y);
      }
    }
    if Inside(Operands(t, e1), Operands(t, e2)) {
      forall x | HasOperand(t, e1, x) ensures exists y :: HasOperand(t, e2, y) && ExprEq(x, y) {
        OperandIs(t, e1, x);
        var y := OperandOf(t, e2, CanonOf(x));
        OperandIs(t, e2, y);
        ExprEqExact(x, y);
      }
    }
  }

  /** Equal expressions cover each other, and expressions that cover each other are equal if no operand of
      either is repeated. */
  lemma ExprEqCovers(t: Op, e1: Expr, e2: Expr)
    requires Clean(e1) && Clean(e2) && IsType(t, e1) && IsType(t, e2)
    ensures ExprEq(e1, e2) ==> Covered(t, e1, e2) && Covered(t, e2, e1)
    ensures Covered(t, e1, e2) && Covered(t, e2, e1) && NoneTwice(Operands(t, e1)) && NoneTwice(Operands(t, e2))
            ==> ExprEq(e1, e2)
  {
    ExprEqExact(e1, e2);
    CoveredIs(t, e1, e2);
    CoveredIs(t, e2, e1);
    var a, b := Operands(t, e1), Operands(t, e2);
    if NoneTwice(a) && NoneTwice(b) && Covered(t, e1, e2) && Covered(t, e2, e1) {
      NoneTwiceWithin(a, b);
      NoneTwiceWithin(b, a);
      SameWhenNothingIsLeft(a, b);
    }
  }

  lemma NoneTwiceWithin(a: multiset<Canon>, b: multiset<Canon>)
    requires NoneTwice(a) && Inside(a, b)
    ensures a - b == multiset{}
  {
    assert forall c :: c in a - b ==> a[c] > b[c];
  }

  lemma OneOperand(s: Symbol)
    ensures Operands(And, Sym(s)) == multiset{CSym(s)}
  {
    assert CanonOf(Sym(s)) == CSym(s);
  }

  lemma ThreeOperands(x: Symbol, y: Symbol, z: Symbol)
    ensures Operands(And, Bin(And, Sym(x), Bin(And, Sym(y), Sym(z)))) ==
            multiset{CSym(x)} + (multiset{CSym(y)} + multiset{CSym(z)})
  {
    OneOperand(x);
    OneOperand(y);
    OneOperand(z);
    AndOperands(Sym(y), Sym(z));
    AndOperands(Sym(x), Bin(And, Sym(y), Sym(z)));
    hide Operands;
  }

  lemma AndOperands(l: Expr, r: Expr)
    ensures Operands(And, Bin(And, l, r)) == Operands(And, l) + Operands(And, r)
  {
  }

  lemma TwoAgainstOne(c: Canon, d: Canon)
    requires c != d
    ensures var m, n := multiset{c} + (multiset{c} + multiset{d}), multiset{c} + (multiset{d} + multiset{d});
            m != n && Inside(m, n) && Inside(n, m)
  {
    assert (multiset{c} + (multiset{c} + multiset{d}))[c] == 2;
    assert (multiset{c} + (multiset{d} + multiset{d}))[c] == 1;
  }

  /** A repeated operand has to be repeated as often on the other side: a && (a && b) and a && (b && b) cover
      each other, but are not equal. */
  lemma ExprEqCountsOperands(a: Symbol, b: Symbol)
    requires a != b && !IsYN(Sym(a)) && !IsYN(Sym(b))
    ensures var e1, e2 := Bin(And, Sym(a), Bin(And, Sym(a), Sym(b))), Bin(And, Sym(a), Bin(And, Sym(b), Sym(b)));
            !ExprEq(e1, e2) && Covered(And, e1, e2) && Covered(And, e2, e1)
  {
    var x, y := Sym(a), Sym(b);
    var e1, e2 := Bin(And, x, Bin(And, x, y)), Bin(And, x, Bin(And, y, y));
    ThreeOperands(a, a, b);
    ThreeOperands(a, b, b);
    hide Operands;
    TwoAgainstOne(CSym(a), CSym(b));
    ExprEqExact(e1, e2);
    CoveredIs(And, e1, e2);
    CoveredIs(And, e2, e1);
  }

  /* ---- y and n among the operands ---- */

  lemma {:induction false} ZeroDecides(t: Op, f: Expr)
    requires HasOperand(t, f, Zero(t))
    ensures EliminateYN(f) == Zero(t)
  {
    if IsType(t, f) {
      ZeroDecides(t, if HasOperand(t, f.l, Zero(t)) then f.l else f.r);
    }
  }

  /** n among the operands of both && (y of both ||) makes them equal, whatever the other operands are:
      a && n and b && n are equal. */
  lemma DecidedAreEqual(t: Op, e1: Expr, e2: Expr)
    requires IsType(t, e1) && IsType(t, e2) && HasOperand(t, e1, Zero(t)) && HasOperand(t, e2, Zero(t))
    ensures ExprEq(e1, e2)
  {
    ZeroSurvives(t, e1, e2);
    var r := EliminateEqLevel(t, e1, e2);
    RawOfLevels(t, e1, e2);
    ZeroDecides(t, r.0);
    ZeroDecides(t, r.1);
  }

  // c || n
  function OrNo(c: Symbol): Expr { Bin(Or, Sym(c), Sym(No)) }

  lemma OrNoAgainst(c: Symbol, d: Symbol)
    requires !IsYN(Sym(c)) && !IsYN(Sym(d))
    ensures !ExprEq(OrNo(c), Sym(d)) && !ExprEq(Sym(d), OrNo(c))
    ensures ExprEq(OrNo(c), OrNo(d)) <==> c == d
    ensures EliminateYN(OrNo(c)) == Sym(c) && !IsType(And, OrNo(c)) && !IsYN(OrNo(c))
  {
    ExprEqOfLevels(Or, OrNo(c), OrNo(d));
    OrNoOperand(c);
    OrNoOperand(d);
    hide Real;
    assert CSym(c) in multiset{CSym(c)};
  }

  lemma OrNoOperand(c: Symbol)
    requires !IsYN(Sym(c))
    ensures Real(Or, OrNo(c)) == multiset{CSym(c)} && Tidy(Or, OrNo(c)) && !HasOperand(Or, OrNo(c), Sym(Yes))
  {
    assert CanonOf(Sym(c)) == CSym(c);
    assert Real(Or, Sym(c)) == multiset{CSym(c)} && Real(Or, Sym(No)) == multiset{};
  }

  /** What is left over on each side is folded before it is compared, so operands that are not equal can
      still leave equal expressions: y && (c || n) and y && c. */
  lemma LeftoversAreFolded(c: Symbol)
    requires !IsYN(Sym(c))
    ensures ExprEq(Bin(And, Sym(Yes), OrNo(c)), Bin(And, Sym(Yes), Sym(c))) && !ExprEq(OrNo(c), Sym(c))
  {
    OrNoAgainst(c, c);
    var e1, e2 := Bin(And, Sym(Yes), OrNo(c)), Bin(And, Sym(Yes), Sym(c));
    var y, x, z := Sym(Yes), OrNo(c), Sym(c);
    assert !ExprEq(x, y) && !ExprEq(x, z) && !ExprEq(y, z);
    assert EliminateEqLevel(And, y, y) == (y, y);
    assert EliminateEqLevel(And, y, z) == (y, z);
    assert EliminateEqLevel(And, y, e2) == (y, e2);
    assert EliminateEqLevel(And, x, y) == (x, y);
    assert EliminateEqLevel(And, x, z) == (x, z);
    assert EliminateEqLevel(And, x, e2) == (x, e2);
    RawOfLevels(And, e1, e2);
    FoldStep(And, e1);
    FoldStep(And, e2);
    assert EliminateYN(e1) == z;
    assert EliminateYN(e2) == z;
  }

  /** And expr_eq is then not transitive, so no canonical form describes it: (c || n) && (d || n) equals
      c && (d || n), that equals c && d, but the first does not equal the last. */
  lemma NotTransitiveWithConstants(c: Symbol, d: Symbol)
    requires c != d && !IsYN(Sym(c)) && !IsYN(Sym(d))
    ensures var e1, e2, e3 := Bin(And, OrNo(c), OrNo(d)), Bin(And, Sym(c), OrNo(d)), Bin(And, Sym(c), Sym(d));
            ExprEq(e1, e2) && ExprEq(e2, e3) && !ExprEq(e1, e3)
  {
    OrNoAgainst(c, d);
    OrNoAgainst(c, c);
    OrNoAgainst(d, c);
    OrNoAgainst(d, d);
    hide OrNo;
    var y := Sym(Yes);
    PairLevel(OrNo(c), OrNo(d), Sym(c), OrNo(d), OrNo(c), y, Sym(c), y);
    PairLevel(Sym(c), OrNo(d), Sym(c), Sym(d), y, OrNo(d), y, Sym(d));
    PairLevel(OrNo(c), OrNo(d), Sym(c), Sym(d), OrNo(c), OrNo(d), Sym(c), Sym(d));
    FoldStep(And, Bin(And, OrNo(c), OrNo(d)));
    FoldStep(And, Bin(And, OrNo(c), y));
    FoldStep(And, Bin(And, y, OrNo(d)));
    assert EliminateYN(Bin(And, OrNo(c), OrNo(d))) == Bin(And, Sym(c), Sym(d));
    assert EliminateYN(Bin(And, OrNo(c), y)) == Sym(c) == EliminateYN(Bin(And, Sym(c), y));
    assert EliminateYN(Bin(And, y, OrNo(d))) == Sym(d) == EliminateYN(Bin(And, y, Sym(d)));
    var e1, e2, e3 := Bin(And, OrNo(c), OrNo(d)), Bin(And, Sym(c), OrNo(d)), Bin(And, Sym(c), Sym(d));
    EqualWhenFolded(e1, e2);
    EqualWhenFolded(e2, e3);
    EqualWhenFolded(e1, e3);
    hide ExprEq, EliminateYN, EliminateEqRaw;
  }

  lemma EqualWhenFolded(e1: Expr, e2: Expr)
    requires IsType(And, e1) && IsType(And, e2)
    ensures var r := EliminateEqRaw(e1, e2);
            ExprEq(e1, e2) <==> EliminateYN(r.0).Sym? && EliminateYN(r.0) == EliminateYN(r.1)
  {
  }

  // Two operands against two, none of them an &&: the first of each side match or not, and the second.
  lemma PairLevel(x1: Expr, x2: Expr, y1: Expr, y2: Expr, r1: Expr, r2: Expr, s1: Expr, s2: Expr)
    requires !IsType(And, x1) && !IsType(And, x2) && !IsType(And, y1) && !IsType(And, y2)
    requires !IsYN(x1) && !IsYN(x2) && !IsYN(y1) && !IsYN(y2) && !ExprEq(x1, y2) && !ExprEq(x2, y1)
    requires (r1, s1) == if ExprEq(x1, y1) then (Sym(Yes), Sym(Yes)) else (x1, y1)
    requires (r2, s2) == if ExprEq(x2, y2) then (Sym(Yes), Sym(Yes)) else (x2, y2)
    ensures EliminateEqRaw(Bin(And, x1, x2), Bin(And, y1, y2)) == (Bin(And, r1, r2), Bin(And, s1, s2))
  {
    var y := Sym(Yes);
    assert EliminateEqLevel(And, x1, y1) == (r1, s1);
    assert EliminateEqLevel(And, r1, y2) == (r1, y2);
    assert EliminateEqLevel(And, x1, Bin(And, y1, y2)) == (r1, Bin(And, s1, y2));
    assert EliminateEqLevel(And, x2, s1) == (x2, s1);
    assert EliminateEqLevel(And, x2, y2) == (r2, s2);
    assert EliminateEqLevel(And, x2, Bin(And, s1, y2)) == (r2, Bin(And, s1, s2));
    var e1, e2 := Bin(And, x1, x2), Bin(And, y1, y2);
    assert EliminateEqLevel(And, e1.l, e2) == (r1, Bin(And, s1, y2));
    assert EliminateEqLevel(And, e1, e2) == (Bin(And, r1, r2), Bin(And, s1, s2));
    RawOfLevels(And, e1, e2);
  }
}
