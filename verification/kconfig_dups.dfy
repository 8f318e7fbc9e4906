/**
 Joining redundant operands (nemu/tools/kconfig/expr.c:428-686).
 */
module KconfigDups {
  import opened Common
  import opened KconfigExpr
  import opened KconfigEq

  /* ---- expr_join_or, expr_join_and ---- */

  // e1 and e2 in either order
  predicate EitherWay(e1: Expr, e2: Expr, a: Expr, b: Expr) {
    (e1 == a && e2 == b) || (e1 == b && e2 == a)
  }

  // The symbol an operand tests, where the two joins look for one.
  function FirstSymbol(e: Expr): Option<Symbol> {
    match e
    case Sym(s) => Some(s)
    case Cmp(rel, a, _) => if rel.Equal? || rel.Unequal? then Some(a) else None
    case Not(Sym(s)) => Some(s)
    case Not(Cmp(rel, a, _)) => if rel.Equal? || rel.Unequal? then Some(a) else None
    case _ => None
  }

  function SecondSymbol(e: Expr): Option<Symbol> {
    match e
    case Sym(s) => Some(s)
    case Cmp(rel, a, _) => if rel.Equal? || rel.Unequal? then Some(a) else None
    case Not(Sym(s)) => Some(s)
    case _ => None
  }

  predicate SameTriSymbol(e1: Expr, e2: Expr) {
    FirstSymbol(e1).Some? && FirstSymbol(e1) == SecondSymbol(e2) && IsTri(FirstSymbol(e1).value)
  }

  /** e1 || e2 as one operand, if expr_join_or knows one. */
  function JoinOr(e1: Expr, e2: Expr): Option<Expr> {
    if ExprEq(e1, e2) then Some(e1)
    else if !SameTriSymbol(e1, e2) then None
    else
      var s := FirstSymbol(e1).value;
      if s.ty.Tristate? && EitherWay(e1, e2, Cmp(Equal, s, Yes), Cmp(Equal, s, Mod)) then
        Some(Cmp(Unequal, s, No))
      else if s.ty.Tristate? && EitherWay(e1, e2, Cmp(Equal, s, Yes), Cmp(Equal, s, No)) then
        Some(Cmp(Unequal, s, Mod))
      else if s.ty.Tristate? && EitherWay(e1, e2, Cmp(Equal, s, Mod), Cmp(Equal, s, No)) then
        Some(Cmp(Unequal, s, Yes))
      else if s.ty.Boolean? && EitherWay(e1, e2, Not(Sym(s)), Sym(s)) then Some(Sym(Yes))
      else None
  }

  /** e1 && e2 as one operand, if expr_join_and knows one. */
  function JoinAnd(e1: Expr, e2: Expr): Option<Expr> {
    if ExprEq(e1, e2) then Some(e1)
    else if !SameTriSymbol(e1, e2) then None
    else
      var s := FirstSymbol(e1).value;
      if EitherWay(e1, e2, Sym(s), Cmp(Equal, s, Yes)) then Some(Cmp(Equal, s, Yes))
      else if EitherWay(e1, e2, Sym(s), Cmp(Unequal, s, No)) then Some(Sym(s))
      else if EitherWay(e1, e2, Sym(s), Cmp(Unequal, s, Mod)) then Some(Cmp(Equal, s, Yes))
      else if !s.ty.Tristate? then None
      else if EqualAgainstUnequal(e1, e2) then EqualWithoutUnequal(s, e1.b, e2.b)
      else if EqualAgainstUnequal(e2, e1) then EqualWithoutUnequal(s, e2.b, e1.b)
      else if EitherWay(e1, e2, Cmp(Unequal, s, Yes), Cmp(Unequal, s, No)) then Some(Cmp(Equal, s, Mod))
      else if EitherWay(e1, e2, Cmp(Unequal, s, Yes), Cmp(Unequal, s, Mod)) then Some(Cmp(Equal, s, No))
      else if EitherWay(e1, e2, Cmp(Unequal, s, Mod), Cmp(Unequal, s, No)) then Some(Cmp(Equal, s, Yes))
      else None
  }

  // a='b' next to a!='c', both against constants
  predicate EqualAgainstUnequal(e1: Expr, e2: Expr) {
    e1.Cmp? && e1.rel.Equal? && e2.Cmp? && e2.rel.Unequal? && IsConst(e1.b) && IsConst(e2.b)
  }

  function EqualWithoutUnequal(s: Symbol, b: Symbol, c: Symbol): Option<Expr> {
    Some(if b != c then Cmp(Equal, s, b) else Sym(No))
  }

  /** The tristate value a constant stands for when a tristate symbol is compared with it. */
  function Denotes(c: Symbol): Option<int> {
    match c
    case Yes => Some(2)
    case Mod => Some(1)
    case No => Some(0)
    case Const(_, num) => if num.Some? && 0 <= num.value <= 2 then num else None
    case Var(_, _) => None
  }

  /** Two different constants that one tristate value equals, such as 'y' and "2". */
  predicate Clash(b: Symbol, c: Symbol) {
    b != c && Denotes(b).Some? && Denotes(b) == Denotes(c)
  }

  /** The pairs expr_join_and gets wrong: a='b' && a!='c' with b and c different spellings of one value. */
  predicate Clashing(e1: Expr, e2: Expr) {
    SameTriSymbol(e1, e2) && FirstSymbol(e1).value.ty.Tristate? &&
    ((EqualAgainstUnequal(e1, e2) || EqualAgainstUnequal(e2, e1)) && Clash(e1.b, e2.b))
  }

  /** expr_join_or keeps the value of e1 || e2. */
  lemma JoinOrCorrect(e1: Expr, e2: Expr, v: Valuation)
    requires JoinOr(e1, e2).Some?
    ensures Eval(JoinOr(e1, e2).value, v) == Max(Eval(e1, v), Eval(e2, v))
  {
    if ExprEq(e1, e2) {
      hide *;
      ExprEqSound(e1, e2, v);
    } else {
      SymbolIs(FirstSymbol(e1).value, v);
      hide ExprEq, Compare;
    }
  }

  // The three values of a bool or tristate symbol.
  lemma SymbolIs(s: Symbol, v: Valuation)
    ensures IsTri(s) ==>
            && (Compare(s, Yes, v) == 0 <==> TriOf(s, v) == 2) && (Compare(s, Mod, v) == 0 <==> TriOf(s, v) == 1)
            && (Compare(s, No, v) == 0 <==> TriOf(s, v) == 0)
  {
  }

  // A valuation that gives every symbol the same value.
  function Uniform(t: Tri): Valuation { Valuation((s: Symbol) => t, (a: Symbol, x: Tri, b: Symbol, y: Tri) => 0) }

  // A bool or tristate symbol equals a constant exactly when the constant denotes its value.
  lemma EqualsConstant(s: Symbol, c: Symbol, v: Valuation)
    requires IsTri(s) && IsConst(c)
    ensures Compare(s, c, v) == 0 <==> Denotes(c) == Some(TriOf(s, v))
  {
  }

  lemma EqualWithoutUnequalCorrect(s: Symbol, b: Symbol, c: Symbol, v: Valuation)
    requires IsTri(s) && IsConst(b) && IsConst(c) && !Clash(b, c)
    ensures Eval(EqualWithoutUnequal(s, b, c).value, v) == Min(Eval(Cmp(Equal, s, b), v), Eval(Cmp(Unequal, s, c), v))
  {
    EqualsConstant(s, b, v);
    EqualsConstant(s, c, v);
  }

  lemma JoinAndCorrect(e1: Expr, e2: Expr, v: Valuation)
    requires JoinAnd(e1, e2).Some? && !Clashing(e1, e2)
    ensures Eval(JoinAnd(e1, e2).value, v) == Min(Eval(e1, v), Eval(e2, v))
  {
    if ExprEq(e1, e2) {
      hide *;
      ExprEqSound(e1, e2, v);
    } else if e1.Cmp? && e2.Cmp? {
      JoinTwoTests(e1, e2, v);
    } else {
      SymbolJoin(e1, e2);
      hide ExprEq, JoinAnd, FirstSymbol, Compare, Satisfies, TriOf;
      SymbolTests(FirstSymbol(e1).value, v);
    }
  }

  // What is joined if not two comparisons.
  lemma SymbolJoin(e1: Expr, e2: Expr)
    requires JoinAnd(e1, e2).Some? && !ExprEq(e1, e2) && !(e1.Cmp? && e2.Cmp?)
    ensures FirstSymbol(e1).Some? && IsTri(FirstSymbol(e1).value)
    ensures var s, j := FirstSymbol(e1).value, JoinAnd(e1, e2).value;
            || (EitherWay(e1, e2, Sym(s), Cmp(Equal, s, Yes)) && j == Cmp(Equal, s, Yes))
            || (EitherWay(e1, e2, Sym(s), Cmp(Unequal, s, No)) && j == Sym(s))
            || (EitherWay(e1, e2, Sym(s), Cmp(Unequal, s, Mod)) && j == Cmp(Equal, s, Yes))
  {
    hide ExprEq;
  }

  // A bool or tristate symbol next to a test of its own.
  lemma SymbolTests(s: Symbol, v: Valuation)
    requires IsTri(s)
    ensures Min(TriOf(s, v), Eval(Cmp(Equal, s, Yes), v)) == Eval(Cmp(Equal, s, Yes), v)
    ensures Min(TriOf(s, v), Eval(Cmp(Unequal, s, No), v)) == TriOf(s, v)
    ensures Min(TriOf(s, v), Eval(Cmp(Unequal, s, Mod), v)) == Eval(Cmp(Equal, s, Yes), v)
  {
    SymbolIs(s, v);
    hide Compare;
  }

  lemma JoinTwoTests(e1: Expr, e2: Expr, v: Valuation)
    requires JoinAnd(e1, e2).Some? && !Clashing(e1, e2) && !ExprEq(e1, e2) && e1.Cmp? && e2.Cmp?
    ensures Eval(JoinAnd(e1, e2).value, v) == Min(Eval(e1, v), Eval(e2, v))
  {
    var s := FirstSymbol(e1).value;
    SymbolIs(s, v);
    hide ExprEq, Compare;
    if EqualAgainstUnequal(e1, e2) {
      EqualWithoutUnequalCorrect(s, e1.b, e2.b, v);
    } else if EqualAgainstUnequal(e2, e1) {
      EqualWithoutUnequalCorrect(s, e2.b, e1.b, v);
    }
  }

  /** expr_join_and keeps the value of e1 && e2 exactly when the pair does not clash. */
  lemma JoinAndExact(e1: Expr, e2: Expr)
    requires JoinAnd(e1, e2).Some?
    ensures Equivalent(JoinAnd(e1, e2).value, Bin(And, e1, e2)) <==> !Clashing(e1, e2)
  {
    if Clashing(e1, e2) {
      var v := Uniform(Denotes(e1.b).value);
      assert Eval(JoinAnd(e1, e2).value, v) == 2;
      assert Eval(Bin(And, e1, e2), v) == 0;
    } else {
      forall v: Valuation ensures Eval(JoinAnd(e1, e2).value, v) == Eval(Bin(And, e1, e2), v) {
        JoinAndCorrect(e1, e2, v);
      }
    }
  }

  function Join(t: Op, e1: Expr, e2: Expr): Option<Expr> {
    if t.Or? then JoinOr(e1, e2) else JoinAnd(e1, e2)
  }

  /* ---- the constants a symbol is tested against ---- */

  /** The constants that e compares the tristate symbol a with, by = or !=. */
  function Tested(e: Expr, a: Symbol): set<Symbol> {
    match e
    case Sym(_) => {}
    case Cmp(rel, x, b) =>
      if x == a && x.Var? && x.ty.Tristate? && (rel.Equal? || rel.Unequal?) && IsConst(b) then {b} else {}
    case Not(x) => Tested(x, a)
    case Bin(_, l, r) => Tested(l, a) + Tested(r, a)
  }

  /** The constants that joins can bring in: a && a!=m becomes a=y, a=y || a=m becomes a!=n, and
      a=y || a=n becomes a!=m. */
  function Reachable(k: set<Symbol>): set<Symbol> {
    if Mod in k || (Yes in k && No in k) then k + {Yes, Mod, No} else k
  }

  predicate Consistent(k: set<Symbol>) {
    forall b, c :: b in k && c in k ==> !Clash(b, c)
  }

  /** No symbol is tested against two spellings of one tristate value, nor can it come to be. */
  ghost predicate ClashFree(e: Expr) {
    forall a :: Consistent(Reachable(Tested(e, a)))
  }

  // f tests nothing that joining could not get out of e.
  ghost predicate Reaches(e: Expr, f: Expr) {
    forall a :: Tested(f, a) <= Reachable(Tested(e, a))
  }

  lemma ReachableClosed(j: set<Symbol>, k: set<Symbol>)
    ensures k <= Reachable(k)
    ensures j <= Reachable(k) ==> Reachable(j) <= Reachable(k)
  {
  }

  lemma TestsTransitive(e: Expr, f: Expr, g: Expr)
    requires Reaches(e, f) && Reaches(f, g)
    ensures Reaches(e, g)
  {
    forall a ensures Tested(g, a) <= Reachable(Tested(e, a)) {
      ReachableClosed(Tested(f, a), Tested(e, a));
    }
  }

  lemma ClashFreeWithin(e: Expr, f: Expr)
    requires ClashFree(e) && Reaches(e, f)
    ensures ClashFree(f)
  {
    forall a ensures Consistent(Reachable(Tested(f, a))) {
      ReachableClosed(Tested(f, a), Tested(e, a));
    }
  }

  // A join tests nothing new beyond what its operands can reach.
  lemma JoinTested(t: Op, e1: Expr, e2: Expr, a: Symbol)
    requires Join(t, e1, e2).Some?
    ensures Tested(Join(t, e1, e2).value, a) <= Reachable(Tested(e1, a) + Tested(e2, a))
  {
    hide ExprEq;
    if t.And? && !ExprEq(e1, e2) {
      if EqualAgainstUnequal(e1, e2) || EqualAgainstUnequal(e2, e1) {
      } else {
      }
    }
  }

  lemma ClashShows(e1: Expr, e2: Expr)
    ensures Clashing(e1, e2) ==> e1.Cmp? && !Consistent(Reachable(Tested(e1, e1.a) + Tested(e2, e1.a)))
  {
    if Clashing(e1, e2) {
      var k := Reachable(Tested(e1, e1.a) + Tested(e2, e1.a));
      assert e1.b in k && e2.b in k && Clash(e1.b, e2.b);
    }
  }

  lemma JoinCorrect(t: Op, e1: Expr, e2: Expr, v: Valuation)
    requires Join(t, e1, e2).Some? && forall a :: Consistent(Reachable(Tested(e1, a) + Tested(e2, a)))
    ensures Eval(Join(t, e1, e2).value, v) == Apply(t, Eval(e1, v), Eval(e2, v))
  {
    if t.Or? {
      JoinOrCorrect(e1, e2, v);
    } else {
      ClashShows(e1, e2);
      JoinAndCorrect(e1, e2, v);
    }
  }

  // Two operands of a clash-free tree do not clash, and their join reaches no further than the tree.
  lemma JoinReaches(t: Op, e: Expr, e1: Expr, e2: Expr)
    requires Join(t, e1, e2).Some?
    requires forall a :: Tested(e1, a) <= Tested(e, a) && Tested(e2, a) <= Tested(e, a)
    ensures Reaches(e, Join(t, e1, e2).value)
    ensures ClashFree(e) ==> forall a :: Consistent(Reachable(Tested(e1, a) + Tested(e2, a)))
  {
    forall a
      ensures Tested(Join(t, e1, e2).value, a) <= Reachable(Tested(e, a))
      ensures ClashFree(e) ==> Consistent(Reachable(Tested(e1, a) + Tested(e2, a)))
    {
      JoinTested(t, e1, e2, a);
      ReachableClosed(Tested(e1, a) + Tested(e2, a), Tested(e, a));
    }
  }

  // A join is a copy of e1 or a single operand.
  lemma JoinShape(t: Op, e1: Expr, e2: Expr)
    requires Join(t, e1, e2).Some?
    ensures Join(t, e1, e2).value == e1 || !Join(t, e1, e2).value.Bin?
    ensures IsYN(e1) ==> Join(t, e1, e2).value == e1 == e2
    ensures IsYN(e2) ==> Join(t, e1, e2).value == e1 == e2
  {
  }

  /* ---- expr_eliminate_dups1 ---- */

  /** One pass over a level of `t` operands.  p1 and p2 are the two slots the C function is given; both
      lie in the same tree, as they do in the call with (&e, &e).  The second component counts the
      joins made (trans_count). */
  function Dups1(t: Op, e: Expr, p1: Path, p2: Path): (r: (Expr, nat))
    requires Within(ShapeOf(t, e), p1) && Within(ShapeOf(t, e), p2)
    ensures ShapeOf(t, r.0) == ShapeOf(t, e)
    ensures LevelAlternation(t, r.0) <= LevelAlternation(t, e)
    decreases LevelAlternation(t, e), Forks(ShapeAt(ShapeOf(t, e), p1)) + Forks(ShapeAt(ShapeOf(t, e), p2)), 1
  {
    if ShapeAt(ShapeOf(t, e), p1).Fork? then
      WithinExtend(ShapeOf(t, e), p1, false);
      WithinExtend(ShapeOf(t, e), p1, true);
      var a := Dups1(t, e, p1 + [false], p2);
      var b := Dups1(t, a.0, p1 + [true], p2);
      (b.0, a.1 + b.1)
    else if ShapeAt(ShapeOf(t, e), p2).Fork? then
      WithinExtend(ShapeOf(t, e), p2, false);
      WithinExtend(ShapeOf(t, e), p2, true);
      var a := Dups1(t, e, p1, p2 + [false]);
      var b := Dups1(t, a.0, p1, p2 + [true]);
      (b.0, a.1 + b.1)
    else if p1 == p2 then (e, 0)
    else
      var a := DupsInside(t, e, p1);
      var b := JoinSlots(t, a.0, p1, p2);
      (b.0, a.1 + b.1)
  }

  /** The operand in slot p is itself an && or ||: tidy it in place first. */
  function DupsInside(t: Op, e: Expr, p: Path): (r: (Expr, nat))
    requires Within(ShapeOf(t, e), p) && ShapeAt(ShapeOf(t, e), p).Tip?
    ensures ShapeOf(t, r.0) == ShapeOf(t, e)
    ensures LevelAlternation(t, r.0) <= LevelAlternation(t, e)
    decreases LevelAlternation(t, e), 0, 0
  {
    var x := At(t, e, p);
    if x.Bin? then
      AtAlternation(t, e, p);
      var y := Dups1(x.op, x, [], []);
      PutSlot(t, e, p, y.0);
      PutAlternation(t, e, p, y.0, LevelAlternation(t, e));
      (Put(t, e, p, y.0), y.1)
    else (e, 0)
  }

  /** Replace the operands in two slots by the unit and their join. */
  function JoinSlots(t: Op, e: Expr, p1: Path, p2: Path): (r: (Expr, nat))
    requires Within(ShapeOf(t, e), p1) && Within(ShapeOf(t, e), p2) && p1 != p2
    requires ShapeAt(ShapeOf(t, e), p1).Tip? && ShapeAt(ShapeOf(t, e), p2).Tip?
    ensures ShapeOf(t, r.0) == ShapeOf(t, e)
    ensures LevelAlternation(t, r.0) <= LevelAlternation(t, e)
  {
    var j := Join(t, At(t, e, p1), At(t, e, p2));
    if j.None? then (e, 0)
    else
      JoinShape(t, At(t, e, p1), At(t, e, p2));
      AtAlternation(t, e, p1);
      PutSlot(t, e, p1, Unit(t));
      PutAlternation(t, e, p1, Unit(t), LevelAlternation(t, e));
      PutSlot(t, Put(t, e, p1, Unit(t)), p2, j.value);
      PutAlternation(t, Put(t, e, p1, Unit(t)), p2, j.value, LevelAlternation(t, e));
      (Put(t, Put(t, e, p1, Unit(t)), p2, j.value), 1)
  }

  /* ---- what one pass does ---- */

  /** A pass keeps the value, if no tests clash, and tests nothing it should not; it never adds operands; if
      it joined nothing it changed nothing, and if it joined something it left a constant for EliminateYN to
      remove. */
  ghost predicate PassOk(e: Expr, r: (Expr, nat), v: Valuation) {
    && (ClashFree(e) ==> Eval(r.0, v) == Eval(e, v))
    && Reaches(e, r.0)
    && LeafCount(r.0) <= LeafCount(e)
    && (if r.1 == 0 then r.0 == e else HasYN(r.0))
  }

  lemma {:induction false} AtParts(t: Op, e: Expr, p: Path)
    requires Within(ShapeOf(t, e), p)
    ensures forall a :: Tested(At(t, e, p), a) <= Tested(e, a)
    ensures HasYN(At(t, e, p)) ==> HasYN(e)
    decreases |p|
  {
    if p != [] {
      AtParts(t, if p[0] then e.r else e.l, p[1..]);
    }
  }

  lemma {:induction false} PutTested(t: Op, e: Expr, p: Path, x: Expr, a: Symbol)
    requires Within(ShapeOf(t, e), p)
    ensures Tested(Put(t, e, p, x), a) <= Tested(e, a) + Tested(x, a)
    decreases |p|
  {
    if p != [] {
      PutTested(t, if p[0] then e.r else e.l, p[1..], x, a);
    }
  }

  // Storing what e reaches in a slot of e.
  lemma PutReaches(t: Op, e: Expr, f: Expr, p: Path, x: Expr)
    requires Within(ShapeOf(t, f), p) && Reaches(e, f) && Reaches(e, x)
    ensures Reaches(e, Put(t, f, p, x))
  {
    forall a ensures Tested(Put(t, f, p, x), a) <= Reachable(Tested(e, a)) {
      PutTested(t, f, p, x, a);
    }
  }

  lemma ReachesSelf(e: Expr)
    ensures Reaches(e, e)
  {
  }

  // One stretch of a pass after another.
  lemma PassThenPass(e: Expr, r: (Expr, nat), q: (Expr, nat), v: Valuation)
    requires PassOk(e, r, v) && PassOk(r.0, q, v)
    ensures PassOk(e, (q.0, r.1 + q.1), v)
  {
    TestsTransitive(e, r.0, q.0);
    if ClashFree(e) {
      ClashFreeWithin(e, r.0);
    }
  }

  lemma {:induction false} Dups1Correct(t: Op, e: Expr, p1: Path, p2: Path, v: Valuation)
    requires Within(ShapeOf(t, e), p1) && Within(ShapeOf(t, e), p2)
    ensures PassOk(e, Dups1(t, e, p1, p2), v)
    decreases LevelAlternation(t, e), Forks(ShapeAt(ShapeOf(t, e), p1)) + Forks(ShapeAt(ShapeOf(t, e), p2)), 1
  {
    if ShapeAt(ShapeOf(t, e), p1).Fork? {
      WithinExtend(ShapeOf(t, e), p1, false);
      WithinExtend(ShapeOf(t, e), p1, true);
      Dups1Correct(t, e, p1 + [false], p2, v);
      var a := Dups1(t, e, p1 + [false], p2);
      Dups1Correct(t, a.0, p1 + [true], p2, v);
      PassThenPass(e, a, Dups1(t, a.0, p1 + [true], p2), v);
    } else if ShapeAt(ShapeOf(t, e), p2).Fork? {
      WithinExtend(ShapeOf(t, e), p2, false);
      WithinExtend(ShapeOf(t, e), p2, true);
      Dups1Correct(t, e, p1, p2 + [false], v);
      var a := Dups1(t, e, p1, p2 + [false]);
      Dups1Correct(t, a.0, p1, p2 + [true], v);
      PassThenPass(e, a, Dups1(t, a.0, p1, p2 + [true]), v);
    } else if p1 != p2 {
      DupsInsideCorrect(t, e, p1, v);
      var a := DupsInside(t, e, p1);
      JoinSlotsCorrect(t, a.0, p1, p2, v);
      PassThenPass(e, a, JoinSlots(t, a.0, p1, p2), v);
    }
  }

  lemma {:induction false} DupsInsideCorrect(t: Op, e: Expr, p: Path, v: Valuation)
    requires Within(ShapeOf(t, e), p) && ShapeAt(ShapeOf(t, e), p).Tip?
    ensures PassOk(e, DupsInside(t, e, p), v)
    decreases LevelAlternation(t, e), 0, 0
  {
    var x := At(t, e, p);
    if x.Bin? {
      AtAlternation(t, e, p);
      AtParts(t, e, p);
      assert Reaches(e, x);
      Dups1Correct(x.op, x, [], [], v);
      var y := Dups1(x.op, x, [], []);
      PutBack(t, e, p);
      SlotValue(t, e, p, x, v);
      SlotValue(t, e, p, y.0, v);
      PutLeafCount(t, e, p, y.0);
      if ClashFree(e) {
        ClashFreeWithin(e, x);
      }
      TestsTransitive(e, x, y.0);
      ReachesSelf(e);
      PutReaches(t, e, e, p, y.0);
      PutSlot(t, e, p, y.0);
      AtParts(t, Put(t, e, p, y.0), p);
    }
  }

  /** Two slots of one level hold a and b: the level's value is a, b and a rest that neither changes. */
  lemma TwoSlots(t: Op, e: Expr, p1: Path, p2: Path, x1: Expr, x2: Expr, v: Valuation)
    requires Within(ShapeOf(t, e), p1) && Within(ShapeOf(t, e), p2) && p1 != p2
    requires ShapeAt(ShapeOf(t, e), p1).Tip? && ShapeAt(ShapeOf(t, e), p2).Tip?
    requires ShapeOf(t, x1).Tip? && ShapeOf(t, x2).Tip?
    requires Apply(t, Eval(x1, v), Eval(x2, v)) == Apply(t, Eval(At(t, e, p1), v), Eval(At(t, e, p2), v))
    ensures ShapeOf(t, Put(t, e, p1, x1)) == ShapeOf(t, e)
    ensures Eval(Put(t, Put(t, e, p1, x1), p2, x2), v) == Eval(e, v)
  {
    var f, f' := Put(t, e, p1, Unit(t)), Put(t, e, p1, x1);
    PutElsewhere(t, e, p1, p2, Unit(t));
    PutElsewhere(t, e, p1, p2, x1);
    SwapPuts(t, e, p1, p2, x1, x2);
    var g := Put(t, e, p2, x2);
    PutElsewhere(t, e, p2, p1, x2);
    var rest := Eval(Put(t, f, p2, Unit(t)), v);
    // the tree with x1 and x2
    SlotValue(t, g, p1, x1, v);
    SwapPuts(t, e, p1, p2, Unit(t), x2);
    SlotValue(t, f, p2, x2, v);
    // the tree as it was
    PutBack(t, e, p1);
    SlotValue(t, e, p1, At(t, e, p1), v);
    PutBack(t, f, p2);
    SlotValue(t, f, p2, At(t, e, p2), v);
    Regroup(t, Eval(x1, v), Eval(x2, v), rest, 0);
    Regroup(t, Eval(At(t, e, p1), v), Eval(At(t, e, p2), v), rest, 0);
  }

  lemma {:induction false} SwapPuts(t: Op, e: Expr, p: Path, q: Path, x: Expr, y: Expr)
    requires Within(ShapeOf(t, e), p) && Within(ShapeOf(t, e), q) && p != q
    requires ShapeAt(ShapeOf(t, e), p).Tip? && ShapeAt(ShapeOf(t, e), q).Tip?
    requires ShapeOf(t, x).Tip? && ShapeOf(t, y).Tip?
    ensures ShapeOf(t, Put(t, e, p, x)) == ShapeOf(t, e) && ShapeOf(t, Put(t, e, q, y)) == ShapeOf(t, e)
    ensures Put(t, Put(t, e, p, x), q, y) == Put(t, Put(t, e, q, y), p, x)
    decreases |p|
  {
    PutSlot(t, e, p, x);
    PutSlot(t, e, q, y);
    if p[0] == q[0] {
      assert p == [p[0]] + p[1..] && q == [q[0]] + q[1..];
      SwapPuts(t, if p[0] then e.r else e.l, p[1..], q[1..], x, y);
    }
  }

  lemma {:induction false} JoinSlotsCorrect(t: Op, e: Expr, p1: Path, p2: Path, v: Valuation)
    requires Within(ShapeOf(t, e), p1) && Within(ShapeOf(t, e), p2) && p1 != p2
    requires ShapeAt(ShapeOf(t, e), p1).Tip? && ShapeAt(ShapeOf(t, e), p2).Tip?
    ensures PassOk(e, JoinSlots(t, e, p1, p2), v)
  {
    var x1, x2 := At(t, e, p1), At(t, e, p2);
    var j := Join(t, x1, x2);
    if j.Some? {
      AtParts(t, e, p1);
      AtParts(t, e, p2);
      JoinShape(t, x1, x2);
      var f := Put(t, e, p1, Unit(t));
      PutElsewhere(t, e, p1, p2, Unit(t));
      JoinReaches(t, e, x1, x2);
      ReachesSelf(e);
      PutReaches(t, e, e, p1, Unit(t));
      PutReaches(t, e, f, p2, j.value);
      if ClashFree(e) {
        JoinCorrect(t, x1, x2, v);
        TwoSlots(t, e, p1, p2, Unit(t), j.value, v);
      }
      PutLeafCount(t, e, p1, Unit(t));
      PutLeafCount(t, f, p2, j.value);
      LeafCountPositive(x1);
      LeafCountPositive(x2);
      PutSlot(t, e, p1, Unit(t));
      PutElsewhere(t, f, p2, p1, j.value);
      AtParts(t, Put(t, f, p2, j.value), p1);
    }
  }

  /* ---- expr_eliminate_dups ---- */

  /** One pass over the whole tree. */
  function DupsPass(e: Expr): (r: (Expr, nat)) {
    if e.Bin? then Dups1(e.op, e, [], []) else (e, 0)
  }

  lemma DupsPassCorrect(e: Expr, v: Valuation)
    ensures PassOk(e, DupsPass(e), v)
  {
    if e.Bin? {
      Dups1Correct(e.op, e, [], [], v);
    }
  }

  /** A pass that joined something, followed by EliminateYN, leaves fewer operands. */
  lemma PassShrinks(e: Expr)
    requires DupsPass(e).1 != 0
    ensures LeafCount(EliminateYN(DupsPass(e).0)) < LeafCount(e)
  {
    DupsPassCorrect(e, Uniform(0));
    EliminateYNCorrect(DupsPass(e).0, Uniform(0));
  }

  /** expr_eliminate_dups on a tree that is not NULL. */
  function EliminateDups(e: Expr): Expr
    decreases LeafCount(e)
  {
    var r := DupsPass(e);
    if r.1 == 0 then r.0
    else
      PassShrinks(e);
      EliminateDups(EliminateYN(r.0))
  }

  lemma EliminateYNTested(e: Expr, a: Symbol)
    ensures Tested(EliminateYN(e), a) <= Tested(e, a)
  {
  }

  /** expr_eliminate_dups keeps the value under every valuation, unless tests clash. */
  lemma {:induction false} EliminateDupsCorrect(e: Expr, v: Valuation)
    requires ClashFree(e)
    ensures Eval(EliminateDups(e), v) == Eval(e, v) && ClashFree(EliminateDups(e))
    decreases LeafCount(e)
  {
    DupsPassCorrect(e, v);
    var r := DupsPass(e);
    if r.1 != 0 {
      PassShrinks(e);
      EliminateYNCorrect(r.0, v);
      forall a ensures Tested(EliminateYN(r.0), a) <= Reachable(Tested(e, a)) {
        EliminateYNTested(r.0, a);
      }
      ClashFreeWithin(e, EliminateYN(r.0));
      EliminateDupsCorrect(EliminateYN(r.0), v);
    }
  }

  /** What comes out of expr_eliminate_dups goes through it unchanged. */
  lemma {:induction false} EliminateDupsIdempotent(e: Expr)
    ensures EliminateDups(EliminateDups(e)) == EliminateDups(e)
    decreases LeafCount(e)
  {
    DupsPassCorrect(e, Uniform(0));
    if DupsPass(e).1 != 0 {
      PassShrinks(e);
      EliminateDupsIdempotent(EliminateYN(DupsPass(e).0));
    }
  }

  // q is the slot p or lies below it.
  predicate Below(p: Path, q: Path) { |p| <= |q| && q[..|p|] == p }

  // q is the slot of an operand.
  predicate OperandSlot(t: Op, e: Expr, q: Path) { Within(ShapeOf(t, e), q) && ShapeAt(ShapeOf(t, e), q).Tip? }

  // An operand below a slot is that slot, or lies below one of its halves.
  lemma {:induction false} SlotBelow(s: Shape, p: Path, q: Path)
    requires Within(s, p) && Within(s, q) && ShapeAt(s, q).Tip? && Below(p, q)
    ensures ShapeAt(s, p).Tip? ==> p == q
    ensures ShapeAt(s, p).Fork? ==> |p| < |q| && Below(p + [q[|p|]], q)
    decreases |p|
  {
    if p == [] {
    } else {
      var s' := if p[0] then s.right else s.left;
      assert q[0] == q[..|p|][0] == p[0];
      assert q[1..][..|p[1..]|] == q[..|p|][1..];
      SlotBelow(s', p[1..], q[1..]);
      assert q == [q[0]] + q[1..] && p == [p[0]] + p[1..];
    }
  }

  /** A pass that joins nothing has compared every two operands it was given, and has joined nothing inside
      the first of them. */
  lemma {:induction false} NothingToJoin(t: Op, e: Expr, p1: Path, p2: Path, q1: Path, q2: Path)
    requires Within(ShapeOf(t, e), p1) && Within(ShapeOf(t, e), p2)
    requires Dups1(t, e, p1, p2).1 == 0
    requires OperandSlot(t, e, q1) && Below(p1, q1) && OperandSlot(t, e, q2) && Below(p2, q2) && q1 != q2
    ensures Join(t, At(t, e, q1), At(t, e, q2)).None? && DupsInside(t, e, q1).1 == 0
    decreases Forks(ShapeAt(ShapeOf(t, e), p1)) + Forks(ShapeAt(ShapeOf(t, e), p2))
  {
    var v := Uniform(0);
    if ShapeAt(ShapeOf(t, e), p1).Fork? {
      WithinExtend(ShapeOf(t, e), p1, false);
      WithinExtend(ShapeOf(t, e), p1, true);
      Dups1Correct(t, e, p1 + [false], p2, v);
      SlotBelow(ShapeOf(t, e), p1, q1);
      if q1[|p1|] {
        NothingToJoin(t, e, p1 + [true], p2, q1, q2);
      } else {
        NothingToJoin(t, e, p1 + [false], p2, q1, q2);
      }
    } else if ShapeAt(ShapeOf(t, e), p2).Fork? {
      WithinExtend(ShapeOf(t, e), p2, false);
      WithinExtend(ShapeOf(t, e), p2, true);
      Dups1Correct(t, e, p1, p2 + [false], v);
      SlotBelow(ShapeOf(t, e), p2, q2);
      if q2[|p2|] {
        NothingToJoin(t, e, p1, p2 + [true], q1, q2);
      } else {
        NothingToJoin(t, e, p1, p2 + [false], q1, q2);
      }
    } else {
      SlotBelow(ShapeOf(t, e), p1, q1);
      SlotBelow(ShapeOf(t, e), p2, q2);
      DupsInsideCorrect(t, e, p1, v);
    }
  }

  // No operand at the level of t at the top of e joins with another.
  ghost predicate NoPair(t: Op, e: Expr) {
    forall q1, q2 :: OperandSlot(t, e, q1) && OperandSlot(t, e, q2) && q1 != q2 ==>
      Join(t, At(t, e, q1), At(t, e, q2)).None?
  }

  /** Nothing is left to join: neither between operands of the top level nor, at any depth, inside an operand
      that is itself an && or ||. */
  ghost predicate Settled(e: Expr)
    decreases e, 1
  {
    e.Bin? ==> NoPair(e.op, e) && SettledOperands(e.op, e)
  }

  ghost predicate SettledOperands(t: Op, e: Expr)
    decreases e, if IsType(t, e) then 0 else 2
  {
    if IsType(t, e) then SettledOperands(t, e.l) && SettledOperands(t, e.r) else Settled(e)
  }

  // A pass over the whole tree that joins nothing joins nothing in any operand either.
  lemma {:induction false} NothingInside(e: Expr, q: Path)
    requires e.Bin? && DupsPass(e).1 == 0 && OperandSlot(e.op, e, q)
    ensures DupsPass(At(e.op, e, q)).1 == 0
  {
    var t := e.op;
    var q' := OtherSlot(t, e, q);
    NothingToJoin(t, e, [], [], q, q');
  }

  // Down the half of the level where q is not.
  lemma {:induction false} OtherSlot(t: Op, e: Expr, q: Path) returns (q': Path)
    requires IsType(t, e) && OperandSlot(t, e, q)
    ensures OperandSlot(t, e, q') && q' != q
  {
    q' := FirstSlot(t, if q[0] then e.l else e.r);
    q' := [!q[0]] + q';
  }

  lemma {:induction false} FirstSlot(t: Op, e: Expr) returns (q: Path)
    ensures OperandSlot(t, e, q)
  {
    q := [];
    if IsType(t, e) {
      q := FirstSlot(t, e.l);
      q := [false] + q;
    }
  }

  lemma {:induction false} SettledByPass(e: Expr)
    requires DupsPass(e).1 == 0
    ensures Settled(e)
    decreases Alternation(e), 0
  {
    if e.Bin? {
      forall q1, q2 | OperandSlot(e.op, e, q1) && OperandSlot(e.op, e, q2) && q1 != q2
        ensures Join(e.op, At(e.op, e, q1), At(e.op, e, q2)).None?
      {
        NothingToJoin(e.op, e, [], [], q1, q2);
      }
      OperandsSettled(e, [], e);
    }
  }

  // x is what slot p of e's top level holds.
  lemma {:induction false} OperandsSettled(e: Expr, p: Path, x: Expr)
    requires e.Bin? && DupsPass(e).1 == 0 && Within(ShapeOf(e.op, e), p) && x == At(e.op, e, p)
    ensures SettledOperands(e.op, x)
    decreases LevelAlternation(e.op, e), 1, x
  {
    var t := e.op;
    if IsType(t, x) {
      WithinExtend(ShapeOf(t, e), p, false);
      WithinExtend(ShapeOf(t, e), p, true);
      AtHalf(t, e, p);
      OperandsSettled(e, p + [false], x.l);
      OperandsSettled(e, p + [true], x.r);
    } else {
      NothingInside(e, p);
      AtAlternation(t, e, p);
      SettledByPass(x);
    }
  }

  lemma {:induction false} AtHalf(t: Op, e: Expr, p: Path)
    requires Within(ShapeOf(t, e), p) && Within(ShapeOf(t, e), p + [false]) && Within(ShapeOf(t, e), p + [true])
    requires IsType(t, At(t, e, p))
    ensures At(t, e, p + [false]) == At(t, e, p).l && At(t, e, p + [true]) == At(t, e, p).r
    decreases |p|
  {
    if p != [] {
      assert (p + [false])[1..] == p[1..] + [false] && (p + [true])[1..] == p[1..] + [true];
      AtHalf(t, if p[0] then e.r else e.l, p[1..]);
    }
  }

  /** Once expr_eliminate_dups is done, no two operands can be joined, in either order, at any level of && or ||
      reached through && and ||. */
  lemma {:induction false} EliminateDupsComplete(e: Expr)
    ensures Settled(EliminateDups(e))
    decreases LeafCount(e)
  {
    var r := DupsPass(e);
    DupsPassCorrect(e, Uniform(0));
    if r.1 == 0 {
      SettledByPass(e);
    } else {
      PassShrinks(e);
      EliminateDupsComplete(EliminateYN(r.0));
    }
  }

  /** expr_eliminate_dups with the file-wide join counter it borrows. */
  class Simplifier {
    var transCount: nat

    constructor ()
      ensures transCount == 0
    {
      transCount := 0;
    }

    /** expr_eliminate_dups1 on two slots of one tree: down to the operands, tidy the first if it is an && or
        ||, and join the two in place.  Every join raises the counter. */
    method ExprEliminateDups1(t: Op, e: Expr, p1: Path, p2: Path) returns (r: Expr)
      requires Within(ShapeOf(t, e), p1) && Within(ShapeOf(t, e), p2)
      modifies this
      ensures r == Dups1(t, e, p1, p2).0
      ensures transCount == old(transCount) + Dups1(t, e, p1, p2).1
      decreases LevelAlternation(t, e), Forks(ShapeAt(ShapeOf(t, e), p1)) + Forks(ShapeAt(ShapeOf(t, e), p2))
    {
      r := e;
      if IsType(t, At(t, r, p1)) {
        WithinExtend(ShapeOf(t, e), p1, false);
        WithinExtend(ShapeOf(t, e), p1, true);
        r := ExprEliminateDups1(t, r, p1 + [false], p2);
        r := ExprEliminateDups1(t, r, p1 + [true], p2);
        return;
      }
      if IsType(t, At(t, r, p2)) {
        WithinExtend(ShapeOf(t, e), p2, false);
        WithinExtend(ShapeOf(t, e), p2, true);
        r := ExprEliminateDups1(t, r, p1, p2 + [false]);
        r := ExprEliminateDups1(t, r, p1, p2 + [true]);
        return;
      }
      if p1 == p2 {
        return;
      }
      var x := At(t, r, p1);
      if x.Bin? {
        AtAlternation(t, e, p1);
        var y := ExprEliminateDups1(x.op, x, [], []);
        r := Put(t, r, p1, y);
      }
      assert r == DupsInside(t, e, p1).0;
      var j := Join(t, At(t, r, p1), At(t, r, p2));
      if j.Some? {
        JoinShape(t, At(t, r, p1), At(t, r, p2));
        PutSlot(t, r, p1, Unit(t));
        r := Put(t, r, p1, Unit(t));
        r := Put(t, r, p2, j.value);
        transCount := transCount + 1;
      }
    }

    /** The fixpoint loop: it ends, it computes EliminateDups, and it puts the counter back. */
    method ExprEliminateDups(e: Option<Expr>) returns (r: Option<Expr>)
      modifies this
      ensures transCount == old(transCount)
      ensures r == if e.None? then None else Some(EliminateDups(e.value))
    {
      if e.None? {
        return None;
      }
      var oldCount := transCount;
      var x := e.value;
      while true
        invariant EliminateDups(x) == EliminateDups(e.value)
        decreases LeafCount(x)
      {
        transCount := 0;
        ghost var before := x;
        if x.Bin? {
          x := ExprEliminateDups1(x.op, x, [], []);
        }
        if transCount == 0 {
          break;
        }
        PassShrinks(before);
        x := EliminateYN(x);
      }
      transCount := oldCount;
      r := Some(x);
    }
  }
}
