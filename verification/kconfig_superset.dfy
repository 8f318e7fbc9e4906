/**
 When the superset test of automatic submenus succeeds (nemu/tools/kconfig/expr.c:142-242, menu.c:456-490): what
 expr_eliminate_eq leaves of two expressions, told by the operands each of them has.
 */
module KconfigSuperset {
  import opened Common
  import opened KconfigExpr
  import opened KconfigEq
  import opened KconfigCanon
  import opened KconfigClash
  import opened KconfigDups
  import opened KconfigTransform
  import opened KconfigMenu
  import opened KconfigSubmenu
  import opened KconfigSymbol

  /* ---- what a level folds to ---- */

  /** g is what is left of a level with the operands m: nothing is the unit, one operand stands alone, more are
      joined again. */
  predicate Leaves(t: Op, m: multiset<Canon>, g: Expr) {
    if m == multiset{} then g == Unit(t) else !IsYN(g) && Clean(g) && Operands(t, g) == m
  }

  lemma {:induction false} FoldedLevel(t: Op, f: Expr)
    requires Tidy(t, f) && !HasOperand(t, f, Zero(t))
    ensures Leaves(t, Real(t, f), EliminateYN(f))
  {
    if IsType(t, f) {
      FoldedLevel(t, f.l);
      FoldedLevel(t, f.r);
      FoldStep(t, f);
      LeavesJoined(t, Real(t, f.l), EliminateYN(f.l), Real(t, f.r), EliminateYN(f.r));
      hide EliminateYN, Leaves;
    } else if !IsYN(f) {
      RealOperand(t, f);
      FoldedClean(f);
    }
  }

  lemma LeavesJoined(t: Op, m: multiset<Canon>, x: Expr, n: multiset<Canon>, y: Expr)
    requires Leaves(t, m, x) && Leaves(t, n, y)
    ensures Leaves(t, m + n,
              if x == Zero(t) || y == Zero(t) then Zero(t) else if x == Unit(t) then y
              else if y == Unit(t) then x else Bin(t, x, y))
  {
    assert m == multiset{} ==> m + n == n;
    assert n == multiset{} ==> m + n == m;
    if m != multiset{} && n != multiset{} {
      LevelJoined(t, m, x, n, y);
      assert x != Zero(t) && y != Zero(t) && x != Unit(t) && y != Unit(t);
    } else {
      hide Operands, Clean;
    }
  }

  lemma LevelJoined(t: Op, m: multiset<Canon>, x: Expr, n: multiset<Canon>, y: Expr)
    requires Leaves(t, m, x) && Leaves(t, n, y) && m != multiset{} && n != multiset{}
    ensures Leaves(t, m + n, Bin(t, x, y))
  {
    BothOperands(t, x, y);
    BothNonempty(m, n);
    hide Operands;
  }

  lemma BothNonempty(m: multiset<Canon>, n: multiset<Canon>)
    requires m != multiset{}
    ensures m + n != multiset{}
  {
    var c :| c in m;
    assert c in m + n;
  }

  lemma BothOperands(t: Op, x: Expr, y: Expr)
    ensures Operands(t, Bin(t, x, y)) == Operands(t, x) + Operands(t, y)
  {
  }

  lemma FoldedClean(e: Expr)
    requires Clean(e) && !IsYN(e)
    ensures EliminateYN(e) == e
  {
    CleanHasNoYN(e);
    EliminateYNCorrect(e, Uniform(0));
  }

  lemma {:induction false} SomeOperand(t: Op, e: Expr)
    ensures |Operands(t, e)| >= if IsType(t, e) then 2 else 1
  {
    if IsType(t, e) {
      SomeOperand(t, e.l);
      SomeOperand(t, e.r);
    }
  }

  /* ---- one round of elimination ---- */

  /** Levels without a common operand are left as they are. */
  lemma {:induction false} Untouched(t: Op, e1: Expr, e2: Expr)
    requires Tidy(t, e1) && Tidy(t, e2) && Real(t, e1) !! Real(t, e2)
    ensures EliminateEqLevel(t, e1, e2) == (e1, e2)
    decreases Size(e1) + Size(e2)
  {
    if IsType(t, e1) {
      Untouched(t, e1.l, e2);
      Untouched(t, e1.r, e2);
    } else if IsType(t, e2) {
      Untouched(t, e1, e2.l);
      Untouched(t, e1, e2.r);
    } else {
      UntouchedLeaves(t, e1, e2);
    }
  }

  lemma UntouchedLeaves(t: Op, e1: Expr, e2: Expr)
    requires !IsType(t, e1) && !IsType(t, e2) && Clean(e1) && Clean(e2) && Real(t, e1) !! Real(t, e2)
    ensures EliminateEqLevel(t, e1, e2) == (e1, e2)
  {
    if !IsYN(e1) && !IsYN(e2) {
      ExprEqExact(e1, e2);
      RealOperand(t, e1);
      RealOperand(t, e2);
      LevelOfTwo(t, e1, e2);
      assert CanonOf(e1) in multiset{CanonOf(e1)};
      hide *;
    }
  }

  // A tree that is one operand stays whole or becomes the unit.
  lemma {:induction false} WholeOrUnit(t: Op, e1: Expr, e2: Expr)
    ensures var r := EliminateEqLevel(t, e1, e2);
            && (!IsType(t, e1) ==> r.0 == e1 || r.0 == Unit(t))
            && (!IsType(t, e2) ==> r.1 == e2 || r.1 == Unit(t))
    decreases Size(e1) + Size(e2)
  {
    if IsType(t, e1) {
      WholeOrUnit(t, e1.l, e2);
      WholeOrUnit(t, e1.r, EliminateEqLevel(t, e1.l, e2).1);
    } else if IsType(t, e2) {
      WholeOrUnit(t, e1, e2.l);
      WholeOrUnit(t, EliminateEqLevel(t, e1, e2.l).0, e2.r);
    }
  }

  // The first round: e2 is one operand of the level of e1, or is not.
  lemma FirstRound(t: Op, e1: Expr, e2: Expr)
    requires IsType(t, e1) && !IsType(t, e2) && Clean(e1) && Clean(e2) && !IsYN(e2)
    ensures var r := EliminateEqLevel(t, e1, e2);
            if CanonOf(e2) in Operands(t, e1)
            then Leaves(t, Operands(t, e1) - multiset{CanonOf(e2)}, EliminateYN(r.0)) && r.1 == Unit(t)
            else r == (e1, e2)
  {
    var r, o, c := EliminateEqLevel(t, e1, e2), Operands(t, e1), CanonOf(e2);
    CleanLevel(t, e1);
    RealOperand(t, e2);
    if c in o {
      LevelDifference(t, e1, e2);
      ZeroSurvives(t, e1, e2);
      WholeOrUnit(t, e1, e2);
      FoldedLevel(t, r.0);
      TakenOut(o, c);
      hide Leaves, CanonOf, Operands;
    } else {
      assert multiset{c} !! o;
      Untouched(t, e1, e2);
    }
  }

  // The second round, where e1 is one operand.
  lemma SecondRound(t: Op, e1: Expr, e2: Expr)
    requires !IsType(t, e1) && IsType(t, e2) && Clean(e1) && Clean(e2) && !IsYN(e1)
    ensures var r := EliminateEqLevel(t, e1, e2);
            if CanonOf(e1) in Operands(t, e2)
            then r.0 == Unit(t) && Leaves(t, Operands(t, e2) - multiset{CanonOf(e1)}, EliminateYN(r.1))
            else r == (e1, e2)
  {
    var r, o, c := EliminateEqLevel(t, e1, e2), Operands(t, e2), CanonOf(e1);
    CleanLevel(t, e2);
    RealOperand(t, e1);
    if c in o {
      LevelDifference(t, e1, e2);
      ZeroSurvives(t, e1, e2);
      WholeOrUnit(t, e1, e2);
      FoldedLevel(t, r.1);
      TakenOut(o, c);
      hide Leaves, CanonOf, Operands;
    } else {
      assert multiset{c} !! o;
      Untouched(t, e1, e2);
    }
  }

  lemma TakenOut(o: multiset<Canon>, c: Canon)
    requires c in o
    ensures multiset{c} - o == multiset{} && multiset{c} != multiset{}
  {
    assert c in multiset{c};
  }

  // Both trees are levels of one operator.
  lemma SameLevel(t: Op, e1: Expr, e2: Expr)
    requires IsType(t, e1) && IsType(t, e2) && Clean(e1) && Clean(e2)
    ensures var r := EliminateEqLevel(t, e1, e2); var o1, o2 := Operands(t, e1), Operands(t, e2);
            Leaves(t, o1 - o2, EliminateYN(r.0)) && Leaves(t, o2 - o1, EliminateYN(r.1))
  {
    var r := EliminateEqLevel(t, e1, e2);
    CleanLevel(t, e1);
    CleanLevel(t, e2);
    LevelDifference(t, e1, e2);
    ZeroSurvives(t, e1, e2);
    FoldedLevel(t, r.0);
    FoldedLevel(t, r.1);
  }

  /* ---- expr_eliminate_eq ---- */

  /** What expr_eliminate_eq promises, by operands alone.  Two && (or two ||) lose the operands they share, each as
      often as both have it.  Where only one is an && or || that has the other as an operand, it loses that operand
      once, and of the other the unit is left; the first tree is tried as the level before the second.  All else
      stays as it is. */
  ghost predicate Eliminated(e1: Expr, e2: Expr, r: (Expr, Expr)) {
    if IsYN(e1) || IsYN(e2) then r == (e1, e2)
    else if e1.Bin? && IsType(e1.op, e2) then
      var o1, o2 := Operands(e1.op, e1), Operands(e1.op, e2);
      Leaves(e1.op, o1 - o2, r.0) && Leaves(e1.op, o2 - o1, r.1)
    else if e1.Bin? && CanonOf(e2) in Operands(e1.op, e1) then
      Leaves(e1.op, Operands(e1.op, e1) - multiset{CanonOf(e2)}, r.0) && r.1 == Unit(e1.op)
    else if e2.Bin? && CanonOf(e1) in Operands(e2.op, e2) then
      r.0 == Unit(e2.op) && Leaves(e2.op, Operands(e2.op, e2) - multiset{CanonOf(e1)}, r.1)
    else r == (e1, e2)
  }

  lemma EliminateEqIs(e1: Expr, e2: Expr)
    requires Clean(e1) && Clean(e2)
    ensures Eliminated(e1, e2, EliminateEq(e1, e2))
  {
    if IsYN(e1) || IsYN(e2) {
      ConstantStays(e1, e2);
    } else if e1.Bin? && IsType(e1.op, e2) {
      SameLevel(e1.op, e1, e2);
      RawOfLevels(e1.op, e1, e2);
    } else {
      FoldedClean(e1);
      FoldedClean(e2);
      if e1.Bin? {
        FirstRound(e1.op, e1, e2);
      }
      if e2.Bin? {
        SecondRound(e2.op, e1, e2);
      }
      hide Leaves, Operands, CanonOf, EliminateEqLevel, Clean;
    }
  }

  // y or n on either side is no operand of the other.
  lemma ConstantStays(e1: Expr, e2: Expr)
    requires Clean(e1) && Clean(e2) && (IsYN(e1) || IsYN(e2))
    ensures EliminateEq(e1, e2) == (e1, e2)
  {
    if e1.Bin? {
      SpentIsInert(e1.op, e1, e2);
      FoldedClean(e1);
    } else if e2.Bin? {
      SpentIsInert(e2.op, e1, e2);
      FoldedClean(e2);
    }
  }

  lemma LeavesYes(t: Op, m: multiset<Canon>, g: Expr)
    requires Leaves(t, m, g)
    ensures g == Sym(Yes) <==> t.And? && m == multiset{}
  {
  }

  lemma NothingLeft(a: multiset<Canon>, b: multiset<Canon>)
    ensures a - b == multiset{} <==> a <= b
  {
    if a - b == multiset{} {
      forall c ensures a[c] <= b[c] {
        assert (a - b)[c] == 0;
      }
    }
  }

  lemma OneInside(c: Canon, o: multiset<Canon>)
    ensures multiset{c} <= o <==> c in o
  {
    assert multiset{c}[c] == 1;
  }

  lemma MoreThanOne(c: Canon, o: multiset<Canon>)
    requires c in o && |o| >= 2
    ensures o - multiset{c} != multiset{}
  {
    assert |o - multiset{c}| == |o| - 1;
  }

  // An operand that is no && taken out of the level e1.
  lemma OneOperandExact(e1: Expr, e2: Expr, r: (Expr, Expr))
    requires Eliminated(e1, e2, r) && !IsYN(e1) && !IsYN(e2) && e1.Bin? && !IsType(e1.op, e2)
    requires CanonOf(e2) in Operands(e1.op, e1)
    ensures r.1 == Sym(Yes) <==> e1.op.And?
    ensures e1.op.And? ==> Operands(And, e2) == multiset{CanonOf(e2)}
  {
    hide Leaves;
  }

  /** The second tree comes out as y if and only if it is y, or the first is an && that has every operand of it, each
      as often. */
  lemma SupersetExact(e1: Expr, e2: Expr)
    requires Clean(e1) && Clean(e2)
    ensures EliminateEq(e1, e2).1 == Sym(Yes) <==>
            e2 == Sym(Yes) || (IsType(And, e1) && !IsYN(e2) && Operands(And, e2) <= Operands(And, e1))
  {
    var r, o1, o2, c1, c2 := EliminateEq(e1, e2), Operands(And, e1), Operands(And, e2), CanonOf(e1), CanonOf(e2);
    EliminateEqIs(e1, e2);
    OneInside(c2, o1);
    if IsYN(e1) || IsYN(e2) {
    } else if e1.Bin? && IsType(e1.op, e2) {
      var t := e1.op;
      LeavesYes(t, Operands(t, e2) - Operands(t, e1), r.1);
      NothingLeft(o2, o1);
    } else if e1.Bin? && c2 in Operands(e1.op, e1) {
      OneOperandExact(e1, e2, r);
    } else if e2.Bin? && c1 in Operands(e2.op, e2) {
      var t := e2.op;
      SomeOperand(t, e2);
      MoreThanOne(c1, Operands(t, e2));
      LeavesYes(t, Operands(t, e2) - multiset{c1}, r.1);
    }
    hide EliminateEq, Clean, Leaves, CanonOf;
  }

  /* ---- the submenu test ---- */

  /** Nothing expr_transform could turn into y or n: neither of the two, and no bool symbol tested for m. */
  predicate Plain(e: Expr) {
    match e
    case Sym(_) => !IsYN(e)
    case Cmp(_, _, b) => !(BoolTest(e) && b.Mod?)
    case Not(x) => Plain(x)
    case Bin(_, l, r) => Plain(l) && Plain(r)
  }

  lemma {:induction false} PlainClean(e: Expr)
    requires Plain(e)
    ensures Clean(e) && !IsYN(e)
  {
    match e {
      case Not(x) => PlainClean(x);
      case Bin(_, l, r) =>
        PlainClean(l);
        PlainClean(r);
      case _ =>
    }
  }

  lemma {:induction false} TransformPlain(e: Expr)
    requires Plain(e)
    ensures Plain(Transform(e))
    decreases Weight(e)
  {
    match e {
      case Bin(_, l, r) =>
        TransformPlain(l);
        TransformPlain(r);
      case Not(x) =>
        WeightPositive(x);
        TransformPlain(x);
        match Transform(x) {
          case Not(z) =>
            WeightPositive(z);
            TransformPlain(z);
          case Bin(op, l, r) => TransformPlain(PushNot(op, l, r));
          case _ =>
        }
      case _ =>
    }
  }

  // No bool symbol is compared with m.
  predicate NoModTests(e: Expr) {
    match e
    case Sym(_) => true
    case Cmp(_, _, b) => !(BoolTest(e) && b.Mod?)
    case Not(x) => NoModTests(x)
    case Bin(_, l, r) => NoModTests(l) && NoModTests(r)
  }

  /** expr_transform leaves no such comparison. */
  lemma TransformedTests(e: Expr)
    ensures NoModTests(Transform(e))
  {
    TransformNormal(e);
    NormalTests(Transform(e));
  }

  lemma {:induction false} NormalTests(e: Expr)
    requires Normal(e)
    ensures NoModTests(e)
  {
    if e.Bin? {
      NormalTests(e.l);
      NormalTests(e.r);
    }
  }

  lemma {:induction false} CompareNoPlain(e: Expr, eq: bool)
    requires NoModTests(e)
    ensures Plain(CompareNo(e, eq))
  {
    match e {
      case Not(x) => CompareNoPlain(x, !eq);
      case Bin(_, l, r) =>
        CompareNoPlain(l, true);
        CompareNoPlain(r, true);
      case _ =>
    }
  }

  /* ---- joining keeps trees clean ---- */

  // What is negated is clean.
  predicate NotsClean(e: Expr) {
    match e
    case Not(x) => Clean(x)
    case Bin(_, l, r) => NotsClean(l) && NotsClean(r)
    case _ => true
  }

  lemma {:induction false} CleanNots(e: Expr)
    requires Clean(e)
    ensures NotsClean(e)
  {
    if e.Bin? {
      CleanNots(e.l);
      CleanNots(e.r);
    }
  }

  lemma {:induction false} NotsCleanFolds(e: Expr)
    requires NotsClean(e)
    ensures Clean(EliminateYN(e))
  {
    if e.Bin? {
      NotsCleanFolds(e.l);
      NotsCleanFolds(e.r);
    }
  }

  lemma JoinNots(t: Op, e1: Expr, e2: Expr)
    requires Join(t, e1, e2).Some? && NotsClean(e1)
    ensures NotsClean(Join(t, e1, e2).value)
  {
    hide ExprEq, Clean;
  }

  lemma {:induction false} SlotNots(t: Op, e: Expr, p: Path, x: Expr)
    requires Within(ShapeOf(t, e), p) && NotsClean(e)
    ensures NotsClean(At(t, e, p)) && (NotsClean(x) ==> NotsClean(Put(t, e, p, x)))
    decreases |p|
  {
    if p != [] {
      SlotNots(t, if p[0] then e.r else e.l, p[1..], x);
    }
  }

  lemma {:induction false} Dups1Nots(t: Op, e: Expr, p1: Path, p2: Path)
    requires Within(ShapeOf(t, e), p1) && Within(ShapeOf(t, e), p2) && NotsClean(e)
    ensures NotsClean(Dups1(t, e, p1, p2).0)
    decreases LevelAlternation(t, e), Forks(ShapeAt(ShapeOf(t, e), p1)) + Forks(ShapeAt(ShapeOf(t, e), p2)), 1
  {
    hide NotsClean;
    if ShapeAt(ShapeOf(t, e), p1).Fork? {
      WithinExtend(ShapeOf(t, e), p1, false);
      WithinExtend(ShapeOf(t, e), p1, true);
      Dups1Nots(t, e, p1 + [false], p2);
      Dups1Nots(t, Dups1(t, e, p1 + [false], p2).0, p1 + [true], p2);
    } else if ShapeAt(ShapeOf(t, e), p2).Fork? {
      WithinExtend(ShapeOf(t, e), p2, false);
      WithinExtend(ShapeOf(t, e), p2, true);
      Dups1Nots(t, e, p1, p2 + [false]);
      Dups1Nots(t, Dups1(t, e, p1, p2 + [false]).0, p1, p2 + [true]);
    } else if p1 != p2 {
      InsideNots(t, e, p1);
      JoinSlotsNots(t, DupsInside(t, e, p1).0, p1, p2);
    }
  }

  lemma {:induction false} InsideNots(t: Op, e: Expr, p: Path)
    requires OperandSlot(t, e, p) && NotsClean(e)
    ensures NotsClean(DupsInside(t, e, p).0)
    decreases LevelAlternation(t, e), 0, 0
  {
    var x := At(t, e, p);
    if x.Bin? {
      AtAlternation(t, e, p);
      var y := Dups1(x.op, x, [], []);
      SlotNots(t, e, p, y.0);
      Dups1Nots(x.op, x, [], []);
    }
  }

  lemma JoinSlotsNots(t: Op, e: Expr, p1: Path, p2: Path)
    requires OperandSlot(t, e, p1) && OperandSlot(t, e, p2) && p1 != p2 && NotsClean(e)
    ensures NotsClean(JoinSlots(t, e, p1, p2).0)
  {
    var x1, x2 := At(t, e, p1), At(t, e, p2);
    var j := Join(t, x1, x2);
    SlotNots(t, e, p1, Unit(t));
    SlotNots(t, e, p2, Unit(t));
    if j.Some? {
      JoinNots(t, x1, x2);
      PutElsewhere(t, e, p1, p2, Unit(t));
      SlotNots(t, Put(t, e, p1, Unit(t)), p2, j.value);
    }
  }

  /** Joining operands leaves no y and n among operands if there were none. */
  lemma {:induction false} DupsClean(e: Expr)
    requires Clean(e)
    ensures Clean(EliminateDups(e))
    decreases LeafCount(e)
  {
    if e.Bin? {
      var r := DupsPass(e);
      if r.1 == 0 {
        DupsPassCorrect(e, Uniform(0));
      } else {
        PassShrinks(e);
        CleanNots(e);
        Dups1Nots(e.op, e, [], []);
        NotsCleanFolds(r.0);
        DupsClean(EliminateYN(r.0));
      }
    }
  }

  lemma PrepareClean(dep: Option<Expr>)
    requires dep.Some? ==> NoModTests(dep.value)
    ensures Clean(Prepare(dep))
  {
    var e := TransCompare(dep);
    if dep.Some? {
      CompareNoPlain(dep.value, false);
      TransformPlain(e);
      PlainClean(Transform(e));
    }
    DupsClean(Transform(e));
  }

  /** An entry whose dependency tests no bool symbol for m is put below a symbol if and only if the symbol's prompt
      always shows, or the entry's dependency is an && that has every operand of the prompt's, each as often. */
  lemma SubmenuExact(dep: Option<Expr>, basedep: Option<Expr>)
    requires dep.Some? ==> NoModTests(dep.value)
    requires basedep.Some? ==> NoModTests(basedep.value)
    ensures var e, b := Prepare(dep), Prepare(basedep);
            IsSuperset(dep, basedep) <==>
            b == Sym(Yes) || (IsType(And, e) && !IsYN(b) && Operands(And, b) <= Operands(And, e))
  {
    PrepareClean(dep);
    PrepareClean(basedep);
    SupersetExact(Prepare(dep), Prepare(basedep));
  }

  /* ---- one more condition ---- */

  // The test a tristate symbol becomes.
  function Set(b: Symbol): Expr { Cmp(Unequal, b, No) }

  lemma PreparedSymbol(b: Symbol)
    requires b.Var? && b.ty.Tristate?
    ensures Prepare(Some(Sym(b))) == Set(b) && Operands(And, Set(b)) == multiset{CanonOf(Set(b))}
  {
    assert TransCompare(Some(Sym(b))) == Set(b);
    Comparison(Set(b));
    PlainDups(Set(b));
  }

  lemma ConjunctPrepared(d: Expr, b: Symbol)
    requires b.Var? && b.ty.Tristate? && Free(b, d) && NoModTests(d)
    ensures Ends(Prepare(Some(Bin(And, d, Sym(b)))), Set(b))
  {
    var e, n, w := Bin(And, d, Sym(b)), Cmp(Equal, b, No), Set(b);
    var f, p := Transform(CompareNo(e, false)), CompareNo(d, true);
    assert CompareNo(Sym(b), true) == n;
    assert CompareNo(e, false) == Not(Bin(Or, p, n));
    Comparison(n);
    NotBin(Or, p, n);
    CompareNoFree(b, d, true);
    TransformFree(b, Not(p));
    CompareNoPlain(e, false);
    TransformPlain(CompareNo(e, false));
    PlainClean(f);
    CleanLevel(And, f);
    LoneDups(f, w);
  }

  /** Whatever else an entry asks for, it passes against a symbol b it depends on besides, unless b or n is all that is
      left of its dependency. */
  lemma ConjunctPasses(d: Expr, b: Symbol)
    requires b.Var? && b.ty.Tristate? && Free(b, d) && NoModTests(d)
    ensures var dep := Some(Bin(And, d, Sym(b)));
            IsSuperset(dep, Some(Sym(b))) <==> Prepare(dep) != Set(b) && Prepare(dep) != Sym(No)
  {
    var dep, w := Some(Bin(And, d, Sym(b))), Set(b);
    var e := Prepare(dep);
    PreparedSymbol(b);
    ConjunctPrepared(d, b);
    SubmenuExact(dep, Some(Sym(b)));
    hide Prepare, IsSuperset, Clean, NoModTests;
    OneInside(CanonOf(w), Operands(And, e));
    if Lone(And, e, w) {
      AndOperands(e.l, e.r);
    }
  }

  // Made of symbols only.
  predicate SymbolsOnly(e: Expr) {
    match e
    case Sym(_) => true
    case Cmp(_, _, _) => false
    case Not(x) => SymbolsOnly(x)
    case Bin(_, l, r) => SymbolsOnly(l) && SymbolsOnly(r)
  }

  lemma {:induction false} SymbolsTestedForNo(e: Expr, eq: bool, a: Symbol)
    requires SymbolsOnly(e)
    ensures Tested(CompareNo(e, eq), a) <= {No} && NoModTests(e)
  {
    match e {
      case Sym(_) =>
      case Not(x) => SymbolsTestedForNo(x, !eq, a);
      case Bin(_, l, r) =>
        SymbolsTestedForNo(l, true, a);
        SymbolsTestedForNo(r, true, a);
    }
  }

  lemma SymbolsClashFree(e: Expr)
    requires SymbolsOnly(e)
    ensures ClashFree(TransCompare(Some(e))) && NoModTests(e)
  {
    forall a ensures Consistent(Reachable(Tested(CompareNo(e, false), a))) {
      SymbolsTestedForNo(e, false, a);
    }
    SymbolsTestedForNo(e, false, Yes);
  }

  /** A dependency d && b made of symbols passes against b if d can be n while b is not, and both can be other than n at
      once: (sym || Q) && R passes against R. */
  lemma WiderPasses(d: Expr, b: Symbol, v: Valuation, u: Valuation)
    requires b.Var? && b.ty.Tristate? && Free(b, d) && SymbolsOnly(d)
    requires Rounded(d, v) == 0 && TriOf(b, v) != 0 && Rounded(d, u) != 0 && TriOf(b, u) != 0
    ensures IsSuperset(Some(Bin(And, d, Sym(b))), Some(Sym(b)))
  {
    var dep := Some(Bin(And, d, Sym(b)));
    SymbolsClashFree(dep.value);
    ConjunctPasses(d, b);
    PrepareRounds(dep, v);
    PrepareRounds(dep, u);
    SetIs(b, v);
    assert Rounded(Sym(b), u) == 2;
    assert Rounded(dep.value, v) == 0 && Rounded(dep.value, u) == 2;
    hide Prepare, IsSuperset, ClashFree, NoModTests;
  }

  lemma SetIs(b: Symbol, v: Valuation)
    requires b.Var? && b.ty.Tristate?
    ensures Eval(Set(b), v) == if TriOf(b, v) == 0 then 0 else 2
  {
    SymbolIs(b, v);
  }

  lemma OrPasses(s: Symbol, q: Symbol, r: Symbol)
    requires IsTri(s) && IsTri(q) && r.Var? && r.ty.Tristate? && s != r && q != r
    ensures IsSuperset(Some(Bin(And, Bin(Or, Sym(s), Sym(q)), Sym(r))), Some(Sym(r)))
    ensures IsSuperset(Some(Bin(And, Sym(s), Sym(r))), Some(Sym(r)))
  {
    var v := Valuation((x: Symbol) => if x == r then 2 else 0, (a: Symbol, x: Tri, b: Symbol, y: Tri) => 0);
    var d := Bin(Or, Sym(s), Sym(q));
    assert Rounded(Sym(s), v) == 0 && Rounded(Sym(q), v) == 0;
    assert Rounded(Sym(s), Uniform(2)) == 2 && Rounded(Sym(q), Uniform(2)) == 2;
    assert Rounded(d, v) == 0 && Rounded(d, Uniform(2)) == 2;
    assert Symbols(Sym(s)) == {s} && Symbols(Sym(q)) == {q} && Symbols(d) == {s, q};
    assert SymbolsOnly(Sym(s)) && SymbolsOnly(Sym(q));
    WiderPasses(d, r, v, Uniform(2));
    WiderPasses(Sym(s), r, v, Uniform(2));
    hide IsSuperset;
  }
}
