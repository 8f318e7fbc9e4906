/**
 The automatic submenu test (nemu/tools/kconfig/menu.c:456-490) and the comparison builder it rests on
 (nemu/tools/kconfig/expr.c:922-984).
 */
module KconfigMenu {
  import opened Common
  import opened KconfigExpr
  import opened KconfigEq
  import opened KconfigClash
  import opened KconfigDups
  import opened KconfigTransform

  /** expr_trans_compare against n, below the NULL case: `eq` asks whether e is n, otherwise whether it
      is not. */
  function CompareNo(e: Expr, eq: bool): Expr {
    match e
    case Sym(s) => Cmp(if eq then Equal else Unequal, s, No)
    case Cmp(_, _, _) => if eq then Not(e) else e
    case Not(x) => CompareNo(x, !eq)
    case Bin(op, l, r) =>
      var x := Bin(if op.And? then Or else And, CompareNo(l, true), CompareNo(r, true));
      if eq then x else Not(x)
  }

  /** expr_trans_compare(e, E_UNEQUAL, &symbol_no) */
  function TransCompare(e: Option<Expr>): Expr {
    if e.None? then Not(Sym(No)) else CompareNo(e.value, false)
  }

  /** What e is worth to expr_trans_compare: a symbol counts as y unless it equals n, so m is read as y, and a
      string or constant counts by its text; comparisons are what they are. */
  function Rounded(e: Expr, v: Valuation): (r: Tri)
    ensures r != 1
  {
    match e
    case Sym(s) =>
      if IsTri(s) || IsYmn(s) then (if TriOf(s, v) == 0 then 0 else 2)
      else if Texts(s, No, v) == 0 then 0 else 2
    case Cmp(_, _, _) => Eval(e, v)
    case Not(x) => 2 - Rounded(x, v)
    case Bin(op, l, r) => Apply(op, Rounded(l, v), Rounded(r, v))
  }

  function RoundedOpt(e: Option<Expr>, v: Valuation): Tri {
    if e.None? then 2 else Rounded(e.value, v)
  }

  /** The comparison that is built asks whether the rounded value is n, for every expression. */
  lemma {:induction false} CompareNoRounds(e: Expr, eq: bool, v: Valuation)
    ensures Eval(CompareNo(e, eq), v) == if (Rounded(e, v) == 0) == eq then 2 else 0
  {
    match e {
      case Sym(_) =>
      case Cmp(_, _, _) =>
      case Not(x) => CompareNoRounds(x, !eq, v);
      case Bin(_, l, r) =>
        CompareNoRounds(l, true, v);
        CompareNoRounds(r, true, v);
    }
  }

  /** So it answers whether e is n, or is not, exactly when rounding does not turn n into y or back. */
  lemma CompareNoExact(e: Expr, eq: bool, v: Valuation)
    ensures Eval(CompareNo(e, eq), v) == (if (Eval(e, v) == 0) == eq then 2 else 0) <==>
            (Rounded(e, v) == 0 <==> Eval(e, v) == 0)
  {
    CompareNoRounds(e, eq, v);
  }

  // Every symbol whose value is used on its own is bool, tristate, or one of y, m and n.  (A string
  // symbol has the value n but its text is not "n".)
  predicate TriSymbols(e: Expr) {
    match e
    case Sym(s) => IsTri(s) || IsYmn(s)
    case Cmp(_, _, _) => true
    case Not(x) => TriSymbols(x)
    case Bin(_, l, r) => TriSymbols(l) && TriSymbols(r)
  }

  // Nothing that is negated has the value m.
  predicate SharpNots(e: Expr, v: Valuation) {
    match e
    case Sym(_) => true
    case Cmp(_, _, _) => true
    case Not(x) => Eval(x, v) != 1 && SharpNots(x, v)
    case Bin(_, l, r) => SharpNots(l, v) && SharpNots(r, v)
  }

  /** Rounding keeps n and not-n apart where nothing negated has the value m. */
  lemma {:induction false} RoundedSharp(e: Expr, v: Valuation)
    requires TriSymbols(e) && SharpNots(e, v)
    ensures Rounded(e, v) == 0 <==> Eval(e, v) == 0
  {
    match e {
      case Sym(_) =>
      case Cmp(_, _, _) =>
      case Not(x) => RoundedSharp(x, v);
      case Bin(_, l, r) =>
        RoundedSharp(l, v);
        RoundedSharp(r, v);
    }
  }

  /** For a negation the condition is exact: !x is translated correctly iff x is not m. */
  lemma CompareNoNegation(x: Expr, v: Valuation)
    requires TriSymbols(x) && SharpNots(x, v)
    ensures (Eval(CompareNo(Not(x), false), v) == 2 <==> Eval(Not(x), v) != 0) <==> Eval(x, v) != 1
  {
    CompareNoRounds(Not(x), false, v);
    RoundedSharp(x, v);
  }

  /** Made of bool symbols, y, n and comparisons only: never m. */
  predicate NeverMod(e: Expr) {
    match e
    case Sym(s) => (s.Var? && s.ty.Boolean?) || s.Yes? || s.No?
    case Cmp(_, _, _) => true
    case Not(x) => NeverMod(x)
    case Bin(_, l, r) => NeverMod(l) && NeverMod(r)
  }

  /** What an author can see without knowing any value: every ! stands over bool symbols, y, n and comparisons,
      and no string symbol is used as a condition. */
  predicate PlainNots(e: Expr) {
    match e
    case Sym(s) => IsTri(s) || IsYmn(s)
    case Cmp(_, _, _) => true
    case Not(x) => NeverMod(x)
    case Bin(_, l, r) => PlainNots(l) && PlainNots(r)
  }

  lemma {:induction false} NeverModSharp(e: Expr, v: Valuation)
    requires NeverMod(e)
    ensures Eval(e, v) != 1 && TriSymbols(e) && SharpNots(e, v)
  {
    match e {
      case Sym(_) =>
      case Cmp(_, _, _) =>
      case Not(x) => NeverModSharp(x, v);
      case Bin(_, l, r) =>
        NeverModSharp(l, v);
        NeverModSharp(r, v);
    }
  }

  lemma {:induction false} PlainNotsSharp(e: Expr, v: Valuation)
    requires PlainNots(e)
    ensures TriSymbols(e) && SharpNots(e, v)
  {
    match e {
      case Sym(_) =>
      case Cmp(_, _, _) =>
      case Not(x) => NeverModSharp(x, v);
      case Bin(_, l, r) =>
        PlainNotsSharp(l, v);
        PlainNotsSharp(r, v);
    }
  }

  /** With plain negations the translation is right under every valuation. */
  lemma CompareNoCorrect(e: Expr, eq: bool, v: Valuation)
    requires PlainNots(e)
    ensures Eval(CompareNo(e, eq), v) == if (Eval(e, v) == 0) == eq then 2 else 0
  {
    PlainNotsSharp(e, v);
    RoundedSharp(e, v);
    CompareNoRounds(e, eq, v);
  }

  // What menu_finalize makes of a dependency before the test.
  function Prepare(dep: Option<Expr>): Expr { EliminateDups(Transform(TransCompare(dep))) }

  /** expr_eliminate_eq against the base dependency leaves nothing of it. */
  predicate IsSuperset(dep: Option<Expr>, basedep: Option<Expr>) {
    EliminateEq(Prepare(dep), Prepare(basedep)).1 == Sym(Yes)
  }

  /** If eliminating common operands leaves y of e2, then e1 is at most e2: whatever the mix of
      operators at the top of the two trees. */
  lemma SupersetSound(e1: Expr, e2: Expr, v: Valuation)
    requires EliminateEq(e1, e2).1 == Sym(Yes)
    ensures Eval(e1, v) <= Eval(e2, v)
  {
    var s, p, t, q := EliminateEqRawSplits(e1, e2, v);
    var r := EliminateEqRaw(e1, e2);
    EliminateYNCorrect(r.1, v);
    Monotone(t, q, Eval(r.0, v), 2);
    Monotone(s, p, Apply(t, q, Eval(r.0, v)), Apply(t, q, 2));
  }

  lemma Monotone(t: Op, p: Tri, x: Tri, y: Tri)
    requires x <= y
    ensures Apply(t, p, x) <= Apply(t, p, y)
  {
  }

  // Negating and De Morgan test nothing new.
  lemma TransformTested(e: Expr, a: Symbol)
    ensures Tested(Transform(e), a) <= Tested(e, a)
    decreases Weight(e)
  {
    match e {
      case Not(x) =>
        WeightPositive(x);
        TransformTested(x, a);
        match Transform(x) {
          case Not(z) =>
            WeightPositive(z);
            TransformTested(z, a);
          case Bin(op, l, r) => TransformTested(PushNot(op, l, r), a);
          case _ =>
        }
      case _ =>
    }
  }

  /** What is compared in the test is the rounded value. */
  lemma PrepareRounds(dep: Option<Expr>, v: Valuation)
    requires ClashFree(TransCompare(dep))
    ensures Eval(Prepare(dep), v) == if RoundedOpt(dep, v) == 0 then 0 else 2
  {
    var e := TransCompare(dep);
    if dep.Some? {
      CompareNoRounds(dep.value, false, v);
    }
    forall a ensures Tested(Transform(e), a) <= Reachable(Tested(e, a)) {
      TransformTested(e, a);
    }
    ClashFreeWithin(e, Transform(e));
    TransformCorrect(e, v);
    EliminateDupsCorrect(Transform(e), v);
  }

  /** The automatic submenu test is sound for rounded values, whatever is negated: an entry put below a symbol is
      rounded to n wherever the symbol's own prompt is. */
  lemma SubmenuSoundRounded(dep: Option<Expr>, basedep: Option<Expr>, v: Valuation)
    requires IsSuperset(dep, basedep)
    requires ClashFree(TransCompare(dep)) && ClashFree(TransCompare(basedep))
    ensures RoundedOpt(dep, v) <= RoundedOpt(basedep, v)
  {
    SupersetSound(Prepare(dep), Prepare(basedep), v);
    PrepareRounds(dep, v);
    PrepareRounds(basedep, v);
  }

  /** With plain negations it is sound outright: the entry is visible only when the symbol's own prompt is. */
  lemma SubmenuSound(dep: Option<Expr>, basedep: Option<Expr>, v: Valuation)
    requires IsSuperset(dep, basedep)
    requires dep.Some? ==> PlainNots(dep.value)
    requires basedep.Some? ==> PlainNots(basedep.value)
    requires ClashFree(TransCompare(dep)) && ClashFree(TransCompare(basedep))
    ensures EvalOpt(dep, v) != 0 ==> EvalOpt(basedep, v) != 0
  {
    SubmenuSoundRounded(dep, basedep, v);
    if dep.Some? {
      PlainNotsSharp(dep.value, v);
      RoundedSharp(dep.value, v);
    }
    if basedep.Some? {
      PlainNotsSharp(basedep.value, v);
      RoundedSharp(basedep.value, v);
    }
  }

  lemma {:induction false} SpendFolds(t: Op, e: Expr)
    ensures EliminateYN(Spend(t, e)) ==
            if t.And? then (if HasOperand(t, e, Sym(No)) then Sym(No) else Sym(Yes))
            else if HasOperand(t, e, Sym(Yes)) then Sym(Yes) else Sym(No)
  {
    if IsType(t, e) {
      SpendFolds(t, e.l);
      SpendFolds(t, e.r);
    }
  }

  /** The test is not complete.  A dependency equal to the base dependency passes exactly when it is y,
      or an && without n, or an || that contains y: an entry with the same single dependency, or the
      same ||, is not recognised. */
  lemma SubmenuOfEqualDependency(dep: Option<Expr>)
    ensures IsSuperset(dep, dep) <==>
            var e := Prepare(dep);
            || e == Sym(Yes)
            || (IsType(And, e) && !HasOperand(And, e, Sym(No)))
            || (IsType(Or, e) && HasOperand(Or, e, Sym(Yes)))
  {
    var e := Prepare(dep);
    if e.Bin? {
      MeetsItsCopy(e.op, e, e, []);
      SpendFolds(e.op, e);
      assert IsType(e.op, Spend(e.op, e));
      assert EliminateEqRaw(e, e) == (Spend(e.op, e), Spend(e.op, e));
    } else {
      assert EliminateEqRaw(e, e) == (e, e);
    }
  }

  /** So a dependency that is a single bool or tristate symbol does not pass against itself. */
  lemma SubmenuOfSameSymbol(a: Symbol)
    requires IsTri(a)
    ensures !IsSuperset(Some(Sym(a)), Some(Sym(a)))
  {
    SubmenuOfEqualDependency(Some(Sym(a)));
    var e := Cmp(Unequal, a, No);
    assert TransCompare(Some(Sym(a))) == e;
    var f := Transform(e);
    assert f == (if a.ty.Boolean? then Sym(a) else e);
    PlainDups(f);
  }

  /* ---- the failing case ---- */

  lemma Comparison(x: Expr)
    requires x.Cmp? && !BoolTest(x)
    ensures Transform(x) == x && Transform(Not(x)) == Cmp(Negate(x.rel), x.a, x.b)
  {
  }

  // De Morgan over operands that become comparisons.
  lemma DeMorgan(x: Expr, y: Expr)
    requires var z := Transform(x); z.Cmp? && !BoolTest(z)
    requires var z := Transform(y); z.Cmp? && !BoolTest(z)
    ensures Transform(Not(Bin(Or, x, y))) == Bin(And, Transform(Not(Transform(x))), Transform(Not(Transform(y))))
  {
    assert Transform(Bin(Or, x, y)) == Bin(Or, Transform(x), Transform(y));
    WeightPositive(Bin(Or, x, y));
    var p := PushNot(Or, Transform(x), Transform(y));
    assert Transform(p) == Bin(And, Transform(Not(Transform(x))), Transform(Not(Transform(y))));
  }

  lemma PreparedAlike(a: Symbol, b: Symbol)
    requires a.Var? && a.ty.Tristate? && b.Var? && b.ty.Tristate? && a != b
    ensures var dep, base := Some(Bin(And, Not(Sym(a)), Sym(b))), Some(Bin(And, Cmp(Equal, a, No), Sym(b)));
            Prepare(dep) == Prepare(base) == Bin(And, Cmp(Equal, a, No), Cmp(Unequal, b, No))
  {
    var dep, base := Some(Bin(And, Not(Sym(a)), Sym(b))), Some(Bin(And, Cmp(Equal, a, No), Sym(b)));
    var x, x', n := Cmp(Equal, a, No), Cmp(Unequal, a, No), Cmp(Equal, b, No);
    assert CompareNo(Sym(b), true) == n;
    assert CompareNo(Not(Sym(a)), true) == x';
    assert x.Cmp?;
    assert CompareNo(x, true) == Not(x);
    assert TransCompare(dep) == Not(Bin(Or, x', n));
    assert TransCompare(base) == Not(Bin(Or, Not(x), n));
    Comparison(x);
    Comparison(x');
    Comparison(n);
    DeMorgan(x', n);
    DeMorgan(Not(x), n);
    PairDups(And, x, Cmp(Unequal, b, No));
  }

  // a is m and every other symbol y.
  function ModAt(a: Symbol): Valuation {
    Valuation((s: Symbol) => if s == a then 1 else 2, (x: Symbol, i: Tri, y: Symbol, j: Tri) => 0)
  }

  /** Without plain negations it is not: !a && b passes the test against a=n && b, and with a at m and b at y the
      entry is worth m while the symbol's prompt is hidden. */
  lemma SubmenuUnsound(a: Symbol, b: Symbol)
    requires a.Var? && a.ty.Tristate? && b.Var? && b.ty.Tristate? && a != b
    ensures var dep, base := Some(Bin(And, Not(Sym(a)), Sym(b))), Some(Bin(And, Cmp(Equal, a, No), Sym(b)));
            IsSuperset(dep, base) && EvalOpt(dep, ModAt(a)) == 1 && EvalOpt(base, ModAt(a)) == 0
  {
    PreparedAlike(a, b);
    SubmenuOfEqualDependency(Some(Bin(And, Not(Sym(a)), Sym(b))));
    var v := ModAt(a);
    assert Eval(Cmp(Equal, a, No), v) == 0 && Eval(Sym(b), v) == 2 && Eval(Not(Sym(a)), v) == 1;
  }
}
