/**
 Why the automatic submenu test (nemu/tools/kconfig/menu.c:456-490) needs plain negations: whatever can be m, its
 negation stands in a dependency that passes the test and should not.
 */
module KconfigSubmenu {
  import opened Common
  import opened KconfigExpr
  import opened KconfigEq
  import opened KconfigSymbol
  import opened KconfigDups
  import opened KconfigTransform
  import opened KconfigMenu

  /* ---- negation and expr_transform ---- */

  function Dual(op: Op): Op { if op.And? then Or else And }

  // What a negation becomes depends only on what its operand becomes.
  lemma SameNot(x: Expr, y: Expr)
    requires Transform(x) == Transform(y)
    ensures Transform(Not(x)) == Transform(Not(y))
  {
    WeightPositive(x);
    WeightPositive(y);
  }

  lemma NotNormal(op: Op, l: Expr, r: Expr)
    requires Transform(l) == l && Transform(r) == r
    ensures Transform(Not(Bin(op, l, r))) == Bin(Dual(op), Transform(Not(l)), Transform(Not(r)))
  {
    assert Transform(Bin(op, l, r)) == Bin(op, l, r);
    WeightPositive(Bin(op, l, r));
    assert Transform(Not(Bin(op, l, r))) == Transform(PushNot(op, l, r));
  }

  lemma NotBin(op: Op, l: Expr, r: Expr)
    ensures Transform(Not(Bin(op, l, r))) == Bin(Dual(op), Transform(Not(l)), Transform(Not(r)))
  {
    var l', r' := Transform(l), Transform(r);
    TransformIdempotent(l);
    TransformIdempotent(r);
    assert Transform(Bin(op, l, r)) == Bin(op, l', r') == Transform(Bin(op, l', r'));
    hide Transform;
    SameNot(Bin(op, l, r), Bin(op, l', r'));
    NotNormal(op, l', r');
    SameNot(l, l');
    SameNot(r, r');
  }

  lemma {:induction false} FlipTwice(y: Expr)
    requires Normal(y)
    ensures Transform(Not(Transform(Not(y)))) == y
  {
    match y {
      case Sym(s) =>
        assert Transform(y) == y;
      case Cmp(_, _, _) =>
        assert Transform(y) == y;
      case Not(x) =>
        assert Transform(x) == x && Transform(y) == y && Transform(Not(y)) == x;
      case Bin(op, l, r) =>
        FlipTwice(l);
        FlipTwice(r);
        NotBin(op, l, r);
        NotBin(Dual(op), Transform(Not(l)), Transform(Not(r)));
    }
  }

  lemma NotNot(x: Expr)
    ensures Transform(Not(Not(x))) == Transform(x)
  {
    var y := Transform(x);
    TransformNormal(x);
    TransformIdempotent(x);
    TransformIdempotent(Not(x));
    hide Transform;
    SameNot(x, y);
    SameNot(Not(x), Transform(Not(x)));
    FlipTwice(y);
  }

  /* ---- comparing what has been compared ---- */

  /** Whether e is not n is the negation of whether it is. */
  lemma {:induction false} CompareFlips(x: Expr)
    ensures Transform(CompareNo(x, false)) == Transform(Not(CompareNo(x, true)))
  {
    match x {
      case Sym(s) =>
        var y := Cmp(Equal, s, No);
        assert Transform(Not(y)) == Transform(Cmp(Unequal, s, No));
      case Cmp(_, _, _) => NotNot(x);
      case Not(z) =>
        CompareFlips(z);
        hide Transform;
        SameNot(CompareNo(z, false), Not(CompareNo(z, true)));
        NotNot(CompareNo(z, true));
      case Bin(_, _, _) =>
    }
  }

  // No symbol is used on its own.
  predicate Comparisons(e: Expr) {
    match e
    case Sym(_) => false
    case Cmp(_, _, _) => true
    case Not(x) => Comparisons(x)
    case Bin(_, l, r) => Comparisons(l) && Comparisons(r)
  }

  lemma {:induction false} CompareNoCompares(e: Expr, eq: bool)
    ensures Comparisons(CompareNo(e, eq))
  {
    match e {
      case Not(x) => CompareNoCompares(x, !eq);
      case Bin(_, l, r) =>
        CompareNoCompares(l, true);
        CompareNoCompares(r, true);
      case _ =>
    }
  }

  /** Comparisons compared with n once more come to themselves or to their negation. */
  lemma {:induction false} ComparedAgain(e: Expr)
    requires Comparisons(e)
    ensures Transform(CompareNo(e, true)) == Transform(Not(e))
    ensures Transform(CompareNo(e, false)) == Transform(e)
  {
    match e {
      case Cmp(_, _, _) =>
      case Not(x) =>
        ComparedAgain(x);
        NotNot(x);
      case Bin(op, l, r) =>
        ComparedAgain(l);
        ComparedAgain(r);
        ComparedLevel(op, l, r);
    }
  }

  lemma ComparedLevel(op: Op, l: Expr, r: Expr)
    requires Transform(CompareNo(l, true)) == Transform(Not(l))
    requires Transform(CompareNo(r, true)) == Transform(Not(r))
    ensures Transform(CompareNo(Bin(op, l, r), true)) == Transform(Not(Bin(op, l, r)))
    ensures Transform(CompareNo(Bin(op, l, r), false)) == Transform(Bin(op, l, r))
  {
    var l', r' := CompareNo(l, true), CompareNo(r, true);
    assert Transform(Bin(Dual(op), l', r')) == Bin(Dual(op), Transform(l'), Transform(r'));
    assert Transform(Bin(op, l, r)) == Bin(op, Transform(l), Transform(r));
    assert CompareNo(Bin(op, l, r), true) == Bin(Dual(op), l', r');
    hide Transform;
    NotBin(op, l, r);
    NotBin(Dual(op), l', r');
    SameNot(l', Not(l));
    SameNot(r', Not(r));
    NotNot(l);
    NotNot(r);
  }

  /* ---- an operand no other operand has to do with ---- */

  predicate Free(b: Symbol, e: Expr) { b !in Symbols(e) }

  lemma {:induction false} TransformFree(b: Symbol, e: Expr)
    requires b.Var? && Free(b, e)
    ensures Free(b, Transform(e))
    decreases Weight(e)
  {
    match e {
      case Bin(_, l, r) =>
        TransformFree(b, l);
        TransformFree(b, r);
      case Not(x) =>
        WeightPositive(x);
        TransformFree(b, x);
        match Transform(x) {
          case Not(z) =>
            WeightPositive(z);
            TransformFree(b, z);
          case Bin(op, l, r) => TransformFree(b, PushNot(op, l, r));
          case _ =>
        }
      case _ =>
    }
  }

  lemma {:induction false} CompareNoFree(b: Symbol, e: Expr, eq: bool)
    requires b.Var? && Free(b, e)
    ensures Free(b, CompareNo(e, eq))
  {
    match e {
      case Not(x) => CompareNoFree(b, x, !eq);
      case Bin(_, l, r) =>
        CompareNoFree(b, l, true);
        CompareNoFree(b, r, true);
      case _ =>
    }
  }

  lemma JoinFree(t: Op, e1: Expr, e2: Expr, b: Symbol)
    requires b.Var? && Join(t, e1, e2).Some? && Free(b, e1) && Free(b, e2)
    ensures Free(b, Join(t, e1, e2).value)
  {
    hide ExprEq;
  }

  lemma {:induction false} SlotFree(t: Op, e: Expr, p: Path, x: Expr, b: Symbol)
    requires Within(ShapeOf(t, e), p) && Free(b, e)
    ensures Free(b, At(t, e, p)) && (Free(b, x) ==> Free(b, Put(t, e, p, x)))
    decreases |p|
  {
    if p != [] {
      SlotFree(t, if p[0] then e.r else e.l, p[1..], x, b);
    }
  }

  lemma {:induction false} Dups1Free(t: Op, e: Expr, p1: Path, p2: Path, b: Symbol)
    requires b.Var? && Within(ShapeOf(t, e), p1) && Within(ShapeOf(t, e), p2) && Free(b, e)
    ensures Free(b, Dups1(t, e, p1, p2).0)
    decreases LevelAlternation(t, e), Forks(ShapeAt(ShapeOf(t, e), p1)) + Forks(ShapeAt(ShapeOf(t, e), p2)), 1
  {
    hide Free;
    if ShapeAt(ShapeOf(t, e), p1).Fork? {
      WithinExtend(ShapeOf(t, e), p1, false);
      WithinExtend(ShapeOf(t, e), p1, true);
      Dups1Free(t, e, p1 + [false], p2, b);
      Dups1Free(t, Dups1(t, e, p1 + [false], p2).0, p1 + [true], p2, b);
    } else if ShapeAt(ShapeOf(t, e), p2).Fork? {
      WithinExtend(ShapeOf(t, e), p2, false);
      WithinExtend(ShapeOf(t, e), p2, true);
      Dups1Free(t, e, p1, p2 + [false], b);
      Dups1Free(t, Dups1(t, e, p1, p2 + [false]).0, p1, p2 + [true], b);
    } else if p1 != p2 {
      InsideFree(t, e, p1, b);
      JoinSlotsFree(t, DupsInside(t, e, p1).0, p1, p2, b);
    }
  }

  lemma {:induction false} InsideFree(t: Op, e: Expr, p: Path, b: Symbol)
    requires b.Var? && OperandSlot(t, e, p) && Free(b, e)
    ensures Free(b, DupsInside(t, e, p).0)
    decreases LevelAlternation(t, e), 0, 0
  {
    var x := At(t, e, p);
    if x.Bin? {
      AtAlternation(t, e, p);
      var y := Dups1(x.op, x, [], []);
      SlotFree(t, e, p, y.0, b);
      Dups1Free(x.op, x, [], [], b);
    }
  }

  lemma JoinSlotsFree(t: Op, e: Expr, p1: Path, p2: Path, b: Symbol)
    requires b.Var? && OperandSlot(t, e, p1) && OperandSlot(t, e, p2) && p1 != p2 && Free(b, e)
    ensures Free(b, JoinSlots(t, e, p1, p2).0)
  {
    var x1, x2 := At(t, e, p1), At(t, e, p2);
    var j := Join(t, x1, x2);
    SlotFree(t, e, p1, Unit(t), b);
    SlotFree(t, e, p2, Unit(t), b);
    if j.Some? {
      JoinFree(t, x1, x2, b);
      PutElsewhere(t, e, p1, p2, Unit(t));
      SlotFree(t, Put(t, e, p1, Unit(t)), p2, j.value, b);
    }
  }

  /** The last operand of the level is w, and nothing else has to do with the symbol w tests. */
  predicate Lone(t: Op, e: Expr, w: Expr)
    requires w.Cmp?
  {
    IsType(t, e) && e.r == w && Free(w.a, e.l)
  }

  predicate Tests(w: Expr) { w.Cmp? && w.rel.Unequal? && w.a.Var? && w.b.No? }

  lemma LoneNeverJoins(t: Op, w: Expr, y: Expr)
    requires Tests(w) && Free(w.a, y)
    ensures Join(t, w, y).None? && Join(t, y, w).None?
  {
  }

  lemma LoneSlot(t: Op, e: Expr, p: Path, w: Expr)
    requires Tests(w) && Lone(t, e, w) && OperandSlot(t, e, p)
    ensures p != [] && if p[0] then At(t, e, p) == w else Free(w.a, At(t, e, p))
  {
    assert ShapeOf(t, w) == Tip;
    if p[0] {
      assert Within(Tip, p[1..]);
      assert At(t, e, p) == At(t, w, p[1..]);
    } else {
      SlotFree(t, e.l, p[1..], w, w.a);
    }
  }

  lemma OnlySlot(t: Op, e: Expr, p: Path, w: Expr)
    requires Tests(w) && Lone(t, e, w) && OperandSlot(t, e, p) && p != [] && p[0]
    ensures p == [true]
  {
    assert ShapeOf(t, w) == Tip && Within(Tip, p[1..]);
    assert p == [true] + p[1..];
  }

  lemma LonePut(t: Op, e: Expr, p: Path, x: Expr, w: Expr)
    requires Tests(w) && Lone(t, e, w) && OperandSlot(t, e, p) && p != [] && !p[0] && Free(w.a, x)
    ensures Lone(t, Put(t, e, p, x), w)
  {
    SlotFree(t, e.l, p[1..], x, w.a);
  }

  lemma LoneInside(t: Op, e: Expr, p: Path, w: Expr)
    requires Tests(w) && Lone(t, e, w) && OperandSlot(t, e, p)
    ensures Lone(t, DupsInside(t, e, p).0, w)
  {
    LoneSlot(t, e, p, w);
    var x := At(t, e, p);
    if x.Bin? {
      Dups1Free(x.op, x, [], [], w.a);
      LonePut(t, e, p, Dups1(x.op, x, [], []).0, w);
    }
  }

  lemma LoneJoin(t: Op, e: Expr, p1: Path, p2: Path, w: Expr)
    requires Tests(w) && Lone(t, e, w) && OperandSlot(t, e, p1) && OperandSlot(t, e, p2) && p1 != p2
    ensures Lone(t, JoinSlots(t, e, p1, p2).0, w)
  {
    hide Join, Lone, Free;
    LoneSlot(t, e, p1, w);
    LoneSlot(t, e, p2, w);
    var x1, x2 := At(t, e, p1), At(t, e, p2);
    if p1[0] {
      OnlySlot(t, e, p1, w);
      if p2[0] {
        OnlySlot(t, e, p2, w);
      }
      LoneNeverJoins(t, w, x2);
    } else if p2[0] {
      LoneNeverJoins(t, w, x1);
    } else if Join(t, x1, x2).Some? {
      JoinFree(t, x1, x2, w.a);
      UnitFree(t, w.a);
      LonePut(t, e, p1, Unit(t), w);
      PutElsewhere(t, e, p1, p2, Unit(t));
      LonePut(t, Put(t, e, p1, Unit(t)), p2, Join(t, x1, x2).value, w);
    }
  }

  lemma UnitFree(t: Op, b: Symbol)
    requires b.Var?
    ensures Free(b, Unit(t))
  {
  }

  /** A pass leaves a lone operand where it is. */
  lemma {:induction false} LonePass(t: Op, e: Expr, p1: Path, p2: Path, w: Expr)
    requires Tests(w) && Lone(t, e, w) && Within(ShapeOf(t, e), p1) && Within(ShapeOf(t, e), p2)
    ensures Lone(t, Dups1(t, e, p1, p2).0, w)
    decreases Forks(ShapeAt(ShapeOf(t, e), p1)) + Forks(ShapeAt(ShapeOf(t, e), p2))
  {
    hide Lone, Tests;
    if ShapeAt(ShapeOf(t, e), p1).Fork? {
      WithinExtend(ShapeOf(t, e), p1, false);
      WithinExtend(ShapeOf(t, e), p1, true);
      LonePass(t, e, p1 + [false], p2, w);
      LonePass(t, Dups1(t, e, p1 + [false], p2).0, p1 + [true], p2, w);
    } else if ShapeAt(ShapeOf(t, e), p2).Fork? {
      WithinExtend(ShapeOf(t, e), p2, false);
      WithinExtend(ShapeOf(t, e), p2, true);
      LonePass(t, e, p1, p2 + [false], w);
      LonePass(t, Dups1(t, e, p1, p2 + [false]).0, p1, p2 + [true], w);
    } else if p1 != p2 {
      LoneInside(t, e, p1, w);
      LoneJoin(t, DupsInside(t, e, p1).0, p1, p2, w);
    }
  }

  lemma {:induction false} FoldFree(b: Symbol, e: Expr)
    requires b.Var? && Free(b, e)
    ensures Free(b, EliminateYN(e))
  {
    if e.Bin? {
      FoldFree(b, e.l);
      FoldFree(b, e.r);
    }
  }

  lemma {:induction false} OperandShows(t: Op, e: Expr, c: Expr)
    requires HasOperand(t, e, c) && IsYN(c)
    ensures HasYN(e)
  {
    if IsType(t, e) {
      OperandShows(t, if HasOperand(t, e.l, c) then e.l else e.r, c);
    }
  }

  // An && with w at its end and without n, or nothing but w, or n.
  predicate Ends(e: Expr, w: Expr)
    requires w.Cmp?
  {
    e == w || e == Sym(No) || (Lone(And, e, w) && !HasOperand(And, e, Sym(No)))
  }

  lemma {:induction false} LoneDups(e: Expr, w: Expr)
    requires Tests(w) && Lone(And, e, w) && !HasOperand(And, e, Sym(No))
    ensures Ends(EliminateDups(e), w)
    decreases LeafCount(e)
  {
    var r := DupsPass(e);
    LonePass(And, e, [], [], w);
    if r.1 == 0 {
      DupsPassCorrect(e, Uniform(0));
    } else {
      PassShrinks(e);
      var f := EliminateYN(r.0);
      FoldFree(w.a, r.0.l);
      EliminateYNCorrect(r.0, Uniform(0));
      assert EliminateYN(w) == w;
      if f.Bin? && f != w {
        if HasOperand(And, f, Sym(No)) {
          OperandShows(And, f, Sym(No));
        }
        LoneDups(f, w);
      }
    }
  }

  /* ---- the pair that fails ---- */

  // (!x || c) && b, which hangs on !x while c is n, and the same with x=n in its place
  function Hanging(x: Expr, b: Symbol, c: Symbol): Expr { Bin(And, Bin(Or, Not(x), Sym(c)), Sym(b)) }

  function Standing(x: Expr, b: Symbol, c: Symbol): Expr {
    Bin(And, Bin(Or, CompareNo(x, true), Sym(c)), Sym(b))
  }

  lemma ComparedPair(y: Expr, b: Symbol, c: Symbol)
    ensures TransCompare(Some(Bin(And, Bin(Or, y, Sym(c)), Sym(b)))) ==
            Not(Bin(Or, Bin(And, CompareNo(y, true), Cmp(Equal, c, No)), Cmp(Equal, b, No)))
  {
    assert CompareNo(Sym(c), true) == Cmp(Equal, c, No) && CompareNo(Sym(b), true) == Cmp(Equal, b, No);
    var l := Bin(Or, y, Sym(c));
    assert CompareNo(l, true) == Bin(And, CompareNo(y, true), Cmp(Equal, c, No));
    assert CompareNo(Bin(And, l, Sym(b)), false) == Not(Bin(Or, CompareNo(l, true), CompareNo(Sym(b), true)));
  }

  lemma TransformedPair(p: Expr, b: Symbol, c: Symbol)
    requires b.Var? && b.ty.Tristate?
    ensures var q := Bin(And, p, Cmp(Equal, c, No));
            Transform(Not(Bin(Or, q, Cmp(Equal, b, No)))) ==
            Bin(And, Bin(Or, Transform(Not(p)), Transform(Not(Cmp(Equal, c, No)))), Cmp(Unequal, b, No))
  {
    var q, n := Bin(And, p, Cmp(Equal, c, No)), Cmp(Equal, b, No);
    Comparison(n);
    hide Transform;
    NotBin(Or, q, n);
    NotBin(And, p, Cmp(Equal, c, No));
  }

  /** The two come out of preparation alike. */
  lemma PreparedSame(x: Expr, b: Symbol, c: Symbol)
    requires b.Var? && b.ty.Tristate?
    ensures var e := Transform(TransCompare(Some(Hanging(x, b, c))));
            && e == Transform(TransCompare(Some(Standing(x, b, c))))
            && IsType(And, e) && IsType(Or, e.l) && e.r == Cmp(Unequal, b, No)
            && e.l == Bin(Or, Transform(Not(CompareNo(Not(x), true))), Transform(Not(Cmp(Equal, c, No))))
  {
    var p, q := CompareNo(Not(x), true), CompareNo(CompareNo(x, true), true);
    assert p == CompareNo(x, false);
    hide Transform;
    ComparedPair(Not(x), b, c);
    ComparedPair(CompareNo(x, true), b, c);
    TransformedPair(p, b, c);
    TransformedPair(q, b, c);
    CompareFlips(x);
    CompareNoCompares(x, true);
    ComparedAgain(CompareNo(x, true));
    SameNot(p, q);
  }

  lemma PairIsLone(x: Expr, b: Symbol, c: Symbol)
    requires b.Var? && b.ty.Tristate? && Free(b, x) && b != c
    ensures var e := Transform(TransCompare(Some(Hanging(x, b, c)))); var w := Cmp(Unequal, b, No);
            Tests(w) && Lone(And, e, w) && !HasOperand(And, e, Sym(No))
  {
    PreparedSame(x, b, c);
    var p, n := Not(CompareNo(Not(x), true)), Not(Cmp(Equal, c, No));
    CompareNoFree(b, Not(x), true);
    TransformFree(b, p);
    TransformFree(b, n);
  }

  lemma PairValues(x: Expr, b: Symbol, c: Symbol, v: Valuation)
    requires TriSymbols(x) && SharpNots(x, v) && Eval(x, v) == 1
    requires b.Var? && b.ty.Tristate? && c.Var? && c.ty.Tristate? && TriOf(b, v) == 2 && TriOf(c, v) == 0
    ensures Rounded(Hanging(x, b, c), v) == 0 && Eval(Hanging(x, b, c), v) == 1 && Eval(Standing(x, b, c), v) == 0
  {
    RoundedSharp(x, v);
    CompareNoRounds(x, true, v);
    assert Rounded(Not(x), v) == 0 && Rounded(Sym(c), v) == 0;
    assert Rounded(Bin(Or, Not(x), Sym(c)), v) == 0;
    assert Eval(Bin(Or, Not(x), Sym(c)), v) == 1;
    assert Eval(Bin(Or, CompareNo(x, true), Sym(c)), v) == 0;
  }

  lemma PairAtYes(x: Expr, b: Symbol, c: Symbol)
    requires b.Var? && b.ty.Tristate? && c.Var? && c.ty.Tristate?
    ensures Rounded(Hanging(x, b, c), Uniform(2)) == 2
  {
    assert Rounded(Sym(c), Uniform(2)) == 2 == Rounded(Sym(b), Uniform(2));
    assert Rounded(Bin(Or, Not(x), Sym(c)), Uniform(2)) == 2;
  }

  /** Whatever is m at some valuation, its negation makes the test go wrong there: (!x || c) && b passes against
      (x=n || c) && b, and with b at y and c at n the entry is worth m while the symbol's prompt is hidden. */
  lemma PlainNotsNeeded(x: Expr, b: Symbol, c: Symbol, v: Valuation)
    requires TriSymbols(x) && SharpNots(x, v) && Eval(x, v) == 1
    requires b.Var? && b.ty.Tristate? && Free(b, x) && c.Var? && c.ty.Tristate? && b != c
    requires TriOf(b, v) == 2 && TriOf(c, v) == 0
    requires ClashFree(TransCompare(Some(Hanging(x, b, c))))
    ensures var dep, base := Some(Hanging(x, b, c)), Some(Standing(x, b, c));
            IsSuperset(dep, base) && EvalOpt(dep, v) == 1 && EvalOpt(base, v) == 0
  {
    var dep, base := Some(Hanging(x, b, c)), Some(Standing(x, b, c));
    PairValues(x, b, c, v);
    PairAtYes(x, b, c);
    PreparedSame(x, b, c);
    PairIsLone(x, b, c);
    var w := Cmp(Unequal, b, No);
    LoneDups(Transform(TransCompare(dep)), w);
    PrepareRounds(dep, v);
    PrepareRounds(dep, Uniform(2));
    assert Eval(w, v) == 2;
    SubmenuOfEqualDependency(dep);
  }
}
