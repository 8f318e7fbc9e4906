/**
 Where joining operands goes wrong (nemu/tools/kconfig/expr.c:540-553): a='b' && a!='c' becomes a='b' because
 b and c are different symbols, although they may be two spellings of one value, such as 'y' and "2".
 */
module KconfigClash {
  import opened Common
  import opened KconfigExpr
  import opened KconfigEq
  import opened KconfigDups

  /* ---- one pass over two operands ---- */

  /** What a pass makes of x and y: it tidies x and joins it with y, then tidies the right slot and joins that
      with the left one. */
  function PairPass(t: Op, x: Expr, y: Expr): (Expr, nat) {
    var a := DupsPass(x);
    var j := Join(t, a.0, y);
    var l, r, n := if j.None? then a.0 else Unit(t), if j.None? then y else j.value, if j.None? then 0 else 1;
    var b := DupsPass(r);
    var k := Join(t, b.0, l);
    if k.None? then (Bin(t, l, b.0), a.1 + n + b.1)
    else (Bin(t, k.value, Unit(t)), a.1 + n + b.1 + 1)
  }

  lemma PairSlots(t: Op, x: Expr, y: Expr)
    requires !IsType(t, x) && !IsType(t, y)
    ensures var e := Bin(t, x, y);
            && ShapeOf(t, e) == Fork(Tip, Tip)
            && Within(ShapeOf(t, e), [false]) && Within(ShapeOf(t, e), [true])
            && ShapeAt(ShapeOf(t, e), [false]) == Tip && ShapeAt(ShapeOf(t, e), [true]) == Tip
            && At(t, e, [false]) == x && At(t, e, [true]) == y
            && (forall z :: Put(t, e, [false], z) == Bin(t, z, y) && Put(t, e, [true], z) == Bin(t, x, z))
  {
  }

  lemma PassKeepsTop(t: Op, x: Expr)
    requires !IsType(t, x)
    ensures !IsType(t, DupsPass(x).0)
  {
    if x.Bin? {
      assert ShapeOf(x.op, DupsPass(x).0) == ShapeOf(x.op, x);
    }
  }

  // Tidying one of two operands, and joining it with the other.
  lemma PairInside(t: Op, x: Expr, y: Expr)
    requires !IsType(t, x) && !IsType(t, y)
    ensures var e := Bin(t, x, y);
            && DupsInside(t, e, [false]) == (Bin(t, DupsPass(x).0, y), DupsPass(x).1)
            && DupsInside(t, e, [true]) == (Bin(t, x, DupsPass(y).0), DupsPass(y).1)
  {
    PairSlots(t, x, y);
  }

  lemma PairJoin(t: Op, x: Expr, y: Expr)
    requires !IsType(t, x) && !IsType(t, y)
    ensures var e := Bin(t, x, y);
            && JoinSlots(t, e, [false], [true]) ==
               (if Join(t, x, y).None? then (e, 0) else (Bin(t, Unit(t), Join(t, x, y).value), 1))
            && JoinSlots(t, e, [true], [false]) ==
               (if Join(t, y, x).None? then (e, 0) else (Bin(t, Join(t, y, x).value, Unit(t)), 1))
  {
    PairSlots(t, x, y);
    PairSlots(t, Unit(t), y);
    PairSlots(t, x, Unit(t));
    hide Join;
  }

  lemma PassLeft(t: Op, x: Expr, y: Expr)
    requires !IsType(t, x) && !IsType(t, y)
    ensures var e := Bin(t, x, y);
            var a := DupsPass(x); var j := Join(t, a.0, y);
            Dups1(t, e, [false], []) ==
            (if j.None? then (Bin(t, a.0, y), a.1) else (Bin(t, Unit(t), j.value), a.1 + 1))
  {
    hide DupsInside, JoinSlots, DupsPass, Join;
    var e := Bin(t, x, y);
    PairSlots(t, x, y);
    PassKeepsTop(t, x);
    PairInside(t, x, y);
    PairJoin(t, DupsPass(x).0, y);
    assert [] + [false] == [false] && [] + [true] == [true];
    assert Dups1(t, e, [false], [false]) == (e, 0);
  }

  lemma PassRight(t: Op, x: Expr, y: Expr)
    requires !IsType(t, x) && !IsType(t, y)
    ensures var e := Bin(t, x, y);
            var b := DupsPass(y); var j := Join(t, b.0, x);
            Dups1(t, e, [true], []) ==
            (if j.None? then (Bin(t, x, b.0), b.1) else (Bin(t, j.value, Unit(t)), b.1 + 1))
  {
    hide DupsInside, JoinSlots, DupsPass, Join;
    var e := Bin(t, x, y);
    PairSlots(t, x, y);
    PassKeepsTop(t, y);
    PairInside(t, x, y);
    PairJoin(t, x, DupsPass(y).0);
    assert [] + [false] == [false] && [] + [true] == [true];
    var f := Dups1(t, e, [true], [false]);
    assert Dups1(t, f.0, [true], [true]) == (f.0, 0);
  }

  lemma WholePass(t: Op, x: Expr, y: Expr)
    requires !IsType(t, x) && !IsType(t, y)
    ensures var e := Bin(t, x, y);
            var f := Dups1(t, e, [false], []);
            DupsPass(e) == (Dups1(t, f.0, [true], []).0, f.1 + Dups1(t, f.0, [true], []).1)
  {
    PairSlots(t, x, y);
    hide JoinSlots, DupsInside;
    assert [] + [false] == [false] && [] + [true] == [true];
  }

  lemma PairPassIs(t: Op, x: Expr, y: Expr)
    requires !IsType(t, x) && !IsType(t, y)
    ensures DupsPass(Bin(t, x, y)) == PairPass(t, x, y)
  {
    hide Join, DupsPass, Dups1;
    var a := DupsPass(x);
    var j := Join(t, a.0, y);
    PassKeepsTop(t, x);
    WholePass(t, x, y);
    PassLeft(t, x, y);
    if j.Some? {
      JoinShape(t, a.0, y);
      PassRight(t, Unit(t), j.value);
    } else {
      PassRight(t, a.0, y);
    }
  }

  /* ---- two plain operands ---- */

  // What is not an && or || comes back as it is.
  lemma PlainDups(x: Expr)
    requires !x.Bin?
    ensures DupsPass(x) == (x, 0) && EliminateDups(x) == x
  {
  }

  lemma FoldUnit(t: Op, z: Expr)
    requires !z.Bin?
    ensures EliminateYN(Bin(t, Unit(t), z)) == z && EliminateYN(Bin(t, z, Unit(t))) == z
  {
  }

  /** Two operands that join become one, and the pass that follows changes nothing more. */
  lemma PairDups(t: Op, x: Expr, y: Expr)
    requires !x.Bin? && !y.Bin?
    ensures EliminateDups(Bin(t, x, y)) ==
            if Join(t, x, y).Some? then Join(t, x, y).value
            else if Join(t, y, x).Some? then Join(t, y, x).value
            else Bin(t, x, y)
  {
    PairPassIs(t, x, y);
    PlainDups(x);
    PlainDups(y);
    var j, k := Join(t, x, y), Join(t, y, x);
    if j.Some? {
      JoinShape(t, x, y);
      PlainDups(j.value);
      FoldUnit(t, j.value);
      if Join(t, j.value, Unit(t)).Some? {
        JoinShape(t, j.value, Unit(t));
      }
    } else if k.Some? {
      JoinShape(t, y, x);
      PlainDups(k.value);
      FoldUnit(t, k.value);
    }
  }

  /** For two plain operands expr_eliminate_dups keeps the value exactly when they do not clash. */
  lemma PairExact(t: Op, x: Expr, y: Expr)
    requires !x.Bin? && !y.Bin?
    ensures Equivalent(EliminateDups(Bin(t, x, y)), Bin(t, x, y)) <==> !(t.And? && Clashing(x, y))
  {
    PairDups(t, x, y);
    if t.And? && Clashing(x, y) {
      JoinAndExact(x, y);
    } else {
      forall v: Valuation ensures Eval(EliminateDups(Bin(t, x, y)), v) == Eval(Bin(t, x, y), v) {
        if Join(t, x, y).Some? {
          JoinKept(t, x, y, v);
        } else if Join(t, y, x).Some? {
          JoinKept(t, y, x, v);
        }
      }
    }
  }

  lemma JoinKept(t: Op, x: Expr, y: Expr, v: Valuation)
    requires Join(t, x, y).Some? && !(t.And? && Clashing(x, y))
    ensures Eval(Join(t, x, y).value, v) == Apply(t, Eval(x, v), Eval(y, v))
  {
    if t.Or? {
      JoinOrCorrect(x, y, v);
    } else {
      JoinAndCorrect(x, y, v);
    }
  }

  /* ---- tests that joining brings in ---- */

  // An || next to a comparison is tidied on its own first.
  lemma TidyInside(x: Expr, w: Expr)
    requires IsType(Or, x) && w.Cmp? && DupsPass(x).1 != 0
    requires var z := EliminateYN(DupsPass(x).0); !IsYN(z)
    ensures EliminateDups(Bin(And, x, w)) == EliminateDups(Bin(And, EliminateYN(DupsPass(x).0), w))
  {
    var e := Bin(And, x, w);
    PairPassIs(And, x, w);
    PassKeepsTop(And, x);
    PlainDups(w);
    assert ShapeOf(Or, DupsPass(x).0) == ShapeOf(Or, x);
    var x' := DupsPass(x).0;
    assert JoinAnd(x', w).None? && JoinAnd(w, x').None?;
    assert DupsPass(e) == (Bin(And, x', w), DupsPass(x).1);
    assert EliminateYN(Bin(And, x', w)) == Bin(And, EliminateYN(x'), w);
  }

  // One pass over two operands that join into a comparison.
  lemma PairOnce(t: Op, x: Expr, y: Expr, z: Expr)
    requires !x.Bin? && !y.Bin? && z.Cmp? && Join(t, x, y) == Some(z)
    ensures DupsPass(Bin(t, x, y)) == (Bin(t, Unit(t), z), 1)
    ensures EliminateYN(Bin(t, Unit(t), z)) == z
  {
    PlainDups(x);
    PlainDups(z);
    FoldUnit(t, z);
    hide Join, DupsPass, EliminateYN;
    PairPassIs(t, x, y);
    if Join(t, z, Unit(t)).Some? {
      JoinShape(t, z, Unit(t));
    }
  }

  // e compares a with constants of k only, and no other symbol with anything.
  ghost predicate TestsOnly(e: Expr, a: Symbol, k: set<Symbol>) {
    Tested(e, a) <= k && forall b :: b != a ==> Tested(e, b) == {}
  }

  lemma TestsOnlyJoined(t: Op, x: Expr, y: Expr, a: Symbol, k: set<Symbol>)
    requires TestsOnly(x, a, k) && TestsOnly(y, a, k)
    ensures TestsOnly(Bin(t, x, y), a, k)
  {
  }

  lemma TestValues(a: Symbol, c: Symbol, t: Tri)
    requires a.Var? && a.ty.Tristate? && IsConst(c)
    ensures Eval(Cmp(Equal, a, c), Uniform(t)) == if Denotes(c) == Some(t) then 2 else 0
    ensures Eval(Cmp(Unequal, a, c), Uniform(t)) == if Denotes(c) == Some(t) then 0 else 2
  {
    EqualsConstant(a, c, Uniform(t));
  }

  // (a && a!=m) || n tests a for y once joined, although a was tested for m alone.
  lemma YesFromMod(a: Symbol, c: Symbol)
    requires a.Var? && a.ty.Tristate? && IsConst(c) && Clash(Yes, c)
    ensures var e := Bin(And, Bin(Or, Bin(And, Sym(a), Cmp(Unequal, a, Mod)), Sym(No)), Cmp(Unequal, a, c));
            TestsOnly(e, a, {Mod, c}) && !Equivalent(EliminateDups(e), e)
  {
    var g, w, z := Bin(And, Sym(a), Cmp(Unequal, a, Mod)), Cmp(Unequal, a, c), Cmp(Equal, a, Yes);
    var x := Bin(Or, g, Sym(No));
    ModLeavesYes(a, Sym(No));
    assert EliminateYN(DupsPass(x).0) == z;
    TidyInside(x, w);
    PairDups(And, z, w);
    TestValues(a, Yes, 2);
    TestValues(a, c, 2);
    TestsOnlyJoined(Or, g, Sym(No), a, {Mod, c});
    TestsOnlyJoined(And, x, w, a, {Mod, c});
    hide DupsPass, EliminateDups;
    assert Eval(Bin(And, x, w), Uniform(2)) == 0;
  }

  // The first pass over (a && a!=m) || m.
  lemma ModLeavesYes(a: Symbol, m: Expr)
    requires a.Var? && a.ty.Tristate? && !m.Bin?
    ensures var y := Cmp(Equal, a, Yes);
            DupsPass(Bin(Or, Bin(And, Sym(a), Cmp(Unequal, a, Mod)), m)) == (Bin(Or, Bin(And, Sym(Yes), y), m), 1)
    ensures EliminateYN(Bin(And, Sym(Yes), Cmp(Equal, a, Yes))) == Cmp(Equal, a, Yes)
  {
    var g, g' := Bin(And, Sym(a), Cmp(Unequal, a, Mod)), Bin(And, Sym(Yes), Cmp(Equal, a, Yes));
    assert Join(And, Sym(a), Cmp(Unequal, a, Mod)) == Some(Cmp(Equal, a, Yes));
    assert Join(Or, g', m).None? && Join(Or, m, g').None?;
    PlainDups(m);
    hide Join, DupsPass, EliminateDups;
    PairOnce(And, Sym(a), Cmp(Unequal, a, Mod), Cmp(Equal, a, Yes));
    PairPassIs(Or, g, m);
  }

  // (a && a!=m) || a=m becomes a!=n.
  lemma NoFromMod(a: Symbol, c: Symbol)
    requires a.Var? && a.ty.Tristate? && IsConst(c) && Clash(No, c)
    ensures var e := Bin(And, Bin(Or, Bin(And, Sym(a), Cmp(Unequal, a, Mod)), Cmp(Equal, a, Mod)), Cmp(Equal, a, c));
            TestsOnly(e, a, {Mod, c}) && !Equivalent(EliminateDups(e), e)
  {
    var g, m, w := Bin(And, Sym(a), Cmp(Unequal, a, Mod)), Cmp(Equal, a, Mod), Cmp(Equal, a, c);
    var x, y, z := Bin(Or, g, m), Cmp(Equal, a, Yes), Cmp(Unequal, a, No);
    ModLeavesYes(a, m);
    assert EliminateYN(DupsPass(x).0) == Bin(Or, y, m);
    TidyInside(x, w);
    PairOnce(Or, y, m, z);
    TidyInside(Bin(Or, y, m), w);
    PairDups(And, z, w);
    TestValues(a, Mod, 0);
    TestValues(a, c, 0);
    TestsOnlyJoined(Or, g, m, a, {Mod, c});
    TestsOnlyJoined(And, x, w, a, {Mod, c});
    hide DupsPass, EliminateDups;
    assert Eval(g, Uniform(0)) == 0;
    assert Eval(Bin(And, x, w), Uniform(0)) == 0;
  }

  // a=b || a=c becomes a!=d, where b, c and d are y, m and n in any order.
  lemma ThirdFromTwo(a: Symbol, b: Symbol, c: Symbol, d: Symbol, k: Symbol)
    requires a.Var? && a.ty.Tristate? && IsYmn(b) && IsYmn(c) && IsYmn(d) && b != c && c != d && d != b
    requires IsConst(k) && Clash(d, k)
    ensures var e := Bin(And, Bin(Or, Cmp(Equal, a, b), Cmp(Equal, a, c)), Cmp(Equal, a, k));
            TestsOnly(e, a, {b, c, k}) && !Equivalent(EliminateDups(e), e)
  {
    var x, y, z, w := Cmp(Equal, a, b), Cmp(Equal, a, c), Cmp(Unequal, a, d), Cmp(Equal, a, k);
    assert Join(Or, x, y) == Some(z) && Join(And, z, w) == Some(w);
    hide Join, DupsPass, EliminateDups;
    PairOnce(Or, x, y, z);
    TidyInside(Bin(Or, x, y), w);
    PairDups(And, z, w);
    TestsOnlyJoined(Or, x, y, a, {b, c, k});
    TestsOnlyJoined(And, Bin(Or, x, y), w, a, {b, c, k});
    var t := Denotes(d).value;
    TestValues(a, b, t);
    TestValues(a, c, t);
    TestValues(a, k, t);
    assert Eval(Bin(And, Bin(Or, x, y), w), Uniform(t)) == 0;
  }

  /** ClashFree is the weakest condition on the constants tested: whatever set of constants joining can lead from
      to two spellings of one value, some expression that tests one symbol against that set alone comes out of
      expr_eliminate_dups with another value. */
  lemma ClashFreeIsNeeded(a: Symbol, k: set<Symbol>) returns (e: Expr)
    requires a.Var? && a.ty.Tristate? && (forall c :: c in k ==> IsConst(c))
    requires !Consistent(Reachable(k))
    ensures TestsOnly(e, a, k) && !Equivalent(EliminateDups(e), e)
  {
    var b, c :| b in Reachable(k) && c in Reachable(k) && Clash(b, c);
    if b in k && c in k {
      e := Bin(And, Cmp(Equal, a, b), Cmp(Unequal, a, c));
      PairExact(And, e.l, e.r);
    } else {
      if b in k {
        b, c := c, b;
      }
      if b == Yes {
        e := Bin(And, Bin(Or, Bin(And, Sym(a), Cmp(Unequal, a, Mod)), Sym(No)), Cmp(Unequal, a, c));
        YesFromMod(a, c);
      } else if b == No {
        e := Bin(And, Bin(Or, Bin(And, Sym(a), Cmp(Unequal, a, Mod)), Cmp(Equal, a, Mod)), Cmp(Equal, a, c));
        NoFromMod(a, c);
      } else {
        e := Bin(And, Bin(Or, Cmp(Equal, a, Yes), Cmp(Equal, a, No)), Cmp(Equal, a, c));
        ThirdFromTwo(a, Yes, No, Mod, c);
      }
    }
  }

  /** a='y' && a!="2" becomes a='y', which is y when a is y although the original is n. */
  lemma WrongOnClash(a: Symbol, c: Symbol)
    requires a.Var? && a.ty.Tristate? && c.Const? && c.num == Some(2)
    ensures var e := Bin(And, Cmp(Equal, a, Yes), Cmp(Unequal, a, c));
            EliminateDups(e) == Cmp(Equal, a, Yes) &&
            Eval(EliminateDups(e), Uniform(2)) == 2 && Eval(e, Uniform(2)) == 0
  {
    PairDups(And, Cmp(Equal, a, Yes), Cmp(Unequal, a, c));
  }

  /** (a='m' || a='n') && a="2" becomes a="2": no two of these tests clash until a!='y' has been brought in. */
  lemma WrongOnHiddenClash(a: Symbol, c: Symbol)
    requires a.Var? && a.ty.Tristate? && c.Const? && c.num == Some(2)
    ensures var e := Bin(And, Bin(Or, Cmp(Equal, a, Mod), Cmp(Equal, a, No)), Cmp(Equal, a, c));
            (forall x :: Consistent(Tested(e, x))) && !Equivalent(EliminateDups(e), e)
  {
    ThirdFromTwo(a, Mod, No, Yes, c);
    assert Consistent({Mod, No, c});
  }
}
