/**
 The order behind = != < <= > >= in dependencies (nemu/tools/kconfig/expr.c:990-1028, 1053-1097).
 */
module KconfigCompare {
  import opened Common
  import opened KconfigExpr

  predicate Holds(rel: Rel, a: Symbol, b: Symbol, v: Valuation) { Eval(Cmp(rel, a, b), v) == 2 }

  /** Exactly one of <, = and > holds, and the other three are their negations. */
  lemma OneOfThree(a: Symbol, b: Symbol, v: Valuation)
    ensures Holds(Lth, a, b, v) || Holds(Equal, a, b, v) || Holds(Gth, a, b, v)
    ensures !(Holds(Lth, a, b, v) && Holds(Equal, a, b, v)) && !(Holds(Equal, a, b, v) && Holds(Gth, a, b, v))
    ensures !(Holds(Lth, a, b, v) && Holds(Gth, a, b, v))
    ensures Holds(Unequal, a, b, v) <==> !Holds(Equal, a, b, v)
    ensures Holds(Geq, a, b, v) <==> !Holds(Lth, a, b, v)
    ensures Holds(Leq, a, b, v) <==> !Holds(Gth, a, b, v)
  {
  }

  // Which way strcmp answers does not depend on the order it is given its texts in.
  ghost predicate Strings(v: Valuation) {
    forall a, x, b, y :: v.str(a, x, b, y) < 0 <==> v.str(b, y, a, x) > 0
  }

  lemma CompareTurned(a: Symbol, b: Symbol, v: Valuation)
    requires (Texts(a, b, v) < 0 <==> Texts(b, a, v) > 0) && (Texts(b, a, v) < 0 <==> Texts(a, b, v) > 0)
    requires (IsTri(a) && b.Const? && b.num.None?) || (IsTri(b) && a.Const? && a.num.None?) ==> Texts(a, b, v) != 0
    ensures Compare(a, b, v) < 0 <==> Compare(b, a, v) > 0
  {
    hide TriOf, Texts;
  }

  /** a < b is b > a, and equality is symmetric. */
  lemma TurnedRound(a: Symbol, b: Symbol, v: Valuation)
    requires Strings(v)
    requires (IsTri(a) && b.Const? && b.num.None?) || (IsTri(b) && a.Const? && a.num.None?) ==> Texts(a, b, v) != 0
    ensures Holds(Lth, a, b, v) <==> Holds(Gth, b, a, v)
    ensures Holds(Equal, a, b, v) <==> Holds(Equal, b, a, v)
  {
    assert Texts(a, b, v) < 0 <==> Texts(b, a, v) > 0;
    assert Texts(b, a, v) < 0 <==> Texts(a, b, v) > 0;
    CompareTurned(a, b, v);
    CompareTurned(b, a, v);
    hide Compare, Texts, Strings, TriOf;
  }

  /** Bool and tristate symbols compare by their values, n before m before y. */
  lemma SymbolsByValue(a: Symbol, b: Symbol, v: Valuation)
    requires IsTri(a) && IsTri(b)
    ensures Holds(Lth, a, b, v) <==> TriOf(a, v) < TriOf(b, v)
    ensures Holds(Equal, a, b, v) <==> TriOf(a, v) == TriOf(b, v)
  {
  }

  /** A constant that reads as a number compares as that number, n, m and y counting 0, 1 and 2. */
  lemma NumbersByValue(a: Symbol, c: Symbol, v: Valuation)
    requires IsTri(a) && c.Const? && c.num.Some?
    ensures Holds(Lth, a, c, v) <==> TriOf(a, v) < c.num.value
    ensures Holds(Equal, a, c, v) <==> TriOf(a, v) == c.num.value
  {
  }

  /** Against the constants n, m and y equality goes by value, but order goes by the letters, where m comes before n:
      the order is right exactly when the two are not n and m. */
  lemma LettersByText(a: Symbol, c: Symbol, v: Valuation)
    requires IsTri(a) && IsYmn(c)
    ensures Holds(Equal, a, c, v) <==> TriOf(a, v) == TriOf(c, v)
    ensures (Holds(Lth, a, c, v) <==> TriOf(a, v) < TriOf(c, v)) <==> {TriOf(a, v), TriOf(c, v)} != {0, 1}
  {
    if {TriOf(a, v), TriOf(c, v)} == {0, 1} {
      assert 0 in {TriOf(a, v), TriOf(c, v)} && 1 in {TriOf(a, v), TriOf(c, v)};
    }
  }

  /** So a tristate that is n is found to be at least m. */
  lemma NoIsAtLeastMod(a: Symbol, v: Valuation)
    requires IsTri(a) && TriOf(a, v) == 0
    ensures Holds(Geq, a, Mod, v) && !Holds(Lth, a, Mod, v)
  {
    LettersByText(a, Mod, v);
  }

  /** Where a symbol of another type takes part, the texts decide. */
  lemma TextsByText(a: Symbol, b: Symbol, v: Valuation)
    requires (a.Var? && a.ty.Other?) || (b.Var? && b.ty.Other?)
    ensures Holds(Lth, a, b, v) <==> Texts(a, b, v) < 0
    ensures Holds(Equal, a, b, v) <==> Texts(a, b, v) == 0
  {
  }
}
