/**
 What sym_calc_value promises (nemu/tools/kconfig/symbol.c:177-238, 369-425), told without the way it is computed: who
 decides the value of a bool or tristate symbol, and how far.
 */
module KconfigMeaning {
  import opened Common
  import opened KconfigExpr
  import opened KconfigSymbol
  import opened KconfigValue

  // x is the greatest value that is neither above a nor above b.
  predicate Meet(x: Tri, a: Tri, b: Tri) { x <= a && x <= b && (x == a || x == b) }

  // x is the least value that is neither below a nor below b.
  predicate Join(x: Tri, a: Tri, b: Tri) { a <= x && b <= x && (x == a || x == b) }

  /** m is what x becomes at the end: a bool, and without modules a tristate, cannot be m and is y instead. */
  predicate Becomes(s: Symbol, mods: Tri, x: Tri, m: Tri)
    requires IsTri(s)
  {
    if x == 1 && (s.ty.Boolean? || mods == 0) then m == 2 else m == x
  }

  // The value of the expression, n if there is none.
  predicate Worth(e: Option<Expr>, v: Valuation, x: Tri) { if e.Some? then x == Eval(e.value, v) else x == 0 }

  /** x is the greatest of the conditions of the prompts, n without a prompt. */
  ghost predicate Shown(ps: seq<Property>, v: Valuation, x: Tri) {
    && (forall k :: 0 <= k < |ps| && ps[k].kind.Prompt? ==> EvalOpt(ps[k].visible, v) <= x)
    && (x == 0 || exists k :: 0 <= k < |ps| && ps[k].kind.Prompt? && EvalOpt(ps[k].visible, v) == x)
  }

  predicate Open(p: Property, v: Valuation) { p.kind.Default? && EvalOpt(p.visible, v) != 0 }

  ghost predicate NoneOpen(ps: seq<Property>, v: Valuation) { forall k :: 0 <= k < |ps| ==> !Open(ps[k], v) }

  // Property k is the first default whose condition is not n.
  ghost predicate FirstOpen(ps: seq<Property>, v: Valuation, k: int) {
    0 <= k < |ps| && Open(ps[k], v) && NoneOpen(ps[..k], v)
  }

  /** x comes from the defaults: the first whose condition is not n gives its value, but never more than its condition;
      without one it is n. */
  ghost predicate Default(ps: seq<Property>, v: Valuation, x: Tri) {
    if NoneOpen(ps, v) then x == 0
    else exists k :: FirstOpen(ps, v, k) && Meet(x, EvalOpt(ps[k].value, v), EvalOpt(ps[k].visible, v))
  }

  /** y is x after the implications: they lift it to imp, but then never above dir. */
  predicate Lifted(x: Tri, imp: Tri, dir: Tri, y: Tri) {
    if imp == 0 then y == x
    else y <= dir && (y <= x || y <= imp) && (y == dir || (x <= y && imp <= y))
  }

  lemma {:induction false} ShownIs(ps: seq<Property>, v: Valuation)
    ensures Shown(ps, v, PromptVisibility(ps, v))
  {
    if ps != [] {
      ShownIs(ps[1..], v);
      var x := PromptVisibility(ps[1..], v);
      if x != 0 {
        var k :| 0 <= k < |ps[1..]| && ps[1..][k].kind.Prompt? && EvalOpt(ps[1..][k].visible, v) == x;
        assert ps[k + 1].kind.Prompt? && EvalOpt(ps[k + 1].visible, v) == x;
      }
      forall k | 0 <= k < |ps| && ps[k].kind.Prompt? ensures EvalOpt(ps[k].visible, v) <= PromptVisibility(ps, v) {
        if k > 0 {
          assert ps[1..][k - 1] == ps[k];
        }
      }
      assert ps[0].kind.Prompt? ==> EvalOpt(ps[0].visible, v) <= PromptVisibility(ps, v);
    }
  }

  lemma ShownOnce(ps: seq<Property>, v: Valuation, x: Tri, y: Tri)
    requires Shown(ps, v, x) && Shown(ps, v, y)
    ensures x == y
  {
  }

  lemma {:induction false} NoneOpenIs(ps: seq<Property>, v: Valuation)
    requires NoneOpen(ps, v)
    ensures DefaultValue(ps, v) == 0
  {
    if ps != [] {
      NoneOpenIs(ps[1..], v);
    }
  }

  lemma {:induction false} FirstOpenIs(ps: seq<Property>, v: Valuation, k: int)
    requires FirstOpen(ps, v, k)
    ensures Meet(DefaultValue(ps, v), EvalOpt(ps[k].value, v), EvalOpt(ps[k].visible, v))
  {
    if k > 0 {
      assert !Open(ps[..k][0], v);
      assert ps[1..][..k - 1] == ps[..k][1..];
      FirstOpenIs(ps[1..], v, k - 1);
    }
  }

  lemma DefaultIs(ps: seq<Property>, v: Valuation, x: Tri)
    requires Default(ps, v, x)
    ensures x == DefaultValue(ps, v)
  {
    if NoneOpen(ps, v) {
      NoneOpenIs(ps, v);
    } else {
      var k :| FirstOpen(ps, v, k) && Meet(x, EvalOpt(ps[k].value, v), EvalOpt(ps[k].visible, v));
      FirstOpenIs(ps, v, k);
    }
  }

  /* ---- who decides ---- */

  /** A user value decides while a prompt shows: the symbol is worth the greatest value below both the user's and what
      the prompts allow, raised to what selects it. */
  lemma UserDecides(c: Config, s: Symbol, vis: Tri, rev: Tri, x: Tri, r: Tri)
    requires Acyclic(c) && s in c.table && IsTri(s) && c.table[s].user.Some?
    requires Shown(c.table[s].props, Meanings(c), vis) && vis != 0
    requires Worth(c.table[s].revDep, Meanings(c), rev)
    requires Meet(x, c.table[s].user.value, vis) && Join(r, x, rev)
    ensures Becomes(s, c.mods, r, Meaning(c, s))
  {
    var i, v := c.table[s], Meanings(c);
    MeaningUnfolds(c, s);
    ShownIs(i.props, v);
    ShownOnce(i.props, v, vis, PromptVisibility(i.props, v));
    hide Shown, PromptVisibility, Meaning, Meanings, Acyclic;
  }

  /** Without one, or while no prompt shows, the defaults decide, then the implications lift the value, then what
      selects the symbol raises it. */
  lemma DefaultDecides(c: Config, s: Symbol, vis: Tri, dir: Tri, rev: Tri, imp: Tri, x: Tri, y: Tri, r: Tri)
    requires Acyclic(c) && s in c.table && IsTri(s)
    requires Shown(c.table[s].props, Meanings(c), vis) && (vis == 0 || c.table[s].user.None?)
    requires dir == EvalOpt(c.table[s].dirDep, Meanings(c))
    requires Worth(c.table[s].revDep, Meanings(c), rev) && Worth(c.table[s].implied, Meanings(c), imp)
    requires Default(c.table[s].props, Meanings(c), x) && Lifted(x, imp, dir, y) && Join(r, y, rev)
    ensures Becomes(s, c.mods, r, Meaning(c, s))
  {
    var i, v := c.table[s], Meanings(c);
    MeaningUnfolds(c, s);
    ShownIs(i.props, v);
    ShownOnce(i.props, v, vis, PromptVisibility(i.props, v));
    DefaultIs(i.props, v, x);
    hide Shown, PromptVisibility, Default, DefaultValue, Meaning, Meanings, Acyclic;
  }

  /** What follows for an implied symbol that nobody selects: never above its direct dependencies, and at least what is
      implied as far as they allow. */
  lemma ImpliedBetween(c: Config, s: Symbol, dir: Tri, imp: Tri, low: Tri, high: Tri, least: Tri)
    requires Acyclic(c) && s in c.table && IsTri(s)
    requires Shown(c.table[s].props, Meanings(c), 0) || c.table[s].user.None?
    requires dir == EvalOpt(c.table[s].dirDep, Meanings(c)) && Worth(c.table[s].revDep, Meanings(c), 0)
    requires Worth(c.table[s].implied, Meanings(c), imp) && imp != 0
    requires Meet(least, imp, dir) && Becomes(s, c.mods, least, low) && Becomes(s, c.mods, dir, high)
    ensures low <= Meaning(c, s) <= high
  {
    var i, v := c.table[s], Meanings(c);
    MeaningUnfolds(c, s);
    ShownIs(i.props, v);
    if i.user.Some? {
      ShownOnce(i.props, v, 0, PromptVisibility(i.props, v));
    }
    hide Shown, PromptVisibility, DefaultValue, Meaning, Meanings, Acyclic;
  }

  /** The three constants are worth themselves, and what has no tristate value counts as n. */
  lemma OthersAreFixed(c: Config, s: Symbol)
    requires Acyclic(c) && s in c.table && !IsTri(s)
    ensures Meaning(c, s) == if s.Yes? then 2 else if s.Mod? then 1 else 0
  {
    MeaningUnfolds(c, s);
  }

  /** Each of these finds its values: the rules decide every symbol. */
  lemma RulesApply(c: Config, s: Symbol) returns (vis: Tri, x: Tri)
    requires Acyclic(c) && s in c.table
    ensures Shown(c.table[s].props, Meanings(c), vis) && Default(c.table[s].props, Meanings(c), x)
  {
    vis, x := PromptVisibility(c.table[s].props, Meanings(c)), DefaultValue(c.table[s].props, Meanings(c));
    ShownIs(c.table[s].props, Meanings(c));
    DefaultFound(c.table[s].props, Meanings(c));
  }

  lemma DefaultFound(ps: seq<Property>, v: Valuation)
    ensures Default(ps, v, DefaultValue(ps, v))
  {
    if NoneOpen(ps, v) {
      NoneOpenIs(ps, v);
    } else {
      var k := FirstOpenAt(ps, v);
      FirstOpenIs(ps, v, k);
    }
  }

  lemma {:induction false} FirstOpenAt(ps: seq<Property>, v: Valuation) returns (k: int)
    requires !NoneOpen(ps, v)
    ensures FirstOpen(ps, v, k)
  {
    if Open(ps[0], v) {
      k := 0;
    } else {
      var j :| 0 <= j < |ps| && Open(ps[j], v);
      assert ps[1..][j - 1] == ps[j];
      k := FirstOpenAt(ps[1..], v);
      assert ps[..k + 1] == [ps[0]] + ps[1..][..k];
      k := k + 1;
    }
  }
}
