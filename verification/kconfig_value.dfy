/**
 Memoised evaluation of symbols (nemu/tools/kconfig/symbol.c:83-93, 177-238, 325-467; expr.c:1030-1102),
 for bool and tristate symbols outside choice groups and a fixed value of the modules symbol.
 */
module KconfigValue {
  import opened Common
  import opened KconfigExpr
  import opened KconfigSymbol

  /* ---- the value of one symbol, given the values of the others ---- */

  // sym_get_type: without modules a tristate symbol is a bool.
  predicate IsBool(s: Symbol, mods: Tri) {
    s.Var? && (s.ty.Boolean? || (s.ty.Tristate? && mods == 0))
  }

  function Promote(s: Symbol, mods: Tri, x: Tri): Tri {
    if x == 1 && IsBool(s, mods) then 2 else x
  }

  function PromptVisibility(ps: seq<Property>, v: Valuation): Tri {
    if ps == [] then 0
    else if ps[0].kind.Prompt? then Max(EvalOpt(ps[0].visible, v), PromptVisibility(ps[1..], v))
    else PromptVisibility(ps[1..], v)
  }

  /** The value of the first default whose condition is not n, limited by that condition. */
  function DefaultValue(ps: seq<Property>, v: Valuation): Tri {
    if ps == [] then 0
    else if ps[0].kind.Default? && EvalOpt(ps[0].visible, v) != 0 then
      Min(EvalOpt(ps[0].value, v), EvalOpt(ps[0].visible, v))
    else DefaultValue(ps[1..], v)
  }

  function Visible(s: Symbol, i: SymbolInfo, mods: Tri, v: Valuation): Tri {
    var x := PromptVisibility(i.props, v);
    if x == 1 && (!s.Var? || !s.ty.Tristate? || mods == 0) then 2 else x
  }

  function OrNo(e: Option<Expr>, v: Valuation): Tri { if e.None? then 0 else Eval(e.value, v) }

  function Imply(imp: Tri, dir: Tri, x: Tri): Tri {
    if imp != 0 then Min(Max(x, imp), dir) else x
  }

  function ValueFrom(s: Symbol, i: SymbolInfo, mods: Tri, v: Valuation): Tri {
    if !IsTri(s) then (if IsYmn(s) then TriOf(s, v) else 0)
    else
      var vis := Visible(s, i, mods, v);
      var dir := Promote(s, mods, EvalOpt(i.dirDep, v));
      var rev := Promote(s, mods, OrNo(i.revDep, v));
      var imp := Promote(s, mods, OrNo(i.implied, v));
      var x := if vis != 0 && i.user.Some? then Min(i.user.value, vis)
               else Imply(imp, dir, DefaultValue(i.props, v));
      Promote(s, mods, Max(x, rev))
  }

  /** The value depends on nothing but the dependencies sym_check_deps follows. */
  ghost predicate Agree(v: Valuation, w: Valuation, on: set<Symbol>) {
    v.str == w.str && forall x :: x in on ==> v.sym(x) == w.sym(x)
  }

  lemma {:induction false} EvalLocal(e: Expr, v: Valuation, w: Valuation)
    requires Agree(v, w, Symbols(e))
    ensures Eval(e, v) == Eval(e, w)
  {
    match e {
      case Not(x) => EvalLocal(x, v, w);
      case Bin(_, l, r) =>
        EvalLocal(l, v, w);
        EvalLocal(r, v, w);
      case Sym(_) =>
      case Cmp(_, a, b) =>
        assert a in Symbols(e) && b in Symbols(e);
    }
  }

  lemma {:induction false} PropsLocal(ps: seq<Property>, v: Valuation, w: Valuation)
    requires Agree(v, w, PropsSymbols(ps))
    ensures PromptVisibility(ps, v) == PromptVisibility(ps, w)
    ensures DefaultValue(ps, v) == DefaultValue(ps, w)
  {
    if ps != [] {
      PropsLocal(ps[1..], v, w);
      assert Agree(v, w, PropSymbols(ps[0]));
      EvalOptLocal(ps[0], v, w);
    }
  }

  lemma EvalOptLocal(p: Property, v: Valuation, w: Valuation)
    requires Agree(v, w, PropSymbols(p))
    ensures p.kind.Prompt? || p.kind.Default? ==> EvalOpt(p.visible, v) == EvalOpt(p.visible, w)
    ensures p.kind.Default? ==> EvalOpt(p.value, v) == EvalOpt(p.value, w)
  {
    if p.kind.Prompt? || p.kind.Default? {
      if p.visible.Some? {
        EvalLocal(p.visible.value, v, w);
      }
      if p.kind.Default? && p.value.Some? {
        EvalLocal(p.value.value, v, w);
      }
    }
  }

  lemma ValueLocal(s: Symbol, i: SymbolInfo, mods: Tri, v: Valuation, w: Valuation)
    requires Agree(v, w, Dependencies(i))
    ensures ValueFrom(s, i, mods, v) == ValueFrom(s, i, mods, w)
  {
    PropsLocal(i.props, v, w);
    if i.dirDep.Some? { EvalLocal(i.dirDep.value, v, w); }
    if i.revDep.Some? { EvalLocal(i.revDep.value, v, w); }
    if i.implied.Some? { EvalLocal(i.implied.value, v, w); }
  }

  /** A selected symbol is at least the value of what selects it, and a bool is never m. */
  lemma ValueBounds(s: Symbol, i: SymbolInfo, mods: Tri, v: Valuation)
    requires IsTri(s)
    ensures ValueFrom(s, i, mods, v) >= OrNo(i.revDep, v)
    ensures IsBool(s, mods) ==> ValueFrom(s, i, mods, v) != 1
    ensures OrNo(i.revDep, v) == 0 && i.user.Some? && Visible(s, i, mods, v) != 0
            ==> ValueFrom(s, i, mods, v) <= Promote(s, mods, Visible(s, i, mods, v))
  {
  }

  /* ---- the recursive meaning of an acyclic table ---- */

  /** A table, the value of the modules symbol, how strings compare, and a rank per symbol that falls
      along every dependency. */
  datatype Config = Config(table: Table, mods: Tri, str: (Symbol, Tri, Symbol, Tri) -> int, rank: map<Symbol, nat>)

  ghost predicate Acyclic(c: Config) {
    Closed(c.table) && Ranked(c.table, c.rank) && c.table.Keys <= c.rank.Keys
  }

  type AcyclicConfig = c: Config | Acyclic(c)
    ghost witness Config(map[], 0, (a: Symbol, x: Tri, b: Symbol, y: Tri) => 0, map[])

  /** The value of a symbol, by recursion on what it depends on. */
  ghost function Meaning(c: Config, s: Symbol): Tri
    requires Acyclic(c) && s in c.table
    decreases c.rank[s]
  {
    var deps := Dependencies(c.table[s]);
    var v := Valuation((x: Symbol) => if x in deps && Edge(c.table, s, x) then Meaning(c, x) else 0, c.str);
    ValueFrom(s, c.table[s], c.mods, v)
  }

  ghost function Meanings(c: Config): Valuation
    requires Acyclic(c)
  {
    Valuation((x: Symbol) => if x in c.table then Meaning(c, x) else 0, c.str)
  }

  /** A valuation in which every symbol has the value its definition gives it. */
  ghost predicate Solves(c: Config, v: Valuation) {
    v.str == c.str && forall s :: s in c.table ==> v.sym(s) == ValueFrom(s, c.table[s], c.mods, v)
  }

  lemma MeaningUnfolds(c: Config, s: Symbol)
    requires Acyclic(c) && s in c.table
    ensures Meaning(c, s) == ValueFrom(s, c.table[s], c.mods, Meanings(c))
  {
    var deps := Dependencies(c.table[s]);
    var v := Valuation((x: Symbol) => if x in deps && Edge(c.table, s, x) then Meaning(c, x) else 0, c.str);
    assert Agree(v, Meanings(c), deps) by {
      assert forall x :: x in deps ==> Edge(c.table, s, x);
    }
    ValueLocal(s, c.table[s], c.mods, v, Meanings(c));
  }

  /** The recursive meaning solves the table, and nothing else does: the values do not depend on the
      ranks, nor on the order in which anyone asks for them. */
  lemma MeaningSolves(c: Config)
    requires Acyclic(c)
    ensures Solves(c, Meanings(c))
  {
    forall s | s in c.table ensures Meanings(c).sym(s) == ValueFrom(s, c.table[s], c.mods, Meanings(c)) {
      MeaningUnfolds(c, s);
    }
  }

  lemma {:induction false} SolutionUnique(c: Config, v: Valuation, s: Symbol)
    requires Acyclic(c) && Solves(c, v) && s in c.table
    ensures v.sym(s) == Meaning(c, s)
    decreases c.rank[s]
  {
    forall x | x in Dependencies(c.table[s]) ensures v.sym(x) == Meanings(c).sym(x) {
      assert Edge(c.table, s, x);
      SolutionUnique(c, v, x);
    }
    ValueLocal(s, c.table[s], c.mods, v, Meanings(c));
    MeaningUnfolds(c, s);
  }

  /* ---- sym_calc_value ---- */

  class SymbolValues {
    const c: AcyclicConfig
    var valid: set<Symbol>        // the symbols with SYMBOL_VALID
    var curr: map<Symbol, Tri>    // curr.tri
    ghost var open: set<Symbol>   // the valid symbols whose calculation is still under way

    /** Every finished symbol holds its meaning; the unfinished ones rank at `level` or above. */
    ghost predicate Valid(level: nat)
      reads this
    {
      && open <= valid <= c.table.Keys && (forall s :: s in c.table && IsYmn(s) ==> s in valid)
      && (forall s :: s in valid && s !in open ==> s in curr && curr[s] == Meaning(c, s))
      && (forall s :: s in open ==> level <= c.rank[s])
    }

    /** The symbol has been calculated. */
    ghost predicate Done(s: Symbol)
      reads this
    {
      s in valid && s !in open
    }

    /** sym_clear_all_valid leaves only the three constants valid. */
    constructor (c: AcyclicConfig)
      ensures this.c == c && Valid(0) && open == {} && valid == set s | s in c.table && IsYmn(s)
    {
      this.c := c;
      valid := set s | s in c.table && IsYmn(s);
      open := {};
      curr := map s | s in c.table && IsYmn(s) :: if s.Yes? then 2 else if s.Mod? then 1 else 0;
      new;
      forall s | s in valid ensures curr[s] == Meaning(c, s) {
        MeaningUnfolds(c, s);
      }
    }

    /** What a calculation keeps: finished symbols stay finished, and so do the unfinished ones. */
    twostate predicate Kept(level: nat)
      reads this
    {
      Valid(level) && old(valid) <= valid && open == old(open)
    }

    /** sym_calc_value: afterwards the symbol holds its meaning, whatever was calculated before. */
    method SymCalcValue(s: Symbol, ghost level: nat)
      requires Valid(level) && Below(level, {s})
      modifies this`valid, this`curr, this`open
      ensures Kept(level) && (s !in old(open) ==> Done(s))
      decreases level, 0, 0
    {
      if s in valid {
        return;
      }
      valid, open := valid + {s}, open + {s};
      var newval: Tri := 0;
      if IsTri(s) {
        newval := CalcTristate(s);
      }
      MeaningUnfolds(c, s);
      curr := curr[s := newval];
      open := open - {s};
    }

    /** expr_calc_value */
    method ExprCalcValue(e: Option<Expr>, ghost level: nat) returns (r: Tri)
      requires Valid(level) && Below(level, SymbolsOpt(e))
      modifies this`valid, this`curr, this`open
      ensures Kept(level) && r == EvalOpt(e, Meanings(c))
      decreases level, 1, if e.None? then 0 else Size(e.value)
    {
      if e.None? {
        return 2;
      }
      match e.value {
        case Sym(s) =>
          SymCalcValue(s, level);
          CurrentAgrees(e.value, level);
          r := TriOf(s, Current());
        case Not(x) =>
          r := ExprCalcValue(Some(x), level);
          r := 2 - r;
        case Bin(op, x, y) =>
          r := ExprCalcValue(Some(x), level);
          var q := ExprCalcValue(Some(y), level);
          r := Apply(op, r, q);
        case Cmp(rel, a, b) =>
          SymCalcValue(a, level);
          SymCalcValue(b, level);
          CurrentAgrees(e.value, level);
          r := if Satisfies(rel, Compare(a, b, Current())) then 2 else 0;
      }
    }

    lemma CurrentAgrees(e: Expr, level: nat)
      requires Valid(level) && forall s :: s in Symbols(e) ==> Done(s)
      ensures Eval(e, Current()) == Eval(e, Meanings(c))
    {
      EvalLocal(e, Current(), Meanings(c));
    }

    /** The values calculated so far, as the comparisons and symbol references read them. */
    function Current(): Valuation
      reads this
    {
      var m := curr;
      Valuation((x: Symbol) => if x in m then m[x] else 0, c.str)
    }

    ghost predicate Below(level: nat, xs: set<Symbol>) {
      forall x :: x in xs ==> x in c.table && c.rank[x] < level
    }

    // Everything s depends on ranks below it.
    lemma DependsBelow(s: Symbol)
      requires s in c.table
      ensures Below(c.rank[s], Dependencies(c.table[s]))
    {
      forall x | x in Dependencies(c.table[s]) ensures x in c.table && c.rank[x] < c.rank[s] {
        assert Edge(c.table, s, x);
      }
    }

    /** The part of sym_calc_value for bool and tristate symbols, with sym_calc_visibility. */
    method CalcTristate(s: Symbol) returns (newval: Tri)
      requires s in c.table && IsTri(s) && Valid(c.rank[s])
      modifies this`valid, this`curr, this`open
      ensures Kept(c.rank[s]) && newval == ValueFrom(s, c.table[s], c.mods, Meanings(c))
      decreases c.rank[s], 3, 0
    {
      var i := c.table[s];
      DependsBelow(s);
      var vis := CalcPrompts(s);
      if vis == 1 && (!s.ty.Tristate? || c.mods == 0) {
        vis := 2;
      }
      var dir := ExprCalcValue(i.dirDep, c.rank[s]);
      dir := Promote(s, c.mods, dir);
      var rev := CalcReverse(s, i.revDep);
      var imp := CalcReverse(s, i.implied);
      newval := 0;
      if vis != 0 && i.user.Some? {
        newval := Min(i.user.value, vis);
      } else {
        newval := CalcDefault(s);
        if imp != 0 {
          newval := Max(newval, imp);
          newval := Min(newval, dir);
        }
      }
      newval := Max(newval, rev);
      if newval == 1 && IsBool(s, c.mods) {
        newval := 2;
      }
    }

    /** rev_dep and implied count as n when there is no expression. */
    method CalcReverse(s: Symbol, e: Option<Expr>) returns (r: Tri)
      requires s in c.table && Valid(c.rank[s]) && Below(c.rank[s], SymbolsOpt(e))
      modifies this`valid, this`curr, this`open
      ensures Kept(c.rank[s]) && r == Promote(s, c.mods, OrNo(e, Meanings(c)))
      decreases c.rank[s], 2, 0
    {
      r := 0;
      if e.Some? {
        r := ExprCalcValue(e, c.rank[s]);
      }
      r := Promote(s, c.mods, r);
    }

    /** The loop over the prompts. */
    method CalcPrompts(s: Symbol) returns (tri: Tri)
      requires s in c.table && Valid(c.rank[s])
      modifies this`valid, this`curr, this`open
      ensures Kept(c.rank[s]) && tri == PromptVisibility(c.table[s].props, Meanings(c))
      decreases c.rank[s], 2, 0
    {
      var props := c.table[s].props;
      DependsBelow(s);
      tri := 0;
      for k := 0 to |props|
        invariant Kept(c.rank[s])
        invariant Max(tri, PromptVisibility(props[k..], Meanings(c))) == PromptVisibility(props, Meanings(c))
      {
        assert props[k..][0] == props[k] && props[k..][1..] == props[k + 1..];
        DependencyChecker.PropsSplit(props, k);
        if props[k].kind.Prompt? {
          var x := ExprCalcValue(props[k].visible, c.rank[s]);
          tri := Max(tri, x);
        }
      }
    }

    /** sym_get_default_prop and the value of the default it picks. */
    method CalcDefault(s: Symbol) returns (r: Tri)
      requires s in c.table && Valid(c.rank[s])
      modifies this`valid, this`curr, this`open
      ensures Kept(c.rank[s]) && r == DefaultValue(c.table[s].props, Meanings(c))
      decreases c.rank[s], 2, 0
    {
      var props := c.table[s].props;
      DependsBelow(s);
      for k := 0 to |props|
        invariant Kept(c.rank[s])
        invariant DefaultValue(props[k..], Meanings(c)) == DefaultValue(props, Meanings(c))
      {
        assert props[k..][0] == props[k] && props[k..][1..] == props[k + 1..];
        DependencyChecker.PropsSplit(props, k);
        if props[k].kind.Default? {
          var x := ExprCalcValue(props[k].visible, c.rank[s]);
          if x != 0 {
            r := ExprCalcValue(props[k].value, c.rank[s]);
            return Min(r, x);
          }
        }
      }
      return 0;
    }
  }

  /** Calculating any symbols in any order gives each of them its meaning. */
  method CalcAll(t: SymbolValues, order: seq<Symbol>)
    requires t.Valid(0) && t.open == {} && forall s :: s in order ==> s in t.c.table
    modifies t
    ensures t.Valid(0) && forall s :: s in order ==> s in t.curr && t.curr[s] == Meaning(t.c, s)
  {
    hide Meaning, IsYmn;
    ghost var top := Above(t.c.rank);
    for k := 0 to |order|
      invariant t.Valid(top) && t.open == {}
      invariant forall j :: 0 <= j < k ==> t.Done(order[j])
    {
      t.SymCalcValue(order[k], top);
    }
  }
}
