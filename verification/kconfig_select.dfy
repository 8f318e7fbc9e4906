/**
 What the cycles of sym_check_deps do and do not see of a configuration (nemu/tools/kconfig/symbol.c:1164-1211), and
 what a select adds to them (nemu/tools/kconfig/menu.c:407-421).
 */
module KconfigSelect {
  import opened Common
  import opened KconfigExpr
  import opened KconfigSymbol

  /* ---- the dependencies of one symbol ---- */

  // A property whose condition is followed.
  predicate Followed(p: Property) { !p.kind.Choice? && !p.kind.Select? && !p.kind.Imply? }

  // x stands in the condition of p, or in the value of p if that is a default.
  predicate MentionedBy(x: Symbol, p: Property) {
    Followed(p) && (x in SymbolsOpt(p.visible) || (p.kind.Default? && x in SymbolsOpt(p.value)))
  }

  /** A symbol depends on what its dependencies, its selectors and its implications mention, and on what the conditions
      of its properties and the values of its defaults mention, and on nothing else. */
  lemma {:induction false} DependsOn(i: SymbolInfo, x: Symbol)
    ensures x in Dependencies(i) <==>
            || x in SymbolsOpt(i.dirDep) || x in SymbolsOpt(i.revDep) || x in SymbolsOpt(i.implied)
            || exists k :: 0 <= k < |i.props| && MentionedBy(x, i.props[k])
  {
    PropsMention(i.props, x);
  }

  lemma {:induction false} PropsMention(ps: seq<Property>, x: Symbol)
    ensures x in PropsSymbols(ps) <==> exists k :: 0 <= k < |ps| && MentionedBy(x, ps[k])
  {
    if ps != [] {
      PropsMention(ps[1..], x);
      if x in PropsSymbols(ps[1..]) {
        var k :| 0 <= k < |ps[1..]| && MentionedBy(x, ps[1..][k]);
        assert MentionedBy(x, ps[k + 1]);
      }
      if k :| 0 <= k < |ps| && MentionedBy(x, ps[k]) {
        if k > 0 {
          assert MentionedBy(x, ps[1..][k - 1]);
        }
      }
    }
  }

  /** The properties without those of choices, selects and implications. */
  function Stripped(ps: seq<Property>): seq<Property> {
    if ps == [] then [] else (if Followed(ps[0]) then [ps[0]] else []) + Stripped(ps[1..])
  }

  lemma {:induction false} StrippedSymbols(ps: seq<Property>)
    ensures PropsSymbols(Stripped(ps)) == PropsSymbols(ps)
  {
    if ps != [] {
      StrippedSymbols(ps[1..]);
      var rest := Stripped(ps[1..]);
      assert ([ps[0]] + rest)[1..] == rest && [] + rest == rest;
    }
  }

  function StrippedTable(t: Table): Table { map s | s in t :: t[s].(props := Stripped(t[s].props)) }

  // Tables whose symbols depend on the same symbols.
  ghost predicate SameGraph(t: Table, u: Table) {
    t.Keys == u.Keys && forall s :: s in t ==> Dependencies(t[s]) == Dependencies(u[s])
  }

  lemma SameGraphSameCycles(t: Table, u: Table)
    requires SameGraph(t, u)
    ensures HasCycle(t) <==> HasCycle(u)
  {
    assert forall a, b :: Edge(t, a, b) <==> Edge(u, a, b);
    hide Dependencies, Edge;
    assert forall p :: Walk(t, p) <==> Walk(u, p);
    assert forall x :: OnCycle(t, x) <==> OnCycle(u, x);
  }

  /** Choices, selects and implications have no part in the cycles. */
  lemma StripKeepsCycles(t: Table)
    ensures SameGraph(t, StrippedTable(t)) && (HasCycle(StrippedTable(t)) <==> HasCycle(t))
  {
    forall s | s in t ensures Dependencies(StrippedTable(t)[s]) == Dependencies(t[s]) {
      StrippedSymbols(t[s].props);
    }
    SameGraphSameCycles(t, StrippedTable(t));
  }

  // Properties that differ in nothing but the value of what is no default.
  predicate SameButValues(ps: seq<Property>, qs: seq<Property>) {
    |ps| == |qs| && forall k :: 0 <= k < |ps| ==>
      ps[k].kind == qs[k].kind && ps[k].visible == qs[k].visible && (ps[k].kind.Default? ==> ps[k].value == qs[k].value)
  }

  /** Nor has the value of a property that is no default. */
  lemma {:induction false} ValuesDoNotMatter(ps: seq<Property>, qs: seq<Property>)
    requires SameButValues(ps, qs)
    ensures PropsSymbols(ps) == PropsSymbols(qs)
  {
    if ps != [] {
      ValuesDoNotMatter(ps[1..], qs[1..]);
    }
  }

  lemma ValuesKeepCycles(t: Table, u: Table)
    requires t.Keys == u.Keys
    requires forall s :: s in t ==> SameButValues(t[s].props, u[s].props) && u[s].(props := t[s].props) == t[s]
    ensures SameGraph(t, u) && (HasCycle(t) <==> HasCycle(u))
  {
    forall s | s in t ensures Dependencies(t[s]) == Dependencies(u[s]) {
      ValuesDoNotMatter(t[s].props, u[s].props);
    }
    SameGraphSameCycles(t, u);
  }

  /* ---- what a select adds ---- */

  // expr_alloc_or and expr_alloc_and, where one side may be missing
  function OrOpt(e: Option<Expr>, x: Expr): Expr { if e.None? then x else Bin(Or, e.value, x) }

  function AndOpt(x: Expr, e: Option<Expr>): Expr { if e.None? then x else Bin(And, x, e.value) }

  /** `select b if c` or `imply b if c` in the entry of a: the property, and a && c joined into what selects or
      implies b. */
  function Selecting(t: Table, a: Symbol, b: Symbol, c: Option<Expr>, imply: bool): Table
    requires a in t && b in t
  {
    var p, x := Property(if imply then Imply else Select, c, Some(Sym(b))), AndOpt(Sym(a), c);
    var u := t[a := t[a].(props := t[a].props + [p])];
    u[b := if imply then u[b].(implied := Some(OrOpt(u[b].implied, x)))
           else u[b].(revDep := Some(OrOpt(u[b].revDep, x)))]
  }

  lemma {:induction false} SelectAdds(ps: seq<Property>, p: Property)
    requires p.kind.Select? || p.kind.Imply?
    ensures PropsSymbols(ps + [p]) == PropsSymbols(ps)
  {
    if ps == [] {
      assert (ps + [p])[1..] == [];
    } else {
      SelectAdds(ps[1..], p);
      assert (ps + [p])[1..] == ps[1..] + [p];
    }
  }

  lemma PropAdded(i: SymbolInfo, p: Property)
    requires p.kind.Select? || p.kind.Imply?
    ensures Dependencies(i.(props := i.props + [p])) == Dependencies(i)
  {
    SelectAdds(i.props, p);
  }

  lemma ReverseAdded(i: SymbolInfo, e: Expr)
    ensures Dependencies(i.(revDep := Some(OrOpt(i.revDep, e)))) == Dependencies(i) + Symbols(e)
    ensures Dependencies(i.(implied := Some(OrOpt(i.implied, e)))) == Dependencies(i) + Symbols(e)
  {
    assert SymbolsOpt(Some(OrOpt(i.revDep, e))) == SymbolsOpt(i.revDep) + Symbols(e);
    assert SymbolsOpt(Some(OrOpt(i.implied, e))) == SymbolsOpt(i.implied) + Symbols(e);
    hide SymbolsOpt, PropsSymbols;
  }

  // What each symbol depends on after a select.
  lemma SelectDependencies(t: Table, a: Symbol, b: Symbol, c: Option<Expr>, imply: bool, x: Symbol)
    requires a in t && b in t && x in t
    ensures var u := Selecting(t, a, b, c, imply);
            x in u && Dependencies(u[x]) == Dependencies(t[x]) + if x == b then {a} + SymbolsOpt(c) else {}
  {
    var p, e := Property(if imply then Imply else Select, c, Some(Sym(b))), AndOpt(Sym(a), c);
    var i := if x == a then t[x].(props := t[x].props + [p]) else t[x];
    PropAdded(t[x], p);
    ReverseAdded(i, e);
    assert Symbols(e) == {a} + SymbolsOpt(c);
    hide Dependencies, SymbolsOpt, Symbols, OrOpt, AndOpt;
  }

  lemma SelectEdges(t: Table, a: Symbol, b: Symbol, c: Option<Expr>, imply: bool, x: Symbol, y: Symbol)
    requires a in t && b in t
    ensures Edge(Selecting(t, a, b, c, imply), x, y) <==> Edge(t, x, y) || (x == b && y in {a} + SymbolsOpt(c))
  {
    if x in t {
      SelectDependencies(t, a, b, c, imply, x);
    }
    assert Selecting(t, a, b, c, imply).Keys == t.Keys;
    hide Dependencies, SymbolsOpt, Selecting;
  }

  /** From x one comes to y along dependencies, in no steps or more. */
  ghost predicate Reaches(t: Table, x: Symbol, y: Symbol) {
    exists p: seq<Symbol> :: p != [] && p[0] == x && p[|p| - 1] == y && Walk(t, p)
  }

  /** In a table without cycles a select or imply makes one if and only if its symbol, or one its condition mentions, is
      the symbol selected or depends on it. */
  lemma SelectMakesCycle(t: Table, a: Symbol, b: Symbol, c: Option<Expr>, imply: bool)
    requires a in t && b in t && !HasCycle(t)
    ensures HasCycle(Selecting(t, a, b, c, imply)) <==> exists y :: y in {a} + SymbolsOpt(c) && Reaches(t, y, b)
  {
    var u := Selecting(t, a, b, c, imply);
    if y :| y in {a} + SymbolsOpt(c) && Reaches(t, y, b) {
      ReachCloses(t, a, b, c, imply, y);
    }
    if x, p: seq<Symbol> :| OnCycle(u, x) && |p| >= 2 && p[0] == x && p[|p| - 1] == x && Walk(u, p) {
      var i := NewEdge(t, a, b, c, imply, p);
      var y := p[i + 1];
      var q := Rotated(t, a, b, c, imply, p, i);
      ShortestBack(t, a, b, c, imply, q);
    }
  }

  lemma ReachCloses(t: Table, a: Symbol, b: Symbol, c: Option<Expr>, imply: bool, y: Symbol)
    requires a in t && b in t && y in {a} + SymbolsOpt(c) && Reaches(t, y, b)
    ensures HasCycle(Selecting(t, a, b, c, imply))
  {
    var u := Selecting(t, a, b, c, imply);
    var p: seq<Symbol> :| p != [] && p[0] == y && p[|p| - 1] == b && Walk(t, p);
    var q := [b] + p;
    forall i | 0 <= i < |q| - 1 ensures Edge(u, q[i], q[i + 1]) {
      SelectEdges(t, a, b, c, imply, q[i], q[i + 1]);
      if i > 0 {
        assert Edge(t, p[i - 1], p[i]);
      }
    }
    assert Walk(u, q) && |q| >= 2 && q[0] == b && q[|q| - 1] == b;
    assert OnCycle(u, b);
  }

  // A closed walk has an edge that was not there before.
  lemma NewEdge(t: Table, a: Symbol, b: Symbol, c: Option<Expr>, imply: bool, p: seq<Symbol>) returns (i: nat)
    requires a in t && b in t && !HasCycle(t) && Walk(Selecting(t, a, b, c, imply), p) && |p| >= 2 && p[0] == p[|p| - 1]
    ensures i + 1 < |p| && p[i] == b && p[i + 1] in {a} + SymbolsOpt(c)
  {
    assert !OnCycle(t, p[0]);
    assert !Walk(t, p);
    i :| 0 <= i < |p| - 1 && !Edge(t, p[i], p[i + 1]);
    SelectEdges(t, a, b, c, imply, p[i], p[i + 1]);
  }

  // The closed walk from behind that edge round to its start.
  lemma Rotated(t: Table, a: Symbol, b: Symbol, c: Option<Expr>, imply: bool, p: seq<Symbol>, i: nat)
    returns (q: seq<Symbol>)
    requires a in t && b in t && Walk(Selecting(t, a, b, c, imply), p) && |p| >= 2 && p[0] == p[|p| - 1]
    requires i + 1 < |p| && p[i] == b
    ensures Walk(Selecting(t, a, b, c, imply), q) && q != [] && q[0] == p[i + 1] && q[|q| - 1] == b
  {
    q := p[i + 1..] + p[1..i + 1];
    var u, n := Selecting(t, a, b, c, imply), |p| - i - 1;
    forall j | 0 <= j < |q| - 1 ensures Edge(u, q[j], q[j + 1]) {
      if j < n - 1 {
        assert Edge(u, p[i + 1 + j], p[i + 1 + j + 1]);
      } else {
        assert Edge(u, p[j - n + 1], p[j - n + 2]);
      }
    }
  }

  // Up to its first b that walk needs none of the new edges.
  lemma ShortestBack(t: Table, a: Symbol, b: Symbol, c: Option<Expr>, imply: bool, q: seq<Symbol>)
    requires a in t && b in t && Walk(Selecting(t, a, b, c, imply), q) && q != [] && q[|q| - 1] == b
    ensures Reaches(t, q[0], b)
  {
    var k := 0;
    while q[k] != b
      invariant 0 <= k < |q| && forall j :: 0 <= j < k ==> q[j] != b
      decreases |q| - k
    {
      k := k + 1;
    }
    var r := q[..k + 1];
    forall j | 0 <= j < |r| - 1 ensures Edge(t, r[j], r[j + 1]) {
      assert Edge(Selecting(t, a, b, c, imply), q[j], q[j + 1]);
      SelectEdges(t, a, b, c, imply, q[j], q[j + 1]);
    }
    assert Walk(t, r);
  }
}
