/**
 Recursive-dependency detection over the symbol graph (nemu/tools/kconfig/symbol.c:1013-1276, driven by
 parser.y:513-519).
 */
module KconfigSymbol {
  import opened Common
  import opened KconfigExpr

  datatype PropKind = Prompt | Default | Choice | Select | Imply | OtherProp
  datatype Property = Property(kind: PropKind, visible: Option<Expr>, value: Option<Expr>)

  /** A symbol outside choice groups: what its value depends on, and the value the user gave it
      (SYMBOL_DEF_USER), if any. */
  datatype SymbolInfo =
    SymbolInfo(dirDep: Option<Expr>, revDep: Option<Expr>, implied: Option<Expr>, props: seq<Property>,
               user: Option<Tri>)

  type Table = map<Symbol, SymbolInfo>

  function Symbols(e: Expr): set<Symbol> {
    match e
    case Sym(s) => {s}
    case Cmp(_, a, b) => {a, b}
    case Not(x) => Symbols(x)
    case Bin(_, l, r) => Symbols(l) + Symbols(r)
  }

  function SymbolsOpt(e: Option<Expr>): set<Symbol> { if e.None? then {} else Symbols(e.value) }

  /** The symbols of a property that decide a value: those of its condition, and of a default. */
  function PropSymbols(p: Property): set<Symbol> {
    if p.kind.Choice? || p.kind.Select? || p.kind.Imply? then {}
    else SymbolsOpt(p.visible) + if p.kind.Default? then SymbolsOpt(p.value) else {}
  }

  function PropsSymbols(ps: seq<Property>): set<Symbol> {
    if ps == [] then {} else PropSymbols(ps[0]) + PropsSymbols(ps[1..])
  }

  function Dependencies(i: SymbolInfo): set<Symbol> {
    SymbolsOpt(i.dirDep) + SymbolsOpt(i.revDep) + SymbolsOpt(i.implied) + PropsSymbols(i.props)
  }

  ghost predicate Edge(t: Table, a: Symbol, b: Symbol) {
    a in t && b in Dependencies(t[a])
  }

  /** Every symbol that is mentioned exists. */
  ghost predicate Closed(t: Table) {
    forall a, b :: Edge(t, a, b) ==> b in t
  }

  ghost predicate Walk(t: Table, p: seq<Symbol>) {
    forall i :: 0 <= i < |p| - 1 ==> Edge(t, p[i], p[i + 1])
  }

  /** x depends on itself, directly or through others. */
  ghost predicate OnCycle(t: Table, x: Symbol) {
    exists p: seq<Symbol> :: |p| >= 2 && p[0] == x && p[|p| - 1] == x && Walk(t, p)
  }

  ghost predicate HasCycle(t: Table) {
    exists x :: OnCycle(t, x)
  }

  /** Ranks that fall along every edge, for the symbols that have one. */
  ghost predicate Ranked(t: Table, rank: map<Symbol, nat>) {
    forall a, b :: a in rank && Edge(t, a, b) ==> b in rank && rank[b] < rank[a]
  }

  lemma {:induction false} WalkFalls(t: Table, rank: map<Symbol, nat>, p: seq<Symbol>, n: nat)
    requires Ranked(t, rank) && Walk(t, p) && 0 < n < |p| && p[0] in rank
    ensures p[n] in rank && rank[p[n]] < rank[p[0]]
  {
    assert Edge(t, p[n - 1], p[n]);
    if n > 1 {
      WalkFalls(t, rank, p, n - 1);
    }
  }

  /** The symbols of `done` depend on nothing outside it, and can be ranked. */
  ghost predicate Rankable(t: Table, done: set<Symbol>) {
    exists rank: map<Symbol, nat> :: rank.Keys == done && Ranked(t, rank)
  }

  lemma RankableGrows(t: Table, done: set<Symbol>, x: Symbol)
    requires Rankable(t, done) && x !in done && x in t && Dependencies(t[x]) <= done
    ensures Rankable(t, done + {x})
  {
    var rank: map<Symbol, nat> :| rank.Keys == done && Ranked(t, rank);
    var top := Above(rank);
    var rank' := rank[x := top];
    assert rank'.Keys == done + {x} && Ranked(t, rank');
  }

  lemma {:induction false} Above(rank: map<Symbol, nat>) returns (n: nat)
    ensures forall s :: s in rank ==> rank[s] < n
    decreases |rank|
  {
    if rank != map[] {
      var s :| s in rank;
      var rest := rank - {s};
      assert rest.Keys == rank.Keys - {s} && |rest| < |rank|;
      var m := Above(rest);
      n := if m > rank[s] then m else rank[s] + 1;
      assert forall x :: x in rank ==> x == s || (x in rest && rest[x] == rank[x]);
    } else {
      n := 0;
    }
  }

  /** If everything with a dependency can be ranked, there is no cycle. */
  lemma RankableAcyclic(t: Table, done: set<Symbol>)
    requires Rankable(t, done)
    requires forall s :: s in t && Dependencies(t[s]) != {} ==> s in done
    ensures !HasCycle(t)
  {
    var rank: map<Symbol, nat> :| rank.Keys == done && Ranked(t, rank);
    forall p: seq<Symbol> | |p| >= 2 && Walk(t, p) ensures p[0] != p[|p| - 1] {
      assert Edge(t, p[0], p[1]);
      WalkFalls(t, rank, p, |p| - 1);
    }
  }

  /** Symbols without dependencies can be ranked below all others. */
  lemma RankableAll(t: Table, done: set<Symbol>)
    requires Rankable(t, done) && done <= t.Keys
    requires forall s :: s in t && Dependencies(t[s]) != {} ==> s in done
    ensures Rankable(t, t.Keys)
  {
    var rank: map<Symbol, nat> :| rank.Keys == done && Ranked(t, rank);
    var all: map<Symbol, nat> := map s | s in t.Keys :: if s in rank then rank[s] else 0;
    assert all.Keys == t.Keys && Ranked(t, all);
  }

  /* The chain of symbols being visited, bottom first. */

  ghost predicate Chain(t: Table, s: seq<Symbol>) {
    |s| <= 1 || (Edge(t, s[|s| - 2], s[|s| - 1]) && Chain(t, s[..|s| - 1]))
  }

  ghost function Members(s: seq<Symbol>): set<Symbol> {
    if s == [] then {} else Members(s[..|s| - 1]) + {s[|s| - 1]}
  }

  lemma Pushed(t: Table, s: seq<Symbol>, x: Symbol)
    ensures Members(s + [x]) == Members(s) + {x}
    ensures Chain(t, s) && (s != [] ==> Edge(t, s[|s| - 1], x)) ==> Chain(t, s + [x])
  {
    assert (s + [x])[..|s|] == s;
  }

  /** From any member of a chain there is a walk to its top. */
  lemma {:induction false} WalkToTop(t: Table, s: seq<Symbol>, x: Symbol) returns (p: seq<Symbol>)
    requires Chain(t, s) && x in Members(s)
    ensures p != [] && p[0] == x && p[|p| - 1] == s[|s| - 1] && Walk(t, p)
  {
    if x == s[|s| - 1] {
      p := [x];
    } else {
      p := WalkToTop(t, s[..|s| - 1], x);
      p := p + [s[|s| - 1]];
    }
  }

  lemma ChainCloses(t: Table, s: seq<Symbol>, x: Symbol)
    requires Chain(t, s) && x in Members(s) && Edge(t, s[|s| - 1], x)
    ensures OnCycle(t, x)
  {
    var p := WalkToTop(t, s, x);
    assert Walk(t, p + [x]);
  }

  /** The symbols being visited are those on the stack, each depending on the next one up. */
  ghost predicate OnStack(t: Table, check: set<Symbol>, s: seq<Symbol>) {
    check == Members(s) && Chain(t, s)
  }

  class DependencyChecker {
    const table: Table
    var check: set<Symbol>      // the symbols with SYMBOL_CHECK: being visited
    var checked: set<Symbol>    // the symbols with SYMBOL_CHECKED: visited or being visited
    var stack: seq<Symbol>      // the dep_stack list, from the bottom up to check_top
    ghost var found: bool       // some call has returned a symbol

    ghost predicate Valid()
      reads this
    {
      && check <= checked <= table.Keys && OnStack(table, check, stack)
      && (if found then HasCycle(table) else Rankable(table, checked - check))
    }

    constructor (t: Table)
      ensures Valid() && table == t && check == {} && checked == {} && stack == [] && !found
    {
      table, check, checked, stack, found := t, {}, {}, [], false;
      new;
      assert Ranked(t, map[]);
      var none: map<Symbol, nat> := map[];
      assert none.Keys == checked - check;
    }

    /** What a visit keeps: the flag SYMBOL_CHECK and check_top are back where they were, visited symbols
        stay visited, and a call that returns None has met no cycle. */
    twostate predicate Kept(cyclic: bool)
      reads this
    {
      && Valid() && check == old(check) && stack == old(stack) && old(checked) <= checked
      && found == (old(found) || cyclic)
    }

    /** sym_check_deps: a symbol that lies on a cycle, or None. */
    method SymCheckDeps(sym: Symbol) returns (r: Option<Symbol>)
      requires Closed(table) && Valid() && sym in table && (stack != [] ==> Edge(table, stack[|stack| - 1], sym))
      modifies this`check, this`checked, this`stack, this`found
      ensures Kept(r.Some?) && (r.Some? ==> OnCycle(table, r.value))
      ensures !found ==> sym in checked - check
      decreases table.Keys - checked, 1, 0
    {
      if sym in check {
        ChainCloses(table, stack, sym);
        found := true;
        return Some(sym);
      }
      if sym in checked {
        return None;
      }
      r := SymCheckSymDeps(sym);
    }

    /** The flagging in sym_check_deps around sym_check_sym_deps: visit everything sym depends on. */
    method SymCheckSymDeps(sym: Symbol) returns (r: Option<Symbol>)
      requires Closed(table) && Valid() && sym in table && (stack != [] ==> Edge(table, stack[|stack| - 1], sym))
      requires sym !in checked
      modifies this`check, this`checked, this`stack, this`found
      ensures Kept(r.Some?) && (r.Some? ==> OnCycle(table, r.value))
      ensures !found ==> sym in checked - check
      decreases table.Keys - checked, 0, 0
    {
      ghost var flagged, below := check, stack;
      Pushed(table, stack, sym);
      check, checked, stack := check + {sym}, checked + {sym}, stack + [sym];
      assert checked - check == old(checked) - old(check);
      r := SymCheckSymDepsBody(sym);
      if !found {
        VisitEnds(table, checked, flagged, sym);
      }
      check, stack := check - {sym}, stack[..|stack| - 1];
      assert check == flagged && stack == below;
    }

    static lemma VisitEnds(t: Table, checked: set<Symbol>, flagged: set<Symbol>, sym: Symbol)
      requires sym in t && sym in checked && sym !in flagged && Rankable(t, checked - (flagged + {sym}))
      requires Dependencies(t[sym]) <= checked - (flagged + {sym})
      ensures Rankable(t, checked - flagged)
    {
      RankableGrows(t, checked - (flagged + {sym}), sym);
      assert checked - flagged == checked - (flagged + {sym}) + {sym};
    }

    /** sym_check_sym_deps between the two stack operations. */
    method SymCheckSymDepsBody(sym: Symbol) returns (r: Option<Symbol>)
      requires Closed(table) && Valid() && stack != [] && stack[|stack| - 1] == sym && sym in table
      modifies this`check, this`checked, this`stack, this`found
      ensures Kept(r.Some?) && (r.Some? ==> OnCycle(table, r.value))
      ensures !found ==> Dependencies(table[sym]) <= checked - check
      decreases table.Keys - checked, 5, 0
    {
      r := SymCheckExprDeps(table[sym].dirDep);
      if r.Some? { return; }
      r := SymCheckReverseDeps(sym);
      if r.Some? { return; }
      r := SymCheckProps(sym);
    }

    /** What selects or implies the symbol. */
    method SymCheckReverseDeps(sym: Symbol) returns (r: Option<Symbol>)
      requires Closed(table) && Valid() && stack != [] && stack[|stack| - 1] == sym && sym in table
      modifies this`check, this`checked, this`stack, this`found
      ensures Kept(r.Some?) && (r.Some? ==> OnCycle(table, r.value))
      ensures !found ==> SymbolsOpt(table[sym].revDep) + SymbolsOpt(table[sym].implied) <= checked - check
      decreases table.Keys - checked, 4, 0
    {
      r := SymCheckExprDeps(table[sym].revDep);
      if r.Some? { return; }
      r := SymCheckExprDeps(table[sym].implied);
    }

    /** The loop over the properties of the symbol on top of the stack. */
    method SymCheckProps(sym: Symbol) returns (r: Option<Symbol>)
      requires Closed(table) && Valid() && stack != [] && stack[|stack| - 1] == sym && sym in table
      modifies this`check, this`checked, this`stack, this`found
      ensures Kept(r.Some?) && (r.Some? ==> OnCycle(table, r.value))
      ensures !found ==> PropsSymbols(table[sym].props) <= checked - check
      decreases table.Keys - checked, 4, 0
    {
      var props := table[sym].props;
      r := None;
      var i := 0;
      while i < |props|
        invariant 0 <= i <= |props|
        invariant Kept(false) && r.None?
        invariant !found ==> PropsSymbols(props[..i]) <= checked - check
      {
        PropsSplit(props, i);
        r := SymCheckProp(sym, props[i]);
        if r.Some? { return; }
        i := i + 1;
      }
      assert props[..i] == props;
    }

    method SymCheckProp(sym: Symbol, p: Property) returns (r: Option<Symbol>)
      requires Closed(table) && Valid() && stack != [] && stack[|stack| - 1] == sym && sym in table
      requires PropSymbols(p) <= Dependencies(table[sym])
      modifies this`check, this`checked, this`stack, this`found
      ensures Kept(r.Some?) && (r.Some? ==> OnCycle(table, r.value))
      ensures !found ==> PropSymbols(p) <= checked - check
      decreases table.Keys - checked, 3, 0
    {
      if p.kind.Choice? || p.kind.Select? || p.kind.Imply? {
        return None;
      }
      r := SymCheckExprDeps(p.visible);
      if r.Some? || !p.kind.Default? { return; }
      r := SymCheckExprDeps(p.value);
    }

    static lemma {:induction false} PropsSplit(ps: seq<Property>, i: nat)
      requires i < |ps|
      ensures PropsSymbols(ps[..i + 1]) == PropsSymbols(ps[..i]) + PropSymbols(ps[i])
      ensures PropSymbols(ps[i]) <= PropsSymbols(ps)
    {
      if i > 0 {
        PropsSplit(ps[1..], i - 1);
        assert ps[..i][1..] == ps[1..][..i - 1] && ps[..i + 1][1..] == ps[1..][..i];
      }
    }

    /** sym_check_expr_deps: visit the symbols of one expression, from left to right. */
    method SymCheckExprDeps(e: Option<Expr>) returns (r: Option<Symbol>)
      requires Closed(table) && Valid() && stack != [] && stack[|stack| - 1] in table
      requires SymbolsOpt(e) <= Dependencies(table[stack[|stack| - 1]])
      modifies this`check, this`checked, this`stack, this`found
      ensures Kept(r.Some?) && (r.Some? ==> OnCycle(table, r.value))
      ensures !found ==> SymbolsOpt(e) <= checked - check
      decreases table.Keys - checked, 2, if e.None? then 0 else Size(e.value)
    {
      if e.None? {
        return None;
      }
      match e.value {
        case Sym(s) =>
          assert Edge(table, stack[|stack| - 1], s);
          r := SymCheckDeps(s);
        case Cmp(_, a, b) =>
          assert Edge(table, stack[|stack| - 1], a) && Edge(table, stack[|stack| - 1], b);
          r := SymCheckDeps(a);
          if r.None? {
            r := SymCheckDeps(b);
          }
        case Not(x) =>
          r := SymCheckExprDeps(Some(x));
        case Bin(_, x, y) =>
          r := SymCheckExprDeps(Some(x));
          if r.None? {
            r := SymCheckExprDeps(Some(y));
          }
      }
    }
  }

  /** The loop of conf_parse, over every symbol that depends on anything, in any order: it counts no
      error exactly when there is no cycle, and leaves no SYMBOL_CHECK flag and nothing on the stack.
      Without errors all symbols can be ranked, which is what evaluating them rests on. */
  method CheckAllSymbols(c: DependencyChecker, order: seq<Symbol>) returns (errors: nat)
    requires Closed(c.table) && c.Valid() && c.check == {} && c.checked == {} && c.stack == [] && !c.found
    requires forall s :: s in order ==> s in c.table
    requires forall s :: s in c.table && Dependencies(c.table[s]) != {} ==> s in order
    modifies c
    ensures errors == 0 <==> !HasCycle(c.table)
    ensures errors == 0 ==> Rankable(c.table, c.table.Keys)
    ensures c.check == {} && c.stack == []
  {
    hide OnCycle, Closed, Dependencies, Edge, Ranked;
    errors := 0;
    for i := 0 to |order|
      invariant c.Valid() && c.check == {} && c.stack == []
      invariant c.found <==> errors > 0
      invariant errors == 0 ==> forall k :: 0 <= k < i ==> order[k] in c.checked
    {
      var r := c.SymCheckDeps(order[i]);
      if r.Some? {
        errors := errors + 1;
      }
    }
    if errors == 0 {
      RankableAcyclic(c.table, c.checked);
      RankableAll(c.table, c.checked);
    }
  }
}
