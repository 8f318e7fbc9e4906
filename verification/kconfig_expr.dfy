/**
 Kconfig dependency expressions (nemu/tools/kconfig/expr.h, expr.c): the trees, the symbols they
 mention, and the three-valued meaning that every rewrite in expr.c has to keep.

 A tree is a value.  Where the C code holds the address of a slot inside a tree, the model holds the
 path from the root to that slot, so two slots of one tree can alias exactly as the pointers do.
 */
module KconfigExpr {
  import opened Common

  // n, m, y
  type Tri = x: int | 0 <= x <= 2

  function Min(a: Tri, b: Tri): Tri { if a < b then a else b }
  function Max(a: Tri, b: Tri): Tri { if a > b then a else b }

  // S_BOOLEAN, S_TRISTATE, and every type whose values are strings
  datatype SymType = Boolean | Tristate | Other

  /** Yes, Mod and No are symbol_yes, symbol_mod and symbol_no, which carry no type.  Const is any
      other SYMBOL_CONST symbol; `num` is the number strtoll reads in its name, if it is one. */
  datatype Symbol = Yes | Mod | No | Const(id: nat, num: Option<int>) | Var(name: nat, ty: SymType)

  datatype Op = And | Or
  datatype Rel = Equal | Unequal | Lth | Leq | Gth | Geq

  datatype Expr =
    | Sym(s: Symbol)
    | Cmp(rel: Rel, a: Symbol, b: Symbol)
    | Not(e: Expr)
    | Bin(op: Op, l: Expr, r: Expr)

  predicate IsTri(s: Symbol) { s.Var? && !s.ty.Other? }
  predicate IsYmn(s: Symbol) { s.Yes? || s.Mod? || s.No? }
  // the SYMBOL_CONST flag
  predicate IsConst(s: Symbol) { IsYmn(s) || s.Const? }
  predicate IsType(t: Op, e: Expr) { e.Bin? && e.op == t }

  /* ---- meaning ---- */

  /** What the configuration supplies: a value per symbol, and how the texts of two symbols compare, which for a
      bool or tristate symbol depends on its value ("n", "m" or "y"). */
  datatype Valuation = Valuation(sym: Symbol -> Tri, str: (Symbol, Tri, Symbol, Tri) -> int)

  /** curr.tri: a bool symbol never holds m, and what is neither bool nor tristate is always n. */
  function TriOf(s: Symbol, v: Valuation): Tri {
    match s
    case Yes => 2
    case Mod => 1
    case No => 0
    case Const(_, _) => 0
    case Var(_, ty) => if ty.Boolean? then (if v.sym(s) == 0 then 0 else 2) else if ty.Tristate? then v.sym(s) else 0
  }

  // Where "m", "n", "y" stand in string order.
  function Letter(t: Tri): int { if t == 1 then 0 else if t == 0 then 1 else 2 }

  // strcmp on what sym_get_string_value returns for the two.
  function Texts(a: Symbol, b: Symbol, v: Valuation): int { v.str(a, TriOf(a, v), b, TriOf(b, v)) }

  /** The three-way comparison of expr_calc_value.  Two bool or tristate symbols compare as numbers.
      If y, m or n takes part, the letters compare as strings, because those three have no type.  A
      constant that reads as a number compares with a bool or tristate symbol as a number; any other
      constant compares with the letter of that symbol as a string that is never equal to "n", "m" or "y".  All
      else compares by its texts. */
  function Compare(a: Symbol, b: Symbol, v: Valuation): int {
    if IsTri(a) && IsTri(b) then TriOf(a, v) - TriOf(b, v)
    else if (IsTri(a) || IsYmn(a)) && (IsTri(b) || IsYmn(b)) then Letter(TriOf(a, v)) - Letter(TriOf(b, v))
    else if IsTri(a) && b.Const? then
      if b.num.Some? then TriOf(a, v) - b.num.value else if Texts(a, b, v) < 0 then -1 else 1
    else if a.Const? && IsTri(b) then
      if a.num.Some? then a.num.value - TriOf(b, v) else if Texts(a, b, v) < 0 then -1 else 1
    else Texts(a, b, v)
  }

  predicate Satisfies(rel: Rel, c: int) {
    match rel
    case Equal => c == 0
    case Unequal => c != 0
    case Lth => c < 0
    case Leq => c <= 0
    case Gth => c > 0
    case Geq => c >= 0
  }

  function Apply(op: Op, a: Tri, b: Tri): Tri { if op.And? then Min(a, b) else Max(a, b) }

  /** expr_calc_value */
  function Eval(e: Expr, v: Valuation): Tri {
    match e
    case Sym(s) => TriOf(s, v)
    case Cmp(rel, a, b) => if Satisfies(rel, Compare(a, b, v)) then 2 else 0
    case Not(x) => 2 - Eval(x, v)
    case Bin(op, l, r) => Apply(op, Eval(l, v), Eval(r, v))
  }

  /** A NULL expression is yes. */
  function EvalOpt(e: Option<Expr>, v: Valuation): Tri {
    if e.None? then 2 else Eval(e.value, v)
  }

  /** Same value under every valuation. */
  ghost predicate Equivalent(e: Expr, f: Expr) {
    forall v: Valuation :: Eval(e, v) == Eval(f, v)
  }

  // The operand that changes nothing: y under &&, n under ||.
  function Unit(op: Op): Expr { if op.And? then Sym(Yes) else Sym(No) }

  predicate IsYN(e: Expr) { e == Sym(Yes) || e == Sym(No) }

  /* ---- measures ---- */

  function Size(e: Expr): nat {
    match e
    case Sym(_) => 1
    case Cmp(_, _, _) => 1
    case Not(x) => 1 + Size(x)
    case Bin(_, l, r) => 1 + Size(l) + Size(r)
  }

  /** Operands of the && / || tree at the top of `e`. */
  function LeafCount(e: Expr): nat {
    if e.Bin? then LeafCount(e.l) + LeafCount(e.r) else 1
  }

  lemma LeafCountPositive(e: Expr)
    ensures LeafCount(e) >= 1
  {
  }

  /** How often && and || alternate on the way down. */
  function Alternation(e: Expr): nat
    decreases e, 1
  {
    if e.Bin? then 1 + LevelAlternation(e.op, e) else 0
  }

  function LevelAlternation(t: Op, e: Expr): nat
    decreases e, if IsType(t, e) then 0 else 2
  {
    if IsType(t, e) then
      var a, b := LevelAlternation(t, e.l), LevelAlternation(t, e.r);
      if a < b then b else a
    else Alternation(e)
  }

  /* ---- slots ---- */

  // false goes left, true goes right
  type Path = seq<bool>

  // The nodes of type t at the top of a tree: what a walk over one "level" of && or || never replaces.
  datatype Shape = Tip | Fork(left: Shape, right: Shape)

  function ShapeOf(t: Op, e: Expr): Shape {
    if IsType(t, e) then Fork(ShapeOf(t, e.l), ShapeOf(t, e.r)) else Tip
  }

  function Forks(s: Shape): nat { if s.Tip? then 0 else 1 + Forks(s.left) + Forks(s.right) }

  predicate Within(s: Shape, p: Path) {
    p == [] || (s.Fork? && Within(if p[0] then s.right else s.left, p[1..]))
  }

  function ShapeAt(s: Shape, p: Path): Shape
    requires Within(s, p)
  {
    if p == [] then s else ShapeAt(if p[0] then s.right else s.left, p[1..])
  }

  /** The expression in slot p. */
  function At(t: Op, e: Expr, p: Path): (x: Expr)
    requires Within(ShapeOf(t, e), p)
    ensures ShapeOf(t, x) == ShapeAt(ShapeOf(t, e), p)
    decreases |p|
  {
    if p == [] then e else At(t, if p[0] then e.r else e.l, p[1..])
  }

  /** The tree after storing x in slot p. */
  function Put(t: Op, e: Expr, p: Path, x: Expr): Expr
    requires Within(ShapeOf(t, e), p)
    decreases |p|
  {
    if p == [] then x
    else if p[0] then Bin(t, e.l, Put(t, e.r, p[1..], x))
    else Bin(t, Put(t, e.l, p[1..], x), e.r)
  }

  lemma {:induction false} WithinExtend(s: Shape, p: Path, b: bool)
    requires Within(s, p) && ShapeAt(s, p).Fork?
    ensures Within(s, p + [b])
    ensures ShapeAt(s, p + [b]) == if b then ShapeAt(s, p).right else ShapeAt(s, p).left
  {
    if p != [] {
      WithinExtend(if p[0] then s.right else s.left, p[1..], b);
      assert (p + [b])[1..] == p[1..] + [b];
    }
  }

  /** Storing into a slot, seen from that slot and from the rest of the level. */
  lemma {:induction false} PutSlot(t: Op, e: Expr, p: Path, x: Expr)
    requires Within(ShapeOf(t, e), p)
    requires ShapeOf(t, x) == ShapeAt(ShapeOf(t, e), p)
    ensures ShapeOf(t, Put(t, e, p, x)) == ShapeOf(t, e)
    ensures At(t, Put(t, e, p, x), p) == x
    decreases |p|
  {
    if p != [] {
      PutSlot(t, if p[0] then e.r else e.l, p[1..], x);
    }
  }

  lemma {:induction false} PutElsewhere(t: Op, e: Expr, p: Path, q: Path, x: Expr)
    requires Within(ShapeOf(t, e), p) && Within(ShapeOf(t, e), q) && p != q
    requires ShapeAt(ShapeOf(t, e), p).Tip? && ShapeAt(ShapeOf(t, e), q).Tip? && ShapeOf(t, x).Tip?
    ensures ShapeOf(t, Put(t, e, p, x)) == ShapeOf(t, e)
    ensures At(t, Put(t, e, p, x), q) == At(t, e, q)
    decreases |p|
  {
    PutSlot(t, e, p, x);
    if p[0] == q[0] {
      assert p == [p[0]] + p[1..] && q == [q[0]] + q[1..];
      PutElsewhere(t, if p[0] then e.r else e.l, p[1..], q[1..], x);
    }
  }

  /** The level's value is the value in slot p combined with everything else. */
  lemma {:induction false} SlotValue(t: Op, e: Expr, p: Path, x: Expr, v: Valuation)
    requires Within(ShapeOf(t, e), p)
    ensures Eval(Put(t, e, p, x), v) == Apply(t, Eval(x, v), Eval(Put(t, e, p, Unit(t)), v))
    decreases |p|
  {
    if p != [] {
      var part, rest := if p[0] then e.r else e.l, if p[0] then e.l else e.r;
      SlotValue(t, part, p[1..], x, v);
      ApplyInside(t, Eval(x, v), Eval(Put(t, part, p[1..], Unit(t)), v), Eval(rest, v));
      hide Apply;
    } else {
      ApplyUnit(t, Eval(x, v), v);
    }
  }

  lemma ApplyInside(t: Op, x: Tri, y: Tri, z: Tri)
    ensures Apply(t, z, Apply(t, x, y)) == Apply(t, x, Apply(t, z, y))
    ensures Apply(t, Apply(t, x, y), z) == Apply(t, x, Apply(t, y, z))
  {
  }

  lemma ApplyUnit(t: Op, x: Tri, v: Valuation)
    ensures Apply(t, x, Eval(Unit(t), v)) == x
  {
  }

  lemma {:induction false} PutBack(t: Op, e: Expr, p: Path)
    requires Within(ShapeOf(t, e), p)
    ensures Put(t, e, p, At(t, e, p)) == e
    decreases |p|
  {
    if p != [] {
      PutBack(t, if p[0] then e.r else e.l, p[1..]);
    }
  }

  lemma {:induction false} PutTwice(t: Op, e: Expr, p: Path, x: Expr, y: Expr)
    requires Within(ShapeOf(t, e), p)
    requires ShapeOf(t, x) == ShapeAt(ShapeOf(t, e), p)
    ensures ShapeOf(t, Put(t, e, p, x)) == ShapeOf(t, e)
    ensures Put(t, Put(t, e, p, x), p, y) == Put(t, e, p, y)
    decreases |p|
  {
    PutSlot(t, e, p, x);
    if p != [] {
      PutTwice(t, if p[0] then e.r else e.l, p[1..], x, y);
    }
  }

  lemma {:induction false} PutLeafCount(t: Op, e: Expr, p: Path, x: Expr)
    requires Within(ShapeOf(t, e), p)
    ensures LeafCount(Put(t, e, p, x)) == LeafCount(e) - LeafCount(At(t, e, p)) + LeafCount(x)
    decreases |p|
  {
    if p != [] {
      PutLeafCount(t, if p[0] then e.r else e.l, p[1..], x);
    }
  }

  lemma {:induction false} PutAlternation(t: Op, e: Expr, p: Path, x: Expr, d: nat)
    requires Within(ShapeOf(t, e), p) && ShapeAt(ShapeOf(t, e), p).Tip? && ShapeOf(t, x).Tip?
    requires LevelAlternation(t, e) <= d && Alternation(x) <= d
    ensures LevelAlternation(t, Put(t, e, p, x)) <= d
    decreases |p|
  {
    if p != [] {
      PutAlternation(t, if p[0] then e.r else e.l, p[1..], x, d);
    }
  }

  lemma {:induction false} AtAlternation(t: Op, e: Expr, p: Path)
    requires Within(ShapeOf(t, e), p)
    ensures LevelAlternation(t, At(t, e, p)) <= LevelAlternation(t, e)
    decreases |p|
  {
    if p != [] {
      AtAlternation(t, if p[0] then e.r else e.l, p[1..]);
    }
  }
}
