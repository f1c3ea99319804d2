/** Kconfig dependency expressions over three-valued logic. */
module KconfigExpr {

  datatype Option<T> = None | Some(value: T)

  /** no, mod, yes */
  type Tri = x: int | 0 <= x <= 2

  datatype SymType = Unknown | Boolean | Tristate | Int | Hex | Str

  /** The three built-in constants, other constants by spelling, and config symbols.
      Two symbols are the same object in memory exactly when they are equal here. */
  datatype Symbol = Yes | Mod | No | Const(name: string) | Config(id: nat, typ: SymType)
  {
    /** The SYMBOL_CONST flag. */
    predicate IsConst() {
      !Config?
    }

    function Type(): SymType {
      if Config? then typ else Unknown
    }
  }

  datatype Rel = Equal | Unequal | Lth | Leq | Gth | Geq

  datatype Junction = And | Or

  datatype Expr =
    | Sym(sym: Symbol)
    | Not(arg: Expr)
    | Join(op: Junction, left: Expr, right: Expr)
    | Cmp(rel: Rel, lhs: Symbol, rhs: Symbol)

  /** A null expression stands for yes. */
  datatype Dep = Null | Dep(e: Expr)

  function Min(x: Tri, y: Tri): Tri { if x < y then x else y }
  function Max(x: Tri, y: Tri): Tri { if x > y then x else y }

  function Apply(op: Junction, x: Tri, y: Tri): Tri {
    if op.And? then Min(x, y) else Max(x, y)
  }

  /** The neutral element of a junction. */
  function Unit(op: Junction): (s: Symbol) {
    if op.And? then Yes else No
  }

  function Flip(op: Junction): Junction {
    if op.And? then Or else And
  }

  /** Values of symbols, and for every pair of symbols the outcome of comparing their
      string values, as an integer whose sign is the order. */
  datatype Assignment = Assignment(tri: Symbol -> Tri, order: (Symbol, Symbol) -> int)

  function Holds(rel: Rel, res: int): bool {
    match rel
    case Equal => res == 0
    case Unequal => res != 0
    case Lth => res < 0
    case Leq => res <= 0
    case Gth => res > 0
    case Geq => res >= 0
  }

  /** expr_calc_value under a fixed assignment. */
  function Eval(e: Expr, v: Assignment): Tri {
    match e
    case Sym(s) => v.tri(s)
    case Not(a) => 2 - Eval(a, v)
    case Join(op, l, r) => Apply(op, Eval(l, v), Eval(r, v))
    case Cmp(rel, l, r) => if Holds(rel, v.order(l, r)) then 2 else 0
  }

  function EvalDep(d: Dep, v: Assignment): Tri {
    if d.Null? then 2 else Eval(d.e, v)
  }

  function TriOf(c: Symbol): Tri {
    if c.Yes? then 2 else if c.Mod? then 1 else 0
  }

  predicate BuiltIn(c: Symbol) {
    c.Yes? || c.Mod? || c.No?
  }

  /** What the symbol table guarantees: the built-in constants have their own value,
      a boolean is never m, and comparing a boolean or tristate for equality with a
      built-in constant compares the value. */
  ghost predicate WellTyped(v: Assignment) {
    && (forall c: Symbol {:trigger TriOf(c)} :: BuiltIn(c) ==> v.tri(c) == TriOf(c))
    && (forall s: Symbol {:trigger v.tri(s)} :: s.Type() == Boolean ==> v.tri(s) != 1)
    && (forall s: Symbol, c: Symbol {:trigger v.order(s, c)} ::
          (s.Type() == Boolean || s.Type() == Tristate) && BuiltIn(c)
          ==> (v.order(s, c) == 0 <==> v.tri(s) == TriOf(c)))
  }

  /** No tristate equals two of these constants at once. That is so of the built-in constants;
      spellings such as '2' and '02', or '2' and y, need not satisfy it. */
  ghost predicate ConstantsDistinct(v: Assignment, cs: set<Symbol>) {
    && {Yes, Mod, No} <= cs
    && forall s: Symbol, b: Symbol, c: Symbol {:trigger v.order(s, b), v.order(s, c)} ::
         s.Type() == Tristate && b in cs && c in cs && b != c ==> v.order(s, b) != 0 || v.order(s, c) != 0
  }

  lemma BuiltInsDistinct(v: Assignment)
    requires WellTyped(v)
    ensures ConstantsDistinct(v, {Yes, Mod, No})
  {
  }

  /** Every constant that e compares something with is one of these. */
  predicate Mentions(e: Expr, cs: set<Symbol>) {
    match e
    case Sym(_) => true
    case Not(a) => Mentions(a, cs)
    case Join(_, l, r) => Mentions(l, cs) && Mentions(r, cs)
    case Cmp(_, _, r) => r.IsConst() ==> r in cs
  }

  predicate MentionsDep(d: Dep, cs: set<Symbol>) {
    d.Null? || Mentions(d.e, cs)
  }

  /** Number of nodes. */
  function Size(e: Expr): nat {
    match e
    case Sym(_) => 1
    case Not(a) => 1 + Size(a)
    case Join(_, l, r) => 1 + Size(l) + Size(r)
    case Cmp(_, _, _) => 1
  }

  /** Number of operands, that is of subexpressions that are not junctions. */
  function Leaves(e: Expr): nat {
    if e.Join? then Leaves(e.left) + Leaves(e.right) else 1
  }

  /** expr_alloc_and / expr_alloc_or on possibly null operands. */
  function AllocJoin(op: Junction, d1: Dep, d2: Dep): Dep {
    if d1.Null? then d2 else if d2.Null? then d1 else Dep(Join(op, d1.e, d2.e))
  }

  /** expr_is_yes. */
  predicate IsYes(d: Dep) {
    d.Null? || d.e == Sym(Yes)
  }
}
