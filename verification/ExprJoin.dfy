/** expr_join_or and expr_join_and: merging two operands of one junction. */
module ExprJoin {
  import opened KconfigExpr
  import opened ExprTransform
  import opened ExprEq
  import L = ExprEqLaws

  predicate EqualityTest(e: Expr) {
    e.Cmp? && (e.rel.Equal? || e.rel.Unequal?)
  }

  /** The symbol an operand is about; the two operands are not treated alike. */
  function FirstSymbol(e: Expr): Option<Symbol> {
    if e.Sym? then Some(e.sym)
    else if EqualityTest(e) then Some(e.lhs)
    else if e.Not? && e.arg.Sym? then Some(e.arg.sym)
    else if e.Not? && EqualityTest(e.arg) then Some(e.arg.lhs)
    else None
  }

  function SecondSymbol(e: Expr): Option<Symbol> {
    if e.Sym? then Some(e.sym)
    else if EqualityTest(e) then Some(e.lhs)
    else if e.Not? && e.arg.Sym? then Some(e.arg.sym)
    else None
  }

  /** Both operands are about the same boolean or tristate symbol. */
  predicate SameSymbol(e1: Expr, e2: Expr) {
    && FirstSymbol(e1).Some? && FirstSymbol(e1) == SecondSymbol(e2)
    && (FirstSymbol(e1).value.Type() == Boolean || FirstSymbol(e1).value.Type() == Tristate)
  }

  /** e1 is (s rel c1) and e2 is (s rel c2), in either order of c1 and c2. */
  predicate Tests(e1: Expr, e2: Expr, rel: Rel, c1: Symbol, c2: Symbol) {
    && e1.Cmp? && e2.Cmp? && e1.rel == rel && e2.rel == rel
    && ((e1.rhs == c1 && e2.rhs == c2) || (e1.rhs == c2 && e2.rhs == c1))
  }

  /** One operand is the symbol itself, the other (s rel c). */
  predicate SymbolAndTest(e1: Expr, e2: Expr, rel: Rel, c: Symbol) {
    || (e1.Sym? && e2.Cmp? && e2.rel == rel && e2.rhs == c)
    || (e2.Sym? && e1.Cmp? && e1.rel == rel && e1.rhs == c)
  }

  function JoinOr(e1: Expr, e2: Expr): Option<Expr> {
    if Eq(e1, e2) then Some(e1)
    else if !SameSymbol(e1, e2) then None
    else
      var s := FirstSymbol(e1).value;
      if s.Type() == Tristate then
        if Tests(e1, e2, Equal, Yes, Mod) then Some(Cmp(Unequal, s, No))
        else if Tests(e1, e2, Equal, Yes, No) then Some(Cmp(Unequal, s, Mod))
        else if Tests(e1, e2, Equal, Mod, No) then Some(Cmp(Unequal, s, Yes))
        else None
      else if (e1.Not? && e1.arg.Sym? && e2.Sym?) || (e2.Not? && e2.arg.Sym? && e1.Sym?) then Some(Sym(Yes))
      else None
  }

  function JoinAnd(e1: Expr, e2: Expr): Option<Expr> {
    if Eq(e1, e2) then Some(e1)
    else if !SameSymbol(e1, e2) then None
    else
      var s := FirstSymbol(e1).value;
      if SymbolAndTest(e1, e2, Equal, Yes) then Some(Cmp(Equal, s, Yes))
      else if SymbolAndTest(e1, e2, Unequal, No) then Some(Sym(s))
      else if SymbolAndTest(e1, e2, Unequal, Mod) then Some(Cmp(Equal, s, Yes))
      else if s.Type() != Tristate then None
      else if e1.Cmp? && e2.Cmp? && e1.rel == Equal && e2.rel == Unequal && e1.rhs.IsConst() && e2.rhs.IsConst() then
        Some(if e1.rhs != e2.rhs then Cmp(Equal, s, e1.rhs) else Sym(No))
      else if e1.Cmp? && e2.Cmp? && e1.rel == Unequal && e2.rel == Equal && e1.rhs.IsConst() && e2.rhs.IsConst() then
        Some(if e1.rhs != e2.rhs then Cmp(Equal, s, e2.rhs) else Sym(No))
      else if Tests(e1, e2, Unequal, Yes, No) then Some(Cmp(Equal, s, Mod))
      else if Tests(e1, e2, Unequal, Yes, Mod) then Some(Cmp(Equal, s, No))
      else if Tests(e1, e2, Unequal, Mod, No) then Some(Cmp(Equal, s, Yes))
      else None
  }

  function TryJoin(op: Junction, e1: Expr, e2: Expr): Option<Expr> {
    if op.Or? then JoinOr(e1, e2) else JoinAnd(e1, e2)
  }

  /** Under ||: two of s = y, s = m and s = n for a tristate s; a bool beside its negation. */
  predicate OrPair(a: Expr, b: Expr) {
    || (a.Cmp? && b.Cmp? && a.lhs == b.lhs && a.lhs.Type() == Tristate && a.rel == Equal && b.rel == Equal
        && BuiltIn(a.rhs) && BuiltIn(b.rhs) && a.rhs != b.rhs)
    || (a.Sym? && a.sym.Type() == Boolean && b == Not(a))
    || (b.Sym? && b.sym.Type() == Boolean && a == Not(b))
  }

  /** Under &&: s beside s = y, s != n or s != m. */
  predicate AndSymbol(a: Expr, b: Expr) {
    && a.Sym? && (a.sym.Type() == Boolean || a.sym.Type() == Tristate)
    && (b == Cmp(Equal, a.sym, Yes) || b == Cmp(Unequal, a.sym, No) || b == Cmp(Unequal, a.sym, Mod))
  }

  /** ... and for a tristate s: s = c beside s != d for constants c and d, or two of s != y, s != m and s != n. */
  predicate AndTests(a: Expr, b: Expr) {
    && a.Cmp? && b.Cmp? && a.lhs == b.lhs && a.lhs.Type() == Tristate
    && ((a.rel == Equal && b.rel == Unequal && a.rhs.IsConst() && b.rhs.IsConst())
        || (a.rel == Unequal && b.rel == Unequal && BuiltIn(a.rhs) && BuiltIn(b.rhs) && a.rhs != b.rhs))
  }

  /** The pairs that the joins merge, besides junctions that expr_eq finds equal. */
  predicate Redundant(op: Junction, a: Expr, b: Expr) {
    || a == b
    || (op == Or && OrPair(a, b))
    || (op == And && (AndSymbol(a, b) || AndSymbol(b, a) || AndTests(a, b) || AndTests(b, a)))
  }

  /** Two operands can be merged if and only if expr_eq finds them equal or they are in the table. */
  lemma JoinTable(op: Junction, a: Expr, b: Expr)
    ensures TryJoin(op, a, b).Some? <==> Eq(a, b) || Redundant(op, a, b)
  {
    L.EqReflexive(a);
    if op == Or {
      assert OrPair(a, b) ==> TryJoin(op, a, b).Some?;
      assert TryJoin(op, a, b).Some? && !Eq(a, b) ==> OrPair(a, b);
    } else {
      assert AndSymbol(a, b) ==> TryJoin(op, a, b).Some?;
      assert AndSymbol(b, a) ==> TryJoin(op, a, b).Some?;
      assert AndTests(a, b) || AndTests(b, a) ==> TryJoin(op, a, b).Some?;
      assert TryJoin(op, a, b).Some? && !Eq(a, b) ==> Redundant(op, a, b);
    }
  }

  lemma BuiltInTests(s: Symbol, v: Assignment)
    requires WellTyped(v) && (s.Type() == Boolean || s.Type() == Tristate)
    ensures v.order(s, Yes) == 0 <==> v.tri(s) == 2
    ensures v.order(s, Mod) == 0 <==> v.tri(s) == 1
    ensures v.order(s, No) == 0 <==> v.tri(s) == 0
    ensures v.tri(Yes) == 2 && v.tri(Mod) == 1 && v.tri(No) == 0
    ensures s.Type() == Boolean ==> v.tri(s) != 1
  {
    assert v.tri(Yes) == TriOf(Yes) && v.tri(Mod) == TriOf(Mod) && v.tri(No) == TriOf(No);
  }

  lemma JoinOrSound(e1: Expr, e2: Expr, v: Assignment)
    requires WellTyped(v) && JoinOr(e1, e2).Some?
    ensures Eval(JoinOr(e1, e2).value, v) == Max(Eval(e1, v), Eval(e2, v))
  {
    if Eq(e1, e2) {
      EqSound(e1, e2, v);
    } else {
      BuiltInTests(FirstSymbol(e1).value, v);
    }
  }

  /** Two tests (s = b) and (s != c) for different constants b and c. */
  predicate MixedTests(e1: Expr, e2: Expr) {
    && e1.Cmp? && e2.Cmp? && e1.lhs == e2.lhs && e1.rhs != e2.rhs
    && ((e1.rel == Equal && e2.rel == Unequal) || (e1.rel == Unequal && e2.rel == Equal))
  }

  lemma JoinAndSound(e1: Expr, e2: Expr, v: Assignment)
    requires WellTyped(v) && JoinAnd(e1, e2).Some?
    requires MixedTests(e1, e2) ==> v.order(e1.lhs, e1.rhs) != 0 || v.order(e1.lhs, e2.rhs) != 0
    ensures Eval(JoinAnd(e1, e2).value, v) == Min(Eval(e1, v), Eval(e2, v))
  {
    if Eq(e1, e2) {
      EqSound(e1, e2, v);
    } else {
      BuiltInTests(FirstSymbol(e1).value, v);
    }
  }

  /** Merging keeps the value; the constants have to be distinguishable. */
  lemma TryJoinSound(op: Junction, e1: Expr, e2: Expr, v: Assignment, cs: set<Symbol>)
    requires WellTyped(v) && ConstantsDistinct(v, cs) && Mentions(e1, cs) && Mentions(e2, cs) && TryJoin(op, e1, e2).Some?
    ensures Eval(TryJoin(op, e1, e2).value, v) == Apply(op, Eval(e1, v), Eval(e2, v))
  {
    if op.Or? {
      JoinOrSound(e1, e2, v);
    } else {
      if MixedTests(e1, e2) {
        MixedTestsConstant(e1, e2);
      }
      JoinAndSound(e1, e2, v);
    }
  }

  lemma MixedTestsConstant(e1: Expr, e2: Expr)
    requires JoinAnd(e1, e2).Some? && MixedTests(e1, e2)
    ensures e1.lhs.Type() == Tristate && e1.rhs.IsConst() && e2.rhs.IsConst()
  {
  }

  /** For (s = b) && (s != c) with constants b and c spelt differently, in either order, the merged s = b
      keeps the value exactly when s does not equal both. */
  lemma MixedTestsExact(s: Symbol, b: Symbol, c: Symbol, v: Assignment)
    requires WellTyped(v) && s.Type() == Tristate && b.IsConst() && c.IsConst() && b != c
    ensures var e1, e2 := Cmp(Equal, s, b), Cmp(Unequal, s, c);
            && JoinAnd(e1, e2) == JoinAnd(e2, e1) == Some(e1)
            && (Eval(e1, v) == Min(Eval(e1, v), Eval(e2, v)) <==> v.order(s, b) != 0 || v.order(s, c) != 0)
            && (Eval(e1, v) == Min(Eval(e2, v), Eval(e1, v)) <==> v.order(s, b) != 0 || v.order(s, c) != 0)
  {
  }

  /** A merge yields the first operand again or a single test or symbol. */
  lemma TryJoinShape(op: Junction, e1: Expr, e2: Expr)
    requires TryJoin(op, e1, e2).Some?
    ensures var t := TryJoin(op, e1, e2).value; t == e1 || t.Sym? || t.Cmp?
  {
  }

  lemma TryJoinMentions(op: Junction, e1: Expr, e2: Expr, cs: set<Symbol>)
    requires {Yes, Mod, No} <= cs && Mentions(e1, cs) && Mentions(e2, cs) && TryJoin(op, e1, e2).Some?
    ensures Mentions(TryJoin(op, e1, e2).value, cs)
  {
  }

  /** Merging normal operands gives a normal one. */
  lemma TryJoinNormal(op: Junction, e1: Expr, e2: Expr)
    requires Normal(e1) && Normal(e2) && TryJoin(op, e1, e2).Some?
    ensures Normal(TryJoin(op, e1, e2).value)
  {
  }
}
