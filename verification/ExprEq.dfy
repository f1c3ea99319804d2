/** Removing operands two expressions share, and the equality test built on it. */
module ExprEq {
  import opened KconfigExpr

  /** expr_eliminate_yn: drops y and n operands, or lets them decide a junction. */
  function EliminateYn(e: Expr): (r: Expr)
    ensures Size(r) <= Size(e) && Leaves(r) <= Leaves(e)
  {
    if e.Join? then YnJoin(e.op, EliminateYn(e.left), EliminateYn(e.right)) else e
  }

  function YnJoin(op: Junction, l: Expr, r: Expr): Expr {
    if l == Sym(Unit(Flip(op))) then l
    else if l == Sym(Unit(op)) then r
    else if r == Sym(Unit(Flip(op))) then r
    else if r == Sym(Unit(op)) then l
    else Join(op, l, r)
  }

  lemma {:induction false} EliminateYnSound(e: Expr, v: Assignment)
    requires WellTyped(v)
    ensures Eval(EliminateYn(e), v) == Eval(e, v)
  {
    if e.Join? {
      EliminateYnSound(e.left, v);
      EliminateYnSound(e.right, v);
      assert v.tri(Yes) == TriOf(Yes) && v.tri(No) == TriOf(No);
    }
  }

  /** e is a junction of kind op. */
  predicate Is(op: Junction, e: Expr) {
    e.Join? && e.op == op
  }

  /** __expr_eliminate_eq: compares every operand of e1 with every operand of e2 at
      the level of op and replaces equal pairs by the unit on both sides. */
  function ElimLeaves(op: Junction, e1: Expr, e2: Expr): (r: (Expr, Expr))
    ensures Size(r.0) <= Size(e1) && Size(r.1) <= Size(e2)
    ensures Is(op, e1) ==> Is(op, r.0)
    ensures Is(op, e2) ==> Is(op, r.1)
    decreases Size(e1) + Size(e2), if Is(op, e1) || Is(op, e2) then 0 else 3
  {
    if Is(op, e1) then
      var (l, e2') := ElimLeaves(op, e1.left, e2);
      var (r, e2'') := ElimLeaves(op, e1.right, e2');
      (Join(op, l, r), e2'')
    else if Is(op, e2) then
      var (e1', l) := ElimLeaves(op, e1, e2.left);
      var (e1'', r) := ElimLeaves(op, e1', e2.right);
      (e1'', Join(op, l, r))
    else if e1 == e2 && (e1 == Sym(Yes) || e1 == Sym(No)) then (e1, e2)
    else if Eq(e1, e2) then (Sym(Unit(op)), Sym(Unit(op)))
    else (e1, e2)
  }

  /** expr_eliminate_eq. */
  function EliminateEq(e1: Expr, e2: Expr): (r: (Expr, Expr))
    decreases Size(e1) + Size(e2), 1
  {
    var (f1, f2) := if e1.Join? then ElimLeaves(e1.op, e1, e2) else (e1, e2);
    var (g1, g2) := if f2.Join? && !Is(f2.op, f1) then ElimLeaves(f2.op, f1, f2) else (f1, f2);
    (EliminateYn(g1), EliminateYn(g2))
  }

  /** expr_eq on non-null expressions. */
  predicate Eq(e1: Expr, e2: Expr)
    decreases Size(e1) + Size(e2), 2
  {
    match (e1, e2)
    case (Cmp(r1, l1, s1), Cmp(r2, l2, s2)) => e1 == e2
    case (Sym(s1), Sym(s2)) => s1 == s2
    case (Not(a1), Not(a2)) => Eq(a1, a2)
    case (Join(op1, _, _), Join(op2, _, _)) =>
      op1 == op2 &&
      var (f1, f2) := EliminateEq(e1, e2);
      f1.Sym? && f1 == f2
    case _ => false
  }

  /** expr_eq with null operands. */
  predicate EqDep(d1: Dep, d2: Dep) {
    if d1.Null? || d2.Null? then IsYes(d1) && IsYes(d2) else Eq(d1.e, d2.e)
  }

  /** x1 and x2 are y1 and y2 with the same d joined on. */
  ghost predicate Shared(op: Junction, x1: Tri, x2: Tri, y1: Tri, y2: Tri, d: Tri) {
    x1 == Apply(op, y1, d) && x2 == Apply(op, y2, d)
  }

  lemma SharedTwice(op: Junction, l: Tri, l': Tri, r: Tri, r': Tri, x: Tri, x': Tri, x'': Tri, d1: Tri, d2: Tri)
    requires Shared(op, l, x, l', x', d1) && Shared(op, r, x', r', x'', d2)
    ensures Shared(op, Apply(op, l, r), x, Apply(op, l', r'), x'', Apply(op, d1, d2))
  {
  }

  lemma SharedOrder(op: Junction, x1: Tri, x2: Tri, y1: Tri, y2: Tri, d: Tri)
    requires Shared(op, x1, x2, y1, y2, d)
    ensures y1 <= y2 ==> x1 <= x2
    ensures y1 >= y2 ==> x1 >= x2
  {
  }

  lemma UnitValue(op: Junction, v: Assignment)
    requires WellTyped(v)
    ensures v.tri(Unit(op)) == if op.And? then 2 else 0
  {
    assert v.tri(Yes) == TriOf(Yes) && v.tri(No) == TriOf(No);
  }

  /** The operands removed from both sides have one common value d. */
  lemma {:induction false} ElimLeavesCommon(op: Junction, e1: Expr, e2: Expr, v: Assignment) returns (d: Tri)
    requires WellTyped(v)
    ensures var (f1, f2) := ElimLeaves(op, e1, e2);
            Shared(op, Eval(e1, v), Eval(e2, v), Eval(f1, v), Eval(f2, v), d)
    decreases Size(e1) + Size(e2), if Is(op, e1) || Is(op, e2) then 0 else 5
  {
    if Is(op, e1) {
      var d1 := ElimLeavesCommon(op, e1.left, e2, v);
      var (l, e2') := ElimLeaves(op, e1.left, e2);
      var d2 := ElimLeavesCommon(op, e1.right, e2', v);
      var (r, e2'') := ElimLeaves(op, e1.right, e2');
      d := Apply(op, d1, d2);
      SharedTwice(op, Eval(e1.left, v), Eval(l, v), Eval(e1.right, v), Eval(r, v),
                  Eval(e2, v), Eval(e2', v), Eval(e2'', v), d1, d2);
    } else if Is(op, e2) {
      var d1 := ElimLeavesCommon(op, e1, e2.left, v);
      var (e1', l) := ElimLeaves(op, e1, e2.left);
      var d2 := ElimLeavesCommon(op, e1', e2.right, v);
      var (e1'', r) := ElimLeaves(op, e1', e2.right);
      d := Apply(op, d1, d2);
      SharedTwice(op, Eval(e2.left, v), Eval(l, v), Eval(e2.right, v), Eval(r, v),
                  Eval(e1, v), Eval(e1', v), Eval(e1'', v), d1, d2);
    } else {
      d := ElimPairCommon(op, e1, e2, v);
    }
  }

  lemma {:induction false} ElimPairCommon(op: Junction, e1: Expr, e2: Expr, v: Assignment) returns (d: Tri)
    requires WellTyped(v) && !Is(op, e1) && !Is(op, e2)
    ensures var (f1, f2) := ElimLeaves(op, e1, e2);
            Shared(op, Eval(e1, v), Eval(e2, v), Eval(f1, v), Eval(f2, v), d)
    decreases Size(e1) + Size(e2), 4
  {
    UnitValue(op, v);
    d := v.tri(Unit(op));
    if Eq(e1, e2) && !(e1 == e2 && (e1 == Sym(Yes) || e1 == Sym(No))) {
      EqSound(e1, e2, v);
      d := Eval(e1, v);
    }
  }

  /** Removing common operands never turns an order between the two sides around. */
  lemma {:induction false} EliminateEqOrder(e1: Expr, e2: Expr, v: Assignment)
    requires WellTyped(v)
    ensures var (g1, g2) := EliminateEq(e1, e2);
            && (Eval(g1, v) <= Eval(g2, v) ==> Eval(e1, v) <= Eval(e2, v))
            && (Eval(g1, v) >= Eval(g2, v) ==> Eval(e1, v) >= Eval(e2, v))
    decreases Size(e1) + Size(e2), 2
  {
    var (f1, f2) := if e1.Join? then ElimLeaves(e1.op, e1, e2) else (e1, e2);
    if e1.Join? {
      ElimLeavesOrder(e1.op, e1, e2, v);
    }
    var (g1, g2) := if f2.Join? && !Is(f2.op, f1) then ElimLeaves(f2.op, f1, f2) else (f1, f2);
    if f2.Join? && !Is(f2.op, f1) {
      ElimLeavesOrder(f2.op, f1, f2, v);
    }
    EliminateYnSound(g1, v);
    EliminateYnSound(g2, v);
  }

  lemma {:induction false} ElimLeavesOrder(op: Junction, e1: Expr, e2: Expr, v: Assignment)
    requires WellTyped(v) && (Is(op, e1) || Is(op, e2))
    ensures var (f1, f2) := ElimLeaves(op, e1, e2);
            && (Eval(f1, v) <= Eval(f2, v) ==> Eval(e1, v) <= Eval(e2, v))
            && (Eval(f1, v) >= Eval(f2, v) ==> Eval(e1, v) >= Eval(e2, v))
    decreases Size(e1) + Size(e2), 1
  {
    var (f1, f2) := ElimLeaves(op, e1, e2);
    var d := ElimLeavesCommon(op, e1, e2, v);
    SharedOrder(op, Eval(e1, v), Eval(e2, v), Eval(f1, v), Eval(f2, v), d);
  }

  /** Expressions found equal have the same value under every assignment. */
  lemma {:induction false} EqSound(e1: Expr, e2: Expr, v: Assignment)
    requires WellTyped(v) && Eq(e1, e2)
    ensures Eval(e1, v) == Eval(e2, v)
    decreases Size(e1) + Size(e2), 3
  {
    match (e1, e2)
    case (Not(a1), Not(a2)) => EqSound(a1, a2, v);
    case (Join(_, _, _), Join(_, _, _)) => EliminateEqOrder(e1, e2, v);
    case _ =>
  }

  lemma EqDepSound(d1: Dep, d2: Dep, v: Assignment)
    requires WellTyped(v) && EqDep(d1, d2)
    ensures EvalDep(d1, v) == EvalDep(d2, v)
  {
    assert v.tri(Yes) == TriOf(Yes);
    if d1.Dep? && d2.Dep? {
      EqSound(d1.e, d2.e, v);
    }
  }

  /** The "superset" test: when nothing but y is left of e2, e1 implies e2. */
  lemma SupersetSound(e1: Expr, e2: Expr, v: Assignment)
    requires WellTyped(v) && EliminateEq(e1, e2).1 == Sym(Yes)
    ensures Eval(e1, v) <= Eval(e2, v)
  {
    assert v.tri(Yes) == TriOf(Yes);
    EliminateEqOrder(e1, e2, v);
  }

  /** The operands of a level of op, left to right. */
  function Operands(op: Junction, e: Expr): (s: seq<Expr>) {
    if Is(op, e) then Operands(op, e.left) + Operands(op, e.right) else [e]
  }

  /** No operand of e1 equals one of e2, apart from y and n, which are never removed. */
  ghost predicate NothingShared(op: Junction, e1: Expr, e2: Expr) {
    forall x, y :: x in Operands(op, e1) && y in Operands(op, e2) && Eq(x, y) ==>
      x == y && (x == Sym(Yes) || x == Sym(No))
  }

  /** Every operand of f is one of e or the unit. */
  ghost predicate Replaced(op: Junction, f: Expr, e: Expr) {
    forall x :: x in Operands(op, f) ==> x in Operands(op, e) || x == Sym(Unit(op))
  }

  lemma {:induction false} ElimLeavesReplaced(op: Junction, e1: Expr, e2: Expr)
    ensures var (f1, f2) := ElimLeaves(op, e1, e2); Replaced(op, f1, e1) && Replaced(op, f2, e2)
    decreases Size(e1) + Size(e2)
  {
    if Is(op, e1) {
      ElimLeavesReplaced(op, e1.left, e2);
      ElimLeavesReplaced(op, e1.right, ElimLeaves(op, e1.left, e2).1);
    } else if Is(op, e2) {
      ElimLeavesReplaced(op, e1, e2.left);
      ElimLeavesReplaced(op, ElimLeaves(op, e1, e2.left).0, e2.right);
    }
  }

  /** All operands common to both sides are removed. */
  lemma {:induction false} ElimLeavesExhaustive(op: Junction, e1: Expr, e2: Expr)
    ensures var (f1, f2) := ElimLeaves(op, e1, e2); NothingShared(op, f1, f2)
    decreases Size(e1) + Size(e2)
  {
    if Is(op, e1) {
      var (l, e2') := ElimLeaves(op, e1.left, e2);
      ElimLeavesExhaustive(op, e1.left, e2);
      ElimLeavesExhaustive(op, e1.right, e2');
      ElimLeavesReplaced(op, e1.right, e2');
    } else if Is(op, e2) {
      var (e1', l) := ElimLeaves(op, e1, e2.left);
      ElimLeavesExhaustive(op, e1, e2.left);
      ElimLeavesExhaustive(op, e1', e2.right);
      ElimLeavesReplaced(op, e1', e2.right);
    }
  }
}
