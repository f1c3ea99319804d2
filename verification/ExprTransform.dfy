/** expr_transform: pushes negation down to symbols and removes comparisons of
    booleans with the built-in constants. */
module ExprTransform {
  import opened KconfigExpr

  function Negated(rel: Rel): Rel {
    match rel
    case Equal => Unequal
    case Unequal => Equal
    case Leq => Gth
    case Geq => Lth
    case Lth => Geq
    case Gth => Leq
  }

  /** Doubles under negation, so pushing a negation through a junction makes progress. */
  function Weight(e: Expr): nat
  {
    match e
    case Sym(_) => 1
    case Not(a) => 2 * Weight(a)
    case Join(_, l, r) => Weight(l) + Weight(r) + 1
    case Cmp(_, _, _) => 2
  }

  lemma WeightPositive(e: Expr)
    ensures Weight(e) > 0
  {
  }

  /** A comparison of a boolean symbol with y, m or n. */
  function TransformCmp(rel: Rel, l: Symbol, r: Symbol): Expr {
    if l.Type() != Boolean then Cmp(rel, l, r)
    else match rel
      case Equal =>
        if r == No then Not(Sym(l)) else if r == Mod then Sym(No) else if r == Yes then Sym(l) else Cmp(rel, l, r)
      case Unequal =>
        if r == No then Sym(l) else if r == Mod then Sym(Yes) else if r == Yes then Not(Sym(l)) else Cmp(rel, l, r)
      case _ => Cmp(rel, l, r)
  }

  function Transform(e: Expr): (r: Expr)
    ensures Weight(r) <= Weight(e)
    decreases Weight(e)
  {
    match e
    case Sym(_) => e
    case Cmp(rel, l, r) => TransformCmp(rel, l, r)
    case Join(op, l, r) => Join(op, Transform(l), Transform(r))
    case Not(a) =>
      WeightPositive(a);
      match Transform(a)
      case Not(b) => Transform(b)
      case Cmp(rel, l, r) => Cmp(Negated(rel), l, r)
      case Join(op, l, r) => DeMorganLighter(op, l, r); Transform(DeMorgan(op, l, r))
      case Sym(s) =>
        if s == Yes then Sym(No) else if s == Mod then Sym(Mod) else if s == No then Sym(Yes) else Not(Sym(s))
  }

  function DeMorgan(op: Junction, l: Expr, r: Expr): Expr {
    Join(Flip(op), Not(l), Not(r))
  }

  lemma DeMorganLighter(op: Junction, l: Expr, r: Expr)
    ensures Weight(DeMorgan(op, l, r)) < Weight(Not(Join(op, l, r)))
  {
    assert Weight(Not(l)) == 2 * Weight(l) && Weight(Not(r)) == 2 * Weight(r);
    assert Weight(Join(op, l, r)) == Weight(l) + Weight(r) + 1;
  }

  /** Negations only on symbols that are not built-in; no boolean = or != y/m/n. */
  predicate Normal(e: Expr) {
    match e
    case Sym(_) => true
    case Not(a) => a.Sym? && !BuiltIn(a.sym)
    case Join(_, l, r) => Normal(l) && Normal(r)
    case Cmp(rel, l, r) => !((rel.Equal? || rel.Unequal?) && l.Type() == Boolean && BuiltIn(r))
  }

  lemma {:induction false} TransformNormal(e: Expr)
    ensures Normal(Transform(e))
    decreases Weight(e)
  {
    match e
    case Sym(_) =>
    case Cmp(_, _, _) =>
    case Join(_, l, r) =>
      TransformNormal(l);
      TransformNormal(r);
    case Not(a) =>
      WeightPositive(a);
      TransformNormal(a);
      match Transform(a)
      case Not(b) => TransformNormal(b);
      case Join(op, l, r) =>
        DeMorganLighter(op, l, r);
        TransformNormal(DeMorgan(op, l, r));
      case _ =>
  }

  /** Normal expressions are left alone, so a second pass changes nothing. */
  lemma {:induction false} NormalFixed(e: Expr)
    requires Normal(e)
    ensures Transform(e) == e
  {
    if e.Join? {
      NormalFixed(e.left);
      NormalFixed(e.right);
    }
  }

  lemma TransformIdempotent(e: Expr)
    ensures Transform(Transform(e)) == Transform(e)
  {
    TransformNormal(e);
    NormalFixed(Transform(e));
  }

  lemma TransformCmpSound(rel: Rel, l: Symbol, r: Symbol, v: Assignment)
    requires WellTyped(v)
    ensures Eval(TransformCmp(rel, l, r), v) == Eval(Cmp(rel, l, r), v)
  {
    if l.Type() == Boolean && BuiltIn(r) {
      assert v.order(l, r) == 0 <==> v.tri(l) == TriOf(r);
      assert v.tri(l) != 1;
      assert v.tri(No) == TriOf(No) && v.tri(Yes) == TriOf(Yes);
    }
  }

  /** The value is kept under every well-typed assignment. */
  lemma {:induction false} TransformSound(e: Expr, v: Assignment)
    requires WellTyped(v)
    ensures Eval(Transform(e), v) == Eval(e, v)
    decreases Weight(e)
  {
    match e
    case Sym(_) =>
    case Cmp(rel, l, r) =>
      TransformCmpSound(rel, l, r, v);
    case Join(_, l, r) =>
      TransformSound(l, v);
      TransformSound(r, v);
    case Not(a) =>
      WeightPositive(a);
      TransformSound(a, v);
      match Transform(a)
      case Not(b) => TransformSound(b, v);
      case Cmp(_, _, _) =>
      case Join(op, l, r) =>
        DeMorganLighter(op, l, r);
        TransformSound(DeMorgan(op, l, r), v);
      case Sym(s) =>
        assert v.tri(Yes) == TriOf(Yes) && v.tri(Mod) == TriOf(Mod) && v.tri(No) == TriOf(No);
  }

  /** No constant is introduced. */
  lemma {:induction false} TransformMentions(e: Expr, cs: set<Symbol>)
    requires Mentions(e, cs)
    ensures Mentions(Transform(e), cs)
    decreases Weight(e)
  {
    match e
    case Sym(_) =>
    case Cmp(_, _, _) =>
    case Join(_, l, r) =>
      TransformMentions(l, cs);
      TransformMentions(r, cs);
    case Not(a) =>
      WeightPositive(a);
      TransformMentions(a, cs);
      match Transform(a)
      case Not(b) => TransformMentions(b, cs);
      case Join(op, l, r) =>
        DeMorganLighter(op, l, r);
        TransformMentions(DeMorgan(op, l, r), cs);
      case _ =>
  }

  /** expr_trans_bool: FOO != n becomes FOO for a tristate FOO. */
  function TransBool(e: Expr): Expr {
    match e
    case Join(op, l, r) => Join(op, TransBool(l), TransBool(r))
    case Not(a) => Not(TransBool(a))
    case Cmp(rel, l, r) => if rel.Unequal? && l.Type() == Tristate && r == No then Sym(l) else e
    case Sym(_) => e
  }

  /** What a non-tristate symbol makes of a condition: m counts as y. */
  function Promote(x: Tri): Tri {
    if x == 1 then 2 else x
  }

  /** No negation stands above a FOO != n. */
  predicate NoNegatedTest(e: Expr) {
    match e
    case Sym(_) => true
    case Not(a) => TransBool(a) == a
    case Join(_, l, r) => NoNegatedTest(l) && NoNegatedTest(r)
    case Cmp(_, _, _) => true
  }

  lemma {:induction false} NormalNoNegatedTest(e: Expr)
    requires Normal(e)
    ensures NoNegatedTest(e)
  {
    if e.Join? {
      NormalNoNegatedTest(e.left);
      NormalNoNegatedTest(e.right);
    }
  }

  /** Sound for a non-tristate owner wherever negations were pushed down first. */
  lemma {:induction false} TransBoolSound(e: Expr, v: Assignment)
    requires WellTyped(v) && NoNegatedTest(e)
    ensures Promote(Eval(TransBool(e), v)) == Promote(Eval(e, v))
  {
    match e
    case Sym(_) =>
    case Not(_) =>
    case Join(_, l, r) =>
      TransBoolSound(l, v);
      TransBoolSound(r, v);
    case Cmp(rel, l, r) =>
      if rel.Unequal? && l.Type() == Tristate && r == No {
        assert v.order(l, r) == 0 <==> v.tri(l) == TriOf(r);
      }
  }

  /** Below a negation the rewrite is wrong: !(FOO != n) is n for FOO = m, !FOO is m. */
  lemma TransBoolNeedsNormal(foo: Symbol, v: Assignment)
    requires foo.Type() == Tristate && WellTyped(v) && v.tri(foo) == 1
    ensures var e := Not(Cmp(Unequal, foo, No));
            Promote(Eval(e, v)) == 0 && Promote(Eval(TransBool(e), v)) == 2
  {
    assert v.order(foo, No) == 0 <==> v.tri(foo) == TriOf(No);
    assert TransBool(Cmp(Unequal, foo, No)) == Sym(foo);
  }

  ghost predicate NoHalf(v: Assignment) {
    forall s: Symbol {:trigger v.tri(s)} :: s.Type() == Tristate ==> v.tri(s) != 1
  }

  lemma {:induction false} TransBoolNoHalf(e: Expr, v: Assignment)
    requires WellTyped(v) && NoHalf(v)
    ensures Eval(TransBool(e), v) == Eval(e, v)
  {
    match e
    case Sym(_) =>
    case Not(a) => TransBoolNoHalf(a, v);
    case Join(_, l, r) =>
      TransBoolNoHalf(l, v);
      TransBoolNoHalf(r, v);
    case Cmp(rel, l, r) =>
      if rel.Unequal? && l.Type() == Tristate && r == No {
        assert v.order(l, r) == 0 <==> v.tri(l) == TriOf(r);
      }
  }

  /** On all expressions, negated tests included, it is sound exactly under the assignments that make no tristate m. */
  lemma TransBoolExact(v: Assignment)
    requires WellTyped(v)
    ensures (forall e: Expr :: Promote(Eval(TransBool(e), v)) == Promote(Eval(e, v))) <==> NoHalf(v)
  {
    if NoHalf(v) {
      forall e: Expr ensures Promote(Eval(TransBool(e), v)) == Promote(Eval(e, v)) {
        TransBoolNoHalf(e, v);
      }
    } else {
      var foo: Symbol :| foo.Type() == Tristate && v.tri(foo) == 1;
      TransBoolNeedsNormal(foo, v);
    }
  }
}
