/** The test that puts a menu node into the submenu of a symbol before it. */
module MenuSubmenu {
  import opened KconfigExpr
  import opened ExprTransform
  import opened ExprEq
  import opened ExprJoin
  import opened ExprDups
  import opened MenuDeps

  predicate Contains(e: Expr, s: Symbol) {
    match e
    case Sym(a) => a == s
    case Not(a) => Contains(a, s)
    case Join(_, l, r) => Contains(l, s) || Contains(r, s)
    case Cmp(_, l, r) => l == s || r == s
  }

  /** expr_depends_symbol: one of the conjuncts asks for s. */
  predicate Depends(e: Expr, s: Symbol) {
    match e
    case Sym(a) => a == s
    case Not(_) => false
    case Join(op, l, r) => op.And? && (Depends(l, s) || Depends(r, s))
    case Cmp(rel, l, r) => l == s && ((rel.Equal? && (r == Yes || r == Mod)) || (rel.Unequal? && r == No))
  }

  /** expr_trans_compare with the constant n: turns e into the test e = n or e != n. */
  function Compared(e: Expr, equal: bool): Expr {
    match e
    case Join(op, l, r) =>
      var both := Join(Flip(op), Compared(l, true), Compared(r, true));
      if equal then both else Not(both)
    case Not(a) => Compared(a, !equal)
    case Cmp(_, _, _) => if equal then Not(e) else e
    case Sym(s) => Cmp(if equal then Equal else Unequal, s, No)
  }

  /** An absent condition is y. */
  function NotNo(d: Dep): Expr {
    if d.Null? then Not(Sym(No)) else Compared(d.e, false)
  }

  /** What the superset test compares. */
  function Tested(d: Dep): Expr {
    EliminateDups(Transform(NotNo(d)))
  }

  function PromptOf(info: Info, c: Conditions): Option<Dep> {
    if info.prompt.Some? && info.prompt.value < |c.props| then Some(c.props[info.prompt.value]) else None
  }

  /** A node's prompt condition, or its dependency if it has no prompt. */
  function Visibility(info: Info, c: Conditions): Dep {
    var p := PromptOf(info, c);
    if p.Some? then p.value else c.dep
  }

  function BaseOf(info: Info, c: Conditions): Dep {
    var p := PromptOf(info, c);
    if p.Some? then p.value else Null
  }

  predicate GoesBelow(x: Info, cx: Conditions, m: Info, cm: Conditions) {
    x.sym.Some? &&
    var dep := Visibility(m, cm);
    && dep.Dep? && Contains(dep.e, x.sym.value)
    && (Depends(dep.e, x.sym.value) || EliminateEq(Tested(dep), Tested(BaseOf(x, cx))).1 == Sym(Yes))
  }

  function Absorbs(infos: seq<Info>): (nat, Conditions, nat, Conditions) -> bool {
    (x: nat, cx: Conditions, m: nat, cm: Conditions) => x < |infos| && m < |infos| && GoesBelow(infos[x], cx, infos[m], cm)
  }

  /** A bool or tristate. */
  predicate Logical(s: Symbol) {
    s.Type() == Boolean || s.Type() == Tristate
  }

  /** s, s = y, s = m or s != n. */
  predicate AsksFor(x: Expr, s: Symbol) {
    x == Sym(s) || x == Cmp(Equal, s, Yes) || x == Cmp(Equal, s, Mod) || x == Cmp(Unequal, s, No)
  }

  /** A condition depends on s if and only if one of its conjuncts asks for s. */
  lemma {:induction false} DependsExact(e: Expr, s: Symbol)
    ensures Depends(e, s) <==> exists x :: x in Operands(And, e) && AsksFor(x, s)
  {
    if Is(And, e) {
      DependsExact(e.left, s);
      DependsExact(e.right, s);
      var l, r := Operands(And, e.left), Operands(And, e.right);
      assert forall x :: x in l + r <==> x in l || x in r;
    } else {
      assert Operands(And, e) == [e] && e in Operands(And, e);
    }
  }

  /** A node one of whose conjuncts asks for the symbol goes below it. */
  lemma AskedGoesBelow(x: Info, cx: Conditions, m: Info, cm: Conditions, c: Expr)
    requires x.sym.Some? && Visibility(m, cm).Dep? && c in Operands(And, Visibility(m, cm).e) && AsksFor(c, x.sym.value)
    ensures GoesBelow(x, cx, m, cm)
  {
    DependsExact(Visibility(m, cm).e, x.sym.value);
    DependsContains(Visibility(m, cm).e, x.sym.value);
  }

  lemma {:induction false} DependsContains(e: Expr, s: Symbol)
    requires Depends(e, s)
    ensures Contains(e, s)
  {
    if e.Join? {
      if Depends(e.left, s) {
        DependsContains(e.left, s);
      } else {
        DependsContains(e.right, s);
      }
    }
  }

  /** A condition that depends on s is n whenever s is. */
  lemma {:induction false} DependsSound(e: Expr, s: Symbol, v: Assignment)
    requires WellTyped(v) && Logical(s) && Depends(e, s) && Eval(e, v) != 0
    ensures v.tri(s) != 0
  {
    match e
    case Join(_, l, r) =>
      if Depends(l, s) {
        DependsSound(l, s, v);
      } else {
        DependsSound(r, s, v);
      }
    case Cmp(_, l, r) =>
      assert v.order(l, r) == 0 <==> v.tri(l) == TriOf(r);
    case Sym(_) =>
  }

  /** Every plain symbol is a bool, a tristate or a built-in constant. */
  predicate Plain(e: Expr) {
    match e
    case Sym(s) => Logical(s) || BuiltIn(s)
    case Not(a) => Plain(a)
    case Join(_, l, r) => Plain(l) && Plain(r)
    case Cmp(_, _, _) => true
  }

  /** Comparing a built-in constant with n compares the values. */
  ghost predicate ConstantsCompare(v: Assignment) {
    forall c: Symbol {:trigger v.order(c, No)} :: BuiltIn(c) ==> (v.order(c, No) == 0 <==> c == No)
  }

  lemma SymbolCompared(s: Symbol, equal: bool, v: Assignment)
    requires WellTyped(v) && ConstantsCompare(v) && Plain(Sym(s))
    ensures Eval(Compared(Sym(s), equal), v) == if (v.tri(s) == 0) == equal then 2 else 0
  {
    assert v.tri(Yes) == TriOf(Yes) && v.tri(Mod) == TriOf(Mod) && v.tri(No) == TriOf(No);
    assert Logical(s) ==> (v.order(s, No) == 0 <==> v.tri(s) == TriOf(No));
  }

  /** Never m: built from bools, y, n and comparisons. */
  predicate TwoValued(e: Expr) {
    match e
    case Sym(s) => s.Type() == Boolean || s == Yes || s == No
    case Not(a) => TwoValued(a)
    case Join(_, l, r) => TwoValued(l) && TwoValued(r)
    case Cmp(_, _, _) => true
  }

  /** Negations stand only above what is never m. */
  predicate NegatesTwoValued(e: Expr) {
    match e
    case Sym(_) => true
    case Not(a) => TwoValued(a)
    case Join(_, l, r) => NegatesTwoValued(l) && NegatesTwoValued(r)
    case Cmp(_, _, _) => true
  }

  lemma {:induction false} NeverHalf(e: Expr, v: Assignment)
    requires WellTyped(v) && TwoValued(e)
    ensures Eval(e, v) != 1
  {
    match e
    case Sym(_) => assert v.tri(Yes) == TriOf(Yes) && v.tri(No) == TriOf(No);
    case Not(a) => NeverHalf(a, v);
    case Join(_, l, r) =>
      NeverHalf(l, v);
      NeverHalf(r, v);
    case Cmp(_, _, _) =>
  }

  /** The rewritten condition is the test it stands for whenever the condition is y or n; and when it is m too,
      if negations stand only above what is never m. */
  lemma {:induction false} ComparedMeans(e: Expr, equal: bool, v: Assignment)
    requires WellTyped(v) && ConstantsCompare(v) && Plain(e)
    ensures Eval(e, v) != 1 || NegatesTwoValued(e) ==>
              Eval(Compared(e, equal), v) == if (Eval(e, v) == 0) == equal then 2 else 0
    ensures Eval(Compared(e, equal), v) != 1
  {
    match e
    case Join(_, l, r) =>
      ComparedMeans(l, true, v);
      ComparedMeans(r, true, v);
    case Not(a) =>
      ComparedMeans(a, !equal, v);
      if TwoValued(a) {
        NeverHalf(a, v);
      }
    case Cmp(_, _, _) =>
    case Sym(s) => SymbolCompared(s, equal, v);
  }

  /** When it is m, that holds of a symbol but not of its negation. */
  lemma ComparedHalf(s: Symbol, v: Assignment)
    requires WellTyped(v) && ConstantsCompare(v) && Plain(Sym(s)) && v.tri(s) == 1
    ensures Eval(Compared(Sym(s), false), v) == 2 && Eval(Not(Sym(s)), v) == 1 && Eval(Compared(Not(Sym(s)), false), v) == 0
  {
    SymbolCompared(s, false, v);
    SymbolCompared(s, true, v);
  }

  lemma {:induction false} ComparedMentions(e: Expr, equal: bool, cs: set<Symbol>)
    requires Mentions(e, cs) && No in cs
    ensures Mentions(Compared(e, equal), cs)
  {
    match e
    case Join(_, l, r) =>
      ComparedMentions(l, true, cs);
      ComparedMentions(r, true, cs);
    case Not(a) => ComparedMentions(a, !equal, cs);
    case _ =>
  }

  lemma TestedMeans(d: Dep, v: Assignment, cs: set<Symbol>)
    requires WellTyped(v) && ConstantsDistinct(v, cs) && ConstantsCompare(v) && (d.Dep? ==> Plain(d.e) && Mentions(d.e, cs))
    ensures EvalDep(d, v) == 2 || (EvalDep(d, v) == 1 && NegatesTwoValued(d.e)) ==> Eval(Tested(d), v) == 2
    ensures EvalDep(d, v) == 0 ==> Eval(Tested(d), v) == 0
  {
    if d.Dep? {
      ComparedMentions(d.e, false, cs);
    }
    TransformMentions(NotNo(d), cs);
    TransformSound(NotNo(d), v);
    EliminateDupsSound(Transform(NotNo(d)), v, cs);
    if d.Dep? {
      ComparedMeans(d.e, false, v);
    } else {
      assert v.tri(No) == TriOf(No);
    }
  }

  /** A node in the submenu of x is never visible while both x and the prompt of x are n; when it is visible as m,
      provided that negations in its condition stand only above what is never m. The prompt of x may be anything. */
  lemma GoesBelowSound(x: Info, cx: Conditions, m: Info, cm: Conditions, v: Assignment, cs: set<Symbol>)
    requires WellTyped(v) && ConstantsDistinct(v, cs) && ConstantsCompare(v) && GoesBelow(x, cx, m, cm) && Logical(x.sym.value)
    requires MentionsDep(Visibility(m, cm), cs) && MentionsDep(BaseOf(x, cx), cs)
    requires Plain(Visibility(m, cm).e) && (BaseOf(x, cx).Dep? ==> Plain(BaseOf(x, cx).e))
    requires EvalDep(Visibility(m, cm), v) != 0
    requires EvalDep(Visibility(m, cm), v) == 1 ==> NegatesTwoValued(Visibility(m, cm).e)
    ensures v.tri(x.sym.value) != 0 || EvalDep(BaseOf(x, cx), v) != 0
  {
    var dep, base := Visibility(m, cm), BaseOf(x, cx);
    if Depends(dep.e, x.sym.value) {
      DependsSound(dep.e, x.sym.value, v);
    } else {
      TestedMeans(dep, v, cs);
      TestedMeans(base, v, cs);
      SupersetSound(Tested(dep), Tested(base), v);
    }
  }

  /** Outside that guard it can be: with !A in the one condition and A = n in the other, both are tested as A = n. */
  lemma HalfVisible(a: Symbol, s: Symbol, v: Assignment)
    requires a.Type() != Boolean && s.Type() == Tristate && a != s && v.tri(a) == 1 && v.order(a, No) != 0 && v.order(s, s) == 0
    ensures var x, m := Info(Some(s), false, Some(0)), Info(None, false, None);
            var cx := Conditions(Null, [Dep(Cmp(Equal, a, No))]);
            var cm := Conditions(Dep(Join(And, Not(Sym(a)), Cmp(Equal, s, s))), []);
            && GoesBelow(x, cx, m, cm) && (a.Type() == Tristate ==> !NegatesTwoValued(Visibility(m, cm).e))
            && EvalDep(Visibility(m, cm), v) == 1 && EvalDep(BaseOf(x, cx), v) == 0
  {
    var isN, same := Cmp(Equal, a, No), Cmp(Equal, s, s);
    var dep := Join(And, Not(Sym(a)), same);
    HalfTested(a, s);
    assert Tested(Dep(isN)) == isN;
    assert Eq(isN, isN);
    assert ElimLeaves(And, isN, isN) == (Sym(Yes), Sym(Yes));
    assert ElimLeaves(And, Join(And, isN, same), isN).1 == Sym(Yes);
    assert EliminateEq(Tested(Dep(dep)), Tested(Dep(isN))).1 == Sym(Yes);
    HalfValues(a, s, v);
    assert Contains(same, s) && Contains(dep, s);
  }

  lemma HalfValues(a: Symbol, s: Symbol, v: Assignment)
    requires v.tri(a) == 1 && v.order(a, No) != 0 && v.order(s, s) == 0
    ensures Eval(Join(And, Not(Sym(a)), Cmp(Equal, s, s)), v) == 1 && Eval(Cmp(Equal, a, No), v) == 0
  {
    assert Eval(Cmp(Equal, s, s), v) == 2;
    assert Eval(Sym(a), v) == 1;
    assert Eval(Not(Sym(a)), v) == 1;
  }

  lemma HalfTested(a: Symbol, s: Symbol)
    requires a.Type() != Boolean && s.Type() == Tristate && a != s
    ensures Tested(Dep(Join(And, Not(Sym(a)), Cmp(Equal, s, s)))) == Join(And, Cmp(Equal, a, No), Cmp(Equal, s, s))
  {
    var isN, same, notN, differ := Cmp(Equal, a, No), Cmp(Equal, s, s), Cmp(Unequal, a, No), Cmp(Unequal, s, s);
    var dep := Join(And, Not(Sym(a)), same);
    assert Compared(Sym(a), false) == notN;
    assert Compared(Not(Sym(a)), true) == notN;
    assert Compared(same, true) == Not(same);
    assert Compared(dep, false) == Not(Join(Or, notN, Not(same)));
    assert Transform(same) == same;
    assert Transform(Not(same)) == differ;
    assert Transform(notN) == notN && Transform(differ) == differ;
    assert Transform(Join(Or, notN, Not(same))) == Join(Or, notN, differ);
    assert Transform(Not(notN)) == isN && Transform(Not(differ)) == same;
    assert Transform(Join(And, Not(notN), Not(differ))) == Join(And, isN, same);
    assert Transform(Compared(dep, false)) == Join(And, isN, same);
    WalkTwo(And, isN, same);
  }

  /** A symbol by itself and the test that it is not n are not told apart. */
  lemma SymbolTested(u: Symbol, s: Symbol)
    requires u.Type() != Boolean && s.Type() == Tristate && u != s
    ensures var same, notN := Cmp(Equal, s, s), Cmp(Unequal, u, No);
            && Tested(Dep(Join(And, Sym(u), same))) == Tested(Dep(Join(And, notN, same))) == Join(And, notN, same)
            && Tested(Dep(Sym(u))) == Tested(Dep(notN)) == notN
  {
    var same, notN, isN, differ := Cmp(Equal, s, s), Cmp(Unequal, u, No), Cmp(Equal, u, No), Cmp(Unequal, s, s);
    assert Compared(Join(And, Sym(u), same), false) == Not(Join(Or, isN, Not(same)));
    assert Compared(Join(And, notN, same), false) == Not(Join(Or, Not(notN), Not(same)));
    assert Transform(same) == same && Transform(notN) == notN && Transform(isN) == isN && Transform(differ) == differ;
    assert Transform(Not(same)) == differ && Transform(Not(notN)) == isN;
    assert Transform(Not(isN)) == notN && Transform(Not(differ)) == same;
    assert Transform(Join(Or, isN, Not(same))) == Join(Or, isN, differ);
    assert Transform(Join(Or, Not(notN), Not(same))) == Join(Or, isN, differ);
    assert Transform(Join(And, Not(isN), Not(differ))) == Join(And, notN, same);
    WalkTwo(And, notN, same);
  }

  /** An undefined symbol is n, but its text is not: prompt "if U" and a node under "U != n". That node is y while both
      the symbol before it and its prompt are n. */
  lemma UndefinedVisible(u: Symbol, s: Symbol, v: Assignment)
    requires u.Type() != Boolean && s.Type() == Tristate && u != s && v.tri(u) == 0 && v.order(u, No) != 0 && v.order(s, s) == 0
    ensures var x, m := Info(Some(s), false, Some(0)), Info(None, false, None);
            var cx := Conditions(Null, [Dep(Sym(u))]);
            var cm := Conditions(Dep(Join(And, Cmp(Unequal, u, No), Cmp(Equal, s, s))), []);
            && GoesBelow(x, cx, m, cm) && NegatesTwoValued(Visibility(m, cm).e)
            && EvalDep(Visibility(m, cm), v) == 2 && EvalDep(BaseOf(x, cx), v) == 0
  {
    var same, notN := Cmp(Equal, s, s), Cmp(Unequal, u, No);
    SymbolTested(u, s);
    NotNCommon(notN, same);
    assert Contains(same, s) && Contains(Join(And, notN, same), s);
    assert Eval(same, v) == 2 && Eval(notN, v) == 2;
  }

  /** The other way round for a symbol that is not n but whose text is. */
  lemma TextIsN(u: Symbol, s: Symbol, v: Assignment)
    requires u.Type() != Boolean && s.Type() == Tristate && u != s && v.tri(u) != 0 && v.order(u, No) == 0 && v.order(s, s) == 0
    ensures var x, m := Info(Some(s), false, Some(0)), Info(None, false, None);
            var cx := Conditions(Null, [Dep(Cmp(Unequal, u, No))]);
            var cm := Conditions(Dep(Join(And, Sym(u), Cmp(Equal, s, s))), []);
            GoesBelow(x, cx, m, cm) && EvalDep(Visibility(m, cm), v) != 0 && EvalDep(BaseOf(x, cx), v) == 0
  {
    var same, notN := Cmp(Equal, s, s), Cmp(Unequal, u, No);
    SymbolTested(u, s);
    NotNCommon(notN, same);
    assert Contains(same, s) && Contains(Join(And, Sym(u), same), s);
    assert Eval(same, v) == 2 && Eval(notN, v) == 0 && Eval(Sym(u), v) == v.tri(u);
  }

  lemma NotNCommon(test: Expr, same: Expr)
    requires test.Cmp? && same.Cmp?
    ensures EliminateEq(Join(And, test, same), test).1 == Sym(Yes)
  {
    assert Eq(test, test);
    assert ElimLeaves(And, test, test) == (Sym(Yes), Sym(Yes));
    assert ElimLeaves(And, Join(And, test, same), test).1 == Sym(Yes);
  }

  // ---- exactly when the test can be trusted --------------------------------

  /** Every symbol that stands by itself is one of these. */
  predicate Over(e: Expr, ss: set<Symbol>) {
    match e
    case Sym(s) => s in ss
    case Not(a) => Over(a, ss)
    case Join(_, l, r) => Over(l, ss) && Over(r, ss)
    case Cmp(_, _, _) => true
  }

  /** None of these symbols is m, and each is n exactly when its text is. */
  ghost predicate Definite(v: Assignment, ss: set<Symbol>) {
    forall s :: s in ss ==> v.tri(s) != 1 && (v.order(s, No) == 0 <==> v.tri(s) == 0)
  }

  lemma {:induction false} DefiniteCompared(e: Expr, equal: bool, v: Assignment, ss: set<Symbol>)
    requires Definite(v, ss) && Over(e, ss)
    ensures Eval(e, v) != 1 && Eval(Compared(e, equal), v) == if (Eval(e, v) == 0) == equal then 2 else 0
  {
    match e
    case Join(_, l, r) =>
      DefiniteCompared(l, true, v, ss);
      DefiniteCompared(r, true, v, ss);
    case Not(a) => DefiniteCompared(a, !equal, v, ss);
    case Cmp(_, _, _) =>
    case Sym(_) =>
  }

  predicate InScope(d: Dep, ss: set<Symbol>, cs: set<Symbol>) {
    d.Dep? ==> Over(d.e, ss) && Mentions(d.e, cs)
  }

  lemma DefiniteTested(d: Dep, v: Assignment, ss: set<Symbol>, cs: set<Symbol>)
    requires WellTyped(v) && ConstantsDistinct(v, cs) && Definite(v, ss) && InScope(d, ss, cs)
    ensures Eval(Tested(d), v) == if EvalDep(d, v) == 0 then 0 else 2
  {
    if d.Dep? {
      ComparedMentions(d.e, false, cs);
      DefiniteCompared(d.e, false, v, ss);
    } else {
      assert v.tri(No) == TriOf(No);
    }
    TransformMentions(NotNo(d), cs);
    TransformSound(NotNo(d), v);
    EliminateDupsSound(Transform(NotNo(d)), v, cs);
  }

  /** Where m goes below x, it is not visible while both x and the prompt of x are n. */
  ghost predicate Trusted(x: Info, cx: Conditions, m: Info, cm: Conditions, v: Assignment) {
    GoesBelow(x, cx, m, cm) && EvalDep(Visibility(m, cm), v) != 0 ==>
      v.tri(x.sym.value) != 0 || EvalDep(BaseOf(x, cx), v) != 0
  }

  lemma DefiniteTrusted(x: Info, cx: Conditions, m: Info, cm: Conditions, v: Assignment, ss: set<Symbol>, cs: set<Symbol>)
    requires WellTyped(v) && ConstantsDistinct(v, cs) && Definite(v, ss) && x.sym.Some? && Logical(x.sym.value)
    requires InScope(Visibility(m, cm), ss, cs) && InScope(BaseOf(x, cx), ss, cs)
    ensures Trusted(x, cx, m, cm, v)
  {
    var dep, base := Visibility(m, cm), BaseOf(x, cx);
    if GoesBelow(x, cx, m, cm) && EvalDep(dep, v) != 0 {
      if Depends(dep.e, x.sym.value) {
        DependsSound(dep.e, x.sym.value, v);
      } else {
        DefiniteTested(dep, v, ss, cs);
        DefiniteTested(base, v, ss, cs);
        SupersetSound(Tested(dep), Tested(base), v);
      }
    }
  }

  /** For conditions over given symbols, the submenu test can be trusted if and only if none of these symbols is m and
      each is n exactly when its text is. Some tristate that is n is there to be asked about. */
  lemma GoesBelowExact(s: Symbol, v: Assignment, ss: set<Symbol>, cs: set<Symbol>)
    requires WellTyped(v) && ConstantsDistinct(v, cs) && s.Type() == Tristate && v.tri(s) == 0 && v.order(s, s) == 0
    ensures (forall x: Info, cx: Conditions, m: Info, cm: Conditions ::
               x.sym.Some? && Logical(x.sym.value) && InScope(Visibility(m, cm), ss, cs) && InScope(BaseOf(x, cx), ss, cs)
               ==> Trusted(x, cx, m, cm, v))
       <==> Definite(v, ss)
  {
    if Definite(v, ss) {
      forall x: Info, cx: Conditions, m: Info, cm: Conditions
        | x.sym.Some? && Logical(x.sym.value) && InScope(Visibility(m, cm), ss, cs) && InScope(BaseOf(x, cx), ss, cs)
        ensures Trusted(x, cx, m, cm, v)
      {
        DefiniteTrusted(x, cx, m, cm, v, ss, cs);
      }
    } else {
      var u :| u in ss && !(v.tri(u) != 1 && (v.order(u, No) == 0 <==> v.tri(u) == 0));
      var x, m, cx, cm := Misjudged(u, s, v, ss, cs);
      assert !Trusted(x, cx, m, cm, v);
    }
  }

  lemma Misjudged(u: Symbol, s: Symbol, v: Assignment, ss: set<Symbol>, cs: set<Symbol>)
    returns (x: Info, m: Info, cx: Conditions, cm: Conditions)
    requires WellTyped(v) && s.Type() == Tristate && v.tri(s) == 0 && v.order(s, s) == 0 && No in cs
    requires u in ss && !(v.tri(u) != 1 && (v.order(u, No) == 0 <==> v.tri(u) == 0))
    ensures x.sym == Some(s) && InScope(Visibility(m, cm), ss, cs) && InScope(BaseOf(x, cx), ss, cs)
    ensures GoesBelow(x, cx, m, cm) && EvalDep(Visibility(m, cm), v) != 0 && EvalDep(BaseOf(x, cx), v) == 0
  {
    assert v.order(s, No) == 0 <==> v.tri(s) == TriOf(No);
    assert Logical(u) ==> (v.order(u, No) == 0 <==> v.tri(u) == TriOf(No));
    var same := Cmp(Equal, s, s);
    x, m := Info(Some(s), false, Some(0)), Info(None, false, None);
    assert Mentions(same, cs) && Mentions(Cmp(Unequal, u, No), cs) && Mentions(Not(Sym(u)), cs) && Over(Not(Sym(u)), ss);
    if v.order(u, No) == 0 {
      TextIsN(u, s, v);
      cx, cm := Conditions(Null, [Dep(Cmp(Unequal, u, No))]), Conditions(Dep(Join(And, Sym(u), same)), []);
    } else if v.tri(u) == 0 {
      UndefinedVisible(u, s, v);
      cx, cm := Conditions(Null, [Dep(Sym(u))]), Conditions(Dep(Join(And, Cmp(Unequal, u, No), same)), []);
    } else {
      HalfVisible(u, s, v);
      cx, cm := Conditions(Null, [Dep(Cmp(Equal, u, No))]), Conditions(Dep(Join(And, Not(Sym(u)), same)), []);
    }
  }
}
