/** Simplifying every condition of a symbol table leaves all symbol values as they are. */
module TableOptimise {
  import opened KconfigExpr
  import opened ExprTransform
  import opened ExprDups
  import opened SymbolTable

  function Simplified(d: Dep): Dep {
    if d.Null? then Null else Dep(EliminateDups(Transform(d.e)))
  }

  /** The condition of a property; for a symbol that is not a tristate, tests against n are dropped. */
  function SimplifiedCond(d: Dep, typ: SymType): Dep {
    var s := Simplified(d);
    if typ != Tristate && s.Dep? then Dep(TransBool(s.e)) else s
  }

  function SimplifiedProp(p: Prop, typ: SymType): Prop {
    match p
    case Prompt(c) => Prompt(SimplifiedCond(c, typ))
    case Default(c, e) => Default(SimplifiedCond(c, typ), e)
    case Plain(c) => Plain(SimplifiedCond(c, typ))
  }

  function SimplifiedProps(ps: seq<Prop>, typ: SymType): (r: seq<Prop>)
    ensures |r| == |ps|
  {
    if ps == [] then [] else [SimplifiedProp(ps[0], typ)] + SimplifiedProps(ps[1..], typ)
  }

  function SimplifiedDecl(d: Decl): Decl {
    Decl(d.typ, SimplifiedProps(d.props, d.typ), Simplified(d.dirDep), Simplified(d.revDep), Simplified(d.implied))
  }

  function SimplifiedTable(t: Table): (r: Table)
    ensures |r.decls| == |t.decls| && forall i :: 0 <= i < |t.decls| ==> r.decls[i] == SimplifiedDecl(t.decls[i])
  {
    t.(decls := seq(|t.decls|, i requires 0 <= i < |t.decls| => SimplifiedDecl(t.decls[i])))
  }

  /** Comparing a bool or tristate with y, m or n compares the letters. */
  ghost predicate LettersCompare(t: Table) {
    forall typ: SymType, a: string, b: string {:trigger t.compare(typ, a, Unknown, b)} ::
      (typ == Boolean || typ == Tristate) && a in {"y", "m", "n"} && b in {"y", "m", "n"} ==>
      (t.compare(typ, a, Unknown, b) == 0 <==> a == b)
  }

  lemma OrderIs(t: Table, env: seq<Tri>, l: Symbol, r: Symbol)
    ensures Under(t, env).order(l, r)
            == t.compare(l.Type(), Text(t, l, Current(t, l, env)), r.Type(), Text(t, r, Current(t, r, env)))
  {
  }

  lemma UnderWellTyped(t: Table, env: seq<Tri>)
    requires LettersCompare(t) && Proper(t, env)
    ensures WellTyped(Under(t, env))
  {
    var v := Under(t, env);
    forall s: Symbol, c: Symbol | (s.Type() == Boolean || s.Type() == Tristate) && BuiltIn(c)
      ensures v.order(s, c) == 0 <==> v.tri(s) == TriOf(c)
    {
      var x := Current(t, s, env);
      var a, b := Text(t, s, x), Text(t, c, TriOf(c));
      assert v.tri(s) == x && a == Letter(t, x) && Current(t, c, env) == TriOf(c);
      assert Text(t, c, Current(t, c, env)) == b && c.Type() == Unknown;
      OrderIs(t, env, s, c);
      assert a in {"y", "m", "n"} && b in {"y", "m", "n"};
      LetterMeans(t, v.tri(s), c);
    }
  }

  lemma LetterMeans(t: Table, x: Tri, c: Symbol)
    requires BuiltIn(c) && (x == 1 ==> t.modules != 0)
    ensures Letter(t, x) == Text(t, c, TriOf(c)) <==> x == TriOf(c)
  {
    assert "y"[0] != "m"[0] && "m"[0] != "n"[0] && "y"[0] != "n"[0];
  }

  /** The simplified table gives every expression the same value. */
  lemma {:induction false} SameUnder(t: Table, e: Expr, env: seq<Tri>)
    ensures Eval(e, Under(SimplifiedTable(t), env)) == Eval(e, Under(t, env))
  {
    var t' := SimplifiedTable(t);
    match e
    case Not(a) => SameUnder(t, a, env);
    case Join(_, l, r) =>
      SameUnder(t, l, env);
      SameUnder(t, r, env);
    case Sym(s) => SameCurrent(t, s, env);
    case Cmp(_, l, r) =>
      SameCurrent(t, l, env);
      SameCurrent(t, r, env);
  }

  lemma SameCurrent(t: Table, s: Symbol, env: seq<Tri>)
    ensures Current(SimplifiedTable(t), s, env) == Current(t, s, env)
    ensures forall x: Tri :: Text(SimplifiedTable(t), s, x) == Text(t, s, x)
  {
    assert TypedSymbol(SimplifiedTable(t), s) <==> TypedSymbol(t, s);
  }

  lemma SimplifiedValue(t: Table, d: Dep, env: seq<Tri>, cs: set<Symbol>)
    requires WellTyped(Under(t, env)) && ConstantsDistinct(Under(t, env), cs) && MentionsDep(d, cs)
    ensures EvalDep(Simplified(d), Under(SimplifiedTable(t), env)) == EvalDep(d, Under(t, env))
  {
    if d.Dep? {
      var e := Transform(d.e);
      TransformMentions(d.e, cs);
      TransformSound(d.e, Under(t, env));
      EliminateDupsSound(e, Under(t, env), cs);
      SameUnder(t, EliminateDups(e), env);
    }
  }

  /** Every condition of a declaration compares only with these constants. */
  ghost predicate MentionsDecl(d: Decl, cs: set<Symbol>) {
    && MentionsDep(d.dirDep, cs) && MentionsDep(d.revDep, cs) && MentionsDep(d.implied, cs)
    && forall k :: 0 <= k < |d.props| ==> MentionsDep(d.props[k].cond, cs)
  }

  /** Equal, or for a symbol that is not a tristate equal once m counts as y. */
  predicate SameFor(typ: SymType, x: Tri, y: Tri) {
    if typ == Tristate then x == y else Promote(x) == Promote(y)
  }

  lemma SimplifiedCondValue(t: Table, d: Dep, typ: SymType, env: seq<Tri>, cs: set<Symbol>)
    requires WellTyped(Under(t, env)) && ConstantsDistinct(Under(t, env), cs) && MentionsDep(d, cs)
    ensures SameFor(typ, EvalDep(SimplifiedCond(d, typ), Under(SimplifiedTable(t), env)), EvalDep(d, Under(t, env)))
  {
    SimplifiedValue(t, d, env, cs);
    if typ != Tristate && d.Dep? {
      var e := EliminateDups(Transform(d.e));
      TransformNormal(d.e);
      EliminateDupsNormal(Transform(d.e));
      NormalNoNegatedTest(e);
      TransBoolSound(e, Under(t, env));
      SameUnder(t, TransBool(e), env);
      SameUnder(t, e, env);
    }
  }

  lemma {:induction false} SimplifiedPropsValue(t: Table, ps: seq<Prop>, typ: SymType, env: seq<Tri>, cs: set<Symbol>)
    requires WellTyped(Under(t, env)) && ConstantsDistinct(Under(t, env), cs)
    requires forall k :: 0 <= k < |ps| ==> MentionsDep(ps[k].cond, cs)
    ensures SameFor(typ, Prompts(SimplifiedProps(ps, typ), Under(SimplifiedTable(t), env)), Prompts(ps, Under(t, env)))
    ensures SameFor(typ, FirstDefault(SimplifiedProps(ps, typ), Under(SimplifiedTable(t), env)), FirstDefault(ps, Under(t, env)))
  {
    if ps != [] {
      SimplifiedCondValue(t, ps[0].cond, typ, env, cs);
      if ps[0].Default? {
        SameUnder(t, ps[0].value, env);
      }
      SimplifiedPropsValue(t, ps[1..], typ, env, cs);
      assert SimplifiedProps(ps, typ)[1..] == SimplifiedProps(ps[1..], typ);
    }
  }

  lemma SimplifiedCompute(t: Table, d: Decl, user: Option<Tri>, env: seq<Tri>, cs: set<Symbol>)
    requires WellTyped(Under(t, env)) && ConstantsDistinct(Under(t, env), cs) && MentionsDecl(d, cs)
    ensures Compute(SimplifiedTable(t), SimplifiedDecl(d), user, env) == Compute(t, d, user, env)
  {
    SimplifiedValue(t, d.dirDep, env, cs);
    SimplifiedValue(t, d.revDep, env, cs);
    SimplifiedValue(t, d.implied, env, cs);
    SimplifiedPropsValue(t, d.props, d.typ, env, cs);
    var v, t', d' := Under(t, env), SimplifiedTable(t), SimplifiedDecl(d);
    var v' := Under(t', env);
    ComputeAssembled(t, d, user, env);
    ComputeAssembled(t', d', user, env);
    AssembledSame(TwoValued(t, d), d.typ, user, Prompts(d'.props, v'), Prompts(d.props, v), FirstDefault(d'.props, v'),
                  FirstDefault(d.props, v), EvalDep(d.dirDep, v), Selects(d.revDep, v), Selects(d.implied, v));
  }

  function Selects(d: Dep, v: Assignment): Tri {
    if d.Null? then 0 else Eval(d.e, v)
  }

  function Round(two: bool, x: Tri): Tri {
    if x == 1 && two then 2 else x
  }

  /** The value of a symbol from what its conditions evaluate to. */
  function Assembled(two: bool, user: Option<Tri>, prompts: Tri, def: Tri, dir: Tri, rev: Tri, imp: Tri): Value {
    var visible, dir', rev', imp' := Round(two, prompts), Round(two, dir), Round(two, rev), Round(two, imp);
    var wanted := if visible != 0 && user.Some? then Min(user.value, visible)
                  else if imp' != 0 then Min(Max(def, imp'), dir') else def;
    Value(visible, dir', rev', imp', Round(two, Selected(wanted, dir', rev')))
  }

  lemma ComputeAssembled(t: Table, d: Decl, user: Option<Tri>, env: seq<Tri>)
    ensures var v := Under(t, env);
            Compute(t, d, user, env) == Assembled(TwoValued(t, d), user, Prompts(d.props, v), FirstDefault(d.props, v),
                                                  EvalDep(d.dirDep, v), Selects(d.revDep, v), Selects(d.implied, v))
  {
  }

  /** Promoting prompts and defaults first or last makes no difference. */
  lemma AssembledSame(two: bool, typ: SymType, user: Option<Tri>, p': Tri, p: Tri, def': Tri, def: Tri, dir: Tri, rev: Tri, imp: Tri)
    requires SameFor(typ, p', p) && SameFor(typ, def', def) && (typ != Tristate ==> two)
    ensures Assembled(two, user, p', def', dir, rev, imp) == Assembled(two, user, p, def, dir, rev, imp)
  {
  }

  /** The simplified table has exactly the same solutions, where the constants it mentions can be told apart. */
  lemma SimplifiedSolutions(t: Table, user: seq<Option<Tri>>, sol: seq<Value>, cs: set<Symbol>)
    requires LettersCompare(t) && |sol| == |user| == |t.decls|
    requires forall i :: 0 <= i < |t.decls| ==> MentionsDecl(t.decls[i], cs)
    requires ConstantsDistinct(Under(t, Currs(sol)), cs)
    ensures Solution(t, user, sol) <==> Solution(SimplifiedTable(t), user, sol)
  {
    var env := Currs(sol);
    if Solution(t, user, sol) || Solution(SimplifiedTable(t), user, sol) {
      if Solution(t, user, sol) {
        SolutionProper(t, user, sol);
      } else {
        SolutionProper(SimplifiedTable(t), user, sol);
      }
      assert Proper(t, env);
      UnderWellTyped(t, env);
      forall i | 0 <= i < |sol|
        ensures Compute(SimplifiedTable(t), SimplifiedTable(t).decls[i], user[i], env) == Compute(t, t.decls[i], user[i], env)
      {
        SimplifiedCompute(t, t.decls[i], user[i], env, cs);
      }
    }
  }

  /** With no other constants than y, m and n there is no condition. */
  lemma SimplifiedSolutionsBuiltIn(t: Table, user: seq<Option<Tri>>, sol: seq<Value>)
    requires LettersCompare(t) && |sol| == |user| == |t.decls|
    requires forall i :: 0 <= i < |t.decls| ==> MentionsDecl(t.decls[i], {Yes, Mod, No})
    ensures Solution(t, user, sol) <==> Solution(SimplifiedTable(t), user, sol)
  {
    if Solution(t, user, sol) || Solution(SimplifiedTable(t), user, sol) {
      if Solution(t, user, sol) {
        SolutionProper(t, user, sol);
      } else {
        SolutionProper(SimplifiedTable(t), user, sol);
      }
      assert Proper(t, Currs(sol));
      UnderWellTyped(t, Currs(sol));
      BuiltInsDistinct(Under(t, Currs(sol)));
      SimplifiedSolutions(t, user, sol, {Yes, Mod, No});
    }
  }
}
