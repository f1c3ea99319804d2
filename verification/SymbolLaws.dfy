/** What the values of a solution mean, read off the conditions of the declaration. */
module SymbolLaws {
  import opened KconfigExpr
  import opened ExprTransform
  import opened SymbolTable
  import V = SymbolValue
  import M = MenuSubmenu

  /** m counts as y where m is not available. */
  function Raised(noM: bool, x: Tri): Tri {
    if noM then Promote(x) else x
  }

  /** k is the first default whose condition is not n. */
  ghost predicate FirstActive(ps: seq<Prop>, v: Assignment, k: nat) {
    && k < |ps| && ps[k].Default? && EvalDep(ps[k].cond, v) != 0
    && forall j :: 0 <= j < k && ps[j].Default? ==> EvalDep(ps[j].cond, v) == 0
  }

  ghost predicate NoneActive(ps: seq<Prop>, v: Assignment) {
    forall j :: 0 <= j < |ps| && ps[j].Default? ==> EvalDep(ps[j].cond, v) == 0
  }

  /** The default that counts is the first whose condition holds, and the condition limits it. */
  lemma {:induction false} DefaultValue(ps: seq<Prop>, v: Assignment) returns (k: nat)
    ensures if NoneActive(ps, v) then FirstDefault(ps, v) == 0
            else FirstActive(ps, v, k) && FirstDefault(ps, v) == Min(Eval(ps[k].value, v), EvalDep(ps[k].cond, v))
  {
    k := 0;
    if ps != [] && !(ps[0].Default? && EvalDep(ps[0].cond, v) != 0) {
      var j := DefaultValue(ps[1..], v);
      k := j + 1;
      assert forall i :: 0 < i < |ps| ==> ps[1..][i - 1] == ps[i];
      assert NoneActive(ps[1..], v) <==> NoneActive(ps, v);
    }
  }

  /** Prompts are as visible as the best of them. */
  lemma {:induction false} BestPrompt(ps: seq<Prop>, v: Assignment) returns (k: nat)
    ensures forall j :: 0 <= j < |ps| && ps[j].Prompt? ==> EvalDep(ps[j].cond, v) <= Prompts(ps, v)
    ensures Prompts(ps, v) != 0 ==> k < |ps| && ps[k].Prompt? && EvalDep(ps[k].cond, v) == Prompts(ps, v)
  {
    k := 0;
    if ps != [] {
      var j := BestPrompt(ps[1..], v);
      assert forall i :: 0 < i < |ps| ==> ps[1..][i - 1] == ps[i];
      if !ps[0].Prompt? || EvalDep(ps[0].cond, v) < Prompts(ps[1..], v) {
        k := j + 1;
      }
    }
  }

  /** Visibility: none without a prompt that holds; y from a y prompt, or from an m prompt where m is not available. */
  lemma VisibleMeans(t: Table, user: seq<Option<Tri>>, sol: seq<Value>, i: nat)
    requires Solution(t, user, sol) && i < |sol|
    ensures var d, v := t.decls[i], Under(t, Currs(sol));
            var noM := d.typ != Tristate || t.modules == 0;
            && (forall k :: 0 <= k < |d.props| && d.props[k].Prompt? ==> Raised(noM, EvalDep(d.props[k].cond, v)) <= sol[i].visible)
            && (sol[i].visible != 0 ==> exists k :: 0 <= k < |d.props| && d.props[k].Prompt?
                                                    && Raised(noM, EvalDep(d.props[k].cond, v)) == sol[i].visible)
  {
    var k := BestPrompt(t.decls[i].props, Under(t, Currs(sol)));
  }

  /** The direct dependency is y when absent, the reverse and implied ones are n. */
  lemma DependenciesMean(t: Table, user: seq<Option<Tri>>, sol: seq<Value>, i: nat)
    requires Solution(t, user, sol) && i < |sol|
    ensures var d, v := t.decls[i], Under(t, Currs(sol));
            var noM := d.typ != Tristate || t.modules == 0;
            && sol[i].dir == (match d.dirDep case Null => 2 case Dep(e) => Raised(noM, Eval(e, v)))
            && sol[i].rev == (match d.revDep case Null => 0 case Dep(e) => Raised(noM, Eval(e, v)))
            && sol[i].imp == (match d.implied case Null => 0 case Dep(e) => Raised(noM, Eval(e, v)))
  {
  }

  /** The user's value is taken as far as the prompt is visible, when nothing selects the symbol. */
  lemma UserTaken(t: Table, user: seq<Option<Tri>>, sol: seq<Value>, i: nat)
    requires Solution(t, user, sol) && i < |sol| && user[i].Some? && sol[i].visible != 0 && sol[i].rev == 0
    ensures sol[i].curr == Raised(t.decls[i].typ != Tristate || t.modules == 0, Min(user[i].value, sol[i].visible))
  {
  }

  /** Without a visible user value, and with nothing selecting or implying the symbol, it is its first active default. */
  lemma DefaultTaken(t: Table, user: seq<Option<Tri>>, sol: seq<Value>, i: nat) returns (k: nat)
    requires Solution(t, user, sol) && i < |sol| && (user[i].None? || sol[i].visible == 0) && sol[i].rev == 0 && sol[i].imp == 0
    ensures var d, v := t.decls[i], Under(t, Currs(sol));
            if NoneActive(d.props, v) then sol[i].curr == 0
            else FirstActive(d.props, v, k)
                 && sol[i].curr == Raised(d.typ != Tristate || t.modules == 0,
                                          Min(Eval(d.props[k].value, v), EvalDep(d.props[k].cond, v)))
  {
    k := DefaultValue(t.decls[i].props, Under(t, Currs(sol)));
  }

  /** An imply raises the default, as far as the symbol's own dependency allows. */
  lemma ImplyTaken(t: Table, user: seq<Option<Tri>>, sol: seq<Value>, i: nat) returns (k: nat)
    requires Solution(t, user, sol) && i < |sol| && (user[i].None? || sol[i].visible == 0) && sol[i].rev == 0 && sol[i].imp != 0
    ensures var d, v := t.decls[i], Under(t, Currs(sol));
            var noM := d.typ != Tristate || t.modules == 0;
            if NoneActive(d.props, v) then sol[i].curr == Raised(noM, Min(sol[i].imp, sol[i].dir))
            else FirstActive(d.props, v, k)
                 && sol[i].curr == Raised(noM, Min(Max(Min(Eval(d.props[k].value, v), EvalDep(d.props[k].cond, v)), sol[i].imp),
                                                   sol[i].dir))
  {
    k := DefaultValue(t.decls[i].props, Under(t, Currs(sol)));
  }

  /** A select raises the value to its own, and leaves n where the symbol's own dependency fails. */
  lemma SelectRaises(t: Table, d: Decl, user: Option<Tri>, env: seq<Tri>)
    ensures var w, alone := Compute(t, d, user, env), Compute(t, d.(revDep := Null), user, env);
            w.curr == if w.rev == 0 then alone.curr else if w.dir == 0 then 0 else Max(alone.curr, w.rev)
  {
  }

  /** For a visible symbol that no select holds at its visibility, the values in range are exactly those that survive. */
  lemma RangeExact(t: Table, d: Decl, user: Option<Tri>, env: seq<Tri>, val: Tri)
    requires var w := Compute(t, d, user, env); w.visible > w.rev && (w.dir != 0 || w.rev == 0)
    ensures V.WithinRange(t, d, Compute(t, d, user, env), val) <==> Compute(t, d, Some(val), env).curr == val
  {
  }

  // ---- what a declaration depends on ---------------------------------------

  lemma {:induction false} SymbolsAre(e: Expr, s: Symbol)
    requires s.Config?
    ensures M.Contains(e, s) ==> s.id in Symbols(e)
    ensures s.id in Symbols(e) ==> exists r: Symbol :: r.Config? && r.id == s.id && M.Contains(e, r)
  {
    match e
    case Not(a) => SymbolsAre(a, s);
    case Join(_, l, r) =>
      SymbolsAre(l, s);
      SymbolsAre(r, s);
      if s.id in Symbols(l) {
        var q: Symbol :| q.Config? && q.id == s.id && M.Contains(l, q);
        assert M.Contains(e, q);
      } else if s.id in Symbols(r) {
        var q: Symbol :| q.Config? && q.id == s.id && M.Contains(r, q);
        assert M.Contains(e, q);
      }
    case Sym(a) => assert M.Contains(e, a);
    case Cmp(_, l, r) => assert M.Contains(e, l) && M.Contains(e, r);
  }

  /** The edges of the dependency graph: every symbol named in a dependency, in the condition of any property, or in a
      default value, and no other. */
  lemma DependsOnNamed(d: Decl, j: nat)
    ensures j in Deps(d) <==>
              || (d.dirDep.Dep? && j in Symbols(d.dirDep.e)) || (d.revDep.Dep? && j in Symbols(d.revDep.e))
              || (d.implied.Dep? && j in Symbols(d.implied.e))
              || (exists k :: 0 <= k < |d.props| && d.props[k].cond.Dep? && j in Symbols(d.props[k].cond.e))
              || (exists k :: 0 <= k < |d.props| && d.props[k].Default? && j in Symbols(d.props[k].value))
  {
    PropsNamed(d.props, j);
  }

  lemma {:induction false} PropsNamed(ps: seq<Prop>, j: nat)
    ensures j in PropsSymbols(ps) <==>
              || (exists k :: 0 <= k < |ps| && ps[k].cond.Dep? && j in Symbols(ps[k].cond.e))
              || (exists k :: 0 <= k < |ps| && ps[k].Default? && j in Symbols(ps[k].value))
  {
    if ps != [] {
      PropsNamed(ps[1..], j);
      assert forall k :: 0 <= k < |ps| - 1 ==> ps[1..][k] == ps[k + 1];
      assert forall k :: 0 < k < |ps| ==> ps[1..][k - 1] == ps[k];
    }
  }
}
