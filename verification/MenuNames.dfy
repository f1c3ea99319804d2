/** Where a propagated condition can have got the symbol of a choice from: the nearest choice around the node. */
module MenuNames {
  import opened KconfigExpr
  import opened ExprTransform
  import opened ExprJoin
  import opened ExprDups
  import opened MenuDeps
  import opened MenuSubmenu
  import F = MenuForest
  import P = MenuPush

  predicate ContainsDep(d: Dep, s: Symbol) {
    d.Dep? && Contains(d.e, s)
  }

  // ---- no rewriting introduces a config symbol -----------------------------

  lemma {:induction false} AllLacks(e: Expr, s: Symbol)
    ensures All(e, (x: Expr) => !Contains(x, s)) <==> !Contains(e, s)
  {
    if e.Join? {
      AllLacks(e.left, s);
      AllLacks(e.right, s);
    }
  }

  lemma {:induction false} TryJoinLacks(op: Junction, e1: Expr, e2: Expr, s: Symbol)
    requires s.Config? && !Contains(e1, s) && !Contains(e2, s) && TryJoin(op, e1, e2).Some?
    ensures !Contains(TryJoin(op, e1, e2).value, s)
  {
  }

  lemma {:induction false} LacksKept(s: Symbol)
    requires s.Config?
    ensures Kept((x: Expr) => !Contains(x, s))
  {
    var p := (x: Expr) => !Contains(x, s);
    forall op: Junction, e1: Expr, e2: Expr | All(e1, p) && All(e2, p) && TryJoin(op, e1, e2).Some?
      ensures All(TryJoin(op, e1, e2).value, p)
    {
      AllLacks(e1, s);
      AllLacks(e2, s);
      TryJoinLacks(op, e1, e2, s);
      AllLacks(TryJoin(op, e1, e2).value, s);
    }
  }

  lemma {:induction false} EliminateDupsLacks(e: Expr, s: Symbol)
    requires s.Config? && !Contains(e, s)
    ensures !Contains(EliminateDups(e), s)
  {
    LacksKept(s);
    AllLacks(e, s);
    EliminateDupsAll(e, (x: Expr) => !Contains(x, s));
    AllLacks(EliminateDups(e), s);
  }

  lemma {:induction false} TransformLacks(e: Expr, s: Symbol)
    requires s.Config? && !Contains(e, s)
    ensures !Contains(Transform(e), s)
    decreases Weight(e)
  {
    match e
    case Sym(_) =>
    case Cmp(_, _, _) =>
    case Join(_, l, r) =>
      TransformLacks(l, s);
      TransformLacks(r, s);
    case Not(a) =>
      WeightPositive(a);
      TransformLacks(a, s);
      match Transform(a)
      case Not(b) => TransformLacks(b, s);
      case Join(op, l, r) =>
        DeMorganLighter(op, l, r);
        TransformLacks(DeMorgan(op, l, r), s);
      case _ =>
  }

  lemma {:induction false} RewriteMLacks(e: Expr, modules: Symbol, s: Symbol)
    requires s != modules && !Contains(e, s)
    ensures !Contains(RewriteM(e, modules), s)
  {
    match e
    case Not(a) => RewriteMLacks(a, modules, s);
    case Join(_, l, r) =>
      RewriteMLacks(l, modules, s);
      RewriteMLacks(r, modules, s);
    case _ =>
  }

  lemma {:induction false} TransBoolLacks(e: Expr, s: Symbol)
    requires !Contains(e, s)
    ensures !Contains(TransBool(e), s)
  {
    match e
    case Not(a) => TransBoolLacks(a, s);
    case Join(_, l, r) =>
      TransBoolLacks(l, s);
      TransBoolLacks(r, s);
    case _ =>
  }

  lemma {:induction false} CombinedLacks(outer: Dep, own: Dep, modules: Symbol, s: Symbol)
    requires s.Config? && s != modules && !ContainsDep(outer, s) && !ContainsDep(own, s)
    ensures !ContainsDep(Combined(outer, own, modules), s)
  {
    if own.Dep? {
      RewriteMLacks(own.e, modules, s);
      TransformLacks(RewriteM(own.e, modules), s);
    }
    var d := AllocJoin(And, outer, Prepared(own, modules));
    if d.Dep? {
      EliminateDupsLacks(d.e, s);
    }
  }

  lemma {:induction false} PushedLacks(outer: Dep, info: Info, own: Conditions, modules: Symbol, s: Symbol)
    requires s.Config? && s != modules && !ContainsDep(outer, s) && Lacks(own, s)
    ensures Lacks(PushInto(outer, info, own, modules), s)
  {
    var base := Combined(outer, own.dep, modules);
    CombinedLacks(outer, own.dep, modules, s);
    forall k | 0 <= k < |own.props|
      ensures !ContainsDep(PropCondition(base, own.props[k], modules, TwoValuedNode(info)), s)
    {
      CombinedLacks(base, own.props[k], modules, s);
      var d := Combined(base, own.props[k], modules);
      if d.Dep? {
        TransBoolLacks(d.e, s);
      }
    }
  }

  /** None of these conditions names s. */
  predicate Lacks(c: Conditions, s: Symbol) {
    !ContainsDep(c.dep, s) && forall k :: 0 <= k < |c.props| ==> !ContainsDep(c.props[k], s)
  }

  // ---- the nearest choice --------------------------------------------------

  /** The conditions as written name s nowhere: it is the symbol of a choice, which the parser looks up nowhere else. */
  ghost predicate Unnamed(deps: seq<Conditions>, modules: Symbol, s: Symbol) {
    s.Config? && s != modules && forall i :: 0 <= i < |deps| ==> Lacks(deps[i], s)
  }

  /** Chain leads down to a node; position j in it is the nearest choice around that node, and its symbol is s. */
  ghost predicate GateAt(infos: seq<Info>, chain: seq<nat>, j: nat, s: Symbol) {
    && j < |chain| - 1 && chain[j] < |infos| && infos[chain[j]].isChoice && infos[chain[j]].sym == Some(s)
    && forall t :: j < t < |chain| - 1 && chain[t] < |infos| ==> !(infos[chain[t]].isChoice && infos[chain[t]].sym.Some?)
  }

  /** If a propagated condition names s after all, it comes from the nearest choice. */
  lemma {:induction false} NamesGate(infos: seq<Info>, modules: Symbol, f: F.Forest, deps: seq<Conditions>, pushed: seq<Conditions>,
                                     chain: seq<nat>, s: Symbol) returns (j: nat)
    requires Propagated(infos, modules, f, deps, pushed) && Chain(f, f.id, chain) && Unnamed(deps, modules, s)
    requires forall t :: 0 <= t < |chain| ==> chain[t] < |deps|
    requires !Lacks(pushed[chain[|chain| - 1]], s)
    ensures GateAt(infos, chain, j, s)
    decreases |chain|
  {
    var n := |chain| - 1;
    var i := chain[n];
    assert Lacks(deps[i], s);
    assert n > 0;
    var p := chain[n - 1];
    assert P.Encloses(f, chain[n - 1], chain[n - 1 + 1]);
    var outer := Outer(infos[p], pushed[p].dep);
    if !ContainsDep(outer, s) {
      PushedLacks(outer, infos[i], deps[i], modules, s);
    }
    if infos[p].isChoice && infos[p].sym.Some? {
      j := n - 1;
    } else {
      ChainPrefix(f, f.id, chain, n);
      j := NamesGate(infos, modules, f, deps, pushed, chain[..n], s);
    }
  }
}
