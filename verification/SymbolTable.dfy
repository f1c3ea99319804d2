/** Config symbols without choices, and what the values of bools and tristates are. */
module SymbolTable {
  import opened KconfigExpr
  import opened ExprTransform

  /** A prompt, a default, or a property whose condition is only checked for cycles. */
  datatype Prop = Prompt(cond: Dep) | Default(cond: Dep, value: Expr) | Plain(cond: Dep)

  datatype Decl = Decl(typ: SymType, props: seq<Prop>, dirDep: Dep, revDep: Dep, implied: Dep)

  /** All declarations; the value of the modules symbol, computed beforehand; and the
      comparison of two string values of given types. */
  datatype Table = Table(decls: seq<Decl>, modules: Tri, compare: (SymType, string, SymType, string) -> int)

  /** What sym_calc_value leaves in a symbol. */
  datatype Value = Value(visible: Tri, dir: Tri, rev: Tri, imp: Tri, curr: Tri)

  function Symbols(e: Expr): set<nat> {
    match e
    case Sym(s) => SymbolId(s)
    case Not(a) => Symbols(a)
    case Join(_, l, r) => Symbols(l) + Symbols(r)
    case Cmp(_, l, r) => SymbolId(l) + SymbolId(r)
  }

  function SymbolId(s: Symbol): set<nat> {
    if s.Config? then {s.id} else {}
  }

  function DepSymbols(d: Dep): set<nat> {
    if d.Null? then {} else Symbols(d.e)
  }

  function PropSymbols(p: Prop): set<nat> {
    DepSymbols(p.cond) + if p.Default? then Symbols(p.value) else {}
  }

  function PropsSymbols(ps: seq<Prop>): set<nat> {
    if ps == [] then {} else PropSymbols(ps[0]) + PropsSymbols(ps[1..])
  }

  /** The symbols a declaration mentions: the edges of the dependency graph. */
  function Deps(d: Decl): set<nat> {
    DepSymbols(d.dirDep) + DepSymbols(d.revDep) + DepSymbols(d.implied) + PropsSymbols(d.props)
  }

  lemma {:induction false} PropsSymbolsAt(ps: seq<Prop>, k: nat)
    requires k < |ps|
    ensures PropSymbols(ps[k]) <= PropsSymbols(ps)
  {
    if k > 0 {
      PropsSymbolsAt(ps[1..], k - 1);
    }
  }

  /** A reference names a declared symbol by its declared type. */
  predicate TypedSymbol(t: Table, s: Symbol) {
    s.Config? ==> s.id < |t.decls| && s.typ == t.decls[s.id].typ
  }

  predicate Typed(t: Table, e: Expr) {
    match e
    case Sym(s) => TypedSymbol(t, s)
    case Not(a) => Typed(t, a)
    case Join(_, l, r) => Typed(t, l) && Typed(t, r)
    case Cmp(_, l, r) => TypedSymbol(t, l) && TypedSymbol(t, r)
  }

  predicate TypedDep(t: Table, d: Dep) {
    d.Null? || Typed(t, d.e)
  }

  ghost predicate TypedDecl(t: Table, d: Decl) {
    && TypedDep(t, d.dirDep) && TypedDep(t, d.revDep) && TypedDep(t, d.implied)
    && forall k :: 0 <= k < |d.props| ==>
         TypedDep(t, d.props[k].cond) && (d.props[k].Default? ==> Typed(t, d.props[k].value))
  }

  /** References stay inside the table. */
  ghost predicate WellFormed(t: Table) {
    && (forall i, j :: 0 <= i < |t.decls| && j in Deps(t.decls[i]) ==> j < |t.decls|)
    && (forall i :: 0 <= i < |t.decls| ==> TypedDecl(t, t.decls[i]))
  }

  /** Every symbol is a bool or a tristate. */
  ghost predicate Logical(t: Table) {
    forall i :: 0 <= i < |t.decls| ==> t.decls[i].typ == Boolean || t.decls[i].typ == Tristate
  }

  /** The string value of a bool or tristate. */
  function Letter(t: Table, x: Tri): string {
    if x == 0 then "n" else if x == 2 then "y" else if t.modules == 0 then "n" else "m"
  }

  /** curr.tri of any symbol, given the values of the declared ones. */
  function Current(t: Table, s: Symbol, env: seq<Tri>): Tri {
    if s.Config? then (if TypedSymbol(t, s) && s.id < |env| then env[s.id] else 0) else TriOf(s)
  }

  /** sym_get_string_value of a symbol whose tristate value is x. */
  function Text(t: Table, s: Symbol, x: Tri): string {
    match s
    case Config(_, _) => Letter(t, x)
    case Const(name) => name
    case Yes => "y"
    case Mod => "m"
    case No => "n"
  }

  /** The assignment a vector of current values gives rise to. */
  function Under(t: Table, env: seq<Tri>): Assignment {
    Assignment((s: Symbol) => Current(t, s, env),
               (l: Symbol, r: Symbol) =>
                 t.compare(l.Type(), Text(t, l, Current(t, l, env)), r.Type(), Text(t, r, Current(t, r, env))))
  }

  /** sym_get_type gives S_BOOLEAN: m is not available. */
  predicate TwoValued(t: Table, d: Decl) {
    d.typ != Tristate || t.modules == 0
  }

  function Rounded(t: Table, d: Decl, x: Tri): Tri {
    if x == 1 && TwoValued(t, d) then 2 else x
  }

  /** The best prompt condition. */
  function Prompts(ps: seq<Prop>, v: Assignment): Tri {
    if ps == [] then 0
    else Max(if ps[0].Prompt? then EvalDep(ps[0].cond, v) else 0, Prompts(ps[1..], v))
  }

  /** The first default whose condition holds, limited by it; n if there is none. */
  function FirstDefault(ps: seq<Prop>, v: Assignment): Tri {
    if ps == [] then 0
    else if ps[0].Default? && EvalDep(ps[0].cond, v) != 0 then Min(Eval(ps[0].value, v), EvalDep(ps[0].cond, v))
    else FirstDefault(ps[1..], v)
  }

  /** The value a symbol asks for before selects are applied. */
  function Wanted(d: Decl, user: Option<Tri>, visible: Tri, dir: Tri, imp: Tri, v: Assignment): Tri {
    if visible != 0 && user.Some? then Min(user.value, visible)
    else
      var def := FirstDefault(d.props, v);
      if imp != 0 then Min(Max(def, imp), dir) else def
  }

  /** Selects push the value up, unless the selected symbol's own dependencies fail. */
  function Selected(wanted: Tri, dir: Tri, rev: Tri): Tri {
    if dir == 0 && rev != 0 then 0 else Max(wanted, rev)
  }

  /** The defining equation of one symbol, given the values of all others. */
  function Compute(t: Table, d: Decl, user: Option<Tri>, env: seq<Tri>): Value {
    var v := Under(t, env);
    var visible := Rounded(t, d, Prompts(d.props, v));
    var dir := Rounded(t, d, EvalDep(d.dirDep, v));
    var rev := Rounded(t, d, if d.revDep.Null? then 0 else Eval(d.revDep.e, v));
    var imp := Rounded(t, d, if d.implied.Null? then 0 else Eval(d.implied.e, v));
    Value(visible, dir, rev, imp, Rounded(t, d, Selected(Wanted(d, user, visible, dir, imp, v), dir, rev)))
  }

  function Currs(sol: seq<Value>): (env: seq<Tri>)
    ensures |env| == |sol| && forall i :: 0 <= i < |sol| ==> env[i] == sol[i].curr
  {
    seq(|sol|, i requires 0 <= i < |sol| => sol[i].curr)
  }

  /** A solution satisfies every symbol's defining equation at once. */
  ghost predicate Solution(t: Table, user: seq<Option<Tri>>, sol: seq<Value>) {
    && |sol| == |user| == |t.decls|
    && forall i :: 0 <= i < |sol| ==> sol[i] == Compute(t, t.decls[i], user[i], Currs(sol))
  }

  /** No symbol without an m is m. */
  ghost predicate Proper(t: Table, env: seq<Tri>) {
    |env| == |t.decls| && forall i :: 0 <= i < |env| && TwoValued(t, t.decls[i]) ==> env[i] != 1
  }

  lemma SolutionProper(t: Table, user: seq<Option<Tri>>, sol: seq<Value>)
    requires Solution(t, user, sol)
    ensures Proper(t, Currs(sol))
  {
  }

  /** A ranking of the symbols along which every dependency descends. */
  ghost predicate Ranked(t: Table, rank: seq<nat>) {
    && |rank| == |t.decls|
    && forall i, j :: 0 <= i < |rank| && j in Deps(t.decls[i]) ==> j < |rank| && rank[j] < rank[i]
  }

  ghost predicate Agree(s: set<nat>, env1: seq<Tri>, env2: seq<Tri>) {
    |env1| == |env2| && forall j :: j in s && j < |env1| ==> env1[j] == env2[j]
  }

  /** An expression's value depends only on the symbols it mentions. */
  lemma {:induction false} EvalAgree(t: Table, e: Expr, env1: seq<Tri>, env2: seq<Tri>)
    requires Agree(Symbols(e), env1, env2)
    ensures Eval(e, Under(t, env1)) == Eval(e, Under(t, env2))
  {
    match e
    case Sym(s) => assert s.Config? ==> s.id in Symbols(e);
    case Not(a) => EvalAgree(t, a, env1, env2);
    case Join(_, l, r) =>
      EvalAgree(t, l, env1, env2);
      EvalAgree(t, r, env1, env2);
    case Cmp(_, l, r) =>
      assert l.Config? ==> l.id in Symbols(e);
      assert r.Config? ==> r.id in Symbols(e);
      assert Current(t, l, env1) == Current(t, l, env2) && Current(t, r, env1) == Current(t, r, env2);
  }

  lemma EvalDepAgree(t: Table, d: Dep, env1: seq<Tri>, env2: seq<Tri>)
    requires Agree(DepSymbols(d), env1, env2)
    ensures EvalDep(d, Under(t, env1)) == EvalDep(d, Under(t, env2))
  {
    if d.Dep? {
      EvalAgree(t, d.e, env1, env2);
    }
  }

  lemma {:induction false} PropsAgree(t: Table, ps: seq<Prop>, env1: seq<Tri>, env2: seq<Tri>)
    requires Agree(PropsSymbols(ps), env1, env2)
    ensures Prompts(ps, Under(t, env1)) == Prompts(ps, Under(t, env2))
    ensures FirstDefault(ps, Under(t, env1)) == FirstDefault(ps, Under(t, env2))
  {
    if ps != [] {
      EvalDepAgree(t, ps[0].cond, env1, env2);
      if ps[0].Default? {
        EvalAgree(t, ps[0].value, env1, env2);
      }
      PropsAgree(t, ps[1..], env1, env2);
    }
  }

  lemma ComputeAgree(t: Table, d: Decl, user: Option<Tri>, env1: seq<Tri>, env2: seq<Tri>)
    requires Agree(Deps(d), env1, env2)
    ensures Compute(t, d, user, env1) == Compute(t, d, user, env2)
  {
    EvalDepAgree(t, d.dirDep, env1, env2);
    EvalDepAgree(t, d.revDep, env1, env2);
    EvalDepAgree(t, d.implied, env1, env2);
    PropsAgree(t, d.props, env1, env2);
  }

  /** Two solutions whose user values agree up to a rank agree up to that rank. */
  lemma {:induction false} SolutionsAgreeBelow(t: Table, rank: seq<nat>, user1: seq<Option<Tri>>, sol1: seq<Value>,
                                               user2: seq<Option<Tri>>, sol2: seq<Value>, bound: nat, i: nat)
    requires Ranked(t, rank) && Solution(t, user1, sol1) && Solution(t, user2, sol2)
    requires forall k :: 0 <= k < |rank| && rank[k] < bound ==> user1[k] == user2[k]
    requires i < |rank| && rank[i] < bound
    ensures sol1[i] == sol2[i]
    decreases rank[i]
  {
    var deps := Deps(t.decls[i]);
    forall j | j in deps && j < |sol1| ensures Currs(sol1)[j] == Currs(sol2)[j] {
      SolutionsAgreeBelow(t, rank, user1, sol1, user2, sol2, bound, j);
    }
    ComputeAgree(t, t.decls[i], user1[i], Currs(sol1), Currs(sol2));
  }

  /** The equations of a ranked table have at most one solution. */
  lemma SolutionUnique(t: Table, rank: seq<nat>, user: seq<Option<Tri>>, sol1: seq<Value>, sol2: seq<Value>)
    requires Ranked(t, rank) && Solution(t, user, sol1) && Solution(t, user, sol2)
    ensures sol1 == sol2
  {
    forall i | 0 <= i < |sol1| ensures sol1[i] == sol2[i] {
      SolutionsAgreeBelow(t, rank, user, sol1, user, sol2, rank[i] + 1, i);
    }
  }

  /** The unmemoised recursive definition of a symbol's value. */
  ghost function Recursive(t: Table, rank: seq<nat>, user: seq<Option<Tri>>, i: nat): Value
    requires Ranked(t, rank) && |user| == |rank| && i < |rank|
    decreases rank[i]
  {
    var env: seq<Tri> := seq(|rank|, j requires 0 <= j < |rank| =>
      if j in Deps(t.decls[i]) then Recursive(t, rank, user, j).curr else 0);
    Compute(t, t.decls[i], user[i], env)
  }

  /** ... and one solution: the recursive definition. */
  lemma SolutionExists(t: Table, rank: seq<nat>, user: seq<Option<Tri>>) returns (sol: seq<Value>)
    requires Ranked(t, rank) && |user| == |rank|
    ensures Solution(t, user, sol)
    ensures forall i :: 0 <= i < |sol| ==> sol[i] == Recursive(t, rank, user, i)
  {
    sol := seq(|rank|, i requires 0 <= i < |rank| => Recursive(t, rank, user, i));
    forall i | 0 <= i < |sol| ensures sol[i] == Compute(t, t.decls[i], user[i], Currs(sol)) {
      var env: seq<Tri> := seq(|rank|, j requires 0 <= j < |rank| =>
        if j in Deps(t.decls[i]) then Recursive(t, rank, user, j).curr else 0);
      ComputeAgree(t, t.decls[i], user[i], env, Currs(sol));
    }
  }
}
