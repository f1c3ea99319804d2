/** sym_calc_value and friends: memoised evaluation with a VALID flag per symbol,
    and edits of user values. */
module SymbolValue {
  import opened KconfigExpr
  import opened SymbolTable
  import opened SymbolCheck

  /** The mutable part of a symbol. */
  datatype Cell = Cell(valid: bool, value: Value)

  class Engine {
    const t: Table
    /** def[S_DEF_USER], present when SYMBOL_DEF_USER is set. */
    var user: seq<Option<Tri>>
    var cells: seq<Cell>
    /** The solution of the defining equations for the current user values. */
    ghost var sol: seq<Value>
    ghost const rank: seq<nat>

    ghost predicate Valid()
      reads this
    {
      && WellFormed(t) && Logical(t) && Ranked(t, rank) && |cells| == |t.decls| && Solution(t, user, sol)
    }

    /** Every symbol flagged valid, except those being calculated, caches its solution. */
    ghost predicate Coherent(open: set<nat>)
      reads this
      requires |cells| == |sol|
    {
      forall i :: 0 <= i < |cells| && cells[i].valid && i !in open ==> cells[i].value == sol[i]
    }

    /** The symbols being calculated are flagged already and rank above everything still read. */
    ghost predicate OpenAbove(open: set<nat>, bound: nat)
      reads this
      requires |cells| == |rank|
    {
      forall i :: i in open ==> i < |cells| && cells[i].valid && bound <= rank[i]
    }

    ghost predicate Below(s: set<nat>, bound: nat) {
      forall j :: j in s ==> j < |rank| && rank[j] < bound
    }

    /** Starts with nothing calculated. */
    constructor (table: Table, values: seq<Option<Tri>>, ghost ranking: seq<nat>)
      requires WellFormed(table) && Logical(table) && Ranked(table, ranking) && |values| == |table.decls|
      ensures t == table && rank == ranking && user == values && Valid() && Coherent({})
    {
      t, rank, user := table, ranking, values;
      cells := seq(|table.decls|, _ => Cell(false, Value(0, 0, 0, 0, 0)));
      ghost var s := SolutionExists(table, ranking, values);
      sol := s;
    }

    /** expr_calc_value. */
    method CalcExpr(d: Dep, ghost open: set<nat>, ghost bound: nat) returns (tri: Tri)
      requires Valid() && Coherent(open) && OpenAbove(open, bound)
      requires Below(DepSymbols(d), bound) && TypedDep(t, d)
      modifies this`cells
      ensures Valid() && Coherent(open)
      ensures forall i :: 0 <= i < |cells| && old(cells)[i].valid ==> cells[i] == old(cells)[i]
      ensures tri == EvalDep(d, Under(t, Currs(sol)))
      decreases bound, 0, if d.Null? then 0 else Size(d.e)
    {
      if d.Null? {
        return 2;
      }
      assert Below(Symbols(d.e), bound);
      match d.e
      case Sym(s) =>
        tri := CalcSymbol(s, open, bound);
      case Join(op, l, r) =>
        var x := CalcExpr(Dep(l), open, bound);
        var y := CalcExpr(Dep(r), open, bound);
        tri := Apply(op, x, y);
      case Not(a) =>
        var x := CalcExpr(Dep(a), open, bound);
        tri := 2 - x;
      case Cmp(rel, l, r) =>
        var x := CalcSymbol(l, open, bound);
        var y := CalcSymbol(r, open, bound);
        var res := t.compare(l.Type(), Text(t, l, x), r.Type(), Text(t, r, y));
        tri := if Holds(rel, res) then 2 else 0;
    }

    /** sym_calc_value followed by reading curr.tri; constants are always valid. */
    method CalcSymbol(s: Symbol, ghost open: set<nat>, ghost bound: nat) returns (tri: Tri)
      requires Valid() && Coherent(open) && OpenAbove(open, bound)
      requires Below(SymbolId(s), bound) && TypedSymbol(t, s)
      modifies this`cells
      ensures Valid() && Coherent(open)
      ensures forall i :: 0 <= i < |cells| && old(cells)[i].valid ==> cells[i] == old(cells)[i]
      ensures tri == Eval(Sym(s), Under(t, Currs(sol)))
      decreases bound, 0, 0
    {
      if s.Config? {
        assert s.id in SymbolId(s);
        CalcValue(s.id, open);
        tri := cells[s.id].value.curr;
      } else {
        tri := TriOf(s);
      }
    }

    /** sym_calc_visibility: the best prompt, and the three kinds of dependencies. */
    method CalcVisibility(i: nat, ghost open: set<nat>)
      requires Valid() && i < |cells| && i in open && Coherent(open) && OpenAbove(open, rank[i])
      modifies this`cells
      ensures Valid() && Coherent(open) && cells[i].valid
      ensures forall k :: 0 <= k < |cells| && k != i && old(cells)[k].valid ==> cells[k] == old(cells)[k]
      ensures cells[i].value == sol[i].(curr := old(cells)[i].value.curr)
      decreases rank[i], 2
    {
      var tri := CalcPrompts(i, open);
      Store(i, cells[i].value.(visible := Rounded(t, t.decls[i], tri)), open);
      CalcDeps(i, open);
    }

    /** The direct, reverse and implied dependencies. */
    method CalcDeps(i: nat, ghost open: set<nat>)
      requires Valid() && i < |cells| && i in open && Coherent(open) && OpenAbove(open, rank[i])
      modifies this`cells
      ensures Valid() && Coherent(open) && cells[i].valid
      ensures forall k :: 0 <= k < |cells| && k != i && old(cells)[k].valid ==> cells[k] == old(cells)[k]
      ensures cells[i].value == old(cells)[i].value.(dir := sol[i].dir, rev := sol[i].rev, imp := sol[i].imp)
      decreases rank[i], 1
    {
      var d := t.decls[i];
      var tri := CalcExpr(d.dirDep, open, rank[i]);
      Store(i, cells[i].value.(dir := Rounded(t, d, tri)), open);
      tri := 0;
      if d.revDep.Dep? {
        tri := CalcExpr(d.revDep, open, rank[i]);
      }
      Store(i, cells[i].value.(rev := Rounded(t, d, tri)), open);
      tri := 0;
      if d.implied.Dep? {
        tri := CalcExpr(d.implied, open, rank[i]);
      }
      Store(i, cells[i].value.(imp := Rounded(t, d, tri)), open);
    }

    /** A write to the fields of a symbol being calculated. */
    method Store(i: nat, value: Value, ghost open: set<nat>)
      requires Valid() && i < |cells| && i in open && cells[i].valid && Coherent(open)
      modifies this`cells
      ensures Valid() && Coherent(open) && cells == old(cells)[i := Cell(true, value)]
    {
      cells := cells[i := Cell(true, value)];
    }

    method CalcPrompts(i: nat, ghost open: set<nat>) returns (tri: Tri)
      requires Valid() && i < |cells| && Coherent(open) && OpenAbove(open, rank[i])
      modifies this`cells
      ensures Valid() && Coherent(open)
      ensures forall k :: 0 <= k < |cells| && old(cells)[k].valid ==> cells[k] == old(cells)[k]
      ensures tri == Prompts(t.decls[i].props, Under(t, Currs(sol)))
      decreases rank[i], 1, 0
    {
      var ps := t.decls[i].props;
      ghost var v := Under(t, Currs(sol));
      tri := 0;
      for k := 0 to |ps|
        invariant Valid() && Coherent(open) && OpenAbove(open, rank[i])
        invariant forall j :: 0 <= j < |cells| && old(cells)[j].valid ==> cells[j] == old(cells)[j]
        invariant Prompts(ps, v) == Max(tri, Prompts(ps[k..], v))
      {
        PropsSymbolsAt(ps, k);
        assert ps[k..][0] == ps[k] && ps[k..][1..] == ps[k + 1..];
        if ps[k].Prompt? {
          var x := CalcExpr(ps[k].cond, open, rank[i]);
          tri := Max(tri, x);
        }
      }
    }

    /** sym_get_default_prop and its value: the first default whose condition holds. */
    method CalcDefault(i: nat, ghost open: set<nat>) returns (tri: Tri)
      requires Valid() && i < |cells| && Coherent(open) && OpenAbove(open, rank[i])
      modifies this`cells
      ensures Valid() && Coherent(open)
      ensures forall k :: 0 <= k < |cells| && old(cells)[k].valid ==> cells[k] == old(cells)[k]
      ensures tri == FirstDefault(t.decls[i].props, Under(t, Currs(sol)))
      decreases rank[i], 1, 0
    {
      var ps := t.decls[i].props;
      ghost var v := Under(t, Currs(sol));
      for k := 0 to |ps|
        invariant Valid() && Coherent(open) && OpenAbove(open, rank[i])
        invariant forall j :: 0 <= j < |cells| && old(cells)[j].valid ==> cells[j] == old(cells)[j]
        invariant FirstDefault(ps, v) == FirstDefault(ps[k..], v)
      {
        PropsSymbolsAt(ps, k);
        assert ps[k..][0] == ps[k] && ps[k..][1..] == ps[k + 1..];
        if ps[k].Default? {
          var cond := CalcExpr(ps[k].cond, open, rank[i]);
          if cond != 0 {
            var x := CalcExpr(Dep(ps[k].value), open, rank[i]);
            return Min(x, cond);
          }
        }
      }
      return 0;
    }

    /** sym_calc_value. The symbol is flagged valid before its value is known; on a
        ranked table nothing reads it in between. */
    method CalcValue(i: nat, ghost open: set<nat>)
      requires Valid() && i < |cells| && i !in open && Coherent(open) && OpenAbove(open, rank[i] + 1)
      modifies this`cells
      ensures Valid() && Coherent(open)
      ensures forall k :: 0 <= k < |cells| && old(cells)[k].valid ==> cells[k] == old(cells)[k]
      ensures cells[i] == Cell(true, sol[i])
      decreases rank[i], 3
    {
      if cells[i].valid {
        return;
      }
      ghost var inner := open + {i};
      cells := cells[i := cells[i].(valid := true)];
      CalcVisibility(i, inner);
      Store(i, cells[i].value.(curr := 0), inner);
      var w := cells[i].value;
      var newval: Tri := 0;
      if w.visible != 0 && user[i].Some? {
        newval := Min(user[i].value, w.visible);
      } else {
        newval := CalcDefault(i, inner);
        if w.imp != 0 {
          newval := Max(newval, w.imp);
          newval := Min(newval, w.dir);
        }
      }
      if w.dir == 0 && w.rev != 0 {
        newval := 0;
      } else {
        newval := Max(newval, w.rev);
      }
      newval := Rounded(t, t.decls[i], newval);
      Store(i, w.(curr := newval), inner);
      assert cells[i].value == sol[i];
    }

    /** sym_calc_value from outside, and the value it leaves. */
    method TristateOf(i: nat) returns (tri: Tri)
      requires Valid() && Coherent({}) && i < |t.decls|
      modifies this`cells
      ensures Valid() && Coherent({}) && tri == sol[i].curr
    {
      CalcValue(i, {});
      tri := cells[i].value.curr;
    }

    /** Queries in any order, with repetitions. */
    method Answer(queries: seq<nat>) returns (answers: seq<Tri>)
      requires Valid() && Coherent({}) && forall k :: 0 <= k < |queries| ==> queries[k] < |t.decls|
      modifies this`cells
      ensures Valid() && Coherent({}) && |answers| == |queries|
      ensures forall k :: 0 <= k < |queries| ==> answers[k] == sol[queries[k]].curr
    {
      answers := [];
      for k := 0 to |queries|
        invariant Valid() && Coherent({}) && |answers| == k
        invariant forall m :: 0 <= m < k ==> answers[m] == sol[queries[m]].curr
      {
        var tri := TristateOf(queries[k]);
        answers := answers + [tri];
      }
    }

    /** sym_clear_all_valid. */
    method ClearAllValid()
      requires Valid()
      modifies this`cells
      ensures Valid() && Coherent({}) && forall i :: 0 <= i < |cells| ==> !cells[i].valid
    {
      cells := seq(|cells|, i requires 0 <= i < |cells| reads this => cells[i].(valid := false));
    }

    /** sym_set_tristate_value: the new user value, or a refusal. */
    method SetTristate(i: nat, val: Tri) returns (ok: bool)
      requires Valid() && Coherent({}) && i < |cells| && cells[i].valid
      modifies this
      ensures Valid()
      ensures ok <==> val == old(sol)[i].curr || WithinRange(t, t.decls[i], old(sol)[i], val)
      ensures !ok ==> user == old(user) && cells == old(cells) && sol == old(sol)
      ensures ok ==> user == old(user)[i := Some(val)]
      // A changed value is what recalculation gives, unless a select hits failed dependencies.
      ensures ok && val != old(sol)[i].curr ==> Coherent({}) && forall k :: 0 <= k < |cells| ==> !cells[k].valid
      ensures ok && val != old(sol)[i].curr ==> (sol[i].curr == val <==> old(sol)[i].dir != 0 || old(sol)[i].rev == 0)
      ensures ok && val != old(sol)[i].curr && PromptsNeedDeps(t, t.decls[i]) ==> sol[i].curr == val
      // Confirming the present value keeps it and the cache, unless it exceeds an m prompt.
      ensures ok && val == old(sol)[i].curr ==> cells == old(cells)
      ensures ok && val == old(sol)[i].curr ==>
                (sol[i].curr == val <==> !(old(sol)[i].visible == 1 && val == 2 && old(sol)[i].rev != 2))
      ensures ok && val == old(sol)[i].curr && sol[i].curr == val ==> sol == old(sol) && Coherent({})
    {
      var oldval := cells[i].value.curr;
      if oldval != val && !WithinRange(t, t.decls[i], cells[i].value, val) {
        return false;
      }
      ghost var was, before := user, sol;
      user := user[i := Some(val)];
      sol := SolutionExists(t, rank, user);
      EditedValue(t, rank, was, before, i, val, user, sol);
      if oldval != val {
        ClearAllValid();
        NewValueTaken(t, t.decls[i], before[i], val);
        if PromptsNeedDeps(t, t.decls[i]) {
          SolutionProper(t, was, before);
          VisibleNeedsDeps(t, t.decls[i], was[i], Currs(before));
        }
      } else {
        SameValueTaken(t, t.decls[i], was[i], Currs(before), val);
        if sol[i].curr == val {
          assert Solution(t, user, before) by {
            assert before[i] == Compute(t, t.decls[i], user[i], Currs(before));
          }
          SolutionUnique(t, rank, user, before, sol);
        }
      }
      return true;
    }
  }

  /** sym_tristate_within_range. */
  predicate WithinRange(t: Table, d: Decl, w: Value, val: Tri) {
    && w.visible != 0
    && !(TwoValued(t, d) && val == 1)
    && w.visible > w.rev
    && w.rev <= val <= w.visible
  }

  /** A visible prompt has the symbol's own dependencies met, as menu_finalize arranges. */
  ghost predicate PromptsNeedDeps(t: Table, d: Decl) {
    forall env: seq<Tri> ::
      Proper(t, env) && Prompts(d.props, Under(t, env)) != 0 ==> EvalDep(d.dirDep, Under(t, env)) != 0
  }

  lemma VisibleNeedsDeps(t: Table, d: Decl, user: Option<Tri>, env: seq<Tri>)
    requires PromptsNeedDeps(t, d) && Proper(t, env)
    ensures Compute(t, d, user, env).visible != 0 ==> Compute(t, d, user, env).dir != 0
  {
    assert Prompts(d.props, Under(t, env)) != 0 ==> EvalDep(d.dirDep, Under(t, env)) != 0;
  }

  /** Editing one symbol changes nothing it depends on: only its final value is recomputed. */
  lemma EditedValue(t: Table, rank: seq<nat>, user: seq<Option<Tri>>, sol: seq<Value>, i: nat, val: Tri,
                    user': seq<Option<Tri>>, sol': seq<Value>)
    requires Ranked(t, rank) && Solution(t, user, sol) && i < |sol|
    requires user' == user[i := Some(val)] && Solution(t, user', sol')
    ensures sol'[i] == Compute(t, t.decls[i], Some(val), Currs(sol))
  {
    forall j | j in Deps(t.decls[i]) && j < |sol| ensures Currs(sol)[j] == Currs(sol')[j] {
      SolutionsAgreeBelow(t, rank, user, sol, user', sol', rank[i], j);
    }
    ComputeAgree(t, t.decls[i], Some(val), Currs(sol), Currs(sol'));
  }

  /** A value inside the range survives the limits, except when dependencies fail under a select. */
  lemma NewValueTaken(t: Table, d: Decl, w: Value, val: Tri)
    requires WithinRange(t, d, w, val)
    ensures Rounded(t, d, Selected(Min(val, w.visible), w.dir, w.rev)) == val <==> w.dir != 0 || w.rev == 0
  {
  }

  /** Making the present value the user's value. */
  lemma SameValueTaken(t: Table, d: Decl, user: Option<Tri>, env: seq<Tri>, val: Tri)
    requires Compute(t, d, user, env).curr == val
    ensures var w := Compute(t, d, user, env);
            Compute(t, d, Some(val), env).curr == val <==> !(w.visible == 1 && val == 2 && w.rev != 2)
  {
  }

  /** A table of one tristate. */
  function Single(props: seq<Prop>, dirDep: Dep, revDep: Dep): Table {
    Table([Decl(Tristate, props, dirDep, revDep, Null)], 2, (lt: SymType, l: string, rt: SymType, r: string) => 0)
  }

  /** What a symbol of such a table works out to when its conditions mention no symbol. */
  lemma SingleSolution(t: Table, user: Option<Tri>, w: Value)
    requires |t.decls| == 1 && Deps(t.decls[0]) == {} && w == Compute(t, t.decls[0], user, [0])
    ensures Solution(t, [user], [w])
  {
    ComputeAgree(t, t.decls[0], user, [0], Currs([w]));
  }

  lemma SingleAcyclic(props: seq<Prop>, dirDep: Dep, revDep: Dep)
    requires var t := Single(props, dirDep, revDep); TypedDecl(t, t.decls[0]) && Deps(t.decls[0]) == {}
    ensures WellFormed(Single(props, dirDep, revDep)) && Acyclic(Single(props, dirDep, revDep))
  {
    RankedAcyclic(Single(props, dirDep, revDep), [0]);
  }

  /** A visible symbol whose dependencies fail and that something selects as m: y is accepted, but the symbol becomes n. */
  lemma SelectedWithoutDeps() returns (t: Table, sol: seq<Value>, sol': seq<Value>)
    ensures WellFormed(t) && Logical(t) && Acyclic(t) && Solution(t, [None], sol) && Solution(t, [Some(2)], sol')
    ensures WithinRange(t, t.decls[0], sol[0], 2) && sol[0].curr != 2 && sol'[0].curr == 0
  {
    var p := [Prompt(Null)];
    t := Single(p, Dep(Sym(No)), Dep(Sym(Mod)));
    assert p[1..] == [];
    assert Prompts(p, Under(t, [0])) == 2;
    sol, sol' := [Value(2, 0, 1, 0, 0)], [Value(2, 0, 1, 0, 0)];
    assert FirstDefault(p, Under(t, [0])) == 0;
    SingleSolution(t, None, sol[0]);
    SingleSolution(t, Some(2), sol'[0]);
    SingleAcyclic(p, Dep(Sym(No)), Dep(Sym(Mod)));
  }

  /** A prompt that is only m and a default of y: confirming the y makes the symbol m. */
  lemma ConfirmedHalf() returns (t: Table, sol: seq<Value>, sol': seq<Value>)
    ensures WellFormed(t) && Logical(t) && Acyclic(t) && Solution(t, [None], sol) && Solution(t, [Some(2)], sol')
    ensures sol[0].curr == 2 && sol'[0].curr == 1
  {
    var p := [Prompt(Dep(Sym(Mod))), Default(Null, Sym(Yes))];
    t := Single(p, Null, Null);
    assert p[1..] == [p[1]] && p[1..][1..] == [];
    assert Prompts(p[1..], Under(t, [0])) == 0 && Prompts(p, Under(t, [0])) == 1;
    assert FirstDefault(p[1..], Under(t, [0])) == 2 && FirstDefault(p, Under(t, [0])) == 2;
    sol, sol' := [Value(1, 2, 0, 0, 2)], [Value(1, 2, 0, 0, 1)];
    SingleSolution(t, None, sol[0]);
    SingleSolution(t, Some(2), sol'[0]);
    SingleAcyclic(p, Null, Null);
  }

  /** A whole session: check the table, then query symbols in any order, with repetitions. */
  method Session(t: Table, user: seq<Option<Tri>>, queries: seq<nat>) returns (ok: bool, answers: seq<Tri>)
    requires WellFormed(t) && Logical(t) && |user| == |t.decls|
    requires forall k :: 0 <= k < |queries| ==> queries[k] < |t.decls|
    ensures ok <==> Acyclic(t)
    ensures ok ==> |answers| == |queries|
    ensures ok ==> forall sol: seq<Value> :: Solution(t, user, sol) ==>
              forall k :: 0 <= k < |queries| ==> answers[k] == sol[queries[k]].curr
  {
    var checker := new Checker(t, true);
    var errors := checker.CheckAll();
    ok, answers := errors == 0, [];
    if !ok {
      return;
    }
    ghost var rank :| Ranked(t, rank);
    ghost var sol;
    answers, sol := Query(t, user, rank, queries);
    forall other | Solution(t, user, other) ensures other == sol {
      SolutionUnique(t, rank, user, other, sol);
    }
  }

  /** A fresh engine answers everything from one solution. */
  method Query(t: Table, user: seq<Option<Tri>>, ghost rank: seq<nat>, queries: seq<nat>)
    returns (answers: seq<Tri>, ghost sol: seq<Value>)
    requires WellFormed(t) && Logical(t) && |user| == |t.decls| && Ranked(t, rank)
    requires forall k :: 0 <= k < |queries| ==> queries[k] < |t.decls|
    ensures Solution(t, user, sol) && |answers| == |queries|
    ensures forall k :: 0 <= k < |queries| ==> answers[k] == sol[queries[k]].curr
  {
    var engine := new Engine(t, user, rank);
    sol := engine.sol;
    answers := engine.Answer(queries);
  }
}
