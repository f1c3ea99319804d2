/** sym_check_deps on tables without choices: depth-first search for a cycle in
    the dependency graph, with a CHECK flag for symbols being checked and a CHECKED
    flag for symbols ever visited. */
module SymbolCheck {
  import opened KconfigExpr
  import opened SymbolTable

  /** A walk along dependencies. */
  ghost predicate IsWalk(t: Table, p: seq<nat>) {
    && (forall k :: 0 <= k < |p| ==> p[k] < |t.decls|)
    && (forall k :: 0 <= k < |p| - 1 ==> p[k + 1] in Deps(t.decls[p[k]]))
  }

  /** A cycle is a walk of at least one step that returns to its start. */
  ghost predicate IsCycle(t: Table, p: seq<nat>) {
    |p| >= 2 && IsWalk(t, p) && p[0] == p[|p| - 1]
  }

  ghost predicate Acyclic(t: Table) {
    forall p :: !IsCycle(t, p)
  }

  /** Along a walk the rank descends, so a ranked table has no cycle. */
  lemma {:induction false} WalkDescends(t: Table, rank: seq<nat>, p: seq<nat>, k: nat)
    requires Ranked(t, rank) && IsWalk(t, p) && 0 < k < |p|
    ensures rank[p[k]] < rank[p[0]]
  {
    if k > 1 {
      WalkDescends(t, rank, p, k - 1);
    }
    assert p[k - 1 + 1] in Deps(t.decls[p[k - 1]]);
  }

  lemma RankedAcyclic(t: Table, rank: seq<nat>)
    requires Ranked(t, rank)
    ensures Acyclic(t)
  {
    forall p ensures !IsCycle(t, p) {
      if IsCycle(t, p) {
        WalkDescends(t, rank, p, |p| - 1);
      }
    }
  }

  /** Symbols in the order their check finished: each after all its dependencies. */
  ghost predicate Finished(t: Table, done: seq<nat>) {
    && (forall k :: 0 <= k < |done| ==> done[k] < |t.decls|)
    && (forall k, j :: 0 <= k < |done| && j in Deps(t.decls[done[k]]) ==> j in done[..k])
  }

  lemma FinishedSnoc(t: Table, done: seq<nat>, i: nat)
    requires Finished(t, done) && i < |t.decls| && forall j :: j in Deps(t.decls[i]) ==> j in done
    ensures Finished(t, done + [i])
  {
    var more := done + [i];
    forall k, j | 0 <= k < |more| && j in Deps(t.decls[more[k]]) ensures j in more[..k] {
      assert more[..k] == done[..k];
      assert done[..|done|] == done;
    }
  }

  /** The flags record the stack of symbols being checked. */
  ghost predicate Consistent(t: Table, check: seq<bool>, checked: seq<bool>, stack: seq<nat>) {
    && |check| == |checked| == |t.decls|
    && IsWalk(t, stack)
    && (forall i :: 0 <= i < |check| ==> (check[i] <==> i in stack))
    && (forall i :: 0 <= i < |check| && check[i] ==> checked[i])
  }

  ghost predicate Settled(check: seq<bool>, checked: seq<bool>, done: seq<nat>)
    requires |check| == |checked|
  {
    forall i :: 0 <= i < |checked| && checked[i] && !check[i] ==> i in done
  }

  lemma Enter(t: Table, check: seq<bool>, checked: seq<bool>, stack: seq<nat>, i: nat)
    requires Consistent(t, check, checked, stack) && i < |t.decls|
    requires stack != [] ==> i in Deps(t.decls[stack[|stack| - 1]])
    ensures Consistent(t, check[i := true], checked[i := true], stack + [i])
  {
    var more := stack + [i];
    assert forall k :: 0 <= k < |more| - 1 ==> more[k + 1] in Deps(t.decls[more[k]]);
    assert i in more;
  }

  /** Closing the innermost symbol leaves the flags of the others. */
  lemma Leave(t: Table, check: seq<bool>, checked: seq<bool>, stack: seq<nat>, i: nat)
    requires Consistent(t, check, checked, stack + [i]) && i !in stack && i < |t.decls|
    ensures Consistent(t, check[i := false], checked, stack)
  {
    var more := stack + [i];
    assert forall k :: 0 <= k < |stack| ==> more[k] == stack[k];
    assert forall j :: j in more <==> j in stack || j == i;
  }

  ghost predicate HasCycle(t: Table) {
    exists p :: IsCycle(t, p)
  }

  class Checker {
    const t: Table
    /** recursive_is_error; without it a cycle is reported and then ignored. */
    const strict: bool
    /** SYMBOL_CHECK and SYMBOL_CHECKED. */
    var check: seq<bool>
    var checked: seq<bool>
    /** The symbols being checked, outermost first, and those whose check found nothing. */
    ghost var stack: seq<nat>
    ghost var done: seq<nat>

    ghost predicate Valid()
      reads this
    {
      WellFormed(t) && Consistent(t, check, checked, stack) && Finished(t, done)
    }

    /** No cycle found so far: what has been visited is either open or finished. */
    ghost predicate Clean()
      reads this
      requires |check| == |checked|
    {
      strict && Settled(check, checked, done)
    }

    ghost function Unvisited(): set<nat>
      reads this
    {
      set i: nat | i < |checked| && !checked[i]
    }

    /** The symbols in s hang below the innermost symbol being checked. */
    ghost predicate BelowTop(s: set<nat>)
      reads this
    {
      stack != [] && stack[|stack| - 1] < |t.decls| && s <= Deps(t.decls[stack[|stack| - 1]])
    }

    constructor (table: Table, recursiveIsError: bool)
      requires WellFormed(table)
      ensures t == table && strict == recursiveIsError && Valid() && stack == []
      ensures recursiveIsError ==> Clean()
    {
      t, strict := table, recursiveIsError;
      check := seq(|table.decls|, _ => false);
      checked := seq(|table.decls|, _ => false);
      stack, done := [], [];
    }

    /** sym_check_deps: the symbol at which a cycle closes, if one is found. */
    method CheckDeps(i: nat) returns (found: Option<nat>)
      requires Valid() && i < |t.decls| && (stack != [] ==> BelowTop({i}))
      modifies this
      ensures Valid() && stack == old(stack) && check == old(check)
      ensures (forall j :: j in old(done) ==> j in done) && Unvisited() <= old(Unvisited())
      ensures found.Some? ==> HasCycle(t) && (strict || found.value in stack)
      ensures found.None? && old(Clean()) ==> Clean() && i in done
      decreases Unvisited(), 0, 0
    {
      if check[i] {
        CycleOnStack(t, stack, i);
        return Some(i);
      }
      if checked[i] {
        return None;
      }
      ghost var clean := Clean();
      assert i in Unvisited();
      Enter(t, check, checked, stack, i);
      check, checked := check[i := true], checked[i := true];
      stack := stack + [i];
      assert i !in Unvisited();
      found := CheckSymDeps(i);
      Leave(t, check, checked, old(stack), i);
      check := check[i := false];
      stack := old(stack);
      assert check == old(check);
      if found.None? && clean {
        FinishedSnoc(t, done, i);
        done := done + [i];
      }
      if !strict && found == Some(i) {
        found := None;
      }
    }

    /** sym_check_expr_deps. */
    method CheckExprDeps(d: Dep) returns (found: Option<nat>)
      requires Valid() && BelowTop(DepSymbols(d))
      modifies this
      ensures Valid() && stack == old(stack) && check == old(check)
      ensures (forall j :: j in old(done) ==> j in done) && Unvisited() <= old(Unvisited())
      ensures found.Some? ==> HasCycle(t) && (strict || found.value in stack)
      ensures found.None? && old(Clean()) ==> Clean() && (forall j :: j in DepSymbols(d) ==> j in done)
      decreases Unvisited(), 1, if d.Null? then 0 else Size(d.e)
    {
      if d.Null? {
        return None;
      }
      match d.e
      case Join(_, l, r) =>
        found := CheckExprDeps(Dep(l));
        if found.None? {
          found := CheckExprDeps(Dep(r));
        }
      case Not(a) =>
        found := CheckExprDeps(Dep(a));
      case Cmp(_, l, r) =>
        found := CheckSymbol(l);
        if found.None? {
          found := CheckSymbol(r);
        }
      case Sym(s) =>
        found := CheckSymbol(s);
    }

    /** sym_check_deps on any symbol; a constant depends on nothing. */
    method CheckSymbol(s: Symbol) returns (found: Option<nat>)
      requires Valid() && BelowTop(SymbolId(s))
      modifies this
      ensures Valid() && stack == old(stack) && check == old(check)
      ensures (forall j :: j in old(done) ==> j in done) && Unvisited() <= old(Unvisited())
      ensures found.Some? ==> HasCycle(t) && (strict || found.value in stack)
      ensures found.None? && old(Clean()) ==> Clean() && (forall j :: j in SymbolId(s) ==> j in done)
      decreases Unvisited(), 0, 1
    {
      if s.Config? {
        assert s.id in SymbolId(s);
        found := CheckDeps(s.id);
      } else {
        found := None;
      }
    }

    /** sym_check_sym_deps: everything the declaration of i mentions. */
    method CheckSymDeps(i: nat) returns (found: Option<nat>)
      requires Valid() && stack != [] && stack[|stack| - 1] == i && i < |t.decls|
      modifies this
      ensures Valid() && stack == old(stack) && check == old(check)
      ensures (forall j :: j in old(done) ==> j in done) && Unvisited() <= old(Unvisited())
      ensures found.Some? ==> HasCycle(t) && (strict || found.value in stack)
      ensures found.None? && old(Clean()) ==> Clean() && (forall j :: j in Deps(t.decls[i]) ==> j in done)
      decreases Unvisited(), 4, 0
    {
      var d := t.decls[i];
      found := CheckThree(d.dirDep, d.revDep, d.implied);
      if found.Some? { return; }
      found := CheckProps(d.props);
    }

    /** The three kinds of dependencies, in turn. */
    method CheckThree(d1: Dep, d2: Dep, d3: Dep) returns (found: Option<nat>)
      requires Valid() && BelowTop(DepSymbols(d1) + DepSymbols(d2) + DepSymbols(d3))
      modifies this
      ensures Valid() && stack == old(stack) && check == old(check)
      ensures (forall j :: j in old(done) ==> j in done) && Unvisited() <= old(Unvisited())
      ensures found.Some? ==> HasCycle(t) && (strict || found.value in stack)
      ensures found.None? && old(Clean()) ==>
                Clean() && (forall j :: j in DepSymbols(d1) + DepSymbols(d2) + DepSymbols(d3) ==> j in done)
      decreases Unvisited(), 2, 0
    {
      found := CheckExprDeps(d1);
      if found.Some? { return; }
      found := CheckExprDeps(d2);
      if found.Some? { return; }
      found := CheckExprDeps(d3);
    }

    /** A property's condition and, for a default, its value. */
    method CheckProp(p: Prop) returns (found: Option<nat>)
      requires Valid() && BelowTop(PropSymbols(p))
      modifies this
      ensures Valid() && stack == old(stack) && check == old(check)
      ensures (forall j :: j in old(done) ==> j in done) && Unvisited() <= old(Unvisited())
      ensures found.Some? ==> HasCycle(t) && (strict || found.value in stack)
      ensures found.None? && old(Clean()) ==> Clean() && (forall j :: j in PropSymbols(p) ==> j in done)
      decreases Unvisited(), 2, 0
    {
      found := CheckExprDeps(p.cond);
      if found.None? && p.Default? {
        found := CheckExprDeps(Dep(p.value));
      }
    }

    /** The property loop of sym_check_sym_deps. */
    method CheckProps(ps: seq<Prop>) returns (found: Option<nat>)
      requires Valid() && BelowTop(PropsSymbols(ps))
      modifies this
      ensures Valid() && stack == old(stack) && check == old(check)
      ensures (forall j :: j in old(done) ==> j in done) && Unvisited() <= old(Unvisited())
      ensures found.Some? ==> HasCycle(t) && (strict || found.value in stack)
      ensures found.None? && old(Clean()) ==> Clean() && (forall j :: j in PropsSymbols(ps) ==> j in done)
      decreases Unvisited(), 3, 0
    {
      found := None;
      for k := 0 to |ps|
        invariant Valid() && stack == old(stack) && check == old(check)
        invariant (forall j :: j in old(done) ==> j in done) && Unvisited() <= old(Unvisited()) && found.None?
        invariant old(Clean()) ==> Clean()
        invariant old(Clean()) ==> forall m, j :: 0 <= m < k && j in PropSymbols(ps[m]) ==> j in done
      {
        PropsSymbolsAt(ps, k);
        found := CheckProp(ps[k]);
        if found.Some? { return; }
      }
      if old(Clean()) {
        PropsCovered(ps, done);
      }
    }

    /** The loop of conf_parse over all symbols: counts the symbols that report a cycle. */
    method CheckAll() returns (errors: nat)
      requires Valid() && stack == [] && (strict ==> Clean())
      modifies this
      ensures strict ==> (errors == 0 <==> Acyclic(t))
      ensures strict && errors == 0 ==> exists rank :: Ranked(t, rank)
      ensures !strict ==> errors == 0
    {
      errors := 0;
      for i := 0 to |t.decls|
        invariant Valid() && stack == []
        invariant errors > 0 ==> strict && HasCycle(t)
        invariant strict && errors == 0 ==> Clean() && forall k :: 0 <= k < i ==> k in done
      {
        var found := CheckDeps(i);
        if found.Some? {
          errors := errors + 1;
        }
      }
      if strict && errors == 0 {
        var rank := FinishRank(t, done);
        RankedAcyclic(t, rank);
      }
    }
  }

  lemma {:induction false} PropsCovered(ps: seq<Prop>, done: seq<nat>)
    requires forall m, j :: 0 <= m < |ps| && j in PropSymbols(ps[m]) ==> j in done
    ensures forall j :: j in PropsSymbols(ps) ==> j in done
  {
    if ps != [] {
      assert forall m :: 0 <= m < |ps| - 1 ==> ps[1..][m] == ps[m + 1];
      PropsCovered(ps[1..], done);
    }
  }

  /** The first position in the finishing order is a rank. */
  lemma FinishRank(t: Table, done: seq<nat>) returns (rank: seq<nat>)
    requires WellFormed(t) && Finished(t, done) && forall k :: 0 <= k < |t.decls| ==> k in done
    ensures Ranked(t, rank)
  {
    rank := seq(|t.decls|, i requires 0 <= i < |t.decls| => FirstIndex(done, i));
    forall i, j | 0 <= i < |rank| && j in Deps(t.decls[i]) ensures j < |rank| && rank[j] < rank[i] {
      var k := FirstIndex(done, i);
      assert j in done[..k];
      var m :| 0 <= m < k && done[m] == j;
      FirstIndexLeast(done, j, m);
    }
  }

  function FirstIndex(s: seq<nat>, x: nat): (k: nat)
    requires x in s
    ensures k < |s| && s[k] == x
  {
    if s[0] == x then 0 else 1 + FirstIndex(s[1..], x)
  }

  lemma {:induction false} FirstIndexLeast(s: seq<nat>, x: nat, m: nat)
    requires m < |s| && s[m] == x
    ensures FirstIndex(s, x) <= m
  {
    if m > 0 && s[0] != x {
      assert s[1..][m - 1] == x;
      FirstIndexLeast(s[1..], x, m - 1);
    }
  }

  /** A symbol met again while it is being checked closes a cycle. */
  lemma CycleOnStack(t: Table, stack: seq<nat>, i: nat)
    requires IsWalk(t, stack) && i in stack && i in Deps(t.decls[stack[|stack| - 1]])
    ensures HasCycle(t)
  {
    var k :| 0 <= k < |stack| && stack[k] == i;
    var p := stack[k..] + [i];
    assert IsCycle(t, p);
  }
}
