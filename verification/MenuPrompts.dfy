/** Symbols whose conditions menu_finalize made have their dependencies met wherever a prompt is visible. */
module MenuPrompts {
  import opened KconfigExpr
  import opened SymbolTable
  import opened MenuForest
  import opened MenuPush
  import opened MenuTree
  import opened MenuFinalize
  import opened MenuDeps
  import opened MenuMembers
  import opened MenuRun
  import opened MenuJoins
  import T = TableOptimise
  import V = SymbolValue

  /** The prompt is property k of node i of the symbol; and the node has no children and has a dependency, unless no node
      has given the symbol one. */
  predicate PromptAt(infos: seq<Info>, sym: nat, f: Forest, pushed: seq<Conditions>, final: seq<Conditions>, joined: seq<Dep>,
                     cond: Dep, i: nat, k: nat) {
    && i in Ids(f) && i < |infos| == |pushed| == |final| && SymbolIds(infos)[i] == Some(sym)
    && k < |final[i].props| && cond == final[i].props[k]
    && ((!Opens(f, i) && pushed[i].dep.Dep?) || forall j :: 0 <= j < |joined| ==> joined[j].Null?)
  }

  /** A symbol as menu_finalize leaves it: its prompts are properties of its nodes, and dir_dep is what these have joined. */
  ghost predicate Declared(d: Decl, infos: seq<Info>, sym: nat, f: Forest, pushed: seq<Conditions>, final: seq<Conditions>,
                           dirs: seq<nat>, dirDeps: seq<Conditions>) {
    && |dirs| == |dirDeps| && var joined := Joined(SymbolIds(infos), sym, dirs, dirDeps);
       && d.dirDep == DirDep(joined)
       && forall p :: 0 <= p < |d.props| && d.props[p].Prompt? ==>
            exists i: nat, k: nat :: PromptAt(infos, sym, f, pushed, final, joined, d.props[p].cond, i, k)
  }

  lemma {:induction false} VisiblePrompt(ps: seq<Prop>, v: Assignment) returns (p: nat)
    requires Prompts(ps, v) != 0
    ensures p < |ps| && ps[p].Prompt? && EvalDep(ps[p].cond, v) != 0
  {
    if ps[0].Prompt? && EvalDep(ps[0].cond, v) != 0 {
      p := 0;
    } else {
      p := VisiblePrompt(ps[1..], v);
      p := p + 1;
    }
  }

  lemma {:induction false} ClosedLeaf(e: Plan, f: Forest, i: nat)
    requires i in Ids(f) && e.Symbol(i) && !Opens(f, i)
    ensures Leafy(e, f, i)
  {
    if f.id != i {
      if i in Ids(f.kids) {
        ClosedLeaf(e, f.kids, i);
      } else {
        ClosedLeaf(e, f.rest, i);
      }
    }
  }

  /** A visible property of a node other than the root has the node's propagated dependency met. */
  lemma {:induction false} VisibleMeets(infos: seq<Info>, prompted: seq<bool>, modules: Symbol, f: Forest, deps: seq<Conditions>,
                                        built: Built, markedBy: seq<Option<nat>>, final: seq<Conditions>, i: nat, k: nat,
                                        v: Assignment, cs: set<Symbol>)
    requires WellTyped(v) && ConstantsDistinct(v, cs) && Vocabulary(deps, cs)
    requires Finalized(infos, prompted, modules, deps, f, built, markedBy, final) && NormalDep(deps[f.id].dep)
    requires i in Ids(f) && i != f.id && i < |infos| && k < |final[i].props| && EvalDep(final[i].props[k], v) != 0
    ensures EvalDep(PushAll(Push(infos, modules), deps, f)[i].dep, v) != 0
  {
    var pushed := PushAll(Push(infos, modules), deps, f);
    var chain := PathTo(f, i);
    PathInside(f, chain, |infos|);
    assert Chain(f, f.id, chain) && |chain| > 1;
    AllPropagated(infos, modules, f, deps);
    SettledValue(infos, markedBy[i], pushed[i], i, v);
    PropertySize(infos, modules, f, deps, pushed, chain);
    PropertyValue(infos, modules, f, deps, pushed, chain, k, v, cs);
  }

  lemma PropertySize(infos: seq<Info>, modules: Symbol, f: Forest, deps: seq<Conditions>, pushed: seq<Conditions>, chain: seq<nat>)
    requires Propagated(infos, modules, f, deps, pushed) && Chain(f, f.id, chain) && |chain| > 1
    requires forall k :: 0 <= k < |chain| ==> chain[k] < |deps|
    ensures var i := chain[|chain| - 1]; |pushed[i].props| == |deps[i].props|
  {
    var n := |chain| - 1;
    assert Encloses(f, chain[n - 1], chain[n - 1 + 1]);
  }

  /** In every well-typed state, a symbol that menu_finalize leaves this way has dir_dep met when a prompt is visible. */
  lemma {:induction false} RunPromptsNeedDeps(t: Table, d: Decl, infos: seq<Info>, prompted: seq<bool>, modules: Symbol, f: Forest,
                                              deps: seq<Conditions>, built: Built, markedBy: seq<Option<nat>>, final: seq<Conditions>,
                                              dirs: seq<nat>, dirDeps: seq<Conditions>, sym: nat, cs: set<Symbol>)
    requires T.LettersCompare(t) && forall env: seq<Tri> :: Proper(t, env) ==> ConstantsDistinct(Under(t, env), cs)
    requires Finalized(infos, prompted, modules, deps, f, built, markedBy, final) && Vocabulary(deps, cs)
    requires NormalDep(deps[f.id].dep) && SymbolIds(infos)[f.id] == None && dirs == built.dirs
    requires var pushed := PushAll(Push(infos, modules), deps, f);
             Collected(pushed, dirs, dirDeps) && Declared(d, infos, sym, f, pushed, final, dirs, dirDeps)
    ensures V.PromptsNeedDeps(t, d)
  {
    var pushed, joined := PushAll(Push(infos, modules), deps, f), Joined(SymbolIds(infos), sym, dirs, dirDeps);
    forall env: seq<Tri> | Proper(t, env) && Prompts(d.props, Under(t, env)) != 0 ensures EvalDep(d.dirDep, Under(t, env)) != 0 {
      var v := Under(t, env);
      T.UnderWellTyped(t, env);
      var p := VisiblePrompt(d.props, v);
      var i: nat, k: nat :| PromptAt(infos, sym, f, pushed, final, joined, d.props[p].cond, i, k);
      VisibleMeets(infos, prompted, modules, f, deps, built, markedBy, final, i, k, v, cs);
      if !(forall j :: 0 <= j < |joined| ==> joined[j].Null?) {
        DepJoined(infos, prompted, modules, f, deps, built, pushed, dirs, dirDeps, sym, i);
      }
      DirDepHolds(joined, v);
    }
  }

  lemma {:induction false} DepJoined(infos: seq<Info>, prompted: seq<bool>, modules: Symbol, f: Forest, deps: seq<Conditions>, built: Built,
                                     pushed: seq<Conditions>, dirs: seq<nat>, dirDeps: seq<Conditions>, sym: nat, i: nat)
    requires f.Node? && f.rest.Nil? && built == Finished(PlanOf(infos, prompted, modules, deps, f), f.id, f.kids, Nil)
    requires dirs == built.dirs && Collected(pushed, dirs, dirDeps) && |pushed| == |infos|
    requires i in Ids(f) && i < |infos| && SymbolIds(infos)[i] == Some(sym) && !Opens(f, i)
    ensures pushed[i].dep in Joined(SymbolIds(infos), sym, dirs, dirDeps)
  {
    var e := PlanOf(infos, prompted, modules, deps, f);
    ClosedLeaf(e, f, i);
    FinishedDirs(e, f.id, f.kids, Nil, i);
    assert f == Node(f.id, f.kids, Nil);
    FinishedPre(e, f.id, f.kids, Nil);
    assert built.rest == Nil;
    var j :| 0 <= j < |dirs| && dirs[j] == i;
    JoinedHas(SymbolIds(infos), sym, dirs, dirDeps, j);
  }
}
