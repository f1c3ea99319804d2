/** menu_finalize with its real conditions, and what that means for choices and prompts. */
module MenuRun {
  import opened KconfigExpr
  import opened ExprTransform
  import opened MenuForest
  import opened MenuLinks
  import opened MenuPush
  import opened MenuTree
  import opened MenuMembers
  import opened MenuFinalize
  import opened MenuDeps
  import opened MenuSubmenu
  import opened MenuNames
  import C = Choice

  function SymbolIds(infos: seq<Info>): (s: seq<Option<nat>>)
    ensures |s| == |infos|
  {
    seq(|infos|, i requires 0 <= i < |infos| =>
      if infos[i].sym.Some? && infos[i].sym.value.Config? then Some(infos[i].sym.value.id) else None)
  }

  function Choices(infos: seq<Info>): (s: seq<bool>)
    ensures |s| == |infos| && forall i :: 0 <= i < |s| ==> s[i] == infos[i].isChoice
  {
    seq(|infos|, i requires 0 <= i < |infos| => infos[i].isChoice)
  }

  /** What shapes the tree: the submenu test reads the propagated conditions. */
  ghost function PlanOf(infos: seq<Info>, prompted: seq<bool>, modules: Symbol, deps: seq<Conditions>, f: Forest): Plan {
    Plan(prompted, SymbolIds(infos), Takes(Absorbs(infos), PushAll(Push(infos, modules), deps, f)))
  }

  /** The finished tree, who marks whom, and the final conditions. */
  ghost predicate Finalized(infos: seq<Info>, prompted: seq<bool>, modules: Symbol, deps: seq<Conditions>, f: Forest,
                            built: Built, markedBy: seq<Option<nat>>, final: seq<Conditions>) {
    && |infos| == |prompted| == |deps| == |final| && f.Node? && f.rest.Nil? && f.id < |deps|
    && Distinct(f) && MenuPush.Inside(f, |deps|)
    && built == Finished(PlanOf(infos, prompted, modules, deps, f), f.id, f.kids, Nil)
    && markedBy == Flagged(Choices(infos), SymbolIds(infos), built.visits).marks
    && forall i :: 0 <= i < |final| ==>
         final[i] == Settled(Mark(infos), markedBy[i], PushAll(Push(infos, modules), deps, f)[i], i)
  }

  /** Finalising a parsed menu tree. */
  method FinalizeMenus(infos: seq<Info>, prompted: seq<bool>, modules: Symbol, links: Links, deps: seq<Conditions>,
                       root: nat, ghost kids: Forest)
    returns (links': Links, final: seq<Conditions>, dirs: seq<nat>, dirDeps: seq<Conditions>, sels: seq<nat>, selDeps: seq<Conditions>,
             ghost log: seq<nat>, ghost built: Built, ghost markedBy: seq<Option<nat>>)
    requires |infos| == |prompted| == |deps| && At(links, |infos|, root, kids, Nil)
    ensures Finalized(infos, prompted, modules, deps, Node(root, kids, Nil), built, markedBy, final)
    ensures At(links', |infos|, root, built.kids, Nil) && Pre(built.kids) == Pre(kids)
    ensures Tidy(PlanOf(infos, prompted, modules, deps, Node(root, kids, Nil)), built.kids)
    ensures log == [root] + Pre(kids) && NoDup(log)
    ensures dirs == built.dirs && sels == Sels(Node(root, kids, Nil))
    ensures var pushed := PushAll(Push(infos, modules), deps, Node(root, kids, Nil));
            Collected(pushed, dirs, dirDeps) && Collected(pushed, sels, selDeps)
  {
    links', final, dirs, dirDeps, sels, selDeps, log, built, markedBy :=
      Run(|infos|, prompted, SymbolIds(infos), Choices(infos), Push(infos, modules), Mark(infos), Absorbs(infos),
          links, deps, root, kids);
  }

  /** A marked node has a symbol and was marked by a choice; if that choice has a prompt, it holds the node. */
  lemma {:induction false} MarkedHolder(infos: seq<Info>, prompted: seq<bool>, modules: Symbol, deps: seq<Conditions>, f: Forest, built: Built,
                     markedBy: seq<Option<nat>>, final: seq<Conditions>, links: Links, i: nat)
    requires Finalized(infos, prompted, modules, deps, f, built, markedBy, final) && Parented(links, f.id, built.kids)
    requires i < |infos| && markedBy[i].Some?
    ensures var c := markedBy[i].value;
            && c < |infos| && infos[c].isChoice && SymbolIds(infos)[i].Some?
            && (prompted[c] ==> i < |links.parent| && links.parent[i] == Some(c))
  {
    var c, e := markedBy[i].value, PlanOf(infos, prompted, modules, deps, f);
    MarkedIff(Choices(infos), SymbolIds(infos), built.visits, c, i);
    var k: nat :| First(Choices(infos), SymbolIds(infos), built.visits, k) && built.visits[k] == (c, i);
    if prompted[c] {
      FinishedVisits(e, f.id, f.kids, Nil, c, i);
      HolderParent(links, f.id, built.kids, c, i);
    }
  }

  lemma {:induction false} HolderParent(l: Links, root: nat, kids: Forest, c: nat, i: nat)
    requires Parented(l, root, kids) && Encloses(Node(root, kids, Nil), c, i)
    ensures i < |l.parent| && l.parent[i] == Some(c)
  {
    if root == c && OnSpine(kids, i) {
      SpineParent(l, root, kids, i);
    } else {
      EnclosedParent(l, root, kids, c, i);
    }
  }

  /** The symbol of a node on the list of a choice is marked, at exactly one node. */
  lemma {:induction false} MemberMarked(infos: seq<Info>, prompted: seq<bool>, modules: Symbol, deps: seq<Conditions>, f: Forest, built: Built,
                     markedBy: seq<Option<nat>>, final: seq<Conditions>, links: Links, c: nat, i: nat) returns (j: nat)
    requires Finalized(infos, prompted, modules, deps, f, built, markedBy, final) && Parented(links, f.id, built.kids)
    requires c < |infos| && infos[c].isChoice && i in Ids(built.kids) && i < |infos| && SymbolIds(infos)[i].Some?
    requires i < |links.parent| && links.parent[i] == Some(c)
    ensures j < |infos| && SymbolIds(infos)[j] == SymbolIds(infos)[i] && markedBy[j].Some?
    ensures forall k :: 0 <= k < |infos| && SymbolIds(infos)[k] == SymbolIds(infos)[i] && markedBy[k].Some? ==> k == j
  {
    var e := PlanOf(infos, prompted, modules, deps, f);
    ParentEncloses(links, f.id, built.kids, i);
    assert Encloses(Node(f.id, built.kids, Nil), c, i);
    FinishedVisits(e, f.id, f.kids, Nil, c, i);
    MarkedSomewhere(Choices(infos), SymbolIds(infos), built.visits, c, i);
    j :| 0 <= j < |infos| && SymbolIds(infos)[j] == SymbolIds(infos)[i] && markedBy[j].Some?;
    forall k | 0 <= k < |infos| && SymbolIds(infos)[k] == SymbolIds(infos)[i] && markedBy[k].Some? ensures k == j {
      MarkedOnce(Choices(infos), SymbolIds(infos), built.visits, k, j);
    }
  }

  lemma {:induction false} AllPropagated(infos: seq<Info>, modules: Symbol, f: Forest, deps: seq<Conditions>)
    requires f.Node? && Distinct(f) && |infos| == |deps| && f.id < |deps| && MenuPush.Inside(f, |deps|)
    ensures Propagated(infos, modules, f, deps, PushAll(Push(infos, modules), deps, f))
  {
    var push := Push(infos, modules);
    PushKept(push, deps, f, f.id);
    forall p: nat, i: nat | Encloses(f, p, i)
      ensures p < |deps| && i < |deps| && PushAll(push, deps, f)[i] == push(p, PushAll(push, deps, f)[p], i, deps[i])
    {
      Pushed(push, deps, f, p, i);
    }
  }

  /** The choice that marked node i is a tristate, the node's symbol is not, and the choice is not y. */
  predicate Withheld(infos: seq<Info>, choice: Option<nat>, i: nat, v: Assignment)
    requires i < |infos|
  {
    && choice.Some? && choice.value < |infos| && infos[i].sym.Some? && infos[i].sym.value.Type() != Tristate
    && infos[choice.value].sym.Some? && infos[choice.value].sym.value.Type() == Tristate
    && v.tri(infos[choice.value].sym.value) != 2
  }

  lemma {:induction false} SettledValue(infos: seq<Info>, choice: Option<nat>, pushed: Conditions, i: nat, v: Assignment)
    requires WellTyped(v) && i < |infos|
    ensures var c := Settled(Mark(infos), choice, pushed, i);
            && EvalDep(c.dep, v) == (if Withheld(infos, choice, i, v) then 0 else EvalDep(pushed.dep, v))
            && |c.props| == |pushed.props|
            && forall k :: 0 <= k < |c.props| ==>
                 EvalDep(c.props[k], v) == if Withheld(infos, choice, i, v) then 0 else EvalDep(pushed.props[k], v)
  {
    if choice.Some? && choice.value < |infos| {
      var info := infos[choice.value];
      if info.sym.Some? && info.sym.value.Type() == Tristate && TwoValuedNode(infos[i]) {
        NeededValue(info.sym.value, pushed.dep, v);
        forall k | 0 <= k < |pushed.props|
          ensures EvalDep(MarkInto(info, infos[i], pushed).props[k], v)
                  == if v.tri(info.sym.value) == 2 then EvalDep(pushed.props[k], v) else 0
        {
          NeededValue(info.sym.value, pushed.props[k], v);
        }
      }
    }
  }

  /** In the end a node's dependency is exactly the minimum of everything that limited it originally, except for a
      member that a tristate choice has marked and that is not a tristate itself: it needs the choice to be y besides. */
  lemma {:induction false} FinalDependency(infos: seq<Info>, prompted: seq<bool>, modules: Symbol, f: Forest, deps: seq<Conditions>, built: Built,
                        markedBy: seq<Option<nat>>, final: seq<Conditions>, chain: seq<nat>, v: Assignment, cs: set<Symbol>)
    requires WellTyped(v) && ConstantsDistinct(v, cs) && Vocabulary(deps, cs)
    requires Finalized(infos, prompted, modules, deps, f, built, markedBy, final) && Chain(f, f.id, chain)
    requires forall k :: 0 <= k < |chain| ==> chain[k] < |deps|
    ensures var i, x := chain[|chain| - 1], MinOf(Limits(OwnValues(deps, modules, f.id, v), Gates(infos, v), chain));
            EvalDep(final[i].dep, v) == if Withheld(infos, markedBy[i], i, v) then 0 else x
  {
    var i, pushed := chain[|chain| - 1], PushAll(Push(infos, modules), deps, f);
    AllPropagated(infos, modules, f, deps);
    DependencyValue(infos, modules, f, deps, pushed, chain, v, cs);
    SettledValue(infos, markedBy[i], pushed[i], i, v);
  }

  /** ... and so is the condition of each property declared there, combined with its own. */
  lemma {:induction false} FinalProperty(infos: seq<Info>, prompted: seq<bool>, modules: Symbol, f: Forest, deps: seq<Conditions>, built: Built,
                      markedBy: seq<Option<nat>>, final: seq<Conditions>, chain: seq<nat>, k: nat, v: Assignment, cs: set<Symbol>)
    requires WellTyped(v) && ConstantsDistinct(v, cs) && Vocabulary(deps, cs)
    requires Finalized(infos, prompted, modules, deps, f, built, markedBy, final) && NormalDep(deps[f.id].dep)
    requires Chain(f, f.id, chain) && |chain| > 1
    requires (forall k :: 0 <= k < |chain| ==> chain[k] < |deps|) && k < |deps[chain[|chain| - 1]].props|
    ensures var i := chain[|chain| - 1];
            var y := Min(MinOf(Limits(OwnValues(deps, modules, f.id, v), Gates(infos, v), chain)),
                         EvalDep(deps[i].props[k], Limited(v, modules)));
            && |final[i].props| == |deps[i].props|
            && var x := EvalDep(final[i].props[k], v);
               if Withheld(infos, markedBy[i], i, v) then x == 0
               else if infos[i].sym.Some? && infos[i].sym.value.Type() != Tristate then Promote(x) == Promote(y) else x == y
  {
    var i, pushed := chain[|chain| - 1], PushAll(Push(infos, modules), deps, f);
    AllPropagated(infos, modules, f, deps);
    DependencyValue(infos, modules, f, deps, pushed, chain, v, cs);
    PropertyValue(infos, modules, f, deps, pushed, chain, k, v, cs);
    SettledValue(infos, markedBy[i], pushed[i], i, v);
  }

  /** For a tristate nothing is promoted and no choice withholds anything: both are exactly the minimum. */
  lemma {:induction false} FinalTristate(infos: seq<Info>, prompted: seq<bool>, modules: Symbol, f: Forest, deps: seq<Conditions>, built: Built,
                      markedBy: seq<Option<nat>>, final: seq<Conditions>, chain: seq<nat>, k: nat, v: Assignment, cs: set<Symbol>)
    requires WellTyped(v) && ConstantsDistinct(v, cs) && Vocabulary(deps, cs)
    requires Finalized(infos, prompted, modules, deps, f, built, markedBy, final) && NormalDep(deps[f.id].dep)
    requires Chain(f, f.id, chain) && |chain| > 1
    requires (forall k :: 0 <= k < |chain| ==> chain[k] < |deps|) && k < |deps[chain[|chain| - 1]].props|
    requires var i := chain[|chain| - 1]; infos[i].sym.Some? && infos[i].sym.value.Type() == Tristate
    ensures var i := chain[|chain| - 1];
            var x := MinOf(Limits(OwnValues(deps, modules, f.id, v), Gates(infos, v), chain));
            && EvalDep(final[i].dep, v) == x && |final[i].props| == |deps[i].props|
            && EvalDep(final[i].props[k], v) == Min(x, EvalDep(deps[i].props[k], Limited(v, modules)))
  {
    FinalDependency(infos, prompted, modules, f, deps, built, markedBy, final, chain, v, cs);
    FinalProperty(infos, prompted, modules, f, deps, built, markedBy, final, chain, k, v, cs);
  }

  // ---- choices -------------------------------------------------------------

  /** The value of the nearest choice around a node is among what limits it. */
  lemma {:induction false} LimitsGate(own: seq<Tri>, gate: seq<Option<Tri>>, chain: seq<nat>, k: nat)
    requires |own| == |gate| && (forall j :: 0 <= j < |chain| ==> chain[j] < |own|)
    requires k < |chain| - 1 && gate[chain[k]].Some? && forall j :: k < j < |chain| - 1 ==> gate[chain[j]] == None
    ensures gate[chain[k]].value in Limits(own, gate, chain)
    decreases |chain|
  {
    var n := |chain| - 1;
    if k < n - 1 {
      assert gate[chain[n - 1]] == None;
      LimitsGate(own, gate, chain[..n], k);
    }
  }

  /** Down to every marked node leads a chain in which the nearest choice has the symbol of the one that marked it:
      that choice itself if it has children, and otherwise, since it takes a node whose condition names its symbol, a
      choice around both. */
  lemma {:induction false} MarkedGate(infos: seq<Info>, prompted: seq<bool>, modules: Symbol, f: Forest, deps: seq<Conditions>,
                                      built: Built, markedBy: seq<Option<nat>>, final: seq<Conditions>, c: nat, i: nat)
    returns (chain: seq<nat>, k: nat)
    requires Finalized(infos, prompted, modules, deps, f, built, markedBy, final)
    requires i < |infos| && markedBy[i] == Some(c) && c < |infos| && infos[c].isChoice && infos[c].sym.Some?
    requires Opens(f, c) || Unnamed(deps, modules, infos[c].sym.value)
    ensures Chain(f, f.id, chain) && chain[|chain| - 1] == i && (forall j :: 0 <= j < |chain| ==> chain[j] < |infos|)
    ensures GateAt(infos, chain, k, infos[c].sym.value)
  {
    if Opens(f, c) {
      chain, k := ChainBelow(infos, prompted, modules, f, deps, c, i);
    } else {
      var e := PlanOf(infos, prompted, modules, deps, f);
      var p := MarkerPlace(e, Choices(infos), f.id, f.kids, c, i);
      MarkedBeside(e, Choices(infos), f.id, f.kids, c, i, p, 0);
      chain, k := ChainBeside(infos, prompted, modules, f, deps, c, i, p);
    }
  }

  /** Nodes of a path lie in the tree. */
  lemma {:induction false} PathInside(f: Forest, path: seq<nat>, n: nat)
    requires Distinct(f) && Path(f, path) && path[|path| - 1] in Ids(f) && MenuPush.Inside(f, n)
    ensures forall j :: 0 <= j < |path| ==> path[j] < n
  {
    forall j | 0 <= j < |path| ensures path[j] < n {
      if j < |path| - 1 {
        PathHolds(f, path, j, |path| - 1);
        HoldsIds(f, path[j], path[|path| - 1]);
      }
    }
  }

  lemma {:induction false} ChainBelow(infos: seq<Info>, prompted: seq<bool>, modules: Symbol, f: Forest, deps: seq<Conditions>,
                                      c: nat, i: nat) returns (chain: seq<nat>, k: nat)
    requires |infos| == |deps| && f.Node? && f.rest.Nil? && Distinct(f) && MenuPush.Inside(f, |deps|) && i < |infos|
    requires var visits := Finished(PlanOf(infos, prompted, modules, deps, f), f.id, f.kids, Nil).visits;
             Flagged(Choices(infos), SymbolIds(infos), visits).marks[i] == Some(c)
    requires Opens(f, c) && c < |infos| && infos[c].isChoice && infos[c].sym.Some?
    ensures Chain(f, f.id, chain) && chain[|chain| - 1] == i && (forall j :: 0 <= j < |chain| ==> chain[j] < |infos|)
    ensures GateAt(infos, chain, k, infos[c].sym.value)
  {
    var e := PlanOf(infos, prompted, modules, deps, f);
    MarkedNearest(e, Choices(infos), f.id, f.kids, c, i, 0);
    chain, k := PathThrough(f, c, i);
    HoldsIds(f, c, i);
    PathInside(f, chain, |infos|);
    forall j | k < j < |chain| - 1 ensures !infos[chain[j]].isChoice {
      PathHolds(f, chain, j, |chain| - 1);
      PathHolds(f, chain, k, j);
      MarkedNearest(e, Choices(infos), f.id, f.kids, c, i, chain[j]);
    }
  }

  lemma {:induction false} ChainBeside(infos: seq<Info>, prompted: seq<bool>, modules: Symbol, f: Forest, deps: seq<Conditions>,
                                       c: nat, i: nat, p: nat) returns (chain: seq<nat>, k: nat)
    requires |infos| == |deps| && f.Node? && f.rest.Nil? && f.id < |deps| && Distinct(f) && MenuPush.Inside(f, |deps|) && i < |infos|
    requires var visits := Finished(PlanOf(infos, prompted, modules, deps, f), f.id, f.kids, Nil).visits;
             Flagged(Choices(infos), SymbolIds(infos), visits).marks[i] == Some(c)
    requires !Opens(f, c) && Encloses(f, p, c) && MenuMembers.Holds(f, p, i) && TakesBelow(PlanOf(infos, prompted, modules, deps, f), f, p, c)
    requires c < |infos| && infos[c].sym.Some? && Unnamed(deps, modules, infos[c].sym.value)
    ensures Chain(f, f.id, chain) && chain[|chain| - 1] == i && (forall j :: 0 <= j < |chain| ==> chain[j] < |infos|)
    ensures GateAt(infos, chain, k, infos[c].sym.value)
  {
    var e := PlanOf(infos, prompted, modules, deps, f);
    var m: nat :| Encloses(f, p, m) && e.takes(c, m);
    var at;
    chain, at := PathThrough(f, p, i);
    HoldsIds(f, p, i);
    PathInside(f, chain, |infos|);
    EnclosesIn(f, p, m);
    var up := chain[..at + 1] + [m];
    UpTo(f, chain, at, m);
    k := TakenGate(infos, prompted, modules, f, deps, up, c, m);
    forall j | k < j < |chain| - 1 ensures !(infos[chain[j]].isChoice && infos[chain[j]].sym.Some?) {
      if j <= at {
        assert up[j] == chain[j];
      } else {
        PathHolds(f, chain, j, |chain| - 1);
        PathHolds(f, chain, at, j);
        MarkedBeside(e, Choices(infos), f.id, f.kids, c, i, p, chain[j]);
      }
    }
  }

  /** Another child of a node on the path. */
  lemma {:induction false} UpTo(f: Forest, chain: seq<nat>, at: nat, m: nat)
    requires Path(f, chain) && at < |chain| && Encloses(f, chain[at], m)
    ensures Path(f, chain[..at + 1] + [m])
  {
    var up := chain[..at + 1] + [m];
    forall k | 0 <= k < |up| - 1 ensures Encloses(f, up[k], up[k + 1]) {
      if k < at {
        assert up[k] == chain[k] && up[k + 1] == chain[k + 1];
      }
    }
  }

  /** A node that a choice takes names its symbol, and has it from the nearest choice. */
  lemma {:induction false} TakenGate(infos: seq<Info>, prompted: seq<bool>, modules: Symbol, f: Forest, deps: seq<Conditions>,
                                     chain: seq<nat>, c: nat, m: nat) returns (j: nat)
    requires |infos| == |deps| && f.Node? && f.id < |deps| && Distinct(f) && MenuPush.Inside(f, |deps|)
    requires Chain(f, f.id, chain) && chain[|chain| - 1] == m && m in Ids(f) && (forall t :: 0 <= t < |chain| ==> chain[t] < |deps|)
    requires PlanOf(infos, prompted, modules, deps, f).takes(c, m)
    requires c < |infos| && infos[c].sym.Some? && Unnamed(deps, modules, infos[c].sym.value)
    ensures GateAt(infos, chain, j, infos[c].sym.value)
  {
    var pushed, s := PushAll(Push(infos, modules), deps, f), infos[c].sym.value;
    AllPropagated(infos, modules, f, deps);
    assert GoesBelow(infos[c], pushed[c], infos[m], pushed[m]);
    assert !Lacks(pushed[m], s);
    j := NamesGate(infos, modules, f, deps, pushed, chain, s);
  }

  /** No condition of a marked member exceeds the choice, and a member that is not a tristate needs the choice to be y. */
  lemma {:induction false} MarkedContained(infos: seq<Info>, prompted: seq<bool>, modules: Symbol, f: Forest, deps: seq<Conditions>, built: Built,
                        markedBy: seq<Option<nat>>, final: seq<Conditions>, c: nat, i: nat, k: nat, v: Assignment, cs: set<Symbol>)
    requires WellTyped(v) && ConstantsDistinct(v, cs) && Vocabulary(deps, cs)
    requires Finalized(infos, prompted, modules, deps, f, built, markedBy, final) && NormalDep(deps[f.id].dep)
    requires i < |infos| && markedBy[i] == Some(c) && k < |deps[i].props|
    requires c < |infos| && infos[c].isChoice && infos[c].sym.Some? && Logical(infos[c].sym.value)
    requires Opens(f, c) || Unnamed(deps, modules, infos[c].sym.value)
    ensures |final[i].props| == |deps[i].props|
    ensures var x, y := EvalDep(final[i].props[k], v), v.tri(infos[c].sym.value);
            x <= y && (infos[i].sym.Some? && infos[i].sym.value.Type() != Tristate && y != 2 ==> x == 0)
  {
    var chain, j := MarkedGate(infos, prompted, modules, f, deps, built, markedBy, final, c, i);
    var own, gate := OwnValues(deps, modules, f.id, v), Gates(infos, v);
    LimitsGate(own, gate, chain, j);
    MinOfLeast(Limits(own, gate, chain));
    FinalProperty(infos, prompted, modules, f, deps, built, markedBy, final, chain, k, v, cs);
    assert infos[c].sym.value.Type() == Boolean ==> v.tri(infos[c].sym.value) != 1;
  }

  /** A prompt of a choice member: the node and which of its properties it is. */
  datatype Origin = Origin(node: nat, prop: nat)

  /** Members all of whose prompts are at nodes marked by the choice satisfy what the choice calculation relies on. */
  lemma {:induction false} GroupContained(g: C.Group, w: C.World, infos: seq<Info>, prompted: seq<bool>, modules: Symbol, f: Forest,
                       deps: seq<Conditions>, built: Built, markedBy: seq<Option<nat>>, final: seq<Conditions>, c: nat,
                       origins: seq<seq<Origin>>, cs: set<Symbol>)
    requires Vocabulary(deps, cs) && Finalized(infos, prompted, modules, deps, f, built, markedBy, final)
    requires NormalDep(deps[f.id].dep)
    requires c < |infos| && infos[c].isChoice && infos[c].sym.Some? && Logical(infos[c].sym.value) && g.typ == infos[c].sym.value.Type()
    requires Opens(f, c) || Unnamed(deps, modules, infos[c].sym.value)
    requires forall x: Tri {:trigger w.inner(x)} ::
               (x == 1 ==> g.typ == Tristate) ==> GoodInner(w.inner(x), infos[c].sym.value, x, cs)
    requires |origins| == |g.members|
    requires forall k :: 0 <= k < |g.members| ==> |origins[k]| == |g.members[k].prompts|
    requires forall k, j :: 0 <= k < |g.members| && 0 <= j < |origins[k]| ==>
               From(infos, deps, markedBy, final, c, origins[k][j], g.members[k].typ, g.members[k].prompts[j])
    ensures C.Contained(g, w)
  {
    forall k, j, x: Tri | 0 <= k < |g.members| && 0 <= j < |g.members[k].prompts| && (x == 1 ==> g.typ == Tristate)
      ensures var y := EvalDep(g.members[k].prompts[j], w.inner(x)); y <= x && (g.members[k].typ != Tristate && x != 2 ==> y == 0)
    {
      var o := origins[k][j];
      assert From(infos, deps, markedBy, final, c, o, g.members[k].typ, g.members[k].prompts[j]);
      assert GoodInner(w.inner(x), infos[c].sym.value, x, cs);
      MarkedContained(infos, prompted, modules, f, deps, built, markedBy, final, c, o.node, o.prop, w.inner(x), cs);
    }
  }

  ghost predicate From(infos: seq<Info>, deps: seq<Conditions>, markedBy: seq<Option<nat>>, final: seq<Conditions>, c: nat,
                       o: Origin, typ: SymType, prompt: Dep) {
    && o.node < |infos| == |deps| == |markedBy| == |final| && markedBy[o.node] == Some(c)
    && infos[o.node].sym.Some? && infos[o.node].sym.value.Type() == typ
    && o.prop < |deps[o.node].props| && o.prop < |final[o.node].props| && prompt == final[o.node].props[o.prop]
  }

  ghost predicate GoodInner(v: Assignment, choice: Symbol, c: Tri, cs: set<Symbol>) {
    WellTyped(v) && ConstantsDistinct(v, cs) && v.tri(choice) == c
  }
}
