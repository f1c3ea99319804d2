/** The conditions menu_finalize gives to menu nodes and properties, and what they evaluate to. */
module MenuDeps {
  import opened KconfigExpr
  import opened ExprTransform
  import opened ExprEq
  import opened ExprDups
  import opened MenuForest
  import opened MenuPush

  /** A menu node's symbol, whether that is a choice, and which of its properties is its prompt. */
  datatype Info = Info(sym: Option<Symbol>, isChoice: bool, prompt: Option<nat>)

  /** A node's dependency and the conditions of the properties declared there. */
  datatype Conditions = Conditions(dep: Dep, props: seq<Dep>)

  /** rewrite_m: m becomes m && MODULES. */
  function RewriteM(e: Expr, modules: Symbol): Expr {
    match e
    case Not(a) => Not(RewriteM(a, modules))
    case Join(op, l, r) => Join(op, RewriteM(l, modules), RewriteM(r, modules))
    case Sym(s) => if s == Mod then Join(And, e, Sym(modules)) else e
    case Cmp(_, _, _) => e
  }

  /** The assignment in which the constant m is limited by MODULES. */
  function Limited(v: Assignment, modules: Symbol): Assignment {
    var tri, limit := v.tri, Min(v.tri(Mod), v.tri(modules));
    Assignment((s: Symbol) => if s == Mod then limit else tri(s), v.order)
  }

  lemma {:induction false} RewriteMMentions(e: Expr, modules: Symbol, cs: set<Symbol>)
    requires Mentions(e, cs)
    ensures Mentions(RewriteM(e, modules), cs)
  {
    match e
    case Not(a) => RewriteMMentions(a, modules, cs);
    case Join(_, l, r) =>
      RewriteMMentions(l, modules, cs);
      RewriteMMentions(r, modules, cs);
    case _ =>
  }

  lemma {:induction false} RewriteMValue(e: Expr, modules: Symbol, v: Assignment)
    ensures Eval(RewriteM(e, modules), v) == Eval(e, Limited(v, modules))
  {
    match e
    case Not(a) => RewriteMValue(a, modules, v);
    case Join(_, l, r) =>
      RewriteMValue(l, modules, v);
      RewriteMValue(r, modules, v);
    case _ =>
  }

  // ---- on conditions that may be absent ------------------------------------

  function Prepared(d: Dep, modules: Symbol): Dep {
    if d.Null? then Null else Dep(Transform(RewriteM(d.e, modules)))
  }

  function Deduplicated(d: Dep): Dep {
    if d.Null? then Null else Dep(EliminateDups(d.e))
  }

  function Combined(outer: Dep, own: Dep, modules: Symbol): Dep {
    Deduplicated(AllocJoin(And, outer, Prepared(own, modules)))
  }

  predicate NormalDep(d: Dep) {
    d.Null? || Normal(d.e)
  }

  lemma PreparedMentions(d: Dep, modules: Symbol, cs: set<Symbol>)
    requires MentionsDep(d, cs)
    ensures MentionsDep(Prepared(d, modules), cs)
  {
    if d.Dep? {
      RewriteMMentions(d.e, modules, cs);
      TransformMentions(RewriteM(d.e, modules), cs);
    }
  }

  /** A combined condition is the minimum of the enclosing one and the node's own, m limited by MODULES. */
  lemma CombinedValue(outer: Dep, own: Dep, modules: Symbol, v: Assignment, cs: set<Symbol>)
    requires WellTyped(v) && ConstantsDistinct(v, cs) && MentionsDep(outer, cs) && MentionsDep(own, cs)
    ensures EvalDep(Combined(outer, own, modules), v) == Min(EvalDep(outer, v), EvalDep(own, Limited(v, modules)))
  {
    if own.Dep? {
      RewriteMValue(own.e, modules, v);
      TransformSound(RewriteM(own.e, modules), v);
    }
    PreparedMentions(own, modules, cs);
    var d := AllocJoin(And, outer, Prepared(own, modules));
    if d.Dep? {
      EliminateDupsSound(d.e, v, cs);
    }
  }

  lemma CombinedMentions(outer: Dep, own: Dep, modules: Symbol, cs: set<Symbol>)
    requires {Yes, Mod, No} <= cs && MentionsDep(outer, cs) && MentionsDep(own, cs)
    ensures MentionsDep(Combined(outer, own, modules), cs)
  {
    PreparedMentions(own, modules, cs);
    var d := AllocJoin(And, outer, Prepared(own, modules));
    if d.Dep? {
      EliminateDupsMentions(d.e, cs);
    }
  }

  lemma CombinedNormal(outer: Dep, own: Dep, modules: Symbol)
    requires NormalDep(outer)
    ensures NormalDep(Combined(outer, own, modules))
  {
    if own.Dep? {
      TransformNormal(RewriteM(own.e, modules));
    }
    var d := AllocJoin(And, outer, Prepared(own, modules));
    if d.Dep? {
      EliminateDupsNormal(d.e);
    }
  }

  /** The condition of a property; that of a symbol that is not a tristate is simplified further. */
  function PropCondition(base: Dep, own: Dep, modules: Symbol, twoValued: bool): Dep {
    var d := Combined(base, own, modules);
    if twoValued && d.Dep? then Dep(TransBool(d.e)) else d
  }

  /** ... and what it evaluates to: for a symbol that is not a tristate, after m has been promoted to y. */
  lemma PropValue(base: Dep, own: Dep, modules: Symbol, twoValued: bool, v: Assignment, cs: set<Symbol>)
    requires WellTyped(v) && ConstantsDistinct(v, cs) && NormalDep(base) && MentionsDep(base, cs) && MentionsDep(own, cs)
    ensures var x := EvalDep(PropCondition(base, own, modules, twoValued), v);
            var y := Min(EvalDep(base, v), EvalDep(own, Limited(v, modules)));
            if twoValued then Promote(x) == Promote(y) else x == y
  {
    CombinedValue(base, own, modules, v, cs);
    CombinedNormal(base, own, modules);
    var d := Combined(base, own, modules);
    if twoValued && d.Dep? {
      NormalNoNegatedTest(d.e);
      TransBoolSound(d.e, v);
    }
  }

  // ---- propagation ---------------------------------------------------------

  /** The node has a symbol that is not a tristate. */
  predicate TwoValuedNode(info: Info) {
    info.sym.Some? && info.sym.value.Type() != Tristate
  }

  /** What a node passes on to its children: a choice passes on its symbol. */
  function Outer(info: Info, dep: Dep): Dep {
    if info.isChoice && info.sym.Some? then Dep(Sym(info.sym.value)) else dep
  }

  function PushInto(outer: Dep, info: Info, own: Conditions, modules: Symbol): Conditions {
    var base := Combined(outer, own.dep, modules);
    Conditions(base, seq(|own.props|, k requires 0 <= k < |own.props| =>
      PropCondition(base, own.props[k], modules, TwoValuedNode(info))))
  }

  /** The propagation step of menu_finalize from node p to its child i. */
  function Push(infos: seq<Info>, modules: Symbol): (nat, Conditions, nat, Conditions) -> Conditions {
    (p: nat, dp: Conditions, i: nat, di: Conditions) =>
      if p < |infos| && i < |infos| then PushInto(Outer(infos[p], dp.dep), infos[i], di, modules) else di
  }

  /** What a choice adds to a member it takes: a member that is not a tristate needs a tristate choice to be y. */
  function Mark(infos: seq<Info>): (nat, nat, Conditions) -> Conditions {
    (c: nat, i: nat, di: Conditions) => if c < |infos| && i < |infos| then MarkInto(infos[c], infos[i], di) else di
  }

  function MarkInto(choice: Info, member: Info, c: Conditions): Conditions {
    if choice.sym.Some? && choice.sym.value.Type() == Tristate && TwoValuedNode(member) then
      var needed := Dep(Cmp(Equal, choice.sym.value, Yes));
      Conditions(AllocJoin(And, needed, c.dep),
                 seq(|c.props|, k requires 0 <= k < |c.props| => AllocJoin(And, needed, c.props[k])))
    else c
  }

  // ---- along a chain of enclosing nodes ------------------------------------

  /** From the root down, each node encloses the next. */
  ghost predicate Chain(f: Forest, root: nat, chain: seq<nat>) {
    |chain| > 0 && chain[0] == root && forall k :: 0 <= k < |chain| - 1 ==> Encloses(f, chain[k], chain[k + 1])
  }

  function MinOf(s: seq<Tri>): Tri
    requires s != []
  {
    if |s| == 1 then s[0] else Min(s[0], MinOf(s[1..]))
  }

  lemma {:induction false} MinOfLeast(s: seq<Tri>)
    requires s != []
    ensures MinOf(s) in s && forall x :: x in s ==> MinOf(s) <= x
  {
    if |s| > 1 {
      MinOfLeast(s[1..]);
      assert s == [s[0]] + s[1..];
    }
  }

  lemma MinOfCons(x: Tri, s: seq<Tri>)
    requires s != []
    ensures MinOf([x] + s) == Min(x, MinOf(s))
  {
    assert ([x] + s)[1..] == s;
  }

  /** Everything that limits the last node of a chain: its own dependency and those around it, up to the nearest
      choice, whose value stands for all that encloses the choice. */
  function Limits(own: seq<Tri>, gate: seq<Option<Tri>>, chain: seq<nat>): (s: seq<Tri>)
    requires |own| == |gate| && |chain| > 0 && forall k :: 0 <= k < |chain| ==> chain[k] < |own|
    ensures s != []
  {
    var n := |chain| - 1;
    if n == 0 then [own[chain[0]]]
    else
      var outer := gate[chain[n - 1]];
      [own[chain[n]]] + if outer.Some? then [outer.value] else Limits(own, gate, chain[..n])
  }

  /** Values that combine each node's own with its enclosing node's are minima along chains. */
  lemma {:induction false} ChainMin(own: seq<Tri>, gate: seq<Option<Tri>>, value: seq<Tri>, chain: seq<nat>)
    requires |own| == |gate| == |value| && |chain| > 0 && forall k :: 0 <= k < |chain| ==> chain[k] < |own|
    requires value[chain[0]] == own[chain[0]]
    requires forall k :: 0 < k < |chain| ==>
      value[chain[k]] == Min(if gate[chain[k - 1]].Some? then gate[chain[k - 1]].value else value[chain[k - 1]], own[chain[k]])
    ensures value[chain[|chain| - 1]] == MinOf(Limits(own, gate, chain))
    decreases |chain|
  {
    var n := |chain| - 1;
    if n > 0 {
      ChainMin(own, gate, value, chain[..n]);
      var outer := gate[chain[n - 1]];
      MinOfCons(own[chain[n]], if outer.Some? then [outer.value] else Limits(own, gate, chain[..n]));
    }
  }

  lemma ChainPrefix(f: Forest, root: nat, chain: seq<nat>, n: nat)
    requires Chain(f, root, chain) && 0 < n <= |chain|
    ensures Chain(f, root, chain[..n])
  {
  }

  /** A node's own dependency, m limited by MODULES; the root's is taken as it stands. */
  function OwnValue(deps: seq<Conditions>, modules: Symbol, root: nat, v: Assignment, i: nat): Tri
    requires i < |deps|
  {
    EvalDep(deps[i].dep, if i == root then v else Limited(v, modules))
  }

  function OwnValues(deps: seq<Conditions>, modules: Symbol, root: nat, v: Assignment): (s: seq<Tri>)
    ensures |s| == |deps| && forall i :: 0 <= i < |s| ==> s[i] == OwnValue(deps, modules, root, v, i)
  {
    seq(|deps|, i requires 0 <= i < |deps| => OwnValue(deps, modules, root, v, i))
  }

  function Gate(info: Info, v: Assignment): Option<Tri> {
    if info.isChoice && info.sym.Some? then Some(v.tri(info.sym.value)) else None
  }

  function Gates(infos: seq<Info>, v: Assignment): (s: seq<Option<Tri>>)
    ensures |s| == |infos| && forall i :: 0 <= i < |s| ==> s[i] == Gate(infos[i], v)
  {
    seq(|infos|, i requires 0 <= i < |infos| => Gate(infos[i], v))
  }

  function DepValues(final: seq<Conditions>, v: Assignment): (s: seq<Tri>)
    ensures |s| == |final| && forall i :: 0 <= i < |s| ==> s[i] == EvalDep(final[i].dep, v)
  {
    seq(|final|, i requires 0 <= i < |final| => EvalDep(final[i].dep, v))
  }

  /** The propagated conditions of every node of the menu tree f satisfy the propagation step. */
  ghost predicate Propagated(infos: seq<Info>, modules: Symbol, f: Forest, deps: seq<Conditions>, final: seq<Conditions>) {
    && f.Node? && Distinct(f) && |infos| == |deps| == |final| && f.id < |final| && final[f.id] == deps[f.id]
    && forall p: nat, i: nat :: Encloses(f, p, i) ==>
         p < |final| && i < |final| && final[i] == Push(infos, modules)(p, final[p], i, deps[i])
  }

  /** The constants the conditions of a menu tree compare with. */
  ghost predicate Vocabulary(deps: seq<Conditions>, cs: set<Symbol>) {
    && (forall i :: 0 <= i < |deps| ==> MentionsDep(deps[i].dep, cs))
    && (forall i, k :: 0 <= i < |deps| && 0 <= k < |deps[i].props| ==> MentionsDep(deps[i].props[k], cs))
  }

  lemma {:induction false} DependencyMentions(infos: seq<Info>, modules: Symbol, f: Forest, deps: seq<Conditions>,
                                              final: seq<Conditions>, chain: seq<nat>, cs: set<Symbol>)
    requires Propagated(infos, modules, f, deps, final) && Chain(f, f.id, chain) && Vocabulary(deps, cs) && {Yes, Mod, No} <= cs
    requires forall k :: 0 <= k < |chain| ==> chain[k] < |deps|
    ensures MentionsDep(final[chain[|chain| - 1]].dep, cs)
    decreases |chain|
  {
    var n := |chain| - 1;
    if n > 0 {
      var p, i := chain[n - 1], chain[n];
      assert Encloses(f, p, i);
      ChainPrefix(f, f.id, chain, n);
      DependencyMentions(infos, modules, f, deps, final, chain[..n], cs);
      CombinedMentions(Outer(infos[p], final[p].dep), deps[i].dep, modules, cs);
    }
  }

  lemma StepValue(infos: seq<Info>, modules: Symbol, f: Forest, deps: seq<Conditions>, final: seq<Conditions>, v: Assignment,
                  p: nat, i: nat, cs: set<Symbol>)
    requires Propagated(infos, modules, f, deps, final) && Encloses(f, p, i)
    requires WellTyped(v) && ConstantsDistinct(v, cs) && Vocabulary(deps, cs)
    requires p < |final| && MentionsDep(final[p].dep, cs)
    ensures i < |final|
    ensures EvalDep(final[i].dep, v) == Min(if Gate(infos[p], v).Some? then Gate(infos[p], v).value else EvalDep(final[p].dep, v),
                                            OwnValue(deps, modules, f.id, v, i))
  {
    EnclosesIn(f, p, i);
    CombinedValue(Outer(infos[p], final[p].dep), deps[i].dep, modules, v, cs);
  }

  /** After propagation a node's dependency is the minimum of everything that limits it. */
  lemma DependencyValue(infos: seq<Info>, modules: Symbol, f: Forest, deps: seq<Conditions>, final: seq<Conditions>,
                        chain: seq<nat>, v: Assignment, cs: set<Symbol>)
    requires WellTyped(v) && ConstantsDistinct(v, cs) && Vocabulary(deps, cs)
    requires Propagated(infos, modules, f, deps, final) && Chain(f, f.id, chain)
    requires forall k :: 0 <= k < |chain| ==> chain[k] < |deps|
    ensures EvalDep(final[chain[|chain| - 1]].dep, v)
            == MinOf(Limits(OwnValues(deps, modules, f.id, v), Gates(infos, v), chain))
  {
    var own, gate, value := OwnValues(deps, modules, f.id, v), Gates(infos, v), DepValues(final, v);
    forall k | 0 < k < |chain|
      ensures value[chain[k]]
              == Min(if gate[chain[k - 1]].Some? then gate[chain[k - 1]].value else value[chain[k - 1]], own[chain[k]])
    {
      assert Encloses(f, chain[k - 1], chain[k - 1 + 1]);
      ChainPrefix(f, f.id, chain, k);
      DependencyMentions(infos, modules, f, deps, final, chain[..k], cs);
      StepValue(infos, modules, f, deps, final, v, chain[k - 1], chain[k], cs);
    }
    ChainMin(own, gate, value, chain);
  }

  lemma {:induction false} DependencyNormal(infos: seq<Info>, modules: Symbol, f: Forest, deps: seq<Conditions>,
                                            final: seq<Conditions>, chain: seq<nat>)
    requires Propagated(infos, modules, f, deps, final) && Chain(f, f.id, chain) && NormalDep(deps[f.id].dep)
    requires forall k :: 0 <= k < |chain| ==> chain[k] < |deps|
    ensures NormalDep(final[chain[|chain| - 1]].dep)
    decreases |chain|
  {
    var n := |chain| - 1;
    if n > 0 {
      var p, i := chain[n - 1], chain[n];
      assert Encloses(f, p, i);
      ChainPrefix(f, f.id, chain, n);
      DependencyNormal(infos, modules, f, deps, final, chain[..n]);
      CombinedNormal(Outer(infos[p], final[p].dep), deps[i].dep, modules);
    }
  }

  /** ... and each property's condition is that combined with its own condition. */
  lemma PropertyValue(infos: seq<Info>, modules: Symbol, f: Forest, deps: seq<Conditions>, final: seq<Conditions>,
                      chain: seq<nat>, k: nat, v: Assignment, cs: set<Symbol>)
    requires WellTyped(v) && ConstantsDistinct(v, cs) && Vocabulary(deps, cs)
    requires Propagated(infos, modules, f, deps, final) && Chain(f, f.id, chain) && |chain| > 1 && NormalDep(deps[f.id].dep)
    requires forall k :: 0 <= k < |chain| ==> chain[k] < |deps|
    requires k < |deps[chain[|chain| - 1]].props|
    ensures var i := chain[|chain| - 1];
            && |final[i].props| == |deps[i].props|
            && var x := EvalDep(final[i].props[k], v);
               var y := Min(EvalDep(final[i].dep, v), EvalDep(deps[i].props[k], Limited(v, modules)));
               match infos[i].sym
               case None => x == y
               case Some(s) => if s.Type() == Tristate then x == y else Promote(x) == Promote(y)
  {
    var n := |chain| - 1;
    assert Encloses(f, chain[n - 1], chain[n]);
    DependencyNormal(infos, modules, f, deps, final, chain);
    DependencyMentions(infos, modules, f, deps, final, chain, cs);
    PropValue(final[chain[n]].dep, deps[chain[n]].props[k], modules, TwoValuedNode(infos[chain[n]]), v, cs);
  }

  // ---- choice members ------------------------------------------------------

  lemma NeededValue(choice: Symbol, d: Dep, v: Assignment)
    requires WellTyped(v) && choice.Type() == Tristate
    ensures EvalDep(AllocJoin(And, Dep(Cmp(Equal, choice, Yes)), d), v) == if v.tri(choice) == 2 then EvalDep(d, v) else 0
  {
    assert v.order(choice, Yes) == 0 <==> v.tri(choice) == TriOf(Yes);
    assert Eval(Cmp(Equal, choice, Yes), v) == if v.tri(choice) == 2 then 2 else 0;
  }

  /** A prompt of a member never exceeds its choice, and a member that is not a tristate needs the choice to be y. */
  lemma MemberContained(choice: Info, member: Info, outer: Dep, own: Conditions, modules: Symbol, k: nat, v: Assignment,
                        cs: set<Symbol>)
    requires WellTyped(v) && ConstantsDistinct(v, cs) && NormalDep(outer) && k < |own.props|
    requires MentionsDep(outer, cs) && MentionsDep(own.dep, cs) && MentionsDep(own.props[k], cs)
    requires choice.sym.Some? && (choice.sym.value.Type() == Boolean || choice.sym.value.Type() == Tristate) && member.sym.Some?
    requires EvalDep(outer, v) <= v.tri(choice.sym.value)
    ensures var x := EvalDep(MarkInto(choice, member, PushInto(outer, member, own, modules)).props[k], v);
            var c := v.tri(choice.sym.value);
            x <= c && (member.sym.value.Type() != Tristate && c != 2 ==> x == 0)
  {
    var base := Combined(outer, own.dep, modules);
    var d := PropCondition(base, own.props[k], modules, TwoValuedNode(member));
    CombinedValue(outer, own.dep, modules, v, cs);
    CombinedNormal(outer, own.dep, modules);
    CombinedMentions(outer, own.dep, modules, cs);
    PropValue(base, own.props[k], modules, TwoValuedNode(member), v, cs);
    if choice.sym.value.Type() == Tristate {
      NeededValue(choice.sym.value, d, v);
    } else {
      assert v.tri(choice.sym.value) != 1;
    }
  }

  // ---- direct dependencies of a symbol -------------------------------------

  /** dir_dep of a symbol: the dependencies of all its menu nodes, joined by or in the order they are finalised. */
  function DirDep(deps: seq<Dep>): Dep {
    if deps == [] then Null else AllocJoin(Or, DirDep(deps[..|deps| - 1]), deps[|deps| - 1])
  }

  /** A node with a dependency keeps dir_dep from falling below it ... */
  lemma {:induction false} DirDepCovers(deps: seq<Dep>, i: nat, v: Assignment)
    requires i < |deps| && deps[i].Dep?
    ensures DirDep(deps).Dep? && EvalDep(deps[i], v) <= EvalDep(DirDep(deps), v)
  {
    var n := |deps| - 1;
    if i < n {
      DirDepCovers(deps[..n], i, v);
    }
  }

  /** ... but a node without one, which is always available, does not count once another node has one. */
  lemma {:induction false} DirDepIgnoresNull(deps: seq<Dep>, e: Expr, i: nat)
    requires i < |deps| && deps[i] == Dep(e) && forall j :: 0 <= j < |deps| && j != i ==> deps[j] == Null
    ensures DirDep(deps) == Dep(e)
  {
    var n := |deps| - 1;
    if i < n {
      DirDepIgnoresNull(deps[..n], e, i);
    } else {
      AllNull(deps[..n]);
    }
  }

  lemma {:induction false} AllNull(deps: seq<Dep>)
    requires forall j :: 0 <= j < |deps| ==> deps[j] == Null
    ensures DirDep(deps) == Null
  {
    if deps != [] {
      AllNull(deps[..|deps| - 1]);
    }
  }

  /** dir_dep holds exactly when no node has a dependency or one of those that exist holds. */
  lemma {:induction false} DirDepHolds(deps: seq<Dep>, v: Assignment)
    ensures EvalDep(DirDep(deps), v) != 0
       <==> (forall j :: 0 <= j < |deps| ==> deps[j].Null?)
            || (exists j :: 0 <= j < |deps| && deps[j].Dep? && EvalDep(deps[j], v) != 0)
    ensures DirDep(deps).Null? <==> forall j :: 0 <= j < |deps| ==> deps[j].Null?
  {
    if deps != [] {
      var n := |deps| - 1;
      DirDepHolds(deps[..n], v);
      assert forall j :: 0 <= j < n ==> deps[..n][j] == deps[j];
      assert deps[n].Dep? || deps[n].Null?;
    }
  }

  /** A visible prompt has its direct dependencies met exactly when its own node has a dependency, or no node
      of the symbol has one, or one of those that other nodes have holds. */
  lemma PromptNeedsDeps(outer: Dep, info: Info, own: Conditions, modules: Symbol, k: nat, deps: seq<Dep>, i: nat, v: Assignment,
                        cs: set<Symbol>)
    requires WellTyped(v) && ConstantsDistinct(v, cs) && NormalDep(outer) && k < |own.props|
    requires MentionsDep(outer, cs) && MentionsDep(own.dep, cs) && MentionsDep(own.props[k], cs)
    requires i < |deps| && deps[i] == PushInto(outer, info, own, modules).dep
    requires EvalDep(PushInto(outer, info, own, modules).props[k], v) != 0
    ensures EvalDep(DirDep(deps), v) != 0
       <==> || deps[i].Dep?
            || (forall j :: 0 <= j < |deps| ==> deps[j].Null?)
            || (exists j :: 0 <= j < |deps| && deps[j].Dep? && EvalDep(deps[j], v) != 0)
  {
    var base := Combined(outer, own.dep, modules);
    CombinedNormal(outer, own.dep, modules);
    CombinedMentions(outer, own.dep, modules, cs);
    PropValue(base, own.props[k], modules, TwoValuedNode(info), v, cs);
    DirDepHolds(deps, v);
  }

  /** A symbol declared once under a and once unconditionally: its second prompt is visible although dir_dep is n. */
  lemma UnconditionalNode(a: Symbol, modules: Symbol, v: Assignment)
    requires v.tri(a) == 0
    ensures var second := PushInto(Null, Info(Some(a), false, Some(0)), Conditions(Null, [Null]), modules);
            second.dep == Null && EvalDep(second.props[0], v) == 2 && EvalDep(DirDep([Dep(Sym(a)), second.dep]), v) == 0
  {
    DirDepIgnoresNull([Dep(Sym(a)), Null], Sym(a), 0);
  }

  // ---- reverse and implied dependencies of a symbol ------------------------

  /** A select or imply: the symbol that has it and its propagated condition. */
  datatype Select = Select(source: Symbol, cond: Dep)

  /** rev_dep or implied of a symbol: everything that selects or implies it, joined by or. */
  function RevDep(selects: seq<Select>): Dep {
    if selects == [] then Null
    else
      var s := selects[|selects| - 1];
      AllocJoin(Or, RevDep(selects[..|selects| - 1]), AllocJoin(And, Dep(Sym(s.source)), s.cond))
  }

  function SelectValue(s: Select, v: Assignment): Tri {
    Min(v.tri(s.source), EvalDep(s.cond, v))
  }

  lemma OfferValue(s: Select, v: Assignment)
    ensures EvalDep(AllocJoin(And, Dep(Sym(s.source)), s.cond), v) == SelectValue(s, v)
  {
    assert Eval(Sym(s.source), v) == v.tri(s.source);
  }

  /** It is the best of what they offer: one of them reaches it and none exceeds it. */
  lemma {:induction false} RevDepValue(selects: seq<Select>, v: Assignment) returns (k: nat)
    requires selects != []
    ensures RevDep(selects).Dep? && k < |selects| && SelectValue(selects[k], v) == EvalDep(RevDep(selects), v)
    ensures forall j :: 0 <= j < |selects| ==> SelectValue(selects[j], v) <= EvalDep(RevDep(selects), v)
  {
    k := |selects| - 1;
    OfferValue(selects[k], v);
    if k > 0 {
      var rest := selects[..k];
      var j := RevDepValue(rest, v);
      assert forall i :: 0 <= i < |rest| ==> rest[i] == selects[i];
      if SelectValue(selects[k], v) < SelectValue(selects[j], v) {
        k := j;
      }
    }
  }
}
