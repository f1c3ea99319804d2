/** What menu_finalize joins into the dependencies of symbols: dir_dep, rev_dep and implied. */
module MenuJoins {
  import opened KconfigExpr
  import opened ExprTransform
  import opened MenuForest
  import opened MenuPush
  import opened MenuTree
  import opened MenuFinalize
  import opened MenuDeps
  import opened MenuMembers
  import opened MenuRun

  // ---- which nodes are reached ---------------------------------------------

  lemma {:induction false} SpineHas(f: Forest, i: nat)
    ensures i in Spine(f) <==> OnSpine(f, i)
  {
    if f.Node? {
      SpineHas(f.rest, i);
    }
  }

  /** Conditions are propagated to exactly the nodes that another encloses. */
  lemma {:induction false} SelsEnclosed(f: Forest, i: nat) returns (p: nat)
    requires i in Sels(f)
    ensures Encloses(f, p, i)
  {
    SpineHas(f.kids, i);
    if i in Spine(f.kids) {
      p := f.id;
    } else if i in Sels(f.kids) {
      p := SelsEnclosed(f.kids, i);
    } else {
      p := SelsEnclosed(f.rest, i);
    }
  }

  lemma {:induction false} EnclosedSels(f: Forest, p: nat, i: nat)
    requires Encloses(f, p, i)
    ensures i in Sels(f)
  {
    SpineHas(f.kids, i);
    if Encloses(f.kids, p, i) {
      EnclosedSels(f.kids, p, i);
    } else if Encloses(f.rest, p, i) {
      EnclosedSels(f.rest, p, i);
    }
  }

  // ---- dir_dep -------------------------------------------------------------

  /** The dependencies joined for a symbol, in order. */
  function Joined(ids: seq<Option<nat>>, sym: nat, nodes: seq<nat>, conds: seq<Conditions>): seq<Dep>
    requires |nodes| == |conds|
    decreases |nodes|
  {
    if nodes == [] then []
    else
      var n := |nodes| - 1;
      Joined(ids, sym, nodes[..n], conds[..n]) + if nodes[n] < |ids| && ids[nodes[n]] == Some(sym) then [conds[n].dep] else []
  }

  lemma {:induction false} JoinedHas(ids: seq<Option<nat>>, sym: nat, nodes: seq<nat>, conds: seq<Conditions>, k: nat)
    requires |nodes| == |conds| && k < |nodes| && nodes[k] < |ids| && ids[nodes[k]] == Some(sym)
    ensures conds[k].dep in Joined(ids, sym, nodes, conds)
    decreases |nodes|
  {
    var n := |nodes| - 1;
    if k < n {
      JoinedHas(ids, sym, nodes[..n], conds[..n], k);
    }
  }

  // ---- rev_dep and implied -------------------------------------------------

  /** The properties of one node that concern a symbol, given by which they are. */
  function Offered(source: Option<Symbol>, wants: nat -> bool, props: seq<Dep>): seq<Select> {
    if props == [] then []
    else
      var n := |props| - 1;
      Offered(source, wants, props[..n]) + if wants(n) && source.Some? then [Select(source.value, props[n])] else []
  }

  function Of(wants: (nat, nat) -> bool, i: nat): nat -> bool {
    (k: nat) => wants(i, k)
  }

  /** All of them, in order. */
  function Selections(infos: seq<Info>, wants: (nat, nat) -> bool, nodes: seq<nat>, conds: seq<Conditions>): seq<Select>
    requires |nodes| == |conds|
    decreases |nodes|
  {
    if nodes == [] then []
    else
      var n := |nodes| - 1;
      var i := nodes[n];
      Selections(infos, wants, nodes[..n], conds[..n])
        + if i < |infos| then Offered(infos[i].sym, Of(wants, i), conds[n].props) else []
  }

  lemma {:induction false} OfferedHas(source: Option<Symbol>, wants: nat -> bool, props: seq<Dep>, s: Select)
    ensures s in Offered(source, wants, props) <==>
              exists k :: 0 <= k < |props| && wants(k) && source == Some(s.source) && props[k] == s.cond
    decreases |props|
  {
    if props != [] {
      var n := |props| - 1;
      OfferedHas(source, wants, props[..n], s);
      assert forall k :: 0 <= k < n ==> props[..n][k] == props[k];
    }
  }

  /** s is property k of the j-th node. */
  predicate SourceAt(infos: seq<Info>, wants: (nat, nat) -> bool, nodes: seq<nat>, conds: seq<Conditions>, s: Select, j: nat, k: nat) {
    && j < |nodes| == |conds| && nodes[j] < |infos| && k < |conds[j].props| && wants(nodes[j], k)
    && infos[nodes[j]].sym == Some(s.source) && conds[j].props[k] == s.cond
  }

  lemma {:induction false} SelectionsFrom(infos: seq<Info>, wants: (nat, nat) -> bool, nodes: seq<nat>, conds: seq<Conditions>, s: Select)
    returns (j: nat, k: nat)
    requires |nodes| == |conds| && s in Selections(infos, wants, nodes, conds)
    ensures SourceAt(infos, wants, nodes, conds, s, j, k)
    decreases |nodes|
  {
    var n := |nodes| - 1;
    var i := nodes[n];
    if s in Selections(infos, wants, nodes[..n], conds[..n]) {
      j, k := SelectionsFrom(infos, wants, nodes[..n], conds[..n], s);
    } else {
      OfferedHas(infos[i].sym, Of(wants, i), conds[n].props, s);
      j := n;
      k :| 0 <= k < |conds[n].props| && wants(i, k) && infos[i].sym == Some(s.source) && conds[n].props[k] == s.cond;
    }
  }

  lemma {:induction false} SelectionsHave(infos: seq<Info>, wants: (nat, nat) -> bool, nodes: seq<nat>, conds: seq<Conditions>, s: Select,
                                        j: nat, k: nat)
    requires |nodes| == |conds| && SourceAt(infos, wants, nodes, conds, s, j, k)
    ensures s in Selections(infos, wants, nodes, conds)
    decreases |nodes|
  {
    var n := |nodes| - 1;
    if j < n {
      SelectionsHave(infos, wants, nodes[..n], conds[..n], s, j, k);
    } else {
      OfferedHas(infos[nodes[n]].sym, Of(wants, nodes[n]), conds[n].props, s);
    }
  }

  /** rev_dep (or implied) of a symbol, collected while conditions are propagated, is the best of what all the nodes of the
      tree offer in the end: each offer is the minimum of the selecting symbol and the property's condition. */
  lemma {:induction false} RunRevDep(infos: seq<Info>, modules: Symbol, f: Forest, deps: seq<Conditions>, wants: (nat, nat) -> bool,
                                     sels: seq<nat>, selDeps: seq<Conditions>, v: Assignment) returns (p: nat, i: nat, k: nat)
    requires sels == Sels(f) && Collected(PushAll(Push(infos, modules), deps, f), sels, selDeps)
    ensures var pushed, rev := PushAll(Push(infos, modules), deps, f), RevDep(Selections(infos, wants, sels, selDeps));
            && (forall p, i, k :: Encloses(f, p, i) && Offer(infos, wants, pushed, i, k) ==>
                  rev.Dep? && OfferValueOf(infos, pushed, i, k, v) <= EvalDep(rev, v))
            && (rev.Dep? ==> OffersAt(infos, wants, f, pushed, p, i, k, v, EvalDep(rev, v)))
  {
    var pushed, all := PushAll(Push(infos, modules), deps, f), Selections(infos, wants, sels, selDeps);
    forall p, i, k | Encloses(f, p, i) && Offer(infos, wants, pushed, i, k)
      ensures RevDep(all).Dep? && OfferValueOf(infos, pushed, i, k, v) <= EvalDep(RevDep(all), v)
    {
      OfferCounts(infos, wants, f, pushed, sels, selDeps, p, i, k, v);
    }
    if RevDep(all).Dep? {
      p, i, k := BestOffer(infos, wants, f, pushed, sels, selDeps, v);
    } else {
      p, i, k := 0, 0, 0;
    }
  }

  /** Property k of node i, which p encloses, offers x. */
  predicate OffersAt(infos: seq<Info>, wants: (nat, nat) -> bool, f: Forest, pushed: seq<Conditions>, p: nat, i: nat, k: nat,
                     v: Assignment, x: Tri) {
    Encloses(f, p, i) && Offer(infos, wants, pushed, i, k) && OfferValueOf(infos, pushed, i, k, v) == x
  }

  predicate Offer(infos: seq<Info>, wants: (nat, nat) -> bool, pushed: seq<Conditions>, i: nat, k: nat) {
    i < |infos| && i < |pushed| && k < |pushed[i].props| && wants(i, k) && infos[i].sym.Some?
  }

  function OfferValueOf(infos: seq<Info>, pushed: seq<Conditions>, i: nat, k: nat, v: Assignment): Tri
    requires i < |infos| && i < |pushed| && k < |pushed[i].props| && infos[i].sym.Some?
  {
    SelectValue(Select(infos[i].sym.value, pushed[i].props[k]), v)
  }

  lemma {:induction false} OfferCounts(infos: seq<Info>, wants: (nat, nat) -> bool, f: Forest, pushed: seq<Conditions>, sels: seq<nat>,
                                       selDeps: seq<Conditions>, p: nat, i: nat, k: nat, v: Assignment)
    requires sels == Sels(f) && Collected(pushed, sels, selDeps) && Encloses(f, p, i) && Offer(infos, wants, pushed, i, k)
    ensures var rev := RevDep(Selections(infos, wants, sels, selDeps));
            rev.Dep? && OfferValueOf(infos, pushed, i, k, v) <= EvalDep(rev, v)
  {
    EnclosedSels(f, p, i);
    var j :| 0 <= j < |sels| && sels[j] == i;
    var s, all := Select(infos[i].sym.value, pushed[i].props[k]), Selections(infos, wants, sels, selDeps);
    SelectionsHave(infos, wants, sels, selDeps, s, j, k);
    var t :| 0 <= t < |all| && all[t] == s;
    var best := RevDepValue(all, v);
  }

  lemma {:induction false} BestOffer(infos: seq<Info>, wants: (nat, nat) -> bool, f: Forest, pushed: seq<Conditions>, sels: seq<nat>,
                                     selDeps: seq<Conditions>, v: Assignment) returns (p: nat, i: nat, k: nat)
    requires sels == Sels(f) && Collected(pushed, sels, selDeps) && RevDep(Selections(infos, wants, sels, selDeps)).Dep?
    ensures Encloses(f, p, i) && Offer(infos, wants, pushed, i, k)
    ensures OfferValueOf(infos, pushed, i, k, v) == EvalDep(RevDep(Selections(infos, wants, sels, selDeps)), v)
  {
    var all := Selections(infos, wants, sels, selDeps);
    var t := RevDepValue(all, v);
    var j;
    j, k := SelectionsFrom(infos, wants, sels, selDeps, all[t]);
    i := sels[j];
    p := SelsEnclosed(f, i);
    assert all[t] == Select(infos[i].sym.value, pushed[i].props[k]);
  }
}
