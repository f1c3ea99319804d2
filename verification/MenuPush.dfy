/** What propagating dependencies down a menu tree, one list of children at a time, amounts to. */
module MenuPush {
  import opened MenuForest

  /** Writes the dependencies of the siblings in f, below x. */
  function PushSpine<D>(push: (nat, D, nat, D) -> D, dep: seq<D>, x: nat, f: Forest): (r: seq<D>)
    ensures |r| == |dep|
    decreases f
  {
    if f.Nil? || f.id >= |dep| || x >= |dep| then dep
    else PushSpine(push, dep[f.id := push(x, dep[x], f.id, dep[f.id])], x, f.rest)
  }

  /** ... and of everything below each of them. */
  function PushAll<D>(push: (nat, D, nat, D) -> D, dep: seq<D>, f: Forest): (r: seq<D>)
    ensures |r| == |dep|
    decreases f
  {
    if f.Nil? then dep
    else PushAll(push, PushAll(push, PushSpine(push, dep, f.id, f.kids), f.kids), f.rest)
  }

  lemma {:induction false} PushAllAppend<D>(push: (nat, D, nat, D) -> D, dep: seq<D>, f: Forest, g: Forest)
    ensures PushAll(push, dep, Append(f, g)) == PushAll(push, PushAll(push, dep, f), g)
    decreases f
  {
    if f.Node? {
      PushAllAppend(push, PushAll(push, PushSpine(push, dep, f.id, f.kids), f.kids), f.rest, g);
    }
  }

  /** i is one of the siblings in f. */
  predicate OnSpine(f: Forest, i: nat) {
    f.Node? && (f.id == i || OnSpine(f.rest, i))
  }

  /** p is the node that encloses i. */
  predicate Encloses(f: Forest, p: nat, i: nat) {
    f.Node? && ((f.id == p && OnSpine(f.kids, i)) || Encloses(f.kids, p, i) || Encloses(f.rest, p, i))
  }

  lemma {:induction false} OnSpineIn(f: Forest, i: nat)
    requires OnSpine(f, i)
    ensures i in Ids(f)
  {
    if f.id != i {
      OnSpineIn(f.rest, i);
    }
  }

  lemma {:induction false} EnclosesIn(f: Forest, p: nat, i: nat)
    requires Encloses(f, p, i) && Distinct(f)
    ensures p in Ids(f) && i in Ids(f) && !OnSpine(f, i)
  {
    if f.id == p && OnSpine(f.kids, i) {
      OnSpineIn(f.kids, i);
    } else if Encloses(f.kids, p, i) {
      EnclosesIn(f.kids, p, i);
    } else {
      EnclosesIn(f.rest, p, i);
    }
    if OnSpine(f.rest, i) {
      OnSpineIn(f.rest, i);
    }
  }

  ghost predicate Inside(f: Forest, n: nat) {
    forall i :: i in Ids(f) ==> i < n
  }

  lemma {:induction false} SpinePushed<D>(push: (nat, D, nat, D) -> D, dep: seq<D>, x: nat, f: Forest, i: nat)
    requires Distinct(f) && Inside(f, |dep|) && x < |dep| && x !in Ids(f) && i < |dep|
    ensures PushSpine(push, dep, x, f)[i] == if OnSpine(f, i) then push(x, dep[x], i, dep[i]) else dep[i]
    decreases f
  {
    if f.Node? {
      SpinePushed(push, dep[f.id := push(x, dep[x], f.id, dep[f.id])], x, f.rest, i);
      if OnSpine(f.rest, i) {
        OnSpineIn(f.rest, i);
      }
    }
  }

  /** Nothing is written outside f, nor at the top of f. */
  lemma {:induction false} PushKept<D>(push: (nat, D, nat, D) -> D, dep: seq<D>, f: Forest, i: nat)
    requires Distinct(f) && Inside(f, |dep|) && i < |dep| && (i !in Ids(f) || OnSpine(f, i))
    ensures PushAll(push, dep, f)[i] == dep[i]
    decreases f
  {
    if f.Node? {
      var d1 := PushSpine(push, dep, f.id, f.kids);
      SpinePushed(push, dep, f.id, f.kids, i);
      if OnSpine(f.kids, i) {
        OnSpineIn(f.kids, i);
      }
      if OnSpine(f.rest, i) {
        OnSpineIn(f.rest, i);
      }
      PushKept(push, d1, f.kids, i);
      PushKept(push, PushAll(push, d1, f.kids), f.rest, i);
    }
  }

  /** Every node ends up with its own dependencies combined with the final ones of the node that encloses it. */
  lemma {:induction false} Pushed<D>(push: (nat, D, nat, D) -> D, dep: seq<D>, f: Forest, p: nat, i: nat)
    requires Distinct(f) && Inside(f, |dep|) && Encloses(f, p, i)
    ensures p < |dep| && i < |dep|
    ensures PushAll(push, dep, f)[i] == push(p, PushAll(push, dep, f)[p], i, dep[i])
    decreases f
  {
    EnclosesIn(f, p, i);
    var d1 := PushSpine(push, dep, f.id, f.kids);
    var d2 := PushAll(push, d1, f.kids);
    SpinePushed(push, dep, f.id, f.kids, i);
    SpinePushed(push, dep, f.id, f.kids, p);
    if f.id == p && OnSpine(f.kids, i) {
      OnSpineIn(f.kids, i);
      if OnSpine(f.kids, p) {
        OnSpineIn(f.kids, p);
      }
      PushKept(push, d1, f.kids, i);
      PushKept(push, d1, f.kids, p);
      PushKept(push, d2, f.rest, i);
      PushKept(push, d2, f.rest, p);
    } else if Encloses(f.kids, p, i) {
      EnclosesIn(f.kids, p, i);
      Pushed(push, d1, f.kids, p, i);
      PushKept(push, d2, f.rest, i);
      PushKept(push, d2, f.rest, p);
    } else {
      EnclosesIn(f.rest, p, i);
      if OnSpine(f.kids, i) {
        OnSpineIn(f.kids, i);
      }
      PushKept(push, d1, f.kids, i);
      Pushed(push, d2, f.rest, p, i);
    }
  }

  /** Propagating dep down f gives final. */
  ghost predicate Leads<D>(push: (nat, D, nat, D) -> D, dep: seq<D>, final: seq<D>, f: Forest) {
    |dep| == |final| && forall i :: i in Ids(f) && i < |dep| ==> PushAll(push, dep, f)[i] == final[i]
  }

  /** The siblings in f already have what they will have. */
  lemma {:induction false} LeadsHere<D>(push: (nat, D, nat, D) -> D, dep: seq<D>, final: seq<D>, f: Forest, i: nat)
    requires Leads(push, dep, final, f) && Distinct(f) && Inside(f, |dep|) && OnSpine(f, i)
    ensures i < |dep| && dep[i] == final[i]
  {
    OnSpineIn(f, i);
    PushKept(push, dep, f, i);
  }

  lemma {:induction false} LeadsKids<D>(push: (nat, D, nat, D) -> D, dep: seq<D>, final: seq<D>, f: Forest)
    requires f.Node? && Leads(push, dep, final, f) && Distinct(f) && Inside(f, |dep|)
    ensures Leads(push, PushSpine(push, dep, f.id, f.kids), final, f.kids)
  {
    var d := PushSpine(push, dep, f.id, f.kids);
    assert forall i :: i in Ids(f.rest) ==> i in Ids(f);
    forall i | i in Ids(f.kids) && i < |dep| ensures PushAll(push, d, f.kids)[i] == final[i] {
      PushKept(push, PushAll(push, d, f.kids), f.rest, i);
    }
  }

  lemma {:induction false} LeadsOn<D>(push: (nat, D, nat, D) -> D, dep: seq<D>, final: seq<D>, f: Forest, g: Forest)
    requires Leads(push, dep, final, Append(f, g))
    ensures Leads(push, PushAll(push, dep, f), final, g)
  {
    PushAllAppend(push, dep, f, g);
    IdsAppend(f, g);
  }

  /** The first node of what is left is a sibling, and none of the others is it. */
  lemma {:induction false} SuffixPart(g: Forest, f: Forest)
    requires Suffix(g, f) && Distinct(f)
    ensures Ids(g) <= Ids(f) && Distinct(g) && (g.Node? ==> OnSpine(f, g.id) && Suffix(g.rest, f))
    decreases f
  {
    if g != f {
      SuffixPart(g, f.rest);
    } else if f.Node? {
      assert Suffix(f.rest, f.rest);
    }
  }
}
