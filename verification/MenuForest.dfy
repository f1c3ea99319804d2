/** Menu trees as linked nodes: first child, next sibling, parent. */
module MenuForest {
  import opened KconfigExpr

  /** The links of all menu nodes, by node number. */
  datatype Links = Links(list: seq<Option<nat>>, next: seq<Option<nat>>, parent: seq<Option<nat>>)
  {
    ghost predicate Sized(n: nat) {
      |list| == |next| == |parent| == n
    }
  }

  /** A sibling list: its first node, that node's children, and the siblings after it. */
  datatype Forest = Nil | Node(id: nat, kids: Forest, rest: Forest)

  /** All nodes in preorder. */
  function Pre(f: Forest): seq<nat> {
    if f.Nil? then [] else [f.id] + Pre(f.kids) + Pre(f.rest)
  }

  function Head(f: Forest): Option<nat> {
    if f.Nil? then None else Some(f.id)
  }

  /** Puts g after the last sibling of f. */
  function Append(f: Forest, g: Forest): Forest {
    if f.Nil? then g else Node(f.id, f.kids, Append(f.rest, g))
  }

  /** Following the links from first visits exactly f. */
  ghost predicate Linked(l: Links, first: Option<nat>, f: Forest)
    decreases f
  {
    match f
    case Nil => first == None
    case Node(id, kids, rest) =>
      && first == Some(id) && id < |l.list| && id < |l.next|
      && Linked(l, l.list[id], kids) && Linked(l, l.next[id], rest)
  }

  /** Every node's parent link names the node whose list holds it. */
  ghost predicate Parented(l: Links, p: nat, f: Forest)
    decreases f
  {
    match f
    case Nil => true
    case Node(id, kids, rest) =>
      id < |l.parent| && l.parent[id] == Some(p) && Parented(l, id, kids) && Parented(l, p, rest)
  }

  ghost predicate NoDup(s: seq<nat>) {
    forall i, j :: 0 <= i < j < |s| ==> s[i] != s[j]
  }

  function Ids(f: Forest): set<nat> {
    if f.Nil? then {} else {f.id} + Ids(f.kids) + Ids(f.rest)
  }

  /** No node occurs twice. */
  ghost predicate Distinct(f: Forest) {
    f.Nil? || (&& f.id !in Ids(f.kids) && f.id !in Ids(f.rest) && Ids(f.kids) !! Ids(f.rest)
               && Distinct(f.kids) && Distinct(f.rest))
  }

  ghost predicate ListsAt(l: Links, l': Links, i: nat) {
    && i < |l.list| == |l'.list| && l.list[i] == l'.list[i]
    && i < |l.next| == |l'.next| && l.next[i] == l'.next[i]
  }

  ghost predicate ParentAt(l: Links, l': Links, i: nat) {
    i < |l.parent| == |l'.parent| && l.parent[i] == l'.parent[i]
  }

  ghost predicate SameAt(l: Links, l': Links, i: nat) {
    ListsAt(l, l', i) && ParentAt(l, l', i)
  }

  ghost predicate SameLists(l: Links, l': Links, s: set<nat>) {
    forall i :: i in s ==> ListsAt(l, l', i)
  }

  ghost predicate SameParents(l: Links, l': Links, s: set<nat>) {
    forall i :: i in s ==> ParentAt(l, l', i)
  }

  /** The links of every node in s are the same in both. */
  ghost predicate Same(l: Links, l': Links, s: set<nat>) {
    SameLists(l, l', s) && SameParents(l, l', s)
  }

  lemma {:induction false} LinkedSame(l: Links, l': Links, first: Option<nat>, f: Forest)
    requires Linked(l, first, f) && SameLists(l, l', Ids(f))
    ensures Linked(l', first, f)
    decreases f
  {
    if f.Node? {
      LinkedSame(l, l', l.list[f.id], f.kids);
      LinkedSame(l, l', l.next[f.id], f.rest);
    }
  }

  lemma {:induction false} ParentedSame(l: Links, l': Links, p: nat, f: Forest)
    requires Parented(l, p, f) && SameParents(l, l', Ids(f))
    ensures Parented(l', p, f)
    decreases f
  {
    if f.Node? {
      ParentedSame(l, l', f.id, f.kids);
      ParentedSame(l, l', p, f.rest);
    }
  }

  lemma {:induction false} PreAppend(f: Forest, g: Forest)
    ensures Pre(Append(f, g)) == Pre(f) + Pre(g)
  {
    if f.Node? {
      PreAppend(f.rest, g);
    }
  }

  lemma {:induction false} AppendAssoc(f: Forest, g: Forest, h: Forest)
    ensures Append(Append(f, g), h) == Append(f, Append(g, h))
  {
    if f.Node? {
      AppendAssoc(f.rest, g, h);
    }
  }

  lemma {:induction false} AppendNil(f: Forest)
    ensures Append(f, Nil) == f
  {
    if f.Node? {
      AppendNil(f.rest);
    }
  }

  lemma {:induction false} ParentedAppend(l: Links, p: nat, f: Forest, g: Forest)
    ensures Parented(l, p, Append(f, g)) <==> Parented(l, p, f) && Parented(l, p, g)
  {
    if f.Node? {
      ParentedAppend(l, p, f.rest, g);
    }
  }

  /** Replacing what follows the siblings in f, when their own links have not changed. */
  lemma {:induction false} SpineReplace(l: Links, l': Links, first: Option<nat>, f: Forest, g: Forest, g': Forest)
    requires Linked(l, first, Append(f, g)) && SameLists(l, l', Ids(f))
    requires Head(g) == Head(g') && Linked(l', Head(g), g')
    ensures Linked(l', first, Append(f, g'))
    decreases f
  {
    if f.Node? {
      LinkedSame(l, l', l.list[f.id], f.kids);
      SpineReplace(l, l', l.next[f.id], f.rest, g, g');
    } else {
      assert first == Head(g);
    }
  }

  lemma {:induction false} LinkedSuffix(l: Links, first: Option<nat>, f: Forest, g: Forest)
    requires Linked(l, first, Append(f, g))
    ensures Linked(l, Head(g), g)
    decreases f
  {
    if f.Node? {
      LinkedSuffix(l, l.next[f.id], f.rest, g);
    }
  }

  lemma {:induction false} IdsPre(f: Forest)
    ensures forall i :: i in Ids(f) <==> i in Pre(f)
  {
    if f.Node? {
      IdsPre(f.kids);
      IdsPre(f.rest);
    }
  }

  lemma {:induction false} IdsAppend(f: Forest, g: Forest)
    ensures Ids(Append(f, g)) == Ids(f) + Ids(g)
  {
    if f.Node? {
      IdsAppend(f.rest, g);
    }
  }

  lemma NoDupParts(a: seq<nat>, b: seq<nat>)
    ensures NoDup(a + b) <==> NoDup(a) && NoDup(b) && forall i :: i in a ==> i !in b
  {
    var s := a + b;
    if NoDup(s) {
      assert forall i :: 0 <= i < |a| ==> s[i] == a[i];
      assert forall j :: 0 <= j < |b| ==> s[|a| + j] == b[j];
    }
    if NoDup(a) && NoDup(b) && forall i :: i in a ==> i !in b {
      forall i, j | 0 <= i < j < |s| ensures s[i] != s[j] {
        if i < |a| <= j {
          assert a[i] in a && b[j - |a|] in b;
        }
      }
    }
  }

  lemma {:induction false} DistinctPre(f: Forest)
    ensures Distinct(f) <==> NoDup(Pre(f))
  {
    if f.Node? {
      DistinctPre(f.kids);
      DistinctPre(f.rest);
      NoDupParts([f.id] + Pre(f.kids), Pre(f.rest));
      NoDupParts([f.id], Pre(f.kids));
      IdsPre(f.kids);
      IdsPre(f.rest);
      assert f.id in [f.id] + Pre(f.kids);
      assert forall i :: i in Pre(f.kids) ==> i in [f.id] + Pre(f.kids);
    }
  }

  lemma {:induction false} DistinctAppend(f: Forest, g: Forest)
    requires Distinct(Append(f, g))
    ensures Distinct(f) && Distinct(g) && Ids(f) !! Ids(g)
  {
    if f.Node? {
      DistinctAppend(f.rest, g);
      IdsAppend(f.rest, g);
    }
  }

  /** Equal preorders: the same nodes, none twice. */
  lemma SamePre(f: Forest, g: Forest)
    requires Pre(f) == Pre(g)
    ensures Ids(f) == Ids(g) && (Distinct(f) <==> Distinct(g))
  {
    IdsPre(f);
    IdsPre(g);
    DistinctPre(f);
    DistinctPre(g);
  }

  lemma Regroup(a: seq<nat>, b: seq<nat>, c: seq<nat>, d: seq<nat>)
    ensures a + b + (c + d) == a + (b + c) + d
  {
  }

  lemma {:induction false} LinkedBound(l: Links, first: Option<nat>, f: Forest)
    requires Linked(l, first, f)
    ensures forall i :: i in Ids(f) ==> i < |l.list| && i < |l.next|
    decreases f
  {
    if f.Node? {
      LinkedBound(l, l.list[f.id], f.kids);
      LinkedBound(l, l.next[f.id], f.rest);
    }
  }

  lemma {:induction false} ParentedBound(l: Links, p: nat, f: Forest)
    requires Parented(l, p, f)
    ensures forall i :: i in Ids(f) ==> i < |l.parent|
    decreases f
  {
    if f.Node? {
      ParentedBound(l, f.id, f.kids);
      ParentedBound(l, p, f.rest);
    }
  }

  /** A list does not notice the next link of a node outside it. */
  lemma NextElsewhere(l: Links, first: Option<nat>, f: Forest, j: nat, v: Option<nat>)
    requires Linked(l, first, f) && j < |l.next| && j !in Ids(f)
    ensures Linked(l.(next := l.next[j := v]), first, f)
  {
    LinkedBound(l, first, f);
    LinkedSame(l, l.(next := l.next[j := v]), first, f);
  }

  lemma ListElsewhere(l: Links, first: Option<nat>, f: Forest, j: nat, v: Option<nat>)
    requires Linked(l, first, f) && j < |l.list| && j !in Ids(f)
    ensures Linked(l.(list := l.list[j := v]), first, f)
  {
    LinkedBound(l, first, f);
    LinkedSame(l, l.(list := l.list[j := v]), first, f);
  }

  /** The last sibling. */
  function Last(f: Forest): (i: nat)
    requires f.Node?
    ensures i in Ids(f)
  {
    if f.rest.Nil? then f.id else Last(f.rest)
  }

  /** Ending the list after f. */
  lemma {:induction false} CutSpine(l: Links, first: Option<nat>, f: Forest, g: Forest)
    requires f.Node? && Linked(l, first, Append(f, g)) && Distinct(f)
    ensures Last(f) < |l.next| && l.next[Last(f)] == Head(g)
    ensures Linked(l.(next := l.next[Last(f) := None]), first, f)
    decreases f
  {
    if f.rest.Node? {
      CutSpine(l, l.next[f.id], f.rest, g);
    } else {
      assert Append(f, g) == Node(f.id, f.kids, g);
    }
    NextElsewhere(l, l.list[f.id], f.kids, Last(f), None);
  }

  /** Continuing the list f with g. */
  lemma {:induction false} JoinSpine(l: Links, first: Option<nat>, f: Forest, g: Forest)
    requires f.Node? && Linked(l, first, f) && Linked(l, Head(g), g) && Distinct(f) && Ids(f) !! Ids(g)
    ensures Last(f) < |l.next| && Linked(l.(next := l.next[Last(f) := Head(g)]), first, Append(f, g))
    decreases f
  {
    if f.rest.Node? {
      JoinSpine(l, l.next[f.id], f.rest, g);
    }
    NextElsewhere(l, l.list[f.id], f.kids, Last(f), Head(g));
    NextElsewhere(l, Head(g), g, Last(f), Head(g));
  }

  /** Parent links after every sibling in f has been given parent p. */
  function SetParents(parent: seq<Option<nat>>, f: Forest, p: nat): (r: seq<Option<nat>>)
    ensures |r| == |parent| && forall i :: 0 <= i < |r| && i !in Ids(f) ==> r[i] == parent[i]
    decreases f
  {
    if f.Nil? || f.id >= |parent| then parent else SetParents(parent[f.id := Some(p)], f.rest, p)
  }

  lemma {:induction false} Reparented(l: Links, q: nat, f: Forest, p: nat)
    requires Parented(l, q, f) && Distinct(f)
    ensures Parented(l.(parent := SetParents(l.parent, f, p)), p, f)
    decreases f
  {
    if f.Node? {
      ParentedBound(l, q, f.rest);
      ParentedBound(l, f.id, f.kids);
      var l1 := l.(parent := l.parent[f.id := Some(p)]);
      ParentedSame(l, l1, q, f.rest);
      Reparented(l1, q, f.rest, p);
      var l2 := l.(parent := SetParents(l.parent, f, p));
      assert l2 == l1.(parent := SetParents(l1.parent, f.rest, p));
      ParentedSame(l, l2, f.id, f.kids);
    }
  }

  lemma Regroup3(a: seq<nat>, b: seq<nat>, c: seq<nat>)
    ensures a + b + c == a + (b + c)
  {
  }

  lemma {:induction false} LastAppend(f: Forest, g: Forest)
    requires g.Node?
    ensures Append(f, g).Node? && Last(Append(f, g)) == Last(g)
  {
    if f.Node? {
      LastAppend(f.rest, g);
    }
  }

  /** The parent links below the siblings in f are right; those of the siblings themselves may be anything. */
  ghost predicate Inner(l: Links, f: Forest)
    decreases f
  {
    f.Nil? || (Parented(l, f.id, f.kids) && Inner(l, f.rest))
  }

  lemma {:induction false} ParentedInner(l: Links, p: nat, f: Forest)
    requires Parented(l, p, f)
    ensures Inner(l, f)
    decreases f
  {
    if f.Node? {
      ParentedInner(l, p, f.rest);
    }
  }

  lemma {:induction false} InnerSame(l: Links, l': Links, f: Forest)
    requires Inner(l, f) && SameParents(l, l', Ids(f))
    ensures Inner(l', f)
    decreases f
  {
    if f.Node? {
      ParentedSame(l, l', f.id, f.kids);
      InnerSame(l, l', f.rest);
    }
  }

  /** g is what is left of f after some siblings. */
  predicate Suffix(g: Forest, f: Forest) {
    g == f || (f.Node? && Suffix(g, f.rest))
  }
}
