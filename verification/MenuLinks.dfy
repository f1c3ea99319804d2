/** What each relinking step of menu_finalize does to the menu tree. */
module MenuLinks {
  import opened KconfigExpr
  import opened MenuForest

  /** Only the nodes in s have other links. */
  ghost predicate Framed(l: Links, l': Links, n: nat, s: set<nat>) {
    l.Sized(n) && l'.Sized(n) && forall i :: 0 <= i < n && i !in s ==> SameAt(l, l', i)
  }

  lemma FramedTrans(l1: Links, l2: Links, l3: Links, n: nat, a: set<nat>, b: set<nat>)
    requires Framed(l1, l2, n, a) && Framed(l2, l3, n, b)
    ensures Framed(l1, l3, n, a + b)
  {
  }

  lemma FramedSame(l: Links, l': Links, n: nat, s: set<nat>, f: Forest)
    requires Framed(l, l', n, s) && Within(f, n) && Ids(f) !! s
    ensures Same(l, l', Ids(f))
  {
  }

  ghost predicate Within(f: Forest, n: nat) {
    forall i :: i in Ids(f) ==> i < n
  }

  /** Node x with its children and the siblings after it. */
  ghost predicate At(l: Links, n: nat, x: nat, kids: Forest, rest: Forest) {
    && l.Sized(n) && x < n && Within(kids, n) && Within(rest, n) && Distinct(Node(x, kids, rest))
    && Linked(l, l.list[x], kids) && Linked(l, l.next[x], rest) && Parented(l, x, kids) && Inner(l, rest)
  }

  /** What finalising node x promises of the links. */
  ghost predicate Finalised(l: Links, l': Links, n: nat, x: nat, kids: Forest, rest: Forest,
                            kids': Forest, used: Forest, rest': Forest) {
    && At(l', n, x, kids', rest') && rest == Append(used, rest') && Pre(kids') == Pre(kids) + Pre(used)
    && Framed(l, l', n, Ids(Node(x, kids, used))) && l.parent[x] == l'.parent[x]
  }

  /** Sibling list f below x. */
  ghost predicate Below(l: Links, n: nat, x: nat, f: Forest) {
    && l.Sized(n) && x < n && Within(f, n) && Distinct(f) && x !in Ids(f)
    && Linked(l, l.list[x], f) && Parented(l, x, f)
  }

  /** One node of the list below x has been finalised and may have taken siblings with it. */
  lemma BelowStep(l: Links, l': Links, n: nat, x: nat, done: Forest, rem: Forest, k': Forest, used: Forest, rem': Forest)
    requires Below(l, n, x, Append(done, rem))
    requires rem.Node? && Finalised(l, l', n, rem.id, rem.kids, rem.rest, k', used, rem')
    ensures Below(l', n, x, Append(done, Node(rem.id, k', rem')))
  {
    var touched, now := Ids(Node(rem.id, rem.kids, used)), Node(rem.id, k', rem');
    DistinctAppend(done, rem);
    IdsAppend(done, rem);
    IdsAppend(used, rem');
    NodePre(rem, k', used, rem');
    StepPre(done, rem, now);
    StepApart(rem, used, rem');
    FramedSame(l, l', n, touched, done);
    FramedSame(l, l', n, touched, rem');
    SpineReplace(l, l', l.list[x], done, rem, now);
    StepParented(l, l', x, done, rem, k', used, rem');
  }

  lemma NodePre(rem: Forest, k': Forest, used: Forest, rem': Forest)
    requires rem.Node? && rem.rest == Append(used, rem') && Pre(k') == Pre(rem.kids) + Pre(used)
    ensures Pre(rem) == Pre(Node(rem.id, k', rem'))
  {
    PreAppend(used, rem');
    Regroup([rem.id], Pre(rem.kids), Pre(used), Pre(rem'));
  }

  lemma StepPre(done: Forest, rem: Forest, now: Forest)
    requires Pre(rem) == Pre(now)
    ensures var f, g := Append(done, rem), Append(done, now);
            Pre(f) == Pre(g) && Ids(f) == Ids(g) && (Distinct(f) <==> Distinct(g))
  {
    PreAppend(done, rem);
    PreAppend(done, now);
    SamePre(Append(done, rem), Append(done, now));
  }

  lemma StepApart(rem: Forest, used: Forest, rem': Forest)
    requires rem.Node? && rem.rest == Append(used, rem') && Distinct(rem)
    ensures Ids(rem') !! Ids(Node(rem.id, rem.kids, used)) && Distinct(rem')
  {
    DistinctAppend(used, rem');
    IdsAppend(used, rem');
  }

  lemma StepParented(l: Links, l': Links, x: nat, done: Forest, rem: Forest, k': Forest, used: Forest, rem': Forest)
    requires Parented(l, x, Append(done, rem)) && rem.Node? && rem.rest == Append(used, rem')
    requires Same(l, l', Ids(done)) && Same(l, l', Ids(rem'))
    requires rem.id < |l.parent| == |l'.parent| && l.parent[rem.id] == l'.parent[rem.id] && Parented(l', rem.id, k')
    ensures Parented(l', x, Append(done, Node(rem.id, k', rem')))
  {
    ParentedAppend(l, x, done, rem);
    ParentedAppend(l, x, used, rem');
    ParentedSame(l, l', x, done);
    ParentedSame(l, l', x, rem');
    ParentedAppend(l', x, done, Node(rem.id, k', rem'));
  }

  // ---- flattening ----------------------------------------------------------

  /** The links after the children k of m have been moved up behind m, below x. */
  function Spliced(l: Links, x: nat, m: nat, k: Forest): Links
    requires k.Node? && m < |l.list| && m < |l.next| && Last(k) < |l.next|
  {
    Links(l.list[m := None], l.next[Last(k) := l.next[m]][m := l.list[m]], SetParents(l.parent, k, x))
  }

  lemma SplicedLinks(l: Links, x: nat, rem: Forest)
    requires rem.Node? && rem.kids.Node? && Linked(l, Some(rem.id), rem) && Distinct(rem)
    ensures Last(rem.kids) < |l.next|
    ensures Linked(Spliced(l, x, rem.id, rem.kids), Some(rem.id), Node(rem.id, Nil, Append(rem.kids, rem.rest)))
  {
    var m, k, r := rem.id, rem.kids, rem.rest;
    JoinSpine(l, l.list[m], k, r);
    assert l.next[m] == Head(r);
    var joined := l.(next := l.next[Last(k) := Head(r)]);
    IdsAppend(k, r);
    NextElsewhere(joined, l.list[m], Append(k, r), m, l.list[m]);
    var l1 := joined.(next := joined.next[m := l.list[m]]);
    ListElsewhere(l1, l.list[m], Append(k, r), m, None);
    var l2 := l1.(list := l1.list[m := None]);
    LinkedBound(l2, l.list[m], Append(k, r));
    LinkedSame(l2, Spliced(l, x, m, k), l.list[m], Append(k, r));
  }

  lemma SplicedParents(l: Links, x: nat, rem: Forest)
    requires rem.Node? && rem.kids.Node? && rem.id < |l.list| && rem.id < |l.next| && Last(rem.kids) < |l.next|
    requires Parented(l, x, rem) && Distinct(rem)
    ensures Parented(Spliced(l, x, rem.id, rem.kids), x, Node(rem.id, Nil, Append(rem.kids, rem.rest)))
  {
    var k, l' := rem.kids, Spliced(l, x, rem.id, rem.kids);
    ParentedBound(l, rem.id, k);
    ParentedBound(l, x, rem.rest);
    Reparented(l, rem.id, k, x);
    ParentedSame(l.(parent := SetParents(l.parent, k, x)), l', x, k);
    ParentedSame(l, l', x, rem.rest);
    ParentedAppend(l', x, k, rem.rest);
  }

  lemma SplicedPre(rem: Forest)
    requires rem.Node?
    ensures Pre(rem) == Pre(Node(rem.id, Nil, Append(rem.kids, rem.rest)))
  {
    PreAppend(rem.kids, rem.rest);
    Regroup([rem.id], [], Pre(rem.kids), Pre(rem.rest));
    assert [] + Pre(rem.kids) == Pre(rem.kids);
  }

  lemma SplicedFrame(l: Links, n: nat, x: nat, m: nat, k: Forest)
    requires l.Sized(n) && k.Node? && m < n && Last(k) < n
    ensures Framed(l, Spliced(l, x, m, k), n, {m} + Ids(k))
  {
  }

  lemma BelowSpliced(l: Links, n: nat, x: nat, done: Forest, rem: Forest)
    requires Below(l, n, x, Append(done, rem)) && rem.Node? && rem.kids.Node?
    ensures Last(rem.kids) < n && rem.id < n
    ensures Below(Spliced(l, x, rem.id, rem.kids), n, x, Append(done, Node(rem.id, Nil, Append(rem.kids, rem.rest))))
  {
    var now := Node(rem.id, Nil, Append(rem.kids, rem.rest));
    DistinctAppend(done, rem);
    IdsAppend(done, rem);
    LinkedSuffix(l, l.list[x], done, rem);
    SplicedLinks(l, x, rem);
    var l' := Spliced(l, x, rem.id, rem.kids);
    SplicedFrame(l, n, x, rem.id, rem.kids);
    FramedSame(l, l', n, {rem.id} + Ids(rem.kids), done);
    SpineReplace(l, l', l.list[x], done, rem, now);
    SplicedPre(rem);
    StepPre(done, rem, now);
    SplicedBoth(l, l', x, done, rem);
  }

  lemma SplicedBoth(l: Links, l': Links, x: nat, done: Forest, rem: Forest)
    requires rem.Node? && rem.kids.Node? && rem.id < |l.list| && rem.id < |l.next| && Last(rem.kids) < |l.next|
    requires Parented(l, x, Append(done, rem)) && Distinct(rem) && l' == Spliced(l, x, rem.id, rem.kids)
    requires SameParents(l, l', Ids(done))
    ensures Parented(l', x, Append(done, Node(rem.id, Nil, Append(rem.kids, rem.rest))))
  {
    ParentedAppend(l, x, done, rem);
    ParentedSame(l, l', x, done);
    SplicedParents(l, x, rem);
    ParentedAppend(l', x, done, Node(rem.id, Nil, Append(rem.kids, rem.rest)));
  }

  // ---- automatic submenus --------------------------------------------------

  /** The siblings after x: done will become its children, rem has not been looked at. */
  ghost predicate Absorbing(l: Links, n: nat, x: nat, done: Forest, rem: Forest) {
    && l.Sized(n) && x < n && x !in Ids(Append(done, rem)) && Within(Append(done, rem), n) && Distinct(Append(done, rem))
    && Linked(l, l.next[x], Append(done, rem)) && Parented(l, x, done) && Inner(l, rem)
  }

  lemma AbsorbStep(l: Links, l1: Links, n: nat, x: nat, done: Forest, rem: Forest, k': Forest, used: Forest, rem': Forest)
    requires Absorbing(l, n, x, done, rem)
    requires rem.Node? && Finalised(l, l1, n, rem.id, rem.kids, rem.rest, k', used, rem')
    ensures Absorbing(l1.(parent := l1.parent[rem.id := Some(x)]), n, x, Append(done, Node(rem.id, k', Nil)), rem')
  {
    var m, now := rem.id, Node(rem.id, k', rem');
    var l' := l1.(parent := l1.parent[m := Some(x)]);
    DistinctAppend(done, rem);
    IdsAppend(done, rem);
    NodePre(rem, k', used, rem');
    StepPre(done, rem, now);
    AppendAssoc(done, Node(m, k', Nil), rem');
    IdsAppend(used, rem');
    FramedSame(l, l1, n, Ids(Node(m, rem.kids, used)), done);
    AbsorbLinks(l, l1, l.next[x], done, rem, now, l1.parent[m := Some(x)]);
    AbsorbParents(l, l1, x, done, m, k');
    InnerSame(l1, l', rem');
  }

  lemma AbsorbLinks(l: Links, l1: Links, first: Option<nat>, done: Forest, rem: Forest, now: Forest, parent: seq<Option<nat>>)
    requires Linked(l, first, Append(done, rem)) && SameLists(l, l1, Ids(done))
    requires Head(rem) == Head(now) && Linked(l1, Head(now), now)
    ensures Linked(l1.(parent := parent), first, Append(done, now))
  {
    SpineReplace(l, l1, first, done, rem, now);
    LinkedBound(l1, first, Append(done, now));
    LinkedSame(l1, l1.(parent := parent), first, Append(done, now));
  }

  lemma AbsorbParents(l: Links, l1: Links, x: nat, done: Forest, m: nat, k': Forest)
    requires Parented(l, x, done) && SameParents(l, l1, Ids(done)) && Parented(l1, m, k')
    requires m < |l1.parent| && m !in Ids(done) && m !in Ids(k')
    ensures Parented(l1.(parent := l1.parent[m := Some(x)]), x, Append(done, Node(m, k', Nil)))
  {
    ParentedSame(l, l1, x, done);
    ParentedElsewhere(l1, x, done, m, Some(x));
    ParentedElsewhere(l1, m, k', m, Some(x));
    ParentedAppend(l1.(parent := l1.parent[m := Some(x)]), x, done, Node(m, k', Nil));
  }

  lemma ParentedElsewhere(l: Links, p: nat, f: Forest, j: nat, v: Option<nat>)
    requires Parented(l, p, f) && j < |l.parent| && j !in Ids(f)
    ensures Parented(l.(parent := l.parent[j := v]), p, f)
  {
    ParentedBound(l, p, f);
    ParentedSame(l, l.(parent := l.parent[j := v]), p, f);
  }

  /** The links after the siblings in done have been made the children of x. */
  function Adopted(l: Links, x: nat, last: nat): Links
    requires x < |l.list| && x < |l.next| && last < |l.next|
  {
    Links(l.list[x := l.next[x]], l.next[x := l.next[last]][last := None], l.parent)
  }

  lemma AdoptedAt(l: Links, n: nat, x: nat, done: Forest, rem: Forest)
    requires Absorbing(l, n, x, done, rem) && done.Node?
    ensures Last(done) < n && At(Adopted(l, x, Last(done)), n, x, done, rem)
  {
    var last := Last(done);
    DistinctAppend(done, rem);
    IdsAppend(done, rem);
    CutSpine(l, l.next[x], done, rem);
    LinkedSuffix(l, l.next[x], done, rem);
    var cut := l.(next := l.next[last := None]);
    NextElsewhere(l, Head(rem), rem, last, None);
    var l' := Adopted(l, x, last);
    LinkedBound(cut, l.next[x], done);
    LinkedBound(cut, Head(rem), rem);
    LinkedSame(cut, l', l.next[x], done);
    LinkedSame(cut, l', Head(rem), rem);
    ParentedBound(l, x, done);
    ParentedSame(l, l', x, done);
    InnerSame(l, l', rem);
  }
}
