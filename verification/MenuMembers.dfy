/** Where a choice finds its members: below it in the parsed menu tree, with no other choice between. */
module MenuMembers {
  import opened KconfigExpr
  import opened MenuForest
  import opened MenuPush
  import opened MenuTree

  // ---- nothing is lost -----------------------------------------------------

  lemma {:induction false} FlatPre(e: Plan, f: Forest)
    ensures Pre(Flat(e, f)) == Pre(f)
    decreases Count(f)
  {
    if f.Node? {
      if f.kids.Node? && !e.Prompts(f.id) {
        CountAppend(f.kids, f.rest);
        FlatPre(e, Append(f.kids, f.rest));
        PreAppend(f.kids, f.rest);
      } else {
        FlatPre(e, f.rest);
      }
    }
  }

  lemma {:induction false} FinishedPre(e: Plan, x: nat, kids: Forest, rest: Forest)
    ensures var b := Finished(e, x, kids, rest);
            && Pre(b.kids) + Pre(b.rest) == Pre(kids) + Pre(rest) && Suffix(b.rest, rest)
            && Pre(Filled(e, x, kids, rest).kids) == Pre(b.kids) && (kids.Node? ==> b.rest == rest && Pre(b.kids) == Pre(kids))
    decreases Count(kids) + Count(rest), 1
  {
    if kids.Node? {
      EachPre(e, kids);
    } else if e.Symbol(x) {
      GatheredPre(e, x, rest);
    }
    FlatPre(e, Filled(e, x, kids, rest).kids);
  }

  lemma {:induction false} EachPre(e: Plan, f: Forest)
    ensures Pre(Each(e, f).kids) == Pre(f)
    decreases Count(f), 0
  {
    if f.Node? {
      var b := Finished(e, f.id, f.kids, f.rest);
      FinishedPre(e, f.id, f.kids, f.rest);
      EachPre(e, b.rest);
      Regroup3([f.id], Pre(b.kids), Pre(b.rest));
      Regroup3([f.id], Pre(f.kids), Pre(f.rest));
    }
  }

  lemma {:induction false} GatheredPre(e: Plan, x: nat, f: Forest)
    ensures var b := Gathered(e, x, f); Pre(b.kids) + Pre(b.rest) == Pre(f) && Suffix(b.rest, f)
    decreases Count(f), 0
  {
    if f.Node? && e.takes(x, f.id) {
      var b := Finished(e, f.id, f.kids, f.rest);
      FinishedPre(e, f.id, f.kids, f.rest);
      GatheredPre(e, x, b.rest);
      var c := Gathered(e, x, b.rest);
      SuffixTrans(c.rest, b.rest, f.rest);
      PreMoved(f.id, Pre(f.kids), Pre(f.rest), Pre(b.kids), Pre(b.rest), Pre(c.kids), Pre(c.rest));
    }
  }

  lemma {:induction false} PreMoved(i: nat, kids: seq<nat>, rest: seq<nat>, kids': seq<nat>, rest': seq<nat>, taken: seq<nat>, left: seq<nat>)
    requires kids' + rest' == kids + rest && taken + left == rest'
    ensures [i] + kids' + taken + left == [i] + kids + rest
  {
    Regroup3([i] + kids', taken, left);
    Regroup3([i], kids', rest');
    Regroup3([i], kids, rest);
  }

  lemma {:induction false} SuffixTrans(h: Forest, g: Forest, f: Forest)
    requires Suffix(h, g) && Suffix(g, f)
    ensures Suffix(h, f)
    decreases f
  {
    if g != f {
      SuffixTrans(h, g, f.rest);
    }
  }

  lemma {:induction false} SuffixIds(g: Forest, f: Forest)
    requires Suffix(g, f) && Distinct(f)
    ensures Ids(g) <= Ids(f) && Distinct(g)
    decreases f
  {
    if g != f {
      SuffixIds(g, f.rest);
    }
  }

  // ---- descent -------------------------------------------------------------

  /** i is somewhere below d. */
  predicate Holds(f: Forest, d: nat, i: nat) {
    f.Node? && ((f.id == d && i in Ids(f.kids)) || Holds(f.kids, d, i) || Holds(f.rest, d, i))
  }

  /** i is somewhere below a node with a prompt. */
  predicate Kept(e: Plan, f: Forest, i: nat) {
    f.Node? && ((e.Prompts(f.id) && i in Ids(f.kids)) || Kept(e, f.kids, i) || Kept(e, f.rest, i))
  }

  lemma {:induction false} HoldsIds(f: Forest, d: nat, i: nat)
    requires Holds(f, d, i)
    ensures d in Ids(f) && i in Ids(f)
  {
    if !(f.id == d && i in Ids(f.kids)) {
      if Holds(f.kids, d, i) {
        HoldsIds(f.kids, d, i);
      } else {
        HoldsIds(f.rest, d, i);
      }
    }
  }

  lemma {:induction false} KeptIds(e: Plan, f: Forest, i: nat)
    requires Kept(e, f, i)
    ensures i in Ids(f)
  {
    if !(e.Prompts(f.id) && i in Ids(f.kids)) {
      if Kept(e, f.kids, i) {
        KeptIds(e, f.kids, i);
      } else {
        KeptIds(e, f.rest, i);
      }
    }
  }

  /** A sibling in f is below none of the nodes of f. */
  lemma {:induction false} SpineFree(e: Plan, f: Forest, d: nat, i: nat)
    requires Distinct(f) && OnSpine(f, i)
    ensures !Holds(f, d, i) && !Kept(e, f, i)
    decreases f
  {
    OnSpineIn(f, i);
    if Holds(f.kids, d, i) {
      HoldsIds(f.kids, d, i);
    }
    if Kept(e, f.kids, i) {
      KeptIds(e, f.kids, i);
    }
    if f.id == i {
      if Holds(f.rest, d, i) {
        HoldsIds(f.rest, d, i);
      }
      if Kept(e, f.rest, i) {
        KeptIds(e, f.rest, i);
      }
    } else {
      OnSpineIn(f.rest, i);
      SpineFree(e, f.rest, d, i);
    }
  }

  lemma {:induction false} HoldsAppend(e: Plan, f: Forest, g: Forest, d: nat, i: nat)
    ensures Holds(Append(f, g), d, i) <==> Holds(f, d, i) || Holds(g, d, i)
    ensures Kept(e, Append(f, g), i) <==> Kept(e, f, i) || Kept(e, g, i)
    decreases f
  {
    if f.Node? {
      HoldsAppend(e, f.rest, g, d, i);
    }
  }

  /** In a tidy forest whatever is not at the top is below a prompt. */
  lemma {:induction false} TidyKept(e: Plan, f: Forest, i: nat)
    requires Tidy(e, f) && i in Ids(f) && !OnSpine(f, i)
    ensures Kept(e, f, i)
    decreases f
  {
    if i in Ids(f.rest) {
      TidyKept(e, f.rest, i);
    }
  }

  lemma {:induction false} FlatKept(e: Plan, f: Forest, i: nat)
    requires Kept(e, f, i)
    ensures Kept(e, Flat(e, f), i)
    decreases Count(f)
  {
    if f.kids.Node? && !e.Prompts(f.id) {
      CountAppend(f.kids, f.rest);
      HoldsAppend(e, f.kids, f.rest, 0, i);
      FlatKept(e, Append(f.kids, f.rest), i);
    } else if Kept(e, f.rest, i) {
      FlatKept(e, f.rest, i);
    }
  }

  /** i has not got away from d unseen: d's loop has passed it, or it is still below d, or below a prompt. */
  predicate Follows(e: Plan, f: Forest, visits: seq<(nat, nat)>, d: nat, i: nat) {
    (d, i) in visits || Holds(f, d, i) || Kept(e, f, i)
  }

  lemma {:induction false} FlatFollows(e: Plan, f: Forest, visits: seq<(nat, nat)>, d: nat, i: nat)
    requires TidyInside(e, f) && Follows(e, f, visits, d, i) && (Encloses(f, d, i) ==> (d, i) in visits)
    ensures Follows(e, Flat(e, f), visits, d, i)
    decreases Count(f)
  {
    if Kept(e, f, i) {
      FlatKept(e, f, i);
    } else if f.Node? && (d, i) !in visits {
      if f.kids.Node? && !e.Prompts(f.id) {
        var g := Append(f.kids, f.rest);
        CountAppend(f.kids, f.rest);
        HoldsAppend(e, f.kids, f.rest, d, i);
        EnclosesAppend(f.kids, f.rest, d, i);
        TidyAppend(e, f.kids, f.rest);
        if f.id == d && i in Ids(f.kids) {
          TidyKept(e, f.kids, i);
        }
        FlatFollows(e, g, visits, d, i);
      } else if Holds(f.rest, d, i) {
        FlatFollows(e, f.rest, visits, d, i);
      }
    }
  }

  predicate Inside(e: Plan, f: Forest, d: nat, i: nat) {
    Holds(f, d, i) || Kept(e, f, i)
  }

  lemma {:induction false} InsideParts(e: Plan, x: nat, kids: Forest, rest: Forest, d: nat, i: nat)
    requires Inside(e, Node(x, kids, rest), d, i)
    ensures ((d == x || e.Prompts(x)) && i in Ids(kids)) || (kids.Node? && Inside(e, kids, d, i)) || Inside(e, rest, d, i)
  {
    var f := Node(x, kids, rest);
    assert Holds(f, d, i) <==> (d == x && i in Ids(kids)) || Holds(kids, d, i) || Holds(rest, d, i);
    assert Kept(e, f, i) <==> (e.Prompts(x) && i in Ids(kids)) || Kept(e, kids, i) || Kept(e, rest, i);
  }

  lemma {:induction false} FinishedFollows(e: Plan, x: nat, kids: Forest, rest: Forest, d: nat, i: nat)
    requires Inside(e, Node(x, kids, rest), d, i)
    ensures var b := Finished(e, x, kids, rest); Follows(e, Node(x, b.kids, b.rest), b.visits, d, i)
    decreases Count(kids) + Count(rest), 1
  {
    var a, b := Filled(e, x, kids, rest), Finished(e, x, kids, rest);
    FinishedPre(e, x, kids, rest);
    InsideParts(e, x, kids, rest, d, i);
    if (d == x || e.Prompts(x)) && i in Ids(kids) {
      SamePre(kids, b.kids);
    } else if !Inside(e, b.rest, d, i) {
      if kids.Node? {
        EachFollows(e, kids, d, i);
        EachTidy(e, kids);
        EachVisits(e, kids, d, i);
      } else if e.Symbol(x) {
        GatheredFollows(e, x, rest, d, i);
        GatheredTidy(e, x, rest);
        GatheredVisits(e, x, rest, d, i);
      }
      assert Follows(e, a.kids, a.visits, d, i);
      FlatFollows(e, a.kids, a.visits, d, i);
    }
  }

  lemma {:induction false} EachFollows(e: Plan, f: Forest, d: nat, i: nat)
    requires Inside(e, f, d, i)
    ensures Follows(e, Each(e, f).kids, Each(e, f).visits, d, i)
    decreases Count(f), 0
  {
    var b := Finished(e, f.id, f.kids, f.rest);
    FinishedFollows(e, f.id, f.kids, f.rest, d, i);
    if Inside(e, b.rest, d, i) {
      EachFollows(e, b.rest, d, i);
    }
  }

  lemma {:induction false} GatheredFollows(e: Plan, x: nat, f: Forest, d: nat, i: nat)
    requires Inside(e, f, d, i)
    ensures var b := Gathered(e, x, f); Follows(e, b.kids, b.visits, d, i) || Inside(e, b.rest, d, i)
    decreases Count(f), 0
  {
    if e.takes(x, f.id) {
      var b := Finished(e, f.id, f.kids, f.rest);
      FinishedFollows(e, f.id, f.kids, f.rest, d, i);
      if Inside(e, b.rest, d, i) {
        GatheredFollows(e, x, b.rest, d, i);
      }
    }
  }

  // ---- the nearest choice --------------------------------------------------

  /** Node c has children. */
  predicate Opens(f: Forest, c: nat) {
    f.Node? && ((f.id == c && f.kids.Node?) || Opens(f.kids, c) || Opens(f.rest, c))
  }

  lemma {:induction false} OpensIds(f: Forest, c: nat)
    requires Opens(f, c)
    ensures c in Ids(f)
  {
    if !(f.id == c && f.kids.Node?) {
      if Opens(f.kids, c) {
        OpensIds(f.kids, c);
      } else {
        OpensIds(f.rest, c);
      }
    }
  }

  /** What is said of a node of f is said of it in the part of f that has it. */
  lemma {:induction false} Locate(f: Forest, g: Forest, c: nat, i: nat)
    requires Distinct(f) && Suffix(g, f) && c in Ids(g)
    ensures (Opens(f, c) ==> Opens(g, c)) && (Holds(f, c, i) ==> Holds(g, c, i)) && (Holds(g, c, i) ==> Holds(f, c, i))
    decreases f
  {
    if g != f {
      SuffixIds(g, f.rest);
      Locate(f.rest, g, c, i);
      if Opens(f.kids, c) {
        OpensIds(f.kids, c);
      }
      if Holds(f.kids, c, i) {
        HoldsIds(f.kids, c, i);
      }
    }
  }

  lemma {:induction false} LocateKids(f: Forest, c: nat, i: nat)
    requires Distinct(f) && f.Node? && c in Ids(f.kids)
    ensures (Opens(f, c) ==> Opens(f.kids, c)) && (Holds(f, c, i) ==> Holds(f.kids, c, i))
  {
    if Opens(f.rest, c) {
      OpensIds(f.rest, c);
    }
    if Holds(f.rest, c, i) {
      HoldsIds(f.rest, c, i);
    }
  }

  /** Only nodes of the list run loops. */
  lemma {:induction false} FinishedRuns(e: Plan, x: nat, kids: Forest, rest: Forest, c: nat, i: nat)
    requires (c, i) in Finished(e, x, kids, rest).visits
    ensures c == x || c in (if kids.Node? then Ids(kids) else Ids(rest))
    decreases Count(kids) + Count(rest), 2
  {
    VisitsSpine(x, Flat(e, Filled(e, x, kids, rest).kids), c, i);
    if c != x {
      FilledRuns(e, x, kids, rest, c, i);
    }
  }

  lemma {:induction false} FilledRuns(e: Plan, x: nat, kids: Forest, rest: Forest, c: nat, i: nat)
    requires (c, i) in Filled(e, x, kids, rest).visits
    ensures c in (if kids.Node? then Ids(kids) else Ids(rest))
    decreases Count(kids) + Count(rest), 1
  {
    if kids.Node? {
      EachRuns(e, kids, c, i);
    } else if e.Symbol(x) {
      GatheredRuns(e, x, rest, c, i);
    }
  }

  lemma {:induction false} EachRuns(e: Plan, f: Forest, c: nat, i: nat)
    requires (c, i) in Each(e, f).visits
    ensures c in Ids(f)
    decreases Count(f), 0
  {
    if f.Node? {
      var b := Finished(e, f.id, f.kids, f.rest);
      if (c, i) in b.visits {
        FinishedRuns(e, f.id, f.kids, f.rest, c, i);
      } else {
        EachRuns(e, b.rest, c, i);
        LeftOver(e, f);
      }
    }
  }

  lemma {:induction false} GatheredRuns(e: Plan, x: nat, f: Forest, c: nat, i: nat)
    requires (c, i) in Gathered(e, x, f).visits
    ensures c in Ids(f)
    decreases Count(f), 0
  {
    if f.Node? && e.takes(x, f.id) {
      var b := Finished(e, f.id, f.kids, f.rest);
      if (c, i) in b.visits {
        FinishedRuns(e, f.id, f.kids, f.rest, c, i);
      } else {
        GatheredRuns(e, x, b.rest, c, i);
        LeftOver(e, f);
      }
    }
  }

  lemma {:induction false} LeftOver(e: Plan, f: Forest)
    requires f.Node?
    ensures var b := Finished(e, f.id, f.kids, f.rest); Suffix(b.rest, f) && Ids(b.rest) <= Ids(f)
  {
    FinishedPre(e, f.id, f.kids, f.rest);
    SuffixIn(Finished(e, f.id, f.kids, f.rest).rest, f);
  }

  lemma {:induction false} SuffixIn(g: Forest, f: Forest)
    requires Suffix(g, f)
    ensures Ids(g) <= Ids(f)
    decreases f
  {
    if g != f {
      SuffixIn(g, f.rest);
    }
  }

  /** The k-th visit is by the loop of c: if c had children, it finds what was below it; and a node between has
      found it before. */
  ghost predicate Nearest(f: Forest, visits: seq<(nat, nat)>, k: nat, d: nat) {
    k < |visits| ==>
      var (c, i) := visits[k];
      && (Opens(f, c) ==> Holds(f, c, i))
      && (Holds(f, c, d) && Holds(f, d, i) ==> (d, i) in visits[..k])
  }

  lemma {:induction false} FinishedNearest(e: Plan, x: nat, kids: Forest, rest: Forest, k: nat, d: nat)
    requires Distinct(Node(x, kids, rest))
    ensures Nearest(Node(x, kids, rest), Finished(e, x, kids, rest).visits, k, d)
    decreases Count(kids) + Count(rest), 2
  {
    var a, b := Filled(e, x, kids, rest), Finished(e, x, kids, rest);
    if k < |a.visits| {
      assert b.visits[k] == a.visits[k] && b.visits[..k] == a.visits[..k];
      FilledNearest(e, x, kids, rest, k, d);
    } else if k < |b.visits| {
      var (c, i) := b.visits[k];
      assert (c, i) in Visits(x, b.kids);
      VisitsSpine(x, b.kids, c, i);
      OwnNearest(e, x, kids, rest, d, i);
      assert b.visits[..k] == a.visits + Visits(x, b.kids)[..k - |a.visits|];
    }
  }

  /** The loop of x itself. */
  lemma {:induction false} OwnNearest(e: Plan, x: nat, kids: Forest, rest: Forest, d: nat, i: nat)
    requires Distinct(Node(x, kids, rest)) && OnSpine(Finished(e, x, kids, rest).kids, i)
    ensures var f := Node(x, kids, rest);
            && (Opens(f, x) ==> Holds(f, x, i))
            && (Holds(f, x, d) && Holds(f, d, i) ==> (d, i) in Filled(e, x, kids, rest).visits)
  {
    var f, b := Node(x, kids, rest), Finished(e, x, kids, rest);
    OwnBelow(f, d);
    FinishedPre(e, x, kids, rest);
    OnSpineIn(b.kids, i);
    if kids.Node? {
      SamePre(kids, b.kids);
      if Holds(f, x, d) && Holds(f, d, i) {
        LocateKids(f, d, i);
        OwnSeen(e, kids, d, i);
      }
    }
  }

  /** In a list without repetitions, below x means among its children. */
  lemma {:induction false} OwnBelow(f: Forest, d: nat)
    requires f.Node? && Distinct(f)
    ensures (Opens(f, f.id) ==> f.kids.Node?) && (Holds(f, f.id, d) ==> f.kids.Node? && d in Ids(f.kids))
  {
    if Opens(f.kids, f.id) {
      OpensIds(f.kids, f.id);
    }
    if Opens(f.rest, f.id) {
      OpensIds(f.rest, f.id);
    }
    if Holds(f.kids, f.id, d) {
      HoldsIds(f.kids, f.id, d);
    }
    if Holds(f.rest, f.id, d) {
      HoldsIds(f.rest, f.id, d);
    }
  }

  /** What has come up to the top of the flattened list from below d, d has seen. */
  lemma {:induction false} OwnSeen(e: Plan, kids: Forest, d: nat, i: nat)
    requires Distinct(kids) && Holds(kids, d, i) && OnSpine(Flat(e, Each(e, kids).kids), i)
    ensures (d, i) in Each(e, kids).visits
  {
    var b := Each(e, kids);
    EachFollows(e, kids, d, i);
    EachTidy(e, kids);
    EachVisits(e, kids, d, i);
    FlatFollows(e, b.kids, b.visits, d, i);
    EachPre(e, kids);
    FlatPre(e, b.kids);
    SamePre(kids, Flat(e, b.kids));
    SpineFree(e, Flat(e, b.kids), d, i);
  }

  lemma {:induction false} FilledNearest(e: Plan, x: nat, kids: Forest, rest: Forest, k: nat, d: nat)
    requires Distinct(Node(x, kids, rest))
    ensures Nearest(Node(x, kids, rest), Filled(e, x, kids, rest).visits, k, d)
    decreases Count(kids) + Count(rest), 1
  {
    var f, a := Node(x, kids, rest), Filled(e, x, kids, rest);
    if k < |a.visits| {
      var (c, i) := a.visits[k];
      assert (c, i) in a.visits;
      FilledRuns(e, x, kids, rest, c, i);
      if kids.Node? {
        EachNearest(e, kids, k, d);
        NearestKids(f, a.visits, k, d);
      } else {
        GatheredNearest(e, x, rest, k, d);
        NearestSuffix(f, rest, a.visits, k, d);
      }
    }
  }

  lemma {:induction false} NearestKids(f: Forest, visits: seq<(nat, nat)>, k: nat, d: nat)
    requires f.Node? && Distinct(f) && k < |visits| && visits[k].0 in Ids(f.kids) && Nearest(f.kids, visits, k, d)
    ensures Nearest(f, visits, k, d)
  {
    var (c, i) := visits[k];
    LocateKids(f, c, i);
    LocateKids(f, c, d);
    if Holds(f.kids, c, d) {
      HoldsIds(f.kids, c, d);
      LocateKids(f, d, i);
    }
  }

  lemma {:induction false} NearestSuffix(f: Forest, g: Forest, visits: seq<(nat, nat)>, k: nat, d: nat)
    requires Distinct(f) && Suffix(g, f) && k < |visits| && visits[k].0 in Ids(g) && Nearest(g, visits, k, d)
    ensures Nearest(f, visits, k, d)
  {
    var (c, i) := visits[k];
    Locate(f, g, c, i);
    Locate(f, g, c, d);
    if Holds(g, c, d) {
      HoldsIds(g, c, d);
      Locate(f, g, d, i);
    }
  }

  lemma {:induction false} EachNearest(e: Plan, f: Forest, k: nat, d: nat)
    requires Distinct(f)
    ensures Nearest(f, Each(e, f).visits, k, d)
    decreases Count(f), 0
  {
    if f.Node? {
      var b := Finished(e, f.id, f.kids, f.rest);
      var c := Each(e, b.rest);
      FinishedNearest(e, f.id, f.kids, f.rest, k, d);
      if |b.visits| <= k < |b.visits| + |c.visits| {
        var j := k - |b.visits|;
        LeftOver(e, f);
        SuffixIds(b.rest, f);
        EachNearest(e, b.rest, j, d);
        assert (c.visits[j].0, c.visits[j].1) in c.visits;
        EachRuns(e, b.rest, c.visits[j].0, c.visits[j].1);
        NearestSuffix(f, b.rest, c.visits, j, d);
      }
      NearestJoin(f, b.visits, c.visits, k, d);
    }
  }

  lemma {:induction false} NearestJoin(f: Forest, a: seq<(nat, nat)>, b: seq<(nat, nat)>, k: nat, d: nat)
    requires Nearest(f, a, k, d) && (k >= |a| ==> Nearest(f, b, k - |a|, d))
    ensures Nearest(f, a + b, k, d)
  {
    var s := a + b;
    if k < |a| {
      assert s[k] == a[k] && s[..k] == a[..k];
    } else if k < |s| {
      assert s[k] == b[k - |a|] && s[..k] == a + b[..k - |a|];
    }
  }

  lemma {:induction false} GatheredNearest(e: Plan, x: nat, f: Forest, k: nat, d: nat)
    requires Distinct(f)
    ensures Nearest(f, Gathered(e, x, f).visits, k, d)
    decreases Count(f), 0
  {
    if f.Node? && e.takes(x, f.id) {
      var b := Finished(e, f.id, f.kids, f.rest);
      var c := Gathered(e, x, b.rest);
      FinishedNearest(e, f.id, f.kids, f.rest, k, d);
      if |b.visits| <= k < |b.visits| + |c.visits| {
        var j := k - |b.visits|;
        LeftOver(e, f);
        SuffixIds(b.rest, f);
        GatheredNearest(e, x, b.rest, j, d);
        assert (c.visits[j].0, c.visits[j].1) in c.visits;
        GatheredRuns(e, x, b.rest, c.visits[j].0, c.visits[j].1);
        NearestSuffix(f, b.rest, c.visits, j, d);
      }
      NearestJoin(f, b.visits, c.visits, k, d);
    }
  }

  /** A choice that had children in the parsed tree marks only nodes that were below it there, with no choice between. */
  lemma {:induction false} MarkedNearest(e: Plan, choice: seq<bool>, root: nat, kids: Forest, c: nat, i: nat, d: nat)
    requires var f := Node(root, kids, Nil); Distinct(f) && Opens(f, c)
    requires i < |e.symbol| && Flagged(choice, e.symbol, Finished(e, root, kids, Nil).visits).marks[i] == Some(c)
    ensures var f := Node(root, kids, Nil); Holds(f, c, i) && (Holds(f, c, d) && Holds(f, d, i) && d < |choice| ==> !choice[d])
  {
    var f, visits := Node(root, kids, Nil), Finished(e, root, kids, Nil).visits;
    MarkedIff(choice, e.symbol, visits, c, i);
    var k: nat :| First(choice, e.symbol, visits, k) && visits[k] == (c, i);
    FinishedNearest(e, root, kids, Nil, k, d);
    if (d, i) in visits[..k] {
      var j :| 0 <= j < k && visits[..k][j] == (d, i);
      assert visits[j] == (d, i);
    }
  }

  // ---- choices without children --------------------------------------------

  ghost predicate TakesSibling(e: Plan, f: Forest, c: nat) {
    exists m :: OnSpine(f, m) && e.takes(c, m)
  }

  ghost predicate TakesBelow(e: Plan, f: Forest, p: nat, c: nat) {
    exists m :: Encloses(f, p, m) && e.takes(c, m)
  }

  /** The k-th visit is by the loop of c: if c had no children, it takes one of its siblings, it finds what was below its
      parent p, and a node between has found it before. */
  ghost predicate Beside(e: Plan, f: Forest, visits: seq<(nat, nat)>, k: nat, p: nat, d: nat) {
    k < |visits| ==>
      var (c, i) := visits[k];
      !Opens(f, c) ==>
        && (OnSpine(f, c) ==> i in Ids(f) && TakesSibling(e, f, c) && (Holds(f, d, i) ==> (d, i) in visits[..k]))
        && (Encloses(f, p, c) ==>
              Holds(f, p, i) && TakesBelow(e, f, p, c) && (Holds(f, p, d) && Holds(f, d, i) ==> (d, i) in visits[..k]))
  }

  lemma {:induction false} FinishedBeside(e: Plan, x: nat, kids: Forest, rest: Forest, k: nat, p: nat, d: nat)
    requires Distinct(Node(x, kids, rest))
    ensures Beside(e, Node(x, kids, rest), Finished(e, x, kids, rest).visits, k, p, d)
    decreases Count(kids) + Count(rest), 2
  {
    var a, b, f := Filled(e, x, kids, rest), Finished(e, x, kids, rest), Node(x, kids, rest);
    if k < |a.visits| {
      assert b.visits[k] == a.visits[k] && b.visits[..k] == a.visits[..k];
      FilledBeside(e, x, kids, rest, k, p, d);
    } else if k < |b.visits| {
      var (c, i) := b.visits[k];
      assert (c, i) in Visits(x, b.kids);
      VisitsSpine(x, b.kids, c, i);
      if Encloses(f, p, x) {
        EnclosesIn(f, p, x);
      }
      if !Opens(f, x) {
        OwnBeside(e, x, rest, d, i);
        assert b.visits[..k] == a.visits + Visits(x, b.kids)[..k - |a.visits|];
      }
    }
  }

  /** The loop of a node x without children. */
  lemma {:induction false} OwnBeside(e: Plan, x: nat, rest: Forest, d: nat, i: nat)
    requires Distinct(Node(x, Nil, rest)) && OnSpine(Finished(e, x, Nil, rest).kids, i)
    ensures var f := Node(x, Nil, rest);
            i in Ids(f) && TakesSibling(e, f, x) && (Holds(f, d, i) ==> (d, i) in Filled(e, x, Nil, rest).visits)
  {
    var f := Node(x, Nil, rest);
    OwnGathers(e, x, rest, i);
    GatheredIds(e, x, rest, i);
    assert OnSpine(f, rest.id) && e.takes(x, rest.id);
    assert Suffix(rest, f.rest) && Suffix(rest, f);
    SuffixHolds(f, rest, d, i);
    if Holds(rest, d, i) {
      GatheredSeen(e, x, rest, d, i);
    }
  }

  lemma {:induction false} OwnGathers(e: Plan, x: nat, rest: Forest, i: nat)
    requires OnSpine(Finished(e, x, Nil, rest).kids, i)
    ensures Filled(e, x, Nil, rest).visits == Gathered(e, x, rest).visits && OnSpine(Flat(e, Gathered(e, x, rest).kids), i)
    ensures rest.Node? && e.takes(x, rest.id)
  {
    var a := Filled(e, x, Nil, rest);
    assert Finished(e, x, Nil, rest).kids == Flat(e, a.kids);
    assert a.kids.Node?;
  }

  lemma {:induction false} GatheredIds(e: Plan, x: nat, rest: Forest, i: nat)
    requires OnSpine(Flat(e, Gathered(e, x, rest).kids), i)
    ensures i in Ids(rest)
  {
    var b := Gathered(e, x, rest);
    GatheredPre(e, x, rest);
    FlatPre(e, b.kids);
    OnSpineIn(Flat(e, b.kids), i);
    IdsPre(Flat(e, b.kids));
    IdsPre(rest);
  }

  lemma {:induction false} GatheredSeen(e: Plan, x: nat, rest: Forest, d: nat, i: nat)
    requires Distinct(rest) && Holds(rest, d, i) && OnSpine(Flat(e, Gathered(e, x, rest).kids), i)
    ensures (d, i) in Gathered(e, x, rest).visits
  {
    var b := Gathered(e, x, rest);
    GatheredFollows(e, x, rest, d, i);
    GatheredTidy(e, x, rest);
    GatheredVisits(e, x, rest, d, i);
    GatheredApart(e, x, rest, i);
    if Inside(e, b.rest, d, i) {
      InsideIds(e, b.rest, d, i);
    }
    FlatFollows(e, b.kids, b.visits, d, i);
    SpineFree(e, Flat(e, b.kids), d, i);
  }

  lemma {:induction false} InsideIds(e: Plan, f: Forest, d: nat, i: nat)
    requires Inside(e, f, d, i)
    ensures i in Ids(f)
  {
    if Holds(f, d, i) {
      HoldsIds(f, d, i);
    } else {
      KeptIds(e, f, i);
    }
  }

  lemma {:induction false} GatheredApart(e: Plan, x: nat, rest: Forest, i: nat)
    requires Distinct(rest) && OnSpine(Flat(e, Gathered(e, x, rest).kids), i)
    ensures var b := Gathered(e, x, rest); i !in Ids(b.rest) && Distinct(Flat(e, b.kids))
  {
    var b := Gathered(e, x, rest);
    var k := Flat(e, b.kids);
    GatheredPre(e, x, rest);
    FlatPre(e, b.kids);
    DistinctPre(rest);
    NoDupParts(Pre(k), Pre(b.rest));
    DistinctPre(k);
    OnSpineIn(k, i);
    IdsPre(k);
    IdsPre(b.rest);
  }

  lemma {:induction false} FilledBeside(e: Plan, x: nat, kids: Forest, rest: Forest, k: nat, p: nat, d: nat)
    requires Distinct(Node(x, kids, rest))
    ensures Beside(e, Node(x, kids, rest), Filled(e, x, kids, rest).visits, k, p, d)
    decreases Count(kids) + Count(rest), 1
  {
    var f, a := Node(x, kids, rest), Filled(e, x, kids, rest);
    if k < |a.visits| {
      var (c, i) := a.visits[k];
      assert (c, i) in a.visits;
      FilledRuns(e, x, kids, rest, c, i);
      if kids.Node? {
        EachBeside(e, kids, k, p, d);
        BesideKids(e, f, a.visits, k, p, d);
      } else {
        GatheredBeside(e, x, rest, k, p, d);
        BesideSuffix(e, f, rest, a.visits, k, p, d);
      }
    }
  }

  /** What holds inside the children of a node. */
  lemma {:induction false} BesideKids(e: Plan, f: Forest, visits: seq<(nat, nat)>, k: nat, p: nat, d: nat)
    requires f.Node? && Distinct(f) && k < |visits| && visits[k].0 in Ids(f.kids) && Beside(e, f.kids, visits, k, p, d)
    ensures Beside(e, f, visits, k, p, d)
  {
    var (c, i) := visits[k];
    if !Opens(f, c) {
      KidsEnclose(f, p, c);
      if OnSpine(f.kids, c) {
        var m :| OnSpine(f.kids, m) && e.takes(c, m);
        assert Encloses(f, f.id, m);
        OwnBelow(f, d);
        if Holds(f, f.id, d) {
          LocateKids(f, d, i);
        }
      }
      if Encloses(f.kids, p, c) {
        var m :| Encloses(f.kids, p, m) && e.takes(c, m);
        assert Encloses(f, p, m);
        EnclosesIn(f.kids, p, c);
        LocateKids(f, p, d);
        if Holds(f.kids, p, d) {
          HoldsIds(f.kids, p, d);
          LocateKids(f, d, i);
        }
      }
    }
  }

  /** The encloser of a node among the children of f. */
  lemma {:induction false} KidsEnclose(f: Forest, p: nat, c: nat)
    requires f.Node? && Distinct(f) && c in Ids(f.kids)
    ensures !OnSpine(f, c) && (Opens(f.kids, c) ==> Opens(f, c))
    ensures Encloses(f, p, c) ==> (p == f.id && OnSpine(f.kids, c)) || (p != f.id && Encloses(f.kids, p, c))
  {
    if OnSpine(f.rest, c) {
      OnSpineIn(f.rest, c);
    }
    if Encloses(f.rest, p, c) {
      EnclosesIn(f.rest, p, c);
    }
    if Encloses(f.kids, p, c) {
      EnclosesIn(f.kids, p, c);
    }
  }

  /** ... and after some siblings. */
  lemma {:induction false} BesideSuffix(e: Plan, f: Forest, g: Forest, visits: seq<(nat, nat)>, k: nat, p: nat, d: nat)
    requires Distinct(f) && Suffix(g, f) && k < |visits| && visits[k].0 in Ids(g) && Beside(e, g, visits, k, p, d)
    ensures Beside(e, f, visits, k, p, d)
  {
    var (c, i) := visits[k];
    if !Opens(f, c) {
      SuffixEnclose(f, g, p, c);
      SuffixIds(g, f);
      if OnSpine(g, c) {
        var m :| OnSpine(g, m) && e.takes(c, m);
        SuffixSpine(f, g, m);
        SuffixHolds(f, g, d, i);
      }
      if Encloses(g, p, c) {
        var m :| Encloses(g, p, m) && e.takes(c, m);
        SuffixKeeps(f, g, p, m);
        EnclosesIn(g, p, c);
        Locate(f, g, p, i);
        Locate(f, g, p, d);
        HoldsIds(g, p, i);
        SuffixHolds(f, g, d, i);
      }
    }
  }

  lemma {:induction false} SuffixSpine(f: Forest, g: Forest, m: nat)
    requires Suffix(g, f) && OnSpine(g, m)
    ensures OnSpine(f, m)
    decreases f
  {
    if g != f {
      SuffixSpine(f.rest, g, m);
    }
  }

  lemma {:induction false} SuffixKeeps(f: Forest, g: Forest, p: nat, m: nat)
    requires Suffix(g, f) && Encloses(g, p, m)
    ensures Encloses(f, p, m)
    decreases f
  {
    if g != f {
      SuffixKeeps(f.rest, g, p, m);
    }
  }

  lemma {:induction false} SuffixHolds(f: Forest, g: Forest, d: nat, i: nat)
    requires Suffix(g, f) && Distinct(f) && i in Ids(g)
    ensures Holds(f, d, i) ==> Holds(g, d, i)
    decreases f
  {
    if g != f {
      SuffixIds(g, f.rest);
      SuffixHolds(f.rest, g, d, i);
      if Holds(f.kids, d, i) {
        HoldsIds(f.kids, d, i);
      }
    }
  }

  lemma {:induction false} SuffixEnclose(f: Forest, g: Forest, p: nat, c: nat)
    requires Suffix(g, f) && Distinct(f) && c in Ids(g)
    ensures (Opens(g, c) ==> Opens(f, c)) && (OnSpine(f, c) ==> OnSpine(g, c)) && (Encloses(f, p, c) ==> Encloses(g, p, c))
    decreases f
  {
    if g != f {
      SuffixIds(g, f.rest);
      SuffixEnclose(f.rest, g, p, c);
      if OnSpine(f.kids, c) {
        OnSpineIn(f.kids, c);
      }
      if Encloses(f.kids, p, c) {
        EnclosesIn(f.kids, p, c);
      }
    }
  }

  lemma {:induction false} EachBeside(e: Plan, f: Forest, k: nat, p: nat, d: nat)
    requires Distinct(f)
    ensures Beside(e, f, Each(e, f).visits, k, p, d)
    decreases Count(f), 0
  {
    if f.Node? {
      var b := Finished(e, f.id, f.kids, f.rest);
      var c := Each(e, b.rest);
      FinishedBeside(e, f.id, f.kids, f.rest, k, p, d);
      if |b.visits| <= k < |b.visits| + |c.visits| {
        var j := k - |b.visits|;
        LeftOver(e, f);
        SuffixIds(b.rest, f);
        EachBeside(e, b.rest, j, p, d);
        assert (c.visits[j].0, c.visits[j].1) in c.visits;
        EachRuns(e, b.rest, c.visits[j].0, c.visits[j].1);
        BesideSuffix(e, f, b.rest, c.visits, j, p, d);
      }
      BesideJoin(e, f, b.visits, c.visits, k, p, d);
    }
  }

  lemma {:induction false} BesideJoin(e: Plan, f: Forest, a: seq<(nat, nat)>, b: seq<(nat, nat)>, k: nat, p: nat, d: nat)
    requires Beside(e, f, a, k, p, d) && (k >= |a| ==> Beside(e, f, b, k - |a|, p, d))
    ensures Beside(e, f, a + b, k, p, d)
  {
    var s := a + b;
    if k < |a| {
      assert s[k] == a[k] && s[..k] == a[..k];
    } else if k < |s| {
      assert s[k] == b[k - |a|] && s[..k] == a + b[..k - |a|];
    }
  }

  lemma {:induction false} GatheredBeside(e: Plan, x: nat, f: Forest, k: nat, p: nat, d: nat)
    requires Distinct(f)
    ensures Beside(e, f, Gathered(e, x, f).visits, k, p, d)
    decreases Count(f), 0
  {
    if f.Node? && e.takes(x, f.id) {
      var b := Finished(e, f.id, f.kids, f.rest);
      var c := Gathered(e, x, b.rest);
      FinishedBeside(e, f.id, f.kids, f.rest, k, p, d);
      if |b.visits| <= k < |b.visits| + |c.visits| {
        var j := k - |b.visits|;
        LeftOver(e, f);
        SuffixIds(b.rest, f);
        GatheredBeside(e, x, b.rest, j, p, d);
        assert (c.visits[j].0, c.visits[j].1) in c.visits;
        GatheredRuns(e, x, b.rest, c.visits[j].0, c.visits[j].1);
        BesideSuffix(e, f, b.rest, c.visits, j, p, d);
      }
      BesideJoin(e, f, b.visits, c.visits, k, p, d);
    }
  }

  /** A choice without children marks only nodes that were below its parent in the parsed tree, with no choice between,
      and only if it takes another child of that parent. */
  lemma {:induction false} MarkedBeside(e: Plan, choice: seq<bool>, root: nat, kids: Forest, c: nat, i: nat, p: nat, d: nat)
    requires var f := Node(root, kids, Nil); Distinct(f) && !Opens(f, c) && Encloses(f, p, c)
    requires i < |e.symbol| && Flagged(choice, e.symbol, Finished(e, root, kids, Nil).visits).marks[i] == Some(c)
    ensures var f := Node(root, kids, Nil);
            Holds(f, p, i) && TakesBelow(e, f, p, c) && (Holds(f, p, d) && Holds(f, d, i) && d < |choice| ==> !choice[d])
  {
    var visits := Finished(e, root, kids, Nil).visits;
    MarkedIff(choice, e.symbol, visits, c, i);
    var k: nat :| First(choice, e.symbol, visits, k) && visits[k] == (c, i);
    FinishedBeside(e, root, kids, Nil, k, p, d);
    if (d, i) in visits[..k] {
      var j :| 0 <= j < k && visits[..k][j] == (d, i);
      assert visits[j] == (d, i);
    }
  }

  /** What marks has a parent, or children. */
  lemma {:induction false} MarkerPlace(e: Plan, choice: seq<bool>, root: nat, kids: Forest, c: nat, i: nat) returns (p: nat)
    requires var f := Node(root, kids, Nil); Distinct(f) && !Opens(f, c)
    requires i < |e.symbol| && Flagged(choice, e.symbol, Finished(e, root, kids, Nil).visits).marks[i] == Some(c)
    ensures Encloses(Node(root, kids, Nil), p, c)
  {
    var f, visits := Node(root, kids, Nil), Finished(e, root, kids, Nil).visits;
    MarkedIff(choice, e.symbol, visits, c, i);
    var k: nat :| First(choice, e.symbol, visits, k) && visits[k] == (c, i);
    assert (c, i) in visits;
    FinishedRuns(e, root, kids, Nil, c, i);
    if c == root {
      VisitsSpine(root, Finished(e, root, Nil, Nil).kids, c, i);
      OwnGathers(e, root, Nil, i);
    }
    var path := PathTo(f, c);
    p := path[|path| - 2];
    assert Encloses(f, path[|path| - 2], path[|path| - 2 + 1]);
  }

  // ---- paths down the tree -------------------------------------------------

  /** Each node encloses the next. */
  ghost predicate Path(f: Forest, path: seq<nat>) {
    |path| > 0 && forall k :: 0 <= k < |path| - 1 ==> Encloses(f, path[k], path[k + 1])
  }

  lemma {:induction false} EnclosesHolds(f: Forest, d: nat, i: nat)
    requires Encloses(f, d, i)
    ensures Holds(f, d, i)
  {
    if f.id == d && OnSpine(f.kids, i) {
      OnSpineIn(f.kids, i);
    } else if Encloses(f.kids, d, i) {
      EnclosesHolds(f.kids, d, i);
    } else {
      EnclosesHolds(f.rest, d, i);
    }
  }

  lemma {:induction false} HoldsTrans(f: Forest, a: nat, b: nat, c: nat)
    requires Distinct(f) && Holds(f, a, b) && Holds(f, b, c)
    ensures Holds(f, a, c)
  {
    if f.id == a && b in Ids(f.kids) {
      LocateKids(f, b, c);
      HoldsIds(f.kids, b, c);
    } else if Holds(f.kids, a, b) {
      HoldsIds(f.kids, a, b);
      LocateKids(f, b, c);
      HoldsTrans(f.kids, a, b, c);
    } else {
      HoldsIds(f.rest, a, b);
      assert Suffix(f.rest, f);
      Locate(f, f.rest, b, c);
      HoldsTrans(f.rest, a, b, c);
    }
  }

  lemma {:induction false} PathHolds(f: Forest, path: seq<nat>, j: nat, k: nat)
    requires Distinct(f) && Path(f, path) && j < k < |path|
    ensures Holds(f, path[j], path[k])
    decreases k - j
  {
    assert Encloses(f, path[j], path[j + 1]);
    EnclosesHolds(f, path[j], path[j + 1]);
    if j + 1 < k {
      PathHolds(f, path, j + 1, k);
      HoldsTrans(f, path[j], path[j + 1], path[k]);
    }
  }

  lemma {:induction false} PathTo(f: Forest, i: nat) returns (path: seq<nat>)
    requires i in Ids(f)
    ensures Path(f, path) && OnSpine(f, path[0]) && path[|path| - 1] == i
  {
    if f.id == i {
      path := [i];
    } else if i in Ids(f.kids) {
      var p := PathTo(f.kids, i);
      path := [f.id] + p;
      PathDown(f, p);
    } else {
      path := PathTo(f.rest, i);
    }
  }

  lemma {:induction false} PathDown(f: Forest, p: seq<nat>)
    requires f.Node? && Path(f.kids, p) && OnSpine(f.kids, p[0])
    ensures Path(f, [f.id] + p)
  {
    var path := [f.id] + p;
    forall k | 0 <= k < |path| - 1 ensures Encloses(f, path[k], path[k + 1]) {
      assert k > 0 ==> path[k] == p[k - 1] && path[k + 1] == p[k - 1 + 1];
    }
  }

  /** A node below c is reached from the top through c. */
  lemma {:induction false} PathThrough(f: Forest, c: nat, i: nat) returns (path: seq<nat>, k: nat)
    requires Holds(f, c, i)
    ensures Path(f, path) && OnSpine(f, path[0]) && path[|path| - 1] == i && k < |path| - 1 && path[k] == c
  {
    if f.id == c && i in Ids(f.kids) {
      var p := PathTo(f.kids, i);
      PathDown(f, p);
      path, k := [f.id] + p, 0;
    } else if Holds(f.kids, c, i) {
      var p, j := PathThrough(f.kids, c, i);
      PathDown(f, p);
      path, k := [f.id] + p, j + 1;
    } else {
      path, k := PathThrough(f.rest, c, i);
    }
  }

  /** The parent link of a node names the node that encloses it. */
  lemma {:induction false} EnclosedParent(l: Links, p: nat, f: Forest, c: nat, i: nat)
    requires Parented(l, p, f) && Encloses(f, c, i)
    ensures i < |l.parent| && l.parent[i] == Some(c)
    decreases f
  {
    if f.id == c && OnSpine(f.kids, i) {
      SpineParent(l, c, f.kids, i);
    } else if Encloses(f.kids, c, i) {
      EnclosedParent(l, f.id, f.kids, c, i);
    } else {
      EnclosedParent(l, p, f.rest, c, i);
    }
  }

  lemma {:induction false} SpineParent(l: Links, p: nat, f: Forest, i: nat)
    requires Parented(l, p, f) && OnSpine(f, i)
    ensures i < |l.parent| && l.parent[i] == Some(p)
    decreases f
  {
    if f.id != i {
      SpineParent(l, p, f.rest, i);
    }
  }

  lemma {:induction false} ParentEncloses(l: Links, p: nat, f: Forest, i: nat)
    requires Parented(l, p, f) && i in Ids(f)
    ensures i < |l.parent| && l.parent[i].Some?
    ensures if OnSpine(f, i) then l.parent[i] == Some(p) else Encloses(f, l.parent[i].value, i)
    decreases f
  {
    if OnSpine(f, i) {
      SpineParent(l, p, f, i);
    } else if i in Ids(f.kids) {
      ParentEncloses(l, f.id, f.kids, i);
    } else {
      ParentEncloses(l, p, f.rest, i);
    }
  }
}
