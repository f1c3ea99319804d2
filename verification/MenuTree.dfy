/** The menu tree that menu_finalize builds and the choice members it flags, as functions of the parsed tree. */
module MenuTree {
  import opened KconfigExpr
  import opened MenuForest
  import opened MenuPush

  /** What decides the shape of the tree: which nodes have a prompt, which have a symbol, and whether
      the symbol at one node takes another node into its submenu. */
  datatype Plan = Plan(prompted: seq<bool>, symbol: seq<Option<nat>>, takes: (nat, nat) -> bool)
  {
    predicate Prompts(i: nat) {
      i < |prompted| && prompted[i]
    }

    predicate Symbol(i: nat) {
      i < |symbol| && symbol[i].Some?
    }
  }

  /** A finalised list: the nodes in it, the siblings left after it, and, in order, which node the flattening loop of which
      other node has passed, and which nodes have joined their dependency to that of their symbol. */
  datatype Built = Built(kids: Forest, rest: Forest, visits: seq<(nat, nat)>, dirs: seq<nat>)

  function Count(f: Forest): nat {
    if f.Nil? then 0 else 1 + Count(f.kids) + Count(f.rest)
  }

  lemma {:induction false} CountAppend(f: Forest, g: Forest)
    ensures Count(Append(f, g)) == Count(f) + Count(g)
  {
    if f.Node? {
      CountAppend(f.rest, g);
    }
  }

  /** The children of nodes without a prompt are moved up behind them. */
  function Flat(e: Plan, f: Forest): Forest
    decreases Count(f)
  {
    if f.Nil? then Nil
    else if f.kids.Node? && !e.Prompts(f.id) then
      CountAppend(f.kids, f.rest);
      Node(f.id, Nil, Flat(e, Append(f.kids, f.rest)))
    else Node(f.id, f.kids, Flat(e, f.rest))
  }

  /** The flattening loop of x passes the siblings in f. */
  function Visits(x: nat, f: Forest): seq<(nat, nat)> {
    if f.Nil? then [] else [(x, f.id)] + Visits(x, f.rest)
  }

  /** Node x after menu_finalize. */
  function Finished(e: Plan, x: nat, kids: Forest, rest: Forest): (r: Built)
    ensures Count(r.rest) <= Count(rest)
    decreases Count(kids) + Count(rest), 2
  {
    var b := Filled(e, x, kids, rest);
    var k := Flat(e, b.kids);
    b.(kids := k, visits := b.visits + Visits(x, k))
  }

  /** ... and before its last loop. */
  function Filled(e: Plan, x: nat, kids: Forest, rest: Forest): (r: Built)
    ensures Count(r.rest) <= Count(rest)
    decreases Count(kids) + Count(rest), 1
  {
    if kids.Node? then Each(e, kids).(rest := rest)
    else if e.Symbol(x) then var b := Gathered(e, x, rest); b.(dirs := b.dirs + [x])
    else Built(Nil, rest, [], [])
  }

  /** Every node of a list, each of which may take siblings after it. */
  function Each(e: Plan, f: Forest): Built
    decreases Count(f), 0
  {
    if f.Nil? then Built(Nil, Nil, [], [])
    else
      var b := Finished(e, f.id, f.kids, f.rest);
      var c := Each(e, b.rest);
      Built(Node(f.id, b.kids, c.kids), Nil, b.visits + c.visits, b.dirs + c.dirs)
  }

  /** The submenu of x, from the siblings after it. */
  function Gathered(e: Plan, x: nat, f: Forest): (r: Built)
    ensures Count(r.rest) <= Count(f)
    decreases Count(f), 0
  {
    if f.Nil? || !e.takes(x, f.id) then Built(Nil, f, [], [])
    else
      var b := Finished(e, f.id, f.kids, f.rest);
      var c := Gathered(e, x, b.rest);
      Built(Node(f.id, b.kids, c.kids), c.rest, b.visits + c.visits, b.dirs + c.dirs)
  }

  // ---- the shape -----------------------------------------------------------

  /** Whatever has children has a prompt. */
  predicate Tidy(e: Plan, f: Forest) {
    f.Nil? || ((f.kids.Node? ==> e.Prompts(f.id)) && Tidy(e, f.kids) && Tidy(e, f.rest))
  }

  /** ... except for the siblings in f themselves. */
  predicate TidyInside(e: Plan, f: Forest) {
    f.Nil? || (Tidy(e, f.kids) && TidyInside(e, f.rest))
  }

  lemma {:induction false} TidyAppend(e: Plan, f: Forest, g: Forest)
    requires Tidy(e, f) && TidyInside(e, g)
    ensures TidyInside(e, Append(f, g))
  {
    if f.Node? {
      TidyAppend(e, f.rest, g);
    }
  }

  lemma {:induction false} FlatTidy(e: Plan, f: Forest)
    requires TidyInside(e, f)
    ensures Tidy(e, Flat(e, f))
    decreases Count(f)
  {
    if f.Node? {
      if f.kids.Node? && !e.Prompts(f.id) {
        CountAppend(f.kids, f.rest);
        TidyAppend(e, f.kids, f.rest);
        FlatTidy(e, Append(f.kids, f.rest));
      } else {
        FlatTidy(e, f.rest);
      }
    }
  }

  /** In the finished tree every node that has children has a prompt. */
  lemma {:induction false} FinishedTidy(e: Plan, x: nat, kids: Forest, rest: Forest)
    ensures Tidy(e, Finished(e, x, kids, rest).kids)
    decreases Count(kids) + Count(rest), 1
  {
    if kids.Node? {
      EachTidy(e, kids);
    } else if e.Symbol(x) {
      GatheredTidy(e, x, rest);
    }
    FlatTidy(e, Filled(e, x, kids, rest).kids);
  }

  lemma {:induction false} EachTidy(e: Plan, f: Forest)
    ensures TidyInside(e, Each(e, f).kids)
    decreases Count(f), 0
  {
    if f.Node? {
      FinishedTidy(e, f.id, f.kids, f.rest);
      EachTidy(e, Finished(e, f.id, f.kids, f.rest).rest);
    }
  }

  lemma {:induction false} GatheredTidy(e: Plan, x: nat, f: Forest)
    ensures TidyInside(e, Gathered(e, x, f).kids)
    decreases Count(f), 0
  {
    if f.Node? && e.takes(x, f.id) {
      FinishedTidy(e, f.id, f.kids, f.rest);
      GatheredTidy(e, x, Finished(e, f.id, f.kids, f.rest).rest);
    }
  }

  /** x takes every sibling in f. */
  predicate TakesAll(e: Plan, x: nat, f: Forest) {
    f.Nil? || (e.takes(x, f.id) && TakesAll(e, x, f.rest))
  }

  /** A submenu is the longest run of siblings that the symbol takes. */
  lemma {:induction false} GatheredLongest(e: Plan, x: nat, f: Forest)
    ensures var b := Gathered(e, x, f); TakesAll(e, x, b.kids) && (b.rest.Node? ==> !e.takes(x, b.rest.id))
    decreases Count(f)
  {
    if f.Node? && e.takes(x, f.id) {
      GatheredLongest(e, x, Finished(e, f.id, f.kids, f.rest).rest);
    }
  }

  /** A tidy tree in which no symbol takes anything stays as it is. */
  lemma {:induction false} NothingToDo(e: Plan, x: nat, kids: Forest, rest: Forest)
    requires Tidy(e, kids) && Tidy(e, rest) && forall c, i :: !e.takes(c, i)
    ensures Finished(e, x, kids, rest).kids == kids && Finished(e, x, kids, rest).rest == rest
    decreases Count(kids) + Count(rest), 1
  {
    if kids.Node? {
      NothingInList(e, kids);
    } else {
      assert rest.Node? ==> !e.takes(x, rest.id);
      assert Gathered(e, x, rest) == Built(Nil, rest, [], []);
    }
    TidyFlat(e, kids);
  }

  lemma {:induction false} NothingInList(e: Plan, f: Forest)
    requires Tidy(e, f) && forall c, i :: !e.takes(c, i)
    ensures Each(e, f).kids == f
    decreases Count(f), 0
  {
    if f.Node? {
      NothingToDo(e, f.id, f.kids, f.rest);
      NothingInList(e, f.rest);
    }
  }

  lemma {:induction false} TidyFlat(e: Plan, f: Forest)
    requires Tidy(e, f)
    ensures Flat(e, f) == f
    decreases f
  {
    if f.Node? {
      TidyFlat(e, f.rest);
    }
  }

  // ---- who passes whom -----------------------------------------------------

  lemma {:induction false} EnclosesAppend(f: Forest, g: Forest, c: nat, i: nat)
    ensures Encloses(Append(f, g), c, i) <==> Encloses(f, c, i) || Encloses(g, c, i)
    decreases f
  {
    if f.Node? {
      EnclosesAppend(f.rest, g, c, i);
    }
  }

  /** Flattening takes children from nodes without a prompt only, and gives none to any other node. */
  lemma {:induction false} FlatEncloses(e: Plan, f: Forest, c: nat, i: nat)
    ensures Encloses(Flat(e, f), c, i) ==> Encloses(f, c, i)
    ensures e.Prompts(c) && Encloses(f, c, i) ==> Encloses(Flat(e, f), c, i)
    decreases Count(f)
  {
    if f.Node? {
      if f.kids.Node? && !e.Prompts(f.id) {
        CountAppend(f.kids, f.rest);
        FlatEncloses(e, Append(f.kids, f.rest), c, i);
        EnclosesAppend(f.kids, f.rest, c, i);
        assert Encloses(Flat(e, f), c, i) <==> Encloses(Flat(e, Append(f.kids, f.rest)), c, i);
      } else {
        FlatEncloses(e, f.rest, c, i);
      }
    }
  }

  lemma {:induction false} VisitsSpine(x: nat, f: Forest, c: nat, i: nat)
    ensures (c, i) in Visits(x, f) <==> c == x && OnSpine(f, i)
  {
    if f.Node? {
      VisitsSpine(x, f.rest, c, i);
    }
  }

  /** Whatever c holds in f its loop has passed, and if c has a prompt, what its loop has passed it holds. */
  predicate Tracks(e: Plan, f: Forest, visits: seq<(nat, nat)>, c: nat, i: nat) {
    (Encloses(f, c, i) ==> (c, i) in visits) && (e.Prompts(c) && (c, i) in visits ==> Encloses(f, c, i))
  }

  lemma ListTracks(e: Plan, x: nat, kids: Forest, rest: Forest, first: seq<(nat, nat)>, others: seq<(nat, nat)>, c: nat, i: nat)
    requires Tracks(e, Node(x, kids, Nil), first, c, i) && Tracks(e, rest, others, c, i)
    ensures Tracks(e, Node(x, kids, rest), first + others, c, i)
  {
    var f, g := Node(x, kids, rest), Node(x, kids, Nil);
    assert Encloses(f, c, i) <==> Encloses(g, c, i) || Encloses(rest, c, i);
  }

  /** In the finished tree a node with a prompt holds exactly the nodes its flattening loop has passed. */
  lemma {:induction false} FinishedVisits(e: Plan, x: nat, kids: Forest, rest: Forest, c: nat, i: nat)
    ensures var b := Finished(e, x, kids, rest); Tracks(e, Node(x, b.kids, Nil), b.visits, c, i)
    decreases Count(kids) + Count(rest), 1
  {
    var b := Filled(e, x, kids, rest);
    if kids.Node? {
      EachVisits(e, kids, c, i);
    } else if e.Symbol(x) {
      GatheredVisits(e, x, rest, c, i);
    }
    assert Tracks(e, b.kids, b.visits, c, i);
    var k := Flat(e, b.kids);
    FlatEncloses(e, b.kids, c, i);
    VisitsSpine(x, k, c, i);
    var f := Node(x, k, Nil);
    assert Encloses(f, c, i) <==> (c == x && OnSpine(k, i)) || Encloses(k, c, i);
  }

  lemma {:induction false} EachVisits(e: Plan, f: Forest, c: nat, i: nat)
    ensures Tracks(e, Each(e, f).kids, Each(e, f).visits, c, i)
    decreases Count(f), 0
  {
    if f.Node? {
      var b := Finished(e, f.id, f.kids, f.rest);
      FinishedVisits(e, f.id, f.kids, f.rest, c, i);
      EachVisits(e, b.rest, c, i);
      ListTracks(e, f.id, b.kids, Each(e, b.rest).kids, b.visits, Each(e, b.rest).visits, c, i);
    }
  }

  lemma {:induction false} GatheredVisits(e: Plan, x: nat, f: Forest, c: nat, i: nat)
    ensures Tracks(e, Gathered(e, x, f).kids, Gathered(e, x, f).visits, c, i)
    decreases Count(f), 0
  {
    if f.Node? && e.takes(x, f.id) {
      var b := Finished(e, f.id, f.kids, f.rest);
      FinishedVisits(e, f.id, f.kids, f.rest, c, i);
      GatheredVisits(e, x, b.rest, c, i);
      ListTracks(e, f.id, b.kids, Gathered(e, x, b.rest).kids, b.visits, Gathered(e, x, b.rest).visits, c, i);
    }
  }

  // ---- who joins dir_dep ---------------------------------------------------

  /** i has a symbol and no children. */
  predicate Leafy(e: Plan, f: Forest, i: nat) {
    f.Node? && ((f.id == i && f.kids.Nil? && e.Symbol(i)) || Leafy(e, f.kids, i) || Leafy(e, f.rest, i))
  }

  /** The nodes that join their dependency to that of their symbol are those that have a symbol and, in the parsed tree,
      no children. */
  lemma {:induction false} FinishedDirs(e: Plan, x: nat, kids: Forest, rest: Forest, i: nat)
    ensures var b := Finished(e, x, kids, rest); i in b.dirs || Leafy(e, b.rest, i) <==> Leafy(e, Node(x, kids, rest), i)
    decreases Count(kids) + Count(rest), 1
  {
    var f, b := Node(x, kids, rest), Filled(e, x, kids, rest);
    assert Leafy(e, f, i) <==> (x == i && kids.Nil? && e.Symbol(i)) || Leafy(e, kids, i) || Leafy(e, rest, i);
    if kids.Node? {
      EachDirs(e, kids, i);
    } else if e.Symbol(x) {
      GatheredDirs(e, x, rest, i);
      assert b.dirs == Gathered(e, x, rest).dirs + [x];
    }
  }

  lemma {:induction false} EachDirs(e: Plan, f: Forest, i: nat)
    ensures i in Each(e, f).dirs <==> Leafy(e, f, i)
    decreases Count(f), 0
  {
    if f.Node? {
      FinishedDirs(e, f.id, f.kids, f.rest, i);
      EachDirs(e, Finished(e, f.id, f.kids, f.rest).rest, i);
    }
  }

  lemma {:induction false} GatheredDirs(e: Plan, x: nat, f: Forest, i: nat)
    ensures var b := Gathered(e, x, f); i in b.dirs || Leafy(e, b.rest, i) <==> Leafy(e, f, i)
    decreases Count(f), 0
  {
    if f.Node? && e.takes(x, f.id) {
      FinishedDirs(e, f.id, f.kids, f.rest, i);
      GatheredDirs(e, x, Finished(e, f.id, f.kids, f.rest).rest, i);
    }
  }

  // ---- which members are flagged -------------------------------------------

  /** The symbols flagged as choice values, and by node which choice has flagged its symbol there. */
  datatype Flags = Flags(members: set<nat>, marks: seq<Option<nat>>)

  predicate Offers(choice: seq<bool>, symbol: seq<Option<nat>>, visit: (nat, nat)) {
    visit.0 < |choice| && choice[visit.0] && visit.1 < |symbol| && symbol[visit.1].Some?
  }

  function Flag(choice: seq<bool>, symbol: seq<Option<nat>>, s: Flags, visit: (nat, nat)): (r: Flags)
    ensures |r.marks| == |s.marks|
  {
    if Offers(choice, symbol, visit) && symbol[visit.1].value !in s.members && visit.1 < |s.marks|
    then Flags(s.members + {symbol[visit.1].value}, s.marks[visit.1 := Some(visit.0)])
    else s
  }

  /** What is flagged after these visits. */
  function Flagged(choice: seq<bool>, symbol: seq<Option<nat>>, visits: seq<(nat, nat)>): (r: Flags)
    ensures |r.marks| == |symbol|
  {
    if visits == [] then Flags({}, seq(|symbol|, _ => None))
    else Flag(choice, symbol, Flagged(choice, symbol, visits[..|visits| - 1]), visits[|visits| - 1])
  }

  /** The k-th visit is the first that offers its symbol as a member of a choice. */
  ghost predicate First(choice: seq<bool>, symbol: seq<Option<nat>>, visits: seq<(nat, nat)>, k: nat) {
    && k < |visits| && Offers(choice, symbol, visits[k])
    && forall j :: 0 <= j < k && Offers(choice, symbol, visits[j]) ==> symbol[visits[j].1] != symbol[visits[k].1]
  }

  ghost predicate Offered(choice: seq<bool>, symbol: seq<Option<nat>>, visits: seq<(nat, nat)>, s: nat) {
    exists k :: 0 <= k < |visits| && Offers(choice, symbol, visits[k]) && symbol[visits[k].1] == Some(s)
  }

  /** A symbol is flagged if and only if the loop of some choice has passed a node with it. */
  lemma {:induction false} FlaggedSymbols(choice: seq<bool>, symbol: seq<Option<nat>>, visits: seq<(nat, nat)>, s: nat)
    ensures s in Flagged(choice, symbol, visits).members <==> Offered(choice, symbol, visits, s)
    decreases |visits|
  {
    if visits != [] {
      var n, vs := |visits| - 1, visits[..|visits| - 1];
      FlaggedSymbols(choice, symbol, vs, s);
      if Offered(choice, symbol, vs, s) {
        var k :| 0 <= k < |vs| && Offers(choice, symbol, vs[k]) && symbol[vs[k].1] == Some(s);
        assert visits[k] == vs[k];
      }
      if Offered(choice, symbol, visits, s) {
        var k :| 0 <= k < |visits| && Offers(choice, symbol, visits[k]) && symbol[visits[k].1] == Some(s);
        assert k < n ==> visits[k] == vs[k];
      }
      assert Offers(choice, symbol, visits[n]) && symbol[visits[n].1] == Some(s) ==> Offered(choice, symbol, visits, s);
    }
  }

  ghost predicate FirstVisit(choice: seq<bool>, symbol: seq<Option<nat>>, visits: seq<(nat, nat)>, c: nat, i: nat) {
    exists k: nat :: First(choice, symbol, visits, k) && visits[k] == (c, i)
  }

  /** A node is marked by a choice if and only if that choice's loop, passing this node, was the first of all
      to offer the symbol. */
  lemma {:induction false} MarkedIff(choice: seq<bool>, symbol: seq<Option<nat>>, visits: seq<(nat, nat)>, c: nat, i: nat)
    requires i < |symbol|
    ensures Flagged(choice, symbol, visits).marks[i] == Some(c) <==> FirstVisit(choice, symbol, visits, c, i)
    decreases |visits|
  {
    if visits == [] {
      assert Flagged(choice, symbol, visits).marks[i] == None;
    } else {
      var n, vs := |visits| - 1, visits[..|visits| - 1];
      var last := visits[n];
      MarkedIff(choice, symbol, vs, c, i);
      EarlierFirst(choice, symbol, visits, c, i);
      if Offers(choice, symbol, last) {
        LastFirst(choice, symbol, visits);
      }
      assert First(choice, symbol, visits, n) && last == (c, i) ==> FirstVisit(choice, symbol, visits, c, i);
      if FirstVisit(choice, symbol, vs, c, i) {
        OfferedBefore(choice, symbol, vs, c, i);
      }
    }
  }

  /** What happened before the last visit. */
  lemma EarlierFirst(choice: seq<bool>, symbol: seq<Option<nat>>, visits: seq<(nat, nat)>, c: nat, i: nat)
    requires visits != []
    ensures var n := |visits| - 1;
            FirstVisit(choice, symbol, visits, c, i) <==>
              FirstVisit(choice, symbol, visits[..n], c, i) || (First(choice, symbol, visits, n) && visits[n] == (c, i))
  {
    var n, vs := |visits| - 1, visits[..|visits| - 1];
    forall k: nat | k < n ensures First(choice, symbol, visits, k) <==> First(choice, symbol, vs, k) {
      assert visits[k] == vs[k] && forall j :: 0 <= j < k ==> visits[j] == vs[j];
    }
    if FirstVisit(choice, symbol, visits, c, i) {
      var k: nat :| First(choice, symbol, visits, k) && visits[k] == (c, i);
      assert k < n ==> First(choice, symbol, vs, k) && vs[k] == (c, i);
    }
    if FirstVisit(choice, symbol, vs, c, i) {
      var k: nat :| First(choice, symbol, vs, k) && vs[k] == (c, i);
      assert First(choice, symbol, visits, k) && visits[k] == (c, i);
    }
  }

  lemma LastFirst(choice: seq<bool>, symbol: seq<Option<nat>>, visits: seq<(nat, nat)>)
    requires visits != [] && Offers(choice, symbol, visits[|visits| - 1])
    ensures var n := |visits| - 1;
            First(choice, symbol, visits, n) <==>
              symbol[visits[n].1].value !in Flagged(choice, symbol, visits[..n]).members
  {
    var n, vs := |visits| - 1, visits[..|visits| - 1];
    var s := symbol[visits[n].1].value;
    FlaggedSymbols(choice, symbol, vs, s);
    if Offered(choice, symbol, vs, s) {
      var k :| 0 <= k < |vs| && Offers(choice, symbol, vs[k]) && symbol[vs[k].1] == Some(s);
      assert visits[k] == vs[k];
    }
    if !First(choice, symbol, visits, n) {
      var j :| 0 <= j < n && Offers(choice, symbol, visits[j]) && symbol[visits[j].1] == symbol[visits[n].1];
      assert visits[j] == vs[j];
    }
  }

  lemma OfferedBefore(choice: seq<bool>, symbol: seq<Option<nat>>, visits: seq<(nat, nat)>, c: nat, i: nat)
    requires FirstVisit(choice, symbol, visits, c, i)
    ensures Offers(choice, symbol, (c, i)) && symbol[i].value in Flagged(choice, symbol, visits).members
  {
    var k: nat :| First(choice, symbol, visits, k) && visits[k] == (c, i);
    FlaggedSymbols(choice, symbol, visits, symbol[i].value);
    assert Offers(choice, symbol, visits[k]) && symbol[visits[k].1] == Some(symbol[i].value);
  }

  /** No symbol is flagged at two nodes. */
  lemma MarkedOnce(choice: seq<bool>, symbol: seq<Option<nat>>, visits: seq<(nat, nat)>, i: nat, j: nat)
    requires i < |symbol| && j < |symbol| && symbol[i] == symbol[j]
    requires var marks := Flagged(choice, symbol, visits).marks; marks[i].Some? && marks[j].Some?
    ensures i == j
  {
    var marks := Flagged(choice, symbol, visits).marks;
    MarkedIff(choice, symbol, visits, marks[i].value, i);
    MarkedIff(choice, symbol, visits, marks[j].value, j);
    var k: nat :| First(choice, symbol, visits, k) && visits[k] == (marks[i].value, i);
    var l: nat :| First(choice, symbol, visits, l) && visits[l] == (marks[j].value, j);
    assert k == l;
  }

  /** Every symbol that a choice's loop passes is flagged, there or at another node. */
  lemma MarkedSomewhere(choice: seq<bool>, symbol: seq<Option<nat>>, visits: seq<(nat, nat)>, c: nat, i: nat)
    requires (c, i) in visits && Offers(choice, symbol, (c, i))
    ensures exists j :: 0 <= j < |symbol| && symbol[j] == symbol[i] && Flagged(choice, symbol, visits).marks[j].Some?
  {
    var k := FirstOffer(choice, symbol, visits, symbol[i].value);
    MarkedIff(choice, symbol, visits, visits[k].0, visits[k].1);
    assert FirstVisit(choice, symbol, visits, visits[k].0, visits[k].1);
  }

  lemma {:induction false} FirstOffer(choice: seq<bool>, symbol: seq<Option<nat>>, visits: seq<(nat, nat)>, s: nat) returns (k: nat)
    requires Offered(choice, symbol, visits, s)
    ensures First(choice, symbol, visits, k) && symbol[visits[k].1] == Some(s)
  {
    k := 0;
    while !(Offers(choice, symbol, visits[k]) && symbol[visits[k].1] == Some(s))
      invariant k < |visits|
      invariant forall j :: 0 <= j < k && Offers(choice, symbol, visits[j]) ==> symbol[visits[j].1] != Some(s)
      decreases |visits| - k
    {
      k := k + 1;
    }
  }
}
