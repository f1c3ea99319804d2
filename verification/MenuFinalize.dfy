/** menu_finalize: dependency propagation, automatic submenus and flattening on linked menu nodes. */
module MenuFinalize {
  import opened KconfigExpr
  import opened MenuForest
  import opened MenuLinks
  import opened MenuPush
  import opened MenuTree

  /** All menu nodes. What depends on the contents of expressions is a parameter: push combines a
      node's dependencies with those of its enclosing node, mark adds what a choice asks of a member,
      and absorbs decides whether a node goes into the submenu of a symbol before it. */
  class Menus<D> {
    const n: nat
    const prompted: seq<bool>
    const symbol: seq<Option<nat>>
    const choice: seq<bool>
    const push: (nat, D, nat, D) -> D
    const mark: (nat, nat, D) -> D
    const absorbs: (nat, D, nat, D) -> bool
    var list: seq<Option<nat>>
    var next: seq<Option<nat>>
    var parent: seq<Option<nat>>
    var dep: seq<D>
    var members: set<nat>               // symbols flagged as choice values
    var dirs: seq<nat>                  // nodes that have joined their dependency to dir_dep of their symbol, in order
    var dirDeps: seq<D>                 // ... and what they had then
    var sels: seq<nat>                  // nodes whose selects and implies have been collected, in order
    var selDeps: seq<D>                 // ... and what they had then
    ghost var log: seq<nat>             // nodes in the order they were finalised
    ghost var pushed: seq<D>            // dep without what choices added
    ghost var markedBy: seq<Option<nat>>
    ghost var visits: seq<(nat, nat)>   // pairs the last loop has passed
    ghost const final: seq<D>           // what pushed will be in the end

    ghost function Now(): Links
      reads this
    {
      Links(list, next, parent)
    }

    ghost predicate Ok()
      reads this
    {
      && Now().Sized(n) && |prompted| == |symbol| == |choice| == |dep| == |pushed| == |markedBy| == |final| == n
      && Marks() && Flags(members, markedBy) == Flagged(choice, symbol, visits)
      && Collected(final, dirs, dirDeps) && Collected(final, sels, selDeps)
    }

    ghost function Past(): Record<D>
      reads this
    {
      Record(log, pushed, sels)
    }

    ghost function Shape(): Plan {
      Plan(prompted, symbol, Takes(absorbs, final))
    }

    ghost predicate Marks()
      requires |symbol| == |choice| == |dep| == |pushed| == |markedBy| == n
      reads `dep, `pushed, `markedBy, `members
    {
      forall i :: 0 <= i < n ==> MarkOk(i)
    }

    ghost predicate MarkOk(i: nat)
      requires |symbol| == |choice| == |dep| == |pushed| == |markedBy| == n && i < n
      reads `dep, `pushed, `markedBy, `members
    {
      && dep[i] == Settled(mark, markedBy[i], pushed[i], i)
      && (markedBy[i].Some? ==> symbol[i].Some? && symbol[i].value in members)
    }

    constructor (n: nat, prompted: seq<bool>, symbol: seq<Option<nat>>, choice: seq<bool>, push: (nat, D, nat, D) -> D,
                 mark: (nat, nat, D) -> D, absorbs: (nat, D, nat, D) -> bool, links: Links, dep: seq<D>,
                 ghost final: seq<D>)
      requires |prompted| == |symbol| == |choice| == |dep| == |final| == n && links.Sized(n)
      ensures this.n == n && this.push == push && this.mark == mark && this.choice == choice && this.symbol == symbol
      ensures this.final == final && Shape() == Plan(prompted, symbol, Takes(absorbs, final)) && visits == []
      ensures Past() == Record([], dep, []) && dirs == []
      ensures Ok() && Now() == links && this.dep == dep && forall i :: 0 <= i < n ==> markedBy[i] == None
    {
      this.n, this.prompted, this.symbol, this.choice := n, prompted, symbol, choice;
      this.push, this.mark, this.absorbs := push, mark, absorbs;
      list, next, parent, this.dep := links.list, links.next, links.parent, dep;
      members, log, pushed, markedBy, visits := {}, [], dep, seq(n, _ => None), [];
      this.final, dirs, dirDeps, sels, selDeps := final, [], [], [], [];
    }

    /** Propagates the dependencies of x to one child. */
    method PushOne(x: nat, m: nat)
      requires Ok() && x < n && m < n && markedBy[x] == markedBy[m] == None && push(x, pushed[x], m, pushed[m]) == final[m]
      modifies `dep, `pushed, `sels, `selDeps
      ensures Ok() && pushed == old(pushed)[m := push(x, old(pushed)[x], m, old(pushed)[m])] && sels == old(sels) + [m]
    {
      assert MarkOk(x) && MarkOk(m);
      ghost var before := dep;
      dep := dep[m := push(x, dep[x], m, dep[m])];
      pushed := pushed[m := push(x, pushed[x], m, pushed[m])];
      sels, selDeps := sels + [m], selDeps + [dep[m]];
      forall i | 0 <= i < n ensures MarkOk(i) {
        assert old(MarkOk(i));
      }
    }

    /** Propagates the dependencies of x to its children. */
    method PropagateChildren(x: nat, ghost kids: Forest)
      requires Ok() && Below(Now(), n, x, kids) && Fresh(markedBy, n, {x} + Ids(kids))
      requires Leads(push, PushSpine(push, pushed, x, kids), final, kids)
      modifies `dep, `pushed, `sels, `selDeps
      ensures Ok() && pushed == PushSpine(push, old(pushed), x, kids) && sels == old(sels) + Spine(kids)
    {
      var menu := list[x];
      ghost var rem, goal := kids, PushSpine(push, pushed, x, kids);
      while menu.Some?
        invariant Ok() && Linked(Now(), menu, rem) && Suffix(rem, kids)
        invariant PushSpine(push, pushed, x, rem) == goal && sels + Spine(rem) == old(sels) + Spine(kids)
        decreases rem
      {
        var m := menu.value;
        PushedNow(push, pushed, goal, final, x, kids, rem);
        Regroup3(sels, [m], Spine(rem.rest));
        PushOne(x, m);
        menu, rem := next[m], rem.rest;
      }
    }

    /** The loop over the children of a node. */
    method FinalizeList(x: nat, ghost kids: Forest) returns (ghost kids': Forest)
      requires Ok() && Below(Now(), n, x, kids) && Fresh(markedBy, n, Ids(kids)) && Leads(push, pushed, final, kids)
      modifies this
      ensures Built(kids', Nil, visits, dirs) == Since(old(visits), old(dirs), Each(Shape(), kids))
      ensures Ok() && ListState(old(Now()), Now(), n, x, kids, kids, kids', Nil)
      ensures MarksKept(old(markedBy), markedBy, n, Ids(kids))
      ensures Trace(push, old(Past()), Past(), kids)
      decreases |Pre(kids)|, 2
    {
      var menu := list[x];
      ghost var before, done, rem := Nil, Nil, kids;
      ListStart(Now(), n, x, kids);
      while menu.Some?
        invariant Listing(Shape(), old(visits), old(dirs), kids, visits, dirs, done, rem)
        invariant Ok() && menu == Head(rem) && ListState(old(Now()), Now(), n, x, kids, before, done, rem)
        invariant MarksKept(old(markedBy), markedBy, n, Ids(before))
        invariant Trace(push, old(Past()), Past(), before)
        decreases |Pre(rem)|
      {
        var m := menu.value;
        ghost var l, marks, past, visits1, dirs1 := Now(), markedBy, Past(), visits, dirs;
        LeadsOn(push, old(pushed), final, before, rem);
        ListAt(old(Now()), l, n, x, kids, before, done, rem);
        FreshStill(old(markedBy), marks, n, before, rem);
        ghost var k', used, rem' := Finalize(m, rem.kids, rem.rest);
        ListStep(old(Now()), l, Now(), n, x, kids, before, done, rem, k', used, rem');
        MarksStep(old(markedBy), marks, markedBy, n, before, Node(m, rem.kids, used));
        TraceStep(push, old(Past()), past, Past(), before, Node(m, rem.kids, used));
        ListingStep(Shape(), old(visits), old(dirs), kids, visits1, dirs1, done, rem);
        before, done, rem := Append(before, Node(m, rem.kids, used)), Append(done, Node(m, k', Nil)), rem';
        menu := next[m];
      }
      AppendNil(before);
      AppendNil(done);
      kids' := done;
    }

    /** Automatic submenu creation: x takes over the siblings after it while they depend on it. */
    method Absorb(x: nat, ghost rest: Forest) returns (ghost kids': Forest, ghost used: Forest, ghost rest': Forest)
      requires Ok() && At(Now(), n, x, Nil, rest) && Fresh(markedBy, n, Ids(Node(x, Nil, rest)))
      requires Leads(push, pushed, final, Node(x, Nil, rest))
      modifies this
      ensures Built(kids', rest', visits, dirs) == Since(old(visits), old(dirs), Gathered(Shape(), x, rest))
      ensures Ok() && At(Now(), n, x, kids', rest') && rest == Append(used, rest') && Pre(kids') == Pre(used)
      ensures Framed(old(Now()), Now(), n, {x} + Ids(used)) && parent[x] == old(parent)[x]
      ensures MarksKept(old(markedBy), markedBy, n, Ids(used)) && dep[x] == final[x]
      ensures Trace(push, old(Past()), Past(), used)
      decreases |Pre(rest)|, 4
    {
      ghost var l := Now();
      ghost var done;
      var last;
      last, used, done, rest' := Gather(x, rest);
      Adopt(x, last, l, rest, used, done, rest');
      kids' := done;
    }

    /** The loop that finds the siblings of the submenu. */
    method Gather(x: nat, ghost rest: Forest)
      returns (last: Option<nat>, ghost before: Forest, ghost done: Forest, ghost rem: Forest)
      requires Ok() && At(Now(), n, x, Nil, rest) && Fresh(markedBy, n, Ids(Node(x, Nil, rest)))
      requires Leads(push, pushed, final, Node(x, Nil, rest))
      modifies this
      ensures Built(done, rem, visits, dirs) == Since(old(visits), old(dirs), Gathered(Shape(), x, rest))
      ensures Ok() && AbsorbState(old(Now()), Now(), n, x, rest, before, done, rem)
      ensures last == if done.Nil? then None else Some(Last(done))
      ensures MarksKept(old(markedBy), markedBy, n, Ids(before)) && dep[x] == final[x]
      ensures Trace(push, old(Past()), Past(), before)
      decreases |Pre(rest)|, 3
    {
      AbsorbStart(Now(), n, x, rest);
      assert Trace(push, Past(), Past(), Nil) && Gathering(Shape(), x, visits, dirs, rest, visits, dirs, Nil, rest);
      hide Collected, Absorbing, Framed, Flagged, Gathered, Finished, Trace, Gathering, Linked, Parented, PushAll;
      var menu := next[x];
      last, before, done, rem := None, Nil, Nil, rest;
      Seen(x, old(pushed), old(markedBy), rest, before, rem);
      LeadsNext(push, pushed, final, x, rest);
      while menu.Some? && absorbs(x, dep[x], menu.value, dep[menu.value])
        invariant Ok() && menu == Head(rem) && AbsorbState(old(Now()), Now(), n, x, rest, before, done, rem)
        invariant Gathering(Shape(), x, old(visits), old(dirs), rest, visits, dirs, done, rem)
        invariant Reads(x, rem)
        invariant last == if done.Nil? then None else Some(Last(done))
        invariant MarksKept(old(markedBy), markedBy, n, Ids(before))
        invariant Trace(push, old(Past()), Past(), before)
        decreases |Pre(rem)|
      {
        var m := menu.value;
        FreshStill(old(markedBy), markedBy, n, before, rem);
        ghost var marks, past, visits1, dirs1 := markedBy, Past(), visits, dirs;
        LeadsOn(push, old(pushed), final, before, rem);
        ghost var f, done', rem' := AbsorbOne(x, m, old(Now()), rest, before, done, rem);
        MarksStep(old(markedBy), marks, markedBy, n, before, f);
        TraceStep(push, old(Past()), past, Past(), before, f);
        GatheringStep(Shape(), x, old(visits), old(dirs), rest, visits1, dirs1, done, rem);
        Seen(x, old(pushed), old(markedBy), rest, Append(before, f), rem');
        before, done, rem := Append(before, f), done', rem';
        last, menu := Some(m), next[m];
      }
      GatheringEnd(Shape(), x, old(visits), old(dirs), rest, visits, dirs, done, rem);
    }

    /** x and the first node of f have the conditions they will have in the end. */
    ghost predicate Reads(x: nat, f: Forest)
      requires |dep| == |final| == n && x < n
      reads `dep
    {
      dep[x] == final[x] && (f.Node? ==> f.id < n && dep[f.id] == final[f.id])
    }

    lemma {:induction false} Seen(x: nat, was: seq<D>, marks: seq<Option<nat>>, rest: Forest, before: Forest, rem: Forest)
      requires Ok() && x < n && Inside(rest, n) && Distinct(Node(x, Nil, rest)) && rest == Append(before, rem)
      requires Leads(push, was, final, Node(x, Nil, rest)) && pushed == PushAll(push, was, before)
      requires Fresh(marks, n, Ids(Node(x, Nil, rest))) && MarksKept(marks, markedBy, n, Ids(before))
      ensures Reads(x, rem)
    {
      FreshStill(marks, markedBy, n, before, rem);
      OutsidePart(x, before, rem);
      SeenPushed(push, was, final, x, rest, before, rem);
      assert MarkOk(x);
      if rem.Node? {
        assert MarkOk(rem.id);
      }
    }

    /** Makes the siblings up to last the children of x. */
    method Adopt(x: nat, last: Option<nat>, ghost l0: Links, ghost rest: Forest, ghost before: Forest,
                 ghost done: Forest, ghost rem: Forest)
      requires Ok() && AbsorbState(l0, Now(), n, x, rest, before, done, rem) && At(l0, n, x, Nil, rest)
      requires last == if done.Nil? then None else Some(Last(done))
      modifies `list, `next
      ensures Ok() && At(Now(), n, x, done, rem)
      ensures Framed(l0, Now(), n, {x} + Ids(before)) && parent[x] == l0.parent[x]
    {
      AbsorbEnd(l0, Now(), n, x, rest, before, done, rem);
      if last.Some? {
        list := list[x := next[x]];
        next := next[x := next[last.value]];
        next := next[last.value := None];
      }
    }

    /** Finalises one sibling and makes x its parent. */
    method AbsorbOne(x: nat, m: nat, ghost l0: Links, ghost rest: Forest, ghost before: Forest,
                 ghost done: Forest, ghost rem: Forest)
      returns (ghost f: Forest, ghost done': Forest, ghost rem': Forest)
      requires Ok() && AbsorbState(l0, Now(), n, x, rest, before, done, rem) && rem.Node? && m == rem.id
      requires Fresh(markedBy, n, Ids(rem)) && Leads(push, pushed, final, rem)
      modifies this
      ensures var b := Finished(Shape(), m, rem.kids, rem.rest);
              done' == Append(done, Node(m, b.kids, Nil)) && rem' == b.rest
              && visits == old(visits) + b.visits && dirs == old(dirs) + b.dirs
      ensures Ok() && AbsorbState(l0, Now(), n, x, rest, Append(before, f), done', rem')
      ensures f.Node? && done'.Node? && Last(done') == m && |Pre(rem')| < |Pre(rem)|
      ensures (rem'.Node? ==> rem'.id < n) && m < n && next[m] == Head(rem')
      ensures MarksKept(old(markedBy), markedBy, n, Ids(f.kids) + Ids(f.rest))
      ensures Trace(push, old(Past()), Past(), f)
      decreases |Pre(rem)|, 2
    {
      hide Collected, Flagged;
      ghost var l := Now();
      AbsorbAt(l0, l, n, x, rest, before, done, rem);
      ghost var k', used;
      k', used, rem' := Finalize(m, rem.kids, rem.rest);
      AbsorbNext(l0, l, Now(), n, x, rest, before, done, rem, k', used, rem');
      parent := parent[m := Some(x)];
      LastAppend(done, Node(m, k', Nil));
      f, done' := Node(m, rem.kids, used), Append(done, Node(m, k', Nil));
    }

    /** Makes x the parent of every sibling from first on, and finds the last one. */
    method Reparent(x: nat, first: nat, ghost k: Forest) returns (last: nat)
      requires Now().Sized(n) && Linked(Now(), Some(first), k) && k.Node?
      modifies `parent
      ensures last == Last(k) < n && parent == SetParents(old(parent), k, x)
    {
      ghost var l0, rem := Now(), k;
      last := first;
      while next[last].Some?
        invariant l0.next == next && l0.list == list && |next| == |list| == |parent| == n
        invariant rem.Node? && Linked(l0, Some(last), rem) && Last(rem) == Last(k)
        invariant SetParents(parent, rem, x) == SetParents(old(parent), k, x)
        decreases rem
      {
        parent := parent[last := Some(x)];
        last, rem := next[last].value, rem.rest;
      }
      parent := parent[last := Some(x)];
    }

    /** Moves the children of m up behind it. */
    method Splice(x: nat, m: nat, ghost done: Forest, ghost rem: Forest)
      requires Ok() && Below(Now(), n, x, Append(done, rem)) && rem.Node? && m == rem.id < n && list[m].Some?
      modifies `list, `next, `parent
      ensures Ok() && Below(Now(), n, x, Append(done, Node(m, Nil, Append(rem.kids, rem.rest))))
      ensures Framed(old(Now()), Now(), n, Ids(rem)) && next[m] == Head(rem.kids)
    {
      BelowAt(Now(), n, x, done, rem);
      BelowSpliced(Now(), n, x, done, rem);
      SplicedFrame(Now(), n, x, m, rem.kids);
      var last := Reparent(x, list[m].value, rem.kids);
      next := next[last := next[m]];
      next := next[m := list[m]];
      list := list[m := None];
      assert Now() == Spliced(old(Now()), x, m, rem.kids);
    }

    /** The last loop of menu_finalize: choice members are flagged, and the children of nodes
        without a prompt are moved up. */
    method Flatten(x: nat, ghost kids: Forest) returns (ghost kids': Forest)
      requires Ok() && Below(Now(), n, x, kids)
      modifies `list, `next, `parent, `dep, `members, `markedBy, `visits
      ensures kids' == Flat(Shape(), kids) && visits == old(visits) + Visits(x, kids')
      ensures Ok() && Below(Now(), n, x, kids') && Pre(kids') == Pre(kids)
      ensures Framed(old(Now()), Now(), n, Ids(kids)) && MarksKept(old(markedBy), markedBy, n, Ids(kids))
    {
      hide Collected;
      var menu := list[x];
      ghost var done, rem := Nil, kids;
      while menu.Some?
        invariant Flattening(Shape(), x, old(visits), kids, visits, done, rem)
        invariant Ok() && menu == Head(rem) && FlatState(old(Now()), Now(), n, x, kids, done, rem)
        invariant MarksKept(old(markedBy), markedBy, n, Ids(kids))
        decreases |Pre(rem)|
      {
        var m := menu.value;
        FlatAt(old(Now()), Now(), n, x, kids, done, rem);
        FlatteningStep(Shape(), x, old(visits), kids, visits, done, rem);
        MarkMember(x, m);
        if list[m].Some? && !prompted[m] {
          ghost var l := Now();
          Splice(x, m, done, rem);
          FlatSpliced(old(Now()), l, Now(), n, x, kids, done, rem);
          rem := Node(m, Nil, Append(rem.kids, rem.rest));
        }
        FlatNext(old(Now()), Now(), n, x, kids, done, rem);
        done, rem := Append(done, Node(m, rem.kids, Nil)), rem.rest;
        menu := next[m];
      }
      AppendNil(done);
      kids' := done;
    }

    /** Flags the symbol of m as a member of choice x, unless it has been flagged before. */
    method MarkMember(x: nat, m: nat)
      requires Ok() && x < n && m < n
      modifies `dep, `members, `markedBy, `visits
      ensures Ok() && visits == old(visits) + [(x, m)] && MarksKept(old(markedBy), markedBy, n, {m})
    {
      visits := visits + [(x, m)];
      if choice[x] && symbol[m].Some? && symbol[m].value !in members {
        assert MarkOk(m);
        dep := dep[m := mark(x, m, dep[m])];
        members := members + {symbol[m].value};
        markedBy := markedBy[m := Some(x)];
        forall i | 0 <= i < n ensures MarkOk(i) {
          assert old(MarkOk(i));
        }
      }
    }

    /** Finalises node x, which takes over the siblings in used. */
    method Finalize(x: nat, ghost kids: Forest, ghost rest: Forest)
      returns (ghost kids': Forest, ghost used: Forest, ghost rest': Forest)
      requires Ok() && At(Now(), n, x, kids, rest) && Fresh(markedBy, n, Ids(Node(x, kids, rest)))
      requires Leads(push, pushed, final, Node(x, kids, rest))
      modifies this
      ensures Built(kids', rest', visits, dirs) == Since(old(visits), old(dirs), Finished(Shape(), x, kids, rest))
      ensures Ok() && Finalised(old(Now()), Now(), n, x, kids, rest, kids', used, rest')
      ensures MarksKept(old(markedBy), markedBy, n, Ids(kids) + Ids(used))
      ensures Trace(push, old(Past()), Past(), Node(x, kids, used))
      decreases |Pre(Node(x, kids, rest))|, 1
    {
      hide Collected, Flagged;
      kids', used, rest' := Populate(x, kids, rest);
      ghost var l, k := Now(), kids';
      AtBelow(l, n, x, k, rest');
      kids' := Flatten(x, k);
      BelowAgain(l, Now(), n, x, k, rest', kids');
      FlattenFrame(old(Now()), l, Now(), n, x, kids, k, used);
      Regroups(old(visits), Filled(Shape(), x, kids, rest).visits, Visits(x, kids'));
    }

    /** Everything but the last loop. */
    method Populate(x: nat, ghost kids: Forest, ghost rest: Forest)
      returns (ghost kids': Forest, ghost used: Forest, ghost rest': Forest)
      requires Ok() && At(Now(), n, x, kids, rest) && Fresh(markedBy, n, Ids(Node(x, kids, rest)))
      requires Leads(push, pushed, final, Node(x, kids, rest))
      modifies this
      ensures Built(kids', rest', visits, dirs) == Since(old(visits), old(dirs), Filled(Shape(), x, kids, rest))
      ensures Ok() && Finalised(old(Now()), Now(), n, x, kids, rest, kids', used, rest')
      ensures MarksKept(old(markedBy), markedBy, n, Ids(kids) + Ids(used))
      ensures Trace(push, old(Past()), Past(), Node(x, kids, used))
      decreases |Pre(Node(x, kids, rest))|, 0
    {
      hide Collected, Flagged, Framed, Finalised;
      log := log + [x];
      kids', used, rest' := kids, Nil, rest;
      if list[x].Some? {
        ghost var past;
        kids', past := FinalizeChildren(x, kids, rest);
        TraceOpen(push, old(Past()), past, Past(), x, kids);
        FinalisedOpen(old(Now()), Now(), n, x, kids, rest, kids');
      } else {
        Untouched(Now(), n, {x});
        TraceNothing(push, Past());
        if symbol[x].Some? {
          kids', used, rest' := AbsorbAndJoin(x, rest);
        }
        TraceClosed(push, old(Past()), Past(), x, used);
        FinalisedLeaf(old(Now()), Now(), n, x, rest, kids', used, rest');
      }
    }

    /** A symbol without children: it may get a submenu, and its dependency goes into dir_dep. */
    method AbsorbAndJoin(x: nat, ghost rest: Forest) returns (ghost kids': Forest, ghost used: Forest, ghost rest': Forest)
      requires Ok() && At(Now(), n, x, Nil, rest) && Fresh(markedBy, n, Ids(Node(x, Nil, rest))) && symbol[x].Some?
      requires Leads(push, pushed, final, Node(x, Nil, rest))
      modifies this
      ensures Built(kids', rest', visits, dirs) == Since(old(visits), old(dirs), Filled(Shape(), x, Nil, rest))
      ensures Ok() && At(Now(), n, x, kids', rest') && rest == Append(used, rest') && Pre(kids') == Pre(used)
      ensures Framed(old(Now()), Now(), n, {x} + Ids(used)) && parent[x] == old(parent)[x]
      ensures MarksKept(old(markedBy), markedBy, n, Ids(used))
      ensures Trace(push, old(Past()), Past(), used)
      decreases |Pre(rest)|, 5
    {
      hide Flagged, Linked, Parented;
      kids', used, rest' := Absorb(x, rest);
      Regroup3(old(dirs), Gathered(Shape(), x, rest).dirs, [x]);
      dirs, dirDeps := dirs + [x], dirDeps + [dep[x]];
    }

    /** A node that has children already: dependencies first, then the children. */
    method FinalizeChildren(x: nat, ghost kids: Forest, ghost rest: Forest) returns (ghost kids': Forest, ghost past: Record<D>)
      requires Ok() && At(Now(), n, x, kids, rest) && Fresh(markedBy, n, Ids(Node(x, kids, rest))) && list[x].Some?
      requires Leads(push, pushed, final, Node(x, kids, rest))
      modifies this
      ensures kids.Node? && Built(kids', Nil, visits, dirs) == Since(old(visits), old(dirs), Each(Shape(), kids))
      ensures Ok() && At(Now(), n, x, kids', rest) && Pre(kids') == Pre(kids)
      ensures Framed(old(Now()), Now(), n, Ids(kids))
      ensures MarksKept(old(markedBy), markedBy, n, Ids(kids))
      ensures past == Opened(push, old(Past()), x, kids) && Trace(push, past, Past(), kids)
      decreases |Pre(kids)|, 3
    {
      hide Collected, Flagged;
      ghost var l := Now();
      AtBelow(l, n, x, kids, rest);
      LeadsKids(push, pushed, final, Node(x, kids, rest));
      PropagateChildren(x, kids);
      past := Past();
      kids' := FinalizeList(x, kids);
      AppendNil(kids');
      BelowAgain(l, Now(), n, x, kids, rest, kids');
    }
  }

  /** Whether a symbol takes a node, going by the conditions they have in the end. */
  ghost function Takes<D>(absorbs: (nat, D, nat, D) -> bool, final: seq<D>): (nat, nat) -> bool {
    (x: nat, m: nat) => x < |final| && m < |final| && absorbs(x, final[x], m, final[m])
  }

  /** Conditions have their final values when the submenu test reads them. */
  lemma {:induction false} SeenPushed<D>(push: (nat, D, nat, D) -> D, was: seq<D>, final: seq<D>, x: nat, rest: Forest, before: Forest, rem: Forest)
    requires x < |was| && MenuPush.Inside(rest, |was|) && Distinct(Node(x, Nil, rest)) && rest == Append(before, rem)
    requires Leads(push, was, final, Node(x, Nil, rest))
    ensures PushAll(push, was, before)[x] == final[x]
    ensures rem.Node? ==> rem.id < |was| && PushAll(push, was, before)[rem.id] == final[rem.id]
  {
    OutsidePart(x, before, rem);
    IdsAppend(before, rem);
    SeenHead(push, was, final, x, rest, before);
    LeadsNext(push, was, final, x, rest);
    LeadsOn(push, was, final, before, rem);
    if rem.Node? {
      SeenFirst(push, PushAll(push, was, before), final, rem);
    }
  }

  lemma {:induction false} OutsidePart(x: nat, f: Forest, g: Forest)
    requires Distinct(Node(x, Nil, Append(f, g)))
    ensures x !in Ids(f) && x !in Ids(g) && Distinct(f) && Distinct(g)
  {
    DistinctAppend(f, g);
    IdsAppend(f, g);
  }

  lemma {:induction false} SeenHead<D>(push: (nat, D, nat, D) -> D, was: seq<D>, final: seq<D>, x: nat, rest: Forest, before: Forest)
    requires x < |was| && MenuPush.Inside(rest, |was|) && Distinct(Node(x, Nil, rest)) && Leads(push, was, final, Node(x, Nil, rest))
    requires MenuPush.Inside(before, |was|) && Distinct(before) && x !in Ids(before)
    ensures PushAll(push, was, before)[x] == final[x]
  {
    LeadsHere(push, was, final, Node(x, Nil, rest), x);
    PushKept(push, was, before, x);
  }

  lemma {:induction false} SeenFirst<D>(push: (nat, D, nat, D) -> D, dep: seq<D>, final: seq<D>, f: Forest)
    requires f.Node? && Leads(push, dep, final, f) && Distinct(f) && MenuPush.Inside(f, |dep|)
    ensures f.id < |dep| && dep[f.id] == final[f.id]
  {
    LeadsHere(push, dep, final, f, f.id);
  }

  lemma {:induction false} LeadsNext<D>(push: (nat, D, nat, D) -> D, was: seq<D>, final: seq<D>, x: nat, rest: Forest)
    requires Leads(push, was, final, Node(x, Nil, rest))
    ensures Leads(push, was, final, rest)
  {
    assert PushAll(push, was, Node(x, Nil, rest)) == PushAll(push, was, rest);
  }

  ghost function Since(visits: seq<(nat, nat)>, dirs: seq<nat>, b: Built): Built {
    b.(visits := visits + b.visits, dirs := dirs + b.dirs)
  }

  /** Conditions that have been read had their final values. */
  ghost predicate Collected<D>(final: seq<D>, nodes: seq<nat>, deps: seq<D>) {
    |nodes| == |deps| && forall k :: 0 <= k < |nodes| ==> nodes[k] < |final| && deps[k] == final[nodes[k]]
  }

  /** How far the list of kids has been rebuilt. */
  ghost predicate Listing(e: Plan, vs0: seq<(nat, nat)>, ds0: seq<nat>, kids: Forest, vs: seq<(nat, nat)>, ds: seq<nat>, done: Forest,
                          rem: Forest) {
    && Append(done, Each(e, rem).kids) == Each(e, kids).kids
    && vs + Each(e, rem).visits == vs0 + Each(e, kids).visits && ds + Each(e, rem).dirs == ds0 + Each(e, kids).dirs
  }

  lemma {:induction false} ListingStep(e: Plan, vs0: seq<(nat, nat)>, ds0: seq<nat>, kids: Forest, vs: seq<(nat, nat)>, ds: seq<nat>,
                                       done: Forest, rem: Forest)
    requires Listing(e, vs0, ds0, kids, vs, ds, done, rem) && rem.Node?
    ensures var b := Finished(e, rem.id, rem.kids, rem.rest);
            Listing(e, vs0, ds0, kids, vs + b.visits, ds + b.dirs, Append(done, Node(rem.id, b.kids, Nil)), b.rest)
  {
    var b := Finished(e, rem.id, rem.kids, rem.rest);
    AppendAssoc(done, Node(rem.id, b.kids, Nil), Each(e, b.rest).kids);
    Regroups(vs, b.visits, Each(e, b.rest).visits);
    Regroup3(ds, b.dirs, Each(e, b.rest).dirs);
  }

  lemma Regroups(a: seq<(nat, nat)>, b: seq<(nat, nat)>, c: seq<(nat, nat)>)
    ensures a + b + c == a + (b + c)
  {
  }

  ghost predicate Gathering(e: Plan, x: nat, vs0: seq<(nat, nat)>, ds0: seq<nat>, rest: Forest, vs: seq<(nat, nat)>, ds: seq<nat>,
                            done: Forest, rem: Forest) {
    && Append(done, Gathered(e, x, rem).kids) == Gathered(e, x, rest).kids && Gathered(e, x, rem).rest == Gathered(e, x, rest).rest
    && vs + Gathered(e, x, rem).visits == vs0 + Gathered(e, x, rest).visits
    && ds + Gathered(e, x, rem).dirs == ds0 + Gathered(e, x, rest).dirs
  }

  lemma {:induction false} GatheringStep(e: Plan, x: nat, vs0: seq<(nat, nat)>, ds0: seq<nat>, rest: Forest, vs: seq<(nat, nat)>,
                                         ds: seq<nat>, done: Forest, rem: Forest)
    requires Gathering(e, x, vs0, ds0, rest, vs, ds, done, rem) && rem.Node? && e.takes(x, rem.id)
    ensures var b := Finished(e, rem.id, rem.kids, rem.rest);
            Gathering(e, x, vs0, ds0, rest, vs + b.visits, ds + b.dirs, Append(done, Node(rem.id, b.kids, Nil)), b.rest)
  {
    var b := Finished(e, rem.id, rem.kids, rem.rest);
    AppendAssoc(done, Node(rem.id, b.kids, Nil), Gathered(e, x, b.rest).kids);
    Regroups(vs, b.visits, Gathered(e, x, b.rest).visits);
    Regroup3(ds, b.dirs, Gathered(e, x, b.rest).dirs);
  }

  lemma {:induction false} GatheringEnd(e: Plan, x: nat, vs0: seq<(nat, nat)>, ds0: seq<nat>, rest: Forest, vs: seq<(nat, nat)>,
                                        ds: seq<nat>, done: Forest, rem: Forest)
    requires Gathering(e, x, vs0, ds0, rest, vs, ds, done, rem) && (rem.Node? ==> !e.takes(x, rem.id))
    ensures Built(done, rem, vs, ds) == Since(vs0, ds0, Gathered(e, x, rest))
  {
    AppendNil(done);
    assert vs + [] == vs && ds + [] == ds;
  }

  ghost predicate Flattening(e: Plan, x: nat, vs0: seq<(nat, nat)>, kids: Forest, vs: seq<(nat, nat)>, done: Forest, rem: Forest) {
    Append(done, Flat(e, rem)) == Flat(e, kids) && vs + Visits(x, Flat(e, rem)) == vs0 + Visits(x, Flat(e, kids))
  }

  lemma {:induction false} FlatteningStep(e: Plan, x: nat, vs0: seq<(nat, nat)>, kids: Forest, vs: seq<(nat, nat)>, done: Forest, rem: Forest)
    requires Flattening(e, x, vs0, kids, vs, done, rem) && rem.Node?
    ensures if rem.kids.Node? && !e.Prompts(rem.id)
            then Flattening(e, x, vs0, kids, vs + [(x, rem.id)], Append(done, Node(rem.id, Nil, Nil)), Append(rem.kids, rem.rest))
            else Flattening(e, x, vs0, kids, vs + [(x, rem.id)], Append(done, Node(rem.id, rem.kids, Nil)), rem.rest)
  {
    var f := Flat(e, rem);
    assert f.Node? && f.id == rem.id;
    AppendAssoc(done, Node(f.id, f.kids, Nil), f.rest);
    Regroups(vs, [(x, f.id)], Visits(x, f.rest));
  }

  /** The dependencies of x have been propagated to its children. */
  ghost function Opened<D>(push: (nat, D, nat, D) -> D, a: Record<D>, x: nat, kids: Forest): Record<D> {
    Record(a.log, PushSpine(push, a.pushed, x, kids), a.sels + Spine(kids))
  }

  lemma {:induction false} TraceOpen<D>(push: (nat, D, nat, D) -> D, a: Record<D>, b: Record<D>, c: Record<D>, x: nat, kids: Forest)
    requires b == Opened(push, a.(log := a.log + [x]), x, kids) && Trace(push, b, c, kids)
    ensures Trace(push, a, c, Node(x, kids, Nil))
  {
    Regroup3(a.log, [x], Pre(kids));
    Regroup3(a.sels, Spine(kids), Sels(kids));
    Plain([x] + Pre(kids));
    Plain(Spine(kids) + Sels(kids));
  }

  lemma {:induction false} TraceClosed<D>(push: (nat, D, nat, D) -> D, a: Record<D>, c: Record<D>, x: nat, used: Forest)
    requires Trace(push, a.(log := a.log + [x]), c, used)
    ensures Trace(push, a, c, Node(x, Nil, used))
  {
    Plain([x]);
    Plain(Sels(used));
    Regroup3(a.log, [x], Pre(used));
  }

  lemma FlattenFrame(l0: Links, l: Links, l': Links, n: nat, x: nat, kids: Forest, k: Forest, used: Forest)
    requires Pre(k) == Pre(kids) + Pre(used)
    requires Framed(l0, l, n, Ids(Node(x, kids, used))) && Framed(l, l', n, Ids(k))
    ensures Framed(l0, l', n, Ids(Node(x, kids, used))) && Ids(k) == Ids(kids) + Ids(used)
  {
    IdsOfPre(k, kids, used);
    FramedWithin(l0, l, l', n, Ids(Node(x, kids, used)), Ids(k));
  }

  lemma Untouched(l: Links, n: nat, s: set<nat>)
    requires l.Sized(n)
    ensures Framed(l, l, n, s)
  {
  }

  lemma TraceNothing<D>(push: (nat, D, nat, D) -> D, a: Record<D>)
    ensures Trace(push, a, a, Nil)
  {
    Plain(a.log);
    Plain(a.sels);
  }

  lemma {:induction false} FinalisedOpen(l: Links, l': Links, n: nat, x: nat, kids: Forest, rest: Forest, kids': Forest)
    requires At(l, n, x, kids, rest) && At(l', n, x, kids', rest) && Pre(kids') == Pre(kids) && Framed(l, l', n, Ids(kids))
    ensures Finalised(l, l', n, x, kids, rest, kids', Nil, rest)
  {
    Plain(Pre(kids));
  }

  lemma {:induction false} FinalisedLeaf(l: Links, l': Links, n: nat, x: nat, rest: Forest, kids': Forest, used: Forest, rest': Forest)
    requires At(l, n, x, Nil, rest) && At(l', n, x, kids', rest') && rest == Append(used, rest') && Pre(kids') == Pre(used)
    requires Framed(l, l', n, {x} + Ids(used)) && l.parent[x] == l'.parent[x]
    ensures Finalised(l, l', n, x, Nil, rest, kids', used, rest')
  {
    Plain(Pre(used));
  }

  lemma FramedWithin(l0: Links, l: Links, l': Links, n: nat, a: set<nat>, b: set<nat>)
    requires Framed(l0, l, n, a) && Framed(l, l', n, b) && b <= a
    ensures Framed(l0, l', n, a)
  {
  }

  lemma IdsOfPre(f: Forest, g: Forest, h: Forest)
    requires Pre(f) == Pre(g) + Pre(h)
    ensures Ids(f) == Ids(g) + Ids(h)
  {
    IdsPre(f);
    IdsPre(g);
    IdsPre(h);
  }

  lemma AtBelow(l: Links, n: nat, x: nat, kids: Forest, rest: Forest)
    requires At(l, n, x, kids, rest)
    ensures Below(l, n, x, kids)
  {
  }

  /** Changes below x leave x and its siblings where they were. */
  lemma BelowAgain(l: Links, l': Links, n: nat, x: nat, kids: Forest, rest: Forest, kids': Forest)
    requires At(l, n, x, kids, rest) && Below(l', n, x, kids') && Framed(l, l', n, Ids(kids)) && Pre(kids') == Pre(kids)
    ensures At(l', n, x, kids', rest) && l'.parent[x] == l.parent[x]
  {
    SamePre(kids, kids');
    FramedSame(l, l', n, Ids(kids), rest);
    LinkedSame(l, l', l.next[x], rest);
    InnerSame(l, l', rest);
  }

  /** How far the flattening loop has come. */
  ghost predicate FlatState(l0: Links, l: Links, n: nat, x: nat, kids: Forest, done: Forest, rem: Forest) {
    Below(l, n, x, Append(done, rem)) && Pre(Append(done, rem)) == Pre(kids) && Framed(l0, l, n, Ids(kids))
  }

  lemma FlatAt(l0: Links, l: Links, n: nat, x: nat, kids: Forest, done: Forest, rem: Forest)
    requires FlatState(l0, l, n, x, kids, done, rem) && rem.Node?
    ensures rem.id < n && rem.id in Ids(kids) && Ids(rem) <= Ids(kids) && l.list[rem.id] == Head(rem.kids)
    ensures l.next[rem.id] == Head(rem.rest)
  {
    BelowAt(l, n, x, done, rem);
    IdsAppend(done, rem);
    SamePre(Append(done, rem), kids);
  }

  lemma FlatSpliced(l0: Links, l: Links, l': Links, n: nat, x: nat, kids: Forest, done: Forest, rem: Forest)
    requires FlatState(l0, l, n, x, kids, done, rem) && rem.Node?
    requires Below(l', n, x, Append(done, Node(rem.id, Nil, Append(rem.kids, rem.rest)))) && Framed(l, l', n, Ids(rem))
    ensures FlatState(l0, l', n, x, kids, done, Node(rem.id, Nil, Append(rem.kids, rem.rest)))
    ensures |Pre(Node(rem.id, Nil, Append(rem.kids, rem.rest)))| == |Pre(rem)|
  {
    FlatAt(l0, l, n, x, kids, done, rem);
    SplicedPre(rem);
    StepPre(done, rem, Node(rem.id, Nil, Append(rem.kids, rem.rest)));
    FramedTrans(l0, l, l', n, Ids(kids), Ids(rem));
    assert Ids(kids) + Ids(rem) == Ids(kids);
  }

  lemma FlatNext(l0: Links, l: Links, n: nat, x: nat, kids: Forest, done: Forest, rem: Forest)
    requires FlatState(l0, l, n, x, kids, done, rem) && rem.Node?
    ensures FlatState(l0, l, n, x, kids, Append(done, Node(rem.id, rem.kids, Nil)), rem.rest)
    ensures l.Sized(n) && rem.id < n && l.next[rem.id] == Head(rem.rest) && |Pre(rem.rest)| < |Pre(rem)|
  {
    FlatAt(l0, l, n, x, kids, done, rem);
    AppendAssoc(done, Node(rem.id, rem.kids, Nil), rem.rest);
  }

  /** How far automatic submenu creation has come. */
  ghost predicate AbsorbState(l0: Links, l: Links, n: nat, x: nat, rest: Forest, before: Forest, done: Forest, rem: Forest) {
    && rest == Append(before, rem) && Distinct(rest) && x !in Ids(rest) && Pre(done) == Pre(before)
    && Absorbing(l, n, x, done, rem) && Framed(l0, l, n, Ids(before))
  }

  lemma {:induction false} AbsorbStart(l: Links, n: nat, x: nat, rest: Forest)
    requires At(l, n, x, Nil, rest)
    ensures AbsorbState(l, l, n, x, rest, Nil, Nil, rest) && l.next[x] == Head(rest)
  {
  }

  lemma AbsorbAt(l0: Links, l: Links, n: nat, x: nat, rest: Forest, before: Forest, done: Forest, rem: Forest)
    requires AbsorbState(l0, l, n, x, rest, before, done, rem) && rem.Node?
    ensures At(l, n, rem.id, rem.kids, rem.rest) && |Pre(rem)| <= |Pre(rest)|
  {
    PreAppend(before, rem);
    AbsorbingAt(l, n, x, done, rem);
  }

  lemma AbsorbingAt(l: Links, n: nat, x: nat, done: Forest, rem: Forest)
    requires Absorbing(l, n, x, done, rem) && rem.Node?
    ensures At(l, n, rem.id, rem.kids, rem.rest)
  {
    DistinctAppend(done, rem);
    IdsAppend(done, rem);
    LinkedSuffix(l, l.next[x], done, rem);
    assert forall i :: i in Ids(rem) ==> i < n;
    assert rem == Node(rem.id, rem.kids, rem.rest);
  }

  lemma AbsorbNext(l0: Links, l: Links, l1: Links, n: nat, x: nat, rest: Forest, before: Forest, done: Forest, rem: Forest,
                   k': Forest, used: Forest, rem': Forest)
    requires AbsorbState(l0, l, n, x, rest, before, done, rem)
    requires rem.Node? && Finalised(l, l1, n, rem.id, rem.kids, rem.rest, k', used, rem')
    ensures AbsorbState(l0, l1.(parent := l1.parent[rem.id := Some(x)]), n, x, rest,
                        Append(before, Node(rem.id, rem.kids, used)), Append(done, Node(rem.id, k', Nil)), rem')
    ensures |Pre(rem')| < |Pre(rem)| && l1.next[rem.id] == Head(rem') && (rem'.Node? ==> rem'.id < n)
  {
    var m, l' := rem.id, l1.(parent := l1.parent[rem.id := Some(x)]);
    AppendAssoc(before, Node(m, rem.kids, used), rem');
    AbsorbStep(l, l1, n, x, done, rem, k', used, rem');
    AbsorbFrame(l0, l, l1, n, before, Node(m, rem.kids, used), Some(x));
    PreAppend(used, rem');
    StepSame(before, done, rem, k', used);
  }

  lemma AbsorbFrame(l0: Links, l: Links, l1: Links, n: nat, before: Forest, f: Forest, v: Option<nat>)
    requires f.Node? && f.id < n && Framed(l0, l, n, Ids(before)) && Framed(l, l1, n, Ids(f))
    ensures Framed(l0, l1.(parent := l1.parent[f.id := v]), n, Ids(Append(before, f)))
  {
    IdsAppend(before, f);
    FramedTrans(l0, l, l1.(parent := l1.parent[f.id := v]), n, Ids(before), Ids(f));
  }

  lemma AbsorbEnd(l0: Links, l: Links, n: nat, x: nat, rest: Forest, before: Forest, done: Forest, rem: Forest)
    requires AbsorbState(l0, l, n, x, rest, before, done, rem) && At(l0, n, x, Nil, rest)
    ensures if done.Nil? then At(l, n, x, done, rem)
            else Last(done) < n && At(Adopted(l, x, Last(done)), n, x, done, rem)
                 && Framed(l0, Adopted(l, x, Last(done)), n, {x} + Ids(before))
    ensures Framed(l0, l, n, {x} + Ids(before)) && l.parent[x] == l0.parent[x]
  {
    IdsAppend(before, rem);
    SamePre(done, before);
    if done.Node? {
      AdoptedAt(l, n, x, done, rem);
    }
  }

  /** None of these nodes has been given anything by a choice. */
  ghost predicate Fresh(marks: seq<Option<nat>>, n: nat, s: set<nat>) {
    |marks| == n && forall i :: i in s && i < n ==> marks[i] == None
  }

  ghost predicate MarksKept(marks: seq<Option<nat>>, marks': seq<Option<nat>>, n: nat, s: set<nat>) {
    |marks| == |marks'| == n && forall i :: 0 <= i < n && i !in s ==> marks[i] == marks'[i]
  }

  lemma FreshStill(marks: seq<Option<nat>>, marks': seq<Option<nat>>, n: nat, before: Forest, rem: Forest)
    requires Fresh(marks, n, Ids(Append(before, rem))) && MarksKept(marks, marks', n, Ids(before))
    requires Distinct(Append(before, rem))
    ensures Fresh(marks', n, Ids(rem))
  {
    DistinctAppend(before, rem);
    IdsAppend(before, rem);
  }

  lemma MarksStep(m0: seq<Option<nat>>, m1: seq<Option<nat>>, m2: seq<Option<nat>>, n: nat, before: Forest, f: Forest)
    requires f.Node? && MarksKept(m0, m1, n, Ids(before)) && MarksKept(m1, m2, n, Ids(f.kids) + Ids(f.rest))
    ensures MarksKept(m0, m2, n, Ids(Append(before, f)))
  {
    IdsAppend(before, f);
  }

  /** What finalising adds to: the order of nodes, the propagated conditions, and the nodes these have been propagated to. */
  datatype Record<D> = Record(log: seq<nat>, pushed: seq<D>, sels: seq<nat>)

  function Spine(f: Forest): seq<nat> {
    if f.Nil? then [] else [f.id] + Spine(f.rest)
  }

  /** The children of every node of f, in the order they are reached. */
  function Sels(f: Forest): seq<nat> {
    if f.Nil? then [] else Spine(f.kids) + Sels(f.kids) + Sels(f.rest)
  }

  /** From one state to the next, exactly the nodes of f were finalised, in preorder, and had their dependencies propagated. */
  ghost predicate Trace<D>(push: (nat, D, nat, D) -> D, a: Record<D>, b: Record<D>, f: Forest) {
    b == Record(a.log + Pre(f), PushAll(push, a.pushed, f), a.sels + Sels(f))
  }

  lemma {:induction false} TraceStep<D>(push: (nat, D, nat, D) -> D, a: Record<D>, b: Record<D>, c: Record<D>, f: Forest, g: Forest)
    requires Trace(push, a, b, f) && Trace(push, b, c, g)
    ensures Trace(push, a, c, Append(f, g))
  {
    PreAppend(f, g);
    SelsAppend(f, g);
    PushAllAppend(push, a.pushed, f, g);
    Regroup3(a.log, Pre(f), Pre(g));
    Regroup3(a.sels, Sels(f), Sels(g));
  }

  lemma {:induction false} SelsAppend(f: Forest, g: Forest)
    ensures Sels(Append(f, g)) == Sels(f) + Sels(g)
  {
    if f.Node? {
      SelsAppend(f.rest, g);
      Regroup3(Spine(f.kids) + Sels(f.kids), Sels(f.rest), Sels(g));
    }
  }

  /** How far the loop over the children of x has come: before has become done, rem is still to do. */
  ghost predicate ListState(l0: Links, l: Links, n: nat, x: nat, kids: Forest, before: Forest, done: Forest, rem: Forest) {
    && kids == Append(before, rem) && Distinct(kids) && Pre(done) == Pre(before)
    && Below(l, n, x, Append(done, rem)) && Framed(l0, l, n, Ids(before))
  }

  lemma ListStart(l: Links, n: nat, x: nat, kids: Forest)
    requires Below(l, n, x, kids)
    ensures ListState(l, l, n, x, kids, Nil, Nil, kids) && l.list[x] == Head(kids)
  {
  }

  /** The node the loop is at. */
  lemma ListAt(l0: Links, l: Links, n: nat, x: nat, kids: Forest, before: Forest, done: Forest, rem: Forest)
    requires ListState(l0, l, n, x, kids, before, done, rem) && rem.Node?
    ensures At(l, n, rem.id, rem.kids, rem.rest) && |Pre(rem)| <= |Pre(kids)|
  {
    PreAppend(before, rem);
    BelowAt(l, n, x, done, rem);
  }

  lemma BelowAt(l: Links, n: nat, x: nat, done: Forest, rem: Forest)
    requires Below(l, n, x, Append(done, rem)) && rem.Node?
    ensures At(l, n, rem.id, rem.kids, rem.rest)
  {
    DistinctAppend(done, rem);
    IdsAppend(done, rem);
    LinkedSuffix(l, l.list[x], done, rem);
    ParentedAppend(l, x, done, rem);
    ParentedInner(l, x, rem.rest);
    assert forall i :: i in Ids(rem) ==> i < n;
    assert rem == Node(rem.id, rem.kids, rem.rest);
  }

  lemma ListStep(l0: Links, l: Links, l': Links, n: nat, x: nat, kids: Forest, before: Forest, done: Forest, rem: Forest,
                 k': Forest, used: Forest, rem': Forest)
    requires ListState(l0, l, n, x, kids, before, done, rem)
    requires rem.Node? && Finalised(l, l', n, rem.id, rem.kids, rem.rest, k', used, rem')
    ensures ListState(l0, l', n, x, kids, Append(before, Node(rem.id, rem.kids, used)), Append(done, Node(rem.id, k', Nil)), rem')
    ensures |Pre(rem')| < |Pre(rem)| && l'.next[rem.id] == Head(rem')
  {
    var m := rem.id;
    AppendAssoc(before, Node(m, rem.kids, used), rem');
    AppendAssoc(done, Node(m, k', Nil), rem');
    BelowStep(l, l', n, x, done, rem, k', used, rem');
    IdsAppend(before, Node(m, rem.kids, used));
    FramedTrans(l0, l, l', n, Ids(before), Ids(Node(m, rem.kids, used)));
    PreAppend(used, rem');
    StepSame(before, done, rem, k', used);
  }

  lemma StepSame(before: Forest, done: Forest, rem: Forest, k': Forest, used: Forest)
    requires rem.Node? && Pre(done) == Pre(before) && Pre(k') == Pre(rem.kids) + Pre(used)
    ensures Pre(Append(done, Node(rem.id, k', Nil))) == Pre(Append(before, Node(rem.id, rem.kids, used)))
  {
    PreAppend(before, Node(rem.id, rem.kids, used));
    PreAppend(done, Node(rem.id, k', Nil));
    Regroup([rem.id], Pre(rem.kids), Pre(used), []);
    assert Pre(used) + [] == Pre(used);
  }

  /** What a node's conditions are in the end: the propagated ones, or what the choice that flagged it makes of them. */
  ghost function Settled<D>(mark: (nat, nat, D) -> D, choice: Option<nat>, pushed: D, i: nat): D {
    match choice
    case None => pushed
    case Some(c) => mark(c, i, pushed)
  }

  /** menu_finalize on a whole menu tree: the links are those of the tree it should build, with the preorder of
      the parsed one and children only below prompts; every node is finalised once, in that order; and conditions
      come from the node that enclosed it originally and from the choice that flagged it, if any. */
  method Run<D(!new)>(n: nat, prompted: seq<bool>, symbol: seq<Option<nat>>, choice: seq<bool>, push: (nat, D, nat, D) -> D,
                      mark: (nat, nat, D) -> D, absorbs: (nat, D, nat, D) -> bool, links: Links, dep: seq<D>,
                      root: nat, ghost kids: Forest)
    returns (links': Links, dep': seq<D>, dirs: seq<nat>, dirDeps: seq<D>, sels: seq<nat>, selDeps: seq<D>,
             ghost log: seq<nat>, ghost built: Built, ghost markedBy: seq<Option<nat>>)
    requires |prompted| == |symbol| == |choice| == |dep| == n && At(links, n, root, kids, Nil)
    ensures var e := Plan(prompted, symbol, Takes(absorbs, PushAll(push, dep, Node(root, kids, Nil))));
            built == Finished(e, root, kids, Nil) && Tidy(e, built.kids)
    ensures At(links', n, root, built.kids, Nil) && Pre(built.kids) == Pre(kids)
    ensures log == [root] + Pre(kids) && NoDup(log)
    ensures dirs == built.dirs && sels == Sels(Node(root, kids, Nil))
    ensures var pushed := PushAll(push, dep, Node(root, kids, Nil)); Collected(pushed, dirs, dirDeps) && Collected(pushed, sels, selDeps)
    ensures |dep'| == n && markedBy == Flagged(choice, symbol, built.visits).marks
    ensures forall i :: 0 <= i < n ==>
              dep'[i] == Settled(mark, markedBy[i], PushAll(push, dep, Node(root, kids, Nil))[i], i)
  {
    ghost var f := Node(root, kids, Nil);
    ghost var final := PushAll(push, dep, f);
    var menus := new Menus(n, prompted, symbol, choice, push, mark, absorbs, links, dep, final);
    ghost var kids', used, rest' := menus.Finalize(root, kids, Nil);
    links', dep', log := Links(menus.list, menus.next, menus.parent), menus.dep, menus.log;
    built, markedBy := Finished(menus.Shape(), root, kids, Nil), menus.markedBy;
    dirs, dirDeps, sels, selDeps := menus.dirs, menus.dirDeps, menus.sels, menus.selDeps;
    RunEnd(push, dep, menus.Past(), f, kids', used, rest');
    FinishedTidy(menus.Shape(), root, kids, Nil);
    assert [] + built.visits == built.visits && [] + built.dirs == built.dirs;
    forall i | 0 <= i < n ensures dep'[i] == Settled(mark, markedBy[i], final[i], i) {
      assert menus.MarkOk(i);
    }
  }

  lemma {:induction false} RunEnd<D>(push: (nat, D, nat, D) -> D, dep: seq<D>, past: Record<D>, f: Forest, kids': Forest, used: Forest,
                                     rest': Forest)
    requires f.Node? && f.rest.Nil? && Distinct(f)
    requires Nil == Append(used, rest') && Pre(kids') == Pre(f.kids) + Pre(used)
    requires Trace(push, Record([], dep, []), past, Node(f.id, f.kids, used))
    ensures rest'.Nil? && Pre(kids') == Pre(f.kids) && past.log == [f.id] + Pre(f.kids) && NoDup(past.log)
    ensures past.pushed == PushAll(push, dep, f) && past.sels == Sels(f)
  {
    assert used == Nil;
    assert f == Node(f.id, f.kids, Nil);
    DistinctPre(f);
    Plain(Pre(f.kids));
    Plain([f.id] + Pre(f.kids));
    Plain(Sels(f));
  }

  /** What a node is about to get from its parent is what it has in the end. */
  lemma {:induction false} PushedNow<D>(push: (nat, D, nat, D) -> D, pushed: seq<D>, goal: seq<D>, final: seq<D>, x: nat, kids: Forest,
                                        rem: Forest)
    requires Suffix(rem, kids) && rem.Node? && Distinct(kids) && MenuPush.Inside(kids, |pushed|) && x < |pushed| && x !in Ids(kids)
    requires goal == PushSpine(push, pushed, x, rem) && Leads(push, goal, final, kids)
    ensures rem.id in Ids(kids) && rem.id < |pushed| && push(x, pushed[x], rem.id, pushed[rem.id]) == final[rem.id]
    ensures Suffix(rem.rest, kids)
  {
    SuffixPart(rem, kids);
    SpinePushed(push, pushed, x, rem, rem.id);
    LeadsHere(push, goal, final, kids, rem.id);
  }

  lemma Plain(s: seq<nat>)
    ensures s + [] == s && [] + s == s
  {
  }
}
