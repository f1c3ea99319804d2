/** expr_eliminate_dups: merging operands of one junction in place.

    The walk holds two pointers into one and the same tree. Here both are paths below
    the root of a level, the part of the tree made of junctions of one kind, so a
    write through one is seen through the other, and the C test `e1 == e2` on node
    addresses is equality of paths. */
module ExprDups {
  import opened KconfigExpr
  import opened ExprTransform
  import opened ExprEq
  import opened ExprJoin

  /** false goes left, true goes right. */
  type Path = seq<bool>

  /** The shape of a level: junctions of kind op, everything else a leaf. */
  datatype Shape = Leaf | Node(left: Shape, right: Shape)

  function Skeleton(op: Junction, e: Expr): Shape {
    if Is(op, e) then Node(Skeleton(op, e.left), Skeleton(op, e.right)) else Leaf
  }

  function Nodes(s: Shape): nat {
    if s.Leaf? then 0 else 1 + Nodes(s.left) + Nodes(s.right)
  }

  predicate Within(s: Shape, p: Path) {
    p == [] || (s.Node? && Within(if p[0] then s.right else s.left, p[1..]))
  }

  function Below(s: Shape, p: Path): Shape
    requires Within(s, p)
  {
    if p == [] then s else Below(if p[0] then s.right else s.left, p[1..])
  }

  predicate InLevel(op: Junction, u: Expr, p: Path) {
    Within(Skeleton(op, u), p)
  }

  /** *ep for a pointer into the level. */
  function At(op: Junction, u: Expr, p: Path): Expr
    requires InLevel(op, u, p)
  {
    if p == [] then u else At(op, if p[0] then u.right else u.left, p[1..])
  }

  /** *ep = x. */
  function Put(op: Junction, u: Expr, p: Path, x: Expr): Expr
    requires InLevel(op, u, p)
  {
    if p == [] then x
    else if p[0] then u.(right := Put(op, u.right, p[1..], x))
    else u.(left := Put(op, u.left, p[1..], x))
  }

  /** How often the kind of junction changes on the way down, below a level of op. */
  function Alternations(op: Junction, e: Expr): nat
    decreases Size(e), if Is(op, e) then 0 else 1
  {
    if Is(op, e) then
      var l, r := Alternations(op, e.left), Alternations(op, e.right);
      if l > r then l else r
    else if e.Join? then 1 + Alternations(e.op, e)
    else 0
  }

  /** A leaf position: the walk stops there. */
  predicate LeafAt(op: Junction, u: Expr, p: Path) {
    InLevel(op, u, p) && !Is(op, At(op, u, p))
  }

  lemma {:induction false} AtSkeleton(op: Junction, u: Expr, p: Path)
    requires InLevel(op, u, p)
    ensures Skeleton(op, At(op, u, p)) == Below(Skeleton(op, u), p)
    ensures Alternations(op, At(op, u, p)) <= Alternations(op, u)
  {
    if p != [] {
      AtSkeleton(op, if p[0] then u.right else u.left, p[1..]);
    }
  }

  lemma {:induction false} BelowStep(s: Shape, p: Path, b: bool)
    requires Within(s, p) && Below(s, p).Node?
    ensures Within(s, p + [b])
    ensures Below(s, p + [b]) == if b then Below(s, p).right else Below(s, p).left
  {
    if p == [] {
      assert (p + [b])[1..] == [];
    } else {
      assert (p + [b])[1..] == p[1..] + [b];
      BelowStep(if p[0] then s.right else s.left, p[1..], b);
    }
  }

  /** Replacing a leaf keeps the level's shape and every other leaf. */
  lemma {:induction false} PutLeaf(op: Junction, u: Expr, p: Path, x: Expr)
    requires LeafAt(op, u, p) && !Is(op, x)
    ensures var w := Put(op, u, p, x);
            && Skeleton(op, w) == Skeleton(op, u)
            && At(op, w, p) == x
            && Leaves(w) == Leaves(u) - Leaves(At(op, u, p)) + Leaves(x)
            && (Alternations(op, w) <= Alternations(op, u) || Alternations(op, w) <= Alternations(op, x))
  {
    if p != [] {
      PutLeaf(op, if p[0] then u.right else u.left, p[1..], x);
    }
  }

  lemma {:induction false} PutLeafOther(op: Junction, u: Expr, p: Path, x: Expr, q: Path)
    requires LeafAt(op, u, p) && LeafAt(op, u, q) && p != q && !Is(op, x)
    ensures InLevel(op, Put(op, u, p, x), q) && At(op, Put(op, u, p, x), q) == At(op, u, q)
  {
    PutLeaf(op, u, p, x);
    if p != [] && q != [] && p[0] == q[0] {
      var c := if p[0] then u.right else u.left;
      assert p == [p[0]] + p[1..] && q == [q[0]] + q[1..];
      PutLeafOther(op, c, p[1..], x, q[1..]);
    }
  }

  lemma {:induction false} PutSame(op: Junction, u: Expr, p: Path)
    requires InLevel(op, u, p)
    ensures Put(op, u, p, At(op, u, p)) == u
  {
    if p != [] {
      PutSame(op, if p[0] then u.right else u.left, p[1..]);
    }
  }

  /** The value of a level is the junction of any one leaf with the rest. */
  lemma {:induction false} PutValue(op: Junction, u: Expr, p: Path, x: Expr, v: Assignment)
    requires WellTyped(v) && LeafAt(op, u, p)
    ensures Eval(Put(op, u, p, x), v) == Apply(op, Eval(Put(op, u, p, Sym(Unit(op))), v), Eval(x, v))
  {
    UnitValue(op, v);
    if p != [] {
      var c, other := if p[0] then u.right else u.left, if p[0] then u.left else u.right;
      PutValue(op, c, p[1..], x, v);
      ApplyMoves(op, Eval(Put(op, c, p[1..], Sym(Unit(op))), v), Eval(x, v), Eval(other, v));
    }
  }

  lemma ApplyMoves(op: Junction, a: Tri, x: Tri, b: Tri)
    ensures Apply(op, Apply(op, a, x), b) == Apply(op, Apply(op, a, b), x)
    ensures Apply(op, b, Apply(op, a, x)) == Apply(op, Apply(op, b, a), x)
  {
  }

  /** Storing an equal value changes nothing. */
  lemma PutEqual(op: Junction, u: Expr, p: Path, x: Expr, v: Assignment)
    requires WellTyped(v) && LeafAt(op, u, p) && Eval(x, v) == Eval(At(op, u, p), v)
    ensures Eval(Put(op, u, p, x), v) == Eval(u, v)
  {
    PutValue(op, u, p, x, v);
    PutValue(op, u, p, At(op, u, p), v);
    PutSame(op, u, p);
  }

  /** Storing the unit in one leaf and the junction of both in another changes nothing. */
  lemma {:induction false} PutJoined(op: Junction, u: Expr, p: Path, q: Path, t: Expr, v: Assignment)
    requires WellTyped(v) && LeafAt(op, u, p) && LeafAt(op, u, q) && p != q
    requires Eval(t, v) == Apply(op, Eval(At(op, u, p), v), Eval(At(op, u, q), v))
    ensures var w := Put(op, u, p, Sym(Unit(op)));
            LeafAt(op, w, q) && Eval(Put(op, w, q, t), v) == Eval(u, v)
  {
    UnitValue(op, v);
    var unit := Sym(Unit(op));
    var w := Put(op, u, p, unit);
    PutLeaf(op, u, p, unit);
    PutLeafOther(op, u, p, unit, q);
    PutValue(op, w, q, t, v);
    PutValue(op, w, q, At(op, u, q), v);
    PutSame(op, w, q);
    PutValue(op, u, p, At(op, u, p), v);
    PutSame(op, u, p);
    JoinedRest(op, Eval(Put(op, w, q, unit), v), Eval(At(op, u, p), v), Eval(At(op, u, q), v));
  }

  lemma JoinedRest(op: Junction, rest: Tri, x: Tri, y: Tri)
    ensures Apply(op, rest, Apply(op, x, y)) == Apply(op, Apply(op, rest, y), x)
  {
  }

  /** Some junction has a y or n operand, which expr_eliminate_yn will remove. */
  predicate Reducible(e: Expr) {
    e.Join? && (Settled(e.left) || Settled(e.right) || Reducible(e.left) || Reducible(e.right))
  }

  predicate Settled(e: Expr) {
    e == Sym(Yes) || e == Sym(No)
  }

  lemma {:induction false} ReducibleShrinks(e: Expr)
    requires Reducible(e)
    ensures Leaves(EliminateYn(e)) < Leaves(e)
  {
    LeavesPositive(e.left);
    LeavesPositive(e.right);
    if Reducible(e.left) {
      ReducibleShrinks(e.left);
    } else if Reducible(e.right) {
      ReducibleShrinks(e.right);
    }
  }

  lemma LeavesPositive(e: Expr)
    ensures Leaves(e) > 0
  {
  }

  lemma {:induction false} ReducibleAt(op: Junction, u: Expr, p: Path)
    requires InLevel(op, u, p) && ((p != [] && Settled(At(op, u, p))) || Reducible(At(op, u, p)))
    ensures Reducible(u)
  {
    if p != [] {
      var c := if p[0] then u.right else u.left;
      if |p| > 1 || Reducible(At(op, u, p)) {
        ReducibleAt(op, c, p[1..]);
      } else {
        assert p[1..] == [];
      }
    }
  }

  /** One leaf pair: simplify the first inside, then try to merge. */
  function Pair(op: Junction, u: Expr, p1: Path, p2: Path, e1: Expr): (Expr, nat)
    requires LeafAt(op, u, p1) && LeafAt(op, u, p2) && p1 != p2 && !Is(op, e1)
  {
    PutLeaf(op, u, p1, e1);
    PutLeafOther(op, u, p1, e1, p2);
    var u1 := Put(op, u, p1, e1);
    var joined := TryJoin(op, e1, At(op, u1, p2));
    if joined.None? then (u1, 0)
    else
      PutLeaf(op, u1, p1, Sym(Unit(op)));
      PutLeafOther(op, u1, p1, Sym(Unit(op)), p2);
      (Put(op, Put(op, u1, p1, Sym(Unit(op))), p2, joined.value), 1)
  }

  lemma PairFacts(op: Junction, u: Expr, p1: Path, p2: Path, e1: Expr)
    requires LeafAt(op, u, p1) && LeafAt(op, u, p2) && p1 != p2 && !Is(op, e1)
    requires Leaves(e1) <= Leaves(At(op, u, p1)) && Alternations(op, e1) <= Alternations(op, u)
    ensures var (w, n) := Pair(op, u, p1, p2, e1);
            && Skeleton(op, w) == Skeleton(op, u)
            && Alternations(op, w) <= Alternations(op, u)
            && Leaves(w) <= Leaves(u)
            && (n == 0 ==> w == Put(op, u, p1, e1))
            && (n > 0 || Reducible(e1) ==> Reducible(w))
  {
    PutLeaf(op, u, p1, e1);
    PutLeafOther(op, u, p1, e1, p2);
    var u1 := Put(op, u, p1, e1);
    var e2 := At(op, u1, p2);
    var joined := TryJoin(op, e1, e2);
    if joined.None? {
      if Reducible(e1) {
        ReducibleAt(op, u1, p1);
      }
    } else {
      var t, unit := joined.value, Sym(Unit(op));
      TryJoinShape(op, e1, e2);
      AtSkeleton(op, u1, p2);
      LeavesPositive(e1);
      LeavesPositive(e2);
      PutLeaf(op, u1, p1, unit);
      PutLeafOther(op, u1, p1, unit, p2);
      var u2 := Put(op, u1, p1, unit);
      PutLeaf(op, u2, p2, t);
      PutLeafOther(op, u2, p2, t, p1);
      ReducibleAt(op, Put(op, u2, p2, t), p1);
    }
  }

  /** expr_eliminate_dups1: the new level and the number of merges. */
  function Walk(op: Junction, u: Expr, p1: Path, p2: Path): (r: (Expr, nat))
    requires InLevel(op, u, p1) && InLevel(op, u, p2)
    ensures Skeleton(op, r.0) == Skeleton(op, u)
    ensures Alternations(op, r.0) <= Alternations(op, u)
    ensures Leaves(r.0) <= Leaves(u)
    ensures r.1 == 0 ==> r.0 == u
    ensures r.1 > 0 ==> Reducible(r.0)
    decreases Alternations(op, u), Nodes(Below(Skeleton(op, u), p1)) + Nodes(Below(Skeleton(op, u), p2))
  {
    AtSkeleton(op, u, p1);
    AtSkeleton(op, u, p2);
    var e1, e2 := At(op, u, p1), At(op, u, p2);
    if Is(op, e1) then
      BelowStep(Skeleton(op, u), p1, false);
      BelowStep(Skeleton(op, u), p1, true);
      var (u1, n1) := Walk(op, u, p1 + [false], p2);
      var (u2, n2) := Walk(op, u1, p1 + [true], p2);
      (u2, n1 + n2)
    else if Is(op, e2) then
      BelowStep(Skeleton(op, u), p2, false);
      BelowStep(Skeleton(op, u), p2, true);
      var (u1, n1) := Walk(op, u, p1, p2 + [false]);
      var (u2, n2) := Walk(op, u1, p1, p2 + [true]);
      (u2, n1 + n2)
    else if p1 == p2 then (u, 0)
    else
      var (e1', n) := if e1.Join? then Walk(e1.op, e1, [], []) else (e1, 0);
      PairFacts(op, u, p1, p2, e1');
      PutSame(op, u, p1);
      var (u', m) := Pair(op, u, p1, p2, e1');
      (u', n + m)
  }

  /** Every operand, at any depth of junctions, satisfies p. */
  predicate All(e: Expr, p: Expr -> bool) {
    if e.Join? then All(e.left, p) && All(e.right, p) else p(e)
  }

  /** What merging and removing operands keep of every operand. */
  ghost predicate Kept(p: Expr -> bool) {
    && p(Sym(Yes)) && p(Sym(No))
    && forall op: Junction, e1: Expr, e2: Expr {:trigger TryJoin(op, e1, e2)} ::
         All(e1, p) && All(e2, p) && TryJoin(op, e1, e2).Some? ==> All(TryJoin(op, e1, e2).value, p)
  }

  lemma {:induction false} AtAll(op: Junction, u: Expr, q: Path, p: Expr -> bool)
    requires InLevel(op, u, q) && All(u, p)
    ensures All(At(op, u, q), p)
  {
    if q != [] {
      AtAll(op, if q[0] then u.right else u.left, q[1..], p);
    }
  }

  lemma {:induction false} PutAll(op: Junction, u: Expr, q: Path, x: Expr, p: Expr -> bool)
    requires InLevel(op, u, q) && All(u, p) && All(x, p)
    ensures All(Put(op, u, q, x), p)
  {
    if q != [] {
      PutAll(op, if q[0] then u.right else u.left, q[1..], x, p);
    }
  }

  lemma {:induction false} WalkAll(op: Junction, u: Expr, p1: Path, p2: Path, p: Expr -> bool)
    requires InLevel(op, u, p1) && InLevel(op, u, p2) && Kept(p) && All(u, p)
    ensures All(Walk(op, u, p1, p2).0, p)
    decreases Alternations(op, u), Nodes(Below(Skeleton(op, u), p1)) + Nodes(Below(Skeleton(op, u), p2))
  {
    AtSkeleton(op, u, p1);
    AtSkeleton(op, u, p2);
    var e1, e2 := At(op, u, p1), At(op, u, p2);
    if Is(op, e1) {
      BelowStep(Skeleton(op, u), p1, false);
      BelowStep(Skeleton(op, u), p1, true);
      WalkAll(op, u, p1 + [false], p2, p);
      WalkAll(op, Walk(op, u, p1 + [false], p2).0, p1 + [true], p2, p);
    } else if Is(op, e2) {
      BelowStep(Skeleton(op, u), p2, false);
      BelowStep(Skeleton(op, u), p2, true);
      WalkAll(op, u, p1, p2 + [false], p);
      WalkAll(op, Walk(op, u, p1, p2 + [false]).0, p1, p2 + [true], p);
    } else if p1 != p2 {
      AtAll(op, u, p1, p);
      var e1' := if e1.Join? then Walk(e1.op, e1, [], []).0 else e1;
      if e1.Join? {
        WalkAll(e1.op, e1, [], [], p);
      }
      PairAll(op, u, p1, p2, e1', p);
    }
  }

  lemma PairAll(op: Junction, u: Expr, p1: Path, p2: Path, e1: Expr, p: Expr -> bool)
    requires LeafAt(op, u, p1) && LeafAt(op, u, p2) && p1 != p2 && !Is(op, e1) && Kept(p) && All(u, p) && All(e1, p)
    ensures All(Pair(op, u, p1, p2, e1).0, p)
  {
    PutLeaf(op, u, p1, e1);
    PutLeafOther(op, u, p1, e1, p2);
    PutAll(op, u, p1, e1, p);
    var u1 := Put(op, u, p1, e1);
    AtAll(op, u1, p2, p);
    var joined := TryJoin(op, e1, At(op, u1, p2));
    if joined.Some? {
      PutLeaf(op, u1, p1, Sym(Unit(op)));
      PutLeafOther(op, u1, p1, Sym(Unit(op)), p2);
      PutAll(op, u1, p1, Sym(Unit(op)), p);
      PutAll(op, Put(op, u1, p1, Sym(Unit(op))), p2, joined.value, p);
    }
  }

  lemma {:induction false} EliminateYnAll(e: Expr, p: Expr -> bool)
    requires Kept(p) && All(e, p)
    ensures All(EliminateYn(e), p)
  {
    if e.Join? {
      EliminateYnAll(e.left, p);
      EliminateYnAll(e.right, p);
    }
  }

  lemma {:induction false} AllMentions(e: Expr, cs: set<Symbol>)
    ensures All(e, (x: Expr) => Mentions(x, cs)) <==> Mentions(e, cs)
  {
    if e.Join? {
      AllMentions(e.left, cs);
      AllMentions(e.right, cs);
    }
  }

  lemma MentionsKept(cs: set<Symbol>)
    requires {Yes, Mod, No} <= cs
    ensures Kept((x: Expr) => Mentions(x, cs))
  {
    var p := (x: Expr) => Mentions(x, cs);
    forall op: Junction, e1: Expr, e2: Expr | All(e1, p) && All(e2, p) && TryJoin(op, e1, e2).Some?
      ensures All(TryJoin(op, e1, e2).value, p)
    {
      AllMentions(e1, cs);
      AllMentions(e2, cs);
      TryJoinMentions(op, e1, e2, cs);
      AllMentions(TryJoin(op, e1, e2).value, cs);
    }
  }

  lemma WalkMentions(op: Junction, u: Expr, p1: Path, p2: Path, cs: set<Symbol>)
    requires InLevel(op, u, p1) && InLevel(op, u, p2) && {Yes, Mod, No} <= cs && Mentions(u, cs)
    ensures Mentions(Walk(op, u, p1, p2).0, cs)
  {
    MentionsKept(cs);
    AllMentions(u, cs);
    WalkAll(op, u, p1, p2, (x: Expr) => Mentions(x, cs));
    AllMentions(Walk(op, u, p1, p2).0, cs);
  }

  lemma AtMentions(op: Junction, u: Expr, q: Path, cs: set<Symbol>)
    requires InLevel(op, u, q) && Mentions(u, cs)
    ensures Mentions(At(op, u, q), cs)
  {
    AllMentions(u, cs);
    AtAll(op, u, q, (x: Expr) => Mentions(x, cs));
    AllMentions(At(op, u, q), cs);
  }

  /** The walk keeps the value although both paths run over the same tree. */
  lemma {:induction false} WalkSound(op: Junction, u: Expr, p1: Path, p2: Path, v: Assignment, cs: set<Symbol>)
    requires WellTyped(v) && ConstantsDistinct(v, cs) && Mentions(u, cs)
    requires InLevel(op, u, p1) && InLevel(op, u, p2)
    ensures Eval(Walk(op, u, p1, p2).0, v) == Eval(u, v)
    decreases Alternations(op, u), Nodes(Below(Skeleton(op, u), p1)) + Nodes(Below(Skeleton(op, u), p2))
  {
    AtSkeleton(op, u, p1);
    AtSkeleton(op, u, p2);
    var e1, e2 := At(op, u, p1), At(op, u, p2);
    if Is(op, e1) {
      BelowStep(Skeleton(op, u), p1, false);
      BelowStep(Skeleton(op, u), p1, true);
      WalkSound(op, u, p1 + [false], p2, v, cs);
      WalkMentions(op, u, p1 + [false], p2, cs);
      WalkSound(op, Walk(op, u, p1 + [false], p2).0, p1 + [true], p2, v, cs);
    } else if Is(op, e2) {
      BelowStep(Skeleton(op, u), p2, false);
      BelowStep(Skeleton(op, u), p2, true);
      WalkSound(op, u, p1, p2 + [false], v, cs);
      WalkMentions(op, u, p1, p2 + [false], cs);
      WalkSound(op, Walk(op, u, p1, p2 + [false]).0, p1, p2 + [true], v, cs);
    } else if p1 != p2 {
      AtMentions(op, u, p1, cs);
      var e1' := if e1.Join? then Walk(e1.op, e1, [], []).0 else e1;
      if e1.Join? {
        WalkSound(e1.op, e1, [], [], v, cs);
        WalkMentions(e1.op, e1, [], [], cs);
      }
      PairSound(op, u, p1, p2, e1', v, cs);
    }
  }

  lemma PairSound(op: Junction, u: Expr, p1: Path, p2: Path, e1: Expr, v: Assignment, cs: set<Symbol>)
    requires WellTyped(v) && ConstantsDistinct(v, cs) && Mentions(u, cs) && Mentions(e1, cs)
    requires LeafAt(op, u, p1) && LeafAt(op, u, p2) && p1 != p2 && !Is(op, e1)
    requires Eval(e1, v) == Eval(At(op, u, p1), v)
    ensures Eval(Pair(op, u, p1, p2, e1).0, v) == Eval(u, v)
  {
    PutLeaf(op, u, p1, e1);
    PutLeafOther(op, u, p1, e1, p2);
    PutEqual(op, u, p1, e1, v);
    AtMentions(op, u, p2, cs);
    var u1 := Put(op, u, p1, e1);
    var joined := TryJoin(op, e1, At(op, u1, p2));
    if joined.Some? {
      TryJoinSound(op, e1, At(op, u1, p2), v, cs);
      PutJoined(op, u1, p1, p2, joined.value, v);
    }
  }

  /** The repeat-until-stable loop; each round that merges anything loses an operand. */
  function EliminateDups(e: Expr): (r: Expr)
    decreases Leaves(e)
  {
    if !e.Join? then e
    else
      var (e', n) := Walk(e.op, e, [], []);
      if n == 0 then e'
      else
        ReducibleShrinks(e');
        EliminateDups(EliminateYn(e'))
  }

  /** The value is kept under every assignment that tells the constants in e apart. */
  lemma {:induction false} EliminateDupsSound(e: Expr, v: Assignment, cs: set<Symbol>)
    requires WellTyped(v) && ConstantsDistinct(v, cs) && Mentions(e, cs)
    ensures Eval(EliminateDups(e), v) == Eval(e, v)
    decreases Leaves(e)
  {
    if e.Join? {
      var (e', n) := Walk(e.op, e, [], []);
      WalkSound(e.op, e, [], [], v, cs);
      WalkMentions(e.op, e, [], [], cs);
      if n > 0 {
        ReducibleShrinks(e');
        EliminateYnSound(e', v);
        EliminateYnMentions(e', cs);
        EliminateDupsSound(EliminateYn(e'), v, cs);
      }
    }
  }

  lemma EliminateYnMentions(e: Expr, cs: set<Symbol>)
    requires {Yes, Mod, No} <= cs && Mentions(e, cs)
    ensures Mentions(EliminateYn(e), cs)
  {
    MentionsKept(cs);
    AllMentions(e, cs);
    EliminateYnAll(e, (x: Expr) => Mentions(x, cs));
    AllMentions(EliminateYn(e), cs);
  }

  /** With no other constants than y, m and n there is nothing to tell apart. */
  lemma EliminateDupsSoundBuiltIn(e: Expr, v: Assignment)
    requires WellTyped(v) && Mentions(e, {Yes, Mod, No})
    ensures Eval(EliminateDups(e), v) == Eval(e, v)
  {
    BuiltInsDistinct(v);
    EliminateDupsSound(e, v, {Yes, Mod, No});
  }

  lemma {:induction false} EliminateDupsAll(e: Expr, p: Expr -> bool)
    requires Kept(p) && All(e, p)
    ensures All(EliminateDups(e), p)
    decreases Leaves(e)
  {
    if e.Join? {
      var (e', n) := Walk(e.op, e, [], []);
      WalkAll(e.op, e, [], [], p);
      if n > 0 {
        ReducibleShrinks(e');
        EliminateYnAll(e', p);
        EliminateDupsAll(EliminateYn(e'), p);
      }
    }
  }

  lemma EliminateDupsMentions(e: Expr, cs: set<Symbol>)
    requires {Yes, Mod, No} <= cs && Mentions(e, cs)
    ensures Mentions(EliminateDups(e), cs)
  {
    MentionsKept(cs);
    AllMentions(e, cs);
    EliminateDupsAll(e, (x: Expr) => Mentions(x, cs));
    AllMentions(EliminateDups(e), cs);
  }

  /** The result is stable: running it again does nothing. */
  lemma {:induction false} EliminateDupsStable(e: Expr)
    ensures var r := EliminateDups(e); (r.Join? ==> Walk(r.op, r, [], []).1 == 0) && EliminateDups(r) == r
    decreases Leaves(e)
  {
    if e.Join? {
      var (e', n) := Walk(e.op, e, [], []);
      if n > 0 {
        ReducibleShrinks(e');
        EliminateDupsStable(EliminateYn(e'));
      }
    }
  }

  /** A walk that counts no merge has found no pair of leaves that merges. */
  lemma {:induction false} NoMergeLeft(op: Junction, u: Expr, p1: Path, p2: Path, q1: Path, q2: Path)
    requires InLevel(op, u, p1) && InLevel(op, u, p2) && Walk(op, u, p1, p2).1 == 0
    requires LeafAt(op, u, p1 + q1) && LeafAt(op, u, p2 + q2) && p1 + q1 != p2 + q2
    ensures TryJoin(op, At(op, u, p1 + q1), At(op, u, p2 + q2)).None?
    decreases |q1| + |q2|
  {
    AtConcat(op, u, p1, q1);
    AtConcat(op, u, p2, q2);
    if q1 != [] {
      PathStep(p1, q1);
      QuietLeft(op, u, p1, p2, q1[0]);
      NoMergeLeft(op, u, p1 + [q1[0]], p2, q1[1..], q2);
    } else if q2 != [] {
      assert p1 + q1 == p1;
      PathStep(p2, q2);
      QuietRight(op, u, p1, p2, q2[0]);
      NoMergeLeft(op, u, p1, p2 + [q2[0]], q1, q2[1..]);
    } else {
      assert p1 + q1 == p1 && p2 + q2 == p2;
      PutSame(op, u, p1);
    }
  }

  lemma PathStep(p: Path, q: Path)
    requires q != []
    ensures p + q == (p + [q[0]]) + q[1..]
  {
  }

  /** A walk that merges nothing merges nothing on either side. */
  lemma QuietLeft(op: Junction, u: Expr, p1: Path, p2: Path, b: bool)
    requires InLevel(op, u, p1) && InLevel(op, u, p2) && Walk(op, u, p1, p2).1 == 0 && Is(op, At(op, u, p1))
    ensures InLevel(op, u, p1 + [b]) && Walk(op, u, p1 + [b], p2).1 == 0
  {
    AtSkeleton(op, u, p1);
    BelowStep(Skeleton(op, u), p1, false);
    BelowStep(Skeleton(op, u), p1, true);
  }

  lemma QuietRight(op: Junction, u: Expr, p1: Path, p2: Path, b: bool)
    requires InLevel(op, u, p1) && InLevel(op, u, p2) && Walk(op, u, p1, p2).1 == 0
    requires !Is(op, At(op, u, p1)) && Is(op, At(op, u, p2))
    ensures InLevel(op, u, p2 + [b]) && Walk(op, u, p1, p2 + [b]).1 == 0
  {
    AtSkeleton(op, u, p2);
    BelowStep(Skeleton(op, u), p2, false);
    BelowStep(Skeleton(op, u), p2, true);
  }

  lemma {:induction false} AtConcat(op: Junction, u: Expr, p: Path, q: Path)
    requires InLevel(op, u, p + q)
    ensures InLevel(op, u, p) && InLevel(op, At(op, u, p), q) && At(op, At(op, u, p), q) == At(op, u, p + q)
  {
    if p == [] {
      assert p + q == q;
    } else {
      assert (p + q)[1..] == p[1..] + q;
      AtConcat(op, if p[0] then u.right else u.left, p[1..], q);
    }
  }

  /** In the result no two different operands of the top junction can be merged. */
  lemma EliminateDupsComplete(e: Expr, p: Path, q: Path)
    requires EliminateDups(e).Join?
    requires LeafAt(EliminateDups(e).op, EliminateDups(e), p) && LeafAt(EliminateDups(e).op, EliminateDups(e), q) && p != q
    ensures var r := EliminateDups(e); TryJoin(r.op, At(r.op, r, p), At(r.op, r, q)).None?
  {
    EliminateDupsStable(e);
    var r := EliminateDups(e);
    assert [] + p == p && [] + q == q;
    NoMergeLeft(r.op, r, [], [], p, q);
  }

  /** Where the i-th operand of a junction is. */
  function OperandPath(op: Junction, e: Expr, i: nat): Path
    requires i < |Operands(op, e)|
  {
    if !Is(op, e) then []
    else
      var n := |Operands(op, e.left)|;
      if i < n then [false] + OperandPath(op, e.left, i) else [true] + OperandPath(op, e.right, i - n)
  }

  lemma {:induction false} OperandPathLeaf(op: Junction, e: Expr, i: nat)
    requires i < |Operands(op, e)|
    ensures LeafAt(op, e, OperandPath(op, e, i)) && At(op, e, OperandPath(op, e, i)) == Operands(op, e)[i]
  {
    if Is(op, e) {
      var n, p := |Operands(op, e.left)|, OperandPath(op, e, i);
      if i < n {
        OperandPathLeaf(op, e.left, i);
        assert p[1..] == OperandPath(op, e.left, i);
      } else {
        OperandPathLeaf(op, e.right, i - n);
        assert p[1..] == OperandPath(op, e.right, i - n);
      }
    }
  }

  lemma {:induction false} OperandPathsDiffer(op: Junction, e: Expr, i: nat, j: nat)
    requires i < j < |Operands(op, e)|
    ensures OperandPath(op, e, i) != OperandPath(op, e, j)
  {
    var n := |Operands(op, e.left)|;
    var p, q := OperandPath(op, e, i), OperandPath(op, e, j);
    if j < n {
      OperandPathsDiffer(op, e.left, i, j);
      assert p[1..] == OperandPath(op, e.left, i) && q[1..] == OperandPath(op, e.left, j);
    } else if n <= i {
      OperandPathsDiffer(op, e.right, i - n, j - n);
      assert p[1..] == OperandPath(op, e.right, i - n) && q[1..] == OperandPath(op, e.right, j - n);
    } else {
      assert p[0] != q[0];
    }
  }

  /** In the result no two operands of the top junction are the same, and none of the pairs in the table of merges is left. */
  lemma {:induction false} EliminateDupsIrredundant(e: Expr, i: nat, j: nat)
    requires EliminateDups(e).Join? && var r := EliminateDups(e); i < |Operands(r.op, r)| && j < |Operands(r.op, r)| && i != j
    ensures var r := EliminateDups(e);
            var a, b := Operands(r.op, r)[i], Operands(r.op, r)[j];
            !Redundant(r.op, a, b) && !Eq(a, b)
  {
    var r := EliminateDups(e);
    OperandPathLeaf(r.op, r, i);
    OperandPathLeaf(r.op, r, j);
    OperandPathsDiffer(r.op, r, if i < j then i else j, if i < j then j else i);
    EliminateDupsComplete(e, OperandPath(r.op, r, i), OperandPath(r.op, r, j));
    JoinTable(r.op, Operands(r.op, r)[i], Operands(r.op, r)[j]);
  }

  /** Merging never undoes what expr_transform established. */
  lemma EliminateDupsNormal(e: Expr)
    requires Normal(e)
    ensures Normal(EliminateDups(e))
  {
    NormalKept();
    AllNormal(e);
    EliminateDupsAll(e, Normal);
    AllNormal(EliminateDups(e));
  }

  lemma NormalKept()
    ensures Kept(Normal)
  {
    forall op: Junction, e1: Expr, e2: Expr | All(e1, Normal) && All(e2, Normal) && TryJoin(op, e1, e2).Some?
      ensures All(TryJoin(op, e1, e2).value, Normal)
    {
      AllNormal(e1);
      AllNormal(e2);
      TryJoinNormal(op, e1, e2);
      AllNormal(TryJoin(op, e1, e2).value);
    }
  }

  lemma {:induction false} AllNormal(e: Expr)
    ensures All(e, Normal) <==> Normal(e)
  {
    if e.Join? {
      AllNormal(e.left);
      AllNormal(e.right);
    }
  }

  /** Two spellings of one number: FOO='2' && FOO!='02' is never true for FOO = y, yet it
      is rewritten to FOO='2', which is. */
  lemma SpellingsClash() returns (e: Expr, v: Assignment)
    ensures WellTyped(v) && Eval(e, v) == 0 && Eval(EliminateDups(e), v) == 2
  {
    var foo, two, alsoTwo := Config(0, Tristate), Const("2"), Const("02");
    var tri: Symbol -> Tri := s => if s == foo then 2 else TriOf(s);
    v := Assignment(tri, (s: Symbol, c: Symbol) =>
           if c == two || c == alsoTwo then 0 else if BuiltIn(c) && tri(s) == TriOf(c) then 0 else 1);
    var e1, e2 := Cmp(Equal, foo, two), Cmp(Unequal, foo, alsoTwo);
    e := Join(And, e1, e2);
    assert two != alsoTwo by {
      assert |"2"| != |"02"|;
    }
    MixedTestsExact(foo, two, alsoTwo, v);
    SpellingsClashRewrite(foo, two, alsoTwo);
  }

  lemma SpellingsClashRewrite(foo: Symbol, b: Symbol, c: Symbol)
    requires foo.Type() == Tristate && b.IsConst() && c.IsConst() && b != c
    ensures EliminateDups(Join(And, Cmp(Equal, foo, b), Cmp(Unequal, foo, c))) == Cmp(Equal, foo, b)
  {
    var e1, e2 := Cmp(Equal, foo, b), Cmp(Unequal, foo, c);
    assert JoinAnd(e1, e2) == Some(e1);
    assert JoinAnd(e1, Sym(Yes)).None?;
    WalkTwo(And, e1, e2);
    assert EliminateYn(Join(And, Sym(Yes), e1)) == e1;
  }

  lemma OperandAt(op: Junction, e1: Expr, e2: Expr, b: bool, x: Expr)
    requires !e1.Join? && !e2.Join?
    ensures var e := Join(op, e1, e2);
            && InLevel(op, e, [b]) && At(op, e, [b]) == (if b then e2 else e1) && LeafAt(op, e, [b])
            && Put(op, e, [b], x) == if b then Join(op, e1, x) else Join(op, x, e2)
  {
    var e, p := Join(op, e1, e2), [b];
    assert p[1..] == [];
    assert InLevel(op, if b then e2 else e1, []);
    assert Skeleton(op, e) == Node(Leaf, Leaf);
    assert At(op, if b then e2 else e1, []) == (if b then e2 else e1);
    assert Put(op, if b then e2 else e1, [], x) == x;
  }

  /** The condition is exact: an assignment keeps the value of every expression over these constants
      if and only if it tells them apart. */
  lemma EliminateDupsExact(v: Assignment, cs: set<Symbol>)
    requires WellTyped(v) && {Yes, Mod, No} <= cs && forall c :: c in cs ==> c.IsConst()
    ensures (forall e: Expr :: Mentions(e, cs) ==> Eval(EliminateDups(e), v) == Eval(e, v)) <==> ConstantsDistinct(v, cs)
  {
    if ConstantsDistinct(v, cs) {
      forall e: Expr | Mentions(e, cs) ensures Eval(EliminateDups(e), v) == Eval(e, v) {
        EliminateDupsSound(e, v, cs);
      }
    } else {
      var s: Symbol, b: Symbol, c: Symbol :|
        s.Type() == Tristate && b in cs && c in cs && b != c && v.order(s, b) == 0 && v.order(s, c) == 0;
      var e1, e2 := Cmp(Equal, s, b), Cmp(Unequal, s, c);
      SpellingsClashRewrite(s, b, c);
      assert Mentions(e1, cs) && Mentions(e2, cs) && Eval(e1, v) == 2 && Eval(e2, v) == 0;
      assert Mentions(Join(And, e1, e2), cs) && Eval(Join(And, e1, e2), v) == 0;
    }
  }

  /** Looking at the two operands of a junction from one side. */
  lemma WalkOne(op: Junction, e1: Expr, e2: Expr, b: bool)
    requires !e1.Join? && !e2.Join?
    ensures var e, x, y := Join(op, e1, e2), if b then e2 else e1, if b then e1 else e2;
            && InLevel(op, e, [b]) && InLevel(op, e, []) && At(op, e, []) == e
            && Walk(op, e, [b], []) == match TryJoin(op, x, y) {
                 case None => (e, 0)
                 case Some(t) => (if b then Join(op, t, Sym(Unit(op))) else Join(op, Sym(Unit(op)), t), 1)
               }
  {
    var e, p, q, unit := Join(op, e1, e2), [b], [!b], Sym(Unit(op));
    assert p[0] != q[0] && [] + [false] == [false] && [] + [true] == [true];
    OperandAt(op, e1, e2, b, unit);
    OperandAt(op, e1, e2, !b, unit);
    PutSame(op, e, p);
    assert Walk(op, e, p, p) == (e, 0);
    match TryJoin(op, At(op, e, p), At(op, e, q))
    case None => assert Walk(op, e, p, q) == (e, 0);
    case Some(t) =>
      TryJoinShape(op, At(op, e, p), At(op, e, q));
      var f, g := Put(op, e, p, unit), if b then Join(op, t, unit) else Join(op, unit, t);
      OperandAt(op, f.left, f.right, !b, t);
      assert Put(op, f, q, t) == g;
      assert Walk(op, e, p, q) == (g, 1);
      OperandAt(op, g.left, g.right, b, unit);
      assert Walk(op, g, p, p) == (g, 0);
  }

  /** Two operands are merged into one if they can be joined. */
  lemma WalkTwo(op: Junction, e1: Expr, e2: Expr)
    requires !e1.Join? && !e2.Join?
    requires match TryJoin(op, e1, e2) case None => TryJoin(op, e2, e1).None? case Some(t) => TryJoin(op, t, Sym(Unit(op))).None?
    ensures Walk(op, Join(op, e1, e2), [], []) == match TryJoin(op, e1, e2) {
              case None => (Join(op, e1, e2), 0)
              case Some(t) => (Join(op, Sym(Unit(op)), t), 1)
            }
  {
    assert [] + [false] == [false] && [] + [true] == [true];
    WalkOne(op, e1, e2, false);
    match TryJoin(op, e1, e2)
    case None => WalkOne(op, e1, e2, true);
    case Some(t) =>
      TryJoinShape(op, e1, e2);
      WalkOne(op, Sym(Unit(op)), t, true);
  }

  class Rewriter {
    /** The global trans_count. */
    var transCount: nat

    /** The loop of expr_eliminate_dups, saving and restoring the counter. */
    method Run(e0: Expr) returns (e: Expr)
      modifies this
      ensures e == EliminateDups(e0)
      ensures transCount == old(transCount)
    {
      e := e0;
      var oldCount := transCount;
      while true
        invariant EliminateDups(e) == EliminateDups(e0)
        decreases Leaves(e)
      {
        transCount := 0;
        if e.Join? {
          var (e', n) := Walk(e.op, e, [], []);
          e, transCount := e', transCount + n;
        }
        if transCount == 0 {
          break;
        }
        ReducibleShrinks(e);
        e := EliminateYn(e);
      }
      transCount := oldCount;
    }
  }
}
