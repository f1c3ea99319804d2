/** expr_eq recognises every expression as equal to itself, junctions included. */
module ExprEqLaws {
  import opened KconfigExpr
  import opened ExprEq

  predicate Constant(e: Expr) {
    e == Sym(Yes) || e == Sym(No)
  }

  /** What is left of an operand that has found its like: y and n stay, anything else becomes the unit. */
  function Spent(op: Junction, x: Expr): Expr {
    if Constant(x) then x else Sym(Unit(op))
  }

  function SpentAll(op: Junction, e: Expr): Expr {
    if Is(op, e) then Join(op, SpentAll(op, e.left), SpentAll(op, e.right)) else Spent(op, e)
  }

  ghost predicate Constants(s: seq<Expr>) {
    forall i :: 0 <= i < |s| ==> Constant(s[i])
  }

  lemma {:induction false} SpentConstant(op: Junction, e: Expr)
    ensures Constants(Operands(op, SpentAll(op, e))) && |Operands(op, SpentAll(op, e))| == |Operands(op, e)|
  {
    if Is(op, e) {
      SpentConstant(op, e.left);
      SpentConstant(op, e.right);
    }
  }

  /** y and n on the left change nothing. */
  lemma {:induction false} ConstantLeft(op: Junction, x: Expr, e: Expr)
    requires Constant(x)
    ensures ElimLeaves(op, x, e) == (x, e)
    decreases e
  {
    if Is(op, e) {
      ConstantLeft(op, x, e.left);
      ConstantLeft(op, x, e.right);
    }
  }

  /** An operand finds no like among y and n. */
  lemma {:induction false} ConstantsRight(op: Junction, x: Expr, e: Expr)
    requires !Is(op, x) && Constants(Operands(op, e))
    ensures ElimLeaves(op, x, e) == (x, e)
    decreases e
  {
    if Is(op, e) {
      var l, r := Operands(op, e.left), Operands(op, e.right);
      assert forall i :: 0 <= i < |l| ==> (l + r)[i] == l[i];
      assert forall i :: 0 <= i < |r| ==> (l + r)[|l| + i] == r[i];
      ConstantsRight(op, x, e.left);
      ConstantsRight(op, x, e.right);
    } else {
      assert Constant(Operands(op, e)[0]);
    }
  }

  /** The operands of e are done, then what x is, then rest. */
  ghost predicate Reached(op: Junction, e: Expr, done: seq<Expr>, x: seq<Expr>, rest: seq<Expr>) {
    Operands(op, e) == done + x + rest && Constants(done)
  }

  /** An operand is spent on itself, if everything before it is spent. */
  lemma {:induction false} SpendOne(op: Junction, x: Expr, e: Expr, done: seq<Expr>, rest: seq<Expr>)
    requires !Is(op, x) && Eq(x, x) && Reached(op, e, done, [x], rest)
    ensures var (f1, f2) := ElimLeaves(op, x, e); f1 == Spent(op, x) && Reached(op, f2, done, [Spent(op, x)], rest)
    decreases e
  {
    if Is(op, e) {
      var l, r := Operands(op, e.left), Operands(op, e.right);
      var all := done + [x] + rest;
      assert l + r == all;
      if |done| < |l| {
        SplitLeft(l, r, done, x, rest);
        SpendOne(op, x, e.left, done, l[|done| + 1..]);
        ConstantLeft(op, Spent(op, x), e.right);
        Rejoin(done, Spent(op, x), l[|done| + 1..], r, rest);
      } else {
        SplitRight(l, r, done, x, rest);
        ConstantsRight(op, x, e.left);
        SpendOne(op, x, e.right, done[|l|..], rest);
        Regroup(l, done[|l|..], [Spent(op, x)], rest, done);
      }
    } else {
      assert done == [] && rest == [] && x == e by {
        assert |done + [x] + rest| == 1;
        assert (done + [x] + rest)[0] == x;
      }
    }
  }

  lemma SplitLeft(l: seq<Expr>, r: seq<Expr>, done: seq<Expr>, x: Expr, rest: seq<Expr>)
    requires l + r == done + [x] + rest && |done| < |l|
    ensures l == done + [x] + l[|done| + 1..] && l[|done| + 1..] + r == rest
  {
    var all := done + [x] + rest;
    assert forall i :: 0 <= i < |l| ==> l[i] == all[i];
    assert forall i :: 0 <= i < |rest| ==> rest[i] == all[|done| + 1 + i] == (l + r)[|done| + 1 + i];
  }

  lemma SplitRight(l: seq<Expr>, r: seq<Expr>, done: seq<Expr>, x: Expr, rest: seq<Expr>)
    requires l + r == done + [x] + rest && |l| <= |done|
    ensures l == done[..|l|] && r == done[|l|..] + [x] + rest
  {
    var all := done + [x] + rest;
    assert forall i :: 0 <= i < |l| ==> l[i] == all[i];
    assert forall i :: 0 <= i < |r| ==> r[i] == all[|l| + i];
  }

  lemma Rejoin(done: seq<Expr>, x: Expr, mid: seq<Expr>, r: seq<Expr>, rest: seq<Expr>)
    requires mid + r == rest
    ensures done + [x] + mid + r == done + [x] + rest
  {
  }

  lemma Regroup(l: seq<Expr>, d: seq<Expr>, x: seq<Expr>, rest: seq<Expr>, done: seq<Expr>)
    requires |l| <= |done| && l == done[..|l|] && d == done[|l|..]
    ensures l + (d + x + rest) == done + x + rest
  {
  }

  lemma Shift(done: seq<Expr>, l: seq<Expr>, r: seq<Expr>, rest: seq<Expr>)
    ensures done + (l + r) + rest == done + l + (r + rest) == (done + l) + r + rest
  {
  }

  lemma ConstantsJoin(a: seq<Expr>, b: seq<Expr>)
    requires Constants(a) && Constants(b)
    ensures Constants(a + b)
  {
  }

  /** ... and so is a whole level. */
  lemma {:induction false} SpendAll(op: Junction, e1: Expr, e2: Expr, done: seq<Expr>, rest: seq<Expr>)
    requires Reached(op, e2, done, Operands(op, e1), rest)
    requires forall x :: x in Operands(op, e1) ==> Eq(x, x)
    ensures var (f1, f2) := ElimLeaves(op, e1, e2);
            f1 == SpentAll(op, e1) && Reached(op, f2, done, Operands(op, SpentAll(op, e1)), rest)
    decreases e1
  {
    if Is(op, e1) {
      var l, r := Operands(op, e1.left), Operands(op, e1.right);
      var l', r' := Operands(op, SpentAll(op, e1.left)), Operands(op, SpentAll(op, e1.right));
      Shift(done, l, r, rest);
      SpendAll(op, e1.left, e2, done, r + rest);
      var e2' := ElimLeaves(op, e1.left, e2).1;
      SpentConstant(op, e1.left);
      Shift(done, l', r, rest);
      ConstantsJoin(done, l');
      SpendAll(op, e1.right, e2', done + l', rest);
      Shift(done, l', r', rest);
    } else {
      assert e1 in Operands(op, e1);
      SpendOne(op, e1, e2, done, rest);
    }
  }

  /** A junction of y and n is decided by whether the one that decides it occurs. */
  lemma {:induction false} ConstantsDecide(op: Junction, e: Expr)
    requires Constants(Operands(op, e))
    ensures EliminateYn(e) == if Sym(Unit(Flip(op))) in Operands(op, e) then Sym(Unit(Flip(op))) else Sym(Unit(op))
  {
    if Is(op, e) {
      var l, r := Operands(op, e.left), Operands(op, e.right);
      assert forall i :: 0 <= i < |l| ==> (l + r)[i] == l[i];
      assert forall i :: 0 <= i < |r| ==> (l + r)[|l| + i] == r[i];
      ConstantsDecide(op, e.left);
      ConstantsDecide(op, e.right);
    } else {
      assert Constant(Operands(op, e)[0]);
    }
  }

  lemma {:induction false} OperandsSmaller(op: Junction, e: Expr, x: Expr)
    requires x in Operands(op, e)
    ensures Size(x) <= Size(e) && (Is(op, e) ==> Size(x) < Size(e))
  {
    if Is(op, e) {
      if x in Operands(op, e.left) {
        OperandsSmaller(op, e.left, x);
      } else {
        OperandsSmaller(op, e.right, x);
      }
    }
  }

  lemma {:induction false} EqReflexive(e: Expr)
    ensures Eq(e, e)
    decreases Size(e)
  {
    match e
    case Not(a) => EqReflexive(a);
    case Join(op, _, _) =>
      forall x | x in Operands(op, e) ensures Eq(x, x) {
        OperandsSmaller(op, e, x);
        EqReflexive(x);
      }
      assert Operands(op, e) == [] + Operands(op, e) + [];
      SpendAll(op, e, e, [], []);
      var (f1, f2) := ElimLeaves(op, e, e);
      assert Operands(op, f2) == Operands(op, f1);
      SpentConstant(op, e);
      ConstantsDecide(op, f1);
      ConstantsDecide(op, f2);
    case _ =>
  }
}
