/** What the values of a choice and its members mean, read off their conditions. */
module ChoiceLaws {
  import opened KconfigExpr
  import opened ExprTransform
  import opened Choice

  // ---- visibility ----------------------------------------------------------

  /** What one prompt counts for; under a choice that is y, an m prompt of a tristate member counts for nothing. */
  function Counts(x: Tri, strict: bool): Tri {
    if strict && x == 1 then 0 else x
  }

  /** The best prompt counts. */
  lemma {:induction false} BestMeans(prompts: seq<Dep>, v: Assignment, strict: bool) returns (k: nat)
    ensures forall j :: 0 <= j < |prompts| ==> Counts(EvalDep(prompts[j], v), strict) <= Best(prompts, v, strict)
    ensures Best(prompts, v, strict) != 0 ==> k < |prompts| && Counts(EvalDep(prompts[k], v), strict) == Best(prompts, v, strict)
  {
    k := 0;
    if prompts != [] {
      var j := BestMeans(prompts[1..], v, strict);
      assert forall i :: 0 < i < |prompts| ==> prompts[1..][i - 1] == prompts[i];
      if Counts(EvalDep(prompts[0], v), strict) < Best(prompts[1..], v, strict) {
        k := j + 1;
      }
    }
  }

  /** Under a choice that is y a member is visible when it has a prompt that is y, or for a bool one that is not n; it is
      then fully visible. */
  lemma VisibleInYes(w: World, m: Member)
    requires m.typ == Boolean || m.typ == Tristate
    ensures (exists j :: 0 <= j < |m.prompts| && EvalDep(m.prompts[j], w.inner(2)) != 0
                         && (m.typ == Tristate ==> EvalDep(m.prompts[j], w.inner(2)) == 2))
            <==> MemberVisible(w, m, 2) == 2
    ensures MemberVisible(w, m, 2) != 2 ==> MemberVisible(w, m, 2) == 0
  {
    var k := BestMeans(m.prompts, w.inner(2), m.typ == Tristate);
  }

  /** Under any other choice value its best prompt decides. */
  lemma VisibleElse(w: World, m: Member, c: Tri)
    requires c != 2
    ensures (forall j :: 0 <= j < |m.prompts| ==> EvalDep(m.prompts[j], w.inner(c)) <= MemberVisible(w, m, c))
    ensures MemberVisible(w, m, c) != 0 ==>
              exists j :: 0 <= j < |m.prompts|
                          && (EvalDep(m.prompts[j], w.inner(c)) == MemberVisible(w, m, c)
                              || (EvalDep(m.prompts[j], w.inner(c)) == 1 && (m.typ != Tristate || w.modules == 0)))
    ensures MemberVisible(w, m, c) == 1 ==> m.typ == Tristate && w.modules != 0
  {
    var k := BestMeans(m.prompts, w.inner(c), false);
  }

  // ---- the choice itself ---------------------------------------------------

  /** m is not available to the choice. */
  predicate NoM(g: Group, w: World) {
    g.typ != Tristate || w.modules == 0
  }

  /** A reverse dependency makes the choice y for every user value, unless the choice's own dependency fails: y on any
      choice, m on one that cannot be m. */
  lemma SelectedIsYes(g: Group, w: World, user: Option<Tri>)
    requires g.revDep.Dep? && EvalDep(g.dirDep, w.outer) != 0
    requires Eval(g.revDep.e, w.outer) == 2 || (Eval(g.revDep.e, w.outer) == 1 && NoM(g, w))
    ensures Own(g, w, user) == 2
  {
  }

  /** The choice is never below its reverse dependency, and it is n where its own dependency fails under one. */
  lemma SelectedAtLeast(g: Group, w: World, user: Option<Tri>)
    requires g.revDep.Dep?
    ensures EvalDep(g.dirDep, w.outer) != 0 ==> Own(g, w, user) >= Eval(g.revDep.e, w.outer)
    ensures EvalDep(g.dirDep, w.outer) == 0 && Eval(g.revDep.e, w.outer) != 0 ==> Own(g, w, user) == 0
  {
  }

  /** It exceeds its best prompt only through the reverse dependency, and is m only where m is available. */
  lemma OwnBounded(g: Group, w: World, user: Option<Tri>)
    ensures Own(g, w, user) <= Max(if NoM(g, w) then Promote(Best(g.prompts, w.outer, false)) else Best(g.prompts, w.outer, false),
                                   if g.revDep.Null? then 0
                                   else if NoM(g, w) then Promote(Eval(g.revDep.e, w.outer)) else Eval(g.revDep.e, w.outer))
    ensures Own(g, w, user) == 1 ==> !NoM(g, w)
  {
  }

  /** A user value that a visible prompt allows is reached, and when nothing selects the choice it is exactly that. */
  lemma UserReached(g: Group, w: World, u: Tri, j: nat)
    requires j < |g.prompts| && EvalDep(g.prompts[j], w.outer) != 0
    requires u <= EvalDep(g.prompts[j], w.outer) || NoM(g, w)
    requires EvalDep(g.dirDep, w.outer) != 0 || g.revDep.Null?
    ensures Own(g, w, Some(u)) >= u && (g.revDep.Null? && !(u == 1 && NoM(g, w)) ==> Own(g, w, Some(u)) == u)
  {
    var k := BestMeans(g.prompts, w.outer, false);
  }

  /** Without a user value only the reverse dependency counts. */
  lemma NoUserValue(g: Group, w: World)
    ensures g.revDep.Null? || Eval(g.revDep.e, w.outer) == 0 ==> Own(g, w, None) == 0
    ensures g.revDep.Dep? && EvalDep(g.dirDep, w.outer) != 0 && !NoM(g, w) ==> Own(g, w, None) == Eval(g.revDep.e, w.outer)
  {
  }

  /** What menu_finalize gives a choice that is not optional: "prompt && m" joined to its reverse dependency. */
  predicate MandatoryBy(g: Group, j: nat, other: Dep) {
    j < |g.prompts| && g.revDep == AllocJoin(Or, other, AllocJoin(And, g.prompts[j], Dep(Sym(Mod))))
  }

  /** A visible mandatory choice cannot be n; if it cannot be m either and a member is visible, it is y whatever the user has
      set, and records something. */
  lemma MandatoryChosen(g: Group, w: World, user: Option<Tri>, pick: Option<nat>, j: nat, other: Dep, k: nat)
    requires w.outer.tri(Mod) == 1 && EvalDep(g.dirDep, w.outer) != 0
    requires MandatoryBy(g, j, other) && EvalDep(g.prompts[j], w.outer) != 0
    ensures Own(g, w, user) != 0
    ensures NoM(g, w) && k < |g.members| && MemberVisible(w, g.members[k], 2) != 0 ==>
              Outcome(g, w, user, pick).curr == 2 && Outcome(g, w, user, pick).picked.Some?
  {
    assert Eval(Sym(Mod), w.outer) == 1;
    assert EvalDep(AllocJoin(And, g.prompts[j], Dep(Sym(Mod))), w.outer) == 1;
    assert g.revDep.Dep? && Eval(g.revDep.e, w.outer) != 0;
    if NoM(g, w) && k < |g.members| && MemberVisible(w, g.members[k], 2) != 0 {
      FallsBack(g, w, user, pick);
      var n := |Candidates(g, w, pick)| - |g.members|;
      assert Candidates(g, w, pick)[n + k] == AllMembers(|g.members|)[k] == Inside(k);
      assert Inside(k) in Candidates(g, w, pick) && Shown(g, w, Inside(k));
    }
  }

  // ---- what is recorded ----------------------------------------------------

  /** Default d applies and names something visible. */
  predicate Usable(g: Group, w: World, d: Default) {
    EvalDep(d.cond, w.inner(2)) != 0 && Shown(g, w, d.target)
  }

  lemma {:induction false} FirstUsable(g: Group, w: World, ds: seq<Default>) returns (k: nat)
    ensures var r := FirstShown(g, w, Active(ds, w));
            if forall j :: 0 <= j < |ds| ==> !Usable(g, w, ds[j]) then r.None?
            else k < |ds| && Usable(g, w, ds[k]) && (forall j :: 0 <= j < k ==> !Usable(g, w, ds[j])) && r == Some(ds[k].target)
  {
    k := 0;
    if ds != [] && !Usable(g, w, ds[0]) {
      var j := FirstUsable(g, w, ds[1..]);
      k := j + 1;
      assert forall i :: 0 < i < |ds| ==> ds[1..][i - 1] == ds[i];
      var head := if EvalDep(ds[0].cond, w.inner(2)) != 0 then [ds[0].target] else [];
      FirstShownConcat(g, w, head, Active(ds[1..], w));
      assert FirstShown(g, w, head).None?;
    } else if ds != [] {
      assert Active(ds, w)[0] == ds[0].target;
    }
  }

  /** The first visible candidate, by index. */
  lemma {:induction false} FirstShownAt(g: Group, w: World, cands: seq<Target>) returns (k: nat)
    ensures var r := FirstShown(g, w, cands);
            r.Some? ==> k < |cands| && r.value == cands[k] && forall j :: 0 <= j < k ==> !Shown(g, w, cands[j])
  {
    k := 0;
    if cands != [] && !Shown(g, w, cands[0]) {
      var j := FirstShownAt(g, w, cands[1..]);
      k := j + 1;
      assert forall i :: 0 < i < |cands| ==> cands[1..][i - 1] == cands[i];
    }
  }

  lemma FirstMember(g: Group, w: World) returns (k: nat)
    ensures var r := FirstShown(g, w, AllMembers(|g.members|));
            if forall j :: 0 <= j < |g.members| ==> !Shown(g, w, Inside(j)) then r.None?
            else k < |g.members| && Shown(g, w, Inside(k)) && (forall j :: 0 <= j < k ==> !Shown(g, w, Inside(j))) && r == Some(Inside(k))
  {
    var all := AllMembers(|g.members|);
    k := FirstShownAt(g, w, all);
    assert forall j :: 0 <= j < |g.members| ==> all[j] == Inside(j) && all[j] in all;
  }

  /** A choice that is y records the user's pick if that is visible, else the first default that applies and is visible,
      else the first visible member. */
  lemma RecordedFirst(g: Group, w: World, user: Option<Tri>, pick: Option<nat>) returns (k: nat)
    requires Own(g, w, user) == 2
    ensures var r := Outcome(g, w, user, pick).picked;
            if pick.Some? && Shown(g, w, Inside(pick.value)) then r == Some(Inside(pick.value))
            else if exists j :: 0 <= j < |g.defaults| && Usable(g, w, g.defaults[j]) then
              k < |g.defaults| && Usable(g, w, g.defaults[k]) && (forall j :: 0 <= j < k ==> !Usable(g, w, g.defaults[j]))
              && r == Some(g.defaults[k].target)
            else if exists j :: 0 <= j < |g.members| && Shown(g, w, Inside(j)) then
              k < |g.members| && Shown(g, w, Inside(k)) && (forall j :: 0 <= j < k ==> !Shown(g, w, Inside(j))) && r == Some(Inside(k))
            else r.None?
  {
    var head, active, all := if pick.Some? then [Inside(pick.value)] else [], Active(g.defaults, w), AllMembers(|g.members|);
    FirstShownConcat(g, w, head + active, all);
    FirstShownConcat(g, w, head, active);
    assert FirstShown(g, w, head) == if pick.Some? && Shown(g, w, Inside(pick.value)) then Some(Inside(pick.value)) else None;
    k := FirstUsable(g, w, g.defaults);
    if !(exists j :: 0 <= j < |g.defaults| && Usable(g, w, g.defaults[j])) {
      k := FirstMember(g, w);
    }
  }

  // ---- members of a choice that is not y -----------------------------------

  /** A member of a choice that is not y: visible as m, it takes the user's value up to m; otherwise it is n. */
  lemma MemberElse(g: Group, w: World, user: Option<Tri>, pick: Option<nat>, k: nat, own: Option<Tri>)
    requires k < |g.members| && Outcome(g, w, user, pick).curr != 2
    ensures var r, m := Outcome(g, w, user, pick), g.members[k];
            MemberValue(g, w, r, k, own)
            == if MemberVisible(w, m, r.curr) == 1 && own.Some? then Min(own.value, 1) else 0
  {
    if MemberVisible(w, g.members[k], Outcome(g, w, user, pick).curr) == 1 {
      VisibleElse(w, g.members[k], Outcome(g, w, user, pick).curr);
    }
  }
}
