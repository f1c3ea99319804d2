/** Choice groups: one choice symbol, its members, and which member it picks. */
module Choice {
  import opened KconfigExpr

  datatype Member = Member(typ: SymType, prompts: seq<Dep>)

  /** A symbol a default names: a member, or some other symbol of a given visibility. */
  datatype Target = Inside(k: nat) | Outside(visible: Tri)

  datatype Default = Default(cond: Dep, target: Target)

  datatype Group = Group(
    typ: SymType, prompts: seq<Dep>, dirDep: Dep, revDep: Dep, members: seq<Member>, defaults: seq<Default>)

  /** What the rest of the table evaluates to: for the choice's own conditions, and for the
      conditions of members and defaults, which may mention the value of the choice. */
  datatype World = World(modules: Tri, outer: Assignment, inner: Tri -> Assignment)

  predicate TwoValued(w: World, typ: SymType) {
    typ != Tristate || w.modules == 0
  }

  function Rounded(w: World, typ: SymType, x: Tri): Tri {
    if x == 1 && TwoValued(w, typ) then 2 else x
  }

  /** The best prompt condition; strict drops the ones that are only m. */
  function Best(prompts: seq<Dep>, v: Assignment, strict: bool): Tri {
    if prompts == [] then 0
    else
      var x := EvalDep(prompts[0], v);
      Max(if strict && x == 1 then 0 else x, Best(prompts[1..], v, strict))
  }

  /** The visibility of a member when the choice has value c. */
  function MemberVisible(w: World, m: Member, c: Tri): Tri {
    Rounded(w, m.typ, Best(m.prompts, w.inner(c), m.typ == Tristate && c == 2))
  }

  /** The value of the choice before a member is picked. */
  function Own(g: Group, w: World, user: Option<Tri>): Tri {
    var visible := Rounded(w, g.typ, Best(g.prompts, w.outer, false));
    var dir := Rounded(w, g.typ, EvalDep(g.dirDep, w.outer));
    var rev := Rounded(w, g.typ, if g.revDep.Null? then 0 else Eval(g.revDep.e, w.outer));
    var wanted := if visible != 0 && user.Some? then Min(user.value, visible) else 0;
    Rounded(w, g.typ, if dir == 0 && rev != 0 then 0 else Max(wanted, rev))
  }

  predicate Shown(g: Group, w: World, t: Target) {
    match t
    case Inside(k) => k < |g.members| && MemberVisible(w, g.members[k], 2) != 0
    case Outside(visible) => visible != 0
  }

  /** Everything a choice that is y considers, best first: the user's pick, the defaults that apply, all members. */
  function Candidates(g: Group, w: World, pick: Option<nat>): seq<Target> {
    (if pick.Some? then [Inside(pick.value)] else []) + Active(g.defaults, w) + AllMembers(|g.members|)
  }

  function Active(ds: seq<Default>, w: World): seq<Target> {
    if ds == [] then []
    else (if EvalDep(ds[0].cond, w.inner(2)) != 0 then [ds[0].target] else []) + Active(ds[1..], w)
  }

  function AllMembers(n: nat): (s: seq<Target>)
    ensures |s| == n && forall k :: 0 <= k < n ==> s[k] == Inside(k)
  {
    if n == 0 then [] else AllMembers(n - 1) + [Inside(n - 1)]
  }

  function FirstShown(g: Group, w: World, cands: seq<Target>): (r: Option<Target>)
    ensures r.Some? ==> Shown(g, w, r.value) && r.value in cands
    ensures r.None? ==> forall t :: t in cands ==> !Shown(g, w, t)
  {
    if cands == [] then None else if Shown(g, w, cands[0]) then Some(cands[0]) else FirstShown(g, w, cands[1..])
  }

  datatype Result = Result(curr: Tri, picked: Option<Target>)

  /** The value of the choice and the member it records. */
  function Outcome(g: Group, w: World, user: Option<Tri>, pick: Option<nat>): Result {
    var own := Own(g, w, user);
    if own != 2 then Result(own, None)
    else
      var p := FirstShown(g, w, Candidates(g, w, pick));
      Result(if p.None? then 0 else 2, p)
  }

  /** The value of a member, given its visibility and whether it is the recorded one; members carry no defaults. */
  function ValueAt(w: World, typ: SymType, visible: Tri, recorded: bool, user: Option<Tri>): Tri {
    if visible == 2 then (if recorded then 2 else 0)
    else Rounded(w, typ, if visible != 0 && user.Some? then Min(user.value, visible) else 0)
  }

  /** The value of member k once the choice is settled. */
  function MemberValue(g: Group, w: World, r: Result, k: nat, user: Option<Tri>): Tri
    requires k < |g.members|
  {
    var m := g.members[k];
    ValueAt(w, m.typ, MemberVisible(w, m, r.curr), r.picked == Some(Inside(k)), user)
  }

  /** What dependency propagation gives a member: its prompts never exceed the choice, and those of a
      member that is not a tristate need the choice to be y. */
  ghost predicate Contained(g: Group, w: World) {
    forall k, j, c: Tri :: 0 <= k < |g.members| && 0 <= j < |g.members[k].prompts| && (c == 1 ==> g.typ == Tristate) ==>
      var x := EvalDep(g.members[k].prompts[j], w.inner(c));
      x <= c && (g.members[k].typ != Tristate && c != 2 ==> x == 0)
  }

  lemma {:induction false} BestBound(prompts: seq<Dep>, v: Assignment, strict: bool, bound: Tri)
    requires forall j :: 0 <= j < |prompts| ==> EvalDep(prompts[j], v) <= bound
    ensures Best(prompts, v, strict) <= bound && (strict ==> Best(prompts, v, strict) != 1)
  {
    if prompts != [] {
      BestBound(prompts[1..], v, strict, bound);
    }
  }

  /** Under a choice that is y, a member is fully visible or not at all. */
  lemma VisibleUnderYes(w: World, m: Member)
    requires m.typ == Boolean || m.typ == Tristate
    ensures MemberVisible(w, m, 2) != 1
  {
    BestBound(m.prompts, w.inner(2), m.typ == Tristate, 2);
  }

  /** A choice that is y records something visible, and a member is y exactly when it is the recorded one;
      every other member is n. */
  lemma RecordedIsYes(g: Group, w: World, user: Option<Tri>, pick: Option<nat>, k: nat, own: Option<Tri>)
    requires k < |g.members| && (g.members[k].typ == Boolean || g.members[k].typ == Tristate)
    requires Outcome(g, w, user, pick).curr == 2
    ensures var r := Outcome(g, w, user, pick);
            && r.picked.Some? && Shown(g, w, r.picked.value)
            && MemberValue(g, w, r, k, own) == if r.picked == Some(Inside(k)) then 2 else 0
  {
    VisibleUnderYes(w, g.members[k]);
  }

  /** Every member is a bool or a tristate, and there is a user value slot for each. */
  ghost predicate Typed(g: Group, users: seq<Option<Tri>>) {
    |users| == |g.members| && TypedMembers(g)
  }

  ghost predicate TypedMembers(g: Group) {
    forall k :: 0 <= k < |g.members| ==> g.members[k].typ == Boolean || g.members[k].typ == Tristate
  }

  ghost predicate DefaultsInside(g: Group) {
    forall d :: d in g.defaults ==> d.target.Inside?
  }

  lemma {:induction false} ActiveInside(ds: seq<Default>, w: World, t: Target)
    requires t in Active(ds, w)
    ensures exists d :: d in ds && d.target == t
  {
    if t in Active(ds[1..], w) {
      ActiveInside(ds[1..], w, t);
    } else {
      assert ds[0].target == t;
    }
  }

  /** The user's pick is not visible, and the first visible default that applies names a symbol outside the choice. */
  predicate DefaultsOutside(g: Group, w: World, pick: Option<nat>) {
    && !(pick.Some? && Shown(g, w, Inside(pick.value)))
    && var d := FirstShown(g, w, Active(g.defaults, w)); d.Some? && d.value.Outside?
  }

  lemma InsideNeverOutside(g: Group, w: World, pick: Option<nat>)
    requires DefaultsInside(g)
    ensures !DefaultsOutside(g, w, pick)
  {
    var d := FirstShown(g, w, Active(g.defaults, w));
    if d.Some? {
      ActiveInside(g.defaults, w, d.value);
    }
  }

  lemma {:induction false} FirstShownConcat(g: Group, w: World, a: seq<Target>, b: seq<Target>)
    ensures FirstShown(g, w, a + b) == if FirstShown(g, w, a).Some? then FirstShown(g, w, a) else FirstShown(g, w, b)
  {
    if a == [] {
      assert a + b == b;
    } else {
      assert (a + b)[1..] == a[1..] + b;
      FirstShownConcat(g, w, a[1..], b);
    }
  }

  /** A choice that is y records a symbol outside it exactly then. */
  lemma RecordsOutside(g: Group, w: World, user: Option<Tri>, pick: Option<nat>)
    requires Outcome(g, w, user, pick).curr == 2
    ensures var r := Outcome(g, w, user, pick); r.picked.Some? && (r.picked.value.Outside? <==> DefaultsOutside(g, w, pick))
  {
    CandidatesStep(g, w, pick);
    FirstShownConcat(g, w, Active(g.defaults, w), AllMembers(|g.members|));
  }

  /** A choice that is y has a member that is y if and only if its defaults do not lead outside; then exactly one
      member is y: the recorded one, which is visible. */
  lemma ExactlyOneYes(g: Group, w: World, user: Option<Tri>, pick: Option<nat>, users: seq<Option<Tri>>)
    requires Typed(g, users) && Outcome(g, w, user, pick).curr == 2
    ensures var r := Outcome(g, w, user, pick);
            && (forall j :: 0 <= j < |g.members| ==> MemberValue(g, w, r, j, users[j]) == if r.picked == Some(Inside(j)) then 2 else 0)
            && ((exists k :: 0 <= k < |g.members| && MemberValue(g, w, r, k, users[k]) == 2) <==> !DefaultsOutside(g, w, pick))
            && (!DefaultsOutside(g, w, pick) ==>
                  r.picked.value.Inside? && r.picked.value.k < |g.members| && MemberVisible(w, g.members[r.picked.value.k], 2) == 2)
  {
    var r := Outcome(g, w, user, pick);
    RecordsOutside(g, w, user, pick);
    forall j | 0 <= j < |g.members| ensures MemberValue(g, w, r, j, users[j]) == if r.picked == Some(Inside(j)) then 2 else 0 {
      RecordedIsYes(g, w, user, pick, j, users[j]);
    }
    if r.picked.value.Inside? {
      var k := r.picked.value.k;
      VisibleUnderYes(w, g.members[k]);
      assert MemberValue(g, w, r, k, users[k]) == 2;
    }
  }

  /** In particular when every default names a member. */
  lemma InsideExactlyOneYes(g: Group, w: World, user: Option<Tri>, pick: Option<nat>, users: seq<Option<Tri>>) returns (k: nat)
    requires Typed(g, users) && DefaultsInside(g) && Outcome(g, w, user, pick).curr == 2
    ensures var r := Outcome(g, w, user, pick);
            k < |g.members| && forall j :: 0 <= j < |g.members| ==> MemberValue(g, w, r, j, users[j]) == if j == k then 2 else 0
  {
    InsideNeverOutside(g, w, pick);
    ExactlyOneYes(g, w, user, pick, users);
    k := Outcome(g, w, user, pick).picked.value.k;
  }

  /** A choice that is not y has no member that is y, and one that is n has only members that are n. */
  lemma NoneYes(g: Group, w: World, user: Option<Tri>, pick: Option<nat>, users: seq<Option<Tri>>, k: nat)
    requires Typed(g, users) && Contained(g, w) && k < |g.members|
    requires Outcome(g, w, user, pick).curr != 2
    ensures var r := Outcome(g, w, user, pick); MemberValue(g, w, r, k, users[k]) <= r.curr
  {
    var m, c := g.members[k], Outcome(g, w, user, pick).curr;
    forall j | 0 <= j < |m.prompts| ensures EvalDep(m.prompts[j], w.inner(c)) <= if m.typ == Tristate then c else 0 {
      assert 0 <= k < |g.members| && 0 <= j < |g.members[k].prompts|;
    }
    BestBound(m.prompts, w.inner(c), false, if m.typ == Tristate then c else 0);
  }

  /** A visible member the user picked is the one recorded. */
  lemma PickTaken(g: Group, w: World, user: Option<Tri>, k: nat)
    requires k < |g.members| && MemberVisible(w, g.members[k], 2) != 0 && Own(g, w, user) == 2
    ensures Outcome(g, w, user, Some(k)) == Result(2, Some(Inside(k)))
  {
    assert Candidates(g, w, Some(k))[0] == Inside(k);
  }

  /** A choice falls back to n exactly when nothing it could record is visible. */
  lemma FallsBack(g: Group, w: World, user: Option<Tri>, pick: Option<nat>)
    requires Own(g, w, user) == 2
    ensures Outcome(g, w, user, pick).curr == 0 <==> forall t :: t in Candidates(g, w, pick) ==> !Shown(g, w, t)
  {
  }

  /** A default that names a symbol outside the choice can leave every member n. */
  lemma OutsideDefault() returns (g: Group, w: World)
    ensures Typed(g, [None]) && Contained(g, w) && DefaultsOutside(g, w, None)
    ensures Outcome(g, w, Some(2), None) == Result(2, Some(Outside(2)))
    ensures MemberValue(g, w, Outcome(g, w, Some(2), None), 0, None) == 0
  {
    g := Group(Boolean, [Null], Null, Null, [Member(Boolean, [Dep(Sym(Config(0, Boolean)))])], [Default(Null, Outside(2))]);
    var v := (c: Tri) => Assignment((s: Symbol) => if c == 2 then 2 else 0, (l: Symbol, r: Symbol) => 0);
    w := World(2, v(2), v);
    assert Best([Null], w.outer, false) == 2 by {
      assert Best([], w.outer, false) == 0;
    }
    assert Active(g.defaults, w) == [Outside(2)] by {
      assert Active([], w) == [];
    }
    assert Candidates(g, w, None)[0] == Outside(2);
  }

  /** The visibility loop over prompts. */
  method BestPrompt(prompts: seq<Dep>, v: Assignment, strict: bool) returns (tri: Tri)
    ensures tri == Best(prompts, v, strict)
  {
    tri := 0;
    assert prompts[0..] == prompts;
    for i := 0 to |prompts|
      invariant Max(tri, Best(prompts[i..], v, strict)) == Best(prompts, v, strict)
    {
      var x := EvalDep(prompts[i], v);
      if strict && x == 1 {
        x := 0;
      }
      assert prompts[i..][1..] == prompts[i + 1..];
      tri := Max(tri, x);
    }
  }

  /** The choice and its members as the calculation leaves them. */
  class Engine {
    const g: Group
    const w: World
    var isUser: bool          // SYMBOL_DEF_USER of the choice
    var userTri: Tri
    var pick: Option<nat>
    var isUsers: seq<bool>    // SYMBOL_DEF_USER of each member
    var tris: seq<Tri>
    var valid: bool
    var curr: Tri
    var picked: Option<Target>
    var memberValid: seq<bool>
    var memberVisible: seq<Tri>
    var memberCurr: seq<Tri>
    ghost var used: Option<Tri>  // the user value the last calculation started from

    function User(): Option<Tri>
      reads this
    {
      if isUser then Some(userTri) else None
    }

    /** A member's user value. */
    function UserOf(k: nat): Option<Tri>
      requires k < |isUsers| == |tris|
      reads this
    {
      if isUsers[k] then Some(tris[k]) else None
    }

    /** The members' user values are these. */
    ghost predicate UsersAre(users: seq<Option<Tri>>)
      reads this
    {
      |isUsers| == |tris| == |users| && forall k :: 0 <= k < |users| ==> UserOf(k) == users[k]
    }

    ghost predicate Shaped()
      reads this
    {
      && TypedMembers(g) && |isUsers| == |tris| == |g.members| && |memberValid| == |memberVisible| == |memberCurr| == |g.members|
      && (pick.Some? ==> pick.value < |g.members|)
    }

    /** What is marked valid is what the definition says. */
    ghost predicate Valid()
      reads this
    {
      && Shaped()
      && (valid ==> Result(curr, picked) == Outcome(g, w, used, pick))
      && forall k :: 0 <= k < |g.members| && memberValid[k] ==>
           && valid && memberVisible[k] == MemberVisible(w, g.members[k], curr)
           && memberCurr[k] == MemberValue(g, w, Outcome(g, w, used, pick), k, UserOf(k))
    }

    constructor (g: Group, w: World, user: Option<Tri>, pick: Option<nat>, users: seq<Option<Tri>>)
      requires Typed(g, users) && (pick.Some? ==> pick.value < |g.members|)
      ensures Valid() && !valid && this.g == g && this.w == w && User() == user && this.pick == pick && UsersAre(users)
    {
      this.g, this.w, this.pick := g, w, pick;
      isUsers := seq(|users|, k requires 0 <= k < |users| => users[k].Some?);
      tris := seq(|users|, k requires 0 <= k < |users| => if users[k].Some? then users[k].value else 0);
      isUser, userTri := user.Some?, if user.Some? then user.value else 0;
      valid, curr, picked, used := false, 0, None, None;
      memberValid := seq(|g.members|, _ => false);
      memberVisible := seq(|g.members|, _ => 0);
      memberCurr := seq(|g.members|, _ => 0);
    }

    /** sym_calc_visibility of member k. */
    method CalcVisibility(k: nat)
      requires Shaped() && k < |g.members|
      modifies `memberVisible
      ensures memberVisible == old(memberVisible)[k := MemberVisible(w, g.members[k], curr)]
    {
      var m := g.members[k];
      var tri := BestPrompt(m.prompts, w.inner(curr), m.typ == Tristate && curr == 2);
      if tri == 1 && TwoValued(w, m.typ) {
        tri := 2;
      }
      memberVisible := memberVisible[k := tri];
    }

    /** Every member's visibility under a choice that is y is on record. */
    ghost predicate Seen()
      reads this
    {
      Shaped() && forall k :: 0 <= k < |g.members| ==> memberVisible[k] == MemberVisible(w, g.members[k], 2)
    }

    predicate IsShown(t: Target)
      requires Seen()
      reads this
      ensures IsShown(t) == Shown(g, w, t)
    {
      match t
      case Inside(k) => k < |g.members| && memberVisible[k] != 0
      case Outside(visible) => visible != 0
    }

    /** The first visible member. */
    method FirstMember() returns (r: Option<Target>)
      requires Seen()
      ensures r == FirstShown(g, w, AllMembers(|g.members|))
    {
      ghost var all := AllMembers(|g.members|);
      assert all[0..] == all;
      for k := 0 to |g.members|
        invariant FirstShown(g, w, all[k..]) == FirstShown(g, w, all)
      {
        assert all[k..] == [Inside(k)] + all[k + 1..];
        FirstShownStep(g, w, Inside(k), all[k + 1..]);
        if IsShown(Inside(k)) {
          return Some(Inside(k));
        }
      }
      return None;
    }

    /** sym_choice_default. */
    method ChoiceDefault() returns (r: Option<Target>)
      requires Seen()
      ensures r == FirstShown(g, w, Active(g.defaults, w) + AllMembers(|g.members|))
    {
      ghost var all := AllMembers(|g.members|);
      assert g.defaults[0..] == g.defaults;
      for i := 0 to |g.defaults|
        invariant FirstShown(g, w, Active(g.defaults[i..], w) + all) == FirstShown(g, w, Active(g.defaults, w) + all)
      {
        DefaultStep(g, w, i, all);
        if EvalDep(g.defaults[i].cond, w.inner(2)) != 0 && IsShown(g.defaults[i].target) {
          return Some(g.defaults[i].target);
        }
      }
      assert Active(g.defaults[|g.defaults|..], w) + all == all;
      r := FirstMember();
    }

    /** sym_calc_choice: the visibility of every member, the user flag, and the recorded symbol. */
    method CalcChoice() returns (r: Option<Target>)
      requires Shaped() && curr == 2
      modifies `memberVisible, `isUser, `curr
      ensures Seen()
      ensures isUser == (old(isUser) && forall k :: 0 <= k < |g.members| && memberVisible[k] != 0 ==> isUsers[k])
      ensures r == FirstShown(g, w, Candidates(g, w, pick)) && curr == if r.None? then 0 else 2
    {
      for k := 0 to |g.members|
        invariant Shaped() && curr == 2
        invariant forall j :: 0 <= j < k ==> memberVisible[j] == MemberVisible(w, g.members[j], 2)
        invariant isUser == (old(isUser) && forall j :: 0 <= j < k && memberVisible[j] != 0 ==> isUsers[j])
      {
        CalcVisibility(k);
        if memberVisible[k] != 0 {
          isUser := isUser && isUsers[k];
        }
      }
      ghost var rest := Active(g.defaults, w) + AllMembers(|g.members|);
      CandidatesStep(g, w, pick);
      if pick.Some? && IsShown(Inside(pick.value)) {
        return Some(Inside(pick.value));
      }
      r := ChoiceDefault();
      if r.None? {
        curr := 0;
      }
    }

    /** sym_calc_value of the choice. */
    method CalcValue()
      requires Valid()
      modifies `valid, `curr, `picked, `memberVisible, `isUser, `used
      ensures Valid() && valid
      ensures old(valid) ==> curr == old(curr) && picked == old(picked) && isUser == old(isUser) && used == old(used)
      ensures !old(valid) ==> used == old(User())
    {
      if valid {
        return;
      }
      used := User();
      valid := true;
      var newval := OwnValue(g, w, User());
      curr, picked := newval, None;
      if curr == 2 {
        picked := CalcChoice();
      }
    }

    /** sym_calc_value of member k; its prompts mention the choice, which is therefore settled first. */
    method CalcMember(k: nat)
      requires Valid() && k < |g.members|
      modifies `valid, `curr, `picked, `memberVisible, `isUser, `used, `memberValid, `memberCurr
      ensures Valid() && valid && memberValid[k]
      ensures old(valid) ==> curr == old(curr) && picked == old(picked) && used == old(used)
      ensures !old(valid) ==> used == old(User())
    {
      if memberValid[k] {
        return;
      }
      CalcValue();
      FinishMember(k);
    }

    method FinishMember(k: nat)
      requires Valid() && valid && k < |g.members|
      modifies `memberVisible, `memberValid, `memberCurr
      ensures Valid() && memberValid[k]
    {
      CalcVisibility(k);
      var newval := NewMemberValue(w, g.members[k].typ, memberVisible[k], picked == Some(Inside(k)), UserOf(k));
      memberValid, memberCurr := memberValid[k := true], memberCurr[k := newval];
    }

    /** The flags a pick sets: every visible member counts as set by the user. */
    method MarkVisible()
      requires Shaped()
      modifies `isUsers
      ensures |isUsers| == |old(isUsers)|
      ensures forall j :: 0 <= j < |isUsers| ==> isUsers[j] == (old(isUsers)[j] || memberVisible[j] != 0)
    {
      for j := 0 to |g.members|
        invariant |isUsers| == |old(isUsers)| == |g.members|
        invariant forall i :: 0 <= i < |isUsers| ==> isUsers[i] == (old(isUsers)[i] || (i < j && memberVisible[i] != 0))
      {
        if memberVisible[j] != 0 {
          isUsers := isUsers[j := true];
        }
      }
    }

    /** sym_set_tristate_value(member, yes). */
    method SelectMember(k: nat) returns (ok: bool)
      requires Valid() && valid && k < |g.members| && memberValid[k]
      modifies `pick, `isUser, `isUsers, `tris, `valid, `memberValid
      ensures Valid() && ok == (old(memberCurr[k]) == 2 || old(memberVisible[k]) == 2)
      ensures ok ==> pick == Some(k) && isUser && UserOf(k) == Some(2)
      ensures !ok ==> valid && pick == old(pick) && isUser == old(isUser) && isUsers == old(isUsers) && tris == old(tris)
      ensures valid == (!ok || old(memberCurr[k]) == 2)
      // What recalculation gives a choice that is y: the picked member, if it is visible then, as it is under a choice that was y.
      ensures ok && Own(g, w, User()) == 2 ==>
                (MemberValue(g, w, Outcome(g, w, User(), pick), k, UserOf(k)) == 2 <==> MemberVisible(w, g.members[k], 2) != 0)
      ensures ok && old(curr) == 2 ==> MemberVisible(w, g.members[k], 2) != 0
    {
      var same := memberCurr[k] == 2;
      if !same && memberVisible[k] != 2 {
        return false;
      }
      if same {
        SamePick(g, w, used, pick, k, UserOf(k));
      }
      pick, isUser := Some(k), true;
      MarkVisible();
      isUsers, tris := isUsers[k := true], tris[k := 2];
      if !same {
        valid := false;
        memberValid := seq(|g.members|, _ => false);
      }
      if Own(g, w, User()) == 2 {
        PickDecides(g, w, User(), k, UserOf(k));
      }
      return true;
    }
  }

  /** Under a choice that is y the picked member is y exactly when it is visible. */
  lemma PickDecides(g: Group, w: World, user: Option<Tri>, k: nat, own: Option<Tri>)
    requires TypedMembers(g) && k < |g.members| && Own(g, w, user) == 2
    ensures MemberValue(g, w, Outcome(g, w, user, Some(k)), k, own) == 2 <==> MemberVisible(w, g.members[k], 2) != 0
  {
    VisibleUnderYes(w, g.members[k]);
    if MemberVisible(w, g.members[k], 2) != 0 {
      PickTaken(g, w, user, k);
    } else if Outcome(g, w, user, Some(k)).curr == 2 {
      RecordedIsYes(g, w, user, Some(k), k, own);
    }
  }

  /** Selecting the member that is already y changes no value. */
  lemma SamePick(g: Group, w: World, user: Option<Tri>, pick: Option<nat>, k: nat, own: Option<Tri>)
    requires TypedMembers(g) && k < |g.members|
    requires MemberValue(g, w, Outcome(g, w, user, pick), k, own) == 2
    ensures Outcome(g, w, user, Some(k)) == Outcome(g, w, user, pick)
    ensures var r := Outcome(g, w, user, pick);
            forall j, u1, u2 :: 0 <= j < |g.members| ==> MemberValue(g, w, r, j, u1) == MemberValue(g, w, r, j, u2)
  {
    var r := Outcome(g, w, user, pick);
    assert r.picked == Some(Inside(k));
    PickTaken(g, w, user, k);
    forall j, u1, u2 | 0 <= j < |g.members| ensures MemberValue(g, w, r, j, u1) == MemberValue(g, w, r, j, u2) {
      RecordedIsYes(g, w, user, pick, j, u1);
      RecordedIsYes(g, w, user, pick, j, u2);
    }
  }

  /** The value of the choice before a member is picked. */
  method OwnValue(g: Group, w: World, user: Option<Tri>) returns (newval: Tri)
    ensures newval == Own(g, w, user)
  {
    var tri := BestPrompt(g.prompts, w.outer, false);
    var visible := Rounded(w, g.typ, tri);
    var dir := Rounded(w, g.typ, EvalDep(g.dirDep, w.outer));
    var rev := Rounded(w, g.typ, if g.revDep.Null? then 0 else Eval(g.revDep.e, w.outer));
    newval := 0;
    if visible != 0 && user.Some? {
      newval := Min(user.value, visible);
    }
    newval := if dir == 0 && rev != 0 then 0 else Max(newval, rev);
    if newval == 1 && TwoValued(w, g.typ) {
      newval := 2;
    }
  }

  method NewMemberValue(w: World, typ: SymType, visible: Tri, recorded: bool, user: Option<Tri>) returns (newval: Tri)
    ensures newval == ValueAt(w, typ, visible, recorded, user)
  {
    newval := 0;
    if visible == 2 {
      newval := if recorded then 2 else 0;
    } else if visible != 0 && user.Some? {
      newval := Min(user.value, visible);
    }
    if newval == 1 && TwoValued(w, typ) {
      newval := 2;
    }
  }

  lemma DefaultStep(g: Group, w: World, i: nat, all: seq<Target>)
    requires i < |g.defaults|
    ensures var d, rest := g.defaults[i], FirstShown(g, w, Active(g.defaults[i + 1..], w) + all);
            FirstShown(g, w, Active(g.defaults[i..], w) + all)
            == if EvalDep(d.cond, w.inner(2)) != 0 && Shown(g, w, d.target) then Some(d.target) else rest
  {
    var d, rest := g.defaults[i], Active(g.defaults[i + 1..], w);
    assert g.defaults[i..][1..] == g.defaults[i + 1..];
    assert [] + rest + all == rest + all;
    assert [d.target] + rest + all == [d.target] + (rest + all);
    FirstShownStep(g, w, d.target, rest + all);
  }

  lemma CandidatesStep(g: Group, w: World, pick: Option<nat>)
    ensures var rest := FirstShown(g, w, Active(g.defaults, w) + AllMembers(|g.members|));
            FirstShown(g, w, Candidates(g, w, pick))
            == if pick.Some? && Shown(g, w, Inside(pick.value)) then Some(Inside(pick.value)) else rest
  {
    var a, b := Active(g.defaults, w), AllMembers(|g.members|);
    assert [] + a + b == a + b;
    if pick.Some? {
      assert [Inside(pick.value)] + a + b == [Inside(pick.value)] + (a + b);
      FirstShownStep(g, w, Inside(pick.value), a + b);
    }
  }

  lemma FirstShownStep(g: Group, w: World, t: Target, rest: seq<Target>)
    ensures FirstShown(g, w, [t] + rest) == if Shown(g, w, t) then Some(t) else FirstShown(g, w, rest)
  {
    assert ([t] + rest)[1..] == rest;
  }

  /** Querying members in any order: a choice that is y has exactly one member that is y, the recorded one. */
  method Settle(g: Group, w: World, user: Option<Tri>, pick: Option<nat>, users: seq<Option<Tri>>, order: seq<nat>)
    returns (curr: Tri, picked: Option<Target>, values: seq<Tri>)
    requires Typed(g, users) && (pick.Some? ==> pick.value < |g.members|)
    requires forall i :: 0 <= i < |order| ==> order[i] < |g.members|
    ensures Result(curr, picked) == Outcome(g, w, user, pick)
    ensures |values| == |order|
    ensures forall i :: 0 <= i < |order| ==>
              values[i] == MemberValue(g, w, Outcome(g, w, user, pick), order[i], users[order[i]])
    ensures curr == 2 ==> picked.Some? && Shown(g, w, picked.value)
                          && forall i :: 0 <= i < |order| ==> values[i] == if picked == Some(Inside(order[i])) then 2 else 0
    ensures Contained(g, w) && curr != 2 ==> forall i :: 0 <= i < |order| ==> values[i] <= curr
  {
    var e := new Engine(g, w, user, pick, users);
    e.CalcValue();
    values := [];
    for i := 0 to |order|
      invariant e.Valid() && e.valid && e.used == user && e.pick == pick && e.UsersAre(users) && |values| == i
      invariant forall j :: 0 <= j < i ==>
                  values[j] == MemberValue(g, w, Outcome(g, w, user, pick), order[j], users[order[j]])
    {
      e.CalcMember(order[i]);
      values := values + [e.memberCurr[order[i]]];
    }
    curr, picked := e.curr, e.picked;
    forall i | 0 <= i < |order|
      ensures curr == 2 ==> values[i] == if picked == Some(Inside(order[i])) then 2 else 0
      ensures Contained(g, w) && curr != 2 ==> values[i] <= curr
    {
      if curr == 2 {
        RecordedIsYes(g, w, user, pick, order[i], users[order[i]]);
      } else if Contained(g, w) {
        NoneYes(g, w, user, pick, users, order[i]);
      }
    }
  }
}
