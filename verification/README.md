# Verified model of the hard parts of an OpenWrt tree

This project models five independent pieces of an OpenWrt source tree in Dafny and proves what they are for.

**RSA signature verification** (`Arith`, `Octets`, `Montgomery`, `RsaVerify`). Word-by-word Montgomery arithmetic over
any number of 32-bit words, with 64-bit accumulators, a carry that is dropped and compensated, and a single final
subtraction. A signature is accepted exactly when its 65537th power modulo the key encodes the digest (sections 5.2.2,
8.2.2 and 9.2 of RFC 8017). As in the program, and unlike section 5.2.2, a signature value that is not below the
modulus is not refused but reduced.

**The Kconfig expression optimiser** (`KconfigExpr`, `ExprTransform`, `ExprEq`, `ExprEqLaws`, `ExprJoin`, `ExprDups`).
A small compiler over three-valued logic. An assignment gives every symbol a value and every pair of symbols the
outcome of comparing their texts. The walk that runs two pointers over one tree is modelled with both positions as
paths into the same tree value, so that a write through one is seen through the other.

**The Kconfig value engine**. `SymbolTable` states the value of every symbol as one equation per symbol; `SymbolCheck`
is the depth-first cycle check; `SymbolValue` is the memoised calculation with its validity flags, and user edits;
`SymbolLaws` says what these values mean in terms of the conditions as written. `TableOptimise` shows that the
optimiser changes no symbol's value. `Choice` is the calculation of choice groups, and `ChoiceLaws` what it means.
`MenuForest`, `MenuLinks`, `MenuPush` and `MenuFinalize` are the restructuring of the menu tree, where nodes are
numbers and the first-child, next-sibling and parent links are updated in place; `MenuTree` is the tree it should
build, as a function, and which choice marks which node, and `MenuMembers` says where a choice finds its members.
`MenuDeps`, `MenuSubmenu`, `MenuNames` and `MenuRun` are the conditions it computes, the test it applies and what both
mean for choices; `MenuJoins` and `MenuPrompts` are the dependencies it collects for symbols and what these mean for
prompts.

**Streaming hashes** (`Word32`, `BlockHash`, `Sha256`, `Sha256Stream`, `Md5Stream`, `Md5Block`, `HashLaws`). Buffered
SHA-256 against FIPS 180-4 and buffered MD5 against RFC 1321, for every way of splitting a message, down to the
unrolled steps of one block.

**Image and configuration formats**. `CameoTag` is the header whose two checksums confirm each other, `PadJffs2` the
loop that places end-of-filesystem markers, and `CStrings`, `ConfQuote`, `ConfFile` and `ConfIo` write and read
`.config` files, editing NUL-terminated buffers in place.

Where a promised property does not hold of the code, the code is kept, an example shows the failure, and the condition
under which the property holds is proved: constants that are spelt differently but compare equal
(`ExprDups.SpellingsClash`, `ExprDups.EliminateDupsExact`), negations under `expr_trans_bool`
(`ExprTransform.TransBoolNeedsNormal`, `ExprTransform.TransBoolExact`), tests for a submenu when something is m or a
symbol without a type stands by itself (`MenuSubmenu.HalfVisible`, `MenuSubmenu.UndefinedVisible`; the guards are
`NegatesTwoValued` and `Plain` in `MenuSubmenu.GoesBelowSound`, and `MenuSubmenu.GoesBelowExact`), defaults outside
their choice (`Choice.OutsideDefault`, `Choice.ExactlyOneYes`), symbols with conditional and unconditional menu nodes
(`MenuDeps.UnconditionalNode`, `MenuDeps.PromptNeedsDeps`), user values under a select and on an m prompt
(`SymbolValue.SelectedWithoutDeps`, `SymbolValue.ConfirmedHalf`, `SymbolValue.NewValueTaken`,
`SymbolValue.SameValueTaken`), and numbers in `.config` that are not numbers (`ConfFile.EmptyNumberLost`,
`ConfFile.LineLost`).

`dafny verify dfyconfig.toml` checks the whole project.

## Model

| member | source | states |
|---|---|---|
| Montgomery.SubMod | package/atel/libusercrypto/src/rsa.c:19-28 | subtracts the modulus in place over any number of words: the difference, taken modulo the word range R, with the borrow as a signed 64-bit accumulator that never overflows |
| Montgomery.GeMod | package/atel/libusercrypto/src/rsa.c:33-44 | the word comparison from the top decides exactly value >= modulus |
| Montgomery.MontMulAdd | package/atel/libusercrypto/src/rsa.c:49-71 | 2^32 times the result, which fits its words, is congruent to c + a*b modulo n; no 64-bit accumulator overflows, and the one conditional subtraction absorbs the final carry exactly |
| Montgomery.AbsorbCarry | package/atel/libusercrypto/src/rsa.c:65-70 | a final carry is at most 1 and subtracting the modulus once compensates for dropping it |
| Montgomery.MontMulAdd0 | package/atel/libusercrypto/src/rsa.c:77-91 | the same step for an operand of zero; its carry never needs a subtraction |
| Montgomery.MontMul1 | package/atel/libusercrypto/src/rsa.c:94-106 | Montgomery multiplication by one: R times the result is congruent to the operand |
| Montgomery.MontMul | package/atel/libusercrypto/src/rsa.c:112-123 | R times the result is congruent to the product of the operands modulo n, for operands that need not be reduced |
| RsaVerify.LoadWords | package/atel/libusercrypto/src/rsa.c:143-151 | the little-endian words have the value of the big-endian octets (OS2IP, section 4.2 of RFC 8017) |
| RsaVerify.StoreWords | package/atel/libusercrypto/src/rsa.c:172-179 | the octets are the I2OSP encoding (section 4.1 of RFC 8017) of the words |
| RsaVerify.I2ospInverts | package/atel/libusercrypto/src/rsa.c:172-179 | I2OSP undoes OS2IP on every octet string; with Os2ipOfI2osp, the other direction |
| RsaVerify.Os2ipOfI2osp | package/atel/libusercrypto/src/rsa.c:143-151 | OS2IP undoes I2OSP on every number that fits |
| RsaVerify.ReduceAndStore | package/atel/libusercrypto/src/rsa.c:168-179 | after the conditional subtraction the stored value is congruent to the one computed, and fully reduced when the modulus has its top bit set |
| RsaVerify.ModPow | package/atel/libusercrypto/src/rsa.c:134-180 | the octets written are congruent to input^65537 modulo n for every input block, including values not below n; they are exactly I2OSP(input^65537 mod n) when 2n >= R |
| RsaVerify.ModPow3 | package/atel/libusercrypto/src/rsa.c:143-179 | the same for the exponent 3 that the build option selects |
| RsaVerify.CheckPadding | package/atel/libusercrypto/src/rsa.c:210-228 | returns 0 exactly when everything before the digest is the EMSA-PKCS1-v1_5 encoding (section 9.2 of RFC 8017), although differences are accumulated with bitwise or |
| RsaVerify.PaddingShape | package/atel/libusercrypto/src/rsa.c:196-228 | a block is the encoding of its last 32 octets exactly when it starts 00 01 FF...FF and the DigestInfo prefix stands before the digest |
| RsaVerify.Verify | package/atel/libusercrypto/src/rsa.c:241-260 | accepts exactly when I2OSP(signature^65537 mod n) is the EMSA-PKCS1-v1_5 encoding of the digest |
| ExprTransform.Transform | scripts/config/expr.c:694-849 | terminates on every expression: the weight, which doubles under negation, never grows |
| ExprTransform.DeMorganLighter | scripts/config/expr.c:794-811 | pushing a negation through a junction makes the expression strictly lighter |
| ExprTransform.TransformSound | scripts/config/expr.c:694-849 | keeps the value under every well-typed assignment |
| ExprTransform.TransformNormal | scripts/config/expr.c:694-849 | the result negates only symbols other than y, m and n, and compares no boolean with them |
| ExprTransform.TransformIdempotent | scripts/config/expr.c:694-849 | a second pass changes nothing |
| ExprTransform.TransformMentions | scripts/config/expr.c:694-849 | introduces no constant |
| ExprTransform.TransBoolSound | scripts/config/expr.c:402-426 | after m is promoted to y, dropping "!= n" keeps the value wherever no negation stands above the test |
| ExprTransform.NormalNoNegatedTest | scripts/config/expr.c:402-426 | expressions that expr_transform produced meet that condition |
| ExprTransform.TransBoolNeedsNormal | scripts/config/expr.c:402-426 | under a negation the rewrite is wrong for FOO = m |
| ExprTransform.TransBoolExact | scripts/config/expr.c:402-426 | an assignment keeps the promoted value of every expression, negated tests included, if and only if it makes no tristate m |
| ExprEq.EliminateYnSound | scripts/config/expr.c:316-397 | removing y and n operands keeps the value |
| ExprEq.EqSound | scripts/config/expr.c:252-303 | expressions expr_eq calls equal have the same value under every well-typed assignment |
| ExprEqLaws.EqReflexive | scripts/config/expr.c:252-303 | every expression is found equal to itself, junctions included, which are compared by removing common operands from both sides |
| ExprEq.EqDepSound | scripts/config/expr.c:252-303 | the same for conditions that may be absent |
| ExprEq.EliminateEqOrder | scripts/config/expr.c:150-241 | cancelling common operands keeps the order: an order between what is left holds between the originals, in both directions |
| ExprEq.SupersetSound | scripts/config/menu.c:459-470 | when nothing but y is left of the second expression, the first is at most the second under every well-typed assignment |
| ExprEq.ElimLeavesExhaustive | scripts/config/expr.c:150-190 | afterwards no operand of one side equals an operand of the other, apart from y and n |
| ExprEq.ElimLeavesReplaced | scripts/config/expr.c:150-190 | every operand left was there before, or is the unit of the junction |
| ExprJoin.JoinOrSound | scripts/config/expr.c:431-493 | a successful join has the maximum of the two values |
| ExprJoin.JoinAndSound | scripts/config/expr.c:495-587 | a successful join has the minimum of the two values, unless it merges (a = b) with (a != c) while a equals both constants |
| ExprJoin.MixedTestsExact | scripts/config/expr.c:539-553 | in either order, that merge keeps the value if and only if the symbol does not equal both constants |
| ExprJoin.JoinTable | scripts/config/expr.c:431-587 | two operands are merged if and only if they are found equal or are one of the pairs listed: under \|\|, two of a = y, a = m, a = n for a tristate, or a bool beside its negation; under &&, a beside a = y, a != n or a != m, and for a tristate a = b beside a != c, or two of a != y, a != m, a != n |
| ExprDups.Walk | scripts/config/expr.c:596-651 | the walk over one tree through two aliased pointers keeps the level's shape, changes nothing if it counts no merge, and leaves a reducible tree if it does |
| ExprDups.WalkSound | scripts/config/expr.c:596-651 | the aliased walk keeps the value |
| ExprDups.ReducibleShrinks | scripts/config/expr.c:664-686 | a pass that merged anything loses an operand once y and n are removed, so the loop ends |
| ExprDups.EliminateDupsSound | scripts/config/expr.c:664-686 | keeps the value under every well-typed assignment that tells apart the constants the expression mentions |
| ExprDups.EliminateDupsExact | scripts/config/expr.c:664-686 | an assignment keeps the value of every expression over the given constants if and only if it tells those constants apart |
| ExprDups.EliminateDupsSoundBuiltIn | scripts/config/expr.c:664-686 | unconditionally so for expressions that mention only y, m and n |
| ExprDups.EliminateDupsStable | scripts/config/expr.c:664-686 | the result is a fixed point |
| ExprDups.EliminateDupsComplete | scripts/config/expr.c:664-686 | no two different operands of the result can still be joined |
| ExprDups.EliminateDupsIrredundant | scripts/config/expr.c:664-686 | no two operands of the result are the same or one of the pairs listed |
| ExprDups.EliminateDupsNormal | scripts/config/expr.c:664-686 | keeps the normal form of expr_transform |
| ExprDups.SpellingsClash | scripts/config/expr.c:539-553 | FOO='2' && FOO!='02' is n for FOO = y but is rewritten to an expression that is y |
| ExprDups.Rewriter.Run | scripts/config/expr.c:664-686 | the loop with its global counter computes EliminateDups and restores the counter |
| SymbolTable.SolutionUnique | scripts/config/symbol.c:304-446 | on an acyclic table the defining equations of all symbols have at most one solution |
| SymbolTable.SolutionExists | scripts/config/symbol.c:304-446 | and the unmemoised recursive definition is one |
| SymbolTable.ComputeAgree | scripts/config/symbol.c:177-446 | a symbol's value depends only on the symbols its declaration mentions |
| SymbolCheck.Checker.CheckDeps | scripts/config/symbol.c:1229-1261 | finds a cycle only if there is one, restores the CHECK flags, and otherwise leaves the symbol finished; terminates because every new call flags a symbol |
| SymbolCheck.Checker.CheckSymDeps | scripts/config/symbol.c:1144-1190 | covers direct, reverse and implied dependencies, conditions and default values |
| SymbolCheck.Checker.CheckExprDeps | scripts/config/symbol.c:1109-1141 | covers every symbol an expression mentions |
| SymbolCheck.Checker.CheckAll | scripts/config/parser.tab.c:1978-1981 | with recursive_is_error set, no error is counted if and only if the dependency graph is acyclic; without it none is ever counted |
| SymbolCheck.RankedAcyclic | scripts/config/symbol.c:1229-1261 | a ranking along which all dependencies descend rules out cycles |
| SymbolCheck.FinishRank | scripts/config/symbol.c:1229-1261 | the order in which checks finish is such a ranking |
| SymbolLaws.DependsOnNamed | scripts/config/symbol.c:1144-1190 | the edges of the dependency graph lead to every symbol named in a dependency, in the condition of any property or in a default value, and to no other |
| SymbolValue.Engine.CalcExpr | scripts/config/expr.c:1030-1102 | the evaluated expression has its value under the solution, and no cached value changes |
| SymbolValue.Engine.CalcVisibility | scripts/config/symbol.c:177-238 | stores the visibility and the three dependency values of the solution |
| SymbolValue.Engine.CalcDeps | scripts/config/symbol.c:209-237 | stores the direct, reverse and implied dependency values of the solution |
| SymbolValue.Engine.CalcDefault | scripts/config/symbol.c:83-93 | the first default whose condition holds, limited by it |
| SymbolLaws.DefaultValue | scripts/config/symbol.c:83-93 | by index: n if no default has a condition other than n, and otherwise the minimum of the value and the condition of the first that has |
| SymbolValue.Engine.CalcValue | scripts/config/symbol.c:304-446 | although the symbol is flagged valid first, it ends with exactly its value in the solution, and every other valid symbol keeps its own |
| SymbolLaws.VisibleMeans | scripts/config/symbol.c:177-207 | visibility is that of the best prompt, with m raised to y where m is not available |
| SymbolLaws.DependenciesMean | scripts/config/symbol.c:209-237 | an absent direct dependency is y, an absent reverse or implied one n; the others have their values, with m raised likewise |
| SymbolLaws.UserTaken | scripts/config/symbol.c:359-367 | the user value of a visible symbol that nothing selects is taken as far as the visibility allows |
| SymbolLaws.DefaultTaken | scripts/config/symbol.c:371-377 | without a visible user value, a select or an imply, the value is the minimum of value and condition of the first active default, or n |
| SymbolLaws.ImplyTaken | scripts/config/symbol.c:378-383 | an imply raises the default as far as the direct dependency allows |
| SymbolLaws.SelectRaises | scripts/config/symbol.c:385-389 | a select raises the value to its own, and leaves n where the direct dependency fails |
| SymbolLaws.RangeExact | scripts/config/symbol.c:459-476 | for a symbol that no select holds at its visibility, the values in range are exactly those that recalculation keeps |
| SymbolValue.Engine.ClearAllValid | scripts/config/symbol.c:448-457 | nothing is flagged valid afterwards |
| SymbolValue.Engine.SetTristate | scripts/config/symbol.c:478-512 | accepts exactly the present value and values in range; recalculation gives an accepted new value if and only if, before the call, the direct dependency held or nothing selected the symbol, and an accepted present value unless it is a y on an m prompt |
| SymbolValue.NewValueTaken | scripts/config/symbol.c:459-476 | a value in range survives recalculation if and only if the direct dependency holds or nothing selects the symbol |
| SymbolValue.SameValueTaken | scripts/config/symbol.c:478-512 | confirming the present value keeps it unless the prompt is only m, the value is y and no select forces y |
| SymbolValue.SelectedWithoutDeps | scripts/config/symbol.c:459-476 | a visible symbol with its dependency n that is selected as m: y is accepted, and recalculation gives n |
| SymbolValue.ConfirmedHalf | scripts/config/symbol.c:478-512 | a tristate with an m prompt and default y: its value y is confirmed, and recalculation gives m |
| SymbolValue.Session | scripts/config/symbol.c:304-446 | check, then query in any order and with repetitions: succeeds if and only if the table is acyclic, and every answer is the one of every solution |
| TableOptimise.SimplifiedSolutions | scripts/config/menu.c:335-385 | replacing every condition by what expr_transform, expr_eliminate_dups and, for symbols that are not tristates, expr_trans_bool make of it leaves exactly the same solutions of the whole symbol table |
| TableOptimise.SimplifiedSolutionsBuiltIn | scripts/config/menu.c:335-385 | without any condition for tables that compare only with y, m and n |
| Choice.Engine.CalcVisibility | scripts/config/symbol.c:177-207 | a tristate member whose prompt is m is invisible under a choice that is y; a bool member's m counts as y |
| Choice.Engine.ChoiceDefault | scripts/config/symbol.c:246-270 | the first visible one among the defaults that apply, then among all members |
| Choice.Engine.CalcChoice | scripts/config/symbol.c:272-302 | the first visible one among the user's pick, the defaults that apply and all members; n for the choice if there is none; the choice stays set by the user exactly when all visible members are |
| Choice.Engine.CalcValue | scripts/config/symbol.c:344-417 | leaves the value and the recorded symbol of the definition |
| ChoiceLaws.SelectedIsYes | scripts/config/symbol.c:385-392 | a reverse dependency that is y, or m where m is not available, makes the choice y for every user value unless its own dependency fails |
| ChoiceLaws.SelectedAtLeast | scripts/config/symbol.c:385-392 | a choice is never below its reverse dependency, and n where its own dependency fails under one |
| ChoiceLaws.OwnBounded | scripts/config/symbol.c:359-392 | a choice exceeds its best prompt only through its reverse dependency |
| ChoiceLaws.UserReached | scripts/config/symbol.c:359-367 | a user value that a visible prompt allows is reached, exactly if nothing selects the choice |
| ChoiceLaws.NoUserValue | scripts/config/symbol.c:359-392 | without a user value only the reverse dependency counts |
| ChoiceLaws.MandatoryChosen | scripts/config/menu.c:587-591 | a visible choice that is not optional is never n; if it cannot be m and a member is visible, it is y whatever the user has set, and records something |
| ChoiceLaws.RecordedFirst | scripts/config/symbol.c:246-302 | a choice that is y records the pick if visible, else the first default that applies and is visible, else the first visible member |
| ChoiceLaws.VisibleInYes | scripts/config/symbol.c:177-207 | under a choice that is y a member is visible if and only if it has a prompt that is y, or for a bool one that is not n |
| ChoiceLaws.VisibleElse | scripts/config/symbol.c:177-207 | under any other value its best prompt decides |
| ChoiceLaws.MemberElse | scripts/config/symbol.c:355-392 | a member of a choice that is not y takes the user value up to m where it is visible as m, and is n otherwise |
| Choice.Engine.CalcMember | scripts/config/symbol.c:344-393 | leaves the member's value of the definition, settling the choice first |
| Choice.Engine.SelectMember | scripts/config/symbol.c:478-512 | picking a member is accepted exactly when it is y already or fully visible, keeps all cached values right, and under a choice that is y of its own, recalculation makes the member y exactly when it is visible |
| Choice.PickDecides | scripts/config/symbol.c:272-302 | under a choice that is y of its own, the picked member is y if and only if it is visible |
| Choice.ExactlyOneYes | scripts/config/symbol.c:246-302 | a choice that is y has a member that is y if and only if it does not fall through to a default outside it; then that member is the recorded one, which is visible, and all others are n |
| Choice.InsideExactlyOneYes | scripts/config/symbol.c:246-302 | when every default names a member, exactly one member of a choice that is y is y |
| Choice.RecordsOutside | scripts/config/symbol.c:246-302 | what is recorded is outside the choice if and only if the pick is not visible and the first visible default that applies is outside |
| Choice.RecordedIsYes | scripts/config/symbol.c:355-358 | a member of a choice that is y is y if and only if it is the recorded one, whatever the user values |
| Choice.NoneYes | scripts/config/symbol.c:355-417 | no member exceeds a choice that is not y |
| Choice.PickTaken | scripts/config/symbol.c:272-302 | a visible member the user picked is the one recorded |
| Choice.FallsBack | scripts/config/symbol.c:246-302 | a choice falls back to n if and only if nothing it could record is visible |
| Choice.OutsideDefault | scripts/config/symbol.c:246-270 | such a choice: it is y and has no member that is y |
| Choice.Settle | scripts/config/symbol.c:304-446 | querying members in any order gives the values above |
| MenuDeps.RewriteMValue | scripts/config/menu.c:83-106 | the rewritten expression has the value of the original with m limited by MODULES |
| MenuDeps.CombinedValue | scripts/config/menu.c:335-339 | the simplified conjunction is the minimum of the enclosing condition and the node's own |
| MenuDeps.PropValue | scripts/config/menu.c:379-385 | a property condition is the minimum of the node's dependency and its own condition; for symbols that are not tristates, after m is promoted to y |
| MenuDeps.DependencyValue | scripts/config/menu.c:316-339 | along any chain of originally enclosing nodes, the propagated dependency is the minimum of all their own dependencies, up to the nearest choice, whose symbol stands for the rest |
| MenuDeps.PropertyValue | scripts/config/menu.c:355-385 | each property's condition is the node's propagated dependency combined with its own condition |
| MenuDeps.DependencyNormal | scripts/config/menu.c:335-339 | propagated dependencies stay in the normal form that makes expr_trans_bool sound |
| MenuDeps.MinOfLeast | scripts/config/menu.c:335-339 | the minimum is attained and is a lower bound |
| MenuDeps.MemberContained | scripts/config/menu.c:508-517 | a member's prompt never exceeds its choice, and a member that is not a tristate needs the choice to be y |
| MenuDeps.DirDepCovers | scripts/config/menu.c:483 | dir_dep is at least the dependency of every node that has one |
| MenuDeps.DirDepIgnoresNull | scripts/config/menu.c:483 | nodes without a dependency do not count once another has one |
| MenuDeps.DirDepHolds | scripts/config/menu.c:483 | dir_dep is not n if and only if no node has a dependency or one of those that exist is not n |
| MenuDeps.PromptNeedsDeps | scripts/config/menu.c:379-483 | a visible prompt has dir_dep met if and only if its own node has a dependency, or no node of the symbol has one, or one that another node has holds |
| MenuDeps.RevDepValue | scripts/config/menu.c:391-399 | a reverse or implied dependency is the maximum, over all selects or implies, of the minimum of the selecting symbol and the propagated condition |
| MenuJoins.RunRevDep | scripts/config/menu.c:379-411 | the reverse or implied dependency collected by a run is the best of what all nodes of the tree offer with their propagated conditions: one reaches it, none exceeds it |
| MenuDeps.UnconditionalNode | scripts/config/menu.c:483 | with one node conditional and one not, a prompt can be visible although dir_dep is n |
| MenuPrompts.RunPromptsNeedDeps | scripts/config/menu.c:379-483 | a symbol as menu_finalize leaves it, each prompt at a node without children that has a dependency unless no node has given the symbol one, has dir_dep met in every well-typed state in which a prompt is visible |
| MenuSubmenu.DependsSound | scripts/config/expr.c:879-906 | a condition that depends on a symbol is n whenever the symbol is |
| MenuSubmenu.DependsExact | scripts/config/expr.c:879-906 | a condition depends on a symbol if and only if one of its conjuncts is the symbol, a test that it is y or m, or a test that it is not n |
| MenuSubmenu.AskedGoesBelow | scripts/config/menu.c:435-447 | a node with such a conjunct goes into the submenu |
| MenuSubmenu.ComparedMeans | scripts/config/expr.c:922-985 | the rewritten condition is the test against n whenever the condition is y or n, and also when it is m if negations stand only above what is never m |
| MenuSubmenu.ComparedHalf | scripts/config/expr.c:922-985 | for m it is right of a symbol and wrong of its negation |
| MenuSubmenu.GoesBelowSound | scripts/config/menu.c:435-470 | a node put into the submenu of a symbol is not visible while both the symbol and its prompt are n, even as m if negations in its condition stand only above what is never m |
| MenuSubmenu.HalfVisible | scripts/config/menu.c:459-470 | with another negation it can be visible as m |
| MenuSubmenu.UndefinedVisible | scripts/config/menu.c:459-470 | an undefined symbol is n although its text is not: with it in the prompt, a node taken below can be y while symbol and prompt are n |
| MenuSubmenu.GoesBelowExact | scripts/config/menu.c:435-470 | for conditions over given symbols the test can be trusted if and only if none of these is m and each is n exactly when its text is |
| MenuPush.Pushed | scripts/config/menu.c:329-411 | every node's final conditions come from its own and the final ones of the node that originally encloses it |
| MenuPush.PushKept | scripts/config/menu.c:329-411 | nothing else is written |
| MenuLinks.BelowStep | scripts/config/menu.c:410-411 | finalising one child keeps the list, its nodes and its parent links right |
| MenuLinks.BelowSpliced | scripts/config/menu.c:554-563 | moving children up behind a node keeps the preorder, the list and the parent links right |
| MenuLinks.AdoptedAt | scripts/config/menu.c:477-481 | making siblings children keeps both lists and the parent links right |
| MenuFinalize.Menus.PropagateChildren | scripts/config/menu.c:329-401 | writes the conditions of exactly the children, in order, and what is collected from them has its final value |
| MenuFinalize.Menus.FinalizeList | scripts/config/menu.c:410-411 | finalises every child exactly once, although children may move while the loop runs, and leaves the list of MenuTree.Each |
| MenuFinalize.Menus.Absorb | scripts/config/menu.c:435-481 | takes over exactly the siblings of MenuTree.Gathered, finalised once each, with their order kept |
| MenuFinalize.Menus.Gather | scripts/config/menu.c:435-476 | the submenu test reads conditions that have their final values already, so the loop finds the siblings of MenuTree.Gathered |
| MenuFinalize.Menus.AbsorbAndJoin | scripts/config/menu.c:413-483 | a symbol without children takes its submenu and then joins its dependency, which is the final one, to dir_dep |
| MenuFinalize.Menus.Flatten | scripts/config/menu.c:485-564 | leaves exactly the list of MenuTree.Flat, with the order kept, and offers every node on it to the choice, in order |
| MenuFinalize.Menus.MarkMember | scripts/config/menu.c:486-524 | flags and marks as MenuTree.Flag says: a choice marks a node that has a symbol not flagged before, and nothing else |
| MenuFinalize.Menus.Finalize | scripts/config/menu.c:285-564 | builds exactly MenuTree.Finished; finalises the node, its descendants and the siblings it takes over, once each in preorder; nothing else is touched |
| MenuFinalize.Run | scripts/config/menu.c:285-564 | on a whole tree: the links are those of MenuTree.Finished, every node that has children below the root has a prompt, the preorder is unchanged, every node is finalised exactly once, every parent link names the node whose list holds the child, and conditions come from the original enclosing node and from the choice that marked the node, if any |
| MenuTree.FinishedTidy | scripts/config/menu.c:553-563 | in the finished tree every node below the root that has children has a prompt |
| MenuTree.GatheredLongest | scripts/config/menu.c:435-481 | a submenu is the longest run of siblings, as the loop meets them, that the test accepts |
| MenuTree.NothingToDo | scripts/config/menu.c:285-564 | a tree in which only prompts have children and the test accepts nothing stays as it is |
| MenuTree.FinishedVisits | scripts/config/menu.c:485-564 | in the finished tree a node with a prompt holds exactly the nodes its last loop has passed |
| MenuTree.MarkedIff | scripts/config/menu.c:486-524 | a choice marks a node if and only if its loop, passing that node, is the first loop of any choice to pass a node with that symbol |
| MenuTree.MarkedOnce | scripts/config/menu.c:486-524 | no symbol is marked at two nodes |
| MenuTree.MarkedSomewhere | scripts/config/menu.c:486-524 | every symbol that the loop of a choice passes is marked at some node |
| MenuTree.FinishedDirs | scripts/config/menu.c:483 | the nodes that join their dependency to dir_dep of their symbol are exactly those with a symbol and, in the parsed tree, no children |
| MenuMembers.FinishedPre | scripts/config/menu.c:285-564 | the function that describes the finished tree keeps the preorder |
| MenuMembers.FinishedFollows | scripts/config/menu.c:485-564 | whatever was below a node is still below it, or below a prompt, or has been passed by the node's last loop |
| MenuMembers.MarkedNearest | scripts/config/menu.c:323-524 | a choice that has children marks only nodes that were below it in the parsed tree, with no other choice between |
| MenuMembers.MarkedBeside | scripts/config/menu.c:435-524 | a choice without children marks only nodes that were below its parent in the parsed tree, with no choice between, and only if it takes another child of that parent |
| MenuNames.NamesGate | scripts/config/menu.c:323-385 | a propagated condition that names the symbol of a choice, which no written condition does, has it from the nearest choice around the node |
| MenuRun.MarkedGate | scripts/config/menu.c:323-524 | the nearest choice around a marked node in the parsed tree has the symbol of the choice that marked it |
| MenuRun.FinalizeMenus | scripts/config/menu.c:285-564 | the same with the real conditions and submenu test, which goes by the propagated conditions; what dir_dep, rev_dep and implied collect are propagated conditions too |
| MenuRun.AllPropagated | scripts/config/menu.c:329-411 | the propagated conditions satisfy the propagation step along every original parent link |
| MenuRun.MarkedHolder | scripts/config/menu.c:485-524 | a marked node has a symbol and was marked by a choice, and its parent link names that choice if the choice has a prompt |
| MenuRun.MemberMarked | scripts/config/menu.c:485-524 | the symbol of a node whose parent link names a choice is marked, at exactly one node |
| MenuRun.FinalDependency | scripts/config/menu.c:285-564 | the final dependency is exactly the minimum of all original limits, except that for a member that is not a tristate and was marked by a tristate choice it is n unless that choice is y |
| MenuRun.FinalProperty | scripts/config/menu.c:355-517 | the final condition of a property is that minimum combined with its own condition, with the same exception; exactly for tristates and nodes without a symbol, and after m is promoted to y for symbols of any other type |
| MenuRun.FinalTristate | scripts/config/menu.c:355-517 | for a tristate, dependency and property conditions are exactly these minima: nothing is promoted and no choice withholds anything |
| MenuRun.MarkedContained | scripts/config/menu.c:323-517 | no final condition of a member exceeds the choice that marked it, and a member that is not a tristate needs the choice to be y |
| MenuRun.GroupContained | scripts/config/menu.c:323-517 | a choice all of whose members' prompts are at nodes it marked satisfies what the choice calculation relies on |
| Sha256.Transform | scripts/mkhash.c:458-563 | the unrolled rounds on rotating registers compute the compression function of section 6.2.2 of FIPS 180-4 |
| Sha256.RenamedRound | scripts/mkhash.c:489-501 | one in-place round on renamed registers is one round of the standard |
| Sha256.Mix | scripts/mkhash.c:513-550 | 64 rounds with the schedule extended sixteen words at a time |
| Sha256.FastT1 | scripts/mkhash.c:449-493 | the shortened choice function gives the same first temporary |
| Sha256.FastT2 | scripts/mkhash.c:449-493 | the shortened majority function gives the same second temporary |
| Sha256Stream.Context.Update | scripts/mkhash.c:620-658 | the state is the fold of the compression over all whole blocks so far, and the buffer holds the rest |
| Sha256Stream.Context.Pad | scripts/mkhash.c:573-599 | the state is the fold over the message with the padding of section 5.1.1 |
| Sha256Stream.Hash | scripts/mkhash.c:601-675 | for every split into chunks, the buffering and the unrolled transform give the digest of the whole message |
| Sha256Stream.TransformBytes | scripts/mkhash.c:507-563 | the block is read as big-endian words |
| HashLaws.ShaWord | scripts/mkhash.c:437-444 | word t of a block is the number of its bytes 4t to 4t+3, high-order byte first |
| HashLaws.ShaWordInverts | scripts/mkhash.c:98-133 | decoding a word undoes encoding it |
| HashLaws.DigestWord | scripts/mkhash.c:424-431 | bytes 4i to 4i+3 of the digest are word i, high-order byte first |
| HashLaws.ShaPadded | scripts/mkhash.c:573-599 | what is hashed is the message, a byte 0x80, zeros and in eight bytes the number of its bits, filling whole blocks |
| HashLaws.RotrValue | scripts/mkhash.c:452 | a rotation moves the n low bits to the top and the others down |
| HashLaws.SigmasOfTopBit | scripts/mkhash.c:484-487 | where the four mixing functions send the top bit, which fixes their amounts |
| Md5Stream.Context.Count | scripts/mkhash.c:316-319 | the length stays hi*2^29 + lo modulo 2^61 |
| Md5Stream.LengthHalves | scripts/mkhash.c:366-374 | lo<<3 and hi are the two halves of the bit count |
| Md5Stream.Context.Body | scripts/mkhash.c:189-297 | folds every block of the data with the block function of section 3.4, by the unrolled steps |
| Md5Stream.Context.Update | scripts/mkhash.c:310-343 | the state is the fold over all whole blocks so far, and the buffer holds the rest |
| Md5Stream.Context.End | scripts/mkhash.c:345-376 | the registers are the fold over the message with the padding of sections 3.1 and 3.2 of RFC 1321 |
| Md5Block.Block | scripts/mkhash.c:205-289 | the 64 in-place steps on renamed registers, with the words and shifts the code lists, compute the four rounds of section 3.4 of RFC 1321 |
| Md5Block.Quad | scripts/mkhash.c:211-281 | four steps that write a, d, c and b in turn are four operations of the standard, after which every register is in its place |
| Md5Block.FastFunctions | scripts/mkhash.c:144-155 | the functions without and-not, and the second form of H, equal those of the standard |
| Md5Block.StepIsOperation | scripts/mkhash.c:160-163 | the order of additions in the step makes no difference |
| HashLaws.Md5Word | scripts/mkhash.c:169-183 | word k of a block is the number of its bytes 4k to 4k+3, low-order byte first |
| HashLaws.RotlValue | scripts/mkhash.c:160-163 | a rotation moves the n top bits to the bottom and the others up |
| HashLaws.Md5Padded | scripts/mkhash.c:345-376 | what is hashed is the message, a byte 0x80, zeros and in eight bytes the number of its bits, low-order byte first, filling whole blocks |
| HashLaws.Md5DigestWords | scripts/mkhash.c:378-393 | the digest is the four registers in order, low-order byte first |
| Md5Stream.Md5 | scripts/mkhash.c:299-396 | for every split into chunks, the buffering and the unrolled block function give the digest of the whole message, sections 3.1 to 3.5 |
| CameoTag.OwnRegister | scripts/cameo-tag.py:79-80 | feeding a CRC register its own bytes empties it, whatever it holds |
| CameoTag.InvertedCrcFixed | scripts/cameo-tag.py:79-84 | data followed by its inverted little-endian CRC has the CRC 0xFFFFFFFF |
| CameoTag.PolynomialEntry | scripts/cameo-tag.py:79-80 | the CRC table entry of the single bit 0x80 is 0xEDB88320, as section 8 of RFC 1952 has it |
| CameoTag.TableLinear | scripts/cameo-tag.py:79-80 | table entries are linear, so those of single bits determine all |
| CameoTag.SumStored | scripts/cameo-tag.py:88-93 | the big-endian sum at offset 56 is the sum of the 56 final bytes before it |
| CameoTag.CrcStored | scripts/cameo-tag.py:88-93 | the CRC of the header with its CRC field zeroed is the stored 0xFFFFFFFF |
| CameoTag.ChecksumHeader | scripts/cameo-tag.py:82-94 | for every 64-byte header both hold at once of the array the assignments leave |
| PadJffs2.AlignFirst | tools/padjffs2/src/padjffs2.c:93 | ALIGN gives the first multiple at or after a length, below 2^32 |
| PadJffs2.FirstVia | tools/padjffs2/src/padjffs2.c:87-99 | stopping at a smaller boundary skips no larger one |
| PadJffs2.PadImage | tools/padjffs2/src/padjffs2.c:79-126 | terminates, and the markers start exactly at the first boundary of each requested size, without overlap |
| PadJffs2.MarkersApart | tools/padjffs2/src/padjffs2.c:79-126 | the markers come after the image, in order, and none overlaps another |
| PadJffs2.ImageMarker | tools/padjffs2/src/padjffs2.c:119-125 | the bytes at each such offset are the marker |
| PadJffs2.ImageBlank | tools/padjffs2/src/padjffs2.c:103-117 | all other bytes are 0xff |
| ConfQuote.Escape | scripts/config/symbol.c:854-895 | the escaped string fills the computed buffer exactly, terminator included |
| ConfQuote.EscapedSize | scripts/config/symbol.c:861-873 | the first pass computes the length of the second pass's result |
| ConfQuote.UnquoteEscaped | scripts/config/confdata.c:257-276 | unquoting undoes escaping for every string |
| ConfQuote.UnquoteInPlace | scripts/config/confdata.c:260-271 | the memmove loop leaves exactly the unquoted string in the buffer, and fails exactly when there is no closing quote |
| ConfFile.IntValid | scripts/config/symbol.c:544-556 | accepts exactly an optional minus and digits without a leading zero |
| ConfFile.HexValid | scripts/config/symbol.c:557-564 | accepts exactly an optional 0x and at least one hexadecimal digit |
| ConfFile.SetValue | scripts/config/confdata.c:230-289 | stores, ignores or refuses a text as its type demands |
| ConfFile.LineRestores | scripts/config/confdata.c:439-496 | reading a printed line restores the value, for all five types |
| ConfFile.LineLost | scripts/config/confdata.c:439-496 | a text that is not a number of its type is never restored |
| ConfFile.EmptyNumberLost | scripts/config/confdata.c:439-496 | an int with an empty text is such a value |
| ConfFile.AssignedNo | scripts/config/confdata.c:439-496 | a line that assigns n has the effect of the comment that is written for n |
| ConfFile.FileRoundTrip | scripts/config/confdata.c:436-503 | writing any items and reading the lines back gives exactly the values written |
| ConfFile.ValuesLast | scripts/config/confdata.c:436-503 | an entry that no later one overrides keeps its value |
| ConfIo.Reader.ReadLine | scripts/config/confdata.c:437-503 | one round of the read loop, editing the line in place, applies the parsed line |
| ConfIo.Reader.ReadFile | scripts/config/confdata.c:433-503 | the read loop applies every line of the file in order to reset values |
| ConfIo.GetLine | scripts/config/confdata.c:312-344 | delivers the characters up to and including the next newline |
| ConfIo.PrintSymbol | scripts/config/confdata.c:608-629 | what is printed for a value reads back as that value; an n may be left out on request |
| ConfIo.WriteSymbol | scripts/config/confdata.c:731-749 | escapes strings and only strings |
| ConfIo.SaveAndLoad | scripts/config/confdata.c:436-749 | what is read back is what was written |

## Left out

- RsaVerify.ModPow: the three parts of the work buffer are three separate arrays, not offsets into one.
- RsaVerify.Verify: the key is given; key files, headers and the reading of signatures are not modelled.
- Md5Stream.Md5: reading files and printing digests in hexadecimal are not modelled.
- Sha256Stream.Hash: the same.
- SymbolValue.Session: the value of MODULES is given beforehand, where the code recalculates it first; int, hex and string symbols, ranges, and the write and changed flags are not modelled.
- SymbolValue.Engine.ClearAllValid: does not recalculate MODULES, since its value is given.
- TableOptimise.SimplifiedSolutions: each condition is simplified by itself; joining it with the enclosing dependency first is MenuDeps.PropValue.
- SymbolTable.SolutionUnique: comparing two values is a parameter, since the conversion of texts to numbers belongs to the C library.
- SymbolCheck.Checker.CheckAll: choice groups, which the check treats specially, are not modelled, nor is the printed report of a cycle.
- Choice.Engine.CalcValue: one group at a time, the rest of the table being given as an assignment that depends on the value of the choice; default values of members, which the parser warns about, and the values filled in after reading a file are not modelled.
- Choice.Engine.CalcMember: settles the choice by a call of its own, where the code gets there through the prompt condition, which names the choice.
- MenuRun.MarkedContained: that written conditions do not name the symbol of a choice, which the parser cannot look up there (scripts/config/symbol.c:802-807), is a hypothesis for choices without children.
- MenuFinalize.Run: nodes are indices into link tables instead of memory cells; menus, symbols and prompts are parsed already.
- MenuRun.FinalizeMenus: the types given to untyped choice members, warnings, and the reverse dependency every mandatory choice gets are not modelled.
- MenuJoins.RunRevDep: dir_dep, rev_dep and implied are kept as the lists of what a run joins, from which MenuDeps.DirDep and MenuDeps.RevDep make the expressions; which property selects which symbol is a parameter.
- MenuDeps.PropertyValue: speaks of the propagated conditions; MenuRun.FinalProperty is about the final ones.
- ConfIo.Reader.ReadFile: reads user values only; the bookkeeping for choice members, the changed flag, warnings, opening files and growing the line buffer are not modelled. A last line that is a single # without a newline, where the code looks at bytes left from earlier lines, is ignored.
- ConfIo.WriteFile: the walk over the menu tree that decides what to write is replaced by the list of what is written.
- CameoTag.ChecksumHeader: reading and patching the image file are not modelled.
- PadJffs2.PadImage: write errors are not modelled; sizes whose boundaries reach 2^32 are excluded, since there the 32-bit mask cuts the length off.
- The user interfaces, the lexer and parser, the preprocessor, the other image writers and the network scripts: no part of the model, as they would add input and output or fixed layouts only.
