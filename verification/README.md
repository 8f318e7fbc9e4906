# Verified models of the ICS lab sources

A Dafny project that models the algorithmic core of several programs in this repository and proves what they
are for.  `dafny verify dfyconfig.toml` checks all of it.

| files | what they model |
|---|---|
| kconfig_expr, kconfig_compare, kconfig_eq, kconfig_canon, kconfig_transform, kconfig_dups, kconfig_clash, kconfig_joins, kconfig_menu, kconfig_submenu, kconfig_superset | the simplifier for three-valued Kconfig dependency expressions and the submenu test built on it |
| kconfig_symbol, kconfig_select, kconfig_value, kconfig_meaning | the symbol graph: cycle detection with flags and a stack, what selects add to it, memoised evaluation and who decides a value |
| kconfig_string | escaping of string values and the in-place unescaping that reads them back |
| block_cache, cachesim, nemu_cache | the set-associative write-back cache, in the simulator and behind paddr_read / paddr_write |
| int64 | 64-bit division from 32-bit halves, and the bit counts it uses |
| coremark_list, coremark_bench | CoreMark's linked list: merge sort on `next` pointers, remove / undo, the benchmark run |
| thread_os, thread_handlers, thread_progress | the multi-processor scheduler and its spin lock, over every interleaving, with interrupt handlers whole and taken apart, and what can still happen from wherever a run has come to |
| dispinfo | the screen size printed through snprintf and parsed by NDL |
| decode | instruction patterns compiled to key, mask and shift |
| words, cstring, common | bit operations on naturals, NUL-terminated buffers, a shared datatype |

How the sources' terms appear here:

* A Kconfig expression is a value.  Where the C code holds the address of a slot inside a tree, the model holds
  the path to that slot, so two slots of one tree alias exactly as the pointers do.  A valuation gives booleans
  n or y and tristates n, m or y; the string comparison of anything that is not compared as a tristate is an
  arbitrary function of the two symbols and of the letters they show, with != the complement of =.
* The caches, the dependency checker, the value store, the list cells, the buffers and the scheduler are classes and arrays
  that the methods update in place.  `rand()` is a parameter, so every result holds for every choice of victim.
* The cache proofs rest on `BlockCache.Coherent`: the contents memory would have if every dirty line were
  written back, at most one valid line per block, and memory right wherever no dirty line is.
* Two predicates of the merge sort answer `Holds` or `Fails` (datatype `Fact`) instead of a boolean, and some
  proofs `hide` bodies they do not need: proofs then carry them around closed.

Where code and comments disagree the model follows the code:

* expr.c:246-251 calls two && or || expressions equal if every operand of each equals some operand of the other.
  Without y and n among the operands the code matches operands one to one: that is the promise exactly as long as no
  operand is repeated (`KconfigCanon.ExprEqExact`, `ExprEqCovers`, `ExprEqCountsOperands`).  With them it equates more:
  n decides every && (`DecidedAreEqual`), what is left over is folded before it is compared (`LeftoversAreFolded`),
  and equality is then not transitive (`NotTransitiveWithConstants`).
* expr.c:540-553 turns `(a='b') && (a!='c')` into `(a='b')` for different symbols b and c; that is wrong when both
  spell one tristate value (`KconfigClash.WrongOnClash`, `WrongOnHiddenClash`).
* expr.c:569 says that `(a!='m') && (a!='n')` becomes `(a='m')`; the code returns `a='y'`, which is right.
* expr.c:399-401 describes expr_trans_bool for booleans, the code tests S_TRISTATE; the function is not modelled.
* menu.c:470-478 speaks of a superset of dependencies; the test finds one only if the entry's dependency is an &&
  (`KconfigSuperset.SubmenuExact`), so a dependency need not pass against itself
  (`KconfigMenu.SubmenuOfEqualDependency` says which do), and one that passes need not be a superset when m is
  negated (`KconfigMenu.SubmenuUnsound`, `KconfigSubmenu.PlainNotsNeeded`).
* core_list_join.c:131 promises the list back in its original state; with no idx twice that holds just for
  lists in rising idx order whose data16 have two equal bytes (`CoremarkBench.BenchList`, `CoremarkBench.FailingList`).

## Model

| member | source | states |
|---|---|---|
| KconfigExpr.SlotValue | nemu/tools/kconfig/expr.c:604-613 | overwriting the slot at a path of an && (or \|\|) tree changes its value only through that operand: the tree is worth the new operand combined with the tree that has the unit there |
| KconfigExpr.PutElsewhere | nemu/tools/kconfig/expr.c:604-613 | writing through one slot address leaves every other operand slot of the level as it was |
| KconfigExpr.PutLeafCount | nemu/tools/kconfig/expr.c:630-647 | a write changes the number of && / \|\| operands by the difference of the old and the new operand |
| KconfigEq.EliminateYNCorrect | nemu/tools/kconfig/expr.c:316-397 | expr_eliminate_yn keeps the value under every valuation, leaves y, n or a tree without them, and shrinks the tree exactly when a constant was an operand |
| KconfigEq.EliminateEqLevelSplits | nemu/tools/kconfig/expr.c:150-190 | __expr_eliminate_eq takes one common part P out of both trees: before, each tree is worth P combined with what is left of it |
| KconfigEq.EliminateEqRawSplits | nemu/tools/kconfig/expr.c:221-241 | the same for expr_eliminate_eq before its clean-up, for every mix of operators at the two tops (one part per level eliminated); what exactly is left is stated by KconfigSuperset.EliminateEqIs |
| KconfigEq.ExprEqSound | nemu/tools/kconfig/expr.c:252-303 | expr_eq true implies equal value under every valuation |
| KconfigEq.ExprEqOptSound | nemu/tools/kconfig/expr.c:260-261 | the same when one or both expressions are NULL (yes) |
| KconfigEq.NullIsYes | nemu/tools/kconfig/expr.c:256-261 | NULL is another way to write y: expr_eq with NULL answers what it answers with y in its place |
| KconfigEq.SpentIsInert | nemu/tools/kconfig/expr.c:165-172 | a level whose operands are all spent (y of &&, n of \|\|) is never touched again by __expr_eliminate_eq |
| KconfigEq.MeetsItsCopy | nemu/tools/kconfig/expr.c:154-189 | an operand compared with a tree that holds its copy at any position, with only spent operands before it, eliminates exactly that copy |
| KconfigEq.ExprEqReflexive | nemu/tools/kconfig/expr.c:279-288 | expr_eq of an expression with its own copy is true, for every expression |
| KconfigCanon.LevelDifference | nemu/tools/kconfig/expr.c:150-190 | when no operand is y or n, __expr_eliminate_eq leaves of each level exactly the multiset of operands the other level does not have |
| KconfigCanon.ExprEqExact | nemu/tools/kconfig/expr.c:252-303 | for expressions without y or n as an operand of any && / \|\| (one of them may be y or n itself): expr_eq is true if and only if the canonical forms agree, an operator standing for the multiset of the canonical forms of its operands; order and grouping never matter, number does |
| KconfigCanon.CleanAfterTransform | nemu/tools/kconfig/expr.c:316-397 | those are the expressions that come out of expr_transform and expr_eliminate_yn, whatever went in |
| KconfigCanon.ExprEqIsEquivalence | nemu/tools/kconfig/expr.c:252-303 | on those expressions expr_eq is symmetric and transitive |
| KconfigCanon.ExprEqOfLevels | nemu/tools/kconfig/expr.c:279-288 | the exact condition when y and n do occur among the operands of the two levels compared: if one level has n (y of \|\|) the other must have it, and otherwise the remaining operands must agree, each as often |
| KconfigCanon.ExprEqCovers | nemu/tools/kconfig/expr.c:246-251 | what the comment promises: equal expressions cover each other operand by operand, and expressions that cover each other are equal if neither repeats an operand |
| KconfigCanon.ExprEqCountsOperands | nemu/tools/kconfig/expr.c:246-251 | with repeated operands they need not be: a && (a && b) and a && (b && b), for all different a and b other than y and n |
| KconfigCanon.DecidedAreEqual | nemu/tools/kconfig/expr.c:279-288 | two && with n among the operands of each (two \|\| with y) are equal whatever the other operands are |
| KconfigCanon.LeftoversAreFolded | nemu/tools/kconfig/expr.c:279-288 | y && (c \|\| n) equals y && c although c \|\| n does not equal c |
| KconfigCanon.NotTransitiveWithConstants | nemu/tools/kconfig/expr.c:279-288 | with y or n among the operands expr_eq is not transitive |
| KconfigDups.JoinOrCorrect | nemu/tools/kconfig/expr.c:431-493 | whatever expr_join_or returns has the value of e1 \|\| e2, under every valuation |
| KconfigDups.EqualWithoutUnequalCorrect | nemu/tools/kconfig/expr.c:540-553 | a='b' && a!='c' for constants: the result (n, or a='b') is right when b and c do not spell the same value differently |
| KconfigDups.JoinAndCorrect | nemu/tools/kconfig/expr.c:495-587 | whatever expr_join_and returns has the value of e1 && e2, unless the two clash |
| KconfigDups.JoinAndExact | nemu/tools/kconfig/expr.c:495-587 | exactly when expr_join_and is right: its result is equivalent to e1 && e2 if and only if the two are not a='b' against a!='c' with b and c different symbols that denote the same tristate value (such as y and "2") |
| KconfigDups.TwoSlots | nemu/tools/kconfig/expr.c:630-645 | replacing two different operand slots of one tree by two operands of the same combined value keeps the value of the tree |
| KconfigDups.JoinSlotsCorrect | nemu/tools/kconfig/expr.c:615-648 | one comparison of two operand slots of one tree: same value, same level structure, and each join removes one counted operand |
| KconfigDups.JoinReaches | nemu/tools/kconfig/expr.c:431-587 | joining two operands of a tree whose tests do not clash tests a symbol against nothing that could clash |
| KconfigDups.Dups1Correct | nemu/tools/kconfig/expr.c:596-651 | expr_eliminate_dups1 on two aliasing slots of one tree keeps the value unless tests clash, brings in no test that could, and counts each join |
| KconfigDups.DupsPassCorrect | nemu/tools/kconfig/expr.c:672-678 | a whole pass, started with the root as both slots, does the same |
| KconfigDups.PassShrinks | nemu/tools/kconfig/expr.c:679-682 | a pass that joined anything, followed by expr_eliminate_yn, strictly lowers the number of && / \|\| operands: the termination measure of the while (1) loop |
| KconfigDups.EliminateDupsCorrect | nemu/tools/kconfig/expr.c:664-686 | expr_eliminate_dups keeps the value under every valuation if the constants a tristate symbol is tested against, closed under what joins can bring in, do not spell one value twice |
| KconfigClash.ClashFreeIsNeeded | nemu/tools/kconfig/expr.c:540-553 | and no weaker condition on those constants will do: for every set of constants that fails it some expression testing one symbol against that set alone comes out with another value |
| KconfigDups.EliminateDupsIdempotent | nemu/tools/kconfig/expr.c:664-686 | a second call changes nothing, for every expression |
| KconfigDups.NothingToJoin | nemu/tools/kconfig/expr.c:596-651 | a pass that counts no join has found no join between any two operands, in either order, nor inside any operand |
| KconfigDups.EliminateDupsComplete | nemu/tools/kconfig/expr.c:653-686 | in the result no two operands can be joined any more, at any level of && and \|\| reached through && and \|\| |
| KconfigJoins.JoinIs | nemu/tools/kconfig/expr.c:431-587 | which operands are joined, and into what: equal ones, and exactly the pairs of a table of seven rules in either order (s \|\| !s for a bool; two of the three values of a tristate; s next to s=y, s!=n or s!=m; a=b next to a!=c; two of three values ruled out) |
| KconfigJoins.PairJoined | nemu/tools/kconfig/expr.c:664-686 | two operands a rule joins come out of expr_eliminate_dups as the one the rule names |
| KconfigJoins.NoRuleLeft | nemu/tools/kconfig/expr.c:653-686 | no two operands of the outermost level of the result are equal or joined by a rule |
| KconfigClash.PairPassIs | nemu/tools/kconfig/expr.c:596-651 | what a pass over two operands comes to: the left one tidied, joined, then the right slot tidied and joined with the left |
| KconfigClash.PairExact | nemu/tools/kconfig/expr.c:664-686 | for two operands that are not && or \|\|, expr_eliminate_dups keeps the value if and only if they are not the pair expr_join_and gets wrong |
| KconfigClash.WrongOnClash | nemu/tools/kconfig/expr.c:540-553 | an expression whose value changes: a='y' && a!="2" for a tristate a becomes a='y', which is y where the original is n |
| KconfigClash.WrongOnHiddenClash | nemu/tools/kconfig/expr.c:472-477 | one in which nothing clashes until a join has brought in a test: (a='m' \|\| a='n') && a="2" |
| KconfigDups.Simplifier.ExprEliminateDups1 | nemu/tools/kconfig/expr.c:596-651 | the walk itself, storing into two slots of one tree and raising trans_count at each join: it computes the function proved above and counts exactly its joins |
| KconfigDups.Simplifier.ExprEliminateDups | nemu/tools/kconfig/expr.c:664-686 | the fixpoint loop with the global trans_count: returns the function whose meaning is proved above, restores trans_count, terminates |
| KconfigTransform.Transform | nemu/tools/kconfig/expr.c:694-849 | expr_transform terminates although De Morgan re-enters with more nodes: a weight that counts NOT three times never grows |
| KconfigTransform.TransformCorrect | nemu/tools/kconfig/expr.c:694-849 | expr_transform keeps the value under every valuation |
| KconfigTransform.TransformNormal | nemu/tools/kconfig/expr.c:760-843 | in the result every NOT stands on a non-constant symbol and no boolean is tested against y, m or n |
| KconfigTransform.TransformFixesNormal | nemu/tools/kconfig/expr.c:694-849 | expr_transform leaves an expression alone if and only if it is in that form |
| KconfigTransform.TransformIdempotent | nemu/tools/kconfig/expr.c:694-849 | a second call changes nothing |
| KconfigMenu.CompareNoRounds | nemu/tools/kconfig/expr.c:922-985 | expr_trans_compare(e, =/!=, n) says whether e is n with every m read as y, for every expression |
| KconfigMenu.CompareNoExact | nemu/tools/kconfig/expr.c:922-985 | so it says whether e is n if and only if reading m as y does not move e to or from n |
| KconfigMenu.CompareNoNegation | nemu/tools/kconfig/expr.c:953-954 | for a NOT of anything without string symbols and without m under a further NOT it is right if and only if the operand is not m |
| KconfigMenu.CompareNoCorrect | nemu/tools/kconfig/expr.c:922-985 | it is right under every valuation if every NOT stands over booleans, y, n and comparisons only |
| KconfigMenu.SupersetSound | nemu/tools/kconfig/expr.c:221-241 | if expr_eliminate_eq(&dep, &dep2) leaves dep2 as yes, the original dep is at most the original dep2 under every valuation |
| KconfigMenu.PrepareRounds | nemu/tools/kconfig/menu.c:479-480 | trans_compare, transform and eliminate_dups together: y where the dependency with m read as y is not n, n elsewhere |
| KconfigMenu.SubmenuSoundRounded | nemu/tools/kconfig/menu.c:456-488 | the automatic submenu test with m read as y: it succeeds only if the entry is n wherever the parent is, whatever is negated |
| KconfigMenu.SubmenuSound | nemu/tools/kconfig/menu.c:456-488 | read as it stands the test is sound when NOTs stand over booleans, y, n and comparisons only: the entry is invisible wherever the parent is |
| KconfigMenu.SubmenuUnsound | nemu/tools/kconfig/menu.c:456-488 | and not otherwise: !a && b passes the test against a=n && b for any two tristates, yet with a at m and b at y the entry is m and the parent n |
| KconfigMenu.SubmenuOfEqualDependency | nemu/tools/kconfig/menu.c:480-488 | but not complete: exactly which dependencies pass the test against themselves, by what is made of them: y, && trees without n, \|\| trees with y |
| KconfigMenu.SubmenuOfSameSymbol | nemu/tools/kconfig/menu.c:480-488 | a dependency that is a single bool or tristate symbol does not pass against itself |
| KconfigSubmenu.NotBin | nemu/tools/kconfig/expr.c:794-811 | expr_transform of a negated && or \|\| is the dual of the transformed negations |
| KconfigSubmenu.NotNot | nemu/tools/kconfig/expr.c:760-769 | expr_transform drops a double negation at any depth |
| KconfigSubmenu.CompareFlips | nemu/tools/kconfig/expr.c:922-985 | once transformed, comparing with != n is the negation of comparing with = n |
| KconfigSubmenu.ComparedAgain | nemu/tools/kconfig/expr.c:922-985 | and translating what is already made of comparisons changes nothing more |
| KconfigSubmenu.PreparedSame | nemu/tools/kconfig/menu.c:479-480 | (!x \|\| c) && b and (x=n \|\| c) && b come out of translation and transformation alike, for every x |
| KconfigSubmenu.LonePass | nemu/tools/kconfig/expr.c:596-651 | a pass leaves an operand alone that tests a symbol no other operand mentions |
| KconfigSubmenu.LoneDups | nemu/tools/kconfig/expr.c:664-686 | and so does expr_eliminate_dups: what comes out still ends in that operand, unless it is that operand or n |
| KconfigSubmenu.PlainNotsNeeded | nemu/tools/kconfig/menu.c:456-488 | whatever x is m at some valuation without m under its own NOTs: (!x \|\| c) && b passes the test against (x=n \|\| c) && b although there the entry is m and the parent n |
| KconfigSuperset.Untouched | nemu/tools/kconfig/expr.c:150-190 | levels without a common operand come out of __expr_eliminate_eq as they went in |
| KconfigSuperset.EliminateEqIs | nemu/tools/kconfig/expr.c:221-241 | what expr_eliminate_eq leaves of any two trees without y or n among their operands: two && (or two \|\|) lose the operands they share, each as often as both have it; where one tree is a level that has the other as an operand (the first tree tried first), that operand goes, once, and the unit is left of the other tree; everything else stays as it is |
| KconfigSuperset.SupersetExact | nemu/tools/kconfig/expr.c:221-241 | so the second tree comes out as y if and only if it is y, or the first is an && and every operand of the second (or the second itself, if it is no &&) is an operand of the first, as often |
| KconfigSuperset.DupsClean | nemu/tools/kconfig/expr.c:664-686 | expr_eliminate_dups brings in no y or n among operands |
| KconfigSuperset.PrepareClean | nemu/tools/kconfig/menu.c:479-480 | nor does the whole preparation, for a dependency in which no bool is compared with m |
| KconfigSuperset.TransformedTests | nemu/tools/kconfig/expr.c:700-757 | after expr_transform no bool is compared with m |
| KconfigSuperset.SubmenuExact | nemu/tools/kconfig/menu.c:470-488 | exactly when an entry passes: the parent always shows, or the dependency of the entry, prepared, is an && that has every operand of the prepared dependency of the parent, as often |
| KconfigSuperset.ConjunctPasses | nemu/tools/kconfig/menu.c:470-488 | d && b against a tristate b that d does not mention: it passes unless b alone or n is left of it |
| KconfigSuperset.WiderPasses | nemu/tools/kconfig/menu.c:470-475 | so it passes whenever d, made of symbols, can be n while b is not, and both can be other than n at once |
| KconfigSuperset.OrPasses | nemu/tools/kconfig/menu.c:470-475 | the example of the comment: (s \|\| q) && r passes against r, and so does s && r |
| KconfigSymbol.WalkFalls | nemu/tools/kconfig/symbol.c:1130-1211 | along dependencies ranks fall, so a ranked symbol lies on no cycle |
| KconfigSymbol.RankableGrows | nemu/tools/kconfig/symbol.c:1171-1210 | a symbol whose dependencies have all been visited without finding a cycle can be ranked above them |
| KconfigSymbol.ChainCloses | nemu/tools/kconfig/symbol.c:1255-1258 | meeting a symbol that carries SYMBOL_CHECK closes a cycle along the dep_stack list |
| KconfigSymbol.RankableAcyclic | nemu/tools/kconfig/parser.y:514-517 | visiting all symbols without finding a cycle rules cycles out |
| KconfigSymbol.RankableAll | nemu/tools/kconfig/parser.y:514-517 | and gives every symbol a rank above its dependencies |
| KconfigSymbol.DependencyChecker.constructor | nemu/tools/kconfig/symbol.c:1012-1017 | the checker starts with all flags clear and an empty stack |
| KconfigSymbol.DependencyChecker.SymCheckDeps | nemu/tools/kconfig/symbol.c:1250-1279 | sym_check_deps: a returned symbol lies on a cycle; without one the symbol is visited; flags and check_top are as before the call |
| KconfigSymbol.DependencyChecker.SymCheckSymDeps | nemu/tools/kconfig/symbol.c:1273-1276 | flag, visit, unflag: the same contract around sym_check_sym_deps |
| KconfigSymbol.DependencyChecker.SymCheckSymDepsBody | nemu/tools/kconfig/symbol.c:1165-1211 | visits dir_dep, rev_dep, implied and the properties in the order of the code; on success every dependency is visited |
| KconfigSymbol.DependencyChecker.SymCheckReverseDeps | nemu/tools/kconfig/symbol.c:1178-1186 | the rev_dep and implied part |
| KconfigSymbol.DependencyChecker.SymCheckProps | nemu/tools/kconfig/symbol.c:1190-1205 | the property loop, skipping choice, select and imply |
| KconfigSymbol.DependencyChecker.SymCheckProp | nemu/tools/kconfig/symbol.c:1194-1204 | visibility of a property, and the value of a default; nothing of a choice, select or imply (KconfigSelect.DependsOn) |
| KconfigSymbol.DependencyChecker.SymCheckExprDeps | nemu/tools/kconfig/symbol.c:1130-1162 | visits the symbols of an expression from left to right, stopping at the first cycle |
| KconfigSymbol.CheckAllSymbols | nemu/tools/kconfig/parser.y:514-517 | no error is counted, whatever the order of the symbols, if and only if the dependency graph is acyclic; afterwards no SYMBOL_CHECK is set and check_top is restored |
| KconfigSelect.DependsOn | nemu/tools/kconfig/symbol.c:1165-1211 | what a symbol depends on: what dir_dep, rev_dep and implied mention, the conditions of its properties, the values of its defaults, and nothing else |
| KconfigSelect.StripKeepsCycles | nemu/tools/kconfig/symbol.c:1190-1193 | taking choice, select and imply properties out of every symbol changes neither the graph nor whether it has a cycle |
| KconfigSelect.ValuesKeepCycles | nemu/tools/kconfig/symbol.c:1199-1203 | nor do the values of properties that are no defaults |
| KconfigSelect.SelectDependencies | nemu/tools/kconfig/menu.c:412-420 | what `select b if c` or `imply b if c` in the entry of a adds: b depends on a and on what c mentions, and no other symbol on anything more |
| KconfigSelect.SelectMakesCycle | nemu/tools/kconfig/menu.c:412-420 | added to an acyclic table it makes a cycle if and only if a, or a symbol that c mentions, is b or reaches b along dependencies |
| KconfigValue.EvalLocal | nemu/tools/kconfig/expr.c:1030-1101 | the value of an expression depends on its symbols only |
| KconfigValue.ValueLocal | nemu/tools/kconfig/symbol.c:325-447 | the value of a symbol depends only on what sym_check_deps follows |
| KconfigValue.ValueBounds | nemu/tools/kconfig/symbol.c:380-413 | a value is never below rev_dep, never m for what counts as a boolean, and never above the visibility when a user value is visible and nothing selects the symbol |
| KconfigValue.MeaningUnfolds | nemu/tools/kconfig/symbol.c:325-447 | the recursive definition, on an acyclic graph: each symbol from its visibility, user value, default, implied and selected values |
| KconfigValue.MeaningSolves | nemu/tools/kconfig/symbol.c:325-447 | it satisfies the equations of all symbols |
| KconfigValue.SolutionUnique | nemu/tools/kconfig/symbol.c:325-447 | and is the only assignment of values that does |
| KconfigValue.SymbolValues.constructor | nemu/tools/kconfig/symbol.c:469-478 | after sym_clear_all_valid only y, m and n are valid |
| KconfigValue.SymbolValues.SymCalcValue | nemu/tools/kconfig/symbol.c:325-447 | memoised sym_calc_value: afterwards the symbol holds its meaning, and finished symbols keep theirs |
| KconfigValue.SymbolValues.ExprCalcValue | nemu/tools/kconfig/expr.c:1030-1101 | expr_calc_value, calling sym_calc_value on the way: the value of the expression under the meanings |
| KconfigValue.SymbolValues.CalcTristate | nemu/tools/kconfig/symbol.c:365-413 | the tristate branch: visibility, user value, default, imply and select combined |
| KconfigValue.SymbolValues.CalcReverse | nemu/tools/kconfig/symbol.c:220-237 | rev_dep and implied, n if absent |
| KconfigValue.SymbolValues.CalcPrompts | nemu/tools/kconfig/symbol.c:184-203 | the visibility loop over the prompts |
| KconfigValue.SymbolValues.CalcDefault | nemu/tools/kconfig/symbol.c:83-93 | the first default that is visible, limited by its visibility |
| KconfigValue.CalcAll | nemu/tools/kconfig/symbol.c:325-447 | calculating any symbols in any order gives each the value of the recursive definition |
| KconfigMeaning.UserDecides | nemu/tools/kconfig/symbol.c:380-413 | with a user value and a visible prompt, visibility being the greatest of the conditions of the prompts, the symbol is worth the greatest value below both, raised to rev_dep, with m read as y for what counts as a bool |
| KconfigMeaning.DefaultDecides | nemu/tools/kconfig/symbol.c:390-413 | otherwise the first default whose condition is not n gives its value, never more than the condition (n without one); what is implied lifts that, never above dir_dep; rev_dep raises it; m becomes y for what counts as a bool |
| KconfigMeaning.ImpliedBetween | nemu/tools/kconfig/symbol.c:399-404 | without a user value, and with rev_dep n, an implied symbol is worth at most dir_dep and at least the lesser of dir_dep and what is implied |
| KconfigMeaning.OthersAreFixed | nemu/tools/kconfig/symbol.c:349-361 | y, m and n are worth themselves, anything that is not bool or tristate counts as n |
| KconfigMeaning.RulesApply | nemu/tools/kconfig/symbol.c:83-93 | a visibility and a default value as these rules describe them exist for every symbol |
| KconfigCompare.OneOfThree | nemu/tools/kconfig/expr.c:1080-1096 | exactly one of <, = and > holds between two symbols, and !=, >= and <= are the negations |
| KconfigCompare.TurnedRound | nemu/tools/kconfig/expr.c:1053-1078 | a < b is b > a and = is symmetric, as far as strcmp is |
| KconfigCompare.SymbolsByValue | nemu/tools/kconfig/expr.c:1000-1014 | bool and tristate symbols compare by value, n below m below y |
| KconfigCompare.NumbersByValue | nemu/tools/kconfig/expr.c:1000-1028 | against a constant that reads as a number they compare as 0, 1 and 2 |
| KconfigCompare.LettersByText | nemu/tools/kconfig/expr.c:1062-1070 | against the constants n, m and y equality goes by value, but order by the letters, where m comes before n: < is right if and only if the two are not n and m |
| KconfigCompare.NoIsAtLeastMod | nemu/tools/kconfig/expr.c:1062-1070 | so a symbol that is n satisfies >= m |
| KconfigString.StrCSpn | nemu/tools/kconfig/symbol.c:904-905 | stops at the first quote or backslash, or at the end |
| KconfigString.StrCat | nemu/tools/kconfig/symbol.c:901-914 | strcat and strncat: the string in the buffer grows by exactly the text appended, if there is room |
| KconfigString.BufferSize | nemu/tools/kconfig/symbol.c:882-896 | the length computed first is the length of the text plus one for every quote or backslash plus three |
| KconfigString.CopyPiece | nemu/tools/kconfig/symbol.c:903-912 | one turn of the copying loop extends the output by the escaped form of what it read, within the buffer |
| KconfigString.CopyEscape | nemu/tools/kconfig/symbol.c:910-911 | a quote or backslash is appended with a backslash before it |
| KconfigString.EscapeStringValue | nemu/tools/kconfig/symbol.c:875-916 | the buffer holds the quoted text and has room for exactly its terminator more |
| KconfigString.EscapedSame | nemu/tools/kconfig/symbol.c:904-911 | escaping changes a text if and only if it has a quote or a backslash in it |
| KconfigString.UnescapeEscaped | nemu/tools/kconfig/confdata.c:264-270 | reading an escaped text up to its closing quote gives the original text, whatever follows on the line |
| KconfigString.WrittenThenRead | nemu/tools/kconfig/confdata.c:261-280 | unescaping inverts sym_escape_string_value for every NUL-free string |
| KconfigString.StrPBrk | nemu/tools/kconfig/confdata.c:264 | the next quote or backslash of the string, if any |
| KconfigString.ShiftDown | nemu/tools/kconfig/confdata.c:269 | memmove one place down: the exact new buffer |
| KconfigString.ReadPiece | nemu/tools/kconfig/confdata.c:264-270 | one turn of the in-place loop keeps the value still to be read together with the value read so far |
| KconfigString.SetStringValue | nemu/tools/kconfig/confdata.c:261-285 | the S_STRING branch on any buffer: not a string, unterminated, or the unescaped value, left in the buffer |
| BlockCache.AddressParts | ics-workbench-lab4/cachesim/cache.c:30-47 | the masks cut an address into tag, group and offset, and tag and group rebuild the block number |
| BlockCache.WriteBackCoherent | ics-workbench-lab4/cachesim/cache.c:72-80 | writing a dirty line back keeps the contents and the invariant |
| BlockCache.FillCoherent | ics-workbench-lab4/cachesim/cache.c:82-88 | reading an absent block over a clean or invalid line keeps the invariant: one line per block |
| BlockCache.StoreCoherent | ics-workbench-lab4/cachesim/cache.c:139-148 | storing into a valid line stores into the contents, whatever memory holds |
| BlockCache.GroupStretch | ics-workbench-lab4/cachesim/cache.c:49-54 | the lines an address may be in are those from group * ways to the next group |
| BlockCache.TagDecides | ics-workbench-lab4/cachesim/cache.c:96-98 | within the group of an address, a line holds its block if and only if the tags agree |
| BlockCache.LineStore.constructor | ics-workbench-lab4/cachesim/cache.c:179-203 | init_cache: all lines invalid and clean, invariant established, for every geometry and any tags left in the lines |
| BlockCache.LineStore.FindLine | ics-workbench-lab4/cachesim/cache.c:93-106 | the search loop finds the line that holds the block, and finds one if and only if the block is held |
| BlockCache.LineStore.MemWrite | ics-workbench-lab4/cachesim/mem.c:21-24 | mem_write replaces one block of memory |
| BlockCache.LineStore.WriteBack | ics-workbench-lab4/cachesim/cache.c:72-80 | wirte_cache: only the dirty flag changes, and the invariant is kept |
| BlockCache.LineStore.ReadBlock | ics-workbench-lab4/cachesim/cache.c:82-88 | read_cache: the line holds the block of the address, valid and clean; the block it held before is gone, and nothing else is |
| BlockCache.LineStore.PickVictim | ics-workbench-lab4/cachesim/cache.c:107-110 | the line of the group that rand() names |
| BlockCache.VictimTurns | ics-workbench-lab4/cachesim/cache.c:68-70 | the values of rand() name the lines of the group in turn, full or empty |
| BlockCache.LineStore.Refill | ics-workbench-lab4/cachesim/cache.c:107-118 | the miss path: victim written back if and only if valid and dirty, then refilled; which blocks are held and which are dirty afterwards, exactly |
| BlockCache.LineStore.StoreLine | ics-workbench-lab4/cachesim/cache.c:139-147 | changing the data of a held line changes just that block of the contents, and makes just that block dirty |
| Cachesim.WordInBlock | ics-workbench-lab4/cachesim/cache.c:57-67 | an aligned word of a cached block is the word of memory at the same address, for reading and for writing |
| Cachesim.Simulator.constructor | ics-workbench-lab4/cachesim/mem.c:7-14 | both memories start equal, counters at zero |
| Cachesim.Simulator.Miss | ics-workbench-lab4/cachesim/cache.c:107-126 | 25 cycles for the block read and 6 for a write-back, which happens exactly when the block replaced is dirty; write-backs plus dirty lines are conserved |
| Cachesim.Simulator.Get4Bytes | ics-workbench-lab4/cachesim/cache.c:57-60 | reads the word the flat memory holds |
| Cachesim.Simulator.CacheRead | ics-workbench-lab4/cachesim/cache.c:91-128 | returns the word of the flat memory for every choice of victim; counts a hit if and only if the block was held, and charges hits, misses and write-backs exactly; the blocks held and dirty afterwards |
| Cachesim.Simulator.Write4Bytes | ics-workbench-lab4/cachesim/cache.c:61-67 | masked store: the contents change as flat memory would |
| Cachesim.Simulator.CacheWrite | ics-workbench-lab4/cachesim/cache.c:132-164 | the contents change as flat memory would, for every choice of victim; hits, cycles and the blocks held and dirty afterwards exactly |
| Cachesim.Simulator.CpuRead | ics-workbench-lab4/cachesim/cpu.c:12-15 | cpu_read returns what the uncached read of the same memory returns, with the exact hit, write-back and cycles |
| Cachesim.Simulator.CpuWrite | ics-workbench-lab4/cachesim/cpu.c:17-20 | cpu_write changes the contents as the uncached write does, with the exact hit, write-back and cycles |
| Cachesim.Simulator.CpuUncacheRead | ics-workbench-lab4/cachesim/cpu.c:22-24 | the specification read, byte by byte: the bytes from addr on up to the end of the word, zeros above len |
| Cachesim.Simulator.CpuUncacheWrite | ics-workbench-lab4/cachesim/cpu.c:26-28 | the specification write |
| Cachesim.Simulator.TraceExec | ics-workbench-lab4/cachesim/main.c:36-51 | the assertion of trace_exec holds after every run, the two memories stay in step, and every counter changes exactly as the blocks held say |
| Cachesim.Simulator.RunTrace | ics-workbench-lab4/cachesim/main.c:53-66 | over every trace, geometry and sequence of victims: every checked read agrees, the contents are those of a flat memory, cycles = accesses + 25 * misses + 6 * write-backs, write-backs + dirty lines <= writes, and hits and write-backs are those of the blocks held as the trace goes on |
| Cachesim.HeldAfter | ics-workbench-lab4/cachesim/cache.c:91-164 | the block of an access is in the cache after it |
| Cachesim.Charges | ics-workbench-lab4/cachesim/cpu.c:12-20 | an access takes one cycle if its block is held, 26 if not, and 32 if the line it takes has to be written back besides; only the first is a hit |
| Cachesim.HitAgain | ics-workbench-lab4/cachesim/cpu.c:12-20 | an access to the block of the access just before it is a hit, writes nothing back and takes one cycle |
| Cachesim.OneBlockHits | ics-workbench-lab4/cachesim/cpu.c:12-20 | a trace that stays in one block misses once if the block was absent and never otherwise |
| Cachesim.HeldIff | ics-workbench-lab4/cachesim/cache.c:91-164 | from an empty cache, after any trace: a block is in a line if and only if some access has brought it there and no later miss has taken that line |
| Cachesim.Simulator.CheckDiff | ics-workbench-lab4/cachesim/main.c:68-75 | reading all words back finds no difference |
| Cachesim.CpuFlatWriteBytes | ics-workbench-lab4/cachesim/cpu.c:26-28 | byte for byte: a write of len bytes changes the bytes addr .. addr + len - 1 inside the word, and no others |
| Cachesim.CpuFlatReadBytes | ics-workbench-lab4/cachesim/cpu.c:22-24 | byte for byte: what a read returns |
| Cachesim.ReadAfterWrite | ics-workbench-lab4/cachesim/cpu.c:22-28 | a read of what was just written returns the written bytes |
| NemuCache.LeRoundTrip | nemu/include/memory/host.h:21-39 | the value of the bytes a store of len bytes writes is the data modulo 256^len |
| NemuCache.FieldInBlock | nemu/src/memory/paddr.c:649-667 | storing inside a block is storing in memory |
| NemuCache.FieldOfBlock | nemu/src/memory/paddr.c:632-648 | reading inside a block is reading memory |
| NemuCache.CachedMemory.Fetch | nemu/src/memory/paddr.c:693-718 | hit or refill: a line that holds the block; refilled only if the block was absent, and which blocks are held afterwards |
| NemuCache.CachedMemory.CacheRead | nemu/src/memory/paddr.c:691-728 | what pmem_read returns on the same contents, for accesses within one 64-byte block, and which blocks are held afterwards |
| NemuCache.CachedMemory.CacheWrite | nemu/src/memory/paddr.c:732-764 | what pmem_write does to the contents, and which blocks are held and dirty afterwards |
| NemuCache.CachedMemory.Run | nemu/src/memory/paddr.c:476-520 | any run of paddr_read and paddr_write on pmem returns the same values with and without the cache, for every choice of victims |
| Int64.ClzSi2 | abstract-machine/klib/src/int64.c:640-669 | the number of leading zero bits of a nonzero word |
| Int64.CtzSi2 | abstract-machine/klib/src/int64.c:675-709 | the number of trailing zero bits of a nonzero word |
| Int64.ClzDi2 | abstract-machine/klib/src/int64.c:725-731 | the same for 64 bits from two halves |
| Int64.CtzDi2 | abstract-machine/klib/src/int64.c:717-723 | the same for 64 bits from two halves |
| Int64.PowerOfTwoTest | abstract-machine/klib/src/int64.c:491 | d & (d - 1) is zero exactly for powers of two |
| Int64.SignBit | abstract-machine/klib/src/int64.c:619-628 | for r < 2 * d and no overflow, the sign bit of d - r - 1 in 64 bits decides r >= d, also for d above 2^63 |
| Int64.Shl64 | abstract-machine/klib/src/int64.c:515-517 | the shift of 64 bits to the left, put together from 32-bit halves |
| Int64.Shr64 | abstract-machine/klib/src/int64.c:518-520 | the shift of 64 bits to the right, put together from 32-bit halves |
| Int64.ShiftFour | abstract-machine/klib/src/int64.c:614-618 | r:q shifted by one with carry coming in, across four words |
| Int64.ShiftApart | abstract-machine/klib/src/int64.c:550-571 | n << (64 - sr) and n >> sr in all three ranges of sr |
| Int64.Mask | abstract-machine/klib/src/int64.c:619-628 | the branch-free subtraction: carry is 1 exactly when r >= d, and r is reduced by d just then |
| Int64.SubtractIfFits | abstract-machine/klib/src/int64.c:619-628 | the same on halves |
| Int64.BitMoves | abstract-machine/klib/src/int64.c:614-618 | one bit moves from q to r, and r does not overflow 64 bits |
| Int64.DivideLoop | abstract-machine/klib/src/int64.c:605-633 | the shift-subtract loop returns quotient and remainder |
| Int64.ShortDividend | abstract-machine/klib/src/int64.c:439-458 | both cases with n.high zero |
| Int64.RoundDivisor | abstract-machine/klib/src/int64.c:460-521 | the cases with d.low zero |
| Int64.DivideByBits | abstract-machine/klib/src/int64.c:505-520 | equal number of words: result 0 and n, or the loop |
| Int64.ShortDivisor | abstract-machine/klib/src/int64.c:524-572 | the cases with d.high zero |
| Int64.DivideByPower | abstract-machine/klib/src/int64.c:530-540 | division by a power of two, 1 included |
| Int64.LongDivisor | abstract-machine/klib/src/int64.c:573-603 | both divisor words nonzero |
| Int64.UDivModDi4 | abstract-machine/klib/src/int64.c:427-634 | for every a and every b != 0: the quotient is floor(a / b) and the remainder a mod b |
| Int64.TruncLaws | abstract-machine/klib/src/int64.c:367-404 | division toward zero: a = q * b + r, \|r\| < \|b\|, and r has the sign of a |
| Int64.TruncFits | abstract-machine/klib/src/int64.c:367-404 | the quotient fits 64 bits if and only if it is not INT64_MIN / -1; the remainder always fits |
| Int64.DivDi3 | abstract-machine/klib/src/int64.c:369-379 | __divdi3 truncates toward zero, and wraps for INT64_MIN / -1 |
| Int64.ModDi3 | abstract-machine/klib/src/int64.c:393-404 | __moddi3 is the remainder of division toward zero, always |
| Int64.DivModDi4 | abstract-machine/klib/src/int64.c:383-389 | __divmoddi4: both results, the remainder also for INT64_MIN / -1 |
| CoremarkList.CalcFunc | am-kernels/benchmarks/coremark/src/core_list_join.c:63-95 | the lower byte becomes flag plus result, the upper byte never changes, a cached result is returned as it is, and so are the low seven bits for operations 2 to 7 |
| CoremarkList.Compare | am-kernels/benchmarks/coremark/src/core_list_join.c:101-118 | cmp_complex and cmp_idx: the difference each returns (of the cached results, of the indices), and what each does to the two data16 fields; any other comparator may return and write anything |
| CoremarkList.CompareCells | am-kernels/benchmarks/coremark/src/core_list_join.c:101-118 | what a cell counted for at its first comparison it counts for ever after: the cached result, or idx |
| CoremarkList.ChooseP | am-kernels/benchmarks/coremark/src/core_list_join.c:456-469 | the three-way choice, on the conditions of the code |
| CoremarkList.Append | am-kernels/benchmarks/coremark/src/core_list_join.c:471-477 | linking an element behind the tail keeps the list linked |
| CoremarkList.TakeP | am-kernels/benchmarks/coremark/src/core_list_join.c:463-465 | taking the head of p on <= keeps a stable order: everything taken before everything left |
| CoremarkList.TakeQ | am-kernels/benchmarks/coremark/src/core_list_join.c:466-469 | taking the head of q on > keeps a stable order |
| CoremarkList.MoveP | am-kernels/benchmarks/coremark/src/core_list_join.c:460-477 | one element moves from p to the output; the three stretches stay linked and together all the cells |
| CoremarkList.MoveQ | am-kernels/benchmarks/coremark/src/core_list_join.c:457-477 | one element moves from q to the output |
| CoremarkList.MergeStep | am-kernels/benchmarks/coremark/src/core_list_join.c:454-478 | one turn of the merge loop keeps its invariant and lowers what is left |
| CoremarkList.MergeRuns | am-kernels/benchmarks/coremark/src/core_list_join.c:450-478 | two adjacent runs become one run of exactly their cells, in order and stable by what was compared, every cell compared at least once |
| CoremarkList.MergedPair | am-kernels/benchmarks/coremark/src/core_list_join.c:439-482 | half way through a pass: the runs left of the old width, the runs done of the doubled width |
| CoremarkList.StepAlong | am-kernels/benchmarks/coremark/src/core_list_join.c:441-448 | q stands insize cells along, or at the end, and psize counts the steps |
| CoremarkList.PassTurn | am-kernels/benchmarks/coremark/src/core_list_join.c:439-482 | one turn of a pass |
| CoremarkList.MergePairs | am-kernels/benchmarks/coremark/src/core_list_join.c:433-482 | the loop of a pass |
| CoremarkList.Pass | am-kernels/benchmarks/coremark/src/core_list_join.c:432-488 | a pass doubles the width of the runs; one merge only if the list is one run |
| CoremarkList.Passes | am-kernels/benchmarks/coremark/src/core_list_join.c:426-491 | the outer loop ends with one run of all the cells |
| CoremarkList.MergeSort | am-kernels/benchmarks/coremark/src/core_list_join.c:426-496 | on every nonempty acyclic list: terminates and relinks exactly the original cells whatever the comparator answers; with cmp_idx sorted by idx and stable, all data regenerated if there are two or more cells; with cmp_complex sorted by the cached results and stable, every result cached if there are two or more cells; neither touches an upper byte |
| CoremarkBench.Find | am-kernels/benchmarks/coremark/src/core_list_join.c:370-380 | the first cell that matches by idx or by low byte, or NULL if none does |
| CoremarkBench.ReversedAt | am-kernels/benchmarks/coremark/src/core_list_join.c:395-404 | where each cell of the reversed list comes from |
| CoremarkBench.Reverse | am-kernels/benchmarks/coremark/src/core_list_join.c:395-404 | the list linked in reverse order |
| CoremarkBench.Remove | am-kernels/benchmarks/coremark/src/core_list_join.c:316-327 | the data of the cell leaves the list: the remaining cells show all the other data in order |
| CoremarkBench.UndoRemove | am-kernels/benchmarks/coremark/src/core_list_join.c:345-355 | the removed data comes back at its place |
| CoremarkBench.RemoveAndUndo | am-kernels/benchmarks/coremark/src/core_list_join.c:316-355 | together they restore every link and every data pointer |
| CoremarkBench.ToFront | am-kernels/benchmarks/coremark/src/core_list_join.c:157-162 | moving the cell behind the found one to second place: the exact new order |
| CoremarkBench.FindOne | am-kernels/benchmarks/coremark/src/core_list_join.c:144-165 | one search: the list reversed, with the cell behind the found one moved to second place; no data touched |
| CoremarkBench.SearchedAt | am-kernels/benchmarks/coremark/src/core_list_join.c:144-162 | cell by cell where one search puts what: the order reversed, but when a cell other than the first is found the one before it comes to second place and those in between move down |
| CoremarkBench.NextIdxWraps | am-kernels/benchmarks/coremark/src/core_list_join.c:164-165 | info.idx++ on 16 bits |
| CoremarkBench.IdxAfter | am-kernels/benchmarks/coremark/src/core_list_join.c:142-165 | info.idx grows by one with each search until it wraps; then it is negative and stays |
| CoremarkBench.FindAll | am-kernels/benchmarks/coremark/src/core_list_join.c:142-169 | after all searches: the exact order of the cells and the exact info.idx that searching, reversing and moving on sequences gives |
| CoremarkBench.Shuffle | am-kernels/benchmarks/coremark/src/core_list_join.c:142-186 | up to the last sort: without a positive finder_idx exactly the order the searches leave, no data changed; with one that order sorted stably by the cached results, every result cached; data pointers and upper bytes unchanged |
| CoremarkBench.UniqueOrder | am-kernels/benchmarks/coremark/src/core_list_join.c:187-188 | a list in rising order is the only non-falling order of its cells |
| CoremarkBench.SortByIndex | am-kernels/benchmarks/coremark/src/core_list_join.c:187-188 | the final sort: non-falling idx and every data16 regenerated |
| CoremarkBench.EqualBytes | am-kernels/benchmarks/coremark/src/core_list_join.c:113-116 | regenerating leaves a 16-bit word alone if and only if its two bytes are equal |
| CoremarkBench.BenchList | am-kernels/benchmarks/coremark/src/core_list_join.c:125-199 | with three or more cells: afterwards every cell has its own data again, with data16 regenerated from the upper byte, in non-falling idx order; with 16-bit data and no idx twice the list is as it was before, cell for cell, link for link and datum for datum, if and only if idx rises and the two bytes of every data16 agree |
| CoremarkBench.FailingList | am-kernels/benchmarks/coremark/src/core_list_join.c:131 | a list that does not come back: idx 1, 0, 2 with data 1, 0, 0 comes back as idx 0, 1, 2 with data 0 |
| ThreadOs.Successor | am-kernels/kernels/thread-os/thread-os.c:67 | the ring built in main |
| ThreadOs.SearchEnds | am-kernels/kernels/thread-os/thread-os.c:49-51 | where the search stops: the next task of the processor, or its first one |
| ThreadOs.NobodyServes | am-kernels/kernels/thread-os/thread-os.c:49-51 | the search has something to find if and only if the processor number is below the number of tasks |
| ThreadOs.Scheduler.OnInterrupt | am-kernels/kernels/thread-os/thread-os.c:45-53 | the search loop terminates and the handler changes currents and contexts exactly as the transition does; it returns the context of a task the processor owns |
| ThreadOs.Scheduler.TurnOn | am-kernels/kernels/thread-os/thread-os.c:49-51 | the do-while loop ends at the next task of the processor |
| ThreadOs.StartInv | am-kernels/kernels/thread-os/thread-os.c:55-70 | the start-up state satisfies the invariant |
| ThreadOs.LockKept | am-kernels/kernels/thread-os/thread-os.c:22-33 | every instruction of a task keeps the lock sound: locked is set just when one task is between lock and unlock, and never two are; that it is taken is stated by ThreadProgress.LockTaken |
| ThreadOs.StepInv | am-kernels/kernels/thread-os/thread-os.c:22-53 | every step of every processor keeps the invariant |
| ThreadOs.RunInv | am-kernels/kernels/thread-os/thread-os.c:22-53 | and so does every interleaving of any length |
| ThreadOs.AlwaysSafe | am-kernels/kernels/thread-os/thread-os.c:22-53 | for any number of tasks and at most as many processors, in every interleaving from start-up: no two processors execute the same task, each resumes a task exactly where it left off, and at most one task holds the lock |
| ThreadOs.OwnerSaves | am-kernels/kernels/thread-os/thread-os.c:48 | the context of a task is written only by an interrupt of the processor index mod n, with the true state of the task |
| ThreadOs.AfterInterrupts | am-kernels/kernels/thread-os/thread-os.c:45-53 | where a processor stands on the ring depends on the number of its own interrupts alone |
| ThreadOs.CurrentComesRound | am-kernels/kernels/thread-os/thread-os.c:49-51 | from any task of its own a processor comes round to any other |
| ThreadOs.RoundRobin | am-kernels/kernels/thread-os/thread-os.c:45-53 | after its first interrupt, every ceil(tasks / cpus) interrupts of a processor make it resume each of its tasks, in every interleaving |
| ThreadHandlers.TrapInterrupts | am-kernels/kernels/thread-os/thread-os.c:45-53 | entering the handler, with every handler under way thought finished, is the whole interrupt |
| ThreadHandlers.HandlerStutters | am-kernels/kernels/thread-os/thread-os.c:45-53 | each read and each write of shared memory inside the handler is then no step at all |
| ThreadHandlers.OutsideExecutes | am-kernels/kernels/thread-os/thread-os.c:22-33 | and an instruction of a task is the same instruction |
| ThreadHandlers.Atomic | am-kernels/kernels/thread-os/thread-os.c:45-53 | however the reads and writes of several handlers fall between one another, the run is one of handlers that ran one at a time |
| ThreadHandlers.AlwaysSafeApart | am-kernels/kernels/thread-os/thread-os.c:22-53 | so in every such interleaving no two processors execute the same task, each resumes a task where it left off, and at most one task holds the lock |
| ThreadHandlers.HandlerEnds | am-kernels/kernels/thread-os/thread-os.c:45-53 | a handler takes at most 6 * tasks + 5 reads and writes, whatever the other processors do |
| ThreadProgress.LockTaken | am-kernels/kernels/thread-os/thread-os.c:23 | a task that executes the exchange while no task is inside has the lock: it is about to print and locked is set |
| ThreadProgress.LockRefused | am-kernels/kernels/thread-os/thread-os.c:23 | while some task is inside, the exchange of another changes nothing |
| ThreadProgress.LockGivenBack | am-kernels/kernels/thread-os/thread-os.c:24-30 | a task inside is out after two instructions of its own, and the lock is free |
| ThreadProgress.DelayEnds | am-kernels/kernels/thread-os/thread-os.c:31 | after the delay a task is at the lock again |
| ThreadProgress.GoesOn | am-kernels/kernels/thread-os/thread-os.c:26-33 | while no other task is inside, every instruction of a task takes it one place on |
| ThreadProgress.BroughtIn | am-kernels/kernels/thread-os/thread-os.c:45-53 | interrupts alone bring any task to its processor, and no task moves meanwhile |
| ThreadProgress.LockFreed | am-kernels/kernels/thread-os/thread-os.c:22-53 | from every reachable state whoever has the lock can be brought to give it back |
| ThreadProgress.EveryPlaceReached | am-kernels/kernels/thread-os/thread-os.c:22-53 | from every reachable state each task can be brought to its processor at any place of its loop, and from there n instructions of its own take it n places round: lock, print, unlock, delay, lock |
| ThreadProgress.AlwaysProgress | am-kernels/kernels/thread-os/thread-os.c:22-53 | after any interleaving from start-up some continuation has any chosen task holding the lock |
| ThreadProgress.EveryRunInParts | am-kernels/kernels/thread-os/thread-os.c:45-53 | the converse of ThreadHandlers.Atomic: every run with handlers as single steps is a run of their reads and writes |
| ThreadProgress.EveryPlaceReachedApart | am-kernels/kernels/thread-os/thread-os.c:22-53 | from wherever the reads and writes of several handlers have come to, each task can still be brought to any place of its loop |
| Dispinfo.Mpown | abstract-machine/klib/src/stdio.c:13-21 | the power, whenever it fits the 32-bit word |
| Dispinfo.ValueOfDecimal | navy-apps/libs/libndl/NDL.c:211-216 | the value of the decimal text of v is v |
| Dispinfo.DecimalIsPadded | abstract-machine/klib/src/stdio.c:503-511 | taking digits from the highest by powers of ten yields the decimal text |
| Dispinfo.CountDigits | abstract-machine/klib/src/stdio.c:492-501 | the counting loop gives the number of digits |
| Dispinfo.PutDigits | abstract-machine/klib/src/stdio.c:492-511 | writes as many of the digits as fit |
| Dispinfo.FirstDigit | abstract-machine/klib/src/stdio.c:505-506 | division by the power of ten splits off the highest digit |
| Dispinfo.PutNumber | abstract-machine/klib/src/stdio.c:482-513 | sign and digits |
| Dispinfo.PutNegative | abstract-machine/klib/src/stdio.c:482-491 | the sign and the digits of a negative number, as many as fit |
| Dispinfo.Snprintf | abstract-machine/klib/src/stdio.c:436-602 | for formats of plain characters and %d: the formatted text cut to n - 1 characters, terminated, nothing beyond; the count written is returned |
| Dispinfo.DispinfoRead | nanos-lite/src/device.c:46-52 | the text of the display size, cut to the buffer |
| Dispinfo.FieldOf | navy-apps/libs/libndl/NDL.c:199-216 | a field printed is a field parsed, and the rest of the text is left over; a number above INT_MAX overflows |
| Dispinfo.ParseDispinfoText | navy-apps/libs/libndl/NDL.c:188-245 | the parser reads back the two numbers the printer wrote if both fit an int, and overflows otherwise |
| Dispinfo.SkipSpaces | navy-apps/libs/libndl/NDL.c:201-204 | skips exactly the spaces |
| Dispinfo.Begins | navy-apps/libs/libndl/NDL.c:199 | strncmp on the text: a prefix test |
| Dispinfo.ReadNumber | navy-apps/libs/libndl/NDL.c:211-216 | the value of the digits at the position and the position behind them; the int overflows on the way exactly when that value is above INT_MAX |
| Dispinfo.ReadField | navy-apps/libs/libndl/NDL.c:199-216 | one field; a failed assert exactly when the text is not one, an overflow exactly when its number does not fit |
| Dispinfo.ParseBuffer | navy-apps/libs/libndl/NDL.c:195-242 | on every terminated buffer: the two numbers, a failed assert or an int overflow, whichever comes first, as the grammar says |
| Dispinfo.ScreenSize | navy-apps/libs/libndl/NDL.c:188-245 | for all width and height below 2^31: printed, read and parsed, the two numbers arrive unchanged and no assert fails |
| InstDecode.PlainTest | nemu/include/cpu/decode.h:90-97 | inst & mask == key if and only if inst agrees with the pattern |
| InstDecode.TestIffAgrees | nemu/include/cpu/decode.h:90-97 | ((inst >> shift) & mask) == key if and only if inst agrees with the pattern at every bit that is not ?: trimming trailing ? loses nothing |
| InstDecode.PatternDecode | nemu/include/cpu/decode.h:31-60 | the compiled pattern for every string, or a panic exactly when a character is invalid or the pattern has 64 or more; the 64-bit registers do not overflow |
| InstDecode.InstPat | nemu/include/cpu/decode.h:90-97 | an instruction takes the branch of a pattern exactly when it agrees with it |
| InstDecode.QuadStep | nemu/include/cpu/decode.h:73-75 | appending a hexadecimal digit is appending four binary ones |
| InstDecode.PatternDecodeHex | nemu/include/cpu/decode.h:62-86 | pattern_decode_hex gives what pattern_decode gives on the same pattern written in binary |

## Left out

- KconfigDups.EliminateDupsCorrect: the condition looks only at which constants each symbol is tested against, not at where the tests stand, so it also excludes trees in which clashing tests never meet; on the constants alone it is exact (`KconfigClash.ClashFreeIsNeeded`), and so are the conditions for one join and for two operands (`KconfigDups.JoinAndExact`, `KconfigClash.PairExact`).
- KconfigCanon.ExprEqExact: where y or n is an operand below the two levels compared, no exact condition is given; expr_eq is then still sound (`KconfigEq.ExprEqSound`), and no canonical form can describe it (`KconfigCanon.NotTransitiveWithConstants`).
- KconfigMenu.CompareNoCorrect: does not cover a NOT over something that can be m, where expr_trans_compare is wrong at m; `KconfigMenu.CompareNoExact` has the exact condition for each valuation.
- KconfigMenu.SubmenuSound: does not cover NOTs over something that can be m, where the test is unsound (`KconfigSubmenu.PlainNotsNeeded`); `KconfigMenu.SubmenuSoundRounded` covers them with m read as y.  Both leave out comparisons that expr_eliminate_dups gets wrong.
- CoremarkList.CalcFunc: what core_bench_state and core_bench_matrix compute is an arbitrary 7-bit value, and the checksum in the results record is not modelled.
- CoremarkList.MergeSort: insize is unbounded, so lists too long for a 32-bit width are not excluded; the empty list, on which the code writes through a null tail, is.
- KconfigSuperset.SubmenuExact: a dependency that compares a bool with m is not covered; expr_transform, which menu_finalize applies to every dependency before, leaves no such comparison (`KconfigSuperset.TransformedTests`).
- KconfigSuperset.ConjunctPasses: b is a tristate; a bool becomes a bare symbol, for which only the exact condition on what is prepared is given (`KconfigSuperset.SubmenuExact`).
- CoremarkBench.BenchList: the checksum and counts it returns are not modelled, only what happens to the list; core_list_init and core_list_insert_new are not modelled.
- Dispinfo.Snprintf: %c, %x, %p, %s, other conversions and tabs are not modelled, nor a size of 0 or INT_MIN as an argument.
- Cachesim.Simulator.RunTrace: the 64-bit counters are unbounded, and accesses stay below MEM_SIZE with at most four bytes.
- NemuCache.CachedMemory.Run: accesses that cross a 64-byte block are excluded, as the code does not support them; device memory and tracing are not modelled.
- Int64.UDivModDi4: a zero divisor, undefined in C, is excluded.
- Memory management in expr.c (allocation, copies, free): trees are values.
- Kconfig choice groups, ranges, E_LIST, E_RANGE and string, int and hex symbols as values: only boolean and tristate symbols are evaluated.
- The flags SYMBOL_WRITE and SYMBOL_CHANGED, warnings about unmet dependencies and the change of modules_val while values are calculated.
- menu_finalize beyond the automatic submenu test, rewrite_m, and the dependency test expr_depends_symbol.
- printf, sprintf and the other members of stdio.c; events, frame buffer and file system of nanos-lite.
- Memory ordering: an atomic exchange, a read and a write are single steps of the interleaving, in one order for all processors; a task that waits for the lock may be overtaken for ever, so nothing says that it must get it, only that it can (`ThreadProgress.EveryPlaceReached`).
- Devices, Verilator and SDL glue, tracing, the dialogue programs, the games and the remaining CoreMark and Dhrystone kernels: input and output, or easy by comparison.
