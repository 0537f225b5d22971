# Verified models of the White Rabbit PTP core software

The White Rabbit PTP core runs a small LM32 processor that locks clocks, timestamps frames and talks PTP. This
project models, in Dafny, the parts of its software and of its configuration tool whose correctness does not show
from reading one function, and proves what they are for. `dafny verify dfyconfig.toml` checks everything.

The work falls into five unrelated cores.

1. **The Kconfig expression rewriter** (`Kconfig*.dfy`). An expression compiler over tristate logic: folding,
   elimination of common operands, joining of comparisons, contradictions, negation pushing, and the fixpoint loop
   over them; the menu nesting and the dependency check that rely on it. `KconfigExpr.Value` is the semantics,
   `KconfigPasses` says what the passes compute and `KconfigRewriter` does it in place; `KconfigEqExact`,
   `KconfigShared`, `KconfigJoins` and `KconfigContradictions` say it again by the operands alone. `KconfigNesting` says
   how a menu is nested, `KconfigCovers` and `KconfigOwners` what is taken and where it ends up, and `KconfigLinks` does
   it on linked entries.
   Environments follow `sym_calc_value`: boolean symbols are n or y, and the literals y, m, n stand for themselves.
2. **The 1-Wire ROM search** (`OneWire.dfy`) against a wired-AND bus.
3. **The SoftPLL** (`SoftPll*.dfy`): controller and lock detector, helper and main loop, start-up sequencer and phase
   tracker, over unbounded streams of tags.
4. **Timestamping** (`Rx*.dfy`): merging two ambiguous counters with a circular phase, the calibration scan, and the
   ring of received frames.
5. **Encoders and printers**: the packet filter's assembler and default program (`PacketFilter.dfy`), string values in
   `.config` files (`ConfString.dfy`, `ConfLine.dfy`) and number printing (`DecimalPrint.dfy`, `NumberLayout.dfy`).

Code that works by changing things step by step is modelled by classes, arrays and loops whose contracts tie the new
state to a specification function; the laws are lemmas about those functions.

## Where the code does less than its surroundings say

- `expr_eliminate_dups2` and `expr_trans_compare` can be wrong at m. `KconfigDups.ContradictionExact` and
  `KconfigTransform.CompareExact` say exactly when they are right (`CompareNotExact` for the NOT rule alone), and the
  theorems about the whole rewriter are stated with "m or equal" so that they hold in every environment. Both examples
  in the source are decided wrongly at m (`KconfigContradictions.ContradictionAtMod`).
- `expr_eq` folds literals only after it has looked for pairs. Where an operand has a `y` or `n` of its own to fold, it
  is not transitive and depends on the order of operands (`KconfigEqExact.FoldsLate`, `OrderMatters`); for all other
  expressions it is equality up to order and grouping (`KconfigEqExact.EqExact`).
- `menu_finalize` raises what hangs under an entry without a prompt, so an entry need not depend on the one it ends up
  under: with A prompted, B without a prompt depending on A, and C depending on B, C hangs under A
  (`KconfigNesting.RaisedFromB`). `KconfigNesting.FinalShape` says who holds each entry, and that raising changes
  nothing if and only if no entry without a prompt is a block or takes the one beside it.
- `mpll_update` does not clamp its error. The first pair after `mpll_start` is computed in 32 bits if and only if its
  tags differ by at most 1900428 (`SoftPllMain.FirstPairExact`); while the ideal drift stays within 2^29
  (`SoftPllMain.TameRun`), later ones are whenever the loop is locked or the error is at most 1664835
  (`SoftPllMain.LimitExact`).
- `select` in `__w1_scan_one` is an `int`, so a conflict at bit 32 or above is never followed.
  `OneWire.Driver.ScanBus` succeeds if and only if the devices are separable, a condition on the ROMs alone: all that
  matter for the first eight slots differ in their low 32 bits, up to a last slot that a repeated search fills rightly
  by chance.
- A timestamp read out too early or too late gets the wrong second; `RxTimestamp.ReadoutWindow` gives the exact window,
  from a quarter period less 1 ps to 250 ms less one and a quarter periods. The
  nanoseconds are -8 in one case (`RxTimestamp.NsecRange`, `NsecBelowZero`); the total is right there too.
- The comment in `dev/rxts_calibrator.c` puts the transition in the middle between the edges. The code takes the falling
  edge as a second sample of the rising one, and that is what is modelled.
- `ptpd_netif_recvfrom` with a buffer shorter than the stored frame leaves the rest of that frame in the ring, and the
  queue is no longer a queue of frames (`RxQueue.SockQueue.Receive`). For a frame shorter than a header it returns the
  size of the buffer (`RxQueue.ReturnedLength`).
- The phase average of samples within some spread of a phase lies within that spread if and only if the spread is at
  most an eighth of a turn; from half a turn on the statement is empty (`SoftPllPhaseTracker.SpreadExact`).
- The packet filter's assembler does not refuse fields out of range. What the filter reads is what was asked for exactly
  when every field is in range and every mask is made of whole nibbles (`PacketFilter.CompareExact`,
  `PacketFilter.Assembler.Load`).
- A string value survives a round trip through `.config` only when its line fits the buffer of the reader
  (`ConfLine.RoundTrip`). The first 1023 characters of a longer one are refused (`ConfLine.ReadPart`), but the reader
  takes the rest for further lines: these never set a string unless the name itself was cut (`ConfLine.LaterReads`), yet
  they set a boolean or tristate symbol exactly when a piece begins like an assignment to it (`ConfLine.LaterLetter`,
  `LaterSetsLetter`). Without CONFIG_ in the name or the string nothing is set (`ConfLine.LaterSetsNothing`).

## Environment

Hardware appears only as what it lets the software see: the bus of 1-Wire devices, the stream of tags with the
time-out and external-lock answers that came with each, the counters latched for a frame, the flip bit of the
timestamper. The packet filter is assumed to start every packet with all registers zero. An unsigned long has 32 bits.

## Model

| member | source | states |
|---|---|---|
| `KconfigExpr.ApplyInterchange` | scripts/kconfig/expr.h:47-49 | AND is minimum and OR is maximum: two pairs combined pairwise or crosswise give the same, the law that lets the rewriter reorder the operands of a chain |
| `KconfigExpr.CrispIsDefinite` | scripts/kconfig/symbol.c:326-327 | over boolean symbols that are n or y and literals other than m, no expression has value m |
| `KconfigExpr.EliminateYnMeaning` | scripts/kconfig/expr.c:236-317 | folding of y and n preserves the three-valued value in every environment |
| `KconfigExpr.EliminateYnLeaves` | scripts/kconfig/expr.c:236-317 | folding never adds a leaf, and removes at least one whenever some y or n is an operand: the measure behind the loop of expr_eliminate_dups |
| `KconfigExpr.EliminateYnComplete` | scripts/kconfig/expr.c:236-317 | after folding nothing is left to fold, and an expression with nothing to fold is returned unchanged |
| `KconfigExpr.EliminateYnIdempotent` | scripts/kconfig/expr.c:236-317 | folding twice is folding once |
| `KconfigEq.EliminatePairsResidue` | scripts/kconfig/expr.c:135-167 | what elimination removes from the two sides is one and the same value c: each side was its residue combined with c, in every tristate environment |
| `KconfigEq.EqValue` | scripts/kconfig/expr.c:194-234 | expressions that expr_eq calls equal have equal value in every tristate environment; the mutual recursion with elimination terminates |
| `KconfigEq.EqMeaning` | scripts/kconfig/expr.c:194-234 | the same for all environments at once |
| `KconfigEqReflexive.EqReflexive` | scripts/kconfig/expr.c:194-234 | expr_eq recognises every expression as equal to itself, although it works by eliminating operands pairwise in place |
| `KconfigEqExact.PairsForms` | scripts/kconfig/expr.c:135-167 | elimination takes from either side exactly what it shares with the other, operands counted up to order and grouping and as often as they occur |
| `KconfigEqExact.EqExact` | scripts/kconfig/expr.c:194-234 | expr_eq says yes if and only if the two expressions have the same form: AND and OR chains are compared as multisets of operands at every level, a chain with its dominant literal is decided, and the neutral literal counts for nothing; for all expressions without a literal to fold inside an operand |
| `KconfigEqExact.EqUpToOrder` | scripts/kconfig/expr.c:194-234 | so two chains with the same operands, whatever their order and grouping, are equal for expr_eq |
| `KconfigEqExact.FoldsLate` | scripts/kconfig/expr.c:194-234 | with a literal to fold inside an operand expr_eq is not transitive |
| `KconfigEqExact.OrderMatters` | scripts/kconfig/expr.c:194-234 | and two chains with the same three operands in another order are not equal for it |
| `KconfigEq.EliminatePairsOperands` | scripts/kconfig/expr.c:135-167 | elimination invents nothing: every operand left was there before or is the neutral literal |
| `KconfigEq.EliminatePairsComplete` | scripts/kconfig/expr.c:135-167 | after elimination no operand of one side equals an operand of the other, the literals y and n aside |
| `KconfigEq.EliminateEqImplies` | scripts/kconfig/expr.c:169-192 | when the second expression is reduced to y by what it shares with the first, a non-n first implies a non-n second |
| `KconfigShared.EliminateEqExact` | scripts/kconfig/expr.c:169-192 | expr_eliminate_eq reduces the second expression to the neutral literal if and only if all its operands are among those of the first |
| `KconfigEq.ExtractEqValue` | scripts/kconfig/expr.c:853-880 | while common operands are collected, the accumulator grows by exactly the value both sides lose |
| `KconfigEq.ExtractCommonValue` | scripts/kconfig/expr.c:831-851 | each side equals its residue combined with the extracted common part |
| `KconfigShared.ExtractForms` | scripts/kconfig/expr.c:853-880 | extraction takes from either side exactly what it shares with the other |
| `KconfigShared.ExtractExact` | scripts/kconfig/expr.c:831-851 | nothing is left of the first of two chains if and only if all its operands are among those of the second |
| `KconfigShared.NothingExtracted` | scripts/kconfig/expr.c:831-851 | two chains that share nothing stay as they are, with the literals in them |
| `KconfigSlots.PutSharpens` | scripts/kconfig/expr.h:47-49 | the operators are monotone in the order "m or equal": replacing a subexpression by a sharper one sharpens the whole |
| `KconfigSlots.ChainAbsorbs` | scripts/kconfig/expr.h:47-49 | a chain of one operator absorbs each of its operands |
| `KconfigSlots.MergeValue` | scripts/kconfig/expr.c:535-556 | merging one operand of a chain into another and leaving the neutral literal in its place keeps the value of the chain |
| `KconfigTransform.TransformMeaning` | scripts/kconfig/expr.c:641-776 | expr_transform preserves the three-valued meaning |
| `KconfigTransform.TransformNormal` | scripts/kconfig/expr.c:641-776 | its result has NOT only above non-constant symbols and compares no boolean symbol with y, m or n |
| `KconfigTransform.NormalFixed` | scripts/kconfig/expr.c:641-776 | it leaves every expression of that form alone |
| `KconfigTransform.TransformIdempotent` | scripts/kconfig/expr.c:641-776 | it is idempotent |
| `KconfigTransform.TransformPushes` | scripts/kconfig/expr.c:641-776 | for every expression the repeated rewriting gives the same as one walk that counts the NOTs on its way down and reads comparisons of booleans off the symbol |
| `KconfigTransform.DeMorganWeight` | scripts/kconfig/expr.c:641-776 | the measure that makes it terminate: De Morgan lowers the weight although the operands grow a NOT each |
| `KconfigTransform.CompareDefinite` | scripts/kconfig/expr.c:882-941 | expr_trans_compare says whether the expression compares with n or y as asked, wherever the expression is not m |
| `KconfigTransform.CompareBinary` | scripts/kconfig/expr.c:882-941 | its answer is never m |
| `KconfigTransform.ComparePositive` | scripts/kconfig/expr.c:882-941 | for expressions without NOT above operands it is right at m too |
| `KconfigTransform.CompareNotExact` | scripts/kconfig/expr.c:882-941 | the NOT rule, for every operand: right unless the operand is m and the flipped comparison it is turned into is right of it |
| `KconfigTransform.CompareRounds` | scripts/kconfig/expr.c:882-941 | what expr_trans_compare really asks: compared with n every operand at m counts as y, compared with y as n |
| `KconfigTransform.CompareExact` | scripts/kconfig/expr.c:882-941 | for every expression and comparison: the answer is wrong if and only if the expression is m and the two-valued reading of CompareRounds takes it for the value compared with |
| `KconfigTransform.ComparisonUndone` | scripts/kconfig/expr.c:882-941 | over booleans expr_transform undoes the comparison: e = y and e != n become e, and e = n and e != y its negation |
| `KconfigDups.JoinValue` | scripts/kconfig/expr.c:351-507 | a joined operand has the three-valued value of the two it replaces, for every rule of expr_join_or and expr_join_and |
| `KconfigDups.JoinSize` | scripts/kconfig/expr.c:351-507 | it has no more leaves than the first of the two |
| `KconfigDups.ContradictionExact` | scripts/kconfig/expr.c:579-609 | the rewrite of a contradiction in a chain keeps the value of the chain if and only if that value was not m |
| `KconfigPasses.JoinPair` | scripts/kconfig/expr.c:535-556 | the joining step on two operands of a chain: three-valued value kept; it counts if and only if a rule of expr_join_or or expr_join_and fits the two, and then leaves the neutral literal in the place of the first and the join in that of the second |
| `KconfigPasses.JoinPass` | scripts/kconfig/expr.c:509-559 | the joining pass below two slots of a chain: three-valued value kept, leaves never added, something to fold left behind if it counted; it counts nothing if and only if no operand below one slot joins with one below the other and there is nothing to join inside them |
| `KconfigPasses.ResolvePair` | scripts/kconfig/expr.c:579-612 | the contradiction step on an operand and a slot of its chain: value kept unless it was m; it counts if and only if the two contradict |
| `KconfigPasses.ResolvePass` | scripts/kconfig/expr.c:561-615 | the contradiction pass: value kept unless it was m, leaves never added, something to fold left behind if it counted; it counts nothing if and only if there is no contradiction, whole chain nodes below the second slot included |
| `KconfigPasses.Deduplicated` | scripts/kconfig/expr.c:617-639 | the loop over both passes and folding terminates; its result is sharper than or equal in value to the argument in every environment, has no more leaves, no joinable pair and no contradiction; an expression that has none is left as it is |
| `KconfigRewriter.Rewriter.JoinSlots` | scripts/kconfig/expr.c:535-556 | joins two operands of a chain in place, which become what JoinPair makes of them, with the count of rewrites |
| `KconfigRewriter.Rewriter.EliminateDups1` | scripts/kconfig/expr.c:509-559 | the recursive pass over slots of one tree that may coincide or lie in each other: in place it makes of the chain what JoinPass does, and touches nothing else of the tree |
| `KconfigRewriter.Rewriter.ResolveSlots` | scripts/kconfig/expr.c:579-612 | replaces an operand in place as ResolvePair does |
| `KconfigRewriter.Rewriter.EliminateDups2` | scripts/kconfig/expr.c:561-615 | the same for the contradiction pass and ResolvePass |
| `KconfigRewriter.Rewriter.EliminateDups` | scripts/kconfig/expr.c:617-639 | the loop that runs until a pass changes nothing leaves in the tree what Deduplicated makes of it; trans_count is restored |
| `KconfigDups.SharpensCrisp` | scripts/kconfig/expr.c:617-639 | over environments where no symbol is m, that means the same value |
| `KconfigJoins.JoinsExactly` | scripts/kconfig/expr.c:351-507 | the pairs of operands that expr_join_or and expr_join_and have a rule for: equal ones, and a listed few shapes about one symbol, in either order, and no others |
| `KconfigJoins.DeduplicatedLeavesNoPair` | scripts/kconfig/expr.c:617-639 | after expr_eliminate_dups no two operands of any chain, at any depth above a NOT, are equal or of these shapes |
| `KconfigJoins.DeduplicatedIdempotent` | scripts/kconfig/expr.c:617-639 | a second expr_eliminate_dups changes nothing |
| `KconfigJoins.SymbolOrNegation` | scripts/kconfig/expr.c:399-403 | expr_eliminate_dups makes y of a boolean symbol or its negation, in either order |
| `KconfigJoins.TwoComparisons` | scripts/kconfig/expr.c:379-398 | of a tristate s and the three literals a, b, c in any order it makes s != c of s = a or s = b, and s = c of s != a and s != b |
| `KconfigJoins.EqualAndUnequal` | scripts/kconfig/expr.c:459-475 | of s = a and s != b for a tristate s and any constants it makes s = a, or n when a is b |
| `KconfigJoins.SymbolAndComparison` | scripts/kconfig/expr.c:443-457 | s and s = y becomes s = y, s and s != n becomes s, s and s != m becomes s = y, for boolean and tristate s |
| `KconfigJoins.EqualOperands` | scripts/kconfig/expr.c:356-357 | of two equal operands the first is kept |
| `KconfigContradictions.ContradictsExact` | scripts/kconfig/expr.c:582-609 | an operand contradicts a part of its chain if and only if all that its negation consists of is found there, in any order and grouping |
| `KconfigContradictions.EitherContradicts` | scripts/kconfig/expr.c:582-609 | FOO or BAR contradicts an AND if and only if not FOO and not BAR are among its operands, and dually for FOO and BAR |
| `KconfigContradictions.ContradictionDecides` | scripts/kconfig/expr.c:561-639 | a chain in which nothing is to be joined, nothing is to be done inside operands and one operand contradicts another part becomes the literal that decides it |
| `KconfigContradictions.EitherAndNeither` | scripts/kconfig/expr.c:582-609 | (FOO or BAR) and (not FOO and not BAR) becomes n, and (FOO and BAR) or (not FOO or not BAR) becomes y |
| `KconfigContradictions.ContradictionAtMod` | scripts/kconfig/expr.c:582-609 | with FOO = BAR = m both examples are m, and the rewrite makes them n and y |
| `KconfigMenu.DependsImplies` | scripts/kconfig/expr.c:802-829 | an expression that expr_depends_symbol accepts can only be non-n when the symbol is |
| `KconfigMenu.ContainsExact` | scripts/kconfig/expr.c:778-800 | expr_contains_symbol says yes if and only if the symbol occurs in the expression |
| `KconfigMenu.DependsExact` | scripts/kconfig/expr.c:802-829 | expr_depends_symbol says yes if and only if one of the AND operands is the symbol, compares it with y or m for equality, or with n for inequality |
| `KconfigMenu.DependsContains` | scripts/kconfig/expr.c:778-829 | what depends on a symbol contains it |
| `KconfigMenu.Simplify` | scripts/kconfig/menu.c:292-293 | expr_eliminate_dups after expr_transform, run in place, gives the simplified form the two dependencies are compared in |
| `KconfigMenu.JustifiedByDepends` | scripts/kconfig/menu.c:299-300 | an entry pulled because it depends on the parent symbol is non-n only when that symbol is |
| `KconfigMenu.JustifiedByElimination` | scripts/kconfig/menu.c:301-310 | an entry pulled because elimination reduced the simplified parent prompt dependency to y is non-n only when that dependency is |
| `KconfigMenu.CanTake` | scripts/kconfig/menu.c:296-310 | one turn of the loop: an entry is pulled exactly when its dependency contains the symbol and either depends on it or, in the simplified forms, covers the parent prompt dependency |
| `KconfigMenu.TakenIsJustified` | scripts/kconfig/menu.c:296-310 | either reason for pulling an entry makes it imply the parent symbol or the parent prompt dependency |
| `KconfigMenu.OftenComparable` | scripts/kconfig/menu.c:292-293 | the comparison with n misses no entry that can show, for dependencies without NOT above operands and for environments without an operand at m |
| `KconfigCovers.CoversExact` | scripts/kconfig/menu.c:301-310 | with dependencies in simplified form over booleans, an entry covers the prompt dependency of its parent if and only if all AND operands of that are among its own |
| `KconfigCovers.CoversUnconditional` | scripts/kconfig/menu.c:292-310 | a parent with a prompt without condition, or without a prompt, is covered by every entry |
| `KconfigCovers.TakenByOwn` | scripts/kconfig/menu.c:296-298 | an entry with a prompt is taken by what the prompt depends on, whatever its own dependency is, one without by its own dependency, and that names the symbol of its taker |
| `KconfigCovers.TakenByPrompt` | scripts/kconfig/menu.c:296-310 | an entry that depends on X and (FOO or BAR) is pulled under FOO when the prompt of FOO depends on X, for any booleans |
| `KconfigNesting.NestKeeps` | scripts/kconfig/menu.c:287-321 | pulling loses no entry and keeps the order of the file, blocks included |
| `KconfigNesting.NestHeld` | scripts/kconfig/menu.c:287-321 | before anything is raised an entry hangs under another only because it is in its block or was taken by it, and then its dependency names the symbol of its taker and implies that symbol or its prompt |
| `KconfigNesting.NestGreedy` | scripts/kconfig/menu.c:287-321 | and at every level nothing that could be taken was left behind |
| `KconfigNesting.RaisedKeeps` | scripts/kconfig/menu.c:364-373 | raising loses no entry and keeps the order |
| `KconfigNesting.RaisedPrompted` | scripts/kconfig/menu.c:364-373 | after raising nothing hangs under an entry without a prompt, at any level |
| `KconfigNesting.RaisedExact` | scripts/kconfig/menu.c:364-373 | raising changes nothing if and only if nothing hung under an entry without a prompt |
| `KconfigNesting.NestQuiet` | scripts/kconfig/menu.c:287-373 | which entries have something under them, decided before the call: an entry without a prompt has if and only if it is a block or takes the entry beside it |
| `KconfigNesting.RaisedAccounted` | scripts/kconfig/menu.c:364-373 | after raising each entry is still held by the one it hangs under or by one of the entries without a prompt in front of it beside it |
| `KconfigNesting.HolderOf` | scripts/kconfig/menu.c:364-373 | that holder spelled out: it has the entry in its block, or took it, and then the dependency of the entry names its symbol and implies that or its prompt dependency |
| `KconfigNesting.FinalShape` | scripts/kconfig/menu.c:287-373 | all of this for what menu_finalize makes of any entry and those beside it; the nesting and the final shape are the same if and only if, among the entries taken and those in blocks, none without a prompt is a block or takes the one beside it |
| `KconfigNesting.RaisedFromB` | scripts/kconfig/menu.c:364-373 | A with a prompt, B without one depending on A, C depending on B: C ends up beside B under A, which did not take it and which it does not imply |
| `KconfigOwners.NestOwners` | scripts/kconfig/menu.c:287-321 | pulling moves no entry into a block or out of one, at any level |
| `KconfigOwners.RaisedOwners` | scripts/kconfig/menu.c:364-373 | after raising every entry hangs under the nearest entry with a prompt of those it was nested in, which with the order of the file fixes the whole menu |
| `KconfigOwners.FinalOwners` | scripts/kconfig/menu.c:287-373 | both for what menu_finalize makes of any entry and those beside it |
| `KconfigLinks.Finalize` | scripts/kconfig/menu.c:231-374 | in place, on linked nodes of any nesting: the links list, next and parent become those of the raised nesting, the parent of the entry itself and the nodes outside are not touched |
| `KconfigLinks.FinalizeBlock` | scripts/kconfig/menu.c:287-289 | the entries of a block, one after the other, each with those it takes |
| `KconfigLinks.PullAll` | scripts/kconfig/menu.c:290-321 | the loop that pulls the entries beside a symbol, and the move under it |
| `KconfigLinks.Hang` | scripts/kconfig/menu.c:316-320 | the three assignments that move the entries pulled under their parent |
| `KconfigLinks.RaiseAll` | scripts/kconfig/menu.c:322-374 | the last loop: entries under one without a prompt are moved up behind it, and looked at in their turn |
| `KconfigLinks.Adopt` | scripts/kconfig/menu.c:365-369 | every entry that is moved up gets the new parent |
| `KconfigLinks.RaiseOne` | scripts/kconfig/menu.c:364-373 | one entry without a prompt: what hangs under it stands behind it, in order, and it has nothing under it |
| `KconfigCycles.DependsOn` | scripts/kconfig/symbol.c:794-817 | what a symbol depends on: its reverse dependency, the conditions of its properties and the values of its defaults, choices and selects left out |
| `KconfigCycles.OrderHasNoCycle` | scripts/kconfig/symbol.c:853-889 | if every symbol with dependencies can be placed after all it depends on, the graph has no cycle |
| `KconfigCycles.CycleOnStack` | scripts/kconfig/symbol.c:858-863 | meeting a symbol flagged CHECK means there is a cycle |
| `KconfigCycles.Popped` | scripts/kconfig/symbol.c:874-886 | leaving a symbol: it joins the order when nothing was reported below it, and the report of a cycle is counted and ends at the symbol it was raised for |
| `KconfigCycles.Checker.CheckExprDeps` | scripts/kconfig/symbol.c:763-791 | every symbol of the expression is checked, or the one a recursion was reported for is returned |
| `KconfigCycles.Checker.CheckPropertiesDeps` | scripts/kconfig/symbol.c:803-814 | the same for the property list, without choice and select properties and with the value of defaults only |
| `KconfigCycles.Checker.CheckSymDeps` | scripts/kconfig/symbol.c:794-817 | the same for the reverse dependency and the properties of a symbol |
| `KconfigCycles.Checker.CheckDeps` | scripts/kconfig/symbol.c:853-889 | the same for a symbol; it ends with CHECKED set |
| `KconfigCycles.Checker.CheckAll` | scripts/kconfig/zconf.y:498-501 | checking all symbols of the table leaves the error count unchanged if and only if the dependency graph has no cycle; the constants, which symbols depend on and the table does not hold, need only depend on nothing |
| `OneWire.GetDibit` | dev/w1.c:34-51 | two reads and a write on the wired-AND bus: the answer tells whether the participating devices agree, and exactly those with the answered bit stay |
| `OneWire.Driver.ScanOne` | dev/w1.c:53-85 | one search completes the guide in the slot to a ROM reached by following it, and reports exactly the conflicts left open |
| `OneWire.Driver.Resolve` | dev/w1.c:102-127 | the next guide repeats the last slot below the deepest open conflict and turns there |
| `OneWire.FirstDescent` | dev/w1.c:53-85 | the first search finds the smallest ROM in LSB-first order |
| `OneWire.NextDescent` | dev/w1.c:53-122 | with the deepest open conflict below bit 32 the next search finds the next larger ROM |
| `OneWire.StuckDescent` | dev/w1.c:56-75 | from bit 32 on the chosen branch is lost in the int and the search repeats the last path |
| `OneWire.Successor` | dev/w1.c:87-134 | the next larger ROM parts from the last one found exactly at the deepest open conflict |
| `OneWire.Driver.ScanBus` | dev/w1.c:87-134 | returns min(count, 8) with the slots holding that many smallest ROMs in order, each once, and zeros behind, if and only if the devices are separable |
| `OneWire.DistinctIsSeparable` | dev/w1.c:56-75 | ROMs pairwise distinct in their low 32 bits are separable |
| `OneWire.TwoAlikeAreNot` | dev/w1.c:56-75 | two ROMs that differ in bit 40 alone are not |
| `OneWire.Verdict` | dev/w1.c:87-134 | eight filled slots are right if and only if the devices are separable |
| `SoftPllControl.PiController.Init` | softpll/spll_common.c:45-54 | clears the integrator and puts the output at the bias |
| `SoftPllControl.PiController.Update` | softpll/spll_common.c:16-43 | one sample: clamped output and an integrator that moves only when that leads out of saturation |
| `SoftPllControl.IntegratorStaysBounded` | softpll/spll_common.c:16-43 | an interval, fixed by the output range alone, that the anti-windup integrator never leaves, however large the errors |
| `SoftPllControl.RunStaysBounded` | softpll/spll_common.c:16-43 | the same over every run, with the output always inside its range and nothing else changed |
| `SoftPllControl.LinearRun` | softpll/spll_common.c:16-43 | over a run in which nothing saturates the output is the bias plus the floor of (ki times the first integrator and all samples, plus kp times the last sample) over 4096, and the integrator is its first value plus all samples |
| `SoftPllControl.FirstSaturation` | softpll/spll_common.c:16-43 | the first sample that drives that value out of range puts the output at the limit it is beyond and is left out of the integrator, unless it pulls back or there is no anti-windup |
| `SoftPllControl.LimitReached` | softpll/spll_common.c:16-43 | the output is at a limit if and only if that value is there or beyond |
| `SoftPllControl.LockDetector.Init` | softpll/spll_common.c:88-93 | unlocked, count at zero |
| `SoftPllControl.LockDetector.Update` | softpll/spll_common.c:61-86 | one sample; counts samples in threshold; answers 1 locked, 0 not, -1 lock just lost |
| `SoftPllControl.HysteresisKept` | softpll/spll_common.c:61-86 | every sample keeps: locked means delock_samples < lock_cnt <= lock_samples |
| `SoftPllControl.GoodSamplesLock` | softpll/spll_common.c:61-86 | samples in threshold in a row: the count and the lock after any number of them; lock_samples of them lock any detector |
| `SoftPllControl.BadSamplesUnlock` | softpll/spll_common.c:61-86 | samples out of threshold in a row: the count and the lock after any number of them; a full lock is lost with the sample number lock_samples - delock_samples |
| `SoftPllControl.DelockNeedsBadSamples` | softpll/spll_common.c:61-86 | losing a full lock takes at least lock_samples - delock_samples samples out of threshold |
| `SoftPllHelper.UnwrappedCongruent` | softpll/spll_helper.c:56-59 | the ideal unwrapped tag is congruent to the tag and advances by less than a turn |
| `SoftPllHelper.IdealErrorClosed` | softpll/spll_helper.c:56-76 | the ideal error after k tags in the terms of the loop: the unwrapped advance minus one nominal period of 2^14 per tag |
| `SoftPllHelper.AdvanceExact` | softpll/spll_helper.c:56-76 | the accumulators produce the ideal error for every sequence of tags, whatever wraps |
| `SoftPllHelper.HelperPll.constructor` | softpll/spll_helper.c:22-38 | the gains and thresholds of the helper loop |
| `SoftPllHelper.HelperPll.Start` | softpll/spll_helper.c:92-110 | forgets all tags, clears lock and integrator |
| `SoftPllHelper.HelperPll.Advance` | softpll/spll_helper.c:56-77 | unwrapping and the renormalisation by 100000000 give the error of the ideal unbounded unwrapper |
| `SoftPllHelper.HelperPll.Control` | softpll/spll_helper.c:79-87 | the clamped error drives controller and lock detector |
| `SoftPllHelper.HelperPll.Update` | softpll/spll_helper.c:40-90 | in every run from helper_start the controller sees the clamped ideal error, and while that stays tame the accumulators stay in 32 bits |
| `SoftPllHelper.ProductsFit` | softpll/spll_helper.c:22-38 | with the gains of the helper and the clamp no value of the controller leaves 32 bits |
| `SoftPllMain.MaskedNearest` | softpll/spll_main.c:156-160 | masking and sign extension give the nearest representative modulo 2^14 |
| `SoftPllMain.PairTracks` | softpll/spll_main.c:133-192 | whatever wraps, is renormalised or shifted, the error of a pair is the unwrapped ref minus the unwrapped out plus the current shift |
| `SoftPllMain.LockedError` | softpll/spll_main.c:156-160 | when locked, the error used is the representative in [-2^13, 2^13) of tag_ref - tag_out + shift modulo 2^14 |
| `SoftPllMain.PairError` | softpll/spll_main.c:133-195 | controller and lock detector get the same error: the distance of the unwrapped tags plus the shift, and when locked its nearest representative modulo 2^14 |
| `SoftPllMain.BroughtDown` | softpll/spll_main.c:177-181 | both adders are brought down together, if and only if both are beyond twice the wrap-around, so that after every pair one of them is not |
| `SoftPllMain.NextPair` | softpll/spll_main.c:126-175 | after a start or a pair nothing happens until both channels have had a tag, and then the last tags of both make the pair |
| `SoftPllMain.AddersDiffer` | softpll/spll_main.c:135-192 | adder_ref - adder_out = 2^22 times the difference of the wraps plus the current shift |
| `SoftPllMain.BoxKept` | softpll/spll_main.c:133-192 | one pair: if the adders are in the box and their difference stays small, they stay in the box and neither they nor the error leave 32 bits |
| `SoftPllMain.LiftDrift` | softpll/spll_main.c:135-143 | with the wraps of a pair counted the adders differ by the ideal drift, 2^22 times the difference of the wraps plus the shift |
| `SoftPllMain.TamePair` | softpll/spll_main.c:133-192 | in a run whose ideal drift has never exceeded 2^29 every pair keeps adders and error in 32 bits, and nothing of the pair leaves 32 bits if and only if the products of the controller do not |
| `SoftPllMain.MainProductsFit` | softpll/spll_main.c:23-52 | with the gains of the node build, wherever the integrator can be, errors up to 1664835 keep every value of the controller in 32 bits |
| `SoftPllMain.LimitExact` | softpll/spll_main.c:23-52 | no larger limit on the error does |
| `SoftPllMain.LockedFits` | softpll/spll_main.c:156-160 | a locked loop masks its error, and its pairs always fit |
| `SoftPllMain.FirstPairExact` | softpll/spll_main.c:148-166 | the error of the first pair after mpll_start is unclamped: everything fits 32 bits if and only if its tags differ by at most 1900428 |
| `SoftPllMain.FirstPairOverflows` | softpll/spll_main.c:148-166 | tags 4000000 and 0 as the first pair: a tame run whose product with kp is 4400000000 |
| `SoftPllMain.PairControl` | softpll/spll_main.c:148-196 | in any run a pair keeps gains, integrator interval and the DAC range 5 to 65530, and fits if the loop is locked or the error within the limit |
| `SoftPllMain.ShiftArrives` | softpll/spll_main.c:183-192 | after n locked pairs the shift is n steps nearer its target, or there |
| `SoftPllMain.ShiftInRun` | softpll/spll_main.c:183-192 | in every run of tags the shift moves one step towards its target per pair completed with the loop locked, and nothing else moves it; it is at its target once there were as many such pairs as steps |
| `SoftPllMain.MainPll.constructor` | softpll/spll_main.c:23-52 | the gains, bias, DAC range and thresholds of the main loop in the node build |
| `SoftPllMain.MainPll.Start` | softpll/spll_main.c:54-75 | adders, shift and tags forgotten; the tracking invariant holds of no pairs |
| `SoftPllMain.MainPll.LiftAdders` | softpll/spll_main.c:135-143 | wrap detection and raw error |
| `SoftPllMain.MainPll.Drop` | softpll/spll_main.c:174-181 | tags dropped, both adders renormalised together or not at all |
| `SoftPllMain.MainPll.Shift` | softpll/spll_main.c:183-192 | one step towards the target while locked |
| `SoftPllMain.MainPll.CompletePair` | softpll/spll_main.c:133-196 | a whole pair: tracking, gains, integrator interval and DAC range are kept; in a tame run the box, and 32 bits when locked or within the error limit |
| `SoftPllMain.MainPll.StepPair` | softpll/spll_main.c:133-196 | the statements of a pair in their order: lock state from before, masked error, controller, renormalisation, shift, lock detector |
| `SoftPllMain.MainPll.Update` | softpll/spll_main.c:126-199 | every tag in every run keeps the tracking and hysteresis invariants, the integrator interval and the DAC range; while the run is tame adders and error stay in 32 bits, and so does the controller when locked or within the error limit |
| `SoftPllMain.MainPll.SetPhaseShift` | softpll/spll_main.c:201-206 | only the target moves |
| `SoftPllSequencer.SoftPll.constructor` | softpll/softpll_ng.c:286-369 | where the start-up begins in each mode |
| `SoftPllSequencer.SoftPll.Wait` | softpll/softpll_ng.c:107-199 | the waiting states; READY is only entered with 10000 good helper samples and, in slave mode, 1000 good main samples |
| `SoftPllSequencer.SoftPll.WatchLocks` | softpll/softpll_ng.c:201-217 | READY is left, and the loss counted, exactly when a lock the mode needs is gone |
| `SoftPllSequencer.SoftPll.Sequence` | softpll/softpll_ng.c:101-219 | one step of the state machine: next state, loss count, and what starting a loop resets |
| `SoftPllSequencer.SoftPll.UpdateLoops` | softpll/softpll_ng.c:221-265 | each loop gets the tag exactly in the states it runs in, and is unchanged in the others; in them the helper control step and the main loop step are those of the two loops; good samples are never lost |
| `SoftPllSequencer.SoftPll.Irq` | softpll/softpll_ng.c:267-284 | over any stream of tags the loss count grows by the exits from READY, the states form a run of the machine, and the sample counts at each tag one of its counters, at the lock level whenever a lock is seen; the sequencer sees the timer and the external reference of the tag and the lock detectors as the tags before it have left them |
| `SoftPllSequencer.RunPrepared` | softpll/softpll_ng.c:101-219 | in every run each state has behind it the start of the loops it relies on |
| `SoftPllSequencer.StartsInOrder` | softpll/softpll_ng.c:101-219 | every run of an enabled mode goes through the states of its start in their order; each is left for the next at once or, a waiting state, as soon as what it waits for is there |
| `SoftPllSequencer.ReachesReady` | softpll/softpll_ng.c:101-219 | when nothing has to be waited for every tag takes a start one state further, until it is ready |
| `SoftPllSequencer.ReadyExact` | softpll/softpll_ng.c:201-217 | READY is kept if and only if the helper is locked, in slave mode the main loop too and in grandmaster mode the external reference too; otherwise a grandmaster with a locked helper goes to the start of the external reference and everything else to clearing the DACs |
| `SoftPllSequencer.HelperStarts` | softpll/softpll_ng.c:126-159 | a grandmaster reaches the start of the helper only out of the wait for the external reference with that locked, any other mode only after the time-out of the DACs |
| `SoftPllSequencer.LoopsRunSince` | softpll/softpll_ng.c:221-265 | in every run helper and main loop get the tags if and only if they have been started and no lock has been lost since |
| `SoftPllSequencer.CountedSince` | softpll/softpll_ng.c:107-199 | a count of good samples is at most the number of tags since its loop was started |
| `SoftPllSequencer.ReadyIsEarned` | softpll/softpll_ng.c:161-199 | every entry into READY follows, since the helper was last started, at least 10000 of its samples in threshold, and in slave mode at least 1000 of the main loop since that was started, and a lock of the loop waited for; hence at least as many tags |
| `SoftPllPhaseTracker.PhaseTracker.Start` | softpll/spll_ptracker.c:27-37 | an empty bin |
| `SoftPllPhaseTracker.PhaseTracker.Update` | softpll/spll_ptracker.c:39-85 | n_avg samples make an average of the table-adjusted phases; tags of other channels change nothing |
| `SoftPllPhaseTracker.PhaseTracker.Read` | softpll/softpll_ng.c:474-492 | the average brought into one turn, doubled for a divided clock, in picoseconds |
| `SoftPllPhaseTracker.AverageNear` | softpll/spll_ptracker.c:39-85 | samples within an eighth of a turn of a phase average to within the same distance of it, across the wrap point too |
| `SoftPllPhaseTracker.AverageIsMean` | softpll/spll_ptracker.c:39-85 | such an average is the mean on the circle: it is ahead of the phase by the mean of what the samples are ahead of it, less than one unit of rounding aside |
| `SoftPllPhaseTracker.SpreadExact` | softpll/spll_ptracker.c:39-85 | for every spread: all bins of two or more samples within that spread of a phase average to within it, if and only if the spread is at most an eighth of a turn or at least half of one, where nothing is claimed |
| `SoftPllPhaseTracker.OppositeAverage` | softpll/spll_ptracker.c:39-85 | one bin and phase that fail for every spread in between |
| `SoftPllPhaseTracker.AverageIsPhase` | softpll/spll_ptracker.c:39-85 | the average of any bin lies in one turn |
| `SoftPllPhaseTracker.DoubledNear` | softpll/softpll_ng.c:483-486 | doubling for a divided clock at most doubles the distance on the circle |
| `SoftPllPhaseTracker.PicosRoundsDown` | softpll/softpll_ng.c:435-439 | the conversion to picoseconds rounds down and stays below one clock period |
| `SoftPllPhaseTracker.ReadNear` | softpll/softpll_ng.c:474-492 | what is read of a bin of samples within an eighth of a turn of a phase: picoseconds within the same distance, twice that of the doubled phase for a divided clock, less one picosecond of rounding |
| `RxTimestamp.SecondResolved` | dev/minic.c:243-249 | inside the read-out window the second is that of the rising counter, across rollover too |
| `RxTimestamp.ReadoutWindow` | dev/minic.c:243-249 | the window is exact: the second is right for all triggers if and only if the delay lies in it |
| `RxTimestamp.AheadFlag` | dev/minic.c:251-256 | from four bits of the falling counter the flag tells whether it is one behind |
| `RxTimestamp.LinearisedTotal` | lib/net.c:130-188 | linearisation goes by the falling counter near the rising transition and by the rising one elsewhere |
| `RxTimestamp.MergeExact` | lib/net.c:130-188 | if each counter is off by at most one and only near its own transition, second, nanosecond and phase add up to the true time |
| `RxTimestamp.TimestampExact` | lib/net.c:130-188 | from counters, read-out and phase to the true time in picoseconds, counted from the last time the 31 bits of the second started again |
| `RxTimestamp.NsecRange` | lib/net.c:183-186 | nsec is in its range, except -8 if and only if the rising counter was already one ahead across the end of a second |
| `RxTimestamp.NsecBelowZero` | lib/net.c:183-186 | the -8 at a concrete trigger, the last picosecond of a second with the rising counter one ahead, for every delay in the window |
| `RxTimestamp.Timestamp.Linearise` | lib/net.c:130-188 | the fields are updated in place to the linearised timestamp |
| `RxtsCalibrator.TransitionDetector.Lookup` | dev/rxts_calibrator.c:70-111 | the detector state describes the whole history of samples it was given |
| `RxtsCalibrator.TransitionDetector.Finished` | dev/rxts_calibrator.c:70-111 | after a full scan of a noisy square wave the detector is done, at the edge |
| `RxtsCalibrator.DoneNear` | dev/rxts_calibrator.c:92-103 | whatever a detector reports lies within the noise and one step of the rising edge |
| `RxtsCalibrator.ScanHoldsBoth` | dev/rxts_calibrator.c:49-52 | the scan range holds a clean low run before a clean high run wherever the edge is |
| `RxtsCalibrator.ComplementWave` | dev/rxts_calibrator.c:145-147 | seen by the falling detector the wave rises half a period later |
| `RxtsCalibrator.MergedNear` | dev/rxts_calibrator.c:162-172 | the two edges merge to a point of the period as near the rising edge as they are |
| `RxtsCalibrator.MergedMidway` | dev/rxts_calibrator.c:162-172 | it is the middle on the circle: as far from the rising edge as the two edges found are on average |
| `RxtsCalibrator.MergeEdges` | dev/rxts_calibrator.c:156-172 | the loops and cases of the merge |
| `RxtsCalibrator.Calibrator.constructor` | dev/rxts_calibrator.c:120-130 | a scan from phase 0 |
| `RxtsCalibrator.Calibrator.Update` | dev/rxts_calibrator.c:134-188 | one call: nothing while the phase shifter is busy; else one scan position, which goes on below the range and at its end reports the merged edges or the failure |
| `RxtsCalibrator.Calibrator.Calibrate` | dev/rxts_calibrator.c:120-188 | for every wave whose flip bit may do anything within 200 ps of its edges, and however often the phase shifter is busy in between, calibration succeeds within the noise plus 100 ps of the rising edge; without noise within 100 ps |
| `RxQueue.RingAppend` | lib/net.c:208-222 | a byte written at the head appends to the ring, across the end of the buffer |
| `RxQueue.SockQueue.CopyOut` | lib/net.c:208-222 | appends the bytes to what is stored |
| `RxQueue.SockQueue.CopyIn` | lib/net.c:191-206 | takes the first bytes of what is stored |
| `RxQueue.SockQueue.Enqueue` | lib/net.c:340-357 | a frame is appended if and only if its record fits the free space, else dropped |
| `RxQueue.SockQueue.Receive` | lib/net.c:224-275 | the oldest frame comes back unaltered, its data cut to the buffer, with the exact value returned; the queue stays consistent if and only if the buffer takes the whole stored frame |
| `RxQueue.ReturnedLength` | lib/net.c:274 | the value returned is the length less a header or the buffer size, and for a frame shorter than a header, where the difference wraps, the buffer size, or a negative length for buffers of 2 GB and more |
| `RxQueue.SpaceConserved` | lib/net.c:28-32 | free space plus record sizes is 512, and head is tail plus what is used modulo 512 |
| `PacketFilter.DecodeEncodable` | dev/ep_pfilter.c:27-62 | whatever is in its memory, the filter reads instructions with fields in range and masks of whole nibbles |
| `PacketFilter.CompareExact` | dev/ep_pfilter.c:122-145 | the word pfilter_cmp emits for any arguments, split into 12 and 24 bits, joined and read by the filter, is the comparison asked for if and only if the offset has 6 bits, the register 4 and the mask is made of whole nibbles |
| `PacketFilter.Logic3Exact` | dev/ep_pfilter.c:171-185 | the same for pfilter_logic3: if and only if all registers are 0 to 31 |
| `PacketFilter.Logic2Exact` | dev/ep_pfilter.c:156-169 | the same for pfilter_logic2, which is read as three operands with MOV |
| `PacketFilter.Logic2IsLogic3` | dev/ep_pfilter.c:156-185 | for registers in range the two-operand word is the three-operand word with MOV |
| `PacketFilter.SampleWords` | dev/ep_pfilter.c:113-185 | the words of some instructions of the default program, bit by bit |
| `PacketFilter.Assembler.Cmp` | dev/ep_pfilter.c:122-145 | emits the word for any arguments, in range or not |
| `PacketFilter.Assembler.Nop` | dev/ep_pfilter.c:147-153 | appends the documented dummy instruction |
| `PacketFilter.Assembler.Logic2` | dev/ep_pfilter.c:156-169 | appends the two-operand instruction |
| `PacketFilter.Assembler.Logic3` | dev/ep_pfilter.c:171-185 | appends the three-operand instruction |
| `PacketFilter.Assembler.Load` | dev/ep_pfilter.c:188-208 | the memory of the enabled filter holds the low 36 bits of every word; what it reads is the program asked for and FIN if and only if every instruction asked for can be expressed |
| `PacketFilter.DefaultEncodable` | dev/ep_pfilter.c:217-291 | every instruction of the default program can be expressed |
| `PacketFilter.Assembler.InitDefault` | dev/ep_pfilter.c:217-291 | the filter reads the default program from its memory, which fits the 32 words |
| `PacketFilter.NegatedOperator` | include/endpoint.h:9-18 | every operator has its negation at the code with bit 2 the other way round |
| `PacketFilter.RunSentTo` | dev/ep_pfilter.c:222-230 | three comparisons decide whether the packet is sent to an address |
| `PacketFilter.StationAddress` | dev/ep_pfilter.c:228-230 | the three address words of the default program are the 48 bits of the address registers |
| `PacketFilter.DefaultClassifies` | dev/ep_pfilter.c:217-291 | every packet ends in exactly one class and is not dropped: 0 if and only if PTP to the own or the PTP multicast address, 6 if and only if a streamer broadcast, else 7; no comparison looks at a word that has not arrived |
| `ConfString.UnescapeEscape` | scripts/kconfig/confdata.c:124-137 | reading undoes escaping whatever stands behind the closing quote |
| `ConfString.CutOffIsInvalid` | scripts/kconfig/confdata.c:124-137 | no beginning of an escaped string is read as a value |
| `ConfString.WriteString` | scripts/kconfig/confdata.c:497-511 | the loop writes the assignment with a backslash in front of every quote and backslash |
| `ConfString.MoveDown` | scripts/kconfig/confdata.c:132 | what the memmove does to the line buffer |
| `ConfString.Unquote` | scripts/kconfig/confdata.c:127-137 | the in-place loop succeeds if and only if there is a closing quote, leaves the unescaped string in the buffer, touches nothing in front and never leaves the text |
| `ConfLine.Fgets` | scripts/kconfig/confdata.c:217 | the buffer holds the line, or its first 1023 characters |
| `ConfLine.CutLineEnd` | scripts/kconfig/confdata.c:263-268 | the line end is cut off in place |
| `ConfLine.SetValue` | scripts/kconfig/confdata.c:93-148 | the value of a string, boolean or tristate symbol, the unquoted, the unterminated and the impossible letter included |
| `ConfLine.ReadLine` | scripts/kconfig/confdata.c:254-285 | name and value of a line for a symbol of any of these types, or how it is refused |
| `ConfLine.ReadPart` | scripts/kconfig/confdata.c:254-285 | an assignment that is cut off anywhere in front of its closing quote changes no symbol, whatever its type |
| `ConfLine.RoundTrip` | scripts/kconfig/confdata.c:497-511 | for every name without = and string without newline, reading what was written gives both back if and only if the line up to the closing quote has at most 1023 characters |
| `ConfLine.AfterPieces` | scripts/kconfig/confdata.c:217 | a line that does not fit is read in pieces of 1023 characters |
| `ConfLine.LaterPart` | scripts/kconfig/confdata.c:217-285 | a piece that starts anywhere in an assignment sets a string if and only if the cut fell into the name, behind another CONFIG_, and the rest fits; and then to the value that was written |
| `ConfLine.LaterReads` | scripts/kconfig/confdata.c:217-285 | hence no later piece of an over-long assignment sets a string symbol when the name is shorter than the buffer |
| `ConfLine.LaterSetsLetter` | scripts/kconfig/confdata.c:217-285 | but the second piece can set a symbol of another type: A set to any 1013 plain characters and CONFIG_B=y sets B to y |
| `ConfLine.ReadsLetter` | scripts/kconfig/confdata.c:99-116 | exactly which lines set a boolean or tristate symbol |
| `ConfLine.LaterLetter` | scripts/kconfig/confdata.c:217-285 | a piece that starts anywhere in an assignment sets such a symbol if and only if it begins, within 1023 characters, with CONFIG_, a name and one of the letters of that symbol |
| `ConfLine.LaterSetsNothing` | scripts/kconfig/confdata.c:217-285 | when CONFIG_ occurs neither in the name nor in the string, no later piece of the line changes any symbol |
| `DecimalPrint.ByCd` | pp_printf/vsprintf-full.c:97-114 | multiplying by 0xcd and shifting by 11 divides by ten up to 1028 and not at 1029 |
| `DecimalPrint.ByD` | pp_printf/vsprintf-full.c:108 | multiplying by 0xd and shifting by 7 divides by ten up to 68 and not at 69 |
| `DecimalPrint.LowDigits` | pp_printf/vsprintf-full.c:92-107 | the first two sums give two decimal digits and what is left of the number |
| `DecimalPrint.NumeralValue` | pp_printf/vsprintf-full.c:223-242 | the digits mean the number |
| `DecimalPrint.NumeralCanonical` | pp_printf/vsprintf-full.c:223-242 | they have no leading zero |
| `DecimalPrint.DecimalExact` | pp_printf/vsprintf-full.c:167-177 | the same for the decimal digits put_dec writes |
| `DecimalPrint.PutDecTrunc` | pp_printf/vsprintf-full.c:89-123 | writes exactly the digits of a number below 100000, least significant first, and nothing behind them |
| `DecimalPrint.PutDecFull` | pp_printf/vsprintf-full.c:125-165 | writes exactly five digits |
| `DecimalPrint.PutDec` | pp_printf/vsprintf-full.c:167-177 | writes exactly the decimal digits of any number |
| `NumberLayout.PutPowerDigits` | pp_printf/vsprintf-full.c:232-239 | writes exactly the octal or hexadecimal digits |
| `NumberLayout.PutDigits` | pp_printf/vsprintf-full.c:223-242 | the digits of any 32-bit number fit the 66 characters |
| `NumberLayout.Fill` | pp_printf/vsprintf-full.c:250-251 | a padding loop writes as many characters as size says and leaves it below zero |
| `NumberLayout.PutField` | pp_printf/vsprintf-full.c:244-276 | the five writing loops lay out padding, sign, prefix, zeros and digits |
| `NumberLayout.Number` | pp_printf/vsprintf-full.c:187-277 | writes the layout and nothing behind it |
| `NumberLayout.LayoutLength` | pp_printf/vsprintf-full.c:187-277 | the text is as long as the larger of width and sign + prefix + max(precision, digits) |
| `NumberLayout.LayoutEnds` | pp_printf/vsprintf-full.c:244-276 | LEFT puts the text at the left end with blanks behind, otherwise it stands at the right end with blanks in front or, with ZEROPAD, sign and prefix at the left end and the digits at the right end with zeros in between |
| `NumberLayout.LettersCase` | pp_printf/vsprintf-full.c:187-277 | digits and the X of the prefix are in small letters exactly with SMALL; the prefix is 0x or 0X, 0, or nothing |
| `NumberLayout.ParsesBack` | pp_printf/vsprintf-full.c:187-277 | whatever flags, width and precision, reading the text in its base gives the signed or unsigned number back |

## Left out

- KconfigLinks.Finalize: entries carry the dependencies that the first half of `menu_finalize` leaves when it propagates
  those of a block, which is not modelled; nor are the properties that the last loop adds to choices, and its warnings.
- KconfigRewriter.Rewriter.EliminateDups: the tree is one value in a field and a pointer to a node is a path into it, so
  sharing of nodes between expressions is not expressible; `expr_eliminate_yn` and `expr_transform` are functions on
  values although the code overwrites nodes.
- KconfigEqExact.EqExact: nothing is said of expressions that have a literal to fold inside an operand, where the answer
  depends on the order of operands.
- KconfigCovers.CoversExact: for dependencies over booleans that are in simplified form and no OR chain; of others only
  what a covered prompt implies is proved.
- KconfigCycles.Checker.CheckAll: without choice groups, whose members are checked together.
- E_LIST and E_RANGE expressions, `expr_trans_bool` and `expr_trans_compare` against m.
- Memory management in `expr.c` and all printing of diagnostics.
- RxQueue.SockQueue.Enqueue: which socket a frame is dispatched to is not modelled.
- SoftPllMain.TamePair: the drift of the two counters is assumed to stay within 2^29, which the loop itself is there to
  keep; that it does is control theory of an analog oscillator and not modelled.
- SoftPllSequencer.SoftPll.constructor: grandmaster mode on hardware without an external reference, where `spll_init`
  returns with the interrupt off before it has set anything up.
- SoftPllSequencer.SoftPll.Irq: the external reference PLL is its lock answer, and the auxiliary channels and the
  external realignment are not modelled.
- PacketFilter.DefaultClassifies: for packets at least as long as the program, 23 words; the shortest Ethernet frame has
  30 without its checksum. Programs for builds with Etherbone, and the bit-test instruction no program uses, are not
  modelled.
- PacketFilter.Assembler.Cmp: room in the buffer of 32 words is a precondition, as the code then writes behind it; the
  address and the flags that share PFCR0 with 24 bits of the word are not modelled.
- ConfLine.ReadLine: lines that do not start with C, unknown and numeric symbols, choice values and the warning for a
  second assignment are not modelled.
- NumberLayout.Number: `vsprintf` itself, string conversions, and pointer formats are not modelled.
- `mpll_update` with sequence numbers, which the build does not enable, and the biquad filter, which nothing calls.
- Drivers, the EEPROM layout, BOOTP, ARP and ICMP, the menus and graphical front ends, the shell and its monitors.
