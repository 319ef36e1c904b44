# Models of skynet, LPeg and the Lua collector

This project models the hardest parts of skynet and of the libraries it carries, and proves
what they promise.

* **LPeg** (`Peg*.dfy`, `Charset.dfy`): pattern trees with a big-step meaning, the analyses of
  the compiler, the compiler itself (`codegen`, `correctcalls`, `peephole`), the backtracking
  machine, the checks on grammars, and the operators that build and rearrange trees. For every
  pattern that the constructors accept, whose calls name rules below 256, whose grammars have no
  left recursion, and whose look-behinds call no rule that leads back to the rule with the
  look-behind, the compiled code ends at a position exactly when the pattern matches up to it
  (`PegTheorems.CompiledCorrect`). `verifyrule` accepts every grammar without left recursion outside
  look-behinds, but not only those: it forgets its accumulator at sub-grammars. With the accumulator
  kept it accepts exactly them (`PegLeftRecursion.LeftRecursionExact`). Look-behinds it does not
  search, so that it accepts grammars whose matching never ends (`BehindForgotten`).
* **The collector of Lua 5.3** (`LuaHeap.dfy`, `Gc*.dfy`): marking with three colours in steps,
  barriers, weak tables and ephemerons, the atomic phase, the sweep, and what the program may do
  in between. Whatever the program can get at exists, at any time (`NeverFreed`), as long as no
  atomic phase comes after `lua_setmetatable` has missed a metatable (`LateMetatableFreed`); a full
  collection frees whatever lies outside some closed set with the roots, and leaves the others all
  that they hold of each other (`FullGc`); and nothing is cleared that a live object refers to
  strongly (`AtomicStep`), but in a table that was all-weak when it was visited and has become
  strong since (`StrongElementLost`).
* **The scheduler** (`MessageQueue.dfy`, `Scheduler*.dfy`): the queues of the services as ring
  buffers and a linked list, and a machine whose steps are the locked regions of any number of
  threads. In every run what was sent to a service is handled exactly once, as the events alone
  tell (`SchedulerTrace.SentExactlyOnce`), and every run can be continued until nothing is left to
  do (`SchedulerProgress.ComesToRest`).
* **The timer** (`TimerPlace.dfy`, `TimerWheel.dfy`, `TimerRuns.dfy`): the wheel of linked lists
  on a clock that wraps at 2^32, against a plain list of timers.
* **Sockets** (`SendQueue.dfy`, `SocketWrite.dfy`): the two linked lists of packages that wait to
  be written, for a connection that takes any part of what it is given; and **framing**
  (`Framing.dfy`, `Netpack.dfy`), which must not depend on how a stream was cut up.
* **Shared data** (`SharedTable.dfy`, `SharedBuild.dfy`, `SharedConvert.dfy`,
  `SharedLookup.dfy`): hash tables with chained collisions, built in two passes, against the Lua
  tables they show; and **shared versions** (`SharedVersions*.dfy`): the read/write lock and the
  counted versions of an object, as a machine of atomic steps, in which readers see the version of
  the last writer (`SharedVersionsTrace.ReaderGets`) and nobody waits for ever
  (`SharedVersionsProgress.NoDeadlock`).
* **Handles** (`Handles.dfy`, `HandleNames.dfy`, `HandleRegistry.dfy`): the table of contexts and
  the sorted names.
* **Codecs** (`Des.dfy`, `KeyExchange.dfy`, `Seri.dfy`, `SeriBlocks.dfy`): DES with padding, the
  key exchange, and the serialization of Lua values.

Where the source works step by step the model is a class whose methods do the same steps. Ghost
preconditions of such methods stand for the assertions of the source and for what its types
guarantee; the invariants (`Valid`, `Inv`) are established at the start and kept by every
operation, so they hold in every run; the one exception, in the collector, is the subject of
`LateMetatableFreed`.

## Model

| member | source | states |
|---|---|---|
| Peg.MatchMonotone | skynet/3rd/lpeg/lptree.h:14-46 | the meaning of a pattern does not depend on the budget it is computed with: an outcome found with one budget is the outcome for every larger one |
| Peg.OutcomeUnique | skynet/3rd/lpeg/lptree.h:14-46 | a pattern has at most one outcome at a position |
| Peg.MatchCharset | skynet/3rd/lpeg/lpcode.c:107-125 | patterns that `tocharset` converts match exactly one character of their set |
| Charset.KindOf | skynet/3rd/lpeg/lpcode.c:41-67 | the class of a charset tells exactly whether it is empty, full, or has one member, and which |
| PegAnalysis.NoFailSound | skynet/3rd/lpeg/lpcode.c:172-206 | what `nofail` accepts never fails, on any subject, from any position |
| PegAnalysis.NotNullableSound | skynet/3rd/lpeg/lpcode.c:172-206 | what `nullable` rejects consumes at least one character whenever it matches |
| PegAnalysis.FixedLenSound | skynet/3rd/lpeg/lpcode.c:213-252 | `fixedlen` n means that every match consumes n characters |
| PegBehind.LengthsFound | skynet/3rd/lpeg/lpcode.c:213-245 | `fixedlen` finds the length of a pattern if it has one only, and otherwise that it has more, where loops have all lengths and each alternative counts |
| PegBehind.NullableExact | skynet/3rd/lpeg/lpcode.c:143-206 | without predicates and calls, `nullable` and `nofail` are the same, and true if and only if the pattern matches at the end of the subject |
| PegAnalysis.FirstSound | skynet/3rd/lpeg/lpcode.c:267-342 | if the next character is outside the first set, the pattern fails, or it consumes nothing and the character is outside the follow set too |
| PegAnalysis.FirstEmptySound | skynet/3rd/lpeg/lpcode.c:267-342 | a pattern that `getfirst` does not report as possibly empty fails at the end of the subject |
| PegAnalysis.HeadFailSound | skynet/3rd/lpeg/lpcode.c:350-373 | a `headfail` pattern matches if and only if there is a next character and it is in its first set |
| PegVm.HaltUnique | skynet/3rd/lpeg/lpvm.c:147-351 | a run of the machine ends in one way only |
| PegLink.CorrectFromResolves | skynet/3rd/lpeg/lpcode.c:816-833 | after `correctcalls` every call leads to its rule, as a jump exactly where a return follows it |
| PegLink.GrammarLinked | skynet/3rd/lpeg/lpcode.c:840-856 | in the code of a grammar each call is linked to the code of the rule it names |
| PegCodeProof.GenOk | skynet/3rd/lpeg/lpcode.c:891-916 | the code of every pattern does what the pattern means, in every mode: with a test in front of it, inside an option, and with any follow set |
| PegCodeProof.ChoiceOk | skynet/3rd/lpeg/lpcode.c:650-687 | all four forms of choice (head-fail test, disjoint first sets, reuse of an open choice, full choice) have the meaning of ordered choice |
| PegCodeProof.RepOk | skynet/3rd/lpeg/lpcode.c:749-789 | all forms of repetition (span, test loop, loop in an option, full loop) have the meaning of greedy repetition |
| PegCodeProof.NotOk | skynet/3rd/lpeg/lpcode.c:795-809 | both forms of the not-predicate succeed exactly where the pattern fails and consume nothing |
| PegCodeProof.AndOk | skynet/3rd/lpeg/lpcode.c:693-711 | both forms of the and-predicate, by look-behind and by back commit, have the same meaning |
| PegCodeProof.CallOk | skynet/3rd/lpeg/lpcode.c:859-863 | calls, and calls that became jumps, run the rule and go on behind the call |
| PegCodeProof.ProgramOk | skynet/3rd/lpeg/lpcode.c:973-983 | before `peephole`, the code of a pattern followed by `IEnd` ends with the outcome of the pattern |
| PegPeephole.Simulates | skynet/3rd/lpeg/lpcode.c:928-967 | code in which one instruction acts for a chain of jumps ends as the original does |
| PegPeephole.PeepAtOk | skynet/3rd/lpeg/lpcode.c:928-967 | one step of `peephole` keeps the end of every halting run |
| PegPeephole.PeepholeOk | skynet/3rd/lpeg/lpcode.c:928-967 | `peephole` keeps the end of every halting run |
| PegLayout.GenTidy | skynet/3rd/lpeg/lpcode.c:891-916 | generated code is a sequence of whole instructions, and its jumps stay inside it |
| PegLayout.FinalTargetExact | skynet/3rd/lpeg/lpcode.c:614-618 | where a chain of jumps ends at all, following as many jumps as there are slots finds its end |
| PegLayout.PeepAtSettled | skynet/3rd/lpeg/lpcode.c:928-967 | where no chain of jumps is a cycle, no round of `peephole` makes one |
| PegJumps.CodeSettled | skynet/3rd/lpeg/lpcode.c:614-618 | in the code of an accepted pattern without left recursion whose look-behinds call no rule that leads back no chain of jumps is a cycle, so the loop of `finaltarget` ends from every place |
| PegJumps.ResolvingSettled | skynet/3rd/lpeg/lpcode.c:816-833 | the same at every moment while `correctcalls` resolves the calls of such a grammar |
| PegTheorems.JumpsEnd | skynet/3rd/lpeg/lpcode.c:928-983 | the same for the whole program before and after `peephole` |
| PegGrammar.CheckAuxStable | skynet/3rd/lpeg/lpcode.c:172-206 | with left calls nested less than b deep, `checkaux` needs no more than b calls: its recursion in the source ends |
| PegGrammar.VerifySound | skynet/3rd/lpeg/lptree.c:995-1035 | what `verifyrule` accepts with its accumulator kept has no deep chain of left calls outside look-behinds, and its answer is the nullability of the rule |
| PegLeftRecursion.LeftRecursionExact | skynet/3rd/lpeg/lptree.c:995-1035 | with the accumulator kept at sub-grammars a rule is accepted if and only if its left calls outside look-behinds nest within some bound |
| PegLeftRecursion.VerifyRuleComplete | skynet/3rd/lpeg/lptree.c:995-1035 | `verifyrule` as it is never rejects a rule that is not left recursive outside look-behinds |
| PegLeftRecursion.KeepingStricter | skynet/3rd/lpeg/lptree.c:1031-1032 | what is accepted with the accumulator kept is accepted by `verifyrule` |
| PegGrammar.AcceptedEnds | skynet/3rd/lpeg/lptree.c:1038-1056 | matching a pattern built from accepted loops, and accepted grammars without left recursion whose look-behinds call no rule that leads back, ends, on every subject, from every position |
| PegLeftRecursion.VerifyRuleForgets | skynet/3rd/lpeg/lptree.c:1031-1032 | a left recursive grammar that `verifyrule` accepts, because the case of a sub-grammar drops the accumulator; keeping it rejects the grammar, and matching it never ends |
| PegLeftRecursion.BehindForgotten | skynet/3rd/lpeg/lptree.c:1004-1006 | a grammar that is accepted, also with the accumulator kept, and has no left calls, while matching it never ends: a rule calls itself in a look-behind, where `verifyrule` does not look |
| PegLeftRecursion.LevelsExactly | skynet/3rd/lpeg/lptree.c:680-690 | no look-behind calls a rule that leads back to the rule with the look-behind, if and only if the rules can be given levels that calls do not raise and look-behinds lower |
| PegSettled.CodeSettles | skynet/3rd/lpeg/lpcode.c:891-916 | for an accepted pattern without left recursion outside look-behinds, whatever these call, the generated code is the same for all budgets of the analyses from some bound on |
| PegCompiler.CompileState.EmitChoice | skynet/3rd/lpeg/lpcode.c:650-687 | `codechoice`, with its offsets patched later, appends the block specified for the choice |
| PegCompiler.CompileState.EmitRep | skynet/3rd/lpeg/lpcode.c:749-789 | `coderep` appends the block specified for the repetition |
| PegCompiler.CompileState.EmitNot | skynet/3rd/lpeg/lpcode.c:795-809 | `codenot` appends the block specified for the predicate |
| PegCompiler.CompileState.EmitAnd | skynet/3rd/lpeg/lpcode.c:693-711 | `codeand`, when its search for captures has come back, appends the block specified for the predicate |
| PegCaptures.SearchEndsExactly | skynet/3rd/lpeg/lpcode.c:131-150 | the search of `hascaptures` through a pattern without captures comes back if and only if, from each rule that the pattern calls on, and in the grammars inside it from the first rule on, every rule calls later rules only |
| PegCaptures.SearchNeverEnds | skynet/3rd/lpeg/lpcode.c:693-698 | an accepted grammar without left recursion and look-behinds for which this search never comes back, so that `compile` does not end |
| PegCompiler.CompileState.EmitGrammar | skynet/3rd/lpeg/lpcode.c:840-856 | `codegrammar` appends the rules with their calls resolved |
| PegCompiler.CompileState.CorrectCalls | skynet/3rd/lpeg/lpcode.c:816-833 | `correctcalls`, which steps from instruction to instruction, resolves every open call of the block and changes nothing else |
| PegCompiler.CompileState.EmitCode | skynet/3rd/lpeg/lpcode.c:891-916 | `codegen` appends to the code exactly the block specified for the pattern and its mode |
| PegCompiler.CompileState.PeepholeInPlace | skynet/3rd/lpeg/lpcode.c:928-967 | `peephole` on the code array does what its specification does, and leaves no cycle of jumps where there was none |
| PegCompiler.CompileState.Compile | skynet/3rd/lpeg/lpcode.c:973-983 | `compile`, when the searches for captures come back, leaves the code for which the theorems hold |
| PegMachine.Machine.Fail | skynet/3rd/lpeg/lpvm.c:289-299 | label `fail` drops pending calls and returns to the last choice |
| PegMachine.Machine.Round | skynet/3rd/lpeg/lpvm.c:160-351 | one round of the interpreter does the step of the instruction, or reports that the stack is full exactly when the step needs more than the largest stack |
| PegMachine.Machine.Match | skynet/3rd/lpeg/lpvm.c:147-351 | the interpreter loop over the growing backtrack array gives the answer of the unbounded machine, unless some state of the run needs more entries than allowed, and then exactly it reports the overflow |
| PegTheorems.CompiledComputes | skynet/3rd/lpeg/lpcode.c:973-983 | whenever a pattern has an outcome, the compiled code ends with it |
| PegTheorems.CompiledCorrect | skynet/3rd/lpeg/lpcode.c:973-983 | for every accepted pattern without left recursion, whose look-behinds call no rule that leads back and whose calls name rules below 256, every subject and start: the compiled code ends at j if and only if the pattern matches up to j, gives up if and only if it fails, and always does one of them |
| PegTheorems.MatchPattern | skynet/3rd/lpeg/lptree.c:1149-1170 | compiling and running such a pattern answers what the pattern means, and overflows the stack exactly when some state of the run exceeds the limit |
| PegRuleNumbers.CallLeadsToRule | skynet/3rd/lpeg/lpcode.c:859-863 | the call of rule k leads to the code of rule k if and only if k fits the byte in which its number is kept |
| PegRuleNumbers.RuleNumberTruncated | skynet/3rd/lpeg/lpcode.c:859-863 | a grammar of 257 rules that is accepted and matches "a" while its code gives up |
| PegTree.UnnestedMeaning | skynet/3rd/lpeg/lptree.c:78-90 | making one sequence or choice right associative keeps its meaning |
| PegTree.FixedRightAssociative | skynet/3rd/lpeg/lptree.c:100-126 | after `finalfix` no sequence starts with a sequence and no choice with a choice |
| PegTree.FixedMeaning | skynet/3rd/lpeg/lptree.c:100-126 | `finalfix` over a pattern and the rules it calls changes no outcome |
| PegTree.CorrectAssociativity | skynet/3rd/lpeg/lptree.c:78-90 | the loop over the node array, with its moves and new distances, ends, leaves the nodes of the rotated tree, and touches nothing around them |
| PegTree.FinalFix | skynet/3rd/lpeg/lptree.c:100-126 | `finalfix` on the node array leaves the nodes of the right associative tree |
| PegTree.FixRules | skynet/3rd/lpeg/lptree.c:1083-1083 | `finalfix` on the rules of a new grammar leaves the nodes of the right associative rules |
| PegTree.LayoutUnique | skynet/3rd/lpeg/lptree.h:36-67 | the nodes of an array are those of one pattern only |
| PegOperators.LpSeqMeaning | skynet/3rd/lpeg/lptree.c:532-542 | what `lp_seq` builds matches as one pattern followed by the other, and fails when either does |
| PegOperators.LpChoiceMeaning | skynet/3rd/lpeg/lptree.c:551-566 | what `lp_choice` builds, merged charset or shortcut, matches as the first pattern, or as the second where the first fails |
| PegOperators.LpSubMeaning | skynet/3rd/lpeg/lptree.c:627-646 | what `lp_sub` builds, charset difference or predicate, matches as the first pattern exactly where the second fails |
| PegOperators.Shortcuts | skynet/3rd/lpeg/lptree.c:532-646 | empty patterns, failures, and alternatives behind a pattern that cannot fail are left out, and operators on sets give sets |
| PegOperators.AtLeastMatches | skynet/3rd/lpeg/lptree.c:576-584 | p^n matches from i to j if and only if at least n matches of p in a row lead there and p fails at j |
| PegOperators.AtLeastFails | skynet/3rd/lpeg/lptree.c:576-584 | p^n fails if and only if p fails after fewer than n matches in a row |
| PegOperators.AtMostMatches | skynet/3rd/lpeg/lptree.c:585-600 | p^-n matches from i to j if and only if at most n matches of p lead there and p fails at j or n are used up |
| PegOperators.LpStar | skynet/3rd/lpeg/lptree.c:572-603 | the loops that fill the node array build those two trees, and a nullable body is refused for n >= 0 |
| PegOperators.OpenNullableExact | skynet/3rd/lpeg/lpcode.c:166-206 | with calls that are still open, a pattern counts as nullable if and only if it is nullable in every grammar whose rules for these calls are there and not nullable |
| PegOperators.StarRefuses | skynet/3rd/lpeg/lptree.c:572-603 | when its calls name rules that are not nullable, `lp_star` refuses exactly the loops that `checkloops` refuses in the finished grammar; a call by itself is never refused |
| PegBehind.LpBehindMeaning | skynet/3rd/lpeg/lptree.c:680-690 | what `lp_behind` builds matches, taking nothing, if and only if its pattern matches some text that ends here |
| PegBehind.BehindRefused | skynet/3rd/lpeg/lptree.c:683-686 | a pattern is refused if and only if it has more than one length, read without looking at what can match, or one above 255 |
| PegOperators.OperatorsClosed | skynet/3rd/lpeg/lptree.c:532-646 | sequence, choice and difference of accepted patterns are accepted |
| PegOperators.AtLeastClosed | skynet/3rd/lpeg/lptree.c:576-584 | a loop that `lp_star` does not refuse is accepted |
| GcCollector.Collector.ReallyMark | skynet/3rd/lua/lgc.c:236-284 | marking a white object keeps the three-colour invariant and marks nothing outside a closed set that has the object |
| GcCollector.Collector.TraverseStrong | skynet/3rd/lua/lgc.c:434-449 | after its traversal everything a strong table refers to is marked, and keys of empty slots are marked or gone |
| GcCollector.Collector.TraverseWeakValue | skynet/3rd/lua/lgc.c:362-384 | the keys are marked, and without the flag the values are as well |
| GcCollector.Collector.TraverseEphemeron | skynet/3rd/lua/lgc.c:395-431 | the array part is marked; if nothing was marked, marked keys have marked values; the flags tell what is not marked |
| GcCollector.Collector.TraverseTable | skynet/3rd/lua/lgc.c:452-472 | a traversed table is black with nothing white in it, or gray in a list that fits what it still may lack |
| GcCollector.Collector.PropagateMark | skynet/3rd/lua/lgc.c:570-611 | visiting the next gray object keeps the invariant, and makes progress |
| GcCollector.Collector.PropagateAll | skynet/3rd/lua/lgc.c:614-616 | visiting all gray objects ends and keeps the invariant |
| GcCollector.Collector.ConvergeEphemerons | skynet/3rd/lua/lgc.c:619-634 | convergence ends, every round that goes on having marked something; then all marked objects but those of `allweak` have what they refer to strongly, and the values of their marked keys, so the marked set is closed if and only if that holds of the tables of `allweak`; it is inside every closed set that held the marked objects before |
| GcCollector.Collector.FinishMarking | skynet/3rd/lua/lgc.c:1004-1011 | at the end of marking the marked objects are closed under strong references and "marked key, marked value" if and only if that holds of the tables of `allweak` whose weakness was changed there; so always, when there is none |
| GcTraverse.ConvergedClosed | skynet/3rd/lua/lgc.c:619-634 | once no ephemeron of the list has anything left to mark, the marked objects form a closed set if and only if the tables of `allweak` have nothing strong that is not marked |
| GcCollector.Collector.ClearValues | skynet/3rd/lua/lgc.c:668-685 | afterwards no table of the list has a value that is not marked; every slot whose value is marked stays as it is, and so does everything else |
| GcCollector.Collector.ClearKeys | skynet/3rd/lua/lgc.c:650-661 | afterwards no entry of a table of the list has a key that is not marked; every entry whose key is marked stays as it is |
| GcSweep.HeldCleared | skynet/3rd/lua/lgc.c:650-685 | what an array slot, an entry or a field held, with everything in it alive, it still holds after a clearing that takes out only what is dead |
| GcCollector.Collector.MarkAndClear | skynet/3rd/lua/lgc.c:990-1033 | at the end of the atomic phase everything marked, roots included, refers to marked objects only, through weak references too; and what a marked object held, with marked keys and values, it still holds |
| GcCollector.Collector.AtomicStep | skynet/3rd/lua/lgc.c:1068-1075 | after the change of white the live objects are the marked ones; they are inside every closed set with the roots that bounded marking; the invariants go on unless a metatable came late; what live objects referred to strongly before is alive, if and only if that holds of the tables of `allweak` whose weakness was changed there; and what a live object held of living keys and values, weakly or not, it still holds |
| GcRuns.StrongElementLost | skynet/3rd/lua/lgc.c:452-472 | a run of the collector and the program from a new state on, in which a table that the program can get at, and that is not weak, loses its element: it was all-weak when it was visited |
| GcCollector.Collector.SweepList | skynet/3rd/lua/lgc.c:745-762 | a stretch of the sweep frees dead objects only, and gives the others the current white |
| GcCollector.Collector.SingleStep | skynet/3rd/lua/lgc.c:1053-1105 | every step of the collector brings the cycle nearer to its end, keeps all invariants unless it is the atomic phase and a metatable came late, and leaves living objects all that they hold of living ones |
| GcCollector.Collector.RestartCollection | skynet/3rd/lua/lgc.c:338-346 | a cycle starts with all objects white; the roots are marked, all inside a closed set that has them, and gray objects wait |
| GcCollector.Collector.NeverFreed | skynet/3rd/lua/lgc.c:745-762 | whatever the program can get at from the roots, by strong or weak references, exists and is not dead, at any point of a cycle |
| GcCollector.Collector.FullGc | skynet/3rd/lua/lgc.c:1167-1186 | a full collection ends, and frees every object that is outside some closed set with the roots, late metatables counted; the objects that are left hold all that they held of each other |
| GcCollector.Collector.RunUntil | skynet/3rd/lua/lgc.c:1112-1116 | running to a state of the cycle ends |
| GcCollector.Collector.StoreForward | skynet/3rd/lua/lgc.c:155-164 | a write followed by the forward barrier keeps the invariants, while marking and while sweeping, and changes nothing but the object written to |
| GcCollector.Collector.StoreBack | skynet/3rd/lua/lgc.c:171-177 | a write followed by the backward barrier keeps the invariants |
| GcCollector.Collector.NewOnStack | skynet/3rd/lua/lgc.c:209-217 | a new object is safe at any point of a cycle |
| GcCollector.Collector.NewKey | skynet/3rd/lua/ltable.c:489-492 | a new key with its barrier keeps the invariants |
| GcCollector.Collector.SetSlot | skynet/3rd/lua/lvm.h:81-87 | a new value of a slot with its barrier keeps the invariants |
| GcCollector.Collector.SetField | skynet/3rd/lua/lapi.c:1301-1302 | a write to an upvalue with its barrier keeps the invariants, and changes nothing else |
| GcCollector.Collector.SetMetatable | skynet/3rd/lua/lapi.c:858-874 | a new metatable with its barrier keeps the invariants; it comes late, and is kept apart from them, if and only if the table is all-weak, was traversed in this cycle, and the metatable is white |
| GcRuns.LateMetatableFreed | skynet/3rd/lua/lapi.c:858-866 | a run of the collector and the program from a new state on, after which an object that the program can get at, a late metatable, is dead |
| GcCollector.Collector.LateAlive | skynet/3rd/lua/lgc.c:1068-1075 | whatever the program can get at, over late metatables too, is alive if and only if the late metatables of the tables that it can get at are |
| GcCollector.Collector.RealLive | skynet/3rd/lua/lgc.h:84-94 | at any time but after an atomic phase with late metatables, living objects refer to living ones, over late metatables too |
| GcCollector.Collector.SetMode | skynet/3rd/lua/lgc.c:452-461 | the weakness of a table may change at any point of a cycle, and the invariants hold; a table of `allweak` that is made less weak is noted |
| GcProgram.SetMetaOfAllWeak | skynet/3rd/lua/lapi.c:858-866 | for an all-weak table that the propagate phase has traversed, setting the metatable keeps the invariant if and only if the new one is marked: the barrier looks for a black object, and this one is gray in a list that is not visited again |
| GcProgram.AccessibleLive | skynet/3rd/lua/lgc.h:84-94 | an object reached from the roots over any chain of references is alive |
| GcProgram.WriteBack | skynet/3rd/lua/lgc.c:171-177 | a black object that takes up anything may become gray and wait for another visit |
| GcInvariant.MarkGray | skynet/3rd/lua/lgc.c:236-280 | putting a white object into the gray list keeps the invariant, and each object in one list only |
| GcInvariant.CloseGray | skynet/3rd/lua/lgc.c:362-431 | a weak table may be left in a list only when what that list does not look at again is marked |
| GcSweep.Flipped | skynet/3rd/lua/lgc.c:1030-1030 | changing the white makes exactly the unmarked objects dead |
| MessageQueue.Queue.Enqueue | skynet/skynet-src/skynet_mq.c:190-202 | a push appends the message to what waits, growing the full ring in order |
| MessageQueue.Queue.Expand | skynet/skynet-src/skynet_mq.c:174-187 | the doubled ring holds the same messages in the same order |
| MessageQueue.Queue.Pop | skynet/skynet-src/skynet_mq.c:138-172 | a pop takes the oldest message, or clears the flag when there is none; the threshold of overload doubles until it covers the length |
| MessageQueue.GlobalQueue.Push | skynet/skynet-src/skynet_mq.c:44-56 | the queue becomes the last of the linked list |
| MessageQueue.GlobalQueue.Pop | skynet/skynet-src/skynet_mq.c:59-75 | the first queue of the linked list is taken out and unlinked |
| MessageQueue.GlobalQueue.SendTo | skynet/skynet-src/skynet_mq.c:190-209 | a push also links a queue that was not global, once |
| MessageQueue.GlobalQueue.MarkRelease | skynet/skynet-src/skynet_mq.c:220-228 | marking for release links a queue that was not global |
| MessageQueue.GlobalQueue.Release | skynet/skynet-src/skynet_mq.c:240-251 | a marked queue hands all its messages to the drop function in order; any other goes back into the list |
| SchedulerProof.StepInv | skynet/skynet-src/skynet_server.c:120-330 | every step of every thread keeps the invariant on places, references and messages |
| SchedulerProof.InOnePlace | skynet/skynet-src/skynet_mq.c:44-75 | in every run each queue is in exactly one place (once in the global list, with one thread, or waiting and empty) until it is freed, and then in none |
| SchedulerProof.MutualExclusion | skynet/skynet-src/skynet_server.c:276-330 | in every run no two threads run the code of one service at once, and the callback runs only after init succeeded |
| SchedulerProof.NeverStranded | skynet/skynet-src/skynet_mq.c:190-209 | in every run a queue with messages is in the global list or with a thread |
| SchedulerProof.ExactlyOnce | skynet/skynet-src/skynet_server.c:276-330 | in every run the messages that arrived at a service are, in order, delivered, in hand, dropped, or waiting; they are dropped only when the service is retired and no reference is left; `SentExactlyOnce` tells from the events which messages these are |
| SchedulerTrace.SentExactlyOnce | skynet/skynet-src/skynet_server.c:218-228 | in every run the messages that the threads pushed to a service are, in order, those its callback has ended for, the one in hand, those dropped with its queue, and those in the queue; and they are, with those that threads are about to push, the messages that were sent to it while it could be reached |
| SchedulerTrace.AllHandled | skynet/skynet-src/skynet_server.c:218-330 | when all threads are idle and no queue is global, a service that was not retired has handled all that was sent to it |
| SchedulerTrace.Status | skynet/skynet-src/skynet_server.c:120-171 | in every run a service exists exactly if it was created, can be reached exactly if it was not retired since, and is launched exactly if the reference that its creator dropped after a successful init was not the last one |
| SchedulerProgress.WorkBrings | skynet/skynet-src/skynet_server.c:276-330 | every step of a thread at work brings the state nearer to rest |
| SchedulerProgress.ComesToRest | skynet/skynet-src/skynet_server.c:276-330 | every run can be continued by what threads do by themselves until all are idle and no queue is global |
| SchedulerProgress.AllComesToBeHandled | skynet/skynet-src/skynet_server.c:276-330 | and then all that was sent to a service that was not retired is handled |
| SchedulerProgress.Turn | skynet/skynet-src/skynet_server.c:292-317 | a worker handles in one turn as many messages as its weight says, the first ones that wait: the number behind the first one, divided by a power of two, and one at least |
| SchedulerProgress.NextQueue | skynet/skynet-src/skynet_server.c:319-329 | after its turn it goes on with the first queue of the global list, and puts its own at the end; without another one it keeps its own |
| SchedulerProof.NeverTouchedWhenFreed | skynet/skynet-src/skynet_mq.c:98-104 | in every run nobody touches a freed queue or, with a reference to it, a freed context; a queue is marked for release at most once, and it is linked only when it is not in the list |
| SchedulerProof.LaunchSafe | skynet/skynet-src/skynet_server.c:150-161 | when the creator sets `init` and logs, without a reference, the context is there if and only if another reference is held or the thread that dropped the last one has not deleted it yet |
| SchedulerProof.LaunchUnsafe | skynet/skynet-src/skynet_server.c:150-161 | a run in which the creator sets `init` in a context that is freed, because its handle was retired just before |
| SchedulerProof.Quiescent | skynet/skynet-src/skynet_server.c:197-217 | when all threads are idle and no queue is global, nothing is left over: retired services are freed, the others have delivered everything |
| TimerPlace.PlaceKept | skynet/skynet-src/skynet_timer.c:71-90 | after a tick every pending timer that the tick does not move is where `add_node` would put it now, across the wrap of the clock |
| TimerPlace.ListsApart | skynet/skynet-src/skynet_timer.c:71-90 | each level and digit has a list of its own |
| TimerPlace.DueNow | skynet/skynet-src/skynet_timer.c:156-167 | a timer is in the near list of the clock if and only if it is due |
| TimerPlace.MovedFrom | skynet/skynet-src/skynet_timer.c:115-136 | the loop over the digits of the clock finds the list that a tick moves |
| TimerWheel.TickPlaced | skynet/skynet-src/skynet_timer.c:115-136 | when the clock goes on, only the nodes of the moved list are out of place, and timers of one deadline stay in order |
| TimerWheel.FirePlaced | skynet/skynet-src/skynet_timer.c:156-167 | the near list of the clock has exactly the timers that are due, in the order they were added |
| TimerWheel.LinkList.Link | skynet/skynet-src/skynet_timer.c:64-69 | the node becomes the last of the list |
| TimerWheel.LinkList.Clear | skynet/skynet-src/skynet_timer.c:55-62 | the list is empty, and its nodes still hang together |
| TimerWheel.Timer.AddNode | skynet/skynet-src/skynet_timer.c:71-90 | a loose node goes to the end of the list of its place; the other lists and the other loose nodes stay as they are |
| TimerWheel.Timer.MoveList | skynet/skynet-src/skynet_timer.c:105-113 | all nodes of a list get to their new places, in order |
| TimerWheel.Timer.Shift | skynet/skynet-src/skynet_timer.c:115-136 | after the tick every node is in its place again |
| TimerWheel.Timer.Add | skynet/skynet-src/skynet_timer.c:92-103 | the timer is appended to those pending, due `delay` ticks from now |
| TimerWheel.Timer.Update | skynet/skynet-src/skynet_timer.c:169-182 | a tick fires the pending timers that are due in it, in the order they were added, and no others |
| TimerRuns.FiresOnTime | skynet/skynet-src/skynet_timer.c:92-182 | in a run of a plain list of timers, the tick that brings the count to d fires those due at d |
| TimerRuns.FiresExactlyOnce | skynet/skynet-src/skynet_timer.c:92-182 | in every run from the start, what fires in a tick is exactly what was added for it, in order of addition |
| TimerRuns.Drive | skynet/skynet-src/skynet_timer.c:92-182 | the wheel does in every run what the plain list does |
| SendQueue.Advance | skynet/skynet-src/socket_server.c:491-496 | when a part of the first package is written, what was written and what waits are still all that was accepted, in order of each priority |
| SendQueue.Finish | skynet/skynet-src/socket_server.c:491-500 | when the rest of the first package is written, the same holds without it |
| SendQueue.Insert | skynet/skynet-src/socket_server.c:668-678 | a package of high priority goes in front of those of low priority only, so both orders are kept |
| SendQueue.Direct | skynet/skynet-src/socket_server.c:709-729 | a package that is written when nothing waits leaves its rest as the only one that waits |
| SocketWrite.Socket.WriteHead | skynet/skynet-src/socket_server.c:478-498 | whatever `write` does (a part, nothing, interrupted, would block, an error), the bytes on the wire and those that wait fit together |
| SocketWrite.Socket.SendLoop | skynet/skynet-src/socket_server.c:476-505 | buffers leave the linked list from its head, whole, until one is not written to its end |
| SocketWrite.Socket.RaiseUncomplete | skynet/skynet-src/socket_server.c:585-599 | the started package moves from one linked list to the other, and the order of all that waits stays |
| SocketWrite.Socket.SendBuffer | skynet/skynet-src/socket_server.c:610-638 | the first package of low priority is never partly written between calls, and only a package that was started is moved to the other list; a half closed socket is closed exactly when nothing waits at a call that found no package of low priority, unless the connection failed; write events stay on if something waits or did wait with low priority |
| SocketWrite.Socket.WriteEvent | skynet/skynet-src/socket_server.c:1269-1282 | a half closed socket on which nothing waits is closed when it can be written to; one with packages of high priority only is closed, or some are left; a connected one stays so unless writing failed |
| SocketWrite.Socket.Send | skynet/skynet-src/socket_server.c:693-761 | a package is accepted exactly by a socket that is connected or connecting, and all that was accepted before stays accepted in order; when nothing waits it is written at once, as far as the connection takes it |
| SocketWrite.Socket.CloseSocket | skynet/skynet-src/socket_server.c:785-809 | a close that is no shutdown throws nothing away, unless the connection failed; the socket stays, half closed, while something waits |
| SocketWrite.Socket.Start | skynet/skynet-src/socket_server.c:829-858 | an accepted socket becomes connected when it is started, and only then |
| SocketWrite.Socket.ReportConnect | skynet/skynet-src/socket_server.c:1104-1135 | what was sent while connecting still waits, and write events stay on for it |
| SocketWrite.Socket.OnTheWire | skynet/skynet-src/socket_server.c:601-608 | at any time the wire has whole packages and a part of at most one more, whose rest heads the queue; of each priority it has a first part of what was accepted, in order, and all of it when nothing waits; `wb_size` counts what waits |
| SocketWrite.Run | skynet/skynet-src/socket_server.c:1203-1282 | for every sequence of sends, partial writes, write events, closes and losses: the state and the accepted packages are those that the events and the reports determine; of each priority the wire has a first part of the accepted packages, in order, in whole packages but for one, and all of them when nothing waits and nothing was dropped; packages are dropped only after a failure or an event that breaks the socket; while something waits the socket is told when it can be written to, a half closed socket too; and that is closed when it can be written to and nothing waits, or when all is written and only packages of high priority waited |
| Framing.Continue | skynet/lualib-src/lua-netpack.c:24-26 | the packages of a stream do not depend on where it was cut |
| Framing.Unpacked | skynet/lualib-src/lua-netpack.c:428-450 | packages that were packed one behind the other are found again, with nothing left |
| Framing.Pack | skynet/lualib-src/lua-netpack.c:434-450 | packages of 65536 bytes and more are refused, others get their length in front |
| Netpack.Queue.FindUncomplete | skynet/lualib-src/lua-netpack.c:90-112 | takes out what is kept for one socket and leaves that of all others |
| Netpack.Queue.ExpandQueue | skynet/lualib-src/lua-netpack.c:131-146 | the larger ring has the packages of the full one, in order |
| Netpack.Queue.PushData | skynet/lualib-src/lua-netpack.c:148-165 | a package goes behind those that wait, whether or not the ring grows |
| Netpack.Queue.PushMore | skynet/lualib-src/lua-netpack.c:186-213 | all whole packages are queued in order, and what is behind them is kept |
| Netpack.Queue.Filter | skynet/lualib-src/lua-netpack.c:225-305 | bytes are cut together with those kept before them; one package alone is told at once, more are queued |
| Netpack.Run | skynet/lualib-src/lua-netpack.c:225-408 | for every run with any sockets and any chunks: what each event tells, what waits and what is kept is what the events determine; the packages told or queued for a socket are those of its closed streams and of its whole present stream, in order |
| Netpack.EmittedExactly | skynet/lualib-src/lua-netpack.c:225-305 | the packages that come out for a socket are exactly those of its whole stream, in order, wherever it was cut |
| Netpack.ToldOrQueued | skynet/lualib-src/lua-netpack.c:225-305 | a package that is cut alone is told at once, several go to the queue, and nothing else is told |
| Netpack.TakenOrWaiting | skynet/lualib-src/lua-netpack.c:394-408 | what is queued is taken out in order, or still waits |
| SharedTable.LinkLaid | skynet/lualib-src/lua-sharedata.c:258-265 | linking a node behind its main position keeps every chain without cycles and with all its entries |
| SharedTable.EmptySlot | skynet/lualib-src/lua-sharedata.c:250-257 | while an entry has no slot there is an empty slot: the assertion of `fillcolliding` holds |
| SharedConvert.CountSize | skynet/lualib-src/lua-sharedata.c:65-87 | the size of the hash part is the number of entries that do not go to the array; keys of other types are found out |
| SharedConvert.FillNoColliding | skynet/lualib-src/lua-sharedata.c:210-233 | after the first pass exactly the main positions are taken, each by an entry of its own |
| SharedConvert.FillColliding | skynet/lualib-src/lua-sharedata.c:235-270 | after the second pass every entry has a slot |
| SharedConvert.ConvTable | skynet/lualib-src/lua-sharedata.c:274-323 | the shared table shows the Lua table, with all tables inside it, or there is something that cannot be shared |
| SharedConvert.NewConf | skynet/lualib-src/lua-sharedata.c:402-453 | of the tables whose keys are kept as they are, exactly those whose keys and values can be shared, all the way down, become shared tables |
| SharedConvert.NarrowExactly | skynet/lualib-src/lua-sharedata.c:189-207 | with keys of type `int` a Lua table can be shown if and only if its integer keys outside the array fit 32 bits and no key is a table: the others, which `ishashkey` cuts or takes for empty strings, are lost |
| SharedBuild.Context.IsHashKey | skynet/lualib-src/lua-sharedata.c:189-207 | what is stored of a key: an integer cut to an `int`, the empty string for a table |
| SharedBuild.Context.StringIndex | skynet/lualib-src/lua-sharedata.c:100-118 | equal strings get equal numbers, different strings different ones, for good |
| SharedBuild.Context.ConvertStringMap | skynet/lualib-src/lua-sharedata.c:375-400 | every string goes to its number |
| SharedLookup.LookupKey | skynet/lualib-src/lua-sharedata.c:499-528 | a key is found exactly if it is in the hash part, also by the early exit at nodes without collisions and when the search starts in a foreign chain; the search ends |
| SharedLookup.Index | skynet/lualib-src/lua-sharedata.c:530-564 | the value is the one that the Lua table has for the key, cut to an `int` if it is an integer, or nil |
| SharedLookup.NextKey | skynet/lualib-src/lua-sharedata.c:587-644 | the key that is visited after a key |
| SharedLookup.OrderExact | skynet/lualib-src/lua-sharedata.c:577-644 | the order of visits has exactly the keys of the Lua table, each once |
| SharedLookup.VisitAll | skynet/lualib-src/lua-sharedata.c:587-644 | a loop over the table visits its keys in this order and ends |
| SharedVersionsProof.StepInv | skynet/lualib-src/lua-stm.c:45-113 | every atomic step of every thread keeps the invariant on the lock and the counts |
| SharedVersionsTrace.LatestVersion | skynet/lualib-src/lua-stm.c:104-113 | in every run the object has the version of the last update that let go of the lock, told from the events alone, or none after it was given up, or that of the writer that is about to let go |
| SharedVersionsTrace.ReaderGets | skynet/lualib-src/lua-stm.c:203-233 | in every run a reader past the lock has the latest version; when the read is over its box has the version that was the latest when it let go of the lock, and its callback has run if and only if there is one and the box had another before |
| SharedVersionsProgress.StepNearer | skynet/skynet-src/rwlock.h:17-48 | every step of a thread that does not wait for another one brings the end of all calls nearer |
| SharedVersionsProgress.NoDeadlock | skynet/skynet-src/rwlock.h:17-48 | while some thread is in a call, one of them does not wait |
| SharedVersionsProgress.AllEnd | skynet/skynet-src/rwlock.h:17-48 | every run can be continued until all calls are over, and then the object has the version of the last writer |
| SharedVersionsProof.Exclusive | skynet/skynet-src/rwlock.h:17-48 | in every run a writer past the lock excludes all other writers and all readers |
| SharedVersionsProof.Counted | skynet/lualib-src/lua-stm.c:45-53 | in every run the count of a version is the number of those who hold it; it is freed only when there are none, and then by exactly one thread |
| SharedVersionsProof.NeverFreedEarly | skynet/lualib-src/lua-stm.c:91-102 | in every run nothing that a callback sees, a box keeps or a reader has loaded is freed, nothing is freed twice, and the count that `stm_copy` asserts to be positive is |
| SharedVersionsProof.NothingLeaks | skynet/lualib-src/lua-stm.c:203-233 | when all threads rest, exactly the versions that the object or a box has are not freed |
| Handles.HandleStorage.Register | skynet/skynet-src/skynet_handle.c:34-67 | registering ends with a handle that no context has, or all 2^24 are in use; all others stay; the search begins behind the handle given out last |
| Handles.GiveOut | skynet/skynet-src/skynet_handle.c:42-50 | in every run of registrations and retirements a handle is given out again only after the numbers have wrapped: with a table of n slots, 2^24 / n registrations later at the earliest |
| Handles.HandleStorage.FindFree | skynet/skynet-src/skynet_handle.c:42-54 | the search meets every slot: it fails only when the table is full |
| Handles.HandleStorage.Grow | skynet/skynet-src/skynet_handle.c:55-65 | in the doubled table no two handles meet in a slot, none is lost, and there is an empty slot |
| Handles.HandleStorage.Grab | skynet/skynet-src/skynet_handle.c:132-149 | a handle is found exactly if it is in the table |
| HandleNames.NameTable.Search | skynet/skynet-src/skynet_handle.c:159-174 | the search by halves finds the name, or the place between the smaller and the larger names |
| HandleNames.NameTable.FindName | skynet/skynet-src/skynet_handle.c:151-179 | a name has at most one handle, and it is the one that is found |
| HandleNames.NameTable.InsertName | skynet/skynet-src/skynet_handle.c:181-229 | a new name is added and the names stay sorted, also when the array grows; a name that is there keeps its handle |
| HandleRegistry.Registry.Retire | skynet/skynet-src/skynet_handle.c:69-106 | retiring a handle removes it and exactly its names |
| Des.FinalOfInitial | skynet/lualib-src/lua-crypt.c:201-223 | the final permutation undoes the initial one |
| Des.InitialOfFinal | skynet/lualib-src/lua-crypt.c:201-223 | the initial permutation undoes the final one |
| Des.InitialFirst | skynet/lualib-src/lua-crypt.c:201-210 | each bit of the first half comes from the place that the table IP of FIPS 46-3 says, rotated by one |
| Des.InitialSecond | skynet/lualib-src/lua-crypt.c:201-210 | so does each bit of the second half |
| Des.RoundsAreFeistel | skynet/lualib-src/lua-crypt.c:227-240 | the rounds, two at a time and without exchanging halves, are those of FIPS 46-3 |
| Des.RoundsBack | skynet/lualib-src/lua-crypt.c:227-240 | the rounds with the subkeys in reverse order undo the rounds, for every round function |
| Des.CryptedBack | skynet/lualib-src/lua-crypt.c:313-335 | `des_crypt` with the pairs of subkeys in reverse order undoes `des_crypt` |
| Des.PaddedUnique | skynet/lualib-src/lua-crypt.c:381-391 | padding leaves no doubt about the text (Appendix A of NIST SP 800-38A) |
| Des.DesEncode | skynet/lualib-src/lua-crypt.c:363-396 | the code is the encryption, block by block (section 6.1 of NIST SP 800-38A), of the padded text |
| Des.DesDecode | skynet/lualib-src/lua-crypt.c:398-436 | a text is found if and only if its encoding was given, and the scan for the mark leaves its buffer if and only if the one block of the text decrypts to zeros |
| Des.Unpad | skynet/lualib-src/lua-crypt.c:418-432 | the padding is found if and only if there is one; the index runs below the buffer if and only if the buffer is a single block of zeros |
| Des.LeavesBuffer | skynet/lualib-src/lua-crypt.c:418-432 | for every key there is a text of eight bytes for which the source reads before its buffer |
| Des.RoundTrip | skynet/lualib-src/lua-crypt.c:363-436 | decoding what was encoded gives the text, for every key and text |
| KeyExchange.MulModP | skynet/lualib-src/lua-crypt.c:664-683 | the product modulo 2^64-59, though all words wrap at 2^64 |
| KeyExchange.PowModP | skynet/lualib-src/lua-crypt.c:685-696 | the power modulo 2^64-59, but for the base itself when it is not reduced |
| KeyExchange.PowModWord | skynet/lualib-src/lua-crypt.c:698-704 | the result is the power modulo P if and only if the base is not P or the exponent is not 1 |
| KeyExchange.DhExchange | skynet/lualib-src/lua-crypt.c:736-757 | what is sent is the power of 5; a key of 0 or of another length than 8 is refused |
| KeyExchange.SentForOne | skynet/lualib-src/lua-crypt.c:734-757 | for the exponent 1 the bytes of 5 are sent, the lowest first |
| KeyExchange.ExchangedUsable | skynet/lualib-src/lua-crypt.c:722-757 | an exchanged value is never 0 and never P, so the other side never refuses it |
| KeyExchange.SecretsAgree | skynet/lualib-src/lua-crypt.c:722-757 | both sides compute the same secret |
| KeyExchange.Agree | skynet/lualib-src/lua-crypt.c:722-757 | a whole exchange succeeds, with equal secrets |
| Seri.IntegerBack | skynet/lualib-src/lua-seri.c:140-172 | integers of all widths are read back |
| Seri.StringBack | skynet/lualib-src/lua-seri.c:188-211 | strings with a short length, one of two bytes and one of four are read back |
| Seri.SizeBack | skynet/lualib-src/lua-seri.c:215-225 | the number of items of a table is read back, also when it does not fit the first byte |
| Seri.Layout | skynet/lualib-src/lua-seri.c:14-36 | the first byte for every kind of value, as a number, and what follows it |
| Seri.NaNBits | skynet/3rd/lua/ltable.c:452-453 | the keys that `lua_rawset` refuses: exponent 2047 and a fraction that is not 0 |
| Seri.Int32Wraps | skynet/lualib-src/lua-seri.c:432-445 | a length is cut to its lowest 32 bits, with a sign |
| Seri.LittleDigit | skynet/lualib-src/lua-seri.c:147-171 | the bytes of a number, the lowest first |
| Seri.NestedPackable | skynet/lualib-src/lua-seri.c:294-299 | tables may be nested 32 deep and no deeper |
| Seri.RoundTrip | skynet/lualib-src/lua-seri.c:294-551 | every packed value is found again, whatever follows it, and exactly its bytes are used up |
| SeriBlocks.WriteBlock.Push | skynet/lualib-src/lua-seri.c:63-83 | writing over the chain of blocks appends the bytes |
| SeriBlocks.WriteBlock.PackOne | skynet/lualib-src/lua-seri.c:294-338 | a value is packed if and only if nothing in it is of another type and it is not nested too deep; its bytes are appended |
| SeriBlocks.WriteBlock.Flatten | skynet/lualib-src/lua-seri.c:532-551 | the buffer has the bytes of all blocks |
| SeriBlocks.ReadBlock.GetOne | skynet/lualib-src/lua-seri.c:521-530 | reading follows the format, for malformed messages too, keys that are not a number included |
| SeriBlocks.ReadBlock.GetTable | skynet/lualib-src/lua-seri.c:432-463 | tables are read as the format says, with lengths cut to an `int` |
| SeriBlocks.Deserialize | skynet/lualib-src/lua-seri.c:553-595 | a message made of packed values gives exactly these values |
| SeriBlocks.ThereAndBack | skynet/lualib-src/lua-seri.c:553-610 | what was serialized is deserialized, for all lists of values that can be |
| GcCollector.Collector.Resize | skynet/3rd/lua/ltable.c:335-368 | a table whose entries move to other places keeps what it refers to, and the invariant of the collection |

## Left out

* LPeg captures and match-time captures, the `ktable` of a pattern, and the Lua values around
  patterns.
* Charsets are mathematical sets; the bit vectors of the source are not part of this model.
- Gen: the source follows calls in its analyses without a bound. Here a budget bounds them, with the cautious answer when it runs out; `CodeSettles` shows that for accepted patterns the code does not depend on it.
- FinalTarget: follows at most as many jumps as the code has slots, where the source goes on until there is none; `CodeSettled`, `ResolvingSettled` and `PeepAtSettled` show that for accepted patterns it comes to one (`FinalTargetExact`).
- CompiledCorrect: asks that calls name rules below 256, because the number of a rule is kept in a byte (`RuleNumberTruncated` shows what happens otherwise), that grammars are not left recursive, which `verifyrule` does not always find out (`VerifyRuleForgets`, `LeftRecursionExact`), and that look-behinds call no rule that leads back, which it does not look at (`BehindForgotten`, `LevelsExactly`).
- CompileState.EmitAnd: takes it that `hascaptures`, which finds nothing in patterns without captures, comes back; `SearchEndsExactly` says when it does.
- FinalFix: calls already name their rules; the search of a name in the position table is not modelled, and the last child is handled by a call in place of a jump.
* The allocation of code and its limits on the number of instructions.
* The collector: finalizers (the lists `finobj` and `tobefnz`, resurrection, the second half of
  `atomic`), open upvalues and `remarkupvals`, fixed objects, shared prototypes and closure
  caches, the string table, and the accounting of memory. The lists that only finalizers fill
  are empty, so their sweeps are single steps.
- NeverFreed: what the program can get at is a path over references of the heap, late metatables included; the program itself is any sequence of the operations of `Collector`.
- Collector.SetField: closures own their upvalues; an upvalue shared by several closures is not modelled.
- Collector.SetMetatable: a metatable that the barrier missed is kept in `late` until it is replaced or a full collection takes it over; its table is not traversed again in that cycle.
- Collector.RunUntil: asks that no metatable came late, as `luaC_fullgc` provides; after an atomic phase with one the invariants do not hold (`LateMetatableFreed`).
- Collector.TraversePlain: a thread is put into its list after its stack was visited, where the source does it before.
* The scheduler: a handle that is used again after the 24-bit index has wrapped; handles are
  never reused here. Registering a handle, setting `ctx->handle` and creating the queue are one
  step. The two nested locks of a push are one step.
* `skynet_context_dispatchall`, logging, monitors, profiling, and `skynet_context_reserve`.
* What a callback sends or creates is done by other threads of the model, so the messages that
  one callback sends are not ordered among each other.
- Scheduler.StartCall: the message of a service without a callback counts as delivered, where the source frees it.
* The timer: its bit masks are divisions and remainders by constants, reading the system clock is
  not modelled, and delays are positive and below 2^31, as the source's `int` makes them.
- Socket.SendLoop: the socket is closed after an error by the caller, where the source does it inside.
* Sockets: datagrams, user objects in place of buffers, listening, the table of sockets and its
  ids, pipes and the poll itself; a socket is created in the state in which it was opened.
- Netpack.Queue.FindUncomplete: the chains of a bucket are sequences, not linked nodes; the queue exists from the start and grows in place, where the source replaces a Lua object.
- SharedConvert.ConvTable: asks that keys are kept as they are; the shared table of other keys, which the source builds too (skynet/lualib-src/lua-sharedata.c:80 and :194), does not show the Lua table (`NarrowExactly`). Failing allocation is not modelled.
- SharedConvert.NewConf: asks the same of its table and of those inside it.
* Shared data: deleting tables, the update of a table by another, and the box objects of Lua.
- SharedVersionsProof.NothingLeaks: the object itself, its count and its lifetime are not modelled, only its versions.
- HandleStorage.Register: registering and setting `ctx->handle` are one step, and after 2^24 handles the number 0 may be given out again.
* Handles: `skynet_handle_retireall`, and the lock, which is modelled in `SharedVersions`.
- Des.DesDecode: for a single block that decrypts to zeros, where the source reads before its buffer because the comparison at skynet/lualib-src/lua-crypt.c:422 is unsigned, the answer is `OutOfBounds`; what the source does with what it reads there is not modelled. Texts are shorter than 2^31 bytes.
* DES: the S-boxes and the key schedule are parameters of the model. Base64, hexadecimal, MD5 and
  the hashes of lua-crypt.c are left out.
- Seri.RoundTrip: a table is its array items and its other entries in order; that `lua_rawset` makes the same table of them, tables with their own `__pairs`, and the identity of tables are not modelled. Numbers are little-endian, as on the machines the source runs on.
* BSON, cluster messages, SHA-1, chunked reads of lua-socket, the harbor service, `databuffer.h`
  and `hashid.h`.
