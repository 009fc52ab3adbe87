# Proofs about the JavaScript libraries of the common theme

The common theme of the web application carries five libraries whose behaviour is hard to see from
reading any one function. This project models them in Dafny and proves what they promise. Methods take
the form of the code, loops, splices, shared cells and all; each is proved against a specification, and
the theorems are about the specification, over all inputs and all runs.

| files | what they model |
|---|---|
| `Options`, `Dom`, `Selector`, `Compile`, `Engine` | the selector engine Sizzle: the meaning of a selector as chains of elements, the compiled closures, and the engine with its cache cells shared between nodes |
| `SetMatcher`, `SuperMatcher`, `Positional` | positional pseudos on a seed, the merge of both kinds of matches in seed order, and selectors with positional pseudos from their tokens to their results |
| `NthChild`, `DocumentOrder` | the index caches of `:nth-child` and `:nth-last-child`, the document comparator and `uniqueSort` |
| `CallbacksModel`, `Callbacks`, `CallbacksTheorems`, `CallbacksMemory`, `CallbacksFlags` | `jQuery.Callbacks` as a flat machine: each step runs up to the next call of a callback, and what a callback does while it runs are the next steps, so that re-entrance needs no nesting |
| `DeferredModel`, `Deferred`, `DeferredTheorems`, `DeferredListeners`, `DeferredProgress`, `Then` | `jQuery.Deferred` over six such lists, and the levels of `then`, with whatever listeners the new deferred has, against the resolution procedure of Promises/A+ |
| `Namespaces`, `Events` | the handler list of one element and event type, delegation, and removal by namespace pattern |
| `TimezoneRules`, `JulianDay`, `Numbers` | the lookup of the rule in force in timezoneJS and its day number |
| `Gantt`, `GanttTheorems` | the task tree pass of jsgantt |
| `CropCoords` | the selection rectangle of Jcrop |

`dafny verify dfyconfig.toml` checks everything.

## Modelling decisions

- The document is a finite forest with node numbers in which a parent precedes its children; any finite
  tree can be numbered so. It stays fixed during a run.
- Cache cells are heap objects, because a walk stores one and the same array on every node it passes.
- A callback is a number; what it does is not part of the list. Runs are sequences of operations in
  which `Return` ends the callback that runs, so a run with re-entrant operations is one sequence.
- A thenable is the sequence of events it causes: calls of its two callbacks, at any time and any number
  of times, reading its `then`, and the end of `then.call`.
- Outside code enters as functions: whether an element satisfies a simple selector, when a rule starts in
  a year, what the clock reads, whether a delegated selector matches an element.
- Numbers that are integers in every use are integers; offsets of zones, completions and positions are
  reals. The sort of the host is stable and modelled by insertion.

## Where the code does not do what it promises

Each of these is proved: the exact condition under which the code is right, and in most cases a concrete
input for which it is not.

- `:nth-last-child` in jquery-3.5.1.js walks back from the element itself when it finds no cached index,
  and stamps the siblings before it with indexes counted from there. An answer is right exactly when the
  element does not stand before the first one asked about under its parent (`NthChild.RunIsRightWhen`,
  `NthChild.SecondThenFirst`). The older sizzle.js does not do this and is exact.
- A set matcher with a postFilter but no preFilter puts its postFilter to the matches of earlier set
  matchers as well. A set match lasts exactly if every later set matcher has a preFilter, or no postFilter, or
  one that lets the match be (`SuperMatcher.MatchedWhen`): by its element alone if the postFilter is an element
  matcher (`SetMatchers.ElementLets`), by its place among what is put to the postFilter if that is itself
  positional. `:last.x, :first` can lose the first element (`SuperMatcher.FirstIsLost`).
- The fallback comparator puts the root of a tree other than the current document behind its descendants
  (`DocumentOrder.KeyIsPlace`, `DocumentOrder.DetachedRootIsLast`), so that `uniqueSort` is in tree order
  exactly if that root is not among other nodes of its tree.
- While `then` is read from a value that an adopted thenable has passed, that thenable's callbacks are not
  yet void: one that is called from inside a `then` getter settles the deferred, although Promises/A+
  lets only the first callback count. Closures and procedure agree all the way exactly in runs without such
  a callback (`ThenProtocol.ClosuresRefinePromise`, `ThenProtocol.GetterWins`).
- `getRule` compares with `<` and `>` only, so at the very instant at which a rule starts the sorted place
  decides. Where starts are further apart than clocks can shift (`Spaced`, which a comment in the source
  assumes), the rule it returns is in force by the clocks exactly if the date is nowhere the instant of a start
  that sorts behind it (`TimezoneRules.RuleClock.GetRule`, `TimezoneRules.InForceByBoth`); east of Greenwich a
  UTC date at the change to summer time still gets winter time (`TimezoneRules.EastOfGreenwich`).
- `getAdjustedOffset` rounds to whole minutes: conversion by the wall clock finds the instant that the clock shows
  exactly if saving and offset of the zone differ by a whole number of minutes
  (`TimezoneRules.ConvertedIsInstant`).
- `civilToJulianDayNumber` moves a month to the year before once only: it is right exactly from month number
  -10 on, counted from 0, and too small for every month before (`JulianDay.CivilToJulianDayNumber`).
- The last but one branch of Jcrop's `getRect` corrects the vertical axis where the horizontal one has run
  over. It is never taken from corners inside the image; `moveOffset` on a rectangle that was dragged to the
  left can lead there. In a whole run the corners stay inside exactly if no such move is made
  (`CropCoords.RunStaysInside`, `CropCoords.MovedPastTheEdge`).

## Model

| member | source | states |
|---|---|---|
| `Compile.CompilationPreservesMeaning` | themes/common/webapp/common/js/jquery/jquery-3.5.1.js:2604-2665 | for every token list without positional pseudos the closure built right to left accepts an element exactly when a left-to-right chain of elements, one per compound, linked by the combinators and reached from the context, ends at it |
| `Compile.WalkIsLink` | themes/common/webapp/common/js/jquery/jquery-3.5.1.js:1766-1771 | each of the four walks finds exactly the elements that its combinator of Selectors Level 3, section 8, links to the right-hand side |
| `Compile.FoundationIsContext` | themes/common/webapp/common/js/jquery/jquery-3.5.1.js:2607-2627 | the foundation matcher is the context test, for one context node or many, with and without a leading combinator |
| `Selector.SelectsCombinator` | themes/common/webapp/common/js/jquery/jquery-3.5.1.js:2630-2631 | adding a combinator moves the right end of the chain along one link |
| `Selector.SelectsSimple` | themes/common/webapp/common/js/jquery/jquery-3.5.1.js:2660-2660 | adding a simple selector narrows the last compound of the chain |
| `Compile.PrefixPreservesMeaning` | themes/common/webapp/common/js/jquery/jquery-3.5.1.js:2629-2662 | the loop invariant: after each token the matchers built so far accept what the tokens read so far select |
| `Engine.Sizzle.AddCombinator` | themes/common/webapp/common/js/jquery/jquery-3.5.1.js:2393-2400 | a new walk gets a name never used before, and no stored cell comes to lie |
| `Engine.Sizzle.WalkCached` | themes/common/webapp/common/js/jquery/jquery-3.5.1.js:2412-2457 | the caching closure, with one shared cell per walk and one slot per node and direction, returns exactly whether some element further on satisfies the inner matcher, whatever ran before in this run |
| `Engine.Sizzle.WalkPlain` | themes/common/webapp/common/js/jquery/jquery-3.5.1.js:2402-2425 | the `first` closure looks at the nearest eligible node only; the closure for XML looks at all and writes nothing |
| `Engine.Sizzle.Look` | themes/common/webapp/common/js/jquery/jquery-3.5.1.js:2428-2453 | a cell of this run and walk answers for the whole walk; otherwise the slot is overwritten and the shared cell takes the answer so far |
| `Engine.Sizzle.Finish` | themes/common/webapp/common/js/jquery/jquery-3.5.1.js:2441-2450 | once the answer is in the shared cell, every node that points at it tells the truth |
| `Engine.Sizzle.Run` | themes/common/webapp/common/js/jquery/jquery-3.5.1.js:2460-2472 | running a compiled matcher gives the meaning of the matcher and keeps the cells truthful, nested walks included |
| `Engine.Sizzle.MatcherFromTokens` | themes/common/webapp/common/js/jquery/jquery-3.5.1.js:2604-2665 | the method builds the matcher that the theorem is about and registers each walk under its own name |
| `Engine.Sizzle.Is` | themes/common/webapp/common/js/jquery/jquery-3.5.1.js:2604-2665 | from tokens to an answer with all caches: true exactly when the selector selects the element |
| `SetMatchers.MatchIndexes` | themes/common/webapp/common/js/jquery/jquery-3.5.1.js:2247-2295 | the indexes of each positional pseudo, as a condition on the index |
| `SetMatchers.PicksGoTogether` | themes/common/webapp/common/js/jquery/jquery-3.5.1.js:2247-2295 | how the pseudos go together: first and last are the places 0 and -1, even and odd take turns, and every place is below, at or above the one given |
| `SetMatchers.PickOut` | themes/common/webapp/common/js/jquery/jquery-3.5.1.js:1075-1091 | the chosen elements move, slot for slot, and nothing else does |
| `SetMatchers.Condense` | themes/common/webapp/common/js/jquery/jquery-3.5.1.js:2483-2502 | the passing elements in order, with the index each came from |
| `SetMatchers.KeptAt` | themes/common/webapp/common/js/jquery/jquery-3.5.1.js:2483-2502 | a passing element is found in the map at the place that counts those before it |
| `SetMatchers.Unmatch` | themes/common/webapp/common/js/jquery/jquery-3.5.1.js:2546-2558 | failing candidates go back to the slot they came from, all others stay |
| `SetMatchers.Settle` | themes/common/webapp/common/js/jquery/jquery-3.5.1.js:2551-2557 | the un-matching loop, place by place |
| `SetMatchers.Transfer` | themes/common/webapp/common/js/jquery/jquery-3.5.1.js:2577-2585 | matched elements move from their seed slot to the same slot of the results, the rest is untouched |
| `SetMatchers.Apply` | themes/common/webapp/common/js/jquery/jquery-3.5.1.js:2504-2602 | slot by slot, the seeded set matcher moves exactly the elements that pass the preFilter, are picked among those that pass, and are let be by the postFilter, which may itself be a set matcher and is then put to the condensed picks; with no preFilter it also re-filters earlier results |
| `SetMatchers.LetsSelected` | themes/common/webapp/common/js/jquery/jquery-3.5.1.js:2546-2558 | a postFilter lets be exactly what it selects of the condensed picks, at the place that counts the picks before |
| `SetMatchers.ElementLets` | themes/common/webapp/common/js/jquery/jquery-3.5.1.js:2505-2507 | an element matcher wrapped as a postFilter lets each pick be exactly if it accepts the element, wherever it stands |
| `SuperMatcher.SuperMatcher` | themes/common/webapp/common/js/jquery/jquery-3.5.1.js:2670-2785 | results are their old contents, then, in seed order, exactly the seed elements that an element matcher accepts or whose set match lasts; no old result is popped |
| `SuperMatcher.StaysPartitioned` | themes/common/webapp/common/js/jquery/jquery-3.5.1.js:2748-2750 | through any set matchers each element is in exactly one place: accepted, unmatched, or a set match in its own slot |
| `SuperMatcher.Reintegrate` | themes/common/webapp/common/js/jquery/jquery-3.5.1.js:2754-2761 | the pop loop puts each element match back into its own slot and leaves the old results |
| `SuperMatcher.MatchElements` | themes/common/webapp/common/js/jquery/jquery-3.5.1.js:2694-2737 | the results gain the elements accepted by some element matcher, and the count is their number |
| `SuperMatcher.AddSetMatches` | themes/common/webapp/common/js/jquery/jquery-3.5.1.js:2739-2769 | the set part turns the appended element matches into all matches in seed order |
| `SuperMatcher.OnlyAccepted` | themes/common/webapp/common/js/jquery/jquery-3.5.1.js:2739-2746 | skipping the set matchers when everything is matched loses nothing |
| `SuperMatcher.GroupsPreserveMeaning` | themes/common/webapp/common/js/jquery/jquery-3.5.1.js:2792-2800 | a seed element is accepted exactly when one group of the comma separated selector selects it |
| `SuperMatcher.CompileGroups` | themes/common/webapp/common/js/jquery/jquery-3.5.1.js:2792-2825 | every group is compiled under names of its own, and the walks of earlier groups stay known |
| `SuperMatcher.Select` | themes/common/webapp/common/js/jquery/jquery-3.5.1.js:2670-2785 | from the tokens of a comma separated selector without positional pseudos to the results, compiled and run on a seed with all caches: exactly the selected elements, in seed order |
| `SuperMatcher.GuardedUnion` | themes/common/webapp/common/js/jquery/jquery-3.5.1.js:2747-2750 | the corollary for set matchers that all have a preFilter or no postFilter: they add up |
| `SuperMatcher.MatchedWhen` | themes/common/webapp/common/js/jquery/jquery-3.5.1.js:2746-2750 | in every run of set matchers a slot ends up matched exactly when one selected it from what the ones before had left and every later one spared it: has a preFilter, or no postFilter, or one that lets the slot be among the matches and picks put to it |
| `SuperMatcher.WinnersAreWanted` | themes/common/webapp/common/js/jquery/jquery-3.5.1.js:2739-2769 | what superMatcher appends, said by element matchers and lasting set matches only |
| `SuperMatcher.FirstIsLost` | themes/common/webapp/common/js/jquery/jquery-3.5.1.js:2546-2558 | `:last.x, :first` on two elements loses the first one |
| `Positional.MatcherFromItems` | themes/common/webapp/common/js/jquery/jquery-3.5.1.js:2635-2658 | for tokens with any number of positional pseudos and no combinator behind the first, the set matcher built is: what stands in front compiled, the pick, and what stands behind built likewise |
| `Positional.StageSelects` | themes/common/webapp/common/js/jquery/jquery-3.5.1.js:2504-2602 | on a seed without holes one set matcher selects what passes the preFilter, is picked by its place among that, and is selected by the postFilter from the picks |
| `Positional.PipelineSelects` | themes/common/webapp/common/js/jquery/jquery-3.5.1.js:2635-2658 | the set matcher built from the tokens selects what the pipeline lets through: the elements that the tokens in front select as chains, those of them in the places named, and so on with the tokens behind |
| `Positional.Select` | themes/common/webapp/common/js/jquery/jquery-3.5.1.js:2635-2785 | from the tokens to the results: a selector with positional pseudos, compiled and run on a seed with all caches, appends what its pipeline makes of the seed, in seed order |
| `NthChild.ForwardFilter.Index` | themes/common/webapp/common/js/jquery/jquery-3.5.1.js:1953-1985 | seeking from the parent's remembered index, with wrap-around, gives one more than the number of elements in front of the element under its parent, text and comments not counted, for any order of queries |
| `NthChild.ElementsCounted` | themes/common/webapp/common/js/jquery/jquery-3.5.1.js:1974-1984 | what a walk over a stretch of children counts is the set of elements in it |
| `NthChild.IndexesAreRanks` | themes/common/webapp/common/js/jquery/jquery-3.5.1.js:1974-1984 | the indexes from either end order the element siblings as they stand, and add up to one more than the number of elements under the parent |
| `NthChild.OldLastFilter.Index` | themes/common/webapp/common/js/plugins/imagemanagement/sizzle.js:1147-1168 | the older file's backward index, stored or walked, is one more than the number of elements behind the element, and every entry of this run is too |
| `NthChild.LastFilter.Index` | themes/common/webapp/common/js/jquery/jquery-3.5.1.js:1986-2037 | version 3.5.1: in front of the element first asked about under that parent, only the elements between the two are counted; from it on, all elements behind |
| `NthChild.LastFilter.QueryAll` | themes/common/webapp/common/js/jquery/jquery-3.5.1.js:1986-2037 | the answers of a whole run, in any order and under any parents |
| `NthChild.AnswerIsRight` | themes/common/webapp/common/js/jquery/jquery-3.5.1.js:2007-2036 | one such answer is right exactly when the element does not stand before the first one asked about |
| `NthChild.RunIsRightWhen` | themes/common/webapp/common/js/jquery/jquery-3.5.1.js:1986-2037 | all answers of a run are right exactly when no query is about an element in front of the first one asked about under its parent |
| `NthChild.SecondThenFirst` | themes/common/webapp/common/js/jquery/jquery-3.5.1.js:1986-2037 | two siblings asked about second first: the answer about the first is wrong |
| `NthChild.FinalTestIsFormula` | themes/common/webapp/common/js/jquery/jquery-3.5.1.js:2039-2041 | the final test holds exactly when a*n + b is the index for some n >= 0 (Selectors Level 3, sections 6.6.5.2 and 6.6.5.3), zero and negative a included |
| `DocumentOrder.Sorter.SortOrder` | themes/common/webapp/common/js/jquery/jquery-3.5.1.js:1531-1596 | within one tree the comparator compares keys, which are places in the pre-order except that the root of a tree other than the document comes last; which document goes first across trees; the discrepancy loop ends |
| `DocumentOrder.KeyIsPlace` | themes/common/webapp/common/js/jquery/jquery-3.5.1.js:1546-1560 | keys tell nodes of one tree apart, and order two nodes as the tree does exactly if they are comparable: equal, in the document, or neither of them a root |
| `DocumentOrder.DetachedRootIsLast` | themes/common/webapp/common/js/jquery/jquery-3.5.1.js:1546-1560 | a detached root and its child: the comparator puts the child first, and so does uniqueSort |
| `DocumentOrder.OneTreeIsOrdered` | themes/common/webapp/common/js/jquery/jquery-3.5.1.js:1531-1596 | in the document every two nodes are comparable, and only a node itself has the same place: the order is total |
| `DocumentOrder.SiblingCheck` | themes/common/webapp/common/js/jquery/jquery-3.5.1.js:971-991 | the sibling walk decides which of two children comes first, absent nodes included |
| `DocumentOrder.PathsDecide` | themes/common/webapp/common/js/jquery/jquery-3.5.1.js:1577-1585 | where the two ancestor lists part, the siblings there decide the order |
| `DocumentOrder.SubtreeStretch` | themes/common/webapp/common/js/jquery/jquery-3.5.1.js:1531-1596 | a subtree is one stretch of the pre-order, so that places are indexes |
| `DocumentOrder.SiblingsDecide` | themes/common/webapp/common/js/jquery/jquery-3.5.1.js:1584-1585 | below an earlier sibling everything comes earlier |
| `DocumentOrder.Sorter.UniqueSort` | themes/common/webapp/common/js/jquery/jquery-3.5.1.js:1684-1711 | on nodes of one tree, the result has the same elements, each once, and is in tree order exactly if all of them are comparable |
| `DocumentOrder.DedupedFacts` | themes/common/webapp/common/js/jquery/jquery-3.5.1.js:1695-1704 | of a list ascending by key, dropping repeats leaves a strictly ascending one |
| `DocumentOrder.OrderedWhenComparable` | themes/common/webapp/common/js/jquery/jquery-3.5.1.js:1684-1711 | strictly ascending keys are tree order exactly if all elements are comparable |
| `DocumentOrder.RemoveDuplicates` | themes/common/webapp/common/js/jquery/jquery-3.5.1.js:1695-1704 | noting the indexes of repeats and splicing them out backwards removes exactly the repeats |
| `Callbacks.Callbacks.GoOn` | themes/common/webapp/common/js/jquery/jquery-3.5.1.js:3491-3525 | the loop of `fire`, cut at each call of a callback, refines the abstract step |
| `Callbacks.Callbacks.Add` | themes/common/webapp/common/js/jquery/jquery-3.5.1.js:3531-3559 | `add`, with nested arrays, `unique` and memory, refines the abstract step |
| `Callbacks.Callbacks.Remove` | themes/common/webapp/common/js/jquery/jquery-3.5.1.js:3562-3575 | the splice loop removes every occurrence and moves the firing index by the removed ones in front of it |
| `Callbacks.Callbacks.RemoveEach` | themes/common/webapp/common/js/jquery/jquery-3.5.1.js:3562-3575 | several arguments are removed as by one call for each |
| `Callbacks.Callbacks.FireWith` | themes/common/webapp/common/js/jquery/jquery-3.5.1.js:3620-3630 | `fireWith` queues, and fires when nothing is firing |
| `Callbacks.Callbacks.Disable` | themes/common/webapp/common/js/jquery/jquery-3.5.1.js:3596-3600 | `disable` refines the abstract step |
| `Callbacks.Callbacks.Lock` | themes/common/webapp/common/js/jquery/jquery-3.5.1.js:3608-3614 | `lock` refines the abstract step, with its extra condition on firing |
| `CallbacksTheorems.EverythingOnce` | themes/common/webapp/common/js/jquery/jquery-3.5.1.js:3453-3645 | "once memory": after the first fire, whenever nothing runs, every function ever added was called exactly once, in order, with the first fire's arguments, however callbacks re-enter |
| `CallbacksTheorems.OnceMemoryRuns` | themes/common/webapp/common/js/jquery/jquery-3.5.1.js:3483-3559 | the invariant behind it, over all runs of adds, fires and returns |
| `CallbacksTheorems.AddedInOrder` | themes/common/webapp/common/js/jquery/jquery-3.5.1.js:3531-3559 | what was added is what the operations handed over, in order |
| `CallbacksTheorems.PassesAreWhole` | themes/common/webapp/common/js/jquery/jquery-3.5.1.js:3483-3575 | plain lists: one pass per `fireWith` in call order, each calling all entries left at its end once, in list order, with its own arguments; idle means index -1 and an empty queue |
| `CallbacksTheorems.SplitWithout` | themes/common/webapp/common/js/jquery/jquery-3.5.1.js:3562-3575 | removing callbacks during a pass leaves the split into called and not yet called where it was |
| `CallbacksTheorems.PlainRuns` | themes/common/webapp/common/js/jquery/jquery-3.5.1.js:3483-3575 | the invariant of plain lists over all runs |
| `CallbacksMemory.EverybodyEveryRound` | themes/common/webapp/common/js/jquery/jquery-3.5.1.js:3483-3559 | "memory": every `fireWith` begins one round, in the order of the calls; a round calls the functions in the order of addition, each once, with its arguments: all that were added before it, and those added since, up to the next round; when nothing runs, the last round has reached everybody |
| `CallbacksFlags.UniqueRuns` | themes/common/webapp/common/js/jquery/jquery-3.5.1.js:3538-3546 | "unique": in no run does a function stand in the list twice, and each one handed over stands in it |
| `CallbacksFlags.StopsOnFalse` | themes/common/webapp/common/js/jquery/jquery-3.5.1.js:3492-3503 | "stopOnFalse": when a callback returns false its pass calls nobody any more, whatever follows; otherwise the next entry is called with the same arguments |
| `CallbacksFlags.DisableAndLock` | themes/common/webapp/common/js/jquery/jquery-3.5.1.js:3596-3614 | from any state of any run on: a disabled list calls nobody any more, a locked one calls everybody with the value that it had when it was locked |
| `Deferreds.NewDeferred` | themes/common/webapp/common/js/jquery/jquery-3.5.1.js:3690-3701 | the six lists with the constructor's own callbacks in them are the initial state of the model |
| `Deferreds.JQueryDeferred.Proceed` | themes/common/webapp/common/js/jquery/jquery-3.5.1.js:3920-3958 | the constructor's callbacks set the state, disable the other lists, lock progress and fire the handlers, to the next outside callback |
| `Deferreds.JQueryDeferred.SettleWith` | themes/common/webapp/common/js/jquery/jquery-3.5.1.js:3963-3971 | `resolveWith` and `rejectWith` refine the abstract step |
| `Deferreds.JQueryDeferred.Chain` | themes/common/webapp/common/js/jquery/jquery-3.5.1.js:3873-3907 | `then` adds the function for each outcome, and the one for progress, to the handlers of that outcome |
| `DeferredTheorems.Exclusive` | themes/common/webapp/common/js/jquery/jquery-3.5.1.js:3920-3972 | whatever is called in whatever order, also from inside callbacks: the first resolve or reject alone decides the state, done and fail never both run, neither runs before a settlement, those that run see the final state, and each callback of the winning list is called once, in order, with the first value |
| `DeferredListeners.EveryListenerCalled` | themes/common/webapp/common/js/jquery/jquery-3.5.1.js:3920-3972 | the winner's listeners, handed over before or after the settlement or from inside callbacks, are called once each, in the order they were handed over, with the first value, all of them once the deferred is idle |
| `DeferredListeners.ListenersAdded` | themes/common/webapp/common/js/jquery/jquery-3.5.1.js:3920-3958 | a list that has not lost holds, behind the constructor's own functions, exactly the listeners handed to it, in order |
| `DeferredListeners.EveryHandlerCalled` | themes/common/webapp/common/js/jquery/jquery-3.5.1.js:3873-3907 | of the functions given to `then`, before or after the settlement, those for the outcome of the first settlement are all called, in order, once each, with its value; those for the other outcome never; while nothing is settled, none |
| `DeferredListeners.StepGives` | themes/common/webapp/common/js/jquery/jquery-3.5.1.js:3887-3905 | `then` gives the fulfilled handlers its first argument and the rejected handlers its second, and nothing else gives them anything |
| `DeferredProgress.EverybodyNotified` | themes/common/webapp/common/js/jquery/jquery-3.5.1.js:3873-3958 | while the deferred is pending, also from inside callbacks: every call of notify is a round that calls all listeners, and all functions given to `then` for progress, in order, once each, with its data; those handed over later join the last round |
| `DeferredTheorems.SettledIsDeaf` | themes/common/webapp/common/js/jquery/jquery-3.5.1.js:3935-3952 | after settlement resolve and reject change nothing and notify calls nobody |
| `DeferredTheorems.SettledStep` | themes/common/webapp/common/js/jquery/jquery-3.5.1.js:3920-3972 | no operation leaves a settled state |
| `DeferredTheorems.PendingStep` | themes/common/webapp/common/js/jquery/jquery-3.5.1.js:3920-3972 | only resolve and reject leave the pending state |
| `DeferredTheorems.RunKeeps` | themes/common/webapp/common/js/jquery/jquery-3.5.1.js:3920-3972 | the invariant of the six lists, over all runs |
| `ThenProtocol.ThenCall.Called` | themes/common/webapp/common/js/jquery/jquery-3.5.1.js:3749-3822 | a closure of a level left behind touches nothing, none undoes what was done to the deferred, and in an orderly run the deferred, with any listeners, then shows the promise |
| `ThenProtocol.ThenCall.ThenRead` | themes/common/webapp/common/js/jquery/jquery-3.5.1.js:3773-3810 | maxDepth goes up exactly when there is a thenable to adopt, and then the deferred is not touched; in an orderly run the deferred, with any listeners, shows the promise |
| `ThenProtocol.ThenCall.ThenEnded` | themes/common/webapp/common/js/jquery/jquery-3.5.1.js:3826-3852 | a throw of a thenable that is not the innermost adoption does nothing; in an orderly run the deferred, with any listeners, shows the promise |
| `ThenProtocol.StepStands` | themes/common/webapp/common/js/jquery/jquery-3.5.1.js:3749-3852 | one event keeps closures and resolution procedure in step exactly if it is no callback of the last level during the reading of a `then` |
| `ThenProtocol.ClosuresRefinePromise` | themes/common/webapp/common/js/jquery/jquery-3.5.1.js:3746-3909 | in every possible run closures and resolution procedure of Promises/A+ (section 2.3) stand together after every event exactly if no thenable calls back while the `then` of the value it passed is read |
| `ThenProtocol.ThenRefinesPromise` | themes/common/webapp/common/js/jquery/jquery-3.5.1.js:3746-3909 | in every possible run, and whatever listeners, notifications and returns of callbacks come between, the new deferred is settled by the first settlement issued and by no other; where closures and procedure stand together, its state is that of the procedure, it calls the listeners of that outcome, each once, in order, with the procedure's value, all of them once idle, and no listener of the other outcome; until then it is pending and calls none |
| `ThenProtocol.OneValue` | themes/common/webapp/common/js/jquery/jquery-3.5.1.js:3873-3907 | no deferred shows two values: state and value of a settled promise can be read off it |
| `ThenProtocol.FateIsFinal` | themes/common/webapp/common/js/jquery/jquery-3.5.1.js:3755-3760 | no later event changes the fate (Promises/A+ section 2.3.3.3.3) |
| `ThenProtocol.VoidCallback` | themes/common/webapp/common/js/jquery/jquery-3.5.1.js:3755-3760 | a callback of a level left behind might as well not have been made, whatever follows: no deferred with any listeners can tell (section 2.3.3.3.3) |
| `ThenProtocol.VoidThrow` | themes/common/webapp/common/js/jquery/jquery-3.5.1.js:3838-3841 | a throw after adoption might as well have been a return, whatever follows: no deferred with any listeners can tell (section 2.3.3.3.4.1) |
| `ThenProtocol.LoudReadRunsAhead` | themes/common/webapp/common/js/jquery/jquery-3.5.1.js:3773-3781 | without a quiet read of `then` the closures run ahead of the promise |
| `ThenProtocol.GetterWins` | themes/common/webapp/common/js/jquery/jquery-3.5.1.js:3773-3781 | a `then` getter that calls back beats the value that was passed first |
| `JulianDay.CivilToJulianDayNumber` | themes/common/webapp/common/js/plugins/date/date.timezone.js:409-426 | for every year and month the formula is the count of days, month by month, exactly from month -10 on, and too small before; month m + 12 of a year is month m of the next |
| `JulianDay.TooEarly` | themes/common/webapp/common/js/plugins/date/date.timezone.js:418-424 | with a month that one shift does not bring past February, the formula falls short |
| `JulianDay.ClosedIsCount` | themes/common/webapp/common/js/plugins/date/date.timezone.js:409-426 | formula and count agree before and after 1970 |
| `JulianDay.CalendarOrder` | themes/common/webapp/common/js/plugins/date/date.timezone.js:409-426 | the next calendar day has the next number, and numbers order dates as the calendar does |
| `TimezoneRules.FindApplicableRules` | themes/common/webapp/common/js/plugins/date/date.timezone.js:644-665 | the rules in range for the year, in file order |
| `TimezoneRules.ApplicableItems` | themes/common/webapp/common/js/plugins/date/date.timezone.js:644-665 | exactly the rules written for the year, a range, one year only or without end, each with that year |
| `TimezoneRules.RuleClock.CompareDates` | themes/common/webapp/common/js/plugins/date/date.timezone.js:667-688 | the difference of raw times, or of times converted with the previous rule; the memo never changes it; where that rule's clock goes by whole minutes, the difference of the instants that the clocks of the two show |
| `TimezoneRules.ConvertedIsInstant` | themes/common/webapp/common/js/plugins/date/date.timezone.js:548-571 | converting a written time finds the instant at which its clock, UTC, standard or wall, shows it; by the wall clock exactly if saving and offset differ by whole minutes |
| `TimezoneRules.RuleClock.Collect` | themes/common/webapp/common/js/plugins/date/date.timezone.js:691-708 | the entries of one or two years, sorted, with the date behind everything that sorts before it; the second year is left out only if two entries sort before the date |
| `TimezoneRules.RuleClock.GetRule` | themes/common/webapp/common/js/plugins/date/date.timezone.js:539-721 | no rule exactly when no collected rule sorts before the date; otherwise, where starts are spaced, the rule in force, and it is in force by the clocks alone, and at the instant in UTC, exactly if the date is nowhere the instant of a start that sorts behind it |
| `TimezoneRules.RuleClock.Correct` | themes/common/webapp/common/js/plugins/date/date.timezone.js:708-720 | the off-by-one corrections end at the rule that has begun and has not been superseded |
| `TimezoneRules.PreviousNotYet` | themes/common/webapp/common/js/plugins/date/date.timezone.js:709-711 | going one back is right |
| `TimezoneRules.NextAlready` | themes/common/webapp/common/js/plugins/date/date.timezone.js:712-715 | going one forward is right |
| `TimezoneRules.OnlyOneInForce` | themes/common/webapp/common/js/plugins/date/date.timezone.js:693-697 | where starts are spaced, no other rule is in force |
| `TimezoneRules.InForceByBoth` | themes/common/webapp/common/js/plugins/date/date.timezone.js:693-715 | what the lookup takes to be in force is in force by the converted clocks exactly if the date is unambiguous |
| `TimezoneRules.InForceByInstants` | themes/common/webapp/common/js/plugins/date/date.timezone.js:693-715 | where clocks go by whole minutes, in force by the clocks is in force at the instant |
| `TimezoneRules.EastOfGreenwich` | themes/common/webapp/common/js/plugins/date/date.timezone.js:693-715 | an hour east of Greenwich, at the instant at which summer time takes effect, `getRule` still returns winter time for a UTC date |
| `Gantt.ProcessRows` | themes/common/webapp/common/js/plugins/jsgantt/jsgantt.js:1579-1630 | one call in place: children of the row and all below get level, visibility and totals, the row gets the totals of its children, no other task changes |
| `Gantt.PassChildren` | themes/common/webapp/common/js/plugins/jsgantt/jsgantt.js:1593-1621 | the loop, with the running minimum, maximum, count and sum |
| `Gantt.VisitChild` | themes/common/webapp/common/js/plugins/jsgantt/jsgantt.js:1595-1619 | the body of the loop keeps what earlier children were given |
| `Gantt.FoldedTotals` | themes/common/webapp/common/js/plugins/jsgantt/jsgantt.js:1601-1619 | the running results are number, summed completion, earliest start and latest end of the children, or the clock where there are none |
| `Gantt.PathIsShort` | themes/common/webapp/common/js/plugins/jsgantt/jsgantt.js:1603-1606 | where groups have ids of their own, and not 0, no cycle of parents is ever entered, so the recursion ends |
| `Gantt.PathUnique` | themes/common/webapp/common/js/plugins/jsgantt/jsgantt.js:1593-1595 | a task is reached at most once |
| `Gantt.ChildDone` | themes/common/webapp/common/js/plugins/jsgantt/jsgantt.js:1595-1606 | the subtree of a child is done by its call and nothing else is touched |
| `GanttTheorems.PlaceByPath` | themes/common/webapp/common/js/plugins/jsgantt/jsgantt.js:1596-1602 | level is depth; a task is visible exactly when all groups above it are open; what no path reaches is untouched |
| `GanttTheorems.SpanIsExact` | themes/common/webapp/common/js/plugins/jsgantt/jsgantt.js:1608-1616 | every task spans exactly the terminal tasks below it: none starts earlier or ends later, and both ends are met |
| `GanttTheorems.CompletionShows` | themes/common/webapp/common/js/plugins/jsgantt/jsgantt.js:1618-1627 | completions stay percentages, and a group shows 0 exactly if no task below has been begun |
| `GanttTheorems.CompletionIsMean` | themes/common/webapp/common/js/plugins/jsgantt/jsgantt.js:1618-1627 | a group shows the number of its children and their mean completion rounded up: the least integer not below it; an empty group shows 0 |
| `GanttTheorems.ChildrenCounted` | themes/common/webapp/common/js/plugins/jsgantt/jsgantt.js:1593-1621 | the running count and sum are the cardinality of the set of children and the sum over it in any order |
| `GanttTheorems.SecondPassChangesNothing` | themes/common/webapp/common/js/plugins/jsgantt/jsgantt.js:1579-1630 | where no group is empty, a second pass changes nothing |
| `CropCoords.Coords.SetPressed` | themes/common/webapp/common/js/plugins/imagemanagement/jquery.Jcrop.js:464-469 | both corners go to the nearest place in the image |
| `CropCoords.Coords.SetCurrent` | themes/common/webapp/common/js/plugins/imagemanagement/jquery.Jcrop.js:471-478 | the dragged corner goes to the nearest place in the image, the offset is what it moved |
| `CropCoords.Coords.MoveOffset` | themes/common/webapp/common/js/plugins/imagemanagement/jquery.Jcrop.js:486-509 | size and direction stay; a normalised rectangle goes to the place in the image next to the one asked for; exactly when any other stays inside |
| `CropCoords.Coords.GetRect` | themes/common/webapp/common/js/plugins/imagemanagement/jquery.Jcrop.js:652-710 | the rectangle and the corners left behind, from any corners: clamped sides, shifted no more than needed, and what the overhang does to the vertical axis |
| `CropCoords.RectFacts` | themes/common/webapp/common/js/plugins/imagemanagement/jquery.Jcrop.js:652-710 | the rectangle has the sides the limits allow and is inside exactly unless the selection overhangs on the right or a side is longer than the image |
| `CropCoords.StaysInside` | themes/common/webapp/common/js/plugins/imagemanagement/jquery.Jcrop.js:485-508 | one act keeps the corners in the image exactly if it is no move that takes a selection dragged to the left or up beyond the edges |
| `CropCoords.RunStaysInside` | themes/common/webapp/common/js/plugins/imagemanagement/jquery.Jcrop.js:464-509 | in every run of presses, drags, moves and questions the corners stay in the image all the way exactly if every move is admitted |
| `CropCoords.Play` | themes/common/webapp/common/js/plugins/imagemanagement/jquery.Jcrop.js:464-509 | the object itself goes through a run as the function that the theorem is about |
| `CropCoords.FitIsNearest` | themes/common/webapp/common/js/plugins/imagemanagement/jquery.Jcrop.js:672-697 | no place inside the image is nearer than the one chosen |
| `CropCoords.ReboundIsNearest` | themes/common/webapp/common/js/plugins/imagemanagement/jquery.Jcrop.js:624-633 | a position goes to the nearest place in the image, the upper one of two |
| `CropCoords.SizedIsNearest` | themes/common/webapp/common/js/plugins/imagemanagement/jquery.Jcrop.js:658-671 | a side within the limits is kept, any other goes to the nearest length that the limits allow, if they allow any |
| `CropCoords.SelectionGivenBack` | themes/common/webapp/common/js/plugins/imagemanagement/jquery.Jcrop.js:652-710 | from corners inside: a selection within the limits is given back as it is; the fixed corner stays exactly if the sized side has room on the dragged side |
| `CropCoords.WithinFits` | themes/common/webapp/common/js/plugins/imagemanagement/jquery.Jcrop.js:698-707 | from corners inside the image the last two shifts are never taken, and the rectangle is inside with sides within the limits |
| `CropCoords.AskTwice` | themes/common/webapp/common/js/plugins/imagemanagement/jquery.Jcrop.js:652-710 | a second `getRect` gives the same rectangle |
| `CropCoords.MovedPastTheEdge` | themes/common/webapp/common/js/plugins/imagemanagement/jquery.Jcrop.js:698-702 | a rectangle dragged out to the left and moved past the right edge stays outside |
| `Namespaces.TestIsInclusion` | themes/common/webapp/common/js/jquery/jquery-3.5.1.js:5338-5339 | with names sorted on both sides the pattern built by `remove` matches exactly when all names asked for are among the handler's |
| `Namespaces.TestIsEmbedding` | themes/common/webapp/common/js/jquery/jquery-3.5.1.js:5338-5339 | on joined names the pattern finds exactly the names in their order |
| `Events.Handlers.Add` | themes/common/webapp/common/js/jquery/jquery-3.5.1.js:5294-5299 | delegated handlers stay in front, each part in order of registration |
| `Events.Handlers.Remove` | themes/common/webapp/common/js/jquery/jquery-3.5.1.js:5341-5359 | the backward splice loop removes exactly the handlers asked for and keeps the parts, their order and the count |
| `Events.Handlers.HandlerQueue` | themes/common/webapp/common/js/jquery/jquery-3.5.1.js:5449-5505 | the direct handlers, if there are any, come last, at the owner; before them, from the target outwards, each entry above the one before it, the matching delegated handlers at elements between target and owner |
| `Events.OutwardIsTheWay` | themes/common/webapp/common/js/jquery/jquery-3.5.1.js:5469-5469 | the loop passes exactly the target and its ancestors below the owner, or all of them if the owner is not among these |
| `Events.Handlers.Matched` | themes/common/webapp/common/js/jquery/jquery-3.5.1.js:5471-5489 | trying each selector once per element gives the matching handlers in order |
| `Events.RunsWhere` | themes/common/webapp/common/js/jquery/jquery-3.5.1.js:5449-5505 | which handler runs at which element between target and owner, both ways |
| `Events.InsideOut` | themes/common/webapp/common/js/jquery/jquery-3.5.1.js:5469-5496 | an entry listed later belongs to an ancestor of the earlier one's element |
| `Events.InOrder` | themes/common/webapp/common/js/jquery/jquery-3.5.1.js:5469-5496 | each entry holds its handlers in the order of registration |
| `Events.HitByNamespace` | themes/common/webapp/common/js/jquery/jquery-3.5.1.js:5346-5350 | with a namespace pattern `remove` takes exactly the handlers that the other conditions select and whose namespaces hold all the names |
| `Events.HitAll` | themes/common/webapp/common/js/jquery/jquery-3.5.1.js:5346-5350 | the conditions of `remove` add up: several take together what each alone would take |
| `Events.HitOne` | themes/common/webapp/common/js/jquery/jquery-3.5.1.js:5346-5350 | what each condition takes alone: the type, the handler, the namespace, the selector, the double star |
| `Events.DoubleStar` | themes/common/webapp/common/js/jquery/jquery-3.5.1.js:5349-5350 | the double star takes exactly the delegated handlers |
| `Events.OffUndoesOn` | themes/common/webapp/common/js/jquery/jquery-3.5.1.js:5341-5359 | `off` undoes `on` exactly if nothing registered before agrees in type and handler, and in the selector as far as `off` looks at it |

## Left out

- Regular expressions, the tokenizer, `querySelectorAll` and the probes for browser support: tokens, simple filters and the tree are given.
- Compile.CompilationPreservesMeaning: token lists without positional pseudos, which become element matchers; the others are in `Positional`.
- Positional.MatcherFromItems: token lists without a combinator behind the first positional pseudo; what follows such a combinator becomes a `postFinder`, which starts new queries.
- Positional.Select: one group and a seed; without a seed the candidates come from `find`, which is not part of this model.
- Engine.Sizzle.MatcherFromTokens: token lists without positional pseudos only; the others are in `Positional.MatcherFromItems`.
- Engine.Sizzle.Is: token lists without positional pseudos only; the others answer for whole seeds, not for one element.
- Engine.Sizzle.AddCombinator: not the `legend` variant (`skip`), whose cells jump over nodes and mean something else.
- Engine.Sizzle.WalkCached: not the `skip` branch, for the same reason.
- Engine.Sizzle.Look: not the `skip` branch, for the same reason.
- SetMatchers.Apply: calls with a seed and without a `postFinder`; the others start a new query and are not merged slot by slot.
- SuperMatcher.SuperMatcher: runs with a seed; without one the results are sorted by `uniqueSort`, which is modelled by itself.
- SuperMatcher.CompileGroups: groups without positional pseudos, and no cache of compiled selectors.
- SuperMatcher.Select: groups without positional pseudos, and no cache of compiled selectors; one group with them is in `Positional.Select`.
- SuperMatcher.GuardedUnion: set matchers that cannot take earlier matches back; `SuperMatcher.MatchedWhen` covers all others too.
- Callbacks.Callbacks.Remove: one function; `Callbacks.Callbacks.RemoveEach` has the loop over several.
- Runs nested inside `:has` and `:not`, with their random run numbers: every run has a fresh number.
- The variable `checkContext` shared by the two context matchers of one token list: the context is passed to them.
- Walks of the `CHILD` filter for `-of-type` and for XML without a cache, and `:first-child`, `:last-child`, `:only-child`: plain walks.
- DocumentOrder.Sorter.SortOrder: the host's sort is taken to be stable, so that the fallback to the order of the input is never used.
- DocumentOrder.Sorter.UniqueSort: nodes of one tree; for nodes of several trees the source promises no order beyond which document goes first.
- DocumentOrder.SiblingCheck: not the Internet Explorer property `sourceIndex`.
- Throwing callbacks in a bare list: an exception would end `fire` in the middle and leave `firing` set.
- CallbacksMemory.EverybodyEveryRound: runs of `add`, `fireWith` and returns; removals are covered for lists without memory, by `CallbacksTheorems.PassesAreWhole`.
- DeferredProgress.EverybodyNotified: pending deferreds; once one is settled, `DeferredTheorems.SettledIsDeaf` says that `notify` does nothing.
- CallbacksTheorems.PassesAreWhole: leaves out runs with `empty`, `disable` or `lock`, because these end passes early on purpose.
- The progress chain of `then`, `always`, `pipe` and `jQuery.when`: they only combine what is modelled.
- Timers: level 0 of `then` runs in a later task, which is one event among others here.
- Hunting for the date of a rule such as `lastSun`, loading zone files, zone links and abbreviations: the start of a rule in a year is given.
- TimezoneRules.RuleClock.GetRule: in force is stated for starts that are further apart than clocks can shift, which the source assumes in a comment; rules older than the year before are not collected.
- JulianDay.CivilToJulianDayNumber: not the binary floating point of 365.25 and 30.6001; exact fractions stand for them.
- Gantt.ProcessRows: lists in which two groups have the same id, or a group the id 0, are left out, since the pass may then visit tasks twice or never end.
- Task dates are values; that a group shares the Date object of a child is not modelled, and drawing is left out.
- Jcrop's aspect ratio and scale, which are floating point, and its animations and handles.
- Events.Handlers.Add: one event type at a time; special event types and the native listener are left out.
- Namespaces.TestIsInclusion: names are taken literally, without characters that mean something in a regular expression.
- Namespaces.TestIsEmbedding: names are taken literally, without characters that mean something in a regular expression.
- Events.HitByNamespace: the regular expression engine is not modelled; that the pattern built from the names behaves as `Test` is its meaning.
- The OData classes in Java, the page scripts and the other plugins of the theme.
