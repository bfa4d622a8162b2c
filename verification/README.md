# Verified model of the metric engine, its access rules and its load pipeline

This project models, in Dafny, the parts of the engine whose correctness does not show from
reading one function: planning and evaluating metric formulas, rolling results up and
relabelling them in time, resolving hierarchy filters and security scopes, the scenario key
language, loading under a lock, and the slot and retention protocols. `dafny verify dfyconfig.toml`
checks it.

| module | models |
|---|---|
| `Graphs`, `Planner`, `Formulas`, `Evaluator`, `Engine` | the cycle check, the dependency closure and sort, formula evaluation, and the theorem that filling rows in place in plan order is recursive evaluation |
| `ScenarioKeys`, `ScenarioAccess`, `QueryPlan` | printing and parsing generated scenario keys, the two expansions of one reference, query deduplication and computed scenarios |
| `Grouping`, `Rollup`, `Retrieval`, `ClosingSplit` | grouping tags, the in-memory rollup, merging, and the split of closing queries |
| `Digits`, `TimeShift` | period texts, month arithmetic, and the relabelling of shifted scenarios |
| `Hierarchy`, `Breakdowns`, `Filters`, `Scope` | the parent closure, breakdown axes, filters at any level, and allow and deny scopes |
| `Ingestion`, `Checks` | concurrent load attempts as a state machine, and the checks that gate the swap |
| `ReadLimiter`, `AddinSlots`, `Prune` | the two-level cap on reads, the add-in's slot hand-off, and backup retention |
| `Collections`, `TextOrder`, `Wrappers` | shared vocabulary |

State machines (`Ingestion`, `ReadLimiter`) interleave single steps of any number of attempts or
calls, with crashes, timeouts and failures as steps; their theorems range over all runs. Objects
the program updates in place are classes (`Results`, `Catalogue`, `ReadConcurrencyLimiter`,
`SlotGate`, `Destination`); loops that build a value are methods proved against a specification.
Outcomes the program cannot decide (a lock granted or refused, a query result, an accepted
delete, a clock) are parameters.

Several laws hold only under a condition the program does not check. Each is stated as an
if-and-only-if or with a lemma that shows the condition is needed:

- a formula that names a derived metric called like a Python builtin is planned without it;
- aliases ending in `_vs`, an alias `pct`, or a stored id equal to a generated key break the key round trip;
- a stored id that another scenario answers to lets a fork be queried that the gate did not ask for,
  and so does an alias holding `&` that is read back as another scenario;
- two spellings of one scenario in one request leave the later without data;
- a detail value equal to the rolled-up mark lets two grains write one key, and a dimension named
  twice makes a subtotal read as a detail row;
- subtotals over two time dimensions lose a closing grain and return one nobody asked for;
- thirteenth and adjustment periods collide with other months when a scenario is shifted;
- binding a derived dimension lets axes through that cannot be grouped, unless each axis above it is
  bound, a time level or above a bound leaf;
- two leaf dimensions on one view column forget a filter;
- a leaf dimension that an allow list mentions without a value, or only a deny list does, is not restricted as listed;
- two bindings on one target can put a mixture of two loads live;
- two rows with one key hide the earlier from a reconciliation.

Where comments and code differ, the model follows the code. The cycle check calls its result a
cycle, but reports every node below one. A period load whose staging clean-up fails ends as
`failed_swap` though its rows are live. The checks' entry point says that a reconcile check whose
source totals are missing errors; it stops the whole set instead (`precis_mcp/ingestion/checks.py:123-125`,
`precis_mcp/ingestion/checks.py:234-238`).

## Model

| member | source | states |
|---|---|---|
| `Graphs.HasCycle` | precis_mcp/engine/catalogue.py:374-395 | nothing is reported exactly when the graph has no cycle; otherwise the report lists, once each, the nodes below a cycle (not only those on it) |
| `Graphs.CountDependents` | precis_mcp/engine/catalogue.py:376-380 | the in-degrees: for every node the number of nodes that depend on it, dependencies that are no nodes being ignored |
| `Graphs.Release` | precis_mcp/engine/catalogue.py:384-391 | one turn of the worklist: every dependency of the popped node loses one dependent, and those left with none are queued |
| `Graphs.LeftOverIsBelowCycle` | precis_mcp/engine/catalogue.py:394-395 | what the worklist leaves over are exactly the nodes some cycle leads to |
| `Graphs.BelowCycleEmptyIffAcyclic` | precis_mcp/engine/catalogue.py:374-395 | the reported set is empty exactly when there is no cycle |
| `Planner.CollectKeys` | precis_mcp/engine/resolver.py:191-207 | the worklist over formula references ends with exactly the transitive closure of the request, and fails exactly when something needed is unknown |
| `Planner.KahnSort` | precis_mcp/engine/resolver.py:209-238 | the loop with in-degrees and a sorted queue lists what repeatedly taking the least ready key lists |
| `Planner.ReleaseDependents` | precis_mcp/engine/resolver.py:233-238 | lowers the degree of everything that depends on the listed key and queues, once each, what becomes ready |
| `Planner.PopLeast` | precis_mcp/engine/resolver.py:229-232 | takes the least queued key in text order and nothing else |
| `Planner.KahnOrderExact` | precis_mcp/engine/resolver.py:209-238 | the sorted list has no repeats, puts dependencies first, and leaves out exactly the keys that depend on a cycle |
| `Planner.SortKeepsAllIffAcyclic` | precis_mcp/engine/resolver.py:209-238 | the sort drops nothing exactly when the graph has no cycle |
| `Planner.ResolveDependencies` | precis_mcp/engine/resolver.py:181-243 | the plan is the sorted closure, or an error exactly when something needed is unknown; its base keys are exactly the base metrics listed, and its derived keys the derived ones |
| `Planner.PlanExact` | precis_mcp/engine/resolver.py:191-243 | a planned list holds each needed key once, references first, and misses a needed key exactly when it depends on a formula cycle |
| `Planner.CheckedPlanIsComplete` | precis_mcp/engine/resolver.py:191-243 | with the loader's cycle check passed, the plan is the whole closure of the request |
| `Planner.UncheckedPlanDropsKeys` | precis_mcp/engine/resolver.py:209-238 | without that check a self-referring metric is planned away in silence |
| `Formulas.ReadsOnlyNames` | precis_mcp/engine/transformer.py:25-114 | only the variables a formula names can influence its value |
| `Formulas.VariableRefersUnlessBuiltin` | precis_mcp/engine/catalogue.py:367-371 | a variable refers to the metric of its name unless it is called like one of nine builtins |
| `Formulas.KnownVariablesEvaluate` | precis_mcp/engine/transformer.py:25-148 | supported syntax over known variables always evaluates, whatever is missing or zero |
| `Formulas.FailsOnUnknownOnly` | precis_mcp/engine/transformer.py:25-114 | supported syntax fails only by reading an unknown variable in a branch that is taken |
| `Formulas.NoneExactly` | precis_mcp/engine/transformer.py:25-114 | the value is missing exactly when a missing operand is carried to the root or a division by zero happens on the way |
| `Formulas.EvaluatesToRealValue` | precis_mcp/engine/transformer.py:25-148 | over present variables and without a zero divisor, evaluating a supported formula is real arithmetic: a separate reading of formulas as functions on numbers agrees with the evaluator |
| `Formulas.SumLaws` | precis_mcp/engine/transformer.py:43-68 | for formulas with values, `(a + b) - b` and `(a - b) + b` give `a`, zero is neutral, `-a + a` is zero, and sums commute |
| `Formulas.ProductLaws` | precis_mcp/engine/transformer.py:57-69 | products commute, have one for unit, and distribute over sums |
| `Formulas.QuotientLaws` | precis_mcp/engine/transformer.py:68-73 | division undoes multiplication by any divisor but zero, and by zero the value is missing |
| `Formulas.SizeLaws` | precis_mcp/engine/transformer.py:79-95 | `abs` keeps a value that is not negative, and gives a value and its negation the same size |
| `Formulas.ConditionalLaws` | precis_mcp/engine/transformer.py:97-104 | a conditional whose test is missing or zero has the outcome of its second branch, and otherwise of its first |
| `Evaluator.FillDerived` | precis_mcp/engine/transformer.py:175-188 | filling one row in plan order leaves every derived key at its recursive meaning over the base values, and fails exactly when some meaning does |
| `Evaluator.FilledRowIsArithmetic` | precis_mcp/engine/transformer.py:155-188 | in a filled row each planned derived metric equals the real arithmetic of its formula over the cells of that same row |
| `Evaluator.MeaningIsConsistent` | precis_mcp/engine/transformer.py:155-188 | recursive evaluation over an acyclic catalogue satisfies every formula at once |
| `Evaluator.Results.ComputeDerivedMetrics` | precis_mcp/engine/transformer.py:155-188 | one scenario is filled in place, every row as the recursive meaning says, other scenarios untouched |
| `Evaluator.Results.ComputeScenario` | precis_mcp/engine/transformer.py:195-238 | a computed scenario gets a row at every key any scenario has, each cell the formula over the other scenarios' cells; nothing else changes |
| `Evaluator.Results.Transform` | precis_mcp/engine/transformer.py:245-275 | derived metrics everywhere, then the computed scenarios in turn, which all still hold at the end |
| `Evaluator.HoldsKept` | precis_mcp/engine/transformer.py:245-275 | computing a further scenario does not disturb one whose formula does not name it |
| `Engine.ValidateMetrics` | precis_mcp/engine/catalogue.py:960-978 | the metric checks accept a catalogue exactly when every reference is known and no formula is circular |
| `Engine.RunReport` | precis_mcp/engine/__init__.py:313-443 | end to end: unknown or circular requests are refused with nothing changed; otherwise every needed derived metric of every fetched row ends at its recursive meaning, which over present cells is the real arithmetic of its formula |
| `Engine.MeaningNeverUnset` | precis_mcp/engine/transformer.py:155-188 | over an accepted catalogue with supported formulas and the base values there, no evaluation reads an unset variable |
| `Engine.PlansFollowNamesIffNoBuiltinRead` | precis_mcp/engine/catalogue.py:367-371 | for every request the plan puts what a formula names first exactly when no formula names a derived metric called like a listed builtin |
| `Engine.OverlookedNameIsNotPlanned` | precis_mcp/engine/catalogue.py:367-371 | a formula that does name one is planned without it |
| `ScenarioKeys.BuildRegistry` | precis_mcp/engine/scenario_registry.py:105-123 | a registry is built, holding exactly the rows, precisely when all aliases are valid and neither aliases nor ids repeat |
| `ScenarioKeys.ResolvedIsKnown` | precis_mcp/engine/scenario_registry.py:139-158 | whatever text resolves, it resolves to a reference over scenarios of the registry |
| `ScenarioKeys.VarianceRoundTrip` | precis_mcp/engine/scenario_registry.py:334-368 | the key of a comparison resolves to that comparison, with or without a percent sign |
| `ScenarioKeys.RoundTripsIffUnambiguous` | precis_mcp/engine/scenario_registry.py:139-158 | resolving inverts printing for every reference exactly when no alias ends in `_vs`, none is `pct`, and no stored id is a generated key; the loader checks none of the three |
| `ScenarioKeys.AliasEndingInVsBreaks` | precis_mcp/engine/scenario_registry.py:371-387 | an alias that ends in `_vs` is split too early |
| `ScenarioKeys.AliasPctBreaks` | precis_mcp/engine/scenario_registry.py:334-345 | an alias `pct` turns a plain comparison into a percentage |
| `ScenarioKeys.IdEqualToKeyBreaks` | precis_mcp/engine/scenario_registry.py:139-158 | a stored id equal to a generated key is found before the reference |
| `ScenarioKeys.KeysAreDistinct` | precis_mcp/engine/scenario_registry.py:42-99 | different references have different keys |
| `ScenarioKeys.NormalizeIdempotent` | precis_mcp/engine/scenario_registry.py:134-137 | normalising a key twice is normalising it once, and it still means the same |
| `ScenarioAccess.GateCoversEngineIff` | precis_mcp/dispatch.py:641-709 | over any loaded registry the gate's ids hold every stored scenario the engine queries, for all references, exactly when no stored id is a name another scenario answers to and no comparison has a side that is read back as a third stored scenario |
| `ScenarioAccess.GateCoversEngineIffNoStrayAlias` | precis_mcp/dispatch.py:641-709 | the same in terms of aliases: none holds a modifier sign while its id does not and is read as another stored scenario; this where the id of such a scenario can be compared with itself |
| `ScenarioAccess.ComparisonCoveredIff` | precis_mcp/engine/resolver.py:505-569 | an accepted comparison is covered exactly when neither side is read back as a third stored scenario |
| `ScenarioAccess.GateCoversEngineIffUnshadowed` | precis_mcp/dispatch.py:641-709 | where no alias holds a modifier sign, coverage is decided by shadowed ids alone |
| `ScenarioAccess.UnshadowedCovered` | precis_mcp/engine/resolver.py:505-569 | with no id shadowed, the engine's expansion of shifts, comparisons and forks stays within the gate's, unless a side of a comparison is read back as a third scenario |
| `ScenarioAccess.ShadowedNotCovered` | precis_mcp/engine/__init__.py:384-403 | an explicit fork to a shadowed scenario queries it while the gate asks for another |
| `ScenarioAccess.AmpersandAliasNotCovered` | precis_mcp/engine/resolver.py:133-164 | an alias with a modifier sign lets a comparison carry a fork that the gate does not see |
| `ScenarioAccess.StrayReferenceNotCovered` | precis_mcp/engine/resolver.py:133-164 | a concrete registry of three scenarios: the comparison `s1_vs_a` queries `t`, for which the gate never asked |
| `ScenarioAccess.SidesResolve` | precis_mcp/engine/resolver.py:505-531 | the sides of a comparison resolve to themselves when looked up again by key |
| `ScenarioAccess.ForkRefParses` | precis_mcp/engine/resolver.py:133-164 | a reference with a fork modifier parses into its base and its target |
| `ScenarioAccess.ForkReplaces` | precis_mcp/engine/__init__.py:382-403 | a fork queries the scenario it names, or without a name the parent of the scenario, if any; the gate asks for both |
| `ScenarioAccess.GateAsksForStored` | precis_mcp/dispatch.py:641-709 | the gate asks for the stored scenario behind a shifted key and for both behind a comparison |
| `ScenarioAccess.FiveModifiers` | precis_mcp/engine/resolver.py:133-164 | a modifier is accepted exactly when it is one of five |
| `QueryPlan.CollectScenarios` | precis_mcp/engine/resolver.py:505-531 | over any loaded registry the visited keys are exactly those asked for and the sides of comparisons among them, and it fails exactly when a key asked for, or a side looked up again by its key, cannot be planned |
| `QueryPlan.ShiftedQueryIsEarlier` | precis_mcp/engine/resolver.py:541-569 | under its alias with `_py` a scenario is queried over the window twelve months earlier, with `_pp` one month earlier |
| `QueryPlan.PlainQueryIsTheWindow` | precis_mcp/engine/resolver.py:541-569 | under its alias alone it is queried over the window itself |
| `QueryPlan.SideIsNoComparison` | precis_mcp/engine/resolver.py:505-531 | a side of a comparison, looked up again by its key, is never itself a comparison, so that the recursion ends after one level |
| `QueryPlan.PlainAliasesPlannable` | precis_mcp/engine/resolver.py:505-531 | only a modifier sign inside an alias can keep the sides of an accepted comparison from being planned |
| `QueryPlan.SameQueryIffSameDenotation` | precis_mcp/engine/resolver.py:676-679 | two keys get the same deduplication key exactly when they denote the same scenario, shift and modifiers |
| `QueryPlan.DeduplicateQueries` | precis_mcp/engine/resolver.py:670-683 | the queries kept are pairwise different, and a key keeps its own exactly when no earlier key denotes the same |
| `QueryPlan.AllQueriedIffDenoteDifferently` | precis_mcp/engine/resolver.py:670-683 | deduplication drops nothing exactly when no two keys denote the same |
| `QueryPlan.CanonicalKeysDenoteDifferently` | precis_mcp/engine/resolver.py:541-569 | different canonical keys denote differently: keys of real and shifted scenarios that hold no modifier sign and, where shifted, are no stored id |
| `QueryPlan.FormulaCompares` | precis_mcp/engine/resolver.py:488-495 | the generated formula is the difference, or the percentage of the right side's size; missing when a side is missing, or as a percentage of zero |
| `QueryPlan.ComparisonWorksIffSidesThere` | precis_mcp/engine/transformer.py:215-238 | a computed scenario can be evaluated exactly when both sides are in the data, and its cells are then the comparison of theirs |
| `QueryPlan.DeliveredComparison` | precis_mcp/engine/resolver.py:488-495 | in delivered results `a_vs_b` holds the value of `a` less that of `b`, and `a_vs_b_pct` that difference in percent of the size of `b` |
| `QueryPlan.AllComparisonsWork` | precis_mcp/engine/transformer.py:245-275 | with keys that denote differently no comparison of the request meets an unknown variable |
| `QueryPlan.SecondSpellingFails` | precis_mcp/engine/resolver.py:676-683 | with two spellings of one scenario the later has no data, and a comparison with it as a side fails |
| `QueryPlan.PriorYearIsASecondSpelling` | precis_mcp/engine/scenario_registry.py:139-158 | `prior_year` and `actuals_py` are such a pair, and the canonical key sorts first |
| `Grouping.RequestedGroupingSets` | precis_mcp/engine/retriever.py:424-438 | the grouping sets are the full list, its proper prefixes from long to short, and the empty set, as asked |
| `Grouping.GroupingSetsAreRequested` | precis_mcp/engine/retriever.py:424-438 | the sets are exactly the requested grains, each once, finest first |
| `Grouping.DecodesIffMarks` | precis_mcp/engine/retriever.py:743-761 | for any number of dimensions, every row with a tag decodes to its values at the live positions and to marks elsewhere exactly when the tag has bits at the other positions |
| `Grouping.OrSetsOneBit` | precis_mcp/engine/ibis_retriever.py:279-284 | setting a bit with a bitwise or of a shifted one changes that bit only |
| `Grouping.PaddedKeyTellsGrain` | precis_mcp/engine/formatter.py:200-244 | from the key of a grain the formatter reads back its live dimensions and its grain |
| `Rollup.EmptyRollupRow` | precis_mcp/engine/ibis_retriever.py:269-287 | the mask has a bit for exactly the dimensions not live, live columns come from the source row and the others are blank, metrics start at zero |
| `Rollup.AggregateRowsForSet` | precis_mcp/engine/ibis_retriever.py:233-266 | one row per distinct key in order of first appearance, each metric the total of the non-null values under the key, null when there are none, zero for the grand total over no rows |
| `Rollup.TotalIsPlainSum` | precis_mcp/engine/ibis_retriever.py:252-265 | a total is the plain sum, in real numbers, of the values that are present under its key, and missing when none is |
| `Rollup.RollupDetailRows` | precis_mcp/engine/ibis_retriever.py:186-215 | the rows carry, in order, the keys of all requested grains and what each grain should hold there, and decode to those keys; dimensions may repeat when no subtotals are asked for |
| `Rollup.RolledKeysAre` | precis_mcp/engine/ibis_retriever.py:218-230 | those keys are the keys of the requested grains, each once |
| `Rollup.ReadableIffUntorn` | precis_mcp/engine/retriever.py:743-761 | the rows of a grain are read back under their keys, whatever their values, exactly when the grain does not keep one copy of a dimension and roll up another |
| `Rollup.SubtotalsReadableIffDistinct` | precis_mcp/engine/retriever.py:743-761 | all subtotals are read back under their keys exactly when no dimension is asked for twice |
| `Rollup.KeysApartIffGrainsApart` | precis_mcp/engine/retriever.py:743-761 | no key is written by two grains exactly when between any two requested grains every detail row has a value that is not the mark |
| `Rollup.RepeatedDimensionHidesSubtotal` | precis_mcp/engine/ibis_retriever.py:239-282 | at the position of a second copy beyond the grain the row decodes to the value of the first copy, where the mark should stand |
| `Retrieval.MergeRowIntoResults` | precis_mcp/engine/retriever.py:764-777 | a row's metrics go under its key; other metrics of the entry and other keys stay |
| `Retrieval.RetrieveFederated` | precis_mcp/engine/retriever.py:865-906 | after merging, every requested grain and key holds its totals, and every other entry is as before |
| `Retrieval.CoarserIsSumOfFiner` | precis_mcp/engine/ibis_retriever.py:194-199 | for any two grains the total of the coarser is the null-skipping sum of the finer totals under it |
| `Retrieval.CoarserIsPlainSumOfFiner` | precis_mcp/engine/ibis_retriever.py:194-199 | the same in plain real sums of the detail values |
| `Retrieval.ResultsAddUp` | precis_mcp/engine/ibis_retriever.py:186-215 | in the merged results an entry is the plain real sum of the present finer entries under it, and missing when none is present, for any two requested grains |
| `Retrieval.EntryIsPlainSum` | precis_mcp/engine/retriever.py:865-906 | each merged entry is the plain real sum of the present detail values under its key, and missing without any |
| `Retrieval.RaisedDetailRaisesEntries` | precis_mcp/engine/retriever.py:865-906 | raising one detail's value of a metric raises that metric by exactly as much in the entry of every requested grain above the detail, and changes no other requested entry |
| `Retrieval.RaisedDetailKeepsOthers` | precis_mcp/engine/retriever.py:865-906 | nor anything the query does not write |
| `Retrieval.NoRowsGrandTotalIsZero` | precis_mcp/engine/ibis_retriever.py:243-245 | over no rows only the grand total is there, and it is zero |
| `ClosingSplit.FullGroupingExpr` | precis_mcp/engine/retriever.py:529-550 | one weighted term per dimension, constant for those that are no group key of the query |
| `ClosingSplit.RebuiltTagMarks` | precis_mcp/engine/retriever.py:529-550 | summed up, the terms have a bit for exactly the dimensions outside the set |
| `ClosingSplit.ClosingTotalsQuery` | precis_mcp/engine/retriever.py:553-614 | the totals query returns the projections of the rolled sets, each once, and its rows decode with marks at exactly the dimensions left out |
| `ClosingSplit.ClosingQueries` | precis_mcp/engine/retriever.py:681-711 | the closing queries return the listed sets, the normal one those that keep every time dimension and the totals one none that keeps any, and every row's key tells its set |
| `ClosingSplit.ReturnedAreRequestedOrRolled` | precis_mcp/engine/retriever.py:681-711 | each grain returned is a requested one that holds every time dimension, or what a requested one that does not leaves without them, and each requested one is returned as one or the other |
| `ClosingSplit.TimeDimsAre` | precis_mcp/engine/retriever.py:681-711 | the time dimensions asked for are the period and its parents |
| `ClosingSplit.ReturnsRequestedIffOneTimeDimension` | precis_mcp/engine/retriever.py:693-711 | each requested grain is returned once and nothing else exactly when subtotals are not asked for or there is one time dimension at most |
| `ClosingSplit.QuarterSubtotalIsLost` | precis_mcp/engine/retriever.py:693-711 | by quarter and month with subtotals, the quarter subtotal is missing and an unrequested grand total is there |
| `TimeShift.ShiftsAdd` | precis_mcp/engine/resolver.py:111-116 | shifting twice is shifting by the sum |
| `TimeShift.ShiftBackIffCanonical` | precis_mcp/engine/resolver.py:111-116 | shifting back undoes a shift exactly on texts YYYY-MM with a month from 01 to 12 |
| `TimeShift.ShiftKeepsOrder` | precis_mcp/engine/resolver.py:111-116 | a shift keeps the text order of periods, on which period windows are cut |
| `TimeShift.QuarterCommutesIff` | precis_mcp/engine/retriever.py:796-806 | quarter and shift commute exactly when the shift does not carry the month over a quarter's end; shifts by whole quarters never do |
| `TimeShift.FiscalYearCommutesIff` | precis_mcp/engine/retriever.py:808-815 | the same for years |
| `TimeShift.ShiftJoinsIffOneMonth` | precis_mcp/engine/retriever.py:788-817 | a shift makes two values equal exactly when they are equal or are period texts of one month |
| `TimeShift.RelabelKey` | precis_mcp/engine/retriever.py:908-921 | rolled-up positions stay; a live period becomes canonical and a quarter or year that of its first month, all moved by the months of the shift |
| `TimeShift.YearShiftKeepsMonth` | precis_mcp/engine/retriever.py:788-823 | a key that holds the period, quarter and year of one month holds those of the shifted month after a shift by whole years |
| `TimeShift.RelabelledLiesInWindow` | precis_mcp/engine/retriever.py:908-921 | a period lies in the shifted window exactly when its relabelled text lies in the window asked for |
| `TimeShift.RemapTimeKeys` | precis_mcp/engine/retriever.py:908-921 | the new keys are the relabelled ones, and under each is the entry of the last key that became it |
| `TimeShift.NoRowLostIffMonthsWrittenOnce` | precis_mcp/engine/retriever.py:908-921 | no row is lost exactly when no month is written in two ways, and then every entry is found under its new key |
| `TimeShift.CanonicalKeysWrittenOnce` | precis_mcp/engine/retriever.py:908-921 | canonical periods are written in one way, so over them every shift keeps every row |
| `TimeShift.ThirteenthPeriodCollides` | precis_mcp/ingestion/ibis_executor.py:64 | the loader accepts thirteenth periods, and to a shift each is the next January |
| `TimeShift.AdjustmentPeriodCollides` | precis_mcp/ingestion/ibis_executor.py:64 | the loader accepts adjustment periods, and to a shift each is the month it adjusts |
| `TimeShift.GenerateMonthlyRange` | precis_mcp/scope_resolver.py:66-77 | the loop lists exactly the months from the start to the end, for any digits in the month places; a start that is no month is listed as it is |
| `TimeShift.RangeStepsByOneShift` | precis_mcp/scope_resolver.py:66-77 | each listed month is one shift after the one before |
| `Digits.FormattedReads` | precis_mcp/engine/resolver.py:116 | zero-padded printing has the asked width and reads back |
| `Digits.TextOrderIsNumberOrder` | precis_mcp/engine/resolver.py:116 | among digit texts of one width, text order is number order |
| `Hierarchy.WalkParents` | precis_mcp/engine/catalogue.py:826-846 | the breadth-first walk lists exactly the ancestors reachable by parent links, each once, with the column of a link into it |
| `Hierarchy.Catalogue.TagAncestors` | precis_mcp/engine/catalogue.py:849-864 | every ancestor of the leaf gains one resolution for it; no other dimension changes |
| `Hierarchy.Catalogue.ComputeTransitiveClosure` | precis_mcp/engine/catalogue.py:814-876 | afterwards each dimension holds one resolution for exactly the leaves below it, naming the leaf's table and a declared column |
| `Breakdowns.AddParents` | precis_mcp/engine/resolver.py:614-622 | the recursive walk visits only ancestors of its start, and everything visited has its parents visited and valid |
| `Breakdowns.ValidAxes` | precis_mcp/engine/resolver.py:610-625 | the valid axes are exactly the bound dimensions and the dimensions above them |
| `Breakdowns.CheckAxes` | precis_mcp/engine/resolver.py:626-650 | the strict check passes exactly when every axis is valid |
| `Breakdowns.ResolveBreakdowns` | precis_mcp/engine/retriever.py:212-270 | it succeeds exactly when every axis is bound, a time level or above a bound leaf; each expression then reads the fact column or the leaf table joined on it, with one join per table and column and no join that no axis asks for |
| `Breakdowns.TimeLevelsNeedNoBinding` | precis_mcp/engine/retriever.py:212-270 | without bindings or links just `period`, `quarter` and `fiscal_year` can be grouped, each as the fact column of its own name |
| `Breakdowns.JoinIsOfBoundLeaf` | precis_mcp/engine/retriever.py:242-265 | every join is of a bound leaf below an axis: the leaf's own table, from its fact column to its key column |
| `Breakdowns.GroupableIffHasWay` | precis_mcp/engine/retriever.py:212-270 | an axis can be grouped exactly when it is bound, a time level, or some bound leaf lies below it by parent links |
| `Breakdowns.AcceptedAxesResolveIff` | precis_mcp/engine/resolver.py:607-650 | every accepted axis resolves exactly when each dimension above a derived binding is bound, a time level, or has a bound leaf below it; with leaf bindings only, that holds |
| `Breakdowns.LoneDerivedBindingFails` | precis_mcp/engine/retriever.py:242-256 | a domain that binds only a derived dimension accepts the dimensions above it and cannot group by them |
| `Filters.MembersSatisfy` | precis_mcp/engine/filter_resolver.py:79-161 | the members a filter resolves to are exactly those that satisfy it, at leaf, derived or ragged level |
| `Filters.FailsIffNothingSatisfies` | precis_mcp/engine/filter_resolver.py:210-250 | one filter fails exactly when no member satisfies it: unknown key, no way to a leaf, or no match |
| `Filters.ResolveFilters` | precis_mcp/engine/filter_resolver.py:253-342 | it succeeds exactly when each filter alone does, and the result holds the members common to the filters of each leaf, a later leaf replacing an earlier one on the same column |
| `Filters.KeyColumnIsLeafColumn` | precis_mcp/engine/filter_resolver.py:168-203 | a filter key maps to the view column of the leaf it resolves to |
| `Filters.FilterAndBreakdownAgree` | precis_mcp/engine/filter_resolver.py:168-203 | with one binding per dimension a filter restricts the fact column that a breakdown by the leaf reads; without a binding the key column of the leaf's table |
| `Filters.FiltersExactIffOwnColumns` | precis_mcp/engine/filter_resolver.py:253-342 | for a fixed catalogue, passing the returned sets is meeting every filter, for all tables, filters and facts, exactly when no two leaf dimensions map to one view column |
| `Filters.ResolvedIsExact` | precis_mcp/engine/filter_resolver.py:253-342 | when the filtered leaves have columns of their own, a fact row passes the returned sets exactly when it meets every filter |
| `Filters.SharedColumnForgetsFilter` | precis_mcp/engine/filter_resolver.py:326-340 | with two leaves on one column only the members of the later filter are left |
| `Filters.SharedColumnAdmitsWrongFact` | precis_mcp/engine/filter_resolver.py:326-340 | over tables with two rows `x` and `y`, the filters a=x and b=y on one column let a fact of `y` pass that does not meet a=x |
| `Scope.ResolveScopeMembers` | precis_mcp/engine/scope_enforcer.py:92-127 | the leaf sets of a list hold a set for each leaf some value reaches, with all members reached, and it fails exactly when a key or value cannot be resolved |
| `Scope.LeafSetsMean` | precis_mcp/engine/scope_enforcer.py:92-127 | the leaves are exactly those some entry reaches with a value, and the members those named |
| `Scope.UniverseIsNameable` | precis_mcp/engine/scope_enforcer.py:77-89 | the universe of a leaf dimension is exactly the members that a filter on it can name |
| `Scope.ResolveScopeFilters` | precis_mcp/engine/scope_enforcer.py:230-289 | it succeeds exactly when no inline dimension is scoped and all keys resolve, and builds each column from allow, universe and deny |
| `Scope.ScopeFiltersAreExact` | precis_mcp/engine/scope_enforcer.py:230-289 | the columns admit a fact exactly when the scope permits it (each mentioned leaf's member allowed, or in the universe when nothing is, and not denied), for all facts, if and only if every leaf that allow mentions has a value there and every other that deny mentions has one in deny, or some returned set is empty |
| `Scope.MergeDimensionFilters` | precis_mcp/engine/scope_enforcer.py:297-326 | columns of both sides are kept and shared ones intersected |
| `Scope.MergedScopeExactIff` | precis_mcp/engine/scope_enforcer.py:297-326 | merged with the user's filters: the merged sets admit exactly what both let through under the same condition, where for a leaf that only deny mentions a user filter within its table also does |
| `Scope.EnforceCrossScenarioScope` | precis_mcp/engine/scope_enforcer.py:334-443 | a returned set is in effect for every scenario; it raises on any scope that has the domain on its deny list or has an allow list without it, reports a denied domain for no other reason, and raises only on an empty scope map, a refused scope or a real disagreement, over scopes with own columns exactly then |
| `Scope.EnforcementIsExact` | precis_mcp/engine/scope_enforcer.py:334-443 | for each scenario, the returned set admits a fact exactly when the user's filters do and its scope permits it, for all facts, if and only if its lists are filled as above or the set admits nothing |
| `Scope.EmptyAllowListIsIgnored` | precis_mcp/engine/scope_enforcer.py:108-127 | an allow list without values admits everything although it permits nothing |
| `Ingestion.StepKeepsInv` | precis_mcp/ingestion/orchestrator.py:356-624 | every step of every interleaving keeps the lock, the staging slices, the gates passed and the history rows as the invariant says |
| `Ingestion.LiveSlicesAreWholeLoads` | precis_mcp/ingestion/orchestrator.py:356-624 | in every run each live slice is its initial content or the whole of one load that passed the zero-row guard, the shape check and its checks |
| `Ingestion.ReturnedAttempts` | precis_mcp/ingestion/orchestrator.py:356-624 | a returning attempt has finalised its row exactly once with the status it returns, an unstopped success has swapped, and each status tells which gates were passed |
| `Ingestion.AttemptsExclude` | precis_mcp/ingestion/pg_lock.py:62-101 | two attempts on one binding are never inside the protected section together |
| `Ingestion.NoLockLeftBehind` | precis_mcp/ingestion/pg_lock.py:85-101 | when no attempt is under way, by return, exception or crash, no lock is held |
| `Ingestion.UndisturbedReturns` | precis_mcp/ingestion/orchestrator.py:356-624 | unless it crashes or meets an error nothing catches, an attempt makes at most fifteen steps, can always make the next whatever the others do, and ends by returning a status |
| `Ingestion.FailedSwapCanBeLive` | precis_mcp/ingestion/swap.py:123-158 | a period load whose staging clean-up fails reports a failed swap with its rows live |
| `Ingestion.SharedTargetMixesLoads` | precis_mcp/ingestion/ibis_executor.py:125-166 | two bindings on one target can put a mixture of two loads live |
| `Ingestion.SwapWasMade` | precis_mcp/ingestion/orchestrator.py:575-597 | the swap flag of an attempt is raised by its own swap step only |
| `Ingestion.GatesWerePassed` | precis_mcp/ingestion/orchestrator.py:459-573 | the rows of an attempt are what its source query returned, and the gates it counts as passed are a shape check and a run of checks of its own that passed |
| `Ingestion.SwapMovesSlices` | precis_mcp/ingestion/swap.py:123-188 | the swap puts the staged slice live as it is; a snapshot table changes places with its staging table, and nothing else moves |
| `Ingestion.SameSliceIff` | precis_mcp/ingestion/ibis_executor.py:125-166 | two loads of one binding are for one slice exactly when they are for one period or of a snapshot table |
| `Checks.RunReconcile` | precis_mcp/ingestion/checks.py:230-292 | the failing count is the number of group keys in violation, unless a source row lacks a group column |
| `Checks.ViolationsAre` | precis_mcp/ingestion/checks.py:260-277 | with distinct keys per side, the violating keys are those missing on one side or with a measure out of tolerance |
| `Checks.PassesIffReconciles` | precis_mcp/ingestion/checks.py:299-317 | with the default threshold a reconciliation passes exactly when both sides have the same keys and all measures are within tolerance |
| `Checks.SameGroupIff` | precis_mcp/ingestion/checks.py:248-258 | two rows are of one group exactly when they agree on every group column |
| `Checks.MissingMeasureIsZero` | precis_mcp/ingestion/checks.py:248-258 | a present measure is compared as it is and a missing one as zero |
| `Checks.ShareIsOfSource` | precis_mcp/ingestion/checks.py:311-317 | a share tolerance bounds the gap by that share of the source, zero included |
| `Checks.AbsoluteIsBand` | precis_mcp/ingestion/checks.py:311-317 | an absolute tolerance is a band around the source and comes before a share; with neither nothing may differ |
| `Checks.ThresholdTrips` | precis_mcp/ingestion/checks.py:299-308 | which side of its bound each threshold trips on, and that without one any failing row trips |
| `Checks.RepeatedKeyHidesEarlierRow` | precis_mcp/ingestion/checks.py:248-258 | of two rows with one key the earlier is not looked at |
| `Checks.RunChecks` | precis_mcp/ingestion/checks.py:115-161 | one result per check, in order, with its failing count, or none when its query fails; the verdict is failed exactly when a check of error severity does not pass, and passed exactly when none of error or warning severity does not |
| `Checks.CheckStage` | precis_mcp/ingestion/orchestrator.py:522-567 | the load goes on towards its swap exactly when all checks can be run and none of error severity fails, and otherwise ends with the status that says which |
| `ReadLimiter.StepKeepsInv` | precis_mcp/concurrency.py:64-108 | every step keeps free plus held slots at the cap, per user and overall |
| `ReadLimiter.SlotsAreConserved` | precis_mcp/concurrency.py:64-108 | in every interleaving of acquires, timeouts, failures and releases free plus held is the cap |
| `ReadLimiter.HeldByHistory` | precis_mcp/concurrency.py:82-108 | who holds a slot at the end of a run is who has taken one in it and not given it back since |
| `ReadLimiter.SlotsNest` | precis_mcp/concurrency.py:82-108 | in every run a process slot is taken, and any slot given back, only by a call holding a user slot it has not given back, and the user slot goes back only when the process slot is not held |
| `ReadLimiter.SlotsReturnAtQuiescence` | precis_mcp/concurrency.py:82-108 | when every call has finished every slot is back |
| `ReadLimiter.NeverDeadlocked` | precis_mcp/concurrency.py:82-108 | while a call is unfinished some call can move, even without timeouts |
| `ReadLimiter.StepUsesWork` | precis_mcp/concurrency.py:82-108 | every step but an arrival uses up work |
| `ReadLimiter.RunsComeToRest` | precis_mcp/concurrency.py:82-108 | a run without arrivals is no longer than the work there was |
| `ReadLimiter.ReadConcurrencyLimiter.SlotsFor` | precis_mcp/concurrency.py:64-80 | looking up creates missing semaphores at their caps and changes no other count |
| `ReadLimiter.ReadConcurrencyLimiter.AcquireUser` | precis_mcp/concurrency.py:95-96 | the user slot is taken exactly when one is free, and the invariant holds either way |
| `ReadLimiter.ReadConcurrencyLimiter.AcquireGlobal` | precis_mcp/concurrency.py:97-98 | the same for the process slot |
| `ReadLimiter.ReadConcurrencyLimiter.Leave` | precis_mcp/concurrency.py:104-108 | exactly the slots taken are given back |
| `ReadLimiter.ReadConcurrencyLimiter.Acquire` | precis_mcp/concurrency.py:82-108 | a call that no other interrupts is too busy exactly when a slot is lacking, and leaves every count as it was, new semaphores at their caps |
| `AddinSlots.GateIsFair` | excel-addin/src/mcp.ts:25-44 | after any calls as many are in flight as hold a slot, five at most, let in in the order they asked, and nobody waits while there is room |
| `AddinSlots.SlotGate.AcquireSlot` | excel-addin/src/mcp.ts:29-35 | the counter and the queue follow the first-come-first-served history |
| `AddinSlots.SlotGate.ReleaseSlot` | excel-addin/src/mcp.ts:37-44 | the slot passes to the first waiting call, or the counter goes down |
| `AddinSlots.SlotGate.FinishCall` | excel-addin/src/mcp.ts:76-114 | on every outcome the call leaves exactly once, and the result or error is that of the replies |
| `Prune.PruneBundles` | precis_mcp/backup/prune.py:45-113 | the loops over the destination delete exactly the specified objects, report them, and count exactly the deletes refused |
| `Prune.CollectDoomed` | precis_mcp/backup/prune.py:62-78 | the artifacts marked per run are those of rank `keep` or more, or too old, outside the protected run |
| `Prune.PruneOne` | precis_mcp/backup/prune.py:80-101 | one run's turn deletes its doomed artifacts as far as allowed, its manifest only when nothing of it remains, and counts each refusal |
| `Prune.ProtectedUntouched` | precis_mcp/backup/prune.py:62-101 | the protected run keeps its manifest and every artifact |
| `Prune.GoneManifestLeavesNothing` | precis_mcp/backup/prune.py:80-101 | a manifest that is gone has no artifact left, however many deletes were refused |
| `Prune.EmptiedManifestGoes` | precis_mcp/backup/prune.py:95-101 | a manifest that lost something and of which nothing is left goes, unless its delete is refused |
| `Prune.ManifestWithRestStays` | precis_mcp/backup/prune.py:91-101 | a manifest that loses nothing stays, and so does one of which something survives |
| `Prune.OnlyListedGo` | precis_mcp/backup/prune.py:55-101 | nothing goes but readable manifests and what they list |
| `Prune.NewestAreKept` | precis_mcp/backup/prune.py:62-78 | each store keeps its newest `keep` artifacts unless they started longer ago than the age bound; an unreadable time is never too long ago |
| `Prune.TooOldGoes` | precis_mcp/backup/prune.py:71-78 | an unprotected artifact that started longer ago than the age bound goes, unless its delete is refused |
| `Prune.OutrankedGoes` | precis_mcp/backup/prune.py:72-78 | an unprotected artifact with `keep` or more newer ones goes, unless its delete is refused |
| `Prune.LaterRanksLower` | precis_mcp/backup/prune.py:66-70 | newer means later in the text order of run ids |
| `Prune.AtMostOneOver` | precis_mcp/backup/prune.py:62-78 | when nothing is refused a store is left with at most one more than `keep` |
| `Prune.PruneIdempotent` | precis_mcp/backup/prune.py:45-113 | a second prune by the same clock changes nothing |
| `Prune.UnrefusedIsUnlocked` | precis_mcp/backup/prune.py:80-101 | with no refusal the outcome is that of a destination that refuses nothing |
| `Prune.Destination.Delete` | precis_mcp/backup/destination.py:79-83 | a delete removes the object, or is refused and changes nothing |

## Left out

- Parsing of formulas, YAML and models: formulas start as syntax trees and catalogues as built values.
- SQL text, ClickHouse, Postgres and Ibis: tables are sequences of rows, and a query is a function of a fixed snapshot.
- Rounding: values, tolerances and sums are real numbers.
- Error wording, logging, metrics and durations; an exception is an error value, and what a failed call leaves half written is not specified except where a contract says so.
- Formula text of computed scenarios: keys are taken to be Python identifiers, so that the text parses to the names it prints.
- Evaluator.Results.ComputeScenario: an evaluation error ends it with the cells written so far in place; the contract then says only that the formula fails somewhere and that other scenarios are untouched.
- Python's reading of signs, spaces, underscores and non-ASCII digits as numbers, and the trailing newline that `$` lets through: period texts hold ASCII digits.
- TimeShift.ShiftBackIffCanonical: stated for months of the years 0 to 9999; beyond them printed years have other widths, and quarter and year texts are cut wrongly.
- A dimension and a metric of one name: columns and values of a row are kept apart.
- Rollup.RollupDetailRows: requires distinct metrics, one detail row per key as the grouped query returns them, and, when subtotals are asked for, distinct dimensions; `Rollup.SubtotalsReadableIffDistinct` shows the last to be needed.
- Retrieval.RetrieveFederated: requires the same, and grains whose keys stay apart, which `Rollup.KeysApartIffGrainsApart` says of exactly which details.
- Engine.RunReport: requires that no formula names a derived metric called like a listed builtin; `Engine.PlansFollowNamesIffNoBuiltinRead` shows that plans follow formulas in no other catalogue.
- Values of other types than text in dimension columns, and the `str` of missing ones.
- The normal closing query's choice of the last period in a group, averages and distinct counts: only which grains come back, and under which keys, is modelled.
- Duplicate ids in a user's filter lists: filters are sets, as the filter resolver returns them.
- Filters.ResolvedIsExact: requires one leaf per filtered dimension, reached by links that agree on the column; with several the program takes the first.
- Scope.EnforceCrossScenarioScope: the hint about narrowing filters is not modelled, and scopes that permit the same facts by different sets count as disagreeing, as in the program.
- `union_read_member_sets`, `resolve_scope_leaf_sets` and the write scope: the same set algebra with other keys.
- `Ingestion`: waiting and polling for the lock is one step that grants or refuses; checks are an outcome there, and `Checks` says which. Rows extracted are taken to lie in the requested period, and the lock connection to die only with its holder.
- ReadLimiter.ReadConcurrencyLimiter.AcquireUser: the bounded wait is one immediate try; waits of any length are the interleavings of the state machine, where a call may time out at any moment of them.
- ReadLimiter.ReadConcurrencyLimiter.AcquireGlobal: the same.
- `ReadLimiter`: the fairness of asyncio semaphores and the internals of its timeouts.
- `QueryPlan`: the order of computed scenarios, whose dependencies are never computed, and the metric keys of a query, which are the plan's base keys.
- `resolve_statement`, cell locks, separators and layout of the response, scaling and display formats: they would add only easy members.
- Authentication, routes, admin tools, backup execution and restore, scheduling.
