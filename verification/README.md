# CPT/YAHSP temporal planner and its run distribution, modelled in Dafny

The planner takes a grounded temporal planning problem, builds a sequence of actions by
lookahead search (YAHSP) or by constraint programming (CPT), and turns it into a plan whose
actions overlap in time.  A master process shares out independent runs among workers.  This
project models the algorithms at the core of both and proves what they are meant to guarantee:

* **Plans keep their meaning.**  `Planning`, `Exchanges`, `PlanBuilding`, `SolutionPlans`: actions are applied one
  by one, each at the earliest start that an abbreviated scan over the ancestors finds, and the
  steps are then sorted by start, concatenated and compressed.  One theorem says which permutations
  of an executable sequence keep its meaning, another for exactly which actions sorting always does.
  `ActivitySchedule`, `StepSchedule`, `RescheduledPlans`: the same under delay constraints, by bound
  propagation, with the least schedule or none.
* **Costs, relaxed plans, lookahead.**  `CostFixpoint`, `CostEvaluation`, `MemoLimits`, `StaleCosts`,
  `Comparisons`, `RelaxedPlans`, `LookAhead`: the flag-driven fixpoint has one solution, the memo table
  agrees with it under whatever goals an entry is found again, and the picked actions form a plan for
  the problem without deletions.
* **Mutexes and reachability.**  `MutexRules`, `MutexTables`, `Reachability`: the greatest set of
  mutexes that the rules allow, invariant over all reachable states.
* **The constraint kernel.**  `Bytes`, `TrailLog`, `Trail` (the undo stack, byte by byte), `EventRings`,
  `EventQueues` (the circular queues with back pointers), `Buckets`, `EnumVariables` (domains in a
  bucket whose gaps are linked), `Search` (chronological backtracking on that stack), `Choices` (the
  four pairs of alternatives that are searched).
* **Precedences and scheduling filters.**  `Orders`, `Precedences`: an incremental transitive closure.
  `Packing`, `EdgeFinding`, `MutexSets`: bounds and precedences that lose no plan.
* **Runs.**  `Assignments`, `RunProtocol`: all interleavings of the messages of master and workers.
* **Durations.**  `Divisibility`, `Durations`: exact scaling of rational durations to integers.

`VectorSort` is the exchange sort that most of these use, `Counting` holds counting arguments,
`Basics` what several modules share.
Code that changes arrays or objects in place is modelled by classes and methods on arrays;
what the methods compute is described by functions on values, about which the lemmas are stated.
`dafny verify dfyconfig.toml` checks everything.

A contradiction, which the program raises by jumping out of the current computation, is a method
result (`ok == false`, or an `Effect`).  The bit sets `consumes`, `produces` and `deletes` of an action
are taken to be the sets of its `prec`, `add` and `del` lists; the code that fills them is not part of
this model.

## Findings

Where the code does not meet what one would expect of it, the model follows the code, a lemma
gives an input that shows it, and another states exactly when it is met.

* `cpt-yahsp/src/yahsp-common.cpp:606-630`, `654-680`.  Two actions without length, one supplying the
  other, may start at the same time.  The plan is then sorted by identifier and may put the consumer
  first (`SolutionPlans.ZeroLengthPlanBreaks`).  Non-durative actions have no length in domains with
  action costs (`cpt-yahsp/src/instantiation.cpp:311`).  Sorting and compression keep the meaning of
  all plans exactly if all pairs of actions without length that can run against the order of their
  identifiers can change places, a test on the two actions (`SolutionPlans.PlansKeepMeaningIff`,
  `SolutionPlans.CompressionsKeepMeaningIff`, `Exchanges.SwappableIff`).
* `cpt-yahsp/src/yahsp-common.cpp:437-466`.  Rescheduling under constraints keeps the meaning of all
  plans under exactly the same condition, as long as no delay is negative
  (`RescheduledPlans.ReschedulingKeepsMeaningIff`).  A negative one that makes up for the length of the
  supplier may put the consumer first (`RescheduledPlans.NegativeDelayBreaks`).
* `cpt-yahsp/src/yahsp-common.cpp:263-272`, `296`.  The comparison that sorts a relaxed plan is not
  transitive.  Actions of equal cost that delete each other's preconditions round a ring make the sort
  run forever (`RelaxedPlans.RingArises`), and nothing else does (`RelaxedPlans.SortStopsIff`).
* `cpt-yahsp/src/var.cpp:91-117`.  Adding a value to a variable that has been instantiated may bring
  discarded values back, because their slots are left as they were (`Buckets.ReopeningRevives`; exactly
  when in `Buckets.AddAfterInstantiate`).
* `cpt-yahsp/src/structs.h:149`, `cpt-yahsp/src/var.cpp:64-89`.  The loop over the values of a domain
  may go back to a former value when the current one is removed (`Buckets.LoopTurnsBack`; exactly when
  in `Buckets.LoopTurnsBackIff`).  It still ends and sees every value
  (`EnumVariables.EnumVariable.Filter`).
* `cpt-yahsp/src/yahsp-common.cpp:237-257`.  A memo hit and a recomputation give different action costs
  where a sum exceeds the infinite cost (`MemoLimits.HitDisagrees`), and only there
  (`CostEvaluation.HitAgreesWithMiss`).
* `dae/src/evaluation/yahsp_mo.h:78-116`, `cpt-yahsp/src/yahsp-dae.cpp:57-89`.  The strategy may change
  the objective from one individual to the next, but what is memorised stays.  A hit then gives the costs
  of the objective that was set when the state was memorised: for every problem those of the present one
  exactly if both charge and aggregate alike (`StaleCosts.EntriesStayTrueIff`).  Relaxed plans can still
  be ordered by the recalled costs exactly if these are not sums over costs that were maxima
  (`StaleCosts.EntriesStillSupplyIff`); otherwise the goal may sort ahead of its only supplier
  (`StaleCosts.StaleHitArises`).

One oddity is harmless: at `cpt-yahsp/src/yahsp-common.cpp:390` the test is on the window of the
destination where that of the source has changed.  On windows that were not empty before, this makes
no difference (`ActivitySchedule.Scheduler.OrderPlain`).

## Model

| member | source | states |
|---|---|---|
| VectorSort.SortPass | cpt-yahsp/src/cpt.h:125 | One round of the `while` makes exactly the exchanges of a pass, in place, and reports an exchange exactly when some later element had to come before an earlier one. |
| VectorSort.Sort | cpt-yahsp/src/cpt.h:125 | For a comparison without cycles on the elements, the in-place loop ends with an arrangement of them in which no later element comes before an earlier one. |
| VectorSort.StopsIffAcyclic | cpt-yahsp/src/cpt.h:125 | Exactly when the loop ends: some number of passes gives an ordered sequence if and only if the comparison has no cycle on its elements, whatever the arrangement it starts from. |
| VectorSort.PassProgress | cpt-yahsp/src/cpt.h:125 | Every pass over a sequence out of order strictly lowers a weighted sum of ranks, for any ranking that agrees with the comparison. |
| VectorSort.AcyclicHasRank | cpt-yahsp/src/cpt.h:125 | A comparison without cycles has such a ranking. |
| VectorSort.OrderedHasNoCycle | cpt-yahsp/src/cpt.h:125 | An ordered arrangement leaves no cycle: the necessity half of the stopping condition. |
| VectorSort.TransitiveIsAcyclic | cpt-yahsp/src/cpt.h:125 | An irreflexive transitive comparison has no cycle, so its sort always ends. |
| VectorSort.PassesArrange | cpt-yahsp/src/cpt.h:125 | Any number of passes leaves an arrangement of the original elements: nothing is lost or doubled. |
| Planning.ExecuteOneMore | cpt-yahsp/src/yahsp-common.cpp:299-303 | Appending an action: the state is that of the prefix with the action applied, and the longer sequence executes exactly when the prefix does and the action is applicable after it. |
| Planning.SourceHolds | cpt-yahsp/src/yahsp-common.cpp:299-312 | A fluent holds after a sequence if it held at the start or some step added it, and no later step deletes it for good. |
| Planning.HasSource | cpt-yahsp/src/yahsp-common.cpp:299-312 | Conversely, every fluent that holds has such a source, and it can be taken to be the last one. |
| Planning.ReorderingKeepsMeaning | cpt-yahsp/src/yahsp-common.cpp:305-320 | Any permutation of an executable sequence that keeps the order of threatening pairs, and of last suppliers with their consumers, is executable and ends in the same state. |
| Exchanges.SwappableIff | cpt-yahsp/src/yahsp-common.cpp:299-312 | A test on two actions that is exact: wherever they can run in one order they can run in the other, to the same state, if and only if the second needs nothing only the first adds, destroys nothing the first needs or adds, and the first destroys nothing the second adds. |
| Exchanges.UnswappableShows | cpt-yahsp/src/yahsp-common.cpp:299-312 | If the test fails for two actions that can run in a row, a state in which the other order fails or ends elsewhere. |
| Exchanges.UnrelatedCommute | cpt-yahsp/src/yahsp-common.cpp:305-312 | Actions neither of which must precede the other pass the test. |
| Exchanges.MoveToFront | cpt-yahsp/src/yahsp-common.cpp:299-312 | In an executable sequence an action that commutes with all before it can run first, to the same final state. |
| PlanBuilding.ScanSteps | cpt-yahsp/src/yahsp-common.cpp:497-503 | The backward scan over the steps of one node, with its `continue` and its early exit, computes the latest end of the steps that must precede the action; when it exits early, nothing below can raise it. |
| PlanBuilding.Node.Root | cpt-yahsp/src/yahsp-common.cpp:138-144 | A root node is reached from its state by no action. |
| PlanBuilding.Node.Derive | cpt-yahsp/src/yahsp-common.cpp:157-170 | A derived node continues the history of its parent, with the same state and makespan and no step of its own. |
| PlanBuilding.Node.EarliestStart | cpt-yahsp/src/yahsp-common.cpp:494-507 | The scan over the chain of ancestors, cut short by the makespans, gives the least start after the ends of all steps of the history that must precede the action: no such step ends later, and one ends then unless the start is 0. |
| PlanBuilding.Node.ApplyEffects | cpt-yahsp/src/yahsp-common.cpp:488-489 | Deleting and then adding fluent by fluent gives the successor state. |
| PlanBuilding.Node.ApplyAction | cpt-yahsp/src/yahsp-common.cpp:486-517 | The whole new node: successor state, one more step, length and cost in step with the history; in sequential mode the start of the step is its position, else the least start after the ends of those that must precede it, and the makespan grows just to its end. |
| PlanBuilding.GreedyExtension | cpt-yahsp/src/yahsp-common.cpp:486-517 | Appending an applicable action at its greedy start keeps the history executable and greedy. |
| PlanBuilding.LatestEndAttained | cpt-yahsp/src/yahsp-common.cpp:494-507 | The start that histories are described with is 0 or the end of a step that must precede the action, and no such step ends later. |
| PlanBuilding.MakespanAttained | cpt-yahsp/src/yahsp-common.cpp:507 | The makespan is 0 or the end of some step. |
| PlanBuilding.StartsAtOnce | cpt-yahsp/src/yahsp-common.cpp:494-507 | An action that shares no fluent with the steps so far but by needing it, and is not exclusive with them, starts at once. |
| PlanBuilding.ExclusiveApart | cpt-yahsp/src/yahsp-common.cpp:305-320 | Actions that are permanently exclusive are kept apart by their start times. |
| SolutionPlans.PlanOrderIsAcyclic | cpt-yahsp/src/yahsp-common.cpp:606-612 | The comparison by start, duration and identifier has no cycle, so the sort of a plan always ends. |
| SolutionPlans.GreedyIsSpaced | cpt-yahsp/src/yahsp-common.cpp:494-514 | Greedy starts put every step after the end of each earlier step that must precede it. |
| SolutionPlans.OverlappingStepsAreIndependent | cpt-yahsp/src/yahsp-common.cpp:305-320 | Steps of such a plan that overlap in time neither exclude, threaten nor supply each other. |
| SolutionPlans.SpacedSortsAheadIff | cpt-yahsp/src/yahsp-common.cpp:606-612 | In a spaced plan every step that must precede another sorts ahead of it if and only if no two such steps are tied: without length, started together, and with their identifiers the wrong way round. |
| SolutionPlans.SortedStepsKeepMeaning | cpt-yahsp/src/yahsp-common.cpp:606-630 | Every sorted arrangement of steps whose threats and last suppliers sort in order executes and ends in the same state as the order of application. |
| SolutionPlans.PlanKeepsMeaning | cpt-yahsp/src/yahsp-common.cpp:486-517 | Whatever was applied to reach a node, the plan sorted by start times executes from the initial state and ends in the state of the node, if tied steps commute; in sequential mode always. |
| SolutionPlans.FreeStepsKeepMeaning | cpt-yahsp/src/cpt.h:125 | Steps that commute whenever the sort may turn them round keep their meaning in every sorted arrangement, by exchanging neighbours. |
| SolutionPlans.PlansKeepMeaningIff | cpt-yahsp/src/yahsp-common.cpp:606-630 | Exactly when sorting keeps the meaning of plans: over a set of actions, every executable greedy history from every state sorts to a plan with the same meaning if and only if every two actions without length that can run against the order of their identifiers pass the test for changing places. |
| SolutionPlans.UnswappablePlan | cpt-yahsp/src/yahsp-common.cpp:606-630 | For a pair that fails the test: a state and a history of two steps whose sorted plan has another meaning, or none. |
| SolutionPlans.PositiveLengthsAreUntied | cpt-yahsp/src/yahsp-common.cpp:606-612 | Actions of positive length are never tied, so their plans always keep their meaning. |
| SolutionPlans.TiedStepsAreSwapped | cpt-yahsp/src/yahsp-common.cpp:606-612 | Every sort swaps every tied pair with distinct identifiers. |
| SolutionPlans.ZeroLengthPlanBreaks | cpt-yahsp/src/yahsp-common.cpp:606-630 | A concrete input: two actions without length, applied supplier first by the planner, whose sorted plan cannot be executed. |
| SolutionPlans.CollectSteps | cpt-yahsp/src/yahsp-common.cpp:617-629 | The steps collected backwards over the chain of nodes are exactly the history, in order. |
| SolutionPlans.CreateSolutionPlan | cpt-yahsp/src/yahsp-common.cpp:614-630 | The sorted plan is an ordered arrangement of exactly the history, with the makespan of the node. |
| SolutionPlans.CompressedStart | cpt-yahsp/src/yahsp-common.cpp:668-674 | The scan with its early exit gives the latest end among the steps that must precede the new one (itself included), or 0. |
| SolutionPlans.AppendCompressed | cpt-yahsp/src/yahsp-common.cpp:661-677 | One more step keeps all steps spaced, ended by their duration, and within the makespan, which grows just to its end.  It starts at once, or with the end of an earlier step that must precede it, or, if it must precede itself, with the end that it carries. |
| SolutionPlans.CompressPlans | cpt-yahsp/src/yahsp-common.cpp:654-680 | The concatenated plans, retimed and sorted: the same actions in the same order before the sort, spaced as they must be, no step later than it has to, some step ending with the plan; then an ordered arrangement of them. |
| SolutionPlans.CompressionKeepsMeaning | cpt-yahsp/src/yahsp-common.cpp:654-680 | A compressed plan executes and ends in the same state as the plans laid end to end, if tied steps commute. |
| SolutionPlans.CompressionsKeepMeaningIff | cpt-yahsp/src/yahsp-common.cpp:654-680 | Compression keeps the meaning of all plans over a set of actions under exactly the same condition as sorting does. |
| ActivitySchedule.SettledRespects | cpt-yahsp/src/yahsp-common.cpp:382-391 | When neither direction of an edge can tighten anything, the earliest starts respect the edge. |
| ActivitySchedule.NoEarlier | cpt-yahsp/src/yahsp-common.cpp:354-394 | If the windows contain every schedule, the bounds that an edge implies hold in every schedule too. |
| ActivitySchedule.Scheduler.OrderPlain | cpt-yahsp/src/yahsp-common.cpp:382-391 | The unconstrained branch of `order`, with its test of the destination instead of the source at line 390: it cuts off no schedule, flags every changed vertex, keeps earliest before latest on success, and fails only on an empty window. |
| ActivitySchedule.Scheduler.OrderForward | cpt-yahsp/src/propagations.cpp:390-393 | The window of the destination from that of the source and the delay, with the same guarantees. |
| ActivitySchedule.Scheduler.OrderBackward | cpt-yahsp/src/propagations.cpp:421-424 | The window of the source from that of the destination and the delay, with the same guarantees. |
| ActivitySchedule.Scheduler.Order | cpt-yahsp/src/yahsp-common.cpp:354-394 | The whole of `order`: no schedule is cut off, and the edge is settled or one of its ends is flagged again. |
| ActivitySchedule.Scheduler.VisitVertex | cpt-yahsp/src/yahsp-common.cpp:443-448 | Clearing the flag of one vertex and tightening its edges leaves every edge settled or flagged. |
| ActivitySchedule.Scheduler.Round | cpt-yahsp/src/yahsp-common.cpp:440-450 | One round over all vertices: it tightens some window, or leaves no flag. |
| ActivitySchedule.Scheduler.Propagate | cpt-yahsp/src/yahsp-common.cpp:440-456 | The rounds end; on success the earliest starts form a schedule, on failure there is none. |
| ActivitySchedule.ScheduleGraph | cpt-yahsp/src/yahsp-common.cpp:402-411 | Over the whole graph: a schedule that is pointwise the least of all schedules within the horizon, or the proof that there is none. |
| StepSchedule.LinkSupplier | cpt-yahsp/src/yahsp-common.cpp:422-429 | The last earlier step that adds a precondition gets an edge, with the constraint of that supplier; no other edge is added. |
| StepSchedule.LinkMutexes | cpt-yahsp/src/yahsp-common.cpp:430-434 | Every earlier step that a step excludes gets an edge; every edge added is one of these. |
| StepSchedule.BuildEdges | cpt-yahsp/src/yahsp-common.cpp:421-435 | The graph has exactly the edges of last suppliers and of mutual exclusions, all pointing forward. |
| StepSchedule.ScheduleSteps | cpt-yahsp/src/yahsp-common.cpp:396-459 | The steps of a node between start and end action get the least schedule of that graph, so the least possible makespan, or there is no schedule; every consumer starts within both delays after the end of its last supplier, and exclusive steps do not overlap. |
| StepSchedule.ScheduleIff | cpt-yahsp/src/yahsp-common.cpp:354-394 | The schedules of the graph without the graph: start times within the horizon that keep every consumer within the delays after its last supplier and exclusive steps apart. |
| StepSchedule.ScheduledStartsInOrder | cpt-yahsp/src/yahsp-common.cpp:437-466 | In any schedule of the graph, steps that threaten each other, and last suppliers with their consumers, sort in the order they were applied if and only if they are not tied the wrong way round; no constraint may let a consumer start before its supplier. |
| StepSchedule.RescheduledStepsKeepMeaning | cpt-yahsp/src/yahsp-common.cpp:396-466 | The steps, sorted by their new starts, still execute and end in the same state, unless such steps are tied the wrong way round; also with negative delays that do not exceed the length of the supplier. |
| RescheduledPlans.StagedKeepsMeaning | cpt-yahsp/src/yahsp-common.cpp:396-466 | Arranged by start, duration and identifier, but those without length in the order of application, steps whose links end first keep their meaning: only steps without length that start together are left to be exchanged. |
| RescheduledPlans.SpacedLinksKeepMeaning | cpt-yahsp/src/yahsp-common.cpp:606-630 | Steps whose last suppliers and threats end before their partners start keep their meaning in every sorted arrangement, if those without length that start together the wrong way round commute; steps that are not linked need not. |
| RescheduledPlans.ScheduledPlanKeepsMeaning | cpt-yahsp/src/yahsp-common.cpp:396-466 | With delays that are not negative, the sorted steps of the least schedule execute and end in the same state, if steps without length that start together the wrong way round commute. |
| RescheduledPlans.PositiveStepsKeepMeaning | cpt-yahsp/src/yahsp-common.cpp:396-466 | With positive durations and delays that are not negative, without any condition. |
| RescheduledPlans.ReschedulingKeepsMeaningIff | cpt-yahsp/src/yahsp-common.cpp:396-466 | Exactly when: over a set of actions, every executable sequence from every state under all delays that are not negative is rescheduled and sorted to the same meaning if and only if every two actions without length that can run against the order of their identifiers pass the test for changing places. |
| RescheduledPlans.UnswappableSchedule | cpt-yahsp/src/yahsp-common.cpp:396-466 | A pair that fails the test makes some rescheduled plan lose its meaning. |
| RescheduledPlans.NegativeDelayBreaks | cpt-yahsp/src/yahsp-common.cpp:437-466 | A concrete input: a negative delay, both durations positive, whose least schedule sorts to a plan that cannot be executed. |
| CostFixpoint.CostZeroIff | cpt-yahsp/src/yahsp-common.cpp:53-62 | A cost is 0 exactly when every precondition costs nothing, by maximum and by sum alike. |
| CostFixpoint.SolutionUnique | cpt-yahsp/src/yahsp-common.cpp:203-231 | The cost equations have at most one solution, whatever order they are solved in. |
| CostFixpoint.SettledIsSolution | cpt-yahsp/src/yahsp-common.cpp:215-230 | With no action flagged, the arrays solve the equations. |
| CostFixpoint.VisitUnimproved | cpt-yahsp/src/yahsp-common.cpp:218-221 | Visiting an action whose cost does not improve keeps the invariant of the loop and drops its flag. |
| CostFixpoint.VisitImproved | cpt-yahsp/src/yahsp-common.cpp:221-227 | Visiting an action whose cost improves lowers its effects, flags their consumers, and keeps the invariant. |
| CostFixpoint.ApplicableFromExact | cpt-yahsp/src/yahsp-common.cpp:224 | The list of applicable actions holds exactly those applicable in the state, each once, in index order. |
| CostEvaluation.InitiallyConsistent | cpt-yahsp/src/yahsp-common.cpp:248-255 | The arrays as they are initialised satisfy the invariant, with every applicable action flagged. |
| CostEvaluation.VisitKeeps | cpt-yahsp/src/yahsp-common.cpp:217-229 | A visit keeps the invariant and extends the list of applicable actions exactly when a new action is applicable. |
| CostEvaluation.Evaluation.ActionCost | cpt-yahsp/src/yahsp-common.cpp:53-62 | The macro, with its exit at the first unreached precondition, computes the maximum or the sum. |
| CostEvaluation.Evaluation.UpdateCost | cpt-yahsp/src/yahsp-common.cpp:203-208 | Lowers one cost where that improves it, and then flags exactly the consumers besides what was flagged. |
| CostEvaluation.Evaluation.Visit | cpt-yahsp/src/yahsp-common.cpp:218-228 | One turn of the loop on the arrays, and whether it improved anything. |
| CostEvaluation.Evaluation.H1Pass | cpt-yahsp/src/yahsp-common.cpp:216-229 | A pass that improves something lowers the sum of all costs; one that does not leaves no flag. |
| CostEvaluation.Evaluation.ComputeH1Cost | cpt-yahsp/src/yahsp-common.cpp:210-231 | The flag-driven loop ends with the unique solution of the equations, the costs of all actions, and the exact list of applicable actions. |
| CostEvaluation.Evaluation.InitialiseArrays | cpt-yahsp/src/yahsp-common.cpp:248-255 | Sets up the arrays so that the loop can start. |
| CostEvaluation.Evaluation.RecallActions | cpt-yahsp/src/yahsp-common.cpp:239-244 | On a memo hit the action costs and the list of applicable actions are recomputed from the fluent costs. |
| CostEvaluation.Evaluation.ComputeH1 | cpt-yahsp/src/yahsp-common.cpp:233-261 | By hit or by miss, the arrays of actions are those of the state, for the present goals and objective, given the costs of the fluents; these solve the equations of the objective under which the state was memorised, on a miss the present one.  A hit occurs exactly for a memorised key and state, and a miss memorises the costs. |
| CostEvaluation.SolutionIgnoresGoals | cpt-yahsp/src/yahsp-common.cpp:210-231 | The costs of the fluents solve the equations of a problem if and only if they do so with any other goals. |
| CostEvaluation.HitAgreesWithMiss | cpt-yahsp/src/yahsp-dae.cpp:57-89 | An entry memorised under some goals and found again under any others agrees with recomputation: same fluent costs and goal cost; if the new goals are reachable also the same applicable actions in the same order as before and as recomputed, and the same action costs exactly where they do not exceed the infinite cost, which a maximum never does. |
| MemoLimits.HitDisagrees | cpt-yahsp/src/yahsp-common.cpp:237-257 | A problem and a state with reachable goal on which a hit and a miss give an action different costs, its sum of two costs exceeding the infinite one. |
| StaleCosts.EntriesStayTrueIff | cpt-yahsp/src/yahsp-dae.cpp:57-89 | For all problems and states the memorised costs are those of the present objective if and only if both objectives charge every action the same and aggregate preconditions the same way. |
| StaleCosts.EntriesStillSupplyIff | cpt-yahsp/src/yahsp-common.cpp:237-246 | For all problems and states with a reachable goal the recalled action costs still exceed no precondition and lie below the costs of added fluents, which the order of relaxed plans rests on, if and only if they are not sums over costs memorised as maxima. |
| StaleCosts.StaleOrderBreaks | cpt-yahsp/src/yahsp-common.cpp:263-272 | In a problem where they are, no order by recalled costs that holds the goal is a plan without deletions. |
| StaleCosts.StaleHitArises | dae/src/evaluation/yahsp_mo.h:78-116 | As it arises: one state evaluated under one strategy, then found again under another, with a reachable goal. |
| Comparisons.BestProducer | cpt-yahsp/src/yahsp-common.cpp:192-201 | The scan of the producers ends with a usable one that no usable one beats, the first of them unless ties are settled at random, or there is none. |
| Comparisons.BestMeans | cpt-yahsp/src/yahsp-common.cpp:192-201 | Among usable producers of a fluent none costs less than a best one, and of those that cost the same none lasts less, or is charged less, as the objective has it. |
| Comparisons.FirstMeans | cpt-yahsp/src/yahsp-common.cpp:192-201 | The first best one is strictly better than every usable producer ahead of it. |
| RelaxedPlans.EvaluatedIsSupplied | cpt-yahsp/src/yahsp-common.cpp:233-261 | After an evaluation that reaches the goal, preconditions cost no more than their action, and every reachable fluent outside the state has a producer that costs less than it. |
| RelaxedPlans.BestIsCheaper | cpt-yahsp/src/yahsp-common.cpp:284-288 | The producer that is picked for a fluent costs less than the fluent. |
| RelaxedPlans.PicksFit | cpt-yahsp/src/yahsp-common.cpp:275-291 | The picks never overflow the array: they are fewer than the actions. |
| RelaxedPlans.PickedOneMore | cpt-yahsp/src/yahsp-common.cpp:283-292 | Marking one fluent and picking its producer unless it was picked before keeps the picks distinct and the marks supplied. |
| RelaxedPlans.OpenPrecondition | cpt-yahsp/src/yahsp-common.cpp:281-293 | One turn of the inner loop marks its precondition and only extends the picks, by the producer chosen for it. |
| RelaxedPlans.CollectRelaxedPlan | cpt-yahsp/src/yahsp-common.cpp:276-295 | The growing list is processed to its end: every precondition of every pick is marked and supplied, within the size of the array, and nothing is picked but the goal and the producer chosen for a precondition of an earlier pick. |
| RelaxedPlans.OrderedPicksExecute | cpt-yahsp/src/yahsp-common.cpp:274-297 | Any arrangement of the picks in order of cost is a plan without deletions: each precondition is in the state or added earlier, no action occurs twice, the goal is in it. |
| RelaxedPlans.SortStopsIff | cpt-yahsp/src/yahsp-common.cpp:263-272 | Exactly when the sort of a relaxed plan ends: no picks of equal cost delete each other's preconditions round a ring. |
| RelaxedPlans.CircularThreatsNeverSort | cpt-yahsp/src/yahsp-common.cpp:263-296 | Three picks of equal cost that threaten each other in a circle make the sort run forever. |
| RelaxedPlans.RingNeverSorts | cpt-yahsp/src/yahsp-common.cpp:274-297 | A problem and a state for which whatever is evaluated and picked holds such a circle: its three actions cost the same and are all picked, so the sort never ends. |
| RelaxedPlans.RingArises | cpt-yahsp/src/yahsp-common.cpp:233-297 | The same as it comes about: evaluating that state and extracting its relaxed plan yields picks that are never sorted. |
| RelaxedPlans.SortPicks | cpt-yahsp/src/yahsp-common.cpp:296 | Picks without a ring are sorted in place: the loop ends with an ordered arrangement of them. |
| RelaxedPlans.SortedPicksExecute | cpt-yahsp/src/yahsp-common.cpp:296 | Picks collected for some way to settle ties, once sorted, are a plan without deletions that holds the goal and repeats no action. |
| RelaxedPlans.ComputeRelaxedPlan | cpt-yahsp/src/yahsp-common.cpp:274-297 | Unless some way to settle the ties between best producers collects picks with a ring among them, the sorted array is a plan without deletions for every state whose goal is reachable; of picks of equal cost one whose precondition another deletes comes before it, unless it does the same to that one. |
| LookAhead.GoalIsNotPending | cpt-yahsp/src/yahsp-common.cpp:535-536 | With the goal among its entries, a relaxed plan has fewer applicable entries than entries. |
| LookAhead.RepairPair | cpt-yahsp/src/yahsp-common.cpp:580-597 | The scan of the effects of an entry finds a repair for another one, a best producer for its fluent, or there is none. |
| LookAhead.FindRepair | cpt-yahsp/src/yahsp-common.cpp:576-601 | The nested scan finds the first pair of pending entries that can be repaired and a repair of it, or no pair can. |
| LookAhead.FirstReady | cpt-yahsp/src/yahsp-common.cpp:535-536 | The first entry that can be applied, or none can. |
| LookAhead.LookAheadRound | cpt-yahsp/src/yahsp-common.cpp:534-601 | One round: the first entry that can be applied is, and is used up; failing that the first pair that can be repaired is; failing that nothing changes.  The fuel falls unless the lookahead is done. |
| LookAhead.ApplyRelaxedPlan | cpt-yahsp/src/yahsp-common.cpp:527-604 | From a node, the restarts end with an executable greedy history, within the bound on the makespan or given up for exceeding it, and with no entry left that can be applied or repaired.  The new steps are, one by one, distinct entries of the relaxed plan or substitutes that provide a fluent of the entry that another entry needs; these entries are used up and the others left as they were. |
| LookAhead.ReplacedStands | cpt-yahsp/src/yahsp-common.cpp:576-601 | A repaired entry is an original one, never a repair itself, and is the only one that can be applied next. |
| LookAhead.EmittedOneMore | cpt-yahsp/src/yahsp-common.cpp:534-543 | An applied entry was not used before, and its action is that of the original entry or a substitute for it. |
| MutexRules.StepAllowed | cpt-yahsp/src/max_atom.cpp:413-440 | If mutexes respect the rules, an action applicable in a state without mutex pairs is not excluded, and its successor state has no mutex pair. |
| MutexRules.ReachableStatesAllowed | cpt-yahsp/src/max_atom.cpp:381-440 | No state reached by any sequence of actions holds a mutex pair. |
| MutexRules.DoneStays | cpt-yahsp/src/max_atom.cpp:372-379 | An unflagged action stays done while other pairs are cleared. |
| MutexRules.AllDoneIsClosed | cpt-yahsp/src/max_atom.cpp:417-439 | When no action is flagged the remaining mutexes respect all rules. |
| MutexRules.RemovalKeepsRespected | cpt-yahsp/src/max_atom.cpp:425-432 | A pair that is cleared is in no set of mutexes that respects the rules. |
| MutexRules.ClosedIff | cpt-yahsp/src/max_atom.cpp:428-435 | The rules in terms of pairs, preconditions, additions and deletions only: mutexes respect them if and only if nothing allows a pair that is mutex. |
| MutexRules.LostPairsAreAllowed | cpt-yahsp/src/max_atom.cpp:395-435 | A pair that the largest such set leaves out is initial, or allowed by an action. |
| MutexTables.MutexTable.UpdatePair | cpt-yahsp/src/max_atom.cpp:372-379 | Clears one pair and flags the consumers of both fluents, and only those. |
| MutexTables.MutexTable.ClearPairs | cpt-yahsp/src/max_atom.cpp:425 | Clears exactly the pairs of two lists. |
| MutexTables.MutexTable.TreatFluents | cpt-yahsp/src/max_atom.cpp:428-435 | The second half of a visit clears the pairs of each surviving fluent with each effect. |
| MutexTables.MutexTable.Visit | cpt-yahsp/src/max_atom.cpp:420-437 | A visit keeps all that was concluded, and changes no flag but its own if it clears nothing. |
| MutexTables.MutexTable.Pass | cpt-yahsp/src/max_atom.cpp:418-438 | A pass that clears nothing leaves no flag. |
| MutexTables.MutexTable.InitialiseBits | cpt-yahsp/src/max_atom.cpp:386-393 | All pairs are mutex, and exactly the actions without preconditions, but for the start, are flagged. |
| MutexTables.MutexTable.ComputeMutexes | cpt-yahsp/src/max_atom.cpp:381-440 | What is left is the largest set of mutexes that respects the rules; a pair is mutex exactly if it is not initial and no action, no two preconditions of which are mutex, adds one of the two and adds the other or leaves it in place without having a precondition mutex with it; an action is reached exactly if no two of its preconditions are mutex. |
| MutexTables.InitialPairsRespected | cpt-yahsp/src/max_atom.cpp:395-397 | Clearing the pairs of initial fluents clears no mutex that respects the rules. |
| MutexTables.MutexesAreInvariant | cpt-yahsp/src/max_atom.cpp:401-409 | Two fluents still mutex never hold together in a reachable state, and an action left at infinite cost is never applicable in one. |
| Reachability.LowerKeeps | cpt-yahsp/src/max_atom.cpp:134-137 | Lowering the counter of a consumer keeps it equal to the number of its missing preconditions; it reaches 0 only when none is missing. |
| Reachability.AllReached | cpt-yahsp/src/max_atom.cpp:128-151 | When the recursion has ended, the marked fluents are the least set closed under all actions, and exactly the actions whose preconditions are marked are reached. |
| Reachability.Reacher.Reach | cpt-yahsp/src/max_atom.cpp:128-142 | The recursion ends, and leaves every new fluent told to all its consumers and every new action with its effects marked. |
| Reachability.Reacher.ComputeReachable | cpt-yahsp/src/max_atom.cpp:144-151 | The whole computation: the least closed set of fluents, and exactly its actions. |
| Reachability.MarkedIff | cpt-yahsp/src/max_atom.cpp:128-151 | A fluent is marked if and only if a plan without deletions adds it: a sequence of actions each of which has its preconditions added by earlier ones. |
| Reachability.StatesWithin | cpt-yahsp/src/max_atom.cpp:144-151 | Every state of every executable sequence lies within a closed set of fluents. |
| Reachability.UnreachedNeverApplies | cpt-yahsp/src/max_atom.cpp:144-151 | An action that is not reached is never applicable, whatever is executed. |
| Orders.ClosureIsStrict | cpt-yahsp/src/propagations.cpp:291-331 | Adding a pair that closes no cycle, with all it implies, keeps a strict order. |
| Orders.ClosureIsLeast | cpt-yahsp/src/propagations.cpp:291-331 | The closure lies within every transitive relation with the order and the pair. |
| Orders.GrownIsTransitive | cpt-yahsp/src/propagations.cpp:314-327 | A transitive relation grown by pairs whose chains are all shortcut is transitive. |
| Orders.StrictIsAsymmetric | cpt-yahsp/src/propagations.cpp:297 | A strict order never orders two actions both ways. |
| Precedences.Store.UpdateInf | cpt-yahsp/src/var.cpp:119-125 | Raises a lower bound, or fails exactly on an empty window. |
| Precedences.Store.UpdateSup | cpt-yahsp/src/var.cpp:127-133 | Lowers an upper bound, or fails exactly on an empty window. |
| Precedences.Store.SeparateBounds | cpt-yahsp/src/propagations.cpp:251-260 | The bounds of two ordered actions are moved apart without losing a plan that orders them so. |
| Precedences.Store.OrderBefore | cpt-yahsp/src/propagations.cpp:251-264 | Bounds first, then precedences: no plan with the pair is lost, and the two bounds are apart. |
| Precedences.Store.MakePrecede | cpt-yahsp/src/propagations.cpp:291-331 | The mutual recursion ends; it only adds pairs within any strict order that holds the new pair, all of them with their chains shortcut, loses no plan with the pair, and fails on the reverse pair. |
| Precedences.Store.AddPrecedence | cpt-yahsp/src/propagations.cpp:291-331 | A call on a strict order leaves exactly its closure with the new pair, strict again, with the bounds of every implied pair tightened; the reverse pair is a failure, and a failure means that no plan has the pair. |
| Precedences.CycleAllowsNoPlan | cpt-yahsp/src/propagations.cpp:297-303 | No plan orders two actions against a precedence that already holds. |
| Precedences.KeepsTwice | cpt-yahsp/src/propagations.cpp:314-327 | Two successive steps lose no plan if the pair of the second follows from the first. |
| Packing.FitsBetween | cpt-yahsp/src/scheduling.cpp:180-183 | Actions that exclude each other and lie within a window have a total duration that fits into it. |
| Packing.NotFirst | cpt-yahsp/src/scheduling.cpp:186 | An action that would overrun the window by coming first starts after one of the others ends. |
| Packing.NotLast | cpt-yahsp/src/scheduling.cpp:187 | An action that would start too early by coming last ends before one of the others starts. |
| Packing.EndsTooLate | cpt-yahsp/src/scheduling.cpp:195 | An action that ends after the others can start comes after all of them. |
| Packing.StartsTooEarly | cpt-yahsp/src/scheduling.cpp:206 | An action that starts before the others can end comes before all of them. |
| Packing.NoRoomBetween | cpt-yahsp/src/scheduling.cpp:200-213 | Without room inside the window, an outside action comes before all of them or after all of them. |
| EdgeFinding.MemberNotFirst | cpt-yahsp/src/scheduling.cpp:186 | The rule for a member that may not be first holds in every plan the filter must keep. |
| EdgeFinding.MemberNotLast | cpt-yahsp/src/scheduling.cpp:187 | The rule for a member that may not be last, likewise. |
| EdgeFinding.MustFollow | cpt-yahsp/src/scheduling.cpp:195-203 | An outside action that must follow: all precedences and the new bound hold in every such plan. |
| EdgeFinding.MustPrecede | cpt-yahsp/src/scheduling.cpp:206-214 | An outside action that must precede, likewise. |
| EdgeFinding.OutsiderNotFirst | cpt-yahsp/src/scheduling.cpp:204 | The weaker bound for an outside action that may not be first. |
| EdgeFinding.OutsiderNotLast | cpt-yahsp/src/scheduling.cpp:215 | The weaker bound for an outside action that may not be last. |
| EdgeFinding.SpanBounds | cpt-yahsp/src/scheduling.cpp:182-183 | The bound of the end action holds in every plan, and the contradiction means there is none. |
| EdgeFinding.Collect | cpt-yahsp/src/scheduling.cpp:140-177 | The accumulators are exactly the window and total duration of the two spanning actions with the members, and every other user is either a member within the window or among the rest. |
| EdgeFinding.FilterMember | cpt-yahsp/src/scheduling.cpp:185-188 | One member filtered: both rules applied, no plan lost. |
| EdgeFinding.FilterForward | cpt-yahsp/src/scheduling.cpp:194-205 | The two delaying rules for one outside action: their precedences and bounds are in place, no plan lost. |
| EdgeFinding.FilterBackward | cpt-yahsp/src/scheduling.cpp:206-216 | The two advancing rules, likewise. |
| EdgeFinding.TaskInterval | cpt-yahsp/src/scheduling.cpp:136-230 | For one pair: every rule has been applied to every member and every outside action, no plan that meets the bounds and keeps the users apart is lost, and a contradiction means there is no such plan. |
| EdgeFinding.FilteredMeans | cpt-yahsp/src/scheduling.cpp:182-230 | What is filtered, rule by rule: members that can be neither first nor last, and users outside that must wait for the members, or go ahead of them. |
| EdgeFinding.TaskIntervals | cpt-yahsp/src/scheduling.cpp:128-132 | The filter for all pairs of users of one fluent: none is left out, what was found for each holds in the end, and under the bounds at entry any two users fit one after the other into their common window, with the end of the plan after both.  It loses no plan and refuses only if there is none. |
| EdgeFinding.AllTaskIntervals | cpt-yahsp/src/scheduling.cpp:125-134 | The same for all fluents, one after the other. |
| MutexSets.MarginBetween | cpt-yahsp/src/scheduling.cpp:37-40 | In every feasible plan two actions of the set are at least the margin of the first apart. |
| MutexSets.SpanOf | cpt-yahsp/src/scheduling.cpp:103-114 | By induction on the set: one after the other, the actions need all durations and all margins but the last one. |
| MutexSets.MarginIsLeast | cpt-yahsp/src/scheduling.cpp:37-40 | The margin of an action is the least time to another one of the set, whichever of the two is first unless that is known, capped; an action alone has none. |
| MutexSets.SummaryDescribes | cpt-yahsp/src/scheduling.cpp:103-114 | The summary of a set bounds windows, distances and margins, each bound is attained by an action or is the value the search for it starts from, and the span is the sum of durations and margins. |
| MutexSets.BoundHolds | cpt-yahsp/src/scheduling.cpp:115-116 | The makespan bound holds in every plan that keeps the actions of the set apart, and so does the room that the contradiction test asks for. |
| MutexSets.MarginOf | cpt-yahsp/src/scheduling.cpp:40 | The loop computes the least time between an action and the others, or 0 in a set of one. |
| MutexSets.MakespanMutexSet | cpt-yahsp/src/scheduling.cpp:103-117 | Raises the start of the end action exactly to the bound, earliest start plus span less the largest margin plus the least distance to the end, and refuses the set exactly if that empties the window or the latest end leaves no room.  No plan that keeps the set apart is lost. |
| MutexSets.AddMutexSet | cpt-yahsp/src/scheduling.cpp:78-87 | Adds an action exactly when it is a real one that excludes the whole set. |
| MutexSets.CliqueOf | cpt-yahsp/src/scheduling.cpp:93-97 | The set grown from one action: distinct actions that exclude each other, to which no other active action can be added. |
| MutexSets.SummarySame | cpt-yahsp/src/scheduling.cpp:103-114 | The summary of a set depends only on the bounds of its members and the precedences. |
| MutexSets.GlobalMutexSets | cpt-yahsp/src/scheduling.cpp:89-101 | All sets: no plan is lost, only the start of the end action is raised, to the bound of every set tried as seen from the initial bounds; every active action is in a set, or there is one set when plans are sequential. |
| Bytes.NumberOfLow | cpt-yahsp/src/var.h:119-120 | Numbers survive being stored as bytes: reading back the low bytes gives the number. |
| Bytes.LowOfNumber | cpt-yahsp/src/var.h:119-120 | And the other way round. |
| TrailLog.UnwindSplit | cpt-yahsp/src/var.h:136-145 | Undoing in two stages is undoing at once. |
| TrailLog.UnwindPatch | cpt-yahsp/src/var.h:136-145 | Memories that differ in a stretch only still do so after the same undoing. |
| TrailLog.VisibleVector | cpt-yahsp/src/var.h:125 | If all that is visible agrees, so do the counts of all vectors and the elements they cover. |
| TrailLog.StoreKeeps | cpt-yahsp/src/var.h:123-124 | A saved and stored cell keeps every open world recoverable. |
| TrailLog.HiddenWriteKeeps | cpt-yahsp/src/var.h:125 | Overwriting the slot after the last element, unsaved, keeps every open world recoverable. |
| TrailLog.AppendKeeps | cpt-yahsp/src/var.h:125 | Appending with only the count saved keeps every open world recoverable. |
| TrailLog.AppendedElements | cpt-yahsp/src/var.h:125 | After an append the visible elements are the former ones and the new one. |
| TrailLog.OpenKeeps | cpt-yahsp/src/var.h:127-128 | Opening a world keeps all worlds recoverable. |
| TrailLog.CloseKeeps | cpt-yahsp/src/var.h:132-147 | Undoing the last world brings back all that was visible when it was opened, and keeps the worlds below recoverable. |
| TrailLog.BackStep | cpt-yahsp/src/var.h:132-147 | Undoing one more world of what is left after undoing some, for any nesting. |
| TrailLog.PoppedAddress | cpt-yahsp/src/var.h:136 | The address popped from the bytes tells a saved cell from a mark, and what lies below it is that record: the byte stack can be decoded. |
| Trail.WorldStack.Push | cpt-yahsp/src/var.h:118-119 | The stack grows by exactly the bytes, across a reallocation. |
| Trail.WorldStack.Pop | cpt-yahsp/src/var.h:120-121 | The bytes popped are the last ones pushed. |
| Trail.WorldStack.Save | cpt-yahsp/src/var.h:123 | Outside of all worlds nothing is saved; otherwise value, size and address are. |
| Trail.WorldStack.Store | cpt-yahsp/src/var.h:124 | Writes a cell of 1, 2, 4 or 8 bytes after saving it. |
| Trail.WorldStack.Append | cpt-yahsp/src/var.h:125 | Writes an element and raises the count after saving the count only. |
| Trail.WorldStack.NewWorld | cpt-yahsp/src/var.h:127-128 | Opens a world with the former jump target and a null mark on the stack; a counted one is a node of the search, an uncounted one becomes the initial world. |
| Trail.WorldStack.RestoreCell | cpt-yahsp/src/var.h:137-142 | The four cases of the switch restore a cell from its saved bytes. |
| Trail.WorldStack.Backtrack | cpt-yahsp/src/var.h:132-147 | The loop pops down to the mark of the last world: memory, log and jump target are those of the undone world, on the actual bytes. |
| Trail.WorldStack.RestoreWorld | cpt-yahsp/src/var.h:155 | Undoing any number of worlds at once leaves what each of them in turn would leave. |
| Trail.WorldStack.Contradiction | cpt-yahsp/src/var.h:149-153 | A failure undoes the current world or, past the limit, all from the initial one on; the target is that of the lowest world undone, and the failure is counted unless it is past the limit or in the initial world. |
| Search.SettledByPropagation | cpt-yahsp/src/branching.cpp:297 | What is found or refuted after propagation holds for the store before it. |
| Search.SettledByFirst | cpt-yahsp/src/branching.cpp:300-301 | A solution below the first side is one of the store; otherwise the first side has failed. |
| Search.SettledBySecond | cpt-yahsp/src/branching.cpp:300-301 | Once the first side has failed, the second one, started from the restored store, settles the store. |
| Search.BackTop | cpt-yahsp/src/var.h:132-147 | After a failure below the first side, all that was visible when it was opened is back. |
| Search.Explore | cpt-yahsp/src/branching.cpp:293-303 | The recursion: a leaf only with a solution, a failure only without one, and after a failure exactly the worlds it started with. |
| Search.Branch | cpt-yahsp/src/branching.cpp:299-303 | A choice with its two sides, covering the solutions. |
| Search.TryFirst | cpt-yahsp/src/branching.cpp:300-301 | The first side in a world of its own, which is still open after a failure. |
| Search.Retry | cpt-yahsp/src/branching.cpp:300-301 | The second side starts from a store that shows exactly what the first one started from. |
| Search.Solve | cpt-yahsp/src/branching.cpp:293-303 | The search from an initial world stops at a leaf if and only if a solution exists, unless it gives up at the limit; without a solution the visible store is restored. |
| Choices.OrderActions | cpt-yahsp/src/propagations.cpp:251-264 | On a strict order: the pair and its closure are in place, and every plan the store allows that has the pair is still allowed. |
| Choices.MutexSidesCover | cpt-yahsp/src/branching.cpp:259-267 | Every plan in which two actions exclude each other is on exactly one side of the choice between them. |
| Choices.PropagateMutexChoice | cpt-yahsp/src/branching.cpp:259-267 | Ordering the two actions keeps every plan on that side and no other, whichever direction goes first. |
| Choices.PropagateStartTimeChoice | cpt-yahsp/src/branching.cpp:269-276 | Fixing a start at its earliest, or raising that, keeps exactly the plans on that side. |
| Choices.PropagateSupportChoice | cpt-yahsp/src/branching.cpp:226-257 | Choosing or discarding a producer leaves exactly the producers on that side, and fails exactly if there is none. |
| Choices.ConflictSidesCover | cpt-yahsp/src/branching.cpp:216-224 | A deleter that excludes producer and consumer of a causal link and does not come between them is on exactly one side: it is the producer or before it, or it is after the consumer. |
| Choices.Causal.CanProduce | cpt-yahsp/src/structs.h:229 | The test on value and bucket slot, through the table of values, tells exactly whether the action is among the producers left. |
| Choices.Causal.DeltaTo | cpt-yahsp/src/structs.h:180 | The loop over the producers left computes the least distance to any of them. |
| Choices.BoundBeforeLink | cpt-yahsp/src/propagations.cpp:279-286 | The bounds move just by the least time to a producer, none if the action may be the producer itself, and no plan on that side is lost. |
| Choices.OrderBeforeLink | cpt-yahsp/src/propagations.cpp:272-289 | All branches of ordering an action before a link: no plan on that side is lost, none is gained, and the side is enforced once the producer is known; before, the action precedes the consumer. |
| Choices.PropagateConflictChoice | cpt-yahsp/src/branching.cpp:216-224 | The same for the choice between a deleter and a link, in both directions. |
| EventRings.PendingOnce | cpt-yahsp/src/var.h:184-190 | A variable is pending exactly if it is in the pending sequence, and then once. |
| EventRings.RoomToPost | cpt-yahsp/src/var.h:190 | There is always room for a variable that is not pending, and posting never makes full look empty. |
| EventRings.SwapKeeps | cpt-yahsp/src/var.h:188-190 | The exchange of two slots with their back pointers keeps slots and back pointers inverse, wherever the null goes. |
| EventRings.PostAppends | cpt-yahsp/src/var.h:190 | Posting appends to what is pending. |
| EventRings.PopDrops | cpt-yahsp/src/var.h:187 | Popping drops the first pending variable. |
| EventRings.RemoveDrops | cpt-yahsp/src/var.h:188 | Removing a pending variable puts the first one in its place. |
| EventQueues.EventQueue.Post | cpt-yahsp/src/var.h:190 | Posting on the arrays appends the variable, for every position of the ends. |
| EventQueues.EventQueue.Remove | cpt-yahsp/src/var.h:188 | Removal on the arrays. |
| EventQueues.EventQueue.Pop | cpt-yahsp/src/var.h:187 | The first pending variable, or null exactly if none is pending. |
| EventQueues.TellsRemoved | cpt-yahsp/src/var.h:192 | The events still tell which variables are pending after a removal from the middle. |
| EventQueues.EnumEvents.PostRemoval | cpt-yahsp/src/var.h:193 | A removal is posted exactly for a variable without an event. |
| EventQueues.EnumEvents.PostInstantiate | cpt-yahsp/src/var.h:192 | An instantiation takes over from a pending removal, and is posted once. |
| EventQueues.EnumEvents.PopInstantiate | cpt-yahsp/src/var.cpp:135-138 | Takes the first instantiation, clears its event and reports it. |
| EventQueues.EnumEvents.Reset | cpt-yahsp/src/var.h:189 | Two queues are emptied, and no variable keeps an event of theirs. |
| EventQueues.BoundEvents.PostBound | cpt-yahsp/src/var.h:194 | A bound event is posted exactly for a variable without an event. |
| EventQueues.BoundEvents.Reset | cpt-yahsp/src/var.h:189 | The third queue is emptied, and no variable keeps its event. |
| EventQueues.ResetQueues | cpt-yahsp/src/var.h:175 | A failure forgets all pending events in all three queues, and the variables know it. |
| EventQueues.NextEvent | cpt-yahsp/src/var.cpp:140-153 | Instantiations come first, then bounds, then removals; the event taken leaves its queue, all else that is pending stays, and there is no event only if nothing is pending. |
| Buckets.CreatedSound | cpt-yahsp/src/var.cpp:36-48 | A new domain holds the values from 0 to n - 1, soundly linked. |
| Buckets.NextSlot | cpt-yahsp/src/structs.h:149 | The slot after a member leads to the next member, and out of the domain after the last one. |
| Buckets.PreviousSlot | cpt-yahsp/src/var.cpp:74 | The member before a member is found from the slot before it. |
| Buckets.RemoveKeeps | cpt-yahsp/src/var.cpp:64-89 | Removing a member that is not the only one keeps the domain sound, without that member and no other. |
| Buckets.CardOne | cpt-yahsp/src/var.cpp:69 | The bounds meet exactly if one value is left. |
| Buckets.AddKeeps | cpt-yahsp/src/var.cpp:91-103 | Adding a value above all that were ever used keeps the domain sound, with that member more. |
| Buckets.TakesMembers | cpt-yahsp/src/structs.h:229 | On a sound domain, and on a closed one, the producers that are accepted are exactly the members. |
| Buckets.AddAfterInstantiate | cpt-yahsp/src/var.cpp:91-117 | Exactly when a value may be added to a closed variable: the accepted producers are the chosen one and the new one if and only if every former member is the chosen one or in one of the two slots the addition overwrites. |
| Buckets.ReopeningRevives | cpt-yahsp/src/var.cpp:91-117 | A concrete domain in which a discarded producer is accepted again. |
| Buckets.SlotAfterRemoval | cpt-yahsp/src/structs.h:149 | After the current value is removed, the loop continues at a member with none left out between, or ends. |
| Buckets.LoopTurnsBackIff | cpt-yahsp/src/structs.h:149 | Exactly when it goes back: the removed value is neither the first nor the last one, and the value after it is missing while the one after that is not. |
| Buckets.LoopTurnsBack | cpt-yahsp/src/structs.h:149 | A concrete domain in which the loop goes back to the first member. |
| EnumVariables.EnumVariable.Remove | cpt-yahsp/src/var.cpp:64-89 | On the arrays: a removal removes exactly its value, posts the right event, and refuses to empty the domain. |
| EnumVariables.EnumVariable.Add | cpt-yahsp/src/var.cpp:91-103 | On the arrays: the addition as coded, and the new member if the value is fresh and the variable sound. |
| EnumVariables.EnumVariable.Instantiate | cpt-yahsp/src/var.cpp:105-117 | Fails exactly for a value outside the domain; otherwise the value is the only producer accepted. |
| EnumVariables.EnumVariable.Visit | cpt-yahsp/src/structs.h:149 | The loop visits every member once, in increasing order. |
| EnumVariables.EnumVariable.Filter | cpt-yahsp/src/structs.h:149 | The loop that removes as it goes ends, even when it turns back, and leaves exactly the members to be kept, or reports that none is. |
| Assignments.StaticAssignment.constructor | dae/mpi.h:62-77 | The shares sum to the runs and differ by at most one. |
| Assignments.StaticAssignment.Confirm | dae/mpi.h:86-90 | A confirmed run moves from the share of its worker to the count: shares and count still add up to all the runs. |
| Assignments.StaticStopsIff | dae/mpi.h:92-107 | While shares and count add up to all the runs, the workers are told to stop, all of them, exactly when every run is confirmed. |
| Assignments.DynamicGrants | dae/mpi.h:127-140 | Of any number of requests, whoever makes them, exactly as many are told to go on as there are runs left, or all if there are fewer requests. |
| RunProtocol.BegunKeeps | dae/mpi.h:251-255 | The state before the first order satisfies the invariant, for both assignments. |
| RunProtocol.WorkerStepKeeps | dae/mpi.h:536-578 | A step of a worker alone keeps the invariant. |
| RunProtocol.SettleKeeps | dae/mpi.h:300-306 | Confirming a run and giving the next order keeps the invariant. |
| RunProtocol.StepKeeps | dae/mpi.h:254-306 | Every step of every interleaving of master and workers keeps the invariant. |
| RunProtocol.AllDismissed | dae/mpi.h:47-50 | When all runs are confirmed every worker has been told to stop. |
| RunProtocol.NoneOutstanding | dae/mpi.h:47-50 | When every worker has been told to stop all runs are confirmed. |
| RunProtocol.MasterStops | dae/mpi.h:301-305 | The master stops only when exactly the requested runs were executed and every worker was told to stop exactly once. |
| RunProtocol.NeverStuck | dae/mpi.h:262-306 | Until everybody has finished, somebody can take a step. |
| RunProtocol.MeasureFalls | dae/mpi.h:262-306 | Every step lowers a measure: no interleaving goes on forever. |
| RunProtocol.StepKeepsBest | dae/mpi.h:282-294 | The best result of the master is the best of those reported, but for those still on their way. |
| RunProtocol.ExecutedBounded | dae/mpi.h:36-50 | No more than the requested runs are ever executed. |
| RunProtocol.Protocol | dae/mpi.h:233-312 | Whole runs: every interleaving has at most 7 steps per worker and 8 per run; where it cannot go on, the master and all workers have finished, exactly the requested runs were executed, every worker was told to stop once, and the best result is the greatest of all reported. |
| Divisibility.GcdDivides | cpt-yahsp/src/instantiation.cpp:525 | The greatest common divisor divides both numbers. |
| Divisibility.GcdCombines | cpt-yahsp/src/instantiation.cpp:525 | What divides equal multiples of both divides that multiple of it. |
| Divisibility.LcmDivides | cpt-yahsp/src/instantiation.cpp:512 | Both numbers divide their least common multiple. |
| Divisibility.LcmLeast | cpt-yahsp/src/instantiation.cpp:512 | It divides every common multiple. |
| Durations.CeilDivLeast | cpt-yahsp/src/instantiation.cpp:504 | Division rounding up gives the least integer that reaches the dividend. |
| Durations.RoundedIsLeast | cpt-yahsp/src/instantiation.cpp:498-508 | With a positive precision a duration is raised to the least multiple of it that is not below. |
| Durations.DenominatorsDivide | cpt-yahsp/src/instantiation.cpp:512 | The multiple accumulated over the queue is divisible by every denominator. |
| Durations.LcmToLeast | cpt-yahsp/src/instantiation.cpp:512 | It divides every common multiple of the denominators. |
| Durations.GcdToDivides | cpt-yahsp/src/instantiation.cpp:516-528 | The accumulated divisor divides every scaled duration, and is 0 only if all are. |
| Durations.DividesGcdTo | cpt-yahsp/src/instantiation.cpp:516-528 | Whatever divides every scaled duration divides it. |
| Durations.GcdToSign | cpt-yahsp/src/instantiation.cpp:524-525 | Of any list of scaled durations, the divisor is negative exactly if the last one is negative and all before it are 0. |
| Durations.DurationsExact | cpt-yahsp/src/instantiation.cpp:531-548 | Nothing is rounded: every integer duration times the divisor is the rational duration times the multiple. |
| Durations.SignsKeptIff | cpt-yahsp/src/instantiation.cpp:516-548 | Every integer duration has the sign of its rational one, unless the only duration that is not zero is negative and comes last; then it does not. |
| Durations.DurationsCoprime | cpt-yahsp/src/instantiation.cpp:531-548 | The integer durations have no common divisor but 1. |
| Durations.ScaleIsLeast | cpt-yahsp/src/instantiation.cpp:550-562 | Every positive scale that makes all durations integers is a multiple of the one that is used. |
| Durations.DurationTable.Normalize | cpt-yahsp/src/instantiation.cpp:550-562 | The three passes in place: durations rounded to the precision if there is one, then multiple, divisor and integer durations of the rounded ones. |

## Left out

- PlanBuilding.Node.ApplyAction: covers problems without activity constraints; the failing branch at lines 518 to 523, which restores neither the full state nor cost and makespan, is not modelled.
- StepSchedule.ScheduleSteps: takes the actions of the history and returns their starts; writing them back into the steps of the nodes, which ancestors share, is not modelled.
- StepSchedule.RescheduledStepsKeepMeaning: requires that no constraint lets a consumer start before its supplier, and that no linked steps are tied the wrong way round; `RescheduledPlans.ReschedulingKeepsMeaningIff` has the exact condition for delays that are not negative, and with negative ones only a breaking input is given.
- ActivitySchedule.Scheduler.Order: covers constraints with one minimal and one maximal delay; time tables with interpolated delays, computed in floating point, are not modelled.
- SolutionPlans.CreateSolutionPlan: leaves out the cost totals of the plan, and the makespan that they replace in problems with action costs only.
- SolutionPlans.CompressPlans: leaves out the same totals.
- CostEvaluation.Evaluation.ComputeH1: the memo tree is a map from hash key and state to costs; concurrent access to it is not modelled.
- CostEvaluation.Evaluation.ActionCost: sums are unbounded integers; 64-bit overflow of sums of costs is not modelled.
- RelaxedPlans.ComputeRelaxedPlan: requires that no ring of actions of equal cost that delete each other's preconditions lies among the picks that some way to settle the ties collects, since the sort does not end on one (`RelaxedPlans.SortStopsIff`).
- LookAhead.ApplyRelaxedPlan: covers problems without activity constraints, like the application of actions it calls.
- MutexTables.MutexTable.ComputeMutexes: the bits that mark deleted and treated fluents are a set per action, which starts as the deleted fluents; the start action has no preconditions.
- Reachability.Reacher.ComputeReachable: requires that no action lists a precondition twice, as the counters do.
- Precedences.Store.MakePrecede: covers actions in use; the branches for unused and excluded actions, the qualitative mode over all actions, `protect` and conflict weights are not modelled.
- Precedences.Store.UpdateInf: writes the bound only; saving it on the trail and posting its event are modelled in `Trail` and `EventQueues`.
- Precedences.Store.UpdateSup: writes the bound only, likewise.
- MutexSets.GlobalMutexSets: local mutex sets and the bounds before and after a support are not modelled.
- Trail.WorldStack.Store: memory is an array of bytes with addresses from 1 on, a cell has 1, 2, 4 or 8 bytes, the least significant first; `protected` worlds and tracing are not modelled.
- Trail.WorldStack.NewWorld: the target of the jump is a number; the jump itself is the method result of `Search`. Tracing is not modelled.
- Search.Solve: propagation, choice and the two sides of a choice are arbitrary functions of the memory, assumed to keep solutions and to cover them; `Choices` proves this of the four kinds of choice on their own state, not on the bytes of the memory, and `OneCellSolver.OneCellIsSound` gives a solver that branches and meets all that is asked. Which choice is made, shaving, weights and the record of last conflicts are not modelled.
- Choices.OrderBeforeLink: covers actions in use, and links that are required and not excluded.
- EventQueues.EventQueue.constructor: all variables are registered before the queue is used.
- EventQueues.NextEvent: the propagation procedures it hands a variable to, the limit on propagations and the additional propagations are not modelled.
- EnumVariables.EnumVariable.Remove: the procedure called on an emptied domain is the result `Emptied`; a domain is created with at least one value.
- RunProtocol.Protocol: covers a positive number of runs; unlimited runs, exceptions in a worker and a world without workers are not modelled. A message channel keeps the order of its messages.
- Durations.DurationTable.Normalize: covers exact zero as the test for a zero duration; the conversion of the scaled integers to 64 bits, and the real minima of activity constraints, are not modelled.
- Durations.RoundedIsLeast: is about positive precisions.
- Random tie-breaking is an arbitrary choice; the heuristic orderings of `heuristics.cpp` are left out.
- The h2 costs, distances and relevance of `max_atom.cpp`: loops of the same kind as those modelled.
- Resource propagation, cloning of actions, shaving, the search loops of the YAHSP front ends and the evolutionary algorithm: not modelled.
- Parsing, instantiation of operators, option handling, output, and the GDSL, MPI and OpenMP libraries: input and output, or foreign code.
