# SOL ExecBench and SOLAR: verified models of the algorithmic and stateful cores

This project models the parts of the repository that compute or keep state without a GPU, and proves what they are
relied on for. `dafny verify dfyconfig.toml` checks all of it.

| file | what it models |
|---|---|
| `Graphs`, `Tarjan` | the recursive strongly-connected-component search with its shared counter, stack and lowlinks |
| `DottedNames`, `Coupling` | module and domain import cycles, and what a domain cycle says about modules |
| `ProductionReachability` | the worklist closure from production entries, and the edges it follows |
| `Strides` | the test that a strided layout gives every element its own address |
| `Matrices`, `OrderTrees`, `OrderExecution`, `OrderPlan` | postfix associations of a matrix chain: parsing, cost, execution, enumeration and the bounded plan |
| `OrderSearch`, `ScanExecution` | the budgeted executors: resume, deadlines, caught and uncaught exceptions, the report |
| `CorpusDesign`, `CaseShapes` | the three-way rotating split of the case universe, the workload shapes and the memory they need |
| `SolarScheduler` | the bounded parallel scheduler, as a trace of submissions, waits and results |
| `FreezeProtocol` | one corpus root under any history of commands, and what freezing the held-out role guarantees |
| `CollectionRuns` | the registry of collection runs and its generation chains |
| `SourceTransition` | the multi-rename commit with rollback and a receipt written last |
| `PeakCalibration` | the rotated and direction-alternated measuring schedule, the alternated tuning schedule, and the choice of a tuned configuration |
| `QualifiedGates` | the hash-linked static, canary and full qualification gates |
| `Percentile` | the interpolated percentile |
| `Sorting`, `Sets`, `Results` | Python's `sorted`, cardinality facts, options and results |

Code that updates variables or fields is written as methods and classes and tied to a specification; the properties
are then proved about the specification. Clock readings, exceptions, tool outcomes and file-system faults are script
parameters that range over every possibility. A content hash is a constructor applied to its content, so two hashes
are equal only for equal contents.

Where the code does not have a property in full, the exact condition is proved instead:

* Two domains can be reported as a cycle although no two modules form one (`Coupling.DomainCycleWithoutModuleCycle`);
  a domain cycle means mutual reachability with free steps inside a domain (`Coupling.DomainCycleMeaning`).
* A refused layout may still be injective (`Strides.RefusedThoughInjective`); where, among the dimensions of size more
  than one, every positive stride divides the larger ones, the test is exact (`Strides.NestedExact`).
* A failed commit restores every case directory unless an exception falls between a rename and the note of it
  (`SourceTransition.FailureRollsBack`), and leaves a receipt behind exactly when the exception comes after the receipt
  was put in place (`SourceTransition.FailureLeavesNoReceipt`). Directories made above the targets are never removed, so
  the whole tree is restored exactly when they were all there before (`SourceTransition.FailureRestoresTree`).
* The guard against forced work names the held-out role only: frozen development evidence can still be redone by force,
  and nothing else can make the first change to it (`FreezeProtocol.FirstChangeIsRedo`). After a forced redo that fails
  unforced work can change it as well (`FreezeProtocol.RedoneThenUnforced`); what may change in any state is
  `FreezeProtocol.ChangeExactly`.
* Successor shapes are new: over all generations two indices of a family share a shape only in the matmul family, only
  before index 280, and exactly when they are a multiple of 130 apart (`CaseShapes.ShapesRepeatExactly`).
* Six of the authored cases exceed the 16 GiB class, so a design that starts from 420 to 563 is refused
  (`CaseShapes.DesignFitsExactly`); the 8 GiB class admits no authored design (`CaseShapes.SmallClassAdmitsNone`).
* A registration that is refused because another design is in place still leaves its policy file behind, exactly when
  it brings an admitted one and none is there (`FreezeProtocol.RegistrationLeavesPolicy`).
* A scan or a search can raise and yet report completion, even a minimum over the whole domain: exactly when it settled
  and then a termination arrived or, for a search, the rule files could not be read (`ScanExecution.RaisesSettled`,
  `OrderSearch.RaisesSettled`, with concrete runs in `RaisedYetCompleted` and `RaisedYetMinimum`).
* An exception that arrives after a result was assigned leaves an entry that says it failed, yet carries the result; a
  report with such an entry cannot be read back (`ScanExecution.ReportReadable`, `OrderSearch.ReportReadable`).
* A candidate that the search reaches, evaluates and then cannot seal is reported as not run
  (`OrderSearch.EvaluationsReported`).
* The measuring schedule is counterbalanced exactly for a single probe, for no rounds, or for whole blocks of 2n rounds
  over an odd number n of probes (`PeakCalibration.BalancedExactly`), although the calibration artifact describes every
  schedule the same way. The default of 7 rounds is never such a block for two or more probes, and the shipped list
  has ten, so each of them only takes positions of its own parity (`PeakCalibration.EvenKeepsParity`).
* Alternating the tuning order balances each position with its mirror image exactly for an even number of rounds, or one
  candidate (`PeakCalibration.TuningBalancedExactly`); the default is 3 rounds, and the artifact still calls the order
  counterbalanced.
* A canary gate verifies after it is written exactly when the canary list is in probe order
  (`QualifiedGates.VerifiesExactly`); the shipped list is, at positions 0, 3, 8 and 9 (`QualifiedGates.CanaryInOrder`).

## Model

| member | source | states |
|---|---|---|
| `Tarjan.StronglyConnectedComponents` | scripts/check_coupling.py:151-199 | for every finite graph: the result is sorted and lists exactly the maximal mutually reachable sets with two or more members, each once |
| `Tarjan.BuildGraph` | scripts/check_coupling.py:156-159 | the vertices are the modules and every end of an edge, and the successor sets are exactly the edges |
| `Tarjan.Search.Visit` | scripts/check_coupling.py:168-194 | whatever order the successors are taken in, a visit keeps the search invariant: every popped vertex left with its whole component and each non-trivial one is recorded; it terminates on the count of unindexed vertices |
| `Tarjan.Search.VisitAll` | scripts/check_coupling.py:196-198 | after the outer loop every vertex is indexed and the invariant holds |
| `Tarjan.Search.Begin` | scripts/check_coupling.py:170-174 | opening a vertex gives the state its successors are explored in |
| `Tarjan.Search.LookAt` | scripts/check_coupling.py:176-181 | one successor, new or already seen, keeps the exploring invariant with the lowered link |
| `Tarjan.Search.Finish` | scripts/check_coupling.py:183-194 | an unlowered link pops exactly one component; a lowered one leaves the vertex on the stack |
| `Tarjan.Search.PopComponent` | scripts/check_coupling.py:186-192 | pops down to the target, which leaves last, and keeps the on-stack set equal to the stack |
| `Tarjan.AboveIsScc` | scripts/check_coupling.py:183-194 | when the link was not lowered, what lies above the vertex on the stack is exactly its strongly connected component |
| `Tarjan.PathStaysAbove` | scripts/check_coupling.py:168-194 | no path that comes back to the vertex leaves the part of the stack above it |
| `Tarjan.CloseOnStack` | scripts/check_coupling.py:183-194 | a vertex with a lowered link still reaches an open vertex, so nothing is lost by keeping it |
| `Coupling.SameDomain` | scripts/check_coupling.py:202-213 | two dotted names share a domain exactly when they agree on the parts that name it |
| `Coupling.ArchitectureDomainCycles` | scripts/check_coupling.py:216-228 | returns exactly the non-trivial components of the graph of domains |
| `Coupling.ModuleCycles` | scripts/check_coupling.py:151-199 | returns exactly the non-trivial components of the module graph |
| `Coupling.DomainReach` | scripts/check_coupling.py:216-228 | one domain reaches another exactly when imports with free steps inside a domain lead there |
| `Coupling.DomainCycleMeaning` | scripts/check_coupling.py:216-228 | two modules' domains are reported together exactly when each leads to the other by imports and free steps inside a domain |
| `Coupling.ModuleCycleReported` | scripts/check_coupling.py:202-228 | every module cycle across domains has all its domains inside one reported component |
| `Coupling.NoDomainCycle` | scripts/check_coupling.py:202-228 | if no domain cycle is reported, every module component lies in one domain |
| `Coupling.DomainCycleWithoutModuleCycle` | scripts/check_coupling.py:216-228 | a concrete graph with a domain cycle and no module cycle |
| `DottedNames.SplitJoin` | scripts/check_coupling.py:202-213 | splitting a joined name gives its parts back |
| `DottedNames.JoinSplit` | scripts/check_coupling.py:202-213 | joining the parts of a name gives the name back |
| `DottedNames.PrefixIsPackage` | scripts/check_production_reachability.py:91-96 | the proper prefixes of a dotted name are exactly the names it continues with a dot |
| `ProductionReachability.NodeEdges` | scripts/check_production_reachability.py:70-90 | one syntax node refers to exactly the bundled modules it mentions, by import, by from-import base or member, or by a literal name |
| `ProductionReachability.Edges` | scripts/check_production_reachability.py:67-97 | a module's edges are exactly the bundled modules its nodes mention and its own packages |
| `ProductionReachability.Closure` | scripts/check_production_reachability.py:131-138 | the worklist ends with exactly what the roots reach, in spite of repeated entries |
| `ProductionReachability.UnreachableModules` | scripts/check_production_reachability.py:111-143 | sorted, without repeats, exactly the unreached modules that are not package files |
| `ProductionReachability.AncestorsReached` | scripts/check_production_reachability.py:91-97 | every bundled package around a reached module is reached |
| `ProductionReachability.ReachedIsLeast` | scripts/check_production_reachability.py:131-138 | the reached set is within every set that holds the roots and is closed under edges |
| `ProductionReachability.ReachedExactly` | scripts/check_production_reachability.py:67-138 | a bundled module is reached if and only if it is an entry, a tool root, a main file or in a dynamic package, or a reached module names it by import, from-import base or member or literal, or lies in it |
| `Strides.InjectiveStrides` | src/solar/storage.py:25-38 | true exactly for the accepted layouts, and then no two elements share an offset; the last `covered` is one more than the largest offset |
| `Strides.AcceptedInjective` | src/solar/storage.py:25-38 | for any rank: an accepted layout maps different indices inside the shape to different offsets |
| `Strides.SeparatedPermuted` | src/solar/storage.py:31-38 | acceptance does not depend on the order of the dimensions |
| `Strides.LargestOffset` | src/solar/storage.py:31-38 | the extent that `covered` counts is the largest offset inside the shape, and is attained |
| `Strides.DenseAccepted` | src/solar/storage.py:31-38 | every dense row-major layout, with its dimensions in any order and any stride on dimensions of size one, is accepted, and its final `covered` is the number of elements |
| `Strides.NestedExact` | src/solar/storage.py:25-38 | where, among the dimensions of size more than one, every positive stride divides the larger ones, a layout is accepted if and only if it is injective |
| `Strides.RefusedThoughInjective` | src/solar/storage.py:25-38 | a concrete injective layout that is refused |
| `Matrices.MatMulAssociative` | src/solar/order_execution.py:83-98 | exact matrix multiplication is associative wherever the shapes fit |
| `OrderTrees.RunPostfix` | src/solar/order_execution.py:90-98 | the stack machine on a postfix sequence pushes exactly the value of the association, operands in order |
| `OrderTrees.RunParses` | src/solar/analysis/order_trees.py:31-76 | whatever the machine ends with was written as postfix sequences, so it accepts nothing else |
| `OrderTrees.PostfixInjective` | src/solar/analysis/order_trees.py:86-93 | two associations have the same postfix sequence only if they are the same |
| `OrderTrees.AcceptsOrders` | src/solar/analysis/order_trees.py:31-76 | the span machine accepts exactly the postfix sequences of associations of all leaves in order |
| `OrderTrees.WalkTokens` | src/solar/analysis/order_trees.py:42-67 | the token loop succeeds exactly when the span machine does, and its counters are those of the pieces on the stack |
| `OrderTrees.TreeCost` | src/solar/analysis/order_trees.py:31-76 | accepts exactly the admissible chains and well-formed orders, and returns the cost of the association that the tokens denote |
| `OrderExecution.CostIsWork` | src/solar/analysis/order_trees.py:49-75 | on conforming inputs the cost is the work that running the order does: its scalar products, the cells of each intermediate in turn, the shape of the result, and all cells of operands and products |
| `OrderTrees.InAllOrders` | src/solar/analysis/order_trees.py:86-93 | the enumeration holds exactly the associations of the span |
| `OrderTrees.AllOrdersDistinct` | src/solar/analysis/order_trees.py:86-93 | it holds each once, and as many as Segner's recurrence counts |
| `OrderTrees.AllOrdersAscend` | src/solar/analysis/order_trees.py:86-93 | it is in ascending order of the split point, then of the left part, then of the right part, all the way down |
| `OrderPlan.CountIsExact` | src/solar/analysis/order_trees.py:79-83 | the closed form counts the associations of every admitted chain |
| `OrderPlan.PlannedTrees` | src/solar/analysis/order_trees.py:96-106 | which arguments are refused, and for the others a plan that starts with the original, holds only well-formed orders, repeats none and is as long as the bound and the domain allow |
| `OrderPlan.PlanTakesFirst` | src/solar/analysis/order_trees.py:102-106 | after the original the plan keeps the order of the enumeration and leaves out no association before the last one it takes |
| `OrderPlan.FullPlanCoversAll` | src/solar/analysis/order_trees.py:96-106 | a plan covers every association exactly when it is as long as their count |
| `OrderExecution.Evaluate` | src/solar/order_execution.py:83-98 | the loop computes the machine's result, with `None` for every raised error |
| `OrderExecution.ChainSplit` | src/solar/order_execution.py:83-98 | the left-to-right product of a chain may be cut anywhere |
| `OrderExecution.PlannedOrderRuns` | src/solar/order_execution.py:83-98 | on conforming inputs a well-formed order never underflows or mismatches, leaves one value, and that is the product of the chosen inputs in source order |
| `OrderExecution.ReassociationKeepsMeaning` | src/solar/order_execution.py:83-98 | two well-formed orders of one chain end in the same single value |
| `OrderSearch.OrderExecutor.Run` | src/solar/order.py:201-223 | the script alone determines whether the run raises, its stop reason, the candidates it labels and those it evaluates; the report is there exactly when it could be written, and its selection is the first fastest candidate |
| `OrderSearch.OrderExecutor.RunPrepared` | src/solar/order.py:225-263 | the loop ends at the first candidate it does not get past, for the reason the script gives, having handled and evaluated exactly the ones before it |
| `OrderSearch.OrderExecutor.Attempt` | src/solar/order.py:265-331 | the sealed entry of one candidate, when it was evaluated, and when an exception escapes |
| `OrderSearch.SelectOrder` | src/solar/analysis/order_selection.py:27-84 | refuses inconsistent candidates; otherwise selects the first of the fastest analyzed ones and says truthfully what was covered |
| `OrderSearch.SelectionUnique` | src/solar/analysis/order_selection.py:27-84 | a list of candidates has one selection: the conditions leave no choice, ties included |
| `OrderSearch.AttemptedCounted` | src/solar/analysis/order_selection.py:79-84 | what is subtracted from the domain to get the unexplored number is the number of candidates marked attempted |
| `OrderSearch.ReportKeepsPlan` | src/solar/order.py:201-331 | candidates keep plan order, tree and cost; those not run are a suffix with the stop reason; one over the work budget is never evaluated |
| `OrderSearch.BudgetObeyed` | src/solar/order.py:250-331 | no candidate is begun after time ran out, after a termination, or after one that escaped or was not sealed; only the last handled one may have escaped, and then the run raises |
| `OrderSearch.WhyStopped` | src/solar/order.py:201-263 | for each stop reason, the total and the candidate budget among them, and for raising, the exact condition on plan, budget and script |
| `OrderSearch.HandledExactly` | src/solar/order.py:225-331 | a candidate is handled if and only if the preparation was ready in time, each candidate up to it was resumed or begun in time and sealed, and none before it ended the search |
| `OrderSearch.EntryExactly` | src/solar/order.py:265-331 | for a handled candidate that was not resumed: each status, its reason and its view, exactly when its cost, the limits and the outcome of its evaluation say so |
| `OrderSearch.OtherEntries` | src/solar/order.py:206-249 | resumed candidates appear as they were handed over, the ones not reached as planned with the stop reason |
| `OrderSearch.ExhaustiveExactly` | src/solar/analysis/order_selection.py:60-68 | the report claims the whole domain if and only if the plan has every association, the rules did not change, and every candidate was resumed or evaluated in time and ended analyzed or refuted |
| `OrderSearch.RefutedYetExhaustive` | src/solar/analysis/order_selection.py:60-68 | a concrete run with one refuted association that reports a minimum over the whole domain |
| `OrderSearch.RaisesSettled` | src/solar/order.py:201-223 | a raising run reports another reason than an interruption or changed rules if and only if the search reached its rules check and the rules could not be read |
| `OrderSearch.RaisedYetMinimum` | src/solar/order.py:201-223 | a concrete run that raises while its report claims a minimum over the whole domain |
| `OrderSearch.EvaluationsReported` | src/solar/order.py:265-331 | the report shows exactly the evaluations that happened if and only if the loop reaches no candidate that it evaluates and then cannot seal, a condition on plan, budget and script |
| `OrderSearch.EvaluatedYetNotRun` | src/solar/order.py:325-331 | a concrete run that evaluates a candidate and reports it as not run |
| `OrderSearch.ReportReadable` | src/solar/analysis/order_contracts.py:164-180 | every candidate of the report passes the record validator if and only if no evaluated one met a deadline or a verification error after its views were assigned |
| `OrderSearch.LateDeadline` | src/solar/order.py:286-302 | a concrete run whose timed-out candidate carries an estimate |
| `OrderSearch.CompletedCoversAll` | src/solar/order.py:250-263 | a search that reports completion handled every association of the chain |
| `OrderSearch.ExhaustiveMinimum` | src/solar/analysis/order_selection.py:27-84 | a reported minimum is no slower than any analyzed association, and every association was analyzed or refuted |
| `ScanExecution.ScanExecutor.Run` | src/solar/scan.py:86-116 | the script alone determines whether the run raises, its stop reason and every labelled point; the report is there exactly when it could be written |
| `ScanExecution.ScanExecutor.RunPrepared` | src/solar/scan.py:121-145 | the loop ends at the first point it does not get past, for the reason the script gives, having handled exactly the ones before it |
| `ScanExecution.ScanExecutor.Attempt` | src/solar/scan.py:147-216 | the entry an attempt leaves for every exception, and when it escapes |
| `ScanExecution.ReportIsTruthful` | src/solar/scan.py:86-216 | points keep order and identity, none is left not started, those neither resumed nor attempted are exactly the suffix, and completion means the suffix is empty |
| `ScanExecution.BudgetObeyed` | src/solar/scan.py:134-216 | no point is begun after time ran out, after a termination, or after an attempt that escaped or left no record |
| `ScanExecution.WhyStopped` | src/solar/scan.py:86-145 | completion, interruption, an exhausted preparation and an exhausted total budget each mean exactly one condition on the script; and when an exception leaves the run |
| `ScanExecution.HandledExactly` | src/solar/scan.py:121-216 | a point is handled if and only if the preparation was ready in time, each point up to it was resumed or begun in time, and none before it ended the scan |
| `ScanExecution.EntryExactly` | src/solar/scan.py:147-246 | for a handled point that was not resumed: its status, reason and result for a returned projection, available or not, and for each exception |
| `ScanExecution.OtherEntries` | src/solar/scan.py:94-133 | resumed points appear as they were handed over, the ones not reached as planned with the stop reason |
| `ScanExecution.AnalyzedExactly` | src/solar/pipeline/scan_artifacts.py:144-149 | a point ends analyzed if and only if it was handed over so or its projection was accepted as available and no handled exception came after |
| `ScanExecution.RaisesSettled` | src/solar/scan.py:86-116 | a raising run reports another reason than an interruption if and only if a termination arrives after it had settled |
| `ScanExecution.RaisedYetCompleted` | src/solar/scan.py:86-116 | a concrete run that raises and reports completion |
| `ScanExecution.LateExceptionKeepsResult` | src/solar/scan.py:160-216 | an attempted entry carries a result exactly as its status says, unless a handled exception came after the projection was assigned |
| `ScanExecution.ReportReadable` | src/solar/analysis/scan_contracts.py:248-261 | every point of the report passes the record validator if and only if no attempt met a handled exception after its projection was assigned |
| `ScanExecution.LateDeadline` | src/solar/scan.py:160-216 | a concrete completed run whose timed-out point carries a result |
| `CorpusDesign.BlockTakesEachPhaseOnce` | scripts/internal/rdna4/build_rdna4_diagnostic_corpora.py:852-858 | for every universe start each block of three indices takes each phase exactly once |
| `CorpusDesign.RotationStep` | scripts/internal/rdna4/build_rdna4_diagnostic_corpora.py:852-858 | the first block takes the phases in turn, two neighbouring blocks agree, and each next pair has every phase one place earlier |
| `CorpusDesign.SelectedByBlock` | scripts/internal/rdna4/build_rdna4_diagnostic_corpora.py:820-858 | the k-th case of a phase lies in block k, so each phase has exactly 20 of 60 |
| `CorpusDesign.RolesPartition` | scripts/internal/rdna4/build_rdna4_diagnostic_corpora.py:845-858 | the phases partition the universe and nothing outside it has one |
| `CorpusDesign.SelectIndices` | scripts/internal/rdna4/build_rdna4_diagnostic_corpora.py:820-842 | the loop collects exactly the ascending indices of a phase |
| `CorpusDesign.Cases` | scripts/internal/rdna4/build_rdna4_diagnostic_corpora.py:820-842 | the nested loops list each family's phases in order, numbered within the phase |
| `CorpusDesign.CasesOfRole` | scripts/internal/rdna4/build_rdna4_diagnostic_corpora.py:820-842 | a role's list names exactly the role's case identifiers, whatever the universe start |
| `CorpusDesign.BothRolesForFamily` | scripts/internal/rdna4/build_rdna4_diagnostic_corpora.py:1023-1047 | filtering both roles' lists by family gives that family's 60 cases, phase by phase |
| `CorpusDesign.WorkloadCoversUniverse` | scripts/internal/rdna4/build_rdna4_diagnostic_corpora.py:1016-1051 | each index of the universe has exactly one case in a family's workload, in its own phase, and nothing else is in it |
| `CaseShapes.CoprimeResidues` | scripts/internal/rdna4/build_rdna4_diagnostic_corpora.py:763-775 | equal residues modulo 10 and, tripled, modulo 13 force equality modulo 130 |
| `CaseShapes.MatmulRepeats` | scripts/internal/rdna4/build_rdna4_diagnostic_corpora.py:763-775 | two matmul indices share a shape if and only if both are from before the change of formula and a multiple of 130 apart |
| `CaseShapes.ElementwiseDistinct` | scripts/internal/rdna4/build_rdna4_diagnostic_corpora.py:586-743 | no two elementwise indices share a row count, across all authored windows |
| `CaseShapes.TransposeDistinct` | scripts/internal/rdna4/build_rdna4_diagnostic_corpora.py:622-760 | transpose row counts meet in exactly three pairs of indices of different windows, and no shape is repeated |
| `CaseShapes.ShapesDistinct` | scripts/internal/rdna4/build_rdna4_diagnostic_corpora.py:778-806 | in every universe the 60 shapes of each family but the transformer are pairwise distinct |
| `CaseShapes.ShapesRepeatExactly` | scripts/internal/rdna4/build_rdna4_diagnostic_corpora.py:778-806 | over all generations two indices of one family, but for the transformer, share a shape if and only if they are matmul indices before 280 and a multiple of 130 apart |
| `CaseShapes.ColumnsCycle` | scripts/internal/rdna4/build_rdna4_diagnostic_corpora.py:778-806 | the widths of reduction, softmax, cross-entropy and indexed-read cases: where they start over, by how much they grow, and that the packaged candidates take them |
| `CaseShapes.ShapesGrow` | scripts/internal/rdna4/build_rdna4_diagnostic_corpora.py:778-806 | every axis is positive from the first generation on, and rows grow inside each generation for every family but matmul and the transformer |
| `CaseShapes.FitsExactly` | scripts/internal/rdna4/build_rdna4_diagnostic_corpora.py:1083-1119 | for every case index from 400 to 759: it fits the 16 GiB class if and only if it is not one of six named ones |
| `CaseShapes.DesignFitsExactly` | scripts/internal/rdna4/build_rdna4_diagnostic_corpora.py:1098-1119 | which authored universe starts the 16 GiB class admits |
| `CaseShapes.SmallClassAdmitsNone` | scripts/internal/rdna4/build_rdna4_diagnostic_corpora.py:1098-1119 | the 8 GiB class admits no authored design |
| `CaseShapes.ValidateWorkingSets` | scripts/internal/rdna4/build_rdna4_diagnostic_corpora.py:1098-1119 | the loop over both roles' cases accepts exactly the designs all of whose governed cases fit |
| `SolarScheduler.RunParallel` | scripts/internal/rdna4/build_rdna4_diagnostic_corpora.py:2131-2176 | for every job limit and every choice of completed futures the trace is allowed; it raises exactly when a case fails and otherwise finishes all cases |
| `SolarScheduler.Round` | scripts/internal/rdna4/build_rdna4_diagnostic_corpora.py:2155-2176 | after each refill exactly min(jobs, unfinished) cases are active |
| `SolarScheduler.Collect` | scripts/internal/rdna4/build_rdna4_diagnostic_corpora.py:2157-2160 | the results taken are appended in ascending order of position, all of them or up to and including the first failure, and every one left is higher |
| `SolarScheduler.Refill` | scripts/internal/rdna4/build_rdna4_diagnostic_corpora.py:2161-2176 | one pending case per completed one restores the number of active cases |
| `SolarScheduler.RunBounds` | scripts/internal/rdna4/build_rdna4_diagnostic_corpora.py:2131-2176 | in every allowed run cases are submitted in order, at most once, the limit holds, and each submitted case is active, finished or failed |
| `SolarScheduler.EachEvent` | scripts/internal/rdna4/build_rdna4_diagnostic_corpora.py:2131-2176 | in every allowed run a case is submitted while fewer than the limit are out, a wait comes only at the limit or when none is left to submit, and a case finishes or fails after its submission as it does or does not fail |
| `SolarScheduler.NothingAfterFailure` | scripts/internal/rdna4/build_rdna4_diagnostic_corpora.py:2131-2176 | nothing is submitted after a failure was seen |
| `FreezeProtocol.CorpusRoot.Register` | scripts/internal/rdna4/build_rdna4_diagnostic_corpora.py:1122-1183 | success means that exactly this plan is registered and ready under its policy; a design or policy already there is never replaced, by success or failure |
| `FreezeProtocol.RegistersExactly` | scripts/internal/rdna4/build_rdna4_diagnostic_corpora.py:1054-1183 | a registration succeeds if and only if it is admitted, comes with a policy exactly from start 400 on, agrees with the policy and design in place and all its writes succeed; and which files it leaves otherwise |
| `FreezeProtocol.CorpusRoot.SolarCase` | scripts/internal/rdna4/build_rdna4_diagnostic_corpora.py:1282-1326 | an existing manifest is kept unless forced; otherwise the tree is what the tool left |
| `FreezeProtocol.CorpusRoot.CollectCase` | scripts/internal/rdna4/build_rdna4_diagnostic_corpora.py:1992-2028 | existing or partial evidence is kept unless forced |
| `FreezeProtocol.CorpusRoot.ExecuteCases` | scripts/internal/rdna4/build_rdna4_diagnostic_corpora.py:2208-2245 | refused entirely by the guard, or the stage's effect on exactly the picked cases that were reached |
| `FreezeProtocol.UnselectedUntouched` | scripts/internal/rdna4/build_rdna4_diagnostic_corpora.py:2213-2222 | a solving or collecting command leaves a case alone when it has the other role, another family than the named one, an index at or above the limit, or is not the named case |
| `FreezeProtocol.SelectedWorkedOn` | scripts/internal/rdna4/build_rdna4_diagnostic_corpora.py:2208-2245 | a case that fits every field given and is reached gets the stage's result if the work is forced or nothing stands in its way, and is kept otherwise; unless the plan is not ready or the guard refuses |
| `FreezeProtocol.CorpusRoot.FreezeCorpus` | scripts/internal/rdna4/build_rdna4_diagnostic_corpora.py:2531-2545 | writes a corpus only once, only when every case of the role is complete, and records the evidence in place |
| `FreezeProtocol.FreezesExactly` | scripts/internal/rdna4/build_rdna4_diagnostic_corpora.py:2531-2545 | a corpus is written if and only if there is none, the plan is ready and every case of the role has validating evidence and a manifest; it then holds exactly those cases, with these, and nothing else changes |
| `FreezeProtocol.CorpusRoot.PromoteDevelopment` | scripts/internal/rdna4/build_rdna4_diagnostic_corpora.py:2840-2946 | with at least two registered sources under the root and a free output it writes their cases in order, numbered by source, and it replaces no file |
| `FreezeProtocol.PromotesExactly` | scripts/internal/rdna4/build_rdna4_diagnostic_corpora.py:2840-2946 | a role's corpus is promoted if and only if at least two sources lie under the root, each registered under its own snapshot, no snapshot is named twice, and there is no such file yet |
| `FreezeProtocol.PromotesOnlyIntoFree` | scripts/internal/rdna4/build_rdna4_diagnostic_corpora.py:2840-2946 | a promotion changes nothing but one free file under the root |
| `FreezeProtocol.PromotedInOrder` | scripts/internal/rdna4/build_rdna4_diagnostic_corpora.py:2817-2946 | promoted cases stand in the order of the sources and of each source |
| `FreezeProtocol.CorpusRoot.PrepareProblems` | scripts/internal/rdna4/build_rdna4_diagnostic_corpora.py:1016-1051 | each selected family gets its templates and its own workload, up to the first write that fails; the others are untouched |
| `FreezeProtocol.PreparesExactly` | scripts/internal/rdna4/build_rdna4_diagnostic_corpora.py:1016-1051 | which of the three files each family has after any number of successful writes; families that are not selected keep theirs |
| `FreezeProtocol.CorpusRoot.AdoptExisting` | scripts/internal/rdna4/build_rdna4_diagnostic_corpora.py:2708-2737 | rebuilds only into a place outside the root, so the root is unchanged |
| `FreezeProtocol.CorpusRoot.QualifyCases` | scripts/internal/rdna4/build_rdna4_diagnostic_corpora.py:1364-1382 | writes only into a place outside the root, so the root is unchanged |
| `FreezeProtocol.FilesWrittenOnce` | scripts/internal/rdna4/build_rdna4_diagnostic_corpora.py:1122-1183 | over any history of commands the design, the policy and each corpus file, once there, never change, and a ready design stays ready |
| `FreezeProtocol.RegisteredIsReady` | scripts/internal/rdna4/build_rdna4_diagnostic_corpora.py:2766-2794 | in any history from a root without a design, a registered plan is always ready: its policy was frozen before it and stays |
| `FreezeProtocol.RegistrationRepeats` | scripts/internal/rdna4/build_rdna4_diagnostic_corpora.py:1143-1161 | registering the same plan again succeeds and changes nothing |
| `FreezeProtocol.RegistrationLeavesPolicy` | scripts/internal/rdna4/build_rdna4_diagnostic_corpora.py:1054-1080 | with a design in place a registration changes the root, and then only its policy file, if and only if it brings an admitted policy for a governed start and none is there |
| `FreezeProtocol.PolicyOfRefusedPlan` | scripts/internal/rdna4/build_rdna4_diagnostic_corpora.py:1054-1080 | a concrete refused registration that leaves its policy file behind |
| `FreezeProtocol.PromotedDistinct` | scripts/internal/rdna4/build_rdna4_diagnostic_corpora.py:2817-2826 | promoted identifiers are distinct even when sources share case identifiers |
| `FreezeProtocol.StepKeepsHeldOut` | scripts/internal/rdna4/build_rdna4_diagnostic_corpora.py:2060-2081 | one command of any kind leaves a frozen held-out corpus, its evidence and its SOLAR trees as they are |
| `FreezeProtocol.HeldOutImmutable` | scripts/internal/rdna4/build_rdna4_diagnostic_corpora.py:2208-2245 | over any later history, forced or not and for either role, the same; and the corpus still records the evidence in place |
| `FreezeProtocol.ChangeExactly` | scripts/internal/rdna4/build_rdna4_diagnostic_corpora.py:2208-2245 | in any state, frozen or not, a command can change a role's evidence or SOLAR trees if and only if it solves or collects, is not refused, and picks a case of the role that is forced or still open to its stage |
| `FreezeProtocol.GuardCoversHeldOutOnly` | scripts/internal/rdna4/build_rdna4_diagnostic_corpora.py:2060-2081 | with a role's corpus frozen and every case of it complete, a command can change its evidence if and only if it is forced work on the development role |
| `FreezeProtocol.KeptUntilRedone` | scripts/internal/rdna4/build_rdna4_diagnostic_corpora.py:2208-2245 | over any history, from the step that freezes a role until the first forced development work on it, its corpus file, evidence and trees stay the same, every case stays complete and the corpus records what is in place |
| `FreezeProtocol.FirstChangeIsRedo` | scripts/internal/rdna4/build_rdna4_diagnostic_corpora.py:2060-2081 | after a role is frozen, as long as nothing has redone it, the next command can change its evidence if and only if it is forced work on the development role |
| `FreezeProtocol.RedoneThenUnforced` | scripts/internal/rdna4/build_rdna4_diagnostic_corpora.py:2060-2081 | a forced collection whose tools fail leaves a frozen development case that unforced work can change |
| `CollectionRuns.Registry.Latest` | scripts/internal/rdna4/build_rdna4_diagnostic_corpora.py:2648-2658 | the run of the highest generation of a design, in whatever order the manifests are listed |
| `CollectionRuns.Registry.Register` | scripts/internal/rdna4/build_rdna4_diagnostic_corpora.py:2598-2645 | one registration as a step of the registry, for each point at which its file effects may fail |
| `CollectionRuns.ChainExtends` | scripts/internal/rdna4/build_rdna4_diagnostic_corpora.py:2598-2645 | a registration takes a new identity and extends the design's chain by exactly one generation |
| `CollectionRuns.HistoryIsChained` | scripts/internal/rdna4/build_rdna4_diagnostic_corpora.py:2598-2658 | after any sequence of registrations a design has exactly generations 1..k, each once, each superseding exactly the one before, where k counts the manifests written |
| `CollectionRuns.ManifestsAreImmutable` | scripts/internal/rdna4/build_rdna4_diagnostic_corpora.py:2598-2645 | no later registration changes or removes a manifest |
| `CollectionRuns.LineageCovers` | scripts/internal/rdna4/build_rdna4_diagnostic_corpora.py:2598-2658 | following the supersedes links from a run visits exactly the design's runs up to its generation |
| `SourceTransition.Workspace.Commit` | scripts/internal/rdna4/manage_rdna4_source_transition.py:720-758 | the renames, checks, receipt and rollback compute the specified end state for every fault |
| `SourceTransition.ReturnsExactly` | scripts/internal/rdna4/manage_rdna4_source_transition.py:730-758 | a commit returns if and only if every target is free, every directory above it is made, every staged copy is there, as recorded, and renamed, every check asked for holds, and the receipt is written |
| `SourceTransition.Workspace.MoveAll` | scripts/internal/rdna4/manage_rdna4_source_transition.py:737-740 | how many moves are noted, and the directories then |
| `SourceTransition.Workspace.VerifyAll` | scripts/internal/rdna4/manage_rdna4_source_transition.py:741-752 | raises exactly when some target's inventory, evidence or SOLAR tree does not hold |
| `SourceTransition.Workspace.RollBack` | scripts/internal/rdna4/manage_rdna4_source_transition.py:754-758 | undoes the noted moves, latest first |
| `SourceTransition.UndoRestores` | scripts/internal/rdna4/manage_rdna4_source_transition.py:754-758 | undoing exactly the moves made restores every directory |
| `SourceTransition.FailureRollsBack` | scripts/internal/rdna4/manage_rdna4_source_transition.py:730-758 | a failed commit leaves every case directory as it was if and only if no exception fell between a rename and its note |
| `SourceTransition.FailureRestoresTree` | scripts/internal/rdna4/manage_rdna4_source_transition.py:737-758 | a failed commit leaves the whole tree as it was if and only if no exception fell between a rename and its note and every directory it would have made above a target was already there |
| `SourceTransition.ParentsMadeExactly` | scripts/internal/rdna4/manage_rdna4_source_transition.py:737-740 | which directories above targets a commit makes: those of the cases up to the first that does not go through |
| `SourceTransition.StrandedCase` | scripts/internal/rdna4/manage_rdna4_source_transition.py:737-740 | a concrete failed commit that leaves its case at the target |
| `SourceTransition.ParentLeftBehind` | scripts/internal/rdna4/manage_rdna4_source_transition.py:737-740 | a concrete failed commit that rolls back and leaves the directory made above its target |
| `SourceTransition.FailureLeavesNoReceipt` | scripts/internal/rdna4/manage_rdna4_source_transition.py:753-758 | after a failure the receipt exists exactly when the exception came after it was put in place |
| `SourceTransition.ReceiptWithoutCase` | scripts/internal/rdna4/manage_rdna4_source_transition.py:753-758 | a concrete failed commit that rolls its case back and leaves the receipt |
| `SourceTransition.SuccessMovesAll` | scripts/internal/rdna4/manage_rdna4_source_transition.py:730-758 | if it returns, every target was free, holds what was staged and recorded, all checks passed, nothing else changed and the receipt is there |
| `PeakCalibration.MeasureHeldOut` | scripts/internal/rdna4/run_rdna4_resource_peak_calibration.py:1155-1188 | when it fails, and otherwise the log is the schedule and each probe holds the batches of its own log entries |
| `PeakCalibration.RoundOrderPermutes` | scripts/internal/rdna4/run_rdna4_resource_peak_calibration.py:1164-1168 | each round's order is a permutation of the probes |
| `PeakCalibration.StandsAt` | scripts/internal/rdna4/run_rdna4_resource_peak_calibration.py:1164-1168 | the one position at which a round puts a probe |
| `PeakCalibration.MeasuredOnce` | scripts/internal/rdna4/run_rdna4_resource_peak_calibration.py:1164-1184 | each (round, probe) pair is measured exactly once, by one known call |
| `PeakCalibration.EachProbeCollected` | scripts/internal/rdna4/run_rdna4_resource_peak_calibration.py:1155-1188 | every probe collects one batch per round, in round order |
| `PeakCalibration.BalancedExactly` | scripts/internal/rdna4/run_rdna4_resource_peak_calibration.py:1164-1168 | for any number n of probes and any number of rounds, every probe takes every position equally often if and only if there is one probe, or no round, or n is odd and the rounds are whole blocks of 2n |
| `PeakCalibration.EvenKeepsParity` | scripts/internal/rdna4/run_rdna4_resource_peak_calibration.py:1164-1168 | for even n, over any number of rounds, a probe never takes a position of the opposite parity |
| `PeakCalibration.GatherTuning` | scripts/internal/rdna4/run_rdna4_resource_peak_calibration.py:1056-1076 | when tuning fails, and otherwise the log is the alternating schedule and each candidate holds the batches of its own log entries |
| `PeakCalibration.TunedAt` | scripts/internal/rdna4/run_rdna4_resource_peak_calibration.py:1061-1065 | the one position at which a tuning round puts a candidate |
| `PeakCalibration.TuningBalancedExactly` | scripts/internal/rdna4/run_rdna4_resource_peak_calibration.py:1060-1065 | candidates take each position as often as its mirror image if and only if there is one candidate or the number of rounds is even |
| `PeakCalibration.SelectTuned` | scripts/internal/rdna4/run_rdna4_resource_peak_calibration.py:1086-1093 | the highest score wins, the smallest candidate on an exact tie, and no candidates is an error |
| `PeakCalibration.TunedIgnoresOrder` | scripts/internal/rdna4/run_rdna4_resource_peak_calibration.py:1086-1093 | the choice does not depend on the order of the candidates |
| `QualifiedGates.QualificationRoot.Verify` | scripts/internal/rdna4/run_qualified_rdna4_resource_peak_calibration.py:443-478 | succeeds exactly when every gate up to the stage is present, valid, of this identity, linked by hash and intact, and then lists the gates static, canary, full in that order |
| `QualifiedGates.QualificationRoot.CollectReceipts` | scripts/internal/rdna4/run_qualified_rdna4_resource_peak_calibration.py:251-291 | evidence is reused where it exists and measured where not, up to the first failure |
| `QualifiedGates.QualificationRoot.WriteGate` | scripts/internal/rdna4/run_qualified_rdna4_resource_peak_calibration.py:406-440 | refuses when the parent's hash no longer matches; otherwise publishes one valid gate or raises |
| `QualifiedGates.QualificationRoot.Run` | scripts/internal/rdna4/run_qualified_rdna4_resource_peak_calibration.py:356-403 | what one qualification run does to the root and returns, for every outcome of its tools |
| `QualifiedGates.RunSafe` | scripts/internal/rdna4/run_qualified_rdna4_resource_peak_calibration.py:356-440 | whatever a run does, it keeps the chain sound and rewrites no gate and no evidence |
| `QualifiedGates.ReachedIsSane` | scripts/internal/rdna4/run_qualified_rdna4_resource_peak_calibration.py:356-478 | over any history from an empty root each gate holds the hash of its parent on disk, shares its identity and matches its files, and every probe of a canary or full gate has passing evidence for its subject, all on one device |
| `QualifiedGates.NeverRewritten` | scripts/internal/rdna4/run_qualified_rdna4_resource_peak_calibration.py:356-440 | over any history no gate and no evidence file is ever rewritten or removed |
| `QualifiedGates.VerifiesExactly` | scripts/internal/rdna4/run_qualified_rdna4_resource_peak_calibration.py:443-478 | a reached root verifies for a stage and an identity if and only if the stage's gate exists, was issued under that identity, and the canary list is in probe order |
| `QualifiedGates.VerifiedMeans` | scripts/internal/rdna4/run_qualified_rdna4_resource_peak_calibration.py:443-478 | for any root, reached or not: a verification succeeds if and only if each gate up to the stage is of its stage, identity and probes, has receipts for each probe once, holds the parent gate that is on disk, and all its files are as recorded |
| `QualifiedGates.TamperedFileFails` | scripts/internal/rdna4/run_qualified_rdna4_resource_peak_calibration.py:443-478 | altering or removing a file that a verified gate names makes the verification fail |
| `QualifiedGates.ReplacedParentFails` | scripts/internal/rdna4/run_qualified_rdna4_resource_peak_calibration.py:443-478 | so does replacing an earlier gate by any other one |
| `QualifiedGates.BoundToIdentity` | scripts/internal/rdna4/run_qualified_rdna4_resource_peak_calibration.py:356-403 | once the static gate exists a run under any other identity raises and changes nothing |
| `QualifiedGates.SuccessVerifies` | scripts/internal/rdna4/run_qualified_rdna4_resource_peak_calibration.py:356-478 | what a successful run returns is on disk and verifies with everything before it |
| `QualifiedGates.GpuRunReturnsExactly` | scripts/internal/rdna4/run_qualified_rdna4_resource_peak_calibration.py:251-403 | a canary or full run without a gate returns one if and only if its parents verify, the GPU is entered with locked clocks or unlocked work allowed, on the target and on the recorded device, and left, every probe has passing evidence or passes now, the probes are listed once each, and the gate is written |
| `QualifiedGates.StaticRunReturnsExactly` | scripts/internal/rdna4/run_qualified_rdna4_resource_peak_calibration.py:356-440 | a static run without a gate returns one if and only if everything compiled, the probes are listed once each and the gate is written |
| `QualifiedGates.RepeatReturnsExactly` | scripts/internal/rdna4/run_qualified_rdna4_resource_peak_calibration.py:356-403 | a run that finds its gate changes nothing and returns that gate if and only if it is of this identity, in probe order, and the GPU is entered on the recorded device |
| `QualifiedGates.ReturnedGatePassed` | scripts/internal/rdna4/run_qualified_rdna4_resource_peak_calibration.py:251-292 | a returned canary or full gate means that every probe of the stage has passing evidence on disk for this subject and device, and that new evidence is of a sample batch that passed |
| `QualifiedGates.GatePassed` | scripts/internal/rdna4/run_qualified_rdna4_resource_peak_calibration.py:251-292 | in every reached root each probe of a canary or full gate has passing evidence for the gate's own subject |
| `QualifiedGates.OneDevice` | scripts/internal/rdna4/run_qualified_rdna4_resource_peak_calibration.py:322-339 | all canary and full evidence records one device |
| `QualifiedGates.CanaryInOrder` | scripts/internal/rdna4/run_qualified_rdna4_resource_peak_calibration.py:117-127 | canary names listed in the order of the full list select themselves |
| `Percentile.PercentileInterpolates` | scripts/internal/solar/l3a_measure.py:53-64 | at the fraction of rank k + t the percentile lies the part t of the way from the k-th to the next order statistic |
| `Percentile.PercentileInRange` | scripts/internal/solar/l3a_measure.py:53-64 | for a fraction in [0, 1] the percentile lies between the least and the greatest sample |
| `Percentile.PercentileGrowsWithFraction` | scripts/internal/solar/l3a_measure.py:53-64 | it never decreases as the fraction grows |
| `Percentile.PercentileIgnoresOrder` | scripts/internal/solar/l3a_measure.py:53-64 | it ignores the order of the samples, for every fraction |
| `Percentile.PercentileGrowsWithSamples` | scripts/internal/solar/l3a_measure.py:53-64 | it never decreases when samples are raised |
| `Percentile.OrderedMonotone` | scripts/internal/solar/l3a_measure.py:53-64 | raising samples raises every order statistic |

## Left out

- GPU work, compilers, profilers, clocks, subprocesses and signal handlers: only their outcomes appear, as script parameters.
- Floating point: percentiles, scores, seconds and clock readings are reals, matrices hold exact integers; rounding and the numerical verification of candidates are not modelled.
- Parsing: syntax trees, the resolution of relative imports and the text scan for repository tools enter as data.
- Python's recursion limit, which bounds the depth of the component search on very long import chains.
- Tarjan.Search.Begin, Tarjan.Search.LookAt, Tarjan.Search.Finish: the one recursive `visit` is split into these three steps; the statements and their order are the same.
- OrderPlan.CountIsExact: for the 2 to 12 leaves that the code admits.
- OrderSearch.OrderExecutor.Run: a candidate is named by its tree where the code uses a content identifier of it; resumed candidates keep their tree and cost and were not left unrun, as sealing and resuming demand.
- ScanExecution.ScanExecutor.Run: terminations are placed between points, inside an attempt and after the loop; resumed points keep index and identifier and carry their result, as the resume code demands; the worker process itself is one outcome per point.
- CaseShapes.ShapesDistinct: the transformer's sequence tables are literals and are not modelled; one of them repeats a length.
- FreezeProtocol.CorpusRoot.Register: copying the policy file is one atomic write here; what the policy admits, the contracts of a design, its manifest and the registry are reduced to whether they hold and can be written.
- FreezeProtocol: file contents are opaque; qualification evidence and provenance records are not part of the root; a role repair exists in the file but no command calls it.
- FreezeProtocol.PromotedDistinct: a promoted identifier is a pair of source number and case identifier where the code joins the two into one string.
- SourceTransition.Workspace.RollBack: the renames of the rollback itself are assumed to succeed, and source and target paths to be distinct; the staged path of a case is looked up beforehand.
- SolarScheduler.RunParallel: cases already submitted when a failure is seen still finish in their threads; their effects are not part of the trace.
- CollectionRuns.Registry.Register: one registration at a time; inventories and blobs are reduced to whether storing them succeeds.
- QualifiedGates.QualificationRoot.Run: one run at a time, so the static lock is not modelled; artifact sizes, receipt inputs and the constant task name are left out of the gate, and the probes' binaries are opaque bytes.
- PeakCalibration.SelectTuned: the score of a candidate, the median of its batch medians, is a parameter; it is not computed from the gathered batches.
- Argument parsing, printing, documentation and pattern-driven lint scripts, corpus authoring, schema tables, small lookups and file-tree comparisons: they would only add easy members.
