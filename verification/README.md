# A verified model of drasi-core

This project models three protocols of drasi-core and proves what they keep.

1. **Lowering of GQL queries.** The GQL front end turns a query (MATCH..WHERE groups, LET, YIELD and FILTER
   statements, RETURN, GROUP BY, NEXT) into a list of query parts that the engine runs one after the other.
   `Lowering.dfy` holds that pass as the loops the source has, each proved against a function. `Engine.dfy` says
   what running the parts does to a table of rows. `Direct.dfy` says, independently of parts and scopes, what each
   clause means. The main theorem is `Query.LoweringPreservesMeaning`: for every accepted, well-scoped query and
   every engine, the parts produce the rows of the direct meaning, in the same order. Well-scopedness
   (`Query.QueryScoped`) speaks about the clauses of the query only: names are bound where they are read, and nothing
   that matters reads a name the parts have lost.
2. **The merged graph schema.** `Schema.dfy`, `GraphSchema.dfy` and `Inspection.dfy` hold the schema object that
   sources and queries are folded into. Every step is a list of facts (`Contributions.dfy`). The outcome is
   characterised by the facts alone, and by what is listed alone (`Listings.dfy`), and the order in which the sources are listed does not matter if and only if no two sources disagree.
3. **Component lifecycle and permanent shutdown.** `Lifecycle.dfy` has the stop pass, `Shutdown.dfy` the protocol
   that lets any number of cancellable callers share one teardown, as a state machine whose invariants hold in
   every run, and `Teardown.dfy` joins the two: without panics every schedule converges. `Updates.dfy` has the
   batching update loop.

Expression evaluation, accumulators and path solving stay abstract. An `Engine` supplies them, and the theorems
quantify over every engine that obeys `LawfulEval`: evaluation is a function of the expression and the row,
identifiers are looked up, aliases are seen through, the position of a call in the query text does not matter, and
only free variables are read. `LawfulMatch` says that matching keeps the bindings of a row and binds the variables
of the pattern. `Engine.SymbolicIsLawful` gives an engine that obeys both and in which every pattern matches.

## What turned out not to hold

- An explicit GROUP BY that lists more keys than RETURN shows is lowered to two parts. The second part reads the
  RETURN items back by name. `GroupBy.GroupByExact` gives the exact condition under which this keeps the meaning.
  It fails for an unaliased item that is not an identifier (the parts expected by the repository's own test,
  query-gql/src/tests.rs:4518-4640, are of this kind), for a key whose column name collides with a returned one,
  and for a RETURN without any aggregate, where equal rows are not merged.
- The scope that the source starts from holds node variables only, so the parts lose relationship variables. A LET
  directly after MATCH, or a YIELD with an alias, still reads them, but after a first LET or FILTER they are gone for
  all later clauses, together with what is computed from them, and that FILTER cannot read them either.
  `LostVariables.LostVariablesExact` is the exact condition. `MATCH (a)-[r]->(b) FILTER r.since RETURN a` returns no row
  where it should return one, and `MATCH (a)-[r]->(b) LET x = a.x RETURN r`, like the same with `FILTER a.x`, returns a
  wrong value for `r`. An unaliased `YIELD r` is rejected as not in scope although MATCH has bound `r`.
- An aggregate replaces a plain column of the same name that is written after it, in RETURN and in YIELD
  (`Projections.ImplicitGroupingExact`).
- Unaliased items of one kind share one output column, so `RETURN a + b, a * b` shows only the second
  (`Statements.UnaliasedItemsCollide`).
- The search for aggregates does not look below every kind of expression, so `count(x).y` is not recognised.
  `Aggregates.SearchIsExact` says when the search is right, and `HiddenAggregates.HiddenAggregatesExact` that RETURN
  and YIELD mean what they say exactly when it is.
- The documentation of `shutdown` says that a failed teardown keeps ownership of the components and can be retried
  (lib/src/lib_core.rs:593-594). That holds when stopping fails. It does not hold for panics. A teardown that panics
  after it has begun to release the index handles is followed by another that releases them again
  (`Shutdown.HandlesReleasedOnce` is exact). A teardown that panics while it drops the runtimes it has taken out of the
  graph leaves none behind although it has not completed (`Shutdown.CrashLosesRuntimes`), and later teardowns then
  complete if and only if no component is due for a stop (`Teardown.LostRuntimesExact`). A reaction in Error whose stop
  is reported late is due, so shutdown never completes (`Teardown.LateReactionBlocksShutdown`); the update loop that
  would apply the report has been aborted before the runtimes are taken (lib/src/lib_core.rs:662-668).
- Schema merging keeps the first value it sees for a type, description, from or to, so with contradicting sources
  the outcome depends on the order the sources are listed in (`Inspection.ListingOrderIsIrrelevant` is exact,
  `Inspection.ContradictingSources` an example).

The repository names the standard it follows "ISO 9074:2024". GQL is ISO/IEC 39075:2024, and sections are cited from
that.

## Model

| member | source | states |
|---|---|---|
| `Query.LoweringPreservesMeaning` | query-gql/src/lib.rs:420-473 | Running the emitted parts from the empty row gives exactly the rows, in order, of the clause-by-clause meaning, for every accepted, well-scoped query and every lawful engine; and where the search finds every aggregate, of the meaning that counts aggregates wherever they occur |
| `Query.NextPreservesMeaning` | query-gql/src/lib.rs:448-473 | NEXT is composition: the one concatenated list of parts equals running each segment, directly, on the output of the one before, for any number of segments |
| `Query.SegmentPreservesMeaning` | query-gql/src/lib.rs:543-591 | The parts of one segment equal its direct meaning, whichever of the statement and RETURN paths take the MATCH and WHERE clauses |
| `Query.FlatteningPreservesMeaning` | query-gql/src/lib.rs:551-556 | Moving all patterns before all conditions keeps the meaning of any sequence of MATCH..WHERE groups |
| `Query.StartingScopeIsNodes` | query-gql/src/lib.rs:670-690 | The starting scope names exactly the node variables of the patterns, each once, and no relationship variable |
| `Query.MatchBinds` | query-gql/src/lib.rs:674-687 | A name is in the starting scope exactly when some pattern names a node so, at its start or anywhere on its path, and bound by MATCH exactly when some node or relationship has it |
| `Query.StartingScopeIsInOrder` | query-gql/src/lib.rs:671-689 | Further patterns only add behind: the scope is in order of first appearance |
| `Statements.StatementsPreserveMeaning` | query-gql/src/lib.rs:593-668 | The rows left by the parts of any accepted, well-scoped list of LET, YIELD and FILTER agree with the direct meaning on every visible name that is not lost |
| `Statements.ScopeIsVisible` | query-gql/src/lib.rs:606-664 | The scope the lowering carries from statement to statement names exactly what is visible in the query there |
| `Query.SegmentOutput` | query-gql/src/lib.rs:573-590 | On every RETURN and GROUP BY path the last part of a segment outputs exactly the columns the segment returns |
| `Statements.ProjectionRowKeys` | core/src/evaluation/parts/mod.rs:626-676 | Every row a part outputs has exactly the columns its projection names |
| `Statements.UnaliasedItemsCollide` | core/src/evaluation/expressions/mod.rs:111-135 | Unaliased items of one kind, or with one function name or property key, share a column and only the last is shown |
| `LostVariables.LostVariablesExact` | query-gql/src/lib.rs:593-690 | For an accepted query without NEXT that reads bound names and groups by nothing lost: it keeps its meaning for every lawful engine if and only if no FILTER and no RETURN reads a relationship variable after a first LET or FILTER, or what was computed from a lost one |
| `LostVariables.SegmentShows` | query-gql/src/lib.rs:593-690 | One engine and one row show all of it: the meaning is one row with every column true, the parts give no row if a FILTER reads a lost name, and otherwise exactly the columns that read one are not true |
| `LostVariables.LetLosesRelationship` | query-gql/src/lib.rs:607-618 | For every pattern, MATCH m LET x = e RETURN v is accepted and loses every relationship variable v other than x |
| `LostVariables.FilterLosesRelationship` | query-gql/src/lib.rs:650-663 | For every pattern and condition, MATCH m FILTER c RETURN v is accepted and loses every relationship variable v |
| `LostVariables.RelationshipIsLost` | query-gql/src/lib.rs:607-663 | Two concrete accepted queries, one with LET and one with FILTER, that return a wrong value for a relationship |
| `LostVariables.YieldOfRelationshipIsRejected` | query-gql/src/lib.rs:627-632 | An unaliased YIELD of a variable that is no node variable, directly after MATCH, is rejected as not in scope |
| `LostVariables.FilterOnRelationshipLosesRows` | query-gql/src/lib.rs:650-690 | A concrete accepted query with a condition on a relationship: its parts return no row, its meaning has one |
| `Projections.ImplicitGrouping` | query-gql/src/lib.rs:828-850 | RETURN and YIELD without GROUP BY show each row, or one row per distinct tuple of the plain items when some item aggregates, if no plain column is lost behind an aggregate of the same name |
| `Projections.ImplicitGroupingExact` | query-gql/src/lib.rs:828-850 | That condition is exact: without it some engine and row show the aggregate in place of the plain column |
| `Projections.ProjectSame` | core/src/evaluation/parts/mod.rs:626-676 | A projection depends only on the free variables of its columns and keys |
| `Engine.GroupsAreClasses` | core/src/evaluation/parts/mod.rs:647-674 | Grouping is a partition: every group is exactly the rows with its key and no two groups share a key |
| `Engine.GroupsCover` | core/src/evaluation/parts/mod.rs:647-674 | Every row is in some group |
| `Engine.SymbolicIsLawful` | core/src/evaluation/expressions/mod.rs:111-135 | An engine that names each value by how it was computed and in which every pattern matches obeys the laws of evaluation and of matching, so the theorems are about something and two different computations can be told apart |
| `GroupBy.GroupByPreservesMeaning` | query-gql/src/lib.rs:692-803 | Under the condition, the one or two parts of an explicit GROUP BY show one row per distinct tuple of resolved keys with the RETURN values of that group |
| `GroupBy.GroupByExact` | query-gql/src/lib.rs:717-812 | The condition is exact: an accepted GROUP BY keeps its meaning for every engine and all rows if and only if RETURN has an aggregate and either all keys are returned or every item can be read back |
| `GroupBy.AcceptedItemsAreGroupConstants` | query-gql/src/lib.rs:709-715 | What the missing-key check is for: in an accepted query every plain RETURN item has the same value on all rows with the same keys |
| `GroupBy.FullKeyIsFirst` | query-gql/src/lib.rs:730-739 | A key is replaced by the first matching RETURN item and kept if none matches |
| `GroupBy.UnaliasedSubsetOfKeysLosesMeaning` | query-gql/src/lib.rs:729-747 | A concrete accepted query with an unaliased returned key, and rows on which its parts do not show its groups |
| `GroupBy.CollidingKeyLosesMeaning` | query-gql/src/lib.rs:729-747 | A concrete accepted query whose unreturned key overwrites a returned column, and rows on which this shows |
| `Rejection.RejectionIsExact` | query-gql/src/lib.rs:602-664 | Statement lowering fails if and only if some YIELD item is unaliased and complex or not in scope at its place, and the first such item decides the error |
| `QueryRejection.QueryRejectionIsExact` | query-gql/src/lib.rs:438-473 | A query is rejected if and only if some segment has a bad YIELD item at its scope, a RETURN item without aggregate for which no GROUP BY key stands, or before a NEXT an output without a name, and the first of these in source order is the error |
| `QueryRejection.MatchingIsExact` | query-gql/src/lib.rs:750-767 | A key stands for an item exactly when it is the alias of the item or equals it up to the position of an outer call; an aliased key only for that very item |
| `QueryRejection.NamedBeforeNext` | query-gql/src/lib.rs:495-541 | In an accepted query every RETURN item before a NEXT is aliased or an identifier |
| `Rejection.ScopeIsOutput` | query-gql/src/lib.rs:593-668 | The scope names exactly the columns the last emitted part outputs, also when aggregates move behind the keys |
| `Rejection.FilterPartsDoNotGroup` | query-gql/src/lib.rs:650-663 | In every accepted query each part that carries a FILTER condition shows its rows one by one and never groups them |
| `QueryRejection.ScopeAfterNext` | query-gql/src/lib.rs:452-467 | The scope a segment starts from after NEXT names exactly what the segment before returns |
| `Rejection.ClausesAreConserved` | query-gql/src/lib.rs:543-591 | Across all parts no pattern, WHERE or FILTER is lost, repeated or reordered, and patterns sit in the first part only |
| `Rejection.SegmentPartsAreCounted` | query-gql/src/lib.rs:543-668 | One part per statement, one more if a FILTER comes first while MATCH or WHERE is pending, and one for RETURN or two when GROUP BY has a key that is not returned |
| `Aggregates.ContainsAggregatingFunction` | query-gql/src/lib.rs:852-872 | The explicit-stack search ends and decides whether an aggregating call is reachable through the children |
| `Shapes.SearchByShape` | query-ast/src/ast.rs:267-279 | What that means for each kind of expression: the call itself, or below one of its operands, both sides of an operator, every argument, scrutinee, both sides of every branch, otherwise, elements, fields, list and filter |
| `Shapes.OccursAnywhere` | query-ast/src/ast.rs:256-265 | Occurring, which the search is compared with, is occurrence in any part of the expression, down to quoted expressions in object literals |
| `Shapes.FreeVarsAreRead` | core/src/evaluation/expressions/mod.rs:426-432 | The free variables that the laws of evaluation speak of are the variables read, with the item of an iterator bound in its filter and mapping |
| `Aggregates.SearchIsExact` | query-ast/src/ast.rs:373-390 | An aggregating call occurs anywhere if and only if the search finds one or a position it skips hides one |
| `Aggregates.DereferencedAggregateIsMissed` | query-ast/src/ast.rs:373-390 | An aggregate under a property access is never found |
| `HiddenAggregates.HiddenAggregatesExact` | query-gql/src/lib.rs:828-872 | With distinct column names, and aggregates counted wherever they occur, the projection clause keeps its meaning for every engine and all rows if and only if the search finds an aggregate in every item that has one |
| `Lowering.IntoProjectionClause` | query-gql/src/lib.rs:828-850 | The loop splits items into keys and aggregates in order, the function `ImplicitGrouping` gives a meaning to |
| `Lowering.GetScopeFromProjection` | query-gql/src/lib.rs:495-541 | The loop returns the output names, or the error of the first item without one |
| `Lowering.AddNodeNames` | query-gql/src/lib.rs:675-686 | Adds the named nodes of one pattern that have not been seen |
| `Lowering.GetStartingScope` | query-gql/src/lib.rs:670-690 | The loops compute the scope of `StartingScopeIsNodes` |
| `Lowering.ProjectLet` | query-gql/src/lib.rs:607-612 | The loop extends projection and scope together, all bindings reading the old scope |
| `Lowering.ProjectYield` | query-gql/src/lib.rs:620-641 | The loop builds projection and new scope, or stops at the first bad item |
| `Lowering.BuildPartsForStatements` | query-gql/src/lib.rs:593-668 | The loop computes the parts that `StatementsPreserveMeaning` is about, with the pending clauses going to the first part |
| `Lowering.HandleExplicitGroupBy` | query-gql/src/lib.rs:692-748 | The loops compute the parts or the missing-key error that `GroupByExact` is about |
| `Lowering.BuildQueryParts` | query-gql/src/lib.rs:543-591 | Computes the parts of a segment or its first error |
| `Lowering.BuildQuery` | query-gql/src/lib.rs:438-473 | The NEXT loop computes the parts of the whole query or its first error |
| `Schema.MergeProperties` | lib/src/schema.rs:228-243 | The list stays sorted with distinct names, and each name keeps its first known type and description, also when the incoming list repeats a name |
| `Schema.SortedUnique` | lib/src/schema.rs:242-243 | A sorted list is determined by what it says about each name |
| `Schema.LessDecides` | lib/src/schema.rs:242-243 | In the order of names the first differing character decides and a proper prefix comes first |
| `GraphSchemas.OutcomeDescribes` | lib/src/schema.rs:140-197 | After any sequence of merges, marks and records the schema holds exactly the labels, sources, queries and properties reported, with first values |
| `GraphSchemas.DescriptionIsUnique` | lib/src/schema.rs:140-197 | Equal facts with equal first values give the same schema |
| `GraphSchemas.OrderIndependence` | lib/src/schema.rs:140-243 | A list of merge steps gives the same schema in every order if and only if no two steps give different first values for a type, description, from or to |
| `GraphSchemas.MergingAgainChangesNothing` | lib/src/schema.rs:140-243 | Merging what is already merged changes nothing, even among contradicting sources |
| `Inspection.GraphSchema.MergeSourceSchema` | lib/src/schema.rs:140-170 | The new schema is the old one with the facts of the source applied |
| `Inspection.GraphSchema.MarkQueriedNodes` | lib/src/schema.rs:173-181 | The new schema is the old one with one queried-by fact per node label |
| `Inspection.GraphSchema.MarkQueriedRelations` | lib/src/schema.rs:184-192 | The same for relation labels |
| `Inspection.GraphSchema.RecordSourceWithoutSchema` | lib/src/schema.rs:195-197 | Only the set of sources without schema grows |
| `Inspection.GetGraphSchema` | lib/src/inspection.rs:155-193 | On the fields of the returned schema and the two lists: a source is without schema exactly when it is listed, is not the component graph and failed, had none or an empty one; a label is there exactly when listed or queried; its sources, queries and property names are exactly those that list, query and declare it; and types, descriptions and ends are the first known in listing order |
| `Listings.InspectionReflects` | lib/src/schema.rs:140-243 | The same for the outcome of the merge steps, label by label |
| `Inspection.ModelDeterminesSchema` | lib/src/schema.rs:228-243 | Two schema objects with the same facts are identical down to the order of every property list |
| `Inspection.ListingOrderIsIrrelevant` | lib/src/inspection.rs:160-190 | Every order of listing the sources and queries gives the same schema if and only if no two sources give different first values for a type, description, from or to; a source may contradict itself |
| `Inspection.ContradictingSources` | lib/src/inspection.rs:160-179 | Two concrete sources whose listing order changes the schema |
| `Inspection.SelfContradictingSource` | lib/src/schema.rs:228-243 | A source that repeats a property with another type agrees with one that has its first type |
| `Lifecycle.StopComponents` | lib/src/lifecycle.rs:194-261 | The loop attempts the eligible components in order and reports the failures, whatever the environment does between iterations |
| `Lifecycle.ExhaustiveStop` | lib/src/lifecycle.rs:196-247 | Each component eligible at its turn is attempted exactly once, in order, whatever failed before, and no other |
| `Lifecycle.TurnsAreExact` | lib/src/lifecycle.rs:200-241 | A turn is taken exactly by a source, query or reaction that is still there and may go to Stopping, or in a permanent pass by a reaction in Error |
| `Lifecycle.TransitionsByTarget` | lib/src/component_graph/graph.rs:1236-1273 | The lifecycle read by target: from where each status can be entered, and that Added and Removed cannot |
| `Lifecycle.PermanentAddsFailedReactions` | lib/src/lifecycle.rs:208-219 | A permanent pass attempts what an ordinary one does, plus exactly the reactions in Error |
| `Lifecycle.FailuresAreExact` | lib/src/lifecycle.rs:243-261 | Ok if and only if no attempt failed, and the error lists exactly the failed attempts, each once, in the order of the attempts |
| `Lifecycle.StopOrderFollowsTopology` | lib/src/lifecycle.rs:168-175 | Attempts in reverse topological order stop every dependent before what feeds it |
| `Lifecycle.StopOrderFollowsKinds` | lib/src/lifecycle.rs:176-190 | So does the fallback by kind, when only sources feed queries and only queries feed reactions |
| `Lifecycle.KindOrderListsAll` | lib/src/lifecycle.rs:179-189 | The fallback order has every reaction, query and source as often as listed, and nothing else |
| `Lifecycle.PassIsStopComponents` | lib/src/lifecycle.rs:196-247 | A pass over components with a finite number of faults is the loop in the environment it creates |
| `Lifecycle.PassUsesFaults` | lib/src/lifecycle.rs:221-246 | Conservation, while the runtimes are in the graph: faults before a pass are faults after it plus its failures |
| `Lifecycle.QuietIsLeftAlone` | lib/src/lifecycle.rs:211-219 | A component Added, Stopping, Stopped, Removed or Reconfiguring is left as it is, and the pass does to all others what it would do without it, with as many failures |
| `Lifecycle.FailedStopIsDueAgain` | lib/src/managers/lifecycle_helpers.rs:200-209 | A component whose stop failed is in Error and due in the next pass |
| `Lifecycle.CleanPassStopsAll` | lib/src/lifecycle.rs:249-251 | A pass without failure leaves nothing starting or running, no source or query in Error, and a reaction in Error only while the report of its successful stop is late |
| `Lifecycle.RetryConverges` | lib/src/lifecycle.rs:196-261 | While the runtimes are in the graph, some pass among the first faults + 1 is clean, all before it fail, and it leaves everything stopped in the sense of `CleanPassStopsAll` |
| `Lifecycle.RetryWithoutRuntimes` | lib/src/lifecycle.rs:221-246 | Once the runtimes are gone no pass changes anything, and each fails if and only if some component is due |
| `Shutdown.StepKeepsInv` | lib/src/lib_core.rs:609-682 | Every step of callers, teardown, panics, cancellations and starts keeps the protocol invariant |
| `Shutdown.RunKeepsInv` | lib/src/lib_core.rs:609-682 | The invariant holds in every state of every run |
| `Shutdown.ShutdownIsSafe` | lib/src/lib_core.rs:609-682 | In every interleaving at most one teardown is live, the runtimes are all in the graph or, once a teardown has taken them, all gone, nothing is released or taken without a clean stop pass, each teardown is joined once, and Ok is returned only after completion |
| `Shutdown.HandlesReleasedOnce` | lib/src/lib_core.rs:670-678 | After a teardown has begun to release, some run has a later one release, or take, again if and only if the first has not completed |
| `Shutdown.EarlierReleaseCrashed` | lib/src/lib_core.rs:644-678 | A teardown that released and is followed by another has panicked |
| `Shutdown.OwnershipRetained` | lib/src/lib_core.rs:676-678 | Between attempts the runtimes are owned unless a teardown panicked after taking them, and then none is left |
| `Shutdown.CrashLosesRuntimes` | lib/src/lib_core.rs:644-678 | From any ready state a run exists in which a panic leaves no runtime although teardown has not completed and the next call starts another |
| `Shutdown.TaskIsJoinedNotRespawned` | lib/src/lib_core.rs:610-627 | Until some call joins the teardown in the slot, no step, cancellation included, spawns another |
| `Shutdown.CancelLeavesTeardown` | lib/src/lib_core.rs:610-636 | A caller can be cancelled at its await in every reachable state, which frees the lock and leaves teardown, slot and flag alone; a queued caller can leave too |
| `Shutdown.CancelledCallIsReplaced` | lib/src/lib_core.rs:591-593 | After that a new call gets the lock, waits for the same teardown and returns its outcome, and none is spawned |
| `Shutdown.NoCallIsStuck` | lib/src/lib_core.rs:609-637 | From every reachable state a call that has neither returned nor been cancelled can return, without cancelling or crashing anything |
| `Shutdown.FailureCanBeRetried` | lib/src/lib_core.rs:611-626 | While teardown has not completed and none is pending, the next call starts a new attempt with the runtimes that are left |
| `Shutdown.CompletionIsFinal` | lib/src/lib_core.rs:479-485 | After completion nothing is spawned again and every later start is rejected, in every run |
| `Shutdown.StartIsExact` | lib/src/lib_core.rs:479-512 | A start goes through exactly when the server is neither shut down nor running, and sets it running |
| `Shutdown.StartAfterCrash` | lib/src/lib_core.rs:644-656 | After a panic before the drop guard exists a start is rejected until the join, after a later panic it is not |
| `Shutdown.CallCompletes` | lib/src/lib_core.rs:609-682 | An undisturbed call returns Ok exactly when its stop pass is clean, otherwise it leaves the server ready for another call |
| `Teardown.ShutdownConverges` | lib/src/lib_core.rs:592-594 | With finitely many stop failures, calls one after the other fail at most that often and then succeed, with everything stopped and all runtimes released |
| `Teardown.EveryScheduleConverges` | lib/src/lib_core.rs:609-682 | In every run without panics, with any callers, cancellations and interleaving: at most faults + 1 teardowns are spawned, at most faults calls return an error, all teardowns but the last fail, the last can only succeed, and from every state reached it still can |
| `Teardown.LostRuntimesExact` | lib/src/lib_core.rs:676-678 | After a panic while dropping the runtimes teardown can still complete if and only if no component was left due for a stop |
| `Teardown.LateReactionBlocksShutdown` | lib/src/reactions/manager.rs:797-818 | A reaction in Error whose stop is reported late is such a component: no later run without panics completes |
| `Updates.ApplyBatch` | lib/src/lib_core.rs:354-360 | The loop over a batch applies the updates in order and collects exactly their events |
| `Updates.UpdateIsExact` | lib/src/component_graph/graph.rs:509-545 | An update changes the graph exactly when the component is known and may go to the new status, changes that status only, and is reported with the kind of the component unless it is the root |
| `Updates.BatchingRefinesSingles` | lib/src/lib_core.rs:340-376 | However sending and receiving interleave and batches are cut, graph and events are those of the updates applied singly in the order sent |
| `Updates.EventsTraceLifecycle` | lib/src/component_graph/graph.rs:193-210 | The events of a component are a legal path of its lifecycle from its first to its current status, and its kind never changes |

## Left out

- The GQL and Cypher grammars: queries start as parsed clauses.
- The Cypher lowering, which builds one part per clause without scopes or rewriting. Its aggregate search is the same loop (query-cypher/src/lib.rs:461-481).
- Incremental evaluation: how the engine keeps groups and accumulators up to date under changes. Parts are run on a whole table of rows.
- Path solving and OPTIONAL MATCH: matching is a parameter that extends a row, clause by clause.
- Evaluation errors as failures: an error is one of the values an expression may have. Functions with effects on the context are not modelled.
- Query.LoweringPreservesMeaning: does not cover LET bindings that contain aggregates, whose meaning is not a function of one row; RETURN items of a GROUP BY that share a column name, which ISO/IEC 39075:2024 section 14.11 forbids; a RETURN, YIELD or GROUP BY that fails the exact condition proved for it; queries in which a FILTER, a RETURN or what a YIELD or RETURN groups by reads a relationship variable, or a value computed from one, that a first LET or FILTER has lost, such as `MATCH (a)-[r]->(b) LET x = a.x RETURN r`, for which the exact condition is `LostVariables.LostVariablesExact`; and expressions that read names bound nowhere, which the lowering does not reject.
- LostVariables.LostVariablesExact: does not cover a lost name among the keys of a YIELD or RETURN with aggregates, which may or may not change the groups depending on what the rows before can be, or queries with NEXT, in which a later segment may drop a wrong column again.
- Statements.StatementsPreserveMeaning: has the same limits for LET, YIELD and FILTER.
- GroupBy.GroupByPreservesMeaning: groups exist only for existing rows, so GROUP BY () over no rows shows no row.
- Lifecycle.StopOrderFollowsTopology: takes the topological sort of the graph library as given.
- Lifecycle.StopOrderFollowsKinds: takes as given that no id is of two kinds and that feeds run from sources to queries to reactions.
- Lifecycle.RetryConverges: needs that the runtimes are in the graph, that each component's stop fails only finitely often and that no component is started in between.
- Shutdown.ShutdownIsSafe: shared state is modelled as values and steps run between awaits, so memory ordering and fairness of locks are not captured, and nothing is said about the running flag when a start is still in flight.
- Teardown.LostRuntimesExact: takes statuses to change through stop passes only, since the update loop is aborted by then; a start in between is not covered.
- `stop`, component start and restart, dependency bootstrap, log messages, serialisation and the plug-in runtime.
- The text of error messages: errors keep their kind and the offending expression.
