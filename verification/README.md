# Declarative dataflow: a verified model

Declarative dataflow turns declarative queries over attributes (relations of
entity/value pairs that change over time) into incremental dataflows. This
project models the parts whose correctness is not visible from reading one
function: the incremental worst-case-optimal join ("Hector") with its look-up
operators, the execution of plans and their rewrite into joins, the time
management of domains and input sessions, and the smaller stateful operators
around them. Everything is stated for all queries, histories, times and runs.

A stream is a sequence of records `(data, time, diff)`. What a stream means is
the sum of the diffs per data, at a time (`Net`) or before a time
(`CountBefore`). An index is such a history together with a frontier.

| file | models |
|---|---|
| AltNeu.dfy | the alt/neu timestamps of the delta scope |
| Collections.dfy, Sorting.dfy | update streams; stable sort and removal of duplicates |
| Bindings.dfy | values and the binding language |
| Extenders.dfy, Indices.dfy | count/propose/validate, `extend`, the six indices of an attribute |
| PlanOrder.dfy, Pipelines.dfy, Hector.dfy, DeltaJoin.dfy | variable order, one delta pipeline, all of them together |
| Triangle.dfy | a query on which the installed indices lose an answer |
| LookupOperator.dfy | the operator that stashes requests until the index is complete |
| Relations.dfy, Plans.dfy | joins and projections of relations, direct execution, the rewrite to bindings |
| Dependencies.dfy | the rules a query needs |
| Sessions.dfy, Domains.dfy, Timestamps.dfy | input sessions, domains, rewinding and coarsening of times |
| LastWriteWins.dfy, AssocIn.dfy | last-write-wins attributes, the nested-map sink |

## Main results

* **The delta join is exact.** `DeltaJoin.Implement`: accumulated through any
  time, the output of all pipelines holds every tuple as often as there are
  assignments that satisfy all bindings at that time and project to it. Its
  hypotheses are spelled out in `DeltaJoin.Supported`: time is totally ordered;
  every attribute is set-valued and no key has 2^31 entries or more;
  two-variable bindings relate two different variables; every query variable is
  connected to each source through the other bindings; a source has no conflict
  or a single one with a constant; at every step of the planned order some
  binding can propose; negation wraps only constants and predicates; and where
  several bindings take part in a step, those extended in reverse can be
  validated in reverse. A predicate binding `(x, y)` compares the value of `y`
  to the value of `x`. `DeltaJoin.ChainIsSupported` shows that the hypotheses
  can be met by arbitrary set-valued histories and the indices as installed,
  and `DeltaJoin.ConstrainedIsSupported` that they admit predicates, negations
  and constants.
* **The rewrite preserves meaning.** `Plans.ImplementNeu`: on its fragment, the
  join of the rewritten bindings agrees, at every time, with executing the plan
  directly. `Plans.FreshSymbolsSuffice` reduces the fragment to a condition on
  the plan as written, `Plans.RewrittenIsSupported` derives what the delta join
  asks for, and `Plans.EntityJoinAgreesIff` shows exactly when a join of two
  attributes is rewritten faithfully.
* **It is decided when planning stops.** `PlanOrders.PlanningStopsIff` gives, for
  every query whose two-variable bindings relate different variables and every
  source, the exact condition under which `plan_order` terminates.
* **Look-ups are answered once, and completely.** In every interleaving of
  requests, index batches, activations, and compactions that pass no waiting
  request, the invariant of `LookupOperators.LookupOperator` holds, and
  `OutputIsLookup` follows.
* **Sessions and domains lose nothing.** `Domains.RunKeepsAll`,
  `RunDeliversOnce` and `RunShipsInTime` hold of every run of transactions, epoch
  advances, closed inputs and compositions, and every method of `Domains.Domain`
  is proved to be a step of such a run.
* **Last write wins**, **nested maps hold their latest updates**, and
  **dependencies are complete**: `LastWrites.OutputIsLastWrite`,
  `NestedSinks.MergeIsExact`, `Dependencies.CollectDependencies`.

## Where the code does less than it seems to promise

* The reverse validation index holds the pairs unswapped (src/domain/mod.rs:524-531),
  although it is consulted with `(value, entity)` keys. The reverse extender then
  accepts exactly what it proposes if and only if the attribute is symmetric at
  every time (`Indices.InstalledReverseIffSymmetric`); with swapped pairs it always
  does (`Indices.SwappedIndexServes`). An extender that takes part in a step on
  its own is never asked to validate, so chains of attributes are computed
  correctly; on a triangle an answer is lost (`Triangles.InstalledTriangleLosesAnswer`).
* The look-up operators let their index compact up to the frontier of the
  requests alone, which may pass a stashed request. Look-ups survive compaction
  exactly if it has not passed them (`LookupOperators.CompactionSafeIff`).
* A request whose diff is zero is dropped from the stash unanswered; it would
  contribute nothing.
* Predicates in bindings read their variables in the opposite order of filters
  (src/plan/hector.rs:1054-1090, src/plan/filter.rs:127-129).
* `plan_order` does not terminate on every query: it stops exactly if the query is
  connected to the source, or if every other binding that can be reached is needed
  to introduce a variable (`PlanOrders.PlanningStopsIff`). A constant on one of two
  unconnected attributes is enough to make it loop (`PlanOrders.ConstantOnIslandLoops`).
* A join at the root of a plan reports only its join variables when it is
  implemented through bindings (`Plans.ColumnsAreReportedIff`).
* Rewinding is not monotone around the slack (`Timestamps.RewindMonotoneIff`),
  and durations are coarsened by seconds and nanoseconds separately, which gives
  the next multiple of the window only under a condition
  (`Timestamps.DurationCoarsensIff`, `Timestamps.MixedWindowOvershoots`).
* Composing domains lowers the epoch to the earlier of the two, below sessions
  that are already ahead. A later epoch advance to a time between the two trips
  an assertion (`Domains.ComposedAdvanceIff`).
* Replacing a value by retracting the old and adding the new one at the same
  time loses the new value on a last-write-wins attribute unless the old one
  sorts first (`LastWrites.ReplacementKeptIff`).
* A path of two elements is written into the nested map even if it is retracted
  (`NestedSinks.TwoElementsMeantIff`), and a granularity of 0 makes the stateful
  sink fail on its first change (`NestedSinks.MergeIsExact`).
* The check for duplicate rules leaves out the last pair of neighbours, but it
  can never fire anyway (`Dependencies.CollectForImplement`).

## Model

| member | source | states |
|---|---|---|
| `AltNeuTime.LessEqualIsPartialOrder` | src/timestamp/altneu.rs:39-47 | the order on alt/neu times is partial over any partial order |
| `AltNeuTime.JoinIsLeastUpperBound` | src/timestamp/altneu.rs:88-98 | `join` is the least upper bound, also of incomparable inner times |
| `AltNeuTime.MeetIsGreatestLowerBound` | src/timestamp/altneu.rs:99-110 | `meet` is the greatest lower bound |
| `AltNeuTime.AltNeuIsLattice` | src/timestamp/altneu.rs:84-110 | splitting the times of any lattice gives a lattice |
| `AltNeuTime.EnterIsEarliest` | src/timestamp/altneu.rs:69-75 | entering the scope is the lower adjoint of leaving it |
| `AltNeuTime.AltSeesNeuStrictlyBefore` | src/timestamp/altneu.rs:39-47 | a request at `(t, alt)` sees alt updates through `t` and neu updates strictly before `t` |
| `Values.LessIsTotalOrder` | src/lib.rs:85-106 | the derived order on values is total: trichotomous and transitive |
| `Values.LessWithinKind` | src/lib.rs:85-106 | values of one kind compare by what they hold: numbers, entities, instants and identifiers by size, false before true, text as strings |
| `Values.LessAcrossKinds` | src/lib.rs:85-106 | values of different kinds compare in the order of declaration |
| `Values.StringLessIs` | src/lib.rs:85-106 | a proper beginning is smaller, and otherwise the first character that differs decides |
| `Semantics.PredicateComparesIntegers` | src/plan/hector.rs:1054-1090 | a predicate over numbers, entities, instants, identifiers or truth values compares the integer of its second variable to that of its first |
| `Semantics.PredicateComparesStrings` | src/plan/hector.rs:1054-1090 | the same over strings, by beginnings and first difference |
| `Bindings.Position` | src/binding/mod.rs:38-40 | the offset of the first occurrence of a variable, none if it is absent |
| `Bindings.ReadyIffLastVariable` | src/binding/mod.rs:94-166 | a binding can extend a prefix to a variable exactly if that is the only one it still lacks |
| `Bindings.ReadyIsUnbound` | src/binding/mod.rs:211-263 | a binding only ever offers one of its own variables that the prefix lacks |
| `Extenders.ProposedIffPresent` | src/plan/hector.rs:1331-1351 | a value is proposed exactly if its multiplicity under the key is positive at the time of the prefix |
| `Extenders.NetValidate` | src/plan/hector.rs:1526-1528 | validation keeps the net change of accepted extensions and cancels all others, for antijoins by subtraction |
| `Extenders.NetPropose` | src/plan/hector.rs:1273-1375 | proposing spreads the change of a prefix over exactly the present values |
| `Extenders.NomineeIsMinimal` | src/plan/hector.rs:952-973 | the nominated extender has the least count of all; a prefix is dropped exactly if some count is zero |
| `Extenders.AsUsizeIs` | src/plan/hector.rs:1230 | counts that fit are kept, negative ones become very large |
| `Indices.CountIsNumberOfProposals` | src/plan/hector.rs:1219-1248 | over a set-valued attribute, the count of an extender is the number of values it proposes, in both directions |
| `Extenders.DroppedPrefixHasNoExtension` | src/plan/hector.rs:1219-1248 | a prefix dropped while counting has no extension that all extenders accept |
| `Extenders.ExtendElects` | src/plan/hector.rs:952-978 | with several extenders, whatever their indices hold, an extension is delivered exactly if the nominee proposes it and all others accept it |
| `Extenders.ElectedIffAllowed` | src/plan/hector.rs:61 | under the extender contract that does not depend on the nominee |
| `Extenders.ExtendIsExact` | src/plan/hector.rs:941-978 | `extend` yields exactly the values all extenders allow, once net and with the diff of the prefix, whoever was nominated; an extender on its own needs no contract |
| `Extenders.ExtendPanicsIff` | src/plan/hector.rs:946-949 | `extend` panics exactly if it is given no extender, or prefixes but no extender that can propose |
| `Indices.InstalledReverse` | src/domain/mod.rs:503-535 | what the reverse extender proposes and what it accepts, in terms of its attribute |
| `Indices.InstalledReverseIffSymmetric` | src/domain/mod.rs:524-531 | the installed reverse extender accepts exactly what it proposes if and only if the attribute is symmetric at every time |
| `Indices.InstalledReverseRejects` | src/domain/mod.rs:524-531 | a concrete pair that is proposed in reverse and then rejected |
| `Indices.SwappedIndexServes` | src/plan/hector.rs:1449 | a reverse validation index of swapped pairs honours the contract for every attribute |
| `Indices.ServedExtendersAreConsistent` | src/plan/hector.rs:61 | the extenders of a set-valued attribute count, propose and validate the same relation: forward always, in reverse if the validation index serves |
| `Indices.ExtendersSeePresence` | src/plan/hector.rs:725-774 | forward and reverse extenders allow the pairs present through `t` as alt, strictly before `t` as neu |
| `PlanOrders.FullIffAsLong` | src/plan/hector.rs:209-309 | comparing lengths with the sorted, deduplicated variables decides whether a prefix is full |
| `PlanOrders.BindingLessIs` | src/binding/mod.rs:52-62 | candidates are sorted by kind in the order of declaration, then by variables, then by name, value or operator |
| `PlanOrders.ConnectedMakesProgress` | src/plan/hector.rs:209-309 | while the prefix is not full, some candidate is ready |
| `PlanOrders.RoundIsSound` | src/plan/hector.rs:264-287 | a round grows the prefix exactly if a candidate is ready, and otherwise changes nothing; no binding is lost |
| `PlanOrders.Round` | src/plan/hector.rs:269-287 | the loop over the candidates visits them in order, as the round above |
| `PlanOrders.RoundGrows` | src/plan/hector.rs:261-300 | on connected queries every round grows the prefix until it is full |
| `PlanOrders.ConnectedIffOrderable` | src/plan/hector.rs:209-309 | a valid order exists exactly if the query is connected to the source |
| `PlanOrders.StuckForever` | src/plan/hector.rs:261-300 | a round without a ready candidate is repeated unchanged by all later rounds |
| `PlanOrders.RoundsAreCounted` | src/plan/hector.rs:261-300 | every done binding has introduced exactly one variable and waits no longer |
| `PlanOrders.PlanningStopsIff` | src/plan/hector.rs:261-300 | planning stops exactly if the query is connected, or if the reachable bindings are as many as the reachable variables beyond the two of the source |
| `PlanOrders.IslandsStopIff` | src/plan/hector.rs:261-300 | two unconnected attributes with constants on the first: planning stops exactly if there is no constant |
| `PlanOrders.ConstantOnIslandLoops` | src/plan/hector.rs:261-300 | a concrete query on which planning never stops |
| `PlanOrders.WholeIsConnected` | src/plan/hector.rs:209-309 | a query that hangs together as a whole is connected to every source without using that source |
| `PlanOrders.PlanOrder` | src/plan/hector.rs:209-309 | terminates on connected queries with all variables exactly once, each linked by a non-source binding to an earlier one, and all other bindings |
| `Pipelines.ConflictIffWithin` | src/plan/hector.rs:173-200 | a binding conflicts with the source exactly if the source binds all of its variables |
| `Pipelines.CollectExtenders` | src/plan/hector.rs:640-697 | working off the queue of bindings yields one extender per participating binding, negations wrapping what precedes them |
| `Hector.PredicateAccepts` | src/plan/hector.rs:1054-1090 | in both directions a predicate binding `(x, y)` compares `y` to `x` |
| `Hector.ExtenderAllows` | src/plan/hector.rs:666-774 | an extender allows a value exactly if its binding holds in the view of the pipeline |
| `Hector.ManyAreConsistent` | src/plan/hector.rs:941-978 | a step honours the extender contract if reverse validation serves wherever several bindings take part |
| `Hector.ServedIsValidatable` | src/plan/hector.rs:1449 | with swapped reverse indices that is always so |
| `Hector.EnforcedExactlyOnce` | src/plan/hector.rs:586-676 | every non-source binding takes part in exactly one step, or in none if it conflicts with the source |
| `Hector.AttributesPropose` | src/plan/hector.rs:1050-1052 | if all two-variable bindings are attributes, every step has an extender that can propose |
| `Hector.StartPipeline` | src/plan/hector.rs:586-632 | the source stream carries the change of the source, filtered by its one constant conflict |
| `Hector.StepCarries` | src/plan/hector.rs:634-898 | an extension step multiplies the stream by exactly the bindings it enforces |
| `Hector.GrowPipeline` | src/plan/hector.rs:634-898 | growing along the order ends with all variables bound and all bindings enforced |
| `Hector.RunPipeline` | src/plan/hector.rs:551-914 | a pipeline delivers, per assignment and time, the change of its source if all other bindings hold in its view |
| `DeltaJoin.PipelineIsDifference` | src/plan/hector.rs:666-681 | one pipeline moves the join from its source seen before `t` to its source seen through `t` |
| `DeltaJoin.TelescopeStep` | src/plan/hector.rs:547-918 | the pipelines run so far sum to the join with their bindings updated, minus the old join |
| `DeltaJoin.RowsAreSatisfying` | src/plan/hector.rs:520-926 | accumulated up to any time, the rows of all pipelines are exactly the satisfying assignments |
| `DeltaJoin.ProjectionCounts` | src/plan/hector.rs:900-912 | a projected tuple is counted once for every assignment behind it |
| `DeltaJoin.ImplementSingleBinding` | src/plan/hector.rs:350-400 | a single attribute delivers its own changes, projected |
| `DeltaJoin.Implement` | src/plan/hector.rs:497-927 | at every time the accumulated output is the bag of satisfying assignments, projected |
| `DeltaJoin.ChainIsSupported` | src/plan/hector.rs:586-623 | a join of any two set-valued attributes, with the indices as installed, meets all hypotheses |
| `DeltaJoin.ConstrainedIsSupported` | src/plan/hector.rs:586-623 | so does a chain with a negated predicate and a constant, if its indices can be validated in reverse |
| `Triangles.InstalledTriangleLosesAnswer` | src/domain/mod.rs:524-531 | on a triangle of three attributes the installed indices lose an answer: no pipeline ever delivers it |
| `LookupOperators.CompactionSafeIff` | src/plan/hector.rs:1259-1262 | look-ups at a time survive compaction exactly if it has not passed that time |
| `LookupOperators.PrecedesIff` | src/plan/hector.rs:1190-1198 | a frontier may follow another exactly if it leaves behind all that the other does |
| `LookupOperators.LookupOperator.Receive` | src/plan/hector.rs:1182-1188 | arriving requests wait, grouped by capability; none is lost or duplicated |
| `LookupOperators.LookupOperator.ExtendIndex` | src/plan/hector.rs:1190-1198 | a batch and a later frontier keep every answer given so far correct |
| `LookupOperators.LookupOperator.Compact` | src/plan/hector.rs:1259-1262 | compaction to any later time keeps all given answers right; the invariant is kept exactly if no waiting request was passed |
| `LookupOperators.LookupOperator.Process` | src/plan/hector.rs:1213-1251 | requests at times the index frontier is not at or before are answered and marked, the others stay, each exactly once |
| `LookupOperators.LookupOperator.Work` | src/plan/hector.rs:1200-1257 | after an activation exactly the requests at or after the index frontier wait, all others are answered as often as they were made, and no empty capability is held |
| `LookupOperators.LookupOperator.CompleteIndexAnswersAll` | src/plan/hector.rs:1290-1375 | with a complete index nothing waits any longer |
| `LookupOperators.LookupOperator.OutputIsLookup` | src/plan/hector.rs:1404-1487 | by then the output is, net, the look-up of every request in the complete index, in whatever order things arrived |
| `LookupOperators.SameRequestsSameAnswers` | src/plan/hector.rs:1207-1217 | the net answers do not depend on the order of requests |
| `LookupOperators.CountIsLookup` | src/plan/hector.rs:1219-1248 | the count operation is what its operator outputs |
| `LookupOperators.ProposeIsLookup` | src/plan/hector.rs:1331-1357 | the propose operation is what its operator outputs |
| `LookupOperators.ValidateIsLookup` | src/plan/hector.rs:1448-1468 | the validate operation is what its operator outputs |
| `Relations.TuplesByVariables` | src/lib.rs:598-651 | every tuple is split by the offsets of the keys and of the remaining variables |
| `Relations.KeyedIsPermutation` | src/lib.rs:598-651 | key plus remaining columns is a permutation of the tuple |
| `Relations.KeyedProjection` | src/lib.rs:598-651 | the key holds the values of the key variables, the rest those of the others, in order |
| `Relations.CollectionJoinIs` | src/plan/join.rs:119-179 | a join of collections is aligned with its variables and holds the combinations that agree on the join variables |
| `Relations.AttributeJoinIs` | src/plan/join.rs:35-117 | the same for attributes, keyed by either of their variables |
| `Relations.JoinIs` | src/plan/join.rs:296-324 | the same for all kinds of relations, including the swapped attribute/collection case |
| `Relations.JoinVariables` | src/plan/join.rs:119-223 | the variable list of a join: join variables, then what else the sides bind, in the order they are visited |
| `Relations.ProjectFailsIff` | src/lib.rs:569-596 | when projecting a relation panics |
| `Relations.JoinFailsIff` | src/plan/join.rs:291-324 | when joining two relations panics |
| `Plans.ProjectAttribute` | src/lib.rs:672-705 | projecting an attribute onto one or both of its variables |
| `Plans.EnumerateIsSatisfying` | src/plan/mod.rs:263-297 | the assignments behind a plan are exactly those satisfying its bindings, each once |
| `Plans.DirectRepresents` | src/plan/mod.rs:341-401 | direct execution succeeds and lists the values of these assignments column by column |
| `Plans.DirectFailsIff` | src/plan/mod.rs:341-401 | where implementing a plan panics |
| `Plans.RewritePreservesMeaning` | src/plan/join.rs:268-277 | the direct result holds every tuple as often as assignments satisfy the bindings and project to it |
| `Plans.ImplementNeu` | src/lib.rs:1095-1097 | executing a plan through its bindings agrees with direct execution at every time |
| `Plans.RewrittenIsSupported` | src/lib.rs:1095-1097 | a plan of the fragment is rewritten to a query the delta join supports, given its data and resolvable conflicts |
| `Plans.EntityJoinIsExecutable` | src/lib.rs:1095-1097 | joins of two attributes on their entity meet all that is asked of data and indices as installed |
| `Plans.EntityJoinAgreesIff` | src/plan/join.rs:102-109 | joining two attributes on their entity, the rewrite preserves meaning exactly if their value variables differ |
| `Plans.ColumnsAreReportedIff` | src/plan/mod.rs:209-229 | a plan reports all its columns unless it is a join with more than the join variables |
| `Plans.BoundVarsAre` | src/plan/mod.rs:52-57 | bindings mention the variables of the patterns and the generated ones, and no others |
| `Plans.FreshSymbolsSuffice` | src/plan/mod.rs:52-57 | a well-joined plan is in the fragment as soon as the generated variables are not its own |
| `Dependencies.NothingMissing` | src/lib.rs:900-927 | an empty worklist means all reachable rules were found and nothing is missing |
| `Dependencies.NamesAreOccurrences` | src/plan/mod.rs:239-261 | the names a plan depends on are those of the named expressions that occur in it |
| `Dependencies.AttributesAreOccurrences` | src/plan/mod.rs:239-261 | the attributes it depends on are those of the patterns that occur in it |
| `Dependencies.CollectDependencies` | src/lib.rs:879-930 | terminates on recursive rules; returns exactly the reachable rules, once each iff the names are distinct; fails iff a reachable rule or a required attribute is unknown |
| `Dependencies.FindDuplicate` | src/lib.rs:958-966 | finds equal neighbours in name order except in the last pair, and nothing if names are distinct |
| `Dependencies.CollectForImplement` | src/lib.rs:941-966 | for one name, the duplicate check never fires |
| `Timestamps.RewindLags` | src/timestamp/mod.rs:90-106 | rewinding never passes the time and lags by exactly the slack iff the time has reached it |
| `Timestamps.RewindMonotoneIff` | src/timestamp/mod.rs:90-106 | when rewinding keeps the order of two times |
| `Timestamps.CoarsenIsNextMultiple` | src/timestamp/mod.rs:150-154 | coarsening gives the first multiple of the window that is strictly later |
| `Timestamps.DurationCoarsensIff` | src/timestamp/mod.rs:156-175 | for any window, a duration is coarsened to the next multiple exactly if what its second and nanosecond windows have covered is a multiple |
| `Timestamps.WholeSecondsCoarsen` | src/timestamp/mod.rs:156-175 | for windows of whole seconds it always is the next multiple |
| `Timestamps.SubSecondCoarsenIff` | src/timestamp/mod.rs:156-175 | for windows below a second it is exactly if the whole seconds are a multiple of the window |
| `Timestamps.MixedWindowOvershoots` | src/timestamp/mod.rs:156-175 | a time and a window with seconds and nanoseconds for which it is not |
| `Sessions.PushedAccepts` | src/domain/unordered_session.rs:45-80 | pushing accepts one update at the end; only a full buffer is shipped first, under the current capability, and room is made for at least 1024 more |
| `Sessions.FlushedHandsOver` | src/domain/unordered_session.rs:82-99 | flushing hands over everything accepted, under the old capability, and moves it up |
| `Sessions.PushedAscends` | src/domain/unordered_session.rs:45-80 | what pushing ships carries the current capability, so capabilities never decrease |
| `Sessions.FlushedAscends` | src/domain/unordered_session.rs:82-99 | the same for flushing, which moves the capability up afterwards |
| `Sessions.UnorderedSession.Push` | src/domain/unordered_session.rs:45-80 | a buffer with room grows by the update; a full one is shipped and starts anew |
| `Sessions.UnorderedSession.Update` | src/domain/unordered_session.rs:45-57 | an update is pushed at the time of the capability |
| `Sessions.UnorderedSession.UpdateAt` | src/domain/unordered_session.rs:59-80 | an update at a time of its own, not before the capability |
| `Sessions.UnorderedSession.Flush` | src/domain/unordered_session.rs:82-99 | ships the buffer under the old capability and moves it up to the time |
| `Sessions.UnorderedSession.AdvanceTo` | src/domain/unordered_session.rs:101-106 | advancing moves only the time, and only forward |
| `Sessions.UnorderedSession.Close` | src/domain/unordered_session.rs:119-126 | dropping a session flushes it |
| `Domains.AppliedAccepts` | src/domain/mod.rs:203-217 | every session accepts its own datoms, in order, and nothing else changes |
| `Domains.AdditionsAreRecords` | src/domain/mod.rs:203-213 | the updates of an attribute are its datoms in order: entity, value and diff as given, at the given time or else at the capability |
| `Domains.PicksAre` | src/domain/mod.rs:203-213 | these are all datoms of the attribute before the first unknown one, in ascending order |
| `Domains.AdditionsSum` | src/domain/mod.rs:203-213 | per pair and time they sum to the diffs of the datoms |
| `Domains.AdvanceAllHandsOver` | src/domain/mod.rs:266-286 | an effective epoch advance leaves every session at the epoch, with an empty buffer and everything handed over |
| `Domains.RunKeepsAll` | src/domain/mod.rs:92-286 | over any run, composition included, every accepted datom is kept in order, and the epoch stays a lower bound of every session's time |
| `Domains.RunNeverRewinds` | src/domain/mod.rs:266-286 | only composition takes the epoch back |
| `Domains.RunDeliversOnce` | src/domain/mod.rs:203-286 | what was delivered is an initial part of what was accepted, and all of it after a close or an epoch advance |
| `Domains.AdvanceDeliversAll` | src/domain/mod.rs:266-286 | after a run that ends with an effective epoch advance all open inputs are at the epoch, and everything accepted was delivered |
| `Domains.RunGoesOn` | src/domain/unordered_session.rs:82-126 | whatever happens to an input, nothing it ships carries an earlier capability than it holds now, and capabilities never decrease |
| `Domains.RunShipsInTime` | src/domain/unordered_session.rs:45-126 | nothing is shipped under a capability later than its own time, by open or closed inputs |
| `Domains.SlackenedNeverPasses` | src/domain/mod.rs:290-340 | a trace with a slack lags by exactly the slack once the frontier has reached it and is at the frontier before that; a trace without one stays where it is |
| `Domains.ApplyDatoms` | src/domain/mod.rs:203-217 | a transaction writes exactly the datoms before the first unknown attribute, each to its own session as given, and names that attribute |
| `Domains.Domain.Transact` | src/domain/mod.rs:203-217 | the same on the domain, as one step of a run; no other session changes |
| `Domains.Domain.CloseInput` | src/domain/mod.rs:220-229 | closing is a step that removes one input and hands over what it buffered |
| `Domains.Domain.AdvanceEpoch` | src/domain/mod.rs:266-286 | an effective advance moves the epoch and every session exactly to the target, with empty buffers and everything handed over; otherwise nothing changes, and rewinding is a conflict |
| `Domains.Domain.AdvanceTraces` | src/domain/mod.rs:290-340 | traces with a slack follow a frontier that has moved, all others stay |
| `Domains.Domain.Advance` | src/domain/mod.rs:233-261 | never fails with no session ahead of a live frontier; the epoch becomes the later of itself and the frontier with all sessions at it, nothing moves back, and every trace stays behind the last advance |
| `Domains.Domain.Compose` | src/domain/mod.rs:92-138 | composition is a step that keeps the epoch a lower bound of every session |
| `Domains.ComposedAdvanceIff` | src/domain/mod.rs:92-138 | a later advance trips an assertion exactly if it falls between the two epochs and the side ahead has inputs |
| `LastWrites.EmitBatch` | src/operators/last_write_wins.rs:41-62 | the stream of a batch, key by key and sorted by time, holds per key, value and time the diffs the batch lists there |
| `LastWrites.EmittedIsListed` | src/operators/last_write_wins.rs:45-58 | every update is emitted as listed: under its key and value, at its own time, with its own diff |
| `LastWrites.EmittedIsOrdered` | src/operators/last_write_wins.rs:57-58 | the stream is in time order for every entity |
| `LastWrites.PanicsIffRetractsAbsent` | src/operators/last_write_wins.rs:74-81 | the state machine panics exactly if an entity is retracted while it has no value |
| `LastWrites.StateIsLastWrite` | src/operators/last_write_wins.rs:71-99 | the state holds the last write of every entity |
| `LastWrites.OutputIsLastWrite` | src/operators/last_write_wins.rs:71-102 | accumulated through any time, the output holds the last write by then, once, and nothing else |
| `LastWrites.AtMostOneValue` | src/operators/last_write_wins.rs:17-21 | at no time does an entity have two values |
| `LastWrites.ReplacementKeptIff` | src/operators/last_write_wins.rs:57-98 | replacing the current value at one time never panics, and the output holds the next value exactly if the replaced one sorts first, else none |
| `LastWrites.LastWriteWins.Receive` | src/operators/last_write_wins.rs:39-102 | the operator keeps all this over any sequence of batches |
| `NestedMaps.GetPut` | src/sinks/assoc_in.rs:186-222 | a written or removed location holds what was written, unless something on the way is not an object |
| `NestedMaps.GetPutOther` | src/sinks/assoc_in.rs:186-222 | writing changes no location that is not related by prefix |
| `NestedMaps.PutBlocked` | src/sinks/assoc_in.rs:208-222 | a value on the way that is not an object keeps everything as it is |
| `NestedMaps.PutWalkable` | src/sinks/assoc_in.rs:194-212 | a write makes every level above it walkable |
| `NestedMaps.SnapshotIs` | src/sinks/assoc_in.rs:113-118 | the walk ends at what the key locates, or at the value on the way that is not an object |
| `NestedMaps.WalkIsGet` | src/sinks/assoc_in.rs:113-118 | with only objects on the way, a key can be walked exactly if it locates something, and the walk ends there |
| `NestedSinks.DecimalReadsBack` | src/sinks/assoc_in.rs:162-167 | entities become decimal numbers that read back |
| `NestedSinks.DecimalIsInjective` | src/sinks/assoc_in.rs:162-167 | different entities become different keys |
| `NestedSinks.KeyReadsBack` | src/sinks/assoc_in.rs:162-167 | which values are keys, and which key they are |
| `NestedSinks.LeafReadsBack` | src/lib.rs:138-149 | which values can be leaves, and that they keep what they hold |
| `NestedSinks.CleanIff` | src/sinks/assoc_in.rs:176-226 | a path is clean exactly if writing it into an empty map does not panic |
| `NestedSinks.LocationIs` | src/sinks/assoc_in.rs:179-212 | a location lists the keys of a path one by one |
| `NestedSinks.EffectIs` | src/sinks/assoc_in.rs:182-222 | a positive update writes its leaf, any other removes it, except that paths of two elements are always written |
| `NestedSinks.ChangeKeyIs` | src/sinks/assoc_in.rs:183-206 | a change key is the beginning of the location, as long as the granularity asks for |
| `NestedSinks.LocationLessIs` | src/sinks/assoc_in.rs:228-229 | change keys are sorted like vectors of strings |
| `NestedSinks.ApplyIsPut` | src/sinks/assoc_in.rs:176-226 | a path of two or more elements is one write and one change key |
| `NestedSinks.InOrderIsOrdered` | src/sinks/assoc_in.rs:171-172 | the two sorts together order by time, then by diff |
| `NestedSinks.MergePaths` | src/sinks/assoc_in.rs:140-231 | sorting, writing and reporting in place |
| `NestedSinks.MergeIsExact` | src/sinks/assoc_in.rs:140-231 | on prefix-free paths of two or more elements every location holds the effect of its latest update, unrelated ones are untouched, each change is reported once in order, and all can be walked iff the granularity is positive |
| `NestedSinks.Snapshots` | src/sinks/assoc_in.rs:111-126 | the walk of the sink succeeds exactly if all change keys can be walked |
| `NestedSinks.TwoElementsMeantIff` | src/sinks/assoc_in.rs:182-186 | a path of two elements has its meant effect exactly if its diff is positive |
| `NestedSinks.AssocIn.Receive` | src/sinks/assoc_in.rs:70-79 | paths wait for their time |
| `NestedSinks.AssocIn.Notify` | src/sinks/assoc_in.rs:82-128 | over any run on prefix-free locations, every completed time is merged exactly and reported, without failure if the granularity is positive |

## Left out

- Timely and differential internals (arrangements, exchange, progress tracking, merging of batches): a trace is an update history with a frontier.
- Several workers: streams are not partitioned, so routing and exchange are not modelled.
- Incomparable times in the delta join, last-write-wins and domains: the code relies on a total order there. Only alt/neu times are treated over arbitrary lattices.
- Iterative scopes: the inner iteration counter of recursive rules is constant in the delta join.
- Union, Aggregate, Transform, Filter, Antijoin, Negate and Pull plans: their bindings drop or concatenate instead of preserving meaning, or they are single maps over library reductions.
- Named expressions in the rewrite: `into_bindings` is not implemented for them, so they occur in dependencies only.
- Look-up operators: requests are not sorted by key before a cursor visits them, since answers do not depend on the order; the hash map of capabilities is an association list.
- Domains: sessions are values owned by the domain rather than shared objects, and namespaces, shutdown handles and rules play no part in composition.
- NestedSinks.MergePaths: walking down mutable references is modelled by recursion over the keys; the stateless sink is the same merge from an empty map.
- Sources, the csv sink, sockets, logging, configuration, serialisation, schedulers and GraphQL: input and output, or foreign code.
- Numbers are unbounded except where wrapping matters (counts as `usize`, generated variables); `Real` values are not modelled.
