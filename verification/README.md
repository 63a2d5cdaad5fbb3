# VerdictLens verification

This project models the parts of VerdictLens in which a mistake is easy to make and hard to see, and
proves what they promise:

- **The blame engine** (`Spans`, `Forest`, `Worklist`, `BlameTree`, `BlamePasses`, `Roles`, `Reports`,
  `BlameReports`, `Scoring`, `RetryStorm`, `BlameStorm`, `Verdict`, `VerdictLaws`, `Causes`, `BlameEngine`). The
  passes are methods over mutable `SpanNode` objects with explicit stacks, as in the source. Each is
  proved against a closed form over the table of spans, and the theorems about roles, reports, scores
  and confidence are lemmas about these closed forms. `Evidence`, `ScoreLaws`, `StormLaws`, `VerdictExact`
  and `ResponseLaws` say what the closed forms mean for the values a trace records.
- **The tracer** (`Tracing`, `TracingLaws`, `TracingRuns`, `Lineage`, `Records`, `Tracer`, `RoundTrip`,
  `EndToEnd`). `Tracing` is a state machine of enter, leaf, return, raise, allocation and collection steps
  under any interleaving in which children exit before their parents, with addresses that may be used
  again. `Records` says what a recorded span holds in terms of the events of its call. `Tracer` has the
  mutable contexts, buffers and registry, and refines the machine's steps. `EndToEnd` composes the tracer
  with the blame engine.
- **The offline transport** (`Framing`, `JsonReader`, `Loading`, `DiskQueue`, `Utf8`, `Client`,
  `Delivery`): JSON lines, the pruned directory, retries and flushing, and the interleaving of sender,
  worker, flusher and pruner. `Loading` reads the written texts back with a reader made from the JSON
  grammar. `Client` records every POST it makes, and each of its methods is a step or a run of steps of
  `Delivery`.
- **Smaller kernels**: the safe serializer (`Serializer`, `SerializerLaws`), the replay ancestor walk
  (`Replay`) and the playground's rate limiter (`RateLimit`).

`Common` and `JsonValues` hold shared vocabulary.

## Assumptions

- Span ids of one trace are unique. With duplicates the depth loop of the tree builder may not end.
- Where a statement says ancestor or descendant, or needs a walk up to end, parents are acyclic; the
  hypotheses `Grounded` and `Acyclic` say so where they are needed.
- New span ids and file names were never used before. Times of the rate limiter do not decrease. File
  operations succeed.
- Scores, averages and latencies are exact reals.
- Every payload has a JSON text. One that `dumps_json` refuses, such as a dict with a tuple as key, raises
  outside the `try` that guards the POST (`sdk/verdictlens/client.py:174`) and ends the worker thread; the
  model has no such payload.
- In `Delivery` a JSON line that parses is identified with its text; `Loading` relates texts and values.
  Which lines parse and which texts have a UTF-8 encoding are parameters; texts with an unpaired
  surrogate have none.

## Findings

- `Roles.MutualBlame`: passes 4b and 4c together can leave a failing trace without an originator, also
  under the order the tracer guarantees. `Roles.OriginatorExactly` gives the exact condition.
- `Roles.OriginatorInOrder`: the reason is that pass 4b ignores time. If it only blamed siblings that
  finished first, every traced failure would have an originator.
- `VerdictLaws.FallbackMisses`: without an originator the best-scored span is reported, and that can be
  a healthy span off every failing branch. `VerdictLaws.ReportedInChain` gives the exact condition over
  the scores and the order of the list.
- `RetryStorm.SuppressionOrder`: when two failures of a retry storm share the earliest start time, the
  one listed first is kept and the other suppressed, so what is suppressed depends on the order of the
  list; otherwise it never does.
- `Causes.WalkEndsExactly`: with cyclic parents the search for the cause of a failure point may go
  round for ever; `Causes.CycleNeverEnds` is such a trace and `Causes.CyclicEndsExactly` the condition.
- `Delivery.ConservedExactly`: a payload text can be lost in two ways. One that contains U+0085, U+2028 or
  U+2029 is written to disk once the server refuses it, but `splitlines` breaks lines there and the
  JSON text does not escape these characters. One that contains an unpaired surrogate, which safe
  serialization lets through, cannot be encoded, so every POST fails and nothing is written
  (`sdk/verdictlens/queue.py:76-79`).
- `Delivery.InventsNothingExactly`: a fragment of a payload of the first kind can be posted as a trace of its own
  exactly when a piece of it parses; `Delivery.InventedRun` is an example.
- `SerializerLaws.TruncateCount`: the number of characters in a truncation suffix is right only when it
  has three digits, and `SerializerLaws.TruncateCountFails` is a case where it is not;
  `SerializerLaws.TruncateBound` says when the length limit holds.
- `Replay.ReplayDepthExactly`: the replay view and the blame engine disagree on the depth of a span in
  two cases. A missing parent counts as a level in replay only (`Replay.LooseDiffers`), and on or below a
  cycle of parents the engine stays at 0 while replay counts the walk (`Replay.CycleDiffers`).
- The module text of the blame engine gives older weights and five signals; the model follows the
  constants at `backend/app/blame_engine.py:37-43`.
- In the narrative loop the branch for a bad span with no role (`backend/app/blame_engine.py:645-646`)
  is never taken, since every bad span reached from a root has a role.

## Model

| member | source | states |
|---|---|---|
| BlameTree.CreateNodes | backend/app/blame_engine.py:185-187 | one fresh, unlinked node per span, keyed by id |
| BlameTree.LinkNodes | backend/app/blame_engine.py:189-198 | for unique ids: the children of every node are exactly the spans naming it as parent, in list order; parent fields agree with the same pointers; roots are the spans whose parent id is absent, empty or unknown, in list order |
| BlameTree.SetDepthsBelow | backend/app/blame_engine.py:200-206 | the stack loop below one root terminates even when other parent pointers form cycles, and writes to every span below that root its distance from the root, to no other span anything |
| BlameTree.BuildTree | backend/app/blame_engine.py:184-208 | pass 1 as a whole: children, parents and depths of the node objects are the forest of the parent pointers; spans no root reaches keep depth 0 |
| Spans.GroundedIffUnderRoot | backend/app/blame_engine.py:200-206 | a span is reached from some root exactly when its parent chain ends |
| Spans.DepthParent | backend/app/blame_engine.py:200-206 | the depth is 0 at a root and one more than the parent's elsewhere |
| BlamePasses.MarkIntrinsic | backend/app/blame_engine.py:257-263 | after pass 2 every node's five intrinsic fields are the error, null-output, empty-output, bad and bad-input verdicts of its span |
| Evidence.StripExactly | backend/app/blame_engine.py:231 | stripping a text leaves its one core without white space at the ends, for the 29 characters Python strips |
| Evidence.ErrsIs | backend/app/blame_engine.py:213-218 | an error counts when it holds a message or type that is true, or is no dict and true itself; false are null, false, 0 and the empty text, list and dict |
| Evidence.VoidIs | backend/app/blame_engine.py:221-235 | an output holds nothing exactly when it is null, an empty dict or list, or a text that is `null`, `None`, `{}` or nothing up to white space |
| Evidence.StarvedIs | backend/app/blame_engine.py:238-254 | an input is bad exactly when it is an empty dict, a text that is `null`, `None` or nothing up to white space, or a dict whose `args` list holds a null |
| Evidence.FailsIs | backend/app/blame_engine.py:257-262 | a span is bad exactly when its error counts or its output holds nothing |
| Evidence.ParentIs | backend/app/blame_engine.py:192-198 | a parent id is followed exactly when it is not empty and names a span of the trace |
| Evidence.RolesFromValues | backend/app/blame_engine.py:380-404 | the four roles from the recorded errors, outputs, inputs, sources and parents alone |
| BlameTree.ReversePreOrder | backend/app/blame_engine.py:274-280 | the first loop of the aggregation lists every span below the root once, parents before children |
| Spans.CountIsSum | backend/app/blame_engine.py:283-288 | summing the children's counts and badness counts every bad strict descendant exactly once |
| BlamePasses.AggregateBottomUp | backend/app/blame_engine.py:268-289 | below a root, `bad_descendant_count` becomes the number of bad strict descendants and `subtree_bad` says whether the subtree holds a bad span; spans outside the subtree keep what they had |
| BlamePasses.AggregateAll | backend/app/blame_engine.py:820-822 | over all roots: the counts of everything some root reaches are final, everything else keeps its initial zero |
| BlamePasses.PropagateTopDown | backend/app/blame_engine.py:294-317 | below a root, `upstream_bad` becomes true exactly below a bad span without bad descendants, and `badness_inherited` stays false everywhere |
| Roles.TopDownNeverInherits | backend/app/blame_engine.py:294-317 | why: a span below a bad span without bad descendants is not bad, so top-down propagation alone never marks inherited badness |
| Roles.LeafBadStep | backend/app/blame_engine.py:308-317 | the flag handed to a child is the meaning `some strict ancestor is bad and has no bad descendant`, computed from the parent's flag, badness and count |
| BlamePasses.SiblingPropagation | backend/app/blame_engine.py:322-347 | pass 4b raises both flags for exactly the bad spans with bad input that have a different child of the same parent with null or empty output on good input, in whatever order the nodes are visited |
| BlamePasses.DataFlowPropagation | backend/app/blame_engine.py:352-375 | pass 4c raises `upstream_bad` for exactly the spans with a bad recorded source and `badness_inherited` for the bad ones among them |
| BlamePasses.ClassifyNode | backend/app/blame_engine.py:387-404 | the chain of tests assigns the closed-form role from the fields the passes left |
| BlamePasses.RunPasses | backend/app/blame_engine.py:820-835 | passes 3 to 5 composed over the shared node objects leave every node with its closed-form role, count and flags, and the links of pass 1 untouched |
| Roles.RolesCharacterised | backend/app/blame_engine.py:380-404 | Clean exactly when the span is not bad; Propagator exactly when it is bad and has a bad descendant; `subtree_bad` exactly when the subtree holds a bad span |
| Roles.VerdictsAreAntichain | backend/app/blame_engine.py:380-404 | an ancestor of an originator or manifestor is a propagator or clean, so originators and manifestors are pairwise not ancestor-related |
| Roles.OriginatorWithoutLineage | backend/app/blame_engine.py:322-347 | without recorded sources every trace with a bad span has an originator, also when parents form cycles; by ascent in depth over sibling marks |
| Roles.OriginatorInOrder | backend/app/blame_engine.py:322-375 | when children finish before parents, sources finish before consumers start, and pass 4b only blames siblings that finished before the span they are blamed for, every trace with a bad span has an originator: the first bad span to finish |
| Roles.OriginatorWithLineage | backend/app/blame_engine.py:352-375 | in particular when no input is bad |
| Roles.OriginatorExactly | backend/app/blame_engine.py:322-404 | without any such assumption: an originator exists exactly when some bad span has no counted bad descendant, no sibling that pass 4b blames, and no bad source |
| Roles.MutualBlame | backend/app/blame_engine.py:322-375 | a concrete failing trace that respects the tracer's order and has no originator: passes 4b and 4c explain two siblings by each other, and in every such order the one that pass 4b blames finishes after the one it is blamed for |
| Roles.SliceSound | backend/app/blame_engine.py:653-697 | on an acyclic trace, restricting to the spans with a bad span in their subtree keeps every role and every count in it |
| Roles.SliceClosed | backend/app/blame_engine.py:675-684 | the slice is closed under parents |
| Reports.FailingBranchesExact | backend/app/blame_engine.py:689-697 | the pre-order listing of the failing branches holds each span of the slice once and no other span |
| Reports.FailingBranchesTable | backend/app/blame_engine.py:689-697 | analysing that list means analysing the slice |
| ResponseLaws.FullChainFromValues | backend/app/blame_engine.py:653-697 | the full chain holds exactly the spans that failed or have a failed descendant, each once |
| ResponseLaws.FullChainFallback | backend/app/blame_engine.py:686-697 | when no failed span can be reached from a root the full chain is the first reported span |
| BlameReports.OnPathRule | backend/app/blame_engine.py:678-684 | the rule `has a role, or has a child on the path` picks exactly the spans with a bad span in their subtree |
| BlameReports.OnPathBelow | backend/app/blame_engine.py:665-684 | the post-order loop below one root collects exactly the slice ids below it |
| BlameReports.ListBelow | backend/app/blame_engine.py:690-695 | the pre-order loop below one root lists the kept spans below it from left to right |
| BlameReports.BuildFullChain | backend/app/blame_engine.py:653-697 | the full chain, with both fallbacks: the failing branches in pre-order, else the first reported originator |
| BlameReports.FullChainIsFailing | backend/app/blame_engine.py:686-697 | as soon as some reachable span is bad the fallbacks play no part |
| BlameReports.BuildPropagationChain | backend/app/blame_engine.py:616-650 | the pruned depth-first loop emits one tagged line per bad span in pre-order, or the placeholder |
| Reports.ChainFollowsFullChain | backend/app/blame_engine.py:616-697 | the narrative's lines are those of the bad spans of the full chain, in the order of the full chain |
| ResponseLaws.LineFromValues | backend/app/blame_engine.py:628-646 | which line a failed span gets: by whether a descendant failed, whether a sibling or source explains it, and whether it has an error |
| Reports.ChainLength | backend/app/blame_engine.py:616-650 | the number of lines is the sum over the roots of the bad descendants plus the root's own badness |
| Scoring.ClampIsIdle | backend/app/blame_engine.py:494-506 | for every span, role, depth and statistics the weighted total already lies in [0, 1] |
| ScoreLaws.ScoreIsPoints | backend/app/blame_engine.py:409-506 | the score is the sum of seven contributions, given as points per recorded value: how hollow input and output are, confidence, role, depth, and latency and tokens against their averages |
| ScoreLaws.ConfidenceCosts | backend/app/blame_engine.py:447-451 | a drop in confidence costs 0.08 times the drop, whatever else is recorded |
| ScoreLaws.ConfidenceEnds | backend/app/blame_engine.py:447-451 | a missing confidence counts as 0.5, one outside the unit interval as its nearer end |
| ScoreLaws.RoleSteps | backend/app/blame_engine.py:62-67 | the steps between the roles are 0.105, 0.175 and 0.07 |
| ScoreLaws.StatsAre | backend/app/blame_engine.py:136-144 | the averages are the totals of the positive latencies and of the token counts over the number of spans that have them |
| ScoreLaws.ScoredIsPoints | backend/app/blame_engine.py:837-847 | the score used for ranking is 0 for a suppressed span and its points in the trace for every other |
| Scoring.OriginatorErrorScore | backend/app/blame_engine.py:494-506 | an originator with an error scores at least 0.55 |
| Scoring.Markov | backend/app/blame_engine.py:136-144 | among positive values, m times the number of those at least m times the average is below their number |
| Scoring.LatencySpikesScarce | backend/app/blame_engine.py:460-474 | if k spans get latency score 1.0, more than 5k spans have positive latency; so one such score needs six timed spans |
| Scoring.TokenSpikesScarce | backend/app/blame_engine.py:477-491 | if k spans get token score 1.0 and no count is negative, more than 10k spans have a nonzero count |
| RetryStorm.SortKeeps | backend/app/blame_engine.py:535 | sorting a retry group keeps its spans and orders them by start time |
| BlameStorm.DetectRetryStorm | backend/app/blame_engine.py:511-555 | the storm flag and the suppressed ids are exactly those of the groups of at least three failed spans with equal name and parent that pass the window test, all but the first of each sorted group |
| StormLaws.StormExactly | backend/app/blame_engine.py:528-551 | a group is a storm exactly when at least three failed calls share name and parent, all have a start time, and took together at most twice their median latency each, said over the positions of the list |
| StormLaws.SomeStormExactly | backend/app/blame_engine.py:524-557 | the retry-storm flag of the response is set exactly when some name and parent have such a storm |
| StormLaws.MedianOfGroup | backend/app/blame_engine.py:537-541 | the median is the one value with at most half of the latencies that are not zero below it and more than half not above it, 1000 when there is none |
| StormLaws.SuppressedExactly | backend/app/blame_engine.py:548-553 | suppressed are exactly the failed calls of a storm that come after another one of it by start time, then by position |
| RetryStorm.SortRealsKeeps | backend/app/blame_engine.py:537-541 | the median is the middle of the present latencies in rising order |
| RetryStorm.EvenGroupIsStorm | backend/app/blame_engine.py:543-551 | a failed group of at least three with start times and a non-negative median latency is spared only if some call took more than twice the median latency |
| RetryStorm.StormKeepsFirst | backend/app/blame_engine.py:548-553 | a storm never suppresses all failed spans of its group |
| RetryStorm.SuppressionOrder | backend/app/blame_engine.py:511-555 | reordering the list never changes which groups are storms; it never changes which spans are suppressed exactly when each storm has one earliest failure |
| Verdict.RankDescends | backend/app/blame_engine.py:850 | the ranking runs from the highest to the lowest score |
| VerdictExact.RankInOrder | backend/app/blame_engine.py:850 | the ranking is a permutation by falling score, equal scores in the order of the list |
| Verdict.RankFirst | backend/app/blame_engine.py:850 | of several spans with the best score the one listed first heads the ranking |
| Verdict.HighConfidenceExactly | backend/app/blame_engine.py:852-871 | with an originator, confidence is high exactly when one originator outscores every other by more than 0.25; so below high there are at least two |
| VerdictExact.ConfidenceExactly | backend/app/blame_engine.py:852-871 | high, medium and ambiguous: whether some originator, or for want of one some span, outscores the others by more than 0.25 or 0.10 |
| VerdictExact.ReportedExactly | backend/app/blame_engine.py:873-888 | all originators in the order of the ranking, or for want of one its head; then the second of the ranking if the confidence is ambiguous and it is a propagator |
| Verdict.SuppressionGivesConfidence | backend/app/blame_engine.py:841-871 | if suppression leaves exactly one originator and it has an error, its score is at least 0.55 and confidence is high |
| VerdictLaws.ReportedInChain | backend/app/blame_engine.py:873-902 | someone is always reported, and all reported originators are in the slice exactly when some span has that role or there is a span on a failing branch that scores higher than every span listed before it and at least as high as every span listed after it |
| VerdictLaws.FallbackMisses | backend/app/blame_engine.py:879-880 | a concrete failing trace on which the reported span is healthy and lies on no failing branch |
| Causes.WalkEndsExactly | backend/app/blame_engine.py:918-928 | the loop that looks for the cause comes to an end if and only if the parent chain ends or some ancestor is an originator or propagator, and then it has named the first of these or none |
| Causes.CyclicEndsExactly | backend/app/blame_engine.py:918-928 | on a parent cycle it ends if and only if some ancestor is an originator |
| Causes.CycleNeverEnds | backend/app/blame_engine.py:918-928 | a concrete two-span trace on which it goes round for ever |
| Causes.CausedByNearest | backend/app/blame_engine.py:917-929 | below a root the named cause of a failure point is its nearest bad ancestor; none is named exactly when no ancestor is bad |
| VerdictLaws.OrderIndependent | backend/app/blame_engine.py:184-506 | reordering the list keeps the table of spans and hence every role, depth and count, and every unsuppressed score; when each storm has one earliest failure also every ranking score and the confidence |
| ResponseLaws.FailurePointsExactly | backend/app/blame_engine.py:890-929 | the failure points are the manifestors in the order of the list, each with its cause |
| BlameEngine.FindCause | backend/app/blame_engine.py:919-928 | the walk up the parent fields ends and returns that cause, whenever it can end at all |
| BlameEngine.ScoreAll | backend/app/blame_engine.py:840-847 | every span gets its weighted score, suppressed ones 0 |
| BlameEngine.Verdicts | backend/app/blame_engine.py:849-888 | ranking, confidence and reported originators computed from the nodes are those of the trace as a value |
| BlameEngine.CollectSecondary | backend/app/blame_engine.py:895-898 | the secondary contributors are exactly the failed children of the reported spans |
| ResponseLaws.SecondaryExactly | backend/app/blame_engine.py:604-613 | a span is a secondary contributor exactly when its error counts and its parent is reported |
| BlameEngine.OriginatorsContributeNone | backend/app/blame_engine.py:604-613 | an originator below a root has no failed child, so originators yield none |
| BlameEngine.SecondaryNeedsFallback | backend/app/blame_engine.py:895-898 | so the response has secondary contributors only when a clean span or a propagator is reported |
| BlameEngine.ComputeBlame | backend/app/blame_engine.py:798-946 | whenever the search for the cause of each failure point ends, also with cyclic parents: nothing for a trace in which no error counts and every output holds something, and only then; otherwise every part of the response is the one the laws of this table speak about |
| ResponseLaws.LoneFailure | backend/app/blame_engine.py:798-946 | one failed span is the whole verdict: the one originator with high confidence, no failure point and no secondary contributor, one line and one span in the reports |
| ResponseLaws.BlankTextFails | backend/app/blame_engine.py:231 | such is a span that returned nothing but white space |
| BlameEngine.FullChainIsSlice | backend/app/blame_engine.py:900-902 | on a failing acyclic trace the returned full chain is the slice in pre-order |
| BlameEngine.FullChainKeepsRoles | backend/app/blame_engine.py:653-697 | analysed on the returned full chain alone, every span in it has the same role and count as on the whole trace |
| BlameEngine.NarrativeFollowsSlice | backend/app/blame_engine.py:900-902 | the returned narrative is one line per bad span of the returned full chain, in its order |
| Tracer.TraceContext.DetectSources | sdk/verdictlens/trace.py:325-338 | the loop over the arguments returns the registry hits, each once, in order of first appearance |
| TracingLaws.SourcesInOrder | sdk/verdictlens/trace.py:325-338 | each hit stands at its first argument, hits in the order of these arguments |
| TracingLaws.SourcesAre | sdk/verdictlens/trace.py:325-338 | an id is among the hits exactly when it is nonempty and registered at the address of some argument |
| Tracer.TraceContext.RegisterOutput | sdk/verdictlens/trace.py:341-354 | a tracked result is registered under the span and, unless it is `None`, kept alive; nothing else changes |
| Tracer.TraceContext.PropagateBadInputs | sdk/verdictlens/trace.py:357-373 | exactly the registered addresses of tracked arguments are moved to the raising span |
| Tracer.TraceContext.Enter | sdk/verdictlens/trace.py:393-414 | entering a call refines the enter step: fresh context, empty registry for the outermost call, sources read from the registry |
| Tracer.TraceContext.FinalizeSpan | sdk/verdictlens/trace.py:560-572 | the record and then every buffered child are appended to the parent's buffer in order, or emitted when there is no parent |
| Tracer.TraceContext.Return | sdk/verdictlens/trace.py:416-447 | a returning call refines the return step |
| Tracer.TraceContext.Raise | sdk/verdictlens/trace.py:416-447 | a raising call refines the raise step |
| Tracer.TraceContext.RecordChildSpan | sdk/verdictlens/trace.py:662-707 | a programmatic child span refines the leaf step; without an active span nothing is recorded |
| TracingRuns.EveryStepKeeps | sdk/verdictlens/trace.py:380-572 | every step, allocation and collection included, keeps the invariant: buffers are flattened call trees, ids never repeat, the registry agrees with the history |
| Lineage.AttributionIs | sdk/verdictlens/trace.py:341-373 | the history's attribution names, for each tracked value, the last span that returned it or raised while holding it |
| Lineage.RegistryDenotes | sdk/verdictlens/trace.py:341-373 | in every reachable state, with addresses reused freely, a live value's address is registered to a span exactly when that span was the last to return that very value or raise while holding it |
| Lineage.KeptAlive | sdk/verdictlens/trace.py:350-354 | kept alive are exactly the tracked values some call has returned, `None` aside |
| Records.RecordsSay | sdk/verdictlens/trace.py:534-558 | every recorded span has the parent and wall time of its enter step and the name, latency and input captured when it ended; with its output and no error when it returned; with no output, tokens or confidence and the failure's type, message and stack when it raised; with its own output and error when it was added |
| Records.EndsAreRecorded | sdk/verdictlens/trace.py:431-442 | every end in the log has such a record |
| Records.SomeFailureLogged | sdk/verdictlens/trace.py:416-442 | some recorded span fails exactly when some call raised or returned nothing, or a span was added as failed |
| Records.EmittedInTurn | sdk/verdictlens/trace.py:560-572 | in an emitted trace the children of a span stand in the order in which they finished |
| Lineage.LineageExact | sdk/verdictlens/trace.py:410-412 | every recorded span's sources are exactly the last holders of its arguments at the moment of the call, without repetition |
| EndToEnd.EmittedIsCallTree | sdk/verdictlens/trace.py:560-572 | whatever the interleaving, a finished run emits one call tree in pre-order holding every recorded span once |
| RoundTrip.RebuildFlat | backend/app/blame_engine.py:184-208 | flattening a call tree and building the forest from the list gives that tree back, with its one root, child order and depths |
| RoundTrip.RebuildPermuted | backend/app/blame_engine.py:184-208 | from any permutation of the list: the same single root, the same sets of children and the same depths |
| EndToEnd.EmittedIsRebuilt | backend/app/blame_engine.py:184-208 | the forest built from an emitted trace is the run's call tree |
| EndToEnd.ReorderedIsRebuilt | backend/app/blame_engine.py:184-208 | the same up to sibling order for any permutation; ids are unique and parents acyclic, which is what `compute_blame` needs |
| EndToEnd.EmittedOrdered | sdk/verdictlens/trace.py:410-447 | emitted spans finish before their parents and after their sources finished |
| EndToEnd.FailingRunInOrder | backend/app/blame_engine.py:322-404 | every failing traced run in which pass 4b only blames siblings that had finished first has an originator, in whatever order its spans arrive |
| EndToEnd.FailingRunHasOriginator | backend/app/blame_engine.py:352-404 | in particular every failing traced run without bad inputs |
| EndToEnd.RaisingRunHasOriginator | sdk/verdictlens/trace.py:421-434 | in particular every run in which some traced call raised |
| EndToEnd.FailingRunIsExplained | backend/app/blame_engine.py:873-902 | and every span then reported lies on a failing branch |
| EndToEnd.EmittedSays | sdk/verdictlens/trace.py:534-572 | the same holds of every emitted span |
| EndToEnd.AnsweredWhenFailed | backend/app/blame_engine.py:816-818 | the engine answers for a traced run, in whatever order its spans arrive, exactly when some call raised or returned nothing, or a span was added as failed |
| EndToEnd.ListedAsEmitted | backend/app/blame_engine.py:689-697 | the pre-order of an emitted trace is the order of emission |
| EndToEnd.SomeRunRaises | sdk/verdictlens/trace.py:421-447 | such runs exist: one whose only call raises is emitted |
| Framing.DumpsKeeps | sdk/verdictlens/serializers.py:225-232 | the JSON text of a payload contains a line-breaking character only where a key or string of the payload contains U+0085, U+2028 or U+2029 |
| Framing.BreaksAre | sdk/verdictlens/queue.py:154 | lines end at the ten characters of `str.splitlines`; the raw breaks are those of them that JSON does not escape |
| Loading.LoadsBack | sdk/verdictlens/serializers.py:225-232 | the text of every JSON value loads as that value, for a reader of the JSON grammar that does not mention the writer |
| Loading.ArrayText | sdk/verdictlens/serializers.py:225-232 | a list of null and false is written `[null,false]` |
| Loading.ObjectText | sdk/verdictlens/serializers.py:225-232 | an object with one true field is written `{"ok":true}` |
| Loading.LoadedIsHeavier | sdk/verdictlens/serializers.py:225-232 | the compact text is the shortest, numbers aside: any text that loads as the value has as many characters that do not belong to numbers |
| Loading.PayloadComesBack | sdk/verdictlens/queue.py:149-161 | a payload written to a segment file is read back as itself, and as nothing else, exactly when nothing in it carries U+0085, U+2028 or U+2029; otherwise it is not among what is read |
| Utf8.BytesAreEncoded | sdk/verdictlens/queue.py:93-106 | the budget counts the bytes of the UTF-8 encoding |
| Utf8.DecodesBack | sdk/verdictlens/queue.py:77 | which can be read back |
| DiskQueue.PrunedIsShortest | sdk/verdictlens/queue.py:111-133 | pruning leaves exactly what remains after dropping the shortest oldest-by-name prefix that meets the budget; nothing is dropped without a positive budget |
| DiskQueue.EnqueuedKeeps | sdk/verdictlens/queue.py:66-94 | after an enqueue the directory is in name order, holds the new segment, and otherwise exactly what pruning left |
| DiskQueue.BudgetAfterHistory | sdk/verdictlens/queue.py:66-133 | after any history of enqueues the size is at most the budget plus the last payload |
| DiskQueue.KeepsTheLatest | sdk/verdictlens/queue.py:66-133 | with names in order of arrival the directory is always a nonempty latest part of the history |
| DiskQueue.Queue.Prune | sdk/verdictlens/queue.py:111-133 | the loop with its running total leaves the pruned directory |
| DiskQueue.Queue.Enqueue | sdk/verdictlens/queue.py:66-94 | prune, then append; nothing when persistence is off or the text cannot be encoded |
| DiskQueue.Queue.SegmentPaths | sdk/verdictlens/queue.py:176-190 | all names, oldest first |
| DiskQueue.Queue.ClearFile | sdk/verdictlens/queue.py:163-174 | exactly the file of that name goes, if it is still there |
| Client.VerdictLensClient.SendTrace | sdk/verdictlens/client.py:68-82 | a payload goes to the memory queue while it has room, else to the disk queue: the send step, and the spill step with it |
| Client.VerdictLensClient.TakeItem | sdk/verdictlens/client.py:146-160 | the worker takes the oldest payload: the take step |
| Client.VerdictLensClient.PostOnce | sdk/verdictlens/client.py:176-187 | every POST is recorded with its outcome, and a body that cannot be encoded is never answered |
| Client.VerdictLensClient.Deliver | sdk/verdictlens/client.py:284-305 | one to four POSTs of just this payload are made and recorded, up to the first status below 500: delivered exactly when the last came back with such a status, every earlier one having failed or come back with at least 500, and undelivered only after four of these |
| Client.VerdictLensClient.PostWithRetries | sdk/verdictlens/client.py:163-192 | the answer step after a round that ends with a status below 500, the give-up step, which writes the payload to disk, after four POSTs that failed or came back with at least 500, and nothing else |
| Client.VerdictLensClient.PostAll | sdk/verdictlens/client.py:277-309 | one round of POSTs for each payload tried, in order, all of them unless stopped or aborted; what remains is what was tried in vain and what was not tried, or everything after a client error; and the whole is a run of the answer, fail and abort steps that these rounds dictate |
| Client.FlaggedSplit | sdk/verdictlens/client.py:277-309 | delivered and remaining payloads share out the payloads tried, each side in the original order |
| Client.VerdictLensClient.FlushDiskOnce | sdk/verdictlens/client.py:243-313 | one flush is exactly the run that reads the oldest segment, posts its payloads in recorded rounds, removes its file, and writes each remaining payload again in order |
| Client.AnsweredInCounts | sdk/verdictlens/client.py:179 | the copies of a payload counted as answered are as many as its POSTs that came back with a status below 500 |
| Client.ClientConserves | sdk/verdictlens/client.py:68-313 | hence conservation for the client's own queue, directory and recorded POSTs, at every moment: its machine is in a reachable state after construction and after every method |
| Delivery.RunOn | sdk/verdictlens/client.py:68-313 | a run from a reachable state ends in a reachable state, which is how the methods of the client keep its machine reachable |
| Delivery.EveryStepConserves | sdk/verdictlens/client.py:68-313 | every step of sender, worker, flusher and pruning keeps each accepted copy of every surviving payload; copies that a running flush has tried are there twice |
| Delivery.Conservation | sdk/verdictlens/client.py:68-313 | at least once: in every interleaving each accepted copy of a payload that survives a segment file is queued, in a thread's hands, on disk, answered below 500, or pruned |
| Delivery.AtRest | sdk/verdictlens/client.py:68-313 | when all threads are idle and the queue is drained, each accepted copy is on disk, answered or pruned |
| Delivery.AtRestUnbounded | sdk/verdictlens/queue.py:118-119 | without a positive budget each copy is on disk or answered |
| Delivery.ConservedExactly | sdk/verdictlens/queue.py:76-79 | no copy of a payload text can get lost in any run if and only if the text holds none of the three raw line breaks and can be encoded |
| Delivery.InventsNothingExactly | sdk/verdictlens/client.py:255-286 | as long as only payloads of a set are accepted, nothing else is ever queued, held, stored or answered, if and only if the file of each of them that can be written reads back as nothing but that payload |
| Delivery.CleanEchoes | sdk/verdictlens/client.py:259-271 | payloads without a raw line break meet that condition, and so do those none of whose pieces parse |
| Delivery.HiddenText | sdk/verdictlens/serializers.py:225-232 | the JSON text of a payload that fails it, an object with one text field |
| Delivery.InventedRun | sdk/verdictlens/client.py:255-286 | sending that payload, with the server down for a while, can end in a POST of an object that nobody sent |
| Serializer.SafeSerializer.Inner | sdk/verdictlens/serializers.py:66-222 | the recursion terminates over any cyclic graph, restores the active path on every return, and computes the specification |
| Serializer.SafeSerialize | sdk/verdictlens/serializers.py:37-63 | from the top: depth 0 and an empty active path |
| SerializerLaws.CycleExactly | sdk/verdictlens/serializers.py:117-119 | a container within the depth limit shows as `<cycle>` exactly when it lies above itself on the path; shared containers never do |
| SerializerLaws.CycleOnly | sdk/verdictlens/serializers.py:66-222 | wherever `<cycle>` stands in a result, the graph has at that place a container below itself, or a text that reads so |
| SerializerLaws.ReachSer | sdk/verdictlens/serializers.py:143-193 | along every path the result mirrors the graph, later entries winning when keys coincide after shortening |
| SerializerLaws.LeafComesBack | sdk/verdictlens/serializers.py:89-96 | null, booleans, numbers and short texts come back as themselves wherever they stand, what is not a number as null, anything else by its `repr` |
| SerializerLaws.TooDeep | sdk/verdictlens/serializers.py:86-87 | what stands one level below the depth limit is replaced by a mark that tells the limit in decimal |
| SerializerLaws.LongKey | sdk/verdictlens/serializers.py:154-155 | long keys keep their first 256 characters and get dots |
| SerializerLaws.TruncationTold | sdk/verdictlens/serializers.py:150-189 | a list beyond the item limit is cut there, one within it keeps its length; the keys of a dict are the shortened keys of the entries within the limit, each once, and the marker if there are more; a dict within the limit keeps its size exactly when no two keys are shortened to the same one; either tells exactly how many entries are missing |
| SerializerLaws.SerBounded | sdk/verdictlens/serializers.py:143-193 | any result is at most `max_depth + 2` containers deep and `max_items + 1` entries wide, with keys of at most 259 characters |
| SerializerLaws.SerializedUnchanged | sdk/verdictlens/serializers.py:37-63 | a value within the limits comes back unchanged, however its objects are shared |
| SerializerLaws.TruncateBound | sdk/verdictlens/serializers.py:20-34 | a truncated string respects the limit exactly when the limit is at most 32 or the suffix itself fits |
| SerializerLaws.TruncateFits | sdk/verdictlens/serializers.py:20-34 | which it does for every string below a million million characters |
| SerializerLaws.TruncateCount | sdk/verdictlens/serializers.py:20-34 | the number in the suffix is the number of characters dropped exactly when it has three digits |
| SerializerLaws.TruncateCountFails | sdk/verdictlens/serializers.py:20-34 | a string one character over the default limit says 25 when 24 are dropped |
| Replay.ReconstructParentContext | backend/app/replay.py:618-660 | the loop terminates on any lookup and returns the walk, root-most first, or nothing when it is empty |
| Replay.ClimbIsWalk | backend/app/replay.py:637-655 | the result is the one sequence of distinct known spans, consecutive ones child to parent, from the direct parent until the next id is absent, empty, unknown or already met |
| Replay.WalkIsAncestors | backend/app/replay.py:637-655 | it holds exactly the ancestors of the span, also when parents form a cycle |
| Replay.TreeDepth | backend/app/replay.py:675-684 | the depth loop counts the walk, and one more when it stops at an unknown id |
| Replay.ReplayDepthExactly | backend/app/replay.py:675-684 | for every span: the replay depth is the blame engine's depth if and only if the span lies below a root and that root names no unknown parent |
| Replay.DepthBelowRoot | backend/app/replay.py:675-684 | below a root the replay depth is the blame engine's depth, plus one when the root names an unknown parent |
| Replay.LooseDiffers | backend/app/replay.py:680-681 | a lone span with an unknown parent: depth 1 in replay, 0 in the blame engine |
| Replay.CycleDiffers | backend/app/replay.py:677-684 | two spans that are each other's parents: depth 2 in replay, 0 in the blame engine |
| Replay.SiblingCount | backend/app/replay.py:686-689 | the number of other spans with the same parent id, plus one; zero for a root |
| RateLimit.RateLimiter.CheckRateLimit | backend/app/playground.py:88-115 | one request changes only the row of its key, as the window rule says |
| RateLimit.RateBound | backend/app/playground.py:88-115 | for monotone times and limit L >= 1, no closed interval of the window's length holds more than 2L-1 accepted requests |
| RateLimit.RateBoundReached | backend/app/playground.py:88-115 | the bound is reached for every limit and every positive window |
| RateLimit.RefusedMeansFull | backend/app/playground.py:106-107 | a refused request comes after at least L accepted ones within the window's length |

## Left out

- BlameEngine.ComputeBlame: the cause of a failure point is given by id where the source gives the span's name.
- Tracer.TraceContext.Return: exit and registration are one step; under threads that share a context they could interleave.
- Client.VerdictLensClient.FlushDiskOnce: file names for rewritten segments come in as a list of unused names, and other threads do not run in between; their interleavings are the runs of `Delivery`.
- RateLimit.RateLimiter.CheckRateLimit: one clock reading per request, where the source reads the clock twice.
- HTTP, databases, caches, web routes, LLM calls, provider patchers and trace export: a POST is an outcome below 500, at or above 500, or a failure.
- Real clocks and id generation: start times are ordered keys, 0 when missing; new ids are fresh.
- Reason and summary texts and failure modes: string formatting; narrative lines are tagged span ids.
- Rounding of scores to four digits, NaN confidence values and floating-point error.
- Spans whose ids repeat within a trace.
- Async tasks that outlive their parent span, and more than one trace in one state.
- Trace-level totals over models, tokens and cost, and values read from results: easy sums and lookups.
- End times of spans beyond the order of the log; latency and token counts are whatever was captured.
- Failing file operations, a crash between removing a file and writing its rest again, payloads still in memory at close, and switching the SDK off.
- Directory listings are kept in name order instead of being sorted at each call.
- Dataclasses, exceptions, model objects, bytes, dates and enums in the serializer: they reduce to dicts or texts; anything else is opaque with its `repr`.
- Non-string dict keys in the serializer: keys are given as their text.
- Infinite floats in the serializer.
- Database queries, message building and diffs of the replay module; ancestor summaries are given by span id.
- Key lookup, sessions and cost checks of the playground.
