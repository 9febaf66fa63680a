# Verified model of the Forge control plane

This project models the deterministic cores of the Forge control plane in Dafny and proves what they are
for: figures that add up, a ledger whose projections depend on the recorded facts alone, prompt text that
cannot break out of its boundary, a retry budget that survives being rebuilt from comments, a backlog tree
that loses nothing, and files that are replaced as a group or not at all.

`dafny verify dfyconfig.toml` checks the whole project. One module stands in one file of its name.

- **Capacity** (`Timeline`, `Capacity`): the event sweep over run intervals, refined against the pointwise
  count "how many runs cover this instant"; conservation of busy time. Time is counted in microseconds.
- **Event ledger** (`Lifecycle`, `EventFold`, `EventLedger`, `Rollup`, `Migration`): the transition tables,
  the fold of a unit's events, the append-only ledger with its two indexes, the cross-project rollup, and the
  migration of orchestrator documents. The fold and the ledger are proved against what the events say,
  with no accumulator.
- **Prompt boundary** (`PromptBoundary`, `BoundaryEscape`): the two ways untrusted text is made harmless,
  stripping to a fixpoint and escaping to a fixpoint.
- **Context packets** (`PacketSelection`, `PacketBudget`): admission, greedy selection and eviction under a
  byte budget and a token budget.
- **Retry budget** (`RetryBudget`, `RetryRuns`, `RetrySummary`, `RetryPayload`, `RetryComments`,
  `RetryRebuild`): decide and record, runs of such steps, the payload text character by character, the comment
  markers, and the store rebuilt from them.
- **Grouped files** (`WriteGroup`): stage, replace, and roll back over a file system where any staging or
  replacing step may fail.
- **Backlog and incidents** (`Backlog`, `Retirement`): the cycle check, the tree it makes total, and the
  merge proof that retires incidents.
- **Manifests** (`Json`, `Matching`, `Manifest`, `ManifestForm`): canonical text (sections 3.2.2 and 3.2.3 of
  RFC 8785) that decodes in one way, and normalisation as the choice of one form per class of reorderings.
- **Diff listings** (`GitDiff`): the NUL-separated parser as the inverse of the printer.
- **Rates** (`Wilson`, `Efficacy`): the confidence interval over the reals, and the counts behind it.
- **Dispatch** (`Dispatch`, `DispatchRuns`, `DispatchGates`, `DigestWitness`): the checkpoint journal, the
  orchestrator's part of a dispatch, runs of dispatches with restarts and outside changes to work units, and the
  label gates in front of them.
- **Shared** (`Options`, `Sorting`, `Text`): optional values, stable sorting as Python performs it, and strings
  ordered by code point.

Where the source loops or updates an object, the model is a method or a class, tied by its contract to a
function or predicate about which the lemmas speak. What the source computes by expression is a function.

Assumptions that stand as parameters or preconditions: the fingerprint's SHA-256 (`digest`) is injective and
holds no colon where a lemma asks for it (`DigestWitness.DigestsCanBeMet` shows that this can be met); the
JSON reader of retry payloads (`loads`) gives back every text the writer wrote and refuses every part cut out of
one (`RetryComments.ReaderExists` shows that this can be met); the credential test (`leaky`), the time-stamp shape
(`stamp`), UTF-8 encodability (`encodable`), path decoding (`decode`), number rendering (`number`), square roots
(`sqrt`), lower-casing and reference parsing (`Registry`) are arbitrary functions with the stated property.
`Event.rest`-like fields stand for everything compared only for equality. Sets stand for the sorted tuples of
merged references and dependencies.

Two statements of the source's own documentation do not hold of the code, and the model follows the code:

- A comment beside the fold says that every post-merge state is reachable through merged alone. The table also
  leads from blocked to deploying, live and rolling-back (`src/agentic_sdlc/event_ledger.py`, line 170);
  `EventFold.LiveWithoutMerge` is a history that uses it. `EventFold.ReleaseFollowsMergeExactly` says when the
  comment does hold: if and only if every move out of blocked into a release state comes after a merge.
- `create_unit` promises that replays are no-ops by event or id. When another unit in intake holds the event
  key, the dispatcher receives that unit and then fails on its own, each time it is called.
  `DispatchRuns.CreatedOnceExactly` says when a unit is created once and for all: if and only if there was no such
  holder when `create_unit` was called for it. `DispatchRuns.ForeignKeyCreatesTwice` is an instance.

A retry comment is read back whole if and only if no brace of its payload text is followed by a comment close
(`RetryComments.MarkerSurvives`). The payload text is the one `json.dumps` writes, so this is a statement about
its fields (`RetryPayload.PayloadStops`). The CI log cannot bring such a brace in, being sanitized. The repository
and the timestamp can: they are not checked, and the timestamp `} -->` loses its retry
(`RetryRebuild.BraceTimestampLosesTheRetry`). An event key that holds `-->` is refused when the comment is rendered,
but only after the retry was recorded, so it loses its retry too (`RetryRebuild.CloseKeyLosesTheRetry`).
`RetryRebuild.RebuiltExactlyWhenKept` says that there is nothing else: a run is rebuilt from its comments, and every
request decided alike, if and only if no recorded entry has such a key, repository or timestamp.

## Model

| member | source | states |
|---|---|---|
| Timeline.ConcurrencyTimeline | src/agentic_sdlc/capacity_metrics.py:360-393 | For any runs and any window: the segments are non-empty, contiguous, and tile the window; each carries the number of runs covering each of its instants (half-open); and the window is cut exactly where a run starts or ends |
| Timeline.TimelineOrderInsensitive | src/agentic_sdlc/capacity_metrics.py:360-393 | There is only one such timeline: every permutation of the runs gives the same segments |
| Timeline.SweepMoments | src/agentic_sdlc/capacity_metrics.py:370-388 | Inside the window, the moments of the clipped event list are exactly the starts and ends of the runs |
| Timeline.EventsCount | src/agentic_sdlc/capacity_metrics.py:375-379 | The net of the +1 and -1 events up to an instant is the number of runs covering it |
| Timeline.ClippedCount | src/agentic_sdlc/capacity_metrics.py:370-374 | Clipping runs to the window changes no count inside it |
| Capacity.SecondsAtOrAbove | src/agentic_sdlc/capacity_metrics.py:423-436 | The loop measures exactly the instants of the asked-for range at or above the level |
| Capacity.PeakIsMaximum | src/agentic_sdlc/capacity_metrics.py:411-412 | The peak bounds the concurrency of every instant, and some instant attains it |
| Capacity.OccupiedIsLevelOne | src/agentic_sdlc/capacity_metrics.py:419-421 | Occupied time is the time with at least one run active |
| Capacity.BusyIsRunTime | src/agentic_sdlc/capacity_metrics.py:415-416 | Segment length times concurrency, summed, is the pointwise total of the concurrency |
| Capacity.LevelSumIsCappedRunTime | src/agentic_sdlc/capacity_metrics.py:423-436 | Summing the time at or above each level up to a top counts every instant's concurrency, capped at the top |
| Capacity.BusyTimeConserved | src/agentic_sdlc/capacity_metrics.py:411-436 | Busy time equals the sum of the clipped run lengths and the sum over the levels up to the peak; occupied <= busy <= peak times window |
| Capacity.Read | src/agentic_sdlc/capacity_metrics.py:489-530 | The runs are exactly the records timed inside the window, in order, each over the part of its span there, and the waits exactly those queued at some instant of it; every counter is the number of records of its kind; every record is counted once as a run and once as a wait; clipping hides no run from any instant |
| Capacity.WaitedMeans | src/agentic_sdlc/capacity_metrics.py:516-527 | A record is listed as a wait if and only if it was queued and not started at some instant of the window |
| Capacity.PoolReport | src/agentic_sdlc/capacity_metrics.py:678-694 | A pool is rejected exactly when some instant saw more runs than slots; otherwise utilization is within [0, 1], busy time is the clipped run time, and slots times saturated time is at most busy time |
| Capacity.SaturationBelowBusy | src/agentic_sdlc/capacity_metrics.py:681-694 | Time at or above the slot count, times the slots, never exceeds run time |
| Capacity.ProjectSplitConserved | src/agentic_sdlc/capacity_metrics.py:1167-1181 | The busy time of the per-project tracks sums to the busy time of the whole |
| Lifecycle.OrchestratorEdgesKept | src/agentic_sdlc/event_ledger.py:161-171 | The factory table allows every move of the orchestrator's, which never loops in place |
| Lifecycle.TerminalExactly | src/agentic_sdlc/event_ledger.py:141-171 | The terminal states are exactly those that no move leaves |
| EventFold.Fold | src/agentic_sdlc/event_ledger.py:763-865 | The loop over a mutable accumulator computes the fold of the whole history or refuses it, stopping at the first event that cannot follow |
| EventFold.FoldAccepts | src/agentic_sdlc/event_ledger.py:763-809 | A history folds if and only if it opens at intake and makes only moves of the table out of non-terminal states; the fold's state is the last event's |
| EventFold.FoldMeaning | src/agentic_sdlc/event_ledger.py:749-865 | Every field of a projection read off the events: transitions numbered 1..n and chained from intake, the blocked reason (that of the last move when it entered blocked, else none), repair cycles, the references in effect (given by some event, by none after it), merged references (exactly the non-leaking references in effect at some entry into merged), dependencies, counts, and the activity, field for field, under the model's alias if it has one |
| EventFold.OneInEffect | src/agentic_sdlc/event_ledger.py:745-760 | There is one reference in effect after any events: the one some event gave with none given after it, or none when no event gave one |
| EventFold.TraceStep | src/agentic_sdlc/event_ledger.py:783-809 | One event extends the trace by its numbered, chained move or leaves it alone |
| EventFold.MergesStep | src/agentic_sdlc/event_ledger.py:810-828 | One event keeps merged references equal to the references in effect at entries into merged |
| EventFold.FoldDescribes | src/agentic_sdlc/event_ledger.py:763-865 | The description holds after every prefix of an accepted history |
| EventFold.ActivityNotStale | src/agentic_sdlc/event_ledger.py:829-843 | The activity shown is never older than the last state change |
| EventFold.ReleaseFollowsMergeExactly | src/agentic_sdlc/event_ledger.py:149-171 | In a legal history every release state follows a merge if and only if every move out of blocked into a release state does |
| EventFold.ReleaseNeedsMergeOrBlock | src/agentic_sdlc/event_ledger.py:149-171 | A release state is entered only after the unit was merged or blocked |
| EventFold.LiveWithoutMerge | src/agentic_sdlc/event_ledger.py:161-171 | Intake, triaged, blocked, live is accepted with no merge, so post-merge states do not need one |
| EventFold.MergeNeedsReview | src/agentic_sdlc/event_ledger.py:149-171 | A legal history enters merged from the human merge gate only, after it was dispatched, verified, and reviewed |
| EventLedger.RecordedAccepts | src/agentic_sdlc/event_ledger.py:899-927 | From empty, a stream is accepted if and only if its events are registered and mutually compatible in id and idempotency key, in any order; the log then holds each once |
| EventLedger.IndexesDecide | src/agentic_sdlc/event_ledger.py:899-923 | The two index lookups decide exactly what a scan of the whole log would |
| EventLedger.ReplayAppendsNothing | src/agentic_sdlc/event_ledger.py:899-923 | Replaying any recorded events leaves the log as it is |
| EventLedger.Ledger.constructor | src/agentic_sdlc/event_ledger.py:877-881 | An empty ledger with its registry |
| EventLedger.Ledger.Append | src/agentic_sdlc/event_ledger.py:899-923 | Keeps the event, replays it as a no-op, or refuses it leaving the log unchanged; both indexes go on holding exactly the recorded events |
| EventLedger.Ledger.Extend | src/agentic_sdlc/event_ledger.py:925-927 | Stops at the first refused event and keeps what came before it |
| EventLedger.Ledger.Project | src/agentic_sdlc/event_ledger.py:994-1001 | The projection of one unit's events in time-then-arrival order |
| EventLedger.Ledger.ProjectAll | src/agentic_sdlc/event_ledger.py:1003-1015 | One grouping pass gives `projection(p, u)` of every distinct wanted scope, in scope order |
| EventLedger.ProjectionOrderFree | src/agentic_sdlc/event_ledger.py:969-1001 | Two ledgers fed the same set of events, in any order with any replays, project a unit with distinct timestamps alike |
| EventLedger.ScopesOrderFree | src/agentic_sdlc/event_ledger.py:1009-1015 | The list of scopes depends on the set of events alone |
| EventLedger.ScopesRise | src/agentic_sdlc/event_ledger.py:1009-1015 | Scopes are listed by project and by unit within one, of the wanted projects only |
| EventLedger.ProjectionMeaning | src/agentic_sdlc/event_ledger.py:994-1001 | A projection describes its unit's recorded events, bears its scope, and shows no stale activity |
| EventLedger.GroupsAreUnits | src/agentic_sdlc/event_ledger.py:1009-1015 | Each group of the one-pass grouping is one unit's ordered events |
| EventLedger.Group | src/agentic_sdlc/event_ledger.py:1009-1014 | The grouping loop partitions the wanted events by scope, keeping their order |
| EventLedger.FoldGroups | src/agentic_sdlc/event_ledger.py:1015-1015 | Every group is folded, or the whole listing is refused |
| Rollup.Aggregate | src/agentic_sdlc/event_ledger.py:1017-1061 | Each project's bucket tallies its own projections, and the totals tally all of them |
| Rollup.SumBump | src/agentic_sdlc/event_ledger.py:1046-1049 | Bumping one counter adds one to the sum of all of them |
| Rollup.ScopesPartition | src/agentic_sdlc/event_ledger.py:1009-1014 | The per-unit event counts of the wanted scopes add up to the wanted events |
| Rollup.RollupConserves | src/agentic_sdlc/event_ledger.py:1017-1061 | Total events, units, byState and byStage sum exactly to the in-scope events and units of the ledger |
| Migration.Migrate | src/agentic_sdlc/event_ledger.py:1115-1191 | Fails exactly when a unit lacks an RFC 3339 timestamp; otherwise emits the histories of the units in id order |
| Migration.IdsRise | src/agentic_sdlc/event_ledger.py:1139-1139 | The histories stand by rising unit id |
| Migration.MigrateUnit | src/agentic_sdlc/event_ledger.py:1139-1190 | One genesis event and one event a transition |
| Migration.FactoryExtendsOrchestrator | src/agentic_sdlc/event_ledger.py:161-171 | What migration rests on: the fold's table extends the orchestrator's pointwise |
| Migration.EventIdInjective | src/agentic_sdlc/event_ledger.py:1156-1178 | Event ids (project, unit, zero-padded sequence) never collide across units and numbers |
| Migration.PaddedToFour | src/agentic_sdlc/event_ledger.py:1156-1178 | Sequence numbers have four digits, or as many as they need |
| Migration.MigratedFold | src/agentic_sdlc/event_ledger.py:1115-1191 | Folding a migrated unit gives back exactly the recorded transitions and the final state |
| Migration.MigratedKeeps | src/agentic_sdlc/event_ledger.py:1133-1190 | A migrated unit keeps its dependencies and successor, stands in the stage of its state, and carries its times, the creation time failing that of its first transition |
| Migration.MigrationLossless | src/agentic_sdlc/event_ledger.py:1115-1191 | A whole document enters an empty ledger without conflict, every unit projects to its recorded history with its stage, dependencies and successor, and a second migration appends nothing |
| Migration.LosslessExactlyWhenOrderly | src/agentic_sdlc/event_ledger.py:1115-1191 | A document as the orchestrator writes it migrates without loss if and only if no unit uses an event key twice, its genesis key included, or records its events out of timestamp order |
| PromptBoundary.SanitizePayload | src/agentic_sdlc/knowledge.py:345-361 | The loop ends, on a harmless text reached from the payload by deleting one NUL or one marker at a time, the strip-to-fixpoint of the payload |
| PromptBoundary.SanitizedHarmless | src/agentic_sdlc/knowledge.py:345-361 | The result holds no NUL and no boundary marker of either kind; harmless text is unchanged; sanitizing is idempotent |
| PromptBoundary.SanitizingOnlyDeletes | src/agentic_sdlc/knowledge.py:345-361 | Nothing is lost but NULs and markers: the result is reached by deleting one of them at a time |
| PromptBoundary.StripClean | src/agentic_sdlc/knowledge.py:357-359 | One substitution pass changes a text if and only if it holds a marker |
| PromptBoundary.MarkerBodiesArePlain | src/agentic_sdlc/knowledge.py:358-359 | No marker body holds a bracket, a backslash or a NUL |
| PromptBoundary.SpelledIsBody | src/agentic_sdlc/knowledge.py:358-359 | Either word makes a marker in any case, with a slash before it or none and blanks around it |
| PromptBoundary.FoldsExactly | src/agentic_sdlc/knowledge.py:358-359 | A character counts as a letter of the words if and only if it is that letter in either case or one of the four that fold onto i, s and k |
| PromptBoundary.WrappedMarkers | src/agentic_sdlc/context_builder.py:670-688 | Markers around a text without markers are the only markers of the whole |
| PromptBoundary.RenderedBlockIsSealed | src/agentic_sdlc/context_builder.py:670-688 | A rendered evidence block contains exactly its two delimiters, for every citation and payload |
| PromptBoundary.RenderedBlockCarries | src/agentic_sdlc/context_builder.py:670-688 | Between the delimiters stand citation and payload, less their NULs and markers, and verbatim when they hold none |
| BoundaryEscape.BoundarySafeText | src/agentic_sdlc/context_builder.py:813-844 | The escaping loop ends, on a text without markers or NULs that decodes to the input |
| BoundaryEscape.EscapeProgress | src/agentic_sdlc/context_builder.py:837-844 | Each pass that changes anything leaves strictly fewer open brackets |
| BoundaryEscape.MarkerPassEncodes | src/agentic_sdlc/context_builder.py:838-841 | A marker pass turns one encoding of a text into another encoding of the same text |
| BoundaryEscape.DecodeEncoded | src/agentic_sdlc/context_builder.py:813-844 | Leftmost-first decoding of the four escapes recovers the encoded text |
| BoundaryEscape.BoundarySafeIsLossless | src/agentic_sdlc/context_builder.py:813-844 | Decoding the result gives back the exact input, and the result holds no live marker |
| BoundaryEscape.BoundarySafeInjective | src/agentic_sdlc/context_builder.py:813-844 | Two different texts never escape to the same text |
| PacketSelection.PromptIsBarePlusNotices | src/agentic_sdlc/context_builder.py:1019-1074 | The running byte count is the length of the prompt but for the findings and notices, whose bytes are the exact difference |
| PacketSelection.SelectionIsSound | src/agentic_sdlc/context_builder.py:1476-1496 | The selection keeps every mandatory record first, counts true bytes, stays within both budgets and the record limit, and notes each candidate once |
| PacketSelection.SelectionIsMaximal | src/agentic_sdlc/context_builder.py:1483-1496 | What was left out would not fit beside the final selection |
| PacketSelection.NotesTellTurns | src/agentic_sdlc/context_builder.py:1483-1496 | The note of each candidate tells what its turn decided |
| PacketSelection.SelectedPrefixNames | src/agentic_sdlc/context_builder.py:1545-1555 | The prefix match that rewrites an evicted record's note finds that record's note only |
| PacketBudget.Admit | src/agentic_sdlc/context_builder.py:1219-1333 | Refuses a flawed record or two differing records of one id, in any order; otherwise admits each record that is not excluded once |
| PacketBudget.SelectEvidence | src/agentic_sdlc/context_builder.py:1476-1496 | The selection loop computes the greedy selection |
| PacketBudget.EvictUntilItFits | src/agentic_sdlc/context_builder.py:1519-1581 | The eviction loop terminates, on the packet that gives back picked records from the last |
| PacketBudget.AssemblePacket | src/agentic_sdlc/context_builder.py:1430-1581 | Ordering, the mandatory budget checks, selection and eviction together |
| PacketBudget.PacketIsSound | src/agentic_sdlc/context_builder.py:1363-1581 | A returned packet was built of complete evidence; its byte count is its real rendered length and fits the byte budget and the token budget less the reserve; every required record is in it, none twice; one note a record; noted selected are exactly the optional records in the packet |
| PacketBudget.PacketGivesBackLeast | src/agentic_sdlc/context_builder.py:1519-1581 | With one more of the evicted records the packet overflows; a build is blocked if and only if the evidence is not complete, or the mandatory evidence or every such packet overflows |
| PacketBudget.PacketIsRanked | src/agentic_sdlc/context_builder.py:1428-1449 | The required records of a packet come first, by id, and the others from the most to the least relevant, by id at a tie |
| PacketBudget.LeftOutDoesNotFit | src/agentic_sdlc/context_builder.py:1485-1581 | An optional record left out, with a less relevant one kept, does not fit (record limit, bytes, or tokens less the reserve) beside the mandatory evidence and the kept records that outrank it |
| PacketBudget.RequiredReasons | src/agentic_sdlc/context_builder.py:1362-1390 | One reason for each required source that failed or supplied nothing and for each of its stale records, and no other reason |
| PacketBudget.NoReasonsMeansComplete | src/agentic_sdlc/context_builder.py:1362-1409 | The evidence is complete if and only if there is no such reason and, at high risk, nothing admitted is stale |
| PacketBudget.NothingEvictedWithoutNotices | src/agentic_sdlc/context_builder.py:1519-1543 | With no findings and no notices the greedy selection is the packet |
| PacketBudget.OrderedEvidenceUnique | src/agentic_sdlc/context_builder.py:1431-1449 | The mandatory and the scored order depend on the set of records alone |
| PacketBudget.BuildContextPacket | src/agentic_sdlc/context_builder.py:1113-1581 | The packet is a function of the set of retrieved records: input order and repetition change nothing |
| RetryBudget.KeyInjective | src/agentic_sdlc/infra_recovery.py:156-158 | Targets with exact heads never share a record key |
| RetryBudget.HeadsAreHexadecimal | src/agentic_sdlc/infra_recovery.py:111-111 | A head is forty lower-case hexadecimal digits |
| RetryBudget.BackoffMonotone | src/agentic_sdlc/infra_recovery.py:422-449 | The delay lies within [base, max] and never falls from one attempt to the next, whatever the jitter |
| RetryBudget.RetriedJobs | src/agentic_sdlc/infra_recovery.py:392-397 | The jobs retried are the failed ones, each once, in increasing order |
| RetryBudget.DecidedExactly | src/agentic_sdlc/infra_recovery.py:309-406 | Which requests are decided and what becomes of each, read off the store and the request: a retry if and only if the request is valid, for the current head, transient, not acted on before (not in flight when it has no key) and with an attempt left; a block the same with none left; repair routing and no-ops likewise |
| RetryBudget.RetryCarries | src/agentic_sdlc/infra_recovery.py:390-406 | A retry counts one attempt more, names the failed jobs once each in order, and waits the base delay doubled once for each earlier attempt plus a jitter below it, an hour at most |
| RetryBudget.DecisionCarries | src/agentic_sdlc/infra_recovery.py:335-356 | Every decision names its target, class and budget; what is no retry repeats the attempts on record and names no job |
| RetryBudget.BadArgumentsAreRefused | src/agentic_sdlc/infra_recovery.py:318-331 | Blank repositories, bad numbers, heads, budgets and delays are refused before anything is decided |
| RetryBudget.GoodArgumentsAreDecided | src/agentic_sdlc/infra_recovery.py:318-331 | Any other arguments are decided |
| RetryBudget.RetryState.NoteRetry | src/agentic_sdlc/infra_recovery.py:208-233 | Records a retry decision with its event once, and refuses any other action or a blank key |
| RetryBudget.RetryState.NoteExhaustion | src/agentic_sdlc/infra_recovery.py:235-254 | Records a block decision as exhausted once, and refuses any other action or a blank key |
| RetryBudget.RetryState.Handle | src/agentic_sdlc/infra_recovery.py:291-406 | One completion event: decided as `DecidedExactly` says, then recorded as decided; a refusal leaves the store alone |
| RetryRuns.RunIsSound | src/agentic_sdlc/infra_recovery.py:208-254 | After any run with a fixed budget, every record is what its distinct recorded events make it: the first `max` retries, then blocks |
| RetryRuns.RecordedIsRetryable | src/agentic_sdlc/infra_recovery.py:309-406 | Every recorded entry comes from a request that was valid, for the head the pull request was at, and transient |
| RetryRuns.RecordedExactly | src/agentic_sdlc/infra_recovery.py:208-249 | A request is recorded if and only if it is such a request, has a key and a timestamp, and was not recorded on that head before; any other leaves the run as it is |
| RetryRuns.BudgetHolds | src/agentic_sdlc/infra_recovery.py:177-254 | Attempts equal the number of distinct event keys recorded as retries and never exceed the maximum |
| RetryRuns.ReplayIsFree | src/agentic_sdlc/infra_recovery.py:208-254 | A replayed delivery changes nothing |
| RetryRuns.ExhaustionIsFinal | src/agentic_sdlc/infra_recovery.py:235-406 | An exhausted head stays exhausted and is never retried again |
| RetrySummary.SummaryIsInert | src/agentic_sdlc/infra_recovery.py:409-419 | No summary, of whatever log, holds a comment open or close |
| RetrySummary.SummaryKeepsWords | src/agentic_sdlc/infra_recovery.py:409-420 | The summary is the words of the log with one blank between, the first 500 characters of them, when they hold no comment delimiter, and a standing text when there are none |
| RetrySummary.CollapseSpaces | src/agentic_sdlc/infra_recovery.py:417-417 | However a log is spaced, its words are kept with one blank between |
| RetrySummary.EveryTextIsSpread | src/agentic_sdlc/infra_recovery.py:417-417 | Every log is words and gaps |
| RetrySummary.ReplaceFirst | src/agentic_sdlc/infra_recovery.py:418-418 | The first occurrence of a delimiter is spelled out where it stood, and the text behind it treated alike |
| RetrySummary.CloseNeutralized | src/agentic_sdlc/infra_recovery.py:417-418 | The first replacement leaves no `-->` |
| RetrySummary.OpenNeutralized | src/agentic_sdlc/infra_recovery.py:417-418 | The second replacement leaves no `<!--` |
| RetrySummary.OpenPassKeepsClosed | src/agentic_sdlc/infra_recovery.py:417-418 | The second replacement brings no `-->` back |
| RetryComments.TakesWhole | src/agentic_sdlc/infra_recovery.py:497-500 | The lazy match takes the whole object or stops at an earlier brace that a close follows, never past the end |
| RetryPayload.NoCloseNoBreak | src/agentic_sdlc/infra_recovery.py:508-517 | A text without `-->` never stops the match short |
| RetryPayload.PayloadStops | src/agentic_sdlc/infra_recovery.py:508-552 | The payload text stops the match short if and only if the event key, the repository or the timestamp holds a brace followed by a close; the CI log never makes it |
| RetryPayload.PayloadUnique | src/agentic_sdlc/infra_recovery.py:518-533 | The payload text decodes in one way: equal texts carry the same target, event key, attempts, status and timestamp |
| RetryPayload.PayloadPrefixFree | src/agentic_sdlc/infra_recovery.py:518-533 | No payload text is a proper beginning of another, so a payload cut short is never read as a payload |
| RetryPayload.PayloadPartFree | src/agentic_sdlc/infra_recovery.py:518-533 | No part of a payload text, cut out anywhere, is a payload text |
| RetryPayload.PayloadSays | src/agentic_sdlc/infra_recovery.py:518-533 | The payload carries target, event key, attempts, budget, status, timestamp and schema under their keys, and a block the sanitized log |
| RetryPayload.SourceNamesArePlain | src/agentic_sdlc/infra_recovery.py:518-533 | The keys and constants the source writes are as plain as is asked of them |
| RetryComments.CommentIsReadBack | src/agentic_sdlc/infra_recovery.py:497-552 | A rendered comment is read back as exactly its payload if and only if the repository and the timestamp hold no brace followed by a close, whatever the CI log says |
| RetryComments.UnreadableIsInParts | src/agentic_sdlc/infra_recovery.py:497-552 | Otherwise all that is found are proper parts of its payload, whatever markers its fields imitate |
| RetryComments.ReaderExists | src/agentic_sdlc/infra_recovery.py:555-586 | What is asked of the JSON reader can be met: some reader gives every payload text back and refuses every part of one |
| RetryComments.MarkerSurvives | src/agentic_sdlc/infra_recovery.py:497-552 | The marker written is the one marker read back, if and only if its payload text does not stop short |
| RetryComments.ProseIsSafe | src/agentic_sdlc/infra_recovery.py:534-552 | The prose of a rendered comment opens no second marker |
| RetryComments.Rebuild | src/agentic_sdlc/infra_recovery.py:555-586 | The loop over comments merges exactly the valid payloads of the trusted ones |
| RetryComments.ParsedExactly | src/agentic_sdlc/infra_recovery.py:589-611 | A marker is read if and only if its text says a repository, an exact head, an event key and a positive attempt; it is then taken as it is, and anything else can grant nothing |
| RetryComments.MergeJoins | src/agentic_sdlc/infra_recovery.py:614-642 | The merge is a join for each head: the greatest attempts, the union of events, exhausted if any says so |
| RetryRebuild.JoinAgrees | src/agentic_sdlc/infra_recovery.py:555-642 | A join of payloads covering a run agrees with the run's record on attempts, events and status |
| RetryRebuild.SameViewDecidesAlike | src/agentic_sdlc/infra_recovery.py:291-406 | Stores that agree on attempts, events and status of a head decide alike |
| RetryRebuild.RebuiltStateDecidesAlike | src/agentic_sdlc/infra_recovery.py:291-642 | When every recorded entry is kept (its key closes no comment, its repository and timestamp break no marker), the store rebuilt from the comments, each worded as its own retry, in any order, with any duplicates and any untrusted noise, agrees with the store the run built on every head and drives the same decisions |
| RetryRebuild.RebuiltExactlyWhenKept | src/agentic_sdlc/infra_recovery.py:291-642 | Over whole runs: the rebuilt store agrees with the run's on every head, and decides every request alike, if and only if every recorded entry is kept |
| RetryRebuild.LostEvent | src/agentic_sdlc/infra_recovery.py:208-233 | The event of an entry that is not kept is in the run's store and never in the rebuilt one |
| RetryRebuild.LostEventIsActedOnAgain | src/agentic_sdlc/infra_recovery.py:362-378 | A lost event is decided differently when it is delivered again: the run ignores it, the rebuilt store acts on it |
| RetryRebuild.RecordedRenders | src/agentic_sdlc/infra_recovery.py:508-516 | A recorded entry is refused a comment for its event key only: it holds a comment close |
| RetryRebuild.RunsCanBeReported | src/agentic_sdlc/infra_recovery.py:508-586 | Every run has comments that report it, so the statements about reported runs speak of every run |
| RetryRebuild.BraceTimestampLosesTheRetry | src/agentic_sdlc/infra_recovery.py:518-586 | A delivery with the timestamp `} -->` is recorded, its attempt counted, and no comments give it back |
| RetryRebuild.CloseKeyLosesTheRetry | src/agentic_sdlc/cli.py:3140-3155 | A delivery with the event key `k-->` is recorded, its attempt counted, never rendered, and no comments give it back |
| WriteGroup.CandidateInjective | src/agentic_sdlc/cli.py:232-232 | Scratch names with different counters differ |
| WriteGroup.Scratch | src/agentic_sdlc/cli.py:226-241 | The scratch-name search terminates, on a name that is no existing path, destination or taken name |
| WriteGroup.Stage | src/agentic_sdlc/cli.py:243-267 | Every document is staged beside its destination, unless a destination is a directory or a step fails, and then the file system is as it was |
| WriteGroup.ReplaceAll | src/agentic_sdlc/cli.py:268-293 | Every destination is replaced and no scratch file remains, unless a step fails, and then the file system is as it was |
| WriteGroup.RollBack | src/agentic_sdlc/cli.py:283-287 | Restores run newest first and undo the recorded replacements |
| WriteGroup.Abandon | src/agentic_sdlc/cli.py:279-290 | Rolling back and dropping the litter gives the original file system |
| WriteGroup.MoveUndone | src/agentic_sdlc/cli.py:271-287 | Undoing one replacement at either of its two moves gives the state before it |
| WriteGroup.ProgressStep | src/agentic_sdlc/cli.py:270-290 | One more replacement keeps the group both undoable and, backups aside, done so far |
| WriteGroup.ExportedMeans | src/agentic_sdlc/cli.py:207-296 | After success a path holds the data of the last document naming it, and otherwise what it held |
| WriteGroup.WriteAll | src/agentic_sdlc/cli.py:207-296 | All or nothing: on error nothing on disk or stdout has changed, even when one path appears twice; on success exactly the group's outputs have; and it succeeds if and only if the outputs are not mixed, none is a directory, and the system fails no step |
| Backlog.ChainAccepted | src/agentic_sdlc/control_center.py:933-953 | One item's walk accepts if and only if its parent chain ends within the depth limit |
| Backlog.DetectCycles | src/agentic_sdlc/control_center.py:933-953 | A provider's items are accepted if and only if every parent chain ends within 32 |
| Backlog.LoopNeverEnds | src/agentic_sdlc/control_center.py:933-953 | A chain that meets itself never ends, so every cycle is rejected |
| Backlog.CheckBacklog | src/agentic_sdlc/control_center.py:1827-1834 | The provider-scoped check over one project's items |
| Backlog.BuildTree | src/agentic_sdlc/control_center.py:1605-1652 | For an accepted backlog the tree build terminates, on the forest of the items |
| Backlog.ForestIsLossless | src/agentic_sdlc/control_center.py:1605-1652 | The forest holds every item exactly once; roots plus all descendant counts equal the number of items |
| Backlog.ForestIsShallow | src/agentic_sdlc/control_center.py:1605-1652 | No branch is deeper than the limit |
| Backlog.ForestIsTrue | src/agentic_sdlc/control_center.py:1605-1652 | Every node marks a named parent that is absent, and its children are exactly the items naming it within its provider; the roots are the items whose parent is absent or unnamed |
| Backlog.DescendantsCountItems | src/agentic_sdlc/control_center.py:1260-1262 | Descendant counts count the items of the subtrees |
| Backlog.NextLevel | src/agentic_sdlc/control_center.py:1618-1650 | The children of one level are exactly the next level |
| Retirement.ListCarrier | src/agentic_sdlc/control_center.py:2069-2073 | A unit is listed under its current reference and each merged one, the empty one excepted |
| Retirement.IndexCarriers | src/agentic_sdlc/control_center.py:2067-2073 | The index lists exactly the units that carry each reference |
| Retirement.MergeProven | src/agentic_sdlc/control_center.py:2084-2122 | The merge rule as computed over the index is the rule over all units |
| Retirement.RetainUnmerged | src/agentic_sdlc/control_center.py:2074-2124 | The loop keeps, in order, exactly the incidents the merge rule does not retire |
| Retirement.MergedIsLedgerMerge | src/agentic_sdlc/control_center.py:226-235 | A reference counts as merged for a unit if and only if the unit's folded history enters merged while that reference is in effect, and it carries no credential |
| Retirement.AgreementMeans | src/agentic_sdlc/control_center.py:1438-1480 | A unit agrees with a provider if and only if there is none to agree with, the reference's own repository is declared for that provider alone, or it is undeclared and the unit's is declared for that provider alone or undeclared too |
| Retirement.OtherDeclarationsDisagree | src/agentic_sdlc/control_center.py:1438-1480 | A repository declared for another provider or for several keeps the incident from joining, the reference's own repository deciding first |
| Retirement.ScopeMeans | src/agentic_sdlc/control_center.py:242-291 | The rule is about four kinds of incident, and about unclassified ones of GitHub's named after a merge state of that very request |
| Retirement.NamedRetirementIsProven | src/agentic_sdlc/control_center.py:2085-2105 | Read off the registry and the ledger: an incident naming a unit is retired if and only if that unit's own ledger history proves the merge |
| Retirement.UnnamedRetirementIsProven | src/agentic_sdlc/control_center.py:2106-2122 | An incident naming none is retired if and only if some provider-agreeing unit carries its reference and the ledger proves the merge for every such unit |
| Retirement.StatusIsInEffect | src/agentic_sdlc/control_center.py:226-235 | A status tells the change request and the repository in effect in the ledger, unless they are withheld |
| Retirement.MergeIsPermanent | src/agentic_sdlc/event_ledger.py:815-828 | Later events never remove a merge proof |
| Retirement.StatesSeen | src/agentic_sdlc/control_center.py:1237-1246 | The loop collects the current state and the states entered since the last restart |
| Json.EscapedUnique | src/agentic_sdlc/harness.py:74-82 | Escaped strings decode in one way |
| Json.CanonicalApart | src/agentic_sdlc/harness.py:74-82 | Canonical texts decode in one way, however they are followed |
| Json.EscapesAreMinimal | src/agentic_sdlc/harness.py:74-82 | Only quotes, backslashes and control characters are escaped, in the short form where there is one |
| Json.NestingIsBounded | src/agentic_sdlc/harness.py:49-71 | Values nest 32 deep and no deeper |
| Json.DomainBounds | src/agentic_sdlc/harness.py:49-71 | Whole numbers are those a double holds exactly, however they are held, no number is infinite, and texts and keys are what UTF-8 can encode |
| Manifest.Normalize | src/agentic_sdlc/harness.py:124-136 | Terminates for references without cycles, and keeps the kind of the value |
| ManifestForm.NormalizeIdempotent | src/agentic_sdlc/harness.py:124-136 | Normalising twice is normalising once |
| ManifestForm.ReorderedSameForm | src/agentic_sdlc/harness.py:124-136 | Any reordering of set-marked arrays at any depth, and of object members, leaves the canonical bytes of the normal form alone |
| ManifestForm.SameFormReordered | src/agentic_sdlc/harness.py:124-136 | Equal canonical bytes of normal forms come from reordered manifests only |
| ManifestForm.FormIsOrderClass | src/agentic_sdlc/harness.py:163-180 | Canonical bytes agree if and only if the manifests are reorderings of each other |
| ManifestForm.MembersRise | src/agentic_sdlc/harness.py:74-82 | An object's text lists every member once, by rising key |
| ManifestForm.SetsRise | src/agentic_sdlc/harness.py:124-136 | A set-marked array is put in the order of its items' canonical texts, and any other array keeps its order |
| ManifestForm.RewrapIsIdentity | src/agentic_sdlc/harness.py:163-180 | Wrapping canonical bytes again gives the same bytes, however they were parsed |
| ManifestForm.NormalizeKeepsDomain | src/agentic_sdlc/harness.py:49-71 | Normalising neither enters nor leaves the bounded JSON domain |
| ManifestForm.PartsStayInDomain | src/agentic_sdlc/harness.py:49-71 | A part of an accepted document is accepted, so the sort key never refuses one |
| GitDiff.SplitRejoins | src/agentic_sdlc/git_diff.py:198-198 | Splitting on NUL loses nothing |
| GitDiff.ParserInvertsPrinter | src/agentic_sdlc/git_diff.py:194-218 | A byte string parses to a list of changes if and only if it is that list's printed form and the list is valid |
| GitDiff.ChangesHaveTheirPaths | src/agentic_sdlc/git_diff.py:199-217 | Renames and copies list two paths, the other four changes one |
| GitDiff.ChangesAreAccepted | src/agentic_sdlc/git_diff.py:199-217 | Every such change is read back, whatever its score and its paths |
| GitDiff.PathsAreAll | src/agentic_sdlc/git_diff.py:198-217 | The paths are all the paths of all the changes |
| GitDiff.CollectPaths | src/agentic_sdlc/git_diff.py:198-217 | The loop collects the paths of the parsed changes, or fails exactly when the fields are malformed |
| GitDiff.PathsFromNameStatus | src/agentic_sdlc/git_diff.py:194-218 | Accepts exactly the printed listings, and returns precisely the sorted set of all their paths |
| Wilson.IntervalContainsRate | src/agentic_sdlc/efficacy.py:227-235 | The interval contains the observed rate |
| Wilson.IntervalInUnit | src/agentic_sdlc/efficacy.py:227-235 | The interval lies in [0, 1] without the clamps |
| Wilson.IntervalNarrows | src/agentic_sdlc/efficacy.py:227-235 | At one rate the interval narrows strictly as the sample grows |
| Wilson.IntervalEndsAtScore | src/agentic_sdlc/efficacy.py:227-235 | The unrounded interval ends at exactly the rates that lie 1.96 of their own standard errors from the observed one: Wilson's score interval |
| Wilson.ClampsAreIdle | src/agentic_sdlc/efficacy.py:227-235 | From ten outcomes on the reported interval is the unclamped one to four places, and below ten there is none |
| Wilson.NearestEvenIsNearest | src/agentic_sdlc/efficacy.py:235-239 | Rounding goes to the nearest, and to the even one of two equally near |
| Wilson.RoundMonotone | src/agentic_sdlc/efficacy.py:235-239 | Rounding to four places is monotone, ties to even included |
| Efficacy.ReportedRateIsSound | src/agentic_sdlc/efficacy.py:227-248 | Each numerator counts a subset of its denominator; the value is in [0, 1]; from ten outcomes on the rounded interval lies in [0, 1] and contains the rounded value |
| Efficacy.MetricCounts | src/agentic_sdlc/efficacy.py:238-248 | A metric is the number of outcomes that succeed over the number it is about, rounded to four places, and zero about none |
| Efficacy.RatesMean | src/agentic_sdlc/efficacy.py:205-223 | The eight definitions, outcome by outcome |
| Efficacy.PooledRatesAdd | src/agentic_sdlc/efficacy.py:251-312 | Pooling cohorts adds numerators and denominators |
| Efficacy.MetricsOrderFree | src/agentic_sdlc/efficacy.py:251-312 | The order of the outcomes changes no metric |
| Efficacy.NoRunLeavesTheDenominator | src/agentic_sdlc/efficacy.py:257-268 | An unsuccessful run stays in the completion rate's denominator and never raises it |
| Dispatch.FindAfterAppend | src/agentic_sdlc/checkpoints.py:169-191 | First write wins: an insert changes what no recorded key is found with |
| Dispatch.LatestMeans | src/agentic_sdlc/checkpoints.py:153-167 | The row found for a unit is one of its rows and none of them is later |
| Dispatch.CheckpointStore.constructor | src/agentic_sdlc/checkpoints.py:58-63 | An empty journal |
| Dispatch.CheckpointStore.TouchHeartbeat | src/agentic_sdlc/checkpoints.py:103-117 | Sets the heartbeat and touches no row, or refuses a blank timestamp |
| Dispatch.CheckpointStore.GetEvent | src/agentic_sdlc/checkpoints.py:142-151 | The row of an event key, if there is one |
| Dispatch.CheckpointStore.GetUnit | src/agentic_sdlc/checkpoints.py:153-167 | The latest row of a unit by timestamp, then by insertion |
| Dispatch.CheckpointStore.Record | src/agentic_sdlc/checkpoints.py:169-191 | Adds a row for a new key, keeps the first row of a known one, refuses blanks |
| Dispatch.Orchestrator.Create | src/agentic_sdlc/orchestration.py:263-289 | The loops find the unit of the id, else a unit holding the event key, else add a new unit in intake; no other unit changes |
| Dispatch.Orchestrator.TransitionToTriaged | src/agentic_sdlc/orchestration.py:293-376 | The unit of the id ends up holding the event key, moved to triaged unless it held the key; an unknown unit or an illegal move is refused with nothing changed, and no other unit changes |
| Dispatch.CreateUnitMeans | src/agentic_sdlc/orchestration.py:263-289 | A caller of `create_unit` gets a unit that is stored and has the id or holds the event key; a known id changes nothing; when neither is known exactly one unit in intake is added |
| Dispatch.TriageMeans | src/agentic_sdlc/orchestration.py:293-376 | A caller of `transition` gets the unit of the id with the event key recorded; if anything changed it is triaged; every other unit is as it was |
| Dispatch.Dispatcher.Persist | src/agentic_sdlc/dispatcher.py:99-114 | Journals the decision, or fails leaving the journal alone |
| Dispatch.Dispatcher.Dispatch | src/agentic_sdlc/dispatcher.py:116-199 | The steps on journal, heartbeat and orchestrator are one step of the specification |
| DispatchGates.RefusedExactly | src/agentic_sdlc/dispatcher.py:130-154 | An event is refused if and only if it lacks the mark, carries a blocking label, or awaits review of a drafted specification; the refusal says which, and names the blocking labels once each in order |
| DispatchGates.UnclearedTouchesNothing | src/agentic_sdlc/dispatcher.py:130-165 | An event that is refused or names no work item creates no unit and touches none |
| DispatchGates.AcceptedWasCleared | src/agentic_sdlc/dispatcher.py:116-199 | Over any run every accepted row was written for a delivery that passed all the gates |
| DispatchGates.AdmittedState | src/agentic_sdlc/dispatcher.py:177-199 | An accepted event carries the state of the unit it got: its own, or the one that held its key |
| DispatchGates.FingerprintExactly | src/agentic_sdlc/dispatcher.py:54-67 | Two events have one fingerprint if and only if they agree in everything but the order of their labels |
| DispatchGates.UnitIdsAreApart | src/agentic_sdlc/dispatcher.py:160-160 | A unit id names one work item, providers and kinds holding no colon |
| DispatchRuns.StepAddsOneRow | src/agentic_sdlc/dispatcher.py:116-199 | A decided dispatch repeats the row of its event or adds one row for it; a failed one adds none |
| DispatchRuns.RunJournalSound | src/agentic_sdlc/dispatcher.py:116-199 | Over any run with restarts: one row an event, every row with a unit is accepted, all rows of a unit carry one state whatever order their timestamps come in |
| DispatchRuns.EqualEventsOneDecision | src/agentic_sdlc/dispatcher.py:116-128 | Events with one fingerprint get the first recorded decision, and a replay changes nothing |
| DispatchRuns.DecidedUnitsAreCreatedOnce | src/agentic_sdlc/dispatcher.py:160-199 | A unit created and journaled is never created again |
| DispatchRuns.CreateFailsExactly | src/agentic_sdlc/dispatcher.py:177-196 | `create_unit` is followed by an error if and only if the unit is unknown and a unit in intake already holds the event key |
| DispatchRuns.CreatedOnceExactly | src/agentic_sdlc/dispatcher.py:160-199 | A unit is created once and for all, over every continuation and restart, if and only if no foreign unit in intake held the event key when it was created |
| DispatchRuns.UnitsAreCreatedOnce | src/agentic_sdlc/dispatcher.py:160-199 | While event keys are held by their own units only, `create_unit` is called at most once a unit |
| DigestWitness.DigestsCanBeMet | src/agentic_sdlc/dispatcher.py:54-67 | What is asked of the digest, injective and without a colon, can be met |
| DispatchRuns.ForeignKeyCreatesTwice | src/agentic_sdlc/dispatcher.py:177-196 | With such a foreign key the same event calls `create_unit` twice |

## Left out

- capacity_metrics.py: hand-off gaps, wait classification, model, plan and bottleneck reports, and the rounding of report figures.
- event_ledger.py: field validation, the credential patterns, document loading and saving, and `query`.
- Event.rest: provenance and title fields take part in equality only; timestamps are strings ordered by code point, as the source orders them.
- PromptBoundary.SanitizePayload: whitespace is Python's; letters match case-insensitively over ASCII and the four other characters that fold onto letters of the two words (U+0130, U+0131, U+017F, U+212A), and no other case folding is modelled.
- PacketBudget.BuildContextPacket: authorization, declared source fields, secret scans and path rules are one `flawed` and one `excluded` test per record, and which required sources the mission may read and which retrievals failed are given; the checks of task, revision and policy limits before and after admission are left out; the pack is refused by an arbitrary test; the wording of a block and the exclusions list, which follows input order, are not part of the outcome.
- PacketSelection.PromptIsBarePlusNotices: rendered sections are known by their length in bytes, not by their text.
- knowledge.py: the relationship scan between records of a pack and its ambiguity notices.
- RetryRebuild.RebuiltStateDecidesAlike: the blocker payload, `lastRetryAt` and job lists of a record are not modelled; the last exhausted comment would decide the blocker. A run records each decision as soon as it is made, with one fixed budget.
- RetryBudget.KeyInjective: heads are 40 lower-case hexadecimal characters, as the decision insists.
- WriteGroup.WriteAll: symbolic and hard links, file modes, asynchronous interrupts between a move and its bookkeeping, a failing rollback or backup removal, and a failing stdout are not modelled.
- Backlog.BuildTree: state resolution, warnings and the issue join of a node are not modelled.
- Retirement.RetainUnmerged: the label-derived retirement rules that follow the merge rule are left out; redaction is an arbitrary test.
- Manifest.Normalize: validation against the JSON schema is a precondition (every member, item and reference described); document size, the manifest's own cross-field checks and the NUL and control-character scan are left out.
- ManifestForm.RewrapIsIdentity: says nothing about a second schema validation; object keys are ordered by code point, which is the UTF-16 order of section 3.2.3 of RFC 8785 for keys in the Basic Multilingual Plane.
- Json.CanonicalApart: text is characters, not UTF-8 bytes; number rendering is arbitrary text over the characters of JSON numbers, so `1` and `1.0` may share it as they do in the source.
- GitDiff.PathsFromNameStatus: running git, and the `cap_*` properties.
- Wilson.IntervalNarrows: speaks of the interval before rounding; floats are reals and `sqrt` is exact.
- efficacy.py: the outcome ledger, policy versions, corrections and experiments, and the two mean metrics.
- Dispatch.Dispatcher.Dispatch: the mode without a journal, concurrent dispatchers, and failing journal writes are left out; reasons are constructors, not wording.
- Dispatch.Orchestrator.Create: concurrency groups, dependencies and creation times of a unit are not modelled.
- adaptive_scheduler.py, gates.py, github_evidence.py, github_merge.py, artifact.py, events.py, autonomy.py, merge_evidence.py, intake.py, executors.py and the rest of cli.py are not part of this model: transports, per-field validation and tables.
