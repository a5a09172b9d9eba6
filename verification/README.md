# ghr-stats: a verified model of the collector

The collector samples GitHub Actions runners, ingests the job events their hooks log, keeps small state tables beside
full sample histories, and answers queries that turn samples into edges; `tail` follows those edges by polling. This
project models that pipeline, the installer that rewrites the runners' `.env` files, the configuration editor, the IPC
server's framing and slots, and the calendar, and proves what each promises over whole runs.

`dafny verify dfyconfig.toml` checks everything.

## Layout

| area | modules |
|---|---|
| hook-log ingest | `Octets`, `Ingest` (chunks of whole lines), `JobStore` (the upsert), `IngestProtocol` (tailer, channel and writer as a state machine), `JobColumns` (the table line by line), `OverlongLines` (what a line longer than a chunk does) |
| samples and edges | `Readings` (`LAG` edges and windows), `Bounded` and `NamedRows` (newest-first cuts), `Timeline` (the query), `EdgeState`, `GithubWriter`, `LocalWriter` (state rows against history), `Freshness` (two as-of joins), `Prune` |
| the polling client | `Tail` (the code), `TailRuns` (nothing twice), `TailCompleteness` (nothing lost, and when), `OwnLines` (each edge its own line, and when) |
| runner hooks | `Paths`, `EnvFile`, `Chain`, `HookLifecycle` (the code), `HookRuns` (no hook lost, chain and uninstall undo each other) |
| configuration | `Scope`, `ConfigTokens`, `Editors` (several at once, under the lock), `UnlockedEditors` (without it), `TokenEditors` (both together) |
| IPC server | `Frames`, `Slots` |
| job conclusions | `Conclusions` |
| time | `Calendar`, `Decimals`, `TextOrder`, `Rfc3339` |
| shared | `Wrappers`, `Seqs`, `Text` |

Tables are sequences or maps; a reading is a row with a key, a timestamp and a value. SQL is taken as its relational
meaning: `LIMIT` and `DELETE … LIMIT` are relations (any answer SQLite may give), transactions are atomic and one writer
commits them, and a `commits` flag says whether one did. Rust's `trim`, `lines`, `split_once`, `split` and path components
are written out in `Text` and `Paths`. Clocks, I/O outcomes, JSON decoding and GitHub's answers are parameters.

## What the proofs found

- A log chunk of `TAIL_CHUNK` bytes without a newline is documented as skipped; the code hands it to the decoder and goes
  on from inside the line (`Ingest.PlainChunkIsParsed`). Such a line is what exactly-once needs to be without: with one in a
  log, some decoder makes some schedule hand on an event that no complete line holds, and some run of the protocol write
  a row for it; without, none does (`OverlongLines.LinesOnceExactly`, `OverlongLines.LinesMustFit`).
- `str::lines` drops one carriage return per line, so each rewrite of a `.env` may shorten a line that ends in several:
  removing after installing gives what removing alone gives exactly when no kept line still ends in one
  (`EnvFile.RemoveUndoesRewrite`, with `EnvFile.DoubledCrIsNotUndone`).
- Chaining and then uninstalling gives a runner's variables back exactly when neither was set, or both were and neither is
  empty or padded (`HookRuns.ChainThenUninstallExactly`). A runner chained with one hook is never restored: uninstalling
  leaves it on its wrapper (`HookRuns.OneHookIsLeft`).
- A wrapper puts both paths between quotes as they are, so it runs both exactly when neither is empty or holds a quote
  (`Chain.WrapperRunsBoth`).
- Chaining a runner one of whose variables already names its wrapper makes the wrapper name itself. The installer offers
  this to a chained runner whose other hook the operator has replaced, and accepting loses the wrapped hook
  (`HookRuns.RechainingLosesAHook`, on the host `HookRuns.ReplacedThenRechained` builds); `HookRuns.ChainKeepsExactly` says
  when chaining is safe, and `HookRuns.HooksSurviveEdits` that nothing else loses a hook.
- Wrapper slugs are not injective (`Chain.SlugsCollide`). Chaining two runners keeps the first one's hook exactly when
  their slugs differ or they hold one hook (`HookRuns.SharedSlugExactly`, `HookRuns.SomeHostsSwapHooks`).
- `tail` computes its next window after printing, so its lookback has to cover sample gap, commit delay and that latency
  together; for jobs, delay and latency. Both bounds are exact (`TailCompleteness.BeyondTheBoundAnEdgeIsLost`,
  `TailCompleteness.BeyondTheBoundAJobIsLost`).
- `busy_series` casts `max_age` to a signed integer where `GhView::observed` does not: from 2^63 on the chart is blank
  (`Freshness.HugeMaxAgeBlanksTheChart`).
- A runner filter by name can invent an edge across a rename (`Readings.RenameInventsAnEdge`): it invents none exactly
  when the readings it leaves on either side of every gap agree (`Readings.FilterInventsExactly`,
  `Timeline.LivenessInventsExactly`, `Timeline.GithubInventsExactly`).
- The configuration lock is best-effort; whatever the two edits are, one editor without it can make the other's as if it
  had never run (`UnlockedEditors.UnlockedEditorLosesAnEdit`, `TokenEditors.UnlockedTokenIsLost`). Editors may go without the
  lock exactly when each one's edit is independent of every other's (`UnlockedEditors.MayGoExactly`), which edits of
  tokens never are (`TokenEditors.TokensNeedTheLock`).
- Timestamps sort as text exactly when they share a year or their years sort as text (`Rfc3339.TextOrderExactly`): within
  years 0000 to 9999 and 10000 to 99999 they do; across the two, or between two negative years, some pairs do not
  (`Rfc3339.TextOrderByYears`).

## Model

| member | source | states |
|---|---|---|
| Ingest.EveryLineIsTold | src/shared/hooks/ingest.rs:49-80 | every event of the owner that some line decodes to is handed on, once for each such line and in the lines' order, and nothing else |
| Ingest.NextIs | src/shared/hooks/ingest.rs:61-73 | the new offset is just past the last newline of the chunk, or the end of a full chunk without one, or the start |
| Ingest.HandsOnWhatItConsumes | src/shared/hooks/ingest.rs:57-80 | a tick's events are exactly those of the bytes between its start and the offset it returns |
| Ingest.StopsBetweenLines | src/shared/hooks/ingest.rs:69-73 | a tick from a line boundary ends on one, unless and only unless its whole chunk has no newline |
| Ingest.AdvancesExactly | src/shared/hooks/ingest.rs:65-73 | the offset moves exactly when the chunk holds a newline or is full |
| Ingest.CompleteLineAdvances | src/shared/hooks/ingest.rs:54-73 | with no over-long line, any complete line ahead makes a tick advance, however far off it ends |
| Ingest.NextIsMonotone | src/shared/hooks/ingest.rs:57-80 | a tick from a later start on a longer log never leaves off before an earlier one |
| Ingest.EventsConcat | src/shared/hooks/ingest.rs:74-78 | cutting bytes at a line's end and decoding the parts gives the events of the whole, once each and in order |
| Ingest.EachLineOnce | src/shared/hooks/ingest.rs:57-80 | over every schedule of ticks on a growing log, the outputs concatenate to the events of the consumed complete lines, and the offset stays on a boundary and never goes back |
| Ingest.ReplacedLogIsReadWhole | src/shared/hooks/ingest.rs:57-80 | when a shorter log takes another's place, what is handed on is the consumed lines of the first, then those of the second from its start |
| Ingest.ShrunkenRestarts | src/shared/hooks/ingest.rs:61 | a log shorter than the offset is read from its start |
| Ingest.UnreadHandsOnNothing | src/shared/hooks/ingest.rs:57-68 | a log that is missing or cannot be read hands on nothing, and the offset goes back exactly when it was found to have shrunk |
| Ingest.PlainChunkIsParsed | src/shared/hooks/ingest.rs:69-78 | a full chunk without a newline is decoded as one line, not skipped |
| JobStore.Store.ApplyHookEvents | src/service/store/writer/jobs.rs:11-55 | events and offset are stored together, or neither is |
| JobStore.Store.ApplyJobConclusions | src/service/store/writer/jobs.rs:57-78 | conclusions land on existing rows only, all or none |
| JobStore.FoldIsLastWrites | src/service/store/writer/jobs.rs:20-48 | after a batch each row holds, column by column, the last start, end and repository the batch gives it, else what it held; its conclusion is untouched |
| JobStore.ReplayedBatch | src/service/store/writer/jobs.rs:10-48 | a batch that overlaps what is already stored and goes past it leaves the table as if every event were applied once |
| JobStore.StaleBatchRegresses | src/service/store/writer/jobs.rs:20-48 | a batch ending before what is stored would take the table back, so order of batches matters |
| JobStore.ConclusionsKeepColumns | src/service/store/writer/jobs.rs:57-78 | the backfill adds no row and changes no other column |
| JobColumns.ConclusionLands | src/service/store/writer/jobs.rs:57-78 | an existing row ends with the last conclusion it is sent, or keeps its own; no row is made |
| JobColumns.OrgIsBeforeTheSlash | src/service/store/writer/jobs.rs:36 | a row's organisation is what its repository has before the first slash |
| JobStore.OrgIsOwner | src/service/store/writer/jobs.rs:36 | every row's organisation is the log owner's login, in some case |
| IngestProtocol.Tailer.Tick | src/service/serve/jobs.rs:31-55 | one tick enqueues a batch for each runner whose offset moves, in order, and nothing else |
| IngestProtocol.TickIsSends | src/service/serve/jobs.rs:31-55 | such a tick is the protocol's sends, one a runner, from one reading of the offsets |
| IngestProtocol.NewBatch | src/service/serve/jobs.rs:40-50 | a new batch ends no earlier than any of its stream still in the channel, nor than what is committed |
| IngestProtocol.CommitKeepsColumns | src/service/store/writer/jobs.rs:10-55 | committing a batch cut from an older offset keeps the columns the fold of the committed bytes |
| IngestProtocol.EveryEventOnce | src/service/serve/jobs.rs:16-60 | in every reachable state of append, read offsets, send, conclude, write or lose, and restart, no committed offset has gone back and each runner's columns are the fold of its log up to the offset |
| IngestProtocol.FreshIsOk | src/service/store/reader/jobs.rs:11-18 | a new database, where an absent stream tails from 0, is such a state |
| IngestProtocol.CaughtUp | src/service/serve/jobs.rs:40-43 | once a tick has nothing to send, the columns account for every complete line of the log |
| JobColumns.EveryLineIsHandedOn | src/shared/hooks/ingest.rs:57-80 | over every schedule of ticks, each line gone over that decodes to an event of the owner hands it on, once a line and in order |
| JobColumns.EveryRowSaysItsLines | src/service/serve/jobs.rs:16-60 | in every reachable state a job has a row exactly when some committed line of its runner's log tells of it, and its start, end and repository are what the last such lines say |
| IngestProtocol.AppendIs | src/service/serve/jobs.rs:16-60 | a hook's bytes join the end of its own log and no other |
| IngestProtocol.ConclusionsArrive | src/service/serve/jobs.rs:16-60 | conclusions enqueued are what the writer's next commit applies |
| IngestProtocol.RestartLoses | src/service/serve/jobs.rs:16-60 | a restart loses the channel and nothing committed |
| OverlongLines.LeavesTheLines | src/shared/hooks/ingest.rs:57-80 | ticking a log with a whole chunk without a newline hands on the events of the lines before it, then what the decoder makes of the chunk, and stops inside the line |
| OverlongLines.OversizedExactly | src/shared/hooks/ingest.rs:57-80 | whatever the decoder, a log has such a chunk if and only if some schedule of ticks on it, as it grows, ends off a line boundary |
| OverlongLines.LinesOnceExactly | src/shared/hooks/ingest.rs:57-80 | a log has such a chunk, and its owner's name no slash, if and only if for some decoder some schedule hands on other events than those of the complete lines it went over |
| OverlongLines.LinesMustFit | src/service/serve/jobs.rs:16-60 | of a new database over any logs whose owners' names have no slash: no log has such a chunk if and only if, for every decoder and every run, each runner's columns are those of the complete lines committed, each once |
| Readings.EdgesAreSteps | src/service/store/reader/timeline/edges.rs:57-65 | the `LAG` edges are exactly the pairs of rows of one key with none between them in time and different values |
| Readings.WindowedChanges | src/service/store/reader/timeline/edges.rs:57-65 | edges derived inside a window are exactly the full-history edges whose predecessor is in it, in order |
| Readings.WideningAddsEdges | src/service/store/reader/timeline/edges.rs:57-65 | an earlier window start only adds edges |
| Readings.OneEdgeLostPerKey | src/service/store/reader/timeline/edges.rs:57-65 | at most one edge of a key is lost at a window's start |
| Readings.RenameInventsAnEdge | src/service/store/reader/timeline/edges.rs:57-65 | three readings and a name filter that make an edge history does not have |
| Readings.FilterInventsExactly | src/service/store/reader/timeline/edges.rs:57-65 | for any filter on rows: it invents no edge if and only if kept readings on either side of a run of hidden ones always agree |
| Readings.ReplayReproducesSamples | src/service/store/reader/timeline/edges.rs:57-65 | replaying a key's edges from its first reading gives back every sample's value |
| Readings.EdgesChain | src/service/store/reader/timeline/edges.rs:66-79 | an edge leaves the value the key's previous edge arrived at, or its first reading's |
| Bounded.ProbeCuts | src/service/store/reader/timeline/mod.rs:24-35 | asking SQL for one more than the limit, saturating and cast to a signed integer, never cuts a stream of `limit` rows or fewer |
| Bounded.SortIsStable | src/service/store/reader/timeline/mod.rs:33 | the merge's sort keeps rows of one timestamp in stream order |
| Bounded.SortSorts | src/service/store/reader/timeline/mod.rs:33 | and permutes them into newest-first order |
| Bounded.Newest | src/shared/models/timeline.rs:29-40 | keeps the newest `limit` rows, oldest first, and reports the cut exactly when there were more |
| Bounded.UnionOfCuts | src/service/store/reader/timeline/mod.rs:24-37 | cutting three streams to one over the limit, merging and cutting again yields the newest of the full union: none dropped is newer than any kept, and `limited` exactly when the union exceeds the limit |
| Timeline.AnswerTimeline | src/service/store/reader/timeline/mod.rs:17-92 | a reply holds the newest edges, job ends and samples of its window under its filters, samples of one tick first by name; it says where the data starts when that is inside the window, and its texts name the window's start and its own time |
| Timeline.LivenessStreamIs | src/service/store/reader/timeline/edges.rs:51-79 | the liveness stream reports exactly the steps among the rows at or after `since` of the organisation and runner asked for, each at the later row's time and name, from the earlier value to the later |
| Timeline.GithubStreamIs | src/service/store/reader/timeline/edges.rs:83-110 | the GitHub stream likewise, with the state arrived at |
| Timeline.ReconcileStreamIs | src/service/store/reader/timeline/edges.rs:114-149 | the reconcile stream likewise: a recovery, or a failure with the later row's cause |
| Timeline.JobStreamIs | src/service/store/reader/timeline/edges.rs:13-48 | the job stream is every start and every end at or after `since` of the organisation and runner asked for, with the row's fields |
| Timeline.EarliestSample | src/service/store/reader/timeline/mod.rs:95-106 | the oldest sample that passes the filters, if any |
| Timeline.SamplesAre | src/service/store/reader/timeline/mod.rs:54-93 | the samples are the rows asked for, in order and as they are, each with GitHub's newest reading no later: fresh if no older than `max_age`, else stale, or unknown |
| Timeline.ReplyIsAsked | src/service/store/reader/timeline/mod.rs:17-46 | every edge, job and sample of a reply is in its window and of the organisation asked for; liveness and GitHub edges, jobs and samples are of the runner asked for |
| Timeline.UncutReplyIsWhole | src/service/store/reader/timeline/mod.rs:17-46 | and a reply not cut holds every step and every job end asked for |
| Timeline.UncutSamplesAreWhole | src/service/store/reader/timeline/mod.rs:54-93 | and every sample |
| Timeline.StreamsAreWindowedHistory | src/service/store/reader/timeline/edges.rs:51-145 | each of the three streams is the full-history edges whose predecessor the window holds |
| Timeline.LivenessInventsExactly | src/service/store/reader/timeline/edges.rs:51-79 | the liveness stream reports nothing but history's edges if and only if each reading shown after hidden ones repeats the value shown before them, or follows a hidden reading of that value |
| Timeline.GithubInventsExactly | src/service/store/reader/timeline/edges.rs:83-110 | the same for the GitHub stream |
| EdgeState.UpsertKeepsSummary | src/service/store/writer/github.rs:43-85 | one insert and one upsert keep every state row the last value, the start of its constant run and the last sighting |
| EdgeState.SinceIsNewestEdge | src/service/store/reader/timeline/edges.rs:89-97 | `since_ts` dates the key's newest unbounded edge, or its first reading, and the value is the replay's |
| GithubWriter.Writer.WriteApiRunners | src/service/store/writer/github.rs:9-89 | a tick's samples, state rows, health and audit land together, or none do |
| GithubWriter.SamplesAreEveryRow | src/service/store/writer/github.rs:43-63 | the sample table holds every row of every successful outcome under its tick, and nothing else |
| GithubWriter.SamplesAreAsMany | src/service/store/writer/github.rs:43-63 | and holds each once: as many samples as rows fetched |
| GithubWriter.AuditIsEveryOutcome | src/service/store/writer/github.rs:58-85 | the audit holds one row an outcome, in order: success, rows fetched, or the cause, with the status and the label GitHub's answer has |
| GithubWriter.RunnerStateIsSummary | src/service/store/writer/github.rs:43-85 | after every sequence of reconcile outcomes each runner row summarises the key's full history |
| GithubWriter.RunnerSinceIsNewestEdge | src/service/store/writer/github.rs:43-85 | and dates the newest GitHub edge the timeline would report |
| GithubWriter.RefusalTouchesNoRunner | src/service/store/writer/github.rs:16-37 | a failed or unconfigured outcome changes no runner row, and only its own organisation's health |
| GithubWriter.HealthTracksOutcomes | src/service/store/writer/github.rs:16-37 | health reports the organisation's last outcome with its cause, and `last_ok_ts` its last successful one |
| GithubWriter.PruningKeepsState | src/service/store/writer/mod.rs:83-104 | pruning samples anywhere in between leaves the state and health of the unpruned run |
| LocalWriter.Writer.WriteLocal | src/service/store/writer/mod.rs:14-78 | a local tick's samples and state rows land together, or none do |
| LocalWriter.LivenessStateIsSummary | src/service/store/writer/mod.rs:20-60 | every `runner_state` row summarises its directory's samples |
| LocalWriter.TicksAreStored | src/service/store/writer/mod.rs:14-78 | of runs without a prune, the sample tables hold every sample and host row of every tick, in order, and the state summarises the samples they hold |
| LocalWriter.StoredExactly | src/service/store/writer/mod.rs:14-104 | of any run of ticks and prunes, they hold exactly the rows written and not pruned since |
| LocalWriter.PruningKeepsState | src/service/store/writer/mod.rs:83-104 | over every interleaving of local ticks and prunes, `runner_state` summarises every sample ever written |
| LocalWriter.LivenessSinceIsNewestEdge | src/service/store/reader/timeline/edges.rs:57-65 | and dates its agent's newest liveness edge, when directories and agents correspond one to one |
| Freshness.BusySeries | src/service/store/reader/mod.rs:74-104 | the newest `limit` ticks, oldest first, each with that tick's occupancy in 32 bits |
| Freshness.PointCountsSamples | src/service/store/reader/mod.rs:74-104 | at each tick the chart counts the timeline's samples of that tick: busy, not offline, fresh, and fresh and online, each modulo 2^32; no fresh one is a gap |
| Freshness.BusyAreOnline | src/service/store/reader/mod.rs:77-78 | so no more are busy than online |
| Freshness.JoinedIsYoungNewest | src/service/store/reader/mod.rs:80-95 | the chart's join finds the newest earlier reading exactly when it is young enough |
| Freshness.RowsAgree | src/shared/models/github.rs:119-129 | the chart knows a runner exactly when the timeline calls it fresh, if and only if `max_age` is below 2^63 or no reading at or before the tick is that young |
| Freshness.OccupancyMatchesTimeline | src/service/store/reader/timeline/mod.rs:54-93 | a chart point counts as known the runners the timeline calls fresh at that tick, and as online those fresh and online, modulo 2^32, so exactly below that many rows |
| Freshness.HugeMaxAgeBlanksTheChart | src/service/store/reader/mod.rs:89 | from 2^63 on, no tick has GitHub data |
| Freshness.LatestIsAsOfNow | src/service/store/reader/github.rs:13-35 | the newest-reading query at now is the as-of view, unless the newest reading is in the future |
| Prune.Db.PruneBatch | src/service/store/writer/mod.rs:83-104 | a batch removes at most its size of old rows from each sample table, whichever it picks, and counts them |
| Prune.Db.PruneAll | src/entrypoint.rs:109-116 | batches until one removes nothing terminate and leave exactly the rows at or after the cutoff, and the counts sum to the rows removed |
| Prune.Pruner.Step | src/service/serve/mod.rs:211-241 | a time slice removes only old rows, keeps the running count exact across slices and failures, and finishes only when none are left |
| Prune.SlicesReachOnePrune | src/service/serve/mod.rs:211-241 | slices under one or growing cutoffs end where one full prune would |
| Tail.Cursor.Accept | src/ops/tail.rs:59-68 | an identity is new exactly when the cursor does not hold it, and is held from then on |
| Tail.Tailer.Turn | src/ops/tail.rs:90-134 | one poll prints gap lines, then each edge not yet seen, moves the window and forgets only what is behind it; an outage prints nothing and keeps the window |
| TailRuns.NothingPrintedTwice | src/ops/tail.rs:58-134 | over every run, outages included, no `(ts, identity)` is printed twice |
| TailRuns.NothingIsMadeUp | src/ops/tail.rs:90-187 | every line printed is an edge or a job of some poll's reply, or says that that reply was cut, and for which window |
| TailRuns.PollPrintsInOrder | src/ops/tail.rs:146-187 | a poll prints gap lines, then edges oldest first, then jobs oldest first |
| TailRuns.Outages | src/ops/tail.rs:90-134 | a first poll unanswered ends the client, a later one changes nothing; an answered one moves the window to four sampling periods or a minute back and forgets what lies before it |
| TailRuns.StartIs | src/ops/tail.rs:75-90 | the first window reaches back as far as later ones or as far as asked |
| TailCompleteness.SinceIs | src/ops/tail.rs:90-134 | the window is set by the last answered poll and survives an outage |
| TailCompleteness.FirstSightDecides | src/ops/tail.rs:75-134 | some poll of a run offers an edge if and only if the first poll after its commit has its predecessor in the window and retention has left both its readings |
| TailCompleteness.WindowIsHeld | src/service/serve/mod.rs:211-241 | retention that leaves every committed reading of the window leaves both readings of each of its edges |
| TailCompleteness.OfferedIsPrinted | src/ops/tail.rs:146-187 | for an edge in a poll's window, a line of its timestamp and identity is printed by then, or a gap line opens that poll's output |
| TailCompleteness.TailPrintsLivenessEdges | src/ops/tail.rs:74-134 | for every liveness edge after the start window a line of its timestamp and identity is printed by the first poll that can see it, or that poll says it fell behind, when sample gap, commit delay and latency fit the lookback; the collector may prune at any time, as long as that poll still holds the edge's two readings |
| TailCompleteness.TailPrintsGithubEdges | src/ops/tail.rs:74-134 | the same for GitHub edges, under their own bound |
| TailCompleteness.TailPrintsReconcileEdges | src/ops/tail.rs:74-134 | the same for reconcile edges |
| OwnLines.TailPrintsOwnLivenessLine | src/ops/tail.rs:58-134 | and the line is the edge's own, when no other runner of that organisation and name has that value at that tick and organisations' names have no bar |
| OwnLines.TailPrintsOwnGithubLine | src/ops/tail.rs:58-134 | the same for GitHub edges |
| OwnLines.TailPrintsOwnReconcileLine | src/ops/tail.rs:58-134 | and for reconcile edges, where organisations' names without a bar are enough |
| TailCompleteness.TailPrintsJobs | src/ops/tail.rs:90-134 | for every job start and end after the start window, a line of its timestamp and identity is printed by the first poll that can see it, or that poll reports a gap first, when commit delay and latency fit the lookback |
| OwnLines.TailPrintsOwnJobLine | src/ops/tail.rs:58-134 | and the line is the job's own, when the store tells one job of that identity |
| OwnLines.JobIdentity | src/ops/tail.rs:211-219 | an identity without bars in it names its organisation, runner, repository and job, and whether the job started or ended |
| TailCompleteness.BeyondTheBoundAnEdgeIsLost | src/ops/tail.rs:75-79 | for any bounds that exceed the lookback, and any filters, some run within them prints neither edge nor gap |
| TailCompleteness.BeyondTheBoundAJobIsLost | src/ops/tail.rs:75-79 | likewise for jobs, whose bound is delay and latency |
| EnvFile.RewriteEnv | src/shared/hooks/install/mod.rs:138-157 | the other lines in order, then the hook lines, then the event log if given |
| EnvFile.RemoveHookVars | src/shared/hooks/install/mod.rs:161-172 | the other lines in order and nothing else |
| EnvFile.EnsureEventLog | src/shared/hooks/install/mod.rs:175-189 | nothing when already right, else the event log line replaced |
| EnvFile.OperatorLinesSurvive | src/shared/hooks/install/mod.rs:83-105 | an install keeps every line that assigns none of our variables, in order, each short at most one carriage return |
| EnvFile.RemoveUndoesRewrite | src/shared/hooks/install/mod.rs:138-172 | removing after any rewrite equals removing, if and only if no kept line ends in a carriage return |
| EnvFile.DoubledCrIsNotUndone | src/shared/hooks/install/mod.rs:144-156 | a file where it fails |
| EnvFile.RewriteReadsBack | src/shared/hooks/install/mod.rs:100-157 | each variable reads back as the path written, trimmed and unquoted; a dropped event log reads back as unset |
| EnvFile.AssignmentExactly | src/shared/hooks/install/mod.rs:87-93 | a line assigns a value exactly when, trimmed, it is the key, an equals sign and the value |
| EnvFile.LastLineWins | src/shared/hooks/install/mod.rs:99-105 | a variable's value is the last assigning line's, trimmed and unquoted |
| EnvFile.EventLogIsSetOnce | src/shared/hooks/install/mod.rs:175-189 | setting the event log keeps both hooks and every other line, and is a no-op the second time exactly when the path reads back as written |
| EnvFile.EventLogIsSetExactly | src/shared/hooks/install/mod.rs:175-189 | the event log is rewritten exactly when it does not read as the path already |
| EnvFile.InstalledIsOurs | src/shared/hooks/install/mod.rs:44-61 | a rewritten file classifies as ours exactly when both scripts, as they read back, lie directly in one of our directories |
| EnvFile.RemovedIsUnset | src/shared/hooks/install/mod.rs:161-172 | a stripped file classifies as unset |
| Paths.JoinIsInside | src/shared/hooks/install/mod.rs:59-61 | a plain name joined to any spelling of a directory lies directly in it, under that name |
| Paths.SameSpelling | src/shared/hooks/install/mod.rs:59-61 | a doubled separator and a dot between two spell the same path |
| Paths.LeadingDot | src/shared/hooks/install/mod.rs:59-61 | a dot that opens a relative path is a component |
| Paths.TwoDots | src/ops/uninstall/hooks.rs:183-185 | two dots are a component and no file's name |
| Chain.ReadsBackAs | src/shared/hooks/install/chain.rs:10-65 | what any rendered wrapper reads back as, marker or fallback |
| Chain.WrapperRunsBoth | src/shared/hooks/install/chain.rs:10-23 | the wrapper's commands are the original, ours, then an exit with the original's code, and everything before is comment, if and only if neither path is empty or holds a quote |
| Chain.WrapperReadsBack | src/shared/hooks/install/chain.rs:10-65 | a wrapper gives the original back if and only if it is neither empty nor padded around something |
| Chain.NamesDiffer | src/shared/hooks/install/mod.rs:64-81 | wrapper names tell apart the two hooks, and runners whose slugs differ |
| Chain.SlugExactly | src/shared/hooks/install/mod.rs:64-76 | a slug is the directory with a dash for every character but letters, digits, dots and underscores, and without dashes at its ends |
| Chain.PlainSlugsDiffer | src/shared/hooks/install/mod.rs:64-76 | directories of plain names under the root have slugs of their own |
| Chain.SlugsCollide | src/shared/hooks/install/mod.rs:64-76 | two directories with one slug |
| HookLifecycle.Machine.InstallFor | src/ops/configure/hooks.rs:137-149 | only a runner without hooks is wired to our scripts |
| HookLifecycle.Machine.ChainFor | src/ops/configure/hooks.rs:152-181 | wrappers first, `.env` only if they were written |
| HookLifecycle.Machine.RepairEventLog | src/ops/configure/hooks.rs:127-134 | only the event log changes |
| HookLifecycle.Machine.UninstallFrom | src/ops/uninstall/hooks.rs:106-182 | strips a fresh install, restores a chained one and removes its wrappers, leaves the rest |
| HookLifecycle.Machine.ApplyHooks | src/ops/configure/hooks.rs:69-125 | each runner's turn does what its detected status and the answer call for |
| HookRuns.InstallWires | src/ops/configure/hooks.rs:137-149 | an install on a runner without hooks wires the started variable to `job-started.sh` and the completed one to `job-completed.sh` of our directory, names the event log and keeps every other line |
| HookRuns.EventLogIs | src/ops/configure/hooks.rs:127-149 | the event log is `.ghr-stats-events.ndjson` in the runner's directory |
| HookRuns.RepairNamesTheLog | src/ops/configure/hooks.rs:127-134 | after a repair the runner's `.env` names its event log |
| HookRuns.AnswerDecides | src/ops/configure/hooks.rs:69-125 | a declined offer changes nothing; an accepted one installs on an unset runner and chains a foreign one; ours is only repaired |
| HookRuns.RevertKindExactly | src/ops/uninstall/hooks.rs:25-61 | chained or fresh exactly when both variables lie in our directory and are named alike; mixed when both do but are not, or one does and the other is unset |
| HookRuns.PlanExactly | src/ops/uninstall/hooks.rs:106-142 | a fresh runner is stripped, a chained one whose originals can both be read is restored, one not managed is left, any other needs the operator |
| HookRuns.UnwrittenIsUnchanged | src/ops/uninstall/hooks.rs:144-182 | an `.env` that could not be written is as it was, and no wrapper is removed then |
| HookRuns.WrappersAreRemoved | src/ops/uninstall/hooks.rs:150-182 | restoring removes the two wrappers and touches no other file |
| HookRuns.InstallThenUninstall | src/ops/uninstall/hooks.rs:106-120 | uninstalling then leaves no hook and every other line, save carriage returns |
| HookRuns.ChainedSlot | src/ops/configure/hooks.rs:152-181 | a chained variable holds our script where nothing was set, else its wrapper, written with the old value |
| HookRuns.WrapperNames | src/ops/configure/hooks.rs:152-181 | that wrapper names what can be recovered of the value the variable held |
| HookRuns.WrapperFileIs | src/shared/hooks/install/mod.rs:64-81 | a runner's wrappers are `chain-<slug>-started.sh` and `chain-<slug>-completed.sh` |
| HookRuns.ChainKeepsExactly | src/ops/configure/hooks.rs:152-181 | for any hooks, as long as what lies in our directory is our scripts or the runner's own wrappers in any spelling: chaining keeps both operator hooks if and only if none is on a wrapper that names one, and none is empty or padded around something |
| HookRuns.RechainingLosesAHook | src/ops/configure/hooks.rs:98-122 | the installer offers to chain a runner for which that fails, and accepting loses the hook |
| HookRuns.ReplacedThenRechained | src/ops/configure/hooks.rs:98-181 | for any directory and hooks: chain two, replace the second, accept the chain offered, and the first hook is lost |
| HookRuns.SomeHostLosesAHook | src/ops/configure/hooks.rs:98-181 | a host where that happens |
| HookRuns.NoHookIsLost | src/ops/configure/hooks.rs:127-181 | over every run of installs, chains, repairs and uninstalls, whatever is answered and whichever writes fail, each operator hook of each runner stays wired directly or named by the wired wrapper |
| HookRuns.RoundIsTurns | src/ops/configure/hooks.rs:69-125 | an installer's round over all runners is their turns one after the other, so what holds of every run holds of it |
| HookRuns.HooksSurviveEdits | src/ops/configure/hooks.rs:98-181 | with operators rewriting any `.env` in between, each step of ours keeps every hook of every runner, as long as no chain is accepted for a runner already on a wrapper or with an empty or padded hook |
| HookRuns.ChainComplete | src/ops/configure/hooks.rs:151-181 | `.env` changes only when every wrapper was written, so no runner points at a missing script |
| HookRuns.ChainThenUninstall | src/ops/uninstall/hooks.rs:25-61 | for every `.env` with two hooks, chaining then uninstalling restores each value if and only if it is neither empty nor padded, keeps every other line in order save carriage returns, and drops our event log |
| HookRuns.ChainThenUninstallExactly | src/ops/uninstall/hooks.rs:25-61 | for every `.env`: chaining then uninstalling gives both variables back if and only if neither was set, or both were and neither is empty or padded |
| HookRuns.OneHookIsLeft | src/ops/uninstall/hooks.rs:25-61 | a runner chained with exactly one hook classifies as mixed, and uninstalling changes nothing |
| HookRuns.SharedSlugSwapsHooks | src/shared/hooks/install/mod.rs:64-81 | chaining two runners of one slug makes the first run the second's hook |
| HookRuns.SharedSlugExactly | src/shared/hooks/install/mod.rs:64-81 | chaining two runners keeps the first one's hook if and only if their slugs differ or they hold one hook |
| HookRuns.SomeHostsSwapHooks | src/shared/hooks/install/mod.rs:64-81 | a host of two runners where it does not |
| Scope.ParseDisplay | src/shared/github/scope.rs:117-159 | a printed key parses back to itself |
| Scope.DisplayIsInjective | src/shared/github/scope.rs:151-159 | distinct keys print apart |
| Scope.ParsedIsKey | src/shared/github/scope.rs:117-129 | what parses is a lower-case host and a well-formed login |
| Scope.ParsesLogin | src/shared/github/scope.rs:117-129 | a text without a slash parses exactly when, trimmed, it is up to 39 letters, digits and dashes, as a login of github.com |
| Scope.ParsesOfHost | src/shared/github/scope.rs:117-129 | one with a slash exactly when a host, in any case, stands before it and a login after |
| Scope.MatchesExactly | src/shared/github/scope.rs:117-159 | a key matches the same login, in any case, on the same host |
| Scope.RepoOfExactly | src/shared/github/scope.rs:188-200 | a repository is an owner's exactly when it is the owner's name, in any case, a slash and a well-formed name |
| ConfigTokens.ConfigFile.SetOrgToken | src/shared/config/persist.rs:104-111 | writes the edited document, or nothing on an error |
| ConfigTokens.ConfigFile.RemoveOrgToken | src/shared/config/persist.rs:129-161 | an error without a write exactly when there was neither a PAT nor an `orgs` entry |
| ConfigTokens.SetFindsIt | src/shared/config/persist.rs:104-115 | exactly one stored key then matches, with the token; other logins' entries, the other settings of the `github` table and every other setting are as before |
| ConfigTokens.SetThenLookup | src/shared/config/mod.rs:250-267 | any spelling of the login on that host then looks up that token and no other, and any other login looks up what it did before, an entry or the fallback, whatever the environment holds |
| ConfigTokens.SetFailsExactly | src/shared/config/persist.rs:89-101 | the edit fails exactly when something that is not a table is in the way |
| ConfigTokens.RemoveLeavesNone | src/shared/config/persist.rs:129-161 | no stored key or `orgs` entry then matches; other entries, the other settings of the `github` table and every other setting are as before |
| ConfigTokens.OrgsAreWithout | src/shared/config/persist.rs:148-158 | of `orgs` go exactly the entries that spell the login, in any case |
| ConfigTokens.EmptiedTablesGo | src/shared/config/persist.rs:129-147 | removing leaves neither an empty tokens table nor an empty `github` table |
| ConfigTokens.RemoveThenLookup | src/shared/config/mod.rs:250-267 | any spelling of the login is then back to the fallback, and any other login looks up what it did before |
| ConfigTokens.RemoveUndoesSet | src/shared/config/persist.rs:104-161 | removing what was set gives back the tokens and the settings from before, those of the `github` table included |
| Editors.EditsAreSerial | src/shared/config/persist.rs:19-24 | under every interleaving and crash, the file is the successful edits one after the other in lock order, and at any earlier point the first few of them |
| Editors.AloneItEdits | src/shared/config/persist.rs:19-24 | an editor alone leaves what its edit makes of the file, and the lock free |
| Editors.LockIsLetGo | src/shared/config/persist.rs:19-39 | an editor that unlocks or crashes lets the next take the lock |
| Editors.PhasesMoveOn | src/shared/config/persist.rs:19-24 | an editor goes through its edit once, and no step moves another |
| UnlockedEditors.InTurnExactly | src/shared/config/persist.rs:15-39 | of any run, locked or not: the file is at all times the edits so far one after the other, if and only if every install wrote what its edit makes of the file it replaced |
| UnlockedEditors.LockedIsFresh | src/shared/config/persist.rs:19-24 | where every editor took the lock, every install did |
| UnlockedEditors.MayGoExactly | src/shared/config/persist.rs:15-39 | a set of editors may fail to lock, in every run from every file, with the file at all times the edits so far one after the other, if and only if each of them makes of a file the same whether or not any other editor came first, and the other way round |
| TokenEditors.NoTokenIsLost | src/shared/config/persist.rs:15-24 | editors setting tokens of different logins at once: each that succeeds finds its token in the file, under its key alone |
| TokenEditors.FreshTokensAreFound | src/shared/config/persist.rs:15-39 | without the lock too, each token installed is in the file, if every install wrote what its edit makes of the file it replaced |
| TokenEditors.UnlockedTokenIsLost | src/shared/config/persist.rs:15-39 | with one editor that could not lock, both succeed and the first token is in the file if and only if it was there before |
| TokenEditors.TokensNeedTheLock | src/shared/config/persist.rs:15-39 | of editors setting tokens of different logins none may go without the lock |
| UnlockedEditors.UnlockedEditorLosesAnEdit | src/shared/config/persist.rs:15-39 | for any two edits, one by an editor that could not lock: both succeed, and the file is the second one's alone; that is either order of the two exactly where the other makes no difference |
| Slots.SlotsStayWithinCaps | src/service/ipc_server/mod.rs:70-94 | under every interleaving the counter is the slots held, within the total and the unprivileged cap |
| Slots.ServerStaysWithinCaps | src/service/ipc_server/mod.rs:66-94 | a server as it starts is such a state, and stays within both caps for ever |
| Slots.AdminRefusedOnlyByAdmins | src/service/ipc_server/mod.rs:33-35 | an administrator is refused only when every slot is held at the read, the reserved ones by administrators |
| Slots.RefusedExactly | src/service/ipc_server/mod.rs:73-83 | a connection is refused exactly when at the read its class's cap was reached |
| Slots.OneAtATime | src/service/ipc_server/mod.rs:70-94 | another connection is accepted only once the last was refused or has its slot |
| Slots.ReleaseFrees | src/service/ipc_server/mod.rs:80-94 | a slot let go of is free and the counter one less |
| Slots.PassedTakesItsSlot | src/service/ipc_server/mod.rs:80-87 | a check that passed still stands at the increment |
| Frames.Pipe.WriteFrame | src/shared/ipc/mod.rs:131-140 | a frame is appended whole, or an over-long body refused with nothing written |
| Frames.Pipe.ReadFrame | src/shared/ipc/mod.rs:142-155 | the next frame's body, leaving exactly what follows, or the error |
| Frames.LengthReadsBack | src/shared/ipc/mod.rs:131-155 | the length stands least significant byte first and reads back |
| Frames.ReadsExactly | src/shared/ipc/mod.rs:142-155 | reading fails exactly on a declared length over the limit or bytes cut short, and else takes as many as declared |
| Frames.StreamReadsBack | src/shared/ipc/mod.rs:131-155 | any stream of frames reads back frame by frame |
| Frames.PrefixIsTruncated | src/shared/ipc/mod.rs:142-155 | a frame cut short is recognised, never taken for another |
| Frames.FramesAreUnique | src/shared/ipc/mod.rs:131-155 | the bytes determine the frames |
| Conclusions.GroupByAttempt | src/service/serve/github.rs:147-156 | one group an attempt, its jobs in input order |
| Conclusions.SameGroupExactly | src/service/serve/github.rs:147-156 | two jobs are in one group exactly when organisation, repository, run and attempt agree |
| Conclusions.GroupingPermutes | src/service/serve/github.rs:147-156 | nothing is lost or duplicated |
| Conclusions.GroupsInOrderOfFirst | src/service/serve/github.rs:147-156 | groups stand in the order of their first job, and none is empty |
| Conclusions.LookUp | src/service/serve/github.rs:158-185 | of the first thirty attempts, those with a token and a well-named repository are looked up in order, but none of an organisation once GitHub forbade one of its; the updates are the answered attempts' matches |
| Conclusions.OneConclusionEach | src/service/serve/github.rs:194-227 | each pending job whose deciding job has come to something gets that conclusion, one each and in order; the others none |
| Conclusions.MatchedDecides | src/service/serve/github.rs:194-216 | the job that decides is the first on the runner with the pending job's name; if none has it, the only matrix leg of that name; if there is not exactly one, the runner's only job |
| Conclusions.UpdatesAre | src/service/serve/github.rs:158-185 | the updates of a cycle are exactly the conclusions of the jobs of the attempts answered |
| Conclusions.ApiOrderIsIrrelevant | src/service/serve/github.rs:194-227 | the match does not depend on the order GitHub lists jobs in, when a runner's job names differ |
| Calendar.CivilCounts | src/shared/util.rs:25-36 | every day number names a valid date that counts back to it |
| Calendar.CivilIntermediates | src/shared/util.rs:25-36 | every intermediate stays in the range its comment claims |
| Calendar.CivilInvertsDayNumber | src/shared/util.rs:25-36 | and every valid date is reached |
| Calendar.CivilSuccessor | src/shared/util.rs:25-36 | the next day number names the next Gregorian date (leap rule of Appendix C of RFC 3339) |
| Rfc3339.FieldsAreTheInstant | src/shared/util.rs:16-22 | the fields are a valid clock reading (section 5.6 of RFC 3339) of exactly the instant, before 1970 included |
| Rfc3339.TimestampReadsBack | src/shared/util.rs:16-22 | the text determines the instant |
| Rfc3339.Separators | src/shared/util.rs:16-22 | the separators stand where section 5.6 of RFC 3339 has them |
| Rfc3339.TextOrderExactly | src/shared/util.rs:16-22 | the earlier of two instants sorts first if and only if they share a year or their years sort as text |
| Rfc3339.TextOrderByYears | src/shared/util.rs:16-22 | that condition in numbers, by ranges of years |
| Rfc3339.TextOrderIsTimeOrder | src/shared/util.rs:16-22 | for years 0000 to 9999, text order is time order (section 5.1 of RFC 3339) |
| Rfc3339.TextOrderFailsPastYear9999 | src/shared/util.rs:16-22 | the first instant of year 10000 sorts before that of year 9999 |

## Left out

- IngestProtocol.EveryEventOnce: assumes append-only logs, no over-long line, and distinct streams and runner names that do not change during a run; `OverlongLines.LinesMustFit` says what an over-long line does, `Ingest.ReplacedLogIsReadWhole` what a replaced log does.
- Ingest.HandsOnWhatItConsumes: takes the log's length and content as read at one instant; JSON and UTF-8 decoding is one decoder function that refuses the empty line.
- TailCompleteness.TailPrintsLivenessEdges: assumes stable names, samples of a key committed in order, the stated bounds, and that retention has left the edge's two readings by the poll (`TailCompleteness.WindowIsHeld`); a broken output pipe and `u64` overflow of the lookback are not modelled.
- TailCompleteness.TailPrintsLivenessEdges: two runners of one organisation and name that change alike at one tick share a line; `OwnLines` says when an edge has its own.
- TailCompleteness.TailPrintsJobs: the identity names no run, so two jobs of one identity in one second share a line; `OwnLines.TailPrintsOwnJobLine` says when a job has its own.
- Timeline.AnswerTimeline: an edge carries its timestamp but not also its text, which `Rfc3339.TimestampReadsBack` makes the same.
- Readings.WindowedChanges: assumes unique timestamps per key, as the `LAG` and newest-row joins do.
- EnvFile.OperatorLinesSurvive: assumes the written paths hold no newline; the 1 MiB cap, ownership and mode of `.env` are not modelled.
- HookRuns.NoHookIsLost: starts from runners with distinct slugs whose hooks are unset, ours, or neither empty nor padded, without operator edits in between; `HookRuns.HooksSurviveEdits` allows edits, and `HookRuns.SharedSlugExactly` says what a shared slug costs.
- HookRuns.HooksSurviveEdits: an edit leaves each variable unset, on any hook outside our directory, on one of our scripts, or on the runner's wrapper, and wrapper files are edited by nobody else.
- HookLifecycle.Machine.UninstallFrom: plans and applies in one step; wrapper files do not change in between, and symbolic links and `..` are not resolved.
- Editors.EditsAreSerial: assumes every editor got the lock; `UnlockedEditors.InTurnExactly` and `UnlockedEditors.MayGoExactly` are the conditions without it; reading and writing the file are one step each, as the rename makes them.
- ConfigTokens.SetThenLookup: treats the document as a map, so which of several equal-matching keys an iteration meets first is any of them.
- Slots.SlotsStayWithinCaps: models the accept loop, its workers and the counter as steps; sockets and threads are not part of it.
- Conclusions.LookUp: GitHub's answers and which groups have a token are given; the pending query's own `LIMIT` is not part of it.
- Prune.Pruner.Step: the slice's clock is a budget of batches.
- HTTP calls, metrics push and pull, systemd, process scanning, the terminal UI and configuration validation: I/O or presentation, no part of this model.
- SQLite itself, its page locking and WAL: transactions are atomic and there is one writer.
- CPU percentages and other floating-point samples: carried as opaque values or dropped.
- Status verdicts, `explain`, `wait` and `doctor`: single-match classifications that would only add easy members.
