# flycanon: a verified model of its shared-state protocols

flycanon turns documents into cited knowledge. Many workers, clients and migrations change its small
pieces of shared state at once, and its guarantees live in how single database statements and small
loops are put together. This project models those statements and loops in Dafny 4.11 and proves what
every run, every interleaving and every input keeps.

Verify the whole project with `dafny verify dfyconfig.toml`.

| file | subject |
|---|---|
| `IngestJobs.dfy` | the ingest-job lease protocol: claims, fencing tokens, sweeps, commits, over all interleavings |
| `JobEvents.dfy`, `JobStream.dfy` | the append-only event log, its cursor-paged read, the polling stream, resume and completeness |
| `Sse.dfy`, `JobWire.dfy` | printing and parsing Server-Sent Events, streams cut at any character, and the job stream end to end |
| `AnswerStream.dfy` | the producer thread, the queue and the drain of the answer stream |
| `EmbeddingSets.dfy`, `EmbeddingMigration.dfy` | the embedding-set registry, its coherence trigger, migration 0017 and its downgrade |
| `Names.dfy` | namespaces, index names and fingerprint material |
| `ScopePurge.dfy` | the purge order over the foreign-key graph |
| `Numbering.dfy` | max+1 numbering of turns and versions under concurrency |
| `ChunkWalk.dfy` | the keyset walk over a changing table |
| `Citations.dfy` | the current-version citation join |
| `Costs.dfy` | grouped cost reports |
| `Basics.dfy`, `Text.dfy`, `Fields.dfy` | options and arithmetic, and Python string operations |

A repository is a class whose methods are its statements. Where statements interleave, the class is
proved against the step function of a state machine, and runs of that machine are what the theorems
quantify over.

## Assumptions

- One monotone clock serves the database and its clients.
- A single SQL statement is atomic; the purge, the replacement of a source's chunks and a migration are
  one transaction each.
- Events become visible in id order: what a poll sees is an initial segment of the event table.
- The page size is a parameter (the repository's default is 200).
- Costs are whole micro-dollars, since the column has six decimals.
- Set ids and parent ids are drawn fresh. Chunk ids are compared only by their order, so an id is
  modelled by its rank.
- Payloads are already-printed JSON objects in printable ASCII; what decoding finds in them is a parameter.
- A user agent starts each new connection with some last-event-ID buffer: its last event ID, as browsers do,
  or the empty string. `JobWire.ListenerReadsPrefix` is about the first kind, `JobWire.ListenerReadsPrefixIff`
  about both.
- Nobody in a protocol calls the whole-row merges (`update`, `upsert_item`, `upsert_version_status`).

## Where the code and its documentation part

The model follows the code.

- `reclaim_stuck` is described as demoting rows whose lease has expired, but its UPDATE looks at ids only:
  a job that commits between the sweep's SELECT and UPDATE is re-queued and can be committed again
  (`IngestJobs.SplitSweepCommitsTwice`). Commits are final exactly if no such UPDATE names a finished row
  (`IngestJobs.CommitsAreFinalIff`).
- The job stream closes after the page it read before it saw a terminal status, so a log with more than
  a page left is cut short at close (`JobStream.StreamCanCloseShort`); the exact condition is
  `JobStream.CompleteAtCloseIff`, and reconnecting delivers the rest.
- The controller accepts both `after_id` and `Last-Event-ID`, but a positive `after_id` wins: an
  EventSource opened on a URL with `after_id` replays after a reconnect (`JobStream.StaleAfterIdReplays`).
- The controller counts on the id of the last frame received coming back, but its snapshot frame has no id
  line. A user agent that starts each stream with an empty ID buffer, as section 9.2.6 of the HTML Living
  Standard says, forgets its place when a connection ends behind the snapshot
  (`JobWire.SnapshotAloneForgets`); the exact condition for such an agent is
  `JobWire.ListenerReadsPrefixIff`. Browsers carry the buffer over, and lose and repeat nothing.
- The SDK says a job stream's `cursor` comes from `data.cursor`; job frames carry `id` instead, so the
  cursor is a counter and not a value to resume from. The resumption proved here uses `id`.
- The migration calls mixed widths in a namespace the only refusal, but the registry's limits (64 to 4096
  dimensions, column lengths) refuse too.
- The downgrade says one width is enough. It also needs every chunk in one set only and embeddings that
  really have their declared width, which the trigger compares with the set but not with the embedding
  (`EmbeddingMigration.SharedChunkBlocksDowngrade`).
- Namespaces off the canonical shape can decode to a workspace that already has a set
  (`Names.TrailingPartsCollide`); then several active sets exist and the last one adopted is pointed at
  (`EmbeddingMigration.CollidingNamespacesLeaveOneUnreached`).
- The purge is described as leaving every other workspace alone, but the schema does not keep foreign keys
  inside a scope, and a purge can delete rows of another (`ScopePurge.PurgeReachesAnotherScope`); the exact
  condition is `ScopePurge.PurgeIsExactIff`.
- `lookup_published_citations_for_chunks` does not look at the status of a version, only at whether it is
  the current one, and is not restricted to a scope.

## Model

| member | source | states |
|---|---|---|
| `IngestJobs.IngestJobRepository.MarkRunning` | src/flycanon/models/repositories/ingest_job_repository.py:135-187 | A claim is the `TryClaim` step of the machine: it lands on a queued row, or with a positive lease on a running row whose `started_at` is older than the lease; column by column, it sets running, stamps `started_at` with the time of the call, bumps `attempts`, clears the errors and leaves every other column and row alone. |
| `IngestJobs.IngestJobRepository.SelectStuck` | src/flycanon/models/repositories/ingest_job_repository.py:215-229 | The SELECT of the sweep returns any `limit` of the stale rows, or all of them if there are fewer. |
| `IngestJobs.IngestJobRepository.DemoteByIds` | src/flycanon/models/repositories/ingest_job_repository.py:232-236 | The UPDATE of the sweep goes by id alone: every named row becomes queued with its errors cleared and its other columns kept, whatever it has become since the SELECT; no other row changes. |
| `IngestJobs.IngestJobRepository.ReclaimStuck` | src/flycanon/models/repositories/ingest_job_repository.py:189-237 | Run without interruption the two statements are the one `Sweep` step; a lease that is not positive, or an empty selection, changes nothing. |
| `IngestJobs.IngestJobRepository.MarkFinished` | src/flycanon/models/repositories/ingest_job_repository.py:239-316 | A commit that passes the token its own claim returned is the `TryCommit` step, one without a token is `UnguardedCommit`; it lands if and only if the row is running and the token, if given, is the current one. A success sets succeeded, source and hash, a failure sets failed, code and message, each with the time; nothing else changes. |
| `IngestJobs.CommitLandsIffLatest` | src/flycanon/models/repositories/ingest_job_repository.py:239-316 | In every state that keeps the invariant a guarded commit lands if and only if the last thing that happened to the job is the committing worker's own claim: no poaching, demotion or commit since. |
| `IngestJobs.TokensIncrease` | src/flycanon/models/repositories/ingest_job_repository.py:161-183 | Successive claims of a job get strictly increasing tokens. |
| `IngestJobs.CommitAnswersClaim` | src/flycanon/models/repositories/ingest_job_repository.py:262-283 | Every commit answers one earlier claim with its token and worker, and nothing happened to the job in between. |
| `IngestJobs.OneCommitPerToken` | src/flycanon/models/repositories/ingest_job_repository.py:262-283 | Each token gets at most one terminal commit; later commits carry larger tokens. |
| `IngestJobs.StepKeepsInv` | src/flycanon/models/repositories/ingest_job_repository.py:161-316 | Each statement of each actor keeps: the row's status and `attempts` are determined by the last history entry about it, `attempts` counts its claims, and a running row has `started_at` set. |
| `IngestJobs.RunKeepsInv` | src/flycanon/models/repositories/ingest_job_repository.py:161-316 | So does every interleaving of any number of workers, sweepers and submitters, sweeps taken as one step or as two. |
| `IngestJobs.Fencing` | src/flycanon/models/repositories/ingest_job_repository.py:161-316 | For every run from the empty table: claims of a job have increasing tokens, commits too, and each commit immediately follows, for its job, the claim that handed out its token. |
| `IngestJobs.UnguardedCommitLandsForAnyHolder` | src/flycanon/models/repositories/ingest_job_repository.py:262-283 | With `expected_attempts` omitted a past claimant's commit lands if and only if anybody holds the job; the history then stays lawful if and only if the holder's claim is the committer's own. |
| `IngestJobs.UnguardedCommitLandsStale` | src/flycanon/models/repositories/ingest_job_repository.py:262-283 | A run in which a poached worker commits without the token: its outcome, whatever it is, ends up in the row under the new holder's token, and the new holder cannot commit any more; with the token the commit would have been refused. |
| `IngestJobs.TerminalRowChangesIffHit` | src/flycanon/models/repositories/ingest_job_repository.py:217-237 | The one step that can change a finished row is an UPDATE by id whose earlier SELECT had picked it. |
| `IngestJobs.TerminalIsAbsorbingIffNeverHit` | src/flycanon/models/repositories/ingest_job_repository.py:217-237 | Through any run a finished row stays as it is, outcome fields included, if and only if no such UPDATE hits it. |
| `IngestJobs.StepKeepsCommitsFinalIff` | src/flycanon/models/repositories/ingest_job_repository.py:217-237 | A step keeps "after a commit nothing more happens to the job" if and only if it is not an UPDATE by id that names a row finished by then. |
| `IngestJobs.CommitsAreFinalIff` | src/flycanon/models/repositories/ingest_job_repository.py:217-237 | Over any run: commits are final if and only if no UPDATE of the run names a row that is finished at that moment. |
| `IngestJobs.SecondCommitPossibleIff` | src/flycanon/models/repositories/ingest_job_repository.py:217-237 | From any state, a finished job can be committed again by some run if and only if a sweeper that selected it has still to run its UPDATE. |
| `IngestJobs.AtomicSweepCommitsOnce` | src/flycanon/models/repositories/ingest_job_repository.py:217-237 | With the sweep as one step no job is committed twice in any run, and none is touched after its commit. |
| `IngestJobs.SplitSweepCommitsTwice` | src/flycanon/models/repositories/ingest_job_repository.py:217-237 | A run of the two-statement sweep in which a commit falls between SELECT and UPDATE, with two commits of one job in its history. |
| `IngestJobs.NoJobIsLost` | src/flycanon/models/repositories/ingest_job_repository.py:162-171 | In every reachable state an unfinished job is queued, inside its lease, or both visible to the sweep and claimable under the same lease; once the lease has passed it is claimable. |
| `IngestJobs.FinishedShowsLastCommit` | src/flycanon/models/repositories/ingest_job_repository.py:262-316 | In every run a job is finished if and only if the last thing recorded about it is a commit, and its status and outcome columns are then those of that commit. |
| `IngestJobs.LeaseProtectsUntil` | src/flycanon/models/repositories/ingest_job_repository.py:162-183 | From a claim at time t on, the job can be claimed again with a positive lease, and is visible to a sweep with it, if and only if the time is beyond t + lease; without a lease never. |
| `IngestJobs.ClaimHoldsForLease` | src/flycanon/models/repositories/ingest_job_repository.py:135-237 | In any run that stays within the lease of a claim, with every poaching claim and every sweep waiting at least that lease, and no sweeper holding the job from before: the only thing that can happen to the job is one commit by the claimant, under its token. |
| `IngestJobs.HeldClaimIsDemoted` | src/flycanon/models/repositories/ingest_job_repository.py:232-236 | A sweeper that selected the job before the claim takes it from the claimant at once. |
| `IngestJobs.SweepsDrain` | src/flycanon/models/repositories/ingest_job_repository.py:213-237 | In a run of n sweeps alone, k stale rows become max(0, k - n * limit), whichever rows each SELECT picks. |
| `IngestJobs.SweepsClearIff` | src/flycanon/models/repositories/ingest_job_repository.py:213-237 | So there k stale rows are cleared if and only if at least ceil(k / limit) sweeps have run. |
| `IngestJobs.SweepsDrainRun` | src/flycanon/models/repositories/ingest_job_repository.py:213-237 | In any run without claims, with ticks, commits, submissions and other sweeps in between: either the sweeps have cleared every row stale at the start, or each has cleared `limit` of the rows that go stale by the end. |
| `IngestJobs.SweepsClearRun` | src/flycanon/models/repositories/ingest_job_repository.py:213-237 | So sweeps with room for all rows that go stale by the end of such a run clear every row that was stale at its start. |
| `JobEvents.EventTable.AppendEvent` | src/flycanon/models/repositories/ingest_job_repository.py:343-371 | An append extends the log of its own scope (missing keys become "default") by exactly one event with the next id, and no other log. |
| `JobEvents.EventTable.ListEvents` | src/flycanon/models/repositories/ingest_job_repository.py:373-401 | The filtered, ordered, limited query answers a cut of the job's own log; by columns: events of this job, tenant and workspace beyond the cursor, in id order, at most `limit`, and whatever is left out comes behind a full page. |
| `JobEvents.SelectIsCut` | src/flycanon/models/repositories/ingest_job_repository.py:391-401 | Filtering the whole table by scope and `id > after_id` gives the log without an initial segment. |
| `JobEvents.LogOfPrefix` | src/flycanon/models/repositories/ingest_job_repository.py:391-401 | While the table grows, every job's log grows at its end only. |
| `JobStream.SendPage` | src/flycanon/web/controllers/jobs_controller.py:178-191 | One `event` frame per event, and the cursor ends at the last id sent. |
| `JobStream.StreamJob` | src/flycanon/web/controllers/jobs_controller.py:147-214 | The polling loop sends what the specification function says: a snapshot first, exactly if the job exists and nowhere else; page after page; if it ends on a finished job, a last frame with that job's status, source and error columns, the only one of its kind; otherwise none. |
| `JobStream.PageIsSegment` | src/flycanon/web/controllers/jobs_controller.py:169-191 | A page read at an earlier moment is the segment of the final log that starts at the cursor, and the next cursor stands at its end. |
| `JobStream.StreamSendsSegment` | src/flycanon/web/controllers/jobs_controller.py:147-214 | Whatever moments the polls saw, and after whichever frame it breaks, one connection delivers a contiguous segment of the log that starts right behind its cursor. |
| `JobStream.HeaderNamesEvent` | src/flycanon/web/controllers/jobs_controller.py:226-245 | A printed event id survives stripping, `int` and the positivity test of the `Last-Event-ID` header. |
| `JobStream.ArrivalsExtend` | src/flycanon/web/controllers/jobs_controller.py:147-245 | One more connection extends the initial segment a client has, resuming by URL or by header. |
| `JobStream.SessionReceivesPrefix` | src/flycanon/web/controllers/jobs_controller.py:147-245 | Exactly-once resume: over any connections, each lost after any frame, with appends at any time, a client has received an initial segment of the job's log; no gap, no duplicate, in id order. |
| `JobStream.OneChannel` | src/flycanon/web/controllers/jobs_controller.py:235-245 | With both channels given, the right cursor is chosen if and only if the URL is silent or names the same event. |
| `JobStream.StaleAfterIdReplays` | src/flycanon/web/controllers/jobs_controller.py:235-237 | A stale `after_id` in the URL replays: for every log and every stale position the first event delivered is the one behind the stale id. |
| `JobStream.CompleteAtCloseIff` | src/flycanon/web/controllers/jobs_controller.py:169-214 | A stream that ends on a terminal status has sent the whole log, as it stands at that status read, if and only if what was left at the last event read fitted one page and nothing was appended between the two reads. |
| `JobStream.ClosesAfterOnePage` | src/flycanon/web/controllers/jobs_controller.py:169-214 | A stream to a finished job with more than a page left sends one page, then the last status frame, and leaves the rest. |
| `JobStream.StreamCanCloseShort` | src/flycanon/web/controllers/jobs_controller.py:169-214 | For every page size there is a log that such a stream leaves incomplete at close. |
| `JobStream.ReconnectDelivers` | src/flycanon/web/controllers/jobs_controller.py:169-214 | A reconnect to a finished job delivers exactly one further page. |
| `JobStream.ReconnectsDrain` | src/flycanon/web/controllers/jobs_controller.py:169-214 | k reconnects take a client with n events to min(n + k * limit, length of the log). |
| `JobStream.ReconnectsCompleteIff` | src/flycanon/models/repositories/ingest_job_repository.py:373-401 | So the rest of a log arrives if and only if the pages of the reconnects together have room for it. |
| `JobStream.ReconnectsNeeded` | src/flycanon/models/repositories/ingest_job_repository.py:373-401 | That is, if and only if there are at least ceil(remaining / page size) reconnects. |
| `Sse.ReadStream` | sdks/python/src/flycanon_sdk/_client.py:1023-1057 | The SDK's line loop computes the messages of its line-by-line specification, with a comment, a blank line and an unknown field treated as the code does; each message's cursor is the payload's own or the number of messages before it. |
| `Sse.SdkReadsFrame` | sdks/python/src/flycanon_sdk/_client.py:1026-1057 | The SDK reads a printed frame as its (event, data) pair, ignores the `id:` line, and is then in its start state again. |
| `Sse.HtmlReadsFrame` | src/flycanon/web/controllers/jobs_controller.py:248-261 | The reader of section 9.2.6 of the HTML Living Standard, from any last-event-ID buffer, reads the same pair; its last event ID becomes the id line, or that buffer if there is none. |
| `Sse.JsonFramesArePrintable` | src/flycanon/web/controllers/jobs_controller.py:248-261 | The event names in use with an ASCII JSON object as payload meet what the round trip needs. |
| `Sse.BrokenFrameReads` | sdks/python/src/flycanon_sdk/_client.py:1192-1216 | Neither reader gets anything out of a frame that breaks off at any character, under either notion of line break. |
| `Sse.TruncatedRoundTrip` | sdks/python/src/flycanon_sdk/_client.py:1192-1216 | A printed stream cut at any character reads as exactly its complete frames, by the SDK and by the standard's reader alike; the last event ID stays if no frame is complete, and is otherwise the last id printed in one, or the buffer the reader started with. |
| `Sse.RoundTrip` | src/flycanon/web/answer_stream.py:59-60 | Parsing the concatenation of any list of printed frames gives back those frames. |
| `Sse.ReadersAgree` | sdks/python/src/flycanon_sdk/_client.py:1026-1057 | On any stream of lines that need no more than one blank stripped and have a colon after `event` and `data`, with comments, unknown fields and frames of many data lines, the SDK reads the messages of the reader of section 9.2.6 of the HTML Living Standard. |
| `Sse.DataLinesAgreeIff` | sdks/python/src/flycanon_sdk/_client.py:1056-1057 | On a data line the SDK, which strips all leading blanks, and the standard, which drops one space, agree if and only if no blank is left after that one space. |
| `JobWire.WireText` | src/flycanon/web/controllers/jobs_controller.py:248-261 | The characters of the frames: event name, id line and payload of a progress frame, event name and payload of a status frame, each closed by a blank line. |
| `JobWire.ConnectionReadsSegment` | src/flycanon/web/controllers/jobs_controller.py:147-261 | One connection end to end, for either kind of user agent: the text that arrived reads as the messages of a segment of the log; the last event ID is then that of its last event, unless the agent forgets. |
| `JobWire.ListenerReadsPrefix` | src/flycanon/web/controllers/jobs_controller.py:147-261 | End to end over any number of connections, each cut after any character and resumed by `Last-Event-ID`, for an agent that carries its ID buffer over as browsers do: the progress messages read are those of an initial segment of the job's log, each once and in order. |
| `JobWire.ListenerReadsPrefixIff` | src/flycanon/web/controllers/jobs_controller.py:147-261 | For an agent of either kind, a literal reader of section 9.2.6 included: the same holds if and only if no connection, made when a last event ID was known, ended with only id-less frames read and was followed by one that received an event. |
| `JobWire.SnapshotAloneForgets` | src/flycanon/web/controllers/jobs_controller.py:158-168 | The snapshot has no id line, so a literal reader whose connection breaks right behind it, or anywhere before the first event, loses its place. |
| `JobWire.SdkSessionReadsPrefix` | sdks/python/src/flycanon_sdk/_client.py:330-346 | The same for the SDK, whose caller takes the id out of the last event payload and passes it as `after_id`. |
| `AnswerStream.ActKeepsInFlight` | src/flycanon/web/answer_stream.py:125-138 | Whatever the worker thread and the event loop do, no report between posting and sending is lost, repeated or reordered, and a finished task stays finished. |
| `AnswerStream.DrainWhileRunning` | src/flycanon/web/answer_stream.py:142-147 | The waiting loop, with any timeouts, sends reports in posting order and loses none, also when a timeout falls beside an arrival. |
| `AnswerStream.Flush` | src/flycanon/web/answer_stream.py:148-150 | The flushing loop empties the queue unless the client goes away. |
| `AnswerStream.StreamAnswer` | src/flycanon/web/answer_stream.py:122-174 | For every schedule of callbacks, completion and timeouts: frame k is the status frame of report k; what is sent is an initial segment of the reports; a closed stream has sent every report posted before the engine ended, which is every report if the engine reports only while it runs, and then exactly one frame: `final` with the answer if there is one, otherwise `error` with the message. |
| `AnswerStream.AllIsOwed` | src/flycanon/web/answer_stream.py:125-138 | The engine reports only while it runs, and then "posted before it ended" is every report. |
| `Names.DecodeOfNamespace` | migrations/versions/20260924_1200_0017_embedding_sets.py:311-314 | `t/<tenant>/w/<workspace>` decodes to the pair for all slash-free slugs. |
| `Names.DecodeOfParts` | migrations/versions/20260924_1200_0017_embedding_sets.py:311-314 | For any parts: a namespace of fewer than four, or without the `t` or `w` marker in its place, stands for itself there. |
| `Names.CanonicalDecodesApart` | migrations/versions/20260924_1200_0017_embedding_sets.py:311-314 | Canonical namespaces that decode alike are equal, so each workspace is adopted once. |
| `Names.EncodeOfDecodeIff` | migrations/versions/20260924_1200_0017_embedding_sets.py:311-314 | Decoding and encoding again is the identity if and only if the namespace is canonical. |
| `Names.TrailingPartsCollide` | migrations/versions/20260924_1200_0017_embedding_sets.py:311-314 | Any canonical namespace collides with every namespace that only adds a fifth part to it. |
| `Names.IndexNamesFaithful` | src/flycanon/models/entities/embedding_set.py:105-113 | On minted set ids the index names are equal if and only if the ids are; they have 60 characters. |
| `Names.IndexNameIs` | src/flycanon/models/entities/embedding_set.py:105-113 | The index name of a minted id is `canon_chunk_vectors_hnsw_es_` and its 32 hex digits. |
| `Names.MaterialFaithful` | src/flycanon/models/entities/embedding_set.py:64-77 | The fingerprint material of two configurations is equal if and only if their normalised fields are, when no field holds the separator. |
| `Names.MaterialFields` | src/flycanon/models/entities/embedding_set.py:74-76 | Splitting the material gives back provider (stripped, lower case), model, dimensions, endpoint and API version, in that order. |
| `Names.SeparatorInFieldCollides` | src/flycanon/models/entities/embedding_set.py:74-76 | With the separator inside a field two different configurations have the same material. |
| `EmbeddingSets.EmbeddingSetRepository.Insert` | src/flycanon/models/repositories/embedding_set_repository.py:61-64 | An insert is the `InsertSet` write; it is refused if and only if the id is taken, the dimensions are not 64 to 4096, or a text is longer than its column. |
| `EmbeddingSets.EmbeddingSetRepository.SetStatus` | src/flycanon/models/repositories/embedding_set_repository.py:66-106 | A status change is the `MoveSet` write; column by column: the new status, the one matching timestamp, each count and the index name if given, everything else kept; only inside the scope, and no other set. |
| `EmbeddingSets.EmbeddingSetRepository.Delete` | src/flycanon/models/repositories/embedding_set_repository.py:108-112 | A delete is the `DeleteSet` write: this set if it has this tenant and workspace, without a look at the vectors, and no other. |
| `EmbeddingSets.EmbeddingSetRepository.PointWorkspaceAt` | src/flycanon/models/repositories/embedding_set_repository.py:114-133 | The switch is the `Point` write: afterwards the workspace of this tenant points at the given set, or at none; every other workspace and every tenant is as before. |
| `EmbeddingSets.EmbeddingSetRepository.Upsert` | migrations/versions/20260924_1200_0017_embedding_sets.py:234-259 | A vector write lands if and only if its set exists and has the row's `provider:model` and width. |
| `EmbeddingSets.WriteKeepsCoherentIff` | src/flycanon/models/repositories/embedding_set_repository.py:61-133 | From a coherent state every write leaves each vector in the space of its set, except exactly a delete that takes effect on a set with vectors left. |
| `EmbeddingSets.RunKeepsCoherent` | migrations/versions/20260924_1200_0017_embedding_sets.py:234-259 | So does every run of writes without such a delete. |
| `EmbeddingSets.RunKeepsSpaces` | src/flycanon/models/repositories/embedding_set_repository.py:66-133 | In any run a set that is there throughout keeps its provider, model and dimensions. |
| `EmbeddingSets.WriteKeepsStampsIff` | src/flycanon/models/repositories/embedding_set_repository.py:61-98 | A write leaves every ready, active or retired set with its timestamp if and only if it does not insert one without. |
| `EmbeddingSets.RunKeepsStamps` | src/flycanon/models/repositories/embedding_set_repository.py:61-98 | So does every run without such an insert. |
| `EmbeddingMigration.LabelIsSettingIff` | migrations/versions/20260924_1200_0017_embedding_sets.py:293-296 | The label given to adopted rows is the embedding-model setting itself if and only if that has a non-empty provider and a non-empty model. |
| `EmbeddingMigration.EmbedderOf` | migrations/versions/20260924_1200_0017_embedding_sets.py:293-296 | The setting is cut at its first colon; a missing provider becomes `unknown`, a missing model the whole setting. |
| `EmbeddingMigration.Database.AdoptNamespace` | migrations/versions/20260924_1200_0017_embedding_sets.py:315-403 | One turn of the loop registers the set, labels the rows of the namespace and moves the pointer; it is refused if and only if the widths differ or the registry rejects the set. |
| `EmbeddingMigration.Database.AdoptExistingVectors` | migrations/versions/20260924_1200_0017_embedding_sets.py:286-416 | The loop succeeds if and only if every namespace can be folded, in whatever order the GROUP BY returns them; each namespace is folded once. |
| `EmbeddingMigration.Database.Upgrade` | migrations/versions/20260924_1200_0017_embedding_sets.py:419-483 | The upgrade succeeds if and only if every namespace can be folded: with canonical namespaces and texts within their columns, if and only if each has one width, from 64 to 4096. A refusal changes nothing, and after success the table is the adopted one re-keyed on (set, chunk). |
| `EmbeddingMigration.FitsIffInsertable` | migrations/versions/20260924_1200_0017_embedding_sets.py:318-361 | A namespace of one width is refused if and only if the registry refuses its set. |
| `EmbeddingMigration.AllAdoptableIff` | migrations/versions/20260924_1200_0017_embedding_sets.py:305-361 | Which tables are accepted, in numbers. |
| `EmbeddingMigration.OrphansHaveNoWorkspace` | migrations/versions/20260924_1200_0017_embedding_sets.py:363-389 | An adopted set is active since the migration, and marked orphaned if and only if its tenant has no such workspace row. |
| `EmbeddingMigration.Database.Downgrade` | migrations/versions/20260924_1200_0017_embedding_sets.py:486-533 | The downgrade succeeds if and only if there is one declared width, every embedding has it and no chunk is in two sets; then it restores the chunk-keyed table and forgets sets and pointers, otherwise it changes nothing. |
| `EmbeddingMigration.AdoptAllRegisters` | migrations/versions/20260924_1200_0017_embedding_sets.py:305-403 | After any part of the loop: each namespace done has its own new set that describes exactly its rows (model, width, counts, index name, scope), every other set is unchanged, and every workspace points at the set adopted last for it or is as before. |
| `EmbeddingMigration.AdoptionMeans` | migrations/versions/20260924_1200_0017_embedding_sets.py:447-473 | A complete adoption leaves no NULL, so NOT NULL and the re-key cannot fail, and files every row once, under the set of its namespace, with id, namespace and embedding unchanged. |
| `EmbeddingMigration.LabelledIsRefiled` | migrations/versions/20260924_1200_0017_embedding_sets.py:455-464 | Re-keying a fully labelled table neither merges nor loses a row. |
| `EmbeddingMigration.UpgradeIsCoherent` | migrations/versions/20260924_1200_0017_embedding_sets.py:227-267 | Every row of an upgraded table passes the trigger: its set's `provider:model`, its set's width, which is the embedding's real width. |
| `EmbeddingMigration.UpgradeConservesCount` | migrations/versions/20260924_1200_0017_embedding_sets.py:334-360 | The new sets' `vector_count` values sum to the number of rows, before and after. |
| `EmbeddingMigration.UpgradeThenDowngrade` | migrations/versions/20260924_1200_0017_embedding_sets.py:447-524 | Directly after an upgrade the downgrade succeeds if and only if the flat table had one width, and then gives back exactly that table. |
| `EmbeddingMigration.UpgradeIsSound` | migrations/versions/20260924_1200_0017_embedding_sets.py:419-524 | Together, for every table the upgrade accepts: NOT NULL and the re-key succeed, every row passes the trigger, the set counts sum to the row count, and the downgrade restores the table if and only if it had one width. |
| `EmbeddingMigration.SharedChunkBlocksDowngrade` | migrations/versions/20260924_1200_0017_embedding_sets.py:487-508 | For every restorable state a coherent, equal-width vector of a chunk in a second set passes the width check and still makes the restored PRIMARY KEY (id) fail. |
| `EmbeddingMigration.CanonicalPointersAreExact` | migrations/versions/20260924_1200_0017_embedding_sets.py:363-368 | If the namespaces are canonical, a workspace with vectors points at the one set adopted for it. |
| `EmbeddingMigration.CollidingNamespacesLeaveOneUnreached` | migrations/versions/20260924_1200_0017_embedding_sets.py:311-368 | Where two namespaces decode to one workspace, both sets are active, and the workspace points at the one adopted last. |
| `ScopePurge.ScopePurgeRepository.PurgeTables` | src/flycanon/models/repositories/scope_purge_repository.py:118-127 | The loop runs the statements of an order, cascades included, and reports the rows each WHERE clause matched. |
| `ScopePurge.ScopePurgeRepository.PurgeScope` | src/flycanon/models/repositories/scope_purge_repository.py:72-128 | A missing scope key is refused and nothing changes. Otherwise no row but a source is left with this tenant and workspace; if foreign keys stay inside their scopes, only such rows are gone, every other row is unchanged, and eleven counts are reported that sum to the rows removed. |
| `ScopePurge.StepIsExact` | src/flycanon/models/repositories/scope_purge_repository.py:119-127 | In an order that lists children first each statement removes exactly its table's rows of the scope: no cascade, no cleared reference elsewhere. |
| `ScopePurge.PurgeOrderIsChildrenFirst` | src/flycanon/models/repositories/scope_purge_repository.py:72-84 | Every table with a foreign key to a purged table comes before it in `_PURGE_ORDER`. |
| `ScopePurge.SchemaIs` | migrations/versions/20260518_1700_0001_init.py:83-190 | The foreign keys between the tables, and that only a citation's chunk is cleared rather than cascaded. |
| `ScopePurge.PurgeIsExactIff` | src/flycanon/models/repositories/scope_purge_repository.py:116-128 | The purge removes exactly the scope's rows of its tables and changes nothing else if and only if no row that is to stay refers to one of them. |
| `ScopePurge.ScopeClosedIsDetached` | migrations/versions/20260518_1700_0001_init.py:83-88 | Foreign keys that stay inside their scopes are enough for that. |
| `ScopePurge.PurgeKeepsReferences` | migrations/versions/20260518_1700_0001_init.py:173-190 | In any order and over any foreign keys, the cascades and cleared columns leave no reference dangling that was not dangling before. |
| `ScopePurge.PurgeEmptiesScope` | src/flycanon/models/repositories/scope_purge_repository.py:116-128 | In any order and over any foreign keys, no row of the scope is left in the purged tables. |
| `ScopePurge.PurgeTakesReferrers` | src/flycanon/models/repositories/scope_purge_repository.py:116-128 | A row that refers to a purged one is deleted with it if the foreign key cascades, and loses the reference otherwise, whatever its own scope. |
| `ScopePurge.PurgeReachesAnotherScope` | src/flycanon/models/repositories/scope_purge_repository.py:111-114 | So for any two workspaces there is a database in which purging one deletes a row of the other. |
| `ScopePurge.PurgeRemovesExactlyTheScope` | src/flycanon/models/repositories/scope_purge_repository.py:116-128 | If no row that is to stay refers to one that is to go: no row of the scope is left in the listed tables, every other row of the database is untouched, the counts are those of the tables and add up to the rows removed, and a second purge reports zeros. |
| `ScopePurge.ParentFirstCascades` | migrations/versions/20260518_1700_0001_init.py:135-140 | For every cascading foreign key a parent-first DELETE takes the child along and reports only the parent. |
| `Numbering.NumberedRepository.LatestNumber` | src/flycanon/models/repositories/knowledge_repository.py:262-269 | The largest version number of the item, 0 if there is none. |
| `Numbering.NumberedRepository.NextIndex` | src/flycanon/models/repositories/conversation_repository.py:129-137 | One more than the largest turn index, 1 if there is none. |
| `Numbering.NumberedRepository.Add` | src/flycanon/models/repositories/conversation_repository.py:97-102 | An insert lands if and only if the parent exists and the number is free; nothing else changes. |
| `Numbering.AcceptedIffNext` | src/flycanon/models/entities/conversation.py:107-112 | In every reachable state the unique constraint refuses exactly the stale inserts: one lands if and only if its number is still the next one. |
| `Numbering.NumbersStayDense` | src/flycanon/models/repositories/conversation_repository.py:97-137 | With any number of writers that read and insert later, and purges and creations at any moment, the numbers under each parent are always {1..n}. |
| `Numbering.RecreatedParentBreaksDensity` | src/flycanon/models/repositories/conversation_repository.py:129-137 | Parent ids must be fresh: had a purged parent been created again, a late insert would leave {2}. |
| `ChunkWalk.ChunkRepository.ListForWorkspace` | src/flycanon/models/repositories/chunk_repository.py:77-105 | A page is the `limit` smallest matching ids behind the cursor, ascending; by columns: chunks of this tenant and workspace, and whatever is left out comes behind a full page. |
| `ChunkWalk.ChunkRepository.ReplaceForSource` | src/flycanon/models/repositories/chunk_repository.py:174-193 | Afterwards the given rows are there, no other chunk of the source is, and the chunks of other sources are unchanged; or, if an id is taken by another source, nothing changes. |
| `ChunkWalk.VisitsAscend` | src/flycanon/models/repositories/chunk_repository.py:77-105 | Over a table that changes arbitrarily between pages, the ids visited are strictly ascending, so none is visited twice. |
| `ChunkWalk.StableChunksVisited` | src/flycanon/models/repositories/chunk_repository.py:77-105 | A chunk present at every page read is visited before the walk ends. |
| `ChunkWalk.StableWalk` | src/flycanon/models/repositories/chunk_repository.py:77-105 | On an unchanging table n pages are together the first n * limit chunks of the full scan. |
| `ChunkWalk.StableWalkIsFullScanIff` | src/flycanon/models/repositories/chunk_repository.py:77-117 | So the walk equals the full scan if and only if it has read ceil(count / limit) pages. |
| `ChunkWalk.StableWalkEndsIff` | src/flycanon/models/repositories/chunk_repository.py:77-117 | It reads its first page that is not full with page count / limit + 1, not before and not later. |
| `ChunkWalk.EndedWalkVisitsCount` | src/flycanon/models/repositories/chunk_repository.py:77-117 | A walk that has ended over an unchanging table has visited exactly the chunks that `count_for_workspace` counts. |
| `ChunkWalk.RestartContinues` | src/flycanon/models/repositories/chunk_repository.py:77-105 | Cutting a walk at any page and restarting from the saved cursor gives the same walk and the same visits, and conversely. |
| `Citations.KnowledgeRepository.SelectLinks` | src/flycanon/models/repositories/knowledge_repository.py:335-361 | The join: every live citation of a wanted chunk once, the most recently updated item first. |
| `Citations.KnowledgeRepository.LookupPublishedCitationsForChunks` | src/flycanon/models/repositories/knowledge_repository.py:310-376 | A chunk is in the map if and only if it was asked for and a citation of it belongs to an item's version with the item's `current_version`; its link has that version's columns, and no other such citation is of an item with a later `updated_at`. |
| `Citations.KnowledgeRepository.ResolveSourceIdsForItems` | src/flycanon/models/repositories/knowledge_repository.py:378-420 | A source is in the answer if and only if a live citation of one of the items, inside the scope, is of that source; the rows of the query are folded into a set. |
| `Citations.SupportsIff` | src/flycanon/models/repositories/knowledge_repository.py:398-420 | By columns: a citation counts for an item if it is of the version that the item names as current and has this tenant and workspace. |
| `Citations.LinkedSourcesAreResolved` | src/flycanon/models/repositories/knowledge_repository.py:333-420 | Within one scope the link of a chunk rests on a live citation of that chunk whose source is in every correct answer for the linked item. |
| `Citations.LookupIsDetermined` | src/flycanon/models/repositories/knowledge_repository.py:358-376 | Where no two items were updated at the same time, the lookup has one answer only. |
| `Costs.CostRepository.Aggregate` | src/flycanon/models/repositories/cost_repository.py:193-258 | For every `group_by`, unknown or repeated names included: rows for exactly the keys that occur, one each, with the sums and the count of exactly their events. |
| `Costs.SelectedByColumns` | src/flycanon/models/repositories/cost_repository.py:237-245 | The events reported on are exactly those of the tenant, workspace and time window asked for, where given, each as often as recorded. |
| `Costs.KeyFollowsNames` | src/flycanon/models/repositories/cost_repository.py:211-219 | A group key is the values of the requested columns in the order requested, unknown names dropped; with no known name it is the day. |
| `Costs.KeyOfName` | src/flycanon/models/repositories/cost_repository.py:211-216 | `model`, `agent_name` and `date` are the event's columns of that meaning. |
| `Costs.TotalsAreColumnSums` | src/flycanon/models/repositories/cost_repository.py:222-236 | The totals are column sums: input, output and total tokens, cost, and one call per event. |
| `Costs.CostRepository.Report` | src/flycanon/web/controllers/billing_controller.py:106-137 | The running totals over the rows are the cost and the number of all events of the scope and window. |
| `Costs.MergingRows` | src/flycanon/models/repositories/cost_repository.py:237-258 | For any choice of keys, adding up the chosen rows gives the sums over the events with a chosen key. |
| `Costs.ReportsConserve` | src/flycanon/web/controllers/billing_controller.py:106-137 | Any two groupings of one scope and window sum to the same tokens, cost and calls. |
| `Costs.MergingGivesCoarser` | src/flycanon/models/repositories/cost_repository.py:211-258 | Merging the rows of a finer grouping gives every row of a coarser one, and zero for a group that the coarser one does not have. |

## Left out

- SQLAlchemy sessions, engines, SQL text, row-level security and index building, including the width limits
  of HNSW indexes: an upgrade whose set is too wide for its index fails in the database, not in this model.
- SHA-256, UUIDs and the decoding of JSON: ids are fresh, and the fingerprint is modelled up to the string
  that is hashed.
- HTTP, headers other than `Last-Event-ID`, authentication, dependency injection, configuration, the CLI.
- LLM, embedding, OCR, object-store and message-bus calls, and the services above the repositories with
  their retry loops and poison-job guard.
- The retrieval mode of the answer stream, which yields its frames without any concurrency.
- `JobStream.StreamJob`: the sleep between polls and the payload fields that are not in the log are not
  modelled; the answers of its queries are a parameter.
- `JobEvents.EventTable.AppendEvent`: the foreign key to the job and the event's timestamp are not modelled.
- `IngestJobs.IngestJobRepository.ReclaimStuck`: returns the ids only; the tenant and workspace that the
  statement reads beside each id are not modelled.
- `Sse.ReadStream`: undecodable payloads, a `cursor` that is not a number, HTTP status codes and connection
  errors are not modelled.
- `EmbeddingSets.RunKeepsCoherent`: one direction only, because a run that strands vectors may delete them
  later.
- `EmbeddingMigration.Database.Upgrade`: the portable column changes on other tables, SQLite, and a server
  without pgvector are not modelled; the note of an orphaned set is a flag.
- `Costs.CostRepository.Aggregate`: the order of the rows and the printing of numbers are not modelled.
- `Text.ParseInt` and `Names.Lower`: Python's non-ASCII digits and letters, and its limit of 4300 digits, are
  not modelled; fingerprint material is therefore faithful up to ASCII lower-casing.
- `list_jobs`, `list_subject_costs`, `latency_samples`, `by_subject`, `list_turns`, `list_for_workspace` of
  the set registry, `previous_active`, `stamp_embedding_model` and input-size sums: single filters or copies.
- Candidate decisions, workspace close and token revocation: single compare-and-set gates, easier cases of
  the lease proof.
