# Verification model of the file-processing service

The service takes uploads, runs image and CSV jobs on them through a BullMQ queue, streams each job's progress
to browsers over server-sent events, hands out signed download links, limits request rates in Redis and sweeps
old files off the disk. This project models the parts whose correctness depends on interleaving, on arithmetic
or on agreement between two representations, and proves what they promise for every input, run and schedule.

Check everything with `dafny verify dfyconfig.toml`.

## How it is laid out

**Job outcomes.** `JobEvents`, `EventStream` and `Worker` hold the code that runs between two awaits: first as
functions on values, then as the classes (`Handler`, `Emitter`, `Process`) whose fields that code updates, each
method tied to its function. `Protocol` puts queue, workers, Redis pub/sub, the one shared subscriber connection
and any number of event streams into one machine in which every await is a place where other steps may run;
every command Redis executes is one log entry. `ProtocolInvariant` and `ProtocolSteps` prove what every schedule
keeps, `ProtocolTheorems` the results, `ProtocolWritten` what each connection has written, `ProtocolWitnesses` concrete schedules that break the unqualified
promises. `Browser` adds the hook in the page, `Progress` the forwarding of percentages by many workers,
`Framing` the bytes on the wire and the parser of section 9.2.6 of the WHATWG HTML Standard.

**CSV.** `CsvTransform` and `CsvValidate` prove the one-row-at-a-time machines equal to definitions over the
whole table, and then laws of those definitions; `CsvTransformMeaning` and `CsvValidateMeaning` say in terms of the
input alone what comes out and what is counted. `Text` is `trim` and sums over sequences.

**Rate limiting.** `RateLimit` interleaves clock reads, INCR and EXPIRE of any number of requests,
`RateLimitRestarts` says when a count starts again, and `RateLimitWitnesses` which lateness the boundary claim bears.

**Files.** `Paths` (normalisation and the prefix guard), `Keys` (display names and generated keys), `Storage`
(disk and records), `Sweep` (the cleanup job over a tree with faults), `Retention` (all of it over time) and
`RetentionSweep` (the sweep over the tree is the sweep step of the timed machine). `Signing` covers links.

In every machine a run is any sequence of steps from the initial state; a step that is not enabled leaves the
state alone, so quantifying over sequences quantifies over schedules. Randomness, clocks, HMAC, `toLowerCase`,
`JSON.stringify` and number syntax beyond safe integers are parameters; what is required of them is in the
`requires` clauses.

## Where the code does not do what its documentation says

- `src/jobs/events.ts:56-59` wants every path that opens a subscription to close it, and cleanup to do so. A
  cleanup that runs before `unsubscribe` is assigned leaves the listener and the subscription for good
  (`LeakExactly`, `ListenerCanLeak`).
- `src/jobs/sse.ts:121-123` sends a snapshot so that no outcome is missed. A watcher that subscribes after the
  publish and reads the state before the queue's commit is never told (`InformedExactly` is the exact condition,
  `OutcomeCanBeLost` a schedule). One watcher's unsubscribe also silences another's (`NeighbourSilences`).
- `src/jobs/worker.ts:157-159` says published progress never decreases. It decreases exactly where an attempt
  starts or the job finally fails while something above zero was showing (`DescendsExactly`); both happen
  (`ProgressCanGoDown`).
- `src/ratelimit.ts:12-14` speaks of at most twice the limit across a boundary. For every window and every limit
  that admits anything, all runs whose INCRs are executed at most `late` milliseconds after their window's end
  keep to it if and only if `late` is zero (`BoundExactly`): one INCR one millisecond late suffices to break it
  (`OneMillisecondBreaksTheBound`). A late INCR can also restart a count (`LateIncrStartsAgain`), exactly if an
  executed expiry of its key has passed (`CountRestartsExactly`).
- `src/config.ts:65` and `src/files/repository.ts:22` make retention equal to the record lifetime. Records are
  backed by bytes in every run only if retention also covers the time from a file's modification to its record
  (`RetentionExactly`).
- `src/files/upload.ts:106-109` promises no directory separators. One behind a line terminator stays, exactly if
  fewer than 255 characters are kept before it (`SeparatorSurvivesExactly`; `SeparatorCanSurvive` is a name). The
  CSV key made of a name is then swept exactly if following the name's own components from the output directory
  ends one component below the root (`CsvOutputKeySweptExactly`); `BrokenNameEscapesTheSweep` is a name whose key
  is not. These are statements about the functions, whatever a multipart parser does to a name before them.
- `src/files/signing.ts:33-35` rests on a separator that cannot occur in a key. It may occur; the message is
  injective all the same because the printed expiry has no line break (`MessageIsInjective`).
- `src/storage.ts:72` with root `/` refuses every file, since the prefix it tests is `//` (`RootSlashRefusesFiles`).

## Model

| member | source | states |
|---|---|---|
| `ProtocolTheorems.OneAnnouncement` | src/jobs/worker.ts:66-129 | In every schedule a job's outcome is published at most once, always before the queue's commit, and the commit settles the very state that was published |
| `ProtocolTheorems.SettledWasAnnounced` | src/jobs/worker.ts:73-130 | A settled job passed through exactly its announcement, with the same outcome, within its allowance of attempts |
| `ProtocolTheorems.Agreement` | src/jobs/sse.ts:110-148 | Every terminal event any connection wrote, live or snapshot, belongs to its job, names the announced and finally settled state, and equals every other connection's terminal event for that job |
| `ProtocolTheorems.InformedExactly` | src/jobs/sse.ts:66-156 | A connection that got through its snapshot uncut, with its job settled and all messages drained, has been told the outcome if and only if its state read followed the commit or the outcome message was routed to the connection while its listener was on; and it is closed if and only if told |
| `ProtocolTheorems.LostOutcome` | src/jobs/sse.ts:107-156 | With the publish accepted and no unsubscribe of the channel, an open silent connection implies the order publish, subscribe, state read, commit |
| `ProtocolTheorems.ReconnectRepairs` | src/jobs/sse.ts:121-149 | Any uncut connection whose state read follows the commit has written the outcome and closed |
| `ProtocolTheorems.SharedDelivery` | src/jobs/events.ts:61-93 | What a callback received is, in order and without loss, the schema-valid publishes on its own channel that Redis executed while any subscription routed the channel to the shared connection and that were delivered while its handler was attached |
| `ProtocolTheorems.HeardIsRouted` | src/jobs/events.ts:61-93 | A listener's filter of a stretch of the connection's messages is the same stretch of the log's routed publishes on its channel |
| `ProtocolTheorems.LiveIsLastCommand` | src/jobs/events.ts:82-92 | Redis routes a channel to the connection if and only if some watcher subscribed and no watcher unsubscribed that channel since |
| `ProtocolInvariant.WireOrigin` | src/jobs/events.ts:42-51 | Every message on the connection is one accepted publish made while its channel was routed there, at that publish's position |
| `ProtocolInvariant.WirePosition` | src/jobs/events.ts:42-51 | Every publish made while its channel is routed is on the connection, after exactly the messages published before it |
| `ProtocolTheorems.EndsAtMostOnce` | src/jobs/sse.ts:96-105 | In every schedule `res.end` runs at most once, only after cleanup, and is outstanding only while the unsubscribe is awaited |
| `ProtocolTheorems.AfterCleanup` | src/jobs/sse.ts:85-119 | After the first cleanup nothing re-runs it, no live event is written, at most the pending snapshot is; the listener stays exactly if cleanup found no unsubscribe function, and then this connection never unsubscribes |
| `ProtocolTheorems.LeakExactly` | src/jobs/sse.ts:86-110 | The listener outlives its connection in all later runs if and only if `unsubscribe` was still null when cleanup first took effect |
| `ProtocolTheorems.ClosedReceive` | src/jobs/sse.ts:110-119 | A message arriving after cleanup changes nothing of what the connection wrote |
| `ProtocolWritten.WrittenWhileOpen` | src/jobs/sse.ts:110-156 | In every schedule, what an open connection has written is exactly what its callback was given, in order: alone before the snapshot, and after it with the snapshot at one place among them |
| `ProtocolWritten.WrittenOnceClosed` | src/jobs/sse.ts:96-156 | Whatever step closes it, from then on it has written exactly what was heard up to the closing, with the snapshot among it unless the response had ended before |
| `ProtocolWritten.LiveEventIsWritten` | src/jobs/sse.ts:110-119 | On an attached, open stream a valid message of the own channel appends exactly its event, outcome or not |
| `ProtocolWritten.NothingElseIsWritten` | src/jobs/events.ts:68-80 | Malformed text, progress out of range, another channel, a detached listener or a closed connection write nothing |
| `ProtocolWritten.SnapshotIsWritten` | src/jobs/sse.ts:124-156 | The snapshot written for each queue state, field by field |
| `ProtocolWritten.KeepAliveWhileOpen` | src/jobs/sse.ts:88-99 | One comment while open, none once closed |
| `ProtocolWritten.FetchTakesProgress` | src/jobs/sse.ts:66-73 | The progress a snapshot will name is the job's when it was fetched |
| `ProtocolWritten.UpdateIsPublished` | src/jobs/worker.ts:162-177 | An update is recorded and, if forwarded, published as it is |
| `ProtocolWritten.StepsRunTheHandler` | src/jobs/sse.ts:66-156 | What each of a connection's steps does when it is its turn: commands sent, state read, flags and ends |
| `ProtocolTheorems.CountersMatch` | src/jobs/worker.ts:82-126 | When Redis accepts every increment and no handler is between leaving and the queue acting, the completed and failed counters are the numbers of jobs settled each way, and their sum is the number of settled jobs |
| `ProtocolSteps.ApplyKeeps` | src/jobs/sse.ts:62-157 | Every step of any participant keeps the protocol invariant |
| `ProtocolSteps.ReachableInv` | src/jobs/worker.ts:57-131 | Hence it holds in every reachable state |
| `ProtocolWitnesses.OutcomeCanBeLost` | src/jobs/sse.ts:110-124 | A schedule with every command accepted and nobody unsubscribing in which an open connection is never told |
| `ProtocolWitnesses.NeighbourSilences` | src/jobs/events.ts:85-92 | A schedule in which a watcher subscribed before the publish is silenced by another watcher leaving |
| `ProtocolWitnesses.ListenerCanLeak` | src/jobs/sse.ts:86-108 | A schedule whose ended connection keeps its listener in all continuations |
| `EventStream.Handler.Receive` | src/jobs/events.ts:68-80 | The message handler, with the callback of `sse.ts` inlined: filters, writes and cleans up as the step function says |
| `EventStream.Handler.RunCleanup` | src/jobs/sse.ts:96-105 | Cleanup up to its await |
| `EventStream.Handler.FinishCleanup` | src/jobs/sse.ts:101-104 | Cleanup after its await |
| `EventStream.Handler.AssignUnsubscribe` | src/jobs/sse.ts:110 | The assignment once the subscribe reply is in |
| `EventStream.Handler.SendSnapshot` | src/jobs/sse.ts:124-156 | The snapshot, written even to a connection closed meanwhile |
| `EventStream.Handler.Tick` | src/jobs/sse.ts:88-92 | A keep-alive, until cleanup clears the timer |
| `EventStream.Handler.WriteItem` | src/jobs/sse.ts:55-57 | Writes reach the response until it is ended |
| `EventStream.Emitter.Emit` | src/jobs/events.ts:61-80 | One incoming message runs every listener's step exactly once |
| `JobEvents.ChannelForIsInjective` | src/jobs/events.ts:22-33 | Two jobs share a channel only if they are the same job |
| `Worker.RetryProtocol` | src/jobs/worker.ts:59-131 | For every script of attempt outcomes and allowance, a job's run tries to publish one start per attempt up to the settling one, then exactly one outcome, last, naming the final state |
| `Worker.OnlyTheOutcomeSettles` | src/jobs/worker.ts:66-127 | Of that run, whatever Redis refuses, the accepted starts are published and then the one outcome if and only if it was accepted |
| `Worker.AttemptBound` | src/jobs/worker.ts:112-127 | At most `attempts` attempts run, one if the first is decisive; the job completes if and only if some allowed attempt succeeds before any decisive failure |
| `Worker.WhatIsRetried` | src/jobs/errors.ts:50-57 | How many attempts a job takes whose every attempt ends in a given way: one for success and the four permanent failures, all allowed for the others |
| `Worker.AnnouncesIffQueueWillNotRetry` | src/jobs/worker.ts:112-127 | Failure is announced if and only if the queue will not retry |
| `Worker.SettlingAttempt` | src/jobs/processors.ts:96-110 | The settling attempt is the first decisive one, or the last allowed |
| `Worker.SettlingAttemptIs` | src/jobs/worker.ts:112-130 | The attempt after which the queue first stops is the settling one |
| `Worker.Process.Handle` | src/jobs/worker.ts:59-131 | One attempt of the handler: its result, the events it tries to publish, those Redis accepts and the accepted counter increments |
| `ProtocolTheorems.HandlerIsJobSteps` | src/jobs/worker.ts:59-131 | Run in one go, with Redis accepting or refusing any command, an attempt's steps in the protocol machine send exactly what the handler publishes, and the queue then retries or commits the outcome |
| `Worker.Process.RunToSettlement` | src/jobs/worker.ts:57-136 | Whatever Redis accepts, the loop of attempts tries exactly the specified events, publishes the accepted ones, ends in the settling attempt's outcome and bumps its one counter if accepted |
| `Browser.OutcomeIsAbsorbing` | frontend/src/useJobProgress.ts:57-89 | Once an outcome is displayed, nothing that arrives before the next change of job changes the view |
| `Browser.ShowsTheLastMessage` | frontend/src/useJobProgress.ts:42-93 | For every history: idle without a job; else phase, progress, outputs and error are those of the last valid message before the source closed, or fresh if there was none, with a lost connection in the error if that closed it; and when the source is open |
| `Browser.FirstOutcomeIsDisplayed` | frontend/src/useJobProgress.ts:57-75 | The first valid outcome of a job's session is displayed, field by field, until the job changes |
| `Browser.OutputsExactly` | frontend/src/useJobProgress.ts:34-40 | Nothing is taken from a result without an output list; from one with it, its string entries in their places |
| `Browser.DisplayedWasWritten` | frontend/src/useJobProgress.ts:57-75 | A displayed outcome was written by some connection of the job being watched |
| `Browser.DisplayAgreesWithQueue` | frontend/src/useJobProgress.ts:42-93 | From mounting on, over any changes of job and fed by any connections of a reachable system, a displayed outcome is the one announced for the job being watched and that job's final state |
| `Browser.OutputsAreStrings` | frontend/src/useJobProgress.ts:34-40 | The displayed keys are exactly the string entries of the output list |
| `Browser.OutputsKeepOrder` | frontend/src/useJobProgress.ts:34-40 | And they keep their order |
| `Browser.Hook.Effect` | frontend/src/useJobProgress.ts:45-55 | A change of job starts clean with a new source, or goes idle |
| `Browser.Hook.OnMessage` | frontend/src/useJobProgress.ts:57-75 | A valid message replaces the display and a terminal one closes the source |
| `Browser.Hook.OnError` | frontend/src/useJobProgress.ts:77-87 | Only a definitively closed source reports a lost connection, and never over an outcome |
| `Progress.PublishesWeakMaxima` | src/jobs/worker.ts:160-181 | Per worker, what is published for a job since its last completion is the subsequence of non-negative weak prefix maxima of the reported values |
| `Progress.PublishesProcessing` | src/jobs/worker.ts:171-176 | All it publishes are progress events |
| `Progress.DescendsExactly` | src/jobs/worker.ts:66-181 | Over any number of workers, jobs and retries a publication lowers its job's progress if and only if it is an attempt's start or the final failure and something above zero was showing; every one is schema-valid |
| `Progress.ProgressCanGoDown` | src/jobs/worker.ts:66-127 | Runs of both kinds: a retry starting over from fifty, a last attempt failing at fifty |
| `Progress.MoveKeeps` | src/jobs/worker.ts:160-181 | Every move of the fleet keeps the invariant behind that |
| `Progress.Listener.OnProgress` | src/jobs/worker.ts:162-177 | The progress listener |
| `Progress.Listener.OnCompleted` | src/jobs/worker.ts:179-181 | Completion forgets the job's mark |
| `Framing.StreamRoundTrip` | src/jobs/sse.ts:55-92 | For every mix of events and keep-alives and every cutting into chunks, the parser ends fresh with exactly the written event texts, in order |
| `Framing.Response.WriteEvent` | src/jobs/sse.ts:55-57 | The response stays the encoding of the frames written, with one event more |
| `Framing.Response.WriteKeepAlive` | src/jobs/sse.ts:88-92 | The same with one comment more |
| `Framing.ChunksDoNotMatter` | tests/sse.test.ts:148-167 | Parsing in chunks equals parsing in one piece, for any bytes and parser state |
| `Framing.FramesCarryEvents` | src/jobs/sse.ts:55-57 | The frames of a connection's output carry the texts of its events |
| `Framing.BrowserReceivesWhatWasWritten` | src/jobs/sse.ts:55-92 | So the browser receives exactly the events a connection wrote, however the bytes are cut |
| `CsvTransform.StreamsTheTable` | src/jobs/csv.ts:256-317 | For every table, options and row limit, the machine's output, counters, failure and resolved columns are those defined over the whole table |
| `CsvTransform.SuccessIsWholeTable` | src/jobs/csv.ts:261-317 | It succeeds if and only if the limit is kept and some requested column exists when records arrive; then it emits the whole specified table and counts every row as kept or dropped |
| `CsvTransform.OutputIsPrefix` | src/jobs/csv.ts:264-294 | What was emitted before a failure is a prefix of the specification's output |
| `CsvTransform.Fusion` | src/jobs/csv.ts:279-315 | Transforming by A and then by a non-empty B within A equals transforming by B alone, none of the three failing |
| `CsvTransform.SecondPassIsIdentity` | src/jobs/csv.ts:279-315 | A second identical pass over the output changes nothing and drops nothing |
| `CsvTransform.FilterInProperties` | src/jobs/csv.ts:281-284 | Resolved columns are the requested ones that exist, all of them if all exist |
| `CsvTransform.Reshaper.Build` | src/jobs/csv.ts:296-303 | The inner loop builds the projected record, its key order and the all-empty flag |
| `CsvTransform.Reshaper.Transform` | src/jobs/csv.ts:263-316 | One row |
| `CsvTransform.Reshaper.Consume` | src/jobs/csv.ts:331-335 | All rows, stopping at the first failure |
| `CsvTransform.Processed` | src/jobs/csv.ts:266-294 | The rows processed are those before the first one that fails |
| `CsvTransformMeaning.OutputComesFromInput` | src/jobs/csv.ts:263-316 | Every emitted row comes from one input row, in order: each wanted column once, its cell that row's cell or empty, trimmed at the ends exactly if the option is set; the processed rows that do not come out are exactly those the option lets drop because every wanted cell is empty, or white with trimming on |
| `CsvTransformMeaning.FailsExactly` | src/jobs/csv.ts:266-294 | Which failure, if any, and at which row, from the row count, the requested columns and the header |
| `CsvTransformMeaning.ResolveMeans` | src/jobs/csv.ts:279-284 | The columns kept are those wanted, in the order asked for when all exist |
| `CsvValidate.Inspector.Consume` | src/jobs/csv.ts:137-193 | For every table the one-pass report equals the table-level definitions, or the body exceeds the limit and the pass fails |
| `CsvValidate.Inspector.Inspect` | src/jobs/csv.ts:140-192 | One row takes the report of the rows so far to the report with it |
| `CsvValidate.Inspector.CountBlanks` | src/jobs/csv.ts:171-180 | The cell loop books exactly the blank cells under each name and tells whether all are blank |
| `CsvValidate.InconsistentAreListed` | src/jobs/csv.ts:153-169 | The inconsistent rows are listed once each, increasing; the examples are the first min(5, n) of them |
| `CsvValidate.InconsistentAgainstHeader` | src/jobs/csv.ts:143-169 | When the first row has cells, a body row is inconsistent if and only if its length differs from that row's |
| `CsvValidate.BodyOrderDoesNotMatter` | src/jobs/csv.ts:143-183 | With a header, permuting the body changes no counter and no number of examples |
| `CsvValidate.BlanksMerge` | src/jobs/csv.ts:172-180 | A name's count is the number of blank positions under any column of that name, cells beyond header or row excluded |
| `CsvValidateMeaning.ReportMeans` | src/jobs/csv.ts:137-193 | Every counter of the report counted in the table itself: body rows, trimmed header names, the width, rows of another length, rows of white space only, and per name the white cells under any column of it |
| `RateLimit.FirstLimitAdmitted` | src/ratelimit.ts:60-92 | With clock read, INCR and EXPIRE interleaved across processes, an INCR executed no later than its window's end gets its rank among all INCRs of the key, and is admitted if and only if that rank is within the limit |
| `RateLimitWitnesses.BoundExactly` | src/ratelimit.ts:10-16 | For every window, limit and lateness: all runs whose INCRs are at most that late admit at most twice the limit to any client in any span of one window length, if and only if the lateness is zero or the limit is |
| `RateLimit.AtMostTwiceTheLimit` | src/ratelimit.ts:10-16 | In any run and any span of one window length a client has at most twice the limit admitted by INCRs run no later than their window's end, and at most that plus the late ones in all |
| `RateLimit.ExpiryCoversWindow` | src/ratelimit.ts:69-71 | An expiry set at any time from the window's start on outlasts the window |
| `RateLimit.ApplyKeeps` | src/ratelimit.ts:54-93 | Every step keeps the limiter's invariant, EXPIRE late or lost included |
| `RateLimitRestarts.CountRestartsExactly` | src/ratelimit.ts:65-71 | In every run an INCR's count is at most its rank among all INCRs of the key, and differs from it if and only if some INCR of the key up to this one ran after an executed expiry of the key had passed |
| `RateLimitWitnesses.OneMillisecondBreaksTheBound` | src/ratelimit.ts:10-16 | For every window and positive limit, a run with one INCR one millisecond late and a span in which one more than twice the limit is admitted |
| `RateLimitWitnesses.LateIncrsBreakTheBound` | src/ratelimit.ts:10-16 | For every window and positive limit, a run in which three times the limit is admitted at one instant |
| `RateLimitWitnesses.LateIncrStartsAgain` | src/ratelimit.ts:60-71 | For every window and positive limit, a run in which an INCR executed after its window's end restarts the count |
| `RateLimit.Limiter.Incr` | src/ratelimit.ts:68 | INCR on live, expired and missing keys |
| `RateLimit.Limiter.Handle` | src/ratelimit.ts:54-93 | One request run alone: store, verdict and every header, without Redis, for either command failing, and otherwise |
| `RateLimit.ReplyAgrees` | src/ratelimit.ts:63-92 | Verdict and headers agree: refused exactly past the limit with no command failed, let through without headers if one failed, remaining is the limit less the count down to zero, and the retry time is there exactly on refusal |
| `RateLimit.HandlerIsSteps` | src/ratelimit.ts:54-93 | Run alone, that handler and its steps in the interleaved machine leave the same store and give the same verdict, for every fault |
| `Paths.PathForIsContained` | src/storage.ts:69-76 | For every normalised root other than `/` and every key, `pathFor` returns if and only if the key's resolved components extend the root's, and then returns exactly those |
| `Paths.PrefixIsExtension` | src/storage.ts:72 | The string test is component-wise proper extension, so a sibling sharing a name prefix is refused |
| `Paths.ResolveAfterJoin` | src/storage.ts:71 | `resolve(join(root, key))` is one left-to-right resolution of the key's components onto the root's |
| `Paths.NormalizeLoop` | src/storage.ts:71 | A normaliser that loops over the characters, pushing and popping components, computes the recursive resolution |
| `Paths.ResolvedIsSurviving` | src/storage.ts:71 | That resolution equals an independent right-to-left definition of which components survive |
| `Paths.SplitRender` | src/storage.ts:71 | Splitting a printed path gives its components back |
| `Paths.RootSlashRefusesFiles` | src/storage.ts:70-76 | With root `/`, exactly the keys that resolve to the root itself are accepted |
| `Keys.SanitizedShape` | src/files/upload.ts:111-121 | A display name has 1 to 255 characters, none control or reserved; the cleaned name holds a separator if and only if the submitted name had one after a line terminator, and the cut keeps exactly those among its first 255 characters, in place |
| `Keys.SeparatorSurvivesExactly` | src/files/upload.ts:111-121 | A display name holds a separator if and only if the submitted name has one past the stripping point before which fewer than 255 characters are kept |
| `Keys.PrintingLands` | src/files/upload.ts:111-120 | Every printing character past the stripping point is in the cleaned name, where it lands, an underscore in place of a reserved one |
| `Keys.CleanedComesFrom` | src/files/upload.ts:111-120 | And each character of the cleaned name is one of those of the submitted name |
| `Keys.SeparatorCanSurvive` | src/files/upload.ts:112 | A submitted name whose separator survives |
| `Keys.UploadKeyIsSweepable` | src/files/upload.ts:131-134 | For every submitted name the upload key is accepted and resolves exactly two components below the root, if lowering adds no `/` |
| `Keys.UploadKeyReads` | src/files/upload.ts:131-134 | The text of an upload key: identifier and at most ten characters of the lowered extension |
| `Keys.CsvOutputKeySweptExactly` | src/jobs/csv.ts:91-94 | For every submitted name the CSV output key is accepted two components below the root, where the sweep looks, if and only if resolving the name's leading components from the output directory ends one component below the root |
| `Keys.OutputSweptExactly` | src/jobs/csv.ts:91-94 | The same for a key of any base text |
| `Keys.CsvOutputKeyIsSweepable` | src/jobs/csv.ts:91-94 | In particular it lands in the output directory for every name without a separator after a line terminator |
| `Keys.ImageOutputKeyIsSweepable` | src/jobs/image.ts:78-81 | And every image output key |
| `Keys.CsvKeyReads` | src/jobs/csv.ts:91-94 | The text of a CSV output key: at most forty characters of the stem, suffix, eight of the identifier, extension |
| `Keys.ImageKeyReads` | src/jobs/image.ts:78-81 | The text of an image output key made of an upload key |
| `Keys.BrokenNameEscapesTheSweep` | src/jobs/csv.ts:91-94 | The surviving separator puts a CSV output three components deep |
| `Keys.TwoBelowRoot` | src/jobs/cleanup.ts:57-78 | A directory name and a plain name land where the sweep looks |
| `Storage.SaveAnswers` | src/storage.ts:78-94 | A save answers with key and size exactly if the key is accepted and the pipeline completes, refuses exactly the keys outside the root, and changes only its target |
| `Storage.LocalStorage.Save` | src/storage.ts:78-94 | The save follows that |
| `Storage.LocalStorage.Adopt` | src/storage.ts:118-137 | Rename, copy across devices, a copy that fails, and refusal |
| `Storage.LocalStorage.Delete` | src/storage.ts:147-149 | Removes the key's file if there is one |
| `Storage.ExistsTracksOperations` | src/storage.ts:78-162 | `exists` answers true after a write or an adoption, false after a delete, an error exactly where these refuse the key, and nothing else changes by a delete |
| `Storage.OperationsStayUnderRoot` | src/storage.ts:53-76 | No key makes a write, move or delete touch anything outside the root but the staged file |
| `Storage.AdoptMovesOneFile` | src/storage.ts:118-137 | Adoption moves exactly one file, keeping its size; if it fails the staged file remains and only the target may have changed |
| `Storage.SavedUntilExpiry` | src/files/repository.ts:49-77 | A saved record is read back until its expiry and not after; other ids are unaffected; a deleted one is gone |
| `Storage.LookupExactly` | src/files/repository.ts:65-73 | A lookup gives the record, nothing for an absent, expired or foreign entry, and fails exactly on text that is no JSON |
| `Sweep.Disk.CleanupOldFiles` | src/jobs/cleanup.ts:35-106 | For every tree, listing order and fault pattern: a file is gone if and only if it is regular, reachable, more than the given hours old by modification time, and its stat and rm work; nothing else changes; scanned, deleted and errors are the numbers of files reached, removed and failed, and the bytes freed are what the tree lost |
| `Sweep.Disk.SweepDirectory` | src/jobs/cleanup.ts:77-102 | The inner loop |
| `Sweep.Disk.SweepFile` | src/jobs/cleanup.ts:78-101 | One file |
| `Sweep.SweepRemovesExactly` | src/jobs/cleanup.ts:57-102 | Precisely the reachable regular files older than the cutoff whose stat and rm succeed are gone; everything else is unchanged |
| `Sweep.PlacesExactly` | src/jobs/cleanup.ts:57-78 | The places visited are those of listable directories, each once |
| `Sweep.CountsAddUp` | src/jobs/cleanup.ts:79-99 | scanned = deleted + errors + young + non-files |
| `Sweep.OrderDoesNotMatter` | src/jobs/cleanup.ts:49-105 | The counters, bytes included, do not depend on listing order |
| `Sweep.SecondSweepDeletesNothing` | src/jobs/cleanup.ts:89-99 | After a fault-free sweep a second one with the same cutoff deletes nothing and fails nowhere |
| `Retention.RetentionExactly` | src/files/repository.ts:49-56 | Every readable record's bytes exist with the recorded size in every run, if and only if retention is at least the record lifetime plus the largest gap from modification to record |
| `Retention.GoneAfterRetention` | src/jobs/cleanup.ts:47-95 | With fault-free sweeps at least every interval, no file at the sweep's depth outlives retention plus that interval |
| `Retention.Retained` | src/files/routes.ts:53-87 | Staging, unstaging, adoption, record saving, output writes, time, expiry and faulty sweeps all keep the retention invariant |
| `Retention.StorageSteps` | src/storage.ts:78-137 | The machine's staging, unstaging and output writes, when enabled, are the storage's calls |
| `Retention.AdoptStep` | src/files/routes.ts:53-59 | Its adoption is the storage's, the adopted size waiting for its record |
| `Retention.RecordSteps` | src/files/routes.ts:61-69 | Its record saving and expiry are the repository's |
| `Retention.SweptWhileRecorded` | src/config.ts:65 | With less retention, a run in which a readable record has lost its bytes |
| `RetentionSweep.CleanupSweepsTo` | src/jobs/cleanup.ts:57-102 | What the cleanup job leaves, leaf by leaf |
| `RetentionSweep.CleanupIsSweepStep` | src/jobs/cleanup.ts:57-102 | A sweep of the tree, whatever fails, is the timed machine's sweep step, and keeps nothing stale without faults |
| `RetentionSweep.CleanupCallIsSweepStep` | src/jobs/cleanup.ts:35-106 | The call with retention hours is the timed machine's sweep step when the machine's retention is those hours |
| `Signing.PrintRoundTrip` | src/files/signing.ts:39 | Printing an integer and parsing it gives it back; the text has no line break and no outer white space |
| `Signing.NumberOfPrint` | src/files/signing.ts:82 | A printed expiry reads back as the same number |
| `Signing.MessageIsInjective` | src/files/signing.ts:30-41 | Different keys or expiries never give the same message to sign, even for keys with line breaks |
| `Signing.MintedLinkVerifiesUntilExpiry` | src/files/signing.ts:43-104 | A minted link is accepted if and only if the later clock's second is at most the minting second plus the lifetime, and otherwise is expired |
| `Signing.VerifiesExactly` | src/files/signing.ts:71-104 | For any parameters, each answer exactly: missing unless both are given and not empty; accepted if the expiry reads as a finite number not before this second and the signature is the MAC of key, line break and that number; expired and invalid exactly otherwise |
| `Signing.NumberOfReads` | src/files/signing.ts:82 | White space around an integer does not matter, white space alone reads as zero, and what is no integer is the host's |
| `Signing.SignatureBinds` | src/files/signing.ts:71-104 | Under an injective MAC a signature is accepted if and only if the key is the signed one, the expiry text reads as the signed number and has not passed |
| `Text.TrimParts` | src/jobs/csv.ts:300 | `trim` cuts out a tight middle and removes white space only |
| `Text.TrimmedOnce` | src/jobs/csv.ts:300 | There is one text without the white space at its ends, and `trim` gives it |
| `Text.TrimIdempotent` | src/jobs/csv.ts:300 | Trimming twice is trimming once |

## Left out

- The queue's own machinery: retry unless unrecoverable or out of attempts, and commit after the handler leaves, are taken as given. Worker crashes, stalled jobs, lost locks and removal of settled jobs from the queue are not modelled.
- `result`, `error` and `operation` in events ride along unread; agreement is about the state, not about the possibly stale return value in a snapshot.
- One API process, hence one subscriber connection; further processes share only the publishes and are copies of it. The subscribe and unsubscribe of different watchers may take effect in any order, which covers the client library's first-in-first-out order.
- A client that hangs up before its close listener is registered (between src/jobs/sse.ts:66 and src/jobs/sse.ts:108) is not observed by the code nor by the model; a failing subscribe leaves the handler there.
- Progress.DescendsExactly: an update may be heard after its attempt has failed, until the next attempt starts; one heard later than that, or after the success it precedes on the same connection, is not a move, and values are at most 100 as the processors report; the protocol machine lets updates come at any time with any value.
- Framing.StreamRoundTrip: the parser works on decoded characters; UTF-8 decoding, the `event`, `id` and `retry` fields and the reconnection timer are not modelled.
- Browser.DisplayAgreesWithQueue: the mount and unmount timing of React and the network failures of EventSource appear only as inputs in any order.
- CSV parsing and printing: rows come in as arrays or as records with the header's keys and go out as records. The header line the stringifier prints from the requested columns, the reordering of integer-like names and a column named `__proto__` are not modelled, nor are progress calls; the row limit (5,000,000 in the source) is a parameter.
- CsvTransform.Fusion: the second pass's columns lie within what the first resolved, and rows stay within the limit.
- RateLimit.FirstLimitAdmitted: speaks of INCRs executed within their computed window; `CountRestartsExactly` covers the others.
- RateLimit.AtMostTwiceTheLimit: requests let through because Redis failed are kept apart, by verdict.
- Rate limiting: window arithmetic is exact division; rounding of the floating-point quotient, and the mounting of several limiters on one path, are not modelled.
- Strings are sequences of code points; lengths in the source count UTF-16 units. `toLowerCase` is a parameter that must not make `/` out of text without one.
- Keys.UploadKeyIsSweepable: freshness of UUIDs is not needed there; `Retention` states it as the new key's target being unclaimed.
- Directories themselves (creation, `exists` or `rm` of one, a write to the root's own path), `open` and `size`, permissions and other operating-system errors beyond an operation failing.
- Writers working on the tree during a sweep: the timed machine's sweep is one step.
- Retention.RetentionExactly: the gap premise is part of the machine, a saving that comes later than the gap is not a step of it, nor is adopting a file already older than the gap.
- Signing.SignatureBinds: number syntax other than safe integers is a parameter (`exotic`); strength of HMAC and timing of the comparison are not functional properties, the MAC is any injective function giving non-empty text.
- Image processing, upload middleware, MIME tables, configuration parsing, logging, metrics text, health checks, routing and the user interface.
