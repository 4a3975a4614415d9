# Verified model of the Prosto metrics agent

The agent runs on a host, collects readings from the services there and hands them
to a metrics client. Most of it is input and output. This project models the
algorithms that are left when the input and output are taken away, and proves what
they promise.

* **The nginx access-log engine.** A bounded sample of response times
  (`Reservoir.dfy`), a reader that follows a log file across growth, truncation and
  rotation (`LogLines.dfy`, `LogTail.dfy`, `LogRuns.dfy`, `LogDelivery.dfy`),
  the reduction of requests to rows of ranked lists (`Items.dfy`, `Paths.dfy`,
  `Referrers.dfy`, `Rows.dfy`), the tick that ties them together (`AccessLog.dfy`)
  and the independence of its two samples (`SamplePairs.dfy`).
* **Two concurrent protocols.** The runner that schedules, cancels and closes
  collectors (`Runner.dfy`) and the Docker worker pool (`DockerPool.dfy`) are state
  machines; a run is any sequence of steps, so what is proved holds of every
  interleaving.
* **Parsers.** The Prometheus text format (`PromLabels.dfy`, `Exposition.dfy`), the
  Redis wire protocol (`Resp.dfy`, `Numbers.dfy`), environment files
  (`EnvFiles.dfy`) and the labels of command output (`ExecLabels.dfy`). Each is put
  against an independent writer and shown to undo it, or to fail to undo it exactly
  when a stated condition on the text holds.
* **Views kept across rounds.** What a reader of the last published values sees for
  RabbitMQ queues (`QueueViews.dfy`) and failed systemd units (`UnitViews.dfy`), and
  the limiter of log entries (`LogLimiter.dfy`).

`Text.dfy` defines the operations of Go's `strings` package that the agent uses and
`Wrappers.dfy` the usual option and result types. A string is a sequence of bytes.

What the source updates in place is a class here, its loops are loops, and each
such method is proved equal to a function of the old state, its inputs and the
answers of the outside world. The theorems are about those functions. Where an outcome is
not determined by the program (the order in which a map is walked, the random
numbers drawn, the outcome of a sort with ties, the answers of system calls) it is a
parameter, and the theorems hold for all its values.

`dafny verify dfyconfig.toml` checks everything.

## What the code does not do

Some things one might expect, or that comments in the source suggest, are false of
the code. For each a lemma shows it at an input, and the exact condition under which
it holds is proved beside it.

* A poll that stops between a carriage return and its newline leaves the return at
  the end of the reported line (`LogLines.SplitEndingShown`), and a beginning of a line
  over 64 KiB is dropped and its end reported as a line (`LogLines.LongFragmentShown`).
  Exactly then do the polls report other lines than one cut would
  (`LogLines.ChunkingExact`, `LogLines.LinesKeptExactly`).
* A failed stat of the log's path, or an earlier failure that closed the file, followed
  by calls that work, delivers lines again (`LogDeliveries.ReplayShown`,
  `LogDeliveries.ClosedReplayShown`). `LogRuns.ReplaysExactly` says exactly when, for a
  file still under its name, and `LogRuns.RedeliversExactly` for any reader and file.
* A truncation that the file outgrows before the next poll is not seen
  (`LogDeliveries.TruncationUnseen`); a poll starts afresh exactly when it reopens, or
  finds the file shorter than the offset (`LogRuns.SessionsStarted`).
* Reading that starts inside a line, at the first open or after the catch-up jump,
  reports the end of that line as a line (`LogLines.MidLineShown`,
  `LogLines.WholeLinesExactly`). What a session reports completes the lines of its file
  exactly when it neither starts so nor drops a beginning
  (`LogDeliveries.SessionCompletesLines`).
* A bar, a carriage return or a newline in a label value is replaced, and white space
  at its ends is lost (`PromLabels.HarmedByBar`, `PromLabels.HarmedByNewline`); other
  values come back (`PromLabels.LabelsReturnExactly`).
* A closing brace inside a quoted label value ends the label set
  (`Exposition.BraceEndsExactly`). The sample is lost (`Exposition.BraceLosesSample`) or
  published with a number from inside that value (`Exposition.BraceTakesNumber`),
  according to the first word after the brace (`Exposition.BracedSampleExactly`).
* A family whose own name ends in `_sum`, `_count` or `_bucket` is looked up under the
  name without it, and loses its kind (`Exposition.SumLosesKind`) or is dropped as
  another family's bucket (`Exposition.GaugeDropped`); it keeps its kind exactly when
  both names are declared alike (`Exposition.KindFoundExactly`).
* Reducing a row's path again can change it: "/a//" becomes "/a/" and then "/a"
  (`Paths.DoubledSlashShown`), and clamping can cut a segment down to an identifier
  (`Paths.ClampedIdentifierShown`). `Paths.FixedPointByTarget` says for every target
  when it does not.
* Reducing a site again can change it too (`Referrers.DoubledWwwShown`,
  `Referrers.SiteAgainExactly`).
* A bulk reply over the size limit is refused without being consumed, and its payload
  is then read as the next reply (`Resp.RefusedPayloadIsNextReply`,
  `Resp.LeftAtNextExactly`).
* A value written without quotes in an environment file loses white space at its ends
  and a pair of quotes of its own; exactly the others come back
  (`EnvFiles.BareReturnsExactly`).
* Two configured labels that agree up to an equals sign are both published while
  the command prints no label of its own, and a configured name starting with
  `workload=` publishes the reserved name (`ExecLabels.CollisionsArePublished`,
  `ExecLabels.DistinctExactly`, `ExecLabels.ReservedExactly`).
* The consumer count of a queue that leaves the list stays as it was
  (`QueueViews.ConsumersLinger`, `QueueViews.ConsumersAgreeExactly`).

The "empty key" error of environment files cannot occur at all (`EnvFiles.KeysRead`).

## Model

| member | source | states |
|---|---|---|
| Reservoirs.Reservoir.Offer | internal/collectors/nginx/accesslog.go:193-202 | one value more: the sample stays that of the values offered and the numbers drawn, and a number is drawn only once the sample is full, bounded by what this reservoir was offered |
| Reservoirs.Rand.Intn | internal/collectors/nginx/accesslog.go:199 | a random source is the list of numbers it will answer, each below its bound |
| Reservoirs.KeptExtends | internal/collectors/nginx/accesslog.go:194-201 | appending below the limit and swapping in above it is what the surviving positions of a longer tape give |
| Reservoirs.SampleDistinct | internal/collectors/nginx/accesslog.go:193-202 | no position is ever held twice |
| Reservoirs.TapesExact | internal/collectors/nginx/accesslog.go:199 | the set of tapes that is counted holds every possible list of draws and nothing else |
| Reservoirs.TapeCount | internal/collectors/nginx/accesslog.go:193-202 | there are (k+1)...(k+m) tapes of m draws |
| Reservoirs.RisingIsQuotient | internal/collectors/nginx/accesslog.go:193-202 | that number is n!/k! for n = k+m offers |
| Reservoirs.UniformSubsets | internal/collectors/nginx/accesslog.go:175-202 | each k-subset of the n offered positions is the final sample for exactly (n-k)! tapes: the sample is exactly uniform |
| Reservoirs.EqualSurvival | internal/collectors/nginx/accesslog.go:175-202 | each offered position survives in exactly k/n of the tapes |
| LogLines.FeedAgrees | internal/collectors/nginx/accesslog.go:396-417 | the lines of one poll with the carried fragment are those of one cut at newlines, up to the carriage returns that end them, and so is the new fragment |
| LogLines.ChunkingIndependent | internal/collectors/nginx/accesslog.go:396-419 | wherever the polls stopped, all their lines and the last fragment are those of one cut of all the bytes, while no fragment outgrew its limit |
| LogLines.LinesKeptExactly | internal/collectors/nginx/accesslog.go:396-419 | with fragments of any size: up to trailing carriage returns all the polls' lines are those of one cut if and only if none dropped the beginning of a line that later ended |
| LogLines.LinesCompletedExactly | internal/collectors/nginx/accesslog.go:389-419 | they complete the lines of what came before if and only if, besides, they did not start inside a line |
| LogLines.ChunkingExact | internal/collectors/nginx/accesslog.go:396-419 | byte for byte the polls' lines are those of one cut if and only if none dropped such a beginning and none stopped between a carriage return and its newline |
| LogLines.LongFragmentShown | internal/collectors/nginx/accesslog.go:402-408 | of a line that begins with one byte over the limit in one poll only the end is reported |
| LogLines.SplitEndingShown | internal/collectors/nginx/accesslog.go:411 | two polls of "a", a carriage return and a newline report a line that one cut does not have |
| LogLines.WholeLinesExactly | internal/collectors/nginx/accesslog.go:389-417 | bytes from the middle of a file are cut into whole lines of the file if and only if they start at the start of a line or end no line |
| LogTails.LogTail.constructor | internal/collectors/nginx/accesslog.go:357 | a new reader has opened nothing |
| LogTails.LogTail.Close | internal/collectors/nginx/accesslog.go:359-366 | closing forgets the file and keeps its identity and offset |
| LogTails.LogTail.Rotated | internal/collectors/nginx/accesslog.go:456-463 | rotation is a change of device or inode, and a failed stat is an error |
| LogTails.LogTail.EnsureOpen | internal/collectors/nginx/accesslog.go:425-454 | kept, reopened at zero, first opened at the end, or left closed: the whole new state |
| LogTails.LogTail.ReadNewLines | internal/collectors/nginx/accesslog.go:368-420 | the poll's new state and lines, with its error paths, the shrink check, the catch-up jump and the fragment limit |
| LogTails.FailsExactly | internal/collectors/nginx/accesslog.go:368-394 | a poll fails if and only if it leaves no file open |
| LogRuns.PollIsReader | internal/collectors/nginx/accesslog.go:368-454 | the staged poll of the world model is the reader's own poll: same state, same lines, same failures |
| LogRuns.RunKeeps | internal/collectors/nginx/accesslog.go:368-454 | over every run of appends, truncations, renames, losses and polls with failing calls: each read starts where its session's last one stopped, only the catch-up jump skips, and the carried fragment is the one the last read left |
| LogRuns.SessionRangesIncrease | internal/collectors/nginx/accesslog.go:377-417 | within a session the byte ranges read are disjoint and increasing |
| LogRuns.SessionLines | internal/collectors/nginx/accesslog.go:392-419 | in any run at all, the lines of reads that follow on from a session's start or a catch-up jump are those of one cut of their bytes if and only if they dropped the beginning of none; `LogDeliveries.SessionFileLines` ties the bytes to the file |
| LogRuns.StretchBegins | internal/collectors/nginx/accesslog.go:377-388 | such reads can begin at every session's start and after every jump, where no fragment is carried |
| LogRuns.GrowingFile | internal/collectors/nginx/accesslog.go:368-420 | while one file only grows, the polls report one cut of exactly the bytes between where the reader stood and where it stands, if and only if they dropped the beginning of no line |
| LogRuns.RotationReadsFromStart | internal/collectors/nginx/accesslog.go:425-454 | once the name is another file's, the next poll opens that file and reads it from byte 0, or as far back as the catch-up limit reaches, with no fragment carried over |
| LogRuns.SessionsStarted | internal/collectors/nginx/accesslog.go:377-381 | exactly which polls start afresh: those that reopen, and those that find the file shorter than the offset |
| LogRuns.NoReplay | internal/collectors/nginx/accesslog.go:422-454 | a file that was never reopened and never seen to shrink has no byte delivered twice |
| LogRuns.ReplaysExactly | internal/collectors/nginx/accesslog.go:368-452 | a poll of a file still under its name, open or closed by an earlier failure, delivers consumed bytes again if and only if it was closed or the stat of the path fails, the other calls work, the read starts behind the offset and gets past that start |
| LogRuns.PollReadsExactly | internal/collectors/nginx/accesslog.go:368-420 | from any reachable state and with any failing calls: which file a poll reads, from where to where, and when it reads nothing |
| LogRuns.PollLeavesExactly | internal/collectors/nginx/accesslog.go:368-454 | and which file it leaves open, if any, and where it stands in it |
| LogRuns.RedeliversExactly | internal/collectors/nginx/accesslog.go:368-454 | and it delivers bytes of a file a second time if and only if it gets to read and the span from where it stands to where it stops holds some delivered before |
| LogLines.MidLineShown | internal/collectors/nginx/accesslog.go:385-388 | starting inside a line reports the rest of it as a line |
| LogDeliveries.PollReadsFile | internal/collectors/nginx/accesslog.go:389-417 | after any history and with any failing calls, what a poll reads is its file's bytes between the two positions recorded |
| LogDeliveries.RunReadsFiles | internal/collectors/nginx/accesslog.go:368-420 | in every run without truncation, all that was ever read is what the files hold at the end |
| LogDeliveries.SessionFileLines | internal/collectors/nginx/accesslog.go:368-420 | after every run without truncation, such reads have reported the lines of one cut of the span of their file if and only if they dropped the beginning of none |
| LogDeliveries.SessionCompletesLines | internal/collectors/nginx/accesslog.go:368-447 | and with the lines of the file before that span they make up the lines of the file up to its end if and only if, besides, the span does not start inside a line that it ends |
| LogDeliveries.WholeLinesDelivered | internal/collectors/nginx/accesslog.go:385-447 | one cut of any span of a file gives whole lines of the file, byte for byte, if and only if the span starts at the start of a line or ends none |
| LogDeliveries.RotationDelivers | internal/collectors/nginx/accesslog.go:347-454 | over any growth, a rotation and any further growth, the lines reported are those of the old file up to the last poll's offset followed by those of the new file from byte 0, if and only if no poll dropped the beginning of a line |
| LogDeliveries.RotationShown | internal/collectors/nginx/accesslog.go:425-454 | a concrete rotation meets all that theorem asks: the old line is reported, then the new one |
| LogDeliveries.OrderlyRunDeliversOnce | internal/collectors/nginx/accesslog.go:347-454 | with fresh identities at each rotation, no truncation and no failing call, what is delivered is bytes of the files, none of them twice and each file's in order |
| LogDeliveries.WatchedReached | internal/collectors/nginx/accesslog.go:368-454 | a reader that opened an empty log has read its first line |
| LogDeliveries.ReplayShown | internal/collectors/nginx/accesslog.go:456-459 | one failed stat, and it reports that line again |
| LogDeliveries.ClosedReplayShown | internal/collectors/nginx/accesslog.go:371-376 | one failed stat of the open file, and the next poll, with every call working, reports the line again |
| LogDeliveries.TruncationUnseen | internal/collectors/nginx/accesslog.go:377-384 | truncated and regrown between two polls, the file loses a line and no session starts |
| Items.ClampItem | internal/collectors/nginx/toplists.go:343-363 | the loops compute the clamp |
| Items.CutPoints | internal/collectors/nginx/toplists.go:353-359 | valid UTF-8 can be cut exactly where a character starts |
| Items.StartNearby | internal/collectors/nginx/toplists.go:353-359 | there is such a place among any four neighbouring bytes |
| Items.ClampIsSafe | internal/collectors/nginx/toplists.go:339-363 | any bytes come out as a control-free valid UTF-8 prefix of themselves of at most 256 bytes, possibly empty |
| Items.ClampIsLongest | internal/collectors/nginx/toplists.go:339-363 | of valid control-free text the longest such prefix survives: all of it, or at least 253 bytes |
| Items.ClampFixes | internal/collectors/nginx/toplists.go:343-363 | an item is unchanged if and only if it is acceptable, and clamping twice is clamping once |
| Paths.IsAllDigits | internal/collectors/nginx/toplists.go:298-305 | true of non-empty digit strings only |
| Paths.IsAllHex | internal/collectors/nginx/toplists.go:311-318 | true of non-empty hex strings only |
| Paths.IsDashedUUID | internal/collectors/nginx/toplists.go:320-337 | true of 36 bytes with dashes at four places and hex elsewhere, and of nothing else |
| Paths.IsIdentifierSegment | internal/collectors/nginx/toplists.go:283-296 | a number, a dashed UUID or at least 16 hex digits, and nothing else |
| Paths.IdentifierExactly | internal/collectors/nginx/toplists.go:276-337 | those shapes written out: ten digits, five groups of hex digits with dashes between, or 16 hex digits and more |
| Paths.NormalizePath | internal/collectors/nginx/toplists.go:190-223 | the statements compute the reduction |
| Paths.RowShape | internal/collectors/nginx/toplists.go:190-223 | every row is empty, or starts with a slash, holds no query or fragment and is acceptable as an item |
| Paths.RowOfSegments | internal/collectors/nginx/toplists.go:190-223 | the row of every rooted target, whatever its query: the same segments with ":id" for each that names a record, without a last empty one, clamped |
| Paths.OrdersShown | internal/collectors/nginx/toplists.go:185-189 | "/orders/" and any number are the row "/orders/:id" |
| Paths.WholeTarget | internal/collectors/nginx/toplists.go:194-207 | a target that names the whole URL has the row of its path, whatever scheme and host, and none if it has no path, even if its query has slashes |
| Paths.NoTarget | internal/collectors/nginx/toplists.go:198-201 | any other target that does not start with a slash has no row |
| Paths.CollapsedHasNone | internal/collectors/nginx/toplists.go:209-215 | before clamping no segment of a row identifies a record, and a path without identifiers is not changed |
| Paths.SameRowForEveryRecord | internal/collectors/nginx/toplists.go:185-223 | replacing an identifier segment by any other, anywhere in any rooted target, gives the same row |
| Paths.FixedPointExactly | internal/collectors/nginx/toplists.go:190-223 | reducing a row again changes nothing if and only if no segment of it is an identifier and it does not end in a slash |
| Paths.FixedPointUnclamped | internal/collectors/nginx/toplists.go:217-222 | unless clamping shortened it, a row is its own row if and only if the collapsed path did not end in doubled slashes |
| Paths.FixedPointByTarget | internal/collectors/nginx/toplists.go:190-223 | for every target: a row clamping left alone is its own row if and only if the path did not end in doubled slashes, one that it cut if and only if the segment it cut is not left an identifier and the row does not end in a slash |
| Paths.DoubledSlashShown | internal/collectors/nginx/toplists.go:217-221 | "/a//" becomes "/a/", which becomes "/a" |
| Paths.ClampedIdentifierShown | internal/collectors/nginx/toplists.go:210-222 | a segment of 255 ones and an x is clamped to a number, which then collapses |
| Referrers.HostOf | internal/collectors/nginx/toplists.go:230-249 | the statements find the host |
| Referrers.ReferrerSite | internal/collectors/nginx/toplists.go:229-263 | the statements compute the site |
| Referrers.SameSite | internal/collectors/nginx/toplists.go:225-263 | scheme or slashes, credentials, `www.`, letter case, a final dot, a port, a path, query or fragment: every way of writing an ASCII host name or a bracketed literal reduces to it in lower case |
| Referrers.NoneNamed | internal/collectors/nginx/toplists.go:229-261 | "-" and a path alone name no site |
| Referrers.SiteAgainExactly | internal/collectors/nginx/toplists.go:229-263 | reducing a site again changes nothing if and only if it has no final dot, no leading `www.`, and no port or text after its bracket |
| Referrers.DoubledWwwShown | internal/collectors/nginx/toplists.go:251 | of two leading `www.` one goes at a time |
| Rows.OwnSiteNeverRefers | internal/collectors/nginx/toplists.go:57-70 | however the site host is configured and however a referrer names it, the site gets no referral from itself |
| Rows.OtherSitesRefer | internal/collectors/nginx/toplists.go:62-68 | any other site is credited, on pages and not on files |
| Rows.WhatIsListed | internal/collectors/nginx/toplists.go:57-73 | the page row is the path unless that is a file; a failure is listed if and only if the status is 400 or more, not 401, 403 or 499, and not 404 of a page; a referrer only with a page |
| Rows.AssetExactly | internal/collectors/nginx/toplists.go:122-140 | a path is a file if and only if it starts with one of the listed directories or its last segment ends in a listed extension, in any letter case |
| Rows.StatusesSeparate | internal/collectors/nginx/toplists.go:158-173 | one page failing two ways is two rows |
| Rows.StatusLeads | internal/collectors/nginx/toplists.go:158-173 | clamping never cuts into the status that leads a failing row |
| Numbers.ThreeDigits | internal/collectors/nginx/toplists.go:172 | a status is written as three digits |
| AccessLog.AccessLogCollector.constructor | internal/collectors/nginx/accesslog.go:82-99 | the default sample size, and the site host reduced like a referrer |
| AccessLog.AccessLogCollector.OfferTimes | internal/collectors/nginx/accesslog.go:140-145 | both reservoirs draw from one source, in the order of the lines, each counting only what it was offered |
| AccessLog.AccessLogCollector.Tally | internal/collectors/nginx/accesslog.go:113-146 | the pass over the lines: counts by class, both samples, and the first rows if the lists are on |
| AccessLog.AccessLogCollector.Collect | internal/collectors/nginx/accesslog.go:107-173 | one tick: events are those that are always on, followed with the lists on by the rows of the first 5000 entries; on a failed poll there are none; what they are is said by the next three rows |
| AccessLog.TickPublishesTimes | internal/collectors/nginx/accesslog.go:159-164 | of a tick's events the request times are exactly 1000 times each kept request time and the upstream times 1000 times each kept upstream time, in order |
| AccessLog.TickPublishesRows | internal/collectors/nginx/toplists.go:75-93 | and each of nginx.pages, nginx.error_pages and nginx.referrers gets, of each of the first 5000 requests with an address and a row in that list, that row and its visitor, in order, and nothing else is ranked |
| AccessLog.ClassesReported | internal/collectors/nginx/accesslog.go:150-157 | each class that occurs is reported once, with the number of entries of that class, and no other is |
| AccessLog.ParsedConcat | internal/collectors/nginx/accesslog.go:129-133 | the entries are those of the lines that parse, in order |
| AccessLog.EmitCounts | internal/collectors/nginx/accesslog.go:152-159 | one event for each class that occurred, with its count |
| AccessLog.EmitRows | internal/collectors/nginx/toplists.go:75-93 | the rows of each entry in order, none without an address |
| AccessLog.TapesFit | internal/collectors/nginx/accesslog.go:113-146 | whatever the source answers, each reservoir of a tick is filled by a tape of its own |
| AccessLog.SharedSource | internal/collectors/nginx/accesslog.go:113-146 | sharing one source does not tie the two samples together: every pair of tapes is given by some answers |
| AccessLog.AnswersUnique | internal/collectors/nginx/accesslog.go:113-146 | and by different answers for different pairs |
| SamplePairs.MergedAnswers | internal/collectors/nginx/accesslog.go:113-146 | those answers are within the bounds the source was given, in their order |
| SamplePairs.AnswersMerged | internal/collectors/nginx/accesslog.go:113-146 | every sequence of answers within bounds is that of the pair of tapes it gives |
| SamplePairs.LeavingExactly | internal/collectors/nginx/accesslog.go:113-146 | the sequences counted are exactly those that leave the named positions in the two samples |
| SamplePairs.SequencesSize | internal/collectors/nginx/accesslog.go:113-146 | sets of tapes for the two samples combine into as many answer sequences as their product |
| SamplePairs.PairsUniform | internal/collectors/nginx/accesslog.go:113-146 | of two full samples each pair of subsets is left by exactly (n1-k)!(n2-k)! answer sequences: they are independent and uniform though they share a source |
| AccessLog.CountsAddUp | internal/collectors/nginx/accesslog.go:133-159 | the published class counts add up to the number of lines that parsed |
| DockerPool.StepKeeps | internal/collectors/docker/cpu.go:66-106 | every step of sender, workers and pruning keeps the pool's invariant |
| DockerPool.RunKeeps | internal/collectors/docker/cpu.go:66-106 | so does every interleaving |
| DockerPool.PoolRefinesLoop | internal/collectors/docker/cpu.go:66-114 | every finished run leaves the map a plain loop over a prefix of the containers leaves, restricted to the running ones; the prefix is everything unless cancelled; each container went to one worker and was compared with last round's reading |
| DockerPool.RoundRemembers | internal/collectors/docker/cpu.go:76-106 | after every finished run no reading of a container that is not running is left, and each running one has its new reading if it was handed out and has an ID, a name and two counters above zero, and otherwise the one it had |
| DockerPool.LoopStores | internal/collectors/docker/cpu.go:315-339 | the plain loop stores each container's reading, if it has one, and nothing else |
| DockerPool.NeverStuck | internal/collectors/docker/cpu.go:76-106 | no reachable state waits for the deadline: some step of the sender, a worker or the end is possible |
| DockerPool.RoundsEnd | internal/collectors/docker/cpu.go:76-114 | no round takes more than 2n + w + 2 steps for n containers and w workers |
| DockerPool.RoundsFinish | internal/collectors/docker/cpu.go:76-109 | and every outcome occurs: everything handed out and finished without the deadline, or an end short of any container because it passed |
| Runner.TimeoutIsLargest | internal/agent/runner.go:140-157 | a collection gets the largest deadline that exceeds neither what was asked (or the default), nor the collector's interval, nor the cap |
| Runner.StepKeeps | internal/agent/runner.go:74-138 | every step keeps the runner's invariant |
| Runner.RunKeeps | internal/agent/runner.go:74-138 | slots held are goroutines inside a collection, in every reachable state |
| Runner.Bounded | internal/agent/runner.go:116-124 | at most MaxConcurrency collections at once and one of each collector, panics included |
| Runner.AttemptsBalance | internal/agent/runner.go:92-138 | over every run: the ticks of a collector, and its start if that came before the signal, are as many as the slots it got, the attempts it gave up and the one it may be waiting in; and each slot is one collection, in progress or come to one end, and given back once |
| Runner.CanCollect | internal/agent/runner.go:105-138 | from every state before the signal each collector can be collected once more without any step of the signal |
| Runner.ClosesInOrder | internal/agent/runner.go:87-90 | no Close before every goroutine has ended, none twice, and after the stop every closer closed |
| Runner.EachStepHelps | internal/agent/runner.go:92-114 | apart from the ticker and the signal, each step brings the end nearer |
| Runner.NextStep | internal/agent/runner.go:87-114 | after the signal such a step is always possible until the runner has stopped |
| Runner.CanStop | internal/agent/runner.go:87-138 | from every state after the signal a full stop can be reached |
| Runner.CanBeStopped | internal/agent/runner.go:87-138 | as the signal can come at any time, so can it from every reachable state |
| Runner.MustStop | internal/agent/runner.go:87-138 | without further ticks no run after the signal is longer than a fixed measure of its state |
| LogLimiters.LogLimiter.Allow | internal/agent/runner.go:234-245 | the verdict and the new memory |
| LogLimiters.AllowAll | internal/agent/runner.go:234-245 | a run of calls is a run of the model |
| LogLimiters.Spaced | internal/agent/runner.go:221-245 | entries that pass under one key are at least the interval apart, even if attempts do not come in clock order |
| LogLimiters.HeldBack | internal/agent/runner.go:239-244 | an entry is held back if and only if one of its key passed less than the interval before |
| LogLimiters.RateBound | internal/agent/runner.go:221-245 | in any span of clock time at most span/interval + 1 entries of a key pass |
| LogLimiters.KeysIndependent | internal/agent/runner.go:239-244 | a verdict is what it would be had its key been the only one |
| PromLabels.ParseLabels | internal/collectors/prom/parse.go:105-157 | the scan with its flags computes the label set |
| PromLabels.AlwaysSendable | internal/collectors/prom/parse.go:112-136 | of any bytes at most eight labels are kept, each with an allowed usable name and a harmless non-empty value |
| PromLabels.LabelsRoundTrip | internal/collectors/prom/parse.go:105-167 | labels rendered with an exporter's escapes come back as the first eight allowed ones in order, each with what its value becomes, whatever bytes the values hold |
| PromLabels.SegmentsRoundTrip | internal/collectors/prom/parse.go:105-167 | the same with white space around names, equals signs and values, and with anything between two commas that is no label, such as the empty text after a trailing comma |
| PromLabels.LabelsReturnExactly | internal/collectors/prom/parse.go:105-167 | up to eight allowed labels come back exactly as written if and only if each value is non-empty, has no white space at its ends and holds no bar, carriage return or newline |
| PromLabels.UnquotedExactly | internal/collectors/prom/parse.go:159-162 | quotes are taken off a value only as a pair, one at each end |
| PromLabels.HarmedByBar | internal/collectors/prom/parse.go:163-166 | a bar comes back as an underscore |
| PromLabels.HarmedByNewline | internal/collectors/prom/parse.go:139-145 | an escaped newline comes back as the letter n |
| PromLabels.HarmedByReturn | internal/collectors/prom/parse.go:163-166 | a carriage return comes back as a blank |
| PromLabels.CleanFree | internal/collectors/prom/parse.go:159-167 | what is unquoted holds none of the bytes ingest refuses |
| Exposition.ParseSampleLine | internal/collectors/prom/parse.go:72-100 | the statements read one sample line |
| Exposition.ParseExposition | internal/collectors/prom/parse.go:26-60 | the loop reads the document, or fails on a line the scanner cannot hold |
| Exposition.FamilyOfPoint | internal/collectors/prom/parse.go:63-70 | a series made from a family's name by adding a suffix belongs to that family |
| Exposition.FamilyKeepsName | internal/collectors/prom/parse.go:63-70 | a name is its own family if and only if it has none of the three suffixes |
| Exposition.KindFoundExactly | internal/collectors/prom/parse.go:46-70 | whatever else is declared, a declared kind is found under the declared name if and only if it has none of the three suffixes or the name without its suffix is declared alike |
| Exposition.SumLosesKind | internal/collectors/prom/parse.go:50 | a counter called x_sum loses its kind |
| Exposition.GaugeDropped | internal/collectors/prom/parse.go:46-54 | a gauge called x_bucket beside a histogram called x is dropped |
| Exposition.BraceEndsSet | internal/collectors/prom/parse.go:80-87 | the label set ends at the first closing brace, quoted or not |
| Exposition.BraceEndsExactly | internal/collectors/prom/parse.go:80-87 | a label set comes back from its line if and only if it holds no closing brace |
| Exposition.BracedSampleExactly | internal/collectors/prom/parse.go:72-100 | a line with a brace in its label set is lost if and only if the first word after that brace is no number, and is otherwise published with that number and the labels before the brace |
| Exposition.BraceTakesNumber | internal/collectors/prom/parse.go:80-96 | a sample is published with the number 5 that stood inside its label value |
| Exposition.BraceLineWritten | internal/collectors/prom/parse.go:72-100 | the next row's line is what a sample with one label of value } renders to |
| Exposition.BraceLosesSample | internal/collectors/prom/parse.go:72-100 | a sample whose one label value is a closing brace is lost |
| Exposition.PointTaken | internal/collectors/prom/parse.go:46-54 | one rendered point is taken with the kind its family was last declared with, or none, or dropped as a bucket of a histogram |
| Exposition.ExpositionRoundTrip | internal/collectors/prom/parse.go:21-60 | a document of samples, TYPE lines, comments, gaps and lines that are no samples comes back as those samples in order, each with the kind last declared for its family or none, less exactly the buckets of declared histograms |
| Exposition.DocumentShown | internal/collectors/prom/parse.go:26-60 | "# TYPE m counter" and "m 1" are one counter m |
| Exposition.RefusedExactly | internal/collectors/prom/parse.go:27-58 | a document is refused if and only if a line has a megabyte or more |
| Resp.Reader.ReadLine | internal/collectors/redis/resp.go:148-151 | a line is read across any fragmentation |
| Resp.Reader.Read | internal/collectors/redis/resp.go:188 | a read yields some of what is next, in order |
| Resp.ReadFull | internal/collectors/redis/resp.go:185-195 | exactly the bytes asked for, or an error with everything consumed |
| Resp.ReadReply | internal/collectors/redis/resp.go:147-183 | the reply and the remaining stream depend on the bytes alone, not on how they were cut up |
| Resp.ReplyReceived | internal/collectors/redis/resp.go:147-183 | every reply a server writes is read as it was meant and the stream is left at the next one, but for a payload over the limit, which is refused and left in the stream |
| Resp.PartFails | internal/collectors/redis/resp.go:147-195 | a stream that ends anywhere inside a reply gives none and is consumed, but for a payload refused for its size |
| Resp.LineRefused | internal/collectors/redis/resp.go:152-182 | an empty line, an unknown kind and a length that is no number are each an error of their own, and only the line is consumed |
| Resp.LeftAtNextExactly | internal/collectors/redis/resp.go:172-174 | the stream is left at the next reply if and only if no payload exceeded the limit |
| Resp.RefusedPayloadIsNextReply | internal/collectors/redis/resp.go:172-181 | after a payload of one byte too many, that payload is read as the next reply |
| Resp.BulkReceived | internal/collectors/redis/resp.go:164-179 | a payload may hold anything, line ends included |
| Resp.ReadReplies | internal/collectors/redis/resp.go:147-183 | reading reply after reply |
| Resp.RepliesInOrder | internal/collectors/redis/resp.go:147-183 | whole sequences of replies are read in order |
| Resp.Conn.Command | internal/collectors/redis/resp.go:130-145 | exactly one request is written, and one reply is consumed |
| Resp.RequestRoundTrip | internal/collectors/redis/resp.go:136-140 | an independent server-side decoder recovers exactly the arguments, whatever bytes they hold |
| Numbers.AtoiItoa | internal/collectors/redis/resp.go:138 | a length written in decimal is read back, up to 64 bits |
| Numbers.AtoiSigned | internal/collectors/redis/resp.go:165 | signs are read, down to the least 64-bit number |
| Numbers.AtoiRefuses | internal/collectors/redis/resp.go:165-168 | anything but digits after the sign is refused |
| QueueViews.QueueBreakdown.Publish | internal/collectors/rabbitmq/collector.go:160-206 | one round: the events, the remembered names, and nothing at all when the listing failed |
| QueueViews.TopIsDeepest | internal/collectors/rabbitmq/collector.go:167-172 | no queue left out is deeper than one shown |
| QueueViews.TopSize | internal/collectors/rabbitmq/collector.go:170-172 | twenty queues of the listing are shown, or all if there are fewer |
| QueueViews.ViewIsLastListing | internal/collectors/rabbitmq/collector.go:160-206 | after any run of rounds the last depth published for a queue is its depth in the last successful listing's top, and zero if it is not there |
| QueueViews.DepthOfDistinct | internal/collectors/rabbitmq/collector.go:175-189 | when names are distinct after trimming that is the queue's own depth |
| QueueViews.ConsumersAreLatest | internal/collectors/rabbitmq/collector.go:186-204 | after any run of rounds the last consumer count published for a queue is that of the latest listing whose top named it, and none was if no listing did |
| QueueViews.ConsumersAgreeExactly | internal/collectors/rabbitmq/collector.go:190-204 | it agrees with the last successful listing if and only if the queue is still in its top or had no consumers when last named |
| QueueViews.ConsumersLinger | internal/collectors/rabbitmq/collector.go:190-204 | a deleted queue's depths go to zero and its consumer count stays |
| UnitViews.Collector.Collect | internal/collectors/systemd/collector.go:43-78 | one round: counts, named failed units, recoveries, and nothing when the listing of failed units failed |
| UnitViews.CountsOfRound | internal/collectors/systemd/collector.go:50-57 | a round counts all failed units as failed and, if that listing succeeded, the loaded ones as loaded, each once |
| UnitViews.NamedAreFirst | internal/collectors/systemd/collector.go:60-66 | the units named are the first twenty of the listing, or all |
| UnitViews.ViewIsLastListing | internal/collectors/systemd/collector.go:43-78 | after any run of rounds the units last published as failed are exactly the first 20 of the last successful listing |
| EnvFiles.ReadLine | cmd/prostometrics-agent/config.go:697-720 | the statements read one line |
| EnvFiles.LoadFile | cmd/prostometrics-agent/config.go:695-721 | the loop over lines, and the first bad line as the error |
| EnvFiles.LoadEnvFiles | cmd/prostometrics-agent/config.go:678-724 | the loop over files, missing ones skipped |
| EnvFiles.KeysRead | cmd/prostometrics-agent/config.go:706-714 | every key that is read is non-empty, trimmed and free of equals signs, and the "empty key" error is never reported |
| EnvFiles.LineParses | cmd/prostometrics-agent/config.go:697-720 | a rendered line is read as it was meant, for every key the syntax can express and every one-line value, in double quotes, single quotes or none where the next row lets it |
| EnvFiles.BareReturnsExactly | cmd/prostometrics-agent/config.go:697-719 | a value written without quotes comes back if and only if it is trimmed and not itself in a pair of quotes |
| EnvFiles.WrappedExactly | cmd/prostometrics-agent/config.go:715-716 | it is in such a pair if and only if it is some text with the same quote before and after it |
| EnvFiles.SpaceDoesNotMatter | cmd/prostometrics-agent/config.go:697-711 | white space before the line, after `export`, around the name, around the value and at the end makes no difference |
| EnvFiles.LineRefused | cmd/prostometrics-agent/config.go:706-709 | a line without an equals sign after a name is refused |
| EnvFiles.FirstBadLine | cmd/prostometrics-agent/config.go:696-709 | the error names the first bad line, counted from one |
| EnvFiles.FirstBadFile | cmd/prostometrics-agent/config.go:683-709 | and the first file that cannot be read or has one |
| EnvFiles.EnvRoundTrip | cmd/prostometrics-agent/config.go:678-724 | any list of rendered files loads as the last-wins map of the original values |
| EnvFiles.FileShown | cmd/prostometrics-agent/config.go:678-724 | "export A='x y'" and "B=z" load as A and B |
| ExecLabels.LabelPairs | cmd/prostometrics-agent/config.go:575-591 | the loop and the sort compute the configured pairs |
| ExecLabels.SortedUnique | cmd/prostometrics-agent/config.go:588-590 | a sorted sequence is determined by its elements |
| ExecLabels.OrderDoesNotMatter | cmd/prostometrics-agent/config.go:575-591 | the same configuration gives the same pairs for every order in which the map is visited |
| ExecLabels.ConfiguredPairs | cmd/prostometrics-agent/config.go:575-587 | each configured label with a usable name and a value is a pair, name, equals sign and value trimmed, and there is no other |
| ExecLabels.ParseOutputLine | internal/collectors/exec/collector.go:143-167 | the loop reads the number and the printed pairs |
| ExecLabels.LineOfWords | internal/collectors/exec/collector.go:143-167 | however its words are spaced, the first of a line is its number and every other is read as a label, in order |
| ExecLabels.PrintedUnquoted | internal/collectors/exec/collector.go:154-164 | quotes at the ends of a printed value are dropped, paired or not, and a value ingest refuses drops the pair |
| ExecLabels.PrintedDropped | internal/collectors/exec/collector.go:154-162 | a word without an equals sign, a usable name, or a value besides quotes is no label |
| ExecLabels.PrintedNames | internal/collectors/exec/collector.go:154-164 | a printed name is never empty and never `workload` |
| ExecLabels.MergeLabels | internal/collectors/exec/collector.go:175-193 | the loop keeps the first pair of each name, or the configured pairs as they are when nothing was printed |
| ExecLabels.Published | internal/collectors/exec/collector.go:175-193 | the configured pairs, repeats dropped if something was printed, then the first printed pair of each new name |
| ExecLabels.DistinctExactly | internal/collectors/exec/collector.go:169-193 | names never repeat if and only if something was printed or the configured names do not collide up to their equals signs |
| ExecLabels.ReservedExactly | internal/collectors/exec/collector.go:169-193 | a reserved or empty name is published if and only if a configured one is that up to its equals sign |
| ExecLabels.PublishedPlainly | internal/collectors/exec/collector.go:169-193 | with configured names distinct after trimming and free of equals signs: the configured pairs followed by the first printed pair of each new name, all names distinct, none reserved |
| ExecLabels.PlainShown | cmd/prostometrics-agent/config.go:575-587 | two labels of different names are such a configuration |
| ExecLabels.CollisionsArePublished | internal/collectors/exec/collector.go:176-178 | otherwise a repeated or reserved name can be published |

## Left out

- White space and letter case are the ASCII ones; Unicode white space (`strings.TrimSpace`, `strings.Fields`) and Unicode lower-casing are not modelled.
- Floating point: `strconv.ParseFloat` is a parameter, readings are exact rationals.
- The access-log line parser (`accesslog.go:223-345`) and the FNV hash of addresses are parameters of the tick; nothing is claimed about collisions of the hash.
- AccessLog.AccessLogCollector.Collect: events go to a list; the client's queue, which may drop the last of them, is not part of this model.
- LogTails.LogTail.ReadNewLines: what the reads of one poll return is one byte string and ends at any point; a truncation in the middle of a poll's own reads is not modelled, and offsets are unbounded integers.
- LogDeliveries.OrderlyRunDeliversOnce: says nothing of runs with failing calls or truncations; for those `LogRuns.RedeliversExactly` says, poll by poll, when bytes come again, and `LogRuns.NoReplay` when none can.
- LogRuns.PollIsReader: the stat of the path and the open of one poll see the same state of the world, so a rename between the two is not modelled in runs.
- Referrers.SameSite: is about ASCII hosts; one in another script is computed by the model as bytes, with ASCII lower-casing only.
- Runner: time is not modelled, a deadline may pass at any moment; probes, start-up logging and the texts of errors are left out.
- DockerPool: containers have distinct identifiers, as Docker's do; a worker's requests to the daemon are a fixed outcome for each container, and what it publishes besides storing its reading is left out.
- `publishContainerStates` (`cpu.go:119-154`): a count by state over a list, which would only add easy members.
- QueueViews.QueueBreakdown.Publish: depths are unbounded integers, so the overflow of a sum of two 64-bit depths is not modelled; the sort is a parameter that sorts.
- Resp.Conn.Command: deadlines and partial writes are left out; a write works or fails as a whole.
- Exposition.ParseExposition: reads a whole document; an error of the connection while it is read is left out.
- EnvFiles.LoadEnvFiles: expanding `~` and reading files are outcomes given for each path.
- The exec collector's limits on lines and output, running commands, YAML decoding, flags, the procfs readers, the database collectors and all probes.
