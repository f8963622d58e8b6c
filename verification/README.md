# Codex issue gateway: a verified model

The gateway turns a `/codex` comment on a GitHub issue into a pull request. A webhook handler records the
delivery and queues a job; a worker leases the job, runs Codex, the tests and the visual review in a loop,
and opens the pull request; what it publishes on the way is filtered, cut and quoted. This project models
that pipeline in Dafny and proves what it guarantees. `dafny verify dfyconfig.toml` checks everything.

## The job protocol

* `Queue` is the store: tables of deliveries and jobs, with the atomic statements of `internal/queue` as
  methods. Every statement may work, fail without effect, or take effect and report a failure.
* `Lifecycle` is the automaton of a leased job: which acts its holder may make in which phase.
* `Implementation` is one run of a leased job as a function of its surroundings. Codex, the tests, the visual
  review, the workspace fingerprint, the diff, the database and GitHub are an `Oracle`: functions of the whole
  log of the run so far, so they may answer anything at any time. `Worker` is the worker itself, a class that
  runs the loop over the store; its methods are proved against these functions.
* `Guarantees` holds for every run, whatever the oracle: the loop ends within its two budgets, the acts follow
  the lifecycle, a job whose queue works ends as done, failed or waiting for a human, and a pull request is
  asked for at most once and only on the grounds the loop requires. `ImageInputs` says what Codex is shown.
  `Trace` tells the same runs from their logs alone: a function of what has happened so far gives the next event,
  without the variables of the loop, and the log of a run is the only one that follows it. From there it states
  when an attempt is repaired, when the job is handed to a human, when a pull request is asked for, and with which
  row the job ends.
  `Limits` takes two statements one would like to make ("the tests passed before every pull request", "the
  last visual review passed"), and proves for exactly which configurations they are guaranteed; for all
  others it constructs a run in which they fail.
* `Protocol` interleaves any number of webhook handlers and workers, statement by statement, with duplicate
  deliveries, database failures and crashes. `Interleaving` proves what holds in every such run: one job per
  delivery, one lease per job, one pull request per delivery, no interference between workers. `EndToEnd` puts a
  worker's whole run into such company. `Webhook` is the handler. The handler, the lease and the run of a worker
  are proved to be steps of the protocol.

## Public text, names and commands

* `PublicReport` is the line filter and the section appender, `Previews` the plan and generic extractors,
  `PublicComment` the comment chunker over UTF-8 bytes and the title cutter, `ChangeTitle` the title shared by
  commit and pull request, `Images` the merge of image inputs.
* `Commands` is the `/codex` parser with a canonical printer, `Branches` the branch check and the default
  branch, `Shell` the quoter together with a reader for the quoting rules of POSIX XCU sections 2.2 and 2.3,
  `Screenshots` and `Artifacts` the names of published files and the paths under which they are served,
  `Suspicion` which of those files a review withholds, `Reviews` what a review returns compared with what it
  published, and how that reaches Codex, `Runner` the command runner and its report, `DiffPolicy` the gate
  before a pull request.
* `Text`, `Decimal` and `Utf8` are the string, number and encoding basics.

## Assumptions

Text is a sequence of characters; white space is ASCII white space. The patterns for unsafe lines and sensitive
titles are parameters `unsafe` and `sensitive`. The lemmas about the filter assume that `unsafe` gives the same
verdict on a line with and without white space around it, and that the fallback texts pass. Job creation times
are an abstract ordered key, the Unicode tables for lower-case letters and digits a parameter that agrees with
ASCII.

## Where the code and its description differ

* The documentation (`README.md:53`) has the visual review run after passing tests. The design
  (`docs/superpowers/specs/2026-06-02-codex-visual-review-feedback-loop-design.md`, line 76) also prescribes it once
  when Codex asks for a revision, and leaves open that no tests ran before. In the code such a review can be
  confirmed by the next unchanged completion, so that a pull request needs no tests; and it may be repeated within
  the budget. `Limits.TestedExactly` states exactly when tests are guaranteed.
* A visual review that fails does not withdraw an earlier confirmation that is still pending
  (`Limits.ReviewedExactly`).
* A published screenshot can get a suspicious name by renaming and is then not shown to Codex, exactly if its
  stem is suspicious once its other characters are dashes (`Suspicion.RenamedExactly`,
  `Suspicion.AllShownExactly`; `Suspicion.HiddenScreenshot` is such a screenshot).
* The same design (lines 38 and 115) has the published screenshots fed back to Codex. In the code a copy that
  breaks off leaves its file in the public directory (`internal/worker/worker.go:638-646`) and is not counted as
  published (`internal/worker/worker.go:532-535`), but the file is listed all the same
  (`internal/worker/worker.go:574-597`), sent to Codex, and even on its own enough for the review to pass
  (`internal/worker/visual_review.go:43-58`). `Reviews.HalfWrittenPasses` is such a review. What is returned is
  what was published, without the suspicious names, exactly if every source whose copy broke off has a suspicious
  stem (`Reviews.PublishedExactly`).
* Applying `SafeTitle` twice is not always the same as applying it once (`PublicComment.SafeTitleStable` says
  when it is, `PublicComment.SafeTitleNotIdempotent` gives a title).

## Model

| member | source | states |
|---|---|---|
| Queue.Store.RecordDelivery | internal/queue/store.go:107-122 | records a delivery unless it is there, and reports just then that it was no duplicate; under each database fault, what is stored and what is reported |
| Queue.Store.CreateJob | internal/queue/store.go:124-148 | adds the job unless its id is taken, which is an error |
| Queue.Store.Transition | internal/queue/store.go:150-171 | compare-and-set: succeeds exactly when the row is in the expected state |
| Queue.Store.LeaseNext | internal/queue/store.go:180-222 | hands out an oldest queued job and marks it starting in one step, or changes nothing; an unreported commit leaves the row starting |
| Queue.Store.SetState | internal/queue/store.go:224-229 | sets the state of the row, unconditionally |
| Queue.Store.SetPRNumber | internal/queue/store.go:238-241 | sets the pull request number and nothing else |
| Queue.OldestExists | internal/queue/store.go:186-191 | if any job is queued, there is one that no queued job precedes, so the lease cannot fail to find one |
| Lifecycle.ActKeepsRow | internal/worker/worker.go:157-374 | an act the lifecycle allows takes the row along an allowed edge, under every fault, and touches no other row |
| Lifecycle.PhaseHistory | internal/worker/worker.go:360-373 | at most one pull request is asked for, none before creating_pr, and the phase tells whether one was opened |
| Lifecycle.ReliableEnd | internal/worker/worker.go:157-374 | with a working queue, a job its worker has left is done, failed or waiting for a human |
| Lifecycle.OpenedEndsDone | internal/worker/worker.go:360-373 | with a working queue, a job whose pull request was opened ends as done, so failed or waiting_human means none was |
| Implementation.TurnSpends | internal/worker/worker.go:216-326 | every continue of the loop lowers the remaining repairs plus the remaining visual reviews |
| Implementation.Turns | internal/worker/worker.go:216-326 | the loop ends with a break or a return for every sequence of outcomes |
| Worker.Worker.PutState | internal/queue/store.go:224-229 | the state write, its fault and its record in the run's log agree |
| Worker.Worker.Begin | internal/worker/worker.go:157-160 | the transition out of starting, and its record |
| Worker.Worker.RunVisualReview | internal/worker/visual_review.go:34-59 | testing is set first; the review passes exactly when its commands passed and it brought screenshots |
| Worker.Worker.Repair | internal/worker/worker.go:225-234 | a failed attempt is repaired with the merged images while repairs are left, and else ends waiting for a human |
| Worker.Worker.Confirm | internal/worker/worker.go:319-325 | after a review that passed, confirmation is pending with the new fingerprint, or as before if there is none |
| Worker.Worker.Review | internal/worker/worker.go:303-325 | what a visual review leads to: confirmation, repair, or the end |
| Worker.Worker.Verify | internal/worker/worker.go:276-303 | tests, then the visual review if there are commands and budget for it |
| Worker.Worker.Answer | internal/worker/worker.go:225-276 | the three answers of Codex, with the confirmation by an equal fingerprint |
| Worker.Worker.Implement | internal/worker/worker.go:196-326 | the loop computes exactly the turns of the model and keeps the tables equal to the replay of its acts |
| Worker.Worker.PublishChange | internal/worker/worker.go:327-359 | the gate lets through exactly the diffs without a denied file; then commit, push and request |
| Worker.Worker.RequestPullRequest | internal/worker/worker.go:360-373 | the request, the number and the last state |
| Worker.Worker.RunImplementation | internal/worker/worker.go:196-374 | the whole run of an implementation job |
| Worker.Worker.RunPlan | internal/worker/worker.go:157-194 | the whole run of a plan job |
| Worker.Worker.PrepareWith | internal/worker/worker.go:141-155 | preparation commands that fail fail the job |
| Worker.Worker.RunJob | internal/worker/worker.go:97-139 | the run of a leased job from the workspace to its end |
| Worker.Worker.RunOne | internal/worker/worker.go:97-139 | one round: a lease, then the run; the tables end as the replay of the logged acts and change in no other way |
| Guarantees.TurnCounts | internal/worker/worker.go:216-326 | one turn runs Codex at most once, and each visual run is counted |
| Guarantees.LoopIsBounded | internal/worker/worker.go:207-326 | at most maxRepair + maxVisual + 1 Codex runs and maxVisual visual reviews, for every oracle |
| Guarantees.LoopGrounds | internal/worker/worker.go:216-326 | the loop is left only right after passing tests, or after Codex completed on the fingerprint of an earlier review that passed |
| Guarantees.LoopPhase | internal/worker/worker.go:216-326 | through any number of turns the worker is in implementing or testing, or has left the job |
| Guarantees.RunFollowsLifecycle | internal/worker/worker.go:97-374 | every run of every job makes only acts the automaton allows and leaves the job in a final way unless the queue failed it |
| Guarantees.RunKeepsToProtocol | internal/worker/worker.go:97-374 | each act is one the protocol enables at that moment, and at most one pull request is asked for |
| Guarantees.RunEnds | internal/worker/worker.go:97-374 | with a working queue the row ends as done, failed or waiting_human, and as done if the pull request was opened |
| Guarantees.PublishJustified | internal/worker/worker.go:331-360 | the request follows a diff without a denied file and the write of creating_pr |
| Guarantees.RequestIsJustified | internal/worker/worker.go:216-360 | what a pull request rests on, for every job, configuration and oracle |
| Trace.RunFollowsItsLog | internal/worker/worker.go:97-374 | for every job, configuration and oracle, each event of a run is the one that the log before it asks for, and the run ends just when there is none |
| Trace.OnlyRun | internal/worker/worker.go:97-374 | no other log follows this rule to an end |
| Trace.FailedIsRepaired | internal/worker/worker.go:225-325 | every failed attempt is followed by a repair while no more have failed than the configured number, or eight; the next one by the hand-over to a human |
| Trace.WaitsExactly | internal/worker/worker.go:225-325 | an implementation is handed to a human exactly where the repairs are used up by a failed attempt, the visual reviews by passing tests, or Codex wants a new plan and no review is possible; by default there are eight repairs and three reviews |
| Trace.RequestIsPushed | internal/worker/worker.go:341-366 | in a git workspace a pull request is asked for only when the change is committed and pushed |
| Trace.CreatingDecides | internal/worker/worker.go:338-366 | behind creating_pr a request is made if and only if that worked; else the job ends at once, as done when there was nothing to commit and as failed otherwise |
| Trace.PlanEnds | internal/worker/worker.go:157-194 | a plan ends as done if Codex completed and the plan was saved, waits for a human if Codex wants it revised, and has failed otherwise |
| Trace.EndsAsWritten | internal/worker/worker.go:97-374 | with a working queue the row ends in the state the run wrote last |
| Trace.OpenedRow | internal/worker/worker.go:360-373 | with a working queue a job whose pull request was opened ends as done with its number, and nothing else of its row has changed |
| ImageInputs.LoopFeeds | internal/worker/worker.go:251-325 | each Codex run after a visual review gets the issue images merged with that review's screenshots |
| ImageInputs.ReviewReachesCodex | internal/worker/worker.go:251-325 | images of a review that are distinct, not blank and not among the issue images reach the next Codex run exactly once each, behind these (`Reviews.ReturnedReachCodex` derives the hypotheses for screenshots) |
| Limits.TestedExactly | internal/worker/worker.go:235-271 | tests before every pull request are guaranteed if and only if there are no visual review commands |
| Limits.ReviewedExactly | internal/worker/worker.go:254-271 | that the last visual review passed is guaranteed if and only if there are no such commands or only one review is allowed |
| Limits.TestedUnlessRevised | internal/worker/worker.go:235-295 | in any single run, the tests passed before the request unless Codex asked for a revision |
| Limits.WaversRun | internal/worker/worker.go:235-271 | for every configuration with visual commands, a run without tests, and with two reviews one whose last review failed, that still opens a pull request |
| Protocol.RecordKeeps | internal/server/server.go:137-153 | recording keeps the invariant: a handler that wins a delivery is alone with it |
| Protocol.CreateKeeps | internal/queue/store.go:124-148 | creating keeps it: the delivery had no job |
| Protocol.LeaseKeepsLeases | internal/queue/store.go:180-222 | a leased job was never leased before |
| Protocol.WorkKeepsPulls | internal/worker/worker.go:360-373 | a second request for the same job is impossible |
| Protocol.NextKeeps | internal/queue/store.go:107-229 | every step of every party, with every fault, keeps the whole invariant |
| Interleaving.Always | internal/queue/store.go:107-229 | the invariant holds in every state of every run |
| Interleaving.OneJobPerDelivery | internal/server/server.go:137-204 | two jobs never have the same delivery |
| Interleaving.LeasedOnceHeldAlone | internal/queue/store.go:180-222 | a job is leased once at most and held by one worker, and Transition from starting never finds another state |
| Interleaving.OneRequestPerDelivery | internal/worker/worker.go:360-373 | no two pull requests for one job or one delivery |
| Interleaving.StepFrame | internal/queue/store.go:150-241 | a row moves only along the lifecycle's edges, and only by its lease and its holder |
| Interleaving.TerminalStays | internal/worker/worker.go:97-374 | a row that is done, failed or waiting for a human never changes again |
| Interleaving.RecordLoses | internal/server/server.go:137-148 | recording a new delivery loses it if and only if the insert takes effect and reports a failure |
| Interleaving.DecideLoses | internal/server/server.go:154-184 | deciding loses it if and only if the command is turned down |
| Interleaving.CreateLoses | internal/server/server.go:185-204 | creating loses it if and only if the insert does not take effect or the job id is taken |
| Interleaving.LostForever | internal/server/server.go:137-204 | a lost delivery never gets a job, however often it is sent again |
| Interleaving.AbandonedForever | internal/queue/store.go:180-222 | a job whose worker crashed is never leased or changed again: the modelled code has no recovery |
| Interleaving.NoInterference | internal/queue/store.go:150-241 | from the lease on, a row is what its holder's own acts make of it, as if it were alone |
| Interleaving.OwnActsOnly | internal/queue/store.go:150-241 | told from the steps alone: behind a reported lease a row is the leased one with the acts of its holder, whatever all other steps do |
| Interleaving.LeasedOnce | internal/queue/store.go:180-222 | no two leases that take effect, reported or not, hand out the same job |
| Interleaving.RequestedOnce | internal/worker/worker.go:360-373 | no two steps ask for a pull request on behalf of the same job or the same delivery |
| Interleaving.LeaseFollowsProtocol | internal/queue/store.go:180-222 | what the store's lease may do is exactly a lease step of the protocol |
| EndToEnd.JobEndsAmongOthers | internal/worker/worker.go:97-374 | in any interleaving, once a job's holder has made all the acts of a faultless run, the row is done, failed or waiting_human for ever, and done if the pull request was opened |
| EndToEnd.OpenedAmongOthers | internal/worker/worker.go:97-374 | and if it was opened, the row is for ever the leased one, done and with the number of the request |
| Webhook.Server.HandleWebhook | internal/server/server.go:99-205 | every branch: the answer and the tables for each request and each fault |
| Webhook.Server.Enqueue | internal/server/server.go:154-204 | the decisions on a new delivery, in order, and the job it creates |
| Webhook.AgainChangesNothing | internal/server/server.go:137-153 | a recorded delivery changes nothing when it comes again, and is answered as a duplicate |
| Webhook.RefusedInOrder | internal/server/server.go:99-136 | the first of method, readiness, size, signature, headers, JSON, event type and repository that is wrong decides the answer, and nothing is stored |
| Webhook.StoredExactly | internal/server/server.go:99-153 | the tables change if and only if all of these are right, the delivery is new and its insert takes effect; the delivery is then on record as it came and no job that was there is touched |
| Webhook.JobAppearsExactly | internal/server/server.go:99-204 | a job appears if and only if, besides, the record is reported, the one actor asks for work with a text that is valid as a whole, its first command is not refused, and the row takes effect under a free id |
| Webhook.AnsweredInOrder | internal/server/server.go:154-204 | what a new delivery is answered: the first of action, actor, text and refusal that is against it, or the new job |
| Webhook.JobIsCommanded | internal/server/server.go:154-204 | the job is the first command of the text, for the delivery, repository, issue, comment and actor of the event; it carries the name as it was written, a permitted base and a safe branch |
| Webhook.HandlerFollowsProtocol | internal/server/server.go:137-204 | the handler is the protocol's record, decide and create steps |
| DiffPolicy.MatchesAny | internal/diffpolicy/policy.go:44-59 | finds a match exactly when some pattern matches or names a directory that holds the file |
| DiffPolicy.Evaluate | internal/diffpolicy/policy.go:24-42 | the denied and the reviewed files in order, and permission exactly when no file is denied |
| DiffPolicy.TreeExactly | internal/diffpolicy/policy.go:44-59 | a pattern for a directory matches, beyond what it matches by itself, exactly the directory and what lies below it |
| DiffPolicy.TreeIsDenied | internal/diffpolicy/policy.go:24-59 | a change in a denied directory is never permitted |
| DiffPolicy.NeighbourIsFree | internal/diffpolicy/policy.go:44-59 | a path that only begins with the name of the directory is not matched by it |
| Images.MergeImageFiles | internal/worker/worker.go:599-610 | the merge of the two lists in one pass |
| Images.MergedOnce | internal/worker/worker.go:599-610 | exactly the paths that are not blank, each once |
| Images.MergedPrefix | internal/worker/worker.go:599-610 | the merge is stable: what comes first stays first |
| Images.MergeFresh | internal/worker/worker.go:599-610 | images that are all new follow the others unchanged |
| PublicReport.Sanitize | internal/publicreport/publicreport.go:28-57 | the loop with its blank flag computes the screened and squeezed lines |
| PublicReport.SanitizedGood | internal/publicreport/publicreport.go:28-57 | what is published has no unsafe line, no two adjacent blank lines and no blank end, or is the fallback |
| PublicReport.FixedExactly | internal/publicreport/publicreport.go:28-57 | a text is published unchanged if and only if it is such a text or the fallback |
| PublicReport.SanitizeIdempotent | internal/publicreport/publicreport.go:28-57 | filtering twice is filtering once |
| PublicReport.NoUnsafeLine | internal/publicreport/publicreport.go:28-57 | every published text is non-empty, trimmed and free of unsafe lines |
| PublicReport.SanitizeKeepsContent | internal/publicreport/publicreport.go:28-57 | every harmless line survives in order, and the fallback shows exactly when there is none |
| PublicReport.SqueezeGap | internal/publicreport/publicreport.go:28-57 | between two lines any run of empty lines becomes one, and none appears where there was none |
| PublicReport.AppendMonoid | internal/worker/worker.go:470-480 | appending is associative and blank text adds nothing |
| PublicReport.AppendedText | internal/worker/worker.go:470-480 | two texts are joined by an empty line, without the white space at their ends |
| PublicReport.SanitizeDistributes | internal/worker/worker.go:470-488 | filtering a joined report keeps the lines of the first part and then those of the second |
| Previews.ExtractGenericLines | internal/publicartifact/publicartifact.go:304-315 | the accepted lines of a JSON or YAML file |
| Previews.GenericAccepted | internal/publicartifact/publicartifact.go:326-335 | each of them is harmless by itself |
| Previews.HarmlessExactly | internal/publicreport/publicreport.go:28-57 | a trimmed line passes the filter by itself exactly if it is not empty, has no control character and matches no unsafe pattern |
| Previews.GenericExactly | internal/publicartifact/publicartifact.go:304-335 | the preview of a JSON or YAML file is exactly its trimmed harmless lines, in order |
| Previews.FileLinesMore | internal/publicartifact/publicartifact.go:204-205 | lines end with a newline, with or without a carriage return before it |
| Previews.TrimBlankLines | internal/publicartifact/publicartifact.go:274-284 | blank lines are dropped at both ends and nowhere else |
| Previews.ExtractPlanMarkdownLines | internal/publicartifact/publicartifact.go:204-242 | the loop with its two flags |
| Previews.PlanAlwaysOk | internal/publicartifact/publicartifact.go:204-242 | at every line the flags tell the truth: the fence flag is the parity of the fences kept, the blank flag the last line |
| Previews.PlanPreview | internal/publicartifact/publicartifact.go:204-284 | a plan preview has no adjacent blank lines and no blank ends, and an open fence exactly for an odd number of fence lines |
| Previews.PlanExactly | internal/publicartifact/publicartifact.go:204-284 | the preview is what each line offers by itself, given the parity of the fences shown before it, with runs of empty lines squeezed and none at the ends |
| Previews.PlanShows | internal/publicartifact/publicartifact.go:204-284 | no line that is to be shown is lost, and no other is kept |
| Previews.PlainPlan | internal/publicartifact/publicartifact.go:233-239 | without fences these are the harmless lines that are not blank, quoted or notes to agents, with the first open box of each ticked off |
| Previews.PreviewSurvives | internal/worker/worker.go:482-488 | every accepted line survives the filtering of the whole report, in order |
| PublicComment.SafeChunks | internal/publiccomment/publiccomment.go:38-53 | the chunks concatenate to the safe body, are valid UTF-8, not empty and at most 60 KiB, and all but the last have 30 KiB or more |
| PublicComment.SafeExactly | internal/publiccomment/publiccomment.go:27-36 | what is published is the body without control characters and outer white space, all other characters in order; the fallback exactly if that is empty or sensitive |
| PublicComment.CleanIsPublished | internal/publiccomment/publiccomment.go:27-36 | clean harmless text is published as it is, without white space around it |
| PublicComment.ChunksCarry | internal/publiccomment/publiccomment.go:38-53 | put together, the chunks are just that |
| PublicComment.ChunkSizes | internal/publiccomment/publiccomment.go:38-53 | no chunk is empty or larger than 61440 bytes, and only the last is smaller than 30720 |
| PublicComment.ChunkCount | internal/publiccomment/publiccomment.go:38-53 | at most one chunk per 30 KiB, and one more |
| PublicComment.Utf8SafeCut | internal/publiccomment/publiccomment.go:96-109 | the cut falls between two characters, within four bytes of the limit |
| PublicComment.CommentChunkCut | internal/publiccomment/publiccomment.go:88-94 | behind the last newline if it lies in the second half, else at a character |
| PublicComment.FitIsLongest | internal/publiccomment/publiccomment.go:111-123 | the longest prefix of whole characters that fits |
| PublicComment.TrimUtf8Bytes | internal/publiccomment/publiccomment.go:111-123 | the loop computes that prefix |
| PublicComment.SafeTitle | internal/publiccomment/publiccomment.go:55-64 | never empty and at most 120 bytes: the fallback exactly for an empty or sensitive title, all of a title that fits, and else the part before the one place where it stops fitting |
| PublicComment.SafeTitleStable | internal/publiccomment/publiccomment.go:55-64 | applying it again changes nothing if and only if no cut is needed, or the character before that place is no space and what precedes it is not sensitive |
| PublicComment.SafeTitleNotIdempotent | internal/publiccomment/publiccomment.go:55-64 | a title for which it does change something |
| ChangeTitle.StripListMarker | internal/worker/change_title.go:98-121 | the bullet or the number of a list item is taken off |
| ChangeTitle.TrimTitleBytes | internal/worker/change_title.go:123-136 | the loop computes the longest fitting prefix, without the space a cut exposes |
| ChangeTitle.TrimCommutesWithFit | internal/worker/change_title.go:123-136 | trimming before a cut makes no difference after it, so the loop may trim at every step |
| ChangeTitle.ImplementationChangeTitle | internal/worker/change_title.go:13-37 | the title of the first candidate that gives one, else the fallback |
| ChangeTitle.TitleIsGood | internal/worker/change_title.go:13-41 | every title has at most 120 bytes, names the issue, keeps its suffix, and is not changed by SafeTitle |
| ChangeTitle.CleanedPlain | internal/worker/change_title.go:90-121 | a plain candidate stays as it is, but for a period at its end |
| ChangeTitle.CleanedBullet | internal/worker/change_title.go:90-121 | the mark of a list item is taken off |
| ChangeTitle.CleanedNumber | internal/worker/change_title.go:90-121 | and so is its number |
| ChangeTitle.PlainCandidateTitle | internal/worker/change_title.go:13-37 | a plain candidate gives as much of itself as fits into 120 bytes between the prefix and the issue, and nothing exactly if that is sensitive |
| ChangeTitle.FirstTitleDecides | internal/worker/change_title.go:13-37 | the first candidate that gives a title decides |
| ChangeTitle.NoTitleDecides | internal/worker/change_title.go:13-41 | without one the title names the issue only |
| ChangeTitle.ShortTitle | internal/worker/change_title.go:13-37 | a short plain candidate in front is the title, word for word |
| Decimal.Itoa | internal/worker/worker.go:932-944 | the decimal numeral, within a 20-byte buffer; nothing for negative numbers |
| Decimal.ValueOfNumeral | internal/worker/worker.go:932-944 | reading a numeral back gives the number |
| Commands.ParseLine | internal/commands/parser.go:57-98 | the index loop over the words computes the recursive parser, with all its error cases |
| Commands.ParseBody | internal/commands/parser.go:41-55 | the commands of all lines, or an error if one is wrong |
| Commands.PrintedParses | internal/commands/parser.go:41-98 | the canonical line of every command with valid flags is read as that command |
| Commands.ParsedIsPrintable | internal/commands/parser.go:41-98 | whatever is accepted has valid flags, and its canonical line is accepted as the same command |
| Commands.AcceptedExactly | internal/commands/parser.go:57-98 | a line is accepted if and only if its words are the command, one of the names and allowed flags with their values, and means just these, a later flag overriding an earlier one |
| Commands.WrongIsRefused | internal/commands/parser.go:57-98 | behind any allowed flags, an unknown flag, a flag without its value, an unsafe branch, a foreign base, and minutes that are no number or out of range refuse the line |
| Commands.NoNameIsRefused | internal/commands/parser.go:57-66 | so does a name that is not one of the seven |
| Commands.BodyExactly | internal/commands/parser.go:41-55 | a text is accepted if and only if every line that begins with the command is, and gives their commands in order |
| Commands.BodiesAppend | internal/commands/parser.go:41-55 | two texts in one give the commands of both and fail exactly when one fails |
| Commands.AcceptedStays | internal/commands/parser.go:57-98 | more bases or a higher cap never change an accepted result |
| Commands.ReadsAlikeExactly | internal/worker/worker.go:779-785 | intake and the worker's second reading agree on everything accepted if and only if intake's cap is at most 240 |
| Commands.AcceptedBranch | internal/sandbox/sandbox.go:85-112 | a branch the parser accepted is used as it is and not refused later |
| Branches.SanitizeBranchPart | internal/sandbox/sandbox.go:210-220 | the loop computes the dashed and trimmed part |
| Branches.WorkBranch | internal/sandbox/sandbox.go:85-112 | refused if and only if a request is unsafe; a request is used unchanged; and the result passes the check of the checkout unless it is a default of more than 80 bytes |
| Branches.SafeBranchExactly | internal/sandbox/sandbox.go:197-208 | what the check lets through; with the other conditions its test for ".." never refuses anything |
| Branches.DefaultBranchSafe | internal/sandbox/sandbox.go:93-112 | the default branch passes the check if and only if it has at most 80 bytes |
| Branches.ShortDeliveryIsSafe | internal/sandbox/sandbox.go:93-112 | which holds for every delivery id of up to 47 bytes and every 64-bit issue number |
| Branches.DashedEach | internal/sandbox/sandbox.go:210-220 | letters, digits and dashes stay, and every other character becomes a dash |
| Branches.PlainDefault | internal/sandbox/sandbox.go:93-95 | an id of lower-case letters, digits and inner dashes stands unchanged in the default branch, behind the issue |
| Branches.DefaultBranchesDiffer | internal/sandbox/sandbox.go:93-95 | so two such deliveries, or two issues, never share one |
| Shell.QuotedReads | internal/worker/playwright.go:100-105 | the shell reads a quoted value as the value, at the start of a word and inside one |
| Shell.QuoteRoundTrip | internal/worker/playwright.go:100-105 | quoting is undone by the shell for every text without NUL |
| Shell.PlaywrightInstallCommand | internal/worker/playwright.go:83-98 | the loop joins the quoted parts, without the blank browsers |
| Shell.InstallCommandReads | internal/worker/playwright.go:83-98 | the shell reads exactly the assignment, the program, the script, install and the browsers |
| Shell.InstallCommandMeans | internal/worker/playwright.go:83-98 | the variable is PLAYWRIGHT_BROWSERS_PATH, and the browsers are those that are not blank, in order, without the blanks around them |
| Artifacts.PathRoundTrip | internal/server/server.go:66-71 | the server takes a path apart into the job and the file it was made of |
| Artifacts.EscapedRoundTrip | internal/worker/worker.go:660-662 | and so it does with the escaped path that is published |
| Artifacts.OnlySafePaths | internal/server/server.go:66-71 | it serves no other path |
| Artifacts.SafeFileExactly | internal/server/server.go:207-233 | the files that may be served are letters, digits, "_" and "-" with the ending of an image |
| Artifacts.ServedExactly | internal/server/server.go:57-82 | below the root exactly the paths of such a job and such a file are served |
| Screenshots.NameAllocator.SafeScreenshotFileName | internal/worker/worker.go:673-708 | a name that was free, the first of its candidates, or nothing for other kinds of files |
| Screenshots.NameAllocator.FirstFree | internal/worker/worker.go:702-705 | the search for a free name ends |
| Screenshots.CandidatesDiffer | internal/worker/worker.go:702-705 | the numbered names all differ |
| Screenshots.NumberedName | internal/worker/worker.go:702-705 | a name that is taken gets the first free number, from 2 on |
| Screenshots.AllocatedIsServed | internal/server/server.go:207-233 | every allocated name is served, and its published path leads back to exactly that job and name |
| Screenshots.JobIdIsSafe | internal/queue/store.go:124-127 | the job ids that CreateJob makes of the time are safe path segments |
| Screenshots.Gallery.Publish | internal/worker/worker.go:503-560 | the publishing loop, with copies that fail before or after creating the file |
| Screenshots.FillsTidy | internal/worker/worker.go:503-560 | nothing is overwritten, every new file is servable, at most twelve are published, each once |
| Screenshots.FillsUp | internal/worker/worker.go:503-560 | every screenshot that can be copied is published, up to twelve |
| Screenshots.ImageFiles | internal/worker/worker.go:574-597 | the listed files that may be shown |
| Screenshots.ImageFilesSince | internal/worker/visual_review.go:113-131 | those that were not shown before |
| Screenshots.SinceExactly | internal/worker/visual_review.go:113-131 | for any two listings of the directory, the returned names are in order exactly the new files that may be shown, whether published or not |
| Suspicion.RenamedExactly | internal/worker/worker.go:678-718 | whatever is taken, a screenshot is published under a suspicious name if and only if the dashed stem of its own name is suspicious |
| Suspicion.SuspiciousExactly | internal/worker/worker.go:710-718 | a name is suspicious if and only if it holds one of the ten markers, in any case |
| Suspicion.StemOfFile | internal/worker/worker.go:678-700 | the published stem is what stands before the ending, dashed and trimmed, or "screenshot" if nothing is left |
| Suspicion.DashedGap | internal/worker/worker.go:680-697 | any run of characters that are neither letters nor digits becomes one dash |
| Suspicion.FillsNamed | internal/worker/worker.go:503-560 | the published names belong, in order, to the first twelve sources that could be copied |
| Suspicion.PublishedIsShown | internal/worker/visual_review.go:113-131 | a review shows what it published of a source if and only if the source's stem is not suspicious |
| Suspicion.AllShownExactly | internal/worker/visual_review.go:34-59 | every published screenshot of a review is shown if and only if no published source has a suspicious stem |
| Suspicion.HiddenScreenshot | internal/worker/worker.go:687-718 | a source with a harmless name that is published and not shown |
| Reviews.FillsLeft | internal/worker/worker.go:503-560 | every file in the public directory was there before, was published, or belongs to a copy that broke off, one file for each of these |
| Reviews.ReturnedExactly | internal/worker/visual_review.go:34-59 | a review returns in order exactly the files that appeared during it and are not suspicious |
| Reviews.PublishedExactly | internal/worker/visual_review.go:34-59 | a review returns only names it published, and then in order exactly the published names that are not suspicious, if and only if every source whose copy broke off has a suspicious stem |
| Reviews.ImagesOfSources | internal/worker/visual_review.go:34-59 | under that condition the images are, in order, the published names of the sources with harmless stems |
| Reviews.HalfWrittenPasses | internal/worker/worker.go:632-647 | any harmless screenshot whose copy breaks off is not published, and alone lets the review pass |
| Reviews.ReturnedReachCodex | internal/worker/worker.go:251-325 | the screenshots a review returns reach the next Codex run exactly once each, behind the issue images, if none of these lies in the public directory |
| Runner.RunTestCommands | internal/runner/process.go:101-118 | the loop stops at the first command that does not succeed, and the error is that of the last command that ran |
| Runner.RunShape | internal/runner/process.go:101-118 | a prefix of the commands ran, all but the last succeeded, and it passed exactly when all ran and succeeded |
| Runner.FirstFailedProcessIndex | internal/worker/runtime.go:201-211 | the first non-zero exit, or the last process of a run that did not pass |
| Runner.Statuses | internal/worker/runtime.go:173-199 | the report marks that process and no other |
| Runner.ReportMarksTheFailure | internal/worker/runtime.go:173-211 | in a run that did not pass, that is the last process that ran |

## Left out

- Stale leases, timeouts and concurrency limits, which are configured but not acted upon in the modelled code.
- Events, heartbeats, timestamps and error texts of the queue: they do not decide anything in the modelled code.
- `Transition` whose event insert fails after the update: one case of a statement that takes effect and reports a failure.
- Processes, git, HTTP, signatures, JSON, SQL and the file system: their outcomes are parameters.
- Regular expressions, `filepath.Match` and Unicode tables: predicates with the assumptions above.
- Non-ASCII white space, and bytes that are not valid UTF-8.
- Comments on GitHub, prompts, issue images and redaction: text templates and network work that change no state.
- What Codex prints: its answer is completed, a revision request, or an error.
- `Authorize`: given by its outcome in `Webhook.Site`.
- Report texts inside the implementation loop: the run is modelled by its effects; the texts by `PublicReport`.
- Where the title candidates come from (`firstSummaryBullet`, `changedFilesTitle`): any candidates are allowed.
- The extractors for other Markdown and for plain text files: they keep lines by the same `addLine`.
- Excerpts and command labels in process reports.
- `Review` and `Retry` commands and `LatestReadyPlan`: the worker has no run for them but the failure.
- Worker.Worker.Implement: the two visual review blocks and the five repair blocks of the loop, which differ only in report texts, are one method each.
- Screenshots.SinceExactly: states names, not paths; the directory is the same for all (`Reviews.Paths` adds it).
- Runner.Statuses: does not include the wording of the lines, nor what the filter may remove from them.
