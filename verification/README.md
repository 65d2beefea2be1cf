# winsh: model and proofs

A Dafny 4.11 model of winsh, a command-line client for Windows Remote Management that can keep an authenticated
control master, and proofs about its hardest behaviour. `dafny verify dfyconfig.toml` checks everything.

| file | what it models |
|---|---|
| Failures.dfy | error marks, `errors.Join`, the categories that cross the control socket |
| Outcome.dfy | one remote command: shell, command, tear-down, and what its error says about the server |
| SessionClose.dfy | the interleavings of senders and closers of one session |
| Dispatcher.dfy | the control master's queue, worker, timer and shutdown |
| Election.dfy | one master per socket path: lock file, stale sockets, inherited lock, crashes |
| Base64.dfy, TransferCodec.dfy | Base64 as Go reads it, line framing over any fragmentation, chunk sizes |
| Transfer.dfy, Download.dfy | verified upload with its finalizer, verified download with its commit |
| Frames.dfy, ResultJson.dfy | the local frame protocol, the master's output writers, the client's receive loop, a result's JSON |
| Text.dfy, Sealing.dfy, Cdata.dfy | Go's string helpers, sealed multipart messages, CDATA escaping |
| Challenge.dfy | the check of an NTLM type-2 message |
| Lane.dfy, Heartbeat.dfy | one authenticated connection, retries, and the idle time heartbeats allow |

How to read it. An object that the program mutates is a class whose methods are proved against a specification: a
function of the old state, or a relation between what was exchanged and what is reported. The network, the server, clocks
and goroutine schedules are arbitrary choices (`*`) inside the classes that stand for the environment, or arbitrary events
of a transition system, so every theorem is about all outcomes. Main results are lemmas about the specification, over all
logs, all runs or all inputs. What the environment has answered is kept in fields of its classes, and how long a context
lasts is a number of looks at it, so that contracts can say in both directions what an answer depends on.

Where the code does less than its comments say, the model follows the code:

- `runWithCleanup` drops the unknown mark of its cleanup error and never signals (runner.go:72-96); `RunWithCleanup` says
  exactly when its error still means what the others' does.
- A lane can be idle for more than two intervals before its first heartbeat, because the ticker starts only after the other
  lanes have authenticated (transfer.go:113-123); `ThreeLanesStayOpenIff` says exactly how long it may have waited.
- The idle timer can end a later idle period at once; `IdlePeriodIsCutShortIff` says exactly when.
- Base64 decoding accepts a bare line feed inside a line and loose trailing bits; `EncodingUndoesDecodingIff`.
- A failed session start, or a chunk size that cannot be found, reports no upload artifact (upload.go:98-113); `Upload`
  states when a left-behind stage is reported, and `UnreportedStage` is a run that leaves one unreported.
- A second close of a session returns nil without asking the server (session.go:292-299); claims are about the first.
- `writeAll` of the transfer codec takes any partial write without an error for a lack of progress, not only an empty one
  (transfer_codec.go:212-225).

Assumptions that the proofs rest on, each stated where it is used:

- SHA-256 is injective; nobody else touches the random stage name; the finalizer's acknowledgement does not throw after
  the move; a command whose exit code was received has exited, and one whose shell was deleted has ended.
- `flock` lasts while any descriptor of the description is open; only `launchMaster` starts a master.
- A poster honours cancellation; an executor reports a failed output write and writes nothing after it returns.
- A connection whose write has failed takes nothing more until its deadline is renewed; net/http moves a request to a new
  connection only when nothing of it was written; sealed replies can be lost, delayed or repeated but not forged; TLS keeps
  the replies of an unencrypted exchange intact; the server accepts only what it applies.
- Heartbeat ticks are on time and rounds do not fail.

## Model

| member | source | states |
|---|---|---|
| Outcome.InconclusiveIffShellMayRemain | internal/remote/session.go:124-163 | the unknown-state mark is exact: the client's observations are inconclusive if and only if some behaviour of the server that agrees with them leaves a shell behind |
| Outcome.ReportIsSound | internal/remote/control_runner.go:10-84 | outcome soundness for every poster outcome and every server behaviour: no unknown mark means no shell of the run remains, not-started means the server applied nothing, success means Create, Command and Delete were applied exactly once, and never more than one Delete |
| Outcome.CompletedMeansExactlyOnce | internal/remote/control_runner.go:54-84 | a completed log fixes what the server did: each of Create, Command, end of input and Delete exactly once, and no shell left |
| Outcome.AtMostOneDeleteApplied | internal/remote/session.go:331-346 | of all Deletes over the lanes and the fallback at most one can have been applied |
| Outcome.RunWithPosters | internal/remote/control_runner.go:46-52 | every run reports according to Report, and ends as its exchanges and its schedule decide: the exit code is the one the server reported last, success needs it and a confirmed clean-up, the cleanup mark stands for exactly a confirmed deletion with another step unconfirmed, a command is signalled exactly when it was not seen to finish or its context is over; no fallback lane |
| Outcome.RunCommand | internal/remote/control_runner.go:58-84 | the separate run and cleanup errors, each decided in both directions: success, the exit code, the Signal, the unknown and the cleanup marks, the lane of the Delete, and that an unsent Delete has been tried on every lane |
| Outcome.RunStarted | internal/remote/control_runner.go:67-84 | after a started session: the run succeeds exactly when receive saw the exit code, the command is signalled exactly when the run failed or its context is over, and the cleanup error says exactly whether deletion and the other steps are confirmed |
| Outcome.Interact | internal/remote/control_runner.go:80-84 | no error exactly when the end of input was answered and receive has the exit code; otherwise the exit code is 0 |
| Outcome.DeferredClose | internal/remote/control_runner.go:67-79 | an interrupted command is signalled and deleted off the command lane, a finished one only deleted, where it ran; which of them it is is decided by the run's error and one look at the context |
| Outcome.Run | internal/remote/runner.go:24-39 | a standalone run with a fallback reports and ends in the same way, tries every lane for an unsent Delete, and a finished command never shows the cleanup budget's own timeout |
| Outcome.CompletedCleanupError | internal/remote/runner.go:41-50 | keeps whether the deletion is uncertain and drops every timing mark |
| Outcome.RunWithCleanup | internal/remote/runner.go:64-96 | success exactly after an observed exit code and a confirmed clean-up, and then a completed log; its error means what Report says if and only if no command was left running, or its end of input and its deletion were both confirmed; it never signals |
| Outcome.CleanupConditionIsNeeded | internal/remote/runner.go:72-96 | two runs for which no error without the mark meets Report: a lost Delete after a finished command, and a lost end of input that is not signalled |
| Outcome.Session.Start | internal/remote/session.go:88-173 | success exactly for two answered exchanges; not-started exactly for an unsent Create, the unknown mark exactly for an inconclusive log; after every failed Command a Delete on the lanes it should take |
| Outcome.Session.DeleteShellBestEffort | internal/remote/session.go:430-450 | Deletes on the cleanup lane and then the fallback, the second exactly after an unsent first; success exactly for a confirmed one |
| Outcome.Session.SendEndOfInput | internal/remote/session.go:182-215 | one SendInput exchange; no error exactly for an accepted reply |
| Outcome.Session.ReceiveAll | internal/remote/session.go:225-249 | polls until the command is done, a poll is unusable or the context is over; which of them happened decides between the exit code, the poll's error and the context's error |
| Outcome.Session.StopCommand | internal/remote/session.go:301-330 | at most one straggling Receive, of a receive loop that still runs, then the Signal when asked for, on the cleanup lane; failure exactly for one that is not accepted |
| Outcome.Session.DeleteShell | internal/remote/session.go:331-346 | the lanes are tried in order, the next one exactly after a Delete proven unsent, until none is left |
| Outcome.Session.TearDown | internal/remote/session.go:301-353 | the exchanges of a close: what is appended to the log, on which lanes, and whether the Signal and the deletion are confirmed |
| Outcome.Session.CloseWith | internal/remote/session.go:291-369 | only the first close exchanges anything; its error carries the unknown mark exactly when Delete was not confirmed, cleanup-failed exactly when it was and the Signal or the join was not, the deadline exactly when the receive loop did not return |
| Dispatcher.StepKeepsInv | internal/control/server.go:60-163 | every critical section keeps the invariant: one worker at most, at most 16 queued, a non-empty queue has an active job and is not exiting, stopped implies exiting, exiting and idle implies stopped, idle implies a timer armed or firing, each admitted job in exactly one place, execution in admission order |
| Dispatcher.RunKeepsInv | internal/control/server.go:256-369 | the invariant holds after every possible run of steps |
| Dispatcher.EveryRunIsOrderly | internal/control/server.go:256-369 | in every run from the start: commands execute in admission order, one at a time, with a bounded queue; an idle master has its timer; a stopped one has answered everyone |
| Dispatcher.NothingStartsAfterAFailure | internal/control/server.go:340-350 | once a command that ran is answered with anything but success, no later command starts in any continuation; and no answer ever changes |
| Dispatcher.FirstLiveJobIsStarted | internal/control/server.go:351-363 | a hand-over starts the first queued job whose context is alive, and none exactly when there is none |
| Dispatcher.StopsExactlyWhen | internal/control/server.go:60-163 | the master begins to exit exactly by an exit frame or failed heartbeat, a tear-down, a failed run, or a timer that finds it idle, and has stopped exactly when it is to exit with no command running, or is torn down |
| Dispatcher.EveryAnswerIsFaithful | internal/control/server.go:321-387 | in every run each answer says why it was given: after an execution its exit code, success exactly without an error, the unknown category exactly for an inconclusive log, not-started exactly for an unsent Create, then cleanup-failed, timeout and cancelled by precedence; without one an exit code of 0 and the cause; and the answered jobs that were executed are exactly those whose executor has returned |
| Dispatcher.RunKeepsFaith | internal/control/server.go:256-387 | every run keeps the agreement of answers, causes and executions |
| Dispatcher.SuccessMeansCompleted | internal/control/server.go:321-343 | end to end with the session's report: a job answered success ran, its exit code is the one the server reported last, and whatever the server did it applied the command exactly once and no shell is left |
| Dispatcher.NotStartedMeansNothingSent | internal/control/server.go:82-88 | end to end with the session's report: a job answered not-started was never executed, or its log lets the server have applied nothing |
| Dispatcher.RefusedMeansNotAdmitted | internal/control/server.go:256-277 | a call is admitted exactly when the master is not exiting, its context is alive and fewer than 16 jobs wait; otherwise it is answered with the first reason that holds and changes nothing but the timer |
| Dispatcher.NoJobWaitsForEver | internal/control/server.go:340-369 | an admitted job is answered after as many run-ends as there were pending jobs up to it, 17 at the latest, in every run, whatever is enqueued or cancelled in between |
| Dispatcher.RunEndsDrainTheQueue | internal/control/server.go:340-369 | in every run, with any admissions, the pending jobs among the first k never grow, and fall with every run-end until none is left |
| Dispatcher.PendingWorkHasAWorker | internal/control/server.go:321-369 | a job is unanswered exactly as long as some worker exists, whose end is a run-end |
| Dispatcher.StaleTimerEndsIdlePeriod | internal/control/server.go:60-66 | a concrete run in which a stale expiry stops the master although the re-armed timer has not expired |
| Dispatcher.IdlePeriodIsCutShortIff | internal/control/server.go:60-66 | an idle master can stop before its timer expires if and only if an earlier expiry is still waiting for the mutex |
| Dispatcher.MasterServer.constructor | internal/control/server.go:54-58 | the new object is the initial state, its timer running |
| Dispatcher.MasterServer.ShutdownLocked | internal/control/server.go:68-80 | closes the stopped channel at most once |
| Dispatcher.MasterServer.RejectQueueLocked | internal/control/server.go:82-88 | answers every queued job not-started, each once, and empties the queue |
| Dispatcher.MasterServer.StopIfIdleLocked | internal/control/server.go:60-66 | takes the idle step and keeps the invariant |
| Dispatcher.MasterServer.TearDownLocked | internal/control/server.go:91-108 | takes the step of a cancelled context or a failed accept and keeps the invariant |
| Dispatcher.MasterServer.StopAdmissionLocked | internal/control/server.go:184-191 | takes the step of an exit frame or a failed heartbeat and keeps the invariant |
| Dispatcher.MasterServer.EnqueueJob | internal/control/server.go:256-277 | takes the admission step, answers its category, and keeps the invariant |
| Dispatcher.MasterServer.CancelQueuedJob | internal/control/server.go:279-293 | takes the cancellation step; afterwards the job is answered or is the active one |
| Dispatcher.MasterServer.EndRunLocked | internal/control/server.go:340-368 | takes the step that ends a run: answer, stop or hand over, and keeps the invariant |
| Dispatcher.MasterServer.StartNextLocked | internal/control/server.go:351-363 | the loop over the queue computes the hand-over: the first job whose context is alive, after answering those before it |
| SessionClose.CloseIsExclusive | internal/remote/session.go:182-330 | in every interleaving of senders, closers and the receive loop: no Send exchange overlaps or follows a Signal or Delete, a single closer issues those, at least one and at most four, a sender sends unless the session is closed, and exchanges never overlap each other |
| SessionClose.RunsAreFinite | internal/remote/session.go:291-369 | every interleaving is bounded by the threads' remaining actions |
| SessionClose.ClosingCannotDeadlock | internal/remote/session.go:278-369 | once a closer has won, some thread can move without any Send being answered and with the receive loop stuck, exactly as long as some sender or closer has not returned; only a closer's exchanges and its wait for the loop need its budget |
| SessionClose.JoinsFollowTheLoop | internal/remote/session.go:292-299 | a closer that waits for the receive loop can go on without its budget exactly when the loop has returned |
| SessionClose.StepKeepsInv | internal/remote/session.go:182-369 | each atomic action keeps the shared and per-thread invariant |
| Election.ElectionIsSafe | internal/control/master_unix.go:47-146 | at every point of every interleaving with crashes: a listening process holds the lock and is the only one, a starter about to remove a socket or resolving the password is alone and no master lives, a stopping master unlinks its own socket, the password is resolved at most once a start, the lock is held by a live process, and a start that reports a socket has been answered by a listening master or its own master has served |
| Election.FoundIsUsable | internal/control/master_unix.go:61-76 | a start comes to report a socket only when a listening master with its target has answered, without a password, or when the master it launched with one has reported readiness |
| Election.ProbeDecides | internal/control/master_unix.go:66-123 | a start that sees another target's master never reports its socket, and with the lock only a socket whose dial did not connect is taken for stale |
| Election.PathChanges | internal/control/master_unix.go:124-128 | the socket file appears only where there was none, and disappears only by a lone holder of the lock while nobody listens, or by its own master |
| Election.GivingUpEndsTheChild | internal/control/master_unix.go:181-204 | a start that gives up while it waits leaves no master and a free lock |
| Election.AStartCanSucceed | internal/control/master_unix.go:61-146 | from every reachable state in which the lock is free, whatever has crashed before, a start has a run to a master of its own that listens behind the path and holds the lock, for one password |
| Election.StepKeepsInv | internal/control/master_unix.go:61-272 | each system call of a starter, a master or a crash keeps the invariant |
| Election.RunKeepsInv | internal/control/master_unix.go:61-272 | the invariant holds after every run |
| Election.OneMaster | internal/control/master_unix.go:148-285 | two processes in the master's code are the same process |
| Election.HolderIsAlone | internal/control/socket_unix.go:152-176 | a starter that holds the lock before launching shares it with nobody, and nobody listens or owns the path |
| Base64.RoundTrip | internal/remote/transfer_codec.go:194 | decoding undoes encoding for every sequence of bytes |
| Base64.EncodeShape | internal/remote/upload.go:102-104 | the encoded length, and no CR or LF in the text |
| Base64.EncodingUndoesDecodingIff | internal/remote/transfer_codec.go:194 | encoding what a text decodes to gives the text back if and only if it has no line breaks and no loose bits in the last symbol before its padding |
| Base64.DecodingIsNotInjective | internal/remote/transfer_codec.go:194 | both conditions are needed: a text with loose bits and a text with a line feed inside decode like a third |
| TransferCodec.AcceptedLanguage | internal/remote/transfer_codec.go:176-212 | exactly the concatenations of CRLF-terminated CR-free lines of at most maxLine bytes that each decode are accepted, and what is copied is what they decode to |
| TransferCodec.SplitCRLFLines | internal/remote/transfer_codec.go:239-273 | the split function's loop, against its meaning by the first CR |
| TransferCodec.SplitIsSound | internal/remote/transfer_codec.go:239-273 | a token found in part of the stream is the stream's first line; a rejection means the stream does not begin with a line |
| TransferCodec.Scanner.Scan | internal/remote/transfer_codec.go:189-193 | whatever the fragments, the next token is the first line of what remains, and with a sound reader a stop means that there is none, given the maxLine+2 buffer limit |
| TransferCodec.WriteAll | internal/remote/transfer_codec.go:216-232 | success appends exactly the data; failure leaves a prefix of it and means that the writer misbehaved |
| TransferCodec.CopyBase64Lines | internal/remote/transfer_codec.go:184-210 | the verdict, the bytes and the count are those of the whole stream however it is fragmented; with a broken reader or writer there is no wrong success and only a prefix is written |
| TransferCodec.SenderLinesAreCopied | internal/remote/scripts/download.ps1:16-22 | for any blocks of at most 24576 bytes, copying the sender's lines rebuilds the file |
| TransferCodec.SenderBlockIsTight | internal/remote/download.go:138 | a block's line fits 32768 characters exactly when the block has at most 24576 bytes |
| TransferCodec.SentLineIsGood | internal/remote/scripts/download.ps1:21 | each sent line is CR-free, within the limit, and decodes to its block |
| TransferCodec.ChunkSize | internal/remote/transfer_codec.go:281-312 | any result fits the envelope, and a builder that fails on nothing has none; for a monotone builder that never shrinks its input it is the largest that fits, and there is none only when one byte is too much |
| TransferCodec.UploadChunkLimit | internal/remote/upload.go:101-117 | every chunk up to the limit fits 153600 bytes and, below the 32 KiB cap, no larger one does |
| TransferCodec.UploadBuilderIsSearchable | internal/remote/upload.go:101-108 | the nested Base64-of-a-Base64-line length is monotone and never shrinks its input |
| Transfer.FinalizerCommitsExactly | internal/remote/scripts/control.ps1:3-31 | exit code zero means that the stage held exactly the expected bytes and has become the destination, which was absent unless forced; any other code means nothing moved, and codes 2, 3 and 4 tell a missing, a wrong and a refused stage apart |
| Transfer.FinalizerCommitsWheneverItMay | internal/remote/scripts/control.ps1:3-31 | without a fault of its own the finalizer commits if and only if stage, count, digest and force allow it |
| Transfer.ReceiverRebuildsTheFile | internal/remote/scripts/upload.ps1:16-21 | what upload sends for any non-empty chunks is written back by the receiver as the file |
| Transfer.Host.CleanupStage | internal/remote/upload.go:330-362 | may be dispatched only when the receiver can write no more and no finalizer can still run; success removes the stage |
| Transfer.StreamSource | internal/remote/upload.go:172-204 | success exactly when context, Send and reads held out; then the input is exactly the source's lines and the digest covers exactly the source |
| Transfer.VerifyStage | internal/remote/upload.go:206-240 | verified exactly when the receiver exited with code 0 and no errors, the source still looks as it did when opened and was sent in that size, and the record has the id, count and digest of what was sent |
| Transfer.StreamAndVerify | internal/remote/upload.go:145-240 | verified exactly when the receiver's exit, its record and the unchanged source agree with the source's bytes; the receiver is asked exactly when all was sent |
| Transfer.AwaitFinalizer | internal/remote/upload.go:303-327 | committed exactly after exit code zero with the acknowledgement and no errors; a plain failure exactly after another exit code; anything else is unknown |
| Transfer.DispatchFinalizer | internal/remote/upload.go:266-328 | the finalizer is dispatched exactly when its script can be built, once, with these expectations; what is told is decided by its answers, and its session's close can add an error but not change what is known |
| Transfer.CommitStage | internal/remote/upload.go:242-252 | the finalizer is dispatched exactly when the receiver's shell is known to be deleted and its script can be built, and the caller is told what has become of the destination |
| Transfer.StreamThenCommit | internal/remote/upload.go:145-252 | commit safety of the body, before the deferred clean-up: the finalizer is dispatched exactly for a source that was sent, verified and unchanged, behind a deleted receiver |
| Transfer.UnknownHasTwoOutcomes | internal/remote/upload.go:28-40 | an unknown finalization leaves the previous bytes or the source's, even if the finalizer runs only later |
| Transfer.CleanUp | internal/remote/upload.go:119-143 | the stage's removal is dispatched exactly after a plain failure whose receiver is known to be gone, and the stage is listed exactly when nothing was committed and its removal is not confirmed; the clean-up never changes the destination |
| Transfer.EnvelopeLimit | internal/remote/upload.go:101-117 | the largest chunk whose message fits the envelope, up to the cap, and none only if one byte is too much |
| Transfer.Upload | internal/remote/upload.go:45-253 | committed means that the destination holds exactly the source's bytes; the finalizer runs only for a source that was sent whole, looks unchanged, and was verified by the receiver, and is dispatched whenever all that and the receiver's deletion hold; a failure that is neither committed nor unknown leaves the destination as it was and no finalizer able to run; an unknown one leaves the old or the new bytes and the stage alone; a stage is listed exactly when it may be left; every sent chunk fits the envelope |
| Transfer.UnreportedStage | internal/remote/upload.go:98-100 | a run with an unconfirmed start leaves a stage behind and lists no artifact |
| Download.SenderScript | internal/remote/scripts/download.ps1:15-25 | whatever sizes its reads have, the sender's lines and record are those of the file |
| Download.HonestSenderPasses | internal/remote/download.go:137-191 | a truthful sender over an intact stream passes every check: the copy is the file and all counts and digests agree |
| Download.ReceiveFile | internal/remote/download.go:128-165 | the sender has finished well exactly with its end of input confirmed, exit code 0, no errors and an accepted stream; a failed send or a rejected stream closes the session |
| Download.Disk.CommitStage | internal/remote/commit_unix.go:40-57 | link never replaces and keeps the stage's name, rename replaces and takes it away; success gives the destination the stage's file and changes no other name; it fails only for equal or empty names or with the call |
| Download.ReceiveThenCommit | internal/remote/download.go:128-198 | what was decoded is committed exactly when the sender has finished well, the stream is accepted in full, the fetched record is its count and digest, and no call on the disk fails |
| Download.CleanUpSender | internal/remote/download.go:106-126 | the control record is removed exactly after a confirmed close of a sender that has finished well, and listed exactly when its removal is not confirmed |
| Download.DownloadFile | internal/remote/download.go:42-199 | committed means that the destination holds the decoded stream and the fetched record is its count and digest, so a record that tells the truth about a file lets only that file be committed; otherwise every name but the stage's is as before; it fails exactly when nothing is committed or a record is listed, and tries to remove its stage |
| Frames.FrameIsReadBack | internal/control/protocol.go:80-123 | every valid frame is parsed back from its bytes, whatever follows |
| Frames.OnlyWrittenFramesAreRead | internal/control/protocol.go:108-123 | whatever parses as a frame is exactly what writing that frame produces |
| Frames.WriteBytes | internal/control/protocol.go:94-106 | success sends exactly the data through any short writes; failure sends a prefix |
| Frames.WriteFrame | internal/control/protocol.go:80-92 | an invalid frame sends nothing, a valid one its bytes or, on failure, a prefix of them |
| Frames.ReadFrame | internal/control/protocol.go:108-123 | under any fragmentation a returned frame is the one the stream starts with; none is returned only after a failed read or for an invalid header |
| Frames.Output.Write | internal/control/server.go:302-319 | the bytes it claims are exactly the bytes that went out under its kind in frames of at most 64 KiB, whatever the other writer does in between; a failure cancels the job |
| Frames.HandleOutput | internal/control/client.go:75-108 | a frame is written in full, or what reached its writer stays a prefix of its stream; after cancellation it is dropped |
| Frames.InvokeConn | internal/control/client.go:69-128 | the outcome is decided by the first frame that is not output and by the context; it is uncertain exactly without such a frame, which takes an unsent request, a failed read or writer, an ended context or an invalid stream; a success means that each writer received exactly its stream's payloads in order, and otherwise a prefix |
| Frames.OnlyTheResultIsFound | internal/control/protocol.go:108-123 | behind any frames and any part of a frame left by a failed write, the only result a reader can find is the one that was written |
| Frames.ResultIsReached | internal/control/protocol.go:108-123 | behind any whole output frames that a reader has taken from a complete stream there is a frame: output, or the result |
| Frames.Execute | internal/control/server.go:331-339 | for both writers at once, their frames in any interleaving: the result has the executor's exit code and category, a failed write turns success into failure, and success means that each kind of frame carries exactly its writer's calls |
| Frames.Answer | internal/control/server.go:233-234 | an unbroken connection gets the whole result frame, a broken one a part of it |
| Frames.RunOverConnection | internal/control/client.go:109-119 | for any writes, interleaving, fragmentation and breakage: a returned result has the executor's exit code and its category, or the category of a failed write; a success means that each of the two writers received exactly what the executor wrote to it; and where nothing breaks, the executor's verdict is what is returned |
| ResultJson.JsonMarshals | internal/control/protocol.go:125-144 | every result that an executor can answer has a short JSON free of control bytes that is read back as the result |
| ResultJson.RunWithJson | internal/control/client.go:109-119 | the same end-to-end results with this JSON and no assumption about a library |
| Sealing.SealedIsUnsealed | internal/remote/sealing.go:21-92 | unsealing undoes sealing for every plaintext within bounds, every ciphertext, even one containing the boundary, and every accepted boundary |
| Sealing.UnsealedIff | internal/remote/sealing.go:38-92 | over all bodies and media types: exactly the bodies of the sealed media type that are a well-placed message with a good header, line, signature and length are unsealed |
| Sealing.LengthIsLittleEndian | internal/remote/sealing.go:81-84 | the signature length is read with its least octet first |
| Sealing.MarkersDoNotOverlap | internal/remote/sealing.go:45-50 | a body that has both markers has room for both, because the boundary has no CR or LF |
| Sealing.LineBreakInBoundaryOverlaps | internal/remote/sealing.go:42 | with CR and LF in the boundary the two markers can share octets, so the check is needed |
| Sealing.OpenedIsTheBody | internal/remote/sealing.go:45-84 | taking a body apart and putting the parts together gives the body back |
| Sealing.BytesAreOpened | internal/remote/sealing.go:45-84 | a well-placed message is found again in its bytes |
| Sealing.HeaderIsRead | internal/remote/sealing.go:55-76 | the length in a written header is read back |
| Sealing.ScanHeader | internal/remote/sealing.go:55-76 | the nested loops over lines and parameters compute the declared length |
| Sealing.UnsealMessage | internal/remote/sealing.go:38-92 | the method computes Unsealed with every slice in range for every body |
| Sealing.SealMessage | internal/remote/sealing.go:21-36 | the buffer is the bytes of the sealed message; it fails exactly when wrapping fails or the signature is not 16 octets |
| Cdata.EscapeIsInverted | internal/remote/session.go:93 | reading the consecutive CDATA sections gives every command back |
| Cdata.SectionIsRead | internal/remote/session.go:93 | one section is read whatever brackets its content ends in |
| Cdata.UnescapedIsReadIff | internal/remote/session.go:93 | without the escape a command is read back if and only if it does not contain the terminator |
| Challenge.ValidateChallenge | internal/remote/challenge.go:11-78 | every index is in range, and with target information flagged exactly the messages that pass the header and flag checks and carry such a list are accepted |
| Challenge.NumbersAreLittleEndian | internal/remote/challenge.go:13-45 | numbers of a challenge are read with their least octet first |
| Challenge.WalksIff | internal/remote/challenge.go:42-77 | the walker accepts exactly the encodings of lists with unique ids and the prescribed widths whose empty terminator ends the field |
| Challenge.WalkPairs | internal/remote/challenge.go:42-77 | the reslicing loop with its set of seen ids computes the walker and terminates |
| Lane.Transport.Acquire | internal/remote/persistent.go:73-93 | once the one dial is used, a request gets the connection there was or none |
| Lane.Authenticate | internal/remote/persistent.go:120-192 | a lane exactly when all three exchanges are answered as they should be; discovery may lose its connection, negotiation gets its own dial and cannot lose its connection to authentication, and the lane starts on it with the dial used |
| Lane.Poster.SendHttp | internal/remote/persistent.go:95-118 | a request that arrives is handled inside the session, because the transport has no other connection; a refused replay has not arrived; a delivered sealed body is one of the session's replies |
| Lane.Poster.Dispatch | internal/remote/persistent.go:242-293 | client and server counters agree after every completed exchange, whose reply is the server's reply to this very request; a reply is exactly a SOAP envelope with status 200 or 500, sealed under the next number on an encrypted lane; unsent is exactly an unsealable message or a refused replay; every outcome but a reply breaks the lane |
| Lane.Poster.Post | internal/remote/persistent.go:194-241 | an error marked unsent means that no request reached the server; a failed, closed or cancelled call dispatches nothing, any other is decided by what came of its one request |
| Lane.Poster.KeepAlive | internal/remote/persistent.go:207-232 | quiet exactly on a busy, unusable, recently used or cancelled lane; otherwise at most one Identify reaches the server, and the lane breaks exactly unless an Identify response comes back as a reply |
| Lane.UseLane | internal/remote/persistent.go:194-302 | over any sequence of messages and heartbeats: every reply is the server's reply to its request, what reached the server is what was completed and at most the one request that broke the lane, and nothing is dispatched after that |
| Lane.Converse | internal/remote/control_runner.go:40-44 | over the command lane, the cleanup lane and the standalone transport, with heartbeats in between: every report is explained by what arrived, and nothing else reached the server |
| Lane.LanesMakeLogsConsistent | internal/remote/control_runner.go:20-34 | what the server really did with a session's requests is consistent with the log of replies that the session saw |
| Lane.ReportHoldsOfTheServer | internal/remote/control_runner.go:10-84 | outcome soundness of what the server really did: without the unknown mark no shell of the run is left on it, not-started means it applied nothing, success means it applied the command once |
| Lane.PostOnce | internal/remote/transport.go:50-59 | a failed handshake is unsent; an established one posts the request on its lane, which is closed afterwards |
| Lane.PostWithRetries | internal/remote/transport.go:35-48 | an attempt is repeated exactly when its handshake broke retryably, the context is alive and it was not the third; at most one request reaches the server, which is never repeated |
| Heartbeat.KeepAliveLanes | internal/remote/keepalive.go:25-39 | a round visits the lanes one after another, lane j at most j timeouts late, and leaves every free lane used less than an interval before its visit; it fails only on a lane that is or has become unusable, or by cancellation |
| Heartbeat.GapIsBounded | internal/remote/keepalive.go:44-64 | in every timed run, from any age of the lane at the start of the ticker, the gap between two exchanges and the idle time of a free lane stay within the limit |
| Heartbeat.LimitIsReached | internal/remote/keepalive.go:44-64 | the limit is tight for every age and delay: some run reaches it |
| Heartbeat.StaysOpenIff | internal/remote/keepalive.go:9-17 | a server's idle timeout is never reached in any run if and only if it is beyond the limit |
| Heartbeat.ThreeLanesStayOpenIff | internal/remote/transfer.go:107-127 | with up to three lanes, lane j stays below 120 seconds in every run if and only if it had been idle for less than 90 seconds less its delay when the ticker started |
| Failures.Join | internal/remote/control_runner.go:49-52 | a joined error is nil exactly when both are, and has exactly the marks of either |

## Left out

- Command line, configuration, credential resolution, redaction and the request handler's JSON (`handle`, `checkTarget`, `validateCall`): shallow branching around unseen libraries.
- HTTP, TLS, NTLM cryptography, SOAP building, XML and JSON parsing other than of a command's result: posters, sessions, decoders and media types are parameters or arbitrary choices.
- What the handshake of `authenticateConnection` says: only its connections, and whether each exchange is answered as it should be, are modelled.
- `sendMessage` (session.go:255-271), which bypasses the send mutex and is used by tests only.
- Remote path validation, stage path text, codepages, file permissions and NTFS checks.
- PowerShell beyond the scripted steps; .NET's Base64 reader is modelled on lines without white space.
- Dispatcher: jobs are named by admission order instead of by pointer, and the re-arming branch of `cancelQueued` is proved unreachable instead of modelled.
- The wait loops on channels (a job's done, the exit frame's wait for stopped, worker groups): the steps that close those channels are modelled.
- Outcome.Session.ReceiveAll: the receive loop of an abandoned session may have one exchange left; it is recorded at one point, before Signal and Delete.
- Outcome.RunWithCleanup: does not claim outcome soundness, because its error loses the unknown mark; the exact condition is proved instead.
- Dispatcher.EveryRunIsOrderly: does not claim a minimum idle life, because a stale timer can cut it short.
- Transfer.Upload: progress callbacks and 64-bit overflow of byte totals are not modelled; a concurrent writer of the destination is not either.
- Download.DownloadFile: the checks and the exchange before the stage exists are one arbitrary success or failure.
- Frames.InvokeConn: dialling, the deadline of the connection and the choice among the context errors are not modelled; the two writers are different objects.
- Text.TrimSpace: trims ASCII white space only, as Go does for octets that are not part of a longer UTF-8 sequence.
- Heartbeat.KeepAliveLanes: lanes without a heartbeat are skipped in the source and absent here.
