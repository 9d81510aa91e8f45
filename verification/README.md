# termcp: verified model of the output stream, review mode and their neighbours

termcp's Go backend runs shells for agents and people. This project models the small
protocols inside it and proves what their comments promise, over every input, every run and
every interleaving of their steps.

Each component is written twice. A value-level model (datatypes, step functions, runs) is what
the lemmas speak about. Where the original is an object or a loop that changes things in place,
a class or method does the same in place and is proved to compute exactly the step function.
Concurrency is a step relation: one event is one lock hold, one atomic flag access or one channel
operation, and a run is any sequence of events. Two modules take whole calls as events and say so:
`ReviewMode`, whose overlapping calls are `CommitOverlap` and `ShellWrites`, and the transcript runs
of `MessageLog`, whose overlapping calls are its second half.

| file | component |
|---|---|
| `Basics.dfy`, `Lines.dfy` | optional values and set choice; bytes and newline counting |
| `OutputBuffer.dfy`, `BufferRuns.dfy` | the compacting multi-reader buffer, and what holds over all its histories |
| `OutputPipeline.dfy` | the stdout and stderr goroutines writing log and buffer at once |
| `MessageLog.dfy` | the byte log, its mark index and the derived spans |
| `OutputSource.dfy` | the backward tail scan and paging by offset |
| `ApprovalQueue.dfy`, `ReviewExecution.dfy` | the review queue, and concurrent handlers executing decisions |
| `TerminalKeys.dfy`, `ReviewMode.dfy` | key bytes, staged lines, and reviewed input against unreviewed input |
| `CommitOverlap.dfy`, `ShellWrites.dfy` | commits and executing handlers that overlap on one shell |
| `ApprovalSwitch.dfy` | switching review mode on and off, and closing a session, under races |
| `ShellHistory.dfy` | the exit watcher against closing a shell, without a lock |
| `AnsiCompact.dfy` | the terminal-noise normaliser |
| `Socks5.dfy` | SOCKS5 client and server |
| `DuplexConn.dfy` | the in-memory connection |
| `Notify.dfy` | notification rules, their indexes, the cooldown gate |
| `SessionHub.dfy` | coalesced wake-ups for browser tabs |

## Where the code does less than it seems to

Each of these is stated as an exact condition, with a lemma that reaches the failing case.

- A live positional read of a compacted buffer agrees with the log if and only if the range is
  servable: `start` is made relative but clamped against the absolute length, so a page that runs
  past the end slices past the retained bytes (`BufferRuns.LiveReadAgreesWithLog`,
  `CompactedLastPageOverruns`).
- Paging a live shell collects its stream if and only if every request starts at a retained byte
  and is servable when it is served; below the retained bytes two consecutive pages hand out the
  same bytes under different offsets (`OutputSource.PagesConcatenateIff`, `LivePagesRepeat`).
- The offset check and the write of `WriteAt` are two lock holds. That keeps the buffer a prefix of
  the log, but a chunk whose check overlaps an earlier chunk is lost for good: nothing is lost if
  and only if no check does, no write meets a closed buffer and no append is torn
  (`OutputPipeline.NothingIsLostIff`, `OverlappingChunksLoseOne`).
- A mark-only call reads the log size before it takes the session lock, so overlapping calls can
  put marks out of order (`MessageLog.OrderSurvivesIffFresh`, `OverlappingMarksLoseOrder`).
- A reviewed key press equals a direct one exactly for 1 to 20 repeats, or an unknown key
  (`TerminalKeys.RepeatsAgreeIff`, `ReviewMode.LineIsTransparentIff`).
- Two commits that overlap can reach the queue in the wrong order, and two handlers that overlap on
  one shell mix their lines (`CommitOverlap.SubmitKeepsOrderIff`, `OverlappingCommitsSwap`,
  `ShellWrites.WriteStaysWholeIff`, `OverlappingHandlersMixLines`).
- `NeedsMore() > 0` does not mean pending: it is also true of a request that was rejected, expired
  or cancelled. What holds is that `NeedsMore() == 0` exactly when approved
  (`ApprovalQueue.RequestsAreNeverRewritten`, `RejectedStillNeedsMore`).
- A caller of `beginClosing`, the first one included, may return while a pending request can still be
  approved: it can be if and only if no call is done with the queue yet, and only the call that took
  the queue away ever is (`ApprovalSwitch.ApprovableAfterClosingIff`, `SecondCloserReturnsEarly`,
  `FirstCloserReturnsEarly`).
- `TerminateShell` stores history without the second look the exit watcher takes: a closed shell is
  certain to be absent if and only if no such call stands between its look and its store when the
  flag is first set (`ShellHistory.ClosedShellIsAbsentIff`, `LateTerminatorRetains`).
- `Compact` keeps of each line what follows its last return, as if a return erased the line; that
  shows what a screen would show if and only if nothing visible stands further right
  (`AnsiCompact.CompactShowsTheScreenIff`, `ShortOverwriteHidesText`).
- The fast path of `Compact` keeps a trailing blank line that the slow path would trim
  (`AnsiCompact.FastPathSkipsNothingIff`).
- The tail scan can start in the middle of a line (`OutputSource.ScanReturnsLastLinesIff`,
  `LongLineIsCut`).
- Rules of two sessions on one shell leave a session entry behind for good
  (`Notify.RemoveStaysConsistentIff`, `SharedShellLeavesStaleEntry`).

## Model

| member | source | states |
|---|---|---|
| OutputBuffer.CompactionMovesNothing | internal/buffer/buffer.go:128-148 | compaction changes no cursor and no absolute offset, keeps the length, drops no unread byte, and happens only past the threshold and the minimal advance |
| OutputBuffer.CompactionIsExact | internal/buffer/buffer.go:128-148 | compaction happens exactly past the threshold with every reader past the minimal advance, and then keeps nothing that everyone has read |
| OutputBuffer.AppendMirrors | internal/buffer/buffer.go:111-148 | a buffer that mirrors a log still mirrors it after taking the next bytes, compacted or not |
| OutputBuffer.DrainMeetsLimits | internal/buffer/buffer.go:235-263 | a read hands out what its byte and line limits allow, and something whenever there is something |
| OutputBuffer.DrainIsUnique | internal/buffer/buffer.go:235-263 | those limits determine the length: no shorter and no longer read meets them |
| OutputBuffer.StepKeepsValid | internal/buffer/buffer.go:59-148 | every operation keeps reader positions inside the retained bytes and ids below the next id |
| OutputBuffer.Buffer.constructor | internal/buffer/buffer.go:47-56 | a new buffer is empty, open, without readers, with the 8 MiB and 1 MiB limits |
| OutputBuffer.Buffer.AddReader | internal/buffer/buffer.go:59-69 | performs the registration step at the end of the stream, refused on a closed buffer |
| OutputBuffer.Buffer.AddReaderFromStart | internal/buffer/buffer.go:73-83 | performs the registration step at the oldest retained byte |
| OutputBuffer.Buffer.AddReaderSeededFrom | internal/buffer/buffer.go:87-100 | performs the registration step at another reader's position, refused for an unknown reader |
| OutputBuffer.Buffer.RemoveReader | internal/buffer/buffer.go:103-107 | forgets the reader and changes nothing else |
| OutputBuffer.Buffer.Append | internal/buffer/buffer.go:111-125 | performs the write step: append and compact, nothing on empty data, refused when closed |
| OutputBuffer.Buffer.LeastPosition | internal/buffer/buffer.go:128-148 | the scan over the readers, in any order, finds the least position any of them needs |
| OutputBuffer.Buffer.MaybeCompact | internal/buffer/buffer.go:128-148 | the in-place compaction is the compaction function |
| OutputBuffer.Buffer.TryRead | internal/buffer/buffer.go:160-263 | one read attempt with its newline loop performs the read step, including end of stream and unknown reader |
| OutputBuffer.Buffer.OffsetMatches | internal/buffer/buffer.go:301-310 | the first lock hold of a positioned write compares with the absolute length |
| OutputBuffer.Buffer.ReadRange | internal/buffer/buffer.go:323-348 | the live positional read, with its relative start and absolute clamp |
| OutputBuffer.Buffer.Seal | internal/buffer/buffer.go:350-355 | closing changes nothing but the flag |
| BufferRuns.ReaderGetsEveryByteOnce | internal/buffer/buffer.go:59-263 | after any history a reader was handed exactly the stream from its registration to its cursor, and all it still needs is retained |
| BufferRuns.DepartedReaderSawOnePiece | internal/buffer/buffer.go:103-263 | a reader that left was handed one gap-free piece |
| BufferRuns.ReadersStartWhereTheyShould | internal/buffer/buffer.go:59-100 | each registration mints a new id and starts at the end, the oldest byte or the other reader's cursor |
| BufferRuns.ClosedIffCloseRan | internal/buffer/buffer.go:350-355 | the buffer is closed exactly when the run contains a close |
| BufferRuns.WritesAndRegistrationsAreAnswered | internal/buffer/buffer.go:59-125 | a write or a registration is refused, changing nothing, exactly when the run contains a close; an accepted write extends the stream by exactly its bytes |
| BufferRuns.RegisteredReaders | internal/buffer/buffer.go:59-107 | a registration adds its new id, leaving takes one away, nothing else does either |
| BufferRuns.ReadsAreAnswered | internal/buffer/buffer.go:160-263 | a read ends exactly for a reader that has everything after a close, waits exactly for one that has everything before it, and otherwise hands out the next bytes its limits allow |
| BufferRuns.EofMeansEverythingDelivered | internal/buffer/buffer.go:160-263 | end of stream is reported only once the closed stream is fully delivered, and nothing follows |
| BufferRuns.ClosedStreamIsFinal | internal/buffer/buffer.go:350-355 | after close no operation adds a byte |
| BufferRuns.LiveReadAgreesWithLog | internal/buffer/buffer.go:277-348 | after any history the live range read equals the log's if and only if the range is servable |
| BufferRuns.LiveReadOfTail | internal/buffer/buffer.go:323-348 | the same for any buffer that holds a suffix of a log |
| BufferRuns.CompactedLastPageOverruns | internal/buffer/buffer.go:331-347 | an unservable page is reachable from every open history without readers, while the log still serves it |
| OutputPipeline.BufferIsPrefixOfLog | internal/session/session.go:1099-1161 | under every interleaving of writers, closes and readers the buffer is a gap-free prefix of the log at the log's offsets |
| OutputPipeline.OnePassedCheckAtATime | internal/buffer/buffer.go:301-310 | at most one goroutine is past its offset check, and it holds the log's next piece |
| OutputPipeline.CheckPassesIffOldest | internal/buffer/buffer.go:301-310 | the offset check passes exactly when no earlier log bytes are outside the buffer |
| OutputPipeline.BufferNeverPassesADroppedChunk | internal/session/session.go:1125-1161 | once a chunk is dropped the buffer never grows past its offset |
| OutputPipeline.LogHoldsEveryAppend | internal/storage/store.go:272-299 | over every run the log is exactly what was appended to it, torn appends included, in order |
| OutputPipeline.BufferTakesEveryOp | internal/session/session.go:1099-1161 | over every run the buffer is exactly what readers, closes and accepted writes made of it, in order |
| OutputPipeline.EndAndFailureStop | internal/session/session.go:1125-1161 | the end of a stream or a failed append stops its goroutine for good |
| OutputPipeline.OneChunkIsTaken | internal/session/session.go:1125-1161 | a goroutine that is let through has logged and buffered its chunk and is ready for the next |
| OutputPipeline.TurnTakingLosesNothing | internal/session/session.go:1099-1161 | goroutines that take turns leave the buffer holding the whole log from its first retained byte |
| OutputPipeline.OverlappingChunksLoseOne | internal/buffer/buffer.go:301-310 | two healthy overlapping writers drop a chunk, and the buffer stays short of the log for good |
| OutputPipeline.LosslessIffSmooth | internal/session/session.go:1099-1161 | over every run every log piece outside the buffer is still in some goroutine's hands if and only if every step was smooth |
| OutputPipeline.NothingIsLostIff | internal/session/session.go:1099-1161 | once nobody holds a chunk, the buffer has taken the whole log if and only if every check was made with no earlier chunk under way, every write found the buffer open and no append was torn |
| MessageLog.DeriveSpans | internal/mcp/handlers.go:649-668 | each span starts at its mark and ends where the next one starts, the last at the end of the log |
| MessageLog.SpansTileTheLog | internal/message/message.go:67-125 | over every run the derived spans start at 0, each ends where the next begins, their slices concatenate to the log, statuses never repeat, and only output spans hold bytes |
| MessageLog.MarksAreTheStatusChanges | internal/message/message.go:92-125 | the marks are exactly the run's status changes, each at the log size when it happened |
| MessageLog.LogIsExactlyTheOutput | internal/storage/store.go:272-299 | the log is the concatenation of the outputs, and marks add nothing to it |
| MessageLog.MarksNeverPointPastTheLog | internal/message/message.go:92-125 | however the two halves of mark calls overlap, no mark points past the log |
| MessageLog.OrderSurvivesIffFresh | internal/message/message.go:92-125 | a late mark keeps the order if and only if its size is not older than the last mark |
| MessageLog.OverlappingMarksLoseOrder | internal/message/message.go:96-102 | an interleaving that puts marks out of order |
| MessageLog.KeyIsInjective | internal/message/message.go:108-125 | the NUL-joined key separates any accepted session and shell pair from every other pair |
| MessageLog.Manager.constructor | internal/message/message.go:33-35 | every transcript starts empty |
| MessageLog.Manager.LogSize | internal/storage/store.go:336-345 | the log's length, 0 without a file |
| MessageLog.Manager.MarkChange | internal/message/message.go:108-125 | one mark per status change, only on this shell; a refused id is an error that still updates the last status |
| MessageLog.Manager.AppendOutput | internal/message/message.go:67-87 | appends and marks as one event, returns the offset the bytes start at, leaves other shells alone |
| MessageLog.Manager.AppendMarkOnly | internal/message/message.go:92-106 | marks at the current end of the log and writes no bytes |
| OutputSource.TakeLastLines | internal/mcp/outputsource.go:252-271 | the backward loop returns the last n lines of its input |
| OutputSource.LastLenIsLastLines | internal/mcp/outputsource.go:249-271 | those start at a line start and hold n lines, or all there are |
| OutputSource.LastLinesAreUnique | internal/mcp/outputsource.go:249-271 | no other suffix does |
| OutputSource.TruncateAtLines | internal/mcp/outputsource.go:162-177 | the forward loop cuts after the maxLines-th newline, as a buffer read would |
| OutputSource.WindowHoldsMoreIff | internal/mcp/outputsource.go:148-157 | a window counts more than n lines exactly when it is longer than the last n lines |
| OutputSource.FindWindow | internal/mcp/outputsource.go:213-233 | the doubling loop ends with the first window longer than the last n-1 lines, or the ceiling, or the stream, and fails exactly when that is more than the source retains |
| OutputSource.ScanTailWindow | internal/mcp/outputsource.go:183-247 | a suffix ending at the stream end, with its true offset and the length fixed by the limits; fails exactly when it must read more than is retained |
| OutputSource.TailWithinLimits | internal/mcp/outputsource.go:183-247 | at most tailLines lines, and at most maxBytes bytes when set |
| OutputSource.TailIsUnique | internal/mcp/outputsource.go:183-247 | the limits determine the result |
| OutputSource.ScanReturnsLastLinesIff | internal/mcp/outputsource.go:228-236 | before a byte cut the result is the last n lines if and only if the final window held more than n lines, was the stream, or held n from a line start |
| OutputSource.ShortTailsAreExact | internal/mcp/outputsource.go:213-236 | last lines that fit the first window are always found |
| OutputSource.LongLineIsCut | internal/mcp/outputsource.go:228-236 | one line longer than the first window comes back cut |
| OutputSource.WindowSizes | internal/mcp/outputsource.go:213-233 | the window is 64 KiB doubled up to 8 MiB and no longer than it has to be |
| OutputSource.TailFillsItsLimit | internal/mcp/outputsource.go:189-211 | without a line count the tail is as long as the limit that applies allows, less the beginning of a cut line |
| OutputSource.ReadPage | internal/mcp/handlers.go:510-530 | a positional read with its two lock holds is the page function, fails exactly when the range is not servable, and is the log's own page on a source that stood still |
| OutputSource.PageIsLogPage | internal/mcp/outputsource.go:162-177 | on a stream that stood still a page is what a reader at that offset would be handed |
| OutputSource.PageIsTheReadersNextRead | internal/mcp/handlers.go:510-530 | after any history a page at a reader's cursor is what that reader's next read returns |
| OutputSource.TrueAskKeepsCollected | internal/mcp/handlers.go:510-530 | a true request extends what was collected, moves on whenever bytes are left, and has_more says whether the length seen was reached |
| OutputSource.OtherAskGoesOffTrack | internal/buffer/buffer.go:323-348 | any other request fails or hands out bytes from another place than its offset |
| OutputSource.PagesConcatenateIff | internal/mcp/handlers.go:510-530 | paging a live shell with any limits, while anything happens to its buffer, collects the stream from the first offset without gap or repeat if and only if every request is a true one when served |
| OutputSource.PagingReachesTheEnd | internal/mcp/handlers.go:510-530 | on a quiet live shell as many true requests as unread bytes reach the end and hold the whole rest |
| OutputSource.LivePagesRepeat | internal/buffer/buffer.go:331-347 | below the retained bytes two consecutive pages hand out the same bytes under different offsets |
| OutputSource.PersistedPagesConcatenate | internal/storage/store.go:351-373 | paging a persisted log with any limits collects it from the first offset without gap or repeat, and as many pages as unread bytes reach its end |
| ApprovalQueue.StepKeepsSound | internal/approval/approval.go:274-325 | every call keeps all requests sound, rewrites none, and adds one only by an accepted submission |
| ApprovalQueue.SubmitsIffOpen | internal/approval/approval.go:274-325 | a submission is accepted exactly when there is something to approve and the queue is open, and the request carries everything submitted and its deadline |
| ApprovalQueue.ExpiresIffDue | internal/approval/approval.go:530-549 | a deadline expires exactly a pending request whose deadline has been reached |
| ApprovalQueue.RejectsIffPending | internal/approval/approval.go:415-433 | a rejection resolves exactly a pending request, with its reason |
| ApprovalQueue.CancelsIffPending | internal/approval/approval.go:437-453 | a cancellation resolves exactly a pending request, with its reason, and never complains |
| ApprovalQueue.UnknownIsNotFound | internal/approval/approval.go:390-453 | a decision on an unknown id changes nothing and is not found, a cancellation is silent |
| ApprovalQueue.CloneIsTheRequest | internal/approval/approval.go:177-186 | the copy handed out is the request in all but the signal |
| ApprovalQueue.RequestsAreNeverRewritten | internal/approval/approval.go:390-561 | over every run payloads and terminal states never change, pending means the signal is open, it closes exactly once, and no more approvals needed means approved |
| ApprovalQueue.RejectedStillNeedsMore | internal/approval/approval.go:167-173 | a rejected request still needs one approval, so needing more does not mean pending |
| ApprovalQueue.ApproveSucceedsIffPending | internal/approval/approval.go:390-413 | an approval goes through exactly when the request is pending, and returns it as submitted |
| ApprovalQueue.OnlyApproveApproves | internal/approval/approval.go:390-561 | nothing but a successful approval makes a pending request approved |
| ApprovalQueue.OneDecisionPerRequest | internal/approval/approval.go:390-561 | however many decisions race, at most one resolves a request, and it is approved exactly when one approval succeeded |
| ApprovalQueue.CloseIsFinal | internal/approval/approval.go:465-486 | whatever runs between and after the two lock holds of a close, nothing is pending from the second on, and what was pending is cancelled |
| ApprovalQueue.StoppedStaysEmpty | internal/approval/approval.go:465-486 | a stopped queue with nothing pending stays so |
| ApprovalQueue.CancelEmpties | internal/approval/approval.go:475-486 | cancelling turns every pending request into a cancelled one |
| ApprovalQueue.CancelEach | internal/approval/approval.go:475-486 | the same requests, with exactly the pending ones cancelled |
| ApprovalQueue.ShellListsAreInSubmissionOrder | internal/approval/approval.go:304-325 | over every run each shell's list holds exactly its accepted ids in submission order |
| ApprovalQueue.ListingIsComplete | internal/approval/approval.go:371-382 | in every reachable state a shell's listing is complete and oldest first |
| ApprovalQueue.ReviewQueue.constructor | internal/approval/approval.go:220-234 | an empty open queue that needs one decision whatever was asked |
| ApprovalQueue.ReviewQueue.SubmitRequest | internal/approval/approval.go:274-325 | performs the submission step, with its refusals of empty, unreadable and late submissions |
| ApprovalQueue.ReviewQueue.ApproveRequest | internal/approval/approval.go:390-413 | performs the approval step |
| ApprovalQueue.ReviewQueue.RejectRequest | internal/approval/approval.go:415-433 | performs the rejection step |
| ApprovalQueue.ReviewQueue.CancelRequest | internal/approval/approval.go:437-453 | performs the cancellation step, silent on unknown or resolved requests |
| ApprovalQueue.ReviewQueue.ExpireRequest | internal/approval/approval.go:530-549 | performs the deadline step, only on a pending request past its deadline |
| ApprovalQueue.ReviewQueue.CancelWaiting | internal/approval/approval.go:475-486 | the loop over all requests, in any order, is the cancelling step |
| ApprovalQueue.ReviewQueue.Close | internal/approval/approval.go:465-473 | stops the queue and leaves nothing pending |
| ApprovalQueue.ReviewQueue.List | internal/approval/approval.go:353-368 | every request exactly once, pending ones first |
| ApprovalQueue.ReviewQueue.ListForShell | internal/approval/approval.go:371-382 | copies of the shell's requests in list order, skipping ids without a request |
| ReviewExecution.ExecutedAtMostOnceAndOnlyIfApproved | internal/webui/approval.go:180-202 | under every interleaving of handlers and queue calls only an approved request is written, to its own shell, and never more than once or out of order |
| ReviewExecution.ChunksAreTheLine | internal/webui/approval.go:251-270 | a command line is executed as its text and then the bytes of its keys, an operation writes nothing to a shell |
| ReviewExecution.FinishedHandlerWroteEverything | internal/webui/approval.go:251-270 | a handler that is done wrote exactly its line's text followed by its keys' bytes |
| ReviewExecution.GivingUpStops | internal/webui/approval.go:239-270 | a handler that gives up writes no more |
| ReviewExecution.RefusedIsNeverExecuted | internal/webui/approval.go:180-202 | a rejected, expired or cancelled request is never written, then or later |
| ShellWrites.WriteStaysWholeIff | internal/webui/approval.go:259-268 | a write keeps a shell's lines whole and in approval order if and only if no later approved line has been written there yet |
| ShellWrites.ShellGetsWholeLines | internal/webui/approval.go:180-202 | in every run without two handlers overlapping on a shell it receives whole lines in approval order, each a beginning of its request |
| ShellWrites.FreshDeskIsInStep | internal/webui/approval.go:180-202 | those runs start from an empty desk |
| ShellWrites.OverlappingHandlersMixLines | internal/webui/approval.go:259-268 | two overlapping handlers land one line inside another |
| CommitOverlap.SubmitKeepsOrderIff | internal/session/approval.go:83-107 | a commit that reaches the queue keeps the typed order if and only if its text commutes with those taken earlier and still under way |
| CommitOverlap.InTurnKeepsOrder | internal/session/approval.go:83-107 | while commits reach the queue in the order they took their text, all text typed is queued, under way or staged, in order |
| CommitOverlap.OverlappingCommitsSwap | internal/session/approval.go:90-106 | two overlapping commits queue their lines in reverse |
| TerminalKeys.CopiesPressed | internal/webui/approval.go:265-269 | executing n copies of a key writes its bytes n times, or nothing for an unknown key |
| TerminalKeys.EnterInEachMode | internal/session/keys.go:12-20 | enter is a return on a terminal and the pipe's own line end otherwise |
| TerminalKeys.OtherKeysByTable | internal/session/keys.go:21-55 | every other key sends exactly its codes, and any other name is unknown |
| TerminalKeys.BlanksDoNotMatter | internal/session/keys.go:11 | blanks around a name do not matter |
| TerminalKeys.CaseDoesNotMatter | internal/session/keys.go:11 | capitals do not matter |
| TerminalKeys.CapitalsAreLowered | internal/session/keys.go:11 | lowering maps exactly the 26 ASCII capitals |
| TerminalKeys.RepeatsAgreeIff | internal/session/session.go:926-952 | reviewed and direct presses write the same exactly for 1 to 20 repeats or an unknown key |
| ReviewMode.SummaryIsReadable | internal/approval/approval.go:583-594 | a line ended by a key always has a summary a reviewer can read |
| ReviewMode.SummaryShowsTheLine | internal/approval/approval.go:583-594 | the summary begins with the text and ends with the keys |
| ReviewMode.RefusalReachesTheQueue | internal/webui/approval.go:180-186 | a rejection, cancellation or deadline reaches the queue as it is and writes nothing |
| ReviewMode.RejectedLineIsNeverWritten | internal/webui/approval.go:180-202 | approving a rejected line changes no shell's input |
| ReviewMode.NothingSentIsLost | internal/session/approval.go:56-107 | over every script of whole calls the submitted lines in order, followed by the staged text, are everything sent to the shell, as text and as bytes |
| ReviewMode.ShellGetsApprovedLines | internal/webui/approval.go:251-270 | over every script of whole calls each shell received exactly its approved lines' bytes in approval order, each once |
| ReviewMode.ReviewIsTransparent | internal/mcp/handlers.go:326-367 | over every script of whole calls approving in submission order gives each shell a prefix of the ungated bytes, and all of them once every line is approved and nothing is staged |
| ReviewMode.LineIsTransparentIff | internal/session/approval.go:83-107 | exactly when one reviewed line writes what the direct calls would |
| ReviewMode.ReviewSession.constructor | internal/session/approval.go:128-160 | a fresh session in review mode with nothing staged |
| ReviewMode.ReviewSession.StageText | internal/session/approval.go:56-78 | performs the staging step |
| ReviewMode.ReviewSession.CommitStaged | internal/session/approval.go:83-107 | the key-building loop and the submission are the committing step |
| ReviewMode.ReviewSession.ApproveAndExecute | internal/webui/approval.go:180-202 | approval and execution together are the approving step |
| ReviewMode.ReviewSession.ExecuteApproved | internal/webui/approval.go:251-270 | appends the text and then the keys' bytes to this shell's input alone |
| ReviewMode.ReviewSession.PressAll | internal/webui/approval.go:265-269 | the key loop writes every key up to an unknown one |
| ApprovalSwitch.DetachedQueueStaysEmpty | internal/session/approval.go:156-185 | once a call that detached a queue has returned, that queue has nothing pending and never will, whatever races with it |
| ApprovalSwitch.OnlyTheAttachedQueueCanBePending | internal/session/approval.go:156-185 | with no switching call under way only the attached queue can hold a pending request |
| ApprovalSwitch.FreshSessionIsSound | internal/session/approval.go:128-160 | a session starts in a state those guarantees cover |
| ApprovalSwitch.EnableAttachesAFreshQueue | internal/session/approval.go:128-169 | turning review on attaches a new empty queue at once, open to submissions |
| ApprovalSwitch.DisableDetaches | internal/session/approval.go:175-185 | turning it off detaches the queue at once |
| ApprovalSwitch.DetachingFinishes | internal/approval/approval.go:465-486 | a call that took a queue away is done with it after two more steps of its own |
| ApprovalSwitch.UndisturbedClosingFinishes | internal/session/session.go:647-673 | a close nobody interferes with takes the attached queue away and is done with it |
| ApprovalSwitch.UseActsOnItsQueue | internal/session/approval.go:196-240 | whoever holds a queue acts on that queue and on no other |
| ApprovalSwitch.ApprovableAfterClosingIff | internal/session/session.go:647-673 | after a beginClosing call is over, a request that was waiting can still be approved if and only if no call is done with its queue; the queue is shut in every continuation if and only if one is; and that is the one call that took it away |
| ApprovalSwitch.SecondCloserReturnsEarly | internal/session/session.go:647-653 | a second closer returns while the waiting request can still be approved |
| ApprovalSwitch.FirstCloserReturnsEarly | internal/session/session.go:659-673 | so does the first closer when a DisableApproval takes the queue from under it |
| ShellHistory.ClosedShellIsAbsentIff | internal/session/session.go:1195-1250 | from the moment the flag is first set, every completion of watcher, closers and terminators leaves the id absent if and only if no terminator then stands between its look and its store |
| ShellHistory.NewShellIsSound | internal/session/session.go:1222-1250 | a new shell is where those runs start |
| ShellHistory.OpenShellStaysRetained | internal/session/session.go:1195-1250 | in every reachable state in which the flag is not set the id is retained, with its final state once the watcher is done; and only a close sets the flag |
| ShellHistory.WatcherAndClosersNeverRetain | internal/session/session.go:1359-1379 | with the watcher and any number of close calls it is always absent |
| ShellHistory.LateTerminatorRetains | internal/session/session.go:1075-1077 | an interleaving in which a late terminator leaves the id behind |
| AnsiCompact.NeedsCompact | internal/ansi/compact.go:62-99 | the scan is true exactly when there is noise, a return, a trailing blank, three newlines in a row or a leading newline |
| AnsiCompact.Compact | internal/ansi/compact.go:14-59 | the loops compute the fast path or the staged slow path |
| AnsiCompact.SlowPathCleans | internal/ansi/compact.go:25-59 | on every input the slow path leaves nothing to clean |
| AnsiCompact.SlowPathIs | internal/ansi/compact.go:25-59 | the slow path is the raw text's lines in one scan, without trailing blanks, joined, without newlines that follow two others, without newlines at the edges |
| AnsiCompact.DropNoiseAppend | internal/ansi/compact.go:26-36 | dropping noise goes byte by byte |
| AnsiCompact.TrimBlanksIs | internal/ansi/compact.go:46 | all trailing blanks go and nothing else |
| AnsiCompact.FoldIsThin | internal/ansi/compact.go:51 | folding keeps exactly the newlines that do not follow two others |
| AnsiCompact.TrimEdgesIs | internal/ansi/compact.go:53-56 | all leading newlines go, the trailing ones exactly when there are two or more |
| AnsiCompact.FastPathSkipsNothingIff | internal/ansi/compact.go:20-22 | on text the fast path lets through the slow path is the identity exactly when the text does not end in a blank line |
| AnsiCompact.CompactIsIdempotent | internal/ansi/compact.go:14-59 | compacting twice is compacting once, on every input |
| AnsiCompact.CompactKeepsTheInk | internal/ansi/compact.go:14-59 | on every input the visible characters of the result are exactly those of the raw text's lines, where a return discards the line so far |
| AnsiCompact.RowIsKeptIff | internal/ansi/compact.go:43-47 | keeping what follows the last return shows the row of a screen exactly when no earlier stretch was longer |
| AnsiCompact.CompactShowsTheScreenIff | internal/ansi/compact.go:14-59 | the result shows what an overwriting screen would show if and only if on no line something visible stands right of the text after the last return |
| AnsiCompact.ShortOverwriteHidesText | internal/ansi/compact.go:43-47 | a short overwrite hides text the screen would still show |
| Socks5.Conn.ReadFull | internal/forward/forward.go:396-454 | a full read takes the next n bytes inside the buffer, or fails at the end of input |
| Socks5.ReadRequest | internal/forward/forward.go:396-449 | the server's reads through one 263-byte buffer compute the request function, with every error case |
| Socks5.ServeConnection | internal/forward/forward.go:362-380 | no reply before the request is read; then code 0 or 1 as the dial went |
| Socks5.ServerReadsRequest | internal/forward/forward.go:396-449 | every well-formed request is read back exactly, and no byte more |
| Socks5.AcceptedIsARequest | internal/forward/forward.go:396-449 | whatever is accepted is such a request followed by what was left unread |
| Socks5.ServerIsCausal | internal/forward/forward.go:396-449 | more input only extends what a waiting server says, and changes nothing once it has ended |
| Socks5.ServerRefuses | internal/forward/forward.go:396-449 | another version, another command and another kind of address are refused, each with its own error and nothing more said |
| Socks5.Handshake | internal/sshclient/proxy.go:86-131 | the client's handshake computes the dialling function, with every error case |
| Socks5.SendAuth | internal/sshclient/proxy.go:140-161 | the user and password exchange, its length limits and its refusals |
| Socks5.SendConnect | internal/sshclient/proxy.go:163-187 | sends the request for the address form of the host, or refuses a long name unsent |
| Socks5.ReadConnectReply | internal/sshclient/proxy.go:189-220 | accepts a zero code and skips the bound address in each form |
| Socks5.AddressIsRecovered | internal/sshclient/proxy.go:163-180 | the address form names the same host, IPv4-mapped ones included |
| Socks5.ClientReadsReply | internal/sshclient/proxy.go:189-220 | of this server's reply the client reads all on code 0 and four bytes otherwise |
| Socks5.HandshakeAgrees | internal/sshclient/proxy.go:86-138 | for every host and port the two ends feed each other to the end: the server learns exactly the target, each reads the other's bytes, and the client succeeds exactly on code 0 |
| Socks5.GreetingOffers | internal/sshclient/proxy.go:133-138 | the client offers a login exactly when it has a user name |
| Socks5.LoginIsRecovered | internal/sshclient/proxy.go:140-152 | what the client sends is read back as its user name and its password |
| Socks5.LoginSucceedsIff | internal/sshclient/proxy.go:140-161 | a login succeeds exactly on the answer [1, 0] |
| Socks5.LoginHandshakeAgrees | internal/sshclient/proxy.go:86-131 | a server that asks for a login gets it before exactly the same request |
| Socks5.ReplyIsSkipped | internal/sshclient/proxy.go:189-220 | a success with a bound address of any kind is accepted, and exactly that address and its port are skipped |
| Socks5.AcceptedIsASuccess | internal/sshclient/proxy.go:189-220 | nothing else is accepted |
| Socks5.ClientRefusesReply | internal/sshclient/proxy.go:189-213 | another version, a failure code and an unknown kind of address each give their own error |
| Socks5.ClientRefusesEarly | internal/sshclient/proxy.go:93-101 | a port out of range is refused before a word is said, a name too long before the request |
| DuplexConn.ReadTakesTheNextBytes | internal/sshserver/server.go:86-106 | a read of any size moves the next bytes to the reader, and ends only on a closed empty channel |
| DuplexConn.ReadIsAnswered | internal/sshserver/server.go:86-106 | a read waits exactly when nothing is left, queued, sealed or closed, ends exactly on a sealed empty channel, and otherwise hands out as much of the next piece as fits |
| DuplexConn.Reader.Read | internal/sshserver/server.go:86-106 | the in-place read copies those bytes, keeps the rest, touches no other byte of the caller's buffer, and waits exactly when nothing is ready |
| DuplexConn.FaithfulByteQueue | internal/sshserver/server.go:77-155 | in every interleaving read, leftover and queued bytes are the successfully written ones in order, at most 16 chunks are queued, and no send or close hits a closed channel |
| DuplexConn.OpenWriteGoesThrough | internal/sshserver/server.go:108-129 | a write that finds the connection open and room in the channel goes through |
| DuplexConn.OpenWriteWaits | internal/sshserver/server.go:121-128 | on an open connection a write is never given up, and on a full channel it waits |
| DuplexConn.ClosedWriteIsRefused | internal/sshserver/server.go:117-120 | a write after the close is refused and nothing is sent |
| DuplexConn.ClosedByItsOwnCall | internal/sshserver/server.go:131-139 | each end is closed exactly by its own close call |
| DuplexConn.ClosedReaderNeverWaits | internal/sshserver/server.go:92-105 | a reader whose own end was closed never waits |
| DuplexConn.EndMeansEverythingRead | internal/sshserver/server.go:86-143 | end of file comes only after everything was read, and nothing is sent after it |
| DuplexConn.CloseAlwaysFinishes | internal/sshserver/server.go:108-143 | a close that has begun can finish without the peer, even behind a writer blocked on a full channel |
| Notify.AddStaysConsistent | internal/notify/manager.go:177-203 | registering keeps the three indexes describing one rule set |
| Notify.RemoveStaysConsistentIff | internal/notify/manager.go:220-244 | removing a rule keeps them so if and only if it is the shell's last rule, has no session, or shares its session with another rule of the shell |
| Notify.OneOwnerIsSafe | internal/notify/manager.go:220-244 | with one session per shell that is always so |
| Notify.SharedShellLeavesStaleEntry | internal/notify/manager.go:220-244 | two sessions on one shell leave a stale entry after every rule is gone |
| Notify.IndexIsDetermined | internal/notify/manager.go:177-203 | the rules determine both indexes |
| Notify.RunStaysConsistent | internal/notify/manager.go:177-293 | over every run of all operations with one session per shell the three indexes describe the same rules, with no empty entry |
| Notify.RulesAfterStep | internal/notify/manager.go:153-293 | registering adds the rule, and every other operation takes away exactly its rules |
| Notify.NormalisedWaits | internal/notify/manager.go:162-177 | a silence rule waits 1 to 300 seconds, 3 by default, other rules keep none, and output is the default event |
| Notify.EmptyIsGood | internal/notify/manager.go:134-148 | those runs start from an empty manager |
| Notify.RunSends | internal/notify/manager.go:448-462 | what a run sends is what the gate lets through of its attempts, whatever happens in between |
| Notify.RunSendsAreSpaced | internal/notify/manager.go:448-462 | in every run any n + 1 sends span at least n cooldowns |
| Notify.SendsAreSpaced | internal/notify/manager.go:448-462 | n + 1 sends span at least n cooldowns |
| Notify.DropsAreExcused | internal/notify/manager.go:448-462 | a dropped attempt comes within a cooldown of a send |
| Notify.Manager.constructor | internal/notify/manager.go:134-148 | no rules, nothing sent |
| Notify.Manager.Register | internal/notify/manager.go:153-208 | adds the normalised rule and keeps right whichever indexes were right, or refuses and changes nothing |
| Notify.Manager.RemoveRule | internal/notify/manager.go:222-244 | the in-place removal is the removal function |
| Notify.Manager.Unregister | internal/notify/manager.go:210-220 | removes exactly that rule and is the removal function; keeps the shell index, and with one session per shell all indexes |
| Notify.Manager.ClearShell | internal/notify/manager.go:262-275 | removes exactly the shell's rules, in any order, and keeps the shell index; with one session per shell all indexes, as the run's step does |
| Notify.Manager.ClearSession | internal/notify/manager.go:278-293 | removes exactly the rules of the shells its entry names; with one session per shell those are the session's rules and all indexes are kept |
| Notify.Manager.Dispatch | internal/notify/manager.go:448-462 | sends exactly when the gate passes, and drops a one-shot rule either way |
| SessionHub.Hub.Register | internal/webui/session_list_sse.go:18-31 | a fresh client with nothing pending |
| SessionHub.Hub.Unregister | internal/webui/session_list_sse.go:26-30 | forgets that client alone |
| SessionHub.Hub.Broadcast | internal/webui/session_list_sse.go:33-47 | leaves exactly one wake-up pending for every client |
| SessionHub.VersionCountsChanges | internal/webui/ws.go:101-113 | a version counts the registry's changes |
| SessionHub.BroadcastAnnouncesItsStart | internal/webui/session_list_sse.go:33-47 | a broadcast announces the version it started with |
| SessionHub.TurnLeavesAWakeUp | internal/webui/session_list_sse.go:36-46 | each client's turn drains its slot and leaves one wake-up pending |
| SessionHub.TabsComeAndGo | internal/webui/session_list_sse.go:18-31 | a tab joins with nothing pending, and one that leaves is forgotten |
| SessionHub.NoLostWakeUp | internal/webui/ws.go:101-113 | in every interleaving a waiting tab with nothing pending has a list at least as new as the last announced change |
| SessionHub.QuietTabsAreCurrent | internal/webui/ws.go:101-113 | between broadcasts a waiting tab is up to date or can wake and pull the newest list |

## Left out

- Blocking and wake-ups of `ReadLimited` and `Wait`, timers and deadlines as real time: an attempt is one step, time is an input.
- Fresh ids (uuid) are a precondition of the calls that take one.
- OutputBuffer.Buffer.ReadRange: Go's slicing past a slice's length, up to its capacity, is one outcome of its own (`Overrun`); the stale bytes it might return are not modelled.
- File errors in the middle of reads, a missing store, manifests, restart restore and the JSON form of marks; a failed log append is modelled as any prefix reaching the file.
- MessageLog.Manager.MarkChange: errors of the mark file after an accepted id are not modelled.
- MessageLog.Manager.AppendOutput: errors of the log and mark files are not modelled here; `OutputPipeline` has torn appends.
- MessageLog.Manager.AppendMarkOnly: a failing size lookup is not modelled.
- MessageLog.SpansTileTheLog: runs are of whole calls; `MarksNeverPointPastTheLog` and `OrderSurvivesIffFresh` are about overlapping ones.
- OutputSource.ScanTailWindow: the stream stands still while the windows are read.
- OutputSource.ReadPage: the cleaning of the returned text for display; see `AnsiCompact`.
- ReviewMode: shells are running, input is text of characters, and stdin is an abstract string; the order of the transcript marks written beside it is not modelled. A negative repeat makes the original's slice allocation panic; the model gives it no keys.
- ReviewMode.NothingSentIsLost: runs are of whole calls; `CommitOverlap` has the two locks of a commit.
- ReviewMode.ShellGetsApprovedLines: runs are of whole calls; `ShellWrites` has the separate writes of an execution.
- ReviewMode.ReviewIsTransparent: runs are of whole calls, for both reasons.
- ReviewMode.ReviewSession.CommitStaged: its two locks are one step here, as above.
- ReviewMode.ReviewSession.ApproveAndExecute: the approval and the writes are one step here, and no write fails; `ReviewExecution` has both.
- ReviewMode.ReviewSession.ExecuteApproved: a write refused midway is in `ReviewExecution` only.
- ApprovalSwitch: text staged in a queue state that is being detached is not modelled; a submission is one operation on whatever queue its caller holds.
- ApprovalQueue.ReviewQueue.CancelWaiting: returns no snapshots for the observers.
- ShellHistory: the process, its pipes and the other maps a close updates.
- `resolveOutputSource`, locators and the choice between live and persisted sources.
- `ansi.Strip`: one regular expression.
- AnsiCompact.CompactShowsTheScreenIff: on the screen of the model a tab is one cell and rows do not wrap; backspace and other control characters are dropped before, as in the code, although a terminal would obey them.
- Socks5.Handshake: takes the user name already trimmed and the target already split and parsed (a host is an IP in 16-byte form or a name); deadlines and the copying after the handshake are left out.
- Socks5.SendAuth: takes the user name already trimmed.
- DuplexConn.Reader.Read: there is one reader per end, as the read buffer has no lock.
- Notify.Manager.ClearSession: its lock holds are taken as one call; rules' timers and delivery to clients are not modelled.
- SSH dialling, bastion chains, PTY and process handling, SFTP, forwards, the operation gate for files and forwards, HTTP, MCP and WebSocket transport, configuration, the browser side.
