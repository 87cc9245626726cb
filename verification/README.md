# Glendronach, verified

A Dafny model of the hard core of Glendronach, an NVMe miniport driver for Windows, with proofs.
`dafny verify dfyconfig.toml` checks all of it with Dafny 4.11.

## What is modelled

**The queue pair.** `QueueProtocol` is a transition system with both ends of a submission and a
completion ring: `SubmitCmd`, `CompleteCmd` and `ResetAllCmd` cut into their accesses to shared state and interleaved
in every way the submission lock allows, and a controller that fetches, finishes commands in any order and posts. All indices, doorbells, phase tags and the counter are kept as the machine
keeps them. A log beside them counts without wrapping; the properties compare the two.

What concerns the table, the counter and the completions of requests is proved for every run. The rings also depend
on what the driver cannot enforce; `Orderly` says it, step by step, and the theorems about the rings ask for it.
Without a reset it only means that the controller does not post to a full completion ring (`RoomIsOrder`). With
resets it means besides that a reset comes while `CompleteCmd` is not running and the controller owes less
than a lap, and that completions owed from before a reset are posted before later ones. Such a reset is one step,
whatever the controller does meanwhile (`ResetMeanwhile`).

- `Ring`: free-running positions, slots, laps and phases.
- `QueueModel`: what each operation makes of the driver's half of the pair, as functions on values.
- `QueueRings`, `QueueRequests`, `QueueTable`: the inductive invariants, one concern each.
- `QueueTheorems`: what holds after every run, for every depth and table size.
- `QueueRefinement`: a whole `SubmitCmd` or `CompleteCmd` is a run of the protocol.
- `QueueConsume`: what a whole `CompleteCmd` takes in, and that it leaves nothing behind.
- `QueueReset`: when nothing of `CompleteCmd` comes between, the accesses of a reset come to one step.
- `QueueCalls`: any sequence of whole calls, with a controller that works between them.
- `QueueRace`: what goes wrong because `CompleteCmd` takes no lock, and exactly when.
- `QueueRuns`: runs from the start that get there, and the other failures named below.
- `NvmeQueue.dfy`: `CNvmeQueue`, `CCmdHistory` and the SRB extension as classes; their methods are proved
  to do what the functions of `QueueModel` say, and a queue that has been set up is a
  starting point of the protocol. `WholeCallsTheorem` is therefore about the classes, used by whole calls
  one after the other. That the methods, cut at their accesses, are the steps of the protocol is not proved:
  the interleaved runs follow the source, not the classes.

**The data path.** `PrpBuilder` proves the PRP builder against the walk a controller makes (NVMe 1.3,
section 4.3). `ReadWrite` follows READ and WRITE from the CDB to the NVMe command and into a queue. `QueueLayout` is
the division of a queue's memory block.

**The control path.** `Controllers` has the poll loops and the enable/disable handshake, against a controller
that is an arbitrary function of time; `NvmeDevices` the I/O queues of a device, their registration and dispatch.
`ModePages` is MODE SELECT(6) and MODE SENSE(6).

## What turned out not to hold, and when it does

- The throttle bounds the commands in flight for a depth of 8 or more. For a smaller depth the unsigned difference
  wraps and nothing is held back (`ThrottleMeans`, `ThrottleWraps`), and one command more than there are entries
  overwrites one the controller has not read (`OverrunBelowEight`).
- `SubmitCmd` evicts a request that has the tag of the new one without looking whether it is still there, and
  `CompleteCmd` takes no lock. A null pointer is used exactly when the completion routine has taken the request
  out after the push was refused (`EvictionRaceTheorem`), which can happen in every queue of ten or more entries
  (`NullPointerRace`), not in one of eight or nine (`SmallQueuesTheorem`), and never happens before a reset
  while tags are not reused (`FreshTagsTheorem`).
- `ResetAllCmd` does not wait for `CompleteCmd` either. `CCmdHistory::Reset` looks at a slot, completes the request in
  it and then stores null. Every request is completed once if and only if `CompleteCmd` does not take it out of
  its slot between that completion and that store; if it does, the request is completed twice
  (`ExactlyOnceTheorem`, `ClearRaceTheorem`, `DoubleCompletionRun`). If it takes it out between the look and the
  completion, the reset uses a null pointer, and only then (`TellRaceTheorem`, `ResetNullPointerRun`).
- After the table the reset sets the counter. It stays right exactly when that store does not come between the two
  halves of a completion (`ResetCountsTheorem`). If it comes after a request is taken out and before the
  decrement, the counter ends at -1, its cast to 16 bits closes the throttle, and every `SubmitCmd`
  is refused until the next reset (`ResetInCompletion`, `StuckForever`); one request is enough for that in
  every queue of nine or more entries (`ResetRace`). If it comes before the step of the head, the head ends
  one entry beyond the tail (`ResetBeforeHead`), and the next completion is not seen (`UnseenCompletionRun`).
- An eviction completes the old request but not its command: the late completion goes to the new request with that
  tag (`MisattributionRun`). Other tags are not affected (`AttributionTheorem`). Each eviction also takes an
  entry from the throttle until the next reset (`EvictionsCostTheorem`), so that a single request in the table can be
  all the queue takes (`EvictionsFillTheQueue`).
- `CompleteCmd` keeps the request of the previous entry in a variable that a tag outside the table leaves
  alone: that request is then completed again. A pass keeps requests exactly when the tag is in range or
  nothing is left over (`ConsumeBalance`).
- The range check wraps in 64 bits. It is right exactly when the sum does not wrap, or wraps beyond the
  end of the namespace (`RangeCheckExact`); for no blocks it compares only the offset (`RangeCheckNoBlocks`).
- The 16-bit NLB field keeps the number of blocks exactly from 1 to 65536; a READ or WRITE(10/12/16) of no blocks
  becomes one of 65536 (`BlocksKeptExact`).
- The result of `BuildPrp` is not looked at when a read or write is built: without memory for a list that is
  needed, the command goes out with PRP2 = 0 (`BuildCmdReadWrite`).
- One page of PRP entries is enough for every buffer exactly up to 2 MB and one byte (`ListBound`). The code does not compare.
- `InitController` takes "not ready" for "disabled". All its register writes are allowed, and the machine is not
  stopped, exactly when EN was clear or the first look found the controller ready; the machine is stopped exactly
  when the second look finds it ready after the first did not (`NvmeDevice.InitController`). With EN set and RDY not
  yet there it writes the admin queue registers of an enabled controller (`InitWhileEnabled`).
- `RegisterIoQueues` reports success when the controller refuses a queue. If it refuses the first, no queue is
  registered and the next I/O command divides by zero (`NvmeDevice.RegisterIoQueues`, `NvmeDevice.SubmitIoCmd`).
- The check in `InitQueueBuffer` leaves out the rounding to pages. It is right for the size that
  `CalcQueueBufferSize` computes; for other sizes the method says exactly when. It is right for every size exactly
  for depths that are a multiple of 64 (`InitQueueBuffer`, `UnroundedCheck`).

## Model

| member | source | states |
|---|---|---|
| QueueTheorems.PhaseTagTheorem | src/SpcNvme/NvmeQueue.cpp:213-252 | In every reset-free run, for every depth and a controller that never posts to a full ring, the entry at the head has the current phase exactly when the controller posted it and it is not consumed; what CompleteCmd accepts is the posted stream, in order, without gaps or repetitions |
| QueueTheorems.SubmissionFifoTheorem | src/SpcNvme/NvmeQueue.cpp:163-202 | Without resets the controller has fetched the submitted commands in order and the others wait in their slots; S - F <= Depth - 8 at every step, P - C <= Depth - 8 except between a decrement and the step of the head, and outside CompleteCmd the completion ring is never full |
| QueueTheorems.InflightTheorem | src/SpcNvme/NvmeQueue.cpp:178-238 | In every run, whatever the controller posts and wherever a reset falls, for every depth: InflightCmds is the occupied slots, what a reset under way has cleared, and the evictions; and the unconsumed submissions plus entries that found nothing; up to the operation under way and to what was under way in CompleteCmd when the last reset set the counter |
| QueueTheorems.ThrottleTheorem | src/SpcNvme/NvmeQueue.cpp:279-282 | From depth 8 on, in every run the counter is at most Depth - 8, below zero only by a request taken out before it was counted and a reset in the middle of a completion, and the throttle is open exactly from 0 to Depth - 9 |
| QueueTheorems.OrderlyCounterTheorem | src/SpcNvme/NvmeQueue.cpp:171-199 | In orderly runs the counter is never negative, bounds S - C, and the cast to USHORT loses nothing |
| QueueTheorems.ResetCountsTheorem | src/SpcNvme/NvmeQueue.cpp:203-212 | The store to the counter, after the table is empty, is what decides: it agrees with the table exactly when no request is then taken out and still counted, and with the rings exactly when none is uncounted with the head still to move |
| QueueTheorems.EvictionsCostTheorem | src/SpcNvme/NvmeQueue.cpp:179-198 | In every run, unless the last reset caught a request still counted: the throttle is open at rest exactly while the table holds less than Depth - 8 less the evictions since the last reset, of which there are always fewer than Depth - 8 |
| QueueTheorems.ExactlyOnceTheorem | src/SpcNvme/NvmeQueue.cpp:424-466 | In every run, for every depth, with the accesses of resets anywhere and the controller answering what it fetched in any order: a request is completed as often as it was accepted, less the times it is in the table or in the hands of CompleteCmd or of the SubmitCmd that evicts it, if and only if CompleteCmd never took it out between its completion by a reset and the store of null; each time it did adds one completion |
| QueueTheorems.AttributionTheorem | src/SpcNvme/NvmeQueue.cpp:226-236 | In orderly runs, tag by tag while that tag was not reused since the last reset and nothing overwritten: its slot holds exactly its outstanding submission, and each completion entry with that tag was handed to the request whose command it answers; with all tags clean no entry found its slot empty |
| QueueTheorems.RefusalTheorem | src/SpcNvme/NvmeQueue.cpp:176-179 | For a tag that was not evicted since the last reset, the first push is refused exactly when a submission with that tag is outstanding |
| QueueTheorems.EvictionTheorem | src/SpcNvme/NvmeQueue.cpp:182-185 | In terms of submissions, for the first eviction of a tag since a reset: what is evicted is the request of the outstanding submission with that tag; a null pointer is used exactly when none is outstanding any more |
| QueueTheorems.RepushTheorem | src/SpcNvme/NvmeQueue.cpp:187-188 | In every run the second push, whose status is not looked at, succeeds, whatever CompleteCmd does in between |
| QueueTheorems.FreshTagsTheorem | src/SpcNvme/NvmeQueue.cpp:224-248 | In a reset-free run whose tags are not reused while outstanding nothing is evicted, no null pointer is used and every delivery is correctly attributed |
| QueueRace.EvictionRaceTheorem | src/SpcNvme/NvmeQueue.cpp:178-185 | From any state, after any history: the eviction after a refused push uses a null pointer exactly when CompleteCmd takes out that slot in between, and otherwise evicts the request that refused the push |
| QueueRace.TellRaceTheorem | src/SpcNvme/NvmeQueue.cpp:429-433 | From any state, after any history: a reset that found a slot occupied uses a null pointer exactly when CompleteCmd takes out that slot before the completion, and otherwise completes the request it saw |
| QueueRace.ClearRaceTheorem | src/SpcNvme/NvmeQueue.cpp:433-434 | From any state, after any history: between the completion by a reset and the store of null the request is completed once too often exactly when CompleteCmd takes out that slot |
| QueueRuns.NullPointerRace | src/SpcNvme/NvmeQueue.cpp:179-185 | In every queue pair of ten or more entries there is a run from its start in which the eviction uses a null pointer |
| QueueRace.SmallQueuesTheorem | src/SpcNvme/NvmeQueue.cpp:171-185 | With 8 or 9 entries nothing is ever evicted, unless the last reset set the counter while a request was taken out and still counted |
| QueueRuns.RaceLost | src/SpcNvme/NvmeQueue.cpp:182-185 | It can happen whenever the completion of the request to be evicted is next in the ring |
| QueueRuns.MisattributionRun | src/SpcNvme/NvmeQueue.cpp:179-188 | In every ready queue pair of ten or more entries a run in which an evicted request ends as busy and its completion is handed to the request that evicted it |
| QueueRuns.DoubleCompletionRun | src/SpcNvme/NvmeQueue.cpp:424-437 | In every ready queue pair of nine or more entries a run in which one request, accepted once, is completed by a reset and again by CompleteCmd |
| QueueRuns.ResetNullPointerRun | src/SpcNvme/NvmeQueue.cpp:429-433 | And one in which the reset uses a null pointer |
| QueueRuns.EvictionsFillTheQueue | src/SpcNvme/NvmeQueue.cpp:179-198 | In every ready queue pair of nine or more entries a run that closes the throttle with one request in the table |
| QueueRace.ResetInCompletion | src/SpcNvme/NvmeQueue.cpp:203-238 | A reset between the completion of a request and its decrement ends with the counter at -1 and, from depth 8 on, the throttle closed |
| QueueRace.StuckForever | src/SpcNvme/NvmeQueue.cpp:279-282 | From there every SubmitCmd is refused as busy in every run without a further reset |
| QueueRuns.ResetRace | src/SpcNvme/NvmeQueue.cpp:203-238 | In every ready queue pair of nine or more entries a run with one request and one reset gets there |
| QueueRace.ResetBeforeHead | src/SpcNvme/NvmeQueue.cpp:203-242 | A reset between the decrement and the step of the head leaves the head one entry beyond the tail |
| QueueRuns.UnseenCompletionRun | src/SpcNvme/NvmeQueue.cpp:203-249 | In every ready queue pair of nine or more entries a run that ends that way: the controller has answered, the request is in the table, and the head does not see a new entry |
| QueueReset.ResetIsItsSteps | src/SpcNvme/NvmeQueue.cpp:203-212 | The accesses of a reset without interruption have the result of the whole reset at once |
| QueueReset.ResetMeanwhile | src/SpcNvme/NvmeQueue.cpp:203-212 | With a controller at work in between, a reset has the result of the whole reset at once followed by the controller's steps |
| QueueRuns.OverrunBelowEight | src/SpcNvme/NvmeQueue.cpp:171-200 | In every ready queue pair of fewer than eight entries, one SubmitCmd more than there are entries overwrites an entry that was not fetched |
| QueueTheorems.NoOverrunTheorem | src/SpcNvme/NvmeQueue.cpp:171-174 | From depth 8 on, without a reset no entry is overwritten before the controller has fetched it |
| QueueTheorems.FastForwardTheorem | src/SpcNvme/NvmeQueue.cpp:203-212 | In every state an orderly run reaches between calls the reset loop runs once per outstanding command and leaves the head on the tail with the phase of that position |
| QueueTheorems.OwedTheorem | src/SpcNvme/NvmeQueue.cpp:171-212 | The throttle bounds what the controller owes: at most Depth - 8 completions once those from before an earlier reset are posted, so the condition on a reset is met between two calls of CompleteCmd |
| QueueTheorems.LateCompletionsTheorem | src/SpcNvme/NvmeQueue.cpp:224-247 | In orderly runs completions owed from before a reset never look new; whatever the head accepts answers a command submitted after the last reset |
| QueueRefinement.SubmitIsARun | src/SpcNvme/NvmeQueue.cpp:163-202 | A SubmitCmd that succeeds is a run of the protocol with the same driver state and the same completions, with or without an eviction |
| QueueRefinement.CompleteIsARun | src/SpcNvme/NvmeQueue.cpp:213-252 | A CompleteCmd is a run of the protocol with the same driver state and the same completions |
| QueueConsume.CompleteTakesIn | src/SpcNvme/NvmeQueue.cpp:213-252 | CompleteCmd takes in every posted entry that is not consumed, or as many as its bound allows, in order: each empties the slot of its tag and completes the request in it with its status; head, phase, SubHead and counter move by exactly these, and the doorbell is rung with the new head if there were any |
| QueueConsume.NothingLeftTheorem | src/SpcNvme/NvmeQueue.cpp:213-252 | After every orderly run, a whole CompleteCmd(0) leaves no posted entry unconsumed, and every request answered since the last reset under a clean tag is completed with the status of its answer |
| QueueCalls.WholeCallsTheorem | src/SpcNvme/NvmeQueue.cpp:163-252 | From a queue that was set up, over every sequence of whole SubmitCmd, CompleteCmd and ResetAllCmd calls, and whatever the controller fetches and answers between them: each request is completed as often as it was accepted less the times it is in the table, and the counter covers the table and, from depth 8 on, leaves eight entries |
| QueueCalls.CallIsARun | src/SpcNvme/NvmeQueue.cpp:163-252 | Every call, refused or not, is a run of the protocol with the same driver, rings, controller, acceptances and completions |
| QueueRefinement.RejectedSubmit | src/SpcNvme/NvmeQueue.cpp:168-191 | The status of SubmitCmd exactly: not ready, busy, no such slot, or success, in this order; a refused one changes and completes nothing |
| QueueRequests.ConsumeBalance | src/SpcNvme/NvmeQueue.cpp:226-241 | A pass of CompleteCmd neither loses nor repeats a request exactly when the tag is in range or no request is left over from the pass before |
| QueueRequests.CompleteBalance | src/SpcNvme/NvmeQueue.cpp:213-249 | With all tags in range a call completes what it takes out of the table, once each |
| QueueRequests.ResetCompletesHeld | src/SpcNvme/NvmeQueue.cpp:424-437 | A reset completes exactly the requests in the table, each as a bus reset |
| QueueRequests.PutBalance | src/SpcNvme/NvmeQueue.cpp:178-189 | A push completes the request it evicts and no other |
| QueueRequests.ThrottleMeans | src/SpcNvme/NvmeQueue.cpp:279-282 | For depths from 8 on the wrapped difference is the plain one, and the 16-bit cast closes the throttle for a negative counter |
| QueueRequests.ThrottleWraps | src/SpcNvme/NvmeQueue.cpp:279-282 | For depths below 8 the throttle lets everything pass |
| QueueRings.HeadEntry | src/SpcNvme/NvmeQueue.cpp:57-62 | The ring invariants make the phase test exact, across resets |
| QueueRings.FastForwardCount | src/SpcNvme/NvmeQueue.cpp:208-211 | With less than a lap outstanding the reset loop runs once per outstanding command |
| QueueRings.NotFull | src/SpcNvme/NvmeQueue.cpp:250-251 | The controller's test on wrapped indices sees the ring as full exactly one entry early |
| QueueTable.HeadOwner | src/SpcNvme/NvmeQueue.cpp:226-230 | The tag of the next entry leads to the request that submitted its command |
| QueueTable.LateOnes | src/SpcNvme/NvmeQueue.cpp:203-212 | By counting: positions from the last reset on answer later commands |
| Ring.Next | src/SpcNvme/NvmeQueue.cpp:63-74 | Incrementing a wrapped index moves to the slot of the next position, and the phase flips exactly on the wrap |
| NvmeQueueObjects.SrbExt.Init | src/SpcNvme/SrbExt.cpp:16-25 | A new SRB extension is pending and holds no PRP list |
| NvmeQueueObjects.SrbExt.CompleteSrb | src/SpcNvme/SrbExt.cpp:41-50 | Storport is notified once, and only if there is an SRB |
| NvmeQueueObjects.SrbExt.CleanUp | src/SpcNvme/SrbExt.cpp:27-35 | The external buffer and the PRP list are given back |
| NvmeQueueObjects.CmdHistory.Push | src/SpcNvme/NvmeQueue.cpp:438-450 | Fills a free slot, refuses a taken one and a tag out of range |
| NvmeQueueObjects.CmdHistory.Pop | src/SpcNvme/NvmeQueue.cpp:451-466 | Empties the slot and hands out its request; out of range the caller's variable keeps its value |
| NvmeQueueObjects.CmdHistory.Reset | src/SpcNvme/NvmeQueue.cpp:424-437 | Every request in the table is completed with a bus reset, in slot order, and the table is empty |
| NvmeQueueObjects.NvmeQueue.Setup | src/SpcNvme/NvmeQueue.cpp:104-156 | A queue that is set up is an initial state of the protocol |
| NvmeQueueObjects.NvmeQueue.PushRequest | src/SpcNvme/NvmeQueue.cpp:178-191 | The request is in its slot; one that was there is completed as busy, the others keep their status |
| NvmeQueueObjects.NvmeQueue.EnterRing | src/SpcNvme/NvmeQueue.cpp:193-199 | Copy, count, tail and doorbell, as the protocol has them |
| NvmeQueueObjects.NvmeQueue.SubmitCmd | src/SpcNvme/NvmeQueue.cpp:163-202 | Status, queue state and notifications are those of the protocol's SubmitCmd |
| NvmeQueueObjects.NvmeQueue.UpdateCplHeadAndPhase | src/SpcNvme/NvmeQueue.cpp:63-74 | The protocol's head step |
| NvmeQueueObjects.NvmeQueue.ConsumeEntry | src/SpcNvme/NvmeQueue.cpp:226-244 | One pass of the loop: the request found gets the entry, its status and its notification; no other request changes |
| NvmeQueueObjects.NvmeQueue.ConsumeArrived | src/SpcNvme/NvmeQueue.cpp:224-248 | The loop ends in the state, with the completions and the count of the protocol's loop |
| NvmeQueueObjects.NvmeQueue.CompleteCmd | src/SpcNvme/NvmeQueue.cpp:213-252 | Queue state and notifications are those of the protocol's CompleteCmd |
| NvmeQueueObjects.NvmeQueue.MoveHeadToTail | src/SpcNvme/NvmeQueue.cpp:208-211 | The reset loop terminates with the head on the tail |
| NvmeQueueObjects.NvmeQueue.ResetAllCmd | src/SpcNvme/NvmeQueue.cpp:203-212 | Queue state and notifications are those of the protocol's reset |
| QueueLayout.QueueBuffer.InitQueueBuffer | src/SpcNvme/NvmeQueue.cpp:338-369 | When the check passes, when the two rings are then aligned, disjoint and inside the block, and that both hold for the computed size |
| QueueLayout.CalculatedSizeFits | src/SpcNvme/NvmeQueue.cpp:2-7 | The computed size is that of the two rings, each rounded to pages; it passes the check and has room for both, for every depth |
| QueueLayout.UnroundedCheck | src/SpcNvme/NvmeQueue.cpp:355-356 | The check is right for every size exactly when the commands fill whole pages; for every other depth a block of the bare size of the rings passes and is too small |
| PrpBuilder.PrpCoverage | src/SpcNvme/NvmePrpBuilder.cpp:44-82 | A controller that walks PRP1 and PRP2 or the list touches the physical address of every byte of the buffer, in order |
| PrpBuilder.WalkListIsImage | src/SpcNvme/NvmePrpBuilder.cpp:19-42 | The walk over a list covers the pages the list was made for |
| PrpBuilder.ListBound | src/SpcNvme/NvmePrpBuilder.cpp:70-79 | One list page is enough for every buffer of a size exactly up to TX_SIZE + 1 |
| PrpBuilder.GetDistanceToNextPage | src/SpcNvme/NvmePrpBuilder.cpp:3-6 | Between one byte and a page, to a page boundary |
| PrpBuilder.BuildPrp2List | src/SpcNvme/NvmePrpBuilder.cpp:19-42 | Writes exactly the entries the size needs, one page after the other, and no entry beyond |
| PrpBuilder.FillListPage | src/SpcNvme/NvmePrpBuilder.cpp:75-78 | Every entry has page offset 0, and entries that are not needed are 0 |
| PrpBuilder.BuildPrp | src/SpcNvme/NvmePrpBuilder.cpp:44-82 | For every buffer, size and page map the command leads over the whole buffer, or the list could not be allocated and PRP2 is as before |
| NvmeDevices.BuildCmdRegIoCplQ | src/SpcNvme/NvmeCmdBuilder.cpp:94-110 | A Create I/O Completion Queue command for the pair, with its own interrupt vector, 0 for the admin queue |
| NvmeDevices.BuildCmdRegIoSubQ | src/SpcNvme/NvmeCmdBuilder.cpp:77-93 | A Create I/O Submission Queue command that completes to the CQ of the same pair |
| NvmeDevices.RangeCheckExact | src/SpcNvme/NvmeDevice.cpp:800-809 | When the range check accepts exactly the intervals inside the namespace |
| NvmeDevices.RangeCheckNoBlocks | src/SpcNvme/NvmeDevice.cpp:800-809 | What the check makes of a request for no blocks |
| NvmeDevices.NvmeDevice.CreateIoQ | src/SpcNvme/NvmeDevice.cpp:1246-1275 | The queues stay a prefix with identifiers index + 1; success exactly when the memory of all missing ones can be had; new queues are new objects, ready and empty, with the addresses of their own two rings; existing queues stay |
| NvmeDevices.NvmeDevice.DeleteIoQ | src/SpcNvme/NvmeDevice.cpp:1276-1290 | No queue is left, and the counter is 0 |
| NvmeDevices.NvmeDevice.RegisterPair | src/SpcNvme/NvmeDevice.cpp:824-864 | No Create-SQ before the Create-CQ is acknowledged; done exactly when both commands are taken and acknowledged; how many are issued, and the status, exactly |
| NvmeDevices.NvmeDevice.RegisterPairs | src/SpcNvme/NvmeDevice.cpp:822-866 | The queues are registered in order up to the first pair that is not taken and acknowledged, and all of them if there is none |
| NvmeDevices.NvmeDevice.RegisterIoQueues | src/SpcNvme/NvmeDevice.cpp:811-880 | The counter goes up by exactly the pairs before the first that is not acknowledged; the status exactly, which tells of commands not taken by the admin queue and not of refusals; started at 0, if it is not 0 then every processor is dispatched to an existing queue whose two Create commands were acknowledged |
| NvmeDevices.FirstPairs | src/SpcNvme/NvmeDevice.cpp:822-866 | The pairs that are counted are acknowledged, and the next one is not |
| NvmeDevices.AllPairs | src/SpcNvme/NvmeDevice.cpp:822-866 | When every pair is acknowledged all are counted |
| NvmeDevices.NvmeDevice.PicksRegistered | src/SpcNvme/NvmeDevice.cpp:731-733 | Every processor is given an existing, registered queue |
| NvmeDevices.NvmeDevice.BringUpQueues | src/SpcNvme/NvmeDevice.cpp:811-866 | Creating and registering queues: the registered ones are the first acknowledged pairs, empty queues of their own new objects, each announced in order |
| NvmeDevices.NvmeDevice.PicksMade | src/SpcNvme/NvmeDevice.cpp:726-866 | A processor has a queue exactly when the memory of the first could be had and its pair was acknowledged; the PRP1 of its Create-SQ command is the address of its submission ring, that of its Create-CQ command the address of its completion ring |
| NvmeDevices.NvmeDevice.SubmitIoCmd | src/SpcNvme/NvmeDevice.cpp:726-734 | The command is submitted to the picked queue, if the device works; without a registered queue the machine stops in a division by zero |
| NvmeDevices.NvmeDevice.InitController | src/SpcNvme/NvmeDevice.cpp:333-351 | From a clean start, success means EN and RDY are set, the admin queue registers were written with its addresses and depth - 1 while the controller was off, and EN was raised while RDY was clear; every write was allowed and the machine not stopped exactly when EN was clear or the first look found the controller ready; against a controller that follows EN at once it succeeds |
| NvmeDevices.InitWhileEnabled | src/SpcNvme/NvmeDevice.cpp:266-351 | A controller with EN set that is not ready: its admin queue registers are written while it is enabled |
| Controllers.RegisterAccess.EnableController | src/SpcNvme/NvmeDevice.cpp:232-265 | Succeeds against every controller that follows EN at once; success means ready, and enabled by the two writes of CC unless it was ready at the first look and nothing was written; for every entry state without a fatal status all writes are allowed; a controller that is enabled but not ready is left alone |
| Controllers.RegisterAccess.DisableController | src/SpcNvme/NvmeDevice.cpp:266-294 | Succeeds against every controller that follows EN at once; a ready controller is off after success, by one write that keeps SHN; one that does not look ready is left alone |
| Controllers.RegisterAccess.RegisterAdmQ | src/SpcNvme/NvmeDevice.cpp:975-1000 | Stops the machine exactly for a ready controller or a missing queue, fails exactly for a null address, and otherwise writes addresses and depth - 1, with the state of the controller at that moment |
| Controllers.RegisterAccess.WaitForReady | src/SpcNvme/NvmeDevice.cpp:1091-1107 | Against every controller: what is read is, look by look, what the controller does on its own; one look before each stall, none of which saw the target; success on the first that does, and always when the controller has settled; failure with the first stall beyond the time |
| Controllers.RegisterAccess.WaitForReadyAndEnable | src/SpcNvme/NvmeDevice.cpp:1108-1126 | The same with CC.EN in the target |
| Controllers.RegisterAccess.WaitForShutdown | src/SpcNvme/NvmeDevice.cpp:1127-1149 | The same for the end of a shutdown, the earlier looks included; success when it is over |
| Controllers.PollBound | src/SpcNvme/NvmeDevice.cpp:1096-1104 | At most floor(time / delay) + 1 stalls, and exactly as many on failure |
| Controllers.SettledIsSeen | src/SpcNvme/NvmeDevice.cpp:1091-1126 | A controller that has settled by some look, with the time for as many stalls, is not given up, and no stall more is spent on it |
| ReadWrite.Parse6 | src/SpcNvme/ScsiHandler_InlineUtils.h:122-128 | Inverts the encoding of READ(6) and WRITE(6), where 0 means 256 blocks |
| ReadWrite.Parse10 | src/SpcNvme/ScsiHandler_InlineUtils.h:129-135 | Inverts the 10-byte encoding |
| ReadWrite.Parse12 | src/SpcNvme/ScsiHandler_InlineUtils.h:136-142 | Inverts the 12-byte encoding |
| ReadWrite.Parse16 | src/SpcNvme/ScsiHandler_InlineUtils.h:143-147 | Inverts the 16-byte encoding |
| ReadWrite.ParseReadWriteOffsetAndLen | src/SpcNvme/ScsiHandler_InlineUtils.h:148-171 | Recognizes the eight operation codes and inverts their encodings |
| ReadWrite.EncodesOnce | src/SpcNvme/ScsiHandler_InlineUtils.h:120-147 | A CDB encodes one block range only, so what is parsed is what was encoded |
| ReadWrite.BlocksKeptExact | src/SpcNvme/NvmeCmdBuilder.cpp:14-14 | The NLB field keeps the number of blocks exactly from 1 to 65536 |
| ReadWrite.BuildCmdReadWrite | src/SpcNvme/NvmeCmdBuilder.cpp:2-15 | The command means the same direction, namespace and first block; it has the tag and unit of the SRB, and its data pointer covers the SRB's buffer unless the list could not be allocated |
| ReadWrite.ScsiReadWrite | src/SpcNvme/Scsi_Utils.cpp:10-35 | The outcome exactly: an error for a range that fails the check or a device that does not work, a division by zero without a registered queue, otherwise what readiness, throttle and tag range of the queue say; pending means submitted with that meaning and a data pointer over the buffer; anything else means the queue is untouched |
| ReadWrite.SubmitReadWrite | src/SpcNvme/Scsi_Utils.cpp:22-34 | Pending exactly when the queue accepts the command, busy exactly when its throttle is closed, and no return without a registered queue |
| ReadWrite.SameBlocksHolds | src/SpcNvme/Scsi_Utils.cpp:10-22 | For every block range a CDB can encode: inside the namespace the request ends as the queue answers, outside it is an error; if pending, the NVMe command is for the same blocks in the same direction |
| ReadWrite.StartIoScsi | src/SpcNvme/ScsiHandler_CDB6.cpp:254-273 | That, from the bytes of the CDB to the queue |
| ReadWrite.HwBuildIo | src/SpcNvme/MiniportFunctions.cpp:143-193 | A request that does not go on is completed once, with the status of its kind; one that goes on is not |
| ReadWrite.HwStartIo | src/SpcNvme/MiniportFunctions.cpp:196-234 | For every block range the CDB encodes, accepted exactly if inside the namespace and the queue takes it; either in the queue, with the NVMe opcode of its SCSI operation, the tag and unit of the SRB, the same blocks and a data pointer over the SRB's buffer, and not completed, or completed once with the queue untouched, unless the machine stops without a registered queue |
| ReadWrite.FirstReadWrite | src/SpcNvme/NvmeDevice.cpp:726-866 | From a running device without queues through creation, registration and HwStartIo: with a queue registered the first request is pending exactly when the check accepts its blocks, the depth lets one command through and its tag is in the table; with none the machine stops |
| ReadWrite.TwoPending | src/SpcNvme/NvmeQueue.cpp:163-202 | Two requests with different tags, with room in the throttle: both are pending, each in the slot of its own tag, and nothing is completed |
| ModePages.SelectPages | src/SpcNvme/ScsiHandler_CDB6.cpp:349-368 | On every well-formed page list the loop terminates and leaves the flags of the last caching page, or those from before |
| ModePages.ScsiModeSelect6 | src/SpcNvme/ScsiHandler_CDB6.cpp:320-372 | The same behind header and block descriptor, on the device's two caches: RCD disables the one, WCE enables the other; without the PF bit nothing changes |
| ModePages.CopyToCdbBuffer | src/SpcNvme/ScsiHandler_InlineUtils.h:43-55 | Copies what there is room for and nothing else; bytes written and bytes left add up |
| ModePages.ReplyModePage | src/SpcNvme/ScsiHandler_InlineUtils.h:97-118 | A page behind what is there, with ModeDataLength moved on |
| ModePages.ReplyAllPages | src/SpcNvme/ScsiHandler_CDB6.cpp:423-444 | The three pages one after the other, cut off where the room ends |
| ModePages.ScsiModeSense6 | src/SpcNvme/ScsiHandler_CDB6.cpp:374-455 | The whole buffer, for every length and page code: header with the returned size less one, a prefix of the requested pages, the rest as before; the page shown is that of the code asked for, or all three in order, and the caching page shows the device's two caches |
| ModePages.SelectThenSense | src/SpcNvme/ScsiHandler_CDB6.cpp:320-455 | With room for the caching page, the RCD and WCE bits in the buffer of a MODE SENSE are those of the caching page that was selected last |
| ModePages.SelectAndSense | src/SpcNvme/ScsiHandler_CDB6.cpp:320-455 | The same for the two commands one after the other on their buffers |
| ModePages.SenseThenSelect | src/SpcNvme/ScsiHandler_InlineUtils.h:76-83 | Selecting the pages that were reported sets the flags that were reported, whatever they were before |
| ModePages.SenseAndSelect | src/SpcNvme/ScsiHandler_CDB6.cpp:320-455 | The whole answer of a MODE SENSE, handed to a MODE SELECT of another device, carries the flags over |
| ModePages.NoCachingPage | src/SpcNvme/ScsiHandler_CDB6.cpp:360-361 | Pages of other kinds or sizes change nothing |

## Left out

- Storport, WDM and PCI calls, allocation, DPCs, work items, registry and power: parameters stand for what they return (page maps, allocation results, the commands the admin queue takes and the controller's answers).
- Memory ordering and interrupt levels: steps are atomic and a doorbell write publishes the ring.
- What follows the use of a null pointer in `SubmitCmd` or `ResetAllCmd`: the call stays where it is.
- `CCmdHistory::Reset` reads `History[i]` anew at each use, as it is written. A compiler that reads it once would complete a request that is gone instead of using a null pointer.
- `CompleteCmd` takes in an entry in one step, with its phase. Reading it in parts matters only when the controller posts to a full ring.
- The theorems about the rings are for orderly runs; the driver has no way to make the controller post late completions first.
- NvmeQueueObjects.NvmeQueue.ConsumeEntry: CompletionCB is not called; only the firmware ioctl sets it, and it completes the request itself.
- NvmeQueueObjects.NvmeQueue.Setup: only with its memory allocated (`QueueLayout` has the division of the block); Teardown and calls on a queue without a table are not modelled.
- NvmeToSrbStatus and its tables: a completion carries the NVMe status it was translated from. Sense data is not modelled.
- No claim about leaks of PRP lists is made: a reset or an eviction does not give them back.
- ResetOutstandingCmds: calls ResetAllCmd on the admin queue and each registered queue, with no logic of its own.
- NvmeDevices.NvmeDevice.RegisterIoQueues: the admin queue is a list of answers, and every command taken is answered in the end; the wait has no bound in the code. The completion of the request passed in is left out, all callers pass none.
- NvmeDevices.NvmeDevice.CreateIoQ: takes at most 64 queues, the size of the table; the registry value is not limited by the code.
- ShutdownController, IdentifyController, UnregisterIoQueues, Setup and Teardown of the device.
- PrpBuilder.BuildPrp: takes only buffers whose list fits the page, because the code writes on without comparing; `ListBound` says which these are.
- PrpBuilder.BuildPrp2List: the same.
- ReadWrite.BuildCmdReadWrite: the same.
- ReadWrite.ScsiReadWrite: the same, and a LUN in the table of namespaces.
- ReadWrite.StartIoScsi: the same.
- ReadWrite.HwStartIo: the same, and only the READ and WRITE operation codes; inquiry, capacity and ioctl handlers are flat data.
- ModePages.ScsiModeSelect6: takes only parameter data that consists of pages, because on other data the code reads on behind the buffer.
- The layouts of CDBs, mode pages and NVMe commands come from SDK headers (scsi.h, nvme.h), which are not part of this model.
- ReadWrite.HwBuildIo: what plug and play requests do besides being completed.
- Reserved fields, FUA and other flag bits of a CDB are ignored by the code and by the model.
