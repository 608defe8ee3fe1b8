# Verified models of devrix's stateful core

This project models six parts of devrix in which a plain specification hides branching,
in-place state or concurrency, and proves what those parts are for.

- **Tag splitters and strippers** (`Text`, `LetterCase`, `TagStream`, `TagSearch`, `ThinkTagSplitter`,
  `PriorOutputSummarySplitter`, `TagStrippers`, `StripVersusStream`, `ThinkStripping`,
  `ThinkVersusStream`, `Spelling`). The two streaming
  splitters are classes proved to output, over any cutting of a text into deltas, the one-shot split of
  the whole text; the held-back suffix is shown to be both enough and needed. The three static strippers
  are loops proved against one function, which leaves no open tag and is idempotent. The summary stripper
  keeps what its splitter shows, up to white space, on every text; the thinking stripper does so exactly
  under a condition (below). "In any case" is spelled out with two alphabets, without folding.
- **Milestones and task flow** (`Sequences`, `DependencyGraph`, `Milestones`, `TaskFlows`). Depth-first
  reachability with a shared visited set, Kahn's ordering under every order of the map walk, and the
  flow that drives n milestones to completion in exactly n calls.
- **Tool-call scheduling** (`ToolBatches`, `ToolExecution`, `ToolRound`). The unique partition into
  batches, every interleaving of its execution, and the two-phase round with its scatter.
- **Language-server clients** (`LspPool`, `LspPoolRuns`, `LspFraming`, `LspPending`). The LRU pool
  whose lock is free during a launch, the framing of the base protocol (Header Part and Content Part
  of the Language Server Protocol Specification 3.17), and the table of requests in flight (ids as
  in section 5 of JSON-RPC 2.0).
- **Background tasks and permissions** (`BackgroundTasks`, `Permissions`). Each lock-held region is one
  step; the theorems hold in every run of those steps.
- **Envelope tags** (`Envelope`). A printer and a parser, and exactly when they are inverse.

How the models are built. Code that updates fields is a class whose methods are proved against
functions of the old state; loops are loops. A Go map walk is a loop that picks any remaining key, so
what is proved holds for every iteration order. Concurrent code appears twice: as a class with one
method for each locked region, and as a value machine (`Step`, `Enabled`, `Apply`) whose runs are
all interleavings of those regions, of launches, timeouts, cancellations and deliveries. The two are tied:
the contract of each method is the machine's step on the part of the state that the class holds.

What the proofs found out about the code:

- A background task's `done` channel is not always closed once. `SecondCloseExactly` says when it is
  closed twice: exactly when `Complete` finds the task already cancelled; `SecondCloseHappens` is such
  a run. (A second close panics in Go.)
- A denial that `Resolve` accepted can still be overridden, because automatic approval sets the status
  without looking at it: exactly if YOLO mode was on when the request was made and its rule said yes when
  it was asked (`DenialHoldsUnlessRule`). `DenialCanBeOverridden` is such a run.
- An approval that `Resolve` accepted can be lost: it counts exactly if the requester reads it before the
  request is cleaned up as expired and without having given up (`ApprovalCountsExactly`).
  `ApprovalCanBeLost` is a run in which it does not.
- The thinking stripper joins without a separator, so the two sides of a removed block can spell a new
  opening tag. It returns the trimmed visible pieces of the text if and only if these, put together, hold
  no opening tag (`StripIsPiecesExactly`), and if and only if they hold none it keeps what the splitter
  shows, up to white space (`ThinkStripperAgreesWithSplitter`). `ThinkStripperCanRemoveMore` gives a text on
  which the splitter shows something and the stripper leaves nothing.
- `AddMilestone` takes milestones that already have dependencies, and nothing checks these for a cycle.
  Under the check on added dependencies a graph becomes cyclic exactly by such an addition
  (`GuardedGraphsAreAcyclic`, `LateMilestoneClosesCycle`).
- `IsBlocked` says in its comment that a missing dependency blocks; the code skips unknown ids. The
  model follows the code. The execution order does fail on an unknown id.
- `Shutdown` misses clients whose launch is still on its way: a client launched before it is open afterwards
  exactly if it was in flight then and still is, or has landed in the pool since (`OpenAfterShutdown`,
  `ShutdownCanMissAClient`).
- A request that has no message when the read loop ends, or is made later, is never answered: it can only
  time out or fail to write (`NobodyAnswersAfterTheEnd`).
- An empty message body can be written but not read back: the reader refuses length zero
  (`EmptyBodyIsRefused`).
- A trimmed line that contains a newline or the closing tag breaks the envelope round trip, and
  nothing else does (`LinesRoundTrip`). JSON payloads are safe: `encoding/json` escapes the angle bracket
  (`JsonRoundTrip`).
- After `Flush` a splitter starts afresh, except that a block that was opened and is still empty
  stays open for the next stream.

Assumptions. Case folding and white space are the ASCII ones, and delta boundaries are character
boundaries: Go's Unicode lower-casing may change byte lengths. Floating-point progress is `real`.
Ids of permission requests, background tasks and launched clients are fresh.

## Model

| member | source | states |
|---|---|---|
| `LetterCase.SameFold` | internal/shared/textutil/thinking_tags.go:172-183 | Two texts fold to the same if and only if they have equal length and at each place equal characters, or a letter and its capital from two listed alphabets |
| `LetterCase.IndexFoldFindsSpelling` | internal/shared/textutil/thinking_tags.go:172-183 | Searching in folded text finds the first spelling of the needle in that sense |
| `LetterCase.ContainsFoldIsSpelled` | internal/shared/textutil/thinking_tags.go:172-183 | Folded text contains a folded needle exactly if the text contains some spelling of it |
| `TagStream.CutIsWhole` | internal/shared/textutil/thinking_tags.go:26-81 | Cutting a text at its tags into visible, hidden and tag pieces loses and reorders nothing |
| `TagStream.CutIsClean` | internal/shared/textutil/thinking_tags.go:155-183 | No visible piece contains the open tag in any case, no hidden piece the close tag, and a tag piece is a tag |
| `TagStream.OneShotIsCut` | internal/shared/textutil/thinking_tags.go:26-105 | The reference split of a text is what its hidden and its visible pieces spell |
| `TagStream.HeldBack` | internal/shared/textutil/thinking_tags.go:321-336 | The held-back suffix is the longest one that is a proper prefix of the awaited tag |
| `TagStream.HoldIsEnough` | internal/shared/textutil/thinking_tags.go:321-336 | Whatever text follows, the first tag starts in the held-back part or later, so the rest may be emitted |
| `TagStream.HoldIsNeeded` | internal/shared/textutil/thinking_tags.go:321-336 | Some continuation completes a tag out of the held-back part, so nothing less may be held |
| `TagStream.DrainIsFinal` | internal/shared/textutil/thinking_tags.go:33-80 | Output of one processing step plus output still to come is the one-shot split, for every continuation |
| `TagStream.StreamInvariant` | internal/shared/textutil/thinking_tags.go:26-81 | The same after any number of deltas |
| `TagStream.ChunkIndependence` | internal/shared/textutil/thinking_tags.go:26-105 | All outputs of a stream and its flush equal the one-shot split of the joined text, however it is cut |
| `TagStream.NothingLost` | internal/shared/textutil/thinking_tags.go:26-81 | At every point: characters pushed = emitted + held in both buffers + matched tags |
| `TagStream.HeldTextIsUndecided` | internal/shared/textutil/thinking_tags.go:321-336 | The buffered text is shorter than the awaited tag and some continuation makes all of it part of one |
| `TagStream.HiddenWaitsForClose` | internal/shared/textutil/thinking_tags.go:37-58 | Hidden text comes whole: none is output without a closing tag in the text at hand |
| `TagSearch.EarliestIsUnique` | internal/shared/textutil/thinking_tags.go:155-170 | The earliest open tag, first listed pair on a tie, is determined by the text |
| `TagSearch.FindCaseInsensitive` | internal/shared/textutil/thinking_tags.go:172-183 | Finds the first spelling of the needle, in any mix of capitals; nothing for an empty needle |
| `TagSearch.FindEarliestOpenTag` | internal/shared/textutil/thinking_tags.go:155-170 | The scan over the pairs finds the earliest open tag and its pair |
| `TagSearch.PartialTagSuffix` | internal/shared/textutil/thinking_tags.go:321-336 | The downward loop finds the longest partial tag at the end of the text |
| `ThinkTagSplitters.PartialOpenTagSuffix` | internal/shared/textutil/thinking_tags.go:442-450 | The longest partial open tag over all pairs |
| `ThinkTagSplitters.ThinkTagSplitter.constructor` | internal/shared/textutil/thinking_tags.go:17-22 | A new splitter is outside a block with nothing pending |
| `ThinkTagSplitters.ThinkTagSplitter.Push` | internal/shared/textutil/thinking_tags.go:26-81 | Output is final: for every rest of the stream, output plus what is to come is the one-shot split |
| `ThinkTagSplitters.ThinkTagSplitter.Process` | internal/shared/textutil/thinking_tags.go:33-80 | The loop leaves exactly the fields and outputs of the specified step |
| `ThinkTagSplitters.ThinkTagSplitter.Flush` | internal/shared/textutil/thinking_tags.go:84-105 | With the flush, all outputs since the last one are the one-shot split of all deltas since then |
| `ThinkTagSplitters.ThinkTagSplitter.Release` | internal/shared/textutil/thinking_tags.go:84-105 | Releases both buffers; only an empty open block stays open |
| `PriorOutputSummarySplitters.PriorOutputSummarySplitter.constructor` | internal/shared/textutil/thinking_tags.go:353-357 | A new splitter is outside a block with nothing pending |
| `PriorOutputSummarySplitters.PriorOutputSummarySplitter.Push` | internal/shared/textutil/thinking_tags.go:362-418 | Output is final for every rest of the stream |
| `PriorOutputSummarySplitters.PriorOutputSummarySplitter.Process` | internal/shared/textutil/thinking_tags.go:370-417 | The loop leaves exactly the fields and outputs of the specified step |
| `PriorOutputSummarySplitters.PriorOutputSummarySplitter.Flush` | internal/shared/textutil/thinking_tags.go:421-440 | With the flush, all outputs are the one-shot split of all deltas |
| `PriorOutputSummarySplitters.PriorOutputSummarySplitter.Release` | internal/shared/textutil/thinking_tags.go:421-440 | Releases both buffers; only an empty open block stays open |
| `TagStrippers.RemoveBlock` | internal/shared/textutil/thinking_tags.go:119-153 | Taking out one block makes the text strictly shorter |
| `TagStrippers.StripOneThinkingPass` | internal/shared/textutil/thinking_tags.go:119-153 | One pass takes out the block at the earliest open tag, or changes nothing |
| `TagStrippers.StripThinkingTags` | internal/shared/textutil/thinking_tags.go:108-117 | The loop terminates and computes the stripping function for thinking tags |
| `TagStrippers.StripOneSummary` | internal/shared/textutil/thinking_tags.go:208-235 | One turn shrinks the text and keeps its stripped form |
| `TagStrippers.StripPriorOutputSummary` | internal/shared/textutil/thinking_tags.go:203-237 | The loop terminates and computes the stripping function for summaries |
| `TagStrippers.StripOnePair` | internal/shared/textutil/thinking_tags.go:282-317 | One turn shrinks the text and keeps its stripped form |
| `TagStrippers.StripStructuredDeliverable` | internal/shared/textutil/thinking_tags.go:259-319 | The loop terminates and computes the stripping function for the six deliverable pairs |
| `TagStrippers.StripLeavesNoTag` | internal/shared/textutil/thinking_tags.go:108-153 | The result holds none of the open tags in any case and is trimmed |
| `TagStrippers.StripKeepsCleanText` | internal/shared/textutil/thinking_tags.go:203-237 | A text without open tags is only trimmed |
| `TagStrippers.StripIsIdempotent` | internal/shared/textutil/thinking_tags.go:277-319 | Stripping twice is stripping once |
| `StripVersusStream.RejoinIsVisible` | internal/shared/textutil/thinking_tags.go:222-234 | Joining around a removed block with a newline never forms a new tag and keeps the visible text |
| `StripVersusStream.StripAgreesWithStream` | internal/shared/textutil/thinking_tags.go:203-237 | Stripper and one-shot split keep the same non-space characters in the same order |
| `StripVersusStream.SummaryStripperAgreesWithSplitter` | internal/shared/textutil/thinking_tags.go:203-440 | The summary splitter's visible output over any deltas is the summary stripper's, up to white space |
| `StripVersusStream.StripKeepsOut` | internal/shared/textutil/thinking_tags.go:203-237 | Stripping with a newline join never forms another tag that was not there |
| `StripVersusStream.BothStrippersLeaveNeither` | internal/shared/textutil/thinking_tags.go:108-237 | Thinking blocks then summaries stripped: neither open tag is left |
| `ThinkStripping.PiecesAreVisible` | internal/shared/textutil/thinking_tags.go:26-105 | The trimmed visible pieces are the stream's visible output, up to white space |
| `ThinkStripping.JoinFormsNoTag` | internal/shared/textutil/thinking_tags.go:134-152 | Two texts joined without a separator hold no new tag if the first with the visible piece behind it holds none |
| `ThinkStripping.PiecesAtBlock` | internal/shared/textutil/thinking_tags.go:119-153 | The trimmed pieces of a text are those of the text before its first block and of the text behind it |
| `ThinkStripping.StripIsPiecesExactly` | internal/shared/textutil/thinking_tags.go:108-153 | The stripper without separator returns the trimmed visible pieces if and only if these, put together, hold no open tag |
| `ThinkStripping.OneBlock` | internal/shared/textutil/thinking_tags.go:108-153 | With one block between trimmed p and q the stream shows p and what q shows, while the stripper goes on with p and q joined |
| `ThinkStripping.ThinkStripperCanRemoveMore` | internal/shared/textutil/thinking_tags.go:108-153 | A text on which the stream shows something and the stripper leaves nothing |
| `ThinkVersusStream.OpenIsNotClose` | internal/shared/textutil/thinking_tags.go:12-14 | An opening and a closing tag never overlap |
| `ThinkVersusStream.InsideShowsLess` | internal/shared/textutil/thinking_tags.go:26-105 | A text read from inside a block never shows more than read from outside |
| `ThinkVersusStream.NewTagHidesMore` | internal/shared/textutil/thinking_tags.go:134-153 | A tag that a join forms makes the visible text strictly shorter |
| `ThinkVersusStream.StripShowsLess` | internal/shared/textutil/thinking_tags.go:108-153 | The stripper keeps no more than the stream shows, and as much only if it returns the trimmed pieces |
| `ThinkVersusStream.StripAgreesExactly` | internal/shared/textutil/thinking_tags.go:26-153 | Stripper and one-shot split keep the same non-space characters if and only if the trimmed pieces, put together, hold no open tag |
| `ThinkVersusStream.ThinkStripperAgreesWithSplitter` | internal/shared/textutil/thinking_tags.go:26-153 | The same for the thinking stripper and the thinking splitter over any deltas |
| `Spelling.SplitsAtSpelling` | internal/shared/textutil/thinking_tags.go:26-81 | On any text the first spelling of the awaited tag ends the piece and changes the mode |
| `Spelling.StaysWithoutSpelling` | internal/shared/textutil/thinking_tags.go:26-105 | A text without any spelling of it is all of one kind |
| `Spelling.HeldBackIsSpelled` | internal/shared/textutil/thinking_tags.go:321-336 | Text is held back exactly as a spelling of the beginning of the tag |
| `Spelling.StripLeavesNoSpelling` | internal/shared/textutil/thinking_tags.go:108-319 | No spelling of an open tag is left in stripped text |
| `Spelling.SpelledBlockIsSplit` | internal/shared/textutil/thinking_tags.go:26-105 | A block in any spelling is hidden and both its sides are shown as they are |
| `Spelling.SpelledBlockIsRemoved` | internal/shared/textutil/thinking_tags.go:119-317 | The earliest block in any spelling, of any of several kinds, is taken out, and the two trimmed sides are joined with the separator |
| `Spelling.SpelledBlockLeaves` | internal/shared/textutil/thinking_tags.go:119-317 | If the join holds no tag it is the result, to the character |
| `Spelling.SpelledOpenDropsRest` | internal/shared/textutil/thinking_tags.go:139-141 | A tag without its end, in any spelling, takes the rest of the text along |
| `Spelling.ThinkingInAnyCase` | internal/shared/textutil/thinking_tags.go:12-153 | `a<THINK>b</Think>c`: the stream hides `b` and shows `ac`, the stripper leaves `ac` |
| `Spelling.SummaryInAnyCase` | internal/shared/textutil/thinking_tags.go:203-237 | Likewise for a summary, whose sides the stripper puts on two lines |
| `Spelling.DeliverableBlock` | internal/shared/textutil/thinking_tags.go:259-319 | Each of the six kinds of deliverable block is taken out, with a newline between its sides |
| `DependencyGraph.ClosedSetHidesRest` | internal/shared/types/milestone.go:125-145 | What lies outside a set closed under dependencies cannot be reached from it |
| `DependencyGraph.OrderMeansOrderable` | internal/shared/types/milestone.go:148-201 | A topological order exists only if all dependencies are known and there is no cycle |
| `DependencyGraph.TrappedMeansCyclic` | internal/shared/types/milestone.go:148-201 | A set in which every id depends on another of the set contains a cycle |
| `DependencyGraph.GuardIsExact` | internal/shared/types/milestone.go:63-71 | On an acyclic graph a new dependency closes a cycle if and only if its target reaches back |
| `DependencyGraph.NodeClosesCycle` | internal/shared/types/milestone.go:104-110 | Adding a milestone with dependencies to an acyclic graph closes a cycle if and only if one of them reaches its id |
| `DependencyGraph.GuardedGraphsAreAcyclic` | internal/shared/types/milestone.go:63-145 | Over any history of milestones added with any dependencies, and dependencies added only when `HasCycle` is false, the graph is cyclic if and only if some milestone was added that one of its own dependencies already reached |
| `DependencyGraph.GuardedGraphsAreOrderable` | internal/shared/types/milestone.go:63-201 | If every dependency is known when it is added, the result can be ordered |
| `DependencyGraph.LateMilestoneClosesCycle` | internal/shared/types/milestone.go:63-145 | A history in which the check never fails and the graph becomes cyclic |
| `Milestones.Milestone.constructor` | internal/shared/types/milestone.go:32-44 | A new milestone is pending, without progress and dependencies |
| `Milestones.Milestone.SetProgress` | internal/shared/types/milestone.go:53-60 | Progress changes exactly for values from 0 to 1; others are errors |
| `Milestones.Milestone.AddDependency` | internal/shared/types/milestone.go:63-71 | Appends the id once |
| `Milestones.Milestone.IsBlocked` | internal/shared/types/milestone.go:74-85 | Blocked exactly by a known dependency that is not completed |
| `Milestones.MilestoneDAG.AddMilestone` | internal/shared/types/milestone.go:104-110 | Adds a new id; a known id is an error and nothing changes |
| `Milestones.MilestoneDAG.HasCycle` | internal/shared/types/milestone.go:119-122 | True exactly when `fromID` is reachable from `toID`, on cyclic graphs too |
| `Milestones.MilestoneDAG.Dfs` | internal/shared/types/milestone.go:125-145 | Terminates; failing marks the start and only adds marks closed under dependencies |
| `Milestones.UnmetIsZero` | internal/shared/types/milestone.go:148-201 | A dependency list has no unmet entry exactly when all its ids are done |
| `Milestones.UnmetAfter` | internal/shared/types/milestone.go:182-192 | Finishing an id lowers the unmet count by the number of times it is listed |
| `Milestones.LeftOverIsTrapped` | internal/shared/types/milestone.go:196-201 | If the queue runs dry early, the graph cannot be ordered |
| `Milestones.MilestoneDAG.InitialDegrees` | internal/shared/types/milestone.go:149-160 | The in-degree table counts unmet dependency entries |
| `Milestones.MilestoneDAG.InitialQueue` | internal/shared/types/milestone.go:162-168 | The first queue holds exactly the ids of degree zero |
| `Milestones.MilestoneDAG.ReleaseOne` | internal/shared/types/milestone.go:183-191 | One dependent is recounted, duplicates included, and queued when its last entry goes |
| `Milestones.MilestoneDAG.Release` | internal/shared/types/milestone.go:182-192 | All dependents are recounted and the ready ones queued, for every order of the walk |
| `Milestones.MilestoneDAG.Visit` | internal/shared/types/milestone.go:178-192 | Releasing a listed milestone keeps the in-degrees and the queue exact |
| `Milestones.MilestoneDAG.GetExecutionOrder` | internal/shared/types/milestone.go:148-201 | Succeeds exactly when all dependencies are known and there is no cycle, and then lists every milestone once after its dependencies |
| `Milestones.CountDecides` | internal/shared/types/milestone.go:196-201 | Comparing lengths at the end tells success from failure |
| `Milestones.SumWithout` | internal/shared/types/milestone.go:204-214 | The sum of the progresses does not depend on the order of the walk |
| `Milestones.MeanOfListing` | internal/shared/types/milestone.go:204-214 | The mean is that of any listing of the milestones: their progresses added up, over their number |
| `Milestones.MilestoneDAG.CalculateOverallProgress` | internal/shared/types/milestone.go:204-214 | The mean of all progresses, nought for an empty graph |
| `TaskFlows.TaskFlow.constructor` | internal/shared/types/taskflow.go:32-43 | A new flow has not started |
| `TaskFlows.TaskFlow.UpdateProgress` | internal/shared/types/taskflow.go:52-58 | Only the overall progress changes, to the mean |
| `TaskFlows.StartMeans` | internal/shared/types/taskflow.go:69-91 | A flow starts exactly if it is pending, can be ordered and is not empty; one milestone without dependencies is then in progress, and otherwise nothing changes |
| `TaskFlows.AdvanceMeans` | internal/shared/types/taskflow.go:94-127 | A call fails exactly if the graph cannot be ordered, and marks the flow failed; otherwise the flow ends with nothing ready, or a ready milestone is in progress; the one left behind is completed |
| `TaskFlows.TaskFlow.Start` | internal/shared/types/taskflow.go:69-91 | Starts a milestone without dependencies, or refuses and changes nothing; says exactly when, and with which status |
| `TaskFlows.TaskFlow.Begin` | internal/shared/types/taskflow.go:69-91 | The body of a start |
| `TaskFlows.TaskFlow.AdvanceToNext` | internal/shared/types/taskflow.go:94-127 | Completes the current milestone, then starts some ready one, or ends if none is, or fails if the graph cannot be ordered |
| `TaskFlows.TaskFlow.Advance` | internal/shared/types/taskflow.go:94-127 | The same for a flow that has a graph |
| `TaskFlows.TaskFlow.NextReady` | internal/shared/types/taskflow.go:113-120 | Returns the first pending, unblocked milestone of the order, or none if there is none |
| `TaskFlows.TaskFlow.FinishCurrent` | internal/shared/types/taskflow.go:99-104 | Marks exactly the current milestone completed with progress 1 |
| `TaskFlows.StartRuns` | internal/shared/types/taskflow.go:69-91 | A fresh orderable flow starts, with exactly one milestone in progress |
| `TaskFlows.SomethingIsReady` | internal/shared/types/taskflow.go:106-120 | While a milestone is pending and none in progress, some milestone is ready |
| `TaskFlows.SumCounts` | internal/shared/types/milestone.go:204-214 | With progress 1 for completed and 0 for others the sum counts the completed |
| `TaskFlows.AdvanceRuns` | internal/shared/types/taskflow.go:94-127 | One call keeps exactly the current milestone in progress with its dependencies completed, or completes everything |
| `TaskFlows.EndCompletes` | internal/shared/types/taskflow.go:122-127 | With all milestones completed none is ready and the mean is 1 |
| `TaskFlows.RunsFinish` | internal/shared/types/taskflow.go:69-127 | Every run over n milestones is in order throughout and completes with progress 1 after exactly n advances |
| `ToolBatches.Safety.IsSafe` | internal/bootstrap/partition_tool_calls.go:120-145 | Safe exactly if the baseline says so and, for a built-in tool that a surface claims, the per-input refinement agrees |
| `ToolBatches.PartitionToolCalls` | internal/bootstrap/partition_tool_calls.go:174-197 | Batches concatenate to the calls with indices 0 to n-1, unsafe ones are single, no two safe ones adjacent |
| `ToolBatches.LastBatch` | internal/bootstrap/partition_tool_calls.go:174-197 | A partition without its last batch partitions the calls before it |
| `ToolBatches.LastVerdicts` | internal/bootstrap/partition_tool_calls.go:174-197 | The last batch has one verdict; before a safe one comes an unsafe call |
| `ToolBatches.PartitionIsUnique` | internal/bootstrap/partition_tool_calls.go:174-197 | There is only one such partition |
| `ToolExecution.SafeExecuteOne` | internal/bootstrap/partition_tool_calls.go:354-383 | A panic becomes a result for the same call, without output, with the panic's message behind `panic: ` |
| `ToolExecution.BatchRange` | internal/bootstrap/partition_tool_calls.go:230-247 | Each batch covers a contiguous range of the calls with one verdict |
| `ToolExecution.NothingToWaitFor` | internal/bootstrap/partition_tool_calls.go:230-295 | A call that has been handed out waits for no unfinished earlier call |
| `ToolExecution.StepKeeps` | internal/bootstrap/partition_tool_calls.go:259-295 | Every step keeps the order, once-only, limit and slot invariants |
| `ToolExecution.RunKeepsInv` | internal/bootstrap/partition_tool_calls.go:230-295 | So does every run |
| `ToolExecution.EveryRunIsSafe` | internal/bootstrap/partition_tool_calls.go:230-295 | In every interleaving: conflicting calls in order, each call once, the limit kept, slot k holds call k's result |
| `ToolExecution.StepUsesWork` | internal/bootstrap/partition_tool_calls.go:259-295 | Each step uses one unit of the remaining work |
| `ToolExecution.RunsEnd` | internal/bootstrap/partition_tool_calls.go:230-295 | A run is complete exactly after three steps per call and one per batch |
| `ToolExecution.Schedule` | internal/bootstrap/partition_tool_calls.go:259-295 | Until everything is done some step is possible: no deadlock |
| `ToolExecution.ExecuteBatches` | internal/bootstrap/partition_tool_calls.go:230-247 | Returns call k's own outcome in slot k, with a trace that meets all the above |
| `ToolRound.Denial` | internal/bootstrap/turn_adapter.go:433-453 | A denial carries the id of its call, no output, and the text that the answers of surface and gate ask for |
| `ToolRound.CheckPermission` | internal/bootstrap/turn_adapter.go:409-454 | From the answers of surface and gate alone: unclaimed or allowed calls pass, a surface's denial is final, a question passes exactly if a gate allows it |
| `ToolRound.ExecuteRound` | internal/bootstrap/turn_adapter.go:334-401 | One result per call in order; which calls run is given by the answers of surface and gate alone, a surface's denial being final; denied calls keep exactly their denial, all others run once and fill their own slot |
| `ToolRound.Scatter` | internal/bootstrap/turn_adapter.go:395-398 | Each execution result reaches the slot of its own call and no other slot changes |
| `LspPool.TouchKeeps` | internal/shared/lsp/manager.go:63-70 | Moving an entry to the front keeps the pool valid and its clients the same |
| `LspPool.InsertKeeps` | internal/shared/lsp/manager.go:78-99 | After an insert the pool is valid with the key in front, and every client is either kept or closed |
| `LspPool.InsertCloses` | internal/shared/lsp/manager.go:78-99 | An insert closes the newcomer if the key is taken, else the last client of a full pool, else nothing |
| `LspPool.InsertEntries` | internal/shared/lsp/manager.go:78-99 | A taken key keeps its client; otherwise the newcomer joins and only the last of a full pool leaves |
| `LspPool.IndexIsUnique` | internal/shared/lsp/manager.go:18-28 | The index is determined by the list |
| `LspPool.Manager.constructor` | internal/shared/lsp/manager.go:30-48 | Empty pool; a cap of zero or less becomes the default |
| `LspPool.Manager.Lookup` | internal/shared/lsp/manager.go:63-70 | A hit returns the client of that key and moves it to the front, keeping all entries; a miss changes nothing |
| `LspPool.Manager.Add` | internal/shared/lsp/manager.go:78-99 | If the key is taken, its client is returned and the newcomer closed; otherwise the newcomer is returned and the last client of a full pool closed |
| `LspPool.Manager.Evict` | internal/shared/lsp/manager.go:89-98 | Keeps exactly the first `cap` entries and closes the others |
| `LspPool.Manager.Acquire` | internal/shared/lsp/manager.go:52-100 | Without interference: the returned client is in front of the specified pool, and exactly the specified clients are closed; a failed launch leaves the pool and closes just the client that could not be initialised |
| `LspPool.Manager.NewClient` | internal/shared/lsp/types.go:418-422 | A client whose initialisation failed is closed, and no other |
| `LspPool.Manager.Shutdown` | internal/shared/lsp/manager.go:103-115 | Closes every pooled client once and empties the pool |
| `LspPool.PoolIsMostRecent` | internal/shared/lsp/manager.go:52-100 | After any history the pool holds exactly the `cap` most recently acquired distinct keys, in recency order |
| `LspPool.LargerPoolHoldsMore` | internal/shared/lsp/manager.go:30-48 | On the same history a larger pool extends a smaller one |
| `LspPoolRuns.StepKeeps` | internal/shared/lsp/manager.go:52-115 | Every locked region and launch keeps the pool valid and every client in exactly one place |
| `LspPoolRuns.RunKeepsInv` | internal/shared/lsp/manager.go:52-115 | So does every run |
| `LspPoolRuns.PoolIsSound` | internal/shared/lsp/manager.go:52-115 | In every interleaving no pooled client is closed, none is closed twice, and a client whose `Acquire` is over is pooled or closed, never both |
| `LspPoolRuns.ReturnedClientIsOpen` | internal/shared/lsp/manager.go:63-99 | The client an `Acquire` finds or adds is in front of the pool and open at that moment |
| `LspPoolRuns.PooledUntilEvicted` | internal/shared/lsp/manager.go:52-115 | In every run a pooled client is closed by a step if and only if that is a shutdown, or a new key landing in a full pool whose last client it is; until then it stays pooled under its key |
| `LspPoolRuns.FirstToLandStays` | internal/shared/lsp/manager.go:78-99 | Of two callers that launch for the same key the first to land stays, and the client of the other is closed |
| `LspPoolRuns.RunOnlyCloses` | internal/shared/lsp/manager.go:52-115 | A closed client stays closed and a landed one does not fly again |
| `LspPoolRuns.ShutdownSpares` | internal/shared/lsp/manager.go:103-115 | Right after a shutdown the open clients are exactly those in flight |
| `LspPoolRuns.OpenAfterShutdown` | internal/shared/lsp/manager.go:52-115 | From a shutdown on, a client launched before it is open if and only if it was in flight then and still is, or is pooled |
| `LspPoolRuns.ShutdownCanMissAClient` | internal/shared/lsp/manager.go:72-115 | A run in which a client is pooled and open after the shutdown |
| `LspFraming.ValueOfItoa` | internal/shared/lsp/types.go:348-359 | Printing a length and evaluating its digits gives it back |
| `LspFraming.AtoiOfItoa` | internal/shared/lsp/types.go:334-338 | Every printed 64-bit length parses to itself |
| `LspFraming.HeaderEffect` | internal/shared/lsp/types.go:320-339 | One header line ends the header, sets the length, fails or is ignored, as specified |
| `LspFraming.ReadMessage` | internal/shared/lsp/types.go:312-345 | The reading loop gives the specified body or error and leaves the reader behind the message |
| `LspFraming.HeaderLine` | internal/shared/lsp/types.go:314-339 | A header is read line by line, whatever follows |
| `LspFraming.FramesWithExtraHeaders` | internal/shared/lsp/types.go:312-345 | Other header lines before or after the length line change nothing |
| `LspFraming.FrameRoundTrip` | internal/shared/lsp/types.go:312-359 | Reading a written frame gives its body and leaves exactly what follows |
| `LspFraming.StreamRoundTrip` | internal/shared/lsp/types.go:191-226 | Reading the concatenated frames of any non-empty bodies gives those bodies, then end of input |
| `LspFraming.FramesAreUnambiguous` | internal/shared/lsp/types.go:348-359 | Two lists of messages with the same bytes are the same list |
| `LspFraming.HeaderIsFinal` | internal/shared/lsp/types.go:312-339 | A header that has been read is not changed by bytes that arrive later |
| `LspFraming.MessageIsFinal` | internal/shared/lsp/types.go:312-345 | Nor is a message; later bytes are only appended to what is left |
| `LspFraming.BrokenFrameIsNoMessage` | internal/shared/lsp/types.go:312-345 | A frame cut off at any place is an error, never a message |
| `LspFraming.BrokenStream` | internal/shared/lsp/types.go:191-226 | A stream cut off inside a message yields exactly the messages before it |
| `LspFraming.EmptyBodyIsRefused` | internal/shared/lsp/types.go:340-342 | A zero length is an error |
| `LspFraming.FramesAsWritten` | internal/shared/lsp/types.go:348-359 | The bytes of a frame with a body of two characters, and of one with 1024 |
| `LspFraming.AtoiExactly` | internal/shared/lsp/types.go:334-338 | Decimal numbers are read with or without a sign exactly within 64 bits |
| `LspFraming.AtoiRefuses` | internal/shared/lsp/types.go:334-338 | A sign alone and anything but digits is no number |
| `LspFraming.AnySpellingSetsLength` | internal/shared/lsp/types.go:320-339 | The name may be spelled in any case, with white space around the value |
| `LspFraming.BadLengthIsRefused` | internal/shared/lsp/types.go:334-338 | A length that is no number is an error, whatever stands before and behind it |
| `LspFraming.LastLengthCounts` | internal/shared/lsp/types.go:314-339 | Of several lengths the last one counts |
| `LspFraming.NoPositiveLength` | internal/shared/lsp/types.go:340-342 | A header without a positive length is an error, even if a body follows |
| `LspFraming.ShortBodyIsRefused` | internal/shared/lsp/types.go:343-345 | A body shorter than announced is an error |
| `LspPending.Channel.Send` | internal/shared/lsp/types.go:221-244 | A send needs room, leaves its one message and is counted |
| `LspPending.TableFollows` | internal/shared/lsp/types.go:191-289 | On the counter, the table and the channels every machine step is a function of just these |
| `LspPending.RpcClient.NewRequest` | internal/shared/lsp/types.go:243-244 | A fresh id and a fresh channel: the machine's step on the client's part |
| `LspPending.RpcClient.Register` | internal/shared/lsp/types.go:245-247 | The request enters the table: the machine's step |
| `LspPending.RpcClient.Take` | internal/shared/lsp/types.go:209-214 | The request with this id leaves the table, an unknown id changes nothing: the machine's step |
| `LspPending.RpcClient.Answer` | internal/shared/lsp/types.go:221 | One message into an empty channel: the machine's step |
| `LspPending.RpcClient.Receive` | internal/shared/lsp/types.go:265 | The channel's message: the machine's step |
| `LspPending.RpcClient.Forget` | internal/shared/lsp/types.go:255-260 | The request leaves the table: the machine's step after a failed write and after a timeout |
| `LspPending.RpcClient.Dispatch` | internal/shared/lsp/types.go:208-223 | A reply is sent to the request with its id, which leaves the table; an unknown id changes nothing |
| `LspPending.RpcClient.DrainPending` | internal/shared/lsp/types.go:228-236 | Every request in the table gets one error, and the table is empty: the machine's step |
| `LspPending.RpcClient.DrainOne` | internal/shared/lsp/types.go:231-235 | One entry gets its error and leaves the table |
| `LspPending.StepKeeps` | internal/shared/lsp/types.go:191-289 | Every step keeps table, channels and phases consistent |
| `LspPending.RunKeepsInv` | internal/shared/lsp/types.go:191-289 | So does every run |
| `LspPending.TableIsSound` | internal/shared/lsp/types.go:191-289 | One send per channel at most, an answer reaches only its own request, no finished request stays in the table, and no waiting one is lost |
| `LspPending.SendsNeverBlock` | internal/shared/lsp/types.go:208-236 | Whenever the read loop sends, the channel is empty |
| `LspPending.LateRepliesAreDropped` | internal/shared/lsp/types.go:208-224 | A reply to a finished or unknown request changes nothing |
| `LspPending.OutcomesAreFinal` | internal/shared/lsp/types.go:265-289 | A finished request keeps its outcome at all later moments |
| `LspPending.RequestersGetOn` | internal/shared/lsp/types.go:239-289 | Each own step brings a request nearer to its end, no other step moves it, and until then it has one |
| `LspPending.AnswersCameIn` | internal/shared/lsp/types.go:191-289 | A request is answered only with a reply that came in for it while it was in the table, payload and all, or with the error that drained it |
| `LspPending.OutcomesHaveCauses` | internal/shared/lsp/types.go:255-288 | A request has timed out or failed to write only if that happened to it |
| `LspPending.RepliesAreDelivered` | internal/shared/lsp/types.go:191-226 | A reply to a request in the table is held, sent and kept in the channel until it is received |
| `LspPending.NobodyAnswersAfterTheEnd` | internal/shared/lsp/types.go:191-289 | A request with no message when the read loop has ended, or made later, is never answered |
| `BackgroundTasks.BackgroundRegistry.RegisterWithCancel` | internal/layers/contextengine/enforce/registry.go:70-88 | A new running task is filed under its id |
| `BackgroundTasks.BackgroundRegistry.SetTaskCancel` | internal/layers/contextengine/enforce/registry.go:93-102 | Attaches the cancel function and changes nothing else |
| `BackgroundTasks.BackgroundRegistry.IsTerminal` | internal/layers/contextengine/enforce/registry.go:107-118 | True exactly for a known task that is not running |
| `BackgroundTasks.BackgroundRegistry.Cancel` | internal/layers/contextengine/enforce/registry.go:123-150 | True exactly for a known running task, which is cancelled, its context too, and its channel closed once |
| `BackgroundTasks.BackgroundRegistry.Complete` | internal/layers/contextengine/enforce/background.go:21-66 | A cancelled task stays so and sends nothing; any other is completed without an error and failed with one, and sends one notice with its session, agent and text |
| `BackgroundTasks.RecordFollows` | internal/layers/contextengine/enforce/registry.go:70-150 | On a task's record every machine step is a function of just the record |
| `BackgroundTasks.BackgroundTask.LockedCancel` | internal/layers/contextengine/enforce/registry.go:127-141 | The locked part of a cancel: the machine's step |
| `BackgroundTasks.BackgroundTask.LockedComplete` | internal/layers/contextengine/enforce/background.go:25-47 | The locked part of an end: completed without an error, failed with one, cancelled if it was; the machine's step |
| `BackgroundTasks.BackgroundTask.CloseDone` | internal/layers/contextengine/enforce/background.go:49-51 | One close: the machine's step after a cancel and after an end |
| `BackgroundTasks.StepKeeps` | internal/layers/contextengine/enforce/registry.go:70-150 | Every step keeps closes and notices accounted for |
| `BackgroundTasks.RunKeepsInv` | internal/layers/contextengine/enforce/run.go:18-43 | So does every run |
| `BackgroundTasks.StatusStays` | internal/layers/contextengine/enforce/registry.go:123-150 | No step changes a status that is not running |
| `BackgroundTasks.FinalStatusStays` | internal/layers/contextengine/enforce/background.go:21-66 | A final status never changes again in a run |
| `BackgroundTasks.TaskEndsOnce` | internal/layers/contextengine/enforce/run.go:18-43 | At most one cancel returns true; one notice if completed or failed, none if cancelled |
| `BackgroundTasks.WorkerGetsOn` | internal/layers/contextengine/enforce/run.go:27-41 | Each own step brings the goroutine nearer to its end, no other step moves it, and once launched it has one |
| `BackgroundTasks.CancelGoesOn` | internal/layers/contextengine/enforce/registry.go:136-149 | A cancel of a running task goes on to the cancel function and to the close |
| `BackgroundTasks.EndsExactly` | internal/layers/contextengine/enforce/background.go:39-43 | In every run a task is completed if and only if its goroutine has reported no error while it was not cancelled, and failed if and only if it has reported one |
| `BackgroundTasks.ReportsItsRun` | internal/layers/contextengine/enforce/run.go:27-40 | What is reported is what the run came to, with a context that was still open |
| `BackgroundTasks.ContextEndsExactly` | internal/layers/contextengine/enforce/run.go:23-26 | The context ends if and only if the parent's did or an attached cancel function was called |
| `BackgroundTasks.NoReportAfterContext` | internal/layers/contextengine/enforce/run.go:27-32 | A goroutine that comes back to an ended context never completes the task |
| `BackgroundTasks.WaitMeansFinal` | internal/layers/contextengine/enforce/run.go:76-110 | Waiting with answer true means a final status, from then on |
| `BackgroundTasks.SecondCloseExactly` | internal/layers/contextengine/enforce/background.go:31-38 | `done` is closed a second time exactly when `Complete` found the task cancelled, and never more often |
| `BackgroundTasks.SecondCloseHappens` | internal/layers/contextengine/enforce/background.go:31-38 | A run of the goroutine's real order of steps in which it is closed twice |
| `Permissions.CheckPermission` | internal/layers/communication/capture/permission.go:167-177 | Exactly low risk is allowed, exactly critical risk denied; the others ask |
| `Permissions.ShouldAutoApprove` | internal/layers/communication/capture/permission.go:190-211 | Automatic approval exactly in YOLO mode for low and medium risk, and for high risk with its flag |
| `Permissions.EntriesFollow` | internal/layers/communication/capture/permission.go:87-295 | On what the manager holds of a request every machine step is a function of just that |
| `Permissions.PermissionManager.SetUserConfig` | internal/layers/communication/capture/permission.go:78-82 | Only the configuration changes |
| `Permissions.PermissionManager.ResolveRequest` | internal/layers/communication/capture/permission.go:214-221 | Approved or denied, whatever the status was: the machine's step for automatic approval and for giving up |
| `Permissions.PermissionManager.ReadAnswer` | internal/layers/communication/capture/permission.go:123-129 | Approved exactly if the request is still in the table and approved |
| `Permissions.PermissionManager.Create` | internal/layers/communication/capture/permission.go:87-104 | A pending request and an open signal are filed under the id |
| `Permissions.PermissionManager.Resolve` | internal/layers/communication/capture/permission.go:224-243 | Succeeds exactly for a known pending request, sets its status alone, closes and drops its signal: the machine's step on every request |
| `Permissions.PermissionManager.CleanupExpired` | internal/layers/communication/capture/permission.go:274-284 | Exactly the expired requests leave the table, marked expired, signals stay: the machine's step on every request |
| `Permissions.PermissionManager.ExpireAll` | internal/layers/communication/capture/permission.go:278-283 | The loop looks at every request once, in any order |
| `Permissions.PermissionManager.ExpireOne` | internal/layers/communication/capture/permission.go:278-283 | One request, if too old, is expired and leaves the table; no other changes |
| `Permissions.PermissionManager.CleanupSignal` | internal/layers/communication/capture/permission.go:288-295 | Closes and drops the signal if it is still there: the machine's step on every request |
| `Permissions.StepKeeps` | internal/layers/communication/capture/permission.go:87-142 | Every step keeps status, signal and answer consistent |
| `Permissions.RunKeepsInv` | internal/layers/communication/capture/permission.go:87-295 | So does every run |
| `Permissions.ClosedAndResolvedOnce` | internal/layers/communication/capture/permission.go:224-295 | A signal is closed at most once and a request resolved at most once |
| `Permissions.RequestersGetOn` | internal/layers/communication/capture/permission.go:87-142 | Each own step brings a request nearer to its answer, and no other step moves it |
| `Permissions.RequestersCanGoOn` | internal/layers/communication/capture/permission.go:87-142 | Until it is answered a request has a step of its own, and an accepted `Resolve` wakes a waiting one |
| `Permissions.FlagsAreHistory` | internal/layers/communication/capture/permission.go:87-142 | An approval on record goes back to an earlier step of the run |
| `Permissions.ApprovalIsJustified` | internal/layers/communication/capture/permission.go:87-142 | `Request` answers true only after a successful approval or the YOLO rule; for critical risk only after an approval |
| `Permissions.YesMeansResolved` | internal/layers/communication/capture/permission.go:224-243 | A recorded approval by the user is an earlier successful `Resolve` |
| `Permissions.NothingAfterGivingUp` | internal/layers/communication/capture/permission.go:131-142 | Giving up denies the request, no `Resolve` succeeds from then on, and the answer is no |
| `Permissions.NothingAfterTheAnswer` | internal/layers/communication/capture/permission.go:224-236 | No `Resolve` succeeds once `Request` has answered |
| `Permissions.CreationIsRemembered` | internal/layers/communication/capture/permission.go:87-108 | A request keeps the risk it was made with, and whether YOLO was on then |
| `Permissions.DenialIsSettled` | internal/layers/communication/capture/permission.go:224-243 | After an accepted denial no answer by the user is accepted any more |
| `Permissions.AutoPathIsRule` | internal/layers/communication/capture/permission.go:106-116 | A request is on the path of automatic approval exactly if the YOLO rule held for it at an earlier step |
| `Permissions.DenialHoldsUnlessRule` | internal/layers/communication/capture/permission.go:106-142 | In spite of an accepted denial `Request` answers true if and only if YOLO was on when it was made and its rule said yes when asked |
| `Permissions.DenialCanBeOverridden` | internal/layers/communication/capture/permission.go:106-117 | A run in which that happens |
| `Permissions.ApprovalIsSettled` | internal/layers/communication/capture/permission.go:122-142 | After an accepted approval the table and the phases say whether it was read in time |
| `Permissions.ApprovalCountsExactly` | internal/layers/communication/capture/permission.go:119-142 | After an accepted approval `Request` answers true if and only if the requester reads it before a clean-up expires it, or the YOLO rule held |
| `Permissions.ApprovalCanBeLost` | internal/layers/communication/capture/permission.go:119-129 | A run in which an accepted approval is answered with false |
| `Envelopes.SplitNonEmptyLines` | internal/shared/prompttags/envelope.go:153-161 | The loop keeps the non-blank lines, trimmed, in order |
| `Envelopes.EncodePayload` | internal/shared/prompttags/envelope.go:24-62 | The payload of a value for the tag's profile, by JSON where the profile asks for it, or nothing |
| `Envelopes.Wrap` | internal/shared/prompttags/envelope.go:12-22 | The block of a registered tag, or the empty string |
| `Envelopes.FindEnvelope` | internal/shared/prompttags/envelope.go:137-151 | The leftmost opening tag with the shortest text behind it that a closing tag ends; none exactly if no match exists |
| `Envelopes.DecodePayload` | internal/shared/prompttags/envelope.go:82-114 | The value out of a payload, by JSON where the profile asks for it, or nothing |
| `Envelopes.ExtractOne` | internal/shared/prompttags/envelope.go:65-80 | The value of the first block of a registered tag, or nothing |
| `Envelopes.ExtractAll` | internal/shared/prompttags/envelope.go:118-132 | Exactly the registered tags that apply to the phase and have a block, with their payloads, in every order of the walk |
| `Envelopes.RawIsPayload` | internal/shared/prompttags/envelope.go:141-151 | Behind a prefix without the opening tag and before any suffix the block read is the one printed, up to a closing tag inside its payload |
| `Envelopes.NonBlankKeepsText` | internal/shared/prompttags/envelope.go:153-161 | Trimming lines and dropping blank ones loses only white space |
| `Envelopes.SplitKeepsText` | internal/shared/prompttags/envelope.go:153-161 | So does splitting at newlines |
| `Envelopes.PiecesOfJoin` | internal/shared/prompttags/envelope.go:28-41 | Joined lines split back into themselves exactly if none has a newline inside; otherwise into more |
| `Envelopes.JoinContains` | internal/shared/prompttags/envelope.go:28-41 | Joined lines contain a closing tag exactly if one of them does |
| `Envelopes.LinesReadExactly` | internal/shared/prompttags/envelope.go:24-114 | Reading joined lines up to the closing tag gives them back exactly under those two conditions |
| `Envelopes.LinesRoundTrip` | internal/shared/prompttags/envelope.go:12-114 | Behind a prefix without the opening tag and before any suffix, lines come back trimmed without the blank ones if and only if none contains a newline or the closing tag |
| `Envelopes.TextRoundTrip` | internal/shared/prompttags/envelope.go:12-114 | Likewise a text comes back trimmed if and only if it does not contain the closing tag |
| `Envelopes.JsonRoundTrip` | internal/shared/prompttags/envelope.go:12-114 | Behind a prefix without the opening tag and before any suffix a value that JSON reads back, written without an angle bracket, comes back |
| `Envelopes.RegisteredTags` | internal/shared/prompttags/registry.go:86-92 | One tag of lines, four of a single payload, and no other |
| `Envelopes.PhasesOfTags` | internal/shared/prompttags/registry.go:95-119 | All tags apply to execution, one to verification, none to any other named phase |
| `Envelopes.TextAsWritten` | internal/shared/prompttags/envelope.go:12-62 | A text with its tags as it is printed, to the character |
| `Envelopes.LinesAsWritten` | internal/shared/prompttags/envelope.go:12-62 | Lines with their tags as they are printed, one newline between two of them |
| `Envelopes.PrintsNothing` | internal/shared/prompttags/envelope.go:12-62 | Exactly when nothing is printed: unknown tag, wrong kind of value, only blank text, or a JSON error or null |
| `Envelopes.ReadsNothing` | internal/shared/prompttags/envelope.go:65-114 | Nothing is read for an unknown tag, without a block, or if lines are not what is asked for |
| `Envelopes.TagIsAbsent` | internal/shared/prompttags/envelope.go:134-139 | Blocks of other tags never form an opening tag between them |
| `Envelopes.EveryBlockIsRead` | internal/shared/prompttags/envelope.go:118-151 | In a text of several blocks each is read whatever its place, and no tag that was not printed |

## Left out

- Processes, pipes, JSON, networks, files, spans, metrics, logging and clocks; timeouts and expiry times are parameters or free steps.
- Unicode case folding and white space beyond ASCII, and deltas that cut inside a multi-byte character.
- The concatenated visible stream may contain an open tag again (`<th<think>x</think>ink>`); only the single visible pieces are clean.
- `StripMiniMaxStreamMarkers`, `StripAssistantInternalMarkers`, `StripResolutionClaims` and the regex-based strippers.
- `BuildSurfaceLookup` and `buildConcurrencyByTool`: each tool is taken to belong to one surface.
- The per-input helper for built-in tools is an arbitrary predicate; `BashSiblingAbortController` and `executeOneWithSiblingAbort` are not part of this model.
- ToolExecution.ExecuteBatches: here the outcome of a call is a function of the call; the theorems about runs allow any outcome for each call.
- LspPool.Manager.Acquire: covers a call without interference; interleavings are the subject of `LspPoolRuns`.
- LspPending.RpcClient.Dispatch: `Take` and `Answer` in one go, while the step machine lets other steps come between the two.
- The choice of a server for a file and the errors of `Acquire` before its first lock.
- The `closed` flag of the client, the decoding of replies, and the allocation of a body for a huge announced length.
- 64-bit wrap-around of request ids.
- BackgroundTasks.BackgroundRegistry.Cancel: the whole call in one go, while the step machine lets other steps come between its parts. The same holds for `Complete`.
- Liveness of background tasks: a goroutine whose context is cancelled returns without `Complete`, and the task may stay running.
- The status write of a requester that gives up takes no lock in the code; it is one atomic step here.
- Timestamps, session and tool names of permission requests; `List`, `Get` and the counters.
- How JSON writes and reads a value: `Json` is any pair of functions. `FormatEnvelopeBlock`.
- `Fail`, `GetStatusSummary` and other plain accessors of task flows.
