# Verified models of KTPAMXX

Dafny models of the parts of KTPAMXX whose state is hardest to keep right, each with the properties
that it is built to have, proved for all inputs or for all runs. `dafny verify dfyconfig.toml` checks
everything.

| file | what it models |
|---|---|
| `Expand.dfy` | in-place expansion of a compact plugin image, with its ring of postponed stores |
| `Compact.dfy` | the compact form that expansion reads back |
| `Relocate.dfy` | the relocation sweep over Pawn code, and the interpreter before and after it |
| `ControlFlow.dfy` | calls that returns find again, jumps and switches, and whole programs that call |
| `Interpreter.dfy` | the interpreter's loop as an object with its registers |
| `PackedStrings.dfy` | strings in cells, packed with swapped bytes or unpacked |
| `Forwards.dfy` | handles of single-plugin forwards: sharing, counting, recycling, late release |
| `Tasks.dfy` | timed tasks and frame callbacks as holders of forwards, with callbacks that re-enter everything |
| `TaskTimes.dfy` | when the frames of a run call a task, from its request alone |
| `FrameOrder.dfy` | the order in which frame callbacks are called |
| `FrameCallbacks.dfy` | the loops over frame callbacks: what they owe, and when they find an empty queue |
| `NestedFrames.dfy` | frames inside the callbacks of others, and what clears destroy there |
| `TaskObjects.dfy` | the same managers as objects whose methods work in place, each proved to do the machine's step |
| `AsyncLog.dfy` | the asynchronous log writer: its ring, and all interleavings of its threads |
| `Smc.dfy` | the section parser, character by character |
| `SmcLayout.dfy` | section files as people write them, with comments, blanks and words |
| `GameConfig.dfy`, `GameConfigLaws.dfy` | the game-config reader that listens to the parser, and laws about documents |
| `GameConfigStores.dfy` | what the reader stores for the running game |
| `Format.dfy`, `FormatText.dfy`, `FormatLaws.dfy` | the formatter with its recursion into translations, what it does to characters of several bytes, and its laws |
| `FormatNumbers.dfy` | what directives write, read back |
| `Events.dfy` | filters on messages whose parameters arrive one by one |
| `LogEvents.dfy` | filters on log lines with shared comparators that remember their answers |
| `Commands.dfy` | sorted command lists and lookups that continue at a cursor |
| `Conditions.dfy` | what the small tests decide that events, filters and command lists are made of |
| `DataPack.dfy` | the typed byte stream of plugins |
| `Basics.dfy` | what the others share |

Where the source changes fields, arrays or lists step by step, the model is a class or an array and a
method with the same branches, and its contract gives the whole new state as a function of the old one.
What the source promises is proved about these functions. Systems with re-entrant callbacks or threads
are machines whose steps are those methods; their results are about every run of the machine.

Some expectations do not hold of the code without a condition. The model keeps the code, and the
condition is part of what is proved:

- The ring of postponed stores (`Expand`): the input may be 256 bytes and more ahead of the output at the last
  64 cells, because only stores of the cells behind a cell can wait in the ring while it is read.
- Shutdown of the log writer (`AsyncLog`): the running flag falls before the stop flag. A second thread
  that logs in between starts a writer that ends at once, and lines wait without one. With a single
  thread that logs and shuts down this cannot happen.
- Frame callbacks (`FrameCallbacks`): a loop fixes its number at its start. If a callback starts another loop
  or calls `clear` while its own loop is not through, the loop comes to pop an empty queue, unless enough
  callbacks are requested meanwhile. The tasks, cleared just before, put off what would hurt a callback that
  runs, and the frame callbacks do not.
- Clearing tasks (`NestedFrames`): the deferred clear protects one open frame only. With two, or with a frame that
  starts while a clear is deferred, the inner frame destroys tasks that the outer one still runs.
- Sections (`GameConfig`): the end of a `#supported`, `CRC` or custom section always returns to the game
  section, so inside a class the reader is two levels off. `Addresses` and the like return correctly.
- Section files (`SmcLayout`): a section cannot end on the line of a pair, a word as the name of a section must not
  touch its opening, and a comment over several lines that begins with a slash is at its end there.
- `#supported` (`GameConfig`): a matching line counts at once if there is no line of the other kind yet, so
  a game line before a failing engine line applies the section and the other order does not.
- Numbers adjusted to the left (`FormatLaws`): digits beyond the width, and so `%-d` without a width, fill the
  whole rest of the buffer.
- Whole characters (`FormatText`): the test for a last character that is not whole looks at the cell before a text of
  which nothing is shown. With `maxlen` 0 behind a cell like -1, that cell is zeroed and the result is -1; with
  `%.3s` of an empty string or `%.0s` behind one, the count of characters to copy is negative and the copying does
  not stop at the buffer. For 7-bit text these are the only ways to leave the buffer.
- Shorter buffers (`FormatLaws`): what they receive is the beginning of what a longer one receives for 7-bit text;
  with other characters, what follows a translation that does not fit can take its room.
- Log events (`LogEvents`): arguments that a line does not have keep the texts of earlier lines, and filters on them
  decide.
- The command cursor (`Commands`): it is not renumbered when a command enters its list before it, and lookups
  that go on from it then give commands of other numbers.
- Data packs (`DataPack`): packing after moving back counts bytes twice, so more counts as readable than was packed.
- Unpacked strings (`PackedStrings`): one that begins with a character beyond 7 bits is taken for packed.

## Model

| member | source | states |
|---|---|---|
| Expand.Expand | amxmodx/amx.cpp:789-841 | In-place expansion succeeds exactly for the well-formed compact streams that fill the given size and keep the margin, and then the buffer holds, cell by cell, what a forward reading of the stream gives; bytes beyond the size are untouched |
| Expand.ForwardIsBackward | amxmodx/amx.cpp:802-820 | Reading a group from its end and then extending the sign gives the value of the forward reading |
| Expand.ReadGroup | amxmodx/amx.cpp:802-820 | One backward read finds the last group of what is left and its cell, or refuses exactly an overlong or unfinished group |
| Expand.SignExpand | amxmodx/amx.cpp:814-820 | The sign of a group extends to the whole cell |
| Expand.FlushSpares | amxmodx/amx.cpp:822-826 | Every postponed store above the unread input is made, in order, and no unread byte changes |
| Expand.StoreGroup | amxmodx/amx.cpp:821-837 | A cell is stored or postponed; it is refused exactly when it does not fit or the ring is full; unread input is unchanged |
| Expand.ExpandGroup | amxmodx/amx.cpp:802-838 | A round keeps the account of input read, cells stored and cells postponed, and refuses only streams that are not acceptable |
| Expand.SkipToBoundary | amxmodx/amx.cpp:802-813 | The group boundaries seen from the end are those of the forward reading |
| Expand.StoreRefused | amxmodx/amx.cpp:827-832 | When a store has no room in the ring, the stream is not acceptable |
| Compact.ExpandCompressed | amxmodx/amx.cpp:802-820 | Expansion inverts compression: for every list of cells, the forward reading of its compressed form gives the list, and no group is too long |
| Compact.CompressedAccepted | amxmodx/amx.cpp:821-841 | A compressed image is accepted for its own size if and only if no beginning of it, with more than 64 cells behind it, is 256 bytes longer than expanded |
| Compact.SlotHasBytes | amxmodx/amx.cpp:821-837 | The expanded image has the bytes of each cell, the lowest first |
| Expand.MarginIsExact | amxmodx/amx.cpp:821-837 | The margin is needed only for cells with 64 more behind them: n cells of five bytes each run ahead by k bytes after k cells, and are accepted up to n = 320, although the lead then exceeds 256 |
| Relocate.BrowseRelocate | amxmodx/amx.cpp:564-775 | The sweep adds the base to exactly the operands that are code addresses, once each, and reports success exactly if it meets only opcodes that it knows |
| Relocate.RelocateCases | amxmodx/amx.cpp:758-770 | The case-table loop patches every record of a table and nothing else |
| Relocate.PatchedInside | amxmodx/amx.cpp:564-775 | Inside an instruction that the sweep reaches, a cell is patched exactly if it is a code-address operand of that instruction |
| Relocate.SameLength | amxmodx/amx.cpp:564-775 | The sweep's instruction lengths are the interpreter's: execution goes on at the next instruction of the sweep or at an operand that the sweep relocates |
| Relocate.SameOutcome | amxmodx/amx.cpp:2082-2170 | An instruction with its patched operand does what the unpatched one does, with its destination moved by the base |
| Relocate.SameSwitch | amxmodx/amx.cpp:2508-2518 | A switch through a patched case table goes where the unpatched one goes |
| Relocate.StepSame | amxmodx/amx.cpp:2082-2170 | At an instruction that the sweep reaches, one step of the patched image with absolute jumps equals one step of the unpatched image with base-relative jumps, data included |
| Relocate.RelocationPreservesRuns | amxmodx/amx.cpp:494-502 | For every base, every data part and every number of steps, the two runs are equal, as long as control stays at swept instructions |
| Relocate.StaysAtInstructions | amxmodx/amx.cpp:2082-2170 | Jumps, calls and switches of a well-formed image lead to swept instructions again |
| Relocate.SweptImageRunsAlike | amxmodx/amx.cpp:494-502 | For a well-formed image, the two runs are equal whenever returns and computed jumps go to instructions |
| Relocate.RunShifted | amxmodx/amx.cpp:494-502 | The unpatched image runs alike at two bases, code addresses apart |
| Relocate.BaseDoesNotMatter | amxmodx/amx.cpp:564-775 | The patched image runs alike wherever it is loaded |
| ControlFlow.CallPushes | amxmodx/amx.cpp:2082-2089 | A call pushes the offset of the instruction behind it into the next stack cell, changes nothing else of registers and data, and goes to its operand or to the primary register |
| ControlFlow.ReturnPops | amxmodx/amx.cpp:2065-2081 | A return takes the frame from the stack, goes on at the offset behind it, and RETN takes the parameters off |
| ControlFlow.ReturnsBehindCall | amxmodx/amx.cpp:2065-2089 | Along every run, a return that finds the return cell of a call as the call left it goes on at the instruction behind the call, with the caller's stack |
| ControlFlow.ReturnsGoBack | amxmodx/amx.cpp:2065-2089 | In a run whose functions leave their return cells alone, and whose register jumps go to instructions, every return goes to an instruction of the sweep |
| ControlFlow.CallsRunAlike | amxmodx/amx.cpp:494-502 | For a well-formed image such runs, of every length, are equal before and after the sweep |
| ControlFlow.JumpsGo | amxmodx/amx.cpp:2090-2170 | A direct jump goes to its operand, a relative one that many bytes beyond the next instruction, a conditional one only when its comparison holds of the registers as cells or as numbers |
| ControlFlow.SwitchGoes | amxmodx/amx.cpp:2508-2518 | A switch goes to the address of the first record with the value of the primary register, or to the default |
| ControlFlow.LengthsAre | amxmodx/amx.cpp:564-775 | The sweep passes each instruction with the operands of its opcode, and records of variable length with their sizes |
| ControlFlow.StraightGoesOn | amxmodx/amx.cpp:2487-2507 | Any other instruction goes on at the next instruction of the sweep; debug records change nothing |
| Interpreter.Amx.Next | amxmodx/amx.cpp:2082-2170 | One round of the interpreter's loop, in place, does the step that the results on relocation and on control flow speak of |
| Interpreter.Amx.Transfer | amxmodx/amx.cpp:2082-2170 | Calls and jumps, in place, do the step of which ControlFlow.CallPushes and ControlFlow.JumpsGo give destination and pushed return address |
| Interpreter.Amx.ReturnFromCall | amxmodx/amx.cpp:2065-2081 | Returns, in place: frame and checked return offset come from the stack, and RETN takes the parameters off it |
| Interpreter.Amx.Lookup | amxmodx/amx.cpp:2508-2518 | The loop over a case table finds the first matching record, or the default |
| Interpreter.Amx.SwitchTo | amxmodx/amx.cpp:2508-2518 | A switch, in place, through the table at its operand |
| Interpreter.RunBoth | amxmodx/amx.cpp:494-502 | A machine on the swept image and one on the unswept image that start alike stay alike, round for round |
| Forwards.CSPForward.Set | amxmodx/CForward.cpp:374-402 | Both ways to set up a forward: function, name, signature, one reference |
| Forwards.CForwardMngr.RegisterSPForward | amxmodx/CForward.cpp:608-726 | A registration shares the first live forward of the same plugin, function and signature, or else takes a slot; the whole new state is given |
| Forwards.CForwardMngr.RecycleSPForward | amxmodx/CForward.cpp:633-646 | The id on top of the free stack is reused, or given back if the function does not exist |
| Forwards.CForwardMngr.UnregisterSPForward | amxmodx/CForward.cpp:823-858 | A release counts down, frees the slot at zero, or puts that off while the forward executes |
| Forwards.CForwardMngr.DuplicateSPForward | amxmodx/CForward.cpp:860-870 | A live handle is registered again by its function, a dead one is refused |
| Forwards.CForwardMngr.BeginExecute | amxmodx/CForward.cpp:404-421 | An execution starts exactly under the guards of execute, and raises the nesting depth |
| Forwards.CForwardMngr.EndExecute | amxmodx/CForward.cpp:571-573 | An execution lowers the nesting depth and finishes a release that was put off |
| Forwards.CForwardMngr.FinishExecute | amxmodx/CForward.cpp:733-759 | A release that was put off is finished exactly when no execution of the forward is left |
| Forwards.RegisterGivesFunction | amxmodx/CForward.cpp:608-726 | A registration yields a live handle to the function that was asked for, and fails exactly if the name is not public |
| Forwards.StepKeepsInv | amxmodx/CForward.cpp:608-858 | Every registration, duplication, release, entry and exit keeps the account: references equal holders, depth equals executions on the stack, a slot is on the free stack once if free and not at all otherwise, a put-off release has no reference and executes |
| Forwards.RunKeepsInv | amxmodx/CForward.cpp:608-858 | The account holds at every point of every run |
| Forwards.EntersExactly | amxmodx/CForward.cpp:404-421 | A forward is entered if and only if its plugin runs and it is live and not released; a refused execution changes nothing |
| Forwards.RunKeepsTarget | amxmodx/CForward.cpp:823-858 | No recycling under a holder: through every interleaving a held or executing handle keeps plugin, function, name and signature |
| Forwards.NothingHeldNothingLost | amxmodx/CForward.cpp:849-857 | Without holders and executions every slot is free and on the free stack exactly once |
| Forwards.RunKeepsDistinct | amxmodx/CForward.cpp:610-627 | No two live forwards ever have the same plugin, function and signature |
| Forwards.RescueWhileExecuting | amxmodx/CForward.cpp:620-626 | An equal registration while a released forward executes, however deep on the stack, gets the same id; through every run after it, as long as somebody holds the id, the forward stays live and leads to the same function |
| Tasks.StepKeepsWInv | amxmodx/CTask.cpp:99-357 | Every step of tasks, frame callbacks, nested frames, clears and other holders keeps the ledger, the control stack, the counter and the hint |
| Tasks.RunKeepsWInv | amxmodx/CTask.cpp:99-357 | These hold at every point of every run from the start |
| Tasks.LedgerBalances | amxmodx/CTask.cpp:54-80 | At every point of every run the reference count of a forward is the number of tasks not free that hold it plus frame callbacks waiting or running that hold it plus other holders, and its depth the number of its executions |
| Tasks.NoHolderNoForward | amxmodx/CFrameAction.h:22-54 | Without tasks, frame callbacks, other holders and executions every slot is on the free stack, once |
| Tasks.NothingIsSkipped | amxmodx/CTask.cpp:293-296 | The counter is never below the number of pending tasks, so a frame is skipped only if there is none |
| Tasks.CounterIsExact | amxmodx/CTask.cpp:238-331 | Without a clear inside a frame the counter is the number of tasks not free plus those freed in their own callback |
| Tasks.HintedScan | amxmodx/CTask.cpp:211-236 | A search from the hint finds the slot that a search from the start finds |
| Tasks.FirstSlotIsTaken | amxmodx/CTask.cpp:211-236 | In every run a registration takes the first reusable slot, or a new one if there is none |
| Tasks.TaskCallsItsPlugin | amxmodx/CTask.cpp:128-142 | In every run a pending task holds a live forward of its own plugin with the signature of its parameters |
| TaskTimes.CalledAtIntervals | amxmodx/CTask.cpp:99-157 | Along every run, a frame that looks at a pending task without a time flag starts its callback if and only if its plugin runs, its count is not zero, and the clock is at or past the time it was set plus k+1 intervals, k being the callbacks started so far; otherwise no task changes |
| TaskTimes.CalledWhenCame | amxmodx/CTask.cpp:99-157 | The same for all flags where the plugin may not run at some of the frames: a round in which it did not run counts as well |
| TaskTimes.CalledAfterStart | amxmodx/CTask.cpp:110-114 | The same for flag 4: from one second before the interval on, counted from the start of the map |
| TaskTimes.CalledBeforeEnd | amxmodx/CTask.cpp:115-119 | The same for flag 8: from one second and the interval before the limit on, and never without a limit |
| TaskTimes.EndsAfterLastCall | amxmodx/CTask.cpp:141-156 | Along every run, when its callback returns a task ends if and only if it was set for one call, or has had the number of calls it was set for |
| TaskTimes.NeverEnds | amxmodx/CTask.cpp:127-153 | A task of no rounds is freed, without a call, when its time has come |
| TaskTimes.FrameLooksAtAll | amxmodx/CTask.cpp:293-331 | Along every run, a frame looks at every task that there was when it began, unless a clear is deferred in it |
| TaskTimes.RunKeepsTimed | amxmodx/CTask.cpp:16-51 | Along every run a pending task has the interval, flags and count of its request, and its next time follows from the rounds it has had |
| TaskTimes.SetTaskGives | amxmodx/CTask.cpp:211-236 | A task set for a public function takes the first slot neither pending nor in its callback, with all that was asked for, and its forward leads to that function |
| TaskTimes.RemoveFreesExactly | amxmodx/CTask.cpp:238-262 | A removal frees exactly the pending tasks of the id, and of the plugin if one is given; nothing else changes |
| TaskTimes.ChangeSetsExactly | amxmodx/CTask.cpp:264-284 | A change gives exactly these tasks the new interval and, outside their callbacks, a new next time |
| TaskTimes.ClearLeavesNone | amxmodx/CTask.cpp:333-357 | After a clear no task is pending; inside a frame the slots stay until its end |
| Tasks.RunsAsOftenAsSet | amxmodx/CTask.cpp:99-157 | For every repeat value and every flag: a task that is due again and again is rescheduled by its interval until it has had n rounds, and then is free, where n is the count, without end for the endless flag or a count of -1, none for 0, and one for counts below -1 and tasks that do not repeat |
| NestedFrames.ClearDangles | amxmodx/CTask.cpp:335-357 | A callback that clears the tasks: when it returns, a task that still runs further down the stack has been destroyed, if and only if more than one frame is open |
| NestedFrames.NestedFrameDangles | amxmodx/CTask.cpp:293-332 | A frame that starts while a clear is deferred ends at once if no task was set since; otherwise its rounds skip free slots, and at the first task it ends, or runs that one callback and ends when it returns, whatever the callback did while the clear stays deferred; the running task of the outer frame is destroyed then |
| NestedFrames.TwoFramesOpen | amxmodx/CTask.cpp:293-324 | From every reachable state without tasks: two due tasks, a frame, a nested frame in the first callback, and the second callback runs two frames deep |
| NestedFrames.DeferredWithTask | amxmodx/CTask.cpp:335-350 | From every reachable state without tasks: a callback clears the tasks and sets one, so that a clear is deferred and the counter is not zero |
| NestedFrames.BothReached | amxmodx/CTask.cpp:293-357 | Both states are reached in runs from the start, for every public function of every plugin |
| NestedFrames.DanglingReached | amxmodx/CTask.cpp:293-357 | In a run from the start, a clear and the return of the callback that made it leave a running task destroyed |
| FrameOrder.FirstComeFirstServed | amxmodx/CFrameAction.h:22-54 | Along every run without a clear, the callbacks taken off the queue, and then those that wait, are those asked for, in their order |
| FrameOrder.FrontIsCalled | amxmodx/CFrameAction.h:28-53 | A round of the loop takes the first callback, and calls it if its plugin runs |
| FrameOrder.RequestJoins | amxmodx/amxmodx.cpp:4724-4739 | A request for a public function puts a forward that leads to it behind all others |
| FrameCallbacks.StepMissing | amxmodx/CFrameAction.h:44-63 | What the loops owe beyond what waits: a request that succeeds lessens it by one, a loop that starts and a clear set it to what was owed before, and no other step of anybody changes it |
| FrameCallbacks.StepKeepsOwed | amxmodx/CFrameAction.h:44-63 | The queue covers what the loops owe after a step if and only if the step does not start a loop or clear the queue while another loop is not through |
| FrameCallbacks.RoundNeverStarves | amxmodx/CFrameAction.h:44-54 | Unless callbacks are run or cleared while some of a round are due, the loop over frame callbacks always finds one to take; those asked for meanwhile come behind |
| FrameCallbacks.LoopsEnd | amxmodx/CFrameAction.h:44-54 | From every state the callbacks can return until all loops are through or one starves, in a bounded number of steps |
| FrameCallbacks.StarvesExactly | amxmodx/CFrameAction.h:44-63 | Without further requests the loops come to pop an empty queue if and only if they owe more callbacks than wait, and get through if and only if they do not, whatever callbacks do with tasks and forwards |
| FrameCallbacks.ClearStarves | amxmodx/CFrameAction.h:56-63 | A callback that clears the queue while its loop has more to take: when it returns, the loop finds an empty queue |
| FrameCallbacks.StarvedIsReachable | amxmodx/CFrameAction.h:38-63 | This happens in a run from the start, for every public function: two requests, and the first callback clears |
| Tasks.SetTaskKeeps | amxmodx/amxmodx.cpp:2734-2762 | Setting a task keeps ledger and bindings, whether or not the function exists |
| Tasks.RequestFrameKeeps | amxmodx/amxmodx.cpp:4724-4739 | Asking for a frame callback keeps the ledger |
| Tasks.RemovedCount | amxmodx/CTask.cpp:238-262 | Removal releases exactly the forwards of the tasks that it frees |
| Tasks.DestroyTInv | amxmodx/CTask.cpp:326-332 | The end of a frame with a deferred clear destroys all tasks and keeps the counter at or above the number of pending ones |
| Tasks.CallTInv | amxmodx/CTask.cpp:126-137 | The start of a callback marks its task and keeps counter and hint |
| Tasks.ReturnTInv | amxmodx/CTask.cpp:138-157 | The end of a callback unmarks, reschedules or frees its task, and keeps counter and hint |
| Tasks.ActionReturnFInv | amxmodx/CFrameAction.h:28-53 | A frame callback that returns releases its forward, also if it was released meanwhile by others |
| TaskObjects.CTask.Set | amxmodx/CTask.cpp:15-52 | A task takes over the request; no forward is touched |
| TaskObjects.CTask.Clear | amxmodx/CTask.cpp:54-80 | A task is blank afterwards and its forward released exactly if it held one |
| TaskObjects.CTask.Reschedule | amxmodx/CTask.cpp:144-156 | The end of a callback reschedules or clears the task as the machine does |
| TaskObjects.CTask.Change | amxmodx/CTask.cpp:87-97 | Interval and next time change, the latter not while the task executes |
| TaskObjects.CTaskMngr.FindSlot | amxmodx/CTask.cpp:213-217 | The loop from the hint finds the first reusable slot at or behind it |
| TaskObjects.CTaskMngr.RegisterTask | amxmodx/CTask.cpp:211-236 | In place, a registration does what the machine's does |
| TaskObjects.CTaskMngr.RemoveTasks | amxmodx/CTask.cpp:238-262 | In place, the loop frees the matching tasks, releases their forwards in order, adjusts counter and hint, and counts them |
| TaskObjects.CTaskMngr.ChangeTasks | amxmodx/CTask.cpp:264-279 | In place, exactly the matching tasks change |
| TaskObjects.CTaskMngr.Clear | amxmodx/CTask.cpp:335-357 | Inside a frame the tasks are freed and the destruction deferred, outside they are destroyed; all forwards are released |
| TaskObjects.CTaskMngr.VisitTask | amxmodx/CTask.cpp:299-308 | A round of startFrame up to the callback, in place, is the machine's step, of which TaskTimes.CalledAtIntervals tells when it calls |
| TaskObjects.CTaskMngr.LeaveTask | amxmodx/CTask.cpp:308-322 | The rest of the round, and of the frame if a clear was deferred, does what the machine's step does |
| TaskObjects.CTaskMngr.EndFrame | amxmodx/CTask.cpp:324-332 | The end of a frame, with or without a deferred clear |
| TaskObjects.CFrameActionMngr.AddFrameAction | amxmodx/CFrameAction.h:38-41 | A callback waits behind all others |
| TaskObjects.CFrameActionMngr.BeginFront | amxmodx/CFrameAction.h:44-53 | The first waiting callback starts, or is dropped and its forward released |
| TaskObjects.CFrameActionMngr.FinishFront | amxmodx/CFrameAction.h:22-30 | A callback that returns leaves its forward and releases it |
| TaskObjects.CFrameActionMngr.Clear | amxmodx/CFrameAction.h:56-63 | All waiting callbacks go, and their forwards are released in order |
| AsyncLog.LogRing.Enqueue | amxmodx/amxxlog.cpp:208-220 | The ring is a FIFO of at most 1023 lines: a line joins its end, clipped to the slot, or the full ring refuses it |
| AsyncLog.LogRing.Take | amxmodx/amxxlog.cpp:93-104 | The oldest line leaves the ring |
| AsyncLog.LogRing.IsEmpty | amxmodx/amxxlog.cpp:93-96 | Equal head and tail mean no line |
| AsyncLog.LogWriter.WriteLine | amxmodx/amxxlog.cpp:107-139 | In place, the writer does with a line what the machine's Write step does, of which AsyncLog.LineReachesFile tells when it reaches its file |
| AsyncLog.StepKeepsInv | amxmodx/amxxlog.cpp:86-262 | Every step of every thread keeps flags, conservation, files, counts and drain account |
| AsyncLog.NoLineIsLost | amxmodx/amxxlog.cpp:86-225 | In every interleaving: at most one writer, at most 1023 lines in the ring, accepted lines = processed, then at most one in flight, then the ring, in order; drops counted and reported = lines refused + lines the writer could not write |
| AsyncLog.FilesGetTheirLines | amxmodx/amxxlog.cpp:106-136 | A file receives, in the order of acceptance, exactly the texts of the written lines of its own path |
| AsyncLog.LineReachesFile | amxmodx/amxxlog.cpp:107-139 | A line reaches its file, and no other, exactly if the write succeeds and the file is already open under its path or can be opened; otherwise no file changes and the drop count rises by one |
| AsyncLog.EverythingReachesItsFile | amxmodx/amxxlog.cpp:86-139 | Along every run in which opens and writes succeed, a file holds the texts of all lines processed for its path, in order, and the writer drops nothing |
| AsyncLog.RingRefusesWhenFull | amxmodx/amxxlog.cpp:206-214 | A line is taken while fewer than 1023 wait, otherwise it is dropped and counted |
| AsyncLog.AcceptedWasLogged | amxmodx/amxxlog.cpp:215-217 | Along every run, every line accepted has the path and the text that some call logged, each cut to its slot |
| AsyncLog.WrittenIsOwn | amxmodx/amxxlog.cpp:106-136 | Every text in a file comes from a written line of its path |
| AsyncLog.WriterEndsEmpty | amxmodx/amxxlog.cpp:93-96 | When a writer ends the ring is empty and every line accepted by then is processed |
| AsyncLog.ShutdownDrains | amxmodx/amxxlog.cpp:244-262 | After the join, the lines accepted before the stop are processed if and only if a writer ran or the ring was empty when the stop flag was raised |
| AsyncLog.OrderlyShutdownDrains | amxmodx/amxxlog.cpp:166-262 | With one thread that logs and shuts down, a shutdown leaves nothing in the ring and no line ever waits without a writer |
| AsyncLog.WriterCanBeStranded | amxmodx/amxxlog.cpp:260-261 | A run in which a second thread logs between the two flag stores ends with the running flag up, no writer and a line in the ring |
| AsyncLog.UnservedExactly | amxmodx/amxxlog.cpp:244-262 | Along every run, outside of a shutdown, the running flag is up without a writer if and only if a writer has ended between the two flag stores and the flag has not been taken down since |
| AsyncLog.StrandedLinesWait | amxmodx/amxxlog.cpp:168-172 | From there nothing leaves the ring until a further shutdown takes the flag down |
| Smc.StepNests | amxmodx/CTextParsers.cpp:395-690 | One character opens or closes at most one section, keys come inside sections, and the level counts what is open |
| Smc.ParseNests | amxmodx/CTextParsers.cpp:330-765 | For every text, closings never exceed openings, keys occur inside sections only, and a parse that ends well is balanced |
| Smc.PrintThenParse | amxmodx/CTextParsers.cpp:330-765 | A printed document is parsed to exactly its own sections and keys, in order, and without error |
| SmcLayout.LayoutDoesNotMatter | amxmodx/CTextParsers.cpp:395-765 | The layout does not matter: a document in quotes or in words, with blanks, newlines, line comments and comments over several lines before keys and sections, between keys and values, between names and openings, behind values, before endings and at the end, is parsed to exactly its own sections and keys, without error |
| SmcLayout.LeadsBlock | amxmodx/CTextParsers.cpp:457-511 | A comment over any number of lines goes by without events, up to the first end of a comment behind the slash that it begins with |
| SmcLayout.LeadsLine | amxmodx/CTextParsers.cpp:525-565 | A comment from // or ; on goes by without events up to the end of its line |
| SmcLayout.LeadsFiller | amxmodx/CTextParsers.cpp:395-700 | Between tokens blanks, newlines and comments go by without events, and behind a value those that stay on its line |
| SmcLayout.LeadsToken | amxmodx/CTextParsers.cpp:643-698 | A quoted string or a word is taken as it is; behind a key in quotes a value may be several words |
| SmcLayout.ClosingBehindPair | amxmodx/CTextParsers.cpp:599-608 | A section cannot end on the line of a pair: the closing fails, for every pair |
| SmcLayout.WordBeforeOpening | amxmodx/CTextParsers.cpp:567-596 | A word as the name of a section that touches its opening runs on to the end of the buffer |
| SmcLayout.UnfinishedFails | amxmodx/CTextParsers.cpp:567-641 | An opening without a name, a section without an end and a closing outside of all sections fail, each with its error |
| SmcLayout.PairOutsideFails | amxmodx/CTextParsers.cpp:433-439 | A pair outside of all sections fails, whatever its layout |
| SmcLayout.SlashEndsBlock | amxmodx/CTextParsers.cpp:491-507 | A comment over several lines that begins with a slash ends there |
| Smc.LeadsQuoted | amxmodx/CTextParsers.cpp:446-480 | A quoted string is staged whole |
| GameConfig.CGameConfig.NewSection | amxmodx/CGameConfigs.cpp:84-296 | In place, the listener's branches over seventeen states; the whole new state is given |
| GameConfig.CGameConfig.KeyValue | amxmodx/CGameConfigs.cpp:298-501 | In place, what a key changes in each state |
| GameConfig.CGameConfig.LeavingSection | amxmodx/CGameConfigs.cpp:503-748 | In place, where each state returns to and what is stored then |
| GameConfig.CGameConfig.ParseStream | amxmodx/CTextParsers.cpp:330-765 | The parse loop delivers to the reader exactly the events of the text, and ends with its error |
| GameConfig.StepTracks | amxmodx/CGameConfigs.cpp:84-296 | One event keeps state depth + ignored + custom levels equal to the true depth exactly unless it is one of the losing events |
| GameConfig.TracksExactly | amxmodx/CGameConfigs.cpp:503-598 | Along every sequence of events that a parse can deliver, the depth is tracked at all times if and only if no #supported, CRC or custom section ends inside a class and no class without a name holds a Classes section |
| GameConfig.ParseTracks | amxmodx/CGameConfigs.cpp:863-894 | The same for every text, and a parse that ends well then leaves the reader outside of everything |
| GameConfig.CrcInClassLosesPlace | amxmodx/CGameConfigs.cpp:585-598 | A CRC block inside a class leaves the reader two levels off |
| GameConfig.SectionReturns | amxmodx/CGameConfigs.cpp:503-748 | A whole section, however deep, brings the reader back to where it was, or among the games after a failed check |
| GameConfig.IgnoredChangesNothing | amxmodx/CGameConfigs.cpp:86-90 | While an ignored section is open nothing changes but the count |
| GameConfig.IgnoredSectionLeavesNoTrace | amxmodx/CGameConfigs.cpp:86-135 | A section that is ignored leaves the reader exactly as it was |
| GameConfig.FailedCheckStoresNothing | amxmodx/CGameConfigs.cpp:585-598 | After a failed #supported or CRC block nothing is stored until the game section closes, and then the reader is among the games |
| GameConfig.SupportedExactly | amxmodx/CGameConfigs.cpp:401-432 | A #supported block of the default game, with any sections inside, leaves the reader in the game section if and only if its lines name both game and engine, or one of them before any line of the other kind; else among the games with the rest skipped; nothing but the flags changes |
| GameConfig.OrderMatters | amxmodx/CGameConfigs.cpp:401-432 | The game line before a line of another engine applies the section, the same two lines in the other order do not |
| GameConfig.LeafReads | amxmodx/CGameConfigs.cpp:298-501 | Of an entry with any sections inside, exactly its own lines are read, in order |
| GameConfigLaws.OffsetForPlatform | amxmodx/CGameConfigs.cpp:370-394 | An offset gets the number of the last line with the name of the platform, or without one of the last line with the accepted other name, whatever their order, and is stored for its class or the game; without either nothing is stored |
| GameConfigLaws.SigForPlatform | amxmodx/CGameConfigs.cpp:433-444 | The same for a signature, looked up in the library that the last library line names, or in the default one |
| GameConfigStores.GameIsEntered | amxmodx/CGameConfigs.cpp:106-123 | Among the games, the section for all, the default and the running game's are entered; any other leaves no trace |
| GameConfigStores.KeysAreStored | amxmodx/CGameConfigs.cpp:395-400 | A section of keys stores each key with the value of its last line and changes nothing else |
| GameConfigStores.KeysOfFile | amxmodx/CGameConfigs.cpp:85-296 | However a file with the keys of a game is laid out, they are stored exactly if the game is the running one or the file speaks of all games or the default |
| GameConfigStores.OffsetIsDescribed | amxmodx/CGameConfigs.cpp:307-394 | An offset is stored, for its class if there is one, with the type, size and sign that its last lines give and the number for the platform |
| GameConfigStores.AddressForPlatform | amxmodx/CGameConfigs.cpp:470-493 | An address is stored with the signature of its last line for it and the first eight numbers to read, its own and those in the platform's sections; other platforms do not count |
| GameConfigStores.SectionOfEntries | amxmodx/CGameConfigs.cpp:140-175 | From a game or a class, the sections of offsets, signatures and addresses come to what their entries store, and lead back |
| GameConfigStores.ClassIsEntered | amxmodx/CGameConfigs.cpp:127-138 | A class is entered under its name, and left again for its game |
| GameConfigStores.CrcExactly | amxmodx/CGameConfigs.cpp:445-469 | A game's section goes on behind its checksums if and only if some section names a known binary and gives its checksum for the platform; otherwise the rest is skipped |
| GameConfigLaws.TidyKeeps | amxmodx/CGameConfigs.cpp:503-748 | On every document whose classes have names and whose check and custom sections stand directly in a game, the reader never loses its place and ends outside of everything, in every game |
| GameConfigLaws.KeepsAtEvents | amxmodx/CGameConfigs.cpp:84-296 | The place is kept in a document if and only if it is lost at none of its events |
| GameConfigLaws.TidyTextTracks | amxmodx/CGameConfigs.cpp:863-894 | The printed text of such a document is parsed to its events, at each of which the depth is tracked, and the reader ends outside of everything |
| Format.Atcprintf | amxmodx/format.cpp:548-815 | For every format, parameters and translations, self-referring ones too, and text of any bytes, it terminates with the specified text, without a last character that is not whole, and a terminator at index at most maxlen; with a parameter error it returns 0 and the next parameter is unchanged; cells outside are untouched, unless the character to take off began before the buffer: then the result is negative and exactly the cell there becomes zero |
| Format.AddTranslation | amxmodx/format.cpp:680-710 | A translation is written behind what is there and gets what is left of the space; a failed one adds nothing |
| Format.AddPiece | amxmodx/format.cpp:589-796 | One directive: what it writes, which parameters it takes, or a parameter error |
| Format.AddString | amxmodx/format.cpp:162-211 | A string is cut to its precision and the space, loses a last character that is not whole if it has a precision, and is filled to its width; where more is to be taken off than is shown it stops, because the copying loop runs away |
| Format.CheckValidChar | amxmodx/util.cpp:437-474 | The loop back over continuing bytes finds how many bytes of the last character there are, and 0 if it is whole |
| Format.TrimEnd | amxmodx/format.cpp:803-814 | With the room used up, the terminator moves before a last character that is not whole, wherever that began |
| Format.AddDigits | amxmodx/format.cpp:335-546 | A number in its field, cut to the space |
| Format.AddNumber | amxmodx/format.cpp:335-546 | Signed, unsigned, binary and hexadecimal numbers of 32 bits, in place: the text that FormatNumbers.NumberIsWritten reads back, cut to the space |
| Format.ReadDirective | amxmodx/format.cpp:583-622 | Flags, width and precision are read as specified, digits in 32 bits |
| Format.DigitsOf | amxmodx/format.cpp:394-400 | The digit loop finds the digits of the number, the last one first |
| FormatNumbers.NumberAlone | amxmodx/format.cpp:335-546 | For every parameter: %d and %i write a numeral that, read from its most significant digit on, is the signed number, with a minus exactly if it is negative; %u, %b, %x and %X one that reads in base 10, 2 and 16 as the unsigned number, with small and capital letters for the last two; no zero stands before other digits |
| FormatNumbers.NumberIsWritten | amxmodx/format.cpp:628-659 | The same for a number directive anywhere in a format, with flags, width and precision: its text stands in the field it asks for, cut to the room, and the format goes on behind it with the next parameter |
| FormatNumbers.DirectiveReads | amxmodx/format.cpp:583-621 | Flags, width and precision written in a directive, anywhere in a format, are what is read: the numerals read as their values |
| FormatNumbers.StringIsWritten | amxmodx/format.cpp:162-211 | A string directive anywhere in a format writes as many characters of its 7-bit string as its precision lets through, with spaces up to its width, cut to the room |
| FormatNumbers.StringAlone | amxmodx/format.cpp:660-679 | %s, %a, %n and %N write the string of the parameter, of its handle, and the names of its player; a handle or player that is none is an error |
| FormatNumbers.CharacterIsByte | amxmodx/format.cpp:622-627 | %c writes the lowest byte of its parameter |
| FormatNumbers.TranslationAlone | amxmodx/format.cpp:680-710 | %L and %l write the format that their key stands for in their language, with the parameters behind them, or a text that names the key |
| FormatNumbers.OtherIsItself | amxmodx/format.cpp:774-800 | Any other character behind the percent sign, itself among them, is written as it is |
| FormatNumbers.MissingFails | amxmodx/format.cpp:589-796 | A directive without the parameters that it takes is an error |
| FormatLaws.DigitsHaveValue | amxmodx/format.cpp:394-400 | The digits that the digit loop collects, the last one first, have the value of the number, in every base used |
| FormatLaws.DigitsFit | amxmodx/format.cpp:335-510 | No number needs more than the 32 places set aside for its digits |
| FormatLaws.FieldIsAsWideAsAsked | amxmodx/format.cpp:402-430 | The field is as wide as digits and width ask, cut to the space, if and only if the number is not adjusted to the left with digits beyond its width; else it takes all the space |
| FormatLaws.LeftAdjustedFills | amxmodx/format.cpp:402-430 | The format %-d fills the whole buffer, for every number and every room |
| FormatLaws.EscapedIsLiteral | amxmodx/format.cpp:563-576 | A text with its percent signs doubled is written as it is, cut to the space and at its end, whatever parameters and translations there are |
| FormatLaws.EscapedKeepsWholeCharacters | amxmodx/format.cpp:803-814 | Of such a text of whole characters exactly those are written that fit |
| FormatText.Utf8IsWhole | amxmodx/util.cpp:437-474 | The UTF-8 encoding of every code point is a whole character, and no shorter beginning of it is |
| FormatText.KeepsWholeCharacters | amxmodx/util.cpp:437-474 | The test takes off exactly the bytes of a character that does not fit: of n bytes of a text of whole characters those stay that fit into n bytes |
| FormatText.StringKeepsWholeCharacters | amxmodx/format.cpp:190-194 | A string with a precision shows exactly the whole characters that fit into precision and space |
| FormatText.SevenBitExactly | amxmodx/format.cpp:548-815 | 7-bit text keeps to its buffer if and only if there is room or nothing broken ends before the buffer, and no string directive on the way, also in translations, shows nothing of a string behind something broken |
| FormatText.NeverLostExactly | amxmodx/format.cpp:162-211 | No format with no parameter makes the copying of a string run away, if and only if no string at hand stands behind something broken |
| FormatText.NoRoom | amxmodx/format.cpp:803-814 | A buffer without room behind a cell of ones: that cell is zeroed and the result is -1 |
| FormatText.NothingBehindOnes | amxmodx/format.cpp:190-201 | A precision of zero, or any precision with the empty string, behind a cell of ones makes the copying run away |
| FormatText.HighCharacterCut | amxmodx/format.cpp:622-627 | A character of 200 in the last place is taken off |
| FormatLaws.ShorterBufferGetsPrefix | amxmodx/format.cpp:548-815 | For 7-bit text without parameter errors a shorter buffer receives the beginning of what a longer one receives, through translations of any depth |
| FormatLaws.ShorterIsNoPrefix | amxmodx/format.cpp:680-710 | With characters of several bytes it need not: a translation that does not fit leaves its room to what comes behind it |
| Events.EventsMngr.Message | amxmodx/CEvent.cpp:231-489 | A message fires exactly the active events that are eligible and meet, at every parameter with conditions, one of them, in order; afterwards no event is marked done and the vault holds all parameters |
| Conditions.FiresExactly | amxmodx/CEvent.cpp:290-428 | An eligible event fires if and only if each parameter that its conditions name meets one of them: a number equal, unequal, below, above or with a bit in common, a text equal, unequal or found anywhere |
| Conditions.EligibleExactly | amxmodx/CEvent.cpp:22-59 | Whom an event is for, by the letters a to g of its registration: the world, players, once at a time, the dead, the living, those of flesh, bots |
| Conditions.HoldsExactly | amxmodx/CEvent.cpp:337-428 | What each operator asks of a number, a floating-point number and a text |
| Conditions.AmongBoth | amxmodx/CEvent.cpp:430-489 | Those that fire keep the order of the list that they come from: what is left of two lists, one behind the other, is what is left of the first and then of the second |
| Events.EventsMngr.NextParam | amxmodx/CEvent.cpp:76-102 | There is room for the parameter and all earlier ones are kept through growth |
| Events.EventsMngr.ParserInit | amxmodx/CEvent.cpp:231-288 | Exactly the events that are not eligible are ruled out |
| Events.EventsMngr.ParseValue | amxmodx/CEvent.cpp:290-428 | A parameter is kept, and rules out exactly the events that have conditions on it of which none holds |
| Events.EventsMngr.ExecuteEvents | amxmodx/CEvent.cpp:430-489 | What is left fires in order, and every mark is taken back |
| Events.ClEvent.Test | amxmodx/CEvent.cpp:305-333 | The condition loop decides for one event |
| Events.FiresMore | amxmodx/CEvent.cpp:290-335 | One more parameter changes the verdict over the whole message exactly by its own |
| LogEvents.CLogCmp.CompareCondition | amxmodx/CLogEvent.cpp:32-43 | The remembered or fresh answer is that of a comparison with the given argument |
| Conditions.RunsExactly | amxmodx/CLogEvent.cpp:208-243 | A log event runs if and only if for each of its filters there is one for the same argument whose text the argument equals, or has somewhere |
| Conditions.ContainsExactly | amxmodx/CLogEvent.cpp:32-43 | A text is found wherever it stands in the other |
| LogEvents.LogEventsMngr.RegisterCondition | amxmodx/CLogEvent.cpp:45-70 | Equal filters share a comparator, and no comparator's memory becomes wrong |
| LogEvents.LogEventsMngr.RegisterFilter | amxmodx/CLogEvent.cpp:72-92 | A filter joins the group of its position, and only the filters of its event grow |
| LogEvents.LogEventsMngr.SetLogLine | amxmodx/CLogEvent.cpp:107-122 | A new line invalidates every memory, and the arguments that it does not have keep the texts of earlier lines |
| LogEvents.LogEventsMngr.ExecuteLogEvents | amxmodx/CLogEvent.cpp:208-243 | Exactly the active events of the line's argument count run whose every filtered position has a filter that matches the stored argument, which beyond the line is one of earlier lines; whatever is remembered |
| LogEvents.VerdictFromLine | amxmodx/CLogEvent.cpp:208-243 | For a line, the verdict is the same whatever earlier lines left, if and only if the line's own positions fail or every filtered position beyond the line matches all texts |
| LogEvents.LineAloneDecides | amxmodx/CLogEvent.cpp:208-243 | For lines of n arguments the verdict depends on the line alone if and only if every filtered position from n on matches all texts, so in particular if there is none |
| LogEvents.EarlierLineDecides | amxmodx/CLogEvent.cpp:107-168 | An event for one argument that filters the sixth runs for a line of one argument behind a longer line, and not without |
| LogEvents.LogEventsMngr.CheckCondition | amxmodx/CLogEvent.cpp:225-234 | A group matches if one of its comparators does |
| LogEvents.CLogEvent.GroupsDecide | amxmodx/CLogEvent.cpp:72-92 | The groups of an event all match exactly if all its filtered positions do |
| Commands.CmdMngr.GetCmd | amxmodx/CCmd.cpp:79-116 | From any cursor: a lookup that begins anew or goes on from a right cursor finds the id-th command that counts, and none exactly when there are not so many; one that goes on from a stale cursor finds the command whose number is off by what the cursor is off |
| Conditions.UsableExactly | amxmodx/CCmd.cpp:93-116 | A command counts for somebody if and only if it can be called, is listed, and asks for no access or for some that they have |
| Conditions.BeforeExactly | amxmodx/CCmd.cpp:143-149 | The order of commands is the dictionary's, by command and for equal ones by argument |
| Commands.LookupsRight | amxmodx/CCmd.cpp:93-116 | Lookups that go on from a cursor all find the right command if and only if the cursor has the number of its command, and that shows in the lookup of its own number |
| Commands.LookupsAfterInsert | amxmodx/CCmd.cpp:93-161 | After an insertion all lookups that go on from a cursor that was right are right, if and only if the new command does not count, entered behind it, or the cursor was beyond the end with a number still too great |
| Commands.LookupMisled | amxmodx/CCmd.cpp:79-161 | Two commands, a lookup of the second, an insertion between them: the same lookup again gives the one that is now the third, and going on gives none |
| Commands.CmdMngr.GetCmdNum | amxmodx/CCmd.cpp:118-135 | The number of commands that count |
| Commands.CmdMngr.SetCmdLink | amxmodx/CCmd.cpp:137-161 | An insertion keeps the list sorted by command and argument and the cursor at its command, right or stale; a right cursor stays right if and only if the command enters another list, does not count, enters behind it, or leaves its number too great |
| Commands.InsertKeepsSorted | amxmodx/CCmd.cpp:143-155 | A command put before the first one that it precedes keeps the list sorted |
| Commands.CursorAfterInsert | amxmodx/CCmd.cpp:93-107 | An insertion leaves the cursor at its command, with as many commands that count before it as before or one more; a right cursor stays right exactly if there is no more, or it was beyond the end with a number still too great |
| Commands.CmdMngr.ClearBufferedInfo | amxmodx/CCmd.cpp:283-291 | A reset makes the cursor right in any case |
| Commands.BeforeOrder | amxmodx/CCmd.cpp:145-149 | The order by command and argument is total and transitive |
| DataPack.PackAndRead | amxmodx/CDataPack.cpp:96-288 | Any list of cells, numbers and strings packed into a new pack, through any growth, is read back equal after a reset, from memory and the types alone, and then nothing more can be read |
| DataPack.ReadsItem | amxmodx/CDataPack.cpp:170-266 | At an item exactly its own type can be read, and gives the item |
| DataPack.CDataPack.CheckSize | amxmodx/CDataPack.cpp:52-67 | There is room, and the memory keeps what is in it when it moves |
| DataPack.CDataPack.PackCell | amxmodx/CDataPack.cpp:96-110 | Wherever the position is, the cell stands there, position and size are counted up and nothing else changes; the position is at the size afterwards if and only if it was before |
| DataPack.CDataPack.PackFloat | amxmodx/CDataPack.cpp:112-126 | The same for a number |
| DataPack.CDataPack.PackString | amxmodx/CDataPack.cpp:128-147 | The same for a string with its length and its end |
| DataPack.SizeIsEndExactly | amxmodx/CDataPack.cpp:96-152 | After any packs and resets the size is the end of what has been packed if and only if every pack began at the size; otherwise it is beyond |
| DataPack.Perform | amxmodx/CDataPack.cpp:96-236 | The pack itself: at the end of what has been packed more can be read if and only if some pack did not begin at the size |
| DataPack.PackOver | amxmodx/CDataPack.cpp:96-184 | A cell packed over another one after a reset is read back, and nine more bytes count as readable |
| DataPack.CDataPack.ReadWord | amxmodx/CDataPack.cpp:170-234 | The word is read and the position moves behind it, or nothing moves |
| DataPack.CDataPack.ReadString | amxmodx/CDataPack.cpp:241-288 | The string is read and the position moves behind it, or nothing moves |
| PackedStrings.SetString | amxmodx/amx.cpp:3789-3844 | The string, cut to the cells there are, is in the cells packed or unpacked, with its terminator |
| PackedStrings.SetPacked | amxmodx/amx.cpp:3803-3824 | Copying bytes and swapping cells puts the first character into the highest byte, zero behind the last |
| PackedStrings.StrLen | amxmodx/amx.cpp:3752-3785 | The length of the string that the cells are taken for, found through the swapped bytes |
| PackedStrings.PackedLength | amxmodx/amx.cpp:3765-3779 | The first zero byte in memory and the shifting loop find the first zero character |
| PackedStrings.GetString | amxmodx/amx.cpp:3848-3893 | The string that the cells are taken for, cut to the buffer, and a terminator |
| PackedStrings.GetPacked | amxmodx/amx.cpp:3854-3874 | The characters of a packed string from the highest byte down, up to the first zero |
| PackedStrings.PackedRoundTrip | amxmodx/amx.cpp:3789-3893 | A packed string without zero is read back equal, the empty one too |
| PackedStrings.UnpackedRoundTrip | amxmodx/amx.cpp:3825-3893 | An unpacked string is read back equal if and only if it is empty or begins with a 7-bit character |

## Left out

- Engine, game and operating system calls, plugins' own code, the JIT and the assembler core: they enter as parameters or as arbitrary steps.
- Overflow of counters of 32 bits (references, nesting, levels, lines), except the drop counter of the log writer, the digits of a width, and code addresses.
- The header of an image in `amx_Init`, and its tables of natives and public functions.
- Opcodes of `amx_Exec` that only change registers and data are one arbitrary function; natives, stack and heap limits, the debug hook and the replacement of opcodes by labels are not modelled.
- Relocate.SweptImageRunsAlike: assumes that returns and register jumps lead to instructions. ControlFlow.ReturnsGoBack derives this for the returns of programs that leave their return cells alone; whether a program does, and where its register jumps go, depends on the data that it keeps.
- The marshalling of parameters in `CSPForward::execute`, forwards to all plugins, and `CForwardMngr::clear`.
- Tasks.StepKeepsWInv: tasks are cleared at most one frame deep, and no nested frame runs while a clear is deferred; NestedFrames.ClearDangles and NestedFrames.NestedFrameDangles show that otherwise the inner frame destroys tasks that the outer one still runs, and such runs are not followed further.
- Tasks.RunKeepsWInv: a run also ends where a loop over frame callbacks pops an empty queue, after a nested loop or a `clear` (CFrameAction.h:56-63, called at meta_api.cpp:482 and 875); FrameCallbacks.StarvesExactly tells when it comes to that.
- The data passed to a frame callback, the least interval of 0.1 seconds in `set_task`, and rounding of task times, which are real numbers.
- TaskObjects.CTaskMngr.VisitTask: a method stops where a callback begins and another goes on where it ends, because any steps of the machine may lie between.
- Waking of the log writer: it is not proved that it ever runs, only what happens when it does; partial writes and `setvbuf` are not modelled.
- The synchronous path of `CLog` and the choice of file names.
- Reading a file in pieces, lines too long for the buffer, the byte order mark, escapes in strings and listeners that stop a parse; a string without an end of its own runs to the end of the buffer.
- Log messages of the game-config reader, custom handlers' own state, and lookup of files and addresses.
- Format.AddString: where the copying loop runs away the model stops, and so does the outer call after a translation that left its buffer; what stands before the memory at hand counts as zero.
- Output of the formatter beyond the lowest byte of a cell (`%c` of more than 255), the text of floating-point numbers, and the static buffer that two missing translations share when one contains the other.
- Event and log event registration of equal handlers, message hooks, and the read vault of nested messages; no message of the same type arrives while its events run.
- Cutting a log line into arguments, and log lines written by log event callbacks.
- Command types, prefixes, negative ids and registration of equal command lines; permissions and plugins do not change between lookups.
- DataPack.CDataPack.ReadWord: the bytes that the size says can be read are in memory, likewise for strings, which packing after moving back can break; raw memory and `SetPosition` are not modelled.
- PackedStrings.SetString: the size is always given; wide characters are not modelled.
- `CellArray`, vaults, menus, language tables, master files of game configs and the other modules, which would add only easy members.
