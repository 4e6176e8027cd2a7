# Verification of four Citron subsystems

Citron is a small RISC-V kernel written in Rust. This project models four of its subsystems in Dafny
and proves what they are there for, over every input and every sequence of operations. It is checked
with `dafny verify dfyconfig.toml`.

Code that changes state step by step is a class with the fields of the source, whose methods keep the
source's loops and early returns. Each method is proved against a specification on values, and the
main theorems are lemmas about those specifications.

**Process manager** (`src/process.rs`). A priority heap with stale entries, a delta-encoded sleep
queue, counting semaphores, event lists and nested brackets that defer scheduling all act on one
process table. `ProcessModel` gives one step per public operation in terms of who is ready and how
urgent; `ProcessManager` proves that the loops of the source take exactly these steps;
`ProcessInvariant`, `ProcessRuns`, `ProcessHistory`, `ProcessKills` and `ProcessEffects` prove that
nobody is lost, that priorities are honoured, that semaphores keep their books, that brackets are
sound, that timers count ticks, that an idle process makes blocking real, what becomes of killed
processes, and what each operation does to the process that it is called for. `SleepQueue` proves
that the deltas refine a plain table of remaining times.

**Sv39 page tables** (`src/arch/riscv64/paging.rs`). Raw 64-bit entries in pages of 512 words, as in
sections 4.3.2 and 4.4 of the RISC-V Privileged Architecture. A well-formed table is a tree of
pages, none of them shared, with leaves at level 0 only. `PageMapping` has the laws of mapping and
range mapping, `PageClone` those of copying, `PageTeardown` those of freeing; `Paging` holds the
operations.

**Window compositor** (`src/graphics.rs`). `update` repaints a few rectangles, yet the screen must
be what painting the whole stack bottom to top would make it. `Compositing` says what a stack shows
at a point and why the incremental form agrees; `Painting` and `Graphics` hold the loops over pixel
buffers and the layer manager; `Scenes` and `SceneRuns` prove the law for every operation and every
run, also for window operations that fall between a pointer movement and the update at the end of
its packet; `WindowEffects` says what each operation does to its window.

**FAT32 reading under file descriptors** (`src/fs/fat.rs`, `src/fs.rs`). Loops follow cluster chains
on a disk of sectors. `FatVolume` gives a chain its flat contents, `FatDirectory` a directory its
files, as in "FAT Type Determination" and "FAT Directory Structure" of the Microsoft FAT32 File
System Specification 1.03. `FatBytes` and `FatPaths` tie names, fields and paths to the bytes of
entries and the characters of paths. `Fat` proves that reading is slicing and that searching is
searching the flat directory; `Descriptors` and `FileSystem` prove the laws of the descriptor table.

## Conventions

- A step of the process manager ends where `schedule` returns or reaches `context_switch`. The methods
  return `switched`; what the caller would still do after a switch is a later `CallSchedule` step.
- A call that names an unknown process or semaphore fails and changes nothing (`Refused`); a run is a
  sequence of calls that succeed. A panic is a result of its own and ends a run.
- Process identifiers, priorities, counts and coordinates are unbounded integers. Delays, page table
  entries, addresses and file offsets are 64-bit words, and every overflow of theirs is excluded or
  modelled. FAT cluster and sector numbers stay in the widths of the source.
- One hart takes operations one after the other. `ready`, `defer_schedule` and `create_process` do not
  mask interrupts themselves; that each of them is one step is an assumption.
- A fresh page is zeroed, page-aligned and not in use. Pages come from a finite pool, and each
  operation requires as many as it can need.

## Where the code falls short

Properties that one would expect and that do not hold are stated with the exact condition under which
they do.

- A negative initial semaphore count makes `delete_semaphore` panic, and `signal_semaphore` too once
  signals and waits are level (`ProcessHistory.PanicsIffNegative`).
- A sleep of zero ticks leaves a zero delta at the head, and then one tick passes for nobody
  (`ProcessHistory.RealSleepsIff`, `ProcessHistory.TickIsExactIff`, `ProcessHistory.ZeroHeadStopsTheClock`).
- Operations that put a process to wait do not look at its state, so they take a killed one out of Free
  (`ProcessKills.FreeEndsIff`).
- `map` joins permission bits and frame number with `|`, so a bit above the flag field, or an address
  of 2^56 and more, changes the frame (`PageMapping.MapThenTranslate`, `PageMapping.FlagsKeepFrame`).
- `map_range` rounds both addresses down and the size up separately, so unaligned ranges can be cut
  short or shifted, and ranges over 2^39 bytes overwrite themselves (`PageMapping.RangeCorrectIff`,
  `PageMapping.IdentityRange`).
- `draw_all` does not record where layers are, and the update of a window does not record the mouse that
  it paints on top, so a mouse that moves on before its own update can leave a cursor behind: in those
  places and nowhere else (`SceneRuns.WrongPixelsAbandoned`, `SceneRuns.GhostCursorIff`).
- `move_layer` inserts out of range when a shown layer is sent to the length of the stack or beyond
  (`Scenes.RestackPanicsIff`); the window operations never do that (`SceneRuns.RaiseIsBelowMouse`).
- `find_file` pairs a long-name entry with whatever follows, so a name that needs two of them is passed
  over; and it does not skip free entries, so it can find a deleted file (`FatDirectory.PairsAreFilesIff`,
  `FatDirectory.TwoPartNameMissed`, `FatDirectory.DeletedPairFound`).
- `lfn_to_string` drops whitespace and cuts characters to a byte (`FatDirectory.LongNameIff`).
- `read_at` cuts offsets to 32 bits, so on a chain of 2^32 bytes or more a second read starts over at
  the beginning (`Descriptors.ReadsComposeIff`).

## Model

| member | source | states |
|---|---|---|
| `SleepQueue.InsertRefines` | src/process.rs:574-594 | splitting the delta at the insertion point adds exactly the requested remaining time, after equal ones, and changes no other remaining time |
| `SleepQueue.InsertKeepsBounds` | src/process.rs:583-594 | an insertion never overflows a delta, and a delay of one tick or more never puts a zero delta at the head |
| `SleepQueue.TickRefines` | src/process.rs:529-553 | lowering the head delta and dropping leading zeros lowers every remaining time by the tick length and drops exactly those that reach zero |
| `SleepQueue.TickKeepsBounds` | src/process.rs:529-553 | after a tick all remaining times still fit a word and no zero delta is left at the head |
| `SleepQueue.BoundedTimers` | src/process.rs:109-124 | the deltas add up without overflow if and only if every remaining time fits a word |
| `SleepQueue.TimersSorted` | src/process.rs:570-603 | the prefix sums of any delta list are sorted |
| `ProcessManagers.ProcessManager.constructor` | src/process.rs:207-263 | after `init` the null process runs, nothing else exists and the invariant holds |
| `ProcessManagers.ProcessManager.PopReadyProc` | src/process.rs:333-345 | pops a live entry of the highest priority and drops stale entries only, or empties a heap without live entries |
| `ProcessManagers.ProcessManager.Arbitrate` | src/process.rs:387-425 | the popped process gets the processor with a yielded running one queued again, unless the running process is strictly more urgent and the popped entry goes back |
| `ProcessManagers.ProcessManager.Schedule` | src/process.rs:366-426 | an undeferred call is one `Dispatch`, a deferred one only notes the attempt |
| `ProcessManagers.ProcessManager.Ready` | src/process.rs:428-444 | readies and queues a blocked process and schedules; leaves free, running and ready ones alone; an unknown pid fails without effect |
| `ProcessManagers.ProcessManager.DeferStart` | src/process.rs:347-355 | the outermost Start forgets earlier attempts and every Start deepens the bracket |
| `ProcessManagers.ProcessManager.DeferStop` | src/process.rs:356-364 | the outermost Stop schedules if and only if an attempt was noted |
| `ProcessManagers.ProcessManager.CreateProcess` | src/process.rs:486-524 | a new suspended process under the next pid, with the bracket closed again |
| `ProcessManagers.ProcessManager.CreateSemaphore` | src/process.rs:265-276 | a free semaphore with the given count under the next sid |
| `ProcessManagers.ProcessManager.WaitSemaphore` | src/process.rs:278-293 | counts down; below zero the running process joins the queue's end and the processor is given away |
| `ProcessManagers.ProcessManager.SignalSemaphore` | src/process.rs:295-309 | counts up and releases the first waiter if the count was negative; panics exactly when it was negative with an empty queue |
| `ProcessManagers.ProcessManager.DeleteSemaphore` | src/process.rs:311-331 | releases as many waiters as the count is below zero, all inside one bracket; panics exactly when there are fewer |
| `ProcessManagers.ProcessManager.ReleaseWaiters` | src/process.rs:317-324 | the release loop ends with the count at zero or more and everybody it took off the queue readied, or panics on an empty queue |
| `ProcessManagers.ProcessManager.Sleep` | src/process.rs:570-603 | the process sleeps with one more timer of exactly the requested delay, and the processor is given away |
| `ProcessManagers.ProcessManager.InsertDelay` | src/process.rs:574-594 | the cursor loop inserts one timer into the table that the deltas stand for |
| `ProcessManagers.ProcessManager.Wakeup` | src/process.rs:526-568 | one tick passes for every timer and exactly the sleeping processes whose time is up become ready |
| `ProcessManagers.ProcessManager.TickQueue` | src/process.rs:529-553 | takes off exactly the expired nodes and returns their pids |
| `ProcessManagers.ProcessManager.Kill` | src/process.rs:605-634 | frees the process and wakes exactly those waiting for its exit |
| `ProcessManagers.ProcessManager.IoWait` | src/process.rs:636-644 | the process waits for input or output; the invariant is kept |
| `ProcessManagers.ProcessManager.IoSignal` | src/process.rs:646-656 | acts on the process as `ready` does; the invariant is kept |
| `ProcessManagers.ProcessManager.EventWait` | src/process.rs:658-674 | the process joins the end of the event's list and the processor is given away |
| `ProcessManagers.ProcessManager.EventSignal` | src/process.rs:676-700 | takes the whole list of the event and readies exactly its blocked members inside one bracket |
| `ProcessManagers.NextPop` | src/process.rs:333-345 | dropping a stale entry loses no live entry and keeps the popped one the most urgent of the rest |
| `ProcessManagers.BracketComposes` | src/process.rs:554-562 | Start, waking, Stop and a final `schedule` together are one dispatch on the state with everybody woken |
| `ProcessManagers.DispatchTwice` | src/process.rs:366-426 | a second `schedule` after one that did not switch decides nothing new |
| `ProcessManagers.KillComposes` | src/process.rs:605-634 | the bracket inside `event_signal` and the `schedule` of `kill` together are one wake bracket |
| `ProcessInvariant.DispatchUrgent` | src/process.rs:366-426 | a dispatch that finds any ready process leaves a process in state Running that is at least as urgent |
| `ProcessInvariant.NextKeepsInv` | src/process.rs:206-700 | every operation keeps: no process lost, queued pids known, urgency unless an attempt is noted |
| `ProcessRuns.RunKeepsInv` | src/process.rs:206-700 | the invariant holds in every state of every run |
| `ProcessRuns.NoProcessIsLost` | src/process.rs:278-444 | in every reachable state Running means `running`, Ready a heap entry of its own priority, Sleep a timer node, SemaWait a place in a semaphore queue, EventWait one in an event list |
| `ProcessRuns.PriorityGuarantee` | src/process.rs:333-426 | with no bracket open, a process in state Running has at least the priority of every Ready one, in every reachable state |
| `ProcessRuns.ScheduleFindsMostUrgent` | src/process.rs:366-426 | an undeferred `schedule` that finds any Ready process ends with one of maximum priority in state Running |
| `ProcessRuns.BracketHoldsProcessor` | src/process.rs:347-373 | over any stretch of a run with a bracket open, `running` does not change |
| `ProcessRuns.DepthCountsBrackets` | src/process.rs:347-364 | the depth is the number of explicit Starts minus Stops: every other operation closes what it opens |
| `ProcessRuns.OutermostStopRestoresUrgency` | src/process.rs:356-364 | after the outermost Stop nobody ready is more urgent than a running process, whatever was readied inside |
| `ProcessHistory.SemaphoreAccounting` | src/process.rs:265-331 | over any stretch without deletion: count = initial + signals - waits; joined = left + queue, first come first served; queue length is the deficit below zero and the initial count |
| `ProcessHistory.PanicsIffNegative` | src/process.rs:295-331 | deletion panics exactly for a negative initial count, a signal exactly when besides signals equal waits |
| `ProcessHistory.DeleteEmptiesQueue` | src/process.rs:311-331 | deleting a semaphore created with a count of zero or more empties its queue |
| `ProcessHistory.RealSleepsIff` | src/process.rs:526-603 | the head delta is positive in every state of a run if and only if every sleep of the run is at least one tick |
| `ProcessHistory.ZeroSleepZeroesHead` | src/process.rs:570-603 | a sleep of no ticks leaves a zero delta at the head |
| `ProcessHistory.TickIsExact` | src/process.rs:526-568 | with a positive head a tick lowers every remaining time by one and drops exactly those that reach zero |
| `ProcessHistory.TickIsExactIff` | src/process.rs:531-534 | a tick is exact if and only if the head delta is positive or no timer has time left |
| `ProcessHistory.ZeroHeadStopsTheClock` | src/process.rs:531-534 | with a zero delta at the head one tick lowers no remaining time |
| `ProcessHistory.TimerCountsTicks` | src/process.rs:526-603 | over any stretch of a run a timer has lost exactly as many ticks as there were wakeups |
| `ProcessHistory.SleeperWakesOnTime` | src/process.rs:526-603 | the timer of a sleep is running before its last tick, and that tick leaves the process not asleep |
| `ProcessHistory.IdleStaysAlive` | src/process.rs:252-263 | if pid 0 never blocks and is never killed, it is running or ready in every state of the run |
| `ProcessHistory.SomebodyRuns` | src/process.rs:366-426 | in such a run every undeferred operation that schedules ends with `running` in state Running |
| `ProcessKills.FreeEndsIff` | src/process.rs:278-293 | a step takes a killed process out of Free if and only if it puts that process to sleep or to wait: `sleep`, `io_wait`, `event_wait`, or a blocking `wait_semaphore` while it still has the processor |
| `ProcessKills.KilledNeverRunsAgain` | src/process.rs:605-634 | in a run without those a killed process stays free, and the processor never comes back to it once it has left it |
| `ProcessEffects.ReadyActs` | src/process.rs:428-444 | `ready` and `io_signal`, state by state: from Suspend, Sleep, SemaWait, IOWait and EventWait the process ends Ready with a heap entry of its own priority, or running; from Free, Running and Ready nothing changes |
| `ProcessEffects.CreateThenReady` | src/process.rs:486-524 | a created process is new and suspended with the priority asked for, and its first `ready` makes it Ready or running |
| `ProcessEffects.ScheduleYieldsIff` | src/process.rs:387-425 | an undeferred `schedule` takes the processor from a running process if and only if a ready one is at least as urgent, and queues it again |
| `ProcessEffects.BlocksAs` | src/process.rs:278-293 | the state that each blocking operation leaves its process in |
| `ProcessEffects.SignalWakes` | src/process.rs:676-700 | a signal empties the list of its event, makes every process waiting in it Ready or running, and touches nobody else that rests; so does `kill` for those waiting for its end |
| `ProcessEffects.WaiterIsSignalled` | src/process.rs:658-700 | over every run: the first signal of an event after an `event_wait` wakes that process, if it still waits |
| `ProcessEffects.SignalReleases` | src/process.rs:295-309 | a signal on a negative count makes the first waiter Ready or running |
| `ProcessEffects.DeleteReleases` | src/process.rs:311-331 | a deletion makes as many waiters Ready or running as the count is below zero |
| `ProcessEffects.TickWakes` | src/process.rs:526-568 | a tick makes every sleeper Ready or running whose timer it runs out |
| `ProcessEffects.TickSpares` | src/process.rs:526-568 | a tick leaves every sleeper asleep that has no such timer |
| `ProcessEffects.EmptyBracket` | src/process.rs:347-364 | an outermost bracket with nothing in it only forgets earlier attempts |
| `PageTables.BranchEntryDecodes` | src/arch/riscv64/paging.rs:144-162 | a branch entry gives back the page and the flags that it was made of |
| `PageTables.TreeWalks` | src/arch/riscv64/paging.rs:315-348 | in a table with leaves at level 0 only, every walk stays in page-sized tables, never goes below level 0, and finds the translation |
| `PageMapping.SuperpageAddress` | src/arch/riscv64/paging.rs:329-338 | a leaf at level 1 or 2 takes the low fields of the page number from the virtual address |
| `PageTables.TreeFrame` | src/arch/riscv64/paging.rs:219-258 | a table does not depend on pages that are not its own |
| `PageUpdates.Lift` | src/arch/riscv64/paging.rs:238-249 | a change confined to one page of a walk keeps the whole table well formed |
| `PageUpdates.LiftLeaf` | src/arch/riscv64/paging.rs:238-249 | and changes only the leaf of addresses whose walk reaches that page |
| `PageMapping.LeafEntryMeaning` | src/arch/riscv64/paging.rs:228-257 | what a written leaf says: the page number of `paddr` joined with whatever `bits` holds above the flags, and the flags of `bits` with the valid bit |
| `PageMapping.MapFlags` | src/arch/riscv64/paging.rs:219-258 | after `map` the low ten bits of the leaf of every address on the page are the caller's flags with the valid bit set; those of every other address are as before |
| `PageMapping.MapThenTranslate` | src/arch/riscv64/paging.rs:219-258 | after `map` the whole page leads to `paddr` if and only if the frame written is that of `paddr` |
| `PageMapping.FlagsKeepFrame` | src/arch/riscv64/paging.rs:228-257 | with flags only, that is so exactly below 2^56 |
| `PageMapping.SamePageBits` | src/arch/riscv64/paging.rs:222-230 | two addresses share a page exactly when bits 12 to 38 agree |
| `PageMapping.RangeByte` | src/arch/riscv64/paging.rs:355-373 | byte by byte: a mapped range leads to consecutive frames, to the last one where pages coincide in Sv39, and what lies outside it is translated as before |
| `PageMapping.RangeFlags` | src/arch/riscv64/paging.rs:355-373 | after a range mapping the same holds for every page of the range |
| `PageMapping.PagesForIsLeast` | src/arch/riscv64/paging.rs:350-373 | a range takes the least number of pages that has room for its bytes |
| `PageMapping.ByteCorrectIff` | src/arch/riscv64/paging.rs:355-364 | which bytes of a range are translated to their own target byte, whatever was mapped before |
| `PageMapping.RangeCorrectIff` | src/arch/riscv64/paging.rs:355-364 | `map_range` is right on every byte if and only if both addresses have the same page offset, the range stays within one window of 2^39 bytes, and the bytes that the rounding cuts off were right already |
| `PageMapping.AlignedRange` | src/arch/riscv64/paging.rs:355-364 | for aligned addresses it is right on every byte, whatever was mapped before |
| `PageMapping.IdentityRange` | src/arch/riscv64/paging.rs:366-373 | after `id_map_range` an address of the range, aligned or not, leads to itself if and only if no later page of the range has the same 27 index bits; so all do within 2^39 bytes |
| `PageClone.ShapeLeaves` | src/arch/riscv64/paging.rs:191-217 | in tables of the same shape every address has the same leaf |
| `PageClone.CloneTranslates` | src/arch/riscv64/paging.rs:191-217 | in the copy every address has the leaf that it had in the original, flags and all, and is translated alike |
| `PageClone.CopyIsSeparate` | src/arch/riscv64/paging.rs:191-217 | original and copy have no table page in common |
| `PageClone.CopiesAreIndependent` | src/arch/riscv64/paging.rs:191-258 | any number of later `map` calls on one leaves every translation of the other as it was |
| `PageTeardown.TeardownUndoesClone` | src/arch/riscv64/paging.rs:191-313 | tearing a copy down and freeing its root restores the memory from before the copying |
| `Paging.PageMemory.Map` | src/arch/riscv64/paging.rs:219-258 | every address on the page of `vaddr` ends in a leaf with the written frame and the caller's flags, every other address in the one that it had; only the table's own pages and new ones change |
| `Paging.PageMemory.VirtToPhys` | src/arch/riscv64/paging.rs:315-348 | on any memory whose walk stays above level 0, leaves at any level included, the loop finds what the recursive walk says |
| `Paging.PageMemory.MapRange` | src/arch/riscv64/paging.rs:355-364 | the pages of the range lead to consecutive frames with the caller's flags, all others as before |
| `Paging.PageMemory.IdMapRange` | src/arch/riscv64/paging.rs:366-373 | every page that has a byte of the range leads to itself with the caller's flags, all others as before |
| `Paging.PageMemory.Clone` | src/arch/riscv64/paging.rs:191-217 | a table of the same shape in fresh pages only, taking exactly as many as the original has |
| `Paging.PageMemory.Unmap` | src/arch/riscv64/paging.rs:260-313 | frees every table page but the root exactly once, and nothing else |
| `Paging.PageMemory.UnmapLevel1` | src/arch/riscv64/paging.rs:283-308 | the innermost loop frees nothing |
| `Compositing.AtDrawn` | src/graphics.rs:387-392 | drawing a pixel changes that point of the display only |
| `Compositing.PaintsPixel` | src/graphics.rs:456-458 | column i and row j of a layer are painted that far from its corner, in the colour of pixel j * width + i, unless that is the see-through colour |
| `Compositing.VisibleIsTop` | src/graphics.rs:728-735 | what is seen at a point is what the topmost layer painting there paints, and nothing if none does |
| `Compositing.RepaintedIff` | src/graphics.rs:698-726 | an update shows the whole stack at a point exactly when no stale pixel was there |
| `Compositing.RedrawIsRepaint` | src/graphics.rs:698-726 | incremental redraw equals full repaint, for any new position, height, contents and transparency of the layer |
| `Painting.FrameBuffer.Transfer` | src/graphics.rs:566-604 | by index: the pixel of each column and row inside the rectangle and the display goes to its place in the buffer, unless it has the see-through colour; every other place keeps what it had |
| `Graphics.LayerManager.constructor` | src/graphics.rs:943-973 | after `init` the desktop is at the bottom, a mouse of 16 by 23 pixels in the corner on top and not recorded yet, and the screen shows both |
| `Graphics.LayerManager.DrawAll` | src/graphics.rs:728-735 | paints the stack bottom to top, so that the screen shows it |
| `Graphics.LayerManager.Update` | src/graphics.rs:698-726 | repaints the previous rectangle and everything from the layer upwards, and records its place |
| `Graphics.LayerManager.GetLayerHeight` | src/graphics.rs:745-753 | the position in the stack, and 0 for a layer that is not in it |
| `Graphics.LayerManager.MoveLayer` | src/graphics.rs:755-782 | takes the layer out and puts it back at the height asked for; panics exactly when a layer in the stack is sent to its length or beyond |
| `Graphics.LayerManager.MoveAbs` | src/graphics.rs:512-529 | the layer's corner is kept between the corners of the display |
| `Graphics.LayerManager.CreateWindow` | src/graphics.rs:843-865 | a new hidden layer with room for the title bar; the stack keeps its shape |
| `Graphics.LayerManager.ShowWindow` | src/graphics.rs:867-876 | the window comes directly above the desktop and is updated; the stack keeps its shape |
| `Graphics.LayerManager.UpdateWindowFrame` | src/graphics.rs:888-901 | the window gets its new contents and is updated |
| `Graphics.LayerManager.MovePointerBy` | src/graphics.rs:531-549 | the mouse moves by as much as the event says, within the display, and nothing is painted |
| `Graphics.LayerManager.SyncMouse` | src/kmain.rs:55-57 | the mouse is updated at the end of a packet |
| `Graphics.LayerManager.FindHit` | src/graphics.rs:799-811 | the topmost layer below the mouse that the point is strictly inside of |
| `Graphics.LayerManager.OnEvent` | src/graphics.rs:792-829 | one press or release step of the model: what was hit or pressed last, and what its window does then |
| `Scenes.RestackPanicsIff` | src/graphics.rs:755-782 | `move_layer` panics if and only if the layer is in the stack and is sent to its length or beyond |
| `Scenes.RestackHides` | src/graphics.rs:666-680 | a negative height takes the layer out and leaves the others in their order |
| `Scenes.RestackPlaces` | src/graphics.rs:755-782 | the moved layer ends at its height, the others keep their relative order, and nothing is doubled |
| `Scenes.UpdatePointIff` | src/graphics.rs:698-726 | an update leaves a point right if and only if it repaints it, or the layers below were shown there |
| `Scenes.UpdateSyncs` | src/graphics.rs:698-726 | after any change to one window, updating it makes the screen show the whole stack again |
| `Scenes.UpdateShowsPixel` | src/graphics.rs:698-726 | by index: an update brings every opaque pixel of the layer to the screen that is on the display and under no layer above, whatever was there before |
| `Scenes.ShownPixel` | src/graphics.rs:698-726 | by index: a right screen has the pixels of whatever layer is in sight |
| `SceneRuns.PointerUpdateIff` | src/graphics.rs:698-726 | the update of the mouse makes the screen right if and only if nothing stale is left where it repaints nothing |
| `SceneRuns.WindowStepPoint` | src/graphics.rs:263-291 | at every point an operation on windows keeps the screen right if it was, and leaves nothing stale that was not, even between a pointer movement and its update |
| `SceneRuns.NextKeepsPoint` | src/graphics.rs:531-876 | at every point each operation leads from what holds of the screen to what should hold next, unless the mouse moves on unrecorded from a place that contains the point |
| `SceneRuns.StackKeepsShape` | src/graphics.rs:755-876 | over every run after `init`: no duplicates, the desktop at the bottom, the mouse on top |
| `SceneRuns.WrongPixelsAbandoned` | src/graphics.rs:698-735 | over every run after `init`, from each update of the mouse until it moves again: a wrong pixel lies in a place from which the mouse has moved on unrecorded |
| `SceneRuns.SettledScreenShows` | src/graphics.rs:698-726 | so the whole screen shows the stack if there is no such place |
| `SceneRuns.OnlyFirstPlace` | src/kmain.rs:37-57 | if no operation on windows falls inside a packet, the only such place is the one where `init` drew the mouse |
| `SceneRuns.OrdinaryRunShows` | src/kmain.rs:37-57 | in such a run the screen is right after every packet, everywhere but perhaps in that first place |
| `SceneRuns.SyncShowsIff` | src/graphics.rs:698-735 | in any run an update of the mouse makes the screen right if and only if it leaves nothing stale |
| `SceneRuns.GhostCursorIff` | src/graphics.rs:728-735 | the first movement after `init` leaves the old cursor behind exactly where it had painted another colour than the layers below show and the moved one paints nothing |
| `SceneRuns.RaiseIsBelowMouse` | src/graphics.rs:263-291 | raising a window never panics and puts it directly below the mouse |
| `SceneRuns.PressRaises` | src/graphics.rs:263-275 | a pressed window ends directly below the mouse while all other layers keep their order |
| `WindowEffects.HitIsTopmost` | src/graphics.rs:799-811 | a press hits the topmost layer below the mouse that the point is strictly inside of, and nothing if there is none |
| `WindowEffects.PointerFollows` | src/graphics.rs:531-549 | the mouse moves by as much as the event says, as far as the display allows |
| `WindowEffects.ReleaseMoves` | src/graphics.rs:276-290 | a released window that was pressed in its title bar goes by as much as the pointer has since the press; pressed below, it stays |
| `WindowEffects.DragFollows` | src/graphics.rs:263-291 | press and release together: the window under the press follows the pointer from the one to the other |
| `WindowEffects.NewWindowIsHidden` | src/graphics.rs:843-865 | a new window is a black layer of its own with 30 rows of title bar, and not in the stack |
| `WindowEffects.ShownAboveDesktop` | src/graphics.rs:867-876 | a shown window is directly above the desktop with all other layers in their order |
| `WindowEffects.FrameShown` | src/graphics.rs:888-901 | an updated window keeps its place, and the screen has the pixels of its new contents that are in sight |
| `FatVolume.ChainUnique` | src/fs/fat.rs:402-421 | a disk has one chain from a cluster at most |
| `FatVolume.ChainAcyclic` | src/fs/fat.rs:402-421 | a chain never visits a cluster twice |
| `FatVolume.FlatCluster` | src/fs/fat.rs:388-400 | cluster `i` of a chain holds the bytes from `i` cluster sizes on |
| `FatVolume.ChainByte` | src/fs/fat.rs:388-400 | byte o of a chain lies in cluster o / size of it, which begins (number - 2) * sectors per cluster behind the start of the data area |
| `FatVolume.TableEntryBytes` | src/fs/fat.rs:402-421 | the table entry of a cluster is the little-endian word with its number, without the top four bits |
| `Fat.EntryOfCluster` | src/fs/fat.rs:236-261 | with one sector per cluster, entry `j` of cluster `i` is entry 16 i + j of the directory |
| `FatDirectory.FirstMatchIsFirst` | src/fs/fat.rs:275-285 | the search answers with the first match, and with nothing if and only if there is none |
| `FatDirectory.PairsAreFilesIff` | src/fs/fat.rs:244-298 | the files that `find_file` sees are those of the directory if and only if it is plain: before the end mark no entry is free or a label, and every long-name entry is alone before its short one, or the last of all |
| `FatDirectory.SearchFindsFirstFile` | src/fs/fat.rs:234-302 | in a plain directory `find_file` finds the first file with the name asked for |
| `FatDirectory.DeletedPairFound` | src/fs/fat.rs:246-285 | where a deleted long and short pair comes before a live one of the same name, `find_file` finds the deleted one |
| `FatDirectory.TwoLongEntries` | src/fs/fat.rs:252-285 | with two long-name entries for a file the second one is taken for a short entry |
| `FatDirectory.TwoPartNameMissed` | src/fs/fat.rs:252-285 | a search for a name of two entries passes its file over, unless a short name happens to match |
| `FatDirectory.LongNameIff` | src/fs/fat.rs:165-205 | the name read from a padded long-name entry is the one stored there if and only if its characters are below 256 and none is whitespace |
| `FatBytes.EntryFields` | src/fs/fat.rs:26-39 | first cluster and size, from the bytes of the entry |
| `FatBytes.ShortNameRead` | src/fs/fat.rs:207-232 | from the bytes: the characters of the name field, and a dot and those of the extension exactly if there are any |
| `FatBytes.ShortNameFound` | src/fs/fat.rs:275-285 | in a plain directory the search answers the first file whose written short name is the one asked for |
| `FatBytes.FirstShortFound` | src/fs/fat.rs:244-298 | the same on the bytes of a directory of short entries |
| `FatBytes.NothingFoundAtEnd` | src/fs/fat.rs:246-250 | and nothing behind the end mark, or behind the last whole entry |
| `FatPaths.SplitThenJoin` | src/fs/fat.rs:307 | splitting a path loses nothing and leaves no slash in any part |
| `FatPaths.JoinThenSplit` | src/fs/fat.rs:307 | and parts without slashes come back |
| `FatPaths.LookupChild` | src/fs/fat.rs:304-322 | a path and one more name: the name is searched in the directory that the path leads to, in the root if the path has nothing but slashes |
| `Fat.Fat32.ReadCluster` | src/fs/fat.rs:388-400 | puts the bytes of the cluster, counted on the disk from cluster 2 at the start of the data area, at the front of the buffer and leaves the rest |
| `Fat.Fat32.NextCluster` | src/fs/fat.rs:402-421 | the low 28 bits of the table entry, nothing for an end mark, and a panic for a bad cluster and for nothing else |
| `Fat.Fat32.ReadChain` | src/fs/fat.rs:434-488 | delivers the slice of the chain from the offset on, and byte by byte what lies there on the disk, as long as the buffer or the rest of the chain; the rest of the buffer is untouched |
| `Fat.Fat32.FindFile` | src/fs/fat.rs:234-302 | answers what a search of the flattened directory answers, across cluster borders |
| `Fat.Fat32.GetEntryFromPath` | src/fs/fat.rs:304-322 | the entry that the names of the path lead to, directory after directory |
| `Fat.Fat32.ReadAt` | src/fs/fat.rs:429-489 | the bytes of the file from the offset, cut to 32 bits, or an error and an untouched buffer if there is no such file |
| `Fat.Fat32.FileSize` | src/fs/fat.rs:491-496 | the size field of the entry, or an error if there is no such file |
| `Descriptors.RunKeepsSound` | src/fs.rs:76-121 | over every run, open descriptors were handed out, lead to files that exist, and have 64-bit offsets |
| `Descriptors.ReadFailsIff` | src/fs.rs:114-121 | a read fails if and only if the descriptor is not open, and then changes nothing |
| `Descriptors.DescriptorsNeverReused` | src/fs.rs:76-83 | over every run, with failed opens among the others, each open returns a larger descriptor than all before, and one not in use |
| `Descriptors.OthersUntouched` | src/fs.rs:76-121 | an operation on one descriptor changes nothing about another |
| `Descriptors.SplitReadsCompose` | src/fs.rs:114-121 | however a run reads a file in pieces, and whatever it does with other descriptors in between, bytes and final offset are those of one read of the total length |
| `Descriptors.ReadsComposeIff` | src/fs/fat.rs:436-437 | reads from everywhere below 2^32 compose if and only if the chain is shorter than 2^32 bytes |
| `Descriptors.SeekThenRead` | src/fs.rs:89-121 | a read after a seek delivers the bytes from there on |
| `Descriptors.SeekOnThenRead` | src/fs.rs:95-101 | a seek relative to the current offset skips that many bytes, or goes back over them |
| `Descriptors.SeekEndThenRead` | src/fs.rs:102-108 | a seek relative to the end goes that far before the size of the file, or behind it |
| `Descriptors.OpenThenRead` | src/fs.rs:76-83 | a read after opening delivers the bytes from the beginning |
| `Descriptors.SeekBack` | src/fs.rs:95-101 | seeking forth and back restores the offset, even where it wraps |
| `FileSystems.FileSystem.constructor` | src/fs.rs:68-74 | no descriptor is open and the first one will be 3 |
| `FileSystems.FileSystem.OpenFile` | src/fs.rs:76-83 | takes the next descriptor even if it fails; opens the file at offset 0 with its size |
| `Descriptors.SizeSinceOpening` | src/fs.rs:76-87 | over any run from its opening on, a descriptor stands for the path that was opened, and asking for its size answers what the backing file system says of that path |
| `FileSystems.FileSystem.Seek` | src/fs.rs:89-112 | the new offset from the start, the current offset or the size, as a 64-bit word; errors in the source's order |
| `FileSystems.FileSystem.Read` | src/fs.rs:114-121 | delivers what the file holds from the offset on and moves the offset by as much |

## Left out

Process manager

- ProcessManagers.ProcessManager.CreateProcess: does not model the page table, stack and trap frame that are set up for the new process, because they do not touch the scheduling state.
- ProcessManagers.ProcessManager.Kill: does not model the freeing of the page table and the kernel stack, for the same reason.
- ProcessManagers.ProcessManager.DeferStop: requires an open bracket, because the source lets the depth underflow without one.
- Interrupt masks and `context_switch`: hardware effects, taken as the borders of steps.
- `wait_exit` and `fork`: `fork` is a stub and the list of children is never filled.
- Fairness among equal priorities, and which of several equal heap entries is popped: the heap orders by priority only.
- Which wait a `ready` ends: the source does not check it, so early wakeups are allowed and their stale queue entries are modelled.
- Wrap-around of the process and semaphore counters, of semaphore counts and of the nesting depth.
- `SpinLock`: locked tables are plain fields.

Page tables

- Paging.PageMemory.Map: levels above 0 are not modelled, because every caller passes 0.
- Paging.PageMemory.AllocZeroed: does not model a failing allocator; a sufficient pool is required.
- `EntryBits::get_field` for bits other than V, the 32-bit variants, and activating a table through `satp`.
- Paging.PageMemory.MapRange: requires that the rounded ends of both ranges fit 64 bits, because the source's sums overflow otherwise.
- Paging.PageMemory.IdMapRange: requires that the rounded end fits 64 bits, for the same reason.

Window compositor

- Graphics.LayerManager.DrawAll: what objects draw into their buffers comes in as a parameter, because embedded drawing is outside the compositor.
- Overflow of 32-bit coordinates, and objects shared between layers: layers are values in the manager's table.
- `hide_layer`, wallpaper decoding, and events from sources other than the mouse.

File system

- Fat.Fat32.ReadAt: requires a well-formed chain for a buffer that is not empty, because the source computes a sector from the first cluster 0 of an empty file; and one sector per cluster, because looking the path up does (`Fat.Fat32.ReadChain` does not).
- Fat.Fat32.FileSize: one sector per cluster, for the same reason.
- FileSystems.FileSystem.OpenFile: one sector per cluster, for the same reason.
- Fat.Fat32.FindFile: one sector per cluster, because the source's buffer has 512 bytes; `to_uppercase` is a parameter.
- FileSystems.FileSystem.Seek: an offset that leaves the 64-bit range wraps as in a release build, and does not panic as in a debug build.
- Boot sector parsing, sectors of other sizes than 512 bytes, writing, and buffers that early returns leak.
- Wrap-around of the descriptor counter, and the copy of the descriptor inside `File`, which nothing reads.
- The size field as a limit of reads: as in the source, the chain is the limit.
- Whitespace inside short names: the model drops it, as `dir_entry_name` does, and does not say which names the specification allows.

Everything else in the repository (start-up, traps, devices, the user programs in `bin/`) is not part of this model.
