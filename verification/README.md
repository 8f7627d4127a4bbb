# radapter: verified core

radapter moves message trees between workers, Lua scripts and wire protocols. This project models the parts of
it that decide what happens to a message, as Dafny programs, and proves what they keep over all inputs, all
interleavings and all runs.

| part | files |
|---|---|
| message values, key order, paths | `Variants.dfy`, `KeyOrder.dfy`, `TreePaths.dfy` |
| lazy message views, one operation next to the plain Lua table | `LuaTables.dfy`, `LazyViews.dfy`, `LazyRefinement.dfy` |
| whole scripts next to the plain Lua table | `LazyScripts.dfy`, `LazyWrites.dfy` |
| `get` and `set` with a path, on tables and on views | `PathAccess.dfy`, `ViewPaths.dfy`, `PathAnswers.dfy`, `ViewRounds.dfy` |
| fiber pool, forced stop, shutdown of the instance | `FiberRuns.dfy`, `Fibers.dfy`, `Shutdown.dfy` |
| stream framing: SLIP, lines, length headers | `Framing.dfy`, `Slip.dfy`, `LineFrames.dfy`, `LengthFrames.dfy` |
| flat listings and merge patches of trees | `Flatten.dfy`, `Unflatten.dfy`, `FlatRoundTrips.dfy`, `MergePatches.dfy` |
| Modbus: poll plan, register codec, change reports | `PollPlan.dfy`, `PollRuns.dfy`, `RegisterCodec.dfy`, `ChangeReports.dfy` |
| Modbus: request queues and write retries | `RequestRuns.dfy`, `RequestQueues.dfy`, `RequestSafety.dfy` |
| MessagePack of the demo firmware | `MsgPack.dfy` |

Check everything with `dafny verify dfyconfig.toml` (Dafny 4.11).

## How the model is built

* Objects that the program updates in place are classes (`LazyViews.Message`, `Fibers.FiberPool`,
  `Shutdown.Instance`, `Slip.Receiver`, `Flatten.Flattener`, `PathAccess.LuaState`,
  `RequestQueues.MasterDevice`, `ChangeReports.Master`, `ChangeReports.Slave`, `MsgPack.OutIterator`,
  `MsgPack.InIterator`). Each of their methods is tied to a function on values that gives the whole new state;
  the properties are lemmas about those functions, over single steps and over runs.
* A message tree is a `QVar`: invalid, a scalar, a map with string keys, or a list.
* A Lua table is named by an identity. The table made of the container at a path of the message is named by that
  path, which is sound because a message is turned into tables at most once. Scripts are sequences of
  operations on registers: indexing, writing, measuring, `get`, `set`, asking for the table and making tables, in
  any order, before and after the first write; they may store views in tables.
  `fuel` stands for Lua's limit on nested C calls.
* Fiber switches are steps of one machine: code that runs on a fiber ends a step by awaiting, by ending, or by
  calling `Run`.
* Payload parsers (msgpack, JSON, text) are parameters: a function that may refuse.
* What the bus answers, when timers fire and in which order events come are events of a run, so the
  theorems hold for every order.

## What the proofs say about the code

Where a promise does not hold of the code, a lemma gives the input and another one the exact condition.

* **When laziness shows.** `local a = msg.a; msg.a = a; return a.x` raises with a lazy message and gives `x` with a
  plain table: the view then stands for a position that holds the view (`src/lazy.cpp:214-230`). At any moment a
  script that only reads can tell the two apart if and only if it holds a view that no longer stands for its
  position (`LazyScripts.ReadsAgreeIff`); over whole scripts nothing is ever noticed if and only if all held views
  stand all the time (`LazyScripts.NeverNoticedIff`). A write through a view makes another view fall exactly when it
  stores, over a link of that view's key chain, a value from which the rest of the chain leads somewhere else
  (`LazyRefinement.StoreKeepsViewIff`). A script that replaces no container it took a view of, nor one above, is
  never noticed (`LazyWrites.CarefulNeverNoticed`, for one write `LazyWrites.UnheldEntryReplaced`). This is for
  scripts that do not ask for the reserved key, measure no list that ends in a null before the first write
  (`LazyRefinement.LengthAgreesIff`), do not `set` or `get` through a stored view (`LazyScripts.SameSetIff`), and
  `get` before the first write by paths on which views and tables agree (`PathAnswers.AnswersAgreeIff`).
* **`get` on a view that another view was stored over.** `get` is asked of the stored view in its turn, by two C++
  functions that call each other (`src/lazy.cpp:567-571`, `src/builtin.cpp:360-362`). They never return exactly if
  some view is asked twice, for instance after `msg.a = msg.a`; then `|views|` turns are enough to know it
  (`ViewRounds.EndlessIff`, `ViewRounds.SelfStoredNeverEnds`).
* **Flatten after a container child.** The path buffer is cut back too little after a container
  (`src/utils.cpp:16-18`), so `{"a": {"x": 1}, "b": 2}` lists `b` as `ab`. Keys are right exactly when no
  container child is followed by a sibling that holds a leaf (`Flatten.FlattenTrueIff`). Two wrongs do not make a
  right: Flatten and then Unflatten give a tree back exactly when its keys were right and Unflatten can rebuild it
  (`FlatRoundTrips.FlattenRoundTripIff`).
* **Unflatten.** Rebuilding from true paths gives the tree back exactly for non-empty containers all the way down,
  names without `:` that do not read as an index, and no empty name on top (`Unflatten.RoundTripIff`).
* **MergePatch.** The diff leaves out removals, so it stands for the change exactly when the patch removes nothing
  that is there (`MergePatches.DiffIsChangeIff`). A count of 0 is what `src/workers/redis/redis.cpp:168` takes for
  "nothing changed"; it is wrong exactly where the patch replaces nothing but removes something or puts a map where
  there was none (`MergePatches.UnchangedIff`, `MergePatches.CountTellsChangeIff`): inputs in
  `MergePatches.RemovalNotCounted` and `MergePatches.EmptyMapNotCounted`.
* **Length headers.** A header of 2^32 - 4 makes `4 + len` zero, and the loop repeats the same turn forever
  (`LengthFrames.StallsIff`, `LengthFrames.EndlessIff`). No stream of framed payloads contains one.
* **Long lines.** A line that crosses 4096 retained bytes is dropped or kept depending on how it was chunked
  (`LineFrames.ChunkingShowsIff`).
* **Poll plan.** A register is only checked against the next one, so whether two overlapping registers are refused
  depends on their names (`PollPlan.OverlapDependsOnNames`, `PollPlan.PlanDisjointIff`). Manual queries count the
  end of a register in bytes and refuse some that fit (`PollRuns.FittingQueryRefused`): exactly those of which
  one of the last two registers leaves fewer free words behind it than it takes itself (`PollRuns.RefusedIff`).
* **Write queue overflow.** The callback of the write that is removed retries it while it is still in the full queue.
  With `r` retries left its callback runs `r + 1` times and, when the oldest is removed, the `r` writes behind it
  are lost without a callback (`RequestSafety.RemovalLoses`, `RequestSafety.ThreeMessagesLoseOne`); when the newest
  is removed, the `r` retries are (`RequestSafety.RemovalLosesRetries`). Over a run
  every write is accounted for exactly when no full queue removes a write with retries left
  (`RequestSafety.WritesConservedIff`). The number of requests stays bounded in any case.
* **`get` on views.** `get` on a table skips a leading separator, `get` on a view does not
  (`src/builtin.cpp:371-373`, `src/lazy.cpp:578-584`): `ViewPaths.LeadingSeparatorDiffers`. The answers agree for
  every message exactly if the path does not start with the separator, is the separator, or has a part `[0]`, under
  which nothing is ever found (`PathAnswers.AnswersAgreeIff`).
* **`get` after `set`.** It returns what was stored exactly when the path does not come through the slot it
  stores into, which only cyclic tables allow (`PathAccess.GetAfterSetIff`, `PathAccess.TreeGetAfterSet`).
* **Register values.** 32-bit values come back exactly with little-endian bytes; with big-endian bytes their words
  are exchanged (`RegisterCodec.RoundTrip32Iff`). A value comes back whatever the shared second word holds exactly by
  its kind and packing (`RegisterCodec.BackIff`), and then from a whole poll (`ChangeReports.PolledRoundTrip`).
  Values that stay are reported again exactly if they are NaN, and those at every poll
  (`ChangeReports.ReportedAgainIff`, `ChangeReports.RepeatedReadings`).
* **MessagePack.** The reader goes one byte behind its input exactly on a short string that lacks its last byte
  (`MsgPack.BeyondIff`): the check on its size leaves out the header (`examples/demo/firmware/msg2struct.hpp:330`).

## Model

| member | source | states |
|---|---|---|
| `LazyViews.Message.constructor` | src/lazy.cpp:129-140 | a message arrives as one root view over the retained tree, with no table of its own |
| `LazyViews.Message.PushTree` | src/builtin.cpp:647-670 | pushing a tree adds exactly the tables of its containers, each with its entries, and touches no other table; null entries are absent |
| `LazyViews.Message.MaterializeMessage` | src/lazy.cpp:175-186 | the whole retained tree becomes tables, at most once; views and tree stay |
| `LazyViews.Message.PushPath` | src/lazy.cpp:191-210 | climbing the parent links gives the view's key chain, own key first |
| `LazyViews.Message.PushResolved` | src/lazy.cpp:214-230 | a view of a materialized message is what its key chain leads to from the root table, or an error |
| `LazyViews.Message.Gettable` | src/lazy.cpp:247-252 | indexing any Lua value, where a view met on the way resolves through its key chain again |
| `LazyViews.Message.Settable` | src/lazy.cpp:348-358 | storing through any Lua value changes the one slot it stands for, or raises and changes nothing |
| `LazyViews.Message.PushChild` | src/lazy.cpp:232-242 | a container child of a pristine view comes as a new view linked to it, a scalar as itself, a missing key as nil |
| `LazyViews.Message.NodeIndex` | src/lazy.cpp:334-346 | indexing a view in either state of the message, `materialize` being the one reserved key |
| `LazyViews.Message.NodeNewIndex` | src/lazy.cpp:348-358 | a write materializes first and then stores where the view points |
| `LazyViews.Message.NodeMaterialize` | src/lazy.cpp:297-302 | materializes and returns what the view stands for |
| `LazyViews.Message.NodeLen` | src/lazy.cpp:318-332 | the length of a pristine list; afterwards any border of the table, or an error exactly when there is none |
| `LazyViews.Message.ListLength` | src/lazy.cpp:280-286 | the length of a value, through views |
| `LazyViews.Message.NextPair` | src/lazy.cpp:360-397 | the entry after a control key: next index of a list, next greater name of a map, none at the end |
| `LazyViews.PairsVisitsEveryKeyOnce` | src/lazy.cpp:360-397 | a pairs() loop over a pristine message goes to every key exactly once, in order, and ends |
| `LazyRefinement.ViewHoldsItsSubtree` | src/lazy.cpp:114-127 | in every coherent state a view's value is the retained subtree at its key chain |
| `LazyRefinement.InPlaceIffPositionsResolve` | src/lazy.cpp:214-230 | all positions of a message resolve to their own tables exactly when every container is still stored where the message had it |
| `LazyRefinement.IndexAgrees` | src/lazy.cpp:244-278 | indexing a view gives what indexing the eager table at its position gives; a container comes as a view of that position |
| `LazyRefinement.AssignAgrees` | src/lazy.cpp:348-358 | a write through a view is the same write in the eager tables, and raises exactly when that one does |
| `LazyRefinement.MaterializeUnobservable` | src/lazy.cpp:553-559 | materializing changes nothing in the eager tables and a second time changes nothing at all |
| `LazyRefinement.LengthAgreesIff` | src/lazy.cpp:318-332 | the length of a pristine view is an answer Lua may give for the table exactly when the list does not end in a null |
| `LazyRefinement.LengthUnique` | src/lazy.cpp:318-332 | and the only answer when the list holds no null |
| `LazyRefinement.LookupFrame` | src/lazy.cpp:214-230 | a write changes what a lookup finds only if the lookup reads the written slot |
| `LazyRefinement.PathFrame` | src/lazy.cpp:214-230 | a write changes no position whose key chain does not go through the written slot |
| `LazyRefinement.WriteSeenThroughEveryView` | src/lazy.cpp:348-358 | what is written through one view is read back through every view that stands for the same table |
| `LazyRefinement.StoreKeepsViewIff` | src/lazy.cpp:214-230 | what a write does to a view whose links are in place: it stands for its position exactly if no link is stored over, or the rest of its keys leads there from the stored value |
| `LazyRefinement.StoreOverViewIff` | src/lazy.cpp:348-358 | storing over the very position of a view: it stands exactly if it gets its own table back |
| `LazyRefinement.StoreKeepsPlaceIff` | src/lazy.cpp:348-358 | a write leaves all containers where the message had them exactly if it stores over none, or a container's own table |
| `LazyScripts.StepCoherent` | src/lazy.cpp:76-154 | over any script operation links stay acyclic and rooted, tree and views never change, a materialized message stays so |
| `LazyScripts.StepSimulates` | src/lazy.cpp:232-358 | one operation on a view that stands for its position, or on any other value, does the same next to a lazy message and next to a plain table |
| `LazyScripts.LengthSimulates` | src/lazy.cpp:318-332 | every length told is one the plain table may give, and it raises where the plain one does |
| `LazyScripts.PutSimulates` | src/builtin.cpp:394-431 | set() on a view materializes the message and leaves the same tables behind as set() on the table |
| `LazyScripts.SeekSimulates` | src/lazy.cpp:561-595 | get() gives the same on a standing view and on the table, as a view of the same place before the first write |
| `LazyScripts.SameSetIff` | src/builtin.cpp:413-427 | set() leaves the same behind in both worlds exactly if its path does not go on through a stored view |
| `LazyScripts.LazinessUnobservable` | src/lazy.cpp:175-358 | over whole scripts that use standing views, whatever they capture and whenever: every operation gives the same value, or raises, in both worlds |
| `LazyScripts.ReadsAgreeIff` | src/lazy.cpp:214-278 | at any moment no read tells the two worlds apart exactly if every held view stands for its position |
| `LazyScripts.FallenViewShows` | src/lazy.cpp:214-278 | for a held view that does not stand there is one read that gives something else |
| `LazyScripts.NeverNoticedIff` | src/lazy.cpp:175-358 | over whole scripts of ordinary operations nothing is ever noticed exactly if all held views stand before, between and after the operations |
| `LazyScripts.ArrivalRelated` | src/lazy.cpp:129-140 | a fresh message and the eagerly built table start related |
| `LazyWrites.UnheldEntryReplaced` | src/lazy.cpp:348-358 | at any moment with the links of all held views in place: a write to an entry on the way to no held view is never noticed, whatever is stored, and leaves the links in place |
| `LazyWrites.StepKeepsChains` | src/lazy.cpp:175-358 | every operation that writes no entry on the way to a view taken before keeps the links of all views |
| `LazyWrites.CarefulNeverNoticed` | src/lazy.cpp:175-358 | a script of such operations is never noticed, whatever it reads in between |
| `LazyWrites.CarefulFromArrival` | src/lazy.cpp:129-140 | in particular from the arrival of a message on |
| `LazyRefinement.SelfStoreRaises` | src/lazy.cpp:214-230 | a view stored at its own position raises on every index, whatever the limit on nested calls |
| `LazyScripts.SelfStoreShows` | src/lazy.cpp:348-358 | such a store is invisible in the plain script and visible in the lazy one |
| `LazyScripts.CopyingAViewOntoItselfShows` | src/lazy.cpp:214-230 | the shortest script that shows it, from an arriving message |
| `PathAccess.Get` | src/builtin.cpp:359-391 | get() follows the parts of the path, a leading separator skipped, and stops at the first nil; below a non-table it is undefined |
| `PathAccess.LuaState.Set` | src/builtin.cpp:394-431 | set() stores at the end of the path and makes a table for every part that leads to none |
| `PathAccess.SetChangesOneSlot` | src/builtin.cpp:408-430 | of the tables that were there, set() changes exactly one slot |
| `PathAccess.GetAfterSetIff` | src/builtin.cpp:359-431 | get() after set() returns the value, whatever it is, exactly when the path does not come through the slot it stores into |
| `PathAccess.TreeGetAfterSet` | src/builtin.cpp:359-431 | in tables that form a tree get() after set() always returns the value |
| `PathAccess.DivergingPathKept` | src/builtin.cpp:359-431 | in a tree of tables a path that parts from the written one reads as before |
| `ViewPaths.MessageTablesAreTree` | src/lazy.cpp:175-186 | the tables made of a message form such a tree |
| `ViewPaths.GetPath` | src/lazy.cpp:561-595 | get() on a view: what the path leads to in the retained subtree, or get() on what the view leads to, which may be a view again |
| `ViewPaths.GetPathFollows` | src/lazy.cpp:571-594 | on a pristine message it is what its keys lead to in the eager table, as a view of the same place; nil where the table lookup goes through a scalar |
| `ViewPaths.GetPathAgrees` | src/lazy.cpp:571-594 | and for a path that does not start with the separator that is what get() gives on the table |
| `PathAnswers.AnswersAgreeIff` | src/lazy.cpp:561-595 | the answers of get() on views and on tables agree for every message exactly if the path is the whole, does not start with the separator, or has a part "[0]" |
| `PathAnswers.LeadingSeparatorShows` | src/lazy.cpp:578-584 | for every other path the message that is one chain along it tells the two apart |
| `ViewPaths.SameKeysIff` | src/builtin.cpp:371-373 | views and tables follow the same keys exactly when the path does not start with the separator |
| `ViewPaths.LeadingSeparatorDiffers` | src/lazy.cpp:578-584 | ":a" finds the entry in a table and nothing in a view |
| `ViewRounds.EndlessIff` | src/lazy.cpp:567-571 | the calls of get() on views go on for ever exactly if they are still open after as many turns as there are views, and exactly if some view is asked twice |
| `ViewRounds.MoreTurnsSame` | src/builtin.cpp:360-362 | an answer that came is the answer, however many turns are allowed |
| `ViewRounds.StoredViewFollowed` | src/lazy.cpp:567-571 | after `m.a = m.b` get() on the view of `a` is get() on the table at `b` |
| `ViewRounds.SelfStoredNeverEnds` | src/lazy.cpp:567-571 | after `m.a = m.a` get() on that view never returns |
| `ViewRounds.ViewGetAfterSet` | src/builtin.cpp:359-431 | get() on a view returns what set() on it stored, if the view still leads to its table and the path does not come through the slot written |
| `ViewRounds.FirstSetReadBack` | src/builtin.cpp:394-397 | on a message nobody wrote to before it always does |
| `FiberRuns.StepKeepsInv` | src/fibers.cpp:104-235 | every step of the scheduler keeps the invariant of the pool |
| `FiberRuns.PoolSafety` | src/fibers.cpp:64-95 | over every run: parked and flying are disjoint, parked never exceeds its cap, a fiber flies exactly while its closure is started and unfinished |
| `FiberRuns.CurrentRestored` | src/fibers.cpp:84-95 | when control comes back from a fiber the current-fiber variable is what it was before |
| `FiberRuns.IdleExactly` | src/fibers.cpp:75-81 | idle is emitted exactly by the steps in which the last flying fiber comes back |
| `FiberRuns.ResumeFindsItsAwait` | src/fibers.cpp:209-215 | a posted resume finds its fiber suspended in the await that asked for it, or detached |
| `FiberRuns.ClosureLedger` | src/fibers.cpp:159-181 | each step starts at most one closure, and a closure is over at most once and stays on its fiber until then |
| `FiberRuns.ClosureConserved` | src/fibers.cpp:159-181 | at any time an accepted closure runs on exactly one fiber or is over |
| `FiberRuns.TornDownIsInert` | src/fibers.cpp:161-166 | on an unwound fiber an await does not suspend, a Run starts nothing, a queued resume does nothing |
| `FiberRuns.TeardownIsFinal` | src/fibers.cpp:193-225 | and that stays so over every later run, even if user code catches the shutdown |
| `FiberRuns.UnwindTearsDown` | src/fibers.cpp:195-200 | destroying a straggler's coroutine makes its fiber torn down |
| `FiberRuns.NothingStartsWhileStopping` | src/fibers.cpp:193-201 | while Stop unwinds, nothing is accepted and nothing flies |
| `FiberRuns.StopLeavesNothing` | src/fibers.cpp:183-201 | when Stop returns no fiber flies, is suspended or runs, and every accepted closure is over |
| `FiberRuns.ErrorsReportedOnce` | src/fibers.cpp:139-157 | over every run the reports are one for each closure that failed on a fiber not being unwound, in that order: to the caller of Run exactly if the fiber never was suspended since the closure started, else to the log |
| `FiberRuns.FailsOnce` | src/fibers.cpp:104-124 | a closure fails at most once over a run |
| `Fibers.FiberPool.Run` | src/fibers.cpp:159-181 | Run up to the switch into the closure: inline, nothing on an unwinding fiber, or on a parked or new fiber |
| `Fibers.FiberPool.EntryReturns` | src/fibers.cpp:104-157 | the end of a closure, the step guard and what Run or resume does after it, as one step of the machine |
| `Fibers.FiberPool.InlineReturns` | src/fibers.cpp:161-166 | the end of a closure that ran inline: its caller goes on, on the same fiber |
| `Fibers.FiberPool.AwaitSignal` | src/fibers.cpp:203-217 | await suspends, or raises at once on an unwinding fiber |
| `Fibers.FiberPool.SignalSettles` | src/fibers.cpp:209-215 | a settled future posts one resume |
| `Fibers.FiberPool.DispatchResume` | src/fibers.cpp:210-235 | the event loop resumes the fiber of the oldest post, or does nothing when it is detached |
| `Fibers.FiberPool.BeginForcedStop` | src/fibers.cpp:193-196 | the flying fibers leave the pool before any of them is unwound |
| `Fibers.FiberPool.UnwindStraggler` | src/fibers.cpp:195-221 | the await of a straggler turns its unwinding into a shutdown error |
| `Fibers.FiberPool.EndForcedStop` | src/fibers.cpp:195-201 | when Stop returns no fiber flies and every accepted closure is over |
| `Shutdown.InstRunKeepsInv` | src/instance.cpp:586-616 | over every order of events the flags of the instance and the pool stay consistent |
| `Shutdown.ShutdownDoneOnce` | src/instance.cpp:586-616 | ShutdownDone is emitted at most once, and only after Shutdown |
| `Shutdown.IdleEmissionFindsNothingRunning` | src/instance.cpp:126-136 | the emission that follows Stop finds every fiber gone and every closure over |
| `Shutdown.Instance.BeginShutdown` | src/instance.cpp:586-605 | only the first call of Shutdown starts anything |
| `Shutdown.Instance.ArmShutdown` | src/instance.cpp:606-615 | the timeout is armed, and the idle path when no worker is left |
| `Shutdown.Instance.OnWorkerDestroyed` | src/instance.cpp:224-234 | the last worker to go during a shutdown asks for the idle path |
| `Shutdown.Instance.OnTimeout` | src/instance.cpp:606-610 | the timeout emits unless something did before |
| `Shutdown.Instance.BeginEmitDoneWhenIdle` | src/instance.cpp:126-132 | only the first of all idle calls stops the pool |
| `Shutdown.Instance.EndEmitDoneWhenIdle` | src/instance.cpp:126-136 | emits once Stop is back, unless the timeout was first |
| `Framing.DrainAppend` | src/workers/binary_worker.cpp:16-41 | draining a buffer and then more bytes is draining all of them at once |
| `Framing.ChunkingIndependent` | src/workers/binary_worker.cpp:223-229 | the frames delivered and the bytes retained depend on the stream, not on its chunks |
| `Framing.DrainSplits` | src/workers/binary_worker.cpp:18-24 | a stream is its frames, each with its delimiter, and a tail without one |
| `Slip.Write` | src/workers/slipa.hpp:20-52 | the writer's parts make up the escaped message |
| `Slip.Read` | src/workers/slipa.hpp:54-85 | the reader's parts make up the decoded frame, or the error of the first bad escape |
| `Slip.EscapedNeverContainsEnd` | src/workers/slipa.hpp:20-52 | no END inside a written message |
| `Slip.ReadOfWrite` | src/workers/slipa.hpp:20-85 | reading what was written gives it back, for every byte string, with or without the closing END |
| `Slip.ReadIsInverse` | src/workers/slipa.hpp:20-85 | on END-free frames reading succeeds exactly on what the writer can produce, and writing the result gives the frame back |
| `Slip.ParseSlipFrames` | src/workers/binary_worker.cpp:16-41 | all complete frames are cut off, each gives its message or counts as an error, the rest is kept |
| `Slip.Receiver.Receive` | src/workers/binary_worker.cpp:223-229 | one chunk: the retained bytes and the chunk drain to messages, errors and an END-free rest |
| `Slip.DumpSlipFrame` | src/workers/binary_worker.cpp:147-164 | a frame without checksum is the escaped payload and one END |
| `Slip.MessagesArrive` | src/workers/binary_worker.cpp:16-41 | whatever the messages and the cutting: exactly they arrive, in order, and nothing is left |
| `Slip.MalformedLosesOnlyItself` | src/workers/binary_worker.cpp:24-38 | a malformed frame between good ones loses only itself, in any chunking |
| `LineFrames.ParseLineFrames` | src/workers/binary_worker.cpp:58-79 | complete lines are delivered without their carriage return, and at most 4096 bytes are kept |
| `LineFrames.DumpLineFrame` | src/workers/binary_worker.cpp:166-174 | a payload with a newline is refused, any other is sent with one behind it |
| `LineFrames.BufferBounded` | src/workers/binary_worker.cpp:56-79 | the retained buffer is within the limit after every chunk |
| `LineFrames.ChunkingShowsIff` | src/workers/binary_worker.cpp:58-79 | some chunking changes what is delivered or kept exactly when the stream has a line or tail over the limit |
| `LineFrames.LinesArrive` | src/workers/binary_worker.cpp:58-79 | lines within the limit and without a carriage return at the end all arrive, in order, whatever the chunks |
| `LengthFrames.FramePayload` | src/workers/wire.hpp:68-79 | a frame is the big-endian length and the payload |
| `LengthFrames.HeaderRoundTrip` | src/workers/wire.hpp:68-88 | a header reads back as the length it was made of |
| `LengthFrames.DrainFrames` | src/workers/wire.hpp:81-94 | whatever the headers, the loop does the turns in 32-bit arithmetic one after the other, and stalls exactly if they come to the header it never gets over; without wrapping headers it delivers the framed payloads and keeps the tail |
| `LengthFrames.EndlessIff` | src/workers/wire.hpp:81-94 | the loop goes on for ever exactly if it comes to that header, which is then at the front of what is left |
| `LengthFrames.TurnIsCutIff` | src/workers/wire.hpp:84-92 | one turn in 32-bit arithmetic reads the header as meant exactly when 4 + length does not wrap around |
| `LengthFrames.StallsIff` | src/workers/wire.hpp:84-92 | a turn makes no progress exactly on the length 2^32 - 4 |
| `LengthFrames.PayloadsArrive` | src/workers/wire.hpp:81-94 | framed payloads below 2^31 - 4 bytes arrive exactly, in order, in any chunking |
| `LengthFrames.CallsSane` | src/workers/wire.hpp:81-94 | receiving them, no call ever sees a header that wraps around |
| `TreePaths.IndexRoundTrip` | src/utils.hpp:6-19 | a printed index reads back as itself |
| `TreePaths.TryInt` | src/utils.hpp:6-19 | "[digits]" gives its number, everything else -1 |
| `Flatten.Flattener.Visit` | src/utils.cpp:6-40 | the walk with its shared path buffer: rows added and buffer left |
| `Flatten.BufferExcess` | src/utils.cpp:16-37 | what a subtree leaves in the buffer is the sum over its children of their own excess and one, a leaf counting -1 |
| `Flatten.FlattenTrueIff` | src/utils.cpp:6-46 | the listing has the true paths exactly when no container child is followed by a sibling that holds a leaf |
| `Flatten.SiblingOfContainerMislabelled` | src/utils.cpp:16-18 | the smallest tree with a wrong key |
| `Unflatten.WalkParts` | src/utils.cpp:48-63 | the parts between colons, one leading colon skipped, none for an empty key |
| `Unflatten.PartsOfJoined` | src/utils.cpp:48-63 | a joined path comes apart into its parts |
| `Unflatten.StoreAt` | src/utils.cpp:67-96 | storing a value down a path, replacing what is of the wrong kind and padding lists with nulls |
| `Unflatten.UnflattenRows` | src/utils.cpp:65-98 | all rows stored one after the other |
| `Unflatten.RoundTrip` | src/utils.cpp:65-98 | the true listing of a regular container rebuilds it |
| `Unflatten.RoundTripIff` | src/utils.cpp:65-98 | and it does so for no other tree |
| `Unflatten.RebuiltRegular` | src/utils.cpp:65-98 | whatever the rows of scalars: what is built has no empty container, no colon and no index-like name in its keys |
| `FlatRoundTrips.UncleanLost` | src/utils.cpp:6-98 | storing the rows of a listing with a wrong key never rebuilds its tree, whatever its nulls and its list paddings |
| `FlatRoundTrips.FlattenRoundTripIff` | src/utils.cpp:6-98 | Unflatten after Flatten gives a tree back exactly if it is a regular and clean container without an empty key on top, or invalid |
| `MergePatches.MergePatch` | src/utils.cpp:100-136 | the loop computes section 2 of RFC 7396, the diff and the count |
| `MergePatches.MergeTwice` | src/utils.cpp:100-136 | merging the same patch again changes nothing |
| `MergePatches.CountAfter` | src/utils.cpp:100-136 | and counts 0 |
| `MergePatches.DiffIsChangeIff` | src/utils.cpp:111-127 | the diff without its invalid entries turns the old tree into the new one exactly when the patch removes nothing that is there |
| `MergePatches.CountIsValidLeavesIff` | src/utils.cpp:117-135 | the count is the number of valid values in the diff, except when a whole tree is removed |
| `MergePatches.UnchangedIff` | src/utils.cpp:100-136 | a patch leaves the tree as it is exactly if it replaces nothing, removes nothing and puts no map where there was none |
| `MergePatches.CountsIffReplaces` | src/utils.cpp:129-134 | the count is above 0 exactly if some valid value of the patch that is no map differs from what is there |
| `MergePatches.CountTellsChangeIff` | src/workers/redis/redis.cpp:168 | the count answers whether anything changed, except exactly where nothing is replaced and one of the other two happened |
| `MergePatches.RemovalNotCounted` | src/utils.cpp:117-122 | a removal alone changes the tree and counts 0 |
| `MergePatches.EmptyMapNotCounted` | src/utils.cpp:105-107 | so does an empty map in place of a scalar |
| `PollPlan.PrepareReadableSorted` | src/workers/modbus/modbus_units.hpp:93-122 | the readable registers in strict index order, none lost, or a refusal that names a register running into one named before it |
| `PollPlan.LowerBound` | src/workers/modbus/modbus_units.hpp:108 | the first place whose index is not smaller |
| `PollPlan.SuccessorDecides` | src/workers/modbus/modbus_units.hpp:108-119 | checking the next register finds every earlier one that is run into |
| `PollPlan.PlannedIff` | src/workers/modbus/modbus_units.hpp:108-119 | a plan is made exactly when no register runs into one named before it |
| `PollPlan.PlanUnique` | src/workers/modbus/modbus_units.hpp:93-122 | there is one plan for the same registers |
| `PollPlan.PlanDisjointIff` | src/workers/modbus/modbus_units.hpp:108-119 | a plan is free of overlaps exactly when no register runs into one named after it either |
| `PollPlan.OverlapDependsOnNames` | src/workers/modbus/modbus_units.hpp:108-119 | the same two registers are accepted or refused by their names |
| `PollRuns.MergeSorted` | src/workers/modbus/modbus_units.hpp:129-154 | the registers, in order, cut into maximal runs, each request covering its run |
| `PollRuns.MergeSingle` | src/workers/modbus/modbus_units.hpp:124-155 | the runs hold exactly the readable registers of a type |
| `PollRuns.GroupingUnique` | src/workers/modbus/modbus_units.hpp:129-154 | there is one way to cut them into maximal runs |
| `PollRuns.RunTilesExactly` | src/workers/modbus/modbus_units.hpp:132-151 | an address is asked for exactly when it is a word of one register of the run, and of one only |
| `PollRuns.PollInside` | src/workers/modbus/modbus.cpp:82-86 | every word a poll decodes is inside its request |
| `PollRuns.PrepareSingleManual` | src/workers/modbus/modbus_units.hpp:167-192 | the registers that start in the window, in 32-bit arithmetic, or the one that would be split |
| `PollRuns.ManualInside` | src/workers/modbus/modbus_units.hpp:176-190 | no register of an accepted query sticks out of its request |
| `PollRuns.RefusedIff` | src/workers/modbus/modbus_units.hpp:177-190 | only the last two registers that start in the query decide, and only the last if they do not overlap: it is refused exactly if fewer words are free behind one of them than it takes itself |
| `PollRuns.FittingQueryRefused` | src/workers/modbus/modbus_units.hpp:178 | a fitting query that is refused |
| `PollRuns.SlaveServesIff` | src/workers/modbus/modbus_slave.cpp:48-53 | the slave's range covers all registers exactly when it fits 16 bits |
| `RegisterCodec.ApplyPacking` | src/workers/modbus/modbus_units.hpp:262-274 | words are exchanged for the other word order, bytes for the other byte order |
| `RegisterCodec.EncodeRegister` | src/workers/modbus/modbus_units.hpp:299-345 | the words of a value, or nothing when the value does not convert or does not fit |
| `RegisterCodec.RoundTrip32Iff` | src/workers/modbus/modbus_units.hpp:262-345 | decoding gives a 32-bit value back exactly with little-endian bytes or equal words, and exchanges its words with big-endian bytes |
| `RegisterCodec.RoundTrip16Iff` | src/workers/modbus/modbus_units.hpp:285-294 | a one-word value comes back under the host's word order, otherwise only if the unset second word holds it |
| `RegisterCodec.RoundTripBitIff` | src/workers/modbus/modbus_units.hpp:285-293 | the same for bits |
| `RegisterCodec.BackIff` | src/workers/modbus/modbus_units.hpp:262-345 | an encoded value comes back, whatever is in the second word, exactly by its kind, its packing and, under big-endian bytes, its words |
| `ChangeReports.PolledEntry` | src/workers/modbus/modbus.cpp:79-99 | a register of a poll is decoded to the value whose words are in the reply, whatever the registers before it leave in the shared buffer, if that value comes back; of two words only then |
| `ChangeReports.PolledRoundTrip` | src/workers/modbus/modbus.cpp:79-99 | a poll of values that all come back gives exactly these, in order |
| `ChangeReports.Master.ParsePoll` | src/workers/modbus/modbus.cpp:79-99 | a poll sends exactly the values that changed and remembers them; nothing when none did |
| `ChangeReports.Slave.OnDataWritten` | src/workers/modbus/modbus_slave.cpp:76-110 | a write by the bus master reports the touched registers that changed; the slave's own writes none |
| `ChangeReports.ScanExact` | src/workers/modbus/modbus_slave.cpp:90-104 | the scan, with its early exit, reads exactly the registers that share a word with the written addresses |
| `ChangeReports.RunReports` | src/workers/modbus/modbus.cpp:79-99 | over a run the messages joined are the diff of all that was decoded, and laid over the first state give the last |
| `ChangeReports.FollowersHoldLastValues` | src/workers/modbus/modbus.cpp:88-97 | whoever overlays the messages holds, for every name, the value decoded last |
| `ChangeReports.NoEmptyMessage` | src/workers/modbus/modbus.cpp:94-98 | no message is empty |
| `ChangeReports.RunEntriesChange` | src/workers/modbus/modbus.cpp:88-92 | every entry sent changes the value its followers held |
| `ChangeReports.ReportedAgainIff` | src/workers/modbus/modbus.cpp:88-92 | a value polled again is reported again exactly if it is a NaN |
| `ChangeReports.RepeatedReadings` | src/workers/modbus/modbus.cpp:79-99 | over a run in which the registers keep their words nothing is sent after the first poll but the NaNs, at every poll |
| `RequestRuns.EvictionClosedForm` | src/workers/modbus/modbus_device.cpp:60-75 | a removal whose callback retries into the full queue comes to one shift of the queue by the retries and the new request |
| `RequestQueues.MasterDevice.ExecuteWrite` | src/workers/modbus/modbus_device.cpp:60-75 | Execute for a write, with the callbacks it runs before it removes anything |
| `RequestQueues.MasterDevice.ExecuteRead` | src/workers/modbus/modbus_device.cpp:60-75 | Execute for a read |
| `RequestQueues.MasterDevice.Retry` | src/workers/modbus/modbus.cpp:152-166 | a retry spends one of the retries left and queues the write again, or does nothing |
| `RequestQueues.MasterDevice.OnMsg` | src/workers/modbus/modbus.cpp:125-130 | an encoded write starts with all its retries |
| `RequestQueues.MasterDevice.NextReq` | src/workers/modbus/modbus_device.cpp:85-117 | one request at a time, the oldest write first, then the oldest read |
| `RequestQueues.MasterDevice.Finish` | src/workers/modbus/modbus_device.cpp:119-153 | the reply frees the device and runs the callback once |
| `RequestSafety.RetriesBounded` | src/workers/modbus/modbus.cpp:129-174 | n messages cause at most n * (1 + write_retries) write requests, over every run |
| `RequestSafety.RunWithinLimits` | src/workers/modbus/modbus_device.cpp:60-75 | the queues never exceed their limits |
| `RequestSafety.WritesGoFirst` | src/workers/modbus/modbus_device.cpp:85-101 | a read goes out only with nothing in flight and no write queued |
| `RequestSafety.ReadsConserved` | src/workers/modbus/modbus_device.cpp:60-154 | every read is queued, in flight, or called back exactly once, over every run |
| `RequestSafety.WritesConservedIff` | src/workers/modbus/modbus_device.cpp:60-154 | the same for writes, exactly when no full queue removes a write with retries left |
| `RequestSafety.NoRetriesNoReentry` | src/workers/modbus/modbus.cpp:152-166 | without retries that never happens |
| `RequestSafety.RemovalLoses` | src/workers/modbus/modbus_device.cpp:66-69 | what such a removal loses: the writes behind the oldest, as many as it has retries |
| `RequestSafety.RemovalLosesRetries` | src/workers/modbus/modbus_device.cpp:66-69 | with the other policy: the retries of the newest write |
| `RequestSafety.ThreeMessagesLoseOne` | src/workers/modbus/modbus_device.cpp:66-69 | the smallest run that loses a write |
| `RequestSafety.ReadsInOrder` | src/workers/modbus/modbus_device.cpp:85-101 | the read in flight and the queued ones are always in the order they were made |
| `RequestSafety.WritesInOrder` | src/workers/modbus/modbus_device.cpp:85-101 | the same for writes and retries in every run without such a removal |
| `MsgPack.AcceptedIff` | examples/demo/firmware/msg2struct.hpp:243-253 | the sign and overflow checks accept a wire value exactly when the type can hold it |
| `MsgPack.InIterator.GetInteger` | examples/demo/firmware/msg2struct.hpp:359-410 | succeeds exactly when a whole integer is there and fits, with its value, and then moves past it |
| `MsgPack.InIterator.GetComposite` | examples/demo/firmware/msg2struct.hpp:293-348 | gives the bytes of a string or binary that is there whole, and moves past it |
| `MsgPack.BeyondIff` | examples/demo/firmware/msg2struct.hpp:328-334 | the reader goes one byte behind its input exactly on a short string that lacks its last byte |
| `MsgPack.OutIterator.WriteInteger` | examples/demo/firmware/msg2struct.hpp:516-551 | writes the smallest form, exactly when it fits the buffer, and nothing otherwise |
| `MsgPack.OutIterator.WriteString` | examples/demo/firmware/msg2struct.hpp:610-626 | writes a string exactly when it fits; a long one that does not may leave its header |
| `MsgPack.OutIterator.WriteBinary` | examples/demo/firmware/msg2struct.hpp:607-609 | writes a binary exactly when it fits; otherwise its header is left, if that fits |
| `MsgPack.OutIterator.BeginFixArray` | examples/demo/firmware/msg2struct.hpp:593-599 | the header of an array of at most 15 items, exactly when a byte is free |
| `MsgPack.InIterator.GetFixArraySize` | examples/demo/firmware/msg2struct.hpp:453-458 | the size in such a header, and moves past it |
| `MsgPack.ArrayReadsBack` | examples/demo/firmware/msg2struct.hpp:475-646 | an array of up to 15 integers, strings and binaries reads back item by item, and then the input is at its end |

## Left out

* Several messages at once: the model has one message; views of another message stored in its tables, `ipairs`, `tostring`, converting tables back to trees (`toQVar`, with its depth guard) and UTF-8 conversion of keys are not modelled.
* Lua metatables of other objects, garbage collection and user value slots: a view is its value and its links.
* Scripts with `pairs` among their operations (alone: `LazyViews.PairsVisitsEveryKeyOnce`).
- LazyViews.Message.NextPair: for a message nobody wrote to; afterwards the program goes on with Lua's own `next`.
- ViewPaths.GetPathAgrees: states the agreement for paths that do not start with the separator; for the others `ViewPaths.GetPathFollows` says what the view gives and `PathAnswers.AnswersAgreeIff` when the answers agree.
- LazyScripts.LazinessUnobservable: one way, for scripts that use standing views only; `LazyScripts.NeverNoticedIff` is the equivalence, over all reads that could be put in between.
- LazyRefinement.WriteSeenThroughEveryView: speaks of views that still stand for the written table and are not reached through the written slot.
- Unflatten.StoreAt: goes down the path by recursion where the program moves a pointer; aliasing between levels does not occur in a tree of values.
- TreePaths.TryInt: does not model the overflow of `long` on indices beyond 2^63.
- MsgPack.InIterator.GetComposite: the byte that is read behind the input, for the strings `MsgPack.BeyondIff` names, is not modelled.
- ChangeReports.Master.ParsePoll: the message is the flat list of changes; `Unflatten` of it is not composed.
- ChangeReports.Slave.OnDataWritten: the same.
- Slip.DumpSlipFrame: without the checksum, which the receiver neither checks nor strips.
- RequestQueues.MasterDevice.OnMsg: starts at the encoded write; the validator call, and the value a write-only register reports after success, are not modelled.
* Queue limits of zero, where `Execute` takes the front of an empty queue; several masters with different retry counts on one device; requests whose master is gone.
* The slave's `OnMsg`, which stores raw message values next to decoded ones.
* Register codec on a big-endian host.
* Nested event loops inside a fiber, blocking awaits off the event loop thread, and the reference counts of fibers: a fiber that does not fit the pool is gone.
* Order of `std::map` keys: by character, where the program compares bytes.
* Integer overflow of register indices (`int`) and of sizes (`size_t`), except where a lemma above names it.
* MessagePack: floats, booleans (written with the two codes exchanged), array16/array32 headers (their count is read from the type byte), extensions, `Next` over composites.
* Process workers in binary mode parse each chunk in a fresh buffer, so the chunking theorems do not cover them.
* Payload codecs, CRC, compression, worker naming, tags, configuration parsing, logging, sockets and timers.
