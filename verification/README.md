# Verification of the SoC validation framework

This project models the parts of the framework that carry state, graph reasoning or arithmetic,
and proves what they promise for every input, every run and every interleaving.

* **Sequencer** (`Names`, `DependencyGraph`, `Levels`, `Schedule`, `TightSchedules`, `TestCases`,
  `Sequencer`, `ParallelRuns`). `DependencyGraph` says what peeling a graph in rounds means, independently of the
  code; `Levels` is the outcome `Sequencer::Levels` must have; the class `Sequencer` computes it with
  the source's loops. `Schedule` is the list of batches `Run` executes and its bound against any
  other schedule, which `TightSchedules` shows to be the best possible. `ParallelRuns` is the
  concurrent part as a step system: spawn, begin, bump the shared counter, overrun the timeout,
  finish, join, next batch.
* **Device** (`Words`, `Device`, `DmaRuns`). A pure step semantics, a class whose methods update
  the registers in place and refine it, and theorems over whole runs since a reset.
* **Fields and registers** (`Fields`, `Registers`, `SocMap`, `Accessor`). The emitted getters,
  setters and clears on any disjoint layout, the proof that masked word writes act field by field,
  the shipped register map, and how `Modify` and `WriteOnly` differ.
* **Transports** (`Transports`, `Replay`, `Costs`, `MappedRegions`). Decorator stacks of any height
  over the device, replay of a transaction log, the price of splitting a transfer, and ownership of
  mapped buffers.

`dafny verify dfyconfig.toml` checks everything.

Where code and documentation part ways, the model follows the code:

* The repository's README (line 218) calls the log replayable. For every run whose successful block
  writes, if it has any, touch read-only registers only, replaying the log ends in the same device
  state if and only if no block operation, read or write, failed after its first word
  (`Replay.ReplayExactly`): such a failure moves the device and is not recorded. Any other
  successful block write is recorded by length only, and its record does not determine the state it
  leads to (`Replay.BlockDataIsLost`, an if-and-only-if for every state and every preceding run).
* The repository's README (line 134) and the comment at include/soc/register.hpp:37-46 name a status
  bit that latches between the read and the write of `Modify` as a change the write undoes. For a
  write-1-to-clear bit the code does the opposite: such a bit survives. What is lost is a bit already
  set in the word read, as line 136 of that README says (`Accessor.ModifyClearsWhatItRead`; reached
  from reset in `Accessor.DoneIrqIsLost` and `Accessor.DoneIrqSurvives`).
* A test becomes ready when its dependencies have finished, whatever their status. `Run` never
  skips a test, and a body that overran its timeout is still waited for.

## Model

| member | source | states |
|---|---|---|
| DependencyGraph.StuckReachesCycle | src/sequencer.cpp:64-86 | the tests no round finds ready are exactly those from which some cycle is reachable (pigeonhole on a walk) |
| DependencyGraph.StuckIsGreatest | src/sequencer.cpp:73-79 | the leftover is the greatest set in which every member waits for a member |
| DependencyGraph.StuckIffCyclic | src/sequencer.cpp:73-79 | something is left over if and only if the graph has a cycle, self-dependency included |
| DependencyGraph.LayersAreLeast | src/sequencer.cpp:64-86 | every dependency-respecting assignment of rounds places a test no earlier than peeling does |
| DependencyGraph.LayerIsDepth | src/sequencer.cpp:64-86 | a test's round is the length of its longest dependency chain, and is least among all layerings |
| Levels.UnknownRejection | src/sequencer.cpp:50-59 | rejected for an unknown name if and only if some dependency is unregistered; the least such pair is named |
| Levels.CycleRejection | src/sequencer.cpp:64-88 | with all names registered, failure if and only if cyclic; the listed names are, in order, exactly those that reach a cycle |
| Levels.LevelsPartition | src/sequencer.cpp:64-88 | levels are non-empty, strictly ascending, and every registered test is in exactly one |
| Levels.LevelIsLongestChain | src/sequencer.cpp:64-86 | level index = longest chain; dependencies strictly earlier; pointwise minimal among valid layerings |
| Names.LessIsLexicographic | src/sequencer.cpp:45 | the order of names is the lexicographic one: at the first difference the smaller character, or the shorter name, comes first |
| Names.AscendingUnique | src/sequencer.cpp:80 | a strictly ascending list is determined by its elements, so the sort after a map traversal changes nothing |
| Sequencers.OrderIndependence | src/sequencer.cpp:32-88 | the outcome of `Levels`, error included, depends only on the set of (name, dependency set) pairs |
| Sequencers.GraphOfEntries | src/sequencer.cpp:44-48 | with unique names the graph has exactly the registered tests, each with its own dependency set |
| Sequencers.Sequencer.Add | src/sequencer.cpp:32-42 | empty and duplicate names are rejected, in that order and without effect; otherwise the test is appended |
| Sequencers.Sequencer.FindUnknown | src/sequencer.cpp:52-59 | finds nothing only if every dependency is registered, otherwise the error `Levels` owes |
| Sequencers.Sequencer.CollectReady | src/sequencer.cpp:66-80 | exactly the pending tests whose dependencies are done, in ascending order |
| Sequencers.Sequencer.Retire | src/sequencer.cpp:81-84 | the ready tests leave `pending` and join `done`, nothing else moves |
| Sequencers.Sequencer.Levels | src/sequencer.cpp:44-88 | the peeling loop terminates with the outcome characterised in `Levels` |
| Schedule.PlanIsGood | src/sequencer.cpp:147-179 | every test in exactly one batch of 1 to k tests of a single level, every dependency in an earlier batch |
| Schedule.RoundsAtLeastLevels | src/sequencer.cpp:151-179 | no feasible schedule has fewer rounds than there are levels |
| Schedule.RoundsHoldAtMost | src/sequencer.cpp:159-177 | R rounds of at most k tests hold at most k*R tests |
| Schedule.ChunkCount | src/sequencer.cpp:159-177 | a level of n tests takes n/k batches, rounded up |
| Schedule.PlanRoom | src/sequencer.cpp:151-179 | k*B <= n + (k-1)*levels |
| Schedule.PlanIsCut | src/sequencer.cpp:153-177 | with up to one thread every batch is one test; with more, a batch has at most `threads` tests, and exactly that many unless it is the last of its level |
| Schedule.BatchBound | src/sequencer.cpp:147-179 | with k = 1 for up to one thread and k = threads otherwise, k*B <= (2k-1)*R against every feasible schedule of R rounds |
| Schedule.PlanIsFeasible | src/sequencer.cpp:147-179 | the plan for that k is itself feasible on k workers, so the bound is against the optimum |
| TightSchedules.CombLevels | src/sequencer.cpp:64-86 | a suite of a chain and independent tests has one level per chain test, the first holding all others |
| TightSchedules.BoundIsTight | src/sequencer.cpp:147-179 | the batch bound for that k is met with equality, for every thread count and by arbitrarily large suites |
| TestCases.RunPhases | src/sequencer.cpp:101-116 | setup runs iff there is one; the body iff setup did not throw; teardown iff there is one and the body was reached, even if it threw; each once and in this order; the exception that leaves is that of the last phase to throw |
| TestCases.RunOne | src/sequencer.cpp:92-143 | name, level and accesses are the test's; Timeout with its limit iff the wait expired; else Pass iff no phase threw, Fail with its text for the last exception to leave, Error for an unknown one; never Skip |
| TestCases.DecimalDenotes | src/sequencer.cpp:120 | the limit in the message is the decimal notation of the number, without leading zeros |
| Sequencers.Sequencer.RunLevelSerially | src/sequencer.cpp:153-158 | every test of the level is filed with the verdict owed to it, one per batch |
| Sequencers.Sequencer.RunBatch | src/sequencer.cpp:161-175 | after the joins every test of the batch is filed with its own verdict, whatever was filed before stays |
| Sequencers.Sequencer.RunLevelInBatches | src/sequencer.cpp:159-177 | the level's batches are consecutive slices of at most `threads` tests that cover it |
| Sequencers.Sequencer.InDeclarationOrder | src/sequencer.cpp:181-186 | results come back in declaration order, and the map is as before: the lookup inserted nothing |
| Sequencers.Sequencer.Run | src/sequencer.cpp:147-187 | for every thread count, results[i] tells of the i-th declared test, at a level that is the length of its longest dependency chain less one; the batches executed are the plan, cut for that number of threads; a levelling error runs nothing |
| ParallelRuns.StepInv | src/sequencer.cpp:147-179 | every atomic step keeps the invariant tying futures, filed results, history and the shared counter |
| ParallelRuns.ParallelSafety | src/sequencer.cpp:159-177 | in every reachable state: at most `threads` tests in flight (one if threads is 0 or 1), all of one level, none started twice, none joined before its whole batch is spawned, every dependency of a started test has returned and been filed |
| ParallelRuns.StepDecreases | src/sequencer.cpp:147-179 | every step of every interleaving uses up a finite bound |
| ParallelRuns.RunsTerminate | src/sequencer.cpp:147-179 | every run is finite, with an explicit bound on its length |
| ParallelRuns.Progress | src/sequencer.cpp:159-177 | until the last batch is joined some step is enabled |
| ParallelRuns.MaximalRunExists | src/sequencer.cpp:147-187 | every suite without an error has a run that goes on to the end |
| ParallelRuns.RunToEnd | src/sequencer.cpp:159-177 | from every state that keeps the invariant some run goes on to the end |
| ParallelRuns.MaximalRunsComplete | src/sequencer.cpp:118-187 | a run that can go no further has started each test once and filed exactly one result each, telling of that test at its depth, a timeout exactly if its timeout expired in the run; serial runs charge a test exactly its own accesses, parallel ones at least |
| ParallelRuns.TimeoutsAreExpirations | src/sequencer.cpp:118-127 | in every reachable state a filed result is a timeout iff the run contains the step that expired that test's wait |
| ParallelRuns.ChargesAreBumps | src/sequencer.cpp:97-141 | in every reachable state a filed test is charged exactly the bumps of the shared counter, its own and others', between its beginning and its finish |
| ParallelRuns.AnyTimeouts | src/sequencer.cpp:118-127 | for every set of tests some maximal run times out exactly those |
| ParallelRuns.BatchesOverlap | src/sequencer.cpp:161-171 | for every batch some reachable state has all of its tests inside their bodies |
| ParallelRuns.WorkersAreIndependent | src/sequencer.cpp:161-171 | what a worker may do next depends on its own state alone |
| ParallelRuns.FinishAlone | src/sequencer.cpp:161-175 | any running body may finish while the others stand still, so bodies complete in any order |
| ParallelRuns.RunAccounted | src/sequencer.cpp:97-141 | the shared counter is its start value plus the bumps of finished batches plus those of the current one |
| ParallelRuns.ChargedWithinBatch | src/sequencer.cpp:97-141 | in every reachable state a filed test is charged at least its own accesses and at most the summed accesses of its own batch |
| ParallelRuns.RunsAgree | src/sequencer.cpp:147-187 | any two maximal runs, of any thread counts, agree on names, levels, and on status and message when they agree on the timeout |
| ParallelRuns.MaximalRunIsInOrder | src/sequencer.cpp:181-186 | the results built from any maximal run satisfy the contract of `Sequencer.Run` |
| Words.SameBits | src/emulated_device.cpp:85-94 | words with equal bits are equal, which carries bitwise facts to the mask arithmetic |
| Words.TruncIsRemainder | tools/generate_registers.py:54-55 | the width mask computes the value modulo two to the width |
| Words.TruncWhole | tools/generate_registers.py:54-55 | a field of all 32 bits cuts nothing |
| Fields.SetBitsBit | tools/generate_registers.py:80-84 | a `set_` call gives the field's bits the value's bits and leaves every other bit |
| Fields.LastWriteWins | tools/generate_registers.py:58-92 | after any list of calls on a disjoint layout a getter returns the last value for its field modulo 2^width, or the original |
| Fields.UntouchedBits | tools/generate_registers.py:80-92 | bits outside the touched fields are unchanged by any list of calls |
| Fields.OnlyLastMatters | tools/generate_registers.py:80-92 | two lists that end with the same call on each field yield the same word |
| Fields.Reordering | tools/generate_registers.py:80-92 | any reordering that keeps per-field order yields the same word |
| Fields.PackThenDecode | tools/generate_registers.py:42-84 | packing one value per field and decoding returns every value cut to its width |
| Fields.RegisterValue.Set | tools/generate_registers.py:80-84 | in place: the getter then returns the value cut to the width, other bits stay |
| Fields.RegisterValue.ClearField | tools/generate_registers.py:85-92 | in place: the field reads all ones, other bits stay |
| Fields.RegisterValue.Chain | tools/generate_registers.py:101-124 | a chain of emitted calls has the effect the layout theorems speak about |
| Registers.WriteRefinesFields | src/emulated_device.cpp:85-94 | with masks derived from any disjoint layout a word write acts per field: RW takes the written field, RO keeps, W1C becomes old AND NOT written |
| Registers.UnmappedBitAfterWrite | src/emulated_device.cpp:85-94 | bits of no field are plain storage unless the whole register is read-only |
| SocMap.TableMatchesMap | src/emulated_device.cpp:31-41 | the hand-written policy table is the one derived from regmaps/soc.yaml, all-ones for a wholly RO register; every layout in the map is disjoint |
| SocMap.MapCoversTable | regmaps/soc.yaml:9-100 | the device decodes exactly the addresses of the map |
| SocMap.MapPlaces | src/emulated_device.cpp:8-23 | each register the device treats specially is the map's register at that numeric address, with its fields |
| Device.DecodedAddresses | src/emulated_device.cpp:8-23 | six words from 0x4000_0000 and three from 0x5000_0000 decode, and nothing else |
| SocMap.DeviceWriteActsOnFields | src/emulated_device.cpp:81-109 | a device write to any mapped register acts per field on the value after the tick; side effects never disturb the register written |
| Device.MaskArithmetic | src/emulated_device.cpp:85-94 | the three-step mask computation equals the one-expression per-bit merge, for all words and masks |
| Device.RunValid | src/emulated_device.cpp:45-109 | the set of stored registers never changes over any run |
| Device.EmulatedDevice.constructor | src/emulated_device.cpp:28-43 | starts in the reset state with latency 8 |
| Device.EmulatedDevice.DoReset | src/emulated_device.cpp:45-52 | every register at its reset word, clock and engine cleared, latency kept |
| Device.EmulatedDevice.SetTransferLatency | include/soc/emulated_device.hpp:35 | the latency is the given one and nothing else changes |
| Device.EmulatedDevice.Advance | src/emulated_device.cpp:62-72 | one tick; a due transfer completes with the XFER_LEN of that moment and latches DONE_IRQ |
| Device.EmulatedDevice.ReadWord | src/emulated_device.cpp:74-79 | refines the read step; the tick precedes the read; undecoded accesses fail without effect |
| Device.EmulatedDevice.WriteWord | src/emulated_device.cpp:81-109 | refines the write step: decode, tick, masked store, then start and retrain effects |
| Device.EmulatedDevice.ReadBlockInto | src/emulated_device.cpp:111-118 | refines the sequence of single reads; on a fault the words before it are in the buffer, the rest is untouched |
| Device.EmulatedDevice.WriteBlockFrom | src/emulated_device.cpp:120-127 | refines the sequence of single writes up to the first word that does not decode |
| DmaRuns.OnlySinceReset | src/emulated_device.cpp:45-52 | every run ends where the steps after its last reset lead from a reset device |
| DmaRuns.GoAccounting | src/emulated_device.cpp:62-101 | since reset, accepted GO writes = completions, plus one while a transfer runs |
| DmaRuns.IrqIsPending | src/emulated_device.cpp:62-101 | DONE_IRQ is 1 if and only if some completion was not acknowledged at that access or later |
| DmaRuns.ExactLatency | src/emulated_device.cpp:62-101 | after a GO accepted with latency L the transfer completes on decoded access number max(1, L) and no other, whatever those accesses are |
| DmaRuns.LatencyTakesEffect | include/soc/emulated_device.hpp:35 | after the latency is set to n, any later GO, across resets, takes max(1, n) accesses until it is set again |
| DmaRuns.GoExactly | src/emulated_device.cpp:97-101 | a decoded write that finds the engine idle starts a transfer iff it writes 1 to the GO field of CTRL, due its latency after its own tick; otherwise engine and STATUS stay |
| DmaRuns.NoRestart | src/emulated_device.cpp:97-101 | no write disturbs a running transfer |
| DmaRuns.AcceptedMeans | src/emulated_device.cpp:97-101 | the GO writes counted as accepted are those that write 1 to the GO field with the engine idle |
| DmaRuns.RetrainExactly | src/emulated_device.cpp:102-108 | a decoded write changes LINK_STATUS iff it writes 1 to the RETRAIN field of LINK_CTRL |
| DmaRuns.StillRunning | src/emulated_device.cpp:62-72 | before that access nothing completes, over any reset-free steps |
| DmaRuns.PollDone | python/examples/dma_bringup.py:38-47 | a polling loop on a running transfer sees DONE iff its budget covers the accesses still needed, on exactly that read |
| DmaRuns.StartAndPoll | python/examples/dma_bringup.py:31-47 | starting a transfer of latency L and polling sees DONE if and only if the budget is at least max(1, L) |
| DmaRuns.OpsAreSteps | src/emulated_device.cpp:111-127 | every run of bus operations, blocks included, is a run of single decoded accesses |
| DmaRuns.BlockFault | src/emulated_device.cpp:111-127 | a block that faults at word i has made exactly i ticks and its first i single accesses, and names that address |
| DmaRuns.PlainHoldsLast | src/emulated_device.cpp:85-94 | registers without special bits hold the last word written since reset |
| DmaRuns.StatusIsHistory | src/emulated_device.cpp:62-101 | STATUS is 2 while a transfer runs, 1 if none completed since reset, else the encoding for XFER_LEN as held at the last completion |
| DmaRuns.StatusWords | src/emulated_device.cpp:62-101 | STATUS word for word: 2 while running, else 1, or 5 plus 256 times the beats of the last completion |
| DmaRuns.StatusInvariant | src/emulated_device.cpp:62-101 | in every reachable state BUSY iff running, IDLE and BUSY differ, DONE excludes BUSY, DONE iff idle after a completion, BEATS = (BYTES/4) mod 65536 of that completion |
| DmaRuns.LinkIsHistory | src/emulated_device.cpp:102-108 | LINK_STATUS is 0 until a retrain write and then the encoding of the last one |
| DmaRuns.DecodeLink | src/emulated_device.cpp:102-108 | through the getters a retrained link is up, at the requested speed, width 16, LTSSM 0x10, and no other bit is set |
| Transports.OneWriter | src/txn_log.cpp:65-84 | a log only one layer writes to gains exactly the successful operations of a run, in order |
| Transports.EntriesPerWriter | src/txn_log.cpp:65-84 | a log shared by n layers gains n entries per successful operation, the i-th with the i-th layer's test name |
| Transports.Transport.Read | include/soc/transport.hpp:29-49 | through any stack: reply and device as on the bare device, every meter has charged the read, every log has gained one entry per layer writing to it, innermost first, if the read succeeded |
| Transports.Transport.Write | include/soc/transport.hpp:29-49 | the same for a write |
| Transports.Transport.ReadMany | include/soc/transport.hpp:29-49 | the same for a block read, buffer contents before and after a fault included |
| Transports.Transport.WriteMany | include/soc/transport.hpp:29-49 | the same for a block write, missing buffers included |
| Transports.ProtocolRead32 | include/soc/transports.hpp:42-46 | charges one access before forwarding, hence also when the inner read throws |
| Transports.ProtocolWrite32 | include/soc/transports.hpp:48-52 | charges one access before forwarding a write |
| Transports.ProtocolReadBlock | include/soc/transports.hpp:56-61 | one access, at the single price plus a quarter per word |
| Transports.ProtocolWriteBlock | include/soc/transports.hpp:63-68 | one access, at the single price plus a quarter per word |
| Transports.LoggedRead32 | src/txn_log.cpp:65-69 | its log gains its own entry, with the value read, behind those of the layers below that share the log; nothing on failure |
| Transports.LoggedWrite32 | src/txn_log.cpp:71-74 | the same with the value written |
| Transports.LoggedReadBlock | src/txn_log.cpp:76-79 | the same with the count cut to 32 bits |
| Transports.LoggedWriteBlock | src/txn_log.cpp:81-84 | the same with the count cut to 32 bits |
| Transports.FaithfulStep | src/txn_log.cpp:65-84 | one transparent operation extends a faithful run by one |
| Transports.AccessTime | include/soc/transports.hpp:25-31 | an access takes its bits at the clock's rate: time times clock is 10^9 times the bits |
| Transports.MetersShow | include/soc/transports.hpp:42-68 | in every stack, over every run, a meter counts every operation and its time times the clock grows by 250 000 000 times the bits times the quarters: 4 per single access, 4 + n per block of n |
| Transports.Drive | src/txn_log.cpp:65-84 | decorator transparency for every finite stack and every operation sequence, shared logs included: replies, errors, device state; every meter counts every operation at its price, every log holds exactly the successful ones, once per layer writing to it |
| Replay.ShortBlocks | src/emulated_device.cpp:8-23 | at most six consecutive words decode, so a logged block count is never cut |
| Replay.ReadOnlyWrites | src/emulated_device.cpp:85-94 | what a block writes to read-only registers makes no difference to the state, for all data |
| Replay.RecordReplays | src/txn_log.cpp:65-84 | a record of any operation whose data it holds, or whose data does not matter because it lands on read-only registers, replays with the same effect and reply; a read's record holds the reply |
| Replay.ReplayReproduces | src/txn_log.cpp:65-84 | replaying returns every recorded reply, each `Read32` record's value included, and ends in the same device state, failed operations without effect included |
| Replay.ReplayAccesses | src/txn_log.cpp:65-84 | a replay makes, in order, exactly the accesses of the run without those of its partly failed blocks, up to data written to read-only registers |
| Replay.ReplayExactly | src/txn_log.cpp:65-84 | when no successful block write reaches a writable register, the replay reproduces the final state if and only if no block operation failed after its first word |
| Replay.BlockDataIsNotLogged | src/txn_log.cpp:81-84 | after any run, successful block writes of equal length leave equal logs whatever their data |
| Replay.BlockDataIsLost | src/txn_log.cpp:81-84 | after any run from any state, the log determines the state a successful block write leads to if and only if every word lands on a read-only register |
| Replay.DifferentTopBits | src/emulated_device.cpp:81-127 | data that differs in the top bit of any word landing on a writable register ends in different states |
| Replay.DifferentPlainWords | src/emulated_device.cpp:81-127 | data that differs at all in a word landing on plain storage ends in different states |
| Replay.PartialReadIsLost | src/txn_log.cpp:76-79 | the concrete seven-word read whose six ticks the log does not show |
| Replay.PartialWriteIsLost | src/txn_log.cpp:81-84 | the concrete two-word write that sets XFER_LEN and leaves no record |
| Replay.BlockWritesAreNotReplayable | src/txn_log.cpp:81-84 | the concrete pair of runs with one log and different final states |
| Costs.SplitsAgree | src/emulated_device.cpp:111-127 | every split of a transfer, read or write, into singles and blocks makes the same accesses and ends in the same state |
| Costs.SplitReads | src/emulated_device.cpp:111-118 | a split read brings back, in order, exactly the words the one block returns |
| Costs.CostIsQuarters | include/soc/transports.hpp:42-68 | a split of p pieces costs its quarters exactly: 4 for a single, 4 + n for a block of n |
| Costs.OneBlockIsCheapest | include/soc/transports.hpp:54-68 | from two words on no split is cheaper than one block, and at a positive price only the split into one piece is as cheap |
| Costs.OneSingleIsCheapest | include/soc/transports.hpp:42-68 | for one word no split is cheaper than a single access, at a positive price no other split is as cheap, and a block of one costs a quarter more |
| Accessor.RegisterAccessor.Read | include/soc/register.hpp:25-29 | exactly one bus read |
| Accessor.RegisterAccessor.Modify | include/soc/register.hpp:47-53 | exactly one read and one write whatever the mutator does; a failed read is the only operation |
| Accessor.RegisterAccessor.WriteOnly | include/soc/register.hpp:60-66 | exactly one write, of the mutated reset word, and no read |
| Accessor.WriteOnlyClearsExactly | include/soc/register.hpp:55-66 | for any list of clear_ calls WriteOnly clears exactly the named latches, one that latches on its own tick included |
| Accessor.ModifyClearsWhatItRead | include/soc/register.hpp:37-53 | after Modify a latch is set iff it was set when the write landed, was not in the word read, and was not named |
| Accessor.ModifyHazard | include/soc/register.hpp:37-46 | a latched bit nobody named is lost by Modify exactly when its own read saw it |
| Accessor.PlainBits | include/soc/register.hpp:47-66 | on plain bits Modify keeps what it read and WriteOnly restores the reset value |
| Accessor.ModifyActsOnFields | include/soc/register.hpp:47-53 | for any mapped register and any calls on its fields, after Modify an RW field holds the last value set or the value read, an RO field the value at the write, a W1C field that value less the ones written |
| Accessor.WriteOnlyActsOnFields | include/soc/register.hpp:55-66 | for any mapped register and any calls on its fields, after WriteOnly an RW field holds the last value set or its reset value, an RO field the value at the write, a W1C field that value less the ones written |
| Accessor.ModifyDuringTransfer | include/soc/register.hpp:37-53 | Modify of IRQ_STATUS in a running transfer: a completion on the read's tick is lost, one on the write's tick is kept, for every state |
| Accessor.ModifyAfterGo | include/soc/register.hpp:37-53 | from reset with any latency L, GO then Modify: completed iff L <= 2, and DONE_IRQ still shows it iff L = 2 |
| Accessor.DoneIrqIsLost | include/soc/register.hpp:37-46 | the concrete run of latency 1 in which clearing ERR_IRQ loses a DONE_IRQ nobody named |
| Accessor.DoneIrqSurvives | include/soc/register.hpp:37-46 | the concrete run of latency 2 in which DONE_IRQ latches on the write's tick and survives |
| MappedRegions.MappedRegion.Move | include/soc/transport.hpp:79-82 | the buffer changes owner, the source is left empty |
| MappedRegions.MappedRegion.MoveAssign | include/soc/transport.hpp:84-92 | the old buffer is freed once and the new one taken over; self-assignment changes nothing |
| MappedRegions.MappedRegion.Destroy | include/soc/transport.hpp:74 | frees exactly its own buffer, or nothing when empty |
| MappedRegions.MappedRegion.At | include/soc/transport.hpp:98-103 | yields a word iff the index is in range; an empty region has none |
| MappedRegions.Map | include/soc/transport.hpp:62-72 | one buffer is allocated; a region owns it, with the words read, or, when the fill throws, it is freed at once and there is no region |
| MappedRegions.Use | include/soc/transport.hpp:58-92 | what each use does to every region of a table and which buffer it frees: a moved-from region is null, the target holds its buffer, self-assignment changes nothing; live buffers and non-null regions stay one to one, and only filling constructions allocate |
| MappedRegions.DestroyAll | include/soc/transport.hpp:74 | destroying every region leaves no allocation, and every buffer ever allocated has been freed |
| MappedRegions.UseAll | include/soc/transport.hpp:58-92 | over any sequence of uses of any number of regions, then destruction: nothing stays allocated, exactly one buffer was freed per filling construction, throwing ones included, none twice, and the device saw exactly their block reads |

## Left out

- Real threads, mutexes and `std::async`: atomic steps instead, with the timeout a nondeterministic choice. A test body is a fixed outcome and a fixed number of counter bumps; nothing but test bodies bumps the counter.
- Sequencers.Sequencer.RunBatch: runs the futures of a batch one after another, because interleavings are the subject of ParallelRuns, whose maximal runs satisfy the same contract.
- Timestamps, durations, CSV output, file and console I/O, and the Python analysis scripts.
- Wrap-around of the 64-bit tick count and of tick count plus latency: both are unbounded here. Addresses do wrap.
- Costs.CostIsQuarters: exact real arithmetic; the rounding of `double` is not modelled, and a clock rate of zero is excluded.
- `MakeTransport`, the JTAG, I2C and SPI subclasses and their constants, transport names and `DeviceHandle`: only numbers and plumbing.
- Parsing of YAML and of bit-range strings, the emitted C++ text, and fields reaching beyond bit 31. A field with `hi < lo`, which `parse_bits` rejects, is not `Valid()`.
- The compile-time absence of setters appears as the precondition that a register is not read-only. Which of `set_` and `clear_` exist for a field is not modelled: the results hold for both on every field.
- Message texts of the exceptions of `Add`, `Levels` and the device: the errors carry the same names, lists and addresses as data.
- The reference to the next transport lives in the `Transport` value rather than in the decorator object, so that a stack is finite and has no cycle.
- `std::sort`, `std::find_if` and container traversal are taken at their specification (`Names.Sorted`, ascending by character); bytes above 127 in names are characters here.
- Allocation failure, and the memory itself: freeing is bookkeeping in `MappedRegions.Allocator`, where freeing a buffer that is not live is a precondition violation.
- The pybind11 bindings, GIL handling, build scripts and benchmarks.
