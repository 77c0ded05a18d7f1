# Verified models of the Rabbits platform

Rabbits simulates a multiprocessor system in SystemC. Its threads are cooperative, so what one of
them does between two waits is one step. This project models seven parts of it, drops the durations
of the waits, lets the steps of all threads interleave in any way, and proves what the parts promise.
Simulated time, the host and the processor emulator are parameters or left out.

- **Energy accounting** (`EnergyModel`, `EnergyAccounting`, `EnergyTrace`, `RollAverage`). A linked
  list of sample windows grows lazily as peripherals change mode, and is read one window at a time.
  `EnergyModel` says what energy is (the cost of the mode in effect, summed over instants) and gives
  the operations on values; `EnergyTrace` has the linked lists, proved against them;
  `EnergyAccounting` proves that each window that is handed out holds exactly its energy.
- **Network on chip** (`AddressMap`, `PoolModel`, `RequestPool`, `RingFifo`, `Network`,
  `NetworkDevices`, `Channels` and the modules about them). `Network` has every queue, every
  dispatcher's hand and every device, and one move per thread step. `Channels` has only the
  transactions under way of each CPU. `NetworkRefinement` proves that the first refines the second;
  `ChannelOrder`, `ChannelRuns`, `MutualExclusion` and `GuardedData` prove order, fences, locks and
  the data that they guard on the second, and `NetworkGuarantees`, `NetworkOrder` and
  `NetworkProgress` carry them to the first, for any number of CPUs, slaves and steps.
  `NetworkLimit` is a run that uses up a pool of requests, and `Semaphores` has runs in which locks are
  taken, refused and passed on.
- **Memory** (`Bytes`, `MemoryLanes`, `FlatMemory`, `WordMemory`, `NetworkMemory`). Byte enables, lanes and
  address maps compose to plain loads and stores, and every run of the network is a run of them.
- **Exclusive monitor** (`ExclusiveMonitor`). The compacting table of load-linked words, against the
  history of calls.
- **Interrupt fan-out** (`Interrupts`, `BitSearch`, `LowestBit`). The status registers and the line of each CPU.
- **Block device** (`BusMemory`, `BlockDevice`, `BlockContents`). The two copy loops between a file and
  memory, and the blocks of the file.
- **Deblocking filter** (`DbfFilter`, `DbfStore`, `DbfLayout`, `DbfSlices`, `DbfPictures`, `DbfChroma`,
  `DbfRegisters`, `DbfRegisterBits`, `DbfDevice`, `DbfTransfer`). The filter arithmetic, the frame store
  in macroblocks, the slices that filter it in place, the registers bit by bit, and the transfer of the
  planes to memory.

Where the source updates objects in place, a class does the same and each method is proved equal to
a function on values; the theorems are about those functions.

## Findings

Where a property does not hold of the code as it is, a lemma or a contract gives the exact condition
and another one an input.

- `roll_average` sums in 64 bits: the mean is right if and only if the sum of the last samples is
  below 2^64 (`RollAverage.MeanIffNoOverflow`); two samples of 2^64 − 1 show it
  (`RollAverage.MeanCanOverflow`).
- The pending-interrupt register reads the status of the whole system. A CPU can read a port that is
  routed to another one (`Interrupts.OtherSourceRead`); it reads its own if and only if the lowest
  pending port is routed to it (`Interrupts.OwnSourceIff`).
- `clear_slice` has no bounds. A slice that reaches macroblock 456 overwrites the interrupt
  registers, and the interrupt then stays raised (`DbfRegisters.ClearCanBreakIrq`, and
  `DbfRegisters.RunCanBreakIrq` from the start); `DbfRegisters.SetDataKeepsIrq` and
  `DbfRegisters.IrqAlwaysOk` say exactly when the invariant is kept, by a write and over a run.
- A block WRITE of no bytes succeeds or fails with the result of the command before
  (`BlockDevice.Device.ExecWrite`): after a READ of no bytes it fails with a file and succeeds without
  one (`BlockDevice.ReadThenWriteNothing`).
- A block command for a place past 2^31 − 1 goes on where the file stands, since the result of lseek is not
  looked at (`BlockContents.WriteOutOfReach`).
- `get_bS` tests the column of a sample for horizontal edges too, so that most samples of a horizontal
  macroblock edge next to an intra macroblock get strength 3 or less instead of 4
  (`DbfPictures.StrongestEdgeIff`, and `DbfPictures.StrongestEdgeMissed` for a line).
- A line takes its strength and thresholds from its own macroblock and the one to the left or above,
  for inner edges too. That one holds the p samples if and only if the line is on a macroblock edge
  (`DbfPictures.NeighbourIff`; `DbfPictures.InnerEdgeNeighbour` is a line where it does not).
- The chroma loops of `filter_slice` count eight lines and two edges four apart in full coordinates,
  which the filter halves. A macroblock's chroma edges are filtered on its first four rows, or columns,
  and no others (`DbfChroma.FilteredRowsIff`, `DbfChroma.FilteredColumnsIff`), each of them twice, and
  the second edge is at 2 instead of 4 (`DbfChroma.EachLineTwice`). No slice
  reaches the last four rows of the last four columns of a macroblock (`DbfChroma.UnreachableStays`);
  `DbfChroma.RowZeroIsSmoothed` and `DbfChroma.RowFourIsSkipped` show a picture.
- The dispatcher decodes the group of eight bytes that an address is in. All accesses of an address are
  plain loads and stores if and only if the map has the address where it has the group
  (`FlatMemory.StoresFlatIff`, `FlatMemory.LoadsFlatIff`, and `FlatMemory.RunsFlatIff` for whole runs).
  If two regions share a group, a store lands in the wrong slave (`FlatMemory.SharedGroup`).
- A CPU that posts writes to at most four slaves never finds its pool of requests empty
  (`NetworkGuarantees.PoolNeverRunsOut`); with five it can (`NetworkLimit.PoolRunsOut`).

## Model

| member | source | states |
|---|---|---|
| EnergyAccounting.EveryRunTilesTheEnergy | rabbits/components/etrace/etrace_if.cpp:79-214 | Main result. Over every run of mode changes and window reads from boot, sample n ends at (n+1)·period and holds, for every peripheral, the sum over the instants of its period of the cost of the mode in effect then (modulo 2^64), with respect to the whole history of changes, later ones included; requests are not stamped before the last window that was read |
| EnergyAccounting.EveryReadIsExact | rabbits/components/etrace/etrace_if.cpp:79-214 | After any run, a read is answered exactly if it asks for the end of the oldest window, and then with the exact energies; otherwise nothing changes |
| EnergyAccounting.ReadIsExact | rabbits/components/etrace/etrace_if.cpp:138-175 | The same for one read of any state whose books are right, and the books stay right |
| EnergyAccounting.ChangeKeepsAccounts | rabbits/components/etrace/etrace_if.cpp:177-214 | A request, accepted or not, leaves every window exact for every peripheral: each entry is the energy of its window up to the last change |
| EnergyAccounting.ChargeIsPointwise | rabbits/components/etrace/etrace_if.cpp:79-136 | The recursion extends the list far enough, charges each window exactly its overlap with the stretch that ends, once, and leaves the windows after the change alone |
| EnergyAccounting.SettleCompletes | rabbits/components/etrace/etrace_if.cpp:150-169 | The unsigned test in get_sample adds exactly the energy from the last change to the end of the window, also when the last change is after the window or on its edge |
| EnergyAccounting.SettleAllAt | rabbits/components/etrace/etrace_if.cpp:149-169 | The loop over the peripherals settles each one once and in its own slot |
| EnergyAccounting.RejectedAltersNothing | rabbits/components/etrace/etrace_if.cpp:182-204 | A request is rejected if and only if its mode or FV set does not exist or its stamp is before the last accepted one, and then nothing at all changes |
| EnergyModel.PackedIsDecoded | rabbits/components/etrace/etrace_if.h:30 | Decoding a change word made of a mode below 32 and an FV set below 8, as the macro packs them, gives the two back, whatever the bits above hold |
| EnergyModel.DecodedIsPacked | rabbits/components/etrace/etrace_if.cpp:182-183 | and every word is the packing of what is decoded from it, up to the bits above |
| EnergyAccounting.PackedIsSelected | rabbits/components/etrace/etrace_if.cpp:177-214 | A request for such a word selects exactly that mode and that FV set, in the history and in the registers, if both exist and the stamp is not before the last change; otherwise it changes nothing |
| EnergyAccounting.PackedIsCharged | rabbits/components/etrace/etrace_if.cpp:86-88 | From then on, up to any later instant before the next change, the energy is the time times the cost that the table has for this mode and this FV set |
| EnergyModel.IndexGoesOn | rabbits/components/etrace/etrace_if.cpp:86-88 | The places of the costs count up from 0 mode by mode, and the row of an FV set begins right behind the row of the one before |
| EnergyModel.ShapedStamps | rabbits/components/etrace/etrace_if.cpp:50-70 | Window k of the list ends at base + (k+1)·period |
| EnergyModel.Charge | rabbits/components/etrace/etrace_if.cpp:79-128 | The recursion (terminating on time − last_time) keeps the windows consecutive from base on |
| EnergyModel.ModeChange | rabbits/components/etrace/etrace_if.cpp:177-214 | A change keeps the state valid: consecutive windows, existing modes, distinct slots |
| EnergyModel.ReadSample | rabbits/components/etrace/etrace_if.cpp:138-175 | A read keeps the state valid |
| EnergyTrace.Sample.constructor | rabbits/components/etrace/etrace_if.cpp:50-70 | A new sample is the fresh window after the previous stamp |
| EnergyTrace.Sample.ChargeHere | rabbits/components/etrace/etrace_if.cpp:98-119 | One round of the update changes one entry of one sample, to the one that the pure form gives |
| EnergyTrace.Sample.SettleHere | rabbits/components/etrace/etrace_if.cpp:151-168 | One round of the loop of get_sample is the pure settlement of one peripheral |
| EnergyTrace.UpdateFrom | rabbits/components/etrace/etrace_if.cpp:79-128 | The recursive update of the linked list is Charge on its windows; the new list has old and fresh nodes only and no cycle |
| EnergyTrace.UpdateSample | rabbits/components/etrace/etrace_if.cpp:98-124 | The same from an existing sample on |
| EnergyTrace.LinkIn | rabbits/components/etrace/etrace_if.cpp:446-451 | A peripheral is linked in behind all of the same or a smaller group and before all others, so that the list stays sorted by group |
| EnergyTrace.Scope.AddPeriph | rabbits/components/etrace/etrace_if.cpp:431-454 | Negative groups get the next new number; all other peripherals keep their registers and their order |
| EnergyTrace.Scope.AssignSlots | rabbits/components/etrace/etrace_if.cpp:282-300 | The nested loops number the peripherals of the list 0, 1, 2, … without gap or repetition |
| EnergyTrace.Scope.SlotsAreValid | rabbits/components/etrace/etrace_if.cpp:282-300 | With at most twenty peripherals this numbering makes the state valid |
| EnergyTrace.Scope.UpdateSamples | rabbits/components/etrace/etrace_if.cpp:130-136 | update_samples on the list is Charge |
| EnergyTrace.Scope.RequestMode | rabbits/components/etrace/etrace_if.cpp:177-214 | etrace_if_mode_change on the lists is ModeChange, in the whole state |
| EnergyTrace.Scope.GetSample | rabbits/components/etrace/etrace_if.cpp:138-175 | get_sample on the lists is ReadSample, in the whole state and in the sample that is handed out, which is in no list any more |
| RollAverage.Averager.Roll | rabbits/components/etrace/etrace_if.cpp:456-483 | The n-th call returns the floor of the sum, in 64 bits, of the last min(n, 10) samples over their number; a slot that was never written has no influence |
| RollAverage.MeanIffNoOverflow | rabbits/components/etrace/etrace_if.cpp:463-474 | That is the true mean of the last samples if and only if their sum is below 2^64 |
| RollAverage.MeanCanOverflow | rabbits/components/etrace/etrace_if.cpp:463-474 | Two samples of 2^64 − 1 average to 2^63 − 1 |
| RollAverage.SlotsAreRecent | rabbits/components/etrace/etrace_if.cpp:463-474 | The slots that are summed are the last samples, rotated |
| RollAverage.MeanIsFloor | rabbits/components/etrace/etrace_if.cpp:463-474 | The mean is the sum over the number, rounded down |
| AddressMap.LinearInvertsDecode | rabbits/components/abstract_noc/interconnect_master.h:57-75 | get_liniar_address of the dispatched slave and offset gives the address back, with 32-bit wrap-around, if the windows of each slave are disjoint |
| AddressMap.DecodeInvertsLinear | rabbits/components/abstract_noc/interconnect_master.cpp:102-124 | Dispatching the result of get_liniar_address gives the slave and the offset back, if the address ranges are disjoint |
| AddressMap.Dispatch | rabbits/components/abstract_noc/interconnect_master.cpp:102-124 | The search loop finds the first region that contains the address, or stops if none does |
| AddressMap.GetLinearAddress | rabbits/components/abstract_noc/interconnect_master.h:57-75 | The search loop finds the first region of the slave whose translated address lies inside it |
| AddressMap.LocateIsDecode | rabbits/components/abstract_noc/interconnect_master.cpp:102-124 | The offset of a request, which is the decoded group plus the lane, is what the map has for the address itself if and only if the map has the address behind its group in the same slave |
| AddressMap.RegionIsShifted | rabbits/components/abstract_noc/interconnect_master.cpp:102-124 | Two addresses of one region are as far apart at the slave as at the CPU, modulo 2^32, and the begin of the region is at its offset in the slave |
| AddressMap.RegionsMeet | rabbits/components/abstract_noc/interconnect_master.cpp:107-113 | Where one region ends and the next begins, each address is in exactly one of them |
| RequestPool.Requests.constructor | rabbits/components/qemu_wrapper/qemu_wrapper_request.cpp:34-45 | The free list holds count requests with tids 1, 2, … |
| RequestPool.Requests.GetNewRequest | rabbits/components/qemu_wrapper/qemu_wrapper_request.cpp:65-86 | The first free node becomes the first busy one, cleared; without a free node nothing changes |
| RequestPool.Requests.GetRequestByTid | rabbits/components/qemu_wrapper/qemu_wrapper_request.cpp:88-96 | The first busy node with that tid |
| RequestPool.Requests.FreeRequest | rabbits/components/qemu_wrapper/qemu_wrapper_request.cpp:98-116 | A busy node is cut out of its list and put first on the free list, the order of the others kept; any other node changes nothing |
| RequestPool.Requests.RcvRsp | rabbits/components/qemu_wrapper/qemu_cpu_wrapper.cpp:543-568 | rcv_rsp on the lists is Receive: a posted write frees its request, any other answer is kept with its data, an unknown tid changes nothing |
| PoolModel.InitialIsSound | rabbits/components/qemu_wrapper/qemu_wrapper_request.cpp:34-45 | At first every tid is free once |
| PoolModel.GetNewKeepsSound | rabbits/components/qemu_wrapper/qemu_wrapper_request.cpp:65-86 | Every request stays on exactly one of the two lists |
| PoolModel.FreeKeepsSound | rabbits/components/qemu_wrapper/qemu_wrapper_request.cpp:98-116 | The same for the return of a request |
| PoolModel.FindIs | rabbits/components/qemu_wrapper/qemu_wrapper_request.cpp:88-96 | A busy request is found by its own tid |
| PoolModel.FreedIsNext | rabbits/components/qemu_wrapper/qemu_wrapper_request.cpp:65-116 | A freed request is the next one that is given out, cleared, and the others stay; freeing a request that has just been given out restores the pool |
| RingFifo.RingIsEmpty | rabbits/components/abstract_noc/mwsr_ta_fifo.cpp:75-79 | The ring is empty if and only if the indices agree |
| RingFifo.RingIsFull | rabbits/components/abstract_noc/mwsr_ta_fifo.cpp:81-85 | It holds size entries if and only if the write index is just before the read index, and never more |
| RingFifo.RingRead | rabbits/components/abstract_noc/mwsr_ta_fifo.cpp:38-52 | Moving the read index takes the oldest entry |
| RingFifo.RingWrite | rabbits/components/abstract_noc/mwsr_ta_fifo.cpp:54-66 | Storing and moving the write index appends an entry |
| RingFifo.Fifo.constructor | rabbits/components/abstract_noc/mwsr_ta_fifo.cpp:22-29 | A queue of a given size starts empty, with one slot more than its size |
| RingFifo.Fifo.Read | rabbits/components/abstract_noc/mwsr_ta_fifo.cpp:38-52 | Takes the oldest entry and keeps the others in order |
| RingFifo.Fifo.Write | rabbits/components/abstract_noc/mwsr_ta_fifo.cpp:54-66 | Appends an entry and keeps the others |
| RingFifo.Fifo.IsEmpty | rabbits/components/abstract_noc/mwsr_ta_fifo.cpp:75-79 | Tells whether no entry is in the queue |
| RingFifo.Fifo.IsFull | rabbits/components/abstract_noc/mwsr_ta_fifo.cpp:81-85 | Tells whether the queue holds size entries |
| RingFifo.Fifo.Reset | rabbits/components/abstract_noc/mwsr_ta_fifo.cpp:68-73 | Empties the queue |
| NetworkRefinement.NetworkRefinesChannels | rabbits/components/abstract_noc/interconnect_master.cpp:78-128 | Main result. Every run of the network of queues, hands and threads has a run of an abstract channel machine with the same CPUs and answers, the same memories, the same transactions in the same order between any CPU and slave, and the same order of service |
| NetworkRefinement.Simulate | rabbits/components/abstract_noc/interconnect_master.cpp:89-128 | One move of one thread is at most one step of the channel machine |
| NetworkRefinement.WorkIsFirst | rabbits/components/slave_device/slave_device.cpp:36-84 | The request that a slave works on is the oldest unserved one of its master there |
| NetworkRefinement.ArrivalIsFirst | rabbits/components/abstract_noc/interconnect_slave.cpp:57-78 | The response that arrives next belongs to the oldest transaction of its master and slave |
| NetworkRefinement.NothingIsDropped | rabbits/components/slave_device/slave_device.cpp:55-61 | The branch that drops a request while another is processed is never taken |
| Network.MoveKeepsOk | rabbits/components/slave_device/slave_device.cpp:36-98 | Every move keeps: queues hold at most 8, requests wait where their address decodes to, responses travel to their own master, the flag is set exactly while a request is processed |
| NetworkProgress.NoDeadlock | rabbits/components/abstract_noc/mwsr_ta_fifo.cpp:38-66 | In every reachable state that is not quiet some thread can go on without a new request, though threads wait for full and empty queues |
| NetworkProgress.MoveDecreases | rabbits/components/abstract_noc/mwsr_ta_fifo.cpp:38-66 | Every move but a new request lowers the number of moves that remain |
| NetworkProgress.EveryRunDrains | rabbits/components/slave_device/slave_device.cpp:36-98 | From every reachable state every run without new requests is bounded, and where it can go no further all queues are empty, nobody waits and every request of the pools is free |
| NetworkGuarantees.ResponseMeetsRequest | rabbits/components/qemu_wrapper/qemu_cpu_wrapper.cpp:543-555 | In every reachable network the response that is delivered is the master's own and finds its request busy and not done: the branches for a wrong source and an unknown tid are never taken |
| NetworkGuarantees.ExactlyTheAwaited | rabbits/components/qemu_wrapper/qemu_cpu_wrapper.cpp:543-639 | In every reachable network the tids of a CPU's busy requests that are not done are exactly those of the messages in the queues, hands and devices between it and the slaves |
| NetworkGuarantees.NoTidTwice | rabbits/components/qemu_wrapper/qemu_wrapper_request.cpp:65-116 | No two messages of a CPU under way have the same tid, though tids are used again |
| NetworkGuarantees.FenceOverNetwork | rabbits/components/qemu_wrapper/qemu_wrapper_request.cpp:65-68 | When a read, an I/O write, or any access of a CPU whose writes block, leaves the CPU, none of its messages is anywhere in the network, and all it issued before has been applied at its slaves |
| NetworkGuarantees.LocksExclude | rabbits/components/sem/sem_device.cpp:180-187 | Mutual exclusion over the network: two CPUs that keep the lock discipline never hold a semaphore word together, and while one does the word in the device is not 0 |
| NetworkGuarantees.PoolNeverRunsOut | rabbits/components/qemu_wrapper/qemu_wrapper_request.cpp:70-76 | If all posted writes of a CPU go to the slaves ts, it has at most 19 + 18·|ts| busy requests when it is about to issue (37 for one slave), so with at most four such slaves the exit for an empty pool of 100 is never taken |
| NetworkLimit.PoolRunsOut | rabbits/components/qemu_wrapper/qemu_wrapper_request.cpp:70-76 | With five slaves it can be: a run after which a CPU that posts to five memories is about to issue and has no free request |
| NetworkLimit.FillSlave | rabbits/components/abstract_noc/interconnect_slave.cpp:57-78 | Eighteen posted writes fill everything between a CPU and a slave but the queues of the master |
| NetworkOrder.GuardedRead | rabbits/components/sem/sem_device.cpp:96-187 | Main result, over the network. If a word of memory is written only by holders of a lock, and the lock is released by writes that wait, a holder that reads the word is given the data of the write that was started last, by any CPU: no write is late and none comes in between |
| NetworkOrder.TokensOverNetwork | rabbits/components/sem/sem_device.cpp:96-187 | In every reachable state of the network the holders of a semaphore word, the granting responses and the unapplied releases in all queues, hands and devices are together 1 if the word in the device is not 0, and 0 if it is |
| NetworkOrder.PerformedOnce | rabbits/components/qemu_wrapper/qemu_cpu_wrapper.cpp:570-639 | Every request that a CPU has issued is on its way in the network if and only if no device has performed it, and no device performs it twice |
| NetworkOrder.AnswersOverNetwork | rabbits/components/qemu_wrapper/qemu_cpu_wrapper.cpp:570-639 | Every answer that a CPU has been given was made by a device and is what the transactions performed before make of the memory, and program order is respected across fences, answers and within one slave |
| NetworkOrder.SequentialOverNetwork | rabbits/components/qemu_wrapper/qemu_cpu_wrapper.cpp:570-639 | Two transactions of one CPU that are ordered are performed in program order |
| NetworkOrder.OwnWriteOverNetwork | rabbits/components/qemu_wrapper/qemu_cpu_wrapper.cpp:577-600 | A read of memory returns the data of the CPU's own last write to the word, unless a device has performed another write to it in between |
| NetworkOrder.CriticalSectionOverNetwork | rabbits/components/sem/sem_device.cpp:96-187 | What a CPU wrote before its release was performed before the release, and a read that the next holder issues after its grant returns it, unless the word has been written in between |
| Semaphores.LockIsPassedOn | rabbits/components/sem/sem_device.cpp:96-187 | Main result: locks are granted. From the start of every network there is a disciplined run in which one CPU takes a lock, a second one is refused it, the first releases it and the second takes it, with everything beside unchanged |
| Semaphores.AccessAlone | rabbits/components/slave_device/slave_device.cpp:36-98 | An access whose way is free, in any state of the network, can go through all queues, dispatchers and threads and back, and ends with what its device makes of it: the word, the answer, the histories and the pool of the CPU, and nothing left on the way |
| Semaphores.ReadLock | rabbits/components/sem/sem_device.cpp:180-186 | Such a read of a semaphore word makes its CPU a holder and is answered by 0 if and only if the word was free, and leaves the word taken |
| Semaphores.FreeLock | rabbits/components/sem/sem_device.cpp:96-114 | and such a write of 0 by a holder, posted or not, frees it |
| Semaphores.SemaphoreRead | rabbits/components/sem/sem_device.cpp:180-186 | A read is answered by 0 if and only if the word is 0, which is 1 afterwards; any other word stays |
| Semaphores.SemaphoreWrite | rabbits/components/sem/sem_device.cpp:96-114 | A write leaves 0 if and only if its data is 0; a later read answers the data of a write, and 1 for 2; all other words stay |
| Semaphores.MemoryKeeps | rabbits/components/mem/mem_device.cpp:30-190 | A memory answers a read with the data of the last write to the word, and a write changes no other word |
| Semaphores.PerformGrants | rabbits/components/sem/sem_device.cpp:180-186 | When a device of the network performs a read of a semaphore word, its answer grants the lock if and only if the word was free, and the word is taken |
| Semaphores.ContinueHolds | rabbits/components/qemu_wrapper/qemu_cpu_wrapper.cpp:577-600 | A CPU that goes on with an answer holds the word afterwards if and only if it held it before or the answer grants it |
| GuardedData.StepKeepsData | rabbits/components/sem/sem_device.cpp:96-187 | Every step keeps: only a holder has writes of a guarded word under way, the youngest has the data of the last write, memory has it once none is under way, and so have the answers to holders on their way |
| GuardedData.HolderIsAnswered | rabbits/components/qemu_wrapper/qemu_cpu_wrapper.cpp:577-600 | In such a state a holder that goes on with a read is given the data of the last write |
| NetworkDevices.MasterInterface.constructor | rabbits/components/abstract_noc/interconnect_master.cpp:59-62 | The interface starts with two empty queues of eight entries |
| NetworkDevices.MasterInterface.Put | rabbits/components/abstract_noc/interconnect_master.cpp:78-81 | put on the rings is the move Put |
| NetworkDevices.MasterInterface.FetchRequest | rabbits/components/abstract_noc/interconnect_master.cpp:96-98 | The dispatcher takes the oldest request into its hand |
| NetworkDevices.MasterInterface.AddResponse | rabbits/components/abstract_noc/interconnect_master.h:52-55 | A response joins the queue behind the others |
| NetworkDevices.MasterInterface.Get | rabbits/components/abstract_noc/interconnect_master.cpp:84-87 | get takes the oldest response |
| NetworkDevices.SlaveInterface.constructor | rabbits/components/abstract_noc/interconnect_slave.cpp:29-32 | The interface and its device start empty and idle |
| NetworkDevices.SlaveInterface.Accept | rabbits/components/slave_device/slave_device.cpp:43-61 | request_thread on the rings is the move Accept, the drop branch included |
| NetworkDevices.SlaveInterface.Perform | rabbits/components/sem/sem_device.cpp:129-197 | The access of the device is the move Perform |
| NetworkDevices.SlaveInterface.SendRsp | rabbits/components/slave_device/slave_device.cpp:87-98 | send_rsp is the move Answer: the response joins the queue and the flag is cleared |
| NetworkDevices.SlaveInterface.AddRequest | rabbits/components/abstract_noc/interconnect_master.cpp:122-126 | A request joins the queue of the slave behind the others |
| NetworkDevices.SlaveInterface.FetchResponse | rabbits/components/abstract_noc/interconnect_slave.cpp:64-64 | The dispatcher takes the oldest response into its hand |
| NetworkDevices.DispatchRequest | rabbits/components/abstract_noc/interconnect_master.cpp:102-126 | Between two interfaces, the second half of the dispatcher is the move Dispatch, with the address translated |
| NetworkDevices.DispatchResponse | rabbits/components/abstract_noc/interconnect_slave.cpp:68-76 | Between two interfaces, the second half of the response dispatcher is the move Return |
| ChannelRuns.EveryTransactionOnce | rabbits/components/qemu_wrapper/qemu_cpu_wrapper.cpp:570-639 | In every reachable state each request that was ever issued is either under way unserved or served at exactly one place of the order of service |
| ChannelRuns.EveryResponseFindsItsRequest | rabbits/components/qemu_wrapper/qemu_cpu_wrapper.cpp:549-555 | The busy requests of a CPU are its transactions under way, newest first, all with different tids, and each response finds its own |
| ChannelRuns.Fence | rabbits/components/qemu_wrapper/qemu_wrapper_request.cpp:65-68 | When a read or an I/O write leaves a CPU with unblocking writes, everything that it issued before has been served |
| ChannelRuns.ServiceOrder | rabbits/components/qemu_wrapper/qemu_cpu_wrapper.cpp:570-639 | The order of service respects each CPU's program order across fences, across answers and within one slave, and every answer is what the transactions served before it make of the memory |
| ChannelRuns.Sequential | rabbits/components/qemu_wrapper/qemu_cpu_wrapper.cpp:570-639 | Two served transactions of one CPU that are ordered are served in program order |
| ChannelRuns.ReadSeesOwnWrite | rabbits/components/qemu_wrapper/qemu_cpu_wrapper.cpp:577-600 | On the channel machine, a read of memory returns the data of the CPU's own last write to the word, unless another write to the word was served in between |
| ChannelRuns.CriticalSectionIsSeen | rabbits/components/sem/sem_device.cpp:180-187 | On the channel machine, what a CPU wrote before its release is seen by the reads that the next holder issues after its grant, unless the word has been written in between |
| ChannelRuns.StepKeepsOk | rabbits/components/qemu_wrapper/qemu_cpu_wrapper.cpp:543-639 | Every step keeps the pool, order and memory invariants of all CPUs |
| ChannelOrder.ReceiveFinds | rabbits/components/qemu_wrapper/qemu_cpu_wrapper.cpp:543-555 | The response of the i-th transaction under way finds the entry of that transaction in the pool |
| MutualExclusion.TokensCount | rabbits/components/sem/sem_device.cpp:180-187 | On the channel machine, the holders, granting responses and unapplied releases of a semaphore word are together 1 if the word is not 0 and 0 if it is |
| MutualExclusion.NeverTwoHolders | rabbits/components/sem/sem_device.cpp:96-118 | Two CPUs never hold a word together, and while one does the word is taken and no grant or release of it is under way |
| MutualExclusion.StepKeepsLocks | rabbits/components/sem/sem_device.cpp:96-118 | Every step of CPUs that write nothing but 0, and only to a semaphore they hold, keeps that count |
| MutualExclusion.ServeTokens | rabbits/components/sem/sem_device.cpp:180-187 | Serving a read of a free word makes the word taken and one token; serving a release removes both |
| FlatMemory.EveryRunIsFlat | rabbits/components/master_device/master_device.cpp:66-120 | Any interleaving of naturally aligned 1, 2 and 4-byte loads and stores by any masters, through maps, lanes and devices, is the run of plain loads and stores on flat byte memories at the translated addresses, with the same answers, if the map has each address where it has its group |
| FlatMemory.RunsFlatIff | rabbits/components/master_device/master_device.cpp:66-120 | Main result. For given maps, all runs of all accesses on all memories are plain ones if and only if the maps have every address that the dispatchers take where they have its group |
| FlatMemory.StoresFlatIff | rabbits/components/abstract_noc/interconnect_master.cpp:102-124 | All stores of a width to an address, on all memories, are plain ones if and only if the map has the address where it has its group |
| FlatMemory.LoadsFlatIff | rabbits/components/abstract_noc/interconnect_master.cpp:102-124 | The same for loads |
| FlatMemory.Misrouted | rabbits/components/abstract_noc/interconnect_master.cpp:102-124 | For every address elsewhere than its group, memories on which a store goes wrong |
| FlatMemory.Misread | rabbits/components/abstract_noc/interconnect_master.cpp:102-124 | For every such address, memories on which a load goes wrong |
| FlatMemory.WholeGroupsAreFlat | rabbits/components/abstract_noc/interconnect_master.cpp:102-124 | With maps of whole groups every run is plain |
| WordMemory.LanesServeTheNetwork | rabbits/components/master_device/master_device.cpp:66-120 | Main result. In every run of the network, a memory slave of words could as well be a memory device of bytes with lanes: it holds the same words at the end and has answered every request with the same word |
| WordMemory.ByLanesIsAccess | rabbits/components/mem/mem_device.cpp:53-225 | The same for one request |
| WordMemory.RequestsHaveGroups | rabbits/components/abstract_noc/interconnect_master.cpp:102-124 | Every request that a device of the network performs is for an aligned word inside a group |
| NetworkMemory.NetworkIsFlat | rabbits/components/master_device/master_device.cpp:99-129 | Main result. Every run of the network is a run of plain loads and stores on flat byte memories at the addresses that the maps give, in the order of service: the same answers and the same bytes at the end, where the maps have each address that a memory is asked for behind its group |
| NetworkMemory.NetworkIsThrough | rabbits/components/master_device/master_device.cpp:99-129 | The same without that condition, for loads and stores through the maps, groups and byte lanes |
| NetworkMemory.RequestIsThrough | rabbits/components/master_device/master_device.cpp:99-129 | The access that a device performs for a request is the one that the address of the request leads to: the same device, the same lanes, the same answer |
| WordMemory.LowestFirst | rabbits/components/mem/mem_device.cpp:77-93 | The words of the network are little-endian in memory |
| FlatMemory.OneAccess | rabbits/components/mem/mem_device.cpp:53-225 | One access is the plain one if the map has the address where it has its group |
| FlatMemory.GroupDecodes | rabbits/components/abstract_noc/interconnect_master.cpp:102-124 | With regions of whole groups, the map has every address where it has its group |
| FlatMemory.SharedGroup | rabbits/components/abstract_noc/interconnect_master.cpp:102-124 | Two regions that share a group, and a word stored in the second one that lands in the slave of the first one |
| MemoryLanes.StoreIsFlat | rabbits/components/mem/mem_device.cpp:113-131 | The shifted mask and lanes of a store change exactly the bytes of the access |
| MemoryLanes.LoadIsFlat | rabbits/components/mem/mem_device.cpp:172-210 | The lanes that response_thread extracts from a load are the bytes of the memory, whatever the other lanes of the response held |
| MemoryLanes.MaskIsAligned | rabbits/components/mem/mem_device.cpp:172-193 | The mask of every natural access is in the table of the memory device |
| MemoryLanes.AlignedIsRun | rabbits/components/mem/mem_device.cpp:67-87 | Every mask in the table enables exactly the lanes of its unit |
| MemoryLanes.RunIsRegular | rabbits/components/mem/mem_device.cpp:106-109 | A stretch of 1, 2, 4 or 8 lanes is not reported |
| MemoryLanes.RegularIff | rabbits/components/mem/mem_device.cpp:95-130 | A write is unreported if and only if its enabled lanes are one stretch of 1, 2, 4 or 8 |
| MemoryLanes.Write | rabbits/components/mem/mem_device.cpp:53-144 | write, all branches: which bytes change and exactly when the access is reported, wherever the enabled lanes lie in the memory |
| MemoryLanes.WriteStretch | rabbits/components/mem/mem_device.cpp:89-110 | The default branch copies the first stretch of enabled lanes and reports if there is another or its width is odd |
| MemoryLanes.Read | rabbits/components/mem/mem_device.cpp:163-225 | read of one group: the lanes that it fills, and exactly when it answers with an error, wherever the enabled lanes lie in the memory |
| MemoryLanes.SendReq | rabbits/components/master_device/master_device.cpp:96-117 | The group address, the mask and the lanes of a request |
| MemoryLanes.FindLanes | rabbits/components/master_device/master_device.cpp:66-83 | The first enabled lane and the length of its stretch |
| ExclusiveMonitor.TestIsExact | platforms/roger/main.cpp:271-290 | Main result. After any history of calls a test by a CPU succeeds if and only if that CPU marked the same word and no test of the word by any CPU has succeeded, and nobody has cleared it, since |
| ExclusiveMonitor.SameWordIff | platforms/roger/main.cpp:245-275 | Two addresses have the same word if and only if they agree but for their last two bits, and a word is named by its first byte |
| ExclusiveMonitor.TableHoldsReservations | platforms/roger/main.cpp:240-307 | At every point of every history the table holds exactly the reservations, and its words are distinct |
| ExclusiveMonitor.MarkReserves | platforms/roger/main.cpp:240-260 | A mark adds one CPU to one word and leaves the others |
| ExclusiveMonitor.DeleteKeepsOthers | platforms/roger/main.cpp:262-269 | delete_entry leaves every other reservation intact |
| ExclusiveMonitor.ClearReserves | platforms/roger/main.cpp:292-307 | A clear removes the reservations of one word and no other |
| ExclusiveMonitor.TableSuffices | platforms/roger/main.cpp:256-259 | If at most 100 different words are ever marked, no mark writes past the table |
| ExclusiveMonitor.MarkFitsIff | platforms/roger/main.cpp:256-259 | A mark stays inside the table if and only if fewer than 100 words have a live reservation or the marked word has one |
| ExclusiveMonitor.TableIsLive | platforms/roger/main.cpp:240-307 | The words of the table are exactly those that have a live reservation in the history, each once |
| ExclusiveMonitor.Monitor.Search | platforms/roger/main.cpp:247-254 | The place of a word in the array, or its end |
| ExclusiveMonitor.Monitor.MarkExclusive | platforms/roger/main.cpp:240-260 | On the array, the pure mark |
| ExclusiveMonitor.Monitor.DeleteEntry | platforms/roger/main.cpp:262-269 | The shifting loop removes one entry of the array and keeps the order of the others |
| ExclusiveMonitor.Monitor.TestExclusive | platforms/roger/main.cpp:271-290 | On the array, the pure test, and its answer |
| ExclusiveMonitor.Monitor.ClearExclusive | platforms/roger/main.cpp:292-307 | On the array, the pure clear |
| Interrupts.FanOut.PortsChange | rabbits/components/qemu_wrapper/qemu_wrapper.cpp:285-351 | After any simultaneous change of any ports, for every CPU: raw is the high ports routed to it, status is raw and enable, and the line is high if and only if status or swi is not empty |
| Interrupts.FanOut.ScanPorts | rabbits/components/qemu_wrapper/qemu_wrapper.cpp:293-334 | The pass over the ports brings all registers to the new levels and notes a rise or a fall for each CPU whenever its status was, or has become, empty |
| Interrupts.FanOut.Raise | rabbits/components/qemu_wrapper/qemu_wrapper.cpp:296-313 | What a rising port does to the registers of every CPU |
| Interrupts.FanOut.Lower | rabbits/components/qemu_wrapper/qemu_wrapper.cpp:315-331 | What a falling port does to the registers of every CPU |
| Interrupts.PortFollows | rabbits/components/qemu_wrapper/qemu_wrapper.cpp:294-334 | Port by port, the registers of a CPU follow the levels and the noted rises and falls stay sufficient to set its line |
| Interrupts.FanOut.GenerateSwi | rabbits/components/qemu_wrapper/qemu_wrapper.cpp:376-391 | The swi words and lines after a software interrupt; the invariant holds afterwards if and only if a bit was passed or all the lines were high already |
| Interrupts.FanOut.SendSwi | rabbits/components/qemu_wrapper/qemu_cpu_wrapper.cpp:476-485 | The only call of generate_swi in the program passes a bit and keeps the invariant |
| Interrupts.FanOut.SwiAck | rabbits/components/qemu_wrapper/qemu_wrapper.cpp:393-403 | Removes the bits of one CPU and keeps the invariant |
| Interrupts.FanOut.SetIntEnable | rabbits/components/qemu_wrapper/qemu_wrapper.cpp:435-452 | Changes the enabled ports and keeps the invariant |
| Interrupts.MaxIntPending | rabbits/components/qemu_wrapper/qemu_cpu_wrapper.cpp:312-337 | On 32 bits, the register reads the weight of the lowest software interrupt, else 32 plus the lowest pending port, else 1023 |
| Interrupts.HighLineReadsASource | rabbits/components/qemu_wrapper/qemu_cpu_wrapper.cpp:320-336 | A CPU whose line is high without a software interrupt never reads 1023 but the lowest port that is high and enabled |
| Interrupts.StatusIs | rabbits/components/qemu_wrapper/qemu_wrapper.cpp:425-428 | In every valid state a port is in the status register if and only if it is high and enabled |
| Interrupts.ReadMaxIntPending | rabbits/components/qemu_wrapper/qemu_cpu_wrapper.cpp:312-337 | What a CPU reads in a valid state: the weight of its least software interrupt; else 32 plus the least port that is high and enabled, which is its own least pending port if and only if it is routed to it; else 1023, if and only if no port is high and enabled; and never 1023 with its line high |
| Interrupts.OwnSourceIff | rabbits/components/qemu_wrapper/qemu_wrapper.cpp:425-428 | The lowest pending port of the whole system, which is what is read, is the CPU's own lowest one if and only if it is routed to that CPU |
| Interrupts.OtherSourceRead | rabbits/components/qemu_wrapper/qemu_wrapper.cpp:425-428 | A routing in which a CPU reads a port that is not its own |
| Interrupts.LowestIsLeast | rabbits/components/qemu_wrapper/qemu_cpu_wrapper.cpp:327-334 | The place of the lowest one bit is the least of the pending ports |
| LowestBit.LowestWeightIs | rabbits/components/qemu_wrapper/qemu_cpu_wrapper.cpp:327-334 | On 32 bits, val & −val is the register with just the lowest one bit, and the shifts to the right until nothing is left are one more than its place |
| LowestBit.CountDigits | rabbits/components/qemu_wrapper/qemu_cpu_wrapper.cpp:329-333 | The loop counts these shifts |
| LowestBit.BitIsMasked | rabbits/components/qemu_wrapper/qemu_cpu_wrapper.cpp:315-318 | Bit k of a register is set if and only if the mask with that one bit meets it |
| BitSearch.FindBit | rabbits/components/qemu_wrapper/qemu_cpu_wrapper.cpp:315-318 | The loop that shifts a bit to the left until it meets one of the register ends with swi & −swi |
| BlockDevice.WriteThenRead | rabbits/components/sl_blockdevice/sl_block_device.cpp:148-250 | Main result. A WRITE followed by a READ of the same blocks, with anything happening to memory in between, puts exactly the written bytes back, changes nothing else in memory and leaves the count as it was |
| BlockDevice.ReadThenWriteNothing | rabbits/components/sl_blockdevice/sl_block_device.cpp:148-231 | After a READ of no blocks a WRITE of no blocks fails if there is a file and succeeds if there is none |
| BlockDevice.RoundTrip | rabbits/components/sl_blockdevice/sl_block_device.cpp:148-250 | The same for any file, place, address and number of bytes, tail bytes included |
| BlockDevice.ReadBack | rabbits/components/sl_blockdevice/sl_block_device.cpp:156-158 | Bytes that the file receives are read back |
| BlockContents.WriteBlocks | rabbits/components/sl_blockdevice/sl_block_device.cpp:210-250 | After a WRITE block lba + j of the file is block j of memory, for all blocks of the transfer, and every other block has what it had |
| BlockContents.ReadBlocks | rabbits/components/sl_blockdevice/sl_block_device.cpp:148-209 | After a READ block j of memory is block lba + j of the file, which has not changed |
| BlockContents.WrittenBlockwise | rabbits/components/sl_blockdevice/sl_block_device.cpp:233-235 | The same for one write of the host at lba times the block size, which may leave a gap behind the old end |
| BlockContents.ReadBlockwise | rabbits/components/sl_blockdevice/sl_block_device.cpp:156-158 | and for one read, also where the file ends inside the transfer |
| BlockContents.BytesAfterWrite | rabbits/components/sl_blockdevice/sl_block_device.cpp:233-235 | Each byte of the file after a write, and its length: written, as before, or zero in a gap |
| BlockContents.WriteOutOfReach | rabbits/components/sl_blockdevice/sl_block_device.cpp:233-235 | A WRITE to a place past 2^31 − 1 succeeds and puts its bytes where the file stands, since the result of lseek is not looked at |
| BlockContents.WholeBlocks | rabbits/components/sl_blockdevice/sl_block_device.cpp:168 | The count after a READ is the number of whole blocks |
| BlockDevice.Device.ExecRead | rabbits/components/sl_blockdevice/sl_block_device.cpp:148-209 | READ changes only the bytes that the file had, up to the first bus error; count becomes bytes / block size; the error cases and the interrupt |
| BlockDevice.Device.ExecWrite | rabbits/components/sl_blockdevice/sl_block_device.cpp:210-250 | WRITE stores all bytes or nothing; for no bytes it succeeds if and only if the command before left a result that is not 0; the size register, the file position and the interrupt afterwards |
| BlockDevice.Device.SendToMemory | rabbits/components/sl_blockdevice/sl_block_device.cpp:171-186 | The word loop and the byte loop together send everything up to the first address that is not memory |
| BlockDevice.Device.SendWords | rabbits/components/sl_blockdevice/sl_block_device.cpp:174-180 | The word loop stops at the last whole word or at an error |
| BlockDevice.Device.SendBytes | rabbits/components/sl_blockdevice/sl_block_device.cpp:181-186 | The byte loop goes on from there |
| BlockDevice.Device.ReadFromMemory | rabbits/components/sl_blockdevice/sl_block_device.cpp:218-231 | The loop reads whole words, up to three bytes past the data, and tells whether all of them were memory |
| BlockDevice.Device.CmdWrite | rabbits/components/sl_blockdevice/sl_block_device.cpp:329-342 | Up to four bytes reach memory, or an error is answered |
| BlockDevice.Device.CmdRead | rabbits/components/sl_blockdevice/sl_block_device.cpp:344-363 | Up to four bytes are fetched, or an error is answered |
| DbfSlices.SlicesCommute | rabbits/components/dbf/dbf_device.cpp:526-659 | Main result. Filtering two disjoint slices of a picture up to CIF gives the same store in either order |
| DbfSlices.SliceFrame | rabbits/components/dbf/dbf_device.cpp:526-659 | Filtering a slice writes samples of its own macroblocks and nothing else, in particular no register |
| DbfSlices.SliceDepends | rabbits/components/dbf/dbf_device.cpp:526-659 | What a slice computes depends on its own macroblocks and the registers only |
| DbfSlices.LineFrame | rabbits/components/dbf/dbf_device.cpp:791-894 | A filtered line writes only samples of its own macroblocks |
| DbfSlices.LineAgrees | rabbits/components/dbf/dbf_device.cpp:791-894 | A filtered line reads only its own macroblocks and the two offsets of its slice |
| DbfSlices.SkipLeftIff | rabbits/components/dbf/dbf_device.cpp:571-574 | The pixel test skips the vertical edges if and only if the macroblock to the left is not in the row or not in the slice |
| DbfSlices.SkipTopIff | rabbits/components/dbf/dbf_device.cpp:589-597 | The pixel test skips the horizontal edges if and only if the macroblock above is not in the slice |
| DbfSlices.SliceLinesAreWithin | rabbits/components/dbf/dbf_device.cpp:559-644 | Every line that filter_slice filters lies in the slice with both its macroblocks |
| DbfStore.SampleIsInside | rabbits/components/dbf/dbf_device.cpp:976-1066 | The div and mod addressing of every sample of a line ends in one of its two macroblocks, among their samples |
| DbfStore.BlocksOfLine | rabbits/components/dbf/dbf_device.cpp:791-894 | The second macroblock of a line is the one to the left or above |
| DbfPictures.LineFilters | rabbits/components/dbf/dbf_device.cpp:791-894 | A line that is filtered in the tiled store sets each of eight neighbouring samples of its plane to what the filter makes of these eight |
| DbfPictures.LineKeepsOthers | rabbits/components/dbf/dbf_device.cpp:791-894 | and leaves every other sample of the three planes as it was |
| DbfPictures.PixelsAreDistinct | rabbits/components/dbf/dbf_device.cpp:976-1066 | No two samples of the three planes share a byte of the store |
| DbfPictures.GatherIsAround | rabbits/components/dbf/dbf_device.cpp:796-803 | The samples that a line reads are the neighbours of the edge on its plane, in their order |
| DbfPictures.StrongestEdgeIff | rabbits/components/dbf/dbf_device.cpp:667-685 | get_bS gives 4 as section 8.7.2.1 of ITU-T H.264 asks if and only if the line is vertical, or at a column and a row both on macroblock edges or both inside, or not next to an intra macroblock |
| DbfPictures.StrongestEdgeMissed | rabbits/components/dbf/dbf_device.cpp:667-685 | A store and a line on the upper edge of an intra macroblock where get_bS gives 3 instead of 4 |
| DbfPictures.NeighbourIff | rabbits/components/dbf/dbf_device.cpp:791-894 | The macroblock that a line takes for its p side, at x − 16 or y − 16, holds its p samples if and only if the line is on a macroblock edge; on inner edges they are in the macroblock of the line itself |
| DbfPictures.InnerEdgeNeighbour | rabbits/components/dbf/dbf_device.cpp:791-813 | A line on an inner edge whose p samples are not in the macroblock that is taken for them |
| DbfChroma.FilteredRowsIff | rabbits/components/dbf/dbf_device.cpp:611-623 | The vertical chroma edges of a macroblock are filtered on its row r if and only if r < 4 |
| DbfChroma.FilteredColumnsIff | rabbits/components/dbf/dbf_device.cpp:625-642 | The horizontal chroma edges of a macroblock are filtered on its column c if and only if c < 4 |
| DbfChroma.EachLineTwice | rabbits/components/dbf/dbf_device.cpp:611-642 | The rounds of the loops that filter line k of the chroma edge at place e: exactly two, one after the other, if e is 0 or 2 and k < 4, and none otherwise |
| DbfChroma.EdgesReach | rabbits/components/dbf/dbf_device.cpp:611-642 | The chroma samples that the edges of a macroblock can change, exactly: on its first four rows, or columns, the two next to each edge |
| DbfChroma.OtherLinesStay | rabbits/components/dbf/dbf_device.cpp:611-642 | Whatever the store holds, the vertical edges of a macroblock leave its chroma rows 4 to 7 as they are, and its horizontal edges its columns 4 to 7 |
| DbfChroma.UnreachableStays | rabbits/components/dbf/dbf_device.cpp:526-659 | No slice ever changes a chroma sample that is none of these, in particular none at rows and columns 4 to 7 of a macroblock |
| DbfChroma.ReachableIff | rabbits/components/dbf/dbf_device.cpp:611-642 | The chroma samples of a picture that the loops of some macroblock reach, exactly, up to its last row and column |
| DbfChroma.RowZeroIsSmoothed | rabbits/components/dbf/dbf_device.cpp:846-871 | A store in which the first line smooths a chroma sample at row 0 of a macroblock |
| DbfChroma.RowFourIsSkipped | rabbits/components/dbf/dbf_device.cpp:611-623 | In the same store all vertical edges leave the sample at row 4, which has the same neighbours |
| DbfFilter.WeakSecondFits | rabbits/components/dbf/dbf_device.cpp:687-782 | For bS < 4 the updates of p1 and q1, which are not clipped to a byte, never leave it, and move by at most tc0 |
| DbfFilter.WeakStays | rabbits/components/dbf/dbf_device.cpp:687-782 | For bS < 4 p0 and q0 move by at most tc and p1 and q1 by at most tc0 (section 8.7.2.3 of ITU-T H.264) |
| DbfFilter.NothingWraps | rabbits/components/dbf/dbf_device.cpp:687-782 | For bS 4 no stored average wraps (section 8.7.2.4 of ITU-T H.264) |
| DbfFilter.IntraStaysInside | rabbits/components/dbf/dbf_device.cpp:687-782 | For bS 4 no sample leaves any range that holds the eight samples |
| DbfFilter.FirstAverages | rabbits/components/dbf/dbf_device.cpp:687-782 | Each average for bS 4 lies between the least and the greatest of the samples it averages; here the first one |
| DbfFilter.SecondAverages | rabbits/components/dbf/dbf_device.cpp:687-782 | The same for the second one |
| DbfFilter.ThirdAverages | rabbits/components/dbf/dbf_device.cpp:687-782 | The same for the third one |
| DbfFilter.PlainAverages | rabbits/components/dbf/dbf_device.cpp:687-782 | The same for the plain one |
| DbfFilter.IntraMirrors | rabbits/components/dbf/dbf_device.cpp:687-782 | For bS 4 both sides of an edge are treated alike |
| DbfFilter.IntraKeepsOrder | rabbits/components/dbf/dbf_device.cpp:687-782 | For bS 4 an edge whose eight samples rise still rises, whichever of its sides are smoothed strongly |
| DbfFilter.IntraKeepsFall | rabbits/components/dbf/dbf_device.cpp:687-782 | The same for a falling edge |
| DbfFilter.WeakKeepsOrder | rabbits/components/dbf/dbf_device.cpp:687-782 | For bS < 4 the first samples of a rising edge do not pass each other, clipped or not |
| DbfFilter.WeakSharesTheStep | rabbits/components/dbf/dbf_device.cpp:687-782 | For bS < 4 on a step between even sides p0 and q0 move towards each other by the same amount and not past each other |
| DbfFilter.WeakSecondApproaches | rabbits/components/dbf/dbf_device.cpp:687-782 | For bS < 4 p1 and q1 move towards the mean of their neighbour and the edge, not past it, reach it within tc0, and move by tc0 otherwise |
| DbfFilter.FilterKeeps | rabbits/components/dbf/dbf_device.cpp:687-782 | p3 and q3 never change, chroma changes only p0 and q0, bS < 4 keeps p2 and q2, bS 0 changes nothing |
| DbfFilter.FlatStays | rabbits/components/dbf/dbf_device.cpp:687-782 | Equal samples are left alone |
| DbfFilter.FilterBounds | rabbits/components/dbf/dbf_device.cpp:687-782 | The bounds of both strengths for filter_block as a whole |
| DbfFilter.WeakMoves | rabbits/components/dbf/dbf_device.cpp:727-742 | For bS < 4, where the thresholds let the filter work, p0 and q0 move towards each other by the eighth of 4(q0 − p0) + p1 − q1, rounded to the nearest integer, or as near to it as tc allows, and to the ends of a byte |
| DbfFilter.WeakSeconds | rabbits/components/dbf/dbf_device.cpp:745-750 | and p1 and q1 become the clipped update on the flat sides of a luma edge and stay on all others |
| DbfFilter.StepShrinks | rabbits/components/dbf/dbf_device.cpp:727-742 | A step of two or more between even sides becomes strictly smaller, if tc is not 0 |
| DbfFilter.TcCounts | rabbits/components/dbf/dbf_device.cpp:729-737 | tc is tc0 plus the number of flat sides for luma, and tc0 + 1 for chroma |
| DbfFilter.OnlyWhereItWorks | rabbits/components/dbf/dbf_device.cpp:722-725 | Nothing changes where a difference reaches its threshold, or for strengths other than 1 to 4 |
| DbfFilter.IntraMoves | rabbits/components/dbf/dbf_device.cpp:753-779 | For bS 4 the three samples of a side become the weighted means of section 8.7.2.4 of ITU-T H.264, each rounded to the nearest integer, if and only if the edge is luma, the side is flat and the step is small; otherwise the first one becomes the plain mean and the others stay |
| DbfFilter.AveragesRound | rabbits/components/dbf/dbf_device.cpp:760-779 | Each of the four averages is the rounded mean of its weighted samples |
| DbfLayout.StrengthIff | rabbits/components/dbf/dbf_device.cpp:667-685 | The exact condition of each boundary strength: 4, 3, 2, 1 and 0 |
| DbfLayout.ThresholdsAre | rabbits/components/dbf/dbf_device.cpp:689-720 | The tables are asked at the rounded mean of the two signed quantisers plus four times the offset of the slice, clipped to 0 to 51 |
| DbfLayout.VectorIs | rabbits/components/dbf/dbf_device.cpp:1148-1199 | A motion vector is the signed 16-bit number whose low byte is stored first |
| DbfLayout.BlocksInOrder | rabbits/components/dbf/dbf_device.cpp:1125-1146 | The 4x4 blocks of a macroblock count in raster order, and all samples of a block have its number |
| DbfLayout.SamplesGoOn | rabbits/components/dbf/dbf_device.cpp:976-1066 | Neighbouring samples, rows and macroblocks of a plane are 1, a row, 512 and 512·W bytes apart in the store |
| DbfLayout.RastersGoOn | rabbits/components/dbf/dbf_device.cpp:1307-1336 | In memory the rows of a plane, and the planes, follow each other without gap |
| DbfLayout.LumaLineIs | rabbits/components/dbf/dbf_device.cpp:568-608 | Round 16e + k of the luma loops filters line k of edge e, which is at 4e |
| DbfLayout.LumaLineOnce | rabbits/components/dbf/dbf_device.cpp:568-608 | and no line twice |
| DbfLayout.MacroblocksInOrder | rabbits/components/dbf/dbf_device.cpp:559-567 | The macroblocks count along the rows of the picture |
| DbfLayout.VerticalFirst | rabbits/components/dbf/dbf_device.cpp:568-642 | Of the lines of a plane of a macroblock the vertical ones are filtered before the horizontal ones |
| DbfLayout.SliceInOrder | rabbits/components/dbf/dbf_device.cpp:559-644 | A slice filters its own macroblocks, in their order |
| DbfLayout.MbLinesIff | rabbits/components/dbf/dbf_device.cpp:568-642 | A macroblock filters all lines of its vertical edges if and only if the macroblock to the left is in its row and in the slice, all lines of its horizontal edges if and only if the one above is in the slice, on luma, Cb and Cr, and no other line |
| DbfLayout.SliceLinesIff | rabbits/components/dbf/dbf_device.cpp:559-644 | A slice filters the lines of its macroblocks and no others |
| DbfRegisters.IrqAlwaysOk | rabbits/components/dbf/dbf_device.cpp:149-208 | Main result. In every state of any run of register writes, filterings, slice completions and transfers m_irq_stat is set if and only if INT_STATUS & INT_ENABLE is not 0, and bit 7 of INT_ENABLE is not set; this holds if and only if no slice that reaches macroblock 456 is cleared while the interrupt is raised |
| DbfRegisters.SetDataKeepsIrq | rabbits/components/dbf/dbf_device.cpp:149-234 | A register write keeps that invariant if and only if it does not clear, while the interrupt is raised, a slice that reaches macroblock 456 |
| DbfRegisters.ClearCanBreakIrq | rabbits/components/dbf/dbf_device.cpp:262-291 | A clear outside the picture after which the interrupt stays raised with both registers 0 |
| DbfRegisters.RunCanBreakIrq | rabbits/components/dbf/dbf_device.cpp:149-291 | A run from the start, through one filtered slice, at whose end the interrupt stays raised with both registers 0 |
| DbfRegisters.SliceDoneKeepsIrq | rabbits/components/dbf/dbf_device.cpp:483-500 | A slice completion keeps the invariant |
| DbfRegisters.TransferDoneKeepsIrq | rabbits/components/dbf/dbf_device.cpp:1347-1354 | The end of a transfer keeps the invariant |
| DbfRegisters.AckStaysOk | rabbits/components/dbf/dbf_device.cpp:189-208 | An acknowledgement keeps the invariant |
| DbfRegisters.EnableStaysOk | rabbits/components/dbf/dbf_device.cpp:161-184 | A write of INT_ENABLE keeps the invariant |
| DbfRegisters.ClearKeepsRegisters | rabbits/components/dbf/dbf_device.cpp:262-291 | Clearing a slice inside the picture changes no register |
| DbfRegisters.ClearCommutes | rabbits/components/dbf/dbf_device.cpp:262-291 | Clearing a slice and filtering a disjoint one commute |
| DbfRegisterBits.AckClears | rabbits/components/dbf/dbf_device.cpp:189-208 | An acknowledgement of an enabled status bit clears exactly the acknowledged bits, and bit 7 with the last of the others; the line falls with the last enabled bit; any other acknowledgement changes nothing |
| DbfRegisterBits.RaiseSets | rabbits/components/dbf/dbf_device.cpp:483-499 | A completion sets exactly its own bits, and bit 7 and the line if an enabled one is set then |
| DbfRegisterBits.EnableTakes | rabbits/components/dbf/dbf_device.cpp:161-184 | A write of the enables takes all bits but bit 7 and leaves the status |
| DbfRegisterBits.PlainByte | rabbits/components/dbf/dbf_device.cpp:186-234 | Every other register holds what is written and nothing else in the store changes; FILLOW starts its slice, and a 1 in FRA_SRAM a transfer, each once |
| DbfRegisterBits.ReadOnly | rabbits/components/dbf/dbf_device.cpp:158-159 | The status and the number of slices cannot be written |
| DbfRegisterBits.ClearEmpties | rabbits/components/dbf/dbf_device.cpp:262-291 | A clear leaves the quantisers of the macroblocks of its slice at −1 and all their other bytes at 0, and changes nothing outside them but its own register, which is 0 |
| DbfRegisterBits.ClearFitsIff | rabbits/components/dbf/dbf_device.cpp:262-291 | A clear stays in the store if and only if none of its macroblocks reaches past it |
| DbfRegisterBits.SliceDoneSets | rabbits/components/dbf/dbf_device.cpp:470-500 | The end of a slice tells its length in two bytes and sets its own status bit, and bit 4 if and only if as many slices as software waits for have told a length |
| DbfRegisterBits.LengthIsTold | rabbits/components/dbf/dbf_device.cpp:470-474 | The two bytes that are stored are the length, and nothing else in the store has changed |
| DbfRegisterBits.DoneSets | rabbits/components/dbf/dbf_device.cpp:480-492 | Which bits a slice completion sets |
| DbfRegisterBits.TransferDoneSets | rabbits/components/dbf/dbf_device.cpp:1347-1354 | The end of a transfer resets FRA_SRAM and sets bit 5 |
| DbfRegisterBits.SliceIsDescribed | rabbits/components/dbf/dbf_device.cpp:943-974 | Software describes any slice with an offset and a length below 4096 by three bytes, and the device reads the same offset and length back |
| DbfRegisterBits.FormatIsDescribed | rabbits/components/dbf/dbf_device.cpp:1201-1210 | Bits 4 and 5 of the control byte are the format of the picture |
| DbfRegisterBits.DestinationIsDescribed | rabbits/components/dbf/dbf_device.cpp:1297 | The four bytes of an address, written lowest first, are the destination of the transfer |
| DbfDevice.Device.constructor | rabbits/components/dbf/dbf_device.cpp:126-133 | The store starts with nothing but the number of slices |
| DbfDevice.Device.ClearSlice | rabbits/components/dbf/dbf_device.cpp:262-291 | The in-place loop clears exactly the macroblocks of the slice |
| DbfDevice.Device.SetData | rabbits/components/dbf/dbf_device.cpp:149-234 | A register write in place is the pure one, with its notifications |
| DbfDevice.Device.FilterLine | rabbits/components/dbf/dbf_device.cpp:791-894 | Reading, filtering and writing back the eight samples of a line in place is the pure line |
| DbfDevice.Device.FilterMb | rabbits/components/dbf/dbf_device.cpp:559-644 | The nested loops of one macroblock filter its lines in order |
| DbfDevice.Device.FilterSlice | rabbits/components/dbf/dbf_device.cpp:526-659 | filter_slice in place is the pure one, in the whole device state |
| DbfDevice.Device.FinishSlice | rabbits/components/dbf/dbf_device.cpp:475-500 | The end of process_slice is the pure completion |
| DbfDevice.Device.FinishTransfer | rabbits/components/dbf/dbf_device.cpp:1345-1354 | The end of master_request is the pure one |
| DbfTransfer.SamplesInMemory | rabbits/components/dbf/dbf_device.cpp:1307-1336 | Main result. After a transfer, byte r·16W + c of the luma plane in memory is the sample at column c and row r at the moment at which its packet was sent, and likewise for both chroma planes behind it, whatever happens to the store between packets |
| DbfTransfer.PictureInMemory | rabbits/components/dbf/dbf_device.cpp:1307-1336 | A transfer writes exactly 384·W·H bytes of memory, four with each packet |
| DbfTransfer.SendPicture | rabbits/components/dbf/dbf_device.cpp:1285-1336 | The three loop nests lay the Y, Cb and Cr planes in raster order at the destination, each packet from the store as it is by then; a destination that is not 4-aligned stops |
| DbfTransfer.SendPlane | rabbits/components/dbf/dbf_device.cpp:1308-1316 | One loop nest lays one plane, whatever is in the other half of the packets and whatever happens to the store between them |
| DbfTransfer.SendPack | rabbits/components/dbf/dbf_device.cpp:1248-1263 | A packet lays the next four bytes at adr_dest and moves on to the other half |
| DbfTransfer.HalfDelivered | rabbits/components/dbf/dbf_device.cpp:1249-1257 | A word in its half of the lanes lands at its own address, whatever the other half carries |
| DbfTransfer.WordOfPlane | rabbits/components/dbf/dbf_device.cpp:1313-1314 | reg_addr points at the next four bytes of the plane in raster order |
| DbfTransfer.PlaneHolds | rabbits/components/dbf/dbf_device.cpp:976-1046 | A raster position of the plane is the pixel that the pixel accessors read |

## Left out

- Timing: durations of waits, frequencies, cycle counts and timers; every interleaving is allowed instead.
- The processor emulator; the update of an interrupt line is the line last sent, and no wake-up is claimed.
- Processes, pipes, terminals, viewers, the RGB and YUV converters, the boot loader, the mailbox and the AICU.
- `get_slave_id_for_mem_addr`, whose ranges end one address later than the dispatcher's.
- Network: an access to an address that no region contains stops the simulation; CPUs of the model issue mapped addresses only.
- Network: CPUs access aligned words only, at aligned offsets of the slaves. Bytes and halfwords are in `MemoryLanes` and `FlatMemory`, where each access is one step.
- NetworkMemory.NetworkIsThrough: the memories must have the groups that they are asked for; the source checks only that a group begins inside.
- Semaphores.AccessAlone: for an access whose own path is free; with other accesses of its CPU and slave on the way, order and progress are what the other theorems say.
- Network: a semaphore that is locked by a write for the third time stops the simulation in the source; the word stays 2 in the model.
- Network: the deblocking filter as a slave, whose response thread shares one response; commands other than READ and WRITE; end-of-packet and error flags of responses.
- Burst reads, which return a host pointer, and accesses that cross a group of eight bytes.
- FlatMemory.EveryRunIsFlat: each access is one step, outside the queues; for words, NetworkMemory.NetworkIsFlat has the queues.
- FlatMemory.OneAccess: one direction; StoresFlatIff and LoadsFlatIff have both.
- MemoryLanes.Write: enabled lanes behind the end of the memory, which the source's range check lets through, are written outside the memory there and not covered.
- MemoryLanes.Read: the same for reading.
- ChannelRuns.ReadSeesOwnWrite: on the channel machine; NetworkOrder.OwnWriteOverNetwork has it on the network.
- ChannelRuns.CriticalSectionIsSeen: on the channel machine; NetworkOrder.CriticalSectionOverNetwork has it on the network, and GuardedRead without other writes.
- MutualExclusion.TokensCount: on the channel machine; NetworkOrder.TokensOverNetwork has it on the network.
- MutualExclusion.NeverTwoHolders: on the channel machine; NetworkGuarantees.LocksExclude has it on the network.
- ExclusiveMonitor.Monitor.MarkExclusive: a new word when the table is full is written past the array in the source; MarkFitsIff says exactly when that happens.
- Interrupts.FanOut.PortsChange: registers are sets of bits, so that more than 32 ports would not wrap as in the source.
- BlockDevice.Device.ExecRead: transfers of more than 2^31 − 1 bytes are not covered, nor reads that the host fails for other reasons than a closed file.
- BlockDevice.Device.ExecWrite: transfers of more than 2^31 − 1 bytes are not covered.
- BlockDevice.Device.CmdWrite: the bus answers with an error outside the memory and only there. A memory of the source never reports an error for a write and an address in no region stops the simulation, so the error stands for other slaves.
- BlockDevice.Device.CmdRead: the same, without the request and its response on the network.
- BlockDevice.WriteThenRead: needs up to three bytes of memory behind the data, since WRITE reads whole words, and at least one block, since a WRITE of nothing may fail.
- The FILE_NAME command of the block device and its register interface.
- DbfDevice.Device.ClearSlice: clears that write behind the store are not covered.
- DbfRegisters.IrqAlwaysOk: slices that run past the picture are cleared in these runs but not filtered.
- DbfDevice.Device.SetData: the address just behind the store, which passes the range check, and clears that write behind the store are not covered.
- DbfTransfer.SendPicture: the mode that does not increment the destination is not covered.
- 4CIF pictures, whose macroblocks overlap the registers.
- The tables of alpha, beta and tc0, which are parameters of the filter.
