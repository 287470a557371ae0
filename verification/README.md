# Verified model of the NachOS kernel core and the pthread pipeline

This project models the parts of the repository where state, recursion and concurrency meet,
and proves what they keep over every input, every run or every reachable state. To verify:
`dafny verify dfyconfig.toml`.

**The file system** (`NachOS/filesys`, `NachOS/lib/bitmap.cc`). A file header is a tree of one
to four levels over the sectors of one disk; the free map and the directories are files
themselves. `HeaderTree` and `HeaderLookup` hold what `Allocate` and `Deallocate` do as coded,
`FileHeader`, `Bitmap`, `OpenFile`, `PersistentBitmap`, `Directory` and `FileSystem` are the
classes, each method proved against those functions. `Volume` is the state of the whole disk,
`Volumes.Inv` the invariant of the file system, `VolumeRuns` what every run of operations
keeps, `VolumeEffects` what a caller sees of each. Numbers are symbolic: any header of at
least two entries, any sector of at least one byte, any disk of whole 32-bit words.

**The kernel** (`NachOS/threads`, `NachOS/filesys/synchdisk.cc`, `NachOS/machine/disk.cc`,
`NachOS/machine/interrupt.cc`). There is one processor: a region with interrupts off is one
step. `KernelState` is the state machine of threads, the ready list and semaphores, and
`Kernel` the code that takes its steps; `SynchListProtocol` and `SynchDiskProtocol` are the
monitor and the disk driver, statement by statement, for any number of threads, with
`SynchListProgress` for what the monitor gets done; `Interrupt` is simulated time.

**The pipeline** (`Pthread/NTHU-OS-Pthreads`). `TSQueue` is the ring buffer; `Pipeline` is the
state machine of the reader, the four producers, the consumers with their controller, and the
writer, with the wait and signal rules of IEEE Std 1003.1-2017 (`pthread_cond_wait`, spurious
wakeups included, and `pthread_cond_signal`). `PipelineInvariant` and `PipelineWaits` hold what
every step keeps, `PipelineRuns` and `PipelineFinish` what every run does.

**Bits and data structures** (`NachOS/machine/mipssim.cc`, `NachOS/lib/hash.cc`,
`NachOS/lib/list.cc`): the multiplier, the unaligned loads and stores, the hash table and the
linked lists.

Where the code does not do what its comments promise, the model follows the code and the exact
condition is proved:

- `Allocate` tests the free space for data sectors alone. The call comes out right exactly when
  data and index sectors fit together (`HeaderTree.AllocSoundIff`); in between it does not fail
  cleanly (`HeaderTree.AllocGap`).
- `Deallocate` counts children with `divRoundUp(numSectors, NumDirect)`. It completes exactly
  for headers of up to two levels (`HeaderLookup.DeallocExact`, `HeaderLookup.LoopCountExact`),
  and it never gives back index sectors (`HeaderLookup.AllocDealloc`).
- The controller starts consumers only above its high threshold. If there are more items than
  that and the worker queue can hold more than that, the pipeline never gets stuck
  (`PipelineRuns.Progress`); in every other case it writes nothing at all
  (`PipelineRuns.NeverStarts`).
- `SWR` and `SWL` store the register as it is, and a load that is pending when `SWR` starts
  arrives before `SWL`. Together they store one value of the register exactly when that load
  leaves the high bytes that `SWL` stores as they are (`Unaligned.Machine.StoreUnaligned`);
  `Unaligned.PendingLoadDiffers` is a case where it does not.
- `SynchList::Append` fails the assertion of `List::Append` when its item is still on the list.
  No other assertion of the monitor ever fails, and this one fails exactly when an earlier append
  of the item has not been taken off (`SynchListProtocol.FailsIff`). A caller that appends only
  items that are neither listed nor being appended is safe (`SynchListProtocol.CarefulRun`);
  `SynchListProtocol.AppendTwice` is a run that fails.
- `CreateDirectory` ignores what `Find` and `Add` answer. With a taken name or a full parent it
  takes a header and a table off the free map that no path leads to
  (`VolumeRuns.LostUnreached`); the invariant holds all the same.

## Model

| member | source | states |
|---|---|---|
| Geometry.RoundUpIsCeil | NachOS/filesys/filehdr.cc:75 | the rounded-up quotient of the code is the number of units, counted by subtraction |
| Geometry.CeilNested | NachOS/filesys/filehdr.cc:187 | rounding up twice is rounding up once by the product |
| Bitmaps.Bitmap.constructor | NachOS/lib/bitmap.cc:21-36 | a new bitmap has every bit clear |
| Bitmaps.Bitmap.Mark | NachOS/lib/bitmap.cc:56-64 | exactly one bit of the abstract map becomes set, word masks and all |
| Bitmaps.Bitmap.Clear | NachOS/lib/bitmap.cc:73-81 | exactly one bit of the abstract map becomes clear |
| Bitmaps.Bitmap.Test | NachOS/lib/bitmap.cc:90-100 | the answer is that bit of the abstract map |
| Bitmaps.Bitmap.FindAndSet | NachOS/lib/bitmap.cc:111-120 | the lowest clear bit is found and set; -1 and no change exactly when there is none |
| Bitmaps.Bitmap.NumClear | NachOS/lib/bitmap.cc:129-141 | the count is the size of the set of clear positions |
| BitSpec.TakeIsFirstFit | NachOS/filesys/filehdr.cc:144-150 | taking the lowest clear bit k times gives increasing clear bits below every clear bit left over |
| BitSpec.FirstFitJoin | NachOS/filesys/filehdr.cc:88-99 | first fit followed by first fit is first fit |
| BitSpec.FirstFitUnique | NachOS/filesys/filehdr.cc:88-99 | two first-fit lists of one length over one map are equal |
| BitSpec.CountMarkAll | NachOS/filesys/filehdr.cc:76 | marking distinct clear sectors lowers the free count by their number |
| HeaderTree.AllocRoom | NachOS/filesys/filehdr.cc:72-153 | with room for data and index sectors the call succeeds, takes sectors first-fit in pre-order, leaves a header that spells out a well-shaped tree over them, and writes only index sectors |
| HeaderTree.AllocTakesLowest | NachOS/filesys/filehdr.cc:83-150 | the sectors taken, in pre-order, are the k lowest clear bits, k being the data-plus-index count |
| HeaderTree.AllocSoundIff | NachOS/filesys/filehdr.cc:76-80 | refused exactly when the data sectors alone do not fit; a correct header over fresh, distinct sectors exactly when all sectors fit |
| HeaderTree.AllocGap | NachOS/filesys/filehdr.cc:76-80 | between the two the call is neither refused nor right, for every size with index sectors |
| HeaderTree.KidsFit | NachOS/filesys/filehdr.cc:83-136 | the child headers never overflow the table of NumDirect entries |
| HeaderTree.DataSize | NachOS/filesys/filehdr.cc:75 | a tree has one data sector for every SectorSize bytes, rounded up, although siblings differ in depth |
| HeaderTree.AllSize | NachOS/filesys/filehdr.cc:83-150 | data and index sectors together number the recursively defined need of the size |
| HeaderTree.RepFrame | NachOS/filesys/filehdr.cc:213-244 | a header's tree depends on its index sectors alone |
| HeaderLookup.ChildAt | NachOS/filesys/filehdr.cc:257-282 | the child that an offset selects holds the byte where the in-order list of data sectors has it |
| HeaderLookup.LoopCountExact | NachOS/filesys/filehdr.cc:167-187 | the child count of Deallocate is the number of children exactly up to two levels, and overruns the table beyond |
| HeaderLookup.DeallocExact | NachOS/filesys/filehdr.cc:162-204 | completes exactly up to two levels, and then clears exactly the data sectors |
| HeaderLookup.DeallocKidsExact | NachOS/filesys/filehdr.cc:162-204 | with the child count of Allocate it would clear exactly the data sectors at every depth |
| HeaderLookup.AllocDealloc | NachOS/filesys/filehdr.cc:72-204 | allocating and giving back leaves exactly the index sectors marked |
| HeaderLookup.DataIndexApart | NachOS/filesys/filehdr.cc:83-150 | no sector is both data and index, and no data sector occurs twice |
| FileHeaders.FileHeader.Allocate | NachOS/filesys/filehdr.cc:72-153 | fields, free map and disk end as the specification of allocation says, with TRUE, FALSE or a failed device assertion |
| FileHeaders.FileHeader.AllocateChildren | NachOS/filesys/filehdr.cc:83-136 | the loop of a multi-level branch comes to what the recursive specification says, within the table |
| FileHeaders.FileHeader.AllocateSectors | NachOS/filesys/filehdr.cc:138-151 | the table lists the lowest clear sectors, which are now marked |
| FileHeaders.FileHeader.ByteToSector | NachOS/filesys/filehdr.cc:254-286 | the answer for offset o is entry o / SectorSize of the in-order list of data sectors |
| FileHeaders.FileHeader.Deallocate | NachOS/filesys/filehdr.cc:162-204 | the free map ends as the specification of deallocation says, or the call fails as it says |
| FileHeaders.FileHeader.DeallocateChildren | NachOS/filesys/filehdr.cc:164-192 | the loop over the child headers, with the count as coded |
| FileHeaders.FileHeader.FetchFrom | NachOS/filesys/filehdr.cc:213-222 | the header in memory is the one on the disk |
| FileHeaders.FileHeader.WriteBack | NachOS/filesys/filehdr.cc:230-244 | exactly one sector changes, to this header |
| OpenFiles.Clip | NachOS/filesys/openfile.cc:120-124 | the transfer is the largest that is asked for and that fits into the file |
| OpenFiles.OpenFile.ReadAt | NachOS/filesys/openfile.cc:113-140 | the bytes returned are the slice of the flat file, clipped to its length |
| OpenFiles.OpenFile.WriteAt | NachOS/filesys/openfile.cc:142-185 | the flat file has the bytes put over it, clipped, and no sector but the touched data sectors changes |
| OpenFiles.OpenFile.Prepare | NachOS/filesys/openfile.cc:155-171 | every byte around the write in a partial first or last sector is the old one |
| OpenFiles.OpenFile.Read | NachOS/filesys/openfile.cc:73-78 | reading continues at the seek position and advances it by what was read |
| OpenFiles.OpenFile.Write | NachOS/filesys/openfile.cc:80-85 | writing continues at the seek position and advances it by what was written |
| OpenFiles.WriteThenRead | NachOS/filesys/openfile.cc:113-185 | a later read returns what was written, and the bytes before and behind are unchanged |
| OpenFiles.WriteLeavesOthers | NachOS/filesys/openfile.cc:176-180 | a write leaves alone the headers and bytes of every file it shares no data sector with |
| DirectoryTable.EntryRoundTrip | NachOS/filesys/directory.h:32-42 | an entry decoded from its bytes is the entry |
| DirectoryTable.TableRoundTrip | NachOS/filesys/directory.cc:67-82 | a table written to a file and read back is the table |
| DirectoryTable.ComparesKeys | NachOS/filesys/directory.cc:97 | the comparison of the code is equality of what it sees of the two names |
| DirectoryTable.ComparesFronts | NachOS/filesys/directory.cc:97 | two names compare equal exactly when their first nine characters do, or the whole names if shorter |
| DirectoryTable.AddKeepsUnique | NachOS/filesys/directory.cc:132-148 | Add keeps names in use unique, the new name is found, and no other lookup changes |
| DirectoryTable.RemoveKeepsUnique | NachOS/filesys/directory.cc:157-165 | Remove keeps names unique, the name is gone, and no other lookup changes |
| DirectoryTable.AddThenRemove | NachOS/filesys/directory.cc:132-165 | Remove undoes Add for every lookup |
| Directories.Directory.FindIndex | NachOS/filesys/directory.cc:92-102 | the first entry in use whose name agrees in the characters compared, or -1 |
| Directories.Directory.Add | NachOS/filesys/directory.cc:132-148 | the first free entry is filled, exactly when the name is new and an entry is free |
| Directories.Directory.Remove | NachOS/filesys/directory.cc:157-165 | the entry of the name is no longer in use; the answer says whether there was one |
| Directories.Directory.FetchFrom | NachOS/filesys/directory.cc:67-70 | the front of the table is what the file holds, the rest is as it was |
| Directories.Directory.WriteBack | NachOS/filesys/directory.cc:79-82 | the file's bytes are the table's |
| Directories.Directory.FindPath | NachOS/filesys/directory.cc:237-295 | terminates and equals the left fold of Find over the components of the path |
| Directories.PaddedFind | NachOS/filesys/directory.cc:270-272 | looking up in an oversized table read from the file is looking up in the table |
| Paths.SplitPath | NachOS/filesys/filesys.cc:185-208 | the path is cut at its last slash |
| Paths.SplitComponents | NachOS/filesys/filesys.cc:185-208 | the components of a path are those of its front and then its last component |
| Paths.JoinComponents | NachOS/filesys/directory.cc:237-295 | the components, each with its one slash in front, make up the path |
| Paths.SplitJoins | NachOS/filesys/filesys.cc:185-208 | the front of a path and its last component make up the path |
| Paths.StrTok | NachOS/filesys/filesys.cc:386-404 | the tokens are the components in order |
| PersistentBitmaps.WordsRoundTrip | NachOS/filesys/pbitmap.cc:63-79 | the words of the map decoded from their bytes are the words |
| PersistentBitmaps.FetchFrom | NachOS/filesys/pbitmap.cc:63-66 | the map in memory is the one the file holds |
| PersistentBitmaps.WriteBack | NachOS/filesys/pbitmap.cc:76-79 | what the file holds afterwards decodes to the map, and only its data sectors change |
| Volumes.WriteKeeps | NachOS/filesys/openfile.cc:142-185 | a write into one file keeps the layout of the volume and the bytes of every other file |
| Volumes.NoSharedSector | NachOS/filesys/filesys.cc:81-439 | under the invariant every reachable sector is marked in the free map on the disk, and none is reached twice |
| Volumes.OnePath | NachOS/filesys/directory.cc:237-295 | different paths of directory entries lead to different files |
| Volumes.LinkAdd | NachOS/filesys/filesys.cc:238-247 | a new entry for a new file keeps entries injective, of the right kind, and names unique |
| Volumes.LinkRemove | NachOS/filesys/filesys.cc:424-432 | removing an entry and its file keeps them so |
| VolumeRuns.WalkAppend | NachOS/filesys/directory.cc:237-295 | looking up a path in two parts is looking it up at once |
| VolumeRuns.SplitLookup | NachOS/filesys/filesys.cc:274-285 | looking up a whole path is Find of the last component in the directory at the rest |
| VolumeRuns.GrownSane | NachOS/filesys/filesys.cc:261-317 | a new file or directory keeps the volume sane |
| VolumeRuns.LostSane | NachOS/filesys/filesys.cc:229-252 | a directory that could not be entered in its parent keeps the volume sane |
| VolumeRuns.LostUnreached | NachOS/filesys/filesys.cc:229-252 | no path leads to it |
| VolumeRuns.ShrunkSane | NachOS/filesys/filesys.cc:371-439 | removing a file keeps the volume sane |
| VolumeRuns.StepSane | NachOS/filesys/filesys.cc:210-439 | every operation keeps the volume sane |
| VolumeRuns.RunSane | NachOS/filesys/filesys.cc:81-439 | every run of operations keeps the volume sane |
| VolumeRuns.RunContents | NachOS/filesys/filesys.cc:210-439 | over every run a file holds the writes to it, in order, and nothing else |
| VolumeEffects.CreateEffect | NachOS/filesys/filesys.cc:261-317 | the new file is found under its path with its size, everything found before is found still, and exactly its data and index sectors and its header are taken, all free before |
| VolumeEffects.CreateDirectoryEffect | NachOS/filesys/filesys.cc:210-259 | the same for a directory, which is empty; one that could not be entered changes no lookup |
| VolumeEffects.RemoveEffect | NachOS/filesys/filesys.cc:371-439 | the path leads nowhere, no other name changes, exactly the header and data sectors are free again, and no other bit differs |
| VolumeEffects.CreateThenRemove | NachOS/filesys/filesys.cc:261-439 | removing a file that was created leaves files, lookups and free map as they were, but for its index sectors, of which a one-level file has none |
| VolumeDisk.FormatDisk | NachOS/filesys/filesys.cc:97-116 | formatting lays out the free map and the root directory in disjoint sectors and marks exactly these |
| VolumeDisk.Grow | NachOS/filesys/filesys.cc:293-306 | allocating a new file and writing its header back keeps every file already there |
| VolumeDisk.CreateDone | NachOS/filesys/filesys.cc:303-306 | after the three write-backs the disk stores the volume with the new file |
| VolumeDisk.DirectoryDone | NachOS/filesys/filesys.cc:240-252 | after the empty table too, the disk stores the volume with the new directory |
| VolumeDisk.LostDone | NachOS/filesys/filesys.cc:240-252 | the same when the entry could not be made |
| VolumeDisk.RemoveDone | NachOS/filesys/filesys.cc:424-434 | after both write-backs the disk stores the volume without the file |
| FileSystems.FileSystem.Format | NachOS/filesys/filesys.cc:81-137 | the invariant holds, the root is empty, and only the two files' sectors are marked |
| FileSystems.FileSystem.Create | NachOS/filesys/filesys.cc:261-317 | keeps the invariant; TRUE exactly when parent, free name, slot and room are there; otherwise the disk is unchanged |
| FileSystems.FileSystem.CreateDirectory | NachOS/filesys/filesys.cc:210-259 | keeps the invariant; a missing parent changes nothing; with a new name and a free entry the directory is there and empty, otherwise its sectors are lost |
| FileSystems.FileSystem.Open | NachOS/filesys/filesys.cc:329-343 | null exactly when the path leads nowhere, else the file it leads to |
| FileSystems.FileSystem.WriteFile | NachOS/filesys/filesys.cc:329-343 | keeps the invariant; the bytes of this file alone change, clipped |
| FileSystems.FileSystem.ReadFile | NachOS/filesys/filesys.cc:329-343 | the clipped slice of the file's bytes |
| FileSystems.FileSystem.Locate | NachOS/filesys/filesys.cc:380-415 | the token walk ends at the directory of the last component and finds what the whole path leads to |
| FileSystems.FileSystem.Remove | NachOS/filesys/filesys.cc:371-439 | keeps the invariant; TRUE exactly when the path leads to a file, which is then gone, index sectors still marked |
| KernelState.InvKept | NachOS/threads/thread.cc:91-256 | every step keeps the invariant of threads, ready list and semaphores |
| KernelState.NoLostWakeup | NachOS/threads/synch.cc:75-117 | value is initial plus V's minus P's, and a queued thread with a positive value means a woken thread on its way to recheck |
| KernelState.SeenFromOutside | NachOS/threads/synch.cc:75-117 | V adds one to the value, P completes by taking one off a positive value or queues, and nothing else changes it |
| KernelState.OnePlace | NachOS/threads/scheduler.cc:56-167 | each live thread is in exactly one place: processor, ready list, one queue, or finishing |
| KernelState.RunEntered | NachOS/threads/scheduler.cc:104-167 | toBeDestroyed is empty whenever Run is entered and never names the current thread |
| KernelState.DispatchedInOrder | NachOS/threads/scheduler.cc:56-86 | the thread at position k of the ready list is what the (k+1)-th FindNextToRun returns |
| KernelState.YieldGivesUp | NachOS/threads/thread.cc:201-219 | the first ready thread is current, the yielding one is last and ready; nothing changes with nobody ready |
| KernelState.DispatchHandsOver | NachOS/threads/thread.cc:250-256 | the first ready thread is current; a finishing thread is marked for deletion |
| KernelState.ForkEnters | NachOS/threads/thread.cc:92-106 | the new thread is last on the ready list and the current one goes on |
| KernelState.SignalWakesFirst | NachOS/threads/synch.cc:103-117 | the thread that has waited longest is made ready, and nobody else |
| KernelState.WaitsBehind | NachOS/threads/synch.cc:76-92 | without a value the current thread queues behind all others and sleeps, else it takes one and goes on |
| KernelState.ResumeGoesOn | NachOS/threads/scheduler.cc:133-150 | behind the switch a finished thread is gone, and the current one runs |
| KernelState.FinishEnds | NachOS/threads/thread.cc:171-181 | a thread that finishes is gone after its switch, and the first ready thread runs |
| KernelState.RunsInTurn | NachOS/threads/scheduler.cc:56-127 | over every run the thread at position k of the ready list runs after the (k+1)-th switch |
| KernelState.WokenInTurn | NachOS/threads/synch.cc:75-117 | over every run the thread at position k of a queue is made ready by the (k+1)-th V |
| KernelState.NotOnReadyList | NachOS/threads/scheduler.cc:57-66 | the assertion of List::Append holds when the current thread yields |
| KernelState.NotOnQueue | NachOS/threads/synch.cc:84-87 | the assertion of List::Append holds when the current thread queues up in P |
| KernelState.QueuedNotReady | NachOS/threads/synch.cc:110-112 | the assertion of List::Append holds when V makes a thread ready |
| Kernels.Kernel.ReadyToRun | NachOS/threads/scheduler.cc:57-66 | status and the end of the ready list, nothing else |
| Kernels.Kernel.FindNextToRun | NachOS/threads/scheduler.cc:75-86 | the front of the ready list, or nothing |
| Kernels.Kernel.Run | NachOS/threads/scheduler.cc:104-127 | the switch, with toBeDestroyed set by a finishing thread only |
| Kernels.Kernel.CheckToBeDestroyed | NachOS/threads/scheduler.cc:161-167 | the finished thread is gone, and was not the current one |
| Kernels.Kernel.Fork | NachOS/threads/thread.cc:92-106 | the new thread is ready, behind all others; the invariant holds |
| Kernels.Kernel.Yield | NachOS/threads/thread.cc:201-219 | the first ready thread runs and the current one is last, or nothing changes |
| Kernels.Kernel.Finish | NachOS/threads/thread.cc:171-181 | the thread is blocked for good; the invariant holds |
| Kernels.Kernel.Dispatch | NachOS/threads/thread.cc:250-256 | a sleeping thread hands over to the first ready one; the invariant holds |
| Kernels.Kernel.Resume | NachOS/threads/scheduler.cc:133-150 | a thread switched in cleans up and goes on where it was, in P by testing the value again |
| Kernels.Kernel.P | NachOS/threads/synch.cc:76-92 | the value is consumed, or the thread is queued and sleeps; the invariant holds |
| Kernels.Kernel.V | NachOS/threads/synch.cc:103-117 | the first waiter is made ready and the value goes up; the invariant holds |
| SynchListProtocol.InvKept | NachOS/threads/synchlist.cc:53-81 | every statement of the monitor keeps its invariant |
| SynchListProtocol.MonitorSafe | NachOS/threads/synchlist.cc:53-81 | items leave once and in order, one thread inside, the lock is held where that is asserted, no removal from an empty list, and with the lock free each item has a signalled consumer coming |
| SynchListProtocol.FailsIff | NachOS/lib/list.cc:80 | over every run the program fails exactly at an append whose item was appended before and not yet removed, and at no other assertion |
| SynchListProtocol.CarefulRun | NachOS/threads/synchlist.cc:53-60 | no assertion fails as long as Append is called with items that are neither listed nor being appended |
| SynchListProtocol.AppendAlone | NachOS/threads/synchlist.cc:53-60 | with the lock free and nobody interfering, the call fails exactly if the item is listed |
| SynchListProtocol.AppendTwice | NachOS/lib/list.cc:80 | a run that fails: one item appended twice |
| SynchListProtocol.NoDeadlock | NachOS/threads/synchlist.cc:53-81 | some thread can go on unless all are out or asleep on the condition, and then the list is empty if any is asleep |
| SynchListProgress.Settles | NachOS/threads/synchlist.cc:53-81 | every run can go on, without new calls, until all threads are out or asleep on an empty list, or an append has failed |
| SynchListProgress.StepWorks | NachOS/threads/synchlist.cc:53-81 | every statement lowers the work that is left, so the threads in the monitor cannot go on for ever |
| SynchListProgress.RemoveAlone | NachOS/threads/synchlist.cc:69-81 | a call without interference takes the first item and leaves all else as it was |
| SynchListProgress.AppendsLast | NachOS/threads/synchlist.cc:53-60 | a call without interference and waiters lists the item last and leaves all else as it was |
| SynchListProgress.SignalledInTurn | NachOS/threads/synch.cc:244-283 | over every run the consumer at position k of the wait queue is the one that the (k+1)-th signal wakes |
| SynchListProtocol.AssertsHold | NachOS/threads/synch.cc:198-283 | the lock is held by the current thread wherever the source asserts it |
| SynchListProtocol.SignalledGoesOn | NachOS/threads/synch.cc:244-283 | a signalled consumer can pass its waiter, or the thread that raises it can go on |
| SynchListProtocol.RemovedGrows | NachOS/threads/synchlist.cc:53-81 | what was appended and what was removed only grow |
| SynchDiskProtocol.InvKept | NachOS/filesys/synchdisk.cc:58-94 | every step of the driver and of the device keeps the invariant |
| SynchDiskProtocol.DriverSafe | NachOS/filesys/synchdisk.cc:58-94 | the device assertions hold, one interrupt at most, semaphore at most 1, and reads return the last write in lock order |
| SynchDiskProtocol.WaiterGoesOn | NachOS/machine/disk.cc:113-162 | while a thread waits for the device, the interrupt is outstanding or the semaphore raised |
| SynchDiskProtocol.NoDeadlock | NachOS/filesys/synchdisk.cc:58-94 | while a thread is in the driver, a statement can be executed or the interrupt is outstanding |
| SynchDiskProtocol.RequestStays | NachOS/filesys/synchdisk.cc:58-82 | a thread keeps its request until it is out, and that request is what the device carries out |
| SynchDiskProtocol.AllServed | NachOS/filesys/synchdisk.cc:58-94 | every run can go on until every thread is out, with one access for each time the lock was taken, in that order |
| Interrupts.InsertOrdered | NachOS/lib/list.cc:234-260 | sorted insertion keeps the order by time, ties by scheduling |
| Interrupts.InsertIsSortedInsert | NachOS/machine/interrupt.cc:57-72 | the pending list is the sorted list under PendingCompare |
| Interrupts.ScheduleStep | NachOS/machine/interrupt.cc:309-318 | a new interrupt falls behind everything that has fired |
| Interrupts.FireStep | NachOS/machine/interrupt.cc:371-377 | firing the front keeps the history complete, in the order due and in the order of occurrence, and never early |
| Interrupts.FrontDecides | NachOS/machine/interrupt.cc:348-356 | if the front of the list is not due, nothing is |
| Interrupts.EveryRequestCounts | NachOS/machine/interrupt.cc:371-377 | what a handler asks for stands among what was scheduled, at its time and with its device |
| Interrupts.Interrupt.Schedule | NachOS/machine/interrupt.cc:309-318 | the interrupt is recorded at its time, behind equal ones |
| Interrupts.Interrupt.CheckIfDue | NachOS/machine/interrupt.cc:332-380 | terminates with nothing due, advances the clock only when told to, answers TRUE exactly when a handler ran, and exactly what the handlers asked for was scheduled |
| Interrupts.Interrupt.OneTick | NachOS/machine/interrupt.cc:157-189 | the clock and the account of the mode advance by one tick, the other accounts stay, nothing due is left, and a switch is due exactly when a handler asked for it |
| Interrupts.Interrupt.SetLevel | NachOS/machine/interrupt.cc:133-147 | only enabling interrupts takes time, and leaves nothing due |
| Interrupts.Interrupt.Idle | NachOS/machine/interrupt.cc:219-245 | halts exactly when nothing is pending, else the next interrupt has fired |
| TSQueues.TSQueue.Enqueue | Pthread/NTHU-OS-Pthreads/ts_queue.hpp:69-80 | the item is last, or the queue was full and is unchanged |
| TSQueues.TSQueue.Dequeue | Pthread/NTHU-OS-Pthreads/ts_queue.hpp:83-95 | the first item comes out, or the queue was empty and is unchanged |
| TSQueues.EnqueueRing | Pthread/NTHU-OS-Pthreads/ts_queue.hpp:74-76 | writing at tail and moving it on appends to the ring, around the end too |
| TSQueues.DequeueRing | Pthread/NTHU-OS-Pthreads/ts_queue.hpp:88-90 | moving head on drops the first element |
| PipelineInvariant.InvKept | Pthread/NTHU-OS-Pthreads/consumer.hpp:51-70 | every step of every thread keeps the invariant of the pipeline |
| PipelineRuns.PipelineSafe | Pthread/NTHU-OS-Pthreads/producer.hpp:40-53 | each item read is in exactly one place, and a written one has its key, its opcode and both transforms applied in order |
| PipelineRuns.WriterDone | Pthread/NTHU-OS-Pthreads/writer.hpp:46-57 | when the writer is done every item has been written exactly once |
| Pipelines.EventConserves | Pthread/NTHU-OS-Pthreads/consumer.hpp:46-70 | no step, cancelling included, loses or duplicates an item |
| PipelineWaits.EventWaits | Pthread/NTHU-OS-Pthreads/ts_queue.hpp:68-95 | as long as a thread sleeps on a condition, each item or free place has a woken thread |
| PipelineRuns.ConsumerStays | Pthread/NTHU-OS-Pthreads/consumer_controller.hpp:74-93 | once a consumer has started there is one that is not cancelled |
| PipelineRuns.Progress | Pthread/NTHU-OS-Pthreads/consumer_controller.hpp:74-93 | with more items than the high threshold, itself below the worker queue's capacity, something can move or the next check starts a consumer |
| PipelineFinish.CanFinish | Pthread/NTHU-OS-Pthreads/writer.hpp:46-57 | under the same condition every run can go on until every item has been written exactly once |
| PipelineFinish.StepWorks | Pthread/NTHU-OS-Pthreads/consumer.hpp:46-70 | every productive step of a thread lowers the work that is left by one |
| PipelineFinish.CheckEffect | Pthread/NTHU-OS-Pthreads/consumer_controller.hpp:74-93 | above the high threshold one consumer starts; below the low one the last started is cancelled if there are others; otherwise nothing happens |
| PipelineFinish.CancelledEnds | Pthread/NTHU-OS-Pthreads/consumer.hpp:51-70 | a cancelled consumer is done at its next loop test |
| PipelineFinish.OneMoreItem | Pthread/NTHU-OS-Pthreads/consumer.hpp:51-70 | from the moment it is cancelled a consumer takes at most one more item |
| PipelineRuns.NeverStarts | Pthread/NTHU-OS-Pthreads/consumer_controller.hpp:79-83 | with no more items than the high threshold, or a worker queue that cannot hold more, no consumer starts and nothing is written |
| Multiply.Mult | NachOS/machine/mipssim.cc:771-828 | hi and lo are the exact double-word product, unsigned or signed, the most negative value included |
| Multiply.Loop | NachOS/machine/mipssim.cc:796-813 | the loop multiplies the unsigned values, although it shifts the multiplier arithmetically |
| Multiply.Round | NachOS/machine/mipssim.cc:800-812 | one round keeps sum plus remaining multiplier times shifted multiplicand |
| Unaligned.LwlBytes | NachOS/machine/mipssim.cc:345-360 | LWL puts the low bytes of the word in memory at the top of the register |
| Unaligned.LwrBytes | NachOS/machine/mipssim.cc:398-414 | LWR puts the high bytes of the word in memory at the bottom of the register |
| Unaligned.SwlBytes | NachOS/machine/mipssim.cc:578-599 | SWL puts the high bytes of the register at the bottom of the word in memory |
| Unaligned.SwrBytes | NachOS/machine/mipssim.cc:637-656 | SWR puts the low bytes of the register at the top of the word in memory |
| Unaligned.LoadsWord | NachOS/machine/mipssim.cc:312-418 | LWR at a and LWL at a + 3 make up the word at a, whatever the register held |
| Unaligned.PendingLoadDiffers | NachOS/machine/mipssim.cc:711-718 | with a load of another value pending, the bytes stored are not those of the register |
| Unaligned.ReadBack | NachOS/machine/mipssim.cc:552-668 | a word put at any address is read back from there |
| Unaligned.Machine.StoreUnaligned | NachOS/machine/mipssim.cc:552-668 | exactly the four bytes from a on change, and to the register exactly if the load that arrives in between leaves the high bytes that SWL stores |
| Unaligned.Machine.LoadUnaligned | NachOS/machine/mipssim.cc:312-418 | the register holds the word at a once the delayed load is over, with forwarding; register 0 holds zero |
| Unaligned.Machine.DelayedLoad | NachOS/machine/mipssim.cc:712-718 | the pending value arrives, a new one is pending, and register 0 is zero |
| HashTables.HashTable.Insert | NachOS/lib/hash.cc:110-127 | the map gains the item; the load stays within ResizeRatio, and the table grows exactly when it is full |
| HashTables.HashTable.ReHash | NachOS/lib/hash.cc:136-154 | the same map in a table IncreaseSizeBy times as large |
| HashTables.HashTable.Find | NachOS/lib/hash.cc:167-199 | the item of the key in the map, if there is one |
| HashTables.HashTable.Remove | NachOS/lib/hash.cc:210-223 | the map loses the key, whose item is returned |
| HashTables.AddItem | NachOS/lib/hash.cc:121 | appending to its bucket adds the item to the map the table represents |
| HashTables.DropItem | NachOS/lib/hash.cc:218 | taking an item out of its bucket takes it out of the map |
| HashTables.Visit | NachOS/lib/hash.cc:331-360 | the iterator goes through the items, bucket by bucket, and stops behind the last |
| HashTables.VisitsEach | NachOS/lib/hash.cc:331-360 | those are exactly the items of the map, each once |
| Lists.List.Append | NachOS/lib/list.cc:75-91 | the linked cells hold one item more, at the end, and no item twice |
| Lists.List.RemoveFront | NachOS/lib/list.cc:125-142 | the linked cells hold all but the first item |
| Lists.List.Remove | NachOS/lib/list.cc:151-178 | the linked cells hold all but the item, last pointer included, and the item is listed no more |
| Lists.List.InsertSorted | NachOS/lib/list.cc:234-260 | the item goes behind all that do not come after it |

## Left out

- The missing `return` in the recursive branches of `ByteToSector` is read as returning the recursive result.
- Headers are stored on the disk as typed records, not as their bytes; sectors of data are bytes.
- The three multi-level branches of `Allocate`, `Deallocate` and `ByteToSector` differ in the limit alone and share one method each.
- A header write to sector -1 is a failed device assertion: an outcome of `Allocate`, after which nothing is claimed. A read past the table of NumDirect entries is an outcome of `Deallocate` in the same way.
- Files larger than a four-level header can describe, and negative sizes.
- FileSystems.FileSystem.CreateDirectory: requires room; without it the source goes on to a failed device assertion, or with the table of an allocation that was refused.
- FileSystems.FileSystem.Create: requires that a file with index sectors either fits or fails the free-space test; what happens between is HeaderTree.AllocSoundIff.
- FileSystems.FileSystem.Remove: requires a header of at most two levels; deeper ones are HeaderLookup.DeallocExact.
- Paths through regular files, with empty components or with a trailing slash, and `Remove` of "/".
- FileSystems.FileSystem.WriteFile: opens and writes in one operation; handles kept open across a `Remove` are not part of the model.
- `RecursiveRemove`, `RecursiveList`, `List` and all printing; opening an existing disk without formatting it.
- The fixed sizes of the character buffers for paths; strings are sequences.
- The words of a bitmap are sequences of 32 Booleans; the shifts and masks act on those.
- SynchListProtocol.MonitorSafe: the monitor is a state machine on values, because a Dafny method cannot be interrupted between two statements; the same holds for the disk driver and the pipeline.
- SynchDiskProtocol.DriverSafe: of the lock only its semaphore is modelled; its holder is in SynchListProtocol.
- `Condition::Broadcast`, which nothing modelled here calls.
- Latencies of the disk: any positive number. Handlers of interrupts: any function that only schedules strictly later.
- Interrupts.Interrupt.OneTick: the context switch that a handler asks for is returned to the caller, which is Kernels.Kernel.Yield.
- What a switch does to stacks and user registers, address spaces, fence posts, and memory management.
- PipelineFinish.CanFinish: says that every run can be finished, and StepWorks that productive steps finish it; a fair scheduler is not modelled. Reading the size of a queue without its mutex is one atomic read.
- The values of the two transforms, which are arbitrary functions, and the parsing and printing of items.
- The other instructions of the MIPS interpreter; exceptions of the four modelled ones are the answer false.
- HashTables.HashTable.Insert: a bucket is the list of its items as a value; the linked cells are module Lists.
- Prepending, applying functions to all items, and the self tests and sanity checks of lists and tables.
