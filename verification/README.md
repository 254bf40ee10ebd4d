# TécnicoFS and the message broker, as a Dafny model

The repository holds an in-memory file system (TécnicoFS), a message broker that lets publishers and
subscribers share boxes, the bounded queue between the broker's main thread and its workers, and the
packets and listings its clients exchange with it. This project models the four and proves what they
promise.

- `common/`: sequences, finite sets, bytes, C strings and C ints. `strncpy` and `strncmp` follow
  sections 7.24.2.4 and 7.24.4.4 of ISO/IEC 9899:2018, `qsort` section 7.22.5.2.
- `fs/`: TécnicoFS in three layers. `AbstractFs` is what a caller sees: files by name, handles by number,
  four limits. `FsState` and `FsOperations` are the tables of `fs/state.c` and the calls of
  `fs/operations.c` as values, with the directory's 44-byte entries encoded in the bytes of the root's
  block and all contents in one flat array. `TecnicoFs` is the class with the six arrays and the source's
  loops. The class is proved equal to the tables, and the tables to refine the abstract file system;
  `FsInvariant` is the ownership that carries it: each directory entry names an inode of its own, each
  non-empty inode a block of its own. An `ALWAYS_ASSERT` of the source is a precondition, so every call in
  the model shows that it cannot fire. Names in slots never used hold whatever malloc returned.
  `FsReInit` is about a second `tfs_init`, and `FsCalls` states what each call returns and leaves in bytes and
  numbers.
- `queue/`: `pcq_enqueue` and `pcq_dequeue` as two steps each, one a lock region, under any interleaving.
- `broker/`: the workers of `mbroker.c` as a state machine over lock regions, file and pipe operations,
  over an operating system with named files, descriptors and offsets; and the linked list as nodes and
  next pointers. `BrokerRuns` is about every interleaving, `BrokerProgress` about what the handlers get done.
- `wire/`: request packets and the loop that splits the register pipe, the listing stream, the manager
  that collects, sorts and prints it, and its vector. `WireLayout` has the packets byte by byte.

The public calls of TécnicoFS run under one mutex, so one call is one step. What the library asks of its
callers is stated once, as `AbstractFs.Disciplined`: no unlink of a file with a live handle, no truncation
of a file on which a handle has a nonzero offset, no buffer that makes `to_write + of_offset` wrap. For the
first two, keeping them is proved equivalent to the tables staying consistent.

The broker is modelled under these assumptions: a write to a box file stores all of the packet or none of
it; different box names are different files and nobody else writes them; each counter increment and
decrement is atomic, although increments are made under `messages_lock` and decrements under `wait_mutex`;
a lock region is one step; an unlock after the last decrement touches nothing.

Findings, where the code does less than one might expect:

- The queue is first-in first-out only with at most one enqueue and one dequeue in flight and two slots or
  more (`RingFifo.InOrderExactly`). The broker uses it beyond that for every number of sessions
  (`RingFifo.BrokerQueue`).
- A second `tfs_init` fails, but the tables are read with its parameters from then on. That is harmless exactly
  under the condition of `FsReInit.ReInitExactly`; for instance fewer handles do no harm while the last ones are
  closed, and a smaller block size loses files (`FsReInit.ReInitInputs`).
- `manager create` and `manager remove` do not check the length of the box name, and one of 32 bytes or more is
  copied past the end of the packet (`Protocol.ManagerPacket`).
- The manager prints `NO BOXES FOUND` for a non-empty list whose last box has an empty name
  (`Listing.ListingRoundTrip`), and cannot list more than 71140 boxes (`Listing.CollectsAll`).
- An open that finds no handle has already created or emptied the file (`FsRuns.FailureAtomic`).

## Model
| member | source | states |
|---|---|---|
| FsTheorems.StepRefines | projeto-so-2022-23/fs/operations.c:79-328 | every call (open, close, write, read, unlink) on consistent tables replies exactly as the abstract file system does, and leaves consistent tables standing for the abstract result if and only if the call keeps the discipline (no unlink under a handle, no truncation under a handle with an offset) |
| FsRuns.RunRefines | projeto-so-2022-23/fs/operations.c:79-328 | the same over every disciplined run, call by call, including the bytes reads return |
| FsRuns.EveryRun | projeto-so-2022-23/fs/operations.c:25-328 | from a successful tfs_init on, whatever malloc left in the tables, every disciplined run answers like files by name and handles by number |
| FsTheorems.InitRefines | projeto-so-2022-23/fs/operations.c:25-44 | tfs_init returns 0 exactly when there is an inode and a block for the root, and then there are no files and no handles |
| FsReInit.ReInitExactly | projeto-so-2022-23/fs/state.c:95-100 | a second tfs_init fails but has stored its parameters; the entries the calls may then look at exist and hold the same files and handles if and only if the new limits lie within the allocations, nothing in use lies above them, the directory read at the new block size has the same live entries, and every non-empty file fits the new block size and has its bytes where its block then starts |
| FsReInit.ReInitSameBlockSize | projeto-so-2022-23/fs/state.c:95-100 | with the block size unchanged: if and only if the limits lie within the allocations and nothing in use lies above them |
| FsReInit.ReInitAfterRun | projeto-so-2022-23/fs/state.c:95-100 | the same after any disciplined run from a first tfs_init |
| FsReInit.ReInitInputs | projeto-so-2022-23/fs/state.c:95-100 | a concrete run after which a second tfs_init for fewer handles leaves the file in place and one for blocks of one byte does not |
| FsReInit.MoreHandles | projeto-so-2022-23/fs/state.c:468-480 | with every handle open and one more asked for, the scan for a free entry goes on behind the table |
| FsReInit.StepKeepsRoot | projeto-so-2022-23/fs/operations.c:79-328 | no call moves the root directory to another block |
| FsTheorems.OpenStep | projeto-so-2022-23/fs/operations.c:79-161 | tfs_open, all modes: found and opened, truncated, appended to, created, or refused, as the abstract open; consistent afterwards if and only if no handle is left past the end |
| FsRefinement.CreateRefines | projeto-so-2022-23/fs/operations.c:115-161 | creation takes one inode and the first free slot, and is rolled back when the name or the directory does not allow it; either way it is the abstract creation |
| FsTheorems.UnlinkStep | projeto-so-2022-23/fs/operations.c:286-328 | tfs_unlink removes the file of that name and nothing else, and keeps the tables consistent if and only if no handle is open on it |
| FsRefinement.CloseRefines | projeto-so-2022-23/fs/operations.c:163-184 | tfs_close gives the handle back, and fails on one that is not open |
| FsRefinement.WriteRefines | projeto-so-2022-23/fs/operations.c:186-243 | tfs_write overwrites from the offset on as much as fits the block, extends the file, advances the handle; -1 for a bad handle or when an empty file finds no block |
| FsRefinement.ReadRefines | projeto-so-2022-23/fs/operations.c:245-284 | tfs_read returns the next bytes of the file, as many as asked for or left, and advances the handle by as many |
| FsBlocks.WriteFiles | projeto-so-2022-23/fs/operations.c:204-236 | the copy into the flat data array changes the file that is written and no byte of any other file or of the directory block |
| FsBlocks.TruncateFiles | projeto-so-2022-23/fs/operations.c:104-109 | truncation empties one file and changes no other file nor the directory |
| FsBlocks.WriteKeepsCore | projeto-so-2022-23/fs/operations.c:211-236 | after a write every non-empty inode still owns a TAKEN block of its own and every TAKEN block has an owner |
| FsState.WriteIsLocal | projeto-so-2022-23/fs/state.c:448-454 | a write that stays inside block b leaves every other block as it was, addresses being block times block size in one array |
| FsDirectory.ClearHitsFound | projeto-so-2022-23/fs/state.c:297-318 | clear_dir_entry, which compares names and ignores d_inumber, stops at the very entry find_in_dir finds, even with never-written names in unused slots |
| FsOperations.FindIsNameSlot | projeto-so-2022-23/fs/state.c:391-397 | strncmp over the whole 40-byte field is equality of names for terminated entries, so the search stops at the entry of that name |
| FsOperations.LookupFinds | projeto-so-2022-23/fs/operations.c:68-77 | tfs_lookup returns the inode number the directory maps the name to, that of a deletable file inode, and -1 exactly when there is none |
| FsDirectory.AddEntryMaps | projeto-so-2022-23/fs/state.c:349-357 | filling the first free slot adds one name and one number to the directory and keeps names and numbers distinct |
| FsDirectory.ClearEntryMaps | projeto-so-2022-23/fs/state.c:308-314 | clearing a live slot takes out that name and number only, and keeps the used slots a prefix with empty names in the gaps |
| FsState.StoreEntry | projeto-so-2022-23/fs/state.c:350-355 | storing a 44-byte entry in the bytes of the directory block changes that entry and no other |
| FsState.ClearedEntries | projeto-so-2022-23/fs/state.c:229-231 | the loop of inode_create frees every entry and leaves the name bytes as found |
| FsCounting.Conservation | projeto-so-2022-23/fs/state.c:162-267 | TAKEN inodes are one more than files, TAKEN blocks one more than non-empty files, TAKEN handles the open handles, live directory slots the files |
| FsCounting.FirstFreeFails | projeto-so-2022-23/fs/state.c:410-423 | a first-fit allocator fails exactly when the whole table is TAKEN |
| FsRuns.HandlesOverRun | projeto-so-2022-23/fs/state.c:468-496 | over every disciplined run the TAKEN open-file entries grow by the successful opens and shrink by the successful closes |
| FsRuns.CreationFailsExactly | projeto-so-2022-23/fs/operations.c:115-161 | creating fails exactly for want of an inode, a directory slot, a name that fits or a handle, in numbers of files and handles |
| FsRuns.WriteFailsExactly | projeto-so-2022-23/fs/operations.c:211-223 | writing through an open handle fails exactly when there are bytes to write, the file is empty and non-empty files plus one make up max_block_count |
| FsRuns.FailureAtomic | projeto-so-2022-23/fs/operations.c:79-328 | a call that returns -1 leaves every file and handle as it was, exactly unless it is an open that created or emptied a file and then found no handle |
| FsRuns.FailureKeepsTables | projeto-so-2022-23/fs/operations.c:118-149 | nor does it, with that exception, change an allocation table or an open-file entry, create-then-rollback included |
| FsRoundTrip.ChunkedRoundTrip | projeto-so-2022-23/fs/operations.c:186-284 | whatever is written in chunks through a new file's handle, the return values add up to the first BLOCK_SIZE bytes of the concatenation, and reads of any lengths through a second handle return consecutive pieces of exactly those, then 0 |
| FsRoundTrip.AppendAll | projeto-so-2022-23/fs/operations.c:205-236 | a list of writes at the end of a file leaves what fits of their concatenation, and returns its length in all |
| FsRoundTrip.ReadOn | projeto-so-2022-23/fs/operations.c:262-276 | a list of reads returns consecutive pieces of the rest of the file and leaves the handle behind them |
| FsRoundTrip.PiecesEnd | projeto-so-2022-23/fs/operations.c:262-276 | once earlier reads have asked for everything, a read returns 0 |
| FsCalls.BadPath | projeto-so-2022-23/fs/operations.c:53-55 | a path that is NULL, shorter than two bytes or without '/' in front is refused by open, unlink and lookup with -1, and nothing changes |
| FsCalls.LookupCall | projeto-so-2022-23/fs/operations.c:68-77 | tfs_lookup of '/' and a name is the number of an inode in use other than the root exactly when there is such a file, and different names have different numbers |
| FsCalls.OpenCall | projeto-so-2022-23/fs/operations.c:79-161 | for '/' and a name, per mode: the first unused handle at the end (append), at 0, or on the emptied file (trunc); an empty file under creat unless inodes, the 40-byte name field or the block's 44-byte entries do not allow it; -1 otherwise, and -1 after the fact when no handle is left |
| FsCalls.UnlinkCall | projeto-so-2022-23/fs/operations.c:286-328 | tfs_unlink of '/' and a name returns 0 exactly when there is such a file, and without a live handle on it takes out that file alone |
| FsCalls.CloseCall | projeto-so-2022-23/fs/operations.c:163-184 | 0 exactly for an open handle, which is then the one handle less |
| FsCalls.WriteCall | projeto-so-2022-23/fs/operations.c:186-243 | the file byte by byte after a write: the buffer from the offset on as far as the block goes, the old bytes elsewhere; the handle behind it; -1 exactly for a bad handle or an empty file with every block taken |
| FsCalls.ReadCall | projeto-so-2022-23/fs/operations.c:245-284 | the bytes from the offset on, as many as asked for or left; only the handle moves |
| FsCalls.AppendThenRead | projeto-so-2022-23/fs/operations.c:110-236 | opened for appending and written to, a file is what it was with as much of the buffer behind it as its block takes, as a second handle reads it back |
| FsCalls.TruncateThenRead | projeto-so-2022-23/fs/operations.c:104-109 | opened for truncation, with append or without, a file reads back as nothing |
| FsCalls.AllocatorsTakeFirst | projeto-so-2022-23/fs/state.c:162-480 | inodes, blocks and open-file entries are each taken at the first FREE place, and -1 is returned exactly when all are TAKEN |
| FsCalls.EntryLayout | projeto-so-2022-23/fs/state.h:15-18 | a directory entry is the 40 bytes of its name and the number as four bytes, least significant first |
| TecnicoFileSystem.TecnicoFs.StateInit | projeto-so-2022-23/fs/state.c:95-128 | six tables from malloc, the allocation tables all FREE; on initialised state only the parameters change, and -1 |
| TecnicoFileSystem.TecnicoFs.TfsInit | projeto-so-2022-23/fs/operations.c:25-44 | 0 exactly when the root finds inode and block, and then an empty consistent file system; NULL means the default parameters |
| TecnicoFileSystem.TecnicoFs.InodeAlloc | projeto-so-2022-23/fs/state.c:162-179 | the loop takes the first FREE inode or returns -1 |
| TecnicoFileSystem.TecnicoFs.InodeCreate | projeto-so-2022-23/fs/state.c:198-245 | a file inode of size 0, or a directory with a block of free entries, undone when there is no block |
| TecnicoFileSystem.TecnicoFs.InodeDelete | projeto-so-2022-23/fs/state.c:252-268 | gives back the block of a non-empty inode and the inode, without tripping an assertion |
| TecnicoFileSystem.TecnicoFs.FindInDir | projeto-so-2022-23/fs/state.c:375-401 | the loop over the entry bytes returns the number of the first live entry of that name |
| TecnicoFileSystem.TecnicoFs.AddDirEntry | projeto-so-2022-23/fs/state.c:333-361 | the first entry with d_inumber -1 gets number and padded name; refused for a name of length 0 or over 39, a non-directory, a full directory |
| TecnicoFileSystem.TecnicoFs.ClearDirEntry | projeto-so-2022-23/fs/state.c:297-318 | the first entry of that name gets -1 and a zeroed name |
| TecnicoFileSystem.TecnicoFs.DataBlockAlloc | projeto-so-2022-23/fs/state.c:410-423 | the loop takes the first FREE block or returns -1 |
| TecnicoFileSystem.TecnicoFs.DataBlockGet | projeto-so-2022-23/fs/state.c:448-454 | the position block times block size, with a whole block behind it inside the array |
| TecnicoFileSystem.TecnicoFs.AddToOpenFileTable | projeto-so-2022-23/fs/state.c:468-480 | the first FREE entry gets inode number and offset, or -1 |
| TecnicoFileSystem.TecnicoFs.RemoveFromOpenFileTable | projeto-so-2022-23/fs/state.c:488-496 | the entry becomes FREE |
| TecnicoFileSystem.TecnicoFs.TfsLookup | projeto-so-2022-23/fs/operations.c:68-77 | reads the directory bytes and returns what the directory maps the name to |
| TecnicoFileSystem.TecnicoFs.TfsOpen | projeto-so-2022-23/fs/operations.c:79-161 | on arrays in place: the step of the value model, hence the abstract open's reply and, in the discipline, its result |
| TecnicoFileSystem.TecnicoFs.TfsClose | projeto-so-2022-23/fs/operations.c:163-184 | the same for close |
| TecnicoFileSystem.TecnicoFs.TfsWrite | projeto-so-2022-23/fs/operations.c:186-243 | the same for write, with the size_t comparison and the memcpy into the flat array |
| TecnicoFileSystem.TecnicoFs.TfsRead | projeto-so-2022-23/fs/operations.c:245-284 | the same for read: the caller's buffer holds the bytes returned and is unchanged behind them |
| TecnicoFileSystem.TecnicoFs.TfsUnlink | projeto-so-2022-23/fs/operations.c:286-328 | the same for unlink |
| RingSteps.CountsKept | projeto-so-2022-23/producer-consumer/producer-consumer.c:53-105 | any step of any number of threads keeps size = stored + storing - fetched - fetching, 0 <= size <= capacity, head = stored mod capacity, tail = fetched mod capacity |
| RingRuns.QuiescentGuards | projeto-so-2022-23/producer-consumer/producer-consumer.c:61-92 | with no call in flight the enqueue guard waits exactly when the ring is full and the dequeue guard exactly when it is empty |
| RingRuns.GuardsInCounts | projeto-so-2022-23/producer-consumer/producer-consumer.c:61-92 | with any calls in flight: an enqueue goes on exactly when the count is not the capacity and is 0 or the ends are apart, a dequeue exactly when the count is not 0 and is the capacity or the ends are apart, all in elements stored, storing, fetched and fetching |
| RingRuns.GuardsWithinALap | projeto-so-2022-23/producer-consumer/producer-consumer.c:61-92 | while what is stored fits the buffer, the ends are apart exactly when the buffer is neither empty nor full |
| RingRuns.TransfersInSlots | projeto-so-2022-23/producer-consumer/producer-consumer.c:70-99 | the k-th store fills slot k modulo the capacity and no other, the k-th fetch returns what that slot held and clears it; reserving touches no slot |
| RingRuns.NeverStuck | projeto-so-2022-23/producer-consumer/producer-consumer.c:53-105 | while n enqueues and n dequeues are not all through, one of them can take a step: waiting on the guards never deadlocks |
| RingRuns.AllThrough | projeto-so-2022-23/tests/test_producer_consumer.c:66-69 | n enqueues and n dequeues, in any interleaving, end at size 0 and head = tail = n mod capacity |
| RingRuns.OneEachAlways | projeto-so-2022-23/producer-consumer/producer-consumer.c:53-105 | with two slots or more and at most one enqueue and one dequeue in flight, no unread element is stored over and no unwritten slot is fetched |
| RingFifo.InOrderExactly | projeto-so-2022-23/producer-consumer/producer-consumer.c:53-105 | elements come out in the order they were stored in every run, if and only if no enqueue or no dequeue is allowed in flight, or at most one of each and capacity >= 2 |
| RingFifo.SingleSlot | projeto-so-2022-23/producer-consumer/producer-consumer.c:53-105 | a run with capacity 1 and one thread on each side whose first element returned is the second one stored |
| RingFifo.TwoDequeues | projeto-so-2022-23/producer-consumer/producer-consumer.c:86-99 | a run in which two elements are returned and one was stored: the second is what malloc left in the slot |
| RingFifo.TwoEnqueues | projeto-so-2022-23/producer-consumer/producer-consumer.c:53-74 | a run in which two enqueues store while a dequeue is in flight, and the first element returned is not the first stored but the one stored over it |
| RingFifo.BrokerQueue | projeto-so-2022-23/mbroker/mbroker.c:64-83 | the broker's use of the queue, one enqueuer and as many dequeuers as slots, is outside these limits for every number of sessions |
| RingFifo.OneProducerOneConsumer | projeto-so-2022-23/producer-consumer/producer-consumer.c:53-105 | what a single consumer has got is a prefix of what a single producer has handed in, call by call |
| PcQueues.PcQueue.Create | projeto-so-2022-23/producer-consumer/producer-consumer.c:4-26 | an empty ring over a buffer of arbitrary contents |
| PcQueues.PcQueue.EnqueueReserve | projeto-so-2022-23/producer-consumer/producer-consumer.c:55-67 | waits exactly under the guard of the source, and otherwise counts the element |
| PcQueues.PcQueue.EnqueueTransfer | projeto-so-2022-23/producer-consumer/producer-consumer.c:70-74 | stores at head and moves head on, modulo the capacity |
| PcQueues.PcQueue.DequeueReserve | projeto-so-2022-23/producer-consumer/producer-consumer.c:86-92 | waits exactly under the guard of the source, and otherwise uncounts an element |
| PcQueues.PcQueue.DequeueTransfer | projeto-so-2022-23/producer-consumer/producer-consumer.c:94-99 | returns the slot at tail, clears it and moves tail on |
| PcQueues.UninterruptedEnqueue | projeto-so-2022-23/producer-consumer/producer-consumer.c:53-81 | a call nobody interrupts appends, and waits exactly on a full ring |
| PcQueues.UninterruptedDequeue | projeto-so-2022-23/producer-consumer/producer-consumer.c:83-105 | a call nobody interrupts takes the first element, and waits exactly on an empty ring |
| BrokerInvariant.StepKeeps | projeto-so-2022-23/mbroker/mbroker.c:167-322 | each of the twelve steps of the handlers keeps everything below |
| BrokerInvariant.InvRunnable | projeto-so-2022-23/mbroker/mbroker.c:167-322 | every box pointer a handler follows is in the list and every descriptor it uses is open: no removed box is used |
| BrokerRuns.CountersAlways | projeto-so-2022-23/mbroker/mbroker.c:173-182 | in every run a live session's box is in the list, publishers is its live publishing sessions and at most 1, subscribers its live subscribing sessions, and over all boxes they add up to the busy workers |
| BrokerRuns.DeliveredIsPrefix | projeto-so-2022-23/mbroker/mbroker.c:223-246 | in every run what a subscriber has been given is the beginning of its box's log, relabelled, and no more than size announces, which is no more than what is written |
| BrokerRuns.ReadIsWhole | projeto-so-2022-23/mbroker/mbroker.c:226-237 | in every run the read after the wait returns a whole packet, the next of the log: neither rread == 0 nor a short read happens, even on a file that held old bytes |
| BrokerRuns.WaitsWhenCaughtUp | projeto-so-2022-23/mbroker/mbroker.c:228-230 | a subscriber waits exactly when it has been given everything announced |
| BrokerRuns.SizeFollowsLog | projeto-so-2022-23/mbroker/mbroker.c:195-197 | size is the packet size times the log's length, but for one packet stored by a publisher that has not yet announced it; the file begins with the log |
| BrokerRuns.LogIsContributions | projeto-so-2022-23/mbroker/mbroker.c:185-198 | in every run a box's log is its publisher sessions' contributions in attach order, without interleaving, each the beginning of what the session's own pipe yielded; each handler reads and stores for its own session |
| BrokerRuns.PublisherOwnsLastSession | projeto-so-2022-23/mbroker/mbroker.c:173-202 | in every run a publishing handler's session is the last its box has had, no other handler publishes there, and unless it is leaving, everything read from its pipe but the packet in hand is stored |
| BrokerRuns.StoringForSession | projeto-so-2022-23/mbroker/mbroker.c:195-195 | a packet stored for a session keeps the log in attach order if and only if it commutes with what later sessions have stored, which is why the exclusion matters |
| BrokerRuns.DeliveredFromPublishers | projeto-so-2022-23/mbroker/mbroker.c:185-246 | in every run what a subscriber has been given is the beginning, relabelled, of the publishers' contributions put together |
| BrokerRuns.CreatesAndRemovesAlternate | projeto-so-2022-23/mbroker/mbroker.c:258-309 | in every run, per name, creates and removes that changed the list alternate beginning with a create, the last is a create exactly when the box exists, and reply codes are 0 exactly for these |
| BrokerRuns.ReplyTellsChange | projeto-so-2022-23/mbroker/mbroker.c:258-309 | a free worker serves every create and remove; the answer is 0 when it changed the list and -1 when not, and no session notices |
| BrokerRuns.RecreatedIsEmpty | projeto-so-2022-23/mbroker/mbroker.c:357-371 | a box created again after a remove starts with an empty log, size 0 and an empty file |
| BrokerRuns.PacketAhead | projeto-so-2022-23/mbroker/mbroker.c:226-231 | in every run a subscriber past the wait has at least a whole announced packet ahead |
| BrokerRuns.StoreIsLocal | projeto-so-2022-23/mbroker/mbroker.c:195-195 | in every run a packet is written behind the log in its box's file and into no other box's file, or not at all |
| BrokerRuns.RemoveIsExact | projeto-so-2022-23/mbroker/mbroker.c:290-299 | in every run a box leaves the list exactly on a remove of its name that finds it in no session; the others stay in order and no file changes |
| BrokerRuns.CreateAppends | projeto-so-2022-23/mbroker/mbroker.c:357-382 | in every run a create for a name without a box puts one at the end of the list, without packets and sessions, and leaves what its file holds; any other create changes nothing |
| BrokerProgress.PublisherTurn | projeto-so-2022-23/mbroker/mbroker.c:186-198 | read, write and announcement of a 1025-byte message of code 9 can be done on an open file, add exactly it to the log and 1025 to size, and leave the handler reading |
| BrokerProgress.PublisherTurns | projeto-so-2022-23/mbroker/mbroker.c:186-198 | with any number of messages in front of any input, as many turns can be taken, and the log grows by exactly these, in order |
| BrokerProgress.PublisherEnds | projeto-so-2022-23/mbroker/mbroker.c:187-201 | at the end of the input, and at any other read, the handler leaves with nothing stored and one publisher less |
| BrokerProgress.StoreFails | projeto-so-2022-23/mbroker/mbroker.c:195-201 | a failed write, and a file that did not open, end the session with log and files as they were |
| BrokerProgress.PublisherBegins | projeto-so-2022-23/mbroker/mbroker.c:173-182 | refused exactly when no box has the name or somebody publishes to it; otherwise a new session with nothing read |
| BrokerProgress.PublisherSession | projeto-so-2022-23/mbroker/mbroker.c:167-202 | from registration to leaving: the leading messages of the input, all of them and no more, are behind the box's log and announced, and the worker is free again |
| BrokerProgress.SubscriberRound | projeto-so-2022-23/mbroker/mbroker.c:226-246 | before everything announced is sent, wait, read and write can be done, give the pipe exactly the next packet of the log with 10 as its first byte, and leave the handler waiting 1025 bytes further on; nothing else changes |
| BrokerProgress.SubscriberRounds | projeto-so-2022-23/mbroker/mbroker.c:226-246 | with 1025 times m announced, rounds can go on until exactly the first m packets of the log are sent, and then the handler has to wait |
| BrokerProgress.SubscriberEnds | projeto-so-2022-23/mbroker/mbroker.c:240-250 | a failed write to the pipe gives nothing and ends the session with one subscriber less |
| BrokerProgress.SubscriberBegins | projeto-so-2022-23/mbroker/mbroker.c:211-221 | refused exactly without a box of the name or its file; otherwise waiting at position 0 with nothing sent |
| BrokerProgress.PublishedIsDelivered | projeto-so-2022-23/mbroker/mbroker.c:167-250 | a publisher's session followed by the rounds of a waiting subscriber gives its pipe the whole log, the newly published messages last |
| BrokerProgress.SubscriberSession | projeto-so-2022-23/mbroker/mbroker.c:204-246 | a subscriber that registers is given every packet announced so far, from the first |
| BoxList.MessageBoxes.GetMsgBox | projeto-so-2022-23/mbroker/mbroker.c:407-416 | walks the pointers to the first node of that name, or NULL |
| BoxList.MessageBoxes.AddMsgBox | projeto-so-2022-23/mbroker/mbroker.c:357-382 | a fresh node is linked behind the last; the others stay, in order |
| BoxList.MessageBoxes.RemoveMsgBox | projeto-so-2022-23/mbroker/mbroker.c:384-405 | unlinks the first node of that name and no other, order kept, no cycle |
| BoxList.MessageBoxes.Create | projeto-so-2022-23/mbroker/mbroker.c:259-265 | adds a box exactly when there is none of the name; names stay distinct |
| BoxList.MessageBoxes.Remove | projeto-so-2022-23/mbroker/mbroker.c:290-299 | removes the box exactly when nobody uses it |
| BoxList.MessageBoxes.RegisterPublisher | projeto-so-2022-23/mbroker/mbroker.c:175-181 | turned away exactly without a box or with a publisher there, and otherwise the only publisher |
| BoxList.MessageBoxes.RegisterSubscriber | projeto-so-2022-23/mbroker/mbroker.c:213-220 | one subscriber more, unless there is no box or its file does not open |
| BoxList.MessageBoxes.AnnouncePacket | projeto-so-2022-23/mbroker/mbroker.c:197-197 | the box's size grows by a packet; no other box changes |
| BoxList.MessageBoxes.LeavePublisher | projeto-so-2022-23/mbroker/mbroker.c:200-201 | one publisher less in that box |
| BoxList.MessageBoxes.LeaveSubscriber | projeto-so-2022-23/mbroker/mbroker.c:248-249 | one subscriber less in that box |
| BoxTable.CreateTable | projeto-so-2022-23/mbroker/mbroker.c:258-265 | the state machine's create is the list's create |
| BoxTable.RemoveTable | projeto-so-2022-23/mbroker/mbroker.c:290-299 | the state machine's remove is the list's remove |
| BoxTable.AttachTable | projeto-so-2022-23/mbroker/mbroker.c:175-221 | the state machine's registrations are the list's |
| BoxTable.AnnounceTable | projeto-so-2022-23/mbroker/mbroker.c:196-198 | the state machine's announcement is the list's |
| BoxTable.UnpublishTable | projeto-so-2022-23/mbroker/mbroker.c:200-201 | the state machine's end of a publisher is the list's |
| BoxTable.UnsubscribeTable | projeto-so-2022-23/mbroker/mbroker.c:248-249 | the state machine's end of a subscriber is the list's |
| BoxTable.DropIs | projeto-so-2022-23/mbroker/mbroker.c:290-299 | with distinct names a remove takes out exactly the box of that name if nobody uses it |
| WireLayout.RequestLayout | projeto-so-2022-23/protocol/protocol.c:25-59 | a request on a box is 289 bytes: 1, 2, 3 or 5 by kind, the pipe's name from byte 1, the box's from byte 257, NULs behind both |
| WireLayout.ListRequestLayout | projeto-so-2022-23/protocol/protocol.h:48-51 | a list request is 257 bytes, 7 and the pipe's name |
| WireLayout.DecodedKind | projeto-so-2022-23/mbroker/mbroker.c:145-165 | of the ids with a layout, 1, 2, 3, 5 and 7 are requests, each of its kind, and 4, 6, 8, 9 and 10 are none |
| WireLayout.ListLayout | projeto-so-2022-23/mbroker/mbroker.c:342-350 | packet k of a listing is 58 bytes: 8, 1 for the last and 0 for the others, the name from byte 2, and at bytes 34, 42 and 50 size, publishers and subscribers of box k as 64-bit numbers, least significant byte first |
| WireLayout.NoBoxesLayout | projeto-so-2022-23/mbroker/mbroker.c:333-340 | without boxes: 8, 1, and 32 NULs for a name |
| WireLayout.BehindTheName | projeto-so-2022-23/mbroker/mbroker.c:342-343 | behind a name and its NUL stand the bytes the packet before had there |
| WireLayout.ManagerOutcome | projeto-so-2022-23/manager/manager.c:237-273 | for every stream of bytes, by the first packet with a nonzero second byte: full at 71140 packets, disconnected between packets, an error inside one, NO BOXES FOUND when its third byte is 0, and otherwise the sorted rows of all up to it |
| Protocol.IdSizeLookup | projeto-so-2022-23/protocol/protocol.c:4-22 | the packed size of each of the ten layouts, and -1 for every other id |
| Protocol.WritePacket | projeto-so-2022-23/protocol/protocol.c:25-59 | memset, code and two strcpy, for names of any length: both copies stay inside the packet if and only if the pipe's name has at most 287 bytes and the box's at most 31, and then leave these bytes |
| Protocol.WrittenIsEncode | projeto-so-2022-23/protocol/protocol.c:25-59 | names that fit their fields leave both padded with NULs |
| Protocol.ReadBackExactly | projeto-so-2022-23/protocol/protocol.h:23-29 | while the copies stay inside, a handler reads both names back if and only if the pipe's name fits its field or runs over into exactly the box's name |
| Protocol.ManagerPacket | projeto-so-2022-23/manager/manager.c:68-99 | with the pipe's name checked and the box's not, the manager's packet is good exactly for box names below 32 bytes, and one of 32 bytes makes the copy leave it |
| Protocol.DecodeEncode | projeto-so-2022-23/protocol/protocol.h:27-36 | a handler reads the kind and the names that were written |
| Protocol.ReadRequests | projeto-so-2022-23/mbroker/mbroker.c:85-106 | the broker's read-id-then-body loop, with where it waits and its two panics |
| Protocol.FramesExactly | projeto-so-2022-23/mbroker/mbroker.c:85-106 | the loop splits a byte stream into these packets with nothing left if and only if it is their concatenation |
| Protocol.FramesPrefix | projeto-so-2022-23/mbroker/mbroker.c:85-106 | wherever the loop stops, what came before is the packets handed on, and what is left is nothing or a lone id to wait behind, or begins with an illegal id, or is a body cut short |
| Protocol.FramingRoundTrip | projeto-so-2022-23/mbroker/mbroker.c:85-106 | every list of requests whose names fit is recovered, in order, leaving no bytes |
| Listing.SendList | projeto-so-2022-23/mbroker/mbroker.c:324-351 | the loop over the linked list sends one packet a box, reusing one name buffer, or one nameless packet |
| Listing.OneLast | projeto-so-2022-23/mbroker/mbroker.c:342-350 | exactly the final packet is marked last, and each reads back as its box |
| Listing.ExecuteCommandList | projeto-so-2022-23/manager/manager.c:234-273 | the receive loop with its vector, sort and print, and every way it ends early |
| Listing.CollectsAll | projeto-so-2022-23/manager/manager.c:237-262 | the manager collects exactly the boxes sent, up to 71140 of them, and panics beyond |
| Listing.ListingRoundTrip | projeto-so-2022-23/manager/manager.c:257-273 | the output is the boxes sorted, and NO BOXES FOUND exactly for the empty list or one whose last box has an empty name |
| Listing.PrintedOrder | projeto-so-2022-23/manager/manager.c:264-273 | with distinct names the lines are the one strictly name-ordered permutation of the boxes |
| Sorting.StrCmpIsDictionary | projeto-so-2022-23/manager/manager.c:39-43 | msg_cmp_func is negative exactly when the first name comes first in dictionary order of its bytes |
| Sorting.SortInPlace | projeto-so-2022-23/utils/vector.c:30-34 | sorts the array in place, leaving the slots behind alone |
| Sorting.SortRowsSorts | projeto-so-2022-23/utils/vector.c:30-34 | the result is a permutation in order |
| Sorting.OneStrictOrder | projeto-so-2022-23/utils/vector.c:30-34 | rows have only one strict order |
| Vectors.Vector.Push | projeto-so-2022-23/utils/vector.c:11-28 | appends, reallocating exactly when full, and panics exactly when that would pass the limit |
| Vectors.CopiesAreLinear | projeto-so-2022-23/utils/vector.c:14-26 | n pushes copy at most 4n elements, from any initial capacity |
| Vectors.GrownMore | projeto-so-2022-23/utils/vector.c:14-26 | a reallocation happens exactly on a full vector, by half and at least one, and copies all of it |
| Vectors.LimitFromFive | projeto-so-2022-23/manager/manager.c:234-241 | from five slots exactly the first 71140 pushes stay under the limit |

## Left out
- Named pipes, signals, fork, poll, standard input and output, usage texts, logging and the `main` functions of `pub.c` and `sub.c`: a pipe is the sequence of what its reads yield.
- Condition variables: waiting is a guard tried again. The ring signals under another mutex than its waiters hold, so a wake-up can be lost; only safety and the absence of a deadlock on the guards are claimed. That an idle subscriber does not notice a closed pipe is not modelled either.
- Mutex and condition-variable creation and destruction, malloc failure, weak memory order.
- Reading `pcq_head` and `pcq_tail` in a guard while another thread moves them: a lock region is one step.
- Counters of a box at the granularity of a load and a store.
- What a call does once a limit of a second `tfs_init` lies above a table's allocation, beyond the scan of `FsReInit.MoreHandles`: such limits count as broken whether or not a run reaches that far.
- Handles after an unlink or truncation of their file: outside the discipline. That the tables are then inconsistent is proved, what later calls would do is not.
- `tfs_destroy`, `pcq_destroy` and `vector_destory`.
- `insert_delay`, `touch_all_memory`, and the functions declared but not defined (`tfs_sym_link`, `tfs_link`, `tfs_copy_from_external_fs`).
- The texts of error messages in create and remove replies, and their packets: only the reply code is modelled.
- The listing read by `list` while other threads change counters: the rows are those of one moment.
- What a `strcpy` past the end of a packet does to the bytes behind it; `pub` and `sub` check both names, the manager only the pipe's. A box name that fills its field in a request is read up to the packet's end here, and may be read further by the broker.
- Opening the client's pipe: a handler whose open fails does nothing, so such a request is no step.
- Sorting.SortRows: for rows of equal names qsort promises no order; this sort keeps the order they came in.
- BoxList.MessageBoxes.AddMsgBox: the file behind a box is in the state machine; here only the descriptor is stored.
