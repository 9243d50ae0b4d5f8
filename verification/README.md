# SpongeBob: a verified model of the data path

SpongeBob is a distributed file store. A metadata server keeps one directory, an inode table and one
block allocator for each storage server. A client asks it where a byte range of a file lives, gets a
list of extents back, and moves the bytes itself with RDMA operations on the memory of the storage
servers. This project models that path in Dafny, from the allocators up to the client's copy loops, and
proves that the whole of it behaves like a map from file names to flat byte arrays.

The main results:

- **Refinement** (`Cluster.RunRefines`). In every run of create, write, read, remove and register requests,
  each step of the whole system (directory, inodes, allocators, server memory, client loops) is a step of
  a map from name to (flat bytes, size). A read returns exactly the bytes of
  `[off, min(off + len, size))`. Here a client's call, request and copies together, is one step.
- **Interleaved clients** (`HeldReplies.RunRefinesPieces`, `ReplyRuns.WriteCompletes`). With requests and the
  copies of single extents of all clients interleaved in any order, the invariant still holds, a copy through
  a reply whose file has not been removed moves exactly its piece of that file, and a client that has moved its
  last extent has its data in the file. A reply that outlives its file can damage another file; the exact
  condition is `ReplyRuns.StaleStoreIff`.
- **Ownership** (`Ownership.Inv`). In every reachable state each block of each server is held by at most
  one position of one inode, a block is in use exactly if it is so held, free and used blocks add up, and
  directory entries and inodes are in bijection. Where a handler can break this, the exact condition is
  proved.
- **Transfers** (`Transfers.InterleavingsAgree`, `Transfers.LargeTransfer`). Every interleaving of the
  worker threads of a large transfer ends with the same bytes, never gets stuck, terminates, and leaves no
  pointer to the caller's stack behind. The steps go down to the halves of a push and a pop on the
  polling queues.
- **Protocols**. The polling queue, the selective signalling of batched requests, and the assignment of
  node ids, each over all interleavings or all runs.

## How the model is laid out

| file | models |
|---|---|
| `Blocks.dfy`, `MinHeap.dfy` | block size, bytes, min-first free lists, key order of `std::map` |
| `SpaceManager.dfy` | `src/fs/spacemanager.cpp` |
| `File.dfy` | `src/fs/file.cpp`, `include/file.hpp` |
| `Extents.dfy` | the arithmetic of extent lists |
| `MetaServer.dfy` | `src/metadata/MetaServer.cpp`: the handlers, each proved equal to a function on values |
| `Ownership.dfy` | the invariant of the metadata server, and when each handler keeps it or can run |
| `Storage.dfy` | server memory, and what storing or loading through an extent list does to a file |
| `Cluster.dfy` | the whole system and its refinement of flat files |
| `HeldReplies.dfy`, `ReplyRuns.dfy` | requests taken apart into the server's answer and the client's copies |
| `RdmaSocket.dfy`, `Client.dfy` | the transfer methods and the client's `read` and `write` |
| `Transfers.dfy` | the interleaving of caller and workers in a large transfer |
| `PollingQueue.dfy`, `BatchPosting.dfy`, `Handshake.dfy` | queue, selective signalling, node ids |

A class of the repository is a class here, and its methods have the same loops and branches. The
specification of each method is a function on the abstract state (`State()`), and the lemmas are about those
functions.

## Modelling decisions

- A request to the metadata server is one atomic step. In the module `Cluster` the client's copy loop belongs to
  the same step; in `HeldReplies` the copy of each extent is a step of its own, and `ReplyRuns.WriteIsPieces` and
  `ReplyRuns.ReadIsPieces` show that the former are runs of the latter.
- `rand()` becomes the parameter `rolls`: any sequence of numbers, one for each
  new block.
- `std::hash` is a field of `FileName`. The directory is keyed by it, as in the code, so two names are the same
  file exactly when their hashes are equal.
- A priority queue is a multiset with a least element, so a block that is given back twice would be seen.
- `x & FILE_BLOCK_MASK` is written as a remainder (`Blocks.MaskIsRemainder`), and `(x + n) & ~(n - 1)` as
  rounding to a multiple of n, a power of two.
- Integers are unbounded. Where the code could leave 64 bits or an `int`, the bound is a precondition
  (`MetaServer.Representable`, `RdmaSockets.SharesFitInt`) or the wrap is written out (`Wrap64`,
  `MetaServer.ReadLength`, `Decrement`, the one-byte counter of the queue, the 16-bit `transferSignal`).
- `push_back`, `front` and `erase` on the vector of a polling queue are atomic, although the queue takes no lock
  (`include/queue.h:34-50`); all their interleavings with the changes of the counter are covered.
- An RDMA operation is a copy that is complete when its completion has been polled, and a poll returns the
  worker's own completion.
- A file in the specification has a backing array and a visible size. Bytes past the size can become visible
  again by a later write, and the bytes of new blocks are unspecified.

## Where the code and its intent differ

Each of these is kept as the code has it, and the exact condition is proved.

- `Client::read` and `Client::write` pass `user_buf` without the extent's `buff_offset`
  (`src/client/Client.cpp:28`, `src/client/Client.cpp:54`). Storing or loading is right for all buffers exactly
  when the request stays inside one block (`Storage.UnshiftedStoreIff`, `Storage.UnshiftedLoadIff`).
  The parameter `shifted` selects the client: `false` is the repository's, `true` adds the offset.
  `Cluster.RunRefines` covers the shifted client on all requests and the other one inside one block.
- `CreateFile` enters a name even when no inode is left (`src/metadata/MetaServer.cpp:249`):
  `Ownership.CreateInv`.
- `AllocateOneBlock` does not look whether the heap is empty (`src/fs/spacemanager.cpp:53`):
  `Ownership.WriteRuns` says exactly when a write is safe whatever `rand()` returns.
- `WriteFile` sets the size to the end of the latest write, even when that shrinks the file
  (`src/metadata/MetaServer.cpp:219`): `Cluster.WriteShrinksIff`.
- `ReadFile` uses the entry before it checks that there is one, adds offset and length in 64 bits, and subtracts
  the offset from the size unsigned (`src/metadata/MetaServer.cpp:82`, `src/metadata/MetaServer.cpp:92-94`). The
  length it settles on, wrap included, is `MetaServer.ReadLength`; `Ownership.ReadRuns` says exactly when every
  block it then looks up exists.
- A reply stays usable after its file is removed: the client still writes to the blocks, which may belong to
  another file by then. `ReplyRuns.StaleStoreCorrupts` is a run in which that happens, and
  `ReplyRuns.StaleStoreIff` the condition.
- `RegisterMemoryRegion` replaces the manager of a node that registers again: `Ownership.RegisterInv`. A region
  that ends before the first block boundary makes the byte count wrap: `Ownership.RegisterOverflows`, `SpaceManagers.BlocksInsideIff`.
- `ResetSpaceRange` refills the free list but keeps the in-use set: `SpaceManagers.ResetKeepsSpaceOk`.
- With two workers a large transfer drops the last `size mod 8192` bytes: `RdmaSockets.TransferredWhole`. The
  metadata server never sends an extent that long (`Clients.ExtentsTakeOneChunk`).
- The queue's counter is one byte, so 256 pending items look like none: `PollingQueues.WaitsIff`,
  `PollingQueues.Overlooked`.
- A client whose handshake fails before server 1 has read its answer keeps an id that is announced again
  (`Handshake.AnnouncedTwice`). `Handshake.ToldIff` says when the id a client was told is its own.

## Model

| member | source | states |
|---|---|---|
| Cluster.RunRefines | src/metadata/MetaServer.cpp:69-359 | In every run of create, write, read, remove and register requests from the empty system, each client call one step, the invariant holds in every state and every step is a step of the map from name to flat file; for the client that adds the buffer offset on all requests, for the one in the repository on requests inside one block |
| Cluster.StepRefines | src/metadata/MetaServer.cpp:69-359 | One request of any kind, together with the client's copies, keeps the system invariant and is a step of the flat files |
| Cluster.StepExists | src/metadata/MetaServer.cpp:106-132 | Every enabled request can be carried out: no extent of a reply leaves the memory of its server or the buffer |
| Cluster.RunInvariant | src/metadata/MetaServer.cpp:44-51 | Every state of every run satisfies the ownership invariant and has every block inside its server's memory |
| Cluster.WriteRefines | src/metadata/MetaServer.cpp:137-222 | A write through server and client leaves the backing as long as it is if it ends inside it, else lengthens it to the end of the block of the last byte written; it replaces exactly the range written, sets the size to its end, and leaves the other files alone |
| Cluster.GrowRefines | src/metadata/MetaServer.cpp:165-185 | Growing a file appends unspecified bytes to its backing, keeps its size, and leaves the other files alone |
| Cluster.StoreRefines | src/client/Client.cpp:41-65 | Storing the buffer through the reply and recording the write replaces exactly [off, off + len) of the file and nothing else in any file |
| Cluster.ReadRefines | src/metadata/MetaServer.cpp:69-135 | The bytes that arrive in the buffer are those of [off, min(off + len, size)) of the file; the rest of the buffer stays |
| Cluster.ReplyIsClipped | src/metadata/MetaServer.cpp:92-98 | In a reachable state the length that ReadFile computes is that of the bytes of the request that the file has |
| Cluster.CreateRefines | src/metadata/MetaServer.cpp:224-253 | Creation adds an empty file, or nothing when the name has an entry |
| Cluster.CreatesAgreeIff | src/metadata/MetaServer.cpp:232-250 | In every run two creates, with no removal of the first file between them, reply the same number exactly when their names have the same hash, and never the root's |
| Cluster.NumberStays | src/metadata/MetaServer.cpp:232-250 | The number that a create replied stays the number of the file's entry until the file is removed |
| Cluster.StepKeepsEntry | src/metadata/MetaServer.cpp:137-371 | Whatever is asked but its removal, a directory entry stays as it is |
| Cluster.RemoveRefines | src/metadata/MetaServer.cpp:333-359 | Removal takes exactly one file away, leaves the bytes of the others, and reports success exactly when there was one |
| Cluster.RegisterRefines | src/metadata/MetaServer.cpp:255-265 | Registering a node changes no file |
| Cluster.RegisterKeepsMemory | src/metadata/MetaServer.cpp:255-265 | Every block the new manager can hand out lies in the region that was registered |
| Cluster.BlocksInMemory | src/metadata/MetaServer.cpp:181-182 | In a reachable state every block of every file starts at block_nr times the block size and ends inside its server's registered memory |
| Cluster.WriteThenRead | src/client/Client.cpp:17-65 | Reading the range just written returns the data written, also when the write created or enlarged the file |
| Cluster.WriteLeavesRest | src/client/Client.cpp:41-65 | A write leaves every other file as it is, and in its own file every byte that was backed before and lies outside the range, also when it allocates or shrinks |
| Cluster.WriteShrinksIff | src/metadata/MetaServer.cpp:219 | A write shrinks its file exactly when it ends before the file did, and the bytes that this hides stay in the backing |
| Cluster.OneBlockNext | src/client/Client.cpp:17-65 | On a request inside one block the client as written takes a step of the client that adds the buffer offset |
| Cluster.InodesDisjoint | src/metadata/MetaServer.cpp:181-182 | The block lists of two inodes share no block |
| HeldReplies.RunRefinesPieces | src/client/Client.cpp:17-65 | In every run, with the requests and the copies of single extents of all clients interleaved in any order, the invariant holds in every state; a write request only makes room and sets the size; a copy through a reply whose file has not been removed moves just its piece of that file |
| HeldReplies.StepRefines | src/client/Client.cpp:22-62 | Every such step keeps the invariant, among it that the extents of a reply still lie in the blocks of its file unless that was removed |
| HeldReplies.AskWriteRefines | src/metadata/MetaServer.cpp:137-222 | The server's part of a write lengthens the backing to the end of the block of the last byte if it must, and not otherwise, sets the size, changes no byte of any file, and leaves every reply held as good as it was |
| HeldReplies.StoreMoved | src/client/Client.cpp:54 | A store through a reply that is up to date changes its own file only, and there only the bytes of its piece |
| HeldReplies.LoadMoved | src/client/Client.cpp:28 | A load through a reply that is up to date yields the bytes of its piece of the file |
| HeldReplies.ReplyPieces | src/metadata/MetaServer.cpp:100-217 | Each extent of an answer lies in its file at the offset of the request plus its buffer offset |
| HeldReplies.RunInv | src/client/Client.cpp:17-65 | The invariant holds in every state of every interleaved run, also when stores go through replies that are out of date |
| ReplyRuns.WriteCompletes | src/client/Client.cpp:41-65 | A client that has moved its last extent has its data in the file, whatever other clients did between its copies, if none removed the file, stored into it, or stored through a reply that was out of date |
| ReplyRuns.StaleStoreIff | src/client/Client.cpp:54 | A store into a block, through whatever reply, leaves every file as it is for all data exactly when the block is not in use |
| ReplyRuns.StaleStoreCorrupts | src/metadata/MetaServer.cpp:333-359 | A run in which a store through the reply for a removed file changes a byte of another client's file |
| ReplyRuns.WriteIsPieces | src/client/Client.cpp:41-65 | A write in one step is the server's answer followed by the client's copies, one extent at a time |
| ReplyRuns.ReadIsPieces | src/client/Client.cpp:17-39 | A read in one step is the server's answer followed by the client's copies, with the same buffer at the end |
| Ownership.InitialInv | src/fs/file.cpp:61-70 | The empty server satisfies the invariant |
| Ownership.CreateInv | src/metadata/MetaServer.cpp:224-253 | Creating a file keeps the invariant exactly when the name has an entry or the inode table has room |
| Ownership.CreateReplies | src/metadata/MetaServer.cpp:232-250 | The number replied: the entry's own if there is an entry, and nothing changes; else the least unused number, or total + 1 on a full table, and the directory gains just an entry with the name and that number |
| Ownership.CreatedInode | src/metadata/MetaServer.cpp:240-245 | Under a new number there is an empty inode of the kind asked for, none when the table is full; every other file and every manager stays |
| Ownership.CreateAgain | src/metadata/MetaServer.cpp:233-239 | A second create of the name replies the same number and changes nothing |
| Ownership.GrowOneAddsHolder | src/metadata/MetaServer.cpp:173-182 | Growing a file by a block adds exactly one block in use and one holder of it: the file's new last position, for a block that was free |
| Ownership.GrowInv | src/metadata/MetaServer.cpp:165-185 | Growing a file keeps the invariant, whatever servers are drawn |
| Ownership.RecordInv | src/metadata/MetaServer.cpp:187-219 | Recording a write in an inode large enough for it keeps the invariant, among it size <= number of blocks times block size |
| Ownership.WriteInv | src/metadata/MetaServer.cpp:137-222 | WriteFile keeps the invariant, whichever servers its blocks come from |
| Ownership.WriteBlockCount | src/metadata/MetaServer.cpp:161-185 | With b blocks before and a after: a = b if the write ends inside the b blocks; else a blocks are just enough to hold the last byte written |
| Ownership.WriteDirectory | src/metadata/MetaServer.cpp:149-155 | A write enters its name as a regular file if it has no entry, leaves the directory else, changes the inode only in size and blocks, and sets the size to its end |
| Ownership.WriteLengths | src/metadata/MetaServer.cpp:182-217 | What a write records as the length of each block: nothing for a block it does not touch, the bytes added for one it enters in the middle, the bytes written for one it enters at its start; new blocks start at 0 |
| Ownership.ReclaimInodeExact | src/fs/spacemanager.cpp:62-87 | A manager gets back exactly the blocks it issued to the inode, each once, and stays consistent |
| Ownership.RemoveHolds | src/metadata/MetaServer.cpp:351-355 | After a removal the holders are those of the other inodes, and in use is exactly what they hold |
| Ownership.RemoveInv | src/metadata/MetaServer.cpp:333-359 | Removal keeps the invariant, succeeds exactly when the name has an entry, frees exactly the blocks of the file, and leaves neither entry nor inode |
| Ownership.DirectoryGains | src/metadata/MetaServer.cpp:240-250 | A new inode with an entry under a new hash keeps entries and inodes in bijection |
| Ownership.DirectoryLoses | src/metadata/MetaServer.cpp:351-355 | An entry removed with its inode keeps entries and inodes in bijection |
| Ownership.BlocksConserved | src/fs/spacemanager.cpp:50-87 | On every server, in every reachable state, free and used blocks add up to all blocks and the counter is the number of used ones |
| Ownership.RegisterInv | src/metadata/MetaServer.cpp:255-265 | Registering a node keeps the invariant exactly when it has no manager yet or its manager has no block in use |
| Ownership.RegisterGives | src/metadata/MetaServer.cpp:255-265 | The new manager starts at the first block boundary, has just the whole blocks that fit behind it in the region, all free; it loses at most one block against length / block size, and none exactly when the bytes skipped fit into length mod block size; the other managers and the inode table stay |
| Ownership.RegisterOverflows | src/metadata/MetaServer.cpp:255-265 | A region that ends before its first block boundary gets a manager of nearly 2^64 bytes, whose blocks it does not hold |
| Ownership.ReadLengthInFile | src/metadata/MetaServer.cpp:92-94 | The length that ReadFile computes, in wrapping 64-bit arithmetic, stays inside the file's blocks exactly when the offset does not pass the size and the end of the request does not pass 2^64 |
| Ownership.ReadRuns | src/metadata/MetaServer.cpp:81-132 | In a reachable state every block that ReadFile looks up exists exactly when the file exists, the offset does not pass its size and the end of the request does not pass 2^64 |
| Ownership.WriteAddressable | src/metadata/MetaServer.cpp:161-185 | A write keeps every file's blocks below 2^64 bytes |
| Ownership.RemoveAddressable | src/metadata/MetaServer.cpp:333-359 | So does a removal |
| Ownership.WriteRuns | src/metadata/MetaServer.cpp:149-185 | In a reachable state WriteFile can run whatever rand() returns exactly when the name has an entry or the inode table has room, and the file need not grow or every registered server has as many free blocks as the file lacks |
| Ownership.GrowsWhateverRand | src/metadata/MetaServer.cpp:173-182 | A file can grow by n blocks whatever rand() returns exactly when n is 0 or each of at least one registered servers has n free blocks |
| Ownership.PickedBySomeRoll | src/metadata/MetaServer.cpp:173-180 | Every registered server is drawn for some value of rand() |
| MetaServer.MetadataService.constructor | src/metadata/MetaServer.cpp:44-51 | An inode table of 100 with only the root, 100 descriptors, no manager |
| MetaServer.MetadataService.ReadFile | src/metadata/MetaServer.cpp:69-135 | The reply is the extent list of the length that the 64-bit arithmetic yields, whenever the blocks it looks up exist |
| MetaServer.MetadataService.LocateRead | src/metadata/MetaServer.cpp:100-132 | The head, full-block and tail phases together produce the range cut at every block boundary |
| MetaServer.MetadataService.WriteFile | src/metadata/MetaServer.cpp:137-222 | New state and reply: the file found or created, grown, the extents of the range, the size at its end; what it adds to the service's objects is new |
| MetaServer.MetadataService.LocateWrite | src/metadata/MetaServer.cpp:187-217 | The three phases produce the same extents as for a read and record the lengths in the block list |
| MetaServer.MetadataService.EnlargeFile | src/metadata/MetaServer.cpp:165-185 | One more block for each roll, each from the server drawn |
| MetaServer.MetadataService.AppendRandomBlock | src/metadata/MetaServer.cpp:173-182 | The least free block of the server drawn becomes the file's last block |
| MetaServer.MetadataService.SelectServer | src/metadata/MetaServer.cpp:173-180 | The walk over the map ends at the server in the drawn position of the key order |
| MetaServer.MetadataService.CreateFile | src/metadata/MetaServer.cpp:224-253 | The entry's inode number if there is an entry, else a new inode and an entry for it, made even when the table is full; what it adds to the service's objects is new |
| MetaServer.MetadataService.EnterFile | src/metadata/MetaServer.cpp:362-371 | A new inode and its entry in the root directory |
| MetaServer.MetadataService.RemoveFile | src/metadata/MetaServer.cpp:333-359 | Entry, blocks and inode are gone, on every manager; nothing happens and failure is reported when there is no entry |
| MetaServer.MetadataService.ReclaimEverywhere | src/metadata/MetaServer.cpp:353-354 | Every manager, visited once in key order, has taken back the blocks it issued |
| MetaServer.MetadataService.RegisterMemoryRegion | src/metadata/MetaServer.cpp:255-265 | The node has a new manager over [addr, addr + length), the others are unchanged |
| MetaServer.MetadataService.OpenFile | src/metadata/MetaServer.cpp:301-322 | The file exists afterwards if it could be created, and the descriptor map issued its least descriptor; what it adds to the service's objects is new |
| MetaServer.MetadataService.CloseFile | src/metadata/MetaServer.cpp:324-331 | The descriptor is given back, or failure is reported when it was not in use |
| MetaServer.OneByOneIsEverywhere | src/metadata/MetaServer.cpp:353-354 | Visiting the managers one after the other gives back every block on its own server, each manager once |
| MetaServer.EnlargedFits | src/metadata/MetaServer.cpp:161-185 | After growth every byte of the range lies in a block of the file, and nothing but the file's block list and the managers changed |
| MetaServer.GrowGrew | src/metadata/MetaServer.cpp:165-185 | Growth only appends: n blocks at the end of one inode's list |
| MetaServer.Pick | src/metadata/MetaServer.cpp:173-180 | The drawn server is registered |
| MetaServer.PickPosition | src/metadata/MetaServer.cpp:173-180 | Of n registered servers the draw falls on the one that has rand() mod n servers before it in key order |
| MetaServer.GrowthIs | src/metadata/MetaServer.cpp:161-166 | No block is added if the write ends inside those there are, else just as many as it takes to hold the last byte |
| Extents.ExtentListTranslates | src/metadata/MetaServer.cpp:100-133 | The extents tile the buffer from 0 to the length in order, none crosses a block, each maps each of its bytes to the server and address of that byte of the file, and only a request for no bytes has an empty extent |
| Extents.ExactlyOneExtent | src/metadata/MetaServer.cpp:106-132 | Every buffer byte lies in exactly one extent |
| Extents.HeadPhase | src/metadata/MetaServer.cpp:105-115 | An unaligned request starts with the rest of its first block, also when it asks for no bytes |
| Extents.FullPhase | src/metadata/MetaServer.cpp:117-124 | From a block boundary a request of at least a block yields the whole block, then the rest |
| Extents.TailPhase | src/metadata/MetaServer.cpp:126-132 | What is left below a block is the start of the next block |
| Extents.RecordHead | src/metadata/MetaServer.cpp:197 | The head phase adds to the length of the first block, also when it writes no bytes |
| Extents.InFileIff | src/metadata/MetaServer.cpp:106-132 | A nonempty range is in the file exactly when the block of each of its bytes is in the list |
| Extents.Chunk | src/metadata/MetaServer.cpp:110 | The piece stays inside its block and ends at the block boundary or at the end of the request |
| Extents.Recorded | src/metadata/MetaServer.cpp:187-217 | Recording a write changes nothing in the block list but the length fields |
| Extents.RecordedLengths | src/metadata/MetaServer.cpp:187-217 | The length recorded for each block after a write, by its position relative to the range |
| SpaceManagers.SpaceManager.constructor | src/fs/spacemanager.cpp:7-25 | The start is rounded up to a block, all blocks that fit are free |
| SpaceManagers.SpaceManager.AllocateSpace | src/fs/spacemanager.cpp:27-48 | The blocks and the new state are those of the all-or-nothing allocation |
| SpaceManagers.SpaceManager.AllocateOneBlock | src/fs/spacemanager.cpp:50-59 | The least free block moves to the in-use set |
| SpaceManagers.SpaceManager.ReclaimInodeSpace | src/fs/spacemanager.cpp:62-87 | The inode's blocks on this server, in order, are given back; blocks of other servers are skipped |
| SpaceManagers.SpaceManager.ReclaimSpace | src/fs/spacemanager.cpp:89-98 | The listed blocks are given back in order |
| SpaceManagers.SpaceManager.ResetSpaceRange | src/fs/spacemanager.cpp:100-120 | A new range with a full free list; in-use set and counter stay |
| SpaceManagers.AllocateAllOrNothing | src/fs/spacemanager.cpp:27-48 | Nothing if the blocks needed exceed the free ones; else exactly the least free blocks, strictly increasing, that become the only new ones in use; the partition of [0, total) holds either way |
| SpaceManagers.BlocksNeeded | src/fs/spacemanager.cpp:29 | The number of blocks is the least that covers the length |
| SpaceManagers.TakeSmallest | src/fs/spacemanager.cpp:37-43 | n pops yield the n least free blocks in ascending order and keep the partition |
| SpaceManagers.FreePlusInUse | src/fs/spacemanager.cpp:30 | Free and used blocks add up, so the test against total minus used is the test against the heap's size and no pop meets an empty heap |
| SpaceManagers.ReclaimKeepsSpaceOk | src/fs/spacemanager.cpp:89-98 | A reclaim keeps the manager consistent exactly when every block is in use and listed once |
| SpaceManagers.AllocateThenReclaim | src/fs/spacemanager.cpp:27-98 | Reclaiming what was just allocated restores the whole state |
| SpaceManagers.ResetKeepsSpaceOk | src/fs/spacemanager.cpp:100-120 | ResetSpaceRange keeps the manager consistent exactly when no block is in use |
| SpaceManagers.ResetManages | src/fs/spacemanager.cpp:100-120 | After ResetSpaceRange the manager hands out just the whole blocks that fit behind the first boundary of the new range, all of them free; in-use set and counter are as before |
| SpaceManagers.NewSpaceManages | src/fs/spacemanager.cpp:7-25 | A new manager starts at the first block boundary and has just the whole blocks that fit behind it, all free |
| SpaceManagers.ManagedBlocks | src/fs/spacemanager.cpp:10-16 | Against the blocks of the bare length at most one is lost, and none exactly when the skipped bytes fit into the rest that fills no block |
| SpaceManagers.BlocksInsideIff | src/fs/spacemanager.cpp:10-16 | Every block lies inside the registered region exactly when the rounded start does not pass its end, which a region of at least one block ensures |
| SpaceManagers.RoundingCost | src/fs/spacemanager.cpp:10-16 | Rounding costs at most one block, and none exactly when the skipped bytes fit into the unused rest of the region |
| SpaceManagers.AlignUpIsLeast | src/fs/spacemanager.cpp:10-13 | The rounded start is the least multiple of the block size not below the start |
| Files.IssueInodeOk | src/fs/file.cpp:83-100 | A full table reports total + 1 and changes nothing; else the least unused number, never the root's, gets a new inode and the partition of {0..total} holds |
| Files.EraseInodeOk | src/fs/file.cpp:102-116 | Deleting keeps the table consistent exactly when the number is not the root's |
| Files.EraseReplies | src/fs/file.cpp:102-116 | A deletion succeeds exactly when the inode exists, and then takes away just that inode and frees its number; else nothing changes |
| Files.IssueThenErase | src/fs/file.cpp:83-116 | Deleting the inode just issued restores the table |
| Files.TableFree | src/fs/file.cpp:83-92 | Free numbers and inodes add up to total + 1, so the pop never meets an empty heap |
| Files.NewTableOk | src/fs/file.cpp:61-70 | The new table satisfies the partition, with the root in it |
| Files.NewTableHolds | src/fs/file.cpp:61-70 | The new table has the numbers 1 to size to give, and the root, an empty directory, under 0 |
| Files.FdsRunOk | src/fs/file.cpp:124-159 | In every run of opens and closes, whatever is closed, free and used descriptors partition [4, total + 4), and an open fails exactly when as many are in use as there are |
| Files.FdsStayOk | src/fs/file.cpp:132-159 | An open never issues a descriptor in use, and closing it again restores the map |
| Files.OpenReplies | src/fs/file.cpp:132-145 | An open issues the least descriptor that is not in use, or -1 and nothing else exactly when all are in use |
| Files.CloseReplies | src/fs/file.cpp:147-159 | A close succeeds exactly when the descriptor is in use, and then frees just that one; else nothing changes |
| Files.CloseSucceedsIff | src/metadata/MetaServer.cpp:324-331 | In every run a descriptor is in use, and a close of it succeeds, exactly when some open issued it and no close of it followed |
| Files.InodeTable.constructor | src/fs/file.cpp:61-70 | Only the root inode, numbers 1 to size free |
| Files.InodeTable.AllocateFreeInode | src/fs/file.cpp:83-100 | The table and the number are those of the specification, and a new inode object is in the table |
| Files.InodeTable.DeleteInode | src/fs/file.cpp:102-116 | The inode is gone and its number free, or failure is reported |
| Files.Inode.AddDentry | src/fs/file.cpp:18-27 | The entry is added exactly when no entry has the hash |
| Files.Inode.DeleteDentry | src/fs/file.cpp:30-38 | The entry of the hash is gone; reports whether there was one |
| Files.Inode.ChangeFileBlockInfoLength | src/fs/file.cpp:49-52 | Only the length of one position changes |
| Files.Inode.AppendFileBlockInfo | src/fs/file.cpp:54-56 | One block is appended, the rest stays |
| Files.Inode.SetSize | include/file.hpp:70 | Only the size changes |
| Files.FileMap.AllocateFD | src/fs/file.cpp:132-145 | The least free descriptor is issued, or -1 when there is none |
| Files.FileMap.ReclaimFD | src/fs/file.cpp:147-159 | The descriptor is free again, or failure is reported |
| Storage.StoreReply | src/client/Client.cpp:46-62 | The write loop changes exactly the range written in the file, with the byte each position gets, and no byte of a file that shares no block; for the client with and without the buffer offset |
| Storage.LoadReply | src/client/Client.cpp:22-36 | The read loop with the buffer offset fills the buffer with exactly the bytes of the range |
| Storage.UnshiftedStoreIff | src/client/Client.cpp:54 | The client as written stores every buffer right exactly when the request stays inside one block |
| Storage.UnshiftedLoadIff | src/client/Client.cpp:28 | The client as written loads every buffer right exactly when the request stays inside one block |
| Storage.PutInBlock | src/net/RdmaSocket.cpp:945-977 | Bytes written inside a block of a file appear in its flat array at the same offset of that block and nowhere else |
| Storage.BackingPrefix | src/metadata/MetaServer.cpp:181-182 | Appending blocks appends to the flat array |
| Storage.ExtentListFits | src/metadata/MetaServer.cpp:100-133 | Every extent of a reply lies inside its server's memory and the caller's buffer |
| RdmaSockets.RdmaSocket.OutboundHamal | src/net/RdmaSocket.cpp:1004-1050 | Through its own bounce buffer, exactly the requested bytes arrive at the server, in as few operations of at most 1 MiB as hold them; no other worker's bounce buffer changes; one is added to the signal |
| RdmaSockets.RdmaSocket.InboundHamal | src/net/RdmaSocket.cpp:916-943 | The same for bytes from the server to user memory |
| RdmaSockets.RdmaSocket.SendChunk | src/net/RdmaSocket.cpp:1015-1023 | A chunk copied to the bounce buffer and written from there arrives unchanged |
| RdmaSockets.RdmaSocket.ReceiveChunk | src/net/RdmaSocket.cpp:932-934 | A chunk read into the bounce buffer and copied from there arrives unchanged |
| RdmaSockets.RdmaSocket.RdmaWrite | src/net/RdmaSocket.cpp:945-977 | The polled operation has copied the bytes of the registered region to the server |
| RdmaSockets.RdmaSocket.RdmaRead | src/net/RdmaSocket.cpp:813-840 | The polled operation has copied the server's bytes to the registered region |
| RdmaSockets.RdmaSocket.RemoteWrite | src/net/RdmaSocket.cpp:979-1002 | Exactly the first Transferred(size) bytes arrive; for a large request every worker has signalled |
| RdmaSockets.RdmaSocket.RemoteRead | src/net/RdmaSocket.cpp:875-898 | The same for reading |
| RdmaSockets.TasksTile | src/net/RdmaSocket.cpp:887-894 | The tasks start at multiples of 4 KiB, follow one another from 0 without gap or overlap, and stay inside the request |
| RdmaSockets.SharesBalanced | src/net/RdmaSocket.cpp:885-892 | A share is the greatest multiple of 4 KiB of which the request holds one for each worker; the first three tasks get a share each, a fourth at least a share and less than 16 KiB more |
| RdmaSockets.TwoWorkersCover | src/net/RdmaSocket.cpp:885-889 | Two workers cover exactly the first size - size mod 8192 bytes |
| RdmaSockets.TransferredWhole | src/net/RdmaSocket.cpp:875-898 | A request is transferred whole exactly when it is below 4 MiB, four workers share it, or its size is a multiple of 4 KiB times the workers |
| RdmaSockets.RemainderTiles | src/net/RdmaSocket.cpp:889 | With any number of workers of which the last takes the remainder, every byte is in exactly one task |
| RdmaSockets.PoolsDisjoint | src/net/RdmaSocket.cpp:917-918 | The bounce buffers of two workers do not overlap; they lie 1 MiB apart, from 4 KiB on |
| Clients.Client.Write | src/client/Client.cpp:41-65 | The call is a step of the system: the metadata server's write, then the loop over its extents, with the bytes written as the reply |
| Clients.Client.SendExtent | src/client/Client.cpp:54-56 | The piece of the buffer arrives at the extent in one operation, or in none if the extent is empty |
| Clients.Client.Read | src/client/Client.cpp:17-39 | The call is a read step of the system, with the buffer it leaves and the bytes read as the reply |
| Clients.Client.SendExtents | src/client/Client.cpp:46-62 | The loop stores the pieces of the buffer at the extents in turn |
| Clients.Client.ReceiveExtents | src/client/Client.cpp:22-36 | The loop loads the extents into the buffer in turn |
| Clients.ExtentsTakeOneChunk | src/net/RdmaSocket.cpp:878-925 | Every extent of a reply goes to a single worker, fits one bounce buffer, and is transferred whole |
| Clients.WriteFits | src/client/Client.cpp:46-62 | In a reachable state the extents of a write fit server memory and buffer |
| Clients.ReadFits | src/client/Client.cpp:22-36 | In a reachable state the extents of a read fit server memory and buffer |
| Transfers.StepInv | src/net/RdmaSocket.cpp:900-943 | Every step of caller or worker, down to the halves of a push and a pop, keeps the invariant: each task is on its way through one queue, with one worker or done, what a worker counts as through has arrived, what it staged is in its own buffer |
| Transfers.RunInv | src/net/RdmaSocket.cpp:875-943 | The invariant holds in every state of every interleaving |
| Transfers.Returned | src/net/RdmaSocket.cpp:893-897 | When the caller's spin ends every task is done, the destination is that of copying the ranges one after the other, no queue or worker holds a pointer to the caller's tasks, and neither side is inside a queue operation |
| Transfers.InterleavingsAgree | src/net/RdmaSocket.cpp:900-943 | Any two interleavings of a transfer that return end with the same destination |
| Transfers.NeverStuck | src/net/RdmaSocket.cpp:884-895 | Until the caller returns some step is possible |
| Transfers.StepLowersRank | src/net/RdmaSocket.cpp:924-940 | Every step lowers a natural number, so no interleaving goes on for ever |
| Transfers.SequentialAt | src/net/RdmaSocket.cpp:887-894 | The sequential copy takes each byte of a task range from the source and leaves every other byte |
| Transfers.LargeTransfer | src/net/RdmaSocket.cpp:979-1002 | Whatever the interleaving, a large transfer that returns has copied exactly the bytes that the tasks of the split cover and nothing else |
| PollingQueues.StepInv | include/queue.h:34-50 | Every half-step of push or pop keeps: popped then queued items are the pushed ones, the counter is the number of pending items modulo 256 |
| PollingQueues.FifoSafety | include/queue.h:34-50 | In every interleaving of the half-steps of one producer and one consumer the popped items are a prefix of the pushed ones, the vector is not empty when it is read or erased, and the counter is the vector's size up to the push and pop under way |
| PollingQueues.WaitsIff | include/queue.h:35 | The consumer keeps waiting exactly when the number of pending items is a multiple of 256 |
| PollingQueues.Overlooked | include/queue.h:21-49 | After 256 pushes the counter is 0 and the consumer sees none of them |
| PollingQueues.Queue.PushPolling | include/queue.h:47-50 | The item is appended, and the counter is the number of items modulo 256 |
| PollingQueues.Queue.PopPolling | include/queue.h:34-40 | Once the counter is not 0 the front item is returned and gone |
| BatchPosting.FlowControl | src/net/RdmaSocket.cpp:1061-1089 | In every run of batches of at most 24 requests, at every request of the next batch, no poll waits for a request of the batch itself and at most 63 requests are unretired |
| BatchPosting.NeverWaitsIff | src/net/RdmaSocket.cpp:1061-1064 | Batches of n requests never wait for themselves from any point exactly when n is at most 32 |
| BatchPosting.BoundReached | include/RdmaSocket.hpp:30-32 | A run of batches of at most 24 requests after which 63 requests are unretired |
| BatchPosting.AfterBetween | src/net/RdmaSocket.cpp:737-767 | After any batches everything prepared is posted and one completion was polled for each signalled request but the last |
| BatchPosting.PeerSockData.PostBatch | src/net/RdmaSocket.cpp:842-873 | The loop with its polls leaves the counters of the specification, and every poll in it ends |
| Handshake.StepInv | src/net/RdmaSocket.cpp:359-395 | Every step of server 1, a client or another server keeps: each id has one owner, filed and presented ids are the owner's |
| Handshake.StepFiles | src/net/RdmaSocket.cpp:579-603 | Server 1 files the client it serves under the id it assigned, a further server a client that presents itself under the id it holds; that entry is all that changes in the peer tables, and no other step touches them |
| Handshake.FiledStays | src/net/RdmaSocket.cpp:593 | In every run a client that is filed at a server stays filed there under the same id |
| Handshake.HandshakeSucceeds | src/net/RdmaSocket.cpp:359-395 | From every reachable state in which server 1 is idle and has an id left, a new client whose messages arrive is led to a state where it is connected under the next id, server 1 has filed it under that id, and no other client and no other entry has changed |
| Handshake.PresentSucceeds | src/net/RdmaSocket.cpp:684-704 | A connected client can present itself at every further server, which files it under its id and changes nothing else |
| Handshake.StepPhases | src/net/RdmaSocket.cpp:662-706 | A client that has failed never connects, and only its own steps change how far a client is |
| Handshake.DistinctIds | src/net/RdmaSocket.cpp:359-395 | In every interleaving connected clients hold distinct ids above the server count, and every server files a client under the id server 1 assigned to it, which is an index of the peer table if the servers' ids are |
| Handshake.ServersAgree | src/net/RdmaSocket.cpp:579-603 | No two servers file different clients under one id |
| Handshake.NeverReused | src/net/RdmaSocket.cpp:389-393 | An id that was consumed stays with its client for the rest of the run, also when the connection fails afterwards |
| Handshake.ToldIff | src/net/RdmaSocket.cpp:366-395 | In every reachable state the id a client was told is its own exactly when server 1 has read its answer; until then it is the next id or belongs to another; no two clients whose answers were read were told the same id |
| Handshake.AnnouncedTwice | src/net/RdmaSocket.cpp:370-382 | A run in which a client that was told an id, and failed before server 1 read its answer, holds the id of a connected client |
| Blocks.MaskIsRemainder | include/file.hpp:16-17 | The mask is the remainder modulo the block size |

## Left out

- gRPC, protobuf, the metadata client, the FUSE callbacks and the command-line programs: wrappers around the handlers.
- Device, queue-pair and memory-region set-up, sockets and the mapping of the DAX device: foreign calls.
- Which worker gets a completion from the completion queue that a client's connection shares: a poll is taken to return the worker's own.
- Mutexes, the early return of GetInode that keeps its lock, and interleaved handlers: the handlers do not lock inodes and directory together.
- The handlers' reply for a missing root inode: the root is in the table from construction on and no modelled request removes it, so the branch is not reached.
- The calls that the code cannot survive (no entry on a read, no inode left on a write, an empty heap, no registered server, an entry without inode on a removal) are preconditions; the lemmas named above say when they hold.
- The client's return value -1: RemoteRead and RemoteWrite always return true.
- A meaning of a block's `length` field: the handlers only feed it back into itself, and it need not be the number of bytes written to the block.
- The order inside a heap: a priority queue is a multiset with its least element on top.
- Wrap-around at 64 bits of `start + block_size`, of block addresses and of the request counter of a connection.
- ReadDirectory, which lists what the directory invariant already describes, and the repository's unused members (SetFile, SetInodeNum, the blocking queue operations).
- Ties between descriptors and inodes: the repository has none.
- Ids past the peer table of 1000 entries, against which the code has no check: server 1 assigns ids below that bound only.
- Performance counters, timing, the write test inside OutboundHamal, debug output, and the configuration file.
- Server-side batches, which never poll.
- RdmaSockets.RdmaSocket.RemoteWrite: runs the workers of a large request one after the other; their interleavings are in the module Transfers.
- RdmaSockets.RdmaSocket.RemoteRead: runs the workers of a large request one after the other; their interleavings are in the module Transfers.
- RdmaSockets.TransferredWhole: covers one to four workers, the most that the caller's array of tasks holds.
- RdmaSockets.RdmaSocket.RdmaWrite: posting and polling are one copy; the time between them, in which only the device touches the worker's own bounce buffer, is not described.
- RdmaSockets.RdmaSocket.RdmaRead: posting and polling are one copy, as for RdmaWrite.
- PollingQueues.Queue.PopPolling: starts when the spin has ended; who waits, and for how long, is in the state machine of the same module.
- Files.FdsStayOk: speaks of one open or close; runs are in FdsRunOk.
- ReplyRuns.WriteCompletes: is stated for the client that adds the buffer offset; the other one stores the wrong bytes in any request that crosses a block.
- The peer table of a client, which files each server under the number it connected to.
