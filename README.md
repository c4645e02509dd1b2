# Kudu block manager: a verified reference model

Kudu keeps its on-disk data in *blocks*. The header
`src/kudu/fs/block_manager.h` states the contract that every block
manager follows:

- A `WritableBlock` is an append-only writer. Its lifecycle is CLEAN, DIRTY,
  FLUSHING, CLOSED.
- A `ReadableBlock` is a read-only view of a closed block.
- A `BlockManager` creates, opens, deletes and group-closes blocks.
- A deleted block stays readable until its last open handle closes.

This project is a Dafny model of that contract with no filesystem underneath. It
has two layers:

- **Pure models**, one module per concern.
  - `WriterModel`: the writer state machine over the history of accepted chunks.
  - `ReaderModel`: exact-range reads.
  - `DirectoryModel`: the manager's directory. Each entry has bytes, a
    written-by-its-writer flag, a deleted flag and an open-handle count. The
    directory also holds the next anonymous identifier.
  - `Lifecycle`: lemmas that join the three models.
  - Each operation is a function with a contract. The lemmas prove the header's
    promises over any sequence of calls: append-only, immutable once written,
    deferred reclamation, and BytesAppended equal to the bytes read back.
- **Objects** in module `Fs`.
  - `BlockManager`, `WritableBlock` and `ReadableBlock` are classes whose methods
    update fields in place.
  - Each method is proved against the pure model. A writer's `View()` steps
    exactly as `WriterModel` does, and the manager's `View()` steps exactly as
    `DirectoryModel` does.
  - A ghost registry of open handles (`writerOf`, `readersOf`) is kept equal to
    each entry's open-handle count. `CloseBlocks` is a loop over the group, each
    step a `Close`.
- Module `Scenarios` states whole lifecycles against a new manager. Each contract
  states the outcome of every call.

Choices where the header says nothing:

- FLUSHING lasts until `Close`. Line 90 forbids appends once `FlushDataAsync`
  has been called, so completing the flush cannot make the block writable
  again. `FlushDataAsync` on a CLEAN block also moves it to FLUSHING.
- A sequence "append, flush, append, close" that expects both chunks in the
  block contradicts line 90. The model refuses the second append
  (`Scenarios.FlushEndsAppends`).
- Appending an empty chunk leaves CLEAN as CLEAN, because DIRTY means "some
  dirty data" (line 55).
- Any operation on a CLOSED writer fails with IllegalState, a second `Close`
  included. A reader's second `Close`, and `Size`/`Read` on a closed reader,
  fail the same way.
- Errors:
  - A duplicate named block fails with AlreadyExists, also while the old block
    is deleted but still open.
  - An unknown or deleted block fails with NotFound.
  - A read past the end fails with OutOfRange.
  - A block operation before `Create`/`Open` fails with IllegalState, and so
    does `Open` on a manager already created or opened.
- Identifiers:
  - Anonymous identifiers come from a counter that stays above every identifier
    in use, so they never collide and never repeat within one manager.
  - A named identifier can be reused once its block has been deleted and fully
    reclaimed.
- The on-disk representation is the disk image the manager is constructed with.
  - `Create` fails if there is one.
  - `Open` fails if there is none, and otherwise loads every block in it as
    closed, live and unopened.

## Model

| member | source | states |
|---|---|---|
| WriterModel.Append | src/kudu/fs/block_manager.h:76-80 | succeeds exactly while the block is CLEAN or DIRTY; on success the chunk is added at the end, so the bytes become the old bytes followed by the chunk; otherwise IllegalState and nothing changes; the CLEAN/DIRTY meaning is kept |
| WriterModel.FlushDataAsync | src/kudu/fs/block_manager.h:82-91 | succeeds on any block not CLOSED and leaves it FLUSHING with its bytes, where no append is allowed any more; on a CLOSED block IllegalState and nothing changes |
| WriterModel.Close | src/kudu/fs/block_manager.h:62-71 | succeeds exactly when not yet CLOSED; afterwards the block is CLOSED with the same bytes; a second Close is IllegalState and changes nothing |
| WriterModel.BytesAppended | src/kudu/fs/block_manager.h:93-94 | the byte count is the total length of the accepted chunks |
| WriterModel.ConcatLength | src/kudu/fs/block_manager.h:93-94 | the bytes of a chunk history are exactly as long as the chunks' total length |
| WriterModel.ConcatAppend | src/kudu/fs/block_manager.h:76-80 | laying out two histories one after the other gives the two byte strings one after the other |
| WriterModel.RunSnoc | src/kudu/fs/block_manager.h:76-91 | running one more call after a run is the same as running the longer sequence |
| WriterModel.RunSealed | src/kudu/fs/block_manager.h:90 | once FlushDataAsync or Close has been called, no later call adds a chunk or makes the block writable again |
| WriterModel.RunWritable | src/kudu/fs/block_manager.h:76-80 | from a writable state the history gains exactly the chunks of the appends before the first flush or close, in call order (against the reference definition AcceptedAppends) |
| WriterModel.RunData | src/kudu/fs/block_manager.h:76-80 | after any calls the bytes are the old bytes followed by the accepted chunks, or unchanged if the block was already sealed; failed appends change nothing |
| WriterModel.BytesAppendedMonotone | src/kudu/fs/block_manager.h:93-94 | BytesAppended never decreases over any sequence of calls |
| WriterModel.ClosedIsFinal | src/kudu/fs/block_manager.h:62-63 | no sequence of calls changes a CLOSED writer: it stays CLOSED with the same bytes |
| WriterModel.RunWellFormed | src/kudu/fs/block_manager.h:51-60 | every sequence of calls keeps CLEAN meaning "no data" and DIRTY meaning "some data" |
| WriterModel.WriteThenClose | src/kudu/fs/block_manager.h:68-80 | a new block written by any calls and then closed is CLOSED and holds exactly the accepted chunks in call order; BytesAppended is their total length |
| ReaderModel.Read | src/kudu/fs/block_manager.h:112-120 | succeeds exactly when offset + length is within the block; then it returns exactly `length` bytes, the block's bytes from `offset`; otherwise OutOfRange with the caller's result unchanged |
| ReaderModel.ReadIgnoresSuffix | src/kudu/fs/block_manager.h:112-120 | bytes after a range do not change what a read of that range returns |
| ReaderModel.ReadWhole | src/kudu/fs/block_manager.h:112-120 | reading a block from 0 for its full size succeeds and returns all of its bytes |
| DirectoryModel.CreateNamed | src/kudu/fs/block_manager.h:156-169 | succeeds exactly when no block with the identifier exists, deleted-but-open ones included; the new block is live, not yet readable, empty and held by its writer; on failure AlreadyExists and nothing changes; no other entry changes; the directory invariant is kept |
| DirectoryModel.OpenReader | src/kudu/fs/block_manager.h:171-175 | succeeds exactly when the block is closed by its writer and not deleted; the bytes stay and the open count rises by one; otherwise NotFound and nothing changes |
| DirectoryModel.Delete | src/kudu/fs/block_manager.h:177-183 | succeeds exactly on a live block, which stops being live at once; the entry and its bytes stay exactly when some handle holds it, and go at once otherwise; otherwise NotFound and nothing changes |
| DirectoryModel.Release | src/kudu/fs/block_manager.h:180-182 | dropping one handle removes the entry exactly when it is deleted and that was its last handle; otherwise the count drops by one and all else stays |
| DirectoryModel.CloseReader | src/kudu/fs/block_manager.h:106-107 | succeeds exactly when a handle is open on a closed block; the handle is released: the entry goes exactly when it was deleted and this was its last handle (lines 180-182), and otherwise only its open count drops by one; the invariant is kept |
| DirectoryModel.CloseWriter | src/kudu/fs/block_manager.h:68-71 | succeeds exactly on a block not yet closed by its writer; the block then holds the writer's bytes and is closed; the writer's handle is released: the entry goes exactly when it was deleted and only the writer held it, and otherwise it keeps its deleted flag with one handle fewer; the invariant is kept |
| DirectoryModel.Load | src/kudu/fs/block_manager.h:138-141 | after a restart the directory holds exactly the blocks on disk, each readable with its bytes and no open handles, and the anonymous counter is the one given |
| DirectoryModel.RunKeepsInv | src/kudu/fs/block_manager.h:177-183 | every sequence of directory operations keeps the invariant that a deleted entry is still held and an unclosed block is held by its writer alone |
| DirectoryModel.OpenHandlesPinData | src/kudu/fs/block_manager.h:177-183 | while more handles are open on a closed block than the calls close, the block and its bytes stay, whatever the calls do, deletion included |
| DirectoryModel.ReclaimedOnlyWhenUnheld | src/kudu/fs/block_manager.h:177-183 | an entry disappears only through its own identifier: when deleted while unopened, or when its last handle closes after deletion |
| DirectoryModel.AnonymousIdIsFree | src/kudu/fs/block_manager.h:143-151 | the next anonymous identifier is never in use, so anonymous creation cannot fail on a collision, and the counter moves past it |
| DirectoryModel.RestartSeesVisibleBlocks | src/kudu/fs/block_manager.h:68-70 | what Close (lines 68-70) and DeleteBlock (lines 177-178) make durable is exactly the readable blocks: reloading it after a restart gives exactly those blocks with the same bytes, and a valid directory |
| Lifecycle.ChunkReadBack | src/kudu/fs/block_manager.h:76-80 | each accepted chunk reads back at the offset where the chunks before it end |
| Lifecycle.CloseThenOpenReadsAppended | src/kudu/fs/block_manager.h:109-110 | after a writer closes a live block, a reader can open it, its size is the writer's BytesAppended, and it reads back exactly the writer's bytes |
| Lifecycle.AppendsKeepEarlierReads | src/kudu/fs/block_manager.h:25-26 | whatever calls follow, a range of a block's bytes that was already written reads back the same as before |
| Lifecycle.WrittenBlockReadsBack | src/kudu/fs/block_manager.h:24-26 | a new block written by any calls and then closed becomes readable, holds exactly the accepted chunks in call order and nothing else, and reads back as exactly those |
| Fs.NextFreeId | src/kudu/fs/block_manager.h:138-141 | the loop finds a counter above every identifier on disk, and the least such |
| Fs.BlockManager.constructor | src/kudu/fs/block_manager.h:129-131 | a new manager holds the given disk image, is neither created nor opened, and has an empty directory |
| Fs.BlockManager.Create | src/kudu/fs/block_manager.h:133-136 | succeeds exactly when no on-disk representation exists and leaves an empty directory; otherwise AlreadyExists and nothing changes |
| Fs.BlockManager.Open | src/kudu/fs/block_manager.h:138-141 | succeeds exactly when a representation exists and the manager is not yet initialized; the directory is then the loaded image; otherwise NotFound (or IllegalState when already initialized) and nothing changes |
| Fs.BlockManager.CreateNamedBlock | src/kudu/fs/block_manager.h:156-169 | steps the directory as CreateNamed and returns a new writer on the block; on error the out-block is the caller's, unchanged, and nothing changes; every other handle stays registered |
| Fs.BlockManager.CreateAnonymousBlock | src/kudu/fs/block_manager.h:143-154 | always succeeds once initialized, under an identifier not in use, and steps the directory as CreateNamed; on error the out-block is unchanged |
| Fs.BlockManager.OpenBlock | src/kudu/fs/block_manager.h:171-175 | steps the directory as OpenReader and returns a new reader fixed to the block's bytes at open; on error the out-block is unchanged and nothing changes |
| Fs.BlockManager.DeleteBlock | src/kudu/fs/block_manager.h:177-183 | steps the directory as Delete; every open handle stays registered, so readers and writers of a deleted block go on working |
| Fs.BlockManager.ReleaseWriter | src/kudu/fs/block_manager.h:68-71 | the directory steps as CloseWriter with the writer's bytes; only that writer stops being registered |
| Fs.BlockManager.ReleaseReader | src/kudu/fs/block_manager.h:106-107 | the directory steps as CloseReader; only that reader stops being registered |
| Fs.BlockManager.CloseAt | src/kudu/fs/block_manager.h:185-187 | closing the next open block of the group keeps the loop's invariants: the directory has absorbed one more writer and the group's handles are as described |
| Fs.BlockManager.CloseInTurn | src/kudu/fs/block_manager.h:185-189 | the loop closes the group in order up to the first block already closed, where it stops with IllegalState; each block it closed was open and appears once |
| Fs.BlockManager.CloseBlocks | src/kudu/fs/block_manager.h:185-189 | the directory becomes the directory that closing the group's blocks one by one with Close gives; Ok exactly when every block was closed; on error, exactly the prefix before the first already-closed block is closed and the rest keep their state; bytes never change |
| Fs.WritableBlock.constructor | src/kudu/fs/block_manager.h:38-39 | a new writer is CLEAN and empty |
| Fs.WritableBlock.BytesAppended | src/kudu/fs/block_manager.h:93-94 | returns the total length of the chunks that Append accepted |
| Fs.WritableBlock.Append | src/kudu/fs/block_manager.h:76-80 | the writer steps as WriterModel.Append; its buffer grows by the chunk exactly on success |
| Fs.WritableBlock.FlushDataAsync | src/kudu/fs/block_manager.h:82-91 | the writer steps as WriterModel.FlushDataAsync; the buffer is unchanged |
| Fs.WritableBlock.Close | src/kudu/fs/block_manager.h:68-71 | the writer steps as WriterModel.Close; on success the manager's directory steps as CloseWriter with this writer's bytes; on error nothing changes |
| Fs.ReadableBlock.constructor | src/kudu/fs/block_manager.h:99-101 | a new reader is open on the given block with the given bytes |
| Fs.ReadableBlock.Size | src/kudu/fs/block_manager.h:109-110 | while open, the size of the bytes the block held when it was opened; IllegalState after Close |
| Fs.ReadableBlock.Read | src/kudu/fs/block_manager.h:112-120 | while open, ReaderModel.Read on the bytes the block held when it was opened, deletion of the block notwithstanding; IllegalState after Close |
| Fs.ReadableBlock.Close | src/kudu/fs/block_manager.h:106-107 | succeeds exactly once; the manager's directory steps as CloseReader; a second Close is IllegalState and changes nothing |
| Scenarios.FlushEndsAppends | src/kudu/fs/block_manager.h:82-91 | append, flush, append, close: the second append is refused and the block keeps the first chunk only |
| Scenarios.ClosedBlockReadsBack | src/kudu/fs/block_manager.h:109-120 | a block written and closed reopens with the written size and reads back as the written bytes |
| Scenarios.EmptyNamedBlock | src/kudu/fs/block_manager.h:109-120 | a named block closed with nothing appended has size 0, and a one-byte read is OutOfRange |
| Scenarios.DeleteWhileReading | src/kudu/fs/block_manager.h:177-183 | after deleting a block being read, OpenBlock reports NotFound and CreateNamedBlock reports AlreadyExists, yet the reader still reads the bytes; its Close succeeds once |
| Scenarios.ReuseAfterReclaim | src/kudu/fs/block_manager.h:177-183 | once the last reader of a deleted block closes, the block is gone and its identifier names a new block |
| Scenarios.DeleteWhileWriting | src/kudu/fs/block_manager.h:180-182 | a block deleted while its writer is open: the writer's Close still succeeds, then the block is gone |
| Scenarios.CloseBlocksClosesAll | src/kudu/fs/block_manager.h:185-189 | CloseBlocks on two open writers succeeds and closes both |
| Scenarios.CloseBlocksStopsAtClosed | src/kudu/fs/block_manager.h:185-189 | CloseBlocks on a group whose first writer is already closed fails with IllegalState and leaves the second writer's state alone |

## Left out

- Durability: fsync, "synchronizes with the disk" and "immediately made durable"
  (lines 68-70, 178, 188). The disk image is an input to the manager's
  constructor. Closing or deleting a block does not write it back.
  `DirectoryModel.Persisted` and `RestartSeesVisibleBlocks` state what a restart
  would see.
- I/O errors: no operation fails with IOError, and `Open` never reports
  Corruption. These failures come from the filesystem, which is not modelled.
- Asynchronous flush completion: FLUSHING is a state tag only.
- Parallel waiting in `CloseBlocks` (lines 47-48, 186): the model closes the
  blocks one after another.
- Thread safety and concurrent readers (lines 27-29, 100-101, 127-128): the
  model is sequential.
- `Slice`/`scratch` memory and its lifetime (lines 113-117): Read returns a byte
  sequence and the caller's previous result.
- `gscoped_ptr` ownership, the `block_manager()` back-reference (line 74), the
  empty `CreateBlockOptions` (lines 124-125) and the default-option overloads
  (lines 154, 168): they add no behaviour. The back-reference is the `manager`
  field of each handle.
- Fixed-width integers: `BlockId`, offsets and `size_t` are unbounded naturals.
  The model has no 64-bit overflow.
- Handles after a failed call: a failed `Create*Block`/`OpenBlock` returns the
  caller's `prior` block unchanged. The model does not track ownership of that
  block.
- Fs.BlockManager.CloseBlocks: stops at the first block that is already closed,
  as repeated `Close` calls would report. Blocks after that one are not closed.
  The header says only "effectively like Close() for each block".
