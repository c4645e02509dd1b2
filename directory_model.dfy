/**
  The block manager's directory as a pure transition system: for every block that
  exists (live, or deleted but still open) its bytes, whether its writer has closed
  it, whether it has been deleted, and how many readers and writers hold it open.
 */
module DirectoryModel {
  import opened BlockTypes

  datatype Entry = Entry(data: seq<uint8>, written: bool, deleted: bool, opens: nat)

  /** The entries, and the next identifier an anonymous block receives. */
  datatype Directory = Directory(entries: map<BlockId, Entry>, nextId: BlockId)

  datatype Step = Step(next: Directory, status: Status)

  datatype Op =
    | CreateOp(id: BlockId)
    | OpenOp(id: BlockId)
    | DeleteOp(id: BlockId)
    | CloseReaderOp(id: BlockId)
    | CloseWriterOp(id: BlockId, data: seq<uint8>)

  const Empty := Directory(map[], 0)

  /**
    The directory's invariant: every identifier is below nextId, an entry that is
    deleted is still held open (otherwise its space is already reclaimed), and a
    block whose writer has not closed is held by that writer alone.
   */
  ghost predicate Inv(d: Directory)
  {
    forall id :: id in d.entries ==>
      && id < d.nextId
      && (d.entries[id].deleted ==> d.entries[id].opens > 0)
      && (!d.entries[id].written ==> d.entries[id].opens == 1)
  }

  /** The block exists and has not been deleted. */
  predicate Live(d: Directory, id: BlockId)
  {
    id in d.entries && !d.entries[id].deleted
  }

  /** OpenBlock can open the block: its writer closed it and it has not been deleted. */
  predicate Visible(d: Directory, id: BlockId)
  {
    Live(d, id) && d.entries[id].written
  }

  /** Nothing but the entry of `id` differs between `d` and `d'`. */
  ghost predicate SameExcept(d: Directory, d': Directory, id: BlockId)
  {
    forall other :: other != id ==>
      && (other in d'.entries <==> other in d.entries)
      && (other in d.entries ==> d'.entries[other] == d.entries[other])
  }

  function CreateNamed(d: Directory, id: BlockId): (s: Step)
    ensures s.status.Ok? <==> id !in d.entries
    ensures s.status.Error? ==> s.status.kind == AlreadyExists && s.next == d
    ensures s.status.Ok? ==> id in s.next.entries && s.next.entries[id].opens == 1
    ensures s.status.Ok? ==> !Visible(s.next, id) && Live(s.next, id) && s.next.entries[id].data == []
    ensures SameExcept(d, s.next, id) && s.next.nextId >= d.nextId
    ensures Inv(d) ==> Inv(s.next)
  {
    if id in d.entries then Step(d, Error(AlreadyExists))
    else Step(Directory(d.entries[id := Entry([], false, false, 1)],
                        if id < d.nextId then d.nextId else id + 1), Ok)
  }

  function OpenReader(d: Directory, id: BlockId): (s: Step)
    ensures s.status.Ok? <==> Visible(d, id)
    ensures s.status.Error? ==> s.status.kind == NotFound && s.next == d
    ensures s.status.Ok? ==> Visible(s.next, id) && s.next.entries[id].data == d.entries[id].data
    ensures s.status.Ok? ==> s.next.entries[id].opens == d.entries[id].opens + 1
    ensures SameExcept(d, s.next, id) && s.next.nextId == d.nextId
    ensures Inv(d) ==> Inv(s.next)
  {
    if !Visible(d, id) then Step(d, Error(NotFound))
    else
      var e := d.entries[id];
      Step(Directory(d.entries[id := e.(opens := e.opens + 1)], d.nextId), Ok)
  }

  /**
    Deletion is logical at once: the block is no longer live. Its entry, with its
    bytes, stays exactly as long as some reader or writer holds it open.
   */
  function Delete(d: Directory, id: BlockId): (s: Step)
    ensures s.status.Ok? <==> Live(d, id)
    ensures s.status.Error? ==> s.status.kind == NotFound && s.next == d
    ensures s.status.Ok? ==> !Live(s.next, id)
    ensures s.status.Ok? ==> (id in s.next.entries <==> d.entries[id].opens > 0)
    ensures s.status.Ok? && id in s.next.entries ==>
      s.next.entries[id] == d.entries[id].(deleted := true)
    ensures SameExcept(d, s.next, id) && s.next.nextId == d.nextId
    ensures Inv(d) ==> Inv(s.next)
  {
    if !Live(d, id) then Step(d, Error(NotFound))
    else if d.entries[id].opens == 0 then Step(Directory(d.entries - {id}, d.nextId), Ok)
    else Step(Directory(d.entries[id := d.entries[id].(deleted := true)], d.nextId), Ok)
  }

  /** Drops one open handle; the entry goes once it is deleted and its last handle is gone. */
  function Release(d: Directory, id: BlockId): (d': Directory)
    requires id in d.entries && d.entries[id].opens > 0
    ensures id !in d'.entries <==> d.entries[id].deleted && d.entries[id].opens == 1
    ensures id in d'.entries ==> d'.entries[id] == d.entries[id].(opens := d.entries[id].opens - 1)
    ensures SameExcept(d, d', id) && d'.nextId == d.nextId
  {
    var e := d.entries[id];
    if e.deleted && e.opens == 1 then Directory(d.entries - {id}, d.nextId)
    else Directory(d.entries[id := e.(opens := e.opens - 1)], d.nextId)
  }

  /** A reader closes: only a handle on a closed block can be one. */
  function CloseReader(d: Directory, id: BlockId): (s: Step)
    ensures s.status.Ok? <==> id in d.entries && d.entries[id].written && d.entries[id].opens > 0
    ensures s.status.Error? ==> s.status.kind == IllegalState && s.next == d
    ensures s.status.Ok? ==> (id !in s.next.entries <==> d.entries[id].deleted && d.entries[id].opens == 1)
    ensures s.status.Ok? && id in s.next.entries ==>
      s.next.entries[id] == d.entries[id].(opens := d.entries[id].opens - 1)
    ensures s.status.Ok? && id in s.next.entries ==>
      s.next.entries[id].data == d.entries[id].data && s.next.entries[id].written
    ensures SameExcept(d, s.next, id) && s.next.nextId == d.nextId
    ensures Inv(d) ==> Inv(s.next)
  {
    if id in d.entries && d.entries[id].written && d.entries[id].opens > 0 then Step(Release(d, id), Ok)
    else Step(d, Error(IllegalState))
  }

  /** A writer closes: its bytes become the block's bytes, fixed from now on. */
  function CloseWriter(d: Directory, id: BlockId, data: seq<uint8>): (s: Step)
    ensures s.status.Ok? <==> id in d.entries && !d.entries[id].written && d.entries[id].opens > 0
    ensures s.status.Error? ==> s.status.kind == IllegalState && s.next == d
    ensures s.status.Ok? ==> (id in s.next.entries <==> !d.entries[id].deleted || d.entries[id].opens > 1)
    ensures s.status.Ok? && id in s.next.entries ==>
      s.next.entries[id].data == data && s.next.entries[id].written
    ensures s.status.Ok? && id in s.next.entries ==>
      s.next.entries[id] == Entry(data, true, d.entries[id].deleted, d.entries[id].opens - 1)
    ensures SameExcept(d, s.next, id) && s.next.nextId == d.nextId
    ensures Inv(d) ==> Inv(s.next)
  {
    if id in d.entries && !d.entries[id].written && d.entries[id].opens > 0 then
      Step(Release(Directory(d.entries[id := d.entries[id].(data := data, written := true)], d.nextId), id), Ok)
    else Step(d, Error(IllegalState))
  }

  /** Closes a group of writers in turn, as CloseBlocks does; it stops at nothing, the caller stops. */
  function CloseWriters(d: Directory, writers: seq<(BlockId, seq<uint8>)>): Directory
  {
    if writers == [] then d
    else
      var last := writers[|writers| - 1];
      CloseWriter(CloseWriters(d, writers[..|writers| - 1]), last.0, last.1).next
  }

  /**
    The directory rebuilt from what is on disk: every block found there is
    closed, live and not open.
   */
  function Load(image: map<BlockId, seq<uint8>>, nextId: BlockId): (d: Directory)
    ensures forall id :: Visible(d, id) <==> id in image
    ensures forall id :: id in image ==> id in d.entries && d.entries[id].data == image[id] && d.entries[id].opens == 0
    ensures d.entries.Keys == image.Keys && d.nextId == nextId
    ensures (forall id :: id in image ==> id < nextId) ==> Inv(d)
  {
    Directory(map id | id in image :: Entry(image[id], true, false, 0), nextId)
  }

  /** What survives a restart: the bytes of every visible block. */
  ghost function Persisted(d: Directory): map<BlockId, seq<uint8>>
  {
    map id | id in d.entries && Visible(d, id) :: d.entries[id].data
  }

  function Apply(d: Directory, op: Op): Step
  {
    match op
    case CreateOp(id) => CreateNamed(d, id)
    case OpenOp(id) => OpenReader(d, id)
    case DeleteOp(id) => Delete(d, id)
    case CloseReaderOp(id) => CloseReader(d, id)
    case CloseWriterOp(id, data) => CloseWriter(d, id, data)
  }

  function Run(d: Directory, ops: seq<Op>): Directory
    decreases |ops|
  {
    if ops == [] then d else Run(Apply(d, ops[0]).next, ops[1..])
  }

  /** How many of the calls close a handle on `id`. */
  function Closes(ops: seq<Op>, id: BlockId): nat
  {
    if ops == [] then 0
    else (if (ops[0].CloseReaderOp? || ops[0].CloseWriterOp?) && ops[0].id == id then 1 else 0)
         + Closes(ops[1..], id)
  }

  lemma {:induction false} RunKeepsInv(d: Directory, ops: seq<Op>)
    requires Inv(d)
    ensures Inv(Run(d, ops))
    decreases |ops|
  {
    if ops != [] {
      RunKeepsInv(Apply(d, ops[0]).next, ops[1..]);
    }
  }

  /**
    Deferred deletion: while more handles on a closed block are open than the calls
    close, the block stays, with the same bytes, whatever else happens, deletion
    included.
   */
  lemma {:induction false} OpenHandlesPinData(d: Directory, ops: seq<Op>, id: BlockId)
    requires id in d.entries && d.entries[id].written
    requires Closes(ops, id) < d.entries[id].opens
    ensures id in Run(d, ops).entries
    ensures Run(d, ops).entries[id].written && Run(d, ops).entries[id].data == d.entries[id].data
    decreases |ops|
  {
    if ops != [] {
      var d' := Apply(d, ops[0]).next;
      assert id in d'.entries && d'.entries[id].written && d'.entries[id].data == d.entries[id].data;
      OpenHandlesPinData(d', ops[1..], id);
    }
  }

  /** An entry disappears only when it is deleted and its last handle closes, or it is deleted unopened. */
  lemma ReclaimedOnlyWhenUnheld(d: Directory, op: Op, id: BlockId)
    requires Inv(d) && id in d.entries && id !in Apply(d, op).next.entries
    ensures op.id == id
    ensures op.DeleteOp? ==> d.entries[id].opens == 0 && !d.entries[id].deleted
    ensures !op.DeleteOp? ==> d.entries[id].deleted && d.entries[id].opens == 1
  {
  }

  /** Anonymous creation takes nextId, which no existing block has: it never collides. */
  lemma AnonymousIdIsFree(d: Directory)
    requires Inv(d)
    ensures CreateNamed(d, d.nextId).status.Ok?
    ensures CreateNamed(d, d.nextId).next.nextId > d.nextId
  {
  }

  /** A restart sees exactly the visible blocks, with their bytes. */
  lemma RestartSeesVisibleBlocks(d: Directory)
    requires Inv(d)
    ensures forall id :: Visible(Load(Persisted(d), d.nextId), id) <==> Visible(d, id)
    ensures forall id :: Visible(d, id) ==> Load(Persisted(d), d.nextId).entries[id].data == d.entries[id].data
    ensures Inv(Load(Persisted(d), d.nextId))
  {
  }
}
