/**
  The block manager and its handles as objects whose state changes in place.
  Each method is proved against the pure models: a writer's state follows
  WriterModel, the manager's directory follows DirectoryModel, and reads follow
  ReaderModel.
 */
module Fs {
  import opened BlockTypes
  import W = WriterModel
  import D = DirectoryModel
  import R = ReaderModel

  /**
    Between two states of a manager's bookkeeping: every open handle not in `gone`
    is still registered, and every closed block that is still there has kept its bytes.
   */
  ghost predicate Retains(
    writers0: map<BlockId, WritableBlock>, readers0: map<BlockId, set<ReadableBlock>>, entries0: map<BlockId, D.Entry>,
    writers1: map<BlockId, WritableBlock>, readers1: map<BlockId, set<ReadableBlock>>, entries1: map<BlockId, D.Entry>,
    gone: seq<object>)
  {
    && (forall id :: id in writers0 && writers0[id] !in gone ==> id in writers1 && writers1[id] == writers0[id])
    && (forall id, r :: id in readers0 && r in readers0[id] && r !in gone ==> id in readers1 && r in readers1[id])
    && (forall id :: id in entries0 && entries0[id].written && id in entries1 ==>
          entries1[id].written && entries1[id].data == entries0[id].data)
  }

  lemma RetainsTrans(
    writers0: map<BlockId, WritableBlock>, readers0: map<BlockId, set<ReadableBlock>>, entries0: map<BlockId, D.Entry>,
    writers1: map<BlockId, WritableBlock>, readers1: map<BlockId, set<ReadableBlock>>, entries1: map<BlockId, D.Entry>,
    writers2: map<BlockId, WritableBlock>, readers2: map<BlockId, set<ReadableBlock>>, entries2: map<BlockId, D.Entry>,
    gone1: seq<object>, gone2: seq<object>)
    requires Retains(writers0, readers0, entries0, writers1, readers1, entries1, gone1)
    requires Retains(writers1, readers1, entries1, writers2, readers2, entries2, gone2)
    requires entries2.Keys <= entries1.Keys
    ensures Retains(writers0, readers0, entries0, writers2, readers2, entries2, gone1 + gone2)
  {
  }

  /**
    The manager's bookkeeping: the directory keeps its invariant, and the open-handle
    count of every entry is the number of handles registered for it (its open
    readers, plus its writer while the writer has not closed).
   */
  ghost predicate Tracked(entries: map<BlockId, D.Entry>, nextId: BlockId,
                          writerOf: map<BlockId, WritableBlock>, readersOf: map<BlockId, set<ReadableBlock>>)
  {
    && D.Inv(D.Directory(entries, nextId))
    && readersOf.Keys == entries.Keys
    && (forall id :: id in writerOf <==> id in entries && !entries[id].written)
    && (forall id :: id in entries ==>
          entries[id].opens == |readersOf[id]| + (if entries[id].written then 0 else 1))
  }

  /** Adding a new block keeps every handle and every block there was. */
  lemma CreateRetains(writerOf: map<BlockId, WritableBlock>, readersOf: map<BlockId, set<ReadableBlock>>,
                      entries: map<BlockId, D.Entry>, id: BlockId, w: WritableBlock, e: D.Entry)
    requires id !in writerOf && id !in readersOf && id !in entries
    ensures Retains(writerOf, readersOf, entries, writerOf[id := w], readersOf[id := {}], entries[id := e], [])
  {
  }

  lemma TrackCreate(entries: map<BlockId, D.Entry>, nextId: BlockId,
                    writerOf: map<BlockId, WritableBlock>, readersOf: map<BlockId, set<ReadableBlock>>,
                    id: BlockId, w: WritableBlock)
    requires Tracked(entries, nextId, writerOf, readersOf) && id !in entries
    ensures
      var entries', nextId' := entries[id := D.Entry([], false, false, 1)], if nextId <= id then id + 1 else nextId;
      && Tracked(entries', nextId', writerOf[id := w], readersOf[id := {}])
      && D.CreateNamed(D.Directory(entries, nextId), id) == D.Step(D.Directory(entries', nextId'), Ok)
      && Retains(writerOf, readersOf, entries, writerOf[id := w], readersOf[id := {}], entries', [])
  {
    var entries', nextId' := entries[id := D.Entry([], false, false, 1)], if nextId <= id then id + 1 else nextId;
    var readersOf' := readersOf[id := {}];
    CreateRetains(writerOf, readersOf, entries, id, w, D.Entry([], false, false, 1));
    assert D.CreateNamed(D.Directory(entries, nextId), id) == D.Step(D.Directory(entries', nextId'), Ok);
    assert D.Inv(D.Directory(entries', nextId'));
    forall k | k in entries'
      ensures entries'[k].opens == |readersOf'[k]| + (if entries'[k].written then 0 else 1)
    {
      if k != id {
        assert entries'[k] == entries[k] && readersOf'[k] == readersOf[k];
      }
    }
  }

  lemma TrackOpen(entries: map<BlockId, D.Entry>, nextId: BlockId,
                  writerOf: map<BlockId, WritableBlock>, readersOf: map<BlockId, set<ReadableBlock>>,
                  id: BlockId, r: ReadableBlock)
    requires Tracked(entries, nextId, writerOf, readersOf) && D.Visible(D.Directory(entries, nextId), id)
    requires r !in readersOf[id]
    ensures
      var entries' := entries[id := entries[id].(opens := entries[id].opens + 1)];
      && Tracked(entries', nextId, writerOf, readersOf[id := readersOf[id] + {r}])
      && D.OpenReader(D.Directory(entries, nextId), id) == D.Step(D.Directory(entries', nextId), Ok)
      && Retains(writerOf, readersOf, entries, writerOf, readersOf[id := readersOf[id] + {r}], entries', [])
  {
    assert |readersOf[id] + {r}| == |readersOf[id]| + 1;
  }

  lemma TrackDelete(entries: map<BlockId, D.Entry>, nextId: BlockId,
                    writerOf: map<BlockId, WritableBlock>, readersOf: map<BlockId, set<ReadableBlock>>,
                    id: BlockId)
    requires Tracked(entries, nextId, writerOf, readersOf) && D.Live(D.Directory(entries, nextId), id)
    ensures
      var reclaim := entries[id].opens == 0;
      var entries' := if reclaim then entries - {id} else entries[id := entries[id].(deleted := true)];
      var readersOf' := if reclaim then readersOf - {id} else readersOf;
      && Tracked(entries', nextId, writerOf, readersOf')
      && D.Delete(D.Directory(entries, nextId), id) == D.Step(D.Directory(entries', nextId), Ok)
      && Retains(writerOf, readersOf, entries, writerOf, readersOf', entries', [])
  {
    if entries[id].opens == 0 {
      assert readersOf[id] == {};
    }
  }

  lemma TrackCloseWriter(entries: map<BlockId, D.Entry>, nextId: BlockId,
                         writerOf: map<BlockId, WritableBlock>, readersOf: map<BlockId, set<ReadableBlock>>,
                         id: BlockId, w: WritableBlock, data: seq<uint8>)
    requires Tracked(entries, nextId, writerOf, readersOf) && id in writerOf && writerOf[id] == w
    ensures
      var e := entries[id];
      var reclaim := e.deleted && e.opens == 1;
      var entries' := if reclaim then entries - {id} else entries[id := D.Entry(data, true, e.deleted, e.opens - 1)];
      var readersOf' := if reclaim then readersOf - {id} else readersOf;
      && Tracked(entries', nextId, writerOf - {id}, readersOf')
      && D.CloseWriter(D.Directory(entries, nextId), id, data) == D.Step(D.Directory(entries', nextId), Ok)
      && entries'.Keys <= entries.Keys
      && Retains(writerOf, readersOf, entries, writerOf - {id}, readersOf', entries', [w])
  {
    assert readersOf[id] == {};
    var e := entries[id];
    var sealed := e.(data := data, written := true);
    if e.deleted {
      assert entries[id := sealed] - {id} == entries - {id};
      assert Tracked(entries - {id}, nextId, writerOf - {id}, readersOf - {id});
    } else {
      assert entries[id := sealed][id := sealed.(opens := 0)] == entries[id := D.Entry(data, true, false, 0)];
      assert Tracked(entries[id := D.Entry(data, true, false, 0)], nextId, writerOf - {id}, readersOf);
    }
  }

  lemma TrackCloseReader(entries: map<BlockId, D.Entry>, nextId: BlockId,
                         writerOf: map<BlockId, WritableBlock>, readersOf: map<BlockId, set<ReadableBlock>>,
                         id: BlockId, r: ReadableBlock)
    requires Tracked(entries, nextId, writerOf, readersOf) && id in readersOf && r in readersOf[id]
    ensures
      var e := entries[id];
      var reclaim := e.deleted && e.opens == 1;
      var entries' := if reclaim then entries - {id} else entries[id := e.(opens := e.opens - 1)];
      var readersOf' := if reclaim then readersOf - {id} else readersOf[id := readersOf[id] - {r}];
      && Tracked(entries', nextId, writerOf, readersOf')
      && D.CloseReader(D.Directory(entries, nextId), id) == D.Step(D.Directory(entries', nextId), Ok)
      && entries'.Keys <= entries.Keys
      && Retains(writerOf, readersOf, entries, writerOf, readersOf', entries', [r])
  {
    var holders, e := readersOf[id], entries[id];
    assert holders == (holders - {r}) + {r};
    assert |holders - {r}| == |holders| - 1;
    if e.deleted && e.opens == 1 {
      assert holders - {r} == {};
      assert Tracked(entries - {id}, nextId, writerOf, readersOf - {id});
      ReclaimRetains(writerOf, readersOf, entries, id, r);
    } else {
      assert Tracked(entries[id := e.(opens := e.opens - 1)], nextId, writerOf, readersOf[id := holders - {r}]);
      ReleaseRetains(writerOf, readersOf, entries, id, r, e.opens - 1);
    }
  }

  /** Dropping the last reader of a block, and the block with it, keeps every other handle and block. */
  lemma ReclaimRetains(writerOf: map<BlockId, WritableBlock>, readersOf: map<BlockId, set<ReadableBlock>>,
                       entries: map<BlockId, D.Entry>, id: BlockId, r: ReadableBlock)
    requires id in readersOf && readersOf[id] <= {r}
    ensures Retains(writerOf, readersOf, entries, writerOf, readersOf - {id}, entries - {id}, [r])
  {
  }

  /** Dropping one reader of a block keeps every other handle, and the block's bytes. */
  lemma ReleaseRetains(writerOf: map<BlockId, WritableBlock>, readersOf: map<BlockId, set<ReadableBlock>>,
                       entries: map<BlockId, D.Entry>, id: BlockId, r: ReadableBlock, opens: nat)
    requires id in readersOf && id in entries
    ensures Retains(writerOf, readersOf, entries, writerOf, readersOf[id := readersOf[id] - {r}],
                    entries[id := entries[id].(opens := opens)], [r])
  {
  }

  /**
    After closing the first `i` writers of a group in turn, starting from `dir0`, the
    directory `dir` has absorbed their bytes and kept every other handle and every
    written block.
   */
  ghost predicate AbsorbedBy(
    dir: D.Directory, writers: map<BlockId, WritableBlock>, readers: map<BlockId, set<ReadableBlock>>,
    blocks: seq<WritableBlock>, i: nat, pending: seq<(BlockId, seq<uint8>)>,
    dir0: D.Directory, writers0: map<BlockId, WritableBlock>,
    readers0: map<BlockId, set<ReadableBlock>>, entries0: map<BlockId, D.Entry>)
  {
    && i <= |blocks| == |pending|
    && dir == D.CloseWriters(dir0, pending[..i])
    && dir.entries.Keys <= entries0.Keys
    && Retains(writers0, readers0, entries0, writers, readers, dir.entries, blocks[..i])
  }

  lemma StillAbsorbed(
    dir1: D.Directory, writers1: map<BlockId, WritableBlock>, readers1: map<BlockId, set<ReadableBlock>>,
    dir2: D.Directory, writers2: map<BlockId, WritableBlock>, readers2: map<BlockId, set<ReadableBlock>>,
    blocks: seq<WritableBlock>, i: nat, pending: seq<(BlockId, seq<uint8>)>,
    dir0: D.Directory, writers0: map<BlockId, WritableBlock>,
    readers0: map<BlockId, set<ReadableBlock>>, entries0: map<BlockId, D.Entry>)
    requires i < |blocks| && AbsorbedBy(dir1, writers1, readers1, blocks, i, pending, dir0, writers0, readers0, entries0)
    requires D.CloseWriter(dir1, pending[i].0, pending[i].1) == D.Step(dir2, Ok)
    requires dir2.entries.Keys <= dir1.entries.Keys
    requires Retains(writers1, readers1, dir1.entries, writers2, readers2, dir2.entries, [blocks[i]])
    ensures AbsorbedBy(dir2, writers2, readers2, blocks, i + 1, pending, dir0, writers0, readers0, entries0)
  {
    RetainsTrans(writers0, readers0, entries0, writers1, readers1, dir1.entries,
                 writers2, readers2, dir2.entries, blocks[..i], [blocks[i]]);
    assert blocks[..i] + [blocks[i]] == blocks[..i + 1];
    CloseWritersSnoc(dir0, pending, i, dir1, dir2);
  }

  /** The history and the bytes of each writer of a group. */
  ghost function WriterViews(blocks: seq<WritableBlock>): (r: seq<(W.Writer, seq<uint8>)>)
    reads blocks
    ensures |r| == |blocks|
    ensures forall j :: 0 <= j < |blocks| ==> r[j] == (blocks[j].View(), blocks[j].data)
  {
    seq(|blocks|, j requires 0 <= j < |blocks| reads blocks => (blocks[j].View(), blocks[j].data))
  }

  /**
    A group of writers, seen through `views`, after CloseBlocks closed its first `i`:
    each writer is consistent and holds the bytes it held at the start, each open one
    is registered in `writers`, the first `i` are closed, and those not yet reached
    keep the state they had at the start.
   */
  ghost predicate GroupedBy(views: seq<(W.Writer, seq<uint8>)>, writers: map<BlockId, WritableBlock>,
                            blocks: seq<WritableBlock>, i: nat, pending: seq<(BlockId, seq<uint8>)>, states: seq<W.State>)
  {
    && i <= |blocks| == |views| == |pending| == |states|
    && (forall j :: 0 <= j < |blocks| ==>
          views[j].1 == W.Data(views[j].0) && W.WellFormed(views[j].0) && pending[j] == (blocks[j].id, views[j].1))
    && (forall j :: 0 <= j < |blocks| && views[j].0.state != W.Closed ==>
          blocks[j].id in writers && writers[blocks[j].id] == blocks[j])
    && (forall j :: 0 <= j < i ==> views[j].0.state == W.Closed)
    && (forall j :: 0 <= j < |blocks| && blocks[j] !in blocks[..i] ==> views[j].0.state == states[j])
  }

  /** Closing the `i`-th writer of a group closes every copy of it and leaves the rest as they were. */
  lemma StillGrouped(views1: seq<(W.Writer, seq<uint8>)>, writers1: map<BlockId, WritableBlock>,
                     readers1: map<BlockId, set<ReadableBlock>>, entries1: map<BlockId, D.Entry>,
                     views2: seq<(W.Writer, seq<uint8>)>, writers2: map<BlockId, WritableBlock>,
                     readers2: map<BlockId, set<ReadableBlock>>, entries2: map<BlockId, D.Entry>,
                     blocks: seq<WritableBlock>, i: nat, pending: seq<(BlockId, seq<uint8>)>, states: seq<W.State>)
    requires i < |blocks| && GroupedBy(views1, writers1, blocks, i, pending, states)
    requires |views2| == |blocks|
    requires forall j :: 0 <= j < |blocks| ==>
               views2[j] == if blocks[j] == blocks[i] then (views1[j].0.(state := W.Closed), views1[j].1) else views1[j]
    requires Retains(writers1, readers1, entries1, writers2, readers2, entries2, [blocks[i]])
    ensures GroupedBy(views2, writers2, blocks, i + 1, pending, states)
  {
    forall j | 0 <= j < |blocks| && views2[j].0.state != W.Closed
      ensures blocks[j].id in writers2 && writers2[blocks[j].id] == blocks[j]
    {
      assert blocks[j] != blocks[i] && views2[j] == views1[j];
      assert writers1[blocks[j].id] !in [blocks[i]];
    }
    assert blocks[..i] + [blocks[i]] == blocks[..i + 1];
  }

  /** Each of the first `i` blocks of a group was open at the start and is no copy of an earlier one. */
  ghost predicate OpenedInTurn(blocks: seq<WritableBlock>, i: nat, states: seq<W.State>)
    requires i <= |blocks| == |states|
  {
    forall j :: 0 <= j < i ==> states[j] != W.Closed && blocks[j] !in blocks[..j]
  }

  lemma OpenedInTurnSnoc(blocks: seq<WritableBlock>, i: nat, states: seq<W.State>)
    requires i < |blocks| == |states| && OpenedInTurn(blocks, i, states)
    requires states[i] != W.Closed && blocks[i] !in blocks[..i]
    ensures OpenedInTurn(blocks, i + 1, states)
  {
  }

  lemma CloseWritersSnoc(d: D.Directory, writers: seq<(BlockId, seq<uint8>)>, i: nat, before: D.Directory, after: D.Directory)
    requires i < |writers| && before == D.CloseWriters(d, writers[..i])
    requires D.CloseWriter(before, writers[i].0, writers[i].1) == D.Step(after, Ok)
    ensures after == D.CloseWriters(d, writers[..i + 1])
  {
    assert writers[..i + 1][..i] == writers[..i];
  }

  /** The smallest identifier above every identifier found on disk. */
  method NextFreeId(ids: set<BlockId>) returns (n: BlockId)
    ensures forall id :: id in ids ==> id < n
    ensures ids == {} ==> n == 0
    ensures ids != {} ==> n - 1 in ids
  {
    n := 0;
    var rest := ids;
    while rest != {}
      invariant rest <= ids
      invariant forall id :: id in ids - rest ==> id < n
      invariant n == 0 || n - 1 in ids - rest
      invariant ids - rest == {} ==> n == 0
      decreases |rest|
    {
      var id :| id in rest;
      if n <= id {
        n := id + 1;
      }
      assert ids - (rest - {id}) == (ids - rest) + {id};
      rest := rest - {id};
    }
    assert ids - rest == ids;
  }

  class BlockManager {
    /** The on-disk representation found when the manager was constructed, if any. */
    var image: Option<map<BlockId, seq<uint8>>>
    /** Create or Open has succeeded. */
    var initialized: bool
    /** The directory: every block that exists, live or deleted-but-open. */
    var entries: map<BlockId, D.Entry>
    var nextId: BlockId
    /** The open writer of each block its writer has not closed yet. */
    ghost var writerOf: map<BlockId, WritableBlock>
    /** The open readers of each block. */
    ghost var readersOf: map<BlockId, set<ReadableBlock>>

    ghost function View(): D.Directory
      reads this
    {
      D.Directory(entries, nextId)
    }

    /** The open-handle count of every entry is the number of handles registered for it. */
    ghost predicate Valid()
      reads this
    {
      && (initialized ==> image.Some?)
      && (!initialized ==> entries == map[] && writerOf == map[] && readersOf == map[])
      && Tracked(entries, nextId, writerOf, readersOf)
    }

    constructor (image: Option<map<BlockId, seq<uint8>>>)
      ensures Valid() && !initialized && this.image == image && View() == D.Empty
    {
      this.image := image;
      initialized := false;
      entries := map[];
      nextId := 0;
      writerOf := map[];
      readersOf := map[];
    }

    /** Creates a new on-disk representation; fails if one already exists. */
    method Create() returns (s: Status)
      requires Valid()
      modifies this
      ensures Valid()
      ensures s.Ok? <==> old(image).None?
      ensures s.Error? ==> s.kind == AlreadyExists && unchanged(this)
      ensures s.Ok? ==> initialized && image == Some(map[]) && View() == D.Empty
    {
      if image.Some? {
        return Error(AlreadyExists);
      }
      image := Some(map[]);
      initialized := true;
      entries := map[];
      nextId := 0;
      s := Ok;
    }

    /** Opens the existing on-disk representation; fails if there is none. */
    method Open() returns (s: Status)
      requires Valid()
      modifies this
      ensures Valid()
      ensures s.Ok? <==> !old(initialized) && old(image).Some?
      ensures s.Error? ==> s.kind == (if old(initialized) then IllegalState else NotFound) && unchanged(this)
      ensures s.Ok? ==> initialized && image == old(image)
      ensures s.Ok? ==> View() == D.Load(image.value, nextId)
      ensures s.Ok? ==> forall id :: id in image.value ==> id < nextId
    {
      if initialized {
        return Error(IllegalState);
      }
      if image.None? {
        return Error(NotFound);
      }
      var disk := image.value;
      var n := NextFreeId(disk.Keys);
      entries := map id | id in disk :: D.Entry(disk[id], true, false, 0);
      nextId := n;
      readersOf := map id | id in disk :: {};
      initialized := true;
      s := Ok;
    }

    /** Creates a block under a caller-chosen identifier and opens it for writing. */
    method CreateNamedBlock(id: BlockId, prior: WritableBlock?) returns (s: Status, block: WritableBlock?)
      requires Valid()
      modifies this
      ensures Valid()
      ensures s.Ok? <==> old(initialized) && id !in old(entries)
      ensures s.Error? ==> s.kind == (if old(initialized) then AlreadyExists else IllegalState)
      ensures s.Error? ==> block == prior && unchanged(this)
      ensures s.Ok? ==> && block != null && fresh(block) && block.manager == this && block.id == id
                        && block.Valid() && block.View() == W.Fresh
                        && D.CreateNamed(old(View()), id) == D.Step(View(), Ok)
      ensures image == old(image) && initialized == old(initialized)
      ensures Retains(old(writerOf), old(readersOf), old(entries), writerOf, readersOf, entries, [])
    {
      if !initialized {
        return Error(IllegalState), prior;
      }
      if id in entries {
        return Error(AlreadyExists), prior;
      }
      block := new WritableBlock(this, id);
      TrackCreate(entries, nextId, writerOf, readersOf, id, block);
      entries := entries[id := D.Entry([], false, false, 1)];
      if nextId <= id {
        nextId := id + 1;
      }
      writerOf := writerOf[id := block];
      readersOf := readersOf[id := {}];
      s := Ok;
    }

    /** Creates a block under a fresh identifier and opens it for writing. */
    method CreateAnonymousBlock(prior: WritableBlock?) returns (s: Status, block: WritableBlock?)
      requires Valid()
      modifies this
      ensures Valid()
      ensures s.Ok? <==> old(initialized)
      ensures s.Error? ==> s.kind == IllegalState && block == prior && unchanged(this)
      ensures s.Ok? ==> && block != null && fresh(block) && block.manager == this
                        && block.id == old(nextId) && block.id !in old(entries) && nextId > block.id
                        && block.Valid() && block.View() == W.Fresh
                        && D.CreateNamed(old(View()), block.id) == D.Step(View(), Ok)
      ensures image == old(image) && initialized == old(initialized)
      ensures Retains(old(writerOf), old(readersOf), old(entries), writerOf, readersOf, entries, [])
    {
      if !initialized {
        return Error(IllegalState), prior;
      }
      D.AnonymousIdIsFree(View());
      s, block := CreateNamedBlock(nextId, prior);
    }

    /** Opens a closed, undeleted block for reading. */
    method OpenBlock(id: BlockId, prior: ReadableBlock?) returns (s: Status, block: ReadableBlock?)
      requires Valid()
      modifies this
      ensures Valid()
      ensures s.Ok? <==> old(initialized) && D.Visible(old(View()), id)
      ensures s.Error? ==> s.kind == (if old(initialized) then NotFound else IllegalState)
      ensures s.Error? ==> block == prior && unchanged(this)
      ensures s.Ok? ==> && block != null && fresh(block) && block.manager == this && block.id == id
                        && block.isOpen && block.Valid() && block.contents == old(entries)[id].data
                        && D.OpenReader(old(View()), id) == D.Step(View(), Ok)
      ensures image == old(image) && initialized == old(initialized)
      ensures Retains(old(writerOf), old(readersOf), old(entries), writerOf, readersOf, entries, [])
    {
      if !initialized {
        return Error(IllegalState), prior;
      }
      if !(id in entries && entries[id].written && !entries[id].deleted) {
        return Error(NotFound), prior;
      }
      var e := entries[id];
      block := new ReadableBlock(this, id, e.data);
      TrackOpen(entries, nextId, writerOf, readersOf, id, block);
      entries := entries[id := e.(opens := e.opens + 1)];
      readersOf := readersOf[id := readersOf[id] + {block}];
      s := Ok;
    }

    /**
      Deletes a block at once for every later OpenBlock and CreateNamedBlock; its
      bytes stay for the readers and writer that still hold it open.
     */
    method DeleteBlock(id: BlockId) returns (s: Status)
      requires Valid()
      modifies this
      ensures Valid()
      ensures s.Ok? <==> old(initialized) && D.Live(old(View()), id)
      ensures s.Error? ==> s.kind == (if old(initialized) then NotFound else IllegalState) && unchanged(this)
      ensures s.Ok? ==> D.Delete(old(View()), id) == D.Step(View(), Ok)
      ensures image == old(image) && initialized == old(initialized)
      ensures Retains(old(writerOf), old(readersOf), old(entries), writerOf, readersOf, entries, [])
    {
      if !initialized {
        return Error(IllegalState);
      }
      if !(id in entries && !entries[id].deleted) {
        return Error(NotFound);
      }
      TrackDelete(entries, nextId, writerOf, readersOf, id);
      if entries[id].opens == 0 {
        entries := entries - {id};
        readersOf := readersOf - {id};
      } else {
        entries := entries[id := entries[id].(deleted := true)];
      }
      s := Ok;
    }

    /** A writer's close as its manager sees it: the block takes the writer's bytes and loses one holder. */
    method ReleaseWriter(id: BlockId, w: WritableBlock, data: seq<uint8>)
      requires Valid() && id in writerOf && writerOf[id] == w
      modifies this
      ensures Valid()
      ensures D.CloseWriter(old(View()), id, data) == D.Step(View(), Ok)
      ensures image == old(image) && initialized == old(initialized)
      ensures entries.Keys <= old(entries).Keys
      ensures Retains(old(writerOf), old(readersOf), old(entries), writerOf, readersOf, entries, [w])
    {
      var e := entries[id];
      TrackCloseWriter(entries, nextId, writerOf, readersOf, id, w, data);
      if e.deleted && e.opens == 1 {
        entries := entries - {id};
        readersOf := readersOf - {id};
      } else {
        entries := entries[id := D.Entry(data, true, e.deleted, e.opens - 1)];
      }
      writerOf := writerOf - {id};
    }

    /** A reader's close as its manager sees it: the block loses one holder. */
    method ReleaseReader(id: BlockId, r: ReadableBlock)
      requires Valid() && id in readersOf && r in readersOf[id]
      modifies this
      ensures Valid()
      ensures D.CloseReader(old(View()), id) == D.Step(View(), Ok)
      ensures image == old(image) && initialized == old(initialized)
      ensures entries.Keys <= old(entries).Keys
      ensures Retains(old(writerOf), old(readersOf), old(entries), writerOf, readersOf, entries, [r])
    {
      var e := entries[id];
      var holders := readersOf[id];
      TrackCloseReader(entries, nextId, writerOf, readersOf, id, r);
      if e.deleted && e.opens == 1 {
        entries := entries - {id};
        readersOf := readersOf - {id};
      } else {
        entries := entries[id := e.(opens := e.opens - 1)];
        readersOf := readersOf[id := holders - {r}];
      }
    }

    /** The identifiers and current bytes of a group of writers. */
    ghost function Pending(blocks: seq<WritableBlock>): (r: seq<(BlockId, seq<uint8>)>)
      reads blocks
      ensures |r| == |blocks|
      ensures forall i :: 0 <= i < |blocks| ==> r[i] == (blocks[i].id, blocks[i].data)
    {
      seq(|blocks|, i requires 0 <= i < |blocks| reads blocks => (blocks[i].id, blocks[i].data))
    }

    /** The current states of a group of writers. */
    ghost function States(blocks: seq<WritableBlock>): (r: seq<W.State>)
      reads blocks
      ensures |r| == |blocks|
      ensures forall i :: 0 <= i < |blocks| ==> r[i] == blocks[i].state
    {
      seq(|blocks|, i requires 0 <= i < |blocks| reads blocks => blocks[i].state)
    }

    /**
      The handles of CloseBlocks after its first `i` blocks were closed: they all
      still belong to this manager and are as GroupedBy describes.
     */
    ghost predicate Grouped(blocks: seq<WritableBlock>, i: nat, pending: seq<(BlockId, seq<uint8>)>, states: seq<W.State>)
      reads this, blocks
    {
      && Valid()
      && (forall j :: 0 <= j < |blocks| ==> blocks[j].manager == this)
      && GroupedBy(WriterViews(blocks), writerOf, blocks, i, pending, states)
    }

    /** The directory of CloseBlocks after its first `i` blocks were closed. */
    ghost predicate Absorbed(blocks: seq<WritableBlock>, i: nat, pending: seq<(BlockId, seq<uint8>)>,
                             dir0: D.Directory, writers0: map<BlockId, WritableBlock>,
                             readers0: map<BlockId, set<ReadableBlock>>, entries0: map<BlockId, D.Entry>)
      reads this
    {
      AbsorbedBy(View(), writerOf, readersOf, blocks, i, pending, dir0, writers0, readers0, entries0)
    }

    /**
      The `i`-th block of a group, if open, is none of the first `i`, which are closed,
      and was open at the start: closing it extends the blocks closed in turn.
     */
    lemma NextIsNew(blocks: seq<WritableBlock>, i: nat, pending: seq<(BlockId, seq<uint8>)>, states: seq<W.State>)
      requires i < |blocks| && Grouped(blocks, i, pending, states) && blocks[i].state != W.Closed
      requires OpenedInTurn(blocks, i, states)
      ensures OpenedInTurn(blocks, i + 1, states)
    {
      var views := WriterViews(blocks);
      forall k | 0 <= k < i ensures blocks[k] != blocks[i] {
        assert views[k] == (blocks[k].View(), blocks[k].data);
      }
      assert views[i] == (blocks[i].View(), blocks[i].data);
      OpenedInTurnSnoc(blocks, i, states);
    }

    /** What Grouped says of each handle of the group. */
    lemma GroupedHandles(blocks: seq<WritableBlock>, i: nat, pending: seq<(BlockId, seq<uint8>)>, states: seq<W.State>)
      requires Grouped(blocks, i, pending, states)
      ensures forall j :: 0 <= j < |blocks| ==> blocks[j].Valid() && blocks[j].data == pending[j].1
      ensures forall j :: 0 <= j < i ==> blocks[j].state == W.Closed
      ensures forall j :: 0 <= j < |blocks| && blocks[j] !in blocks[..i] ==> blocks[j].state == states[j]
    {
      var views := WriterViews(blocks);
      forall j | 0 <= j < |blocks|
        ensures blocks[j].Valid() && blocks[j].data == pending[j].1 && blocks[j].state == views[j].0.state
      {
        assert views[j] == (blocks[j].View(), blocks[j].data);
      }
    }

    /** One step of CloseBlocks: closes the `i`-th block of the group, which is open. */
    method CloseAt(blocks: seq<WritableBlock>, i: nat, ghost pending: seq<(BlockId, seq<uint8>)>, ghost states: seq<W.State>,
                   ghost dir0: D.Directory, ghost writers0: map<BlockId, WritableBlock>,
                   ghost readers0: map<BlockId, set<ReadableBlock>>, ghost entries0: map<BlockId, D.Entry>)
      requires i < |blocks| && Grouped(blocks, i, pending, states) && blocks[i].state != W.Closed
      requires Absorbed(blocks, i, pending, dir0, writers0, readers0, entries0)
      modifies this, blocks[i]
      ensures image == old(image) && initialized == old(initialized)
      ensures Grouped(blocks, i + 1, pending, states)
      ensures Absorbed(blocks, i + 1, pending, dir0, writers0, readers0, entries0)
    {
      var b := blocks[i];
      ghost var w1, r1, e1, dir1, views1 := writerOf, readersOf, entries, View(), WriterViews(blocks);
      var s := b.Close();
      assert s.Ok?;
      ghost var views2 := WriterViews(blocks);
      forall j | 0 <= j < |blocks|
        ensures views2[j] == if blocks[j] == b then (views1[j].0.(state := W.Closed), views1[j].1) else views1[j]
      {
      }
      StillGrouped(views1, w1, r1, e1, views2, writerOf, readersOf, entries, blocks, i, pending, states);
      StillAbsorbed(dir1, w1, r1, View(), writerOf, readersOf, blocks, i, pending, dir0, writers0, readers0, entries0);
    }

    /** The loop of CloseBlocks: closes the blocks in order up to the first that is already closed. */
    method CloseInTurn(blocks: seq<WritableBlock>, ghost pending: seq<(BlockId, seq<uint8>)>, ghost states: seq<W.State>,
                       ghost dir0: D.Directory, ghost writers0: map<BlockId, WritableBlock>,
                       ghost readers0: map<BlockId, set<ReadableBlock>>, ghost entries0: map<BlockId, D.Entry>)
      returns (s: Status, closed: nat)
      requires Grouped(blocks, 0, pending, states) && Absorbed(blocks, 0, pending, dir0, writers0, readers0, entries0)
      modifies this, blocks
      ensures closed <= |blocks| && (s.Ok? <==> closed == |blocks|)
      ensures s.Error? ==> s == Error(IllegalState) && blocks[closed].state == W.Closed
      ensures Grouped(blocks, closed, pending, states) && OpenedInTurn(blocks, closed, states)
      ensures Absorbed(blocks, closed, pending, dir0, writers0, readers0, entries0)
      ensures image == old(image) && initialized == old(initialized)
    {
      var i := 0;
      // A block that is already closed stops the loop: Close would refuse it and change nothing.
      while i < |blocks| && blocks[i].state != W.Closed
        invariant Grouped(blocks, i, pending, states) && OpenedInTurn(blocks, i, states)
        invariant Absorbed(blocks, i, pending, dir0, writers0, readers0, entries0)
        invariant image == old(image) && initialized == old(initialized)
      {
        NextIsNew(blocks, i, pending, states);
        CloseAt(blocks, i, pending, states, dir0, writers0, readers0, entries0);
        i := i + 1;
      }
      closed := i;
      s := if i == |blocks| then Ok else Error(IllegalState);
    }

    /**
      Closes each block of the group in turn, like Close on each; stops at the first
      block that fails to close and reports how many were closed.
     */
    method CloseBlocks(blocks: seq<WritableBlock>) returns (s: Status, ghost closed: nat)
      requires Valid()
      requires forall i :: 0 <= i < |blocks| ==> blocks[i].manager == this && blocks[i].Valid()
      modifies this, blocks
      ensures Valid()
      ensures forall i :: 0 <= i < |blocks| ==> blocks[i].Valid() && blocks[i].data == old(blocks[i].data)
      ensures closed <= |blocks| && (s.Ok? <==> closed == |blocks|)
      ensures forall i :: 0 <= i < closed ==> blocks[i].state == W.Closed
      ensures closed < |blocks| ==> s == Error(IllegalState)
      ensures forall i :: 0 <= i < closed ==> old(blocks[i].state) != W.Closed && blocks[i] !in blocks[..i]
      ensures closed < |blocks| ==> old(blocks[closed].state) == W.Closed || blocks[closed] in blocks[..closed]
      ensures forall i :: 0 <= i < |blocks| && blocks[i] !in blocks[..closed] ==>
                blocks[i].state == old(blocks[i].state)
      ensures View() == D.CloseWriters(old(View()), old(Pending(blocks))[..closed])
      ensures image == old(image) && initialized == old(initialized)
      ensures Retains(old(writerOf), old(readersOf), old(entries), writerOf, readersOf, entries, blocks[..closed])
    {
      ghost var pending, states := Pending(blocks), States(blocks);
      ghost var dir0, writers0, readers0, entries0 := View(), writerOf, readersOf, entries;
      assert blocks[..0] == [] && pending[..0] == [];
      s, closed := CloseInTurn(blocks, pending, states, dir0, writers0, readers0, entries0);
      GroupedHandles(blocks, closed, pending, states);
      assert forall j :: 0 <= j < closed ==> states[j] != W.Closed && blocks[j] !in blocks[..j];
    }
  }

  /** A block open for writing: append-only, then flushed, then closed. */
  class WritableBlock {
    const id: BlockId
    const manager: BlockManager
    var state: W.State
    /** The bytes appended so far. */
    var data: seq<uint8>
    /** The chunks of the successful Append calls, in call order. */
    ghost var appends: seq<seq<uint8>>

    ghost function View(): W.Writer
      reads this
    {
      W.Writer(state, appends)
    }

    /** The buffer is the accepted chunks laid end to end, and the state says whether any are dirty. */
    ghost predicate Consistent()
      reads this
    {
      data == W.Data(View()) && W.WellFormed(View())
    }

    /** An open writer is the one its manager knows for its block. */
    ghost predicate Valid()
      reads this, manager
    {
      && manager.Valid()
      && Consistent()
      && (state != W.Closed ==> id in manager.writerOf && manager.writerOf[id] == this)
    }

    constructor (manager: BlockManager, id: BlockId)
      ensures this.manager == manager && this.id == id
      ensures View() == W.Fresh && data == []
    {
      this.manager := manager;
      this.id := id;
      state := W.Clean;
      data := [];
      appends := [];
    }

    /** The number of bytes successfully appended. */
    function BytesAppended(): (n: nat)
      reads this, manager
      requires Valid()
      ensures n == W.TotalLength(appends)
    {
      W.ConcatLength(appends);
      |data|
    }

    method Append(bytes: seq<uint8>) returns (s: Status)
      requires Valid()
      modifies this
      ensures Valid()
      ensures W.Append(old(View()), bytes) == W.Step(View(), s)
      ensures data == if s.Ok? then old(data) + bytes else old(data)
    {
      if state == W.Clean || state == W.Dirty {
        data := data + bytes;
        appends := appends + [bytes];
        if bytes != [] {
          state := W.Dirty;
        }
        s := Ok;
      } else {
        s := Error(IllegalState);
      }
    }

    method FlushDataAsync() returns (s: Status)
      requires Valid()
      modifies this
      ensures Valid()
      ensures W.FlushDataAsync(old(View())) == W.Step(View(), s)
      ensures data == old(data)
    {
      if state == W.Closed {
        return Error(IllegalState);
      }
      state := W.Flushing;
      s := Ok;
    }

    /**
      Closes the block: its bytes become the block's bytes in the directory, and
      the manager drops this writer's handle, reclaiming a deleted block.
     */
    method Close() returns (s: Status)
      requires Valid()
      modifies this, manager
      ensures Valid()
      ensures W.Close(old(View())) == W.Step(View(), s)
      ensures data == old(data)
      ensures s.Ok? ==> D.CloseWriter(old(manager.View()), id, data) == D.Step(manager.View(), Ok)
      ensures s.Error? ==> unchanged(this, manager)
      ensures manager.image == old(manager.image) && manager.initialized == old(manager.initialized)
      ensures manager.entries.Keys <= old(manager.entries).Keys
      ensures Retains(old(manager.writerOf), old(manager.readersOf), old(manager.entries),
                      manager.writerOf, manager.readersOf, manager.entries, [this])
    {
      if state == W.Closed {
        return Error(IllegalState);
      }
      manager.ReleaseWriter(id, this, data);
      state := W.Closed;
      s := Ok;
    }
  }

  /** A block open for reading: a fixed view of a closed block's bytes. */
  class ReadableBlock {
    const id: BlockId
    const manager: BlockManager
    var isOpen: bool
    /** The block's bytes when it was opened. */
    ghost const contents: seq<uint8>

    /** While open, the block is registered with its manager and still holds the bytes it had at open. */
    ghost predicate Valid()
      reads this, manager
    {
      && manager.Valid()
      && (isOpen ==>
            && id in manager.readersOf && this in manager.readersOf[id]
            && id in manager.entries && manager.entries[id].written
            && manager.entries[id].data == contents)
    }

    constructor (manager: BlockManager, id: BlockId, ghost contents: seq<uint8>)
      ensures this.manager == manager && this.id == id && this.contents == contents && isOpen
    {
      this.manager := manager;
      this.id := id;
      this.contents := contents;
      isOpen := true;
    }

    /** The written size of the block. */
    function Size(): (r: Result<nat>)
      reads this, manager
      requires Valid()
      ensures isOpen ==> r == Success(|contents|)
      ensures !isOpen ==> r == Failure(IllegalState)
    {
      if isOpen then Success(|manager.entries[id].data|) else Failure(IllegalState)
    }

    /** Reads exactly `length` bytes from `offset`, leaving `result` as it was on error. */
    function Read(offset: nat, length: nat, result: seq<uint8>): (r: R.ReadResult)
      reads this, manager
      requires Valid()
      ensures isOpen ==> r == R.Read(contents, offset, length, result)
      ensures !isOpen ==> r == R.ReadResult(Error(IllegalState), result)
    {
      if isOpen then R.Read(manager.entries[id].data, offset, length, result)
      else R.ReadResult(Error(IllegalState), result)
    }

    /** Closes the handle once; a second Close fails and changes nothing. */
    method Close() returns (s: Status)
      requires Valid()
      modifies this, manager
      ensures Valid() && !isOpen
      ensures s.Ok? <==> old(isOpen)
      ensures s.Error? ==> s.kind == IllegalState && unchanged(manager)
      ensures s.Ok? ==> D.CloseReader(old(manager.View()), id) == D.Step(manager.View(), Ok)
      ensures manager.image == old(manager.image) && manager.initialized == old(manager.initialized)
      ensures manager.entries.Keys <= old(manager.entries).Keys
      ensures Retains(old(manager.writerOf), old(manager.readersOf), old(manager.entries),
                      manager.writerOf, manager.readersOf, manager.entries, [this])
    {
      if !isOpen {
        return Error(IllegalState);
      }
      manager.ReleaseReader(id, this);
      isOpen := false;
      s := Ok;
    }
  }
}
