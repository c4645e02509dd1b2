/**
  Whole-lifecycle runs of the block manager, each against a manager built from
  nothing, with the outcome of every call stated in the contract.
 */
module Scenarios {
  import opened BlockTypes
  import W = WriterModel
  import R = ReaderModel
  import D = DirectoryModel
  import Fs

  /** The bytes of "hello". */
  function Hello(): (r: seq<uint8>)
    ensures |r| == 5
  {
    [104, 101, 108, 108, 111]
  }

  /** The bytes of "world". */
  function World(): (r: seq<uint8>)
    ensures |r| == 5 && r != Hello()
  {
    [119, 111, 114, 108, 100]
  }

  /**
    Append "hello", flush, then append "world": the second append is refused, and
    the block keeps "hello" only.
   */
  method FlushEndsAppends() returns (hello: Status, flush: Status, world: Status, close: Status,
                                     bytes: seq<uint8>)
    ensures hello == Ok && flush == Ok && world == Error(IllegalState) && close == Ok
    ensures bytes == Hello()
  {
    var m := new Fs.BlockManager(None);
    var created := m.Create();
    var s, b := m.CreateAnonymousBlock(null);
    hello := b.Append(Hello());
    flush := b.FlushDataAsync();
    world := b.Append(World());
    close := b.Close();
    bytes := b.data;
  }

  /** A closed block reopens for reading with its bytes, and reads back in full. */
  method ClosedBlockReadsBack(bytes: seq<uint8>) returns (size: Result<nat>, read: R.ReadResult)
    ensures size == Success(|bytes|) && read == R.ReadResult(Ok, bytes)
  {
    var m := new Fs.BlockManager(None);
    var created := m.Create();
    var s, w := m.CreateNamedBlock(3, null);
    var appended := w.Append(bytes);
    assert w.data == bytes;
    var closed := w.Close();
    assert D.Visible(m.View(), 3) && m.entries[3].data == bytes;
    var found, r := m.OpenBlock(3, null);
    assert r.isOpen && r.contents == bytes;
    size := r.Size();
    read := r.Read(0, |bytes|, []);
    R.ReadWhole(bytes, []);
  }

  /** A named block closed with nothing appended reads back as empty. */
  method EmptyNamedBlock() returns (close: Status, size: Result<nat>, read: R.ReadResult)
    ensures close == Ok && size == Success(0)
    ensures read == R.ReadResult(Error(OutOfRange), [])
  {
    var m := new Fs.BlockManager(None);
    var created := m.Create();
    var s, b := m.CreateNamedBlock(42, null);
    close := b.Close();
    var found, r := m.OpenBlock(42, null);
    size := r.Size();
    read := r.Read(0, 1, []);
  }

  /** Writes a new block `id` holding `bytes`, closes its writer and opens it for reading. */
  method WriteAndOpen(m: Fs.BlockManager, id: BlockId, bytes: seq<uint8>) returns (r: Fs.ReadableBlock)
    requires m.Valid() && m.initialized && id !in m.entries
    modifies m
    ensures fresh(r) && r.manager == m && r.id == id && r.isOpen && r.contents == bytes && r.Valid()
    ensures m.initialized && id in m.entries && m.entries[id] == D.Entry(bytes, true, false, 1)
  {
    var s, w := m.CreateNamedBlock(id, null);
    var appended := w.Append(bytes);
    assert w.data == bytes;
    var written := w.Close();
    assert D.Visible(m.View(), id) && m.entries[id] == D.Entry(bytes, true, false, 0);
    var found, reader := m.OpenBlock(id, null);
    r := reader;
  }

  /**
    A block deleted while a reader holds it: at once neither OpenBlock nor
    CreateNamedBlock can have it, yet the reader still reads its bytes; closing the
    reader succeeds once, and a second close of the reader is refused.
   */
  method DeleteWhileReading(bytes: seq<uint8>) returns (deleted: Status, reopen: Status, recreate: Status,
                                                        read: R.ReadResult, close: Status, closeAgain: Status)
    ensures deleted == Ok && reopen == Error(NotFound) && recreate == Error(AlreadyExists)
    ensures read == R.ReadResult(Ok, bytes)
    ensures close == Ok && closeAgain == Error(IllegalState)
  {
    var m := new Fs.BlockManager(None);
    var created := m.Create();
    var r := WriteAndOpen(m, 7, bytes);
    // The reader is not among the handles DeleteBlock lets go of.
    ghost var none: seq<object> := [];
    assert r !in none;
    deleted := m.DeleteBlock(7);
    assert r.Valid() && 7 in m.entries && !D.Live(m.View(), 7);
    var r2: Fs.ReadableBlock?, w2: Fs.WritableBlock?;
    reopen, r2 := m.OpenBlock(7, null);
    recreate, w2 := m.CreateNamedBlock(7, null);
    read := r.Read(0, |bytes|, []);
    R.ReadWhole(bytes, []);
    close := r.Close();
    closeAgain := r.Close();
  }

  /** Once the last holder of a deleted block closes, the block is gone and its identifier can name a new block. */
  method ReuseAfterReclaim(bytes: seq<uint8>) returns (deleted: Status, close: Status, reopen: Status, reuse: Status)
    ensures deleted == Ok && close == Ok && reopen == Error(NotFound) && reuse == Ok
  {
    var m := new Fs.BlockManager(None);
    var created := m.Create();
    var r := WriteAndOpen(m, 7, bytes);
    // The reader is not among the handles DeleteBlock lets go of.
    ghost var none: seq<object> := [];
    assert r !in none;
    deleted := m.DeleteBlock(7);
    assert r.Valid() && 7 in m.entries && m.entries[7].deleted && m.entries[7].opens == 1;
    close := r.Close();
    assert 7 !in m.entries;
    var r2: Fs.ReadableBlock?, w2: Fs.WritableBlock?;
    reopen, r2 := m.OpenBlock(7, null);
    reuse, w2 := m.CreateNamedBlock(7, null);
  }

  /**
    A block deleted while its writer is still open: the writer's close still
    succeeds, and afterwards the block is gone.
   */
  method DeleteWhileWriting(bytes: seq<uint8>) returns (deleted: Status, close: Status, reopen: Status)
    ensures deleted == Ok && close == Ok && reopen == Error(NotFound)
  {
    var m := new Fs.BlockManager(None);
    var created := m.Create();
    var s, w := m.CreateAnonymousBlock(null);
    var appended := w.Append(bytes);
    deleted := m.DeleteBlock(w.id);
    close := w.Close();
    var r: Fs.ReadableBlock?;
    reopen, r := m.OpenBlock(w.id, null);
  }

  /** Opens writers on two new blocks, appends `bytes` to the second, and closes the first if `closeFirst`. */
  method TwoWriters(m: Fs.BlockManager, bytes: seq<uint8>, closeFirst: bool) returns (w1: Fs.WritableBlock, w2: Fs.WritableBlock)
    requires m.Valid() && m.initialized
    modifies m
    ensures fresh(w1) && fresh(w2) && w1 != w2 && w1.manager == m && w2.manager == m
    ensures w1.Valid() && w2.Valid()
    ensures w1.state == (if closeFirst then W.Closed else W.Clean)
    ensures w2.state == if bytes == [] then W.Clean else W.Dirty
  {
    // The first writer is not among the handles the second creation lets go of.
    ghost var none: seq<object> := [];
    var s1, b1 := m.CreateAnonymousBlock(null);
    assert b1 !in none;
    var s2, b2 := m.CreateAnonymousBlock(null);
    assert b1.Valid();
    var appended := b2.Append(bytes);
    if closeFirst {
      assert b2 !in [b1];
      var closed := b1.Close();
    }
    w1, w2 := b1, b2;
  }

  /** CloseBlocks on two open writers closes both and succeeds. */
  method CloseBlocksClosesAll(bytes: seq<uint8>) returns (s: Status, first: W.State, second: W.State)
    ensures s == Ok && first == W.Closed && second == W.Closed
  {
    var m := new Fs.BlockManager(None);
    var created := m.Create();
    var w1, w2 := TwoWriters(m, bytes, false);
    var group := [w1, w2];
    assert group[..0] == [] && group[..1] == [w1] && w2 !in [w1];
    ghost var closed;
    s, closed := m.CloseBlocks(group);
    assert closed == 2;
    first, second := w1.state, w2.state;
  }

  /**
    CloseBlocks on two writers of which the first is already closed: the call
    stops at once with IllegalState, and the second keeps its state.
   */
  method CloseBlocksStopsAtClosed(bytes: seq<uint8>) returns (s: Status, first: W.State, second: W.State)
    ensures s == Error(IllegalState)
    ensures first == W.Closed && second == if bytes == [] then W.Clean else W.Dirty
  {
    var m := new Fs.BlockManager(None);
    var created := m.Create();
    var w1, w2 := TwoWriters(m, bytes, true);
    var group := [w1, w2];
    assert group[0] == w1 && group[1] == w2 && group[..0] == [];
    ghost var closed;
    s, closed := m.CloseBlocks(group);
    assert closed == 0;
    first, second := w1.state, w2.state;
  }
}
