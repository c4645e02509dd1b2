/**
  The three models together: what a writer appends is what its block holds once
  closed, and what every reader of the block sees afterwards.
 */
module Lifecycle {
  import opened BlockTypes
  import W = WriterModel
  import D = DirectoryModel
  import R = ReaderModel

  /** Each accepted chunk reads back at the offset where the chunks before it end. */
  lemma ChunkReadBack(chunks: seq<seq<uint8>>, k: nat, result: seq<uint8>)
    requires k < |chunks|
    ensures R.Read(W.Concat(chunks), W.TotalLength(chunks[..k]), |chunks[k]|, result)
         == R.ReadResult(Ok, chunks[k])
  {
    var before, rest := chunks[..k], chunks[k + 1..];
    assert chunks == before + [chunks[k]] + rest;
    W.ConcatAppend(before + [chunks[k]], rest);
    assert W.Concat([chunks[k]]) == chunks[k] by {
      assert [chunks[k]][..0] == [];
    }
    W.ConcatAppend(before, [chunks[k]]);
    W.ConcatLength(before);
    var all := W.Concat(before) + chunks[k] + W.Concat(rest);
    assert all[|W.Concat(before)|..|W.Concat(before)| + |chunks[k]|] == chunks[k];
  }

  /**
    A writer that closes a live block commits its bytes: the block becomes visible,
    and a reader opened afterwards has the writer's BytesAppended as its size and
    reads back exactly the appended bytes.
   */
  lemma CloseThenOpenReadsAppended(d: D.Directory, id: BlockId, w: W.Writer, result: seq<uint8>)
    requires D.Inv(d) && D.Live(d, id) && !d.entries[id].written
    requires w.state != W.Closed
    ensures W.Close(w).status.Ok?
    ensures D.CloseWriter(d, id, W.Data(W.Close(w).next)).status.Ok?
    ensures D.Visible(D.CloseWriter(d, id, W.Data(W.Close(w).next)).next, id)
    ensures
      var open := D.OpenReader(D.CloseWriter(d, id, W.Data(W.Close(w).next)).next, id);
      && open.status.Ok?
      && |open.next.entries[id].data| == W.BytesAppended(w)
      && R.Read(open.next.entries[id].data, 0, W.BytesAppended(w), result) == R.ReadResult(Ok, W.Data(w))
  {
    var bytes := W.Data(W.Close(w).next);
    assert bytes == W.Data(w);
    var closed := D.CloseWriter(d, id, bytes).next;
    assert id in closed.entries && closed.entries[id].data == bytes;
    assert W.Data(w)[0..|W.Data(w)|] == W.Data(w);
  }

  /**
    End to end: a fresh block written by any calls and then closed holds the
    chunks of the accepted appends, in call order, and reads back as exactly those.
   */
  lemma WrittenBlockReadsBack(d: D.Directory, id: BlockId, ops: seq<W.Op>, result: seq<uint8>)
    requires D.Inv(d) && D.Live(d, id) && !d.entries[id].written
    ensures
      var w := W.Run(W.Fresh, ops + [W.CloseOp]);
      var closed := D.CloseWriter(d, id, W.Data(w));
      && closed.status.Ok?
      && D.Visible(closed.next, id)
      && closed.next.entries[id].data == W.Concat(W.AcceptedAppends(ops))
      && R.Read(closed.next.entries[id].data, 0, W.TotalLength(W.AcceptedAppends(ops)), result)
         == R.ReadResult(Ok, W.Concat(W.AcceptedAppends(ops)))
  {
    W.WriteThenClose(ops);
    var w := W.Run(W.Fresh, ops + [W.CloseOp]);
    var all := W.Concat(W.AcceptedAppends(ops));
    W.ConcatLength(W.AcceptedAppends(ops));
    assert all[0..|all|] == all;
  }

  /**
    Blocks are append only: whatever calls follow, a range that was already
    written reads back the same as before.
   */
  lemma AppendsKeepEarlierReads(w: W.Writer, ops: seq<W.Op>, offset: nat, length: nat, result: seq<uint8>)
    requires offset + length <= |W.Data(w)|
    ensures R.Read(W.Data(W.Run(w, ops)), offset, length, result) == R.Read(W.Data(w), offset, length, result)
  {
    W.RunData(w, ops);
    if W.Writable(w.state) {
      R.ReadIgnoresSuffix(W.Data(w), W.Concat(W.AcceptedAppends(ops)), offset, length, result);
    }
  }
}
