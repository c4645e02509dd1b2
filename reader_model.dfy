/** Exact-range reads from the bytes of a closed block. */
module ReaderModel {
  import opened BlockTypes

  /** What Read returns, and the caller's result slice after the call. */
  datatype ReadResult = ReadResult(status: Status, result: seq<uint8>)

  /**
    Reads exactly `length` bytes from `offset`. A read that would run past the
    end fails and leaves the caller's `result` as it was; no short read succeeds.
   */
  function Read(data: seq<uint8>, offset: nat, length: nat, result: seq<uint8>): (r: ReadResult)
    ensures r.status.Ok? <==> offset + length <= |data|
    ensures r.status.Ok? ==> |r.result| == length
    ensures r.status.Ok? ==> forall i :: 0 <= i < length ==> r.result[i] == data[offset + i]
    ensures r.status.Error? ==> r.status.kind == OutOfRange && r.result == result
  {
    if offset + length <= |data| then ReadResult(Ok, data[offset..offset + length])
    else ReadResult(Error(OutOfRange), result)
  }

  /** Bytes beyond a range do not affect what a read of that range returns. */
  lemma ReadIgnoresSuffix(data: seq<uint8>, extra: seq<uint8>, offset: nat, length: nat, result: seq<uint8>)
    requires offset + length <= |data|
    ensures Read(data + extra, offset, length, result) == Read(data, offset, length, result)
  {
    assert (data + extra)[offset..offset + length] == data[offset..offset + length];
  }

  /** Reading a block in full returns exactly its bytes. */
  lemma ReadWhole(data: seq<uint8>, result: seq<uint8>)
    ensures Read(data, 0, |data|, result) == ReadResult(Ok, data)
  {
    assert data[0..|data|] == data;
  }
}
