/** The bounded buffer that keeps the beginning of a stream and counts the rest. */
module Capture {
  import opened FileSystem
  import opened Seqs

  type Bytes = seq<Byte>

  function Kept(stream: Bytes, limit: nat): Bytes {
    if |stream| <= limit then stream else stream[..limit]
  }

  class StreamCapture {
    const limit: nat
    var buffer: Bytes
    var totalBytes: nat
    var droppedBytes: nat
    var truncated: bool
    ghost var stream: Bytes        // everything consumed

    ghost predicate Valid()
      reads this
    {
      && buffer == Kept(stream, limit)
      && totalBytes == |stream|
      && totalBytes == |buffer| + droppedBytes
      && (truncated <==> |stream| > limit)
    }

    constructor (limit: nat)
      ensures Valid() && stream == [] && this.limit == limit
    {
      this.limit := limit;
      buffer, totalBytes, droppedBytes, truncated := [], 0, 0, false;
      stream := [];
    }

    method Consume(chunk: Bytes)
      requires Valid()
      modifies this
      ensures Valid() && stream == old(stream) + chunk
    {
      stream := stream + chunk;
      var size := |chunk|;
      totalBytes := totalBytes + size;
      var free := limit - |buffer|;
      if free >= size {
        buffer := buffer + chunk;
        return;
      }
      if free > 0 {
        buffer := buffer + chunk[..free];
      }
      droppedBytes := droppedBytes + (size - free);
      truncated := true;
    }
  }

  /** However a stream is cut into chunks, what is retained, counted and flagged depends on its bytes
      alone. */
  method CaptureAll(chunks: seq<Bytes>, limit: nat)
    returns (retained: Bytes, total: nat, dropped: nat, truncated: bool)
    ensures retained == Kept(Concat(chunks), limit)
    ensures total == |Concat(chunks)| == |retained| + dropped
    ensures truncated <==> |Concat(chunks)| > limit
  {
    var capture := new StreamCapture(limit);
    for i := 0 to |chunks|
      invariant capture.Valid() && capture.limit == limit
      invariant capture.stream == Concat(chunks[..i])
    {
      assert chunks[..i + 1] == chunks[..i] + [chunks[i]];
      ConcatAppend(chunks[..i], [chunks[i]]);
      assert Concat([chunks[i]]) == chunks[i] + [];
      capture.Consume(chunks[i]);
    }
    assert chunks[..|chunks|] == chunks;
    return capture.buffer, capture.totalBytes, capture.droppedBytes, capture.truncated;
  }
}
