/** Polling a source of bytes, as the asynchronous readers of the program do. */
module Sources {
  import opened Bytes

  /** What a poll of a reader yields; empty data is the end of the stream. */
  datatype ReadPoll = NotReady | Broken | Data(bytes: Chunk)

  /** Polls a reader that will still deliver `rest`: it may have nothing yet, may fail, or may hand
      over any part of the rest that fits. */
  method PollRead(rest: Chunk, limit: nat) returns (r: ReadPoll, rest': Chunk)
    requires limit > 0
    ensures r.Data? ==> r.bytes + rest' == rest && |r.bytes| <= limit && (r.bytes == [] <==> rest == [])
    ensures !r.Data? ==> rest' == rest
  {
    var ready: bool := *;
    var failed: bool := *;
    if !ready || failed {
      return if failed then Broken else NotReady, rest;
    }
    var n :| 0 <= n <= |rest| && n <= limit && (n == 0 <==> rest == []);
    r, rest' := Data(rest[..n]), rest[n..];
  }
}
