/** The client's download loop (src/client/actor/download_loop.rs): frames are decoded from a chunked
    response, checked for order, queued, and written to the local socket; a new response is asked for
    when the last one reached the rotation size. */
module DownloadClient {
  import opened Bytes
  import opened Incremental
  import opened Vectored
  import opened BodyReader
  import Tunnel

  const WRITE_BUF_CAPACITY: nat := 64 * 1024

  ghost predicate Consecutive(frames: seq<Frame>, expected: nat) {
    forall i :: 0 <= i < |frames| ==> frames[i].seqNo == expected + i
  }

  // ---------------------------------------------------------------- the queue of decoded data

  /** `consume`: drops `n` bytes from the front of the queue. */
  method Consume(pending0: seq<Chunk>, bytes0: nat, n: nat) returns (pending: seq<Chunk>, bytes: nat)
    requires n <= |Flatten(pending0)| == bytes0
    ensures Flatten(pending) == Flatten(pending0)[n..] && bytes == bytes0 - n
    ensures AllNonEmpty(pending0) ==> AllNonEmpty(pending)
  {
    var left: nat := n;
    pending, bytes := pending0, bytes0;
    ghost var goal := Flatten(pending0)[n..];
    while left > 0
      invariant left <= |Flatten(pending)| == bytes && bytes - left == bytes0 - n
      invariant Flatten(pending)[left..] == goal
      invariant AllNonEmpty(pending0) ==> AllNonEmpty(pending)
      decreases |pending|, left
    {
      var front := pending[0];
      if |front| <= left {
        assert Flatten(pending)[left..] == Flatten(pending[1..])[left - |front|..];
        left, bytes, pending := left - |front|, bytes - |front|, pending[1..];
      } else {
        var rest := pending[0 := front[left..]];
        assert rest[1..] == pending[1..];
        assert Flatten(rest) == Flatten(pending)[left..];
        bytes, pending, left := bytes - left, rest, 0;
      }
    }
    assert Flatten(pending)[0..] == Flatten(pending);
  }

  /** How many queued pieces go into one write: up to `iov`, and no more once the capacity is reached. */
  method SliceCount(pending: seq<Chunk>, iov: nat, capacity: nat) returns (count: nat)
    requires pending != [] && iov >= 1
    ensures 1 <= count <= |pending| && count <= iov
    ensures count == |pending| || count == iov || StartOf(pending, count) >= capacity
  {
    count := 0;
    var total := 0;
    while count < |pending|
      invariant 0 <= count <= |pending| && count < iov && total == StartOf(pending, count)
      decreases |pending| - count
    {
      total := total + |pending[count]|;
      count := count + 1;
      if count == iov || total >= capacity {
        break;
      }
    }
  }

  /** `flush`: whatever the partial writes, bytes only move from the queue to the socket, in order; on a live
      socket, and with no empty piece in the queue, the queue is emptied. */
  method Flush(live: bool, iov: nat, capacity: nat, pending0: seq<Chunk>, bytes0: nat, sent0: Chunk)
    returns (ok: bool, pending: seq<Chunk>, bytes: nat, sent: Chunk)
    requires iov >= 1 && bytes0 == |Flatten(pending0)|
    ensures sent0 <= sent && sent + Flatten(pending) == sent0 + Flatten(pending0) && bytes == |Flatten(pending)|
    ensures ok ==> pending == []
    ensures AllNonEmpty(pending0) ==> AllNonEmpty(pending) && (live ==> ok)
  {
    pending, bytes, sent := pending0, bytes0, sent0;
    while pending != []
      invariant sent0 <= sent && sent + Flatten(pending) == sent0 + Flatten(pending0) && bytes == |Flatten(pending)|
      invariant AllNonEmpty(pending0) ==> AllNonEmpty(pending)
      decreases bytes
    {
      var count := SliceCount(pending, iov, capacity);
      FlattenTake(pending, count);
      var r;
      ghost var before := sent;
      r, sent := WriteVectored(live, sent, Flatten(pending[..count]));
      if r.IoError? {
        return false, pending, bytes, sent;
      }
      if r.n == 0 {
        FirstOfMany(pending, count);
        return false, pending, bytes, sent;
      }
      assert Flatten(pending[..count])[..r.n] == Flatten(pending)[..r.n];
      assert sent + Flatten(pending)[r.n..] == before + Flatten(pending);
      pending, bytes := Consume(pending, bytes, r.n);
    }
    ok := true;
  }

  lemma {:induction false} FirstOfMany(pending: seq<Chunk>, count: nat)
    requires 1 <= count <= |pending|
    ensures Flatten(pending[..count]) == [] ==> pending[0] == []
  {
    assert pending[..count][0] == pending[0];
  }

  // ---------------------------------------------------------------- decoding a response

  lemma {:induction false} DatasSnoc(frames: seq<Frame>, f: Frame)
    ensures Datas(frames + [f]) == Datas(frames) + [f.data]
  {}

  /** Why `ingest` stops before the end of its input: a frame that does not decode, or one out of order. */
  ghost predicate Refuses(all: Contents, got: seq<Frame>, expected: nat) {
    && got <= all.frames
    && if |got| < |all.frames| then all.frames[|got|].seqNo != expected else all.bad
  }

  /** What a response has yielded so far: the frames `taken`, and an incomplete rest. */
  ghost predicate Holding(dec: Decoder, fed: Chunk, taken: seq<Frame>, input: Chunk) {
    Progresses(dec) && DecodeAll(dec, fed) == Contents(taken, input, false)
  }

  /** The decoding loop of `ingest` on an input whose bytes so far, `fed`, held the frames `taken`. Every frame
      that follows is queued as long as the numbers are consecutive. */
  method DecodeQueued(dec: Decoder, held: Chunk, chunk: Chunk, pending0: seq<Chunk>, bytes0: nat, expected0: nat,
                      ghost had: Chunk, ghost taken: seq<Frame>)
    returns (ok: bool, input: Chunk, pending: seq<Chunk>, bytes: nat, expected: nat, ghost got: seq<Frame>)
    requires IsIncremental(dec) && Holding(dec, had, taken, held) && bytes0 == |Flatten(pending0)|
    ensures Consecutive(got, expected0) && expected == expected0 + |got|
    ensures pending == pending0 + Datas(got) && bytes == |Flatten(pending)|
    ensures ok ==> Holding(dec, had + chunk, taken + got, input)
    ensures !ok ==> Refuses(DecodeAll(dec, had + chunk), taken + got, expected)
  {
    assert taken + [] == taken;
    PrependContinue(dec, taken, had, held, chunk);
    ok, input, pending, bytes, expected, got :=
      DecodeLoop(dec, held + chunk, pending0, bytes0, expected0, had + chunk, taken);
  }

  method DecodeLoop(dec: Decoder, input0: Chunk, pending0: seq<Chunk>, bytes0: nat, expected0: nat,
                      ghost fed: Chunk, ghost taken: seq<Frame>)
    returns (ok: bool, input: Chunk, pending: seq<Chunk>, bytes: nat, expected: nat, ghost got: seq<Frame>)
    requires IsIncremental(dec) && DecodeAll(dec, fed) == Prepend(taken, DecodeAll(dec, input0))
    requires bytes0 == |Flatten(pending0)|
    ensures Consecutive(got, expected0) && expected == expected0 + |got|
    ensures pending == pending0 + Datas(got) && bytes == |Flatten(pending)|
    ensures ok ==> DecodeAll(dec, fed) == Contents(taken + got, input, false)
    ensures !ok ==> Refuses(DecodeAll(dec, fed), taken + got, expected)
  {
    ok, input, pending, bytes, expected, got := true, input0, pending0, bytes0, expected0, [];
    assert taken + [] == taken && pending0 + Datas([]) == pending0;
    while true
      invariant DecodeAll(dec, fed) == Prepend(taken + got, DecodeAll(dec, input))
      invariant Consecutive(got, expected0) && expected == expected0 + |got|
      invariant pending == pending0 + Datas(got) && bytes == |Flatten(pending)|
      decreases |input|
    {
      assert (taken + got) + [] == taken + got;
      match dec(input) {
        case More =>
          return true, input, pending, bytes, expected, got;
        case Bad =>
          return false, input, pending, bytes, expected, got;
        case Got(frame, rest) =>
          PrependTake(dec, taken + got, fed, input);
          input := rest;
          if frame.seqNo != expected {
            return false, input, pending, bytes, expected, got;
          }
          DatasSnoc(got, frame);
          FlattenSnoc(pending, frame.data);
          assert taken + got + [frame] == taken + (got + [frame]);
          expected, bytes := expected + 1, bytes + |frame.data|;
          pending, got := pending + [frame.data], got + [frame];
      }
    }
  }

  /** The count of queued bytes is right, the accepted frames are numbered from zero, and the socket and the
      queue together hold exactly their data. */
  ghost predicate Books(pending: seq<Chunk>, bytes: nat, expected: nat, accepted: seq<Frame>, sent: Chunk) {
    && bytes == |Flatten(pending)|
    && expected == |accepted| && Consecutive(accepted, 0)
    && sent + Flatten(pending) == Flatten(Datas(accepted))
  }

  lemma {:induction false} NothingFed(dec: Decoder)
    requires Progresses(dec) && dec([]) == More
    ensures DecodeAll(dec, []) == Contents([], [], false)
  {}

  lemma {:induction false} QueueBytes(sent: Chunk, pending: seq<Chunk>, accepted: seq<Chunk>, got: seq<Chunk>)
    requires sent + Flatten(pending) == Flatten(accepted)
    ensures sent + Flatten(pending + got) == Flatten(accepted + got)
  {
    var p, a, g := Flatten(pending), Flatten(accepted), Flatten(got);
    FlattenAppend(pending, got);
    FlattenAppend(accepted, got);
    assert sent + (p + g) == (sent + p) + g;
  }

  lemma {:induction false} DatasAppend(a: seq<Frame>, b: seq<Frame>)
    ensures Datas(a + b) == Datas(a) + Datas(b)
  {}

  lemma {:induction false} ConsecutiveAppend(a: seq<Frame>, b: seq<Frame>)
    requires Consecutive(a, 0) && Consecutive(b, |a|)
    ensures Consecutive(a + b, 0)
  {}

  /** Queueing what was accepted keeps the socket and the queue together equal to what was accepted. */
  lemma {:induction false} QueueMore(pending0: seq<Chunk>, bytes0: nat, expected0: nat, accepted: seq<Frame>, sent: Chunk,
                  got: seq<Frame>, pending: seq<Chunk>, bytes: nat)
    requires Books(pending0, bytes0, expected0, accepted, sent)
    requires Consecutive(got, expected0) && pending == pending0 + Datas(got) && bytes == |Flatten(pending)|
    ensures Books(pending, bytes, expected0 + |got|, accepted + got, sent)
  {
    QueueBytes(sent, pending0, Datas(accepted), Datas(got));
    DatasAppend(accepted, got);
    ConsecutiveAppend(accepted, got);
  }

  /** Moving bytes from the queue to the socket keeps the books. */
  lemma {:induction false} WriteOut(pending0: seq<Chunk>, bytes0: nat, expected: nat, accepted: seq<Frame>, sent0: Chunk,
                 pending: seq<Chunk>, bytes: nat, sent: Chunk)
    requires Books(pending0, bytes0, expected, accepted, sent0)
    requires sent + Flatten(pending) == sent0 + Flatten(pending0) && bytes == |Flatten(pending)|
    ensures Books(pending, bytes, expected, accepted, sent)
  {}

  /** A refusal part way through a response is a refusal of the whole response. */
  lemma {:induction false} RefusesMore(dec: Decoder, fed: Chunk, more: Chunk, got: seq<Frame>, expected: nat)
    requires IsIncremental(dec) && Refuses(DecodeAll(dec, fed), got, expected)
    ensures Refuses(DecodeAll(dec, fed + more), got, expected)
  {
    DecodeAllSplit(dec, fed, more);
  }

  /** A response that decodes to non-empty frames with the numbers expected. */
  ghost predicate Sound(all: Contents, expected: nat) {
    !all.bad && Consecutive(all.frames, expected) && AllNonEmpty(Datas(all.frames))
  }

  /** The frames of a first part of a response are a first part of its frames; if all of those are non-empty,
      so are the ones just added to the queue. */
  lemma {:induction false} PartOfResponse(dec: Decoder, fed: Chunk, more: Chunk, got: seq<Frame>, newly: seq<Frame>, pending: seq<Chunk>)
    requires IsIncremental(dec) && got + newly <= DecodeAll(dec, fed).frames
    ensures got + newly <= DecodeAll(dec, fed + more).frames
    ensures AllNonEmpty(Datas(DecodeAll(dec, fed + more).frames)) && AllNonEmpty(pending) ==> AllNonEmpty(pending + Datas(newly))
  {
    DecodeAllSplit(dec, fed, more);
    var all := DecodeAll(dec, fed + more).frames;
    if AllNonEmpty(Datas(all)) && AllNonEmpty(pending) {
      NewlyNonEmpty(all, got, newly, pending);
    }
  }

  lemma {:induction false} NewlyNonEmpty(all: seq<Frame>, got: seq<Frame>, newly: seq<Frame>, pending: seq<Chunk>)
    requires got + newly <= all && AllNonEmpty(Datas(all)) && AllNonEmpty(pending)
    ensures AllNonEmpty(pending + Datas(newly))
  {
    forall i | 0 <= i < |newly|
      ensures newly[i].data != []
    {
      assert Datas(all)[|got| + i] == newly[i].data;
    }
  }

  lemma {:induction false} AppendAssoc(a: seq<Frame>, b: seq<Frame>, c: seq<Frame>)
    ensures (a + b) + c == a + (b + c)
  {}

  lemma {:induction false} FlattenNext(chunks: seq<Chunk>, i: nat)
    requires i < |chunks|
    ensures Flatten(chunks[..i + 1]) == Flatten(chunks[..i]) + chunks[i]
  {
    assert chunks[..i + 1] == chunks[..i] + [chunks[i]];
    FlattenSnoc(chunks[..i], chunks[i]);
  }

  /** The download loop of one tunnel. */
  class Downloader {
    const decode: Decoder
    const iov: nat
    const capacity: nat
    var input: Chunk
    var pending: seq<Chunk>
    var pendingBytes: nat
    var expected: nat
    /** What the local socket has taken. */
    var sent: Chunk

    /** The frames accepted so far, from all responses, and the bytes of the current response. */
    ghost var accepted: seq<Frame>
    ghost var fed: Chunk
    ghost var taken: seq<Frame>

    ghost predicate Valid()
      reads this
    {
      && IsIncremental(decode) && decode([]) == More && iov >= 1
      && Books(pending, pendingBytes, expected, accepted, sent)
    }

    /** Between chunks of a response: what has been fed decodes to the frames taken, and the input is the rest. */
    ghost predicate Reading()
      reads this
    {
      Valid() && Holding(decode, fed, taken, input)
    }

    constructor (decode: Decoder)
      requires IsIncremental(decode) && decode([]) == More
      ensures Reading() && this.decode == decode
      ensures accepted == [] && fed == [] && taken == [] && sent == [] && pending == []
    {
      this.decode, iov, capacity := decode, MAX_WRITE_IOV, WRITE_BUF_CAPACITY;
      input, pending, pendingBytes, expected, sent := [], [], 0, 0, [];
      accepted, fed, taken := [], [], [];
    }

    /** `ingest` of one chunk. */
    method Ingest(chunk: Chunk) returns (ok: bool, ghost got: seq<Frame>)
      requires Reading()
      modifies this`input, this`pending, this`pendingBytes, this`expected, this`accepted, this`fed, this`taken
      ensures Valid() && fed == old(fed) + chunk
      ensures accepted == old(accepted) + got && taken == old(taken) + got && pending == old(pending) + Datas(got)
      ensures ok ==> Reading()
      ensures !ok ==> Refuses(DecodeAll(decode, fed), taken, expected)
    {
      var rest, queue, bytes, next;
      ok, rest, queue, bytes, next, got :=
        DecodeQueued(decode, input, chunk, pending, pendingBytes, expected, fed, taken);
      QueueMore(pending, pendingBytes, expected, accepted, sent, got, queue, bytes);
      input, pending, pendingBytes, expected := rest, queue, bytes, next;
      fed, accepted, taken := fed + chunk, accepted + got, taken + got;
    }

    method FlushQueue(live: bool) returns (ok: bool)
      requires Valid()
      modifies this`pending, this`pendingBytes, this`sent
      ensures Valid() && old(sent) <= sent
      ensures ok ==> pending == []
      ensures AllNonEmpty(old(pending)) ==> AllNonEmpty(pending) && (live ==> ok)
    {
      var queue, bytes, out;
      ok, queue, bytes, out := Flush(live, iov, capacity, pending, pendingBytes, sent);
      WriteOut(pending, pendingBytes, expected, accepted, sent, queue, bytes, out);
      pending, pendingBytes, sent := queue, bytes, out;
    }

    /** The end of a response: what is queued is written, and an incomplete frame is dropped. */
    method FinishResponse(live: bool) returns (ok: bool)
      requires Reading()
      modifies this`pending, this`pendingBytes, this`sent, this`input, this`fed, this`taken
      ensures Valid() && old(sent) <= sent
      ensures ok ==> Reading() && pending == [] && fed == [] && taken == []
      ensures live && AllNonEmpty(old(pending)) ==> ok
    {
      ok := FlushQueue(live);
      if ok {
        StartAfresh();
      }
    }

    method StartAfresh()
      requires Valid()
      modifies this`input, this`fed, this`taken
      ensures Reading() && fed == [] && taken == []
    {
      NothingFed(decode);
      input, fed, taken := [], [], [];
    }

    /** One chunk, and a flush when the queue is full or the flush timer has fired. */
    method TakeChunk(live: bool, chunk: Chunk) returns (ok: bool, ghost got: seq<Frame>)
      requires Reading()
      modifies this
      ensures Valid() && fed == old(fed) + chunk && old(sent) <= sent
      ensures accepted == old(accepted) + got && taken == old(taken) + got && taken <= DecodeAll(decode, fed).frames
      ensures ok ==> Reading()
      ensures !ok ==> Refuses(DecodeAll(decode, fed), taken, expected) || !live || !AllNonEmpty(old(pending) + Datas(got))
      ensures AllNonEmpty(old(pending) + Datas(got)) ==> AllNonEmpty(pending)
    {
      ok, got := Ingest(chunk);
      var timer: bool := *;
      if ok && (pendingBytes >= capacity || (timer && pendingBytes > 0)) {
        ok := FlushQueue(live);
      }
    }

    /** Takes chunk number `i` of a response whose frames are numbered from `start` on. */
    method TakeNext(live: bool, chunks: seq<Chunk>, i: nat, ghost start: nat) returns (ok: bool, ghost newly: seq<Frame>)
      requires Reading() && i < |chunks| && fed == Flatten(chunks[..i]) && expected == start + |taken|
      modifies this
      ensures Valid() && old(sent) <= sent && fed == Flatten(chunks[..i + 1]) && expected == start + |taken|
      ensures accepted == old(accepted) + newly && taken == old(taken) + newly
      ensures taken <= DecodeAll(decode, Flatten(chunks)).frames
      ensures ok ==> Reading()
      ensures live && Sound(DecodeAll(decode, Flatten(chunks)), start) && AllNonEmpty(old(pending)) ==> ok && AllNonEmpty(pending)
    {
      ghost var more, before, had := Flatten(chunks[i + 1..]), pending, taken;
      FlattenNext(chunks, i);
      FlattenTake(chunks, i + 1);
      ok, newly := TakeChunk(live, chunks[i]);
      PartOfResponse(decode, fed, more, had, newly, before);
      if Refuses(DecodeAll(decode, fed), taken, expected) {
        RefusesMore(decode, fed, more, taken, expected);
      }
    }

    /** The chunks of a response, one after another, until one is refused or a write fails. */
    method TakeAll(live: bool, chunks: seq<Chunk>) returns (ok: bool, received: nat, ghost got: seq<Frame>)
      requires Reading() && fed == [] && taken == []
      modifies this
      ensures Valid() && old(sent) <= sent
      ensures accepted == old(accepted) + got && taken == got && got <= DecodeAll(decode, Flatten(chunks)).frames
      ensures ok ==> Reading() && fed == Flatten(chunks) && received == |fed|
      ensures live && Sound(DecodeAll(decode, Flatten(chunks)), old(expected)) && AllNonEmpty(old(pending)) ==> ok && AllNonEmpty(pending)
    {
      ghost var good := live && Sound(DecodeAll(decode, Flatten(chunks)), expected) && AllNonEmpty(pending);
      ghost var start, before := expected, accepted;
      var i := 0;
      ok, received, got := true, 0, [];
      assert chunks[..0] == [] && accepted + [] == accepted;
      while ok && i < |chunks|
        invariant 0 <= i <= |chunks| && Valid() && old(sent) <= sent && expected == start + |taken|
        invariant fed == Flatten(chunks[..i]) && received == |fed|
        invariant taken == got && accepted == before + got && got <= DecodeAll(decode, Flatten(chunks)).frames
        invariant ok ==> Reading()
        invariant good ==> ok && AllNonEmpty(pending)
        decreases ok, |chunks| - i
      {
        ghost var newly;
        FlattenNext(chunks, i);
        received := received + |chunks[i]|;
        ok, newly := TakeNext(live, chunks, i, start);
        AppendAssoc(before, got, newly);
        got := got + newly;
        i := i + 1;
      }
      assert ok ==> chunks[..i] == chunks;
    }

    /** `drain_response`: the frames accepted are a first part of those the response holds; without a fault
        they are all of them, and everything queued has been written. */
    method DrainResponse(live: bool, response: Response) returns (ok: bool, received: nat, ghost got: seq<Frame>)
      requires Reading() && fed == [] && taken == []
      modifies this
      ensures Valid() && old(sent) <= sent
      ensures accepted == old(accepted) + got && got <= FramesIn(decode, response)
      ensures ok ==> Reading() && fed == [] && taken == [] && pending == []
      ensures ok ==> got == FramesIn(decode, response) && received == |Flatten(response.chunks)|
      ensures live && response.whole && Sound(DecodeAll(decode, Flatten(response.chunks)), old(expected)) && AllNonEmpty(old(pending)) ==> ok
    {
      ok, received, got := TakeAll(live, response.chunks);
      if !response.whole {
        ok := false;
      }
      if ok {
        ok := FinishResponse(live);
      }
    }

    /** One round of `run`: the next response. */
    method DrainNext(live: bool, responses: seq<Response>, used: nat) returns (ok: bool, received: nat)
      requires Reading() && fed == [] && taken == [] && pending == [] && used < |responses| && accepted == FramesOf(decode, responses[..used])
      modifies this
      ensures Valid() && accepted <= FramesOf(decode, responses)
      ensures ok ==> Reading() && fed == [] && taken == [] && pending == [] && accepted == FramesOf(decode, responses[..used + 1])
      ensures ok ==> received == |Flatten(responses[used].chunks)|
      ensures live && Faultless(decode, responses) ==> ok
    {
      ghost var got;
      ghost var before := accepted;
      FramesOfNext(decode, responses, used);
      if Faultless(decode, responses) {
        FaultlessAt(decode, responses, used);
      }
      ok, received, got := DrainResponse(live, responses[used]);
      PrefixAppend(before, got, FramesIn(decode, responses[used]), FramesOf(decode, responses));
    }

    /** `run`: response after response, as long as they reach the rotation limit. The responses that will be given to the
        client are a parameter; when they run out, the request for the next one fails. Whatever happens, the frames accepted
        are a first part of those the responses hold. The client ends well only after all but the last response used
        reached the limit and that one did not, and then everything they hold has been written. Without faults it does end
        well, unless all responses reach the limit. */
    method Run(live: bool, responses: seq<Response>, max: Option<nat>) returns (ok: bool, used: nat)
      requires Reading() && fed == [] && taken == [] && accepted == [] && pending == []
      modifies this
      ensures Valid() && accepted <= FramesOf(decode, responses)
      ensures ok ==> Ends(responses, max, used) && accepted == FramesOf(decode, responses[..used]) && pending == []
      ensures live && Faultless(decode, responses) && !ok ==> forall j :: 0 <= j < |responses| ==> Goes(responses[j], max)
    {
      used := 0;
      ok := false;
      assert responses[..0] == [];
      while used < |responses|
        invariant used <= |responses| && !ok && Reading() && fed == [] && taken == [] && pending == []
        invariant accepted == FramesOf(decode, responses[..used])
        invariant AllGo(responses, max, used)
      {
        var received;
        ok, received := DrainNext(live, responses, used);
        if !ok {
          return;
        }
        used := used + 1;
        if !Tunnel.ShouldRotate(max, received) {
          return;
        }
        OneMoreGoes(responses, max, used);
        ok := false;
      }
      assert responses[..used] == responses;
    }
  }

  // ---------------------------------------------------------------- several responses

  /** A response as the client gets it: the chunks of its body, and whether the body came to its end or broke off. */
  datatype Response = Response(chunks: seq<Chunk>, whole: bool)

  ghost function FramesIn(dec: Decoder, response: Response): seq<Frame>
    requires Progresses(dec)
  {
    DecodeAll(dec, Flatten(response.chunks)).frames
  }

  ghost function FramesOf(dec: Decoder, responses: seq<Response>): seq<Frame>
    requires Progresses(dec)
  {
    if responses == [] then []
    else
      var n := |responses| - 1;
      FramesOf(dec, responses[..n]) + FramesIn(dec, responses[n])
  }

  /** The response reaches the limit, so that the client asks for another one. */
  ghost predicate Goes(response: Response, max: Option<nat>) {
    Tunnel.ShouldRotate(max, |Flatten(response.chunks)|)
  }

  ghost predicate AllGo(responses: seq<Response>, max: Option<nat>, used: nat)
    requires used <= |responses|
  {
    forall j :: 0 <= j < used ==> Goes(responses[j], max)
  }

  lemma {:induction false} OneMoreGoes(responses: seq<Response>, max: Option<nat>, used: nat)
    requires 1 <= used <= |responses| && AllGo(responses, max, used - 1) && Goes(responses[used - 1], max)
    ensures AllGo(responses, max, used)
  {}

  ghost predicate Ends(responses: seq<Response>, max: Option<nat>, used: nat) {
    && 1 <= used <= |responses| && !Goes(responses[used - 1], max)
    && forall j :: 0 <= j < used - 1 ==> Goes(responses[j], max)
  }

  /** Whole responses that decode to non-empty frames numbered from zero over all of them. */
  ghost predicate Faultless(dec: Decoder, responses: seq<Response>)
    requires Progresses(dec)
  {
    && (forall j :: 0 <= j < |responses| ==> responses[j].whole && !DecodeAll(dec, Flatten(responses[j].chunks)).bad)
    && Consecutive(FramesOf(dec, responses), 0) && AllNonEmpty(Datas(FramesOf(dec, responses)))
  }

  lemma {:induction false} FramesOfPrefix(dec: Decoder, responses: seq<Response>, k: nat)
    requires Progresses(dec) && k <= |responses|
    ensures FramesOf(dec, responses[..k]) <= FramesOf(dec, responses)
    decreases |responses|
  {
    if k == |responses| {
      assert responses[..k] == responses;
    } else {
      var n := |responses| - 1;
      assert responses[..n][..k] == responses[..k];
      FramesOfPrefix(dec, responses[..n], k);
    }
  }

  lemma {:induction false} FramesOfNext(dec: Decoder, responses: seq<Response>, k: nat)
    requires Progresses(dec) && k < |responses|
    ensures FramesOf(dec, responses[..k + 1]) == FramesOf(dec, responses[..k]) + FramesIn(dec, responses[k])
    ensures FramesOf(dec, responses[..k]) + FramesIn(dec, responses[k]) <= FramesOf(dec, responses)
  {
    assert responses[..k + 1][..k] == responses[..k];
    FramesOfPrefix(dec, responses, k + 1);
  }

  /** Each response of a faultless list is sound from where the ones before it stopped. */
  lemma {:induction false} FaultlessAt(dec: Decoder, responses: seq<Response>, k: nat)
    requires Progresses(dec) && k < |responses| && Faultless(dec, responses)
    ensures Sound(DecodeAll(dec, Flatten(responses[k].chunks)), |FramesOf(dec, responses[..k])|)
  {
    FramesOfNext(dec, responses, k);
    PartSound(FramesOf(dec, responses), FramesOf(dec, responses[..k]), FramesIn(dec, responses[k]));
  }

  lemma {:induction false} PartSound(all: seq<Frame>, before: seq<Frame>, part: seq<Frame>)
    requires before + part <= all && Consecutive(all, 0) && AllNonEmpty(Datas(all))
    ensures Consecutive(part, |before|) && AllNonEmpty(Datas(part))
  {
    forall i | 0 <= i < |part|
      ensures part[i].seqNo == |before| + i && part[i].data != []
    {
      assert all[|before| + i] == part[i];
      assert Datas(all)[|before| + i] == part[i].data;
    }
  }

  lemma {:induction false} PrefixAppend(before: seq<Frame>, got: seq<Frame>, part: seq<Frame>, all: seq<Frame>)
    requires before + part <= all && got <= part
    ensures before + got <= all
  {}
}
