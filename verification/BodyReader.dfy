/** The server's incremental reader of a request body (src/server/stream.rs) and the loop that
    empties it into the upload actor (src/server/handlers.rs). */
module BodyReader {
  import opened Bytes
  import opened Incremental
  import FrameCodec

  const MAX_FRAME_BUF_SIZE: nat := 18781

  /** What the HTTP layer hands over when it is polled; after the last event it reports the end, and after a break
      nothing more comes. */
  datatype Event = Data(bytes: Chunk) | Wait | Broken

  datatype Fault = BadFrame | TrailingData | TooLarge | Io

  datatype Poll = Pending | Ended | Item(frame: Frame) | Failed(fault: Fault)

  /** The bytes of a body up to its end or to where it breaks off. */
  function BodyBytes(events: seq<Event>): Chunk {
    if events == [] || events[0].Broken? then []
    else EventBytes(events[0]) + BodyBytes(events[1..])
  }

  function EventBytes(event: Event): Chunk {
    if event.Data? then event.bytes else []
  }

  function Prepend(frames: seq<Frame>, c: Contents): Contents {
    Contents(frames + c.frames, c.rest, c.bad)
  }

  /** Frames already delivered stay in front of what more input adds. */
  lemma {:induction false} PrependContinue(dec: Decoder, taken: seq<Frame>, fed: Chunk, buf: Chunk, more: Chunk)
    requires IsIncremental(dec)
    requires DecodeAll(dec, fed) == Prepend(taken, DecodeAll(dec, buf))
    ensures DecodeAll(dec, fed + more) == Prepend(taken, DecodeAll(dec, buf + more))
  {
    DecodeAllSplit(dec, fed, more);
    DecodeAllSplit(dec, buf, more);
    ContinuePrepend(dec, taken, DecodeAll(dec, buf), more);
  }

  lemma {:induction false} ContinuePrepend(dec: Decoder, taken: seq<Frame>, c: Contents, more: Chunk)
    requires Progresses(dec)
    ensures Continue(dec, Prepend(taken, c), more) == Prepend(taken, Continue(dec, c, more))
  {
    if !c.bad {
      var d := DecodeAll(dec, c.rest + more);
      assert (taken + c.frames) + d.frames == taken + (c.frames + d.frames);
    }
  }

  lemma {:induction false} PrependTake(dec: Decoder, taken: seq<Frame>, fed: Chunk, buf: Chunk)
    requires Progresses(dec)
    requires dec(buf).Got?
    requires DecodeAll(dec, fed) == Prepend(taken, DecodeAll(dec, buf))
    ensures DecodeAll(dec, fed) == Prepend(taken + [dec(buf).frame], DecodeAll(dec, dec(buf).rest))
  {
    var tail := DecodeAll(dec, dec(buf).rest);
    assert taken + ([dec(buf).frame] + tail.frames) == (taken + [dec(buf).frame]) + tail.frames;
  }

  /** The bytes fed hold the frames taken and then whatever the buffer holds. */
  ghost predicate Tracks(dec: Decoder, fed: Chunk, taken: seq<Frame>, buf: Chunk) {
    IsIncremental(dec) && DecodeAll(dec, fed) == Prepend(taken, DecodeAll(dec, buf))
  }

  lemma {:induction false} TracksMore(dec: Decoder, fed: Chunk, taken: seq<Frame>, buf: Chunk, bytes: Chunk)
    requires Tracks(dec, fed, taken, buf)
    ensures Tracks(dec, fed + bytes, taken, buf + bytes)
  {
    PrependContinue(dec, taken, fed, buf, bytes);
  }

  lemma {:induction false} BodyBytesNext(fed: Chunk, inner: seq<Event>)
    requires inner != [] && !inner[0].Broken?
    ensures fed + BodyBytes(inner) == (fed + EventBytes(inner[0])) + BodyBytes(inner[1..])
    ensures |BodyBytes(inner)| == |EventBytes(inner[0])| + |BodyBytes(inner[1..])|
  {
    var rest := BodyBytes(inner[1..]);
    assert fed + (EventBytes(inner[0]) + rest) == (fed + EventBytes(inner[0])) + rest;
  }

  class FrameDecoder {
    const decode: Decoder
    const maxBufSize: nat
    var inner: seq<Event>
    var buf: Chunk
    var eos: bool
    /** All bytes read from the body so far, and all frames handed out. */
    ghost var fed: Chunk
    ghost var taken: seq<Frame>

    ghost predicate Valid()
      reads this
    {
      Tracks(decode, fed, taken, buf) && (eos ==> inner == [])
    }

    constructor (codec: FrameCodec.Codec, body: seq<Event>, maxBufSize: nat)
      ensures Valid()
      ensures decode == FrameCodec.FrameDecoderOf(codec) && this.maxBufSize == maxBufSize
      ensures inner == body && fed == [] && taken == []
    {
      FrameCodec.FrameDecoderIsIncremental(codec);
      decode := FrameCodec.FrameDecoderOf(codec);
      this.maxBufSize := maxBufSize;
      inner, buf, eos := body, [], false;
      fed, taken := [], [];
      new;
      var all := DecodeAll(decode, []);
      assert [] + all.frames == all.frames;
    }

    /** Everything the bytes read so far decode to. */
    ghost function Read(): Contents
      requires Valid()
      reads this
    {
      DecodeAll(decode, fed)
    }

    /** What a reply says about everything read so far. */
    ghost predicate Explains(p: Poll)
      requires Valid()
      reads this
    {
      match p
      case Ended => inner == [] && Read() == Contents(taken, [], false)
      case Failed(BadFrame) => Read().bad && Read().frames == taken
      case Failed(TrailingData) => inner == [] && !Read().bad && Read().frames == taken && Read().rest != []
      case Failed(TooLarge) => decode(buf).More? && |buf| > maxBufSize
      case Failed(Io) => inner == [] && !Read().bad && Read().frames == taken
      case _ => true
    }

    /** One poll of the body stream: false when the poll must be reported to the caller. */
    method PollInner() returns (p: Poll, go: bool)
      requires Valid() && !eos
      modifies this
      ensures Valid() && taken == old(taken)
      ensures fed + BodyBytes(inner) == old(fed) + old(BodyBytes(inner))
      ensures |buf| + |BodyBytes(inner)| == old(|buf| + |BodyBytes(inner)|)
      ensures !go || old(inner) != [] ==> |inner| < old(|inner|)
      ensures old(inner) == [] ==> eos && inner == [] && go
      ensures go || p.Pending? ==> (Broken in inner <==> Broken in old(inner))
      ensures !go && !p.Pending? ==> p == Failed(Io) && inner == [] && Broken in old(inner) && fed == old(fed) && buf == old(buf)
    {
      p, go := Pending, true;
      if inner == [] {
        eos := true;
        return;
      }
      var event := inner[0];
      if event.Broken? {
        inner := [];
        return Failed(Io), false;
      }
      BodyBytesNext(fed, inner);
      assert inner == [event] + inner[1..];
      inner := inner[1..];
      match event {
        case Data(bytes) =>
          TracksMore(decode, fed, taken, buf, bytes);
          buf := buf + bytes;
          fed := fed + bytes;
        case Wait =>
          go := false;
          assert fed + [] == fed;
      }
    }

    method TakeFrame(frame: Frame, rest: Chunk)
      requires Valid() && decode(buf) == Got(frame, rest)
      modifies this`taken, this`buf
      ensures Valid() && taken == old(taken) + [frame] && buf == rest && |buf| < old(|buf|)
    {
      PrependTake(decode, taken, fed, buf);
      taken := taken + [frame];
      buf := rest;
    }

    method PollNext() returns (p: Poll)
      requires Valid()
      modifies this
      ensures Valid() && Explains(p)
      ensures fed + BodyBytes(inner) == old(fed) + old(BodyBytes(inner))
      ensures |inner| <= old(|inner|) && (p != Failed(Io) ==> (Broken in inner <==> Broken in old(inner)))
      ensures taken == old(taken) + if p.Item? then [p.frame] else []
      ensures |buf| + |BodyBytes(inner)| <= old(|buf| + |BodyBytes(inner)|)
      ensures p.Item? ==> |buf| + |BodyBytes(inner)| < old(|buf| + |BodyBytes(inner)|)
      ensures p.Pending? ==> |inner| < old(|inner|)
      ensures p == Failed(Io) ==> Broken in old(inner)
    {
      while true
        invariant Valid()
        invariant taken == old(taken)
        invariant fed + BodyBytes(inner) == old(fed) + old(BodyBytes(inner))
        invariant |inner| <= old(|inner|) && (Broken in inner <==> Broken in old(inner))
        invariant |buf| + |BodyBytes(inner)| == old(|buf| + |BodyBytes(inner)|)
        decreases |inner|, !eos
      {
        match decode(buf) {
          case Got(frame, rest) =>
            TakeFrame(frame, rest);
            return Item(frame);
          case Bad =>
            assert taken + [] == taken;
            return Failed(BadFrame);
          case More =>
        }
        assert taken + [] == taken;
        if eos {
          return if buf == [] then Ended else Failed(TrailingData);
        }
        if |buf| > maxBufSize {
          return Failed(TooLarge);
        }
        var go;
        p, go := PollInner();
        if !go {
          return;
        }
      }
    }
  }

  /** The highest sequence number of a body, starting from zero as the handler does. */
  function MaxSeq(frames: seq<Frame>): nat {
    if frames == [] then 0
    else
      var m := MaxSeq(frames[..|frames| - 1]);
      var s := frames[|frames| - 1].seqNo;
      if s > m then s else m
  }

  /** What became of a body: all its frames, or the frames before a rejection, or those before it broke off. */
  datatype BodyOutcome = Complete(frames: seq<Frame>, maxSeq: nat) | Rejected(frames: seq<Frame>) | BrokenOff(frames: seq<Frame>)

  /** What a request body means, as a function of its bytes and of whether it breaks off. */
  ghost function Meaning(dec: Decoder, bytes: Chunk, broken: bool): BodyOutcome
    requires Progresses(dec)
  {
    var all := DecodeAll(dec, bytes);
    if all.bad then Rejected(all.frames)
    else if broken then BrokenOff(all.frames)
    else if all.rest != [] then Rejected(all.frames)
    else Complete(all.frames, MaxSeq(all.frames))
  }

  ghost function BodyMeaning(codec: FrameCodec.Codec, body: seq<Event>): BodyOutcome {
    FrameCodec.FrameDecoderIsIncremental(codec);
    Meaning(FrameCodec.FrameDecoderOf(codec), BodyBytes(body), Broken in body)
  }

  ghost predicate Roomy(dec: Decoder, limit: nat) {
    forall src: Chunk :: dec(src).More? ==> |src| <= limit
  }

  /** An incomplete frame never fills the buffer past its limit, in either encoding, so the
      size guard of `PollNext` is never the reason a body is refused. */
  lemma {:induction false} GuardUnreachable(codec: FrameCodec.Codec)
    ensures Roomy(FrameCodec.FrameDecoderOf(codec), MAX_FRAME_BUF_SIZE)
  {
    forall src: Chunk | FrameCodec.FrameDecoderOf(codec)(src).More?
      ensures |src| <= MAX_FRAME_BUF_SIZE
    {
      assert |src| < FrameCodec.MaxEncodedFrameLen(codec.encoding);
    }
  }

  /** A rejection met part way through is the verdict on the whole body. */
  lemma {:induction false} VerdictStands(dec: Decoder, fed: Chunk, more: Chunk, taken: seq<Frame>, broken: bool)
    requires IsIncremental(dec) && DecodeAll(dec, fed).bad && DecodeAll(dec, fed).frames == taken
    ensures Meaning(dec, fed + more, broken) == Rejected(taken)
  {
    DecodeAllSplit(dec, fed, more);
  }

  function OutcomeOf(p: Poll, frames: seq<Frame>, maxSeq: nat): BodyOutcome {
    if p.Ended? then Complete(frames, maxSeq) else if p == Failed(Io) then BrokenOff(frames) else Rejected(frames)
  }

  /** The last poll of a body decides what the whole body means. */
  lemma {:induction false} LastPoll(d: FrameDecoder, p: Poll, broken: bool)
    requires d.Valid() && d.Explains(p) && Roomy(d.decode, d.maxBufSize) && (p.Ended? || p.Failed?)
    requires broken == (p == Failed(Io) || Broken in d.inner)
    ensures Meaning(d.decode, d.fed + BodyBytes(d.inner), broken) == OutcomeOf(p, d.taken, MaxSeq(d.taken))
  {
    if p == Failed(BadFrame) {
      VerdictStands(d.decode, d.fed, BodyBytes(d.inner), d.taken, broken);
    } else {
      assert d.fed + [] == d.fed;
    }
  }

  lemma {:induction false} MaxSeqSnoc(frames: seq<Frame>, frame: Frame)
    ensures MaxSeq(frames + [frame]) == if frame.seqNo > MaxSeq(frames) then frame.seqNo else MaxSeq(frames)
  {
    assert (frames + [frame])[..|frames|] == frames;
  }

  /** Polls until the body ends, is refused or breaks off. */
  method Drain(d: FrameDecoder) returns (outcome: BodyOutcome)
    requires d.Valid() && d.taken == [] && d.fed == [] && Roomy(d.decode, d.maxBufSize)
    modifies d
    ensures outcome == Meaning(d.decode, old(BodyBytes(d.inner)), old(Broken in d.inner))
  {
    var maxSeq, frames := 0, [];
    ghost var broken := Broken in d.inner;
    var p := d.PollNext();
    while p.Item? || p.Pending?
      invariant d.Valid() && d.Explains(p) && d.taken == frames + if p.Item? then [p.frame] else []
      invariant d.fed + BodyBytes(d.inner) == old(BodyBytes(d.inner))
      invariant broken == (p == Failed(Io) || Broken in d.inner)
      invariant maxSeq == MaxSeq(frames)
      decreases |d.buf| + |BodyBytes(d.inner)|, |d.inner|, p.Item? || p.Pending?
    {
      if p.Item? {
        MaxSeqSnoc(frames, p.frame);
        maxSeq := if p.frame.seqNo > maxSeq then p.frame.seqNo else maxSeq;
        frames := frames + [p.frame];
      }
      p := d.PollNext();
    }
    assert d.taken == frames;
    LastPoll(d, p, broken);
    outcome := OutcomeOf(p, frames, maxSeq);
  }

  /** The loop of `dispatch_to_actor` and of `setup_tunnel_response` over the frames of one body:
      however the body was cut into chunks and however often the reader had to wait, the frames handed
      on, their highest number and the verdict depend only on the bytes of the body and on whether it breaks off; when it does, the
      frames handed on are those of the bytes before the break. */
  method ReadBody(codec: FrameCodec.Codec, body: seq<Event>) returns (outcome: BodyOutcome)
    ensures outcome == BodyMeaning(codec, body)
  {
    var d := new FrameDecoder(codec, body, MAX_FRAME_BUF_SIZE);
    GuardUnreachable(codec);
    outcome := Drain(d);
  }
}
