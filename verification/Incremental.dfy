/** Taking frames off the front of a growing buffer. The theory is about any decoder that never
    changes its mind when more bytes arrive; `FrameCodec` shows that the frame decoder is one. */
module Incremental {
  import opened Bytes

  datatype Frame = Frame(seqNo: nat, data: Chunk)

  function Datas(frames: seq<Frame>): seq<Chunk> {
    seq(|frames|, i requires 0 <= i < |frames| => frames[i].data)
  }

  /** What one attempt to take a frame off the front of a buffer yields. */
  datatype Decoded = Got(frame: Frame, rest: Chunk) | More | Bad

  type Decoder = Chunk -> Decoded

  ghost predicate Progresses(dec: Decoder) {
    forall src: Chunk :: dec(src).Got? ==> |dec(src).rest| < |src|
  }

  /** Later bytes never change a complete frame and never repair a rejected buffer. */
  ghost predicate Stable(dec: Decoder) {
    forall src: Chunk, more: Chunk {:trigger Look2(src, more)} ::
      Look2(src, more) ==>
      && (dec(src).Got? ==> dec(src + more) == Got(dec(src).frame, dec(src).rest + more))
      && (dec(src).Bad? ==> dec(src + more).Bad?)
  }

  ghost predicate IsIncremental(dec: Decoder) {
    Progresses(dec) && Stable(dec)
  }

  /** Everything a buffer holds: the complete frames, then a rejection or an incomplete rest. */
  datatype Contents = Contents(frames: seq<Frame>, rest: Chunk, bad: bool)

  ghost function DecodeAll(dec: Decoder, src: Chunk): (r: Contents)
    requires Progresses(dec)
    ensures !r.bad ==> dec(r.rest).More?
    decreases |src|
  {
    match dec(src)
    case More => Contents([], src, false)
    case Bad => Contents([], [], true)
    case Got(frame, rest) =>
      var tail := DecodeAll(dec, rest);
      Contents([frame] + tail.frames, tail.rest, tail.bad)
  }

  ghost function Continue(dec: Decoder, a: Contents, more: Chunk): Contents
    requires Progresses(dec)
  {
    if a.bad then a
    else
      var b := DecodeAll(dec, a.rest + more);
      Contents(a.frames + b.frames, b.rest, b.bad)
  }

  /** A buffer followed by more input holds what the buffer held, continued from its incomplete
      rest: the heart of independence from chunking. */
  lemma {:induction false} DecodeAllSplit(dec: Decoder, src: Chunk, more: Chunk)
    requires IsIncremental(dec)
    ensures DecodeAll(dec, src + more) == Continue(dec, DecodeAll(dec, src), more)
    decreases |src|
  {
    StableAt(dec, src, more);
    if dec(src).Got? {
      DecodeAllSplit(dec, dec(src).rest, more);
      ContinueCons(dec, dec(src).frame, DecodeAll(dec, dec(src).rest), more);
    }
  }

  lemma {:induction false} StableAt(dec: Decoder, src: Chunk, more: Chunk)
    requires Stable(dec)
    ensures dec(src).Got? ==> dec(src + more) == Got(dec(src).frame, dec(src).rest + more)
    ensures dec(src).Bad? ==> dec(src + more).Bad?
  {
    assert Look2(src, more);
  }

  lemma {:induction false} ContinueCons(dec: Decoder, frame: Frame, a: Contents, more: Chunk)
    requires Progresses(dec)
    ensures Continue(dec, Contents([frame] + a.frames, a.rest, a.bad), more)
         == var c := Continue(dec, a, more); Contents([frame] + c.frames, c.rest, c.bad)
  {
    if !a.bad {
      var b := DecodeAll(dec, a.rest + more);
      assert [frame] + (a.frames + b.frames) == ([frame] + a.frames) + b.frames;
    }
  }

  /** Feeding a buffer chunk by chunk and emptying it after each chunk. */
  ghost function Feed(dec: Decoder, a: Contents, chunks: seq<Chunk>): Contents
    requires Progresses(dec)
    decreases |chunks|
  {
    if chunks == [] then a else Feed(dec, Continue(dec, a, chunks[0]), chunks[1..])
  }

  lemma {:induction false} FeedIsContinue(dec: Decoder, src: Chunk, chunks: seq<Chunk>)
    requires IsIncremental(dec)
    ensures Feed(dec, DecodeAll(dec, src), chunks) == DecodeAll(dec, src + Flatten(chunks))
    decreases |chunks|
  {
    if chunks == [] {
      assert src + Flatten(chunks) == src;
    } else {
      DecodeAllSplit(dec, src, chunks[0]);
      FeedIsContinue(dec, src + chunks[0], chunks[1..]);
      assert src + chunks[0] + Flatten(chunks[1..]) == src + Flatten(chunks);
    }
  }

  /** However the same bytes are cut into chunks, the same frames come out, the same incomplete
      rest is left, and a rejection is met after the same frame. */
  lemma {:induction false} ChunkingDoesNotMatter(dec: Decoder, one: seq<Chunk>, other: seq<Chunk>)
    requires IsIncremental(dec)
    requires Flatten(one) == Flatten(other)
    ensures Feed(dec, DecodeAll(dec, []), one) == Feed(dec, DecodeAll(dec, []), other)
    ensures Feed(dec, DecodeAll(dec, []), one) == DecodeAll(dec, Flatten(one))
  {
    FeedIsContinue(dec, [], one);
    FeedIsContinue(dec, [], other);
    assert [] + Flatten(one) == Flatten(one);
  }

  ghost predicate EachHolds(dec: Decoder, wires: seq<Chunk>, frames: seq<Frame>)
    requires Progresses(dec)
  {
    |wires| == |frames| && forall i :: 0 <= i < |wires| ==> Holds(dec, wires[i], frames[i])
  }

  /** The string is exactly one frame. */
  ghost predicate Holds(dec: Decoder, wire: Chunk, frame: Frame)
    requires Progresses(dec)
  {
    DecodeAll(dec, wire) == Contents([frame], [], false)
  }

  /** Byte strings that each hold exactly one frame hold, one after another, exactly those frames. */
  lemma {:induction false} DecodeConcat(dec: Decoder, wires: seq<Chunk>, frames: seq<Frame>)
    requires IsIncremental(dec) && dec([]) == More && EachHolds(dec, wires, frames)
    ensures DecodeAll(dec, Flatten(wires)) == Contents(frames, [], false)
    decreases |wires|
  {
    if wires != [] {
      var n := |wires| - 1;
      assert wires == wires[..n] + [wires[n]] && frames == frames[..n] + [frames[n]];
      DecodeConcat(dec, wires[..n], frames[..n]);
      FlattenSnoc(wires[..n], wires[n]);
      DecodeAllSplit(dec, Flatten(wires[..n]), wires[n]);
      assert [] + wires[n] == wires[n];
    }
  }
}
