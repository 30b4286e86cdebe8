/** The download direction from end to end: the server's shaper, the segments of its tunnel, and the client's
    download loop. */
module Download {
  import opened Bytes
  import opened Incremental
  import opened DownloadClient
  import opened Vectored
  import FrameCodec
  import Reorder
  import Rotation
  import Shaper
  import Tunnel
  import TunnelActor

  /** Each frame the shaper puts out is one frame to the client's decoder, and no frame is empty. */
  lemma {:induction false} ShapedFramesHold(dec: Decoder, codec: FrameCodec.Codec, payloads: seq<Chunk>, seals: seq<Shaper.Seal>)
    requires FrameCodec.IsDecoderOf(dec, codec) && FrameCodec.Lawful(codec) && |payloads| <= FrameCodec.SEQ_LIMIT
    requires Shaper.GoodSeals(FrameCodec.FrameRawLimit(codec.encoding), payloads, seals)
    ensures EachHolds(dec, Shaper.Wire(Shaper.SealerOf(codec), 0, payloads, seals), Shaper.Numbered(0, payloads))
    ensures forall w :: w in Shaper.Wire(Shaper.SealerOf(codec), 0, payloads, seals) ==> w != []
    ensures AllNonEmpty(payloads)
  {
    Shaper.SealerIsFaithful(dec, codec);
    var sealer := Shaper.SealerOf(codec);
    Shaper.FaithfulLengths(dec, sealer, FrameCodec.FrameRawLimit(codec.encoding), FrameCodec.MaxEncodedFrameLen(codec.encoding), 0, payloads, seals);
  }

  /** The frames of one body are those of its place in the stream. */
  lemma {:induction false} BodyFrames(dec: Decoder, wires: seq<Chunk>, frames: seq<Frame>, segments: seq<Tunnel.Segment>, i: nat)
    requires IsIncremental(dec) && dec([]) == More && EachHolds(dec, wires, frames)
    requires Tunnel.Emitted(segments) <= wires && i < |segments|
    ensures var a, b := |Tunnel.Emitted(segments[..i])|, |Tunnel.Emitted(segments[..i + 1])|;
      && a <= b <= |frames|
      && DecodeAll(dec, Flatten(segments[i].out)) == Contents(frames[a..b], [], false)
  {
    var a, b := |Tunnel.Emitted(segments[..i])|, |Tunnel.Emitted(segments[..i + 1])|;
    assert segments[..i + 1][..i] == segments[..i];
    Rotation.EmittedTake(segments, i + 1);
    assert segments[i].out == wires[a..b];
    DecodeConcat(dec, wires[a..b], frames[a..b]);
  }

  /** The response is a first part of the body of some segment. */
  ghost predicate CarriesPart(response: Response, segments: seq<Tunnel.Segment>) {
    exists i :: 0 <= i < |segments| && Flatten(response.chunks) <= Flatten(segments[i].out)
  }

  lemma {:induction false} PartGenuine(dec: Decoder, wires: seq<Chunk>, payloads: seq<Chunk>, segments: seq<Tunnel.Segment>, response: Response)
    requires IsIncremental(dec) && dec([]) == More && EachHolds(dec, wires, Shaper.Numbered(0, payloads))
    requires Tunnel.Emitted(segments) <= wires && CarriesPart(response, segments)
    ensures Reorder.Genuine(FramesIn(dec, response), payloads)
  {
    var i :| 0 <= i < |segments| && Flatten(response.chunks) <= Flatten(segments[i].out);
    var whole, part := Flatten(segments[i].out), Flatten(response.chunks);
    BodyFrames(dec, wires, Shaper.Numbered(0, payloads), segments, i);
    assert whole == part + whole[|part|..];
    DecodeAllSplit(dec, part, whole[|part|..]);
    assert FramesIn(dec, response) <= DecodeAll(dec, whole).frames;
  }

  lemma {:induction false} AllGenuine(dec: Decoder, wires: seq<Chunk>, payloads: seq<Chunk>, segments: seq<Tunnel.Segment>, responses: seq<Response>)
    requires IsIncremental(dec) && dec([]) == More && EachHolds(dec, wires, Shaper.Numbered(0, payloads))
    requires Tunnel.Emitted(segments) <= wires && forall j :: 0 <= j < |responses| ==> CarriesPart(responses[j], segments)
    ensures Reorder.Genuine(FramesOf(dec, responses), payloads)
    decreases |responses|
  {
    if responses != [] {
      var n := |responses| - 1;
      AllGenuine(dec, wires, payloads, segments, responses[..n]);
      PartGenuine(dec, wires, payloads, segments, responses[n]);
    }
  }

  /** Genuine frames accepted in the order of their numbers are a first part of the payloads. */
  lemma {:induction false} AcceptedIsPrefix(accepted: seq<Frame>, all: seq<Frame>, payloads: seq<Chunk>)
    requires accepted <= all && Consecutive(accepted, 0) && Reorder.Genuine(all, payloads)
    ensures Datas(accepted) <= payloads
  {
    forall i | 0 <= i < |accepted|
      ensures i < |payloads| && Datas(accepted)[i] == payloads[i]
    {
      assert accepted[i] == all[i] && all[i] in all;
    }
    if accepted != [] {
      var n := |accepted| - 1;
      assert accepted[n] == all[n] && all[n] in all;
    }
  }

  /** Each response is the whole body of the segment of the same number. */
  ghost predicate WholeBodies(responses: seq<Response>, segments: seq<Tunnel.Segment>) {
    && |responses| == |segments|
    && forall j :: 0 <= j < |responses| ==> responses[j].whole && Flatten(responses[j].chunks) == Flatten(segments[j].out)
  }

  lemma {:induction false} TakeMore(frames: seq<Frame>, a: nat, b: nat)
    requires a <= b <= |frames|
    ensures frames[..a] + frames[a..b] == frames[..b]
  {}

  lemma {:induction false} NextBody(dec: Decoder, wires: seq<Chunk>, frames: seq<Frame>, segments: seq<Tunnel.Segment>, responses: seq<Response>, k: nat)
    requires IsIncremental(dec) && dec([]) == More && EachHolds(dec, wires, frames) && Tunnel.Emitted(segments) <= wires
    requires k < |segments| == |responses| && Flatten(responses[k].chunks) == Flatten(segments[k].out)
    requires |Tunnel.Emitted(segments[..k])| <= |frames| && FramesOf(dec, responses[..k]) == frames[..|Tunnel.Emitted(segments[..k])|]
    ensures |Tunnel.Emitted(segments[..k + 1])| <= |frames|
    ensures FramesOf(dec, responses[..k + 1]) == frames[..|Tunnel.Emitted(segments[..k + 1])|]
  {
    BodyFrames(dec, wires, frames, segments, k);
    FramesOfNext(dec, responses, k);
    TakeMore(frames, |Tunnel.Emitted(segments[..k])|, |Tunnel.Emitted(segments[..k + 1])|);
  }

  lemma {:induction false} WholeBodiesFrames(dec: Decoder, wires: seq<Chunk>, frames: seq<Frame>, segments: seq<Tunnel.Segment>, responses: seq<Response>, k: nat)
    requires IsIncremental(dec) && dec([]) == More && EachHolds(dec, wires, frames)
    requires Tunnel.Emitted(segments) <= wires && WholeBodies(responses, segments) && k <= |segments|
    ensures |Tunnel.Emitted(segments[..k])| <= |frames|
    ensures FramesOf(dec, responses[..k]) == frames[..|Tunnel.Emitted(segments[..k])|]
  {
    if k > 0 {
      WholeBodiesFrames(dec, wires, frames, segments, responses, k - 1);
      NextBody(dec, wires, frames, segments, responses, k - 1);
    } else {
      assert segments[..k] == [] && responses[..k] == [];
    }
  }

  /** Bodies that together carry the whole stream are faultless and hold all its frames. */
  lemma {:induction false} WholeStreamFaultless(dec: Decoder, wires: seq<Chunk>, payloads: seq<Chunk>, segments: seq<Tunnel.Segment>, responses: seq<Response>)
    requires IsIncremental(dec) && dec([]) == More && EachHolds(dec, wires, Shaper.Numbered(0, payloads)) && AllNonEmpty(payloads)
    requires Tunnel.Emitted(segments) == wires && WholeBodies(responses, segments)
    ensures Faultless(dec, responses) && FramesOf(dec, responses) == Shaper.Numbered(0, payloads)
  {
    WholeBodiesFrames(dec, wires, Shaper.Numbered(0, payloads), segments, responses, |segments|);
    forall j | 0 <= j < |responses|
      ensures responses[j].whole && !DecodeAll(dec, Flatten(responses[j].chunks)).bad
    {
      BodyFrames(dec, wires, Shaper.Numbered(0, payloads), segments, j);
    }
    assert segments[..|segments|] == segments && responses[..|segments|] == responses;
    assert Datas(Shaper.Numbered(0, payloads)) == payloads;
  }

  /** All segments but the last were parked, and the last was not: the client uses all of them. */
  lemma {:induction false} UsesAll(responses: seq<Response>, segments: seq<Tunnel.Segment>, wires: seq<Chunk>, max: Option<nat>)
    requires Tunnel.SegmentsOk(segments, wires, max) && (forall w :: w in wires ==> w != [])
    requires WholeBodies(responses, segments) && segments != [] && !segments[|segments| - 1].pauses
    requires forall j :: 0 <= j < |segments| - 1 ==> segments[j].pauses
    ensures Ends(responses, max, |responses|)
  {
    forall j | 0 <= j < |responses|
      ensures Goes(responses[j], max) <==> segments[j].pauses
    {
      Tunnel.SegmentAgrees(segments, j, wires, max);
    }
  }

  /** What a completed rotation means for the client: no response is at fault, and it stops after the last. */
  lemma {:induction false} CompletedRun(dec: Decoder, wires: seq<Chunk>, payloads: seq<Chunk>, segments: seq<Tunnel.Segment>, responses: seq<Response>, max: Option<nat>, used: nat)
    requires IsIncremental(dec) && dec([]) == More && EachHolds(dec, wires, Shaper.Numbered(0, payloads)) && AllNonEmpty(payloads)
    requires Tunnel.SegmentsOk(segments, wires, max) && (forall w :: w in wires ==> w != [])
    requires Completed(segments, wires) && WholeBodies(responses, segments)
    ensures Faultless(dec, responses) && !(forall j :: 0 <= j < |responses| ==> Goes(responses[j], max))
    ensures Ends(responses, max, used) ==> responses[..used] == responses
    ensures FramesOf(dec, responses) == Shaper.Numbered(0, payloads)
  {
    WholeStreamFaultless(dec, wires, payloads, segments, responses);
    UsesAll(responses, segments, wires, max);
    assert !Goes(responses[|responses| - 1], max);
  }

  /** Download from end to end. The responses carry parts of the bodies that the tunnel's segments have put out, in any order, cut
      anywhere, broken off or repeated. Then what the client writes locally is a first part of the payloads of the upstream
      stream. When the responses are the whole bodies of a completed rotation and the local socket works, the client ends well
      and has written all of it. */
  method DownloadAll(dec: Decoder, live: bool, responses: seq<Response>, max: Option<nat>,
                     ghost wires: seq<Chunk>, ghost payloads: seq<Chunk>, ghost segments: seq<Tunnel.Segment>)
    returns (ok: bool, sent: Chunk)
    requires IsIncremental(dec) && dec([]) == More && EachHolds(dec, wires, Shaper.Numbered(0, payloads))
    requires AllNonEmpty(payloads) && forall w :: w in wires ==> w != []
    requires Tunnel.SegmentsOk(segments, wires, max)
    requires forall j :: 0 <= j < |responses| ==> CarriesPart(responses[j], segments)
    ensures sent <= Flatten(payloads)
    ensures live && Completed(segments, wires) && WholeBodies(responses, segments) ==> ok && sent == Flatten(payloads)
  {
    var client := new Downloader(dec);
    var used;
    ok, used := client.Run(live, responses, max);
    sent := client.sent;
    AllGenuine(dec, wires, payloads, segments, responses);
    SentIsPrefix(client.pending, client.pendingBytes, client.expected, client.accepted, sent, FramesOf(dec, responses), payloads);
    if live && Completed(segments, wires) && WholeBodies(responses, segments) {
      CompletedRun(dec, wires, payloads, segments, responses, max, used);
      SentIsAll(client.pendingBytes, client.expected, client.accepted, sent, payloads);
    }
  }

  lemma {:induction false} SentIsPrefix(pending: seq<Chunk>, bytes: nat, expected: nat, accepted: seq<Frame>, sent: Chunk, all: seq<Frame>, payloads: seq<Chunk>)
    requires Books(pending, bytes, expected, accepted, sent) && accepted <= all && Reorder.Genuine(all, payloads)
    ensures sent <= Flatten(payloads)
  {
    AcceptedIsPrefix(accepted, all, payloads);
    FlattenPrefix(Datas(accepted), payloads);
    PrefixTrans(sent, Flatten(Datas(accepted)), Flatten(payloads));
  }

  lemma {:induction false} SentIsAll(bytes: nat, expected: nat, accepted: seq<Frame>, sent: Chunk, payloads: seq<Chunk>)
    requires Books([], bytes, expected, accepted, sent) && accepted == Shaper.Numbered(0, payloads)
    ensures sent == Flatten(payloads)
  {
    assert Datas(accepted) == payloads;
    assert sent + [] == sent;
  }

  /** A rotation that has come to its end: the state in which every fault-free schedule ends. */
  ghost predicate Completed(segments: seq<Tunnel.Segment>, wires: seq<Chunk>) {
    && segments != [] && Tunnel.Emitted(segments) == wires && !segments[|segments| - 1].pauses
    && forall j :: 0 <= j < |segments| - 1 ==> segments[j].pauses
  }

  lemma {:induction false} RotationCompletes(sys: Rotation.System, wires: seq<Chunk>, max: Option<nat>)
    requires Rotation.Good(sys, wires, max) && sys.client.phase == Rotation.Complete
    ensures Tunnel.SegmentsOk(sys.server.segments, wires, max) && Completed(sys.server.segments, wires)
  {
    Rotation.ReceivedIsPrefix(sys, wires, max);
  }

  // ---------------------------------------------------------------- from the upstream stream to the local socket

  /** What the client's decoder finds in the frames of the server's shaper. */
  lemma {:induction false} ShapedForClient(sc: Shaper.Config, payloads: seq<Chunk>, seals: seq<Shaper.Seal>)
    requires FrameCodec.Lawful(sc.codec) && |payloads| <= FrameCodec.SEQ_LIMIT
    requires Shaper.GoodSeals(Shaper.SealThreshold(sc.codec.encoding), payloads, seals)
    ensures Decodable(FrameCodec.FrameDecoderOf(sc.codec), Shaper.Wire(Shaper.SealerOf(sc.codec), 0, payloads, seals), payloads)
  {
    var dec := FrameCodec.FrameDecoderOf(sc.codec);
    FrameCodec.FrameDecoderOfIsDecoder(sc.codec);
    FrameCodec.FrameDecoderIsIncremental(sc.codec);
    FrameCodec.EmptyIsIncomplete(dec, sc.codec);
    Shaper.ThresholdWithinLimit(sc.codec.encoding, payloads, seals);
    ShapedFramesHold(dec, sc.codec, payloads, seals);
  }

  /** Each string holds one frame, the frames are numbered from zero, and neither they nor their data are empty. */
  ghost predicate Decodable(dec: Decoder, wires: seq<Chunk>, payloads: seq<Chunk>) {
    && IsIncremental(dec) && dec([]) == More && EachHolds(dec, wires, Shaper.Numbered(0, payloads))
    && AllNonEmpty(payloads) && forall w :: w in wires ==> w != []
  }

  /** Cuts a body into chunks in any way. */
  method CutBody(body: Chunk) returns (chunks: seq<Chunk>)
    ensures Flatten(chunks) == body
  {
    chunks := [];
    var done: nat := 0;
    while done < |body|
      invariant done <= |body| && Flatten(chunks) == body[..done]
    {
      var n: nat :| 0 < n <= |body| - done;
      FlattenSnoc(chunks, body[done..done + n]);
      assert body[..done + n] == body[..done] + body[done..done + n];
      chunks, done := chunks + [body[done..done + n]], done + n;
    }
    assert body[..done] == body;
  }

  method WholeResponses(segments: seq<Tunnel.Segment>) returns (responses: seq<Response>)
    ensures WholeBodies(responses, segments)
  {
    responses := [];
    for j := 0 to |segments|
      invariant |responses| == j
      invariant forall k :: 0 <= k < j ==> responses[k].whole && Flatten(responses[k].chunks) == Flatten(segments[k].out)
    {
      var chunks := CutBody(Flatten(segments[j].out));
      responses := responses + [Response(chunks, true)];
    }
  }

  /** A download without faults, from the upstream stream to the local socket: the server shapes the stream, server and client rotate in any
      order of moves, the bodies arrive in any chunks, and the client decodes them. What is written is a first part of the stream; if
      the local socket works, it is everything that was shaped, and the whole stream once the shaper reports its end. */
  method DownloadStream(sc: Shaper.Config, upstream: Chunk, polls: nat, max: Option<nat>, live: bool)
    returns (ok: bool, sent: Chunk, last: Shaper.SealPoll, ghost payloads: seq<Chunk>)
    requires Shaper.Resolved(sc) && FrameCodec.Lawful(sc.codec) && polls <= FrameCodec.SEQ_LIMIT
    ensures sent <= Flatten(payloads) <= upstream && (last.Ended? ==> Flatten(payloads) == upstream)
    ensures live ==> ok && sent == Flatten(payloads)
  {
    var wires;
    ghost var seals;
    wires, last, payloads, seals := Shaper.ShapeFrames(sc, upstream, 0, polls);
    ShapedForClient(sc, payloads, seals);
    var sys := Rotation.Rotate(wires, max);
    RotationCompletes(sys, wires, max);
    var responses := WholeResponses(sys.server.segments);
    ok, sent := DownloadAll(FrameCodec.FrameDecoderOf(sc.codec), live, responses, max, wires, payloads, sys.server.segments);
  }

  /** How a response fares: which segment's body it carries, how much of it arrives, and whether it then ends as if whole. */
  datatype Part = Part(segment: nat, cut: nat, whole: bool)

  method PartResponses(segments: seq<Tunnel.Segment>, parts: seq<Part>) returns (responses: seq<Response>)
    ensures forall j :: 0 <= j < |responses| ==> CarriesPart(responses[j], segments)
  {
    responses := [];
    for n := 0 to |parts|
      invariant forall j :: 0 <= j < |responses| ==> CarriesPart(responses[j], segments)
    {
      var p := parts[n];
      if p.segment < |segments| {
        var body := Flatten(segments[p.segment].out);
        var part := if p.cut < |body| then body[..p.cut] else body;
        var chunks := CutBody(part);
        assert Flatten(chunks) <= body;
        responses := responses + [Response(chunks, p.whole)];
      }
    }
  }

  /** A download with faults: requests are abandoned, repeated or come too early, the actor is stopped at any time, and bodies are cut, broken
      off, repeated or out of order. What is written is still a first part of the stream. */
  method DownloadFaulty(sc: Shaper.Config, upstream: Chunk, polls: nat, max: Option<nat>, schedule: seq<Tunnel.Event>, parts: seq<Part>, live: bool)
    returns (ok: bool, sent: Chunk)
    requires Shaper.Resolved(sc) && FrameCodec.Lawful(sc.codec) && polls <= FrameCodec.SEQ_LIMIT
    ensures sent <= upstream
  {
    var wires, last;
    ghost var payloads, seals;
    wires, last, payloads, seals := Shaper.ShapeFrames(sc, upstream, 0, polls);
    ShapedForClient(sc, payloads, seals);
    var actor := new TunnelActor.Actor(wires, max);
    var _, _ := TunnelActor.RunTunnel(actor, schedule);
    var responses := PartResponses(actor.segments, parts);
    ok, sent := DownloadAll(FrameCodec.FrameDecoderOf(sc.codec), live, responses, max, wires, payloads, actor.segments);
    PrefixTrans(sent, Flatten(payloads), upstream);
  }
}
