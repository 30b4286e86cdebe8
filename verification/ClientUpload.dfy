/** The early data that goes with the first request of a tunnel (src/client/utils.rs). */
module ClientUpload {
  import opened Bytes
  import opened Incremental
  import opened FrameCodec
  import opened Shaper

  /** `encode_initial_payload`: the first `maxBytes` bytes go out at once, in frames of the full size,
      numbered from zero; the rest is left for the shaper. */
  method EncodeInitialPayload(codec: Codec, rule: Rule, initial: Chunk, maxBytes: nat)
    returns (body: Chunk, remaining: Chunk, seqNo: nat, ghost payloads: seq<Chunk>, ghost seals: seq<Seal>)
    requires rule.lo <= rule.hi
    ensures seqNo == |payloads| && GoodSeals(FrameRawLimit(codec.encoding), payloads, seals)
    ensures body == Flatten(Wire(SealerOf(codec), 0, payloads, seals))
    ensures Flatten(payloads) + remaining == initial
    ensures |Flatten(payloads)| == if |initial| < maxBytes then |initial| else maxBytes
  {
    var takeLen := if |initial| < maxBytes then |initial| else maxBytes;
    var data := initial[..takeLen];
    remaining := initial[takeLen..];
    body, seqNo, payloads, seals := EncodeChunks(SealerOf(codec), FrameRawLimit(codec.encoding), rule, data);
  }

  /** What the server's decoder makes of the early data: consecutive non-empty frames from number zero, which the number returned counts;
      their data followed by the remainder is the initial payload. */
  method EarlyDataDecodes(dec: Decoder, codec: Codec, rule: Rule, initial: Chunk, maxBytes: nat) returns (body: Chunk, remaining: Chunk, seqNo: nat)
    requires IsDecoderOf(dec, codec) && Lawful(codec) && rule.lo <= rule.hi && |initial| <= SEQ_LIMIT
    ensures var all := DecodeAll(dec, body);
      && InSequence(all, 0) && |all.frames| == seqNo && Flatten(Datas(all.frames)) + remaining == initial
    ensures |remaining| == if |initial| < maxBytes then 0 else |initial| - maxBytes
  {
    ghost var payloads, seals;
    body, remaining, seqNo, payloads, seals := EncodeInitialPayload(codec, rule, initial, maxBytes);
    NonEmptyCount(payloads);
    assert forall i :: 0 <= i < |payloads| ==> GoodSeal(FrameRawLimit(codec.encoding), payloads[i], seals[i]);
    SealedInSequence(dec, codec, 0, payloads, seals);
  }

  /** There are no more non-empty chunks than bytes. */
  lemma {:induction false} NonEmptyCount(chunks: seq<Chunk>)
    ensures (forall i :: 0 <= i < |chunks| ==> chunks[i] != []) ==> |chunks| <= |Flatten(chunks)|
  {
    if chunks != [] && forall i :: 0 <= i < |chunks| ==> chunks[i] != [] {
      var rest := chunks[1..];
      assert forall i :: 0 <= i < |rest| ==> rest[i] == chunks[i + 1];
      NonEmptyCount(rest);
    }
  }

  lemma {:induction false} EncodedMore(sealer: Sealer, limit: nat, payloads: seq<Chunk>, seals: seq<Seal>, chunk: Chunk, seal: Seal)
    requires GoodSeals(limit, payloads, seals) && GoodSeal(limit, chunk, seal)
    ensures var ps, ss := payloads + [chunk], seals + [seal];
      && GoodSeals(limit, ps, ss) && Flatten(ps) == Flatten(payloads) + chunk
      && Flatten(Wire(sealer, 0, ps, ss)) == Flatten(Wire(sealer, 0, payloads, seals)) + sealer(|payloads|, chunk, seal)
  {
    var ps, ss := payloads + [chunk], seals + [seal];
    FlattenSnoc(payloads, chunk);
    assert ps[..|payloads|] == payloads && ss[..|payloads|] == seals;
    WireSnoc(sealer, 0, ps, ss);
  }

  /** The loop over the chunks; `sealer` does what `encode_frame_into` does once the chunk is within the limit. */
  method EncodeChunks(sealer: Sealer, limit: nat, rule: Rule, data: Chunk)
    returns (body: Chunk, seqNo: nat, ghost payloads: seq<Chunk>, ghost seals: seq<Seal>)
    requires rule.lo <= rule.hi && limit > 0
    ensures seqNo == |payloads| && GoodSeals(limit, payloads, seals)
    ensures body == Flatten(Wire(sealer, 0, payloads, seals))
    ensures Flatten(payloads) == data
  {
    var offset := 0;
    body, seqNo, payloads, seals := [], 0, [], [];
    while offset < |data|
      invariant 0 <= offset <= |data| && seqNo == |payloads| && GoodSeals(limit, payloads, seals)
      invariant body == Flatten(Wire(sealer, 0, payloads, seals))
      invariant Flatten(payloads) == data[..offset]
    {
      var end := if offset + limit < |data| then offset + limit else |data|;
      var chunk := data[offset..end];
      var wanted :| rule.lo <= wanted <= rule.hi;
      var padding := FramePadding(|chunk|, rule.threshold, wanted, limit);
      var nonce := DrawNonce();
      var seal := Seal(nonce, padding);
      body := body + sealer(seqNo, chunk, seal);
      EncodedMore(sealer, limit, payloads, seals, chunk, seal);
      assert data[..end] == data[..offset] + chunk;
      payloads, seals := payloads + [chunk], seals + [seal];
      offset := end;
      seqNo := seqNo + 1;
    }
    assert data[..offset] == data;
  }
}
