/** What the client can seal, from its traffic configuration (src/shaper/mod.rs), and what that means for the limits of uploads. */
module UploadSealing {
  import opened Bytes
  import opened FrameCodec
  import opened Shaper
  import UploadFlow
  import UploadLimits
  import UploadActor

  /** A frame of one packet: its data fits, and it is padded by the rule for the packet. */
  ghost predicate MaySeal(sc: Config, packet: nat, d: Chunk, seal: Seal) {
    var limit := SealThreshold(sc.codec.encoding);
    GoodSeal(limit, d, seal) && PaddedBy(RuleFor(sc, packet), limit, |d|, seal.padding)
  }

  ghost predicate SealsTo(sc: Config, k: nat, packet: nat, d: Chunk, w: nat, seal: Seal) {
    MaySeal(sc, packet, d, seal) && |SealFrame(sc.codec, seal.nonce, k, d, seal.padding)| == w
  }

  ghost predicate CanSeal(sc: Config, k: nat, packet: nat, d: Chunk, w: nat) {
    exists seal: Seal :: SealsTo(sc, k, packet, d, w, seal)
  }

  /** The client with that configuration: the shaper numbers its frames from the early ones on and counts its packets from one. */
  ghost function CfgOf(sc: Config, early: nat, maxInFlight: nat, concurrency: nat): UploadFlow.Cfg {
    UploadFlow.Cfg(maxInFlight, concurrency, MaxEncodedFrameLen(sc.codec.encoding), early,
                   (k: nat, d: Chunk, w: nat) => k >= early && CanSeal(sc, k, k - early + 1, d, w))
  }

  lemma {:induction false} SealOf(sc: Config, early: nat, maxInFlight: nat, concurrency: nat, k: nat, d: Chunk, w: nat) returns (seal: Seal)
    requires CfgOf(sc, early, maxInFlight, concurrency).seals(k, d, w)
    ensures k >= early && SealsTo(sc, k, k - early + 1, d, w, seal)
  {
    assert CanSeal(sc, k, k - early + 1, d, w);
    seal :| SealsTo(sc, k, k - early + 1, d, w, seal);
  }

  lemma {:induction false} SealsOf(sc: Config, early: nat, maxInFlight: nat, concurrency: nat, k: nat, d: Chunk, w: nat, seal: Seal)
    requires k >= early && SealsTo(sc, k, k - early + 1, d, w, seal)
    ensures CfgOf(sc, early, maxInFlight, concurrency).seals(k, d, w)
  {
    assert CanSeal(sc, k, k - early + 1, d, w);
  }

  /** Whatever the shaper puts out is among what the client can seal. */
  lemma {:induction false} ShapedCanSeal(sc: Config, early: nat, maxInFlight: nat, concurrency: nat, payloads: seq<Chunk>, seals: seq<Seal>, i: nat)
    requires GoodSeals(SealThreshold(sc.codec.encoding), payloads, seals) && AllPadded(sc, SealThreshold(sc.codec.encoding), payloads, seals)
    requires i < |payloads|
    ensures CfgOf(sc, early, maxInFlight, concurrency).seals(early + i, payloads[i], |Wire(SealerOf(sc.codec), early, payloads, seals)[i]|)
  {
    assert MaySeal(sc, i + 1, payloads[i], seals[i]);
    SealsOf(sc, early, maxInFlight, concurrency, early + i, payloads[i], |Wire(SealerOf(sc.codec), early, payloads, seals)[i]|, seals[i]);
  }

  /** The lengths of what can be sealed. */
  lemma {:induction false} SealLength(sc: Config, k: nat, packet: nat, d: Chunk, seal: Seal)
    requires Lawful(sc.codec) && MaySeal(sc, packet, d, seal)
    ensures var w := |SealFrame(sc.codec, seal.nonce, k, d, seal.padding)|;
      && w <= MaxEncodedFrameLen(sc.codec.encoding)
      && if sc.codec.encoding.Binary? then w == |d| + seal.padding + 40 else w >= |d| + seal.padding + 50
  {
    FrameLength(sc.codec, seal.nonce, k, d, seal.padding);
  }

  lemma {:induction false} CfgSealsWithin(sc: Config, early: nat, maxInFlight: nat, concurrency: nat)
    requires Lawful(sc.codec)
    ensures UploadFlow.SealsWithin(CfgOf(sc, early, maxInFlight, concurrency))
  {
    var cfg := CfgOf(sc, early, maxInFlight, concurrency);
    forall k: nat, d: Chunk, w: nat | cfg.seals(k, d, w)
      ensures d != [] && |d| + UploadFlow.FRAME_OVERHEAD <= w <= cfg.headroom
    {
      var seal := SealOf(sc, early, maxInFlight, concurrency, k, d, w);
      SealLength(sc, k, k - early + 1, d, seal);
    }
  }

  /** Every configuration within the client's limits is supported, in both encodings. */
  lemma {:induction false} CfgSupported(sc: Config, early: nat, maxInFlight: nat, concurrency: nat)
    requires Lawful(sc.codec) && UploadFlow.MIN_IN_FLIGHT_BYTES <= maxInFlight <= UploadActor.MAX_PENDING_BYTES
    ensures UploadFlow.Supported(CfgOf(sc, early, maxInFlight, concurrency))
  {
    CfgSealsWithin(sc, early, maxInFlight, concurrency);
  }

  // ---------------------------------------------------------------- the shortest frame

  function Min(a: nat, b: nat): nat {
    if a < b then a else b
  }

  /** The least number of bytes of data and padding under a rule. */
  function LeastRaw(rule: Rule, limit: nat): nat {
    Min(Min(1 + rule.lo, if rule.threshold < 1 then 1 else rule.threshold), limit)
  }

  lemma {:induction false} LeastRawIsLeast(rule: Rule, limit: nat, len: nat, padding: nat)
    requires 1 <= len && PaddedBy(rule, limit, len, padding)
    ensures LeastRaw(rule, limit) <= len + padding
  {}

  /** And some frame attains it. */
  lemma {:induction false} LeastRawAttained(rule: Rule, limit: nat) returns (len: nat, padding: nat)
    requires rule.lo <= rule.hi && 1 < limit
    ensures 1 <= len && PaddedBy(rule, limit, len, padding) && len + padding == LeastRaw(rule, limit)
  {
    if rule.threshold <= 1 {
      len, padding := 1, 0;
    } else if 1 + rule.lo <= rule.threshold && 1 + rule.lo <= limit {
      len, padding := 1, rule.lo;
    } else if limit <= rule.threshold {
      len, padding := 1, limit - 1;
    } else {
      len, padding := rule.threshold, 0;
    }
  }

  lemma {:induction false} RuleResolved(sc: Config, packet: nat)
    requires Resolved(sc)
    ensures RuleFor(sc, packet).lo <= RuleFor(sc, packet).hi
  {}

  lemma {:induction false} CanSealLeast(sc: Config, k: nat, packet: nat) returns (d: Chunk, seal: Seal)
    requires Resolved(sc)
    ensures MaySeal(sc, packet, d, seal) && |d| + seal.padding == LeastRaw(RuleFor(sc, packet), SealThreshold(sc.codec.encoding))
  {
    RuleResolved(sc, packet);
    var len, padding := LeastRawAttained(RuleFor(sc, packet), SealThreshold(sc.codec.encoding));
    d, seal := Zeros(len), Seal(Zeros(NONCE_LEN), padding);
    assert d != [];
  }

  /** A frame can be sealed under every number. */
  lemma {:induction false} CfgEndless(sc: Config, early: nat, maxInFlight: nat, concurrency: nat)
    requires Resolved(sc)
    ensures UploadLimits.Endless(CfgOf(sc, early, maxInFlight, concurrency))
  {
    var cfg := CfgOf(sc, early, maxInFlight, concurrency);
    forall k: nat | early <= k
      ensures UploadFlow.Sealable(cfg, k, UploadFlow.Least(cfg, k))
    {
      var d, seal := CanSealLeast(sc, k, k - early + 1);
      var w := |SealFrame(sc.codec, seal.nonce, k, d, seal.padding)|;
      SealsOf(sc, early, maxInFlight, concurrency, k, d, w, seal);
      assert UploadFlow.Sealable(cfg, k, w);
    }
  }

  /** The shortest frame with number `k`: in the binary encoding exactly forty bytes more than the least data and padding, in the text encoding
      at least fifty. */
  lemma {:induction false} ShortestFrame(sc: Config, early: nat, maxInFlight: nat, concurrency: nat, k: nat)
    requires Resolved(sc) && Lawful(sc.codec) && early <= k
    ensures var least := UploadFlow.Least(CfgOf(sc, early, maxInFlight, concurrency), k);
      var raw := LeastRaw(RuleFor(sc, k - early + 1), SealThreshold(sc.codec.encoding));
      if sc.codec.encoding.Binary? then least == raw + 40 else least >= raw + 50
  {
    var cfg := CfgOf(sc, early, maxInFlight, concurrency);
    CfgEndless(sc, early, maxInFlight, concurrency);
    SealableLength(sc, early, maxInFlight, concurrency, k, UploadFlow.Least(cfg, k));
    var w := ShortSealable(sc, early, maxInFlight, concurrency, k);
  }

  /** No frame is shorter. */
  lemma {:induction false} SealableLength(sc: Config, early: nat, maxInFlight: nat, concurrency: nat, k: nat, w: nat)
    requires Lawful(sc.codec) && early <= k && UploadFlow.Sealable(CfgOf(sc, early, maxInFlight, concurrency), k, w)
    ensures w >= LeastRaw(RuleFor(sc, k - early + 1), SealThreshold(sc.codec.encoding)) + if sc.codec.encoding.Binary? then 40 else 50
  {
    var packet := k - early + 1;
    var d: Chunk :| CfgOf(sc, early, maxInFlight, concurrency).seals(k, d, w);
    var seal := SealOf(sc, early, maxInFlight, concurrency, k, d, w);
    SealLength(sc, k, packet, d, seal);
    LeastRawIsLeast(RuleFor(sc, packet), SealThreshold(sc.codec.encoding), |d|, seal.padding);
  }

  /** One with the least data and padding can be sealed. */
  lemma {:induction false} ShortSealable(sc: Config, early: nat, maxInFlight: nat, concurrency: nat, k: nat) returns (w: nat)
    requires Resolved(sc) && Lawful(sc.codec) && early <= k
    ensures UploadFlow.Sealable(CfgOf(sc, early, maxInFlight, concurrency), k, w)
    ensures sc.codec.encoding.Binary? ==> w == LeastRaw(RuleFor(sc, k - early + 1), SealThreshold(sc.codec.encoding)) + 40
  {
    var packet := k - early + 1;
    var d, seal := CanSealLeast(sc, k, packet);
    w := |SealFrame(sc.codec, seal.nonce, k, d, seal.padding)|;
    SealLength(sc, k, packet, d, seal);
    SealsOf(sc, early, maxInFlight, concurrency, k, d, w, seal);
  }

  // ---------------------------------------------------------------- the limits, in numbers

  lemma {:induction false} UniformSum(cfg: UploadFlow.Cfg, least: nat, lo: nat, hi: nat)
    requires lo <= hi && forall k: nat :: lo <= k < hi ==> UploadFlow.Least(cfg, k) == least
    ensures UploadFlow.LeastSum(cfg, lo, hi) == least * (hi - lo)
    decreases hi - lo
  {
    if lo < hi {
      UniformSum(cfg, least, lo, hi - 1);
      assert least * (hi - lo) == least * (hi - 1 - lo) + least;
    }
  }

  /** The limits of a binary client without stages, whose shortest frame has `least` bytes. */
  lemma {:induction false} UniformRooms(cfg: UploadFlow.Cfg, least: nat)
    requires forall k: nat :: cfg.early <= k ==> UploadFlow.Least(cfg, k) == least
    ensures UploadFlow.FrameRoom(cfg) <==>
            cfg.concurrency >= 2 && least * 8194 <= cfg.maxInFlight && (cfg.concurrency >= 3 || least * 8192 < UploadFlow.BatchLimit(cfg))
    ensures UploadFlow.EosRoom(cfg) <==> cfg.concurrency >= 258 && least * 258 <= cfg.maxInFlight
  {
    forall n: nat | cfg.early <= n
      ensures UploadFlow.FrameRoomAt(cfg, n) <==> least * 8194 <= cfg.maxInFlight && (cfg.concurrency >= 3 || least * 8192 < UploadFlow.BatchLimit(cfg))
      ensures UploadFlow.EosRoomAt(cfg, n) <==> least * 258 <= cfg.maxInFlight
    {
      UniformSum(cfg, least, n, n + 8194);
      UniformSum(cfg, least, n + 1, n + 1 + 8192);
      UniformSum(cfg, least, n, n + 258);
    }
    if cfg.concurrency >= 2 && least * 8194 <= cfg.maxInFlight && (cfg.concurrency >= 3 || least * 8192 < UploadFlow.BatchLimit(cfg)) {
      assert UploadFlow.FrameRoomAt(cfg, cfg.early);
    }
    if least * 258 <= cfg.maxInFlight {
      assert UploadFlow.EosRoomAt(cfg, cfg.early);
    }
  }

  /** A client with the binary encoding and one padding rule can make the server give up over buffered frames, or over waiting requests, exactly
      when these numbers say so; over buffered bytes never. */
  lemma {:induction false} BinaryLimits(sc: Config, early: nat, maxInFlight: nat, concurrency: nat)
    requires Resolved(sc) && Lawful(sc.codec) && sc.codec.encoding.Binary? && sc.stages == []
    requires UploadFlow.MIN_IN_FLIGHT_BYTES <= maxInFlight <= UploadActor.MAX_PENDING_BYTES
    ensures var cfg := CfgOf(sc, early, maxInFlight, concurrency); var least := LeastRaw(sc.global, SealThreshold(Binary)) + 40;
      && (UploadLimits.Trips(cfg, UploadFlow.FrameLimit) <==>
            concurrency >= 2 && least * 8194 <= maxInFlight && (concurrency >= 3 || least * 8192 < UploadFlow.BatchLimit(cfg)))
      && (UploadLimits.Trips(cfg, UploadFlow.EosLimit) <==> concurrency >= 258 && least * 258 <= maxInFlight)
      && !UploadLimits.Trips(cfg, UploadFlow.ByteLimit)
  {
    var cfg := CfgOf(sc, early, maxInFlight, concurrency);
    CfgSupported(sc, early, maxInFlight, concurrency);
    CfgEndless(sc, early, maxInFlight, concurrency);
    var least := LeastRaw(sc.global, SealThreshold(Binary)) + 40;
    forall k: nat | early <= k
      ensures UploadFlow.Least(cfg, k) == least
    {
      ShortestFrame(sc, early, maxInFlight, concurrency, k);
    }
    UniformRooms(cfg, least);
    UploadLimits.FrameLimitExactlyWhen(cfg);
    UploadLimits.EosLimitExactlyWhen(cfg);
    UploadLimits.ByteLimitNever(cfg);
  }

  /** In particular, the default limits and a padding range that starts at zero let the limit on frames be hit, but not the one on requests. With so
      few requests at a time this takes a flush timer that fires in the poll that arms it, for most frames of a body. */
  lemma {:induction false} DefaultTrips(sc: Config, early: nat)
    requires Resolved(sc) && Lawful(sc.codec) && sc.codec.encoding.Binary? && sc.stages == [] && sc.global.lo == 0
    ensures var cfg := CfgOf(sc, early, 2 * 1024 * 1024, 128);
            UploadLimits.Trips(cfg, UploadFlow.FrameLimit) && !UploadLimits.Trips(cfg, UploadFlow.EosLimit)
  {
    BinaryLimits(sc, early, 2 * 1024 * 1024, 128);
  }
}
