/** The traffic shaper (src/shaper/mod.rs): it reads a byte stream and seals it into numbered,
    padded frames, as much at a time as has arrived when a frame is full or a timer fires. */
module Shaper {
  import opened Bytes
  import opened Incremental
  import opened FrameCodec
  import opened Sources

  const READ_HIGH_WATER: nat := 32 * 1024

  /** A padding rule: frames shorter than `threshold` get between `lo` and `hi` bytes of padding. */
  datatype Rule = Rule(threshold: nat, lo: nat, hi: nat)

  /** `rule` applies up to and including packet number `endCount`. */
  datatype Stage = Stage(endCount: nat, rule: Rule)

  datatype Config = Config(stages: seq<Stage>, global: Rule, codec: Codec)

  /** Every padding range is in order, as `TrafficConfig::validate` checks. */
  ghost predicate Resolved(cfg: Config) {
    && (forall i :: 0 <= i < |cfg.stages| ==> cfg.stages[i].rule.lo <= cfg.stages[i].rule.hi)
    && cfg.global.lo <= cfg.global.hi
  }

  /** The simple meaning of a staged configuration: the first stage that has not ended rules. */
  function FirstStage(stages: seq<Stage>, packet: nat): (i: nat)
    ensures i <= |stages|
    ensures i < |stages| ==> packet <= stages[i].endCount
    ensures forall j :: 0 <= j < i ==> packet > stages[j].endCount
  {
    if stages == [] || packet <= stages[0].endCount then 0
    else
      var k := FirstStage(stages[1..], packet);
      assert forall j :: 1 <= j < k + 1 ==> stages[j] == stages[1..][j - 1];
      k + 1
  }

  lemma {:induction false} FirstStageIs(stages: seq<Stage>, packet: nat, i: nat)
    requires i <= |stages| && (i < |stages| ==> packet <= stages[i].endCount)
    requires forall j :: 0 <= j < i ==> packet > stages[j].endCount
    ensures FirstStage(stages, packet) == i
  {}

  function RuleFor(cfg: Config, packet: nat): Rule {
    var i := FirstStage(cfg.stages, packet);
    if i < |cfg.stages| then cfg.stages[i].rule else cfg.global
  }

  // ---------------------------------------------------------------- resolving a configuration

  /** A stage as it is written: up to a packet count, or up to the high end of a range of counts. */
  datatype StageConfig = StageConfig(count: Option<nat>, countRange: Option<(nat, nat)>, rule: Rule)

  datatype TrafficConfig = TrafficConfig(stages: seq<StageConfig>, global: Rule, codec: Codec)

  function EndCount(s: StageConfig): nat {
    if s.count.Some? then s.count.value else if s.countRange.Some? then s.countRange.value.1 else 0
  }

  function ResolveStage(s: StageConfig): Stage {
    Stage(EndCount(s), s.rule)
  }

  /** `validate` */
  predicate Validates(c: TrafficConfig) {
    && c.global.lo <= c.global.hi
    && forall i :: 0 <= i < |c.stages| ==> c.stages[i].rule.lo <= c.stages[i].rule.hi
  }

  predicate SortedStages(stages: seq<Stage>) {
    forall i, j :: 0 <= i < j < |stages| ==> stages[i].endCount <= stages[j].endCount
  }

  function InsertStage(s: Stage, stages: seq<Stage>): seq<Stage> {
    if stages == [] || s.endCount <= stages[0].endCount then [s] + stages
    else [stages[0]] + InsertStage(s, stages[1..])
  }

  function ResolveStages(stages: seq<StageConfig>): seq<Stage> {
    if stages == [] then [] else InsertStage(ResolveStage(stages[0]), ResolveStages(stages[1..]))
  }

  /** `resolve`: the stages in the order of their ends. */
  function Resolve(c: TrafficConfig): Config {
    Config(ResolveStages(c.stages), c.global, c.codec)
  }

  lemma {:induction false} InsertKeeps(s: Stage, stages: seq<Stage>)
    requires SortedStages(stages)
    ensures SortedStages(InsertStage(s, stages))
    ensures forall t :: t in InsertStage(s, stages) <==> t == s || t in stages
    decreases |stages|
  {
    if stages != [] && s.endCount > stages[0].endCount {
      var rest := InsertStage(s, stages[1..]);
      InsertKeeps(s, stages[1..]);
      assert stages == [stages[0]] + stages[1..];
      forall j | 0 <= j < |rest|
        ensures stages[0].endCount <= rest[j].endCount
      {
        assert rest[j] in rest;
      }
    }
  }

  lemma {:induction false} ResolveKeeps(stages: seq<StageConfig>)
    ensures SortedStages(ResolveStages(stages))
    ensures forall t :: t in ResolveStages(stages) <==> exists i :: 0 <= i < |stages| && t == ResolveStage(stages[i])
    decreases |stages|
  {
    if stages != [] {
      var rest := stages[1..];
      ResolveKeeps(rest);
      InsertKeeps(ResolveStage(stages[0]), ResolveStages(rest));
      forall t | t in ResolveStages(stages)
        ensures exists i :: 0 <= i < |stages| && t == ResolveStage(stages[i])
      {
        if t != ResolveStage(stages[0]) {
          var i :| 0 <= i < |rest| && t == ResolveStage(rest[i]);
          assert rest[i] == stages[i + 1];
        }
      }
      forall i | 0 <= i < |stages|
        ensures ResolveStage(stages[i]) in ResolveStages(stages)
      {
        assert i > 0 ==> stages[i] == rest[i - 1];
      }
    }
  }

  /** Stage `i` has not ended, and none that has not ended ends earlier. */
  ghost predicate Tightest(stages: seq<StageConfig>, packet: nat, i: int) {
    && 0 <= i < |stages| && packet <= EndCount(stages[i])
    && forall j :: 0 <= j < |stages| && packet <= EndCount(stages[j]) ==> EndCount(stages[i]) <= EndCount(stages[j])
  }

  ghost predicate AllEnded(stages: seq<StageConfig>, packet: nat) {
    forall j :: 0 <= j < |stages| ==> packet > EndCount(stages[j])
  }

  /** The first stage in order that has not ended. */
  lemma {:induction false} FirstIsTightest(stages: seq<StageConfig>, packet: nat, j: nat)
    requires j < |stages| && packet <= EndCount(stages[j])
    ensures var sorted := ResolveStages(stages); var k := FirstStage(sorted, packet);
            k < |sorted| && sorted[k].endCount <= EndCount(stages[j])
  {
    var m := PlaceOf(stages, j);
    FirstBefore(ResolveStages(stages), packet, m);
  }

  lemma {:induction false} PlaceOf(stages: seq<StageConfig>, j: nat) returns (m: nat)
    requires j < |stages|
    ensures var sorted := ResolveStages(stages); SortedStages(sorted) && m < |sorted| && sorted[m] == ResolveStage(stages[j])
  {
    ResolveKeeps(stages);
    var sorted := ResolveStages(stages);
    assert ResolveStage(stages[j]) in sorted;
    m :| 0 <= m < |sorted| && sorted[m] == ResolveStage(stages[j]);
  }

  lemma {:induction false} FirstBefore(sorted: seq<Stage>, packet: nat, m: nat)
    requires SortedStages(sorted) && m < |sorted| && packet <= sorted[m].endCount
    ensures FirstStage(sorted, packet) < |sorted| && sorted[FirstStage(sorted, packet)].endCount <= sorted[m].endCount
  {}

  lemma {:induction false} FirstIsStage(stages: seq<StageConfig>, packet: nat) returns (i: nat)
    requires FirstStage(ResolveStages(stages), packet) < |ResolveStages(stages)|
    ensures i < |stages| && ResolveStages(stages)[FirstStage(ResolveStages(stages), packet)] == ResolveStage(stages[i])
  {
    ResolveKeeps(stages);
    var sorted := ResolveStages(stages);
    assert sorted[FirstStage(sorted, packet)] in sorted;
    i :| 0 <= i < |stages| && sorted[FirstStage(sorted, packet)] == ResolveStage(stages[i]);
  }

  /** What a configuration means for a packet: of the stages that have not ended, one with the earliest end rules; when all have ended, the
      default does. The order in which the stages are written does not matter for the end that is chosen. */
  lemma {:induction false} ResolveMeaning(c: TrafficConfig, packet: nat)
    ensures if AllEnded(c.stages, packet) then RuleFor(Resolve(c), packet) == c.global
            else exists i :: Tightest(c.stages, packet, i) && RuleFor(Resolve(c), packet) == c.stages[i].rule
  {
    var sorted := ResolveStages(c.stages);
    if FirstStage(sorted, packet) < |sorted| {
      var i := FirstIsStage(c.stages, packet);
      forall j | 0 <= j < |c.stages| && packet <= EndCount(c.stages[j])
        ensures EndCount(c.stages[i]) <= EndCount(c.stages[j])
      {
        FirstIsTightest(c.stages, packet, j);
      }
      assert Tightest(c.stages, packet, i);
    } else if !AllEnded(c.stages, packet) {
      var j :| 0 <= j < |c.stages| && packet <= EndCount(c.stages[j]);
      FirstIsTightest(c.stages, packet, j);
    }
  }

  lemma {:induction false} ResolveValid(c: TrafficConfig)
    requires Validates(c)
    ensures Resolved(Resolve(c))
  {
    ResolveKeeps(c.stages);
    var sorted := ResolveStages(c.stages);
    forall k | 0 <= k < |sorted|
      ensures sorted[k].rule.lo <= sorted[k].rule.hi
    {
      assert sorted[k] in sorted;
    }
  }

  // ---------------------------------------------------------------- sealing

  /** The padding that a rule allows for a frame with that much data, cut to the room left. */
  predicate PaddedBy(rule: Rule, limit: nat, len: nat, padding: nat) {
    && len + padding <= limit
    && if len < rule.threshold then padding <= rule.hi && (rule.lo <= padding || padding == limit - len) else padding == 0
  }

  /** How much data makes a frame full. */
  function SealThreshold(e: Encoding): (n: nat)
    ensures 0 < n <= FrameRawLimit(e) && n < READ_HIGH_WATER
  {
    match e
    case Binary => MAX_RAW_PAYLOAD - (NONCE_LEN + TAG_LEN + HEADER_LEN + 2)
    case Json => JSON_PAYLOAD_CAP
  }

  /** The random choices made for one frame. */
  datatype Seal = Seal(nonce: Chunk, padding: nat)

  /** Seals a payload under a number. */
  type Sealer = (nat, Chunk, Seal) -> Chunk

  function SealerOf(codec: Codec): Sealer {
    (seqNo: nat, payload: Chunk, seal: Seal) => SealFrame(codec, seal.nonce, seqNo, payload, seal.padding)
  }

  /** A non-empty payload that, padded, is within the limit of a frame. */
  ghost predicate GoodSeal(limit: nat, payload: Chunk, seal: Seal) {
    |seal.nonce| == NONCE_LEN && payload != [] && |payload| + seal.padding <= limit
  }

  ghost predicate GoodSeals(limit: nat, payloads: seq<Chunk>, seals: seq<Seal>) {
    |seals| == |payloads| && forall i :: 0 <= i < |payloads| ==> GoodSeal(limit, payloads[i], seals[i])
  }

  /** Each payload, the first being that of packet number one, is padded by the rule for its packet. */
  ghost predicate AllPadded(cfg: Config, limit: nat, payloads: seq<Chunk>, seals: seq<Seal>) {
    && |seals| == |payloads|
    && forall i :: 0 <= i < |payloads| ==> PaddedBy(RuleFor(cfg, i + 1), limit, |payloads[i]|, seals[i].padding)
  }

  ghost predicate SealsOk(cfg: Config, limit: nat, payloads: seq<Chunk>, seals: seq<Seal>) {
    forall p: seq<Chunk> {:trigger Look(p)} :: Look(p) && p == payloads ==> GoodSeals(limit, p, seals) && AllPadded(cfg, limit, p, seals)
  }

  /** Everything sealed within the limit is one frame to the decoder, and fits the maximum length. */
  ghost predicate Faithful(dec: Decoder, sealer: Sealer, limit: nat, maxLen: nat)
    requires Progresses(dec)
  {
    forall seqNo: nat, payload: Chunk, seal: Seal {:trigger sealer(seqNo, payload, seal)} ::
      seqNo < SEQ_LIMIT && GoodSeal(limit, payload, seal) ==>
        && Holds(dec, sealer(seqNo, payload, seal), Frame(seqNo, payload))
        && |payload| < |sealer(seqNo, payload, seal)| <= maxLen
  }

  /** The sealer and the decoder of one direction fit together. */
  lemma {:induction false} SealerIsFaithful(dec: Decoder, codec: Codec)
    requires IsDecoderOf(dec, codec) && Lawful(codec)
    ensures Faithful(dec, SealerOf(codec), FrameRawLimit(codec.encoding), MaxEncodedFrameLen(codec.encoding))
  {
    forall seqNo: nat, payload: Chunk, seal: Seal
      | seqNo < SEQ_LIMIT && GoodSeal(FrameRawLimit(codec.encoding), payload, seal)
      ensures Holds(dec, SealerOf(codec)(seqNo, payload, seal), Frame(seqNo, payload))
      ensures |payload| < |SealerOf(codec)(seqNo, payload, seal)| <= MaxEncodedFrameLen(codec.encoding)
    {
      SealedDecodesToItself(dec, codec, seal.nonce, seqNo, payload, seal.padding);
      FrameLength(codec, seal.nonce, seqNo, payload, seal.padding);
    }
  }

  /** The frames on the wire for a list of payloads numbered from `start`. */
  function Wire(sealer: Sealer, start: nat, payloads: seq<Chunk>, seals: seq<Seal>): (w: seq<Chunk>)
    requires |seals| == |payloads|
    ensures |w| == |payloads|
  {
    seq(|payloads|, i requires 0 <= i < |payloads| => sealer(start + i, payloads[i], seals[i]))
  }

  function Numbered(start: nat, payloads: seq<Chunk>): seq<Frame> {
    seq(|payloads|, i requires 0 <= i < |payloads| => Frame(start + i, payloads[i]))
  }

  /** A shaped stream decodes to exactly its payloads under consecutive numbers, with nothing left over. */
  lemma {:induction false} ShapedStreamDecodes(dec: Decoder, sealer: Sealer, limit: nat, maxLen: nat,
                            start: nat, payloads: seq<Chunk>, seals: seq<Seal>)
    requires IsIncremental(dec) && dec([]) == More && Faithful(dec, sealer, limit, maxLen)
    requires GoodSeals(limit, payloads, seals) && start + |payloads| <= SEQ_LIMIT
    ensures DecodeAll(dec, Flatten(Wire(sealer, start, payloads, seals))) == Contents(Numbered(start, payloads), [], false)
  {
    DecodeConcat(dec, Wire(sealer, start, payloads, seals), Numbered(start, payloads));
  }

  /** In particular for the sealer and the decoder of one direction. */
  lemma {:induction false} ShapedBytesDecode(dec: Decoder, codec: Codec, start: nat, payloads: seq<Chunk>, seals: seq<Seal>)
    requires IsDecoderOf(dec, codec) && Lawful(codec) && start + |payloads| <= SEQ_LIMIT
    requires GoodSeals(FrameRawLimit(codec.encoding), payloads, seals)
    ensures DecodeAll(dec, Flatten(Wire(SealerOf(codec), start, payloads, seals))) == Contents(Numbered(start, payloads), [], false)
    ensures forall i :: 0 <= i < |payloads| ==>
              |payloads[i]| < |Wire(SealerOf(codec), start, payloads, seals)[i]| <= MaxEncodedFrameLen(codec.encoding)
  {
    SealerIsFaithful(dec, codec);
    EmptyIsIncomplete(dec, codec);
    FaithfulLengths(dec, SealerOf(codec), FrameRawLimit(codec.encoding), MaxEncodedFrameLen(codec.encoding), start, payloads, seals);
    ShapedStreamDecodes(dec, SealerOf(codec), FrameRawLimit(codec.encoding), MaxEncodedFrameLen(codec.encoding), start, payloads, seals);
  }

  lemma {:induction false} FaithfulLengths(dec: Decoder, sealer: Sealer, limit: nat, maxLen: nat, start: nat, payloads: seq<Chunk>, seals: seq<Seal>)
    requires IsIncremental(dec) && Faithful(dec, sealer, limit, maxLen)
    requires GoodSeals(limit, payloads, seals) && start + |payloads| <= SEQ_LIMIT
    ensures forall i :: 0 <= i < |payloads| ==> |payloads[i]| < |Wire(sealer, start, payloads, seals)[i]| <= maxLen
  {}

  // ---------------------------------------------------------------- the shaper itself

  datatype SealPoll = Pending | Failed | Ended | Sealed(seqNo: nat)

  /** Any nonce. */
  method DrawNonce() returns (nonce: Chunk)
    ensures |nonce| == NONCE_LEN
  {
    nonce :| |nonce| == NONCE_LEN by {
      assert |Zeros(NONCE_LEN)| == NONCE_LEN;
    }
  }

  /** What is kept when the first part of the buffer is sealed. */
  lemma {:induction false} SealedMore(cfg: Config, threshold: nat, payloads: seq<Chunk>, seals: seq<Seal>, raw: Chunk, n: nat, seal: Seal)
    requires n <= |raw| && SealsOk(cfg, threshold, payloads, seals)
    requires GoodSeal(threshold, raw[..n], seal) && PaddedBy(RuleFor(cfg, |payloads| + 1), threshold, n, seal.padding)
    ensures Flatten(payloads + [raw[..n]]) + raw[n..] == Flatten(payloads) + raw
    ensures SealsOk(cfg, threshold, payloads + [raw[..n]], seals + [seal])
  {
    assert Look(payloads);
    FlattenSnoc(payloads, raw[..n]);
    assert raw == raw[..n] + raw[n..];
  }

  class TrafficShaper {
    const cfg: Config
    const threshold: nat
    const sealer: Sealer
    /** What the reader will still deliver. */
    var upstream: Chunk
    var rawBuf: Chunk
    var seqNo: nat
    var packetCount: nat
    var stageIdx: nat
    var timerArmed: bool

    ghost const start: nat
    /** Everything read, and the payloads sealed so far with the choices made for them. */
    ghost var read: Chunk
    ghost var payloads: seq<Chunk>
    ghost var seals: seq<Seal>

    ghost predicate Valid()
      reads this
    {
      && Resolved(cfg) && 0 < threshold < READ_HIGH_WATER
      && Flatten(payloads) + rawBuf == read
      && seqNo == start + |payloads|
      && SealsOk(cfg, threshold, payloads, seals) && packetCount == |payloads| == |seals|
      && |rawBuf| <= READ_HIGH_WATER
      && stageIdx == FirstStage(cfg.stages, packetCount)
    }

    constructor (cfg: Config, upstream: Chunk, start: nat)
      requires Resolved(cfg)
      ensures threshold == SealThreshold(cfg.codec.encoding) && sealer == SealerOf(cfg.codec)
      ensures Valid() && this.cfg == cfg && this.upstream == upstream && this.start == start
      ensures read == [] && payloads == []
    {
      this.cfg, threshold, sealer := cfg, SealThreshold(cfg.codec.encoding), SealerOf(cfg.codec);
      this.upstream, rawBuf, seqNo, packetCount, stageIdx, timerArmed := upstream, [], start, 0, 0, false;
      this.start, read, payloads, seals := start, [], [], [];
    }

    /** `resolve_padding`: the stage index only moves forward, and still names the first stage that
        has not ended. `wanted` is drawn from the range of the rule. */
    method ResolvePadding(rawLen: nat) returns (padding: nat)
      requires Resolved(cfg) && stageIdx == FirstStage(cfg.stages, packetCount) && rawLen <= threshold
      modifies this`packetCount, this`stageIdx
      ensures packetCount == old(packetCount) + 1 && stageIdx == FirstStage(cfg.stages, packetCount)
      ensures PaddedBy(RuleFor(cfg, packetCount), threshold, rawLen, padding)
    {
      packetCount := packetCount + 1;
      while stageIdx < |cfg.stages| && packetCount > cfg.stages[stageIdx].endCount
        invariant stageIdx <= |cfg.stages| && packetCount == old(packetCount) + 1
        invariant forall j :: 0 <= j < stageIdx ==> packetCount > cfg.stages[j].endCount
      {
        stageIdx := stageIdx + 1;
      }
      FirstStageIs(cfg.stages, packetCount, stageIdx);
      var rule := if stageIdx < |cfg.stages| then cfg.stages[stageIdx].rule else cfg.global;
      if rawLen >= rule.threshold {
        return 0;
      }
      var wanted :| rule.lo <= wanted <= rule.hi;
      padding := if wanted < threshold - rawLen then wanted else threshold - rawLen;
    }

    /** `seal_into`: one frame's worth of the buffer is sealed under the next number. */
    method SealInto(out: Chunk) returns (out': Chunk, ghost payload: Chunk, ghost seal: Seal)
      requires Valid() && rawBuf != []
      modifies this`rawBuf, this`seqNo, this`packetCount, this`stageIdx, this`timerArmed, this`payloads, this`seals
      ensures Valid() && GoodSeal(threshold, payload, seal)
      ensures payloads == old(payloads) + [payload] && seals == old(seals) + [seal]
      ensures out' == out + sealer(old(seqNo), payload, seal) && seqNo == old(seqNo) + 1
      ensures !timerArmed && payload + rawBuf == old(rawBuf) && (|payload| == threshold || rawBuf == [])
    {
      var rawLen := if |rawBuf| < threshold then |rawBuf| else threshold;
      timerArmed := false;
      var padding := ResolvePadding(rawLen);
      var nonce := DrawNonce();
      var data := rawBuf[..rawLen];
      out' := out + sealer(seqNo, data, Seal(nonce, padding));
      payload, seal := data, Seal(nonce, padding);
      SealedMore(cfg, threshold, payloads, seals, rawBuf, rawLen, seal);
      seqNo := seqNo + 1;
      rawBuf := rawBuf[rawLen..];
      payloads := payloads + [data];
      seals := seals + [seal];
    }

    /** Takes in what was read. */
    method Fill(bytes: Chunk, rest: Chunk)
      requires Valid() && upstream == bytes + rest && |rawBuf| + |bytes| <= READ_HIGH_WATER
      modifies this`rawBuf, this`upstream, this`read
      ensures Valid() && upstream == rest && read + upstream == old(read + upstream)
      ensures |upstream| + |rawBuf| == old(|upstream| + |rawBuf|)
    {
      assert Flatten(payloads) + (rawBuf + bytes) == read + bytes;
      rawBuf, upstream, read := rawBuf + bytes, rest, read + bytes;
    }

    /** `poll_fill_and_seal`: reads until a frame is full, the stream ends, or nothing more has arrived
        and the flush timer has fired. Unless the timer was armed before, or is `instant` and may fire in the poll that arms it, a
        frame that is not full is the last of the stream. */
    method PollFillAndSeal(out: Chunk, instant: bool) returns (r: SealPoll, out': Chunk)
      requires Valid()
      modifies this
      ensures Valid() && read + upstream == old(read + upstream)
      ensures r.Sealed? ==>
                && r.seqNo == old(seqNo) && |payloads| == old(|payloads|) + 1
                && old(payloads) == payloads[..old(|payloads|)] && old(seals) == seals[..old(|payloads|)]
                && out' == out + sealer(r.seqNo, payloads[old(|payloads|)], seals[old(|payloads|)])
      ensures !r.Sealed? ==> payloads == old(payloads) && seals == old(seals) && out' == out
      ensures r.Ended? ==> upstream == [] && rawBuf == []
      ensures r.Sealed? ==> !timerArmed && |upstream| + |rawBuf| < old(|upstream| + |rawBuf|)
      ensures r.Sealed? && !instant && !old(timerArmed) ==> |payloads[old(|payloads|)]| == threshold || (upstream == [] && rawBuf == [])
    {
      ghost var payload, seal;
      while |rawBuf| < threshold
        invariant Valid() && read + upstream == old(read + upstream) && timerArmed == old(timerArmed)
        invariant |upstream| + |rawBuf| == old(|upstream| + |rawBuf|)
        invariant payloads == old(payloads) && seals == old(seals) && seqNo == old(seqNo)
        decreases |upstream|
      {
        var remaining: nat := READ_HIGH_WATER - |rawBuf|;
        var poll, rest := PollRead(upstream, remaining);
        match poll {
          case Broken =>
            return Failed, out;
          case NotReady =>
            var fired: bool := *;
            fired := fired && (timerArmed || instant);
            timerArmed := timerArmed || rawBuf != [];
            if rawBuf == [] || !fired {
              return Pending, out;
            }
            break;
          case Data(bytes) =>
            if bytes == [] {
              if rawBuf == [] {
                return Ended, out;
              }
              break;
            }
            Fill(bytes, rest);
        }
      }
      r := Sealed(seqNo);
      out', payload, seal := SealInto(out);
    }
  }

  lemma {:induction false} WireSnoc(sealer: Sealer, start: nat, payloads: seq<Chunk>, seals: seq<Seal>)
    requires |seals| == |payloads| > 0
    ensures var n := |payloads| - 1;
            Flatten(Wire(sealer, start, payloads, seals)) ==
            Flatten(Wire(sealer, start, payloads[..n], seals[..n])) + sealer(start + n, payloads[n], seals[n])
  {
    var n := |payloads| - 1;
    assert Wire(sealer, start, payloads, seals) == Wire(sealer, start, payloads[..n], seals[..n]) + [sealer(start + n, payloads[n], seals[n])];
    FlattenSnoc(Wire(sealer, start, payloads[..n], seals[..n]), sealer(start + n, payloads[n], seals[n]));
  }

  method PollMany(shaper: TrafficShaper, polls: nat) returns (out: Chunk, last: SealPoll)
    requires shaper.Valid() && shaper.payloads == []
    modifies shaper
    ensures shaper.Valid() && shaper.read + shaper.upstream == old(shaper.read + shaper.upstream)
    ensures out == Flatten(Wire(shaper.sealer, shaper.start, shaper.payloads, shaper.seals))
    ensures last.Ended? ==> shaper.upstream == [] && shaper.rawBuf == []
    ensures |shaper.payloads| <= polls
  {
    out, last := [], Pending;
    for i := 0 to polls
      invariant |shaper.payloads| <= i
      invariant shaper.Valid() && shaper.read + shaper.upstream == old(shaper.read + shaper.upstream)
      invariant out == Flatten(Wire(shaper.sealer, shaper.start, shaper.payloads, shaper.seals))
      invariant last.Ended? ==> shaper.upstream == [] && shaper.rawBuf == []
    {
      last, out := shaper.PollFillAndSeal(out, true);
      if last.Sealed? {
        WireSnoc(shaper.sealer, shaper.start, shaper.payloads, shaper.seals);
      }
    }
  }

  /** Polls a fresh shaper any number of times, whatever the reader and the timer do. What has been put
      out is the sealed form of consecutively numbered, non-empty payloads; those payloads followed by
      what is still buffered are exactly the bytes read; and once the shaper reports the end, they are
      the whole stream. */
  method Shape(cfg: Config, stream: Chunk, start: nat, polls: nat)
    returns (out: Chunk, last: SealPoll, ghost payloads: seq<Chunk>, ghost seals: seq<Seal>, ghost held: Chunk)
    requires Resolved(cfg)
    ensures GoodSeals(SealThreshold(cfg.codec.encoding), payloads, seals)
    ensures AllPadded(cfg, SealThreshold(cfg.codec.encoding), payloads, seals)
    ensures out == Flatten(Wire(SealerOf(cfg.codec), start, payloads, seals))
    ensures Flatten(payloads) + held <= stream
    ensures last.Ended? ==> Flatten(payloads) == stream
    ensures |payloads| <= polls
  {
    var shaper := new TrafficShaper(cfg, stream, start);
    out, last := PollMany(shaper, polls);
    payloads, seals, held := shaper.payloads, shaper.seals, shaper.rawBuf;
    assert Look(payloads);
    assert Flatten(payloads) + held + shaper.upstream == stream;
  }

  // ---------------------------------------------------------------- frame by frame

  /** Polls the shaper any number of times, with an empty buffer each time, and keeps what it seals frame by frame. */
  method PollFrames(shaper: TrafficShaper, polls: nat) returns (frames: seq<Chunk>, last: SealPoll)
    requires shaper.Valid() && shaper.payloads == []
    modifies shaper
    ensures shaper.Valid() && shaper.read + shaper.upstream == old(shaper.read + shaper.upstream)
    ensures frames == Wire(shaper.sealer, shaper.start, shaper.payloads, shaper.seals) && |shaper.payloads| <= polls
    ensures last.Ended? ==> shaper.upstream == [] && shaper.rawBuf == []
  {
    frames, last := [], Pending;
    for i := 0 to polls
      invariant shaper.Valid() && shaper.read + shaper.upstream == old(shaper.read + shaper.upstream)
      invariant frames == Wire(shaper.sealer, shaper.start, shaper.payloads, shaper.seals) && |shaper.payloads| <= i
      invariant last.Ended? ==> shaper.upstream == [] && shaper.rawBuf == []
    {
      ghost var payloads, seals := shaper.payloads, shaper.seals;
      var out;
      last, out := shaper.PollFillAndSeal([], true);
      if last.Sealed? {
        WireNext(shaper.sealer, shaper.start, payloads, seals, shaper.payloads, shaper.seals);
        frames := frames + [out];
      }
    }
  }

  lemma {:induction false} WireNext(sealer: Sealer, start: nat, ps: seq<Chunk>, ss: seq<Seal>, ps': seq<Chunk>, ss': seq<Seal>)
    requires |ss| == |ps| && |ss'| == |ps'| == |ps| + 1 && ps == ps'[..|ps|] && ss == ss'[..|ps|]
    ensures Wire(sealer, start, ps', ss') == Wire(sealer, start, ps, ss) + [[] + sealer(start + |ps|, ps'[|ps|], ss'[|ps|])]
  {
    assert [] + sealer(start + |ps|, ps'[|ps|], ss'[|ps|]) == sealer(start + |ps|, ps'[|ps|], ss'[|ps|]);
  }

  /** A stream, frame by frame: the frames carry a first part of it, and all of it once the end is reported. */
  method ShapeFrames(cfg: Config, stream: Chunk, start: nat, polls: nat)
    returns (frames: seq<Chunk>, last: SealPoll, ghost payloads: seq<Chunk>, ghost seals: seq<Seal>)
    requires Resolved(cfg)
    ensures GoodSeals(SealThreshold(cfg.codec.encoding), payloads, seals) && |payloads| <= polls
    ensures frames == Wire(SealerOf(cfg.codec), start, payloads, seals) && Flatten(payloads) <= stream
    ensures last.Ended? ==> Flatten(payloads) == stream
  {
    var shaper := new TrafficShaper(cfg, stream, start);
    frames, last := PollFrames(shaper, polls);
    payloads, seals := shaper.payloads, shaper.seals;
    assert Look(payloads);
    assert (Flatten(payloads) + shaper.rawBuf) + shaper.upstream == [] + stream == stream;
  }

  // ---------------------------------------------------------------- seen from the other end

  /** Whole frames with consecutive numbers and non-empty data. */
  ghost predicate InSequence(all: Contents, start: nat) {
    && !all.bad && all.rest == []
    && forall i :: 0 <= i < |all.frames| ==> all.frames[i].seqNo == start + i && all.frames[i].data != []
  }

  /** What a decoder makes of a sealed list of payloads. */
  lemma {:induction false} SealedInSequence(dec: Decoder, codec: Codec, start: nat, payloads: seq<Chunk>, seals: seq<Seal>)
    requires IsDecoderOf(dec, codec) && Lawful(codec) && start + |payloads| <= SEQ_LIMIT
    requires GoodSeals(FrameRawLimit(codec.encoding), payloads, seals)
    ensures var all := DecodeAll(dec, Flatten(Wire(SealerOf(codec), start, payloads, seals)));
            InSequence(all, start) && Datas(all.frames) == payloads
  {
    ShapedBytesDecode(dec, codec, start, payloads, seals);
    DatasOfNumbered(start, payloads);
    assert forall i :: 0 <= i < |payloads| ==> GoodSeal(FrameRawLimit(codec.encoding), payloads[i], seals[i]);
  }

  lemma {:induction false} DatasOfNumbered(start: nat, payloads: seq<Chunk>)
    ensures Datas(Numbered(start, payloads)) == payloads
  {}

  /** Conservation, seen from the receiver: whatever the reader, the timer and the random choices do, the output of the shaper decodes
      without a rest to consecutively numbered, non-empty frames whose data is a first part of the stream, and all of it once
      the shaper reports the end. */
  method ShapeDecodes(dec: Decoder, cfg: Config, stream: Chunk, start: nat, polls: nat) returns (out: Chunk, last: SealPoll)
    requires Resolved(cfg) && IsDecoderOf(dec, cfg.codec) && Lawful(cfg.codec) && start + polls <= SEQ_LIMIT
    ensures var all := DecodeAll(dec, out);
      && InSequence(all, start) && Flatten(Datas(all.frames)) <= stream
      && (last.Ended? ==> Flatten(Datas(all.frames)) == stream)
  {
    ghost var payloads, seals, held;
    out, last, payloads, seals, held := Shape(cfg, stream, start, polls);
    ThresholdWithinLimit(cfg.codec.encoding, payloads, seals);
    SealedInSequence(dec, cfg.codec, start, payloads, seals);
  }

  lemma {:induction false} ThresholdWithinLimit(e: Encoding, payloads: seq<Chunk>, seals: seq<Seal>)
    requires GoodSeals(SealThreshold(e), payloads, seals)
    ensures GoodSeals(FrameRawLimit(e), payloads, seals)
  {}
}
