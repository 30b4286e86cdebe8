/** The wire format of one frame: an AEAD-sealed payload of sequence number, original
    length, data and padding, carried either behind a two-byte length or inside a
    one-line JSON object (src/shaper/mod.rs). */
module FrameCodec {
  import opened Bytes
  import opened Incremental

  const MAX_RAW_PAYLOAD: nat := 16 * 1024
  const NONCE_LEN: nat := 12
  const TAG_LEN: nat := 16
  const HEADER_LEN: nat := 10
  const JSON_PAYLOAD_CAP: nat := 14320 - HEADER_LEN - NONCE_LEN - TAG_LEN
  const MAX_BINARY_FRAME_LEN: nat := MAX_RAW_PAYLOAD + 38
  const MAX_JSON_LINE_LEN: nat := MAX_RAW_PAYLOAD + 2396

  const NEWLINE: Byte := 10
  const QUOTE: Byte := 34
  const SEQ_LIMIT: nat := 0x1_0000_0000_0000_0000

  datatype Encoding = Json | Binary

  /** An AEAD under one key. `seal` takes the random nonce as an argument. */
  datatype Cipher = Cipher(seal: (Chunk, Chunk) -> Chunk, open: Chunk -> Option<Chunk>)

  /** The base-122 text encoding. */
  datatype Text = Text(encode: Chunk -> Chunk, decode: Chunk -> Option<Chunk>)

  /** One tunnel direction: its key, its text encoding and its frame encoding. */
  datatype Codec = Codec(cipher: Cipher, text: Text, encoding: Encoding)

  ghost predicate SealsAndOpens(c: Cipher) {
    && (forall nonce: Chunk, plain: Chunk {:trigger c.seal(nonce, plain)} | |nonce| == NONCE_LEN ::
          && |c.seal(nonce, plain)| == NONCE_LEN + |plain| + TAG_LEN
          && c.open(c.seal(nonce, plain)) == Some(plain))
    && (forall sealed: Chunk | |sealed| < NONCE_LEN + TAG_LEN :: c.open(sealed) == None)
  }

  ghost predicate EncodesAsText(t: Text) {
    forall raw: Chunk {:trigger t.encode(raw)} ::
      && t.decode(t.encode(raw)) == Some(raw)
      && |raw| <= |t.encode(raw)| <= |raw| + |raw| / 6 + 16
      && QUOTE !in t.encode(raw)
      && NEWLINE !in t.encode(raw)
  }

  /** The only facts used about the foreign primitives. */
  ghost predicate Lawful(codec: Codec) {
    SealsAndOpens(codec.cipher) && EncodesAsText(codec.text)
  }

  function MaxEncodedFrameLen(e: Encoding): nat {
    match e
    case Binary => MAX_BINARY_FRAME_LEN + 2
    case Json => MAX_JSON_LINE_LEN + 1
  }

  function FrameRawLimit(e: Encoding): nat {
    match e
    case Json => JSON_PAYLOAD_CAP
    case Binary => MAX_RAW_PAYLOAD
  }

  // ---------------------------------------------------------------- encoding

  function JsonPrefix(): (p: Chunk) {
    [123, 34, 100, 97, 116, 97, 34, 58, 34]  // {"data":"
  }

  function JsonSuffix(): (p: Chunk) {
    [34, 125]  // "}
  }

  function FramePayload(seqNo: nat, data: Chunk, padding: nat): (p: Chunk)
    ensures |p| == HEADER_LEN + |data| + padding
  {
    BigEndian(seqNo, 8) + BigEndian(|data|, 2) + data + Zeros(padding)
  }

  /** A sealed payload on the wire; the length prefix is truncated to sixteen bits as in the source. */
  function Wrap(codec: Codec, sealed: Chunk): Chunk {
    match codec.encoding
    case Binary => BigEndian(|sealed| % 65536, 2) + sealed
    case Json => JsonPrefix() + codec.text.encode(sealed) + JsonSuffix() + [NEWLINE]
  }

  function SealFrame(codec: Codec, nonce: Chunk, seqNo: nat, data: Chunk, padding: nat): Chunk {
    Wrap(codec, codec.cipher.seal(nonce, FramePayload(seqNo, data, padding)))
  }

  /** `wanted` is the random draw from the configured padding range. */
  function FramePadding(rawLen: nat, threshold: nat, wanted: nat, limit: nat): (p: nat)
    requires rawLen <= limit
    ensures rawLen + p <= limit
  {
    if rawLen < threshold then
      if wanted < limit - rawLen then wanted else limit - rawLen
    else 0
  }

  /** `encode_frame_into`: the frame, or `None` when the data is over the limit of the encoding. */
  function EncodeFrame(codec: Codec, nonce: Chunk, seqNo: nat, data: Chunk, threshold: nat, wanted: nat): Option<Chunk> {
    var limit := FrameRawLimit(codec.encoding);
    if |data| > limit then None
    else Some(SealFrame(codec, nonce, seqNo, data, FramePadding(|data|, threshold, wanted, limit)))
  }

  // ---------------------------------------------------------------- decoding

  /** `extract_frame_range` */
  function ExtractFrame(payload: Chunk): Option<Frame> {
    if |payload| < HEADER_LEN then None
    else
      var seqNo := FromBigEndian(payload[..8]);
      var len := FromBigEndian(payload[8..10]);
      if |payload| < HEADER_LEN + len then None
      else Some(Frame(seqNo, payload[HEADER_LEN..HEADER_LEN + len]))
  }

  function OpenFrame(cipher: Cipher, sealed: Chunk, rest: Chunk): (r: Decoded)
    ensures !r.More?
    ensures r.Got? ==> r.rest == rest
  {
    match cipher.open(sealed)
    case None => Bad
    case Some(payload) =>
      match ExtractFrame(payload)
      case None => Bad
      case Some(Frame(seqNo, data)) => Got(Frame(seqNo, data), rest)
  }

  /** The first occurrence of `pat`, or `None`. */
  function FindSub(s: Chunk, pat: Chunk): (k: Option<nat>)
    ensures k.Some? ==> k.value + |pat| <= |s|
  {
    if pat <= s then Some(0)
    else if s == [] then None
    else
      match FindSub(s[1..], pat)
      case None => None
      case Some(k) => Some(k + 1)
  }

  /** The text between the quotes of the data field of a line, or `None` when the line is malformed. */
  function JsonField(line: Chunk): Option<Chunk> {
    var json := TrimAscii(line);
    var n := |JsonPrefix()|;
    if JsonPrefix() <= json && |json| >= n + 2 && json[|json| - 2..] == JsonSuffix() then
      Some(json[n..|json| - 2])
    else
      match FindSub(json, JsonPrefix()[1..])
      case None => None
      case Some(start) =>
        var remaining := json[start + n - 1..];
        var end := IndexOf(remaining, QUOTE);
        if end == |remaining| then None else Some(remaining[..end])
  }

  function DecodeLine(codec: Codec, line: Chunk, rest: Chunk): (r: Decoded)
    ensures !r.More?
    ensures r.Got? ==> r.rest == rest
  {
    if line == [] then Bad
    else
      match JsonField(line)
      case None => Bad
      case Some(field) =>
        match codec.text.decode(field)
        case None => Bad
        case Some(sealed) => OpenFrame(codec.cipher, sealed, rest)
  }

  /** `decode_frame`, with the buffer that is left as part of the result. */
  function DecodeFrame(codec: Codec, src: Chunk): (r: Decoded)
    ensures r.Got? ==> |r.rest| < |src|
    ensures r.More? ==> |src| < MaxEncodedFrameLen(codec.encoding)
  {
    match codec.encoding
    case Binary =>
      if |src| < 2 then More
      else
        var len := FromBigEndian(src[..2]);
        if len > MAX_BINARY_FRAME_LEN then Bad
        else if |src| < 2 + len then More
        else OpenFrame(codec.cipher, src[2..2 + len], src[2 + len..])
    case Json =>
      var pos := IndexOf(src, NEWLINE);
      if pos < |src| then
        if pos > MAX_JSON_LINE_LEN then Bad
        else DecodeLine(codec, src[..pos], src[pos + 1..])
      else if |src| > MAX_JSON_LINE_LEN then Bad
      else More
  }

  // ---------------------------------------------------------------- round trip

  lemma {:induction false} ExtractFramePayload(seqNo: nat, data: Chunk, padding: nat)
    requires seqNo < SEQ_LIMIT && |data| < 65536
    ensures ExtractFrame(FramePayload(seqNo, data, padding)) == Some(Frame(seqNo, data))
  {
    SeqNoBack(seqNo);
    LengthBack(|data|);
    ExtractParts(BigEndian(seqNo, 8), BigEndian(|data|, 2), data, Zeros(padding));
  }

  lemma {:induction false} SeqNoBack(n: nat)
    requires n < SEQ_LIMIT
    ensures FromBigEndian(BigEndian(n, 8)) == n
  {
    Pow256Values();
    BigEndianRoundTrip(n, 8);
  }

  lemma {:induction false} LengthBack(n: nat)
    requires n < 65536
    ensures FromBigEndian(BigEndian(n, 2)) == n
  {
    Pow256Values();
    BigEndianRoundTrip(n, 2);
  }

  lemma {:induction false} ExtractParts(a: Chunk, b: Chunk, data: Chunk, padding: Chunk)
    requires |a| == 8 && |b| == 2 && FromBigEndian(b) == |data|
    ensures ExtractFrame(a + b + data + padding) == Some(Frame(FromBigEndian(a), data))
  {
    var p := a + b + data + padding;
    assert p[..8] == a && p[8..10] == b && p[10..10 + |data|] == data;
  }

  lemma {:induction false} OpensToFrame(codec: Codec, nonce: Chunk, seqNo: nat, data: Chunk, padding: nat, rest: Chunk)
    requires Lawful(codec)
    requires |nonce| == NONCE_LEN && seqNo < SEQ_LIMIT && |data| < 65536
    ensures OpenFrame(codec.cipher, codec.cipher.seal(nonce, FramePayload(seqNo, data, padding)), rest)
         == Got(Frame(seqNo, data), rest)
  {
    ExtractFramePayload(seqNo, data, padding);
  }

  /** A sealed line starts with a brace, ends with one, and holds its text between the quotes. */
  lemma {:induction false} JsonFieldOfLine(body: Chunk)
    ensures JsonField(JsonPrefix() + body + JsonSuffix()) == Some(body)
  {
    var line := JsonPrefix() + body + JsonSuffix();
    assert line[0] == 123 && line[|line| - 1] == 125;
    assert TrimAscii(line) == line;
    assert line[|line| - 2..] == JsonSuffix();
    assert line[|JsonPrefix()|..|line| - 2] == body;
  }

  lemma {:induction false} NewlineEndsLine(body: Chunk, tail: Chunk)
    requires NEWLINE !in body
    ensures IndexOf(JsonPrefix() + body + JsonSuffix() + [NEWLINE] + tail, NEWLINE) == |body| + 11
  {
    var s := JsonPrefix() + body + JsonSuffix() + [NEWLINE] + tail;
    assert forall i :: 9 <= i < 9 + |body| ==> s[i] == body[i - 9];
    assert s[|body| + 9] == 34 && s[|body| + 10] == 125 && s[|body| + 11] == NEWLINE;
    IndexOfUnique(s, NEWLINE, |body| + 11);
  }

  /** Every frame that respects the limit of its encoding fits the advertised maximum. */
  lemma {:induction false} FrameLength(codec: Codec, nonce: Chunk, seqNo: nat, data: Chunk, padding: nat)
    requires Lawful(codec) && |nonce| == NONCE_LEN
    requires |data| + padding <= FrameRawLimit(codec.encoding)
    ensures |data| < |SealFrame(codec, nonce, seqNo, data, padding)| <= MaxEncodedFrameLen(codec.encoding)
    ensures codec.encoding.Binary? ==> |SealFrame(codec, nonce, seqNo, data, padding)| == |data| + padding + 40
    ensures codec.encoding.Json? ==> |SealFrame(codec, nonce, seqNo, data, padding)| >= |data| + padding + 50
  {
    var sealed := codec.cipher.seal(nonce, FramePayload(seqNo, data, padding));
    if codec.encoding.Json? {
      assert |sealed| <= |codec.text.encode(sealed)| <= |sealed| + |sealed| / 6 + 16;
    }
  }

  lemma {:induction false} UnwrapBinary(codec: Codec, sealed: Chunk, tail: Chunk)
    requires codec.encoding.Binary? && |sealed| <= MAX_BINARY_FRAME_LEN
    ensures DecodeFrame(codec, Wrap(codec, sealed) + tail) == OpenFrame(codec.cipher, sealed, tail)
  {
    var len := BinaryWrap(codec, sealed);
    DecodeBinary(codec, len, sealed, tail);
  }

  lemma {:induction false} BinaryWrap(codec: Codec, sealed: Chunk) returns (len: Chunk)
    requires codec.encoding.Binary? && |sealed| <= MAX_BINARY_FRAME_LEN
    ensures Wrap(codec, sealed) == len + sealed && |len| == 2 && FromBigEndian(len) == |sealed|
  {
    len := BigEndian(|sealed|, 2);
    LengthBack(|sealed|);
  }

  lemma {:induction false} DecodeBinary(codec: Codec, len: Chunk, sealed: Chunk, tail: Chunk)
    requires codec.encoding.Binary? && |len| == 2 && FromBigEndian(len) == |sealed| <= MAX_BINARY_FRAME_LEN
    ensures DecodeFrame(codec, len + sealed + tail) == OpenFrame(codec.cipher, sealed, tail)
  {
    var src := len + sealed + tail;
    assert src[..2] == len && src[2..2 + |sealed|] == sealed && src[2 + |sealed|..] == tail;
  }

  lemma {:induction false} UnwrapJson(codec: Codec, sealed: Chunk, tail: Chunk)
    requires codec.encoding.Json? && EncodesAsText(codec.text)
    requires |sealed| <= 14320
    ensures DecodeFrame(codec, Wrap(codec, sealed) + tail) == OpenFrame(codec.cipher, sealed, tail)
  {
    var body := codec.text.encode(sealed);
    var line := JsonPrefix() + body + JsonSuffix();
    NewlineEndsLine(body, tail);
    CutAtNewline(line, tail);
    UnwrapLine(codec, sealed, tail);
  }

  lemma {:induction false} CutAtNewline(line: Chunk, tail: Chunk)
    ensures var src := line + [NEWLINE] + tail; src[..|line|] == line && src[|line| + 1..] == tail
  {}

  lemma {:induction false} UnwrapLine(codec: Codec, sealed: Chunk, tail: Chunk)
    requires EncodesAsText(codec.text) && |sealed| <= 14320
    ensures DecodeLine(codec, JsonPrefix() + codec.text.encode(sealed) + JsonSuffix(), tail) == OpenFrame(codec.cipher, sealed, tail)
  {
    JsonFieldOfLine(codec.text.encode(sealed));
  }

  /** Decoding a sealed frame gives back its number and data and leaves whatever follows,
      with any padding and either encoding. */
  lemma {:induction false} FrameRoundTrip(codec: Codec, nonce: Chunk, seqNo: nat, data: Chunk, padding: nat, tail: Chunk)
    requires Lawful(codec) && |nonce| == NONCE_LEN && seqNo < SEQ_LIMIT
    requires |data| + padding <= FrameRawLimit(codec.encoding)
    ensures DecodeFrame(codec, SealFrame(codec, nonce, seqNo, data, padding) + tail) == Got(Frame(seqNo, data), tail)
  {
    var sealed := codec.cipher.seal(nonce, FramePayload(seqNo, data, padding));
    OpensToFrame(codec, nonce, seqNo, data, padding, tail);
    if codec.encoding.Binary? {
      UnwrapBinary(codec, sealed, tail);
    } else {
      UnwrapJson(codec, sealed, tail);
    }
  }

  lemma {:induction false} BinaryPrefixIsIncomplete(codec: Codec, sealed: Chunk, cut: nat)
    requires codec.encoding.Binary? && |sealed| <= MAX_BINARY_FRAME_LEN
    requires cut < |Wrap(codec, sealed)|
    ensures DecodeFrame(codec, Wrap(codec, sealed)[..cut]) == More
  {
    var len := BinaryWrap(codec, sealed);
    DecodeBinaryPart(codec, len, sealed, cut);
  }

  lemma {:induction false} DecodeBinaryPart(codec: Codec, len: Chunk, sealed: Chunk, cut: nat)
    requires codec.encoding.Binary? && |len| == 2 && FromBigEndian(len) == |sealed| <= MAX_BINARY_FRAME_LEN && cut < 2 + |sealed|
    ensures DecodeFrame(codec, (len + sealed)[..cut]) == More
  {
    if cut >= 2 {
      assert (len + sealed)[..cut][..2] == len;
    }
  }

  lemma {:induction false} JsonPrefixIsIncomplete(codec: Codec, sealed: Chunk, cut: nat)
    requires codec.encoding.Json? && EncodesAsText(codec.text)
    requires |sealed| <= 14320
    requires cut < |Wrap(codec, sealed)|
    ensures DecodeFrame(codec, Wrap(codec, sealed)[..cut]) == More
  {
    var frame := Wrap(codec, sealed);
    var body := codec.text.encode(sealed);
    NewlineEndsLine(body, []);
    assert JsonPrefix() + body + JsonSuffix() + [NEWLINE] + [] == frame;
    assert frame[..cut] + frame[cut..] == frame;
    IndexOfExtend(frame[..cut], frame[cut..], NEWLINE);
  }

  /** A frame cut short anywhere is asked to be continued, never rejected and never delivered. */
  lemma {:induction false} FramePrefixIsIncomplete(codec: Codec, nonce: Chunk, seqNo: nat, data: Chunk, padding: nat, cut: nat)
    requires Lawful(codec) && |nonce| == NONCE_LEN
    requires |data| + padding <= FrameRawLimit(codec.encoding)
    requires cut < |SealFrame(codec, nonce, seqNo, data, padding)|
    ensures DecodeFrame(codec, SealFrame(codec, nonce, seqNo, data, padding)[..cut]) == More
  {
    var sealed := codec.cipher.seal(nonce, FramePayload(seqNo, data, padding));
    if codec.encoding.Binary? {
      BinaryPrefixIsIncomplete(codec, sealed, cut);
    } else {
      JsonPrefixIsIncomplete(codec, sealed, cut);
    }
  }

  /** `encode_frame_into` refuses exactly the data that is over the limit, and whatever it writes
      fits the advertised maximum and decodes to what was put in. */
  lemma {:induction false} EncodeFrameCorrect(codec: Codec, nonce: Chunk, seqNo: nat, data: Chunk, threshold: nat, wanted: nat, tail: Chunk)
    requires Lawful(codec) && |nonce| == NONCE_LEN && seqNo < SEQ_LIMIT
    ensures EncodeFrame(codec, nonce, seqNo, data, threshold, wanted).None? <==> |data| > FrameRawLimit(codec.encoding)
    ensures EncodeFrame(codec, nonce, seqNo, data, threshold, wanted).Some? ==>
              var frame := EncodeFrame(codec, nonce, seqNo, data, threshold, wanted).value;
              && |data| < |frame| <= MaxEncodedFrameLen(codec.encoding)
              && DecodeFrame(codec, frame + tail) == Got(Frame(seqNo, data), tail)
  {
    var limit := FrameRawLimit(codec.encoding);
    if |data| <= limit {
      var padding := FramePadding(|data|, threshold, wanted, limit);
      FrameLength(codec, nonce, seqNo, data, padding);
      FrameRoundTrip(codec, nonce, seqNo, data, padding, tail);
    }
  }

  // ---------------------------------------------------------------- more input

  /** Bytes that arrive later never change a frame already complete, and never repair a rejected buffer. */
  lemma {:induction false} DecodeFrameExtend(codec: Codec, src: Chunk, more: Chunk)
    ensures DecodeFrame(codec, src).Got? ==>
              DecodeFrame(codec, src + more) == Got(DecodeFrame(codec, src).frame, DecodeFrame(codec, src).rest + more)
    ensures DecodeFrame(codec, src).Bad? ==> DecodeFrame(codec, src + more).Bad?
  {
    match codec.encoding {
      case Binary => DecodeBinaryExtend(codec, src, more);
      case Json => DecodeJsonExtend(codec, src, more);
    }
  }

  lemma {:induction false} DecodeBinaryExtend(codec: Codec, src: Chunk, more: Chunk)
    requires codec.encoding.Binary?
    ensures DecodeFrame(codec, src).Got? ==>
              DecodeFrame(codec, src + more) == Got(DecodeFrame(codec, src).frame, DecodeFrame(codec, src).rest + more)
    ensures DecodeFrame(codec, src).Bad? ==> DecodeFrame(codec, src + more).Bad?
  {
    var all := src + more;
    if |src| >= 2 {
      assert all[..2] == src[..2];
      var len := FromBigEndian(src[..2]);
      if 2 + len <= |src| {
        assert all[2..2 + len] == src[2..2 + len];
        assert all[2 + len..] == src[2 + len..] + more;
      }
    }
  }

  lemma {:induction false} DecodeJsonExtend(codec: Codec, src: Chunk, more: Chunk)
    requires codec.encoding.Json?
    ensures DecodeFrame(codec, src).Got? ==>
              DecodeFrame(codec, src + more) == Got(DecodeFrame(codec, src).frame, DecodeFrame(codec, src).rest + more)
    ensures DecodeFrame(codec, src).Bad? ==> DecodeFrame(codec, src + more).Bad?
  {
    IndexOfExtend(src, more, NEWLINE);
    var all, pos := src + more, IndexOf(src, NEWLINE);
    if pos < |src| {
      assert all[..pos] == src[..pos];
      assert all[pos + 1..] == src[pos + 1..] + more;
    }
  }

  /** The frame decoder of one tunnel direction, as a decoder of a growing buffer. */
  function FrameDecoderOf(codec: Codec): Decoder {
    (src: Chunk) => DecodeFrame(codec, src)
  }

  lemma {:induction false} FrameDecoderIsIncremental(codec: Codec)
    ensures IsIncremental(FrameDecoderOf(codec))
  {
    var dec := FrameDecoderOf(codec);
    forall src: Chunk, more: Chunk
      ensures dec(src).Got? ==> dec(src + more) == Got(dec(src).frame, dec(src).rest + more)
      ensures dec(src).Bad? ==> dec(src + more).Bad?
    {
      DecodeFrameExtend(codec, src, more);
    }
    assert Progresses(dec);
  }

  /** `dec` is the frame decoder of this direction; its definition is used only where a proof asks. */
  ghost predicate IsDecoderOf(dec: Decoder, codec: Codec) {
    && IsIncremental(dec)
    && forall src: Chunk {:trigger Look(src)} :: Look(src) ==> dec(src) == DecodeFrame(codec, src)
  }

  lemma {:induction false} FrameDecoderOfIsDecoder(codec: Codec)
    ensures IsDecoderOf(FrameDecoderOf(codec), codec)
  {
    FrameDecoderIsIncremental(codec);
  }

  lemma {:induction false} EmptyIsIncomplete(dec: Decoder, codec: Codec)
    requires IsDecoderOf(dec, codec)
    ensures dec([]) == More
  {
    var none: Chunk := [];
    assert Look(none);
  }

  /** A sealed frame on its own decodes to itself and leaves nothing. */
  lemma {:induction false} SealedDecodesToItself(dec: Decoder, codec: Codec, nonce: Chunk, seqNo: nat, data: Chunk, padding: nat)
    requires IsDecoderOf(dec, codec) && Lawful(codec) && |nonce| == NONCE_LEN && seqNo < SEQ_LIMIT
    requires |data| + padding <= FrameRawLimit(codec.encoding)
    ensures DecodeAll(dec, SealFrame(codec, nonce, seqNo, data, padding)) == Contents([Frame(seqNo, data)], [], false)
  {
    var frame := SealFrame(codec, nonce, seqNo, data, padding);
    FrameRoundTrip(codec, nonce, seqNo, data, padding, []);
    assert frame + [] == frame;
    assert Look(frame);
    EmptyIsIncomplete(dec, codec);
  }
}
