/** The tunnelled byte stream over HTTP/3 DATA frames (sections 7.1 and 7.2.1 of RFC 9114), as
    src/warp/masque.rs writes and reads it. */
module Masque {
  import opened Bytes
  import opened Varint
  import opened Sources

  const FRAME_DATA: nat := 0
  const MAX_DATA_FRAME: nat := 64 * 1024

  // ---------------------------------------------------------------- what a stream of frames means

  /** Where a stream stops: between frames, inside a header, or with bytes of a frame, of data or not, still owed. */
  datatype End = Boundary | InHeader | InFrame(owed: nat, data: bool)

  /** The data a stream carries so far, where it stops, and whether it is clean: no frame of another type has a byte of body. */
  datatype Delivery = Delivery(data: Chunk, end: End, clean: bool)

  function Owing(n: nat, data: bool): End {
    if n == 0 then Boundary else InFrame(n, data)
  }

  /** What one whole frame carries. */
  function One(ty: nat, body: Chunk): Delivery {
    Delivery(if ty == FRAME_DATA then body else [], Boundary, ty == FRAME_DATA || body == [])
  }

  /** One stream after another, the first of which stops between frames. */
  function Join(a: Delivery, b: Delivery): Delivery {
    Delivery(a.data + b.data, b.end, a.clean && b.clean)
  }

  lemma {:induction false} JoinAssociates(a: Delivery, b: Delivery, c: Delivery)
    ensures Join(a, Join(b, c)) == Join(Join(a, b), c)
  {}

  /** Reads the type and the length of a frame and the size of its header, if the header is complete. */
  type HeaderReader = Chunk -> Option<(nat, nat, nat)>

  ghost predicate Sane(get: HeaderReader) {
    forall buf: Chunk {:trigger get(buf)} :: get(buf).Some? ==> 2 <= get(buf).value.2 <= |buf|
  }

  lemma {:induction false} HeadersAreSane()
    ensures Sane(GetFrameHeader)
  {}

  /** The meaning of a stream of frames, for any way to read headers. */
  ghost function DeframeBy(get: HeaderReader, wire: Chunk): Delivery
    requires Sane(get)
    decreases |wire|
  {
    if wire == [] then Delivery([], Boundary, true)
    else
      match get(wire)
      case None => Delivery([], InHeader, true)
      case Some((ty, len, used)) =>
        if |wire| < used + len then
          Delivery(if ty == FRAME_DATA then wire[used..] else [], InFrame(used + len - |wire|, ty == FRAME_DATA), ty == FRAME_DATA || |wire| == used)
        else Join(One(ty, wire[used..used + len]), DeframeBy(get, wire[used + len..]))
  }

  /** The bodies of all frames, whatever their type. */
  ghost function BodiesBy(get: HeaderReader, wire: Chunk): Chunk
    requires Sane(get)
    decreases |wire|
  {
    match get(wire)
    case None => []
    case Some((ty, len, used)) =>
      if |wire| < used + len then wire[used..] else wire[used..used + len] + BodiesBy(get, wire[used + len..])
  }

  /** The meaning of a stream of frames, with the headers of HTTP/3. */
  ghost function Deframe(wire: Chunk): Delivery {
    HeadersAreSane();
    DeframeBy(GetFrameHeader, wire)
  }

  ghost function AllBodies(wire: Chunk): Chunk {
    HeadersAreSane();
    BodiesBy(GetFrameHeader, wire)
  }

  function DataHeader(len: nat): Chunk {
    PutFrameHeader(FRAME_DATA, len)
  }

  // ---------------------------------------------------------------- laws of that meaning

  /** A reader of headers and the meaning it gives to streams. The proofs below use only the laws in `Reads`; the reader
      that counts is `TheReader`. */
  datatype Reader = Reader(get: Chunk -> Option<(nat, nat, nat)>, df: Chunk -> Delivery, raw: Chunk -> Chunk)

  ghost function TheReader(): Reader {
    Reader(GetFrameHeader, Deframe, AllBodies)
  }

  ghost predicate Reads(r: Reader) {
    && (forall buf: Chunk {:trigger Look(buf)} :: Look(buf) && r.get(buf).Some? ==> 2 <= r.get(buf).value.2 <= |buf|)
    && (forall buf: Chunk, more: Chunk {:trigger Look2(buf, more)} :: Look2(buf, more) && r.get(buf).Some? ==> r.get(buf + more) == r.get(buf))
    && (forall len: nat {:trigger DataHeader(len)} | 0 < len < VARINT_LIMIT :: r.get(DataHeader(len)) == Some((FRAME_DATA, len, |DataHeader(len)|)))
    && (forall buf: Chunk, k: nat {:trigger Look2(buf, k)} ::
          Look2(buf, k) && r.get(buf).Some? && r.get(buf).value.2 <= k <= |buf| ==> r.get(buf[..k]) == r.get(buf))
    && (forall len: nat, n: nat {:trigger Look2(DataHeader(len), n)} ::
          Look2(DataHeader(len), n) && 0 < len < VARINT_LIMIT && n < |DataHeader(len)| ==> r.get(DataHeader(len)[..n]) == None)
    && r.df([]) == Delivery([], Boundary, true) && r.raw([]) == []
    && (forall wire: Chunk {:trigger Look(wire)} :: Look(wire) && wire != [] ==> Unfolds(r, wire))
  }

  ghost predicate Unfolds(r: Reader, wire: Chunk) {
    match r.get(wire)
    case None => r.df(wire) == Delivery([], InHeader, true) && r.raw(wire) == []
    case Some((ty, len, used)) =>
      && used <= |wire|
      && r.raw(wire) == (if |wire| < used + len then wire[used..] else wire[used..used + len] + r.raw(wire[used + len..]))
      && r.df(wire) ==
         if |wire| < used + len then
           Delivery(if ty == FRAME_DATA then wire[used..] else [], InFrame(used + len - |wire|, ty == FRAME_DATA), ty == FRAME_DATA || |wire| == used)
         else Join(One(ty, wire[used..used + len]), r.df(wire[used + len..]))
  }

  lemma {:induction false} VarintExtend(buf: Chunk, more: Chunk)
    requires GetVarint(buf).Some?
    ensures GetVarint(buf + more) == GetVarint(buf)
  {
    var n := LengthOf(buf[0]);
    assert (buf + more)[1..n] == buf[1..n];
  }

  lemma {:induction false} DropExtend(buf: Chunk, more: Chunk, n: nat)
    requires n <= |buf|
    ensures (buf + more)[n..] == buf[n..] + more
  {}

  /** A complete header does not change when more bytes follow. */
  lemma {:induction false} HeaderExtend(buf: Chunk, more: Chunk)
    requires GetFrameHeader(buf).Some?
    ensures GetFrameHeader(buf + more) == GetFrameHeader(buf)
  {
    VarintExtend(buf, more);
    var n := GetVarint(buf).value.1;
    DropExtend(buf, more, n);
    VarintExtend(buf[n..], more);
  }

  lemma {:induction false} VarintTrim(buf: Chunk, k: nat)
    requires GetVarint(buf).Some? && GetVarint(buf).value.1 <= k <= |buf|
    ensures GetVarint(buf[..k]) == GetVarint(buf)
  {
    var n := LengthOf(buf[0]);
    assert buf[..k][1..n] == buf[1..n];
  }

  /** Nor does it depend on what follows. */
  lemma {:induction false} HeaderTrim(buf: Chunk, k: nat)
    requires GetFrameHeader(buf).Some? && GetFrameHeader(buf).value.2 <= k <= |buf|
    ensures GetFrameHeader(buf[..k]) == GetFrameHeader(buf)
  {
    VarintTrim(buf, k);
    var n := GetVarint(buf).value.1;
    VarintTrim(buf[n..], k - n);
    assert buf[..k][n..] == buf[n..][..k - n];
  }

  lemma {:induction false} TheReaderReads()
    ensures Reads(TheReader())
  {
    forall buf: Chunk, k: nat | GetFrameHeader(buf).Some? && GetFrameHeader(buf).value.2 <= k <= |buf|
      ensures GetFrameHeader(buf[..k]) == GetFrameHeader(buf)
    {
      HeaderTrim(buf, k);
    }
    forall buf: Chunk, more: Chunk | GetFrameHeader(buf).Some?
      ensures GetFrameHeader(buf + more) == GetFrameHeader(buf)
    {
      HeaderExtend(buf, more);
    }
    forall len: nat | 0 < len < VARINT_LIMIT
      ensures GetFrameHeader(DataHeader(len)) == Some((FRAME_DATA, len, |DataHeader(len)|))
    {
      FrameHeaderRoundTrip(FRAME_DATA, len, []);
      assert DataHeader(len) + [] == DataHeader(len);
    }
    forall len: nat, n: nat | 0 < len < VARINT_LIMIT && n < |DataHeader(len)|
      ensures GetFrameHeader(DataHeader(len)[..n]) == None
    {
      FrameHeaderPrefixRejected(FRAME_DATA, len, n);
    }
    assert GetFrameHeader([]) == None;
    forall wire: Chunk | wire != []
      ensures Unfolds(TheReader(), wire)
    {
      DeframeUnfolds(wire);
    }
  }

  lemma {:induction false} DeframeUnfolds(wire: Chunk)
    requires wire != []
    ensures Unfolds(TheReader(), wire)
  {
    HeadersAreSane();
    ByUnfolds(GetFrameHeader, TheReader(), wire);
  }

  lemma {:induction false} ByUnfolds(get: HeaderReader, r: Reader, wire: Chunk)
    requires Sane(get) && wire != [] && r.get == get
    requires forall w: Chunk {:trigger r.df(w)} :: r.df(w) == DeframeBy(get, w)
    requires forall w: Chunk {:trigger r.raw(w)} :: r.raw(w) == BodiesBy(get, w)
    ensures Unfolds(r, wire)
  {}

  lemma {:induction false} DeframeSome(get: HeaderReader, wire: Chunk, ty: nat, len: nat, used: nat)
    requires Sane(get) && wire != [] && get(wire) == Some((ty, len, used)) && |wire| == used + len
    ensures DeframeBy(get, wire).data == if ty == FRAME_DATA then wire[used..] else []
  {
    assert wire[used + len..] == [] && wire[used..used + len] == wire[used..];
    assert wire[used..] + [] == wire[used..];
  }

  /** The reader gives streams the meaning they have. */
  ghost predicate Means(r: Reader) {
    forall wire: Chunk {:trigger Look(wire)} :: Look(wire) ==> r.df(wire) == Deframe(wire) && r.raw(wire) == AllBodies(wire)
  }

  lemma {:induction false} TheReaderMeans()
    ensures Reads(TheReader()) && Means(TheReader())
  {
    TheReaderReads();
  }

  /** A stream that begins with a whole frame, and more after it. */
  lemma {:induction false} DeframeFirst(r: Reader, a: Chunk, b: Chunk, ty: nat, len: nat, used: nat)
    requires Reads(r) && r.get(a) == Some((ty, len, used)) && used + len <= |a| && a != []
    ensures r.df(a + b) == Join(One(ty, a[used..used + len]), r.df(a[used + len..] + b))
  {
    assert Look2(a, b) && Look(a + b);
    assert (a + b)[used..used + len] == a[used..used + len];
    assert (a + b)[used + len..] == a[used + len..] + b;
  }

  /** What holds of the frames after the first holds of all of them. */
  lemma {:induction false} JoinFirst(r: Reader, a: Chunk, b: Chunk, ty: nat, len: nat, used: nat, x: Delivery)
    requires Reads(r) && r.get(a) == Some((ty, len, used)) && used + len <= |a| && a != []
    requires r.df(a[used + len..] + b) == Join(r.df(a[used + len..]), x)
    ensures r.df(a + b) == Join(r.df(a), x)
  {
    assert Look(a);
    DeframeFirst(r, a, b, ty, len, used);
    JoinAssociates(One(ty, a[used..used + len]), r.df(a[used + len..]), x);
  }

  /** After a stream that stops between frames, the next one is read on its own. */
  lemma {:induction false} DeframeAppend(r: Reader, a: Chunk, b: Chunk)
    requires Reads(r) && r.df(a).end.Boundary?
    ensures r.df(a + b) == Join(r.df(a), r.df(b))
    decreases |a|
  {
    if a == [] {
      assert a + b == b;
      assert [] + r.df(b).data == r.df(b).data;
    } else {
      assert Look(a);
      var (ty, len, used) := r.get(a).value;
      DeframeAppend(r, a[used + len..], b);
      JoinFirst(r, a, b, ty, len, used, r.df(b));
    }
  }

  /** Bytes that are owed belong to the last frame. */
  lemma {:induction false} DeframeOwed(r: Reader, a: Chunk, b: Chunk, owed: nat, data: bool)
    requires Reads(r) && r.df(a).end == InFrame(owed, data) && |b| <= owed
    ensures r.df(a + b) == Join(r.df(a), Delivery(if data then b else [], Owing(owed - |b|, data), data || b == []))
    decreases |a|
  {
    assert Look(a);
    var (ty, len, used) := r.get(a).value;
    if |a| < used + len {
      DeframeLast(r, a, b, ty, len, used);
    } else {
      DeframeOwed(r, a[used + len..], b, owed, data);
      JoinFirst(r, a, b, ty, len, used, Delivery(if data then b else [], Owing(owed - |b|, data), data || b == []));
    }
  }

  lemma {:induction false} DeframeLast(r: Reader, a: Chunk, b: Chunk, ty: nat, len: nat, used: nat)
    requires Reads(r) && r.get(a) == Some((ty, len, used)) && |a| < used + len && |a| + |b| <= used + len && a != [] && used <= |a|
    ensures var data := ty == FRAME_DATA;
            r.df(a + b) == Delivery(if data then a[used..] + b else [], Owing(used + len - |a| - |b|, data), data || |a| + |b| == used)
  {
    assert Look2(a, b) && Look(a + b);
    assert (a + b)[used..] == a[used..] + b;
    if |a| + |b| == used + len {
      assert (a + b)[used..used + len] == a[used..] + b;
      assert (a + b)[used + len..] == [];
      assert (a[used..] + b) + [] == a[used..] + b;
    }
  }

  lemma {:induction false} DeframeHeader(r: Reader, len: nat)
    requires Reads(r) && 0 < len < VARINT_LIMIT
    ensures r.df(DataHeader(len)) == Delivery([], InFrame(len, true), true)
  {
    var h := DataHeader(len);
    assert Look(h) && h != [] && h[|h|..] == [];
  }

  /** A whole DATA frame. */
  lemma {:induction false} DeframeFrame(r: Reader, data: Chunk)
    requires Reads(r) && 0 < |data| < VARINT_LIMIT
    ensures r.df(DataHeader(|data|) + data) == Delivery(data, Boundary, true)
  {
    DeframeHeader(r, |data|);
    DeframeOwed(r, DataHeader(|data|), data, |data|, true);
    assert [] + data == data;
  }

  // ---------------------------------------------------------------- sending

  datatype IoPoll = IoPending | IoError | IoReady(n: nat)

  /** A write to the QUIC stream: nothing yet, an error, or any first part of what is offered. */
  method PollStream(stream: Chunk, offered: Chunk) returns (r: IoPoll, stream': Chunk)
    ensures r.IoReady? ==> r.n <= |offered| && stream' == stream + offered[..r.n]
    ensures !r.IoReady? || r.n == 0 ==> stream' == stream
  {
    var choice: nat :| choice < 3;
    if choice == 0 {
      return IoPending, stream;
    } else if choice == 1 {
      return IoError, stream;
    }
    var n: nat :| n <= |offered|;
    r, stream' := IoReady(n), stream + offered[..n];
  }

  /** Writes everything offered, or fails part way. */
  method WriteAll(stream: Chunk, offered: Chunk) returns (ok: bool, stream': Chunk)
    ensures ok ==> stream' == stream + offered
    ensures stream <= stream' <= stream + offered
  {
    ok := *;
    var n: nat :| n <= |offered| && (ok ==> n == |offered|) by {
      assert ok ==> |offered| == |offered|;
    }
    stream' := stream + offered[..n];
    assert ok ==> offered[..n] == offered;
  }

  /** What the write state stands for: between frames, in the header of a frame begun after `base`, or in its data. */
  ghost predicate SendState(r: Reader, stream: Chunk, accepted: Chunk, base: Chunk, header: Chunk, headerSent: nat, remaining: nat) {
    && headerSent <= |header| && remaining < VARINT_LIMIT
    && if headerSent == |header| then r.df(stream) == Delivery(accepted, Owing(remaining, true), true)
       else
         && remaining > 0 && header == DataHeader(remaining)
         && stream == base + header[..headerSent] && r.df(base) == Delivery(accepted, Boundary, true)
  }

  class MasqueSend {
    ghost const reader: Reader
    /** The bytes the QUIC stream has taken. */
    var stream: Chunk
    var header: Chunk
    var headerSent: nat
    var remaining: nat

    /** The bytes accepted from the user, and the stream when the current frame was begun. */
    ghost var accepted: Chunk
    ghost var base: Chunk

    ghost predicate Valid()
      reads this
    {
      Reads(reader) && SendState(reader, stream, accepted, base, header, headerSent, remaining)
    }

    constructor ()
      ensures Valid() && Means(reader) && accepted == [] && stream == [] && remaining == 0
    {
      TheReaderMeans();
      reader := TheReader();
      stream, header, headerSent, remaining, accepted, base := [], [], 0, 0, [], [];
    }

    /** A new frame, of at most the maximal size. */
    method BeginFrame(wanted: nat)
      requires Valid() && remaining == 0 && wanted > 0
      modifies this`header, this`headerSent, this`remaining, this`base
      ensures Valid() && 0 < remaining <= wanted && header == DataHeader(remaining)
    {
      var len := if wanted < MAX_DATA_FRAME then wanted else MAX_DATA_FRAME;
      base := stream;
      header, headerSent, remaining := DataHeader(len), 0, len;
      assert stream + header[..0] == stream;
    }

    /** One step of sending the header. */
    method SendHeader() returns (r: IoPoll)
      requires Valid() && headerSent < |header|
      modifies this`stream, this`headerSent
      ensures Valid() && (r.IoReady? ==> headerSent == old(headerSent) + r.n)
    {
      ghost var before := stream;
      r, stream := PollStream(stream, header[headerSent..]);
      if r.IoReady? {
        HeaderMoves(reader, before, accepted, base, header, headerSent, remaining, r.n);
        headerSent := headerSent + r.n;
      }
    }

    /** `poll_write`: whatever part is taken is accepted, in order, and the stream stays a stream of DATA frames. */
    method PollWrite(buf: Chunk) returns (r: IoPoll)
      requires Valid()
      modifies this
      ensures Valid()
      ensures r.IoReady? ==> r.n <= |buf| && accepted == old(accepted) + buf[..r.n] && (buf != [] ==> r.n > 0)
      ensures !r.IoReady? ==> accepted == old(accepted)
    {
      if buf == [] {
        assert accepted + buf[..0] == accepted;
        return IoReady(0);
      }
      if remaining == 0 {
        BeginFrame(|buf|);
      }
      while headerSent < |header|
        invariant Valid() && remaining > 0 && accepted == old(accepted)
        decreases |header| - headerSent
      {
        r := SendHeader();
        if !r.IoReady? {
          return;
        }
        if r.n == 0 {
          return IoError;
        }
      }
      r := SendBody(buf);
    }

    /** One step of sending the data of the current frame. */
    method SendBody(buf: Chunk) returns (r: IoPoll)
      requires Valid() && headerSent == |header| && remaining > 0 && buf != []
      modifies this`stream, this`accepted, this`remaining
      ensures Valid()
      ensures r.IoReady? ==> 0 < r.n <= |buf| && accepted == old(accepted) + buf[..r.n]
      ensures !r.IoReady? ==> accepted == old(accepted)
    {
      var want := if |buf| < remaining then |buf| else remaining;
      ghost var before := stream;
      r, stream := PollStream(stream, buf[..want]);
      if r.IoReady? {
        if r.n == 0 {
          return IoError;
        }
        var part := buf[..want][..r.n];
        assert part == buf[..r.n];
        DataMoves(reader, before, accepted, base, header, remaining, part);
        accepted := accepted + part;
        remaining := remaining - r.n;
      }
    }

    /** `write_data`: one frame. A failure leaves a stream that carries a first part of its data. */
    method WriteData(data: Chunk) returns (ok: bool)
      requires Valid() && remaining == 0 && 0 < |data| < VARINT_LIMIT
      modifies this`stream, this`accepted
      ensures old(stream) <= stream && Carries(reader, stream, old(accepted), data)
      ensures ok ==> Valid() && accepted == old(accepted) + data
    {
      var h := DataHeader(|data|);
      ghost var before := stream;
      ok, stream := WriteAll(stream, h);
      if !ok {
        HeaderCut(reader, before, accepted, stream, data);
        return;
      }
      ok, stream := WriteAll(stream, data);
      DataCut(reader, before, accepted, stream, data);
      if ok {
        FrameMoves(reader, before, accepted, base, header, headerSent, data);
        accepted := accepted + data;
      }
    }

    /** `write_frames`: the pieces are grouped into frames of at most the maximal size, except for a single larger piece. */
    method WriteFrames(frames: seq<Chunk>) returns (ok: bool)
      requires Valid() && remaining == 0 && forall i :: 0 <= i < |frames| ==> |frames[i]| < VARINT_LIMIT
      modifies this`stream, this`accepted
      ensures old(stream) <= stream && Carries(reader, stream, old(accepted), Flatten(frames))
      ensures ok ==> Valid() && accepted == old(accepted) + Flatten(frames)
    {
      var start := 0;
      assert frames[..0] == [] && accepted + Flatten(frames[..0]) == accepted;
      while start < |frames|
        invariant start <= |frames| && Valid() && remaining == 0 && old(stream) <= stream
        invariant accepted == old(accepted) + Flatten(frames[..start])
      {
        var end := GroupEnd(frames, start);
        var data := Flatten(frames[start..end]);
        FlattenNext(old(accepted), frames, start, end);
        if |data| > 0 {
          ghost var before := accepted;
          ok := WriteData(data);
          if !ok {
            CarriesMore(reader, stream, old(accepted), frames, start, end);
            return;
          }
        } else {
          assert data == [];
        }
        start := end;
      }
      assert frames[..start] == frames;
      CarriesAll(reader, stream, old(accepted), accepted, base, header, headerSent);
      ok := true;
    }
  }

  /** The stream carries `before`, and of `more` at most a first part. */
  ghost predicate Carries(r: Reader, stream: Chunk, before: Chunk, more: Chunk) {
    before <= r.df(stream).data <= before + more && r.df(stream).clean
  }

  /** A write that fails in the header has carried no data. */
  lemma {:induction false} HeaderCut(r: Reader, stream: Chunk, accepted: Chunk, cut: Chunk, data: Chunk)
    requires Reads(r) && r.df(stream) == Delivery(accepted, Boundary, true) && 0 < |data| < VARINT_LIMIT
    requires stream <= cut <= stream + DataHeader(|data|)
    ensures Carries(r, cut, accepted, data)
  {
    var h, n: nat := DataHeader(|data|), |cut| - |stream|;
    assert cut == stream + h[..n];
    DeframeAppend(r, stream, h[..n]);
    if n == |h| {
      assert h[..n] == h;
      DeframeHeader(r, |data|);
    } else if n > 0 {
      assert Look2(h, n) && Look(h[..n]);
    } else {
      assert h[..n] == [];
    }
    assert accepted + [] == accepted;
  }

  /** One that fails in the data has carried a first part of it. */
  lemma {:induction false} DataCut(r: Reader, stream: Chunk, accepted: Chunk, cut: Chunk, data: Chunk)
    requires Reads(r) && r.df(stream) == Delivery(accepted, Boundary, true) && 0 < |data| < VARINT_LIMIT
    requires stream + DataHeader(|data|) <= cut <= stream + DataHeader(|data|) + data
    ensures Carries(r, cut, accepted, data)
  {
    var h := DataHeader(|data|);
    var n := |cut| - |stream + h|;
    assert cut == (stream + h) + data[..n];
    HeaderSent(r, stream, accepted, h, |data|);
    DeframeOwed(r, stream + h, data[..n], |data|, true);
  }

  lemma {:induction false} CarriesMore(r: Reader, stream: Chunk, before: Chunk, frames: seq<Chunk>, start: nat, end: nat)
    requires start <= end <= |frames| && Carries(r, stream, before + Flatten(frames[..start]), Flatten(frames[start..end]))
    ensures Carries(r, stream, before, Flatten(frames))
  {
    FlattenNext(before, frames, start, end);
    FlattenTake(frames, end);
    var data := r.df(stream).data;
    PrefixTrans(before, before + Flatten(frames[..start]), data);
    assert before + Flatten(frames[..end]) <= before + Flatten(frames);
    PrefixTrans(data, before + Flatten(frames[..end]), before + Flatten(frames));
  }

  lemma {:induction false} CarriesAll(r: Reader, stream: Chunk, before: Chunk, accepted: Chunk, base: Chunk, header: Chunk, sent: nat)
    requires SendState(r, stream, accepted, base, header, sent, 0) && before <= accepted
    ensures Carries(r, stream, before, accepted[|before|..])
  {
    assert before + accepted[|before|..] == accepted;
  }

  lemma {:induction false} CutTwice(base: Chunk, header: Chunk, sent: nat, n: nat)
    requires sent + n <= |header|
    ensures base + header[..sent] + header[sent..][..n] == base + header[..sent + n]
    ensures header[..|header|] == header
  {
    assert header[..sent] + header[sent..][..n] == header[..sent + n];
  }

  lemma {:induction false} HeaderMoves(r: Reader, stream: Chunk, accepted: Chunk, base: Chunk, header: Chunk, sent: nat, remaining: nat, n: nat)
    requires Reads(r) && SendState(r, stream, accepted, base, header, sent, remaining) && sent < |header| && sent + n <= |header|
    ensures SendState(r, stream + header[sent..][..n], accepted, base, header, sent + n, remaining)
  {
    CutTwice(base, header, sent, n);
    if sent + n == |header| {
      HeaderSent(r, base, accepted, header, remaining);
    }
  }

  lemma {:induction false} DataMoves(r: Reader, stream: Chunk, accepted: Chunk, base: Chunk, header: Chunk, remaining: nat, part: Chunk)
    requires Reads(r) && SendState(r, stream, accepted, base, header, |header|, remaining) && 0 < |part| <= remaining
    ensures SendState(r, stream + part, accepted + part, base, header, |header|, remaining - |part|)
  {
    DeframeOwed(r, stream, part, remaining, true);
  }

  /** A whole frame in one go. */
  lemma {:induction false} FrameMoves(r: Reader, stream: Chunk, accepted: Chunk, base: Chunk, header: Chunk, sent: nat, data: Chunk)
    requires Reads(r) && SendState(r, stream, accepted, base, header, sent, 0) && 0 < |data| < VARINT_LIMIT
    ensures SendState(r, stream + DataHeader(|data|) + data, accepted + data, base, header, sent, 0)
  {
    var h := DataHeader(|data|);
    DeframeFrame(r, data);
    DeframeAppend(r, stream, h + data);
    assert stream + h + data == stream + (h + data);
  }

  /** A header that has gone out whole leaves its frame's length owed. */
  lemma {:induction false} HeaderSent(r: Reader, base: Chunk, accepted: Chunk, header: Chunk, len: nat)
    requires Reads(r) && r.df(base) == Delivery(accepted, Boundary, true) && 0 < len < VARINT_LIMIT && header == DataHeader(len)
    ensures r.df(base + header) == Delivery(accepted, InFrame(len, true), true)
  {
    DeframeHeader(r, len);
    DeframeAppend(r, base, header);
    assert accepted + [] == accepted;
  }

  lemma {:induction false} FlattenNext(before: Chunk, frames: seq<Chunk>, start: nat, end: nat)
    requires start <= end <= |frames|
    ensures before + Flatten(frames[..end]) == before + Flatten(frames[..start]) + Flatten(frames[start..end])
  {
    assert frames[..end] == frames[..start] + frames[start..end];
    FlattenAppend(frames[..start], frames[start..end]);
    var a, b := Flatten(frames[..start]), Flatten(frames[start..end]);
    assert before + (a + b) == before + a + b;
  }

  /** How many pieces from `start` on go into one frame. */
  method GroupEnd(frames: seq<Chunk>, start: nat) returns (end: nat)
    requires start < |frames| && |frames[start]| < VARINT_LIMIT
    ensures start < end <= |frames| && |Flatten(frames[start..end])| < VARINT_LIMIT
    ensures |Flatten(frames[start..end])| <= MAX_DATA_FRAME || end == start + 1
  {
    end := start;
    var total := 0;
    while end < |frames| && total + |frames[end]| <= MAX_DATA_FRAME
      invariant start <= end <= |frames| && total == |Flatten(frames[start..end])| <= MAX_DATA_FRAME
    {
      assert frames[start..end + 1] == frames[start..end] + [frames[end]];
      FlattenSnoc(frames[start..end], frames[end]);
      total := total + |frames[end]|;
      end := end + 1;
    }
    if end == start {
      end := start + 1;
      assert frames[start..end] == [frames[start]];
      FlattenOne(frames[start]);
    }
  }

  // ---------------------------------------------------------------- receiving

  /** A first part of a stream that does not stop in a header carries a first part of its data. */
  lemma {:induction false} DeframePrefix(r: Reader, a: Chunk, b: Chunk)
    requires Reads(r) && !r.df(a).end.InHeader?
    ensures r.df(a).data <= r.df(a + b).data
  {
    match r.df(a).end
    case Boundary => DeframeAppend(r, a, b);
    case InFrame(owed, data) =>
      if |b| <= owed {
        DeframeOwed(r, a, b, owed, data);
      } else {
        DeframeOwed(r, a, b[..owed], owed, data);
        DeframeAppend(r, a + b[..owed], b[owed..]);
        assert a + b == (a + b[..owed]) + b[owed..];
      }
  }

  /** In a clean stream, the bytes at hand of the next frame are data. */
  lemma {:induction false} NextIsClean(r: Reader, done: Chunk, header: Chunk, incoming: Chunk, ty: nat, len: nat, used: nat, take: nat)
    requires Reads(r) && r.df(done).end.Boundary? && r.df(done + header + incoming).clean
    requires r.get(header) == Some((ty, len, used)) && header != [] && used <= |header|
    requires take == if |header| - used < len then |header| - used else len
    ensures ty == FRAME_DATA || take == 0
  {
    var all := header + incoming;
    assert done + header + incoming == done + all;
    DeframeAppend(r, done, all);
    assert Look2(header, incoming) && Look(all);
  }

  /** What the header of the next frame and those bytes of the frame that are at hand carry. */
  lemma {:induction false} FirstFrame(r: Reader, done: Chunk, header: Chunk, ty: nat, len: nat, used: nat, take: nat)
    requires Reads(r) && r.df(done).end.Boundary?
    requires r.get(header) == Some((ty, len, used)) && used + take <= |header| && header != []
    requires take == if |header| - used < len then |header| - used else len
    ensures var data := ty == FRAME_DATA;
            r.df(done + header[..used + take]) == Join(r.df(done), Delivery(if data then header[used..used + take] else [], Owing(len - take, data), data || take == 0))
  {
    var part := header[..used + take];
    DeframeAppend(r, done, part);
    var k: nat := used + take;
    assert Look2(header, k) && Look(part) && Look(header);
    assert part[used..] == header[used..used + take];
    if take == len {
      assert part[used..used + len] == header[used..used + take] && part[used + len..] == [];
      assert header[used..used + take] + [] == header[used..used + take];
    }
  }

  lemma {:induction false} Regroup(done: Chunk, header: Chunk, incoming: Chunk, k: nat)
    requires k <= |header|
    ensures done + header + incoming == (done + header[..k]) + header[k..] + incoming
  {
    assert done + header == (done + header[..k]) + header[k..];
  }

  datatype RecvPoll = NotYet | Failed | Truncated | Bytes(data: Chunk)

  /** What has been taken off the stream, `done`, carries what has been handed over and what is pending. */
  ghost predicate RecvState(r: Reader, done: Chunk, pending: Chunk, remaining: nat, discard: bool, delivered: Chunk) {
    r.df(done).data == delivered + pending && r.df(done).end == Owing(remaining, !discard)
  }

  /** Like `Look`, for the whole stream of a receiver. */
  ghost predicate Seen(wire: Chunk) {
    true
  }

  /** What the receiver keeps as long as it has not taken bytes of another frame for data; it has not if the stream is clean. */
  ghost predicate RecvOk(r: Reader, wire: Chunk, done: Chunk, header: Chunk, incoming: Chunk, pending: Chunk, remaining: nat, discard: bool,
                         delivered: Chunk, leaked: bool)
  {
    forall w: Chunk {:trigger Seen(w)} :: Seen(w) && w == wire ==>
      && w == done + header + incoming
      && (r.df(w).clean ==> !leaked)
      && (!leaked ==> RecvState(r, done, pending, remaining, discard, delivered))
  }

  /** What was handed over, what is pending and what the rest holds are the bodies of all frames. */
  ghost predicate BodiesKept(r: Reader, wire: Chunk, header: Chunk, pending: Chunk, delivered: Chunk) {
    forall w: Chunk {:trigger Seen(w)} :: Seen(w) && w == wire ==> (delivered + pending) + r.raw(header) == r.raw(w)
  }

  /** Taking a header apart keeps this, unless bytes of a frame of another type become pending. */
  lemma {:induction false} HeaderTaken(r: Reader, done: Chunk, header: Chunk, ty: nat, len: nat, used: nat, take: nat, discard: bool, delivered: Chunk)
    requires Reads(r) && RecvState(r, done, [], 0, discard, delivered)
    requires r.get(header) == Some((ty, len, used)) && used + take <= |header| && header != []
    requires take == if |header| - used < len then |header| - used else len
    requires ty == FRAME_DATA || take == 0
    ensures RecvState(r, done + header[..used + take], header[used..used + take], len - take, ty != FRAME_DATA, delivered)
  {
    FirstFrame(r, done, header, ty, len, used, take);
    assert delivered + [] == delivered;
  }

  lemma {:induction false} TakeKeeps(r: Reader, wire: Chunk, done: Chunk, header: Chunk, incoming: Chunk, ty: nat, len: nat, used: nat, take: nat,
                                     discard: bool, delivered: Chunk, leaked: bool)
    requires Reads(r) && header != [] && RecvOk(r, wire, done, header, incoming, [], 0, discard, delivered, leaked)
    requires r.get(header) == Some((ty, len, used)) && used <= |header| && take == if |header| - used < len then |header| - used else len
    ensures RecvOk(r, wire, done + header[..used + take], header[used + take..], incoming, header[used..used + take], len - take,
                   ty != FRAME_DATA, delivered, leaked || (ty != FRAME_DATA && take > 0))
  {
    assert Seen(wire);
    Regroup(done, header, incoming, used + take);
    if !leaked && r.df(wire).clean {
      NextIsClean(r, done, header, incoming, ty, len, used, take);
    }
    if !leaked && (ty == FRAME_DATA || take == 0) {
      HeaderTaken(r, done, header, ty, len, used, take, discard, delivered);
    }
  }

  lemma {:induction false} BodyTaken(r: Reader, done: Chunk, bytes: Chunk, remaining: nat, discard: bool, delivered: Chunk)
    requires Reads(r) && RecvState(r, done, [], remaining, discard, delivered) && 0 < remaining && |bytes| <= remaining
    ensures RecvState(r, done + bytes, [], remaining - |bytes|, discard, if discard then delivered else delivered + bytes)
  {
    DeframeOwed(r, done, bytes, remaining, !discard);
    assert (delivered + []) + bytes == (delivered + bytes) + [];
    assert (delivered + []) + [] == delivered + [];
  }

  /** Taking body bytes off the stream. */
  lemma {:induction false} BodyKeeps(r: Reader, wire: Chunk, done: Chunk, bytes: Chunk, incoming: Chunk, remaining: nat, discard: bool,
                                     delivered: Chunk, leaked: bool)
    requires Reads(r) && 0 < remaining && |bytes| <= remaining
    requires RecvOk(r, wire, done, [], bytes + incoming, [], remaining, discard, delivered, leaked)
    ensures RecvOk(r, wire, done + bytes, [], incoming, [], remaining - |bytes|, discard, if discard then delivered else delivered + bytes, leaked)
  {
    assert Seen(wire);
    assert done + [] + (bytes + incoming) == (done + bytes) + [] + incoming;
    if !leaked {
      BodyTaken(r, done, bytes, remaining, discard, delivered);
    }
  }

  /** Reading more of a header. */
  lemma {:induction false} HeaderKeeps(r: Reader, wire: Chunk, done: Chunk, header: Chunk, bytes: Chunk, incoming: Chunk, pending: Chunk,
                                       discard: bool, delivered: Chunk, leaked: bool)
    requires RecvOk(r, wire, done, header, bytes + incoming, pending, 0, discard, delivered, leaked)
    ensures RecvOk(r, wire, done, header + bytes, incoming, pending, 0, discard, delivered, leaked)
  {
    assert Seen(wire);
    assert done + header + (bytes + incoming) == done + (header + bytes) + incoming;
  }

  /** Handing over pending bytes. */
  lemma {:induction false} PendingKeeps(r: Reader, wire: Chunk, done: Chunk, header: Chunk, incoming: Chunk, data: Chunk, pending: Chunk,
                                        remaining: nat, discard: bool, delivered: Chunk, leaked: bool)
    requires RecvOk(r, wire, done, header, incoming, data + pending, remaining, discard, delivered, leaked)
    ensures RecvOk(r, wire, done, header, incoming, pending, remaining, discard, delivered + data, leaked)
    ensures BodiesKept(r, wire, header, data + pending, delivered) ==> BodiesKept(r, wire, header, pending, delivered + data)
  {
    assert Seen(wire);
    assert delivered + (data + pending) == (delivered + data) + pending;
  }

  /** Taking a header apart takes the first body off those of all frames. */
  lemma {:induction false} RawTake(r: Reader, wire: Chunk, delivered: Chunk, header: Chunk, ty: nat, len: nat, used: nat, take: nat)
    requires Reads(r) && r.get(header) == Some((ty, len, used)) && used <= |header| && header != []
    requires take == if |header| - used < len then |header| - used else len
    ensures BodiesKept(r, wire, header, [], delivered) ==> BodiesKept(r, wire, header[used + take..], header[used..used + take], delivered)
  {
    assert Seen(wire) && Look(header);
    assert delivered + [] == delivered;
    var first, rest := header[used..used + take], r.raw(header[used + take..]);
    if |header| < used + len {
      assert first == header[used..] && header[used + take..] == [];
      assert first + rest == first;
    }
    assert (delivered + first) + rest == delivered + (first + rest);
  }

  /** The bodies of all frames are the data exactly when the stream is clean. */
  lemma {:induction false} RawIsData(r: Reader, wire: Chunk)
    requires Reads(r)
    ensures |r.df(wire).data| <= |r.raw(wire)|
    ensures r.df(wire).clean <==> |r.df(wire).data| == |r.raw(wire)|
    ensures r.df(wire).clean ==> r.df(wire).data == r.raw(wire)
    decreases |wire|
  {
    if wire != [] {
      assert Look(wire);
      if r.get(wire).Some? {
        var (ty, len, used) := r.get(wire).value;
        if used + len <= |wire| {
          RawIsData(r, wire[used + len..]);
        }
      }
    }
  }

  /** Those bytes of a frame of length `len` that came with its header. */
  function AtHand(header: Chunk, used: nat, len: nat): Chunk
    requires used <= |header|
  {
    if |header| - used < len then header[used..] else header[used..used + len]
  }

  class MasqueRecv {
    /** What the QUIC stream will still deliver. */
    var incoming: Chunk
    var header: Chunk
    var pending: Chunk
    var remaining: nat
    var discard: bool
    var eof: bool

    ghost const reader: Reader
    /** The whole stream, the part of it that has been taken apart, and the data handed over. */
    ghost const wire: Chunk
    ghost var done: Chunk
    ghost var delivered: Chunk
    /** Whether bytes of a frame of another type have been taken for data. */
    ghost var leaked: bool

    ghost predicate Valid()
      reads this
    {
      && Reads(reader) && (forall buf {:trigger Look(buf)} :: Look(buf) ==> reader.get(buf) == GetFrameHeader(buf))
      && (remaining > 0 ==> header == []) && (eof ==> incoming == [])
      && RecvOk(reader, wire, done, header, incoming, pending, remaining, discard, delivered, leaked)
    }

    /** Everything has been read, and what was handed over, what is pending and what the rest holds are the bodies of all frames. */
    ghost predicate Buffered()
      reads this
    {
      incoming == [] && BodiesKept(reader, wire, header, pending, delivered)
    }

    /** `leftover` is what came with the response that opened the stream. */
    constructor (leftover: Chunk, incoming: Chunk)
      ensures Valid() && Means(reader) && wire == leftover + incoming && delivered == []
      ensures this.incoming == incoming && header == leftover && pending == [] && remaining == 0 && !leaked
      ensures incoming == [] ==> Buffered()
    {
      TheReaderMeans();
      reader := TheReader();
      this.incoming, header, pending, remaining, discard, eof := incoming, leftover, [], 0, false, false;
      wire, done, delivered, leaked := leftover + incoming, [], [], false;
      assert leftover + [] == leftover && [] + [] + AllBodies(leftover) == AllBodies(leftover);
    }

    /** Hands over pending bytes. */
    method TakePending(room: nat) returns (data: Chunk)
      requires Valid() && pending != [] && room > 0
      modifies this`pending, this`delivered
      ensures Valid() && 0 < |data| <= room && delivered == old(delivered) + data && old(pending) == data + pending
      ensures |data| == (if old(|pending|) < room then old(|pending|) else room) && (old(Buffered()) ==> Buffered())
    {
      var n := if |pending| < room then |pending| else room;
      data := pending[..n];
      assert pending == data + pending[n..];
      PendingKeeps(reader, wire, done, header, incoming, data, pending[n..], remaining, discard, delivered, leaked);
      delivered, pending := delivered + data, pending[n..];
    }

    /** Takes more of the current frame off the stream; the bytes of a frame to be discarded go nowhere. */
    method TakeBody(limit: nat) returns (r: ReadPoll)
      requires Valid() && remaining > 0 && pending == [] && 0 < limit <= remaining
      modifies this`incoming, this`remaining, this`done, this`delivered
      ensures Valid()
      ensures r.Data? ==> r.bytes + incoming == old(incoming) && |r.bytes| <= limit && remaining == old(remaining) - |r.bytes|
      ensures r.Data? && r.bytes == [] ==> incoming == []
      ensures delivered == if r.Data? && !discard then old(delivered) + r.bytes else old(delivered)
      ensures !r.Data? ==> incoming == old(incoming) && remaining == old(remaining)
      ensures old(Buffered()) ==> Buffered() && (r.Data? ==> r.bytes == [])
    {
      ghost var was := incoming;
      r, incoming := PollRead(incoming, limit);
      if r.Data? {
        assert was == r.bytes + incoming;
        BodyKeeps(reader, wire, done, r.bytes, incoming, remaining, discard, delivered, leaked);
        assert delivered + [] == delivered;
        done, remaining := done + r.bytes, remaining - |r.bytes|;
        if !discard {
          delivered := delivered + r.bytes;
        }
      }
    }

    /** Takes a frame header apart, together with those bytes of the frame that came with it. */
    method TakeHeader(ty: nat, len: nat, used: nat)
      requires Valid() && remaining == 0 && pending == [] && header != [] && used <= |header|
      requires reader.get(header) == Some((ty, len, used)) && used > 0
      modifies this`header, this`pending, this`remaining, this`discard, this`done, this`leaked
      ensures Valid() && |header| < old(|header|)
      ensures leaked <==> old(leaked) || (ty != FRAME_DATA && pending != [])
      ensures pending == AtHand(old(header), used, len)
      ensures discard == (ty != FRAME_DATA) && (old(Buffered()) ==> Buffered())
    {
      var body := AtHand(header, used, len);
      var take := |body|;
      TakeKeeps(reader, wire, done, header, incoming, ty, len, used, take, discard, delivered, leaked);
      RawTake(reader, wire, delivered, header, ty, len, used, take);
      var rest := header[used + take..];
      assert body == header[used..used + take] && |rest| < |header|;
      leaked := leaked || (ty != FRAME_DATA && take > 0);
      done := done + header[..used + take];
      pending, header, remaining, discard := body, rest, len - take, ty != FRAME_DATA;
    }

    /** Reads at most sixteen more bytes of a header that is not complete. */
    method ReadHeader() returns (r: ReadPoll)
      requires Valid() && remaining == 0 && !eof
      modifies this`header, this`incoming, this`eof
      ensures Valid() && delivered == old(delivered) && |incoming| <= old(|incoming|)
      ensures r.Data? && r.bytes != [] ==> |incoming| < old(|incoming|)
      ensures r.Data? && r.bytes == [] ==> eof && header == old(header)
      ensures old(Buffered()) ==> Buffered() && (r.Data? ==> r.bytes == [])
    {
      ghost var was := incoming;
      r, incoming := PollRead(incoming, 16);
      if r.Data? {
        assert was == r.bytes + incoming;
        HeaderKeeps(reader, wire, done, header, r.bytes, incoming, pending, discard, delivered, leaked);
        assert header + [] == header;
        eof, header := r.bytes == [], header + r.bytes;
      }
    }

    /** At the end of the stream: everything has been handed over, and the stream stops between frames exactly when no header is
        half read. */
    ghost predicate AtEnd(clean: bool)
      reads this
    {
      !leaked ==> delivered == reader.df(wire).data && (clean <==> reader.df(wire).end.Boundary?)
    }

    lemma {:induction false} EndOfHeaders()
      requires Valid() && remaining == 0 && pending == [] && incoming == [] && reader.get(header) == None
      ensures AtEnd(header == []) && (Buffered() ==> delivered == reader.raw(wire))
    {
      assert Seen(wire) && Look(header) && (delivered + []) + [] == delivered;
      if !leaked {
        assert wire == done + header;
        DeframeAppend(reader, done, header);
        assert Look(header);
        assert delivered + [] == delivered;
      }
    }

    lemma {:induction false} EndOfBody()
      requires Valid() && remaining > 0 && pending == [] && incoming == []
      ensures AtEnd(false) && (Buffered() ==> delivered == reader.raw(wire))
    {
      assert Seen(wire) && (delivered + []) + [] == delivered;
      if !leaked {
        assert wire == done;
        assert delivered + [] == delivered;
      }
    }

    /** At any moment a first part of the data has been handed over. */
    lemma {:induction false} DeliveredIsPrefix()
      requires Valid() && !leaked
      ensures delivered <= reader.df(wire).data
    {
      assert Seen(wire);
      assert wire == done + (header + incoming);
      DeframePrefix(reader, done, header + incoming);
      DroppedEnd(delivered, pending, reader.df(wire).data);
    }

    /** An end is reported only when it has been reached. */
    ghost predicate Reports(r: RecvPoll)
      reads this
    {
      && (r == Bytes([]) ==> AtEnd(true)) && (r.Truncated? ==> AtEnd(false))
      && (Buffered() && (r == Bytes([]) || r.Truncated?) ==> delivered == reader.raw(wire))
    }

    /** One round of the loop inside a frame; nothing is returned while the bytes of a frame to be discarded go by. */
    method PollBody(room: nat) returns (r: Option<RecvPoll>)
      requires Valid() && remaining > 0 && pending == [] && room > 0
      modifies this`incoming, this`remaining, this`done, this`delivered
      ensures Valid() && (old(Buffered()) ==> Buffered()) && (r.Some? ==> Reports(r.value))
      ensures r.Some? && r.value.Bytes? ==> |r.value.data| <= room && delivered == old(delivered) + r.value.data
      ensures (r.Some? && r.value.Bytes?) || delivered == old(delivered)
      ensures r.None? ==> |incoming| < old(|incoming|)
    {
      var limit := if discard then 512 else room;
      var p := TakeBody(if remaining < limit then remaining else limit);
      match p {
        case NotReady => return Some(NotYet);
        case Broken => return Some(Failed);
        case Data(bytes) =>
          if bytes == [] {
            assert delivered == old(delivered);
            EndOfBody();
            return Some(Truncated);
          }
          if !discard {
            return Some(Bytes(bytes));
          }
          return None;
      }
    }

    /** One round of the loop between frames. */
    method PollHeader() returns (r: Option<RecvPoll>)
      requires Valid() && remaining == 0 && pending == []
      modifies this`header, this`pending, this`remaining, this`discard, this`done, this`leaked, this`incoming, this`eof
      ensures Valid() && (old(Buffered()) ==> Buffered()) && (old(leaked) ==> leaked)
      ensures r.Some? ==> Reports(r.value) && (r.value.Bytes? ==> r.value.data == [])
      ensures r.None? ==> |incoming| < old(|incoming|) || (|incoming| == old(|incoming|) && |header| < old(|header|))
    {
      assert Look(header);
      match GetFrameHeader(header) {
        case Some((ty, len, used)) =>
          TakeHeader(ty, len, used);
          return None;
        case None =>
          if eof {
            EndOfHeaders();
            return Some(if header == [] then Bytes([]) else Truncated);
          }
          var p := ReadHeader();
          match p {
            case NotReady => return Some(NotYet);
            case Broken => return Some(Failed);
            case Data(bytes) =>
              if bytes == [] {
                EndOfHeaders();
                return Some(if header == [] then Bytes([]) else Truncated);
              }
              return None;
          }
      }
    }

    /** `poll_read`: the bytes handed over are the data of the stream's DATA frames, in order, and other frames are skipped, unless bytes of
        another frame came together with its header, which cannot happen if the stream is clean. An empty result says that all data
        has been handed over and the stream stopped between frames, and `Truncated` that it stopped inside one. When everything has been
        read beforehand, the bodies of all frames are handed over. */
    method Poll(room: nat) returns (r: RecvPoll)
      requires Valid()
      modifies this
      ensures Valid() && (old(leaked) ==> leaked) && (old(Buffered()) ==> Buffered())
      ensures r.Bytes? ==> |r.data| <= room
      ensures delivered == old(delivered) + if r.Bytes? then r.data else []
      ensures room > 0 ==> Reports(r)
      ensures old(pending) != [] && room > 0 ==> r == Bytes(old(pending)[..if old(|pending|) < room then old(|pending|) else room])
    {
      ghost var before := delivered;
      assert before + [] == before;
      if room == 0 {
        return Bytes([]);
      }
      while true
        invariant Valid() && delivered == before && (old(leaked) ==> leaked) && (old(Buffered()) ==> Buffered())
        invariant old(pending) != [] ==> pending == old(pending)
        decreases |incoming|, |header|
      {
        if pending != [] {
          ghost var was := pending;
          var data := TakePending(room);
          assert data == was[..|data|];
          return Bytes(data);
        }
        var p;
        if remaining > 0 {
          p := PollBody(room);
        } else {
          p := PollHeader();
        }
        if p.Some? {
          return p.value;
        }
      }
    }
  }

  // ---------------------------------------------------------------- both ends

  /** What the sender has put on the stream carries exactly what it accepted, whatever the partial writes; it stops between
      frames exactly when no frame has been begun and not finished. */
  lemma {:induction false} SentMeansAccepted(r: Reader, stream: Chunk, accepted: Chunk, base: Chunk, header: Chunk, headerSent: nat, remaining: nat)
    requires Reads(r) && Means(r) && SendState(r, stream, accepted, base, header, headerSent, remaining)
    ensures Deframe(stream).data == accepted && Deframe(stream).clean
    ensures Deframe(stream).end.Boundary? <==> remaining == 0 || (headerSent == 0 && header != [])
  {
    assert Look(stream);
    if headerSent < |header| {
      var part := header[..headerSent];
      assert Look2(header, headerSent) && Look(part);
      assert headerSent == 0 ==> part == [];
      DeframeAppend(r, base, part);
      assert accepted + [] == accepted;
    }
  }

  /** Sends as much of each write as is taken, then reads with buffers of the given sizes until the end or a failure. Whatever the
      sizes, what is received is a first part of what was accepted; a clean end means that it is all of it, and is reported only if the
      sender stopped between frames; a truncated end is reported only if it stopped inside a frame. */
  method Relay(writes: seq<Chunk>, rooms: seq<nat>) returns (accepted: Chunk, received: Chunk, end: Option<RecvPoll>, whole: bool)
    ensures received <= accepted
    ensures end == Some(Bytes([])) ==> received == accepted && whole
    ensures end == Some(Truncated) ==> received == accepted && !whole
  {
    var stream;
    stream, accepted, whole := SendAll(writes);
    var recv := new MasqueRecv([], stream);
    assert [] + stream == stream;
    assert Look(stream);
    received, end := ReceiveAll(recv, rooms);
  }

  method ReceiveAll(recv: MasqueRecv, rooms: seq<nat>) returns (received: Chunk, end: Option<RecvPoll>)
    requires recv.Valid() && recv.delivered == [] && recv.reader.df(recv.wire).clean
    modifies recv
    ensures received <= recv.reader.df(recv.wire).data
    ensures end == Some(Bytes([])) ==> received == recv.reader.df(recv.wire).data && recv.reader.df(recv.wire).end.Boundary?
    ensures end == Some(Truncated) ==> received == recv.reader.df(recv.wire).data && !recv.reader.df(recv.wire).end.Boundary?
  {
    received, end := [], None;
    for n := 0 to |rooms|
      invariant recv.Valid() && received == recv.delivered
    {
      var p := recv.Poll(rooms[n]);
      assert Seen(recv.wire);
      received := received + if p.Bytes? then p.data else [];
      if rooms[n] > 0 && (p == Bytes([]) || p.Truncated?) {
        end := Some(p);
        return;
      }
    }
    assert Seen(recv.wire);
    recv.DeliveredIsPrefix();
  }

  lemma {:induction false} DroppedEnd(a: Chunk, b: Chunk, c: Chunk)
    requires a + b <= c
    ensures a <= c
  {}

  method SendAll(writes: seq<Chunk>) returns (stream: Chunk, accepted: Chunk, whole: bool)
    ensures Deframe(stream).data == accepted && Deframe(stream).clean && (whole <==> Deframe(stream).end.Boundary?)
  {
    var send := new MasqueSend();
    accepted := [];
    for n := 0 to |writes|
      invariant send.Valid() && fresh(send) && Means(send.reader) && accepted == send.accepted
    {
      var p := send.PollWrite(writes[n]);
      if p.IoReady? {
        accepted := accepted + writes[n][..p.n];
      }
    }
    stream := send.stream;
    whole := send.remaining == 0 || (send.headerSent == 0 && send.header != []);
    SentMeansAccepted(send.reader, stream, accepted, send.base, send.header, send.headerSent, send.remaining);
  }

  /** The same for `write_frames`, the path that uploads take: pieces are written list by list until a write fails; what is received is a first
      part of the pieces, and all of them when no write fails and the end is clean. */
  method RelayFrames(lists: seq<seq<Chunk>>, rooms: seq<nat>) returns (ok: bool, received: Chunk, end: Option<RecvPoll>)
    requires forall n, i :: 0 <= n < |lists| && 0 <= i < |lists[n]| ==> |lists[n][i]| < VARINT_LIMIT
    ensures received <= FlattenLists(lists)
    ensures ok && (end == Some(Bytes([])) || end == Some(Truncated)) ==> received == FlattenLists(lists) && end == Some(Bytes([]))
  {
    var stream;
    ok, stream := SendLists(lists);
    var recv := new MasqueRecv([], stream);
    assert [] + stream == stream;
    assert Look(stream);
    received, end := ReceiveAll(recv, rooms);
    PrefixTrans(received, Deframe(stream).data, FlattenLists(lists));
  }

  function FlattenLists(lists: seq<seq<Chunk>>): Chunk {
    if lists == [] then [] else FlattenLists(lists[..|lists| - 1]) + Flatten(lists[|lists| - 1])
  }

  lemma {:induction false} FlattenListsPrefix(lists: seq<seq<Chunk>>, k: nat)
    requires k <= |lists|
    ensures FlattenLists(lists[..k]) <= FlattenLists(lists)
    decreases |lists|
  {
    if k < |lists| {
      var n := |lists| - 1;
      assert lists[..n][..k] == lists[..k];
      FlattenListsPrefix(lists[..n], k);
    } else {
      assert lists[..k] == lists;
    }
  }

  method SendLists(lists: seq<seq<Chunk>>) returns (ok: bool, stream: Chunk)
    requires forall n, i :: 0 <= n < |lists| && 0 <= i < |lists[n]| ==> |lists[n][i]| < VARINT_LIMIT
    ensures Deframe(stream).data <= FlattenLists(lists) && Deframe(stream).clean
    ensures ok ==> Deframe(stream).data == FlattenLists(lists) && Deframe(stream).end.Boundary?
  {
    var send := new MasqueSend();
    ok := true;
    assert lists[..0] == [];
    for n := 0 to |lists|
      invariant send.Valid() && fresh(send) && Means(send.reader) && send.remaining == 0 && ok
      invariant send.accepted == FlattenLists(lists[..n])
    {
      assert lists[..n + 1][..n] == lists[..n];
      ok := send.WriteFrames(lists[n]);
      if !ok {
        stream := send.stream;
        FlattenListsPrefix(lists, n + 1);
        CarriedSoFar(send.reader, stream, FlattenLists(lists[..n]), Flatten(lists[n]), FlattenLists(lists));
        return;
      }
    }
    assert lists[..|lists|] == lists;
    stream := send.stream;
    NoneOwed(send.reader, stream, send.accepted, send.base, send.header, send.headerSent);
  }

  lemma {:induction false} CarriedSoFar(r: Reader, stream: Chunk, before: Chunk, more: Chunk, all: Chunk)
    requires Means(r) && Carries(r, stream, before, more) && before + more <= all
    ensures Deframe(stream).data <= all && Deframe(stream).clean
  {
    assert Look(stream);
    PrefixTrans(r.df(stream).data, before + more, all);
  }

  lemma {:induction false} NoneOwed(r: Reader, stream: Chunk, accepted: Chunk, base: Chunk, header: Chunk, sent: nat)
    requires Means(r) && SendState(r, stream, accepted, base, header, sent, 0)
    ensures Deframe(stream) == Delivery(accepted, Boundary, true)
  {
    assert Look(stream);
  }

  // ---------------------------------------------------------------- frames of other types

  /** When the whole stream came with the response that opened it, the reader hands over the bodies of all frames. They are the data of the DATA
      frames if and only if no frame of another type has a byte of body; so that is exactly when every way of reading is right, since for a
      clean stream `Poll` never takes other bytes for data. */
  method ReceiveBuffered(wire: Chunk, rooms: seq<nat>) returns (received: Chunk, end: Option<RecvPoll>)
    ensures received <= AllBodies(wire)
    ensures end.Some? ==> received == AllBodies(wire)
    ensures end.Some? ==> (received == Deframe(wire).data <==> Deframe(wire).clean)
  {
    var recv := new MasqueRecv(wire, []);
    assert wire + [] == wire;
    assert Look(wire);
    RawIsData(recv.reader, wire);
    received, end := [], None;
    for n := 0 to |rooms|
      invariant recv.Valid() && fresh(recv) && recv.Buffered() && received == recv.delivered
    {
      var p := recv.Poll(rooms[n]);
      received := received + if p.Bytes? then p.data else [];
      if rooms[n] > 0 && (p == Bytes([]) || p.Truncated?) {
        end := Some(p);
        return;
      }
    }
    assert Seen(recv.wire);
    BufferedPrefix(received, recv.pending, recv.reader.raw(recv.header), recv.reader.raw(recv.wire));
  }

  lemma {:induction false} BufferedPrefix(a: Chunk, b: Chunk, c: Chunk, all: Chunk)
    requires (a + b) + c == all
    ensures a <= all
  {
    assert all == a + (b + c);
  }

  /** In particular, a frame of another type that came as a whole is handed over as if it were data, although the stream carries none. */
  method OtherFramesLeak(ty: nat, body: Chunk, room: nat) returns (first: RecvPoll)
    requires 0 < ty < VARINT_LIMIT && 0 < |body| < VARINT_LIMIT && room >= |body|
    ensures first == Bytes(body) && Deframe(PutFrameHeader(ty, |body|) + body).data == []
  {
    var h := PutFrameHeader(ty, |body|);
    OtherCarriesNothing(ty, body);
    first := PollFirst(h + body, ty, body, |h|, room);
  }

  /** The first poll of a reader that got the whole of one frame with the response hands over its body. */
  method PollFirst(wire: Chunk, ty: nat, body: Chunk, used: nat, room: nat) returns (first: RecvPoll)
    requires GetFrameHeader(wire) == Some((ty, |body|, used)) && 0 < used <= |wire| && AtHand(wire, used, |body|) == body
    requires body != [] && room >= |body|
    ensures first == Bytes(body)
  {
    var recv := new MasqueRecv(wire, []);
    assert Look(wire);
    recv.TakeHeader(ty, |body|, used);
    first := recv.Poll(room);
    assert body[..|body|] == body;
  }

  lemma {:induction false} OtherCarriesNothing(ty: nat, body: Chunk)
    requires 0 < ty < VARINT_LIMIT && |body| < VARINT_LIMIT
    ensures var h := PutFrameHeader(ty, |body|);
      && GetFrameHeader(h + body) == Some((ty, |body|, |h|)) && 2 <= |h|
      && Deframe(h + body).data == [] && AtHand(h + body, |h|, |body|) == body
  {
    var h := PutFrameHeader(ty, |body|);
    FrameHeaderRoundTrip(ty, |body|, body);
    HeadersAreSane();
    AtHandAll(h, body);
    DeframeSome(GetFrameHeader, h + body, ty, |body|, |h|);
  }

  lemma {:induction false} AtHandAll(h: Chunk, body: Chunk)
    ensures AtHand(h + body, |h|, |body|) == body
  {
    assert (h + body)[|h|..|h| + |body|] == body;
  }
}
