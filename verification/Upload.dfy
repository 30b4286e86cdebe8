/** The upload direction from end to end: the client's early data and its shaper (src/client/handshake.rs), request bodies that may be cut,
    broken off or repeated, the server's readers of bodies (src/server/handlers.rs), and its upload actor. */
module Upload {
  import opened Bytes
  import opened Incremental
  import opened FrameCodec
  import opened Shaper
  import opened BodyReader
  import opened UploadActor
  import opened Vectored
  import ClientUpload
  import Reorder

  // ---------------------------------------------------------------- what the client sends

  /** The frames on the wire, and the payloads they carry under the numbers from zero on. */
  ghost predicate Sends(dec: Decoder, wires: seq<Chunk>, payloads: seq<Chunk>) {
    IsIncremental(dec) && dec([]) == More && EachHolds(dec, wires, Numbered(0, payloads)) && AllNonEmpty(payloads)
  }

  /** The numbers of the shaped frames continue those of the early ones. */
  lemma {:induction false} NumbersContinue(early: seq<Chunk>, shaped: seq<Chunk>)
    ensures Numbered(0, early) + Numbered(|early|, shaped) == Numbered(0, early + shaped)
  {}

  lemma {:induction false} SealedHold(dec: Decoder, codec: Codec, start: nat, payloads: seq<Chunk>, seals: seq<Seal>)
    requires IsDecoderOf(dec, codec) && Lawful(codec) && start + |payloads| <= SEQ_LIMIT
    requires GoodSeals(FrameRawLimit(codec.encoding), payloads, seals)
    ensures EachHolds(dec, Wire(SealerOf(codec), start, payloads, seals), Numbered(start, payloads))
  {
    SealerIsFaithful(dec, codec);
    var wires, frames := Wire(SealerOf(codec), start, payloads, seals), Numbered(start, payloads);
    forall i | 0 <= i < |wires|
      ensures Holds(dec, wires[i], frames[i])
    {
      assert GoodSeal(FrameRawLimit(codec.encoding), payloads[i], seals[i]);
    }
  }

  lemma {:induction false} HoldsJoin(dec: Decoder, a: seq<Chunk>, b: seq<Chunk>, fa: seq<Frame>, fb: seq<Frame>)
    requires Progresses(dec) && EachHolds(dec, a, fa) && EachHolds(dec, b, fb)
    ensures EachHolds(dec, a + b, fa + fb)
  {}

  /** `try_pq_connect` and the shaper it starts: early data from the initial payload, and frames of the rest of what the client reads. */
  method ClientSends(sc: Config, initial: Chunk, later: Chunk, polls: nat)
    returns (early: Chunk, frames: seq<Chunk>, last: SealPoll, ghost wires: seq<Chunk>, ghost payloads: seq<Chunk>)
    requires Resolved(sc) && Lawful(sc.codec) && |initial| + polls <= SEQ_LIMIT
    ensures Sends(FrameDecoderOf(sc.codec), wires, payloads) && Flatten(payloads) <= initial + later
    ensures last.Ended? ==> Flatten(payloads) == initial + later
    ensures |frames| <= |wires| && wires[|wires| - |frames|..] == frames && early == Flatten(wires[..|wires| - |frames|])
  {
    var remaining, count;
    ghost var first, seals;
    early, remaining, count, first, seals := ClientUpload.EncodeInitialPayload(sc.codec, sc.global, initial, MAX_RAW_PAYLOAD);
    assert forall i :: 0 <= i < |first| ==> GoodSeal(FrameRawLimit(sc.codec.encoding), first[i], seals[i]);
    ClientUpload.NonEmptyCount(first);
    ghost var rest, restSeals;
    frames, last, rest, restSeals := ShapeFrames(sc, remaining + later, count, polls);
    ghost var one := Wire(SealerOf(sc.codec), 0, first, seals);
    wires, payloads := one + frames, first + rest;
    SendsBoth(sc, first, seals, rest, restSeals);
    FlattenAppend(first, rest);
    ReadInOrder(Flatten(first), remaining, later, Flatten(rest), initial);
    assert wires[..|one|] == one && wires[|one|..] == frames;
  }

  lemma {:induction false} ReadInOrder(first: Chunk, remaining: Chunk, later: Chunk, rest: Chunk, initial: Chunk)
    requires first + remaining == initial && rest <= remaining + later
    ensures first + rest <= initial + later && (rest == remaining + later ==> first + rest == initial + later)
  {
    assert initial + later == first + (remaining + later);
  }

  lemma {:induction false} SendsBoth(sc: Config, first: seq<Chunk>, seals: seq<Seal>, rest: seq<Chunk>, restSeals: seq<Seal>)
    requires Lawful(sc.codec) && |first| + |rest| <= SEQ_LIMIT
    requires GoodSeals(FrameRawLimit(sc.codec.encoding), first, seals) && GoodSeals(SealThreshold(sc.codec.encoding), rest, restSeals)
    ensures Sends(FrameDecoderOf(sc.codec), Wire(SealerOf(sc.codec), 0, first, seals) + Wire(SealerOf(sc.codec), |first|, rest, restSeals), first + rest)
  {
    var dec := FrameDecoderOf(sc.codec);
    FrameDecoderOfIsDecoder(sc.codec);
    EmptyIsIncomplete(dec, sc.codec);
    SealedHold(dec, sc.codec, 0, first, seals);
    ThresholdWithinLimit(sc.codec.encoding, rest, restSeals);
    SealedHold(dec, sc.codec, |first|, rest, restSeals);
    HoldsJoin(dec, Wire(SealerOf(sc.codec), 0, first, seals), Wire(SealerOf(sc.codec), |first|, rest, restSeals),
              Numbered(0, first), Numbered(|first|, rest));
    NumbersContinue(first, rest);
    forall i | 0 <= i < |first + rest|
      ensures (first + rest)[i] != []
    {
      assert i < |first| ==> GoodSeal(FrameRawLimit(sc.codec.encoding), first[i], seals[i]);
      assert i >= |first| ==> GoodSeal(SealThreshold(sc.codec.encoding), rest[i - |first|], restSeals[i - |first|]);
    }
  }

  // ---------------------------------------------------------------- what the server makes of it

  /** The body holds a first part of some consecutive frames. */
  ghost predicate CarriesPart(body: seq<Event>, wires: seq<Chunk>) {
    exists lo: nat, hi: nat :: lo <= hi <= |wires| && BodyBytes(body) <= Flatten(wires[lo..hi])
  }

  /** The frames of a part of what was sent carry the payloads of their numbers. */
  lemma {:induction false} PartGenuine(dec: Decoder, wires: seq<Chunk>, payloads: seq<Chunk>, lo: nat, hi: nat, part: Chunk)
    requires Sends(dec, wires, payloads) && lo <= hi <= |wires| && part <= Flatten(wires[lo..hi])
    ensures Reorder.Genuine(DecodeAll(dec, part).frames, payloads)
  {
    var whole, frames := Flatten(wires[lo..hi]), Numbered(0, payloads);
    DecodeConcat(dec, wires[lo..hi], frames[lo..hi]);
    assert whole == part + whole[|part|..];
    DecodeAllSplit(dec, part, whole[|part|..]);
    assert DecodeAll(dec, part).frames <= frames[lo..hi];
    InNumbered(DecodeAll(dec, part).frames, lo, hi, payloads);
  }

  lemma {:induction false} InNumbered(got: seq<Frame>, lo: nat, hi: nat, payloads: seq<Chunk>)
    requires lo <= hi <= |payloads| && got <= Numbered(0, payloads)[lo..hi]
    ensures Reorder.Genuine(got, payloads)
  {
    forall f | f in got
      ensures f.seqNo < |payloads| && f.data == payloads[f.seqNo]
    {
      var i :| 0 <= i < |got| && got[i] == f;
      assert f == Numbered(0, payloads)[lo + i];
    }
  }

  function FrameCommands(frames: seq<Frame>): (cs: seq<Cmd>)
    ensures |cs| == |frames| && forall i :: 0 <= i < |cs| ==> cs[i] == FrameCmd(frames[i])
  {
    seq(|frames|, i requires 0 <= i < |frames| => FrameCmd(frames[i]))
  }

  /** What one request hands to the actor: its frames and, for any request but the one that set up the tunnel, the end-of-body marker if the
      body was complete and held a frame. */
  function Commands(outcome: BodyOutcome, ack: nat): seq<Cmd> {
    FrameCommands(outcome.frames)
    + if outcome.Complete? && outcome.frames != [] && ack > 0 then [Eos(outcome.maxSeq, ack)] else []
  }

  /** Every command comes from one of the requests: a frame from its body, a marker with the greatest number of its body. */
  ghost predicate FromBodies(codec: Codec, bodies: seq<seq<Event>>, cmds: seq<Cmd>) {
    forall c :: c in cmds ==> exists a: nat :: a < |bodies| && c in Commands(BodyMeaning(codec, bodies[a]), a)
  }

  /** The requests run at the same time: `schedule` says whose turn it is. Everything has been handed over if each request gets enough
      turns. */
  method Interleave(lists: seq<seq<Cmd>>, schedule: seq<nat>) returns (cmds: seq<Cmd>, all: bool)
    ensures forall c :: c in cmds ==> exists a: nat :: a < |lists| && c in lists[a]
    ensures all ==> forall a: nat :: a < |lists| ==> forall c :: c in lists[a] ==> c in cmds
    ensures (forall a: nat :: a < |lists| ==> multiset(schedule)[a] >= |lists[a]|) ==> all
    ensures |EosAcks(cmds)| <= Markers(lists)
  {
    var left;
    cmds, left := TakeTurns(lists, schedule);
    EnoughLeavesNone(lists, left, schedule);
    SplitMeans(lists, left, cmds);
    all := forall a: nat :: a < |left| ==> left[a] == [];
  }

  method TakeTurns(lists: seq<seq<Cmd>>, schedule: seq<nat>) returns (cmds: seq<Cmd>, left: seq<seq<Cmd>>)
    ensures |left| == |lists| && Split(lists, left, cmds) && |EosAcks(cmds)| + Markers(left) == Markers(lists)
    ensures Turns(lists, left, schedule)
  {
    cmds, left := [], lists;
    assert schedule[..0] == [];
    for t := 0 to |schedule|
      invariant |left| == |lists| && Split(lists, left, cmds) && |EosAcks(cmds)| + Markers(left) == Markers(lists)
      invariant Turns(lists, left, schedule[..t])
    {
      var a := schedule[t];
      TurnTaken(lists, left, schedule, t);
      if a < |left| && left[a] != [] {
        TakeTurn(lists, left, cmds, a);
        cmds, left := cmds + [left[a][0]], left[a := left[a][1..]];
      }
    }
    assert schedule[..|schedule|] == schedule;
  }

  /** What is left of a request goes down with its turns. */
  ghost predicate Turns(lists: seq<seq<Cmd>>, left: seq<seq<Cmd>>, schedule: seq<nat>)
    requires |left| == |lists|
  {
    forall a: nat :: a < |lists| && left[a] != [] ==> |left[a]| + multiset(schedule)[a] == |lists[a]|
  }

  lemma {:induction false} TurnTaken(lists: seq<seq<Cmd>>, left: seq<seq<Cmd>>, schedule: seq<nat>, t: nat)
    requires |left| == |lists| && t < |schedule| && Turns(lists, left, schedule[..t])
    ensures var a := schedule[t];
      Turns(lists, if a < |left| && left[a] != [] then left[a := left[a][1..]] else left, schedule[..t + 1])
  {
    assert schedule[..t + 1] == schedule[..t] + [schedule[t]];
  }

  lemma {:induction false} EnoughLeavesNone(lists: seq<seq<Cmd>>, left: seq<seq<Cmd>>, schedule: seq<nat>)
    requires |left| == |lists| && Turns(lists, left, schedule)
    ensures (forall a: nat :: a < |lists| ==> multiset(schedule)[a] >= |lists[a]|) ==> forall a: nat :: a < |left| ==> left[a] == []
  {}

  /** Each command of a request has been handed over or is left, and none comes from elsewhere. */
  ghost predicate Split(lists: seq<seq<Cmd>>, left: seq<seq<Cmd>>, cmds: seq<Cmd>)
    requires |left| == |lists|
  {
    forall ls: seq<seq<Cmd>> {:trigger Look(ls)} :: Look(ls) && ls == lists ==>
      && (forall c :: c in cmds ==> exists a: nat :: a < |ls| && c in ls[a])
      && (forall a: nat :: a < |ls| ==> forall c :: c in left[a] ==> c in ls[a])
      && (forall a: nat :: a < |ls| ==> forall c :: c in ls[a] ==> c in left[a] || c in cmds)
  }

  lemma {:induction false} SplitMeans(lists: seq<seq<Cmd>>, left: seq<seq<Cmd>>, cmds: seq<Cmd>)
    requires |left| == |lists| && Split(lists, left, cmds)
    ensures forall c :: c in cmds ==> exists a: nat :: a < |lists| && c in lists[a]
    ensures (forall a: nat :: a < |left| ==> left[a] == []) ==> forall a: nat :: a < |lists| ==> forall c :: c in lists[a] ==> c in cmds
  {
    assert Look(lists);
  }

  /** How many end-of-body markers there are in all. */
  function Markers(lists: seq<seq<Cmd>>): nat {
    if lists == [] then 0 else Markers(lists[..|lists| - 1]) + |EosAcks(lists[|lists| - 1])|
  }

  lemma {:induction false} MarkersUpdate(lists: seq<seq<Cmd>>, a: nat, list: seq<Cmd>)
    requires a < |lists|
    ensures Markers(lists[a := list]) + |EosAcks(lists[a])| == Markers(lists) + |EosAcks(list)|
    decreases |lists|
  {
    var n := |lists| - 1;
    if a < n {
      assert lists[a := list][..n] == lists[..n][a := list];
      MarkersUpdate(lists[..n], a, list);
    } else {
      assert lists[a := list][..n] == lists[..n];
    }
  }

  lemma {:induction false} EosAcksFirst(cmds: seq<Cmd>)
    requires cmds != []
    ensures |EosAcks(cmds)| == |EosAcks(cmds[1..])| + if cmds[0].Eos? then 1 else 0
    decreases |cmds|
  {
    var n := |cmds| - 1;
    if n > 0 {
      assert cmds[..n][1..] == cmds[1..][..n - 1];
      EosAcksFirst(cmds[..n]);
    } else {
      assert cmds[..n] == [] && cmds[1..] == [];
    }
  }

  lemma {:induction false} EosAcksLast(cmds: seq<Cmd>, c: Cmd)
    ensures |EosAcks(cmds + [c])| == |EosAcks(cmds)| + if c.Eos? then 1 else 0
  {
    assert (cmds + [c])[..|cmds|] == cmds;
  }

  lemma {:induction false} EosAcksPrefix(cmds: seq<Cmd>, used: nat)
    requires used <= |cmds|
    ensures |EosAcks(cmds[..used])| <= |EosAcks(cmds)|
    decreases |cmds|
  {
    if used < |cmds| {
      var n := |cmds| - 1;
      assert cmds[..n][..used] == cmds[..used];
      EosAcksPrefix(cmds[..n], used);
    } else {
      assert cmds[..used] == cmds;
    }
  }

  lemma {:induction false} TakeTurn(lists: seq<seq<Cmd>>, left: seq<seq<Cmd>>, cmds: seq<Cmd>, a: nat)
    requires |left| == |lists| && Split(lists, left, cmds) && a < |left| && left[a] != []
    ensures var cmds', left' := cmds + [left[a][0]], left[a := left[a][1..]];
      Split(lists, left', cmds') && |EosAcks(cmds')| + Markers(left') == |EosAcks(cmds)| + Markers(left)
  {
    var c, rest := left[a][0], left[a][1..];
    MarkersUpdate(left, a, rest);
    EosAcksFirst(left[a]);
    EosAcksLast(cmds, c);
    assert left[a] == [c] + rest;
    SplitTurn(lists, left, cmds, a, c, rest);
  }

  lemma {:induction false} SplitTurn(lists: seq<seq<Cmd>>, left: seq<seq<Cmd>>, cmds: seq<Cmd>, a: nat, c: Cmd, rest: seq<Cmd>)
    requires |left| == |lists| && Split(lists, left, cmds) && a < |left| && left[a] == [c] + rest
    ensures Split(lists, left[a := rest], cmds + [c])
  {
    assert Look(lists);
    assert c in left[a] && c in lists[a];
    forall b: nat | b < |lists|
      ensures forall d :: d in left[a := rest][b] ==> d in lists[b]
      ensures forall d :: d in lists[b] ==> d in left[a := rest][b] || d in cmds + [c]
    {}
  }

  /** A request has at most one marker, and the one that set up the tunnel has none. */
  lemma {:induction false} CommandsMarkers(m: BodyOutcome, a: nat)
    ensures |EosAcks(Commands(m, a))| <= if a > 0 then 1 else 0
  {
    FramesHaveNone(m.frames);
    var cs := FrameCommands(m.frames);
    if m.Complete? && m.frames != [] && a > 0 {
      EosAcksLast(cs, Eos(m.maxSeq, a));
    } else {
      assert cs + [] == cs;
    }
  }

  lemma {:induction false} FramesHaveNone(frames: seq<Frame>)
    ensures EosAcks(FrameCommands(frames)) == multiset{}
    decreases |frames|
  {
    if frames != [] {
      var n := |frames| - 1;
      assert FrameCommands(frames)[..n] == FrameCommands(frames[..n]);
      FramesHaveNone(frames[..n]);
    }
  }

  lemma {:induction false} AllMarkers(codec: Codec, bodies: seq<seq<Event>>, lists: seq<seq<Cmd>>)
    requires |lists| <= |bodies| && forall a: nat :: a < |lists| ==> lists[a] == Commands(BodyMeaning(codec, bodies[a]), a)
    ensures lists != [] ==> Markers(lists) <= |lists| - 1
    decreases |lists|
  {
    if lists != [] {
      var n := |lists| - 1;
      AllMarkers(codec, bodies, lists[..n]);
      CommandsMarkers(BodyMeaning(codec, bodies[n]), n);
    }
  }

  method ReadBodies(codec: Codec, bodies: seq<seq<Event>>) returns (lists: seq<seq<Cmd>>)
    ensures |lists| == |bodies| && forall a: nat :: a < |bodies| ==> lists[a] == Commands(BodyMeaning(codec, bodies[a]), a)
  {
    lists := [];
    for a := 0 to |bodies|
      invariant |lists| == a && forall b: nat :: b < a ==> lists[b] == Commands(BodyMeaning(codec, bodies[b]), b)
    {
      var outcome := ReadBody(codec, bodies[a]);
      lists := lists + [Commands(outcome, a)];
    }
  }

  lemma {:induction false} InFrameCmds(cmds: seq<Cmd>, f: Frame)
    requires f in FrameCmds(cmds)
    ensures FrameCmd(f) in cmds
    decreases |cmds|
  {
    var n := |cmds| - 1;
    if f in FrameCmds(cmds[..n]) {
      InFrameCmds(cmds[..n], f);
    }
  }

  /** All that arrives at the actor is genuine. */
  lemma {:induction false} ArrivalsGenuine(codec: Codec, bodies: seq<seq<Event>>, cmds: seq<Cmd>, arrivals: seq<Frame>, wires: seq<Chunk>, payloads: seq<Chunk>)
    requires Sends(FrameDecoderOf(codec), wires, payloads) && FromBodies(codec, bodies, cmds)
    requires forall a :: 0 <= a < |bodies| ==> CarriesPart(bodies[a], wires)
    requires arrivals <= FrameCmds(cmds)
    ensures Reorder.Genuine(arrivals, payloads)
  {
    forall f | f in arrivals
      ensures f.seqNo < |payloads| && f.data == payloads[f.seqNo]
    {
      InPrefix(arrivals, FrameCmds(cmds), f);
      InFrameCmds(cmds, f);
      FrameGenuine(codec, bodies, cmds, f, wires, payloads);
    }
  }

  lemma {:induction false} FrameGenuine(codec: Codec, bodies: seq<seq<Event>>, cmds: seq<Cmd>, f: Frame, wires: seq<Chunk>, payloads: seq<Chunk>)
    requires Sends(FrameDecoderOf(codec), wires, payloads) && FromBodies(codec, bodies, cmds) && FrameCmd(f) in cmds
    requires forall a :: 0 <= a < |bodies| ==> CarriesPart(bodies[a], wires)
    ensures f.seqNo < |payloads| && f.data == payloads[f.seqNo]
  {
    var a: nat :| a < |bodies| && FrameCmd(f) in Commands(BodyMeaning(codec, bodies[a]), a);
    var body := bodies[a];
    FrameOf(BodyMeaning(codec, body), a, f);
    FramesOfBody(codec, body);
    var lo: nat, hi: nat :| lo <= hi <= |wires| && BodyBytes(body) <= Flatten(wires[lo..hi]);
    PartGenuine(FrameDecoderOf(codec), wires, payloads, lo, hi, BodyBytes(body));
  }

  lemma {:induction false} FrameOf(m: BodyOutcome, a: nat, f: Frame)
    requires FrameCmd(f) in Commands(m, a)
    ensures f in m.frames
  {
    var i :| 0 <= i < |m.frames| && FrameCommands(m.frames)[i] == FrameCmd(f);
  }

  lemma {:induction false} FramesOfBody(codec: Codec, body: seq<Event>)
    ensures BodyMeaning(codec, body).frames == DecodeAll(FrameDecoderOf(codec), BodyBytes(body)).frames
  {}

  /** What reached the upstream is a first part of the payloads, and holds every frame known to be written. */
  lemma {:induction false} SentIsPrefix(payloads: seq<Chunk>, arrivals: seq<Frame>, written: seq<Chunk>, sent: Chunk)
    requires Reorder.Genuine(arrivals, payloads) && InOrder(0, arrivals, written, sent)
    ensures sent <= Flatten(payloads) && written <= payloads && Flatten(written) <= sent
  {
    Reorder.ReleasesPrefix(arrivals, payloads);
    InOrderMeans(0, arrivals, written, sent);
    var out := Reorder.ArriveAll(Reorder.Start(0), arrivals).out;
    FlattenPrefix(out, payloads);
    PrefixTrans(sent, Flatten(out), Flatten(payloads));
    assert written <= payloads;
  }

  /** The request with that acknowledgement was complete, and every payload up to the greatest number of its body has been sent. */
  ghost predicate Confirmed(codec: Codec, bodies: seq<seq<Event>>, payloads: seq<Chunk>, sent: Chunk, ack: nat) {
    && ack < |bodies|
    && var m := BodyMeaning(codec, bodies[ack]);
       m.Complete? && m.maxSeq < |payloads| && Flatten(payloads[..m.maxSeq + 1]) <= sent
  }

  /** Every payload has arrived in some body. */
  ghost predicate AllArrive(codec: Codec, bodies: seq<seq<Event>>, count: nat) {
    forall k: nat :: k < count ==> Arrives(codec, bodies, k)
  }

  ghost predicate Arrives(codec: Codec, bodies: seq<seq<Event>>, k: nat) {
    exists a: nat :: a < |bodies| && ArrivesIn(codec, bodies[a], k)
  }

  ghost predicate ArrivesIn(codec: Codec, body: seq<Event>, k: nat) {
    HasNumber(BodyMeaning(codec, body).frames, k)
  }

  ghost predicate HasNumber(frames: seq<Frame>, k: nat) {
    exists f :: f in frames && f.seqNo == k
  }

  /** Every complete request that held a frame was granted. */
  ghost predicate AllConfirmed(codec: Codec, bodies: seq<seq<Event>>, replies: seq<Reply>) {
    forall a: nat {:trigger bodies[a]} :: 1 <= a < |bodies| ==>
      var m := BodyMeaning(codec, bodies[a]); m.Complete? && m.frames != [] ==> Granted(a, m.maxSeq) in replies
  }

  /** The server's side: bodies read at the same time, their commands interleaved in any way, and the actor run on them. On a live connection
      the actor takes all commands unless there are more frames, bytes or requests than it has room for; and when it has taken all, and
      every frame has arrived, everything has been sent and every request granted. */
  method ServerReceives(live: bool, codec: Codec, bodies: seq<seq<Event>>, schedule: seq<nat>, ghost wires: seq<Chunk>, ghost payloads: seq<Chunk>)
    returns (sent: Chunk, replies: seq<Reply>, end: Ending, all: bool)
    requires Sends(FrameDecoderOf(codec), wires, payloads) && forall a :: 0 <= a < |bodies| ==> CarriesPart(bodies[a], wires)
    ensures sent <= Flatten(payloads)
    ensures forall r :: r in replies && r.Granted? ==> Confirmed(codec, bodies, payloads, sent, r.ack)
    ensures (forall a: nat :: a < |bodies| ==> multiset(schedule)[a] > |BodyMeaning(codec, bodies[a]).frames|) ==> all
    ensures live ==> end.Complete? || OverLimits(payloads, |bodies|)
    ensures end.Complete? && all && AllArrive(codec, bodies, |payloads|) ==> sent == Flatten(payloads) && AllConfirmed(codec, bodies, replies)
  {
    var lists := ReadBodies(codec, bodies);
    var cmds;
    cmds, all := Interleave(lists, schedule);
    var actor := new Actor(0);
    var used;
    used, end := actor.RunActor(live, cmds);
    sent, replies := actor.sent, actor.replies;
    ghost var taken := cmds[..used];
    AllFromBodies(codec, bodies, lists, cmds, used);
    ArrivalsGenuine(codec, bodies, taken, actor.arrivals, wires, payloads);
    SentIsPrefix(payloads, actor.arrivals, actor.written, sent);
    forall r | r in replies && r.Granted?
      ensures Confirmed(codec, bodies, payloads, sent, r.ack)
    {
      GrantConfirmed(codec, bodies, taken, r, payloads, actor.written, sent);
    }
    EnoughTurns(codec, bodies, lists, schedule);
    EndsForLimits(live, codec, bodies, lists, cmds, used, end, wires, payloads);
    if end.Complete? && all && AllArrive(codec, bodies, |payloads|) {
      CompleteUpload(codec, bodies, lists, cmds, wires, payloads, sent, replies);
    }
  }

  /** There is more than the actor has room for. */
  ghost predicate OverLimits(payloads: seq<Chunk>, requests: nat) {
    |payloads| > MAX_PENDING_FRAMES || |Flatten(payloads)| > MAX_PENDING_BYTES || requests > MAX_EOS_WAITERS + 1
  }

  lemma {:induction false} EnoughTurns(codec: Codec, bodies: seq<seq<Event>>, lists: seq<seq<Cmd>>, schedule: seq<nat>)
    requires |lists| == |bodies| && forall a: nat :: a < |bodies| ==> lists[a] == Commands(BodyMeaning(codec, bodies[a]), a)
    ensures (forall a: nat :: a < |bodies| ==> multiset(schedule)[a] > |BodyMeaning(codec, bodies[a]).frames|) ==>
              forall a: nat :: a < |lists| ==> multiset(schedule)[a] >= |lists[a]|
  {
    forall a: nat | a < |bodies|
      ensures |lists[a]| <= |BodyMeaning(codec, bodies[a]).frames| + 1
    {
      assert lists[a] == Commands(BodyMeaning(codec, bodies[a]), a);
    }
  }

  lemma {:induction false} EndsForLimits(live: bool, codec: Codec, bodies: seq<seq<Event>>, lists: seq<seq<Cmd>>, cmds: seq<Cmd>, used: nat, end: Ending,
                                         wires: seq<Chunk>, payloads: seq<Chunk>)
    requires Sends(FrameDecoderOf(codec), wires, payloads) && forall a :: 0 <= a < |bodies| ==> CarriesPart(bodies[a], wires)
    requires |lists| == |bodies| && forall a: nat :: a < |bodies| ==> lists[a] == Commands(BodyMeaning(codec, bodies[a]), a)
    requires forall c :: c in cmds ==> exists a: nat :: a < |lists| && c in lists[a]
    requires |EosAcks(cmds)| <= Markers(lists) && used <= |cmds| && EndsRightly(live, 0, cmds, used, end)
    ensures live ==> end.Complete? || OverLimits(payloads, |bodies|)
  {
    match end {
      case Complete =>
      case TimedOut =>
      case WriteFailed =>
        AllFromBodies(codec, bodies, lists, cmds, used);
        ArrivalsGenuine(codec, bodies, cmds[..used], FrameCmds(cmds[..used]), wires, payloads);
        assert NonEmptyFrames(FrameCmds(cmds[..used]));
      case Overflowed =>
        AllFromBodies(codec, bodies, lists, cmds, used);
        var before := cmds[..used - 1];
        FrameCmdsSnoc(cmds, used - 1);
        ArrivalsGenuine(codec, bodies, cmds[..used], FrameCmds(cmds[..used]), wires, payloads);
        OverflowMeansMore(FrameCmds(before), cmds[used - 1].frame, payloads);
      case TooManyWait =>
        EosAcksPrefix(cmds, used);
        AllMarkers(codec, bodies, lists);
      case ShutDown =>
        NoShutdown(codec, bodies, lists, cmds);
    }
  }

  lemma {:induction false} NoShutdown(codec: Codec, bodies: seq<seq<Event>>, lists: seq<seq<Cmd>>, cmds: seq<Cmd>)
    requires |lists| == |bodies| && forall a: nat :: a < |bodies| ==> lists[a] == Commands(BodyMeaning(codec, bodies[a]), a)
    requires forall c :: c in cmds ==> exists a: nat :: a < |lists| && c in lists[a]
    ensures Shutdown !in cmds
  {}

  /** Genuine frames are over the limit only if there are enough of them. */
  lemma {:induction false} OverflowMeansMore(frames: seq<Frame>, f: Frame, payloads: seq<Chunk>)
    requires Reorder.Genuine(frames + [f], payloads) && OverLimit(Reorder.ArriveAll(Reorder.Start(0), frames), f)
    ensures |payloads| > MAX_PENDING_FRAMES || |Flatten(payloads)| > MAX_PENDING_BYTES
  {
    var b := Reorder.ArriveAll(Reorder.Start(0), frames);
    assert f in frames + [f] && forall g :: g in frames ==> g in frames + [f];
    Reorder.ArriveAllReflects(0, frames);
    Reorder.GenuineReceived(0, frames, payloads);
    var m := b.pending[f.seqNo := f.data];
    assert forall k :: k in m ==> k < |payloads| && m[k] == payloads[k];
    if |b.pending| >= MAX_PENDING_FRAMES {
      assert m.Keys == b.pending.Keys + {f.seqNo};
      assert |m.Keys| == |b.pending| + 1;
      KeysBelow(m.Keys, |payloads|);
    } else {
      var bound: nat :| (forall k :: k in b.pending ==> k < bound) && Reorder.Weight(b.pending, bound) + |f.data| > MAX_PENDING_BYTES;
      var hi := if bound < |payloads| then |payloads| else bound;
      Reorder.WeightGrow(b.pending, bound, hi);
      Reorder.WeightInsert(b.pending, f.seqNo, f.data, hi);
      WeightOfPart(m, hi, payloads);
    }
  }

  lemma {:induction false} KeysBelow(ks: set<nat>, n: nat)
    requires forall k :: k in ks ==> k < n
    ensures |ks| <= n
  {
    if n > 0 {
      KeysBelow(ks - {n - 1}, n - 1);
    } else {
      assert ks == {};
    }
  }

  lemma {:induction false} WeightOfPart(m: map<nat, Chunk>, hi: nat, payloads: seq<Chunk>)
    requires forall k :: k in m ==> k < |payloads| && m[k] == payloads[k]
    ensures Reorder.Weight(m, hi) <= |Flatten(if hi < |payloads| then payloads[..hi] else payloads)|
  {
    if hi > 0 {
      WeightOfPart(m, hi - 1, payloads);
      if hi <= |payloads| {
        assert payloads[..hi] == payloads[..hi - 1] + [payloads[hi - 1]];
        FlattenSnoc(payloads[..hi - 1], payloads[hi - 1]);
        assert hi == |payloads| ==> payloads[..hi] == payloads;
      }
    }
  }

  lemma {:induction false} FrameCmdsHas(cmds: seq<Cmd>, f: Frame)
    requires FrameCmd(f) in cmds
    ensures f in FrameCmds(cmds)
    decreases |cmds|
  {
    var n := |cmds| - 1;
    if cmds[n] != FrameCmd(f) {
      assert FrameCmd(f) in cmds[..n];
      FrameCmdsHas(cmds[..n], f);
    }
  }

  /** With every command taken and every payload arrived, everything has been sent, and every request granted. */
  lemma {:induction false} CompleteUpload(codec: Codec, bodies: seq<seq<Event>>, lists: seq<seq<Cmd>>, cmds: seq<Cmd>, wires: seq<Chunk>, payloads: seq<Chunk>,
                                          sent: Chunk, replies: seq<Reply>)
    requires Sends(FrameDecoderOf(codec), wires, payloads) && forall a :: 0 <= a < |bodies| ==> CarriesPart(bodies[a], wires)
    requires |lists| == |bodies| && forall a: nat :: a < |bodies| ==> lists[a] == Commands(BodyMeaning(codec, bodies[a]), a)
    requires forall c :: c in cmds ==> exists a: nat :: a < |lists| && c in lists[a]
    requires forall a: nat :: a < |lists| ==> forall c :: c in lists[a] ==> c in cmds
    requires AllArrive(codec, bodies, |payloads|) && Completes(0, cmds, sent, replies)
    ensures sent == Flatten(payloads) && AllConfirmed(codec, bodies, replies)
  {
    AllFromBodies(codec, bodies, lists, cmds, |cmds|);
    assert cmds[..|cmds|] == cmds;
    ArrivalsGenuine(codec, bodies, cmds, FrameCmds(cmds), wires, payloads);
    forall k: nat | k < |payloads|
      ensures HasNumber(FrameCmds(cmds), k)
    {
      var f := ArrivedFrame(codec, bodies, lists, cmds, |payloads|, k);
    }
    ReleasesAll(FrameCmds(cmds), payloads);
    forall a: nat {:trigger bodies[a]} | 1 <= a < |bodies|
      ensures var m := BodyMeaning(codec, bodies[a]); m.Complete? && m.frames != [] ==> Granted(a, m.maxSeq) in replies
    {
      var m := BodyMeaning(codec, bodies[a]);
      if m.Complete? && m.frames != [] {
        MarkerTaken(codec, bodies, lists, cmds, a, wires, payloads);
      }
    }
  }

  lemma {:induction false} ArrivedFrame(codec: Codec, bodies: seq<seq<Event>>, lists: seq<seq<Cmd>>, cmds: seq<Cmd>, count: nat, k: nat) returns (f: Frame)
    requires |lists| == |bodies| && forall a: nat :: a < |bodies| ==> lists[a] == Commands(BodyMeaning(codec, bodies[a]), a)
    requires forall a: nat :: a < |lists| ==> forall c :: c in lists[a] ==> c in cmds
    requires AllArrive(codec, bodies, count) && k < count
    ensures f in FrameCmds(cmds) && f.seqNo == k
  {
    assert Arrives(codec, bodies, k);
    var a: nat :| a < |bodies| && ArrivesIn(codec, bodies[a], k);
    var m := BodyMeaning(codec, bodies[a]);
    f :| f in m.frames && f.seqNo == k;
    var i :| 0 <= i < |m.frames| && m.frames[i] == f;
    assert lists[a] == Commands(m, a) && lists[a][i] == FrameCmd(f);
    FrameCmdsHas(cmds, f);
  }

  /** The marker of a complete body was handed over, and asks for a number that exists. */
  lemma {:induction false} MarkerTaken(codec: Codec, bodies: seq<seq<Event>>, lists: seq<seq<Cmd>>, cmds: seq<Cmd>, a: nat, wires: seq<Chunk>, payloads: seq<Chunk>)
    requires Sends(FrameDecoderOf(codec), wires, payloads) && a < |bodies| && CarriesPart(bodies[a], wires)
    requires |lists| == |bodies| && lists[a] == Commands(BodyMeaning(codec, bodies[a]), a) && 1 <= a
    requires forall c :: c in lists[a] ==> c in cmds
    requires BodyMeaning(codec, bodies[a]).Complete? && BodyMeaning(codec, bodies[a]).frames != []
    ensures var m := BodyMeaning(codec, bodies[a]); Eos(m.maxSeq, a) in cmds && m.maxSeq < |payloads|
  {
    var m := BodyMeaning(codec, bodies[a]);
    assert lists[a][|m.frames|] == Eos(m.maxSeq, a);
    FramesOfBody(codec, bodies[a]);
    var lo: nat, hi: nat :| lo <= hi <= |wires| && BodyBytes(bodies[a]) <= Flatten(wires[lo..hi]);
    PartGenuine(FrameDecoderOf(codec), wires, payloads, lo, hi, BodyBytes(bodies[a]));
    MaxSeqBelow(m.frames, |payloads|);
  }

  lemma {:induction false} MaxSeqBelow(frames: seq<Frame>, n: nat)
    requires forall f :: f in frames ==> f.seqNo < n
    ensures frames != [] ==> MaxSeq(frames) < n
    decreases |frames|
  {
    if frames != [] {
      assert frames[|frames| - 1] in frames;
      MaxSeqBelow(frames[..|frames| - 1], n);
    }
  }

  /** When every number has arrived, everything is released. */
  lemma {:induction false} ReleasesAll(frames: seq<Frame>, payloads: seq<Chunk>)
    requires Reorder.Genuine(frames, payloads) && forall k: nat :: k < |payloads| ==> HasNumber(frames, k)
    ensures Reorder.ArriveAll(Reorder.Start(0), frames).out == payloads && Reorder.ArriveAll(Reorder.Start(0), frames).next == |payloads|
  {
    var b := Reorder.ArriveAll(Reorder.Start(0), frames);
    Reorder.ReleasesPrefix(frames, payloads);
    Reorder.ReleasedCount(0, frames);
    Reorder.ArriveAllReflects(0, frames);
    Reorder.ReceivedIsTheFrames(0, frames);
    assert b.next < |payloads| ==> HasNumber(frames, b.next);
  }

  lemma {:induction false} AllFromBodies(codec: Codec, bodies: seq<seq<Event>>, lists: seq<seq<Cmd>>, cmds: seq<Cmd>, used: nat)
    requires used <= |cmds| && forall c :: c in cmds ==> exists a: nat :: a < |lists| && c in lists[a]
    requires |lists| == |bodies| && forall a: nat :: a < |bodies| ==> lists[a] == Commands(BodyMeaning(codec, bodies[a]), a)
    ensures FromBodies(codec, bodies, cmds[..used])
  {
    forall c | c in cmds[..used]
      ensures exists a: nat :: a < |bodies| && c in Commands(BodyMeaning(codec, bodies[a]), a)
    {
      assert c in cmds;
      var a: nat :| a < |lists| && c in lists[a];
      assert lists[a] == Commands(BodyMeaning(codec, bodies[a]), a);
    }
  }

  lemma {:induction false} GrantConfirmed(codec: Codec, bodies: seq<seq<Event>>, cmds: seq<Cmd>, r: Reply, payloads: seq<Chunk>, written: seq<Chunk>, sent: Chunk)
    requires FromBodies(codec, bodies, cmds) && r.Granted? && Eos(r.maxSeq, r.ack) in cmds && r.maxSeq < |written|
    requires written <= payloads && Flatten(written) <= sent
    ensures Confirmed(codec, bodies, payloads, sent, r.ack)
  {
    var c := Eos(r.maxSeq, r.ack);
    var a: nat :| a < |bodies| && c in Commands(BodyMeaning(codec, bodies[a]), a);
    var m := BodyMeaning(codec, bodies[a]);
    MarkerOf(m, a, r.maxSeq, r.ack);
    WrittenUpTo(payloads, written, sent, m.maxSeq + 1);
    ConfirmedBy(codec, bodies, payloads, sent, r.ack, m);
  }

  lemma {:induction false} ConfirmedBy(codec: Codec, bodies: seq<seq<Event>>, payloads: seq<Chunk>, sent: Chunk, ack: nat, m: BodyOutcome)
    requires ack < |bodies| && m == BodyMeaning(codec, bodies[ack])
    requires m.Complete? && m.maxSeq < |payloads| && Flatten(payloads[..m.maxSeq + 1]) <= sent
    ensures Confirmed(codec, bodies, payloads, sent, ack)
  {}

  lemma {:induction false} MarkerOf(m: BodyOutcome, a: nat, maxSeq: nat, ack: nat)
    requires Eos(maxSeq, ack) in Commands(m, a)
    ensures m.Complete? && m.maxSeq == maxSeq && a == ack
  {
    assert Eos(maxSeq, ack) !in FrameCommands(m.frames);
  }

  lemma {:induction false} WrittenUpTo(payloads: seq<Chunk>, written: seq<Chunk>, sent: Chunk, n: nat)
    requires n <= |written| && written <= payloads && Flatten(written) <= sent
    ensures Flatten(payloads[..n]) <= sent
  {
    assert payloads[..n] == written[..n];
    FlattenPrefix(written[..n], written);
    PrefixTrans(Flatten(written[..n]), Flatten(written), sent);
  }

  // ---------------------------------------------------------------- end to end

  /** How a body fares: which frames it was made of, how much of it arrives, in what pieces, and whether it then breaks off. */
  datatype Trip = Trip(lo: nat, hi: nat, cut: nat, split: seq<nat>, breaks: bool)

  function Chop(bytes: Chunk, split: seq<nat>): seq<Event> {
    if split == [] then [Data(bytes)]
    else if split[0] == 0 then [Wait] + Chop(bytes, split[1..])
    else if |bytes| <= split[0] then [Data(bytes)]
    else [Data(bytes[..split[0]])] + Chop(bytes[split[0]..], split[1..])
  }

  function Arrival(bytes: Chunk, t: Trip): seq<Event> {
    Chop(if t.cut < |bytes| then bytes[..t.cut] else bytes, t.split) + if t.breaks then [Broken] else []
  }

  lemma {:induction false} ChopBytes(bytes: Chunk, split: seq<nat>, tail: seq<Event>)
    requires BodyBytes(tail) == []
    ensures BodyBytes(Chop(bytes, split) + tail) == bytes
    decreases |split|
  {
    if split == [] || (split[0] > 0 && |bytes| <= split[0]) {
      LastEvent(bytes, tail);
    } else if split[0] == 0 {
      ChopBytes(bytes, split[1..], tail);
      FirstEvent(Wait, Chop(bytes, split[1..]), tail, bytes, bytes);
    } else {
      var n := split[0];
      ChopBytes(bytes[n..], split[1..], tail);
      FirstEvent(Data(bytes[..n]), Chop(bytes[n..], split[1..]), tail, bytes[n..], bytes);
    }
  }

  lemma {:induction false} LastEvent(bytes: Chunk, tail: seq<Event>)
    requires BodyBytes(tail) == []
    ensures BodyBytes([Data(bytes)] + tail) == bytes
  {
    assert ([Data(bytes)] + tail)[1..] == tail && bytes + [] == bytes;
  }

  lemma {:induction false} FirstEvent(e: Event, es: seq<Event>, tail: seq<Event>, rest: Chunk, bytes: Chunk)
    requires !e.Broken? && BodyBytes(es + tail) == rest && EventBytes(e) + rest == bytes
    ensures BodyBytes([e] + es + tail) == bytes
  {
    var all := [e] + es + tail;
    assert all[0] == e && all[1..] == es + tail;
  }

  lemma {:induction false} ArrivalBytes(bytes: Chunk, t: Trip)
    ensures BodyBytes(Arrival(bytes, t)) <= bytes
  {
    ChopBytes(if t.cut < |bytes| then bytes[..t.cut] else bytes, t.split, if t.breaks then [Broken] else []);
  }

  /** The body of a trip: consecutive shaped frames. */
  function BodyOf(frames: seq<Chunk>, t: Trip): Chunk {
    if t.lo <= t.hi <= |frames| then Flatten(frames[t.lo..t.hi]) else []
  }

  lemma {:induction false} TripCarries(wires: seq<Chunk>, frames: seq<Chunk>, t: Trip)
    requires |frames| <= |wires| && wires[|wires| - |frames|..] == frames
    ensures CarriesPart(Arrival(BodyOf(frames, t), t), wires)
  {
    ArrivalBytes(BodyOf(frames, t), t);
    var k := |wires| - |frames|;
    if t.lo <= t.hi <= |frames| {
      SliceOfTail(wires, k, t.lo, t.hi);
    } else {
      SliceOfTail(wires, k, 0, 0);
    }
  }

  lemma {:induction false} SliceOfTail(wires: seq<Chunk>, k: nat, lo: nat, hi: nat)
    requires k <= |wires| && lo <= hi <= |wires| - k
    ensures wires[k + lo..k + hi] == wires[k..][lo..hi]
  {}

  /** The request that sets up the tunnel carries the early data, and the later ones their frames. */
  method SendBodies(early: Chunk, frames: seq<Chunk>, first: Trip, trips: seq<Trip>, ghost wires: seq<Chunk>) returns (bodies: seq<seq<Event>>)
    requires |frames| <= |wires| && wires[|wires| - |frames|..] == frames && early == Flatten(wires[..|wires| - |frames|])
    ensures forall a :: 0 <= a < |bodies| ==> CarriesPart(bodies[a], wires)
    ensures SentAs(bodies, early, frames, first, trips)
  {
    bodies := [Arrival(early, first)];
    ArrivalBytes(early, first);
    assert wires[..|wires| - |frames|] == wires[0..|wires| - |frames|];
    for i := 0 to |trips|
      invariant forall a :: 0 <= a < |bodies| ==> CarriesPart(bodies[a], wires)
      invariant SentAs(bodies, early, frames, first, trips[..i])
    {
      TripCarries(wires, frames, trips[i]);
      SentMore(bodies, early, frames, first, trips, i);
      bodies := bodies + [Arrival(BodyOf(frames, trips[i]), trips[i])];
    }
    assert trips[..|trips|] == trips;
  }

  lemma {:induction false} SentMore(bodies: seq<seq<Event>>, early: Chunk, frames: seq<Chunk>, first: Trip, trips: seq<Trip>, i: nat)
    requires i < |trips| && SentAs(bodies, early, frames, first, trips[..i])
    ensures SentAs(bodies + [Arrival(BodyOf(frames, trips[i]), trips[i])], early, frames, first, trips[..i + 1])
  {}

  /** All bodies arrive as they were sent, and between them they hold every frame. */
  ghost predicate AllWhole(early: Chunk, frames: seq<Chunk>, first: Trip, trips: seq<Trip>) {
    && !first.breaks && first.cut >= |early|
    && (forall i :: 0 <= i < |trips| ==> trips[i].lo < trips[i].hi <= |frames| && !trips[i].breaks && trips[i].cut >= |BodyOf(frames, trips[i])|)
    && (forall k: nat :: k < |frames| ==> IsHeld(trips, k))
  }

  ghost predicate IsHeld(trips: seq<Trip>, k: nat) {
    exists i :: 0 <= i < |trips| && trips[i].lo <= k < trips[i].hi
  }

  lemma {:induction false} ArrivalWhole(bytes: Chunk, t: Trip)
    requires !t.breaks && t.cut >= |bytes|
    ensures BodyBytes(Arrival(bytes, t)) == bytes && Broken !in Arrival(bytes, t)
  {
    ChopBytes(bytes, t.split, []);
    ChopUnbroken(bytes, t.split);
    assert Chop(bytes, t.split) + [] == Chop(bytes, t.split);
  }

  lemma {:induction false} ChopUnbroken(bytes: Chunk, split: seq<nat>)
    ensures Broken !in Chop(bytes, split)
    decreases |split|
  {
    if split != [] {
      if split[0] == 0 {
        ChopUnbroken(bytes, split[1..]);
      } else if |bytes| > split[0] {
        ChopUnbroken(bytes[split[0]..], split[1..]);
      }
    }
  }

  /** A body of consecutive frames that arrives whole is complete and holds them. */
  lemma {:induction false} WholeMeans(codec: Codec, wires: seq<Chunk>, payloads: seq<Chunk>, lo: nat, hi: nat, body: seq<Event>)
    requires Sends(FrameDecoderOf(codec), wires, payloads) && lo <= hi <= |wires|
    requires BodyBytes(body) == Flatten(wires[lo..hi]) && Broken !in body
    ensures var m := BodyMeaning(codec, body); m.Complete? && m.frames == Numbered(0, payloads)[lo..hi]
  {
    DecodeConcat(FrameDecoderOf(codec), wires[lo..hi], Numbered(0, payloads)[lo..hi]);
  }

  lemma {:induction false} WholeArrives(codec: Codec, wires: seq<Chunk>, payloads: seq<Chunk>, lo: nat, hi: nat, body: seq<Event>, k: nat)
    requires Sends(FrameDecoderOf(codec), wires, payloads) && lo <= k < hi <= |wires|
    requires BodyBytes(body) == Flatten(wires[lo..hi]) && Broken !in body
    ensures ArrivesIn(codec, body, k)
  {
    WholeMeans(codec, wires, payloads, lo, hi, body);
    assert Numbered(0, payloads)[lo..hi][k - lo] in BodyMeaning(codec, body).frames;
  }

  ghost predicate SentAs(bodies: seq<seq<Event>>, early: Chunk, frames: seq<Chunk>, first: Trip, trips: seq<Trip>) {
    && |bodies| == 1 + |trips| && bodies[0] == Arrival(early, first)
    && forall i :: 0 <= i < |trips| ==> bodies[1 + i] == Arrival(BodyOf(frames, trips[i]), trips[i])
  }

  /** Whole bodies that hold every frame between them bring every payload. */
  lemma {:induction false} AllWholeArrive(codec: Codec, wires: seq<Chunk>, payloads: seq<Chunk>, bodies: seq<seq<Event>>,
                                          early: Chunk, frames: seq<Chunk>, first: Trip, trips: seq<Trip>)
    requires Sends(FrameDecoderOf(codec), wires, payloads) && SentAs(bodies, early, frames, first, trips) && AllWhole(early, frames, first, trips)
    requires |frames| <= |wires| && wires[|wires| - |frames|..] == frames && early == Flatten(wires[..|wires| - |frames|])
    ensures AllArrive(codec, bodies, |payloads|)
  {
    forall k: nat | k < |payloads|
      ensures Arrives(codec, bodies, k)
    {
      if k < |wires| - |frames| {
        EarlyArrives(codec, wires, payloads, early, |wires| - |frames|, first, k);
        assert ArrivesIn(codec, bodies[0], k);
      } else {
        assert IsHeld(trips, k - (|wires| - |frames|));
        var i :| 0 <= i < |trips| && trips[i].lo <= k - (|wires| - |frames|) < trips[i].hi;
        TripArrives(codec, wires, payloads, frames, trips[i], k);
        assert ArrivesIn(codec, bodies[1 + i], k);
      }
    }
  }

  lemma {:induction false} EarlyArrives(codec: Codec, wires: seq<Chunk>, payloads: seq<Chunk>, early: Chunk, n: nat, first: Trip, k: nat)
    requires Sends(FrameDecoderOf(codec), wires, payloads) && k < n <= |wires| && early == Flatten(wires[..n]) && !first.breaks && first.cut >= |early|
    ensures ArrivesIn(codec, Arrival(early, first), k)
  {
    assert wires[..n] == wires[0..n];
    BytesArrive(codec, wires, payloads, 0, n, early, first, k);
  }

  lemma {:induction false} TripArrives(codec: Codec, wires: seq<Chunk>, payloads: seq<Chunk>, frames: seq<Chunk>, t: Trip, k: nat)
    requires Sends(FrameDecoderOf(codec), wires, payloads) && |frames| <= |wires| && wires[|wires| - |frames|..] == frames
    requires t.hi <= |frames| && !t.breaks && t.cut >= |BodyOf(frames, t)| && t.lo <= k - (|wires| - |frames|) < t.hi
    ensures ArrivesIn(codec, Arrival(BodyOf(frames, t), t), k)
  {
    var n := |wires| - |frames|;
    SliceOfTail(wires, n, t.lo, t.hi);
    BytesArrive(codec, wires, payloads, n + t.lo, n + t.hi, BodyOf(frames, t), t, k);
  }

  lemma {:induction false} BytesArrive(codec: Codec, wires: seq<Chunk>, payloads: seq<Chunk>, lo: nat, hi: nat, bytes: Chunk, t: Trip, k: nat)
    requires Sends(FrameDecoderOf(codec), wires, payloads) && lo <= k < hi <= |wires| && bytes == Flatten(wires[lo..hi])
    requires !t.breaks && t.cut >= |bytes|
    ensures ArrivesIn(codec, Arrival(bytes, t), k)
  {
    ArrivalWhole(bytes, t);
    WholeArrives(codec, wires, payloads, lo, hi, Arrival(bytes, t), k);
  }

  /** An upload from end to end, for every stream, every configuration, every way the bodies fare and every interleaving of the requests: what
      reaches the upstream server is a first part of what the client read, and a request is confirmed only if its body arrived whole and
      everything up to its last frame has been sent. On a live connection the server takes everything that is handed to it, unless
      there is more than it has room for. When it does, every request had its turns, and the bodies arrive whole and hold every frame,
      then everything that was sealed has been sent, all of the stream if the client came to its end, and every request is confirmed. */
  method UploadAll(live: bool, sc: Config, initial: Chunk, later: Chunk, polls: nat, first: Trip, trips: seq<Trip>, schedule: seq<nat>)
    returns (early: Chunk, frames: seq<Chunk>, last: SealPoll, bodies: seq<seq<Event>>, sent: Chunk, replies: seq<Reply>, end: Ending, all: bool,
             ghost payloads: seq<Chunk>)
    requires Resolved(sc) && Lawful(sc.codec) && |initial| + polls <= SEQ_LIMIT
    ensures SentAs(bodies, early, frames, first, trips)
    ensures sent <= Flatten(payloads) <= initial + later && (last.Ended? ==> Flatten(payloads) == initial + later)
    ensures forall r :: r in replies && r.Granted? ==> Confirmed(sc.codec, bodies, payloads, sent, r.ack)
    ensures (forall a: nat :: a < |bodies| ==> multiset(schedule)[a] > |BodyMeaning(sc.codec, bodies[a]).frames|) ==> all
    ensures live ==> end.Complete? || OverLimits(payloads, |bodies|)
    ensures end.Complete? && all && AllWhole(early, frames, first, trips) ==> sent == Flatten(payloads) && AllConfirmed(sc.codec, bodies, replies)
  {
    ghost var wires;
    early, frames, last, wires, payloads := ClientSends(sc, initial, later, polls);
    bodies := SendBodies(early, frames, first, trips, wires);
    sent, replies, end, all := ServerReceives(live, sc.codec, bodies, schedule, wires, payloads);
    if AllWhole(early, frames, first, trips) {
      AllWholeArrive(sc.codec, wires, payloads, bodies, early, frames, first, trips);
    }
  }
}
