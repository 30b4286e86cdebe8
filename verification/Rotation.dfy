/** Download rotation across both machines, without faults: the tunnel of src/server/actor/tunnel.rs and
    the download loop of src/client/actor/download_loop.rs, with one Continue outstanding at a time. Nobody
    abandons a request, no read fails, a body is dropped only after its end, and nothing stops the actor early. */
module Rotation {
  import opened Bytes
  import opened Tunnel

  const PREFETCH_LEAD_BYTES: nat := 20 * 1024 * 1024

  datatype ClientPhase = Streaming | Waiting | Complete

  /** The request for the segment after the current one. */
  datatype Request = NotAsked | InFlight | Delivered

  /** The client reads segment number `seg`, of which it has received `read` bytes; it asks under that number. */
  datatype Client = Client(phase: ClientPhase, seg: nat, read: nat, request: Request)

  datatype System = System(server: State, client: Client)

  function Initial(): System {
    System(Started(), Client(Streaming, 0, 0, NotAsked))
  }

  /** The client asks ahead only for limits above the lead, once it is within the lead of the limit. */
  predicate AsksAhead(max: Option<nat>, read: nat) {
    max.Some? && max.value > PREFETCH_LEAD_BYTES && read >= max.value - PREFETCH_LEAD_BYTES
  }

  datatype Move = Produce | DropBody | Notice | Close | Receive(n: nat) | EndOfBody | Deliver | Answer

  function All(): nat -> bool {
    (reply: nat) => true
  }

  function Last(s: State): nat
    requires s.segments != []
  {
    |s.segments| - 1
  }

  function Body(sys: System): Chunk
    requires sys.client.seg < |sys.server.segments|
  {
    Flatten(sys.server.segments[sys.client.seg].out)
  }

  predicate Can(sys: System, m: Move) {
    var s, c := sys.server, sys.client;
    && s.segments != [] && c.seg < |s.segments|
    && match m
       case Produce => s.segments[Last(s)].live && !s.segments[Last(s)].ended
       case DropBody => s.segments[Last(s)].live && s.segments[Last(s)].ended
       case Notice => Running(s) && s.tokens > 0
       case Close => s.phase == Draining
       case Receive(n) => c.phase == Streaming && 0 < n && c.read + n <= |Body(sys)|
       case EndOfBody => c.phase == Streaming && s.segments[c.seg].ended && c.read == |Body(sys)|
       case Deliver => c.request == InFlight && Running(s)
       case Answer => c.phase == Waiting && c.seg in s.answers
  }

  function Do(sys: System, m: Move, wires: seq<Chunk>, max: Option<nat>): System
    requires Can(sys, m)
  {
    var s, c := sys.server, sys.client;
    match m
    case Produce => sys.(server := Poll(s, Last(s), wires, max, Ready))
    case DropBody => sys.(server := Drop(s, Last(s)))
    case Notice => sys.(server := Done(s, All()))
    case Close => sys.(server := Cleanup(s))
    case Receive(n) =>
      sys.(client := c.(read := c.read + n,
                        request := if c.request == NotAsked && AsksAhead(max, c.read + n) then InFlight else c.request))
    case EndOfBody =>
      if ShouldRotate(max, c.read)
      then sys.(client := c.(phase := Waiting, request := if c.request == NotAsked then InFlight else c.request))
      else sys.(client := c.(phase := Complete))
    case Deliver =>
      System(Continue(s, c.seg, true), c.(request := Delivered))
    case Answer =>
      // an empty answer is an empty body, after which the client stops
      match s.answers[c.seg]
      case Some(next) => sys.(client := Client(Streaming, next, 0, NotAsked))
      case None => sys.(client := c.(phase := Complete))
  }

  // ---------------------------------------------------------------- invariant

  /** All segments before the last were parked; the last, once it ends without being parked, has put out everything. */
  ghost predicate Progressing(segments: seq<Segment>, wires: seq<Chunk>) {
    && segments != []
    && (forall j :: 0 <= j < |segments| - 1 ==> segments[j].pauses)
    && (segments[|segments| - 1].ended && !segments[|segments| - 1].pauses ==> Emitted(segments) == wires)
    && (!segments[|segments| - 1].live ==> segments[|segments| - 1].ended)
  }

  /** The server makes progress as long as the last segment was, or can still be, parked. */
  ghost predicate ServerOk(s: State) {
    && s.segments != []
    && (s.phase == Active ==> s.segmentActive)
    && (Running(s) && !LastLive(s.segments) ==> (s.slot.Some? <==> s.segments[Last(s)].pauses))
    && (!Running(s) ==> !LastLive(s.segments) && !s.segments[Last(s)].pauses)
  }

  /** The one request outstanding is on its way, queued, or answered with the segment after the client's. */
  ghost predicate Asking(c: Client, running: bool, pending: seq<nat>, answers: map<nat, Option<nat>>, count: nat) {
    && (forall r :: r in answers ==> r <= c.seg)
    && (c.seg in answers ==> c.request == Delivered && (answers[c.seg].Some? ==> answers[c.seg].value == c.seg + 1))
    && (c.seg in answers && answers[c.seg].None? ==> !running)
    && count == c.seg + (if c.seg in answers && answers[c.seg].Some? then 2 else 1)
    && (running ==> pending == if c.request == Delivered && c.seg !in answers then [c.seg] else [])
  }

  ghost predicate ClientOk(c: Client, body: nat, pauses: bool, ended: bool) {
    && c.read <= body
    && (c.phase != Streaming ==> ended && c.read == body)
    && (c.phase == Waiting ==> pauses && c.request != NotAsked)
    && (c.phase == Complete ==> !pauses)
  }

  ghost predicate Good(sys: System, wires: seq<Chunk>, max: Option<nat>) {
    var s, c := sys.server, sys.client;
    && Inv(s, wires, max) && Progressing(s.segments, wires) && ServerOk(s)
    && Asking(c, Running(s), s.pendingContinue, s.answers, |s.segments|)
    && c.seg < |s.segments|
    && ClientOk(c, |Body(sys)|, s.segments[c.seg].pauses, s.segments[c.seg].ended)
  }

  lemma {:induction false} InitialGood(wires: seq<Chunk>, max: Option<nat>)
    ensures Good(Initial(), wires, max)
  {
    StartedInv(wires, max);
  }

  lemma {:induction false} ProduceKeeps(sys: System, wires: seq<Chunk>, max: Option<nat>)
    requires Good(sys, wires, max) && Can(sys, Produce)
    ensures Good(Do(sys, Produce, wires, max), wires, max)
  {
    var s, c := sys.server, sys.client;
    var n := Last(s);
    PollKeeps(s, n, wires, max, Ready);
    var g' := PollSegment(s.segments[n], s.cancelled, wires, max, Ready);
    var extra := PollSegmentKeeps(s.segments[n], s.cancelled, wires, max, Ready);
    EmittedUpdate(s.segments, g', extra);
    FlattenAppend(s.segments[n].out, extra);
  }

  lemma {:induction false} DropKeepsGood(sys: System, wires: seq<Chunk>, max: Option<nat>)
    requires Good(sys, wires, max) && Can(sys, DropBody)
    ensures Good(Do(sys, DropBody, wires, max), wires, max)
  {
    var s := sys.server;
    DropKeeps(s, Last(s), wires, max);
    EmittedUpdate(s.segments, s.segments[Last(s)].(shaper := None, live := false), []);
  }

  /** What serving the queue comes to when at most one reply, which is open, is in it. */
  lemma {:induction false} ServeOne(s: State, alive: bool, reply: nat)
    ensures Serve(s, alive, [reply], All()) == if alive then Give(s, reply) else s.(answers := s.answers[reply := None])
    ensures Serve(s, alive, [], All()) == s
  {
    assert [reply][1..] == [];
  }

  /** The state in which a message from a dropped segment is handled, before the queue is served. */
  function Noticed(s: State): State
    requires s.tokens > 0
  {
    s.(tokens := s.tokens - 1, segmentActive := false, pendingContinue := [], phase := if s.slot.Some? then Rotating else Draining)
  }

  lemma {:induction false} DoneIs(s: State, reply: nat)
    requires s.tokens > 0 && (s.pendingContinue == [] || s.pendingContinue == [reply])
    ensures Done(s, All()) ==
      if s.pendingContinue == [] then Noticed(s)
      else if s.slot.Some? then Give(Noticed(s), reply)
      else Noticed(s).(answers := s.answers[reply := None])
  {
    ServeOne(Noticed(s), s.slot.Some?, reply);
  }

  /** Handing the parked shaper to the client that asked. */
  lemma {:induction false} HandOver(s: State, c: Client, wires: seq<Chunk>, max: Option<nat>)
    requires Inv(s, wires, max) && Progressing(s.segments, wires) && s.phase == Rotating && s.segments[Last(s)].pauses
    requires c.seg == Last(s) && c.seg !in s.answers && (forall r :: r in s.answers ==> r <= c.seg) && c.request == Delivered
    requires ClientOk(c, |Flatten(s.segments[c.seg].out)|, true, true)
    ensures Good(System(Give(s, c.seg), c), wires, max)
  {
    GiveKeeps(s, c.seg, wires, max);
    EmittedSnoc(s.segments, Fresh(s.slot.value));
    assert Give(s, c.seg).segments == s.segments + [Fresh(s.slot.value)];
    assert SegmentOk(s.segments[c.seg], max);
  }

  lemma {:induction false} NoticeKeeps(sys: System, wires: seq<Chunk>, max: Option<nat>)
    requires Good(sys, wires, max) && Can(sys, Notice)
    ensures Good(Do(sys, Notice, wires, max), wires, max)
  {
    var s, c := sys.server, sys.client;
    DoneIs(s, c.seg);
    if s.slot.Some? && s.pendingContinue != [] {
      assert SegmentOk(s.segments[c.seg], max);
      NoticedKeeps(s, wires, max);
      HandOver(Noticed(s), c, wires, max);
    } else {
      NoticeWithout(sys, wires, max);
    }
  }

  /** With nothing to hand over, or nobody to hand it to. */
  lemma {:induction false} NoticeWithout(sys: System, wires: seq<Chunk>, max: Option<nat>)
    requires Good(sys, wires, max) && Can(sys, Notice) && (sys.server.slot.None? || sys.server.pendingContinue == [])
    ensures Good(Do(sys, Notice, wires, max), wires, max)
  {
    DoneKeeps(sys.server, All(), wires, max);
    DoneIs(sys.server, sys.client.seg);
  }

  lemma {:induction false} NoticedKeeps(s: State, wires: seq<Chunk>, max: Option<nat>)
    requires Inv(s, wires, max) && s.tokens > 0 && Running(s) && s.slot.Some?
    ensures Inv(Noticed(s), wires, max)
  {}

  lemma {:induction false} CloseKeeps(sys: System, wires: seq<Chunk>, max: Option<nat>)
    requires Good(sys, wires, max) && Can(sys, Close)
    ensures Good(Do(sys, Close, wires, max), wires, max)
  {
    AfterKeeps(sys.server, Stopped, wires, max);
  }

  lemma {:induction false} EndOfBodyKeeps(sys: System, wires: seq<Chunk>, max: Option<nat>)
    requires Good(sys, wires, max) && Can(sys, EndOfBody) && forall w :: w in wires ==> w != []
    ensures Good(Do(sys, EndOfBody, wires, max), wires, max)
  {
    SegmentAgrees(sys.server.segments, sys.client.seg, wires, max);
  }

  lemma {:induction false} DeliverKeeps(sys: System, wires: seq<Chunk>, max: Option<nat>)
    requires Good(sys, wires, max) && Can(sys, Deliver)
    ensures Good(Do(sys, Deliver, wires, max), wires, max)
  {
    if sys.server.phase == Rotating {
      DeliverWhileParked(sys, wires, max);
    } else {
      DeliverWhileActive(sys, wires, max);
    }
  }

  lemma {:induction false} DeliverWhileParked(sys: System, wires: seq<Chunk>, max: Option<nat>)
    requires Good(sys, wires, max) && Can(sys, Deliver) && sys.server.phase == Rotating
    ensures Good(Do(sys, Deliver, wires, max), wires, max)
  {
    var s, c := sys.server, sys.client;
    assert SegmentOk(s.segments[c.seg], max);
    HandOver(s, c.(request := Delivered), wires, max);
  }

  lemma {:induction false} DeliverWhileActive(sys: System, wires: seq<Chunk>, max: Option<nat>)
    requires Good(sys, wires, max) && Can(sys, Deliver) && sys.server.phase != Rotating
    ensures Good(Do(sys, Deliver, wires, max), wires, max)
  {
    ContinueKeeps(sys.server, sys.client.seg, true, wires, max);
  }

  lemma {:induction false} AnswerKeeps(sys: System, wires: seq<Chunk>, max: Option<nat>)
    requires Good(sys, wires, max) && Can(sys, Answer)
    ensures Good(Do(sys, Answer, wires, max), wires, max)
    ensures sys.server.answers[sys.client.seg].Some?
  {}

  /** Every move keeps the invariant. */
  lemma {:induction false} DoKeeps(sys: System, m: Move, wires: seq<Chunk>, max: Option<nat>)
    requires Good(sys, wires, max) && Can(sys, m) && forall w :: w in wires ==> w != []
    ensures Good(Do(sys, m, wires, max), wires, max)
  {
    match m
    case Produce => ProduceKeeps(sys, wires, max);
    case DropBody => DropKeepsGood(sys, wires, max);
    case Notice => NoticeKeeps(sys, wires, max);
    case Close => CloseKeeps(sys, wires, max);
    case Receive(n) =>
    case EndOfBody => EndOfBodyKeeps(sys, wires, max);
    case Deliver => DeliverKeeps(sys, wires, max);
    case Answer => AnswerKeeps(sys, wires, max);
  }

  // ---------------------------------------------------------------- safety and completeness

  /** What the client has received, over all bodies. */
  function Received(sys: System): Chunk
    requires sys.client.seg < |sys.server.segments| && sys.client.read <= |Body(sys)|
  {
    Flatten(Emitted(sys.server.segments[..sys.client.seg])) + Body(sys)[..sys.client.read]
  }

  lemma {:induction false} EmittedTake(segments: seq<Segment>, k: nat)
    requires k <= |segments|
    ensures Emitted(segments[..k]) <= Emitted(segments)
  {
    if k < |segments| {
      var n := |segments| - 1;
      assert segments[..n][..k] == segments[..k];
      EmittedTake(segments[..n], k);
    } else {
      assert segments[..k] == segments;
    }
  }

  lemma {:induction false} EmittedThrough(segments: seq<Segment>, k: nat)
    requires k < |segments|
    ensures Flatten(Emitted(segments[..k + 1])) == Flatten(Emitted(segments[..k])) + Flatten(segments[k].out)
  {
    assert segments[..k + 1][..k] == segments[..k];
    FlattenAppend(Emitted(segments[..k]), segments[k].out);
  }

  /** At every moment the client has received a first part of what the shaper produces; and when it stops, it has all of it. */
  lemma {:induction false} ReceivedIsPrefix(sys: System, wires: seq<Chunk>, max: Option<nat>)
    requires Good(sys, wires, max)
    ensures Received(sys) <= Flatten(wires)
    ensures sys.client.phase == Complete ==> Received(sys) == Flatten(wires) && sys.client.seg == Last(sys.server)
  {
    var segments, k := sys.server.segments, sys.client.seg;
    EmittedThrough(segments, k);
    EmittedTake(segments, k + 1);
    var whole := Emitted(segments[..k + 1]);
    assert whole <= wires;
    FlattenPrefix(whole, wires);
    PrefixTrans(Received(sys), Flatten(whole), Flatten(wires));
    if sys.client.phase == Complete {
      assert segments[..k + 1] == segments;
    }
  }

  /** How far the server is from the end of its stream, once no more frames come. */
  function ServerRank(s: State): nat
    requires s.segments != []
  {
    var g := s.segments[Last(s)];
    if g.live then (if !g.ended then 4 else if g.pauses then 7 else 3)
    else
      match s.phase
      case Closed => 0
      case Draining => 1
      case Rotating => 5
      case _ => if g.pauses then 6 else 2
  }

  function PhaseRank(p: ClientPhase): nat {
    match p case Streaming => 2 case Waiting => 1 case Complete => 0
  }

  function RequestRank(r: Request): nat {
    match r case NotAsked => 2 case InFlight => 1 case Delivered => 0
  }

  datatype Measure = Measure(frames: nat, server: nat, segments: nat, phase: nat, bytes: nat, request: nat)

  ghost function MeasureOf(sys: System, wires: seq<Chunk>, max: Option<nat>): Measure
    requires Good(sys, wires, max)
  {
    Measure(|wires| - |Emitted(sys.server.segments)|, ServerRank(sys.server), |sys.server.segments| - sys.client.seg,
            PhaseRank(sys.client.phase), |Body(sys)| - sys.client.read, RequestRank(sys.client.request))
  }

  predicate Less(a: Measure, b: Measure) {
    || a.frames < b.frames
    || (a.frames == b.frames &&
        (|| a.server < b.server
         || (a.server == b.server &&
             (|| a.segments < b.segments
              || (a.segments == b.segments &&
                  (|| a.phase < b.phase
                   || (a.phase == b.phase && (a.bytes < b.bytes || (a.bytes == b.bytes && a.request < b.request)))))))))
  }

  lemma {:induction false} ServerMovesProgress(sys: System, m: Move, wires: seq<Chunk>, max: Option<nat>)
    requires Good(sys, wires, max) && Can(sys, m) && (m.Produce? || m.DropBody? || m.Notice? || m.Close?)
    ensures var s, s' := sys.server, Do(sys, m, wires, max).server;
      && s'.segments != []
      && (|Emitted(s'.segments)| > |Emitted(s.segments)| || (|Emitted(s'.segments)| == |Emitted(s.segments)| && ServerRank(s') < ServerRank(s)))
  {
    var s, c := sys.server, sys.client;
    var n := Last(s);
    match m
    case Produce =>
      var extra := PollSegmentKeeps(s.segments[n], s.cancelled, wires, max, Ready);
      EmittedUpdate(s.segments, PollSegment(s.segments[n], s.cancelled, wires, max, Ready), extra);
    case DropBody =>
      EmittedUpdate(s.segments, s.segments[n].(shaper := None, live := false), []);
    case Notice => NoticeProgresses(sys, wires, max);
    case Close =>
  }

  lemma {:induction false} NoticeProgresses(sys: System, wires: seq<Chunk>, max: Option<nat>)
    requires Good(sys, wires, max) && Can(sys, Notice)
    ensures var s, s' := sys.server, Done(sys.server, All());
      && s'.segments != [] && Emitted(s'.segments) == Emitted(s.segments) && ServerRank(s') < ServerRank(s)
  {
    var s := sys.server;
    DoneIs(s, sys.client.seg);
    NoticeRanks(s, sys.client.seg);
  }

  /** With the message taken, the rank goes down whether the queue is empty or holds a reply. */
  lemma {:induction false} NoticeRanks(s: State, reply: nat)
    requires s.segments != [] && !LastLive(s.segments) && s.phase == Active && s.tokens > 0 && (s.slot.Some? <==> s.segments[Last(s)].pauses)
    ensures ServerRank(Noticed(s)) < ServerRank(s)
    ensures s.slot.Some? ==> var s' := Give(Noticed(s), reply);
      s'.segments != [] && Emitted(s'.segments) == Emitted(s.segments) && ServerRank(s') < ServerRank(s)
  {
    if s.slot.Some? {
      GiveRanks(Noticed(s), reply);
    }
  }

  lemma {:induction false} DeliverProgresses(sys: System, wires: seq<Chunk>, max: Option<nat>)
    requires Good(sys, wires, max) && Can(sys, Deliver)
    ensures var s, s' := sys.server, Continue(sys.server, sys.client.seg, true);
      && s'.segments != [] && Emitted(s'.segments) == Emitted(s.segments)
      && (ServerRank(s') < ServerRank(s) || (ServerRank(s') == ServerRank(s) && s'.segments == s.segments))
  {
    var s := sys.server;
    if s.phase == Rotating {
      GiveRanks(s, sys.client.seg);
    }
  }

  lemma {:induction false} GiveRanks(s: State, reply: nat)
    requires s.segments != [] && !LastLive(s.segments) && s.phase == Rotating && s.slot.Some?
    ensures var s' := Give(s, reply); s'.segments != [] && Emitted(s'.segments) == Emitted(s.segments) && ServerRank(s') < ServerRank(s)
  {
    EmittedSnoc(s.segments, Fresh(s.slot.value));
  }

  /** Every move brings the system closer to the end: frames left, then the server's stage, then the client's place. */
  lemma {:induction false} MovesProgress(sys: System, m: Move, wires: seq<Chunk>, max: Option<nat>)
    requires Good(sys, wires, max) && Can(sys, m) && Good(Do(sys, m, wires, max), wires, max)
    ensures Less(MeasureOf(Do(sys, m, wires, max), wires, max), MeasureOf(sys, wires, max))
  {
    if m.Deliver? {
      DeliverProgresses(sys, wires, max);
    } else if m.Produce? || m.DropBody? || m.Notice? || m.Close? {
      ServerMovesProgress(sys, m, wires, max);
    }
  }

  /** Until the client is done, something can happen. */
  lemma {:induction false} NeverStuck(sys: System, wires: seq<Chunk>, max: Option<nat>) returns (m: Move)
    requires Good(sys, wires, max) && sys.client.phase != Complete
    ensures Can(sys, m)
  {
    var s, c := sys.server, sys.client;
    var g := s.segments[Last(s)];
    if g.live {
      return if g.ended then DropBody else Produce;
    }
    if Running(s) && s.segmentActive {
      return Notice;
    }
    assert SegmentOk(s.segments[c.seg], max);
    if c.phase == Streaming {
      m := if c.read < |Body(sys)| then Receive(|Body(sys)| - c.read) else EndOfBody;
    } else {
      m := if c.seg in s.answers then Answer else Deliver;
    }
  }

  /** One move that can happen keeps the invariant and comes closer to the end. */
  lemma {:induction false} Advance(sys: System, m: Move, wires: seq<Chunk>, max: Option<nat>)
    requires Good(sys, wires, max) && Can(sys, m) && forall w :: w in wires ==> w != []
    ensures Good(Do(sys, m, wires, max), wires, max)
    ensures Less(MeasureOf(Do(sys, m, wires, max), wires, max), MeasureOf(sys, wires, max))
  {
    DoKeeps(sys, m, wires, max);
    MovesProgress(sys, m, wires, max);
  }

  /** An unending history: as long as the client is not done, each state follows from the one before by some move that can happen. Any choice of
      moves is allowed, and the same state may be left by different moves at different times. */
  ghost predicate History(states: nat -> System, moves: nat -> Move, wires: seq<Chunk>, max: Option<nat>) {
    forall i: nat {:trigger moves(i)} :: states(i).client.phase != Complete ==> Can(states(i), moves(i)) && states(i + 1) == Do(states(i), moves(i), wires, max)
  }

  /** Whatever moves are taken, the client finishes. */
  lemma {:induction false} EveryHistoryFinishes(states: nat -> System, moves: nat -> Move, wires: seq<Chunk>, max: Option<nat>, i: nat, m: Measure)
    returns (n: nat)
    requires History(states, moves, wires, max) && Good(states(i), wires, max) && m == MeasureOf(states(i), wires, max)
    requires forall w :: w in wires ==> w != []
    ensures Good(states(n), wires, max) && states(n).client.phase == Complete
    decreases m.frames, m.server, m.segments, m.phase, m.bytes, m.request
  {
    if states(i).client.phase == Complete {
      n := i;
    } else {
      Advance(states(i), moves(i), wires, max);
      n := EveryHistoryFinishes(states, moves, wires, max, i + 1, MeasureOf(states(i + 1), wires, max));
    }
  }

  /** Rotation is complete: in every history the client stops, and then it has received the whole stream. */
  lemma {:induction false} RotationIsComplete(states: nat -> System, moves: nat -> Move, wires: seq<Chunk>, max: Option<nat>) returns (n: nat)
    requires History(states, moves, wires, max) && states(0) == Initial() && forall w :: w in wires ==> w != []
    ensures Good(states(n), wires, max) && states(n).client.phase == Complete && Received(states(n)) == Flatten(wires)
  {
    InitialGood(wires, max);
    n := EveryHistoryFinishes(states, moves, wires, max, 0, MeasureOf(Initial(), wires, max));
    ReceivedIsPrefix(states(n), wires, max);
  }

  /** Rotation carried out, one move that can happen after another; every choice ends with the whole stream received. */
  method Rotate(wires: seq<Chunk>, max: Option<nat>) returns (sys: System)
    requires forall w :: w in wires ==> w != []
    ensures Good(sys, wires, max) && sys.client.phase == Complete && Received(sys) == Flatten(wires)
  {
    sys := Initial();
    InitialGood(wires, max);
    ghost var left := MeasureOf(sys, wires, max);
    while sys.client.phase != Complete
      invariant Stands(sys, wires, max, left)
      decreases left.frames, left.server, left.segments, left.phase, left.bytes, left.request
    {
      sys, left := MoveOnce(sys, wires, max, left);
    }
    Arrives(sys, wires, max, left);
  }

  /** The invariant holds, and so much is left to do. */
  ghost predicate Stands(sys: System, wires: seq<Chunk>, max: Option<nat>, left: Measure) {
    forall t: System {:trigger Look(t)} :: Look(t) && t == sys ==> Good(t, wires, max) && left == MeasureOf(t, wires, max)
  }

  lemma {:induction false} Arrives(sys: System, wires: seq<Chunk>, max: Option<nat>, left: Measure)
    requires Stands(sys, wires, max, left) && sys.client.phase == Complete
    ensures Good(sys, wires, max) && Received(sys) == Flatten(wires)
  {
    assert Look(sys);
    ReceivedIsPrefix(sys, wires, max);
  }

  /** Any move that can happen. */
  method MoveOnce(sys: System, wires: seq<Chunk>, max: Option<nat>, ghost left: Measure) returns (next: System, ghost left': Measure)
    requires Stands(sys, wires, max, left) && sys.client.phase != Complete && forall w :: w in wires ==> w != []
    ensures Stands(next, wires, max, left') && Less(left', left)
  {
    assert Look(sys);
    ghost var some := NeverStuck(sys, wires, max);
    var m :| Can(sys, m);
    Advance(sys, m, wires, max);
    next := Do(sys, m, wires, max);
    left' := MeasureOf(next, wires, max);
  }

  ghost function AnyMove(sys: System): Move {
    if exists m :: Can(sys, m) then var m :| Can(sys, m); m else Close
  }

  ghost function Following(wires: seq<Chunk>, max: Option<nat>, i: nat): System {
    if i == 0 then Initial()
    else
      var before := Following(wires, max, i - 1);
      if Can(before, AnyMove(before)) then Do(before, AnyMove(before), wires, max) else before
  }

  lemma {:induction false} FollowingGood(wires: seq<Chunk>, max: Option<nat>, i: nat)
    requires forall w :: w in wires ==> w != []
    ensures Good(Following(wires, max, i), wires, max)
  {
    if i == 0 {
      InitialGood(wires, max);
    } else {
      FollowingGood(wires, max, i - 1);
      var before := Following(wires, max, i - 1);
      if Can(before, AnyMove(before)) {
        DoKeeps(before, AnyMove(before), wires, max);
      }
    }
  }

  ghost predicate Follows(states: nat -> System, moves: nat -> Move, wires: seq<Chunk>, max: Option<nat>) {
    && (forall i: nat {:trigger states(i)} :: states(i) == Following(wires, max, i))
    && (forall i: nat {:trigger moves(i)} :: moves(i) == AnyMove(Following(wires, max, i)))
  }

  lemma {:induction false} FollowsHistory(states: nat -> System, moves: nat -> Move, wires: seq<Chunk>, max: Option<nat>)
    requires Follows(states, moves, wires, max) && forall w :: w in wires ==> w != []
    ensures History(states, moves, wires, max)
  {
    forall i: nat {:trigger moves(i)} | states(i).client.phase != Complete
      ensures Can(states(i), moves(i)) && states(i + 1) == Do(states(i), moves(i), wires, max)
    {
      FollowingMoves(wires, max, i);
    }
  }

  /** There are such histories: until the client is done, some move can always happen. */
  lemma {:induction false} HistoryExists(wires: seq<Chunk>, max: Option<nat>) returns (states: nat -> System, moves: nat -> Move)
    requires forall w :: w in wires ==> w != []
    ensures History(states, moves, wires, max) && states(0) == Initial()
  {
    states := (i: nat) => Following(wires, max, i);
    moves := (i: nat) => AnyMove(Following(wires, max, i));
    FollowsHistory(states, moves, wires, max);
  }

  lemma {:induction false} FollowingMoves(wires: seq<Chunk>, max: Option<nat>, i: nat)
    requires (forall w :: w in wires ==> w != []) && Following(wires, max, i).client.phase != Complete
    ensures var s := Following(wires, max, i); Can(s, AnyMove(s)) && Following(wires, max, i + 1) == Do(s, AnyMove(s), wires, max)
  {
    FollowingGood(wires, max, i);
    var m := NeverStuck(Following(wires, max, i), wires, max);
  }
}
