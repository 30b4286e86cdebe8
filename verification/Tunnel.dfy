/** Download rotation on the server (src/server/actor/tunnel.rs): one shaper is handed between a slot
    and successive segments, each the body of one response. The specification functions say what every
    step does to the whole state; the invariants are proved about them, and `TunnelActor` below carries
    the steps out in place. */
module Tunnel {
  import opened Bytes

  const SEGMENT_DONE_CHANNEL_CAPACITY: nat := 2

  datatype Phase = Connecting | Active | Rotating | Draining | Closed

  /** One response body. The shaper is represented by how many of its frames it has put out; `out` is what
      the body has carried. A segment lives until it is dropped. */
  datatype Segment = Segment(shaper: Option<nat>, sent: nat, out: seq<Chunk>, pauses: bool, ended: bool, live: bool)

  /** `tokens` counts the messages in the segment-done channel; an answer is the index of the segment
      handed over, or none. */
  datatype State = State(
    phase: Phase,
    slot: Option<nat>,
    segmentActive: bool,
    pendingContinue: seq<nat>,
    tokens: nat,
    cancelled: bool,
    segments: seq<Segment>,
    answers: map<nat, Option<nat>>)

  /** After `on_upstream_connected`. */
  function Connected(): State {
    State(Active, Some(0), false, [], 0, false, [], map[])
  }

  /** The state in which `run` starts: the first segment is the body of the response that set up the tunnel. */
  function Started(): State {
    TakeSegment(Connected())
  }

  // ---------------------------------------------------------------- segments

  /** What a poll of the shaper yields: with frames left one of them, otherwise the end; or nothing yet; or an error. */
  datatype Readiness = NotYet | Ready | Fails

  function PollSegment(g: Segment, cancelled: bool, wires: seq<Chunk>, max: Option<nat>, r: Readiness): Segment {
    if g.ended then g
    else if cancelled || g.shaper.None? then g.(ended := true)
    else
      match r
      case NotYet => g
      case Fails => g.(ended := true)
      case Ready =>
        if g.shaper.value < |wires| then
          var data := wires[g.shaper.value];
          var sent := g.sent + |data|;
          var full := max.Some? && sent >= max.value;
          g.(shaper := Some(g.shaper.value + 1), sent := sent, out := g.out + [data],
             pauses := g.pauses || full, ended := full)
        else g.(ended := true)
  }

  function Poll(s: State, i: nat, wires: seq<Chunk>, max: Option<nat>, r: Readiness): State
    requires i < |s.segments|
  {
    s.(segments := s.segments[i := PollSegment(s.segments[i], s.cancelled, wires, max, r)])
  }

  /** Dropping a segment: the shaper is parked if the limit was reached and lost otherwise, and the actor is told
      unless its channel is full or gone. */
  function Drop(s: State, i: nat): State
    requires i < |s.segments|
  {
    var g := s.segments[i];
    var dropped := g.(shaper := None, live := false);
    s.(segments := s.segments[i := dropped],
       slot := if g.shaper.Some? && g.pauses && s.phase != Closed then g.shaper else s.slot,
       tokens := if g.live && s.phase != Closed && s.tokens < SEGMENT_DONE_CHANNEL_CAPACITY then s.tokens + 1 else s.tokens)
  }

  // ---------------------------------------------------------------- the actor

  function Fresh(position: nat): Segment {
    Segment(Some(position), 0, [], false, false, true)
  }

  function TakeSegment(s: State): State {
    if s.slot.None? then s
    else s.(slot := None, segmentActive := true, segments := s.segments + [Fresh(s.slot.value)])
  }

  /** Hands a segment to the one who asked, or nothing when the slot is empty; the latter ends the tunnel. */
  function Give(s: State, reply: nat): State {
    if s.slot.None? then s.(phase := Draining, answers := s.answers[reply := None])
    else TakeSegment(s).(phase := Active, answers := s.answers[reply := Some(|s.segments|)])
  }

  /** `serve_pending_continue` on the replies taken from the queue; `open` tells which are still waited for. */
  function Serve(s: State, alive: bool, replies: seq<nat>, open: nat -> bool): State
    decreases |replies|
  {
    if replies == [] then s
    else
      var s1 :=
        if !alive then s.(answers := s.answers[replies[0] := None])
        else if !open(replies[0]) then s
        else Give(s, replies[0]);
      Serve(s1, alive, replies[1..], open)
  }

  /** A message from a dropped segment. */
  function Done(s: State, open: nat -> bool): State
    requires s.tokens > 0
  {
    var alive := s.slot.Some?;
    Serve(s.(tokens := s.tokens - 1, segmentActive := false, pendingContinue := [],
             phase := if alive then Rotating else Draining),
          alive, s.pendingContinue, open)
  }

  /** `dispatch_cmd` of a Continue. */
  function Continue(s: State, reply: nat, open: bool): State {
    if s.phase == Rotating then
      if open then Give(s, reply) else s.(phase := Active)
    else if s.phase == Active && s.segmentActive then
      s.(pendingContinue := s.pendingContinue + [reply])
    else s.(answers := s.answers[reply := None])
  }

  function Cleanup(s: State): State {
    s.(phase := Closed, cancelled := true, slot := None, pendingContinue := [])
  }

  /** The actor takes messages until it is draining or closed. */
  predicate Running(s: State) {
    s.phase != Draining && s.phase != Closed
  }

  datatype Event = Polled(i: nat, r: Readiness) | Dropped(i: nat) | Finished(open: nat -> bool) | Asked(reply: nat, waiting: bool) | Stopped

  /** Which events can happen. Shutdown, a time-out or a closed channel can stop the actor at any time, and a draining
      actor does nothing but stop. */
  predicate Enabled(s: State, e: Event) {
    match e
    case Polled(i, _) => i < |s.segments| && s.segments[i].live
    case Dropped(i) => i < |s.segments| && s.segments[i].live
    case Finished(_) => Running(s) && s.tokens > 0
    case Asked(_, _) => Running(s)
    case Stopped => s.phase != Closed
  }

  function After(s: State, e: Event, wires: seq<Chunk>, max: Option<nat>): State
    requires Enabled(s, e)
  {
    match e
    case Polled(i, r) => Poll(s, i, wires, max, r)
    case Dropped(i) => Drop(s, i)
    case Finished(open) => Done(s, open)
    case Asked(reply, open) => Continue(s, reply, open)
    case Stopped => Cleanup(s)
  }

  // ---------------------------------------------------------------- what every run keeps

  function LiveCount(segments: seq<Segment>): nat {
    if segments == [] then 0
    else
      var n := |segments| - 1;
      LiveCount(segments[..n]) + if segments[n].live then 1 else 0
  }

  /** Everything the bodies have carried, in the order of the segments. */
  function Emitted(segments: seq<Segment>): seq<Chunk> {
    if segments == [] then []
    else
      var n := |segments| - 1;
      Emitted(segments[..n]) + segments[n].out
  }

  /** When the rotation limit stops a segment. */
  predicate Parks(max: Option<nat>, out: seq<Chunk>) {
    max.Some? && out != [] && |Flatten(out)| >= max.value
  }

  ghost predicate SegmentOk(g: Segment, max: Option<nat>) {
    && g.sent == |Flatten(g.out)|
    && (g.pauses <==> Parks(max, g.out))
    && (g.pauses ==> g.ended)
    && (g.live <==> g.shaper.Some?)
  }

  predicate LastLive(segments: seq<Segment>) {
    segments != [] && segments[|segments| - 1].live
  }

  /** Only the last segment can be live, and its shaper stands right after everything put out so far. */
  ghost predicate SegmentsOk(segments: seq<Segment>, wires: seq<Chunk>, max: Option<nat>) {
    && (forall i :: 0 <= i < |segments| ==> SegmentOk(segments[i], max))
    && (forall i :: 0 <= i < |segments| - 1 ==> !segments[i].live)
    && Emitted(segments) <= wires
    && (LastLive(segments) ==> segments[|segments| - 1].shaper == Some(|Emitted(segments)|))
  }

  /** Where the token, the shaper and the phase stand to each other while the actor runs. */
  ghost predicate Placed(phase: Phase, slot: Option<nat>, segmentActive: bool, pending: seq<nat>, tokens: nat, live: bool) {
    && (live ==> slot.None?)
    && (phase != Closed ==> tokens + (if live then 1 else 0) == if segmentActive then 1 else 0)
    && (phase == Rotating ==> slot.Some? && !segmentActive)
    && (phase == Active ==> segmentActive || slot.Some?)
    && (pending != [] ==> phase == Active && segmentActive)
    && (phase == Closed ==> slot.None?)
    && phase != Connecting
  }

  ghost predicate Inv(s: State, wires: seq<Chunk>, max: Option<nat>) {
    && SegmentsOk(s.segments, wires, max)
    && (s.slot.Some? ==> s.slot.value == |Emitted(s.segments)|)
    && Placed(s.phase, s.slot, s.segmentActive, s.pendingContinue, s.tokens, LastLive(s.segments))
    && (s.cancelled <==> s.phase == Closed)
  }

  lemma {:induction false} EmittedUpdate(segments: seq<Segment>, g: Segment, extra: seq<Chunk>)
    requires segments != [] && g.out == segments[|segments| - 1].out + extra
    ensures Emitted(segments[|segments| - 1 := g]) == Emitted(segments) + extra
  {
    var n := |segments| - 1;
    assert segments[n := g][..n] == segments[..n];
  }

  lemma {:induction false} EmittedSnoc(segments: seq<Segment>, g: Segment)
    ensures Emitted(segments + [g]) == Emitted(segments) + g.out
  {
    assert (segments + [g])[..|segments|] == segments;
  }

  /** A poll adds at most the next frame to what the body has carried, and keeps the segment in order. */
  lemma {:induction false} PollSegmentKeeps(g: Segment, cancelled: bool, wires: seq<Chunk>, max: Option<nat>, r: Readiness) returns (extra: seq<Chunk>)
    requires SegmentOk(g, max) && g.live
    ensures var g' := PollSegment(g, cancelled, wires, max, r);
      && SegmentOk(g', max) && g'.live && g'.out == g.out + extra
      && (extra == [] || (g.shaper.value < |wires| && extra == [wires[g.shaper.value]]))
      && g'.shaper == Some(g.shaper.value + |extra|)
  {
    var g' := PollSegment(g, cancelled, wires, max, r);
    if g'.out == g.out {
      extra := [];
    } else {
      extra := [wires[g.shaper.value]];
      FlattenSnoc(g.out, wires[g.shaper.value]);
    }
  }

  lemma {:induction false} PollKeeps(s: State, i: nat, wires: seq<Chunk>, max: Option<nat>, r: Readiness)
    requires Inv(s, wires, max) && Enabled(s, Polled(i, r))
    ensures Inv(Poll(s, i, wires, max, r), wires, max)
  {
    var g := s.segments[i];
    var g' := PollSegment(g, s.cancelled, wires, max, r);
    assert i == |s.segments| - 1;
    var extra := PollSegmentKeeps(g, s.cancelled, wires, max, r);
    EmittedUpdate(s.segments, g', extra);
  }

  lemma {:induction false} DropKeeps(s: State, i: nat, wires: seq<Chunk>, max: Option<nat>)
    requires Inv(s, wires, max) && Enabled(s, Dropped(i))
    ensures Inv(Drop(s, i), wires, max)
    ensures s.phase != Closed ==> Drop(s, i).tokens == s.tokens + 1
  {
    assert i == |s.segments| - 1;
    EmittedUpdate(s.segments, s.segments[i].(shaper := None, live := false), []);
  }

  /** The state while queued replies are served: nothing is queued, and no message is under way. */
  ghost predicate Serving(s: State, wires: seq<Chunk>, max: Option<nat>) {
    Inv(s, wires, max) && s.tokens == 0 && s.pendingContinue == []
  }

  lemma {:induction false} GiveKeeps(s: State, reply: nat, wires: seq<Chunk>, max: Option<nat>)
    requires Inv(s, wires, max) && s.phase != Closed && s.tokens == 0 && s.pendingContinue == []
    requires s.slot.Some? ==> !s.segmentActive
    ensures Serving(Give(s, reply), wires, max)
    ensures Give(s, reply).slot.None? && Give(s, reply).phase != Closed
  {
    if s.slot.Some? {
      EmittedSnoc(s.segments, Fresh(s.slot.value));
    }
  }

  lemma {:induction false} ServeKeeps(s: State, alive: bool, replies: seq<nat>, open: nat -> bool, wires: seq<Chunk>, max: Option<nat>)
    requires Serving(s, wires, max) && s.phase != Closed && (s.slot.Some? ==> !s.segmentActive)
    ensures Serving(Serve(s, alive, replies, open), wires, max)
    decreases |replies|
  {
    if replies != [] {
      if !alive {
        ServeKeeps(s.(answers := s.answers[replies[0] := None]), alive, replies[1..], open, wires, max);
      } else if !open(replies[0]) {
        ServeKeeps(s, alive, replies[1..], open, wires, max);
      } else {
        GiveKeeps(s, replies[0], wires, max);
        ServeKeeps(Give(s, replies[0]), alive, replies[1..], open, wires, max);
      }
    }
  }

  lemma {:induction false} DoneKeeps(s: State, open: nat -> bool, wires: seq<Chunk>, max: Option<nat>)
    requires Inv(s, wires, max) && Enabled(s, Finished(open))
    ensures Inv(Done(s, open), wires, max)
  {
    var alive := s.slot.Some?;
    var s1 := s.(tokens := s.tokens - 1, segmentActive := false, pendingContinue := [],
                 phase := if alive then Rotating else Draining);
    ServeKeeps(s1, alive, s.pendingContinue, open, wires, max);
  }

  lemma {:induction false} ContinueKeeps(s: State, reply: nat, open: bool, wires: seq<Chunk>, max: Option<nat>)
    requires Inv(s, wires, max) && Enabled(s, Asked(reply, open))
    ensures Inv(Continue(s, reply, open), wires, max)
  {
    if s.phase == Rotating && open {
      GiveKeeps(s, reply, wires, max);
    }
  }

  lemma {:induction false} AfterKeeps(s: State, e: Event, wires: seq<Chunk>, max: Option<nat>)
    requires Inv(s, wires, max) && Enabled(s, e)
    ensures Inv(After(s, e, wires, max), wires, max)
  {
    match e
    case Polled(i, r) => PollKeeps(s, i, wires, max, r);
    case Dropped(i) => DropKeeps(s, i, wires, max);
    case Finished(open) => DoneKeeps(s, open, wires, max);
    case Asked(reply, open) => ContinueKeeps(s, reply, open, wires, max);
    case Stopped =>
  }

  lemma {:induction false} StartedInv(wires: seq<Chunk>, max: Option<nat>)
    ensures Inv(Started(), wires, max)
  {
    EmittedSnoc([], Fresh(0));
    assert [] + [Fresh(0)] == [Fresh(0)];
  }

  /** A run of the tunnel: every state follows from the one before by an event that can happen. */
  ghost predicate Run(states: seq<State>, events: seq<Event>, wires: seq<Chunk>, max: Option<nat>) {
    && |states| == |events| + 1 && states[0] == Started()
    && forall i {:trigger events[i]} :: 0 <= i < |events| ==>
         Enabled(states[i], events[i]) && states[i + 1] == After(states[i], events[i], wires, max)
  }

  lemma {:induction false} RunKeeps(states: seq<State>, events: seq<Event>, wires: seq<Chunk>, max: Option<nat>, k: nat)
    requires Run(states, events, wires, max) && k < |states|
    ensures Inv(states[k], wires, max)
  {
    if k == 0 {
      StartedInv(wires, max);
    } else {
      RunKeeps(states, events, wires, max, k - 1);
      var e := events[k - 1];
      AfterKeeps(states[k - 1], e, wires, max);
    }
  }

  lemma {:induction false} LiveCountLast(segments: seq<Segment>)
    requires forall i :: 0 <= i < |segments| - 1 ==> !segments[i].live
    ensures LiveCount(segments) == if LastLive(segments) then 1 else 0
  {
    if segments != [] {
      LiveCountLast(segments[..|segments| - 1]);
    }
  }

  /** Single ownership in every run: while the actor is not closed, live segments and queued messages together are one when
      a segment is active and none otherwise; the shaper is in at most one place, and wherever it is, it stands right after the frames
      put out so far, which over all segments in order are a first part of what it produces: none is lost or repeated; and
      a live segment always finds room in the channel. */
  lemma {:induction false} SingleOwner(states: seq<State>, events: seq<Event>, wires: seq<Chunk>, max: Option<nat>, k: nat)
    requires Run(states, events, wires, max) && k < |states|
    ensures var s := states[k];
      && (s.phase != Closed ==> LiveCount(s.segments) + s.tokens == if s.segmentActive then 1 else 0)
      && (s.phase != Closed && LiveCount(s.segments) > 0 ==> s.tokens < SEGMENT_DONE_CHANNEL_CAPACITY)
      && Emitted(s.segments) <= wires
      && (s.slot.Some? ==> s.slot.value == |Emitted(s.segments)| && forall i :: 0 <= i < |s.segments| ==> s.segments[i].shaper.None?)
      && (forall i :: 0 <= i < |s.segments| && s.segments[i].shaper.Some? ==>
            i == |s.segments| - 1 && s.segments[i].live && s.segments[i].shaper.value == |Emitted(s.segments)|)
  {
    RunKeeps(states, events, wires, max, k);
    LiveCountLast(states[k].segments);
  }

  // ---------------------------------------------------------------- agreement with the client

  /** The client's decision after a whole response (src/client/actor/download_loop.rs, `should_rotate`). */
  predicate ShouldRotate(max: Option<nat>, received: nat) {
    received > 0 && max.Some? && received >= max.value
  }

  lemma {:induction false} FlattenNonEmpty(chunks: seq<Chunk>)
    requires chunks != [] && chunks[0] != []
    ensures Flatten(chunks) != []
  {}

  /** A client that has received the whole of a segment wants another one exactly when the server parks the shaper. */
  lemma {:induction false} RotationAgrees(states: seq<State>, events: seq<Event>, wires: seq<Chunk>, max: Option<nat>, k: nat, i: nat)
    requires Run(states, events, wires, max) && k < |states| && i < |states[k].segments|
    requires forall w :: w in wires ==> w != []
    ensures states[k].segments[i].pauses <==> ShouldRotate(max, |Flatten(states[k].segments[i].out)|)
  {
    RunKeeps(states, events, wires, max, k);
    SegmentAgrees(states[k].segments, i, wires, max);
  }

  lemma {:induction false} OutInEmitted(segments: seq<Segment>, i: nat)
    requires i < |segments|
    ensures forall w :: w in segments[i].out ==> w in Emitted(segments)
  {
    var n := |segments| - 1;
    if i < n {
      OutInEmitted(segments[..n], i);
    }
  }

  lemma {:induction false} SegmentAgrees(segments: seq<Segment>, i: nat, wires: seq<Chunk>, max: Option<nat>)
    requires SegmentsOk(segments, wires, max) && i < |segments| && forall w :: w in wires ==> w != []
    ensures segments[i].pauses <==> ShouldRotate(max, |Flatten(segments[i].out)|)
  {
    var out := segments[i].out;
    if out != [] {
      OutInEmitted(segments, i);
      assert out[0] in Emitted(segments);
      InPrefix(Emitted(segments), wires, out[0]);
      FlattenNonEmpty(out);
    }
  }

  // ---------------------------------------------------------------- what the code does not promise

  /** The tunnel is active, with the shaper parked and no segment. */
  ghost predicate Stalled(s: State) {
    s.phase == Active && !s.segmentActive && s.slot.Some?
  }

  lemma {:induction false} StalledStays(s: State, e: Event, wires: seq<Chunk>, max: Option<nat>)
    requires Inv(s, wires, max) && Stalled(s) && Enabled(s, e) && !e.Stopped?
    ensures e.Asked? && Stalled(After(s, e, wires, max)) && After(s, e, wires, max).answers == s.answers[e.reply := None]
  {}

  /** A tunnel becomes stalled in exactly one way: a Continue comes while the shaper is parked, and is no longer waited for. */
  lemma {:induction false} StallsExactlyWhen(s: State, e: Event, wires: seq<Chunk>, max: Option<nat>)
    requires Inv(s, wires, max) && Enabled(s, e) && !Stalled(s)
    ensures Stalled(After(s, e, wires, max)) <==> s.phase == Rotating && e.Asked? && !e.waiting
  {
    if e.Finished? {
      NotStalledByDone(s, e.open);
    }
  }

  lemma {:induction false} NotStalledByDone(s: State, open: nat -> bool)
    requires s.tokens > 0
    ensures !Stalled(Done(s, open))
  {
    var s1 := s.(tokens := s.tokens - 1, segmentActive := false, pendingContinue := [],
                 phase := if s.slot.Some? then Rotating else Draining);
    if s.slot.Some? {
      ServeParked(s1, s.pendingContinue, open);
    } else {
      ServeGone(s1, s.pendingContinue, open);
    }
  }

  // ---------------------------------------------------------------- which tunnels can stall

  ghost predicate EndsIn(states: seq<State>, events: seq<Event>, wires: seq<Chunk>, max: Option<nat>, s: State) {
    Run(states, events, wires, max) && states[|events|] == s
  }

  ghost predicate Reachable(s: State, wires: seq<Chunk>, max: Option<nat>) {
    exists states, events :: EndsIn(states, events, wires, max, s)
  }

  lemma {:induction false} ReachStart(wires: seq<Chunk>, max: Option<nat>)
    ensures Reachable(Started(), wires, max)
  {
    assert EndsIn([Started()], [], wires, max, Started());
  }

  lemma {:induction false} ReachStep(s: State, e: Event, wires: seq<Chunk>, max: Option<nat>)
    requires Reachable(s, wires, max) && Enabled(s, e)
    ensures Reachable(After(s, e, wires, max), wires, max)
  {
    var states, events :| EndsIn(states, events, wires, max, s);
    var t := After(s, e, wires, max);
    assert EndsIn(states + [t], events + [e], wires, max, t);
  }

  /** The shaper is parked only after a segment that reached its limit. */
  ghost predicate ParkedByLimit(s: State) {
    s.slot.Some? ==> s.segments != [] && s.segments[|s.segments| - 1].pauses
  }

  lemma {:induction false} ServeParkedByLimit(s: State, alive: bool, replies: seq<nat>, open: nat -> bool)
    requires ParkedByLimit(s)
    ensures ParkedByLimit(Serve(s, alive, replies, open))
    decreases |replies|
  {
    if replies != [] {
      var s1 :=
        if !alive then s.(answers := s.answers[replies[0] := None]) else if !open(replies[0]) then s else Give(s, replies[0]);
      ServeParkedByLimit(s1, alive, replies[1..], open);
    }
  }

  lemma {:induction false} ParkedStep(s: State, e: Event, wires: seq<Chunk>, max: Option<nat>)
    requires Inv(s, wires, max) && ParkedByLimit(s) && Enabled(s, e)
    ensures ParkedByLimit(After(s, e, wires, max))
  {
    if e.Finished? {
      ServeParkedByLimit(s.(tokens := s.tokens - 1, segmentActive := false, pendingContinue := [],
                            phase := if s.slot.Some? then Rotating else Draining), s.slot.Some?, s.pendingContinue, e.open);
    }
  }

  lemma {:induction false} RunParked(states: seq<State>, events: seq<Event>, wires: seq<Chunk>, max: Option<nat>, k: nat)
    requires Run(states, events, wires, max) && k < |states|
    ensures ParkedByLimit(states[k])
  {
    if k > 0 {
      RunParked(states, events, wires, max, k - 1);
      RunKeeps(states, events, wires, max, k - 1);
      var e := events[k - 1];
      ParkedStep(states[k - 1], e, wires, max);
    }
  }

  lemma {:induction false} LastIsPart(segments: seq<Segment>)
    requires segments != []
    ensures |Flatten(segments[|segments| - 1].out)| <= |Flatten(Emitted(segments))|
  {
    FlattenAppend(Emitted(segments[..|segments| - 1]), segments[|segments| - 1].out);
  }

  /** The first segment after its first `k` frames, none of which reached the limit. */
  function After0(wires: seq<Chunk>, k: nat): State
    requires k <= |wires|
  {
    Started().(segments := [Segment(Some(k), |Flatten(wires[..k])|, wires[..k], false, false, true)])
  }

  lemma {:induction false} FirstFrames(wires: seq<Chunk>, max: nat, k: nat)
    requires k <= |wires| && (k > 0 ==> |Flatten(wires[..k])| < max)
    ensures Reachable(After0(wires, k), wires, Some(max))
    decreases k
  {
    if k == 0 {
      ReachStart(wires, Some(max));
      assert wires[..0] == [] && [] + [Fresh(0)] == [Fresh(0)];
    } else {
      FlattenNext(wires, k - 1);
      FirstFrames(wires, max, k - 1);
      var s, e := After0(wires, k - 1), Polled(0, Ready);
      ReachStep(s, e, wires, Some(max));
      assert wires[..k - 1] + [wires[k - 1]] == wires[..k];
      assert After(s, e, wires, Some(max)).segments == After0(wires, k).segments;
    }
  }

  lemma {:induction false} FlattenNext(wires: seq<Chunk>, k: nat)
    requires k < |wires|
    ensures |Flatten(wires[..k + 1])| == |Flatten(wires[..k])| + |wires[k]|
  {
    assert wires[..k + 1] == wires[..k] + [wires[k]];
    FlattenSnoc(wires[..k], wires[k]);
  }

  /** The frame at which the limit is reached. */
  lemma {:induction false} LimitAt(wires: seq<Chunk>, max: nat, n: nat) returns (k: nat)
    requires 0 < n <= |wires| && |Flatten(wires[..n])| >= max
    ensures k < n && |Flatten(wires[..k + 1])| >= max && (k > 0 ==> |Flatten(wires[..k])| < max)
    decreases n
  {
    if n == 1 || |Flatten(wires[..n - 1])| < max {
      k := n - 1;
    } else {
      k := LimitAt(wires, max, n - 1);
    }
  }

  /** A tunnel whose limit is reached can be stalled by an abandoned Continue. */
  lemma {:induction false} StallReached(wires: seq<Chunk>, max: nat) returns (s: State)
    requires wires != [] && |Flatten(wires)| >= max
    ensures Reachable(s, wires, Some(max)) && Stalled(s)
  {
    assert wires[..|wires|] == wires;
    var k := LimitAt(wires, max, |wires|);
    FirstFrames(wires, max, k);
    FlattenNext(wires, k);
    var a := After0(wires, k);
    var b := After(a, Polled(0, Ready), wires, Some(max));
    ReachStep(a, Polled(0, Ready), wires, Some(max));
    var c := After(b, Dropped(0), wires, Some(max));
    ReachStep(b, Dropped(0), wires, Some(max));
    var open: nat -> bool := _ => true;
    var d := After(c, Finished(open), wires, Some(max));
    ReachStep(c, Finished(open), wires, Some(max));
    assert d.phase == Rotating;
    s := After(d, Asked(0, false), wires, Some(max));
    ReachStep(d, Asked(0, false), wires, Some(max));
  }

  /** Which tunnels can stall: exactly those with a limit that the stream reaches. */
  lemma {:induction false} CanStallExactlyWhen(wires: seq<Chunk>, max: Option<nat>)
    ensures (exists s :: Reachable(s, wires, max) && Stalled(s)) <==> max.Some? && wires != [] && |Flatten(wires)| >= max.value
  {
    if max.Some? && wires != [] && |Flatten(wires)| >= max.value {
      var s := StallReached(wires, max.value);
    }
    forall s | Reachable(s, wires, max) && Stalled(s)
      ensures max.Some? && wires != [] && |Flatten(wires)| >= max.value
    {
      var states, events :| EndsIn(states, events, wires, max, s);
      RunKeeps(states, events, wires, max, |events|);
      RunParked(states, events, wires, max, |events|);
      LastIsPart(s.segments);
      FlattenPrefix(Emitted(s.segments), wires);
    }
  }

  // ---------------------------------------------------------------- several Continues

  function OpenCount(replies: seq<nat>, open: nat -> bool): nat {
    if replies == [] then 0 else (if open(replies[0]) then 1 else 0) + OpenCount(replies[1..], open)
  }

  /** Once the slot is empty, one more open reply ends the tunnel. */
  lemma {:induction false} ServeEmpty(s: State, replies: seq<nat>, open: nat -> bool)
    requires s.slot.None? && s.phase != Closed
    ensures var s' := Serve(s, true, replies, open);
            && s'.segments == s.segments && s'.slot.None?
            && s'.phase == if OpenCount(replies, open) == 0 then s.phase else Draining
    decreases |replies|
  {
    if replies != [] {
      ServeEmpty(if open(replies[0]) then Give(s, replies[0]) else s, replies[1..], open);
    }
  }

  lemma {:induction false} ServeParked(s: State, replies: seq<nat>, open: nat -> bool)
    requires s.slot.Some? && s.phase == Rotating
    ensures var s', n := Serve(s, true, replies, open), OpenCount(replies, open);
            && s'.phase == (if n == 0 then Rotating else if n == 1 then Active else Draining) && (n > 0 ==> s'.slot.None?)
            && s'.segments == if n == 0 then s.segments else s.segments + [Fresh(s.slot.value)]
    decreases |replies|
  {
    if replies != [] {
      if open(replies[0]) {
        ServeEmpty(Give(s, replies[0]), replies[1..], open);
      } else {
        ServeParked(s, replies[1..], open);
      }
    }
  }

  /** What the queue of replies means when a segment is dropped: with the shaper parked, the tunnel goes on exactly when at most
      one of them is still waited for; with the shaper gone it always ends. */
  lemma {:induction false} QueuedContinues(s: State, open: nat -> bool, wires: seq<Chunk>, max: Option<nat>)
    requires Inv(s, wires, max) && Enabled(s, Finished(open))
    ensures Running(Done(s, open)) <==> s.slot.Some? && OpenCount(s.pendingContinue, open) <= 1
    ensures |Done(s, open).segments| == |s.segments| + if s.slot.Some? && OpenCount(s.pendingContinue, open) > 0 then 1 else 0
  {
    var s1 := s.(tokens := s.tokens - 1, segmentActive := false, pendingContinue := [],
                 phase := if s.slot.Some? then Rotating else Draining);
    if s.slot.Some? {
      ServeParked(s1, s.pendingContinue, open);
    } else {
      ServeGone(s1, s.pendingContinue, open);
    }
  }

  lemma {:induction false} ServeGone(s: State, replies: seq<nat>, open: nat -> bool)
    ensures var s' := Serve(s, false, replies, open); s'.phase == s.phase && s'.segments == s.segments
    decreases |replies|
  {
    if replies != [] {
      ServeGone(s.(answers := s.answers[replies[0] := None]), replies[1..], open);
    }
  }
}
