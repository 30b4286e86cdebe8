/** The tunnel actor and its segments as they change in place (src/server/actor/tunnel.rs), proved against
    the steps of `Tunnel`. */
module TunnelActor {
  import opened Bytes
  import opened Tunnel

  class Actor {
    const max: Option<nat>
    /** The frames the shaper will put out. */
    const wires: seq<Chunk>
    var phase: Phase
    var slot: Option<nat>
    var segmentActive: bool
    var pendingContinue: seq<nat>
    var tokens: nat
    var cancelled: bool
    var segments: seq<Segment>
    var answers: map<nat, Option<nat>>

    function Abs(): State
      reads this
    {
      State(phase, slot, segmentActive, pendingContinue, tokens, cancelled, segments, answers)
    }

    constructor (wires: seq<Chunk>, max: Option<nat>)
      ensures Abs() == Connected() && this.wires == wires && this.max == max
    {
      this.wires, this.max := wires, max;
      phase, slot, segmentActive, pendingContinue := Active, Some(0), false, [];
      tokens, cancelled, segments, answers := 0, false, [], map[];
    }

    /** `take_segment`. */
    method Take() returns (segment: Option<nat>)
      modifies this
      ensures Abs() == TakeSegment(old(Abs()))
      ensures segment == if old(slot).Some? then Some(old(|segments|)) else None
    {
      if slot.None? {
        return None;
      }
      var position := slot.value;
      slot := None;
      segment := Some(|segments|);
      segments := segments + [Fresh(position)];
      segmentActive := true;
    }

    /** `poll_next` of a segment. */
    method PollNext(i: nat, r: Readiness) returns (item: Option<Chunk>)
      requires i < |segments|
      modifies this`segments
      ensures Abs() == Poll(old(Abs()), i, wires, max, r)
      ensures segments[i].out == old(segments[i].out) + if item.Some? then [item.value] else []
    {
      var g := segments[i];
      item := None;
      if g.ended {
        return;
      }
      if cancelled || g.shaper.None? {
        segments := segments[i := g.(ended := true)];
        return;
      }
      match r {
        case NotYet =>
        case Fails =>
          segments := segments[i := g.(ended := true)];
        case Ready =>
          if g.shaper.value < |wires| {
            var data := wires[g.shaper.value];
            g := g.(shaper := Some(g.shaper.value + 1), sent := g.sent + |data|, out := g.out + [data]);
            if max.Some? && g.sent >= max.value {
              g := g.(pauses := true, ended := true);
            }
            item := Some(data);
          } else {
            g := g.(ended := true);
          }
          segments := segments[i := g];
      }
    }

    /** `release` and the rest of dropping a segment. */
    method Release(i: nat)
      requires i < |segments|
      modifies this`segments, this`slot, this`tokens
      ensures Abs() == Drop(old(Abs()), i)
      ensures old(Inv(Abs(), wires, max)) && old(segments[i].live) ==>
                && Inv(Abs(), wires, max) && Emitted(segments) == old(Emitted(segments))
                && (phase != Closed ==> tokens == old(tokens) + 1 && (slot.Some? <==> old(segments[i].pauses)))
    {
      ghost var was := Abs();
      var g := segments[i];
      if g.shaper.Some? && g.pauses && phase != Closed {
        slot := g.shaper;
      }
      if g.live && phase != Closed && tokens < SEGMENT_DONE_CHANNEL_CAPACITY {
        tokens := tokens + 1;
      }
      segments := segments[i := g.(shaper := None, live := false)];
      if Inv(was, wires, max) && g.live {
        DropKeeps(was, i, wires, max);
        assert i == |was.segments| - 1;
        EmittedUpdate(was.segments, g.(shaper := None, live := false), []);
      }
    }

    /** `serve_pending_continue`. */
    method ServePendingContinue(alive: bool, open: nat -> bool)
      modifies this
      ensures Abs() == Serve(old(Abs()).(pendingContinue := []), alive, old(pendingContinue), open)
    {
      var replies := pendingContinue;
      pendingContinue := [];
      ghost var goal := Serve(Abs(), alive, replies, open);
      for n := 0 to |replies|
        invariant Serve(Abs(), alive, replies[n..], open) == goal
      {
        var reply := replies[n];
        assert replies[n..][0] == reply && replies[n..][1..] == replies[n + 1..];
        if !alive {
          answers := answers[reply := None];
        } else if open(reply) {
          var segment := Take();
          if segment.Some? {
            phase := Active;
          } else {
            phase := Draining;
          }
          answers := answers[reply := segment];
        }
      }
      assert replies[|replies|..] == [];
    }

    /** The arm of `run` for a dropped segment. */
    method SegmentDone(open: nat -> bool)
      requires tokens > 0
      modifies this
      ensures Abs() == Done(old(Abs()), open)
    {
      tokens, segmentActive := tokens - 1, false;
      var alive := slot.Some?;
      if alive {
        phase := Rotating;
      } else {
        phase := Draining;
      }
      ServePendingContinue(alive, open);
    }

    /** `dispatch_cmd` of a Continue. */
    method DispatchContinue(reply: nat, open: bool)
      modifies this
      ensures Abs() == Continue(old(Abs()), reply, open)
    {
      if phase == Rotating {
        phase := Active;
        if !open {
          return;
        }
        var segment := Take();
        if segment.None? {
          phase := Draining;
        }
        answers := answers[reply := segment];
      } else if phase == Active && segmentActive {
        pendingContinue := pendingContinue + [reply];
      } else {
        answers := answers[reply := None];
      }
    }

    /** `cleanup`, up to the upload actor, and the drop of the queued replies. */
    method CleanUp()
      modifies this
      ensures Abs() == Cleanup(old(Abs()))
      ensures old(Inv(Abs(), wires, max)) ==> Inv(Abs(), wires, max)
      ensures !Running(Abs()) && slot.None? && forall i, r :: 0 <= i < |segments| ==> PollSegment(segments[i], cancelled, wires, max, r).out == old(segments[i].out)
    {
      phase, cancelled, slot, pendingContinue := Closed, true, None, [];
    }

    method Handle(e: Event)
      requires Enabled(Abs(), e)
      modifies this
      ensures Abs() == After(old(Abs()), e, wires, max)
    {
      match e {
        case Polled(i, r) =>
          var _ := PollNext(i, r);
        case Dropped(i) =>
          Release(i);
        case Finished(open) =>
          SegmentDone(open);
        case Asked(reply, open) =>
          DispatchContinue(reply, open);
        case Stopped =>
          CleanUp();
      }
    }
  }

  lemma {:induction false} RunSnoc(states: seq<State>, events: seq<Event>, e: Event, wires: seq<Chunk>, max: Option<nat>)
    requires Run(states, events, wires, max) && Enabled(states[|events|], e)
    ensures Run(states + [After(states[|events|], e, wires, max)], events + [e], wires, max)
  {}

  /** The tunnel under any schedule of events, those that cannot happen when their turn comes being passed over: its states
      are a run, so all that is proved of runs holds of it. */
  method RunTunnel(actor: Actor, schedule: seq<Event>) returns (ghost states: seq<State>, ghost events: seq<Event>)
    requires actor.Abs() == Connected()
    modifies actor
    ensures Run(states, events, actor.wires, actor.max) && actor.Abs() == states[|events|]
    ensures Inv(actor.Abs(), actor.wires, actor.max)
  {
    var _ := actor.Take();
    states, events := [actor.Abs()], [];
    for n := 0 to |schedule|
      invariant Run(states, events, actor.wires, actor.max) && actor.Abs() == states[|events|]
    {
      if Enabled(actor.Abs(), schedule[n]) {
        RunSnoc(states, events, schedule[n], actor.wires, actor.max);
        actor.Handle(schedule[n]);
        states, events := states + [actor.Abs()], events + [schedule[n]];
      }
    }
    RunKeeps(states, events, actor.wires, actor.max, |events|);
  }
}
