/** The server's upload actor (src/server/actor/upload.rs): it puts frames back in order, writes
    them upstream in runs, and answers each end-of-body marker once its frames are written. */
module UploadActor {
  import opened Bytes
  import opened Incremental
  import opened Reorder
  import Vectored

  const MAX_PENDING_BYTES: nat := 2 * 1024 * 1024
  const MAX_PENDING_FRAMES: nat := 8 * 1024
  const MAX_EOS_WAITERS: nat := 256

  datatype Stage = Reordering | Draining | Closed

  datatype Waiter = Waiter(maxSeq: nat, ack: nat)

  /** What was sent on an acknowledgement channel. */
  datatype Reply = Granted(ack: nat, maxSeq: nat) | Refused(ack: nat)

  datatype Cmd = FrameCmd(frame: Frame) | Eos(maxSeq: nat, ack: nat) | Shutdown

  function WaiterAcks(ws: seq<Waiter>): (acks: seq<nat>)
    ensures |acks| == |ws|
  {
    seq(|ws|, i requires 0 <= i < |ws| => ws[i].ack)
  }

  function ReplyAcks(rs: seq<Reply>): (acks: seq<nat>)
    ensures |acks| == |rs|
  {
    seq(|rs|, i requires 0 <= i < |rs| => rs[i].ack)
  }

  lemma {:induction false} ReplyAcksSnoc(rs: seq<Reply>, r: Reply)
    ensures ReplyAcks(rs + [r]) == ReplyAcks(rs) + [r.ack]
  {}

  lemma {:induction false} WaiterAcksSnoc(ws: seq<Waiter>, w: Waiter)
    ensures WaiterAcks(ws + [w]) == WaiterAcks(ws) + [w.ack]
  {}

  /** `Vec::swap_remove`: the last element takes the place of the removed one. */
  function SwapRemove(ws: seq<Waiter>, i: nat): seq<Waiter>
    requires i < |ws|
  {
    if i == |ws| - 1 then ws[..i] else ws[i := ws[|ws| - 1]][..|ws| - 1]
  }

  lemma {:induction false} SwapRemoveAcks(ws: seq<Waiter>, i: nat)
    requires i < |ws|
    ensures |SwapRemove(ws, i)| == |ws| - 1
    ensures forall k :: 0 <= k < i ==> SwapRemove(ws, i)[k] == ws[k]
    ensures multiset(SwapRemove(ws, i)) + multiset{ws[i]} == multiset(ws)
    ensures multiset(WaiterAcks(SwapRemove(ws, i))) + multiset{ws[i].ack} == multiset(WaiterAcks(ws))
  {
    var acks, n := WaiterAcks(ws), |ws| - 1;
    assert acks == acks[..n] + [acks[n]];
    assert ws == ws[..n] + [ws[n]];
    if i < n {
      assert SwapRemove(ws, i) == ws[..n][i := ws[n]];
      assert WaiterAcks(SwapRemove(ws, i)) == acks[..n][i := acks[n]];
    } else {
      assert WaiterAcks(SwapRemove(ws, i)) == acks[..n];
    }
  }

  function Grants(ws: seq<Waiter>): seq<Reply> {
    seq(|ws|, i requires 0 <= i < |ws| => Granted(ws[i].ack, ws[i].maxSeq))
  }

  lemma {:induction false} WrittenSoFar(outs: seq<Chunk>, run: seq<Chunk>, all: seq<Chunk>)
    requires outs + run <= all
    ensures outs <= all
    ensures Flatten(outs + run) == Flatten(outs) + Flatten(run)
    ensures Flatten(outs) + Flatten(run) <= Flatten(all)
  {
    FlattenAppend(outs, run);
    FlattenPrefix(outs + run, all);
  }

  /** The pending frames are within the limits and their bytes are counted exactly. */
  ghost predicate Counted(pending: map<nat, Chunk>, bytes: nat, bound: nat) {
    (forall k :: k in pending ==> k < bound) && bytes == Weight(pending, bound)
  }

  lemma {:induction false} CountedRemove(pending: map<nat, Chunk>, bytes: nat, bound: nat, k: nat)
    requires Counted(pending, bytes, bound) && k in pending
    ensures |pending[k]| <= bytes && Counted(pending - {k}, bytes - |pending[k]|, bound)
    ensures |pending - {k}| == |pending| - 1
  {
    WeightRemove(pending, k, bound);
    assert (pending - {k}).Keys == pending.Keys - {k};
  }

  lemma {:induction false} CountedInsert(pending: map<nat, Chunk>, bytes: nat, bound: nat, k: nat, d: Chunk, hi: nat)
    requires Counted(pending, bytes, bound) && k !in pending && bound <= hi && k < hi
    ensures Counted(pending[k := d], bytes + |d|, hi)
    ensures |pending[k := d]| == |pending| + 1
  {
    WeightGrow(pending, bound, hi);
    WeightInsert(pending, k, d, hi);
    assert pending[k := d].Keys == pending.Keys + {k};
  }

  function Refusals(acks: seq<nat>): seq<Reply> {
    seq(|acks|, i requires 0 <= i < |acks| => Refused(acks[i]))
  }

  lemma {:induction false} RefusalsAcks(rs: seq<Reply>, acks: seq<nat>)
    ensures ReplyAcks(rs + Refusals(acks)) == ReplyAcks(rs) + acks
  {}

  lemma {:induction false} GrantsAcks(rs: seq<Reply>, ws: seq<Waiter>)
    ensures ReplyAcks(rs + Grants(ws)) == ReplyAcks(rs) + WaiterAcks(ws)
  {}

  /** The acknowledgements that a sequence of commands asks for. */
  function EosAcks(cmds: seq<Cmd>): multiset<nat> {
    if cmds == [] then multiset{}
    else EosAcks(cmds[..|cmds| - 1]) + match cmds[|cmds| - 1] case Eos(_, ack) => multiset{ack} case _ => multiset{}
  }

  lemma {:induction false} EosAcksSnoc(cmds: seq<Cmd>, k: nat)
    requires k < |cmds|
    ensures EosAcks(cmds[..k + 1]) == EosAcks(cmds[..k]) + match cmds[k] case Eos(_, ack) => multiset{ack} case _ => multiset{}
  {
    assert cmds[..k + 1][..k] == cmds[..k];
  }

  /** The frames of a sequence of commands. */
  function FrameCmds(cmds: seq<Cmd>): seq<Frame> {
    if cmds == [] then []
    else FrameCmds(cmds[..|cmds| - 1]) + match cmds[|cmds| - 1] case FrameCmd(f) => [f] case _ => []
  }

  lemma {:induction false} FrameCmdsSnoc(cmds: seq<Cmd>, k: nat)
    requires k < |cmds|
    ensures FrameCmds(cmds[..k + 1]) == FrameCmds(cmds[..k]) + match cmds[k] case FrameCmd(f) => [f] case _ => []
  {
    assert cmds[..k + 1][..k] == cmds[..k];
  }

  ghost predicate RepliesOk(replies: seq<Reply>, confirmed: nat) {
    forall r :: r in replies && r.Granted? ==> r.maxSeq < confirmed
  }

  /** Whoever waits or was granted asked for exactly that number. */
  ghost predicate Sources(replies: seq<Reply>, waiters: seq<Waiter>, asked: set<Waiter>) {
    forall w: Waiter {:trigger Look(w)} :: Look(w) && (w in waiters || Granted(w.ack, w.maxSeq) in replies) ==> w in asked
  }

  lemma {:induction false} SourcesGrant(replies: seq<Reply>, waiters0: seq<Waiter>, asked: set<Waiter>, waiters: seq<Waiter>, granted: seq<Waiter>)
    requires Sources(replies, waiters0, asked) && multiset(waiters) + multiset(granted) == multiset(waiters0)
    ensures Sources(replies + Grants(granted), waiters, asked)
  {
    forall w: Waiter {:trigger Look(w)} | Look(w) && (w in waiters || Granted(w.ack, w.maxSeq) in replies + Grants(granted))
      ensures w in asked
    {
      assert w in multiset(waiters) + multiset(granted) <==> w in multiset(waiters0);
    }
  }

  lemma {:induction false} SourcesReply(replies: seq<Reply>, waiters: seq<Waiter>, asked: set<Waiter>, r: Reply)
    requires Sources(replies, waiters, asked)
    ensures Sources(replies + [r], waiters, asked + if r.Granted? then {Waiter(r.maxSeq, r.ack)} else {})
  {
    forall w: Waiter {:trigger Look(w)} | Look(w) && (w in waiters || Granted(w.ack, w.maxSeq) in replies + [r])
      ensures w in asked + if r.Granted? then {Waiter(r.maxSeq, r.ack)} else {}
    {}
  }

  lemma {:induction false} SourcesWait(replies: seq<Reply>, waiters: seq<Waiter>, asked: set<Waiter>, v: Waiter)
    requires Sources(replies, waiters, asked)
    ensures Sources(replies, waiters + [v], asked + {v})
  {
    forall w: Waiter {:trigger Look(w)} | Look(w) && (w in waiters + [v] || Granted(w.ack, w.maxSeq) in replies)
      ensures w in asked + {v}
    {}
  }

  /** Once nobody is waited for any more, and the rest has been refused. */
  lemma {:induction false} SourcesRefuse(replies: seq<Reply>, waiters: seq<Waiter>, asked: set<Waiter>, acks: seq<nat>)
    requires Sources(replies, waiters, asked)
    ensures Sources(replies + Refusals(acks), [], asked) && Sources(replies, [], asked)
  {
    forall w: Waiter {:trigger Look(w)} | Look(w) && Granted(w.ack, w.maxSeq) in replies + Refusals(acks)
      ensures w in asked
    {}
  }

  /** As long as the actor runs, whoever asked waits or was granted. */
  ghost predicate Answered(replies: seq<Reply>, waiters: seq<Waiter>, asked: set<Waiter>) {
    forall w: Waiter {:trigger Look(w)} :: Look(w) && w in asked ==> w in waiters || Granted(w.ack, w.maxSeq) in replies
  }

  lemma {:induction false} AnsweredGrant(replies: seq<Reply>, waiters0: seq<Waiter>, asked: set<Waiter>, waiters: seq<Waiter>, granted: seq<Waiter>)
    requires Answered(replies, waiters0, asked) && multiset(waiters) + multiset(granted) == multiset(waiters0)
    ensures Answered(replies + Grants(granted), waiters, asked)
  {
    forall w: Waiter {:trigger Look(w)} | Look(w) && w in asked
      ensures w in waiters || Granted(w.ack, w.maxSeq) in replies + Grants(granted)
    {
      assert w in multiset(waiters) + multiset(granted) <==> w in multiset(waiters0);
      if w in granted {
        var i :| 0 <= i < |granted| && granted[i] == w;
        assert Grants(granted)[i] == Granted(w.ack, w.maxSeq);
      }
    }
  }

  lemma {:induction false} AnsweredMore(replies: seq<Reply>, waiters: seq<Waiter>, asked: set<Waiter>, rs: seq<Reply>, ws: seq<Waiter>, more: set<Waiter>)
    requires Answered(replies, waiters, asked) && forall w :: w in more ==> w in ws || Granted(w.ack, w.maxSeq) in rs
    ensures Answered(replies + rs, waiters + ws, asked + more)
  {
    forall w: Waiter {:trigger Look(w)} | Look(w) && w in asked + more
      ensures w in waiters + ws || Granted(w.ack, w.maxSeq) in replies + rs
    {}
  }

  /** Everyone who asked for a number below `next` has been granted. */
  ghost predicate AllGranted(replies: seq<Reply>, asked: set<Waiter>, next: nat) {
    forall w :: w in asked && w.maxSeq < next ==> Granted(w.ack, w.maxSeq) in replies
  }

  lemma {:induction false} AnsweredGranted(replies: seq<Reply>, waiters: seq<Waiter>, asked: set<Waiter>, next: nat)
    requires Answered(replies, waiters, asked) && forall w :: w in waiters ==> w.maxSeq >= next
    ensures AllGranted(replies, asked, next)
  {
    forall w | w in asked && w.maxSeq < next
      ensures Granted(w.ack, w.maxSeq) in replies
    {
      assert Look(w);
    }
  }

  lemma {:induction false} GrantsAsked(replies: seq<Reply>, waiters: seq<Waiter>, asked: set<Waiter>, r: Reply)
    requires Sources(replies, waiters, asked) && r in replies && r.Granted?
    ensures Waiter(r.maxSeq, r.ack) in asked
  {
    assert Look(Waiter(r.maxSeq, r.ack));
  }

  /** Every acknowledgement taken is waiting, or was answered, exactly as often as it was taken. */
  ghost predicate Accounts(taken: multiset<nat>, waiters: seq<Waiter>, drained: seq<nat>, replies: seq<Reply>) {
    forall m: multiset<nat> {:trigger Look(m)} :: Look(m) && m == taken ==>
      m == multiset(WaiterAcks(waiters)) + multiset(drained) + multiset(ReplyAcks(replies))
  }

  lemma {:induction false} AccountsMeans(taken: multiset<nat>, waiters: seq<Waiter>, drained: seq<nat>, replies: seq<Reply>)
    ensures Accounts(taken, waiters, drained, replies) <==> taken == multiset(WaiterAcks(waiters)) + multiset(drained) + multiset(ReplyAcks(replies))
  {
    assert Look(taken);
  }

  lemma {:induction false} AccountsGrant(taken: multiset<nat>, ws: seq<Waiter>, drained: seq<nat>, rs: seq<Reply>,
                      ws': seq<Waiter>, granted: seq<Waiter>)
    requires Accounts(taken, ws, drained, rs)
    requires multiset(WaiterAcks(ws')) + multiset(WaiterAcks(granted)) == multiset(WaiterAcks(ws))
    ensures Accounts(taken, ws', drained, rs + Grants(granted))
  {
    AccountsMeans(taken, ws, drained, rs);
    AccountsMeans(taken, ws', drained, rs + Grants(granted));
    GrantsAcks(rs, granted);
  }

  lemma {:induction false} AccountsReply(taken: multiset<nat>, ws: seq<Waiter>, drained: seq<nat>, rs: seq<Reply>, r: Reply)
    requires Accounts(taken, ws, drained, rs)
    ensures Accounts(taken + multiset{r.ack}, ws, drained, rs + [r])
  {
    AccountsMeans(taken, ws, drained, rs);
    AccountsMeans(taken + multiset{r.ack}, ws, drained, rs + [r]);
    ReplyAcksSnoc(rs, r);
  }

  lemma {:induction false} AccountsWait(taken: multiset<nat>, ws: seq<Waiter>, drained: seq<nat>, rs: seq<Reply>, w: Waiter)
    requires Accounts(taken, ws, drained, rs)
    ensures Accounts(taken + multiset{w.ack}, ws + [w], drained, rs)
  {
    AccountsMeans(taken, ws, drained, rs);
    AccountsMeans(taken + multiset{w.ack}, ws + [w], drained, rs);
    WaiterAcksSnoc(ws, w);
  }

  lemma {:induction false} AccountsRefuseAll(taken: multiset<nat>, ws: seq<Waiter>, drained: seq<nat>, rs: seq<Reply>)
    requires Accounts(taken, ws, drained, rs)
    ensures Accounts(taken, [], [], rs + Refusals(WaiterAcks(ws) + drained))
  {
    AccountsMeans(taken, ws, drained, rs);
    AccountsMeans(taken, [], [], rs + Refusals(WaiterAcks(ws) + drained));
    RefusalsAcks(rs, WaiterAcks(ws) + drained);
  }

  /** The frames known to be written are the first ones an ideal buffer releases after the same
      arrivals, and the bytes sent lie between those frames and everything released. */
  ghost predicate InOrder(initial: nat, arrivals: seq<Frame>, written: seq<Chunk>, sent: Chunk) {
    forall ideal: State {:trigger Look(ideal)} :: Look(ideal) && ideal == ArriveAll(Start(initial), arrivals) ==>
      written <= ideal.out && Flatten(written) <= sent && sent <= Flatten(ideal.out)
  }

  lemma {:induction false} InOrderMeans(initial: nat, arrivals: seq<Frame>, written: seq<Chunk>, sent: Chunk)
    ensures InOrder(initial, arrivals, written, sent) <==>
            var ideal := ArriveAll(Start(initial), arrivals); written <= ideal.out && Flatten(written) <= sent && sent <= Flatten(ideal.out)
  {
    assert Look(ArriveAll(Start(initial), arrivals));
  }

  /** While reordering, the buffer is the ideal one and everything released has been written. */
  ghost predicate InStep(initial: nat, arrivals: seq<Frame>, next: nat, pending: map<nat, Chunk>, written: seq<Chunk>, sent: Chunk) {
    forall ideal: State {:trigger Look(ideal)} :: Look(ideal) && ideal == ArriveAll(Start(initial), arrivals) ==>
      ideal == State(next, pending, written) && sent == Flatten(written)
  }

  lemma {:induction false} InStepMeans(initial: nat, arrivals: seq<Frame>, next: nat, pending: map<nat, Chunk>, written: seq<Chunk>, sent: Chunk)
    ensures InStep(initial, arrivals, next, pending, written, sent) <==>
            ArriveAll(Start(initial), arrivals) == State(next, pending, written) && sent == Flatten(written)
  {
    assert Look(ArriveAll(Start(initial), arrivals));
  }

  /** To be in step is to be in order. */
  lemma {:induction false} InStepInOrder(initial: nat, arrivals: seq<Frame>, next: nat, pending: map<nat, Chunk>, written: seq<Chunk>, sent: Chunk)
    requires InStep(initial, arrivals, next, pending, written, sent)
    ensures InOrder(initial, arrivals, written, sent)
  {
    InStepMeans(initial, arrivals, next, pending, written, sent);
    InOrderMeans(initial, arrivals, written, sent);
  }

  /** A frame that is not next in line is either ignored or put aside; nothing is released. */
  lemma {:induction false} InStepAside(initial: nat, arrivals: seq<Frame>, next: nat, pending: map<nat, Chunk>, written: seq<Chunk>, sent: Chunk, f: Frame)
    requires InStep(initial, arrivals, next, pending, written, sent) && f.seqNo != next
    ensures InStep(initial, arrivals + [f], next,
                   if f.seqNo < next || f.seqNo in pending then pending else pending[f.seqNo := f.data], written, sent)
    ensures InOrder(initial, arrivals + [f], written, sent)
  {
    var ahead := if f.seqNo < next || f.seqNo in pending then pending else pending[f.seqNo := f.data];
    InStepMeans(initial, arrivals, next, pending, written, sent);
    ArriveAllSnoc(Start(initial), arrivals, f);
    InStepMeans(initial, arrivals + [f], next, ahead, written, sent);
    InStepInOrder(initial, arrivals + [f], next, ahead, written, sent);
  }

  /** The frame that is next in line makes the ideal buffer release it and everything behind it. */
  lemma {:induction false} IdealRelease(initial: nat, arrivals: seq<Frame>, pending: map<nat, Chunk>, before: seq<Chunk>, sent: Chunk, f: Frame)
    requires InStep(initial, arrivals, f.seqNo, pending, before, sent)
    ensures ArriveAll(Start(initial), arrivals + [f]) == Release(State(f.seqNo + 1, pending, before + [f.data]))
  {
    InStepMeans(initial, arrivals, f.seqNo, pending, before, sent);
    ArriveAllSnoc(Start(initial), arrivals, f);
  }

  /** Writing out what the ideal buffer releases keeps step with it; a failed write stays behind, in order. */
  lemma {:induction false} InStepRelease(initial: nat, arrivals: seq<Frame>, goal: State,
                      ok: bool, next: nat, pending: map<nat, Chunk>, sent: Chunk, written: seq<Chunk>)
    requires ArriveAll(Start(initial), arrivals) == goal
    requires written <= goal.out && Flatten(written) <= sent <= Flatten(goal.out)
    requires ok ==> State(next, pending, goal.out) == goal && sent == Flatten(goal.out) && written == goal.out
    ensures InOrder(initial, arrivals, written, sent)
    ensures ok ==> InStep(initial, arrivals, next, pending, written, sent) && next == initial + |written|
  {
    ReleasedCount(initial, arrivals);
    InOrderMeans(initial, arrivals, written, sent);
    InStepMeans(initial, arrivals, next, pending, written, sent);
  }

  lemma {:induction false} WriteKeeps(initial: nat, arrivals: seq<Frame>, pending: map<nat, Chunk>, before: seq<Chunk>, sent: Chunk, f: Frame,
                                      ok: bool, next: nat, ahead: map<nat, Chunk>, out: Chunk, written: seq<Chunk>)
    requires InStep(initial, arrivals, f.seqNo, pending, before, sent)
    requires var goal := Release(State(f.seqNo + 1, pending, before + [f.data]));
             && written <= goal.out && Flatten(written) <= out <= Flatten(goal.out)
             && (ok ==> State(next, ahead, goal.out) == goal && out == Flatten(goal.out) && written == goal.out)
    ensures InOrder(initial, arrivals + [f], written, out)
    ensures ok ==> InStep(initial, arrivals + [f], next, ahead, written, out) && next == initial + |written|
  {
    IdealRelease(initial, arrivals, pending, before, sent, f);
    InStepRelease(initial, arrivals + [f], Release(State(f.seqNo + 1, pending, before + [f.data])), ok, next, ahead, out, written);
  }

  ghost predicate NoneEmpty(pending: map<nat, Chunk>) {
    forall k :: k in pending ==> pending[k] != []
  }

  /** No piece is empty, if `clean`. */
  ghost predicate Clean(clean: bool, run: seq<Chunk>, pending: map<nat, Chunk>) {
    forall b: bool {:trigger Look(b)} :: Look(b) && b == clean && b ==> Vectored.AllNonEmpty(run) && NoneEmpty(pending)
  }

  lemma {:induction false} NoneEmptyTake(clean: bool, pending: map<nat, Chunk>, k: nat, run: seq<Chunk>)
    requires k in pending && Clean(clean, run, pending)
    ensures Clean(clean, run + [pending[k]], pending - {k})
  {
    assert Look(clean);
  }

  /** `write_run` over a TCP upstream: a single frame is written as a whole, several by the vectored loop, any number of bytes at a
      time; a failure, or the timeout, which drops the write where it stands, leaves some first part of the run written. */
  method WriteRun(live: bool, sent: Chunk, frames: seq<Chunk>) returns (ok: bool, sent': Chunk)
    ensures ok ==> sent' == sent + Flatten(frames)
    ensures sent <= sent' <= sent + Flatten(frames)
    ensures live && Vectored.AllNonEmpty(frames) ==> ok
  {
    if |frames| == 1 {
      FlattenOne(frames[0]);
      assert frames == [frames[0]];
      ok, sent' := WriteWhole(live, sent, frames[0]);
    } else {
      var outcome;
      outcome, sent' := Vectored.WriteVectoredAll(live, Vectored.MAX_WRITE_IOV, frames, sent);
      ok := outcome.Done?;
    }
  }

  /** `write_all`: pieces of any size, until everything is written or a write fails. */
  method WriteWhole(live: bool, sent: Chunk, data: Chunk) returns (ok: bool, sent': Chunk)
    ensures ok ==> sent' == sent + data
    ensures sent <= sent' <= sent + data
    ensures live ==> ok
  {
    var done: nat := 0;
    sent' := sent;
    while done < |data|
      invariant done <= |data| && sent' == sent + data[..done]
      decreases |data| - done
    {
      var r;
      r, sent' := Vectored.WriteVectored(live, sent', data[done..]);
      if r.IoError? || r.n == 0 {
        assert sent' == sent + data[..done];
        return false, sent';
      }
      assert data[..done] + data[done..][..r.n] == data[..done + r.n];
      done := done + r.n;
    }
    assert data[..done] == data;
    ok := true;
  }

  /** Takes the frames that follow on from the head, up to the limit of one vectored write. */
  method GatherRun(iov: nat, next0: nat, pending0: map<nat, Chunk>, bytes0: nat, head: Chunk, ghost bound: nat)
    returns (run: seq<Chunk>, next: nat, pending: map<nat, Chunk>, bytes: nat)
    requires iov >= 1 && Counted(pending0, bytes0, bound)
    ensures State(next, pending, run) == Gather(State(next0 + 1, pending0, [head]), iov - 1)
    ensures Counted(pending, bytes, bound) && |pending| <= |pending0| && bytes <= bytes0
    ensures head != [] && NoneEmpty(pending0) ==> Vectored.AllNonEmpty(run) && NoneEmpty(pending)
  {
    run, next, pending, bytes := [head], next0 + 1, pending0, bytes0;
    ghost var goal := Gather(State(next0 + 1, pending0, [head]), iov - 1);
    ghost var clean := head != [] && NoneEmpty(pending0);
    while |run| < iov && next in pending
      invariant 1 <= |run| <= iov && Gather(State(next, pending, run), iov - |run|) == goal
      invariant Counted(pending, bytes, bound) && |pending| <= |pending0| && bytes <= bytes0
      invariant Clean(clean, run, pending)
    {
      var data := pending[next];
      CountedRemove(pending, bytes, bound, next);
      GatherStep(next, pending, run, iov - |run|);
      NoneEmptyTake(clean, pending, next, run);
      pending, bytes := pending - {next}, bytes - |data|;
      run, next := run + [data], next + 1;
    }
    assert Look(clean);
  }

  /** One bounded run of the write loop, seen from what is to be released in the end. */
  lemma {:induction false} RunStep(outs: seq<Chunk>, s: State, room: nat, goal: State, run: seq<Chunk>, next: nat, pending: map<nat, Chunk>)
    requires Release(State(s.next, s.pending, outs + s.out)) == goal && State(next, pending, run) == Gather(s, room)
    ensures outs <= outs + run <= goal.out && outs <= goal.out
    ensures Flatten(outs + run) == Flatten(outs) + Flatten(run) && Flatten(outs) + Flatten(run) <= Flatten(goal.out)
    ensures next in pending ==> Toward(next, pending - {next}, outs + run, pending[next], goal)
    ensures next !in pending ==> State(next, pending, outs + run) == goal
  {
    ReleaseAfterGather(outs, s, room);
    ReleaseExtends(State(next, pending, outs + run));
    WrittenSoFar(outs, run, goal.out);
    if next in pending {
      ReleaseStep(next, pending, outs + run);
    }
  }

  /** What the write loop still has to release from this head is what it set out to release. */
  ghost predicate Toward(next: nat, pending: map<nat, Chunk>, outs: seq<Chunk>, head: Chunk, goal: State) {
    Release(State(next + 1, pending, outs + [head])) == goal
  }

  datatype Turn = Failed | Finished | Continue(head: Chunk)

  /** One turn of the write loop: a run is gathered and written, and the next head is taken off. */
  method WriteTurn(live: bool, iov: nat, next0: nat, pending0: map<nat, Chunk>, bytes0: nat, head: Chunk, sent0: Chunk,
                   ghost outs: seq<Chunk>, ghost goal: State, ghost bound: nat)
    returns (turn: Turn, next: nat, pending: map<nat, Chunk>, bytes: nat, sent: Chunk, ghost outs': seq<Chunk>)
    requires iov >= 1 && Counted(pending0, bytes0, bound) && sent0 == Flatten(outs)
    requires Toward(next0, pending0, outs, head, goal)
    ensures Counted(pending, bytes, bound) && |pending| <= |pending0| && bytes <= bytes0
    ensures outs <= outs' <= goal.out && Flatten(outs') <= sent <= Flatten(goal.out)
    ensures turn.Finished? ==> State(next, pending, goal.out) == goal && outs' == goal.out && sent == Flatten(goal.out)
    ensures turn.Continue? ==>
              Toward(next, pending, outs', turn.head, goal) && sent == Flatten(outs') && |pending| < |pending0|
    ensures live && head != [] && NoneEmpty(pending0) ==> !turn.Failed? && NoneEmpty(pending) && (turn.Continue? ==> turn.head != [])
  {
    ghost var s := State(next0 + 1, pending0, [head]);
    var run, ok;
    run, next, pending, bytes := GatherRun(iov, next0, pending0, bytes0, head, bound);
    RunStep(outs, s, iov - 1, goal, run, next, pending);
    ok, sent := WriteRun(live, sent0, run);
    outs' := if ok then outs + run else outs;
    if !ok {
      return Failed, next, pending, bytes, sent, outs';
    }
    if next !in pending {
      return Finished, next, pending, bytes, sent, outs';
    }
    turn := Continue(pending[next]);
    CountedRemove(pending, bytes, bound, next);
    pending, bytes := pending - {next}, bytes - |turn.head|;
  }

  /** Writes the head and everything that has become next in line, one run at a time. `before` is what
      was written earlier; the runs together are what the ideal buffer releases at once. */
  method WriteInOrder(live: bool, iov: nat, next0: nat, pending0: map<nat, Chunk>, bytes0: nat, first: Chunk, sent0: Chunk,
                      ghost before: seq<Chunk>, ghost bound: nat)
    returns (ok: bool, next: nat, pending: map<nat, Chunk>, bytes: nat, sent: Chunk, ghost written: seq<Chunk>)
    requires iov >= 1 && Counted(pending0, bytes0, bound) && sent0 == Flatten(before)
    ensures var goal := Release(State(next0 + 1, pending0, before + [first]));
            && before <= written <= goal.out
            && Flatten(written) <= sent <= Flatten(goal.out)
            && (ok ==> State(next, pending, goal.out) == goal && sent == Flatten(goal.out) && written == goal.out)
    ensures Counted(pending, bytes, bound) && |pending| <= |pending0| && bytes <= bytes0
    ensures live && first != [] && NoneEmpty(pending0) ==> ok
  {
    ghost var goal := Release(State(next0 + 1, pending0, before + [first]));
    var turn := Continue(first);
    next, pending, bytes, sent, written := next0, pending0, bytes0, sent0, before;
    while turn.Continue?
      invariant Counted(pending, bytes, bound) && |pending| <= |pending0| && bytes <= bytes0
      invariant before <= written
      invariant live && first != [] && NoneEmpty(pending0) ==> !turn.Failed? && NoneEmpty(pending) && (turn.Continue? ==> turn.head != [])
      invariant turn.Continue? ==> Toward(next, pending, written, turn.head, goal) && sent == Flatten(written)
      invariant !turn.Continue? ==> written <= goal.out && Flatten(written) <= sent <= Flatten(goal.out)
      invariant turn.Finished? ==> State(next, pending, goal.out) == goal && written == goal.out && sent == Flatten(goal.out)
      decreases turn.Continue?, |pending|
    {
      turn, next, pending, bytes, sent, written := WriteTurn(live, iov, next, pending, bytes, turn.head, sent, written, goal, bound);
    }
    ok := turn.Finished?;
  }

  /** Writes the frame that is next in line and everything behind it, in step with the ideal buffer. */
  method WriteNext(live: bool, iov: nat, pending0: map<nat, Chunk>, bytes0: nat, f: Frame, sent0: Chunk,
                   ghost initial: nat, ghost arrivals: seq<Frame>, ghost before: seq<Chunk>, ghost bound: nat)
    returns (ok: bool, next: nat, pending: map<nat, Chunk>, bytes: nat, sent: Chunk, ghost written: seq<Chunk>)
    requires iov >= 1 && Counted(pending0, bytes0, bound) && InStep(initial, arrivals, f.seqNo, pending0, before, sent0)
    ensures InOrder(initial, arrivals + [f], written, sent) && before <= written
    ensures ok ==> InStep(initial, arrivals + [f], next, pending, written, sent) && next == initial + |written|
    ensures Counted(pending, bytes, bound) && |pending| <= |pending0| && bytes <= bytes0
    ensures live && f.data != [] && NoneEmpty(pending0) ==> ok
  {
    InStepMeans(initial, arrivals, f.seqNo, pending0, before, sent0);
    ok, next, pending, bytes, sent, written := WriteInOrder(live, iov, f.seqNo, pending0, bytes0, f.data, sent0, before, bound);
    WriteKeeps(initial, arrivals, pending0, before, sent0, f, ok, next, pending, sent, written);
  }

  /** Grants every waiter whose frames have all been written, and no other. */
  method GrantWaiters(next: nat, waiters0: seq<Waiter>)
    returns (waiters: seq<Waiter>, granted: seq<Waiter>)
    ensures multiset(waiters) + multiset(granted) == multiset(waiters0)
    ensures multiset(WaiterAcks(waiters)) + multiset(WaiterAcks(granted)) == multiset(WaiterAcks(waiters0))
    ensures forall w :: w in waiters ==> w.maxSeq >= next
    ensures forall w :: w in granted ==> w.maxSeq < next
    ensures |waiters| <= |waiters0|
  {
    waiters, granted := waiters0, [];
    var i := 0;
    while i < |waiters|
      invariant 0 <= i <= |waiters| <= |waiters0|
      invariant multiset(waiters) + multiset(granted) == multiset(waiters0)
      invariant multiset(WaiterAcks(waiters)) + multiset(WaiterAcks(granted)) == multiset(WaiterAcks(waiters0))
      invariant forall k :: 0 <= k < i ==> waiters[k].maxSeq >= next
      invariant forall w :: w in granted ==> w.maxSeq < next
      decreases |waiters| - i
    {
      if next > waiters[i].maxSeq {
        SwapRemoveAcks(waiters, i);
        WaiterAcksSnoc(granted, waiters[i]);
        waiters, granted := SwapRemove(waiters, i), granted + [waiters[i]];
      } else {
        i := i + 1;
      }
    }
  }

  class Actor {
    const maxIov: nat
    var stage: Stage
    var nextSeq: nat
    var pending: map<nat, Chunk>
    var pendingBytes: nat
    var waiters: seq<Waiter>
    var drained: seq<nat>
    var upstreamOpen: bool
    /** The bytes the upstream connection has taken, and the replies sent. */
    var sent: Chunk
    var replies: seq<Reply>

    ghost const initial: nat
    /** Every frame taken from the channel while reordering, the frames known to be written, a bound on the pending numbers, the acknowledgements taken from the channel,
        and whether a write failed. */
    ghost var arrivals: seq<Frame>
    ghost var written: seq<Chunk>
    ghost var bound: nat
    ghost var taken: multiset<nat>
    ghost var writeFailed: bool
    /** The numbers asked for, each with its acknowledgement. */
    ghost var asked: set<Waiter>

    /** Holds in every stage. */
    ghost predicate Safe()
      reads this
    {
      && InOrder(initial, arrivals, written, sent)
      && RepliesOk(replies, initial + |written|)
      && Accounts(taken, waiters, drained, replies)
      && Sources(replies, waiters, asked)
    }

    ghost predicate Live()
      reads this
    {
      && Safe()
      && maxIov >= 1 && stage == Reordering && upstreamOpen && !writeFailed && drained == []
      && initial + |written| == nextSeq && InStep(initial, arrivals, nextSeq, pending, written, sent)
      && Counted(pending, pendingBytes, bound)
      && |pending| <= MAX_PENDING_FRAMES && pendingBytes <= MAX_PENDING_BYTES
      && (forall w :: w in waiters ==> w.maxSeq >= nextSeq)
      && |waiters| <= MAX_EOS_WAITERS
      && Answered(replies, waiters, asked)
    }

    /** Shut down: nothing is written any more and only refusals are still to be sent. */
    ghost predicate Stopped()
      reads this
    {
      Safe() && stage == Draining && !upstreamOpen && waiters == []
    }

    constructor (initialSeq: nat)
      ensures Live() && initial == nextSeq == initialSeq && arrivals == [] && taken == multiset{} && asked == {}
      ensures sent == [] && replies == [] && waiters == [] && maxIov == Vectored.MAX_WRITE_IOV
    {
      initial, maxIov := initialSeq, Vectored.MAX_WRITE_IOV;
      stage, nextSeq, pending, pendingBytes, waiters, drained := Reordering, initialSeq, map[], 0, [], [];
      upstreamOpen, sent, replies := true, [], [];
      arrivals, written, bound, taken, writeFailed, asked := [], [], 0, multiset{}, false, {};
    }

    /** `shutdown_and_drain`: the waiters are kept, the buffer is given up. */
    method ShutdownAndDrain()
      requires Safe() && stage == Reordering && drained == []
      modifies this`stage, this`upstreamOpen, this`waiters, this`drained
      ensures Stopped() && drained == old(WaiterAcks(waiters))
    {
      upstreamOpen := false;
      SourcesRefuse(replies, waiters, asked, []);
      drained := WaiterAcks(waiters);
      waiters := [];
      stage := Draining;
    }

    /** The limits are checked only for a frame that is ahead of its turn and not yet waiting. */
    predicate Overflows(f: Frame)
      reads this
    {
      && f.seqNo > nextSeq && f.seqNo !in pending
      && (|pending| >= MAX_PENDING_FRAMES || pendingBytes + |f.data| > MAX_PENDING_BYTES)
    }

    /** A frame that is next in line: it and everything behind it is written. */
    method WriteFrom(live: bool, f: Frame) returns (ok: bool)
      requires maxIov >= 1 && nextSeq == f.seqNo
      requires InStep(initial, arrivals, nextSeq, pending, written, sent) && Counted(pending, pendingBytes, bound)
      modifies this`nextSeq, this`pending, this`pendingBytes, this`sent, this`arrivals, this`written, this`writeFailed
      ensures arrivals == old(arrivals) + [f] && ok == !writeFailed
      ensures InOrder(initial, arrivals, written, sent) && old(written) <= written
      ensures ok ==> initial + |written| == nextSeq && InStep(initial, arrivals, nextSeq, pending, written, sent)
      ensures Counted(pending, pendingBytes, bound)
      ensures |pending| <= old(|pending|) && pendingBytes <= old(pendingBytes)
      ensures live && f.data != [] && old(NoneEmpty(pending)) ==> ok
    {
      var next, ahead, bytes, out;
      ghost var done;
      ok, next, ahead, bytes, out, done :=
        WriteNext(live, maxIov, pending, pendingBytes, f, sent, initial, arrivals, written, bound);
      nextSeq, pending, pendingBytes, sent := next, ahead, bytes, out;
      arrivals, written, writeFailed := arrivals + [f], done, !ok;
    }

    /** Grants the waiters whose frames are all written. */
    method GrantReady()
      requires initial + |written| == nextSeq && RepliesOk(replies, initial + |written|) && Accounts(taken, waiters, drained, replies)
      requires Sources(replies, waiters, asked) && Answered(replies, waiters, asked)
      modifies this`waiters, this`replies
      ensures RepliesOk(replies, initial + |written|) && Accounts(taken, waiters, drained, replies) && Sources(replies, waiters, asked)
      ensures Answered(replies, waiters, asked)
      ensures (forall w :: w in waiters ==> w.maxSeq >= nextSeq) && |waiters| <= old(|waiters|)
    {
      var waiting, granted := GrantWaiters(nextSeq, waiters);
      AccountsGrant(taken, waiters, drained, replies, waiting, granted);
      SourcesGrant(replies, waiters, asked, waiting, granted);
      AnsweredGrant(replies, waiters, asked, waiting, granted);
      waiters := waiting;
      replies := replies + Grants(granted);
    }

    /** A frame ahead of its turn that is within the limits. */
    method PutAside(f: Frame)
      requires f.seqNo != nextSeq && f.seqNo >= nextSeq && f.seqNo !in pending
      requires InStep(initial, arrivals, nextSeq, pending, written, sent) && Counted(pending, pendingBytes, bound)
      modifies this`pending, this`pendingBytes, this`bound, this`arrivals
      ensures arrivals == old(arrivals) + [f]
      ensures InStep(initial, arrivals, nextSeq, pending, written, sent) && InOrder(initial, arrivals, written, sent)
      ensures Counted(pending, pendingBytes, bound)
      ensures |pending| == old(|pending|) + 1 && pendingBytes == old(pendingBytes) + |f.data|
    {
      var ahead := pending[f.seqNo := f.data];
      ghost var hi := if f.seqNo < bound then bound else f.seqNo + 1;
      CountedInsert(pending, pendingBytes, bound, f.seqNo, f.data, hi);
      InStepAside(initial, arrivals, nextSeq, pending, written, sent, f);
      pending := ahead;
      pendingBytes := pendingBytes + |f.data|;
      bound, arrivals := hi, arrivals + [f];
    }

    method ReleaseFrom(live: bool, f: Frame) returns (ok: bool)
      requires Live() && f.seqNo == nextSeq
      modifies this
      ensures taken == old(taken) && arrivals == old(arrivals) + [f] && asked == old(asked)
      ensures ok == !writeFailed && if ok then Live() else Stopped()
      ensures live && f.data != [] && old(NoneEmpty(pending)) ==> ok
    {
      ok := WriteFrom(live, f);
      if ok {
        GrantReady();
      } else {
        ShutdownAndDrain();
      }
    }

    /** A frame that was written before or is already waiting. */
    method Ignore(f: Frame)
      requires Live() && (f.seqNo < nextSeq || f.seqNo in pending) && f.seqNo != nextSeq
      modifies this`arrivals
      ensures Live() && arrivals == old(arrivals) + [f]
    {
      InStepAside(initial, arrivals, nextSeq, pending, written, sent, f);
      arrivals := arrivals + [f];
    }

    method Store(f: Frame)
      requires Live() && f.seqNo > nextSeq && f.seqNo !in pending
      requires |pending| < MAX_PENDING_FRAMES && pendingBytes + |f.data| <= MAX_PENDING_BYTES
      modifies this`pending, this`pendingBytes, this`bound, this`arrivals
      ensures Live() && arrivals == old(arrivals) + [f]
    {
      PutAside(f);
    }

    method HandleFrame(live: bool, f: Frame) returns (stop: bool)
      requires Live()
      modifies this
      ensures taken == old(taken) && asked == old(asked)
      ensures stop <==> writeFailed || old(Overflows(f))
      ensures if stop then Stopped() else Live()
      ensures arrivals == if old(Overflows(f)) then old(arrivals) else old(arrivals) + [f]
      ensures live && f.data != [] && old(NoneEmpty(pending)) ==> !writeFailed
    {
      stop := false;
      if f.seqNo == nextSeq {
        var ok := ReleaseFrom(live, f);
        stop := !ok;
      } else if f.seqNo < nextSeq || f.seqNo in pending {
        Ignore(f);
      } else if |pending| >= MAX_PENDING_FRAMES || pendingBytes + |f.data| > MAX_PENDING_BYTES {
        ShutdownAndDrain();
        stop := true;
      } else {
        Store(f);
      }
    }

    /** An end-of-body marker that is answered at once. */
    method Answer(r: Reply)
      requires Live() && (r.Granted? ==> r.maxSeq < nextSeq)
      modifies this`replies, this`taken, this`asked
      ensures Live() && taken == old(taken) + multiset{r.ack} && replies == old(replies) + [r]
      ensures asked == old(asked) + if r.Granted? then {Waiter(r.maxSeq, r.ack)} else {}
    {
      AccountsReply(taken, waiters, drained, replies, r);
      SourcesReply(replies, waiters, asked, r);
      AnsweredMore(replies, waiters, asked, [r], [], if r.Granted? then {Waiter(r.maxSeq, r.ack)} else {});
      assert waiters + [] == waiters;
      replies, taken := replies + [r], taken + multiset{r.ack};
      asked := asked + if r.Granted? then {Waiter(r.maxSeq, r.ack)} else {};
    }

    /** One that waits for its frames. */
    method Enqueue(w: Waiter)
      requires Live() && w.maxSeq >= nextSeq && |waiters| < MAX_EOS_WAITERS
      modifies this`waiters, this`taken, this`asked
      ensures Live() && taken == old(taken) + multiset{w.ack} && waiters == old(waiters) + [w] && asked == old(asked) + {w}
    {
      AccountsWait(taken, waiters, drained, replies, w);
      SourcesWait(replies, waiters, asked, w);
      AnsweredMore(replies, waiters, asked, [], [w], {w});
      assert replies + [] == replies;
      waiters, taken, asked := waiters + [w], taken + multiset{w.ack}, asked + {w};
    }

    method HandleEos(maxSeq: nat, ack: nat) returns (stop: bool)
      requires Live()
      modifies this`waiters, this`replies, this`taken, this`asked
      ensures taken == old(taken) + multiset{ack} && asked == old(asked) + if stop then {} else {Waiter(maxSeq, ack)}
      ensures Live()
      ensures stop <==> maxSeq >= nextSeq && old(|waiters|) >= MAX_EOS_WAITERS
      ensures if maxSeq < nextSeq then replies == old(replies) + [Granted(ack, maxSeq)] && waiters == old(waiters)
              else if stop then replies == old(replies) + [Refused(ack)] && waiters == old(waiters)
              else replies == old(replies) && waiters == old(waiters) + [Waiter(maxSeq, ack)]
    {
      stop := false;
      if nextSeq > maxSeq {
        Answer(Granted(ack, maxSeq));
      } else if |waiters| >= MAX_EOS_WAITERS {
        Answer(Refused(ack));
        stop := true;
      } else {
        Enqueue(Waiter(maxSeq, ack));
      }
    }

    /** `ack_all_waiters`, at the end of every run: whoever still waits is refused. */
    method AckAllWaiters()
      requires Safe()
      modifies this`stage, this`waiters, this`drained, this`replies
      ensures Safe() && stage == Closed && waiters == [] && drained == []
      ensures replies == old(replies) + Refusals(old(WaiterAcks(waiters) + drained))
    {
      var left := WaiterAcks(waiters) + drained;
      AccountsRefuseAll(taken, waiters, drained, replies);
      SourcesRefuse(replies, waiters, asked, left);
      replies := replies + Refusals(left);
      waiters, drained, stage := [], [], Closed;
    }

    /** One command from the channel. On a live connection, and if no frame is empty, no write fails. */
    method Dispatch(live: bool, cmd: Cmd) returns (end: Option<Ending>)
      requires Live()
      modifies this
      ensures Safe() && (end.None? ==> Live())
      ensures taken == old(taken) + match cmd case Eos(_, ack) => multiset{ack} case _ => multiset{}
      ensures arrivals == old(arrivals) || (cmd.FrameCmd? && arrivals == old(arrivals) + [cmd.frame])
      ensures end.None? ==> arrivals == old(arrivals) + if cmd.FrameCmd? then [cmd.frame] else []
      ensures forall w :: w in asked ==> w in old(asked) || cmd == Eos(w.maxSeq, w.ack)
      ensures end.None? ==> asked == old(asked) + if cmd.Eos? then {Waiter(cmd.maxSeq, cmd.ack)} else {}
      ensures end.Some? ==> match end.value
        case WriteFailed => cmd.FrameCmd? && !(live && NonEmptyFrames(old(arrivals) + [cmd.frame]))
        case Overflowed => cmd.FrameCmd? && arrivals == old(arrivals) && OverLimit(ArriveAll(Start(initial), arrivals), cmd.frame)
        case TooManyWait => |taken| > MAX_EOS_WAITERS
        case ShutDown => cmd.Shutdown?
        case _ => false
    {
      end := None;
      match cmd {
        case Shutdown =>
          ShutdownAndDrain();
          end := Some(ShutDown);
        case FrameCmd(f) =>
          end := DispatchFrame(live, f);
        case Eos(maxSeq, ack) =>
          ManyTaken(taken, waiters, drained, replies);
          var stop := HandleEos(maxSeq, ack);
          end := if stop then Some(TooManyWait) else None;
      }
    }

    method DispatchFrame(live: bool, f: Frame) returns (end: Option<Ending>)
      requires Live()
      modifies this
      ensures Safe() && (end.None? ==> Live()) && taken == old(taken) && asked == old(asked)
      ensures arrivals == old(arrivals) || arrivals == old(arrivals) + [f]
      ensures end.None? ==> arrivals == old(arrivals) + [f]
      ensures end.Some? ==> match end.value
        case WriteFailed => !(live && NonEmptyFrames(old(arrivals) + [f]))
        case Overflowed => arrivals == old(arrivals) && OverLimit(ArriveAll(Start(initial), arrivals), f)
        case _ => false
    {
      PendingNoneEmpty(initial, arrivals, nextSeq, pending, written, sent);
      OverLimitMeans(initial, arrivals, nextSeq, pending, written, sent, bound, pendingBytes, f);
      var over := Overflows(f);
      FrontNonEmpty(arrivals, f);
      var stop := HandleFrame(live, f);
      end := if !stop then None else Some(if over then Overflowed else WriteFailed);
    }

    /** The whole life of the actor on an arbitrary sequence of commands, with the reorder timeout
        allowed to strike whenever something is waiting, unless the connection is `live`. The frames that arrived are those of the
        commands taken, in their order, except perhaps the last, which may have been over a limit. However the run ends, what reached the
        upstream is a first part of what an ideal buffer releases for those frames, every grant is for frames that were written, and
        every acknowledgement taken from the channel was answered exactly once. If the run finishes, all commands were taken, all that the
        ideal buffer releases has been sent, and every request whose frames are among it was granted; on a live connection only the limits can
        keep it from that, or a command to shut down. */
    method RunActor(live: bool, cmds: seq<Cmd>) returns (used: nat, end: Ending)
      requires Live() && taken == multiset{} && replies == [] && arrivals == [] && asked == {}
      modifies this
      ensures used <= |cmds| && stage == Closed
      ensures arrivals <= FrameCmds(cmds[..used]) && |FrameCmds(cmds[..used])| <= |arrivals| + 1
      ensures InOrder(initial, arrivals, written, sent) && RepliesOk(replies, initial + |written|)
      ensures multiset(ReplyAcks(replies)) == EosAcks(cmds[..used])
      ensures forall r :: r in replies && r.Granted? ==> Eos(r.maxSeq, r.ack) in cmds[..used]
      ensures end.Complete? ==> used == |cmds| && Completes(initial, cmds, sent, replies)
      ensures EndsRightly(live, initial, cmds, used, end)
    {
      used, end := TakeCommands(live, cmds);
      AccountsMeans(taken, waiters, drained, replies);
      forall r | r in replies && r.Granted?
        ensures Eos(r.maxSeq, r.ack) in cmds[..used]
      {
        GrantsAsked(replies, waiters, asked, r);
      }
    }

    /** The loop over the commands, and the end of the run. */
    method TakeCommands(live: bool, cmds: seq<Cmd>) returns (used: nat, end: Ending)
      requires Live() && taken == multiset{} && replies == [] && arrivals == [] && asked == {}
      modifies this
      ensures used <= |cmds| && stage == Closed && Safe() && waiters == [] && drained == [] && taken == EosAcks(cmds[..used])
      ensures arrivals <= FrameCmds(cmds[..used]) && |FrameCmds(cmds[..used])| <= |arrivals| + 1
      ensures AllAsked(asked, cmds[..used])
      ensures end.Complete? ==> used == |cmds| && Completes(initial, cmds, sent, replies)
      ensures EndsRightly(live, initial, cmds, used, end)
    {
      used := 0;
      var stop: Option<Ending> := None;
      while stop.None?
        invariant used <= |cmds| && Taken(live, cmds, used, stop)
        decreases stop.None?, |cmds| - used
      {
        var timeout: bool := *;
        if used == |cmds| || (timeout && !live && (pending != map[] || waiters != [])) {
          stop := StopTaking(live, cmds, used);
        } else {
          stop := TakeCommand(live, cmds, used);
          used := used + 1;
        }
      }
      end := stop.value;
      Conclude(live, cmds, used, end);
    }

    /** The end of the run. */
    method Conclude(live: bool, cmds: seq<Cmd>, used: nat, end: Ending)
      requires used <= |cmds| && Taken(live, cmds, used, Some(end))
      modifies this`stage, this`waiters, this`drained, this`replies
      ensures Taken(live, cmds, used, Some(end)) && stage == Closed && waiters == [] && drained == []
    {
      ghost var said := replies;
      AckAllWaiters();
      if end.Complete? {
        CompletesMore(initial, cmds, sent, said, replies);
      }
    }

    /** After `used` commands: while the actor runs, it has taken exactly those; once it stops, for a good reason. */
    ghost predicate Taken(live: bool, cmds: seq<Cmd>, used: nat, stop: Option<Ending>)
      reads this
      requires used <= |cmds|
    {
      && Safe() && taken == EosAcks(cmds[..used]) && AllAsked(asked, cmds[..used])
      && arrivals <= FrameCmds(cmds[..used]) && |FrameCmds(cmds[..used])| <= |arrivals| + 1
      && (stop.None? ==> Live() && arrivals == FrameCmds(cmds[..used]) && AsksAll(asked, cmds[..used]))
      && (stop.Some? ==> EndsRightly(live, initial, cmds, used, stop.value))
      && (stop == Some(Complete) ==> used == |cmds| && Completes(initial, cmds, sent, replies))
    }

    /** The channel is closed, or the timeout strikes. */
    method StopTaking(live: bool, cmds: seq<Cmd>, used: nat) returns (stop: Option<Ending>)
      requires used <= |cmds| && Taken(live, cmds, used, None) && (used == |cmds| || !live)
      modifies this`stage, this`upstreamOpen, this`waiters, this`drained
      ensures stop.Some? && Taken(live, cmds, used, stop)
    {
      if used == |cmds| {
        assert cmds[..used] == cmds;
        FinishesWell(cmds);
      }
      ShutdownAndDrain();
      stop := Some(if used == |cmds| then Complete else TimedOut);
    }

    lemma {:induction false} FinishesWell(cmds: seq<Cmd>)
      requires Live() && arrivals == FrameCmds(cmds) && AsksAll(asked, cmds)
      ensures Completes(initial, cmds, sent, replies)
    {
      InStepMeans(initial, arrivals, nextSeq, pending, written, sent);
      AnsweredGranted(replies, waiters, asked, nextSeq);
    }

    method TakeCommand(live: bool, cmds: seq<Cmd>, used: nat) returns (stop: Option<Ending>)
      requires used < |cmds| && Taken(live, cmds, used, None)
      modifies this
      ensures Taken(live, cmds, used + 1, stop)
    {
      EosAcksSnoc(cmds, used);
      FrameCmdsSnoc(cmds, used);
      stop := Dispatch(live, cmds[used]);
      AskedMore(old(asked), asked, cmds, used);
      if stop.None? {
        AsksMore(old(asked), asked, cmds, used);
      } else {
        EndsAt(live, initial, cmds, used, stop.value);
      }
    }
  }

  // ---------------------------------------------------------------- how a run ends

  datatype Ending = Complete | WriteFailed | Overflowed | TooManyWait | TimedOut | ShutDown

  ghost predicate NonEmptyFrames(frames: seq<Frame>) {
    forall f :: f in frames ==> f.data != []
  }

  lemma {:induction false} FrontNonEmpty(frames: seq<Frame>, f: Frame)
    ensures NonEmptyFrames(frames + [f]) <==> NonEmptyFrames(frames) && f.data != []
  {
    assert f in frames + [f];
    assert forall g :: g in frames ==> g in frames + [f];
  }

  /** The frame is ahead of its turn and new, and with it the buffer would hold too many frames or bytes. */
  ghost predicate OverLimit(b: State, f: Frame) {
    && f.seqNo > b.next && f.seqNo !in b.pending
    && (|| |b.pending| >= MAX_PENDING_FRAMES
        || exists bound: nat :: (forall k :: k in b.pending ==> k < bound) && Weight(b.pending, bound) + |f.data| > MAX_PENDING_BYTES)
  }

  lemma {:induction false} OverLimitMeans(initial: nat, arrivals: seq<Frame>, next: nat, pending: map<nat, Chunk>, written: seq<Chunk>, sent: Chunk,
                                          bound: nat, bytes: nat, f: Frame)
    requires InStep(initial, arrivals, next, pending, written, sent) && Counted(pending, bytes, bound)
    ensures f.seqNo > next && f.seqNo !in pending && (|pending| >= MAX_PENDING_FRAMES || bytes + |f.data| > MAX_PENDING_BYTES) ==>
              OverLimit(ArriveAll(Start(initial), arrivals), f)
  {
    InStepMeans(initial, arrivals, next, pending, written, sent);
  }

  lemma {:induction false} PendingNoneEmpty(initial: nat, arrivals: seq<Frame>, next: nat, pending: map<nat, Chunk>, written: seq<Chunk>, sent: Chunk)
    requires InStep(initial, arrivals, next, pending, written, sent)
    ensures NonEmptyFrames(arrivals) ==> NoneEmpty(pending)
  {
    InStepMeans(initial, arrivals, next, pending, written, sent);
    ArriveAllReflects(initial, arrivals);
    if NonEmptyFrames(arrivals) {
      ReceivedNoneEmpty(initial, arrivals);
    }
  }

  lemma {:induction false} ReceivedNoneEmpty(initial: nat, frames: seq<Frame>)
    requires NonEmptyFrames(frames)
    ensures NoneEmpty(Received(initial, frames))
    decreases |frames|
  {
    if frames != [] {
      var n := |frames| - 1;
      assert frames == frames[..n] + [frames[n]];
      FrontNonEmpty(frames[..n], frames[n]);
      ReceivedNoneEmpty(initial, frames[..n]);
    }
  }

  /** Waiters are among the acknowledgements taken. */
  lemma {:induction false} ManyTaken(taken: multiset<nat>, waiters: seq<Waiter>, drained: seq<nat>, replies: seq<Reply>)
    requires Accounts(taken, waiters, drained, replies)
    ensures |waiters| <= |taken|
  {
    AccountsMeans(taken, waiters, drained, replies);
  }

  /** All that the ideal buffer releases has been sent, and every request whose frames are among it has been granted. */
  ghost predicate Completes(initial: nat, cmds: seq<Cmd>, sent: Chunk, replies: seq<Reply>) {
    var ideal := ArriveAll(Start(initial), FrameCmds(cmds));
    && sent == Flatten(ideal.out)
    && forall c :: c in cmds && c.Eos? && c.maxSeq < ideal.next ==> Granted(c.ack, c.maxSeq) in replies
  }

  lemma {:induction false} CompletesMore(initial: nat, cmds: seq<Cmd>, sent: Chunk, replies: seq<Reply>, more: seq<Reply>)
    requires Completes(initial, cmds, sent, replies) && replies <= more
    ensures Completes(initial, cmds, sent, more)
  {
    forall r | r in replies
      ensures r in more
    {
      var i :| 0 <= i < |replies| && replies[i] == r;
      assert more[i] == r;
    }
  }

  /** Why a run may end after `used` commands. */
  ghost predicate EndsRightly(live: bool, initial: nat, cmds: seq<Cmd>, used: nat, end: Ending)
    requires used <= |cmds|
  {
    match end
    case Complete => true
    case TimedOut => !live
    case WriteFailed => !(live && NonEmptyFrames(FrameCmds(cmds[..used])))
    case Overflowed => used > 0 && cmds[used - 1].FrameCmd? && OverLimit(ArriveAll(Start(initial), FrameCmds(cmds[..used - 1])), cmds[used - 1].frame)
    case TooManyWait => |EosAcks(cmds[..used])| > MAX_EOS_WAITERS
    case ShutDown => Shutdown in cmds
  }

  lemma {:induction false} EndsAt(live: bool, initial: nat, cmds: seq<Cmd>, used: nat, end: Ending)
    requires used < |cmds| && match end
        case WriteFailed => cmds[used].FrameCmd? && !(live && NonEmptyFrames(FrameCmds(cmds[..used]) + [cmds[used].frame]))
        case Overflowed => cmds[used].FrameCmd? && OverLimit(ArriveAll(Start(initial), FrameCmds(cmds[..used])), cmds[used].frame)
        case TooManyWait => |EosAcks(cmds[..used + 1])| > MAX_EOS_WAITERS
        case ShutDown => cmds[used].Shutdown?
        case _ => false
    ensures EndsRightly(live, initial, cmds, used + 1, end)
  {
    FrameCmdsSnoc(cmds, used);
  }

  ghost predicate AsksAll(asked: set<Waiter>, cmds: seq<Cmd>) {
    forall c :: c in cmds && c.Eos? ==> Waiter(c.maxSeq, c.ack) in asked
  }

  lemma {:induction false} AsksMore(before: set<Waiter>, asked: set<Waiter>, cmds: seq<Cmd>, used: nat)
    requires used < |cmds| && AsksAll(before, cmds[..used])
    requires asked == before + if cmds[used].Eos? then {Waiter(cmds[used].maxSeq, cmds[used].ack)} else {}
    ensures AsksAll(asked, cmds[..used + 1])
  {
    assert cmds[..used + 1] == cmds[..used] + [cmds[used]];
  }

  ghost predicate AllAsked(asked: set<Waiter>, cmds: seq<Cmd>) {
    forall w :: w in asked ==> Eos(w.maxSeq, w.ack) in cmds
  }

  lemma {:induction false} AskedMore(before: set<Waiter>, asked: set<Waiter>, cmds: seq<Cmd>, used: nat)
    requires used < |cmds| && AllAsked(before, cmds[..used])
    requires forall w :: w in asked ==> w in before || cmds[used] == Eos(w.maxSeq, w.ack)
    ensures AllAsked(asked, cmds[..used + 1])
  {
    assert cmds[..used + 1] == cmds[..used] + [cmds[used]];
  }
}
