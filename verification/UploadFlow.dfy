/** The upload protocol across both machines: the client seals a byte stream into numbered frames
    and sends them in concurrent POSTs under two semaphores (src/client/actor/upload_loop.rs); the
    server puts them back in order under its own limits (src/server/actor/upload.rs) and answers a
    POST once its frames are written (src/server/handlers.rs). */
module UploadFlow {
  import opened Bytes
  import opened Incremental
  import opened Reorder
  import UploadActor

  const MAX_BATCH_BYTES: nat := 1024 * 1024
  const MIN_IN_FLIGHT_BYTES: nat := 20 * 1024
  /** Ten bytes of header, twelve of nonce, sixteen of tag and two of length: no frame has less around its data. */
  const FRAME_OVERHEAD: nat := 40

  /** A frame as the client sealed it: the data in it and its length on the wire. */
  datatype Sealed = Sealed(data: Chunk, wire: nat)

  /** The limits of a client, the number of frames that went with its first request, and what it can seal: `seals(k, d, w)` says that
      frame number `k` can carry the data `d` in `w` bytes. `UploadSealing` derives it from the encoding and the padding rules. */
  datatype Cfg = Cfg(maxInFlight: nat, concurrency: nat, headroom: nat, early: nat, seals: (nat, Chunk, nat) -> bool)

  /** Every frame carries data and has a length between its overhead and the advertised maximum. */
  ghost predicate SealsWithin(cfg: Cfg) {
    forall k: nat, d: Chunk, w: nat {:trigger cfg.seals(k, d, w)} ::
      cfg.seals(k, d, w) ==> d != [] && |d| + FRAME_OVERHEAD <= w <= cfg.headroom
  }

  ghost predicate Sealable(cfg: Cfg, k: nat, w: nat) {
    exists d: Chunk :: cfg.seals(k, d, w)
  }

  lemma {:induction false} HasLeast(cfg: Cfg, k: nat, w: nat) returns (least: nat)
    requires Sealable(cfg, k, w)
    ensures Sealable(cfg, k, least) && forall v: nat :: Sealable(cfg, k, v) ==> least <= v
  {
    if v: nat :| v < w && Sealable(cfg, k, v) {
      least := HasLeast(cfg, k, v);
    } else {
      least := w;
    }
  }

  /** The length of the shortest frame with number `k`; zero if there is none. */
  ghost function Least(cfg: Cfg, k: nat): (n: nat)
    ensures forall w: nat :: Sealable(cfg, k, w) ==> Sealable(cfg, k, n) && n <= w
  {
    if w: nat :| Sealable(cfg, k, w) then
      assert exists n: nat :: Sealable(cfg, k, n) && forall v: nat :: Sealable(cfg, k, v) ==> n <= v by {
        var n := HasLeast(cfg, k, w);
      }
      var n: nat :| Sealable(cfg, k, n) && forall v: nat :: Sealable(cfg, k, v) ==> n <= v;
      n
    else 0
  }

  /** The bytes that the frames `lo` up to `hi` take at the least. */
  ghost function LeastSum(cfg: Cfg, lo: nat, hi: nat): nat
    requires lo <= hi
    decreases hi - lo
  {
    if lo == hi then 0 else LeastSum(cfg, lo, hi - 1) + Least(cfg, hi - 1)
  }

  // ---------------------------------------------------------------- batching

  function Sum(wires: seq<nat>): nat {
    if wires == [] then 0 else Sum(wires[..|wires| - 1]) + wires[|wires| - 1]
  }

  lemma {:induction false} SumSnoc(wires: seq<nat>, w: nat)
    ensures Sum(wires + [w]) == Sum(wires) + w
  {
    assert (wires + [w])[..|wires|] == wires;
  }

  /** The batch limit of `UploadLoopActor::new`, with its saturating subtraction. */
  function BatchLimit(cfg: Cfg): (n: nat)
    ensures n >= 1
  {
    var room := if cfg.maxInFlight < cfg.headroom then 0 else cfg.maxInFlight - cfg.headroom;
    var n := if MAX_BATCH_BYTES < room then MAX_BATCH_BYTES else room;
    if n < 1 then 1 else n
  }

  function Permit(cfg: Cfg, batchLen: nat): nat {
    var n := if batchLen < cfg.maxInFlight then batchLen else cfg.maxInFlight;
    if n < 1 then 1 else n
  }

  /** A batch that the loop can build: each frame after the first is sealed only while the batch is
      below its limit, and no frame is longer than the advertised maximum. */
  ghost predicate Batchable(cfg: Cfg, wires: seq<nat>) {
    && wires != []
    && (forall i :: 0 <= i < |wires| ==> 1 <= wires[i] <= cfg.headroom)
    && (forall k :: 1 <= k < |wires| ==> Sum(wires[..k]) < BatchLimit(cfg))
  }

  lemma {:induction false} BatchableSnoc(cfg: Cfg, wires: seq<nat>, w: nat)
    requires Batchable(cfg, wires) && Sum(wires) < BatchLimit(cfg) && 1 <= w <= cfg.headroom
    ensures Batchable(cfg, wires + [w]) && Sum(wires + [w]) == Sum(wires) + w
  {
    SumSnoc(wires, w);
    forall k | 1 <= k < |wires + [w]|
      ensures Sum((wires + [w])[..k]) < BatchLimit(cfg)
    {
      assert (wires + [w])[..k] == wires[..k];
      assert wires[..|wires|] == wires;
    }
  }

  lemma {:induction false} BatchableOne(cfg: Cfg, ready: seq<nat>)
    requires ready != [] && 1 <= ready[0] <= cfg.headroom
    ensures Batchable(cfg, ready[..1]) && Sum(ready[..1]) == ready[0]
  {
    assert ready[..1] == [] + [ready[0]];
    SumSnoc([], ready[0]);
  }

  lemma {:induction false} BatchableNext(cfg: Cfg, ready: seq<nat>, used: nat)
    requires used < |ready| && Batchable(cfg, ready[..used]) && Sum(ready[..used]) < BatchLimit(cfg) && 1 <= ready[used] <= cfg.headroom
    ensures Batchable(cfg, ready[..used + 1]) && Sum(ready[..used + 1]) == Sum(ready[..used]) + ready[used]
  {
    assert ready[..used + 1] == ready[..used] + [ready[used]];
    BatchableSnoc(cfg, ready[..used], ready[used]);
  }

  /** The filling loop of `do_batching`. `ready` is what the shaper would seal without waiting; the
      first frame is taken whatever the limit. */
  method FillBatch(cfg: Cfg, ready: seq<nat>) returns (used: nat, batchLen: nat)
    requires forall i :: 0 <= i < |ready| ==> 1 <= ready[i] <= cfg.headroom
    ensures used <= |ready| && batchLen == Sum(ready[..used])
    ensures ready != [] ==> Batchable(cfg, ready[..used])
    ensures used == |ready| || batchLen >= BatchLimit(cfg)
  {
    used, batchLen := 0, 0;
    if ready == [] {
      return;
    }
    used, batchLen := 1, ready[0];
    BatchableOne(cfg, ready);
    while batchLen < BatchLimit(cfg) && used < |ready|
      invariant 1 <= used <= |ready| && batchLen == Sum(ready[..used])
      invariant Batchable(cfg, ready[..used])
    {
      BatchableNext(cfg, ready, used);
      batchLen := batchLen + ready[used];
      used := used + 1;
    }
  }

  /** Every batch the loop can build fits in flight if and only if the longest frame does; then the
      permit taken is exactly the length of the batch. */
  lemma {:induction false} BatchFitsExactlyWhen(cfg: Cfg)
    requires cfg.headroom >= 1
    ensures (forall wires :: Batchable(cfg, wires) ==> Sum(wires) <= cfg.maxInFlight) <==> cfg.headroom <= cfg.maxInFlight
    ensures cfg.headroom <= cfg.maxInFlight ==>
              forall wires :: Batchable(cfg, wires) ==> Permit(cfg, Sum(wires)) == Sum(wires)
  {
    if cfg.headroom <= cfg.maxInFlight {
      forall wires | Batchable(cfg, wires)
        ensures 1 <= Sum(wires) <= cfg.maxInFlight
      {
        BatchFits(cfg, wires);
      }
    } else {
      SumSnoc([], cfg.headroom);
      assert [] + [cfg.headroom] == [cfg.headroom];
      assert Batchable(cfg, [cfg.headroom]);
    }
  }

  lemma {:induction false} BatchFits(cfg: Cfg, wires: seq<nat>)
    requires 1 <= cfg.headroom <= cfg.maxInFlight && Batchable(cfg, wires)
    ensures 1 <= Sum(wires) <= cfg.maxInFlight
  {
    var n := |wires| - 1;
    if n >= 1 {
      assert Sum(wires[..n]) < BatchLimit(cfg);
    } else {
      assert wires[..n] == [];
    }
  }

  // ---------------------------------------------------------------- the two machines

  /** A body on its way: the numbers `lo` up to `hi`, of which those below `delivered` have been
      handed to the server's actor. The request is answered after its end-of-body marker. */
  datatype Phase = Sending | Waiting | Answered
  datatype Post = Post(lo: nat, hi: nat, delivered: nat, phase: Phase)

  datatype Cause = ByteLimit | FrameLimit | EosLimit

  datatype Server = Up(buffer: State) | Aborted(cause: Cause)

  datatype Sys = Sys(early: nat, sealed: seq<Sealed>, posts: seq<Post>, avail: nat, slots: nat, server: Server)

  datatype Step = Launch(batch: seq<Sealed>) | Deliver(p: nat) | SendEos(p: nat) | Answer(p: nat)

  function Wires(sealed: seq<Sealed>): (ws: seq<nat>)
    ensures |ws| == |sealed|
  {
    seq(|sealed|, i requires 0 <= i < |sealed| => sealed[i].wire)
  }

  function Datas(sealed: seq<Sealed>): (ds: seq<Chunk>)
    ensures |ds| == |sealed|
  {
    seq(|sealed|, i requires 0 <= i < |sealed| => sealed[i].data)
  }

  /** Frames that the client can seal under the numbers from `lo` on. */
  ghost predicate WellSealed(cfg: Cfg, lo: nat, sealed: seq<Sealed>) {
    forall i :: 0 <= i < |sealed| ==> cfg.seals(lo + i, sealed[i].data, sealed[i].wire)
  }

  /** All frames after the early ones are such. */
  ghost predicate AllSealed(cfg: Cfg, sealed: seq<Sealed>) {
    forall k :: cfg.early <= k < |sealed| ==> cfg.seals(k, sealed[k].data, sealed[k].wire)
  }

  /** What the client checks at start (src/client/mod.rs), the documented maximum of two mebibytes in flight, and frames within their
      bounds. Any number of concurrent requests is allowed. */
  ghost predicate Supported(cfg: Cfg) {
    && 1 <= cfg.headroom < MIN_IN_FLIGHT_BYTES
    && MIN_IN_FLIGHT_BYTES <= cfg.maxInFlight <= UploadActor.MAX_PENDING_BYTES
    && SealsWithin(cfg)
  }

  /** The tunnel is set up: the early frames went with the first request and have been written. */
  ghost predicate Init(cfg: Cfg, s: Sys) {
    && s.early == cfg.early == |s.sealed|
    && s.posts == [] && s.avail == cfg.maxInFlight && s.slots == cfg.concurrency
    && s.server == Up(State(s.early, map[], Datas(s.sealed)))
  }

  function WaitingCount(posts: seq<Post>, next: nat): nat {
    if posts == [] then 0
    else
      var last := posts[|posts| - 1];
      WaitingCount(posts[..|posts| - 1], next) + (if last.phase.Waiting? && last.hi > next then 1 else 0)
  }

  /** `handle_frame` on the server, with every write succeeding; all numbers in use are below `bound`,
      so that `Weight` is the byte count that the actor keeps. */
  function Handle(b: State, bound: nat, f: Frame): Server {
    if f.seqNo > b.next && f.seqNo !in b.pending && |b.pending| >= UploadActor.MAX_PENDING_FRAMES then
      Aborted(FrameLimit)
    else if f.seqNo > b.next && f.seqNo !in b.pending && Weight(b.pending, bound) + |f.data| > UploadActor.MAX_PENDING_BYTES then
      Aborted(ByteLimit)
    else
      Up(Arrive(b, f))
  }

  /** That is what the actor does: it stops at a frame exactly when `Handle` gives up, and otherwise, writes succeeding, it holds the
      buffer that `Handle` leaves. */
  lemma {:induction false} HandleIsActor(a: UploadActor.Actor, f: Frame, bound: nat)
    requires a.Live() && forall k :: k in a.pending ==> k < bound
    ensures var h := Handle(State(a.nextSeq, a.pending, a.written), bound, f);
      && (h.Aborted? <==> a.Overflows(f))
      && (h.Up? ==> h.buffer == ArriveAll(Start(a.initial), a.arrivals + [f]))
  {
    SameWeight(a.pending, a.bound, bound);
    UploadActor.InStepMeans(a.initial, a.arrivals, a.nextSeq, a.pending, a.written, a.sent);
    ArriveAllSnoc(Start(a.initial), a.arrivals, f);
  }

  lemma {:induction false} SameWeight(m: map<nat, Chunk>, a: nat, b: nat)
    requires forall k :: k in m ==> k < a && k < b
    ensures Weight(m, a) == Weight(m, b)
  {
    if a <= b {
      WeightGrow(m, a, b);
    } else {
      WeightGrow(m, b, a);
    }
  }

  /** One of the requests, with a range of numbers that have been sealed. */
  predicate IsPost(s: Sys, p: nat) {
    p < |s.posts| && s.posts[p].lo <= s.posts[p].hi <= |s.sealed|
  }

  ghost predicate Enabled(cfg: Cfg, s: Sys, step: Step) {
    s.server.Up? &&
    match step
    case Launch(batch) =>
      && WellSealed(cfg, |s.sealed|, batch) && Batchable(cfg, Wires(batch))
      && s.slots >= 1 && s.avail >= Permit(cfg, Sum(Wires(batch)))
    case Deliver(p) => IsPost(s, p) && s.posts[p].phase.Sending? && s.posts[p].delivered < s.posts[p].hi
    case SendEos(p) => IsPost(s, p) && s.posts[p].phase.Sending? && s.posts[p].delivered == s.posts[p].hi
    case Answer(p) => IsPost(s, p) && s.posts[p].phase.Waiting? && s.posts[p].hi <= s.server.buffer.next
  }

  function SetPost(s: Sys, p: nat, post: Post): Sys
    requires p < |s.posts|
  {
    s.(posts := s.posts[p := post])
  }

  /** The bytes of one body on the wire. */
  function BodyLen(sealed: seq<Sealed>, lo: nat, hi: nat): nat
    requires lo <= hi <= |sealed|
  {
    Sum(Wires(sealed[lo..hi]))
  }

  /** The request is answered and its permits go back. */
  function Finish(cfg: Cfg, s: Sys, p: nat): Sys
    requires IsPost(s, p)
  {
    var post := s.posts[p];
    SetPost(s, p, post.(phase := Answered)).(
      avail := s.avail + Permit(cfg, BodyLen(s.sealed, post.lo, post.hi)), slots := s.slots + 1)
  }

  function DoLaunch(cfg: Cfg, s: Sys, batch: seq<Sealed>): Sys
    requires s.slots >= 1 && s.avail >= Permit(cfg, Sum(Wires(batch)))
  {
    var lo, hi := |s.sealed|, |s.sealed| + |batch|;
    s.(sealed := s.sealed + batch, posts := s.posts + [Post(lo, hi, lo, Sending)],
       avail := s.avail - Permit(cfg, Sum(Wires(batch))), slots := s.slots - 1)
  }

  function DoDeliver(s: Sys, p: nat): Sys
    requires s.server.Up? && IsPost(s, p) && s.posts[p].delivered < s.posts[p].hi
  {
    var post := s.posts[p];
    SetPost(s, p, post.(delivered := post.delivered + 1)).(
      server := Handle(s.server.buffer, |s.sealed|, Frame(post.delivered, s.sealed[post.delivered].data)))
  }

  /** `handle_eos`: granted at once, refused when too many wait, or put to wait. */
  function DoEos(cfg: Cfg, s: Sys, p: nat): Sys
    requires s.server.Up? && IsPost(s, p)
  {
    if s.server.buffer.next >= s.posts[p].hi then Finish(cfg, s, p)
    else if WaitingCount(s.posts, s.server.buffer.next) >= UploadActor.MAX_EOS_WAITERS then s.(server := Aborted(EosLimit))
    else SetPost(s, p, s.posts[p].(phase := Waiting))
  }

  ghost function Apply(cfg: Cfg, s: Sys, step: Step): Sys
    requires Enabled(cfg, s, step)
  {
    match step
    case Launch(batch) => DoLaunch(cfg, s, batch)
    case Deliver(p) => DoDeliver(s, p)
    case SendEos(p) => DoEos(cfg, s, p)
    case Answer(p) => Finish(cfg, s, p)
  }

  // ---------------------------------------------------------------- what every step keeps

  /** The bodies cover the `n` frames after the early ones, one after another. */
  ghost predicate Chained(early: nat, n: nat, posts: seq<Post>) {
    && (forall p :: 0 <= p < |posts| ==> early <= posts[p].lo < posts[p].hi <= n)
    && (forall p, q :: 0 <= p < |posts| && 0 <= q < |posts| && q == p + 1 ==> posts[p].hi == posts[q].lo)
    && if posts == [] then n == early else posts[0].lo == early && posts[|posts| - 1].hi == n
  }

  ghost predicate PostOk(post: Post, next: nat) {
    && post.lo <= post.delivered <= post.hi
    && (!post.phase.Sending? ==> post.delivered == post.hi)
    && (post.phase.Answered? ==> post.hi <= next)
  }

  ghost predicate PostsOk(posts: seq<Post>, next: nat) {
    forall p :: 0 <= p < |posts| ==> PostOk(posts[p], next)
  }

  /** The bytes and requests for which permits are held. */
  function Held(sealed: seq<Sealed>, posts: seq<Post>): nat
    requires forall p :: 0 <= p < |posts| ==> posts[p].lo <= posts[p].hi <= |sealed|
  {
    if posts == [] then 0
    else
      var last := posts[|posts| - 1];
      Held(sealed, posts[..|posts| - 1]) + (if last.phase.Answered? then 0 else BodyLen(sealed, last.lo, last.hi))
  }

  function Open(posts: seq<Post>): nat {
    if posts == [] then 0
    else Open(posts[..|posts| - 1]) + (if posts[|posts| - 1].phase.Answered? then 0 else 1)
  }

  /** The server holds frames the client sealed, ahead of its turn, and has written those before it. */
  ghost predicate BufferOk(early: nat, sealed: seq<Sealed>, b: State) {
    && early <= b.next <= |sealed| && b.out == Datas(sealed[..b.next])
    && (forall k :: k in b.pending ==> b.next < k < |sealed| && b.pending[k] == sealed[k].data)
  }

  /** Every body was built by the batching loop. */
  ghost predicate BodiesOk(cfg: Cfg, sealed: seq<Sealed>, posts: seq<Post>) {
    forall p :: 0 <= p < |posts| ==> posts[p].lo < posts[p].hi <= |sealed| && Batchable(cfg, Wires(sealed[posts[p].lo..posts[p].hi]))
  }

  /** What has arrived is below the number waited for or waits for it. */
  predicate Arrived(b: State, k: nat) {
    k < b.next || k in b.pending
  }

  /** A number of a body has arrived exactly when it has been delivered. */
  ghost predicate DeliveredOk(posts: seq<Post>, b: State) {
    forall p, k: nat :: 0 <= p < |posts| && posts[p].lo <= k < posts[p].hi ==> (k < posts[p].delivered <==> Arrived(b, k))
  }

  /** What holds of the client's side alone. */
  ghost predicate ClientOk(cfg: Cfg, s: Sys) {
    forall t: Sys {:trigger Look(t)} :: Look(t) && t == s ==>
      && t.early == cfg.early
      && Chained(t.early, |t.sealed|, t.posts) && AllSealed(cfg, t.sealed) && BodiesOk(cfg, t.sealed, t.posts)
      && t.avail + Held(t.sealed, t.posts) == cfg.maxInFlight
      && t.slots + Open(t.posts) == cfg.concurrency
  }

  /** What holds of the server's buffer. */
  ghost predicate ServerOk(s: Sys, b: State) {
    forall t: Sys {:trigger Look(t)} :: Look(t) && t == s ==>
      BufferOk(t.early, t.sealed, b) && PostsOk(t.posts, b.next) && DeliveredOk(t.posts, b)
  }

  ghost predicate Inv(cfg: Cfg, s: Sys) {
    ClientOk(cfg, s) && (s.server.Up? ==> ServerOk(s, s.server.buffer))
  }

  lemma {:induction false} ReleaseKeeps(s: Sys, b: State)
    requires s.early <= b.next <= |s.sealed| && b.out == Datas(s.sealed[..b.next])
    requires forall k :: k in b.pending ==> b.next <= k < |s.sealed| && b.pending[k] == s.sealed[k].data
    ensures BufferOk(s.early, s.sealed, Release(b)) && Release(b).next >= b.next
    decreases |b.pending|
  {
    if b.next in b.pending {
      DatasSnoc(s.sealed, b.next);
      ReleaseKeeps(s, State(b.next + 1, b.pending - {b.next}, b.out + [b.pending[b.next]]));
    }
  }

  lemma {:induction false} DatasSnoc(sealed: seq<Sealed>, k: nat)
    requires k < |sealed|
    ensures Datas(sealed[..k + 1]) == Datas(sealed[..k]) + [sealed[k].data]
  {}

  /** A frame the client sealed leaves the buffer holding only frames the client sealed. */
  lemma {:induction false} ArriveKeeps(s: Sys, b: State, k: nat)
    requires BufferOk(s.early, s.sealed, b) && k < |s.sealed|
    ensures BufferOk(s.early, s.sealed, Arrive(b, Frame(k, s.sealed[k].data)))
    ensures Arrive(b, Frame(k, s.sealed[k].data)).next >= b.next
  {
    if k == b.next {
      DatasSnoc(s.sealed, k);
      ReleaseKeeps(s, State(b.next + 1, b.pending, b.out + [s.sealed[k].data]));
    }
  }

  lemma {:induction false} SumAppend(a: seq<nat>, b: seq<nat>)
    ensures Sum(a + b) == Sum(a) + Sum(b)
    decreases |b|
  {
    if b == [] {
      assert a + b == a;
    } else {
      var n := |b| - 1;
      SumAppend(a, b[..n]);
      assert (a + b)[..|a + b| - 1] == a + b[..n];
    }
  }

  lemma {:induction false} BodyLenSnoc(sealed: seq<Sealed>, lo: nat, hi: nat)
    requires lo <= hi < |sealed|
    ensures BodyLen(sealed, lo, hi + 1) == BodyLen(sealed, lo, hi) + sealed[hi].wire
  {
    assert Wires(sealed[lo..hi + 1]) == Wires(sealed[lo..hi]) + [sealed[hi].wire];
    SumSnoc(Wires(sealed[lo..hi]), sealed[hi].wire);
  }

  /** Chunks no longer than the frames of one body weigh no more than that body on the wire. */
  lemma {:induction false} RangeWeight(sealed: seq<Sealed>, m: map<nat, Chunk>, lo: nat, hi: nat)
    requires lo <= hi <= |sealed|
    requires forall k :: k in m && lo <= k < hi ==> |m[k]| <= sealed[k].wire
    ensures Weight(m, lo) <= Weight(m, hi) <= Weight(m, lo) + BodyLen(sealed, lo, hi)
    decreases hi - lo
  {
    if lo == hi {
      assert sealed[lo..hi] == [];
    } else {
      RangeWeight(sealed, m, lo, hi - 1);
      BodyLenSnoc(sealed, lo, hi - 1);
    }
  }

  lemma {:induction false} RangeEmpty(m: map<nat, Chunk>, lo: nat, hi: nat)
    requires lo <= hi && forall k :: lo <= k < hi ==> k !in m
    ensures Weight(m, hi) == Weight(m, lo)
    decreases hi - lo
  {
    if lo < hi {
      RangeEmpty(m, lo, hi - 1);
    }
  }

  /** Chunks that belong to bodies not yet answered weigh no more than the permits held for those bodies. */
  lemma {:induction false} WeightHeld(s: Sys, m: map<nat, Chunk>, n: nat)
    requires Chained(s.early, |s.sealed|, s.posts) && n <= |s.posts|
    requires forall k :: k in m ==> s.early <= k < |s.sealed| && |m[k]| <= s.sealed[k].wire
    requires forall p, k :: 0 <= p < |s.posts| && s.posts[p].phase.Answered? && k in m ==> s.posts[p].hi <= k
    ensures Weight(m, if n == 0 then s.early else s.posts[n - 1].hi) <= Held(s.sealed, s.posts[..n])
  {
    if n == 0 {
      RangeEmpty(m, 0, s.early);
    } else {
      var post := s.posts[n - 1];
      WeightHeld(s, m, n - 1);
      assert s.posts[..n][..n - 1] == s.posts[..n - 1];
      RangeWeight(s.sealed, m, post.lo, post.hi);
      if post.phase.Answered? {
        RangeEmpty(m, post.lo, post.hi);
      }
    }
  }

  /** What has a number from the one waited for on lies in unanswered bodies and fits in flight. */
  lemma {:induction false} UnansweredFits(cfg: Cfg, s: Sys, m: map<nat, Chunk>)
    requires Inv(cfg, s) && s.server.Up?
    requires forall k :: k in m ==> s.server.buffer.next <= k < |s.sealed| && |m[k]| <= s.sealed[k].wire
    ensures Weight(m, |s.sealed|) <= cfg.maxInFlight
  {
    assert Look(s);
    WeightHeld(s, m, |s.posts|);
    assert s.posts[..|s.posts|] == s.posts;
  }

  /** The limit on buffered bytes is never the one that is hit. */
  lemma {:induction false} BytesFit(cfg: Cfg, s: Sys, k: nat)
    requires Inv(cfg, s) && Supported(cfg) && s.server.Up? && k < |s.sealed|
    requires k > s.server.buffer.next && k !in s.server.buffer.pending
    ensures Weight(s.server.buffer.pending, |s.sealed|) + |s.sealed[k].data| <= UploadActor.MAX_PENDING_BYTES
  {
    assert Look(s);
    var b := s.server.buffer;
    var m := b.pending[k := s.sealed[k].data];
    WeightInsert(b.pending, k, s.sealed[k].data, |s.sealed|);
    UnansweredFits(cfg, s, m);
  }

  /** Changing one request changes the permits held by the difference it makes. */
  lemma {:induction false} HeldUpdate(sealed: seq<Sealed>, posts: seq<Post>, p: nat, post: Post)
    requires forall i :: 0 <= i < |posts| ==> posts[i].lo <= posts[i].hi <= |sealed|
    requires p < |posts| && post.lo == posts[p].lo && post.hi == posts[p].hi && !posts[p].phase.Answered?
    ensures Held(sealed, posts[p := post]) == Held(sealed, posts) - (if post.phase.Answered? then BodyLen(sealed, post.lo, post.hi) else 0)
    ensures Open(posts[p := post]) == Open(posts) - (if post.phase.Answered? then 1 else 0)
    decreases |posts|
  {
    var n := |posts| - 1;
    if p == n {
      assert posts[p := post][..n] == posts[..n];
    } else {
      assert posts[p := post][..n] == posts[..n][p := post];
      HeldUpdate(sealed, posts[..n], p, post);
    }
  }

  /** Sealing more does not change what is held for earlier bodies. */
  lemma {:induction false} HeldExtend(sealed: seq<Sealed>, more: seq<Sealed>, posts: seq<Post>)
    requires forall i :: 0 <= i < |posts| ==> posts[i].lo <= posts[i].hi <= |sealed|
    ensures Held(sealed + more, posts) == Held(sealed, posts)
    decreases |posts|
  {
    if posts != [] {
      var last := posts[|posts| - 1];
      HeldExtend(sealed, more, posts[..|posts| - 1]);
      assert (sealed + more)[last.lo..last.hi] == sealed[last.lo..last.hi];
    }
  }

  // ---------------------------------------------------------------- bodies in their order

  lemma {:induction false} ChainedOrder(early: nat, n: nat, posts: seq<Post>, p: nat, q: nat)
    requires Chained(early, n, posts) && p < q < |posts|
    ensures posts[p].hi <= posts[q].lo
    decreases q
  {
    if p + 1 < q {
      ChainedOrder(early, n, posts, p, q - 1);
    }
  }

  /** The body that holds a given number. */
  lemma {:induction false} BodyOf(early: nat, n: nat, posts: seq<Post>, k: nat, m: nat) returns (p: nat)
    requires Chained(early, n, posts) && m <= |posts| && early <= k && m > 0 && k < posts[m - 1].hi
    ensures p < m && posts[p].lo <= k < posts[p].hi
  {
    if posts[m - 1].lo <= k {
      p := m - 1;
    } else {
      p := BodyOf(early, n, posts, k, m - 1);
    }
  }

  /** The body that holds the number waited for is still being sent, and has been delivered up to that number. */
  lemma {:induction false} Awaited(cfg: Cfg, s: Sys) returns (p: nat)
    requires Inv(cfg, s) && s.server.Up? && s.server.buffer.next < |s.sealed|
    ensures p < |s.posts| && s.posts[p].phase.Sending? && s.posts[p].lo <= s.posts[p].delivered == s.server.buffer.next < s.posts[p].hi
  {
    assert Look(s);
    var b := s.server.buffer;
    p := BodyOf(s.early, |s.sealed|, s.posts, b.next, |s.posts|);
    var post := s.posts[p];
    assert !Arrived(b, b.next);
    if post.delivered < b.next {
      assert Arrived(b, post.delivered);
    }
  }

  /** Unanswered requests. */
  lemma {:induction false} OpenCounts(posts: seq<Post>, which: set<nat>)
    requires forall p :: p in which ==> p < |posts| && !posts[p].phase.Answered?
    ensures |which| <= Open(posts)
    decreases |posts|
  {
    if posts == [] {
      assert which == {};
    } else {
      var n := |posts| - 1;
      var rest := which - {n};
      OpenCounts(posts[..n], rest);
      assert which <= rest + {n};
      SubsetSize(which, rest, n);
    }
  }

  lemma {:induction false} SubsetSize(all: set<nat>, rest: set<nat>, n: nat)
    requires rest == all - {n}
    ensures |all| == |rest| + if n in all then 1 else 0
  {
    if n in all {
      assert all == rest + {n};
    } else {
      assert all == rest;
    }
  }

  /** Requests that wait, together with two others still sending, are no more than the unanswered ones. */
  lemma {:induction false} WaitingIsOpen(posts: seq<Post>, next: nat, p: nat, q: nat)
    requires p < q
    ensures WaitingCount(posts, next) + (if p < |posts| && posts[p].phase.Sending? then 1 else 0)
              + (if q < |posts| && posts[q].phase.Sending? then 1 else 0) <= Open(posts)
    decreases |posts|
  {
    if posts != [] {
      WaitingIsOpen(posts[..|posts| - 1], next, p, q);
    }
  }

  /** Nor are they more than the frames from the number waited for on. */
  lemma {:induction false} WaitingFrames(early: nat, n: nat, posts: seq<Post>, next: nat, p: nat, q: nat, m: nat)
    requires Chained(early, n, posts) && p < q && m <= |posts|
    ensures WaitingCount(posts[..m], next) + (if p < m && posts[p].phase.Sending? && posts[p].hi > next then 1 else 0)
              + (if q < m && posts[q].phase.Sending? && posts[q].hi > next then 1 else 0)
         <= if m == 0 || posts[m - 1].hi <= next then 0 else posts[m - 1].hi - next
    decreases m
  {
    if m > 0 {
      assert posts[..m][..m - 1] == posts[..m - 1];
      WaitingFrames(early, n, posts, next, p, q, m - 1);
      if m > 1 {
        ChainedOrder(early, n, posts, m - 2, m - 1);
      }
    }
  }

  // ---------------------------------------------------------------- what is in flight

  lemma {:induction false} BodyLenJoin(sealed: seq<Sealed>, lo: nat, mid: nat, hi: nat)
    requires lo <= mid <= hi <= |sealed|
    ensures BodyLen(sealed, lo, hi) == BodyLen(sealed, lo, mid) + BodyLen(sealed, mid, hi)
  {
    assert Wires(sealed[lo..hi]) == Wires(sealed[lo..mid]) + Wires(sealed[mid..hi]);
    SumAppend(Wires(sealed[lo..mid]), Wires(sealed[mid..hi]));
  }

  /** Every frame from the number waited for on is in flight. */
  lemma {:induction false} RangeHeld(s: Sys, next: nat, m: nat)
    requires Chained(s.early, |s.sealed|, s.posts) && PostsOk(s.posts, next) && m <= |s.posts| && s.early <= next
    ensures var hi := if m == 0 then s.early else s.posts[m - 1].hi;
            next <= hi ==> BodyLen(s.sealed, next, hi) <= Held(s.sealed, s.posts[..m])
    decreases m
  {
    if m == 0 {
      assert next <= s.early ==> s.sealed[next..s.early] == [];
    } else {
      var post := s.posts[m - 1];
      RangeHeld(s, next, m - 1);
      assert s.posts[..m][..m - 1] == s.posts[..m - 1];
      if next <= post.lo {
        BodyLenJoin(s.sealed, next, post.lo, post.hi);
      } else if next < post.hi {
        BodyLenJoin(s.sealed, post.lo, next, post.hi);
      } else if next == post.hi {
        assert s.sealed[next..post.hi] == [];
      }
    }
  }

  lemma {:induction false} LeastBody(cfg: Cfg, sealed: seq<Sealed>, lo: nat, hi: nat)
    requires AllSealed(cfg, sealed) && cfg.early <= lo <= hi <= |sealed|
    ensures LeastSum(cfg, lo, hi) <= BodyLen(sealed, lo, hi)
    decreases hi - lo
  {
    if lo < hi {
      var k := hi - 1;
      LeastBody(cfg, sealed, lo, k);
      BodyLenSnoc(sealed, lo, k);
      assert cfg.seals(k, sealed[k].data, sealed[k].wire);
      assert Sealable(cfg, k, sealed[k].wire);
    }
  }

  /** So any frames from there on fit, at their shortest. */
  lemma {:induction false} LeastFits(cfg: Cfg, s: Sys, lo: nat, hi: nat)
    requires Inv(cfg, s) && s.server.Up? && s.server.buffer.next <= lo <= hi <= |s.sealed|
    ensures LeastSum(cfg, lo, hi) <= cfg.maxInFlight
  {
    assert Look(s);
    var next := s.server.buffer.next;
    RangeHeld(s, next, |s.posts|);
    assert s.posts[..|s.posts|] == s.posts;
    BodyLenJoin(s.sealed, next, lo, |s.sealed|);
    BodyLenJoin(s.sealed, lo, hi, |s.sealed|);
    LeastBody(cfg, s.sealed, lo, hi);
  }

  lemma {:induction false} InRange(keys: set<nat>, lo: nat, hi: nat)
    requires lo <= hi && forall k :: k in keys ==> lo <= k < hi
    ensures |keys| <= hi - lo
    decreases hi - lo
  {
    if lo == hi {
      assert keys == {};
    } else {
      InRange(keys - {hi - 1}, lo, hi - 1);
      SubsetSize(keys, keys - {hi - 1}, hi - 1);
    }
  }

  // ---------------------------------------------------------------- when a limit can be hit

  /** From number `n` on, the shortest frames fit in flight: the one waited for, as many as may wait, and one more. With two requests at a
      time, those that wait and the one more must be one body. */
  ghost predicate FrameRoomAt(cfg: Cfg, n: nat) {
    && cfg.early <= n && LeastSum(cfg, n, n + UploadActor.MAX_PENDING_FRAMES + 2) <= cfg.maxInFlight
    && (cfg.concurrency >= 3 || LeastSum(cfg, n + 1, n + 1 + UploadActor.MAX_PENDING_FRAMES) < BatchLimit(cfg))
  }

  ghost predicate FrameRoom(cfg: Cfg) {
    cfg.concurrency >= 2 && exists n: nat :: FrameRoomAt(cfg, n)
  }

  /** Enough requests, each with one shortest frame, fit in flight: the one waited for, as many as may wait, and one more. */
  ghost predicate EosRoomAt(cfg: Cfg, n: nat) {
    cfg.early <= n && LeastSum(cfg, n, n + UploadActor.MAX_EOS_WAITERS + 2) <= cfg.maxInFlight
  }

  ghost predicate EosRoom(cfg: Cfg) {
    cfg.concurrency >= UploadActor.MAX_EOS_WAITERS + 2 && exists n: nat :: EosRoomAt(cfg, n)
  }

  /** A frame that is ahead of its turn belongs to another body than the one waited for. */
  lemma {:induction false} AheadIsOther(cfg: Cfg, s: Sys, p: nat) returns (q: nat)
    requires Inv(cfg, s) && s.server.Up? && IsPost(s, p) && s.posts[p].phase.Sending?
    requires s.server.buffer.next < s.posts[p].delivered && s.server.buffer.next < s.posts[p].hi
    ensures q < p && s.posts[q].phase.Sending? && s.posts[q].delivered == s.server.buffer.next < s.posts[q].hi <= s.posts[p].lo
    ensures s.posts[q].lo <= s.server.buffer.next
  {
    assert Look(s);
    q := Awaited(cfg, s);
    if p < q {
      ChainedOrder(s.early, |s.sealed|, s.posts, p, q);
    } else if q < p {
      ChainedOrder(s.early, |s.sealed|, s.posts, q, p);
    }
  }

  /** The frame limit is hit only if there is room for it. */
  lemma {:induction false} FramesNeedRoom(cfg: Cfg, s: Sys, p: nat)
    requires Inv(cfg, s) && Supported(cfg) && s.server.Up? && IsPost(s, p) && s.posts[p].phase.Sending?
    requires s.server.buffer.next < s.posts[p].delivered < s.posts[p].hi
    requires s.posts[p].delivered !in s.server.buffer.pending && |s.server.buffer.pending| >= UploadActor.MAX_PENDING_FRAMES
    ensures FrameRoom(cfg)
  {
    var b, k := s.server.buffer, s.posts[p].delivered;
    var q := AheadIsOther(cfg, s, p);
    OpenBound(cfg, s, {p, q});
    if cfg.concurrency >= 3 {
      ManyRoom(cfg, s, k);
    } else {
      PendingInOne(cfg, s, p, q);
      InRange(b.pending.Keys, s.posts[p].lo, k);
      OneBodyRoom(cfg, s, p);
    }
  }

  lemma {:induction false} ManyRoom(cfg: Cfg, s: Sys, k: nat)
    requires Inv(cfg, s) && s.server.Up? && s.server.buffer.next < k < |s.sealed| && k !in s.server.buffer.pending
    requires |s.server.buffer.pending| >= UploadActor.MAX_PENDING_FRAMES && cfg.concurrency >= 3
    ensures FrameRoom(cfg)
  {
    var b := s.server.buffer;
    var keys := b.pending.Keys + {k};
    assert |keys| == |b.pending.Keys| + 1;
    PendingRange(s, b);
    InRange(keys, b.next + 1, |s.sealed|);
    LeastFits(cfg, s, b.next, b.next + UploadActor.MAX_PENDING_FRAMES + 2);
    ClientChained(cfg, s);
    assert FrameRoomAt(cfg, b.next);
  }

  lemma {:induction false} PendingRange(s: Sys, b: State)
    requires ServerOk(s, b)
    ensures s.early <= b.next && forall k :: k in b.pending ==> b.next < k < |s.sealed|
  {
    assert Look(s);
  }

  lemma {:induction false} OpenBound(cfg: Cfg, s: Sys, which: set<nat>)
    requires ClientOk(cfg, s) && forall p :: p in which ==> p < |s.posts| && !s.posts[p].phase.Answered?
    ensures |which| <= cfg.concurrency
  {
    assert Look(s);
    OpenCounts(s.posts, which);
  }

  /** With two requests at a time, all frames that wait are of the body that is ahead. */
  lemma {:induction false} PendingInOne(cfg: Cfg, s: Sys, p: nat, q: nat)
    requires Inv(cfg, s) && s.server.Up? && cfg.concurrency == 2 && p < |s.posts| && q < p
    requires s.posts[p].phase.Sending? && s.posts[q].phase.Sending? && s.posts[q].delivered == s.server.buffer.next < s.posts[q].hi
    ensures forall k :: k in s.server.buffer.pending ==> s.posts[p].lo <= k < s.posts[p].delivered
  {
    assert Look(s);
    forall k | k in s.server.buffer.pending
      ensures s.posts[p].lo <= k < s.posts[p].delivered
    {
      OnlyTwoOpen(s, p, q, k);
    }
  }

  lemma {:induction false} OnlyTwoOpen(s: Sys, p: nat, q: nat, k: nat)
    requires Chained(s.early, |s.sealed|, s.posts) && s.server.Up? && ServerOk(s, s.server.buffer) && Open(s.posts) <= 2
    requires q < p < |s.posts| && s.posts[p].phase.Sending? && s.posts[q].phase.Sending? && s.posts[q].delivered == s.server.buffer.next
    requires k in s.server.buffer.pending
    ensures s.posts[p].lo <= k < s.posts[p].delivered
  {
    assert Look(s);
    var b := s.server.buffer;
    var r := BodyOf(s.early, |s.sealed|, s.posts, k, |s.posts|);
    assert Arrived(b, k);
    assert PostOk(s.posts[r], b.next);
    if r != p && r != q {
      var which := {p, q, r};
      assert |which| == 3;
      OpenCounts(s.posts, which);
    }
  }

  lemma {:induction false} OneBodyRoom(cfg: Cfg, s: Sys, p: nat)
    requires Inv(cfg, s) && s.server.Up? && cfg.concurrency == 2 && p < |s.posts| && s.server.buffer.next < s.posts[p].lo
    requires s.posts[p].hi - s.posts[p].lo > UploadActor.MAX_PENDING_FRAMES
    ensures FrameRoom(cfg)
  {
    var lo, hi, n := s.posts[p].lo, s.posts[p].hi, UploadActor.MAX_PENDING_FRAMES;
    ClientChained(cfg, s);
    PendingRange(s, s.server.buffer);
    LeastFits(cfg, s, lo - 1, lo + n + 1);
    BodyStart(cfg, s, p, n);
    assert FrameRoomAt(cfg, lo - 1);
  }

  lemma {:induction false} BodyStart(cfg: Cfg, s: Sys, p: nat, n: nat)
    requires ClientOk(cfg, s) && p < |s.posts| && s.posts[p].lo + n < s.posts[p].hi && 1 <= n
    ensures LeastSum(cfg, s.posts[p].lo, s.posts[p].lo + n) < BatchLimit(cfg)
  {
    assert Look(s);
    BatchStart(cfg, s.sealed, s.posts[p].lo, s.posts[p].hi, n);
    LeastBody(cfg, s.sealed, s.posts[p].lo, s.posts[p].lo + n);
  }

  /** The frames of a batch before its last are below the limit. */
  lemma {:induction false} BatchStart(cfg: Cfg, sealed: seq<Sealed>, lo: nat, hi: nat, n: nat)
    requires lo <= hi <= |sealed| && Batchable(cfg, Wires(sealed[lo..hi])) && 1 <= n < hi - lo
    ensures BodyLen(sealed, lo, lo + n) < BatchLimit(cfg)
  {
    var wires := Wires(sealed[lo..hi]);
    assert Sum(wires[..n]) < BatchLimit(cfg);
    assert wires[..n] == Wires(sealed[lo..lo + n]);
  }

  /** The limit on waiting requests is hit only if there is room for it. */
  lemma {:induction false} EosNeedsRoom(cfg: Cfg, s: Sys, p: nat)
    requires Inv(cfg, s) && s.server.Up? && IsPost(s, p) && s.posts[p].phase.Sending?
    requires s.posts[p].delivered == s.posts[p].hi > s.server.buffer.next
    requires WaitingCount(s.posts, s.server.buffer.next) >= UploadActor.MAX_EOS_WAITERS
    ensures EosRoom(cfg)
  {
    var next := s.server.buffer.next;
    ManyWait(cfg, s, p);
    LeastFits(cfg, s, next, next + UploadActor.MAX_EOS_WAITERS + 2);
    assert EosRoomAt(cfg, next);
  }

  /** Each waiting body, the one that ends now and the one with the awaited frame hold a frame of their own. */
  lemma {:induction false} ManyWait(cfg: Cfg, s: Sys, p: nat)
    requires Inv(cfg, s) && s.server.Up? && IsPost(s, p) && s.posts[p].phase.Sending?
    requires s.posts[p].delivered == s.posts[p].hi > s.server.buffer.next
    requires WaitingCount(s.posts, s.server.buffer.next) >= UploadActor.MAX_EOS_WAITERS
    ensures cfg.early <= s.server.buffer.next && s.server.buffer.next + UploadActor.MAX_EOS_WAITERS + 2 <= |s.sealed|
    ensures cfg.concurrency >= UploadActor.MAX_EOS_WAITERS + 2
  {
    assert Look(s);
    var next := s.server.buffer.next;
    var q := AheadIsOther(cfg, s, p);
    WaitingIsOpen(s.posts, next, q, p);
    WaitingFrames(s.early, |s.sealed|, s.posts, next, q, p, |s.posts|);
    assert s.posts[..|s.posts|] == s.posts;
  }

  // ---------------------------------------------------------------- every step, every run

  /** The invariant; the server gives up only for a limit that there is room to hit, and never for the bytes it buffers. */
  ghost predicate Good(cfg: Cfg, s: Sys) {
    && Inv(cfg, s)
    && s.server != Aborted(ByteLimit)
    && (s.server == Aborted(FrameLimit) ==> FrameRoom(cfg))
    && (s.server == Aborted(EosLimit) ==> EosRoom(cfg))
  }

  lemma {:induction false} PostChange(cfg: Cfg, s: Sys, p: nat, post: Post)
    requires Chained(s.early, |s.sealed|, s.posts) && BodiesOk(cfg, s.sealed, s.posts)
    requires p < |s.posts| && post.lo == s.posts[p].lo && post.hi == s.posts[p].hi
    ensures Chained(s.early, |s.sealed|, s.posts[p := post]) && BodiesOk(cfg, s.sealed, s.posts[p := post])
  {
    PostChains(s.early, |s.sealed|, s.posts, p, post);
  }

  lemma {:induction false} PostChains(early: nat, n: nat, posts: seq<Post>, p: nat, post: Post)
    requires Chained(early, n, posts) && p < |posts| && post.lo == posts[p].lo && post.hi == posts[p].hi
    ensures Chained(early, n, posts[p := post])
  {}

  lemma {:induction false} PostsChange(posts: seq<Post>, p: nat, post: Post, next: nat, next': nat)
    requires PostsOk(posts, next) && next <= next' && p < |posts| && PostOk(post, next')
    ensures PostsOk(posts[p := post], next')
  {}

  lemma {:induction false} LaunchChains(s: Sys, batch: seq<Sealed>, next: nat)
    requires Chained(s.early, |s.sealed|, s.posts) && batch != []
    ensures var lo, hi := |s.sealed|, |s.sealed| + |batch|; Chained(s.early, hi, s.posts + [Post(lo, hi, lo, Sending)])
  {}

  lemma {:induction false} LaunchSealed(cfg: Cfg, s: Sys, batch: seq<Sealed>)
    requires AllSealed(cfg, s.sealed) && BodiesOk(cfg, s.sealed, s.posts) && WellSealed(cfg, |s.sealed|, batch) && Batchable(cfg, Wires(batch))
    requires cfg.early <= |s.sealed|
    ensures var lo, hi := |s.sealed|, |s.sealed| + |batch|;
            AllSealed(cfg, s.sealed + batch) && BodiesOk(cfg, s.sealed + batch, s.posts + [Post(lo, hi, lo, Sending)])
  {
    var lo, hi, all := |s.sealed|, |s.sealed| + |batch|, s.sealed + batch;
    var posts := s.posts + [Post(lo, hi, lo, Sending)];
    forall k | cfg.early <= k < |all|
      ensures cfg.seals(k, all[k].data, all[k].wire)
    {
      if k >= lo {
        assert cfg.seals(lo + (k - lo), batch[k - lo].data, batch[k - lo].wire);
      }
    }
    forall p | 0 <= p < |posts|
      ensures posts[p].lo < posts[p].hi <= |all| && Batchable(cfg, Wires(all[posts[p].lo..posts[p].hi]))
    {
      if p < |s.posts| {
        assert all[posts[p].lo..posts[p].hi] == s.sealed[posts[p].lo..posts[p].hi];
      } else {
        assert all[lo..hi] == batch;
      }
    }
  }

  lemma {:induction false} LaunchServer(s: Sys, batch: seq<Sealed>, b: State)
    requires Chained(s.early, |s.sealed|, s.posts) && ServerOk(s, b) && batch != []
    ensures var lo, hi := |s.sealed|, |s.sealed| + |batch|;
            ServerOk(s.(sealed := s.sealed + batch, posts := s.posts + [Post(lo, hi, lo, Sending)]), b)
  {
    assert Look(s);
    assert (s.sealed + batch)[..b.next] == s.sealed[..b.next];
  }

  lemma {:induction false} LaunchHeld(s: Sys, batch: seq<Sealed>, post: Post)
    requires Chained(s.early, |s.sealed|, s.posts) && post == Post(|s.sealed|, |s.sealed| + |batch|, |s.sealed|, Sending)
    requires Chained(s.early, |s.sealed + batch|, s.posts + [post])
    ensures Held(s.sealed + batch, s.posts + [post]) == Held(s.sealed, s.posts) + Sum(Wires(batch))
    ensures Open(s.posts + [post]) == Open(s.posts) + 1
  {
    HeldExtend(s.sealed, batch, s.posts);
    assert (s.posts + [post])[..|s.posts|] == s.posts;
    assert (s.sealed + batch)[post.lo..post.hi] == batch;
  }

  lemma {:induction false} ClientIs(cfg: Cfg, s: Sys)
    requires s.early == cfg.early
    requires Chained(s.early, |s.sealed|, s.posts) && AllSealed(cfg, s.sealed) && BodiesOk(cfg, s.sealed, s.posts)
    requires s.avail + Held(s.sealed, s.posts) == cfg.maxInFlight && s.slots + Open(s.posts) == cfg.concurrency
    ensures ClientOk(cfg, s)
  {}

  lemma {:induction false} BatchPermit(cfg: Cfg, batch: seq<Sealed>)
    requires Supported(cfg) && Batchable(cfg, Wires(batch))
    ensures Permit(cfg, Sum(Wires(batch))) == Sum(Wires(batch)) && batch != []
  {
    BatchFits(cfg, Wires(batch));
  }

  lemma {:induction false} LaunchClient(cfg: Cfg, s: Sys, batch: seq<Sealed>, t: Sys)
    requires ClientOk(cfg, s) && batch != [] && WellSealed(cfg, |s.sealed|, batch) && Batchable(cfg, Wires(batch))
    requires s.slots >= 1 && s.avail >= Sum(Wires(batch))
    requires t == s.(sealed := s.sealed + batch, posts := s.posts + [Post(|s.sealed|, |s.sealed| + |batch|, |s.sealed|, Sending)],
                     avail := s.avail - Sum(Wires(batch)), slots := s.slots - 1)
    ensures ClientOk(cfg, t)
  {
    assert Look(s);
    LaunchLists(cfg, s, batch, t.sealed, t.posts);
    LaunchCounts(cfg, s, batch, t.sealed, t.posts);
    ClientIs(cfg, t);
  }

  lemma {:induction false} LaunchLists(cfg: Cfg, s: Sys, batch: seq<Sealed>, sealed: seq<Sealed>, posts: seq<Post>)
    requires ClientOk(cfg, s) && batch != [] && WellSealed(cfg, |s.sealed|, batch) && Batchable(cfg, Wires(batch))
    requires sealed == s.sealed + batch && posts == s.posts + [Post(|s.sealed|, |s.sealed| + |batch|, |s.sealed|, Sending)]
    ensures Chained(s.early, |sealed|, posts) && AllSealed(cfg, sealed) && BodiesOk(cfg, sealed, posts)
  {
    assert Look(s);
    LaunchChains(s, batch, 0);
    LaunchSealed(cfg, s, batch);
  }

  lemma {:induction false} LaunchCounts(cfg: Cfg, s: Sys, batch: seq<Sealed>, sealed: seq<Sealed>, posts: seq<Post>)
    requires ClientOk(cfg, s) && sealed == s.sealed + batch && posts == s.posts + [Post(|s.sealed|, |s.sealed| + |batch|, |s.sealed|, Sending)]
    requires Chained(s.early, |sealed|, posts)
    ensures Chained(s.early, |s.sealed|, s.posts)
    ensures Held(sealed, posts) == Held(s.sealed, s.posts) + Sum(Wires(batch)) && Open(posts) == Open(s.posts) + 1
  {
    assert Look(s);
    LaunchHeld(s, batch, Post(|s.sealed|, |s.sealed| + |batch|, |s.sealed|, Sending));
  }

  lemma {:induction false} ClientChained(cfg: Cfg, s: Sys)
    requires ClientOk(cfg, s)
    ensures Chained(s.early, |s.sealed|, s.posts) && s.early == cfg.early
  {
    assert Look(s);
  }

  lemma {:induction false} LaunchKeeps(cfg: Cfg, s: Sys, batch: seq<Sealed>)
    requires Inv(cfg, s) && Supported(cfg) && Enabled(cfg, s, Launch(batch))
    ensures Inv(cfg, DoLaunch(cfg, s, batch))
  {
    BatchPermit(cfg, batch);
    LaunchClient(cfg, s, batch, DoLaunch(cfg, s, batch));
    ClientChained(cfg, s);
    LaunchServer(s, batch, s.server.buffer);
    ServerExcept(s.(sealed := s.sealed + batch, posts := s.posts + [Post(|s.sealed|, |s.sealed| + |batch|, |s.sealed|, Sending)]),
                 DoLaunch(cfg, s, batch), s.server.buffer);
  }

  /** The server's side does not depend on the permits. */
  lemma {:induction false} ServerExcept(s: Sys, t: Sys, b: State)
    requires ServerOk(s, b) && t.early == s.early && t.sealed == s.sealed && t.posts == s.posts
    ensures ServerOk(t, b)
  {
    assert Look(s);
  }

  /** What the server makes of a delivered frame: it is buffered or written, or a limit with room for it is hit. */
  lemma {:induction false} DeliverOutcome(cfg: Cfg, s: Sys, p: nat)
    requires Inv(cfg, s) && Supported(cfg) && Enabled(cfg, s, Deliver(p))
    ensures var k := s.posts[p].delivered; var h := Handle(s.server.buffer, |s.sealed|, Frame(k, s.sealed[k].data));
            && (h.Up? ==> h.buffer == Arrive(s.server.buffer, Frame(k, s.sealed[k].data)))
            && (h.Aborted? ==> h == Aborted(FrameLimit) && FrameRoom(cfg))
  {
    var b, k := s.server.buffer, s.posts[p].delivered;
    if k > b.next && k !in b.pending {
      BytesFit(cfg, s, k);
      if |b.pending| >= UploadActor.MAX_PENDING_FRAMES {
        FramesNeedRoom(cfg, s, p);
      }
    }
  }

  /** Releasing changes neither what has arrived nor what has not. */
  lemma {:induction false} ReleaseArrived(b: State, k: nat)
    ensures Arrived(Release(b), k) <==> Arrived(b, k)
    decreases |b.pending|
  {
    if b.next in b.pending {
      ReleaseArrived(State(b.next + 1, b.pending - {b.next}, b.out + [b.pending[b.next]]), k);
    }
  }

  lemma {:induction false} ArriveArrived(b: State, f: Frame, k: nat)
    ensures Arrived(Arrive(b, f), k) <==> Arrived(b, k) || k == f.seqNo
  {
    if f.seqNo == b.next {
      ReleaseArrived(State(b.next + 1, b.pending, b.out + [f.data]), k);
    }
  }

  /** A delivered frame has arrived, and no other. */
  lemma {:induction false} DeliverArrives(s: Sys, p: nat, b: State)
    requires Chained(s.early, |s.sealed|, s.posts) && s.server.Up? && DeliveredOk(s.posts, s.server.buffer) && IsPost(s, p)
    requires s.posts[p].lo <= s.posts[p].delivered < s.posts[p].hi && b == Arrive(s.server.buffer, Frame(s.posts[p].delivered, s.sealed[s.posts[p].delivered].data))
    ensures DeliveredOk(s.posts[p := s.posts[p].(delivered := s.posts[p].delivered + 1)], b)
  {
    var post := s.posts[p];
    var posts := s.posts[p := post.(delivered := post.delivered + 1)];
    forall q, k: nat | 0 <= q < |posts| && posts[q].lo <= k < posts[q].hi
      ensures k < posts[q].delivered <==> Arrived(b, k)
    {
      ArriveArrived(s.server.buffer, Frame(post.delivered, s.sealed[post.delivered].data), k);
      assert k < s.posts[q].delivered <==> Arrived(s.server.buffer, k);
      if q < p {
        ChainedOrder(s.early, |s.sealed|, s.posts, q, p);
      } else if p < q {
        ChainedOrder(s.early, |s.sealed|, s.posts, p, q);
      }
    }
  }

  lemma {:induction false} ClientPostKeeps(cfg: Cfg, s: Sys, p: nat, post: Post, server: Server)
    requires ClientOk(cfg, s) && p < |s.posts| && post.lo == s.posts[p].lo && post.hi == s.posts[p].hi
    requires !s.posts[p].phase.Answered? && !post.phase.Answered?
    ensures ClientOk(cfg, SetPost(s, p, post).(server := server))
  {
    assert Look(s);
    HeldUpdate(s.sealed, s.posts, p, post);
    PostChange(cfg, s, p, post);
  }

  lemma {:induction false} DeliverKeeps(cfg: Cfg, s: Sys, p: nat)
    requires Good(cfg, s) && Supported(cfg) && Enabled(cfg, s, Deliver(p))
    ensures Good(cfg, DoDeliver(s, p))
  {
    DeliverOutcome(cfg, s, p);
    DeliverInv(cfg, s, p, DoDeliver(s, p).server);
  }

  lemma {:induction false} DeliverInv(cfg: Cfg, s: Sys, p: nat, h: Server)
    requires Inv(cfg, s) && s.server.Up? && IsPost(s, p) && s.posts[p].phase.Sending? && s.posts[p].delivered < s.posts[p].hi
    requires h == Handle(s.server.buffer, |s.sealed|, Frame(s.posts[p].delivered, s.sealed[s.posts[p].delivered].data))
    ensures Inv(cfg, SetPost(s, p, s.posts[p].(delivered := s.posts[p].delivered + 1)).(server := h))
  {
    ClientChained(cfg, s);
    ClientPostKeeps(cfg, s, p, s.posts[p].(delivered := s.posts[p].delivered + 1), h);
    if h.Up? {
      DeliverServerKeeps(s, p, h.buffer);
    }
  }

  lemma {:induction false} DeliverServerKeeps(s: Sys, p: nat, b: State)
    requires Chained(s.early, |s.sealed|, s.posts) && s.server.Up? && ServerOk(s, s.server.buffer) && IsPost(s, p)
    requires s.posts[p].phase.Sending? && s.posts[p].delivered < s.posts[p].hi
    requires b == Arrive(s.server.buffer, Frame(s.posts[p].delivered, s.sealed[s.posts[p].delivered].data))
    ensures ServerOk(SetPost(s, p, s.posts[p].(delivered := s.posts[p].delivered + 1)).(server := Up(b)), b)
  {
    assert Look(s);
    var post := s.posts[p];
    ArriveKeeps(s, s.server.buffer, post.delivered);
    DeliverArrives(s, p, b);
    PostsChange(s.posts, p, post.(delivered := post.delivered + 1), s.server.buffer.next, b.next);
  }

  lemma {:induction false} PhaseKeeps(s: Sys, p: nat, post: Post, b: State)
    requires ServerOk(s, b) && p < |s.posts| && post == s.posts[p].(phase := post.phase) && PostOk(post, b.next)
    ensures PostsOk(s.posts[p := post], b.next) && DeliveredOk(s.posts[p := post], b)
  {
    assert Look(s);
    PostsChange(s.posts, p, post, b.next, b.next);
    var posts := s.posts[p := post];
    forall q, k: nat | 0 <= q < |posts| && posts[q].lo <= k < posts[q].hi
      ensures k < posts[q].delivered <==> Arrived(b, k)
    {
      assert k < s.posts[q].delivered <==> Arrived(b, k);
    }
  }

  lemma {:induction false} FinishKeeps(cfg: Cfg, s: Sys, p: nat)
    requires Inv(cfg, s) && Supported(cfg) && s.server.Up? && IsPost(s, p)
    requires !s.posts[p].phase.Answered? && s.posts[p].delivered == s.posts[p].hi <= s.server.buffer.next
    ensures Inv(cfg, Finish(cfg, s, p))
  {
    FinishClient(cfg, s, p, Finish(cfg, s, p));
    FinishServer(s, p, s.server.buffer, Finish(cfg, s, p));
  }

  lemma {:induction false} FinishClient(cfg: Cfg, s: Sys, p: nat, t: Sys)
    requires ClientOk(cfg, s) && Supported(cfg) && IsPost(s, p) && !s.posts[p].phase.Answered? && t == Finish(cfg, s, p)
    ensures ClientOk(cfg, t)
  {
    assert Look(s);
    var post := s.posts[p].(phase := Answered);
    PostChange(cfg, s, p, post);
    FinishCounts(cfg, s, p, post);
    ClientIs(cfg, t);
  }

  lemma {:induction false} FinishCounts(cfg: Cfg, s: Sys, p: nat, post: Post)
    requires ClientOk(cfg, s) && Supported(cfg) && IsPost(s, p) && !s.posts[p].phase.Answered? && post == s.posts[p].(phase := Answered)
    requires Chained(s.early, |s.sealed|, s.posts) && Chained(s.early, |s.sealed|, s.posts[p := post])
    ensures post.lo <= post.hi <= |s.sealed| && Permit(cfg, BodyLen(s.sealed, post.lo, post.hi)) == BodyLen(s.sealed, post.lo, post.hi)
    ensures Held(s.sealed, s.posts[p := post]) + BodyLen(s.sealed, post.lo, post.hi) == Held(s.sealed, s.posts)
    ensures Open(s.posts[p := post]) + 1 == Open(s.posts)
  {
    assert Look(s);
    HeldUpdate(s.sealed, s.posts, p, post);
    HeldPositive(s.sealed, s.posts, p);
    BodyPermit(cfg, s.sealed, post.lo, post.hi);
  }

  lemma {:induction false} BodyPermit(cfg: Cfg, sealed: seq<Sealed>, lo: nat, hi: nat)
    requires Supported(cfg) && lo <= hi <= |sealed| && Batchable(cfg, Wires(sealed[lo..hi]))
    ensures Permit(cfg, BodyLen(sealed, lo, hi)) == BodyLen(sealed, lo, hi)
  {
    BatchFits(cfg, Wires(sealed[lo..hi]));
  }

  lemma {:induction false} FinishServer(s: Sys, p: nat, b: State, t: Sys)
    requires ServerOk(s, b) && p < |s.posts| && s.posts[p].delivered == s.posts[p].hi <= b.next
    requires t.early == s.early && t.sealed == s.sealed && t.posts == s.posts[p := s.posts[p].(phase := Answered)]
    ensures ServerOk(t, b)
  {
    assert Look(s);
    assert PostOk(s.posts[p], b.next);
    PhaseKeeps(s, p, s.posts[p].(phase := Answered), b);
  }

  /** The permits of one request are among those held. */
  lemma {:induction false} HeldPositive(sealed: seq<Sealed>, posts: seq<Post>, p: nat)
    requires forall i :: 0 <= i < |posts| ==> posts[i].lo <= posts[i].hi <= |sealed|
    requires p < |posts| && !posts[p].phase.Answered?
    ensures BodyLen(sealed, posts[p].lo, posts[p].hi) <= Held(sealed, posts)
    decreases |posts|
  {
    var n := |posts| - 1;
    if p < n {
      HeldPositive(sealed, posts[..n], p);
    }
  }

  lemma {:induction false} SendEosKeeps(cfg: Cfg, s: Sys, p: nat)
    requires Good(cfg, s) && Supported(cfg) && Enabled(cfg, s, SendEos(p))
    ensures Good(cfg, DoEos(cfg, s, p))
  {
    assert Look(s);
    var b := s.server.buffer;
    if b.next >= s.posts[p].hi {
      FinishKeeps(cfg, s, p);
    } else if WaitingCount(s.posts, b.next) >= UploadActor.MAX_EOS_WAITERS {
      EosNeedsRoom(cfg, s, p);
    } else {
      var post := s.posts[p].(phase := Waiting);
      ClientPostKeeps(cfg, s, p, post, s.server);
      PhaseKeeps(s, p, post, b);
    }
  }

  lemma {:induction false} StepKeeps(cfg: Cfg, s: Sys, step: Step)
    requires Good(cfg, s) && Supported(cfg) && Enabled(cfg, s, step)
    ensures Good(cfg, Apply(cfg, s, step))
  {
    match step {
      case Launch(batch) => LaunchKeeps(cfg, s, batch);
      case Deliver(p) => DeliverKeeps(cfg, s, p);
      case SendEos(p) => SendEosKeeps(cfg, s, p);
      case Answer(p) => AnswerKeeps(cfg, s, p);
    }
  }

  lemma {:induction false} AnswerKeeps(cfg: Cfg, s: Sys, p: nat)
    requires Good(cfg, s) && Supported(cfg) && Enabled(cfg, s, Answer(p))
    ensures Good(cfg, Finish(cfg, s, p))
  {
    WaitingDelivered(s, p);
    FinishKeeps(cfg, s, p);
  }

  lemma {:induction false} WaitingDelivered(s: Sys, p: nat)
    requires s.server.Up? && ServerOk(s, s.server.buffer) && p < |s.posts| && s.posts[p].phase.Waiting?
    ensures s.posts[p].delivered == s.posts[p].hi
  {
    assert Look(s);
    assert PostOk(s.posts[p], s.server.buffer.next);
  }

  /** Some step leads from one state to the other. */
  ghost predicate Next(cfg: Cfg, s: Sys, t: Sys) {
    exists step :: Enabled(cfg, s, step) && t == Apply(cfg, s, step)
  }

  lemma {:induction false} NextKeeps(cfg: Cfg, s: Sys, t: Sys)
    requires Good(cfg, s) && Supported(cfg) && Next(cfg, s, t)
    ensures Good(cfg, t)
  {
    var step :| Enabled(cfg, s, step) && t == Apply(cfg, s, step);
    StepKeeps(cfg, s, step);
  }

  /** A run: any interleaving of sealing, delivering and answering, for as long as no request fails. */
  ghost predicate IsRun(cfg: Cfg, run: seq<Sys>) {
    && run != [] && Init(cfg, run[0])
    && forall i, j :: 0 <= i < |run| && 0 <= j < |run| && j == i + 1 ==> Next(cfg, run[i], run[j])
  }

  lemma {:induction false} InitKeeps(cfg: Cfg, s: Sys)
    requires Init(cfg, s)
    ensures Good(cfg, s)
  {
    assert s.sealed[..|s.sealed|] == s.sealed;
  }

  /** Flow control over every run: with any number of concurrent bodies, no order of delivery trips the server's limit on buffered
      bytes, the other two limits are hit only where there is room for it, and what has been written upstream is always the data of the
      first frames, in order. */
  lemma {:induction false} UploadsFlow(cfg: Cfg, run: seq<Sys>, i: nat)
    requires Supported(cfg) && IsRun(cfg, run) && i < |run|
    ensures Good(cfg, run[i])
    ensures run[i].server != Aborted(ByteLimit)
    ensures run[i].server == Aborted(FrameLimit) ==> FrameRoom(cfg)
    ensures run[i].server == Aborted(EosLimit) ==> EosRoom(cfg)
    ensures run[i].server.Up? ==> WritesInOrder(run[i])
  {
    if i == 0 {
      InitKeeps(cfg, run[0]);
    } else {
      UploadsFlow(cfg, run, i - 1);
      NextKeeps(cfg, run[i - 1], run[i]);
    }
    GoodWrites(cfg, run[i]);
  }

  /** What has been written upstream is the data of the first frames, in order. */
  ghost predicate WritesInOrder(s: Sys)
    requires s.server.Up?
  {
    s.server.buffer.next <= |s.sealed| && s.server.buffer.out == Datas(s.sealed[..s.server.buffer.next])
  }

  lemma {:induction false} GoodWrites(cfg: Cfg, s: Sys)
    requires Good(cfg, s)
    ensures s.server.Up? ==> WritesInOrder(s)
  {
    assert Look(s);
  }

  // ---------------------------------------------------------------- draining

  ghost predicate Drained(s: Sys) {
    forall p :: 0 <= p < |s.posts| ==> s.posts[p].phase.Answered?
  }

  /** When every request has been answered, every frame ever sealed has been written upstream in order. */
  lemma {:induction false} DrainedMeansWritten(cfg: Cfg, s: Sys)
    requires Good(cfg, s) && s.server.Up? && Drained(s)
    ensures s.server.buffer.out == Datas(s.sealed) && s.avail == cfg.maxInFlight && s.slots == cfg.concurrency
  {
    assert Look(s);
    if s.posts != [] {
      assert PostOk(s.posts[|s.posts| - 1], s.server.buffer.next);
    }
    assert s.sealed[..|s.sealed|] == s.sealed;
    NothingHeld(s.sealed, s.posts);
  }

  lemma {:induction false} NothingHeld(sealed: seq<Sealed>, posts: seq<Post>)
    requires forall i :: 0 <= i < |posts| ==> posts[i].lo <= posts[i].hi <= |sealed| && posts[i].phase.Answered?
    ensures Held(sealed, posts) == 0 && Open(posts) == 0
    decreases |posts|
  {
    if posts != [] {
      NothingHeld(sealed, posts[..|posts| - 1]);
    }
  }

  /** While a request is unanswered, something can be delivered, marked or answered. */
  lemma {:induction false} UploadNeverStuck(cfg: Cfg, s: Sys) returns (step: Step)
    requires Good(cfg, s) && s.server.Up? && !Drained(s)
    ensures !step.Launch? && Enabled(cfg, s, step)
  {
    assert Look(s);
    var b := s.server.buffer;
    if b.next < |s.sealed| {
      var p := Awaited(cfg, s);
      return Deliver(p);
    }
    var p :| 0 <= p < |s.posts| && !s.posts[p].phase.Answered?;
    if s.posts[p].phase.Waiting? {
      return Answer(p);
    }
    if s.posts[p].delivered < s.posts[p].hi {
      return Deliver(p);
    }
    step := SendEos(p);
  }

  /** How much is left to do for the requests that have been launched. */
  function Left(posts: seq<Post>): nat {
    if posts == [] then 0
    else
      var last := posts[|posts| - 1];
      Left(posts[..|posts| - 1]) + (if last.delivered < last.hi then last.hi - last.delivered else 0)
        + match last.phase case Sending => 2 case Waiting => 1 case Answered => 0
  }

  lemma {:induction false} LeftDrops(posts: seq<Post>, p: nat, post: Post)
    requires p < |posts| && Left([post]) < Left([posts[p]])
    ensures Left(posts[p := post]) < Left(posts)
    decreases |posts|
  {
    var n := |posts| - 1;
    assert [post][..0] == [] && [posts[p]][..0] == [];
    if p == n {
      assert posts[p := post][..n] == posts[..n];
    } else {
      assert posts[p := post][..n] == posts[..n][p := post];
      LeftDrops(posts[..n], p, post);
    }
  }

  /** Every step but a launch leaves less to do, unless the server gives up. */
  lemma {:induction false} StepsDrain(cfg: Cfg, s: Sys, step: Step)
    requires Good(cfg, s) && Enabled(cfg, s, step) && !step.Launch? && Apply(cfg, s, step).server.Up?
    ensures Left(Apply(cfg, s, step).posts) < Left(s.posts)
  {
    var p := step.p;
    var post := Apply(cfg, s, step).posts[p];
    assert [post][..0] == [] && [s.posts[p]][..0] == [];
    LeftDrops(s.posts, p, post);
    assert Apply(cfg, s, step).posts == s.posts[p := post];
  }

  /** States that follow one another without a launch. */
  ghost predicate Draining(cfg: Cfg, run: seq<Sys>, steps: seq<Step>) {
    && |run| == |steps| + 1
    && forall i {:trigger steps[i]} :: 0 <= i < |steps| ==> !steps[i].Launch? && Enabled(cfg, run[i], steps[i]) && run[i + 1] == Apply(cfg, run[i], steps[i])
  }

  /** A client that stops launching drains: without launches there are no more steps than are left to do, and when none can be taken any
      more, every request has been answered and every frame written, or the server has hit a limit that there is room for. */
  lemma {:induction false} UploadsDrain(cfg: Cfg, run: seq<Sys>, steps: seq<Step>, i: nat)
    requires Supported(cfg) && Draining(cfg, run, steps) && Good(cfg, run[0]) && i <= |steps|
    ensures Good(cfg, run[i]) && (run[i].server.Up? ==> i + Left(run[i].posts) <= Left(run[0].posts))
    ensures run[i].server.Up? && (forall step :: Enabled(cfg, run[i], step) ==> step.Launch?) ==>
              Drained(run[i]) && run[i].server.buffer.out == Datas(run[i].sealed)
    ensures run[i].server.Aborted? ==> FrameRoom(cfg) || EosRoom(cfg)
  {
    if i > 0 {
      UploadsDrain(cfg, run, steps, i - 1);
      var step := steps[i - 1];
      StepKeeps(cfg, run[i - 1], step);
      if run[i].server.Up? {
        StepsDrain(cfg, run[i - 1], step);
      }
    }
    StopsDrained(cfg, run[i]);
  }

  /** A state in which nothing but a launch can happen. */
  lemma {:induction false} StopsDrained(cfg: Cfg, s: Sys)
    requires Good(cfg, s)
    ensures s.server.Up? && (forall step :: Enabled(cfg, s, step) ==> step.Launch?) ==> Drained(s) && s.server.buffer.out == Datas(s.sealed)
    ensures s.server.Aborted? ==> FrameRoom(cfg) || EosRoom(cfg)
  {
    if s.server.Up? {
      if Drained(s) {
        DrainedMeansWritten(cfg, s);
      } else {
        var step := UploadNeverStuck(cfg, s);
      }
    } else {
      match s.server.cause
      case ByteLimit =>
      case FrameLimit => assert s.server == Aborted(FrameLimit);
      case EosLimit => assert s.server == Aborted(EosLimit);
    }
  }
}
