/** The limit on buffered frames for a client whose flush timer never fires in the poll that arms it (src/shaper/mod.rs,
    src/client/actor/upload_loop.rs): all frames of a body after its first are then full, except the last of the stream. */
module UploadPatience {
  import opened Bytes
  import opened FrameCodec
  import opened Shaper
  import opened UploadFlow
  import opened UploadLimits
  import UploadActor
  import UploadSealing

  // ---------------------------------------------------------------- one batch

  /** The frames of a batch, from payload number `from` on, are full but for the first, and for the last if the stream has ended. */
  ghost predicate FullBut(payloads: seq<Chunk>, from: nat, full: nat, ended: bool) {
    forall i :: from < i < |payloads| ==> |payloads[i]| == full || (ended && i == |payloads| - 1)
  }

  /** What polls leave of the stream and of the payloads sealed before. */
  ghost predicate Kept(shaper: TrafficShaper, stream: Chunk, before: seq<Chunk>)
    reads shaper
  {
    shaper.Valid() && shaper.read + shaper.upstream == stream && before <= shaper.payloads
  }

  /** The first frame is waited for: polls until one is sealed, the stream ends or fails, or the wait is interrupted. */
  method TakeFirst(shaper: TrafficShaper, polls: nat) returns (batch: Chunk, poll: SealPoll)
    requires shaper.Valid()
    modifies shaper
    ensures Kept(shaper, old(shaper.read + shaper.upstream), old(shaper.payloads))
    ensures |shaper.payloads| == old(|shaper.payloads|) + if poll.Sealed? then 1 else 0
    ensures poll.Sealed? ==> !shaper.timerArmed
    ensures poll.Ended? ==> shaper.upstream == [] && shaper.rawBuf == []
  {
    batch, poll := [], Pending;
    for n := 0 to polls
      invariant Kept(shaper, old(shaper.read + shaper.upstream), old(shaper.payloads)) && poll.Pending? && |shaper.payloads| == old(|shaper.payloads|)
    {
      poll, batch := shaper.PollFillAndSeal([], true);
      if !poll.Pending? {
        return;
      }
    }
  }

  /** One more frame, if it is sealed at once. */
  method TakeAnother(shaper: TrafficShaper, batch: Chunk, ghost from: nat) returns (poll: SealPoll, batch': Chunk)
    requires shaper.Valid() && !shaper.timerArmed
    requires FullBut(shaper.payloads, from, shaper.threshold, shaper.upstream == [] && shaper.rawBuf == [])
    modifies shaper
    ensures Kept(shaper, old(shaper.read + shaper.upstream), old(shaper.payloads))
    ensures FullBut(shaper.payloads, from, shaper.threshold, shaper.upstream == [] && shaper.rawBuf == [])
    ensures poll.Sealed? ==> !shaper.timerArmed && |shaper.upstream| + |shaper.rawBuf| < old(|shaper.upstream| + |shaper.rawBuf|)
    ensures poll.Ended? ==> shaper.upstream == [] && shaper.rawBuf == []
  {
    poll, batch' := shaper.PollFillAndSeal(batch, false);
  }

  /** `do_batching`: after the first frame, which may be short, the shaper is polled with a context that wakes nobody, for as long as it seals at
      once. Since the timer does not fire in the poll that arms it, all further frames are full, but for the last of the stream. */
  method TakeBatch(shaper: TrafficShaper, limit: nat, polls: nat) returns (batch: Chunk, last: SealPoll)
    requires shaper.Valid()
    modifies shaper
    ensures Kept(shaper, old(shaper.read + shaper.upstream), old(shaper.payloads))
    ensures FullBut(shaper.payloads, old(|shaper.payloads|), shaper.threshold, shaper.upstream == [] && shaper.rawBuf == [])
    ensures last.Ended? ==> shaper.upstream == [] && shaper.rawBuf == []
  {
    batch, last := TakeFirst(shaper, polls);
    ghost var from := old(|shaper.payloads|);
    while last.Sealed? && |batch| < limit
      invariant Kept(shaper, old(shaper.read + shaper.upstream), old(shaper.payloads))
      invariant FullBut(shaper.payloads, from, shaper.threshold, shaper.upstream == [] && shaper.rawBuf == [])
      invariant last.Sealed? ==> !shaper.timerArmed
      invariant last.Ended? ==> shaper.upstream == [] && shaper.rawBuf == []
      decreases last.Sealed?, |shaper.upstream| + |shaper.rawBuf|
    {
      last, batch := TakeAnother(shaper, batch, from);
    }
  }

  // ---------------------------------------------------------------- whole runs

  /** In every body the frames after the first carry at least `full` bytes, but for the last of all. */
  ghost predicate Patient(s: Sys, full: nat) {
    forall p, k :: 0 <= p < |s.posts| && s.posts[p].lo < k < s.posts[p].hi && k + 1 < |s.sealed| ==> |s.sealed[k].data| >= full
  }

  /** The limit on frames is hit with such bodies only. */
  ghost predicate TripsPatiently(cfg: Cfg, full: nat) {
    exists s, p: nat :: PatientTrip(cfg, s, p, full)
  }

  ghost predicate PatientTrip(cfg: Cfg, s: Sys, p: nat, full: nat) {
    Reachable(cfg, s) && Patient(s, full) && Enabled(cfg, s, Deliver(p)) && Apply(cfg, s, Deliver(p)).server == Aborted(FrameLimit)
  }

  /** How many of the frames `lo` up to `hi` are shorter. */
  ghost function Short(sealed: seq<Sealed>, full: nat, lo: nat, hi: nat): (n: nat)
    requires lo <= hi <= |sealed|
    ensures n <= hi - lo
    decreases hi - lo
  {
    if lo == hi then 0 else Short(sealed, full, lo, hi - 1) + if |sealed[hi - 1].data| < full then 1 else 0
  }

  lemma {:induction false} ShortJoin(sealed: seq<Sealed>, full: nat, lo: nat, mid: nat, hi: nat)
    requires lo <= mid <= hi <= |sealed|
    ensures Short(sealed, full, lo, hi) == Short(sealed, full, lo, mid) + Short(sealed, full, mid, hi)
    decreases hi - mid
  {
    if mid < hi {
      ShortJoin(sealed, full, lo, mid, hi - 1);
    }
  }

  /** At most the first frame of a body is short, and the last of all. */
  lemma {:induction false} ShortInBody(s: Sys, full: nat, p: nat, from: nat, hi: nat)
    requires Patient(s, full) && p < |s.posts| && s.posts[p].lo <= from <= hi <= s.posts[p].hi <= |s.sealed|
    ensures Short(s.sealed, full, from, hi) <= (if from == s.posts[p].lo && from < hi then 1 else 0) + (if hi == |s.sealed| && from < hi then 1 else 0)
    decreases hi - from
  {
    if from < hi {
      ShortInBody(s, full, p, from, hi - 1);
    }
  }

  /** So among the frames from the one waited for on there are no more short ones than unanswered requests, and one. */
  lemma {:induction false} ShortsAreOpen(s: Sys, full: nat, next: nat, m: nat)
    requires Patient(s, full) && Chained(s.early, |s.sealed|, s.posts) && PostsOk(s.posts, next) && m <= |s.posts| && s.early <= next
    ensures var hi := if m == 0 then s.early else s.posts[m - 1].hi;
            next <= hi <= |s.sealed| ==> Short(s.sealed, full, next, hi) <= Open(s.posts[..m]) + if m == |s.posts| then 1 else 0
    decreases m
  {
    if m > 0 {
      var post := s.posts[m - 1];
      ShortsAreOpen(s, full, next, m - 1);
      assert s.posts[..m][..m - 1] == s.posts[..m - 1];
      var from := if next <= post.lo then post.lo else next;
      if next < post.hi {
        assert PostOk(post, next);
        LastBody(s, m);
        ShortInBody(s, full, m - 1, from, post.hi);
        ShortJoin(s.sealed, full, next, from, post.hi);
      }
    }
  }

  lemma {:induction false} LastBody(s: Sys, m: nat)
    requires Chained(s.early, |s.sealed|, s.posts) && 0 < m <= |s.posts|
    ensures s.posts[m - 1].hi == |s.sealed| <==> m == |s.posts|
  {
    if m < |s.posts| {
      assert s.posts[m].lo == s.posts[m - 1].hi;
    }
  }

  /** Lengths: no frame is shorter than `least`, and none with `full` bytes of data shorter than `wire`. */
  ghost predicate Lengths(cfg: Cfg, least: nat, full: nat, wire: nat) {
    && least <= wire
    && forall k: nat, d: Chunk, w: nat {:trigger cfg.seals(k, d, w)} :: cfg.seals(k, d, w) ==> w >= least && (|d| >= full ==> w >= wire)
  }

  /** What the frames `lo` up to `hi` take at the least. */
  ghost function Counted(sealed: seq<Sealed>, least: nat, full: nat, wire: nat, lo: nat, hi: nat): nat
    requires lo <= hi <= |sealed|
    decreases hi - lo
  {
    if lo == hi then 0 else Counted(sealed, least, full, wire, lo, hi - 1) + if |sealed[hi - 1].data| < full then least else wire
  }

  lemma {:induction false} LengthCounted(cfg: Cfg, sealed: seq<Sealed>, least: nat, full: nat, wire: nat, lo: nat, hi: nat)
    requires AllSealed(cfg, sealed) && Lengths(cfg, least, full, wire) && cfg.early <= lo <= hi <= |sealed|
    ensures BodyLen(sealed, lo, hi) >= Counted(sealed, least, full, wire, lo, hi)
    decreases hi - lo
  {
    if lo < hi {
      var k := hi - 1;
      LengthCounted(cfg, sealed, least, full, wire, lo, k);
      BodyLenSnoc(sealed, lo, k);
      assert cfg.seals(k, sealed[k].data, sealed[k].wire);
    }
  }

  lemma {:induction false} CountedIs(sealed: seq<Sealed>, least: nat, full: nat, wire: nat, lo: nat, hi: nat)
    requires lo <= hi <= |sealed| && least <= wire
    ensures Counted(sealed, least, full, wire, lo, hi) == (hi - lo) * least + (hi - lo - Short(sealed, full, lo, hi)) * (wire - least)
    decreases hi - lo
  {
    if lo < hi {
      var n, short := hi - 1 - lo, Short(sealed, full, lo, hi - 1);
      CountedIs(sealed, least, full, wire, lo, hi - 1);
      OneMoreTimes(n, least);
      OneMoreTimes(n - short, wire - least);
    }
  }

  lemma {:induction false} LengthOf(cfg: Cfg, sealed: seq<Sealed>, least: nat, full: nat, wire: nat, lo: nat, hi: nat)
    requires AllSealed(cfg, sealed) && Lengths(cfg, least, full, wire) && cfg.early <= lo <= hi <= |sealed|
    ensures BodyLen(sealed, lo, hi) >= (hi - lo) * least + (hi - lo - Short(sealed, full, lo, hi)) * (wire - least)
  {
    LengthCounted(cfg, sealed, least, full, wire, lo, hi);
    CountedIs(sealed, least, full, wire, lo, hi);
  }

  lemma {:induction false} OneMoreTimes(n: nat, x: nat)
    ensures (n + 1) * x == n * x + x
  {}

  lemma {:induction false} Times(a: nat, b: nat, x: nat)
    requires a <= b
    ensures a * x <= b * x
  {}

  /** How many frames must be full when there are that many requests at a time. */
  function Lack(concurrency: nat): nat {
    if concurrency >= FRAMES + 1 then 0 else FRAMES + 1 - concurrency
  }

  /** What 8194 frames take in flight, as many of them short as there are requests, and one. */
  ghost predicate PatientRoom(cfg: Cfg, least: nat, wire: nat)
    requires least <= wire
  {
    (FRAMES + 2) * least + Lack(cfg.concurrency) * (wire - least) <= cfg.maxInFlight
  }

  lemma {:induction false} PatientNeedsRoom(cfg: Cfg, s: Sys, p: nat, least: nat, full: nat, wire: nat)
    requires Supported(cfg) && Lengths(cfg, least, full, wire) && PatientTrip(cfg, s, p, full)
    ensures PatientRoom(cfg, least, wire)
  {
    ReachableGood(cfg, s);
    var b, k := s.server.buffer, s.posts[p].delivered;
    ManyInFlight(cfg, s, k);
    ShortFew(cfg, s, full);
    HeldLength(cfg, s, least, full, wire);
    var n := |s.sealed| - b.next;
    var short := Short(s.sealed, full, b.next, |s.sealed|);
    Times(FRAMES + 2, n, least);
    Times(Lack(cfg.concurrency), n - short, wire - least);
  }

  lemma {:induction false} ManyInFlight(cfg: Cfg, s: Sys, k: nat)
    requires Inv(cfg, s) && s.server.Up? && s.server.buffer.next < k < |s.sealed| && k !in s.server.buffer.pending
    requires |s.server.buffer.pending| >= FRAMES
    ensures cfg.early <= s.server.buffer.next && s.server.buffer.next + FRAMES + 2 <= |s.sealed|
  {
    var b := s.server.buffer;
    var keys := b.pending.Keys + {k};
    assert |keys| == |b.pending.Keys| + 1;
    PendingRange(s, b);
    InRange(keys, b.next + 1, |s.sealed|);
    ClientChained(cfg, s);
  }

  lemma {:induction false} ShortFew(cfg: Cfg, s: Sys, full: nat)
    requires Inv(cfg, s) && s.server.Up? && Patient(s, full) && s.server.buffer.next < |s.sealed|
    ensures Short(s.sealed, full, s.server.buffer.next, |s.sealed|) <= cfg.concurrency + 1
  {
    assert Look(s);
    ShortsAreOpen(s, full, s.server.buffer.next, |s.posts|);
    assert s.posts[..|s.posts|] == s.posts;
  }

  lemma {:induction false} HeldLength(cfg: Cfg, s: Sys, least: nat, full: nat, wire: nat)
    requires Inv(cfg, s) && s.server.Up? && Lengths(cfg, least, full, wire) && s.server.buffer.next <= |s.sealed|
    ensures var next := s.server.buffer.next; var n := |s.sealed| - next;
      n * least + (n - Short(s.sealed, full, next, |s.sealed|)) * (wire - least) <= cfg.maxInFlight
  {
    AllFromNext(cfg, s);
    LengthOf(cfg, s.sealed, least, full, wire, s.server.buffer.next, |s.sealed|);
  }

  lemma {:induction false} AllFromNext(cfg: Cfg, s: Sys)
    requires Inv(cfg, s) && s.server.Up? && s.server.buffer.next <= |s.sealed|
    ensures BodyLen(s.sealed, s.server.buffer.next, |s.sealed|) <= cfg.maxInFlight && AllSealed(cfg, s.sealed) && cfg.early <= s.server.buffer.next
  {
    assert Look(s);
    RangeHeld(s, s.server.buffer.next, |s.posts|);
    assert s.posts[..|s.posts|] == s.posts;
  }

  // ---------------------------------------------------------------- runs that hit it

  /** A frame with `full` bytes of data can be sealed in `wire` bytes. */
  ghost predicate FullSealable(cfg: Cfg, k: nat, full: nat, wire: nat) {
    exists d: Chunk :: |d| >= full && cfg.seals(k, d, wire)
  }

  /** The same shortest frame, and the same shortest full frame, under every number. */
  ghost predicate Uniform(cfg: Cfg, least: nat, full: nat, wire: nat) {
    && Lengths(cfg, least, full, wire)
    && (forall k: nat :: cfg.early <= k ==> Sealable(cfg, k, least))
    && (forall k: nat :: cfg.early <= k ==> FullSealable(cfg, k, full, wire))
  }

  /** The client that makes certain frames full. */
  ghost function Narrow(cfg: Cfg, full: nat, which: nat -> bool): Cfg {
    cfg.(seals := (k: nat, d: Chunk, w: nat) => cfg.seals(k, d, w) && (which(k) ==> |d| >= full))
  }

  lemma {:induction false} NarrowLeast(cfg: Cfg, least: nat, full: nat, wire: nat, which: nat -> bool, k: nat)
    requires Uniform(cfg, least, full, wire) && cfg.early <= k
    ensures var nc := Narrow(cfg, full, which);
            Least(nc, k) == (if which(k) then wire else least) && Sealable(nc, k, Least(nc, k))
  {
    var nc, w := Narrow(cfg, full, which), if which(k) then wire else least;
    if which(k) {
      assert FullSealable(cfg, k, full, wire);
      var d: Chunk :| |d| >= full && cfg.seals(k, d, wire);
      assert nc.seals(k, d, wire);
    } else {
      assert Sealable(cfg, k, least);
      var d: Chunk :| cfg.seals(k, d, least);
      assert nc.seals(k, d, least);
    }
    assert Sealable(nc, k, w);
    forall v: nat | Sealable(nc, k, v)
      ensures w <= v
    {
      var d: Chunk :| nc.seals(k, d, v);
      assert cfg.seals(k, d, v);
    }
  }

  lemma {:induction false} NarrowFits(cfg: Cfg, least: nat, full: nat, wire: nat, which: nat -> bool)
    requires Supported(cfg) && Uniform(cfg, least, full, wire)
    ensures Supported(Narrow(cfg, full, which)) && Endless(Narrow(cfg, full, which))
  {
    forall k: nat | cfg.early <= k
      ensures Sealable(Narrow(cfg, full, which), k, Least(Narrow(cfg, full, which), k))
    {
      NarrowLeast(cfg, least, full, wire, which, k);
    }
    var nc := Narrow(cfg, full, which);
    forall k: nat, d: Chunk, w: nat | nc.seals(k, d, w)
      ensures d != [] && |d| + FRAME_OVERHEAD <= w <= nc.headroom
    {
      assert cfg.seals(k, d, w);
    }
  }

  /** Its runs are runs of the client. */
  lemma {:induction false} NarrowNext(cfg: Cfg, full: nat, which: nat -> bool, s: Sys, t: Sys)
    requires Next(Narrow(cfg, full, which), s, t)
    ensures Next(cfg, s, t)
  {
    var nc := Narrow(cfg, full, which);
    var step :| Enabled(nc, s, step) && t == Apply(nc, s, step);
    NarrowStep(cfg, nc, full, which, s, step);
  }

  lemma {:induction false} NarrowStep(cfg: Cfg, nc: Cfg, full: nat, which: nat -> bool, s: Sys, step: Step)
    requires nc == Narrow(cfg, full, which) && Enabled(nc, s, step)
    ensures Enabled(cfg, s, step) && Apply(cfg, s, step) == Apply(nc, s, step)
  {
    match step {
      case Launch(batch) => NarrowLaunch(cfg, nc, full, which, s, batch);
      case Deliver(p) =>
      case SendEos(p) =>
      case Answer(p) =>
    }
  }

  lemma {:induction false} NarrowLaunch(cfg: Cfg, nc: Cfg, full: nat, which: nat -> bool, s: Sys, batch: seq<Sealed>)
    requires nc == Narrow(cfg, full, which) && Enabled(nc, s, Launch(batch))
    ensures Enabled(cfg, s, Launch(batch)) && Apply(cfg, s, Launch(batch)) == Apply(nc, s, Launch(batch))
  {
    forall i | 0 <= i < |batch|
      ensures cfg.seals(|s.sealed| + i, batch[i].data, batch[i].wire)
    {
      assert nc.seals(|s.sealed| + i, batch[i].data, batch[i].wire);
    }
    assert Permit(cfg, Sum(Wires(batch))) == Permit(nc, Sum(Wires(batch)));
  }

  lemma {:induction false} NarrowReach(cfg: Cfg, full: nat, which: nat -> bool, s: Sys)
    requires Reachable(Narrow(cfg, full, which), s)
    ensures Reachable(cfg, s)
  {
    var nc := Narrow(cfg, full, which);
    var run :| EndsIn(nc, run, s);
    forall i, j | 0 <= i < |run| && 0 <= j < |run| && j == i + 1
      ensures Next(cfg, run[i], run[j])
    {
      NarrowNext(cfg, full, which, run[i], run[j]);
    }
    assert EndsIn(cfg, run, s);
  }

  lemma {:induction false} FirstIsFirst(early: nat, n: nat, posts: seq<Post>, p: nat)
    requires Chained(early, n, posts) && p < |posts| && posts[p].lo == early
    ensures p == 0
  {
    if p > 0 {
      ChainedOrder(early, n, posts, 0, p);
      assert false;
    }
  }

  /** Before the first of the loaded bodies there is none. */
  lemma {:induction false} NoEarlier(cfg: Cfg, s: Sys, base: nat, cuts: seq<nat>, k: nat)
    requires Supported(cfg) && Loaded(cfg, s, base, cfg.early, cuts, k) && |cuts| >= 2
    ensures base == 0 && AllSealed(cfg, s.sealed)
  {
    ReachableGood(cfg, s);
    assert Look(s);
    assert s.posts[base] == Body(cuts, 0, k);
    assert base == 0 by {
      FirstIsFirst(s.early, |s.sealed|, s.posts, base);
    }
  }

  /** The bodies of one frame, and those whose other frames are full. */
  ghost predicate Covers(cuts: seq<nat>, which: nat -> bool) {
    && cuts != []
    && forall i, j: nat :: 0 <= i < |cuts| - 1 && cuts[i] < j < cuts[i + 1] && j + 1 < cuts[|cuts| - 1] ==> which(j)
  }

  lemma {:induction false} LoadedIsPatient(cfg: Cfg, full: nat, which: nat -> bool, s: Sys, base: nat, cuts: seq<nat>, k: nat)
    requires Supported(Narrow(cfg, full, which)) && Loaded(Narrow(cfg, full, which), s, base, cfg.early, cuts, k) && |cuts| >= 2 && Covers(cuts, which)
    ensures Patient(s, full)
  {
    var nc := Narrow(cfg, full, which);
    NoEarlier(nc, s, base, cuts, k);
    forall p, j | 0 <= p < |s.posts| && s.posts[p].lo < j < s.posts[p].hi && j + 1 < |s.sealed|
      ensures |s.sealed[j].data| >= full
    {
      assert s.posts[0 + p] == Body(cuts, p, k);
      assert which(j);
      assert nc.seals(j, s.sealed[j].data, s.sealed[j].wire);
    }
  }

  lemma {:induction false} LoadedTrips(cfg: Cfg, full: nat, which: nat -> bool, s: Sys, base: nat, cuts: seq<nat>)
    requires Supported(Narrow(cfg, full, which)) && Loaded(Narrow(cfg, full, which), s, base, cfg.early, cuts, cfg.early) && |cuts| >= 2
    requires Covers(cuts, which) && cuts[|cuts| - 1] == cfg.early + FRAMES + 2
    ensures TripsPatiently(cfg, full)
  {
    var nc, k := Narrow(cfg, full, which), cfg.early + FRAMES;
    var t := PutAsideUpTo(nc, s, base, cfg.early, cuts, k);
    var p := OneFrameTooMany(nc, t, base, cfg.early, cuts, k);
    LoadedIsPatient(cfg, full, which, t, base, cuts, k);
    NarrowReach(cfg, full, which, t);
    assert PatientTrip(cfg, t, p, full);
  }

  /** With a request for every frame. */
  lemma {:induction false} ManyTrip(cfg: Cfg, least: nat, full: nat, wire: nat)
    requires Supported(cfg) && Uniform(cfg, least, full, wire) && PatientRoom(cfg, least, wire) && cfg.concurrency >= FRAMES + 2
    ensures TripsPatiently(cfg, full)
  {
    var which, n := (k: nat) => false, cfg.early;
    var nc := Narrow(cfg, full, which);
    NarrowFits(cfg, least, full, wire, which);
    NarrowSum(cfg, least, full, wire, which, n, n + FRAMES + 2, least);
    var s, base := LoadSingles(nc, n, FRAMES + 2);
    SinglesCover(n, FRAMES + 2, which);
    LoadedTrips(cfg, full, which, s, base, Singles(n, FRAMES + 2));
  }

  lemma {:induction false} SinglesCover(n: nat, m: nat, which: nat -> bool)
    ensures Covers(Singles(n, m), which) && Singles(n, m)[m] == n + m
  {
    forall i | 0 <= i <= m
      ensures Singles(n, m)[i] == n + i
    {
      SinglesAt(n, m, i);
    }
  }

  lemma {:induction false} NarrowSum(cfg: Cfg, least: nat, full: nat, wire: nat, which: nat -> bool, lo: nat, hi: nat, each: nat)
    requires Uniform(cfg, least, full, wire) && cfg.early <= lo <= hi
    requires forall k: nat :: lo <= k < hi ==> each == if which(k) then wire else least
    ensures LeastSum(Narrow(cfg, full, which), lo, hi) == each * (hi - lo)
  {
    forall k: nat | lo <= k < hi
      ensures Least(Narrow(cfg, full, which), k) == each
    {
      NarrowLeast(cfg, least, full, wire, which, k);
    }
    UploadSealing.UniformSum(Narrow(cfg, full, which), each, lo, hi);
  }

  /** The frames `lo` up to `hi`, of which the first is short and the others are full. */
  lemma {:induction false} BodySum(cfg: Cfg, least: nat, full: nat, wire: nat, which: nat -> bool, lo: nat, hi: nat)
    requires Uniform(cfg, least, full, wire) && cfg.early <= lo < hi && !which(lo) && forall k: nat :: lo < k < hi ==> which(k)
    ensures LeastSum(Narrow(cfg, full, which), lo, hi) == least + wire * (hi - lo - 1)
  {
    NarrowSum(cfg, least, full, wire, which, lo, lo + 1, least);
    NarrowSum(cfg, least, full, wire, which, lo + 1, hi, wire);
    LeastSumGrows(Narrow(cfg, full, which), lo, lo + 1, hi);
  }

  /** The numbers: with long full frames only a few of the 8194 can be full, and half of these, with a short one, are below the batch limit. */
  lemma {:induction false} PatientNumbers(maxInFlight: nat, headroom: nat, least: nat, wire: nat, c: nat, lack: nat)
    requires maxInFlight <= 2 * 1024 * 1024 && headroom < 20 * 1024 && wire <= headroom && 10000 <= wire && 41 <= least <= wire
    requires c <= 8193 && lack == 8193 - c && 8194 * least + lack * (wire - least) <= maxInFlight
    ensures least * (c + 1) + wire * lack <= maxInFlight && c >= 7984
    ensures forall j: nat :: j <= lack - lack / 2 ==> least + wire * j < 1024 * 1024 && least + wire * j + headroom < maxInFlight
  {
    assert lack * (wire - least) == wire * lack - lack * least;
    assert 8194 * least - lack * least == least * (c + 1);
    Times(lack, lack, 10000);
    TimesLess(10000, wire, lack);
    assert lack <= 209;
    TimesLess(41, least, c + 1);
    forall j: nat | j <= lack - lack / 2
      ensures least + wire * j < 1024 * 1024 && least + wire * j + headroom < maxInFlight
    {
      HalfFits(maxInFlight, headroom, least, wire, c, lack, j);
    }
  }

  lemma {:induction false} TimesLess(a: nat, b: nat, x: nat)
    requires a <= b
    ensures a * x <= b * x
  {}

  lemma {:induction false} HalfFits(maxInFlight: nat, headroom: nat, least: nat, wire: nat, c: nat, lack: nat, j: nat)
    requires maxInFlight <= 2 * 1024 * 1024 && headroom < 20 * 1024 && wire <= headroom && 41 <= least <= wire
    requires c >= 7984 && 41 * (c + 1) <= least * (c + 1) && least * (c + 1) + wire * lack <= maxInFlight && j <= lack - lack / 2
    ensures least + wire * j < 1024 * 1024 && least + wire * j + headroom < maxInFlight
  {
    assert wire * (2 * j) <= wire * (lack + 1) by {
      Times(2 * j, lack + 1, wire);
    }
    assert wire * (2 * j) == 2 * (wire * j) && wire * (lack + 1) == wire * lack + wire;
    assert least * (c + 1) == least * c + least;
    assert least * c >= 41 * 7984 by {
      TimesLess(41, least, c);
    }
    Times(j, lack, wire);
  }

  /** With fewer: all requests but two hold one frame, and those two the full ones and the last. */
  lemma {:induction false} FewTrip(cfg: Cfg, least: nat, full: nat, wire: nat)
    requires Supported(cfg) && Uniform(cfg, least, full, wire) && PatientRoom(cfg, least, wire) && cfg.concurrency <= FRAMES + 1
    requires 10000 <= wire <= cfg.headroom && 41 <= least
    ensures TripsPatiently(cfg, full)
  {
    var n, c, lack := cfg.early, cfg.concurrency, Lack(cfg.concurrency);
    PatientNumbers(cfg.maxInFlight, cfg.headroom, least, wire, c, lack);
    var a := n + c - 2;
    var cut := a + 1 + lack / 2;
    var which := (k: nat) => a < k < n + FRAMES + 1 && k != cut;
    FewTripBy(cfg, least, full, wire, which, a, cut, lack);
  }

  lemma {:induction false} FewTripBy(cfg: Cfg, least: nat, full: nat, wire: nat, which: nat -> bool, a: nat, cut: nat, lack: nat)
    requires Supported(cfg) && Uniform(cfg, least, full, wire) && FullOnes(cfg, which, a, cut)
    requires 3 <= cfg.concurrency && a == cfg.early + cfg.concurrency - 2 && cut == a + 1 + lack / 2 && lack == FRAMES + 1 - cfg.concurrency
    requires least * (cfg.concurrency + 1) + wire * lack <= cfg.maxInFlight
    requires forall j: nat :: j <= lack - lack / 2 ==> least + wire * j < 1024 * 1024 && least + wire * j + cfg.headroom < cfg.maxInFlight
    ensures TripsPatiently(cfg, full)
  {
    var nc := Narrow(cfg, full, which);
    FewRoom(cfg, nc, least, full, wire, which, a, cut, lack);
    NarrowFits(cfg, least, full, wire, which);
    FewLoaded(cfg, nc, full, which, a, cut);
  }

  lemma {:induction false} FewRoom(cfg: Cfg, nc: Cfg, least: nat, full: nat, wire: nat, which: nat -> bool, a: nat, cut: nat, lack: nat)
    requires nc == Narrow(cfg, full, which) && Supported(cfg) && Uniform(cfg, least, full, wire) && FullOnes(cfg, which, a, cut)
    requires 3 <= cfg.concurrency && a == cfg.early + cfg.concurrency - 2 && cut == a + 1 + lack / 2 && lack == FRAMES + 1 - cfg.concurrency
    requires least * (cfg.concurrency + 1) + wire * lack <= cfg.maxInFlight
    requires forall j: nat :: j <= lack - lack / 2 ==> least + wire * j < 1024 * 1024 && least + wire * j + cfg.headroom < cfg.maxInFlight
    ensures var n, end := cfg.early, cfg.early + FRAMES + 2;
      && LeastSum(nc, n, a) <= cfg.maxInFlight && LeastSum(nc, n, cut) <= cfg.maxInFlight && LeastSum(nc, n, end) <= cfg.maxInFlight
      && LeastSum(nc, a, cut - 1) < BatchLimit(nc) && LeastSum(nc, cut, end - 1) < BatchLimit(nc)
  {
    FewSums(cfg, least, full, wire, which, a, cut, lack);
    FewFit(cfg, nc, least, wire, a, cut, lack);
  }

  lemma {:induction false} FewLoaded(cfg: Cfg, nc: Cfg, full: nat, which: nat -> bool, a: nat, cut: nat)
    requires nc == Narrow(cfg, full, which) && Supported(nc) && Endless(nc) && 3 <= cfg.concurrency && a == cfg.early + cfg.concurrency - 2
    requires FullOnes(cfg, which, a, cut)
    requires var n, end := cfg.early, cfg.early + FRAMES + 2;
      && a < cut < end
      && LeastSum(nc, n, a) <= cfg.maxInFlight && LeastSum(nc, n, cut) <= cfg.maxInFlight && LeastSum(nc, n, end) <= cfg.maxInFlight
      && LeastSum(nc, a, cut - 1) < BatchLimit(nc) && LeastSum(nc, cut, end - 1) < BatchLimit(nc)
    ensures TripsPatiently(cfg, full)
  {
    var n, m, end := cfg.early, cfg.concurrency - 2, cfg.early + FRAMES + 2;
    var s, base := LoadFew(nc, n, m, cut, end);
    FewTrips(cfg, nc, full, which, s, base, n, m, cut, end);
  }

  lemma {:induction false} FewTrips(cfg: Cfg, nc: Cfg, full: nat, which: nat -> bool, s: Sys, base: nat, n: nat, m: nat, cut: nat, end: nat)
    requires nc == Narrow(cfg, full, which) && Supported(nc) && n == cfg.early && end == n + FRAMES + 2 && 1 <= m && n + m < cut < end
    requires forall k: nat :: n + m < k < end - 1 && k != cut ==> which(k)
    requires Loaded(nc, s, base, n, Singles(n, m) + [cut] + [end], n)
    ensures TripsPatiently(cfg, full)
  {
    FewCuts(n, m, cut, end, which);
    LoadedTrips(cfg, full, which, s, base, Singles(n, m) + [cut] + [end]);
  }

  lemma {:induction false} LoadFew(nc: Cfg, n: nat, m: nat, cut: nat, end: nat) returns (s: Sys, base: nat)
    requires Supported(nc) && Endless(nc) && nc.early <= n && 1 <= m && m + 2 <= nc.concurrency && n + m < cut < end
    requires LeastSum(nc, n, n + m) <= nc.maxInFlight && LeastSum(nc, n, cut) <= nc.maxInFlight && LeastSum(nc, n, end) <= nc.maxInFlight
    requires LeastSum(nc, n + m, cut - 1) < BatchLimit(nc) && LeastSum(nc, cut, end - 1) < BatchLimit(nc)
    ensures Loaded(nc, s, base, n, Singles(n, m) + [cut] + [end], n)
  {
    var cuts := Singles(n, m);
    FewCuts(n, m, cut, end, (k: nat) => true);
    SinglesAt(n, m, m);
    var one, two;
    one, base := LoadSingles(nc, n, m);
    two := LoadMore(nc, one, base, n, cuts, cut);
    s := LoadMore(nc, two, base, n, cuts + [cut], end);
  }

  lemma {:induction false} FewCuts(n: nat, m: nat, cut: nat, end: nat, which: nat -> bool)
    requires n + m < cut < end && 1 <= m && forall k: nat :: n + m < k < end - 1 && k != cut ==> which(k)
    ensures var cuts := Singles(n, m); Cuts(cuts + [cut], n) && Cuts(cuts + [cut] + [end], n) && Covers(cuts + [cut] + [end], which)
  {
    forall i | 0 <= i <= m
      ensures Singles(n, m)[i] == n + i
    {
      SinglesAt(n, m, i);
    }
  }

  /** Which frames are full: those of the last two bodies, but for the first of each and the last of all. */
  ghost predicate FullOnes(cfg: Cfg, which: nat -> bool, a: nat, cut: nat) {
    forall k: nat :: which(k) <==> a < k < cfg.early + FRAMES + 1 && k != cut
  }

  lemma {:induction false} FewSums(cfg: Cfg, least: nat, full: nat, wire: nat, which: nat -> bool, a: nat, cut: nat, lack: nat)
    requires Supported(cfg) && Uniform(cfg, least, full, wire) && FullOnes(cfg, which, a, cut)
    requires 3 <= cfg.concurrency && a == cfg.early + cfg.concurrency - 2 && cut == a + 1 + lack / 2 && lack == FRAMES + 1 - cfg.concurrency
    ensures var nc, n, end := Narrow(cfg, full, which), cfg.early, cfg.early + FRAMES + 2;
      && LeastSum(nc, n, a) == least * (cfg.concurrency - 2)
      && LeastSum(nc, a, cut) == least + wire * (lack / 2)
      && LeastSum(nc, cut, end - 1) == least + wire * (lack - lack / 2) && LeastSum(nc, end - 1, end) == least
  {
    var n, end := cfg.early, cfg.early + FRAMES + 2;
    NarrowSum(cfg, least, full, wire, which, n, a, least);
    BodySum(cfg, least, full, wire, which, a, cut);
    BodySum(cfg, least, full, wire, which, cut, end - 1);
    NarrowSum(cfg, least, full, wire, which, end - 1, end, least);
    assert end - 1 - cut - 1 == lack - lack / 2;
  }

  lemma {:induction false} Total(least: nat, wire: nat, c: nat, lack: nat, q: nat)
    requires 2 <= c && q <= lack
    ensures least * (c - 2) + (least + wire * q) + (least + wire * (lack - q)) + least == least * (c + 1) + wire * lack
  {}

  lemma {:induction false} FewFit(cfg: Cfg, nc: Cfg, least: nat, wire: nat, a: nat, cut: nat, lack: nat)
    requires nc.maxInFlight == cfg.maxInFlight && nc.headroom == cfg.headroom
    requires 3 <= cfg.concurrency && a == cfg.early + cfg.concurrency - 2 && cut == a + 1 + lack / 2 && lack == FRAMES + 1 - cfg.concurrency
    requires var n, end := cfg.early, cfg.early + FRAMES + 2;
      && LeastSum(nc, n, a) == least * (cfg.concurrency - 2)
      && LeastSum(nc, a, cut) == least + wire * (lack / 2)
      && LeastSum(nc, cut, end - 1) == least + wire * (lack - lack / 2) && LeastSum(nc, end - 1, end) == least
    requires least * (cfg.concurrency + 1) + wire * lack <= cfg.maxInFlight
    requires forall j: nat :: j <= lack - lack / 2 ==> least + wire * j < 1024 * 1024 && least + wire * j + cfg.headroom < cfg.maxInFlight
    ensures var n, end := cfg.early, cfg.early + FRAMES + 2;
      && LeastSum(nc, n, a) <= cfg.maxInFlight && LeastSum(nc, n, cut) <= cfg.maxInFlight && LeastSum(nc, n, end) <= cfg.maxInFlight
      && LeastSum(nc, a, cut - 1) < BatchLimit(nc) && LeastSum(nc, cut, end - 1) < BatchLimit(nc)
  {
    var n, end, q := cfg.early, cfg.early + FRAMES + 2, lack / 2;
    LeastSumGrows(nc, n, a, cut);
    LeastSumGrows(nc, n, cut, end);
    LeastSumGrows(nc, cut, end - 1, end);
    LeastSumGrows(nc, a, cut - 1, cut);
    Total(least, wire, cfg.concurrency, lack, q);
    BelowLimit(nc, least + wire * q);
    BelowLimit(nc, least + wire * (lack - q));
  }

  lemma {:induction false} BelowLimit(cfg: Cfg, n: nat)
    requires n < 1024 * 1024 && n + cfg.headroom < cfg.maxInFlight
    ensures n < BatchLimit(cfg)
  {}

  /** The exact condition, for long full frames: the limit on frames is hit by such a client if and only if 8194 frames fit in flight of which as
      many are short as there are requests at a time, and one. */
  lemma {:induction false} PatientLimitExactlyWhen(cfg: Cfg, least: nat, full: nat, wire: nat)
    requires Supported(cfg) && Uniform(cfg, least, full, wire) && 10000 <= wire <= cfg.headroom && 41 <= least
    ensures TripsPatiently(cfg, full) <==> PatientRoom(cfg, least, wire)
  {
    if PatientRoom(cfg, least, wire) {
      if cfg.concurrency >= FRAMES + 2 {
        ManyTrip(cfg, least, full, wire);
      } else {
        FewTrip(cfg, least, full, wire);
      }
    }
    forall s, p: nat | PatientTrip(cfg, s, p, full)
      ensures PatientRoom(cfg, least, wire)
    {
      PatientNeedsRoom(cfg, s, p, least, full, wire);
    }
  }

  // ---------------------------------------------------------------- the client's configurations

  lemma {:induction false} WithinLengths(cfg: Cfg, full: nat)
    requires SealsWithin(cfg) && full > 0
    ensures Lengths(cfg, 41, full, full + 40)
  {}

  /** What can be sealed: in both encodings a full frame takes at least forty bytes more than its data. */
  lemma {:induction false} SealLengths(sc: Config, early: nat, maxInFlight: nat, concurrency: nat)
    requires Lawful(sc.codec)
    ensures var full := SealThreshold(sc.codec.encoding); Lengths(UploadSealing.CfgOf(sc, early, maxInFlight, concurrency), 41, full, full + 40)
  {
    UploadSealing.CfgSealsWithin(sc, early, maxInFlight, concurrency);
    WithinLengths(UploadSealing.CfgOf(sc, early, maxInFlight, concurrency), SealThreshold(sc.codec.encoding));
  }

  /** Whatever the encoding, the padding rules and the budget, a client whose timer does not fire at once hits the limit on frames only with
      thousands of requests at a time. */
  lemma {:induction false} ThousandsNeeded(sc: Config, early: nat, maxInFlight: nat, concurrency: nat)
    requires Lawful(sc.codec) && MIN_IN_FLIGHT_BYTES <= maxInFlight <= UploadActor.MAX_PENDING_BYTES
    ensures TripsPatiently(UploadSealing.CfgOf(sc, early, maxInFlight, concurrency), SealThreshold(sc.codec.encoding)) ==> concurrency >= 8000
  {
    var cfg, full := UploadSealing.CfgOf(sc, early, maxInFlight, concurrency), SealThreshold(sc.codec.encoding);
    UploadSealing.CfgSupported(sc, early, maxInFlight, concurrency);
    SealLengths(sc, early, maxInFlight, concurrency);
    if s, p: nat :| PatientTrip(cfg, s, p, full) {
      PatientNeedsRoom(cfg, s, p, 41, full, full + 40);
      if concurrency < 8000 {
        Times(193, Lack(concurrency), full - 1);
        assert false;
      }
    }
  }

  /** For the binary encoding with one padding rule, the exact numbers. */
  lemma {:induction false} BinaryPatience(sc: Config, early: nat, maxInFlight: nat, concurrency: nat)
    requires Resolved(sc) && Lawful(sc.codec) && sc.codec.encoding.Binary? && sc.stages == []
    requires MIN_IN_FLIGHT_BYTES <= maxInFlight <= UploadActor.MAX_PENDING_BYTES
    ensures var full := SealThreshold(Binary); var least := UploadSealing.LeastRaw(sc.global, full);
      TripsPatiently(UploadSealing.CfgOf(sc, early, maxInFlight, concurrency), full) <==>
        8194 * (least + 40) + Lack(concurrency) * (full - least) <= maxInFlight
  {
    var cfg, full := UploadSealing.CfgOf(sc, early, maxInFlight, concurrency), SealThreshold(Binary);
    var least := UploadSealing.LeastRaw(sc.global, full);
    UploadSealing.CfgSupported(sc, early, maxInFlight, concurrency);
    BinaryUniform(sc, early, maxInFlight, concurrency);
    PatientLimitExactlyWhen(cfg, least + 40, full, full + 40);
  }

  lemma {:induction false} BinaryUniform(sc: Config, early: nat, maxInFlight: nat, concurrency: nat)
    requires Resolved(sc) && Lawful(sc.codec) && sc.codec.encoding.Binary? && sc.stages == []
    ensures var full := SealThreshold(Binary);
      Uniform(UploadSealing.CfgOf(sc, early, maxInFlight, concurrency), UploadSealing.LeastRaw(sc.global, full) + 40, full, full + 40)
  {
    var cfg, full := UploadSealing.CfgOf(sc, early, maxInFlight, concurrency), SealThreshold(Binary);
    var least, wire := UploadSealing.LeastRaw(sc.global, full) + 40, full + 40;
    forall k: nat, d: Chunk, w: nat | cfg.seals(k, d, w)
      ensures w >= least && (|d| >= full ==> w >= wire)
    {
      BinaryLength(sc, early, maxInFlight, concurrency, k, d, w);
    }
    forall k: nat | cfg.early <= k
      ensures Sealable(cfg, k, least)
    {
      var w := UploadSealing.ShortSealable(sc, early, maxInFlight, concurrency, k);
    }
    forall k: nat | cfg.early <= k
      ensures FullSealable(cfg, k, full, wire)
    {
      FullFrame(sc, early, maxInFlight, concurrency, k);
    }
  }

  lemma {:induction false} BinaryLength(sc: Config, early: nat, maxInFlight: nat, concurrency: nat, k: nat, d: Chunk, w: nat)
    requires Lawful(sc.codec) && sc.codec.encoding.Binary? && sc.stages == []
    requires UploadSealing.CfgOf(sc, early, maxInFlight, concurrency).seals(k, d, w)
    ensures w >= UploadSealing.LeastRaw(sc.global, SealThreshold(Binary)) + 40 && w >= |d| + 40
  {
    var seal := UploadSealing.SealOf(sc, early, maxInFlight, concurrency, k, d, w);
    UploadSealing.SealLength(sc, k, k - early + 1, d, seal);
    UploadSealing.LeastRawIsLeast(sc.global, SealThreshold(Binary), |d|, seal.padding);
  }

  lemma {:induction false} FullFrame(sc: Config, early: nat, maxInFlight: nat, concurrency: nat, k: nat)
    requires Lawful(sc.codec) && sc.codec.encoding.Binary? && sc.stages == [] && early <= k && Resolved(sc)
    ensures FullSealable(UploadSealing.CfgOf(sc, early, maxInFlight, concurrency), k, SealThreshold(Binary), SealThreshold(Binary) + 40)
  {
    var full := SealThreshold(Binary);
    var d, seal := Zeros(full), Seal(Zeros(NONCE_LEN), 0);
    assert d != [] && UploadSealing.MaySeal(sc, k - early + 1, d, seal);
    UploadSealing.SealLength(sc, k, k - early + 1, d, seal);
    UploadSealing.SealsOf(sc, early, maxInFlight, concurrency, k, d, full + 40, seal);
  }
}
