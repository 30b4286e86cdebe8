/** When the server's limits on buffered frames and on waiting requests can be hit by a client that keeps to its flow control:
    runs that hit them, and with `UploadFlow` the exact conditions. */
module UploadLimits {
  import opened Bytes
  import opened Incremental
  import opened Reorder
  import opened UploadFlow
  import UploadActor

  const FRAMES: nat := UploadActor.MAX_PENDING_FRAMES
  const WAITERS: nat := UploadActor.MAX_EOS_WAITERS

  /** A frame can be sealed under every number. */
  ghost predicate Endless(cfg: Cfg) {
    forall k: nat :: cfg.early <= k ==> Sealable(cfg, k, Least(cfg, k))
  }

  /** A shortest frame with number `k`. */
  ghost function LeastFrame(cfg: Cfg, k: nat): (f: Sealed)
    requires Endless(cfg) && cfg.early <= k
    ensures f.wire == Least(cfg, k) && cfg.seals(k, f.data, f.wire)
  {
    assert Sealable(cfg, k, Least(cfg, k));
    var d: Chunk :| cfg.seals(k, d, Least(cfg, k));
    Sealed(d, Least(cfg, k))
  }

  /** The shortest frames `lo` up to `hi`. */
  ghost function LeastFrames(cfg: Cfg, lo: nat, hi: nat): (fs: seq<Sealed>)
    requires Endless(cfg) && cfg.early <= lo <= hi
    ensures |fs| == hi - lo
    decreases hi - lo
  {
    if lo == hi then [] else LeastFrames(cfg, lo, hi - 1) + [LeastFrame(cfg, hi - 1)]
  }

  lemma {:induction false} LeastFrameAt(cfg: Cfg, lo: nat, hi: nat, i: nat)
    requires Endless(cfg) && cfg.early <= lo <= lo + i < hi
    ensures LeastFrames(cfg, lo, hi)[i] == LeastFrame(cfg, lo + i)
    decreases hi - lo
  {
    if lo + i < hi - 1 {
      LeastFrameAt(cfg, lo, hi - 1, i);
    }
  }

  lemma {:induction false} LeastFramesSum(cfg: Cfg, lo: nat, hi: nat)
    requires Endless(cfg) && cfg.early <= lo <= hi
    ensures Sum(Wires(LeastFrames(cfg, lo, hi))) == LeastSum(cfg, lo, hi)
    decreases hi - lo
  {
    if lo < hi {
      LeastFramesSum(cfg, lo, hi - 1);
      var fs := LeastFrames(cfg, lo, hi - 1);
      assert Wires(LeastFrames(cfg, lo, hi)) == Wires(fs) + [Least(cfg, hi - 1)];
      SumSnoc(Wires(fs), Least(cfg, hi - 1));
    }
  }

  lemma {:induction false} LeastFramesTake(cfg: Cfg, lo: nat, mid: nat, hi: nat)
    requires Endless(cfg) && cfg.early <= lo <= mid <= hi
    ensures LeastFrames(cfg, lo, hi)[..mid - lo] == LeastFrames(cfg, lo, mid)
    decreases hi - mid
  {
    if mid < hi {
      LeastFramesTake(cfg, lo, mid, hi - 1);
    }
  }

  lemma {:induction false} LeastSumGrows(cfg: Cfg, lo: nat, mid: nat, hi: nat)
    requires lo <= mid <= hi
    ensures LeastSum(cfg, lo, hi) == LeastSum(cfg, lo, mid) + LeastSum(cfg, mid, hi)
    decreases hi - mid
  {
    if mid < hi {
      LeastSumGrows(cfg, lo, mid, hi - 1);
    }
  }

  lemma {:induction false} LeastAtLeast(cfg: Cfg, lo: nat, hi: nat)
    requires Endless(cfg) && SealsWithin(cfg) && cfg.early <= lo <= hi
    ensures LeastSum(cfg, lo, hi) >= (FRAME_OVERHEAD + 1) * (hi - lo)
    decreases hi - lo
  {
    if lo < hi {
      LeastAtLeast(cfg, lo, hi - 1);
      var f := LeastFrame(cfg, hi - 1);
    }
  }

  /** Shortest frames whose bytes before the last are below the limit make a body. */
  lemma {:induction false} LeastBatchable(cfg: Cfg, lo: nat, hi: nat)
    requires Supported(cfg) && Endless(cfg) && cfg.early <= lo < hi && LeastSum(cfg, lo, hi - 1) < BatchLimit(cfg)
    ensures Batchable(cfg, Wires(LeastFrames(cfg, lo, hi))) && WellSealed(cfg, lo, LeastFrames(cfg, lo, hi))
    ensures Permit(cfg, Sum(Wires(LeastFrames(cfg, lo, hi)))) == LeastSum(cfg, lo, hi)
  {
    var wires := Wires(LeastFrames(cfg, lo, hi));
    LeastFramesSum(cfg, lo, hi);
    forall i | 0 <= i < |wires|
      ensures 1 <= wires[i] <= cfg.headroom
    {
      LeastLength(cfg, lo, hi, i);
    }
    forall k | 1 <= k < |wires|
      ensures Sum(wires[..k]) < BatchLimit(cfg)
    {
      LeastPrefix(cfg, lo, hi, k);
    }
    LeastSealed(cfg, lo, hi);
    BatchFits(cfg, wires);
  }

  lemma {:induction false} LeastSealed(cfg: Cfg, lo: nat, hi: nat)
    requires Endless(cfg) && cfg.early <= lo <= hi
    ensures WellSealed(cfg, lo, LeastFrames(cfg, lo, hi))
  {
    var fs := LeastFrames(cfg, lo, hi);
    forall i | 0 <= i < |fs|
      ensures cfg.seals(lo + i, fs[i].data, fs[i].wire)
    {
      LeastFrameAt(cfg, lo, hi, i);
    }
  }

  lemma {:induction false} LeastLength(cfg: Cfg, lo: nat, hi: nat, i: nat)
    requires SealsWithin(cfg) && Endless(cfg) && cfg.early <= lo <= lo + i < hi
    ensures 1 <= Wires(LeastFrames(cfg, lo, hi))[i] <= cfg.headroom
  {
    LeastFrameAt(cfg, lo, hi, i);
  }

  lemma {:induction false} LeastPrefix(cfg: Cfg, lo: nat, hi: nat, k: nat)
    requires Endless(cfg) && cfg.early <= lo < hi && k <= hi - 1 - lo
    ensures Sum(Wires(LeastFrames(cfg, lo, hi))[..k]) <= LeastSum(cfg, lo, hi - 1)
  {
    var mid := lo + k;
    LeastFront(cfg, lo, hi, k);
    LeastGrows(cfg, lo, mid, hi - 1, Wires(LeastFrames(cfg, lo, hi))[..k]);
  }

  lemma {:induction false} LeastGrows(cfg: Cfg, lo: nat, mid: nat, hi: nat, ws: seq<nat>)
    requires Endless(cfg) && cfg.early <= lo <= mid <= hi && ws == Wires(LeastFrames(cfg, lo, mid))
    ensures Sum(ws) <= LeastSum(cfg, lo, hi)
  {
    LeastFramesSum(cfg, lo, mid);
    LeastSumGrows(cfg, lo, mid, hi);
  }

  lemma {:induction false} LeastFront(cfg: Cfg, lo: nat, hi: nat, k: nat)
    requires Endless(cfg) && cfg.early <= lo < hi && k <= hi - 1 - lo
    ensures Wires(LeastFrames(cfg, lo, hi))[..k] == Wires(LeastFrames(cfg, lo, lo + k))
  {
    WiresTake(LeastFrames(cfg, lo, hi), k);
    LeastFramesTake(cfg, lo, lo + k, hi);
    assert LeastFrames(cfg, lo, hi)[..k] == LeastFrames(cfg, lo, lo + k);
  }

  lemma {:induction false} WiresTake(fs: seq<Sealed>, k: nat)
    requires k <= |fs|
    ensures Wires(fs)[..k] == Wires(fs[..k])
  {}

  // ---------------------------------------------------------------- reachable states

  ghost predicate EndsIn(cfg: Cfg, run: seq<Sys>, s: Sys) {
    IsRun(cfg, run) && run[|run| - 1] == s
  }

  ghost predicate Reachable(cfg: Cfg, s: Sys) {
    exists run :: EndsIn(cfg, run, s)
  }

  lemma {:induction false} ReachStep(cfg: Cfg, s: Sys, step: Step)
    requires Reachable(cfg, s) && Enabled(cfg, s, step)
    ensures Reachable(cfg, Apply(cfg, s, step))
  {
    var run :| EndsIn(cfg, run, s);
    var t := Apply(cfg, s, step);
    assert Next(cfg, s, t);
    assert EndsIn(cfg, run + [t], t);
  }

  lemma {:induction false} ReachableGood(cfg: Cfg, s: Sys)
    requires Supported(cfg) && Reachable(cfg, s)
    ensures Good(cfg, s)
  {
    var run :| EndsIn(cfg, run, s);
    UploadsFlow(cfg, run, |run| - 1);
  }

  /** Everything sealed so far, up to number `n`, has been written and answered. */
  ghost predicate Idle(cfg: Cfg, s: Sys, n: nat) {
    && Reachable(cfg, s) && s.server.Up? && Drained(s) && s.server.buffer.next == |s.sealed| == n
    && s.server.buffer.pending == map[] && s.avail == cfg.maxInFlight && s.slots == cfg.concurrency
  }

  lemma {:induction false} ReachStart(cfg: Cfg) returns (s: Sys)
    ensures Idle(cfg, s, cfg.early)
  {
    var sealed := seq(cfg.early, _ => Sealed([], 0));
    s := Sys(cfg.early, sealed, [], cfg.maxInFlight, cfg.concurrency, Up(State(cfg.early, map[], UploadFlow.Datas(sealed))));
    assert EndsIn(cfg, [s], s);
  }

  /** One more frame, in a body of its own, sent and answered. */
  lemma {:induction false} ReachNext(cfg: Cfg, s: Sys, n: nat) returns (t: Sys)
    requires Supported(cfg) && Endless(cfg) && cfg.concurrency >= 1 && Idle(cfg, s, n) && cfg.early <= n
    ensures Idle(cfg, t, n + 1)
  {
    var p := |s.posts|;
    var a := LaunchLeast(cfg, s, n, n + 1);
    var b := DeliverAwaited(cfg, a, p);
    assert Enabled(cfg, b, SendEos(p));
    t := Apply(cfg, b, SendEos(p));
    ReachStep(cfg, b, SendEos(p));
    forall q | 0 <= q < |t.posts|
      ensures t.posts[q].phase.Answered?
    {
      assert q < p ==> t.posts[q] == s.posts[q];
    }
    ReachableGood(cfg, t);
    DrainedMeansWritten(cfg, t);
  }

  /** Launching a body of shortest frames. */
  lemma {:induction false} LaunchLeast(cfg: Cfg, s: Sys, lo: nat, hi: nat) returns (t: Sys)
    requires Supported(cfg) && Endless(cfg) && Reachable(cfg, s) && s.server.Up? && |s.sealed| == lo < hi && cfg.early <= lo
    requires s.slots >= 1 && s.avail >= LeastSum(cfg, lo, hi) && LeastSum(cfg, lo, hi - 1) < BatchLimit(cfg)
    ensures Reachable(cfg, t)
    ensures t == s.(sealed := s.sealed + LeastFrames(cfg, lo, hi), posts := s.posts + [Post(lo, hi, lo, Sending)],
                    avail := s.avail - LeastSum(cfg, lo, hi), slots := s.slots - 1)
  {
    var batch := LeastFrames(cfg, lo, hi);
    LeastBatchable(cfg, lo, hi);
    assert Enabled(cfg, s, Launch(batch));
    t := Apply(cfg, s, Launch(batch));
    ReachStep(cfg, s, Launch(batch));
  }

  lemma {:induction false} DeliverAwaited(cfg: Cfg, s: Sys, p: nat) returns (t: Sys)
    requires Reachable(cfg, s) && s.server.Up? && IsPost(s, p) && s.posts[p].phase.Sending? && s.posts[p].delivered < s.posts[p].hi
    requires s.server.buffer.next == s.posts[p].delivered && s.server.buffer.pending == map[]
    ensures Reachable(cfg, t) && t == SetPost(s, p, s.posts[p].(delivered := s.posts[p].delivered + 1)).(server := t.server)
    ensures t.server.Up? && t.server.buffer.next == s.server.buffer.next + 1 && t.server.buffer.pending == map[]
  {
    assert Enabled(cfg, s, Deliver(p));
    t := Apply(cfg, s, Deliver(p));
    ReachStep(cfg, s, Deliver(p));
  }

  lemma {:induction false} ReachIdle(cfg: Cfg, n: nat) returns (s: Sys)
    requires Supported(cfg) && Endless(cfg) && cfg.concurrency >= 1 && cfg.early <= n
    ensures Idle(cfg, s, n)
    decreases n
  {
    if n == cfg.early {
      s := ReachStart(cfg);
    } else {
      var before := ReachIdle(cfg, n - 1);
      s := ReachNext(cfg, before, n - 1);
    }
  }

  // ---------------------------------------------------------------- bodies ahead of a delayed one

  function Clamp(lo: nat, hi: nat, k: nat): nat {
    if k < lo then lo else if k < hi then k else hi
  }

  /** Where a list of bodies is cut: the first holds the one frame `n`, the others follow. */
  ghost predicate Cuts(cuts: seq<nat>, n: nat) {
    && cuts != [] && cuts[0] == n && (|cuts| > 1 ==> cuts[1] == n + 1)
    && forall i, j :: 0 <= i < j < |cuts| ==> cuts[i] < cuts[j]
  }

  /** Body number `i`: the first is delayed, of the others the frames up to number `k` have been delivered. */
  function Body(cuts: seq<nat>, i: nat, k: nat): Post
    requires i + 1 < |cuts|
  {
    Post(cuts[i], cuts[i + 1], if i == 0 then cuts[0] else Clamp(cuts[i], cuts[i + 1], k + 1), Sending)
  }

  /** The numbers above `n` up to `k`. */
  function Above(n: nat, k: nat): (r: set<nat>)
    ensures forall j: nat :: j in r <==> n < j <= k
  {
    if k <= n then {} else Above(n, k - 1) + {k}
  }

  lemma {:induction false} OneMore(s: set<nat>, k: nat)
    requires k !in s
    ensures |s + {k}| == |s| + 1
  {
    assert (s + {k}) - {k} == s;
  }

  lemma {:induction false} AboveSize(n: nat, k: nat)
    requires n <= k
    ensures |Above(n, k)| == k - n
    decreases k
  {
    if n < k {
      AboveSize(n, k - 1);
      OneMore(Above(n, k - 1), k);
    } else {
      assert Above(n, k) == {};
    }
  }

  /** The bodies after the first `base` ones are those of `cuts`, of shortest frames; frames up to number `k` wait for number `n`. */
  ghost predicate Loaded(cfg: Cfg, s: Sys, base: nat, n: nat, cuts: seq<nat>, k: nat) {
    && Reachable(cfg, s) && s.server.Up? && Cuts(cuts, n) && n <= k
    && s.server.buffer.next == n && s.server.buffer.pending.Keys == Above(n, k)
    && |s.sealed| == cuts[|cuts| - 1] && |s.posts| == base + |cuts| - 1
    && (forall i: nat {:trigger Body(cuts, i, k)} :: i + 1 < |cuts| ==> s.posts[base + i] == Body(cuts, i, k))
    && (forall p :: 0 <= p < base ==> s.posts[p].phase.Answered?)
    && s.avail + LeastSum(cfg, n, |s.sealed|) == cfg.maxInFlight && s.slots + |cuts| - 1 == cfg.concurrency
  }

  lemma {:induction false} IdleIsLoaded(cfg: Cfg, s: Sys, n: nat)
    requires Idle(cfg, s, n)
    ensures Loaded(cfg, s, |s.posts|, n, [n], n)
  {
    assert Above(n, n) == {};
  }

  /** One more body is launched. */
  lemma {:induction false} LoadMore(cfg: Cfg, s: Sys, base: nat, n: nat, cuts: seq<nat>, hi: nat) returns (t: Sys)
    requires Supported(cfg) && Endless(cfg) && Loaded(cfg, s, base, n, cuts, n) && cfg.early <= n
    requires cuts[|cuts| - 1] < hi && Cuts(cuts + [hi], n) && |cuts| <= cfg.concurrency
    requires LeastSum(cfg, n, hi) <= cfg.maxInFlight && LeastSum(cfg, cuts[|cuts| - 1], hi - 1) < BatchLimit(cfg)
    ensures Loaded(cfg, t, base, n, cuts + [hi], n)
  {
    var lo := cuts[|cuts| - 1];
    LeastSumGrows(cfg, n, lo, hi);
    t := LaunchLeast(cfg, s, lo, hi);
    var more := cuts + [hi];
    forall i: nat | i + 1 < |more|
      ensures t.posts[base + i] == Body(more, i, n)
    {
      if i + 1 < |cuts| {
        assert Body(more, i, n) == Body(cuts, i, n);
      }
    }
  }

  /** The body that holds number `k`. */
  lemma {:induction false} CutOf(cuts: seq<nat>, n: nat, k: nat, m: nat) returns (i: nat)
    requires Cuts(cuts, n) && n < k && m < |cuts| && k < cuts[m] && 0 < m
    ensures 1 <= i < m && cuts[i] <= k < cuts[i + 1]
    decreases m
  {
    if cuts[m - 1] <= k {
      i := m - 1;
    } else {
      i := CutOf(cuts, n, k, m - 1);
    }
  }

  /** One more frame is put aside. */
  lemma {:induction false} PutAside(cfg: Cfg, s: Sys, base: nat, n: nat, cuts: seq<nat>, k: nat) returns (t: Sys)
    requires Supported(cfg) && Loaded(cfg, s, base, n, cuts, k) && k - n < FRAMES && k + 1 < cuts[|cuts| - 1]
    ensures Loaded(cfg, t, base, n, cuts, k + 1)
  {
    var i := CutOf(cuts, n, k + 1, |cuts| - 1);
    var p := base + i;
    assert s.posts[p] == Body(cuts, i, k);
    t := DeliverAhead(cfg, s, p, n, k);
    var k' := k + 1;
    forall j: nat {:trigger Body(cuts, j, k')} | j + 1 < |cuts|
      ensures t.posts[base + j] == Body(cuts, j, k')
    {
      OtherBody(cuts, n, i, j, k);
      assert s.posts[base + j] == Body(cuts, j, k);
    }
  }

  lemma {:induction false} OtherBody(cuts: seq<nat>, n: nat, i: nat, j: nat, k: nat)
    requires Cuts(cuts, n) && 1 <= i && i + 1 < |cuts| && cuts[i] <= k + 1 < cuts[i + 1] && j + 1 < |cuts|
    ensures Body(cuts, j, k + 1) == if i == j then Body(cuts, j, k).(delivered := k + 2) else Body(cuts, j, k)
    ensures Body(cuts, i, k).delivered == k + 1
  {
    if j < i {
      assert cuts[j + 1] <= cuts[i];
    } else if i < j {
      assert cuts[i + 1] <= cuts[j];
    }
  }

  lemma {:induction false} DeliverAhead(cfg: Cfg, s: Sys, p: nat, n: nat, k: nat) returns (t: Sys)
    requires Supported(cfg) && Reachable(cfg, s) && s.server.Up? && IsPost(s, p) && s.posts[p].phase.Sending?
    requires s.posts[p].delivered == k + 1 < s.posts[p].hi && s.server.buffer.next == n <= k
    requires s.server.buffer.pending.Keys == Above(n, k) && k - n < FRAMES
    ensures Reachable(cfg, t) && t == SetPost(s, p, s.posts[p].(delivered := k + 2)).(server := t.server)
    ensures t.server.Up? && t.server.buffer.next == n && t.server.buffer.pending.Keys == Above(n, k + 1)
  {
    var b, f := s.server.buffer, Frame(k + 1, s.sealed[k + 1].data);
    ReachableGood(cfg, s);
    BytesFit(cfg, s, k + 1);
    HandleAhead(b, |s.sealed|, f, n, k);
    assert Enabled(cfg, s, Deliver(p));
    t := Apply(cfg, s, Deliver(p));
    ReachStep(cfg, s, Deliver(p));
  }

  lemma {:induction false} HandleAhead(b: State, bound: nat, f: Frame, n: nat, k: nat)
    requires b.next == n <= k && b.pending.Keys == Above(n, k) && k - n < FRAMES && f.seqNo == k + 1
    requires Weight(b.pending, bound) + |f.data| <= UploadActor.MAX_PENDING_BYTES
    ensures Handle(b, bound, f) == Up(b.(pending := b.pending[k + 1 := f.data])) && b.pending[k + 1 := f.data].Keys == Above(n, k + 1)
  {
    AboveSize(n, k);
    KeysSize(b.pending);
  }

  lemma {:induction false} KeysSize(m: map<nat, Chunk>)
    ensures |m| == |m.Keys|
  {}

  lemma {:induction false} PutAsideUpTo(cfg: Cfg, s: Sys, base: nat, n: nat, cuts: seq<nat>, k: nat) returns (t: Sys)
    requires Supported(cfg) && Loaded(cfg, s, base, n, cuts, n) && n <= k < cuts[|cuts| - 1] && k - n <= FRAMES
    ensures Loaded(cfg, t, base, n, cuts, k)
    decreases k
  {
    if k == n {
      t := s;
    } else {
      var before := PutAsideUpTo(cfg, s, base, n, cuts, k - 1);
      t := PutAside(cfg, before, base, n, cuts, k - 1);
    }
  }

  // ---------------------------------------------------------------- the limit on frames

  /** Where the frames up to `last` can be cut into two bodies. */
  lemma {:induction false} Split(cfg: Cfg, first: nat, last: nat, h: nat) returns (cut: nat)
    requires first <= h < last && LeastSum(cfg, first, h) < BatchLimit(cfg)
    ensures first < cut <= last && LeastSum(cfg, first, cut - 1) < BatchLimit(cfg)
    ensures cut < last ==> LeastSum(cfg, first, cut) >= BatchLimit(cfg)
    decreases last - h
  {
    var h' := h + 1;
    if h' < last && LeastSum(cfg, first, h') < BatchLimit(cfg) {
      cut := Split(cfg, first, last, h');
    } else {
      cut := h';
      assert cut - 1 == h;
    }
  }

  /** What is left after a full first body is below the limit as well. */
  lemma {:induction false} RestIsSmall(cfg: Cfg, n: nat, cut: nat)
    requires Supported(cfg) && Endless(cfg) && cfg.early <= n && LeastSum(cfg, n, n + FRAMES + 2) <= cfg.maxInFlight
    requires n + 1 <= cut <= n + FRAMES + 1 && LeastSum(cfg, n + 1, cut) >= BatchLimit(cfg)
    ensures LeastSum(cfg, cut, n + FRAMES + 1) < BatchLimit(cfg)
  {
    LeastSumGrows(cfg, n, n + 1, n + FRAMES + 2);
    LeastSumGrows(cfg, n + 1, cut, n + FRAMES + 2);
    LeastSumGrows(cfg, cut, n + FRAMES + 1, n + FRAMES + 2);
    LeastAtLeast(cfg, n, n + FRAMES + 2);
    LeastAtLeast(cfg, n + FRAMES + 1, n + FRAMES + 2);
    LeastAtLeast(cfg, n, n + 1);
  }

  /** The bodies of a run that hits the limit on frames: a delayed one, and one or two that hold one frame more than may wait. */
  lemma {:induction false} LoadFrames(cfg: Cfg, n: nat) returns (s: Sys, base: nat, cuts: seq<nat>)
    requires Supported(cfg) && Endless(cfg) && cfg.concurrency >= 2 && FrameRoomAt(cfg, n)
    ensures Loaded(cfg, s, base, n, cuts, n) && cuts[|cuts| - 1] == n + FRAMES + 2
  {
    var end := n + FRAMES + 2;
    var idle := ReachIdle(cfg, n);
    base := |idle.posts|;
    IdleIsLoaded(cfg, idle, n);
    LeastSumGrows(cfg, n, n + 1, end);
    var one := LoadMore(cfg, idle, base, n, [n], n + 1);
    cuts := [n] + [n + 1];
    if cfg.concurrency == 2 {
      s := LoadMore(cfg, one, base, n, cuts, end);
      cuts := cuts + [end];
    } else {
      assert LeastSum(cfg, n + 1, n + 1) < BatchLimit(cfg);
      var cut := Split(cfg, n + 1, end - 1, n + 1);
      if cut < end - 1 {
        RestIsSmall(cfg, n, cut);
      }
      s, cuts := LoadTwo(cfg, one, base, n, cut, end);
    }
  }

  lemma {:induction false} LoadTwo(cfg: Cfg, one: Sys, base: nat, n: nat, cut: nat, end: nat) returns (s: Sys, cuts: seq<nat>)
    requires Supported(cfg) && Endless(cfg) && cfg.concurrency >= 3 && cfg.early <= n && n + 1 < cut < end
    requires Loaded(cfg, one, base, n, [n] + [n + 1], n) && LeastSum(cfg, n, end) <= cfg.maxInFlight
    requires LeastSum(cfg, n + 1, cut - 1) < BatchLimit(cfg) && LeastSum(cfg, cut, end - 1) < BatchLimit(cfg)
    ensures Loaded(cfg, s, base, n, cuts, n) && cuts[|cuts| - 1] == end
  {
    LeastSumGrows(cfg, n, cut, end);
    var two := LoadMore(cfg, one, base, n, [n] + [n + 1], cut);
    s := LoadMore(cfg, two, base, n, [n] + [n + 1] + [cut], end);
    cuts := [n] + [n + 1] + [cut] + [end];
  }

  /** The server has given up because of `cause`, in a run without any failed request. */
  ghost predicate Trips(cfg: Cfg, cause: Cause) {
    exists s :: Reachable(cfg, s) && s.server == Aborted(cause)
  }

  lemma {:induction false} FramesTrip(cfg: Cfg, n: nat)
    requires Supported(cfg) && Endless(cfg) && cfg.concurrency >= 2 && FrameRoomAt(cfg, n)
    ensures Trips(cfg, FrameLimit)
  {
    var start, base, cuts := LoadFrames(cfg, n);
    var k := n + FRAMES;
    var s := PutAsideUpTo(cfg, start, base, n, cuts, k);
    var p := OneFrameTooMany(cfg, s, base, n, cuts, k);
    ReachStep(cfg, s, Deliver(p));
  }

  /** One frame more than may wait. */
  lemma {:induction false} OneFrameTooMany(cfg: Cfg, s: Sys, base: nat, n: nat, cuts: seq<nat>, k: nat) returns (p: nat)
    requires Loaded(cfg, s, base, n, cuts, k) && k == n + FRAMES && k + 1 < cuts[|cuts| - 1]
    ensures Enabled(cfg, s, Deliver(p)) && Apply(cfg, s, Deliver(p)).server == Aborted(FrameLimit)
  {
    AboveSize(n, k);
    KeysSize(s.server.buffer.pending);
    var i := CutOf(cuts, n, k + 1, |cuts| - 1);
    p := base + i;
    assert s.posts[p] == Body(cuts, i, k);
  }

  /** The limit on buffered frames can be hit exactly when there are two requests at a time and the shortest frames leave room for it:
      8194 consecutive ones fit in flight, and, with only two requests, 8193 of them in one body. The flush timer may fire in the poll that
      arms it; `UploadPatience` treats a timer that does not. */
  lemma {:induction false} FrameLimitExactlyWhen(cfg: Cfg)
    requires Supported(cfg) && Endless(cfg)
    ensures Trips(cfg, FrameLimit) <==> FrameRoom(cfg)
  {
    if FrameRoom(cfg) {
      var n: nat :| FrameRoomAt(cfg, n);
      FramesTrip(cfg, n);
    }
    forall s | Reachable(cfg, s) && s.server == Aborted(FrameLimit)
      ensures FrameRoom(cfg)
    {
      ReachableGood(cfg, s);
    }
  }

  // ---------------------------------------------------------------- the limit on waiting requests

  /** The cuts of `m` bodies of one frame each. */
  function Singles(n: nat, m: nat): (cuts: seq<nat>)
    ensures |cuts| == m + 1
  {
    if m == 0 then [n] else Singles(n, m - 1) + [n + m]
  }

  lemma {:induction false} SinglesAt(n: nat, m: nat, i: nat)
    requires i <= m
    ensures Singles(n, m)[i] == n + i
    decreases m
  {
    if i < m {
      SinglesAt(n, m - 1, i);
    }
  }

  lemma {:induction false} LoadSingles(cfg: Cfg, n: nat, m: nat) returns (s: Sys, base: nat)
    requires Supported(cfg) && Endless(cfg) && cfg.early <= n && 1 <= cfg.concurrency && m <= cfg.concurrency
    requires LeastSum(cfg, n, n + m) <= cfg.maxInFlight
    ensures Loaded(cfg, s, base, n, Singles(n, m), n)
  {
    s, base := LoadOneByOne(cfg, n, m);
    assert Look(s);
  }

  ghost predicate SinglesLoaded(cfg: Cfg, s: Sys, base: nat, n: nat, m: nat) {
    forall t: Sys {:trigger Look(t)} :: Look(t) && t == s ==> Loaded(cfg, t, base, n, Singles(n, m), n)
  }

  lemma {:induction false} LoadOneByOne(cfg: Cfg, n: nat, m: nat) returns (s: Sys, base: nat)
    requires Supported(cfg) && Endless(cfg) && cfg.early <= n && 1 <= cfg.concurrency && m <= cfg.concurrency
    requires LeastSum(cfg, n, n + m) <= cfg.maxInFlight
    ensures SinglesLoaded(cfg, s, base, n, m)
    decreases m
  {
    if m == 0 {
      s, base := LoadNone(cfg, n);
    } else {
      LeastSumGrows(cfg, n, n + m - 1, n + m);
      var before;
      before, base := LoadOneByOne(cfg, n, m - 1);
      s := LoadNext(cfg, before, base, n, m);
    }
  }

  lemma {:induction false} LoadNone(cfg: Cfg, n: nat) returns (s: Sys, base: nat)
    requires Supported(cfg) && Endless(cfg) && cfg.early <= n && 1 <= cfg.concurrency
    ensures SinglesLoaded(cfg, s, base, n, 0)
  {
    s := ReachIdle(cfg, n);
    base := |s.posts|;
    IdleIsLoaded(cfg, s, n);
    assert Singles(n, 0) == [n];
  }

  lemma {:induction false} LoadNext(cfg: Cfg, before: Sys, base: nat, n: nat, m: nat) returns (s: Sys)
    requires Supported(cfg) && Endless(cfg) && cfg.early <= n && 1 <= m <= cfg.concurrency && LeastSum(cfg, n, n + m) <= cfg.maxInFlight
    requires SinglesLoaded(cfg, before, base, n, m - 1)
    ensures SinglesLoaded(cfg, s, base, n, m)
  {
    assert Look(before);
    SinglesNext(n, m);
    s := LoadSingle(cfg, before, base, n, Singles(n, m - 1), n + m);
  }

  lemma {:induction false} SinglesNext(n: nat, m: nat)
    requires m >= 1
    ensures Singles(n, m) == Singles(n, m - 1) + [n + m] && Cuts(Singles(n, m), n)
    ensures Singles(n, m - 1)[|Singles(n, m - 1)| - 1] == n + m - 1
  {
    SinglesAt(n, m - 1, m - 1);
    forall i | 0 <= i <= m
      ensures Singles(n, m)[i] == n + i
    {
      SinglesAt(n, m, i);
    }
  }

  /** One more body, of one frame. */
  lemma {:induction false} LoadSingle(cfg: Cfg, s: Sys, base: nat, n: nat, cuts: seq<nat>, hi: nat) returns (t: Sys)
    requires Supported(cfg) && Endless(cfg) && Loaded(cfg, s, base, n, cuts, n) && cfg.early <= n
    requires cuts[|cuts| - 1] == hi - 1 && Cuts(cuts + [hi], n) && |cuts| <= cfg.concurrency && LeastSum(cfg, n, hi) <= cfg.maxInFlight
    ensures Loaded(cfg, t, base, n, cuts + [hi], n)
  {
    assert LeastSum(cfg, hi - 1, hi - 1) < BatchLimit(cfg);
    t := LoadMore(cfg, s, base, n, cuts, hi);
  }

  /** Body number `i`, delivered, when the first `w` after the delayed one wait for their answer. */
  function Marked(n: nat, i: nat, w: nat): Post {
    Post(n + i, n + i + 1, n + i + 1, if i <= w then Waiting else Sending)
  }

  ghost predicate Marking(posts: seq<Post>, base: nat, n: nat, w: nat) {
    && |posts| == base + WAITERS + 2 && posts[base] == Post(n, n + 1, n, Sending)
    && (forall i: nat {:trigger Marked(n, i, w)} :: 1 <= i < WAITERS + 2 ==> posts[base + i] == Marked(n, i, w))
    && (forall p :: 0 <= p < base ==> posts[p].phase.Answered?)
  }

  ghost predicate Marks(cfg: Cfg, s: Sys, base: nat, n: nat, w: nat) {
    Reachable(cfg, s) && s.server.Up? && s.server.buffer.next == n && n + WAITERS + 2 == |s.sealed| && Marking(s.posts, base, n, w)
  }

  lemma {:induction false} LoadedMarks(cfg: Cfg, s: Sys, base: nat, n: nat)
    requires Loaded(cfg, s, base, n, Singles(n, WAITERS + 2), n + WAITERS + 1)
    ensures Marks(cfg, s, base, n, 0)
  {
    var cuts, k := Singles(n, WAITERS + 2), n + WAITERS + 1;
    assert s.posts[base + 0] == Body(cuts, 0, k);
    SinglesAt(n, WAITERS + 2, 1);
    SinglesAt(n, WAITERS + 2, WAITERS + 2);
    var w := 0;
    forall i: nat {:trigger Marked(n, i, w)} | 1 <= i < WAITERS + 2
      ensures s.posts[base + i] == Marked(n, i, w)
    {
      assert s.posts[base + i] == Body(cuts, i, k);
      SinglesAt(n, WAITERS + 2, i);
      SinglesAt(n, WAITERS + 2, i + 1);
    }
  }

  lemma {:induction false} NoneWaiting(posts: seq<Post>, next: nat)
    requires forall p :: 0 <= p < |posts| ==> posts[p].phase.Answered?
    ensures WaitingCount(posts, next) == 0
    decreases |posts|
  {
    if posts != [] {
      NoneWaiting(posts[..|posts| - 1], next);
    }
  }

  lemma {:induction false} CountMarked(posts: seq<Post>, base: nat, n: nat, w: nat, m: nat)
    requires Marking(posts, base, n, w) && m <= WAITERS + 2
    ensures WaitingCount(posts[..base + m], n) == if m <= 1 then 0 else if w < m then w else m - 1
    decreases m
  {
    if m == 0 {
      NoneWaiting(posts[..base], n);
    } else {
      CountMarked(posts, base, n, w, m - 1);
      assert posts[..base + m][..base + m - 1] == posts[..base + (m - 1)];
      if m >= 2 {
        assert posts[base + (m - 1)] == Marked(n, m - 1, w);
      }
    }
  }

  /** One more request is put to wait. */
  lemma {:induction false} MarkOne(cfg: Cfg, s: Sys, base: nat, n: nat, w: nat) returns (t: Sys)
    requires Marks(cfg, s, base, n, w) && w < WAITERS
    ensures Marks(cfg, t, base, n, w + 1)
  {
    var p := base + (w + 1);
    assert s.posts[p] == Marked(n, w + 1, w);
    CountMarked(s.posts, base, n, w, WAITERS + 2);
    assert s.posts[..base + (WAITERS + 2)] == s.posts;
    assert Enabled(cfg, s, SendEos(p));
    t := Apply(cfg, s, SendEos(p));
    ReachStep(cfg, s, SendEos(p));
    var w' := w + 1;
    forall i: nat {:trigger Marked(n, i, w')} | 1 <= i < WAITERS + 2
      ensures t.posts[base + i] == Marked(n, i, w')
    {
      assert s.posts[base + i] == Marked(n, i, w);
    }
  }

  lemma {:induction false} MarkUpTo(cfg: Cfg, s: Sys, base: nat, n: nat, w: nat) returns (t: Sys)
    requires Marks(cfg, s, base, n, 0) && w <= WAITERS
    ensures Marks(cfg, t, base, n, w)
    decreases w
  {
    if w == 0 {
      t := s;
    } else {
      var before := MarkUpTo(cfg, s, base, n, w - 1);
      t := MarkOne(cfg, before, base, n, w - 1);
    }
  }

  lemma {:induction false} EosTrips(cfg: Cfg, n: nat)
    requires Supported(cfg) && Endless(cfg) && cfg.concurrency >= WAITERS + 2 && EosRoomAt(cfg, n)
    ensures Trips(cfg, EosLimit)
  {
    var start, base := LoadSingles(cfg, n, WAITERS + 2);
    var loaded := PutAsideUpTo(cfg, start, base, n, Singles(n, WAITERS + 2), n + WAITERS + 1);
    LoadedMarks(cfg, loaded, base, n);
    var s := MarkUpTo(cfg, loaded, base, n, WAITERS);
    OneTooMany(cfg, s, base, n);
  }

  /** One request more than may wait. */
  lemma {:induction false} OneTooMany(cfg: Cfg, s: Sys, base: nat, n: nat)
    requires Marks(cfg, s, base, n, WAITERS)
    ensures Trips(cfg, EosLimit)
  {
    var p := base + (WAITERS + 1);
    assert s.posts[p] == Marked(n, WAITERS + 1, WAITERS);
    CountMarked(s.posts, base, n, WAITERS, WAITERS + 2);
    assert s.posts[..base + (WAITERS + 2)] == s.posts;
    assert Enabled(cfg, s, SendEos(p));
    ReachStep(cfg, s, SendEos(p));
    assert Apply(cfg, s, SendEos(p)).server == Aborted(EosLimit);
  }

  /** The limit on waiting requests can be hit exactly when there are at least 258 requests at a time and 258 consecutive shortest frames
      fit in flight. */
  lemma {:induction false} EosLimitExactlyWhen(cfg: Cfg)
    requires Supported(cfg) && Endless(cfg)
    ensures Trips(cfg, EosLimit) <==> EosRoom(cfg)
  {
    if EosRoom(cfg) {
      var n: nat :| EosRoomAt(cfg, n);
      EosTrips(cfg, n);
    }
    forall s | Reachable(cfg, s) && s.server == Aborted(EosLimit)
      ensures EosRoom(cfg)
    {
      ReachableGood(cfg, s);
    }
  }

  /** The limit on buffered bytes cannot be hit. */
  lemma {:induction false} ByteLimitNever(cfg: Cfg)
    requires Supported(cfg)
    ensures !Trips(cfg, ByteLimit)
  {
    forall s | Reachable(cfg, s)
      ensures s.server != Aborted(ByteLimit)
    {
      ReachableGood(cfg, s);
    }
  }
}
