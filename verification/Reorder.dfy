/** The meaning of the server's reorder buffer (src/server/actor/upload.rs): which frames have
    been released in order, which wait, and why the order of arrival does not matter. */
module Reorder {
  import opened Bytes
  import opened Incremental

  /** `out` is everything released, `next` the number waited for, `pending` the frames ahead of it. */
  datatype State = State(next: nat, pending: map<nat, Chunk>, out: seq<Chunk>)

  /** Releases every frame that has become next in line. */
  function Release(s: State): (r: State)
    ensures r.next !in r.pending
    ensures r.next >= s.next && |r.out| - |s.out| == r.next - s.next
    decreases |s.pending|
  {
    if s.next in s.pending then
      Release(State(s.next + 1, s.pending - {s.next}, s.out + [s.pending[s.next]]))
    else s
  }

  lemma {:induction false} ReleaseExtends(s: State)
    ensures s.out <= Release(s).out
    decreases |s.pending|
  {
    if s.next in s.pending {
      ReleaseExtends(State(s.next + 1, s.pending - {s.next}, s.out + [s.pending[s.next]]));
    }
  }

  /** Releases at most `room` frames that are next in line. */
  function Gather(s: State, room: nat): (r: State)
    ensures r.pending == s.pending || |r.pending| < |s.pending|
    decreases room
  {
    if room > 0 && s.next in s.pending then
      Gather(State(s.next + 1, s.pending - {s.next}, s.out + [s.pending[s.next]]), room - 1)
    else s
  }

  /** Releasing a bounded run first changes nothing in the end. */
  lemma {:induction false} ReleaseAfterGather(before: seq<Chunk>, s: State, room: nat)
    ensures var g := Gather(s, room);
            Release(State(g.next, g.pending, before + g.out)) == Release(State(s.next, s.pending, before + s.out))
    decreases room
  {
    if room > 0 && s.next in s.pending {
      var d := s.pending[s.next];
      var s1 := State(s.next + 1, s.pending - {s.next}, s.out + [d]);
      ReleaseAfterGather(before, s1, room - 1);
      ReleaseStep(s.next, s.pending, before + s.out);
      assert before + (s.out + [d]) == (before + s.out) + [d];
      assert Gather(s, room) == Gather(s1, room - 1);
    }
  }

  lemma {:induction false} ReleaseStep(next: nat, pending: map<nat, Chunk>, out: seq<Chunk>)
    requires next in pending
    ensures Release(State(next, pending, out)) == Release(State(next + 1, pending - {next}, out + [pending[next]]))
  {}

  lemma {:induction false} GatherStep(next: nat, pending: map<nat, Chunk>, out: seq<Chunk>, room: nat)
    requires room > 0 && next in pending
    ensures Gather(State(next, pending, out), room) == Gather(State(next + 1, pending - {next}, out + [pending[next]]), room - 1)
  {}

  lemma {:induction false} GatherNext(s: State, room: nat)
    ensures Gather(s, room).next - s.next == |Gather(s, room).out| - |s.out|
    ensures s.out <= Gather(s, room).out
    ensures |Gather(s, room).out| <= |s.out| + room
    decreases room
  {
    if room > 0 && s.next in s.pending {
      GatherNext(State(s.next + 1, s.pending - {s.next}, s.out + [s.pending[s.next]]), room - 1);
    }
  }

  /** One arriving frame, with no limit reached and every write succeeding. */
  function Arrive(s: State, f: Frame): State {
    if f.seqNo < s.next then s
    else if f.seqNo == s.next then Release(State(s.next + 1, s.pending, s.out + [f.data]))
    else if f.seqNo in s.pending then s
    else s.(pending := s.pending[f.seqNo := f.data])
  }

  function Start(initial: nat): State {
    State(initial, map[], [])
  }

  function ArriveAll(s: State, frames: seq<Frame>): State
    decreases |frames|
  {
    if frames == [] then s else Arrive(ArriveAll(s, frames[..|frames| - 1]), frames[|frames| - 1])
  }

  /** What was received from `initial` on, the first arrival of a number winning. */
  function Received(initial: nat, frames: seq<Frame>): map<nat, Chunk>
    decreases |frames|
  {
    if frames == [] then map[]
    else
      Record(initial, Received(initial, frames[..|frames| - 1]), frames[|frames| - 1])
  }

  ghost predicate Has(m: map<nat, Chunk>, lo: nat, hi: nat) {
    lo <= hi && forall k :: lo <= k < hi ==> k in m
  }

  /** The frames numbered `lo` up to but not including `hi`, in order. */
  ghost function Run(m: map<nat, Chunk>, lo: nat, hi: nat): (r: seq<Chunk>)
    requires Has(m, lo, hi)
    ensures |r| == hi - lo
    decreases hi - lo
  {
    if lo == hi then [] else Run(m, lo, hi - 1) + [m[hi - 1]]
  }

  /** The frames numbered `n` and up. */
  function Above(m: map<nat, Chunk>, n: nat): map<nat, Chunk> {
    map k | k in m && k >= n :: m[k]
  }

  lemma {:induction false} AboveStep(m: map<nat, Chunk>, n: nat)
    ensures n in m ==> Above(m, n) - {n} == Above(m, n + 1)
    ensures n !in m ==> Above(m, n) == Above(m, n + 1)
  {}

  lemma {:induction false} AboveInsert(m: map<nat, Chunk>, n: nat, k: nat, d: Chunk)
    ensures k >= n ==> Above(m[k := d], n) == Above(m, n)[k := d]
    ensures k < n ==> Above(m[k := d], n) == Above(m, n)
  {}

  lemma {:induction false} RunSplit(m: map<nat, Chunk>, a: nat, b: nat, c: nat)
    requires a <= b <= c && Has(m, a, c)
    ensures Run(m, a, c) == Run(m, a, b) + Run(m, b, c)
    decreases c - b
  {
    if b < c {
      RunSplit(m, a, b, c - 1);
    }
  }

  /** The bytes held by the frames numbered below `hi`. */
  function Weight(m: map<nat, Chunk>, hi: nat): nat {
    if hi == 0 then 0 else Weight(m, hi - 1) + if hi - 1 in m then |m[hi - 1]| else 0
  }

  lemma {:induction false} WeightInsert(m: map<nat, Chunk>, k: nat, d: Chunk, hi: nat)
    requires k !in m
    ensures Weight(m[k := d], hi) == Weight(m, hi) + if k < hi then |d| else 0
  {
    if hi > 0 {
      WeightInsert(m, k, d, hi - 1);
    }
  }

  lemma {:induction false} WeightRemove(m: map<nat, Chunk>, k: nat, hi: nat)
    requires k in m && k < hi
    ensures Weight(m - {k}, hi) == Weight(m, hi) - |m[k]|
  {
    WeightInsert(m - {k}, k, m[k], hi);
    assert (m - {k})[k := m[k]] == m;
  }

  lemma {:induction false} WeightGrow(m: map<nat, Chunk>, lo: nat, hi: nat)
    requires lo <= hi && forall k :: k in m ==> k < lo
    ensures Weight(m, hi) == Weight(m, lo)
    decreases hi - lo
  {
    if lo < hi {
      WeightGrow(m, lo, hi - 1);
    }
  }

  /** The buffer says exactly what was received: everything below `next` has been released in order,
      `next` itself is missing, and everything above it waits. */
  ghost predicate Reflects(s: State, initial: nat, m: map<nat, Chunk>) {
    Follows(s, initial, m) && s.next !in m
  }

  /** The same, except that the number waited for may already be waiting. */
  ghost predicate Follows(s: State, initial: nat, m: map<nat, Chunk>) {
    && Has(m, initial, s.next)
    && s.out == Run(m, initial, s.next)
    && s.pending == Above(m, s.next)
  }

  lemma {:induction false} ReleaseReflects(s: State, initial: nat, m: map<nat, Chunk>)
    requires Follows(s, initial, m)
    ensures Reflects(Release(s), initial, m)
    decreases |s.pending|
  {
    if s.next in s.pending {
      AboveStep(m, s.next);
      ReleaseReflects(State(s.next + 1, s.pending - {s.next}, s.out + [s.pending[s.next]]), initial, m);
    }
  }

  lemma {:induction false} RunUpdate(m: map<nat, Chunk>, k: nat, d: Chunk, lo: nat, hi: nat)
    requires Has(m, lo, hi) && k !in m
    ensures Run(m[k := d], lo, hi) == Run(m, lo, hi)
    decreases hi - lo
  {
    if lo < hi {
      RunUpdate(m, k, d, lo, hi - 1);
    }
  }

  function Record(initial: nat, m: map<nat, Chunk>, f: Frame): map<nat, Chunk> {
    if f.seqNo < initial || f.seqNo in m then m else m[f.seqNo := f.data]
  }

  lemma {:induction false} ArriveReflects(s: State, initial: nat, m: map<nat, Chunk>, f: Frame)
    requires Reflects(s, initial, m)
    ensures Reflects(Arrive(s, f), initial, Record(initial, m, f))
  {
    if f.seqNo !in m && f.seqNo >= initial {
      var n := m[f.seqNo := f.data];
      RunUpdate(m, f.seqNo, f.data, initial, s.next);
      if f.seqNo == s.next {
        AboveStep(m, s.next);
        AboveInsert(m, s.next + 1, f.seqNo, f.data);
        ReleaseReflects(State(s.next + 1, s.pending, s.out + [f.data]), initial, n);
      } else {
        AboveInsert(m, s.next, f.seqNo, f.data);
      }
    }
  }

  /** After any arrivals the buffer says exactly what was received. */
  lemma {:induction false} ArriveAllReflects(initial: nat, frames: seq<Frame>)
    ensures Reflects(ArriveAll(Start(initial), frames), initial, Received(initial, frames))
    decreases |frames|
  {
    if frames != [] {
      ArriveAllReflects(initial, frames[..|frames| - 1]);
      ArriveReflects(ArriveAll(Start(initial), frames[..|frames| - 1]), initial,
                     Received(initial, frames[..|frames| - 1]), frames[|frames| - 1]);
    }
  }

  lemma {:induction false} ArriveAllSnoc(s: State, frames: seq<Frame>, f: Frame)
    ensures ArriveAll(s, frames + [f]) == Arrive(ArriveAll(s, frames), f)
  {
    assert (frames + [f])[..|frames|] == frames;
  }

  /** As many frames have been released as the number waited for has advanced. */
  lemma {:induction false} ReleasedCount(initial: nat, frames: seq<Frame>)
    ensures ArriveAll(Start(initial), frames).next == initial + |ArriveAll(Start(initial), frames).out|
  {
    ArriveAllReflects(initial, frames);
  }

  /** What was received decides the whole state of the buffer. */
  lemma {:induction false} ReflectsUnique(s: State, t: State, initial: nat, m: map<nat, Chunk>)
    requires Reflects(s, initial, m) && Reflects(t, initial, m)
    ensures s == t
  {
    if s.next < t.next {
      assert false;
    }
    if t.next < s.next {
      assert false;
    }
  }

  /** Frames that carry the same number carry the same data. */
  ghost predicate Consistent(frames: seq<Frame>) {
    forall i, j :: 0 <= i < |frames| && 0 <= j < |frames| && frames[i].seqNo == frames[j].seqNo ==>
      frames[i].data == frames[j].data
  }

  lemma {:induction false} ReceivedIsTheFrames(initial: nat, frames: seq<Frame>)
    requires Consistent(frames)
    ensures forall k :: k in Received(initial, frames) <==> k >= initial && exists f :: f in frames && f.seqNo == k
    ensures forall f :: f in frames && f.seqNo >= initial ==>
              f.seqNo in Received(initial, frames) && Received(initial, frames)[f.seqNo] == f.data
    decreases |frames|
  {
    if frames != [] {
      var front, last := frames[..|frames| - 1], frames[|frames| - 1];
      assert frames == front + [last];
      ReceivedIsTheFrames(initial, front);
      var m := Received(initial, front);
      if last.seqNo in m {
        var g :| g in front && g.seqNo == last.seqNo;
        assert g.data == last.data;
      }
      forall k
        ensures k in Received(initial, frames) <==> k >= initial && exists f :: f in frames && f.seqNo == k
      {
        if k == last.seqNo {
          assert last in frames;
        } else if k in m {
          var f :| f in front && f.seqNo == k;
          assert f in frames;
        }
      }
    }
  }

  /** Any two arrival orders of the same frames, with any repeats, leave the buffer in the same
      state: the same bytes released, the same number waited for, the same frames waiting. */
  lemma {:induction false} ArrivalOrderDoesNotMatter(initial: nat, one: seq<Frame>, other: seq<Frame>)
    requires Consistent(one) && Consistent(other)
    requires forall f :: f in one <==> f in other
    ensures ArriveAll(Start(initial), one) == ArriveAll(Start(initial), other)
  {
    ReceivedIsTheFrames(initial, one);
    ReceivedIsTheFrames(initial, other);
    var m, n := Received(initial, one), Received(initial, other);
    forall k
      ensures k in m <==> k in n
      ensures k in m ==> m[k] == n[k]
    {
      if k in m {
        var f :| f in one && f.seqNo == k;
        assert f in other;
      }
      if k in n {
        var f :| f in other && f.seqNo == k;
        assert f in one;
      }
    }
    assert m == n;
    ArriveAllReflects(initial, one);
    ArriveAllReflects(initial, other);
    ReflectsUnique(ArriveAll(Start(initial), one), ArriveAll(Start(initial), other), initial, m);
  }

  /** Every frame carries the data that belongs to its number. */
  ghost predicate Genuine(frames: seq<Frame>, payloads: seq<Chunk>) {
    forall f :: f in frames ==> f.seqNo < |payloads| && f.data == payloads[f.seqNo]
  }

  lemma {:induction false} GenuineReceived(initial: nat, frames: seq<Frame>, payloads: seq<Chunk>)
    requires Genuine(frames, payloads)
    ensures forall k :: k in Received(initial, frames) ==> k < |payloads| && Received(initial, frames)[k] == payloads[k]
    decreases |frames|
  {
    if frames != [] {
      var n := |frames| - 1;
      assert frames[n] in frames;
      assert forall f :: f in frames[..n] ==> f in frames;
      GenuineReceived(initial, frames[..n], payloads);
    }
  }

  lemma {:induction false} RunIsSlice(m: map<nat, Chunk>, hi: nat, payloads: seq<Chunk>)
    requires Has(m, 0, hi) && forall k :: k in m ==> k < |payloads| && m[k] == payloads[k]
    ensures hi <= |payloads| && Run(m, 0, hi) == payloads[..hi]
  {
    if hi > 0 {
      RunIsSlice(m, hi - 1, payloads);
      assert hi - 1 in m;
      assert payloads[..hi] == payloads[..hi - 1] + [payloads[hi - 1]];
    }
  }

  /** Whatever genuine frames arrive, in whatever order, what is released is a first part of what was sealed. */
  lemma {:induction false} ReleasesPrefix(frames: seq<Frame>, payloads: seq<Chunk>)
    requires Genuine(frames, payloads)
    ensures ArriveAll(Start(0), frames).out <= payloads
  {
    ArriveAllReflects(0, frames);
    GenuineReceived(0, frames, payloads);
    RunIsSlice(Received(0, frames), ArriveAll(Start(0), frames).next, payloads);
  }
}
