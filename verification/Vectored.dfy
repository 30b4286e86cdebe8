/** The vectored write loop of the server's upstream side (src/server/upstream.rs). */
module Vectored {
  import opened Bytes

  const MAX_WRITE_IOV: nat := 64

  datatype WriteResult = Wrote(n: nat) | IoError

  /** One vectored write of some bytes. A live connection takes at least one byte of any that are offered;
      otherwise it may take none or fail. */
  method WriteVectored(live: bool, sent: Chunk, offer: Chunk) returns (r: WriteResult, sent': Chunk)
    ensures r.Wrote? ==> r.n <= |offer| && sent' == sent + offer[..r.n]
    ensures r.IoError? ==> sent' == sent
    ensures live ==> r.Wrote? && (r.n == 0 ==> offer == [])
  {
    var fail: bool := *;
    if fail && !live {
      return IoError, sent;
    }
    var n :| 0 <= n <= |offer| && (live && n == 0 ==> offer == []);
    r, sent' := Wrote(n), sent + offer[..n];
  }

  /** Where a frame starts in the whole. */
  function StartOf(frames: seq<Chunk>, k: nat): nat
    requires k <= |frames|
  {
    if k == 0 then 0 else StartOf(frames, k - 1) + |frames[k - 1]|
  }

  lemma {:induction false} StartIsPrefix(frames: seq<Chunk>, k: nat)
    requires k <= |frames|
    ensures StartOf(frames, k) <= |Flatten(frames)| && Flatten(frames)[..StartOf(frames, k)] == Flatten(frames[..k])
    ensures |Flatten(frames)| == StartOf(frames, |frames|)
  {
    PrefixLength(frames, k);
    PrefixLength(frames, |frames|);
    assert frames[..|frames|] == frames;
    FlattenTake(frames, k);
  }

  lemma {:induction false} PrefixLength(frames: seq<Chunk>, k: nat)
    requires k <= |frames|
    ensures |Flatten(frames[..k])| == StartOf(frames, k)
  {
    if k > 0 {
      PrefixLength(frames, k - 1);
      assert frames[..k] == frames[..k - 1] + [frames[k - 1]];
      FlattenSnoc(frames[..k - 1], frames[k - 1]);
    }
  }

  /** Some frames in the middle are the bytes in the middle. */
  lemma {:induction false} RangeIsSlice(frames: seq<Chunk>, i: nat, j: nat)
    requires i <= j <= |frames|
    ensures StartOf(frames, i) <= StartOf(frames, j) <= |Flatten(frames)|
    ensures Flatten(frames)[StartOf(frames, i)..StartOf(frames, j)] == Flatten(frames[i..j])
  {
    StartIsPrefix(frames, i);
    StartIsPrefix(frames, j);
    StartsGrow(frames, i, j);
    assert frames[..j] == frames[..i] + frames[i..j];
    FlattenAppend(frames[..i], frames[i..j]);
    assert Flatten(frames)[StartOf(frames, i)..StartOf(frames, j)] == Flatten(frames)[..StartOf(frames, j)][StartOf(frames, i)..];
  }

  lemma {:induction false} SliceJoin(all: Chunk, a: nat, skip: nat, b: nat, c: nat)
    requires a + skip <= b <= c <= |all|
    ensures all[a..b][skip..] + all[b..c] == all[a + skip..c]
  {}

  /** The slices of one write: at most `iov` frames, the first from `skip` on. */
  function Window(frames: seq<Chunk>, first: nat, skip: nat, iov: nat): Chunk
    requires first < |frames| && skip <= |frames[first]| && iov >= 1
  {
    frames[first][skip..] + Flatten(frames[first + 1..WindowEnd(frames, first, iov)])
  }

  function WindowEnd(frames: seq<Chunk>, first: nat, iov: nat): (end: nat)
    requires first < |frames| && iov >= 1
    ensures first < end <= |frames|
  {
    if first + iov < |frames| then first + iov else |frames|
  }

  /** A write offers the bytes that follow what has been written. */
  lemma {:induction false} WindowIsSlice(frames: seq<Chunk>, first: nat, skip: nat, iov: nat)
    requires first < |frames| && skip <= |frames[first]| && iov >= 1
    ensures var lo, hi := StartOf(frames, first) + skip, StartOf(frames, WindowEnd(frames, first, iov));
            lo <= hi <= |Flatten(frames)| && Window(frames, first, skip, iov) == Flatten(frames)[lo..hi]
  {
    var end := WindowEnd(frames, first, iov);
    RangeIsSlice(frames, first, first + 1);
    RangeIsSlice(frames, first + 1, end);
    assert frames[first..first + 1] == [frames[first]];
    FlattenOne(frames[first]);
    SliceJoin(Flatten(frames), StartOf(frames, first), skip, StartOf(frames, first + 1), StartOf(frames, end));
  }

  lemma {:induction false} StartsGrow(frames: seq<Chunk>, j: nat, k: nat)
    requires j <= k <= |frames|
    ensures StartOf(frames, j) <= StartOf(frames, k)
    decreases k
  {
    if j < k {
      StartsGrow(frames, j, k - 1);
    }
  }

  /** A position between frames or inside one. */
  predicate At(frames: seq<Chunk>, first: nat, skip: nat) {
    first <= |frames| && if first < |frames| then skip == 0 || skip < |frames[first]| else skip == 0
  }

  /** Moves past `written` bytes: whole frames as long as they fit, then into the next one. */
  method Advance(frames: seq<Chunk>, first0: nat, skip0: nat, written: nat) returns (first: nat, skip: nat)
    requires At(frames, first0, skip0) && StartOf(frames, first0) + skip0 + written <= StartOf(frames, |frames|)
    ensures At(frames, first, skip) && first0 <= first
    ensures StartOf(frames, first) + skip == StartOf(frames, first0) + skip0 + written
    ensures first0 < |frames| && frames[|frames| - 1] == [] ==> first < |frames|
  {
    var left: nat := written;
    first, skip := first0, skip0;
    while left > 0 && first < |frames|
      invariant At(frames, first, skip) && first0 <= first
      invariant StartOf(frames, first) + skip + left == StartOf(frames, first0) + skip0 + written
      invariant first0 < |frames| && frames[|frames| - 1] == [] ==> first < |frames|
      decreases |frames| - first, left
    {
      var remain := |frames[first]| - skip;
      if left >= remain {
        left, first, skip := left - remain, first + 1, 0;
      } else {
        skip, left := skip + left, 0;
      }
    }
  }

  /** Nothing left although frames remain: the last of them is empty. */
  lemma {:induction false} NothingLeft(frames: seq<Chunk>, first: nat)
    requires first < |frames| && StartOf(frames, first) == StartOf(frames, |frames|)
    ensures frames[|frames| - 1] == []
  {
    StartsGrow(frames, first, |frames| - 1);
  }

  datatype Outcome = Done | WriteZero | Failed

  ghost predicate AllNonEmpty(frames: seq<Chunk>) {
    forall i :: 0 <= i < |frames| ==> frames[i] != []
  }

  /** Why a live connection may take nothing: there was nothing in the frames offered. */
  lemma {:induction false} EmptyOffer(frames: seq<Chunk>, first: nat, skip: nat, iov: nat)
    requires At(frames, first, skip) && first < |frames| && iov >= 1 && Window(frames, first, skip, iov) == []
    ensures frames[first] == []
    ensures |frames| <= iov ==> frames[|frames| - 1] == []
  {
    WindowIsSlice(frames, first, skip, iov);
    if |frames| <= iov {
      NothingLeft(frames, first);
    }
  }

  /** One write of what follows position `off` of the whole. */
  method WriteOnce(live: bool, iov: nat, frames: seq<Chunk>, first: nat, skip: nat, sent: Chunk, ghost sent0: Chunk)
    returns (r: WriteResult, sent': Chunk)
    requires iov >= 1 && At(frames, first, skip) && first < |frames|
    requires StartOf(frames, first) + skip <= |Flatten(frames)|
    requires sent == sent0 + Flatten(frames)[..StartOf(frames, first) + skip]
    ensures r.IoError? ==> sent' == sent && !live
    ensures r.Wrote? ==>
              && StartOf(frames, first) + skip + r.n <= |Flatten(frames)|
              && sent' == sent0 + Flatten(frames)[..StartOf(frames, first) + skip + r.n]
              && (live && r.n == 0 ==> frames[first] == [] && (|frames| <= iov ==> frames[|frames| - 1] == []))
  {
    ghost var all, off := Flatten(frames), StartOf(frames, first) + skip;
    WindowIsSlice(frames, first, skip, iov);
    var offer := Window(frames, first, skip, iov);
    r, sent' := WriteVectored(live, sent, offer);
    if r.Wrote? {
      assert all[..off + r.n] == all[..off] + offer[..r.n];
      if live && r.n == 0 {
        EmptyOffer(frames, first, skip, iov);
      }
    }
  }

  /** `write_vectored_all`: whatever the partial writes, success means every byte went out in order, and a
      failure leaves a prefix. On a live connection with no more frames than one write takes, it fails
      exactly when the last frame is empty. */
  method WriteVectoredAll(live: bool, iov: nat, frames: seq<Chunk>, sent0: Chunk) returns (outcome: Outcome, sent: Chunk)
    requires iov >= 1
    ensures outcome.Done? ==> sent == sent0 + Flatten(frames)
    ensures sent0 <= sent <= sent0 + Flatten(frames)
    ensures live && |frames| <= iov ==> (outcome.Done? <==> frames == [] || frames[|frames| - 1] != [])
    ensures live && AllNonEmpty(frames) ==> outcome.Done?
  {
    var first: nat, skip: nat := 0, 0;
    sent := sent0;
    StartIsPrefix(frames, 0);
    while first < |frames|
      invariant At(frames, first, skip) && StartOf(frames, first) + skip <= |Flatten(frames)| == StartOf(frames, |frames|)
      invariant sent == sent0 + Flatten(frames)[..StartOf(frames, first) + skip]
      invariant frames != [] && frames[|frames| - 1] == [] ==> first < |frames|
      decreases |Flatten(frames)| - StartOf(frames, first) - skip
    {
      var r;
      r, sent := WriteOnce(live, iov, frames, first, skip, sent, sent0);
      if r.IoError? {
        return Failed, sent;
      }
      if r.n == 0 {
        return WriteZero, sent;
      }
      first, skip := Advance(frames, first, skip, r.n);
    }
    assert Flatten(frames)[..StartOf(frames, first) + skip] == Flatten(frames);
    outcome := Done;
  }
}
