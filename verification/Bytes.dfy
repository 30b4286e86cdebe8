/** Byte strings, the concatenation of a list of chunks, and the big-endian integers
    that the frame header and the length prefix are written in. */
module Bytes {
  type Byte = b: int | 0 <= b < 256

  type Chunk = seq<Byte>

  /** Always true. Names a value, so that what a quantifier with this trigger says of it is applied only where a proof asks for it. */
  ghost predicate Look<T>(x: T) {
    true
  }

  ghost predicate Look2<T, U>(x: T, y: U) {
    true
  }

  datatype Option<+T> = None | Some(value: T)

  /** The bytes of a list of chunks, in order. */
  function Flatten(chunks: seq<Chunk>): Chunk {
    if chunks == [] then [] else chunks[0] + Flatten(chunks[1..])
  }

  lemma {:induction false} FlattenAppend(a: seq<Chunk>, b: seq<Chunk>)
    ensures Flatten(a + b) == Flatten(a) + Flatten(b)
  {
    if a == [] {
      assert a + b == b;
    } else {
      assert (a + b)[1..] == a[1..] + b;
      FlattenAppend(a[1..], b);
    }
  }

  lemma {:induction false} FlattenOne(c: Chunk)
    ensures Flatten([c]) == c
  {
    assert [c][1..] == [];
  }

  lemma {:induction false} FlattenSnoc(a: seq<Chunk>, c: Chunk)
    ensures Flatten(a + [c]) == Flatten(a) + c
  {
    FlattenAppend(a, [c]);
    FlattenOne(c);
  }

  /** Cutting a list of chunks cuts its bytes. */
  lemma {:induction false} FlattenTake(chunks: seq<Chunk>, k: nat)
    requires k <= |chunks|
    ensures Flatten(chunks) == Flatten(chunks[..k]) + Flatten(chunks[k..])
    ensures Flatten(chunks[..k]) <= Flatten(chunks)
  {
    assert chunks == chunks[..k] + chunks[k..];
    FlattenAppend(chunks[..k], chunks[k..]);
  }

  lemma {:induction false} FlattenPrefix(a: seq<Chunk>, b: seq<Chunk>)
    requires a <= b
    ensures Flatten(a) <= Flatten(b)
  {
    assert b[..|a|] == a;
    FlattenTake(b, |a|);
  }

  /** ASCII whitespace, as `u8::is_ascii_whitespace` has it. */
  predicate IsSpace(b: Byte) {
    b == 32 || b == 9 || b == 10 || b == 12 || b == 13
  }

  /** Without the whitespace at both ends. */
  function TrimAscii(s: Chunk): (r: Chunk)
    ensures r != [] ==> !IsSpace(r[0]) && !IsSpace(r[|r| - 1])
    decreases |s|
  {
    if s == [] then []
    else if IsSpace(s[0]) then TrimAscii(s[1..])
    else if IsSpace(s[|s| - 1]) then TrimAscii(s[..|s| - 1])
    else s
  }

  lemma {:induction false} InPrefix<T>(a: seq<T>, b: seq<T>, x: T)
    requires a <= b && x in a
    ensures x in b
  {
    var k :| 0 <= k < |a| && a[k] == x;
    assert b[k] == x;
  }

  lemma {:induction false} PrefixTrans(a: Chunk, b: Chunk, c: Chunk)
    requires a <= b && b <= c
    ensures a <= c
  {}

  function Pow256(k: nat): (p: nat)
    ensures p > 0
  {
    if k == 0 then 1 else 256 * Pow256(k - 1)
  }

  /** The low `k` bytes of `n`, most significant first. */
  function BigEndian(n: nat, k: nat): (r: Chunk)
    ensures |r| == k
  {
    if k == 0 then [] else BigEndian(n / 256, k - 1) + [n % 256]
  }

  function FromBigEndian(bs: Chunk): (n: nat)
    ensures n < Pow256(|bs|)
  {
    if bs == [] then 0 else 256 * FromBigEndian(bs[..|bs| - 1]) + bs[|bs| - 1]
  }

  lemma {:induction false} BigEndianRoundTrip(n: nat, k: nat)
    requires n < Pow256(k)
    ensures FromBigEndian(BigEndian(n, k)) == n
  {
    if k > 0 {
      BelowPow256(n, k);
      BigEndianRoundTrip(n / 256, k - 1);
      FromBigEndianSnoc(BigEndian(n / 256, k - 1), n % 256);
    }
  }

  lemma {:induction false} BelowPow256(n: nat, k: nat)
    requires k > 0 && n < Pow256(k)
    ensures n / 256 < Pow256(k - 1)
  {}

  lemma {:induction false} FromBigEndianSnoc(bs: Chunk, b: Byte)
    ensures FromBigEndian(bs + [b]) == 256 * FromBigEndian(bs) + b
  {
    assert (bs + [b])[..|bs|] == bs;
  }

  lemma {:induction false} BigEndianOfBytes(bs: Chunk)
    ensures BigEndian(FromBigEndian(bs), |bs|) == bs
  {
    if bs != [] {
      BigEndianOfBytes(bs[..|bs| - 1]);
    }
  }

  lemma {:induction false} Pow256Values()
    ensures Pow256(1) == 256
    ensures Pow256(2) == 65536
    ensures Pow256(4) == 4294967296
    ensures Pow256(8) == 18446744073709551616
  {
    assert Pow256(2) == 256 * Pow256(1);
    assert Pow256(3) == 256 * Pow256(2);
    assert Pow256(4) == 256 * Pow256(3);
    assert Pow256(5) == 256 * Pow256(4);
    assert Pow256(6) == 256 * Pow256(5);
    assert Pow256(7) == 256 * Pow256(6);
    assert Pow256(8) == 256 * Pow256(7);
  }

  function Zeros(n: nat): (r: Chunk)
    ensures |r| == n
  {
    seq(n, _ => 0)
  }

  /** The first position of `b`, or the length when it does not occur. */
  function IndexOf(s: Chunk, b: Byte): (k: nat)
    ensures k <= |s|
    ensures k < |s| ==> s[k] == b
    ensures forall i :: 0 <= i < k ==> s[i] != b
  {
    if s == [] then 0
    else if s[0] == b then 0
    else
      var k := IndexOf(s[1..], b);
      assert forall i :: 1 <= i < k + 1 ==> s[i] == s[1..][i - 1];
      k + 1
  }

  /** Searching a longer string finds the same first occurrence. */
  lemma {:induction false} IndexOfExtend(s: Chunk, t: Chunk, b: Byte)
    ensures IndexOf(s, b) < |s| ==> IndexOf(s + t, b) == IndexOf(s, b)
    ensures IndexOf(s, b) == |s| ==> IndexOf(s + t, b) >= |s|
  {
    var j := IndexOf(s, b);
    if j < |s| {
      assert (s + t)[j] == b;
      assert forall i :: 0 <= i < j ==> (s + t)[i] == s[i];
    }
  }

  lemma {:induction false} IndexOfUnique(s: Chunk, b: Byte, k: nat)
    requires k < |s| && s[k] == b
    requires forall i :: 0 <= i < k ==> s[i] != b
    ensures IndexOf(s, b) == k
  {}
}
