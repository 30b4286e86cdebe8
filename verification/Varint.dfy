/** The integer codecs of HTTP/3 (src/warp/h3.rs): variable-length integers (section 16 of RFC 9000) and
    prefixed integers (section 4.1.1 of RFC 9204), over 64-bit values. */
module Varint {
  import opened Bytes

  const U64: nat := 0x1_0000_0000_0000_0000
  const VARINT_LIMIT: nat := 0x4000_0000_0000_0000
  const INT_LIMIT: nat := 0x8000_0000_0000_0000

  function VarintLen(v: nat): (n: nat)
    ensures n == 1 || n == 2 || n == 4 || n == 8
  {
    if v < 64 then 1 else if v < 0x4000 then 2 else if v < 0x4000_0000 then 4 else 8
  }

  /** The length is in the two high bits of the first byte; setting them in a value of 62 bits or more overwrites its own. */
  function PutVarint(v: nat): (b: Chunk)
    ensures |b| == VarintLen(v)
  {
    match VarintLen(v)
    case 1 => BigEndian(v, 1)
    case 2 => BigEndian(0x4000 + v, 2)
    case 4 => BigEndian(0x8000_0000 + v, 4)
    case _ => BigEndian(0xC000_0000_0000_0000 + v % VARINT_LIMIT, 8)
  }

  function LengthOf(first: Byte): (n: nat)
    ensures n == 1 || n == 2 || n == 4 || n == 8
  {
    match first / 64 case 0 => 1 case 1 => 2 case 2 => 4 case _ => 8
  }

  /** The value of the first bytes of `buf` and how many there are. */
  function GetVarint(buf: Chunk): (r: Option<(nat, nat)>)
    ensures r.Some? ==> 1 <= r.value.1 <= |buf|
  {
    if buf == [] || |buf| < LengthOf(buf[0]) then None
    else Some((FromBigEndian([buf[0] % 64] + buf[1..LengthOf(buf[0])]), LengthOf(buf[0])))
  }

  lemma {:induction false} FromBigEndianCons(a: Byte, t: Chunk)
    ensures FromBigEndian([a] + t) == a * Pow256(|t|) + FromBigEndian(t)
    decreases |t|
  {
    var s := [a] + t;
    if t == [] {
      assert s[..0] == [];
    } else {
      var n := |t| - 1;
      assert s[..|s| - 1] == [a] + t[..n] && s[|s| - 1] == t[n];
      FromBigEndianCons(a, t[..n]);
      Scale(a, Pow256(n), FromBigEndian(t[..n]), FromBigEndian(s[..|s| - 1]));
    }
  }

  lemma {:induction false} Scale(a: nat, p: nat, low: nat, all: nat)
    requires all == a * p + low
    ensures 256 * all == a * (256 * p) + 256 * low
  {}

  /** Splitting off the first byte of a big-endian number. */
  lemma {:induction false} BigEndianHead(v: nat, k: nat)
    requires 0 < k && v < Pow256(k)
    ensures var b := BigEndian(v, k); v == b[0] * Pow256(k - 1) + FromBigEndian(b[1..]) && FromBigEndian(b[1..]) < Pow256(k - 1)
  {
    var b := BigEndian(v, k);
    BigEndianRoundTrip(v, k);
    assert b == [b[0]] + b[1..];
    FromBigEndianCons(b[0], b[1..]);
  }

  /** Two tag bits above a value in the same bytes come apart again. `w` is the weight of the first byte. */
  lemma {:induction false} Tagged(b: Byte, tail: nat, tag: nat, v: nat, w: nat)
    requires w == 1 || w == 0x100 || w == 0x100_0000 || w == 0x100_0000_0000_0000
    requires tag < 4 && v < 64 * w && tail < w && tag * 64 * w + v == b * w + tail
    ensures b / 64 == tag && (b % 64) * w + tail == v
  {}

  lemma {:induction false} TaggedBytes(tag: nat, v: nat, k: nat)
    requires (k == 1 || k == 2 || k == 4 || k == 8) && tag < 4 && v < 64 * Pow256(k - 1)
    ensures tag * 64 * Pow256(k - 1) + v < Pow256(k)
    ensures var b := BigEndian(tag * 64 * Pow256(k - 1) + v, k); b[0] / 64 == tag && FromBigEndian([b[0] % 64] + b[1..]) == v
  {
    Weights();
    var n := tag * 64 * Pow256(k - 1) + v;
    var b := BigEndian(n, k);
    BigEndianHead(n, k);
    FromBigEndianCons(b[0] % 64, b[1..]);
    Tagged(b[0], FromBigEndian(b[1..]), tag, v, Pow256(k - 1));
  }

  lemma {:induction false} Weights()
    ensures Pow256(0) == 1 && Pow256(1) == 0x100 && Pow256(3) == 0x100_0000 && Pow256(7) == 0x100_0000_0000_0000
    ensures Pow256(2) == 0x1_0000 && Pow256(4) == 0x1_0000_0000 && Pow256(8) == U64
  {
    Pow256Values();
    assert Pow256(4) == 256 * Pow256(3);
    assert Pow256(8) == 256 * Pow256(7);
  }

  /** What was put is read back, with its length, whatever follows: the value itself below 2^62, and its low 62 bits above. */
  lemma {:induction false} VarintRoundTrip(v: nat, rest: Chunk)
    requires v < U64
    ensures GetVarint(PutVarint(v) + rest) == Some((v % VARINT_LIMIT, VarintLen(v)))
    ensures GetVarint(PutVarint(v) + rest) == Some((v, VarintLen(v))) <==> v < VARINT_LIMIT
  {
    Weights();
    var k := VarintLen(v);
    var tag := match k case 1 => 0 case 2 => 1 case 4 => 2 case _ => 3;
    TaggedBytes(tag, v % VARINT_LIMIT, k);
    var b, buf := PutVarint(v), PutVarint(v) + rest;
    assert b == BigEndian(tag * 64 * Pow256(k - 1) + v % VARINT_LIMIT, k);
    assert buf[1..k] == b[1..];
  }

  /** No strict first part of an encoding is accepted. */
  lemma {:induction false} VarintPrefixRejected(v: nat, n: nat)
    requires v < U64 && n < VarintLen(v)
    ensures GetVarint(PutVarint(v)[..n]) == None
  {
    if n > 0 {
      VarintRoundTrip(v, []);
      assert PutVarint(v) + [] == PutVarint(v);
      assert PutVarint(v)[..n][0] == PutVarint(v)[0];
    }
  }

  /** Whatever is accepted is below 2^62, and putting it again takes no more bytes. */
  lemma {:induction false} VarintShortest(buf: Chunk)
    requires GetVarint(buf).Some?
    ensures var (v, n) := GetVarint(buf).value; v < VARINT_LIMIT && VarintLen(v) <= n <= |buf|
  {
    Weights();
    var n := LengthOf(buf[0]);
    var t := buf[1..n];
    FromBigEndianCons(buf[0] % 64, t);
    assert |t| == n - 1;
    assert FromBigEndian(t) < Pow256(n - 1);
  }

  /** `get_varint` as the loop it is. */
  method ReadVarint(buf: Chunk) returns (r: Option<(nat, nat)>)
    ensures r == GetVarint(buf)
  {
    if buf == [] {
      return None;
    }
    var first := buf[0];
    var len := LengthOf(first);
    if |buf| < len {
      return None;
    }
    var value: nat := first % 64;
    assert [first % 64] == [first % 64] + buf[1..1];
    FromBigEndianCons(first % 64, []);
    for i := 1 to len
      invariant value == FromBigEndian([first % 64] + buf[1..i])
    {
      var next := [first % 64] + buf[1..i + 1];
      assert next[..|next| - 1] == [first % 64] + buf[1..i];
      value := value * 256 + buf[i];
    }
    r := Some((value, len));
  }

  /** Copies the `k` bytes of `x`, most significant first, to the front of a slice. */
  method CopyBytes(out: array<Byte>, x: nat, k: nat)
    requires x < Pow256(k) && k <= out.Length
    modifies out
    ensures out[..k] == BigEndian(x, k) && out[k..] == old(out[k..])
  {
    var left: nat, i: nat := x, k;
    while i > 0
      invariant i <= k && left < Pow256(i)
      invariant BigEndian(left, i) + out[i..k] == BigEndian(x, k) && out[k..] == old(out[k..])
    {
      i := i - 1;
      out[i] := left % 256;
      assert out[i..k] == [left % 256] + out[i + 1..k];
      left := left / 256;
    }
    assert out[0..k] == out[..k];
  }

  /** `put_varint_slice`, arm by arm: it writes the bytes that `put_varint` appends and leaves the rest of the slice alone. */
  method PutVarintSlice(out: array<Byte>, v: nat) returns (n: nat)
    requires v < U64 && out.Length >= VarintLen(v)
    modifies out
    ensures n == VarintLen(v) && out[..n] == PutVarint(v) && out[n..] == old(out[n..])
  {
    Weights();
    match VarintLen(v) {
      case 1 =>
        out[0] := v;
        assert out[..1] == [v] && BigEndian(v, 1) == BigEndian(v / 256, 0) + [v % 256];
        n := 1;
      case 2 =>
        CopyBytes(out, 0x4000 + v, 2);
        n := 2;
      case 4 =>
        CopyBytes(out, 0x8000_0000 + v, 4);
        n := 4;
      case _ =>
        CopyBytes(out, 0xC000_0000_0000_0000 + v % VARINT_LIMIT, 8);
        n := 8;
    }
  }

  /** Two varints one after the other: the type and the length of a frame. */
  function GetFrameHeader(buf: Chunk): (r: Option<(nat, nat, nat)>)
    ensures r.Some? ==> 2 <= r.value.2 <= |buf|
  {
    match GetVarint(buf)
    case None => None
    case Some((ty, n)) =>
      match GetVarint(buf[n..])
      case None => None
      case Some((len, m)) => Some((ty, len, n + m))
  }

  function PutFrameHeader(ty: nat, len: nat): Chunk {
    PutVarint(ty) + PutVarint(len)
  }

  lemma {:induction false} HeaderOf(buf: Chunk, ty: nat, n: nat, len: nat, m: nat)
    requires GetVarint(buf) == Some((ty, n)) && n <= |buf| && GetVarint(buf[n..]) == Some((len, m))
    ensures GetFrameHeader(buf) == Some((ty, len, n + m))
  {}

  lemma {:induction false} HeaderBytes(a: Chunk, b: Chunk, rest: Chunk)
    ensures (a + b) + rest == a + (b + rest) && (a + (b + rest))[|a|..] == b + rest
  {}

  lemma {:induction false} FrameHeaderRoundTrip(ty: nat, len: nat, rest: Chunk)
    requires ty < VARINT_LIMIT && len < VARINT_LIMIT
    ensures GetFrameHeader(PutFrameHeader(ty, len) + rest) == Some((ty, len, |PutFrameHeader(ty, len)|))
  {
    var a, b := PutVarint(ty), PutVarint(len);
    HeaderBytes(a, b, rest);
    VarintRoundTrip(ty, b + rest);
    VarintRoundTrip(len, rest);
    HeaderOf(a + (b + rest), ty, |a|, len, |b|);
  }

  lemma {:induction false} FrameHeaderPrefixRejected(ty: nat, len: nat, n: nat)
    requires ty < VARINT_LIMIT && len < VARINT_LIMIT && n < |PutFrameHeader(ty, len)|
    ensures GetFrameHeader(PutFrameHeader(ty, len)[..n]) == None
  {
    var b, k := PutFrameHeader(ty, len)[..n], VarintLen(ty);
    if n < k {
      assert b == PutVarint(ty)[..n];
      VarintPrefixRejected(ty, n);
    } else {
      assert b == PutVarint(ty) + PutVarint(len)[..n - k];
      VarintRoundTrip(ty, PutVarint(len)[..n - k]);
      assert b[k..] == PutVarint(len)[..n - k];
      VarintPrefixRejected(len, n - k);
    }
  }

  // ---------------------------------------------------------------- prefixed integers

  function Pow2(k: nat): (p: nat)
    ensures p > 0
  {
    if k == 0 then 1 else 2 * Pow2(k - 1)
  }

  /** Groups of seven bits, the lowest first; the high bit says that more follow. */
  function Groups(v: nat): (b: Chunk)
    ensures b != []
  {
    if v < 128 then [v] else [v % 128 + 128] + Groups(v / 128)
  }

  /** `first` carries the bits above the prefix. */
  ghost predicate IsPrefix(first: Byte, bits: nat) {
    1 <= bits <= 8 && first % Pow2(bits) == 0
  }

  function PutInt(first: Byte, bits: nat, v: nat): Chunk
    requires first + Pow2(bits) <= 256
  {
    PutMasked(first, Pow2(bits) - 1, v)
  }

  function PutMasked(first: Byte, mask: nat, v: nat): Chunk
    requires first + mask < 256
  {
    if v < mask then [first + v] else [first + mask] + Groups(v - mask)
  }

  /** Shifting left. */
  function Shl(w: nat, shift: nat): nat {
    if shift == 0 then w else 2 * Shl(w, shift - 1)
  }

  /** The loop of `get_int`. */
  function GetGroups(buf: Chunk, shift: nat, value: nat): Option<(nat, nat)>
    decreases |buf|
  {
    if buf == [] then None
    else
      var sum := value + Shl(buf[0] % 128, shift);
      if sum >= U64 then None
      else if buf[0] < 128 then Some((sum, 1))
      else if shift + 7 > 56 then None
      else
        match GetGroups(buf[1..], shift + 7, sum)
        case None => None
        case Some((v, n)) => Some((v, n + 1))
  }

  function GetInt(buf: Chunk, bits: nat): Option<(nat, nat)> {
    GetMasked(buf, Pow2(bits) - 1)
  }

  function GetMasked(buf: Chunk, mask: nat): Option<(nat, nat)> {
    if buf == [] then None
    else
      var value := buf[0] % (mask + 1);
      if value < mask then Some((value, 1))
      else
        match GetGroups(buf[1..], 0, value)
        case None => None
        case Some((v, n)) => Some((v, n + 1))
  }

  lemma {:induction false} ShlAdd(a: nat, b: nat, shift: nat)
    ensures Shl(a + b, shift) == Shl(a, shift) + Shl(b, shift)
  {
    if shift > 0 {
      ShlAdd(a, b, shift - 1);
    }
  }

  lemma {:induction false} ShlShl(w: nat, s: nat, t: nat)
    ensures Shl(w, s + t) == Shl(Shl(w, t), s)
  {
    if s > 0 {
      ShlShl(w, s - 1, t);
    }
  }

  lemma {:induction false} ShlSeven(w: nat)
    ensures Shl(w, 7) == 128 * w
  {
    assert Shl(w, 1) == 2 * w;
    assert Shl(w, 2) == 2 * Shl(w, 1);
    assert Shl(w, 3) == 2 * Shl(w, 2);
    assert Shl(w, 4) == 2 * Shl(w, 3);
    assert Shl(w, 5) == 2 * Shl(w, 4);
    assert Shl(w, 6) == 2 * Shl(w, 5);
  }

  /** A value is its lowest seven bits and the rest, seven places further. */
  lemma {:induction false} ShlSplit(w: nat, shift: nat)
    ensures Shl(w, shift) == Shl(w % 128, shift) + Shl(w / 128, shift + 7)
  {
    ShlShl(w / 128, shift, 7);
    ShlSeven(w / 128);
    ShlAdd(w % 128, 128 * (w / 128), shift);
  }

  /** The room left from one shift to the next. */
  lemma {:induction false} RoomSplit(shift: nat)
    requires shift + 7 <= 63
    ensures Shl(1, 63 - shift) == 128 * Shl(1, 56 - shift)
  {
    ShlShl(1, 7, 56 - shift);
    ShlSeven(Shl(1, 56 - shift));
  }

  lemma {:induction false} RoomAtStart()
    ensures Shl(1, 63) == INT_LIMIT
  {
    ShlSeven(1);
    RoomSplit(49);
    RoomSplit(42);
    RoomSplit(35);
    RoomSplit(28);
    RoomSplit(21);
    RoomSplit(14);
    RoomSplit(7);
    RoomSplit(0);
  }

  lemma {:induction false} GroupsFirst(w: nat, rest: Chunk)
    requires w >= 128
    ensures var b := Groups(w) + rest; b[0] == w % 128 + 128 && b[1..] == Groups(w / 128) + rest && |Groups(w)| == 1 + |Groups(w / 128)|
  {}

  /** Where there is room for more than seven bits, there is room for the rest of them seven places further. */
  lemma {:induction false} RoomForRest(w: nat, shift: nat, value: nat)
    requires shift <= 56 && shift % 7 == 0 && 128 <= w < Shl(1, 63 - shift) && value + Shl(w, shift) < U64
    ensures shift <= 49 && w / 128 < Shl(1, 56 - shift)
    ensures value + Shl(w % 128, shift) < U64 && value + Shl(w % 128, shift) + Shl(w / 128, shift + 7) == value + Shl(w, shift)
  {
    ShlSplit(w, shift);
    RoomSplit(shift);
  }

  /** Reading groups back gives the value they stand for, as long as there is room for it. */
  lemma {:induction false} GroupsRoundTrip(w: nat, rest: Chunk, shift: nat, value: nat)
    requires shift <= 56 && shift % 7 == 0 && w < Shl(1, 63 - shift) && value + Shl(w, shift) < U64
    ensures GetGroups(Groups(w) + rest, shift, value) == Some((value + Shl(w, shift), |Groups(w)|))
    decreases w
  {
    var b := Groups(w) + rest;
    if w >= 128 {
      RoomForRest(w, shift, value);
      GroupsFirst(w, rest);
      GroupsRoundTrip(w / 128, rest, shift + 7, value + Shl(w % 128, shift));
      GetGroupsMore(b, shift, value, value + Shl(w, shift), |Groups(w / 128)|);
    } else {
      GetGroupsLast(b, shift, value);
    }
  }

  lemma {:induction false} GetGroupsMore(b: Chunk, shift: nat, value: nat, v: nat, n: nat)
    requires b != [] && b[0] >= 128 && shift + 7 <= 56 && value + Shl(b[0] % 128, shift) < U64
    requires GetGroups(b[1..], shift + 7, value + Shl(b[0] % 128, shift)) == Some((v, n))
    ensures GetGroups(b, shift, value) == Some((v, n + 1))
  {}

  lemma {:induction false} GetGroupsLast(b: Chunk, shift: nat, value: nat)
    requires b != [] && b[0] < 128 && value + Shl(b[0] % 128, shift) < U64
    ensures GetGroups(b, shift, value) == Some((value + Shl(b[0] % 128, shift), 1))
  {}

  /** Without room for it, the value is refused. */
  lemma {:induction false} GroupsTooLong(w: nat, rest: Chunk, shift: nat, value: nat)
    requires shift <= 56 && shift % 7 == 0 && w >= Shl(1, 63 - shift)
    ensures GetGroups(Groups(w) + rest, shift, value) == None
    decreases w
  {
    var b := Groups(w) + rest;
    RoomSplit(shift);
    ShlPositive(56 - shift);
    GroupsFirst(w, rest);
    if shift < 56 {
      GroupsTooLong(w / 128, rest, shift + 7, value + Shl(w % 128, shift));
    }
  }

  lemma {:induction false} ShlPositive(shift: nat)
    ensures Shl(1, shift) >= 1
  {
    if shift > 0 {
      ShlPositive(shift - 1);
    }
  }

  lemma {:induction false} GroupsPrefixRejected(w: nat, n: nat, shift: nat, value: nat)
    requires n < |Groups(w)|
    ensures GetGroups(Groups(w)[..n], shift, value) == None
    decreases w
  {
    if n > 0 {
      var b := Groups(w)[..n];
      assert b[1..] == Groups(w / 128)[..n - 1];
      GroupsPrefixRejected(w / 128, n - 1, shift + 7, value + Shl(b[0] % 128, shift));
    }
  }

  lemma {:induction false} Powers(bits: nat)
    requires 1 <= bits <= 8
    ensures 2 <= Pow2(bits) <= 256 && 256 % Pow2(bits) == 0
  {
    assert Pow2(1) == 2 * Pow2(0);
    assert Pow2(2) == 2 * Pow2(1);
    assert Pow2(3) == 2 * Pow2(2);
    assert Pow2(4) == 2 * Pow2(3);
    assert Pow2(5) == 2 * Pow2(4);
    assert Pow2(6) == 2 * Pow2(5);
    assert Pow2(7) == 2 * Pow2(6);
    assert Pow2(8) == 2 * Pow2(7);
  }

  /** The bits above the prefix leave room for it. */
  lemma {:induction false} PrefixFits(first: Byte, bits: nat, low: nat)
    requires IsPrefix(first, bits) && low < Pow2(bits)
    ensures first + Pow2(bits) <= 256 && (first + low) % Pow2(bits) == low
  {
    Powers(bits);
    var p := Pow2(bits);
    Multiples(first, p, low);
  }

  lemma {:induction false} Multiples(first: Byte, p: nat, low: nat)
    requires p == 2 || p == 4 || p == 8 || p == 16 || p == 32 || p == 64 || p == 128 || p == 256
    requires first % p == 0 && low < p
    ensures first + p <= 256 && (first + low) % p == low
  {}

  /** A prefixed integer is read back with its length, whatever follows, exactly when its value exceeds the prefix by less than 2^63;
      otherwise it is refused. */
  lemma {:induction false} IntRoundTrip(first: Byte, bits: nat, v: nat, rest: Chunk)
    requires IsPrefix(first, bits) && v < U64
    ensures first + Pow2(bits) <= 256
    ensures GetInt(PutInt(first, bits, v) + rest, bits) ==
            if v < Pow2(bits) - 1 + INT_LIMIT then Some((v, |PutInt(first, bits, v)|)) else None
  {
    Powers(bits);
    var mask := Pow2(bits) - 1;
    PrefixFits(first, bits, if v < mask then v else mask);
    MaskedRoundTrip(first, mask, v, rest);
  }

  lemma {:induction false} MaskedRoundTrip(first: Byte, mask: nat, v: nat, rest: Chunk)
    requires first + mask < 256 && v < U64 && (first + if v < mask then v else mask) % (mask + 1) == if v < mask then v else mask
    ensures GetMasked(PutMasked(first, mask, v) + rest, mask) ==
            if v < mask + INT_LIMIT then Some((v, |PutMasked(first, mask, v)|)) else None
  {
    if v >= mask {
      LongIntRoundTrip(mask, v - mask, rest);
      HeaderBytes([first + mask], Groups(v - mask), rest);
      GetMaskedLong([first + mask], Groups(v - mask) + rest, mask);
    }
  }

  lemma {:induction false} GetMaskedLong(first: Chunk, rest: Chunk, mask: nat)
    requires |first| == 1 && first[0] % (mask + 1) == mask
    ensures GetMasked(first + rest, mask) ==
            match GetGroups(rest, 0, mask) case None => None case Some((v, n)) => Some((v, n + 1))
  {
    assert (first + rest)[1..] == rest;
  }

  /** The part after the first byte. */
  lemma {:induction false} LongIntRoundTrip(mask: nat, w: nat, rest: Chunk)
    requires w + mask < U64
    ensures GetGroups(Groups(w) + rest, 0, mask) == if w < INT_LIMIT then Some((w + mask, |Groups(w)|)) else None
  {
    RoomAtStart();
    if w < INT_LIMIT {
      GroupsRoundTrip(w, rest, 0, mask);
    } else {
      GroupsTooLong(w, rest, 0, mask);
    }
  }

  lemma {:induction false} IntPrefixRejected(first: Byte, bits: nat, v: nat, n: nat)
    requires IsPrefix(first, bits) && v < U64 && first + Pow2(bits) <= 256 && n < |PutInt(first, bits, v)|
    ensures GetInt(PutInt(first, bits, v)[..n], bits) == None
  {
    var mask := Pow2(bits) - 1;
    Powers(bits);
    if n > 0 {
      PrefixFits(first, bits, mask);
      assert PutInt(first, bits, v)[..n][1..] == Groups(v - mask)[..n - 1];
      GroupsPrefixRejected(v - mask, n - 1, 0, mask);
    }
  }

  lemma {:induction false} GroupsStep(out: Chunk, left: nat)
    requires left >= 128
    ensures out + Groups(left) == (out + [left % 128 + 128]) + Groups(left / 128)
  {
    var g := Groups(left / 128);
    assert out + ([left % 128 + 128] + g) == (out + [left % 128 + 128]) + g;
  }

  lemma {:induction false} PutIntLong(out: Chunk, first: Byte, bits: nat, v: nat)
    requires first + Pow2(bits) <= 256 && v >= Pow2(bits) - 1
    ensures out + PutInt(first, bits, v) == (out + [first + Pow2(bits) - 1]) + Groups(v - (Pow2(bits) - 1))
  {
    var g := Groups(v - (Pow2(bits) - 1));
    assert out + ([first + Pow2(bits) - 1] + g) == (out + [first + Pow2(bits) - 1]) + g;
  }

  /** `put_int` as the loop it is. */
  method WriteInt(out: Chunk, first: Byte, bits: nat, v: nat) returns (out': Chunk)
    requires first + Pow2(bits) <= 256
    ensures out' == out + PutInt(first, bits, v)
  {
    var mask := Pow2(bits) - 1;
    if v < mask {
      return out + [first + v];
    }
    out' := out + [first + mask];
    var left: nat := v - mask;
    ghost var goal := out + PutInt(first, bits, v);
    PutIntLong(out, first, bits, v);
    while left >= 128
      invariant out' + Groups(left) == goal
    {
      GroupsStep(out', left);
      out' := out' + [left % 128 + 128];
      left := left / 128;
    }
    assert Groups(left) == [left];
    out' := out' + [left];
  }

  /** `get_int` as the loop it is. */
  method ReadInt(buf: Chunk, bits: nat) returns (r: Option<(nat, nat)>)
    ensures r == GetInt(buf, bits)
  {
    if buf == [] {
      return None;
    }
    var mask := Pow2(bits) - 1;
    var value: nat := buf[0] % (mask + 1);
    if value < mask {
      return Some((value, 1));
    }
    var idx: nat, shift: nat := 1, 0;
    ghost var start := value;
    while idx < |buf|
      invariant 1 <= idx <= |buf| && shift == 7 * (idx - 1) <= 56
      invariant GetGroups(buf[1..], 0, start) == Later(GetGroups(buf[idx..], shift, value), idx - 1)
    {
      assert buf[idx..][1..] == buf[idx + 1..];
      value := value + Shl(buf[idx] % 128, shift);
      if value >= U64 {
        return None;
      }
      idx := idx + 1;
      if buf[idx - 1] < 128 {
        return Some((value, idx));
      }
      shift := shift + 7;
      if shift > 56 {
        return None;
      }
    }
    assert buf[idx..] == [];
    r := None;
  }

  /** The same result, `k` bytes further on. */
  ghost function Later(r: Option<(nat, nat)>, k: nat): Option<(nat, nat)> {
    match r case None => None case Some((v, n)) => Some((v, n + k))
  }
}
