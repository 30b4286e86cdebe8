/** Rewriting the head of a proxied request in place (src/client/proxy.rs): headers meant only for the proxy are
    removed, and the request line is given the origin form of its target. */
module HeadRewrite {
  import opened Bytes
  import DomainIndex

  const NEWLINE: Byte := 10
  const RETURN: Byte := 13
  const SPACE: Byte := 32
  const TAB: Byte := 9
  const COLON: Byte := 58
  const MAX_VERSION_LEN: nat := 16

  // ---------------------------------------------------------------- lines

  /** The lines of a text, each with its newline, and what follows the last newline. */
  function Lines(s: Chunk): seq<Chunk>
    decreases |s|
  {
    var i := IndexOf(s, NEWLINE);
    if i == |s| then [] else [s[..i + 1]] + Lines(s[i + 1..])
  }

  function Tail(s: Chunk): Chunk
    decreases |s|
  {
    var i := IndexOf(s, NEWLINE);
    if i == |s| then s else Tail(s[i + 1..])
  }

  /** One newline, at the end. */
  ghost predicate IsLine(l: Chunk) {
    l != [] && IndexOf(l, NEWLINE) == |l| - 1
  }

  ghost predicate AllLines(ls: seq<Chunk>) {
    forall i :: 0 <= i < |ls| ==> IsLine(ls[i])
  }

  lemma {:induction false} FirstLine(s: Chunk)
    requires IndexOf(s, NEWLINE) < |s|
    ensures IsLine(s[..IndexOf(s, NEWLINE) + 1])
  {
    var i := IndexOf(s, NEWLINE);
    IndexOfUnique(s[..i + 1], NEWLINE, i);
  }

  lemma {:induction false} JoinFirst(s: Chunk, k: nat, ls: seq<Chunk>, tail: Chunk)
    requires k <= |s| && Flatten(ls) + tail == s[k..]
    ensures Flatten([s[..k]] + ls) + tail == s
  {
    FlattenCons(s[..k], ls);
    assert s[..k] + (Flatten(ls) + tail) == s;
    assert (s[..k] + Flatten(ls)) + tail == s[..k] + (Flatten(ls) + tail);
  }

  /** A text is its lines and its tail. */
  lemma {:induction false} LinesJoin(s: Chunk)
    ensures Flatten(Lines(s)) + Tail(s) == s && AllLines(Lines(s)) && IndexOf(Tail(s), NEWLINE) == |Tail(s)|
    decreases |s|
  {
    var i := IndexOf(s, NEWLINE);
    if i < |s| {
      var rest := s[i + 1..];
      LinesJoin(rest);
      FirstLine(s);
      AllLinesCons(s[..i + 1], Lines(rest));
      JoinFirst(s, i + 1, Lines(rest), Tail(rest));
      LinesUnfold(s, i, rest);
    }
  }

  lemma {:induction false} LinesUnfold(s: Chunk, i: nat, rest: Chunk)
    requires i == IndexOf(s, NEWLINE) < |s| && rest == s[i + 1..]
    ensures Lines(s) == [s[..i + 1]] + Lines(rest) && Tail(s) == Tail(rest)
  {}

  lemma {:induction false} AllLinesCons(l: Chunk, ls: seq<Chunk>)
    requires IsLine(l) && AllLines(ls)
    ensures AllLines([l] + ls)
  {}

  lemma {:induction false} FlattenCons(l: Chunk, ls: seq<Chunk>)
    ensures Flatten([l] + ls) == l + Flatten(ls)
  {
    assert ([l] + ls)[1..] == ls;
  }

  /** Lines put together are split into the same lines again. */
  lemma {:induction false} LinesOfJoined(ls: seq<Chunk>, tail: Chunk)
    requires AllLines(ls) && IndexOf(tail, NEWLINE) == |tail|
    ensures Lines(Flatten(ls) + tail) == ls && Tail(Flatten(ls) + tail) == tail
    decreases |ls|
  {
    if ls == [] {
      assert Flatten(ls) + tail == tail;
    } else {
      LinesOfJoined(ls[1..], tail);
      var rest := Flatten(ls[1..]) + tail;
      LineThen(ls[0], rest);
      assert Flatten(ls) + tail == ls[0] + rest;
      assert ls == [ls[0]] + ls[1..];
    }
  }

  lemma {:induction false} LineThen(l: Chunk, rest: Chunk)
    requires IsLine(l)
    ensures Lines(l + rest) == [l] + Lines(rest) && Tail(l + rest) == Tail(rest)
  {
    IndexOfExtend(l, rest, NEWLINE);
    assert (l + rest)[..|l|] == l && (l + rest)[|l|..] == rest;
  }

  // ---------------------------------------------------------------- which lines go

  predicate Continuation(line: Chunk) {
    line != [] && (line[0] == SPACE || line[0] == TAB)
  }

  function ProxyAuthorization(): Chunk {
    [112, 114, 111, 120, 121, 45, 97, 117, 116, 104, 111, 114, 105, 122, 97, 116, 105, 111, 110]
  }

  function ProxyConnection(): Chunk {
    [112, 114, 111, 120, 121, 45, 99, 111, 110, 110, 101, 99, 116, 105, 111, 110]
  }

  /** A header line whose name, upper and lower case being the same, is one of the two. */
  predicate IsProxyOnlyHeader(line: Chunk) {
    var colon := IndexOf(line, COLON);
    && colon < |line|
    && var name := DomainIndex.Lower(TrimAscii(line[..colon]));
       name == ProxyAuthorization() || name == ProxyConnection()
  }

  /** Line `i` belongs to a proxy-only header: it is one, or continues a line that does. */
  predicate Dropped(ls: seq<Chunk>, i: nat)
    requires i < |ls|
  {
    if Continuation(ls[i]) then i > 0 && Dropped(ls, i - 1) else IsProxyOnlyHeader(ls[i])
  }

  /** The same without recursion: some line at or before it is a proxy-only header and all lines from there on are continuations. */
  lemma {:induction false} DroppedMeaning(ls: seq<Chunk>, i: nat)
    requires i < |ls|
    ensures Dropped(ls, i) <==>
            exists j :: 0 <= j <= i && !Continuation(ls[j]) && IsProxyOnlyHeader(ls[j]) && forall m :: j < m <= i ==> Continuation(ls[m])
  {
    if Continuation(ls[i]) && i > 0 {
      DroppedMeaning(ls, i - 1);
      if Dropped(ls, i) {
        var j :| 0 <= j <= i - 1 && !Continuation(ls[j]) && IsProxyOnlyHeader(ls[j]) && forall m :: j < m <= i - 1 ==> Continuation(ls[m]);
        assert forall m :: j < m <= i ==> Continuation(ls[m]);
      }
      forall j | 0 <= j <= i && !Continuation(ls[j]) && IsProxyOnlyHeader(ls[j]) && forall m :: j < m <= i ==> Continuation(ls[m])
        ensures Dropped(ls, i)
      {
        assert j <= i - 1 && forall m :: j < m <= i - 1 ==> Continuation(ls[m]);
      }
    } else if Dropped(ls, i) {
      assert !Continuation(ls[i]) && IsProxyOnlyHeader(ls[i]);
    }
  }

  /** The first `n` lines without the dropped ones. */
  function Kept(ls: seq<Chunk>, n: nat): (r: seq<Chunk>)
    requires n <= |ls|
    ensures |r| <= n
  {
    if n == 0 then []
    else if Dropped(ls, n - 1) then Kept(ls, n - 1)
    else Kept(ls, n - 1) + [ls[n - 1]]
  }

  lemma {:induction false} KeptLines(ls: seq<Chunk>, n: nat)
    requires n <= |ls| && AllLines(ls)
    ensures AllLines(Kept(ls, n))
  {
    if n > 0 {
      KeptLines(ls, n - 1);
    }
  }

  lemma {:induction false} DroppedPrefix(a: seq<Chunk>, b: seq<Chunk>, i: nat)
    requires a <= b && i < |a|
    ensures Dropped(a, i) == Dropped(b, i)
  {
    if i > 0 {
      DroppedPrefix(a, b, i - 1);
    }
  }

  lemma {:induction false} KeptPrefix(a: seq<Chunk>, b: seq<Chunk>, n: nat)
    requires a <= b && n <= |a|
    ensures Kept(a, n) == Kept(b, n)
  {
    if n > 0 {
      KeptPrefix(a, b, n - 1);
      DroppedPrefix(a, b, n - 1);
    }
  }

  /** Nothing of what is kept is dropped the second time. */
  lemma {:induction false} KeptStays(ls: seq<Chunk>, n: nat)
    requires n <= |ls|
    ensures var k := Kept(ls, n); Kept(k, |k|) == k && (k != [] ==> !Dropped(k, |k| - 1))
  {
    if n > 0 {
      KeptStays(ls, n - 1);
      if !Dropped(ls, n - 1) {
        var before := Kept(ls, n - 1);
        var k := before + [ls[n - 1]];
        KeptPrefix(before, k, |before|);
        if before != [] {
          DroppedPrefix(before, k, |before| - 1);
        }
        assert !Dropped(k, |before|) by {
          if Continuation(ls[n - 1]) && before != [] {
            assert !Dropped(k, |before| - 1);
          }
        }
      }
    }
  }

  /** Header lines without the proxy-only ones, and what follows the last line. */
  function StrippedLines(rest: Chunk): Chunk {
    Flatten(Kept(Lines(rest), |Lines(rest)|)) + Tail(rest)
  }

  /** The head without its proxy-only headers; a head without a newline is left alone. */
  function Stripped(head: Chunk): Chunk {
    AfterFirstLine(StrippedLines, head)
  }

  function AfterFirstLine(strip: Chunk -> Chunk, head: Chunk): Chunk {
    var i := IndexOf(head, NEWLINE);
    if i == |head| then head else head[..i + 1] + strip(head[i + 1..])
  }

  lemma {:induction false} StrippedLinesIdempotent(rest: Chunk)
    ensures StrippedLines(StrippedLines(rest)) == StrippedLines(rest)
  {
    var ls := Lines(rest);
    LinesJoin(rest);
    KeptLines(ls, |ls|);
    KeptStays(ls, |ls|);
    LinesOfJoined(Kept(ls, |ls|), Tail(rest));
  }

  /** Stripping a second time changes nothing. */
  lemma {:induction false} StrippedIdempotent(head: Chunk)
    ensures Stripped(Stripped(head)) == Stripped(head)
  {
    var i := IndexOf(head, NEWLINE);
    var tail := if i < |head| then head[i + 1..] else [];
    StrippedLinesIdempotent(tail);
    AfterFirstLineTwice(StrippedLines, head, tail);
  }

  lemma {:induction false} AfterFirstLineTwice(strip: Chunk -> Chunk, head: Chunk, tail: Chunk)
    requires var i := IndexOf(head, NEWLINE); i < |head| ==> tail == head[i + 1..]
    requires strip(strip(tail)) == strip(tail)
    ensures AfterFirstLine(strip, AfterFirstLine(strip, head)) == AfterFirstLine(strip, head)
  {
    var i := IndexOf(head, NEWLINE);
    if i < |head| {
      var line, rest := head[..i + 1], strip(tail);
      IndexOfUnique(line + rest, NEWLINE, i);
      assert (line + rest)[..i + 1] == line && (line + rest)[i + 1..] == rest;
    }
  }

  // ---------------------------------------------------------------- the buffer

  /** Where bytes are copied within a buffer. */
  function CopyWithin(s: Chunk, from: nat, to: nat, dest: nat): (r: Chunk)
    requires from <= to <= |s| && dest + (to - from) <= |s|
    ensures |r| == |s|
  {
    s[..dest] + s[from..to] + s[dest + (to - from)..]
  }

  function Overwrite(s: Chunk, at: nat, bytes: Chunk): (r: Chunk)
    requires at + |bytes| <= |s|
    ensures |r| == |s|
  {
    s[..at] + bytes + s[at + |bytes|..]
  }

  function RequestLine(verb: Chunk, path: Chunk, version: Chunk): Chunk {
    verb + [SPACE] + path + [SPACE] + version + [RETURN, NEWLINE]
  }

  function TrimReturns(s: Chunk): Chunk {
    if s != [] && s[|s| - 1] == RETURN then TrimReturns(s[..|s| - 1]) else s
  }

  /** The position after the last space, or zero. */
  function AfterLastSpace(s: Chunk): (j: nat)
    ensures j <= |s| && (j > 0 ==> s[j - 1] == SPACE)
    ensures forall i :: j <= i < |s| ==> s[i] != SPACE
  {
    if s == [] then 0
    else if s[|s| - 1] == SPACE then |s|
    else AfterLastSpace(s[..|s| - 1])
  }

  datatype Rewrite = Rewritten(bytes: Chunk) | NoNewline | NotUtf8 | Malformed | BadVersion

  /** What rewriting the request line means: the first line becomes the verb, the path and the version it had; every byte after
      it stays. */
  function RewriteMeans(utf8: Chunk -> bool, buf: Chunk, headerLen: nat, verb: Chunk, path: Chunk): Rewrite {
    var scan := if headerLen < |buf| then headerLen else |buf|;
    var i := IndexOf(buf[..scan], NEWLINE);
    if i == scan then NoNewline
    else if !utf8(buf[..i]) then NotUtf8
    else
      var line := TrimReturns(buf[..i]);
      var j := AfterLastSpace(line);
      if j == 0 then Malformed
      else if |line| - j > MAX_VERSION_LEN then BadVersion
      else Rewritten(RequestLine(verb, path, line[j..]) + buf[i + 1..])
  }

  /** `write_request_line`: the parts, one after another, into a slice of the right size. */
  method WriteRequestLine(dst: Chunk, verb: Chunk, path: Chunk, version: Chunk) returns (out: Chunk)
    requires |dst| == |RequestLine(verb, path, version)|
    ensures out == RequestLine(verb, path, version)
  {
    out := Overwrite(dst, 0, verb);
    var pos := |verb|;
    out := Overwrite(out, pos, [SPACE]);
    assert out[..pos + 1] == verb + [SPACE];
    pos := pos + 1;
    out := Overwrite(out, pos, path);
    assert out[..pos + |path|] == verb + [SPACE] + path;
    pos := pos + |path|;
    out := Overwrite(out, pos, [SPACE]);
    assert out[..pos + 1] == verb + [SPACE] + path + [SPACE];
    pos := pos + 1;
    out := Overwrite(out, pos, version);
    assert out[..pos + |version|] == verb + [SPACE] + path + [SPACE] + version;
    pos := pos + |version|;
    out := Overwrite(out, pos, [RETURN, NEWLINE]);
    assert out[..pos + 2] == RequestLine(verb, path, version) && out[..pos + 2] == out;
  }

  /** The buffer that holds a request while its head is rewritten. */
  class Buffer {
    var data: Chunk

    constructor (data: Chunk)
      ensures this.data == data
    {
      this.data := data;
    }

    /** One header line: it is kept unless it belongs to a proxy-only header. */
    method CollectLine(rest: Chunk, cursor: nat, rel: nat, kept: Chunk, was: bool, ghost request: Chunk, ghost ls: seq<Chunk>, ghost n: nat)
      returns (kept': Chunk, dropping: bool)
      requires cursor <= |rest| && Collected(request, rest, cursor, ls, n, kept, was)
      requires rel == IndexOf(rest[cursor..], NEWLINE) && cursor + rel < |rest|
      ensures Collected(request, rest, cursor + rel + 1, ls, n + 1, kept', dropping)
    {
      var line := rest[cursor..][..rel + 1];
      dropping := if Continuation(line) then was else IsProxyOnlyHeader(line);
      CollectOne(request, rest, cursor, ls, n, kept, was, rel, dropping);
      kept' := if dropping then kept else kept + line;
    }

    /** The loop over header lines; `rest` is the head after the request line. */
    method CollectKept(request: Chunk, rest: Chunk) returns (kept: Chunk)
      ensures kept == request + StrippedLines(rest)
    {
      kept := request;
      var dropping := false;
      var cursor: nat := 0;
      ghost var ls, n := Lines(rest), 0;
      NothingCollected(request, rest);
      var rel := IndexOf(rest[cursor..], NEWLINE);
      while cursor + rel < |rest|
        invariant Collected(request, rest, cursor, ls, n, kept, dropping)
        invariant cursor <= |rest| && rel == IndexOf(rest[cursor..], NEWLINE)
        decreases |rest| - cursor
      {
        kept, dropping := CollectLine(rest, cursor, rel, kept, dropping, request, ls, n);
        cursor, n := cursor + rel + 1, n + 1;
        rel := IndexOf(rest[cursor..], NEWLINE);
      }
      FinishKept(request, rest, n, cursor, kept, dropping);
      kept := kept + rest[cursor..];
    }

    /** `strip_proxy_headers`: the head is stripped and everything after it stays; the length returned is that of the new head. */
    method StripProxyHeaders(headerLen: nat) returns (newLen: nat)
      modifies this
      ensures var end := if headerLen < |old(data)| then headerLen else |old(data)|;
              var head := old(data)[..end];
              && data == Stripped(head) + old(data)[end..]
              && newLen == if Stripped(head) == head then headerLen else |Stripped(head)|
    {
      var end := if headerLen < |data| then headerLen else |data|;
      var head := data[..end];
      assert data == head + data[end..];
      var i := IndexOf(head, NEWLINE);
      if i == |head| {
        return headerLen;
      }
      var kept := CollectKept(head[..i + 1], head[i + 1..]);
      StrippedShorter(head);
      if |kept| == |head| {
        return headerLen;
      }
      newLen := |kept|;
      ReplaceHead(kept, headerLen);
    }

    /** The head of the buffer makes room for a shorter one. */
    method ReplaceHead(kept: Chunk, headerLen: nat)
      requires |kept| <= headerLen && |kept| <= |data|
      modifies this
      ensures data == kept + if headerLen < |old(data)| then old(data)[headerLen..] else []
    {
      ghost var was := data;
      var newLen := |kept|;
      data := Overwrite(data, 0, kept);
      if |data| > headerLen {
        var tailLen := |data| - headerLen;
        data := CopyWithin(data, headerLen, |data|, newLen);
        data := data[..newLen + tailLen];
        assert data == kept + was[headerLen..];
      } else {
        data := data[..newLen];
        assert data == kept + [];
      }
    }

    /** `rewrite_request_line`: both ways of replacing the first line, in place when it does not grow and through a new buffer
        when it does, mean the same; on an error the buffer is untouched. */
    method RewriteRequestLine(utf8: Chunk -> bool, headerLen: nat, verb: Chunk, path: Chunk) returns (r: Rewrite)
      modifies this
      ensures r == RewriteMeans(utf8, old(data), headerLen, verb, path)
      ensures data == if r.Rewritten? then r.bytes else old(data)
    {
      var scan := if headerLen < |data| then headerLen else |data|;
      var i := IndexOf(data[..scan], NEWLINE);
      if i == scan {
        return NoNewline;
      }
      if !utf8(data[..i]) {
        return NotUtf8;
      }
      var line := TrimReturns(data[..i]);
      var j := AfterLastSpace(line);
      if j == 0 {
        return Malformed;
      }
      var version := line[j..];
      if |version| > MAX_VERSION_LEN {
        return BadVersion;
      }
      ReplaceFirst(verb, path, version, i + 1);
      r := Rewritten(data);
    }

    method ReplaceFirst(verb: Chunk, path: Chunk, version: Chunk, oldLen: nat)
      requires oldLen <= |data|
      modifies this
      ensures data == RequestLine(verb, path, version) + old(data)[oldLen..]
    {
      ghost var was := data;
      var newLen := |verb| + 1 + |path| + 1 + |version| + 2;
      assert newLen == |RequestLine(verb, path, version)|;
      if newLen <= oldLen {
        var total := |data|;
        data := CopyWithin(data, oldLen, total, newLen);
        assert data[newLen..total - (oldLen - newLen)] == was[oldLen..];
        var line := WriteRequestLine(data[..newLen], verb, path, version);
        data := Overwrite(data, 0, line);
        data := data[..total - (oldLen - newLen)];
        assert data == line + was[oldLen..];
      } else {
        var newLine := verb + [SPACE] + path + [SPACE] + version + [RETURN, NEWLINE];
        data := newLine + data[oldLen..];
      }
    }
  }

  lemma {:induction false} KeepOne(request: Chunk, ls: seq<Chunk>, n: nat)
    requires n < |ls| && !Dropped(ls, n)
    ensures request + Flatten(Kept(ls, n + 1)) == request + Flatten(Kept(ls, n)) + ls[n]
  {
    FlattenSnoc(Kept(ls, n), ls[n]);
    assert request + (Flatten(Kept(ls, n)) + ls[n]) == request + Flatten(Kept(ls, n)) + ls[n];
  }

  /** The first `n` lines have been read, up to `cursor`. */
  ghost predicate LinesFrom(rest: Chunk, cursor: nat, ls: seq<Chunk>, n: nat) {
    cursor <= |rest| && n <= |ls| && Lines(rest[cursor..]) == ls[n..] && Tail(rest[cursor..]) == Tail(rest)
  }

  lemma {:induction false} NextLine(rest: Chunk, cursor: nat, ls: seq<Chunk>, n: nat, rel: nat)
    requires LinesFrom(rest, cursor, ls, n) && rel == IndexOf(rest[cursor..], NEWLINE) && cursor + rel < |rest|
    ensures n < |ls| && rest[cursor..][..rel + 1] == ls[n] && LinesFrom(rest, cursor + rel + 1, ls, n + 1)
  {
    assert ls[n..][0] == rest[cursor..][..rel + 1] && ls[n..][1..] == ls[n + 1..];
    assert rest[cursor..][rel + 1..] == rest[cursor + rel + 1..];
  }

  /** What has been collected when `n` lines have been read. */
  ghost predicate Collected(request: Chunk, rest: Chunk, cursor: nat, ls: seq<Chunk>, n: nat, kept: Chunk, dropping: bool) {
    forall k: nat {:trigger Look(k)} :: Look(k) && k == n ==>
      LinesFrom(rest, cursor, ls, k) && kept == request + Flatten(Kept(ls, k)) && dropping == (k > 0 && Dropped(ls, k - 1))
  }

  lemma {:induction false} NothingCollected(request: Chunk, rest: Chunk)
    ensures Collected(request, rest, 0, Lines(rest), 0, request, false)
  {
    assert rest[0..] == rest && Lines(rest)[0..] == Lines(rest);
    assert request + [] == request;
  }

  lemma {:induction false} CollectOne(request: Chunk, rest: Chunk, cursor: nat, ls: seq<Chunk>, n: nat, kept: Chunk, was: bool, rel: nat, dropping: bool)
    requires cursor <= |rest| && Collected(request, rest, cursor, ls, n, kept, was)
    requires rel == IndexOf(rest[cursor..], NEWLINE) && cursor + rel < |rest|
    requires var line := rest[cursor..][..rel + 1]; dropping == if Continuation(line) then was else IsProxyOnlyHeader(line)
    ensures Collected(request, rest, cursor + rel + 1, ls, n + 1, if dropping then kept else kept + rest[cursor..][..rel + 1], dropping)
  {
    assert Look(n);
    NextLine(rest, cursor, ls, n, rel);
    LineDropped(ls, n, was, dropping);
    if !dropping {
      KeepOne(request, ls, n);
    } else {
      KeepNone(ls, n);
    }
  }

  lemma {:induction false} LineDropped(ls: seq<Chunk>, n: nat, was: bool, dropping: bool)
    requires n < |ls| && was == (n > 0 && Dropped(ls, n - 1))
    requires dropping == if Continuation(ls[n]) then was else IsProxyOnlyHeader(ls[n])
    ensures dropping == Dropped(ls, n)
  {}

  lemma {:induction false} KeepNone(ls: seq<Chunk>, n: nat)
    requires n < |ls| && Dropped(ls, n)
    ensures Kept(ls, n + 1) == Kept(ls, n)
  {}

  lemma {:induction false} FinishKept(request: Chunk, rest: Chunk, n: nat, cursor: nat, kept: Chunk, dropping: bool)
    requires cursor <= |rest| && Collected(request, rest, cursor, Lines(rest), n, kept, dropping) && cursor + IndexOf(rest[cursor..], NEWLINE) == |rest|
    ensures kept + rest[cursor..] == request + StrippedLines(rest)
  {
    assert Look(n);
    KeptAndTail(request, rest, Lines(rest), n, cursor);
  }

  lemma {:induction false} KeptAndTail(request: Chunk, rest: Chunk, ls: seq<Chunk>, n: nat, cursor: nat)
    requires ls == Lines(rest) && LinesFrom(rest, cursor, ls, n) && cursor + IndexOf(rest[cursor..], NEWLINE) == |rest|
    ensures request + Flatten(Kept(ls, n)) + rest[cursor..] == request + StrippedLines(rest)
  {
    assert ls[n..] == [];
    var k := Flatten(Kept(ls, n));
    assert request + k + rest[cursor..] == request + (k + rest[cursor..]);
  }

  /** Keeping all the bytes means keeping all the lines. */
  lemma {:induction false} KeptShorter(ls: seq<Chunk>, n: nat)
    requires n <= |ls| && AllLines(ls)
    ensures |Flatten(Kept(ls, n))| <= |Flatten(ls[..n])|
    ensures |Flatten(Kept(ls, n))| == |Flatten(ls[..n])| ==> Kept(ls, n) == ls[..n]
  {
    if n > 0 {
      KeptShorter(ls, n - 1);
      assert ls[..n] == ls[..n - 1] + [ls[n - 1]];
      FlattenSnoc(ls[..n - 1], ls[n - 1]);
      FlattenSnoc(Kept(ls, n - 1), ls[n - 1]);
      assert IsLine(ls[n - 1]);
    } else {
      assert ls[..n] == [];
    }
  }

  lemma {:induction false} StrippedLinesShorter(rest: Chunk)
    ensures |StrippedLines(rest)| <= |rest|
    ensures |StrippedLines(rest)| == |rest| ==> StrippedLines(rest) == rest
  {
    var ls := Lines(rest);
    LinesJoin(rest);
    KeptShorter(ls, |ls|);
    assert ls[..|ls|] == ls;
  }

  lemma {:induction false} Rejoin(head: Chunk, k: nat, x: Chunk)
    requires k <= |head| && |x| <= |head| - k && (|x| == |head| - k ==> x == head[k..])
    ensures |head[..k] + x| <= |head| && (|head[..k] + x| == |head| ==> head[..k] + x == head)
  {}

  lemma {:induction false} StrippedShorter(head: Chunk)
    ensures |Stripped(head)| <= |head|
    ensures |Stripped(head)| == |head| ==> Stripped(head) == head
  {
    var i := IndexOf(head, NEWLINE);
    if i < |head| {
      StrippedLinesShorter(head[i + 1..]);
      Rejoin(head, i + 1, StrippedLines(head[i + 1..]));
    }
  }
}
