/** The index of bypassed domains (src/bypass/mod.rs): a rule is stored under its labels in reverse order, lower case and
    separated by NUL, and a name is looked up label by label from its end. */
module DomainIndex {
  import opened Bytes

  const DOT: Byte := 46
  const NUL: Byte := 0

  function LowerByte(b: Byte): Byte {
    if 65 <= b <= 90 then b + 32 else b
  }

  function Lower(s: Chunk): (r: Chunk)
    ensures |r| == |s|
  {
    seq(|s|, i requires 0 <= i < |s| => LowerByte(s[i]))
  }

  /** Without the dots at both ends. */
  function Trim(s: Chunk): (r: Chunk)
    ensures |r| <= |s|
    ensures r != [] ==> r[0] != DOT && r[|r| - 1] != DOT
    ensures forall b :: b in r ==> b in s
    decreases |s|
  {
    if s == [] then []
    else if s[0] == DOT then Trim(s[1..])
    else if s[|s| - 1] == DOT then Trim(s[..|s| - 1])
    else s
  }

  /** The key under which a name is stored. */
  function Key(s: Chunk): Chunk
    decreases |s|
  {
    var i := IndexOf(s, DOT);
    if i == |s| then Lower(s) else Key(s[i + 1..]) + [NUL] + Lower(s[..i])
  }

  // ---------------------------------------------------------------- the key determines the name

  /** The position after the last NUL, or zero. */
  function AfterLastNul(k: Chunk): (j: nat)
    ensures j <= |k|
    ensures j > 0 ==> k[j - 1] == NUL
    ensures forall i :: j <= i < |k| ==> k[i] != NUL
  {
    if k == [] then 0
    else if k[|k| - 1] == NUL then |k|
    else AfterLastNul(k[..|k| - 1])
  }

  lemma {:induction false} AfterLastNulIs(k: Chunk, j: nat)
    requires j <= |k| && (j > 0 ==> k[j - 1] == NUL) && forall i :: j <= i < |k| ==> k[i] != NUL
    ensures AfterLastNul(k) == j
  {}

  /** Reads a name back from its key. */
  function Unkey(k: Chunk): Chunk
    decreases |k|
  {
    var j := AfterLastNul(k);
    if j == 0 then k else k[j..] + [DOT] + Unkey(k[..j - 1])
  }

  lemma {:induction false} LowerHasNoNul(s: Chunk)
    requires NUL !in s
    ensures NUL !in Lower(s)
  {
    forall i | 0 <= i < |s|
      ensures Lower(s)[i] != NUL
    {
      assert s[i] in s;
    }
  }

  /** A key gives back its name in lower case, provided the name has no NUL. */
  lemma {:induction false} UnkeyKey(s: Chunk)
    requires NUL !in s
    ensures Unkey(Key(s)) == Lower(s)
    decreases |s|
  {
    LowerHasNoNul(s);
    var i := IndexOf(s, DOT);
    if i == |s| {
      forall n | 0 <= n < |s|
        ensures Lower(s)[n] != NUL
      {
        assert Lower(s)[n] in Lower(s);
      }
      AfterLastNulIs(Lower(s), 0);
    } else {
      LowerHasNoNul(s[..i]);
      UnkeyKey(s[i + 1..]);
      UnkeyJoin(Key(s[i + 1..]), Lower(s[..i]));
      LowerAtDot(s, i);
    }
  }

  lemma {:induction false} LowerAtDot(s: Chunk, i: nat)
    requires i < |s| && s[i] == DOT
    ensures Lower(s) == Lower(s[..i]) + [DOT] + Lower(s[i + 1..])
  {}

  lemma {:induction false} UnkeyJoin(k: Chunk, piece: Chunk)
    requires NUL !in piece
    ensures Unkey(k + [NUL] + piece) == piece + [DOT] + Unkey(k)
  {
    var all, j := k + [NUL] + piece, |k| + 1;
    forall i | j <= i < |all|
      ensures all[i] != NUL
    {
      assert all[i] == piece[i - j] && piece[i - j] in piece;
    }
    AfterLastNulIs(all, j);
    assert all[j..] == piece && all[..j - 1] == k;
  }

  /** Keys depend only on the name in lower case, and, without NULs, tell any two such names apart. */
  lemma {:induction false} KeysAgree(a: Chunk, b: Chunk)
    requires NUL !in a && NUL !in b
    ensures Key(a) == Key(b) <==> Lower(a) == Lower(b)
  {
    UnkeyKey(a);
    UnkeyKey(b);
    if Lower(a) == Lower(b) {
      SameKey(a, b);
    }
  }

  lemma {:induction false} SameKey(a: Chunk, b: Chunk)
    requires Lower(a) == Lower(b)
    ensures Key(a) == Key(b)
    decreases |a|
  {
    forall i | 0 <= i < |a|
      ensures a[i] == DOT <==> b[i] == DOT
    {
      assert Lower(a)[i] == Lower(b)[i];
    }
    var i := IndexOf(a, DOT);
    if i < |a| {
      IndexOfUnique(b, DOT, i);
      SameLowerSlice(a, b, i);
      SameKey(a[i + 1..], b[i + 1..]);
    }
  }

  lemma {:induction false} SameLowerSlice(a: Chunk, b: Chunk, i: nat)
    requires Lower(a) == Lower(b) && i < |a|
    ensures Lower(a[..i]) == Lower(b[..i]) && Lower(a[i + 1..]) == Lower(b[i + 1..])
  {
    assert |a| == |b|;
    forall n | 0 <= n < |a|
      ensures LowerByte(a[n]) == LowerByte(b[n])
    {
      assert Lower(a)[n] == Lower(b)[n];
    }
  }

  // ---------------------------------------------------------------- the loops

  /** The start of the label that ends at `end`. */
  method LabelStart(s: Chunk, end: nat) returns (start: nat)
    requires end <= |s|
    ensures start <= end && (start == 0 || s[start - 1] == DOT)
    ensures forall i :: start <= i < end ==> s[i] != DOT
  {
    start := end;
    while start > 0 && s[start - 1] != DOT
      invariant start <= end && forall i :: start <= i < end ==> s[i] != DOT
    {
      start := start - 1;
    }
  }

  /** One more label in front adds its lower-case form at the end of the key. */
  lemma {:induction false} KeyStep(s: Chunk, start: nat, end: nat)
    requires start <= end < |s| && s[end] == DOT && forall i :: start <= i < end ==> s[i] != DOT
    ensures Key(s[start..]) == Key(s[end + 1..]) + [NUL] + Lower(s[start..end])
  {
    assert s[start..] == s[start..end] + [DOT] + s[end + 1..];
    KeyAtDot(s[start..end], s[end + 1..]);
  }

  lemma {:induction false} KeyOfLabel(s: Chunk, start: nat)
    requires start <= |s| && forall i :: start <= i < |s| ==> s[i] != DOT
    ensures Key(s[start..]) == Lower(s[start..])
  {
    var t := s[start..];
    forall i | 0 <= i < |t|
      ensures t[i] != DOT
    {
      assert t[i] == s[start + i];
    }
  }

  /** Where a label of the name begins. */
  predicate LabelAt(s: Chunk, start: int) {
    0 <= start < |s| && (start == 0 || s[start - 1] == DOT)
  }

  /** Takes the label that ends at `end` into the key. */
  method TakeLabel(s: Chunk, buf: Chunk, end: nat, first: bool) returns (buf': Chunk, start: nat)
    requires 0 < end <= |s| && s[|s| - 1] != DOT
    requires first <==> end == |s|
    requires !first ==> s[end] == DOT && buf == Key(s[end + 1..])
    requires first ==> buf == []
    ensures start <= end && LabelAt(s, start) && buf' == Key(s[start..])
    ensures forall i :: start < i <= end ==> !LabelAt(s, i)
  {
    start := LabelStart(s, end);
    buf' := if first then buf else buf + [NUL];
    buf' := buf' + Lower(s[start..end]);
    if first {
      assert s[start..end] == s[start..];
      assert [] + Lower(s[start..]) == Lower(s[start..]);
      KeyOfLabel(s, start);
    } else {
      KeyStep(s, start, end);
    }
  }

  /** `domain_to_fst_key` */
  method DomainKey(domain: Chunk) returns (key: Option<Chunk>)
    ensures key == if Trim(domain) == [] then None else Some(Key(Trim(domain)))
  {
    var s := Trim(domain);
    if s == [] {
      return None;
    }
    var buf: Chunk := [];
    var end, first := |s|, true;
    while end > 0
      invariant 0 <= end <= |s| && (first <==> end == |s|) && (first ==> buf == [])
      invariant !first && end > 0 ==> s[end] == DOT && buf == Key(s[end + 1..])
      invariant !first && end == 0 ==> buf == Key(s)
    {
      var start;
      buf, start := TakeLabel(s, buf, end, first);
      first := false;
      assert start == 0 ==> s[start..] == s;
      end := if start > 0 then start - 1 else 0;
    }
    key := Some(buf);
  }

  /** The key of the name from one of its labels on is in the index. */
  ghost predicate Hit(keys: set<Chunk>, s: Chunk, start: int) {
    LabelAt(s, start) && Key(s[start..]) in keys
  }

  ghost predicate NoHit(keys: set<Chunk>, s: Chunk, from: nat) {
    forall i :: from <= i ==> !Hit(keys, s, i)
  }

  lemma {:induction false} NoHitDown(keys: set<Chunk>, s: Chunk, start: nat, end: nat)
    requires NoHit(keys, s, end + 1) && !Hit(keys, s, start) && forall i :: start < i <= end ==> !LabelAt(s, i)
    ensures NoHit(keys, s, start)
  {}

  /** `matches`: looks for such a label. */
  method Matches(keys: set<Chunk>, domain: Chunk) returns (found: bool)
    ensures found <==> exists start :: Hit(keys, Trim(domain), start)
  {
    var s := Trim(domain);
    if s == [] {
      return false;
    }
    found := MatchesTrimmed(keys, s);
    assert s == Trim(domain);
  }

  /** The labels after `end` have been looked up, and `buf` is the key of the name after it. */
  ghost predicate Scanned(keys: set<Chunk>, s: Chunk, buf: Chunk, end: nat, first: bool) {
    forall e: nat {:trigger Look(e)} :: Look(e) && e == end ==>
      && e <= |s| && (first <==> e == |s|) && (first ==> buf == [])
      && (!first && e > 0 ==> s[e] == DOT && buf == Key(s[e + 1..]))
      && NoHit(keys, s, if e == 0 then 0 else e + 1)
  }

  lemma {:induction false} NothingScanned(keys: set<Chunk>, s: Chunk)
    requires s != []
    ensures Scanned(keys, s, [], |s|, true)
  {}

  lemma {:induction false} AllScanned(keys: set<Chunk>, s: Chunk, buf: Chunk)
    requires Scanned(keys, s, buf, 0, false)
    ensures !exists start :: Hit(keys, s, start)
  {
    var end: nat := 0;
    assert Look(end);
  }

  /** One round of the lookup. */
  method TakeNext(ghost keys: set<Chunk>, s: Chunk, buf: Chunk, end: nat, first: bool) returns (buf': Chunk, start: nat)
    requires Scanned(keys, s, buf, end, first) && 0 < end <= |s| && s[|s| - 1] != DOT && s[0] != DOT
    ensures start <= end && LabelAt(s, start) && buf' == Key(s[start..])
    ensures buf' !in keys ==> Scanned(keys, s, buf', if start > 0 then start - 1 else 0, false)
  {
    assert Look(end);
    buf', start := TakeLabel(s, buf, end, first);
    if buf' !in keys {
      NoHitDown(keys, s, start, end);
    }
  }

  method MatchesTrimmed(keys: set<Chunk>, s: Chunk) returns (found: bool)
    requires s != [] && s[0] != DOT && s[|s| - 1] != DOT
    ensures found <==> exists start :: Hit(keys, s, start)
  {
    var buf: Chunk := [];
    var end: nat, first := |s|, true;
    NothingScanned(keys, s);
    while end > 0
      invariant end <= |s| && Scanned(keys, s, buf, end, first) && (end == 0 ==> !first)
    {
      var start;
      buf, start := TakeNext(keys, s, buf, end, first);
      first := false;
      if buf in keys {
        assert Hit(keys, s, start);
        return true;
      }
      end := if start > 0 then start - 1 else 0;
    }
    AllScanned(keys, s, buf);
    found := false;
  }

  // ---------------------------------------------------------------- what the index means

  /** The keys of the rules, as `add_domain` and `build` collect them. */
  function KeysOf(rules: seq<Chunk>): set<Chunk> {
    set i | 0 <= i < |rules| && Trim(rules[i]) != [] :: Key(Trim(rules[i]))
  }

  /** The name is the rule, or ends with a dot and the rule, upper and lower case being the same. */
  predicate Covers(rule: Chunk, name: Chunk) {
    var n := |name| - |rule|;
    && rule != [] && n >= 0
    && Lower(name[n..]) == Lower(rule)
    && (n == 0 || name[n - 1] == DOT)
  }

  /** The key of the rule is that of the name from one of its labels on. */
  ghost predicate Finds(rule: Chunk, name: Chunk) {
    exists start :: LabelAt(name, start) && Key(name[start..]) == Key(rule)
  }

  /** Whatever the bytes, a name that a rule covers is found. */
  lemma {:induction false} CoveredIsFound(rule: Chunk, name: Chunk)
    requires Covers(rule, name)
    ensures Finds(rule, name)
  {
    var n := |name| - |rule|;
    SameKey(name[n..], rule);
    assert LabelAt(name, n);
  }

  lemma {:induction false} CoveredByte(rule: Chunk, name: Chunk, i: nat)
    requires Covers(rule, name) && i < |rule|
    ensures LowerByte(name[|name| - |rule| + i]) == LowerByte(rule[i])
  {
    var n := |name| - |rule|;
    assert Lower(name[n..])[i] == Lower(rule)[i];
  }

  lemma {:induction false} CoveredAt(name: Chunk, rule: Chunk)
    requires NUL !in name && NUL !in rule && rule != []
    ensures Covers(rule, name) <==> Finds(rule, name)
  {
    if Covers(rule, name) {
      CoveredIsFound(rule, name);
    }
    forall start | LabelAt(name, start) && Key(name[start..]) == Key(rule)
      ensures Covers(rule, name)
    {
      KeysAgree(name[start..], rule);
      assert |name[start..]| == |rule|;
    }
  }

  // ---------------------------------------------------------------- rules with NULs

  lemma {:induction false} LowerIs(s: Chunk)
    ensures Lower(Lower(s)) == Lower(s) && (DOT in Lower(s) <==> DOT in s) && (NUL in Lower(s) <==> NUL in s)
  {
    forall i | 0 <= i < |s|
      ensures LowerByte(Lower(s)[i]) == Lower(s)[i] && (Lower(s)[i] == DOT <==> s[i] == DOT) && (Lower(s)[i] == NUL <==> s[i] == NUL)
    {}
    if DOT in s {
      var i :| 0 <= i < |s| && s[i] == DOT;
      assert Lower(s)[i] in Lower(s);
    }
    if NUL in s {
      var i :| 0 <= i < |s| && s[i] == NUL;
      assert Lower(s)[i] in Lower(s);
    }
  }

  /** A key has the bytes of a name in lower case, and no dot. */
  ghost predicate IsKey(k: Chunk) {
    DOT !in k && Lower(k) == k
  }

  lemma {:induction false} IsKeyJoin(a: Chunk, b: Chunk)
    requires IsKey(a) && IsKey(b)
    ensures IsKey(a + [NUL] + b)
  {
    var k := a + [NUL] + b;
    forall i | 0 <= i < |k|
      ensures k[i] != DOT && Lower(k)[i] == k[i]
    {
      if i < |a| {
        assert k[i] == a[i] && Lower(a)[i] == a[i];
      } else if i > |a| {
        assert k[i] == b[i - |a| - 1] && Lower(b)[i - |a| - 1] == b[i - |a| - 1];
      }
    }
  }

  lemma {:induction false} IsKeySlice(k: Chunk, lo: nat, hi: nat)
    requires IsKey(k) && lo <= hi <= |k|
    ensures IsKey(k[lo..hi])
  {
    forall i | 0 <= i < hi - lo
      ensures Lower(k[lo..hi])[i] == k[lo..hi][i]
    {
      assert Lower(k)[lo + i] == k[lo + i];
    }
  }

  lemma {:induction false} KeyIsKey(s: Chunk)
    ensures IsKey(Key(s)) && |Key(s)| == |s|
    decreases |s|
  {
    var i := IndexOf(s, DOT);
    if i == |s| {
      LowerIs(s);
    } else {
      KeyIsKey(s[i + 1..]);
      LowerIs(s[..i]);
      IsKeyJoin(Key(s[i + 1..]), Lower(s[..i]));
    }
  }

  lemma {:induction false} UnkeyPlain(k: Chunk)
    requires DOT !in k
    ensures |Unkey(k)| == |k| && NUL !in Unkey(k)
    ensures k != [] ==> (Unkey(k)[|k| - 1] == DOT <==> k[0] == NUL)
    decreases |k|
  {
    var j := AfterLastNul(k);
    if j > 0 {
      UnkeyPlain(k[..j - 1]);
    }
  }

  /** Each key is that of the name read back from it. */
  lemma {:induction false} KeyUnkey(k: Chunk)
    requires IsKey(k)
    ensures Key(Unkey(k)) == k
    decreases |k|
  {
    if NUL in k {
      var front, last := SplitKey(k);
      KeyUnkey(front);
      KeyUnkeyJoin(front, last);
    } else {
      UnkeySingle(k);
      SingleKey(k);
    }
  }

  lemma {:induction false} UnkeySingle(k: Chunk)
    requires NUL !in k
    ensures Unkey(k) == k
  {
    assert forall i :: 0 <= i < |k| ==> k[i] in k;
    AfterLastNulIs(k, 0);
  }

  lemma {:induction false} SplitKey(k: Chunk) returns (front: Chunk, last: Chunk)
    requires IsKey(k) && NUL in k
    ensures k == front + [NUL] + last && IsKey(front) && IsKey(last) && NUL !in last
  {
    var j := AfterLastNul(k);
    IsKeySlice(k, j, |k|);
    IsKeySlice(k, 0, j - 1);
    front, last := k[0..j - 1], k[j..|k|];
  }

  lemma {:induction false} KeyUnkeyJoin(front: Chunk, last: Chunk)
    requires Key(Unkey(front)) == front && IsKey(last) && NUL !in last
    ensures Key(Unkey(front + [NUL] + last)) == front + [NUL] + last
  {
    UnkeyJoin(front, last);
    KeyAtDot(last, Unkey(front));
  }

  lemma {:induction false} KeyAtDot(head: Chunk, rest: Chunk)
    requires DOT !in head
    ensures Key(head + [DOT] + rest) == Key(rest) + [NUL] + Lower(head)
  {
    var s := head + [DOT] + rest;
    forall i | 0 <= i < |head|
      ensures s[i] != DOT
    {
      assert s[i] in head;
    }
    IndexOfUnique(s, DOT, |head|);
    assert s[|head| + 1..] == rest && s[..|head|] == head;
  }

  /** The name that the key of a rule stands for: its NULs are taken for separators. */
  function Plain(rule: Chunk): Chunk {
    Unkey(Key(rule))
  }

  lemma {:induction false} PlainIs(rule: Chunk)
    ensures |Plain(rule)| == |rule| && NUL !in Plain(rule) && Key(Plain(rule)) == Key(rule)
    ensures rule != [] ==> |Key(rule)| > 0 && (Plain(rule)[|rule| - 1] == DOT <==> Key(rule)[0] == NUL)
  {
    KeyIsKey(rule);
    UnkeyPlain(Key(rule));
    KeyUnkey(Key(rule));
  }

  /** A rule finds the names without NUL that its plain form covers. */
  lemma {:induction false} FindsPlain(rule: Chunk, name: Chunk)
    requires NUL !in name && rule != []
    ensures Finds(rule, name) <==> Covers(Plain(rule), name)
  {
    PlainIs(rule);
    CoveredAt(name, Plain(rule));
  }

  /** Where the last label of a name begins. */
  predicate LastLabelAt(s: Chunk, start: int) {
    LabelAt(s, start) && forall i :: start <= i < |s| ==> s[i] != DOT
  }

  lemma {:induction false} KeyBegins(s: Chunk, start: nat)
    requires LastLabelAt(s, start)
    ensures |Key(s)| > 0 && Key(s)[0] == LowerByte(s[start])
    decreases |s|
  {
    var i := IndexOf(s, DOT);
    KeyIsKey(s);
    if i < |s| {
      KeyIsKey(s[i + 1..]);
      assert LastLabelAt(s[i + 1..], start - (i + 1));
      KeyBegins(s[i + 1..], start - (i + 1));
    }
  }

  /** The rule is trimmed, as when it is stored. */
  ghost predicate IsRule(rule: Chunk) {
    rule != [] && rule[0] != DOT && rule[|rule| - 1] != DOT
  }

  lemma {:induction false} TrimIs(s: Chunk)
    requires IsRule(s)
    ensures Trim(s) == s
  {}

  /** The rule finds a name exactly when it covers it. */
  ghost predicate RightOn(rule: Chunk, name: Chunk) {
    Finds(rule, Trim(name)) <==> Covers(rule, Trim(name))
  }

  ghost predicate BeginsWithNul(rule: Chunk) {
    exists start :: LastLabelAt(rule, start) && rule[start] == NUL
  }

  lemma {:induction false} LastLabelExists(s: Chunk, n: nat) returns (start: nat)
    requires IsRule(s) && 0 < n <= |s| && forall i :: n <= i < |s| ==> s[i] != DOT
    ensures LastLabelAt(s, start)
    decreases n
  {
    if s[n - 1] == DOT {
      start := n;
    } else if n == 1 {
      start := 0;
    } else {
      start := LastLabelExists(s, n - 1);
    }
  }

  lemma {:induction false} BeginsWithNulKey(rule: Chunk)
    requires IsRule(rule)
    ensures |Key(rule)| > 0 && (BeginsWithNul(rule) <==> Key(rule)[0] == NUL)
  {
    var start := LastLabelExists(rule, |rule|);
    KeyBegins(rule, start);
    forall other | LastLabelAt(rule, other)
      ensures other == start
    {
      LastLabelUnique(rule, start, other);
    }
  }

  lemma {:induction false} LastLabelUnique(s: Chunk, a: int, b: int)
    requires LastLabelAt(s, a) && LastLabelAt(s, b)
    ensures a == b
  {}

  /** Such a rule finds no name without NUL, and covers none. */
  lemma {:induction false} DeadRule(rule: Chunk, name: Chunk)
    requires IsRule(rule) && Key(rule) != [] && Key(rule)[0] == NUL && NUL !in name
    ensures !Finds(rule, Trim(name)) && !Covers(rule, Trim(name))
  {
    PlainIs(rule);
    FindsPlain(rule, Trim(name));
    DotNotCovered(Plain(rule), Trim(name));
    if Covers(rule, Trim(name)) {
      CoveredIsFound(rule, Trim(name));
      assert false;
    }
  }

  /** What ends in a dot covers nothing that does not. */
  lemma {:induction false} DotNotCovered(rule: Chunk, name: Chunk)
    requires rule != [] && rule[|rule| - 1] == DOT && (name != [] ==> name[|name| - 1] != DOT)
    ensures !Covers(rule, name)
  {
    if Covers(rule, name) {
      CoveredByte(rule, name, |rule| - 1);
      assert false;
    }
  }

  /** The name "x", dot, and the plain form of the rule. */
  function Confused(rule: Chunk): Chunk {
    [120, DOT] + Plain(rule)
  }

  lemma {:induction false} ConfusedIsFound(rule: Chunk)
    requires IsRule(rule) && NUL in rule && Key(rule) != [] && Key(rule)[0] != NUL
    ensures var name := Confused(rule); NUL !in name && Trim(name) == name && Finds(rule, name) && !Covers(rule, name)
  {
    PlainIs(rule);
    ConfusedIs(Plain(rule));
    TrimIs(Confused(rule));
    NulNotCovered(rule, Confused(rule));
  }

  lemma {:induction false} ConfusedIs(r: Chunk)
    requires r != [] && r[|r| - 1] != DOT && NUL !in r
    ensures var name := [120, DOT] + r; IsRule(name) && NUL !in name && name[2..] == r && LabelAt(name, 2)
  {}

  lemma {:induction false} NulNotCovered(rule: Chunk, name: Chunk)
    requires NUL in rule && NUL !in name
    ensures !Covers(rule, name)
  {
    var i :| 0 <= i < |rule| && rule[i] == NUL;
    if Covers(rule, name) {
      assert name[|name| - |rule| + i] in name;
      CoveredByte(rule, name, i);
      assert false;
    }
  }

  /** A rule is right on all names without NUL if and only if it has no NUL, or its last label begins with one; in the second case it finds
      nothing. */
  lemma {:induction false} PlainNamesExactlyWhen(rule: Chunk)
    requires IsRule(rule)
    ensures (forall name: Chunk :: NUL !in name ==> RightOn(rule, name)) <==> NUL !in rule || BeginsWithNul(rule)
  {
    BeginsWithNulKey(rule);
    if NUL !in rule || BeginsWithNul(rule) {
      forall name: Chunk | NUL !in name
        ensures RightOn(rule, name)
      {
        if NUL !in rule {
          CoveredAt(Trim(name), rule);
        } else {
          DeadRule(rule, name);
        }
      }
    } else {
      ConfusedIsFound(rule);
      assert !RightOn(rule, Confused(rule));
    }
  }

  // ---------------------------------------------------------------- names with NULs

  /** Where a key can be divided in two ways, at a NUL that is not its first byte, a name of two labels has it. */
  function Divided(k: Chunk, i: nat): Chunk
    requires 0 < i < |k|
  {
    [120, DOT] + k[i + 1..] + [DOT] + k[..i]
  }

  lemma {:induction false} DividedKey(k: Chunk, i: nat)
    requires IsKey(k) && 0 < i < |k| && k[i] == NUL
    ensures Key(k[i + 1..] + [DOT] + k[..i]) == k
  {
    var front, last := k[..i], k[i + 1..];
    IsKeySlice(k, 0, i);
    IsKeySlice(k, i + 1, |k|);
    assert k[0..i] == front && k[i + 1..|k|] == last;
    KeyAtDot(last, front);
    SingleKey(front);
    assert k == front + [NUL] + last;
  }

  lemma {:induction false} SingleKey(s: Chunk)
    requires DOT !in s
    ensures Key(s) == Lower(s)
  {}

  lemma {:induction false} DividedIs(k: Chunk, i: nat)
    requires IsKey(k) && 0 < i < |k| && k[i] == NUL
    ensures var name := Divided(k, i);
      IsRule(name) && name[2..] == k[i + 1..] + [DOT] + k[..i] && LabelAt(name, 2) && |name| == 2 + |k| && name[|k| + 1 - i] == DOT
  {
    var name := Divided(k, i);
    assert name[|name| - 1] == k[i - 1] && k[i - 1] in k;
  }

  lemma {:induction false} DividedIsFound(rule: Chunk, i: nat)
    requires IsRule(rule) && DOT !in rule && 0 < i < |rule| && rule[i] == NUL
    ensures var name := Divided(Lower(rule), i); Trim(name) == name && Finds(rule, name) && !Covers(rule, name)
  {
    var k, name := Lower(rule), Divided(Lower(rule), i);
    LowerIs(rule);
    SingleKey(rule);
    DividedIs(k, i);
    TrimIs(name);
    DividedKey(k, i);
    assert rule[|k| - 1 - i] in rule;
    if Covers(rule, name) {
      CoveredByte(rule, name, |k| - 1 - i);
      assert false;
    }
  }

  /** The key of a rule with a dot, taken as a name of one label, has itself as key. */
  lemma {:induction false} KeyIsFound(rule: Chunk)
    requires IsRule(rule) && DOT in rule
    ensures var name := Key(rule); Trim(name) == name && Finds(rule, name) && !Covers(rule, name)
  {
    var name := Key(rule);
    KeyIsKey(rule);
    assert name[0] in name && name[|name| - 1] in name;
    TrimIs(name);
    SingleKey(name);
    assert name[0..] == name && LabelAt(name, 0);
    var i :| 0 <= i < |rule| && rule[i] == DOT;
    assert name[i] in name;
    if Covers(rule, name) {
      CoveredByte(rule, name, i);
      assert false;
    }
  }

  /** The key of several labels, the last not empty, has a NUL after its first byte. */
  lemma {:induction false} SeveralLabels(t: Chunk)
    requires DOT in t && t[|t| - 1] != DOT
    ensures |Key(t)| == |t| && exists n :: 1 <= n < |t| && Key(t)[n] == NUL
  {
    var i := IndexOf(t, DOT);
    KeyIsKey(t);
    KeyIsKey(t[i + 1..]);
    assert Key(t)[|t| - 1 - i] == NUL;
  }

  /** With a single label and no NUL after its first byte, the key can be read in one way only. */
  lemma {:induction false} OneReading(rule: Chunk, name: Chunk, start: nat)
    requires IsRule(rule) && DOT !in rule && NUL !in rule[1..] && IsRule(name) && LabelAt(name, start) && Key(name[start..]) == Key(rule)
    ensures Covers(rule, name)
  {
    var t := name[start..];
    SingleKey(rule);
    KeyIsKey(t);
    assert t[|t| - 1] == name[|name| - 1];
    forall n | 1 <= n < |rule|
      ensures Lower(rule)[n] != NUL
    {
      assert rule[1..][n - 1] in rule[1..];
    }
    if DOT in t {
      SeveralLabels(t);
      assert false;
    }
    SingleKey(t);
    assert |name| - |rule| == start;
  }

  /** A rule is right on all names, those with NULs included, if and only if it is a single label without a NUL after its first byte. */
  lemma {:induction false} AllNamesExactlyWhen(rule: Chunk)
    requires IsRule(rule)
    ensures (forall name: Chunk :: RightOn(rule, name)) <==> DOT !in rule && NUL !in rule[1..]
  {
    if DOT in rule {
      KeyIsFound(rule);
      assert !RightOn(rule, Key(rule));
    } else if NUL in rule[1..] {
      var i :| 0 <= i < |rule| - 1 && rule[1..][i] == NUL;
      DividedIsFound(rule, i + 1);
      assert !RightOn(rule, Divided(Lower(rule), i + 1));
    } else {
      forall name: Chunk
        ensures RightOn(rule, name)
      {
        var t := Trim(name);
        if Covers(rule, t) {
          CoveredIsFound(rule, t);
        }
        if Finds(rule, t) {
          var start :| LabelAt(t, start) && Key(t[start..]) == Key(rule);
          OneReading(rule, t, start);
        }
      }
    }
  }

  // ---------------------------------------------------------------- lists of rules

  ghost predicate NulFree(rules: seq<Chunk>) {
    forall i :: 0 <= i < |rules| ==> NUL !in rules[i]
  }

  /** What a list of rules says of a name: each rule finds what it finds on its own. */
  ghost predicate SomeFinds(rules: seq<Chunk>, name: Chunk) {
    exists i :: 0 <= i < |rules| && Trim(rules[i]) != [] && Finds(Trim(rules[i]), Trim(name))
  }

  ghost predicate SomeCovers(rules: seq<Chunk>, name: Chunk) {
    exists i :: 0 <= i < |rules| && Covers(Trim(rules[i]), Trim(name))
  }

  ghost predicate SomePlainCovers(rules: seq<Chunk>, name: Chunk) {
    exists i :: 0 <= i < |rules| && Trim(rules[i]) != [] && Covers(Plain(Trim(rules[i])), Trim(name))
  }

  /** The index means what its rules say, outer dots apart. A name that a rule covers is always found. A name without NUL is found exactly when
      the plain form of a rule covers it; so, if the rules have no NUL either, exactly when a rule does. */
  method Lookup(rules: seq<Chunk>, name: Chunk) returns (found: bool)
    ensures found <==> SomeFinds(rules, name)
    ensures SomeCovers(rules, name) ==> found
    ensures NUL !in name ==> (found <==> SomePlainCovers(rules, name))
    ensures NUL !in name && NulFree(rules) ==> (found <==> SomeCovers(rules, name))
  {
    var keys: set<Chunk> := {};
    for i := 0 to |rules|
      invariant keys == KeysOf(rules[..i])
    {
      var key := DomainKey(rules[i]);
      KeysOfNext(rules, i);
      if key.Some? {
        keys := keys + {key.value};
      }
    }
    assert rules[..|rules|] == rules;
    found := Matches(keys, name);
    IndexMeaning(rules, name);
    CoveredAreFound(rules, name);
    if NUL !in name {
      PlainMeaning(rules, name);
      if NulFree(rules) {
        NulFreeMeaning(rules, name);
      }
    }
  }

  lemma {:induction false} KeysOfNext(rules: seq<Chunk>, i: nat)
    requires i < |rules|
    ensures KeysOf(rules[..i + 1]) == KeysOf(rules[..i]) + if Trim(rules[i]) == [] then {} else {Key(Trim(rules[i]))}
  {
    assert rules[..i + 1] == rules[..i] + [rules[i]];
    KeysOfSnoc(rules[..i], rules[i]);
  }

  lemma {:induction false} KeysOfSnoc(a: seq<Chunk>, rule: Chunk)
    ensures KeysOf(a + [rule]) == KeysOf(a) + if Trim(rule) == [] then {} else {Key(Trim(rule))}
  {
    var b := a + [rule];
    forall k | k in KeysOf(b)
      ensures k in KeysOf(a) || (Trim(rule) != [] && k == Key(Trim(rule)))
    {
      var j :| 0 <= j < |b| && Trim(b[j]) != [] && k == Key(Trim(b[j]));
      assert j < |a| ==> a[j] == b[j];
    }
    forall j | 0 <= j < |a|
      ensures a[j] == b[j]
    {}
    assert b[|a|] == rule;
  }

  lemma {:induction false} IndexMeaning(rules: seq<Chunk>, name: Chunk)
    ensures (exists start :: Hit(KeysOf(rules), Trim(name), start)) <==> SomeFinds(rules, name)
  {
    if SomeFinds(rules, name) {
      var i :| 0 <= i < |rules| && Trim(rules[i]) != [] && Finds(Trim(rules[i]), Trim(name));
      var start :| LabelAt(Trim(name), start) && Key(Trim(name)[start..]) == Key(Trim(rules[i]));
      assert Hit(KeysOf(rules), Trim(name), start);
    }
    forall start | Hit(KeysOf(rules), Trim(name), start)
      ensures SomeFinds(rules, name)
    {
      var i :| 0 <= i < |rules| && Trim(rules[i]) != [] && Key(Trim(name)[start..]) == Key(Trim(rules[i]));
      assert Finds(Trim(rules[i]), Trim(name));
    }
  }

  lemma {:induction false} CoveredAreFound(rules: seq<Chunk>, name: Chunk)
    ensures SomeCovers(rules, name) ==> SomeFinds(rules, name)
  {
    if SomeCovers(rules, name) {
      var i :| 0 <= i < |rules| && Covers(Trim(rules[i]), Trim(name));
      CoveredIsFound(Trim(rules[i]), Trim(name));
    }
  }

  lemma {:induction false} PlainMeaning(rules: seq<Chunk>, name: Chunk)
    requires NUL !in name
    ensures SomeFinds(rules, name) <==> SomePlainCovers(rules, name)
  {
    forall i | 0 <= i < |rules| && Trim(rules[i]) != []
      ensures Finds(Trim(rules[i]), Trim(name)) <==> Covers(Plain(Trim(rules[i])), Trim(name))
    {
      FindsPlain(Trim(rules[i]), Trim(name));
    }
  }

  lemma {:induction false} NulFreeMeaning(rules: seq<Chunk>, name: Chunk)
    requires NUL !in name && NulFree(rules)
    ensures SomeFinds(rules, name) ==> SomeCovers(rules, name)
  {
    if SomeFinds(rules, name) {
      var i :| 0 <= i < |rules| && Trim(rules[i]) != [] && Finds(Trim(rules[i]), Trim(name));
      CoveredAt(Trim(name), Trim(rules[i]));
    }
  }

  /** With a NUL the index can err: the rule of one label "a", NUL, "b" has the key of "b.a". */
  lemma {:induction false} NulConfuses()
    ensures var rule, name := [97, 0, 98], [98, 46, 97];
            Trim(rule) == rule && Trim(name) == name && Key(rule) == Key(name) && !Covers(rule, name)
  {
    var rule, name: Chunk := [97, 0, 98], [98, 46, 97];
    IndexOfUnique(name, DOT, 1);
    assert name[2..] == [97] && name[..1] == [98];
    assert IndexOf([97], DOT) == 1;
    assert IndexOf(rule, DOT) == 3;
    assert Key([97]) == [97] && Lower([98]) == [98] && Lower(rule) == rule;
    assert name[0..] == name && Lower(name)[1] == 46;
  }
}
