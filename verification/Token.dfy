/** Access tokens and the cache in front of their check (src/server/token.rs, `validate_token_if_needed` in
    src/server/handlers.rs). The clock is in milliseconds; the token's expiry is in whole seconds. */
module Token {
  import opened Bytes
  import opened FrameCodec

  const VERSION: Byte := 1
  const BODY_LEN: nat := 11
  const MAX_TOKEN_LEN: nat := 1024
  const TOKEN_CACHE_TTL: nat := 60

  datatype Claims = Claims(sub: Chunk, exp: nat)

  /** The token key, the unpadded URL-safe base-64 encoding, and what counts as UTF-8. */
  datatype Keys = Keys(cipher: Cipher, base64: Text, utf8: Chunk -> bool)

  ghost predicate IsBase64(t: Text) {
    forall raw: Chunk {:trigger t.encode(raw)} :: t.decode(t.encode(raw)) == Some(raw) && |t.encode(raw)| == (4 * |raw| + 2) / 3
  }

  ghost predicate LawfulKeys(k: Keys) {
    SealsAndOpens(k.cipher) && IsBase64(k.base64)
  }

  /** The sealed part; the length is cut to sixteen bits. */
  function TokenBody(c: Claims): (b: Chunk)
    ensures |b| == BODY_LEN + |c.sub|
  {
    [VERSION] + BigEndian(c.exp, 8) + BigEndian(|c.sub| % 65536, 2) + c.sub
  }

  function Issue(k: Keys, nonce: Chunk, c: Claims): Chunk {
    k.base64.encode(k.cipher.seal(nonce, TokenBody(c)))
  }

  function ParseBody(k: Keys, body: Chunk): Option<Claims> {
    if |body| < BODY_LEN || body[0] != VERSION then None
    else
      var subLen := FromBigEndian(body[9..11]);
      if |body| != BODY_LEN + subLen || !k.utf8(body[BODY_LEN..]) then None
      else Some(Claims(body[BODY_LEN..], FromBigEndian(body[1..9])))
  }

  /** Everything `open` checks except the expiry. */
  function Authentic(k: Keys, token: Chunk): Option<Claims> {
    if |token| > MAX_TOKEN_LEN then None
    else
      match k.base64.decode(token)
      case None => None
      case Some(raw) =>
        if |raw| < NONCE_LEN + BODY_LEN + TAG_LEN then None
        else
          match k.cipher.open(raw)
          case None => None
          case Some(body) => ParseBody(k, body)
  }

  function Open(k: Keys, token: Chunk, ms: nat): Option<Claims> {
    var c := Authentic(k, token);
    if c.Some? && c.value.exp > ms / 1000 then c else None
  }

  lemma {:induction false} ParseRoundTrip(k: Keys, c: Claims)
    requires k.utf8(c.sub) && c.exp < SEQ_LIMIT && |c.sub| < 65536
    ensures ParseBody(k, TokenBody(c)) == Some(c)
  {
    Pow256Values();
    BigEndianRoundTrip(c.exp, 8);
    BigEndianRoundTrip(|c.sub|, 2);
    BodyParts([VERSION], BigEndian(c.exp, 8), BigEndian(|c.sub|, 2), c.sub);
  }

  lemma {:induction false} BodyParts(version: Chunk, exp: Chunk, len: Chunk, sub: Chunk)
    requires |version| == 1 && |exp| == 8 && |len| == 2
    ensures var body := version + exp + len + sub; body[1..9] == exp && body[9..11] == len && body[11..] == sub
  {}

  /** An issued token opens to the claims it was issued for exactly when the subject has at most 729 bytes and the expiry is still
      to come; otherwise it is refused. */
  lemma {:induction false} TokenRoundTrip(k: Keys, nonce: Chunk, c: Claims, ms: nat)
    requires LawfulKeys(k) && |nonce| == NONCE_LEN && k.utf8(c.sub) && c.exp < SEQ_LIMIT
    ensures Open(k, Issue(k, nonce, c), ms) == if |c.sub| <= 729 && ms / 1000 < c.exp then Some(c) else None
  {
    var raw := k.cipher.seal(nonce, TokenBody(c));
    var token := k.base64.encode(raw);
    assert |token| == (4 * |raw| + 2) / 3;
    assert |token| <= MAX_TOKEN_LEN <==> |c.sub| <= 729;
    if |c.sub| <= 729 {
      ParseRoundTrip(k, c);
    }
  }

  // ---------------------------------------------------------------- the cache

  /** An entry stands for the seconds of its time to live, from the moment it was put in. */
  datatype Cached = Cached(user: Chunk, at: nat)

  class Validator {
    const keys: Keys
    var cache: map<Chunk, Cached>
    var clock: nat

    /** As long as an entry can be found, opening its token succeeds with the same subject. */
    ghost predicate Valid()
      reads this
    {
      forall token :: token in cache ==> Backed(keys, token, cache[token]) && cache[token].at <= clock
    }

    constructor (keys: Keys)
      ensures Valid() && this.keys == keys && cache == map[] && clock == 0
    {
      this.keys, cache, clock := keys, map[], 0;
    }

    method Tick(ms: nat)
      requires Valid()
      modifies this`clock
      ensures Valid() && clock == old(clock) + ms
    {
      clock := clock + ms;
    }

    /** The cache may drop any entry at any time. */
    method Evict(token: Chunk)
      requires Valid()
      modifies this`cache
      ensures Valid() && cache == old(cache) - {token}
    {
      cache := cache - {token};
    }

    /** `validate_token_if_needed` after the header: with or without the cache, the answer is that of opening the token now. */
    method Validate(token: Chunk) returns (user: Option<Chunk>)
      requires Valid()
      modifies this`cache
      ensures Valid()
      ensures user == match Open(keys, token, clock) case Some(c) => Some(c.sub) case None => None
    {
      if token in cache && clock < cache[token].at + 1000 * TOKEN_CACHE_TTL {
        return Some(cache[token].user);
      }
      var claims := Open(keys, token, clock);
      if claims.None? {
        return None;
      }
      user := Some(claims.value.sub);
      if claims.value.exp > clock / 1000 + TOKEN_CACHE_TTL {
        cache := cache[token := Cached(claims.value.sub, clock)];
      }
    }
  }

  ghost predicate Backed(k: Keys, token: Chunk, e: Cached) {
    forall ms: nat {:trigger Open(k, token, ms)} | e.at <= ms < e.at + 1000 * TOKEN_CACHE_TTL ::
      Open(k, token, ms).Some? && Open(k, token, ms).value.sub == e.user
  }

  datatype Event = Waits(ms: nat) | Evicts(token: Chunk) | Asks(token: Chunk)

  /** Over any run of waits, evictions and requests, every answer is the one a server without a cache would give. */
  method Serve(keys: Keys, events: seq<Event>) returns (answers: seq<Option<Chunk>>)
    ensures answers == Uncached(keys, events, 0)
  {
    var v := new Validator(keys);
    answers := [];
    ghost var goal := Uncached(keys, events, 0);
    assert events[0..] == events;
    for n := 0 to |events|
      invariant v.Valid() && fresh(v) && v.keys == keys
      invariant answers + Uncached(keys, events[n..], v.clock) == goal
    {
      assert events[n..][0] == events[n] && events[n..][1..] == events[n + 1..];
      match events[n] {
        case Waits(ms) =>
          v.Tick(ms);
        case Evicts(token) =>
          v.Evict(token);
        case Asks(token) =>
          var user := v.Validate(token);
          answers := answers + [user];
      }
    }
    assert events[|events|..] == [];
  }

  /** The answers of a server that opens every token afresh. */
  function Uncached(keys: Keys, events: seq<Event>, clock: nat): seq<Option<Chunk>> {
    if events == [] then []
    else
      match events[0]
      case Waits(ms) => Uncached(keys, events[1..], clock + ms)
      case Evicts(_) => Uncached(keys, events[1..], clock)
      case Asks(token) =>
        var c := Open(keys, token, clock);
        [if c.Some? then Some(c.value.sub) else None] + Uncached(keys, events[1..], clock)
  }
}
