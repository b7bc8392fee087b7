/** The in-memory cache: nonces and tokens that expire, swept lazily when they are read. */
module Cache {
  import opened Common

  datatype Token<V> = Token(value: V, expiresAt: int)

  /** Nonces map to the last millisecond they are remembered. */
  datatype Entries<V> = Entries(nonces: map<string, int>, tokens: map<string, Token<V>>)

  function Swept<V>(c: Entries<V>, now: int): Entries<V> {
    Entries(map n | n in c.nonces && c.nonces[n] >= now :: c.nonces[n],
            map t | t in c.tokens && c.tokens[t].expiresAt >= now :: c.tokens[t])
  }

  /** Fresh nonces are recorded; one that is still remembered is refused. */
  function Registered<V>(c: Entries<V>, nonce: string, ttlMs: int, now: int): (Entries<V>, bool) {
    var s := Swept(c, now);
    if nonce in s.nonces then (s, false) else (s.(nonces := s.nonces[nonce := now + ttlMs]), true)
  }

  function Peeked<V>(c: Entries<V>, token: string, now: int): (Entries<V>, Option<V>) {
    var s := Swept(c, now);
    (s, if token in s.tokens then Some(s.tokens[token].value) else None)
  }

  function WithToken<V>(c: Entries<V>, token: string, value: V, ttlMs: int, now: int): Entries<V> {
    c.(tokens := c.tokens[token := Token(value, now + ttlMs)])
  }

  class MemoryCacheProvider<V> {
    var nonces: map<string, int>
    var tokens: map<string, Token<V>>

    constructor ()
      ensures View() == Entries(map[], map[])
    {
      nonces, tokens := map[], map[];
    }

    ghost function View(): Entries<V>
      reads this
    {
      Entries(nonces, tokens)
    }

    method Sweep(now: int)
      modifies this
      ensures View() == Swept(old(View()), now)
    {
      SweepNonces(now);
      SweepTokens(now);
    }

    method SweepNonces(now: int)
      modifies this`nonces
      ensures nonces == Swept(old(View()), now).nonces
    {
      var names := nonces.Keys;
      while names != {}
        invariant names <= nonces.Keys <= old(nonces).Keys
        invariant forall n | n in nonces :: nonces[n] == old(nonces)[n] && (n in names || nonces[n] >= now)
        invariant forall n | n in old(nonces) && old(nonces)[n] >= now :: n in nonces
        decreases |names|
      {
        var n :| n in names;
        names := names - {n};
        if nonces[n] < now {
          nonces := nonces - {n};
        }
      }
    }

    method SweepTokens(now: int)
      modifies this`tokens
      ensures tokens == Swept(old(View()), now).tokens
    {
      var held := tokens.Keys;
      while held != {}
        invariant held <= tokens.Keys <= old(tokens).Keys
        invariant forall t | t in tokens :: tokens[t] == old(tokens)[t] && (t in held || tokens[t].expiresAt >= now)
        invariant forall t | t in old(tokens) && old(tokens)[t].expiresAt >= now :: t in tokens
        decreases |held|
      {
        var t :| t in held;
        held := held - {t};
        if tokens[t].expiresAt < now {
          tokens := tokens - {t};
        }
      }
    }

    method RegisterNonce(nonce: string, ttlMs: int, now: int) returns (isNew: bool)
      modifies this
      ensures (View(), isNew) == Registered(old(View()), nonce, ttlMs, now)
    {
      Sweep(now);
      if nonce in nonces {
        return false;
      }
      nonces := nonces[nonce := now + ttlMs];
      return true;
    }

    method PeekToken(token: string, now: int) returns (value: Option<V>)
      modifies this
      ensures (View(), value) == Peeked(old(View()), token, now)
    {
      Sweep(now);
      return if token in tokens then Some(tokens[token].value) else None;
    }

    method PutToken(token: string, value: V, ttlMs: int, now: int)
      modifies this
      ensures View() == WithToken(old(View()), token, value, ttlMs, now)
    {
      tokens := tokens[token := Token(value, now + ttlMs)];
    }
  }

  // ---- how long a nonce is remembered ------------------------------------

  /** One use of the cache, at some time. */
  datatype Use<V> = Register(nonce: string, ttlMs: int) | Peek(token: string) | PutIn(token: string, value: V, ttl: int)

  function Used<V>(c: Entries<V>, use: Use<V>, now: int): Entries<V> {
    match use
    case Register(nonce, ttlMs) => Registered(c, nonce, ttlMs, now).0
    case Peek(token) => Swept(c, now)
    case PutIn(token, value, ttl) => WithToken(c, token, value, ttl, now)
  }

  /** The nonce is remembered until `until`, as long as the clock has not passed that. */
  predicate Remembers<V>(c: Entries<V>, nonce: string, until: int) {
    nonce in c.nonces && c.nonces[nonce] >= until
  }

  lemma UseKeepsNonce<V>(c: Entries<V>, use: Use<V>, now: int, nonce: string, until: int)
    requires Remembers(c, nonce, until) && now <= until
    ensures Remembers(Used(c, use, now), nonce, until)
  {
  }

  lemma RememberedIsRefused<V>(c: Entries<V>, nonce: string, ttlMs: int, now: int, until: int)
    requires Remembers(c, nonce, until) && now <= until
    ensures !Registered(c, nonce, ttlMs, now).1
  {
  }
}
