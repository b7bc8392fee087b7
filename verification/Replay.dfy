/** Request authentication: the window for timestamps, the memory for nonces, and when the two together stop replay. */
module Replay {
  import opened Common
  import opened Cache

  /**
   A request as the server sees it; `hasHeaders` says that the timestamp and signature headers are there,
   and `timestamp` is none when the former is not a finite number.
   */
  datatype Request = Request(
    installId: string,
    nonce: string,
    timestamp: Option<real>,
    hasHeaders: bool,
    enrolled: bool,
    signatureValid: bool)

  datatype Verdict = Accepted | Unauthenticated | StaleTimestamp | NotEnrolled | BadSignature | ReplayedNonce

  datatype Config = Config(timestampSkewMs: int, nonceTtlMs: int, requireRequestSignature: bool)

  function Distance(a: real, b: real): real {
    if a < b then b - a else a - b
  }

  predicate InWindow(config: Config, timestamp: real, now: int) {
    Distance(now as real, timestamp) <= config.timestampSkewMs as real
  }

  /** The checks before the nonce is registered, in order; none means they all pass. */
  function Checked(config: Config, r: Request, now: int): Verdict {
    if r.installId == "" then Unauthenticated
    else if r.nonce == "" || !r.hasHeaders then Unauthenticated
    else if r.timestamp.None? || !InWindow(config, r.timestamp.value, now) then StaleTimestamp
    else if !r.enrolled then NotEnrolled
    else if !r.signatureValid then BadSignature
    else Accepted
  }

  /** Only a validly signed request reaches the cache. */
  function Authenticated<V>(config: Config, c: Entries<V>, r: Request, now: int): (Entries<V>, Verdict) {
    if r.installId == "" then (c, Unauthenticated)
    else if !config.requireRequestSignature then (c, Accepted)
    else if Checked(config, r, now) != Accepted then (c, Checked(config, r, now))
    else
      var (next, isNew) := Registered(c, r.nonce, config.nonceTtlMs, now);
      (next, if isNew then Accepted else ReplayedNonce)
  }

  // ---- what a request has to show, check by check ------------------------

  predicate IsComplete(r: Request) {
    r.installId != "" && r.nonce != "" && r.hasHeaders
  }

  /** Neither older nor newer than the skew allows. */
  predicate IsTimely(config: Config, r: Request, now: int) {
    && r.timestamp.Some?
    && r.timestamp.value - config.timestampSkewMs as real <= now as real <= r.timestamp.value + config.timestampSkewMs as real
  }

  /** Complete, timely, from an enrolled install and signed by it. */
  predicate IsGenuine(config: Config, r: Request, now: int) {
    IsComplete(r) && IsTimely(config, r, now) && r.enrolled && r.signatureValid
  }

  /** The verdict names the first thing that is wrong, and there is no other one. */
  predicate NamesTheFault(config: Config, r: Request, now: int, seen: bool, verdict: Verdict) {
    match verdict
    case Unauthenticated => !IsComplete(r)
    case StaleTimestamp => IsComplete(r) && !IsTimely(config, r, now)
    case NotEnrolled => IsComplete(r) && IsTimely(config, r, now) && !r.enrolled
    case BadSignature => IsComplete(r) && IsTimely(config, r, now) && r.enrolled && !r.signatureValid
    case ReplayedNonce => IsGenuine(config, r, now) && seen
    case Accepted => IsGenuine(config, r, now) && !seen
  }

  predicate IsHeld<V>(c: Entries<V>, nonce: string, now: int) {
    nonce in c.nonces && now <= c.nonces[nonce]
  }

  method Authenticate<V>(config: Config, cache: MemoryCacheProvider<V>, r: Request, now: int) returns (verdict: Verdict)
    modifies cache
    ensures (cache.View(), verdict) == Authenticated(config, old(cache.View()), r, now)
    ensures config.requireRequestSignature ==> NamesTheFault(config, r, now, IsHeld(old(cache.View()), r.nonce, now), verdict)
    ensures !config.requireRequestSignature ==> verdict == if r.installId == "" then Unauthenticated else Accepted
    ensures !config.requireRequestSignature || !IsGenuine(config, r, now) ==> cache.View() == old(cache.View())
  {
    if r.installId == "" {
      return Unauthenticated;
    }
    if !config.requireRequestSignature {
      return Accepted;
    }
    if r.nonce == "" || !r.hasHeaders {
      return Unauthenticated;
    }
    if r.timestamp.None? || !InWindow(config, r.timestamp.value, now) {
      return StaleTimestamp;
    }
    if !r.enrolled {
      return NotEnrolled;
    }
    if !r.signatureValid {
      return BadSignature;
    }
    var isNew := cache.RegisterNonce(r.nonce, config.nonceTtlMs, now);
    return if isNew then Accepted else ReplayedNonce;
  }

  /** Each verdict is given exactly when its own fault is the first, and only a genuine request touches the cache. */
  lemma VerdictNamesTheFault<V>(config: Config, c: Entries<V>, r: Request, now: int, verdict: Verdict)
    requires config.requireRequestSignature
    ensures Authenticated(config, c, r, now).1 == verdict <==> NamesTheFault(config, r, now, IsHeld(c, r.nonce, now), verdict)
    ensures !IsGenuine(config, r, now) ==> Authenticated(config, c, r, now).0 == c
  {
  }

  // ---- runs --------------------------------------------------------------

  /** What the server does at one moment: authenticate a request, or any other use of the cache. */
  datatype Moment<V> = Ask(now: int, request: Request) | Other(now: int, use: Use<V>)

  function After<V>(config: Config, c: Entries<V>, m: Moment<V>): Entries<V> {
    match m
    case Ask(now, r) => Authenticated(config, c, r, now).0
    case Other(now, use) => Used(c, use, now)
  }

  function AfterAll<V>(config: Config, c: Entries<V>, ms: seq<Moment<V>>): Entries<V> {
    if ms == [] then c else After(config, AfterAll(config, c, ms[..|ms| - 1]), ms[|ms| - 1])
  }

  /** The clock never goes back. */
  predicate Monotone<V(!new)>(ms: seq<Moment<V>>) {
    forall i, j | 0 <= i <= j < |ms| :: ms[i].now <= ms[j].now
  }

  predicate AcceptedAt<V>(config: Config, c: Entries<V>, ms: seq<Moment<V>>, n: nat)
    requires n < |ms|
  {
    ms[n].Ask? && Authenticated(config, AfterAll(config, c, ms[..n]), ms[n].request, ms[n].now).1 == Accepted
  }

  /** No signed request, one nonce with one timestamp, is accepted twice. */
  ghost predicate NoReplay<V(!new)>(config: Config, c: Entries<V>, ms: seq<Moment<V>>) {
    forall i, j | 0 <= i < j < |ms| && AcceptedAt(config, c, ms, i) && AcceptedAt(config, c, ms, j) ::
      ms[i].request.nonce == ms[j].request.nonce ==> ms[i].request.timestamp != ms[j].request.timestamp
  }

  /** From the moment it was accepted until its time is over, the nonce stays in the cache. */
  lemma {:induction false} AcceptedNonceStays<V(!new)>(config: Config, c: Entries<V>, ms: seq<Moment<V>>, i: nat, n: nat)
    requires config.requireRequestSignature && Monotone(ms)
    requires i < n <= |ms| && AcceptedAt(config, c, ms, i) && ms[n - 1].now <= ms[i].now + config.nonceTtlMs
    ensures Remembers(AfterAll(config, c, ms[..n]), ms[i].request.nonce, ms[i].now + config.nonceTtlMs)
    decreases n
  {
    assert ms[..n][..n - 1] == ms[..n - 1];
    if i < n - 1 {
      AcceptedNonceStays(config, c, ms, i, n - 1);
      MomentKeepsNonce(config, AfterAll(config, c, ms[..n - 1]), ms[n - 1], ms[i].request.nonce, ms[i].now + config.nonceTtlMs);
    }
  }

  lemma MomentKeepsNonce<V(!new)>(config: Config, c: Entries<V>, m: Moment<V>, nonce: string, until: int)
    requires Remembers(c, nonce, until) && m.now <= until
    ensures Remembers(After(config, c, m), nonce, until)
  {
    if m.Other? {
      UseKeepsNonce(c, m.use, m.now, nonce, until);
    } else {
      UseKeepsNonce(c, Register(m.request.nonce, config.nonceTtlMs), m.now, nonce, until);
    }
  }

  // ---- who is accepted ---------------------------------------------------

  /** The nonce a moment asks to have remembered, if it does, and until when. */
  function Wanted<V>(config: Config, m: Moment<V>): Option<(string, int)> {
    match m
    case Ask(now, r) =>
      if config.requireRequestSignature && IsGenuine(config, r, now) then Some((r.nonce, now + config.nonceTtlMs)) else None
    case Other(now, use) => if use.Register? then Some((use.nonce, now + use.ttlMs)) else None
  }

  predicate Wants<V>(config: Config, m: Moment<V>, nonce: string, until: int) {
    Wanted(config, m).Some? && Wanted(config, m).value.0 == nonce && until <= Wanted(config, m).value.1
  }

  /** Some moment before `n` found the nonce free and took it, for a time that reaches `now`. */
  predicate Taken<V>(config: Config, ms: seq<Moment<V>>, n: nat, nonce: string, now: int)
    requires n <= |ms|
    decreases n
  {
    exists i | 0 <= i < n :: Wants(config, ms[i], nonce, now) && !Taken(config, ms, i, nonce, ms[i].now)
  }

  /** The cache after `n` moments holds a nonce at a time not before the last of them just if it is taken. */
  ghost predicate HoldsTheTaken<V(!new)>(config: Config, ms: seq<Moment<V>>, n: nat, nonces: map<string, int>)
    requires n <= |ms|
  {
    forall nonce, now | n > 0 ==> ms[n - 1].now <= now ::
      (nonce in nonces && now <= nonces[nonce]) <==> Taken(config, ms, n, nonce, now)
  }

  lemma TakenOneMore<V(!new)>(config: Config, ms: seq<Moment<V>>, n: nat, nonce: string, now: int)
    requires n < |ms|
    ensures Taken(config, ms, n + 1, nonce, now) <==>
              Taken(config, ms, n, nonce, now) || (Wants(config, ms[n], nonce, now) && !Taken(config, ms, n, nonce, ms[n].now))
  {
    if Taken(config, ms, n, nonce, now) {
      var i :| 0 <= i < n && Wants(config, ms[i], nonce, now) && !Taken(config, ms, i, nonce, ms[i].now);
    }
  }

  /** What one moment does to the nonces that matter from then on. */
  lemma MomentTakes<V(!new)>(config: Config, c: Entries<V>, m: Moment<V>, nonce: string, now: int)
    requires config.requireRequestSignature && m.now <= now
    ensures IsHeld(After(config, c, m), nonce, now) <==>
              || IsHeld(c, nonce, now)
              || (Wants(config, m, nonce, now) && !IsHeld(c, nonce, m.now))
  {
  }

  lemma {:induction false} CacheHoldsTheTaken<V(!new)>(config: Config, ms: seq<Moment<V>>, n: nat)
    requires config.requireRequestSignature && Monotone(ms) && n <= |ms|
    ensures HoldsTheTaken(config, ms, n, AfterAll(config, Entries(map[], map[]), ms[..n]).nonces)
  {
    if n > 0 {
      var c := AfterAll(config, Entries(map[], map[]), ms[..n - 1]);
      CacheHoldsTheTaken(config, ms, n - 1);
      assert ms[..n][..n - 1] == ms[..n - 1];
      assert n > 1 ==> ms[n - 2].now <= ms[n - 1].now;
      forall nonce, now | ms[n - 1].now <= now
        ensures IsHeld(After(config, c, ms[n - 1]), nonce, now) <==> Taken(config, ms, n, nonce, now)
      {
        MomentTakes(config, c, ms[n - 1], nonce, now);
        TakenOneMore(config, ms, n - 1, nonce, now);
        assert IsHeld(c, nonce, now) <==> Taken(config, ms, n - 1, nonce, now);
        assert IsHeld(c, nonce, ms[n - 1].now) <==> Taken(config, ms, n - 1, nonce, ms[n - 1].now);
      }
    }
  }

  /**
   In every run of a server that started empty, a request is accepted if and only if it is genuine and no
   earlier moment took its nonce for a time that is not over.
   */
  lemma AcceptedExactly<V(!new)>(config: Config, ms: seq<Moment<V>>, n: nat)
    requires config.requireRequestSignature && Monotone(ms) && n < |ms| && ms[n].Ask?
    ensures AcceptedAt(config, Entries(map[], map[]), ms, n) <==>
              IsGenuine(config, ms[n].request, ms[n].now) && !Taken(config, ms, n, ms[n].request.nonce, ms[n].now)
  {
    var c := AfterAll(config, Entries(map[], map[]), ms[..n]);
    CacheHoldsTheTaken(config, ms, n);
    assert n > 0 ==> ms[n - 1].now <= ms[n].now;
    VerdictNamesTheFault(config, c, ms[n].request, ms[n].now, Accepted);
  }

  /** If nonces are kept for twice the skew, nothing is accepted twice, whatever else uses the cache. */
  lemma LongEnoughTtlStopsReplay<V(!new)>(config: Config, c: Entries<V>, ms: seq<Moment<V>>)
    requires config.requireRequestSignature && Monotone(ms)
    requires config.nonceTtlMs >= 2 * config.timestampSkewMs
    ensures NoReplay(config, c, ms)
  {
    forall i, j | 0 <= i < j < |ms| && AcceptedAt(config, c, ms, i) && AcceptedAt(config, c, ms, j)
      ensures ms[i].request.nonce == ms[j].request.nonce ==> ms[i].request.timestamp != ms[j].request.timestamp
    {
      if ms[i].request.nonce == ms[j].request.nonce && ms[i].request.timestamp == ms[j].request.timestamp {
        var until := ms[i].now + config.nonceTtlMs;
        assert ms[j].now <= until;
        assert ms[j - 1].now <= ms[j].now;
        AcceptedNonceStays(config, c, ms, i, j);
        RememberedIsRefused(AfterAll(config, c, ms[..j]), ms[j].request.nonce, config.nonceTtlMs, ms[j].now, until);
      }
    }
  }

  /** The earliest and the latest moment at which one request is inside the window. */
  function TwoAsks(skew: int): seq<Moment<bool>> {
    var r := Request("install", "nonce", Some(0.0), true, true, true);
    [Ask(-skew, r), Ask(skew, r)]
  }

  lemma ShortTtlAllowsReplay(config: Config)
    requires config.requireRequestSignature && config.timestampSkewMs >= 0
    requires config.nonceTtlMs < 2 * config.timestampSkewMs
    ensures Monotone(TwoAsks(config.timestampSkewMs))
    ensures !NoReplay(config, Entries(map[], map[]), TwoAsks(config.timestampSkewMs))
  {
    var c: Entries<bool> := Entries(map[], map[]);
    var ms := TwoAsks(config.timestampSkewMs);
    assert ms[..0] == [] && ms[..1] == [ms[0]] && ms[..1][..0] == [];
    assert Checked(config, ms[0].request, ms[0].now) == Accepted && Checked(config, ms[1].request, ms[1].now) == Accepted;
    var one := [ms[0]];
    assert one[..0] == [] && ms[..1] == one;
    var first := AfterAll(config, c, one);
    assert first == After(config, AfterAll(config, c, one[..0]), ms[0]);
    assert Swept(c, ms[0].now) == c;
    assert first.nonces == map["nonce" := ms[0].now + config.nonceTtlMs];
    assert AcceptedAt(config, c, ms, 0) && AcceptedAt(config, c, ms, 1);
  }

  /** Exactly when the configuration stops replay. The defaults, 600000 and 300000, meet it with equality. */
  lemma ReplayIsStoppedExactly(config: Config)
    requires config.requireRequestSignature && config.timestampSkewMs >= 0
    ensures (forall ms: seq<Moment<bool>> | Monotone(ms) :: NoReplay(config, Entries(map[], map[]), ms))
       <==> config.nonceTtlMs >= 2 * config.timestampSkewMs
  {
    if config.nonceTtlMs >= 2 * config.timestampSkewMs {
      forall ms: seq<Moment<bool>> | Monotone(ms) ensures NoReplay(config, Entries(map[], map[]), ms) {
        LongEnoughTtlStopsReplay(config, Entries(map[], map[]), ms);
      }
    } else {
      ShortTtlAllowsReplay(config);
    }
  }

  lemma DefaultsStopReplay()
    ensures forall ms: seq<Moment<bool>> | Monotone(ms) ::
              NoReplay(Config(300000, 600000, true), Entries(map[], map[]), ms)
  {
    ReplayIsStoppedExactly(Config(300000, 600000, true));
  }
}
