/** Which reports are accepted, which counter each of them moves, and when they pause a rollout: exactly. */
module Acceptance {
  import opened Common
  import opened Cache
  import opened Confirm
  import Backend

  // ---- the nonce of a check ----------------------------------------------

  ghost predicate KeepsTokens(before: Entries<Grant>, after: Entries<Grant>, now: int) {
    forall t | t in before.tokens && before.tokens[t].expiresAt >= now :: t in after.tokens
  }

  lemma RegisteringKeepsTokens(c: Entries<Grant>, key: string, ttlMs: int, now: int)
    ensures KeepsTokens(c, Registered(c, key, ttlMs, now).0, now)
    ensures forall t | t in Registered(c, key, ttlMs, now).0.tokens :: t in c.tokens && Registered(c, key, ttlMs, now).0.tokens[t] == c.tokens[t]
  {
  }

  lemma HandlingKeepsTokens(config: Config, s: Server, now: int, nonce: string, installId: string, bundleId: string, status: Status)
    ensures KeepsTokens(s.cache, Handled(config, s, now, nonce, installId, bundleId, status).cache, now)
  {
    var c := Consumed(config, s.cache, s.db.releases, nonce, installId, bundleId, status, now);
    assert KeepsTokens(s.cache, c.0, now) && forall t | t in c.0.tokens :: t in s.cache.tokens && c.0.tokens[t] == s.cache.tokens[t] by {
      RegisteringKeepsTokens(Swept(s.cache, now), SpendKey(nonce, status, bundleId), config.nonceTtlMs, now);
    }
    RegisteringKeepsTokens(c.0, FailureKey(installId, bundleId), FAILURE_DEDUPE_TTL_MS, now);
  }

  /** A token goes only when its time is over, and nothing rewrites it. */
  lemma TokenMoves(config: Config, hash: Bytes -> string, s: Server, now: int, e: Event, token: string)
    requires Enabled(config, s, now, e) && token in s.issued
    ensures var t := Next(config, hash, s, now, e);
            && (token in t.cache.tokens ==> token in s.cache.tokens && t.cache.tokens[token] == s.cache.tokens[token])
            && (token in s.cache.tokens && s.cache.tokens[token].expiresAt >= now ==> token in t.cache.tokens)
            && token in t.issued && t.clock == now
  {
    CacheForgetsOnlyTheExpired(config, hash, s, now, e);
    TokensAreKept(config, hash, s, now, e);
  }

  lemma TokensAreKept(config: Config, hash: Bytes -> string, s: Server, now: int, e: Event)
    ensures KeepsTokens(s.cache, Next(config, hash, s, now, e).cache, now)
  {
    match e
    case Report_(nonce, installId, bundleId, status) => HandlingKeepsTokens(config, s, now, nonce, installId, bundleId, status);
    case OtherNonce(key, ttlMs) => RegisteringKeepsTokens(s.cache, key, ttlMs, now);
    case _ =>
  }

  /** From its issue on a token stands for its grant, as long as its time lasts. */
  ghost predicate TokenHolds(s: Server, token: string, grant: Grant, until: int) {
    && token in s.issued
    && (token in s.cache.tokens ==> s.cache.tokens[token] == Token(grant, until))
    && (s.clock <= until ==> token in s.cache.tokens)
  }

  lemma {:induction false} TokenStays(config: Config, hash: Bytes -> string, trace: seq<Server>, events: seq<(int, Event)>, m: nat, n: nat)
    requires Run(config, hash, trace, events) && m < n <= |events| && events[m].1.Issue?
    ensures TokenHolds(trace[n], events[m].1.token, events[m].1.grant, events[m].0 + events[m].1.ttlMs)
  {
    assert StepAt(config, hash, trace, events, n - 1);
    if m < n - 1 {
      TokenStays(config, hash, trace, events, m, n - 1);
      TokenMoves(config, hash, trace[n - 1], events[n - 1].0, events[n - 1].1, events[m].1.token);
    }
  }

  // ---- its markers -------------------------------------------------------

  predicate IsSpent(s: Server, nonce: string, bundleId: string, status: Status) {
    exists x | x in s.spent :: x.nonce == nonce && x.bundleId == bundleId && x.status == status
  }

  /** A marker is there because that report was accepted; and no nonce that was issued has a colon. */
  ghost predicate MarkersAreSpends(s: Server) {
    && (forall nonce, status, bundleId | ':' !in nonce && SpendKey(nonce, status, bundleId) in s.cache.nonces ::
          IsSpent(s, nonce, bundleId, status))
    && forall token | token in s.issued :: ':' !in token
  }

  predicate IsTidyIssue(e: Event) {
    Tidy(e) && (e.Issue? ==> ':' !in e.token)
  }

  lemma AcceptedOrNothing(config: Config, hash: Bytes -> string, s: Server, now: int, e: Event)
    requires Enabled(config, s, now, e) && e.Report_?
    ensures var t := Next(config, hash, s, now, e);
            if t.spent == s.spent then t.cache.nonces.Keys <= s.cache.nonces.Keys && t.counted == s.counted
            else t.spent == s.spent + [Spend(e.nonce, e.installId, e.bundleId, e.status, now)] && e.nonce in s.cache.tokens
  {
  }

  /** What one event adds can be the marker of a report only if it is that report, and it is accepted. */
  lemma NewMarkerIsSpent(config: Config, hash: Bytes -> string, s: Server, now: int, e: Event, nonce: string, status: Status, bundleId: string)
    requires SpendingGood(config, s) && Enabled(config, s, now, e) && IsTidyIssue(e) && MarkersAreSpends(s)
    requires var key := SpendKey(nonce, status, bundleId);
             ':' !in nonce && key !in s.cache.nonces && key in Next(config, hash, s, now, e).cache.nonces
    ensures IsSpent(Next(config, hash, s, now, e), nonce, bundleId, status)
  {
    var t := Next(config, hash, s, now, e);
    var key := SpendKey(nonce, status, bundleId);
    NoncesComeFromTheEvent(config, hash, s, now, e);
    assert NewNonce(s, e, key);
    assert key[0] == '\n' && key[1] == 'c';
    if e.Report_? {
      AcceptedOrNothing(config, hash, s, now, e);
      assert FailureKey(e.installId, e.bundleId)[1] == 'f';
      SpendKeysAreDistinct(nonce, status, bundleId, e.nonce, e.status, e.bundleId, e.installId);
      assert t.spent[|s.spent|] in t.spent;
    }
  }

  lemma SpentStays(config: Config, hash: Bytes -> string, s: Server, now: int, e: Event, nonce: string, bundleId: string, status: Status)
    requires Enabled(config, s, now, e) && IsSpent(s, nonce, bundleId, status)
    ensures IsSpent(Next(config, hash, s, now, e), nonce, bundleId, status)
  {
    var x :| x in s.spent && x.nonce == nonce && x.bundleId == bundleId && x.status == status;
    assert x in Next(config, hash, s, now, e).spent;
  }

  lemma StepKeepsMarkers(config: Config, hash: Bytes -> string, s: Server, now: int, e: Event)
    requires SpendingGood(config, s) && Enabled(config, s, now, e) && IsTidyIssue(e) && MarkersAreSpends(s)
    ensures MarkersAreSpends(Next(config, hash, s, now, e))
  {
    var t := Next(config, hash, s, now, e);
    forall nonce, status, bundleId | ':' !in nonce && SpendKey(nonce, status, bundleId) in t.cache.nonces
      ensures IsSpent(t, nonce, bundleId, status)
    {
      if SpendKey(nonce, status, bundleId) in s.cache.nonces {
        SpentStays(config, hash, s, now, e, nonce, bundleId, status);
      } else {
        NewMarkerIsSpent(config, hash, s, now, e, nonce, status, bundleId);
      }
    }
    IssuedMoves(config, hash, s, now, e);
  }

  lemma IssuedMoves(config: Config, hash: Bytes -> string, s: Server, now: int, e: Event)
    ensures Next(config, hash, s, now, e).issued == s.issued + if e.Issue? then {e.token} else {}
  {
  }

  lemma {:induction false} EveryMarkerIsSpent(config: Config, hash: Bytes -> string, trace: seq<Server>, events: seq<(int, Event)>, n: nat)
    requires Run(config, hash, trace, events) && n <= |events| && forall k | 0 <= k < n :: IsTidyIssue(events[k].1)
    ensures MarkersAreSpends(trace[n])
  {
    if n > 0 {
      EveryMarkerIsSpent(config, hash, trace, events, n - 1);
      EveryRunIsGood(config, hash, trace, events, n - 1);
      assert StepAt(config, hash, trace, events, n - 1);
      StepKeepsMarkers(config, hash, trace[n - 1], events[n - 1].0, events[n - 1].1);
    }
  }

  // ---- who may report ----------------------------------------------------

  /**
   The check was of this install and of a release of this platform and channel; and it named the bundle, or
   the report is a failure of a release for the same binary that is newer than what the install had.
   */
  predicate MayReport(g: Grant, releases: map<string, Backend.Record>, e: Event)
    requires e.Report_?
  {
    && g.Check? && g.installId == e.installId && e.bundleId in releases
    && releases[e.bundleId].platform == g.platform && releases[e.bundleId].channel == g.channel
    && (|| e.bundleId in g.bundleIds
        || (&& e.status == Failed && releases[e.bundleId].runtimeVersion == g.runtimeVersion
            && g.currentBundleVersion < releases[e.bundleId].bundleVersion))
  }

  lemma ConsumedExactly(config: Config, s: Server, now: int, e: Event, grant: Grant, until: int)
    requires SpendingGood(config, s) && MarkersAreSpends(s) && now >= s.clock && e.Report_? && e.nonce != ""
    requires TokenHolds(s, e.nonce, grant, until)
    ensures Consumed(config, s.cache, s.db.releases, e.nonce, e.installId, e.bundleId, e.status, now).1 <==>
              now <= until && MayReport(grant, s.db.releases, e) && !IsSpent(s, e.nonce, e.bundleId, e.status)
  {
    if IsSpent(s, e.nonce, e.bundleId, e.status) {
      var x :| x in s.spent && x.nonce == e.nonce && x.bundleId == e.bundleId && x.status == e.status;
      SpentTwiceIsRefused(config, s, now, x, e.installId);
    }
  }

  /**
   In every run with tidy nonces, a report under the nonce of a check is accepted if and only if the nonce's
   time is not over, the check lets this install report it, and it was not accepted before; and when it is
   accepted and no failure, it is counted.
   */
  lemma ReportIsAcceptedExactly(config: Config, hash: Bytes -> string, trace: seq<Server>, events: seq<(int, Event)>, m: nat, n: nat)
    requires Run(config, hash, trace, events) && m < n < |events| && forall k | 0 <= k < n :: IsTidyIssue(events[k].1)
    requires events[m].1.Issue? && events[m].1.grant.Check? && events[m].1.token != ""
    requires events[n].1.Report_? && events[n].1.nonce == events[m].1.token
    ensures var e, s, t := events[n].1, trace[n], trace[n + 1];
            && (t.spent == s.spent + [Spend(e.nonce, e.installId, e.bundleId, e.status, events[n].0)] || t.spent == s.spent)
            && (t.spent != s.spent <==>
                  && events[n].0 <= events[m].0 + config.nonceTtlMs
                  && MayReport(events[m].1.grant, s.db.releases, e)
                  && !IsSpent(s, e.nonce, e.bundleId, e.status))
            && (t.spent != s.spent && !IsFailure(e.status) ==>
                  t.counted == s.counted + [Report(e.bundleId, e.installId, e.status, events[n].0)])
  {
    var e, s := events[n].1, trace[n];
    assert StepAt(config, hash, trace, events, m) && StepAt(config, hash, trace, events, n);
    EveryRunIsGood(config, hash, trace, events, n);
    EveryMarkerIsSpent(config, hash, trace, events, n);
    TokenStays(config, hash, trace, events, m, n);
    ConsumedExactly(config, s, events[n].0, e, events[m].1.grant, events[m].0 + config.nonceTtlMs);
    AcceptedOrNothing(config, hash, s, events[n].0, e);
    AcceptedShows(config, hash, s, events[n].0, e);
    FailureIsCountedOrMarked(config, hash, s, events[n].0, e);
  }

  lemma AcceptedShows(config: Config, hash: Bytes -> string, s: Server, now: int, e: Event)
    requires e.Report_?
    ensures Next(config, hash, s, now, e).spent != s.spent <==>
              Consumed(config, s.cache, s.db.releases, e.nonce, e.installId, e.bundleId, e.status, now).1
  {
    assert |Next(config, hash, s, now, e).spent| >= |s.spent|;
  }

  // ---- each counter ------------------------------------------------------

  /** How many of the reports say this of the release. */
  function Saying(reports: seq<Report>, id: string, status: Status): nat {
    if reports == [] then 0
    else
      var last := reports[|reports| - 1];
      Saying(reports[..|reports| - 1], id, status) + if last.bundleId == id && last.status == status then 1 else 0
  }

  lemma {:induction false} TallyBySaying(reports: seq<Report>, id: string)
    ensures Tally(reports, id) == Backend.Adoption(Saying(reports, id, Applied), Saying(reports, id, Healthy),
                                                   Saying(reports, id, Failed), Saying(reports, id, RolledBack))
  {
    if reports != [] {
      TallyBySaying(reports[..|reports| - 1], id);
    }
  }

  /** In every reachable state each counter of a release is the number of counted reports that say so. */
  lemma EachCounterCountsItsReports(config: Config, hash: Bytes -> string, trace: seq<Server>, events: seq<(int, Event)>, n: nat, id: string)
    requires Run(config, hash, trace, events) && n < |trace| && id in trace[n].db.releases
    ensures var a, r := trace[n].db.releases[id].adoption, trace[n].counted;
            && a.applied == Saying(r, id, Applied) && a.healthy == Saying(r, id, Healthy)
            && a.failed == Saying(r, id, Failed) && a.rolledBack == Saying(r, id, RolledBack)
  {
    EveryRunIsGood(config, hash, trace, events, n);
    TallyBySaying(trace[n].counted, id);
  }

  // ---- pausing -----------------------------------------------------------

  function Failing(reports: seq<Report>, id: string): nat {
    Saying(reports, id, Failed) + Saying(reports, id, RolledBack)
  }

  function Reporting(reports: seq<Report>, id: string): nat {
    Saying(reports, id, Applied) + Saying(reports, id, Healthy) + Failing(reports, id)
  }

  /** Enough reports, and at least the configured share of them failures. */
  predicate ManyFail(config: Config, failing: nat, reporting: nat) {
    && reporting > 0 && reporting >= config.autoPauseMinSamples
    && failing as real >= config.autoPauseFailureRate * reporting as real
  }

  lemma RateIsAShare(failing: nat, reporting: nat, rate: real)
    requires reporting > 0
    ensures failing as real / reporting as real >= rate <==> failing as real >= rate * reporting as real
  {
    var total := reporting as real;
    var quotient := failing as real / total;
    assert quotient * total == failing as real;
    if quotient >= rate {
      assert (quotient - rate) * total >= 0.0;
    } else {
      assert (rate - quotient) * total > 0.0;
    }
  }

  lemma TooManyIsMany(config: Config, a: Backend.Adoption)
    ensures TooManyFailures(config, a) <==> ManyFail(config, Failures(a), Total(a))
  {
    if Total(a) > 0 {
      RateIsAShare(Failures(a), Total(a), config.autoPauseFailureRate);
    }
  }

  /** A report pauses its release exactly when it is counted and many fail then; it never resumes one. */
  lemma ReportPausesExactly(config: Config, hash: Bytes -> string, trace: seq<Server>, events: seq<(int, Event)>, n: nat, id: string)
    requires Run(config, hash, trace, events) && n < |events| && events[n].1.Report_? && id in trace[n].db.releases
    ensures id in trace[n + 1].db.releases
    ensures var s, t := trace[n], trace[n + 1];
            t.db.releases[id].paused <==>
              s.db.releases[id].paused
              || (t.counted != s.counted && events[n].1.bundleId == id && ManyFail(config, Failing(t.counted, id), Reporting(t.counted, id)))
  {
    var e, s, t := events[n].1, trace[n], trace[n + 1];
    assert StepAt(config, hash, trace, events, n);
    EveryRunIsGood(config, hash, trace, events, n);
    ReportMovesPause(config, hash, s, events[n].0, e, id);
    EachCounterCountsItsReports(config, hash, trace, events, n + 1, id);
    TooManyIsMany(config, t.db.releases[id].adoption);
  }

  lemma ReportMovesPause(config: Config, hash: Bytes -> string, s: Server, now: int, e: Event, id: string)
    requires Enabled(config, s, now, e) && e.Report_? && id in s.db.releases
    ensures var t := Next(config, hash, s, now, e);
            && id in t.db.releases
            && (t.db.releases[id].paused <==>
                  s.db.releases[id].paused || (t.counted != s.counted && e.bundleId == id && TooManyFailures(config, t.db.releases[id].adoption)))
  {
  }
}
