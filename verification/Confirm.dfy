/**
 Reports from devices: spending the server nonce of a check, counting each report once, and pausing a
 rollout when too many of them are failures.
 */
module Confirm {
  import opened Common
  import opened Cache
  import Backend

  datatype Status = Applied | Healthy | Failed | RolledBack

  /** What a token stands for: one check of one install, or permission to download one release. */
  datatype Grant =
    | Check(installId: string, bundleIds: set<string>, platform: string, channel: string,
            runtimeVersion: string, currentBundleVersion: int)
    | Download(bundleId: string, installId: string)

  datatype Config = Config(nonceTtlMs: int, autoPauseMinSamples: int, autoPauseFailureRate: real)

  const FAILURE_DEDUPE_TTL_MS := 30 * 24 * 60 * 60 * 1000

  function Text(s: Status): string {
    match s
    case Applied => "applied"
    case Healthy => "healthy"
    case Failed => "failed"
    case RolledBack => "rolled_back"
  }

  const CONFIRM_PREFIX := "\nconfirm:"
  const FAILURE_PREFIX := "\nfailure:"

  function SpendKey(nonce: string, status: Status, bundleId: string): string {
    CONFIRM_PREFIX + (nonce + (":" + (Text(status) + (":" + bundleId))))
  }

  function FailureKey(installId: string, bundleId: string): string {
    FAILURE_PREFIX + (installId + (":" + bundleId))
  }

  predicate IsFailure(s: Status) {
    s.Failed? || s.RolledBack?
  }

  /** The check covers this report: it offered or named the bundle, or the bundle is a newer failure. */
  predicate Covers(g: Grant, r: Backend.Record, installId: string, bundleId: string, status: Status) {
    && g.Check? && g.installId == installId
    && r.platform == g.platform && r.channel == g.channel
    && (|| bundleId in g.bundleIds
        || (status.Failed? && r.runtimeVersion == g.runtimeVersion && r.bundleVersion > g.currentBundleVersion))
  }

  function Consumed(config: Config, c: Entries<Grant>, releases: map<string, Backend.Record>,
                    nonce: string, installId: string, bundleId: string, status: Status, now: int): (Entries<Grant>, bool)
  {
    if nonce == "" then (c, false)
    else
      var s := Swept(c, now);
      if nonce !in s.tokens || bundleId !in releases
         || !Covers(s.tokens[nonce].value, releases[bundleId], installId, bundleId, status) then (s, false)
      else Registered(s, SpendKey(nonce, status, bundleId), config.nonceTtlMs, now)
  }

  function Counted(a: Backend.Adoption, s: Status): Backend.Adoption {
    match s
    case Applied => a.(applied := a.applied + 1)
    case Healthy => a.(healthy := a.healthy + 1)
    case Failed => a.(failed := a.failed + 1)
    case RolledBack => a.(rolledBack := a.rolledBack + 1)
  }

  function Total(a: Backend.Adoption): nat {
    a.applied + a.healthy + a.failed + a.rolledBack
  }

  function Failures(a: Backend.Adoption): nat {
    a.failed + a.rolledBack
  }

  predicate TooManyFailures(config: Config, a: Backend.Adoption) {
    && Total(a) >= config.autoPauseMinSamples && Total(a) > 0
    && Failures(a) as real / Total(a) as real >= config.autoPauseFailureRate
  }

  datatype Outcome = Outcome(cache: Entries<Grant>, releases: map<string, Backend.Record>, counted: bool, autoPaused: bool)

  function Recorded(config: Config, c: Entries<Grant>, releases: map<string, Backend.Record>,
                    bundleId: string, status: Status, installId: string, now: int): Outcome
  {
    if bundleId !in releases then Outcome(c, releases, false, false)
    else
      var dedupe := installId != "" && IsFailure(status);
      var first := if dedupe then Registered(c, FailureKey(installId, bundleId), FAILURE_DEDUPE_TTL_MS, now) else (c, true);
      if !first.1 then Outcome(first.0, releases, false, false)
      else
        var r := releases[bundleId];
        var counts := Counted(r.adoption, status);
        var pause := !r.paused && TooManyFailures(config, counts);
        Outcome(first.0, releases[bundleId := r.(adoption := counts, paused := r.paused || pause)], true, pause)
  }

  // ---- the methods -------------------------------------------------------

  class Reports {
    const cache: MemoryCacheProvider<Grant>
    const config: Config
    var releases: map<string, Backend.Record>

    constructor (cache: MemoryCacheProvider<Grant>, config: Config, releases: map<string, Backend.Record>)
      ensures this.cache == cache && this.config == config && this.releases == releases
    {
      this.cache, this.config, this.releases := cache, config, releases;
    }

    /** The nonce a check answers with, good for what that check made relevant; empty bundle ids are not. */
    method IssueServerNonce(nonce: string, scope: Grant, now: int)
      requires scope.Check?
      modifies cache
      ensures cache.View() == WithToken(old(cache.View()), nonce, scope.(bundleIds := scope.bundleIds - {""}), config.nonceTtlMs, now)
    {
      cache.PutToken(nonce, scope.(bundleIds := scope.bundleIds - {""}), config.nonceTtlMs, now);
    }

    /** A report counts against the check whose nonce it carries, once, and only if that check covers it. */
    method ConsumeServerNonce(nonce: string, installId: string, bundleId: string, status: Status, now: int) returns (ok: bool)
      modifies cache
      ensures (cache.View(), ok) == Consumed(config, old(cache.View()), releases, nonce, installId, bundleId, status, now)
    {
      if nonce == "" {
        return false;
      }
      var value := cache.PeekToken(nonce, now);
      if value.None? {
        return false;
      }
      var scope := value.value;
      if !scope.Check? || scope.installId != installId {
        return false;
      }
      if bundleId !in releases {
        return false;
      }
      var release := releases[bundleId];
      if release.platform != scope.platform || release.channel != scope.channel {
        return false;
      }
      var covered := bundleId in scope.bundleIds
        || (status == Failed && release.runtimeVersion == scope.runtimeVersion
            && release.bundleVersion > scope.currentBundleVersion);
      if !covered {
        return false;
      }
      ok := cache.RegisterNonce(SpendKey(nonce, status, bundleId), config.nonceTtlMs, now);
    }

    /** Count a report, once per install for a failure, and pause the rollout if too many failed. */
    method RecordConfirm(bundleId: string, status: Status, installId: string, now: int) returns (autoPaused: bool)
      modifies this`releases, cache
      ensures var o := Recorded(config, old(cache.View()), old(releases), bundleId, status, installId, now);
              cache.View() == o.cache && releases == o.releases && autoPaused == o.autoPaused
    {
      if bundleId !in releases {
        return false;
      }
      var r := releases[bundleId];
      if installId != "" && (status == Failed || status == RolledBack) {
        var first := cache.RegisterNonce(FailureKey(installId, bundleId), FAILURE_DEDUPE_TTL_MS, now);
        if !first {
          return false;
        }
      }
      var counts := Counted(r.adoption, status);
      r := r.(adoption := counts);
      var total := counts.applied + counts.healthy + counts.failed + counts.rolledBack;
      var failures := counts.failed + counts.rolledBack;
      autoPaused := false;
      if !r.paused && total >= config.autoPauseMinSamples && failures as real / total as real >= config.autoPauseFailureRate {
        r := r.(paused := true);
        autoPaused := true;
      }
      releases := releases[bundleId := r];
    }
  }

  // ---- runs --------------------------------------------------------------

  datatype Report = Report(bundleId: string, installId: string, status: Status, at: int)

  datatype Spend = Spend(nonce: string, installId: string, bundleId: string, status: Status, at: int)

  /** The server, with the whole history of what it spent and what it counted. */
  datatype Server = Server(
    cache: Entries<Grant>,
    db: Backend.Db,
    clock: int,
    issued: set<string>,
    spent: seq<Spend>,
    counted: seq<Report>)

  datatype Event =
    /** A check or a download grant, under a token never issued before. */
    | Issue(token: string, grant: Grant, ttlMs: int)
    | Report_(nonce: string, installId: string, bundleId: string, status: Status)
    /** A client nonce or an internal key of another request. */
    | OtherNonce(key: string, ttlMs: int)
    | Peek(token: string)
    | Administer(op: Backend.Op)

  predicate Enabled(config: Config, s: Server, now: int, e: Event) {
    && now >= s.clock
    && match e
       case Issue(token, grant, ttlMs) => token !in s.issued && (grant.Check? ==> ttlMs == config.nonceTtlMs)
       case Report_(_, installId, _, _) => installId != ""
       case Administer(op) => !op.Count?
       case _ => true
  }

  function Handled(config: Config, s: Server, now: int, nonce: string, installId: string, bundleId: string, status: Status): Server {
    var c := Consumed(config, s.cache, s.db.releases, nonce, installId, bundleId, status, now);
    if !c.1 then s.(cache := c.0, clock := now)
    else
      var o := Recorded(config, c.0, s.db.releases, bundleId, status, installId, now);
      s.(cache := o.cache, clock := now, db := s.db.(releases := o.releases),
         spent := s.spent + [Spend(nonce, installId, bundleId, status, now)],
         counted := if o.counted then s.counted + [Report(bundleId, installId, status, now)] else s.counted)
  }

  function Next(config: Config, hash: Bytes -> string, s: Server, now: int, e: Event): Server {
    match e
    case Issue(token, grant, ttlMs) =>
      s.(cache := WithToken(s.cache, token, grant, ttlMs, now), clock := now, issued := s.issued + {token})
    case Report_(nonce, installId, bundleId, status) => Handled(config, s, now, nonce, installId, bundleId, status)
    case OtherNonce(key, ttlMs) => s.(cache := Registered(s.cache, key, ttlMs, now).0, clock := now)
    case Peek(token) => s.(cache := Swept(s.cache, now), clock := now)
    case Administer(op) => s.(db := Backend.Step(hash, s.db, op), clock := now)
  }

  // ---- spending ----------------------------------------------------------

  /** Until its marker may be swept the marker is there; and the token is gone no later than that. */
  ghost predicate SpendHeld(config: Config, s: Server, x: Spend) {
    var until := x.at + config.nonceTtlMs;
    && x.nonce in s.issued
    && (s.clock <= until ==> Remembers(s.cache, SpendKey(x.nonce, x.status, x.bundleId), until))
    && (x.nonce in s.cache.tokens ==> s.cache.tokens[x.nonce].expiresAt <= until)
  }

  ghost predicate SpendingGood(config: Config, s: Server) {
    && (forall t | t in s.cache.tokens :: t in s.issued)
    && (forall t | t in s.cache.tokens && s.cache.tokens[t].value.Check? :: s.cache.tokens[t].expiresAt <= s.clock + config.nonceTtlMs)
    && (forall x | x in s.spent :: SpendHeld(config, s, x))
    && (forall i, j | 0 <= i < j < |s.spent| :: !SameSpend(s.spent[i], s.spent[j]))
  }

  predicate SameSpend(a: Spend, b: Spend) {
    a.nonce == b.nonce && a.bundleId == b.bundleId && a.status == b.status
  }

  /** The cache lost only what its time allowed: markers and tokens alike. */
  lemma SpendsStayHeld(config: Config, s: Server, t: Server, x: Spend)
    requires SpendHeld(config, s, x) && t.clock >= s.clock && s.issued <= t.issued
    requires forall n | n in s.cache.nonces && s.cache.nonces[n] >= t.clock :: n in t.cache.nonces && t.cache.nonces[n] == s.cache.nonces[n]
    requires x.nonce in t.cache.tokens ==> x.nonce in s.cache.tokens && t.cache.tokens[x.nonce] == s.cache.tokens[x.nonce]
    ensures SpendHeld(config, t, x)
  {
  }

  /** A second spend of the same report finds its marker, or finds the token gone. */
  lemma SpentTwiceIsRefused(config: Config, s: Server, now: int, x: Spend, installId: string)
    requires SpendHeld(config, s, x) && now >= s.clock
    ensures !Consumed(config, s.cache, s.db.releases, x.nonce, installId, x.bundleId, x.status, now).1
  {
  }

  /** Everything not yet expired is still there, and no token is new but this one. */
  ghost predicate Forgets(before: Entries<Grant>, after: Entries<Grant>, now: int, token: Option<string>) {
    && (forall n | n in before.nonces && before.nonces[n] >= now :: n in after.nonces && after.nonces[n] == before.nonces[n])
    && (forall x | x in after.tokens && token != Some(x) :: x in before.tokens && after.tokens[x] == before.tokens[x])
  }

  lemma RegisteringForgets(c: Entries<Grant>, key: string, ttlMs: int, now: int)
    ensures Forgets(c, Registered(c, key, ttlMs, now).0, now, None)
  {
  }

  lemma HandlingForgets(config: Config, s: Server, now: int, nonce: string, installId: string, bundleId: string, status: Status)
    ensures var t := Handled(config, s, now, nonce, installId, bundleId, status);
            t.clock == now && t.issued == s.issued && Forgets(s.cache, t.cache, now, None)
  {
    var c := Consumed(config, s.cache, s.db.releases, nonce, installId, bundleId, status, now);
    assert Forgets(s.cache, c.0, now, None) by {
      RegisteringForgets(Swept(s.cache, now), SpendKey(nonce, status, bundleId), config.nonceTtlMs, now);
    }
    RegisteringForgets(c.0, FailureKey(installId, bundleId), FAILURE_DEDUPE_TTL_MS, now);
  }

  /** An event takes out of the cache only what has expired, and puts in no token but its own. */
  lemma CacheForgetsOnlyTheExpired(config: Config, hash: Bytes -> string, s: Server, now: int, e: Event)
    requires Enabled(config, s, now, e)
    ensures var t := Next(config, hash, s, now, e);
            && t.clock == now && s.issued <= t.issued
            && Forgets(s.cache, t.cache, now, if e.Issue? then Some(e.token) else None)
  {
    match e
    case Report_(nonce, installId, bundleId, status) => HandlingForgets(config, s, now, nonce, installId, bundleId, status);
    case OtherNonce(key, ttlMs) => RegisteringForgets(s.cache, key, ttlMs, now);
    case _ =>
  }

  /** The report that was just spent is held: its marker is new, its token expires no later. */
  lemma NewSpendIsHeld(config: Config, hash: Bytes -> string, s: Server, now: int, e: Event)
    requires SpendingGood(config, s) && Enabled(config, s, now, e) && e.Report_?
    requires |Next(config, hash, s, now, e).spent| > |s.spent|
    ensures var t := Next(config, hash, s, now, e);
            t.spent == s.spent + [Spend(e.nonce, e.installId, e.bundleId, e.status, now)] && SpendHeld(config, t, t.spent[|s.spent|])
  {
  }

  lemma StepKeepsSpending(config: Config, hash: Bytes -> string, s: Server, now: int, e: Event)
    requires SpendingGood(config, s) && Enabled(config, s, now, e)
    ensures SpendingGood(config, Next(config, hash, s, now, e))
  {
    var t := Next(config, hash, s, now, e);
    CacheForgetsOnlyTheExpired(config, hash, s, now, e);
    forall x | x in s.spent ensures SpendHeld(config, t, x) {
      SpendsStayHeld(config, s, t, x);
    }
    if e.Report_? && |t.spent| > |s.spent| {
      NewSpendIsHeld(config, hash, s, now, e);
      forall i | 0 <= i < |s.spent| ensures !SameSpend(s.spent[i], t.spent[|s.spent|]) {
        SpentTwiceIsRefused(config, s, now, s.spent[i], e.installId);
      }
    }
  }

  // ---- counting ----------------------------------------------------------

  /** The counters a list of reports adds up to. */
  function Tally(reports: seq<Report>, id: string): Backend.Adoption {
    if reports == [] then Backend.NO_ADOPTION
    else
      var n := |reports| - 1;
      var before := Tally(reports[..n], id);
      if reports[n].bundleId == id then Counted(before, reports[n].status) else before
  }

  ghost predicate CountingGood(s: Server) {
    && (forall id | id in s.db.releases :: Backend.Mirrors(id, s.db.releases[id]))
    && (forall id | id in s.db.releases :: s.db.releases[id].adoption == Tally(s.counted, id))
    && (forall x | x in s.counted :: x.bundleId in s.db.releases)
  }

  lemma {:induction false} NothingToTally(reports: seq<Report>, id: string)
    requires forall x | x in reports :: x.bundleId != id
    ensures Tally(reports, id) == Backend.NO_ADOPTION
  {
    if reports != [] {
      NothingToTally(reports[..|reports| - 1], id);
    }
  }

  /** The counters of every release are what they were, and zero for a new one. */
  ghost predicate CountersKept(releases: map<string, Backend.Record>, next: map<string, Backend.Record>) {
    && releases.Keys <= next.Keys
    && (forall id | id in next :: Backend.Mirrors(id, next[id]))
    && (forall id | id in next :: next[id].adoption == AdoptionOf(releases, id))
  }

  function AdoptionOf(releases: map<string, Backend.Record>, id: string): Backend.Adoption {
    if id in releases then releases[id].adoption else Backend.NO_ADOPTION
  }

  lemma WritingKeepsCounters(releases: map<string, Backend.Record>, r: Backend.Record)
    requires forall id | id in releases :: Backend.Mirrors(id, releases[id])
    requires Backend.Mirrors(r.bundleId, r) && r.adoption == AdoptionOf(releases, r.bundleId)
    ensures CountersKept(releases, releases[r.bundleId := r])
  {
  }

  /** Such an operation writes one record, with the counters it had, or none. */
  lemma AdministrationWritesOneRecord(hash: Bytes -> string, db: Backend.Db, op: Backend.Op)
    requires !op.Count? && forall id | id in db.releases :: Backend.Mirrors(id, db.releases[id])
    ensures var next := Backend.Step(hash, db, op).releases; var id := Backend.IdOf(op);
            || next == db.releases
            || (&& id in next && next == db.releases[id := next[id]]
                && Backend.Mirrors(id, next[id]) && next[id].adoption == AdoptionOf(db.releases, id))
  {
  }

  /** Publishing, re-declaring and administering leave the counters alone; a new release starts at zero. */
  lemma AdministrationKeepsCounters(hash: Bytes -> string, db: Backend.Db, op: Backend.Op)
    requires !op.Count? && forall id | id in db.releases :: Backend.Mirrors(id, db.releases[id])
    ensures CountersKept(db.releases, Backend.Step(hash, db, op).releases)
  {
    AdministrationWritesOneRecord(hash, db, op);
    var next := Backend.Step(hash, db, op).releases;
    if next != db.releases {
      WritingKeepsCounters(db.releases, next[Backend.IdOf(op)]);
    }
  }

  lemma StepKeepsCounting(config: Config, hash: Bytes -> string, s: Server, now: int, e: Event)
    requires CountingGood(s) && Enabled(config, s, now, e)
    ensures CountingGood(Next(config, hash, s, now, e))
  {
    var t := Next(config, hash, s, now, e);
    if e.Administer? {
      AdministrationKeepsCounters(hash, s.db, e.op);
      forall id | id in t.db.releases ensures t.db.releases[id].adoption == Tally(t.counted, id) {
        if id !in s.db.releases {
          NothingToTally(s.counted, id);
        }
      }
    } else if e.Report_? && t.counted != s.counted {
      assert t.counted[..|s.counted|] == s.counted;
    }
  }

  // ---- failures and installs ---------------------------------------------

  /** Until its dedupe marker may be swept, a counted failure of an install is remembered. */
  ghost predicate FailureHeld(s: Server, x: Report) {
    && x.at <= s.clock
    && (IsFailure(x.status) && s.clock <= x.at + FAILURE_DEDUPE_TTL_MS ==>
          Remembers(s.cache, FailureKey(x.installId, x.bundleId), x.at + FAILURE_DEDUPE_TTL_MS))
  }

  predicate SameFailure(a: Report, b: Report) {
    IsFailure(a.status) && IsFailure(b.status) && a.bundleId == b.bundleId && a.installId == b.installId
  }

  /** Two counted failures of one install for one bundle are more than thirty days apart. */
  ghost predicate DedupeGood(s: Server) {
    && (forall x | x in s.counted :: FailureHeld(s, x))
    && (forall i, j | 0 <= i < j < |s.counted| && SameFailure(s.counted[i], s.counted[j]) ::
          s.counted[j].at > s.counted[i].at + FAILURE_DEDUPE_TTL_MS)
  }

  lemma NewFailureIsHeld(config: Config, hash: Bytes -> string, s: Server, now: int, e: Event)
    requires DedupeGood(s) && Enabled(config, s, now, e) && e.Report_?
    requires Next(config, hash, s, now, e).counted != s.counted
    ensures var t := Next(config, hash, s, now, e);
            && t.counted == s.counted + [Report(e.bundleId, e.installId, e.status, now)]
            && FailureHeld(t, t.counted[|s.counted|])
            && forall x | x in s.counted && SameFailure(x, t.counted[|s.counted|]) :: now > x.at + FAILURE_DEDUPE_TTL_MS
  {
    var t := Next(config, hash, s, now, e);
    var c := Consumed(config, s.cache, s.db.releases, e.nonce, e.installId, e.bundleId, e.status, now).0;
    forall x | x in s.counted && SameFailure(x, t.counted[|s.counted|]) ensures now > x.at + FAILURE_DEDUPE_TTL_MS {
      assert FailureHeld(s, x);
      assert now <= x.at + FAILURE_DEDUPE_TTL_MS ==>
               Remembers(c, FailureKey(x.installId, x.bundleId), x.at + FAILURE_DEDUPE_TTL_MS);
    }
  }

  lemma StepKeepsDedupe(config: Config, hash: Bytes -> string, s: Server, now: int, e: Event)
    requires DedupeGood(s) && Enabled(config, s, now, e)
    ensures DedupeGood(Next(config, hash, s, now, e))
  {
    var t := Next(config, hash, s, now, e);
    CacheForgetsOnlyTheExpired(config, hash, s, now, e);
    forall x | x in s.counted ensures FailureHeld(t, x) {
      assert FailureHeld(s, x);
    }
    if e.Report_? && t.counted != s.counted {
      NewFailureIsHeld(config, hash, s, now, e);
    }
  }

  // ---- reachable states --------------------------------------------------

  ghost predicate Good(config: Config, s: Server) {
    SpendingGood(config, s) && CountingGood(s) && DedupeGood(s)
  }

  predicate Initial(s: Server) {
    s == Server(Entries(map[], map[]), Backend.EMPTY, s.clock, {}, [], [])
  }

  ghost predicate StepAt(config: Config, hash: Bytes -> string, trace: seq<Server>, events: seq<(int, Event)>, n: nat)
    requires n < |events| && |trace| == |events| + 1
  {
    && Enabled(config, trace[n], events[n].0, events[n].1)
    && trace[n + 1] == Next(config, hash, trace[n], events[n].0, events[n].1)
  }

  ghost predicate Run(config: Config, hash: Bytes -> string, trace: seq<Server>, events: seq<(int, Event)>) {
    && |trace| == |events| + 1
    && Initial(trace[0])
    && forall n | 0 <= n < |events| :: StepAt(config, hash, trace, events, n)
  }

  lemma {:induction false} EveryRunIsGood(config: Config, hash: Bytes -> string, trace: seq<Server>, events: seq<(int, Event)>, n: nat)
    requires Run(config, hash, trace, events) && n < |trace|
    ensures Good(config, trace[n])
  {
    if n > 0 {
      EveryRunIsGood(config, hash, trace, events, n - 1);
      assert StepAt(config, hash, trace, events, n - 1);
      StepKeepsSpending(config, hash, trace[n - 1], events[n - 1].0, events[n - 1].1);
      StepKeepsCounting(config, hash, trace[n - 1], events[n - 1].0, events[n - 1].1);
      StepKeepsDedupe(config, hash, trace[n - 1], events[n - 1].0, events[n - 1].1);
    }
  }

  // ---- what it means -----------------------------------------------------

  /** One check nonce is spent at most once on one report, in the whole life of the server. */
  lemma EachReportIsSpentOnce(config: Config, hash: Bytes -> string, trace: seq<Server>, events: seq<(int, Event)>, n: nat, i: nat, j: nat)
    requires Run(config, hash, trace, events) && n < |trace| && i < j < |trace[n].spent|
    ensures !SameSpend(trace[n].spent[i], trace[n].spent[j])
  {
    EveryRunIsGood(config, hash, trace, events, n);
  }

  function Of(reports: seq<Report>, id: string): seq<Report> {
    if reports == [] then []
    else
      var n := |reports| - 1;
      Of(reports[..n], id) + if reports[n].bundleId == id then [reports[n]] else []
  }

  lemma {:induction false} TallyIsTheNumberOfReports(reports: seq<Report>, id: string)
    ensures Total(Tally(reports, id)) == |Of(reports, id)|
  {
    if reports != [] {
      TallyIsTheNumberOfReports(reports[..|reports| - 1], id);
    }
  }

  /** The four counters of a release add up to the reports that were counted for it. */
  lemma CountersAddUp(config: Config, hash: Bytes -> string, trace: seq<Server>, events: seq<(int, Event)>, n: nat, id: string)
    requires Run(config, hash, trace, events) && n < |trace| && id in trace[n].db.releases
    ensures Total(trace[n].db.releases[id].adoption) == |Of(trace[n].counted, id)|
  {
    EveryRunIsGood(config, hash, trace, events, n);
    TallyIsTheNumberOfReports(trace[n].counted, id);
  }

  /** The installs whose failure of this bundle was counted. */
  function FailingInstalls(reports: seq<Report>, id: string): set<string> {
    set x | x in reports && FailsFor(x, id) :: x.installId
  }

  predicate FailsFor(x: Report, id: string) {
    x.bundleId == id && IsFailure(x.status)
  }

  lemma OneReportMore(reports: seq<Report>, x: Report, id: string)
    ensures FailingInstalls(reports + [x], id) == FailingInstalls(reports, id) + if FailsFor(x, id) then {x.installId} else {}
  {
    var all := reports + [x];
    assert forall y :: y in all <==> y in reports || y == x;
  }

  /** No two of the reports are failures of one install for this bundle. */
  ghost predicate FailuresDistinct(reports: seq<Report>, id: string) {
    forall i, j {:trigger SameFailure(reports[i], reports[j])} | 0 <= i < j < |reports| :: !(reports[j].bundleId == id && SameFailure(reports[i], reports[j]))
  }

  lemma LastFailureIsNew(reports: seq<Report>, n: nat, id: string)
    requires n < |reports| && FailuresDistinct(reports, id) && FailsFor(reports[n], id)
    ensures reports[n].installId !in FailingInstalls(reports[..n], id)
  {
    if reports[n].installId in FailingInstalls(reports[..n], id) {
      var y :| y in reports[..n] && FailsFor(y, id) && y.installId == reports[n].installId;
      var i :| 0 <= i < n && reports[i] == y;
      assert SameFailure(reports[i], reports[n]);
    }
  }

  lemma {:induction false} FailuresAreInstalls(reports: seq<Report>, n: nat, id: string)
    requires n <= |reports| && FailuresDistinct(reports, id)
    ensures Failures(Tally(reports[..n], id)) == |FailingInstalls(reports[..n], id)|
  {
    if n > 0 {
      FailuresAreInstalls(reports, n - 1, id);
      assert reports[..n][..n - 1] == reports[..n - 1] && reports[..n] == reports[..n - 1] + [reports[n - 1]];
      OneReportMore(reports[..n - 1], reports[n - 1], id);
      if FailsFor(reports[n - 1], id) {
        LastFailureIsNew(reports, n - 1, id);
      }
    }
  }

  /** Every failure counted for the release falls into the last thirty days. */
  predicate IsYoung(s: Server, id: string) {
    forall x | x in s.counted && FailsFor(x, id) :: s.clock <= x.at + FAILURE_DEDUPE_TTL_MS
  }

  /** The failures counted for a release are exactly the installs that reported one. */
  lemma FailuresCountDistinctInstalls(config: Config, hash: Bytes -> string, trace: seq<Server>, events: seq<(int, Event)>, n: nat, id: string)
    requires Run(config, hash, trace, events) && n < |trace| && IsYoung(trace[n], id) && id in trace[n].db.releases
    ensures Failures(trace[n].db.releases[id].adoption) == |FailingInstalls(trace[n].counted, id)|
  {
    EveryRunIsGood(config, hash, trace, events, n);
    var s := trace[n];
    forall i, j | 0 <= i < j < |s.counted| ensures !(s.counted[j].bundleId == id && SameFailure(s.counted[i], s.counted[j])) {
      assert FailureHeld(s, s.counted[j]);
      assert s.counted[i] in s.counted;
    }
    FailuresAreInstalls(s.counted, |s.counted|, id);
    assert s.counted[..|s.counted|] == s.counted;
  }

  lemma PausedByRate(config: Config, hash: Bytes -> string, s: Server, now: int, e: Event, id: string)
    requires Enabled(config, s, now, e) && e.Report_? && id in s.db.releases && !s.db.releases[id].paused
    requires var t := Next(config, hash, s, now, e); id in t.db.releases && t.db.releases[id].paused
    ensures TooManyFailures(config, Next(config, hash, s, now, e).db.releases[id].adoption)
  {
  }

  /** At least the configured share of the reports comes from as many failing installs. */
  predicate EnoughInstalls(config: Config, a: Backend.Adoption, installs: nat) {
    Total(a) >= config.autoPauseMinSamples && installs as real >= config.autoPauseFailureRate * Total(a) as real
  }

  lemma TooManyNeedsEnough(config: Config, a: Backend.Adoption, installs: nat)
    requires TooManyFailures(config, a) && Failures(a) == installs
    ensures EnoughInstalls(config, a, installs)
  {
    var total := Total(a) as real;
    var quotient := Failures(a) as real / total;
    assert quotient * total == installs as real;
    assert (quotient - config.autoPauseFailureRate) * total >= 0.0;
  }

  /** A release is paused by a report only if enough different installs reported a failure. */
  lemma AutoPauseNeedsManyInstalls(config: Config, hash: Bytes -> string, trace: seq<Server>, events: seq<(int, Event)>, n: nat, id: string)
    requires Run(config, hash, trace, events) && n < |events| && IsYoung(trace[n + 1], id)
    requires events[n].1.Report_? && id in trace[n].db.releases
    requires id in trace[n + 1].db.releases && !trace[n].db.releases[id].paused && trace[n + 1].db.releases[id].paused
    ensures EnoughInstalls(config, trace[n + 1].db.releases[id].adoption, |FailingInstalls(trace[n + 1].counted, id)|)
  {
    var a := trace[n + 1].db.releases[id].adoption;
    assert TooManyFailures(config, a) by {
      assert StepAt(config, hash, trace, events, n);
      PausedByRate(config, hash, trace[n], events[n].0, events[n].1, id);
    }
    assert Failures(a) == |FailingInstalls(trace[n + 1].counted, id)| by {
      FailuresCountDistinctInstalls(config, hash, trace, events, n + 1, id);
    }
    TooManyNeedsEnough(config, a, |FailingInstalls(trace[n + 1].counted, id)|);
  }

  // ---- every failing install is counted ----------------------------------

  /** The installs one of whose failures of this bundle was accepted. */
  function SpentInstalls(spent: seq<Spend>, id: string): set<string> {
    set x | x in spent && x.bundleId == id && IsFailure(x.status) :: x.installId
  }

  /** No colon in the install id of a report, and no client nonce that looks like an internal key. */
  predicate Tidy(e: Event) {
    && (e.Report_? ==> ':' !in e.installId)
    && (e.OtherNonce? ==> e.key == "" || e.key[0] != '\n')
  }

  /** A failure marker in the cache is there because that install was counted. */
  ghost predicate MarkersAreCounted(nonces: map<string, int>, counted: seq<Report>) {
    forall i, id | ':' !in i && FailureKey(i, id) in nonces :: i in FailingInstalls(counted, id)
  }

  ghost predicate Accounted(s: Server) {
    && (forall id :: FailingInstalls(s.counted, id) == SpentInstalls(s.spent, id))
    && MarkersAreCounted(s.cache.nonces, s.counted)
  }

  lemma OneSpendMore(spent: seq<Spend>, x: Spend, id: string)
    ensures SpentInstalls(spent + [x], id)
         == SpentInstalls(spent, id) + if x.bundleId == id && IsFailure(x.status) then {x.installId} else {}
  {
    var all := spent + [x];
    assert forall y :: y in all <==> y in spent || y == x;
  }

  /** Of one event's keys only its own failure marker can be a failure marker. */
  lemma OtherKeysAreNoMarkers(e: Event, i: string, id: string)
    requires Tidy(e) && ':' !in i
    ensures e.OtherNonce? ==> e.key != FailureKey(i, id)
    ensures e.Report_? ==> SpendKey(e.nonce, e.status, e.bundleId) != FailureKey(i, id)
    ensures e.Report_? && FailureKey(e.installId, e.bundleId) == FailureKey(i, id) ==> e.installId == i && e.bundleId == id
  {
    assert FailureKey(i, id)[0] == '\n' && FailureKey(i, id)[1] == 'f';
    if e.Report_? {
      assert SpendKey(e.nonce, e.status, e.bundleId)[1] == 'c';
      if FailureKey(e.installId, e.bundleId) == FailureKey(i, id) {
        FailureKeysAreDistinct(e.installId, e.bundleId, i, id);
      }
    }
  }

  /** What an event can add to the nonces. */
  ghost predicate NewNonce(s: Server, e: Event, key: string) {
    || key in s.cache.nonces
    || (e.OtherNonce? && key == e.key)
    || (e.Report_? && key == SpendKey(e.nonce, e.status, e.bundleId))
    || (e.Report_? && key == FailureKey(e.installId, e.bundleId))
  }

  lemma NoncesComeFromTheEvent(config: Config, hash: Bytes -> string, s: Server, now: int, e: Event)
    ensures forall key | key in Next(config, hash, s, now, e).cache.nonces :: NewNonce(s, e, key)
  {
  }

  /** Nothing new is remembered but that a nonce was spent. */
  ghost predicate OnlySpends(s: Server, t: Server, e: Event)
    requires e.Report_?
  {
    forall key | key in t.cache.nonces :: key in s.cache.nonces || key == SpendKey(e.nonce, e.status, e.bundleId)
  }

  /** A failure that is accepted is counted, or its marker is already there; a marker comes only with a counted failure. */
  lemma FailureIsCountedOrMarked(config: Config, hash: Bytes -> string, s: Server, now: int, e: Event)
    requires Enabled(config, s, now, e) && e.Report_?
    ensures var t := Next(config, hash, s, now, e); var key := FailureKey(e.installId, e.bundleId);
            && (t.spent == s.spent ==> t.counted == s.counted)
            && (t.spent != s.spent ==> t.spent == s.spent + [Spend(e.nonce, e.installId, e.bundleId, e.status, now)])
            && (t.counted != s.counted ==> t.spent != s.spent && t.counted == s.counted + [Report(e.bundleId, e.installId, e.status, now)])
            && (t.counted == s.counted || !IsFailure(e.status) ==> OnlySpends(s, t, e))
            && (t.spent != s.spent && t.counted == s.counted ==>
                  IsFailure(e.status) && (key in s.cache.nonces || key == SpendKey(e.nonce, e.status, e.bundleId)))
  {
  }

  lemma StepKeepsAccounts(config: Config, hash: Bytes -> string, s: Server, now: int, e: Event)
    requires Accounted(s) && Enabled(config, s, now, e) && Tidy(e)
    ensures Accounted(Next(config, hash, s, now, e))
  {
    var t := Next(config, hash, s, now, e);
    NoncesComeFromTheEvent(config, hash, s, now, e);
    if e.Report_? {
      FailureIsCountedOrMarked(config, hash, s, now, e);
      OtherKeysAreNoMarkers(e, e.installId, e.bundleId);
      forall id ensures FailingInstalls(t.counted, id) == SpentInstalls(t.spent, id) {
        OneSpendMore(s.spent, Spend(e.nonce, e.installId, e.bundleId, e.status, now), id);
        OneReportMore(s.counted, Report(e.bundleId, e.installId, e.status, now), id);
      }
      forall i, id | ':' !in i && FailureKey(i, id) in t.cache.nonces ensures i in FailingInstalls(t.counted, id) {
        OtherKeysAreNoMarkers(e, i, id);
        OneReportMore(s.counted, Report(e.bundleId, e.installId, e.status, now), id);
      }
    } else {
      forall i, id | ':' !in i && FailureKey(i, id) in t.cache.nonces ensures i in FailingInstalls(t.counted, id) {
        OtherKeysAreNoMarkers(e, i, id);
      }
    }
  }

  ghost predicate TidyUpTo(events: seq<(int, Event)>, n: nat)
    requires n <= |events|
  {
    forall k | 0 <= k < n :: Tidy(events[k].1)
  }

  lemma {:induction false} EveryFailingInstallIsCounted(config: Config, hash: Bytes -> string, trace: seq<Server>, events: seq<(int, Event)>, n: nat)
    requires Run(config, hash, trace, events) && n <= |events| && TidyUpTo(events, n)
    ensures Accounted(trace[n])
  {
    if n > 0 {
      EveryFailingInstallIsCounted(config, hash, trace, events, n - 1);
      assert StepAt(config, hash, trace, events, n - 1);
      StepKeepsAccounts(config, hash, trace[n - 1], events[n - 1].0, events[n - 1].1);
    }
  }

  /**
   With tidy ids, and within thirty days, the failures counted for a release are exactly the installs that
   reported one and were believed: nobody is counted twice and nobody is left out.
   */
  lemma FailuresAreTheFailingInstalls(config: Config, hash: Bytes -> string, trace: seq<Server>, events: seq<(int, Event)>, n: nat, id: string)
    requires Run(config, hash, trace, events) && n <= |events| && TidyUpTo(events, n)
    requires IsYoung(trace[n], id) && id in trace[n].db.releases
    ensures Failures(trace[n].db.releases[id].adoption) == |SpentInstalls(trace[n].spent, id)|
  {
    EveryFailingInstallIsCounted(config, hash, trace, events, n);
    FailuresCountDistinctInstalls(config, hash, trace, events, n, id);
  }

  // ---- the keys ----------------------------------------------------------

  lemma SplitAtColon(x: string, r: string, y: string, q: string)
    requires ':' !in x && ':' !in y && x + (":" + r) == y + (":" + q)
    ensures x == y && r == q
  {
    var s, t := x + (":" + r), y + (":" + q);
    assert s[|x|] == ':' && t[|y|] == ':';
    assert forall k | 0 <= k < |x| :: s[k] == x[k] && x[k] != ':';
    assert forall k | 0 <= k < |y| :: t[k] == y[k] && y[k] != ':';
    assert |x| == |y|;
    assert x == s[..|x|] && y == t[..|y|];
    assert r == s[|x| + 1..] && q == t[|y| + 1..];
  }

  /** Different reports under colon-free nonces never share a marker, nor share one with a failure. */
  lemma SpendKeysAreDistinct(n: string, s: Status, b: string, m: string, t: Status, c: string, install: string)
    requires ':' !in n && ':' !in m
    ensures SpendKey(n, s, b) == SpendKey(m, t, c) ==> n == m && s == t && b == c
    ensures SpendKey(n, s, b) != FailureKey(install, c)
  {
    var x, y := Text(s) + (":" + b), Text(t) + (":" + c);
    if SpendKey(n, s, b) == SpendKey(m, t, c) {
      assert SpendKey(n, s, b)[|CONFIRM_PREFIX|..] == n + (":" + x);
      assert SpendKey(m, t, c)[|CONFIRM_PREFIX|..] == m + (":" + y);
      SplitAtColon(n, x, m, y);
      SplitAtColon(Text(s), b, Text(t), c);
      assert Text(s)[0] == Text(t)[0];
    }
    assert SpendKey(n, s, b)[1] == 'c' && FailureKey(install, c)[1] == 'f';
  }

  /** Failure markers are distinct when install ids have no colon. */
  lemma FailureKeysAreDistinct(i: string, b: string, j: string, c: string)
    requires ':' !in i && ':' !in j && FailureKey(i, b) == FailureKey(j, c)
    ensures i == j && b == c
  {
    assert FailureKey(i, b)[|FAILURE_PREFIX|..] == i + (":" + b);
    assert FailureKey(j, c)[|FAILURE_PREFIX|..] == j + (":" + c);
    SplitAtColon(i, b, j, c);
  }

  lemma PrefixesCollide(i: string, j: string)
    requires i + ":" <= j
    ensures exists b, c :: FailureKey(i, b) == FailureKey(j, c)
  {
    var b, c := j[|i| + 1..] + ":", "";
    assert j == i + ":" + j[|i| + 1..];
    assert i + (":" + b) == j + (":" + c);
    assert FailureKey(i, b) == FailureKey(j, c);
  }

  lemma CollisionIsAPrefix(i: string, b: string, j: string, c: string)
    requires FailureKey(i, b) == FailureKey(j, c) && |i| < |j|
    ensures i + ":" <= j
  {
    var s, t := i + (":" + b), j + (":" + c);
    assert FailureKey(i, b)[|FAILURE_PREFIX|..] == s && FailureKey(j, c)[|FAILURE_PREFIX|..] == t;
    assert s[..|i| + 1] == i + ":" && t[..|i| + 1] == j[..|i| + 1];
  }

  /**
   The failure markers of two installs can coincide, for some pair of bundles, if and only if one id is the
   other one or continues it after a colon.
   */
  lemma FailureKeysCollideExactly(i: string, j: string)
    ensures (exists b, c :: FailureKey(i, b) == FailureKey(j, c)) <==> i == j || i + ":" <= j || j + ":" <= i
  {
    if b, c :| FailureKey(i, b) == FailureKey(j, c) {
      if |i| < |j| {
        CollisionIsAPrefix(i, b, j, c);
      } else if |j| < |i| {
        CollisionIsAPrefix(j, c, i, b);
      } else {
        assert FailureKey(i, b)[|FAILURE_PREFIX|..] == i + (":" + b);
        assert FailureKey(j, c)[|FAILURE_PREFIX|..] == j + (":" + c);
        assert i == (i + (":" + b))[..|i|] && j == (j + (":" + c))[..|i|];
      }
    }
    if i == j {
      assert FailureKey(i, "") == FailureKey(j, "");
    } else if i + ":" <= j {
      PrefixesCollide(i, j);
    } else if j + ":" <= i {
      PrefixesCollide(j, i);
      var b, c :| FailureKey(j, b) == FailureKey(i, c);
      assert FailureKey(i, c) == FailureKey(j, b);
    }
  }

  lemma FailureKeysCanCollide()
    ensures FailureKey("a:b", "c") == FailureKey("a", "b:c")
  {
    assert "a:b" + (":" + "c") == "a" + (":" + "b:c");
  }
}
