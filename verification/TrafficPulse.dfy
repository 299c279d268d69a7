/** From a request to the idle checker: the proxy's debounced traffic pulses and the sweeper of its cache
    (crates/proxy/src/router.rs:407-420, 530-557), the daemon's batching subscriber
    (crates/daemon/src/tasks/pulse.rs) and the Liquid idle check (crates/daemon/src/tasks/idle.rs:125-143). Times
    are nanoseconds of one clock; the intervals are whole seconds. */
module TrafficPulse {
  import opened Prelude

  const SECOND: nat := 1_000_000_000

  const PENDING_MAX: nat := 10_000

  datatype Config = Config(debounce: nat, window: nat, idleTimeout: nat)   // seconds

  /** `Instant::elapsed().as_secs()`: whole seconds, 0 for an instant in the future. */
  function ElapsedSecs(since: nat, now: nat): nat { if now < since then 0 else (now - since) / SECOND }

  // ---- The proxy's debounce cache ----

  type Cache = map<string, nat>

  predicate IsStale(cache: Cache, slug: string, now: nat, debounce: nat) {
    slug in cache ==> ElapsedSecs(cache[slug], now) >= debounce
  }

  function Swept(cache: Cache, now: nat, debounce: nat): Cache {
    map slug | slug in cache && ElapsedSecs(cache[slug], now) < debounce * 2 :: cache[slug]
  }

  class PulseCache {
    var cache: Cache

    constructor ()
      ensures cache == map[]
    {
      cache := map[];
    }

    /** `maybe_publish_pulse`: check and update under one write lock. */
    method MaybePublishPulse(slug: string, now: nat, debounce: nat) returns (publish: bool)
      modifies this
      ensures publish <==> IsStale(old(cache), slug, now, debounce)
      ensures cache == if publish then old(cache)[slug := now] else old(cache)
    {
      publish := if slug in cache then ElapsedSecs(cache[slug], now) >= debounce else true;
      if publish { cache := cache[slug := now]; }
    }

    /** The sweeper's `retain`. */
    method Sweep(now: nat, debounce: nat)
      modifies this
      ensures cache == Swept(old(cache), now, debounce)
      ensures forall slug :: slug in cache
                <==> slug in old(cache)
                     && var since := old(cache)[slug];
                     if now < since then debounce > 0 else (now - since) / 1_000_000_000 < 2 * debounce
    {
      var left := cache.Keys;
      var kept: Cache := map[];
      while left != {}
        invariant left <= cache.Keys && cache == old(cache)
        invariant kept == map slug | slug in Swept(cache, now, debounce) && slug !in left :: cache[slug]
        decreases |left|
      {
        var slug :| slug in left;
        left := left - {slug};
        if ElapsedSecs(cache[slug], now) < debounce * 2 { kept := kept[slug := cache[slug]]; }
      }
      cache := kept;
    }
  }

  // ---- The daemon's side: pending slugs and service rows ----

  /** `last` is COALESCE(last_request_at, created_at). */
  datatype Row = Row(running: bool, last: nat)

  type Rows = map<string, Row>

  function Received(pending: set<string>, slug: string): set<string> {
    if |pending| < PENDING_MAX then pending + {slug} else pending
  }

  function Touched(rows: Rows, slugs: set<string>, now: nat): Rows {
    map s | s in rows :: if s in slugs && rows[s].running then rows[s].(last := now) else rows[s]
  }

  /** The rows after an idle check: the running ones not requested for `timeout` seconds are stopped. */
  function IdleStopped(rows: Rows, now: nat, timeout: nat): Rows {
    map s | s in rows ::
      if rows[s].running && rows[s].last + timeout * SECOND < now then rows[s].(running := false) else rows[s]
  }

  class PulseSubscriber {
    var pending: set<string>
    var rows: Rows

    /** A pulse is forgotten only while 10,000 other slugs wait, and never displaces one of them. */
    method Receive(slug: string)
      modifies this`pending
      ensures pending == Received(old(pending), slug)
      ensures slug in pending <==> slug in old(pending) || |old(pending)| < 10_000
      ensures pending - {slug} == old(pending) - {slug}
      ensures |old(pending)| <= 10_000 ==> |pending| <= 10_000
    {
      if |pending| < PENDING_MAX { pending := pending + {slug}; }
    }

    /** A flush tick: the pending slugs are drained whether or not the database answers. */
    method Flush(now: nat, dbUp: bool)
      modifies this
      ensures pending == {}
      ensures rows == if dbUp then Touched(old(rows), old(pending), now) else old(rows)
    {
      if pending == {} {
        assert Touched(rows, {}, now) == rows;
        return;
      }
      var slugs := pending;
      pending := {};
      if dbUp {
        rows := map s | s in rows :: if s in slugs && rows[s].running then rows[s].(last := now) else rows[s];
      }
    }

    /** The Liquid part of the idle check; a timeout of 0 disables it. A service that runs goes on running exactly if it
        was requested within the timeout, and none is started; when it was requested stays on record. */
    method IdleCheck(now: nat, timeout: nat, dbUp: bool)
      modifies this`rows
      ensures rows == if timeout > 0 && dbUp then IdleStopped(old(rows), now, timeout) else old(rows)
      ensures rows.Keys == old(rows).Keys && forall s :: s in rows ==> rows[s].last == old(rows)[s].last
      ensures forall s :: s in rows && rows[s].running ==> old(rows)[s].running
      ensures forall s :: s in rows && timeout > 0 && dbUp && now > rows[s].last + timeout * SECOND ==> !rows[s].running
      ensures forall s :: s in rows && now <= rows[s].last + timeout * SECOND ==> rows[s] == old(rows)[s]
    {
      if timeout > 0 && dbUp {
        rows := map s | s in rows ::
          if rows[s].running && rows[s].last + timeout * SECOND < now then rows[s].(running := false) else rows[s];
      }
    }
  }

  // ---- The whole chain as a timeline ----

  /** With prompt delivery and a live database. `SetRunning` is any other change of a service's status, such as a
      provision, a wake from scale-to-zero or a stop. */
  datatype Event =
    | Request(at: nat, slug: string)
    | Sweep(at: nat)
    | Flush(at: nat)
    | IdleCheck(at: nat)
    | SetRunning(at: nat, slug: string, running: bool)

  datatype State = State(cache: Cache, pulses: seq<(string, nat)>, pending: set<string>, rows: Rows)

  function Step(s: State, e: Event, cfg: Config): State {
    match e
    case Request(now, slug) =>
      if !IsStale(s.cache, slug, now, cfg.debounce) then s
      else s.(cache := s.cache[slug := now], pulses := s.pulses + [(slug, now)], pending := Received(s.pending, slug))
    case Sweep(now) => s.(cache := Swept(s.cache, now, cfg.debounce))
    case Flush(now) => s.(pending := {}, rows := Touched(s.rows, s.pending, now))
    case IdleCheck(now) => if cfg.idleTimeout > 0 then s.(rows := IdleStopped(s.rows, now, cfg.idleTimeout)) else s
    case SetRunning(now, slug, running) =>
      s.(rows := s.rows[slug := Row(running, if slug in s.rows then s.rows[slug].last else now)])
  }

  function Start(rows: Rows): State { State(map[], [], {}, rows) }

  function After(rows: Rows, events: seq<Event>, cfg: Config): State {
    if events == [] then Start(rows)
    else Step(After(rows, events[..|events| - 1], cfg), events[|events| - 1], cfg)
  }

  predicate Monotone(events: seq<Event>) { forall i, j :: 0 <= i <= j < |events| ==> events[i].at <= events[j].at }

  /** Everything that has happened happened by `now`. */
  predicate NotLaterThan(events: seq<Event>, now: nat) { events != [] ==> events[|events| - 1].at <= now }

  lemma Before(events: seq<Event>)
    requires Monotone(events) && events != []
    ensures Monotone(events[..|events| - 1])
    ensures NotLaterThan(events[..|events| - 1], events[|events| - 1].at)
  {
  }

  // ---- The sweeper is invisible ----

  function Unswept(events: seq<Event>): seq<Event> {
    if events == [] then []
    else
      var last := events[|events| - 1];
      Unswept(events[..|events| - 1]) + if last.Sweep? then [] else [last]
  }

  /** A swept cache and one that never was: what is missing had expired. */
  ghost predicate AgreeUpToExpired(swept: Cache, full: Cache, now: nat, debounce: nat) {
    && (forall s :: s in swept ==> s in full && full[s] == swept[s])
    && (forall s :: s in full && s !in swept ==> ElapsedSecs(full[s], now) >= debounce)
    && (forall s :: s in full ==> full[s] <= now)
  }

  lemma LaterElapsedMore(since: nat, now: nat, later: nat)
    requires now <= later
    ensures ElapsedSecs(since, now) <= ElapsedSecs(since, later)
  {
    if since <= now { assert (now - since) / SECOND <= (later - since) / SECOND; }
  }

  lemma AgreementAges(swept: Cache, full: Cache, now: nat, later: nat, debounce: nat)
    requires AgreeUpToExpired(swept, full, now, debounce) && now <= later
    ensures AgreeUpToExpired(swept, full, later, debounce)
  {
    forall s | s in full && s !in swept ensures ElapsedSecs(full[s], later) >= debounce {
      LaterElapsedMore(full[s], now, later);
    }
  }

  /** Two states that differ at most in what their caches have forgotten. */
  ghost predicate Agree(swept: State, full: State, now: nat, debounce: nat) {
    && AgreeUpToExpired(swept.cache, full.cache, now, debounce)
    && swept == full.(cache := swept.cache)
  }

  lemma StepAgrees(swept: State, full: State, e: Event, cfg: Config)
    requires Agree(swept, full, e.at, cfg.debounce) && !e.Sweep?
    ensures Agree(Step(swept, e, cfg), Step(full, e, cfg), e.at, cfg.debounce)
  {
    if e.Request? {
      assert IsStale(swept.cache, e.slug, e.at, cfg.debounce) <==> IsStale(full.cache, e.slug, e.at, cfg.debounce);
    }
  }

  lemma SweepAgrees(swept: State, full: State, at: nat, cfg: Config)
    requires Agree(swept, full, at, cfg.debounce)
    ensures Agree(Step(swept, Sweep(at), cfg), full, at, cfg.debounce)
  {
    var cache := Swept(swept.cache, at, cfg.debounce);
    forall s | s in full.cache && s !in cache ensures ElapsedSecs(full.cache[s], at) >= cfg.debounce {
      if s in swept.cache { assert ElapsedSecs(swept.cache[s], at) >= cfg.debounce * 2; }
    }
  }

  lemma UnsweptRun(rows: Rows, events: seq<Event>, cfg: Config)
    requires events != []
    ensures var last, full := events[|events| - 1], After(rows, Unswept(events[..|events| - 1]), cfg);
            After(rows, Unswept(events), cfg) == if last.Sweep? then full else Step(full, last, cfg)
  {
    var init, last := events[..|events| - 1], events[|events| - 1];
    if last.Sweep? {
      assert Unswept(events) == Unswept(init);
    } else {
      assert Unswept(events)[..|Unswept(events)| - 1] == Unswept(init);
    }
  }

  lemma {:induction false} SweepingAgrees(rows: Rows, events: seq<Event>, cfg: Config, now: nat)
    requires Monotone(events) && NotLaterThan(events, now)
    ensures Agree(After(rows, events, cfg), After(rows, Unswept(events), cfg), now, cfg.debounce)
    decreases |events|
  {
    if events != [] {
      var init, last := events[..|events| - 1], events[|events| - 1];
      Before(events);
      SweepingAgrees(rows, init, cfg, last.at);
      UnsweptRun(rows, events, cfg);
      var swept, full := After(rows, init, cfg), After(rows, Unswept(init), cfg);
      if last.Sweep? { SweepAgrees(swept, full, last.at, cfg); } else { StepAgrees(swept, full, last, cfg); }
      AgreementAges(After(rows, events, cfg).cache, After(rows, Unswept(events), cfg).cache, last.at, now,
                    cfg.debounce);
    }
  }

  /** For any schedule of requests and sweeps under a monotone clock, the published pulses, and with them everything
      downstream, are those of a cache that is never swept. */
  lemma SweeperIsInvisible(rows: Rows, events: seq<Event>, cfg: Config)
    requires Monotone(events)
    ensures var swept, full := After(rows, events, cfg), After(rows, Unswept(events), cfg);
            swept.pulses == full.pulses && swept.pending == full.pending && swept.rows == full.rows
  {
    SweepingAgrees(rows, events, cfg, if events == [] then 0 else events[|events| - 1].at);
  }

  // ---- Pulses are spaced, and every request is covered by one ----

  /** What the cache holds was published, and a pulse newer than what it holds for the slug has expired. */
  ghost predicate Remembers(s: State, now: nat, debounce: nat) {
    && (forall slug :: slug in s.cache ==> (slug, s.cache[slug]) in s.pulses)
    && (forall k :: 0 <= k < |s.pulses| ==> Known(s.cache, s.pulses[k], now, debounce))
  }

  predicate Known(cache: Cache, pulse: (string, nat), now: nat, debounce: nat) {
    && pulse.1 <= now
    && ((pulse.0 in cache && pulse.1 <= cache[pulse.0]) || ElapsedSecs(pulse.1, now) >= debounce)
  }

  ghost predicate Spaced(pulses: seq<(string, nat)>, debounce: nat) {
    forall i, j :: 0 <= i < j < |pulses| && pulses[i].0 == pulses[j].0
      ==> pulses[j].1 - pulses[i].1 >= debounce * SECOND
  }

  /** A pulse is only published when every earlier one of its slug has expired. */
  lemma StaleMeansExpired(cache: Cache, pulse: (string, nat), now: nat, debounce: nat)
    requires Known(cache, pulse, now, debounce) && IsStale(cache, pulse.0, now, debounce)
    ensures now - pulse.1 >= debounce * SECOND
  {
    if pulse.0 in cache && pulse.1 <= cache[pulse.0] && cache[pulse.0] <= now {
      assert (now - cache[pulse.0]) / SECOND <= (now - pulse.1) / SECOND;
    }
  }

  lemma PublishRemembers(s: State, at: nat, slug: string, cfg: Config)
    requires Remembers(s, at, cfg.debounce) && Spaced(s.pulses, cfg.debounce)
    requires IsStale(s.cache, slug, at, cfg.debounce)
    ensures Remembers(Step(s, Request(at, slug), cfg), at, cfg.debounce)
    ensures Spaced(Step(s, Request(at, slug), cfg).pulses, cfg.debounce)
  {
    var s' := Step(s, Request(at, slug), cfg);
    assert s'.pulses[|s.pulses|] == (slug, at);
    forall k | 0 <= k < |s.pulses| && s.pulses[k].0 == slug ensures at - s.pulses[k].1 >= cfg.debounce * SECOND {
      StaleMeansExpired(s.cache, s.pulses[k], at, cfg.debounce);
    }
    forall k | 0 <= k < |s'.pulses| ensures Known(s'.cache, s'.pulses[k], at, cfg.debounce) {
      if k < |s.pulses| { assert Known(s.cache, s.pulses[k], at, cfg.debounce); }
    }
    forall x | x in s'.cache ensures (x, s'.cache[x]) in s'.pulses {
      if x != slug { assert (x, s.cache[x]) in s.pulses; }
    }
  }

  lemma SweepRemembers(s: State, at: nat, cfg: Config)
    requires Remembers(s, at, cfg.debounce)
    ensures Remembers(Step(s, Sweep(at), cfg), at, cfg.debounce)
  {
    var cache := Swept(s.cache, at, cfg.debounce);
    forall k | 0 <= k < |s.pulses| ensures Known(cache, s.pulses[k], at, cfg.debounce) {
      var pulse := s.pulses[k];
      assert Known(s.cache, pulse, at, cfg.debounce);
      if pulse.0 in s.cache && pulse.0 !in cache && pulse.1 <= s.cache[pulse.0] && s.cache[pulse.0] <= at {
        assert (at - s.cache[pulse.0]) / SECOND <= (at - pulse.1) / SECOND;
      }
    }
  }

  lemma StepRemembers(s: State, e: Event, cfg: Config)
    requires Remembers(s, e.at, cfg.debounce) && Spaced(s.pulses, cfg.debounce)
    ensures Remembers(Step(s, e, cfg), e.at, cfg.debounce) && Spaced(Step(s, e, cfg).pulses, cfg.debounce)
  {
    if e.Request? && IsStale(s.cache, e.slug, e.at, cfg.debounce) {
      PublishRemembers(s, e.at, e.slug, cfg);
    } else if e.Sweep? {
      SweepRemembers(s, e.at, cfg);
    }
  }

  lemma RememberingAges(s: State, now: nat, later: nat, debounce: nat)
    requires Remembers(s, now, debounce) && now <= later
    ensures Remembers(s, later, debounce)
  {
    forall k | 0 <= k < |s.pulses| ensures Known(s.cache, s.pulses[k], later, debounce) {
      assert Known(s.cache, s.pulses[k], now, debounce);
      LaterElapsedMore(s.pulses[k].1, now, later);
    }
  }

  lemma {:induction false} RunRemembers(rows: Rows, events: seq<Event>, cfg: Config, now: nat)
    requires Monotone(events) && NotLaterThan(events, now)
    ensures Remembers(After(rows, events, cfg), now, cfg.debounce)
    ensures Spaced(After(rows, events, cfg).pulses, cfg.debounce)
    decreases |events|
  {
    if events != [] {
      var last := events[|events| - 1];
      Before(events);
      RunRemembers(rows, events[..|events| - 1], cfg, last.at);
      StepRemembers(After(rows, events[..|events| - 1], cfg), last, cfg);
      RememberingAges(After(rows, events, cfg), last.at, now, cfg.debounce);
    }
  }

  /** Pulses of one slug are at least the debounce interval apart. */
  lemma PulsesAreSpaced(rows: Rows, events: seq<Event>, cfg: Config)
    requires Monotone(events)
    ensures Spaced(After(rows, events, cfg).pulses, cfg.debounce)
  {
    RunRemembers(rows, events, cfg, if events == [] then 0 else events[|events| - 1].at);
  }

  /** `p` lies in the debounce interval that ends at `t` (or at `t` itself when there is no debounce). */
  predicate Covers(p: nat, t: nat, debounce: nat) { p <= t && (p == t || t - p < debounce * SECOND) }

  /** Every request is covered by a pulse of its slug. */
  lemma RequestsAreCovered(rows: Rows, events: seq<Event>, cfg: Config, i: nat)
    requires Monotone(events) && i < |events| && events[i].Request?
    ensures exists p :: (events[i].slug, p) in After(rows, events[..i + 1], cfg).pulses
              && Covers(p, events[i].at, cfg.debounce)
  {
    var t, slug := events[i].at, events[i].slug;
    assert events[..i + 1][..i] == events[..i];
    RunRemembers(rows, events[..i], cfg, t);
    var s := After(rows, events[..i], cfg);
    var s' := After(rows, events[..i + 1], cfg);
    assert s' == Step(s, events[i], cfg);
    if IsStale(s.cache, slug, t, cfg.debounce) {
      assert s'.pulses[|s.pulses|] == (slug, t);
    } else {
      assert (slug, s.cache[slug]) in s'.pulses;
    }
  }

  // ---- A request protects a running service from the idle check ----

  predicate IsRunning(s: State, slug: string) { slug in s.rows && s.rows[slug].running }

  ghost predicate FlushIn(events: seq<Event>, i: int, j: int) {
    exists f :: 0 <= i < f <= j < |events| && events[f].Flush?
  }

  /** A flush happens after any event and no later than any other that is at least the window later. */
  ghost predicate FlushesInTime(events: seq<Event>, window: nat) {
    forall i, j {:trigger FlushIn(events, i, j)} ::
      0 <= i < j < |events| && events[i].at + window * SECOND <= events[j].at ==> FlushIn(events, i, j)
  }

  /** The cap on pending slugs is never reached. */
  ghost predicate BelowCap(rows: Rows, events: seq<Event>, cfg: Config) {
    forall n: nat :: n <= |events| ==> |After(rows, events[..n], cfg).pending| < PENDING_MAX
  }

  /** The service runs at every flush of the debounce interval that ends at `t`, and at the later ones. */
  ghost predicate RunningWhenFlushed(rows: Rows, events: seq<Event>, cfg: Config, slug: string, t: nat) {
    forall f: nat :: f < |events| && events[f].Flush? && (t <= events[f].at || t < events[f].at + cfg.debounce * SECOND)
      ==> IsRunning(After(rows, events[..f], cfg), slug)
  }

  predicate TouchedSince(s: State, slug: string, p: nat) { slug in s.rows && s.rows[slug].last >= p }

  /** A covering pulse is still pending, or the row has been touched since. */
  predicate Noted(s: State, slug: string, p: nat) { slug in s.pending || TouchedSince(s, slug, p) }

  lemma Unfold(rows: Rows, events: seq<Event>, cfg: Config, n: nat)
    requires Monotone(events) && n < |events|
    ensures After(rows, events[..n + 1], cfg) == Step(After(rows, events[..n], cfg), events[n], cfg)
    ensures Monotone(events[..n]) && NotLaterThan(events[..n], events[n].at)
  {
    assert events[..n + 1][..n] == events[..n];
  }

  /** No step but a flush takes a slug out of the pending set, and none sets a row back in time. */
  lemma StepNotes(s: State, e: Event, cfg: Config, slug: string, p: nat)
    requires Noted(s, slug, p) && p <= e.at && (e.Flush? ==> IsRunning(s, slug))
    ensures Noted(Step(s, e, cfg), slug, p)
  {
  }

  lemma StepKeepsTouched(s: State, e: Event, cfg: Config, slug: string, p: nat)
    requires TouchedSince(s, slug, p) && p <= e.at
    ensures TouchedSince(Step(s, e, cfg), slug, p)
  {
  }

  /** A step publishes at most one pulse, for the request it serves, which is then pending. */
  lemma StepPublishes(s: State, e: Event, cfg: Config, slug: string, p: nat)
    requires (slug, p) in Step(s, e, cfg).pulses && (slug, p) !in s.pulses && |s.pending| < PENDING_MAX
    ensures e == Request(p, slug) && Noted(Step(s, e, cfg), slug, p)
  {
  }

  lemma {:induction false} NotedOnce(rows: Rows, events: seq<Event>, cfg: Config, slug: string, t: nat, p: nat, n: nat)
    requires Monotone(events) && n <= |events| && BelowCap(rows, events, cfg)
    requires RunningWhenFlushed(rows, events, cfg, slug, t) && Covers(p, t, cfg.debounce)
    requires (slug, p) in After(rows, events[..n], cfg).pulses
    ensures Noted(After(rows, events[..n], cfg), slug, p)
    decreases n
  {
    if n > 0 {
      var s, e := After(rows, events[..n - 1], cfg), events[n - 1];
      Unfold(rows, events, cfg, n - 1);
      if (slug, p) in s.pulses {
        NotedOnce(rows, events, cfg, slug, t, p, n - 1);
        PublishedBefore(rows, events, cfg, slug, p, n - 1);
        StepNotes(s, e, cfg, slug, p);
      } else {
        StepPublishes(s, e, cfg, slug, p);
      }
    }
  }

  lemma PublishedBefore(rows: Rows, events: seq<Event>, cfg: Config, slug: string, p: nat, n: nat)
    requires Monotone(events) && n < |events| && (slug, p) in After(rows, events[..n], cfg).pulses
    ensures p <= events[n].at
  {
    Unfold(rows, events, cfg, n);
    RunRemembers(rows, events[..n], cfg, events[n].at);
    var s := After(rows, events[..n], cfg);
    var k :| 0 <= k < |s.pulses| && s.pulses[k] == (slug, p);
    assert Known(s.cache, s.pulses[k], events[n].at, cfg.debounce);
  }

  lemma {:induction false} StaysTouched(rows: Rows, events: seq<Event>, cfg: Config, slug: string, p: nat,
                                        m: nat, n: nat)
    requires Monotone(events) && m <= n <= |events| && (forall k :: m <= k < n ==> p <= events[k].at)
    requires TouchedSince(After(rows, events[..m], cfg), slug, p)
    ensures TouchedSince(After(rows, events[..n], cfg), slug, p)
    decreases n
  {
    if n > m {
      StaysTouched(rows, events, cfg, slug, p, m, n - 1);
      Unfold(rows, events, cfg, n - 1);
      StepKeepsTouched(After(rows, events[..n - 1], cfg), events[n - 1], cfg, slug, p);
    }
  }

  lemma {:induction false} PulsesStay(rows: Rows, events: seq<Event>, cfg: Config, pulse: (string, nat), m: nat, n: nat)
    requires Monotone(events) && m <= n <= |events| && pulse in After(rows, events[..m], cfg).pulses
    ensures pulse in After(rows, events[..n], cfg).pulses
    decreases n
  {
    if m < n {
      PulsesStay(rows, events, cfg, pulse, m, n - 1);
      Unfold(rows, events, cfg, n - 1);
    }
  }

  /** After a flush at `f` of a pulse noted for a running service, the row is at least as recent as the pulse. */
  lemma FlushTouches(rows: Rows, events: seq<Event>, cfg: Config, slug: string, t: nat, p: nat, f: nat)
    requires Monotone(events) && f < |events| && events[f].Flush? && p <= t <= events[f].at
    requires RunningWhenFlushed(rows, events, cfg, slug, t) && Noted(After(rows, events[..f], cfg), slug, p)
    ensures TouchedSince(After(rows, events[..f + 1], cfg), slug, p)
  {
    Unfold(rows, events, cfg, f);
    assert IsRunning(After(rows, events[..f], cfg), slug);
  }

  /** An idle check stops only the services not touched for the timeout. */
  lemma TouchedRowsSurvive(s: State, at: nat, cfg: Config, slug: string, p: nat)
    requires IsRunning(s, slug) && TouchedSince(s, slug, p) && at <= p + cfg.idleTimeout * SECOND
    ensures IsRunning(Step(s, IdleCheck(at), cfg), slug)
  {
  }

  lemma TouchedFromFlushOn(rows: Rows, events: seq<Event>, cfg: Config, slug: string, t: nat, p: nat, f: nat, j: nat)
    requires Monotone(events) && f < j < |events| && events[f].Flush? && p <= t <= events[f].at
    requires RunningWhenFlushed(rows, events, cfg, slug, t) && Noted(After(rows, events[..f], cfg), slug, p)
    ensures TouchedSince(After(rows, events[..j], cfg), slug, p)
  {
    FlushTouches(rows, events, cfg, slug, t, p, f);
    StaysTouched(rows, events, cfg, slug, p, f + 1, j);
  }

  /** A flush at `f` records the request at `i`: the row is touched at or after a pulse that covers the request. */
  lemma RequestIsRecorded(rows: Rows, events: seq<Event>, cfg: Config, i: nat, f: nat, j: nat) returns (p: nat)
    requires Monotone(events) && BelowCap(rows, events, cfg)
    requires i < f < j < |events| && events[i].Request? && events[f].Flush?
    requires RunningWhenFlushed(rows, events, cfg, events[i].slug, events[i].at)
    ensures Covers(p, events[i].at, cfg.debounce) && TouchedSince(After(rows, events[..j], cfg), events[i].slug, p)
  {
    RequestsAreCovered(rows, events, cfg, i);
    p :| (events[i].slug, p) in After(rows, events[..i + 1], cfg).pulses && Covers(p, events[i].at, cfg.debounce);
    PulsesStay(rows, events, cfg, (events[i].slug, p), i + 1, f);
    NotedOnce(rows, events, cfg, events[i].slug, events[i].at, p, f);
    TouchedFromFlushOn(rows, events, cfg, events[i].slug, events[i].at, p, f, j);
  }

  lemma FlushBetween(events: seq<Event>, window: nat, i: nat, j: nat) returns (f: nat)
    requires FlushesInTime(events, window) && i < j < |events| && !events[j].Flush?
    requires events[i].at + window * SECOND <= events[j].at
    ensures i < f < j && events[f].Flush?
  {
    assert FlushIn(events, i, j);
    f :| i < f <= j && events[f].Flush?;
  }

  lemma RecordedRequestProtects(rows: Rows, events: seq<Event>, cfg: Config, i: nat, f: nat, j: nat)
    requires Monotone(events) && BelowCap(rows, events, cfg)
    requires i < f < j < |events| && events[i].Request? && events[f].Flush? && events[j].IdleCheck?
    requires events[j].at + cfg.debounce * SECOND <= events[i].at + cfg.idleTimeout * SECOND
    requires RunningWhenFlushed(rows, events, cfg, events[i].slug, events[i].at)
    requires IsRunning(After(rows, events[..j], cfg), events[i].slug)
    ensures IsRunning(After(rows, events[..j + 1], cfg), events[i].slug)
  {
    var p := RequestIsRecorded(rows, events, cfg, i, f, j);
    Unfold(rows, events, cfg, j);
    TouchedRowsSurvive(After(rows, events[..j], cfg), events[j].at, cfg, events[i].slug, p);
  }

  /** A request at time `t` protects a service that runs whenever a flush of its interval happens: no idle check in
      [t + window, t + timeout - debounce] stops it. */
  lemma RequestProtectsFromIdleStop(rows: Rows, events: seq<Event>, cfg: Config, i: nat, j: nat)
    requires Monotone(events) && FlushesInTime(events, cfg.window) && BelowCap(rows, events, cfg)
    requires i < j < |events| && events[i].Request? && events[j].IdleCheck?
    requires events[i].at + cfg.window * SECOND <= events[j].at
    requires events[j].at + cfg.debounce * SECOND <= events[i].at + cfg.idleTimeout * SECOND
    requires RunningWhenFlushed(rows, events, cfg, events[i].slug, events[i].at)
    requires IsRunning(After(rows, events[..j], cfg), events[i].slug)
    ensures IsRunning(After(rows, events[..j + 1], cfg), events[i].slug)
  {
    var f := FlushBetween(events, cfg.window, i, j);
    RecordedRequestProtects(rows, events, cfg, i, f, j);
  }

  // ---- Exactly what spares a service ----

  /** A timeout of 0 disables the check. */
  lemma DisabledCheckStopsNothing(s: State, at: nat, cfg: Config)
    requires cfg.idleTimeout == 0
    ensures Step(s, IdleCheck(at), cfg) == s
  {
  }

  /** The steps that set a row's time: a flush of a pulse for a running service, and the row's creation. */
  predicate Touches(s: State, e: Event, slug: string) {
    (e.Flush? && slug in s.pending && IsRunning(s, slug)) || (e.SetRunning? && e.slug == slug && slug !in s.rows)
  }

  ghost predicate TouchedAt(rows: Rows, events: seq<Event>, cfg: Config, slug: string, f: nat, time: nat)
    requires f < |events|
  {
    Touches(After(rows, events[..f], cfg), events[f], slug) && events[f].at == time
  }

  lemma StepTouches(s: State, e: Event, cfg: Config, slug: string)
    requires slug in Step(s, e, cfg).rows
    ensures var last := Step(s, e, cfg).rows[slug].last;
            if Touches(s, e, slug) then last == e.at else slug in s.rows && last == s.rows[slug].last
  {
  }

  /** A row's time is the one it started with or that of some step that touched it. */
  lemma {:induction false} LastIsATouch(rows: Rows, events: seq<Event>, cfg: Config, slug: string, n: nat)
    requires Monotone(events) && n <= |events| && slug in After(rows, events[..n], cfg).rows
    ensures var last := After(rows, events[..n], cfg).rows[slug].last;
            || (slug in rows && last == rows[slug].last)
            || exists f: nat :: f < n && TouchedAt(rows, events, cfg, slug, f, last)
    decreases n
  {
    if n > 0 {
      Unfold(rows, events, cfg, n - 1);
      var s := After(rows, events[..n - 1], cfg);
      StepTouches(s, events[n - 1], cfg, slug);
      if Touches(s, events[n - 1], slug) {
        assert TouchedAt(rows, events, cfg, slug, n - 1, events[n - 1].at);
      } else {
        LastIsATouch(rows, events, cfg, slug, n - 1);
      }
    }
  }

  /** A time that spares the service at the check `j`. */
  predicate Recent(time: nat, events: seq<Event>, cfg: Config, j: nat)
    requires j < |events|
  {
    events[j].at <= time + cfg.idleTimeout * SECOND
  }

  lemma TouchSpares(rows: Rows, events: seq<Event>, cfg: Config, slug: string, f: nat, j: nat)
    requires Monotone(events) && f < j < |events| && events[j].IdleCheck? && Recent(events[f].at, events, cfg, j)
    requires Touches(After(rows, events[..f], cfg), events[f], slug) && IsRunning(After(rows, events[..j], cfg), slug)
    ensures IsRunning(After(rows, events[..j + 1], cfg), slug)
  {
    Unfold(rows, events, cfg, f);
    Unfold(rows, events, cfg, j);
    StaysTouched(rows, events, cfg, slug, events[f].at, f + 1, j);
    TouchedRowsSurvive(After(rows, events[..j], cfg), events[j].at, cfg, slug, events[f].at);
  }

  /** An idle check spares a running service if and only if the row it started from is recent, or it was touched
      within the timeout: created, or flushed from the pending set while running. */
  lemma SparedIffTouched(rows: Rows, events: seq<Event>, cfg: Config, slug: string, j: nat)
    requires Monotone(events) && j < |events| && events[j].IdleCheck? && cfg.idleTimeout > 0
    requires IsRunning(After(rows, events[..j], cfg), slug)
    requires slug in rows ==> forall k :: 0 <= k < |events| ==> rows[slug].last <= events[k].at
    ensures IsRunning(After(rows, events[..j + 1], cfg), slug)
       <==> (|| (slug in rows && Recent(rows[slug].last, events, cfg, j))
             || exists f: nat :: f < j && Recent(events[f].at, events, cfg, j)
                   && Touches(After(rows, events[..f], cfg), events[f], slug))
  {
    var s := After(rows, events[..j], cfg);
    Unfold(rows, events, cfg, j);
    LastIsATouch(rows, events, cfg, slug, j);
    assert IsRunning(After(rows, events[..j + 1], cfg), slug) <==> Recent(s.rows[slug].last, events, cfg, j);
    if slug in rows && Recent(rows[slug].last, events, cfg, j) {
      StaysTouched(rows, events, cfg, slug, rows[slug].last, 0, j);
    }
    forall f: nat | f < j && Recent(events[f].at, events, cfg, j)
        && Touches(After(rows, events[..f], cfg), events[f], slug)
      ensures IsRunning(After(rows, events[..j + 1], cfg), slug)
    {
      TouchSpares(rows, events, cfg, slug, f, j);
    }
  }

  // ---- A service woken inside the debounce interval is not protected ----

  const DEFAULTS: Config := Config(30, 5, 300)

  /** Scaled to zero at the start, with its last request long ago. Its first request publishes a pulse, which is
      flushed while the service still wakes and is lost; the next request is debounced. */
  function ColdRows(slug: string): Rows { map[slug := Row(false, 0)] }

  function ColdWake(slug: string): seq<Event> {
    [Request(1000 * SECOND, slug), Flush(1003 * SECOND), SetRunning(1004 * SECOND, slug, true),
     Request(1005 * SECOND, slug), Flush(1008 * SECOND), IdleCheck(1010 * SECOND)]
  }

  lemma AfterSnoc(rows: Rows, events: seq<Event>, e: Event, cfg: Config)
    ensures After(rows, events + [e], cfg) == Step(After(rows, events, cfg), e, cfg)
  {
    assert (events + [e])[..|events + [e]| - 1] == events;
  }

  /** The states of the run, by the number of events that have happened. */
  function ColdState(slug: string, n: nat): State {
    var cache: Cache := map[slug := 1000 * SECOND];
    State(if n == 0 then map[] else cache, if n == 0 then [] else [(slug, 1000 * SECOND)],
          if n == 1 then {slug} else {}, map[slug := Row(3 <= n < 6, 0)])
  }

  lemma ColdStep(slug: string, n: nat)
    requires n < 6
    ensures Step(ColdState(slug, n), ColdWake(slug)[n], DEFAULTS) == ColdState(slug, n + 1)
  {
    if n == 1 { assert Touched(map[slug := Row(false, 0)], {slug}, 1003 * SECOND) == map[slug := Row(false, 0)]; }
    if n == 4 { assert Touched(map[slug := Row(true, 0)], {}, 1008 * SECOND) == map[slug := Row(true, 0)]; }
    if n == 5 {
      assert IdleStopped(map[slug := Row(true, 0)], 1010 * SECOND, 300) == map[slug := Row(false, 0)];
    }
  }

  lemma {:induction false} ColdRun(slug: string, n: nat)
    requires n <= 6
    ensures After(ColdRows(slug), ColdWake(slug)[..n], DEFAULTS) == ColdState(slug, n)
  {
    if n > 0 {
      ColdRun(slug, n - 1);
      ColdStep(slug, n - 1);
      assert ColdWake(slug)[..n] == ColdWake(slug)[..n - 1] + [ColdWake(slug)[n - 1]];
      AfterSnoc(ColdRows(slug), ColdWake(slug)[..n - 1], ColdWake(slug)[n - 1], DEFAULTS);
    }
  }

  lemma ColdIsOnTime(slug: string)
    ensures Monotone(ColdWake(slug)) && FlushesInTime(ColdWake(slug), DEFAULTS.window)
  {
    var events := ColdWake(slug);
    assert events[1].Flush? && events[4].Flush?;
    forall i, j | 0 <= i < j < |events| && events[i].at + DEFAULTS.window * SECOND <= events[j].at
      ensures FlushIn(events, i, j)
    {
      assert i < 1 <= j || i < 4 <= j;
    }
  }

  lemma ColdIsBelowCap(slug: string)
    ensures BelowCap(ColdRows(slug), ColdWake(slug), DEFAULTS)
  {
    forall n: nat | n <= |ColdWake(slug)|
      ensures |After(ColdRows(slug), ColdWake(slug)[..n], DEFAULTS).pending| < PENDING_MAX
    {
      ColdRun(slug, n);
    }
  }

  /** The guarantee fails without the condition on flushes: the request at 1005 s goes to a running service, flushes
      are on time and the cap is far, and yet the check at 1010 s = t + window stops the service. */
  lemma WokenServiceIsNotProtected(slug: string)
    ensures var rows, events := ColdRows(slug), ColdWake(slug);
            && Monotone(events) && FlushesInTime(events, DEFAULTS.window) && BelowCap(rows, events, DEFAULTS)
            && events[3] == Request(1005 * SECOND, slug) && IsRunning(After(rows, events[..3], DEFAULTS), slug)
            && events[5] == IdleCheck((1005 + DEFAULTS.window) * SECOND)
            && IsRunning(After(rows, events[..5], DEFAULTS), slug)
            && !IsRunning(After(rows, events[..6], DEFAULTS), slug)
  {
    ColdIsOnTime(slug);
    ColdIsBelowCap(slug);
    ColdRun(slug, 3);
    ColdRun(slug, 5);
    ColdRun(slug, 6);
  }
}
