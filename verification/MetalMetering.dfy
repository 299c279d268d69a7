/** Metering of Metal invocations in the proxy (crates/proxy/src/router.rs:299-305, 340-404, 449-480): counters per
    slug, and a flusher that drains them, publishes and keeps what could not be published for the next tick. */
module MetalMetering {
  import opened Prelude

  const BACKLOG_MAX: nat := 1000

  datatype Counter = Counter(service: string, workspace: string, invocations: nat, millis: nat)

  /** A drained counter on its way to billing, with the slug it was counted under and the tick that drained it. */
  datatype Usage = Usage(tick: nat, slug: string, service: string, workspace: string, invocations: nat, millis: nat)

  datatype State = State(counters: map<string, Counter>, tick: nat, published: seq<Usage>, backlog: seq<Usage>,
                         dropped: seq<Usage>)

  // ---- Counting ----

  function Counted(s: State, slug: string, service: string, workspace: string): State {
    if slug in s.counters
    then s.(counters := s.counters[slug := s.counters[slug].(invocations := s.counters[slug].invocations + 1)])
    else s.(counters := s.counters[slug := Counter(service, workspace, 1, 0)])
  }

  function TryCounted(s: State, slug: string): State {
    if slug in s.counters
    then s.(counters := s.counters[slug := s.counters[slug].(invocations := s.counters[slug].invocations + 1)]) else s
  }

  function Logged(s: State, slug: string, elapsed: nat): State {
    if slug in s.counters
    then s.(counters := s.counters[slug := s.counters[slug].(millis := s.counters[slug].millis + elapsed)]) else s
  }

  // ---- One flush ----

  function Drain(c: Counter, slug: string, tick: nat): seq<Usage> {
    if c.invocations > 0 || c.millis > 0
    then [Usage(tick, slug, c.service, c.workspace, c.invocations, c.millis)] else []
  }

  /** What the counters hold, in the order in which the map is visited. */
  function Snapshot(counters: map<string, Counter>, order: seq<string>, tick: nat): seq<Usage>
    requires forall slug :: slug in order ==> slug in counters
  {
    if order == [] then []
    else
      var last := order[|order| - 1];
      Snapshot(counters, order[..|order| - 1], tick) + Drain(counters[last], last, tick)
  }

  function Zeroed(counters: map<string, Counter>, slugs: seq<string>): map<string, Counter> {
    map slug | slug in counters ::
      if slug in slugs then counters[slug].(invocations := 0, millis := 0) else counters[slug]
  }

  /** The events whose publish went as `want` says. */
  function Pick(events: seq<Usage>, oks: seq<bool>, want: bool): seq<Usage>
    requires |events| <= |oks|
  {
    if events == [] then []
    else
      var n := |events| - 1;
      Pick(events[..n], oks, want) + if oks[n] == want then [events[n]] else []
  }

  /** How many events the cap drops from the front. */
  function Excess(events: seq<Usage>): nat {
    if |events| > BACKLOG_MAX then |events| - BACKLOG_MAX else 0
  }

  ghost predicate IsFlush(s: State, order: seq<string>, retried: seq<bool>, sent: seq<bool>) {
    IsIteration(order, s.counters) && |retried| == |s.backlog| && |sent| == |order|
  }

  lemma SnapshotIsShort(counters: map<string, Counter>, order: seq<string>, tick: nat)
    requires forall slug :: slug in order ==> slug in counters
    ensures |Snapshot(counters, order, tick)| <= |order|
  {
  }

  /** What could not be published, old before new. */
  function Failed(s: State, order: seq<string>, retried: seq<bool>, sent: seq<bool>): seq<Usage>
    requires (forall slug :: slug in order ==> slug in s.counters) && |retried| == |s.backlog| && |sent| == |order|
  {
    SnapshotIsShort(s.counters, order, s.tick);
    Pick(s.backlog, retried, false) + Pick(Snapshot(s.counters, order, s.tick), sent, false)
  }

  function Flushed(s: State, order: seq<string>, retried: seq<bool>, sent: seq<bool>): State
    requires (forall slug :: slug in order ==> slug in s.counters) && |retried| == |s.backlog| && |sent| == |order|
  {
    var snapshot := Snapshot(s.counters, order, s.tick);
    SnapshotIsShort(s.counters, order, s.tick);
    var failed := Failed(s, order, retried, sent);
    State(Zeroed(s.counters, order), s.tick + 1,
          s.published + Pick(s.backlog, retried, true) + Pick(snapshot, sent, true),
          failed[Excess(failed)..], s.dropped + failed[..Excess(failed)])
  }

  lemma OneMoreDrained(counters: map<string, Counter>, order: seq<string>, n: nat, tick: nat)
    requires (forall slug :: slug in order ==> slug in counters) && Distinct(order) && n < |order|
    ensures Snapshot(counters, order[..n + 1], tick)
         == Snapshot(counters, order[..n], tick) + Drain(counters[order[n]], order[n], tick)
    ensures Zeroed(counters, order[..n])[order[n]] == counters[order[n]]
    ensures Zeroed(counters, order[..n + 1])
         == Zeroed(counters, order[..n])[order[n] := counters[order[n]].(invocations := 0, millis := 0)]
  {
    assert order[..n + 1][..n] == order[..n];
    assert order[n] !in order[..n];
    assert order[..n + 1] == order[..n] + [order[n]];
  }

  lemma EmptyFirst(events: seq<Usage>)
    ensures [] + events == events
  {
  }

  class Meter {
    var counters: map<string, Counter>
    var tick: nat
    var published: seq<Usage>
    var backlog: seq<Usage>
    var dropped: seq<Usage>

    function Current(): State
      reads this
    {
      State(counters, tick, published, backlog, dropped)
    }

    constructor ()
      ensures Current() == State(map[], 0, [], [], [])
    {
      counters, tick, published, backlog, dropped := map[], 0, [], [], [];
    }

    /** The lookup and the insert are one step here. Counts one invocation for the slug, under the service that the
        slug's counter has had all along. */
    method CountMetalInvocation(slug: string, service: string, workspace: string)
      modifies this`counters
      ensures Current() == Counted(old(Current()), slug, service, workspace)
      ensures counters.Keys == old(counters).Keys + {slug}
      ensures counters[slug].service == if slug in old(counters) then old(counters)[slug].service else service
      ensures forall other, unit :: Everywhere(Current(), other, unit) == Everywhere(old(Current()), other, unit)
                                    + if other == slug && unit == Invocations then 1 else 0
    {
      if slug in counters {
        counters := counters[slug := counters[slug].(invocations := counters[slug].invocations + 1)];
        return;
      }
      counters := counters[slug := Counter(service, workspace, 1, 0)];
    }

    /** Counts one invocation if the slug is known, and otherwise nothing, so that the caller can count it another
        way. */
    method TryCountMetal(slug: string) returns (known: bool)
      modifies this`counters
      ensures Current() == TryCounted(old(Current()), slug) && known == (slug in old(counters))
      ensures !known ==> counters == old(counters)
      ensures forall other, unit :: Everywhere(Current(), other, unit) == Everywhere(old(Current()), other, unit)
                                    + if known && other == slug && unit == Invocations then 1 else 0
    {
      known := slug in counters;
      if known {
        counters := counters[slug := counters[slug].(invocations := counters[slug].invocations + 1)];
      }
    }

    /** Adds the duration if the slug is known by then; the time of other requests is counted nowhere. */
    method Logging(slug: string, elapsed: nat)
      modifies this`counters
      ensures Current() == Logged(old(Current()), slug, elapsed)
      ensures counters.Keys == old(counters).Keys
      ensures forall other, unit :: Everywhere(Current(), other, unit) == Everywhere(old(Current()), other, unit)
                                    + if other == slug && slug in counters && unit == Millis then elapsed else 0
    {
      if slug in counters {
        counters := counters[slug := counters[slug].(millis := counters[slug].millis + elapsed)];
      }
    }

    /** Swaps every counter to zero and collects what it held. */
    method DrainCounters(order: seq<string>) returns (snapshot: seq<Usage>)
      requires IsIteration(order, counters)
      modifies this`counters
      ensures snapshot == Snapshot(old(counters), order, tick)
      ensures counters == Zeroed(old(counters), order)
    {
      snapshot := [];
      var i := 0;
      while i < |order|
        invariant 0 <= i <= |order|
        invariant snapshot == Snapshot(old(counters), order[..i], tick)
        invariant counters == Zeroed(old(counters), order[..i])
      {
        var slug := order[i];
        OneMoreDrained(old(counters), order, i, tick);
        snapshot := snapshot + Drain(counters[slug], slug, tick);
        counters := counters[slug := counters[slug].(invocations := 0, millis := 0)];
        i := i + 1;
      }
      assert order[..|order|] == order;
    }

    /** Publishes the events in order; the ones that fail are pushed onto the backlog. */
    method PublishAll(events: seq<Usage>, oks: seq<bool>)
      requires |events| <= |oks|
      modifies this`published, this`backlog
      ensures published == old(published) + Pick(events, oks, true)
      ensures backlog == old(backlog) + Pick(events, oks, false)
    {
      var i := 0;
      while i < |events|
        invariant 0 <= i <= |events|
        invariant published == old(published) + Pick(events[..i], oks, true)
        invariant backlog == old(backlog) + Pick(events[..i], oks, false)
      {
        assert events[..i + 1][..i] == events[..i];
        if oks[i] { published := published + [events[i]]; } else { backlog := backlog + [events[i]]; }
        i := i + 1;
      }
      assert events[..|events|] == events;
    }

    /** Caps the backlog to prevent unbounded growth: the oldest events go. */
    method CapBacklog()
      modifies this`backlog, this`dropped
      ensures backlog == old(backlog)[Excess(old(backlog))..]
      ensures dropped == old(dropped) + old(backlog)[..Excess(old(backlog))]
    {
      if |backlog| > BACKLOG_MAX {
        var excess := |backlog| - BACKLOG_MAX;
        dropped := dropped + backlog[..excess];
        backlog := backlog[excess..];
      } else {
        assert backlog[0..] == backlog && backlog[..0] == [];
      }
    }

    /** The backlog of failed publishes first, then what was drained. */
    method PublishRound(snapshot: seq<Usage>, retried: seq<bool>, sent: seq<bool>)
      requires |backlog| <= |retried| && |snapshot| <= |sent|
      modifies this`published, this`backlog
      ensures published == old(published) + Pick(old(backlog), retried, true) + Pick(snapshot, sent, true)
      ensures backlog == Pick(old(backlog), retried, false) + Pick(snapshot, sent, false)
    {
      var retry := backlog;
      backlog := [];
      PublishAll(retry, retried);
      EmptyFirst(Pick(retry, retried, false));
      PublishAll(snapshot, sent);
    }

    method Flush(order: seq<string>, retried: seq<bool>, sent: seq<bool>)
      requires IsFlush(Current(), order, retried, sent)
      modifies this
      ensures Current() == Flushed(old(Current()), order, retried, sent)
    {
      SnapshotIsShort(counters, order, tick);
      var snapshot := DrainCounters(order);
      PublishRound(snapshot, retried, sent);
      CapBacklog();
      tick := tick + 1;
    }
  }

  // ---- Runs ----

  /** `service` is the one that the request was routed to. The second and third path do not look at it. */
  datatype Op =
    | Count(slug: string, service: string, workspace: string)
    | TryCount(slug: string, service: string)
    | Log(slug: string, service: string, elapsed: nat)
    | Flush(order: seq<string>, retried: seq<bool>, sent: seq<bool>)

  ghost function Step(s: State, op: Op): State {
    match op
    case Count(slug, service, workspace) => Counted(s, slug, service, workspace)
    case TryCount(slug, _) => TryCounted(s, slug)
    case Log(slug, _, elapsed) => Logged(s, slug, elapsed)
    case Flush(order, retried, sent) => if IsFlush(s, order, retried, sent) then Flushed(s, order, retried, sent) else s
  }

  ghost function After(ops: seq<Op>): State {
    if ops == [] then State(map[], 0, [], [], []) else Step(After(ops[..|ops| - 1]), ops[|ops| - 1])
  }

  // ---- Conservation ----

  datatype Unit = Invocations | Millis

  function Amount(u: Usage, unit: Unit): nat { if unit.Invocations? then u.invocations else u.millis }

  function Sum(events: seq<Usage>, slug: string, unit: Unit): nat {
    if events == [] then 0
    else
      var last := events[|events| - 1];
      Sum(events[..|events| - 1], slug, unit) + if last.slug == slug then Amount(last, unit) else 0
  }

  function Held(counters: map<string, Counter>, slug: string, unit: Unit): nat {
    if slug !in counters then 0 else if unit.Invocations? then counters[slug].invocations else counters[slug].millis
  }

  /** Everything counted under the slug that is somewhere. */
  function Everywhere(s: State, slug: string, unit: Unit): nat {
    Held(s.counters, slug, unit) + Sum(s.published, slug, unit) + Sum(s.backlog, slug, unit)
    + Sum(s.dropped, slug, unit)
  }

  /** What a step counts: one invocation, and the time of a request whose slug has a counter. */
  function CountedBy(s: State, op: Op, slug: string, unit: Unit): nat {
    match op
    case Count(counted, _, _) => if counted == slug && unit.Invocations? then 1 else 0
    case TryCount(counted, _) => if counted == slug && slug in s.counters && unit.Invocations? then 1 else 0
    case Log(counted, _, elapsed) => if counted == slug && slug in s.counters && unit.Millis? then elapsed else 0
    case Flush(_, _, _) => 0
  }

  ghost function CountedIn(ops: seq<Op>, slug: string, unit: Unit): nat {
    if ops == [] then 0
    else
      var init := ops[..|ops| - 1];
      CountedIn(init, slug, unit) + CountedBy(After(init), ops[|ops| - 1], slug, unit)
  }

  lemma {:induction false} SumAppend(a: seq<Usage>, b: seq<Usage>, slug: string, unit: Unit)
    ensures Sum(a + b, slug, unit) == Sum(a, slug, unit) + Sum(b, slug, unit)
    decreases |b|
  {
    if b == [] {
      assert a + b == a;
    } else {
      assert (a + b)[..|a + b| - 1] == a + b[..|b| - 1];
      SumAppend(a, b[..|b| - 1], slug, unit);
    }
  }

  lemma SumOne(u: Usage, slug: string, unit: Unit)
    ensures Sum([u], slug, unit) == if u.slug == slug then Amount(u, unit) else 0
  {
    assert [u][..|[u]| - 1] == [];
  }

  /** Every publish either succeeds or fails. */
  lemma {:induction false} PicksAddUp(events: seq<Usage>, oks: seq<bool>, slug: string, unit: Unit)
    requires |events| <= |oks|
    ensures Sum(events, slug, unit)
         == Sum(Pick(events, oks, true), slug, unit) + Sum(Pick(events, oks, false), slug, unit)
    decreases |events|
  {
    if events != [] {
      var n := |events| - 1;
      PicksAddUp(events[..n], oks, slug, unit);
      assert Pick(events, oks, !oks[n]) == Pick(events[..n], oks, !oks[n]);
      assert Pick(events, oks, oks[n]) == Pick(events[..n], oks, oks[n]) + [events[n]];
      SumOne(events[n], slug, unit);
      SumAppend(Pick(events[..n], oks, oks[n]), [events[n]], slug, unit);
    }
  }

  /** The snapshot takes out of each counter exactly what it holds, whatever the order. */
  lemma {:induction false} SnapshotTakesAll(counters: map<string, Counter>, order: seq<string>, tick: nat, slug: string,
                                           unit: Unit)
    requires (forall x :: x in order ==> x in counters) && Distinct(order)
    ensures Sum(Snapshot(counters, order, tick), slug, unit) == if slug in order then Held(counters, slug, unit) else 0
    decreases |order|
  {
    if order != [] {
      var init, last := order[..|order| - 1], order[|order| - 1];
      assert last !in init;
      SnapshotTakesAll(counters, init, tick, slug, unit);
      var drained := Drain(counters[last], last, tick);
      if drained != [] { SumOne(drained[0], slug, unit); }
      SumAppend(Snapshot(counters, init, tick), drained, slug, unit);
    }
  }

  lemma FlushConserves(s: State, order: seq<string>, retried: seq<bool>, sent: seq<bool>, slug: string, unit: Unit)
    requires IsFlush(s, order, retried, sent)
    ensures Everywhere(Flushed(s, order, retried, sent), slug, unit) == Everywhere(s, slug, unit)
  {
    var snapshot, failed := Snapshot(s.counters, order, s.tick), Failed(s, order, retried, sent);
    SnapshotIsShort(s.counters, order, s.tick);
    SnapshotTakesAll(s.counters, order, s.tick, slug, unit);
    PicksAddUp(s.backlog, retried, slug, unit);
    PicksAddUp(snapshot, sent, slug, unit);
    SumAppend(s.published, Pick(s.backlog, retried, true), slug, unit);
    SumAppend(s.published + Pick(s.backlog, retried, true), Pick(snapshot, sent, true), slug, unit);
    SumAppend(Pick(s.backlog, retried, false), Pick(snapshot, sent, false), slug, unit);
    CapConserves(s.dropped, failed, slug, unit);
  }

  lemma CapConserves(dropped: seq<Usage>, failed: seq<Usage>, slug: string, unit: Unit)
    ensures Sum(dropped + failed[..Excess(failed)], slug, unit) + Sum(failed[Excess(failed)..], slug, unit)
         == Sum(dropped, slug, unit) + Sum(failed, slug, unit)
  {
    SumAppend(dropped, failed[..Excess(failed)], slug, unit);
    SumAppend(failed[..Excess(failed)], failed[Excess(failed)..], slug, unit);
    assert failed[..Excess(failed)] + failed[Excess(failed)..] == failed;
  }

  lemma StepConserves(s: State, op: Op, slug: string, unit: Unit)
    ensures Everywhere(Step(s, op), slug, unit) == Everywhere(s, slug, unit) + CountedBy(s, op, slug, unit)
  {
    if op.Flush? && IsFlush(s, op.order, op.retried, op.sent) {
      FlushConserves(s, op.order, op.retried, op.sent, slug, unit);
    }
  }

  /** At every point, whatever publishes fail: what was counted for a slug is in its counter, published, in the backlog
      or dropped by the cap, invocations and milliseconds alike. */
  lemma {:induction false} UsageIsConserved(ops: seq<Op>, slug: string, unit: Unit)
    ensures CountedIn(ops, slug, unit) == Everywhere(After(ops), slug, unit)
    decreases |ops|
  {
    if ops != [] {
      var init, op := ops[..|ops| - 1], ops[|ops| - 1];
      UsageIsConserved(init, slug, unit);
      StepConserves(After(init), op, slug, unit);
    }
  }

  // ---- What becomes of each event of a flush ----

  function Not(oks: seq<bool>): (r: seq<bool>)
    ensures |r| == |oks| && forall i :: 0 <= i < |oks| ==> r[i] == !oks[i]
  {
    seq(|oks|, i requires 0 <= i < |oks| => !oks[i])
  }

  lemma {:induction false} PickSelects(events: seq<Usage>, oks: seq<bool>, want: bool, keep: seq<bool>)
    requires |events| <= |oks| <= |keep| && forall i :: 0 <= i < |oks| ==> keep[i] == (oks[i] == want)
    ensures Selects(events, keep, Pick(events, oks, want))
    decreases |events|
  {
    if events != [] {
      var init, last := events[..|events| - 1], events[|events| - 1];
      PickSelects(init, oks, want, keep);
      SelectsNext(init, keep, Pick(init, oks, want), last);
      assert init + [last] == events && Pick(init, oks, want) + [] == Pick(init, oks, want);
    }
  }

  /** Each event goes by its own flag: `sent` are those with it set, `failed` the others, both in order. */
  ghost predicate Settles(events: seq<Usage>, oks: seq<bool>, sent: seq<Usage>, failed: seq<Usage>) {
    |events| <= |oks| && Selects(events, oks, sent) && Selects(events, Not(oks), failed)
  }

  lemma PicksSettle(events: seq<Usage>, oks: seq<bool>)
    requires |events| <= |oks|
    ensures Settles(events, oks, Pick(events, oks, true), Pick(events, oks, false))
  {
    PickSelects(events, oks, true, oks);
    PickSelects(events, oks, false, Not(oks));
  }

  lemma CapCuts(dropped: seq<Usage>, failed: seq<Usage>)
    ensures dropped + failed[..Excess(failed)] + failed[Excess(failed)..] == dropped + failed
  {
  }

  /** What a flush publishes, and what it leaves behind. */
  ghost predicate Results(s: State, r: State, again: seq<Usage>, now: seq<Usage>, waiting: seq<Usage>,
                          refused: seq<Usage>)
  {
    r.published == s.published + again + now && r.dropped + r.backlog == s.dropped + (waiting + refused)
  }

  /** Each event of a flush goes by the result of its own publish: `again` and `now` are the retried and the drained
      ones whose publish succeeded, `waiting` and `refused` those whose publish failed. The former are published, the
      latter wait or are dropped by the cap, all in order. */
  lemma FlushSettlesEachEvent(s: State, order: seq<string>, retried: seq<bool>, sent: seq<bool>)
    returns (again: seq<Usage>, now: seq<Usage>, waiting: seq<Usage>, refused: seq<Usage>)
    requires IsFlush(s, order, retried, sent)
    ensures Settles(s.backlog, retried, again, waiting)
    ensures Settles(Snapshot(s.counters, order, s.tick), sent, now, refused)
    ensures Results(s, Flushed(s, order, retried, sent), again, now, waiting, refused)
  {
    var snapshot := Snapshot(s.counters, order, s.tick);
    SnapshotIsShort(s.counters, order, s.tick);
    PicksSettle(s.backlog, retried);
    PicksSettle(snapshot, sent);
    again, now := Pick(s.backlog, retried, true), Pick(snapshot, sent, true);
    waiting, refused := Pick(s.backlog, retried, false), Pick(snapshot, sent, false);
    CapCuts(s.dropped, waiting + refused);
  }

  lemma {:induction false} RankOfAll(keep: seq<bool>, k: nat)
    requires k <= |keep|
    ensures (forall i :: 0 <= i < k ==> keep[i]) ==> Rank(keep, k) == k
    ensures (forall i :: 0 <= i < k ==> !keep[i]) ==> Rank(keep, k) == 0
  {
    if k > 0 { RankOfAll(keep, k - 1); }
  }

  lemma SettlesAlike(events: seq<Usage>, oks: seq<bool>, sent: seq<Usage>, failed: seq<Usage>)
    requires Settles(events, oks, sent, failed)
    ensures false !in oks ==> sent == events && failed == []
    ensures true !in oks ==> sent == [] && failed == events
  {
    RankOfAll(oks, |events|);
    RankOfAll(Not(oks), |events|);
    if false !in oks {
      forall k: nat | k < |events| ensures sent[k] == events[k] { RankOfAll(oks, k); }
    }
    if true !in oks {
      forall k: nat | k < |events| ensures failed[k] == events[k] { RankOfAll(Not(oks), k); }
    }
  }

  /** A flush whose publishes all succeed leaves nothing waiting and has published everything, what waited first; one
      whose publishes all fail publishes nothing. */
  lemma FlushAllOrNothing(s: State, order: seq<string>, retried: seq<bool>, sent: seq<bool>)
    requires IsFlush(s, order, retried, sent)
    ensures var snapshot, r := Snapshot(s.counters, order, s.tick), Flushed(s, order, retried, sent);
            && (false !in retried && false !in sent
                ==> Results(s, r, s.backlog, snapshot, [], []) && r.backlog == [] && r.dropped == s.dropped)
            && (true !in retried && true !in sent ==> Results(s, r, [], [], s.backlog, snapshot))
  {
    var snapshot := Snapshot(s.counters, order, s.tick);
    SnapshotIsShort(s.counters, order, s.tick);
    PicksSettle(s.backlog, retried);
    PicksSettle(snapshot, sent);
    SettlesAlike(s.backlog, retried, Pick(s.backlog, retried, true), Pick(s.backlog, retried, false));
    SettlesAlike(snapshot, sent, Pick(snapshot, sent, true), Pick(snapshot, sent, false));
    CapCuts(s.dropped, Failed(s, order, retried, sent));
    if false !in retried && false !in sent { assert Failed(s, order, retried, sent) == []; }
  }

  // ---- The backlog ----

  predicate OldestFirst(events: seq<Usage>) {
    forall i, j :: 0 <= i <= j < |events| ==> events[i].tick <= events[j].tick
  }

  predicate DrainedBy(events: seq<Usage>, tick: nat) { forall i :: 0 <= i < |events| ==> events[i].tick <= tick }

  lemma PrefixInOrder(older: seq<Usage>, events: seq<Usage>)
    requires OldestFirst(older + events) && events != []
    ensures OldestFirst(older + events[..|events| - 1])
    ensures DrainedBy(older + events[..|events| - 1], events[|events| - 1].tick)
  {
    var all, init := older + events, older + events[..|events| - 1];
    assert all[|all| - 1] == events[|events| - 1];
    assert init == all[..|all| - 1];
  }

  lemma SnocInOrder(events: seq<Usage>, last: Usage)
    requires OldestFirst(events) && DrainedBy(events, last.tick)
    ensures OldestFirst(events + [last])
  {
  }

  lemma {:induction false} PicksStayInOrder(events: seq<Usage>, oks: seq<bool>, want: bool, older: seq<Usage>)
    requires |events| <= |oks| && OldestFirst(older + events)
    ensures OldestFirst(older + Pick(events, oks, want))
    decreases |events|
  {
    if events != [] {
      var n := |events| - 1;
      var picked := Pick(events[..n], oks, want);
      PrefixInOrder(older, events);
      PicksStayInOrder(events[..n], oks, want, older);
      PicksAreSome(events[..n], oks, want);
      forall u | u in older + picked ensures u.tick <= events[n].tick {
        assert u in older + events[..n];
      }
      if oks[n] == want {
        SnocInOrder(older + picked, events[n]);
        assert older + Pick(events, oks, want) == older + picked + [events[n]];
      } else {
        assert Pick(events, oks, want) == picked;
      }
    }
  }

  lemma {:induction false} SnapshotIsOfThisTick(counters: map<string, Counter>, order: seq<string>, tick: nat)
    requires forall slug :: slug in order ==> slug in counters
    ensures forall u :: u in Snapshot(counters, order, tick) ==> u.tick == tick
    decreases |order|
  {
    if order != [] { SnapshotIsOfThisTick(counters, order[..|order| - 1], tick); }
  }

  /** What was dropped, followed by what still waits, is in the order in which it was drained. */
  ghost predicate BacklogHolds(s: State) {
    && |s.backlog| <= BACKLOG_MAX
    && OldestFirst(s.dropped + s.backlog)
    && (forall u :: u in s.dropped + s.backlog ==> u.tick < s.tick)
  }

  lemma AppendingThisTick(older: seq<Usage>, sent: seq<Usage>, tick: nat)
    requires OldestFirst(older) && (forall u :: u in older ==> u.tick < tick)
    requires forall u :: u in sent ==> u.tick == tick
    ensures OldestFirst(older + sent) && DrainedBy(older + sent, tick)
  {
  }

  lemma {:induction false} PicksAreSome(events: seq<Usage>, oks: seq<bool>, want: bool)
    requires |events| <= |oks|
    ensures forall u :: u in Pick(events, oks, want) ==> u in events
    decreases |events|
  {
    if events != [] { PicksAreSome(events[..|events| - 1], oks, want); }
  }

  lemma FailedStayInOrder(s: State, order: seq<string>, retried: seq<bool>, sent: seq<bool>)
    requires IsFlush(s, order, retried, sent) && BacklogHolds(s)
    ensures OldestFirst(s.dropped + Failed(s, order, retried, sent))
    ensures DrainedBy(s.dropped + Failed(s, order, retried, sent), s.tick)
  {
    var snapshot := Snapshot(s.counters, order, s.tick);
    SnapshotIsShort(s.counters, order, s.tick);
    SnapshotIsOfThisTick(s.counters, order, s.tick);
    var waiting, refused := Pick(s.backlog, retried, false), Pick(snapshot, sent, false);
    PicksStayInOrder(s.backlog, retried, false, s.dropped);
    PicksAreSome(s.backlog, retried, false);
    PicksAreSome(snapshot, sent, false);
    AppendingThisTick(s.dropped + waiting, refused, s.tick);
    assert s.dropped + waiting + refused == s.dropped + Failed(s, order, retried, sent);
  }

  lemma FlushKeepsBacklog(s: State, order: seq<string>, retried: seq<bool>, sent: seq<bool>)
    requires IsFlush(s, order, retried, sent) && BacklogHolds(s)
    ensures BacklogHolds(Flushed(s, order, retried, sent))
  {
    var r, failed := Flushed(s, order, retried, sent), Failed(s, order, retried, sent);
    FailedStayInOrder(s, order, retried, sent);
    assert r.dropped + r.backlog == s.dropped + failed;
  }

  /** After every step the backlog is oldest first and at most 1000 long, and everything ever dropped was drained no
      later than anything that still waits. */
  lemma {:induction false} BacklogIsOldestFirst(ops: seq<Op>)
    ensures BacklogHolds(After(ops))
    decreases |ops|
  {
    if ops != [] {
      var init, op := ops[..|ops| - 1], ops[|ops| - 1];
      BacklogIsOldestFirst(init);
      if op.Flush? && IsFlush(After(init), op.order, op.retried, op.sent) {
        FlushKeepsBacklog(After(init), op.order, op.retried, op.sent);
      }
    }
  }

  lemma NothingToDrop(s: State, order: seq<string>, retried: seq<bool>, sent: seq<bool>)
    requires IsFlush(s, order, retried, sent) && |Failed(s, order, retried, sent)| <= BACKLOG_MAX
    ensures Flushed(s, order, retried, sent).dropped == s.dropped
    ensures Flushed(s, order, retried, sent).backlog == Failed(s, order, retried, sent)
  {
  }

  /** At any point of a run a flush drops something only when more than 1000 events wait, keeps 1000 of them, and what
      it drops was drained no later than anything it keeps. */
  lemma FlushDropsTheOldest(ops: seq<Op>, order: seq<string>, retried: seq<bool>, sent: seq<bool>)
    requires IsFlush(After(ops), order, retried, sent)
    ensures var s, r := After(ops), Flushed(After(ops), order, retried, sent);
            && s.dropped <= r.dropped
            && (r.dropped == s.dropped <==> |Failed(s, order, retried, sent)| <= 1000)
            && (r.dropped != s.dropped ==> |r.backlog| == 1000)
            && forall u, v :: u in r.dropped && v in r.backlog ==> u.tick <= v.tick
  {
    var s, failed := After(ops), Failed(After(ops), order, retried, sent);
    var r := Flushed(s, order, retried, sent);
    BacklogIsOldestFirst(ops);
    FlushKeepsBacklog(s, order, retried, sent);
    forall u, v | u in r.dropped && v in r.backlog ensures u.tick <= v.tick {
      var i, j :| 0 <= i < |r.dropped| && r.dropped[i] == u && 0 <= j < |r.backlog| && r.backlog[j] == v;
      assert (r.dropped + r.backlog)[i] == u && (r.dropped + r.backlog)[|r.dropped| + j] == v;
    }
    if |failed| <= BACKLOG_MAX { NothingToDrop(s, order, retried, sent); }
  }

  predicate AllUsed(events: seq<Usage>) {
    forall k :: 0 <= k < |events| ==> events[k].invocations > 0 || events[k].millis > 0
  }

  lemma {:induction false} SnapshotIsUsed(counters: map<string, Counter>, order: seq<string>, tick: nat)
    requires forall slug :: slug in order ==> slug in counters
    ensures AllUsed(Snapshot(counters, order, tick))
    decreases |order|
  {
    if order != [] { SnapshotIsUsed(counters, order[..|order| - 1], tick); }
  }

  lemma {:induction false} PicksAreUsed(events: seq<Usage>, oks: seq<bool>, want: bool)
    requires |events| <= |oks| && AllUsed(events)
    ensures AllUsed(Pick(events, oks, want))
    decreases |events|
  {
    if events != [] { PicksAreUsed(events[..|events| - 1], oks, want); }
  }

  lemma JoinedAreUsed(a: seq<Usage>, b: seq<Usage>, k: nat)
    requires AllUsed(a) && AllUsed(b)
    ensures AllUsed(a + b) && (k <= |a + b| ==> AllUsed((a + b)[k..]))
  {
  }

  lemma FlushIsUsed(s: State, order: seq<string>, retried: seq<bool>, sent: seq<bool>)
    requires IsFlush(s, order, retried, sent) && AllUsed(s.published) && AllUsed(s.backlog)
    ensures AllUsed(Flushed(s, order, retried, sent).published) && AllUsed(Flushed(s, order, retried, sent).backlog)
  {
    var snapshot := Snapshot(s.counters, order, s.tick);
    SnapshotIsShort(s.counters, order, s.tick);
    SnapshotIsUsed(s.counters, order, s.tick);
    PicksAreUsed(s.backlog, retried, true);
    PicksAreUsed(s.backlog, retried, false);
    PicksAreUsed(snapshot, sent, true);
    PicksAreUsed(snapshot, sent, false);
    JoinedAreUsed(s.published, Pick(s.backlog, retried, true), 0);
    JoinedAreUsed(s.published + Pick(s.backlog, retried, true), Pick(snapshot, sent, true), 0);
    JoinedAreUsed(Pick(s.backlog, retried, false), Pick(snapshot, sent, false),
                  Excess(Failed(s, order, retried, sent)));
  }

  /** Idle counters send nothing: over every run each event says that something was used. */
  lemma {:induction false} NoEmptyUsage(ops: seq<Op>)
    ensures AllUsed(After(ops).published) && AllUsed(After(ops).backlog)
    decreases |ops|
  {
    if ops != [] {
      var s, op := After(ops[..|ops| - 1]), ops[|ops| - 1];
      NoEmptyUsage(ops[..|ops| - 1]);
      if op.Flush? && IsFlush(s, op.order, op.retried, op.sent) {
        FlushIsUsed(s, op.order, op.retried, op.sent);
      }
    }
  }

  // ---- Whom a slug's usage is billed to ----

  /** Once a slug has a counter, it keeps that counter's service. */
  lemma {:induction false} FirstServiceKeepsTheSlug(ops: seq<Op>, more: seq<Op>, slug: string)
    requires slug in After(ops).counters
    ensures slug in After(ops + more).counters
    ensures After(ops + more).counters[slug].service == After(ops).counters[slug].service
    decreases |more|
  {
    if more == [] {
      assert ops + more == ops;
    } else {
      var init := more[..|more| - 1];
      assert (ops + more)[..|ops + more| - 1] == ops + init;
      FirstServiceKeepsTheSlug(ops, init, slug);
    }
  }

  predicate NamesCounter(s: State, u: Usage) {
    u.slug in s.counters && u.service == s.counters[u.slug].service
  }

  ghost predicate AllNameCounters(s: State, events: seq<Usage>) { forall u :: u in events ==> NamesCounter(s, u) }

  ghost predicate UsageNamesCounters(s: State) {
    AllNameCounters(s, s.published) && AllNameCounters(s, s.backlog) && AllNameCounters(s, s.dropped)
  }

  lemma {:induction false} SnapshotNamesCounters(s: State, order: seq<string>)
    requires forall slug :: slug in order ==> slug in s.counters
    ensures AllNameCounters(s, Snapshot(s.counters, order, s.tick))
    decreases |order|
  {
    if order != [] { SnapshotNamesCounters(s, order[..|order| - 1]); }
  }

  lemma PicksNameCounters(s: State, events: seq<Usage>, oks: seq<bool>, want: bool)
    requires |events| <= |oks| && AllNameCounters(s, events)
    ensures AllNameCounters(s, Pick(events, oks, want))
  {
    PicksAreSome(events, oks, want);
  }

  lemma SameCounters(s: State, r: State, events: seq<Usage>)
    requires AllNameCounters(s, events)
    requires forall x :: x in s.counters ==> x in r.counters && r.counters[x].service == s.counters[x].service
    ensures AllNameCounters(r, events)
  {
    forall u | u in events ensures NamesCounter(r, u) { assert NamesCounter(s, u); }
  }

  lemma JoinedNameCounters(s: State, a: seq<Usage>, b: seq<Usage>)
    requires AllNameCounters(s, a) && AllNameCounters(s, b)
    ensures AllNameCounters(s, a + b)
  {
  }

  lemma PartsNameCounters(s: State, events: seq<Usage>, k: nat)
    requires AllNameCounters(s, events) && k <= |events|
    ensures AllNameCounters(s, events[..k]) && AllNameCounters(s, events[k..])
  {
  }

  lemma OutcomeNamesCounters(s: State, order: seq<string>, retried: seq<bool>, sent: seq<bool>, want: bool)
    requires IsFlush(s, order, retried, sent) && UsageNamesCounters(s)
    ensures |Snapshot(s.counters, order, s.tick)| <= |sent|
    ensures AllNameCounters(s, Pick(s.backlog, retried, want))
    ensures AllNameCounters(s, Pick(Snapshot(s.counters, order, s.tick), sent, want))
  {
    SnapshotIsShort(s.counters, order, s.tick);
    SnapshotNamesCounters(s, order);
    PicksNameCounters(s, s.backlog, retried, want);
    PicksNameCounters(s, Snapshot(s.counters, order, s.tick), sent, want);
  }

  lemma FlushNamesCounters(s: State, order: seq<string>, retried: seq<bool>, sent: seq<bool>)
    requires IsFlush(s, order, retried, sent) && UsageNamesCounters(s)
    ensures UsageNamesCounters(Flushed(s, order, retried, sent))
  {
    var r, snapshot := Flushed(s, order, retried, sent), Snapshot(s.counters, order, s.tick);
    var failed := Failed(s, order, retried, sent);
    OutcomeNamesCounters(s, order, retried, sent, true);
    OutcomeNamesCounters(s, order, retried, sent, false);
    JoinedNameCounters(s, s.published, Pick(s.backlog, retried, true));
    JoinedNameCounters(s, s.published + Pick(s.backlog, retried, true), Pick(snapshot, sent, true));
    JoinedNameCounters(s, Pick(s.backlog, retried, false), Pick(snapshot, sent, false));
    PartsNameCounters(s, failed, Excess(failed));
    JoinedNameCounters(s, s.dropped, failed[..Excess(failed)]);
    SameCounters(s, r, r.published);
    SameCounters(s, r, r.backlog);
    SameCounters(s, r, r.dropped);
  }

  /** Over every run, each event carries the service of its slug's counter. */
  lemma {:induction false} RunNamesCounters(ops: seq<Op>)
    ensures UsageNamesCounters(After(ops))
    decreases |ops|
  {
    if ops != [] {
      var s, op := After(ops[..|ops| - 1]), ops[|ops| - 1];
      RunNamesCounters(ops[..|ops| - 1]);
      if op.Flush? {
        if IsFlush(s, op.order, op.retried, op.sent) { FlushNamesCounters(s, op.order, op.retried, op.sent); }
      } else {
        SameCounters(s, After(ops), s.published);
        SameCounters(s, After(ops), s.backlog);
        SameCounters(s, After(ops), s.dropped);
      }
    }
  }

  /** What events of the slug say was used of one service. */
  function BilledTo(events: seq<Usage>, slug: string, service: string, unit: Unit): nat {
    if events == [] then 0
    else
      var last := events[|events| - 1];
      BilledTo(events[..|events| - 1], slug, service, unit)
      + if last.slug == slug && last.service == service then Amount(last, unit) else 0
  }

  function HeldFor(counters: map<string, Counter>, slug: string, service: string, unit: Unit): nat {
    if slug in counters && counters[slug].service == service then Held(counters, slug, unit) else 0
  }

  /** Everything that is, was or will be billed to the service for the slug, or was dropped. */
  function EverywhereFor(s: State, slug: string, service: string, unit: Unit): nat {
    HeldFor(s.counters, slug, service, unit) + BilledTo(s.published, slug, service, unit)
    + BilledTo(s.backlog, slug, service, unit) + BilledTo(s.dropped, slug, service, unit)
  }

  lemma {:induction false} BilledToOne(s: State, events: seq<Usage>, slug: string, service: string, unit: Unit)
    requires AllNameCounters(s, events)
    ensures BilledTo(events, slug, service, unit)
         == if slug in s.counters && s.counters[slug].service == service then Sum(events, slug, unit) else 0
    decreases |events|
  {
    if events != [] {
      BilledToOne(s, events[..|events| - 1], slug, service, unit);
      assert NamesCounter(s, events[|events| - 1]);
    }
  }

  /** Over every run, all that was counted under a slug is billed to its counter's service and nothing to any other. */
  lemma AllIsBilledToTheCounter(ops: seq<Op>, slug: string, service: string, unit: Unit)
    ensures var s := After(ops);
            EverywhereFor(s, slug, service, unit)
            == if slug in s.counters && s.counters[slug].service == service then CountedIn(ops, slug, unit) else 0
  {
    var s := After(ops);
    RunNamesCounters(ops);
    BilledToOne(s, s.published, slug, service, unit);
    BilledToOne(s, s.backlog, slug, service, unit);
    BilledToOne(s, s.dropped, slug, service, unit);
    UsageIsConserved(ops, slug, unit);
  }

  /** What was counted of requests that were routed to the service. */
  ghost function CountedFor(ops: seq<Op>, slug: string, service: string, unit: Unit): nat {
    if ops == [] then 0
    else
      var init, op := ops[..|ops| - 1], ops[|ops| - 1];
      CountedFor(init, slug, service, unit)
      + if !op.Flush? && op.service == service then CountedBy(After(init), op, slug, unit) else 0
  }

  /** Every request counted under the slug was routed to the service. */
  ghost predicate AllFor(ops: seq<Op>, slug: string, service: string, unit: Unit) {
    ops == [] ||
    var init, op := ops[..|ops| - 1], ops[|ops| - 1];
    AllFor(init, slug, service, unit)
    && (CountedBy(After(init), op, slug, unit) > 0 ==> op.service == service)
  }

  lemma {:induction false} CountedForAll(ops: seq<Op>, slug: string, service: string, other: string, unit: Unit)
    ensures CountedFor(ops, slug, service, unit) <= CountedIn(ops, slug, unit)
    ensures CountedFor(ops, slug, service, unit) == CountedIn(ops, slug, unit) <==> AllFor(ops, slug, service, unit)
    ensures AllFor(ops, slug, service, unit) && other != service ==> CountedFor(ops, slug, other, unit) == 0
    decreases |ops|
  {
    if ops != [] { CountedForAll(ops[..|ops| - 1], slug, service, other, unit); }
  }

  /** Each service is billed what was counted of its own requests if and only if all requests counted under the slug
      were routed to the service of the slug's counter. */
  lemma ServicesAreBilledTheirOwnIff(ops: seq<Op>, slug: string, unit: Unit)
    requires slug in After(ops).counters
    ensures (forall x :: EverywhereFor(After(ops), slug, x, unit) == CountedFor(ops, slug, x, unit))
            <==> AllFor(ops, slug, After(ops).counters[slug].service, unit)
  {
    var service := After(ops).counters[slug].service;
    forall x ensures EverywhereFor(After(ops), slug, x, unit) == CountedFor(ops, slug, x, unit)
                     <== AllFor(ops, slug, service, unit)
    {
      AllIsBilledToTheCounter(ops, slug, x, unit);
      CountedForAll(ops, slug, service, x, unit);
    }
    AllIsBilledToTheCounter(ops, slug, service, unit);
    CountedForAll(ops, slug, service, service, unit);
  }

  lemma AfterSnoc(ops: seq<Op>, op: Op)
    ensures After(ops + [op]) == Step(After(ops), op)
  {
    assert (ops + [op])[..|ops + [op]| - 1] == ops;
  }

  lemma CountedTwice(s: State)
    requires s == State(map[], 0, [], [], [])
    ensures Step(Step(s, Count("s", "old", "w")), Count("s", "new", "w"))
         == State(map["s" := Counter("old", "w", 2, 0)], 0, [], [], [])
  {
    var one := Step(s, Count("s", "old", "w"));
    assert one == State(map["s" := Counter("old", "w", 1, 0)], 0, [], [], []);
  }

  lemma AfterThree(a: Op, b: Op, c: Op)
    ensures After([a, b, c]) == Step(Step(Step(After([]), a), b), c)
  {
    AfterSnoc([], a);
    AfterSnoc([a], b);
    AfterSnoc([a, b], c);
    DisplaysGrow(a, b, c, c);
  }

  lemma SnapshotOfOne(counters: map<string, Counter>, slug: string, tick: nat)
    requires slug in counters
    ensures Snapshot(counters, [slug], tick) == Drain(counters[slug], slug, tick)
  {
    var none: seq<string> := [slug][..0];
    assert Snapshot(counters, none, tick) == [];
  }

  lemma PickOfOne(u: Usage)
    ensures Pick([u], [true], true) == [u]
  {
    var none: seq<Usage> := [u][..0];
    assert Pick(none, [true], true) == [];
  }

  lemma PublishedAtOnce(s: State)
    requires s == State(map["s" := Counter("old", "w", 2, 0)], 0, [], [], [])
    ensures Step(s, Flush(["s"], [], [true])).published == [Usage(0, "s", "old", "w", 2, 0)]
  {
    var u := Usage(0, "s", "old", "w", 2, 0);
    SnapshotOfOne(s.counters, "s", 0);
    PickOfOne(u);
    assert Drain(s.counters["s"], "s", 0) == [u];
    assert IsFlush(s, ["s"], [], [true]);
    assert Flushed(s, ["s"], [], [true]).published == [] + Pick([], [], true) + [u];
  }

  /** A slug that passes to another service: the new one's first invocation is billed to the old one. */
  lemma RedeployedServiceIsNotBilled()
    ensures After([Count("s", "old", "w"), Count("s", "new", "w"), Flush(["s"], [], [true])]).published
         == [Usage(0, "s", "old", "w", 2, 0)]
  {
    AfterThree(Count("s", "old", "w"), Count("s", "new", "w"), Flush(["s"], [], [true]));
    CountedTwice(After([]));
    PublishedAtOnce(Step(Step(After([]), Count("s", "old", "w")), Count("s", "new", "w")));
  }
}
