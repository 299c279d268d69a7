/** Metering of Liquid invocations in the daemon (crates/daemon/src/tasks/usage.rs): live counters of the registered
    services, a backlog of counts that could not be published, and the tick that reports both. Requests go on being
    counted while a tick runs; the registry is locked for its whole duration. */
module LiquidMetering {
  import opened Prelude

  const BACKLOG_MAX: nat := 10_000

  datatype Report = Report(service: string, invocations: nat)

  /** `live` is the registry with the counters of its handles. `lost` remembers, for the proof alone, what went with a
      removed handle or a dropped backlog entry. */
  datatype State = State(live: map<string, nat>, backlog: map<string, nat>, published: seq<Report>,
                         lost: map<string, nat>)

  function Get(m: map<string, nat>, id: string): nat { if id in m then m[id] else 0 }

  /** One more loss of what `m` holds for the chosen services. */
  function Losing(lost: map<string, nat>, m: map<string, nat>, gone: set<string>): map<string, nat> {
    map id | id in lost.Keys + gone :: Get(lost, id) + if id in gone then Get(m, id) else 0
  }

  // ---- Steps ----

  function Counted(s: State, id: string): State {
    if id in s.live then s.(live := s.live[id := s.live[id] + 1]) else s
  }

  /** A new handle, with a fresh counter, under a new or an existing key. */
  function Registered(s: State, id: string): State { s.(live := s.live[id := 0], lost := Losing(s.lost, s.live, {id})) }

  function Deregistered(s: State, id: string): State {
    s.(live := s.live - {id}, lost := Losing(s.lost, s.live, {id}))
  }

  /** One service of a tick: swap, merge with the backlog, publish or put back. */
  function Reported(s: State, id: string, ok: bool): State
    requires id in s.live
  {
    var total := Get(s.backlog, id) + s.live[id];
    var drained := s.(live := s.live[id := 0], backlog := s.backlog - {id});
    if total == 0 then drained
    else if ok then drained.(published := s.published + [Report(id, total)])
    else drained.(backlog := drained.backlog[id := total])
  }

  function Pruned(s: State): State {
    s.(backlog := map id | id in s.backlog && id in s.live :: s.backlog[id],
       lost := Losing(s.lost, s.backlog, s.backlog.Keys - s.live.Keys))
  }

  function Cleared(s: State): State {
    if |s.backlog| > BACKLOG_MAX then s.(backlog := map[], lost := Losing(s.lost, s.backlog, s.backlog.Keys)) else s
  }

  /** The services of a tick in the order in which the registry is visited. */
  function ReportedAll(s: State, order: seq<string>, oks: seq<bool>): (r: State)
    requires |oks| == |order| && forall id :: id in order ==> id in s.live
    ensures r.live.Keys == s.live.Keys
    decreases |order|
  {
    if order == [] then s
    else Reported(ReportedAll(s, order[..|order| - 1], oks[..|order| - 1]), order[|order| - 1], oks[|order| - 1])
  }

  function Ticked(s: State, order: seq<string>, oks: seq<bool>): State
    requires |oks| == |order| && forall id :: id in order ==> id in s.live
  {
    Cleared(Pruned(ReportedAll(s, order, oks)))
  }

  class Reporter {
    var live: map<string, nat>
    var backlog: map<string, nat>
    var published: seq<Report>
    ghost var lost: map<string, nat>

    ghost function Current(): State
      reads this
    {
      State(live, backlog, published, lost)
    }

    method ReportService(id: string, ok: bool)
      requires id in live
      modifies this
      ensures Current() == Reported(old(Current()), id, ok)
    {
      var count := live[id];
      live := live[id := 0];
      var total := (if id in backlog then backlog[id] else 0) + count;
      backlog := backlog - {id};
      if total == 0 { return; }
      if ok { published := published + [Report(id, total)]; } else { backlog := backlog[id := total]; }
    }

    /** The end of a tick: prune the backlog to the registry, then the safety valve. */
    method Retain()
      modifies this
      ensures Current() == Cleared(Pruned(old(Current())))
    {
      lost := Losing(lost, backlog, backlog.Keys - live.Keys);
      backlog := map id | id in backlog && id in live :: backlog[id];
      assert Current() == Pruned(old(Current()));
      if |backlog| > BACKLOG_MAX {
        lost := Losing(lost, backlog, backlog.Keys);
        backlog := map[];
      }
    }

    method Tick(order: seq<string>, oks: seq<bool>)
      requires IsIteration(order, live) && |oks| == |order|
      modifies this
      ensures Current() == Ticked(old(Current()), order, oks)
    {
      var i := 0;
      while i < |order|
        invariant 0 <= i <= |order|
        invariant Current() == ReportedAll(old(Current()), order[..i], oks[..i])
      {
        assert order[..i + 1][..i] == order[..i] && oks[..i + 1][..i] == oks[..i];
        ReportService(order[i], oks[i]);
        i := i + 1;
      }
      assert order[..|order|] == order && oks[..|order|] == oks;
      Retain();
    }
  }

  // ---- Runs, with requests counted between any two services of a tick ----

  datatype Op =
    | Count(id: string)
    | Register(id: string)
    | Deregister(id: string)
    | ReportOne(id: string, ok: bool)
    | EndTick

  function Step(s: State, op: Op): State {
    match op
    case Count(id) => Counted(s, id)
    case Register(id) => Registered(s, id)
    case Deregister(id) => Deregistered(s, id)
    case ReportOne(id, ok) => if id in s.live then Reported(s, id, ok) else s
    case EndTick => Cleared(Pruned(s))
  }

  function After(s: State, ops: seq<Op>): State {
    if ops == [] then s else Step(After(s, ops[..|ops| - 1]), ops[|ops| - 1])
  }

  lemma EndOfTick(s: State, ops: seq<Op>, m: State)
    requires After(s, ops) == m
    ensures After(s, ops + [EndTick]) == Cleared(Pruned(m))
  {
    assert (ops + [EndTick])[..|ops + [EndTick]| - 1] == ops;
  }

  function Reports(order: seq<string>, oks: seq<bool>): seq<Op>
    requires |oks| == |order|
  {
    seq(|order|, i requires 0 <= i < |order| => ReportOne(order[i], oks[i]))
  }

  lemma {:induction false} ReportsAreSteps(s: State, order: seq<string>, oks: seq<bool>)
    requires |oks| == |order| && forall id :: id in order ==> id in s.live
    ensures After(s, Reports(order, oks)) == ReportedAll(s, order, oks)
    decreases |order|
  {
    if order != [] {
      var n := |order| - 1;
      assert Reports(order, oks)[..n] == Reports(order[..n], oks[..n]);
      ReportsAreSteps(s, order[..n], oks[..n]);
    }
  }

  /** A tick without interleaved requests is one of the runs. */
  lemma TickIsARun(s: State, order: seq<string>, oks: seq<bool>)
    requires |oks| == |order| && forall id :: id in order ==> id in s.live
    ensures After(s, Reports(order, oks) + [EndTick]) == Ticked(s, order, oks)
  {
    ReportsAreSteps(s, order, oks);
    EndOfTick(s, Reports(order, oks), ReportedAll(s, order, oks));
  }

  // ---- Conservation ----

  function Sum(published: seq<Report>, id: string): nat {
    if published == [] then 0
    else
      var last := published[|published| - 1];
      Sum(published[..|published| - 1], id) + if last.service == id then last.invocations else 0
  }

  lemma SumSnoc(published: seq<Report>, r: Report, id: string)
    ensures Sum(published + [r], id) == Sum(published, id) + if r.service == id then r.invocations else 0
  {
    assert (published + [r])[..|published + [r]| - 1] == published;
  }

  /** Everything counted for the service that is somewhere. */
  function Everywhere(s: State, id: string): nat {
    Get(s.live, id) + Get(s.backlog, id) + Sum(s.published, id) + Get(s.lost, id)
  }

  function CountedBy(s: State, op: Op, id: string): nat { if op == Count(id) && id in s.live then 1 else 0 }

  function CountedIn(s: State, ops: seq<Op>, id: string): nat {
    if ops == [] then 0
    else CountedIn(s, ops[..|ops| - 1], id) + CountedBy(After(s, ops[..|ops| - 1]), ops[|ops| - 1], id)
  }

  lemma ReportConserves(s: State, reported: string, ok: bool, id: string)
    requires reported in s.live
    ensures Everywhere(Reported(s, reported, ok), id) == Everywhere(s, id)
  {
    SumSnoc(s.published, Report(reported, Get(s.backlog, reported) + s.live[reported]), id);
  }

  lemma EndTickConserves(s: State, id: string)
    ensures Everywhere(Step(s, EndTick), id) == Everywhere(s, id)
  {
    assert Everywhere(Pruned(s), id) == Everywhere(s, id);
  }

  /** At every point of every run, whatever publishes fail: what was counted for a service is in its live counter, in
      the backlog, published, or lost. */
  lemma {:induction false} UsageIsConserved(s: State, ops: seq<Op>, id: string)
    ensures Everywhere(After(s, ops), id) == Everywhere(s, id) + CountedIn(s, ops, id)
    decreases |ops|
  {
    if ops != [] {
      var before, op := After(s, ops[..|ops| - 1]), ops[|ops| - 1];
      UsageIsConserved(s, ops[..|ops| - 1], id);
      if op.EndTick? { EndTickConserves(before, id); }
      if op.ReportOne? && op.id in before.live { ReportConserves(before, op.id, op.ok, id); }
    }
  }

  /** The steps that can lose counts of a service: the removal or replacement of its handle, the pruning of a service
      that is not registered, and the safety valve. */
  predicate MayLose(s: State, op: Op, id: string) {
    match op
    case Register(other) => other == id
    case Deregister(other) => other == id
    case EndTick => id !in s.live || |s.backlog.Keys * s.live.Keys| > 10_000
    case _ => false
  }

  lemma LosingAdds(lost: map<string, nat>, m: map<string, nat>, gone: set<string>, id: string)
    ensures Get(Losing(lost, m, gone), id) == Get(lost, id) + if id in gone then Get(m, id) else 0
  {
  }

  lemma PruneLoses(s: State, id: string)
    ensures Get(Pruned(s).lost, id) == Get(s.lost, id) + if id in s.live then 0 else Get(s.backlog, id)
    ensures Get(Pruned(s).backlog, id) == if id in s.live then Get(s.backlog, id) else 0
  {
    LosingAdds(s.lost, s.backlog, s.backlog.Keys - s.live.Keys, id);
  }

  lemma PruneKeeps(s: State)
    ensures |Pruned(s).backlog| == |s.backlog.Keys * s.live.Keys|
  {
    var backlog := Pruned(s).backlog;
    assert backlog.Keys == s.backlog.Keys * s.live.Keys;
    assert |backlog| == |backlog.Keys|;
  }

  lemma ClearLoses(s: State, id: string)
    ensures Get(Cleared(s).lost, id) == Get(s.lost, id) + if |s.backlog| > BACKLOG_MAX then Get(s.backlog, id) else 0
  {
    LosingAdds(s.lost, s.backlog, s.backlog.Keys, id);
  }

  lemma EndTickLoses(s: State, id: string)
    ensures Get(Step(s, EndTick).lost, id)
         == Get(s.lost, id) + if MayLose(s, EndTick, id) then Get(s.backlog, id) else 0
  {
    PruneLoses(s, id);
    PruneKeeps(s);
    ClearLoses(Pruned(s), id);
  }

  /** A step loses exactly what it removes, and only those steps lose anything. */
  lemma StepLoses(s: State, op: Op, id: string)
    ensures var lost := Get(Step(s, op).lost, id) - Get(s.lost, id);
            lost == if !MayLose(s, op, id) then 0 else if op.EndTick? then Get(s.backlog, id) else Get(s.live, id)
  {
    if op.EndTick? { EndTickLoses(s, id); }
  }

  ghost predicate KeepsIt(s: State, ops: seq<Op>, id: string) {
    forall k: nat :: k < |ops| ==> !MayLose(After(s, ops[..k]), ops[k], id)
  }

  lemma {:induction false} NothingLost(s: State, ops: seq<Op>, id: string)
    requires KeepsIt(s, ops, id)
    ensures Get(After(s, ops).lost, id) == Get(s.lost, id)
    decreases |ops|
  {
    if ops != [] {
      var init := ops[..|ops| - 1];
      assert forall k: nat :: k < |init| ==> init[..k] == ops[..k];
      NothingLost(s, init, id);
      StepLoses(After(s, init), ops[|ops| - 1], id);
    }
  }

  /** While a service stays registered under one handle and the backlog is not cleared, everything counted for it is
      published, in its backlog entry or in its live counter. */
  lemma RegisteredServicesLoseNothing(s: State, ops: seq<Op>, id: string)
    requires KeepsIt(s, ops, id)
    ensures var r := After(s, ops);
            Sum(r.published, id) + Get(r.backlog, id) + Get(r.live, id)
            == Sum(s.published, id) + Get(s.backlog, id) + Get(s.live, id) + CountedIn(s, ops, id)
  {
    UsageIsConserved(s, ops, id);
    NothingLost(s, ops, id);
  }

  /** After every tick the backlog speaks of registered services only, and is below the cap. */
  lemma TickPrunesTheBacklog(s: State, ops: seq<Op>)
    requires ops != [] && ops[|ops| - 1] == EndTick
    ensures After(s, ops).backlog.Keys <= After(s, ops).live.Keys
    ensures |After(s, ops).backlog| <= 10_000
  {
  }

  /** Nothing is reported for a service that was not used: over every run each report counts something. */
  lemma {:induction false} NoEmptyReports(s: State, ops: seq<Op>)
    requires forall r :: r in s.published ==> r.invocations > 0
    ensures forall r :: r in After(s, ops).published ==> r.invocations > 0
    decreases |ops|
  {
    if ops != [] { NoEmptyReports(s, ops[..|ops| - 1]); }
  }

  // ---- One tick, service by service ----

  /** Where the counts of a service stand. */
  datatype Standing = Standing(live: nat, backlog: nat, published: nat)

  function StandingOf(s: State, id: string): Standing {
    Standing(Get(s.live, id), Get(s.backlog, id), Sum(s.published, id))
  }

  /** All that is not published yet is either published or in the backlog. */
  function AfterReport(t: Standing, ok: bool): Standing {
    var total := t.backlog + t.live;
    if ok then Standing(0, 0, t.published + total) else Standing(0, total, t.published)
  }

  lemma ReportMovesOne(s: State, reported: string, ok: bool, id: string)
    requires reported in s.live
    ensures StandingOf(Reported(s, reported, ok), id)
         == if id == reported then AfterReport(StandingOf(s, id), ok) else StandingOf(s, id)
  {
    SumSnoc(s.published, Report(reported, Get(s.backlog, reported) + s.live[reported]), id);
  }

  lemma {:induction false} UnvisitedStays(s: State, order: seq<string>, oks: seq<bool>, id: string)
    requires |oks| == |order| && (forall x :: x in order ==> x in s.live) && id !in order
    ensures StandingOf(ReportedAll(s, order, oks), id) == StandingOf(s, id)
    decreases |order|
  {
    if order != [] {
      var n := |order| - 1;
      UnvisitedStays(s, order[..n], oks[..n], id);
      ReportMovesOne(ReportedAll(s, order[..n], oks[..n]), order[n], oks[n], id);
    }
  }

  /** A tick reports each registered service once, with all that was counted and is not published yet, whatever the
      order and whatever happens to the others; a failed publish puts the whole sum into the backlog. */
  lemma {:induction false} TickReportsOnce(s: State, order: seq<string>, oks: seq<bool>, k: nat)
    requires |oks| == |order| && (forall x :: x in order ==> x in s.live) && Distinct(order) && k < |order|
    ensures StandingOf(ReportedAll(s, order, oks), order[k]) == AfterReport(StandingOf(s, order[k]), oks[k])
    decreases |order|
  {
    var n := |order| - 1;
    if k == n {
      assert order[k] !in order[..n];
      UnvisitedStays(s, order[..n], oks[..n], order[k]);
    } else {
      TickReportsOnce(s, order[..n], oks[..n], k);
    }
    ReportMovesOne(ReportedAll(s, order[..n], oks[..n]), order[n], oks[n], order[k]);
  }
}
