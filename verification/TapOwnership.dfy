/** Who owns which TAP index (crates/daemon/src/provision.rs, run.rs and tasks/): the pool of indices in use and the
    holders that an index passes through, as a state machine whose events interleave freely. */
module TapOwnership {
  import opened Prelude
  import opened GuestAddressing

  /** An armed guard of a provisioning task, a handle in the VM registry, or a removed name that some task is
      about to release. */
  datatype Holder = Guard(task: nat) | Handle(service: string) | Pending(release: nat)

  datatype State = State(inUse: set<nat>, held: map<Holder, nat>, nextRelease: nat)

  datatype Event =
    | Allocate(task: nat)
    | DropGuard(task: nat)                      // early return, timeout or cancellation before registration
    | Register(task: nat, service: string)      // registry insert and defuse: no await point in between
    | Take(service: string)                     // rollback, deprovision, crash reaping, shutdown drain
    | Release(release: nat)                     // the task that took the name reaches `release_tap_index`
    | Discard(service: string)                  // suspend and the eBPF audit drop the handle
    | Abandon(release: nat)                     // the releasing task is aborted at the shutdown deadline

  /** The least index from `i` on that is not in `used`. */
  function LeastFreeFrom(used: set<nat>, i: nat): (r: nat)
    ensures i <= r <= i + |used|
    ensures r !in used && forall j: nat :: i <= j < r ==> j in used
    decreases |used|
  {
    if i !in used then i
    else
      var r := LeastFreeFrom(used - {i}, i + 1);
      assert forall j: nat :: j in used <==> j in used - {i} || j == i;
      r
  }

  function LeastFree(used: set<nat>): nat { LeastFreeFrom(used, 0) }

  /** Moves whatever `from` holds to `to`; a holder that `to` already was loses what it held. */
  function Move(held: map<Holder, nat>, from: Holder, to: Holder): map<Holder, nat> {
    if from in held then (held - {from})[to := held[from]] else held
  }

  function Step(s: State, e: Event): State {
    match e
    case Allocate(t) =>
      var i := LeastFree(s.inUse);
      if i > MAX_TAP_INDEX || Guard(t) in s.held then s
      else s.(inUse := s.inUse + {i}, held := s.held[Guard(t) := i])
    case DropGuard(t) =>
      s.(held := Move(s.held, Guard(t), Pending(s.nextRelease)), nextRelease := s.nextRelease + 1)
    case Register(t, service) => s.(held := Move(s.held, Guard(t), Handle(service)))
    case Take(service) =>
      s.(held := Move(s.held, Handle(service), Pending(s.nextRelease)), nextRelease := s.nextRelease + 1)
    case Release(r) =>
      if Pending(r) !in s.held then s
      else s.(inUse := s.inUse - {s.held[Pending(r)]}, held := s.held - {Pending(r)})
    case Discard(service) => s.(held := s.held - {Handle(service)})
    case Abandon(r) => s.(held := s.held - {Pending(r)})
  }

  function Run(s: State, events: seq<Event>): State
    decreases |events|
  {
    if events == [] then s else Run(Step(s, events[0]), events[1..])
  }

  lemma {:induction false} RunAppend(s: State, events: seq<Event>, e: Event)
    ensures Run(s, events + [e]) == Step(Run(s, events), e)
    decreases |events|
  {
    if events == [] {
      assert events + [e] == [e] && Run(Step(s, e), []) == Step(s, e);
    } else {
      assert (events + [e])[1..] == events[1..] + [e];
      RunAppend(Step(s, events[0]), events[1..], e);
    }
  }

  // ---- Safety: a held index is in use and has one holder ----

  ghost predicate Exclusive(held: map<Holder, nat>) {
    forall g, h :: g in held && h in held && held[g] == held[h] ==> g == h
  }

  ghost predicate Safe(s: State) {
    && Exclusive(s.held)
    && (forall h :: h in s.held ==> s.held[h] in s.inUse && s.held[h] <= MAX_TAP_INDEX)
    && (forall r: nat :: Pending(r) in s.held ==> r < s.nextRelease)
  }

  lemma StepIsSafe(s: State, e: Event)
    requires Safe(s)
    ensures Safe(Step(s, e))
  {
  }

  /** In every interleaving, from any safe start. */
  lemma {:induction false} RunIsSafe(s: State, events: seq<Event>)
    requires Safe(s)
    ensures Safe(Run(s, events))
    decreases |events|
  {
    if events != [] {
      StepIsSafe(s, events[0]);
      RunIsSafe(Step(s, events[0]), events[1..]);
    }
  }

  /** What tenants see of it: in every reachable state two registered services have different guest addresses and
      different MAC addresses, and neither is the gateway. */
  lemma ServicesNeverShareAnAddress(s: State, events: seq<Event>, a: string, b: string)
    requires Safe(s) && a != b
    requires Handle(a) in Run(s, events).held && Handle(b) in Run(s, events).held
    ensures var i, j := Run(s, events).held[Handle(a)], Run(s, events).held[Handle(b)];
            && i <= MAX_TAP_INDEX && j <= MAX_TAP_INDEX
            && GuestIp(i) != GuestIp(j) && Mac(i) != Mac(j)
            && GuestIp(i) != Some(GATEWAY) && GuestIp(j) != Some(GATEWAY)
  {
    RunIsSafe(s, events);
    AddressesAreDistinct(Run(s, events).held[Handle(a)], Run(s, events).held[Handle(b)]);
    AddressesAreDistinct(Run(s, events).held[Handle(b)], Run(s, events).held[Handle(a)]);
  }

  // ---- Leaks: exactly the lossy events lose indices, and nothing brings them back ----

  /** Indices that are marked in use although nobody holds them, hence nobody will ever release. */
  function Leaked(s: State): set<nat> { s.inUse - s.held.Values }

  /** What the event drops on the floor: a registry insert over a live key, a discarded handle, an aborted
      release. */
  function LostBy(s: State, e: Event): set<nat> {
    match e
    case Register(t, service) =>
      if Guard(t) in s.held && Handle(service) in s.held then {s.held[Handle(service)]} else {}
    case Discard(service) => if Handle(service) in s.held then {s.held[Handle(service)]} else {}
    case Abandon(r) => if Pending(r) in s.held then {s.held[Pending(r)]} else {}
    case _ => {}
  }

  function LostInRun(s: State, events: seq<Event>): set<nat>
    decreases |events|
  {
    if events == [] then {} else LostBy(s, events[0]) + LostInRun(Step(s, events[0]), events[1..])
  }

  lemma RemoveKey(held: map<Holder, nat>, h: Holder)
    requires Exclusive(held)
    ensures Exclusive(held - {h})
    ensures (held - {h}).Values == held.Values - if h in held then {held[h]} else {}
  {
    var less := held - {h};
    forall v | v in held.Values && (h in held ==> v != held[h]) ensures v in less.Values {
      var g :| g in held && held[g] == v;
      assert g in less && less[g] == v;
    }
    forall v | v in less.Values ensures v in held.Values && (h in held ==> v != held[h]) {
      var g :| g in less && less[g] == v;
      assert g in held && held[g] == v;
    }
  }

  lemma PutKey(held: map<Holder, nat>, h: Holder, i: nat)
    requires h !in held
    ensures held[h := i].Values == held.Values + {i}
  {
    var more := held[h := i];
    assert more[h] == i && h in more;
    forall v | v in held.Values ensures v in more.Values {
      var g :| g in held && held[g] == v;
      assert g in more && more[g] == v;
    }
  }

  lemma MoveKey(held: map<Holder, nat>, from: Holder, to: Holder)
    requires Exclusive(held) && from != to
    ensures Move(held, from, to).Values
         == held.Values - if from in held && to in held then {held[to]} else {}
  {
    if from in held {
      RemoveKey(held, from);
      var less := held - {from};
      RemoveKey(less, to);
      PutKey(less - {to}, to, held[from]);
      assert Move(held, from, to) == (less - {to})[to := held[from]];
      assert held[from] in held.Values;
    }
  }

  lemma StepLeaks(s: State, e: Event)
    requires Safe(s)
    ensures Leaked(Step(s, e)) == Leaked(s) + LostBy(s, e)
  {
    match e
    case Allocate(t) => if Guard(t) !in s.held { PutKey(s.held, Guard(t), LeastFree(s.inUse)); }
    case DropGuard(t) => MoveKey(s.held, Guard(t), Pending(s.nextRelease));
    case Register(t, service) =>
      MoveKey(s.held, Guard(t), Handle(service));
      if Handle(service) in s.held { assert s.held[Handle(service)] in s.held.Values; }
    case Take(service) => MoveKey(s.held, Handle(service), Pending(s.nextRelease));
    case Release(r) =>
      RemoveKey(s.held, Pending(r));
      if Pending(r) in s.held { assert s.held[Pending(r)] in s.held.Values; }
    case Discard(service) =>
      RemoveKey(s.held, Handle(service));
      if Handle(service) in s.held { assert s.held[Handle(service)] in s.held.Values; }
    case Abandon(r) =>
      RemoveKey(s.held, Pending(r));
      if Pending(r) in s.held { assert s.held[Pending(r)] in s.held.Values; }
  }

  /** The leaked indices after a run are those leaked before and those its lossy events lost: so the in-use set
      equals the held set for ever exactly when it did at the start and no lossy event hits a live holder. */
  lemma {:induction false} LeaksExactlyWhatIsLost(s: State, events: seq<Event>)
    requires Safe(s)
    ensures Leaked(Run(s, events)) == Leaked(s) + LostInRun(s, events)
    ensures Run(s, events).inUse == Run(s, events).held.Values <==> Leaked(s) == {} && LostInRun(s, events) == {}
    decreases |events|
  {
    RunIsSafe(s, events);
    assert Run(s, events).inUse == Run(s, events).held.Values + Leaked(Run(s, events));
    if events != [] {
      StepIsSafe(s, events[0]);
      StepLeaks(s, events[0]);
      LeaksExactlyWhatIsLost(Step(s, events[0]), events[1..]);
    }
  }

  lemma RunOfThree(s: State, a: Event, b: Event, c: Event)
    ensures Run(s, [a, b, c]) == Step(Step(Step(s, a), b), c)
  {
    RunAppend(s, [], a);
    RunAppend(s, [a], b);
    RunAppend(s, [a, b], c);
    DisplaysGrow(a, b, c, c);
  }

  lemma FirstVm(t: nat, service: string)
    ensures Step(Step(State({}, map[], 0), Allocate(t)), Register(t, service))
         == State({0}, map[Handle(service) := 0], 0)
  {
  }

  /** The three ways to leak: a handle is discarded, a release is abandoned, and a registry insert overwrites a live
      handle. In each the index stays in use with no holder. */
  lemma DroppedIndicesLeak()
    ensures Run(State({}, map[], 0), [Allocate(1), Register(1, "a"), Discard("a")]) == State({0}, map[], 0)
    ensures Run(State({0}, map[Handle("a") := 0], 0), [Take("a"), Abandon(0), Release(0)]) == State({0}, map[], 1)
    ensures Run(State({0}, map[Handle("a") := 0], 0), [Allocate(2), Register(2, "a"), Release(0)])
         == State({0, 1}, map[Handle("a") := 1], 0)
  {
    RunOfThree(State({}, map[], 0), Allocate(1), Register(1, "a"), Discard("a"));
    FirstVm(1, "a");
    RunOfThree(State({0}, map[Handle("a") := 0], 0), Take("a"), Abandon(0), Release(0));
    RunOfThree(State({0}, map[Handle("a") := 0], 0), Allocate(2), Register(2, "a"), Release(0));
    assert LeastFree({0}) == 1;
  }

  lemma RunOfFour(s: State, a: Event, b: Event, c: Event, d: Event)
    ensures Run(s, [a, b, c, d]) == Step(Step(Step(Step(s, a), b), c), d)
  {
    RunOfThree(s, a, b, c);
    RunAppend(s, [a, b, c], d);
    DisplaysGrow(a, b, c, d);
  }

  /** A holder that was not there takes over an index that one alone has. */
  lemma MoveOnce(held: map<Holder, nat>, from: Holder, to: Holder, i: nat)
    requires from !in held && to !in held && from != to
    ensures Move(held[from := i], from, to) == held[to := i]
  {
    assert held[from := i] - {from} == held;
  }

  lemma ReleaseLast(s: State, r: nat, i: nat)
    requires i !in s.inUse && Pending(r) !in s.held
    ensures Step(s.(inUse := s.inUse + {i}, held := s.held[Pending(r) := i]), Release(r)) == s
  {
    assert s.inUse + {i} - {i} == s.inUse;
    assert s.held[Pending(r) := i] - {Pending(r)} == s.held;
  }

  lemma RefusedComesBack(s: State, t: nat, service: string)
    requires Safe(s) && Guard(t) !in s.held && Handle(service) !in s.held && LeastFree(s.inUse) > MAX_TAP_INDEX
    ensures Step(Step(Step(s, Allocate(t)), DropGuard(t)), Release(s.nextRelease))
         == s.(nextRelease := s.nextRelease + 1)
    ensures Step(Step(Step(Step(s, Allocate(t)), Register(t, service)), Take(service)), Release(s.nextRelease))
         == s.(nextRelease := s.nextRelease + 1)
  {
  }

  /** An index comes back: a provision that is abandoned, and one that succeeds and is taken down again, leave the pool
      and its holders as they found them. */
  lemma IndicesComeBack(s: State, t: nat, service: string)
    requires Safe(s) && Guard(t) !in s.held && Handle(service) !in s.held
    ensures Run(s, [Allocate(t), DropGuard(t), Release(s.nextRelease)]) == s.(nextRelease := s.nextRelease + 1)
    ensures Run(s, [Allocate(t), Register(t, service), Take(service), Release(s.nextRelease)])
         == s.(nextRelease := s.nextRelease + 1)
  {
    RunOfThree(s, Allocate(t), DropGuard(t), Release(s.nextRelease));
    RunOfFour(s, Allocate(t), Register(t, service), Take(service), Release(s.nextRelease));
    var i, n := LeastFree(s.inUse), s.nextRelease;
    if i > MAX_TAP_INDEX {
      RefusedComesBack(s, t, service);
    } else {
      assert Pending(n) !in s.held;
      MoveOnce(s.held, Guard(t), Pending(n), i);
      MoveOnce(s.held, Guard(t), Handle(service), i);
      MoveOnce(s.held, Handle(service), Pending(n), i);
      ReleaseLast(s.(nextRelease := n + 1), n, i);
    }
  }

  // ---- First fit: indices stay small, and the pool is exhausted only when it is full ----

  /** The index handed out is smaller than the number in use afterwards. */
  lemma HandsOutBelowSize(s: State, t: nat)
    requires Step(s, Allocate(t)) != s
    ensures var next := Step(s, Allocate(t));
            Guard(t) in next.held && next.held[Guard(t)] < |next.inUse| && next.held[Guard(t)] !in s.inUse
  {
    var i := LeastFree(s.inUse);
    assert |s.inUse + {i}| == |s.inUse| + 1;
  }

  /** A run that never has more than `k` indices in use never hands out an index of `k` or more: whatever is in use at
      its end was so at the start or is below `k`. */
  lemma {:induction false} IndicesStayBelowPeak(s: State, events: seq<Event>, k: nat)
    requires forall n :: 0 <= n <= |events| ==> |Run(s, events[..n]).inUse| <= k
    ensures forall i :: i in Run(s, events).inUse ==> i in s.inUse || i < k
    decreases |events|
  {
    if events != [] {
      var next := Step(s, events[0]);
      assert events[..1] == [events[0]] && Run(next, []) == next;
      assert Run(s, events[..1]) == next;
      if events[0].Allocate? && next != s { HandsOutBelowSize(s, events[0].task); }
      forall n | 0 <= n <= |events[1..]| ensures |Run(next, events[1..][..n]).inUse| <= k {
        assert events[..n + 1][1..] == events[1..][..n];
        assert Run(s, events[..n + 1]) == Run(next, events[1..][..n]);
      }
      IndicesStayBelowPeak(next, events[1..], k);
    }
  }

  function Range(n: nat): (r: set<nat>)
    ensures |r| == n && forall i: nat :: i in r <==> i < n
  {
    if n == 0 then {} else Range(n - 1) + {n - 1}
  }

  lemma SubsetsAreNoLarger<T>(a: set<T>, b: set<T>)
    requires a <= b
    ensures |a| <= |b| && (|a| == |b| ==> a == b)
  {
    assert a + (b - a) == b;
  }

  lemma {:induction false} AsManyHoldersAsIndices(held: map<Holder, nat>)
    requires Exclusive(held)
    ensures |held.Values| == |held|
  {
    if held != map[] {
      var h :| h in held;
      RemoveKey(held, h);
      AsManyHoldersAsIndices(held - {h});
      assert held.Values == (held - {h}).Values + {held[h]};
      assert held.Keys == (held - {h}).Keys + {h};
    } else {
      assert held.Values == {};
    }
  }

  /** Without leaks, a provision is refused exactly when all 3969 indices have a holder. */
  lemma RefusedOnlyWhenFull(s: State, events: seq<Event>, t: nat)
    requires Safe(s) && Leaked(s) == {} && LostInRun(s, events) == {}
    requires Guard(t) !in Run(s, events).held
    ensures Step(Run(s, events), Allocate(t)) == Run(s, events) <==> |Run(s, events).held| == 3969
  {
    var now := Run(s, events);
    RunIsSafe(s, events);
    LeaksExactlyWhatIsLost(s, events);
    AsManyHoldersAsIndices(now.held);
    var all := Range(MAX_TAP_INDEX + 1);
    assert now.inUse <= all;
    SubsetsAreNoLarger(now.inUse, all);
    var i := LeastFree(now.inUse);
    if i <= MAX_TAP_INDEX {
      assert i in all && i !in now.inUse;
      assert Guard(t) in Step(now, Allocate(t)).held;
    } else {
      assert all <= now.inUse;
    }
  }

  // ---- Daemon start: the set is rebuilt from the database, stale rows are released, the registry is rebuilt ----

  datatype Status = Running | Provisioning | Failed | Other

  /** A Metal service row of this node that is not deleted and names a TAP. */
  datatype Row = Row(id: string, index: nat, status: Status, fcPid: Option<nat>)

  predicate InitsPool(row: Row) { row.status == Running || row.status == Provisioning }

  predicate IsStale(row: Row) { row.status == Provisioning || row.status == Failed }

  predicate IsRebuilt(row: Row) { row.status == Running && row.fcPid.Some? }

  /** Whether each of the start's three queries is answered: the one that fills the set, the one that finds stale
      rows, and the one that rebuilds the registry. Each makes its own connection, and each failure is logged and
      passed over. */
  datatype Answers = Answers(init: bool, stale: bool, rebuild: bool)

  function Startup(rows: seq<Row>, db: Answers): State {
    State((set r | db.init && r in rows && InitsPool(r) :: r.index)
            - (set r | db.stale && r in rows && IsStale(r) :: r.index),
          map id | id in (set r | db.rebuild && r in rows && IsRebuilt(r) :: r.id)
            :: Handle(id) := RowOf(rows, id).index, 0)
  }

  /** The last row with this id: later registry inserts overwrite earlier ones. */
  function RowOf(rows: seq<Row>, id: string): (row: Row)
    requires exists r :: r in rows && IsRebuilt(r) && r.id == id
    ensures row in rows && IsRebuilt(row) && row.id == id
  {
    var last := rows[|rows| - 1];
    if IsRebuilt(last) && last.id == id then last
    else
      assert exists r :: r in rows[..|rows| - 1] && IsRebuilt(r) && r.id == id by {
        var r :| r in rows && IsRebuilt(r) && r.id == id;
        assert r in rows[..|rows| - 1];
      }
      RowOf(rows[..|rows| - 1], id)
  }

  /** The rebuilt VMs have distinct indices. */
  ghost predicate RebuiltApart(rows: seq<Row>) {
    forall a, b :: a in rows && b in rows && IsRebuilt(a) && IsRebuilt(b) && a.index == b.index ==> a == b
  }

  /** No provisioning or failed row carries the name of a rebuilt VM. */
  ghost predicate StaleApart(rows: seq<Row>) {
    forall a, b :: a in rows && b in rows && IsRebuilt(a) && IsStale(b) ==> a.index != b.index
  }

  /** When a start is safe: it rebuilds nothing, or it filled the set, the rebuilt VMs have distinct indices and the
      clean-up, if it ran, released none of them. */
  ghost predicate CleanStart(rows: seq<Row>, db: Answers) {
    db.rebuild && (exists r :: r in rows && IsRebuilt(r))
    ==> db.init && RebuiltApart(rows) && (db.stale ==> StaleApart(rows))
  }

  lemma RebuiltIsHeld(rows: seq<Row>, db: Answers, row: Row)
    requires forall a, b :: a in rows && b in rows && a.id == b.id ==> a == b   // primary key
    requires db.rebuild && row in rows && IsRebuilt(row)
    ensures Handle(row.id) in Startup(rows, db).held && Startup(rows, db).held[Handle(row.id)] == row.index
  {
    assert row.id in (set q | db.rebuild && q in rows && IsRebuilt(q) :: q.id);
  }

  lemma HeldIsRebuilt(rows: seq<Row>, db: Answers, h: Holder) returns (row: Row)
    requires h in Startup(rows, db).held
    ensures db.rebuild && h.Handle? && row in rows && IsRebuilt(row) && row.id == h.service
    ensures Startup(rows, db).held[h] == row.index
  {
    row := RowOf(rows, h.service);
  }

  /** After a start an index is in use if a running or provisioning row names it and no provisioning or failed row does,
      as far as the queries are answered, and held by exactly the running rows with a process. */
  lemma StartupHolds(rows: seq<Row>, db: Answers)
    requires forall a, b :: a in rows && b in rows && a.id == b.id ==> a == b   // primary key
    ensures forall i :: i in Startup(rows, db).inUse
              <==> && (db.init && exists r :: r in rows && r.index == i && r.status in {Running, Provisioning})
                   && !(db.stale && exists r :: r in rows && r.index == i && r.status in {Provisioning, Failed})
    ensures forall h :: h in Startup(rows, db).held
              <==> db.rebuild && exists r :: r in rows && h == Handle(r.id) && r.status == Running && r.fcPid.Some?
    ensures forall r :: r in rows && Handle(r.id) in Startup(rows, db).held
              ==> Startup(rows, db).held[Handle(r.id)] == r.index
  {
    forall r | r in rows && db.rebuild && r.status == Running && r.fcPid.Some?
      ensures Handle(r.id) in Startup(rows, db).held
    {
      RebuiltIsHeld(rows, db, r);
    }
    forall h | h in Startup(rows, db).held
      ensures db.rebuild && exists r :: r in rows && h == Handle(r.id) && r.status == Running && r.fcPid.Some?
    {
      var row := HeldIsRebuilt(rows, db, h);
    }
    forall r | r in rows && Handle(r.id) in Startup(rows, db).held
      ensures Startup(rows, db).held[Handle(r.id)] == r.index
    {
      var row := HeldIsRebuilt(rows, db, Handle(r.id));
    }
  }

  lemma CleanStartIsSafe(rows: seq<Row>, db: Answers)
    requires forall r :: r in rows ==> r.index <= MAX_TAP_INDEX
    requires CleanStart(rows, db)
    ensures Safe(Startup(rows, db))
  {
    var s := Startup(rows, db);
    forall h | h in s.held ensures s.held[h] in s.inUse && s.held[h] <= MAX_TAP_INDEX {
      var row := HeldIsRebuilt(rows, db, h);
      assert InitsPool(row);
    }
    forall g, h | g in s.held && h in s.held && s.held[g] == s.held[h] ensures g == h {
      var a := HeldIsRebuilt(rows, db, g);
      var b := HeldIsRebuilt(rows, db, h);
    }
  }

  /** Safe starts are exactly the clean ones, for all rows and all answers of the database. */
  lemma StartupIsSafeIffClean(rows: seq<Row>, db: Answers)
    requires forall r :: r in rows ==> r.index <= MAX_TAP_INDEX
    requires forall a, b :: a in rows && b in rows && a.id == b.id ==> a == b   // primary key
    ensures Safe(Startup(rows, db)) <==> CleanStart(rows, db)
  {
    var s := Startup(rows, db);
    if CleanStart(rows, db) {
      CleanStartIsSafe(rows, db);
    } else if Safe(s) {
      forall r | r in rows && IsRebuilt(r) ensures Handle(r.id) in s.held && s.held[Handle(r.id)] == r.index {
        RebuiltIsHeld(rows, db, r);
      }
      forall a, b | a in rows && b in rows && IsRebuilt(a) && IsRebuilt(b) && a.index == b.index ensures a == b {
        assert Handle(a.id) == Handle(b.id);
      }
      assert false;
    }
  }

  /** An unsafe start from unclean rows: a service that was stopped and restarted keeps the name of its old TAP in its
      row while another VM runs on it; the stale clean-up then frees the running VM's index. */
  lemma StaleRowFreesARunningIndex()
    ensures var rows, db := [Row("a", 0, Running, Some(7)), Row("b", 0, Provisioning, None)], Answers(true, true, true);
            && Startup(rows, db).held == map[Handle("a") := 0]
            && Step(Startup(rows, db), Allocate(1)).held == map[Handle("a") := 0, Guard(1) := 0]
            && !Safe(Step(Startup(rows, db), Allocate(1)))
  {
    var a, b := Row("a", 0, Running, Some(7)), Row("b", 0, Provisioning, None);
    var rows, db := [a, b], Answers(true, true, true);
    OneVmStart(rows, db, a);
    assert b.index in (set r | db.stale && r in rows && IsStale(r) :: r.index);
    assert 0 !in Startup(rows, db).inUse;
    GivenOutTwice(Startup(rows, db), Handle("a"));
  }

  /** An unsafe start from clean rows: the query that fills the set fails, the one that rebuilds the registry does
      not, and the next allocation hands out the index of the running VM. */
  lemma FailedInitFreesARunningIndex()
    ensures var rows, db := [Row("a", 0, Running, Some(7))], Answers(false, true, true);
            && RebuiltApart(rows) && StaleApart(rows)
            && Startup(rows, db).held == map[Handle("a") := 0]
            && Step(Startup(rows, db), Allocate(1)).held == map[Handle("a") := 0, Guard(1) := 0]
            && !Safe(Step(Startup(rows, db), Allocate(1)))
  {
    var a := Row("a", 0, Running, Some(7));
    var rows, db := [a], Answers(false, true, true);
    OneVmStart(rows, db, a);
    assert 0 !in Startup(rows, db).inUse;
    GivenOutTwice(Startup(rows, db), Handle("a"));
  }

  lemma OneVmStart(rows: seq<Row>, db: Answers, vm: Row)
    requires db.rebuild && vm in rows && IsRebuilt(vm) && forall r :: r in rows && IsRebuilt(r) ==> r == vm
    ensures Startup(rows, db).held == map[Handle(vm.id) := vm.index]
  {
    var ids := set r | db.rebuild && r in rows && IsRebuilt(r) :: r.id;
    assert vm.id in ids;
    assert ids == {vm.id};
    assert RowOf(rows, vm.id) == vm;
  }

  lemma GivenOutTwice(s: State, h: Holder)
    requires s.held == map[h := 0] && h != Guard(1) && 0 !in s.inUse
    ensures Step(s, Allocate(1)).held == map[h := 0, Guard(1) := 0] && !Safe(Step(s, Allocate(1)))
  {
    var next := Step(s, Allocate(1));
    assert LeastFree(s.inUse) == 0;
    assert h in next.held && Guard(1) in next.held && next.held[h] == next.held[Guard(1)];
  }
}
