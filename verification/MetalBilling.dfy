/** Fixed monthly billing of Metal services: the first month at deploy and the hourly cycle
    (crates/api/src/routes/deployments.rs:314-377; crates/api/src/billing.rs:274-332). Times are whole units of one
    clock, of which a cycle has `MONTH`. */
module MetalBilling {
  import opened Prelude
  import opened Ledger

  /** 30 days in microseconds, the resolution of a timestamp. */
  const MONTH: int := 30 * 24 * 3600 * 1_000_000

  function MonthPosting(id: string, workspace: string, price: nat): Posting {
    Posting(workspace, -(price * MICROCREDITS_PER_CENT), MetalMonthly, "", None, Some(id))
  }

  /** The billing part of a deploy: the service row, and for Metal the charge of the first month. */
  function Deployed(b: Books, id: string, workspace: string, price: Option<nat>, at: int): Books
    requires workspace in b.accounts
  {
    var inserted := b.(services := b.services[id := Service(workspace, price, at, at, true, false)]);
    if price.Some? then Post(inserted, MonthPosting(id, workspace, price.value), at) else inserted
  }

  predicate IsDue(s: Service, now: int) { s.price.Some? && s.cycleStart + MONTH <= now && s.active && !s.deleted }

  /** The rows of one pass: due services that no other instance has locked. */
  ghost predicate IsPass(b: Books, ids: seq<string>, now: int) {
    && (forall id :: id in ids ==> Billable(b, id) && IsDue(b.services[id], now))
    && Distinct(ids)
  }

  predicate Billable(b: Books, id: string) {
    id in b.services && b.services[id].price.Some? && b.services[id].workspace in b.accounts
  }

  /** One row of the pass. The suspension is queued whatever the balance. */
  function BillMonth(b: Books, id: string, now: int): Books
    requires Billable(b, id)
  {
    var s := b.services[id];
    var charged :=
      if s.price.value * MICROCREDITS_PER_CENT > 0
      then QueueSuspend(Post(b, MonthPosting(id, s.workspace, s.price.value), now), s.workspace) else b;
    charged.(services := charged.services[id := s.(cycleStart := s.cycleStart + MONTH)])
  }

  predicate SameButCycle(s: Service, t: Service) {
    s.workspace == t.workspace && s.price == t.price && s.deployedAt == t.deployedAt && s.active == t.active
    && s.deleted == t.deleted
  }

  /** Only money and cycle starts differ. */
  predicate SameTables(b: Books, r: Books) {
    && r.accounts.Keys == b.accounts.Keys && r.services.Keys == b.services.Keys
    && r.customers == b.customers && r.usage == b.usage
    && forall id :: id in b.services ==> SameButCycle(b.services[id], r.services[id])
  }

  function BillMonths(b: Books, ids: seq<string>, now: int): (r: Books)
    requires forall id :: id in ids ==> Billable(b, id)
    ensures SameTables(b, r)
    decreases |ids|
  {
    if ids == [] then b
    else
      var before, last := BillMonths(b, ids[..|ids| - 1], now), ids[|ids| - 1];
      assert Billable(b, last) && SameButCycle(b.services[last], before.services[last]);
      BillMonth(before, last, now)
  }

  // ---- What a service has been charged ----

  function ChargedFor(ledger: seq<Entry>, id: string): int {
    if ledger == [] then 0
    else
      var p := ledger[|ledger| - 1].posting;
      ChargedFor(ledger[..|ledger| - 1], id) + if p.kind == MetalMonthly && p.service == Some(id) then -p.amount else 0
  }

  lemma ChargedSnoc(ledger: seq<Entry>, e: Entry, id: string)
    ensures ChargedFor(ledger + [e], id) == ChargedFor(ledger, id)
         + if e.posting.kind == MetalMonthly && e.posting.service == Some(id) then -e.posting.amount else 0
  {
    assert (ledger + [e])[..|ledger + [e]| - 1] == ledger;
  }

  /** Renewals so far: the cycle start has moved by that many months since the deploy. */
  function Renewals(s: Service): int { (s.cycleStart - s.deployedAt) / MONTH }

  /** The price of `n` months in micro-credits. */
  function Months(price: Option<nat>, n: int): nat {
    if price.None? || n <= 0 then 0 else Months(price, n - 1) + price.value * MICROCREDITS_PER_CENT
  }

  lemma {:induction false} MonthsIsAProduct(price: nat, n: nat)
    ensures Months(Some(price), n) == n * (price * MICROCREDITS_PER_CENT)
  {
    if n > 0 { MonthsIsAProduct(price, n - 1); }
  }

  /** A service has been charged its price for the first month and for every renewal, to the micro-credit, and no
      renewal lies in the future. */
  ghost predicate ChargedToDate(b: Books, id: string, now: int)
    requires id in b.services
  {
    var s := b.services[id];
    && s.cycleStart == s.deployedAt + Renewals(s) * MONTH && s.deployedAt <= s.cycleStart <= now
    && ChargedFor(b.ledger, id) == Months(s.price, 1 + Renewals(s))
  }

  lemma RenewalsAdvance(s: Service)
    requires s.cycleStart == s.deployedAt + Renewals(s) * MONTH
    ensures Renewals(s.(cycleStart := s.cycleStart + MONTH)) == Renewals(s) + 1
  {
    assert (s.cycleStart + MONTH - s.deployedAt) / MONTH == Renewals(s) + 1;
  }

  lemma OneMonthMore(price: Option<nat>, n: int)
    requires price.Some? && n >= 0
    ensures Months(price, n) + price.value * MICROCREDITS_PER_CENT == Months(price, n + 1)
  {
  }

  lemma PostingChargesFor(b: Books, p: Posting, at: int, id: string)
    requires p.workspace in b.accounts
    ensures ChargedFor(Post(b, p, at).ledger, id)
         == ChargedFor(b.ledger, id) + if p.kind == MetalMonthly && p.service == Some(id) then -p.amount else 0
  {
    ChargedSnoc(b.ledger, Entry(p, b.accounts[p.workspace].balance + p.amount, at), id);
  }

  predicate ChargedAMonth(b: Books, r: Books, id: string)
    requires Billable(b, id) && id in r.services
  {
    && r.services[id] == b.services[id].(cycleStart := b.services[id].cycleStart + MONTH)
    && ChargedFor(r.ledger, id) == ChargedFor(b.ledger, id) + b.services[id].price.value * MICROCREDITS_PER_CENT
  }

  predicate NotCharged(b: Books, r: Books, id: string)
    requires id in b.services && id in r.services
  {
    r.services[id] == b.services[id] && ChargedFor(r.ledger, id) == ChargedFor(b.ledger, id)
  }

  /** One row of a pass moves exactly its own service, by one month's price. */
  lemma MonthCharges(b: Books, id: string, now: int, other: string)
    requires Billable(b, id) && other in b.services
    ensures if other == id then ChargedAMonth(b, BillMonth(b, id, now), id)
            else NotCharged(b, BillMonth(b, id, now), other)
  {
    var s := b.services[id];
    PostingChargesFor(b, MonthPosting(id, s.workspace, s.price.value), now, other);
  }

  lemma LastOfPass(b: Books, ids: seq<string>, now: int, id: string)
    requires (forall i :: i in ids ==> Billable(b, i)) && Distinct(ids) && id in b.services && ids != []
    ensures var init, last := ids[..|ids| - 1], ids[|ids| - 1];
            var before, after := BillMonths(b, init, now), BillMonths(b, ids, now);
            && Billable(before, last) && Billable(b, last) && last !in init
            && before.services[last].price == b.services[last].price
            && if id == last then ChargedAMonth(before, after, id) else NotCharged(before, after, id)
  {
    var init, last := ids[..|ids| - 1], ids[|ids| - 1];
    assert last in ids;
    assert SameButCycle(b.services[last], BillMonths(b, init, now).services[last]);
    MonthCharges(BillMonths(b, init, now), last, now, id);
  }

  /** A pass charges each of its services exactly once, and no other. */
  lemma {:induction false} PassChargesOnce(b: Books, ids: seq<string>, now: int, id: string)
    requires (forall i :: i in ids ==> Billable(b, i)) && Distinct(ids) && id in b.services
    ensures if id in ids then ChargedAMonth(b, BillMonths(b, ids, now), id)
            else NotCharged(b, BillMonths(b, ids, now), id)
    decreases |ids|
  {
    if ids != [] {
      var init := ids[..|ids| - 1];
      assert ids == init + [ids[|ids| - 1]];
      PassChargesOnce(b, init, now, id);
      LastOfPass(b, ids, now, id);
    }
  }

  lemma MonthKeepsChargedToDate(b: Books, r: Books, id: string, now: int)
    requires Billable(b, id) && IsDue(b.services[id], now) && ChargedToDate(b, id, now)
    requires id in r.services && ChargedAMonth(b, r, id)
    ensures ChargedToDate(r, id, now)
  {
    var s := b.services[id];
    RenewalsAdvance(s);
    OneMonthMore(s.price, 1 + Renewals(s));
  }

  lemma UnchargedStaysChargedToDate(b: Books, r: Books, id: string, now: int)
    requires id in b.services && id in r.services && NotCharged(b, r, id) && ChargedToDate(b, id, now)
    ensures ChargedToDate(r, id, now)
  {
  }

  /** A pass at `at` keeps every account correct at any later time. */
  lemma PassKeepsChargedToDate(b: Books, ids: seq<string>, at: int, now: int, id: string)
    requires IsPass(b, ids, at) && at <= now && id in b.services && ChargedToDate(b, id, now)
    ensures ChargedToDate(BillMonths(b, ids, at), id, now)
  {
    var r := BillMonths(b, ids, at);
    PassChargesOnce(b, ids, at, id);
    if id in ids {
      assert IsDue(b.services[id], at);
      MonthKeepsChargedToDate(b, r, id, now);
    } else {
      UnchargedStaysChargedToDate(b, r, id, now);
    }
  }

  lemma DeployCharges(b: Books, id: string, workspace: string, price: Option<nat>, at: int)
    requires workspace in b.accounts && id !in b.services && ChargedFor(b.ledger, id) == 0
    ensures ChargedToDate(Deployed(b, id, workspace, price, at), id, at)
  {
    if price.Some? {
      var inserted := b.(services := b.services[id := Service(workspace, price, at, at, true, false)]);
      PostingChargesFor(inserted, MonthPosting(id, workspace, price.value), at, id);
    }
  }

  /** A pass can charge exactly the services with a price that are running or being provisioned, not deleted, and whose
      cycle began at least 30 days ago. */
  lemma ChargeableIff(b: Books, id: string, now: int)
    requires id in b.services && b.services[id].workspace in b.accounts
    ensures var s := b.services[id];
            (exists ids :: IsPass(b, ids, now) && id in ids)
            <==> s.price.Some? && s.active && !s.deleted && now - s.cycleStart >= 2_592_000_000_000
  {
    if IsDue(b.services[id], now) {
      assert IsPass(b, [id], now) && id in [id];
    }
    assert MONTH == 2_592_000_000_000;
  }

  /** A service just deployed is charged again from 30 days later on if it has a price, and otherwise never. */
  lemma DeployedIsDueIff(b: Books, id: string, workspace: string, price: Option<nat>, at: int, now: int)
    requires workspace in b.accounts
    ensures var r := Deployed(b, id, workspace, price, at);
            && r.services == b.services[id := r.services[id]] && r.services[id].workspace == workspace
            && (IsDue(r.services[id], now) <==> price.Some? && now - at >= 2_592_000_000_000)
            && (forall ws :: ws in b.accounts ==>
                  r.accounts[ws].balance == b.accounts[ws].balance
                                            - if ws == workspace && price.Some? then price.value * 10_000 else 0)
  {
    assert MONTH == 2_592_000_000_000;
  }

  // ---- Catching up ----

  /** Whole cycles that have elapsed and are not charged yet. */
  function Overdue(cycleStart: int, now: int): nat
    decreases now - cycleStart
  {
    if cycleStart + MONTH <= now then 1 + Overdue(cycleStart + MONTH, now) else 0
  }

  lemma {:induction false} OverdueIsWholeCycles(cycleStart: int, now: int)
    ensures Overdue(cycleStart, now) == if cycleStart <= now then (now - cycleStart) / MONTH else 0
    decreases now - cycleStart
  {
    if cycleStart + MONTH <= now {
      OverdueIsWholeCycles(cycleStart + MONTH, now);
      assert (now - cycleStart - MONTH) / MONTH == (now - cycleStart) / MONTH - 1;
    }
  }

  /** `n` passes at one time in a row, each taking every service of `ids` that is due then. */
  function DueOnes(b: Books, ids: seq<string>, now: int): (r: seq<string>)
    ensures forall id :: id in r <==> id in ids && Billable(b, id) && IsDue(b.services[id], now)
    ensures Distinct(ids) ==> Distinct(r)
  {
    if ids == [] then []
    else
      var init, last := ids[..|ids| - 1], ids[|ids| - 1];
      assert Distinct(ids) ==> Distinct(init) && last !in init;
      DueOnes(b, init, now) + if Billable(b, last) && IsDue(b.services[last], now) then [last] else []
  }

  function Passes(b: Books, ids: seq<string>, now: int, n: nat): (r: Books)
    ensures SameTables(b, r)
  {
    if n == 0 then b
    else
      var before := Passes(b, ids, now, n - 1);
      BillMonths(before, DueOnes(before, ids, now), now)
  }

  /** What is left of `overdue` cycles when up to `n` of them are taken off. */
  function Left(overdue: nat, n: nat): nat {
    if n >= overdue then 0 else overdue - n
  }

  /** From `b` to `r`, up to `n` of the overdue cycles of `id` were charged. */
  predicate CaughtUpBy(b: Books, r: Books, id: string, now: int, n: nat)
    requires Billable(b, id) && id in r.services
  {
    var before, after := Overdue(b.services[id].cycleStart, now), Overdue(r.services[id].cycleStart, now);
    && after == Left(before, n)
    && ChargedFor(r.ledger, id) == ChargedFor(b.ledger, id) + Months(b.services[id].price, before - after)
  }

  lemma MonthCatchesUp(b: Books, r: Books, id: string, now: int)
    requires Billable(b, id) && IsDue(b.services[id], now) && id in r.services && ChargedAMonth(b, r, id)
    ensures CaughtUpBy(b, r, id, now, 1)
  {
    assert Months(b.services[id].price, 1) == b.services[id].price.value * MICROCREDITS_PER_CENT;
  }

  lemma NothingToCatchUp(b: Books, r: Books, id: string, now: int)
    requires Billable(b, id) && b.services[id].active && !b.services[id].deleted && !IsDue(b.services[id], now)
    requires id in r.services && NotCharged(b, r, id)
    ensures CaughtUpBy(b, r, id, now, 1)
  {
    assert Months(b.services[id].price, 0) == 0;
  }

  lemma OnePassCatchesUp(b: Books, ids: seq<string>, now: int, id: string)
    requires Distinct(ids) && id in ids && Billable(b, id) && b.services[id].active && !b.services[id].deleted
    ensures CaughtUpBy(b, BillMonths(b, DueOnes(b, ids, now), now), id, now, 1)
  {
    var due := DueOnes(b, ids, now);
    var r := BillMonths(b, due, now);
    PassChargesOnce(b, due, now, id);
    if id in due { MonthCatchesUp(b, r, id, now); } else { NothingToCatchUp(b, r, id, now); }
  }

  lemma {:induction false} MonthsAdd(price: Option<nat>, m: nat, n: nat)
    ensures Months(price, m) + Months(price, n) == Months(price, m + n)
    decreases n
  {
    if n > 0 { MonthsAdd(price, m, n - 1); }
  }

  lemma CatchingUpAdds(b: Books, m: Books, r: Books, id: string, now: int, n: nat)
    requires Billable(b, id) && Billable(m, id) && id in r.services && b.services[id].price == m.services[id].price
    requires CaughtUpBy(b, m, id, now, n) && CaughtUpBy(m, r, id, now, 1)
    ensures CaughtUpBy(b, r, id, now, n + 1)
  {
    var o0, o1 := Overdue(b.services[id].cycleStart, now), Overdue(m.services[id].cycleStart, now);
    var o2 := Overdue(r.services[id].cycleStart, now);
    MonthsAdd(b.services[id].price, o0 - o1, o1 - o2);
  }

  /** `id` is a service that the passes charge whenever it is due. */
  predicate Eligible(b: Books, ids: seq<string>, id: string) {
    id in ids && Billable(b, id) && b.services[id].active && !b.services[id].deleted
  }

  /** The accounts of `id` after passes that differ from `b` in money and cycle starts only. */
  predicate CaughtUp(b: Books, r: Books, id: string, now: int, n: nat) {
    Billable(b, id) && id in r.services && CaughtUpBy(b, r, id, now, n)
  }

  lemma OnePassMore(b: Books, m: Books, r: Books, ids: seq<string>, now: int, n: nat, id: string)
    requires Distinct(ids) && Eligible(b, ids, id) && SameTables(b, m) && n > 0 && CaughtUp(b, m, id, now, n - 1)
    requires r == BillMonths(m, DueOnes(m, ids, now), now)
    ensures CaughtUp(b, r, id, now, n)
  {
    assert SameButCycle(b.services[id], m.services[id]);
    OnePassCatchesUp(m, ids, now, id);
    CatchingUpAdds(b, m, r, id, now, n - 1);
  }

  lemma NoPass(b: Books, ids: seq<string>, now: int, id: string)
    requires Eligible(b, ids, id)
    ensures CaughtUp(b, Passes(b, ids, now, 0), id, now, 0)
  {
    assert Months(b.services[id].price, 0) == 0;
  }

  /** Each pass takes one overdue cycle off an eligible service, until none is left: as many passes as cycles are
      overdue catch up, and further ones change nothing. */
  lemma RepeatedPassesCatchUp(b: Books, ids: seq<string>, now: int, n: nat, id: string)
    requires Distinct(ids) && Eligible(b, ids, id)
    ensures CaughtUp(b, Passes(b, ids, now, n), id, now, n)
  {
    NoPass(b, ids, now, id);
    var k, r := 0, b;
    while k < n
      invariant k <= n && r == Passes(b, ids, now, k) && CaughtUp(b, r, id, now, k)
    {
      var next := Passes(b, ids, now, k + 1);
      OnePassMore(b, r, next, ids, now, k + 1, id);
      k, r := k + 1, next;
    }
  }

  // ---- Suspensions ----

  /** Charges of a pass that cost something. */
  function Costly(b: Books, ids: seq<string>): nat
    requires forall id :: id in ids ==> Billable(b, id)
  {
    if ids == [] then 0
    else
      var last := ids[|ids| - 1];
      assert Billable(b, last);
      Costly(b, ids[..|ids| - 1]) + if b.services[last].price.value > 0 then 1 else 0
  }

  lemma MonthSuspends(b: Books, id: string, now: int)
    requires Billable(b, id) && b.services[id].active && !b.services[id].deleted
    ensures BillMonth(b, id, now).notices
         == b.notices + if b.services[id].price.value > 0 then [Suspend(b.services[id].workspace)] else []
  {
    var s := b.services[id];
    if s.price.value > 0 {
      assert HasActive(Post(b, MonthPosting(id, s.workspace, s.price.value), now), s.workspace);
    }
  }

  /** A pass queues one suspension for each charge it makes, whatever the balances are: the service that is charged is
      itself active. */
  lemma {:induction false} PassSuspendsForEveryCharge(b: Books, ids: seq<string>, now: int)
    requires IsPass(b, ids, now)
    ensures var notices := BillMonths(b, ids, now).notices;
            && |notices| == |b.notices| + Costly(b, ids) && b.notices <= notices
            && forall n :: n in notices[|b.notices|..] ==> n.Suspend?
    decreases |ids|
  {
    if ids != [] {
      var init, last := ids[..|ids| - 1], ids[|ids| - 1];
      assert Billable(b, last) && IsDue(b.services[last], now);
      PassSuspendsForEveryCharge(b, init, now);
      var before := BillMonths(b, init, now);
      assert SameButCycle(b.services[last], before.services[last]);
      MonthSuspends(before, last, now);
    }
  }

  predicate SuspendsOnlyTheDepleted(b: Books, id: string, now: int)
    requires Billable(b, id)
  {
    var r := BillMonth(b, id, now);
    r.notices == b.notices || r.accounts[b.services[id].workspace].balance <= 0
  }

  /** The intended rule, to suspend only a workspace that is left with nothing, is kept by a charge if and only if the
      service is free or the balance did not exceed its price. */
  lemma SuspendsOnlyTheDepletedIff(b: Books, id: string, now: int)
    requires Billable(b, id) && IsDue(b.services[id], now)
    ensures var s := b.services[id];
            SuspendsOnlyTheDepleted(b, id, now)
            <==> s.price.value == 0 || b.accounts[s.workspace].balance <= s.price.value * MICROCREDITS_PER_CENT
  {
    MonthSuspends(b, id, now);
  }

  /** A paying workspace with a hundred times the price on its account is suspended at its first renewal. */
  lemma FundedWorkspaceIsSuspended(id: string, workspace: string)
    ensures var price, paid := 2000, 100 * 2000 * MICROCREDITS_PER_CENT;
            var b := Books(map[workspace := Account(paid, 0, false)], map[],
                           map[id := Service(workspace, Some(price), 0, 0, true, false)], [], [], []);
            && IsPass(b, [id], MONTH)
            && BillMonths(b, [id], MONTH).notices == [Suspend(workspace)]
            && BillMonths(b, [id], MONTH).accounts[workspace].balance == 99 * 2000 * MICROCREDITS_PER_CENT
  {
    var price, paid := 2000, 100 * 2000 * MICROCREDITS_PER_CENT;
    var b := Books(map[workspace := Account(paid, 0, false)], map[],
                   map[id := Service(workspace, Some(price), 0, 0, true, false)], [], [], []);
    assert [id][..|[id]| - 1] == [];
    assert BillMonths(b, [id], MONTH) == BillMonth(b, id, MONTH);
    MonthSuspends(b, id, MONTH);
  }

  // ---- Money ----

  lemma MonthKeepsBalanced(opening: map<string, int>, b: Books, id: string, now: int)
    requires Balanced(opening, b) && Billable(b, id)
    ensures Balanced(opening, BillMonth(b, id, now))
  {
    var s := b.services[id];
    var p := MonthPosting(id, s.workspace, s.price.value);
    PostKeepsBalanced(opening, b, p, now);
    if s.price.value * MICROCREDITS_PER_CENT > 0 {
      SameMoney(opening, Post(b, p, now), BillMonth(b, id, now));
    } else {
      SameMoney(opening, b, BillMonth(b, id, now));
    }
  }

  lemma {:induction false} PassKeepsBalanced(opening: map<string, int>, b: Books, ids: seq<string>, now: int)
    requires Balanced(opening, b) && forall id :: id in ids ==> Billable(b, id)
    ensures Balanced(opening, BillMonths(b, ids, now))
    decreases |ids|
  {
    if ids != [] {
      var before, last := BillMonths(b, ids[..|ids| - 1], now), ids[|ids| - 1];
      PassKeepsBalanced(opening, b, ids[..|ids| - 1], now);
      assert Billable(b, last) && SameButCycle(b.services[last], before.services[last]);
      MonthKeepsBalanced(opening, before, last, now);
    }
  }

  lemma DeployKeepsBalanced(opening: map<string, int>, b: Books, id: string, workspace: string, price: Option<nat>,
                            at: int)
    requires Balanced(opening, b) && workspace in b.accounts
    ensures Balanced(opening, Deployed(b, id, workspace, price, at))
  {
    var inserted := b.(services := b.services[id := Service(workspace, price, at, at, true, false)]);
    SameMoney(opening, b, inserted);
    if price.Some? { PostKeepsBalanced(opening, inserted, MonthPosting(id, workspace, price.value), at); }
  }
}
