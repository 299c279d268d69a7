/** Runs of all the billing operations together, and what holds after every one of them: the ledger adds up, sessions
    are credited once, Metal services are charged to date and the free allowance does not depend on the batches. */
module Billing {
  import opened Prelude
  import opened Ledger
  import L = LiquidBilling
  import M = MetalBilling
  import I = Invoices

  /** The transactions whose reads and writes no other can come between, for the rows they lock. */
  datatype Op =
    | Deploy(id: string, workspace: string, price: Option<nat>, now: int)
    | ServiceChanges(id: string, active: bool, deleted: bool)   // any other change of a service's status
    | RecordUsage(workspace: string, quantity: int)
    | BillMetal(ids: seq<string>, now: int)
    | ResetFree(due: set<string>)
    | CheckoutCompleted(customer: string, session: string, cents: int, intent: string, now: int)
    | ChargeRefunded(payer: Option<string>, cents: int, charge: string, now: int)
    | ReversesTopUp(found: Posting, intent: string, now: int)   // a failed payment, after its look into the ledger

  /** When the transaction can commit at all. */
  ghost predicate Enabled(b: Books, op: Op) {
    match op
    case Deploy(id, workspace, _, _) => workspace in b.accounts && id !in b.services
    case ServiceChanges(id, _, _) => id in b.services
    case RecordUsage(workspace, _) => workspace in b.accounts
    case BillMetal(ids, now) => M.IsPass(b, ids, now)
    case ReversesTopUp(found, intent, _) => found.workspace in b.accounts && found in TopUpsFor(b.ledger, intent)
    case _ => true
  }

  ghost function Apply(b: Books, op: Op): Books {
    if !Enabled(b, op) then b
    else match op
      case Deploy(id, workspace, price, now) => M.Deployed(b, id, workspace, price, now)
      case ServiceChanges(id, active, deleted) =>
        b.(services := b.services[id := b.services[id].(active := active, deleted := deleted)])
      case RecordUsage(workspace, quantity) => b.(usage := b.usage + [Usage(workspace, quantity, false)])
      case BillMetal(ids, now) => M.BillMonths(b, ids, now)
      case ResetFree(due) => L.FreeReset(b, due)
      case CheckoutCompleted(customer, session, cents, intent, now) =>
        Checkout(b, customer, session, cents, intent, now).0
      case ChargeRefunded(customer, cents, charge, now) => Refunded(b, customer, cents, charge, now).0
      case ReversesTopUp(found, intent, now) => Reverse(b, Found(found), intent, now).0
  }

  /** The books, and the aggregations that have run their query and not yet committed, by API instance. */
  datatype State = State(books: Books, batches: map<nat, L.Batch>)

  datatype Event =
    | Act(op: Op)
    | Query(instance: nat, locked: set<nat>, groups: seq<string>)
    | Commit(instance: nat, now: int)
    | GiveUp(instance: nat)

  /** A query gets rows that are unbilled and that no open aggregation has locked. */
  ghost predicate CanQuery(s: State, instance: nat, locked: set<nat>, groups: seq<string>) {
    && instance !in s.batches
    && (forall i :: i in locked ==> L.IsUnbilled(s.books, i, groups))
    && (forall k :: k in s.batches ==> s.batches[k].locked !! locked)
    && (forall ws :: ws in groups ==> ws in s.books.accounts) && Distinct(groups)
  }

  ghost predicate CanCommit(s: State, instance: nat) {
    instance in s.batches && L.IsOpen(s.books, s.batches[instance])
  }

  ghost function Step(s: State, e: Event): State {
    match e
    case Act(op) => s.(books := Apply(s.books, op))
    case Query(instance, locked, groups) =>
      if !CanQuery(s, instance, locked, groups) then s
      else s.(batches := s.batches[instance := L.Queried(s.books, locked, groups)])
    case Commit(instance, now) =>
      if !CanCommit(s, instance) then s
      else State(L.Aggregated(s.books, s.batches[instance], now), s.batches - {instance})
    case GiveUp(instance) => s.(batches := s.batches - {instance})
  }

  ghost function After(s: State, events: seq<Event>): State {
    if events == [] then s else Step(After(s, events[..|events| - 1]), events[|events| - 1])
  }

  // ---- Locks hold ----

  /** Open aggregations have different events, and each finds what it read. */
  ghost predicate LocksHold(s: State) {
    && (forall k :: k in s.batches ==> L.IsOpen(s.books, s.batches[k]))
    && (forall j, k :: j in s.batches && k in s.batches && j != k ==> s.batches[j].locked !! s.batches[k].locked)
  }

  lemma ApplyKeepsOpen(b: Books, op: Op, batch: L.Batch)
    requires L.IsOpen(b, batch)
    ensures L.IsOpen(Apply(b, op), batch)
  {
    ApplyKeepsAccounts(b, op);
    if op.RecordUsage? {
      if Enabled(b, op) { L.RecordingKeepsOpen(b, Usage(op.workspace, op.quantity, false), batch); }
    } else {
      L.SameUsageStaysOpen(b, Apply(b, op), batch);
    }
  }

  lemma ApplyKeepsAccounts(b: Books, op: Op)
    ensures Apply(b, op).accounts.Keys == b.accounts.Keys
    ensures !op.RecordUsage? ==> Apply(b, op).usage == b.usage
  {
  }

  lemma StepKeepsLocks(s: State, e: Event)
    requires LocksHold(s)
    ensures LocksHold(Step(s, e))
  {
    match e
    case Act(op) => forall k | k in s.batches { ApplyKeepsOpen(s.books, op, s.batches[k]); }
    case Query(instance, locked, groups) =>
      if CanQuery(s, instance, locked, groups) { L.QueriedIsOpen(s.books, locked, groups); }
    case Commit(instance, now) =>
      if instance in s.batches {
        forall k | k in s.batches && k != instance {
          L.CommitKeepsOpen(s.books, s.batches[instance], now, s.batches[k]);
        }
      }
    case GiveUp(_) =>
  }

  /** Over every run, every open aggregation can commit. */
  lemma {:induction false} RunKeepsLocks(s: State, events: seq<Event>)
    requires LocksHold(s)
    ensures LocksHold(After(s, events))
    decreases |events|
  {
    if events != [] {
      RunKeepsLocks(s, events[..|events| - 1]);
      StepKeepsLocks(After(s, events[..|events| - 1]), events[|events| - 1]);
    }
  }

  // ---- An event is billed once ----

  function Mark(usage: seq<Usage>, i: nat): nat { if i < |usage| && usage[i].billed then 1 else 0 }

  ghost predicate BillsEvent(s: State, e: Event, i: nat) {
    e.Commit? && CanCommit(s, e.instance) && i in s.batches[e.instance].locked
  }

  /** The aggregations that committed with the event in their batch. */
  ghost function TimesBilled(s: State, events: seq<Event>, i: nat): nat {
    if events == [] then 0
    else
      var init := events[..|events| - 1];
      TimesBilled(s, init, i) + if BillsEvent(After(s, init), events[|events| - 1], i) then 1 else 0
  }

  lemma StepBills(s: State, e: Event, i: nat)
    ensures Mark(Step(s, e).books.usage, i) == Mark(s.books.usage, i) + if BillsEvent(s, e, i) then 1 else 0
  {
    if e.Act? { ApplyKeepsAccounts(s.books, e.op); }
  }

  /** Over every run, with any number of instances, an event is billed by at most one aggregation, and by one exactly
      if it is marked in the end. */
  lemma {:induction false} EventsAreBilledOnce(s: State, events: seq<Event>, i: nat)
    ensures Mark(s.books.usage, i) + TimesBilled(s, events, i) == Mark(After(s, events).books.usage, i) <= 1
    decreases |events|
  {
    if events != [] {
      var before, e := After(s, events[..|events| - 1]), events[|events| - 1];
      EventsAreBilledOnce(s, events[..|events| - 1], i);
      StepBills(before, e, i);
    }
  }

  // ---- The ledger adds up ----

  lemma ApplyKeepsBalanced(opening: map<string, int>, b: Books, op: Op)
    requires Balanced(opening, b)
    ensures Balanced(opening, Apply(b, op))
  {
    if !Enabled(b, op) { return; }
    match op
    case Deploy(id, workspace, price, now) => M.DeployKeepsBalanced(opening, b, id, workspace, price, now);
    case ServiceChanges(_, _, _) => SameMoney(opening, b, Apply(b, op));
    case RecordUsage(_, _) => SameMoney(opening, b, Apply(b, op));
    case BillMetal(ids, now) => M.PassKeepsBalanced(opening, b, ids, now);
    case ResetFree(_) => SameMoney(opening, b, Apply(b, op));
    case CheckoutCompleted(customer, session, cents, intent, now) =>
      CheckoutKeepsBalanced(opening, b, customer, session, cents, intent, now);
    case ChargeRefunded(customer, cents, charge, now) =>
      RefundKeepsBalanced(opening, b, customer, cents, charge, now);
    case ReversesTopUp(found, intent, now) =>
      PostAndSuspendKeepsBalanced(opening, b, Reversal(found, intent), now);
  }

  lemma RefundKeepsBalanced(opening: map<string, int>, b: Books, customer: Option<string>, cents: int, charge: string,
                            now: int)
    requires Balanced(opening, b)
    ensures Balanced(opening, Refunded(b, customer, cents, charge, now).0)
  {
    if Refunded(b, customer, cents, charge, now).1 == Applied {
      PostAndSuspendKeepsBalanced(opening, b,
        Posting(b.customers[customer.value], -(cents * MICROCREDITS_PER_CENT), Refund, charge, None, None), now);
    }
  }

  lemma CheckoutKeepsBalanced(opening: map<string, int>, b: Books, customer: string, session: string, cents: int,
                              intent: string, now: int)
    requires Balanced(opening, b)
    ensures Balanced(opening, Checkout(b, customer, session, cents, intent, now).0)
  {
    var (after, outcome) := Checkout(b, customer, session, cents, intent, now);
    if outcome == Applied {
      var p := TopUpPosting(b.customers[customer], cents, session, intent);
      PostKeepsBalanced(opening, b, p, now);
      SameMoney(opening, Post(b, p, now), after);
    }
  }

  function Opening(b: Books): map<string, int> { map ws | ws in b.accounts :: b.accounts[ws].balance }

  lemma CommitKeepsBalanced(opening: map<string, int>, b: Books, batch: L.Batch, now: int)
    requires Balanced(opening, b) && L.IsOpen(b, batch)
    ensures Balanced(opening, L.Aggregated(b, batch, now))
  {
    L.AggregationKeepsBalanced(opening, b, batch.rows, batch.groups, now);
    SameMoney(opening, L.BillGroups(b, batch.rows, batch.groups, now), L.Aggregated(b, batch, now));
  }

  /** Over every run, each balance is the opening balance plus the workspace's ledger, and each ledger row records the
      balance at that row. */
  lemma {:induction false} LedgerAddsUp(s: State, events: seq<Event>)
    requires s.books.ledger == []
    ensures Balanced(Opening(s.books), After(s, events).books)
    decreases |events|
  {
    if events != [] {
      var before, e := After(s, events[..|events| - 1]), events[|events| - 1];
      LedgerAddsUp(s, events[..|events| - 1]);
      if e.Act? { ApplyKeepsBalanced(Opening(s.books), before.books, e.op); }
      if e.Commit? && CanCommit(before, e.instance) {
        CommitKeepsBalanced(Opening(s.books), before.books, before.batches[e.instance], e.now);
      }
    }
  }

  // ---- Where every micro-credit went ----

  /** The prices, in cents, of the services of the workspace among `ids`. */
  function PricesOf(b: Books, ids: seq<string>, ws: string): int
    requires forall id :: id in ids ==> M.Billable(b, id)
  {
    if ids == [] then 0
    else
      var last := ids[|ids| - 1];
      assert M.Billable(b, last);
      PricesOf(b, ids[..|ids| - 1], ws)
      + if b.services[last].workspace == ws then b.services[last].price.value else 0
  }

  lemma MonthDebits(b: Books, id: string, now: int, ws: string)
    requires M.Billable(b, id) && ws in b.accounts
    ensures M.BillMonth(b, id, now).accounts[ws].balance
         == b.accounts[ws].balance - 10_000 * if b.services[id].workspace == ws then b.services[id].price.value else 0
  {
  }

  lemma {:induction false} PassDebits(b: Books, ids: seq<string>, now: int, ws: string)
    requires (forall id :: id in ids ==> M.Billable(b, id)) && ws in b.accounts
    ensures M.BillMonths(b, ids, now).accounts[ws].balance
         == b.accounts[ws].balance - 10_000 * PricesOf(b, ids, ws)
    decreases |ids|
  {
    if ids != [] {
      var before, last := M.BillMonths(b, ids[..|ids| - 1], now), ids[|ids| - 1];
      PassDebits(b, ids[..|ids| - 1], now, ws);
      assert M.Billable(b, last) && M.SameButCycle(b.services[last], before.services[last]);
      MonthDebits(before, last, now, ws);
    }
  }

  lemma GroupDebits(b: Books, workspace: string, row: L.Row, at: int, ws: string)
    requires workspace in b.accounts && ws in b.accounts
    ensures L.BillGroup(b, workspace, row, at).accounts[ws].balance
         == b.accounts[ws].balance
            - if ws == workspace then L.Fee(L.Billable(row.invocations, row.freeUsed)) else 0
  {
  }

  lemma {:induction false} GroupsDebit(b: Books, rows: map<string, L.Row>, groups: seq<string>, at: int, ws: string)
    requires L.AllPresent(b, rows, groups) && Distinct(groups) && ws in b.accounts
    ensures L.BillGroups(b, rows, groups, at).accounts[ws].balance
         == b.accounts[ws].balance
            - if ws in groups then L.Fee(L.Billable(rows[ws].invocations, rows[ws].freeUsed)) else 0
    decreases |groups|
  {
    if groups != [] {
      var init, last := groups[..|groups| - 1], groups[|groups| - 1];
      assert last !in init && groups == init + [last];
      GroupsDebit(b, rows, init, at, ws);
      GroupDebits(L.BillGroups(b, rows, init, at), last, rows[last], at, ws);
    }
  }

  /** What a transaction does to the balance of the workspace. */
  ghost function MovedBy(b: Books, op: Op, ws: string): int {
    match op
    case Deploy(id, workspace, price, _) =>
      if workspace == ws && price.Some? && ws in b.accounts && id !in b.services then -10_000 * price.value else 0
    case BillMetal(ids, now) => if M.IsPass(b, ids, now) then -10_000 * PricesOf(b, ids, ws) else 0
    case CheckoutCompleted(customer, session, cents, _, _) =>
      if customer in b.customers && b.customers[customer] == ws && ws in b.accounts && !b.accounts[ws].deleted
         && forall e :: e in b.ledger ==> e.posting.session != Some(session)
      then 10_000 * cents else 0
    case ChargeRefunded(payer, cents, _, _) =>
      if payer.Some? && payer.value in b.customers && b.customers[payer.value] == ws && ws in b.accounts
         && !b.accounts[ws].deleted
      then -10_000 * cents else 0
    case ReversesTopUp(found, intent, _) =>
      if found.workspace == ws && ws in b.accounts && found in TopUpsFor(b.ledger, intent) then -found.amount else 0
    case _ => 0
  }

  lemma CheckoutMoves(b: Books, op: Op, ws: string)
    requires op.CheckoutCompleted? && ws in b.accounts
    ensures Apply(b, op).accounts[ws].balance == b.accounts[ws].balance + MovedBy(b, op, ws)
  {
    CheckoutCredits(b, op.customer, op.session, op.cents, op.intent, op.now);
  }

  lemma RefundMoves(b: Books, op: Op, ws: string)
    requires op.ChargeRefunded? && ws in b.accounts
    ensures Apply(b, op).accounts[ws].balance == b.accounts[ws].balance + MovedBy(b, op, ws)
  {
    RefundDebits(b, op.payer, op.cents, op.charge, op.now);
  }

  lemma ReversalMovesOne(b: Books, op: Op, ws: string)
    requires op.ReversesTopUp? && ws in b.accounts
    ensures Apply(b, op).accounts[ws].balance == b.accounts[ws].balance + MovedBy(b, op, ws)
  {
    if Enabled(b, op) { ReversalMoves(b, op.found, op.intent, op.now); }
  }

  lemma ApplyMoves(b: Books, op: Op, ws: string)
    requires ws in b.accounts
    ensures ws in Apply(b, op).accounts
    ensures Apply(b, op).accounts[ws].balance == b.accounts[ws].balance + MovedBy(b, op, ws)
  {
    ApplyKeepsAccounts(b, op);
    match op
    case Deploy(id, workspace, price, now) =>
      if Enabled(b, op) { M.DeployedIsDueIff(b, id, workspace, price, now, now); }
    case BillMetal(ids, now) => if Enabled(b, op) { PassDebits(b, ids, now, ws); }
    case CheckoutCompleted(_, _, _, _, _) => CheckoutMoves(b, op, ws);
    case ChargeRefunded(_, _, _, _) => RefundMoves(b, op, ws);
    case ReversesTopUp(_, _, _) => ReversalMovesOne(b, op, ws);
    case _ =>
  }

  /** The same of a step: the commit of an aggregation takes the fee for what its query read. */
  ghost function Moved(s: State, e: Event, ws: string): int {
    match e
    case Act(op) => MovedBy(s.books, op, ws)
    case Commit(instance, _) =>
      if CanCommit(s, instance) && ws in s.batches[instance].groups
      then -L.Fee(L.Billable(s.batches[instance].rows[ws].invocations, s.batches[instance].rows[ws].freeUsed)) else 0
    case _ => 0
  }

  ghost function MovedIn(s: State, events: seq<Event>, ws: string): int {
    if events == [] then 0
    else
      var init := events[..|events| - 1];
      MovedIn(s, init, ws) + Moved(After(s, init), events[|events| - 1], ws)
  }

  lemma StepMoves(s: State, e: Event, ws: string)
    requires ws in s.books.accounts
    ensures ws in Step(s, e).books.accounts
    ensures Step(s, e).books.accounts[ws].balance == s.books.accounts[ws].balance + Moved(s, e, ws)
  {
    match e
    case Act(op) => ApplyMoves(s.books, op, ws);
    case Commit(instance, now) =>
      if CanCommit(s, instance) {
        var batch := s.batches[instance];
        GroupsDebit(s.books, batch.rows, batch.groups, now, ws);
      }
    case _ =>
  }

  /** Over every run a balance is where it began plus the top-ups credited, less the refunds, the reversals, the months
      of Metal services and the fees of aggregations that happened to its workspace, and nothing else. */
  lemma {:induction false} BalancesAreExplained(s: State, events: seq<Event>, ws: string)
    requires ws in s.books.accounts
    ensures ws in After(s, events).books.accounts
    ensures After(s, events).books.accounts[ws].balance == s.books.accounts[ws].balance + MovedIn(s, events, ws)
    decreases |events|
  {
    if events != [] {
      var init := events[..|events| - 1];
      BalancesAreExplained(s, init, ws);
      StepMoves(After(s, init), events[|events| - 1], ws);
    }
  }

  // ---- Usage stays on record ----

  /** All usage of the workspace among the first `n` events, billed or not. */
  function Recorded(usage: seq<Usage>, ws: string, n: nat): int
    requires n <= |usage|
  {
    if n == 0 then 0
    else Recorded(usage, ws, n - 1) + if usage[n - 1].workspace == ws then usage[n - 1].quantity else 0
  }

  ghost function RecordedBy(s: State, e: Event, ws: string): int {
    if e.Act? && e.op.RecordUsage? && e.op.workspace == ws && ws in s.books.accounts then e.op.quantity else 0
  }

  ghost function RecordedIn(s: State, events: seq<Event>, ws: string): int {
    if events == [] then 0
    else
      var init := events[..|events| - 1];
      RecordedIn(s, init, ws) + RecordedBy(After(s, init), events[|events| - 1], ws)
  }

  lemma {:induction false} RecordedAlike(a: seq<Usage>, b: seq<Usage>, ws: string, n: nat)
    requires n <= |a| && n <= |b|
    requires forall i :: 0 <= i < n ==> a[i].workspace == b[i].workspace && a[i].quantity == b[i].quantity
    ensures Recorded(a, ws, n) == Recorded(b, ws, n)
  {
    if n > 0 { RecordedAlike(a, b, ws, n - 1); }
  }

  lemma StepRecords(s: State, e: Event, ws: string)
    ensures var before, after := s.books.usage, Step(s, e).books.usage;
            Recorded(after, ws, |after|) == Recorded(before, ws, |before|) + RecordedBy(s, e, ws)
  {
    var before, after := s.books.usage, Step(s, e).books.usage;
    if e.Act? { ApplyKeepsAccounts(s.books, e.op); }
    RecordedAlike(after, before, ws, |before|);
  }

  /** Over every run, what was recorded of a workspace's usage is in the table, billed or waiting, and nothing else. */
  lemma {:induction false} UsageStaysOnRecord(s: State, events: seq<Event>, ws: string)
    ensures var before, after := s.books.usage, After(s, events).books.usage;
            Recorded(after, ws, |after|) == Recorded(before, ws, |before|) + RecordedIn(s, events, ws)
    decreases |events|
  {
    if events != [] {
      var init := events[..|events| - 1];
      UsageStaysOnRecord(s, init, ws);
      StepRecords(After(s, init), events[|events| - 1], ws);
    }
  }

  /** The events of an aggregation that was given up can be queried again, by any instance that is free. */
  lemma GivenUpEventsAreFree(s: State, instance: nat, other: nat)
    requires LocksHold(s) && instance in s.batches && (other == instance || other !in s.batches)
    ensures var r, batch := Step(s, GiveUp(instance)), s.batches[instance];
            r.books == s.books && CanQuery(r, other, batch.locked, batch.groups)
  {
    assert L.IsOpen(s.books, s.batches[instance]);
  }

  /** A change of status sets the flags of its service and nothing else. */
  lemma StatusChangesFlags(b: Books, id: string, active: bool, deleted: bool)
    ensures var r := Apply(b, ServiceChanges(id, active, deleted));
            && r == b.(services := r.services) && r.services.Keys == b.services.Keys
            && forall x :: x in b.services ==>
                 r.services[x] == if x == id then b.services[x].(active := active, deleted := deleted)
                                  else b.services[x]
  {
  }

  // ---- How the ledger grows ----

  /** The rows that a step adds, by what they can be. */
  ghost predicate AddsOnly(before: seq<Entry>, after: seq<Entry>, allowed: set<Kind>) {
    before <= after
    && forall k :: |before| <= k < |after| ==> after[k].posting.kind in allowed && after[k].posting.session.None?
  }

  lemma GroupAddsOnlyUsage(b: Books, workspace: string, row: L.Row, at: int)
    requires workspace in b.accounts
    ensures AddsOnly(b.ledger, L.BillGroup(b, workspace, row, at).ledger, {UsageLiquid})
  {
  }

  lemma {:induction false} GroupsAddOnlyUsage(b: Books, rows: map<string, L.Row>, groups: seq<string>, at: int)
    requires L.AllPresent(b, rows, groups)
    ensures AddsOnly(b.ledger, L.BillGroups(b, rows, groups, at).ledger, {UsageLiquid})
    decreases |groups|
  {
    if groups != [] {
      var init, last := groups[..|groups| - 1], groups[|groups| - 1];
      GroupsAddOnlyUsage(b, rows, init, at);
      GroupAddsOnlyUsage(L.BillGroups(b, rows, init, at), last, rows[last], at);
    }
  }

  lemma {:induction false} PassAddsOnlyMonths(b: Books, ids: seq<string>, now: int)
    requires forall id :: id in ids ==> M.Billable(b, id)
    ensures AddsOnly(b.ledger, M.BillMonths(b, ids, now).ledger, {MetalMonthly})
    decreases |ids|
  {
    if ids != [] {
      var before, last := M.BillMonths(b, ids[..|ids| - 1], now), ids[|ids| - 1];
      PassAddsOnlyMonths(b, ids[..|ids| - 1], now);
      assert M.Billable(b, last) && M.SameButCycle(b.services[last], before.services[last]);
    }
  }

  function KindsOf(op: Op): set<Kind> {
    match op
    case Deploy(_, _, _, _) => {MetalMonthly}
    case BillMetal(_, _) => {MetalMonthly}
    case ChargeRefunded(_, _, _, _) => {Refund}
    case ReversesTopUp(_, _, _) => {Refund}
    case _ => {}
  }

  lemma ApplyAddsOnly(b: Books, op: Op)
    requires !op.CheckoutCompleted?
    ensures AddsOnly(b.ledger, Apply(b, op).ledger, KindsOf(op))
  {
    if op.BillMetal? && Enabled(b, op) { PassAddsOnlyMonths(b, op.ids, op.now); }
  }

  lemma CommitAddsOnly(s: State, e: Event)
    requires !e.Act?
    ensures AddsOnly(s.books.ledger, Step(s, e).books.ledger, {UsageLiquid})
  {
    if e.Commit? && CanCommit(s, e.instance) {
      var batch := s.batches[e.instance];
      GroupsAddOnlyUsage(s.books, batch.rows, batch.groups, e.now);
    }
  }

  lemma AddingKeepsSessionsUnique(before: seq<Entry>, after: seq<Entry>, allowed: set<Kind>)
    requires SessionsUnique(before) && AddsOnly(before, after, allowed)
    ensures SessionsUnique(after)
  {
  }

  lemma ApplyKeepsSessionsUnique(b: Books, op: Op)
    requires SessionsUnique(b.ledger)
    ensures SessionsUnique(Apply(b, op).ledger)
  {
    if op.CheckoutCompleted? {
      CheckoutIsIdempotent(b, op.customer, op.session, op.cents, op.intent, op.now, "", 0, "", 0);
    } else {
      ApplyAddsOnly(b, op);
      AddingKeepsSessionsUnique(b.ledger, Apply(b, op).ledger, KindsOf(op));
    }
  }

  /** Over every run a checkout session is credited at most once. */
  lemma {:induction false} SessionsAreCreditedOnce(s: State, events: seq<Event>)
    requires SessionsUnique(s.books.ledger)
    ensures SessionsUnique(After(s, events).books.ledger)
    decreases |events|
  {
    if events != [] {
      var before, e := After(s, events[..|events| - 1]), events[|events| - 1];
      SessionsAreCreditedOnce(s, events[..|events| - 1]);
      if e.Act? {
        ApplyKeepsSessionsUnique(before.books, e.op);
      } else {
        CommitAddsOnly(before, e);
        AddingKeepsSessionsUnique(before.books.ledger, Step(before, e).books.ledger, {UsageLiquid});
      }
    }
  }

  lemma {:induction false} LedgerGrows(s: State, events: seq<Event>)
    ensures s.books.ledger <= After(s, events).books.ledger
    ensures After(s, events).books.accounts.Keys == s.books.accounts.Keys
    decreases |events|
  {
    if events != [] {
      var before, e := After(s, events[..|events| - 1]), events[|events| - 1];
      LedgerGrows(s, events[..|events| - 1]);
      if e.Act? {
        ApplyKeepsAccounts(before.books, e.op);
        if !e.op.CheckoutCompleted? { ApplyAddsOnly(before.books, e.op); }
      } else {
        CommitAddsOnly(before, e);
      }
    }
  }

  /** A top-up that a failed payment has found can be reversed after any run, so the look into the ledger and the
      transaction may be any distance apart. */
  lemma FoundTopUpsCanBeReversed(s: State, events: seq<Event>, intent: string, now: int)
    requires LookUp(s.books, intent).Found? && LookUp(s.books, intent).topUp.workspace in s.books.accounts
    ensures Enabled(After(s, events).books, ReversesTopUp(LookUp(s.books, intent).topUp, intent, now))
  {
    LedgerGrows(s, events);
    TopUpsStay(s.books.ledger, After(s, events).books.ledger, intent);
    assert LookUp(s.books, intent).topUp == TopUpsFor(s.books.ledger, intent)[0];
    assert TopUpsFor(After(s, events).books.ledger, intent)[0] == LookUp(s.books, intent).topUp;
  }

  // ---- Metal services are charged to date ----

  lemma {:induction false} OtherKindsChargeNothing(before: seq<Entry>, after: seq<Entry>, allowed: set<Kind>,
                                                  id: string)
    requires AddsOnly(before, after, allowed) && MetalMonthly !in allowed
    ensures M.ChargedFor(after, id) == M.ChargedFor(before, id)
    decreases |after|
  {
    if |after| == |before| {
      assert after == before;
    } else {
      var init := after[..|after| - 1];
      assert AddsOnly(before, init, allowed) by { assert before <= init; }
      OtherKindsChargeNothing(before, init, allowed, id);
    }
  }

  ghost predicate AllChargedToDate(b: Books, now: int) {
    && (forall id :: id in b.services ==> M.ChargedToDate(b, id, now))
    && (forall id :: id !in b.services ==> M.ChargedFor(b.ledger, id) == 0)
  }

  predicate NoLater(op: Op, now: int) {
    match op
    case ServiceChanges(_, _, _) => true
    case RecordUsage(_, _) => true
    case ResetFree(_) => true
    case _ => op.now <= now
  }

  lemma PostOfAnotherKind(b: Books, p: Posting, at: int, id: string)
    requires p.workspace in b.accounts && p.kind != MetalMonthly
    ensures M.ChargedFor(Post(b, p, at).ledger, id) == M.ChargedFor(b.ledger, id)
  {
    M.PostingChargesFor(b, p, at, id);
  }

  predicate SameBilling(s: Service, t: Service) {
    s.price == t.price && s.deployedAt == t.deployedAt && s.cycleStart == t.cycleStart
  }

  /** The operations that charge nothing for Metal leave every service's account as it is. */
  lemma OthersChargeNothing(b: Books, op: Op, id: string)
    requires !op.Deploy? && !op.BillMetal?
    ensures M.ChargedFor(Apply(b, op).ledger, id) == M.ChargedFor(b.ledger, id)
    ensures Apply(b, op).services.Keys == b.services.Keys
    ensures id in b.services ==> SameBilling(b.services[id], Apply(b, op).services[id])
  {
    if op.CheckoutCompleted? {
      if Checkout(b, op.customer, op.session, op.cents, op.intent, op.now).1 == Applied {
        PostOfAnotherKind(b, TopUpPosting(b.customers[op.customer], op.cents, op.session, op.intent), op.now, id);
      }
    } else {
      ApplyAddsOnly(b, op);
      OtherKindsChargeNothing(b.ledger, Apply(b, op).ledger, KindsOf(op), id);
    }
  }

  lemma DeployChargesNoOther(b: Books, id: string, workspace: string, price: Option<nat>, at: int, other: string)
    requires workspace in b.accounts && other != id
    ensures M.ChargedFor(M.Deployed(b, id, workspace, price, at).ledger, other) == M.ChargedFor(b.ledger, other)
  {
    if price.Some? {
      var inserted := b.(services := b.services[id := Service(workspace, price, at, at, true, false)]);
      M.PostingChargesFor(inserted, M.MonthPosting(id, workspace, price.value), at, other);
    }
  }

  lemma DeployKeepsCharges(b: Books, id: string, workspace: string, price: Option<nat>, at: int, now: int)
    requires AllChargedToDate(b, now) && workspace in b.accounts && id !in b.services && at <= now
    ensures AllChargedToDate(M.Deployed(b, id, workspace, price, at), now)
  {
    var r := M.Deployed(b, id, workspace, price, at);
    M.DeployCharges(b, id, workspace, price, at);
    forall other | other in r.services ensures M.ChargedToDate(r, other, now) {
      if other != id {
        DeployChargesNoOther(b, id, workspace, price, at, other);
        assert M.ChargedToDate(b, other, now);
        M.UnchargedStaysChargedToDate(b, r, other, now);
      } else {
        assert M.ChargedToDate(r, id, at);
      }
    }
    forall other | other !in r.services ensures M.ChargedFor(r.ledger, other) == 0 {
      DeployChargesNoOther(b, id, workspace, price, at, other);
    }
  }

  lemma PassKeepsCharges(b: Books, op: Op, now: int)
    requires AllChargedToDate(b, now) && op.BillMetal? && NoLater(op, now)
    ensures AllChargedToDate(Apply(b, op), now)
  {
    if Enabled(b, op) {
      var r := Apply(b, op);
      assert M.IsPass(b, op.ids, now);
      forall id | id in r.services ensures M.ChargedToDate(r, id, now) {
        M.PassKeepsChargedToDate(b, op.ids, op.now, now, id);
      }
      forall id | id !in r.services ensures M.ChargedFor(r.ledger, id) == 0 {
        PassIgnores(b, op.ids, op.now, id);
      }
    }
  }

  lemma MonthIgnores(b: Books, billed: string, now: int, id: string)
    requires M.Billable(b, billed) && id != billed
    ensures M.ChargedFor(M.BillMonth(b, billed, now).ledger, id) == M.ChargedFor(b.ledger, id)
  {
    var s := b.services[billed];
    M.PostingChargesFor(b, M.MonthPosting(billed, s.workspace, s.price.value), now, id);
  }

  lemma {:induction false} PassIgnores(b: Books, ids: seq<string>, now: int, id: string)
    requires (forall i :: i in ids ==> M.Billable(b, i)) && id !in b.services
    ensures M.ChargedFor(M.BillMonths(b, ids, now).ledger, id) == M.ChargedFor(b.ledger, id)
    decreases |ids|
  {
    if ids != [] {
      var before, last := M.BillMonths(b, ids[..|ids| - 1], now), ids[|ids| - 1];
      PassIgnores(b, ids[..|ids| - 1], now, id);
      assert M.Billable(b, last) && M.SameButCycle(b.services[last], before.services[last]);
      MonthIgnores(before, last, now, id);
    }
  }

  lemma OthersKeepCharges(b: Books, op: Op, now: int)
    requires AllChargedToDate(b, now) && !op.Deploy? && !op.BillMetal?
    ensures AllChargedToDate(Apply(b, op), now)
  {
    forall id ensures id in b.services ==> M.ChargedToDate(Apply(b, op), id, now)
              ensures M.ChargedFor(Apply(b, op).ledger, id) == M.ChargedFor(b.ledger, id)
    {
      OthersChargeNothing(b, op, id);
    }
    OthersChargeNothing(b, op, "");
  }

  predicate EventNoLater(e: Event, now: int) {
    match e
    case Act(op) => NoLater(op, now)
    case Commit(_, at) => at <= now
    case _ => true
  }

  lemma ApplyKeepsCharges(b: Books, op: Op, now: int)
    requires AllChargedToDate(b, now) && NoLater(op, now)
    ensures AllChargedToDate(Apply(b, op), now)
  {
    if op.Deploy? {
      if Enabled(b, op) { DeployKeepsCharges(b, op.id, op.workspace, op.price, op.now, now); }
    } else if op.BillMetal? {
      PassKeepsCharges(b, op, now);
    } else {
      OthersKeepCharges(b, op, now);
    }
  }

  lemma AggregationKeepsCharges(s: State, e: Event, now: int)
    requires AllChargedToDate(s.books, now) && !e.Act?
    ensures AllChargedToDate(Step(s, e).books, now)
  {
    var r := Step(s, e).books;
    CommitAddsOnly(s, e);
    assert r.services == s.books.services;
    forall id ensures M.ChargedFor(r.ledger, id) == M.ChargedFor(s.books.ledger, id) {
      OtherKindsChargeNothing(s.books.ledger, r.ledger, {UsageLiquid}, id);
    }
    forall id | id in r.services ensures M.ChargedToDate(r, id, now) {
      assert M.ChargedToDate(s.books, id, now);
    }
  }

  /** Over every run in which nothing happens after `now`, each service has been charged its price for the first month
      and for every month its cycle start has advanced, and no charged month starts after `now`. */
  lemma {:induction false} ServicesAreChargedToDate(s: State, events: seq<Event>, now: int)
    requires s.books.services == map[] && s.books.ledger == []
    requires forall k :: 0 <= k < |events| ==> EventNoLater(events[k], now)
    ensures AllChargedToDate(After(s, events).books, now)
    decreases |events|
  {
    if events != [] {
      var before, e := After(s, events[..|events| - 1]), events[|events| - 1];
      ServicesAreChargedToDate(s, events[..|events| - 1], now);
      if e.Act? { ApplyKeepsCharges(before.books, e.op, now); } else { AggregationKeepsCharges(before, e, now); }
    }
  }

  // ---- Metal charges are whole cents ----

  lemma MonthChargesWholeCents(b: Books, id: string, now: int)
    requires M.Billable(b, id) && I.WholeCents(b.ledger)
    ensures I.WholeCents(M.BillMonth(b, id, now).ledger)
  {
    var s := b.services[id];
    assert I.IsWholeCents(M.MonthPosting(id, s.workspace, s.price.value));
  }

  lemma {:induction false} PassChargesWholeCents(b: Books, ids: seq<string>, now: int)
    requires (forall id :: id in ids ==> M.Billable(b, id)) && I.WholeCents(b.ledger)
    ensures I.WholeCents(M.BillMonths(b, ids, now).ledger)
    decreases |ids|
  {
    if ids != [] {
      var before, last := M.BillMonths(b, ids[..|ids| - 1], now), ids[|ids| - 1];
      PassChargesWholeCents(b, ids[..|ids| - 1], now);
      assert M.Billable(b, last) && M.SameButCycle(b.services[last], before.services[last]);
      MonthChargesWholeCents(before, last, now);
    }
  }

  lemma AddingKeepsWholeCents(before: seq<Entry>, after: seq<Entry>, allowed: set<Kind>)
    requires I.WholeCents(before) && AddsOnly(before, after, allowed) && MetalMonthly !in allowed
    ensures I.WholeCents(after)
  {
    forall k | 0 <= k < |after| ensures I.IsWholeCents(after[k].posting) {
      if k < |before| { assert after[k] == before[k]; }
    }
  }

  lemma ApplyKeepsWholeCents(b: Books, op: Op)
    requires I.WholeCents(b.ledger)
    ensures I.WholeCents(Apply(b, op).ledger)
  {
    if op.BillMetal? {
      if Enabled(b, op) { PassChargesWholeCents(b, op.ids, op.now); }
    } else if op.Deploy? {
      if Enabled(b, op) && op.price.Some? {
        assert I.IsWholeCents(M.MonthPosting(op.id, op.workspace, op.price.value));
      }
    } else if !op.CheckoutCompleted? {
      ApplyAddsOnly(b, op);
      AddingKeepsWholeCents(b.ledger, Apply(b, op).ledger, KindsOf(op));
    }
  }

  /** Over every run, what the invoices count on: charges for Metal are whole cents. */
  lemma {:induction false} MetalChargesAreWholeCents(s: State, events: seq<Event>)
    requires I.WholeCents(s.books.ledger)
    ensures I.WholeCents(After(s, events).books.ledger)
    decreases |events|
  {
    if events != [] {
      var before, e := After(s, events[..|events| - 1]), events[|events| - 1];
      MetalChargesAreWholeCents(s, events[..|events| - 1]);
      if e.Act? {
        ApplyKeepsWholeCents(before.books, e.op);
      } else {
        CommitAddsOnly(before, e);
        AddingKeepsWholeCents(before.books.ledger, Step(before, e).books.ledger, {UsageLiquid});
      }
    }
  }

  // ---- The free allowance ----

  lemma {:induction false} OtherKindsBillNoUsage(before: seq<Entry>, after: seq<Entry>, allowed: set<Kind>, ws: string)
    requires AddsOnly(before, after, allowed) && UsageLiquid !in allowed
    ensures L.SumUsageCharges(after, ws) == L.SumUsageCharges(before, ws)
    decreases |after|
  {
    if |after| == |before| {
      assert after == before;
    } else {
      var init := after[..|after| - 1];
      assert AddsOnly(before, init, allowed) by { assert before <= init; }
      OtherKindsBillNoUsage(before, init, allowed, ws);
    }
  }

  /** What the account of a workspace's allowance depends on. */
  predicate SameAllowance(b: Books, r: Books, ws: string)
    requires ws in b.accounts && ws in r.accounts
  {
    && r.accounts[ws].freeUsed == b.accounts[ws].freeUsed
    && L.Billed(r.usage, ws) == L.Billed(b.usage, ws)
    && L.SumUsageCharges(r.ledger, ws) == L.SumUsageCharges(b.ledger, ws)
  }

  lemma {:induction false} PassUsesNoAllowance(b: Books, ids: seq<string>, now: int, ws: string)
    requires (forall id :: id in ids ==> M.Billable(b, id)) && ws in b.accounts
    ensures M.BillMonths(b, ids, now).accounts[ws].freeUsed == b.accounts[ws].freeUsed
    decreases |ids|
  {
    if ids != [] {
      var before, last := M.BillMonths(b, ids[..|ids| - 1], now), ids[|ids| - 1];
      PassUsesNoAllowance(b, ids[..|ids| - 1], now, ws);
      assert M.Billable(b, last) && M.SameButCycle(b.services[last], before.services[last]);
    }
  }

  lemma {:induction false} BilledIgnoresNew(usage: seq<Usage>, u: Usage, ws: string, n: nat)
    requires n <= |usage|
    ensures L.BilledTotal(usage + [u], ws, n) == L.BilledTotal(usage, ws, n)
  {
    if n > 0 { BilledIgnoresNew(usage, u, ws, n - 1); }
  }

  lemma OthersBillNoUsage(b: Books, op: Op, ws: string)
    ensures L.SumUsageCharges(Apply(b, op).ledger, ws) == L.SumUsageCharges(b.ledger, ws)
  {
    if op.CheckoutCompleted? {
      if Checkout(b, op.customer, op.session, op.cents, op.intent, op.now).1 == Applied {
        var p := TopUpPosting(b.customers[op.customer], op.cents, op.session, op.intent);
        L.SumUsageSnoc(b.ledger, Entry(p, b.accounts[p.workspace].balance + p.amount, op.now), ws);
      }
    } else {
      ApplyAddsOnly(b, op);
      OtherKindsBillNoUsage(b.ledger, Apply(b, op).ledger, KindsOf(op), ws);
    }
  }

  lemma OthersMarkNothing(b: Books, op: Op, ws: string)
    ensures L.Billed(Apply(b, op).usage, ws) == L.Billed(b.usage, ws)
  {
    if op.RecordUsage? && Enabled(b, op) {
      BilledIgnoresNew(b.usage, Usage(op.workspace, op.quantity, false), ws, |b.usage|);
    }
  }

  lemma OthersConsumeNothing(b: Books, op: Op, ws: string)
    requires !op.ResetFree? && ws in b.accounts
    ensures ws in Apply(b, op).accounts && Apply(b, op).accounts[ws].freeUsed == b.accounts[ws].freeUsed
  {
    if op.BillMetal? && Enabled(b, op) { PassUsesNoAllowance(b, op.ids, op.now, ws); }
  }

  lemma OthersUseNoAllowance(b: Books, op: Op, ws: string)
    requires !op.ResetFree? && ws in b.accounts
    ensures ws in Apply(b, op).accounts && SameAllowance(b, Apply(b, op), ws)
  {
    OthersBillNoUsage(b, op, ws);
    OthersMarkNothing(b, op, ws);
    OthersConsumeNothing(b, op, ws);
  }

  /** The batches of the workspace that the run commits. */
  ghost predicate Commits(s: State, e: Event, ws: string) {
    e.Commit? && CanCommit(s, e.instance) && ws in s.batches[e.instance].groups
  }

  ghost function Batches(s: State, events: seq<Event>, ws: string): nat {
    if events == [] then 0
    else
      var init := events[..|events| - 1];
      Batches(s, init, ws) + if Commits(After(s, init), events[|events| - 1], ws) then 1 else 0
  }

  predicate QuantitiesAreCounts(usage: seq<Usage>) { forall i :: 0 <= i < |usage| ==> usage[i].quantity >= 0 }

  /** Within one period nothing is reset, and what is recorded are counts. */
  predicate InPeriod(e: Event) {
    e.Act? ==> !e.op.ResetFree? && (e.op.RecordUsage? ==> e.op.quantity >= 0)
  }

  ghost predicate AffordableAt(s: State, e: Event, ws: string) {
    Commits(s, e, ws) ==> L.Affordable(s.batches[e.instance].rows[ws])
  }

  /** What a committing batch read of the workspace still gives the free part that is due. */
  ghost predicate ServesAt(s: State, e: Event, ws: string)
    requires ws in s.books.accounts
  {
    Commits(s, e, ws) ==> L.Serves(s.batches[e.instance].rows[ws], s.books.accounts[ws].freeUsed)
  }

  ghost predicate FitsAt(s: State, e: Event, ws: string)
    requires ws in s.books.accounts
  {
    Commits(s, e, ws) ==> L.Fits(s.batches[e.instance].rows[ws], s.books.accounts[ws].freeUsed)
  }

  lemma StepKeepsAccounts(s: State, e: Event)
    ensures Step(s, e).books.accounts.Keys == s.books.accounts.Keys
  {
    if e.Act? { ApplyKeepsAccounts(s.books, e.op); }
  }

  lemma {:induction false} RunKeepsAccounts(s: State, events: seq<Event>)
    ensures After(s, events).books.accounts.Keys == s.books.accounts.Keys
    decreases |events|
  {
    if events != [] {
      RunKeepsAccounts(s, events[..|events| - 1]);
      StepKeepsAccounts(After(s, events[..|events| - 1]), events[|events| - 1]);
    }
  }

  lemma StepKeepsCounts(s: State, e: Event)
    requires QuantitiesAreCounts(s.books.usage) && InPeriod(e)
    ensures QuantitiesAreCounts(Step(s, e).books.usage)
  {
    if e.Act? { ApplyKeepsAccounts(s.books, e.op); }
  }

  lemma StepKeepsAllowanceIff(s: State, e: Event, ws: string, u0: int, n0: int, c0: int, batches: nat)
    requires LocksHold(s) && ws in s.books.accounts && 0 <= u0 <= L.FREE && QuantitiesAreCounts(s.books.usage)
    requires L.AllowanceHolds(s.books, ws, u0, n0, c0, batches) && InPeriod(e) && AffordableAt(s, e, ws)
    ensures ws in Step(s, e).books.accounts
    ensures L.AllowanceHolds(Step(s, e).books, ws, u0, n0, c0, if Commits(s, e, ws) then batches + 1 else batches)
            <==> ServesAt(s, e, ws)
  {
    StepKeepsAccounts(s, e);
    match e
    case Act(op) => OthersUseNoAllowance(s.books, op, ws);
    case Commit(instance, now) =>
      if CanCommit(s, instance) {
        if ws in s.batches[instance].groups {
          L.BatchKeepsAllowanceIff(s.books, s.batches[instance], now, ws, u0, n0, c0, batches);
        } else {
          L.OtherBatchKeepsAllowance(s.books, s.batches[instance], now, ws, u0, n0, c0, batches);
        }
      }
    case _ =>
  }

  /** What the run starts with for the workspace: used allowance, invocations billed, tenths charged. */
  ghost predicate HoldsSince(s: State, r: State, ws: string, batches: nat)
    requires ws in s.books.accounts && ws in r.books.accounts
  {
    L.AllowanceHolds(r.books, ws, s.books.accounts[ws].freeUsed, L.Billed(s.books.usage, ws),
                     L.TenthsCharged(s.books, ws), batches)
  }

  /** After every event of the run the free use is the smaller of the total and the allowance, what is billable is the
      rest, and the charge is three tenths of that less at most nine tenths of a micro-credit for each batch. */
  ghost predicate AllowanceHoldsThroughout(s: State, events: seq<Event>, ws: string)
    requires ws in s.books.accounts
  {
    RunKeepsAccounts(s, events);
    HoldsSince(s, After(s, events), ws, Batches(s, events, ws))
    && (events != [] ==> AllowanceHoldsThroughout(s, events[..|events| - 1], ws))
  }

  ghost predicate ReadsServe(s: State, events: seq<Event>, ws: string)
    requires ws in s.books.accounts
  {
    if events == [] then true
    else
      var init := events[..|events| - 1];
      RunKeepsAccounts(s, init);
      ReadsServe(s, init, ws) && ServesAt(After(s, init), events[|events| - 1], ws)
  }

  /** Within one period, with every batch of the workspace below the overflow bound. */
  ghost predicate InOnePeriod(s: State, events: seq<Event>, ws: string) {
    if events == [] then true
    else
      var init, e := events[..|events| - 1], events[|events| - 1];
      InOnePeriod(s, init, ws) && InPeriod(e) && AffordableAt(After(s, init), e, ws)
  }

  lemma {:induction false} QuantitiesStayCounts(s: State, events: seq<Event>, ws: string)
    requires QuantitiesAreCounts(s.books.usage) && InOnePeriod(s, events, ws)
    ensures QuantitiesAreCounts(After(s, events).books.usage)
    decreases |events|
  {
    if events != [] {
      QuantitiesStayCounts(s, events[..|events| - 1], ws);
      StepKeepsCounts(After(s, events[..|events| - 1]), events[|events| - 1]);
    }
  }

  lemma NextKeepsAllowanceIff(s: State, events: seq<Event>, ws: string)
    requires events != [] && LocksHold(s) && ws in s.books.accounts && QuantitiesAreCounts(s.books.usage)
    requires 0 <= s.books.accounts[ws].freeUsed <= L.FREE && InOnePeriod(s, events, ws)
    requires AllowanceHoldsThroughout(s, events[..|events| - 1], ws)
    ensures ws in After(s, events).books.accounts && ws in After(s, events[..|events| - 1]).books.accounts
    ensures HoldsSince(s, After(s, events), ws, Batches(s, events, ws))
            <==> ServesAt(After(s, events[..|events| - 1]), events[|events| - 1], ws)
  {
    var init := events[..|events| - 1];
    RunKeepsAccounts(s, init);
    RunKeepsAccounts(s, events);
    RunKeepsLocks(s, init);
    QuantitiesStayCounts(s, init, ws);
    StepKeepsAllowanceIff(After(s, init), events[|events| - 1], ws, s.books.accounts[ws].freeUsed,
                          L.Billed(s.books.usage, ws), L.TenthsCharged(s.books, ws), Batches(s, init, ws));
  }

  /** Over every run within a period, however the usage is split into batches, by however many instances and whatever
      happens in between, the account of the allowance holds after every event if and only if at every commit what the
      batch read still serves. */
  lemma {:induction false} AllowanceIsIndependentOfBatchesIff(s: State, events: seq<Event>, ws: string)
    requires LocksHold(s) && ws in s.books.accounts && QuantitiesAreCounts(s.books.usage)
    requires 0 <= s.books.accounts[ws].freeUsed <= L.FREE && InOnePeriod(s, events, ws)
    ensures AllowanceHoldsThroughout(s, events, ws) <==> ReadsServe(s, events, ws)
    decreases |events|
  {
    if events != [] {
      AllowanceIsIndependentOfBatchesIff(s, events[..|events| - 1], ws);
      if AllowanceHoldsThroughout(s, events[..|events| - 1], ws) { NextKeepsAllowanceIff(s, events, ws); }
    }
  }

  // ---- When what was read is still so ----

  ghost predicate ReadIsCurrent(s: State, instance: nat, ws: string) {
    instance in s.batches && ws in s.batches[instance].rows && ws in s.books.accounts
    && s.batches[instance].rows[ws].freeUsed == s.books.accounts[ws].freeUsed
  }

  /** The event neither commits the workspace's usage nor resets its counter, nor ends the instance's aggregation. */
  ghost predicate LeavesAllowance(s: State, e: Event, instance: nat, ws: string) {
    match e
    case Act(op) => op.ResetFree? ==> ws !in op.due
    case Query(_, _, _) => true
    case Commit(other, _) => other != instance && !Commits(s, e, ws)
    case GiveUp(other) => other != instance
  }

  ghost predicate Undisturbed(s: State, events: seq<Event>, instance: nat, ws: string) {
    if events == [] then true
    else
      var init := events[..|events| - 1];
      Undisturbed(s, init, instance, ws) && LeavesAllowance(After(s, init), events[|events| - 1], instance, ws)
  }

  lemma StepKeepsRead(s: State, e: Event, instance: nat, ws: string)
    requires ReadIsCurrent(s, instance, ws) && LeavesAllowance(s, e, instance, ws)
    ensures ReadIsCurrent(Step(s, e), instance, ws)
  {
    match e
    case Act(op) =>
      ApplyKeepsAccounts(s.books, op);
      if !op.ResetFree? { OthersUseNoAllowance(s.books, op, ws); }
    case Commit(other, now) =>
      if CanCommit(s, other) { L.BatchAddsNoOther(s.books, s.batches[other], now, ws); }
    case _ =>
  }

  /** If between an aggregation's query and its commit no other commits usage of the workspace and its counter is not
      reset, what was read is current and so serves. */
  lemma {:induction false} UndisturbedReadServes(s: State, events: seq<Event>, instance: nat, ws: string, now: int)
    requires ReadIsCurrent(s, instance, ws) && Undisturbed(s, events, instance, ws)
    ensures ReadIsCurrent(After(s, events), instance, ws)
    ensures ServesAt(After(s, events), Commit(instance, now), ws)
    decreases |events|
  {
    if events != [] {
      UndisturbedReadServes(s, events[..|events| - 1], instance, ws, now);
      StepKeepsRead(After(s, events[..|events| - 1]), events[|events| - 1], instance, ws);
    }
  }

  // ---- The counter and its bound ----

  ghost predicate InBoundsThroughout(s: State, events: seq<Event>, ws: string)
    requires ws in s.books.accounts
  {
    RunKeepsAccounts(s, events);
    After(s, events).books.accounts[ws].freeUsed <= L.FREE
    && (events != [] ==> InBoundsThroughout(s, events[..|events| - 1], ws))
  }

  ghost predicate FreePartsFit(s: State, events: seq<Event>, ws: string)
    requires ws in s.books.accounts
  {
    if events == [] then true
    else
      var init := events[..|events| - 1];
      RunKeepsAccounts(s, init);
      FreePartsFit(s, init, ws) && FitsAt(After(s, init), events[|events| - 1], ws)
  }

  lemma StepStaysInBoundsIff(s: State, e: Event, ws: string)
    requires LocksHold(s) && ws in s.books.accounts && 0 <= s.books.accounts[ws].freeUsed
    ensures ws in Step(s, e).books.accounts && 0 <= Step(s, e).books.accounts[ws].freeUsed
    ensures s.books.accounts[ws].freeUsed <= L.FREE
            ==> (Step(s, e).books.accounts[ws].freeUsed <= L.FREE <==> FitsAt(s, e, ws))
  {
    StepKeepsAccounts(s, e);
    match e
    case Act(op) => if !op.ResetFree? { OthersConsumeNothing(s.books, op, ws); }
    case Commit(instance, now) =>
      if CanCommit(s, instance) {
        var batch := s.batches[instance];
        L.GroupsBillEachWorkspaceOnce(s.books, batch.rows, batch.groups, now, ws);
        if ws in batch.groups && s.books.accounts[ws].freeUsed <= L.FREE {
          L.BatchStaysInAllowanceIff(s.books, batch, now, ws);
        }
      }
    case _ =>
  }

  /** Over every run, resets included and even for counts that have wrapped to negative, the used allowance is never
      negative; and it stays within the allowance if and only if at every commit the batch read no less than is used by
      then, or its count fits what is left. */
  lemma {:induction false} AllowanceStaysInBoundsIff(s: State, events: seq<Event>, ws: string)
    requires LocksHold(s) && ws in s.books.accounts && 0 <= s.books.accounts[ws].freeUsed <= L.FREE
    ensures ws in After(s, events).books.accounts && 0 <= After(s, events).books.accounts[ws].freeUsed
    ensures InBoundsThroughout(s, events, ws) <==> FreePartsFit(s, events, ws)
    decreases |events|
  {
    if events != [] {
      AllowanceStaysInBoundsIff(s, events[..|events| - 1], ws);
      RunKeepsLocks(s, events[..|events| - 1]);
      StepStaysInBoundsIff(After(s, events[..|events| - 1]), events[|events| - 1], ws);
    }
  }

  // ---- Two instances at once ----

  const EVENT: Usage := Usage("w", 1_000, false)
  const BILLED: Usage := Usage("w", 1_000, true)

  /** A workspace with two usage events of 1,000 invocations each. */
  function Workspace(balance: int, freeUsed: int, usage: seq<Usage>, ledger: seq<Entry>): Books {
    Books(map["w" := Account(balance, freeUsed, false)], map[], map[], usage, ledger, [])
  }

  /** It has used 999,000 of its allowance, and both events are unbilled. */
  const NEARLY_USED_UP: State := State(Workspace(0, 999_000, [EVENT, EVENT], []), map[])

  function One(i: nat, freeUsed: int): L.Batch { L.Batch({i}, ["w"], map["w" := L.Row(1_000, freeUsed)]) }

  lemma QueryOne(s: State, instance: nat, i: nat)
    requires |s.books.usage| == 2 && i < 2 && s.books.usage[i] == EVENT && s.books.accounts.Keys == {"w"}
    requires instance !in s.batches && forall k :: k in s.batches ==> i !in s.batches[k].locked
    ensures Step(s, Query(instance, {i}, ["w"]))
         == s.(batches := s.batches[instance := One(i, s.books.accounts["w"].freeUsed)])
  {
    assert L.Total(s.books.usage, {i}, "w", 1) == if i == 0 then 1_000 else 0;
    assert L.Total(s.books.usage, {i}, "w", 2) == 1_000;
    assert CanQuery(s, instance, {i}, ["w"]);
    assert L.Queried(s.books, {i}, ["w"]).rows == One(i, s.books.accounts["w"].freeUsed).rows;
  }

  lemma CommitOne(s: State, instance: nat, i: nat, freeUsed: int)
    requires instance in s.batches && s.batches[instance] == One(i, freeUsed) && LocksHold(s)
    requires "w" in s.books.accounts
    ensures Step(s, Commit(instance, 0))
         == State(L.BillGroup(s.books, "w", L.Row(1_000, freeUsed), 0).(usage := L.MarkBilled(s.books.usage, {i})),
                  s.batches - {instance})
  {
    var rows, none := One(i, freeUsed).rows, [];
    assert ["w"][..0] == none;
    assert L.BillGroups(s.books, rows, none, 0) == s.books;
  }

  /** A batch that read at most 999,000 used takes its thousand to be free, whatever is used by now. */
  lemma FreeCommit(s: State, instance: nat, i: nat, freeUsed: int, used: int, usage: seq<Usage>)
    requires instance in s.batches && s.batches[instance] == One(i, freeUsed) && LocksHold(s)
    requires s.books == Workspace(0, used, usage, []) && freeUsed <= 999_000 && i < |usage|
    ensures Step(s, Commit(instance, 0))
         == State(Workspace(0, used + 1_000, usage[i := usage[i].(billed := true)], []), s.batches - {instance})
  {
    CommitOne(s, instance, i, freeUsed);
    assert L.FreeConsumed(1_000, freeUsed) == 1_000;
    assert L.MarkBilled(usage, {i}) == usage[i := usage[i].(billed := true)];
    assert s.books.accounts["w" := Account(0, used + 1_000, false)] == map["w" := Account(0, used + 1_000, false)];
  }

  lemma PaidCommit(s: State, instance: nat, i: nat, usage: seq<Usage>)
    requires instance in s.batches && s.batches[instance] == One(i, 1_000_000) && LocksHold(s)
    requires s.books == Workspace(0, 1_000_000, usage, [])
    ensures Step(s, Commit(instance, 0)).books.accounts == map["w" := Account(-300, 1_000_000, false)]
  {
    CommitOne(s, instance, i, 1_000_000);
    assert L.FreeConsumed(1_000, 1_000_000) == 0;
    assert L.Cost(1_000) == 300;
  }

  lemma AfterSnoc(s: State, events: seq<Event>, e: Event)
    ensures After(s, events + [e]) == Step(After(s, events), e)
  {
    assert (events + [e])[..|events + [e]| - 1] == events;
  }

  lemma AfterFour(s: State, a: Event, b: Event, c: Event, d: Event)
    ensures After(s, [a, b, c, d]) == Step(Step(Step(Step(s, a), b), c), d)
  {
    AfterSnoc(s, [], a);
    AfterSnoc(s, [a], b);
    AfterSnoc(s, [a, b], c);
    AfterSnoc(s, [a, b, c], d);
    DisplaysGrow(a, b, c, d);
  }

  const FIRST: Event := Query(1, {0}, ["w"])
  const SECOND: Event := Query(2, {1}, ["w"])

  lemma FirstQuery()
    ensures Step(NEARLY_USED_UP, FIRST) == NEARLY_USED_UP.(batches := map[1 := One(0, 999_000)])
    ensures LocksHold(Step(NEARLY_USED_UP, FIRST))
  {
    QueryOne(NEARLY_USED_UP, 1, 0);
    StepKeepsLocks(NEARLY_USED_UP, FIRST);
  }

  lemma CommitThenQuery(s: State)
    requires s == NEARLY_USED_UP.(batches := map[1 := One(0, 999_000)]) && LocksHold(s)
    ensures var r := Step(Step(s, Commit(1, 0)), SECOND);
            r == State(Workspace(0, 1_000_000, [BILLED, EVENT], []), map[2 := One(1, 1_000_000)]) && LocksHold(r)
  {
    FreeCommit(s, 1, 0, 999_000, 999_000, [EVENT, EVENT]);
    StepKeepsLocks(s, Commit(1, 0));
    var r := Step(s, Commit(1, 0));
    assert r == State(Workspace(0, 1_000_000, [BILLED, EVENT], []), map[]);
    QueryOne(r, 2, 1);
    StepKeepsLocks(r, SECOND);
  }

  lemma QueryThenCommit(s: State)
    requires s == NEARLY_USED_UP.(batches := map[1 := One(0, 999_000)]) && LocksHold(s)
    ensures var r := Step(Step(s, SECOND), Commit(1, 0));
            r == State(Workspace(0, 1_000_000, [BILLED, EVENT], []), map[2 := One(1, 999_000)]) && LocksHold(r)
  {
    QueryOne(s, 2, 1);
    StepKeepsLocks(s, SECOND);
    var r := Step(s, SECOND);
    FreeCommit(r, 1, 0, 999_000, 999_000, [EVENT, EVENT]);
    StepKeepsLocks(r, Commit(1, 0));
  }

  /** One after the other, the second thousand is paid for. */
  lemma InTurnTheSecondPays()
    ensures After(NEARLY_USED_UP, [FIRST, Commit(1, 0), SECOND, Commit(2, 0)]).books.accounts
         == map["w" := Account(-300, 1_000_000, false)]
  {
    AfterFour(NEARLY_USED_UP, FIRST, Commit(1, 0), SECOND, Commit(2, 0));
    FirstQuery();
    CommitThenQuery(Step(NEARLY_USED_UP, FIRST));
    PaidCommit(Step(Step(Step(NEARLY_USED_UP, FIRST), Commit(1, 0)), SECOND), 2, 1, [BILLED, EVENT]);
  }

  /** Two instances that query before either commits both take the last thousand to be free, and the counter passes the
      allowance. */
  lemma TwoInstancesOverdraw()
    ensures After(NEARLY_USED_UP, [FIRST, SECOND, Commit(1, 0), Commit(2, 0)]).books.accounts
         == map["w" := Account(0, 1_001_000, false)]
  {
    AfterFour(NEARLY_USED_UP, FIRST, SECOND, Commit(1, 0), Commit(2, 0));
    FirstQuery();
    QueryThenCommit(Step(NEARLY_USED_UP, FIRST));
    FreeCommit(Step(Step(Step(NEARLY_USED_UP, FIRST), SECOND), Commit(1, 0)), 2, 1, 999_000, 1_000_000,
               [BILLED, EVENT]);
  }
}
